/** The already-parsed JSON documents the launcher works on: the version
    catalog, a release's metadata document and its asset index, together with
    the small wrapper types used for absent keys and raised exceptions. */
module Schema {

  /** A JSON key that may be absent (Python's `"key" in obj`). */
  datatype Option<+T> = None | Some(value: T)

  /** The exceptions the launcher's core can raise on well-formed documents. */
  datatype Error =
    | KeyError(key: string)    // a dictionary lookup on a missing key
    | NameError(name: string)  // a read of a name that is not bound

  /** A value, or the exception that aborted its computation. */
  datatype Result<+T> = Success(value: T) | Failure(error: Error)

  /** A platform rule: `action` is whatever string the document holds
      ("allow" and "disallow" are the two the launcher reacts to), `os` the
      optional platform constraint, compared as a plain string. */
  datatype Rule = Rule(action: string, os: Option<string>)

  /** A downloadable file: its path relative to the libraries directory and
      its remote location. */
  datatype Artifact = Artifact(path: string, url: string)

  /** A library entry of a release. A `Native` entry is one that carries a
      `natives` map (OS name to classifier-key template) and the artifacts of
      `downloads.classifiers`; any other entry is `Plain` and has
      `downloads.artifact`. */
  datatype Library =
    | Plain(rules: Option<seq<Rule>>, artifact: Artifact)
    | Native(rules: Option<seq<Rule>>, natives: map<string, string>, classifiers: map<string, Artifact>)

  /** One entry of the catalog's `versions` list. */
  datatype CatalogEntry = CatalogEntry(id: string, url: string)

  /** One entry of an asset index's `objects`, in document order. */
  datatype AssetEntry = AssetEntry(name: string, hash: string)

  datatype AssetIndex = AssetIndex(objects: seq<AssetEntry>)

  /** The `assetIndex` field of a release: the index's id and location. */
  datatype AssetIndexRef = AssetIndexRef(id: string, url: string)

  /** An item of `arguments.game`: a literal string, or a conditional object. */
  datatype GameArg = Literal(text: string) | Conditional

  /** A release's metadata document. `kind` is its `type` field and
      `clientUrl` its `downloads.client.url`. */
  datatype Release = Release(
    id: string,
    kind: string,
    mainClass: string,
    assetIndex: AssetIndexRef,
    clientUrl: string,
    libraries: seq<Library>,
    minecraftArguments: Option<string>,
    gameArguments: Option<seq<GameArg>>)

  /** A download of `url` to the local file `path`. */
  datatype Fetch = Fetch(url: string, path: string)

  /** The local paths a list of downloads writes. */
  function Paths(fetches: seq<Fetch>): set<string>
  {
    set f | f in fetches :: f.path
  }
}
