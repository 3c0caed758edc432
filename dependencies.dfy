/** Dependency selection: which library artifacts a release needs on the
    current platform (main.py:77-93, 108-128) and where its asset objects are
    stored (main.py:68-75). */
module Dependencies {
  import opened Schema
  import opened Text
  import opened Layout
  import opened Rules

  /** What the launcher does with one library entry. */
  datatype Step =
    | Skip                  // not needed on this platform
    | Get(artifact: Artifact)
    | Missing(key: string)  // `downloads.classifiers[key]` raises KeyError

  /** The classifier key of a natives map for this OS, with every `${arch}`
      replaced by the architecture, or None when the map has no entry for
      the OS. */
  function NativeKey(natives: map<string, string>, osName: string, arch: string): Option<string>
  {
    if osName in natives then Some(ReplaceAll(natives[osName], "${arch}", arch)) else None
  }

  /** The selection of a natives-bearing entry: it depends on the presence
      of the OS in its natives map only, never on the entry's rules. */
  function SelectNative(natives: map<string, string>, classifiers: map<string, Artifact>,
                        osName: string, arch: string): (step: Step)
    ensures step.Skip? <==> osName !in natives
    ensures step.Get? ==> exists key :: NativeKey(natives, osName, arch) == Some(key) &&
                                        key in classifiers && step.artifact == classifiers[key]
    ensures step.Missing? ==> NativeKey(natives, osName, arch) == Some(step.key) && step.key !in classifiers
  {
    match NativeKey(natives, osName, arch)
    case None => Skip
    case Some(key) => if key in classifiers then Get(classifiers[key]) else Missing(key)
  }

  /** The classifier key carries no `${arch}` once substituted, provided the
      template's every `$` opens a placeholder and the architecture string
      has no `$`. */
  lemma NativeKeyResolved(natives: map<string, string>, osName: string, arch: string)
    requires osName in natives
    requires DollarsOpen(natives[osName], {}) && NoDollar(arch)
    ensures NativeKey(natives, osName, arch).Some?
    ensures !Contains(NativeKey(natives, osName, arch).value, "${arch}")
  {
    ReplaceClears(natives[osName], "${arch}", arch, {});
    assert {} + {"${arch}"} == {"${arch}"};
    NoDoneOccurs(ReplaceAll(natives[osName], "${arch}", arch), {"${arch}"}, "${arch}");
  }

  /** The branch structure of `download_libraries` for one entry: a plain
      entry is gated by its rules when it has some; a natives-bearing entry
      by its natives map alone. */
  function LibraryStep(library: Library, osName: string, arch: string): Step
  {
    match library
    case Plain(rules, artifact) =>
      if rules.Some? && !Applies(rules.value, osName) then Skip else Get(artifact)
    case Native(_, natives, classifiers) =>
      SelectNative(natives, classifiers, osName, arch)
  }

  /** The downloads of `download_libraries`, in order, up to the entry that
      raises, and the exception it raises. */
  datatype Plan = Plan(fetches: seq<Fetch>, error: Option<Error>)

  function LibraryPlan(libraries: seq<Library>, osName: string, arch: string): Plan
    decreases |libraries|
  {
    if |libraries| == 0 then Plan([], None)
    else
      match LibraryStep(libraries[0], osName, arch)
      case Skip => LibraryPlan(libraries[1..], osName, arch)
      case Get(a) =>
        var rest := LibraryPlan(libraries[1..], osName, arch);
        Plan([Fetch(a.url, LibPath(a.path))] + rest.fetches, rest.error)
      case Missing(key) => Plan([], Some(KeyError(key)))
  }

  /** Every library download goes to a path under the libraries
      directory. */
  lemma {:induction false} LibraryPlanUnderLibraries(libraries: seq<Library>, osName: string, arch: string)
    ensures forall f :: f in LibraryPlan(libraries, osName, arch).fetches ==> exists p :: f.path == LibPath(p)
    decreases |libraries|
  {
    if |libraries| > 0 {
      LibraryPlanUnderLibraries(libraries[1..], osName, arch);
    }
  }

  /** A plain entry that belongs on the classpath. */
  predicate OnClasspath(library: Library, osName: string)
  {
    library.Plain? && (library.rules.None? || Applies(library.rules.value, osName))
  }

  /** The specification of `get_libraries`: the local path of every plain
      entry that passes its rules, in input order. */
  function ClasspathEntries(libraries: seq<Library>, osName: string): seq<string>
    decreases |libraries|
  {
    if |libraries| == 0 then []
    else
      (if OnClasspath(libraries[0], osName) then [LibPath(libraries[0].artifact.path)] else [])
      + ClasspathEntries(libraries[1..], osName)
  }

  /** `get_libraries`. */
  method GetLibraries(libraries: seq<Library>, osName: string) returns (liblist: seq<string>)
    ensures liblist == ClasspathEntries(libraries, osName)
  {
    liblist := [];
    var i := 0;
    while i < |libraries|
      invariant 0 <= i <= |libraries|
      invariant liblist + ClasspathEntries(libraries[i..], osName) == ClasspathEntries(libraries, osName)
    {
      var library := libraries[i];
      assert libraries[i..][1..] == libraries[i + 1..];
      if library.Plain? {
        if library.rules.Some? {
          var ok := CheckRules(library.rules.value, osName);
          if !ok {
            i := i + 1;
            continue;
          }
        }
        liblist := liblist + [LibPath(library.artifact.path)];
      }
      i := i + 1;
    }
    assert libraries[i..] == [];
  }

  /** The classpath holds exactly the plain entries that pass their rules,
      in input order, and never more entries than the input has. */
  lemma {:induction false} ClasspathEntriesExact(libraries: seq<Library>, osName: string)
    ensures |ClasspathEntries(libraries, osName)| <= |libraries|
    ensures forall p :: p in ClasspathEntries(libraries, osName) <==>
      exists i :: 0 <= i < |libraries| && OnClasspath(libraries[i], osName) && p == LibPath(libraries[i].artifact.path)
    decreases |libraries|
  {
    if |libraries| > 0 {
      var tail := libraries[1..];
      ClasspathEntriesExact(tail, osName);
      forall p
        ensures p in ClasspathEntries(libraries, osName) <==>
          exists i :: 0 <= i < |libraries| && OnClasspath(libraries[i], osName) && p == LibPath(libraries[i].artifact.path)
      {
        if exists i :: 0 <= i < |libraries| && OnClasspath(libraries[i], osName) && p == LibPath(libraries[i].artifact.path) {
          var i :| 0 <= i < |libraries| && OnClasspath(libraries[i], osName) && p == LibPath(libraries[i].artifact.path);
          if i > 0 {
            assert tail[i - 1] == libraries[i];
          }
        }
        if p in ClasspathEntries(tail, osName) {
          var i :| 0 <= i < |tail| && OnClasspath(tail[i], osName) && p == LibPath(tail[i].artifact.path);
          assert libraries[i + 1] == tail[i];
        }
      }
    }
  }

  /** The natives comprehension of `setup_natives` (main.py:111). */
  function NativeEntries(libraries: seq<Library>): (natives: seq<Library>)
    ensures |natives| <= |libraries|
    ensures forall k :: 0 <= k < |natives| ==> natives[k].Native?
    ensures forall l :: l in natives <==> l in libraries && l.Native?
    decreases |libraries|
  {
    if |libraries| == 0 then []
    else
      assert libraries == [libraries[0]] + libraries[1..];
      (if libraries[0].Native? then [libraries[0]] else []) + NativeEntries(libraries[1..])
  }

  /** The archives `setup_natives` extracts, in order, up to the entry that
      raises, and the exception it raises. */
  datatype Staging = Staging(archives: seq<string>, error: Option<Error>)

  function StageArchives(natives: seq<Library>, osName: string, arch: string): Staging
    requires forall k :: 0 <= k < |natives| ==> natives[k].Native?
    decreases |natives|
  {
    if |natives| == 0 then Staging([], None)
    else
      match SelectNative(natives[0].natives, natives[0].classifiers, osName, arch)
      case Skip => StageArchives(natives[1..], osName, arch)
      case Get(a) =>
        var rest := StageArchives(natives[1..], osName, arch);
        Staging([LibPath(a.path)] + rest.archives, rest.error)
      case Missing(key) => Staging([], Some(KeyError(key)))
  }

  /** The native archives `setup_natives` selects for a library list. */
  function NativeArchives(libraries: seq<Library>, osName: string, arch: string): Staging
  {
    StageArchives(NativeEntries(libraries), osName, arch)
  }

  /** Native staging of a non-empty list: the first entry's selection, then
      the rest. */
  lemma NativeArchivesCons(libraries: seq<Library>, osName: string, arch: string)
    requires |libraries| > 0
    ensures var lib, rest := libraries[0], NativeArchives(libraries[1..], osName, arch);
      NativeArchives(libraries, osName, arch) ==
        if !lib.Native? then rest
        else match SelectNative(lib.natives, lib.classifiers, osName, arch)
          case Skip => rest
          case Get(a) => Staging([LibPath(a.path)] + rest.archives, rest.error)
          case Missing(key) => Staging([], Some(KeyError(key)))
  {
    var natives := NativeEntries(libraries);
    if libraries[0].Native? {
      assert natives[0] == libraries[0] && natives[1..] == NativeEntries(libraries[1..]);
    } else {
      assert natives == NativeEntries(libraries[1..]);
    }
  }

  /** `download_libraries` raises exactly when native staging raises, with
      the same exception. */
  lemma {:induction false} DownloadErrorMatchesStaging(libraries: seq<Library>, osName: string, arch: string)
    ensures LibraryPlan(libraries, osName, arch).error == NativeArchives(libraries, osName, arch).error
    decreases |libraries|
  {
    if |libraries| > 0 {
      DownloadErrorMatchesStaging(libraries[1..], osName, arch);
      NativeArchivesCons(libraries, osName, arch);
    }
  }

  /** `download_libraries` and the launch agree: it raises exactly when
      native staging raises, with the same exception, and when it does not
      it downloads exactly the classpath entries and the native archives. */
  lemma {:induction false} DownloadsMatchLaunch(libraries: seq<Library>, osName: string, arch: string)
    ensures LibraryPlan(libraries, osName, arch).error == NativeArchives(libraries, osName, arch).error
    ensures LibraryPlan(libraries, osName, arch).error.None? ==>
      Paths(LibraryPlan(libraries, osName, arch).fetches) ==
        (set p | p in ClasspathEntries(libraries, osName)) + (set p | p in NativeArchives(libraries, osName, arch).archives)
    decreases |libraries|
  {
    DownloadErrorMatchesStaging(libraries, osName, arch);
    if |libraries| > 0 && LibraryPlan(libraries, osName, arch).error.None? {
      var lib, tail := libraries[0], libraries[1..];
      DownloadsMatchLaunch(tail, osName, arch);
      NativeArchivesCons(libraries, osName, arch);
      var rest := LibraryPlan(tail, osName, arch);
      match LibraryStep(lib, osName, arch)
      case Skip =>
      case Get(a) =>
        assert Paths([Fetch(a.url, LibPath(a.path))] + rest.fetches) == {LibPath(a.path)} + Paths(rest.fetches);
      case Missing(key) =>
    }
  }

  /** The download of one asset object to its content-addressed path. */
  function AssetFetch(hash: string): Fetch
  {
    Fetch(AssetUrl(hash), AssetPath(hash))
  }

  /** The downloads of `download_resources`, in index order. */
  function AssetFetches(index: AssetIndex): (fetches: seq<Fetch>)
    ensures |fetches| == |index.objects|
    ensures Paths(fetches) == set o | o in index.objects :: AssetPath(o.hash)
  {
    var fetches := seq(|index.objects|, k requires 0 <= k < |index.objects| => AssetFetch(index.objects[k].hash));
    assert Paths(fetches) == set o | o in index.objects :: AssetPath(o.hash) by {
      forall p | p in Paths(fetches)
        ensures p in set o | o in index.objects :: AssetPath(o.hash)
      {
        var k :| 0 <= k < |fetches| && fetches[k].path == p;
        assert index.objects[k] in index.objects;
      }
      forall p | p in set o | o in index.objects :: AssetPath(o.hash)
        ensures p in Paths(fetches)
      {
        var k :| 0 <= k < |index.objects| && AssetPath(index.objects[k].hash) == p;
        assert fetches[k] in fetches;
      }
    }
    fetches
  }

  /** An asset's cache location depends on its hash alone: two objects with
      the same hash, whatever their names, share one path, and objects with
      different hashes never do. */
  lemma AssetPathsByHash(index: AssetIndex, i: nat, j: nat)
    requires i < |index.objects| && j < |index.objects|
    ensures AssetFetches(index)[i].path == AssetFetches(index)[j].path <==>
      index.objects[i].hash == index.objects[j].hash
  {
    AssetPathInjective(index.objects[i].hash, index.objects[j].hash);
  }
}
