/** The launcher's local file layout (main.py:7-14) and the paths and
    download locations it derives from release ids, library paths and asset
    hashes. */
module Layout {

  const MinecraftPath: string := "./minecraft"
  const ManifestPath: string := MinecraftPath + "/version_manifest.json"
  const AssetsDir: string := MinecraftPath + "/assets"
  const ObjectsDir: string := AssetsDir + "/objects"
  const IndexesDir: string := AssetsDir + "/indexes"
  const NativesDir: string := MinecraftPath + "/natives"
  const LibrariesDir: string := MinecraftPath + "/libraries"
  const VersionsDir: string := MinecraftPath + "/versions"

  const ManifestUrl: string := "https://launchermeta.mojang.com/mc/game/version_manifest.json"
  const ResourcesUrl: string := "https://resources.download.minecraft.net"

  /** The cached metadata document of release `id`. */
  function JsonPath(id: string): string
  {
    VersionsDir + "/" + id + "/" + id + ".json"
  }

  /** The cached main jar of release `id`. */
  function JarPath(id: string): string
  {
    VersionsDir + "/" + id + "/" + id + ".jar"
  }

  /** The cached asset index with the given index id. */
  function IndexPath(indexId: string): string
  {
    IndexesDir + "/" + indexId + ".json"
  }

  /** A library artifact's local file. */
  function LibPath(path: string): string
  {
    LibrariesDir + "/" + path
  }

  /** The per-release native staging directory. */
  function NativesPath(id: string): string
  {
    NativesDir + "/" + id
  }

  /** Python's `hash[:2]`: the first two characters, or all of a shorter hash. */
  function HashFolder(hash: string): string
  {
    if |hash| < 2 then hash else hash[..2]
  }

  /** The content-addressed location of an asset object. */
  function AssetPath(hash: string): string
  {
    ObjectsDir + "/" + HashFolder(hash) + "/" + hash
  }

  function AssetUrl(hash: string): string
  {
    ResourcesUrl + "/" + HashFolder(hash) + "/" + hash
  }

  /** A release's main jar is neither its metadata document, nor an asset
      index, nor a library artifact: the three live under different
      directories or end differently. */
  lemma JarPathDistinct(id: string, indexId: string, path: string)
    ensures JarPath(id) != JsonPath(id)
    ensures JarPath(id) != IndexPath(indexId)
    ensures JarPath(id) != LibPath(path)
  {
    assert |JsonPath(id)| == |JarPath(id)| + 1;
    assert JarPath(id)[12] == 'v';
    assert IndexPath(indexId)[12] == 'a';
    assert LibPath(path)[12] == 'l';
  }

  /** The asset store is content addressed both ways: equal hashes share a
      path, and different hashes never do. */
  lemma AssetPathInjective(h1: string, h2: string)
    ensures AssetPath(h1) == AssetPath(h2) <==> h1 == h2
  {
    if AssetPath(h1) == AssetPath(h2) {
      var p := AssetPath(h1);
      assert |p| == |ObjectsDir| + |HashFolder(h1)| + 2 + |h1|;
      assert |p| == |ObjectsDir| + |HashFolder(h2)| + 2 + |h2|;
      assert |h1| == |h2|;
      assert p[|p| - |h1|..] == h1;
      assert p[|p| - |h2|..] == h2;
    }
  }
}
