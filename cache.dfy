/** The fetch-if-absent cache (main.py:22-24, 41-50, 68-106). The file
    system is the set of present paths; every download adds its path and is
    appended to a log, so that "how many downloads happened" can be stated. */
module Cache {
  import opened Schema
  import opened Layout
  import opened Catalog
  import opened Dependencies

  datatype CacheState = CacheState(present: set<string>, log: seq<Fetch>)

  /** `check_download`: download unless the path already exists. */
  function Ensure(s: CacheState, f: Fetch): CacheState
  {
    if f.path in s.present then s else CacheState(s.present + {f.path}, s.log + [f])
  }

  /** Fetch-if-absent for each download of `fetches`, in order. */
  function EnsureAll(s: CacheState, fetches: seq<Fetch>): CacheState
    decreases |fetches|
  {
    if |fetches| == 0 then s
    else Ensure(EnsureAll(s, fetches[..|fetches| - 1]), fetches[|fetches| - 1])
  }

  /** The downloads a run performed: the log entries it added. */
  function NewFetches(before: CacheState, after: CacheState): seq<Fetch>
    requires |before.log| <= |after.log|
  {
    after.log[|before.log|..]
  }

  lemma {:induction false} EnsureAllAppend(s: CacheState, a: seq<Fetch>, b: seq<Fetch>)
    ensures EnsureAll(s, a + b) == EnsureAll(EnsureAll(s, a), b)
    decreases |b|
  {
    if |b| == 0 {
      assert a + b == a;
    } else {
      assert (a + b)[..|a + b| - 1] == a + b[..|b| - 1];
      EnsureAllAppend(s, a, b[..|b| - 1]);
    }
  }

  /** After fetch-if-absent over a list of downloads, every path of the list
      is present and nothing else was added. */
  lemma {:induction false} EnsureAllPresent(s: CacheState, fetches: seq<Fetch>)
    ensures EnsureAll(s, fetches).present == s.present + Paths(fetches)
    decreases |fetches|
  {
    if |fetches| > 0 {
      var init, last := fetches[..|fetches| - 1], fetches[|fetches| - 1];
      EnsureAllPresent(s, init);
      assert fetches == init + [last];
      assert Paths(fetches) == Paths(init) + {last.path};
    }
  }

  /** Fetch-if-absent only appends to the log, at most once per download. */
  lemma {:induction false} EnsureAllLogGrows(s: CacheState, fetches: seq<Fetch>)
    ensures |s.log| <= |EnsureAll(s, fetches).log| <= |s.log| + |fetches|
    ensures EnsureAll(s, fetches).log[..|s.log|] == s.log
    decreases |fetches|
  {
    if |fetches| > 0 {
      EnsureAllLogGrows(s, fetches[..|fetches| - 1]);
    }
  }

  /** The downloads a fetch-if-absent run performs: one for each path that
      was missing, none repeated and none for a path that was already
      there. */
  lemma {:induction false} EnsureAllFetchesMissingOnce(s: CacheState, fetches: seq<Fetch>)
    ensures |s.log| <= |EnsureAll(s, fetches).log|
    ensures var added := NewFetches(s, EnsureAll(s, fetches));
      && (forall k :: 0 <= k < |added| ==> added[k] in fetches && added[k].path !in s.present)
      && (forall k, l :: 0 <= k < l < |added| ==> added[k].path != added[l].path)
      && Paths(added) == Paths(fetches) - s.present
    decreases |fetches|
  {
    EnsureAllLogGrows(s, fetches);
    if |fetches| > 0 {
      var init, last := fetches[..|fetches| - 1], fetches[|fetches| - 1];
      EnsureAllFetchesMissingOnce(s, init);
      EnsureAllPresent(s, init);
      EnsureAllLogGrows(s, init);
      var mid := EnsureAll(s, init);
      assert fetches == init + [last];
      assert Paths(fetches) == Paths(init) + {last.path};
      AddedStep(s, mid, last, init, fetches);
    }
  }

  /** One more fetch-if-absent step keeps the facts of
      `EnsureAllFetchesMissingOnce`. */
  lemma AddedStep(s: CacheState, mid: CacheState, last: Fetch, init: seq<Fetch>, fetches: seq<Fetch>)
    requires fetches == init + [last]
    requires |s.log| <= |mid.log| && mid.present == s.present + Paths(init)
    requires var added := NewFetches(s, mid);
      && (forall k :: 0 <= k < |added| ==> added[k] in init && added[k].path !in s.present)
      && (forall k, l :: 0 <= k < l < |added| ==> added[k].path != added[l].path)
      && Paths(added) == Paths(init) - s.present
    requires Paths(fetches) == Paths(init) + {last.path}
    ensures |s.log| <= |Ensure(mid, last).log|
    ensures var added := NewFetches(s, Ensure(mid, last));
      && (forall k :: 0 <= k < |added| ==> added[k] in fetches && added[k].path !in s.present)
      && (forall k, l :: 0 <= k < l < |added| ==> added[k].path != added[l].path)
      && Paths(added) == Paths(fetches) - s.present
  {
    var addedMid := NewFetches(s, mid);
    assert forall f :: f in init ==> f in fetches;
    if last.path !in mid.present {
      var added := NewFetches(s, Ensure(mid, last));
      assert added == addedMid + [last];
      assert Paths(added) == Paths(addedMid) + {last.path};
      forall k, l | 0 <= k < l < |added|
        ensures added[k].path != added[l].path
      {
        if l == |added| - 1 {
          assert added[k] == addedMid[k];
          assert added[k].path in Paths(addedMid);
        }
      }
    }
  }

  /** Downloads whose paths are all present already change nothing. */
  lemma {:induction false} EnsureAllNoop(s: CacheState, fetches: seq<Fetch>)
    requires Paths(fetches) <= s.present
    ensures EnsureAll(s, fetches) == s
    decreases |fetches|
  {
    if |fetches| > 0 {
      var init := fetches[..|fetches| - 1];
      assert fetches[|fetches| - 1] in fetches;
      assert Paths(init) <= Paths(fetches) by {
        forall p | p in Paths(init) ensures p in Paths(fetches) {
          var f :| f in init && f.path == p;
          assert f in fetches;
        }
      }
      EnsureAllNoop(s, init);
    }
  }

  /** Running the same downloads again performs none of them. */
  lemma EnsureAllIdempotent(s: CacheState, fetches: seq<Fetch>)
    ensures EnsureAll(EnsureAll(s, fetches), fetches) == EnsureAll(s, fetches)
  {
    EnsureAllPresent(s, fetches);
    EnsureAllNoop(EnsureAll(s, fetches), fetches);
  }

  /** The result of `download_version`: `NotFound` is its `return False`,
      `Done` its `return True`, `Raised` an exception out of it. */
  datatype Outcome = NotFound | Done | Raised(error: Error)

  datatype VersionRun = VersionRun(fetches: seq<Fetch>, outcome: Outcome)

  /** What `download_version(id)` downloads, in order, and how it ends, when
      the catalog is `catalog`, the metadata document at the release's url
      is `release` and the asset index document is `index`. */
  function VersionPlan(catalog: seq<CatalogEntry>, id: string, release: Release, index: AssetIndex,
                       osName: string, arch: string): VersionRun
  {
    var url := GetVersion(catalog, id);
    if url.None? || url.value == "" then VersionRun([], NotFound)
    else
      var head := [Fetch(url.value, JsonPath(id)), Fetch(release.assetIndex.url, IndexPath(release.assetIndex.id))];
      var libraries := LibraryPlan(release.libraries, osName, arch);
      if libraries.error.Some? then VersionRun(head + libraries.fetches, Raised(libraries.error.value))
      else VersionRun(head + libraries.fetches + AssetFetches(index) + [Fetch(release.clientUrl, JarPath(id))], Done)
  }

  /** An unknown release (or one whose catalog url is empty) is reported
      before anything is downloaded. */
  lemma UnknownReleaseFetchesNothing(s: CacheState, catalog: seq<CatalogEntry>, id: string, release: Release,
                                     index: AssetIndex, osName: string, arch: string)
    requires forall i :: 0 <= i < |catalog| ==> catalog[i].id != id
    ensures VersionPlan(catalog, id, release, index, osName, arch).outcome == NotFound
    ensures EnsureAll(s, VersionPlan(catalog, id, release, index, osName, arch).fetches) == s
  {
  }

  /** Re-running `download_version` on the cache the first run left behind
      downloads nothing. */
  lemma RerunDownloadsNothing(s: CacheState, catalog: seq<CatalogEntry>, id: string, release: Release,
                              index: AssetIndex, osName: string, arch: string)
    ensures var run := VersionPlan(catalog, id, release, index, osName, arch);
      var first := EnsureAll(s, run.fetches);
      EnsureAll(first, run.fetches) == first
  {
    EnsureAllIdempotent(s, VersionPlan(catalog, id, release, index, osName, arch).fetches);
  }

  /** After a `download_version` that returns True, everything the launch
      reads is present: the metadata document, the main jar, every classpath
      entry, every native archive and every asset object. */
  lemma DoneLeavesLaunchReady(s: CacheState, catalog: seq<CatalogEntry>, id: string, release: Release,
                              index: AssetIndex, osName: string, arch: string)
    requires VersionPlan(catalog, id, release, index, osName, arch).outcome == Done
    ensures var after := EnsureAll(s, VersionPlan(catalog, id, release, index, osName, arch).fetches);
      && JsonPath(id) in after.present
      && JarPath(id) in after.present
      && (forall p :: p in ClasspathEntries(release.libraries, osName) ==> p in after.present)
      && NativeArchives(release.libraries, osName, arch).error.None?
      && (forall p :: p in NativeArchives(release.libraries, osName, arch).archives ==> p in after.present)
      && (forall k :: 0 <= k < |index.objects| ==> AssetPath(index.objects[k].hash) in after.present)
  {
    var run := VersionPlan(catalog, id, release, index, osName, arch);
    var url := GetVersion(catalog, id);
    var head := [Fetch(url.value, JsonPath(id)), Fetch(release.assetIndex.url, IndexPath(release.assetIndex.id))];
    var libraries := LibraryPlan(release.libraries, osName, arch);
    var assets := AssetFetches(index);
    var jar := Fetch(release.clientUrl, JarPath(id));
    assert run.fetches == head + libraries.fetches + assets + [jar];
    var after := EnsureAll(s, run.fetches);
    EnsureAllPresent(s, run.fetches);
    DownloadsMatchLaunch(release.libraries, osName, arch);
    assert head[0] in run.fetches;
    assert jar in run.fetches;
    forall p | p in Paths(libraries.fetches)
      ensures p in after.present
    {
      var f :| f in libraries.fetches && f.path == p;
      assert f in run.fetches;
    }
    forall k | 0 <= k < |index.objects|
      ensures AssetPath(index.objects[k].hash) in after.present
    {
      assert assets[k] in run.fetches;
    }
  }

  /** The model of main.py:68-75 as written: line 70 reads the unbound name
      `objects`, so the first iteration raises NameError before anything is
      downloaded; only an empty index gets through. */
  function DownloadResourcesAsWritten(s: CacheState, index: AssetIndex): (CacheState, Option<Error>)
  {
    if |index.objects| == 0 then (s, None) else (s, Some(NameError("objects")))
  }

  /** As written, an asset that is missing stays missing, while the
      corrected loop (`DownloadResourcesFetchesEveryAsset`) stores it. */
  lemma AsWrittenLeavesAssetsMissing(s: CacheState, index: AssetIndex)
    requires |index.objects| > 0 && AssetPath(index.objects[0].hash) !in s.present
    ensures DownloadResourcesAsWritten(s, index).1 == Some(NameError("objects"))
    ensures AssetPath(index.objects[0].hash) !in DownloadResourcesAsWritten(s, index).0.present
    ensures AssetPath(index.objects[0].hash) in EnsureAll(s, AssetFetches(index)).present
  {
    EnsureAllPresent(s, AssetFetches(index));
    assert AssetFetches(index)[0] in AssetFetches(index);
  }

  /** `download_version` as written: the NameError of line 70 stops a run
      with a non-empty asset index after the metadata, index and library
      downloads, before the main jar; with an empty index it is the
      corrected run. */
  function VersionPlanAsWritten(catalog: seq<CatalogEntry>, id: string, release: Release, index: AssetIndex,
                                osName: string, arch: string): (run: VersionRun)
    ensures |index.objects| == 0 ==> run == VersionPlan(catalog, id, release, index, osName, arch)
    ensures VersionPlan(catalog, id, release, index, osName, arch).outcome != Done ==>
      run == VersionPlan(catalog, id, release, index, osName, arch)
  {
    var url := GetVersion(catalog, id);
    if url.None? || url.value == "" then VersionRun([], NotFound)
    else
      var head := [Fetch(url.value, JsonPath(id)), Fetch(release.assetIndex.url, IndexPath(release.assetIndex.id))];
      var libraries := LibraryPlan(release.libraries, osName, arch);
      if libraries.error.Some? then VersionRun(head + libraries.fetches, Raised(libraries.error.value))
      else if |index.objects| > 0 then VersionRun(head + libraries.fetches, Raised(NameError("objects")))
      else VersionRun(head + libraries.fetches + [Fetch(release.clientUrl, JarPath(id))], Done)
  }

  /** As written, a run that the corrected code completes raises NameError
      as soon as the index has an object, and the main jar it never reaches
      stays missing; the corrected run stores it. */
  lemma AsWrittenVersionLeavesJarMissing(s: CacheState, catalog: seq<CatalogEntry>, id: string, release: Release,
                                         index: AssetIndex, osName: string, arch: string)
    requires VersionPlan(catalog, id, release, index, osName, arch).outcome == Done
    requires |index.objects| > 0 && JarPath(id) !in s.present
    ensures VersionPlanAsWritten(catalog, id, release, index, osName, arch).outcome == Raised(NameError("objects"))
    ensures JarPath(id) !in EnsureAll(s, VersionPlanAsWritten(catalog, id, release, index, osName, arch).fetches).present
    ensures JarPath(id) in EnsureAll(s, VersionPlan(catalog, id, release, index, osName, arch).fetches).present
  {
    var url := GetVersion(catalog, id);
    var head := [Fetch(url.value, JsonPath(id)), Fetch(release.assetIndex.url, IndexPath(release.assetIndex.id))];
    var libraries := LibraryPlan(release.libraries, osName, arch);
    var asWritten := VersionPlanAsWritten(catalog, id, release, index, osName, arch).fetches;
    var jar := Fetch(release.clientUrl, JarPath(id));
    var corrected := VersionPlan(catalog, id, release, index, osName, arch).fetches;
    assert asWritten == head + libraries.fetches;
    assert corrected == head + libraries.fetches + AssetFetches(index) + [jar];
    EnsureAllPresent(s, asWritten);
    EnsureAllPresent(s, corrected);
    assert jar in corrected;
    LibraryPlanUnderLibraries(release.libraries, osName, arch);
    forall f | f in asWritten
      ensures f.path != JarPath(id)
    {
      if f in libraries.fetches {
        var p :| f.path == LibPath(p);
        JarPathDistinct(id, release.assetIndex.id, p);
      } else {
        JarPathDistinct(id, release.assetIndex.id, "");
      }
    }
  }

  /** The corrected `download_resources` (reading `index["objects"][name]["hash"]`)
      leaves every asset object of the index present, downloading each hash
      that was missing exactly once even when several names share it. */
  lemma DownloadResourcesFetchesEveryAsset(s: CacheState, index: AssetIndex)
    ensures var after := EnsureAll(s, AssetFetches(index));
      && (forall k :: 0 <= k < |index.objects| ==> AssetPath(index.objects[k].hash) in after.present)
      && |s.log| <= |after.log|
      && (forall k, l :: 0 <= k < l < |NewFetches(s, after)| ==> NewFetches(s, after)[k].path != NewFetches(s, after)[l].path)
  {
    EnsureAllPresent(s, AssetFetches(index));
    EnsureAllFetchesMissingOnce(s, AssetFetches(index));
    forall k | 0 <= k < |index.objects|
      ensures AssetPath(index.objects[k].hash) in Paths(AssetFetches(index))
    {
      assert AssetFetches(index)[k] in AssetFetches(index);
    }
  }

  /** The local files and the download log, updated in place. */
  class FileCache {
    var present: set<string>
    var log: seq<Fetch>

    constructor (initial: set<string>)
      ensures present == initial && log == []
    {
      present := initial;
      log := [];
    }

    function State(): CacheState
      reads this
    {
      CacheState(present, log)
    }

    /** `download(url, path)`: the file is written and the download logged. */
    method Download(url: string, path: string)
      modifies this
      ensures present == old(present) + {path}
      ensures log == old(log) + [Fetch(url, path)]
    {
      present := present + {path};
      log := log + [Fetch(url, path)];
    }

    /** `check_download`. */
    method CheckDownload(path: string, url: string)
      modifies this
      ensures State() == Ensure(old(State()), Fetch(url, path))
      ensures path in present
    {
      if path !in present {
        Download(url, path);
      }
    }

    /** `check_files`, without the directory creation: the catalog is
        downloaded once. */
    method CheckFiles()
      modifies this
      ensures State() == Ensure(old(State()), Fetch(ManifestUrl, ManifestPath))
    {
      CheckDownload(ManifestPath, ManifestUrl);
    }

    /** `download_resources`, corrected to read each object's hash from the
        index. */
    method DownloadResources(index: AssetIndex)
      modifies this
      ensures State() == EnsureAll(old(State()), AssetFetches(index))
    {
      var fetches := AssetFetches(index);
      for i := 0 to |index.objects|
        invariant State() == EnsureAll(old(State()), fetches[..i])
      {
        var hash := index.objects[i].hash;
        var folder := HashFolder(hash);
        var path := ObjectsDir + "/" + folder + "/" + hash;
        if path !in present {
          Download(ResourcesUrl + "/" + folder + "/" + hash, path);
        }
        assert fetches[..i + 1][..i] == fetches[..i];
      }
      assert fetches[..|index.objects|] == fetches;
    }

    /** `download_libraries`: returns the exception that aborts the loop, if
        any. */
    method DownloadLibraries(libraries: seq<Library>, osName: string, arch: string) returns (error: Option<Error>)
      modifies this
      ensures error == LibraryPlan(libraries, osName, arch).error
      ensures State() == EnsureAll(old(State()), LibraryPlan(libraries, osName, arch).fetches)
    {
      ghost var done: seq<Fetch> := [];
      var i := 0;
      while i < |libraries|
        invariant 0 <= i <= |libraries|
        invariant LibraryPlan(libraries, osName, arch) ==
          Plan(done + LibraryPlan(libraries[i..], osName, arch).fetches, LibraryPlan(libraries[i..], osName, arch).error)
        invariant State() == EnsureAll(old(State()), done)
      {
        var library := libraries[i];
        assert libraries[i..][1..] == libraries[i + 1..];
        if library.Plain? && library.rules.Some? {
          var ok := Rules.CheckRules(library.rules.value, osName);
          if !ok {
            i := i + 1;
            continue;
          }
        }
        var lib: Artifact;
        if library.Native? {
          if osName in library.natives {
            var key := Text.ReplaceAll(library.natives[osName], "${arch}", arch);
            if key !in library.classifiers {
              assert libraries[i..][0] == library;
              assert LibraryStep(library, osName, arch) == Missing(key);
              assert done + [] == done;
              return Some(KeyError(key));
            }
            lib := library.classifiers[key];
          } else {
            i := i + 1;
            continue;
          }
        } else {
          lib := library.artifact;
        }
        var path := LibPath(lib.path);
        if path !in present {
          Download(lib.url, path);
        }
        assert (done + [Fetch(lib.url, path)])[..|done|] == done;
        done := done + [Fetch(lib.url, path)];
        i := i + 1;
      }
      assert libraries[i..] == [];
      assert done + [] == done;
      return None;
    }

    /** `download_version`: `release` stands for the metadata document served
        at the release's url and `index` for the asset index document. */
    method DownloadVersion(catalog: seq<CatalogEntry>, id: string, release: Release, index: AssetIndex,
                           osName: string, arch: string) returns (outcome: Outcome)
      modifies this
      ensures outcome == VersionPlan(catalog, id, release, index, osName, arch).outcome
      ensures State() == EnsureAll(old(State()), VersionPlan(catalog, id, release, index, osName, arch).fetches)
    {
      var url := GetVersion(catalog, id);
      if url.None? || url.value == "" {
        return NotFound;
      }
      ghost var s0 := State();
      var jsonFetch := Fetch(url.value, JsonPath(id));
      var indexFetch := Fetch(release.assetIndex.url, IndexPath(release.assetIndex.id));
      CheckDownload(JsonPath(id), url.value);
      CheckDownload(IndexPath(release.assetIndex.id), release.assetIndex.url);
      ghost var head := [jsonFetch, indexFetch];
      assert EnsureAll(s0, [jsonFetch]) == Ensure(s0, jsonFetch) by {
        assert [jsonFetch][..0] == [];
      }
      assert head[..1] == [jsonFetch];
      assert State() == EnsureAll(s0, head);
      ghost var libraries := LibraryPlan(release.libraries, osName, arch);
      var error := DownloadLibraries(release.libraries, osName, arch);
      EnsureAllAppend(s0, head, libraries.fetches);
      if error.Some? {
        return Raised(error.value);
      }
      DownloadResources(index);
      EnsureAllAppend(s0, head + libraries.fetches, AssetFetches(index));
      var jarFetch := Fetch(release.clientUrl, JarPath(id));
      CheckDownload(JarPath(id), release.clientUrl);
      EnsureAllAppend(s0, head + libraries.fetches + AssetFetches(index), [jarFetch]);
      return Done;
    }
  }
}
