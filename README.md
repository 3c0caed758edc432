# pycraft launcher core in Dafny

This project models the resolution and acquisition engine of the pycraft
Minecraft launcher (`main.py`). It covers:

- looking a release up in the version catalog;
- evaluating library platform rules;
- choosing the library artifacts and native archives a release needs;
- the content-addressed asset store;
- the download cache: a file is fetched only when its path is absent;
- building the launch arguments and the classpath;
- parsing a command line into a handler call.

The modules follow the program's components:

- `Schema` (schema.dfy): the parsed JSON documents (catalog, release metadata, library entries, asset index) as datatypes, and the exceptions the code can raise.
- `Text` (text.dfy): Python's `str.replace`, `str.split`, `str.split(c, 1)` and `sep.join`, and facts about `${...}` placeholders.
- `Layout` (layout.dfy): the directory constants (main.py:7-14) and the paths and URLs derived from them.
- `Rules` (rules.dfy): `check_rules`.
- `Catalog` (catalog.dfy): `get_version`.
- `Dependencies` (dependencies.dfy): library selection for download, for the classpath and for native staging; the asset downloads.
- `Cache` (cache.dfy): the file cache as a class (`FileCache`) whose methods are the downloading functions, and its value-level specification (`CacheState`, `EnsureAll`).
- `Launch` (launch.dfy): `get_arguments` and `start_version` up to the command it would run.
- `Commands` (commands.dfy): `process_command` up to the `exec` call.

The cache is a set of present paths plus a log of the downloads performed.
`check_download` (main.py:48-50) downloads exactly when the path is absent.
Every downloading loop is proved equal to a fold of that step over a fetch
list computed by a pure function (`LibraryPlan`, `AssetFetches`,
`VersionPlan`). The lemmas about the fold carry the cache properties:

- at most one download per path;
- only missing paths are fetched;
- a second run downloads nothing.

The OS name and architecture (main.py:16-17) are parameters, not the
constants `windows` and `64`. Parsed documents are inputs.

Behaviours the model keeps as the code has them:

- Rule evaluation. A matching `disallow` anywhere in the list makes the
  result false (main.py:62-65), not only one that comes after an `allow`.
  The verdict is "some rule enables, and no rule blocks"
  (`Rules.CheckRules`).
- Errors. The code raises raw Python exceptions, such as `KeyError` for a
  missing classifier or a document without `arguments`, and the model
  carries the exception that escapes.
- Placeholder substitution is not complete in general. The replacements
  run one after the other on the growing text, so a value is itself subject
  to the later replacements: a player named `${auth_uuid}` is rewritten to
  `null` (`Launch.NicknameIsReSubstituted`). A value can also complete a
  placeholder that an earlier replacement has already passed: the release
  id `$` in front of `{auth_player_name}` leaves `${auth_player_name}` in
  the arguments (`Launch.ValueSpellsToken`). Completeness holds when every
  `$` in the template opens a placeholder and no substituted value contains
  `$` (`Launch.ArgumentsFreeOfTokens`).
- Empty catalog url. `download_version` tests `if not url`, so an empty url
  string counts as "not found", just as a missing release does.

## Model

| member | source | states |
|---|---|---|
| Layout.JarPathDistinct | main.py:100-105 | the main jar's path is never the release's metadata path, an asset index path or a library path |
| Layout.AssetPathInjective | main.py:70-72 | two asset objects share a cache path exactly when their hashes are equal (content addressing), including hashes shorter than two characters |
| Catalog.GetVersion | main.py:26-33 | returns None exactly when no catalog entry has the id; otherwise returns the url of the first entry with that id |
| Catalog.FirstMatchWins | main.py:29-32 | entries after the first match never affect the result; a repeated id resolves to its first occurrence |
| Rules.CheckRules | main.py:52-66 | the scan returns true exactly when some rule enables (an `allow` with no OS, or one naming the current OS) and no rule blocks (a `disallow` naming the current OS) |
| Rules.NonOsDisallowInert | main.py:62 | inserting a `disallow` without an OS anywhere in a rule list never changes the verdict |
| Rules.BlockWins | main.py:62-65 | a blocking `disallow` makes the list fail, wherever it stands relative to allows |
| Rules.DocumentedVerdicts | main.py:52-66 | the verdicts of the documented lists: `[allow]` true; `[allow, disallow X]` false on X; `[disallow X]` false; `[disallow]` false; `[]` false |
| Dependencies.SelectNative | main.py:82-87 | a natives-bearing entry is skipped exactly when its natives map lacks the OS; otherwise the OS's classifier key with `${arch}` replaced selects the artifact, or a missing key is reported |
| Dependencies.NativeKeyResolved | main.py:84 | when the key template's every `$` opens a placeholder and the architecture has no `$`, the resolved key contains no `${arch}` |
| Dependencies.GetLibraries | main.py:120-128 | the classpath list is exactly the local paths of the plain entries that pass their rules, in input order |
| Dependencies.ClasspathEntriesExact | main.py:122-127 | the classpath never has more entries than the input; a path is on it exactly when some plain entry passing its rules has that path |
| Dependencies.NativeEntries | main.py:111 | an entry is kept by the natives comprehension exactly when it is in the input and bears natives; no entries are added |
| Dependencies.LibraryPlanUnderLibraries | main.py:88-93 | every library download goes to a path under the libraries directory |
| Dependencies.DownloadsMatchLaunch | main.py:77-93 | `download_libraries` raises exactly when native staging raises, with the same KeyError; otherwise the paths it ensures are exactly the classpath entries plus the native archives |
| Dependencies.AssetFetches | main.py:69-75 | one download per index object, and the paths downloaded are exactly the content-addressed paths of the objects' hashes |
| Dependencies.AssetPathsByHash | main.py:70-72 | two objects of one index share a download path exactly when they share a hash |
| Cache.EnsureAllAppend | main.py:48-50 | ensuring a concatenation of fetch lists is ensuring the first list, then the second |
| Cache.EnsureAllPresent | main.py:48-50 | after ensuring a fetch list, the present paths are the old ones plus every path in the list |
| Cache.EnsureAllLogGrows | main.py:48-50 | ensuring only appends to the download log, and at most one entry per fetch |
| Cache.EnsureAllFetchesMissingOnce | main.py:48-50 | the downloads performed come from the list, were absent beforehand, are pairwise distinct paths, and cover exactly the list's paths that were missing |
| Cache.EnsureAllNoop | main.py:48-50 | when every path of the list is already present, nothing is downloaded and nothing changes |
| Cache.EnsureAllIdempotent | main.py:48-50 | ensuring the same list twice equals ensuring it once |
| Cache.UnknownReleaseFetchesNothing | main.py:95-98 | a release absent from the catalog ends as not found with the cache unchanged |
| Cache.RerunDownloadsNothing | main.py:95-106 | with line 70 corrected (see Findings), a second `download_version` on the cache the first left behind downloads nothing |
| Cache.DoneLeavesLaunchReady | main.py:95-106 | with line 70 corrected (see Findings), after a run that returns True, these are present: the metadata document, the jar, every classpath entry, every native archive (and staging raises nothing), and every asset object |
| Cache.AsWrittenLeavesAssetsMissing | main.py:68-70 | as written, a non-empty index raises NameError on `objects` and a missing asset stays missing, whereas the corrected loop stores it |
| Cache.VersionPlanAsWritten | main.py:95-106 | as written, a run with an empty asset index, or one that ends before the assets, is the corrected run |
| Cache.AsWrittenVersionLeavesJarMissing | main.py:68-106 | as written, a run the corrected code completes raises NameError on `objects` when the index has an object, after the metadata, index and library downloads, and a missing jar stays missing; the corrected run stores it |
| Cache.DownloadResourcesFetchesEveryAsset | main.py:68-75 | the corrected asset loop leaves every object of the index present and downloads each missing hash once, even when several names share a hash |
| Cache.FileCache.Download | main.py:22-24 | the path becomes present and the fetch is logged |
| Cache.FileCache.CheckDownload | main.py:48-50 | the new state is one ensure step: download when absent, otherwise nothing; afterwards the path is present |
| Cache.FileCache.CheckFiles | main.py:35-42 | the catalog file is ensured from its fixed URL; directory creation is not modelled |
| Cache.FileCache.DownloadResources | main.py:68-75 | the corrected loop's new state is the ensure fold over the index's asset downloads |
| Cache.FileCache.DownloadLibraries | main.py:77-93 | returns the KeyError of the first natives entry whose classifier is missing, or none; the new state is the ensure fold over the library downloads planned before that point |
| Cache.FileCache.DownloadVersion | main.py:95-106 | with line 70 corrected (see Findings), the outcome (not found, done, raised) and the new state are those of the plan: metadata, asset index, libraries, then the assets and the jar when nothing raised |
| Launch.Literals | main.py:132 | a string is among the texts exactly when it is a literal item of the list; there are no more texts than items |
| Launch.Replacements | main.py:135-141 | the table has ten entries whose keys are non-empty and pairwise distinct, as the keys of a dict are |
| Launch.ReplacementTokens | main.py:141 | every key of the table is a `${...}` placeholder |
| Launch.GetArguments | main.py:130-144 | with neither argument form present, the KeyError is returned; otherwise the result is the template with each table entry replaced in table order |
| Launch.SubstituteClears | main.py:142-143 | when every `$` of the input opens a placeholder and no value has `$`, every `$` of the output still opens a placeholder, and none of them is one of the replaced tokens |
| Launch.ArgumentsFreeOfTokens | main.py:130-144 | under that hypothesis on the template and the values, the arguments contain none of the ten placeholders |
| Launch.NicknameIsReSubstituted | main.py:141-143 | without the hypothesis, the nickname `${auth_uuid}` in the template `${auth_player_name}` yields `null`, not the nickname |
| Launch.ValueSpellsToken | main.py:135-143 | without the hypothesis, the template `${version_name}{auth_player_name}` with the release id `$` yields `${auth_player_name}`: a placeholder survives the substitution |
| Launch.TemplateListsLiterals | main.py:131-132 | without `minecraftArguments`, the template splits on spaces back into the literal items, provided there is at least one and none contains a space |
| Launch.ClasspathLists | main.py:149-152 | the classpath splits on `;` into the library paths in order followed by the jar; with no library its first entry is empty |
| Launch.StartVersion | main.py:146-155 | the command line has the natives directory, the classpath of the plain libraries and the jar, the main class, and the substituted arguments; otherwise it reports the error that stops the launch first |
| Text.Split | main.py:165 | the split of any string has at least one part, no part contains the separator, and joining the parts with the separator gives the string back |
| Text.SplitOnce | main.py:159 | the head has no separator; with no separator the head is the whole string; otherwise the string is head, separator, tail |
| Text.SplitJoin | main.py:132 | splitting a non-empty list joined by a character the parts lack gives the list back |
| Text.CommaSpacing | main.py:165 | splitting on `,` and joining with `, ` equals replacing every `,` with `, ` |
| Text.ReplaceAllAbsent | main.py:143 | replacing an absent pattern changes nothing |
| Text.ReplaceClears | main.py:84 | replacing a placeholder with a `$`-free value leaves a string where every `$` opens a placeholder other than the replaced one and the earlier ones |
| Commands.Route | main.py:157-169 | the line is rejected exactly when the word before the first space is not in the command table; the rejected word is that word |
| Commands.DispatchWithArguments | main.py:158-169 | a known word, a space, then `rest` invokes the word's handler with `rest`, each comma followed by a space |
| Commands.DispatchBare | main.py:158-169 | a known word alone invokes its handler with no arguments |
| Commands.LauncherCommands | main.py:157-169 | each of `clear`, `download` and `start` invokes its handler: on the rest of the line, each comma followed by a space, when arguments follow, and with no arguments when the word stands alone |
| Commands.SplitOnceAt | main.py:159 | `split(" ", 1)` of word, space, rest gives the word and the rest; a word without a space comes back whole |
| Commands.ArgumentsWithoutCommas | main.py:164-165 | an argument text without commas reaches the handler unchanged |

## Left out

- Network and file I/O. Nothing models the bytes of `requests.get`, file
  writes, `open`/`json.loads`, or `exists` against a real filesystem. The
  cache is the set of present paths. Documents are already-parsed inputs.
- The unconditional fetches at main.py:99 and main.py:104. They read the
  metadata and the asset index from the network on every run and bypass the
  cache. They are not in the download log. Only the `check_download` calls
  are.
- Directory creation (`check_dir`, main.py:44-46 and its calls). It is a
  no-op in the model.
- Archive extraction (main.py:117-118). Native staging is modelled up to
  the list of archives it would open. `zipfile` and the extracted files are
  left out.
- `os.system`, `print`, `input` and the `main` loop (main.py:19-20,
  154-155, 173-179). They are process and terminal effects.
- Commands.Route: models the Python call text handed to `exec`, not the
  evaluation of that text. For example, `download 1.20` calls
  `download_version(1.20)` with a float. Exceptions printed by the
  `try`/`except` are not modelled.
- Launch.StartVersion: reads the metadata document once, as the input
  `info`. The source reads the cached file twice (main.py:147-148 and
  109-110); both reads see the same file.
- Schema requirements. A plain library entry always has
  `downloads.artifact`, and every present key has the JSON type the code
  expects. A missing `artifact`, a release with `arguments` but no `game`,
  or wrongly-typed fields are malformed documents. Their KeyError/TypeError
  paths are not modelled.
- Rule `os` values. In real manifests `os` is an object (`{"name": ...}`),
  so the string comparison at main.py:60 and 63 never matches. The model
  compares a string-valued constraint, as the code does.
- `hash[:2]` on a shorter hash. It is modelled as Python slicing: the whole
  hash.

## Findings

| source | as written | input that shows it | evidently intended | confidence | as-written member | corrected member |
|---|---|---|---|---|---|---|
| main.py:70 | `hash = objects[object]["hash"]` reads the undefined global `objects` | any asset index with at least one object: the first iteration raises NameError, so no asset is downloaded, and `download_version` never reaches the jar download at main.py:105 | `index["objects"][object]["hash"]` | high; not executed | Cache.DownloadResourcesAsWritten (shown by Cache.AsWrittenLeavesAssetsMissing); Cache.VersionPlanAsWritten (shown by Cache.AsWrittenVersionLeavesJarMissing) | Cache.FileCache.DownloadResources (proved by Cache.DownloadResourcesFetchesEveryAsset) |
