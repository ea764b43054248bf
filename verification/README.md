# API collector core, modelled in Dafny

Blade-Space/core assembles a Go server out of API packages. It clones every
configured API repository into `apis/<name>`. It keeps the clones whose
local manifest `api.yml` reads and whose `API` identifier is published in
the registry (`packages/<api>.yaml` of the core repository). It strips the
build files of the kept clones and issues a remove of each rejected one, which
`os.Remove` refuses while the clone still has entries such as `.git`. Finally it
writes `out/app.go`, a gin program that imports each kept API's `routes`
package and mounts it under `/api/<api>`. A root-level prototype (`main.go`)
clones a fixed list of repositories one after the other and stops at the
first failure. It strips `go.mod` and `go.sum` from every clone without
consulting the registry, and it never removes `main.go` or a clone. It then
generates a smaller program, with no front end and no address banner, from a
fixed name list on port 3000.

This project models that core as pure functions over immutable data:

- `Wrappers`, `Seqs`, `Strings`, `Paths`, `FileSystem`: the support the
  program relies on. This covers Go's `strings.Split`, `TrimSuffix` and
  `Join`, and `path.Clean` and `filepath.Join` on a Unix host. It also covers
  `os.Remove` on a set of paths, with its log of calls, and the order in
  which goroutines deliver to a channel.
- `Models`: the records `APIInfo` and `APIYaml` and the failures of external
  steps.
- `ApiAssembler` (core/api_assembler/api_assembler.go): repository naming,
  cloning, the registry lookup, the manifest filter fold and its cleanup,
  and `Init`.
- `Format` and `HandlerCore` (core/handler_core/handler_core.go): the
  fragments, the template filled by `fmt.Sprintf`, the write of `out/app.go`
  and `Init`.
- `Prototype` (main.go): the sequential variants and the hard-coded run.
- `Pipeline` (cmd/main.go): the composition in `main`.

The outside world is passed in as parameters:

- `git clone` is `clone(url, dest)`.
- `http.Get` is `get`.
- Inside `ApiAssembler.ReadAPIInfo`, `ioutil.ReadFile` is `readFile` and `yaml.Unmarshal` is `decode`.
- The fold reads each manifest through `readManifest`, which stands for the whole of `readAPIInfo`.
  `ApiAssembler.AcceptedThroughRegistry` wires both oracles to their modelled functions.
- The registry lookup inside the fold is `fetchRegistry`.
- `os.MkdirAll` is `mkdirAll`, and `ioutil.WriteFile` is `writeFile`.
- The goroutines of `Init` finish in the order `Schedule(urls, picks)`.
  `picks` is any sequence of scheduler choices, and every completion order
  is reachable.
- `log.Fatalf` ends the run. This is the `Exited`/`Fatal` outcome, or the
  `fatal` result of the sequential clone loop.

## Model

| member | source | states |
|---|---|---|
| Strings.TrimSuffix | core/api_assembler/api_assembler.go:119 | one trailing occurrence of the suffix is removed when present; otherwise the string is unchanged |
| Strings.LastIndexOf | core/api_assembler/api_assembler.go:118-119 | the position of the last separator, with nothing after it equal to the separator; -1 exactly when the separator is absent |
| Strings.Split | core/api_assembler/api_assembler.go:118 | always at least one part, and no part contains the separator |
| Strings.JoinSplit | core/api_assembler/api_assembler.go:118 | joining the parts of a split with the separator gives back the input |
| Strings.SplitJoin | core/api_assembler/api_assembler.go:118 | splitting a join of separator-free parts gives back the parts |
| Strings.LastOfSplit | core/api_assembler/api_assembler.go:118-119 | the last part of a split is exactly the text after the last separator |
| Strings.JoinElement | core/handler_core/handler_core.go:144 | every part appears in the joined text |
| Strings.Join | core/handler_core/handler_core.go:144 | `strings.Join`; its contract is stated by `Strings.JoinSplit`, `Strings.SplitJoin` and `Strings.JoinElement`: the separator goes only between neighbours and no part is lost |
| Paths.Clean | core/api_assembler/api_assembler.go:135 | a cleaned path is never empty |
| Paths.CleanIdempotent | core/api_assembler/api_assembler.go:135 | a cleaned path is already clean, as `path.Clean` promises |
| Paths.JoinSimpleName | core/api_assembler/api_assembler.go:152-154 | joining a plain file name to a directory appends it to the cleaned directory |
| Paths.JoinPath | core/api_assembler/api_assembler.go:135 | `filepath.Join` of two arguments; by `Paths.JoinSimpleName`, a plain name lands directly below the cleaned directory |
| FileSystem.Remove | core/api_assembler/api_assembler.go:138 | the call is logged; the path disappears only if it exists with nothing below it; no other path changes |
| FileSystem.RemoveEach | core/api_assembler/api_assembler.go:152-154 | every call is logged in order; paths that were not named survive |
| FileSystem.RemoveEachIdempotent | core/api_assembler/api_assembler.go:152-154 | repeating removes of non-nested paths deletes nothing more |
| FileSystem.ShieldedSurvives | core/api_assembler/api_assembler.go:138 | a directory keeping an entry that no remove names survives the removes, and so does the entry |
| Seqs.Schedule | core/api_assembler/api_assembler.go:70-84 | the completion order is a permutation of the started tasks |
| Seqs.ScheduleWithoutPicksKeepsOrder | core/api_assembler/api_assembler.go:70-84 | without scheduler choices the tasks complete in start order |
| Seqs.ScheduleReachesEveryPermutation | core/api_assembler/api_assembler.go:70-84 | every permutation is a completion order some scheduler produces |
| Seqs.FilterMapMultiset | core/api_assembler/api_assembler.go:134-150 | reordering the input of a filter pass only reorders its output |
| Seqs.FilterMapSelects | core/api_assembler/api_assembler.go:134-150 | a filter pass keeps, in input order, exactly the accepted elements' values |
| ApiAssembler.ExtractRepoName | core/api_assembler/api_assembler.go:117-121 | the name never contains `/`, so a clone lands directly below `apis/` when the name is a plain element (not `""`, `.` or `..`) |
| ApiAssembler.ExtractRepoNameSegment | core/api_assembler/api_assembler.go:117-121 | checked against everything after the last `/`: the name is that segment less one trailing `.git`, or the segment itself when it has none; a URL ending in `/` gives `""` |
| ApiAssembler.RepoPathElements | core/api_assembler/api_assembler.go:102-107 | the clone path has exactly the elements `apis` and the repository name |
| ApiAssembler.RepoPath | core/api_assembler/api_assembler.go:107 | the clone directory; `ApiAssembler.RepoPathElements` states its elements are `apis` and the repository name |
| ApiAssembler.ExtractRepoNameAfterSlash | core/api_assembler/api_assembler.go:117-121 | the name depends only on the text after the last slash |
| ApiAssembler.ExtractRepoNameOfPlainUrl | core/api_assembler/api_assembler.go:117-121 | `https://github.com/Blade-Space/api-wwf` gives `api-wwf` and the clone path `apis/api-wwf` |
| ApiAssembler.ExtractRepoNameTrimsOnce | core/api_assembler/api_assembler.go:119 | a segment ending `.git.git` loses only its last `.git` |
| ApiAssembler.DownloadGitRepository | core/api_assembler/api_assembler.go:99-108 | the clone goes to `"apis/" + extractRepoName(url)`, and that path is returned exactly when the clone succeeds; a failure is fatal and carries the URL and cause |
| ApiAssembler.RegistryUrlRoundTrip | core/api_assembler/api_assembler.go:28 | the registry URL is the packages prefix, the identifier and `.yaml`; the identifier can be read back from it |
| ApiAssembler.RegistryUrl | core/api_assembler/api_assembler.go:28 | the registry address; `ApiAssembler.RegistryUrlRoundTrip` states that the identifier can be read back from it |
| ApiAssembler.FetchAndParseAPIYaml | core/api_assembler/api_assembler.go:27-52 | success exactly when the request, a 200 status, the body read and the decode all succeed; every error comes with the zero `APIYaml`; a non-200 status is an error carrying that status |
| ApiAssembler.FetchRequestsOnlyRegistryUrl | core/api_assembler/api_assembler.go:28-30 | the registry URL is the only address requested |
| ApiAssembler.ReadAPIInfo | core/api_assembler/api_assembler.go:173-187 | the manifest is the decoded file when both the read and the decode succeed; a read error is passed on |
| ApiAssembler.ManifestPath | core/api_assembler/api_assembler.go:135 | `filepath.Join(repoPath, "api.yml")`; `ApiAssembler.SingleRepository` states it is where the pass reads each manifest |
| ApiAssembler.AcceptedThroughRegistry | core/api_assembler/api_assembler.go:134-150 | with `readAPIInfo` and `FetchAndParseAPIYaml` as the oracles, a clone is kept iff its manifest reads and decodes and the registry answers 200 with a body that reads and decodes; any other status drops it |
| ApiAssembler.ReadAPIInfoFromRepositories | core/api_assembler/api_assembler.go:131-163 | at most one manifest per clone; the remove log grows by exactly the issued removes, in order |
| ApiAssembler.FoldKeepsAllIffAllAccepted | core/api_assembler/api_assembler.go:131-163 | a manifest is kept for every clone iff every clone is accepted |
| ApiAssembler.SingleRepository | core/api_assembler/api_assembler.go:134-154 | a failed manifest read or registry lookup keeps nothing and removes the clone path once; success keeps the local manifest and removes `go.mod`, `go.sum` and `main.go` |
| ApiAssembler.Verdict | core/api_assembler/api_assembler.go:134-150 | what the pass keeps of one clone; `ApiAssembler.SingleRepository` and `ApiAssembler.FoldKeepsVerdicts` state that the fold keeps exactly this |
| ApiAssembler.CleanupPaths | core/api_assembler/api_assembler.go:152-154 | the three build-file paths; `ApiAssembler.CleanupPathsShape` states they are siblings directly below the clone |
| ApiAssembler.Requests | core/api_assembler/api_assembler.go:136-154 | the removes for one clone: the clone path when rejected (lines 138 and 145), its three build files when kept (lines 152-154); `ApiAssembler.SingleRepository` states this per branch |
| ApiAssembler.IssuedRemoves | core/api_assembler/api_assembler.go:134-160 | the remove calls of a whole pass in order; `ApiAssembler.IssuedRemovesExactly` states which paths it names and `ApiAssembler.FoldAppliesIssuedRemoves` that the pass applies exactly these |
| ApiAssembler.FoldKeepsVerdicts | core/api_assembler/api_assembler.go:131-150 | the kept manifests equal an independent filter pass that keeps a clone's local manifest when it reads and the registry knows it |
| ApiAssembler.FoldSelectsAcceptedInOrder | core/api_assembler/api_assembler.go:134-150 | the output is the in-order subsequence of the accepted clones' local manifests, and no accepted clone is missed |
| ApiAssembler.RegistryPayloadIgnored | core/api_assembler/api_assembler.go:142-150 | only the registry lookup's success matters; the registry record is never appended |
| ApiAssembler.FoldAppliesIssuedRemoves | core/api_assembler/api_assembler.go:138-154 | the tree after the pass is the old tree with the issued removes applied in order |
| ApiAssembler.IssuedRemovesExactly | core/api_assembler/api_assembler.go:134-154 | the pass issues a remove of a path iff it is a rejected clone or a build file of an accepted clone |
| ApiAssembler.RejectedCloneStays | core/api_assembler/api_assembler.go:136-146 | a remove is issued for a rejected clone, yet the clone stays when it holds an entry (its `.git`) that no remove of the pass names |
| ApiAssembler.FoldInfosPermutation | core/api_assembler/api_assembler.go:131-163 | clones received in another order give the same kept manifests, reordered |
| ApiAssembler.CleanupPathsShape | core/api_assembler/api_assembler.go:152-154 | the three build files sit side by side directly below the clone, none inside another |
| ApiAssembler.CleanupIdempotent | core/api_assembler/api_assembler.go:152-154 | removing the build files again, with errors ignored, changes nothing |
| ApiAssembler.CloneDirIsClean | core/api_assembler/api_assembler.go:107 | a clone path with a plain name is already clean |
| ApiAssembler.CleanupKeepsCloneDir | core/api_assembler/api_assembler.go:152-154 | for a plain name, cleanup names exactly `go.mod`, `go.sum` and `main.go` inside the clone, and the clone directory stays |
| ApiAssembler.CloneDirNeverNamed | core/api_assembler/api_assembler.go:152-154 | for every clone path, `apis/` from a URL ending in `/` included, cleanup never names the clone path itself, so a clone directory present before cleanup is still there after it |
| ApiAssembler.FirstFatal | core/api_assembler/api_assembler.go:99-105 | there is no fatal clone iff every clone succeeds; otherwise it names a URL whose clone failed |
| ApiAssembler.Init | core/api_assembler/api_assembler.go:62-89 | the run exits iff some clone fails, naming a failing URL and its cause; otherwise at most one manifest per URL |
| ApiAssembler.InitJoinsEveryClone | core/api_assembler/api_assembler.go:68-86 | without failures the joined list has one clone path per URL, as a permutation of the URLs' clone paths, and it is what the pass receives |
| ApiAssembler.InitKeepsOnlyAccepted | core/api_assembler/api_assembler.go:62-89 | every kept manifest is the local manifest of an accepted clone of one of the URLs |
| ApiAssembler.InitOrderIrrelevant | core/api_assembler/api_assembler.go:68-86 | the kept manifests, as a multiset, do not depend on which clone finished first |
| Format.Interleave | core/handler_core/handler_core.go:44-144 | `fmt.Sprintf` for formats whose verbs are all `%s`; it builds every fragment (lines 38 and 39-41) and both programs (this template and main.go:91-108); `Format.InterleaveHole` states that argument k fills hole k |
| Format.InterleaveHole | core/handler_core/handler_core.go:144 | argument k fills hole k of the template, with the earlier pieces before it and the later ones after it |
| HandlerCore.ImportFragmentShape | core/handler_core/handler_core.go:38 | the import line is the alias `name`, then `"simplified-prototype-api-collector/apis/api-<name>/routes"` |
| HandlerCore.ImportFragment | core/handler_core/handler_core.go:38 | one import line; `HandlerCore.ImportFragmentShape` and `HandlerCore.ImportNameRoundTrip` state its text and that the name is recoverable |
| HandlerCore.GroupFragmentShape | core/handler_core/handler_core.go:39-41 | the group is a new line with `api<name> := r.Group("/api/<name>")`, then `<name>.RegisterRoutes(api<name>)` |
| HandlerCore.GroupFragment | core/handler_core/handler_core.go:39-41 | one route group; `HandlerCore.GroupFragmentShape` and `HandlerCore.GroupNameRoundTrip` state its text and that the name is recoverable |
| HandlerCore.ImportNameRoundTrip | core/handler_core/handler_core.go:38 | the name can be read back from its import line |
| HandlerCore.GroupNameRoundTrip | core/handler_core/handler_core.go:39-41 | the name can be read back from its route group |
| HandlerCore.FragmentsInjective | core/handler_core/handler_core.go:37-42 | different names give different import lines and different groups |
| HandlerCore.ImportList | core/handler_core/handler_core.go:34-38 | one import line per name; entry i depends only on name i |
| HandlerCore.GroupList | core/handler_core/handler_core.go:35-41 | one route group per name; entry i depends only on name i |
| HandlerCore.FragmentListsDetermineNames | core/handler_core/handler_core.go:37-42 | either fragment list determines the names |
| HandlerCore.ReorderedNames | core/handler_core/handler_core.go:37-42 | reordering the names leaves both fragment multisets unchanged |
| HandlerCore.RenderApp | core/handler_core/handler_core.go:44-144 | the generated program; `HandlerCore.RenderAppPieces`, `HandlerCore.PortFillsBanners` and `HandlerCore.RenderMountsEveryName` state its text, where the port goes and that every name is mounted |
| HandlerCore.RenderAppPieces | core/handler_core/handler_core.go:44-144 | the content is the literal pieces with, in order, the `"\n\t"`-joined imports, the `"\n\t"`-joined groups and the port three times |
| HandlerCore.RenderAppWithoutNames | core/handler_core/handler_core.go:34-35 | with no names both blocks are empty, and only the port holes carry text |
| HandlerCore.PortFillsBanners | core/handler_core/handler_core.go:113-118 | the port appears in the localhost banner, the internal-IP banner and `r.Run(":<port>")`; all other text is the same for every port |
| HandlerCore.RenderMountsEveryName | core/handler_core/handler_core.go:44-144 | every name's import line and route group occur in the content |
| HandlerCore.WriteApp | core/handler_core/handler_core.go:146-160 | a failed `out` creation returns its error and writes nothing; a failed write returns its error; on success `out/app.go` holds the content; no other file changes |
| HandlerCore.CreateAppGoFile | core/handler_core/handler_core.go:33-161 | on success `out/app.go` holds the rendered content; on error no file changes |
| HandlerCore.MkdirFailureSkipsWrite | core/handler_core/handler_core.go:147-151 | after a failed directory creation the write is never attempted |
| HandlerCore.Init | core/handler_core/handler_core.go:19-21 | the error is discarded: the files are unchanged or hold the new `out/app.go` (a failed write is all-or-nothing here) |
| Prototype.ExtractRepoNameAgrees | main.go:32-36 | the prototype's name extraction computes what the assembler's does |
| Prototype.ExtractRepoName | main.go:32-36 | the prototype's name extraction; `Prototype.ExtractRepoNameAgrees` states it equals the assembler's |
| Prototype.CloneDest | main.go:23-25 | `"apis/" + repoName`; `Prototype.ExampleCloneDir` states the fixed URL clones to `apis/api-wwf` |
| Prototype.DownloadGitRepositories | main.go:16-30 | clones run in input order into `"apis/" + extractRepoName(url)`; the run stops at the first failure and is complete iff every clone succeeds |
| Prototype.ReadAPIInfoFromRepositories | main.go:47-59 | two removes per clone are logged, whatever the manifest read gave |
| Prototype.StripAll | main.go:50-51 | the removes of a pass, two per clone; `Prototype.StripTouchesOnlyBuildFiles` and `Prototype.StripNeverRemovesMainGo` state what they name |
| Prototype.StripRequests | main.go:50-51 | `go.mod` then `go.sum` joined under one clone; `Prototype.StripTouchesOnlyBuildFiles` states only such paths are named |
| Prototype.Strip | main.go:50-51 | the two removes of one clone, errors discarded; `Prototype.StripAppliesRemoves` states the pass applies them in order |
| Prototype.StripAppliesRemoves | main.go:48-51 | the tree afterwards has `go.mod` then `go.sum` removed from each clone in turn |
| Prototype.StripTouchesOnlyBuildFiles | main.go:50-51 | every remove names a `go.mod` or `go.sum` file |
| Prototype.StripKeepsEverythingElse | main.go:47-59 | every path not ending in `go.mod` or `go.sum` survives, including clone directories |
| Prototype.StripNeverRemovesMainGo | main.go:50-51 | no clone's `main.go` is ever removed |
| Prototype.ProtoGroupsBetweenMarkers | main.go:91-108 | the groups sit between `// API (START)` and `// API (END)`; the server always binds `:3000` |
| Prototype.RenderProto | main.go:91-108 | the prototype program; `Prototype.ProtoGroupsBetweenMarkers` states its text |
| Prototype.CreateAppGoFile | main.go:80-125 | same error handling as the handler core, with the prototype's content in `out/app.go` |
| Prototype.CleanDotSlash | main.go:137 | `./a/b` cleans to `a/b` |
| Prototype.ExampleCloneDir | main.go:129-140 | the run's URL clones into `apis/api-wwf`, and the path handed to the pass cleans to that directory |
| Prototype.ExampleStrip | main.go:136-140 | the run removes `apis/api-wwf/go.mod` and `apis/api-wwf/go.sum` |
| Prototype.ExampleImportMatchesClone | main.go:130-143 | the import generated for `wwf` refers to the directory the URL was cloned into |
| Pipeline.Names | cmd/main.go:19-24 | one name per manifest, in order, the manifest's `API` field |
| Pipeline.Run | cmd/main.go:10-34 | the run exits iff a clone fails; otherwise the generator gets the names and the configured port; the front end is fetched iff `Include`, from `Repo` |
| Pipeline.EmptyAssemblyStillGenerates | cmd/main.go:17-28 | an empty assembly still generates the file, with no names |
| Pipeline.GroupsComeFromAcceptedRepos | cmd/main.go:17-28 | every route group mounts the `API` of an accepted manifest cloned from a configured repository |

## Left out

- `git clone` of the API repositories, HTTP, file reads and YAML decoding are oracle parameters. Their internals are not modelled.
- The front end's `git clone` and `yarn` are not modelled. No member takes them as parameters.
- The clones' own effect on the working tree is not modelled. `ApiAssembler.Init` takes the tree as it stands once every clone has finished.
- Console printing and logging are not modelled: `fmt.Println`, `fmt.Printf`, `log.Println`, `log.Printf`, and the message text of `log.Fatalf` and of the status error.
- `core/file_core` (reading `config.yaml`) is not part of this model. The configuration is a `Pipeline.ReposConfig` parameter.
- `core/frontend_assembler` is not part of this model. `Pipeline.Run` records only whether it is called and with which repository.
- Concurrency in `ApiAssembler.Init` is reduced to the order in which results reach the channel. The process exit on the first failing clone in that order stands for `log.Fatalf`. Clones still running at that moment are not modelled.
- `ApiAssembler.RejectedCloneStays` takes as a premise that the clone's entry is not itself named by a remove of the pass. It does not derive this from the shape of clone paths.
- The model compares paths as exact strings. `os.Remove` of `apis/x/` or `./apis/x` would reach the directory `apis/x` on a real system, but here it does not match the path `apis/x`. The set of paths does not tell files from directories; a directory is any path with a path below it.
- `HandlerCore.WriteApp`: a failed `ioutil.WriteFile` leaves the files unchanged here, but the real call truncates `out/app.go` before writing, so a failure can leave it emptied. The permission bits `0755` and `0644` are not modelled.
- `HandlerCore.CreateAppGoFile`: inherits the all-or-nothing write of `HandlerCore.WriteApp`.
- `Prototype.CreateAppGoFile`: inherits the all-or-nothing write of `HandlerCore.WriteApp`.
- `HandlerCore.Init`: inherits the all-or-nothing write of `HandlerCore.WriteApp`. After a failed write the real `out/app.go` may be emptied or partial, not unchanged.
- `Pipeline.Run`: its `files` are those of `HandlerCore.Init`, so it inherits the same all-or-nothing write. It also inherits the repeated clone destination gap of `ApiAssembler.Init`.
- `ApiAssembler.Init`: the outcome of `clone(url, dest)` does not depend on earlier clones. Two URLs with the same clone path can therefore both succeed. This happens with a repeated URL, or with `…/a/x` and `…/b/x.git`. Both manifests are then kept, and the generated program declares the same import and group twice. The real `git clone` refuses a destination that exists and is not empty, so the second clone ends the run through `log.Fatalf` (core/api_assembler/api_assembler.go:104). The same holds on a re-run: nothing deletes a non-empty `apis/<name>`, because `os.Remove` refuses it and a kept clone is never removed.
- `ApiAssembler.DownloadGitRepository`: its outcome is the oracle's for that one call. A destination that an earlier clone filled is not seen.
- `Prototype.DownloadGitRepositories`: a repeated URL, or two URLs with the same derived name, clone twice and the loop completes. The real second `git clone` fails, and main.go:27 exits. A re-run exits the same way at the first clone, because `apis/<name>` already holds it.
- The branch at core/api_assembler/api_assembler.go:156-159 is dead: `err` is nil there, because line 143 continued otherwise. It has no counterpart in the model.
- `Format.InterleaveHole`: `fmt.Sprintf` is modelled only for formats whose verbs are all `%s` with exactly one string per verb. This is the only form the program uses. The templates are stored already split at their `%s` verbs, so there is no `%!s(MISSING)` or `%!(EXTRA …)` output.
- The non-ASCII text in the generated program is kept code point for code point as it appears in core/handler_core/handler_core.go (lines 113 and 142). It is not decoded.
- The two text representations of the disk are kept apart. The assembler's tree is a `FileSystem.Fs`; generated file contents are a `map<string, string>`.
- `Pipeline.GroupsComeFromAcceptedRepos` states, for each entry of the group list, which accepted manifest it mounts. It does not parse the generated text to show that nothing else looks like a group.
- `ApiAssembler.ReadAPIInfo`: returns a `Result`, so it drops the partly decoded `APIInfo` that `readAPIInfo` returns along with a decode error (core/api_assembler/api_assembler.go:181-183). The only caller discards the value on any error, so nothing observable is lost.
