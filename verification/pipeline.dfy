/** The command (cmd/main.go): read the configuration, assemble the APIs from
    the configured repositories, generate `out/app.go` for their `API`
    identifiers on the configured port, and fetch the front end when the
    configuration asks for it. */
module Pipeline {
  import opened Wrappers
  import opened Seqs
  import opened FileSystem
  import opened Models
  import A = ApiAssembler
  import H = HandlerCore

  /** The `front-end` section of `config.yaml`. */
  datatype FrontEnd = FrontEnd(Include: bool, Repo: string)

  /** `config.yaml` (the field `Versin` is spelled as in the source). */
  datatype ReposConfig = ReposConfig(
    Name: string,
    Versin: string,
    Port: string,
    Repos: seq<string>,
    Packages: seq<string>,
    FrontEnd: FrontEnd)

  /** The names handed to the generator: the `API` field of each assembled
      manifest, in the same order. */
  function Names(infos: seq<APIInfo>): (names: seq<string>)
    ensures |names| == |infos|
    ensures forall i :: 0 <= i < |infos| ==> names[i] == infos[i].API
  {
    Map((info: APIInfo) => info.API, infos)
  }

  /** How a run ends: a clone failed and the process exited, or every step
      ran; `frontEnd` is the repository handed to the front-end assembler. */
  datatype RunOutcome =
    | Exited(url: string, cause: Failure)
    | Finished(infos: seq<APIInfo>, tree: Fs, names: seq<string>, files: map<string, string>, frontEnd: Option<string>)

  /** `main`: the oracles are those of the assembler and of the generator;
      `picks` is the order in which the clone goroutines deliver. */
  function Run(
    config: ReposConfig,
    clone: (string, string) -> Outcome<Failure>,
    picks: seq<nat>,
    fs: Fs,
    readManifest: string -> Result<APIInfo, Failure>,
    fetchRegistry: string -> Result<APIYaml, Failure>,
    files: map<string, string>,
    mkdirAll: string -> Outcome<Failure>,
    writeFile: (string, string) -> Outcome<Failure>): (r: RunOutcome)
    ensures r.Exited? <==> exists i :: 0 <= i < |config.Repos| && clone(config.Repos[i], A.RepoPath(config.Repos[i])).Fail?
    ensures r.Finished? ==> |r.names| == |r.infos| <= |config.Repos|
    ensures r.Finished? ==> forall i :: 0 <= i < |r.infos| ==> r.names[i] == r.infos[i].API
    ensures r.Finished? ==> r.files == H.Init(r.names, config.Port, files, mkdirAll, writeFile)
    ensures r.Finished? ==> (r.frontEnd.Some? <==> config.FrontEnd.Include)
    ensures r.Finished? && r.frontEnd.Some? ==> r.frontEnd.value == config.FrontEnd.Repo
  {
    match A.Init(config.Repos, clone, picks, fs, readManifest, fetchRegistry)
    case Exited(u, e) => Exited(u, e)
    case Assembled(assembly) =>
      var names := Names(assembly.infos);
      var written := H.Init(names, config.Port, files, mkdirAll, writeFile);
      Finished(assembly.infos, assembly.fs, names, written,
        if config.FrontEnd.Include then Some(config.FrontEnd.Repo) else None)
  }

  /** An assembly that keeps nothing still reaches the generator, with no
      names: the file is generated with both blocks empty. */
  lemma EmptyAssemblyStillGenerates(
    config: ReposConfig,
    clone: (string, string) -> Outcome<Failure>,
    picks: seq<nat>,
    fs: Fs,
    readManifest: string -> Result<APIInfo, Failure>,
    fetchRegistry: string -> Result<APIYaml, Failure>,
    files: map<string, string>,
    mkdirAll: string -> Outcome<Failure>,
    writeFile: (string, string) -> Outcome<Failure>)
    requires var a := A.Init(config.Repos, clone, picks, fs, readManifest, fetchRegistry);
      a.Assembled? && a.result.infos == []
    ensures var r := Run(config, clone, picks, fs, readManifest, fetchRegistry, files, mkdirAll, writeFile);
      r.Finished? && r.names == [] && r.files == H.Init([], config.Port, files, mkdirAll, writeFile)
  {
  }

  /** End to end: every route group the generator receives mounts the `API`
      of a manifest that was read from the clone of a configured repository
      and that the registry knows. */
  lemma GroupsComeFromAcceptedRepos(
    config: ReposConfig,
    clone: (string, string) -> Outcome<Failure>,
    picks: seq<nat>,
    fs: Fs,
    readManifest: string -> Result<APIInfo, Failure>,
    fetchRegistry: string -> Result<APIYaml, Failure>,
    files: map<string, string>,
    mkdirAll: string -> Outcome<Failure>,
    writeFile: (string, string) -> Outcome<Failure>,
    k: nat)
    requires var r := Run(config, clone, picks, fs, readManifest, fetchRegistry, files, mkdirAll, writeFile);
      r.Finished? && k < |r.names|
    ensures var r := Run(config, clone, picks, fs, readManifest, fetchRegistry, files, mkdirAll, writeFile);
      exists u :: u in config.Repos
        && A.Accepted(A.RepoPath(u), readManifest, fetchRegistry)
        && r.infos[k] == readManifest(A.ManifestPath(A.RepoPath(u))).value
        && H.GroupList(r.names)[k] == H.GroupFragment(readManifest(A.ManifestPath(A.RepoPath(u))).value.API)
  {
    var u := A.InitKeepsOnlyAccepted(config.Repos, clone, picks, fs, readManifest, fetchRegistry, k);
  }
}
