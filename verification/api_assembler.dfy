/** The API assembler (core/api_assembler): derive a clone directory from each
    repository URL, clone all repositories concurrently, then walk the clones
    one by one, keeping those whose local manifest reads and whose API is
    published in the registry, and tidying the working tree as it goes.

    `git clone`, the file reads, HTTP and YAML decoding are oracle parameters;
    the goroutines are represented by the order in which they deliver. */
module ApiAssembler {
  import opened Wrappers
  import opened Strings
  import opened Seqs
  import opened Paths
  import opened FileSystem
  import opened Models

  // ---------------------------------------------------------------------
  // Repository naming

  /** The directory every repository is cloned into. */
  const CloneRoot := "apis/"

  /** The last `/`-separated segment of `url` with one trailing `.git`
      removed: a single path element, whatever the URL. */
  function ExtractRepoName(url: string): (name: string)
    ensures '/' !in name
  {
    var segment := Last(Split(url, '/'));
    TrimSuffixKeepsAbsent(segment, ".git", '/');
    TrimSuffix(segment, ".git")
  }

  /** Against an independent description of the last segment, everything
      after the last `/`: the name is that segment, less one `.git` when it
      ends so; a URL ending in `/` names nothing. */
  lemma ExtractRepoNameSegment(url: string)
    ensures var segment := url[LastIndexOf(url, '/') + 1..];
      if HasSuffix(segment, ".git") then ExtractRepoName(url) + ".git" == segment
      else ExtractRepoName(url) == segment
    ensures HasSuffix(url, "/") ==> ExtractRepoName(url) == ""
  {
    LastOfSplit(url, '/');
    if HasSuffix(url, "/") {
      assert url[|url| - 1] == url[|url| - 1..][0];
      assert LastIndexOf(url, '/') == |url| - 1;
    }
  }

  /** The clone directory for `url`. */
  function RepoPath(url: string): string {
    CloneRoot + ExtractRepoName(url)
  }

  /** The clone directory is one level below `apis`: its path elements are
      exactly `apis` and the repository name. */
  lemma RepoPathElements(url: string)
    ensures Split(RepoPath(url), '/') == ["apis", ExtractRepoName(url)]
  {
    var name := ExtractRepoName(url);
    assert RepoPath(url) == "apis" + ['/'] + name;
    SplitConcat("apis", name, '/');
    SplitWithoutSeparator("apis", '/');
    SplitWithoutSeparator(name, '/');
  }

  /** The name only depends on what follows the last slash. */
  lemma ExtractRepoNameAfterSlash(prefix: string, segment: string)
    requires '/' !in segment
    ensures ExtractRepoName(prefix + "/" + segment) == TrimSuffix(segment, ".git")
  {
    var url := prefix + "/" + segment;
    LastOfSplit(url, '/');
    var k := LastIndexOf(url, '/');
    assert url[|prefix|] == '/';
    assert k >= |prefix|;
    assert k <= |prefix|;
    assert url[k + 1..] == segment;
  }

  /** A concrete URL from the prototype: no `.git`, so the segment is kept whole. */
  lemma ExtractRepoNameOfPlainUrl(url: string)
    requires url == "https://github.com/Blade-Space/api-wwf"
    ensures ExtractRepoName(url) == "api-wwf"
    ensures RepoPath(url) == "apis/api-wwf"
  {
    assert url == "https://github.com/Blade-Space" + "/" + "api-wwf";
    ExtractRepoNameAfterSlash("https://github.com/Blade-Space", "api-wwf");
    assert !HasSuffix("api-wwf", ".git");
    var name := ExtractRepoName(url);
    assert RepoPath(url) == CloneRoot + name;
    CloneRootOfWwf(name);
  }

  lemma CloneRootOfWwf(name: string)
    requires name == "api-wwf"
    ensures CloneRoot + name == "apis/api-wwf"
  {
  }

  /** A doubled suffix loses only its last `.git`: `tool.git.git` names the
      clone `tool.git`. */
  lemma ExtractRepoNameTrimsOnce(prefix: string, base: string)
    requires '/' !in base
    ensures ExtractRepoName(prefix + "/" + base + ".git.git") == base + ".git"
  {
    var segment := base + ".git.git";
    assert '/' !in segment by {
      assert forall j :: |base| <= j < |segment| ==> segment[j] == ".git.git"[j - |base|];
    }
    assert prefix + "/" + base + ".git.git" == prefix + "/" + segment;
    ExtractRepoNameAfterSlash(prefix, segment);
    assert segment == (base + ".git") + ".git";
    var r := TrimSuffix(segment, ".git");
    assert HasSuffix(segment, ".git");
    assert r == segment[..|segment| - 4];
  }

  // ---------------------------------------------------------------------
  // Cloning

  /** What `downloadGitRepository` does with one URL: either it returns the
      clone path, or `git clone` failed and the process exits. */
  datatype CloneOutcome = Cloned(path: string) | Fatal(url: string, cause: Failure)

  /** `clone(url, dest)` stands for `git clone url dest`. */
  function DownloadGitRepository(url: string, clone: (string, string) -> Outcome<Failure>): (r: CloneOutcome)
    ensures r.Cloned? <==> clone(url, CloneRoot + ExtractRepoName(url)).Pass?
    ensures r.Cloned? ==> r.path == CloneRoot + ExtractRepoName(url)
    ensures r.Fatal? ==> r.url == url && clone(url, CloneRoot + ExtractRepoName(url)) == Fail(r.cause)
  {
    var dest := RepoPath(url);
    match clone(url, dest)
    case Pass => Cloned(dest)
    case Fail(e) => Fatal(url, e)
  }

  // ---------------------------------------------------------------------
  // Registry lookup

  const RegistryPrefix := "https://raw.githubusercontent.com/Blade-Space/core/main/packages/"
  const RegistrySuffix := ".yaml"
  const StatusOK := 200

  /** The registry document for an API identifier. */
  function RegistryUrl(apiName: string): string {
    RegistryPrefix + apiName + RegistrySuffix
  }

  /** Reads the identifier back out of a registry URL. */
  function RegistryName(url: string): string
    requires |RegistryPrefix| + |RegistrySuffix| <= |url|
  {
    url[|RegistryPrefix|..|url| - |RegistrySuffix|]
  }

  /** The identifier is recoverable from the URL, so distinct identifiers
      are never looked up at the same address. */
  lemma RegistryUrlRoundTrip(apiName: string)
    ensures HasPrefix(RegistryUrl(apiName), RegistryPrefix)
    ensures HasSuffix(RegistryUrl(apiName), RegistrySuffix)
    ensures RegistryName(RegistryUrl(apiName)) == apiName
  {
    var u := RegistryUrl(apiName);
    assert u[..|RegistryPrefix|] == RegistryPrefix;
    assert u[|u| - |RegistrySuffix|..] == RegistrySuffix;
    assert u[|RegistryPrefix|..|u| - |RegistrySuffix|] == apiName;
  }

  /** An HTTP response: the status code and the outcome of reading the body. */
  datatype Response = Response(statusCode: int, body: Result<string, Failure>)

  /** `FetchAndParseAPIYaml`: `get` stands for `http.Get`, `decode` for
      `yaml.Unmarshal` into an `APIYaml`. */
  function FetchAndParseAPIYaml(
    apiName: string,
    get: string -> Result<Response, Failure>,
    decode: string -> Result<APIYaml, Failure>): (r: Reply<APIYaml, Failure>)
    ensures var resp := get(RegistryUrl(apiName));
      r.err.None? <==>
        resp.Ok? && resp.value.statusCode == StatusOK && resp.value.body.Ok?
        && decode(resp.value.body.value).Ok?
    ensures r.err.Some? ==> r.value == ZeroAPIYaml
    ensures r.err.None? ==> r.value == decode(get(RegistryUrl(apiName)).value.body.value).value
    ensures var resp := get(RegistryUrl(apiName));
      resp.Ok? && resp.value.statusCode != StatusOK ==> r.err == Some(BadStatus(resp.value.statusCode))
  {
    match get(RegistryUrl(apiName))
    case Err(e) => Reply(ZeroAPIYaml, Some(e))
    case Ok(resp) =>
      if resp.statusCode != StatusOK then Reply(ZeroAPIYaml, Some(BadStatus(resp.statusCode)))
      else
        match resp.body
        case Err(e) => Reply(ZeroAPIYaml, Some(e))
        case Ok(data) =>
          match decode(data)
          case Err(e) => Reply(ZeroAPIYaml, Some(e))
          case Ok(y) => Reply(y, None)
  }

  /** Only the registry URL is ever requested: two `get`s that answer the
      same there give the same result. */
  lemma FetchRequestsOnlyRegistryUrl(
    apiName: string,
    get1: string -> Result<Response, Failure>,
    get2: string -> Result<Response, Failure>,
    decode: string -> Result<APIYaml, Failure>)
    requires get1(RegistryUrl(apiName)) == get2(RegistryUrl(apiName))
    ensures FetchAndParseAPIYaml(apiName, get1, decode) == FetchAndParseAPIYaml(apiName, get2, decode)
  {
  }

  // ---------------------------------------------------------------------
  // Local manifest

  const ManifestFile := "api.yml"

  /** Where the manifest of a clone is read from. */
  function ManifestPath(repoPath: string): string {
    JoinPath(repoPath, ManifestFile)
  }

  /** `readAPIInfo`: `readFile` stands for `ioutil.ReadFile`, `decode` for
      `yaml.Unmarshal` into an `APIInfo`. */
  function ReadAPIInfo(
    path: string,
    readFile: string -> Result<string, Failure>,
    decode: string -> Result<APIInfo, Failure>): (r: Result<APIInfo, Failure>)
    ensures r.Ok? <==> readFile(path).Ok? && decode(readFile(path).value).Ok?
    ensures r.Ok? ==> r.value == decode(readFile(path).value).value
    ensures readFile(path).Err? ==> r == Err(readFile(path).error)
  {
    match readFile(path)
    case Err(e) => Err(e)
    case Ok(data) => decode(data)
  }

  // ---------------------------------------------------------------------
  // The filter fold

  /** The build files removed from every accepted clone. */
  const BuildFiles := ["go.mod", "go.sum", "main.go"]

  function CleanupPaths(repoPath: string): seq<string> {
    Map(f => JoinPath(repoPath, f), BuildFiles)
  }

  /** What the pass makes of one clone: its local manifest when that reads
      and the registry knows its API, nothing otherwise. */
  function Verdict(
    repoPath: string,
    readManifest: string -> Result<APIInfo, Failure>,
    fetchRegistry: string -> Result<APIYaml, Failure>): Option<APIInfo>
  {
    match readManifest(ManifestPath(repoPath))
    case Err(_) => None
    case Ok(info) => if fetchRegistry(info.API).Ok? then Some(info) else None
  }

  function VerdictOf(
    readManifest: string -> Result<APIInfo, Failure>,
    fetchRegistry: string -> Result<APIYaml, Failure>): string -> Option<APIInfo>
  {
    p => Verdict(p, readManifest, fetchRegistry)
  }

  /** A clone is kept when its manifest reads and the registry knows its API. */
  predicate Accepted(
    repoPath: string,
    readManifest: string -> Result<APIInfo, Failure>,
    fetchRegistry: string -> Result<APIYaml, Failure>)
  {
    Verdict(repoPath, readManifest, fetchRegistry).Some?
  }

  /** With the oracles wired to `readAPIInfo` and `FetchAndParseAPIYaml`, a
      clone is kept exactly when its manifest reads and decodes and the
      registry answers 200 with a body that reads and decodes; any other
      status drops the clone. */
  lemma AcceptedThroughRegistry(
    repoPath: string,
    readFile: string -> Result<string, Failure>,
    decodeInfo: string -> Result<APIInfo, Failure>,
    get: string -> Result<Response, Failure>,
    decodeYaml: string -> Result<APIYaml, Failure>)
    ensures var m := ReadAPIInfo(ManifestPath(repoPath), readFile, decodeInfo);
      Accepted(repoPath, p => ReadAPIInfo(p, readFile, decodeInfo),
               n => FetchAndParseAPIYaml(n, get, decodeYaml).ToResult())
      <==> m.Ok? && get(RegistryUrl(m.value.API)).Ok?
           && get(RegistryUrl(m.value.API)).value.statusCode == StatusOK
           && get(RegistryUrl(m.value.API)).value.body.Ok?
           && decodeYaml(get(RegistryUrl(m.value.API)).value.body.value).Ok?
  {
    var rm := p => ReadAPIInfo(p, readFile, decodeInfo);
    var fr := n => FetchAndParseAPIYaml(n, get, decodeYaml).ToResult();
    var m := ReadAPIInfo(ManifestPath(repoPath), readFile, decodeInfo);
    assert rm(ManifestPath(repoPath)) == m;
    if m.Ok? {
      var reply := FetchAndParseAPIYaml(m.value.API, get, decodeYaml);
      assert fr(m.value.API) == reply.ToResult();
      assert Accepted(repoPath, rm, fr) <==> reply.err.None?;
    }
  }

  /** The remove calls issued while handling one clone. */
  function Requests(
    repoPath: string,
    readManifest: string -> Result<APIInfo, Failure>,
    fetchRegistry: string -> Result<APIYaml, Failure>): seq<string>
  {
    if Accepted(repoPath, readManifest, fetchRegistry) then CleanupPaths(repoPath) else [repoPath]
  }

  /** The remove calls issued over a whole pass, in order. */
  function IssuedRemoves(
    repoPaths: seq<string>,
    readManifest: string -> Result<APIInfo, Failure>,
    fetchRegistry: string -> Result<APIYaml, Failure>): seq<string>
    decreases |repoPaths|
  {
    if |repoPaths| == 0 then []
    else Requests(repoPaths[0], readManifest, fetchRegistry) + IssuedRemoves(repoPaths[1..], readManifest, fetchRegistry)
  }

  /** What a pass produces: the kept manifests and the working tree after it. */
  datatype Assembly = Assembly(infos: seq<APIInfo>, fs: Fs)

  /** `readAPIInfoFromRepositories`: one clone at a time, in list order. */
  function ReadAPIInfoFromRepositories(
    repoPaths: seq<string>,
    fs: Fs,
    readManifest: string -> Result<APIInfo, Failure>,
    fetchRegistry: string -> Result<APIYaml, Failure>): (r: Assembly)
    ensures |r.infos| <= |repoPaths|
    ensures r.fs.removes == fs.removes + IssuedRemoves(repoPaths, readManifest, fetchRegistry)
    decreases |repoPaths|
  {
    if |repoPaths| == 0 then Assembly([], fs)
    else
      var repoPath := repoPaths[0];
      var rest := repoPaths[1..];
      var issued := IssuedRemoves(rest, readManifest, fetchRegistry);
      match readManifest(ManifestPath(repoPath))
      case Err(_) =>
        var r := ReadAPIInfoFromRepositories(rest, Remove(fs, repoPath), readManifest, fetchRegistry);
        assert !Accepted(repoPaths[0], readManifest, fetchRegistry);
        assert IssuedRemoves(repoPaths, readManifest, fetchRegistry) == [repoPath] + issued;
        AppendAssoc(fs.removes, [repoPath], issued);
        r
      case Ok(info) =>
        match fetchRegistry(info.API)
        case Err(_) =>
          var r := ReadAPIInfoFromRepositories(rest, Remove(fs, repoPath), readManifest, fetchRegistry);
          assert !Accepted(repoPaths[0], readManifest, fetchRegistry);
          assert IssuedRemoves(repoPaths, readManifest, fetchRegistry) == [repoPath] + issued;
          AppendAssoc(fs.removes, [repoPath], issued);
          r
        case Ok(_) =>
          var r := ReadAPIInfoFromRepositories(rest, RemoveEach(fs, CleanupPaths(repoPath)), readManifest, fetchRegistry);
          assert Accepted(repoPaths[0], readManifest, fetchRegistry);
          assert IssuedRemoves(repoPaths, readManifest, fetchRegistry) == CleanupPaths(repoPath) + issued;
          AppendAssoc(fs.removes, CleanupPaths(repoPath), issued);
          Assembly([info] + r.infos, r.fs)
  }

  /** One clone on its own: a failed manifest read or registry lookup yields
      nothing and one remove of the clone directory; success yields the local
      manifest and removes of exactly the three build files. */
  lemma SingleRepository(
    repoPath: string,
    fs: Fs,
    readManifest: string -> Result<APIInfo, Failure>,
    fetchRegistry: string -> Result<APIYaml, Failure>)
    ensures var r := ReadAPIInfoFromRepositories([repoPath], fs, readManifest, fetchRegistry);
      var m := readManifest(JoinPath(repoPath, "api.yml"));
      && (m.Err? ==> r.infos == [] && r.fs == Remove(fs, repoPath))
      && (m.Ok? && fetchRegistry(m.value.API).Err? ==> r.infos == [] && r.fs == Remove(fs, repoPath))
      && (m.Ok? && fetchRegistry(m.value.API).Ok? ==>
            r.infos == [m.value]
            && r.fs.removes == fs.removes
                 + [JoinPath(repoPath, "go.mod"), JoinPath(repoPath, "go.sum"), JoinPath(repoPath, "main.go")])
  {
    var paths := [repoPath];
    assert paths[0] == repoPath && paths[1..] == [];
    assert ManifestPath(repoPath) == JoinPath(repoPath, "api.yml");
    var m := readManifest(ManifestPath(repoPath));
    if m.Ok? && fetchRegistry(m.value.API).Ok? {
      var cleanup := CleanupPaths(repoPath);
      assert cleanup == [JoinPath(repoPath, "go.mod"), JoinPath(repoPath, "go.sum"), JoinPath(repoPath, "main.go")];
      var r := ReadAPIInfoFromRepositories(paths, fs, readManifest, fetchRegistry);
      assert r.fs.removes == RemoveEach(fs, cleanup).removes;
    }
  }

  /** The kept manifests are the verdicts of the clones in list order: the
      fold is a filter-map of `Verdict` over the received paths. */
  lemma {:induction false} FoldKeepsVerdicts(
    repoPaths: seq<string>,
    fs: Fs,
    readManifest: string -> Result<APIInfo, Failure>,
    fetchRegistry: string -> Result<APIYaml, Failure>)
    ensures ReadAPIInfoFromRepositories(repoPaths, fs, readManifest, fetchRegistry).infos
         == FilterMap(VerdictOf(readManifest, fetchRegistry), repoPaths)
    decreases |repoPaths|
  {
    if |repoPaths| > 0 {
      var repoPath := repoPaths[0];
      var fs' := if Accepted(repoPath, readManifest, fetchRegistry)
        then RemoveEach(fs, CleanupPaths(repoPath)) else Remove(fs, repoPath);
      FoldKeepsVerdicts(repoPaths[1..], fs', readManifest, fetchRegistry);
    }
  }

  /** Every clone is kept exactly when every clone is accepted. */
  lemma FoldKeepsAllIffAllAccepted(
    repoPaths: seq<string>,
    fs: Fs,
    readManifest: string -> Result<APIInfo, Failure>,
    fetchRegistry: string -> Result<APIYaml, Failure>)
    ensures |ReadAPIInfoFromRepositories(repoPaths, fs, readManifest, fetchRegistry).infos| == |repoPaths|
        <==> forall i :: 0 <= i < |repoPaths| ==> Accepted(repoPaths[i], readManifest, fetchRegistry)
  {
    FoldKeepsVerdicts(repoPaths, fs, readManifest, fetchRegistry);
    var f := VerdictOf(readManifest, fetchRegistry);
    assert forall i :: 0 <= i < |repoPaths| ==> f(repoPaths[i]) == Verdict(repoPaths[i], readManifest, fetchRegistry);
  }

  /** The kept manifests are exactly the local manifests of the accepted
      clones, in list order: `idx` lists the accepted positions ascending,
      every accepted position is listed, and `infos[k]` is the manifest read
      from the clone at `idx[k]`. */
  lemma FoldSelectsAcceptedInOrder(
    repoPaths: seq<string>,
    fs: Fs,
    readManifest: string -> Result<APIInfo, Failure>,
    fetchRegistry: string -> Result<APIYaml, Failure>) returns (idx: seq<nat>)
    ensures var infos := ReadAPIInfoFromRepositories(repoPaths, fs, readManifest, fetchRegistry).infos;
      && |idx| == |infos|
      && StrictlyIncreasing(idx)
      && (forall k :: 0 <= k < |idx| ==>
            && idx[k] < |repoPaths|
            && Accepted(repoPaths[idx[k]], readManifest, fetchRegistry)
            && infos[k] == readManifest(ManifestPath(repoPaths[idx[k]])).value)
      && (forall i :: 0 <= i < |repoPaths| && Accepted(repoPaths[i], readManifest, fetchRegistry) ==> i in idx)
  {
    var f := VerdictOf(readManifest, fetchRegistry);
    FoldKeepsVerdicts(repoPaths, fs, readManifest, fetchRegistry);
    idx := FilterMapSelects(f, repoPaths);
    forall i | 0 <= i < |repoPaths|
      ensures f(repoPaths[i]) == Verdict(repoPaths[i], readManifest, fetchRegistry)
    {
    }
  }

  /** The registry record is only consulted for success: registries that
      succeed on the same identifiers lead to the same pass. */
  lemma {:induction false} RegistryPayloadIgnored(
    repoPaths: seq<string>,
    fs: Fs,
    readManifest: string -> Result<APIInfo, Failure>,
    registry1: string -> Result<APIYaml, Failure>,
    registry2: string -> Result<APIYaml, Failure>)
    requires forall n :: registry1(n).Ok? == registry2(n).Ok?
    ensures ReadAPIInfoFromRepositories(repoPaths, fs, readManifest, registry1)
         == ReadAPIInfoFromRepositories(repoPaths, fs, readManifest, registry2)
    decreases |repoPaths|
  {
    if |repoPaths| > 0 {
      var repoPath := repoPaths[0];
      var m := readManifest(ManifestPath(repoPath));
      if m.Ok? && registry1(m.value.API).Ok? {
        RegistryPayloadIgnored(repoPaths[1..], RemoveEach(fs, CleanupPaths(repoPath)), readManifest, registry1, registry2);
      } else {
        RegistryPayloadIgnored(repoPaths[1..], Remove(fs, repoPath), readManifest, registry1, registry2);
      }
    }
  }

  /** The working tree after a pass is the tree with every issued remove
      applied in order; paths nobody asked to remove survive. */
  lemma {:induction false} FoldAppliesIssuedRemoves(
    repoPaths: seq<string>,
    fs: Fs,
    readManifest: string -> Result<APIInfo, Failure>,
    fetchRegistry: string -> Result<APIYaml, Failure>)
    ensures ReadAPIInfoFromRepositories(repoPaths, fs, readManifest, fetchRegistry).fs
         == RemoveEach(fs, IssuedRemoves(repoPaths, readManifest, fetchRegistry))
    decreases |repoPaths|
  {
    if |repoPaths| > 0 {
      var repoPath := repoPaths[0];
      var reqs := Requests(repoPath, readManifest, fetchRegistry);
      var rest := repoPaths[1..];
      if Accepted(repoPath, readManifest, fetchRegistry) {
        FoldAppliesIssuedRemoves(rest, RemoveEach(fs, CleanupPaths(repoPath)), readManifest, fetchRegistry);
      } else {
        FoldAppliesIssuedRemoves(rest, Remove(fs, repoPath), readManifest, fetchRegistry);
        assert RemoveEach(fs, [repoPath]) == Remove(fs, repoPath);
      }
      RemoveEachConcat(fs, reqs, IssuedRemoves(rest, readManifest, fetchRegistry));
    }
  }

  /** Which paths a pass asks to remove: the directory of every rejected
      clone and the build files of every accepted one, nothing else. */
  lemma {:induction false} IssuedRemovesExactly(
    repoPaths: seq<string>,
    readManifest: string -> Result<APIInfo, Failure>,
    fetchRegistry: string -> Result<APIYaml, Failure>,
    q: string)
    ensures q in IssuedRemoves(repoPaths, readManifest, fetchRegistry) <==>
      exists i :: 0 <= i < |repoPaths| &&
        if Accepted(repoPaths[i], readManifest, fetchRegistry)
        then q in CleanupPaths(repoPaths[i])
        else q == repoPaths[i]
    decreases |repoPaths|
  {
    if |repoPaths| > 0 {
      var rest := repoPaths[1..];
      IssuedRemovesExactly(rest, readManifest, fetchRegistry, q);
      if exists i :: 0 <= i < |rest| &&
          (if Accepted(rest[i], readManifest, fetchRegistry) then q in CleanupPaths(rest[i]) else q == rest[i])
      {
        var i :| 0 <= i < |rest| &&
          if Accepted(rest[i], readManifest, fetchRegistry) then q in CleanupPaths(rest[i]) else q == rest[i];
        assert repoPaths[i + 1] == rest[i];
      }
      if exists i :: 0 <= i < |repoPaths| &&
          (if Accepted(repoPaths[i], readManifest, fetchRegistry) then q in CleanupPaths(repoPaths[i]) else q == repoPaths[i])
      {
        var i :| 0 <= i < |repoPaths| &&
          if Accepted(repoPaths[i], readManifest, fetchRegistry) then q in CleanupPaths(repoPaths[i]) else q == repoPaths[i];
        if i > 0 {
          assert rest[i - 1] == repoPaths[i];
        }
      }
    }
  }

  /** Issuing a remove is not deleting: a rejected clone that still holds an
      entry no remove of the pass names (its `.git`, say) stays on disk, and
      so does that entry. */
  lemma RejectedCloneStays(
    repoPaths: seq<string>,
    fs: Fs,
    readManifest: string -> Result<APIInfo, Failure>,
    fetchRegistry: string -> Result<APIYaml, Failure>,
    i: nat,
    d: string)
    requires i < |repoPaths| && !Accepted(repoPaths[i], readManifest, fetchRegistry)
    requires repoPaths[i] in fs.paths && d in fs.paths && IsDescendant(d, repoPaths[i])
    requires d !in IssuedRemoves(repoPaths, readManifest, fetchRegistry)
    ensures repoPaths[i] in IssuedRemoves(repoPaths, readManifest, fetchRegistry)
    ensures var after := ReadAPIInfoFromRepositories(repoPaths, fs, readManifest, fetchRegistry).fs;
      repoPaths[i] in after.paths && d in after.paths
  {
    var issued := IssuedRemoves(repoPaths, readManifest, fetchRegistry);
    IssuedRemovesExactly(repoPaths, readManifest, fetchRegistry, repoPaths[i]);
    FoldAppliesIssuedRemoves(repoPaths, fs, readManifest, fetchRegistry);
    ShieldedSurvives(fs, issued, repoPaths[i], d);
  }

  /** Reordering the clones reorders the kept manifests and nothing more. */
  lemma FoldInfosPermutation(
    a: seq<string>,
    b: seq<string>,
    fs: Fs,
    readManifest: string -> Result<APIInfo, Failure>,
    fetchRegistry: string -> Result<APIYaml, Failure>)
    requires multiset(a) == multiset(b)
    ensures multiset(ReadAPIInfoFromRepositories(a, fs, readManifest, fetchRegistry).infos)
         == multiset(ReadAPIInfoFromRepositories(b, fs, readManifest, fetchRegistry).infos)
  {
    FoldKeepsVerdicts(a, fs, readManifest, fetchRegistry);
    FoldKeepsVerdicts(b, fs, readManifest, fetchRegistry);
    FilterMapMultiset(VerdictOf(readManifest, fetchRegistry), a, b);
  }

  /** The three build files of a clone sit side by side directly below it. */
  lemma CleanupPathsShape(repoPath: string)
    ensures CleanupPaths(repoPath)
         == [DirPrefix(repoPath) + "go.mod", DirPrefix(repoPath) + "go.sum", DirPrefix(repoPath) + "main.go"]
    ensures NoNesting(CleanupPaths(repoPath))
  {
    BuildFilesAreSimple();
    var d := DirPrefix(repoPath);
    var ps := CleanupPaths(repoPath);
    forall i | 0 <= i < 3 ensures ps[i] == d + BuildFiles[i] {
      JoinSimpleName(repoPath, BuildFiles[i]);
    }
    forall i, j | 0 <= i < 3 && 0 <= j < 3 ensures !IsDescendant(ps[j], ps[i]) {
      NotBelowSibling(d, BuildFiles[i], BuildFiles[j]);
    }
  }

  lemma BuildFilesAreSimple()
    ensures forall i :: 0 <= i < |BuildFiles| ==> SimpleName(BuildFiles[i])
  {
    assert '/' !in "go.mod" && '/' !in "go.sum" && '/' !in "main.go";
  }

  /** A name without `/` never lies below a sibling in the same directory. */
  lemma NotBelowSibling(d: string, x: string, y: string)
    requires '/' !in y
    ensures !IsDescendant(d + y, d + x)
  {
    var dir := d + x + "/";
    var k := |d| + |x|;
    if |dir| <= |d + y| {
      assert (d + y)[k] == y[|x|] && y[|x|] in y;
      assert (d + y)[..|dir|][k] != dir[k];
    }
  }

  /** Removing the build files a second time removes nothing more. */
  lemma CleanupIdempotent(fs: Fs, repoPath: string)
    ensures RemoveEach(RemoveEach(fs, CleanupPaths(repoPath)), CleanupPaths(repoPath)).paths
         == RemoveEach(fs, CleanupPaths(repoPath)).paths
  {
    CleanupPathsShape(repoPath);
    RemoveEachIdempotent(fs, CleanupPaths(repoPath));
  }

  /** The clone directory of a well-formed name is already clean. */
  lemma CloneDirIsClean(name: string)
    requires SimpleName(name)
    ensures Clean(CloneRoot + name) == CloneRoot + name
    ensures DirPrefix(CloneRoot + name) == CloneRoot + name + "/"
  {
    JoinSimpleName("apis", name);
    SplitWithoutSeparator("apis", '/');
    assert Reduce(["apis"], false, []) == ["apis"];
    assert Clean("apis") == "apis";
    assert "apis" + "/" + name == CloneRoot + name;
  }

  /** Cleanup touches only the three build files inside the clone and keeps
      the clone directory itself, whose route sources are still needed. */
  lemma CleanupKeepsCloneDir(fs: Fs, name: string)
    requires SimpleName(name)
    ensures var dir := CloneRoot + name;
      && CleanupPaths(dir) == [dir + "/go.mod", dir + "/go.sum", dir + "/main.go"]
      && (forall q :: q in CleanupPaths(dir) ==> IsDescendant(q, dir))
      && (dir in fs.paths ==> dir in RemoveEach(fs, CleanupPaths(dir)).paths)
  {
    var dir := CloneRoot + name;
    CloneDirIsClean(name);
    CleanupPathsShape(dir);
    assert dir + "/" + "go.mod" == dir + "/go.mod";
    assert dir + "/" + "go.sum" == dir + "/go.sum";
    assert dir + "/" + "main.go" == dir + "/main.go";
    forall q | q in CleanupPaths(dir) ensures IsDescendant(q, dir) {
      assert q[..|dir| + 1] == dir + "/";
    }
    assert dir !in CleanupPaths(dir);
  }

  /** For every clone path, whatever the repository name: cleanup never names
      the clone path itself, so a clone directory present before the cleanup
      is still there after it. */
  lemma CloneDirNeverNamed(repoPath: string, fs: Fs)
    ensures repoPath !in CleanupPaths(repoPath)
    ensures repoPath in fs.paths ==> repoPath in RemoveEach(fs, CleanupPaths(repoPath)).paths
  {
    BuildFilesAreSimple();
    forall i | 0 <= i < |BuildFiles| ensures CleanupPaths(repoPath)[i] != repoPath {
      var name := BuildFiles[i];
      var joined := JoinPath(repoPath, name);
      assert CleanupPaths(repoPath)[i] == joined;
      JoinSimpleName(repoPath, name);
      if repoPath == "" {
        assert joined == Clean(name);
      } else {
        CleanIdempotent(repoPath + "/" + name);
        assert Clean(joined) == joined;
        if Clean(repoPath) == repoPath {
          assert joined == PrefixOf(repoPath) + name;
          if repoPath == "." {
            assert joined == name;
          } else {
            assert |joined| > |repoPath|;
          }
        }
      }
    }
  }

  // ---------------------------------------------------------------------
  // Init: concurrent clones, joined through one channel, then the pass

  /** The first URL, in completion order, whose clone fails. */
  function FirstFatal(order: seq<string>, clone: (string, string) -> Outcome<Failure>): (r: Option<string>)
    ensures r.None? <==> forall i :: 0 <= i < |order| ==> DownloadGitRepository(order[i], clone).Cloned?
    ensures r.Some? ==> r.value in order && DownloadGitRepository(r.value, clone).Fatal?
    decreases |order|
  {
    if |order| == 0 then None
    else if DownloadGitRepository(order[0], clone).Fatal? then Some(order[0])
    else
      var r := FirstFatal(order[1..], clone);
      assert forall i :: 0 < i < |order| ==> order[i] == order[1..][i - 1];
      r
  }

  /** Every URL of a reordering appears in the original list and back. */
  lemma SameMembers(a: seq<string>, b: seq<string>, u: string)
    requires multiset(a) == multiset(b)
    ensures u in a <==> u in b
  {
    assert u in a <==> u in multiset(a);
    assert u in b <==> u in multiset(b);
  }

  /** When no clone in completion order fails, no URL's clone fails. */
  lemma AllCloned(urls: seq<string>, order: seq<string>, clone: (string, string) -> Outcome<Failure>)
    requires multiset(order) == multiset(urls)
    requires forall i :: 0 <= i < |order| ==> DownloadGitRepository(order[i], clone).Cloned?
    ensures forall i :: 0 <= i < |urls| ==> clone(urls[i], RepoPath(urls[i])).Pass?
  {
    forall i | 0 <= i < |urls| ensures clone(urls[i], RepoPath(urls[i])).Pass? {
      SameMembers(order, urls, urls[i]);
      var j :| 0 <= j < |order| && order[j] == urls[i];
      assert DownloadGitRepository(order[j], clone).Cloned?;
    }
  }

  datatype InitOutcome =
    | Exited(url: string, cause: Failure)   // a clone failed and `log.Fatalf` ended the process
    | Assembled(result: Assembly)

  /** `Init`: the clone goroutines finish in the order `Schedule(urls, picks)`;
      the first failing one ends the process, otherwise the paths received
      from the channel are handed to the pass. `fs` is the working tree once
      every clone has finished. */
  function Init(
    urls: seq<string>,
    clone: (string, string) -> Outcome<Failure>,
    picks: seq<nat>,
    fs: Fs,
    readManifest: string -> Result<APIInfo, Failure>,
    fetchRegistry: string -> Result<APIYaml, Failure>): (r: InitOutcome)
    ensures r.Exited? <==> exists i :: 0 <= i < |urls| && clone(urls[i], RepoPath(urls[i])).Fail?
    ensures r.Exited? ==> r.url in urls && clone(r.url, RepoPath(r.url)) == Fail(r.cause)
    ensures r.Assembled? ==> |r.result.infos| <= |urls|
  {
    var order := Schedule(urls, picks);
    match FirstFatal(order, clone)
    case Some(u) =>
      SameMembers(order, urls, u);
      var o := DownloadGitRepository(u, clone);
      Exited(u, o.cause)
    case None =>
      AllCloned(urls, order, clone);
      Assembled(ReadAPIInfoFromRepositories(Map(RepoPath, order), fs, readManifest, fetchRegistry))
  }

  /** When no clone fails, the channel delivers one path per URL: the
      received list is a reordering of the URLs' clone paths. */
  lemma InitJoinsEveryClone(
    urls: seq<string>,
    clone: (string, string) -> Outcome<Failure>,
    picks: seq<nat>,
    fs: Fs,
    readManifest: string -> Result<APIInfo, Failure>,
    fetchRegistry: string -> Result<APIYaml, Failure>)
    requires forall i :: 0 <= i < |urls| ==> clone(urls[i], RepoPath(urls[i])).Pass?
    ensures var joined := Map(RepoPath, Schedule(urls, picks));
      && |joined| == |urls|
      && multiset(joined) == multiset(Map(RepoPath, urls))
      && Init(urls, clone, picks, fs, readManifest, fetchRegistry)
         == Assembled(ReadAPIInfoFromRepositories(joined, fs, readManifest, fetchRegistry))
  {
    MapMultiset(RepoPath, Schedule(urls, picks), urls);
  }

  /** Every kept manifest is the local manifest of an accepted clone of one
      of the URLs; `u` names that URL. */
  lemma InitKeepsOnlyAccepted(
    urls: seq<string>,
    clone: (string, string) -> Outcome<Failure>,
    picks: seq<nat>,
    fs: Fs,
    readManifest: string -> Result<APIInfo, Failure>,
    fetchRegistry: string -> Result<APIYaml, Failure>,
    k: nat) returns (u: string)
    requires var r := Init(urls, clone, picks, fs, readManifest, fetchRegistry);
      r.Assembled? && k < |r.result.infos|
    ensures u in urls && Accepted(RepoPath(u), readManifest, fetchRegistry)
    ensures Init(urls, clone, picks, fs, readManifest, fetchRegistry).result.infos[k]
         == readManifest(ManifestPath(RepoPath(u))).value
  {
    var order := Schedule(urls, picks);
    InitJoinsEveryClone(urls, clone, picks, fs, readManifest, fetchRegistry);
    var joined := Map(RepoPath, order);
    var idx := FoldSelectsAcceptedInOrder(joined, fs, readManifest, fetchRegistry);
    var j := idx[k];
    u := order[j];
    SameMembers(order, urls, u);
  }

  /** The kept manifests, as a multiset, do not depend on which clone
      finished first. */
  lemma InitOrderIrrelevant(
    urls: seq<string>,
    clone: (string, string) -> Outcome<Failure>,
    picks1: seq<nat>,
    picks2: seq<nat>,
    fs: Fs,
    readManifest: string -> Result<APIInfo, Failure>,
    fetchRegistry: string -> Result<APIYaml, Failure>)
    requires forall i :: 0 <= i < |urls| ==> clone(urls[i], RepoPath(urls[i])).Pass?
    ensures var r1 := Init(urls, clone, picks1, fs, readManifest, fetchRegistry);
      var r2 := Init(urls, clone, picks2, fs, readManifest, fetchRegistry);
      r1.Assembled? && r2.Assembled? && multiset(r1.result.infos) == multiset(r2.result.infos)
  {
    InitJoinsEveryClone(urls, clone, picks1, fs, readManifest, fetchRegistry);
    InitJoinsEveryClone(urls, clone, picks2, fs, readManifest, fetchRegistry);
    FoldInfosPermutation(Map(RepoPath, Schedule(urls, picks1)), Map(RepoPath, Schedule(urls, picks2)),
      fs, readManifest, fetchRegistry);
  }
}
