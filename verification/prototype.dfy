/** The single-file prototype at the repository root (main.go): clone the
    repositories one after the other, strip `go.mod` and `go.sum` from each
    clone, and write an `out/app.go` that mounts the given API names on a
    server bound to port 3000. */
module Prototype {
  import opened Wrappers
  import opened Seqs
  import opened Strings
  import opened Paths
  import opened FileSystem
  import opened Format
  import opened Models
  import A = ApiAssembler
  import H = HandlerCore

  // ---------------------------------------------------------------------
  // Cloning, one repository after the other

  /** The prototype's own `extractRepoName`. */
  function ExtractRepoName(url: string): string {
    TrimSuffix(Last(Split(url, '/')), ".git")
  }

  /** It computes exactly what the assembler's version computes. */
  lemma ExtractRepoNameAgrees(url: string)
    ensures ExtractRepoName(url) == A.ExtractRepoName(url)
    ensures '/' !in ExtractRepoName(url)
  {
  }

  /** Where `git clone` puts `url`. */
  function CloneDest(url: string): string {
    "apis/" + ExtractRepoName(url)
  }

  /** `downloadGitRepositories`: one `git clone url dest` after the other, in
      input order; the first failure ends the process (`log.Fatalf`).
      `calls` lists the clone commands issued, `fatal` the failure that
      ended the run. */
  method DownloadGitRepositories(urls: seq<string>, clone: (string, string) -> Outcome<Failure>)
    returns (calls: seq<(string, string)>, fatal: Option<Failure>)
    ensures |calls| <= |urls|
    ensures forall i :: 0 <= i < |calls| ==> calls[i] == (urls[i], CloneDest(urls[i]))
    ensures fatal.None? <==> forall i :: 0 <= i < |urls| ==> clone(urls[i], CloneDest(urls[i])).Pass?
    ensures fatal.None? ==> |calls| == |urls|
    ensures fatal.Some? ==> |calls| > 0 && clone(Last(calls).0, Last(calls).1) == Fail(fatal.value)
    ensures forall i :: 0 <= i < |calls| - 1 ==> clone(calls[i].0, calls[i].1).Pass?
  {
    calls := [];
    fatal := None;
    var i := 0;
    while i < |urls|
      invariant 0 <= i <= |urls| && |calls| == i
      invariant forall j :: 0 <= j < i ==> calls[j] == (urls[j], CloneDest(urls[j]))
      invariant forall j :: 0 <= j < i ==> clone(urls[j], CloneDest(urls[j])).Pass?
    {
      var dest := CloneDest(urls[i]);
      calls := calls + [(urls[i], dest)];
      match clone(urls[i], dest) {
        case Fail(e) =>
          fatal := Some(e);
          return;
        case Pass =>
      }
      i := i + 1;
    }
  }

  // ---------------------------------------------------------------------
  // Stripping the build files

  /** The removes issued for one clone: `go.mod` and `go.sum` inside it. */
  function StripRequests(repoPath: string): seq<string> {
    [JoinPath(repoPath, "go.mod"), JoinPath(repoPath, "go.sum")]
  }

  /** All removes of a pass, in order. */
  function StripAll(repoPaths: seq<string>): (r: seq<string>)
    ensures |r| == 2 * |repoPaths|
    decreases |repoPaths|
  {
    if |repoPaths| == 0 then [] else StripRequests(repoPaths[0]) + StripAll(repoPaths[1..])
  }

  /** The two removes issued for one clone, errors discarded. */
  function Strip(fs: Fs, repoPath: string): (r: Fs)
    ensures r == RemoveEach(fs, StripRequests(repoPath))
  {
    var stripped := Remove(Remove(fs, JoinPath(repoPath, "go.mod")), JoinPath(repoPath, "go.sum"));
    assert StripRequests(repoPath)[1..] == [JoinPath(repoPath, "go.sum")];
    stripped
  }

  /** `readAPIInfoFromRepositories` of the prototype: the manifest is read
      only to be printed, and both build files are removed from every clone
      whatever the read gave. Nothing is returned. */
  function ReadAPIInfoFromRepositories(repoPaths: seq<string>, fs: Fs): (r: Fs)
    ensures r.removes == fs.removes + StripAll(repoPaths)
    decreases |repoPaths|
  {
    if |repoPaths| == 0 then fs
    else
      var stripped := Strip(fs, repoPaths[0]);
      var r := ReadAPIInfoFromRepositories(repoPaths[1..], stripped);
      AppendAssoc(fs.removes, StripRequests(repoPaths[0]), StripAll(repoPaths[1..]));
      r
  }

  /** The pass applies exactly its removes, in order. */
  lemma {:induction false} StripAppliesRemoves(repoPaths: seq<string>, fs: Fs)
    ensures ReadAPIInfoFromRepositories(repoPaths, fs) == RemoveEach(fs, StripAll(repoPaths))
    decreases |repoPaths|
  {
    if |repoPaths| > 0 {
      var repoPath := repoPaths[0];
      StripAppliesRemoves(repoPaths[1..], Strip(fs, repoPath));
      RemoveEachConcat(fs, StripRequests(repoPath), StripAll(repoPaths[1..]));
    }
  }

  /** Every remove names a `go.mod` or a `go.sum` file. */
  lemma {:induction false} StripTouchesOnlyBuildFiles(repoPaths: seq<string>)
    ensures forall q :: q in StripAll(repoPaths) ==> HasSuffix(q, "go.mod") || HasSuffix(q, "go.sum")
    decreases |repoPaths|
  {
    if |repoPaths| > 0 {
      StripTouchesOnlyBuildFiles(repoPaths[1..]);
      var repoPath := repoPaths[0];
      JoinSimpleName(repoPath, "go.mod");
      JoinSimpleName(repoPath, "go.sum");
      var d := DirPrefix(repoPath);
      assert (d + "go.mod")[|d|..] == "go.mod";
      assert (d + "go.sum")[|d|..] == "go.sum";
    }
  }

  /** Only paths ending in `go.mod` or `go.sum` can disappear: `main.go`,
      the clone directories and everything else stay. */
  lemma StripKeepsEverythingElse(repoPaths: seq<string>, fs: Fs, q: string)
    requires q in fs.paths && !HasSuffix(q, "go.mod") && !HasSuffix(q, "go.sum")
    ensures q in ReadAPIInfoFromRepositories(repoPaths, fs).paths
  {
    StripAppliesRemoves(repoPaths, fs);
    StripTouchesOnlyBuildFiles(repoPaths);
  }

  /** No remove ever names a clone's `main.go`. */
  lemma StripNeverRemovesMainGo(repoPaths: seq<string>, repoPath: string)
    ensures JoinPath(repoPath, "main.go") !in StripAll(repoPaths)
  {
    StripTouchesOnlyBuildFiles(repoPaths);
    JoinSimpleName(repoPath, "main.go");
    var m := DirPrefix(repoPath) + "main.go";
    assert m[|m| - 1] == 'o';
  }

  // ---------------------------------------------------------------------
  // The generated program

  /** The literal text of the prototype's template between and around its
      two holes (the imports, then the groups). */
  const ProtoHead := "package main\n\nimport (\n\t"
  const ProtoMiddle := "\n\n\t\"github.com/gin-gonic/gin\"\n)\n\nfunc main() {\n\tr := gin.Default()\n\n\t"
  const StartMarker := "// API (START)\n\t"
  const EndMarker := "\n\t// API (END)"
  const ProtoTail := "\n\n\tr.Run(\":3000\")\n}\n"

  const ProtoChunks := [ProtoHead, ProtoMiddle + StartMarker, EndMarker + ProtoTail]

  /** `content` of the prototype's `createAppGoFile`: the same fragments as
      the handler core, joined the same way, in a template without a port. */
  function RenderProto(names: seq<string>): string {
    Interleave(ProtoChunks, [Join(H.ImportList(names), H.FragmentSeparator), Join(H.GroupList(names), H.FragmentSeparator)])
  }

  lemma FillThreePieces(c0: string, x: string, y: string, u: string, v: string, a0: string, a1: string)
    ensures Interleave([c0, x + y, u + v], [a0, a1]) == c0 + a0 + x + y + a1 + u + v
  {
    Interleave2(c0, x + y, u + v, a0, a1);
  }

  /** The groups sit between the `API (START)` and `API (END)` markers, and
      the server binds `:3000` whatever the names. */
  lemma ProtoGroupsBetweenMarkers(names: seq<string>)
    ensures RenderProto(names)
         == ProtoHead + Join(H.ImportList(names), "\n\t") + ProtoMiddle
          + "// API (START)\n\t" + Join(H.GroupList(names), "\n\t") + "\n\t// API (END)"
          + "\n\n\tr.Run(\":3000\")\n}\n"
  {
    FillThreePieces(ProtoHead, ProtoMiddle, StartMarker, EndMarker, ProtoTail,
      Join(H.ImportList(names), "\n\t"), Join(H.GroupList(names), "\n\t"));
  }

  /** The prototype's `createAppGoFile`: same directory, file and error
      handling as the handler core, with the prototype's content. */
  function CreateAppGoFile(
    names: seq<string>,
    files: map<string, string>,
    mkdirAll: string -> Outcome<Failure>,
    writeFile: (string, string) -> Outcome<Failure>): (r: H.Written)
    ensures r.err.None? <==> mkdirAll(H.OutDir).Pass? && writeFile(H.OutFile, RenderProto(names)).Pass?
    ensures mkdirAll(H.OutDir).Fail? ==> r.err == Some(mkdirAll(H.OutDir).error)
    ensures mkdirAll(H.OutDir).Pass? && writeFile(H.OutFile, RenderProto(names)).Fail? ==>
      r.err == Some(writeFile(H.OutFile, RenderProto(names)).error)
    ensures r.err.Some? ==> r.files == files
    ensures r.err.None? ==> H.OutFile in r.files && r.files[H.OutFile] == RenderProto(names)
    ensures forall p :: p != H.OutFile ==> (p in r.files <==> p in files)
    ensures forall p :: p != H.OutFile && p in files ==> r.files[p] == files[p]
  {
    H.WriteApp(RenderProto(names), files, mkdirAll, writeFile)
  }

  // ---------------------------------------------------------------------
  // The hard-coded run in `main`

  /** `./a/b` cleans to `a/b` for plain names `a` and `b`. */
  lemma CleanDotSlash(a: string, b: string)
    requires SimpleName(a) && SimpleName(b)
    ensures Clean("./" + a + "/" + b) == a + "/" + b
  {
    var path := "./" + a + "/" + b;
    assert path == "." + ['/'] + (a + ['/'] + b);
    SplitConcat(".", a + ['/'] + b, '/');
    SplitConcat(a, b, '/');
    SplitWithoutSeparator(".", '/');
    SplitWithoutSeparator(a, '/');
    SplitWithoutSeparator(b, '/');
    assert Split(path, '/') == [".", a, b];
    assert path[0] == '.';
    assert Reduce([".", a, b], false, []) == [a, b] by {
      assert [".", a, b][1..] == [a, b] && [a, b][1..] == [b];
      assert Push([], ".", false) == [];
      assert Push([], a, false) == [a];
      assert Push([a], b, false) == [a, b];
      assert Reduce([b], false, [a]) == Reduce([], false, [a, b]);
    }
    assert Join([a, b], "/") == a + "/" + b by {
      assert [a, b][1..] == [b];
    }
  }

  /** The URL of the run clones into `apis/api-wwf`, and the repository
      path the run hands to the pass, `./apis/api-wwf`, cleans to it. */
  lemma ExampleCloneDir(url: string, repo: string)
    requires url == "https://github.com/Blade-Space/api-wwf"
    requires repo == "./apis/api-wwf"
    ensures CloneDest(url) == "apis/api-wwf"
    ensures Clean(repo) == CloneDest(url)
  {
    A.ExtractRepoNameOfPlainUrl(url);
    ExtractRepoNameAgrees(url);
    assert CloneDest(url) == A.RepoPath(url);
    ExampleRepo(repo);
    CleanDotSlash("apis", "api-wwf");
    ExampleDest(CloneDest(url));
  }

  /** The pass of the run strips `apis/api-wwf/go.mod` and `apis/api-wwf/go.sum`. */
  lemma ExampleStrip(repo: string)
    requires repo == "./apis/api-wwf"
    ensures StripAll([repo]) == ["apis/api-wwf/go.mod", "apis/api-wwf/go.sum"]
  {
    ExampleRepo(repo);
    CleanDotSlash("apis", "api-wwf");
    JoinSimpleName(repo, "go.mod");
    JoinSimpleName(repo, "go.sum");
    ExampleDest("apis/api-wwf");
    assert StripAll([repo]) == StripRequests(repo) + StripAll([]);
  }

  /** The import generated for `wwf` refers to the directory the URL of the
      run is cloned into. */
  lemma ExampleImportMatchesClone(url: string, name: string)
    requires url == "https://github.com/Blade-Space/api-wwf"
    requires name == "wwf"
    ensures H.ImportFragment(name)
         == name + " \"simplified-prototype-api-collector/" + CloneDest(url) + "/routes\""
  {
    A.ExtractRepoNameOfPlainUrl(url);
    ExtractRepoNameAgrees(url);
    H.ImportFragmentShape(name);
    ExampleImport(name, CloneDest(url));
  }

  lemma ExampleRepo(repo: string)
    requires repo == "./apis/api-wwf"
    ensures repo == "./" + "apis" + "/" + "api-wwf"
    ensures SimpleName("apis") && SimpleName("api-wwf")
  {
  }

  lemma ExampleDest(dest: string)
    requires dest == "apis/api-wwf"
    ensures dest == "apis" + "/" + "api-wwf"
    ensures PrefixOf(dest) + "go.mod" == "apis/api-wwf/go.mod"
    ensures PrefixOf(dest) + "go.sum" == "apis/api-wwf/go.sum"
  {
  }

  lemma ExampleImport(name: string, dest: string)
    requires name == "wwf" && dest == "apis/api-wwf"
    ensures name + H.ImportPrefix + name + H.ImportSuffix
         == name + " \"simplified-prototype-api-collector/" + dest + "/routes\""
  {
  }
}
