/** The code generator of the handler core: one import line and one route
    group per API name, joined with a newline and a tab and spliced, with the
    server port, into a fixed Go program that is written to `out/app.go`.
    Directory creation and the file write are oracles. */
module HandlerCore {
  import opened Wrappers
  import opened Strings
  import opened Seqs
  import opened Format
  import opened Models

  // ---------------------------------------------------------------------
  // Fragments

  const ImportPrefix := " \"simplified-prototype-api-collector/apis/api-"
  const ImportSuffix := "/routes\""

  /** The pieces of the import format `%s "simplified-prototype-api-collector/apis/api-%s/routes"`. */
  const ImportPieces := ["", ImportPrefix, ImportSuffix]

  const GroupOpen := "\n\tapi"
  const GroupAssign := " := r.Group(\"/api/"
  const GroupClose := "\")\n\t"
  const GroupRegister := ".RegisterRoutes(api"

  /** The pieces of the group format: a line break, the group variable and
      its `/api/<name>` prefix, then the package's `RegisterRoutes` call. */
  const GroupPieces := [GroupOpen, GroupAssign, GroupClose, GroupRegister, ")"]

  /** One import line: the API's routes package under the alias `name`. */
  function ImportFragment(name: string): string {
    Interleave(ImportPieces, [name, name])
  }

  /** One route group mounting the API's routes under `/api/<name>`. */
  function GroupFragment(name: string): string {
    Interleave(GroupPieces, [name, name, name, name])
  }

  /** The import line spelled out: alias, space, quoted package path. */
  lemma ImportFragmentShape(name: string)
    ensures ImportFragment(name) == name + " \"simplified-prototype-api-collector/apis/api-" + name + "/routes\""
  {
    Interleave2("", ImportPrefix, ImportSuffix, name, name);
    assert "" + name == name;
  }

  /** The group fragment spelled out. */
  lemma GroupFragmentShape(name: string)
    ensures GroupFragment(name)
         == "\n\tapi" + name + " := r.Group(\"/api/" + name + "\")\n\t" + name + ".RegisterRoutes(api" + name + ")"
  {
    Interleave4(GroupOpen, GroupAssign, GroupClose, GroupRegister, ")", name, name, name, name);
  }

  /** The alias at the head of an import line gives the name back. */
  function ImportName(fragment: string): string {
    var k := |fragment| - |ImportPrefix| - |ImportSuffix|;
    if 0 <= k && k % 2 == 0 then fragment[..k / 2] else fragment
  }

  lemma ImportNameRoundTrip(name: string)
    ensures ImportName(ImportFragment(name)) == name
  {
    ImportFragmentShape(name);
    var f := ImportFragment(name);
    assert |f| - |ImportPrefix| - |ImportSuffix| == 2 * |name|;
    assert f[..|name|] == name;
  }

  /** The name between `api` and ` := ` at the head of a group fragment. */
  function GroupName(fragment: string): string {
    var k := |fragment| - |GroupFragment("")|;
    var start := |GroupOpen|;
    if 0 <= k && k % 4 == 0 && start + k / 4 <= |fragment| then fragment[start..start + k / 4] else fragment
  }

  lemma GroupNameRoundTrip(name: string)
    ensures GroupName(GroupFragment(name)) == name
  {
    GroupFragmentShape(name);
    GroupFragmentShape("");
    var f := GroupFragment(name);
    assert |f| - |GroupFragment("")| == 4 * |name|;
    assert f[|GroupOpen|..|GroupOpen| + |name|] == name;
  }

  /** Distinct names give distinct fragments of either kind. */
  lemma FragmentsInjective(a: string, b: string)
    ensures ImportFragment(a) == ImportFragment(b) ==> a == b
    ensures GroupFragment(a) == GroupFragment(b) ==> a == b
  {
    ImportNameRoundTrip(a);
    ImportNameRoundTrip(b);
    GroupNameRoundTrip(a);
    GroupNameRoundTrip(b);
  }

  /** `apiImports`: entry `i` is the import line of `names[i]`. */
  function ImportList(names: seq<string>): (r: seq<string>)
    ensures |r| == |names|
    ensures forall i :: 0 <= i < |names| ==> r[i] == ImportFragment(names[i])
  {
    Map(ImportFragment, names)
  }

  /** `apiGroups`: entry `i` is the route group of `names[i]`. */
  function GroupList(names: seq<string>): (r: seq<string>)
    ensures |r| == |names|
    ensures forall i :: 0 <= i < |names| ==> r[i] == GroupFragment(names[i])
  {
    Map(GroupFragment, names)
  }

  /** The fragment lists determine the names, entry by entry. */
  lemma FragmentListsDetermineNames(a: seq<string>, b: seq<string>)
    ensures ImportList(a) == ImportList(b) ==> a == b
    ensures GroupList(a) == GroupList(b) ==> a == b
  {
    if ImportList(a) == ImportList(b) {
      forall i | 0 <= i < |a| ensures a[i] == b[i] {
        FragmentsInjective(a[i], b[i]);
      }
    }
    if GroupList(a) == GroupList(b) {
      forall i | 0 <= i < |a| ensures a[i] == b[i] {
        FragmentsInjective(a[i], b[i]);
      }
    }
  }

  /** Reordering the names reorders both fragment lists the same way: as
      multisets they do not depend on the order of the names. */
  lemma ReorderedNames(a: seq<string>, b: seq<string>)
    requires multiset(a) == multiset(b)
    ensures multiset(ImportList(a)) == multiset(ImportList(b))
    ensures multiset(GroupList(a)) == multiset(GroupList(b))
  {
    MapMultiset(ImportFragment, a, b);
    MapMultiset(GroupFragment, a, b);
  }

  // ---------------------------------------------------------------------
  // The application template

  /** The separator between consecutive fragments. */
  const FragmentSeparator := "\n\t"

  /** The literal text of the generated program between the holes. */
  const Head := "package main\n\nimport (\n\t"
  const Middle := "\n\n\t\"net\"\n\t\"log\"\n\t\"fmt\"\n\t\"github.com/gin-gonic/gin\"\n\t\"embed\"\n\t\"io/fs\"\n\t\"errors\"\n\t\"io\"\n\t\"net/http\"\n\t\"strings\"\n)\n\n//go:embed front-end/dist/*\nvar frontend embed.FS\n\ntype readerAt struct {\n\tio.Reader\n}\n\nfunc (r *readerAt) ReadAt(p []byte, off int64) (n int, err error) {\n\tif off < 0 {\n\t\treturn 0, errors.New(\"readerAt: invalid offset\")\n\t}\n\tn, err = r.Read(p)\n\tif err == io.EOF {\n\t\terr = io.ErrUnexpectedEOF\n\t}\n\treturn\n}\n\nfunc main() {\n\tgin.SetMode(gin.ReleaseMode)\n\tr := gin.Default()\n\n\t// Serve static files\n\tfrontendFS, err := fs.Sub(frontend, \"front-end/dist\")\n\tif err != nil {\n\t\tpanic(err)\n\t}\n\n\t// Custom handler for static files and index.html\n\t// Serve index.html for the root path\n\tr.GET(\"/\", func(c *gin.Context) {\n\t\tfileServer := http.FileServer(http.FS(frontendFS))\n\t\tfileServer.ServeHTTP(c.Writer, c.Request)\n\t})\n\n\t// Custom handler for static files\n\tr.NoRoute(func(c *gin.Context) {\n\t\tpath := c.Request.URL.Path\n\t\tif strings.HasPrefix(path, \"/api\") {\n\t\t\tc.Status(http.StatusNotFound)\n\t\t\treturn\n\t\t}\n\n\t\t// Serve static files\n\t\tfileServer := http.FileServer(http.FS(frontendFS))\n\t\tfileServer.ServeHTTP(c.Writer, c.Request)\n\t})\n\n\t"
  const Launch := "\n\n\tinternalIP, err := GetLocalIP()\n\n\tfmt.Println(\"Server OS has been successfully launched and is ready to go. \U{f0}\U{178}\U{161}\U{20ac}\")\n\t"
  const LocalBanner := "fmt.Println(\"Run on http://localhost:"
  const InternalBanner := "\")\n\tif err == nil {\n\t\tfmt.Println(\"Run on: http://\" + internalIP + \":"
  const RunCall := "\")\n\t}\n\tif err := r.Run(\":"
  const RunCheck := "\"); err != nil {"
  const Tail := "\n\t\tlog.Fatalf(err.Error())\n\t}\n}\n\nfunc GetLocalIP() (string, error) {\n\taddrs, err := net.InterfaceAddrs()\n\tif err != nil {\n\t\treturn \"\", err\n\t}\n\n\tfor _, addr := range addrs {\n\t\tipNet, ok := addr.(*net.IPNet)\n\t\tif !ok {\n\t\t\tcontinue\n\t\t}\n\t\tip := ipNet.IP\n\t\tif ip.IsLoopback() || ip.IsUnspecified() || ip.To4() == nil {\n\t\t\tcontinue\n\t\t}\n\n\t\treturn ip.String(), nil\n\t}\n\n\treturn \"\", fmt.Errorf(\"\U{d0}\U{b2}\U{d0}\U{bd}\U{d1}\U{192}\U{d1}\U{201a}\U{d1}\U{20ac}\U{d0}\U{b5}\U{d0}\U{bd}\U{d0}\U{bd}\U{d0}\U{b8}\U{d0}\U{b9} IP-\U{d0}\U{b0}\U{d0}\U{b4}\U{d1}\U{20ac}\U{d0}\U{b5}\U{d1} \U{d0}\U{bd}\U{d0}\U{b5} \U{d0}\U{bd}\U{d0}\U{b0}\U{d0}\U{b9}\U{d0}\U{b4}\U{d0}\U{b5}\U{d0}\U{bd}\")\n}\n"

  /** The six literal pieces of the template, around the holes for the
      imports, the groups and three times the port. */
  const AppChunks := [Head, Middle, Launch + LocalBanner, InternalBanner, RunCall, RunCheck + Tail]

  function AppArgs(names: seq<string>, port: string): seq<string> {
    [Join(ImportList(names), FragmentSeparator), Join(GroupList(names), FragmentSeparator), port, port, port]
  }

  /** `content`: the template filled by `fmt.Sprintf`. */
  function RenderApp(names: seq<string>, port: string): string {
    Interleave(AppChunks, AppArgs(names, port))
  }

  /** Filling six pieces whose third and sixth are themselves two texts. */
  lemma FillSixPieces(c0: string, c1: string, x: string, y: string, c3: string, c4: string, u: string, v: string,
                      a0: string, a1: string, a2: string, a3: string, a4: string)
    ensures Interleave([c0, c1, x + y, c3, c4, u + v], [a0, a1, a2, a3, a4])
         == c0 + a0 + c1 + a1 + x + y + a2 + c3 + a3 + c4 + a4 + u + v
  {
    Interleave5(c0, c1, x + y, c3, c4, u + v, a0, a1, a2, a3, a4);
  }

  /** The content is the literal pieces interleaved, in order, with the
      joined imports, the joined groups and the port three times. */
  lemma RenderAppPieces(names: seq<string>, port: string)
    ensures RenderApp(names, port)
         == Head + Join(ImportList(names), "\n\t") + Middle + Join(GroupList(names), "\n\t")
          + Launch + LocalBanner + port + InternalBanner + port + RunCall + port + RunCheck + Tail
  {
    FillSixPieces(Head, Middle, Launch, LocalBanner, InternalBanner, RunCall, RunCheck, Tail,
      Join(ImportList(names), "\n\t"), Join(GroupList(names), "\n\t"), port, port, port);
  }

  /** Without names both blocks are empty and only the port holes carry text. */
  lemma RenderAppWithoutNames(port: string)
    ensures AppArgs([], port) == ["", "", port, port, port]
    ensures RenderApp([], port) == Interleave(AppChunks, ["", "", port, port, port])
  {
    assert ImportList([]) == [] && GroupList([]) == [];
  }

  /** The port goes into exactly three places: the localhost banner, the
      internal-IP banner and the argument of `r.Run`; the text around them
      is the same for every port. */
  lemma PortFillsBanners(names: seq<string>) returns (before: string, after: string)
    ensures forall port :: (RenderApp(names, port)
         == before + "fmt.Println(\"Run on http://localhost:" + port
          + "\")\n\tif err == nil {\n\t\tfmt.Println(\"Run on: http://\" + internalIP + \":" + port
          + "\")\n\t}\n\tif err := r.Run(\":" + port + "\"); err != nil {" + after)
  {
    before := Head + Join(ImportList(names), "\n\t") + Middle + Join(GroupList(names), "\n\t") + Launch;
    after := Tail;
    forall port ensures RenderApp(names, port)
         == before + "fmt.Println(\"Run on http://localhost:" + port
          + "\")\n\tif err == nil {\n\t\tfmt.Println(\"Run on: http://\" + internalIP + \":" + port
          + "\")\n\t}\n\tif err := r.Run(\":" + port + "\"); err != nil {" + after
    {
      RenderAppPieces(names, port);
    }
  }

  lemma Regroup(a: string, p: string, x: string, q: string, b: string)
    ensures a + (p + x + q) + b == (a + p) + x + (q + b)
  {
  }

  /** The text around hole `k` of the content: the hole holds `args[k]`. */
  lemma AroundHole(names: seq<string>, port: string, k: nat, p: string, x: string, q: string)
    returns (before: string, after: string)
    requires k < 5 && AppArgs(names, port)[k] == p + x + q
    ensures RenderApp(names, port) == before + x + after
  {
    var args := AppArgs(names, port);
    InterleaveHole(AppChunks, args, k);
    var a, b := Interleave(AppChunks[..k + 1], args[..k]), Interleave(AppChunks[k + 1..], args[k + 1..]);
    Regroup(a, p, x, q, b);
    before, after := a + p, q + b;
  }

  /** Every name gets its import line and its route group in the content. */
  lemma RenderMountsEveryName(names: seq<string>, port: string, i: nat)
    returns (importBefore: string, importAfter: string, groupBefore: string, groupAfter: string)
    requires i < |names|
    ensures RenderApp(names, port) == importBefore + ImportFragment(names[i]) + importAfter
    ensures RenderApp(names, port) == groupBefore + GroupFragment(names[i]) + groupAfter
  {
    var p, q := JoinElement(ImportList(names), FragmentSeparator, i);
    importBefore, importAfter := AroundHole(names, port, 0, p, ImportFragment(names[i]), q);
    var p', q' := JoinElement(GroupList(names), FragmentSeparator, i);
    groupBefore, groupAfter := AroundHole(names, port, 1, p', GroupFragment(names[i]), q');
  }

  // ---------------------------------------------------------------------
  // Writing the file

  const OutDir := "out"
  const OutFile := OutDir + "/app.go"

  /** The error `createAppGoFile` returns and the files on disk afterwards. */
  datatype Written = Written(err: Option<Failure>, files: map<string, string>)

  /** The tail of `createAppGoFile` once the content is built: `mkdirAll`
      stands for `os.MkdirAll(outDir, 0755)`, `writeFile` for
      `ioutil.WriteFile(filePath, content, 0644)`. A failed write leaves the
      files as they were. */
  function WriteApp(
    content: string,
    files: map<string, string>,
    mkdirAll: string -> Outcome<Failure>,
    writeFile: (string, string) -> Outcome<Failure>): (r: Written)
    ensures r.err.None? <==> mkdirAll(OutDir).Pass? && writeFile(OutFile, content).Pass?
    ensures mkdirAll(OutDir).Fail? ==> r.err == Some(mkdirAll(OutDir).error)
    ensures mkdirAll(OutDir).Pass? && writeFile(OutFile, content).Fail? ==>
      r.err == Some(writeFile(OutFile, content).error)
    ensures r.err.Some? ==> r.files == files
    ensures r.err.None? ==> OutFile in r.files && r.files[OutFile] == content
    ensures forall p :: p != OutFile ==> (p in r.files <==> p in files)
    ensures forall p :: p != OutFile && p in files ==> r.files[p] == files[p]
  {
    match mkdirAll(OutDir)
    case Fail(e) => Written(Some(e), files)
    case Pass =>
      match writeFile(OutFile, content)
      case Fail(e) => Written(Some(e), files)
      case Pass => Written(None, files[OutFile := content])
  }

  /** `createAppGoFile`: the rendered content, written to `out/app.go`. */
  function CreateAppGoFile(
    names: seq<string>,
    port: string,
    files: map<string, string>,
    mkdirAll: string -> Outcome<Failure>,
    writeFile: (string, string) -> Outcome<Failure>): (r: Written)
    ensures r.err.None? <==> mkdirAll(OutDir).Pass? && writeFile(OutFile, RenderApp(names, port)).Pass?
    ensures mkdirAll(OutDir).Fail? ==> r.err == Some(mkdirAll(OutDir).error)
    ensures mkdirAll(OutDir).Pass? && writeFile(OutFile, RenderApp(names, port)).Fail? ==>
      r.err == Some(writeFile(OutFile, RenderApp(names, port)).error)
    ensures r.err.Some? ==> r.files == files
    ensures r.err.None? ==> OutFile in r.files && r.files[OutFile] == RenderApp(names, port)
    ensures forall p :: p != OutFile ==> (p in r.files <==> p in files)
    ensures forall p :: p != OutFile && p in files ==> r.files[p] == files[p]
  {
    WriteApp(RenderApp(names, port), files, mkdirAll, writeFile)
  }

  /** A failed directory creation stops before the write: the write oracle
      is never consulted. */
  lemma MkdirFailureSkipsWrite(
    names: seq<string>,
    port: string,
    files: map<string, string>,
    mkdirAll: string -> Outcome<Failure>,
    write1: (string, string) -> Outcome<Failure>,
    write2: (string, string) -> Outcome<Failure>)
    requires mkdirAll(OutDir).Fail?
    ensures CreateAppGoFile(names, port, files, mkdirAll, write1) == CreateAppGoFile(names, port, files, mkdirAll, write2)
  {
  }

  /** `Init`: generates the file and discards the error. The files afterwards
      are the old ones, or the old ones with `out/app.go` holding the content. */
  function Init(
    names: seq<string>,
    port: string,
    files: map<string, string>,
    mkdirAll: string -> Outcome<Failure>,
    writeFile: (string, string) -> Outcome<Failure>): (r: map<string, string>)
    ensures r == files || r == files[OutFile := RenderApp(names, port)]
  {
    CreateAppGoFile(names, port, files, mkdirAll, writeFile).files
  }
}
