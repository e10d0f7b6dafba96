/** `generate_functions_package`: the `functions/` package generated for the sandbox, at the level of
    its files, the wrappers they define and the imports that tie them together. */
module CodePackage {
  import opened Json
  import opened Slugs
  import opened Seqs
  import opened Signatures

  /** A function version; `doc` is the text of its wrapper's docstring. */
  datatype Func = Func(service: string, name: string, typescript: bool, code: string,
                       schema: Option<Schema>, doc: string)

  /** A tool of a remote MCP server, or an operation of a REST server. */
  datatype Tool = Tool(name: string, schema: Option<Schema>, doc: string)

  datatype Server = Server(name: string, tools: seq<Tool>)

  datatype Kind = Mcp | Api {
    function Prefix(): (r: string) { if Mcp? then "mcp__" else "api__" }
    function Label(): (r: string) { if Mcp? then "mcp:" else "api:" }
    function Dir(): (r: string) { if Mcp? then "_mcp" else "_api" }
    function BridgeStem(): (r: string) { if Mcp? then "_mcp_bridge" else "_api_bridge" }
  }

  datatype Service = Service(name: string, funcs: seq<Func>)

  /** A file below `functions/`, by directory and stem. */
  datatype Path = Top(stem: string) | CodeDir(stem: string) | ToolDir(kind: Kind, stem: string)

  datatype Body = RunsCode(path: Path) | CallsTs(qualified: string)
                | CallsTool(kind: Kind, server: string, tool: string)

  /** A wrapper: its name and parameters, the call it reports, its docstring and what it does. */
  datatype Def = Def(name: string, params: seq<Param>, tracks: string, doc: string, body: Body)

  /** `from functions.<module> import <name>`. */
  datatype Import = Import(from: Path, name: string)

  /** `catalog` is what the docstring of `__init__` lists: modules with their wrappers. */
  datatype File = Registry | TsBridge | Bridge(kind: Kind) | Empty | Module(title: string, defs: seq<Def>)
                | Code(text: string) | Init(imports: seq<Import>, catalog: seq<File>)

  datatype Write = Write(path: Path, file: File)

  function CodeStem(service: string, name: string): (r: string) { service + "__" + name }

  function CodePath(safe: Safe): (r: Func -> Path) { (f: Func) => CodeDir(CodeStem(safe(f.service), safe(f.name))) }

  function Wrapper(safe: Safe): (r: Func -> Def) {
    (f: Func) =>
      var qualified := f.service + "." + f.name;
      Def(safe(f.name), Params(safe, f.schema), qualified, f.doc,
          if f.typescript then CallsTs(qualified) else RunsCode(CodePath(safe)(f)))
  }

  /** REST wrappers all take the same four arguments. */
  function ApiParams(): (r: seq<Param>) {
    [Param("path", Some(Null)), Param("query", Some(Null)), Param("body", Some(Null)), Param("headers", Some(Null))]
  }

  function ToolParams(safe: Safe, kind: Kind, t: Tool): (r: seq<Param>) {
    if kind.Mcp? then Params(safe, t.schema) else ApiParams()
  }

  function ToolName(safe: Safe, kind: Kind, server: string, tool: string): (r: string) {
    kind.Prefix() + safe(server) + "__" + safe(tool)
  }

  function ToolDef(safe: Safe, kind: Kind, server: string): (r: Tool -> Def) {
    (t: Tool) => Def(ToolName(safe, kind, server, t.name), ToolParams(safe, kind, t),
                     kind.Label() + server + "." + t.name, t.doc, CallsTool(kind, server, t.name))
  }

  // ----- services, in order of first appearance

  function AddTo(services: seq<Service>, f: Func): (r: seq<Service>) {
    if services == [] then [Service(f.service, [f])]
    else if services[0].name == f.service then [Service(f.service, services[0].funcs + [f])] + services[1..]
    else [services[0]] + AddTo(services[1..], f)
  }

  function Services(functions: seq<Func>): (r: seq<Service>) {
    if functions == [] then [] else AddTo(Services(functions[..|functions| - 1]), functions[|functions| - 1])
  }

  function In(service: string): (r: Func -> bool) { (f: Func) => f.service == service }

  ghost predicate DistinctNames(services: seq<Service>) {
    forall i, j :: 0 <= i < j < |services| ==> services[i].name != services[j].name
  }

  ghost predicate HoldsIts(services: seq<Service>, functions: seq<Func>) {
    forall i :: 0 <= i < |services| ==> services[i].funcs == Filter(functions, In(services[i].name))
  }

  ghost predicate HasService(services: seq<Service>, name: string) {
    exists i :: 0 <= i < |services| && services[i].name == name
  }

  /** The services of `functions`: one per name, holding that service's functions in order. */
  ghost predicate Grouped(services: seq<Service>, functions: seq<Func>) {
    && DistinctNames(services) && HoldsIts(services, functions)
    && forall f <- functions :: HasService(services, f.service)
  }

  lemma {:induction false} AddToElsewhere(services: seq<Service>, f: Func)
    requires !HasService(services, f.service)
    ensures AddTo(services, f) == services + [Service(f.service, [f])]
  {
    if services != [] {
      assert services[0].name != f.service;
      assert forall i :: 0 <= i < |services[1..]| ==> services[1..][i] == services[i + 1];
      AddToElsewhere(services[1..], f);
    }
  }

  lemma {:induction false} AddToAt(services: seq<Service>, f: Func, i: nat)
    requires i < |services| && services[i].name == f.service
    requires forall k :: 0 <= k < i ==> services[k].name != f.service
    ensures AddTo(services, f) == services[i := Service(f.service, services[i].funcs + [f])]
  {
    if i > 0 { AddToAt(services[1..], f, i - 1); }
  }

  lemma GroupKnown(services: seq<Service>, functions: seq<Func>, f: Func, i: nat)
    requires Grouped(services, functions) && i < |services| && services[i].name == f.service
    ensures Grouped(AddTo(services, f), functions + [f])
  {
    AddToAt(services, f, i);
    var after := AddTo(services, f);
    forall k | 0 <= k < |after| ensures after[k].funcs == Filter(functions + [f], In(after[k].name)) {
      FilterSnoc(functions, f, In(after[k].name));
    }
    forall g | g in functions + [f] ensures HasService(after, g.service) {
      var k :| 0 <= k < |services| && services[k].name == g.service;
      assert after[k].name == g.service;
    }
  }

  lemma GroupNew(services: seq<Service>, functions: seq<Func>, f: Func)
    requires Grouped(services, functions) && !HasService(services, f.service)
    ensures Grouped(AddTo(services, f), functions + [f])
  {
    AddToElsewhere(services, f);
    var after := AddTo(services, f);
    FilterNone(functions, In(f.service));
    forall k | 0 <= k < |after| ensures after[k].funcs == Filter(functions + [f], In(after[k].name)) {
      FilterSnoc(functions, f, In(after[k].name));
      if k < |services| { assert services[k].name != f.service; }
    }
    forall g | g in functions + [f] ensures HasService(after, g.service) {
      if g.service == f.service {
        assert after[|services|].name == g.service;
      } else {
        var k :| 0 <= k < |services| && services[k].name == g.service;
        assert after[k].name == g.service;
      }
    }
  }

  lemma {:induction false} ServicesGrouped(functions: seq<Func>)
    ensures Grouped(Services(functions), functions)
  {
    if functions != [] {
      var init, f := functions[..|functions| - 1], functions[|functions| - 1];
      assert functions == init + [f];
      ServicesGrouped(init);
      if i :| 0 <= i < |Services(init)| && Services(init)[i].name == f.service {
        GroupKnown(Services(init), init, f, i);
      } else {
        GroupNew(Services(init), init, f);
      }
    }
  }

  lemma {:induction false} ServicesNotEmpty(functions: seq<Func>)
    ensures forall s <- Services(functions) :: s.funcs != []
  {
    if functions != [] {
      ServicesNotEmpty(functions[..|functions| - 1]);
      AddToNotEmpty(Services(functions[..|functions| - 1]), functions[|functions| - 1]);
    }
  }

  lemma {:induction false} AddToNotEmpty(services: seq<Service>, f: Func)
    requires forall s <- services :: s.funcs != []
    ensures forall s <- AddTo(services, f) :: s.funcs != []
  {
    if services != [] { AddToNotEmpty(services[1..], f); }
  }

  // ----- services, sorted by name

  /** Python's order on strings, by code point. */
  predicate Before(a: string, b: string) {
    b != "" && (a == "" || a[0] < b[0] || (a[0] == b[0] && Before(a[1..], b[1..])))
  }

  /** One string is before another when it is a proper prefix of it, or smaller where they first differ. */
  lemma {:induction false} BeforeExactly(a: string, b: string)
    ensures Before(a, b) <==> a < b || exists k :: SmallerAt(a, b, k)
  {
    SmallerAgrees(a, b);
    if a != "" && b != "" {
      if a[0] == b[0] {
        BeforeExactly(a[1..], b[1..]);
        assert a == [a[0]] + a[1..] && b == [b[0]] + b[1..];
        forall k | SmallerAt(a[1..], b[1..], k) ensures SmallerAt(a, b, k + 1) {
          assert a[..k + 1] == [a[0]] + a[1..][..k] && b[..k + 1] == [b[0]] + b[1..][..k];
        }
        forall k | SmallerAt(a, b, k) ensures SmallerAt(a[1..], b[1..], k - 1) {
          assert a[1..][..k - 1] == a[..k][1..] && b[1..][..k - 1] == b[..k][1..];
        }
      } else {
        assert a[0] < b[0] ==> SmallerAt(a, b, 0);
      }
    }
  }

  lemma SmallerAgrees(a: string, b: string)
    ensures forall k :: SmallerAt(a, b, k) && k > 0 ==> a[0] == b[0]
  {
    forall k | SmallerAt(a, b, k) && k > 0 ensures a[0] == b[0] {
      assert a[..k][0] == a[0] && b[..k][0] == b[0];
    }
  }

  /** The strings agree before `k`, where the first is smaller. */
  ghost predicate SmallerAt(a: string, b: string, k: int) {
    0 <= k < |a| && k < |b| && a[..k] == b[..k] && a[k] < b[k]
  }

  lemma {:induction false} BeforeTotal(a: string, b: string)
    ensures a != b ==> Before(a, b) || Before(b, a)
    ensures !(Before(a, b) && Before(b, a))
  {
    if a != "" && b != "" {
      BeforeTotal(a[1..], b[1..]);
      assert a[0] == b[0] && a[1..] == b[1..] ==> a == [a[0]] + a[1..] == b;
    }
  }

  lemma {:induction false} BeforeTransitive(a: string, b: string, c: string)
    requires !Before(b, a) && !Before(c, b)
    ensures !Before(c, a)
  {
    if a != "" && b != "" && c != "" && a[0] == b[0] == c[0] {
      BeforeTransitive(a[1..], b[1..], c[1..]);
    }
  }

  function InsertService(s: Service, sorted: seq<Service>): (r: seq<Service>) {
    if sorted == [] || !Before(sorted[0].name, s.name) then [s] + sorted
    else [sorted[0]] + InsertService(s, sorted[1..])
  }

  /** `sorted(services.items())`; names being distinct, they alone decide. */
  function SortServices(services: seq<Service>): (r: seq<Service>) {
    if services == [] then [] else InsertService(services[0], SortServices(services[1..]))
  }

  ghost predicate InOrder(services: seq<Service>) {
    forall i, j :: 0 <= i < j < |services| ==> !Before(services[j].name, services[i].name)
  }

  lemma {:induction false} InsertLaws(s: Service, sorted: seq<Service>)
    ensures forall t :: t in InsertService(s, sorted) <==> t == s || t in sorted
    ensures InOrder(sorted) ==> InOrder(InsertService(s, sorted))
  {
    if sorted == [] {
    } else if !Before(sorted[0].name, s.name) {
      if InOrder(sorted) {
        forall j | 0 <= j < |sorted| ensures !Before(sorted[j].name, s.name) {
          if j > 0 { BeforeTransitive(s.name, sorted[0].name, sorted[j].name); }
        }
      }
    } else {
      InsertLaws(s, sorted[1..]);
      assert sorted == [sorted[0]] + sorted[1..];
      if InOrder(sorted) {
        BeforeTotal(sorted[0].name, s.name);
        forall t | t in InsertService(s, sorted[1..]) ensures !Before(t.name, sorted[0].name) {
          if t != s {
            var j :| 0 <= j < |sorted| - 1 && sorted[1..][j] == t;
            assert sorted[j + 1] == t;
          }
        }
      }
    }
  }

  lemma {:induction false} SortLaws(services: seq<Service>)
    ensures InOrder(SortServices(services))
    ensures forall s :: s in SortServices(services) <==> s in services
  {
    if services != [] {
      SortLaws(services[1..]);
      InsertLaws(services[0], SortServices(services[1..]));
      assert services == [services[0]] + services[1..];
    }
  }

  // ----- the writes, in order

  datatype Inputs = Inputs(functions: seq<Func>, mcp: seq<Server>, api: seq<Server>) {
    function Servers(kind: Kind): (r: seq<Server>) { if kind.Mcp? then mcp else api }
  }

  function IsPython(f: Func): (r: bool) { !f.typescript }

  function ModuleWrite(safe: Safe): (r: Service -> Write) {
    (s: Service) => Write(Top(safe(s.name)), Module(s.name, Map(s.funcs, Wrapper(safe))))
  }

  function CodeWrite(safe: Safe): (r: Func -> Write) { (f: Func) => Write(CodePath(safe)(f), Code(f.code)) }

  function ToolWrite(safe: Safe, kind: Kind): (r: Server -> Write) {
    (s: Server) => Write(ToolDir(kind, safe(s.name)), Module(s.name, Map(s.tools, ToolDef(safe, kind, s.name))))
  }

  function ServiceWrites(safe: Safe, s: Service): (r: seq<Write>) {
    [ModuleWrite(safe)(s)] + CodeWrites(safe, s.funcs)
  }

  function Concat<T>(parts: seq<seq<T>>): (r: seq<T>) {
    if parts == [] then [] else Concat(parts[..|parts| - 1]) + parts[|parts| - 1]
  }

  function ServiceImports(safe: Safe): (r: Service -> seq<Import>) {
    (s: Service) => Map(s.funcs, (f: Func) => Import(Top(safe(s.name)), safe(f.name)))
  }

  function ToolImports(safe: Safe, kind: Kind): (r: Server -> seq<Import>) {
    (s: Server) => Map(s.tools, (t: Tool) => Import(ToolDir(kind, safe(s.name)), ToolName(safe, kind, s.name, t.name)))
  }

  function AllServiceImports(safe: Safe, x: Inputs): (r: seq<Import>) {
    Concat(Map(SortServices(Services(x.functions)), ServiceImports(safe)))
  }

  function AllToolImports(safe: Safe, x: Inputs, kind: Kind): (r: seq<Import>) {
    Concat(Map(x.Servers(kind), ToolImports(safe, kind)))
  }

  function Imports(safe: Safe, x: Inputs): (r: seq<Import>) {
    AllServiceImports(safe, x) + AllToolImports(safe, x, Mcp) + AllToolImports(safe, x, Api)
  }

  function FileOf(w: Write): (r: File) { w.file }

  /** What the docstring of `__init__` lists, in the order of the imports. */
  function Catalog(safe: Safe, x: Inputs): (r: seq<File>) {
    Map(Map(SortServices(Services(x.functions)), ModuleWrite(safe)), FileOf)
    + Map(Map(x.mcp, ToolWrite(safe, Mcp)), FileOf) + Map(Map(x.api, ToolWrite(safe, Api)), FileOf)
  }

  predicate HasTs(functions: seq<Func>) { exists f <- functions :: f.typescript }

  function WritesOfServices(safe: Safe, services: seq<Service>): (r: seq<Write>) {
    Concat(Map(services, (s: Service) => ServiceWrites(safe, s)))
  }

  function ToolHead(kind: Kind): (r: seq<Write>) {
    [Write(Top(kind.BridgeStem()), Bridge(kind)), Write(ToolDir(kind, "__init__"), Empty)]
  }

  function ToolPart(safe: Safe, kind: Kind, servers: seq<Server>): (r: seq<Write>) {
    if servers == [] then [] else ToolHead(kind) + Map(servers, ToolWrite(safe, kind))
  }

  function TsPart(functions: seq<Func>): (r: seq<Write>) {
    if HasTs(functions) then [Write(Top("_ts_bridge"), TsBridge)] else []
  }

  function InitWrite(safe: Safe, x: Inputs): (r: Write) {
    Write(Top("__init__"), Init(Imports(safe, x), Catalog(safe, x)))
  }

  function Writes(safe: Safe, x: Inputs): (r: seq<Write>) {
    [Write(Top("_registry"), Registry)] + TsPart(x.functions) + WritesOfServices(safe, Services(x.functions))
    + ToolPart(safe, Mcp, x.mcp) + ToolPart(safe, Api, x.api) + [InitWrite(safe, x)]
  }

  type Files = map<Path, File>

  function Overlay(files: Files, ws: seq<Write>): (r: Files) {
    if ws == [] then files
    else Overlay(files, ws[..|ws| - 1])[ws[|ws| - 1].path := ws[|ws| - 1].file]
  }

  // ----- nothing is overwritten

  /** Writes to the same file write the same. */
  ghost predicate Consistent(ws: seq<Write>) { forall v <- ws, w <- ws :: v.path == w.path ==> v.file == w.file }

  lemma {:induction false} OverlayLast(files: Files, ws: seq<Write>, p: Path)
    requires exists w <- ws :: w.path == p
    ensures p in Overlay(files, ws) && Write(p, Overlay(files, ws)[p]) in ws
  {
    var init, w := ws[..|ws| - 1], ws[|ws| - 1];
    assert ws == init + [w];
    if w.path != p {
      OverlayLast(files, init, p);
    }
  }

  ghost predicate Survives(files: Files, w: Write) { w.path in files && files[w.path] == w.file }

  /** Every write is there in the end. */
  ghost predicate Intact(files: Files, ws: seq<Write>) { forall w <- ws :: Survives(files, w) }

  /** Every file ends up as written exactly when no two writes to a file disagree. */
  lemma SurvivalExactly(ws: seq<Write>)
    ensures Intact(Overlay(map[], ws), ws) <==> Consistent(ws)
  {
    var files := Overlay(map[], ws);
    forall w | w in ws ensures w.path in files && Write(w.path, files[w.path]) in ws {
      OverlayLast(map[], ws, w.path);
    }
    if Intact(files, ws) {
      forall v, w | v in ws && w in ws && v.path == w.path ensures v.file == w.file {
        assert Survives(files, v) && Survives(files, w);
      }
    }
  }

  // ----- the generator

  lemma {:induction false} OverlayConcat(files: Files, a: seq<Write>, b: seq<Write>)
    ensures Overlay(files, a + b) == Overlay(Overlay(files, a), b)
    decreases |b|
  {
    if b == [] {
      assert a + b == a;
    } else {
      OverlayConcat(files, a, b[..|b| - 1]);
      assert (a + b)[..|a + b| - 1] == a + b[..|b| - 1];
    }
  }

  lemma OverlayOne(files: Files, w: Write)
    ensures Overlay(files, [w]) == files[w.path := w.file]
  {
    assert [w][..0] == [];
  }

  lemma OverlayNext(files: Files, ws: seq<Write>, w: Write)
    ensures Overlay(files, ws + [w]) == Overlay(files, ws)[w.path := w.file]
  {
    assert (ws + [w])[..|ws|] == ws;
  }

  lemma ConcatNext<T>(parts: seq<seq<T>>, p: seq<T>)
    ensures Concat(parts + [p]) == Concat(parts) + p
  {
    assert (parts + [p])[..|parts|] == parts;
  }

  method GroupServices(functions: seq<Func>) returns (services: seq<Service>, hasTs: bool)
    ensures services == Services(functions) && hasTs == HasTs(functions)
  {
    services, hasTs := [], false;
    for i := 0 to |functions|
      invariant services == Services(functions[..i])
      invariant hasTs <==> exists k :: 0 <= k < i && functions[k].typescript
    {
      assert functions[..i + 1][..i] == functions[..i];
      services := AddTo(services, functions[i]);
      if functions[i].typescript { hasTs := true; }
    }
    assert functions[..|functions|] == functions;
    assert hasTs ==> exists k :: 0 <= k < |functions| && functions[k].typescript && functions[k] in functions;
  }

  function CodeWrites(safe: Safe, funcs: seq<Func>): (r: seq<Write>) { Map(Filter(funcs, IsPython), CodeWrite(safe)) }

  lemma CodeNext(base: Files, safe: Safe, funcs: seq<Func>, f: Func)
    ensures Overlay(base, CodeWrites(safe, funcs + [f]))
         == var before := Overlay(base, CodeWrites(safe, funcs));
            if f.typescript then before else before[CodePath(safe)(f) := Code(f.code)]
  {
    FilterSnoc(funcs, f, IsPython);
    if f.typescript {
      assert Filter(funcs, IsPython) + [] == Filter(funcs, IsPython);
    } else {
      MapSnoc(Filter(funcs, IsPython), f, CodeWrite(safe));
      OverlayNext(base, CodeWrites(safe, funcs), CodeWrite(safe)(f));
    }
  }

  /** A service's module and the code of its Python functions. */
  method WriteService(files0: Files, safe: Safe, s: Service) returns (files: Files)
    ensures files == Overlay(files0, ServiceWrites(safe, s))
  {
    var head := ModuleWrite(safe)(s);
    files := files0[head.path := head.file];
    ghost var base := files;
    for i := 0 to |s.funcs|
      invariant files == Overlay(base, CodeWrites(safe, s.funcs[..i]))
    {
      var f := s.funcs[i];
      CodeNext(base, safe, s.funcs[..i], f);
      assert s.funcs[..i + 1] == s.funcs[..i] + [f];
      if f.typescript { continue; }
      files := files[CodePath(safe)(f) := Code(f.code)];
    }
    assert s.funcs[..|s.funcs|] == s.funcs;
    OverlayOne(files0, head);
    OverlayConcat(files0, [head], CodeWrites(safe, s.funcs));
  }

  method WriteServices(files0: Files, safe: Safe, services: seq<Service>) returns (files: Files)
    ensures files == Overlay(files0, WritesOfServices(safe, services))
  {
    files := files0;
    ghost var writes := (s: Service) => ServiceWrites(safe, s);
    for i := 0 to |services|
      invariant files == Overlay(files0, Concat(Map(services[..i], writes)))
    {
      var s := services[i];
      files := WriteService(files, safe, s);
      OverlayConcat(files0, Concat(Map(services[..i], writes)), writes(s));
      assert services[..i + 1] == services[..i] + [s];
      MapSnoc(services[..i], s, writes);
      ConcatNext(Map(services[..i], writes), writes(s));
    }
    assert services[..|services|] == services;
  }

  /** The modules of remote servers, one after the other. */
  method WriteServers(files0: Files, servers: seq<Server>, write: Server -> Write) returns (files: Files)
    ensures files == Overlay(files0, Map(servers, write))
  {
    files := files0;
    for i := 0 to |servers|
      invariant files == Overlay(files0, Map(servers[..i], write))
    {
      var w := write(servers[i]);
      files := files[w.path := w.file];
      assert servers[..i + 1] == servers[..i] + [servers[i]];
      MapSnoc(servers[..i], servers[i], write);
      OverlayNext(files0, Map(servers[..i], write), w);
    }
    assert servers[..|servers|] == servers;
  }

  /** The imports of one group of modules. */
  method CollectImports<T>(items: seq<T>, list: T -> seq<Import>) returns (imports: seq<Import>)
    ensures imports == Concat(Map(items, list))
  {
    imports := [];
    for i := 0 to |items|
      invariant imports == Concat(Map(items[..i], list))
    {
      imports := imports + list(items[i]);
      assert items[..i + 1] == items[..i] + [items[i]];
      MapSnoc(items[..i], items[i], list);
      ConcatNext(Map(items[..i], list), list(items[i]));
    }
    assert items[..|items|] == items;
  }

  method GeneratePackage(safe: Safe, x: Inputs) returns (files: Files)
    ensures files == Overlay(map[], Writes(safe, x))
  {
    var services, hasTs := GroupServices(x.functions);
    ghost var registry := [Write(Top("_registry"), Registry)];
    files := map[Top("_registry") := Registry];
    OverlayOne(map[], registry[0]);
    ghost var done := registry;
    if hasTs {
      files := files[Top("_ts_bridge") := TsBridge];
      OverlayNext(map[], done, Write(Top("_ts_bridge"), TsBridge));
    } else {
      assert done + [] == done;
    }
    done := done + TsPart(x.functions);
    OverlayConcat(map[], done, WritesOfServices(safe, services));
    files := WriteServices(files, safe, services);
    done := done + WritesOfServices(safe, services);
    OverlayConcat(map[], done, ToolPart(safe, Mcp, x.mcp));
    files := WriteTools(files, safe, Mcp, x.mcp);
    done := done + ToolPart(safe, Mcp, x.mcp);
    OverlayConcat(map[], done, ToolPart(safe, Api, x.api));
    files := WriteTools(files, safe, Api, x.api);
    done := done + ToolPart(safe, Api, x.api);
    var init := GenerateInit(safe, x, services);
    OverlayNext(map[], done, InitWrite(safe, x));
    files := files[Top("__init__") := init];
  }

  /** `_generate_init_with_mcp`: the imports and what the docstring lists, group by group. */
  method GenerateInit(safe: Safe, x: Inputs, services: seq<Service>) returns (init: File)
    requires services == Services(x.functions)
    ensures init == Init(Imports(safe, x), Catalog(safe, x))
  {
    var sorted := SortServices(services);
    var imports1 := CollectImports(sorted, ServiceImports(safe));
    var imports2 := CollectImports(x.mcp, ToolImports(safe, Mcp));
    var imports3 := CollectImports(x.api, ToolImports(safe, Api));
    var catalog := Map(Map(sorted, ModuleWrite(safe)), FileOf) + Map(Map(x.mcp, ToolWrite(safe, Mcp)), FileOf)
                   + Map(Map(x.api, ToolWrite(safe, Api)), FileOf);
    return Init(imports1 + imports2 + imports3, catalog);
  }

  /** The bridge, the directory's `__init__` and the server modules, if there are servers. */
  method WriteTools(files0: Files, safe: Safe, kind: Kind, servers: seq<Server>) returns (files: Files)
    ensures files == Overlay(files0, ToolPart(safe, kind, servers))
  {
    if servers == [] { return files0; }
    files := files0[Top(kind.BridgeStem()) := Bridge(kind)][ToolDir(kind, "__init__") := Empty];
    ghost var head := ToolHead(kind);
    assert head == [head[0]] + [head[1]];
    OverlayOne(files0, head[0]);
    OverlayNext(files0, [head[0]], head[1]);
    OverlayConcat(files0, head, Map(servers, ToolWrite(safe, kind)));
    files := WriteServers(files, servers, ToolWrite(safe, kind));
  }
}
