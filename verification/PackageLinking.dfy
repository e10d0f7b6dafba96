/** When the generated package links: every file as generated, every import and code path right. */
module PackageLinking {
  import opened Json
  import opened Slugs
  import opened Seqs
  import opened Signatures
  import opened ToolNames
  import opened CodePackage
  import opened PackageNames

  lemma {:induction false} InConcat<T>(parts: seq<seq<T>>, x: T)
    ensures x in Concat(parts) <==> exists p <- parts :: x in p
  {
    if parts != [] {
      InConcat(parts[..|parts| - 1], x);
      assert parts == parts[..|parts| - 1] + [parts[|parts| - 1]];
    }
  }

  lemma InMap<T, U>(xs: seq<T>, f: T -> U, y: U)
    ensures y in Map(xs, f) <==> exists x <- xs :: y == f(x)
  {
    if y in Map(xs, f) {
      var i :| 0 <= i < |xs| && Map(xs, f)[i] == y;
      assert xs[i] in xs;
    }
    if x :| x in xs && y == f(x) {
      var i :| 0 <= i < |xs| && xs[i] == x;
      assert Map(xs, f)[i] == y;
    }
  }

  // ----- where a write can come from

  function BridgeWrites(kind: Kind, servers: seq<Server>): (r: seq<Write>) {
    if servers == [] then [] else [Write(Top(kind.BridgeStem()), Bridge(kind))]
  }

  /** The runtime files that these inputs call for, in the top directory. */
  function RuntimeWrites(safe: Safe, x: Inputs): (r: seq<Write>) {
    [Write(Top("_registry"), Registry), InitWrite(safe, x)] + TsPart(x.functions)
    + BridgeWrites(Mcp, x.mcp) + BridgeWrites(Api, x.api)
  }

  ghost predicate IsModule(safe: Safe, x: Inputs, w: Write) {
    exists s <- Services(x.functions) :: w == ModuleWrite(safe)(s)
  }

  ghost predicate IsCode(safe: Safe, x: Inputs, w: Write) {
    exists f <- x.functions :: IsPython(f) && w == CodeWrite(safe)(f)
  }

  ghost predicate IsServer(servers: seq<Server>, write: Server -> Write, w: Write) {
    || (servers != [] && w.path.stem == "__init__" && w.file == Empty)
    || exists s <- servers :: w == write(s)
  }

  ghost predicate Origin(safe: Safe, x: Inputs, w: Write) {
    match w.path
    case Top(_) => w in RuntimeWrites(safe, x) || IsModule(safe, x, w)
    case CodeDir(_) => IsCode(safe, x, w)
    case ToolDir(kind, _) => IsServer(x.Servers(kind), ToolWrite(safe, kind), w)
  }

  lemma ServiceOfMember(x: Inputs, s: Service, f: Func)
    requires s in Services(x.functions) && f in s.funcs
    ensures f in x.functions && f.service == s.name
  {
    ServicesGrouped(x.functions);
    var i :| 0 <= i < |Services(x.functions)| && Services(x.functions)[i] == s;
    FilterKeeps(x.functions, In(s.name));
  }

  lemma ServiceOf(x: Inputs, f: Func) returns (s: Service)
    requires f in x.functions
    ensures s in Services(x.functions) && s.name == f.service && f in s.funcs
  {
    ServicesGrouped(x.functions);
    var i :| 0 <= i < |Services(x.functions)| && Services(x.functions)[i].name == f.service;
    s := Services(x.functions)[i];
    FilterKeeps(x.functions, In(s.name));
  }

  lemma InServiceWrites(safe: Safe, s: Service, w: Write)
    ensures w in ServiceWrites(safe, s) <==>
              w == ModuleWrite(safe)(s) || exists f <- s.funcs :: IsPython(f) && w == CodeWrite(safe)(f)
  {
    InMap(Filter(s.funcs, IsPython), CodeWrite(safe), w);
    FilterKeeps(s.funcs, IsPython);
  }

  lemma InServices(safe: Safe, x: Inputs, w: Write)
    ensures w in WritesOfServices(safe, Services(x.functions)) <==> IsModule(safe, x, w) || IsCode(safe, x, w)
  {
    var services := Services(x.functions);
    var writes := (s: Service) => ServiceWrites(safe, s);
    InConcat(Map(services, writes), w);
    forall s | s in services ensures ServiceWrites(safe, s) in Map(services, writes) {
      InMap(services, writes, ServiceWrites(safe, s));
    }
    if w in WritesOfServices(safe, services) {
      var part :| part in Map(services, writes) && w in part;
      InMap(services, writes, part);
      var s :| s in services && part == ServiceWrites(safe, s);
      InServiceWrites(safe, s, w);
      if w != ModuleWrite(safe)(s) {
        var f :| f in s.funcs && IsPython(f) && w == CodeWrite(safe)(f);
        ServiceOfMember(x, s, f);
      }
    }
    if IsModule(safe, x, w) {
      var s :| s in services && w == ModuleWrite(safe)(s);
      InServiceWrites(safe, s, w);
    }
    if IsCode(safe, x, w) {
      var f :| f in x.functions && IsPython(f) && w == CodeWrite(safe)(f);
      var s := ServiceOf(x, f);
      InServiceWrites(safe, s, w);
    }
  }

  lemma SixParts<T>(a: seq<T>, b: seq<T>, c: seq<T>, d: seq<T>, e: seq<T>, f: seq<T>, x: T)
    ensures x in a + b + c + d + e + f <==> x in a || x in b || x in c || x in d || x in e || x in f
  {}

  /** A bridge, a directory's `__init__` or a server's module. */
  ghost predicate FromTools(safe: Safe, kind: Kind, servers: seq<Server>, w: Write) {
    || w in BridgeWrites(kind, servers)
    || (w.path.ToolDir? && w.path.kind == kind && IsServer(servers, ToolWrite(safe, kind), w))
  }

  lemma InToolPart(safe: Safe, kind: Kind, servers: seq<Server>, w: Write)
    ensures w in ToolPart(safe, kind, servers) <==> FromTools(safe, kind, servers, w)
  {
    InMap(servers, ToolWrite(safe, kind), w);
  }

  lemma RuntimeParts(safe: Safe, x: Inputs, w: Write)
    ensures w in RuntimeWrites(safe, x) <==>
              || w == Write(Top("_registry"), Registry) || w == InitWrite(safe, x) || w in TsPart(x.functions)
              || w in BridgeWrites(Mcp, x.mcp) || w in BridgeWrites(Api, x.api)
    ensures w in RuntimeWrites(safe, x) ==> w.path.Top?
  {}

  /** The package's writes are exactly those with an origin in its inputs. */
  lemma InWrites(safe: Safe, x: Inputs, w: Write)
    ensures w in Writes(safe, x) <==> Origin(safe, x, w)
  {
    SixParts([Write(Top("_registry"), Registry)], TsPart(x.functions), WritesOfServices(safe, Services(x.functions)),
             ToolPart(safe, Mcp, x.mcp), ToolPart(safe, Api, x.api), [InitWrite(safe, x)], w);
    InServices(safe, x, w);
    InToolPart(safe, Mcp, x.mcp, w);
    InToolPart(safe, Api, x.api, w);
    RuntimeParts(safe, x, w);
    ServicePaths(safe, x, w);
  }

  lemma ServicePaths(safe: Safe, x: Inputs, w: Write)
    ensures IsModule(safe, x, w) ==> w.path.Top?
    ensures IsCode(safe, x, w) ==> w.path.CodeDir?
  {
    forall f ensures CodeWrite(safe)(f).path.CodeDir? { assert CodeWrite(safe)(f).path == CodePath(safe)(f); }
  }

  // ----- nothing is overwritten, exactly

  ghost predicate ServersAgree(servers: seq<Server>, write: Server -> Write) {
    && (forall s <- servers :: write(s).path.stem != "__init__")
    && (forall s <- servers, t <- servers :: write(s).path == write(t).path ==> write(s).file == write(t).file)
  }

  /** What a caller can check on the inputs: no two services share a module file, no service takes a
      runtime file's name, functions that share a code file share the code, and servers that share a
      file generate the same one, which is not the package file of their directory. */
  ghost predicate NoClash(safe: Safe, x: Inputs) {
    && (forall f <- x.functions, g <- x.functions :: safe(f.service) == safe(g.service) ==> f.service == g.service)
    && (forall f <- x.functions, r <- RuntimeWrites(safe, x) :: r.path.stem != safe(f.service))
    && (forall f <- x.functions, g <- x.functions ::
          IsPython(f) && IsPython(g) && CodePath(safe)(f) == CodePath(safe)(g) ==> f.code == g.code)
    && ServersAgree(x.mcp, ToolWrite(safe, Mcp)) && ServersAgree(x.api, ToolWrite(safe, Api))
  }

  /** A runtime file's name tells what it is. */
  lemma RuntimeAgrees(safe: Safe, x: Inputs, v: Write, w: Write)
    requires v in RuntimeWrites(safe, x) && w in RuntimeWrites(safe, x) && v.path == w.path
    ensures v == w
  {
    RuntimeKinds(safe, x, v);
    RuntimeKinds(safe, x, w);
  }

  /** The second letter of a runtime file's name tells it from the others. */
  ghost predicate Lettered(w: Write, c: char) { w.path.Top? && |w.path.stem| > 1 && w.path.stem[1] == c }

  lemma BridgeLetter(kind: Kind, servers: seq<Server>, w: Write)
    requires w in BridgeWrites(kind, servers)
    ensures w == Write(Top(kind.BridgeStem()), Bridge(kind)) && Lettered(w, if kind.Mcp? then 'm' else 'a')
  {}

  lemma RuntimeKinds(safe: Safe, x: Inputs, w: Write)
    requires w in RuntimeWrites(safe, x)
    ensures || (w == Write(Top("_registry"), Registry) && Lettered(w, 'r'))
            || (w == InitWrite(safe, x) && Lettered(w, '_'))
            || (w == Write(Top("_ts_bridge"), TsBridge) && Lettered(w, 't'))
            || (w == Write(Top(Mcp.BridgeStem()), Bridge(Mcp)) && Lettered(w, 'm'))
            || (w == Write(Top(Api.BridgeStem()), Bridge(Api)) && Lettered(w, 'a'))
  {
    RuntimeParts(safe, x, w);
    if w in BridgeWrites(Mcp, x.mcp) {
      BridgeLetter(Mcp, x.mcp, w);
    } else if w in BridgeWrites(Api, x.api) {
      BridgeLetter(Api, x.api, w);
    }
  }

  lemma RuntimeInTop(safe: Safe, x: Inputs, w: Write)
    requires w in RuntimeWrites(safe, x)
    ensures w.path.Top? && !w.file.Module? && w.path.stem != "" && w.path.stem[0] == '_'
  {
    RuntimeParts(safe, x, w);
  }

  lemma MemberOf(x: Inputs, s: Service) returns (f: Func)
    requires s in Services(x.functions)
    ensures f in s.funcs && f in x.functions && f.service == s.name
  {
    ServicesNotEmpty(x.functions);
    f := s.funcs[0];
    ServiceOfMember(x, s, f);
  }

  lemma OneService(x: Inputs, s: Service, t: Service)
    requires s in Services(x.functions) && t in Services(x.functions) && s.name == t.name
    ensures s == t
  {
    ServicesGrouped(x.functions);
    var services := Services(x.functions);
    var i, j :| 0 <= i < |services| && 0 <= j < |services| && services[i] == s && services[j] == t;
    assert i == j;
  }

  lemma TopAgrees(safe: Safe, x: Inputs, v: Write, w: Write)
    requires NoClash(safe, x) && v.path == w.path && IsModule(safe, x, v)
    requires w in RuntimeWrites(safe, x) || IsModule(safe, x, w)
    ensures v.file == w.file
  {
    var s :| s in Services(x.functions) && v == ModuleWrite(safe)(s);
    var f := MemberOf(x, s);
    assert w !in RuntimeWrites(safe, x);
    var t :| t in Services(x.functions) && w == ModuleWrite(safe)(t);
    var g := MemberOf(x, t);
    OneService(x, s, t);
  }

  lemma CodeAgrees(safe: Safe, x: Inputs, v: Write, w: Write)
    requires NoClash(safe, x) && v.path == w.path && IsCode(safe, x, v) && IsCode(safe, x, w)
    ensures v.file == w.file
  {
    var f :| f in x.functions && IsPython(f) && v == CodeWrite(safe)(f);
    var g :| g in x.functions && IsPython(g) && w == CodeWrite(safe)(g);
    assert CodePath(safe)(f) == v.path == CodePath(safe)(g);
  }

  lemma OriginsAgree(safe: Safe, x: Inputs, v: Write, w: Write)
    requires NoClash(safe, x) && Origin(safe, x, v) && Origin(safe, x, w) && v.path == w.path
    ensures v.file == w.file
  {
    match v.path
    case Top(_) =>
      if IsModule(safe, x, v) { TopAgrees(safe, x, v, w); }
      else if IsModule(safe, x, w) { TopAgrees(safe, x, w, v); }
      else { RuntimeAgrees(safe, x, v, w); }
    case CodeDir(_) => CodeAgrees(safe, x, v, w);
    case ToolDir(kind, _) =>
  }

  lemma NoClashConsistent(safe: Safe, x: Inputs)
    requires NoClash(safe, x)
    ensures Consistent(Writes(safe, x))
  {
    forall v, w | v in Writes(safe, x) && w in Writes(safe, x) && v.path == w.path ensures v.file == w.file {
      InWrites(safe, x, v);
      InWrites(safe, x, w);
      OriginsAgree(safe, x, v, w);
    }
  }

  lemma ConsistentAgree(ws: seq<Write>, servers: seq<Server>, write: Server -> Write, init: Path)
    requires Consistent(ws) && forall s <- servers :: write(s) in ws && Write(init, Empty) in ws
    requires forall s <- servers :: write(s).file.Module?
    requires forall s <- servers :: write(s).path.stem == "__init__" ==> write(s).path == init
    ensures ServersAgree(servers, write)
  {}

  lemma ConsistentTools(safe: Safe, x: Inputs, kind: Kind)
    requires Consistent(Writes(safe, x))
    ensures ServersAgree(x.Servers(kind), ToolWrite(safe, kind))
  {
    var init := Write(ToolDir(kind, "__init__"), Empty);
    forall s | s in x.Servers(kind) ensures ToolWrite(safe, kind)(s) in Writes(safe, x) && init in Writes(safe, x) {
      InWrites(safe, x, ToolWrite(safe, kind)(s));
      InWrites(safe, x, init);
    }
    ConsistentAgree(Writes(safe, x), x.Servers(kind), ToolWrite(safe, kind), init.path);
  }

  lemma ConsistentServices(safe: Safe, x: Inputs, f: Func)
    requires Consistent(Writes(safe, x)) && f in x.functions
    ensures forall g <- x.functions :: safe(f.service) == safe(g.service) ==> f.service == g.service
    ensures forall r <- RuntimeWrites(safe, x) :: r.path.stem != safe(f.service)
    ensures forall g <- x.functions ::
              IsPython(f) && IsPython(g) && CodePath(safe)(f) == CodePath(safe)(g) ==> f.code == g.code
  {
    var s := ServiceOf(x, f);
    var m := ModuleWrite(safe)(s);
    InWrites(safe, x, m);
    forall g | g in x.functions && safe(f.service) == safe(g.service) ensures f.service == g.service {
      var t := ServiceOf(x, g);
      InWrites(safe, x, ModuleWrite(safe)(t));
    }
    forall r | r in RuntimeWrites(safe, x) ensures r.path.stem != safe(f.service) {
      RuntimeInTop(safe, x, r);
      InWrites(safe, x, r);
    }
    forall g | g in x.functions && IsPython(f) && IsPython(g) && CodePath(safe)(f) == CodePath(safe)(g)
      ensures f.code == g.code
    {
      ServicePaths(safe, x, CodeWrite(safe)(f));
      ServicePaths(safe, x, CodeWrite(safe)(g));
      InWrites(safe, x, CodeWrite(safe)(f));
      InWrites(safe, x, CodeWrite(safe)(g));
    }
  }

  /** Every generated file is there as generated exactly when the names do not clash. */
  lemma IntactExactly(safe: Safe, x: Inputs)
    ensures Intact(Overlay(map[], Writes(safe, x)), Writes(safe, x)) <==> NoClash(safe, x)
  {
    SurvivalExactly(Writes(safe, x));
    if NoClash(safe, x) {
      NoClashConsistent(safe, x);
    }
    if Consistent(Writes(safe, x)) {
      ConsistentTools(safe, x, Mcp);
      ConsistentTools(safe, x, Api);
      forall f | f in x.functions
        ensures forall g <- x.functions :: safe(f.service) == safe(g.service) ==> f.service == g.service
        ensures forall r <- RuntimeWrites(safe, x) :: r.path.stem != safe(f.service)
        ensures forall g <- x.functions ::
                  IsPython(f) && IsPython(g) && CodePath(safe)(f) == CodePath(safe)(g) ==> f.code == g.code
      {
        ConsistentServices(safe, x, f);
      }
    }
  }

  // ----- names that never clash

  /** What decides which wrapper a name stands for: within a service no two different functions, and
      within a server no two different members, sanitise alike. */
  ghost predicate MembersApart(safe: Safe, x: Inputs) {
    FunctionsApart(safe, x.functions) && ToolsApart(safe, Mcp, x.mcp) && ToolsApart(safe, Api, x.api)
  }

  /** The wrappers of the two functions are the same. */
  ghost predicate SameFunction(safe: Safe, f: Func, g: Func) {
    && f.name == g.name && f.typescript == g.typescript && f.doc == g.doc
    && Params(safe, f.schema) == Params(safe, g.schema)
  }

  ghost predicate FunctionsApart(safe: Safe, functions: seq<Func>) {
    forall f <- functions, g <- functions ::
      f.service == g.service && safe(f.name) == safe(g.name) ==> SameFunction(safe, f, g)
  }

  ghost predicate SameTool(safe: Safe, kind: Kind, m: Tool, n: Tool) {
    m.name == n.name && m.doc == n.doc && ToolParams(safe, kind, m) == ToolParams(safe, kind, n)
  }

  ghost predicate ToolsApart(safe: Safe, kind: Kind, servers: seq<Server>) {
    forall s <- servers :: ToolsOfApart(safe, kind, s)
  }

  ghost predicate ToolsOfApart(safe: Safe, kind: Kind, s: Server) {
    forall m <- s.tools, n <- s.tools :: safe(m.name) == safe(n.name) ==> SameTool(safe, kind, m, n)
  }

  ghost predicate ServersApart(safe: Safe, kind: Kind, servers: seq<Server>) {
    && (forall s <- servers :: safe(s.name) != "__init__")
    && (forall s <- servers, t <- servers :: safe(s.name) == safe(t.name) ==> s == t)
    && ToolsApart(safe, kind, servers)
  }

  /** Sanitised service names are distinct module stems, sanitised function names are distinct within
      a service, sanitised server names are distinct and not `__init__`, and sanitised member names
      are distinct within a server. */
  ghost predicate NamesApart(safe: Safe, x: Inputs) {
    && (forall f <- x.functions :: ModuleStem(safe(f.service)))
    && (forall f <- x.functions, g <- x.functions :: safe(f.service) == safe(g.service) ==> f.service == g.service)
    && (forall f <- x.functions, g <- x.functions :: f.service == g.service && safe(f.name) == safe(g.name) ==> f == g)
    && ServersApart(safe, Mcp, x.mcp) && ServersApart(safe, Api, x.api)
  }

  lemma ApartAgree(safe: Safe, kind: Kind, servers: seq<Server>)
    requires ServersApart(safe, kind, servers)
    ensures ServersAgree(servers, ToolWrite(safe, kind))
  {}

  lemma NamesApartNoClash(safe: Safe, x: Inputs)
    requires NamesApart(safe, x)
    ensures NoClash(safe, x) && MembersApart(safe, x)
  {
    forall f, r | f in x.functions && r in RuntimeWrites(safe, x) ensures r.path.stem != safe(f.service) {
      RuntimeInTop(safe, x, r);
      assert Alnum(safe(f.service)[0]);
    }
    forall f, g | f in x.functions && g in x.functions && CodePath(safe)(f) == CodePath(safe)(g) ensures f == g {
      CodeStemsApart(safe(f.service), safe(f.name), safe(g.service), safe(g.name));
    }
    ApartAgree(safe, Mcp, x.mcp);
    ApartAgree(safe, Api, x.api);
  }

  /** REST servers with distinct accepted names and distinct imported operations always keep apart. */
  lemma ImportedServersApart(lower: Lower, servers: seq<Server>)
    requires LowerFixesPlain(lower)
    requires forall s <- servers :: PlainServer(s.name) && Alnum(s.name[0]) && Imported(s.tools)
    requires forall s <- servers, t <- servers :: s.name == t.name ==> s == t
    ensures ServersApart(SanitizeWith(lower), Api, servers)
  {
    var safe := SanitizeWith(lower);
    forall s | s in servers ensures safe(s.name) != "__init__" {
      assert lower(s.name) == s.name;
      assert safe(s.name)[0] == s.name[0];
    }
    forall s, t | s in servers && t in servers && safe(s.name) == safe(t.name) ensures s == t {
      SanitizeInjective(lower, s.name, t.name);
    }
    forall s, m | s in servers && m in s.tools ensures safe(m.name) == m.name {
      SlugShapedFixed(lower, m.name);
    }
  }

  /** Operations as an import gives them: slug-shaped handles, no two alike. */
  ghost predicate Imported(tools: seq<Tool>) {
    (forall m <- tools :: SlugShaped(m.name)) && forall m <- tools, n <- tools :: m.name == n.name ==> m == n
  }

  lemma ImportedWrappersApart(lower: Lower, s: string, p: string, t: string, q: string)
    requires LowerFixesPlain(lower) && PlainServer(s) && PlainServer(t) && SlugShaped(p) && SlugShaped(q)
    ensures ToolName(SanitizeWith(lower), Api, s, p) == ToolName(SanitizeWith(lower), Api, t, q) <==> s == t && p == q
  {
    WrapperNamesDistinct(lower, s, p, t, q);
    assert ToolName(SanitizeWith(lower), Api, s, p) == WrapperName(lower, s, p);
    assert ToolName(SanitizeWith(lower), Api, t, q) == WrapperName(lower, t, q);
  }

  // ----- what a name stands for in a module: its last `def`

  function Bound(defs: seq<Def>, name: string): (r: Option<Def>)
    ensures r.Some? ==> r.value in defs && r.value.name == name
    ensures r.None? ==> forall d <- defs :: d.name != name
  {
    if defs == [] then None
    else if defs[|defs| - 1].name == name then Some(defs[|defs| - 1])
    else
      assert defs == defs[..|defs| - 1] + [defs[|defs| - 1]];
      Bound(defs[..|defs| - 1], name)
  }

  ghost predicate Binds(files: Files, p: Path, d: Def) {
    p in files && files[p].Module? && Bound(files[p].defs, d.name) == Some(d)
  }

  /** Every member's name stands for its own wrapper. */
  ghost predicate OwnNames<T>(xs: seq<T>, def: T -> Def) {
    forall x <- xs :: Bound(Map(xs, def), def(x).name) == Some(def(x))
  }

  /** Members whose wrappers share a name share the wrapper. */
  ghost predicate SharedByName<T>(xs: seq<T>, def: T -> Def) {
    forall x <- xs, y <- xs :: def(x).name == def(y).name ==> def(x) == def(y)
  }

  lemma BoundMember<T>(xs: seq<T>, def: T -> Def, x: T) returns (y: T)
    requires x in xs
    ensures y in xs && Bound(Map(xs, def), def(x).name) == Some(def(y)) && def(y).name == def(x).name
  {
    InMap(xs, def, def(x));
    var d := Bound(Map(xs, def), def(x).name).value;
    InMap(xs, def, d);
    y :| y in xs && d == def(y);
  }

  lemma BoundExactly<T>(xs: seq<T>, def: T -> Def)
    ensures OwnNames(xs, def) <==> SharedByName(xs, def)
  {
    if OwnNames(xs, def) {
      forall x, y | x in xs && y in xs && def(x).name == def(y).name ensures def(x) == def(y) {
        assert Bound(Map(xs, def), def(x).name) == Some(def(x));
        assert Bound(Map(xs, def), def(y).name) == Some(def(y));
      }
    }
    if SharedByName(xs, def) {
      forall x | x in xs ensures Bound(Map(xs, def), def(x).name) == Some(def(x)) {
        var y := BoundMember(xs, def, x);
      }
    }
  }

  // ----- what an intact package gives

  /** The bridge or code file a wrapper reaches for is there, and is the right one. */
  ghost predicate Reaches(files: Files, d: Def) {
    match d.body
    case RunsCode(p) => p in files && files[p].Code?
    case CallsTs(_) => Survives(files, Write(Top("_ts_bridge"), TsBridge))
    case CallsTool(kind, _, _) => Survives(files, Write(Top(kind.BridgeStem()), Bridge(kind)))
  }

  /** The wrapper runs that function: its own code, or the TypeScript bridge with its qualified name. */
  ghost predicate RunsFunction(files: Files, d: Def, f: Func) {
    && d.tracks == f.service + "." + f.name
    && if f.typescript then d.body == CallsTs(f.service + "." + f.name)
       else d.body.RunsCode? && d.body.path in files && files[d.body.path] == Code(f.code)
  }

  /** The wrapper calls that tool of that server. */
  ghost predicate RunsTool(d: Def, kind: Kind, s: Server, t: Tool) {
    && d.tracks == (if kind.Mcp? then "mcp:" else "api:") + s.name + "." + t.name
    && d.body.CallsTool? && d.body.kind == kind && d.body.server == s.name && d.body.tool == t.name
  }

  /** In its service's module a function's name stands for its own wrapper, what the wrapper reaches
      for is there, for a Python function with that function's code, and the package imports the name. */
  ghost predicate FunctionLinked(safe: Safe, x: Inputs, files: Files, f: Func) {
    && Binds(files, Top(safe(f.service)), Wrapper(safe)(f)) && Reaches(files, Wrapper(safe)(f))
    && RunsFunction(files, Wrapper(safe)(f), f)
    && Import(Top(safe(f.service)), safe(f.name)) in Imports(safe, x)
  }

  ghost predicate ToolLinked(safe: Safe, files: Files, kind: Kind, s: Server, t: Tool) {
    && Binds(files, ToolDir(kind, safe(s.name)), ToolDef(safe, kind, s.name)(t))
    && Reaches(files, ToolDef(safe, kind, s.name)(t)) && RunsTool(ToolDef(safe, kind, s.name)(t), kind, s, t)
  }

  lemma Survivor(safe: Safe, x: Inputs, files: Files, w: Write)
    requires Intact(files, Writes(safe, x)) && Origin(safe, x, w)
    ensures Survives(files, w)
  {
    InWrites(safe, x, w);
  }

  /** All of being linked but the name. */
  lemma FunctionReaches(safe: Safe, x: Inputs, files: Files, s: Service, f: Func)
    requires Intact(files, Writes(safe, x)) && s in Services(x.functions) && f in s.funcs
    ensures Survives(files, ModuleWrite(safe)(s))
    ensures Reaches(files, Wrapper(safe)(f)) && RunsFunction(files, Wrapper(safe)(f), f)
    ensures Import(Top(safe(s.name)), safe(f.name)) in Imports(safe, x)
  {
    ServiceOfMember(x, s, f);
    Survivor(safe, x, files, ModuleWrite(safe)(s));
    if IsPython(f) {
      ServicePaths(safe, x, CodeWrite(safe)(f));
      Survivor(safe, x, files, CodeWrite(safe)(f));
    } else {
      assert HasTs(x.functions);
      Survivor(safe, x, files, Write(Top("_ts_bridge"), TsBridge));
    }
    ServiceImportIsThere(safe, x, s, f);
  }

  lemma ServiceImportIsThere(safe: Safe, x: Inputs, s: Service, f: Func)
    requires s in Services(x.functions) && f in s.funcs
    ensures Import(Top(safe(s.name)), safe(f.name)) in Imports(safe, x)
  {
    var i, services := Import(Top(safe(s.name)), safe(f.name)), SortServices(Services(x.functions));
    SortLaws(Services(x.functions));
    InMap(s.funcs, (g: Func) => Import(Top(safe(s.name)), safe(g.name)), i);
    InMap(services, ServiceImports(safe), ServiceImports(safe)(s));
    assert i in ServiceImports(safe)(s);
    InConcat(Map(services, ServiceImports(safe)), i);
  }

  lemma WrappersAgree(safe: Safe, f: Func, g: Func)
    requires f.service == g.service && safe(f.name) == safe(g.name)
    ensures Wrapper(safe)(f) == Wrapper(safe)(g) <==> SameFunction(safe, f, g)
  {
    var q, r := f.service + "." + f.name, g.service + "." + g.name;
    assert q[|f.service| + 1..] == f.name && r[|f.service| + 1..] == g.name;
    assert CodePath(safe)(f) == CodePath(safe)(g);
  }

  lemma FunctionsByName(safe: Safe, funcs: seq<Func>, service: string)
    requires forall f <- funcs :: f.service == service
    ensures SharedByName(funcs, Wrapper(safe)) <==> FunctionsApart(safe, funcs)
  {
    forall f, g | f in funcs && g in funcs && safe(f.name) == safe(g.name)
      ensures Wrapper(safe)(f) == Wrapper(safe)(g) <==> SameFunction(safe, f, g)
    {
      WrappersAgree(safe, f, g);
    }
  }

  lemma ServiceLinksExactly(safe: Safe, x: Inputs, files: Files, s: Service)
    requires Intact(files, Writes(safe, x)) && s in Services(x.functions)
    ensures (forall f <- s.funcs :: FunctionLinked(safe, x, files, f)) <==> FunctionsApart(safe, s.funcs)
  {
    BoundExactly(s.funcs, Wrapper(safe));
    forall f | f in s.funcs
      ensures f.service == s.name
      ensures FunctionLinked(safe, x, files, f)
         <==> Bound(Map(s.funcs, Wrapper(safe)), Wrapper(safe)(f).name) == Some(Wrapper(safe)(f))
    {
      ServiceOfMember(x, s, f);
      FunctionReaches(safe, x, files, s, f);
    }
    FunctionsByName(safe, s.funcs, s.name);
  }

  /** In an intact package every function is linked exactly when no two different functions of one
      service sanitise alike. */
  lemma FunctionsLinkExactly(safe: Safe, x: Inputs, files: Files)
    requires Intact(files, Writes(safe, x))
    ensures (forall f <- x.functions :: FunctionLinked(safe, x, files, f)) <==> FunctionsApart(safe, x.functions)
  {
    forall s | s in Services(x.functions)
      ensures (forall f <- s.funcs :: FunctionLinked(safe, x, files, f)) <==> FunctionsApart(safe, s.funcs)
      ensures forall f <- s.funcs :: f in x.functions
    {
      ServiceLinksExactly(safe, x, files, s);
      forall f | f in s.funcs ensures f in x.functions { ServiceOfMember(x, s, f); }
    }
    if forall f <- x.functions :: FunctionLinked(safe, x, files, f) {
      forall f, g | f in x.functions && g in x.functions && f.service == g.service && safe(f.name) == safe(g.name)
        ensures SameFunction(safe, f, g)
      {
        var s := ServiceOf(x, f);
        var t := ServiceOf(x, g);
        OneService(x, s, t);
        assert FunctionsApart(safe, s.funcs);
      }
    }
    if FunctionsApart(safe, x.functions) {
      forall f | f in x.functions ensures FunctionLinked(safe, x, files, f) {
        var s := ServiceOf(x, f);
        assert FunctionsApart(safe, s.funcs);
      }
    }
  }

  /** Tools share a wrapper's name exactly when they sanitise alike, and the wrapper when they agree. */
  lemma ToolsByName(safe: Safe, kind: Kind, s: Server)
    ensures SharedByName(s.tools, ToolDef(safe, kind, s.name)) <==> ToolsOfApart(safe, kind, s)
  {
    var def := ToolDef(safe, kind, s.name);
    forall m, n | m in s.tools && n in s.tools ensures def(m).name == def(n).name <==> safe(m.name) == safe(n.name) {
      SameAfter(kind.Prefix() + safe(s.name) + "__", safe(m.name), safe(n.name));
    }
    forall m, n | m in s.tools && n in s.tools ensures def(m) == def(n) <==> SameTool(safe, kind, m, n) {
      assert def(m).body == CallsTool(kind, s.name, m.name) && def(n).body == CallsTool(kind, s.name, n.name);
    }
  }

  lemma ModuleBinds<T>(files: Files, p: Path, title: string, xs: seq<T>, def: T -> Def)
    requires p in files && files[p] == Module(title, Map(xs, def))
    ensures (forall x <- xs :: Binds(files, p, def(x))) <==> OwnNames(xs, def)
  {
    forall x | x in xs ensures Binds(files, p, def(x)) <==> Bound(Map(xs, def), def(x).name) == Some(def(x)) {}
  }

  lemma ToolsSurvive(safe: Safe, x: Inputs, files: Files, kind: Kind, s: Server)
    requires Intact(files, Writes(safe, x)) && s in x.Servers(kind)
    ensures Survives(files, ToolWrite(safe, kind)(s)) && Survives(files, Write(Top(kind.BridgeStem()), Bridge(kind)))
  {
    Survivor(safe, x, files, ToolWrite(safe, kind)(s));
    Survivor(safe, x, files, Write(Top(kind.BridgeStem()), Bridge(kind)));
  }

  lemma ToolsBind(safe: Safe, files: Files, kind: Kind, s: Server)
    requires Survives(files, ToolWrite(safe, kind)(s)) && Survives(files, Write(Top(kind.BridgeStem()), Bridge(kind)))
    ensures (forall t <- s.tools :: ToolLinked(safe, files, kind, s, t))
       <==> OwnNames(s.tools, ToolDef(safe, kind, s.name))
  {
    var p, def := ToolDir(kind, safe(s.name)), ToolDef(safe, kind, s.name);
    ModuleBinds(files, p, s.name, s.tools, def);
    forall t | t in s.tools ensures ToolLinked(safe, files, kind, s, t) <==> Binds(files, p, def(t)) {
      assert def(t).body == CallsTool(kind, s.name, t.name);
    }
  }

  /** Every tool of a remote server, or operation of a REST server, is linked exactly when no two
      different ones sanitise alike. */
  lemma ToolsLinkExactly(safe: Safe, x: Inputs, files: Files, kind: Kind, s: Server)
    requires Intact(files, Writes(safe, x)) && s in x.Servers(kind)
    ensures (forall t <- s.tools :: ToolLinked(safe, files, kind, s, t)) <==> ToolsOfApart(safe, kind, s)
  {
    ToolsSurvive(safe, x, files, kind, s);
    ToolsBind(safe, files, kind, s);
    BoundExactly(s.tools, ToolDef(safe, kind, s.name));
    ToolsByName(safe, kind, s);
  }

  lemma SameAfter(a: string, p: string, q: string)
    ensures a + p == a + q <==> p == q
  {
    assert (a + p)[|a|..] == p && (a + q)[|a|..] == q;
  }

  /** With names apart nothing else in a service's module goes by a function's name. */
  lemma WrapperIsUnique(safe: Safe, x: Inputs, files: Files, f: Func, d: Def)
    requires NamesApart(safe, x) && Intact(files, Writes(safe, x)) && f in x.functions
    requires Top(safe(f.service)) in files && files[Top(safe(f.service))].Module?
    requires d in files[Top(safe(f.service))].defs && d.name == safe(f.name)
    ensures d == Wrapper(safe)(f)
  {
    var s := ServiceOf(x, f);
    FunctionReaches(safe, x, files, s, f);
    InMap(s.funcs, Wrapper(safe), d);
    var g :| g in s.funcs && d == Wrapper(safe)(g);
    ServiceOfMember(x, s, g);
  }

  ghost predicate ServersLinked(safe: Safe, files: Files, kind: Kind, servers: seq<Server>) {
    forall s <- servers :: forall t <- s.tools :: ToolLinked(safe, files, kind, s, t)
  }

  lemma ServersLinkExactly(safe: Safe, x: Inputs, files: Files, kind: Kind)
    requires Intact(files, Writes(safe, x))
    ensures ServersLinked(safe, files, kind, x.Servers(kind)) <==> ToolsApart(safe, kind, x.Servers(kind))
  {
    forall s | s in x.Servers(kind)
      ensures (forall t <- s.tools :: ToolLinked(safe, files, kind, s, t)) <==> ToolsOfApart(safe, kind, s)
    {
      ToolsLinkExactly(safe, x, files, kind, s);
    }
  }

  /** Every function, tool and operation is linked, and the runtime files are in place. */
  ghost predicate Linked(safe: Safe, x: Inputs, files: Files) {
    && (forall f <- x.functions :: FunctionLinked(safe, x, files, f))
    && ServersLinked(safe, files, Mcp, x.mcp) && ServersLinked(safe, files, Api, x.api)
    && (forall r <- RuntimeWrites(safe, x) :: Survives(files, r))
  }

  lemma LinkedExactly(safe: Safe, x: Inputs, files: Files)
    requires Intact(files, Writes(safe, x))
    ensures Linked(safe, x, files) <==> MembersApart(safe, x)
  {
    FunctionsLinkExactly(safe, x, files);
    ServersLinkExactly(safe, x, files, Mcp);
    ServersLinkExactly(safe, x, files, Api);
    forall r | r in RuntimeWrites(safe, x) ensures Survives(files, r) {
      RuntimeInTop(safe, x, r);
      Survivor(safe, x, files, r);
    }
  }

  /** The generated package is intact and links exactly when files do not clash and members do not
      sanitise alike: two conditions on the inputs. */
  lemma PackageLinks(safe: Safe, x: Inputs)
    ensures var files := Overlay(map[], Writes(safe, x));
            Intact(files, Writes(safe, x)) && Linked(safe, x, files) <==> NoClash(safe, x) && MembersApart(safe, x)
  {
    IntactExactly(safe, x);
    if NoClash(safe, x) { LinkedExactly(safe, x, Overlay(map[], Writes(safe, x))); }
  }

  /** Two functions that sanitise alike: every file is as generated, yet one of them is not linked. */
  lemma AlikeFunctionsShadow(safe: Safe, f: Func, g: Func)
    requires f.service == g.service && safe(f.name) == safe(g.name) && f.name != g.name
    requires ModuleStem(safe(f.service)) && (f.typescript || g.typescript || f.code == g.code)
    ensures var x := Inputs([f, g], [], []);
            var files := Overlay(map[], Writes(safe, x));
            && Intact(files, Writes(safe, x))
            && !(FunctionLinked(safe, x, files, f) && FunctionLinked(safe, x, files, g))
  {
    var x := Inputs([f, g], [], []);
    PairDoesNotClash(safe, x, f, g);
    IntactExactly(safe, x);
    PairUnlinked(safe, x, Overlay(map[], Writes(safe, x)), f, g);
  }

  lemma PairDoesNotClash(safe: Safe, x: Inputs, f: Func, g: Func)
    requires x == Inputs([f, g], [], []) && f.service == g.service && ModuleStem(safe(f.service))
    requires f.typescript || g.typescript || f.code == g.code
    ensures NoClash(safe, x)
  {
    assert forall h <- x.functions :: h == f || h == g;
    forall r | r in RuntimeWrites(safe, x) ensures r.path.stem != safe(f.service) {
      RuntimeInTop(safe, x, r);
      assert Alnum(safe(f.service)[0]);
    }
    assert ServersAgree(x.mcp, ToolWrite(safe, Mcp)) && ServersAgree(x.api, ToolWrite(safe, Api));
  }

  lemma PairUnlinked(safe: Safe, x: Inputs, files: Files, f: Func, g: Func)
    requires x.functions == [f, g] && Intact(files, Writes(safe, x))
    requires f.service == g.service && safe(f.name) == safe(g.name) && f.name != g.name
    ensures !(FunctionLinked(safe, x, files, f) && FunctionLinked(safe, x, files, g))
  {
    PairNotApart(safe, f, g);
    FunctionsLinkExactly(safe, x, files);
    var h :| h in x.functions && !FunctionLinked(safe, x, files, h);
    assert h == f || h == g;
  }

  lemma PairNotApart(safe: Safe, f: Func, g: Func)
    requires f.service == g.service && safe(f.name) == safe(g.name) && f.name != g.name
    ensures !FunctionsApart(safe, [f, g])
  {
    assert f in [f, g] && g in [f, g] && !SameFunction(safe, f, g);
  }
}
