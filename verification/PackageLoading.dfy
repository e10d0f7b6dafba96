/** What happens when sandbox code imports the generated package: `__init__` runs its imports one after
    the other, and each may overwrite what an earlier one has put under the same name. */
module PackageLoading {
  import opened Json
  import opened Slugs
  import opened Seqs
  import opened Signatures
  import opened CodePackage
  import opened PackageNames
  import opened PackageLinking

  // ----- the interpreter

  /** What Python makes of generated text: which words it does not let one bind, what a text put
      between double quotes reads as (nothing when that does not compile), which texts can stand in a
      docstring, and which catalogues can stand in that of `__init__`. */
  datatype Python = Python(reserved: set<string>, literal: string -> Option<string>, docstring: string -> bool,
                           catalog: seq<File> -> bool)

  /** The texts a wrapper puts between double quotes as they are. */
  function Literals(d: Def): (r: seq<string>) {
    if d.body.CallsTool? then [d.tracks, d.body.server, d.body.tool] else [d.tracks]
  }

  /** Between double quotes the text stands for itself. */
  predicate Reads(py: Python, s: string) { py.literal(s) == Some(s) }

  /** A `def` compiles: its name, its parameters, its docstring and its literals do. */
  predicate DefCompiles(py: Python, d: Def) {
    && Identifier(py.reserved, d.name) && Compiles(py.reserved, d.params) && py.docstring(d.doc)
    && forall s <- Literals(d) :: py.literal(s).Some?
  }

  predicate ModuleCompiles(py: Python, f: File) {
    f.Module? && py.docstring(f.title) && forall d <- f.defs :: DefCompiles(py, d)
  }

  predicate ImportCompiles(py: Python, i: Import) {
    Identifier(py.reserved, i.from.stem) && Identifier(py.reserved, i.name)
  }

  predicate InitCompiles(py: Python, f: File) {
    f.Init? && py.catalog(f.catalog) && forall i <- f.imports :: ImportCompiles(py, i)
  }

  // ----- running the imports

  /** What a name of the package can stand for: a wrapper defined in some module, or a submodule. */
  datatype Object = TheWrapper(from: Path, def: Def) | TheModule(name: string)

  datatype Package = Package(names: map<string, Object>, loaded: set<string>)

  /** The child of the package that has to be loaded for an import from `p`. */
  function Child(p: Path): (r: string) {
    match p
    case Top(s) => s
    case CodeDir(_) => "_code"
    case ToolDir(kind, _) => kind.Dir()
  }

  /** Which file an import from `p` reads: a directory with an `__init__` hides a module of its name. */
  function Resolve(files: Files, p: Path): (r: Path) {
    if p == Top(Mcp.Dir()) && ToolDir(Mcp, "__init__") in files then ToolDir(Mcp, "__init__")
    else if p == Top(Api.Dir()) && ToolDir(Api, "__init__") in files then ToolDir(Api, "__init__")
    else p
  }

  /** What an import finds; nothing when the module does not compile or has no such wrapper. */
  function Found(py: Python, files: Files, i: Import): (r: Option<Object>) {
    var p := Resolve(files, i.from);
    if p !in files || !ModuleCompiles(py, files[p]) then None
    else
      var d := Bound(files[p].defs, i.name);
      if d.None? then None else Some(TheWrapper(p, d.value))
  }

  /** One import: loading a child for the first time also puts it under its own name, and then the
      imported name is set. */
  function Bind(pkg: Package, i: Import, found: Object): (r: Package) {
    var child := Child(i.from);
    var names := if child in pkg.loaded then pkg.names else pkg.names[child := TheModule(child)];
    Package(names[i.name := found], pkg.loaded + {child})
  }

  /** What each import finds. */
  type Finder = Import -> Option<Object>

  function Finds(py: Python, files: Files): (r: Finder) { (i: Import) => Found(py, files, i) }

  function Exec(find: Finder, imports: seq<Import>): (r: Option<Package>) {
    if imports == [] then Some(Package(map[], {}))
    else
      var pkg := Exec(find, imports[..|imports| - 1]);
      var i := imports[|imports| - 1];
      if pkg.None? || find(i).None? then None else Some(Bind(pkg.value, i, find(i).value))
  }

  /** The package as imported; nothing when `__init__` does not compile or an import fails. */
  function Load(py: Python, files: Files): (r: Option<Package>) {
    if Top("__init__") in files && InitCompiles(py, files[Top("__init__")])
    then Exec(Finds(py, files), files[Top("__init__")].imports)
    else None
  }

  // ----- what the run leaves under a name

  lemma ExecNext(find: Finder, imports: seq<Import>, k: nat)
    requires k < |imports| && Exec(find, imports[..k + 1]).Some?
    ensures Exec(find, imports[..k]).Some? && find(imports[k]).Some?
    ensures Exec(find, imports[..k + 1]).value
         == Bind(Exec(find, imports[..k]).value, imports[k], find(imports[k]).value)
  {
    assert imports[..k + 1][..k] == imports[..k];
  }

  /** What one import does to the name `n`. */
  lemma BindName(pkg: Package, i: Import, found: Object, n: string)
    ensures var names := Bind(pkg, i, found).names;
            && (i.name == n ==> n in names && names[n] == found)
            && (i.name != n && Child(i.from) == n && n !in pkg.loaded ==> n in names && names[n] == TheModule(n))
            && (i.name != n && (Child(i.from) != n || n in pkg.loaded) && n in pkg.names ==>
                  n in names && names[n] == pkg.names[n])
    ensures n in Bind(pkg, i, found).loaded <==> n in pkg.loaded || Child(i.from) == n
  {}

  /** The imports run through exactly when each of them finds its wrapper. */
  lemma {:induction false} ExecExactly(find: Finder, imports: seq<Import>)
    ensures Exec(find, imports).Some? <==> forall i <- imports :: find(i).Some?
  {
    if imports != [] {
      ExecExactly(find, imports[..|imports| - 1]);
      assert imports == imports[..|imports| - 1] + [imports[|imports| - 1]];
    }
  }

  lemma {:induction false} Loaded(find: Finder, imports: seq<Import>, k: nat, n: string)
    requires k <= |imports| && Exec(find, imports[..k]).Some?
    ensures n in Exec(find, imports[..k]).value.loaded <==> exists l :: 0 <= l < k && Child(imports[l].from) == n
  {
    if k > 0 {
      ExecNext(find, imports, k - 1);
      BindName(Exec(find, imports[..k - 1]).value, imports[k - 1], find(imports[k - 1]).value, n);
      Loaded(find, imports, k - 1, n);
    }
  }

  /** Import `l` does not put a submodule over the name `n`: it sets the name itself, or loads another
      child, or one that is loaded already. */
  ghost predicate Spares(imports: seq<Import>, l: nat, n: string)
    requires l < |imports|
  {
    imports[l].name == n || Child(imports[l].from) != n || exists e :: 0 <= e < l && Child(imports[e].from) == n
  }

  /** A name keeps what import `j` gave it as long as later imports of it find the same and no later
      import puts a submodule over it. */
  lemma {:induction false} NameStays(find: Finder, imports: seq<Import>, n: string, found: Object, j: nat, k: nat)
    requires j < k <= |imports| && imports[j].name == n && Exec(find, imports[..k]).Some?
    requires forall l :: j <= l < k && imports[l].name == n ==> find(imports[l]) == Some(found)
    requires forall l :: j < l < k ==> Spares(imports, l, n)
    ensures var names := Exec(find, imports[..k]).value.names; n in names && names[n] == found
  {
    ExecNext(find, imports, k - 1);
    BindName(Exec(find, imports[..k - 1]).value, imports[k - 1], find(imports[k - 1]).value, n);
    if k - 1 > j {
      NameStays(find, imports, n, found, j, k - 1);
      Loaded(find, imports, k - 1, n);
      assert Spares(imports, k - 1, n);
    }
  }

  /** A submodule stays under its name when no import sets that name from its loading on. */
  lemma {:induction false} ModuleStays(find: Finder, imports: seq<Import>, n: string, j: nat, k: nat)
    requires j < k <= |imports| && Child(imports[j].from) == n && Exec(find, imports[..k]).Some?
    requires forall l :: 0 <= l < j ==> Child(imports[l].from) != n
    requires forall l :: j <= l < k ==> imports[l].name != n
    ensures var names := Exec(find, imports[..k]).value.names; n in names && names[n] == TheModule(n)
  {
    ExecNext(find, imports, k - 1);
    BindName(Exec(find, imports[..k - 1]).value, imports[k - 1], find(imports[k - 1]).value, n);
    Loaded(find, imports, k - 1, n);
    if k - 1 > j { ModuleStays(find, imports, n, j, k - 1); }
  }

  lemma {:induction false} FirstLoad(imports: seq<Import>, n: string, l: nat) returns (k: nat)
    requires l < |imports| && Child(imports[l].from) == n
    ensures k <= l && Child(imports[k].from) == n && forall e :: 0 <= e < k ==> Child(imports[e].from) != n
  {
    k := l;
    if e :| 0 <= e < l && Child(imports[e].from) == n { k := FirstLoad(imports, n, e); }
  }

  // ----- what the package is to export

  ghost predicate FunctionExport(safe: Safe, x: Inputs, p: Path, d: Def) {
    exists f <- x.functions :: p == Top(safe(f.service)) && d == Wrapper(safe)(f)
  }

  ghost predicate ToolExport(safe: Safe, x: Inputs, kind: Kind, p: Path, d: Def) {
    exists s <- x.Servers(kind) :: ToolExportOf(safe, kind, s, p, d)
  }

  ghost predicate ToolExportOf(safe: Safe, kind: Kind, s: Server, p: Path, d: Def) {
    p == ToolDir(kind, safe(s.name)) && exists t <- s.tools :: d == ToolDef(safe, kind, s.name)(t)
  }

  /** Some function, tool or operation has its wrapper `d` in the module `p`. */
  ghost predicate Exports(safe: Safe, x: Inputs, p: Path, d: Def) {
    FunctionExport(safe, x, p, d) || ToolExport(safe, x, Mcp, p, d) || ToolExport(safe, x, Api, p, d)
  }

  function ImportOf(safe: Safe): (r: Func -> Import) { (f: Func) => Import(Top(safe(f.service)), safe(f.name)) }

  lemma InParts<T>(items: seq<T>, list: T -> seq<Import>, i: Import)
    ensures i in Concat(Map(items, list)) <==> exists t <- items :: i in list(t)
  {
    var parts := Map(items, list);
    InConcat(parts, i);
    if i in Concat(parts) {
      var p :| p in parts && i in p;
      InMap(items, list, p);
    }
    if t :| t in items && i in list(t) {
      InMap(items, list, list(t));
    }
  }

  lemma ImportsOfService(safe: Safe, x: Inputs, s: Service, i: Import)
    requires s in Services(x.functions)
    ensures i in ServiceImports(safe)(s) <==> exists f <- s.funcs :: i == ImportOf(safe)(f)
  {
    var g := (f: Func) => Import(Top(safe(s.name)), safe(f.name));
    InMap(s.funcs, g, i);
    assert ServiceImports(safe)(s) == Map(s.funcs, g);
    forall f | f in s.funcs ensures g(f) == ImportOf(safe)(f) { ServiceOfMember(x, s, f); }
  }

  lemma InServiceImports(safe: Safe, x: Inputs, i: Import)
    ensures i in AllServiceImports(safe, x) <==> exists f <- x.functions :: i == ImportOf(safe)(f)
  {
    var services := SortServices(Services(x.functions));
    SortLaws(Services(x.functions));
    InParts(services, ServiceImports(safe), i);
    if i in AllServiceImports(safe, x) {
      var s :| s in services && i in ServiceImports(safe)(s);
      ImportsOfService(safe, x, s, i);
      var f :| f in s.funcs && i == ImportOf(safe)(f);
      ServiceOfMember(x, s, f);
    }
    if f :| f in x.functions && i == ImportOf(safe)(f) {
      var s := ServiceOf(x, f);
      ImportsOfService(safe, x, s, i);
    }
  }

  lemma ImportsOfServer(safe: Safe, kind: Kind, s: Server, i: Import)
    ensures i in ToolImports(safe, kind)(s) <==> exists d :: ToolExportOf(safe, kind, s, i.from, d) && d.name == i.name
  {
    var f := (t: Tool) => Import(ToolDir(kind, safe(s.name)), ToolName(safe, kind, s.name, t.name));
    InMap(s.tools, f, i);
    assert ToolImports(safe, kind)(s) == Map(s.tools, f);
    if i in ToolImports(safe, kind)(s) {
      var t :| t in s.tools && i == f(t);
      assert ToolExportOf(safe, kind, s, i.from, ToolDef(safe, kind, s.name)(t));
    }
  }

  lemma InToolImports(safe: Safe, x: Inputs, kind: Kind, i: Import)
    ensures i in AllToolImports(safe, x, kind) <==> exists d :: ToolExport(safe, x, kind, i.from, d) && d.name == i.name
  {
    InParts(x.Servers(kind), ToolImports(safe, kind), i);
    if i in AllToolImports(safe, x, kind) {
      var s :| s in x.Servers(kind) && i in ToolImports(safe, kind)(s);
      ImportsOfServer(safe, kind, s, i);
    }
    if d :| ToolExport(safe, x, kind, i.from, d) && d.name == i.name {
      var s :| s in x.Servers(kind) && ToolExportOf(safe, kind, s, i.from, d);
      ImportsOfServer(safe, kind, s, i);
    }
  }

  /** The package imports exactly what it is to export. */
  lemma InImports(safe: Safe, x: Inputs, i: Import)
    ensures i in Imports(safe, x) <==> exists d :: Exports(safe, x, i.from, d) && d.name == i.name
  {
    InServiceImports(safe, x, i);
    InToolImports(safe, x, Mcp, i);
    InToolImports(safe, x, Api, i);
    forall f | f in x.functions && i == ImportOf(safe)(f) ensures FunctionExport(safe, x, i.from, Wrapper(safe)(f)) {}
  }

  lemma ExportImported(safe: Safe, x: Inputs, p: Path, d: Def)
    requires Exports(safe, x, p, d)
    ensures Import(p, d.name) in Imports(safe, x)
  {
    InImports(safe, x, Import(p, d.name));
  }

  lemma FunctionExported(safe: Safe, x: Inputs, f: Func)
    requires f in x.functions
    ensures Exports(safe, x, Top(safe(f.service)), Wrapper(safe)(f)) && Wrapper(safe)(f).name == safe(f.name)
  {
    assert FunctionExport(safe, x, Top(safe(f.service)), Wrapper(safe)(f));
  }

  lemma ToolExported(safe: Safe, x: Inputs, kind: Kind, s: Server, t: Tool)
    requires s in x.Servers(kind) && t in s.tools
    ensures Exports(safe, x, ToolDir(kind, safe(s.name)), ToolDef(safe, kind, s.name)(t))
    ensures ToolExport(safe, x, kind, ToolDir(kind, safe(s.name)), ToolDef(safe, kind, s.name)(t))
  {
    assert ToolExportOf(safe, kind, s, ToolDir(kind, safe(s.name)), ToolDef(safe, kind, s.name)(t));
  }

  // ----- the order of the imports

  lemma {:induction false} ConcatOrder<T>(parts: seq<seq<T>>, j: nat, k: nat) returns (a: nat, b: nat)
    requires j <= k < |Concat(parts)|
    ensures a <= b < |parts| && Concat(parts)[j] in parts[a] && Concat(parts)[k] in parts[b]
  {
    var init, last := parts[..|parts| - 1], parts[|parts| - 1];
    var n := |Concat(init)|;
    if k < n {
      a, b := ConcatOrder(init, j, k);
    } else if j < n {
      a, b := ConcatOrder(init, j, j);
      b := |parts| - 1;
      assert Concat(parts)[k] == last[k - n];
    } else {
      a, b := |parts| - 1, |parts| - 1;
      assert Concat(parts)[j] == last[j - n] && Concat(parts)[k] == last[k - n];
    }
  }

  /** Import `i` may come before import `k`: services come in the order of their names, before remote
      servers, and those before REST servers. */
  ghost predicate Follows(safe: Safe, x: Inputs, i: Import, k: Import) {
    match k.from
    case Top(_) => exists f <- x.functions, g <- x.functions ::
                     i == ImportOf(safe)(f) && k == ImportOf(safe)(g) && !Before(g.service, f.service)
    case CodeDir(_) => false
    case ToolDir(kind, _) => i.from.Top? || (i.from.ToolDir? && (i.from.kind == kind || i.from.kind.Mcp?))
  }

  lemma ServicePair(safe: Safe, x: Inputs, s: Service, t: Service, i: Import, k: Import)
    requires s in Services(x.functions) && t in Services(x.functions) && !Before(t.name, s.name)
    requires i in ServiceImports(safe)(s) && k in ServiceImports(safe)(t)
    ensures Follows(safe, x, i, k)
  {
    ImportsOfService(safe, x, s, i);
    ImportsOfService(safe, x, t, k);
    var f :| f in s.funcs && i == ImportOf(safe)(f);
    var g :| g in t.funcs && k == ImportOf(safe)(g);
    ServiceOfMember(x, s, f);
    ServiceOfMember(x, t, g);
  }

  lemma ServicesOrdered(safe: Safe, x: Inputs, services: seq<Service>, list: Service -> seq<Import>, j: nat, k: nat)
    requires list == ServiceImports(safe) && InOrder(services) && forall s <- services :: s in Services(x.functions)
    requires j <= k < |Concat(Map(services, list))|
    ensures Follows(safe, x, Concat(Map(services, list))[j], Concat(Map(services, list))[k])
  {
    var imports := Concat(Map(services, list));
    var a, b := ConcatOrder(Map(services, list), j, k);
    var s, t := services[a], services[b];
    assert s in services && t in services;
    assert !Before(t.name, s.name) by { BeforeTotal(s.name, s.name); }
    ServicePair(safe, x, s, t, imports[j], imports[k]);
  }

  lemma PartOf(safe: Safe, x: Inputs, i: Import)
    ensures i in AllServiceImports(safe, x) ==> i.from.Top?
    ensures forall kind :: i in AllToolImports(safe, x, kind) ==> i.from.ToolDir? && i.from.kind == kind
  {
    InServiceImports(safe, x, i);
    forall kind | i in AllToolImports(safe, x, kind) ensures i.from.ToolDir? && i.from.kind == kind {
      InToolImports(safe, x, kind, i);
    }
  }

  lemma ImportsOrdered(safe: Safe, x: Inputs, j: nat, k: nat)
    requires j <= k < |Imports(safe, x)|
    ensures Follows(safe, x, Imports(safe, x)[j], Imports(safe, x)[k])
  {
    var a, b, c := AllServiceImports(safe, x), AllToolImports(safe, x, Mcp), AllToolImports(safe, x, Api);
    ThreeParts(a, b, c, j);
    ThreeParts(a, b, c, k);
    PartOf(safe, x, Imports(safe, x)[j]);
    PartOf(safe, x, Imports(safe, x)[k]);
    SortLaws(Services(x.functions));
    if k < |a| { ServicesOrdered(safe, x, SortServices(Services(x.functions)), ServiceImports(safe), j, k); }
  }

  lemma ThreeParts<T>(a: seq<T>, b: seq<T>, c: seq<T>, k: nat)
    requires k < |a + b + c|
    ensures k < |a| ==> (a + b + c)[k] == a[k]
    ensures |a| <= k < |a| + |b| ==> (a + b + c)[k] in b
    ensures |a| + |b| <= k ==> (a + b + c)[k] in c
  {}

  // ----- when every name of the package stands for its own wrapper

  /** The import runs through, and every function, tool and operation is there under its name, with its
      literals standing for themselves. */
  ghost predicate Works(py: Python, safe: Safe, x: Inputs, files: Files) {
    && Load(py, files).Some?
    && forall p, d :: Exports(safe, x, p, d) ==> HasName(Load(py, files).value, p, d) && ReadsAll(py, d)
  }

  ghost predicate HasName(pkg: Package, p: Path, d: Def) {
    d.name in pkg.names && pkg.names[d.name] == TheWrapper(p, d)
  }

  predicate ReadsAll(py: Python, d: Def) { forall s <- Literals(d) :: Reads(py, s) }

  /** The properties give a signature that compiles. */
  ghost predicate SchemaCompiles(safe: Safe, schema: Option<Schema>, ok: string -> bool) {
    schema.Some? ==>
      && (forall p <- schema.value.properties :: ok(safe(p.name)))
      && Distinct(Map(schema.value.properties, NameOf(safe)))
  }

  /** What a function needs in order to compile: names in place of those of its service, itself and its
      properties, no two properties alike, and texts that can stand in a docstring or a literal. */
  ghost predicate FuncCompiles(py: Python, safe: Safe, f: Func, ok: string -> bool) {
    && ok(safe(f.service)) && ok(safe(f.name)) && SchemaCompiles(safe, f.schema, ok)
    && py.docstring(f.service) && py.docstring(f.doc) && Reads(py, f.service + "." + f.name)
  }

  /** The same for a tool or an operation; operations have fixed parameters. */
  ghost predicate ToolCompiles(py: Python, safe: Safe, kind: Kind, s: Server, t: Tool, ok: string -> bool) {
    && ok(safe(s.name)) && ok(ToolName(safe, kind, s.name, t.name))
    && (kind.Mcp? ==> SchemaCompiles(safe, t.schema, ok)) && (kind.Api? ==> Compiles(py.reserved, ApiParams()))
    && py.docstring(s.name) && py.docstring(t.doc)
    && Reads(py, kind.Label() + s.name + "." + t.name) && Reads(py, s.name) && Reads(py, t.name)
  }

  function Names(py: Python): (r: string -> bool) { (n: string) => Identifier(py.reserved, n) }

  ghost predicate ToolsCompile(py: Python, safe: Safe, x: Inputs, kind: Kind, ok: string -> bool) {
    forall s <- x.Servers(kind) :: forall t <- s.tools :: ToolCompiles(py, safe, kind, s, t, ok)
  }

  /** Everything the inputs put into the package compiles. */
  ghost predicate AllCompile(py: Python, safe: Safe, x: Inputs, ok: string -> bool) {
    && (forall f <- x.functions :: FuncCompiles(py, safe, f, ok))
    && ToolsCompile(py, safe, x, Mcp, ok) && ToolsCompile(py, safe, x, Api, ok)
    && py.catalog(Catalog(safe, x))
  }

  /** No service's module is hidden by a directory of the package. */
  ghost predicate ServicesVisible(safe: Safe, x: Inputs) { forall f <- x.functions :: Visible(safe, x, f) }

  ghost predicate Visible(safe: Safe, x: Inputs, f: Func) {
    (x.mcp != [] ==> safe(f.service) != Mcp.Dir()) && (x.api != [] ==> safe(f.service) != Api.Dir())
  }

  /** No two different wrappers go by the same name, in the whole package. */
  ghost predicate ExportsApart(safe: Safe, x: Inputs) {
    forall p, d, q, e :: Exports(safe, x, p, d) && Exports(safe, x, q, e) && d.name == e.name ==> p == q && d == e
  }

  predicate HasTools(servers: seq<Server>) { exists s <- servers :: s.tools != [] }

  /** The name is that of a directory with tools in it. */
  ghost predicate IsDirectory(x: Inputs, dir: string) {
    (dir == Mcp.Dir() && HasTools(x.mcp)) || (dir == Api.Dir() && HasTools(x.api))
  }

  /** No submodule that is loaded later goes by a function's name: no service that comes later in the
      alphabet, nor the directories of remote tools and REST operations. */
  ghost predicate NotShadowed(safe: Safe, x: Inputs) {
    && (forall f <- x.functions, g <- x.functions :: safe(g.service) == safe(f.name) ==> !Before(f.service, g.service))
    && (forall f <- x.functions :: !IsDirectory(x, safe(f.name)))
  }

  // ----- when the modules compile

  lemma ParamsCompile(reserved: set<string>, safe: Safe, schema: Option<Schema>)
    ensures Compiles(reserved, Params(safe, schema))
       <==> SchemaCompiles(safe, schema, (n: string) => Identifier(reserved, n))
  {
    if schema.Some? { CompilesExactly(safe, reserved, schema.value); }
  }

  lemma FunctionDefCompiles(py: Python, safe: Safe, f: Func)
    ensures FuncCompiles(py, safe, f, Names(py)) <==>
              && ImportCompiles(py, ImportOf(safe)(f)) && py.docstring(f.service)
              && DefCompiles(py, Wrapper(safe)(f)) && ReadsAll(py, Wrapper(safe)(f))
  {
    ParamsCompile(py.reserved, safe, f.schema);
    assert Literals(Wrapper(safe)(f)) == [f.service + "." + f.name];
    assert SchemaCompiles(safe, f.schema, Names(py))
      <==> SchemaCompiles(safe, f.schema, (n: string) => Identifier(py.reserved, n));
  }

  lemma ToolDefCompiles(py: Python, safe: Safe, kind: Kind, s: Server, t: Tool)
    ensures ToolCompiles(py, safe, kind, s, t, Names(py)) <==>
              var d := ToolDef(safe, kind, s.name)(t);
              && ImportCompiles(py, Import(ToolDir(kind, safe(s.name)), d.name)) && py.docstring(s.name)
              && DefCompiles(py, d) && ReadsAll(py, d)
  {
    ParamsCompile(py.reserved, safe, t.schema);
    var d := ToolDef(safe, kind, s.name)(t);
    assert Literals(d) == [kind.Label() + s.name + "." + t.name, s.name, t.name];
    assert SchemaCompiles(safe, t.schema, Names(py))
      <==> SchemaCompiles(safe, t.schema, (n: string) => Identifier(py.reserved, n));
  }

  // ----- what an import finds

  /** A service's module holds its exports and nothing else. */
  lemma ModuleOfFunction(safe: Safe, x: Inputs, files: Files, f: Func)
    requires Intact(files, Writes(safe, x)) && f in x.functions
    ensures var p := Top(safe(f.service));
            && p in files && files[p].Module? && files[p].title == f.service && Wrapper(safe)(f) in files[p].defs
            && forall e <- files[p].defs :: Exports(safe, x, p, e)
  {
    var p := Top(safe(f.service));
    var s := ServiceOf(x, f);
    FunctionReaches(safe, x, files, s, f);
    InMap(s.funcs, Wrapper(safe), Wrapper(safe)(f));
    forall e | e in files[p].defs ensures Exports(safe, x, p, e) {
      InMap(s.funcs, Wrapper(safe), e);
      var g :| g in s.funcs && e == Wrapper(safe)(g);
      ServiceOfMember(x, s, g);
      FunctionExported(safe, x, g);
    }
  }

  lemma ModuleOfTool(safe: Safe, x: Inputs, files: Files, kind: Kind, s: Server, t: Tool)
    requires Intact(files, Writes(safe, x)) && s in x.Servers(kind) && t in s.tools
    ensures var p, def := ToolDir(kind, safe(s.name)), ToolDef(safe, kind, s.name);
            && p in files && files[p].Module? && files[p].title == s.name && def(t) in files[p].defs
            && forall e <- files[p].defs :: Exports(safe, x, p, e)
  {
    ToolsSurvive(safe, x, files, kind, s);
    var p, def := ToolDir(kind, safe(s.name)), ToolDef(safe, kind, s.name);
    InMap(s.tools, def, def(t));
    forall e | e in files[p].defs ensures Exports(safe, x, p, e) {
      InMap(s.tools, def, e);
      var u :| u in s.tools && e == def(u);
      ToolExported(safe, x, kind, s, u);
    }
  }

  lemma OfTool(safe: Safe, x: Inputs, kind: Kind, p: Path, d: Def) returns (s: Server, t: Tool)
    requires ToolExport(safe, x, kind, p, d)
    ensures s in x.Servers(kind) && t in s.tools
    ensures p == ToolDir(kind, safe(s.name)) && d == ToolDef(safe, kind, s.name)(t)
  {
    s :| s in x.Servers(kind) && ToolExportOf(safe, kind, s, p, d);
    t :| t in s.tools && d == ToolDef(safe, kind, s.name)(t);
  }

  lemma OfFunction(safe: Safe, x: Inputs, p: Path, d: Def) returns (f: Func)
    requires FunctionExport(safe, x, p, d)
    ensures f in x.functions && p == Top(safe(f.service)) && d == Wrapper(safe)(f)
  {
    f :| f in x.functions && p == Top(safe(f.service)) && d == Wrapper(safe)(f);
  }

  /** The module of an export holds exports only, that one among them. */
  lemma ModuleOfExport(safe: Safe, x: Inputs, files: Files, p: Path, d: Def)
    requires Intact(files, Writes(safe, x)) && Exports(safe, x, p, d)
    ensures p in files && files[p].Module? && d in files[p].defs
    ensures forall e <- files[p].defs :: Exports(safe, x, p, e)
  {
    if FunctionExport(safe, x, p, d) {
      var f := OfFunction(safe, x, p, d);
      ModuleOfFunction(safe, x, files, f);
    } else {
      var kind := if ToolExport(safe, x, Mcp, p, d) then Mcp else Api;
      var s, t := OfTool(safe, x, kind, p, d);
      ModuleOfTool(safe, x, files, kind, s, t);
    }
  }

  /** An export whose import, definition and module title compile, with literals that read as meant. */
  ghost predicate ExportCompiles(py: Python, files: Files, p: Path, d: Def) {
    && p in files && files[p].Module? && py.docstring(files[p].title)
    && ImportCompiles(py, Import(p, d.name)) && DefCompiles(py, d) && ReadsAll(py, d)
  }

  ghost predicate ExportsCompile(py: Python, safe: Safe, x: Inputs, files: Files) {
    forall p, d :: Exports(safe, x, p, d) ==> ExportCompiles(py, files, p, d)
  }

  lemma FunctionCompiles(py: Python, safe: Safe, x: Inputs, files: Files, f: Func)
    requires Intact(files, Writes(safe, x)) && f in x.functions
    ensures FuncCompiles(py, safe, f, Names(py)) <==> ExportCompiles(py, files, Top(safe(f.service)), Wrapper(safe)(f))
  {
    ModuleOfFunction(safe, x, files, f);
    FunctionDefCompiles(py, safe, f);
  }

  lemma ToolOfCompiles(py: Python, safe: Safe, x: Inputs, files: Files, kind: Kind, s: Server, t: Tool)
    requires Intact(files, Writes(safe, x)) && s in x.Servers(kind) && t in s.tools
    ensures ToolCompiles(py, safe, kind, s, t, Names(py))
       <==> ExportCompiles(py, files, ToolDir(kind, safe(s.name)), ToolDef(safe, kind, s.name)(t))
  {
    ModuleOfTool(safe, x, files, kind, s, t);
    ToolDefCompiles(py, safe, kind, s, t);
  }

  lemma CompilingInputs(py: Python, safe: Safe, x: Inputs, files: Files)
    requires Intact(files, Writes(safe, x)) && AllCompile(py, safe, x, Names(py))
    ensures ExportsCompile(py, safe, x, files)
  {
    forall p, d | Exports(safe, x, p, d) ensures ExportCompiles(py, files, p, d) {
      if FunctionExport(safe, x, p, d) {
        var f := OfFunction(safe, x, p, d);
        FunctionCompiles(py, safe, x, files, f);
      } else {
        var kind := if ToolExport(safe, x, Mcp, p, d) then Mcp else Api;
        var s, t := OfTool(safe, x, kind, p, d);
        assert ToolsCompile(py, safe, x, kind, Names(py));
        ToolOfCompiles(py, safe, x, files, kind, s, t);
      }
    }
  }

  lemma CompilingExports(py: Python, safe: Safe, x: Inputs, files: Files)
    requires Intact(files, Writes(safe, x)) && ExportsCompile(py, safe, x, files) && py.catalog(Catalog(safe, x))
    ensures AllCompile(py, safe, x, Names(py))
  {
    forall f | f in x.functions ensures FuncCompiles(py, safe, f, Names(py)) {
      FunctionExported(safe, x, f);
      FunctionCompiles(py, safe, x, files, f);
    }
    ToolsOfExports(py, safe, x, files, Mcp);
    ToolsOfExports(py, safe, x, files, Api);
  }

  lemma ToolsOfExports(py: Python, safe: Safe, x: Inputs, files: Files, kind: Kind)
    requires Intact(files, Writes(safe, x)) && ExportsCompile(py, safe, x, files)
    ensures ToolsCompile(py, safe, x, kind, Names(py))
  {
    forall s, t | s in x.Servers(kind) && t in s.tools ensures ToolCompiles(py, safe, kind, s, t, Names(py)) {
      ToolExported(safe, x, kind, s, t);
      ToolOfCompiles(py, safe, x, files, kind, s, t);
    }
  }

  lemma {:induction false} OverlayOrigin(ws: seq<Write>, p: Path)
    requires p in Overlay(map[], ws)
    ensures exists w <- ws :: w.path == p
  {
    var init, w := ws[..|ws| - 1], ws[|ws| - 1];
    assert ws == init + [w];
    if w.path != p { OverlayOrigin(init, p); }
  }

  /** Directories have an `__init__` exactly when there are servers to put there. */
  ghost predicate DirsAsGiven(x: Inputs, files: Files) { DirAsGiven(x, files, Mcp) && DirAsGiven(x, files, Api) }

  ghost predicate DirAsGiven(x: Inputs, files: Files, kind: Kind) {
    var p := ToolDir(kind, "__init__");
    (p in files <==> x.Servers(kind) != []) && (p in files ==> files[p] == Empty)
  }

  lemma DirectoryHasServers(safe: Safe, x: Inputs, kind: Kind)
    requires ToolDir(kind, "__init__") in Overlay(map[], Writes(safe, x))
    ensures x.Servers(kind) != []
  {
    OverlayOrigin(Writes(safe, x), ToolDir(kind, "__init__"));
    var w :| w in Writes(safe, x) && w.path == ToolDir(kind, "__init__");
    InWrites(safe, x, w);
  }

  lemma Directory(safe: Safe, x: Inputs, files: Files, kind: Kind)
    requires files == Overlay(map[], Writes(safe, x)) && Intact(files, Writes(safe, x))
    ensures DirAsGiven(x, files, kind)
  {
    if ToolDir(kind, "__init__") in files { DirectoryHasServers(safe, x, kind); }
    if x.Servers(kind) != [] { Survivor(safe, x, files, Write(ToolDir(kind, "__init__"), Empty)); }
  }

  lemma ResolvesToItself(safe: Safe, x: Inputs, files: Files, p: Path, d: Def)
    requires DirsAsGiven(x, files) && ServicesVisible(safe, x) && Exports(safe, x, p, d)
    ensures Resolve(files, p) == p
  {
    if FunctionExport(safe, x, p, d) {
      var f := OfFunction(safe, x, p, d);
      assert Visible(safe, x, f);
    }
  }

  lemma ExportFound(py: Python, safe: Safe, x: Inputs, files: Files, p: Path, d: Def) returns (e: Def)
    requires Intact(files, Writes(safe, x)) && Exports(safe, x, p, d)
    requires DirsAsGiven(x, files) && ServicesVisible(safe, x) && ExportsCompile(py, safe, x, files)
    ensures Exports(safe, x, p, e) && e.name == d.name
    ensures Found(py, files, Import(p, d.name)) == Some(TheWrapper(p, e))
  {
    ResolvesToItself(safe, x, files, p, d);
    ModuleOfExport(safe, x, files, p, d);
    assert ExportCompiles(py, files, p, d);
    forall c | c in files[p].defs ensures DefCompiles(py, c) { assert ExportCompiles(py, files, p, c); }
    e := Bound(files[p].defs, d.name).value;
  }

  /** A function whose import finds a wrapper is not hidden by a directory. */
  lemma FoundVisible(py: Python, safe: Safe, x: Inputs, files: Files, f: Func)
    requires DirsAsGiven(x, files) && Found(py, files, ImportOf(safe)(f)).Some?
    ensures Visible(safe, x, f)
  {}

  // ----- one direction

  /** An import from a directory has a name of that directory's kind, and there is a server for it. */
  lemma FromDirectory(safe: Safe, x: Inputs, i: Import)
    requires i in Imports(safe, x)
    ensures i.from.Top? ==> exists f <- x.functions :: i == ImportOf(safe)(f)
    ensures i.from.ToolDir? ==> HasTools(x.Servers(i.from.kind)) && i.name != "" && i.name[0] != '_'
    ensures !i.from.CodeDir?
  {
    InImports(safe, x, i);
    var d :| Exports(safe, x, i.from, d) && d.name == i.name;
    if FunctionExport(safe, x, i.from, d) {
      var f := OfFunction(safe, x, i.from, d);
      assert i == ImportOf(safe)(f);
    } else {
      var s, t := OfTool(safe, x, if ToolExport(safe, x, Mcp, i.from, d) then Mcp else Api, i.from, d);
    }
  }

  lemma NothingShadows(safe: Safe, x: Inputs, i: Import, k: Import)
    requires NotShadowed(safe, x) && i in Imports(safe, x) && k in Imports(safe, x) && Follows(safe, x, i, k)
    requires Child(k.from) == i.name
    ensures Child(i.from) == i.name
  {
    if k.from.Top? {
      var f, g :| f in x.functions && g in x.functions && i == ImportOf(safe)(f) && k == ImportOf(safe)(g)
                  && !Before(g.service, f.service);
      BeforeTotal(f.service, g.service);
    } else {
      FromDirectory(safe, x, k);
      FromDirectory(safe, x, i);
    }
  }

  /** The run gives an export its name and nothing takes it away. */
  lemma ExportKeepsName(safe: Safe, x: Inputs, find: Finder, imports: seq<Import>, p: Path, d: Def)
    requires imports == Imports(safe, x) && Exec(find, imports).Some? && Exports(safe, x, p, d)
    requires ExportsApart(safe, x) && NotShadowed(safe, x)
    requires forall q, e :: Exports(safe, x, q, e) && e.name == d.name ==>
               find(Import(q, e.name)) == Some(TheWrapper(p, d))
    ensures HasName(Exec(find, imports).value, p, d)
  {
    var n := d.name;
    ExportImported(safe, x, p, d);
    var j :| 0 <= j < |imports| && imports[j] == Import(p, n);
    forall l | j <= l < |imports| && imports[l].name == n ensures find(imports[l]) == Some(TheWrapper(p, d)) {
      InImports(safe, x, imports[l]);
      var e :| Exports(safe, x, imports[l].from, e) && e.name == n;
      assert imports[l] == Import(imports[l].from, e.name);
    }
    forall l | j < l < |imports| ensures Spares(imports, l, n) {
      ImportsOrdered(safe, x, j, l);
      if Child(imports[l].from) == n { NothingShadows(safe, x, imports[j], imports[l]); }
    }
    assert imports[..|imports|] == imports;
    NameStays(find, imports, n, TheWrapper(p, d), j, |imports|);
  }

  lemma InitSurvives(safe: Safe, x: Inputs, files: Files)
    requires Intact(files, Writes(safe, x))
    ensures Top("__init__") in files && files[Top("__init__")] == Init(Imports(safe, x), Catalog(safe, x))
  {
    Survivor(safe, x, files, InitWrite(safe, x));
  }

  lemma AllFound(py: Python, safe: Safe, x: Inputs, files: Files)
    requires Intact(files, Writes(safe, x)) && DirsAsGiven(x, files)
    requires ServicesVisible(safe, x) && ExportsCompile(py, safe, x, files)
    ensures Exec(Finds(py, files), Imports(safe, x)).Some?
    ensures forall i <- Imports(safe, x) :: ImportCompiles(py, i)
  {
    forall i | i in Imports(safe, x) ensures Finds(py, files)(i).Some? && ImportCompiles(py, i) {
      InImports(safe, x, i);
      var d :| Exports(safe, x, i.from, d) && d.name == i.name;
      var e := ExportFound(py, safe, x, files, i.from, d);
      assert ExportCompiles(py, files, i.from, d) && i == Import(i.from, d.name);
    }
    ExecExactly(Finds(py, files), Imports(safe, x));
  }

  lemma WorksWhen(py: Python, safe: Safe, x: Inputs, files: Files)
    requires Intact(files, Writes(safe, x)) && DirsAsGiven(x, files) && AllCompile(py, safe, x, Names(py))
    requires ServicesVisible(safe, x) && ExportsApart(safe, x) && NotShadowed(safe, x)
    ensures Works(py, safe, x, files)
  {
    InitSurvives(safe, x, files);
    CompilingInputs(py, safe, x, files);
    AllFound(py, safe, x, files);
    forall p, d | Exports(safe, x, p, d) ensures HasName(Load(py, files).value, p, d) && ReadsAll(py, d) {
      assert ExportCompiles(py, files, p, d);
      forall q, e | Exports(safe, x, q, e) && e.name == d.name
        ensures Finds(py, files)(Import(q, e.name)) == Some(TheWrapper(p, d))
      {
        var c := ExportFound(py, safe, x, files, q, e);
      }
      ExportKeepsName(safe, x, Finds(py, files), Imports(safe, x), p, d);
    }
  }

  // ----- the other direction

  lemma WorksApart(py: Python, safe: Safe, x: Inputs, files: Files)
    requires Works(py, safe, x, files)
    ensures ExportsApart(safe, x)
  {
    var pkg := Load(py, files).value;
    forall p, d, q, e | Exports(safe, x, p, d) && Exports(safe, x, q, e) && d.name == e.name ensures p == q && d == e {
      assert HasName(pkg, p, d) && HasName(pkg, q, e);
    }
  }

  lemma WorksVisible(py: Python, safe: Safe, x: Inputs, files: Files)
    requires Intact(files, Writes(safe, x)) && DirsAsGiven(x, files) && Load(py, files).Some?
    ensures ServicesVisible(safe, x) && py.catalog(Catalog(safe, x))
    ensures forall i <- Imports(safe, x) :: ImportCompiles(py, i) && Found(py, files, i).Some?
  {
    InitSurvives(safe, x, files);
    ExecExactly(Finds(py, files), Imports(safe, x));
    forall i | i in Imports(safe, x) ensures Found(py, files, i).Some? { assert Finds(py, files)(i).Some?; }
    forall f | f in x.functions ensures Visible(safe, x, f) {
      FunctionExported(safe, x, f);
      ExportImported(safe, x, Top(safe(f.service)), Wrapper(safe)(f));
      FoundVisible(py, safe, x, files, f);
    }
  }

  lemma WorksCompiles(py: Python, safe: Safe, x: Inputs, files: Files)
    requires Intact(files, Writes(safe, x)) && DirsAsGiven(x, files) && Works(py, safe, x, files)
    ensures AllCompile(py, safe, x, Names(py))
  {
    WorksVisible(py, safe, x, files);
    forall p, d | Exports(safe, x, p, d) ensures ExportCompiles(py, files, p, d) {
      ExportImported(safe, x, p, d);
      ResolvesToItself(safe, x, files, p, d);
      ModuleOfExport(safe, x, files, p, d);
      assert Found(py, files, Import(p, d.name)).Some?;
    }
    CompilingExports(py, safe, x, files);
  }

  /** A function's name that is also a child's, from whose loading on no import sets it: the name then
      stands for the child. */
  lemma ShadowBreaks(safe: Safe, x: Inputs, find: Finder, imports: seq<Import>, f: Func, k: nat)
    requires imports == Imports(safe, x) && Exec(find, imports).Some? && f in x.functions
    requires k < |imports| && Child(imports[k].from) == safe(f.name)
    requires forall e :: 0 <= e < k ==> Child(imports[e].from) != safe(f.name)
    requires forall l :: k <= l < |imports| ==> imports[l].name != safe(f.name)
    ensures !HasName(Exec(find, imports).value, Top(safe(f.service)), Wrapper(safe)(f))
  {
    assert imports[..|imports|] == imports;
    ModuleStays(find, imports, safe(f.name), k, |imports|);
  }

  /** An import of a function's name comes from that function's module. */
  lemma OwnImport(safe: Safe, x: Inputs, f: Func, i: Import)
    requires ExportsApart(safe, x) && f in x.functions && i in Imports(safe, x) && i.name == safe(f.name)
    ensures i.from == Top(safe(f.service))
  {
    InImports(safe, x, i);
    var d :| Exports(safe, x, i.from, d) && d.name == i.name;
    FunctionExported(safe, x, f);
  }

  ghost predicate ServicesDiffer(safe: Safe, functions: seq<Func>) {
    forall f <- functions, g <- functions :: safe(f.service) == safe(g.service) ==> f.service == g.service
  }

  /** Of two services, the one imported first is not the later in the alphabet. */
  lemma FollowsByName(safe: Safe, x: Inputs, i: Import, k: Import, f: Func, g: Func)
    requires Follows(safe, x, i, k) && ServicesDiffer(safe, x.functions) && f in x.functions && g in x.functions
    requires i.from == Top(safe(g.service)) && k.from == Top(safe(f.service))
    ensures !Before(f.service, g.service)
  {
    var f2, g2 :| f2 in x.functions && g2 in x.functions && i == ImportOf(safe)(f2) && k == ImportOf(safe)(g2)
                  && !Before(g2.service, f2.service);
    assert f2.service == g.service && g2.service == f.service;
  }

  /** The first load of a service's module, which is before that of the directories. */
  lemma FirstServiceLoad(safe: Safe, x: Inputs, imports: seq<Import>, g: Func) returns (k: nat)
    requires imports == Imports(safe, x) && g in x.functions
    ensures k < |imports| && imports[k].from == Top(safe(g.service))
    ensures forall e :: 0 <= e < k ==> Child(imports[e].from) != safe(g.service)
  {
    FunctionExported(safe, x, g);
    ExportImported(safe, x, Top(safe(g.service)), Wrapper(safe)(g));
    var i := Import(Top(safe(g.service)), Wrapper(safe)(g).name);
    var kg :| 0 <= kg < |imports| && imports[kg] == i;
    k := FirstLoad(imports, safe(g.service), kg);
    ImportsOrdered(safe, x, k, kg);
  }

  lemma LaterServiceShadows(safe: Safe, x: Inputs, imports: seq<Import>, f: Func, g: Func) returns (k: nat)
    requires imports == Imports(safe, x) && ExportsApart(safe, x) && ServicesDiffer(safe, x.functions)
    requires f in x.functions && g in x.functions && safe(g.service) == safe(f.name) && Before(f.service, g.service)
    ensures k < |imports| && Child(imports[k].from) == safe(f.name)
    ensures forall e :: 0 <= e < k ==> Child(imports[e].from) != safe(f.name)
    ensures forall l :: k <= l < |imports| ==> imports[l].name != safe(f.name)
  {
    k := FirstServiceLoad(safe, x, imports, g);
    forall l | k <= l < |imports| ensures imports[l].name != safe(f.name) {
      ImportsOrdered(safe, x, k, l);
      if imports[l].name == safe(f.name) {
        OwnImport(safe, x, f, imports[l]);
        FollowsByName(safe, x, imports[k], imports[l], f, g);
        assert false;
      }
    }
  }

  lemma NotFromService(safe: Safe, x: Inputs, i: Import, dir: string)
    requires i in Imports(safe, x) && ServicesVisible(safe, x) && IsDirectory(x, dir) && Child(i.from) == dir
    ensures !i.from.Top?
  {
    FromDirectory(safe, x, i);
    forall g | g in x.functions ensures safe(g.service) != dir { assert Visible(safe, x, g); }
  }

  lemma ToolImport(safe: Safe, x: Inputs, kind: Kind) returns (i: Import)
    requires HasTools(x.Servers(kind))
    ensures i in Imports(safe, x) && i.from.ToolDir? && i.from.kind == kind
  {
    var s :| s in x.Servers(kind) && s.tools != [];
    ToolExported(safe, x, kind, s, s.tools[0]);
    var p, d := ToolDir(kind, safe(s.name)), ToolDef(safe, kind, s.name)(s.tools[0]);
    ExportImported(safe, x, p, d);
    i := Import(p, d.name);
  }

  lemma FirstDirectoryLoad(safe: Safe, x: Inputs, imports: seq<Import>, dir: string) returns (k: nat)
    requires imports == Imports(safe, x) && ServicesVisible(safe, x) && IsDirectory(x, dir)
    ensures k < |imports| && Child(imports[k].from) == dir && !imports[k].from.Top?
    ensures forall e :: 0 <= e < k ==> Child(imports[e].from) != dir
  {
    var i := ToolImport(safe, x, if dir == Mcp.Dir() then Mcp else Api);
    var l :| 0 <= l < |imports| && imports[l] == i;
    k := FirstLoad(imports, dir, l);
    NotFromService(safe, x, imports[k], dir);
  }

  /** The directory of remote tools or REST operations, loaded after all services. */
  lemma DirectoryShadows(safe: Safe, x: Inputs, imports: seq<Import>, f: Func) returns (k: nat)
    requires imports == Imports(safe, x) && ExportsApart(safe, x) && ServicesVisible(safe, x) && f in x.functions
    requires IsDirectory(x, safe(f.name))
    ensures k < |imports| && Child(imports[k].from) == safe(f.name)
    ensures forall e :: 0 <= e < k ==> Child(imports[e].from) != safe(f.name)
    ensures forall l :: k <= l < |imports| ==> imports[l].name != safe(f.name)
  {
    k := FirstDirectoryLoad(safe, x, imports, safe(f.name));
    forall l | k <= l < |imports| ensures imports[l].name != safe(f.name) {
      ImportsOrdered(safe, x, k, l);
      if imports[l].name == safe(f.name) {
        OwnImport(safe, x, f, imports[l]);
        assert false;
      }
    }
  }

  lemma WorksNotShadowed(py: Python, safe: Safe, x: Inputs, files: Files)
    requires Intact(files, Writes(safe, x)) && ServicesDiffer(safe, x.functions) && ServicesVisible(safe, x)
    requires ExportsApart(safe, x) && Works(py, safe, x, files)
    ensures NotShadowed(safe, x)
  {
    InitSurvives(safe, x, files);
    var imports, find := Imports(safe, x), Finds(py, files);
    forall f | f in x.functions ensures HasName(Exec(find, imports).value, Top(safe(f.service)), Wrapper(safe)(f)) {
      FunctionExported(safe, x, f);
    }
    forall f, g | f in x.functions && g in x.functions && safe(g.service) == safe(f.name)
      ensures !Before(f.service, g.service)
    {
      if Before(f.service, g.service) {
        var k := LaterServiceShadows(safe, x, imports, f, g);
        ShadowBreaks(safe, x, find, imports, f, k);
        assert false;
      }
    }
    forall f | f in x.functions ensures !IsDirectory(x, safe(f.name)) {
      if IsDirectory(x, safe(f.name)) {
        var k := DirectoryShadows(safe, x, imports, f);
        ShadowBreaks(safe, x, find, imports, f, k);
        assert false;
      }
    }
  }

  /** The generated package is intact, and importing it leaves every function, tool and operation under
      its own name, exactly when: files do not clash; every name, parameter, docstring and literal
      compiles, and literals stand for themselves; no directory hides a service; no two wrappers share a
      name anywhere in the package; and no function shares its name with a submodule that is loaded
      after it. */
  lemma WorksExactly(py: Python, safe: Safe, x: Inputs)
    ensures var files := Overlay(map[], Writes(safe, x));
            && Intact(files, Writes(safe, x)) && Works(py, safe, x, files)
            <==>
            && NoClash(safe, x) && AllCompile(py, safe, x, Names(py)) && ServicesVisible(safe, x)
            && ExportsApart(safe, x) && NotShadowed(safe, x)
  {
    var files := Overlay(map[], Writes(safe, x));
    IntactExactly(safe, x);
    if NoClash(safe, x) {
      Directory(safe, x, files, Mcp);
      Directory(safe, x, files, Api);
      if Works(py, safe, x, files) {
        WorksApart(py, safe, x, files);
        WorksVisible(py, safe, x, files);
        WorksCompiles(py, safe, x, files);
        WorksNotShadowed(py, safe, x, files);
      }
      if && AllCompile(py, safe, x, Names(py)) && ServicesVisible(safe, x)
         && ExportsApart(safe, x) && NotShadowed(safe, x) {
        WorksWhen(py, safe, x, files);
      }
    }
  }

  // ----- what the names of a working package call

  /** Under a function's name there is a wrapper with its parameters that reports and runs that function. */
  lemma FunctionCalls(py: Python, safe: Safe, x: Inputs, files: Files, f: Func)
    requires Intact(files, Writes(safe, x)) && Works(py, safe, x, files) && f in x.functions
    ensures var names := Load(py, files).value.names;
            && safe(f.name) in names && names[safe(f.name)].TheWrapper?
            && RunsFunction(files, names[safe(f.name)].def, f)
            && names[safe(f.name)].def.params == Params(safe, f.schema)
            && (f.typescript ==> Top("_ts_bridge") in files && files[Top("_ts_bridge")] == TsBridge)
  {
    FunctionExported(safe, x, f);
    var s := ServiceOf(x, f);
    FunctionReaches(safe, x, files, s, f);
  }

  /** Under a remote tool's name there is a wrapper with its parameters that calls that tool of that server. */
  lemma McpCalls(py: Python, safe: Safe, x: Inputs, files: Files, s: Server, t: Tool)
    requires Intact(files, Writes(safe, x)) && Works(py, safe, x, files) && s in x.mcp && t in s.tools
    ensures var names, name := Load(py, files).value.names, "mcp__" + safe(s.name) + "__" + safe(t.name);
            && name in names && names[name].TheWrapper?
            && RunsTool(names[name].def, Mcp, s, t) && names[name].def.params == Params(safe, t.schema)
            && Top("_mcp_bridge") in files && files[Top("_mcp_bridge")] == Bridge(Mcp)
  {
    ToolExported(safe, x, Mcp, s, t);
    ToolsSurvive(safe, x, files, Mcp, s);
    assert ToolDef(safe, Mcp, s.name)(t).body == CallsTool(Mcp, s.name, t.name);
  }

  /** The same for an operation of a REST server, with four optional parameters. */
  lemma ApiCalls(py: Python, safe: Safe, x: Inputs, files: Files, s: Server, t: Tool)
    requires Intact(files, Writes(safe, x)) && Works(py, safe, x, files) && s in x.api && t in s.tools
    ensures var names, name := Load(py, files).value.names, "api__" + safe(s.name) + "__" + safe(t.name);
            && name in names && names[name].TheWrapper? && RunsTool(names[name].def, Api, s, t)
            && Map(names[name].def.params, ParamName) == ["path", "query", "body", "headers"]
            && (forall p <- names[name].def.params :: p.default == Some(Null))
            && Top("_api_bridge") in files && files[Top("_api_bridge")] == Bridge(Api)
  {
    ToolExported(safe, x, Api, s, t);
    ToolsSurvive(safe, x, files, Api, s);
    var d := ToolDef(safe, Api, s.name)(t);
    assert d.body == CallsTool(Api, s.name, t.name) && d.params == ApiParams();
    ApiParamNames();
  }

  lemma ApiParamNames()
    ensures Map(ApiParams(), ParamName) == ["path", "query", "body", "headers"]
    ensures forall p <- ApiParams() :: p.default == Some(Null)
  {}

  // ----- names that have been sanitised

  function LegalNames(py: Python): (r: string -> bool) { (n: string) => Legal(py.reserved, n) }

  lemma SanitizedSchema(py: Python, lower: Lower, schema: Option<Schema>)
    ensures SchemaCompiles(SanitizeWith(lower), schema, Names(py))
       <==> SchemaCompiles(SanitizeWith(lower), schema, LegalNames(py))
  {
    forall n ensures Names(py)(SanitizeWith(lower)(n)) <==> LegalNames(py)(SanitizeWith(lower)(n)) {
      SanitizedIdentifier(lower, py.reserved, n);
    }
  }

  lemma SanitizedToolName(py: Python, lower: Lower, kind: Kind, a: string, b: string)
    ensures var n := ToolName(SanitizeWith(lower), kind, a, b);
            (Names(py)(n) <==> n !in py.reserved) && (LegalNames(py)(n) <==> n !in py.reserved)
  {
    var n := ToolName(SanitizeWith(lower), kind, a, b);
    IdentChars(lower, a);
    IdentChars(lower, b);
    forall c | c in n ensures Ident(c) {
      assert c in kind.Prefix() || c in Sanitize(lower, a) || c in "__" || c in Sanitize(lower, b);
    }
  }

  lemma IdentChars(lower: Lower, name: string)
    ensures forall c <- Sanitize(lower, name) :: Ident(c)
  {
    var s := Sanitize(lower, name);
    forall c | c in s ensures Ident(c) {
      var i :| 0 <= i < |s| && s[i] == c;
    }
  }

  /** With the source's sanitiser, all a name has to be is not empty, not led by a digit and not reserved. */
  lemma SanitizedCompile(py: Python, lower: Lower, x: Inputs)
    ensures AllCompile(py, SanitizeWith(lower), x, Names(py))
       <==> AllCompile(py, SanitizeWith(lower), x, LegalNames(py))
  {
    var safe := SanitizeWith(lower);
    forall f | f in x.functions
      ensures FuncCompiles(py, safe, f, Names(py)) <==> FuncCompiles(py, safe, f, LegalNames(py))
    {
      SanitizedIdentifier(lower, py.reserved, f.service);
      SanitizedIdentifier(lower, py.reserved, f.name);
      SanitizedSchema(py, lower, f.schema);
    }
    SanitizedTools(py, lower, x, Mcp);
    SanitizedTools(py, lower, x, Api);
  }

  lemma SanitizedTools(py: Python, lower: Lower, x: Inputs, kind: Kind)
    ensures ToolsCompile(py, SanitizeWith(lower), x, kind, Names(py))
       <==> ToolsCompile(py, SanitizeWith(lower), x, kind, LegalNames(py))
  {
    var safe := SanitizeWith(lower);
    forall s, t | s in x.Servers(kind) && t in s.tools
      ensures ToolCompiles(py, safe, kind, s, t, Names(py)) <==> ToolCompiles(py, safe, kind, s, t, LegalNames(py))
    {
      SanitizedIdentifier(lower, py.reserved, s.name);
      SanitizedToolName(py, lower, kind, s.name, t.name);
      SanitizedSchema(py, lower, t.schema);
    }
  }

  // ----- no two wrappers with one name, said of the inputs

  /** The wrapper names of two tools coincide. */
  ghost predicate SameStem(safe: Safe, a: string, m: string, b: string, n: string) {
    || (safe(a) == safe(b) && safe(m) == safe(n))
    || Continues(safe(a), safe(m), safe(b), safe(n)) || Continues(safe(b), safe(n), safe(a), safe(m))
  }

  ghost predicate Differ(safe: Safe, kind: Kind, s: Server, m: Tool, t: Server, n: Tool) {
    SameStem(safe, s.name, m.name, t.name, n.name) ==> s.name == t.name && SameTool(safe, kind, m, n)
  }

  ghost predicate ToolsDiffer(safe: Safe, kind: Kind, servers: seq<Server>) {
    forall s <- servers, t <- servers :: forall m <- s.tools, n <- t.tools :: Differ(safe, kind, s, m, t, n)
  }

  /** Functions that sanitise alike are the same function of the same service. */
  ghost predicate FunctionsDiffer(safe: Safe, functions: seq<Func>) {
    forall f <- functions, g <- functions :: safe(f.name) == safe(g.name) ==>
      f.service == g.service && SameFunction(safe, f, g)
  }

  /** No function goes by the name of a tool or an operation. */
  ghost predicate KindsDiffer(safe: Safe, x: Inputs) {
    forall f <- x.functions, kind, p, d :: ToolExport(safe, x, kind, p, d) ==> safe(f.name) != d.name
  }

  lemma ToolPair(safe: Safe, kind: Kind, a: string, m: Tool, b: string, n: Tool)
    ensures ToolName(safe, kind, a, m.name) == ToolName(safe, kind, b, n.name) <==> SameStem(safe, a, m.name, b, n.name)
    ensures a == b && SameTool(safe, kind, m, n) <==> ToolDef(safe, kind, a)(m) == ToolDef(safe, kind, b)(n)
  {
    ToolNamesExactly(kind.Prefix(), safe(a), safe(m.name), safe(b), safe(n.name));
    assert ToolDef(safe, kind, a)(m).body == CallsTool(kind, a, m.name);
    assert ToolDef(safe, kind, b)(n).body == CallsTool(kind, b, n.name);
  }

  lemma ToolExportsApart(safe: Safe, x: Inputs, kind: Kind, p: Path, d: Def, q: Path, e: Def)
    requires ToolsDiffer(safe, kind, x.Servers(kind)) && d.name == e.name
    requires ToolExport(safe, x, kind, p, d) && ToolExport(safe, x, kind, q, e)
    ensures p == q && d == e
  {
    var s, m := OfTool(safe, x, kind, p, d);
    var t, n := OfTool(safe, x, kind, q, e);
    ToolPair(safe, kind, s.name, m, t.name, n);
    assert Differ(safe, kind, s, m, t, n);
  }

  lemma ApartTools(safe: Safe, x: Inputs, kind: Kind)
    requires ExportsApart(safe, x)
    ensures ToolsDiffer(safe, kind, x.Servers(kind))
  {
    forall s, t, m, n | s in x.Servers(kind) && t in x.Servers(kind) && m in s.tools && n in t.tools
      ensures Differ(safe, kind, s, m, t, n)
    {
      ToolExported(safe, x, kind, s, m);
      ToolExported(safe, x, kind, t, n);
      ToolPair(safe, kind, s.name, m, t.name, n);
      var d, e := ToolDef(safe, kind, s.name)(m), ToolDef(safe, kind, t.name)(n);
      assert d.name == ToolName(safe, kind, s.name, m.name) && e.name == ToolName(safe, kind, t.name, n.name);
    }
  }

  lemma KindsByLetter(safe: Safe, x: Inputs, p: Path, d: Def, q: Path, e: Def)
    requires ToolExport(safe, x, Mcp, p, d) && ToolExport(safe, x, Api, q, e)
    ensures d.name != e.name
  {
    assert d.name[0] == 'm' && e.name[0] == 'a';
  }

  lemma FunctionExportsApart(safe: Safe, x: Inputs, p: Path, d: Def, q: Path, e: Def)
    requires FunctionsDiffer(safe, x.functions)
    requires FunctionExport(safe, x, p, d) && FunctionExport(safe, x, q, e) && d.name == e.name
    ensures p == q && d == e
  {
    var f := OfFunction(safe, x, p, d);
    var g := OfFunction(safe, x, q, e);
    WrappersAgree(safe, f, g);
  }

  lemma ApartFunctions(safe: Safe, x: Inputs)
    requires ExportsApart(safe, x) && ServicesDiffer(safe, x.functions)
    ensures FunctionsDiffer(safe, x.functions) && KindsDiffer(safe, x)
  {
    forall f, g | f in x.functions && g in x.functions && safe(f.name) == safe(g.name)
      ensures f.service == g.service && SameFunction(safe, f, g)
    {
      FunctionExported(safe, x, f);
      FunctionExported(safe, x, g);
      WrappersAgree(safe, f, g);
    }
    forall f, kind, p, d | f in x.functions && ToolExport(safe, x, kind, p, d) ensures safe(f.name) != d.name {
      FunctionExported(safe, x, f);
      assert Exports(safe, x, p, d);
    }
  }

  lemma FunctionAndTool(safe: Safe, x: Inputs, p: Path, d: Def, kind: Kind, q: Path, e: Def)
    requires KindsDiffer(safe, x) && FunctionExport(safe, x, p, d) && ToolExport(safe, x, kind, q, e)
    ensures d.name != e.name
  {
    var f := OfFunction(safe, x, p, d);
    FunctionExported(safe, x, f);
  }

  lemma DifferingApart(safe: Safe, x: Inputs, p: Path, d: Def, q: Path, e: Def)
    requires FunctionsDiffer(safe, x.functions) && KindsDiffer(safe, x)
    requires ToolsDiffer(safe, Mcp, x.mcp) && ToolsDiffer(safe, Api, x.api)
    requires Exports(safe, x, p, d) && Exports(safe, x, q, e) && d.name == e.name
    ensures p == q && d == e
  {
    if FunctionExport(safe, x, p, d) && FunctionExport(safe, x, q, e) {
      FunctionExportsApart(safe, x, p, d, q, e);
    } else if ToolExport(safe, x, Mcp, p, d) && ToolExport(safe, x, Mcp, q, e) {
      ToolExportsApart(safe, x, Mcp, p, d, q, e);
    } else if ToolExport(safe, x, Api, p, d) && ToolExport(safe, x, Api, q, e) {
      ToolExportsApart(safe, x, Api, p, d, q, e);
    } else if FunctionExport(safe, x, p, d) {
      FunctionAndTool(safe, x, p, d, if ToolExport(safe, x, Mcp, q, e) then Mcp else Api, q, e);
    } else if FunctionExport(safe, x, q, e) {
      FunctionAndTool(safe, x, q, e, if ToolExport(safe, x, Mcp, p, d) then Mcp else Api, p, d);
    } else if ToolExport(safe, x, Mcp, p, d) {
      KindsByLetter(safe, x, p, d, q, e);
    } else {
      KindsByLetter(safe, x, q, e, p, d);
    }
  }

  /** No two wrappers share a name exactly when no two functions sanitise alike, in any services; no two
      tools of remote servers, and no two REST operations, have coinciding stems; and no function goes
      by the name of a tool or an operation. */
  lemma ExportsApartExactly(safe: Safe, x: Inputs)
    requires ServicesDiffer(safe, x.functions)
    ensures ExportsApart(safe, x) <==>
              && FunctionsDiffer(safe, x.functions) && KindsDiffer(safe, x)
              && ToolsDiffer(safe, Mcp, x.mcp) && ToolsDiffer(safe, Api, x.api)
  {
    if ExportsApart(safe, x) {
      ApartFunctions(safe, x);
      ApartTools(safe, x, Mcp);
      ApartTools(safe, x, Api);
    }
    if && FunctionsDiffer(safe, x.functions) && KindsDiffer(safe, x)
       && ToolsDiffer(safe, Mcp, x.mcp) && ToolsDiffer(safe, Api, x.api) {
      forall p, d, q, e | Exports(safe, x, p, d) && Exports(safe, x, q, e) && d.name == e.name
        ensures p == q && d == e
      {
        DifferingApart(safe, x, p, d, q, e);
      }
    }
  }

  // ----- which wrapper wins

  /** After a run the last import of a name has it, unless a submodule of that name was first loaded
      later still; and every import of the name came before: of an earlier or the same service, or of a
      service when this one is of a server, or of a remote server when this one is of a REST server. */
  lemma LastImportWins(py: Python, safe: Safe, x: Inputs, files: Files, imports: seq<Import>, k: nat)
    requires imports == Imports(safe, x) && Exec(Finds(py, files), imports).Some? && k < |imports|
    requires forall l :: k < l < |imports| ==>
               imports[l].name != imports[k].name && Spares(imports, l, imports[k].name)
    ensures var i, names := imports[k], Exec(Finds(py, files), imports).value.names;
            && i.name in names && Some(names[i.name]) == Found(py, files, i)
            && forall j <- imports :: j.name == i.name ==> Follows(safe, x, j, i)
  {
    LastStays(Finds(py, files), imports, k);
    forall j | j in imports && j.name == imports[k].name ensures Follows(safe, x, j, imports[k]) {
      var l :| 0 <= l < |imports| && imports[l] == j;
      ImportsOrdered(safe, x, l, k);
    }
  }

  lemma LastStays(find: Finder, imports: seq<Import>, k: nat)
    requires Exec(find, imports).Some? && k < |imports|
    requires forall l :: k < l < |imports| ==>
               imports[l].name != imports[k].name && Spares(imports, l, imports[k].name)
    ensures var i, names := imports[k], Exec(find, imports).value.names;
            i.name in names && Some(names[i.name]) == find(i)
  {
    var i := imports[k];
    ExecExactly(find, imports);
    assert i in imports && find(i).Some?;
    assert imports[..|imports|] == imports;
    NameStays(find, imports, i.name, find(i).value, k, |imports|);
  }

  // ----- inputs that keep the whole package from loading

  /** Once the package loads, every tool and operation compiles. */
  lemma LoadedTool(py: Python, safe: Safe, x: Inputs, files: Files, kind: Kind, s: Server, t: Tool)
    requires Intact(files, Writes(safe, x)) && s in x.Servers(kind) && t in s.tools
    requires DirsAsGiven(x, files) && Load(py, files).Some?
    ensures Identifier(py.reserved, safe(s.name)) && DefCompiles(py, ToolDef(safe, kind, s.name)(t))
  {
    var p, d := ToolDir(kind, safe(s.name)), ToolDef(safe, kind, s.name)(t);
    WorksVisible(py, safe, x, files);
    ModuleOfTool(safe, x, files, kind, s, t);
    ToolExported(safe, x, kind, s, t);
    ExportImported(safe, x, p, d);
    assert ImportCompiles(py, Import(p, d.name)) && Found(py, files, Import(p, d.name)).Some?;
  }

  /** Any one tool or operation that does not compile, and no name of the package works any more. */
  lemma OneToolBreaksAll(py: Python, safe: Safe, x: Inputs, files: Files, kind: Kind, s: Server, t: Tool)
    requires files == Overlay(map[], Writes(safe, x)) && Intact(files, Writes(safe, x))
    requires s in x.Servers(kind) && t in s.tools
    requires !Identifier(py.reserved, safe(s.name)) || !DefCompiles(py, ToolDef(safe, kind, s.name)(t))
    ensures Load(py, files).None?
  {
    Directory(safe, x, files, Mcp);
    Directory(safe, x, files, Api);
    if Load(py, files).Some? {
      LoadedTool(py, safe, x, files, kind, s, t);
      assert false;
    }
  }

  /** A REST server whose name starts with a digit, as accepted names may. */
  lemma DigitLedServerBreaks(py: Python, safe: Safe, x: Inputs, s: Server, t: Tool)
    requires s in x.api && t in s.tools && safe(s.name) != "" && '0' <= safe(s.name)[0] <= '9'
    ensures var files := Overlay(map[], Writes(safe, x));
            Intact(files, Writes(safe, x)) ==> Load(py, files).None?
  {
    var files := Overlay(map[], Writes(safe, x));
    if Intact(files, Writes(safe, x)) { OneToolBreaksAll(py, safe, x, files, Api, s, t); }
  }

  /** A remote tool with a property called like a reserved word, `from` say, or with two properties
      that sanitise alike. */
  lemma BadPropertyBreaks(py: Python, safe: Safe, x: Inputs, s: Server, t: Tool)
    requires s in x.mcp && t in s.tools && t.schema.Some?
    requires || (exists p <- t.schema.value.properties :: safe(p.name) in py.reserved)
             || !Distinct(Map(t.schema.value.properties, NameOf(safe)))
    ensures var files := Overlay(map[], Writes(safe, x));
            Intact(files, Writes(safe, x)) ==> Load(py, files).None?
  {
    var files := Overlay(map[], Writes(safe, x));
    CompilesExactly(safe, py.reserved, t.schema.value);
    assert ToolDef(safe, Mcp, s.name)(t).params == Signature(safe, t.schema.value);
    if Intact(files, Writes(safe, x)) { OneToolBreaksAll(py, safe, x, files, Mcp, s, t); }
  }
}
