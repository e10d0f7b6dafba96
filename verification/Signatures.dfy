/** `_params_from_schema`: the parameters of a generated wrapper. */
module Signatures {
  import opened Json
  import opened Slugs
  import opened Seqs

  /** A schema property: its default, if it has one. */
  datatype Property = Property(name: string, default: Option<Json>)

  datatype Schema = Schema(properties: seq<Property>, required: set<string>)

  /** A wrapper parameter; without a default the caller must supply it. */
  datatype Param = Param(name: string, default: Option<Json>)

  function Bare(required: set<string>): (r: Property -> bool) {
    (p: Property) => p.name in required && p.default.None?
  }

  function Optional(required: set<string>): (r: Property -> bool) {
    (p: Property) => !(p.name in required && p.default.None?)
  }

  function BareParam(safe: Safe): (r: Property -> Param) { (p: Property) => Param(safe(p.name), None) }

  function OptionalParam(safe: Safe): (r: Property -> Param) {
    (p: Property) => Param(safe(p.name), if p.default.Some? then p.default else Some(Null))
  }

  /** The properties a signature lists, in order: those that must be supplied, then the others. */
  function Listed(schema: Schema): (r: seq<Property>) {
    Filter(schema.properties, Bare(schema.required)) + Filter(schema.properties, Optional(schema.required))
  }

  function Signature(safe: Safe, schema: Schema): (r: seq<Param>) {
    Map(Filter(schema.properties, Bare(schema.required)), BareParam(safe))
    + Map(Filter(schema.properties, Optional(schema.required)), OptionalParam(safe))
  }

  /** No schema, or one without properties, gives no parameters. */
  function Params(safe: Safe, schema: Option<Schema>): (r: seq<Param>) {
    if schema.None? then [] else Signature(safe, schema.value)
  }

  /** `_params_from_schema`. */
  method ParamsFromSchema(safe: Safe, schema: Option<Schema>) returns (params: seq<Param>)
    ensures params == Params(safe, schema)
  {
    if schema.None? { return []; }
    var ps, required := schema.value.properties, schema.value.required;
    var requiredParams: seq<Param>, optionalParams: seq<Param> := [], [];
    ghost var bare, optional := Bare(required), Optional(required);
    for i := 0 to |ps|
      invariant requiredParams == Map(Filter(ps[..i], bare), BareParam(safe))
      invariant optionalParams == Map(Filter(ps[..i], optional), OptionalParam(safe))
    {
      var p := ps[i];
      assert ps[..i + 1] == ps[..i] + [p];
      FilterSnoc(ps[..i], p, bare);
      FilterSnoc(ps[..i], p, optional);
      MapSnoc(Filter(ps[..i], bare), p, BareParam(safe));
      MapSnoc(Filter(ps[..i], optional), p, OptionalParam(safe));
      if p.name in required && p.default.None? {
        requiredParams := requiredParams + [Param(safe(p.name), None)];
      } else {
        var default := if p.default.None? then Some(Null) else p.default;
        optionalParams := optionalParams + [Param(safe(p.name), default)];
      }
    }
    assert ps[..|ps|] == ps;
    return requiredParams + optionalParams;
  }

  /** A signature keeps every property exactly once. */
  lemma ListedIsPermutation(schema: Schema)
    ensures multiset(Listed(schema)) == multiset(schema.properties)
  {
    FilterPartition(schema.properties, Bare(schema.required), Optional(schema.required));
  }

  /** Bare properties come first. */
  lemma ListedBareFirst(schema: Schema, i: nat)
    requires i < |Listed(schema)|
    ensures Bare(schema.required)(Listed(schema)[i]) <==> i < |Filter(schema.properties, Bare(schema.required))|
  {
    var ps, bare, optional := schema.properties, Bare(schema.required), Optional(schema.required);
    var a, b := Filter(ps, bare), Filter(ps, optional);
    FilterKeeps(ps, bare);
    FilterKeeps(ps, optional);
    assert i < |a| ==> Listed(schema)[i] == a[i] && a[i] in a;
    assert i >= |a| ==> Listed(schema)[i] == b[i - |a|] && b[i - |a|] in b;
  }

  /** Parameter `i` is property `i`, under its sanitised name, and without default exactly when the
      property is required and has none. */
  lemma SignatureIsFaithful(safe: Safe, schema: Schema, i: nat)
    requires i < |Signature(safe, schema)|
    ensures |Signature(safe, schema)| == |Listed(schema)|
    ensures var param, p := Signature(safe, schema)[i], Listed(schema)[i];
            && param.name == safe(p.name)
            && (param.default.None? <==> Bare(schema.required)(p))
            && (p.default.Some? ==> param.default == p.default)
            && (p.default.None? && p.name !in schema.required ==> param.default == Some(Null))
            && (param.default.None? <==> p.default.None? && p.name in schema.required)
  {
    var a := Filter(schema.properties, Bare(schema.required));
    var b := Filter(schema.properties, Optional(schema.required));
    ListedBareFirst(schema, i);
    if i < |a| {
      assert Signature(safe, schema)[i] == BareParam(safe)(a[i]) && Listed(schema)[i] == a[i];
    } else {
      assert Signature(safe, schema)[i] == OptionalParam(safe)(b[i - |a|]) && Listed(schema)[i] == b[i - |a|];
    }
  }

  /** No parameter without a default follows one with a default. */
  lemma SignatureIsLegal(safe: Safe, schema: Schema, i: nat, j: nat)
    requires i < j < |Signature(safe, schema)| && Signature(safe, schema)[i].default.Some?
    ensures Signature(safe, schema)[j].default.Some?
  {
    SignatureIsFaithful(safe, schema, i);
    SignatureIsFaithful(safe, schema, j);
    ListedBareFirst(schema, i);
    ListedBareFirst(schema, j);
  }

  // ----- when Python accepts the signature

  function NameOf(safe: Safe): (r: Property -> string) { (p: Property) => safe(p.name) }

  function ParamName(p: Param): (r: string) { p.name }

  predicate Distinct(names: seq<string>) { forall i, j :: 0 <= i < j < |names| ==> names[i] != names[j] }

  /** A `def` with these parameters compiles: they are names, no two alike, those with a default last. */
  predicate Compiles(reserved: set<string>, params: seq<Param>) {
    && (forall p <- params :: Identifier(reserved, p.name))
    && Distinct(Map(params, ParamName))
    && (forall i, j :: 0 <= i < j < |params| && params[i].default.Some? ==> params[j].default.Some?)
  }

  lemma DistinctAppend(a: seq<string>, b: seq<string>)
    ensures Distinct(a + b) <==> Distinct(a) && Distinct(b) && forall n <- a :: n !in b
  {
    var names := a + b;
    assert forall i :: 0 <= i < |a| ==> names[i] == a[i];
    assert forall i :: 0 <= i < |b| ==> names[|a| + i] == b[i];
    if Distinct(names) {
      forall i, j | 0 <= i < j < |b| ensures b[i] != b[j] { assert names[|a| + i] != names[|a| + j]; }
      forall n | n in a ensures n !in b {
        var i :| 0 <= i < |a| && a[i] == n;
        forall j | 0 <= j < |b| ensures b[j] != n { assert names[i] != names[|a| + j]; }
      }
    }
    if Distinct(a) && Distinct(b) && forall n <- a :: n !in b {
      forall i, j | 0 <= i < j < |names| ensures names[i] != names[j] {
        if i < |a| <= j { assert names[i] in a && names[j] == b[j - |a|]; }
      }
    }
  }

  lemma MapCons(x: Property, rest: seq<Property>, name: Property -> string)
    ensures Map([x] + rest, name) == [name(x)] + Map(rest, name)
  {}

  /** The names of two complementary parts are distinct together exactly when all of them are. */
  lemma {:induction false} PartsDistinct(xs: seq<Property>, keep: Property -> bool, drop: Property -> bool,
                                         name: Property -> string)
    requires forall x <- xs :: keep(x) != drop(x)
    ensures var a, b, all := Map(Filter(xs, keep), name), Map(Filter(xs, drop), name), Map(xs, name);
            && (forall n :: n in all <==> n in a || n in b)
            && (Distinct(all) <==> Distinct(a) && Distinct(b) && forall n <- a :: n !in b)
  {
    if xs != [] {
      var x, rest := xs[0], xs[1..];
      assert keep(x) != drop(x);
      PartsDistinct(rest, keep, drop, name);
      assert xs == [x] + rest;
      MapCons(x, rest, name);
      DistinctAppend([name(x)], Map(rest, name));
      var mine := Filter(rest, if keep(x) then keep else drop);
      MapCons(x, mine, name);
      DistinctAppend([name(x)], Map(mine, name));
    }
  }

  lemma SignatureNames(safe: Safe, schema: Schema)
    ensures |Signature(safe, schema)| == |Listed(schema)|
    ensures Map(Listed(schema), NameOf(safe)) == Map(Signature(safe, schema), ParamName)
  {
    forall i | 0 <= i < |Signature(safe, schema)|
      ensures |Signature(safe, schema)| == |Listed(schema)|
      ensures NameOf(safe)(Listed(schema)[i]) == Signature(safe, schema)[i].name
    {
      SignatureIsFaithful(safe, schema, i);
    }
  }

  lemma DistinctExactly(safe: Safe, schema: Schema)
    ensures Distinct(Map(Signature(safe, schema), ParamName)) <==> Distinct(Map(schema.properties, NameOf(safe)))
  {
    var ps, name, bare, optional := schema.properties, NameOf(safe), Bare(schema.required), Optional(schema.required);
    SignatureNames(safe, schema);
    PartsDistinct(ps, bare, optional, name);
    DistinctAppend(Map(Filter(ps, bare), name), Map(Filter(ps, optional), name));
    assert Map(Listed(schema), name) == Map(Filter(ps, bare), name) + Map(Filter(ps, optional), name);
  }

  /** The generated signature compiles exactly when the sanitised property names are names of Python,
      no two of them alike: the order of the parameters is never at fault. */
  lemma CompilesExactly(safe: Safe, reserved: set<string>, schema: Schema)
    ensures Compiles(reserved, Signature(safe, schema)) <==>
              && (forall p <- schema.properties :: Identifier(reserved, safe(p.name)))
              && Distinct(Map(schema.properties, NameOf(safe)))
  {
    DistinctExactly(safe, schema);
    SameNames(safe, reserved, schema);
    forall i, j | 0 <= i < j < |Signature(safe, schema)| && Signature(safe, schema)[i].default.Some?
      ensures Signature(safe, schema)[j].default.Some?
    {
      SignatureIsLegal(safe, schema, i, j);
    }
  }

  lemma SameNames(safe: Safe, reserved: set<string>, schema: Schema)
    ensures (forall p <- Signature(safe, schema) :: Identifier(reserved, p.name))
       <==> (forall p <- schema.properties :: Identifier(reserved, safe(p.name)))
  {
    var sig, listed, ps := Signature(safe, schema), Listed(schema), schema.properties;
    ListedIsPermutation(schema);
    SignatureNames(safe, schema);
    forall p | p in ps ensures exists q <- sig :: q.name == safe(p.name) {
      assert p in multiset(listed);
      var i :| 0 <= i < |listed| && listed[i] == p;
      SignatureIsFaithful(safe, schema, i);
      assert sig[i] in sig;
    }
    forall q | q in sig ensures exists p <- ps :: q.name == safe(p.name) {
      var i :| 0 <= i < |sig| && sig[i] == q;
      SignatureIsFaithful(safe, schema, i);
      assert listed[i] in multiset(listed);
      assert listed[i] in ps;
    }
  }
}
