/** `extract_endpoints`: listing the operations of an OpenAPI document under unique handles. */
module OpenApiImport {
  import opened Json
  import opened Text
  import opened Slugs

  const HTTP_METHODS := ["get", "put", "post", "delete", "patch", "head", "options"]

  datatype Operation = Operation(verb: string, path: string, body: Json)

  datatype Endpoint = Endpoint(operationId: string, verb: string, path: string, body: Json)

  datatype ImportError = NoPaths | NoOperations | BadOperationId

  datatype Outcome =
    | Imported(endpoints: seq<Endpoint>, totalDiscovered: nat, truncated: bool)
    | Failed(error: ImportError)

  // ----- handles

  /** The k-th handle tried for a base: the base itself, then `base_2`, `base_3`, ... */
  function Candidate(base: string, k: nat): (r: string) {
    if k == 0 then base else base + "_" + Decimal(k + 1)
  }

  lemma CandidatesDiffer(base: string, j: nat, k: nat)
    requires Candidate(base, j) == Candidate(base, k)
    ensures j == k
  {
    if j > 0 && k > 0 {
      assert Candidate(base, j)[|base| + 1..] == Decimal(j + 1);
      assert Candidate(base, k)[|base| + 1..] == Decimal(k + 1);
      DecimalInjective(j + 1, k + 1);
    }
  }

  /** The first `n` candidates cannot all be taken by fewer than `n` handles. */
  lemma {:induction false} CandidatesOutnumber(base: string, n: nat, taken: set<string>)
    requires forall j :: 0 <= j < n ==> Candidate(base, j) in taken
    ensures n <= |taken|
  {
    if n > 0 {
      var last := Candidate(base, n - 1);
      forall j | 0 <= j < n - 1 ensures Candidate(base, j) in taken - {last} {
        if Candidate(base, j) == last { CandidatesDiffer(base, j, n - 1); }
      }
      CandidatesOutnumber(base, n - 1, taken - {last});
    }
  }

  /** `k` is the first candidate not taken. */
  ghost predicate FirstFree(base: string, taken: set<string>, k: nat) {
    Candidate(base, k) !in taken && forall j :: 0 <= j < k ==> Candidate(base, j) in taken
  }

  /** The collision loop, run from the k-th candidate on. */
  function FreeFrom(base: string, taken: set<string>, k: nat): (r: nat)
    requires forall j :: 0 <= j < k ==> Candidate(base, j) in taken
    ensures r <= |taken| && FirstFree(base, taken, r)
    decreases |taken| + 1 - k, 0
  {
    CandidatesOutnumber(base, k, taken);
    if Candidate(base, k) in taken then
      CandidatesOutnumber(base, k + 1, taken);
      FreeFrom(base, taken, k + 1)
    else k
  }

  function Pick(base: string, taken: set<string>): (r: string)
    ensures r !in taken
    ensures exists k :: 0 <= k <= |taken| && r == Candidate(base, k) && FirstFree(base, taken, k)
  {
    Candidate(base, FreeFrom(base, taken, 0))
  }

  /** The collision loop ends within one more try than there are handles taken. */
  method PickByLoop(opId: string, seen: set<string>) returns (candidate: string, tries: nat)
    ensures candidate == Pick(opId, seen)
    ensures 1 <= tries <= |seen| + 1 && FirstFree(opId, seen, tries - 1)
  {
    candidate := opId;
    var n := 2;
    while candidate in seen
      invariant n >= 2 && candidate == Candidate(opId, n - 2)
      invariant forall j :: 0 <= j < n - 2 ==> Candidate(opId, j) in seen
      invariant n - 2 <= |seen|
      decreases |seen| + 2 - n
    {
      CandidatesOutnumber(opId, n - 1, seen);
      candidate := opId + "_" + Decimal(n);
      n := n + 1;
    }
    tries := n - 1;
    var free := FreeFrom(opId, seen, 0);
    assert free == n - 2;
  }

  // ----- operations in document order

  /** The operation a path item has under a method, if any. */
  function OperationAt(path: string, item: Json, verb: string): (r: seq<Operation>) {
    var body := Lookup(item, verb);
    if body.Some? && body.value.Obj? then [Operation(verb, path, body.value)] else []
  }

  /** The operations a path item has among the given methods. */
  function OperationsOf(path: string, item: Json, verbs: seq<string>): (r: seq<Operation>) {
    if verbs == [] then []
    else OperationsOf(path, item, verbs[..|verbs| - 1]) + OperationAt(path, item, verbs[|verbs| - 1])
  }

  lemma OperationsOfNext(path: string, item: Json, verbs: seq<string>, j: nat)
    requires j < |verbs|
    ensures OperationsOf(path, item, verbs[..j + 1])
         == OperationsOf(path, item, verbs[..j]) + OperationAt(path, item, verbs[j])
  {
    assert verbs[..j + 1][..j] == verbs[..j];
  }

  function Operations(paths: seq<Field>, verbs: seq<string>): (r: seq<Operation>) {
    if paths == [] then []
    else
      var last := paths[|paths| - 1];
      Operations(paths[..|paths| - 1], verbs) + OperationsOf(last.key, last.value, verbs)
  }

  // ----- naming

  function RawId(op: Operation): (r: Json) {
    var id := Lookup(op.body, "operationId");
    if id.Some? then id.value else Null
  }

  /** A truthy `operationId` that is not text makes `_slug` raise. */
  predicate BadId(op: Operation) { Truthy(RawId(op)) && !RawId(op).Str? }

  function BaseId(lower: Lower, op: Operation): (r: string) {
    if Truthy(RawId(op)) && RawId(op).Str? then Slug(lower, RawId(op).s)
    else Slug(lower, op.verb + "_" + op.path)
  }

  /** How an operation's handle starts out. */
  type Naming = Operation -> string

  function BaseIds(lower: Lower): (r: Naming) { (op: Operation) => BaseId(lower, op) }

  function Upper(s: string): (r: string) {
    if s == "" then ""
    else [if 'a' <= s[0] <= 'z' then s[0] - 'a' + 'A' else s[0]] + Upper(s[1..])
  }

  function Ids(endpoints: seq<Endpoint>): (r: set<string>) { set e | e in endpoints :: e.operationId }

  function NameOf(base: Naming, op: Operation, taken: set<string>): (r: Endpoint) {
    Endpoint(Pick(base(op), taken), Upper(op.verb), op.path, op.body)
  }

  function Named(base: Naming, ops: seq<Operation>): (r: seq<Endpoint>)
    ensures |r| == |ops|
  {
    if ops == [] then []
    else
      var before := Named(base, ops[..|ops| - 1]);
      before + [NameOf(base, ops[|ops| - 1], Ids(before))]
  }

  lemma NamedSnoc(base: Naming, ops: seq<Operation>, op: Operation)
    ensures Named(base, ops + [op]) == Named(base, ops) + [NameOf(base, op, Ids(Named(base, ops)))]
  {
    assert (ops + [op])[..|ops + [op]| - 1] == ops;
  }

  /** How many of `n` operations fit under the ceiling. */
  function Kept(n: nat, ceiling: int): (r: nat)
    ensures r <= n
  {
    if ceiling <= 0 then 0 else if ceiling < n then ceiling else n
  }

  /** What an import of these operations yields. */
  ghost function ImportOps(ops: seq<Operation>, ceiling: int, base: Naming): (r: Outcome) {
    var kept := ops[..Kept(|ops|, ceiling)];
    if SomeBad(kept) then Failed(BadOperationId)
    else if ops == [] then Failed(NoOperations)
    else Imported(Named(base, kept), |ops|, |ops| > ceiling)
  }

  /** What an import yields, said without a loop. */
  ghost function Import(spec: seq<Field>, ceiling: int, lower: Lower): (r: Outcome) {
    var paths := Lookup(Obj(spec), "paths");
    if paths.None? || !paths.value.Obj? || paths.value.fields == [] then Failed(NoPaths)
    else ImportOps(Operations(paths.value.fields, HTTP_METHODS), ceiling, BaseIds(lower))
  }

  // ----- laws of the import

  ghost predicate DistinctIds(es: seq<Endpoint>) {
    forall i, j :: 0 <= i < j < |es| ==> es[i].operationId != es[j].operationId
  }

  lemma DistinctSnoc(es: seq<Endpoint>, e: Endpoint)
    requires DistinctIds(es) && e.operationId !in Ids(es)
    ensures DistinctIds(es + [e])
  {
    forall i | 0 <= i < |es| ensures es[i].operationId != e.operationId { assert es[i] in es; }
  }

  lemma {:induction false} NamedDistinct(base: Naming, ops: seq<Operation>)
    ensures DistinctIds(Named(base, ops))
  {
    if ops != [] {
      var before := Named(base, ops[..|ops| - 1]);
      NamedDistinct(base, ops[..|ops| - 1]);
      DistinctSnoc(before, NameOf(base, ops[|ops| - 1], Ids(before)));
    }
  }

  lemma CandidateSlugShaped(base: string, k: nat)
    requires SlugShaped(base)
    ensures SlugShaped(Candidate(base, k))
  {
    if k > 0 {
      WordIsSlugShaped(Decimal(k + 1));
      JoinSlugs(base, Decimal(k + 1));
    }
  }

  lemma {:induction false} NamedSlugShaped(base: Naming, ops: seq<Operation>)
    requires forall op <- ops :: SlugShaped(base(op))
    ensures forall e <- Named(base, ops) :: SlugShaped(e.operationId)
  {
    if ops != [] {
      var init, op := ops[..|ops| - 1], ops[|ops| - 1];
      NamedSlugShaped(base, init);
      var taken := Ids(Named(base, init));
      var k :| 0 <= k <= |taken| && Pick(base(op), taken) == Candidate(base(op), k);
      CandidateSlugShaped(base(op), k);
    }
  }

  lemma BaseIdSlugShaped(lower: Lower, op: Operation)
    ensures SlugShaped(BaseIds(lower)(op))
  {
    SlugIsSlugShaped(lower, if Truthy(RawId(op)) && RawId(op).Str? then RawId(op).s else op.verb + "_" + op.path);
  }

  lemma {:induction false} NamedPrefix(base: Naming, ops: seq<Operation>, k: nat)
    requires k <= |ops|
    ensures Named(base, ops)[..k] == Named(base, ops[..k])
    decreases |ops| - k
  {
    if k == |ops| {
      assert ops[..k] == ops;
    } else {
      var init := ops[..|ops| - 1];
      assert k <= |init| && init[..k] == ops[..k];
      NamedPrefix(base, init, k);
      assert Named(base, ops)[..k] == Named(base, init)[..k];
    }
  }

  /** The handles of imported endpoints: pairwise distinct, and each a fixed point of `_slug` and
      `_sanitize` without a double underscore. */
  lemma HandleLaws(ops: seq<Operation>, lower: Lower)
    requires LowerFixesPlain(lower)
    ensures var es := Named(BaseIds(lower), ops);
            && DistinctIds(es)
            && (forall e <- es ::
                  && SlugShaped(e.operationId)
                  && Slug(lower, e.operationId) == e.operationId == Sanitize(lower, e.operationId))
  {
    var base := BaseIds(lower);
    var es := Named(base, ops);
    NamedDistinct(base, ops);
    forall op | op in ops ensures SlugShaped(base(op)) { BaseIdSlugShaped(lower, op); }
    NamedSlugShaped(base, ops);
    forall e | e in es ensures Slug(lower, e.operationId) == e.operationId == Sanitize(lower, e.operationId) {
      SlugShapedFixed(lower, e.operationId);
    }
  }

  ghost predicate Describes(e: Endpoint, op: Operation) {
    e.verb == Upper(op.verb) && e.path == op.path && e.body == op.body
  }

  /** Endpoints stand for the operations they were made from, in order. */
  lemma {:induction false} NamedOrder(base: Naming, ops: seq<Operation>, i: nat)
    requires i < |ops|
    ensures Describes(Named(base, ops)[i], ops[i])
  {
    var init := ops[..|ops| - 1];
    if i < |init| {
      NamedOrder(base, init, i);
      assert Named(base, ops)[i] == Named(base, init)[i];
    }
  }

  /** A smaller ceiling gives a prefix of what a larger one gives, and the same total; the flag
      is raised exactly when operations were left out, that is, when they exceed the ceiling. */
  lemma CeilingPrefix(ops: seq<Operation>, small: int, large: int, base: Naming)
    requires small <= large && ImportOps(ops, large, base).Imported?
    ensures var a, b := ImportOps(ops, small, base), ImportOps(ops, large, base);
            && a.Imported? && a.endpoints <= b.endpoints && a.totalDiscovered == b.totalDiscovered == |ops|
            && |a.endpoints| == Kept(|ops|, small)
            && (a.truncated <==> |a.endpoints| < |ops|) && (a.truncated <==> |ops| > small)
  {
    var m, n := Kept(|ops|, small), Kept(|ops|, large);
    assert ops[..n][..m] == ops[..m];
    assert forall op <- ops[..m] :: op in ops[..n];
    NamedPrefix(base, ops[..n], m);
  }

  // ----- the import in terms of the document

  /** The operation is what the path item has under method `b`. */
  ghost predicate UnderMethod(path: string, item: Json, verbs: seq<string>, op: Operation, b: nat) {
    b < |verbs| && op.path == path && op.verb == verbs[b] && op.body.Obj? && Lookup(item, verbs[b]) == Some(op.body)
  }

  /** The operation stands in the document under path `a` and method `b`. */
  ghost predicate AtPlace(paths: seq<Field>, verbs: seq<string>, op: Operation, a: nat, b: nat) {
    a < |paths| && UnderMethod(paths[a].key, paths[a].value, verbs, op, b)
  }

  lemma {:induction false} MethodsInOrder(path: string, item: Json, verbs: seq<string>, i: nat, j: nat)
    returns (b: nat, d: nat)
    requires i <= j < |OperationsOf(path, item, verbs)|
    ensures UnderMethod(path, item, verbs, OperationsOf(path, item, verbs)[i], b)
    ensures UnderMethod(path, item, verbs, OperationsOf(path, item, verbs)[j], d)
    ensures b <= d && (i < j ==> b < d)
  {
    var init := verbs[..|verbs| - 1];
    var n := |OperationsOf(path, item, init)|;
    if j < n {
      b, d := MethodsInOrder(path, item, init, i, j);
    } else {
      b, d := |verbs| - 1, |verbs| - 1;
      if i < n { b, d := MethodsInOrder(path, item, init, i, i); }
      d := |verbs| - 1;
    }
  }

  lemma PlaceInInit(paths: seq<Field>, verbs: seq<string>, op: Operation, a: nat, b: nat)
    requires paths != [] && AtPlace(paths[..|paths| - 1], verbs, op, a, b)
    ensures AtPlace(paths, verbs, op, a, b) && a < |paths| - 1
  {}

  lemma PlaceInLast(paths: seq<Field>, verbs: seq<string>, i: nat, j: nat) returns (b: nat, d: nat)
    requires paths != []
    requires |Operations(paths[..|paths| - 1], verbs)| <= i <= j < |Operations(paths, verbs)|
    ensures AtPlace(paths, verbs, Operations(paths, verbs)[i], |paths| - 1, b)
    ensures AtPlace(paths, verbs, Operations(paths, verbs)[j], |paths| - 1, d)
    ensures i < j ==> b < d
  {
    var last := paths[|paths| - 1];
    var before, here := Operations(paths[..|paths| - 1], verbs), OperationsOf(last.key, last.value, verbs);
    b, d := MethodsInOrder(last.key, last.value, verbs, i - |before|, j - |before|);
    InSecond(before, here, i);
    InSecond(before, here, j);
  }

  lemma InSecond<T>(a: seq<T>, b: seq<T>, i: nat)
    requires |a| <= i < |a + b|
    ensures (a + b)[i] == b[i - |a|]
  {}

  /** Operations come path by path, and within a path method by method, each place at most once. */
  lemma {:induction false} OperationsInOrder(paths: seq<Field>, verbs: seq<string>, i: nat, j: nat)
    returns (a: nat, b: nat, c: nat, d: nat)
    requires i <= j < |Operations(paths, verbs)|
    ensures AtPlace(paths, verbs, Operations(paths, verbs)[i], a, b)
    ensures AtPlace(paths, verbs, Operations(paths, verbs)[j], c, d)
    ensures i < j ==> a < c || (a == c && b < d)
  {
    var init, ops := paths[..|paths| - 1], Operations(paths, verbs);
    var before := Operations(init, verbs);
    if i < |before| {
      a, b, c, d := OperationsInOrder(init, verbs, i, if j < |before| then j else i);
      assert ops[i] == before[i];
      PlaceInInit(paths, verbs, ops[i], a, b);
      if j < |before| {
        assert ops[j] == before[j];
        PlaceInInit(paths, verbs, ops[j], c, d);
      } else {
        c := |paths| - 1;
        var _, e := PlaceInLast(paths, verbs, j, j);
        d := e;
      }
    } else {
      a, c := |paths| - 1, |paths| - 1;
      b, d := PlaceInLast(paths, verbs, i, j);
    }
  }

  lemma {:induction false} MethodListed(path: string, item: Json, verbs: seq<string>, op: Operation, b: nat)
    requires UnderMethod(path, item, verbs, op, b)
    ensures op in OperationsOf(path, item, verbs)
    decreases |verbs|
  {
    if b < |verbs| - 1 { MethodListed(path, item, verbs[..|verbs| - 1], op, b); }
  }

  /** No operation of the document is left out. */
  lemma {:induction false} OperationListed(paths: seq<Field>, verbs: seq<string>, op: Operation, a: nat, b: nat)
    requires AtPlace(paths, verbs, op, a, b)
    ensures op in Operations(paths, verbs)
    decreases |paths|
  {
    var last := paths[|paths| - 1];
    if a < |paths| - 1 {
      OperationListed(paths[..|paths| - 1], verbs, op, a, b);
    } else {
      MethodListed(last.key, last.value, verbs, op, b);
    }
  }

  /** What a handle is made from: a non-empty text `operationId`, else method and path. */
  ghost function StemText(op: Operation): (r: string) {
    match Lookup(op.body, "operationId")
    case Some(Str(s)) => if s != "" then s else op.verb + "_" + op.path
    case _ => op.verb + "_" + op.path
  }

  /** An `operationId` that is neither text nor empty, zero, false or null. */
  ghost predicate IdIsNoText(op: Operation) {
    match Lookup(op.body, "operationId")
    case Some(Bool(b)) => b
    case Some(Number(n)) => n != 0.0
    case Some(Arr(items)) => items != []
    case Some(Obj(fields)) => fields != []
    case _ => false
  }

  ghost predicate Has(es: seq<Endpoint>, id: string) { exists e <- es :: e.operationId == id }

  /** The handle is its stem when no earlier endpoint has it; else the stem with the first number, from
      2 on, that makes it new. */
  ghost predicate HandleFits(stem: string, earlier: seq<Endpoint>, handle: string) {
    && !Has(earlier, handle)
    && (handle == stem <==> !Has(earlier, stem))
    && (handle != stem ==> exists k :: NumberFits(stem, earlier, handle, k))
  }

  ghost predicate NumberFits(stem: string, earlier: seq<Endpoint>, handle: string, k: nat) {
    k >= 2 && handle == stem + "_" + Decimal(k) && forall q :: 2 <= q < k ==> Has(earlier, stem + "_" + Decimal(q))
  }

  lemma PickFits(stem: string, earlier: seq<Endpoint>)
    ensures HandleFits(stem, earlier, Pick(stem, Ids(earlier)))
  {
    var taken, handle := Ids(earlier), Pick(stem, Ids(earlier));
    forall id ensures id in taken <==> Has(earlier, id) {}
    var k :| 0 <= k <= |taken| && handle == Candidate(stem, k) && FirstFree(stem, taken, k);
    assert Candidate(stem, 0) == stem;
    if k > 0 {
      CandidatesDistinct(stem, k);
      forall q | 2 <= q < k + 1 ensures Has(earlier, stem + "_" + Decimal(q)) {
        assert Candidate(stem, q - 1) in taken;
      }
      assert NumberFits(stem, earlier, handle, k + 1);
    }
  }

  lemma CandidatesDistinct(stem: string, k: nat)
    requires k > 0
    ensures Candidate(stem, k) != stem
  {
    assert |Candidate(stem, k)| > |stem|;
  }

  lemma BaseIsStem(lower: Lower, op: Operation)
    requires !BadId(op)
    ensures BaseIds(lower)(op) == Slug(lower, StemText(op))
  {}

  lemma BadIdIsNoText(op: Operation)
    ensures BadId(op) <==> IdIsNoText(op)
  {}

  lemma NamedAt(base: Naming, ops: seq<Operation>, i: nat)
    requires i < |ops|
    ensures Named(base, ops)[i].operationId == Pick(base(ops[i]), Ids(Named(base, ops)[..i]))
  {
    NamedPrefix(base, ops, i + 1);
    NamedPrefix(base, ops, i);
    var upto := ops[..i + 1];
    assert upto[..|upto| - 1] == ops[..i] && upto[|upto| - 1] == ops[i];
    assert Named(base, ops)[i] == Named(base, ops)[..i + 1][i];
  }

  /** What an import has to do with the document's operations. */
  ghost predicate Documents(r: Outcome, ops: seq<Operation>, ceiling: int, lower: Lower) {
    var kept := if ceiling < 0 then 0 else if ceiling < |ops| then ceiling else |ops|;
    && (r == Failed(BadOperationId) <==> exists op <- ops[..kept] :: IdIsNoText(op))
    && (r == Failed(NoOperations) <==> ops == [])
    && r != Failed(NoPaths)
    && (r.Imported? ==>
          && r.totalDiscovered == |ops| && (r.truncated <==> |ops| > ceiling) && |r.endpoints| == kept
          && forall i :: 0 <= i < kept ==>
               && Describes(r.endpoints[i], ops[i])
               && HandleFits(Slug(lower, StemText(ops[i])), r.endpoints[..i], r.endpoints[i].operationId))
  }

  lemma ImportDocuments(ops: seq<Operation>, ceiling: int, lower: Lower)
    ensures Documents(ImportOps(ops, ceiling, BaseIds(lower)), ops, ceiling, lower)
  {
    var base, kept := BaseIds(lower), ops[..Kept(|ops|, ceiling)];
    forall op | op in kept ensures BadId(op) <==> IdIsNoText(op) { BadIdIsNoText(op); }
    if !SomeBad(kept) {
      var es := Named(base, kept);
      forall i | 0 <= i < |kept|
        ensures Describes(es[i], ops[i]) && HandleFits(Slug(lower, StemText(ops[i])), es[..i], es[i].operationId)
      {
        NamedOrder(base, kept, i);
        NamedAt(base, kept, i);
        assert kept[i] in kept && kept[i] == ops[i];
        BaseIsStem(lower, kept[i]);
        PickFits(base(kept[i]), es[..i]);
      }
    }
  }

  /** Endpoints give methods in capitals, 32 code points below. */
  lemma {:induction false} UpperAt(s: string, i: nat)
    requires i < |s|
    ensures |Upper(s)| == |s|
    ensures Upper(s)[i] as int == s[i] as int - if 'a' <= s[i] <= 'z' then 32 else 0
  {
    if |s| > 1 { UpperAt(s[1..], if i == 0 then 0 else i - 1); }
  }

  // ----- the extractor

  /** What the extractor holds: the endpoints, their handles, and how many operations it met. */
  datatype Found = Found(endpoints: seq<Endpoint>, seenIds: set<string>, total: nat, bad: bool)

  /** One more operation: count it, and under the ceiling name it, unless its `operationId` is bad. */
  function Meet(f: Found, op: Operation, ceiling: int, base: Naming): (r: Found) {
    if f.bad then f
    else if |f.endpoints| >= ceiling then f.(total := f.total + 1)
    else if BadId(op) then f.(bad := true)
    else
      var e := NameOf(base, op, f.seenIds);
      Found(f.endpoints + [e], f.seenIds + {e.operationId}, f.total + 1, false)
  }

  function After(ops: seq<Operation>, ceiling: int, base: Naming): (r: Found) {
    if ops == [] then Found([], {}, 0, false)
    else Meet(After(ops[..|ops| - 1], ceiling, base), ops[|ops| - 1], ceiling, base)
  }

  lemma AfterSnoc(ops: seq<Operation>, op: Operation, ceiling: int, base: Naming)
    ensures After(ops + [op], ceiling, base) == Meet(After(ops, ceiling, base), op, ceiling, base)
  {
    assert (ops + [op])[..|ops + [op]| - 1] == ops;
  }

  lemma {:induction false} BadStays(ops: seq<Operation>, more: seq<Operation>, ceiling: int, base: Naming)
    requires After(ops, ceiling, base).bad
    ensures After(ops + more, ceiling, base).bad
    decreases |more|
  {
    if more == [] {
      assert ops + more == ops;
    } else {
      var init, last := more[..|more| - 1], more[|more| - 1];
      BadStays(ops, init, ceiling, base);
      AfterSnoc(ops + init, last, ceiling, base);
      assert ops + more == ops + init + [last];
    }
  }

  lemma CountOnly(done: seq<Operation>, op: Operation, ceiling: int)
    requires Kept(|done|, ceiling) >= ceiling
    ensures (done + [op])[..Kept(|done| + 1, ceiling)] == done[..Kept(|done|, ceiling)]
  {}

  lemma KeepAll(done: seq<Operation>, op: Operation, ceiling: int)
    requires Kept(|done|, ceiling) < ceiling
    ensures done[..Kept(|done|, ceiling)] == done
    ensures (done + [op])[..Kept(|done| + 1, ceiling)] == done + [op]
  {}

  lemma IdsGrow(endpoints: seq<Endpoint>, e: Endpoint)
    ensures Ids(endpoints + [e]) == Ids(endpoints) + {e.operationId}
  {
    forall id | id in Ids(endpoints) + {e.operationId} ensures id in Ids(endpoints + [e]) {
      if id == e.operationId {
        assert e in endpoints + [e];
      } else {
        var x :| x in endpoints && x.operationId == id;
        assert x in endpoints + [e];
      }
    }
  }

  ghost predicate SomeBad(ops: seq<Operation>) { exists op <- ops :: BadId(op) }

  /** What the extractor holds, in terms of the operations it kept. */
  ghost predicate Holds(f: Found, ops: seq<Operation>, ceiling: int, base: Naming) {
    var kept := ops[..Kept(|ops|, ceiling)];
    && f.bad == SomeBad(kept)
    && (!f.bad ==> f == Found(Named(base, kept), Ids(Named(base, kept)), |ops|, false))
  }

  lemma NameNext(f: Found, init: seq<Operation>, op: Operation, ceiling: int, base: Naming)
    requires Holds(f, init, ceiling, base) && Kept(|init|, ceiling) < ceiling
    ensures Holds(Meet(f, op, ceiling, base), init + [op], ceiling, base)
  {
    KeepAll(init, op, ceiling);
    assert forall x :: x in init + [op] <==> x in init || x == op;
    if !f.bad && !BadId(op) {
      NamedSnoc(base, init, op);
      IdsGrow(Named(base, init), NameOf(base, op, Ids(Named(base, init))));
    }
  }

  lemma {:induction false} AfterIsNamed(ops: seq<Operation>, ceiling: int, base: Naming)
    ensures Holds(After(ops, ceiling, base), ops, ceiling, base)
  {
    if ops != [] {
      var init, op := ops[..|ops| - 1], ops[|ops| - 1];
      assert ops == init + [op];
      AfterIsNamed(init, ceiling, base);
      if Kept(|init|, ceiling) >= ceiling {
        CountOnly(init, op, ceiling);
      } else {
        NameNext(After(init, ceiling, base), init, op, ceiling, base);
      }
    }
  }

  lemma {:induction false} NoOperationsIn(path: string, item: Json, verbs: seq<string>)
    requires !item.Obj?
    ensures OperationsOf(path, item, verbs) == []
  {
    if verbs != [] { NoOperationsIn(path, item, verbs[..|verbs| - 1]); }
  }

  lemma {:induction false} MethodsPrefix(path: string, item: Json, verbs: seq<string>, j: nat)
    requires j <= |verbs|
    ensures OperationsOf(path, item, verbs[..j]) <= OperationsOf(path, item, verbs)
  {
    if j < |verbs| {
      MethodsPrefix(path, item, verbs[..|verbs| - 1], j);
      assert verbs[..|verbs| - 1][..j] == verbs[..j];
    } else {
      assert verbs[..j] == verbs;
    }
  }

  lemma {:induction false} PathsPrefix(paths: seq<Field>, verbs: seq<string>, i: nat)
    requires i <= |paths|
    ensures Operations(paths[..i], verbs) <= Operations(paths, verbs)
  {
    if i < |paths| {
      PathsPrefix(paths[..|paths| - 1], verbs, i);
      assert paths[..|paths| - 1][..i] == paths[..i];
    } else {
      assert paths[..i] == paths;
    }
  }

  lemma BadPrefix(part: seq<Operation>, all: seq<Operation>, ceiling: int, base: Naming)
    requires part <= all && After(part, ceiling, base).bad
    ensures After(all, ceiling, base).bad
  {
    BadStays(part, all[|part|..], ceiling, base);
    assert part + all[|part|..] == all;
  }

  method ExtractEndpoints(spec: seq<Field>, ceiling: int, lower: Lower) returns (r: Outcome)
    ensures r == Import(spec, ceiling, lower)
    ensures match Lookup(Obj(spec), "paths")
            case Some(Obj(fields)) =>
              if fields == [] then r == Failed(NoPaths)
              else
                var verbs := ["get", "put", "post", "delete", "patch", "head", "options"];
                Documents(r, Operations(fields, verbs), ceiling, lower)
            case _ => r == Failed(NoPaths)
  {
    var paths := Lookup(Obj(spec), "paths");
    if paths.None? || !paths.value.Obj? || paths.value.fields == [] { return Failed(NoPaths); }
    r := ExtractFrom(paths.value.fields, HTTP_METHODS, ceiling, BaseIds(lower));
    ImportDocuments(Operations(paths.value.fields, HTTP_METHODS), ceiling, lower);
  }

  /** The body of the inner loop, with the collision loop. */
  method MeetByLoop(f: Found, op: Operation, ceiling: int, base: Naming) returns (r: Found)
    requires !f.bad
    ensures r == Meet(f, op, ceiling, base)
  {
    if |f.endpoints| >= ceiling { return f.(total := f.total + 1); }
    if BadId(op) { return f.(bad := true); }
    var candidate, _ := PickByLoop(base(op), f.seenIds);
    var endpoint := Endpoint(candidate, Upper(op.verb), op.path, op.body);
    return Found(f.endpoints + [endpoint], f.seenIds + {candidate}, f.total + 1, false);
  }

  /** The state after the first `j` methods of a path item. */
  ghost function AfterMethods(before: seq<Operation>, path: string, item: Json, verbs: seq<string>, j: nat,
                              ceiling: int, base: Naming): Found
    requires j <= |verbs|
  {
    After(before + OperationsOf(path, item, verbs[..j]), ceiling, base)
  }

  lemma NextMethod(before: seq<Operation>, path: string, item: Json, verbs: seq<string>, j: nat, ceiling: int,
                   base: Naming)
    requires j < |verbs|
    ensures var f, at := AfterMethods(before, path, item, verbs, j, ceiling, base), OperationAt(path, item, verbs[j]);
            && (at == [] ==> AfterMethods(before, path, item, verbs, j + 1, ceiling, base) == f)
            && (at != [] ==>
                  AfterMethods(before, path, item, verbs, j + 1, ceiling, base) == Meet(f, at[0], ceiling, base))
  {
    var here, at := OperationsOf(path, item, verbs[..j]), OperationAt(path, item, verbs[j]);
    OperationsOfNext(path, item, verbs, j);
    assert before + (here + at) == before + here + at;
    if at == [] {
      assert before + here + at == before + here;
    } else {
      AfterSnoc(before + here, at[0], ceiling, base);
    }
  }

  lemma BadMethod(before: seq<Operation>, path: string, item: Json, verbs: seq<string>, j: nat, ceiling: int,
                  base: Naming)
    requires j <= |verbs| && AfterMethods(before, path, item, verbs, j, ceiling, base).bad
    ensures AfterMethods(before, path, item, verbs, |verbs|, ceiling, base).bad
  {
    MethodsPrefix(path, item, verbs, j);
    assert verbs[..|verbs|] == verbs;
    BadPrefix(before + OperationsOf(path, item, verbs[..j]), before + OperationsOf(path, item, verbs), ceiling, base);
  }

  /** The inner loop, over the methods of one path item. */
  method ExtractPath(path: string, item: Json, verbs: seq<string>, f0: Found, ceiling: int, base: Naming,
                     ghost before: seq<Operation>)
    returns (f: Found)
    requires !f0.bad && f0 == AfterMethods(before, path, item, verbs, 0, ceiling, base)
    ensures f.bad == AfterMethods(before, path, item, verbs, |verbs|, ceiling, base).bad
    ensures !f.bad ==> f == AfterMethods(before, path, item, verbs, |verbs|, ceiling, base)
  {
    f := f0;
    for j := 0 to |verbs|
      invariant !f.bad && f == AfterMethods(before, path, item, verbs, j, ceiling, base)
    {
      NextMethod(before, path, item, verbs, j, ceiling, base);
      var operation := Lookup(item, verbs[j]);
      if operation.None? || !operation.value.Obj? { continue; }
      f := MeetByLoop(f, Operation(verbs[j], path, operation.value), ceiling, base);
      if f.bad {
        BadMethod(before, path, item, verbs, j + 1, ceiling, base);
        return;
      }
    }
  }

  /** The outer loop, over the paths. */
  method ExtractFrom(paths: seq<Field>, verbs: seq<string>, ceiling: int, base: Naming) returns (r: Outcome)
    ensures r == ImportOps(Operations(paths, verbs), ceiling, base)
  {
    var f := Found([], {}, 0, false);
    AfterIsNamed(Operations(paths, verbs), ceiling, base);
    for i := 0 to |paths|
      invariant !f.bad && f == After(Operations(paths[..i], verbs), ceiling, base)
    {
      var path, item := paths[i].key, paths[i].value;
      ghost var done, ops := Operations(paths[..i], verbs), OperationsOf(path, item, verbs);
      assert paths[..i + 1][..i] == paths[..i];
      if !item.Obj? {
        NoOperationsIn(path, item, verbs);
        assert done + [] == done;
        continue;
      }
      assert done + OperationsOf(path, item, verbs[..0]) == done && verbs[..|verbs|] == verbs;
      f := ExtractPath(path, item, verbs, f, ceiling, base, done);
      if f.bad {
        PathsPrefix(paths, verbs, i + 1);
        BadPrefix(done + ops, Operations(paths, verbs), ceiling, base);
        return Failed(BadOperationId);
      }
    }
    assert paths[..|paths|] == paths;
    return if f.total == 0 then Failed(NoOperations) else Imported(f.endpoints, f.total, f.total > |f.endpoints|);
  }
}
