/** `_deref`: the depth-limited expansion of local references in possibly cyclic documents. */
module RefExpansion {
  import opened Json
  import opened Text
  import opened JsonPointer

  const MAX_REF_DEPTH := 32

  /** The `$ref` of a node, when it has one that is a string. */
  function RefOf(node: Json): (r: Option<string>) {
    var ref := Lookup(node, "$ref");
    if ref.Some? && ref.value.Str? then Some(ref.value.s) else None
  }

  /** Where a node points: nowhere, to something that does not resolve, or to another node. */
  datatype Link = NoRef | Dangling | Target(node: Json)

  type Linker = Json -> Link

  /** The links of a document. A reference to a `null` member is a dangling one, as both are `None`. */
  function LinksOf(root: Json): (r: Linker) {
    (node: Json) =>
      if RefOf(node).None? then NoRef
      else
        var resolved := ResolveRef(RefOf(node).value, root);
        if resolved == Null then Dangling else Target(resolved)
  }

  /** Where links lead, in terms of the document: a key path from the root decides, and text that is no
      local pointer leads nowhere. */
  lemma LinksLead(root: Json, node: Json)
    ensures (forall ref :: Lookup(node, "$ref") != Some(Str(ref))) ==> LinksOf(root)(node) == NoRef
    ensures forall keys :: keys != [] && Lookup(node, "$ref") == Some(Str(PointerTo(keys))) ==>
              LinksOf(root)(node) == if Walk(root, keys).None? || Walk(root, keys).value == Null then Dangling
                                     else Target(Walk(root, keys).value)
    ensures forall ref :: Lookup(node, "$ref") == Some(Str(ref)) && !("#/" <= ref) ==> LinksOf(root)(node) == Dangling
  {
    forall keys | keys != [] && Lookup(node, "$ref") == Some(Str(PointerTo(keys)))
      ensures ResolveRef(PointerTo(keys), root) == OrNull(Walk(root, keys))
    {
      PointerRoundTrip(keys, root);
    }
    RefIsText(node);
  }

  lemma RefIsText(node: Json)
    ensures RefOf(node).Some? ==> Lookup(node, "$ref") == Some(Str(RefOf(node).value))
  {}

  /** `_deref` with its cut-off and the document's links as parameters. */
  function DerefWithin(limit: nat, link: Linker, node: Json, depth: nat): (r: Json)
    decreases if depth > limit then 0 else limit + 1 - depth
  {
    if depth > limit then Obj([])
    else match link(node)
      case Target(resolved) => DerefWithin(limit, link, resolved, depth + 1)
      case Dangling => Obj([])
      case NoRef =>
        match node
        case Obj(fields) =>
          Obj(seq(|fields|, i requires 0 <= i < |fields| =>
            Field(fields[i].key, DerefWithin(limit, link, fields[i].value, depth + 1))))
        case Arr(items) =>
          Arr(seq(|items|, i requires 0 <= i < |items| => DerefWithin(limit, link, items[i], depth + 1)))
        case _ => node
  }

  function Deref(node: Json, root: Json, depth: nat := 0): (r: Json) {
    DerefWithin(MAX_REF_DEPTH, LinksOf(root), node, depth)
  }

  // ----- one node at a time, in terms of the document

  /** A reference is followed into the document: to the node its key path leads to from the root, or to
      `{}` when the path leads nowhere or to `null`. */
  lemma DerefFollows(node: Json, root: Json, depth: nat, keys: seq<string>)
    requires depth <= 32 && keys != [] && Lookup(node, "$ref") == Some(Str(PointerTo(keys)))
    ensures Deref(node, root, depth)
         == match Walk(root, keys)
            case Some(target) => if target == Null then Obj([]) else Deref(target, root, depth + 1)
            case None => Obj([])
  {
    PointerRoundTrip(keys, root);
  }

  /** A reference that is not local is `{}`. */
  lemma DerefForeign(node: Json, root: Json, depth: nat, ref: string)
    requires depth <= 32 && Lookup(node, "$ref") == Some(Str(ref)) && !("#/" <= ref)
    ensures Deref(node, root, depth) == Obj([])
  {}

  /** Anything else keeps its shape, and its children are expanded one level further down; beyond 32
      levels there is only `{}`. */
  lemma DerefDescends(node: Json, root: Json, depth: nat)
    requires forall ref :: Lookup(node, "$ref") != Some(Str(ref))
    ensures var d := Deref(node, root, depth);
            if depth > 32 then d == Obj([])
            else match node
              case Obj(fields) =>
                && d.Obj? && |d.fields| == |fields|
                && forall i :: 0 <= i < |fields| ==>
                     d.fields[i] == Field(fields[i].key, Deref(fields[i].value, root, depth + 1))
              case Arr(items) =>
                && d.Arr? && |d.items| == |items|
                && forall i :: 0 <= i < |items| ==> d.items[i] == Deref(items[i], root, depth + 1)
              case _ => d == node
  {
    RefIsText(node);
  }

  // ----- the shape of a node, apart from what its children are

  function Children(j: Json): (r: seq<Json>)
    ensures forall c <- r :: c < j
  {
    match j
    case Obj(fields) => seq(|fields|, i requires 0 <= i < |fields| => fields[i].value)
    case Arr(items) => items
    case _ => []
  }

  /** `a` and `b` differ at most in what their children are. */
  ghost predicate SameShell(a: Json, b: Json) {
    if a.Obj? && b.Obj? then
      |a.fields| == |b.fields| && forall i :: 0 <= i < |a.fields| ==> a.fields[i].key == b.fields[i].key
    else if a.Arr? && b.Arr? then |a.items| == |b.items|
    else a == b
  }

  lemma ShellAndChildren(a: Json, b: Json)
    requires SameShell(a, b)
    ensures |Children(a)| == |Children(b)|
    ensures a == b <==> forall i :: 0 <= i < |Children(a)| ==> Children(a)[i] == Children(b)[i]
  {
    if forall i :: 0 <= i < |Children(a)| ==> Children(a)[i] == Children(b)[i] {
      if a.Obj? {
        forall i | 0 <= i < |a.fields| ensures a.fields[i] == b.fields[i] {
          assert Children(a)[i] == Children(b)[i];
        }
        assert a.fields == b.fields;
      } else if a.Arr? {
        forall i | 0 <= i < |a.items| ensures a.items[i] == b.items[i] {
          assert Children(a)[i] == Children(b)[i];
        }
        assert a.items == b.items;
      }
    }
  }

  /** Away from references and above the cut-off, expansion acts on the children alone. */
  lemma DerefShell(limit: nat, link: Linker, node: Json, depth: nat)
    requires depth <= limit && link(node).NoRef?
    ensures var d := DerefWithin(limit, link, node, depth);
            && SameShell(node, d) && |Children(d)| == |Children(node)|
            && forall i :: 0 <= i < |Children(node)| ==>
                 Children(d)[i] == DerefWithin(limit, link, Children(node)[i], depth + 1)
  {}

  /** `j` has at most `n` levels of nesting; a scalar or an empty container is one level. */
  ghost predicate LevelsAtMost(j: Json, n: nat) {
    n > 0 && forall i :: 0 <= i < |Children(j)| ==> LevelsAtMost(Children(j)[i], n - 1)
  }

  lemma {:induction false} LevelsMonotone(j: Json, n: nat)
    requires LevelsAtMost(j, n)
    ensures LevelsAtMost(j, n + 1)
    decreases n
  {
    forall i | 0 <= i < |Children(j)| ensures LevelsAtMost(Children(j)[i], n) {
      LevelsMonotone(Children(j)[i], n - 1);
    }
  }

  lemma {:induction false} DerefLevels(limit: nat, link: Linker, node: Json, depth: nat)
    requires depth <= limit + 1
    ensures LevelsAtMost(DerefWithin(limit, link, node, depth), limit + 2 - depth)
    decreases limit + 1 - depth
  {
    if depth > limit {
    } else if link(node).Target? {
      DerefLevels(limit, link, link(node).node, depth + 1);
      LevelsMonotone(DerefWithin(limit, link, link(node).node, depth + 1), limit + 1 - depth);
    } else if link(node).NoRef? {
      DerefShell(limit, link, node, depth);
      forall i | 0 <= i < |Children(node)|
        ensures LevelsAtMost(Children(DerefWithin(limit, link, node, depth))[i], limit + 1 - depth)
      {
        DerefLevels(limit, link, Children(node)[i], depth + 1);
      }
    }
  }

  // ----- no reference survives

  ghost predicate HasRef(j: Json) { j.Obj? && exists f <- j.fields :: f.key == "$ref" }

  /** No object in `j` has a member named `$ref`. */
  ghost predicate RefFree(j: Json) {
    !HasRef(j) && forall i :: 0 <= i < |Children(j)| ==> RefFree(Children(j)[i])
  }

  ghost predicate StringRef(j: Json) {
    j.Obj? ==> forall f <- j.fields :: f.key == "$ref" ==> f.value.Str?
  }

  /** Every member of `j` named `$ref` is a string. */
  ghost predicate RefsAreStrings(j: Json) {
    StringRef(j) && forall i :: 0 <= i < |Children(j)| ==> RefsAreStrings(Children(j)[i])
  }

  lemma {:induction false} WalkKeepsStringRefs(node: Json, path: seq<string>)
    requires RefsAreStrings(node)
    ensures Walk(node, path).Some? ==> RefsAreStrings(Walk(node, path).value)
    decreases |path|
  {
    if path != [] && Lookup(node, path[0]).Some? {
      var next := Lookup(node, path[0]).value;
      var i :| 0 <= i < |node.fields| && node.fields[i].value == next;
      assert Children(node)[i] == next;
      WalkKeepsStringRefs(next, path[1..]);
    }
  }

  lemma ResolveKeepsStringRefs(ref: string, root: Json)
    requires RefsAreStrings(root)
    ensures RefsAreStrings(ResolveRef(ref, root))
  {
    if "#/" <= ref { WalkKeepsStringRefs(root, UnescapeAll(Split(ref[2..], "/"))); }
  }

  lemma ShellKeepsKeys(node: Json, d: Json)
    requires SameShell(node, d) && !HasRef(node)
    ensures !HasRef(d)
  {
    if node.Obj? && d.Obj? {
      assert forall i :: 0 <= i < |d.fields| ==> d.fields[i].key == node.fields[i].key && node.fields[i] in node.fields;
    }
  }

  /** In a document whose references are strings, links lead to such nodes, and a node without
      a link has no member named `$ref`. */
  ghost predicate CleanLinks(link: Linker) {
    forall x :: RefsAreStrings(x) ==>
      match link(x)
      case NoRef => !HasRef(x)
      case Dangling => true
      case Target(y) => RefsAreStrings(y)
  }

  lemma StringRefsGiveCleanLinks(root: Json)
    requires RefsAreStrings(root)
    ensures CleanLinks(LinksOf(root))
  {
    forall x | RefsAreStrings(x)
      ensures LinksOf(root)(x).NoRef? ==> !HasRef(x)
      ensures LinksOf(root)(x).Target? ==> RefsAreStrings(LinksOf(root)(x).node)
    {
      if RefOf(x).Some? { ResolveKeepsStringRefs(RefOf(x).value, root); }
    }
  }

  lemma {:induction false} DerefRefFree(limit: nat, link: Linker, node: Json, depth: nat)
    requires RefsAreStrings(node) && CleanLinks(link)
    ensures RefFree(DerefWithin(limit, link, node, depth))
    decreases if depth > limit then 0 else limit + 1 - depth
  {
    if depth > limit {
    } else if link(node).Target? {
      DerefRefFree(limit, link, link(node).node, depth + 1);
    } else if link(node).NoRef? {
      DerefShell(limit, link, node, depth);
      var d := DerefWithin(limit, link, node, depth);
      ShellKeepsKeys(node, d);
      forall i | 0 <= i < |Children(d)| ensures RefFree(Children(d)[i]) {
        DerefRefFree(limit, link, Children(node)[i], depth + 1);
      }
    }
  }

  // ----- agreement with the unbounded expansion

  /** `r` is what `node` means when every local reference is followed, however far, and the longest
      chain of nesting and reference hops is at most `n`. */
  ghost predicate Unfolds(link: Linker, node: Json, r: Json, n: nat)
    decreases n
  {
    match link(node)
    case Target(resolved) => n > 0 && Unfolds(link, resolved, r, n - 1)
    case Dangling => r == Obj([])
    case NoRef =>
      && SameShell(node, r) && |Children(r)| == |Children(node)|
      && forall i :: 0 <= i < |Children(node)| ==>
           n > 0 && Unfolds(link, Children(node)[i], Children(r)[i], n - 1)
  }

  /** Within the cut-off, expansion is exact. */
  lemma {:induction false} DerefExact(limit: nat, link: Linker, node: Json, depth: nat, r: Json, n: nat)
    requires Unfolds(link, node, r, n) && depth + n <= limit
    ensures DerefWithin(limit, link, node, depth) == r
    decreases n
  {
    if link(node).Target? {
      DerefExact(limit, link, link(node).node, depth + 1, r, n - 1);
    } else if link(node).NoRef? {
      DerefShell(limit, link, node, depth);
      var d := DerefWithin(limit, link, node, depth);
      forall i | 0 <= i < |Children(node)| ensures Children(d)[i] == Children(r)[i] {
        DerefExact(limit, link, Children(node)[i], depth + 1, Children(r)[i], n - 1);
      }
      ShellAndChildren(d, r);
    }
  }

  /** A node has at most one unbounded expansion. */
  lemma UnfoldsOnce(link: Linker, node: Json, r: Json, n: nat, r': Json, n': nat)
    requires Unfolds(link, node, r, n) && Unfolds(link, node, r', n')
    ensures r == r'
  {
    DerefExact(n + n', link, node, 0, r, n);
    DerefExact(n + n', link, node, 0, r', n');
  }

  /** Everything the cut-off replaces by `{}` would have expanded to `{}` anyway. */
  ghost predicate CutIsHarmless(limit: nat, link: Linker, node: Json, depth: nat)
    decreases if depth > limit then 0 else limit + 1 - depth
  {
    if depth > limit then exists n :: Unfolds(link, node, Obj([]), n)
    else match link(node)
      case Target(resolved) => CutIsHarmless(limit, link, resolved, depth + 1)
      case Dangling => true
      case NoRef => forall i :: 0 <= i < |Children(node)| ==> CutIsHarmless(limit, link, Children(node)[i], depth + 1)
  }

  lemma AtTheCut(limit: nat, link: Linker, node: Json, depth: nat, r: Json, n: nat)
    requires Unfolds(link, node, r, n) && depth > limit
    ensures r == Obj([]) <==> CutIsHarmless(limit, link, node, depth)
  {
    if CutIsHarmless(limit, link, node, depth) {
      var k :| Unfolds(link, node, Obj([]), k);
      UnfoldsOnce(link, node, r, n, Obj([]), k);
    }
  }

  lemma AboveTheCut(limit: nat, link: Linker, node: Json, depth: nat, r: Json)
    requires depth <= limit && link(node).NoRef?
    requires SameShell(node, r) && |Children(r)| == |Children(node)|
    requires forall i :: 0 <= i < |Children(node)| ==>
               (DerefWithin(limit, link, Children(node)[i], depth + 1) == Children(r)[i]
                <==> CutIsHarmless(limit, link, Children(node)[i], depth + 1))
    ensures DerefWithin(limit, link, node, depth) == r <==> CutIsHarmless(limit, link, node, depth)
  {
    DerefShell(limit, link, node, depth);
    ShellAndChildren(DerefWithin(limit, link, node, depth), r);
  }

  /** Exactly when the cut-off result is the unbounded expansion. */
  lemma {:induction false} DerefExactWhen(limit: nat, link: Linker, node: Json, depth: nat, r: Json, n: nat)
    requires Unfolds(link, node, r, n)
    ensures DerefWithin(limit, link, node, depth) == r <==> CutIsHarmless(limit, link, node, depth)
    decreases n
  {
    if depth > limit {
      AtTheCut(limit, link, node, depth, r, n);
    } else if link(node).Target? {
      DerefExactWhen(limit, link, link(node).node, depth + 1, r, n - 1);
    } else if link(node).NoRef? {
      forall i | 0 <= i < |Children(node)|
        ensures DerefWithin(limit, link, Children(node)[i], depth + 1) == Children(r)[i]
           <==> CutIsHarmless(limit, link, Children(node)[i], depth + 1)
      {
        DerefExactWhen(limit, link, Children(node)[i], depth + 1, Children(r)[i], n - 1);
      }
      AboveTheCut(limit, link, node, depth, r);
    }
  }

  // ----- beyond the cut-off

  /** `a` is `b` with some subtrees replaced by `{}`. */
  ghost predicate Approximates(a: Json, b: Json) {
    || a == Obj([])
    || (&& SameShell(a, b) && |Children(a)| == |Children(b)|
        && forall i :: 0 <= i < |Children(a)| ==> Approximates(Children(a)[i], Children(b)[i]))
  }

  /** Raising the cut-off only fills in `{}`s: nothing already shown changes. */
  lemma {:induction false} DerefApproximates(limit: nat, limit': nat, link: Linker, node: Json, depth: nat)
    requires limit <= limit'
    ensures Approximates(DerefWithin(limit, link, node, depth), DerefWithin(limit', link, node, depth))
    decreases if depth > limit then 0 else limit + 1 - depth
  {
    if depth > limit {
    } else if link(node).Target? {
      DerefApproximates(limit, limit', link, link(node).node, depth + 1);
    } else if link(node).NoRef? {
      DerefShell(limit, link, node, depth);
      DerefShell(limit', link, node, depth);
      var a, b := DerefWithin(limit, link, node, depth), DerefWithin(limit', link, node, depth);
      forall i | 0 <= i < |Children(a)| ensures Approximates(Children(a)[i], Children(b)[i]) {
        DerefApproximates(limit, limit', link, Children(node)[i], depth + 1);
      }
    }
  }

  /** One step down the unbounded expansion: into a member, or through a reference. */
  ghost predicate StepsTo(link: Linker, node: Json, next: Json) {
    match link(node)
    case Target(resolved) => next == resolved
    case Dangling => false
    case NoRef => next in Children(node)
  }

  /** `node` has an unbounded expansion reaching at most `n` deep. */
  ghost predicate Finite(link: Linker, node: Json, n: nat) { exists r :: Unfolds(link, node, r, n) }

  lemma StepShrinks(link: Linker, node: Json, next: Json, n: nat)
    requires StepsTo(link, node, next) && Finite(link, node, n)
    ensures n > 0 && Finite(link, next, n - 1)
  {
    var r :| Unfolds(link, node, r, n);
    if link(node).Target? {
      assert Unfolds(link, next, r, n - 1);
    } else {
      var i :| 0 <= i < |Children(node)| && Children(node)[i] == next;
      assert Unfolds(link, next, Children(r)[i], n - 1);
    }
  }

  ghost predicate Chain(link: Linker, chain: seq<Json>) {
    forall i :: 0 < i < |chain| ==> StepsTo(link, chain[i - 1], chain[i])
  }

  lemma {:induction false} ChainShrinks(link: Linker, chain: seq<Json>, n: nat)
    requires chain != [] && Chain(link, chain) && Finite(link, chain[0], n)
    ensures n >= |chain| - 1 && Finite(link, chain[|chain| - 1], n + 1 - |chain|)
  {
    if |chain| > 1 {
      assert StepsTo(link, chain[0], chain[1]);
      StepShrinks(link, chain[0], chain[1], n);
      ChainShrinks(link, chain[1..], n - 1);
    }
  }

  /** A node that leads back to itself has no unbounded expansion at all, although `_deref` ends. */
  lemma {:induction false} CycleNeverUnfolds(link: Linker, chain: seq<Json>, n: nat)
    requires |chain| > 1 && chain[0] == chain[|chain| - 1] && Chain(link, chain)
    ensures !Finite(link, chain[0], n)
    decreases n
  {
    if Finite(link, chain[0], n) {
      ChainShrinks(link, chain, n);
      CycleNeverUnfolds(link, chain, n + 1 - |chain|);
    }
  }

  /** What `_deref` returns has at most 34 levels counted from the top, for every document. */
  lemma DerefIsShallow(node: Json, root: Json, depth: nat)
    requires depth <= MAX_REF_DEPTH + 1
    ensures LevelsAtMost(Deref(node, root, depth), 34 - depth)
  {
    DerefLevels(MAX_REF_DEPTH, LinksOf(root), node, depth);
  }

  /** When every `$ref` in the document is a string, none is left. */
  lemma DerefLeavesNoRef(node: Json, root: Json, depth: nat)
    requires RefsAreStrings(node) && RefsAreStrings(root)
    ensures RefFree(Deref(node, root, depth))
  {
    StringRefsGiveCleanLinks(root);
    DerefRefFree(MAX_REF_DEPTH, LinksOf(root), node, depth);
  }

  /** When the unbounded expansion exists, `_deref` agrees with it up to subtrees cut to `{}`,
      entirely when nesting and hops stay within 32, and otherwise exactly when the cuts are harmless. */
  lemma DerefAgrees(node: Json, root: Json, depth: nat, r: Json, n: nat)
    requires Unfolds(LinksOf(root), node, r, n)
    ensures depth + n <= 32 ==> Deref(node, root, depth) == r
    ensures Deref(node, root, depth) == r <==> CutIsHarmless(32, LinksOf(root), node, depth)
    ensures Approximates(Deref(node, root, depth), r)
  {
    var limit, link := MAX_REF_DEPTH, LinksOf(root);
    if depth + n <= limit { DerefExact(limit, link, node, depth, r, n); }
    DerefExactWhen(limit, link, node, depth, r, n);
    var enough := limit + depth + n;
    DerefExact(enough, link, node, depth, r, n);
    DerefApproximates(limit, enough, link, node, depth);
  }
}
