/** The `redact_fields` response rule: removing dotted paths from a JSON object. */
module FieldRedaction {
  import opened Json
  import opened Text

  type Path = seq<string>

  /** `field_path.split(".")`. */
  function PathOf(fieldPath: string): (r: Path)
    ensures r != []
  {
    Split(fieldPath, ".")
  }

  /** A field is named by its keys joined by dots. */
  lemma DottedPath(keys: Path)
    requires keys != [] && forall k <- keys :: '.' !in k
    ensures PathOf(Join(keys, ".")) == keys
  {
    SplitJoin(keys, '.');
  }

  function Drop(fields: seq<Field>, key: string): (r: seq<Field>) {
    if fields == [] then []
    else (if fields[0].key == key then [] else [fields[0]]) + Drop(fields[1..], key)
  }

  /** `_redact_field`. */
  function Redact(data: Json, path: Path): (r: Json)
    decreases data
  {
    if path == [] || !data.Obj? then data
    else if |path| == 1 then Obj(Drop(data.fields, path[0]))
    else Obj(RedactIn(data.fields, path))
  }

  function RedactIn(fields: seq<Field>, path: Path): (r: seq<Field>)
    requires path != []
    decreases fields
  {
    if fields == [] then []
    else [if fields[0].key == path[0] then Field(fields[0].key, Redact(fields[0].value, path[1..])) else fields[0]]
         + RedactIn(fields[1..], path)
  }

  function RedactAll(data: Json, paths: seq<Path>): (r: Json)
    decreases |paths|
  {
    if paths == [] then data else RedactAll(Redact(data, paths[0]), paths[1..])
  }

  // ----- the reference: remove a set of paths at once

  /** What is left of the paths in `ps` after a first step `key`. */
  ghost function Below(ps: set<Path>, key: string): set<Path> {
    set p | p in ps && p != [] && p[0] == key :: p[1..]
  }

  /** `data` without the nodes at the paths in `ps`. */
  ghost function Prune(data: Json, ps: set<Path>): Json
    decreases data
  {
    if data.Obj? then Obj(PruneIn(data.fields, ps)) else data
  }

  ghost function PruneIn(fields: seq<Field>, ps: set<Path>): seq<Field>
    decreases fields
  {
    if fields == [] then []
    else
      var f := fields[0];
      (if [f.key] in ps then [] else [Field(f.key, Prune(f.value, Below(ps, f.key)))]) + PruneIn(fields[1..], ps)
  }

  lemma {:induction false} PruneNothing(data: Json)
    ensures Prune(data, {}) == data
    decreases data
  {
    if data.Obj? { PruneNothingIn(data.fields); }
  }

  lemma {:induction false} PruneNothingIn(fields: seq<Field>)
    ensures PruneIn(fields, {}) == fields
    decreases fields
  {
    if fields != [] {
      PruneNothing(fields[0].value);
      assert Below({}, fields[0].key) == {};
      PruneNothingIn(fields[1..]);
    }
  }

  lemma BelowOther(ps: set<Path>, p: Path, key: string)
    requires p != [] && p[0] != key
    ensures Below(ps + {p}, key) == Below(ps, key)
  {}

  lemma BelowSame(ps: set<Path>, p: Path)
    requires p != []
    ensures Below(ps + {p}, p[0]) == Below(ps, p[0]) + {p[1..]}
  {
    var lhs, rhs := Below(ps + {p}, p[0]), Below(ps, p[0]) + {p[1..]};
    assert p in ps + {p};
    assert p[1..] in lhs;
    forall q | q in Below(ps, p[0]) ensures q in lhs {
      var x :| x in ps && x != [] && x[0] == p[0] && x[1..] == q;
      assert x in ps + {p};
    }
  }

  /** Redacting one path first is pruning one path more. */
  lemma {:induction false} PruneAfterRedact(data: Json, p: Path, ps: set<Path>)
    ensures Prune(Redact(data, p), ps) == Prune(data, ps + {p})
    decreases data
  {
    if !data.Obj? {
    } else if p == [] {
      EmptyPathIgnoredIn(data.fields, ps);
    } else if |p| == 1 {
      PruneAfterDrop(data.fields, p, ps);
    } else {
      PruneAfterRedactIn(data.fields, p, ps);
    }
  }

  lemma {:induction false} EmptyPathIgnoredIn(fields: seq<Field>, ps: set<Path>)
    ensures PruneIn(fields, ps + {[]}) == PruneIn(fields, ps)
  {
    if fields != [] {
      assert Below(ps + {[]}, fields[0].key) == Below(ps, fields[0].key);
      EmptyPathIgnoredIn(fields[1..], ps);
    }
  }

  lemma {:induction false} PruneAfterDrop(fields: seq<Field>, p: Path, ps: set<Path>)
    requires |p| == 1
    ensures PruneIn(Drop(fields, p[0]), ps) == PruneIn(fields, ps + {p})
  {
    if fields != [] {
      var f, rest := fields[0], fields[1..];
      PruneAfterDrop(rest, p, ps);
      assert p == [p[0]];
      if f.key == p[0] {
        assert [] + Drop(rest, p[0]) == Drop(rest, p[0]);
      } else {
        BelowOther(ps, p, f.key);
        assert ([f] + Drop(rest, p[0]))[1..] == Drop(rest, p[0]);
        assert [f.key] != p;
      }
    }
  }

  lemma {:induction false} PruneAfterRedactIn(fields: seq<Field>, p: Path, ps: set<Path>)
    requires |p| > 1
    ensures PruneIn(RedactIn(fields, p), ps) == PruneIn(fields, ps + {p})
    decreases fields
  {
    if fields != [] {
      var f, rest := fields[0], fields[1..];
      PruneAfterRedactIn(rest, p, ps);
      var g := RedactIn(fields, p)[0];
      assert RedactIn(fields, p)[1..] == RedactIn(rest, p);
      assert [f.key] != p;
      if f.key == p[0] {
        BelowSame(ps, p);
        PruneAfterRedact(f.value, p[1..], Below(ps, f.key));
      } else {
        BelowOther(ps, p, f.key);
      }
    }
  }

  ghost function PathSet(paths: seq<Path>): set<Path> { set p | p in paths }

  /** Redacting a list of paths one by one removes the set of them. */
  lemma {:induction false} RedactAllIsPrune(data: Json, paths: seq<Path>)
    ensures RedactAll(data, paths) == Prune(data, PathSet(paths))
    decreases |paths|
  {
    if paths == [] {
      assert PathSet(paths) == {};
      PruneNothing(data);
    } else {
      RedactAllIsPrune(Redact(data, paths[0]), paths[1..]);
      PruneAfterRedact(data, paths[0], PathSet(paths[1..]));
      assert paths == [paths[0]] + paths[1..];
      assert PathSet(paths[1..]) + {paths[0]} == PathSet(paths);
    }
  }

  /** The order and the repetition of fields do not matter. */
  lemma RedactionIsOrderless(data: Json, paths: seq<Path>, paths': seq<Path>)
    requires PathSet(paths) == PathSet(paths')
    ensures RedactAll(data, paths) == RedactAll(data, paths')
  {
    RedactAllIsPrune(data, paths);
    RedactAllIsPrune(data, paths');
  }

  lemma {:induction false} RedactAllConcat(data: Json, a: seq<Path>, b: seq<Path>)
    ensures RedactAll(data, a + b) == RedactAll(RedactAll(data, a), b)
    decreases |a|
  {
    if a == [] {
      assert a + b == b;
    } else {
      RedactAllConcat(Redact(data, a[0]), a[1..], b);
      assert (a + b)[1..] == a[1..] + b;
    }
  }

  lemma RedactionIsIdempotent(data: Json, paths: seq<Path>)
    ensures RedactAll(RedactAll(data, paths), paths) == RedactAll(data, paths)
  {
    RedactAllConcat(data, paths, paths);
    RedactionIsOrderless(data, paths + paths, paths);
  }

  // ----- what can still be reached

  ghost predicate Covered(q: Path, ps: set<Path>) { exists i :: 0 < i <= |q| && q[..i] in ps }

  /** The paths of `ps` that go on from `q`. */
  ghost function Under(ps: set<Path>, q: Path): set<Path>
    decreases |q|
  {
    if q == [] then ps else Under(Below(ps, q[0]), q[1..])
  }

  lemma GetCons(f: Field, rest: seq<Field>, key: string)
    ensures Get([f] + rest, key) == if f.key == key then Some(f.value) else Get(rest, key)
  {
    assert ([f] + rest)[1..] == rest;
  }

  lemma {:induction false} PruneLookup(fields: seq<Field>, ps: set<Path>, key: string)
    ensures var got := Get(fields, key);
            Get(PruneIn(fields, ps), key)
            == if got.None? || [key] in ps then None else Some(Prune(got.value, Below(ps, key)))
  {
    if fields != [] {
      var f, rest := fields[0], fields[1..];
      PruneLookup(rest, ps, key);
      if [f.key] in ps {
        assert PruneIn(fields, ps) == PruneIn(rest, ps);
      } else {
        var kept := Field(f.key, Prune(f.value, Below(ps, f.key)));
        assert PruneIn(fields, ps) == [kept] + PruneIn(rest, ps);
        GetCons(kept, PruneIn(rest, ps), key);
      }
    }
  }

  lemma CoveredByFirst(q: Path, ps: set<Path>)
    requires q != []
    ensures Covered(q, ps) <==> [q[0]] in ps || Covered(q[1..], Below(ps, q[0]))
  {
    var below := Below(ps, q[0]);
    assert q[..1] == [q[0]];
    if Covered(q, ps) {
      var i :| 0 < i <= |q| && q[..i] in ps;
      if i > 1 {
        assert q[..i][1..] == q[1..][..i - 1];
        assert q[1..][..i - 1] in below;
      }
    }
    if Covered(q[1..], below) {
      var i :| 0 < i <= |q[1..]| && q[1..][..i] in below;
      var p :| p in ps && p != [] && p[0] == q[0] && p[1..] == q[1..][..i];
      assert p == [q[0]] + p[1..] == q[..i + 1];
    }
  }

  /** Following any path `q` in the pruned document: nothing when a removed path covers `q`, else
      the original node without the removed paths that go on from there. */
  lemma {:induction false} PruneWalk(data: Json, ps: set<Path>, q: Path)
    ensures var was := Walk(data, q);
            Walk(Prune(data, ps), q)
            == if was.None? || Covered(q, ps) then None else Some(Prune(was.value, Under(ps, q)))
    decreases |q|
  {
    if q != [] {
      CoveredByFirst(q, ps);
      if data.Obj? {
        PruneLookup(data.fields, ps, q[0]);
        var next := Get(data.fields, q[0]);
        if next.Some? && [q[0]] !in ps { PruneWalk(next.value, Below(ps, q[0]), q[1..]); }
      }
    }
  }

  /** After redaction none of the listed paths resolves, and at a path no listed one covers, scalars
      and arrays are what they were, objects are still objects, and nothing appears. */
  lemma RedactionLaw(data: Json, paths: seq<Path>, q: Path)
    ensures q in paths && q != [] ==> Walk(RedactAll(data, paths), q) == None
    ensures !Covered(q, PathSet(paths)) ==>
              var was, now := Walk(data, q), Walk(RedactAll(data, paths), q);
              && was.None? == now.None?
              && (was.Some? && !was.value.Obj? ==> now == was)
              && (was.Some? && was.value.Obj? ==> now.value.Obj?)
  {
    RedactAllIsPrune(data, paths);
    PruneWalk(data, PathSet(paths), q);
    if q in paths && q != [] { assert q[..|q|] == q; }
  }
}
