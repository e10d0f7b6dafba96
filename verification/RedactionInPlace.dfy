/** `_redact_field` as it runs: keys are popped from nested dictionaries in place. */
module RedactionInPlace {
  import opened Json
  import opened FieldRedaction

  /** What a key holds: another dictionary, or a scalar or array, which redaction never enters. */
  datatype Cell = Leaf(j: Json) | Sub(d: Dict)

  datatype Entry = Entry(key: string, cell: Cell)

  class Dict {
    var entries: seq<Entry>
    ghost var Repr: set<Dict>

    /** A tree of dictionaries: distinct keys, and children that share nothing. */
    ghost predicate Valid()
      reads this, Repr
      decreases Repr
    {
      && this in Repr
      && (forall i, j :: 0 <= i < j < |entries| ==> entries[i].key != entries[j].key)
      && (forall i :: 0 <= i < |entries| && entries[i].cell.Leaf? ==> !entries[i].cell.j.Obj?)
      && (forall i :: 0 <= i < |entries| && entries[i].cell.Sub? ==>
            && entries[i].cell.d in Repr && entries[i].cell.d.Repr <= Repr - {this}
            && entries[i].cell.d.Valid())
      && (forall i, j :: 0 <= i < j < |entries| && entries[i].cell.Sub? && entries[j].cell.Sub? ==>
            entries[i].cell.d.Repr !! entries[j].cell.d.Repr)
    }

    ghost function ValueAt(i: nat): Json
      requires Valid() && i < |entries|
      reads this, Repr
      decreases Repr, 0
    {
      match entries[i].cell
      case Leaf(j) => j
      case Sub(d) => d.Value()
    }

    /** The JSON object the tree stands for. */
    ghost function Value(): Json
      requires Valid()
      reads this, Repr
      decreases Repr, 1
    {
      Obj(seq(|entries|, i requires 0 <= i < |entries| reads this, Repr requires Valid() =>
        Field(entries[i].key, ValueAt(i))))
    }

    /** Where a key stands, or the number of entries. */
    method Find(key: string) returns (i: nat)
      requires Valid()
      ensures i <= |entries| && (i < |entries| ==> entries[i].key == key)
      ensures i == |entries| ==> forall k :: 0 <= k < |entries| ==> entries[k].key != key
    {
      i := 0;
      while i < |entries|
        invariant i <= |entries| && forall k :: 0 <= k < i ==> entries[k].key != key
      {
        if entries[i].key == key { return; }
        i := i + 1;
      }
    }

    method RedactField(path: Path)
      requires Valid()
      modifies Repr
      ensures Valid() && Repr == old(Repr)
      ensures Value() == Redact(old(Value()), path)
      decreases |path|
    {
      if path == [] { return; }
      var i := Find(path[0]);
      if |path| == 1 {
        Pop(path[0], i);
      } else if i < |entries| && entries[i].cell.Sub? {
        Enter(path, i);
      } else {
        assert forall k :: 0 <= k < |entries| && entries[k].key == path[0] ==> k == i;
        NothingToEnter(path);
      }
    }

    lemma NothingToEnter(path: Path)
      requires Valid() && |path| > 1
      requires forall k :: 0 <= k < |entries| && entries[k].key == path[0] ==> entries[k].cell.Leaf?
      ensures Redact(Value(), path) == Value()
    {
      var fields := Value().fields;
      assert forall k :: 0 <= k < |fields| ==> fields[k] == Field(entries[k].key, ValueAt(k));
      NothingBelow(fields, path);
    }

    /** Taking out the entry at `i` leaves a tree whose value lacks just that field. */
    twostate lemma Removed(i: nat)
      requires old(Valid()) && i < |old(entries)| && Repr == old(Repr)
      requires entries == old(entries)[..i] + old(entries)[i + 1..]
      requires forall d: Dict :: d in Repr && d != this ==> unchanged(d)
      ensures Valid()
      ensures |Value().fields| == |old(entries)| - 1
      ensures forall k :: 0 <= k < |entries| ==>
                Value().fields[k] == old(Value()).fields[if k < i then k else k + 1]
    {
      forall k | 0 <= k < |entries| ensures entries[k] == old(entries)[if k < i then k else k + 1] {}
    }

    method Pop(key: string, i: nat)
      requires Valid() && i <= |entries|
      requires i < |entries| ==> entries[i].key == key
      requires i == |entries| ==> forall k :: 0 <= k < |entries| ==> entries[k].key != key
      modifies this`entries
      ensures Valid()
      ensures Value() == Obj(Drop(old(Value()).fields, key))
    {
      ghost var was := Value().fields;
      if i == |entries| {
        DropAbsent(was, key);
      } else {
        DropAt(was, key, i);
        entries := entries[..i] + entries[i + 1..];
        Removed(i);
        assert Value().fields == was[..i] + was[i + 1..];
      }
    }

    twostate lemma EnteredValid(i: nat)
      requires old(Valid()) && i < |old(entries)| && old(entries[i].cell.Sub?)
      requires unchanged(this)
      requires var d := old(entries[i].cell.d);
               d.Repr == old(d.Repr) && d.Valid() && forall x: Dict :: x in Repr && x !in old(d.Repr) ==> unchanged(x)
      ensures Valid()
    {}

    /** Redacting inside the dictionary at `i` changes only that field's value. */
    twostate lemma Entered(i: nat)
      requires old(Valid()) && i < |old(entries)| && old(entries[i].cell.Sub?)
      requires unchanged(this)
      requires var d := old(entries[i].cell.d);
               d.Repr == old(d.Repr) && d.Valid() && forall x: Dict :: x in Repr && x !in old(d.Repr) ==> unchanged(x)
      ensures Valid() && |Value().fields| == |old(Value()).fields|
      ensures Value().fields[i] == Field(entries[i].key, entries[i].cell.d.Value())
      ensures forall k :: 0 <= k < |entries| && k != i ==> Value().fields[k] == old(Value()).fields[k]
    {
      EnteredValid(i);
    }

    method Enter(path: Path, i: nat)
      requires Valid() && i < |entries| && |path| > 1 && entries[i].key == path[0] && entries[i].cell.Sub?
      modifies Repr
      ensures Valid() && Repr == old(Repr)
      ensures Value() == Obj(RedactIn(old(Value()).fields, path))
      decreases |path|, 0
    {
      ghost var was := Value().fields;
      RedactOneAt(was, path, i);
      entries[i].cell.d.RedactField(path[1..]);
      Entered(i);
      assert Value().fields == was[i := Field(was[i].key, Redact(was[i].value, path[1..]))];
    }
  }

  /** The loop of the `redact_fields` rule over its dotted fields. */
  method RedactFields(data: Dict, fields: seq<string>)
    requires data.Valid()
    modifies data.Repr
    ensures data.Valid() && data.Repr == old(data.Repr)
    ensures data.Value() == Prune(old(data.Value()), set f | f in fields :: PathOf(f))
    ensures forall f <- fields :: Walk(data.Value(), PathOf(f)) == None
  {
    ghost var was := data.Value();
    ghost var paths: seq<Path> := [];
    for i := 0 to |fields|
      invariant data.Valid() && data.Repr == old(data.Repr)
      invariant |paths| == i && forall k :: 0 <= k < i ==> paths[k] == PathOf(fields[k])
      invariant data.Value() == RedactAll(was, paths)
    {
      RedactAllConcat(was, paths, [PathOf(fields[i])]);
      data.RedactField(PathOf(fields[i]));
      paths := paths + [PathOf(fields[i])];
    }
    ListedPathsGone(was, fields, paths);
  }

  lemma ListedPathsGone(was: Json, fields: seq<string>, paths: seq<Path>)
    requires |paths| == |fields| && forall k :: 0 <= k < |fields| ==> paths[k] == PathOf(fields[k])
    ensures RedactAll(was, paths) == Prune(was, set f | f in fields :: PathOf(f))
    ensures forall f <- fields :: Walk(RedactAll(was, paths), PathOf(f)) == None
  {
    RedactAllIsPrune(was, paths);
    assert PathSet(paths) == set f | f in fields :: PathOf(f);
    forall f | f in fields ensures Walk(RedactAll(was, paths), PathOf(f)) == None {
      assert PathOf(f) in PathSet(paths);
      RedactionLaw(was, paths, PathOf(f));
    }
  }

  ghost predicate DistinctKeys(fields: seq<Field>) {
    forall i, j :: 0 <= i < j < |fields| ==> fields[i].key != fields[j].key
  }

  lemma {:induction false} DropAbsent(fields: seq<Field>, key: string)
    requires forall k :: 0 <= k < |fields| ==> fields[k].key != key
    ensures Drop(fields, key) == fields
  {
    if fields != [] { DropAbsent(fields[1..], key); }
  }

  lemma {:induction false} DropAt(fields: seq<Field>, key: string, i: nat)
    requires DistinctKeys(fields) && i < |fields| && fields[i].key == key
    ensures Drop(fields, key) == fields[..i] + fields[i + 1..]
  {
    if i == 0 {
      DropAbsent(fields[1..], key);
    } else {
      DropAt(fields[1..], key, i - 1);
      assert fields[..i] == [fields[0]] + fields[1..][..i - 1];
      assert fields[1..][i..] == fields[i + 1..];
    }
  }

  lemma {:induction false} NothingBelow(fields: seq<Field>, path: Path)
    requires |path| > 1
    requires forall k :: 0 <= k < |fields| && fields[k].key == path[0] ==> !fields[k].value.Obj?
    ensures RedactIn(fields, path) == fields
  {
    if fields != [] { NothingBelow(fields[1..], path); }
  }

  lemma {:induction false} RedactElsewhere(fields: seq<Field>, path: Path)
    requires path != [] && forall k :: 0 <= k < |fields| ==> fields[k].key != path[0]
    ensures RedactIn(fields, path) == fields
  {
    if fields != [] { RedactElsewhere(fields[1..], path); }
  }

  lemma {:induction false} RedactOneAt(fields: seq<Field>, path: Path, i: nat)
    requires path != [] && DistinctKeys(fields) && i < |fields| && fields[i].key == path[0]
    ensures RedactIn(fields, path) == fields[i := Field(fields[i].key, Redact(fields[i].value, path[1..]))]
  {
    if i == 0 {
      RedactElsewhere(fields[1..], path);
    } else {
      RedactOneAt(fields[1..], path, i - 1);
    }
  }
}
