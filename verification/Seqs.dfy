/** Order-preserving subsequences and Python's stable `sorted`. */
module Seqs {

  /** `a` can be obtained from `b` by deleting elements. */
  predicate Subseq<T(==)>(a: seq<T>, b: seq<T>)
    decreases |b|
  {
    || a == []
    || (b != [] && ((a[0] == b[0] && Subseq(a[1..], b[1..])) || Subseq(a, b[1..])))
  }

  lemma {:induction false} SubseqRefl<T>(a: seq<T>)
    ensures Subseq(a, a)
  {
    if a != [] { SubseqRefl(a[1..]); }
  }

  lemma {:induction false} SubseqTrans<T>(a: seq<T>, b: seq<T>, c: seq<T>)
    requires Subseq(a, b) && Subseq(b, c)
    ensures Subseq(a, c)
    decreases |c|
  {
    if a != [] {
      if b[0] == c[0] && Subseq(b[1..], c[1..]) {
        if a[0] == b[0] && Subseq(a[1..], b[1..]) {
          SubseqTrans(a[1..], b[1..], c[1..]);
        } else {
          SubseqTrans(a, b[1..], c[1..]);
        }
      } else {
        SubseqTrans(a, b, c[1..]);
      }
    }
  }

  lemma {:induction false} SubseqConcat<T>(a: seq<T>, b: seq<T>, c: seq<T>, d: seq<T>)
    requires Subseq(a, b) && Subseq(c, d)
    ensures Subseq(a + c, b + d)
    decreases |b|
  {
    if b == [] {
      assert a + c == c && b + d == d;
    } else {
      assert (b + d)[1..] == b[1..] + d;
      if a != [] && a[0] == b[0] && Subseq(a[1..], b[1..]) {
        SubseqConcat(a[1..], b[1..], c, d);
        assert (a + c)[1..] == a[1..] + c;
      } else {
        SubseqConcat(a, b[1..], c, d);
      }
    }
  }

  /** Inserting a block keeps what was there. */
  lemma SubseqInsert<T>(a: seq<T>, block: seq<T>, b: seq<T>)
    ensures Subseq(a + b, a + block + b)
  {
    SubseqRefl(a);
    SubseqRefl(b);
    SubseqConcat(a, a, [], block);
    assert a + [] == a;
    SubseqConcat(a, a + block, b, b);
  }

  /** `sorted(xs, key=key)`, as insertion from the back: later equal keys stay later. */
  function StableSort<T(!new)>(xs: seq<T>, key: T -> int): (ys: seq<T>)
    ensures |ys| == |xs|
  {
    if xs == [] then [] else Insert(xs[0], StableSort(xs[1..], key), key)
  }

  function Insert<T(!new)>(x: T, ys: seq<T>, key: T -> int): (zs: seq<T>)
    ensures |zs| == |ys| + 1
  {
    if ys == [] || key(x) <= key(ys[0]) then [x] + ys else [ys[0]] + Insert(x, ys[1..], key)
  }

  ghost predicate Sorted<T(!new)>(ys: seq<T>, key: T -> int) {
    forall i, j :: 0 <= i < j < |ys| ==> key(ys[i]) <= key(ys[j])
  }

  lemma {:induction false} InsertElements<T(!new)>(x: T, ys: seq<T>, key: T -> int)
    ensures multiset(Insert(x, ys, key)) == multiset{x} + multiset(ys)
  {
    if ys == [] || key(x) <= key(ys[0]) {
    } else {
      InsertElements(x, ys[1..], key);
      assert ys == [ys[0]] + ys[1..];
    }
  }

  lemma {:induction false} InsertSorted<T(!new)>(x: T, ys: seq<T>, key: T -> int)
    requires Sorted(ys, key)
    ensures Sorted(Insert(x, ys, key), key)
  {
    if ys == [] || key(x) <= key(ys[0]) {
    } else {
      InsertSorted(x, ys[1..], key);
      var rest := Insert(x, ys[1..], key);
      assert rest[0] == x || rest[0] == ys[1];
      assert forall k :: 0 <= k < |rest| ==> key(ys[0]) <= key(rest[0]) <= key(rest[k]);
    }
  }

  lemma {:induction false} StableSortLaws<T(!new)>(xs: seq<T>, key: T -> int)
    ensures multiset(StableSort(xs, key)) == multiset(xs)
    ensures Sorted(StableSort(xs, key), key)
  {
    if xs != [] {
      StableSortLaws(xs[1..], key);
      InsertElements(xs[0], StableSort(xs[1..], key), key);
      InsertSorted(xs[0], StableSort(xs[1..], key), key);
      assert xs == [xs[0]] + xs[1..];
    }
  }

  /** The elements of `xs` satisfying `keep`, in order. */
  function Filter<T>(xs: seq<T>, keep: T -> bool): (ys: seq<T>)
    ensures |ys| <= |xs|
  {
    if xs == [] then []
    else if keep(xs[0]) then [xs[0]] + Filter(xs[1..], keep)
    else Filter(xs[1..], keep)
  }

  lemma {:induction false} FilterInsert<T(!new)>(x: T, ys: seq<T>, key: T -> int, keep: T -> bool)
    requires Sorted(ys, key)
    ensures Filter(Insert(x, ys, key), keep)
         == if keep(x) then Insert(x, Filter(ys, keep), key) else Filter(ys, keep)
  {
    if ys == [] || key(x) <= key(ys[0]) {
      assert ([x] + ys)[1..] == ys;
      FilterKeeps(ys, keep);
      if Filter(ys, keep) != [] { assert Filter(ys, keep)[0] in ys; }
    } else {
      FilterInsert(x, ys[1..], key, keep);
      assert ([ys[0]] + Insert(x, ys[1..], key))[1..] == Insert(x, ys[1..], key);
      if keep(ys[0]) { assert ([ys[0]] + Filter(ys[1..], keep))[1..] == Filter(ys[1..], keep); }
    }
  }

  lemma {:induction false} FilterKeeps<T>(xs: seq<T>, keep: T -> bool)
    ensures forall y :: y in Filter(xs, keep) <==> y in xs && keep(y)
  {
    if xs != [] {
      FilterKeeps(xs[1..], keep);
      assert xs == [xs[0]] + xs[1..];
    }
  }

  /** Filtering commutes with the stable sort. */
  lemma {:induction false} FilterSort<T(!new)>(xs: seq<T>, key: T -> int, keep: T -> bool)
    ensures Filter(StableSort(xs, key), keep) == StableSort(Filter(xs, keep), key)
  {
    if xs != [] {
      FilterSort(xs[1..], key, keep);
      StableSortLaws(xs[1..], key);
      FilterInsert(xs[0], StableSort(xs[1..], key), key, keep);
      if keep(xs[0]) { assert ([xs[0]] + Filter(xs[1..], keep))[1..] == Filter(xs[1..], keep); }
    }
  }

  /** The stable sort leaves elements that share a key in the order in which they came. */
  lemma SortIsStable<T(!new)>(xs: seq<T>, key: T -> int, same: T -> bool, k: int)
    requires forall x :: same(x) <==> key(x) == k
    ensures Filter(StableSort(xs, key), same) == Filter(xs, same)
  {
    FilterSort(xs, key, same);
    FilterKeeps(xs, same);
    SortOfOneKey(Filter(xs, same), key, k);
  }

  lemma {:induction false} SortOfOneKey<T(!new)>(xs: seq<T>, key: T -> int, k: int)
    requires forall x <- xs :: key(x) == k
    ensures StableSort(xs, key) == xs
  {
    if xs != [] {
      SortOfOneKey(xs[1..], key, k);
      if |xs| > 1 { assert xs[1] in xs; }
    }
  }

  lemma {:induction false} FilterNone<T>(xs: seq<T>, keep: T -> bool)
    requires forall x <- xs :: !keep(x)
    ensures Filter(xs, keep) == []
  {
    if xs != [] { FilterNone(xs[1..], keep); }
  }

  lemma {:induction false} FilterAll<T>(xs: seq<T>, keep: T -> bool)
    requires forall x <- xs :: keep(x)
    ensures Filter(xs, keep) == xs
  {
    if xs != [] { FilterAll(xs[1..], keep); }
  }

  lemma {:induction false} FilterSnoc<T>(xs: seq<T>, x: T, keep: T -> bool)
    ensures Filter(xs + [x], keep) == Filter(xs, keep) + if keep(x) then [x] else []
  {
    if xs == [] {
      assert xs + [x] == [x] && [x][1..] == [];
    } else {
      FilterSnoc(xs[1..], x, keep);
      assert (xs + [x])[1..] == xs[1..] + [x];
    }
  }

  /** What a filter keeps and what its complement keeps make up the whole. */
  lemma {:induction false} FilterPartition<T>(xs: seq<T>, keep: T -> bool, drop: T -> bool)
    requires forall x <- xs :: keep(x) != drop(x)
    ensures multiset(Filter(xs, keep)) + multiset(Filter(xs, drop)) == multiset(xs)
  {
    if xs != [] {
      FilterPartition(xs[1..], keep, drop);
      assert xs == [xs[0]] + xs[1..];
      assert keep(xs[0]) != drop(xs[0]);
    }
  }

  function Map<T, U>(xs: seq<T>, f: T -> U): (ys: seq<U>)
    ensures |ys| == |xs| && forall i :: 0 <= i < |xs| ==> ys[i] == f(xs[i])
  {
    seq(|xs|, i requires 0 <= i < |xs| => f(xs[i]))
  }

  lemma MapSnoc<T, U>(xs: seq<T>, x: T, f: T -> U)
    ensures Map(xs + [x], f) == Map(xs, f) + [f(x)]
  {}
}
