/** The Python string operations the gateway leans on: substring search, `str.replace`,
    `str.split` and `str.join`, over strings as sequences of Unicode scalar values. */
module Text {

  predicate OccursAt(s: string, v: string, i: int) {
    0 <= i && i + |v| <= |s| && s[i..i + |v|] == v
  }

  /** Python's `v in s`. */
  predicate Contains(s: string, v: string) {
    exists i :: 0 <= i <= |s| - |v| && OccursAt(s, v, i)
  }

  lemma ContainsSuffix(s: string, k: nat, v: string)
    requires k <= |s|
    requires Contains(s[k..], v)
    ensures Contains(s, v)
  {
    var i :| 0 <= i <= |s[k..]| - |v| && OccursAt(s[k..], v, i);
    assert s[k..][i..i + |v|] == s[k + i..k + i + |v|];
    assert OccursAt(s, v, k + i);
  }

  /** `s.replace(v, r)`: leftmost, non-overlapping replacement. */
  function Replace(s: string, v: string, r: string): (t: string)
    requires |v| > 0
    decreases |s|
  {
    if |s| < |v| then s
    else if s[..|v|] == v then r + Replace(s[|v|..], v, r)
    else [s[0]] + Replace(s[1..], v, r)
  }

  lemma {:induction false} ReplaceAbsent(s: string, v: string, r: string)
    requires |v| > 0 && !Contains(s, v)
    ensures Replace(s, v, r) == s
    decreases |s|
  {
    if |s| >= |v| {
      assert s[..|v|] == v ==> OccursAt(s, v, 0);
      if Contains(s[1..], v) { ContainsSuffix(s, 1, v); }
      ReplaceAbsent(s[1..], v, r);
      assert [s[0]] + s[1..] == s;
    }
  }

  function Join(parts: seq<string>, sep: string): (t: string) {
    if |parts| == 0 then ""
    else if |parts| == 1 then parts[0]
    else parts[0] + sep + Join(parts[1..], sep)
  }

  /** `s.split(v)`: the pieces between the leftmost non-overlapping occurrences of `v`. */
  function Split(s: string, v: string): (parts: seq<string>)
    requires |v| > 0
    ensures |parts| > 0
    decreases |s|
  {
    if |s| < |v| then [s]
    else if s[..|v|] == v then [""] + Split(s[|v|..], v)
    else
      var rest := Split(s[1..], v);
      [[s[0]] + rest[0]] + rest[1..]
  }

  lemma JoinCons(p: string, parts: seq<string>, sep: string)
    requires |parts| > 0
    ensures Join([p] + parts, sep) == p + sep + Join(parts, sep)
  {
    assert ([p] + parts)[1..] == parts;
  }

  lemma JoinGrow(c: char, parts: seq<string>, sep: string)
    requires |parts| > 0
    ensures Join([[c] + parts[0]] + parts[1..], sep) == [c] + Join(parts, sep)
  {
    var grown := [[c] + parts[0]] + parts[1..];
    assert grown[1..] == parts[1..];
    if |parts| > 1 {
      assert [c] + parts[0] + sep + Join(parts[1..], sep) == [c] + (parts[0] + sep + Join(parts[1..], sep));
    }
  }

  /** Replacing is splitting and re-joining: what lies between the occurrences survives in order,
      and what is taken out is `v` and nothing else. */
  lemma {:induction false} ReplaceIsSplitJoin(s: string, v: string, r: string)
    requires |v| > 0
    ensures Join(Split(s, v), v) == s
    ensures Join(Split(s, v), r) == Replace(s, v, r)
    decreases |s|
  {
    if |s| < |v| {
    } else if s[..|v|] == v {
      ReplaceIsSplitJoin(s[|v|..], v, r);
      JoinCons("", Split(s[|v|..], v), v);
      JoinCons("", Split(s[|v|..], v), r);
      assert s == "" + v + s[|v|..];
      assert "" + r == r;
    } else {
      ReplaceIsSplitJoin(s[1..], v, r);
      JoinGrow(s[0], Split(s[1..], v), v);
      JoinGrow(s[0], Split(s[1..], v), r);
      assert [s[0]] + s[1..] == s;
    }
  }

  /** No piece of a split contains the separator. */
  lemma {:induction false} SplitPieces(s: string, v: string)
    requires |v| > 0
    ensures forall p <- Split(s, v) :: !Contains(p, v)
    decreases |s|
  {
    if |s| < |v| {
    } else if s[..|v|] == v {
      SplitPieces(s[|v|..], v);
    } else {
      SplitPieces(s[1..], v);
      var head := Split(s[1..], v)[0];
      assert !Contains([s[0]] + head, v) by {
        SplitPrefix(s[1..], v);
        PrependAbsent(s, head, v);
      }
    }
  }

  lemma {:induction false} SplitPrefix(s: string, v: string)
    requires |v| > 0
    ensures Split(s, v)[0] <= s
    decreases |s|
  {
    if |s| >= |v| && s[..|v|] != v { SplitPrefix(s[1..], v); }
  }

  lemma PrependAbsent(s: string, head: string, v: string)
    requires 0 < |v| <= |s| && s[..|v|] != v
    requires head <= s[1..] && !Contains(head, v)
    ensures !Contains([s[0]] + head, v)
  {
    var whole := [s[0]] + head;
    forall i | 0 <= i <= |whole| - |v| ensures !OccursAt(whole, v, i) {
      if i == 0 {
        assert whole[..|v|] == s[..|v|];
      } else {
        assert whole[i..i + |v|] == head[i - 1..i - 1 + |v|];
        assert !OccursAt(head, v, i - 1);
      }
    }
  }

  /** Splitting undoes joining on a one-character separator no part contains. */
  lemma {:induction false} SplitJoin(parts: seq<string>, sep: char)
    requires |parts| > 0
    requires forall p <- parts :: sep !in p
    ensures Split(Join(parts, [sep]), [sep]) == parts
  {
    SplitHead(parts[0], if |parts| == 1 then "" else [sep] + Join(parts[1..], [sep]), sep);
    if |parts| == 1 {
      assert parts[0] + "" == parts[0];
      assert parts == [parts[0]];
    } else {
      var rest := Join(parts[1..], [sep]);
      assert parts[0] + [sep] + rest == parts[0] + ([sep] + rest);
      SplitJoin(parts[1..], sep);
      assert ([sep] + rest)[..1] == [sep] && ([sep] + rest)[1..] == rest;
      assert Split([sep] + rest, [sep]) == [""] + parts[1..];
      assert parts[0] + "" == parts[0];
    }
  }

  lemma {:induction false} SplitHead(p: string, rest: string, sep: char)
    requires sep !in p
    ensures var tail := Split(rest, [sep]);
            Split(p + rest, [sep]) == [p + tail[0]] + tail[1..]
  {
    var tail := Split(rest, [sep]);
    if p == "" {
      assert p + rest == rest;
      assert "" + tail[0] == tail[0];
    } else {
      SplitHead(p[1..], rest, sep);
      assert (p + rest)[1..] == p[1..] + rest;
      assert (p + rest)[..1] == [p[0]];
      assert [p[0]] + (p[1..] + tail[0]) == p + tail[0];
    }
  }

  function Digit(d: nat): (c: char)
    requires d < 10
  {
    "0123456789"[d]
  }

  /** `str(n)` for a natural number. */
  function Decimal(n: nat): (s: string)
    ensures |s| > 0
    ensures forall c <- s :: '0' <= c <= '9'
  {
    if n < 10 then [Digit(n)] else Decimal(n / 10) + [Digit(n % 10)]
  }

  lemma {:induction false} DecimalInjective(a: nat, b: nat)
    requires Decimal(a) == Decimal(b)
    ensures a == b
  {
    if a < 10 && b < 10 {
    } else if a < 10 || b < 10 {
    } else {
      assert Decimal(a)[..|Decimal(a)| - 1] == Decimal(a / 10);
      assert Decimal(b)[..|Decimal(b)| - 1] == Decimal(b / 10);
      DecimalInjective(a / 10, b / 10);
      assert Digit(a % 10) == Digit(b % 10);
    }
  }
}
