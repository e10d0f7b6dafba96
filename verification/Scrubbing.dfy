/** `scrub_env_values`: replacing secret values in program output by a marker. */
module Scrubbing {
  import opened Text

  const MARKER := "[REDACTED:secret_detected]"
  const MIN_ENV_VALUE_LENGTH := 8

  /** `v`, laid over `m` with its first character at offset `off`, agrees with `m` wherever both are. */
  predicate AgreesAt(v: string, m: string, off: int) {
    forall j :: 0 <= j < |v| && 0 <= off + j < |m| ==> v[j] == m[off + j]
  }

  /** `v` and `m` can be laid over each other, sharing at least one position, without a clash:
      one contains the other, or an end of one is the beginning of the other. */
  predicate Overlaps(v: string, m: string) {
    exists off :: -|v| < off < |m| && AgreesAt(v, m, off)
  }

  function ScrubOne(output: string, value: string): (r: string) {
    if |value| < MIN_ENV_VALUE_LENGTH then output
    else if Contains(output, value) then Replace(output, value, MARKER)
    else output
  }

  function Scrub(output: string, values: seq<string>): (r: string)
    decreases |values|
  {
    if values == [] then output else Scrub(ScrubOne(output, values[0]), values[1..])
  }

  /** How many values were found when their turn came. */
  function Hits(output: string, values: seq<string>): (n: nat)
    decreases |values|
  {
    if values == [] then 0
    else (if |values[0]| >= MIN_ENV_VALUE_LENGTH && Contains(output, values[0]) then 1 else 0)
         + Hits(ScrubOne(output, values[0]), values[1..])
  }

  /** One value's turn takes out that value and nothing else: the pieces between its occurrences,
      none of which contains it, survive in order, joined by the marker. */
  lemma ScrubOneConserves(output: string, value: string)
    ensures |value| < 8 ==> ScrubOne(output, value) == output
    ensures |value| >= 8 ==>
              && output == Join(Split(output, value), value)
              && ScrubOne(output, value) == Join(Split(output, value), "[REDACTED:secret_detected]")
              && forall p <- Split(output, value) :: !Contains(p, value)
  {
    if |value| >= 8 {
      ReplaceIsSplitJoin(output, value, MARKER);
      SplitPieces(output, value);
      if !Contains(output, value) { ReplaceAbsent(output, value, MARKER); }
    }
  }

  // ----- a value that cannot overlap the marker is gone, and stays gone

  ghost predicate MarkerAt(t: string, m: string, p: int) {
    0 <= p && p + |m| <= |t| && t[p..p + |m|] == m
  }

  /** A prefix of the replaced text either meets a marker or is a prefix of the original. */
  lemma {:induction false} ReplacedPrefix(s: string, w: string, m: string, n: nat)
    requires |w| > 0 && n <= |Replace(s, w, m)|
    ensures (exists p :: 0 <= p < n && MarkerAt(Replace(s, w, m), m, p))
         || (n <= |s| && Replace(s, w, m)[..n] == s[..n])
    decreases |s|
  {
    var t := Replace(s, w, m);
    if n == 0 || |s| < |w| {
    } else if s[..|w|] == w {
      assert MarkerAt(t, m, 0);
    } else {
      var rest := Replace(s[1..], w, m);
      assert t == [s[0]] + rest;
      ReplacedPrefix(s[1..], w, m, n - 1);
      if exists p :: 0 <= p < n - 1 && MarkerAt(rest, m, p) {
        var p :| 0 <= p < n - 1 && MarkerAt(rest, m, p);
        assert t[p + 1..p + 1 + |m|] == rest[p..p + |m|];
        assert MarkerAt(t, m, p + 1);
      } else {
        assert t[..n] == [s[0]] + rest[..n - 1];
        assert s[..n] == [s[0]] + s[1..][..n - 1];
      }
    }
  }

  lemma AbsentBehindMarker(m: string, rest: string, v: string)
    requires |v| > 0 && !Overlaps(v, m) && !Contains(rest, v)
    ensures !Contains(m + rest, v)
  {
    var t := m + rest;
    forall i | 0 <= i <= |t| - |v| ensures !OccursAt(t, v, i) {
      if i >= |m| {
        assert t[i..i + |v|] == rest[i - |m|..i - |m| + |v|];
        assert !OccursAt(rest, v, i - |m|);
      } else {
        var here := t[i..i + |v|];
        assert forall j :: 0 <= j < |v| ==> here[j] == t[i + j];
        assert !AgreesAt(v, m, i);
      }
    }
  }

  lemma AbsentBehindChar(c: char, rest: string, v: string)
    requires |v| > 0 && !Contains(rest, v) && !OccursAt([c] + rest, v, 0)
    ensures !Contains([c] + rest, v)
  {
    var t := [c] + rest;
    forall i | 0 < i <= |t| - |v| ensures !OccursAt(t, v, i) {
      assert t[i..i + |v|] == rest[i - 1..i - 1 + |v|];
      assert !OccursAt(rest, v, i - 1);
    }
  }

  lemma {:induction false} AbsentAfterReplace(s: string, w: string, v: string, m: string)
    requires |w| > 0 && |v| > 0 && |m| > 0
    requires !Overlaps(v, m)
    requires v == w || !Contains(s, v)
    ensures !Contains(Replace(s, w, m), v)
    decreases |s|
  {
    if |s| >= |w| {
      if s[..|w|] == w {
        var rest := s[|w|..];
        if v != w && Contains(rest, v) { ContainsSuffix(s, |w|, v); }
        AbsentAfterReplace(rest, w, v, m);
        AbsentBehindMarker(m, Replace(rest, w, m), v);
      } else {
        var rest := s[1..];
        if v != w && Contains(rest, v) { ContainsSuffix(s, 1, v); }
        AbsentAfterReplace(rest, w, v, m);
        AbsentAtStart(s, w, v, m);
        AbsentBehindChar(s[0], Replace(rest, w, m), v);
      }
    }
  }

  lemma AbsentAtStart(s: string, w: string, v: string, m: string)
    requires 0 < |w| <= |s| && |v| > 0 && |m| > 0
    requires !Overlaps(v, m)
    requires v == w || !Contains(s, v)
    requires s[..|w|] != w
    ensures !OccursAt(Replace(s, w, m), v, 0)
  {
    var t := Replace(s, w, m);
    if OccursAt(t, v, 0) {
      ReplacedPrefix(s, w, m, |v|);
      if p :| 0 <= p < |v| && MarkerAt(t, m, p) {
        assert forall j :: 0 <= j < |m| ==> m[j] == t[p..p + |m|][j] == t[p + j];
        assert forall j :: 0 <= j < |v| ==> v[j] == t[0..0 + |v|][j] == t[j];
        assert AgreesAt(v, m, -p);
      } else {
        assert s[0..0 + |v|] == t[..|v|] == v;
        assert OccursAt(s, v, 0);
      }
    }
  }

  lemma {:induction false} StaysAbsent(output: string, values: seq<string>, v: string)
    requires |v| > 0 && !Overlaps(v, MARKER) && !Contains(output, v)
    ensures !Contains(Scrub(output, values), v)
    decreases |values|
  {
    if values != [] {
      if |values[0]| >= MIN_ENV_VALUE_LENGTH { AbsentAfterReplace(output, values[0], v, MARKER); }
      StaysAbsent(ScrubOne(output, values[0]), values[1..], v);
    }
  }

  lemma {:induction false} ScrubRemoves(output: string, values: seq<string>, v: string)
    requires |v| >= MIN_ENV_VALUE_LENGTH && !Overlaps(v, MARKER) && v in values
    ensures !Contains(Scrub(output, values), v)
    decreases |values|
  {
    if v == values[0] {
      AbsentAfterReplace(output, v, v, MARKER);
      StaysAbsent(ScrubOne(output, v), values[1..], v);
    } else {
      ScrubRemoves(ScrubOne(output, values[0]), values[1..], v);
    }
  }

  // ----- a value that can overlap the marker can be put back by a later replacement

  ghost function Run(c: char, n: nat): (r: string) { seq(n, _ => c) }

  lemma {:induction false} ReplaceRun(a: string, c: char, n: nat, b: string, m: string)
    requires |a| < n && |b| < n
    requires a != "" ==> a[|a| - 1] != c
    ensures Replace(a + Run(c, n) + b, Run(c, n), m) == a + m + b
    decreases |a|
  {
    var s, w := a + Run(c, n) + b, Run(c, n);
    if a == "" {
      assert s == w + b && s[..|w|] == w && s[|w|..] == b;
      assert "" + m + b == m + b;
    } else {
      assert s[..|w|][|a| - 1] == a[|a| - 1] && w[|a| - 1] == c;
      assert s[1..] == a[1..] + w + b;
      ReplaceRun(a[1..], c, n, b, m);
      assert [s[0]] + (a[1..] + m + b) == a + m + b;
    }
  }

  lemma RunHidesValue(a: string, c: char, n: nat, b: string, v: string)
    requires |a| < |v| && |b| < |v| < n
    requires v[0] != c && v[|v| - 1] != c
    ensures !Contains(a + Run(c, n) + b, v)
  {
    var s := a + Run(c, n) + b;
    forall i | 0 <= i <= |s| - |v| ensures !OccursAt(s, v, i) {
      assert s[i..i + |v|][0] == s[i] && s[i..i + |v|][|v| - 1] == s[i + |v| - 1];
    }
  }

  /** A character different from four given ones. */
  ghost function Other(p: char, q: char, r: char, s: char): (c: char)
    ensures c != p && c != q && c != r && c != s
  {
    var taken := {p, q, r, s};
    if 'a' !in taken then 'a' else if 'b' !in taken then 'b' else if 'c' !in taken then 'c'
    else if 'd' !in taken then 'd' else 'e'
  }

  /** Laying `v` over the marker at a non-clashing offset shows `v` inside the marker with
      something in front of it and something behind it, both shorter than `v`. */
  lemma Surround(v: string, m: string, off: int) returns (a: string, b: string)
    requires |v| > 0 && -|v| < off < |m| && AgreesAt(v, m, off)
    ensures |a| < |v| && |b| < |v| && Contains(a + m + b, v)
  {
    a := if off < 0 then v[..-off] else "";
    b := if off + |v| > |m| then v[|m| - off..] else "";
    var t, i := a + m + b, if off < 0 then 0 else off;
    assert t[i..i + |v|] == v;
    assert OccursAt(t, v, i);
  }

  lemma ScrubFails(v: string) returns (output: string, values: seq<string>)
    requires |v| >= MIN_ENV_VALUE_LENGTH && Overlaps(v, MARKER)
    ensures v in values && Contains(Scrub(output, values), v)
  {
    var off :| -|v| < off < |MARKER| && AgreesAt(v, MARKER, off);
    var a, b := Surround(v, MARKER, off);
    var n := |v| + 1;
    var c := Other(v[0], v[|v| - 1], if a == "" then v[0] else a[|a| - 1], v[0]);
    var w := Run(c, n);
    output, values := a + w + b, [v, w];
    RunHidesValue(a, c, n, b, v);
    ReplaceRun(a, c, n, b, MARKER);
    assert output[|a|..|a| + n] == w;
    assert OccursAt(output, w, |a|);
    assert values[1..] == [w] && [w][1..] == [];
    calc {
      Scrub(output, values);
      Scrub(output, [w]);
      Scrub(ScrubOne(output, w), []);
      a + MARKER + b;
    }
  }

  ghost predicate RemovedFrom(output: string, values: seq<string>, v: string) {
    v in values ==> !Contains(Scrub(output, values), v)
  }

  /** The scrubber removes `v` from every output, whatever else it is asked to scrub, exactly
      when `v` cannot be laid over the marker without a clash. */
  lemma ScrubGuarantee(v: string)
    requires |v| >= MIN_ENV_VALUE_LENGTH
    ensures (forall output, values :: RemovedFrom(output, values, v)) <==> !Overlaps(v, MARKER)
  {
    if Overlaps(v, MARKER) {
      var output, values := ScrubFails(v);
      assert !RemovedFrom(output, values, v);
    } else {
      forall output, values ensures RemovedFrom(output, values, v) {
        if v in values { ScrubRemoves(output, values, v); }
      }
    }
  }

  /** Nothing is counted exactly when no long enough value occurs in the original output. */
  lemma {:induction false} NoHits(output: string, values: seq<string>)
    ensures Hits(output, values) == 0
       <==> forall v <- values :: |v| >= MIN_ENV_VALUE_LENGTH ==> !Contains(output, v)
    ensures Hits(output, values) == 0 ==> Scrub(output, values) == output
    decreases |values|
  {
    if values != [] {
      assert values == [values[0]] + values[1..];
      NoHits(ScrubOne(output, values[0]), values[1..]);
    }
  }

  lemma {:induction false} ScrubSnoc(output: string, values: seq<string>, value: string)
    ensures Scrub(output, values + [value]) == ScrubOne(Scrub(output, values), value)
    ensures Hits(output, values + [value])
         == Hits(output, values)
            + if |value| >= MIN_ENV_VALUE_LENGTH && Contains(Scrub(output, values), value) then 1 else 0
    decreases |values|
  {
    if values == [] {
      assert values + [value] == [value];
    } else {
      assert (values + [value])[1..] == values[1..] + [value];
      ScrubSnoc(ScrubOne(output, values[0]), values[1..], value);
    }
  }

  /** Value `i` was found in what the turns before it had left. */
  ghost predicate FoundAt(output: string, values: seq<string>, i: nat) {
    i < |values| && |values[i]| >= 8 && Contains(Scrub(output, values[..i]), values[i])
  }

  ghost function Found(output: string, values: seq<string>): set<nat> {
    set i: nat | i < |values| && FoundAt(output, values, i)
  }

  lemma FoundNext(output: string, init: seq<string>, value: string)
    ensures Found(output, init + [value])
         == Found(output, init) + if FoundAt(output, init + [value], |init|) then {|init|} else {}
  {
    var values := init + [value];
    forall i: nat | i < |init| ensures FoundAt(output, values, i) <==> FoundAt(output, init, i) {
      assert values[..i] == init[..i];
    }
  }

  /** The count is the number of values of at least 8 characters that were found when their turn came. */
  lemma {:induction false} HitsCount(output: string, values: seq<string>)
    ensures Hits(output, values) == |Found(output, values)|
    decreases |values|
  {
    if values == [] {
      assert Found(output, values) == {};
    } else {
      var init, value := values[..|values| - 1], values[|values| - 1];
      HitsCount(output, init);
      ScrubSnoc(output, init, value);
      FoundNext(output, init, value);
      assert values == init + [value] && values[..|init|] == init;
    }
  }

  method ScrubEnvValues(original: string, envValues: seq<string>) returns (output: string, count: nat)
    ensures output == Scrub(original, envValues) && count == Hits(original, envValues)
    ensures forall v <- envValues ::
              |v| >= MIN_ENV_VALUE_LENGTH && !Overlaps(v, MARKER) ==> !Contains(output, v)
    ensures count == 0
       <==> forall v <- envValues :: |v| >= MIN_ENV_VALUE_LENGTH ==> !Contains(original, v)
    ensures count == 0 ==> output == original
    ensures count == |Found(original, envValues)|
  {
    output, count := original, 0;
    for i := 0 to |envValues|
      invariant Scrub(output, envValues[i..]) == Scrub(original, envValues)
      invariant count + Hits(output, envValues[i..]) == Hits(original, envValues)
    {
      var value := envValues[i];
      assert envValues[i..][1..] == envValues[i + 1..];
      if |value| < MIN_ENV_VALUE_LENGTH { continue; }
      if Contains(output, value) {
        output := Replace(output, value, MARKER);
        count := count + 1;
      }
    }
    forall v | v in envValues && |v| >= MIN_ENV_VALUE_LENGTH && !Overlaps(v, MARKER)
      ensures !Contains(output, v)
    {
      ScrubRemoves(original, envValues, v);
    }
    NoHits(original, envValues);
    HitsCount(original, envValues);
  }
}
