/** `apply_injection_flags` and `redact_injection`: right-to-left splicing of flagged spans. */
module TrustBoundary {
  import opened Json
  import opened Seqs

  datatype Match = Match(position: nat, matchedText: string, patternName: string, severity: string) {
    function End(): nat { position + |matchedText| }
  }

  type Renderer = (string, Match) -> string

  /** Three fixed texts around two given ones. */
  function Framed(a: string, p: string, b: string, q: string, c: string): (r: string) { a + p + b + q + c }

  function WrapInjectionWarning(text: string, pattern: string, severity: string): (r: string) {
    Framed("[INJECTION_WARNING pattern=\"", pattern, "\" severity=\"", severity, "\"]\n")
    + text + "\n" + "[/INJECTION_WARNING]"
  }

  function Flag(text: string, m: Match): (r: string) {
    WrapInjectionWarning(text, m.patternName, m.severity)
  }

  const NOTICE_HEAD := "[REDACTED: prompt injection detected \U{2014} pattern: \""
  const NOTICE_MIDDLE := "\", severity: "
  const NOTICE_TAIL := ". Change strictness to \"flag\" or \"warn\" to allow.]"

  function Redaction(text: string, m: Match): (r: string) {
    Framed(NOTICE_HEAD, m.patternName, NOTICE_MIDDLE, m.severity, NOTICE_TAIL)
  }

  lemma FramedParts(a: string, p: string, b: string, q: string, c: string)
    ensures var r := Framed(a, p, b, q, c); var n := |a| + |p| + |b|;
            |r| == n + |q| + |c| && r[|a|..|a| + |p|] == p && r[n..n + |q|] == q
  {}

  /** A notice names the pattern first and then the severity, and nothing of the text. */
  lemma NoticeNames(text: string, m: Match)
    ensures Redaction(text, m) == Redaction("", m)
    ensures var r := Redaction(text, m); var n := |NOTICE_HEAD| + |m.patternName| + |NOTICE_MIDDLE|;
            && |r| >= n + |m.severity| && r[n..n + |m.severity|] == m.severity
            && r[|NOTICE_HEAD|..|NOTICE_HEAD| + |m.patternName|] == m.patternName
  {
    FramedParts(NOTICE_HEAD, m.patternName, NOTICE_MIDDLE, m.severity, NOTICE_TAIL);
  }

  /** An index clamped to a length, as Python's slices do. */
  function Clamp(i: nat, n: nat): (r: nat) { if i < n then i else n }

  /** `s[:start] + render(s[start:end]) + s[end:]`. */
  function Splice(s: string, m: Match, render: Renderer): (r: string) {
    var start, end := Clamp(m.position, |s|), Clamp(m.End(), |s|);
    s[..start] + render(s[start..end], m) + s[end..]
  }

  function SpliceAll(s: string, ms: seq<Match>, render: Renderer): (r: string)
    decreases |ms|
  {
    if ms == [] then s else SpliceAll(Splice(s, ms[0], render), ms[1..], render)
  }

  function LeftwardKey(m: Match): int { 0 - m.position }

  /** `sorted(matches, key=position, reverse=True)`, which keeps equal positions in order. */
  function Rightmost(ms: seq<Match>): (r: seq<Match>) {
    StableSort(ms, LeftwardKey)
  }

  // ----- the reference: one left-to-right pass

  ghost predicate StartsAt(ms: set<Match>, i: nat) { exists m <- ms :: m.position == i }

  /** Read `text` from `i` on: at a match, render it and jump past it; elsewhere copy a character. */
  ghost function Render(text: string, ms: set<Match>, i: nat, render: Renderer): string
    requires i <= |text|
    decreases |text| - i
  {
    if i == |text| then ""
    else if StartsAt(ms, i) then
      var m :| m in ms && m.position == i;
      if i < m.End() <= |text| then render(text[i..m.End()], m) + Render(text, ms, m.End(), render)
      else [text[i]] + Render(text, ms, i + 1, render)
    else [text[i]] + Render(text, ms, i + 1, render)
  }

  predicate Apart(a: Match, b: Match) { a.End() <= b.position || b.End() <= a.position }

  ghost predicate AllApart(ms: seq<Match>) {
    forall i, j :: 0 <= i < j < |ms| ==> Apart(ms[i], ms[j])
  }

  /** Matches that lie in the text, are not empty and do not overlap. */
  ghost predicate WellPlaced(text: string, ms: seq<Match>) {
    && (forall m <- ms :: m.position < m.End() <= |text|)
    && AllApart(ms)
  }

  /** Each match lies before all the earlier ones in the list. */
  ghost predicate RightToLeft(ms: seq<Match>, limit: nat) {
    && (forall m <- ms :: m.position < m.End() <= limit)
    && (forall i, j :: 0 <= i < j < |ms| ==> ms[j].End() <= ms[i].position)
  }

  ghost function Elements(ms: seq<Match>): set<Match> { set m | m in ms }

  lemma ConcatAssoc(a: string, b: string, c: string)
    ensures a + b + c == a + (b + c)
  {}

  /** A splice within `pre` leaves what follows `pre` alone. */
  lemma SpliceStep(pre: string, tail: string, m: Match, render: Renderer)
    requires m.End() <= |pre|
    ensures Splice(pre + tail, m, render)
         == pre[..m.position] + (render(pre[m.position..m.End()], m) + pre[m.End()..] + tail)
  {
    var p, q := m.position, m.End();
    var s := pre + tail;
    assert s[..p] == pre[..p];
    assert s[p..q] == pre[p..q];
    assert s[q..] == pre[q..] + tail;
    var mark := render(pre[p..q], m);
    ConcatAssoc(pre[..p], mark, s[q..]);
    ConcatAssoc(mark, pre[q..], tail);
  }

  lemma {:induction false} SpliceFrame(pre: string, tail: string, ms: seq<Match>, render: Renderer)
    requires RightToLeft(ms, |pre|)
    ensures SpliceAll(pre + tail, ms, render) == SpliceAll(pre, ms, render) + tail
    decreases |ms|
  {
    if ms != [] {
      var m := ms[0];
      RestIsBefore(ms, |pre|);
      var x, mid := pre[..m.position], render(pre[m.position..m.End()], m) + pre[m.End()..];
      SpliceStep(pre, tail, m, render);
      SpliceFrame(x, mid + tail, ms[1..], render);
      SpliceRightmost(pre, ms, render);
      ConcatAssoc(SpliceAll(x, ms[1..], render), mid, tail);
    }
  }

  /** Splicing the rightmost match first leaves the text before it to the rest. */
  lemma {:induction false} SpliceRightmost(text: string, ms: seq<Match>, render: Renderer)
    requires ms != [] && RightToLeft(ms, |text|)
    ensures SpliceAll(text, ms, render)
         == SpliceAll(text[..ms[0].position], ms[1..], render)
            + (render(text[ms[0].position..ms[0].End()], ms[0]) + text[ms[0].End()..])
    decreases |ms|, 0
  {
    var m := ms[0];
    RestIsBefore(ms, |text|);
    var mid := render(text[m.position..m.End()], m) + text[m.End()..];
    assert text + "" == text && mid + "" == mid;
    SpliceStep(text, "", m, render);
    SpliceFrame(text[..m.position], mid, ms[1..], render);
  }

  lemma RestIsBefore(ms: seq<Match>, limit: nat)
    requires ms != [] && RightToLeft(ms, limit)
    ensures RightToLeft(ms[1..], ms[0].position)
    ensures Elements(ms) == Elements(ms[1..]) + {ms[0]}
  {
    assert ms == [ms[0]] + ms[1..];
  }

  /** No two matches start at the same place. */
  ghost predicate OnePerPosition(ms: set<Match>) {
    forall x, y :: x in ms && y in ms && x.position == y.position ==> x == y
  }

  lemma PositionsDiffer(ms: seq<Match>, limit: nat)
    requires RightToLeft(ms, limit)
    ensures OnePerPosition(Elements(ms))
  {
    forall x, y | x in Elements(ms) && y in Elements(ms) && x.position == y.position ensures x == y {
      var i, j :| 0 <= i < |ms| && 0 <= j < |ms| && ms[i] == x && ms[j] == y;
      assert i == j;
    }
  }

  lemma RenderMatch(text: string, ms: set<Match>, x: Match, render: Renderer)
    requires x in ms && OnePerPosition(ms) && x.position < x.End() <= |text|
    ensures Render(text, ms, x.position, render)
         == render(text[x.position..x.End()], x) + Render(text, ms, x.End(), render)
  {
    assert StartsAt(ms, x.position);
  }

  lemma {:induction false} RenderUntouched(text: string, ms: set<Match>, i: nat, render: Renderer)
    requires i <= |text| && forall m <- ms :: m.position < i
    ensures Render(text, ms, i, render) == text[i..]
    decreases |text| - i
  {
    if i < |text| { RenderUntouched(text, ms, i + 1, render); }
  }

  lemma RenderCopy(text: string, ms: set<Match>, i: nat, render: Renderer)
    requires i < |text| && !StartsAt(ms, i)
    ensures Render(text, ms, i, render) == [text[i]] + Render(text, ms, i + 1, render)
  {}

  lemma {:induction false} RenderRightmost(text: string, pre: string, all: set<Match>, m: Match, i: nat,
                                           render: Renderer)
    requires m in all && OnePerPosition(all) && m.position <= |text| && i <= m.position
    requires forall x <- all :: x != m ==> x.position < x.End() <= m.position
    requires pre == text[..m.position]
    ensures Render(text, all, i, render) == Render(pre, all - {m}, i, render) + Render(text, all, m.position, render)
    decreases m.position - i
  {
    var rest, tail := all - {m}, Render(text, all, m.position, render);
    if i == m.position {
    } else if StartsAt(all, i) {
      var x :| x in all && x.position == i;
      RenderMatch(text, all, x, render);
      RenderMatch(pre, rest, x, render);
      assert text[i..x.End()] == pre[i..x.End()];
      RenderRightmost(text, pre, all, m, x.End(), render);
      ConcatAssoc(render(pre[i..x.End()], x), Render(pre, rest, x.End(), render), tail);
    } else {
      RenderCopy(text, all, i, render);
      RenderCopy(pre, rest, i, render);
      RenderRightmost(text, pre, all, m, i + 1, render);
      ConcatAssoc([text[i]], Render(pre, rest, i + 1, render), tail);
    }
  }

  lemma RenderSplits(text: string, ms: seq<Match>, render: Renderer)
    requires ms != [] && RightToLeft(ms, |text|)
    ensures Render(text, Elements(ms), 0, render)
         == Render(text[..ms[0].position], Elements(ms[1..]), 0, render)
            + (render(text[ms[0].position..ms[0].End()], ms[0]) + text[ms[0].End()..])
  {
    var m := ms[0];
    RestIsBefore(ms, |text|);
    PositionsDiffer(ms, |text|);
    RenderMatch(text, Elements(ms), m, render);
    RenderUntouched(text, Elements(ms), m.End(), render);
    assert Elements(ms) - {m} == Elements(ms[1..]);
    RenderRightmost(text, text[..m.position], Elements(ms), m, 0, render);
  }

  lemma {:induction false} SpliceIsRender(text: string, ms: seq<Match>, render: Renderer)
    requires RightToLeft(ms, |text|)
    ensures SpliceAll(text, ms, render) == Render(text, Elements(ms), 0, render)
    decreases |ms|
  {
    if ms == [] {
      assert Elements(ms) == {} && text[0..] == text;
      RenderUntouched(text, {}, 0, render);
    } else {
      RestIsBefore(ms, |text|);
      SpliceRightmost(text, ms, render);
      SpliceIsRender(text[..ms[0].position], ms[1..], render);
      RenderSplits(text, ms, render);
    }
  }

  lemma {:induction false} SortedIsRightToLeft(text: string, ms: seq<Match>)
    requires WellPlaced(text, ms)
    ensures RightToLeft(Rightmost(ms), |text|)
    ensures Elements(Rightmost(ms)) == Elements(ms)
  {
    StableSortLaws(ms, LeftwardKey);
    assert forall m :: m in ms <==> m in multiset(ms);
    assert forall m :: m in Rightmost(ms) <==> m in multiset(Rightmost(ms));
    SortKeepsApart(ms);
    var r := Rightmost(ms);
    forall i, j | 0 <= i < j < |r| ensures r[j].End() <= r[i].position {
      assert LeftwardKey(r[i]) <= LeftwardKey(r[j]);
      assert r[i] in ms && r[j] in ms;
      assert Apart(r[i], r[j]);
    }
  }

  lemma {:induction false} ApartFromInserted(y: Match, x: Match, ys: seq<Match>)
    requires Apart(y, x) && forall z <- ys :: Apart(y, z)
    ensures forall z <- Insert(x, ys, LeftwardKey) :: Apart(y, z)
  {
    if ys == [] || LeftwardKey(x) <= LeftwardKey(ys[0]) {
    } else {
      ApartFromInserted(y, x, ys[1..]);
    }
  }

  lemma {:induction false} InsertKeepsApart(x: Match, ys: seq<Match>)
    requires (forall y <- ys :: Apart(x, y)) && AllApart(ys)
    ensures AllApart(Insert(x, ys, LeftwardKey))
  {
    if ys == [] || LeftwardKey(x) <= LeftwardKey(ys[0]) {
    } else {
      InsertKeepsApart(x, ys[1..]);
      forall z | z in ys[1..] ensures Apart(ys[0], z) {
        var k :| 0 <= k < |ys[1..]| && ys[1..][k] == z;
        assert z == ys[k + 1];
      }
      assert Apart(x, ys[0]);
      ApartFromInserted(ys[0], x, ys[1..]);
    }
  }

  lemma {:induction false} SortKeepsApart(ms: seq<Match>)
    requires AllApart(ms)
    ensures AllApart(Rightmost(ms))
  {
    if ms != [] {
      SortKeepsApart(ms[1..]);
      StableSortLaws(ms[1..], LeftwardKey);
      var tail := StableSort(ms[1..], LeftwardKey);
      forall y | y in tail ensures Apart(ms[0], y) {
        assert y in multiset(tail);
        assert y in ms[1..];
        var j :| 1 <= j < |ms| && ms[j] == y;
      }
      InsertKeepsApart(ms[0], tail);
    }
  }

  /** Right-to-left splicing of well-placed matches, given in any order, is the left-to-right pass. */
  lemma SplicingRefinesRender(text: string, ms: seq<Match>, render: Renderer)
    requires WellPlaced(text, ms)
    ensures SpliceAll(text, Rightmost(ms), render) == Render(text, Elements(ms), 0, render)
  {
    SortedIsRightToLeft(text, ms);
    SpliceIsRender(text, Rightmost(ms), render);
  }

  // ----- lengths

  /** What one match adds to the length of the text. */
  function Growth(text: string, m: Match, render: Renderer): int
    requires m.End() <= |text|
  {
    |render(text[m.position..m.End()], m)| - |m.matchedText|
  }

  function TotalGrowth(text: string, ms: seq<Match>, render: Renderer): int
    requires forall m <- ms :: m.End() <= |text|
  {
    if ms == [] then 0 else Growth(text, ms[0], render) + TotalGrowth(text, ms[1..], render)
  }

  lemma {:induction false} GrowthInsert(text: string, x: Match, ys: seq<Match>, render: Renderer)
    requires x.End() <= |text| && forall m <- ys :: m.End() <= |text|
    ensures forall m <- Insert(x, ys, LeftwardKey) :: m.End() <= |text|
    ensures TotalGrowth(text, Insert(x, ys, LeftwardKey), render)
         == Growth(text, x, render) + TotalGrowth(text, ys, render)
  {
    if ys == [] || LeftwardKey(x) <= LeftwardKey(ys[0]) {
      assert ([x] + ys)[1..] == ys;
    } else {
      GrowthInsert(text, x, ys[1..], render);
      assert ([ys[0]] + Insert(x, ys[1..], LeftwardKey))[1..] == Insert(x, ys[1..], LeftwardKey);
    }
  }

  lemma {:induction false} GrowthSorted(text: string, ms: seq<Match>, render: Renderer)
    requires forall m <- ms :: m.End() <= |text|
    ensures forall m <- Rightmost(ms) :: m.End() <= |text|
    ensures TotalGrowth(text, Rightmost(ms), render) == TotalGrowth(text, ms, render)
  {
    if ms != [] {
      GrowthSorted(text, ms[1..], render);
      GrowthInsert(text, ms[0], Rightmost(ms[1..]), render);
    }
  }

  lemma {:induction false} GrowthPrefix(text: string, n: nat, ms: seq<Match>, render: Renderer)
    requires n <= |text| && forall m <- ms :: m.End() <= n
    ensures TotalGrowth(text[..n], ms, render) == TotalGrowth(text, ms, render)
  {
    if ms != [] {
      GrowthPrefix(text, n, ms[1..], render);
      assert text[..n][ms[0].position..ms[0].End()] == text[ms[0].position..ms[0].End()];
    }
  }

  lemma {:induction false} SpliceLength(text: string, ms: seq<Match>, render: Renderer)
    requires RightToLeft(ms, |text|)
    ensures |SpliceAll(text, ms, render)| == |text| + TotalGrowth(text, ms, render)
    decreases |ms|
  {
    if ms != [] {
      RestIsBefore(ms, |text|);
      SpliceRightmost(text, ms, render);
      SpliceLength(text[..ms[0].position], ms[1..], render);
      GrowthPrefix(text, ms[0].position, ms[1..], render);
    }
  }

  /** The length changes by exactly the sum of the per-match differences. */
  lemma SplicingLength(text: string, ms: seq<Match>, render: Renderer)
    requires WellPlaced(text, ms)
    ensures |SpliceAll(text, Rightmost(ms), render)| == |text| + TotalGrowth(text, ms, render)
  {
    SortedIsRightToLeft(text, ms);
    SpliceLength(text, Rightmost(ms), render);
    GrowthSorted(text, ms, render);
  }

  // ----- any match list at all

  /** Framing the middle of three parts. */
  lemma FrameKeeps(x: string, head: string, y: string, foot: string, z: string)
    ensures Subseq(x + y + z, x + (head + y + foot) + z)
  {
    SubseqRefl(x);
    SubseqRefl(z);
    SubseqInsert("", head, y);
    assert "" + y == y && "" + head + y == head + y;
    SubseqInsert(head + y, foot, "");
    assert head + y + "" == head + y && head + y + foot + "" == head + y + foot;
    SubseqTrans(y, head + y, head + y + foot);
    SubseqConcat(x, x, y, head + y + foot);
    SubseqConcat(x + y, x + (head + y + foot), z, z);
  }

  lemma FlagKeepsText(s: string, m: Match)
    ensures Subseq(s, Splice(s, m, Flag))
  {
    var start, end := Clamp(m.position, |s|), Clamp(m.End(), |s|);
    var head := Framed("[INJECTION_WARNING pattern=\"", m.patternName, "\" severity=\"", m.severity, "\"]\n");
    var foot := "\n" + "[/INJECTION_WARNING]";
    FrameKeeps(s[..start], head, s[start..end], foot, s[end..]);
    assert s == s[..start] + s[start..end] + s[end..];
    ConcatAssoc(head + s[start..end], "\n", "[/INJECTION_WARNING]");
  }

  /** Flagging never loses, reorders or rewrites a character of the text, whatever the matches:
      overlapping, out of range, empty or repeated. */
  lemma {:induction false} FlagsKeepText(text: string, ms: seq<Match>)
    ensures Subseq(text, SpliceAll(text, ms, Flag))
    decreases |ms|
  {
    if ms == [] {
      SubseqRefl(text);
    } else {
      var next := Splice(text, ms[0], Flag);
      FlagKeepsText(text, ms[0]);
      FlagsKeepText(next, ms[1..]);
      SubseqTrans(text, next, SpliceAll(next, ms[1..], Flag));
    }
  }

  // ----- what redaction leaves behind when matches overlap

  /** A character of the redacted text: one of the original, by its index, or part of a notice. */
  datatype Cell = Kept(index: nat) | Notice(c: char)

  function NoticeCell(c: char): (r: Cell) { Notice(c) }

  /** The notice that takes a match's place, whatever text it finds there. */
  type Notifier = Match -> string

  function RedactionNotice(): (r: Notifier) { (m: Match) => Redaction("", m) }

  function NoticeOf(m: Match, notice: Notifier): (r: seq<Cell>) { Map(notice(m), NoticeCell) }

  function SpliceCells(s: seq<Cell>, m: Match, notice: Notifier): (r: seq<Cell>) {
    var start, end := Clamp(m.position, |s|), Clamp(m.End(), |s|);
    s[..start] + NoticeOf(m, notice) + s[end..]
  }

  function Trace(s: seq<Cell>, ms: seq<Match>, notice: Notifier): (r: seq<Cell>)
    decreases |ms|
  {
    if ms == [] then s else Trace(SpliceCells(s, ms[0], notice), ms[1..], notice)
  }

  function Whole(text: string): (r: seq<Cell>) { seq(|text|, i requires 0 <= i => Kept(i)) }

  function CharOf(text: string): (r: Cell -> char) {
    (cell: Cell) => match cell case Kept(i) => if i < |text| then text[i] else ' ' case Notice(c) => c
  }

  /** `render` puts the notice, and `show` shows notices as they are. */
  ghost predicate Shows(render: Renderer, notice: Notifier, show: Cell -> char) {
    (forall t, m :: render(t, m) == notice(m)) && forall c :: show(Notice(c)) == c
  }

  lemma MapConcat(a: seq<Cell>, b: seq<Cell>, show: Cell -> char)
    ensures Map(a + b, show) == Map(a, show) + Map(b, show)
  {}

  lemma SpliceShows(s: seq<Cell>, m: Match, render: Renderer, notice: Notifier, show: Cell -> char)
    requires Shows(render, notice, show)
    ensures Map(SpliceCells(s, m, notice), show) == Splice(Map(s, show), m, render)
  {
    var start, end := Clamp(m.position, |s|), Clamp(m.End(), |s|);
    MapConcat(s[..start], NoticeOf(m, notice), show);
    MapConcat(s[..start] + NoticeOf(m, notice), s[end..], show);
    assert Map(NoticeOf(m, notice), show) == notice(m);
    assert Map(s[..start], show) == Map(s, show)[..start] && Map(s[end..], show) == Map(s, show)[end..];
  }

  lemma {:induction false} TraceShows(s: seq<Cell>, ms: seq<Match>, render: Renderer, notice: Notifier,
                                      show: Cell -> char)
    requires Shows(render, notice, show)
    ensures Map(Trace(s, ms, notice), show) == SpliceAll(Map(s, show), ms, render)
    decreases |ms|
  {
    if ms != [] {
      SpliceShows(s, ms[0], render, notice, show);
      TraceShows(SpliceCells(s, ms[0], notice), ms[1..], render, notice, show);
    }
  }

  /** Where a character now at `at` ends up; nowhere when some match takes it out. */
  function Follow(ms: seq<Match>, at: nat, notice: Notifier): (r: Option<nat>)
    decreases |ms|
  {
    if ms == [] then Some(at)
    else if at < ms[0].position then Follow(ms[1..], at, notice)
    else if at < ms[0].End() then None
    else Follow(ms[1..], at - |ms[0].matchedText| + |notice(ms[0])|, notice)
  }

  ghost predicate OnlyAt(s: seq<Cell>, cell: Cell, at: nat) {
    at < |s| && s[at] == cell && forall i :: 0 <= i < |s| && s[i] == cell ==> i == at
  }

  /** Exchanging the middle of three parts for something without the cell. */
  lemma MiddleMoves(a: seq<Cell>, mid: seq<Cell>, c: seq<Cell>, b: seq<Cell>, cell: Cell, at: nat)
    requires OnlyAt(a + mid + c, cell, at) && cell !in b
    ensures at < |a| ==> OnlyAt(a + b + c, cell, at)
    ensures |a| <= at < |a + mid| ==> cell !in a + b + c
    ensures |a + mid| <= at ==> OnlyAt(a + b + c, cell, at - |mid| + |b|)
  {
    var s := a + mid + c;
    assert forall i :: 0 <= i < |a| ==> a[i] == s[i];
    assert forall i :: 0 <= i < |c| ==> c[i] == s[|a + mid| + i];
    assert at < |a| ==> cell !in c && a[at] == cell;
    assert |a| <= at < |a + mid| ==> cell !in a && cell !in c;
    assert |a + mid| <= at ==> cell !in a && c[at - |a + mid|] == cell;
  }

  lemma SpliceMoves(s: seq<Cell>, m: Match, notice: Notifier, cell: Cell, at: nat)
    requires cell.Kept? && OnlyAt(s, cell, at)
    ensures at < m.position ==> OnlyAt(SpliceCells(s, m, notice), cell, at)
    ensures m.position <= at < m.End() ==> cell !in SpliceCells(s, m, notice)
    ensures m.End() <= at ==> OnlyAt(SpliceCells(s, m, notice), cell, at - |m.matchedText| + |notice(m)|)
  {
    var start, end := Clamp(m.position, |s|), Clamp(m.End(), |s|);
    assert s == s[..start] + s[start..end] + s[end..];
    MiddleMoves(s[..start], s[start..end], s[end..], NoticeOf(m, notice), cell, at);
  }

  lemma {:induction false} Gone(s: seq<Cell>, ms: seq<Match>, notice: Notifier, cell: Cell)
    requires cell.Kept? && cell !in s
    ensures cell !in Trace(s, ms, notice)
    decreases |ms|
  {
    if ms != [] { Gone(SpliceCells(s, ms[0], notice), ms[1..], notice, cell); }
  }

  lemma {:induction false} TraceFollows(s: seq<Cell>, ms: seq<Match>, notice: Notifier, cell: Cell, at: nat)
    requires cell.Kept? && OnlyAt(s, cell, at)
    ensures match Follow(ms, at, notice)
            case None => cell !in Trace(s, ms, notice)
            case Some(k) => OnlyAt(Trace(s, ms, notice), cell, k)
    decreases |ms|
  {
    if ms != [] {
      var m, t := ms[0], SpliceCells(s, ms[0], notice);
      SpliceMoves(s, m, notice, cell, at);
      if at < m.position {
        TraceFollows(t, ms[1..], notice, cell, at);
      } else if at < m.End() {
        Gone(t, ms[1..], notice, cell);
      } else {
        TraceFollows(t, ms[1..], notice, cell, at - |m.matchedText| + |notice(m)|);
      }
    }
  }

  /** For any match list at all: character `j` is left, once, exactly when no match falls on the
      place to which the earlier notices have moved it. */
  lemma LeftBehindExactly(text: string, ms: seq<Match>, notice: Notifier, j: nat)
    requires j < |text|
    ensures Kept(j) in Trace(Whole(text), ms, notice) <==> Follow(ms, j, notice).Some?
  {
    assert OnlyAt(Whole(text), Kept(j), j);
    TraceFollows(Whole(text), ms, notice, Kept(j), j);
  }

  /** No match is longer than a notice. */
  ghost predicate NoticesCover(ms: seq<Match>, notice: Notifier) {
    forall m <- ms, n <- ms :: |m.matchedText| <= |notice(n)|
  }

  /** Of the matches that start at or before `j`, the first listed of those that start last. */
  function Nearest(ms: seq<Match>, j: nat): (r: Option<Match>)
    ensures r.None? ==> forall m <- ms :: m.position > j
    ensures r.Some? ==> r.value in ms && r.value.position <= j
                        && forall m <- ms :: m.position <= j ==> m.position <= r.value.position
  {
    if ms == [] then None
    else
      var rest := Nearest(ms[1..], j);
      if ms[0].position <= j && (rest.None? || ms[0].position >= rest.value.position) then Some(ms[0]) else rest
  }

  /** The first match of a sorted list that starts at or before `j`. */
  function FirstFrom(ms: seq<Match>, j: nat): (r: Option<Match>) {
    if ms == [] then None else if ms[0].position <= j then Some(ms[0]) else FirstFrom(ms[1..], j)
  }

  lemma {:induction false} FirstInserted(x: Match, ys: seq<Match>, j: nat)
    requires Sorted(ys, LeftwardKey)
    ensures FirstFrom(Insert(x, ys, LeftwardKey), j)
         == (var rest := FirstFrom(ys, j);
             if x.position <= j && (rest.None? || x.position >= rest.value.position) then Some(x) else rest)
  {
    if ys == [] {
    } else if LeftwardKey(x) <= LeftwardKey(ys[0]) {
      assert ([x] + ys)[1..] == ys;
      FirstIsNotAfter(ys, j);
    } else {
      FirstInserted(x, ys[1..], j);
      assert ([ys[0]] + Insert(x, ys[1..], LeftwardKey))[1..] == Insert(x, ys[1..], LeftwardKey);
    }
  }

  lemma {:induction false} FirstIsNotAfter(ys: seq<Match>, j: nat)
    requires Sorted(ys, LeftwardKey)
    ensures FirstFrom(ys, j).Some? ==> FirstFrom(ys, j).value.position <= ys[0].position
  {
    if ys != [] {
      FirstIsNotAfter(ys[1..], j);
      if |ys| > 1 { assert LeftwardKey(ys[0]) <= LeftwardKey(ys[1]); }
    }
  }

  lemma {:induction false} NearestIsFirst(ms: seq<Match>, j: nat)
    ensures FirstFrom(Rightmost(ms), j) == Nearest(ms, j)
  {
    if ms != [] {
      NearestIsFirst(ms[1..], j);
      StableSortLaws(ms[1..], LeftwardKey);
      FirstInserted(ms[0], StableSort(ms[1..], LeftwardKey), j);
    }
  }

  lemma RestOfSorted(ms: seq<Match>, notice: Notifier)
    requires ms != [] && Sorted(ms, LeftwardKey) && NoticesCover(ms, notice)
    ensures Sorted(ms[1..], LeftwardKey) && NoticesCover(ms[1..], notice)
    ensures forall m <- ms[1..] :: m.position <= ms[0].position && |m.matchedText| <= |notice(ms[0])|
  {
    forall m | m in ms[1..] ensures m.position <= ms[0].position {
      var i :| 0 <= i < |ms| - 1 && ms[1..][i] == m;
      assert LeftwardKey(ms[0]) <= LeftwardKey(ms[i + 1]);
    }
  }

  /** Behind the notice of the match before it, a character is out of reach of all later ones. */
  lemma {:induction false} BehindNotice(ms: seq<Match>, notice: Notifier, p: nat, n: nat, at: nat)
    requires p + n <= at && (forall m <- ms :: m.position <= p && |m.matchedText| <= n)
    requires Sorted(ms, LeftwardKey) && NoticesCover(ms, notice)
    ensures Follow(ms, at, notice).Some?
    decreases |ms|
  {
    if ms != [] {
      var m, k := ms[0], |notice(ms[0])|;
      RestOfSorted(ms, notice);
      assert m in ms;
      BehindNotice(ms[1..], notice, m.position, k, at - |m.matchedText| + k);
    }
  }

  lemma {:induction false} FollowSorted(ms: seq<Match>, notice: Notifier, j: nat)
    requires Sorted(ms, LeftwardKey) && NoticesCover(ms, notice)
    ensures Follow(ms, j, notice).Some? <==> FirstFrom(ms, j).None? || FirstFrom(ms, j).value.End() <= j
    decreases |ms|
  {
    if ms != [] {
      var m, k := ms[0], |notice(ms[0])|;
      RestOfSorted(ms, notice);
      if j < m.position {
        FollowSorted(ms[1..], notice, j);
      } else if m.End() <= j {
        BehindNotice(ms[1..], notice, m.position, k, j - |m.matchedText| + k);
      }
    }
  }

  lemma {:induction false} FirstTakesOut(ms: seq<Match>, notice: Notifier, j: nat)
    requires FirstFrom(ms, j).Some? && j < FirstFrom(ms, j).value.End()
    ensures Follow(ms, j, notice).None?
  {
    if j < ms[0].position { FirstTakesOut(ms[1..], notice, j); }
  }

  /** The nearest match that starts at or before a character takes it out if it covers it; and while no
      match is longer than a notice, nothing else does: a longer match that starts earlier is no help. */
  lemma NearestDecides(text: string, ms: seq<Match>, notice: Notifier, j: nat)
    requires j < |text|
    ensures NearestCovers(ms, j) ==> Kept(j) !in Trace(Whole(text), Rightmost(ms), notice)
    ensures NoticesCover(ms, notice) ==>
              (Kept(j) in Trace(Whole(text), Rightmost(ms), notice) <==> !NearestCovers(ms, j))
  {
    LeftBehindExactly(text, Rightmost(ms), notice, j);
    NearestIsFirst(ms, j);
    if NearestCovers(ms, j) {
      FirstTakesOut(Rightmost(ms), notice, j);
    } else if NoticesCover(ms, notice) {
      StableSortLaws(ms, LeftwardKey);
      assert forall m :: m in ms <==> m in multiset(ms);
      assert forall m :: m in Rightmost(ms) <==> m in multiset(Rightmost(ms));
      FollowSorted(Rightmost(ms), notice, j);
    }
  }

  // ----- matches of any length

  function StartsBy(j: nat): (r: Match -> bool) { (m: Match) => m.position <= j }

  /** The matches that start at or before `j`, in the order in which they are spliced. */
  function Reaching(ms: seq<Match>, j: nat): (r: seq<Match>) { Rightmost(Filter(ms, StartsBy(j))) }

  /** By how much the text behind these matches moves. */
  function Gain(ms: seq<Match>, notice: Notifier): (r: int) {
    if ms == [] then 0 else |notice(ms[0])| - |ms[0].matchedText| + Gain(ms[1..], notice)
  }

  /** Some match reaches beyond `j`, pushed to the right by the notices put in before it. */
  ghost predicate Reached(ms: seq<Match>, j: nat, notice: Notifier) { ReachedBy(Reaching(ms, j), j, notice) }

  ghost predicate ReachedBy(us: seq<Match>, at: int, notice: Notifier) {
    exists k :: 0 <= k < |us| && at + Gain(us[..k], notice) < us[k].End()
  }

  lemma ReachedNext(us: seq<Match>, at: int, notice: Notifier)
    requires us != []
    ensures ReachedBy(us, at, notice) <==>
              at < us[0].End() || ReachedBy(us[1..], at - |us[0].matchedText| + |notice(us[0])|, notice)
  {
    var rest, next := us[1..], at - |us[0].matchedText| + |notice(us[0])|;
    assert us[..0] == [];
    forall k | 0 <= k < |rest| ensures at + Gain(us[..k + 1], notice) == next + Gain(rest[..k], notice) {
      assert us[..k + 1][1..] == rest[..k] && us[..k + 1][0] == us[0];
    }
    if ReachedBy(us, at, notice) {
      var k :| 0 <= k < |us| && at + Gain(us[..k], notice) < us[k].End();
      if k > 0 { assert next + Gain(rest[..k - 1], notice) < rest[k - 1].End(); }
    }
    if ReachedBy(rest, next, notice) {
      var k :| 0 <= k < |rest| && next + Gain(rest[..k], notice) < rest[k].End();
      assert at + Gain(us[..k + 1], notice) < us[k + 1].End();
    }
  }

  lemma {:induction false} FollowReached(us: seq<Match>, at: nat, notice: Notifier)
    requires Sorted(us, LeftwardKey) && forall m <- us :: m.position <= at
    ensures Follow(us, at, notice).None? <==> ReachedBy(us, at, notice)
    decreases |us|
  {
    if us != [] {
      var next := at - |us[0].matchedText| + |notice(us[0])|;
      ReachedNext(us, at, notice);
      SortedRest(us);
      assert us[0] in us;
      if us[0].End() <= at {
        assert forall m <- us[1..] :: m.position <= next;
        FollowReached(us[1..], next, notice);
      }
    }
  }

  lemma SortedRest(ms: seq<Match>)
    requires ms != [] && Sorted(ms, LeftwardKey)
    ensures Sorted(ms[1..], LeftwardKey) && forall m <- ms[1..] :: m.position <= ms[0].position
  {
    forall m | m in ms[1..] ensures m.position <= ms[0].position {
      var i :| 0 <= i < |ms| - 1 && ms[1..][i] == m;
      assert LeftwardKey(ms[0]) <= LeftwardKey(ms[i + 1]);
    }
  }

  /** Matches that start behind a character have no say about it. */
  lemma {:induction false} FollowSkips(ms: seq<Match>, j: nat, notice: Notifier)
    requires Sorted(ms, LeftwardKey)
    ensures Follow(ms, j, notice) == Follow(Filter(ms, StartsBy(j)), j, notice)
  {
    if ms != [] {
      SortedRest(ms);
      if j < ms[0].position {
        FollowSkips(ms[1..], j, notice);
      } else {
        FilterAll(ms, StartsBy(j));
      }
    }
  }

  /** For any matches at all, a character goes exactly when one of the matches that start at or before
      it ends behind it, after the notices of those spliced earlier have pushed it along. */
  lemma ReachDecides(text: string, ms: seq<Match>, notice: Notifier, j: nat)
    requires j < |text|
    ensures Kept(j) in Trace(Whole(text), Rightmost(ms), notice) <==> !Reached(ms, j, notice)
  {
    LeftBehindExactly(text, Rightmost(ms), notice, j);
    StableSortLaws(ms, LeftwardKey);
    FollowSkips(Rightmost(ms), j, notice);
    FilterSort(ms, LeftwardKey, StartsBy(j));
    StableSortLaws(Filter(ms, StartsBy(j)), LeftwardKey);
    FilterKeeps(Rightmost(ms), StartsBy(j));
    FollowReached(Reaching(ms, j), j, notice);
  }

  // ----- when no matched character is left

  /** Nothing that a match covers is left in the text. */
  ghost predicate MatchedGone(text: string, ms: seq<Match>, notice: Notifier) {
    forall m <- ms, j :: m.position <= j < m.End() && j < |text| ==>
      Kept(j) !in Trace(Whole(text), Rightmost(ms), notice)
  }

  /** Wherever a match ends inside another, the nearest match from there on covers the next character. */
  ghost predicate EndsCovered(text: string, ms: seq<Match>) {
    forall m <- ms, n <- ms :: m.position <= n.End() < m.End() && n.End() < |text| ==> NearestCovers(ms, n.End())
  }

  lemma {:induction false} NearestEarlier(ms: seq<Match>, j: nat, e: nat)
    requires Nearest(ms, j).Some? && Nearest(ms, j).value.position <= e <= j
    ensures Nearest(ms, e) == Nearest(ms, j)
  {
    var rest := Nearest(ms[1..], j);
    if rest.Some? && rest.value.position <= e { NearestEarlier(ms[1..], j, e); }
  }

  /** No matched character is left exactly when each is reached; while no match is longer than a
      notice it is enough to look at the ends: each end inside another match has to be covered. */
  lemma MatchedGoneExactly(text: string, ms: seq<Match>, notice: Notifier)
    ensures MatchedGone(text, ms, notice) <==>
              forall m <- ms, j :: m.position <= j < m.End() && j < |text| ==> Reached(ms, j, notice)
    ensures NoticesCover(ms, notice) ==> (MatchedGone(text, ms, notice) <==> EndsCovered(text, ms))
  {
    forall j | 0 <= j < |text|
      ensures Kept(j) in Trace(Whole(text), Rightmost(ms), notice) <==> !Reached(ms, j, notice)
    {
      ReachDecides(text, ms, notice, j);
    }
    if NoticesCover(ms, notice) {
      forall j | 0 <= j < |text|
        ensures Kept(j) in Trace(Whole(text), Rightmost(ms), notice) <==> !NearestCovers(ms, j)
      {
        NearestDecides(text, ms, notice, j);
      }
      if EndsCovered(text, ms) {
        forall m, j | m in ms && m.position <= j < m.End() && j < |text| ensures NearestCovers(ms, j) {
          EndDecides(text, ms, m, j);
        }
      }
    }
  }

  lemma EndDecides(text: string, ms: seq<Match>, m: Match, j: nat)
    requires EndsCovered(text, ms) && m in ms && m.position <= j < m.End() && j < |text|
    ensures NearestCovers(ms, j)
  {
    var q := Nearest(ms, j).value;
    assert q.End() <= j ==> NearestCovers(ms, q.End());
    if q.End() <= j { NearestEarlier(ms, j, q.End()); }
  }

  predicate NearestCovers(ms: seq<Match>, j: nat) { Nearest(ms, j).Some? && j < Nearest(ms, j).value.End() }

  /** What redaction makes of any text and any matches: which characters are left, and that all the
      rest is notices. */
  ghost predicate LeavesExactly(text: string, ms: seq<Match>, notice: Notifier, result: string) {
    var cells := Trace(Whole(text), Rightmost(ms), notice);
    && result == Map(cells, CharOf(text))
    && (forall j :: 0 <= j < |text| ==> (Kept(j) in cells <==> !Reached(ms, j, notice)))
    && (NoticesCover(ms, notice) ==> forall j :: 0 <= j < |text| ==> (Kept(j) in cells <==> !NearestCovers(ms, j)))
  }

  lemma RedactionLeaves(text: string, ms: seq<Match>, render: Renderer, notice: Notifier)
    requires forall t, m :: render(t, m) == notice(m)
    ensures LeavesExactly(text, ms, notice, SpliceAll(text, Rightmost(ms), render))
  {
    assert Map(Whole(text), CharOf(text)) == text;
    TraceShows(Whole(text), Rightmost(ms), render, notice, CharOf(text));
    forall j | 0 <= j < |text|
      ensures Kept(j) in Trace(Whole(text), Rightmost(ms), notice) <==> !Reached(ms, j, notice)
    {
      ReachDecides(text, ms, notice, j);
    }
    if NoticesCover(ms, notice) {
      forall j | 0 <= j < |text|
        ensures Kept(j) in Trace(Whole(text), Rightmost(ms), notice) <==> !NearestCovers(ms, j)
      {
        NearestDecides(text, ms, notice, j);
      }
    }
  }

  lemma NoticeIsLong(m: Match)
    ensures |RedactionNotice()(m)| >= 100
  {}

  /** A match inside another leaves the end of the outer one in place. */
  lemma OverlapLeavesText(name: string, severity: string)
    ensures var ms := [Match(0, "abcde", name, severity), Match(1, "b", name, severity)];
            forall j :: 2 <= j < 5 ==> Kept(j) in Trace(Whole("abcde"), Rightmost(ms), RedactionNotice())
  {
    var a, b, notice := Match(0, "abcde", name, severity), Match(1, "b", name, severity), RedactionNotice();
    NoticeIsLong(a);
    NoticeIsLong(b);
    assert NoticesCover([a, b], notice);
    forall j | 2 <= j < 5 ensures Kept(j) in Trace(Whole("abcde"), Rightmost([a, b]), notice) {
      assert [a, b][1..] == [b] && [b][1..] == [];
      NearestDecides("abcde", [a, b], notice, j);
    }
  }

  method ApplyInjectionFlags(text: string, matches: seq<Match>) returns (result: string)
    ensures result == SpliceAll(text, Rightmost(matches), Flag)
    ensures Subseq(text, result)
    ensures WellPlaced(text, matches) ==>
              && result == Render(text, Elements(matches), 0, Flag)
              && |result| == |text| + TotalGrowth(text, matches, Flag)
  {
    result := text;
    if matches != [] {
      result := FlagAll(text, Rightmost(matches));
    }
    FlagsKeepText(text, Rightmost(matches));
    if WellPlaced(text, matches) {
      SplicingRefinesRender(text, matches, Flag);
      SplicingLength(text, matches, Flag);
    }
  }

  /** The loop of `apply_injection_flags`. */
  method FlagAll(text: string, sortedMatches: seq<Match>) returns (result: string)
    ensures result == SpliceAll(text, sortedMatches, Flag)
  {
    result := text;
    for i := 0 to |sortedMatches|
      invariant SpliceAll(result, sortedMatches[i..], Flag) == SpliceAll(text, sortedMatches, Flag)
    {
      var m := sortedMatches[i];
      var start, end := Clamp(m.position, |result|), Clamp(m.End(), |result|);
      var flagged := WrapInjectionWarning(result[start..end], m.patternName, m.severity);
      assert sortedMatches[i..][1..] == sortedMatches[i + 1..];
      result := result[..start] + flagged + result[end..];
    }
  }

  method RedactInjection(text: string, matches: seq<Match>) returns (result: string)
    ensures result == SpliceAll(text, Rightmost(matches), Redaction)
    ensures WellPlaced(text, matches) ==>
              && result == Render(text, Elements(matches), 0, Redaction)
              && |result| == |text| + TotalGrowth(text, matches, Redaction)
    ensures LeavesExactly(text, matches, RedactionNotice(), result)
  {
    result := text;
    if matches != [] {
      result := RedactAll(text, Rightmost(matches));
    }
    RedactionLeaves(text, matches, Redaction, RedactionNotice());
    if WellPlaced(text, matches) {
      SplicingRefinesRender(text, matches, Redaction);
      SplicingLength(text, matches, Redaction);
    }
  }

  /** The loop of `redact_injection`. */
  method RedactAll(text: string, sortedMatches: seq<Match>) returns (result: string)
    ensures result == SpliceAll(text, sortedMatches, Redaction)
  {
    result := text;
    for i := 0 to |sortedMatches|
      invariant SpliceAll(result, sortedMatches[i..], Redaction) == SpliceAll(text, sortedMatches, Redaction)
    {
      var m := sortedMatches[i];
      var start, end := Clamp(m.position, |result|), Clamp(m.End(), |result|);
      var redaction := Redaction(result[start..end], m);
      assert sortedMatches[i..][1..] == sortedMatches[i + 1..];
      result := result[..start] + redaction + result[end..];
    }
  }
}
