/** `evaluate_pipeline`: content passed through an ordered sequence of scanners. */
module ScannerPipeline {
  import opened Json
  import opened Seqs

  datatype Entry = Entry(kind: string, name: string, direction: string, order: int, enabled: bool)

  datatype Verdict = Verdict(action: string, score: real, reason: string, scanner: string)

  /** What a scanner does with content: transform and judge it, or raise. */
  datatype Scan = Scanned(content: string, verdict: Verdict) | Raised

  datatype Config = Config(fallbackPolicy: string, scanners: seq<Entry>)

  datatype PipelineResult = PipelineResult(action: string, score: real, verdicts: seq<Verdict>,
                                           modified: Option<string>)

  /** The scanners, as the network and their own code make them: whether an entry resolves to one,
      and what the n-th scanner run does with an entry and the content so far. */
  datatype Scanners = Scanners(resolves: Entry -> bool, scan: (nat, Entry, string) -> Scan)

  const DEFAULT_PIPELINE :=
    Config("fail_open", [Entry("builtin", "pattern_scanner", "output", 1, true),
                         Entry("builtin", "secret_scanner", "output", 2, true),
                         Entry("builtin", "trust_boundary", "output", 3, true)])

  function Order(e: Entry): (r: int) { e.order }

  function Relevant(sc: Scanners, direction: string): (r: Entry -> bool) {
    (e: Entry) => e.enabled && (e.direction == "both" || e.direction == direction) && sc.resolves(e)
  }

  predicate Blocks(s: Scan) { s.Scanned? && s.verdict.action == "block" }

  function Skipped(e: Entry): (r: Verdict) {
    Verdict("pass", 0.0, "scanner error \U{2014} skipped", e.name)
  }

  function VerdictOf(e: Entry, s: Scan): (r: Verdict) { if s.Scanned? then s.verdict else Skipped(e) }

  function Severity(action: string): (r: nat) {
    if action == "block" then 2 else if action == "flag" then 1 else 0
  }

  /** `max(verdicts, key=severity)`: the first of the most severe. */
  function Deciding(vs: seq<Verdict>): (r: Verdict)
    requires vs != []
    ensures r in vs && forall v <- vs :: Severity(v.action) <= Severity(r.action)
    ensures exists i :: 0 <= i < |vs| && FirstWorst(vs, i, r)
  {
    if |vs| == 1 then
      assert FirstWorst(vs, 0, vs[0]);
      vs[0]
    else
      var best := Deciding(vs[1..]);
      assert vs == [vs[0]] + vs[1..];
      if Severity(vs[0].action) >= Severity(best.action) then
        assert FirstWorst(vs, 0, vs[0]);
        vs[0]
      else
        var i :| 0 <= i < |vs[1..]| && FirstWorst(vs[1..], i, best);
        assert FirstWorst(vs, i + 1, best);
        best
  }

  /** `v` stands at `i`, and everything before it is less severe. */
  predicate FirstWorst(vs: seq<Verdict>, i: int, v: Verdict) {
    0 <= i < |vs| && vs[i] == v && forall j :: 0 <= j < i ==> Severity(vs[j].action) < Severity(v.action)
  }

  // ----- the reference: select and sort, run up to the first block, then conclude

  /** The entries that matter, stably sorted by order. */
  function Selected(sc: Scanners, direction: string, entries: seq<Entry>): (r: seq<Entry>) {
    StableSort(Filter(entries, Relevant(sc, direction)), Order)
  }

  /** The runs of the selected scanners, the first one being the k-th run: each sees what the one
      before left, an error leaves the content alone, and a block ends it. */
  function Runs(sc: Scanners, sel: seq<Entry>, content: string, k: nat): (r: seq<Scan>)
    ensures |r| <= |sel|
  {
    if sel == [] then []
    else
      var s := sc.scan(k, sel[0], content);
      [s] + (if Blocks(s) then [] else Runs(sc, sel[1..], Pass(content, s), k + 1))
  }

  /** What one run leaves of the content. */
  function Pass(content: string, s: Scan): (r: string) { if s.Scanned? then s.content else content }

  /** Content after some runs: the transforms that did not err, composed. */
  function ContentAfter(content: string, runs: seq<Scan>): (r: string) {
    if runs == [] then content else Pass(ContentAfter(content, runs[..|runs| - 1]), runs[|runs| - 1])
  }

  function Verdicts(sel: seq<Entry>, runs: seq<Scan>): (r: seq<Verdict>)
    requires |runs| <= |sel|
    ensures |r| == |runs| && forall i :: 0 <= i < |r| ==> r[i] == VerdictOf(sel[i], runs[i])
  {
    seq(|runs|, i requires 0 <= i < |runs| => VerdictOf(sel[i], runs[i]))
  }

  function Conclude(policy: string, allErred: bool, verdicts: seq<Verdict>): (r: (string, real)) {
    if verdicts == [] then ("pass", 0.0)
    else if allErred then (if policy == "fail_closed" then ("block", 1.0) else ("pass", 0.0))
    else (Deciding(verdicts).action, Deciding(verdicts).score)
  }

  function AllErred(runs: seq<Scan>): (r: bool) { forall s <- runs :: s.Raised? }

  function Pipeline(sc: Scanners, direction: string, config: Config, content: string): (r: PipelineResult) {
    var sel := Selected(sc, direction, config.scanners);
    var runs := Runs(sc, sel, content, 0);
    var verdicts := Verdicts(sel, runs);
    var (action, score) := Conclude(config.fallbackPolicy, AllErred(runs), verdicts);
    var final := ContentAfter(content, runs);
    PipelineResult(action, score, verdicts, if final != content then Some(final) else None)
  }

  // ----- the evaluator

  /** Sorting everything and skipping the irrelevant entries visits the selected ones in order. */
  lemma SelectedBySkipping(sc: Scanners, direction: string, entries: seq<Entry>)
    ensures Filter(StableSort(entries, Order), Relevant(sc, direction)) == Selected(sc, direction, entries)
  {
    FilterSort(entries, Order, Relevant(sc, direction));
  }

  /** The loop's variables. */
  datatype Progress = Progress(content: string, verdicts: seq<Verdict>, allErred: bool)

  function Add(p: Progress, e: Entry, s: Scan): (r: Progress) {
    Progress(Pass(p.content, s), p.verdicts + [VerdictOf(e, s)], p.allErred && s.Raised?)
  }

  /** The loop over sorted entries, from given variables on. */
  function Visit(sc: Scanners, keep: Entry -> bool, entries: seq<Entry>, p: Progress): (r: Progress)
    decreases |entries|
  {
    if entries == [] then p
    else if !keep(entries[0]) then Visit(sc, keep, entries[1..], p)
    else
      var s := sc.scan(|p.verdicts|, entries[0], p.content);
      if Blocks(s) then Add(p, entries[0], s) else Visit(sc, keep, entries[1..], Add(p, entries[0], s))
  }

  lemma {:induction false} VisitSkips(sc: Scanners, keep: Entry -> bool, entries: seq<Entry>, p: Progress)
    ensures Visit(sc, keep, entries, p) == Visit(sc, keep, Filter(entries, keep), p)
    decreases |entries|
  {
    if entries != [] {
      if !keep(entries[0]) {
        VisitSkips(sc, keep, entries[1..], p);
      } else {
        var s := sc.scan(|p.verdicts|, entries[0], p.content);
        VisitSkips(sc, keep, entries[1..], Add(p, entries[0], s));
        assert Filter(entries, keep)[1..] == Filter(entries[1..], keep);
      }
    }
  }

  lemma {:induction false} ContentShift(content: string, s: Scan, runs: seq<Scan>)
    ensures ContentAfter(content, [s] + runs) == ContentAfter(Pass(content, s), runs)
  {
    if runs != [] {
      ContentShift(content, s, runs[..|runs| - 1]);
      assert ([s] + runs)[..|[s] + runs| - 1] == [s] + runs[..|runs| - 1];
    } else {
      assert ([s] + runs)[..0] == [];
    }
  }

  /** The loop's variables after further runs, of the first scanners of `sel`. */
  function Extend(p: Progress, sel: seq<Entry>, runs: seq<Scan>): (r: Progress)
    requires |runs| <= |sel|
  {
    Progress(ContentAfter(p.content, runs), p.verdicts + Verdicts(sel, runs), p.allErred && AllErred(runs))
  }

  lemma VerdictsCons(sel: seq<Entry>, s: Scan, later: seq<Scan>, before: seq<Verdict>)
    requires |later| < |sel|
    ensures before + Verdicts(sel, [s] + later) == before + [VerdictOf(sel[0], s)] + Verdicts(sel[1..], later)
  {}

  lemma ErredCons(s: Scan, later: seq<Scan>)
    ensures AllErred([s] + later) <==> s.Raised? && AllErred(later)
  {
    assert forall x :: x in [s] + later <==> x == s || x in later;
  }

  lemma ExtendCons(p: Progress, sel: seq<Entry>, s: Scan, later: seq<Scan>)
    requires |later| < |sel|
    ensures Extend(p, sel, [s] + later) == Extend(Add(p, sel[0], s), sel[1..], later)
  {
    ContentShift(p.content, s, later);
    VerdictsCons(sel, s, later, p.verdicts);
    ErredCons(s, later);
  }

  lemma ExtendNone(p: Progress, sel: seq<Entry>)
    ensures Extend(p, sel, []) == p
  {
    assert p.verdicts + [] == p.verdicts;
  }

  lemma {:induction false} VisitIsRuns(sc: Scanners, keep: Entry -> bool, sel: seq<Entry>, p: Progress)
    requires forall e <- sel :: keep(e)
    ensures Visit(sc, keep, sel, p) == Extend(p, sel, Runs(sc, sel, p.content, |p.verdicts|))
    decreases |sel|
  {
    if sel == [] {
      ExtendNone(p, sel);
    } else {
      var s := sc.scan(|p.verdicts|, sel[0], p.content);
      var next := Add(p, sel[0], s);
      var later := if Blocks(s) then [] else Runs(sc, sel[1..], next.content, |next.verdicts|);
      ExtendCons(p, sel, s, later);
      if Blocks(s) {
        ExtendNone(next, sel[1..]);
      } else {
        VisitIsRuns(sc, keep, sel[1..], next);
      }
    }
  }

  /** The loop over the sorted entries. */
  method RunAll(sc: Scanners, direction: string, entries: seq<Entry>, content: string) returns (p: Progress)
    ensures p == Visit(sc, Relevant(sc, direction), entries, Progress(content, [], true))
  {
    var modified, verdicts, allErred := content, [], true;
    ghost var keep := Relevant(sc, direction);
    for i := 0 to |entries|
      invariant Visit(sc, keep, entries[i..], Progress(modified, verdicts, allErred))
             == Visit(sc, keep, entries, Progress(content, [], true))
    {
      var entry := entries[i];
      assert entries[i..][1..] == entries[i + 1..];
      if !entry.enabled { continue; }
      if entry.direction != "both" && entry.direction != direction { continue; }
      if !sc.resolves(entry) { continue; }
      var s := sc.scan(|verdicts|, entry, modified);
      if s.Scanned? {
        modified := s.content;
        verdicts := verdicts + [s.verdict];
        allErred := false;
        if s.verdict.action == "block" { return Progress(modified, verdicts, allErred); }
      } else {
        verdicts := verdicts + [Skipped(entry)];
      }
    }
    return Progress(modified, verdicts, allErred);
  }

  /** The loop, which sorts first and skips as it goes, refines the reference. */
  lemma LoopRefines(sc: Scanners, direction: string, entries: seq<Entry>, content: string)
    ensures var sel := Selected(sc, direction, entries);
            var runs := Runs(sc, sel, content, 0);
            Visit(sc, Relevant(sc, direction), StableSort(entries, Order), Progress(content, [], true))
            == Progress(ContentAfter(content, runs), Verdicts(sel, runs), AllErred(runs))
  {
    var keep, sel := Relevant(sc, direction), Selected(sc, direction, entries);
    VisitSkips(sc, keep, StableSort(entries, Order), Progress(content, [], true));
    SelectedBySkipping(sc, direction, entries);
    FilterKeeps(StableSort(entries, Order), keep);
    VisitIsRuns(sc, keep, sel, Progress(content, [], true));
    assert [] + Verdicts(sel, Runs(sc, sel, content, 0)) == Verdicts(sel, Runs(sc, sel, content, 0));
  }

  // ----- the outcome, said of the runs themselves

  /** `c` is what the last run that did not raise returned, or the content when all raised. */
  ghost predicate Leaves(content: string, runs: seq<Scan>, c: string) {
    (c == content && forall s <- runs :: s.Raised?) || exists i :: LastGood(runs, i) && runs[i].content == c
  }

  ghost predicate LastGood(runs: seq<Scan>, i: int) {
    0 <= i < |runs| && runs[i].Scanned? && forall j :: i < j < |runs| ==> runs[j].Raised?
  }

  lemma LeavesNext(content: string, init: seq<Scan>, last: Scan, c: string)
    ensures Leaves(content, init + [last], c) <==> if last.Scanned? then c == last.content else Leaves(content, init, c)
  {
    var runs := init + [last];
    assert last in runs && forall s :: s in runs <==> s in init || s == last;
    if last.Scanned? {
      assert LastGood(runs, |init|) && runs[|init|] == last;
      forall i | LastGood(runs, i) ensures i == |init| {}
    } else {
      forall i ensures LastGood(runs, i) <==> LastGood(init, i) {
        assert 0 <= i < |init| ==> runs[i] == init[i];
        if LastGood(init, i) { assert forall j :: i < j < |runs| ==> runs[j].Raised?; }
        if LastGood(runs, i) { assert forall j :: i < j < |init| ==> init[j] == runs[j]; }
      }
    }
  }

  lemma {:induction false} ContentIsLast(content: string, runs: seq<Scan>, c: string)
    ensures Leaves(content, runs, c) <==> c == ContentAfter(content, runs)
  {
    if runs != [] {
      var init, last := runs[..|runs| - 1], runs[|runs| - 1];
      assert runs == init + [last];
      ContentIsLast(content, init, c);
      LeavesNext(content, init, last, c);
    }
  }

  /** The selected entries: the enabled, fitting and resolvable ones, in order, and in the order of the
      configuration where their orders are the same. */
  ghost predicate IsSelection(sc: Scanners, direction: string, entries: seq<Entry>, sel: seq<Entry>) {
    && (forall e :: e in sel <==>
          e in entries && e.enabled && (e.direction == "both" || e.direction == direction) && sc.resolves(e))
    && Ascending(sel)
    && forall k :: Filter(sel, OfOrder(k)) == Filter(Filter(entries, Relevant(sc, direction)), OfOrder(k))
  }

  ghost predicate Ascending(sel: seq<Entry>) {
    forall i, j :: 0 <= i < j < |sel| ==> sel[i].order <= sel[j].order
  }

  function OfOrder(k: int): (r: Entry -> bool) { (e: Entry) => e.order == k }

  lemma SortedEntries(fit: seq<Entry>)
    ensures forall e :: e in StableSort(fit, Order) <==> e in fit
    ensures Ascending(StableSort(fit, Order))
  {
    var sel := StableSort(fit, Order);
    StableSortLaws(fit, Order);
    assert forall e :: e in sel <==> e in multiset(sel);
    forall i, j | 0 <= i < j < |sel| ensures sel[i].order <= sel[j].order { assert Order(sel[i]) <= Order(sel[j]); }
  }

  lemma StableEntries(fit: seq<Entry>, k: int)
    ensures Filter(StableSort(fit, Order), OfOrder(k)) == Filter(fit, OfOrder(k))
  {
    SortIsStable(fit, Order, OfOrder(k), k);
  }

  lemma SelectedIsSelection(sc: Scanners, direction: string, entries: seq<Entry>)
    ensures IsSelection(sc, direction, entries, Selected(sc, direction, entries))
  {
    var fit := Filter(entries, Relevant(sc, direction));
    FilterKeeps(entries, Relevant(sc, direction));
    SortedEntries(fit);
    forall k ensures Filter(StableSort(fit, Order), OfOrder(k)) == Filter(fit, OfOrder(k)) { StableEntries(fit, k); }
  }

  /** The runs of a selection: each scanner in turn gets what the runs before it left, a run that blocks
      is the last, and only such a run ends it early. */
  ghost predicate IsTrace(sc: Scanners, sel: seq<Entry>, content: string, runs: seq<Scan>) {
    && |runs| <= |sel|
    && (forall i, c :: 0 <= i < |runs| && Leaves(content, runs[..i], c) ==> runs[i] == sc.scan(i, sel[i], c))
    && (forall i :: 0 <= i < |runs| - 1 ==> !(runs[i].Scanned? && runs[i].verdict.action == "block"))
    && (|runs| < |sel| ==>
          runs != [] && runs[|runs| - 1].Scanned? && runs[|runs| - 1].verdict.action == "block")
  }

  lemma RunsAreTrace(sc: Scanners, sel: seq<Entry>, content: string)
    ensures IsTrace(sc, sel, content, Runs(sc, sel, content, 0))
  {
    var runs := Runs(sc, sel, content, 0);
    forall i, c | 0 <= i < |runs| && Leaves(content, runs[..i], c) ensures runs[i] == sc.scan(i, sel[i], c) {
      RunsInTurn(sc, sel, content, 0, i);
      ContentIsLast(content, runs[..i], c);
    }
    RunsStopAtBlock(sc, sel, content, 0);
  }

  /** A block outranks a flag, and a flag every other action. */
  lemma SeverityRanks(action: string)
    ensures Severity("block") > Severity("flag") > Severity("pass")
    ensures action != "block" && action != "flag" ==> Severity(action) == Severity("pass")
  {}

  /** Verdict `i` decides: nothing is more severe, and nothing before it as severe. */
  ghost predicate Decides(verdicts: seq<Verdict>, i: int) {
    && 0 <= i < |verdicts|
    && (forall j :: 0 <= j < |verdicts| ==> Severity(verdicts[j].action) <= Severity(verdicts[i].action))
    && (forall j :: 0 <= j < i ==> Severity(verdicts[j].action) < Severity(verdicts[i].action))
  }

  /** The verdicts of the runs, a neutral one for each that raised. */
  ghost predicate VerdictsOf(sel: seq<Entry>, runs: seq<Scan>, verdicts: seq<Verdict>)
    requires |runs| <= |sel|
  {
    && |verdicts| == |runs|
    && forall i :: 0 <= i < |runs| ==>
         verdicts[i] == if runs[i].Scanned? then runs[i].verdict
                        else Verdict("pass", 0.0, "scanner error \U{2014} skipped", sel[i].name)
  }

  /** The action and score of the deciding verdict, or what the policy says when all raised. */
  ghost predicate Concludes(policy: string, runs: seq<Scan>, verdicts: seq<Verdict>, action: string, score: real) {
    if runs == [] then action == "pass" && score == 0.0
    else if forall s <- runs :: s.Raised? then
      if policy == "fail_closed" then action == "block" && score == 1.0 else action == "pass" && score == 0.0
    else exists i :: Decides(verdicts, i) && action == verdicts[i].action && score == verdicts[i].score
  }

  /** The result of these runs; the modified content is what they leave, if that differs from what came in. */
  ghost predicate Judges(policy: string, sel: seq<Entry>, content: string, runs: seq<Scan>, r: PipelineResult)
    requires |runs| <= |sel|
  {
    && VerdictsOf(sel, runs, r.verdicts) && Concludes(policy, runs, r.verdicts, r.action, r.score)
    && (r.modified.None? <==> Leaves(content, runs, content))
    && (r.modified.Some? ==> Leaves(content, runs, r.modified.value))
  }

  lemma FirstDecides(verdicts: seq<Verdict>, i: int, worst: Verdict)
    requires FirstWorst(verdicts, i, worst) && forall v <- verdicts :: Severity(v.action) <= Severity(worst.action)
    ensures Decides(verdicts, i) && verdicts[i] == worst
  {
    forall j | 0 <= j < |verdicts| ensures Severity(verdicts[j].action) <= Severity(verdicts[i].action) {
      assert verdicts[j] in verdicts;
    }
  }

  lemma ConclusionHolds(policy: string, runs: seq<Scan>, verdicts: seq<Verdict>)
    requires |verdicts| == |runs|
    ensures var (action, score) := Conclude(policy, AllErred(runs), verdicts);
            Concludes(policy, runs, verdicts, action, score)
  {
    if runs != [] && !AllErred(runs) {
      var worst := Deciding(verdicts);
      var i :| 0 <= i < |verdicts| && FirstWorst(verdicts, i, worst);
      FirstDecides(verdicts, i, worst);
    }
  }

  lemma ModifiedHolds(content: string, runs: seq<Scan>, final: string)
    requires final == ContentAfter(content, runs)
    ensures (final == content <==> Leaves(content, runs, content)) && Leaves(content, runs, final)
  {
    ContentIsLast(content, runs, content);
    ContentIsLast(content, runs, final);
  }

  lemma PipelineJudges(sc: Scanners, direction: string, config: Config, content: string)
    ensures var sel := Selected(sc, direction, config.scanners);
            var runs := Runs(sc, sel, content, 0);
            Judges(config.fallbackPolicy, sel, content, runs, Pipeline(sc, direction, config, content))
  {
    var sel := Selected(sc, direction, config.scanners);
    var runs := Runs(sc, sel, content, 0);
    ModifiedHolds(content, runs, ContentAfter(content, runs));
    ConclusionHolds(config.fallbackPolicy, runs, Verdicts(sel, runs));
    VerdictsHold(sel, runs);
  }

  lemma VerdictsHold(sel: seq<Entry>, runs: seq<Scan>)
    requires |runs| <= |sel|
    ensures VerdictsOf(sel, runs, Verdicts(sel, runs))
  {}

  /** The default, when no pipeline is configured: three scanners, on output only, one after the other. */
  lemma DefaultSelection(sc: Scanners, direction: string)
    requires forall e :: sc.resolves(e)
    ensures DEFAULT_PIPELINE.fallbackPolicy == "fail_open"
    ensures Selected(sc, direction, DEFAULT_PIPELINE.scanners)
         == if direction != "output" then []
            else [Entry("builtin", "pattern_scanner", "output", 1, true),
                  Entry("builtin", "secret_scanner", "output", 2, true),
                  Entry("builtin", "trust_boundary", "output", 3, true)]
  {
    var es := DEFAULT_PIPELINE.scanners;
    var keep := Relevant(sc, direction);
    if direction != "output" {
      FilterNone(es, keep);
    } else {
      FilterAll(es, keep);
      assert es[1..] == [es[1], es[2]] && es[1..][1..] == [es[2]] && es[1..][1..][1..] == [];
    }
  }

  method EvaluateWith(sc: Scanners, direction: string, config: Config, content: string) returns (r: PipelineResult)
    ensures r == Pipeline(sc, direction, config, content)
  {
    var p := RunAll(sc, direction, StableSort(config.scanners, Order), content);
    LoopRefines(sc, direction, config.scanners, content);
    var (action, score) := Conclude(config.fallbackPolicy, p.allErred, p.verdicts);
    return PipelineResult(action, score, p.verdicts, if p.content != content then Some(p.content) else None);
  }

  method EvaluatePipeline(sc: Scanners, direction: string, pipelineConfig: Option<Config>, content: string)
    returns (r: PipelineResult)
    ensures var config := if pipelineConfig.Some? then pipelineConfig.value else DEFAULT_PIPELINE;
            r == Pipeline(sc, direction, config, content)
    ensures var config := if pipelineConfig.Some? then pipelineConfig.value else DEFAULT_PIPELINE;
            var sel := Selected(sc, direction, config.scanners);
            var runs := Runs(sc, sel, content, 0);
            && IsSelection(sc, direction, config.scanners, sel) && IsTrace(sc, sel, content, runs)
            && Judges(config.fallbackPolicy, sel, content, runs, r)
  {
    var config := if pipelineConfig.Some? then pipelineConfig.value else DEFAULT_PIPELINE;
    r := EvaluateWith(sc, direction, config, content);
    SelectedIsSelection(sc, direction, config.scanners);
    RunsAreTrace(sc, Selected(sc, direction, config.scanners), content);
    PipelineJudges(sc, direction, config, content);
  }

  // ----- what the outcome means

  /** Run `i` is the selected scanner `i`, given what the runs before it left. */
  lemma {:induction false} RunsInTurn(sc: Scanners, sel: seq<Entry>, content: string, k: nat, i: nat)
    requires i < |Runs(sc, sel, content, k)|
    ensures Runs(sc, sel, content, k)[i]
         == sc.scan(k + i, sel[i], ContentAfter(content, Runs(sc, sel, content, k)[..i]))
    decreases |sel|
  {
    var runs, s := Runs(sc, sel, content, k), sc.scan(k, sel[0], content);
    if i == 0 {
      assert runs[..0] == [];
    } else {
      var next := Runs(sc, sel[1..], Pass(content, s), k + 1);
      RunsInTurn(sc, sel[1..], Pass(content, s), k + 1, i - 1);
      assert runs == [s] + next;
      ContentShift(content, s, next[..i - 1]);
      assert runs[..i] == [s] + next[..i - 1] && sel[1..][i - 1] == sel[i];
    }
  }

  /** A block is the last run, and the runs stop short of the selection only at a block. */
  lemma {:induction false} RunsStopAtBlock(sc: Scanners, sel: seq<Entry>, content: string, k: nat)
    ensures var runs := Runs(sc, sel, content, k);
            && (forall i :: 0 <= i < |runs| - 1 ==> !Blocks(runs[i]))
            && (|runs| < |sel| ==> runs != [] && Blocks(runs[|runs| - 1]))
    decreases |sel|
  {
    if sel != [] {
      var s := sc.scan(k, sel[0], content);
      if !Blocks(s) { RunsStopAtBlock(sc, sel[1..], Pass(content, s), k + 1); }
    }
  }

  /** The outcome is a block exactly when a scanner blocked, or every scanner that ran raised and
      the policy is to fail closed; it is a flag exactly when none blocked and one flagged. */
  lemma OutcomeExactly(sc: Scanners, direction: string, config: Config, content: string)
    ensures var runs := Runs(sc, Selected(sc, direction, config.scanners), content, 0);
            var action := Pipeline(sc, direction, config, content).action;
            && (action == "block" <==>
                  || (exists s <- runs :: Blocks(s))
                  || (runs != [] && AllErred(runs) && config.fallbackPolicy == "fail_closed"))
            && (action == "flag" <==>
                  && (forall s <- runs :: !Blocks(s))
                  && (exists s <- runs :: s.Scanned? && s.verdict.action == "flag"))
  {
    var sel := Selected(sc, direction, config.scanners);
    var runs := Runs(sc, sel, content, 0);
    var verdicts := Verdicts(sel, runs);
    if runs != [] && !AllErred(runs) {
      SeverityOfRuns(sel, runs, "block");
      SeverityOfRuns(sel, runs, "flag");
    }
  }

  lemma SeverityOfRuns(sel: seq<Entry>, runs: seq<Scan>, action: string)
    requires |runs| <= |sel| && action != "pass"
    ensures (exists v <- Verdicts(sel, runs) :: v.action == action)
       <==> (exists s <- runs :: s.Scanned? && s.verdict.action == action)
  {
    var vs := Verdicts(sel, runs);
    if s :| s in runs && s.Scanned? && s.verdict.action == action {
      var i :| 0 <= i < |runs| && runs[i] == s;
      assert vs[i].action == action;
    }
    if v :| v in vs && v.action == action {
      var i :| 0 <= i < |vs| && vs[i] == v;
      assert runs[i] in runs;
    }
  }

  lemma {:induction false} FilterTwice(entries: seq<Entry>, keep: Entry -> bool)
    ensures Filter(Filter(entries, keep), keep) == Filter(entries, keep)
  {
    if entries != [] {
      FilterTwice(entries[1..], keep);
      if keep(entries[0]) { assert ([entries[0]] + Filter(entries[1..], keep))[1..] == Filter(entries[1..], keep); }
    }
  }

  /** Disabled, other-direction and unresolvable entries never affect the outcome. */
  lemma IrrelevantEntriesIgnored(sc: Scanners, direction: string, config: Config, content: string)
    ensures Pipeline(sc, direction, config, content)
         == Pipeline(sc, direction, config.(scanners := Filter(config.scanners, Relevant(sc, direction))), content)
  {
    FilterTwice(config.scanners, Relevant(sc, direction));
  }
}
