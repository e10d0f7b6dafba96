/** Overlapping appends and compactions of one conversation: each reads the stored entry, and writes a
    new one some time later, whatever has been written in between. */
module HistoryInterleaving {
  import opened Json
  import Conversation

  /** A stored history. Turns go by the number of the append that made them; `covered` are those whose
      text went into the summary, `capped` those cut by the hard cap on the way here. */
  datatype Entry = Entry(turns: seq<nat>, covered: set<nat>, capped: set<nat>) {
    ghost function Known(): set<nat> { Elements(turns) + covered + capped }
  }

  function Elements(turns: seq<nat>): (r: set<nat>) { set t | t in turns }

  /** A task that has read the entry, as it stood before step `at`, and not yet written. */
  datatype Task = Appending(seen: Entry, at: nat) | Compacting(seen: Entry, at: nat) | Over

  datatype State = State(entry: Entry, tasks: map<nat, Task>, clock: nat)

  const INITIAL := State(Entry([], {}, {}), map[], 0)

  datatype Step =
    | ReadToAppend(id: nat)
    | ReadToCompact(id: nat)
    | Write(id: nat)
    | GiveUp(id: nat)  // the save fails, or the model gives no summary: nothing is written

  function Append(e: Entry, id: nat): (r: Entry) {
    var all := e.turns + [id];
    var kept := Conversation.LastOf(all, Conversation.MAX_HISTORY_TURNS);
    Entry(kept, e.covered, e.capped + Elements(all[..|all| - |kept|]))
  }

  /** The entry after compaction; a short history is left alone. */
  function Compact(e: Entry): (r: Entry) {
    if |e.turns| < Conversation.COMPACTION_TURN_THRESHOLD then e
    else
      var cut := |e.turns| - Conversation.COMPACTION_KEEP_RECENT;
      Entry(e.turns[cut..], e.covered + Elements(e.turns[..cut]), e.capped)
  }

  /** An append keeps the latest 50 turns, a compaction the latest 10 of at least 30. */
  lemma LatestKept(e: Entry, id: nat)
    ensures Conversation.IsSuffix(Append(e, id).turns, e.turns + [id])
    ensures |Append(e, id).turns| == if |e.turns| < 50 then |e.turns| + 1 else 50
    ensures Conversation.IsSuffix(Compact(e).turns, e.turns)
    ensures |Compact(e).turns| == if |e.turns| < 30 then |e.turns| else 10
  {}

  predicate Short(task: Task) {
    task.Compacting? && |task.seen.turns| < Conversation.COMPACTION_TURN_THRESHOLD
  }

  function Next(s: State, step: Step): (r: Option<State>) {
    var next := s.(clock := s.clock + 1);
    match step
    case ReadToAppend(id) =>
      if id in s.tasks then None else Some(next.(tasks := s.tasks[id := Appending(s.entry, s.clock)]))
    case ReadToCompact(id) =>
      if id in s.tasks then None else Some(next.(tasks := s.tasks[id := Compacting(s.entry, s.clock)]))
    case Write(id) =>
      if id !in s.tasks || s.tasks[id].Over? || Short(s.tasks[id]) then None
      else
        var task := s.tasks[id];
        var entry := if task.Appending? then Append(task.seen, id) else Compact(task.seen);
        Some(next.(entry := entry, tasks := s.tasks[id := Over]))
    case GiveUp(id) =>
      if id !in s.tasks || s.tasks[id].Over? then None else Some(next.(tasks := s.tasks[id := Over]))
  }

  ghost predicate IsRun(steps: seq<Step>, states: seq<State>) {
    && |states| == |steps| + 1 && states[0] == INITIAL
    && forall i :: 0 <= i < |steps| ==> Next(states[i], steps[i]) == Some(states[i + 1])
  }

  // ----- what a write knows

  lemma AppendKnows(e: Entry, id: nat)
    ensures Append(e, id).Known() == e.Known() + {id}
  {
    var all := e.turns + [id];
    var kept := Conversation.LastOf(all, Conversation.MAX_HISTORY_TURNS);
    var gone := all[..|all| - |kept|];
    assert all == gone + kept;
    assert Elements(all) == Elements(gone) + Elements(kept);
    assert Elements(all) == Elements(e.turns) + {id};
  }

  lemma CompactKnows(e: Entry)
    ensures Compact(e).Known() == e.Known()
  {
    if |e.turns| >= Conversation.COMPACTION_TURN_THRESHOLD {
      var cut := |e.turns| - Conversation.COMPACTION_KEEP_RECENT;
      assert e.turns == e.turns[..cut] + e.turns[cut..];
      assert Elements(e.turns) == Elements(e.turns[..cut]) + Elements(e.turns[cut..]);
    }
  }

  // ----- the reads a state rests on

  /** When the task that step `i` writes for had read. */
  ghost function ReadAt(states: seq<State>, steps: seq<Step>, i: nat): nat
    requires i < |steps| && |states| == |steps| + 1 && Writes(states, steps, i)
  {
    states[i].tasks[steps[i].id].at
  }

  ghost predicate Writes(states: seq<State>, steps: seq<Step>, i: nat)
    requires i < |steps| && |states| == |steps| + 1
  {
    steps[i].Write? && steps[i].id in states[i].tasks && !states[i].tasks[steps[i].id].Over?
  }

  /** Every waiting task holds the entry as it stood when it read. */
  ghost predicate Remembers(states: seq<State>, i: nat)
    requires i < |states|
  {
    && states[i].clock == i
    && forall id <- states[i].tasks :: !states[i].tasks[id].Over? ==>
         var task := states[i].tasks[id]; task.at < i && task.seen == states[task.at].entry
  }

  lemma {:induction false} RunRemembers(steps: seq<Step>, states: seq<State>, i: nat)
    requires IsRun(steps, states) && i < |states|
    ensures Remembers(states, i)
  {
    if i > 0 {
      RunRemembers(steps, states, i - 1);
      assert Next(states[i - 1], steps[i - 1]) == Some(states[i]);
    }
  }

  /** The appends that the entry before step `n` goes back to: that of the last write, and whatever the
      entry went back to when the writer had read it. Writes in between are passed over. */
  ghost function Lineage(steps: seq<Step>, states: seq<State>, n: nat): (r: set<nat>)
    requires IsRun(steps, states) && n < |states|
  {
    if n == 0 then {}
    else if Writes(states, steps, n - 1) then
      RunRemembers(steps, states, n - 1);
      Lineage(steps, states, ReadAt(states, steps, n - 1))
      + if states[n - 1].tasks[steps[n - 1].id].Appending? then {steps[n - 1].id} else {}
    else Lineage(steps, states, n - 1)
  }

  /** After any run a turn is stored, summarised or cut by the cap exactly when its append is in the
      lineage of the entry; every other turn that was written is lost. */
  lemma {:induction false} KnownIsLineage(steps: seq<Step>, states: seq<State>, n: nat)
    requires IsRun(steps, states) && n < |states|
    ensures states[n].entry.Known() == Lineage(steps, states, n)
  {
    if n > 0 {
      var s, step := states[n - 1], steps[n - 1];
      assert Next(s, step) == Some(states[n]);
      if Writes(states, steps, n - 1) {
        RunRemembers(steps, states, n - 1);
        KnownIsLineage(steps, states, ReadAt(states, steps, n - 1));
        var task := s.tasks[step.id];
        AppendKnows(task.seen, step.id);
        CompactKnows(task.seen);
      } else {
        KnownIsLineage(steps, states, n - 1);
      }
    }
  }

  // ----- which turns are lost

  /** The turns whose write took effect before step `n`. */
  ghost function Written(steps: seq<Step>, states: seq<State>, n: nat): (r: set<nat>)
    requires |states| == |steps| + 1 && n <= |steps|
  {
    if n == 0 then {}
    else
      Written(steps, states, n - 1)
      + if Writes(states, steps, n - 1) && states[n - 1].tasks[steps[n - 1].id].Appending?
        then {steps[n - 1].id} else {}
  }

  lemma {:induction false} LineageWritten(steps: seq<Step>, states: seq<State>, n: nat)
    requires IsRun(steps, states) && n < |states|
    ensures Lineage(steps, states, n) <= Written(steps, states, n)
  {
    if n > 0 {
      if Writes(states, steps, n - 1) {
        RunRemembers(steps, states, n - 1);
        LineageWritten(steps, states, ReadAt(states, steps, n - 1));
        WrittenGrows(steps, states, ReadAt(states, steps, n - 1), n - 1);
      } else {
        LineageWritten(steps, states, n - 1);
      }
    }
  }

  lemma {:induction false} WrittenGrows(steps: seq<Step>, states: seq<State>, m: nat, n: nat)
    requires |states| == |steps| + 1 && m <= n <= |steps|
    ensures Written(steps, states, m) <= Written(steps, states, n)
    decreases n - m
  {
    if m < n { WrittenGrows(steps, states, m, n - 1); }
  }

  /** No write falls between the read and the write of another. */
  ghost predicate NoOverlap(steps: seq<Step>, states: seq<State>, n: nat)
    requires |states| == |steps| + 1 && n <= |steps|
  {
    forall i :: 0 <= i < n && Writes(states, steps, i) ==>
      forall m :: ReadAt(states, steps, i) <= m < i ==> !Writes(states, steps, m)
  }

  lemma {:induction false} QuietSpan(steps: seq<Step>, states: seq<State>, m: nat, n: nat)
    requires |states| == |steps| + 1 && m <= n <= |steps| && forall i :: m <= i < n ==> !Writes(states, steps, i)
    ensures Written(steps, states, m) == Written(steps, states, n)
    decreases n - m
  {
    if m < n { QuietSpan(steps, states, m, n - 1); }
  }

  /** Without overlap no turn is lost: every turn written is stored, summarised or cut by the cap. */
  lemma {:induction false} NoOverlapKeepsAll(steps: seq<Step>, states: seq<State>, n: nat)
    requires IsRun(steps, states) && n < |states| && NoOverlap(steps, states, n)
    ensures states[n].entry.Known() == Written(steps, states, n)
  {
    KnownIsLineage(steps, states, n);
    LineageIsAll(steps, states, n);
  }

  lemma {:induction false} LineageIsAll(steps: seq<Step>, states: seq<State>, n: nat)
    requires IsRun(steps, states) && n < |states| && NoOverlap(steps, states, n)
    ensures Lineage(steps, states, n) == Written(steps, states, n)
  {
    if n > 0 {
      if Writes(states, steps, n - 1) {
        RunRemembers(steps, states, n - 1);
        var r := ReadAt(states, steps, n - 1);
        LineageIsAll(steps, states, r);
        QuietSpan(steps, states, r, n - 1);
      } else {
        LineageIsAll(steps, states, n - 1);
      }
    }
  }

  /** A turn written between the read and the write of another task is gone after that write. */
  lemma OverlapLoses(steps: seq<Step>, states: seq<State>, i: nat, m: nat)
    requires IsRun(steps, states) && i < |steps| && Writes(states, steps, i) && ReadAt(states, steps, i) <= m < i
    requires Writes(states, steps, m) && states[m].tasks[steps[m].id].Appending?
    ensures steps[m].id in Written(steps, states, i + 1) && steps[m].id !in states[i + 1].entry.Known()
  {
    var id, r := steps[m].id, ReadAt(states, steps, i);
    AppendIsWritten(steps, states, m, i);
    KnownIsLineage(steps, states, i + 1);
    NotInLineage(steps, states, r, m, id);
    LineageAtWrite(steps, states, i, r);
  }

  lemma AppendIsWritten(steps: seq<Step>, states: seq<State>, m: nat, i: nat)
    requires IsRun(steps, states) && m < i < |steps| && Writes(states, steps, m)
    requires states[m].tasks[steps[m].id].Appending?
    ensures steps[m].id in Written(steps, states, i + 1) && (Writes(states, steps, i) ==> steps[i].id != steps[m].id)
  {
    var id := steps[m].id;
    assert id in Written(steps, states, m + 1);
    WrittenGrows(steps, states, m + 1, i + 1);
    WrittenOnce(steps, states, m + 1, id);
    StaysOver(steps, states, m + 1, i, id);
  }

  lemma LineageAtWrite(steps: seq<Step>, states: seq<State>, i: nat, r: nat)
    requires IsRun(steps, states) && i < |steps| && Writes(states, steps, i) && r == ReadAt(states, steps, i)
    ensures r < |states| && Lineage(steps, states, i + 1) <= Lineage(steps, states, r) + {steps[i].id}
  {
    RunRemembers(steps, states, i);
  }

  /** A task still to write at `m` is in no lineage up to then. */
  lemma NotInLineage(steps: seq<Step>, states: seq<State>, r: nat, m: nat, id: nat)
    requires IsRun(steps, states) && r <= m < |states| && id in states[m].tasks && !states[m].tasks[id].Over?
    ensures id !in Lineage(steps, states, r)
  {
    LineageWritten(steps, states, r);
    WrittenGrows(steps, states, r, m);
    if id in Written(steps, states, m) { WrittenOnce(steps, states, m, id); }
  }

  /** A task whose write took effect is over. */
  lemma {:induction false} WrittenOnce(steps: seq<Step>, states: seq<State>, n: nat, id: nat)
    requires IsRun(steps, states) && n < |states| && id in Written(steps, states, n)
    ensures id in states[n].tasks && states[n].tasks[id].Over?
  {
    assert Next(states[n - 1], steps[n - 1]) == Some(states[n]);
    if id in Written(steps, states, n - 1) { WrittenOnce(steps, states, n - 1, id); }
  }

  lemma {:induction false} StaysOver(steps: seq<Step>, states: seq<State>, m: nat, n: nat, id: nat)
    requires IsRun(steps, states) && m <= n < |states| && id in states[m].tasks && states[m].tasks[id].Over?
    ensures id in states[n].tasks && states[n].tasks[id].Over?
    decreases n - m
  {
    if m < n {
      StaysOver(steps, states, m, n - 1, id);
      assert Next(states[n - 1], steps[n - 1]) == Some(states[n]);
    }
  }
}
