/** The per-account execution gate of the billing middleware: a check of two Redis counters, an
    increment some time later, and a release after the execution. Every Redis command (and every
    MULTI pipeline) is one step; steps of different requests interleave in any order, any command
    may fail with or without having taken effect, a request may be cancelled at any point, and keys
    may expire at any time. */
module ExecutionGate {
  import opened Json
  import opened Text

  datatype Limits = Limits(rate: nat, concurrency: nat)

  /** Where a request stands in `dispatch`, with the minute of the rate key it uses. */
  datatype Phase =
    | Arrived(minute: int)
    | RatePassed(minute: int)
    | Pending(minute: int)       // both checks passed, increment not yet made
    | Running(counted: bool)     // executing; counted when its increment took effect
    | Releasing(counted: bool)   // execution over, release task not yet run
    | Clamping                   // its decrement went below zero
    | Rejected
    | Finished

  /** `lost` counts slots taken whose release never reached Redis, or was never started; `drift` is
      by how much the counter understates the slots held or lost. Both are bookkeeping only. */
  datatype State = State(requests: map<nat, Phase>, concurrent: Option<int>, minutes: map<int, nat>,
                         lost: nat, drift: int)
  {
    function Value(): int { if concurrent.Some? then concurrent.value else 0 }
    function Rate(minute: int): nat { if minute in minutes then minutes[minute] else 0 }
    function Move(id: nat, p: Phase): State { this.(requests := requests[id := p]) }
  }

  /** The tables of the middleware; a tier it does not know counts as a trial. */
  function LimitsOf(tier: string): (r: Limits)
    ensures r.rate >= 1 && r.concurrency >= 1
  {
    var base := if |tier| >= 6 && tier[|tier| - 6..] == "-agent" then Replace(tier, "-agent", "") else tier;
    match base
    case "pro" => Limits(100, 15)
    case "enterprise" => Limits(300, 50)
    case "dedicated" => Limits(500, 100)
    case _ => Limits(100, 10)
  }

  /** The limits tier by tier; any other tier has those of a trial. */
  lemma TierTable(tier: string)
    ensures LimitsOf("pro") == Limits(100, 15)
    ensures LimitsOf("enterprise") == Limits(300, 50) && LimitsOf("dedicated") == Limits(500, 100)
    ensures '-' !in tier && tier != "pro" && tier != "enterprise" && tier != "dedicated" ==>
              LimitsOf(tier) == Limits(100, 10)
  {
    if |tier| >= 6 && tier[|tier| - 6..] == "-agent" { assert tier[|tier| - 6] in tier; }
  }

  /** An agent tier has the limits of its base. */
  lemma AgentTier(base: string)
    requires '-' !in base
    ensures LimitsOf(base + "-agent") == LimitsOf(base)
  {
    var tier := base + "-agent";
    assert tier[|tier| - 6..] == "-agent";
    StripAgent(base);
    if |base| >= 6 { assert base[|base| - 6] in base; }
  }

  lemma {:induction false} StripAgent(base: string)
    requires '-' !in base
    ensures Replace(base + "-agent", "-agent", "") == base
  {
    var tier := base + "-agent";
    if base == "" {
      assert tier[..6] == "-agent" && tier[6..] == "";
    } else {
      StripAgent(base[1..]);
      assert tier[1..] == base[1..] + "-agent" && tier[..6][0] == base[0];
      assert base == [base[0]] + base[1..];
    }
  }

  const INITIAL := State(map[], None, map[], 0, 0)

  datatype Step =
    | Arrive(id: nat, minute: int)
    | ReadRate(id: nat)
    | ReadConcurrency(id: nat)
    | Increment(id: nat)          // the pipeline took effect, whether or not its reply came back
    | CheckFails(id: nat)         // a command of the check raised; the request runs uncounted
    | Cancel(id: nat)             // cancelled during the check: it neither runs nor releases
    | CancelCounted(id: nat)      // cancelled after its pipeline took effect: no release will follow
    | Return(id: nat)
    | Decrement(id: nat, replyLost: bool)
    | DecrementFails(id: nat)
    | Clamp(id: nat)
    | ClampFails(id: nat)
    | ExpireConcurrent
    | ExpireMinute(minute: int)

  /** The effect of a step; nothing when the step is not possible. */
  function Next(lim: Limits, s: State, step: Step): (r: Option<State>) {
    match step
    case Arrive(id, minute) =>
      if id in s.requests then None else Some(s.Move(id, Arrived(minute)))
    case ReadRate(id) =>
      if id !in s.requests || !s.requests[id].Arrived? then None
      else
        var m := s.requests[id].minute;
        if m in s.minutes && s.minutes[m] >= lim.rate then Some(s.Move(id, Rejected))
        else Some(s.Move(id, RatePassed(m)))
    case ReadConcurrency(id) =>
      if id !in s.requests || !s.requests[id].RatePassed? then None
      else if s.concurrent.Some? && s.concurrent.value >= lim.concurrency then Some(s.Move(id, Rejected))
      else Some(s.Move(id, Pending(s.requests[id].minute)))
    case Increment(id) =>
      if id !in s.requests || !s.requests[id].Pending? then None
      else
        var m := s.requests[id].minute;
        Some(s.(requests := s.requests[id := Running(true)], concurrent := Some(s.Value() + 1),
                minutes := s.minutes[m := s.Rate(m) + 1]))
    case CheckFails(id) =>
      if id in s.requests && (s.requests[id].Arrived? || s.requests[id].RatePassed? || s.requests[id].Pending?)
      then Some(s.Move(id, Running(false))) else None
    case Cancel(id) =>
      if id in s.requests && (s.requests[id].Arrived? || s.requests[id].RatePassed? || s.requests[id].Pending?)
      then Some(s.Move(id, Finished)) else None
    case CancelCounted(id) =>
      if id !in s.requests || !s.requests[id].Pending? then None
      else
        var m := s.requests[id].minute;
        Some(s.(requests := s.requests[id := Finished], concurrent := Some(s.Value() + 1),
                minutes := s.minutes[m := s.Rate(m) + 1], lost := s.lost + 1))
    case Return(id) =>
      if id in s.requests && s.requests[id].Running? then Some(s.Move(id, Releasing(s.requests[id].counted))) else None
    case Decrement(id, replyLost) =>
      if id !in s.requests || !s.requests[id].Releasing? then None
      else
        var v, held := s.Value() - 1, s.requests[id].counted;
        Some(s.(requests := s.requests[id := if v < 0 && !replyLost then Clamping else Finished],
                concurrent := Some(v), drift := if held then s.drift else s.drift + 1))
    case DecrementFails(id) =>
      if id !in s.requests || !s.requests[id].Releasing? then None
      else Some(s.Move(id, Finished).(lost := if s.requests[id].counted then s.lost + 1 else s.lost))
    case Clamp(id) =>
      if id !in s.requests || !s.requests[id].Clamping? then None
      else Some(s.Move(id, Finished).(concurrent := Some(0), drift := s.drift + s.Value()))
    case ClampFails(id) =>
      if id in s.requests && s.requests[id].Clamping? then Some(s.Move(id, Finished)) else None
    case ExpireConcurrent =>
      Some(s.(concurrent := None, drift := s.drift + s.Value()))
    case ExpireMinute(minute) =>
      Some(s.(minutes := s.minutes - {minute}))
  }

  /** A run from the empty store: its steps and the states between them. */
  ghost predicate IsRun(lim: Limits, steps: seq<Step>, states: seq<State>) {
    && |states| == |steps| + 1 && states[0] == INITIAL
    && forall i :: 0 <= i < |steps| ==> Next(lim, states[i], steps[i]) == Some(states[i + 1])
  }

  // ----- who is where

  type Requests = map<nat, Phase>

  function Group(rs: Requests, p: Phase -> bool): (r: set<nat>) { set id | id in rs && p(rs[id]) }

  predicate IsPending(p: Phase) { p.Pending? }
  predicate HoldsSlot(p: Phase) { (p.Running? || p.Releasing?) && p.counted }

  function UsesMinute(minute: int): (r: Phase -> bool) {
    (p: Phase) => (p.RatePassed? || p.Pending?) && p.minute == minute
  }

  /** Requests that have passed the concurrency check and not yet incremented. */
  function Waiting(s: State): (r: set<nat>) { Group(s.requests, IsPending) }

  /** Requests whose increment took effect and whose release has not run. */
  function Held(s: State): (r: set<nat>) { Group(s.requests, HoldsSlot) }

  /** Requests between the read and the increment of a minute's rate key. */
  function WaitingFor(s: State, minute: int): (r: set<nat>) { Group(s.requests, UsesMinute(minute)) }

  function One(b: bool): (r: nat) { if b then 1 else 0 }

  /** What a request adds to a group's count. */
  function Share(rs: Requests, id: nat, p: Phase -> bool): (r: nat) { One(id in rs && p(rs[id])) }

  /** Moving one request changes the count of a group by what that request contributes. */
  lemma MoveCounts(rs: Requests, id: nat, q: Phase, p: Phase -> bool)
    ensures |Group(rs[id := q], p)| == |Group(rs, p)| + One(p(q)) - Share(rs, id, p)
  {
    var before, after := Group(rs, p), Group(rs[id := q], p);
    assert after - {id} == before - {id};
    assert id in before <==> Share(rs, id, p) == 1;
    assert id in after <==> p(q);
    Without(before, id);
    Without(after, id);
  }

  lemma Without(s: set<nat>, x: nat)
    ensures |s - {x}| == |s| - One(x in s)
  {
    if x !in s { assert s - {x} == s; }
  }

  // ----- the concurrency counter

  predicate OfRequest(step: Step) { !step.ExpireConcurrent? && !step.ExpireMinute? }

  /** A step moves at most its own request; this is what that does to a group's count. */
  lemma StepCounts(lim: Limits, s: State, step: Step, t: State, p: Phase -> bool)
    requires Next(lim, s, step) == Some(t)
    ensures OfRequest(step) ==>
              && step.id in t.requests
              && |Group(t.requests, p)|
                 == |Group(s.requests, p)| + One(p(t.requests[step.id])) - Share(s.requests, step.id, p)
    ensures !OfRequest(step) ==> t.requests == s.requests
  {
    if OfRequest(step) {
      assert t.requests == s.requests[step.id := t.requests[step.id]];
      MoveCounts(s.requests, step.id, t.requests[step.id], p);
    }
  }

  lemma ConcurrencyStep(lim: Limits, s: State, step: Step, t: State, n: nat)
    requires lim.concurrency >= 1 && Next(lim, s, step) == Some(t) && |Waiting(t)| <= n
    requires s.Value() + |Waiting(s)| <= lim.concurrency + n - 1
    ensures t.Value() + |Waiting(t)| <= lim.concurrency + n - 1
  {
    StepCounts(lim, s, step, t, IsPending);
  }

  /** If at no time more than `n` requests sit between the concurrency check and the increment, the
      counter never exceeds the limit by more than `n - 1`, whatever fails or expires. */
  lemma {:induction false} ConcurrencyBound(lim: Limits, steps: seq<Step>, states: seq<State>, n: nat, i: nat)
    requires lim.concurrency >= 1 && IsRun(lim, steps, states) && i < |states|
    requires forall k :: 0 <= k < |states| ==> |Waiting(states[k])| <= n
    ensures states[i].Value() + |Waiting(states[i])| <= lim.concurrency + n - 1
    ensures states[i].Value() <= lim.concurrency + n - 1
  {
    if i == 0 {
      assert Waiting(INITIAL) == {};
    } else {
      ConcurrencyBound(lim, steps, states, n, i - 1);
      ConcurrencyStep(lim, states[i - 1], steps[i - 1], states[i], n);
    }
  }

  // ----- the rate counter

  lemma RateStep(lim: Limits, s: State, step: Step, t: State, minute: int, n: nat)
    requires lim.rate >= 1 && Next(lim, s, step) == Some(t) && |WaitingFor(t, minute)| <= n
    requires s.Rate(minute) + |WaitingFor(s, minute)| <= lim.rate + n - 1
    ensures t.Rate(minute) + |WaitingFor(t, minute)| <= lim.rate + n - 1
  {
    StepCounts(lim, s, step, t, UsesMinute(minute));
  }

  /** The same for each minute's rate key. */
  lemma {:induction false} RateBound(lim: Limits, steps: seq<Step>, states: seq<State>, minute: int, n: nat, i: nat)
    requires lim.rate >= 1 && IsRun(lim, steps, states) && i < |states|
    requires forall k :: 0 <= k < |states| ==> |WaitingFor(states[k], minute)| <= n
    ensures states[i].Rate(minute) + |WaitingFor(states[i], minute)| <= lim.rate + n - 1
    ensures states[i].Rate(minute) <= lim.rate + n - 1
  {
    if i == 0 {
      assert WaitingFor(INITIAL, minute) == {};
    } else {
      RateBound(lim, steps, states, minute, n, i - 1);
      RateStep(lim, states[i - 1], steps[i - 1], states[i], minute, n);
    }
  }

  /** The step counts an execution in the minute's key. */
  ghost predicate CountsIn(s: State, step: Step, minute: int) {
    (step.Increment? || step.CancelCounted?) && step.id in s.requests && s.requests[step.id] == Pending(minute)
  }

  /** How many executions were counted in the minute's key since it last expired. */
  ghost function CountedIn(steps: seq<Step>, states: seq<State>, minute: int, i: nat): nat
    requires |states| == |steps| + 1 && i <= |steps|
  {
    if i == 0 || steps[i - 1] == ExpireMinute(minute) then 0
    else
      CountedIn(steps, states, minute, i - 1) + if CountsIn(states[i - 1], steps[i - 1], minute) then 1 else 0
  }

  /** A minute's counter is the number of executions counted in it. */
  lemma {:induction false} RateIsCount(lim: Limits, steps: seq<Step>, states: seq<State>, minute: int, i: nat)
    requires IsRun(lim, steps, states) && i < |states|
    ensures states[i].Rate(minute) == CountedIn(steps, states, minute, i)
  {
    if i > 0 {
      RateIsCount(lim, steps, states, minute, i - 1);
      assert Next(lim, states[i - 1], steps[i - 1]) == Some(states[i]);
    }
  }

  // ----- slots

  lemma SlotStep(lim: Limits, s: State, step: Step, t: State)
    requires Next(lim, s, step) == Some(t)
    requires s.Value() + s.drift == |Held(s)| + s.lost && s.drift >= 0
    ensures t.Value() + t.drift == |Held(t)| + t.lost && t.drift >= 0
  {
    StepCounts(lim, s, step, t, HoldsSlot);
  }

  /** The counter plus its drift is always the slots held plus the releases lost, and the drift is
      never negative: the counter never overstates what is held or lost. */
  lemma {:induction false} SlotsConserved(lim: Limits, steps: seq<Step>, states: seq<State>, i: nat)
    requires IsRun(lim, steps, states) && i < |states|
    ensures var s := states[i]; s.Value() + s.drift == |Held(s)| + s.lost && s.drift >= 0
    ensures states[i].Value() <= |Held(states[i])| + states[i].lost
  {
    if i == 0 {
      assert Held(INITIAL) == {};
    } else {
      SlotsConserved(lim, steps, states, i - 1);
      SlotStep(lim, states[i - 1], steps[i - 1], states[i]);
    }
  }

  /** Steps that can make counter and slots part company. */
  predicate Fault(step: Step) {
    step.CheckFails? || step.CancelCounted? || step.DecrementFails? || step.ExpireConcurrent?
  }

  predicate Uncounted(p: Phase) { (p.Running? || p.Releasing?) && !p.counted }

  lemma FaultlessStep(lim: Limits, s: State, step: Step, t: State)
    requires Next(lim, s, step) == Some(t) && !Fault(step)
    requires s.Value() + s.drift == |Held(s)| + s.lost
    requires s.drift == 0 && s.lost == 0
    requires forall id <- s.requests :: !Uncounted(s.requests[id]) && !s.requests[id].Clamping?
    ensures t.drift == 0 && t.lost == 0
    ensures forall id <- t.requests :: !Uncounted(t.requests[id]) && !t.requests[id].Clamping?
  {
    if step.Decrement? {
      assert step.id in Held(s);
      assert |Held(s)| > 0;
    }
  }

  /** Without faults the counter is exactly the slots held, every execution holds one, and so at
      most `concurrency + n - 1` requests execute at once: the limit itself when checks and
      increments do not overlap. */
  lemma {:induction false} FaultlessRun(lim: Limits, steps: seq<Step>, states: seq<State>, n: nat, i: nat)
    requires lim.concurrency >= 1 && IsRun(lim, steps, states) && i < |states|
    requires forall k :: 0 <= k < |steps| ==> !Fault(steps[k])
    requires forall k :: 0 <= k < |states| ==> |Waiting(states[k])| <= n
    ensures var s := states[i];
            && s.drift == 0 && s.lost == 0
            && (forall id <- s.requests :: !Uncounted(s.requests[id]) && !s.requests[id].Clamping?)
            && s.Value() == |Held(s)| <= lim.concurrency + n - 1
  {
    SlotsConserved(lim, steps, states, i);
    ConcurrencyBound(lim, steps, states, n, i);
    if i > 0 {
      FaultlessRun(lim, steps, states, n, i - 1);
      SlotsConserved(lim, steps, states, i - 1);
      FaultlessStep(lim, states[i - 1], steps[i - 1], states[i]);
    }
  }

  /** In any run the slots held exceed the bound by at most the drift that faults have caused. */
  lemma HeldBound(lim: Limits, steps: seq<Step>, states: seq<State>, n: nat, i: nat)
    requires lim.concurrency >= 1 && IsRun(lim, steps, states) && i < |states|
    requires forall k :: 0 <= k < |states| ==> |Waiting(states[k])| <= n
    ensures |Held(states[i])| <= lim.concurrency + n - 1 + states[i].drift - states[i].lost
  {
    SlotsConserved(lim, steps, states, i);
    ConcurrencyBound(lim, steps, states, n, i);
  }

  // ----- the bound is reached

  function Last(states: seq<State>): (r: State)
    requires states != []
  {
    states[|states| - 1]
  }

  /** A run within the waiting bound that ends with counter `v`, `w` requests waiting, and request
      numbers and minutes from `next` on unused. */
  ghost predicate RunTo(lim: Limits, steps: seq<Step>, states: seq<State>, n: nat, v: int, w: nat, next: nat) {
    && IsRun(lim, steps, states)
    && (forall k :: 0 <= k < |states| ==> |Waiting(states[k])| <= n)
    && Last(states).Value() == v && |Waiting(Last(states))| == w
    && (forall id <- Last(states).requests :: id < next)
    && (forall m <- Last(states).minutes :: m < next)
    && (forall id <- Last(states).requests ::
          Last(states).requests[id].Pending? ==> Last(states).requests[id].minute < next)
  }

  lemma Extend(lim: Limits, steps: seq<Step>, states: seq<State>, n: nat, step: Step, t: State)
    requires IsRun(lim, steps, states) && Next(lim, Last(states), step) == Some(t) && |Waiting(t)| <= n
    requires forall k :: 0 <= k < |states| ==> |Waiting(states[k])| <= n
    ensures IsRun(lim, steps + [step], states + [t]) && Last(states + [t]) == t
    ensures forall k :: 0 <= k < |states + [t]| ==> |Waiting((states + [t])[k])| <= n
  {}

  /** One more request passes both checks and waits. */
  lemma AdmitOne(lim: Limits, steps: seq<Step>, states: seq<State>, n: nat, v: int, w: nat, next: nat)
    returns (steps': seq<Step>, states': seq<State>)
    requires RunTo(lim, steps, states, n, v, w, next) && lim.rate >= 1 && v < lim.concurrency && w < n
    ensures RunTo(lim, steps', states', n, v, w + 1, next + 1)
  {
    var s := Last(states);
    var s1, s2, s3 := s.Move(next, Arrived(next)), s.Move(next, RatePassed(next)), s.Move(next, Pending(next));
    assert s1.Move(next, RatePassed(next)) == s2 && s2.Move(next, Pending(next)) == s3 by {
      assert s.requests[next := Arrived(next)][next := RatePassed(next)] == s.requests[next := RatePassed(next)];
      assert s.requests[next := RatePassed(next)][next := Pending(next)] == s.requests[next := Pending(next)];
    }
    assert next !in s.requests && next !in s.minutes;
    StepCounts(lim, s, Arrive(next, next), s1, IsPending);
    StepCounts(lim, s1, ReadRate(next), s2, IsPending);
    StepCounts(lim, s2, ReadConcurrency(next), s3, IsPending);
    Extend(lim, steps, states, n, Arrive(next, next), s1);
    steps', states' := steps + [Arrive(next, next)], states + [s1];
    Extend(lim, steps', states', n, ReadRate(next), s2);
    steps', states' := steps' + [ReadRate(next)], states' + [s2];
    Extend(lim, steps', states', n, ReadConcurrency(next), s3);
    steps', states' := steps' + [ReadConcurrency(next)], states' + [s3];
  }

  /** One waiting request increments. */
  lemma IncrementOne(lim: Limits, steps: seq<Step>, states: seq<State>, n: nat, v: int, w: nat, next: nat)
    returns (steps': seq<Step>, states': seq<State>)
    requires RunTo(lim, steps, states, n, v, w, next) && w > 0
    ensures RunTo(lim, steps', states', n, v + 1, w - 1, next)
  {
    var s := Last(states);
    var id :| id in Waiting(s);
    var t := Next(lim, s, Increment(id)).value;
    StepCounts(lim, s, Increment(id), t, IsPending);
    Extend(lim, steps, states, n, Increment(id), t);
    steps', states' := steps + [Increment(id)], states + [t];
  }

  lemma {:induction false} AdmitOneByOne(lim: Limits, n: nat, v: nat) returns (steps: seq<Step>, states: seq<State>)
    requires lim.rate >= 1 && n >= 1 && v < lim.concurrency
    ensures RunTo(lim, steps, states, n, v, 0, v)
  {
    if v == 0 {
      steps, states := [], [INITIAL];
      assert Waiting(INITIAL) == {};
    } else {
      steps, states := AdmitOneByOne(lim, n, v - 1);
      steps, states := AdmitOne(lim, steps, states, n, v - 1, 0, v - 1);
      steps, states := IncrementOne(lim, steps, states, n, v - 1, 1, v);
    }
  }

  lemma {:induction false} AdmitTogether(lim: Limits, n: nat, v: nat, w: nat)
    returns (steps: seq<Step>, states: seq<State>)
    requires lim.rate >= 1 && n >= 1 && v < lim.concurrency && w <= n
    ensures RunTo(lim, steps, states, n, v, w, v + w)
  {
    if w == 0 {
      steps, states := AdmitOneByOne(lim, n, v);
    } else {
      steps, states := AdmitTogether(lim, n, v, w - 1);
      steps, states := AdmitOne(lim, steps, states, n, v, w - 1, v + w - 1);
    }
  }

  lemma {:induction false} IncrementTogether(lim: Limits, n: nat, v: nat, k: nat)
    returns (steps: seq<Step>, states: seq<State>)
    requires lim.rate >= 1 && n >= 1 && v < lim.concurrency && k <= n
    ensures RunTo(lim, steps, states, n, v + k, n - k, v + n)
  {
    if k == 0 {
      steps, states := AdmitTogether(lim, n, v, n);
    } else {
      steps, states := IncrementTogether(lim, n, v, k - 1);
      steps, states := IncrementOne(lim, steps, states, n, v + k - 1, n - k + 1, v + n);
    }
  }

  /** For every `n` some run reaches the bound of `ConcurrencyBound`: the gate keeps its limit
      exactly when at most one request at a time sits between check and increment. */
  lemma BoundIsReached(lim: Limits, n: nat) returns (steps: seq<Step>, states: seq<State>)
    requires lim.rate >= 1 && lim.concurrency >= 1 && n >= 1
    ensures IsRun(lim, steps, states) && forall k :: 0 <= k < |states| ==> |Waiting(states[k])| <= n
    ensures Last(states).Value() == lim.concurrency + n - 1
  {
    steps, states := IncrementTogether(lim, n, lim.concurrency - 1, n);
  }

  // ----- the rate bound is reached within one minute

  /** A run within the waiting bound for one minute that ends with `v` executions counted in it, no slot
      taken, `w` requests past the rate check and none further, and numbers from `next` on unused. */
  ghost predicate MinuteRun(lim: Limits, steps: seq<Step>, states: seq<State>, minute: int, n: nat, v: nat, w: nat,
                            next: nat) {
    && IsRun(lim, steps, states)
    && (forall k :: 0 <= k < |states| ==> |WaitingFor(states[k], minute)| <= n)
    && AtRest(Last(states), minute, v, w, next)
  }

  ghost predicate AtRest(s: State, minute: int, v: nat, w: nat, next: nat) {
    && s.Value() == 0 && s.Rate(minute) == v && |WaitingFor(s, minute)| == w
    && (forall id <- s.requests :: id < next && !s.requests[id].Pending?)
  }

  lemma ExtendMinute(lim: Limits, steps: seq<Step>, states: seq<State>, minute: int, n: nat, step: Step, t: State)
    requires IsRun(lim, steps, states) && Next(lim, Last(states), step) == Some(t) && |WaitingFor(t, minute)| <= n
    requires forall k :: 0 <= k < |states| ==> |WaitingFor(states[k], minute)| <= n
    ensures IsRun(lim, steps + [step], states + [t]) && Last(states + [t]) == t
    ensures forall k :: 0 <= k < |states + [t]| ==> |WaitingFor((states + [t])[k], minute)| <= n
  {}

  /** One more request arrives and passes the rate check. */
  lemma PassRate(lim: Limits, steps: seq<Step>, states: seq<State>, minute: int, n: nat, v: nat, w: nat, next: nat)
    returns (steps': seq<Step>, states': seq<State>)
    requires MinuteRun(lim, steps, states, minute, n, v, w, next) && v < lim.rate && w < n
    ensures MinuteRun(lim, steps', states', minute, n, v, w + 1, next + 1)
  {
    var s := Last(states);
    var s1 := Next(lim, s, Arrive(next, minute)).value;
    var s2 := Next(lim, s1, ReadRate(next)).value;
    StepCounts(lim, s, Arrive(next, minute), s1, UsesMinute(minute));
    StepCounts(lim, s1, ReadRate(next), s2, UsesMinute(minute));
    ExtendMinute(lim, steps, states, minute, n, Arrive(next, minute), s1);
    steps', states' := steps + [Arrive(next, minute)], states + [s1];
    ExtendMinute(lim, steps', states', minute, n, ReadRate(next), s2);
    steps', states' := steps' + [ReadRate(next)], states' + [s2];
  }

  /** A waiting request is admitted and counted. */
  lemma CountWaiting(lim: Limits, s: State, minute: int, v: nat, w: nat, next: nat)
    returns (id: nat, s1: State, s2: State)
    requires AtRest(s, minute, v, w, next) && w > 0 && lim.concurrency >= 1
    ensures id in s.requests
    ensures Next(lim, s, ReadConcurrency(id)) == Some(s1) && Next(lim, s1, Increment(id)) == Some(s2)
    ensures |WaitingFor(s1, minute)| == w && |WaitingFor(s2, minute)| == w - 1
    ensures s2.requests == s.requests[id := Running(true)] && s2.Value() == 1 && s2.Rate(minute) == v + 1
  {
    id :| id in WaitingFor(s, minute);
    s1 := Next(lim, s, ReadConcurrency(id)).value;
    s2 := Next(lim, s1, Increment(id)).value;
    StepCounts(lim, s, ReadConcurrency(id), s1, UsesMinute(minute));
    StepCounts(lim, s1, Increment(id), s2, UsesMinute(minute));
    assert s2.requests == s.requests[id := Running(true)];
  }

  /** An execution ends and gives its slot back. */
  lemma Finish(lim: Limits, s: State, minute: int, id: nat) returns (s1: State, s2: State)
    requires id in s.requests && s.requests[id] == Running(true) && s.Value() == 1
    ensures Next(lim, s, Return(id)) == Some(s1) && Next(lim, s1, Decrement(id, false)) == Some(s2)
    ensures WaitingFor(s1, minute) == WaitingFor(s, minute) == WaitingFor(s2, minute)
    ensures s2.requests == s.requests[id := Finished] && s2.Value() == 0 && s2.Rate(minute) == s.Rate(minute)
  {
    s1 := Next(lim, s, Return(id)).value;
    s2 := Next(lim, s1, Decrement(id, false)).value;
    assert s2.requests == s.requests[id := Finished];
  }

  /** One waiting request runs to its end. */
  lemma ExecuteOne(lim: Limits, steps: seq<Step>, states: seq<State>, minute: int, n: nat, v: nat, w: nat, next: nat)
    returns (steps': seq<Step>, states': seq<State>)
    requires MinuteRun(lim, steps, states, minute, n, v, w, next) && w > 0 && lim.concurrency >= 1
    ensures MinuteRun(lim, steps', states', minute, n, v + 1, w - 1, next)
  {
    assert |WaitingFor(Last(states), minute)| <= n;
    var id, s1, s2 := CountWaiting(lim, Last(states), minute, v, w, next);
    var s3, s4 := Finish(lim, s2, minute, id);
    ExtendMinute(lim, steps, states, minute, n, ReadConcurrency(id), s1);
    steps', states' := steps + [ReadConcurrency(id)], states + [s1];
    ExtendMinute(lim, steps', states', minute, n, Increment(id), s2);
    steps', states' := steps' + [Increment(id)], states' + [s2];
    ExtendMinute(lim, steps', states', minute, n, Return(id), s3);
    steps', states' := steps' + [Return(id)], states' + [s3];
    ExtendMinute(lim, steps', states', minute, n, Decrement(id, false), s4);
    steps', states' := steps' + [Decrement(id, false)], states' + [s4];
  }

  lemma {:induction false} ExecuteInTurn(lim: Limits, minute: int, n: nat, v: nat)
    returns (steps: seq<Step>, states: seq<State>)
    requires n >= 1 && lim.concurrency >= 1 && v < lim.rate
    ensures MinuteRun(lim, steps, states, minute, n, v, 0, v)
  {
    if v == 0 {
      steps, states := [], [INITIAL];
      assert WaitingFor(INITIAL, minute) == {};
    } else {
      steps, states := ExecuteInTurn(lim, minute, n, v - 1);
      steps, states := PassRate(lim, steps, states, minute, n, v - 1, 0, v - 1);
      steps, states := ExecuteOne(lim, steps, states, minute, n, v - 1, 1, v);
    }
  }

  lemma {:induction false} PassTogether(lim: Limits, minute: int, n: nat, v: nat, w: nat)
    returns (steps: seq<Step>, states: seq<State>)
    requires n >= 1 && lim.concurrency >= 1 && v < lim.rate && w <= n
    ensures MinuteRun(lim, steps, states, minute, n, v, w, v + w)
  {
    if w == 0 {
      steps, states := ExecuteInTurn(lim, minute, n, v);
    } else {
      steps, states := PassTogether(lim, minute, n, v, w - 1);
      steps, states := PassRate(lim, steps, states, minute, n, v, w - 1, v + w - 1);
    }
  }

  lemma {:induction false} ExecuteTogether(lim: Limits, minute: int, n: nat, v: nat, k: nat)
    returns (steps: seq<Step>, states: seq<State>)
    requires n >= 1 && lim.concurrency >= 1 && v < lim.rate && k <= n
    ensures MinuteRun(lim, steps, states, minute, n, v + k, n - k, v + n)
  {
    if k == 0 {
      steps, states := PassTogether(lim, minute, n, v, n);
    } else {
      steps, states := ExecuteTogether(lim, minute, n, v, k - 1);
      steps, states := ExecuteOne(lim, steps, states, minute, n, v + k - 1, n - k + 1, v + n);
    }
  }

  /** For every `n` some run counts `rate + n - 1` executions in one minute, with at most `n` requests
      between check and increment; the next request of that minute is rejected. */
  lemma RateBoundIsReached(lim: Limits, minute: int, n: nat) returns (steps: seq<Step>, states: seq<State>, id: nat)
    requires n >= 1 && lim.concurrency >= 1 && lim.rate >= 1
    ensures IsRun(lim, steps, states) && forall k :: 0 <= k < |states| ==> |WaitingFor(states[k], minute)| <= n
    ensures Last(states).Rate(minute) == lim.rate + n - 1
    ensures var arrived := Next(lim, Last(states), Arrive(id, minute));
            && arrived.Some?
            && Next(lim, arrived.value, ReadRate(id)) == Some(Last(states).Move(id, Rejected))
  {
    steps, states := ExecuteTogether(lim, minute, n, lim.rate - 1, n);
    id := lim.rate - 1 + n;
    var s := Last(states);
    assert s.Move(id, Arrived(minute)).Move(id, Rejected) == s.Move(id, Rejected) by {
      assert s.requests[id := Arrived(minute)][id := Rejected] == s.requests[id := Rejected];
    }
    assert minute in s.minutes;
  }
}
