/** Overlapping calls on the connection pool: every stretch between two awaits is one step, and steps of
    different calls interleave in any order. */
module PoolInterleaving {
  import opened Json
  import ConnectionPool

  type Key = ConnectionPool.Key

  /** Where a call stands. A connection goes by the number of the call that opened it. */
  datatype Phase =
    | Closing(key: Key, conn: nat)  // a stale connection is out of the pool and being closed
    | Connecting(key: Key)          // its own connection is being set up
    | Evicting(conn: nat)           // an evicted connection is being closed
    | Over

  datatype State = State(pool: map<Key, nat>, calls: map<nat, Phase>, dialed: set<nat>, closed: set<nat>) {
    function Move(id: nat, p: Phase): State { this.(calls := calls[id := p]) }
  }

  const INITIAL := State(map[], map[], {}, {})

  datatype Step =
    | Hit(id: nat, key: Key)    // finds a fresh connection
    | Miss(id: nat, key: Key)   // finds none, starts to connect
    | Stale(id: nat, key: Key)  // finds an old one and takes it out
    | Closed(id: nat)           // the old one is closed, connecting starts
    | Store(id: nat)            // connected: goes into the pool
    | Fail(id: nat)             // not connected: closed again
    | Cancel(id: nat)           // cancelled while connecting: nothing closes it
    | Pop(id: nat, key: Key)    // an eviction takes the connection out, if there is one
    | Exit(id: nat)             // the evicted connection is closed

  /** The effect of a step; nothing when the step is not possible. */
  function Next(s: State, step: Step): (r: Option<State>) {
    match step
    case Hit(id, key) => if id in s.calls || key !in s.pool then None else Some(s.Move(id, Over))
    case Miss(id, key) =>
      if id in s.calls || key in s.pool then None
      else Some(s.Move(id, Connecting(key)).(dialed := s.dialed + {id}))
    case Stale(id, key) =>
      if id in s.calls || key !in s.pool then None
      else Some(s.Move(id, Closing(key, s.pool[key])).(pool := s.pool - {key}))
    case Closed(id) =>
      if id !in s.calls || !s.calls[id].Closing? then None
      else
        var p := s.calls[id];
        Some(s.Move(id, Connecting(p.key)).(closed := s.closed + {p.conn}, dialed := s.dialed + {id}))
    case Store(id) =>
      if !IsConnecting(s, id) then None else Some(s.Move(id, Over).(pool := s.pool[s.calls[id].key := id]))
    case Fail(id) =>
      if !IsConnecting(s, id) then None else Some(s.Move(id, Over).(closed := s.closed + {id}))
    case Cancel(id) =>
      if !IsConnecting(s, id) then None else Some(s.Move(id, Over))
    case Pop(id, key) =>
      if id in s.calls then None
      else if key !in s.pool then Some(s.Move(id, Over))
      else Some(s.Move(id, Evicting(s.pool[key])).(pool := s.pool - {key}))
    case Exit(id) =>
      if id !in s.calls || !s.calls[id].Evicting? then None
      else Some(s.Move(id, Over).(closed := s.closed + {s.calls[id].conn}))
  }

  predicate IsConnecting(s: State, id: nat) { id in s.calls && s.calls[id].Connecting? }

  ghost predicate IsRun(steps: seq<Step>, states: seq<State>) {
    && |states| == |steps| + 1 && states[0] == INITIAL
    && forall i :: 0 <= i < |steps| ==> Next(states[i], steps[i]) == Some(states[i + 1])
  }

  // ----- where a connection is

  /** The connection a call has in hand. */
  function Holds(id: nat, p: Phase): (r: Option<nat>) {
    match p
    case Closing(_, c) => Some(c)
    case Connecting(_) => Some(id)
    case Evicting(c) => Some(c)
    case Over => None
  }

  ghost predicate Pooled(s: State, c: nat) { exists k <- s.pool :: s.pool[k] == c }

  ghost predicate InHand(s: State, c: nat) { exists id <- s.calls :: Holds(id, s.calls[id]) == Some(c) }

  /** Open, in no call's hands and not to be found in the pool: nothing will ever close it. */
  ghost predicate Leaked(s: State, c: nat) {
    c in s.dialed && c !in s.closed && !Pooled(s, c) && !InHand(s, c)
  }

  /** A connection is in one place at most: in the pool under one key, in the hands of one call, closed
      or lost. */
  ghost predicate Valid(s: State) { Recorded(s) && PoolApart(s) && HandsApart(s) }

  ghost predicate Recorded(s: State) {
    s.dialed <= s.calls.Keys && s.closed <= s.dialed && forall id <- s.calls :: s.calls[id].Closing? ==> id !in s.dialed
  }

  ghost predicate PoolApart(s: State) {
    && (forall k <- s.pool :: s.pool[k] in s.dialed && s.pool[k] !in s.closed)
    && (forall k <- s.pool, l <- s.pool :: s.pool[k] == s.pool[l] ==> k == l)
  }

  /** A connection in hand is open, not pooled, and in no other hands. */
  ghost predicate HandsApart(s: State) {
    && (forall id <- s.calls :: Holds(id, s.calls[id]).Some? ==> Loose(s, Holds(id, s.calls[id]).value))
    && (forall a <- s.calls, b <- s.calls ::
          Holds(a, s.calls[a]).Some? && Holds(a, s.calls[a]) == Holds(b, s.calls[b]) ==> a == b)
  }

  ghost predicate Loose(s: State, c: nat) { c in s.dialed && c !in s.closed && forall k <- s.pool :: s.pool[k] != c }

  lemma RecordedStep(s: State, step: Step, t: State)
    requires Valid(s) && Next(s, step) == Some(t)
    ensures Recorded(t)
  {}

  lemma PoolStep(s: State, step: Step, t: State)
    requires Valid(s) && Next(s, step) == Some(t)
    ensures PoolApart(t)
  {
    if step.Closed? || step.Store? || step.Fail? || step.Exit? {
      var c := Holds(step.id, s.calls[step.id]).value;
      assert Loose(s, c);
    }
  }

  lemma LooseStep(s: State, step: Step, t: State, id: nat)
    requires Valid(s) && Next(s, step) == Some(t) && id in t.calls && Holds(id, t.calls[id]).Some?
    ensures Loose(t, Holds(id, t.calls[id]).value)
  {
    if id != step.id {
      assert t.calls[id] == s.calls[id] && Loose(s, Holds(id, s.calls[id]).value);
      if step.id in s.calls && Holds(step.id, s.calls[step.id]).Some? {
        assert Loose(s, Holds(step.id, s.calls[step.id]).value);
      }
    }
  }

  lemma HandsStep(s: State, step: Step, t: State, a: nat, b: nat)
    requires Valid(s) && Next(s, step) == Some(t) && a in t.calls && b in t.calls && a != b && a != step.id
    requires Holds(a, t.calls[a]).Some?
    ensures Holds(a, t.calls[a]) != Holds(b, t.calls[b])
  {
    assert t.calls[a] == s.calls[a] && Loose(s, Holds(a, s.calls[a]).value);
  }

  lemma ValidStep(s: State, step: Step, t: State)
    requires Valid(s) && Next(s, step) == Some(t)
    ensures Valid(t)
  {
    RecordedStep(s, step, t);
    PoolStep(s, step, t);
    forall id | id in t.calls && Holds(id, t.calls[id]).Some? ensures Loose(t, Holds(id, t.calls[id]).value) {
      LooseStep(s, step, t, id);
    }
    forall a, b | a in t.calls && b in t.calls && Holds(a, t.calls[a]).Some?
                  && Holds(a, t.calls[a]) == Holds(b, t.calls[b])
      ensures a == b
    {
      if a != b && a != step.id { HandsStep(s, step, t, a, b); }
      if a != b && b != step.id { HandsStep(s, step, t, b, a); }
    }
  }

  lemma {:induction false} RunIsValid(steps: seq<Step>, states: seq<State>, i: nat)
    requires IsRun(steps, states) && i < |states|
    ensures Valid(states[i])
  {
    if i > 0 {
      RunIsValid(steps, states, i - 1);
      ValidStep(states[i - 1], steps[i - 1], states[i]);
    }
  }

  // ----- what a step loses

  /** The step puts a new connection into the pool under `k`. */
  ghost predicate StoresTo(s: State, step: Step, k: Key) {
    step.Store? && step.id in s.calls && s.calls[step.id] == Connecting(k)
  }

  /** The step cancels the connection's own call, or puts another connection in its place. */
  ghost predicate Loses(s: State, step: Step, c: nat) {
    step == Cancel(c) || exists k <- s.pool :: s.pool[k] == c && StoresTo(s, step, k)
  }

  lemma StaysLeaked(s: State, step: Step, t: State, c: nat)
    requires Valid(s) && Next(s, step) == Some(t) && Leaked(s, c)
    ensures Leaked(t, c)
  {
    forall k | k in t.pool ensures t.pool[k] != c {
      if k in s.pool { assert s.pool[k] != c; }
      if step.Store? { assert Holds(step.id, s.calls[step.id]) != Some(c); }
    }
    forall id | id in t.calls ensures Holds(id, t.calls[id]) != Some(c) {
      if id in s.calls { assert Holds(id, s.calls[id]) != Some(c); }
    }
    assert step.id in s.calls ==> Holds(step.id, s.calls[step.id]) != Some(c);
  }

  lemma LossLeaks(s: State, step: Step, t: State, c: nat)
    requires Valid(s) && Next(s, step) == Some(t) && Loses(s, step, c)
    ensures Leaked(t, c)
  {
    var id := step.id;
    assert Holds(id, s.calls[id]) == Some(id) && Loose(s, id);
    if step == Cancel(c) {
      forall a | a in t.calls ensures Holds(a, t.calls[a]) != Some(c) {}
    } else {
      var k :| k in s.pool && s.pool[k] == c && StoresTo(s, step, k);
      forall a | a in t.calls ensures Holds(a, t.calls[a]) != Some(c) {
        if a != id && Holds(a, s.calls[a]).Some? { assert Loose(s, Holds(a, s.calls[a]).value); }
      }
    }
  }

  lemma PooledKept(s: State, step: Step, t: State, c: nat, k: Key)
    requires Valid(s) && Next(s, step) == Some(t) && k in s.pool && s.pool[k] == c && !Loses(s, step, c)
    ensures Pooled(t, c) || InHand(t, c)
  {
    if (step.Stale? || step.Pop?) && step.key == k {
      assert Holds(step.id, t.calls[step.id]) == Some(c);
    } else {
      assert !StoresTo(s, step, k);
      assert k in t.pool && t.pool[k] == c;
    }
  }

  lemma HandKept(s: State, step: Step, t: State, c: nat, id: nat)
    requires Valid(s) && Next(s, step) == Some(t) && !Loses(s, step, c)
    requires id in s.calls && Holds(id, s.calls[id]) == Some(c)
    ensures c in t.closed || Pooled(t, c) || InHand(t, c)
  {
    if id != step.id {
      assert Holds(id, t.calls[id]) == Some(c);
    } else if step.Store? {
      assert t.pool[s.calls[id].key] == c;
    }
  }

  /** A connection leaks in exactly two ways: its call is cancelled while connecting, or another call
      stores its connection over it. Nothing else loses one, and a leaked one stays leaked. */
  lemma LeakStep(s: State, step: Step, t: State, c: nat)
    requires Valid(s) && Next(s, step) == Some(t)
    ensures Leaked(t, c) <==> Leaked(s, c) || Loses(s, step, c)
  {
    if Leaked(s, c) {
      StaysLeaked(s, step, t, c);
    } else if Loses(s, step, c) {
      LossLeaks(s, step, t, c);
    } else if c !in s.dialed {
      assert c in t.dialed ==> c == step.id && Holds(c, t.calls[c]) == Some(c);
    } else if c !in s.closed {
      if k :| k in s.pool && s.pool[k] == c {
        PooledKept(s, step, t, c, k);
      } else {
        var id :| id in s.calls && Holds(id, s.calls[id]) == Some(c);
        HandKept(s, step, t, c, id);
      }
    }
  }

  // ----- whole runs

  /** The step changes what the pool has under `k`. */
  ghost predicate Touches(s: State, step: Step, k: Key) {
    StoresTo(s, step, k) || ((step.Stale? || step.Pop?) && step.key == k)
  }

  /** Connection `c` was stored by step `i`, and step `j` stored another one under the same key with
      nothing done to that key in between. */
  ghost predicate StoredOver(steps: seq<Step>, states: seq<State>, c: nat, i: nat, j: nat)
    requires |states| == |steps| + 1
  {
    && i < j < |steps| && steps[i] == Store(c) && c in states[i].calls && states[i].calls[c].Connecting?
    && StoresTo(states[j], steps[j], states[i].calls[c].key)
    && forall m :: i < m < j ==> !Touches(states[m], steps[m], states[i].calls[c].key)
  }

  lemma {:induction false} PooledSince(steps: seq<Step>, states: seq<State>, j: nat, k: Key) returns (i: nat)
    requires IsRun(steps, states) && j < |states| && k in states[j].pool
    ensures i < j && steps[i] == Store(states[j].pool[k]) && StoresTo(states[i], steps[i], k)
    ensures forall m :: i < m < j ==> !Touches(states[m], steps[m], k)
  {
    assert j > 0;
    assert Next(states[j - 1], steps[j - 1]) == Some(states[j]);
    if StoresTo(states[j - 1], steps[j - 1], k) {
      i := j - 1;
    } else {
      i := PooledSince(steps, states, j - 1, k);
      assert !Touches(states[j - 1], steps[j - 1], k);
    }
  }

  lemma {:induction false} StaysPooled(steps: seq<Step>, states: seq<State>, i: nat, j: nat, k: Key)
    requires IsRun(steps, states) && i < j < |states| && StoresTo(states[i], steps[i], k)
    requires forall m :: i < m < j ==> !Touches(states[m], steps[m], k)
    ensures k in states[j].pool && states[j].pool[k] == steps[i].id
  {
    assert Next(states[j - 1], steps[j - 1]) == Some(states[j]);
    if j - 1 > i { StaysPooled(steps, states, i, j - 1, k); }
  }

  lemma {:induction false} LeakedBy(steps: seq<Step>, states: seq<State>, n: nat, c: nat)
    requires IsRun(steps, states) && n < |states|
    ensures Leaked(states[n], c) <==> exists i :: 0 <= i < n && Loses(states[i], steps[i], c)
  {
    if n > 0 {
      LeakedBy(steps, states, n - 1, c);
      RunIsValid(steps, states, n - 1);
      LeakStep(states[n - 1], steps[n - 1], states[n], c);
    }
  }

  /** After any run a connection is leaked exactly when its call was cancelled while connecting, or it
      was stored and then another connection was stored under its key before anyone took it out. */
  lemma LeakedExactly(steps: seq<Step>, states: seq<State>, n: nat, c: nat)
    requires IsRun(steps, states) && n < |states|
    ensures Leaked(states[n], c) <==>
              || (exists i :: 0 <= i < n && steps[i] == Cancel(c))
              || (exists i: nat, j: nat :: j < n && StoredOver(steps, states, c, i, j))
  {
    LeakedBy(steps, states, n, c);
    forall j | 0 <= j < n && Loses(states[j], steps[j], c) && steps[j] != Cancel(c)
      ensures exists i: nat :: StoredOver(steps, states, c, i, j)
    {
      var k :| k in states[j].pool && states[j].pool[k] == c && StoresTo(states[j], steps[j], k);
      var i := PooledSince(steps, states, j, k);
      assert StoredOver(steps, states, c, i, j);
    }
    forall i: nat, j: nat | j < n && StoredOver(steps, states, c, i, j) ensures Loses(states[j], steps[j], c) {
      StaysPooled(steps, states, i, j, states[i].calls[c].key);
    }
  }

  // ----- no two connects to one key at a time

  /** The call is on its way to a connection for `k`. */
  ghost predicate Heads(p: Phase, k: Key) { (p.Connecting? || p.Closing?) && p.key == k }

  ghost predicate NoOverlap(s: State) {
    forall a <- s.calls, b <- s.calls, k :: Heads(s.calls[a], k) && Heads(s.calls[b], k) ==> a == b
  }

  lemma {:induction false} KeyIsFree(steps: seq<Step>, states: seq<State>, i: nat, id: nat, k: Key)
    requires IsRun(steps, states) && i < |states| && forall m :: 0 <= m <= i ==> NoOverlap(states[m])
    requires id in states[i].calls && Heads(states[i].calls[id], k)
    ensures k !in states[i].pool
  {
    assert i > 0;
    var s, step, t := states[i - 1], steps[i - 1], states[i];
    assert Next(s, step) == Some(t) && NoOverlap(s);
    if id in s.calls && Heads(s.calls[id], k) {
      KeyIsFree(steps, states, i - 1, id, k);
      if StoresTo(s, step, k) { assert Heads(s.calls[step.id], k); }
    }
  }

  /** Every connection is pooled, closed or in some call's hands, as long as no two connects to one key
      overlap and none is cancelled. */
  lemma NoOverlapNoLeak(steps: seq<Step>, states: seq<State>, n: nat, c: nat)
    requires IsRun(steps, states) && n < |states|
    requires forall m :: 0 <= m < |states| ==> NoOverlap(states[m])
    requires forall i :: 0 <= i < |steps| ==> !steps[i].Cancel?
    ensures c in states[n].dialed ==> c in states[n].closed || Pooled(states[n], c) || InHand(states[n], c)
  {
    LeakedBy(steps, states, n, c);
    forall i | 0 <= i < n ensures !Loses(states[i], steps[i], c) {
      if k :| k in states[i].pool && states[i].pool[k] == c && StoresTo(states[i], steps[i], k) {
        KeyIsFree(steps, states, i, steps[i].id, k);
        assert false;
      }
    }
  }

  /** Two calls that overlap on a key, both successful: the first connection is leaked. */
  lemma OverlapLeaks(k: Key) returns (steps: seq<Step>, states: seq<State>)
    ensures IsRun(steps, states) && Leaked(states[|steps|], 0)
    ensures forall i :: 0 <= i < |steps| ==> !steps[i].Cancel?
  {
    steps := [Miss(0, k), Miss(1, k), Store(0), Store(1)];
    var s1 := Next(INITIAL, steps[0]).value;
    var s2 := Next(s1, steps[1]).value;
    var s3 := Next(s2, steps[2]).value;
    var s4 := Next(s3, steps[3]).value;
    states := [INITIAL, s1, s2, s3, s4];
    assert s4.pool == map[k := 1] && s4.calls == map[0 := Over, 1 := Over] && s4.dialed == {0, 1} && s4.closed == {};
  }
}
