/** The Redis window limiter. */
module RateLimiting {
  import opened Json

  /** A counter and when it expires, if an expiry has been set. */
  datatype Slot = Slot(count: nat, deadline: Option<int>)

  /** What Redis shows of a slot at time `now`. */
  function Live(slot: Option<Slot>, now: int): (r: Option<Slot>) {
    if slot.Some? && slot.value.deadline.Some? && slot.value.deadline.value <= now then None else slot
  }

  /** INCR, followed by EXPIRE when the count comes out as one. */
  function Hit(slot: Option<Slot>, now: int, window: int): (r: Slot)
    ensures r.count >= 1
  {
    match Live(slot, now)
    case None => Slot(1, Some(now + window))
    case Some(s) => if s.count == 0 then Slot(1, Some(now + window)) else Slot(s.count + 1, s.deadline)
  }

  function Max0(n: int): (r: nat) { if n < 0 then 0 else n }

  class RateLimiter {
    var store: map<string, Slot>

    constructor ()
      ensures store == map[]
    {
      store := map[];
    }

    function At(key: string): (r: Option<Slot>)
      reads this
    {
      if key in store then Some(store[key]) else None
    }

    /** Records an event, and says whether it exceeds the limit. */
    method IsRateLimited(key: string, limit: int, window: int, now: int) returns (limited: bool, current: nat)
      modifies this
      ensures store == old(store)[key := Hit(old(At(key)), now, window)]
      ensures current == store[key].count && limited == (current > limit)
    {
      var slot := Live(At(key), now);
      current := (if slot.Some? then slot.value.count else 0) + 1;
      var deadline := if slot.Some? then slot.value.deadline else None;
      if current == 1 {
        deadline := Some(now + window);
      }
      store := store[key := Slot(current, deadline)];
      limited := current > limit;
    }

    /** Looks without recording. The answer is whether the next recorded event would be refused,
        exactly when the key is live or the limit is positive. */
    method CheckRateLimited(key: string, limit: int, now: int) returns (limited: bool, count: nat)
      ensures Live(At(key), now).None? ==> !limited && count == 0
      ensures Live(At(key), now).Some? ==> count == Live(At(key), now).value.count
      ensures forall window ::
                (limited == (Hit(At(key), now, window).count > limit)
                 <==> Live(At(key), now).Some? || limit >= 1)
    {
      var current := Live(At(key), now);
      if current.None? { return false, 0; }
      count := current.value.count;
      limited := count >= limit;
    }

    /** How many more events fit: of any events from now on, before the window is over, exactly that
        many are let through. A key with no window gives back the limit itself, even a negative one. */
    method GetRemaining(key: string, limit: int, now: int) returns (remaining: int)
      ensures forall times, window :: times != [] && times[0] == now && OneWindow(At(key), times, window) ==>
                Admitted(At(key), times, limit, window) == Min(|times|, Max0(remaining))
      ensures Live(At(key), now).None? ==> remaining == limit
      ensures Live(At(key), now).Some? ==> remaining >= 0
    {
      forall times, window | times != [] && times[0] == now && OneWindow(At(key), times, window)
        ensures Admitted(At(key), times, limit, window) == Min(|times|, Max0(Remaining(At(key), limit, now)))
      {
        RemainingIsExact(At(key), times, limit, window);
      }
      var current := Live(At(key), now);
      if current.None? { return limit; }
      remaining := if limit - current.value.count > 0 then limit - current.value.count else 0;
    }

    method Reset(key: string)
      modifies this
      ensures store == old(store) - {key} && At(key).None?
    {
      store := store - {key};
    }
  }

  function Remaining(slot: Option<Slot>, limit: int, now: int): (r: int) {
    match Live(slot, now)
    case None => limit
    case Some(s) => Max0(limit - s.count)
  }

  // ----- what is left is what will be let through

  /** How many of the events at `times` stay within the limit. */
  function Admitted(slot: Option<Slot>, times: seq<int>, limit: int, window: int): (r: nat)
    ensures r <= |times|
    decreases |times|
  {
    if times == [] then 0
    else
      var s := Hit(slot, times[0], window);
      (if s.count <= limit then 1 else 0) + Admitted(Some(s), times[1..], limit, window)
  }

  /** All events fall before the window that the first of them sees, or opens, is over. */
  ghost predicate OneWindow(slot: Option<Slot>, times: seq<int>, window: int) {
    times != [] ==>
      var d := Hit(slot, times[0], window).deadline;
      d.Some? ==> forall k :: 0 <= k < |times| ==> times[k] < d.value
  }

  /** Of any number of events in the window, exactly as many as remain are let through. */
  lemma {:induction false} RemainingIsExact(slot: Option<Slot>, times: seq<int>, limit: int, window: int)
    requires times != [] && OneWindow(slot, times, window)
    ensures Admitted(slot, times, limit, window) == Min(|times|, Max0(Remaining(slot, limit, times[0])))
    decreases |times|
  {
    var s := Hit(slot, times[0], window);
    if |times| > 1 {
      assert Live(Some(s), times[1]) == Some(s);
      RemainingIsExact(Some(s), times[1..], limit, window);
    }
  }

  // ----- any interval of window length

  /** Redis commands on one key, in the order they take effect: a caller's INCR, or the EXPIRE that
      the caller which got the count one sends afterwards, at some later time or never. */
  datatype Command = Incr(time: int) | Expire(time: int)

  /** The key: when it was created, how often it was incremented, when it expires. */
  datatype Key = Absent | Present(born: int, count: nat, deadline: Option<int>)

  function After(key: Key, window: int, c: Command): (r: Key) {
    match c
    case Incr(t) =>
      var gone := key.Absent? || (key.deadline.Some? && key.deadline.value <= t);
      if gone then Present(t, 1, None) else key.(count := key.count + 1)
    case Expire(t) =>
      // only the creator sends it, once, while the key has no expiry and so cannot have gone
      if key.Present? && key.deadline.None? then key.(deadline := Some(t + window)) else key
  }

  /** A key as Redis keeps it, seen as a slot. */
  ghost predicate Shows(key: Key, slot: Option<Slot>, now: int) {
    match Live(slot, now)
    case None => key.Absent? || (key.deadline.Some? && key.deadline.value <= now)
    case Some(s) => key.Present? && key.count == s.count >= 1 && key.deadline == s.deadline && Live(Some(s), now).Some?
  }

  /** Recording an event is an INCR, with its EXPIRE at once when the count comes out as one. */
  lemma HitIsIncrThenExpire(key: Key, slot: Option<Slot>, now: int, window: int)
    requires Shows(key, slot, now) && window > 0
    ensures var k := After(key, window, Incr(now));
            Shows(if k.count == 1 then After(k, window, Expire(now)) else k, Some(Hit(slot, now, window)), now)
  {}

  function Replay(cs: seq<Command>, window: int): (r: Key) {
    if cs == [] then Absent else After(Replay(cs[..|cs| - 1], window), window, cs[|cs| - 1])
  }

  ghost predicate InOrder(cs: seq<Command>) {
    forall i, j :: 0 <= i < j < |cs| ==> cs[i].time <= cs[j].time
  }

  /** How many calls the limiter lets through at times in `[from, from + window)`. */
  function LetThrough(cs: seq<Command>, limit: int, window: int, from: int): (r: nat) {
    if cs == [] then 0
    else
      var c := cs[|cs| - 1];
      LetThrough(cs[..|cs| - 1], limit, window, from)
      + (if c.Incr? && from <= c.time < from + window && Replay(cs, window).count <= limit then 1 else 0)
  }

  function Min(a: int, b: int): (r: int) { if a < b then a else b }

  /** What has been let through, bounded by when the current key was created. */
  ghost predicate Ledger(key: Key, now: int, through: nat, limit: nat, window: int, from: int) {
    && (now < from ==> through == 0)
    && through <= 2 * limit - 1
    && match key
       case Absent => through == 0
       case Present(born, count, deadline) =>
         && count >= 1 && born <= now
         && (deadline.Some? ==> deadline.value >= born + window)
         && (born < from ==> through <= Min(count, limit) - 1)
         && (from <= born < from + window ==> through <= limit - 1 + Min(count, limit))
  }

  lemma LedgerStep(key: Key, now: int, through: nat, limit: nat, window: int, from: int, c: Command)
    requires limit >= 1 && Ledger(key, now, through, limit, window, from) && now <= c.time
    ensures var key' := After(key, window, c);
            var more := if c.Incr? && from <= c.time < from + window && key'.count <= limit then 1 else 0;
            Ledger(key', c.time, through + more, limit, window, from)
  {}

  lemma {:induction false} LedgerHolds(cs: seq<Command>, limit: nat, window: int, from: int)
    requires limit >= 1 && InOrder(cs) && cs != []
    ensures Ledger(Replay(cs, window), cs[|cs| - 1].time, LetThrough(cs, limit, window, from), limit, window, from)
  {
    var init, c := cs[..|cs| - 1], cs[|cs| - 1];
    if init == [] {
      LedgerStep(Absent, Min(c.time, from - 1), 0, limit, window, from, c);
    } else {
      LedgerHolds(init, limit, window, from);
      var before, through := Replay(init, window), LetThrough(init, limit, window, from);
      LedgerStep(before, init[|init| - 1].time, through, limit, window, from, c);
    }
  }

  lemma {:induction false} NoneThrough(cs: seq<Command>, limit: int, window: int, from: int)
    requires limit <= 0
    ensures LetThrough(cs, limit, window, from) == 0
  {
    if cs != [] {
      NoneThrough(cs[..|cs| - 1], limit, window, from);
      CountPositive(cs, window);
    }
  }

  lemma {:induction false} CountPositive(cs: seq<Command>, window: int)
    ensures Replay(cs, window).Present? ==> Replay(cs, window).count >= 1
  {
    if cs != [] { CountPositive(cs[..|cs| - 1], window); }
  }

  /** Without resets, any interval of window length lets through at most `2 * limit - 1` calls
      (none when the limit is not positive), however late or lost the EXPIRE commands are. */
  lemma WindowBound(cs: seq<Command>, limit: int, window: int, from: int)
    requires InOrder(cs)
    ensures LetThrough(cs, limit, window, from) <= if limit >= 1 then 2 * limit - 1 else 0
  {
    if limit < 1 {
      NoneThrough(cs, limit, window, from);
    } else if cs != [] {
      LedgerHolds(cs, limit, window, from);
    }
  }

  // ----- the bound is reached

  /** `n` calls at time `t`. */
  function Calls(t: int, n: nat): (r: seq<Command>)
    ensures |r| == n && forall c <- r :: c == Incr(t)
  {
    seq(n, _ => Incr(t))
  }

  lemma ReplaySnoc(cs: seq<Command>, c: Command, limit: int, window: int, from: int)
    ensures Replay(cs + [c], window) == After(Replay(cs, window), window, c)
    ensures LetThrough(cs + [c], limit, window, from)
         == LetThrough(cs, limit, window, from)
            + if c.Incr? && from <= c.time < from + window && Replay(cs + [c], window).count <= limit then 1 else 0
  {
    assert (cs + [c])[..|cs + [c]| - 1] == cs;
  }

  /** Calls at one time, after a key that is still live then. */
  lemma {:induction false} ManyCalls(cs: seq<Command>, t: int, n: nat, limit: nat, window: int, from: int)
    requires from <= t < from + window
    requires var k := Replay(cs, window);
             k.Present? && (k.deadline.Some? ==> k.deadline.value > t) && k.count + n <= limit
    ensures var k := Replay(cs, window); Replay(cs + Calls(t, n), window) == k.(count := k.count + n)
    ensures LetThrough(cs + Calls(t, n), limit, window, from) == LetThrough(cs, limit, window, from) + n
  {
    if n == 0 {
      assert cs + Calls(t, n) == cs;
    } else {
      ManyCalls(cs, t, n - 1, limit, window, from);
      assert cs + Calls(t, n) == cs + Calls(t, n - 1) + [Incr(t)];
      ReplaySnoc(cs + Calls(t, n - 1), Incr(t), limit, window, from);
    }
  }

  /** One call opens a window just before the interval; the rest of that window's calls come at its
      end, and the next window's at once after it. */
  lemma BoundIsReached(limit: nat, window: int) returns (cs: seq<Command>)
    requires limit >= 1 && window >= 2
    ensures InOrder(cs) && LetThrough(cs, limit, window, 1) == 2 * limit - 1
  {
    var c1 := [Incr(0), Expire(0)];
    ReplaySnoc([], Incr(0), limit, window, 1);
    ReplaySnoc([Incr(0)], Expire(0), limit, window, 1);
    assert [] + [Incr(0)] == [Incr(0)] && [Incr(0)] + [Expire(0)] == c1;
    var c2 := c1 + Calls(window - 1, limit - 1);
    ManyCalls(c1, window - 1, limit - 1, limit, window, 1);
    var c3 := c2 + [Incr(window)];
    ReplaySnoc(c2, Incr(window), limit, window, 1);
    cs := c3 + Calls(window, limit - 1);
    ManyCalls(c3, window, limit - 1, limit, window, 1);
  }
}
