/** The in-memory telemetry bus: per agent, a map of bounded subscriber queues. */
module Telemetry {
  import opened Seqs
  import opened Json

  const MAX_QUEUE := 256

  datatype Event = Event(eventType: string, timestamp: real, runId: string, agentId: string, data: Json)

  /** What sits in a queue: an event, or the `None` that tells the subscriber to stop. */
  datatype Item = Ev(event: Event) | Stop

  /** `put_nowait` with `QueueFull` suppressed. */
  function Push(items: seq<Item>, x: Item): (r: seq<Item>)
    ensures |items| <= MAX_QUEUE ==> |r| <= MAX_QUEUE
    ensures items <= r
  {
    if |items| < MAX_QUEUE then items + [x] else items
  }

  function Events(items: seq<Item>): (r: seq<Event>) {
    if items == [] then [] else (if items[0].Ev? then [items[0].event] else []) + Events(items[1..])
  }

  lemma {:induction false} EventsSnoc(items: seq<Item>, x: Item)
    ensures Events(items + [x]) == Events(items) + (if x.Ev? then [x.event] else [])
  {
    if items == [] {
      assert [] + [x] == [x] && [x][1..] == [];
    } else {
      EventsSnoc(items[1..], x);
      assert (items + [x])[1..] == items[1..] + [x];
    }
  }

  /** A dropped event leaves what was seen a subsequence of what was emitted; an accepted one
      extends both. */
  lemma PushKeepsOrder(delivered: seq<Event>, items: seq<Item>, emitted: seq<Event>, e: Event)
    requires Subseq(delivered + Events(items), emitted)
    ensures Subseq(delivered + Events(Push(items, Ev(e))), emitted + [e])
    ensures |items| >= 256 ==> Push(items, Ev(e)) == items
    ensures |items| < 256 && delivered + Events(items) == emitted ==>
              delivered + Events(Push(items, Ev(e))) == emitted + [e]
  {
    var seen := delivered + Events(items);
    EventsSnoc(items, Ev(e));
    if |items| < MAX_QUEUE {
      SubseqRefl([e]);
      SubseqConcat(seen, emitted, [e], [e]);
      assert delivered + (Events(items) + [e]) == seen + [e];
    } else {
      SubseqConcat(seen, emitted, [], [e]);
      assert seen + [] == seen;
    }
  }

  /** A subscriber: its queue, shared by the bus and the subscriber's generator. The ghost fields
      record what was emitted to its agent while it was registered, what its generator has yielded,
      and whether the queue was ever full when something was emitted. */
  class Subscription {
    const agentId: string
    const subId: nat
    var items: seq<Item>
    ghost var emitted: seq<Event>
    ghost var delivered: seq<Event>
    ghost var dropped: bool

    ghost predicate Valid()
      reads this
    {
      && |items| <= MAX_QUEUE
      && (forall i :: 0 <= i < |items| - 1 ==> items[i].Ev?)
      && Subseq(delivered + Events(items), emitted)
      && (!dropped ==> delivered + Events(items) == emitted)
    }

    /** Not told to stop. */
    ghost predicate Open()
      reads this
    {
      Stop !in items
    }

    constructor (agentId: string, subId: nat)
      ensures this.agentId == agentId && this.subId == subId
      ensures Valid() && Open() && items == [] && emitted == [] && delivered == [] && !dropped
    {
      this.agentId, this.subId, items, emitted, delivered, dropped := agentId, subId, [], [], [], false;
    }

    method Offer(e: Event)
      requires Valid() && Open()
      modifies this
      ensures Valid() && Open()
      ensures items == Push(old(items), Ev(e)) && emitted == old(emitted) + [e] && delivered == old(delivered)
      ensures dropped == (old(dropped) || |old(items)| == MAX_QUEUE)
    {
      PushKeepsOrder(delivered, items, emitted, e);
      emitted := emitted + [e];
      if |items| < MAX_QUEUE {
        items := items + [Ev(e)];
      } else {
        dropped := true;
      }
    }

    /** The end of the stream is queued exactly when there is room for it. */
    method OfferStop()
      requires Valid() && Open()
      modifies this`items
      ensures Valid() && items == Push(old(items), Stop)
      ensures Stop in items <==> |old(items)| < MAX_QUEUE
    {
      if |items| < MAX_QUEUE {
        EventsSnoc(items, Stop);
        assert Events(items) + [] == Events(items);
        items := items + [Stop];
      }
    }

    /** `await queue.get()` and `yield`, once something is queued. */
    method Take() returns (x: Item)
      requires Valid() && items != []
      modifies this`items, this`delivered
      ensures Valid() && x == old(items)[0] && items == old(items)[1..]
      ensures delivered == old(delivered) + (if x.Ev? then [x.event] else [])
    {
      x := items[0];
      assert delivered + Events(items) == delivered + (if x.Ev? then [x.event] else []) + Events(items[1..]);
      items := items[1..];
      if x.Ev? {
        delivered := delivered + [x.event];
      } else {
        assert delivered + [] == delivered;
      }
    }
  }

  /** Queues registered under different numbers are different objects. */
  ghost predicate Distinct(subs: seq<Subscription>) {
    forall i, j :: 0 <= i < j < |subs| ==> subs[i].subId != subs[j].subId
  }

  method OfferAll(subs: seq<Subscription>, event: Event)
    requires Distinct(subs) && forall s <- subs :: s.Valid() && s.Open()
    modifies subs
    ensures forall s <- subs :: s.Valid() && s.Open()
    ensures forall s <- subs ::
              && s.items == Push(old(s.items), Ev(event)) && s.emitted == old(s.emitted) + [event]
              && s.delivered == old(s.delivered) && s.dropped == (old(s.dropped) || |old(s.items)| == MAX_QUEUE)
  {
    for k := 0 to |subs|
      invariant forall s <- subs :: s.Valid() && s.Open()
      invariant forall i :: k <= i < |subs| ==> unchanged(subs[i])
      invariant forall i :: 0 <= i < k ==>
                  var s := subs[i];
                  && s.items == Push(old(s.items), Ev(event)) && s.emitted == old(s.emitted) + [event]
                  && s.delivered == old(s.delivered) && s.dropped == (old(s.dropped) || |old(s.items)| == MAX_QUEUE)
    {
      subs[k].Offer(event);
    }
  }

  method StopAll(subs: seq<Subscription>)
    requires Distinct(subs) && forall s <- subs :: s.Valid() && s.Open()
    modifies subs
    ensures forall s <- subs ::
              && s.Valid() && s.items == Push(old(s.items), Stop) && (Stop in s.items <==> |old(s.items)| < MAX_QUEUE)
              && s.emitted == old(s.emitted) && s.delivered == old(s.delivered) && s.dropped == old(s.dropped)
  {
    for k := 0 to |subs|
      invariant forall i :: k <= i < |subs| ==> unchanged(subs[i])
      invariant forall i :: 0 <= i < k ==>
                  var s := subs[i];
                  && s.Valid() && s.items == Push(old(s.items), Stop)
                  && (Stop in s.items <==> |old(s.items)| < MAX_QUEUE)
                  && s.emitted == old(s.emitted) && s.delivered == old(s.delivered) && s.dropped == old(s.dropped)
    {
      subs[k].OfferStop();
    }
  }

  function Without(subs: seq<Subscription>, subId: nat): (r: seq<Subscription>)
    ensures forall s <- r :: s in subs && s.subId != subId
    ensures forall s <- subs :: s.subId != subId ==> s in r
    ensures Distinct(subs) ==> Distinct(r)
  {
    if subs == [] then []
    else
      assert subs == [subs[0]] + subs[1..];
      if subs[0].subId == subId then Without(subs[1..], subId) else [subs[0]] + Without(subs[1..], subId)
  }

  class TelemetryBus {
    /** The nested dictionaries; an inner one is listed in insertion order, keyed by `subId`. */
    var subscribers: map<string, seq<Subscription>>

    ghost function Subs(agentId: string): seq<Subscription>
      reads this
    {
      if agentId in subscribers then subscribers[agentId] else []
    }

    ghost function Everyone(): set<Subscription>
      reads this
    {
      set a, s | a in subscribers && s in subscribers[a] :: s
    }

    /** No agent is left with an empty map, every queue is registered under its own agent and
        number, and every registered subscriber is consistent and still open. */
    ghost predicate Valid()
      reads this, Everyone()
    {
      forall a <- subscribers ::
        && subscribers[a] != [] && Distinct(subscribers[a])
        && forall s <- subscribers[a] :: s in Everyone() && s.agentId == a && s.Valid() && s.Open()
    }

    constructor ()
      ensures Valid() && subscribers == map[]
    {
      subscribers := map[];
    }

    method Emit(agentId: string, event: Event)
      requires Valid()
      modifies Subs(agentId)
      ensures Valid()
      ensures forall s <- Subs(agentId) ::
                && s.items == Push(old(s.items), Ev(event)) && s.emitted == old(s.emitted) + [event]
                && s.delivered == old(s.delivered) && s.dropped == (old(s.dropped) || |old(s.items)| == MAX_QUEUE)
    {
      if agentId !in subscribers { return; }
      OfferAll(subscribers[agentId], event);
    }

    /** Registering a new queue; the number is a fresh UUID. */
    method Subscribe(agentId: string, subId: nat) returns (s: Subscription)
      requires Valid()
      requires forall t <- Subs(agentId) :: t.subId != subId
      modifies this
      ensures Valid() && fresh(s) && s.agentId == agentId && s.subId == subId
      ensures s.items == [] && s.emitted == [] && s.delivered == [] && !s.dropped
      ensures subscribers == old(subscribers)[agentId := old(Subs(agentId)) + [s]]
    {
      s := new Subscription(agentId, subId);
      var subs := if agentId in subscribers then subscribers[agentId] else [];
      subscribers := subscribers[agentId := subs + [s]];
    }

    /** The generator's `finally`, whether it stopped by itself or was closed: it works also when
        the agent's map has been taken away meanwhile. */
    method Close(s: Subscription)
      requires Valid()
      modifies this
      ensures Valid()
      ensures Subs(s.agentId) == Without(old(Subs(s.agentId)), s.subId)
      ensures forall a :: a != s.agentId ==> Subs(a) == old(Subs(a))
    {
      var subs := if s.agentId in subscribers then subscribers[s.agentId] else [];
      subs := Without(subs, s.subId);
      if subs == [] {
        subscribers := subscribers - {s.agentId};
      } else {
        subscribers := subscribers[s.agentId := subs];
      }
    }

    /** One turn of a subscriber's generator: it yields the event, or ends on the message to stop.
        A registered subscriber is never told to stop. */
    method Consume(s: Subscription) returns (x: Item)
      requires Valid() && s.Valid() && s.items != []
      modifies this, s
      ensures Valid() && s.Valid() && x == old(s.items)[0] && s.items == old(s.items)[1..]
      ensures s.delivered == old(s.delivered) + (if x.Ev? then [x.event] else []) && s.emitted == old(s.emitted)
      ensures x.Ev? ==> subscribers == old(subscribers)
      ensures x.Stop? ==> s !in Subs(s.agentId) && s !in old(Subs(s.agentId))
    {
      x := s.Take();
      if x.Stop? { Close(s); }
    }

    /** Every subscriber of the agent is taken off; it will be told to stop exactly when its queue
        has room for the message. */
    method UnsubscribeAll(agentId: string)
      requires Valid()
      modifies this, Subs(agentId)
      ensures Valid() && subscribers == old(subscribers) - {agentId}
      ensures forall s <- old(Subs(agentId)) ::
                && s.Valid() && s.items == Push(old(s.items), Stop) && (Stop in s.items <==> |old(s.items)| < MAX_QUEUE)
                && s.emitted == old(s.emitted) && s.delivered == old(s.delivered) && s.dropped == old(s.dropped)
    {
      if agentId !in subscribers { return; }
      var subs := subscribers[agentId];
      subscribers := subscribers - {agentId};
      StopAll(subs);
    }

    method HasSubscribers(agentId: string) returns (b: bool)
      requires Valid()
      ensures b <==> agentId in subscribers
      ensures b <==> Subs(agentId) != []
    {
      b := agentId in subscribers && subscribers[agentId] != [];
    }
  }
}
