/** PluginEventBridge.kt: the channel for plugin-generated events (connectivity, pairing,
    reachability). One optional callback and one queue of at most 50 events. */
module PluginEventBridge {
  import opened Json
  import opened EventQueue

  /** `MAX_QUEUE`. */
  const MaxQueue: nat := 50

  /** The bridge's state: the callback, the queue and what callbacks have received. */
  datatype Bridge = Bridge(callback: Option<nat>, queue: seq<Payload>, delivered: seq<Delivery>)

  /** What the bridge keeps between calls: the bound, and no waiting event once a callback is
      registered. */
  predicate Valid(b: Bridge) {
    |b.queue| <= MaxQueue && (b.callback.Some? ==> b.queue == [])
  }

  /** `dispatch`: delivered at once with a callback, offered to the queue without one. */
  function DispatchSpec(b: Bridge, evt: Payload): Bridge {
    match b.callback
    case Some(cb) => b.(delivered := b.delivered + [Delivery(cb, evt)])
    case None => b.(queue := Offer(b.queue, evt, MaxQueue))
  }

  /** `register`: the queued events replayed in order to the new callback. */
  function RegisterSpec(b: Bridge, cb: nat): Bridge {
    Bridge(Some(cb), [], b.delivered + Deliveries(cb, b.queue))
  }

  function DispatchAll(b: Bridge, evts: seq<Payload>): Bridge
    decreases |evts|
  {
    if evts == [] then b else DispatchAll(DispatchSpec(b, evts[0]), evts[1..])
  }

  /** Both operations keep the bridge valid; a dispatch either delivers (queue unchanged)
      or queues (deliveries unchanged). */
  lemma OperationsKeepValid(b: Bridge, evt: Payload, cb: nat)
    requires Valid(b)
    ensures Valid(DispatchSpec(b, evt)) && Valid(RegisterSpec(b, cb))
    ensures b.callback.Some? ==> DispatchSpec(b, evt).queue == b.queue
                                 && DispatchSpec(b, evt).delivered == b.delivered + [Delivery(b.callback.value, evt)]
    ensures b.callback.None? ==> DispatchSpec(b, evt).delivered == b.delivered
                                 && DispatchSpec(b, evt).queue == Offer(b.queue, evt, MaxQueue)
  {
  }

  /** Without a callback nothing is delivered and the queue keeps the oldest events. */
  lemma {:induction false} UnregisteredQueues(b: Bridge, evts: seq<Payload>)
    requires Valid(b) && b.callback.None?
    ensures DispatchAll(b, evts) == b.(queue := OfferAll(b.queue, evts, MaxQueue))
    decreases |evts|
  {
    if evts != [] {
      var b1 := DispatchSpec(b, evts[0]);
      assert |b1.queue| <= MaxQueue;
      UnregisteredQueues(b1, evts[1..]);
    }
  }

  /** Once a callback is registered every later event is delivered to it, in order, and
      none is queued. */
  lemma {:induction false} RegisteredNeverQueues(b: Bridge, evts: seq<Payload>)
    requires b.callback.Some?
    ensures DispatchAll(b, evts) == b.(delivered := b.delivered + Deliveries(b.callback.value, evts))
    decreases |evts|
  {
    var cb := b.callback.value;
    if evts == [] {
      assert b.delivered + Deliveries(cb, evts) == b.delivered;
    } else {
      var b1 := DispatchSpec(b, evts[0]);
      RegisteredNeverQueues(b1, evts[1..]);
      assert [Delivery(cb, evts[0])] + Deliveries(cb, evts[1..]) == Deliveries(cb, evts);
    }
  }

  /** The whole life cycle: events dispatched before `register` reach the callback in order,
      the first 50 of them; events dispatched after it follow them directly. */
  lemma EarlyEventsReplayed(cb: nat, early: seq<Payload>, late: seq<Payload>)
    ensures var b := DispatchAll(RegisterSpec(DispatchAll(Bridge(None, [], []), early), cb), late);
            b.queue == [] && b.delivered == Deliveries(cb, early[..Min(|early|, MaxQueue)]) + Deliveries(cb, late)
  {
    var b0 := Bridge(None, [], []);
    UnregisteredQueues(b0, early);
    OfferAllKeepsOldest([], early, MaxQueue);
    assert [] + early == early;
    var b1 := RegisterSpec(DispatchAll(b0, early), cb);
    RegisteredNeverQueues(b1, late);
  }

  /** The bridge object (a Kotlin `object`, a single instance). */
  class EventBridge {
    var callback: Option<nat>
    var queue: seq<Payload>
    var delivered: seq<Delivery>

    function State(): Bridge
      reads this
    {
      Bridge(callback, queue, delivered)
    }

    constructor ()
      ensures State() == Bridge(None, [], [])
    {
      callback := None;
      queue := [];
      delivered := [];
    }

    /** `register(cb)`. */
    method Register(cb: nat)
      modifies this
      ensures State() == RegisterSpec(old(State()), cb)
    {
      callback := Some(cb);
      if |queue| > 0 {
        var copy := queue;
        queue := [];
        var i := 0;
        while i < |copy|
          invariant 0 <= i <= |copy|
          invariant callback == Some(cb) && queue == []
          invariant delivered == old(delivered) + Deliveries(cb, copy[..i])
        {
          DeliveriesAppend(cb, copy[..i], copy[i]);
          assert copy[..i + 1] == copy[..i] + [copy[i]];
          delivered := delivered + [Delivery(cb, copy[i])];
          i := i + 1;
        }
        assert copy[..i] == copy;
      } else {
        assert delivered + Deliveries(cb, queue) == delivered;
      }
    }

    /** `dispatch(evt)`. */
    method Dispatch(evt: Payload)
      modifies this
      ensures State() == DispatchSpec(old(State()), evt)
    {
      if callback.Some? {
        delivered := delivered + [Delivery(callback.value, evt)];
      } else {
        if |queue| < MaxQueue {
          queue := queue + [evt];
        }
      }
    }
  }
}
