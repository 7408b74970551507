/** ListenerBridge.kt: forwards JSON events from the native service to JS on two channels,
    state events and generic messages, each with its own optional callback and its own
    queue of at most 20 payloads. */
module ListenerBridge {
  import opened Json
  import opened EventQueue
  import AndroidModels
  import AndroidSync

  /** `MAX_QUEUE_SIZE`. */
  const MaxQueueSize: nat := 20

  const KeyEvent := "event"
  const KeyType := "type"
  const KeyState := "state"
  const EventStateChanged := "stateChanged"

  datatype Bridge = Bridge(
    messageCallback: Option<nat>,
    stateCallback: Option<nat>,
    messageQueue: seq<Payload>,
    stateQueue: seq<Payload>,
    delivered: seq<Delivery>)

  /** Each queue within its bound, and empty while its channel has a callback. */
  predicate Valid(b: Bridge) {
    |b.messageQueue| <= MaxQueueSize && |b.stateQueue| <= MaxQueueSize
    && (b.messageCallback.Some? ==> b.messageQueue == [])
    && (b.stateCallback.Some? ==> b.stateQueue == [])
  }

  /** The routing test of `dispatch`: `optString("event", "") == "stateChanged"`, or no `type`
      key and a `state` key. `optString` yields the text of a non-string member, which for a
      number, boolean, array or object is never `stateChanged`, and "" for a JSON null, so
      only the string itself matches. */
  predicate IsStateEvent(data: Payload) {
    (KeyEvent in data && data[KeyEvent] == JStr(EventStateChanged))
    || (KeyType !in data && KeyState in data)
  }

  /** `dispatch`. */
  function DispatchSpec(b: Bridge, data: Payload): Bridge {
    if IsStateEvent(data) then
      match b.stateCallback
      case Some(cb) => b.(delivered := b.delivered + [Delivery(cb, data)])
      case None => b.(stateQueue := Offer(b.stateQueue, data, MaxQueueSize))
    else
      match b.messageCallback
      case Some(cb) => b.(delivered := b.delivered + [Delivery(cb, data)])
      case None => b.(messageQueue := Offer(b.messageQueue, data, MaxQueueSize))
  }

  /** `registerMessageListener`. */
  function RegisterMessageSpec(b: Bridge, cb: nat): Bridge {
    b.(messageCallback := Some(cb), messageQueue := [], delivered := b.delivered + Deliveries(cb, b.messageQueue))
  }

  /** `registerStateListener`. */
  function RegisterStateSpec(b: Bridge, cb: nat): Bridge {
    b.(stateCallback := Some(cb), stateQueue := [], delivered := b.delivered + Deliveries(cb, b.stateQueue))
  }

  /** `unregisterStateListener`. */
  function UnregisterStateSpec(b: Bridge): Bridge {
    b.(stateCallback := None, stateQueue := [])
  }

  function DispatchAll(b: Bridge, ds: seq<Payload>): Bridge
    decreases |ds|
  {
    if ds == [] then b else DispatchAll(DispatchSpec(b, ds[0]), ds[1..])
  }

  /** The payloads of `ds` routed to the state channel, in order. */
  function StateEvents(ds: seq<Payload>): (r: seq<Payload>)
    ensures forall i :: 0 <= i < |r| ==> IsStateEvent(r[i])
    decreases |ds|
  {
    if ds == [] then [] else (if IsStateEvent(ds[0]) then [ds[0]] else []) + StateEvents(ds[1..])
  }

  /** The payloads of `ds` routed to the message channel, in order. */
  function Messages(ds: seq<Payload>): (r: seq<Payload>)
    ensures forall i :: 0 <= i < |r| ==> !IsStateEvent(r[i])
    decreases |ds|
  {
    if ds == [] then [] else (if IsStateEvent(ds[0]) then [] else [ds[0]]) + Messages(ds[1..])
  }

  /** The event `dispatchState` of the sync layer always takes the state channel; a message
      taken from the data layer (a `type` key, no `stateChanged` event) always the other. */
  lemma Classification(es: seq<AndroidModels.Entry>, data: Payload)
    ensures IsStateEvent(AndroidSync.NoticeEvent(es).fields)
    ensures KeyType in data && (KeyEvent in data ==> data[KeyEvent] != JStr(EventStateChanged)) ==> !IsStateEvent(data)
  {
  }

  /** Every operation keeps the bridge valid. A dispatch changes one channel only, and
      either delivers (queues unchanged) or queues (deliveries unchanged). */
  lemma OperationsKeepValid(b: Bridge, data: Payload, cb: nat)
    requires Valid(b)
    ensures Valid(DispatchSpec(b, data)) && Valid(RegisterMessageSpec(b, cb))
    ensures Valid(RegisterStateSpec(b, cb)) && Valid(UnregisterStateSpec(b))
    ensures var b' := DispatchSpec(b, data);
            if IsStateEvent(data) then
              b'.messageQueue == b.messageQueue
              && (if b.stateCallback.Some? then b'.stateQueue == b.stateQueue && b'.delivered == b.delivered + [Delivery(b.stateCallback.value, data)]
                  else b'.delivered == b.delivered && b'.stateQueue == Offer(b.stateQueue, data, MaxQueueSize))
            else
              b'.stateQueue == b.stateQueue
              && (if b.messageCallback.Some? then b'.messageQueue == b.messageQueue && b'.delivered == b.delivered + [Delivery(b.messageCallback.value, data)]
                  else b'.delivered == b.delivered && b'.messageQueue == Offer(b.messageQueue, data, MaxQueueSize))
  {
  }

  /** With no callback on either channel nothing is delivered, and each queue keeps the
      oldest payloads of its own channel. */
  lemma {:induction false} UnregisteredQueues(b: Bridge, ds: seq<Payload>)
    requires Valid(b) && b.messageCallback.None? && b.stateCallback.None?
    ensures DispatchAll(b, ds) == b.(messageQueue := OfferAll(b.messageQueue, Messages(ds), MaxQueueSize),
                                     stateQueue := OfferAll(b.stateQueue, StateEvents(ds), MaxQueueSize))
    decreases |ds|
  {
    if ds != [] {
      var b1 := DispatchSpec(b, ds[0]);
      UnregisteredQueues(b1, ds[1..]);
      if IsStateEvent(ds[0]) {
        var s := StateEvents(ds);
        assert s == [ds[0]] + StateEvents(ds[1..]);
        assert s[0] == ds[0] && s[1..] == StateEvents(ds[1..]);
        assert Messages(ds) == Messages(ds[1..]);
        assert OfferAll(b.stateQueue, s, MaxQueueSize) == OfferAll(b1.stateQueue, StateEvents(ds[1..]), MaxQueueSize);
      } else {
        var m := Messages(ds);
        assert m == [ds[0]] + Messages(ds[1..]);
        assert m[0] == ds[0] && m[1..] == Messages(ds[1..]);
        assert StateEvents(ds) == StateEvents(ds[1..]);
        assert OfferAll(b.messageQueue, m, MaxQueueSize) == OfferAll(b1.messageQueue, Messages(ds[1..]), MaxQueueSize);
      }
    }
  }

  /** State events dispatched before any listener registers reach the first state listener
      in order, the first 20 of them, while the messages wait on their own queue. */
  lemma EarlyStateEventsReplayed(cb: nat, early: seq<Payload>)
    ensures var b := RegisterStateSpec(DispatchAll(Bridge(None, None, [], [], []), early), cb);
            var s := StateEvents(early);
            var m := Messages(early);
            b.delivered == Deliveries(cb, s[..Min(|s|, MaxQueueSize)])
            && b.stateQueue == [] && b.messageQueue == m[..Min(|m|, MaxQueueSize)]
  {
    UnregisteredQueues(Bridge(None, None, [], [], []), early);
    OfferAllKeepsOldest([], StateEvents(early), MaxQueueSize);
    OfferAllKeepsOldest([], Messages(early), MaxQueueSize);
    assert [] + StateEvents(early) == StateEvents(early);
    assert [] + Messages(early) == Messages(early);
  }

  /** After `unregisterStateListener` state events queue again from empty, and the message
      side is as it was. */
  lemma UnregisterQueuesStateEvents(b: Bridge, data: Payload)
    requires IsStateEvent(data)
    ensures var b' := DispatchSpec(UnregisterStateSpec(b), data);
            b'.stateQueue == [data] && b'.stateCallback.None? && b'.delivered == b.delivered
            && b'.messageCallback == b.messageCallback && b'.messageQueue == b.messageQueue
  {
  }

  /** The bridge object (a Kotlin `object`, a single instance). */
  class EventListenerBridge {
    var messageCallback: Option<nat>
    var stateCallback: Option<nat>
    var messageQueue: seq<Payload>
    var stateQueue: seq<Payload>
    var delivered: seq<Delivery>

    function State(): Bridge
      reads this
    {
      Bridge(messageCallback, stateCallback, messageQueue, stateQueue, delivered)
    }

    constructor ()
      ensures State() == Bridge(None, None, [], [], [])
    {
      messageCallback, stateCallback := None, None;
      messageQueue, stateQueue := [], [];
      delivered := [];
    }

    /** The `queueCopy.forEach` replay shared in shape by both `register` methods. */
    method Replay(cb: nat, copy: seq<Payload>)
      modifies this
      ensures State() == old(State()).(delivered := old(delivered) + Deliveries(cb, copy))
    {
      var i := 0;
      while i < |copy|
        invariant 0 <= i <= |copy|
        invariant State() == old(State()).(delivered := old(delivered) + Deliveries(cb, copy[..i]))
      {
        DeliveriesAppend(cb, copy[..i], copy[i]);
        assert copy[..i + 1] == copy[..i] + [copy[i]];
        delivered := delivered + [Delivery(cb, copy[i])];
        i := i + 1;
      }
      assert copy[..i] == copy;
    }

    /** `registerMessageListener(cb)`. */
    method RegisterMessageListener(cb: nat)
      modifies this
      ensures State() == RegisterMessageSpec(old(State()), cb)
    {
      messageCallback := Some(cb);
      if |messageQueue| > 0 {
        var copy := messageQueue;
        messageQueue := [];
        Replay(cb, copy);
      } else {
        assert delivered + Deliveries(cb, messageQueue) == delivered;
      }
    }

    /** `registerStateListener(cb)`. */
    method RegisterStateListener(cb: nat)
      modifies this
      ensures State() == RegisterStateSpec(old(State()), cb)
    {
      stateCallback := Some(cb);
      if |stateQueue| > 0 {
        var copy := stateQueue;
        stateQueue := [];
        Replay(cb, copy);
      } else {
        assert delivered + Deliveries(cb, stateQueue) == delivered;
      }
    }

    /** `unregisterStateListener()`. */
    method UnregisterStateListener()
      modifies this
      ensures State() == UnregisterStateSpec(old(State()))
    {
      stateCallback := None;
      stateQueue := [];
    }

    /** `dispatch(data)`. */
    method Dispatch(data: Payload)
      modifies this
      ensures State() == DispatchSpec(old(State()), data)
    {
      var eventIsStateChanged := KeyEvent in data && data[KeyEvent] == JStr(EventStateChanged);
      var hasType := KeyType in data;
      var hasState := KeyState in data;
      if eventIsStateChanged || (!hasType && hasState) {
        if stateCallback.Some? {
          delivered := delivered + [Delivery(stateCallback.value, data)];
        } else if |stateQueue| < MaxQueueSize {
          stateQueue := stateQueue + [data];
        }
      } else {
        if messageCallback.Some? {
          delivered := delivered + [Delivery(messageCallback.value, data)];
        } else if |messageQueue| < MaxQueueSize {
          messageQueue := messageQueue + [data];
        }
      }
    }
  }
}
