/** The bounded FIFO queue both Android bridges keep for payloads that arrive before a JS
    callback is registered (ListenerBridge.kt, PluginEventBridge.kt). A callback is opaque
    code; it is modelled by an identity, and what the callbacks receive by a delivery log. */
module EventQueue {
  import opened Json

  /** A `JSONObject` handed to a bridge. */
  type Payload = map<string, Json>

  /** One invocation `cb(payload)` of the callback with identity `callback`. */
  datatype Delivery = Delivery(callback: nat, payload: Payload)

  function Min(a: int, b: int): int {
    if a < b then a else b
  }

  /** The queue after offering `p` with no callback: appended while the size is below
      `limit`, dropped otherwise. */
  function Offer(q: seq<Payload>, p: Payload, limit: nat): seq<Payload> {
    if |q| < limit then q + [p] else q
  }

  /** Offering every payload of `ps` in order. */
  function OfferAll(q: seq<Payload>, ps: seq<Payload>, limit: nat): seq<Payload>
    decreases |ps|
  {
    if ps == [] then q else OfferAll(Offer(q, ps[0], limit), ps[1..], limit)
  }

  /** The `forEach` replay: the callback `cb` receives every payload of `ps`, in order. */
  function Deliveries(cb: nat, ps: seq<Payload>): (r: seq<Delivery>)
    ensures |r| == |ps|
    ensures forall i :: 0 <= i < |ps| ==> r[i] == Delivery(cb, ps[i])
  {
    seq(|ps|, i requires 0 <= i < |ps| => Delivery(cb, ps[i]))
  }

  lemma DeliveriesAppend(cb: nat, ps: seq<Payload>, p: Payload)
    ensures Deliveries(cb, ps + [p]) == Deliveries(cb, ps) + [Delivery(cb, p)]
  {
  }

  /** The drop policy keeps the OLDEST payloads: offering `ps` to a queue within its limit
      yields the first `limit` payloads of the queue followed by `ps`, so the queue never
      exceeds the limit and a payload is lost only once `limit` are waiting. */
  lemma {:induction false} OfferAllKeepsOldest(q: seq<Payload>, ps: seq<Payload>, limit: nat)
    requires |q| <= limit
    ensures OfferAll(q, ps, limit) == (q + ps)[..Min(|q + ps|, limit)]
    ensures |OfferAll(q, ps, limit)| <= limit
    decreases |ps|
  {
    if ps != [] {
      var q1 := Offer(q, ps[0], limit);
      OfferAllKeepsOldest(q1, ps[1..], limit);
      if |q| < limit {
        assert q1 + ps[1..] == q + ps;
      } else {
        assert |q| == limit;
        assert (q + ps)[..limit] == q;
        assert (q + ps[1..])[..limit] == q;
      }
    } else {
      assert q + ps == q;
    }
  }
}
