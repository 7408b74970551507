/** The Android sync layer (StateSync.kt): local writes that publish operations, the
    snapshot publication, the routing of inbound Data Layer items, and the debounced,
    batched acknowledgements. The Data Layer is an outbox of published items, the JS
    notifications are a log holding, for each `stateChanged` event, the entries it is
    materialised from, and the debounce timer is an explicit flush step; a flag records
    whether a flush is scheduled. */
module AndroidSync {
  import opened Json
  import opened Text
  import opened AndroidModels
  import opened AndroidStore

  // Path segments and payload members (StateSyncSpec).
  const StateSegment := "/state"
  const OpSegment := "/op"
  const SnapshotSegment := "/snapshot"
  const AckSegment := "/ack"
  const RequestSegment := "/request/"
  const KeyFromReplica := "fromReplica"
  const KeyEpoch := "epoch"
  const KeyEntries := "entries"
  const KeySeen := "seen"
  const KeyEvent := "event"
  const KeyState := "state"
  const RequestSnapshotType := "requestSnapshot"
  const EventStateChanged := "stateChanged"

  /** A Data Layer item published with `putDataItem`: its path and its JSON payload. */
  datatype Item = Item(path: string, payload: Json)

  // ---------------------------------------------------------------------------
  // Pending acknowledgements: a LinkedHashMap from "/"-prefixed path to version, kept as
  // the map plus its keys in insertion order.

  datatype Pending = Pending(acks: map<string, Version>, order: seq<string>)

  ghost predicate PendingValid(p: Pending) {
    && (forall k :: k in p.acks <==> k in p.order)
    && (forall i, j :: 0 <= i < j < |p.order| ==> p.order[i] != p.order[j])
    && (forall k :: k in p.acks ==> |k| > 0 && k[0] == '/')
  }

  const NoPending := Pending(map[], [])

  /** `enqueueAck` on the table: the key is the path with a leading '/', and the stored
      version is replaced only by a strictly newer one. */
  function Enqueue(p: Pending, e: Entry): (r: Pending)
    requires PendingValid(p)
    ensures PendingValid(r)
  {
    var key := SerializedPath(e.path);
    if key !in p.acks then
      Pending(p.acks[key := e.version], p.order + [key])
    else if Newer(e.version, p.acks[key]) then Pending(p.acks[key := e.version], p.order)
    else p
  }

  /** One enqueue: the key is added if new (at the end of the order), its version becomes at
      least both the one pending before and the enqueued one and is one of the two, and every
      other key keeps its version. */
  lemma EnqueueFacts(p: Pending, e: Entry)
    requires PendingValid(p)
    ensures var r := Enqueue(p, e);
            var key := SerializedPath(e.path);
            && r.acks.Keys == p.acks.Keys + {key}
            && CompareTo(r.acks[key], e.version) >= 0
            && (key in p.acks ==> CompareTo(r.acks[key], p.acks[key]) >= 0)
            && (r.acks[key] == e.version || (key in p.acks && r.acks[key] == p.acks[key]))
            && (forall k :: k in p.acks && k != key ==> r.acks[k] == p.acks[k])
            && r.order == (if key in p.acks then p.order else p.order + [key])
  {
    var key := SerializedPath(e.path);
    if key in p.acks { CompareToAntisymmetric(e.version, p.acks[key]); }
  }

  /** Enqueueing a sequence of entries, first to last. */
  function EnqueueAll(p: Pending, es: seq<Entry>): (r: Pending)
    requires PendingValid(p)
    ensures PendingValid(r)
    decreases |es|
  {
    if |es| == 0 then p else EnqueueAll(Enqueue(p, es[0]), es[1..])
  }

  lemma AtLeastTransitive(a: Version, b: Version, c: Version)
    requires CompareTo(a, b) >= 0 && CompareTo(b, c) >= 0
    ensures CompareTo(a, c) >= 0
  {
    if CompareTo(a, b) > 0 && CompareTo(b, c) > 0 { CompareToTransitive(a, b, c); }
  }

  /** The pending version of a path only grows: after any sequence of enqueues it is at least
      what was pending before and at least every enqueued version for that path, and it is one
      of those versions. */
  lemma {:induction false} EnqueueAllKeepsMaximum(p: Pending, es: seq<Entry>, key: string)
    requires PendingValid(p)
    ensures var r := EnqueueAll(p, es);
            && (key in p.acks ==> key in r.acks && CompareTo(r.acks[key], p.acks[key]) >= 0)
            && (forall e :: e in es && SerializedPath(e.path) == key ==>
                  key in r.acks && CompareTo(r.acks[key], e.version) >= 0)
            && (key in r.acks ==>
                  || (key in p.acks && r.acks[key] == p.acks[key])
                  || exists e :: e in es && SerializedPath(e.path) == key && r.acks[key] == e.version)
    decreases |es|
  {
    if |es| > 0 {
      var p1 := Enqueue(p, es[0]);
      EnqueueFacts(p, es[0]);
      EnqueueAllKeepsMaximum(p1, es[1..], key);
      var r := EnqueueAll(p, es);
      assert r == EnqueueAll(p1, es[1..]);
      if key in p.acks { AtLeastTransitive(r.acks[key], p1.acks[key], p.acks[key]); }
      if SerializedPath(es[0].path) == key { AtLeastTransitive(r.acks[key], p1.acks[key], es[0].version); }
      forall e | e in es && SerializedPath(e.path) == key
        ensures key in r.acks && CompareTo(r.acks[key], e.version) >= 0
      {
        if e != es[0] { assert e in es[1..]; }
      }
      if key in r.acks && !(key in p.acks && r.acks[key] == p.acks[key]) {
        if key in p1.acks && r.acks[key] == p1.acks[key] {
          assert es[0] in es;
        } else {
          var e :| e in es[1..] && SerializedPath(e.path) == key && r.acks[key] == e.version;
          assert e in es;
        }
      }
    }
  }

  // ---------------------------------------------------------------------------
  // The state the sync layer acts on: the store's preferences, the pending acknowledgements,
  // whether a flush is scheduled, the published items and the dispatched JS events.

  datatype World = World(storedId: Option<string>, epoch: Option<int>, entries: seq<Entry>, peers: PeerTable,
                         pending: Pending, flushScheduled: bool, outbox: seq<Item>, dispatched: seq<seq<Entry>>)

  ghost predicate WorldValid(w: World) {
    DistinctPaths(w.entries) && PendingValid(w.pending)
  }

  /** `store.getReplicaId()`: a stored id other than "phone" clears entries and acknowledgements. */
  function Migrate(w: World): (r: World)
    ensures WorldValid(w) ==> WorldValid(r)
    ensures r.storedId == Some(PhoneReplicaId)
    ensures r.pending == w.pending && r.flushScheduled == w.flushScheduled
    ensures r.outbox == w.outbox && r.dispatched == w.dispatched && r.epoch == w.epoch
  {
    if w.storedId.Some? && w.storedId.value != PhoneReplicaId then
      w.(storedId := Some(PhoneReplicaId), entries := [], peers := map[])
    else w.(storedId := Some(PhoneReplicaId))
  }

  /** Once the id is "phone", reading it again changes nothing. */
  lemma MigrateIdempotent(w: World)
    ensures Migrate(Migrate(w)) == Migrate(w)
    ensures w.storedId == Some(PhoneReplicaId) ==> Migrate(w) == w
  {
  }

  /** The `stateChanged` event carrying the materialised state. */
  function StateEvent(root: map<string, Json>): Json {
    JObj(map[KeyEvent := JStr(EventStateChanged), KeyState := JObj(root)])
  }

  /** The payload `dispatchState` hands to the listener bridge for a logged set of entries. */
  function NoticeEvent(es: seq<Entry>): Json {
    StateEvent(MaterializeSpec(es))
  }

  /** `dispatchState`: one `stateChanged` event for the store as it is now. */
  function DispatchSpec(w: World): World {
    w.(dispatched := w.dispatched + [w.entries])
  }

  /** The item `sendOp` publishes. */
  function OpItem(base: string, op: Op): Item {
    Item(base + OpSegment + "/" + op.opId, OpToJson(op))
  }

  /** `setPath` (`tombstone == false`) and `removePath` (`tombstone == true`, no value): the
      path loses one leading '/', the version is the clock reading `now` with the replica id,
      and an operation is published and the state dispatched iff the store changed. The
      operation carries the path as the caller gave it. */
  function LocalWriteSpec(base: string, w: World, path: string, tombstone: bool, value: Option<Json>,
                          now: int, opId: string, opTs: int): (r: World)
    requires WorldValid(w)
    ensures WorldValid(r)
  {
    var m := Migrate(w);
    var v := Version(now, PhoneReplicaId);
    var a := ApplySpec(m.entries, Entry(StripOneSlash(path), tombstone, v, value));
    var m1 := m.(entries := a.entries);
    if a.changed then
      DispatchSpec(m1.(outbox := m1.outbox + [OpItem(base, Op(if tombstone then OpDel else OpPut, path, v, value, opId, opTs))]))
    else m1
  }

  /** A local write publishes exactly one operation and dispatches exactly once when it wins,
      and publishes and dispatches nothing when it loses; acknowledgements are untouched. The
      winning entry ends up under the path with up to two leading '/' removed: `setPath` strips
      one and `applyEntry` strips another. */
  lemma LocalWriteSendsIffChanged(base: string, w: World, path: string, tombstone: bool, value: Option<Json>,
                                  now: int, opId: string, opTs: int)
    requires WorldValid(w)
    ensures var r := LocalWriteSpec(base, w, path, tombstone, value, now, opId, opTs);
            var v := Version(now, PhoneReplicaId);
            var e := Entry(StripOneSlash(path), tombstone, v, value);
            var changed := ApplySpec(Migrate(w).entries, e).changed;
            && r.pending == w.pending && r.flushScheduled == w.flushScheduled
            && (changed ==> && r.outbox == w.outbox + [OpItem(base, Op(if tombstone then OpDel else OpPut, path, v, value, opId, opTs))]
                            && r.dispatched == w.dispatched + [r.entries]
                            && var key := StripOneSlash(StripOneSlash(path));
                               Lookup(r.entries, key) == Some(e.(path := key)))
            && (!changed ==> r.outbox == w.outbox && r.dispatched == w.dispatched && r.entries == Migrate(w).entries)
  {
    var m := Migrate(w);
    var e := Entry(StripOneSlash(path), tombstone, Version(now, PhoneReplicaId), value);
    var a := ApplySpec(m.entries, e);
  }

  /** Writing the same path twice at the same clock reading: the second write is quiet. */
  lemma RepeatedWriteIsQuiet(base: string, w: World, path: string, tombstone: bool, value: Option<Json>,
                             now: int, opId: string, opTs: int, opId2: string, opTs2: int)
    requires WorldValid(w)
    ensures var once := LocalWriteSpec(base, w, path, tombstone, value, now, opId, opTs);
            var twice := LocalWriteSpec(base, once, path, tombstone, value, now, opId2, opTs2);
            twice.outbox == once.outbox && twice.dispatched == once.dispatched && twice.entries == once.entries
  {
    var m := Migrate(w);
    var e := Entry(StripOneSlash(path), tombstone, Version(now, PhoneReplicaId), value);
    var once := LocalWriteSpec(base, w, path, tombstone, value, now, opId, opTs);
    assert Migrate(once) == once;
    assert once.entries == ApplySpec(m.entries, e).entries;
    ApplyIdempotent(m.entries, e);
  }

  // ---------------------------------------------------------------------------
  // Publishing the snapshot.

  /** The `entries` array of a snapshot: every entry, tombstones included, in store order. */
  function SnapshotArray(es: seq<Entry>): (items: seq<Json>)
    ensures |items| == |es|
  {
    seq(|es|, i requires 0 <= i < |es| => EntryToJson(es[i]))
  }

  function SnapshotPayload(id: string, epoch: int, es: seq<Entry>): Json {
    JObj(map[KeyFromReplica := JStr(id), KeyEpoch := JNum(epoch), KeyEntries := JArr(SnapshotArray(es))])
  }

  /** `sendSnapshot`: the entries are read before the replica id, then the epoch (1 when none
      is stored), and one item is published under base + "/snapshot". */
  function SendSnapshotSpec(base: string, w: World): (r: World)
    requires WorldValid(w)
    ensures WorldValid(r)
  {
    var m := Migrate(w);
    m.(outbox := m.outbox + [Item(base + SnapshotSegment, SnapshotPayload(PhoneReplicaId, m.epoch.GetOr(1), w.entries))])
  }

  /** How an entry arrives at the receiver: one leading '/' less than on the wire, and no value
      when it is a tombstone. */
  function Received(e: Entry): Entry {
    Entry(StripOneSlash(SerializedPath(e.path)), e.tombstone, e.version, if e.tombstone then None else e.value)
  }

  /** A snapshot carries every entry, tombstones included: each element decodes to the entry
      with its tombstone flag and version, and a stored path (no leading '/') comes back as is. */
  lemma SnapshotIncludesTombstones(es: seq<Entry>, i: int)
    requires 0 <= i < |es|
    ensures |SnapshotArray(es)| == |es|
    ensures EntryFromJson(SnapshotArray(es)[i]) == Ok(Received(es[i]))
    ensures Received(es[i]).tombstone == es[i].tombstone && Received(es[i]).version == es[i].version
    ensures (|es[i].path| == 0 || es[i].path[0] != '/') ==> Received(es[i]).path == es[i].path
  {
    if |es[i].path| == 0 || es[i].path[0] != '/' {
      assert StripOneSlash("/" + es[i].path) == es[i].path;
    }
  }

  // ---------------------------------------------------------------------------
  // Inbound operations.

  /** The entry an inbound operation becomes: a "put" is a live entry with the operation's
      value, anything else a tombstone without value; the path loses one leading '/'. */
  function OpEntry(op: Op): Entry {
    var normPath := StripOneSlash(op.path);
    if op.kind == OpPut then Entry(normPath, false, op.version, op.value)
    else Entry(normPath, true, op.version, None)
  }

  /** `enqueueAck`, with the flush (re)scheduled. */
  function EnqueueAckSpec(w: World, e: Entry): (r: World)
    requires WorldValid(w)
    ensures WorldValid(r)
  {
    w.(pending := Enqueue(w.pending, e), flushScheduled := true)
  }

  /** The op branch of `handleDataItem`. A payload that does not decode changes nothing. The
      decoded `ts` member is not used here, so the clock reading that defaults it is irrelevant
      and 0 stands for it. */
  function OpSpec(w: World, payload: Json): (r: World)
    requires WorldValid(w)
    ensures WorldValid(r)
  {
    match OpFromJson(payload, 0)
    case Err(_) => w
    case Ok(op) =>
      var e := OpEntry(op);
      var a := ApplySpec(w.entries, e);
      var w1 := w.(entries := a.entries);
      EnqueueAckSpec(if a.changed then DispatchSpec(w1) else w1, e)
  }

  /** An inbound operation is acknowledged even when it loses; it dispatches iff it changed
      the store, and it publishes nothing. */
  lemma OpAlwaysAcked(w: World, payload: Json)
    requires WorldValid(w)
    requires OpFromJson(payload, 0).Ok?
    ensures var e := OpEntry(OpFromJson(payload, 0).value);
            var a := ApplySpec(w.entries, e);
            var r := OpSpec(w, payload);
            && r.pending == Enqueue(w.pending, e) && r.flushScheduled
            && r.entries == a.entries && r.outbox == w.outbox
            && r.dispatched == w.dispatched + (if a.changed then [a.entries] else [])
  {
    var e := OpEntry(OpFromJson(payload, 0).value);
    ApplyThenAck(w, e);
  }

  /** Applying an entry and then acknowledging it, as the op branch does once it has decoded. */
  lemma ApplyThenAck(w: World, e: Entry)
    requires WorldValid(w)
    ensures var a := ApplySpec(w.entries, e);
            var w1 := w.(entries := a.entries);
            var r := EnqueueAckSpec(if a.changed then DispatchSpec(w1) else w1, e);
            && r.pending == Enqueue(w.pending, e) && r.flushScheduled
            && r.entries == a.entries && r.outbox == w.outbox
            && r.dispatched == w.dispatched + (if a.changed then [a.entries] else [])
  {
    assert w.dispatched + [] == w.dispatched;
  }

  /** An operation published by a local write and decoded by the receiver becomes the entry the
      writer stored: same stripped path, tombstone flag, version and value. */
  lemma RemoteOpMatchesLocal(path: string, tombstone: bool, value: Option<Json>, v: Version, opId: string, opTs: int, now: int)
    requires tombstone ==> value.None?
    ensures var op := Op(if tombstone then OpDel else OpPut, path, v, value, opId, opTs);
            OpFromJson(OpToJson(op), now).Ok? &&
            OpEntry(OpFromJson(OpToJson(op), now).value) == Entry(StripOneSlash(path), tombstone, v, value)
  {
  }

  // ---------------------------------------------------------------------------
  // Inbound snapshots.

  /** Progress through an array of entries: the world so far, whether any entry changed the
      store, and whether the array was read to its end (a malformed element aborts the rest). */
  datatype Progress = Progress(w: World, changed: bool, completed: bool)

  /** The snapshot loop of `handleDataItem`: every entry is applied and acknowledged. */
  function SnapshotSteps(w: World, items: seq<Json>): (p: Progress)
    requires WorldValid(w)
    ensures WorldValid(p.w)
    ensures p.w.outbox == w.outbox && p.w.dispatched == w.dispatched
    ensures p.w.storedId == w.storedId && p.w.epoch == w.epoch && p.w.peers == w.peers
    decreases |items|
  {
    if |items| == 0 then Progress(w, false, true)
    else match EntryFromJson(items[0])
      case Err(_) => Progress(w, false, false)
      case Ok(e) =>
        var a := ApplySpec(w.entries, e);
        var rest := SnapshotSteps(EnqueueAckSpec(w.(entries := a.entries), e), items[1..]);
        Progress(rest.w, a.changed || rest.changed, rest.completed)
  }

  /** The snapshot branch: dispatch once at the end iff some entry changed the store and no
      element failed; a payload without an `entries` array changes nothing. */
  function SnapshotSpec(w: World, payload: Json): (r: World)
    requires WorldValid(w)
    ensures WorldValid(r)
  {
    match Field(payload, KeyEntries)
    case Some(JArr(items)) =>
      var p := SnapshotSteps(w, items);
      if p.completed && p.changed then DispatchSpec(p.w) else p.w
    case _ => w
  }

  /** An inbound snapshot dispatches at most once and publishes nothing. */
  lemma SnapshotDispatchesAtMostOnce(w: World, payload: Json)
    requires WorldValid(w)
    ensures var r := SnapshotSpec(w, payload);
            && r.outbox == w.outbox
            && (r.dispatched == w.dispatched ||
                r.dispatched == w.dispatched + [r.entries])
  {
  }

  /** A snapshot of well-formed entries is read to its end and every entry in it is acknowledged
      in order. */
  lemma {:induction false} SnapshotStepsAckEveryEntry(w: World, es: seq<Entry>)
    requires WorldValid(w)
    ensures var p := SnapshotSteps(w, SnapshotArray(es));
            p.completed && p.w.pending == EnqueueAll(w.pending, ReceivedAll(es)) && p.w.flushScheduled == (w.flushScheduled || |es| > 0)
    decreases |es|
  {
    if |es| > 0 {
      var items := SnapshotArray(es);
      SnapshotIncludesTombstones(es, 0);
      var e := Received(es[0]);
      var a := ApplySpec(w.entries, e);
      var w1 := EnqueueAckSpec(w.(entries := a.entries), e);
      SnapshotArrayTail(es);
      SnapshotStepsAckEveryEntry(w1, es[1..]);
      var rest := SnapshotSteps(w1, items[1..]);
      assert SnapshotSteps(w, items) == Progress(rest.w, a.changed || rest.changed, rest.completed);
      assert w1.pending == Enqueue(w.pending, e);
      var rs := ReceivedAll(es);
      ReceivedAllTail(es);
      assert EnqueueAll(w.pending, rs) == EnqueueAll(w1.pending, rs[1..]);
    }
  }

  function ReceivedAll(es: seq<Entry>): (r: seq<Entry>)
    ensures |r| == |es| && forall i :: 0 <= i < |es| ==> r[i] == Received(es[i])
  {
    seq(|es|, i requires 0 <= i < |es| => Received(es[i]))
  }

  lemma SnapshotArrayTail(es: seq<Entry>)
    requires |es| > 0
    ensures SnapshotArray(es)[1..] == SnapshotArray(es[1..])
  {
  }

  lemma ReceivedAllTail(es: seq<Entry>)
    requires |es| > 0
    ensures ReceivedAll(es)[0] == Received(es[0]) && ReceivedAll(es)[1..] == ReceivedAll(es[1..])
  {
  }

  // ---------------------------------------------------------------------------
  // Inbound acknowledgements.

  /** One element of a `seen` array: an object with a string `path` and an object `version`. */
  function AckElement(j: Json): Option<(string, Version)> {
    match (Field(j, KeyPath), Field(j, KeyVersion))
    case (Some(JStr(p)), Some(JObj(vf))) => Some((p, VersionFromJson(JObj(vf))))
    case _ => None
  }

  datatype AckProgress = AckProgress(peers: PeerTable, completed: bool)

  /** The ack loop: each pair is recorded for `from` when `from` is non-empty; a malformed
      element aborts the rest. */
  function AckSteps(ps: PeerTable, from: string, items: seq<Json>): AckProgress
    decreases |items|
  {
    if |items| == 0 then AckProgress(ps, true)
    else match AckElement(items[0])
      case None => AckProgress(ps, false)
      case Some((p, v)) => AckSteps(if from != "" then RecordSpec(ps, from, p, v) else ps, from, items[1..])
  }

  /** `optString("fromReplica", "")`. */
  function Sender(payload: Json): string {
    match Field(payload, KeyFromReplica) case Some(JStr(s)) => s case _ => ""
  }

  /** `optJSONArray("seen") ?: JSONArray()`. */
  function SeenItems(payload: Json): seq<Json> {
    match Field(payload, KeySeen) case Some(JArr(xs)) => xs case _ => []
  }

  /** The ack branch: record every pair under the sending replica, then collect that peer's
      acknowledged tombstones once, if the array was read to its end. */
  function AckSpec(w: World, payload: Json): (r: World)
    requires WorldValid(w)
    ensures WorldValid(r)
  {
    var from := Sender(payload);
    var s := AckSteps(w.peers, from, SeenItems(payload));
    GcDistinct(w.entries, s.peers, from);
    if s.completed && from != "" then w.(peers := s.peers, entries := GcSpec(w.entries, s.peers, from))
    else w.(peers := s.peers)
  }

  lemma {:induction false} AckStepsWithoutSender(ps: PeerTable, items: seq<Json>)
    ensures AckSteps(ps, "", items).peers == ps
    decreases |items|
  {
    if |items| > 0 && AckElement(items[0]).Some? { AckStepsWithoutSender(ps, items[1..]); }
  }

  /** An acknowledgement without a sender id records nothing and collects nothing. */
  lemma AckWithoutSenderIgnored(w: World, payload: Json)
    requires WorldValid(w)
    requires Sender(payload) == ""
    ensures AckSpec(w, payload) == w
  {
    AckStepsWithoutSender(w.peers, SeenItems(payload));
  }

  // ---------------------------------------------------------------------------
  // Flushing acknowledgements.

  function SeenElement(k: string, v: Version): Json {
    JObj(map[KeyPath := JStr(k), KeyVersion := VersionToJson(v)])
  }

  /** The `seen` array of a flush: one element per pending path, in insertion order. */
  function SeenArray(p: Pending): (items: seq<Json>)
    requires PendingValid(p)
    ensures |items| == |p.order|
  {
    SeenElements(p.order, p.acks)
  }

  function SeenElements(keys: seq<string>, acks: map<string, Version>): (items: seq<Json>)
    requires forall k :: k in keys ==> k in acks
    ensures |items| == |keys|
  {
    seq(|keys|, i requires 0 <= i < |keys| => SeenElement(keys[i], acks[keys[i]]))
  }

  /** Each element of the `seen` array reads back as its pending path and version. */
  lemma SeenArrayDecodes(p: Pending, i: int)
    requires PendingValid(p) && 0 <= i < |p.order|
    ensures AckElement(SeenArray(p)[i]) == Some((p.order[i], p.acks[p.order[i]]))
  {
    assert p.order[i] in p.acks;
  }

  function AckPayload(from: string, seen: seq<Json>): Json {
    JObj(map[KeyFromReplica := JStr(from), KeySeen := JArr(seen)])
  }

  /** `flushAcks`: take and clear the pending table; if it was empty publish nothing, otherwise
      read the replica id and publish one item under base + "/ack". */
  function FlushSpec(base: string, w: World): (r: World)
    requires WorldValid(w)
    ensures WorldValid(r)
  {
    var cleared := w.(pending := NoPending, flushScheduled := false);
    if |w.pending.order| == 0 then cleared
    else
      var m := Migrate(cleared);
      m.(outbox := m.outbox + [Item(base + AckSegment, AckPayload(PhoneReplicaId, SeenArray(w.pending)))])
  }

  /** A flush always drains the table; it publishes nothing iff nothing was pending. */
  lemma FlushDrains(base: string, w: World)
    requires WorldValid(w)
    ensures var r := FlushSpec(base, w);
            && r.pending == NoPending && !r.flushScheduled && r.dispatched == w.dispatched
            && (w.pending.acks == map[] <==> r.outbox == w.outbox)
            && (w.pending.acks != map[] ==> r.outbox == w.outbox + [Item(base + AckSegment, AckPayload(PhoneReplicaId, SeenArray(w.pending)))])
  {
    if |w.pending.order| > 0 {
      assert w.pending.order[0] in w.pending.acks;
    }
  }

  /** The receiver of a flush records every pending version under the sender (at the path
      without its leading '/'): the batch is read to its end. */
  lemma FlushedAcksAreRecorded(ps: PeerTable, from: string, p: Pending)
    requires PendingValid(p) && from != ""
    ensures var s := AckSteps(ps, from, SeenArray(p));
            && s.completed
            && forall k :: k in p.acks ==> SeenVersion(s.peers, from, k) == Some(p.acks[k])
  {
    var items := SeenArray(p);
    AckStepsRecord(ps, from, p, 0);
    forall k | k in p.acks ensures SeenVersion(AckSteps(ps, from, items).peers, from, k) == Some(p.acks[k]) {
      var i :| 0 <= i < |p.order| && p.order[i] == k;
      assert items[0..] == items;
    }
  }

  /** Stripping the leading '/' keeps pending keys apart. */
  lemma StripDistinct(p: Pending, i: int, j: int)
    requires PendingValid(p) && 0 <= i < |p.order| && 0 <= j < |p.order| && i != j
    ensures StripOneSlash(p.order[i]) != StripOneSlash(p.order[j])
  {
    assert p.order[i] in p.acks && p.order[j] in p.acks;
  }

  /** The ack loop from element `n` on records the rest of the table and leaves the earlier
      slots alone. */
  /** The element at `n` of the flushed array is recorded first, then the rest. */
  lemma AckStepsAt(ps: PeerTable, from: string, p: Pending, n: nat)
    requires PendingValid(p) && from != "" && n < |p.order|
    ensures AckSteps(ps, from, SeenArray(p)[n..])
            == AckSteps(RecordSpec(ps, from, p.order[n], p.acks[p.order[n]]), from, SeenArray(p)[n + 1..])
  {
    var items := SeenArray(p);
    SeenArrayDecodes(p, n);
    assert items[n..][0] == items[n];
    assert items[n..][1..] == items[n + 1..];
  }

  lemma {:induction false} AckStepsRecord(ps: PeerTable, from: string, p: Pending, n: nat)
    requires PendingValid(p) && from != "" && n <= |p.order|
    ensures var s := AckSteps(ps, from, SeenArray(p)[n..]);
            && s.completed
            && (forall i :: n <= i < |p.order| ==>
                  from in s.peers && StripOneSlash(p.order[i]) in s.peers[from] &&
                  s.peers[from][StripOneSlash(p.order[i])] == p.acks[p.order[i]])
            && (forall q :: q in ps && q != from ==> q in s.peers && s.peers[q] == ps[q])
            && (forall key ::
                  (from in ps && key in ps[from] && forall i :: n <= i < |p.order| ==> StripOneSlash(p.order[i]) != key)
                  ==> from in s.peers && key in s.peers[from] && s.peers[from][key] == ps[from][key])
            && (from in ps || n < |p.order| ==> from in s.peers)
    decreases |p.order| - n
  {
    var items := SeenArray(p);
    if n < |p.order| {
      var k := p.order[n];
      var ps1 := RecordSpec(ps, from, k, p.acks[k]);
      AckStepsAt(ps, from, p, n);
      AckStepsRecord(ps1, from, p, n + 1);
      var s := AckSteps(ps1, from, items[n + 1..]);
      forall i' | n + 1 <= i' < |p.order| ensures StripOneSlash(p.order[i']) != StripOneSlash(k) {
        StripDistinct(p, i', n);
      }
      assert from in s.peers && StripOneSlash(k) in s.peers[from] && s.peers[from][StripOneSlash(k)] == p.acks[k];
    } else {
      assert items[n..] == [];
    }
  }

  // ---------------------------------------------------------------------------
  // Routing of inbound items.

  datatype Channel = OpChannel | SnapshotChannel | AckChannel | RequestChannel | NoChannel

  /** The `when` of `handleDataItem` as written: the op test is `path.contains("/op")`, which
      also holds for every item when the configured plugin path contains "/op". */
  function RouteAsWritten(path: string): (r: Channel)
    ensures Contains(path, OpSegment) ==> r == OpChannel
  {
    if Contains(path, OpSegment) then OpChannel
    else if EndsWith(path, SnapshotSegment) then SnapshotChannel
    else if EndsWith(path, AckSegment) then AckChannel
    else if Contains(path, RequestSegment) then RequestChannel
    else NoChannel
  }

  /** The routing with the op test anchored at the base path: base + "/op/" begins an op item. */
  function Route(base: string, path: string): Channel {
    if StartsWith(path, base + OpSegment + "/") then OpChannel
    else if EndsWith(path, SnapshotSegment) then SnapshotChannel
    else if EndsWith(path, AckSegment) then AckChannel
    else if Contains(path, RequestSegment) then RequestChannel
    else NoChannel
  }

  /** With a plugin path such as "/ops", the snapshot item base + "/snapshot" is routed to op
      handling, where it does not decode: the peer's snapshot is lost. */
  lemma RouteAsWrittenMisroutesSnapshot()
    ensures RouteAsWritten("/ops" + StateSegment + SnapshotSegment) == OpChannel
    ensures Route("/ops" + StateSegment, "/ops" + StateSegment + SnapshotSegment) == SnapshotChannel
  {
    var path := "/ops" + StateSegment + SnapshotSegment;
    assert path[..3] == OpSegment;
    assert !StartsWith(path, "/ops/state/op/") by { assert path[11] != "/ops/state/op/"[11]; }
    assert path[|path| - 9..] == SnapshotSegment;
  }

  /** The two routings differ only on paths containing "/op": every op item of the anchored
      routing is an op as written, and on any other path they agree. */
  lemma RouteAsWrittenAgrees(base: string, path: string)
    ensures Route(base, path) == OpChannel ==> RouteAsWritten(path) == OpChannel
    ensures !Contains(path, OpSegment) ==> RouteAsWritten(path) == Route(base, path)
  {
    var head := base + OpSegment + "/";
    if StartsWith(path, head) {
      var n := |base|;
      assert path == base + OpSegment + path[n + |OpSegment|..] by {
        assert path[..|head|] == head;
      }
      ContainsInside(base, OpSegment, path[n + |OpSegment|..]);
    }
  }

  lemma {:induction false} ContainsInside(pre: string, part: string, post: string)
    ensures Contains(pre + part + post, part)
    decreases |pre|
  {
    var s := pre + part + post;
    if |pre| == 0 {
      assert s[..|part|] == part;
    } else {
      ContainsInside(pre[1..], part, post);
      assert s[1..] == pre[1..] + part + post;
    }
  }

  /** Whatever the base path, each kind of item the protocol publishes under it is routed to
      its own branch, for op and request ids like the protocol's UUIDs: no '/' and at least
      nine characters (a request id "snapshot" would end like a snapshot path). */
  lemma RouteClassifiesProtocolPaths(base: string, id: string)
    requires '/' !in id && |id| >= |SnapshotSegment|
    ensures Route(base, base + OpSegment + "/" + id) == OpChannel
    ensures Route(base, base + SnapshotSegment) == SnapshotChannel
    ensures Route(base, base + AckSegment) == AckChannel
    ensures Route(base, base + RequestSegment + id) == RequestChannel
  {
    var n := |base|;
    var op := base + OpSegment + "/" + id;
    assert op[..n + 4] == base + OpSegment + "/";
    var snap := base + SnapshotSegment;
    assert snap[n + 1] == 's' && (base + OpSegment + "/")[n + 1] == 'o';
    assert snap[|snap| - 9..] == SnapshotSegment;
    var ack := base + AckSegment;
    assert ack[n + 1] == 'a';
    assert ack[|ack| - 4..] == AckSegment;
    assert ack[|ack| - 1] == 'k' && SnapshotSegment[8] == 't';
    var req := base + RequestSegment + id;
    assert req[n + 1] == 'r';
    ContainsInside(base, RequestSegment, id);
    assert req[|req| - 9] == id[|id| - 9] && req[|req| - 4] == id[|id| - 4];
    assert id[|id| - 9] != '/' && id[|id| - 4] != '/';
  }

  /** The request branch: a snapshot is sent only for `type == "requestSnapshot"`. */
  function RequestSpec(base: string, w: World, payload: Json): (r: World)
    requires WorldValid(w)
    ensures WorldValid(r)
    ensures r != w ==> Field(payload, KeyType) == Some(JStr(RequestSnapshotType))
  {
    match Field(payload, KeyType)
    case Some(JStr(t)) => if t == RequestSnapshotType then SendSnapshotSpec(base, w) else w
    case _ => w
  }

  /** `handleDataItem`: a missing or unparsable `json` string changes nothing. */
  function ItemSpec(base: string, w: World, path: string, payload: Option<Json>): (r: World)
    requires WorldValid(w)
    ensures WorldValid(r)
  {
    match payload
    case None => w
    case Some(j) =>
      match Route(base, path)
      case OpChannel => OpSpec(w, j)
      case SnapshotChannel => SnapshotSpec(w, j)
      case AckChannel => AckSpec(w, j)
      case RequestChannel => RequestSpec(base, w, j)
      case NoChannel => w
  }

  /** A Data Layer event: whether it is a `TYPE_CHANGED` event, the item's URI path (if any),
      and its `json` payload (None when absent or not parsable). */
  datatype DataEvent = DataEvent(changed: bool, path: Option<string>, payload: Option<Json>)

  /** The filter of `onDataChanged`. */
  predicate Relevant(base: string, ev: DataEvent) {
    ev.changed && ev.path.Some? && StartsWith(ev.path.value, base)
  }

  /** `onDataChanged`: the relevant events are handled in order. */
  function EventsSpec(base: string, w: World, events: seq<DataEvent>): (r: World)
    requires WorldValid(w)
    ensures WorldValid(r)
    decreases |events|
  {
    if |events| == 0 then w
    else
      var w1 := if Relevant(base, events[0]) then ItemSpec(base, w, events[0].path.value, events[0].payload) else w;
      EventsSpec(base, w1, events[1..])
  }

  /** Events that are not changes, or whose path lies outside the base path, are ignored. */
  lemma {:induction false} IrrelevantEventsIgnored(base: string, w: World, events: seq<DataEvent>)
    requires WorldValid(w)
    requires forall i :: 0 <= i < |events| ==> !Relevant(base, events[i])
    ensures EventsSpec(base, w, events) == w
    decreases |events|
  {
    if |events| > 0 {
      assert !Relevant(base, events[0]);
      IrrelevantEventsIgnored(base, w, events[1..]);
    }
  }

  // ---------------------------------------------------------------------------
  // The sync object.

  class StateSync {
    /** `basePath()`: the configured plugin path followed by "/state". */
    const base: string
    const store: StateStore
    var pending: Pending
    var flushScheduled: bool
    var outbox: seq<Item>
    var dispatched: seq<seq<Entry>>

    function State(): World
      reads this, store
    {
      World(store.storedReplicaId, store.storedEpoch, store.entries, store.peerSeen, pending, flushScheduled, outbox, dispatched)
    }

    ghost predicate Valid()
      reads this, store
    {
      store.Valid() && PendingValid(pending)
    }

    constructor (pluginPath: string, store: StateStore)
      requires store.Valid()
      ensures Valid()
      ensures base == pluginPath + StateSegment && this.store == store
      ensures pending == NoPending && !flushScheduled && outbox == [] && dispatched == []
    {
      base := pluginPath + StateSegment;
      this.store := store;
      pending := NoPending;
      flushScheduled := false;
      outbox := [];
      dispatched := [];
    }

    /** `setPath`; `now` is the clock reading, `opId` and `opTs` the operation's id and time. */
    method SetPath(path: string, value: Option<Json>, now: int, opId: string, opTs: int)
      requires Valid()
      modifies this, store
      ensures Valid()
      ensures State() == LocalWriteSpec(base, old(State()), path, false, value, now, opId, opTs)
    {
      LocalWrite(path, false, value, now, opId, opTs);
    }

    /** `removePath`. */
    method RemovePath(path: string, now: int, opId: string, opTs: int)
      requires Valid()
      modifies this, store
      ensures Valid()
      ensures State() == LocalWriteSpec(base, old(State()), path, true, None, now, opId, opTs)
    {
      LocalWrite(path, true, None, now, opId, opTs);
    }

    /** The body `setPath` and `removePath` share: a live entry with a "put" operation, or a
        tombstone with a "del" operation. */
    method LocalWrite(path: string, tombstone: bool, value: Option<Json>, now: int, opId: string, opTs: int)
      requires Valid()
      modifies this, store
      ensures Valid()
      ensures State() == LocalWriteSpec(base, old(State()), path, tombstone, value, now, opId, opTs)
    {
      var normalizedPath := if StartsWith(path, "/") then path[1..] else path;
      assert normalizedPath == StripOneSlash(path);
      var v := NextLocalVersion(now);
      var entry := Entry(normalizedPath, tombstone, v, value);
      var changed := ApplyEntry(entry);
      if changed {
        var op := Op(if tombstone then OpDel else OpPut, path, v, value, opId, opTs);
        Publish(op);
      }
    }

    /** `store.nextLocalVersion`, seen from the sync layer: the id migration of `Migrate`. */
    method NextLocalVersion(now: int) returns (v: Version)
      requires Valid()
      modifies store
      ensures Valid()
      ensures v == Version(now, PhoneReplicaId) && State() == Migrate(old(State()))
    {
      v := store.NextLocalVersion(now);
    }

    /** `store.applyEntry`, seen from the sync layer: only the entries change. */
    method ApplyEntry(entry: Entry) returns (changed: bool)
      requires Valid()
      modifies store
      ensures Valid()
      ensures var a := ApplySpec(old(State()).entries, entry);
              changed == a.changed && State() == old(State()).(entries := a.entries)
    {
      changed := store.ApplyEntry(entry);
    }

    /** The winning branch of a local write: `sendOp`, then `dispatchState`. */
    method Publish(op: Op)
      modifies this
      ensures State() == DispatchSpec(old(State()).(outbox := old(outbox) + [OpItem(base, op)]))
    {
      SendOp(op);
      DispatchState();
    }

    /** `dispatchState`: the event sent is `NoticeEvent(store.entries)`, i.e. the result of
        `store.Materialize()`; the log keeps the entries. */
    method DispatchState()
      modifies this
      ensures State() == DispatchSpec(old(State()))
    {
      dispatched := dispatched + [store.entries];
    }

    method SendOp(op: Op)
      modifies this
      ensures State() == old(State()).(outbox := old(outbox) + [OpItem(base, op)])
    {
      outbox := outbox + [Item(base + OpSegment + "/" + op.opId, OpToJson(op))];
    }

    /** `sendSnapshot`. */
    method SendSnapshot()
      requires Valid()
      modifies this, store
      ensures Valid()
      ensures State() == SendSnapshotSpec(base, old(State()))
    {
      var entries := store.AllEntries();
      var arr := EncodeEntries(entries);
      var id := GetReplicaId();
      var epoch := store.GetEpoch();
      PublishSnapshot(JObj(map[KeyFromReplica := JStr(id), KeyEpoch := JNum(epoch), KeyEntries := JArr(arr)]));
    }

    /** The `putDataItem` of `sendSnapshot`. */
    method PublishSnapshot(payload: Json)
      modifies this
      ensures State() == old(State()).(outbox := old(outbox) + [Item(base + SnapshotSegment, payload)])
    {
      outbox := outbox + [Item(base + SnapshotSegment, payload)];
    }

    /** `store.getReplicaId`, seen from the sync layer: the id migration of `Migrate`. */
    method GetReplicaId() returns (id: string)
      requires Valid()
      modifies store
      ensures Valid()
      ensures id == PhoneReplicaId && State() == Migrate(old(State()))
    {
      id := store.GetReplicaId();
    }

    /** `handleSnapshotRequest`. */
    method HandleSnapshotRequest()
      requires Valid()
      modifies this, store
      ensures Valid()
      ensures State() == SendSnapshotSpec(base, old(State()))
    {
      SendSnapshot();
    }

    /** `onDataChanged`. */
    method OnDataChanged(events: seq<DataEvent>)
      requires Valid()
      modifies this, store
      ensures Valid()
      ensures State() == EventsSpec(base, old(State()), events)
    {
      var rest := events;
      while rest != []
        invariant Valid()
        invariant EventsSpec(base, old(State()), events) == EventsSpec(base, State(), rest)
        decreases |rest|
      {
        HandleEvent(rest[0]);
        rest := rest[1..];
      }
    }

    /** One iteration of the loop of `onDataChanged`. */
    method HandleEvent(event: DataEvent)
      requires Valid()
      modifies this, store
      ensures Valid()
      ensures State() == if Relevant(base, event) then ItemSpec(base, old(State()), event.path.value, event.payload)
                         else old(State())
    {
      if event.changed && event.path.Some? && StartsWith(event.path.value, base) {
        HandleDataItem(event.path.value, event.payload);
      }
    }

    /** `handleDataItem`, with the branch chosen by the anchored routing `Route`. */
    method HandleDataItem(path: string, payload: Option<Json>)
      requires Valid()
      modifies this, store
      ensures Valid()
      ensures State() == ItemSpec(base, old(State()), path, payload)
    {
      if payload.None? { return; }
      var j := payload.value;
      match Route(base, path)
      case OpChannel => HandleOp(j);
      case SnapshotChannel => HandleSnapshot(j);
      case AckChannel => HandleAck(j);
      case RequestChannel =>
        var t := match Field(j, KeyType) case Some(JStr(s)) => s case _ => "";
        if t == RequestSnapshotType {
          HandleSnapshotRequest();
        }
      case NoChannel =>
    }

    method HandleOp(payload: Json)
      requires Valid()
      modifies this, store
      ensures Valid()
      ensures State() == OpSpec(old(State()), payload)
    {
      var decoded := OpFromJson(payload, 0);
      if decoded.Err? { return; }
      var op := decoded.value;
      var normPath := if StartsWith(op.path, "/") then op.path[1..] else op.path;
      assert normPath == StripOneSlash(op.path);
      var entry := if op.kind == OpPut then Entry(normPath, false, op.version, op.value)
                   else Entry(normPath, true, op.version, None);
      var changed := ApplyEntry(entry);
      if changed {
        DispatchState();
      }
      EnqueueAck(entry);
    }

    /** The snapshot branch of `handleDataItem`. */
    method HandleSnapshot(payload: Json)
      requires Valid()
      modifies this, store
      ensures Valid()
      ensures State() == SnapshotSpec(old(State()), payload)
    {
      var field := Field(payload, KeyEntries);
      if !(field.Some? && field.value.JArr?) { return; }
      var changedAny, completed := ApplySnapshotEntries(field.value.items);
      if completed && changedAny {
        DispatchState();
      }
    }

    /** The `for` loop over the `entries` array: apply and acknowledge each entry, stopping at
        the first element that does not decode. */
    method ApplySnapshotEntries(items: seq<Json>) returns (changedAny: bool, completed: bool)
      requires Valid()
      modifies this, store
      ensures Valid()
      ensures SnapshotSteps(old(State()), items) == Progress(State(), changedAny, completed)
    {
      changedAny, completed := false, true;
      var rest := items;
      while rest != []
        invariant Valid()
        invariant var p := SnapshotSteps(State(), rest);
                  SnapshotSteps(old(State()), items) == Progress(p.w, changedAny || p.changed, p.completed)
        decreases |rest|
      {
        var decoded, changed := ApplySnapshotElement(rest[0]);
        if !decoded {
          completed := false;
          return;
        }
        changedAny := changedAny || changed;
        rest := rest[1..];
      }
    }

    /** One element of the `entries` array: `StateEntry.fromJson`, then `applyEntry` and
        `enqueueAck` when it decodes; an element that does not decode changes nothing. */
    method ApplySnapshotElement(item: Json) returns (decoded: bool, changed: bool)
      requires Valid()
      modifies this, store
      ensures Valid()
      ensures decoded <==> EntryFromJson(item).Ok?
      ensures !decoded ==> State() == old(State())
      ensures decoded ==> var e := EntryFromJson(item).value;
                          var a := ApplySpec(old(State()).entries, e);
                          changed == a.changed && State() == EnqueueAckSpec(old(State()).(entries := a.entries), e)
    {
      var result := EntryFromJson(item);
      if result.Err? {
        return false, false;
      }
      var entry := result.value;
      ghost var w0 := State();
      changed := store.ApplyEntry(entry);
      ghost var a := ApplySpec(w0.entries, entry);
      assert State() == w0.(entries := a.entries) && changed == a.changed;
      EnqueueAck(entry);
      decoded := true;
    }

    method HandleAck(payload: Json)
      requires Valid()
      modifies this, store
      ensures Valid()
      ensures State() == AckSpec(old(State()), payload)
    {
      var fromReplica := Sender(payload);
      var seen := SeenItems(payload);
      var completed := true;
      var i := 0;
      while i < |seen|
        invariant 0 <= i <= |seen|
        invariant Valid()
        invariant unchanged(this)
        invariant store.entries == old(store.entries) && store.storedReplicaId == old(store.storedReplicaId)
        invariant store.storedEpoch == old(store.storedEpoch)
        invariant AckSteps(old(store.peerSeen), fromReplica, seen) == AckSteps(store.peerSeen, fromReplica, seen[i..])
      {
        assert seen[i..][0] == seen[i] && seen[i..][1..] == seen[i + 1..];
        var element := AckElement(seen[i]);
        if element.None? {
          completed := false;
          break;
        }
        var (p, v) := element.value;
        if fromReplica != "" {
          store.RecordPeerSeen(fromReplica, p, v);
        }
        i := i + 1;
      }
      if completed && fromReplica != "" {
        store.GcAcknowledgedTombstones(fromReplica);
      }
    }

    /** `enqueueAck`. */
    method EnqueueAck(entry: Entry)
      requires Valid()
      modifies this
      ensures Valid()
      ensures State() == EnqueueAckSpec(old(State()), entry)
    {
      var key := if StartsWith(entry.path, "/") then entry.path else "/" + TrimLeadingSlashes(entry.path);
      assert key == SerializedPath(entry.path);
      if key !in pending.acks {
        pending := Pending(pending.acks[key := entry.version], pending.order + [key]);
      } else if CompareTo(entry.version, pending.acks[key]) > 0 {
        pending := pending.(acks := pending.acks[key := entry.version]);
      }
      flushScheduled := true;
    }

    /** `flushAcks`: the step the debounce timer runs. */
    method FlushAcks()
      requires Valid()
      modifies this, store
      ensures Valid()
      ensures State() == FlushSpec(base, old(State()))
    {
      var toSend := pending;
      pending := NoPending;
      flushScheduled := false;
      if |toSend.order| == 0 { return; }
      var arr := EncodeSeen(toSend);
      var id := GetReplicaId();
      PublishAcks(JObj(map[KeyFromReplica := JStr(id), KeySeen := JArr(arr)]));
    }

    /** The `putDataItem` of `flushAcks`. */
    method PublishAcks(payload: Json)
      modifies this
      ensures State() == old(State()).(outbox := old(outbox) + [Item(base + AckSegment, payload)])
    {
      outbox := outbox + [Item(base + AckSegment, payload)];
    }
  }

  /** The `forEach` of `sendSnapshot` that fills the `entries` array. */
  method EncodeEntries(es: seq<Entry>) returns (arr: seq<Json>)
    ensures arr == SnapshotArray(es)
  {
    arr := [];
    var i := 0;
    while i < |es|
      invariant 0 <= i <= |es|
      invariant arr == SnapshotArray(es[..i])
    {
      assert es[..i + 1] == es[..i] + [es[i]];
      arr := arr + [EntryToJson(es[i])];
      i := i + 1;
    }
    assert es[..i] == es;
  }

  /** The loop of `flushAcks` that fills the `seen` array. */
  method EncodeSeen(p: Pending) returns (arr: seq<Json>)
    requires PendingValid(p)
    ensures arr == SeenArray(p)
  {
    arr := [];
    var i := 0;
    while i < |p.order|
      invariant 0 <= i <= |p.order|
      invariant arr == SeenElements(p.order[..i], p.acks)
    {
      assert p.order[..i + 1] == p.order[..i] + [p.order[i]];
      arr := arr + [SeenElement(p.order[i], p.acks[p.order[i]])];
      i := i + 1;
    }
    assert p.order[..i] == p.order;
  }
}
