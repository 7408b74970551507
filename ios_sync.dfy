/** The iOS sync layer (StateSync.swift): local writes published as operations, snapshots of
    the live entries, an append-only list of pending acknowledgements flushed as one map, and
    the handlers for the application context and for messages. WatchConnectivity is reduced to
    a `Link` and an outbox of what was sent. Swift dictionaries are iterated in an order given
    by a function of the dictionary, and JSON text is produced and read by two functions: both
    are parameters of an `Env`. */
module IosSync {
  import opened Json
  import opened Text
  import opened IosModels
  import opened IosStore

  const StateSegment := "/state"
  const OpPrefix := "/op/"
  const SnapshotPrefix := "/snapshot/"
  const AckPrefix := "/ack/"
  const RequestPart := "/request/"
  /** `Wearable.DataKey.peer`: the id every inbound acknowledgement is recorded under. */
  const Peer := "peer"
  const KeyType := "type"
  const KeyPath := "path"
  const KeyVersion := "version"
  const KeyValue := "value"
  const KeyOpId := "opId"
  const KeyTs := "ts"
  const KeyOp := "op"
  const KeyAck := "ack"
  const KeySnapshot := "snapshot"
  const TypePut := "put"
  const TypeDel := "del"
  const TypeStateOp := "stateOp"
  const TypeStateAck := "stateAck"
  const TypeStateSnapshot := "stateSnapshot"
  const TypeRequestSnapshot := "requestSnapshot"

  /** What leaves the phone: an application-context update (one key and its value) or a
      message sent through `WatchConnect.sendMessage`. */
  datatype Outgoing = Context(key: string, payload: Json) | Message(payload: Json)

  /** WatchConnectivity during one call: whether connectivity is enabled in `WatchConnect`,
      whether a session exists and is paired, and whether an `updateApplicationContext`
      within the retry budget succeeds. */
  datatype Link = Link(connectivityEnabled: bool, paired: bool, contextAccepted: bool)

  /** The environment of the sync layer: the link, the iteration order of a JSON dictionary
      and of the store's dictionary, and `JSONSerialization` writing and reading JSON text. */
  datatype Env = Env(link: Link, dictOrder: map<string, Json> -> seq<string>, entryOrder: Entries -> seq<string>,
                     serialize: Json -> string, parse: string -> Option<Json>)

  /** The state the sync layer acts on: the store's fields (entries, peer acknowledgements,
      replica id, stored id, the notifications the store posted), the pending acknowledgements
      with the debounce flag, the notifications `setPath` posted, and what was sent. */
  datatype World = World(entries: Entries, acks: PeerAcks, replicaId: string, storedId: Option<string>,
                         notices: seq<Notice>, pending: seq<StateEntry>, flushScheduled: bool,
                         posted: seq<Notice>, outbox: seq<Outgoing>)

  /** `store.applyEntry`, with the notification the store posts when its dictionary changes. */
  function ApplyToWorld(w: World, e: StateEntry): World {
    var a := ApplySpec(w.entries, e);
    w.(entries := a.entries,
       notices := w.notices + if a.changed then [Notice(Normalize(e.path), e.tombstone, e.value)] else [])
  }

  /** A store only moves to newer versions: after an application the entry's key holds a
      version not below the entry's, and every key keeps a version not below any it had. */
  lemma ApplyNeverLowers(m: Entries, e: StateEntry, key: string, v: Version)
    ensures var r := ApplySpec(m, e).entries;
            && Normalize(e.path) in r && !Less(r[Normalize(e.path)].version, e.version)
            && (key in m && !Less(m[key].version, v) ==> key in r && !Less(r[key].version, v))
  {
    LessIrreflexive(e.version);
    var r := ApplySpec(m, e).entries;
    if key in m && key == Normalize(e.path) && Less(m[key].version, e.version) && Less(r[key].version, v) {
      LessTransitive(m[key].version, e.version, v);
    }
  }

  // ---------------------------------------------------------------------------
  // Dictionaries iterated in a given order.

  /** An iteration order lists each key once. */
  lemma EnumeratedDistinct<T>(order: seq<string>, keys: map<string, T>)
    requires Enumerates(order, keys)
    ensures forall i, j :: 0 <= i < j < |order| ==> order[i] != order[j]
  {
    forall i, j | 0 <= i < j < |order|
      ensures order[i] != order[j]
    {
      var x := order[i];
      assert order == order[..j] + order[j..];
      assert multiset(order)[x] == multiset(order[..j])[x] + multiset(order[j..])[x];
      assert order[..j][i] == x && order[j..][0] == order[j];
      assert multiset(order[..j])[x] >= 1 && multiset(order[j..])[order[j]] >= 1;
      assert multiset(keys.Keys)[x] <= 1;
    }
  }

  // ---------------------------------------------------------------------------
  // Local writes.

  /** The operation dictionary `setPath` builds: `type` is "del" for a nil value and "put"
      otherwise, the version is written as `{ts, r}`, and `value` is present iff there is one. */
  function OpPayload(path: string, value: Option<Json>, v: Version, opId: string, opTs: int): map<string, Json> {
    var fields := map[KeyType := JStr(if value.None? then TypeDel else TypePut), KeyPath := JStr(path),
                      KeyVersion := VersionToDict(v), KeyOpId := JStr(opId), KeyTs := JNum(opTs)];
    if value.Some? then fields[KeyValue := value.value] else fields
  }

  /** `sendOpViaMessage`. */
  function StateOpMessage(payload: map<string, Json>): Json {
    JObj(map[KeyType := JStr(TypeStateOp), KeyOp := JObj(payload)])
  }

  /** The send at the end of `setPath`: nothing while connectivity is disabled; with a paired
      session the operation goes into the application context under `opKey`, or as a
      `stateOp` message when every attempt fails, which is also the route without a paired
      session. */
  function PublishOpSpec(link: Link, w: World, opKey: string, payload: map<string, Json>): World {
    if !link.connectivityEnabled then w
    else if link.paired && link.contextAccepted then w.(outbox := w.outbox + [Context(opKey, JObj(payload))])
    else w.(outbox := w.outbox + [Message(StateOpMessage(payload))])
  }

  /** `setPath`: the version is the clock reading `now` with the store's replica id; the entry
      is a tombstone iff the value is nil and keeps the path as given; the change notification
      is posted and the operation built whether or not the store changed. */
  function SetPathSpec(base: string, link: Link, w: World, path: string, value: Option<Json>,
                       now: int, opId: string, opTs: int): World {
    var v := Version(now, w.replicaId);
    var w1 := ApplyToWorld(w, StateEntry(path, value.None?, v, value));
    var w2 := w1.(posted := w1.posted + [Notice(path, value.None?, value)]);
    PublishOpSpec(link, w2, base + OpPrefix + opId, OpPayload(path, value, v, opId, opTs))
  }

  /** The guard and the entry of `processOpPayload`: string `type` and `path` members and a
      version dictionary with an Int64 `ts` and a string `r` are required; the entry is a
      tombstone iff `type` is "del", and its value is the `value` member as it is (the
      JSON-string fallback is tried only when that member is absent, so it never applies). */
  function OpEntryOf(payload: map<string, Json>): (r: Option<StateEntry>)
    ensures r.Some? <==> && KeyType in payload && payload[KeyType].JStr?
                         && KeyPath in payload && payload[KeyPath].JStr?
                         && KeyVersion in payload && VersionFromDict(payload[KeyVersion]).Some?
    ensures r.Some? ==> && r.value.path == payload[KeyPath].s
                        && (r.value.tombstone <==> payload[KeyType] == JStr(TypeDel))
                        && r.value.version == VersionFromDict(payload[KeyVersion]).value
                        && (r.value.value.Some? <==> KeyValue in payload)
  {
    var obj := JObj(payload);
    match (Field(obj, KeyType), Field(obj, KeyPath), Field(obj, KeyVersion))
    case (Some(JStr(t)), Some(JStr(p)), Some(vd)) =>
      (match VersionFromDict(vd)
       case Some(v) => Some(StateEntry(p, t == TypeDel, v, Field(obj, KeyValue)))
       case None => None)
    case _ => None
  }

  /** `processOpPayload`: a malformed payload leaves everything as it was. */
  function OpSpec(w: World, payload: map<string, Json>): World {
    match OpEntryOf(payload)
    case None => w
    case Some(e) => ApplyToWorld(w, e)
  }

  /** The operation `setPath` builds decodes, on the receiving side, into the entry the writer
      applied: same path, tombstone iff no value, same version and value. */
  lemma OpRoundTrip(path: string, value: Option<Json>, v: Version, opId: string, opTs: int)
    requires IsInt64(v.ts)
    ensures OpEntryOf(OpPayload(path, value, v, opId, opTs)) == Some(StateEntry(path, value.None?, v, value))
  {
    var p := OpPayload(path, value, v, opId, opTs);
    assert p[KeyVersion] == VersionToDict(v);
    assert (p[KeyType] == JStr(TypeDel)) == value.None?;
    assert value.Some? ==> p[KeyValue] == value.value;
  }

  /** `setPath` always posts its notification and, with connectivity enabled, always sends
      exactly one operation, which decodes into the entry it applied; the store changes as
      `applyEntry` decides, and the pending acknowledgements are untouched. */
  lemma SetPathPostsAndPublishes(base: string, link: Link, w: World, path: string, value: Option<Json>,
                                 now: int, opId: string, opTs: int)
    requires IsInt64(now)
    ensures var r := SetPathSpec(base, link, w, path, value, now, opId, opTs);
            var e := StateEntry(path, value.None?, Version(now, w.replicaId), value);
            && r.entries == ApplySpec(w.entries, e).entries
            && (ApplySpec(w.entries, e).changed ==> r.entries[Normalize(path)].tombstone == value.None?)
            && r.posted == w.posted + [Notice(path, value.None?, value)]
            && r.pending == w.pending && r.acks == w.acks
            && (!link.connectivityEnabled ==> r.outbox == w.outbox)
            && (link.connectivityEnabled ==>
                  && |r.outbox| == |w.outbox| + 1 && r.outbox[..|w.outbox|] == w.outbox
                  && var sent := r.outbox[|w.outbox|];
                     var op := if sent.Context? then sent.payload else sent.payload.fields[KeyOp];
                     op.JObj? && OpEntryOf(op.fields) == Some(e))
  {
    var v := Version(now, w.replicaId);
    OpRoundTrip(path, value, v, opId, opTs);
    var r := SetPathSpec(base, link, w, path, value, now, opId, opTs);
    if link.connectivityEnabled {
      assert r.outbox[..|w.outbox|] == w.outbox;
    }
  }

  // ---------------------------------------------------------------------------
  // Outgoing snapshots.

  /** One item of the outgoing snapshot: the version dictionary and, when there is one, the value. */
  function SnapshotItem(e: StateEntry): Json {
    var item := map[KeyVersion := VersionToDict(e.version)];
    JObj(if e.value.Some? then item[KeyValue := e.value.value] else item)
  }

  /** The loop of `sendSnapshot` over `getAllEntries()` as far as `keys` goes: tombstones are
      skipped and each live entry is written under its own `path`, a later entry replacing an
      earlier one with the same path. */
  function SnapshotDictOf(m: Entries, keys: seq<string>): map<string, Json>
    decreases |keys|
  {
    if |keys| == 0 then map[]
    else
      var d := SnapshotDictOf(m, keys[..|keys| - 1]);
      var k := keys[|keys| - 1];
      if k in m && !m[k].tombstone then d[m[k].path := SnapshotItem(m[k])] else d
  }

  /** The snapshot built over any list of keys holds exactly the paths of the live entries
      among them, each with the item of one of those entries. */
  lemma {:induction false} SnapshotDictOfKeys(m: Entries, keys: seq<string>)
    ensures forall p :: p in SnapshotDictOf(m, keys) <==>
              exists i :: 0 <= i < |keys| && keys[i] in m && !m[keys[i]].tombstone && m[keys[i]].path == p
    ensures forall p :: p in SnapshotDictOf(m, keys) ==>
              exists i :: && 0 <= i < |keys| && keys[i] in m && !m[keys[i]].tombstone && m[keys[i]].path == p
                          && SnapshotDictOf(m, keys)[p] == SnapshotItem(m[keys[i]])
    decreases |keys|
  {
    if |keys| > 0 {
      var init := keys[..|keys| - 1];
      SnapshotDictOfKeys(m, init);
      assert forall i :: 0 <= i < |init| ==> keys[i] == init[i];
      forall p | p in SnapshotDictOf(m, init)
        ensures exists i :: && 0 <= i < |keys| && keys[i] in m && !m[keys[i]].tombstone && m[keys[i]].path == p
                            && SnapshotDictOf(m, init)[p] == SnapshotItem(m[keys[i]])
      {
        var i :| && 0 <= i < |init| && init[i] in m && !m[init[i]].tombstone && m[init[i]].path == p
                 && SnapshotDictOf(m, init)[p] == SnapshotItem(m[init[i]]);
        assert keys[i] == init[i];
      }
      forall p | (exists i :: 0 <= i < |keys| && keys[i] in m && !m[keys[i]].tombstone && m[keys[i]].path == p)
        ensures p in SnapshotDictOf(m, keys)
      {
        var i :| 0 <= i < |keys| && keys[i] in m && !m[keys[i]].tombstone && m[keys[i]].path == p;
        if i < |keys| - 1 { assert init[i] == keys[i]; }
      }
    }
  }

  /** The outgoing snapshot contains exactly the live entries of the store: a path is in it iff
      some non-tombstone entry has that path, and its item is that of such an entry. */
  lemma SnapshotHasExactlyLiveEntries(m: Entries, keys: seq<string>)
    requires Enumerates(keys, m)
    ensures forall p :: p in SnapshotDictOf(m, keys) <==> exists k :: k in m && !m[k].tombstone && m[k].path == p
    ensures forall p :: p in SnapshotDictOf(m, keys) ==>
              exists k :: k in m && !m[k].tombstone && m[k].path == p && SnapshotDictOf(m, keys)[p] == SnapshotItem(m[k])
  {
    SnapshotDictOfKeys(m, keys);
    EnumeratedAreKeys(keys, m);
    KeysAreEnumerated(keys, m);
    forall k | k in m && !m[k].tombstone
      ensures exists i :: 0 <= i < |keys| && keys[i] in m && !m[keys[i]].tombstone && m[keys[i]].path == m[k].path
    {
      var i :| 0 <= i < |keys| && keys[i] == k;
    }
  }

  /** The application-context update `sendSnapshot` makes. The snapshot's UUID, which only
      makes the key unique, is not modelled: the key is the channel prefix. */
  function SnapshotContext(base: string, env: Env, m: Entries): Outgoing {
    Context(base + SnapshotPrefix, JStr(env.serialize(JObj(SnapshotDictOf(m, env.entryOrder(m))))))
  }

  /** `sendSnapshot`: with a paired session that accepts the update the snapshot is sent;
      otherwise every attempt returns false or throws, and nothing is sent. Connectivity being
      disabled does not stop it. */
  function SendSnapshotSpec(base: string, env: Env, w: World): World {
    if env.link.paired && env.link.contextAccepted then w.(outbox := w.outbox + [SnapshotContext(base, env, w.entries)])
    else w
  }

  // ---------------------------------------------------------------------------
  // Inbound snapshots.

  /** One item of `applySnapshotDict`: a dictionary becomes a live entry under its key as it
      is, with the `value` member if present, and with its version dictionary or, when that is
      missing or malformed, `fallback` (the next local version); anything else is skipped. */
  function SnapshotItemEntry(k: string, item: Json, fallback: Version): (r: Option<StateEntry>)
    ensures r.Some? <==> item.JObj?
    ensures r.Some? ==> !r.value.tombstone && r.value.path == k && (r.value.value.Some? <==> KeyValue in item.fields)
  {
    if !item.JObj? then None
    else
      var version := match Field(item, KeyVersion) case Some(vd) => VersionFromDict(vd).GetOr(fallback) case None => fallback;
      Some(StateEntry(k, false, version, Field(item, KeyValue)))
  }

  /** A live entry sent in a snapshot arrives as itself, under the path it was sent with. */
  lemma SnapshotItemRoundTrip(e: StateEntry, fallback: Version)
    requires IsInt64(e.version.ts)
    ensures SnapshotItemEntry(e.path, SnapshotItem(e), fallback) == Some(StateEntry(e.path, false, e.version, e.value))
  {
    assert SnapshotItem(e).fields[KeyVersion] == VersionToDict(e.version);
  }

  /** The loop of `applySnapshotDict` over `keys`; the clock reading `now` gives the fallback
      version. */
  function SnapshotDictSteps(w: World, d: map<string, Json>, keys: seq<string>, now: int): World
    decreases |keys|
  {
    if |keys| == 0 then w
    else
      var k := keys[0];
      var w1 := if k in d then
                  match SnapshotItemEntry(k, d[k], Version(now, w.replicaId))
                  case Some(e) => ApplyToWorld(w, e)
                  case None => w
                else w;
      SnapshotDictSteps(w1, d, keys[1..], now)
  }

  /** `applySnapshotDict`, visiting the dictionary in its iteration order. */
  function ApplySnapshotDictSpec(env: Env, w: World, d: map<string, Json>, now: int): World {
    SnapshotDictSteps(w, d, env.dictOrder(d), now)
  }

  /** An inbound snapshot changes only entries and the store's notifications; every entry it
      writes is live. */
  lemma {:induction false} SnapshotDictWritesLiveEntries(w: World, d: map<string, Json>, keys: seq<string>, now: int)
    ensures var r := SnapshotDictSteps(w, d, keys, now);
            && r == w.(entries := r.entries, notices := r.notices)
            && forall k :: k in r.entries && (k !in w.entries || r.entries[k] != w.entries[k]) ==> !r.entries[k].tombstone
    decreases |keys|
  {
    if |keys| > 0 {
      var k := keys[0];
      var w1 := if k in d then
                  match SnapshotItemEntry(k, d[k], Version(now, w.replicaId))
                  case Some(e) => ApplyToWorld(w, e)
                  case None => w
                else w;
      SnapshotDictWritesLiveEntries(w1, d, keys[1..], now);
    }
  }

  /** Items that are not dictionaries are skipped: a snapshot without any leaves the state as
      it was. */
  lemma {:induction false} SnapshotSkipsNonDictionaries(w: World, d: map<string, Json>, keys: seq<string>, now: int)
    requires forall k :: k in d ==> !d[k].JObj?
    ensures SnapshotDictSteps(w, d, keys, now) == w
    decreases |keys|
  {
    if |keys| > 0 {
      SnapshotSkipsNonDictionaries(w, d, keys[1..], now);
    }
  }

  /** The version an item is applied with. */
  function ItemVersion(item: Json, fallback: Version): Version
    requires item.JObj?
  {
    SnapshotItemEntry("", item, fallback).value.version
  }

  /** Every dictionary item of an inbound snapshot is applied: afterwards its normalised key
      holds a version not below the item's. */
  lemma {:induction false} SnapshotAppliesEveryItem(w: World, d: map<string, Json>, keys: seq<string>, now: int)
    ensures var r := SnapshotDictSteps(w, d, keys, now);
            forall i :: 0 <= i < |keys| && keys[i] in d && d[keys[i]].JObj? ==>
              && Normalize(keys[i]) in r.entries
              && !Less(r.entries[Normalize(keys[i])].version, ItemVersion(d[keys[i]], Version(now, w.replicaId)))
    decreases |keys|
  {
    if |keys| > 0 {
      var k := keys[0];
      var w1 := if k in d then
                  match SnapshotItemEntry(k, d[k], Version(now, w.replicaId))
                  case Some(e) => ApplyToWorld(w, e)
                  case None => w
                else w;
      assert w1.replicaId == w.replicaId;
      SnapshotAppliesEveryItem(w1, d, keys[1..], now);
      var r := SnapshotDictSteps(w, d, keys, now);
      assert r == SnapshotDictSteps(w1, d, keys[1..], now);
      forall i | 0 <= i < |keys| && keys[i] in d && d[keys[i]].JObj?
        ensures && Normalize(keys[i]) in r.entries
                && !Less(r.entries[Normalize(keys[i])].version, ItemVersion(d[keys[i]], Version(now, w.replicaId)))
      {
        if i > 0 {
          assert keys[1..][i - 1] == keys[i];
        } else {
          var e := SnapshotItemEntry(k, d[k], Version(now, w.replicaId)).value;
          ApplyNeverLowers(w.entries, e, Normalize(k), e.version);
          SnapshotKeepsAtLeast(w1, d, keys[1..], now, Normalize(k), e.version);
        }
      }
    }
  }

  /** Later items never lower the version held at a key. */
  lemma {:induction false} SnapshotKeepsAtLeast(w: World, d: map<string, Json>, keys: seq<string>, now: int, key: string, v: Version)
    requires key in w.entries && !Less(w.entries[key].version, v)
    ensures var r := SnapshotDictSteps(w, d, keys, now);
            key in r.entries && !Less(r.entries[key].version, v)
    decreases |keys|
  {
    if |keys| > 0 {
      var k := keys[0];
      if k in d && SnapshotItemEntry(k, d[k], Version(now, w.replicaId)).Some? {
        ApplyNeverLowers(w.entries, SnapshotItemEntry(k, d[k], Version(now, w.replicaId)).value, key, v);
      }
      var w1 := if k in d then
                  match SnapshotItemEntry(k, d[k], Version(now, w.replicaId))
                  case Some(e) => ApplyToWorld(w, e)
                  case None => w
                else w;
      SnapshotKeepsAtLeast(w1, d, keys[1..], now, key, v);
    }
  }

  // ---------------------------------------------------------------------------
  // Inbound acknowledgements.

  /** The loop of `processAckDict` over `keys`: every well-formed `{ts, r}` is recorded for
      the peer "peer" under the path as given. */
  function AckDictSteps(acks: PeerAcks, d: map<string, Json>, keys: seq<string>): PeerAcks
    decreases |keys|
  {
    if |keys| == 0 then acks
    else
      var k := keys[0];
      var a1 := if k in d then
                  match VersionFromDict(d[k])
                  case Some(v) => RecordSpec(acks, Peer, k, v)
                  case None => acks
                else acks;
      AckDictSteps(a1, d, keys[1..])
  }

  /** `processAckDict`: record, then collect tombstones for "peer" once. */
  function AckDictSpec(env: Env, w: World, d: map<string, Json>): World {
    var acks := AckDictSteps(w.acks, d, env.dictOrder(d));
    w.(acks := acks, entries := GcSpec(w.entries, acks, Peer))
  }

  /** No well-formed pair for path `p` is among `keys`. */
  predicate NotRecordedAt(d: map<string, Json>, keys: seq<string>, p: string) {
    forall i :: 0 <= i < |keys| && keys[i] == p ==> keys[i] !in d || VersionFromDict(d[keys[i]]).None?
  }

  /** Over distinct keys, each well-formed pair ends up recorded for "peer"; other peers and
      the paths not among well-formed keys keep what they had. */
  lemma {:induction false} AckDictStepsRecord(acks: PeerAcks, d: map<string, Json>, keys: seq<string>)
    requires forall i, j :: 0 <= i < j < |keys| ==> keys[i] != keys[j]
    ensures var r := AckDictSteps(acks, d, keys);
            && (forall i :: 0 <= i < |keys| && keys[i] in d && VersionFromDict(d[keys[i]]).Some? ==>
                  Peer in r && keys[i] in r[Peer] && r[Peer][keys[i]] == VersionFromDict(d[keys[i]]).value)
            && (forall q :: q != Peer ==> (q in r <==> q in acks) && (q in acks ==> r[q] == acks[q]))
            && (forall p :: Peer in acks && p in acks[Peer] && NotRecordedAt(d, keys, p) ==>
                  Peer in r && p in r[Peer] && r[Peer][p] == acks[Peer][p])
    decreases |keys|
  {
    if |keys| > 0 {
      var k := keys[0];
      var a1 := if k in d then
                  match VersionFromDict(d[k])
                  case Some(v) => RecordSpec(acks, Peer, k, v)
                  case None => acks
                else acks;
      AckDictStepsRecord(a1, d, keys[1..]);
      var r := AckDictSteps(acks, d, keys);
      assert r == AckDictSteps(a1, d, keys[1..]);
      forall i | 0 <= i < |keys| && keys[i] in d && VersionFromDict(d[keys[i]]).Some?
        ensures Peer in r && keys[i] in r[Peer] && r[Peer][keys[i]] == VersionFromDict(d[keys[i]]).value
      {
        if i > 0 {
          assert keys[1..][i - 1] == keys[i];
        } else {
          forall j | 0 <= j < |keys[1..]| ensures keys[1..][j] != k { assert keys[1..][j] == keys[j + 1]; }
        }
      }
      forall p | Peer in acks && p in acks[Peer] && NotRecordedAt(d, keys, p)
        ensures Peer in r && p in r[Peer] && r[Peer][p] == acks[Peer][p]
      {
        forall i | 0 <= i < |keys[1..]| && keys[1..][i] == p
          ensures keys[1..][i] !in d || VersionFromDict(d[keys[1..][i]]).None?
        {
          assert keys[1..][i] == keys[i + 1];
        }
      }
    }
  }

  /** `processAckDict` records every well-formed `{ts, r}` of the dictionary under the peer id
      "peer", leaves the other peers alone, and then collects tombstones for "peer" once. */
  lemma AckDictRecordsUnderPeer(env: Env, w: World, d: map<string, Json>)
    requires Enumerates(env.dictOrder(d), d)
    ensures var r := AckDictSpec(env, w, d);
            && (forall p :: p in d && VersionFromDict(d[p]).Some? ==>
                  Peer in r.acks && p in r.acks[Peer] && r.acks[Peer][p] == VersionFromDict(d[p]).value)
            && (forall q :: q != Peer ==> (q in r.acks <==> q in w.acks) && (q in w.acks ==> r.acks[q] == w.acks[q]))
            && r.entries == GcSpec(w.entries, r.acks, Peer)
  {
    var keys := env.dictOrder(d);
    EnumeratedDistinct(keys, d);
    KeysAreEnumerated(keys, d);
    AckDictStepsRecord(w.acks, d, keys);
    var r := AckDictSpec(env, w, d);
    forall p | p in d && VersionFromDict(d[p]).Some?
      ensures Peer in r.acks && p in r.acks[Peer] && r.acks[Peer][p] == VersionFromDict(d[p]).value
    {
      var i :| 0 <= i < |keys| && keys[i] == p;
    }
  }

  // ---------------------------------------------------------------------------
  // Pending acknowledgements and their flush.

  /** `recordAckForEntry`: append, and (re)schedule the flush. */
  function RecordAckSpec(w: World, e: StateEntry): World {
    w.(pending := w.pending + [e], flushScheduled := true)
  }

  /** The ack map of `flushAcks`: each pending entry writes `{ts, r}` under its path, in
      order, so the later entry wins for a duplicated path. */
  function AckMap(es: seq<StateEntry>): map<string, Json>
    decreases |es|
  {
    if |es| == 0 then map[]
    else AckMap(es[..|es| - 1])[es[|es| - 1].path := VersionToDict(es[|es| - 1].version)]
  }

  /** The ack map has exactly the paths of the pending entries. */
  lemma {:induction false} AckMapKeys(es: seq<StateEntry>)
    ensures forall p :: p in AckMap(es) <==> exists i :: 0 <= i < |es| && es[i].path == p
    decreases |es|
  {
    if |es| > 0 {
      var init := es[..|es| - 1];
      AckMapKeys(init);
      forall p | (exists i :: 0 <= i < |es| && es[i].path == p)
        ensures p in AckMap(es)
      {
        var i :| 0 <= i < |es| && es[i].path == p;
        if i < |es| - 1 { assert init[i] == es[i]; }
      }
      forall p | p in AckMap(init)
        ensures exists i :: 0 <= i < |es| && es[i].path == p
      {
        var i :| 0 <= i < |init| && init[i].path == p;
        assert es[i] == init[i];
      }
    }
  }

  /** For a path appended more than once, the last appended entry's version is the one sent. */
  lemma {:induction false} AckMapLastWins(es: seq<StateEntry>, i: int)
    requires 0 <= i < |es|
    requires forall j :: i < j < |es| ==> es[j].path != es[i].path
    ensures es[i].path in AckMap(es) && AckMap(es)[es[i].path] == VersionToDict(es[i].version)
    decreases |es|
  {
    if i < |es| - 1 {
      var init := es[..|es| - 1];
      assert init[i] == es[i];
      forall j | i < j < |init| ensures init[j].path != init[i].path { assert init[j] == es[j]; }
      AckMapLastWins(init, i);
    }
  }

  /** The ack message of `sendAckViaMessage`. */
  function StateAckMessage(ackMap: map<string, Json>): Json {
    JObj(map[KeyType := JStr(TypeStateAck), KeyAck := JObj(ackMap)])
  }

  /** `flushAcks`: the pending list is taken and cleared, and nothing is sent when it was
      empty. Otherwise, with a paired session, the ack map goes into the application context as
      JSON text, or as a `stateAck` message when every attempt fails; without a paired session
      nothing is sent. The UUID of the key is not modelled. */
  function FlushSpec(base: string, env: Env, w: World): World {
    var w1 := w.(pending := [], flushScheduled := false);
    if |w.pending| == 0 || !env.link.paired then w1
    else if env.link.contextAccepted then
      w1.(outbox := w1.outbox + [Context(base + AckPrefix, JStr(env.serialize(JObj(AckMap(w.pending)))))])
    else w1.(outbox := w1.outbox + [Message(StateAckMessage(AckMap(w.pending)))])
  }

  /** A flush drains the pending list, sends at most one item and nothing for an empty list,
      and leaves the store alone. */
  lemma FlushDrains(base: string, env: Env, w: World)
    ensures var r := FlushSpec(base, env, w);
            && r.pending == [] && !r.flushScheduled
            && r.entries == w.entries && r.acks == w.acks && r.posted == w.posted
            && (|w.pending| == 0 ==> r.outbox == w.outbox)
            && (|w.pending| > 0 && env.link.paired ==> |r.outbox| == |w.outbox| + 1)
            && r.outbox[..|w.outbox|] == w.outbox && |r.outbox| <= |w.outbox| + 1
  {
    var r := FlushSpec(base, env, w);
    assert r.outbox[..|w.outbox|] == w.outbox;
  }

  /** An acknowledgement the phone flushes reaches the peer, by either route, as a record of
      the last version appended for the path under "peer". */
  lemma FlushedAcksArriveUnderPeer(env: Env, w: World, es: seq<StateEntry>, i: int)
    requires 0 <= i < |es| && IsInt64(es[i].version.ts)
    requires forall j :: i < j < |es| ==> es[j].path != es[i].path
    requires Enumerates(env.dictOrder(AckMap(es)), AckMap(es))
    ensures var r := AckDictSpec(env, w, AckMap(es));
            Peer in r.acks && es[i].path in r.acks[Peer] && r.acks[Peer][es[i].path] == es[i].version
  {
    AckMapLastWins(es, i);
    AckDictRecordsUnderPeer(env, w, AckMap(es));
  }

  // ---------------------------------------------------------------------------
  // Routing.

  datatype Channel = OpChannel | SnapshotChannel | AckChannel | RequestChannel | NoChannel

  /** The key tests of `handleApplicationContext`, in order. */
  function ContextChannel(base: string, k: string): Channel {
    if StartsWith(k, base + OpPrefix) then OpChannel
    else if StartsWith(k, base + SnapshotPrefix) then SnapshotChannel
    else if StartsWith(k, base + AckPrefix) then AckChannel
    else if Contains(k, RequestPart) then RequestChannel
    else NoChannel
  }

  /** One key of the application context: an op dictionary is processed; a snapshot must be
      JSON text of a dictionary; an ack is JSON text of a dictionary or a dictionary; a request
      dictionary triggers a snapshot iff its `type` is "requestSnapshot"; other keys are
      ignored. */
  function ContextItemSpec(base: string, env: Env, w: World, k: string, v: Json, now: int): World {
    match ContextChannel(base, k)
    case OpChannel => if v.JObj? then OpSpec(w, v.fields) else w
    case SnapshotChannel =>
      (match v
       case JStr(s) => (match env.parse(s) case Some(JObj(d)) => ApplySnapshotDictSpec(env, w, d, now) case _ => w)
       case _ => w)
    case AckChannel =>
      (match v
       case JStr(s) => (match env.parse(s) case Some(JObj(d)) => AckDictSpec(env, w, d) case _ => w)
       case JObj(d) => AckDictSpec(env, w, d)
       case _ => w)
    case RequestChannel => if Field(v, KeyType) == Some(JStr(TypeRequestSnapshot)) then SendSnapshotSpec(base, env, w) else w
    case NoChannel => w
  }

  /** The loop of `handleApplicationContext` over `keys`. */
  function ContextSteps(base: string, env: Env, w: World, ctx: map<string, Json>, keys: seq<string>, now: int): World
    decreases |keys|
  {
    if |keys| == 0 then w
    else
      var w1 := if keys[0] in ctx then ContextItemSpec(base, env, w, keys[0], ctx[keys[0]], now) else w;
      ContextSteps(base, env, w1, ctx, keys[1..], now)
  }

  /** `handleApplicationContext`, visiting the context in its iteration order. */
  function ContextSpec(base: string, env: Env, w: World, ctx: map<string, Json>, now: int): World {
    ContextSteps(base, env, w, ctx, env.dictOrder(ctx), now)
  }

  /** Each kind of key the protocol writes under the base path goes to its own handler,
      whatever the base path (unlike the Android test `contains("/op")`, the op test is
      anchored at the base path); the request test also accepts any key with "/request/". */
  lemma ContextRoutesProtocolKeys(base: string, id: string)
    ensures ContextChannel(base, base + OpPrefix + id) == OpChannel
    ensures ContextChannel(base, base + SnapshotPrefix + id) == SnapshotChannel
    ensures ContextChannel(base, base + AckPrefix + id) == AckChannel
    ensures ContextChannel(base, base + RequestPart + id) == RequestChannel
  {
    var n := |base|;
    assert (base + OpPrefix + id)[..n + 4] == base + OpPrefix;
    var snap := base + SnapshotPrefix + id;
    assert snap[..n + 10] == base + SnapshotPrefix;
    assert snap[n + 1] == 's' && (base + OpPrefix)[n + 1] == 'o';
    var ack := base + AckPrefix + id;
    assert ack[..n + 5] == base + AckPrefix;
    assert ack[n + 1] == 'a';
    var req := base + RequestPart + id;
    assert req[n + 1] == 'r';
    assert req[..n] + RequestPart + req[n + 9..] == req;
    ContainsAt(req[..n], RequestPart, req[n + 9..]);
  }

  lemma {:induction false} ContainsAt(pre: string, part: string, post: string)
    ensures Contains(pre + part + post, part)
    decreases |pre|
  {
    var s := pre + part + post;
    if |pre| == 0 {
      assert s[..|part|] == part;
    } else {
      ContainsAt(pre[1..], part, post);
      assert s[1..] == pre[1..] + part + post;
    }
  }

  /** Keys that match none of the tests are ignored. */
  lemma {:induction false} OtherKeysIgnored(base: string, env: Env, w: World, ctx: map<string, Json>, keys: seq<string>, now: int)
    requires forall k :: k in ctx ==> ContextChannel(base, k) == NoChannel
    ensures ContextSteps(base, env, w, ctx, keys, now) == w
    decreases |keys|
  {
    if |keys| > 0 {
      OtherKeysIgnored(base, env, w, ctx, keys[1..], now);
    }
  }

  /** `handleMessage`: dispatch on a string `type`; a message without one, an unknown type, or
      a missing dictionary payload is ignored. */
  function MessageSpec(base: string, env: Env, w: World, message: map<string, Json>, now: int): World {
    var m := JObj(message);
    match Field(m, KeyType)
    case Some(JStr(t)) =>
      if t == TypeStateOp then (match Field(m, KeyOp) case Some(JObj(p)) => OpSpec(w, p) case _ => w)
      else if t == TypeStateAck then (match Field(m, KeyAck) case Some(JObj(d)) => AckDictSpec(env, w, d) case _ => w)
      else if t == TypeStateSnapshot then
        (match Field(m, KeySnapshot) case Some(JObj(d)) => ApplySnapshotDictSpec(env, w, d, now) case _ => w)
      else if t == TypeRequestSnapshot then SendSnapshotSpec(base, env, w)
      else w
    case _ => w
  }

  /** The iteration order of a one-key dictionary is that key. */
  lemma SingleKeyOrder<T>(order: seq<string>, k: string, v: T)
    requires Enumerates(order, map[k := v])
    ensures order == [k]
  {
    var ctx := map[k := v];
    EnumeratedAreKeys(order, ctx);
    assert |order| == 1 by {
      assert |multiset(order)| == |order|;
      assert |multiset(ctx.Keys)| == |ctx.Keys| == 1;
    }
  }

  /** An operation has the same effect on the receiver whichever route `setPath` sent it by:
      under its key in the application context, or as a `stateOp` message. */
  lemma OpRoutesAgree(base: string, env: Env, w: World, opId: string, p: map<string, Json>, now: int)
    requires Enumerates(env.dictOrder(map[base + OpPrefix + opId := JObj(p)]), map[base + OpPrefix + opId := JObj(p)])
    ensures ContextSpec(base, env, w, map[base + OpPrefix + opId := JObj(p)], now) == OpSpec(w, p)
    ensures MessageSpec(base, env, w, StateOpMessage(p).fields, now) == OpSpec(w, p)
  {
    OpViaContext(base, env, w, opId, p, now);
    var m := StateOpMessage(p);
    assert Field(m, KeyType) == Some(JStr(TypeStateOp)) && Field(m, KeyOp) == Some(JObj(p));
  }

  lemma OpViaContext(base: string, env: Env, w: World, opId: string, p: map<string, Json>, now: int)
    requires Enumerates(env.dictOrder(map[base + OpPrefix + opId := JObj(p)]), map[base + OpPrefix + opId := JObj(p)])
    ensures ContextSpec(base, env, w, map[base + OpPrefix + opId := JObj(p)], now) == OpSpec(w, p)
  {
    var k := base + OpPrefix + opId;
    var ctx := map[k := JObj(p)];
    var keys := env.dictOrder(ctx);
    ContextRoutesProtocolKeys(base, opId);
    SingleKeyOrder(keys, k, ctx[k]);
    assert keys[1..] == [];
    assert ContextItemSpec(base, env, w, k, JObj(p), now) == OpSpec(w, p);
    assert ContextSteps(base, env, w, ctx, keys, now) == ContextSteps(base, env, OpSpec(w, p), ctx, [], now);
  }

  /** An ack map has the same effect on the receiver whichever route `flushAcks` sent it by,
      when the JSON text reads back as the map it was written from. */
  lemma AckRoutesAgree(base: string, env: Env, w: World, ackId: string, ackMap: map<string, Json>, now: int)
    requires env.parse(env.serialize(JObj(ackMap))) == Some(JObj(ackMap))
    ensures var ctx := map[base + AckPrefix + ackId := JStr(env.serialize(JObj(ackMap)))];
            Enumerates(env.dictOrder(ctx), ctx) ==> ContextSpec(base, env, w, ctx, now) == AckDictSpec(env, w, ackMap)
    ensures MessageSpec(base, env, w, StateAckMessage(ackMap).fields, now) == AckDictSpec(env, w, ackMap)
  {
    var k := base + AckPrefix + ackId;
    var ctx := map[k := JStr(env.serialize(JObj(ackMap)))];
    var keys := env.dictOrder(ctx);
    ContextRoutesProtocolKeys(base, ackId);
    if Enumerates(keys, ctx) {
      SingleKeyOrder(keys, k, ctx[k]);
      assert keys[1..] == [];
      assert ContextItemSpec(base, env, w, k, ctx[k], now) == AckDictSpec(env, w, ackMap);
      assert ContextSteps(base, env, w, ctx, keys, now) == ContextSteps(base, env, AckDictSpec(env, w, ackMap), ctx, [], now);
    }
    var m := StateAckMessage(ackMap);
    assert Field(m, KeyType) == Some(JStr(TypeStateAck)) && Field(m, KeyAck) == Some(JObj(ackMap));
  }

  // ---------------------------------------------------------------------------
  // The sync object.

  class StateSync {
    /** `basePath`: the configured path followed by "/state". */
    const base: string
    const store: StateStore
    var pending: seq<StateEntry>
    var flushScheduled: bool
    var posted: seq<Notice>
    var outbox: seq<Outgoing>

    function State(): World
      reads this, store
    {
      World(store.entries, store.peerAcks, store.replicaId, store.storedReplicaId, store.notices,
            pending, flushScheduled, posted, outbox)
    }

    /** `init`; the session and the notification observers are not modelled. */
    constructor (store: StateStore, configuredPath: string)
      ensures base == configuredPath + StateSegment && this.store == store
      ensures pending == [] && !flushScheduled && posted == [] && outbox == []
    {
      this.store := store;
      base := configuredPath + StateSegment;
      pending := [];
      flushScheduled := false;
      posted := [];
      outbox := [];
    }

    /** `setPath`; `now` is the clock reading, `opId` and `opTs` the operation's UUID and time. */
    method SetPath(path: string, value: Option<Json>, now: int, opId: string, opTs: int, link: Link)
      modifies this, store
      ensures State() == SetPathSpec(base, link, old(State()), path, value, now, opId, opTs)
    {
      var version := store.NextLocalVersion(now);
      var entry := StateEntry(path, value.None?, version, value);
      var changed := store.ApplyEntry(entry);
      posted := posted + [Notice(path, value.None?, value)];
      var opKey := base + OpPrefix + opId;
      var payload := map[KeyType := JStr(if value.None? then TypeDel else TypePut), KeyPath := JStr(path),
                         KeyVersion := VersionToDict(version), KeyOpId := JStr(opId), KeyTs := JNum(opTs)];
      if value.Some? {
        payload := payload[KeyValue := value.value];
      }
      if !link.connectivityEnabled {
        return;
      }
      if link.paired && link.contextAccepted {
        outbox := outbox + [Context(opKey, JObj(payload))];
      } else {
        SendOpViaMessage(payload);
      }
    }

    /** `sendOpViaMessage`. */
    method SendOpViaMessage(payload: map<string, Json>)
      modifies this
      ensures State() == old(State()).(outbox := old(outbox) + [Message(StateOpMessage(payload))])
    {
      outbox := outbox + [Message(JObj(map[KeyType := JStr(TypeStateOp), KeyOp := JObj(payload)]))];
    }

    /** `sendSnapshot`. */
    method SendSnapshot(env: Env)
      modifies this
      ensures State() == SendSnapshotSpec(base, env, old(State()))
    {
      var snapshot := BuildSnapshot(env.entryOrder(store.entries));
      if env.link.paired && env.link.contextAccepted {
        outbox := outbox + [Context(base + SnapshotPrefix, JStr(env.serialize(JObj(snapshot))))];
      }
    }

    /** The `for entry in store.getAllEntries()` loop of `sendSnapshot`, visiting `keys`. */
    method BuildSnapshot(keys: seq<string>) returns (snapshot: map<string, Json>)
      ensures snapshot == SnapshotDictOf(store.entries, keys)
    {
      snapshot := map[];
      var i := 0;
      while i < |keys|
        invariant 0 <= i <= |keys|
        invariant snapshot == SnapshotDictOf(store.entries, keys[..i])
      {
        assert keys[..i + 1][..i] == keys[..i];
        var k := keys[i];
        if k in store.entries && !store.entries[k].tombstone {
          var entry := store.entries[k];
          var item := map[KeyVersion := VersionToDict(entry.version)];
          if entry.value.Some? {
            item := item[KeyValue := entry.value.value];
          }
          snapshot := snapshot[entry.path := JObj(item)];
        }
        i := i + 1;
      }
      assert keys[..i] == keys;
    }

    /** `handleApplicationContext`. */
    method HandleApplicationContext(context: map<string, Json>, env: Env, now: int)
      modifies this, store
      ensures State() == ContextSpec(base, env, old(State()), context, now)
    {
      var keys := env.dictOrder(context);
      var i := 0;
      while i < |keys|
        invariant 0 <= i <= |keys|
        invariant ContextSpec(base, env, old(State()), context, now) == ContextSteps(base, env, State(), context, keys[i..], now)
      {
        assert keys[i..][0] == keys[i] && keys[i..][1..] == keys[i + 1..];
        var k := keys[i];
        if k in context {
          HandleContextItem(k, context[k], env, now);
        }
        i := i + 1;
      }
    }

    /** The body of the `for (k, v) in context` loop. */
    method HandleContextItem(k: string, v: Json, env: Env, now: int)
      modifies this, store
      ensures State() == ContextItemSpec(base, env, old(State()), k, v, now)
    {
      if StartsWith(k, base + OpPrefix) {
        if v.JObj? {
          ProcessOpPayload(v.fields);
        }
      } else if StartsWith(k, base + SnapshotPrefix) {
        if v.JStr? {
          var obj := env.parse(v.s);
          if obj.Some? && obj.value.JObj? {
            ApplySnapshotDict(obj.value.fields, env, now);
          }
        }
      } else if StartsWith(k, base + AckPrefix) {
        if v.JStr? {
          var obj := env.parse(v.s);
          if obj.Some? && obj.value.JObj? {
            ProcessAckDict(obj.value.fields, env);
          }
        } else if v.JObj? {
          ProcessAckDict(v.fields, env);
        }
      } else if Contains(k, RequestPart) {
        if v.JObj? && KeyType in v.fields && v.fields[KeyType] == JStr(TypeRequestSnapshot) {
          HandleSnapshotRequest(env);
        }
      }
    }

    /** `handleMessage`. */
    method HandleMessage(message: map<string, Json>, env: Env, now: int)
      modifies this, store
      ensures State() == MessageSpec(base, env, old(State()), message, now)
    {
      if !(KeyType in message && message[KeyType].JStr?) {
        return;
      }
      var t := message[KeyType].s;
      if t == TypeStateOp {
        if KeyOp in message && message[KeyOp].JObj? {
          ProcessOpPayload(message[KeyOp].fields);
        }
      } else if t == TypeStateAck {
        if KeyAck in message && message[KeyAck].JObj? {
          ProcessAckDict(message[KeyAck].fields, env);
        }
      } else if t == TypeStateSnapshot {
        if KeySnapshot in message && message[KeySnapshot].JObj? {
          ApplySnapshotDict(message[KeySnapshot].fields, env, now);
        }
      } else if t == TypeRequestSnapshot {
        HandleSnapshotRequest(env);
      }
    }

    /** `recordAckForEntry`, with `scheduleAckFlush`. */
    method RecordAckForEntry(entry: StateEntry)
      modifies this
      ensures State() == RecordAckSpec(old(State()), entry)
    {
      pending := pending + [entry];
      flushScheduled := true;
    }

    /** `flushAcks`: the step the debounce work item runs. */
    method FlushAcks(env: Env)
      modifies this
      ensures State() == FlushSpec(base, env, old(State()))
    {
      var toSend := pending;
      pending := [];
      flushScheduled := false;
      if |toSend| == 0 {
        return;
      }
      var ackMap := BuildAckMap(toSend);
      if !env.link.paired {
        return;
      }
      if env.link.contextAccepted {
        outbox := outbox + [Context(base + AckPrefix, JStr(env.serialize(JObj(ackMap))))];
      } else {
        SendAckViaMessage(ackMap);
      }
    }

    /** `sendAckViaMessage`. */
    method SendAckViaMessage(ackMap: map<string, Json>)
      modifies this
      ensures State() == old(State()).(outbox := old(outbox) + [Message(StateAckMessage(ackMap))])
    {
      outbox := outbox + [Message(JObj(map[KeyType := JStr(TypeStateAck), KeyAck := JObj(ackMap)]))];
    }

    /** `processAckDict`. */
    method ProcessAckDict(dict: map<string, Json>, env: Env)
      modifies store
      ensures State() == AckDictSpec(env, old(State()), dict)
    {
      var keys := env.dictOrder(dict);
      var i := 0;
      while i < |keys|
        invariant 0 <= i <= |keys|
        invariant store.entries == old(store.entries) && store.replicaId == old(store.replicaId)
        invariant store.storedReplicaId == old(store.storedReplicaId) && store.notices == old(store.notices)
        invariant AckDictSteps(old(store.peerAcks), dict, keys) == AckDictSteps(store.peerAcks, dict, keys[i..])
      {
        assert keys[i..][0] == keys[i] && keys[i..][1..] == keys[i + 1..];
        var path := keys[i];
        if path in dict {
          var version := VersionFromDict(dict[path]);
          if version.Some? {
            store.RecordPeerSeen(Peer, path, version.value);
          }
        }
        i := i + 1;
      }
      store.GcAcknowledgedTombstones(Peer);
    }

    /** `applySnapshotDict`; `now` is the clock reading behind the fallback version. */
    method ApplySnapshotDict(dict: map<string, Json>, env: Env, now: int)
      modifies store
      ensures State() == ApplySnapshotDictSpec(env, old(State()), dict, now)
    {
      var keys := env.dictOrder(dict);
      var i := 0;
      while i < |keys|
        invariant 0 <= i <= |keys|
        invariant ApplySnapshotDictSpec(env, old(State()), dict, now) == SnapshotDictSteps(State(), dict, keys[i..], now)
      {
        assert keys[i..][0] == keys[i] && keys[i..][1..] == keys[i + 1..];
        var path := keys[i];
        if path in dict && dict[path].JObj? {
          var item := dict[path];
          var value := Field(item, KeyValue);
          var versionDict := Field(item, KeyVersion);
          var version: Version;
          if versionDict.Some? && VersionFromDict(versionDict.value).Some? {
            version := VersionFromDict(versionDict.value).value;
          } else {
            version := store.NextLocalVersion(now);
          }
          var entry := StateEntry(path, false, version, value);
          var changed := store.ApplyEntry(entry);
        }
        i := i + 1;
      }
    }

    /** `processOpPayload`. */
    method ProcessOpPayload(payload: map<string, Json>)
      modifies store
      ensures State() == OpSpec(old(State()), payload)
    {
      if !(KeyType in payload && payload[KeyType].JStr? && KeyPath in payload && payload[KeyPath].JStr? && KeyVersion in payload) {
        return;
      }
      var version := VersionFromDict(payload[KeyVersion]);
      if version.None? {
        return;
      }
      var value := if KeyValue in payload then Some(payload[KeyValue]) else None;
      var entry := StateEntry(payload[KeyPath].s, payload[KeyType].s == TypeDel, version.value, value);
      var changed := store.ApplyEntry(entry);
    }

    /** `handleSnapshotRequest`. */
    method HandleSnapshotRequest(env: Env)
      modifies this
      ensures State() == SendSnapshotSpec(base, env, old(State()))
    {
      SendSnapshot(env);
    }
  }

  /** The `for e in toSend` loop of `flushAcks`. */
  method BuildAckMap(es: seq<StateEntry>) returns (ackMap: map<string, Json>)
    ensures ackMap == AckMap(es)
  {
    ackMap := map[];
    var i := 0;
    while i < |es|
      invariant 0 <= i <= |es|
      invariant ackMap == AckMap(es[..i])
    {
      assert es[..i + 1][..i] == es[..i];
      ackMap := ackMap[es[i].path := VersionToDict(es[i].version)];
      i := i + 1;
    }
    assert es[..i] == es;
  }
}
