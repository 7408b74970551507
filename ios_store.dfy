/** The iOS store (StateStore.swift): a dictionary of LWW entries under normalised paths, the
    peer-acknowledgement table, tombstone collection, the one-time replica-id migration with the
    duplicate-path cleanup, and materialisation through `mergeValues`. Where the source iterates
    a Swift dictionary, whose order is unspecified, the order is a parameter. */
module IosStore {
  import opened Json
  import opened Text
  import opened IosModels
  import IosMerge

  const PhoneReplicaId := "phone"

  // ---------------------------------------------------------------------------
  // Path normalisation.

  /** `normalizePath`: every leading '/' removed, unless nothing would be left. */
  function Normalize(path: string): (r: string)
    ensures |r| <= |path|
    ensures |r| > 0 && r[0] == '/' ==> r == path
  {
    TrimLeadingSlashesFacts(path);
    var stripped := TrimLeadingSlashes(path);
    if stripped == "" then path else stripped
  }

  /** `normalizePath` as written: a loop removing one '/' at a time. */
  method NormalizePath(path: string) returns (r: string)
    ensures r == Normalize(path)
  {
    var normalized := path;
    while |normalized| > 0 && normalized[0] == '/'
      invariant TrimLeadingSlashes(normalized) == TrimLeadingSlashes(path)
      decreases |normalized|
    {
      normalized := normalized[1..];
    }
    if |normalized| == 0 { return path; }
    return normalized;
  }

  /** Normalising twice is normalising once. */
  lemma NormalizeIdempotent(path: string)
    ensures Normalize(Normalize(path)) == Normalize(path)
  {
    TrimLeadingSlashesFacts(path);
    var s := TrimLeadingSlashes(path);
    if s == "" {
      assert Normalize(path) == path;
    } else {
      assert TrimLeadingSlashes(s) == s;
    }
  }

  /** A path of slashes only is kept; any other path loses exactly its leading slashes. */
  lemma NormalizeStripsLeadingSlashes(path: string)
    ensures (forall i :: 0 <= i < |path| ==> path[i] == '/') ==> Normalize(path) == path
    ensures (exists i :: 0 <= i < |path| && path[i] != '/') ==>
              var r := Normalize(path);
              && |r| > 0 && r[0] != '/'
              && r == path[|path| - |r|..]
              && forall i :: 0 <= i < |path| - |r| ==> path[i] == '/'
  {
    TrimLeadingSlashesFacts(path);
    var r := TrimLeadingSlashes(path);
    if r == "" {
      assert forall i :: 0 <= i < |path| ==> path[i] == '/';
    }
  }

  /** "a", "/a" and "//a" name one key; "/" and "" are kept as they are. */
  lemma NormalizeExamples()
    ensures Normalize("a") == Normalize("/a") == Normalize("//a") == "a"
    ensures Normalize("/") == "/" && Normalize("") == "" && Normalize("//") == "//"
  {
    assert "/a"[1..] == "a" && "//a"[1..] == "/a";
    assert "//"[1..] == "/" && "/"[1..] == "";
    assert TrimLeadingSlashes("a") == "a";
  }

  /** Any number of extra leading slashes normalise away. */
  lemma {:induction false} NormalizeSlashPrefix(path: string)
    ensures Normalize("/" + path) == Normalize(path) || (TrimLeadingSlashes(path) == "" && Normalize("/" + path) == "/" + path)
  {
    assert ("/" + path)[1..] == path;
  }

  // ---------------------------------------------------------------------------
  // Entries.

  type Entries = map<string, StateEntry>
  type PeerAcks = map<string, map<string, Version>>

  /** The `WearableStateChanged` notification the store posts: the normalised key, the
      tombstone flag and the value (`None` for NSNull). */
  datatype Notice = Notice(path: string, tombstone: bool, value: Option<Json>)

  datatype Applied = Applied(entries: Entries, changed: bool)

  /** `applyEntry` on the dictionary: the entry wins iff its key is free or the existing version
      is below the new one; it is then stored, with its original path, under the normalised key. */
  function ApplySpec(m: Entries, e: StateEntry): (a: Applied)
    ensures var key := Normalize(e.path);
            a.changed <==> key !in m || Less(m[key].version, e.version)
    ensures a.changed ==> a.entries == m[Normalize(e.path) := e]
    ensures !a.changed ==> a.entries == m
  {
    var key := Normalize(e.path);
    if key in m then
      if Less(m[key].version, e.version) then Applied(m[key := e], true) else Applied(m, false)
    else Applied(m[key := e], true)
  }

  /** The second application of an entry changes nothing. */
  lemma ApplyIdempotent(m: Entries, e: StateEntry)
    ensures !ApplySpec(ApplySpec(m, e).entries, e).changed
  {
    var once := ApplySpec(m, e);
    var key := Normalize(e.path);
    LessIrreflexive(e.version);
    if !once.changed {
      assert key in m && !Less(m[key].version, e.version);
    }
  }

  /** Two entries for one key with different versions end in the same store in either order. */
  lemma ApplyCommutes(m: Entries, e1: StateEntry, e2: StateEntry)
    requires Normalize(e1.path) == Normalize(e2.path)
    requires e1.version != e2.version
    ensures ApplySpec(ApplySpec(m, e1).entries, e2).entries == ApplySpec(ApplySpec(m, e2).entries, e1).entries
  {
    var key := Normalize(e1.path);
    LessTrichotomy(e1.version, e2.version);
    if key in m {
      var v0 := m[key].version;
      if Less(v0, e1.version) && Less(e1.version, e2.version) { LessTransitive(v0, e1.version, e2.version); }
      if Less(v0, e2.version) && Less(e2.version, e1.version) { LessTransitive(v0, e2.version, e1.version); }
      if !Less(v0, e1.version) && Less(e1.version, e2.version) && Less(v0, e2.version) {
        LessTrichotomy(v0, e1.version);
      }
    }
  }

  /** "a" and "/a" are written to the same key. */
  lemma SlashedAndPlainCollide(m: Entries, e: StateEntry)
    requires |e.path| > 0 && e.path[0] != '/'
    ensures ApplySpec(m, e).changed == ApplySpec(m, e.(path := "/" + e.path)).changed
    ensures ApplySpec(m, e.(path := "/" + e.path)).entries.Keys == ApplySpec(m, e).entries.Keys
  {
    assert ("/" + e.path)[1..] == e.path;
    assert TrimLeadingSlashes(e.path) == e.path;
  }

  /** `getValueAtPath`: nothing for a missing or tombstoned key, or an entry without a value. */
  function ValueAt(m: Entries, path: string): (r: Option<Json>)
    ensures r.Some? <==> Normalize(path) in m && !m[Normalize(path)].tombstone && m[Normalize(path)].value.Some?
    ensures r.Some? ==> r == m[Normalize(path)].value
  {
    var key := Normalize(path);
    if key in m && !m[key].tombstone then m[key].value else None
  }

  /** `hasPath`: an entry exists and is not a tombstone. */
  function HasPathSpec(m: Entries, path: string): (r: bool)
    ensures r <==> Normalize(path) in m && !m[Normalize(path)].tombstone
  {
    var key := Normalize(path);
    key in m && !m[key].tombstone
  }

  /** Reading back a write that won: a live entry shows its value, a tombstone shows nothing. */
  lemma ApplyThenRead(m: Entries, e: StateEntry)
    requires ApplySpec(m, e).changed
    ensures ValueAt(ApplySpec(m, e).entries, e.path) == if e.tombstone then None else e.value
    ensures HasPathSpec(ApplySpec(m, e).entries, e.path) == !e.tombstone
  {
  }

  /** A value is only ever read at a path that `hasPath` reports. */
  lemma ValueImpliesHasPath(m: Entries, path: string)
    ensures ValueAt(m, path).Some? ==> HasPathSpec(m, path)
    ensures HasPathSpec(m, path) && m[Normalize(path)].value.Some? ==> ValueAt(m, path).Some?
  {
  }

  // ---------------------------------------------------------------------------
  // Peer acknowledgements, recorded under the path exactly as given.

  function RecordSpec(acks: PeerAcks, peer: string, path: string, v: Version): (r: PeerAcks)
    ensures peer in r && path in r[peer] && r[peer][path] == v
    ensures forall q :: q != peer ==> (q in r <==> q in acks) && (q in acks ==> r[q] == acks[q])
    ensures forall p :: p != path && peer in acks && p in acks[peer] ==> p in r[peer] && r[peer][p] == acks[peer][p]
  {
    var m := if peer in acks then acks[peer] else map[];
    acks[peer := m[path := v]]
  }

  /** `hasPeerSeen`: the acknowledged version is not below the query. */
  predicate HasPeerSeenSpec(acks: PeerAcks, peer: string, path: string, v: Version) {
    peer in acks && path in acks[peer] && !Less(acks[peer][path], v)
  }

  /** After a record the peer has seen exactly the versions not above the recorded one; an older
      record replaces a newer one. */
  lemma RecordThenHasPeerSeen(acks: PeerAcks, peer: string, path: string, v: Version, w: Version)
    ensures HasPeerSeenSpec(RecordSpec(acks, peer, path, v), peer, path, w) <==> !Less(v, w)
    ensures Less(w, v) ==> !HasPeerSeenSpec(RecordSpec(RecordSpec(acks, peer, path, v), peer, path, w), peer, path, v)
  {
  }

  /** A peer that has seen a version has seen every older one. */
  lemma HasPeerSeenCoversOlder(acks: PeerAcks, peer: string, path: string, v: Version)
    requires HasPeerSeenSpec(acks, peer, path, v)
    ensures forall w :: !Less(v, w) ==> HasPeerSeenSpec(acks, peer, path, w)
  {
    var seen := acks[peer][path];
    forall w | !Less(v, w) ensures !Less(seen, w) {
      LessTrichotomy(seen, v);
      LessTrichotomy(v, w);
      LessTrichotomy(seen, w);
      if Less(seen, w) && v != w && seen != v {
        LessTransitive(v, seen, w);
      }
    }
  }

  /** Acknowledgements are not normalised: one recorded for "/a" does not count for "a". */
  lemma AckUnderSlashedPathMisses(acks: PeerAcks, peer: string, v: Version)
    requires peer !in acks
    ensures !HasPeerSeenSpec(RecordSpec(acks, peer, "/a", v), peer, "a", v)
  {
    assert "/a" != "a";
  }

  // ---------------------------------------------------------------------------
  // Tombstone collection.

  predicate Collectable(m: Entries, acks: PeerAcks, peer: string, key: string)
    requires key in m
  {
    m[key].tombstone && HasPeerSeenSpec(acks, peer, key, m[key].version)
  }

  /** `gcAcknowledgedTombstones`: the tombstones whose key the peer acknowledged at a version
      not below theirs are dropped; every other entry stays as it was. */
  function GcSpec(m: Entries, acks: PeerAcks, peer: string): (r: Entries)
    ensures forall k :: k in r <==> k in m && !Collectable(m, acks, peer, k)
    ensures forall k :: k in r ==> r[k] == m[k]
    ensures forall k :: k in m && !m[k].tombstone ==> k in r
  {
    map k | k in m && !Collectable(m, acks, peer, k) :: m[k]
  }

  /** A tombstone acknowledged at its own version is collected. */
  lemma RecordThenGc(m: Entries, acks: PeerAcks, peer: string, key: string)
    requires key in m && m[key].tombstone
    ensures key !in GcSpec(m, RecordSpec(acks, peer, key, m[key].version), peer)
  {
    LessIrreflexive(m[key].version);
  }

  // ---------------------------------------------------------------------------
  // Duplicate-path cleanup.

  /** The keys of a dictionary listed once each, in its iteration order. */
  ghost predicate Enumerates<T>(order: seq<string>, keys: map<string, T>) {
    multiset(order) == multiset(keys.Keys)
  }

  lemma EnumeratedAreKeys<T>(order: seq<string>, keys: map<string, T>)
    requires Enumerates(order, keys)
    ensures forall i :: 0 <= i < |order| ==> order[i] in keys
  {
    forall i | 0 <= i < |order| ensures order[i] in keys {
      assert order[i] in multiset(order);
    }
  }

  lemma KeysAreEnumerated<T>(order: seq<string>, keys: map<string, T>)
    requires Enumerates(order, keys)
    ensures forall k :: k in keys ==> k in order
  {
    forall k | k in keys ensures k in order {
      assert k in multiset(keys.Keys);
    }
  }

  /** One iteration of `cleanupDuplicatePaths`: keep the strictly newer entry per normalised key. */
  function CleanupStep(acc: Entries, key: string, e: StateEntry): Entries {
    var nk := Normalize(key);
    if nk in acc then (if Less(acc[nk].version, e.version) then acc[nk := e] else acc)
    else acc[nk := e]
  }

  /** The dictionary `cleanupDuplicatePaths` builds, visiting the keys in `order` (a name that is
      not a key is passed over; the iteration never produces one). */
  function CleanupFold(src: Entries, order: seq<string>): Entries {
    if |order| == 0 then map[]
    else
      var n := |order| - 1;
      var before := CleanupFold(src, order[..n]);
      if order[n] in src then CleanupStep(before, order[n], src[order[n]]) else before
  }

  lemma CleanupFoldLast(src: Entries, order: seq<string>)
    requires forall i :: 0 <= i < |order| ==> order[i] in src
    requires |order| > 0
    ensures CleanupFold(src, order) ==
              CleanupStep(CleanupFold(src, order[..|order| - 1]), order[|order| - 1], src[order[|order| - 1]])
  {
  }

  /** A bound already reached by the kept entry of a key survives a later step. */
  lemma CleanupStepKeepsBound(acc: Entries, key: string, e: StateEntry, k: string, w: Version)
    requires k in acc && !Less(acc[k].version, w)
    ensures var r := CleanupStep(acc, key, e); k in r && !Less(r[k].version, w)
  {
    var nk := Normalize(key);
    if k == nk && Less(acc[nk].version, e.version) && Less(e.version, w) {
      LessTransitive(acc[nk].version, e.version, w);
    }
  }

  /** The entry a step visits is never above the one kept for its key. */
  lemma CleanupStepBoundsVisited(acc: Entries, key: string, e: StateEntry)
    ensures var r := CleanupStep(acc, key, e); Normalize(key) in r && !Less(r[Normalize(key)].version, e.version)
  {
    LessIrreflexive(e.version);
  }

  /** Where a kept entry comes from after one step. */
  lemma CleanupStepSource(acc: Entries, key: string, e: StateEntry, k: string)
    requires k in CleanupStep(acc, key, e)
    ensures var r := CleanupStep(acc, key, e);
            (k == Normalize(key) && r[k] == e) || (k in acc && r[k] == acc[k])
  {
  }

  lemma CleanupFoldLastKeys(src: Entries, order: seq<string>)
    requires |order| > 0 && order[|order| - 1] in src
    ensures CleanupFold(src, order).Keys == CleanupFold(src, order[..|order| - 1]).Keys + {Normalize(order[|order| - 1])}
  {
  }

  lemma {:induction false} CleanupFoldCovers(src: Entries, order: seq<string>)
    requires forall i :: 0 <= i < |order| ==> order[i] in src
    ensures var r := CleanupFold(src, order);
            forall i :: 0 <= i < |order| ==> Normalize(order[i]) in r
  {
    if |order| > 0 {
      var n := |order| - 1;
      var prefix := order[..n];
      CleanupFoldCovers(src, prefix);
      var r := CleanupFold(src, order);
      var acc := CleanupFold(src, prefix);
      CleanupFoldLastKeys(src, order);
      forall i | 0 <= i < n ensures Normalize(order[i]) in r {
        assert prefix[i] == order[i];
      }
    }
  }

  lemma {:induction false} CleanupFoldSources(src: Entries, order: seq<string>)
    requires forall i :: 0 <= i < |order| ==> order[i] in src
    ensures var r := CleanupFold(src, order);
            forall nk :: nk in r ==> exists i :: 0 <= i < |order| && Normalize(order[i]) == nk && r[nk] == src[order[i]]
  {
    if |order| > 0 {
      var n := |order| - 1;
      var prefix := order[..n];
      CleanupFoldSources(src, prefix);
      var acc := CleanupFold(src, prefix);
      var r := CleanupFold(src, order);
      CleanupFoldLast(src, order);
      forall k | k in r ensures exists i :: 0 <= i < |order| && Normalize(order[i]) == k && r[k] == src[order[i]] {
        CleanupStepSource(acc, order[n], src[order[n]], k);
        if k == Normalize(order[n]) && r[k] == src[order[n]] {
        } else {
          assert k in acc && r[k] == acc[k];
          var i :| 0 <= i < |prefix| && Normalize(prefix[i]) == k && acc[k] == src[prefix[i]];
          assert order[i] == prefix[i];
        }
      }
    }
  }

  lemma {:induction false} CleanupFoldMax(src: Entries, order: seq<string>)
    requires forall i :: 0 <= i < |order| ==> order[i] in src
    ensures var r := CleanupFold(src, order);
            forall i :: 0 <= i < |order| ==> Normalize(order[i]) in r && !Less(r[Normalize(order[i])].version, src[order[i]].version)
  {
    if |order| > 0 {
      var n := |order| - 1;
      var prefix := order[..n];
      CleanupFoldMax(src, prefix);
      var acc := CleanupFold(src, prefix);
      var r := CleanupFold(src, order);
      var e := src[order[n]];
      CleanupFoldLast(src, order);
      forall i | 0 <= i < |order| ensures Normalize(order[i]) in r && !Less(r[Normalize(order[i])].version, src[order[i]].version) {
        if i == n {
          CleanupStepBoundsVisited(acc, order[n], e);
        } else {
          assert prefix[i] == order[i];
          CleanupStepKeepsBound(acc, order[n], e, Normalize(order[i]), src[order[i]].version);
        }
      }
    }
  }

  /** Some key in `order` is not in normal form (`cleanupDuplicatePaths`' `changed` flag). */
  predicate AnyMoves(order: seq<string>) {
    |order| > 0 && (AnyMoves(order[..|order| - 1]) || Normalize(order[|order| - 1]) != order[|order| - 1])
  }

  lemma {:induction false} AnyMovesExists(order: seq<string>)
    ensures AnyMoves(order) <==> exists j :: 0 <= j < |order| && Normalize(order[j]) != order[j]
  {
    if |order| > 0 {
      var n := |order| - 1;
      AnyMovesExists(order[..n]);
      assert forall j :: 0 <= j < n ==> order[..n][j] == order[j];
    }
  }

  /** The flag the loop computes is "some stored key is not normal". */
  lemma AnyMovesKeys(order: seq<string>, src: Entries)
    requires Enumerates(order, src)
    ensures AnyMoves(order) <==> exists k :: k in src && Normalize(k) != k
  {
    EnumeratedAreKeys(order, src);
    KeysAreEnumerated(order, src);
    AnyMovesExists(order);
    if exists k :: k in src && Normalize(k) != k {
      var k :| k in src && Normalize(k) != k;
      var j :| 0 <= j < |order| && order[j] == k;
      assert Normalize(order[j]) != order[j];
    }
    if AnyMoves(order) {
      var j :| 0 <= j < |order| && Normalize(order[j]) != order[j];
      assert order[j] in src;
    }
  }

  /** The cleanup leaves one entry per normalised key: one of the entries stored under a key with
      that normal form, whose version no other such entry exceeds. */
  lemma CleanupKeepsGreatest(src: Entries, order: seq<string>)
    requires Enumerates(order, src)
    ensures var r := CleanupFold(src, order);
            && (forall k :: k in src ==> Normalize(k) in r)
            && (forall nk :: nk in r ==> exists k :: k in src && Normalize(k) == nk && r[nk] == src[k])
            && (forall k :: k in src ==> !Less(r[Normalize(k)].version, src[k].version))
  {
    EnumeratedAreKeys(order, src);
    KeysAreEnumerated(order, src);
    CleanupFoldCovers(src, order);
    CleanupFoldSources(src, order);
    CleanupFoldMax(src, order);
    var r := CleanupFold(src, order);
    forall k | k in src ensures Normalize(k) in r && !Less(r[Normalize(k)].version, src[k].version) {
      var i :| 0 <= i < |order| && order[i] == k;
    }
    forall nk | nk in r ensures exists k :: k in src && Normalize(k) == nk && r[nk] == src[k] {
      var i :| 0 <= i < |order| && Normalize(order[i]) == nk && r[nk] == src[order[i]];
      assert order[i] in src;
    }
  }

  /** When every key is already normal the cleanup would rebuild the same dictionary, so skipping
      it (the `changed` flag) loses nothing. */
  lemma CleanupNoopWhenNormal(src: Entries, order: seq<string>)
    requires Enumerates(order, src)
    requires forall k :: k in src ==> Normalize(k) == k
    ensures CleanupFold(src, order) == src
  {
    EnumeratedAreKeys(order, src);
    CleanupKeepsGreatest(src, order);
    var r := CleanupFold(src, order);
    forall nk | nk in r ensures nk in src && r[nk] == src[nk] {
      var k :| k in src && Normalize(k) == nk && r[nk] == src[k];
    }
    assert r.Keys == src.Keys;
  }

  // ---------------------------------------------------------------------------
  // Materialisation.

  /** The component list `materialize` passes to `mergeValues` for an entry path. */
  function Components(path: string): seq<string> {
    var p := StripOneSlash(path);
    if |p| == 0 then [] else SplitOmitEmpty(p)
  }

  /** `materialize`, visiting the entries in `order`: tombstones and value-less entries are
      skipped; every other value is merged at its path's components. */
  function MaterializeFold(m: Entries, order: seq<string>): map<string, Json> {
    if |order| == 0 then map[]
    else
      var n := |order| - 1;
      var before := MaterializeFold(m, order[..n]);
      if order[n] !in m || m[order[n]].tombstone || m[order[n]].value.None? then before
      else IosMerge.MergeSpec(before, m[order[n]].value.value, Components(m[order[n]].path))
  }

  /** Unlike Android, iOS does not sort by path length, so the dictionary order decides: a parent
      object stored after its child entry replaces it. */
  lemma MaterializeOrderDependent(v1: Version, v2: Version)
    ensures var m := map["user" := StateEntry("user", false, v1, Some(JObj(map["age" := JNum(30)]))),
                         "user/name" := StateEntry("user/name", false, v2, Some(JStr("Ada")))];
            && MaterializeFold(m, ["user", "user/name"]) == map["user" := JObj(map["age" := JNum(30), "name" := JStr("Ada")])]
            && MaterializeFold(m, ["user/name", "user"]) == map["user" := JObj(map["age" := JNum(30)])]
  {
    var m := map["user" := StateEntry("user", false, v1, Some(JObj(map["age" := JNum(30)]))),
                 "user/name" := StateEntry("user/name", false, v2, Some(JStr("Ada")))];
    ComponentsUser();
    ParentFirst(m);
    ChildFirst(m);
  }

  lemma MaterializeSnoc(m: Entries, order: seq<string>, k: string)
    requires k in m
    ensures MaterializeFold(m, order + [k]) ==
              if m[k].tombstone || m[k].value.None? then MaterializeFold(m, order)
              else IosMerge.MergeSpec(MaterializeFold(m, order), m[k].value.value, Components(m[k].path))
  {
    assert (order + [k])[..|order|] == order;
  }

  /** `materialize` merges the live entry `e`, and `key` is a top-level member that merge can
      create: the first component, or, for the root path, a member of an object value or the
      `"value"` slot. */
  predicate Contributes(e: StateEntry, key: string) {
    && !e.tombstone && e.value.Some?
    && var comps := Components(e.path);
       if |comps| == 0 then
         if e.value.value.JObj? then key in e.value.value.fields else key == IosMerge.RootValueKey
       else key == comps[0]
  }

  /** Whatever the dictionary order: a store of tombstones materialises as `{}`, and every
      top-level member of the result was put there by a live entry visited in the order. */
  lemma {:induction false} MaterializeFoldFacts(m: Entries, order: seq<string>)
    ensures (forall k :: k in order && k in m ==> m[k].tombstone) ==> MaterializeFold(m, order) == map[]
    ensures forall key :: key in MaterializeFold(m, order) ==>
              exists k :: k in order && k in m && Contributes(m[k], key)
    decreases |order|
  {
    if |order| > 0 {
      var n := |order| - 1;
      var init := order[..n];
      MaterializeFoldFacts(m, init);
      assert forall k :: k in init ==> k in order;
      assert order[n] in order;
    }
  }

  /** Whatever the dictionary order: the last live entry visited, when its path has
      components, is readable at them in the materialised document; tombstones visited after
      it do not hide it. */
  lemma {:induction false} MaterializeLastLiveVisible(m: Entries, order: seq<string>, i: nat)
    requires i < |order| && order[i] in m
    requires !m[order[i]].tombstone && m[order[i]].value.Some? && |Components(m[order[i]].path)| > 0
    requires forall j :: i < j < |order| && order[j] in m ==> m[order[j]].tombstone || m[order[j]].value.None?
    ensures IosMerge.GetAt(JObj(MaterializeFold(m, order)), Components(m[order[i]].path)) == m[order[i]].value
    decreases |order|
  {
    var n := |order| - 1;
    if i < n {
      var init := order[..n];
      forall j | i < j < |init| && init[j] in m
        ensures m[init[j]].tombstone || m[init[j]].value.None?
      {
        assert init[j] == order[j];
      }
      MaterializeLastLiveVisible(m, init, i);
      assert order[n] in m ==> m[order[n]].tombstone || m[order[n]].value.None?;
      assert MaterializeFold(m, order) == MaterializeFold(m, init);
    }
  }

  /** The two entries of the example. */
  predicate UserEntries(m: Entries) {
    && "user" in m && m["user"].path == "user" && !m["user"].tombstone
    && m["user"].value == Some(JObj(map["age" := JNum(30)]))
    && "user/name" in m && m["user/name"].path == "user/name" && !m["user/name"].tombstone
    && m["user/name"].value == Some(JStr("Ada"))
  }

  lemma UserAlone(m: Entries)
    requires UserEntries(m)
    ensures MaterializeFold(m, ["user"]) == map["user" := JObj(map["age" := JNum(30)])]
  {
    ComponentsUser();
    MaterializeSnoc(m, [], "user");
    assert [] + ["user"] == ["user"];
    MergeTopLevel(map[], JObj(map["age" := JNum(30)]), "user");
  }

  lemma NameAlone(m: Entries)
    requires UserEntries(m)
    ensures MaterializeFold(m, ["user/name"]) == map["user" := JObj(map["name" := JStr("Ada")])]
  {
    ComponentsUser();
    MaterializeSnoc(m, [], "user/name");
    assert [] + ["user/name"] == ["user/name"];
    MergeUserName(map[], map[]);
  }

  lemma ParentFirst(m: Entries)
    requires UserEntries(m)
    ensures MaterializeFold(m, ["user", "user/name"]) == map["user" := JObj(map["age" := JNum(30), "name" := JStr("Ada")])]
  {
    UserAlone(m);
    ComponentsUser();
    MaterializeSnoc(m, ["user"], "user/name");
    assert ["user"] + ["user/name"] == ["user", "user/name"];
    MergeUserName(map["user" := JObj(map["age" := JNum(30)])], map["age" := JNum(30)]);
  }

  lemma ChildFirst(m: Entries)
    requires UserEntries(m)
    ensures MaterializeFold(m, ["user/name", "user"]) == map["user" := JObj(map["age" := JNum(30)])]
  {
    var age := JObj(map["age" := JNum(30)]);
    var named := map["user" := JObj(map["name" := JStr("Ada")])];
    NameAlone(m);
    ComponentsUser();
    MaterializeSnoc(m, ["user/name"], "user");
    assert ["user/name"] + ["user"] == ["user/name", "user"];
    assert MaterializeFold(m, ["user/name", "user"]) == IosMerge.MergeSpec(named, age, ["user"]);
    MergeTopLevel(named, age, "user");
    UpdateSingleton("user", JObj(map["name" := JStr("Ada")]), age);
  }

  lemma UpdateSingleton<K, V>(k: K, a: V, b: V)
    ensures map[k := a][k := b] == map[k := b]
  {
  }

  /** A one-component write replaces that top-level key. */
  lemma MergeTopLevel(base: map<string, Json>, v: Json, k: string)
    ensures IosMerge.MergeSpec(base, v, [k]) == base[k := v]
  {
    assert IosMerge.SetAt(JObj(base), [k], v) == IosMerge.LastStep(JObj(base), k, v);
  }

  lemma ComponentsUser()
    ensures Components("user") == ["user"]
    ensures Components("user/name") == ["user", "name"]
  {
    assert '/' !in "user" && '/' !in "name";
    SplitPlain("user");
    SplitPlain("name");
    SplitAtSlash("user", "name");
    assert "user" + "/" + "name" == "user/name";
    assert OmitEmpty(["user"]) == ["user"] by { assert ["user"][1..] == []; }
    assert OmitEmpty(["name"]) == ["name"] by { assert ["name"][1..] == []; }
    assert OmitEmpty(["user", "name"]) == ["user", "name"] by { assert ["user", "name"][1..] == ["name"]; }
  }

  lemma MergeUserName(base: map<string, Json>, inner: map<string, Json>)
    requires (base == map[] && inner == map[]) || base == map["user" := JObj(inner)]
    ensures IosMerge.MergeSpec(base, JStr("Ada"), ["user", "name"]) == map["user" := JObj(inner["name" := JStr("Ada")])]
  {
    assert ["user", "name"][1..] == ["name"];
    assert IosMerge.SetAt(JObj(inner), ["name"], JStr("Ada")) == JObj(inner["name" := JStr("Ada")]);
  }

  // ---------------------------------------------------------------------------
  // The store object. UserDefaults is modelled by the persisted values handed to the
  // constructor; the fields are the in-memory state the source keeps.

  class StateStore {
    var entries: Entries
    var peerAcks: PeerAcks
    var replicaId: string
    var storedReplicaId: Option<string>
    var notices: seq<Notice>

    /** `init`: a stored id other than "phone" drops the persisted entries and acknowledgements;
        the id becomes "phone"; the loaded entries are then cleaned of duplicate paths, visiting
        them in `order`. */
    constructor (storedId: Option<string>, persistedEntries: Entries, persistedAcks: PeerAcks, order: seq<string>)
      requires storedId.Some? && storedId.value != PhoneReplicaId ==> order == []
      requires !(storedId.Some? && storedId.value != PhoneReplicaId) ==> Enumerates(order, persistedEntries)
      ensures replicaId == PhoneReplicaId && storedReplicaId == Some(PhoneReplicaId) && notices == []
      ensures storedId.Some? && storedId.value != PhoneReplicaId ==> entries == map[] && peerAcks == map[]
      ensures !(storedId.Some? && storedId.value != PhoneReplicaId) ==>
                peerAcks == persistedAcks &&
                entries == if exists k :: k in persistedEntries && Normalize(k) != k
                           then CleanupFold(persistedEntries, order) else persistedEntries
    {
      var loadedEntries, loadedAcks := persistedEntries, persistedAcks;
      if storedId.Some? && storedId.value != PhoneReplicaId {
        loadedEntries, loadedAcks := map[], map[];
      }
      replicaId := PhoneReplicaId;
      storedReplicaId := Some(PhoneReplicaId);
      entries := loadedEntries;
      peerAcks := loadedAcks;
      notices := [];
      new;
      if storedId.Some? && storedId.value != PhoneReplicaId {
        assert Enumerates(order, entries);
      }
      CleanupDuplicatePaths(order);
    }

    /** `cleanupDuplicatePaths`, visiting the keys in `order`. */
    method CleanupDuplicatePaths(order: seq<string>)
      requires Enumerates(order, entries)
      modifies this
      ensures entries == if exists k :: k in old(entries) && Normalize(k) != k
                         then CleanupFold(old(entries), order) else old(entries)
      ensures peerAcks == old(peerAcks) && replicaId == old(replicaId)
      ensures storedReplicaId == old(storedReplicaId) && notices == old(notices)
    {
      var loaded := entries;
      EnumeratedAreKeys(order, loaded);
      var normalizedEntries: Entries := map[];
      var changed := false;
      var i := 0;
      while i < |order|
        invariant 0 <= i <= |order|
        invariant unchanged(this)
        invariant normalizedEntries == CleanupFold(loaded, order[..i])
        invariant changed == AnyMoves(order[..i])
      {
        var originalPath := order[i];
        var entry := loaded[originalPath];
        var normalized := NormalizePath(originalPath);
        ghost var before := normalizedEntries;
        if originalPath != normalized {
          changed := true;
        }
        if normalized in normalizedEntries {
          if Less(normalizedEntries[normalized].version, entry.version) {
            normalizedEntries := normalizedEntries[normalized := entry];
          }
        } else {
          normalizedEntries := normalizedEntries[normalized := entry];
        }
        assert normalizedEntries == CleanupStep(before, originalPath, entry);
        assert order[..i + 1][..i] == order[..i];
        CleanupFoldLast(loaded, order[..i + 1]);
        i := i + 1;
      }
      assert order[..i] == order;
      AnyMovesKeys(order, loaded);
      if changed {
        entries := normalizedEntries;
      }
    }

    /** `nextLocalVersion`: the clock reading `now` with this replica's id. */
    function NextLocalVersion(now: int): (v: Version)
      reads this
      ensures v.ts == now && v.r == replicaId
    {
      Version(now, replicaId)
    }

    /** `applyEntry`, with the notification it posts when the store changes. */
    method ApplyEntry(entry: StateEntry) returns (changed: bool)
      modifies this
      ensures Applied(entries, changed) == ApplySpec(old(entries), entry)
      ensures notices == old(notices) + if changed then [Notice(Normalize(entry.path), entry.tombstone, entry.value)] else []
      ensures peerAcks == old(peerAcks) && replicaId == old(replicaId) && storedReplicaId == old(storedReplicaId)
    {
      var normalizedPath := NormalizePath(entry.path);
      if normalizedPath in entries {
        var existing := entries[normalizedPath];
        if Less(existing.version, entry.version) {
          entries := entries[normalizedPath := entry];
          notices := notices + [Notice(normalizedPath, entry.tombstone, entry.value)];
          return true;
        } else {
          return false;
        }
      } else {
        entries := entries[normalizedPath := entry];
        notices := notices + [Notice(normalizedPath, entry.tombstone, entry.value)];
        return true;
      }
    }

    /** `getAllEntries`. */
    function AllEntries(): Entries
      reads this
    {
      entries
    }

    /** `getValueAtPath`. */
    function GetValueAtPath(path: string): (r: Option<Json>)
      reads this
      ensures r == ValueAt(entries, path)
      ensures r == ValueAt(entries, Normalize(path))
    {
      NormalizeIdempotent(path);
      var key := Normalize(path);
      if key !in entries || entries[key].tombstone then None else entries[key].value
    }

    /** `hasPath`. */
    function HasPath(path: string): (r: bool)
      reads this
      ensures r == HasPathSpec(entries, path)
      ensures r == HasPathSpec(entries, Normalize(path))
      ensures !r ==> GetValueAtPath(path).None?
    {
      NormalizeIdempotent(path);
      var key := Normalize(path);
      if key !in entries then false else !entries[key].tombstone
    }

    /** `recordPeerSeen`. */
    method RecordPeerSeen(peer: string, path: string, version: Version)
      modifies this
      ensures peerAcks == RecordSpec(old(peerAcks), peer, path, version)
      ensures entries == old(entries) && replicaId == old(replicaId)
      ensures storedReplicaId == old(storedReplicaId) && notices == old(notices)
    {
      var m := if peer in peerAcks then peerAcks[peer] else map[];
      m := m[path := version];
      peerAcks := peerAcks[peer := m];
    }

    /** `hasPeerSeen`. */
    function HasPeerSeen(peer: string, path: string, version: Version): (r: bool)
      reads this
      ensures r == HasPeerSeenSpec(peerAcks, peer, path, version)
      ensures r ==> forall w :: !Less(version, w) ==> HasPeerSeenSpec(peerAcks, peer, path, w)
    {
      if peer in peerAcks && path in peerAcks[peer] then
        var seen := !Less(peerAcks[peer][path], version);
        if seen then HasPeerSeenCoversOlder(peerAcks, peer, path, version); seen else seen
      else false
    }

    /** `gcAcknowledgedTombstones`: the loop visits every key once (in any order) and removes
        the acknowledged tombstones. */
    method GcAcknowledgedTombstones(peer: string)
      modifies this
      ensures entries == GcSpec(old(entries), peerAcks, peer)
      ensures peerAcks == old(peerAcks) && replicaId == old(replicaId)
      ensures storedReplicaId == old(storedReplicaId) && notices == old(notices)
    {
      var original := entries;
      var kept := entries;
      var toVisit := entries.Keys;
      while toVisit != {}
        invariant toVisit <= original.Keys
        invariant forall k :: k in kept <==> k in original && (k in toVisit || !Collectable(original, peerAcks, peer, k))
        invariant forall k :: k in kept ==> kept[k] == original[k]
        decreases |toVisit|
      {
        var path :| path in toVisit;
        var entry := original[path];
        if entry.tombstone {
          if peer in peerAcks && path in peerAcks[peer] {
            var v := peerAcks[peer][path];
            if !Less(v, entry.version) {
              kept := kept - {path};
            }
          }
        }
        toVisit := toVisit - {path};
      }
      assert kept == GcSpec(original, peerAcks, peer);
      entries := kept;
    }

    /** `materialize`, visiting the entries in `order`. */
    method Materialize(order: seq<string>) returns (result: map<string, Json>)
      requires Enumerates(order, entries)
      ensures result == MaterializeFold(entries, order)
    {
      EnumeratedAreKeys(order, entries);
      result := map[];
      var i := 0;
      while i < |order|
        invariant 0 <= i <= |order|
        invariant result == MaterializeFold(entries, order[..i])
      {
        var entry := entries[order[i]];
        assert order[..i + 1][..i] == order[..i];
        if !entry.tombstone && entry.value.Some? {
          var native := entry.value.value;
          var p := StripOneSlash(entry.path);
          if |p| == 0 {
            result := IosMerge.MergeValues(result, native, []);
          } else {
            var components := SplitOmitEmpty(p);
            result := IosMerge.MergeValues(result, native, components);
          }
        }
        i := i + 1;
      }
      assert order[..i] == order;
    }
  }
}
