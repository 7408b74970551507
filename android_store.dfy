/** The Android store (StateStore.kt): path-keyed LWW entries kept in insertion order,
    the peer-acknowledgement table, tombstone collection, replica-id migration, the epoch
    counter, and materialisation through the minimal JSON Pointer helper. */
module AndroidStore {
  import opened Json
  import opened Text
  import opened AndroidModels

  const PhoneReplicaId := "phone"

  // ---------------------------------------------------------------------------
  // Entry lists. The store keeps a LinkedHashMap from path to entry, and every entry is
  // stored under its own path, so the map is modelled as the list of its values in
  // insertion order, with pairwise distinct paths.

  ghost predicate DistinctPaths(es: seq<Entry>) {
    forall i, j :: 0 <= i < j < |es| ==> es[i].path != es[j].path
  }

  /** The entry stored under `key`, if any. */
  function Lookup(es: seq<Entry>, key: string): (r: Option<Entry>)
    ensures r.Some? ==> r.value in es && r.value.path == key
    ensures r.None? ==> forall e :: e in es ==> e.path != key
  {
    if |es| == 0 then None
    else if es[0].path == key then Some(es[0])
    else Lookup(es[1..], key)
  }

  /** `map[e.path] = e` on a LinkedHashMap: replaces in place, or appends a new key. */
  function Put(es: seq<Entry>, e: Entry): (r: seq<Entry>)
    requires DistinctPaths(es)
    ensures DistinctPaths(r)
    ensures forall k :: Lookup(r, k) == if k == e.path then Some(e) else Lookup(es, k)
    ensures forall x :: x in r ==> x == e || x in es
  {
    if |es| == 0 then [e]
    else if es[0].path == e.path then
      DistinctTail(es);
      DistinctCons(e, es[1..]);
      [e] + es[1..]
    else
      DistinctTail(es);
      var rest := Put(es[1..], e);
      DistinctCons(es[0], rest);
      [es[0]] + rest
  }

  lemma DistinctTail(es: seq<Entry>)
    requires DistinctPaths(es) && |es| > 0
    ensures DistinctPaths(es[1..])
    ensures forall x :: x in es[1..] ==> x.path != es[0].path
    ensures forall k :: k != es[0].path ==> Lookup(es, k) == Lookup(es[1..], k)
  {
    forall x | x in es[1..] ensures x.path != es[0].path {
      var j :| 0 <= j < |es[1..]| && es[1..][j] == x;
      assert es[j + 1] == x;
    }
  }

  lemma DistinctCons(h: Entry, t: seq<Entry>)
    requires DistinctPaths(t)
    requires forall x :: x in t ==> x.path != h.path
    ensures DistinctPaths([h] + t)
    ensures Lookup([h] + t, h.path) == Some(h)
    ensures forall k :: k != h.path ==> Lookup([h] + t, k) == Lookup(t, k)
  {
    var s := [h] + t;
    assert s[1..] == t;
    forall i, j | 0 <= i < j < |s| ensures s[i].path != s[j].path {
      if i == 0 { assert s[j] == t[j - 1]; assert s[j] in t; }
      else { assert s[i] == t[i - 1] && s[j] == t[j - 1]; }
    }
  }

  /** `map.remove(key)`. */
  function Remove(es: seq<Entry>, key: string): (r: seq<Entry>)
    requires DistinctPaths(es)
    ensures DistinctPaths(r)
    ensures forall k :: Lookup(r, k) == if k == key then None else Lookup(es, k)
    ensures forall e :: e in r <==> e in es && e.path != key
  {
    if |es| == 0 then []
    else if es[0].path == key then
      DistinctTail(es);
      Remove(es[1..], key)
    else
      DistinctTail(es);
      var rest := Remove(es[1..], key);
      DistinctCons(es[0], rest);
      assert forall e :: e in [es[0]] + rest <==> e == es[0] || e in rest;
      [es[0]] + rest
  }

  // ---------------------------------------------------------------------------
  // LWW merge (`applyEntry`).

  datatype Applied = Applied(entries: seq<Entry>, changed: bool)

  /** `applyEntry` on the entry list: the path loses one leading '/', the existing entry is
      looked up under that key and then under the key with the slash put back, and the new
      entry wins iff there is no existing one or its version is strictly newer. On a win the
      slashed key is dropped and the entry is stored under the stripped key. */
  function ApplySpec(es: seq<Entry>, e: Entry): (a: Applied)
    requires DistinctPaths(es)
    ensures DistinctPaths(a.entries)
    ensures var p := StripOneSlash(e.path);
            var existing := if Lookup(es, p).Some? then Lookup(es, p) else Lookup(es, "/" + p);
            a.changed <==> existing.None? || Newer(e.version, existing.value.version)
    ensures !a.changed ==> a.entries == es
    ensures a.changed ==> var p := StripOneSlash(e.path);
            && Lookup(a.entries, p) == Some(e.(path := p))
            && Lookup(a.entries, "/" + p) == None
            && forall k :: k != p && k != "/" + p ==> Lookup(a.entries, k) == Lookup(es, k)
  {
    var p := StripOneSlash(e.path);
    var alt := "/" + p;
    var existing := if Lookup(es, p).Some? then Lookup(es, p) else Lookup(es, alt);
    if existing.None? || Newer(e.version, existing.value.version) then
      Applied(Put(Remove(es, alt), e.(path := p)), true)
    else
      Applied(es, false)
  }

  /** Applying the same entry twice changes the store only the first time. */
  lemma ApplyIdempotent(es: seq<Entry>, e: Entry)
    requires DistinctPaths(es)
    ensures var once := ApplySpec(es, e); !ApplySpec(once.entries, e).changed
  {
    var once := ApplySpec(es, e);
    var p := StripOneSlash(e.path);
    if once.changed {
      assert Lookup(once.entries, p) == Some(e.(path := p));
      assert !Newer(e.version, e.version);
    } else {
      var existing := if Lookup(es, p).Some? then Lookup(es, p) else Lookup(es, "/" + p);
      assert existing.Some? && !Newer(e.version, existing.value.version);
    }
  }

  /** The entry that `ApplySpec` leaves under the stripped key, whichever way it went. */
  lemma ApplyStored(es: seq<Entry>, e: Entry)
    requires DistinctPaths(es)
    ensures var p := StripOneSlash(e.path);
            var existing := if Lookup(es, p).Some? then Lookup(es, p) else Lookup(es, "/" + p);
            var a := ApplySpec(es, e);
            Lookup(a.entries, p) ==
              if existing.None? || Newer(e.version, existing.value.version) then Some(e.(path := p))
              else Lookup(es, p)
  {
  }

  /** Two entries for one path with different versions: applying both, in either order,
      leaves the same entry list. The path ends up holding the newer of the two, unless the
      store already held something at least as new under the path or its slashed twin, in
      which case nothing changes. */
  lemma ApplyCommutes(es: seq<Entry>, e1: Entry, e2: Entry)
    requires DistinctPaths(es)
    requires StripOneSlash(e1.path) == StripOneSlash(e2.path)
    requires e1.version != e2.version
    ensures ApplySpec(ApplySpec(es, e1).entries, e2).entries
            == ApplySpec(ApplySpec(es, e2).entries, e1).entries
  {
    if ApplySpec(es, e1).changed && ApplySpec(es, e2).changed {
      BothWinCommute(es, e1, e2);
    } else if ApplySpec(es, e1).changed {
      OneWinsCommute(es, e1, e2);
    } else if ApplySpec(es, e2).changed {
      OneWinsCommute(es, e2, e1);
    }
  }

  /** Both entries beat what was stored: the newer one ends up in the slot the first win made. */
  lemma BothWinCommute(es: seq<Entry>, e1: Entry, e2: Entry)
    requires DistinctPaths(es)
    requires StripOneSlash(e1.path) == StripOneSlash(e2.path)
    requires e1.version != e2.version
    requires ApplySpec(es, e1).changed && ApplySpec(es, e2).changed
    ensures ApplySpec(ApplySpec(es, e1).entries, e2).entries
            == ApplySpec(ApplySpec(es, e2).entries, e1).entries
  {
    var p := StripOneSlash(e1.path);
    CompareToTotal(e1.version, e2.version);
    var r := Remove(es, "/" + p);
    RemoveAbsent(ApplySpec(es, e1).entries, "/" + p);
    RemoveAbsent(ApplySpec(es, e2).entries, "/" + p);
    PutPut(r, e1.(path := p), e2.(path := p));
    PutPut(r, e2.(path := p), e1.(path := p));
  }

  /** Only `e1` beats what was stored: then it beats `e2` too, and `e2` changes nothing in
      either order. */
  lemma OneWinsCommute(es: seq<Entry>, e1: Entry, e2: Entry)
    requires DistinctPaths(es)
    requires StripOneSlash(e1.path) == StripOneSlash(e2.path)
    requires e1.version != e2.version
    requires ApplySpec(es, e1).changed && !ApplySpec(es, e2).changed
    ensures ApplySpec(ApplySpec(es, e1).entries, e2).entries
            == ApplySpec(ApplySpec(es, e2).entries, e1).entries
  {
    var p := StripOneSlash(e1.path);
    var existing := if Lookup(es, p).Some? then Lookup(es, p) else Lookup(es, "/" + p);
    CompareToAntisymmetric(e1.version, e2.version);
    CompareToAntisymmetric(e2.version, existing.value.version);
    if Newer(e2.version, e1.version) {
      CompareToTransitive(e2.version, e1.version, existing.value.version);
    }
  }

  /** Removing a key that is not stored changes nothing. */
  lemma RemoveAbsent(es: seq<Entry>, key: string)
    requires DistinctPaths(es)
    requires Lookup(es, key).None?
    ensures Remove(es, key) == es
  {
    if |es| > 0 {
      DistinctTail(es);
      RemoveAbsent(es[1..], key);
    }
  }

  /** A second `Put` under the same path overwrites the first in place. */
  lemma PutPut(es: seq<Entry>, a: Entry, b: Entry)
    requires DistinctPaths(es)
    requires a.path == b.path
    ensures Put(Put(es, a), b) == Put(es, b)
  {
    if |es| == 0 {
      assert [a][1..] == [];
    } else if es[0].path == a.path {
      var s := [a] + es[1..];
      assert s[1..] == es[1..];
    } else {
      DistinctTail(es);
      var rest := Put(es[1..], a);
      var s := [es[0]] + rest;
      assert s[1..] == rest;
      PutPut(es[1..], a, b);
    }
  }

  /** From an empty store both orders give identical stores (the newer entry alone). */
  lemma ApplyCommutesFromEmpty(e1: Entry, e2: Entry)
    requires StripOneSlash(e1.path) == StripOneSlash(e2.path)
    requires e1.version != e2.version
    ensures ApplySpec(ApplySpec([], e1).entries, e2).entries
            == ApplySpec(ApplySpec([], e2).entries, e1).entries
    ensures var p := StripOneSlash(e1.path);
            ApplySpec(ApplySpec([], e1).entries, e2).entries ==
              [if Newer(e1.version, e2.version) then e1.(path := p) else e2.(path := p)]
  {
    var p := StripOneSlash(e1.path);
    CompareToTotal(e1.version, e2.version);
    assert "/" + p != p by { assert |"/" + p| != |p|; }
    var s1, s2 := e1.(path := p), e2.(path := p);
    assert ApplySpec([], e1).entries == [s1];
    assert ApplySpec([], e2).entries == [s2];
    assert Lookup([s1], p) == Some(s1) && Lookup([s2], p) == Some(s2);
    assert [s1][1..] == [] && [s2][1..] == [];
    assert Remove([s1], "/" + p) == [s1] + Remove([], "/" + p);
    assert Remove([s2], "/" + p) == [s2] + Remove([], "/" + p);
    assert Put([s1], s2) == [s2] && Put([s2], s1) == [s1];
  }

  /** "a" and "/a" address one entry: storing under either and reading under "a" agree. */
  lemma SlashedAndPlainCollide(es: seq<Entry>, e: Entry)
    requires DistinctPaths(es)
    requires |e.path| == 0 || e.path[0] != '/'
    ensures ApplySpec(es, e) == ApplySpec(es, e.(path := "/" + e.path))
  {
    assert StripOneSlash("/" + e.path) == e.path;
  }

  // ---------------------------------------------------------------------------
  // Peer acknowledgements: peer id -> (path -> version). The source keeps the versions as
  // JSON and decodes them with `Version.fromJson`; VersionToJson's round trip makes that
  // the identity, so the table holds versions directly.

  type PeerTable = map<string, map<string, Version>>

  /** `recordPeerSeen`: overwrite the slot of the path without one leading '/', unconditionally. */
  function RecordSpec(ps: PeerTable, peer: string, path: string, v: Version): (r: PeerTable)
    ensures r.Keys == ps.Keys + {peer} && peer in r && StripOneSlash(path) in r[peer]
    ensures r[peer][StripOneSlash(path)] == v
    ensures forall q :: q in ps && q != peer ==> r[q] == ps[q]
    ensures forall key :: peer in ps && key in ps[peer] && key != StripOneSlash(path) ==>
              key in r[peer] && r[peer][key] == ps[peer][key]
  {
    var m := if peer in ps then ps[peer] else map[];
    ps[peer := m[StripOneSlash(path) := v]]
  }

  /** The acknowledged version `hasPeerSeen` compares against: the slot of the stripped path,
      falling back to the slot of the path as given. */
  function SeenVersion(ps: PeerTable, peer: string, path: string): Option<Version> {
    if peer !in ps then None
    else if StripOneSlash(path) in ps[peer] then Some(ps[peer][StripOneSlash(path)])
    else if path in ps[peer] then Some(ps[peer][path])
    else None
  }

  /** `hasPeerSeen`: the peer has acknowledged at least `v` for the path. */
  predicate HasPeerSeenSpec(ps: PeerTable, peer: string, path: string, v: Version) {
    var seen := SeenVersion(ps, peer, path);
    seen.Some? && CompareTo(seen.value, v) >= 0
  }

  /** "At least as new" is transitive. */
  lemma AtLeastTransitive(a: Version, b: Version, c: Version)
    requires CompareTo(a, b) >= 0 && CompareTo(b, c) >= 0
    ensures CompareTo(a, c) >= 0
  {
    CompareToAntisymmetric(a, b);
    CompareToAntisymmetric(b, c);
    if a != b { CompareToTotal(a, b); }
    if b != c { CompareToTotal(b, c); }
    if a != b && b != c { CompareToTransitive(a, b, c); }
  }

  /** A peer that has seen a version has seen every older one. */
  lemma HasPeerSeenCoversOlder(ps: PeerTable, peer: string, path: string, v: Version)
    requires HasPeerSeenSpec(ps, peer, path, v)
    ensures forall w :: CompareTo(v, w) >= 0 ==> HasPeerSeenSpec(ps, peer, path, w)
  {
    forall w | CompareTo(v, w) >= 0 ensures HasPeerSeenSpec(ps, peer, path, w) {
      AtLeastTransitive(SeenVersion(ps, peer, path).value, v, w);
    }
  }

  /** After recording `v`, the peer counts as having seen exactly the versions `w <= v`;
      an unknown peer has seen nothing. */
  lemma RecordThenHasPeerSeen(ps: PeerTable, peer: string, path: string, v: Version, w: Version, other: string)
    requires other !in ps
    ensures HasPeerSeenSpec(RecordSpec(ps, peer, path, v), peer, path, w) <==> CompareTo(v, w) >= 0
    ensures !HasPeerSeenSpec(ps, other, path, w)
  {
  }

  /** Recording is not monotonic: an older acknowledgement replaces a newer one. */
  lemma RecordOverwritesNewer(ps: PeerTable, peer: string, path: string, newer: Version, older: Version)
    requires Newer(newer, older)
    ensures !HasPeerSeenSpec(RecordSpec(RecordSpec(ps, peer, path, newer), peer, path, older), peer, path, newer)
  {
    CompareToAntisymmetric(newer, older);
  }

  // ---------------------------------------------------------------------------
  // Tombstone collection.

  predicate Collectable(ps: PeerTable, peer: string, e: Entry) {
    e.tombstone && HasPeerSeenSpec(ps, peer, e.path, e.version)
  }

  /** `gcAcknowledgedTombstones`: drop exactly the tombstones the peer has acknowledged. */
  function GcSpec(es: seq<Entry>, ps: PeerTable, peer: string): (r: seq<Entry>)
    ensures forall e :: e in r <==> e in es && !Collectable(ps, peer, e)
    ensures |r| <= |es|
  {
    if |es| == 0 then []
    else if Collectable(ps, peer, es[0]) then GcSpec(es[1..], ps, peer)
    else
      var rest := GcSpec(es[1..], ps, peer);
      assert forall e :: e in [es[0]] + rest <==> e == es[0] || e in rest;
      [es[0]] + rest
  }

  /** Collection keeps the paths distinct. */
  lemma {:induction false} GcDistinct(es: seq<Entry>, ps: PeerTable, peer: string)
    requires DistinctPaths(es)
    ensures DistinctPaths(GcSpec(es, ps, peer))
  {
    if |es| > 0 {
      DistinctTail(es);
      GcDistinct(es[1..], ps, peer);
      if !Collectable(ps, peer, es[0]) {
        DistinctCons(es[0], GcSpec(es[1..], ps, peer));
      }
    }
  }

  /** The entries that stay are those whose path is not in `gone`. */
  function KeepPaths(es: seq<Entry>, gone: seq<string>): (r: seq<Entry>)
  {
    if |es| == 0 then []
    else if es[0].path in gone then KeepPaths(es[1..], gone)
    else [es[0]] + KeepPaths(es[1..], gone)
  }

  /** Keeping the entries whose path is not in `gone` is the collection, when `gone` names
      exactly the collectable entries' paths. */
  lemma {:induction false} KeepPathsIsGc(es: seq<Entry>, ps: PeerTable, peer: string, gone: seq<string>)
    requires forall e :: e in es ==> (e.path in gone <==> Collectable(ps, peer, e))
    ensures KeepPaths(es, gone) == GcSpec(es, ps, peer)
  {
    if |es| > 0 {
      assert es[0] in es;
      forall e | e in es[1..] ensures e in es { }
      KeepPathsIsGc(es[1..], ps, peer, gone);
    }
  }

  /** Two entries of a list with distinct paths that share a path are the same entry. */
  lemma SamePathSameEntry(es: seq<Entry>, e1: Entry, e2: Entry)
    requires DistinctPaths(es) && e1 in es && e2 in es && e1.path == e2.path
    ensures e1 == e2
  {
    var i :| 0 <= i < |es| && es[i] == e1;
    var j :| 0 <= j < |es| && es[j] == e2;
    assert i == j;
  }

  // ---------------------------------------------------------------------------
  // JSON Pointer (section 4 of RFC 6901) and materialisation.

  /** Kotlin `replace("~1", "/")`: left to right, non-overlapping. */
  function ReplaceTilde1(s: string): string {
    if |s| >= 2 && s[0] == '~' && s[1] == '1' then "/" + ReplaceTilde1(s[2..])
    else if |s| == 0 then ""
    else [s[0]] + ReplaceTilde1(s[1..])
  }

  /** Kotlin `replace("~0", "~")`. */
  function ReplaceTilde0(s: string): string {
    if |s| >= 2 && s[0] == '~' && s[1] == '0' then "~" + ReplaceTilde0(s[2..])
    else if |s| == 0 then ""
    else [s[0]] + ReplaceTilde0(s[1..])
  }

  /** Token decoding: "~1" first, then "~0". */
  function Unescape(token: string): string {
    ReplaceTilde0(ReplaceTilde1(token))
  }

  /** Token encoding of section 4 of RFC 6901: '~' as "~0", '/' as "~1". */
  function Escape(t: string): string {
    if |t| == 0 then ""
    else (if t[0] == '~' then "~0" else if t[0] == '/' then "~1" else [t[0]]) + Escape(t[1..])
  }

  /** Halfway through decoding an escaped token: '/' is back, '~' is still "~0". */
  function EscapeTildeOnly(t: string): string {
    if |t| == 0 then ""
    else (if t[0] == '~' then "~0" else [t[0]]) + EscapeTildeOnly(t[1..])
  }

  lemma {:induction false} ReplaceTilde1OfEscape(t: string)
    ensures ReplaceTilde1(Escape(t)) == EscapeTildeOnly(t)
  {
    if |t| > 0 {
      ReplaceTilde1OfEscape(t[1..]);
      var rest := Escape(t[1..]);
      if t[0] == '~' {
        assert Escape(t) == "~0" + rest;
        assert ("~0" + rest)[1..] == "0" + rest;
        assert ("0" + rest)[1..] == rest;
      } else if t[0] == '/' {
        assert Escape(t) == "~1" + rest;
        assert ("~1" + rest)[2..] == rest;
      } else {
        assert Escape(t) == [t[0]] + rest;
        assert ([t[0]] + rest)[1..] == rest;
      }
    }
  }

  lemma {:induction false} ReplaceTilde0OfTildeOnly(t: string)
    ensures ReplaceTilde0(EscapeTildeOnly(t)) == t
  {
    if |t| > 0 {
      ReplaceTilde0OfTildeOnly(t[1..]);
      var rest := EscapeTildeOnly(t[1..]);
      if t[0] == '~' {
        assert EscapeTildeOnly(t) == "~0" + rest;
        assert ("~0" + rest)[2..] == rest;
        assert t == "~" + t[1..];
      } else {
        assert EscapeTildeOnly(t) == [t[0]] + rest;
        assert ([t[0]] + rest)[1..] == rest;
        assert t == [t[0]] + t[1..];
      }
    }
  }

  /** Decoding undoes the RFC 6901 encoding for every reference token. */
  lemma UnescapeEscape(t: string)
    ensures Unescape(Escape(t)) == t
  {
    ReplaceTilde1OfEscape(t);
    ReplaceTilde0OfTildeOnly(t);
  }

  /** The order of the two replacements matters: "~01" decodes to "~1", not to "/". */
  lemma UnescapeOrder()
    ensures Unescape("~01") == "~1"
    ensures ReplaceTilde1(ReplaceTilde0("~01")) == "/"
  {
    assert ReplaceTilde1("~01") == "~01" by {
      assert ReplaceTilde1("~01") == "~" + ReplaceTilde1("01");
      assert ReplaceTilde1("01") == "0" + ReplaceTilde1("1");
      assert ReplaceTilde1("1") == "1" + ReplaceTilde1("");
    }
    assert ReplaceTilde0("~01") == "~" + ReplaceTilde0("1");
    assert ReplaceTilde0("1") == "1" + ReplaceTilde0("");
  }

  /** The reference tokens of a pointer given with or without its leading '/'. */
  function Tokens(pointer: string): (ts: seq<string>)
    ensures |ts| >= 1
  {
    var pieces := SplitKeepEmpty(SerializedPath(pointer)[1..]);
    seq(|pieces|, i requires 0 <= i < |pieces| => Unescape(pieces[i]))
  }

  /** The value at `tokens` in `m`, descending through objects only. */
  function PointerGet(m: map<string, Json>, tokens: seq<string>): Option<Json>
    requires |tokens| >= 1
    decreases |tokens|
  {
    if tokens[0] !in m then None
    else if |tokens| == 1 then Some(m[tokens[0]])
    else if m[tokens[0]].JObj? then PointerGet(m[tokens[0]].fields, tokens[1..])
    else None
  }

  /** The object stepped into for a token: the existing member when it is an object, a fresh
      empty object otherwise. */
  function ChildObject(m: map<string, Json>, key: string): map<string, Json> {
    if key in m && m[key].JObj? then m[key].fields else map[]
  }

  /** `q` leaves the token path `tokens` somewhere: they agree up to some index below both
      lengths and differ there. */
  predicate BranchesOff(q: seq<string>, tokens: seq<string>)
    decreases |q|
  {
    |q| >= 1 && |tokens| >= 1 && (q[0] != tokens[0] || BranchesOff(q[1..], tokens[1..]))
  }

  /** `JsonPointer.apply` on values: missing or non-object intermediates become fresh objects;
      the last token is set, or removed when the value is null. Afterwards the path reads back
      as the value, no other top-level member changes, and every pointer that branches off the
      written path, at whatever depth, reads as it did before. */
  function PointerSet(m: map<string, Json>, tokens: seq<string>, value: Option<Json>): (r: map<string, Json>)
    requires |tokens| >= 1
    ensures PointerGet(r, tokens) == value
    ensures forall k :: k != tokens[0] ==> (k in r <==> k in m) && (k in m ==> r[k] == m[k])
    ensures |tokens| > 1 || value.Some? ==> tokens[0] in r
    ensures forall q :: BranchesOff(q, tokens) ==> PointerGet(r, q) == PointerGet(m, q)
    decreases |tokens|
  {
    var key := tokens[0];
    if |tokens| == 1 then
      if value.None? then m - {key} else m[key := value.value]
    else
      m[key := JObj(PointerSet(ChildObject(m, key), tokens[1..], value))]
  }

  /** `JsonPointer.apply(root, pointer, value)`. The source walks a cursor down the object and
      mutates it in place; on values the same walk records the objects it passes and then puts
      the updated child back into each of them, innermost first. */
  method JsonPointerApply(root: map<string, Json>, pointer: string, value: Option<Json>)
    returns (result: map<string, Json>)
    ensures result == PointerSet(root, Tokens(pointer), value)
  {
    var tokens := Tokens(pointer);
    var n := |tokens|;
    var parents: seq<map<string, Json>> := [];
    var cur := root;
    var i := 0;
    assert tokens[0..] == tokens;
    while i < n - 1
      invariant 0 <= i <= n - 1
      invariant |parents| == i
      invariant PointerSet(root, tokens, value) == Rebuild(parents, tokens, PointerSet(cur, tokens[i..], value))
    {
      var key := tokens[i];
      var next := if key in cur && cur[key].JObj? then cur[key].fields else map[];
      RebuildStep(parents, cur, tokens, i, value);
      parents := parents + [cur];
      cur := next;
      i := i + 1;
    }
    var key := tokens[n - 1];
    PointerSetLast(cur, tokens[n - 1..], value);
    if value.None? {
      cur := cur - {key};
    } else {
      cur := cur[key := value.value];
    }
    var j := n - 1;
    assert parents[..j] == parents;
    while j > 0
      invariant 0 <= j <= n - 1 && |parents| == n - 1
      invariant PointerSet(root, tokens, value) == Rebuild(parents[..j], tokens, cur)
    {
      RebuildUnwind(parents, tokens, j - 1, cur);
      j := j - 1;
      cur := parents[j][tokens[j] := JObj(cur)];
    }
    result := cur;
  }

  lemma PointerSetLast(m: map<string, Json>, ts: seq<string>, value: Option<Json>)
    requires |ts| == 1
    ensures PointerSet(m, ts, value) == if value.None? then m - {ts[0]} else m[ts[0] := value.value]
  {
  }

  lemma RebuildUnwind(parents: seq<map<string, Json>>, tokens: seq<string>, j: nat, inner: map<string, Json>)
    requires j < |parents| < |tokens|
    ensures Rebuild(parents[..j + 1], tokens, inner) == Rebuild(parents[..j], tokens, parents[j][tokens[j] := JObj(inner)])
  {
    assert parents[..j + 1][..j] == parents[..j];
  }

  /** Puts `inner` back through the recorded parents: parent `k` receives the rebuilt child
      under token `k`. */
  function Rebuild(parents: seq<map<string, Json>>, tokens: seq<string>, inner: map<string, Json>): map<string, Json>
    requires |parents| < |tokens|
  {
    if |parents| == 0 then inner
    else
      var k := |parents| - 1;
      Rebuild(parents[..k], tokens, parents[k][tokens[k] := JObj(inner)])
  }

  lemma RebuildStep(parents: seq<map<string, Json>>, cur: map<string, Json>, tokens: seq<string>, i: nat, value: Option<Json>)
    requires |parents| == i && i + 1 < |tokens|
    ensures Rebuild(parents, tokens, PointerSet(cur, tokens[i..], value))
         == Rebuild(parents + [cur], tokens, PointerSet(ChildObject(cur, tokens[i]), tokens[i + 1..], value))
  {
    assert (parents + [cur])[..i] == parents;
    assert tokens[i..][1..] == tokens[i + 1..];
  }

  /** The two orders `materialize` can sort by: the raw path length, as `sortedBy
      { it.path.length }` does, and the number of reference tokens, which is what applying
      parents before children takes. */
  function PathLength(e: Entry): nat {
    |e.path|
  }

  function TokenDepth(e: Entry): nat {
    |Tokens(e.path)|
  }

  /** No entry has a larger key than one after it. */
  predicate SortedBy(key: Entry -> nat, es: seq<Entry>) {
    forall i, j :: 0 <= i < j < |es| ==> key(es[i]) <= key(es[j])
  }

  /** The entries of `es` whose key is `n`, in their order in `es`. */
  function WithKey(key: Entry -> nat, es: seq<Entry>, n: nat): seq<Entry>
    decreases |es|
  {
    if |es| == 0 then []
    else (if key(es[0]) == n then [es[0]] else []) + WithKey(key, es[1..], n)
  }

  /** Kotlin `sortedBy`: a permutation ordered by the key. */
  function SortBy(key: Entry -> nat, es: seq<Entry>): (r: seq<Entry>)
    ensures multiset(r) == multiset(es)
    ensures SortedBy(key, r)
  {
    if |es| == 0 then [] else
      assert es == [es[0]] + es[1..];
      InsertBy(key, es[0], SortBy(key, es[1..]))
  }

  /** Inserts `e` before the first entry whose key is at least as large. */
  function InsertBy(key: Entry -> nat, e: Entry, sorted: seq<Entry>): (r: seq<Entry>)
    requires SortedBy(key, sorted)
    ensures multiset(r) == multiset(sorted) + multiset{e}
    ensures SortedBy(key, r)
    ensures |r| > 0 && (key(r[0]) == key(e) || (|sorted| > 0 && r[0] == sorted[0]))
  {
    if |sorted| == 0 then [e]
    else if key(e) <= key(sorted[0]) then [e] + sorted
    else
      var rest := InsertBy(key, e, sorted[1..]);
      assert sorted == [sorted[0]] + sorted[1..];
      forall i | 0 <= i < |rest| ensures key(sorted[0]) <= key(rest[i]) {
        assert rest[i] in multiset(rest);
        if rest[i] != e {
          assert rest[i] in sorted[1..];
        }
      }
      ConsSorted(key, sorted[0], rest);
      [sorted[0]] + rest
  }

  /** An entry with a key no larger than any of a sorted list can go in front of it. */
  lemma ConsSorted(key: Entry -> nat, h: Entry, es: seq<Entry>)
    requires SortedBy(key, es)
    requires forall i :: 0 <= i < |es| ==> key(h) <= key(es[i])
    ensures SortedBy(key, [h] + es)
  {
    forall i, j | 0 <= i < j < |[h] + es| ensures key(([h] + es)[i]) <= key(([h] + es)[j]) {
      if i > 0 {
        assert ([h] + es)[i] == es[i - 1];
      }
      assert ([h] + es)[j] == es[j - 1];
    }
  }

  /** `sortedBy` is stable: the entries that share a key keep their stored order. */
  lemma {:induction false} SortByStable(key: Entry -> nat, es: seq<Entry>, n: nat)
    ensures WithKey(key, SortBy(key, es), n) == WithKey(key, es, n)
    decreases |es|
  {
    if |es| > 0 {
      SortByStable(key, es[1..], n);
      InsertByWithKey(key, es[0], SortBy(key, es[1..]), n);
    }
  }

  /** Insertion puts `e` after every entry that shares its key. */
  lemma {:induction false} InsertByWithKey(key: Entry -> nat, e: Entry, sorted: seq<Entry>, n: nat)
    requires SortedBy(key, sorted)
    ensures WithKey(key, InsertBy(key, e, sorted), n) == (if key(e) == n then [e] else []) + WithKey(key, sorted, n)
    decreases |sorted|
  {
    if |sorted| == 0 {
      assert [e][1..] == [];
    } else if key(e) <= key(sorted[0]) {
      assert ([e] + sorted)[1..] == sorted;
    } else {
      var rest := InsertBy(key, e, sorted[1..]);
      InsertByWithKey(key, e, sorted[1..], n);
      assert ([sorted[0]] + rest)[1..] == rest;
      PastSmallerHead(key, e, sorted[0], WithKey(key, rest, n), WithKey(key, sorted[1..], n), n);
    }
  }

  /** A head with a smaller key than `e` never shares `e`'s key, so listing it first or `e`
      first leaves every key's entries the same. */
  lemma PastSmallerHead(key: Entry -> nat, e: Entry, h: Entry, restKeyed: seq<Entry>, tailKeyed: seq<Entry>, n: nat)
    requires key(h) < key(e)
    requires restKeyed == (if key(e) == n then [e] else []) + tailKeyed
    ensures (if key(h) == n then [h] else []) + restKeyed
         == (if key(e) == n then [e] else []) + ((if key(h) == n then [h] else []) + tailKeyed)
  {
    if key(h) != n {
      assert [] + restKeyed == restKeyed;
      assert [] + tailKeyed == tailKeyed;
    } else {
      assert [] + ([h] + tailKeyed) == [h] + tailKeyed;
    }
  }

  /** Applies the live entries of `es`, in order, to `root`. */
  function ApplyAll(root: map<string, Json>, es: seq<Entry>): map<string, Json>
    decreases |es|
  {
    if |es| == 0 then root
    else
      var last := es[|es| - 1];
      var before := ApplyAll(root, es[..|es| - 1]);
      if last.tombstone then before else PointerSet(before, Tokens(last.path), last.value)
  }

  /** Without a live entry nothing changes, and every member added at the top is the first
      token of some live entry. */
  lemma {:induction false} ApplyAllFacts(root: map<string, Json>, es: seq<Entry>)
    ensures (forall e :: e in es ==> e.tombstone) ==> ApplyAll(root, es) == root
    ensures forall k :: k in ApplyAll(root, es) && k !in root ==>
              exists e :: e in es && !e.tombstone && Tokens(e.path)[0] == k
    decreases |es|
  {
    if |es| > 0 {
      var init := es[..|es| - 1];
      var last := es[|es| - 1];
      ApplyAllFacts(root, init);
      assert forall e :: e in init ==> e in es;
      assert last in es;
    }
  }

  /** `materialize` as written: entries sorted by raw path length, tombstones skipped. A store
      of tombstones materialises as `{}`, and every top-level member is the first token of a
      live entry. */
  function MaterializeAsWritten(es: seq<Entry>): (r: map<string, Json>)
    ensures (forall e :: e in es ==> e.tombstone) ==> r == map[]
    ensures forall k :: k in r ==> exists e :: e in es && !e.tombstone && Tokens(e.path)[0] == k
  {
    var sorted := SortBy(PathLength, es);
    assert forall e :: e in sorted ==> e in es by {
      forall e | e in sorted ensures e in es { assert e in multiset(sorted); }
    }
    ApplyAllFacts(map[], sorted);
    ApplyAll(map[], sorted)
  }

  /** `materialize` with the order it is there for: entries sorted by token depth, so that a
      parent is always written before anything nested inside it; tombstones skipped. The same
      two facts hold as for MaterializeAsWritten. */
  function MaterializeSpec(es: seq<Entry>): (r: map<string, Json>)
    ensures (forall e :: e in es ==> e.tombstone) ==> r == map[]
    ensures forall k :: k in r ==> exists e :: e in es && !e.tombstone && Tokens(e.path)[0] == k
  {
    var sorted := SortBy(TokenDepth, es);
    assert forall e :: e in sorted ==> e in es by {
      forall e | e in sorted ensures e in es { assert e in multiset(sorted); }
    }
    ApplyAllFacts(map[], sorted);
    ApplyAll(map[], sorted)
  }

  /** The token path `inner` lies strictly inside `outer`. */
  predicate Nests(outer: seq<string>, inner: seq<string>) {
    |outer| < |inner| && inner[..|outer|] == outer
  }

  /** After writing a parent `p` and a child `c` nested inside it, `c`'s value is at its path
      and, when `p`'s value is an object, every member of it that `c` does not overwrite is
      still there. */
  ghost predicate KeepsBoth(root: map<string, Json>, p: Entry, c: Entry) {
    var tp := Tokens(p.path);
    var tc := Tokens(c.path);
    Nests(tp, tc) && PointerGet(root, tc) == c.value &&
    (p.value.Some? && p.value.value.JObj? ==>
      forall key :: key in p.value.value.fields && key != tc[|tp|] ==>
        PointerGet(root, tp + [key]) == Some(p.value.value.fields[key]))
  }

  /** The intended promise of the sort, for any parent and child: both survive, whichever of
      the two was stored first. */
  lemma MaterializeParentBeforeChild(p: Entry, c: Entry)
    requires !p.tombstone && !c.tombstone
    requires Nests(Tokens(p.path), Tokens(c.path))
    ensures KeepsBoth(MaterializeSpec([p, c]), p, c) && KeepsBoth(MaterializeSpec([c, p]), p, c)
  {
    SortTwo(TokenDepth, p, c);
    ParentThenChild(p, c);
  }

  /** The code as written keeps the same promise when the parent's stored path is also the
      shorter string. */
  lemma AsWrittenParentBeforeChild(p: Entry, c: Entry)
    requires !p.tombstone && !c.tombstone
    requires Nests(Tokens(p.path), Tokens(c.path)) && |p.path| < |c.path|
    ensures KeepsBoth(MaterializeAsWritten([p, c]), p, c) && KeepsBoth(MaterializeAsWritten([c, p]), p, c)
  {
    SortTwo(PathLength, p, c);
    ParentThenChild(p, c);
  }

  /** An escaped token lengthens the parent's path: `~0~0~0` is the token `~~~`, written in
      six characters, and its child `~~~/x` has five. The length sort applies the child first
      and the parent then replaces it, in either stored order (the depth sort keeps both, by
      MaterializeParentBeforeChild). */
  lemma EscapedParentClobbersChild(p: Entry, c: Entry)
    requires p.path == "~0~0~0" && !p.tombstone && p.value == Some(JObj(map["a" := JNum(1)]))
    requires c.path == "~~~/x" && !c.tombstone && c.value == Some(JNum(2))
    ensures Nests(Tokens(p.path), Tokens(c.path))
    ensures PointerGet(MaterializeAsWritten([p, c]), Tokens(c.path)) == None
    ensures PointerGet(MaterializeAsWritten([c, p]), Tokens(c.path)) == None
  {
    EscapedParentTokens(p.path);
    PlainChildTokens(c.path);
    assert PathLength(c) < PathLength(p);
    SortTwo(PathLength, c, p);
    ChildThenParent(c, p, "~~~", "x");
  }

  /** A child written before a single-token parent is replaced by the parent's value. */
  lemma ChildThenParent(c: Entry, p: Entry, t: string, x: string)
    requires !c.tombstone && !p.tombstone
    requires Tokens(p.path) == [t] && Tokens(c.path) == [t, x]
    requires p.value.Some? && p.value.value.JObj? && x !in p.value.value.fields
    ensures PointerGet(ApplyAll(map[], [c, p]), Tokens(c.path)) == None
  {
    ApplyPair(c, p);
    var root := PointerSet(PointerSet(map[], [t, x], c.value), [t], p.value);
    PointerSetLast(PointerSet(map[], [t, x], c.value), [t], p.value);
    assert root[t] == p.value.value;
    assert [t, x][1..] == [x];
  }

  lemma EscapedParentTokens(s: string)
    requires s == "~0~0~0"
    ensures Tokens(s) == ["~~~"]
  {
    EscapeTildes();
    UnescapeEscape("~~~");
    assert '/' !in s;
    assert SerializedPath(s)[1..] == s;
    SplitPlain(s);
  }

  lemma EscapeTildes()
    ensures Escape("~~~") == "~0~0~0"
  {
    assert Escape("~") == "~0";
    assert Escape("~~") == "~0~0";
  }

  lemma PlainChildTokens(s: string)
    requires s == "~~~/x"
    ensures Tokens(s) == ["~~~", "x"]
  {
    UnescapeTildes();
    assert s == "~~~" + "/" + "x";
    assert SerializedPath(s)[1..] == s;
    assert '/' !in "~~~" && '/' !in "x";
    SplitAtSlash("~~~", "x");
    SplitPlain("x");
    UnescapePlain("x");
  }

  lemma UnescapeTildes()
    ensures Unescape("~~~") == "~~~"
  {
    assert ReplaceTilde1("~") == "~";
    assert ReplaceTilde1("~~") == "~~";
    assert ReplaceTilde1("~~~") == "~~~";
    assert ReplaceTilde0("~") == "~";
    assert ReplaceTilde0("~~") == "~~";
    assert ReplaceTilde0("~~~") == "~~~";
  }

  /** Two entries come out smaller key first, whichever order they went in. */
  lemma SortTwo(key: Entry -> nat, a: Entry, b: Entry)
    requires key(a) < key(b)
    ensures SortBy(key, [a, b]) == [a, b] && SortBy(key, [b, a]) == [a, b]
  {
    assert [a, b][1..] == [b] && [b, a][1..] == [a];
    assert [a][1..] == [] && [b][1..] == [];
    assert SortBy(key, [b]) == [b];
    assert SortBy(key, [a]) == [a];
  }

  /** Writing two live entries is two pointer writes. */
  lemma ApplyPair(first: Entry, second: Entry)
    requires !first.tombstone && !second.tombstone
    ensures ApplyAll(map[], [first, second])
         == PointerSet(PointerSet(map[], Tokens(first.path), first.value), Tokens(second.path), second.value)
  {
    ApplyAllSnoc(map[], [], first);
    ApplyAllSnoc(map[], [first], second);
    assert [] + [first] == [first] && [first] + [second] == [first, second];
  }

  /** A parent written before a nested child: the child's write branches off every other
      member of the parent, so those members survive. */
  lemma ParentThenChild(p: Entry, c: Entry)
    requires !p.tombstone && !c.tombstone
    requires Nests(Tokens(p.path), Tokens(c.path))
    ensures KeepsBoth(ApplyAll(map[], [p, c]), p, c)
  {
    var tp, tc := Tokens(p.path), Tokens(c.path);
    ApplyPair(p, c);
    var afterParent := PointerSet(map[], tp, p.value);
    var root := PointerSet(afterParent, tc, c.value);
    if p.value.Some? && p.value.value.JObj? {
      var fields := p.value.value.fields;
      forall key | key in fields && key != tc[|tp|] ensures PointerGet(root, tp + [key]) == Some(fields[key]) {
        BranchesOffAt(tp + [key], tc, |tp|);
        PointerGetMember(afterParent, tp, key);
      }
    }
  }

  /** Agreeing up to index `i` and differing there is branching off. */
  lemma {:induction false} BranchesOffAt(q: seq<string>, tokens: seq<string>, i: nat)
    requires i < |q| && i < |tokens| && q[..i] == tokens[..i] && q[i] != tokens[i]
    ensures BranchesOff(q, tokens)
    decreases i
  {
    if i > 0 {
      assert q[0] == q[..i][0] == tokens[..i][0] == tokens[0];
      assert q[1..][..i - 1] == q[1..i] == tokens[1..i] == tokens[1..][..i - 1];
      BranchesOffAt(q[1..], tokens[1..], i - 1);
    }
  }

  /** One token further into an object reads its member. */
  lemma {:induction false} PointerGetMember(m: map<string, Json>, ts: seq<string>, key: string)
    requires |ts| >= 1
    requires PointerGet(m, ts).Some? && PointerGet(m, ts).value.JObj? && key in PointerGet(m, ts).value.fields
    ensures PointerGet(m, ts + [key]) == Some(PointerGet(m, ts).value.fields[key])
    decreases |ts|
  {
    assert (ts + [key])[0] == ts[0];
    if |ts| > 1 {
      assert (ts + [key])[1..] == ts[1..] + [key];
      PointerGetMember(m[ts[0]].fields, ts[1..], key);
    } else {
      assert (ts + [key])[1..] == [key];
    }
  }

  /** The example that motivates the sort: `/user = {"age": 30}` and `/user/name = "Ada"`
      merge into one object, whichever of the two entries was stored first. */
  lemma MaterializeParentThenChild(parent: Entry, child: Entry)
    requires parent.path == "user" && !parent.tombstone && parent.value == Some(JObj(map["age" := JNum(30)]))
    requires child.path == "user/name" && !child.tombstone && child.value == Some(JStr("Ada"))
    ensures var expected := map["user" := JObj(map["age" := JNum(30), "name" := JStr("Ada")])];
            MaterializeSpec([parent, child]) == expected && MaterializeSpec([child, parent]) == expected
  {
    UserTokens(parent.path);
    UserNameTokens(child.path);
    SortTwo(TokenDepth, parent, child);
    ApplyParentThenChild(parent, child);
  }

  lemma ApplyParentThenChild(parent: Entry, child: Entry)
    requires parent.path == "user" && !parent.tombstone && parent.value == Some(JObj(map["age" := JNum(30)]))
    requires child.path == "user/name" && !child.tombstone && child.value == Some(JStr("Ada"))
    ensures ApplyAll(map[], [parent, child]) == map["user" := JObj(map["age" := JNum(30), "name" := JStr("Ada")])]
  {
    var afterParent := map["user" := JObj(map["age" := JNum(30)])];
    ApplyParent(parent);
    ApplyTwo(parent, child, afterParent);
    ApplyChild(afterParent, child.value);
  }

  lemma ApplyParent(parent: Entry)
    requires parent.path == "user" && !parent.tombstone && parent.value == Some(JObj(map["age" := JNum(30)]))
    ensures ApplyAll(map[], [parent]) == map["user" := JObj(map["age" := JNum(30)])]
  {
    UserTokens(parent.path);
    assert [parent][..0] == [];
    PointerSetLast(map[], ["user"], parent.value);
  }

  lemma ApplyTwo(parent: Entry, child: Entry, afterParent: map<string, Json>)
    requires child.path == "user/name" && !child.tombstone
    requires ApplyAll(map[], [parent]) == afterParent
    ensures ApplyAll(map[], [parent, child]) == PointerSet(afterParent, ["user", "name"], child.value)
  {
    UserNameTokens(child.path);
    ApplyAllSnoc(map[], [parent], child);
    assert [parent] + [child] == [parent, child];
  }

  lemma UserTokens(s: string)
    requires s == "user"
    ensures Tokens(s) == ["user"]
  {
    assert PlainToken(s);
    PlainTokens(s);
  }

  lemma UserNameTokens(s: string)
    requires s == "user/name"
    ensures Tokens(s) == ["user", "name"]
  {
    assert PlainToken("user") && PlainToken("name");
    NestedTokens("user", "name");
    assert "user" + "/" + "name" == s;
  }

  /** One more entry at the end of the list is one more pointer application (or none). */
  lemma ApplyAllSnoc(root: map<string, Json>, es: seq<Entry>, e: Entry)
    ensures ApplyAll(root, es + [e]) ==
      if e.tombstone then ApplyAll(root, es) else PointerSet(ApplyAll(root, es), Tokens(e.path), e.value)
  {
    assert (es + [e])[..|es|] == es;
  }

  lemma ApplyChild(afterParent: map<string, Json>, v: Option<Json>)
    requires afterParent == map["user" := JObj(map["age" := JNum(30)])]
    requires v == Some(JStr("Ada"))
    ensures PointerSet(afterParent, ["user", "name"], v) == map["user" := JObj(map["age" := JNum(30), "name" := JStr("Ada")])]
  {
    var inner := map["age" := JNum(30)];
    assert ChildObject(afterParent, "user") == inner;
    PointerSetLast(inner, ["name"], v);
    assert ["user", "name"][1..] == ["name"];
  }

  /** A reference token with neither '/' nor '~' in it. */
  predicate PlainToken(s: string) {
    forall i :: 0 <= i < |s| ==> s[i] != '/' && s[i] != '~'
  }

  lemma PlainTokens(s: string)
    requires PlainToken(s)
    ensures Tokens(s) == [s]
  {
    assert '/' !in s by { forall i | 0 <= i < |s| ensures s[i] != '/' { } }
    assert SerializedPath(s)[1..] == s by {
      if |s| > 0 { assert s[0] != '/'; }
      assert ("/" + s)[1..] == s;
    }
    SplitPlain(s);
    UnescapePlain(s);
  }

  lemma NestedTokens(a: string, b: string)
    requires PlainToken(a) && PlainToken(b) && |a| > 0
    ensures Tokens(a + "/" + b) == [a, b]
  {
    var s := a + "/" + b;
    assert '/' !in a by { forall i | 0 <= i < |a| ensures a[i] != '/' { } }
    assert '/' !in b by { forall i | 0 <= i < |b| ensures b[i] != '/' { } }
    assert SerializedPath(s)[1..] == s by {
      assert s[0] == a[0];
      assert ("/" + s)[1..] == s;
    }
    SplitAtSlash(a, b);
    SplitPlain(b);
    UnescapePlain(a);
    UnescapePlain(b);
  }

  lemma UnescapePlain(s: string)
    requires forall i :: 0 <= i < |s| ==> s[i] != '~'
    ensures Unescape(s) == s
  {
    PlainReplace1(s);
    PlainReplace0(s);
  }

  lemma {:induction false} PlainReplace1(s: string)
    requires forall i :: 0 <= i < |s| ==> s[i] != '~'
    ensures ReplaceTilde1(s) == s
  {
    if |s| > 0 { PlainReplace1(s[1..]); assert s == [s[0]] + s[1..]; }
  }

  lemma {:induction false} PlainReplace0(s: string)
    requires forall i :: 0 <= i < |s| ==> s[i] != '~'
    ensures ReplaceTilde0(s) == s
  {
    if |s| > 0 { PlainReplace0(s[1..]); assert s == [s[0]] + s[1..]; }
  }

  /** Kotlin `Int` arithmetic: results wrap into [-2^31, 2^31). */
  function WrapInt32(x: int): (r: int)
    ensures -0x8000_0000 <= r < 0x8000_0000
    ensures (x - r) % 0x1_0000_0000 == 0
  {
    (x + 0x8000_0000) % 0x1_0000_0000 - 0x8000_0000
  }

  // ---------------------------------------------------------------------------
  // The store object. The SharedPreferences file is modelled by the fields below; a value
  // that is absent from the preferences is None.

  class StateStore {
    var storedReplicaId: Option<string>
    var storedEpoch: Option<int>
    var entries: seq<Entry>
    var peerSeen: PeerTable

    ghost predicate Valid()
      reads this
    {
      DistinctPaths(entries)
    }

    /** A store over the given persisted preferences (corrupt entry data reads as empty). */
    constructor (replicaId: Option<string>, epoch: Option<int>, persisted: seq<Entry>, seen: PeerTable)
      requires DistinctPaths(persisted)
      ensures Valid()
      ensures storedReplicaId == replicaId && storedEpoch == epoch && entries == persisted && peerSeen == seen
    {
      storedReplicaId, storedEpoch, entries, peerSeen := replicaId, epoch, persisted, seen;
    }

    /** `getReplicaId`: always "phone"; a different stored id is a migration that clears the
        entries and the acknowledgements. */
    method GetReplicaId() returns (id: string)
      requires Valid()
      modifies this
      ensures Valid()
      ensures id == PhoneReplicaId && storedReplicaId == Some(PhoneReplicaId)
      ensures storedEpoch == old(storedEpoch)
      ensures if old(storedReplicaId).Some? && old(storedReplicaId).value != PhoneReplicaId
              then entries == [] && peerSeen == map[]
              else entries == old(entries) && peerSeen == old(peerSeen)
    {
      if storedReplicaId.Some? && storedReplicaId.value != PhoneReplicaId {
        entries := [];
        peerSeen := map[];
        storedReplicaId := Some(PhoneReplicaId);
        return PhoneReplicaId;
      }
      if storedReplicaId.None? {
        storedReplicaId := Some(PhoneReplicaId);
      }
      return PhoneReplicaId;
    }

    /** `getEpoch`: the stored epoch, 1 when none was stored. */
    method GetEpoch() returns (e: int)
      ensures storedEpoch.None? ==> e == 1
      ensures storedEpoch.Some? ==> e == storedEpoch.value
    {
      e := storedEpoch.GetOr(1);
    }

    /** `bumpEpoch`: one more than `getEpoch`, with Kotlin `Int` wrap-around. */
    method BumpEpoch()
      modifies this
      ensures storedEpoch == Some(WrapInt32(old(storedEpoch).GetOr(1) + 1))
      ensures storedReplicaId == old(storedReplicaId) && entries == old(entries) && peerSeen == old(peerSeen)
    {
      var e := GetEpoch();
      storedEpoch := Some(WrapInt32(e + 1));
    }

    /** `nextLocalVersion`: the clock reading `now` paired with the replica id. */
    method NextLocalVersion(now: int) returns (v: Version)
      requires Valid()
      modifies this
      ensures Valid()
      ensures v == Version(now, PhoneReplicaId) && storedReplicaId == Some(PhoneReplicaId)
      ensures storedEpoch == old(storedEpoch)
      ensures if old(storedReplicaId).Some? && old(storedReplicaId).value != PhoneReplicaId
              then entries == [] && peerSeen == map[]
              else entries == old(entries) && peerSeen == old(peerSeen)
    {
      var id := GetReplicaId();
      v := Version(now, id);
    }

    /** `applyEntry`. */
    method ApplyEntry(newEntry: Entry) returns (changed: bool)
      requires Valid()
      modifies this
      ensures Valid()
      ensures Applied(entries, changed) == ApplySpec(old(entries), newEntry)
      ensures storedReplicaId == old(storedReplicaId) && storedEpoch == old(storedEpoch) && peerSeen == old(peerSeen)
    {
      var normalized := if StartsWith(newEntry.path, "/") then newEntry.path[1..] else newEntry.path;
      assert normalized == StripOneSlash(newEntry.path);
      var altWithSlash := "/" + normalized;
      var existing := Lookup(entries, normalized);
      if existing.None? { existing := Lookup(entries, altWithSlash); }
      var shouldApply := existing.None? || CompareTo(newEntry.version, existing.value.version) > 0;
      ghost var spec := ApplySpec(entries, newEntry);
      if shouldApply {
        var removed := Remove(entries, altWithSlash);
        entries := Put(removed, newEntry.(path := normalized));
        assert spec == Applied(entries, true);
        return true;
      }
      assert spec == Applied(entries, false);
      return false;
    }

    /** `recordPeerSeen`. */
    method RecordPeerSeen(peer: string, path: string, version: Version)
      modifies this
      ensures peerSeen == RecordSpec(old(peerSeen), peer, path, version)
      ensures storedReplicaId == old(storedReplicaId) && storedEpoch == old(storedEpoch) && entries == old(entries)
    {
      var m := if peer in peerSeen then peerSeen[peer] else map[];
      var normalized := if StartsWith(path, "/") then path[1..] else path;
      peerSeen := peerSeen[peer := m[normalized := version]];
    }

    /** `hasPeerSeen`. */
    function HasPeerSeen(peer: string, path: string, version: Version): (seen: bool)
      reads this
      ensures seen == HasPeerSeenSpec(peerSeen, peer, path, version)
      ensures seen ==> forall w :: CompareTo(version, w) >= 0 ==> HasPeerSeenSpec(peerSeen, peer, path, w)
    {
      if peer !in peerSeen then false
      else
        var normalized := StripOneSlash(path);
        var verObj := if normalized in peerSeen[peer] then Some(peerSeen[peer][normalized])
                      else if path in peerSeen[peer] then Some(peerSeen[peer][path]) else None;
        var seen := verObj.Some? && CompareTo(verObj.value, version) >= 0;
        if seen then HasPeerSeenCoversOlder(peerSeen, peer, path, version); seen else seen
    }

    /** `gcAcknowledgedTombstones`: collect the paths of acknowledged tombstones, then remove them. */
    method GcAcknowledgedTombstones(peer: string)
      requires Valid()
      modifies this
      ensures Valid()
      ensures entries == GcSpec(old(entries), peerSeen, peer)
      ensures storedReplicaId == old(storedReplicaId) && storedEpoch == old(storedEpoch) && peerSeen == old(peerSeen)
    {
      var toRemove: seq<string> := [];
      var i := 0;
      while i < |entries|
        invariant 0 <= i <= |entries|
        invariant forall p :: p in toRemove <==> exists e :: e in entries[..i] && e.path == p && Collectable(peerSeen, peer, e)
      {
        var entry := entries[i];
        assert entries[..i + 1] == entries[..i] + [entry];
        if entry.tombstone && HasPeerSeen(peer, entry.path, entry.version) {
          toRemove := toRemove + [entry.path];
        }
        i := i + 1;
      }
      assert entries[..i] == entries;
      forall e | e in entries ensures e.path in toRemove <==> Collectable(peerSeen, peer, e) {
        if e.path in toRemove {
          var e' :| e' in entries && e'.path == e.path && Collectable(peerSeen, peer, e');
          SamePathSameEntry(entries, e, e');
        }
      }
      KeepPathsIsGc(entries, peerSeen, peer, toRemove);
      GcDistinct(entries, peerSeen, peer);
      if |toRemove| > 0 {
        entries := KeepPaths(entries, toRemove);
      } else {
        KeepPathsEmpty(entries);
      }
    }

    /** `materialize`: sort, then apply every live entry through the pointer helper. The sort is
        by token depth, the order that puts parents before children (see MaterializeAsWritten
        for the raw length the code sorts by). */
    method Materialize() returns (root: map<string, Json>)
      ensures root == MaterializeSpec(entries)
    {
      root := map[];
      var sorted := SortBy(TokenDepth, entries);
      var i := 0;
      while i < |sorted|
        invariant 0 <= i <= |sorted|
        invariant root == ApplyAll(map[], sorted[..i])
      {
        var e := sorted[i];
        assert sorted[..i + 1][..i] == sorted[..i];
        if !e.tombstone {
          root := JsonPointerApply(root, e.path, e.value);
        }
        i := i + 1;
      }
      assert sorted[..i] == sorted;
    }

    /** `getAllEntries`. */
    function AllEntries(): seq<Entry>
      reads this
    {
      entries
    }
  }

  lemma {:induction false} KeepPathsEmpty(es: seq<Entry>)
    ensures KeepPaths(es, []) == es
  {
    if |es| > 0 { KeepPathsEmpty(es[1..]); }
  }
}
