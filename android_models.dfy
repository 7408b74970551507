/** Wire models of the Android side (StateModels.kt): the LWW version with its
    comparison, and the JSON encodings of state entries and state operations. */
module AndroidModels {
  import opened Json
  import opened Text

  // Field names and operation kinds of the protocol (StateSyncSpec.JsonKeys, StateSyncSpec.OpType).
  const KeyType := "type"
  const KeyPath := "path"
  const KeyValue := "value"
  const KeyVersion := "version"
  const KeyOpId := "opId"
  const KeyTs := "ts"
  const KeyR := "r"
  const KeyTombstone := "tombstone"
  const OpPut := "put"
  const OpDel := "del"

  /** Logical version: a millisecond timestamp and the writing replica's id. */
  datatype Version = Version(ts: int, r: string)

  /** `Version.compareTo`: the timestamp decides; equal timestamps fall back to the
      lexicographic order of replica ids. Only the sign is meaningful. */
  function CompareTo(a: Version, b: Version): (c: int)
    ensures c > 0 <==> a.ts > b.ts || (a.ts == b.ts && StrLess(b.r, a.r))
    ensures c < 0 <==> a.ts < b.ts || (a.ts == b.ts && StrLess(a.r, b.r))
    ensures c == 0 <==> a == b
  {
    if a.ts > b.ts then 1
    else if a.ts < b.ts then -1
    else StrCompare(a.r, b.r)
  }

  /** `a > b` in Kotlin, i.e. `a.compareTo(b) > 0`. */
  predicate Newer(a: Version, b: Version) {
    CompareTo(a, b) > 0
  }

  /** Swapping the operands flips the sign of the comparison. */
  lemma CompareToAntisymmetric(a: Version, b: Version)
    ensures CompareTo(a, b) > 0 <==> CompareTo(b, a) < 0
    ensures CompareTo(a, b) == 0 <==> CompareTo(b, a) == 0
  {
    if a.ts == b.ts && a.r != b.r {
      StrLessTotal(a.r, b.r);
      if StrLess(a.r, b.r) { StrLessAsymmetric(a.r, b.r); } else { StrLessAsymmetric(b.r, a.r); }
    }
  }

  lemma CompareToTransitive(a: Version, b: Version, c: Version)
    requires CompareTo(a, b) > 0 && CompareTo(b, c) > 0
    ensures CompareTo(a, c) > 0
  {
    if a.ts == b.ts == c.ts { StrLessTransitive(c.r, b.r, a.r); }
  }

  /** Any two distinct versions are ordered one way or the other: the order is total. */
  lemma CompareToTotal(a: Version, b: Version)
    requires a != b
    ensures Newer(a, b) != Newer(b, a)
  {
    CompareToAntisymmetric(a, b);
  }

  /** The tie-break on equal timestamps, and a larger timestamp winning whatever the ids. */
  lemma TieBreakExamples(r1: string, r2: string, t1: int, t2: int)
    requires t1 > t2
    ensures Newer(Version(100, "b"), Version(100, "a"))
    ensures Newer(Version(t1, r1), Version(t2, r2))
  {
    assert StrLess("a", "b");
  }

  /** `Version.toJson`. */
  function VersionToJson(v: Version): (j: Json)
    ensures j.JObj? && VersionFromJson(j) == v
  {
    JObj(map[KeyTs := JNum(v.ts), KeyR := JStr(v.r)])
  }

  /** `Version.fromJson`: `optLong("ts", 0)` and `optString("r", "")`. */
  function VersionFromJson(obj: Json): (v: Version)
    ensures Field(obj, KeyTs).None? ==> v.ts == 0
    ensures Field(obj, KeyR).None? ==> v.r == ""
  {
    var ts := match Field(obj, KeyTs) case Some(JNum(n)) => n case _ => 0;
    var r := match Field(obj, KeyR) case Some(JStr(s)) => s case _ => "";
    Version(ts, r)
  }

  /** An entry of the store. A tombstone marks a deleted path; `value == None` is Kotlin's null. */
  datatype Entry = Entry(path: string, tombstone: bool, version: Version, value: Option<Json>)

  /** The path as written on the wire: with a leading '/' added when it has none. */
  function SerializedPath(p: string): (s: string)
    ensures |s| > 0 && s[0] == '/'
    ensures (|p| == 0 || p[0] != '/') ==> s == "/" + p
    ensures |p| > 0 && p[0] == '/' ==> s == p
  {
    if StartsWith(p, "/") then p else "/" + TrimLeadingSlashes(p)
  }

  /** `StateEntry.toJson`. The value member is left out for tombstones and null values; decoding
      gives back the tombstone flag and the version, and the path without one leading slash. */
  function EntryToJson(e: Entry): (j: Json)
    ensures Field(j, KeyPath).Some? && Field(j, KeyPath).value.JStr?
    ensures var p := Field(j, KeyPath).value.s; |p| > 0 && p[0] == '/'
    ensures Has(j, KeyValue) <==> !e.tombstone && e.value.Some?
    ensures EntryFromJson(j) ==
      Ok(Entry(StripOneSlash(SerializedPath(e.path)), e.tombstone, e.version,
               if e.tombstone then None else e.value))
  {
    var base := map[KeyPath := JStr(SerializedPath(e.path)), KeyTombstone := JBool(e.tombstone),
                    KeyVersion := VersionToJson(e.version)];
    if !e.tombstone && e.value.Some? then JObj(base[KeyValue := e.value.value]) else JObj(base)
  }

  /** `StateEntry.fromJson`: `getString("path")` and `getJSONObject("version")` fail when the
      member is missing or of the wrong kind; one leading '/' is stripped from the path; the
      value is dropped for tombstones. */
  function EntryFromJson(obj: Json): (r: Result<Entry>)
    ensures r.Ok? <==> Field(obj, KeyPath).Some? && Field(obj, KeyPath).value.JStr?
                       && Field(obj, KeyVersion).Some? && Field(obj, KeyVersion).value.JObj?
    ensures r.Ok? ==> r.value.path == StripOneSlash(Field(obj, KeyPath).value.s)
    ensures r.Ok? && r.value.tombstone ==> r.value.value.None?
  {
    match (Field(obj, KeyPath), Field(obj, KeyVersion))
    case (Some(JStr(p)), Some(JObj(vf))) =>
      var tomb := match Field(obj, KeyTombstone) case Some(JBool(b)) => b case _ => false;
      var value := if !tomb && Has(obj, KeyValue) then Some(obj.fields[KeyValue]) else None;
      Ok(Entry(StripOneSlash(p), tomb, VersionFromJson(JObj(vf)), value))
    case (Some(JStr(_)), _) => Err("version is not an object")
    case _ => Err("path is not a string")
  }

  /** Round trip of an entry as the store keeps it, i.e. with no leading slash. */
  lemma EntryRoundTrip(e: Entry)
    requires |e.path| == 0 || e.path[0] != '/'
    ensures EntryFromJson(EntryToJson(e)) ==
      Ok(if e.tombstone then e.(value := None) else e)
  {
    assert StripOneSlash("/" + e.path) == e.path;
  }

  /** An outbound operation. */
  datatype Op = Op(kind: string, path: string, version: Version, value: Option<Json>, opId: string, ts: int)

  /** `StateOp.toJson`: the value member is present only for a "put" with a non-null value. */
  function OpToJson(op: Op): (j: Json)
    ensures Has(j, KeyValue) <==> op.kind == OpPut && op.value.Some?
    ensures forall now :: (OpFromJson(j, now) ==
      Ok(op.(value := if op.kind == OpPut then op.value else None)))
  {
    var base := map[KeyType := JStr(op.kind), KeyPath := JStr(op.path),
                    KeyVersion := VersionToJson(op.version), KeyOpId := JStr(op.opId),
                    KeyTs := JNum(op.ts)];
    if op.kind == OpPut && op.value.Some? then JObj(base[KeyValue := op.value.value]) else JObj(base)
  }

  /** `StateOp.fromJson`. `now` stands for the wall-clock default of the `ts` member. */
  function OpFromJson(obj: Json, now: int): (r: Result<Op>)
    ensures r.Ok? <==> Field(obj, KeyType).Some? && Field(obj, KeyType).value.JStr?
                       && Field(obj, KeyPath).Some? && Field(obj, KeyPath).value.JStr?
                       && Field(obj, KeyVersion).Some? && Field(obj, KeyVersion).value.JObj?
    ensures r.Ok? && r.value.kind != OpPut ==> r.value.value.None?
    ensures r.Ok? && Field(obj, KeyTs).None? ==> r.value.ts == now
  {
    match (Field(obj, KeyType), Field(obj, KeyPath), Field(obj, KeyVersion))
    case (Some(JStr(t)), Some(JStr(p)), Some(JObj(vf))) =>
      var opId := match Field(obj, KeyOpId) case Some(JStr(s)) => s case _ => "";
      var ts := match Field(obj, KeyTs) case Some(JNum(n)) => n case _ => now;
      var value := if t == OpPut && Has(obj, KeyValue) then Some(obj.fields[KeyValue]) else None;
      Ok(Op(t, p, VersionFromJson(JObj(vf)), value, opId, ts))
    case _ => Err("type, path or version missing")
  }
}
