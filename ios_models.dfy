/** Models of the iOS side (StateModels.swift): the LWW version with Swift's `<`, and the
    entry and operation records. `CodableValue` is the Json datatype. */
module IosModels {
  import opened Json
  import opened Text
  import AndroidModels

  /** A version: an `Int64` millisecond timestamp and the writing replica's id. */
  datatype Version = Version(ts: int, r: string)

  /** Swift `Version.<`: the timestamps decide when they differ, the replica ids otherwise. */
  predicate Less(a: Version, b: Version) {
    if a.ts != b.ts then a.ts < b.ts else StrLess(a.r, b.r)
  }

  /** No version is below itself. */
  lemma LessIrreflexive(a: Version)
    ensures !Less(a, a)
  {
    StrLessIrreflexive(a.r);
  }

  lemma LessTransitive(a: Version, b: Version, c: Version)
    requires Less(a, b) && Less(b, c)
    ensures Less(a, c)
  {
    if a.ts == b.ts == c.ts { StrLessTransitive(a.r, b.r, c.r); }
  }

  /** For two different versions exactly one is below the other; equal ones are unordered. */
  lemma LessTrichotomy(a: Version, b: Version)
    ensures a != b ==> (Less(a, b) <==> !Less(b, a))
    ensures a == b ==> !Less(a, b) && !Less(b, a)
  {
    if a == b {
      LessIrreflexive(a);
    } else if a.ts == b.ts {
      StrLessTotal(a.r, b.r);
      if StrLess(a.r, b.r) { StrLessAsymmetric(a.r, b.r); } else { StrLessAsymmetric(b.r, a.r); }
    }
  }

  /** A lexicographically greater replica id wins a timestamp tie. */
  lemma TieBreak(ts: int, r1: string, r2: string)
    requires StrLess(r1, r2)
    ensures Less(Version(ts, r1), Version(ts, r2))
    ensures Less(Version(100, "a"), Version(100, "b"))
  {
    assert StrLess("a", "b");
  }

  /** Both platforms order versions the same way: Swift's `a < b` is Kotlin's `a.compareTo(b) < 0`. */
  lemma LessAgreesWithCompareTo(a: Version, b: Version)
    ensures Less(a, b) <==>
      AndroidModels.CompareTo(AndroidModels.Version(a.ts, a.r), AndroidModels.Version(b.ts, b.r)) < 0
  {
  }

  /** `StateEntry`: `value == None` is Swift's nil. */
  datatype StateEntry = StateEntry(path: string, tombstone: bool, version: Version, value: Option<Json>)

  /** `StateOp`: `kind` is the `type` member, "put" or "del". */
  datatype StateOp = StateOp(kind: string, path: string, value: Option<Json>, version: Version, opId: string, ts: int)

  /** Swift `as? Int64` on a JSON number. */
  predicate IsInt64(n: int) {
    Int64Min <= n <= Int64Max
  }

  /** The `{"ts": ..., "r": ...}` dictionary the sync layer writes for a version. */
  function VersionToDict(v: Version): (j: Json)
    ensures IsInt64(v.ts) ==> VersionFromDict(j) == Some(v)
  {
    JObj(map["ts" := JNum(v.ts), "r" := JStr(v.r)])
  }

  /** The guard `versionDict["ts"] as? Int64, versionDict["r"] as? String`. */
  function VersionFromDict(j: Json): (r: Option<Version>)
    ensures r.Some? <==> j.JObj? && "ts" in j.fields && j.fields["ts"].JNum? && IsInt64(j.fields["ts"].n)
                         && "r" in j.fields && j.fields["r"].JStr?
    ensures r.Some? ==> r.value == Version(j.fields["ts"].n, j.fields["r"].s)
  {
    match (Field(j, "ts"), Field(j, "r"))
    case (Some(JNum(ts)), Some(JStr(r))) => if IsInt64(ts) then Some(Version(ts, r)) else None
    case _ => None
  }
}
