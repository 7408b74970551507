/** `StateStore.mergeValues` on iOS (StateStore.swift): writes a value into a nested result at
    a list of path components, creating objects and arrays on the way. The walk keeps a stack
    of the nodes it passed and the key it left each by; afterwards it rebuilds the result from
    the innermost node outward. Swift dictionaries and arrays are values, so the model is on
    values too. */
module IosMerge {
  import opened Json
  import opened Text

  /** The key under which `mergeValues` stores a non-object value given for the root. */
  const RootValueKey := "value"

  // ---------------------------------------------------------------------------
  // Reading a nested value.

  /** An array index: Swift's `Int(comp)` when it is not negative. */
  function ArrayIndex(comp: string): (r: Option<nat>)
    ensures r.Some? <==> ParseInt(comp).Some? && ParseInt(comp).value >= 0
    ensures r.Some? ==> r.value == ParseInt(comp).value
  {
    match ParseInt(comp)
    case Some(i) => if i >= 0 then Some(i) else None
    case None => None
  }

  /** The value at `comps`: object members by key, array elements by index. */
  function GetAt(node: Json, comps: seq<string>): Option<Json>
    decreases |comps|
  {
    if |comps| == 0 then Some(node)
    else match node
      case JObj(m) => if comps[0] in m then GetAt(m[comps[0]], comps[1..]) else None
      case JArr(a) =>
        var idx := ArrayIndex(comps[0]);
        if idx.Some? && idx.value < |a| then GetAt(a[idx.value], comps[1..]) else None
      case _ => None
  }

  // ---------------------------------------------------------------------------
  // One step of the walk, and the rebuild.

  /** A node passed on the way down, with the key the walk left it by. The array of an
      `InArray` frame already has the padding and the fresh object the walk added. */
  datatype Frame = InObject(fields: map<string, Json>, key: string) | InArray(items: seq<Json>, index: nat)

  function Nulls(n: nat): (r: seq<Json>)
    ensures |r| == n && forall j :: 0 <= j < n ==> r[j] == JNull
  {
    if n == 0 then [] else Nulls(n - 1) + [JNull]
  }

  /** The array padded with nulls up to position `i` (unchanged when it is long enough). */
  function Padded(a: seq<Json>, i: nat): (r: seq<Json>)
    ensures |r| == if i <= |a| then |a| else i
    ensures r[..|a|] == a
    ensures forall j :: |a| <= j < |r| ==> r[j] == JNull
  {
    if i <= |a| then a else a + Nulls(i - |a|)
  }

  /** A step through component `comp` that is not the last one: the frame to remember and the
      node to continue in. An object continues in its member (a fresh object when missing); an
      array continues in its element, after padding and appending a fresh object when the
      index is at or past the end; anything else, and an array with a key that is not an
      index, is replaced by an object. */
  function Descend(node: Json, comp: string): (Frame, Json) {
    match node
    case JObj(m) => (InObject(m, comp), if comp in m then m[comp] else JObj(map[]))
    case JArr(a) =>
      (match ArrayIndex(comp)
       case Some(i) =>
         if i < |a| then (InArray(a, i), a[i])
         else (InArray(Padded(a, i) + [JObj(map[])], i), JObj(map[]))
       case None => (InObject(map[], comp), JObj(map[])))
    case _ => (InObject(map[], comp), JObj(map[]))
  }

  /** The step through the last component: the updated node. */
  function LastStep(node: Json, comp: string, value: Json): Json {
    match node
    case JObj(m) => JObj(m[comp := value])
    case JArr(a) =>
      (match ArrayIndex(comp)
       case Some(i) => if i < |a| then JArr(a[i := value]) else JArr(Padded(a, i) + [value])
       case None => JObj(map[comp := value]))
    case _ => JObj(map[comp := value])
  }

  /** Puts the updated child back into a remembered node (the reconstruction loop). */
  function Plug(f: Frame, updated: Json): Json {
    match f
    case InObject(m, k) => JObj(m[k := updated])
    case InArray(a, i) =>
      if i < |a| then JArr(a[i := updated]) else if i == |a| then JArr(a + [updated]) else JArr(a)
  }

  /** Rebuilds through all remembered nodes, innermost (last) first. */
  function PlugAll(frames: seq<Frame>, updated: Json): Json
    decreases |frames|
  {
    if |frames| == 0 then updated
    else PlugAll(frames[..|frames| - 1], Plug(frames[|frames| - 1], updated))
  }

  /** The nested write. Reading the path back gives the value; members of an object other than
      the first component keep their values; elements of an array other than the indexed one
      keep theirs, and a gap before the index is filled with nulls. */
  function SetAt(node: Json, comps: seq<string>, value: Json): (r: Json)
    requires |comps| >= 1
    ensures GetAt(r, comps) == Some(value)
    ensures node.JObj? ==> r.JObj? && r.fields.Keys == node.fields.Keys + {comps[0]}
    ensures node.JObj? ==> forall k :: k in node.fields && k != comps[0] ==> r.fields[k] == node.fields[k]
    ensures node.JArr? && ArrayIndex(comps[0]).Some? ==>
              var i := ArrayIndex(comps[0]).value;
              && r.JArr?
              && |r.items| == (if i < |node.items| then |node.items| else i + 1)
              && (forall j :: 0 <= j < |node.items| && j != i ==> r.items[j] == node.items[j])
              && (forall j :: |node.items| <= j < i ==> r.items[j] == JNull)
    ensures !node.JObj? && !(node.JArr? && ArrayIndex(comps[0]).Some?) ==>
              r.JObj? && r.fields.Keys == {comps[0]}
    decreases |comps|
  {
    if |comps| == 1 then
      var r := LastStep(node, comps[0], value);
      assert comps[1..] == [];
      r
    else
      var (f, child) := Descend(node, comps[0]);
      var inner := SetAt(child, comps[1..], value);
      Plug(f, inner)
  }

  /** One descent step in the middle of a path, as the walk's loop sees it. */
  lemma SetAtStep(node: Json, comps: seq<string>, value: Json)
    requires |comps| >= 2
    ensures SetAt(node, comps, value) == Plug(Descend(node, comps[0]).0, SetAt(Descend(node, comps[0]).1, comps[1..], value))
  {
  }

  // ---------------------------------------------------------------------------
  // mergeValues.

  /** `mergeValues(base, value, comps)`: with no components an object value is merged key by
      key into the top level and any other value is stored under "value"; otherwise the
      nested write on the top-level object. */
  function MergeSpec(base: map<string, Json>, value: Json, comps: seq<string>): (r: map<string, Json>)
    ensures |comps| == 0 && value.JObj? ==> r == base + value.fields
    ensures |comps| == 0 && !value.JObj? ==> r == base[RootValueKey := value]
    ensures |comps| > 0 ==> GetAt(JObj(r), comps) == Some(value)
    ensures |comps| > 0 ==> r.Keys == base.Keys + {comps[0]}
                            && forall k :: k in base && k != comps[0] ==> r[k] == base[k]
  {
    if |comps| == 0 then
      if value.JObj? then base + value.fields else base[RootValueKey := value]
    else
      SetAt(JObj(base), comps, value).fields
  }

  /** `for (k, v) in obj { out[k] = v }`: every member of `fields` overwrites `out`. */
  method MergeInto(base: map<string, Json>, fields: map<string, Json>) returns (out: map<string, Json>)
    ensures out == base + fields
  {
    out := base;
    var rest := fields.Keys;
    while rest != {}
      invariant rest <= fields.Keys
      invariant out.Keys == base.Keys + (fields.Keys - rest)
      invariant forall k :: k in out ==> out[k] == if k in fields && k !in rest then fields[k] else base[k]
      decreases |rest|
    {
      var k :| k in rest;
      out := out[k := fields[k]];
      rest := rest - {k};
    }
    assert out == base + fields;
  }

  /** `mergeValues`: the walk down with a stack of frames, then the rebuild loop, then the merge
      of the rebuilt top-level object into the result. */
  method MergeValues(base: map<string, Json>, value: Json, comps: seq<string>) returns (out: map<string, Json>)
    ensures out == MergeSpec(base, value, comps)
  {
    if |comps| == 0 {
      if value.JObj? {
        out := MergeInto(base, value.fields);
      } else {
        out := base[RootValueKey := value];
      }
      return;
    }
    var n := |comps|;
    var frames, cursor := WalkDown(base, value, comps);
    assert comps[n - 1..] == [comps[n - 1]];
    var updated := LastStep(cursor, comps[n - 1], value);
    assert SetAt(cursor, comps[n - 1..], value) == updated;
    updated := Rebuild(frames, updated);
    var top := SetAt(JObj(base), comps, value);
    assert updated == top;
    out := MergeInto(base, top.fields);
    assert base + top.fields == top.fields;
  }

  /** The first loop of `mergeValues`: one frame per component but the last. */
  method WalkDown(base: map<string, Json>, value: Json, comps: seq<string>) returns (frames: seq<Frame>, cursor: Json)
    requires |comps| > 0
    ensures SetAt(JObj(base), comps, value) == PlugAll(frames, SetAt(cursor, comps[|comps| - 1..], value))
  {
    var n := |comps|;
    cursor := JObj(base);
    frames := [];
    var i := 0;
    assert comps[0..] == comps;
    while i < n - 1
      invariant 0 <= i <= n - 1
      invariant SetAt(JObj(base), comps, value) == PlugAll(frames, SetAt(cursor, comps[i..], value))
    {
      var comp := comps[i];
      var (frame, next) := Descend(cursor, comp);
      SetAtStep(cursor, comps[i..], value);
      assert comps[i..][1..] == comps[i + 1..];
      PlugAllSnoc(frames, frame, SetAt(next, comps[i + 1..], value));
      frames := frames + [frame];
      cursor := next;
      i := i + 1;
    }
  }

  /** The second loop of `mergeValues`: the frames are plugged back from the innermost out. */
  method Rebuild(frames: seq<Frame>, inner: Json) returns (updated: Json)
    ensures updated == PlugAll(frames, inner)
  {
    updated := inner;
    var j := |frames|;
    assert frames[..j] == frames;
    while j > 0
      invariant 0 <= j <= |frames|
      invariant PlugAll(frames, inner) == PlugAll(frames[..j], updated)
    {
      assert frames[..j][..j - 1] == frames[..j - 1];
      updated := Plug(frames[j - 1], updated);
      j := j - 1;
    }
  }

  lemma PlugAllSnoc(frames: seq<Frame>, f: Frame, inner: Json)
    ensures PlugAll(frames + [f], inner) == PlugAll(frames, Plug(f, inner))
  {
    assert (frames + [f])[..|frames|] == frames;
  }

  // ---------------------------------------------------------------------------
  // The walk as written. Three of its branches differ from the write above; `None` stands for
  // the runtime trap of indexing an array with a negative number.

  function MergeAsWritten(node: Json, comps: seq<string>, value: Json): (r: Option<Json>)
    requires |comps| >= 1
    ensures r.Some? ==> r.value.JObj? || r.value.JArr?
    decreases |comps|
  {
    var comp := comps[0];
    var isLast := |comps| == 1;
    match node
    case JObj(m) =>
      if isLast then Some(JObj(m[comp := value]))
      else
        var child := if comp in m then m[comp] else JObj(map[]);
        (match MergeAsWritten(child, comps[1..], value)
         case Some(u) => Some(JObj(m[comp := u]))
         case None => None)
    case JArr(a) =>
      (match ParseInt(comp)
      case Some(i) =>
        if i < |a| then
          if i < 0 then None
          else if isLast then Some(JArr(a[i := value]))
          else
            (match MergeAsWritten(a[i], comps[1..], value)
             case Some(u) => Some(JArr(a[i := u]))
             case None => None)
        else if i == |a| then
          if isLast then Some(JArr(a + [value]))
          else
            // the fresh object is remembered instead of the array, which is lost
            (match MergeAsWritten(JObj(map[]), comps[1..], value)
             case Some(u) => Some(JObj(map[DecimalString(i) := u]))
             case None => None)
        else
          // the walk stops here: the remaining components are dropped
          Some(JArr(Padded(a, i) + [if isLast then value else JObj(map[])]))
      case None =>
        if isLast then Some(JObj(map[comp := value]))
        else
          (match MergeAsWritten(JObj(map[]), comps[1..], value)
           case Some(u) => Some(JObj(map[comp := u]))
           case None => None))
    case _ =>
      if isLast then Some(JObj(map[comp := value]))
      else
        (match MergeAsWritten(JObj(map[]), comps[1..], value)
         case Some(u) => Some(JObj(map[comp := u]))
         case None => None)
  }

  /** No array is met on the way down `comps` from `node` (the value at the last component
      may be anything). */
  predicate NoArrayOnPath(node: Json, comps: seq<string>)
    decreases |comps|
  {
    if |comps| <= 1 then !node.JArr?
    else match node
      case JArr(_) => false
      case JObj(m) => NoArrayOnPath(if comps[0] in m then m[comps[0]] else JObj(map[]), comps[1..])
      case _ => NoArrayOnPath(JObj(map[]), comps[1..])
  }

  /** The three defects all lie in the array branch: where no array is on the path, the walk
      as written is the nested write. */
  lemma {:induction false} AsWrittenAgreesWithoutArrays(node: Json, comps: seq<string>, value: Json)
    requires |comps| >= 1
    requires NoArrayOnPath(node, comps)
    ensures MergeAsWritten(node, comps, value) == Some(SetAt(node, comps, value))
    decreases |comps|
  {
    if |comps| > 1 {
      var (f, child) := Descend(node, comps[0]);
      AsWrittenAgreesWithoutArrays(child, comps[1..], value);
      SetAtStep(node, comps, value);
    }
  }

  lemma ParseSmall()
    ensures ParseInt("-1") == Some(-1)
    ensures ParseInt("1") == Some(1)
    ensures ParseInt("2") == Some(2)
    ensures ParseInt("x") == None
    ensures DecimalString(1) == "1"
  {
    assert "-1"[1..] == "1";
    assert ParseDigits("1") == Some(1);
    assert ParseDigits("2") == Some(2);
  }

  /** A negative index into an array traps as written; the write treats it as an object key. */
  lemma NegativeIndexTraps(v: Json)
    ensures MergeAsWritten(JArr([JNum(1)]), ["-1"], v) == None
    ensures SetAt(JArr([JNum(1)]), ["-1"], v) == JObj(map["-1" := v])
  {
    ParseSmall();
  }

  /** Writing below the position just past the end of an array: as written the array is
      replaced by an object and its elements are lost; the write appends a fresh object. */
  lemma AppendBelowLosesArray(v: Json)
    ensures MergeAsWritten(JArr([JNum(1)]), ["1", "x"], v) == Some(JObj(map["1" := JObj(map["x" := v])]))
    ensures SetAt(JArr([JNum(1)]), ["1", "x"], v) == JArr([JNum(1), JObj(map["x" := v])])
  {
    ParseSmall();
    assert ["1", "x"][1..] == ["x"];
    assert Padded([JNum(1)], 1) == [JNum(1)];
  }

  /** Writing below a position past the end: as written the remaining components are dropped
      and the value is not stored; the write pads, appends and continues. */
  lemma SparseBelowDropsValue(v: Json)
    ensures MergeAsWritten(JArr([]), ["2", "x"], v) == Some(JArr([JNull, JNull, JObj(map[])]))
    ensures GetAt(MergeAsWritten(JArr([]), ["2", "x"], v).value, ["2", "x"]) == None
    ensures SetAt(JArr([]), ["2", "x"], v) == JArr([JNull, JNull, JObj(map["x" := v])])
  {
    ParseSmall();
    assert ["2", "x"][1..] == ["x"];
    assert Nulls(2) == [JNull, JNull] by { assert Nulls(1) == [JNull]; }
    assert Padded([], 2) == [JNull, JNull];
    assert ArrayIndex("x") == None;
    assert ArrayIndex("2") == Some(2);
    var written := JArr([JNull, JNull, JObj(map[])]);
    assert Padded([], 2) + [JObj(map[])] == written.items;
    assert MergeAsWritten(JArr([]), ["2", "x"], v) == Some(written);
    assert GetAt(JObj(map[]), ["x"]) == None;
    assert GetAt(written, ["2", "x"]) == GetAt(written.items[2], ["2", "x"][1..]);
    assert SetAt(JObj(map[]), ["x"], v) == JObj(map["x" := v]);
    assert [JNull, JNull, JObj(map[])][2 := JObj(map["x" := v])] == [JNull, JNull, JObj(map["x" := v])];
  }
}
