/** The in-place walk of src/middlewares/sanitizeInput.ts over a parsed JSON body. */
module Sanitize {
  import opened Common
  import opened SanitizeText
  import Strings = Text

  const MAX_DEPTH := 10

  datatype Value = Null | Bool(b: bool) | Num(n: real) | Str(s: Text) | Arr(items: array<Value>) | Rec(record: Record)

  class Record {
    const keys: seq<string>
    var fields: map<string, Value>

    constructor (keys: seq<string>, fields: map<string, Value>)
      ensures this.keys == keys && this.fields == fields
    {
      this.keys := keys;
      this.fields := fields;
    }
  }

  class SanitizeStats {
    var fieldsModified: nat

    constructor ()
      ensures fieldsModified == 0
    {
      fieldsModified := 0;
    }
  }

  /**
   * The contents of a heap value, with the object each container lives in: two values with
   * equal trees are the same objects with the same contents.
   */
  datatype Tree =
    | Leaf(value: Value)
    | Items(items: array<Value>, elems: seq<Tree>)
    | Fields(record: Record, elems: seq<Tree>)
  {
    function Node(): object
      requires !Leaf?
    {
      if Items? then items else record
    }
  }

  ghost function Footprint(t: Tree): set<object> {
    if t.Leaf? then {} else
      {t.Node()} + set i, o | 0 <= i < |t.elems| && o in Footprint(t.elems[i]) :: o
  }

  /** No object occurs twice, and the keys of a record are distinct. */
  ghost predicate WellFormed(t: Tree) {
    !t.Leaf? ==>
      && (forall i :: 0 <= i < |t.elems| ==> WellFormed(t.elems[i]) && t.Node() !in Footprint(t.elems[i]))
      && (forall i, j :: 0 <= i < j < |t.elems| ==> Footprint(t.elems[i]) !! Footprint(t.elems[j]))
      && (t.Fields? ==>
        && |t.record.keys| == |t.elems|
        && Distinct(t.record.keys))
  }

  ghost predicate Represents(v: Value, t: Tree)
    reads Footprint(t)
    decreases t
  {
    match t
    case Leaf(value) => v == value && !value.Arr? && !value.Rec?
    case Items(items, elems) =>
      v == Arr(items) && items.Length == |elems|
      && forall i :: 0 <= i < |elems| ==> Represents(items[i], elems[i])
    case Fields(record, elems) =>
      v == Rec(record) && |record.keys| == |elems|
      && (forall k <- record.fields :: k in record.keys)
      && forall i :: 0 <= i < |elems| ==>
        record.keys[i] in record.fields && Represents(record.fields[record.keys[i]], elems[i])
  }

  /** The key under which element `i` of `t` is cleaned: array elements inherit it. */
  function KeyOf(t: Tree, i: nat, key: string): string {
    if t.Fields? && i < |t.record.keys| then t.record.keys[i] else key
  }

  /** What the walk makes of a tree. */
  function Sanitized(strip: Text -> Text, t: Tree, key: string, depth: nat): Tree
    decreases t, 1
  {
    if depth > MAX_DEPTH then t else
      match t
      case Leaf(value) => if value.Str? then Leaf(Str(CleanUp(strip(value.s), key))) else t
      case Items(items, elems) => Items(items, SanitizedAll(strip, t, key, depth))
      case Fields(record, elems) => Fields(record, SanitizedAll(strip, t, key, depth))
  }

  function SanitizedAll(strip: Text -> Text, t: Tree, key: string, depth: nat): (us: seq<Tree>)
    requires !t.Leaf?
    ensures |us| == |t.elems|
    ensures forall i :: 0 <= i < |us| ==> us[i] == Sanitized(strip, t.elems[i], KeyOf(t, i, key), depth + 1)
    decreases t, 0
  {
    seq(|t.elems|, i requires 0 <= i < |t.elems| => Sanitized(strip, t.elems[i], KeyOf(t, i, key), depth + 1))
  }

  /** Number of leaves at which two trees differ. */
  ghost function DifferingLeaves(t: Tree, u: Tree): nat
    decreases t, 1
  {
    if t.Leaf? || u.Leaf? || |t.elems| != |u.elems| then (if t == u then 0 else 1)
    else DifferingIn(t.elems, u.elems, |t.elems|)
  }

  ghost function DifferingIn(ts: seq<Tree>, us: seq<Tree>, n: nat): nat
    requires n <= |ts| && n <= |us|
    decreases ts, 0, n
  {
    if n == 0 then 0 else DifferingIn(ts, us, n - 1) + DifferingLeaves(ts[n - 1], us[n - 1])
  }

  lemma CountNext(ts: seq<Tree>, us: seq<Tree>, n: nat)
    requires n < |ts| && n < |us|
    ensures DifferingIn(ts, us, n + 1) == DifferingIn(ts, us, n) + DifferingLeaves(ts[n], us[n])
  {
  }

  lemma CountAll(strip: Text -> Text, t: Tree, key: string, depth: nat)
    requires !t.Leaf? && depth <= MAX_DEPTH
    ensures var u := Sanitized(strip, t, key, depth);
      && !u.Leaf? && |u.elems| == |t.elems| && DifferingIn(t.elems, u.elems, 0) == 0
      && DifferingLeaves(t, u) == DifferingIn(t.elems, u.elems, |t.elems|)
  {
  }

  lemma SanitizedNode(strip: Text -> Text, t: Tree, key: string, depth: nat)
    requires !t.Leaf?
    ensures var u := Sanitized(strip, t, key, depth);
      && !u.Leaf? && |u.elems| == |t.elems|
      && u == (if t.Items? then Items(t.items, u.elems) else Fields(t.record, u.elems))
      && forall i :: 0 <= i < |t.elems| ==>
        u.elems[i] == if depth > MAX_DEPTH then t.elems[i]
                      else Sanitized(strip, t.elems[i], KeyOf(t, i, key), depth + 1)
  {
    hide KeyOf;
  }

  lemma SanitizedEnds(strip: Text -> Text, t: Tree, key: string, depth: nat)
    requires t.Leaf? || depth > MAX_DEPTH
    ensures Footprint(Sanitized(strip, t, key, depth)) == Footprint(t)
  {
  }

  lemma {:induction false} SameFootprint(strip: Text -> Text, t: Tree, key: string, depth: nat)
    ensures Footprint(Sanitized(strip, t, key, depth)) == Footprint(t)
  {
    hide *;
    if depth > MAX_DEPTH || t.Leaf? {
      SanitizedEnds(strip, t, key, depth);
    } else {
      var u := Sanitized(strip, t, key, depth);
      SanitizedNode(strip, t, key, depth);
      forall i | 0 <= i < |t.elems| ensures Footprint(u.elems[i]) == Footprint(t.elems[i]) {
        SameFootprint(strip, t.elems[i], KeyOf(t, i, key), depth + 1);
      }
      SameParts(t, u);
    }
  }

  lemma SameParts(t: Tree, u: Tree)
    requires !t.Leaf? && !u.Leaf? && |t.elems| == |u.elems|
    requires u == if t.Items? then Items(t.items, u.elems) else Fields(t.record, u.elems)
    requires forall i :: 0 <= i < |t.elems| ==> Footprint(u.elems[i]) == Footprint(t.elems[i])
    ensures Footprint(t) == Footprint(u)
  {
  }

  /** Elements `us` take the place of `ts` in the container `node`; no two share an object. */
  ghost predicate Separate(node: object, ts: seq<Tree>, us: seq<Tree>)
    requires |ts| == |us|
  {
    && (forall i :: 0 <= i < |ts| ==> node !in Footprint(ts[i]) && Footprint(us[i]) == Footprint(ts[i]))
    && (forall i, j :: 0 <= i < |ts| && 0 <= j < |ts| && i != j ==> Footprint(ts[i]) !! Footprint(ts[j]))
  }

  /** What well-formedness gives the loops. */
  lemma Parts(strip: Text -> Text, t: Tree, key: string, depth: nat)
    requires WellFormed(t) && !t.Leaf?
    ensures var u := Sanitized(strip, t, key, depth);
      && t.Node() in Footprint(t) && |u.elems| == |t.elems| && Separate(t.Node(), t.elems, u.elems)
      && forall i :: 0 <= i < |t.elems| ==> WellFormed(t.elems[i]) && Footprint(t.elems[i]) <= Footprint(t)
  {
    var u := Sanitized(strip, t, key, depth);
    SanitizedNode(strip, t, key, depth);
    hide Sanitized, SanitizedAll, KeyOf;
    forall i | 0 <= i < |t.elems| ensures Footprint(u.elems[i]) == Footprint(t.elems[i]) {
      SameFootprint(strip, t.elems[i], KeyOf(t, i, key), depth + 1);
    }
    forall i, j | 0 <= i < |t.elems| && 0 <= j < |t.elems| && i != j
      ensures Footprint(t.elems[i]) !! Footprint(t.elems[j])
    {
      if j < i {
        assert Footprint(t.elems[j]) !! Footprint(t.elems[i]);
      }
    }
  }

  lemma {:induction false} NoDifference(t: Tree)
    ensures DifferingLeaves(t, t) == 0
    decreases t, 1
  {
    if !t.Leaf? { NoDifferenceIn(t.elems, |t.elems|); }
  }

  lemma {:induction false} NoDifferenceIn(ts: seq<Tree>, n: nat)
    requires n <= |ts|
    ensures DifferingIn(ts, ts, n) == 0
    decreases ts, 0, n
  {
    if n > 0 {
      NoDifferenceIn(ts, n - 1);
      NoDifference(ts[n - 1]);
    }
  }

  /** `sanitizeValue`; `t` names the contents of `value`. */
  method SanitizeValue(strip: Text -> Text, value: Value, key: string, depth: nat, stats: SanitizeStats, ghost t: Tree)
    returns (r: Value)
    requires WellFormed(t) && Represents(value, t) && stats !in Footprint(t)
    modifies Footprint(t), stats
    ensures Represents(r, Sanitized(strip, t, key, depth))
    ensures stats.fieldsModified == old(stats.fieldsModified) + DifferingLeaves(t, Sanitized(strip, t, key, depth))
    decreases t, 1
  {
    if depth > MAX_DEPTH {
      NoDifference(t);
      return value;
    }
    match value
    case Str(s) =>
      var cleaned := SanitizeString(strip, s, key);
      if cleaned != s {
        stats.fieldsModified := stats.fieldsModified + 1;
      }
      return Str(cleaned);
    case Arr(items) =>
      SanitizeArray(strip, items, key, depth, stats, t);
      return value;
    case Rec(record) =>
      SanitizeRecord(strip, record, key, depth, stats, t);
      return value;
    case _ =>
      return value;
  }

  method SanitizeArray(strip: Text -> Text, items: array<Value>, key: string, depth: nat, stats: SanitizeStats, ghost t: Tree)
    requires WellFormed(t) && Represents(Arr(items), t) && stats !in Footprint(t) && depth <= MAX_DEPTH
    modifies Footprint(t), stats
    ensures Represents(Arr(items), Sanitized(strip, t, key, depth))
    ensures stats.fieldsModified == old(stats.fieldsModified) + DifferingLeaves(t, Sanitized(strip, t, key, depth))
    decreases t, 0
  {
    ghost var u := Sanitized(strip, t, key, depth);
    ghost var ts, us := t.elems, u.elems;
    hide *;
    Parts(strip, t, key, depth);
    CountAll(strip, t, key, depth);
    ArrayOpened(strip, items, t, key, depth);
    for i := 0 to items.Length
      invariant ArrayHalfway(items, ts, us, i)
      invariant stats.fieldsModified == old(stats.fieldsModified) + DifferingIn(ts, us, i)
    {
      SanitizeItem(strip, items, i, key, depth, stats, ts, us, Footprint(t));
      CountNext(ts, us, i);
    }
    ArrayClosed(items, u, ts);
  }

  /** The first `i` items are done, the others untouched. */
  ghost predicate ArrayHalfway(items: array<Value>, ts: seq<Tree>, us: seq<Tree>, i: nat)
    requires i <= items.Length == |ts| == |us|
    reads items, set k, o | 0 <= k < |ts| && o in Footprint(ts[k]) :: o, set k, o | 0 <= k < |us| && o in Footprint(us[k]) :: o
  {
    && (forall k :: 0 <= k < i ==> Represents(items[k], us[k]))
    && (forall k :: i <= k < items.Length ==> Represents(items[k], ts[k]))
  }

  method SanitizeItem(strip: Text -> Text, items: array<Value>, i: nat, key: string, depth: nat, stats: SanitizeStats,
                      ghost ts: seq<Tree>, ghost us: seq<Tree>, ghost objects: set<object>)
    requires i < items.Length == |ts| == |us| && Separate(items, ts, us)
    requires WellFormed(ts[i]) && us[i] == Sanitized(strip, ts[i], key, depth + 1)
    requires stats !in objects && forall k :: 0 <= k < |ts| ==> Footprint(ts[k]) <= objects
    requires ArrayHalfway(items, ts, us, i)
    modifies items, Footprint(ts[i]), stats
    ensures ArrayHalfway(items, ts, us, i + 1)
    ensures stats.fieldsModified == old(stats.fieldsModified) + DifferingLeaves(ts[i], us[i])
    decreases ts[i], 2
  {
    hide Sanitized, SanitizedAll, Footprint, WellFormed, DifferingLeaves, Represents;
    var v := SanitizeValue(strip, items[i], key, depth + 1, stats, ts[i]);
    items[i] := v;
  }

  lemma ArrayOpened(strip: Text -> Text, items: array<Value>, t: Tree, key: string, depth: nat)
    requires Represents(Arr(items), t) && depth <= MAX_DEPTH
    ensures t.Items? && t.items == items && items.Length == |t.elems|
    ensures var u := Sanitized(strip, t, key, depth);
      && u.Items? && u.items == items && |u.elems| == |t.elems|
      && (forall i :: 0 <= i < |t.elems| ==> u.elems[i] == Sanitized(strip, t.elems[i], key, depth + 1))
      && ArrayHalfway(items, t.elems, u.elems, 0)
  {
  }

  lemma ArrayClosed(items: array<Value>, u: Tree, ts: seq<Tree>)
    requires u.Items? && u.items == items && items.Length == |u.elems| == |ts|
    requires ArrayHalfway(items, ts, u.elems, items.Length)
    ensures Represents(Arr(items), u)
  {
  }

  method SanitizeRecord(strip: Text -> Text, record: Record, key: string, depth: nat, stats: SanitizeStats, ghost t: Tree)
    requires WellFormed(t) && Represents(Rec(record), t) && stats !in Footprint(t) && depth <= MAX_DEPTH
    modifies Footprint(t), stats
    ensures Represents(Rec(record), Sanitized(strip, t, key, depth))
    ensures stats.fieldsModified == old(stats.fieldsModified) + DifferingLeaves(t, Sanitized(strip, t, key, depth))
    decreases t, 0
  {
    ghost var u := Sanitized(strip, t, key, depth);
    ghost var ts, us := t.elems, u.elems;
    hide *;
    Parts(strip, t, key, depth);
    CountAll(strip, t, key, depth);
    RecordOpened(strip, record, t, key, depth);
    for i := 0 to |record.keys|
      invariant RecordHalfway(record, ts, us, i)
      invariant stats.fieldsModified == old(stats.fieldsModified) + DifferingIn(ts, us, i)
    {
      SanitizeField(strip, record, i, depth, stats, ts, us, Footprint(t));
      CountNext(ts, us, i);
    }
    RecordClosed(record, u, ts);
  }

  /** The first `i` fields are done, the others untouched. */
  ghost predicate RecordHalfway(record: Record, ts: seq<Tree>, us: seq<Tree>, i: nat)
    requires i <= |record.keys| == |ts| == |us|
    reads record, set k, o | 0 <= k < |ts| && o in Footprint(ts[k]) :: o, set k, o | 0 <= k < |us| && o in Footprint(us[k]) :: o
  {
    && (forall k :: k in record.fields <==> k in record.keys)
    && (forall k :: 0 <= k < i ==> Represents(record.fields[record.keys[k]], us[k]))
    && (forall k :: i <= k < |ts| ==> Represents(record.fields[record.keys[k]], ts[k]))
  }

  method SanitizeField(strip: Text -> Text, record: Record, i: nat, depth: nat, stats: SanitizeStats,
                       ghost ts: seq<Tree>, ghost us: seq<Tree>, ghost objects: set<object>)
    requires i < |record.keys| == |ts| == |us| && Separate(record, ts, us) && Distinct(record.keys)
    requires WellFormed(ts[i]) && us[i] == Sanitized(strip, ts[i], record.keys[i], depth + 1)
    requires stats !in objects && forall k :: 0 <= k < |ts| ==> Footprint(ts[k]) <= objects
    requires RecordHalfway(record, ts, us, i)
    modifies record, Footprint(ts[i]), stats
    ensures RecordHalfway(record, ts, us, i + 1)
    ensures stats.fieldsModified == old(stats.fieldsModified) + DifferingLeaves(ts[i], us[i])
    decreases ts[i], 2
  {
    hide Sanitized, SanitizedAll, Footprint, WellFormed, DifferingLeaves, Represents;
    var key := record.keys[i];
    var v := SanitizeValue(strip, record.fields[key], key, depth + 1, stats, ts[i]);
    record.fields := record.fields[key := v];
  }

  lemma RecordOpened(strip: Text -> Text, record: Record, t: Tree, key: string, depth: nat)
    requires WellFormed(t) && Represents(Rec(record), t) && depth <= MAX_DEPTH
    ensures t.Fields? && t.record == record && |record.keys| == |t.elems| && Distinct(record.keys)
    ensures var u := Sanitized(strip, t, key, depth);
      && u.Fields? && u.record == record && |u.elems| == |t.elems|
      && (forall i :: 0 <= i < |t.elems| ==> u.elems[i] == Sanitized(strip, t.elems[i], record.keys[i], depth + 1))
      && RecordHalfway(record, t.elems, u.elems, 0)
  {
  }

  lemma RecordClosed(record: Record, u: Tree, ts: seq<Tree>)
    requires u.Fields? && u.record == record && |record.keys| == |u.elems| == |ts|
    requires RecordHalfway(record, ts, u.elems, |ts|)
    ensures Represents(Rec(record), u)
  {
  }

  const SKIP_CONTENT_TYPES := [
    "multipart/form-data", "application/octet-stream", "application/pdf", "image/", "audio/", "video/"]

  /** `shouldSkipContentType`: upload and media types, in any case and with any parameters. */
  predicate SkipsContentType(contentType: Option<string>) {
    contentType.Some? && exists w, i ::
      0 <= w < |SKIP_CONTENT_TYPES| && 0 <= i <= |contentType.value| && Strings.OccursAt(contentType.value, SKIP_CONTENT_TYPES[w], i)
  }

  /** One of the six skipped types stands somewhere in the header, in any capitalisation. */
  ghost predicate NamesRawType(contentType: string) {
    || Strings.Holds(contentType, "multipart/form-data") || Strings.Holds(contentType, "application/octet-stream")
    || Strings.Holds(contentType, "application/pdf") || Strings.Holds(contentType, "image/")
    || Strings.Holds(contentType, "audio/") || Strings.Holds(contentType, "video/")
  }

  ghost predicate TypeIn(s: string, w: nat)
    requires w < |SKIP_CONTENT_TYPES|
  {
    exists i :: 0 <= i <= |s| && Strings.OccursAt(s, SKIP_CONTENT_TYPES[w], i)
  }

  lemma SkipsIffSomeType(s: string)
    ensures SkipsContentType(Some(s)) <==> exists w :: 0 <= w < |SKIP_CONTENT_TYPES| && TypeIn(s, w)
  {
    if w, i :| 0 <= w < |SKIP_CONTENT_TYPES| && 0 <= i <= |s| && Strings.OccursAt(s, SKIP_CONTENT_TYPES[w], i) {
      assert TypeIn(s, w);
    }
    if w :| 0 <= w < |SKIP_CONTENT_TYPES| && TypeIn(s, w) {
      var i :| 0 <= i <= |s| && Strings.OccursAt(s, SKIP_CONTENT_TYPES[w], i);
    }
  }

  lemma TypeTable()
    ensures |SKIP_CONTENT_TYPES| == 6
    ensures SKIP_CONTENT_TYPES[0] == "multipart/form-data" && SKIP_CONTENT_TYPES[1] == "application/octet-stream"
    ensures SKIP_CONTENT_TYPES[2] == "application/pdf" && SKIP_CONTENT_TYPES[3] == "image/"
    ensures SKIP_CONTENT_TYPES[4] == "audio/" && SKIP_CONTENT_TYPES[5] == "video/"
  {
  }

  lemma TypesAreLower(w: nat)
    requires w < |SKIP_CONTENT_TYPES|
    ensures Strings.IsLower(SKIP_CONTENT_TYPES[w])
  {
  }

  lemma TypeInIffHolds(s: string, w: nat)
    requires w < |SKIP_CONTENT_TYPES|
    ensures TypeIn(s, w) <==> Strings.Holds(s, SKIP_CONTENT_TYPES[w])
  {
    TypesAreLower(w);
    hide Strings.OccursAt, Strings.Holds, Strings.IsLower, SKIP_CONTENT_TYPES;
    Strings.OccursIffHolds(s, SKIP_CONTENT_TYPES[w]);
  }

  lemma SkippedTypes(contentType: Option<string>)
    ensures SkipsContentType(contentType) <==> contentType.Some? && NamesRawType(contentType.value)
  {
    if contentType.Some? {
      var s := contentType.value;
      hide SkipsContentType, TypeIn, Strings.Holds, SKIP_CONTENT_TYPES;
      TypeTable();
      SkipsIffSomeType(s);
      forall w: nat | w < 6 ensures TypeIn(s, w) <==> Strings.Holds(s, SKIP_CONTENT_TYPES[w]) {
        TypeInIffHolds(s, w);
      }
    }
  }

  /** The middleware: other requests than those with an object body pass unchanged and unlogged. */
  method SanitizeInput(strip: Text -> Text, contentType: Option<string>, isBuffer: bool, body: Value, ghost t: Tree)
    returns (result: Value, fieldsModified: nat)
    requires WellFormed(t) && Represents(body, t)
    modifies Footprint(t)
    ensures var u := if (contentType.Some? && NamesRawType(contentType.value)) || isBuffer || t.Leaf? then t else Sanitized(strip, t, "", 0);
      Represents(result, u) && fieldsModified == DifferingLeaves(t, u)
  {
    SkippedTypes(contentType);
    hide SkipsContentType, NamesRawType;
    if SkipsContentType(contentType) || isBuffer || !(body.Arr? || body.Rec?) {
      NoDifference(t);
      return body, 0;
    }
    ghost var objects := Footprint(t);
    assert allocated(objects);
    var stats := new SanitizeStats();
    assert stats !in objects;
    result := SanitizeValue(strip, body, "", 0, stats, t);
    fieldsModified := stats.fieldsModified;
  }

  // ---- What changes and what does not ----

  function At(t: Tree, path: seq<nat>): Option<Tree>
    decreases |path|
  {
    if path == [] then Some(t)
    else if t.Leaf? || path[0] >= |t.elems| then None
    else At(t.elems[path[0]], path[1..])
  }

  /** The key that governs the position: that of the nearest record field above it. */
  function KeyAt(t: Tree, path: seq<nat>, key: string): string
    requires At(t, path).Some?
    decreases |path|
  {
    if path == [] then key else KeyAt(t.elems[path[0]], path[1..], KeyOf(t, path[0], key))
  }

  lemma {:induction false} SanitizedAt(strip: Text -> Text, t: Tree, key: string, depth: nat, path: seq<nat>)
    ensures At(Sanitized(strip, t, key, depth), path) ==
      if At(t, path).None? then None
      else Some(Sanitized(strip, At(t, path).value, KeyAt(t, path, key), depth + |path|))
    decreases |path|
  {
    if path != [] && !t.Leaf? && path[0] < |t.elems| {
      var u := t.elems[path[0]];
      SanitizedNode(strip, t, key, depth);
      if depth > MAX_DEPTH {
        assert At(t, path).Some? ==> Sanitized(strip, At(t, path).value, KeyAt(t, path, key), depth + |path|) == At(t, path).value;
      } else {
        SanitizedAt(strip, u, KeyOf(t, path[0], key), depth + 1, path[1..]);
      }
    }
  }

  /**
   * Nothing is added or removed, every container stays the same object with the same number
   * of elements, and only strings at most ten levels below the root are cleaned.
   */
  lemma OnlyShallowStringsChange(strip: Text -> Text, t: Tree, path: seq<nat>)
    ensures var before, after := At(t, path), At(Sanitized(strip, t, "", 0), path);
      && (before.None? <==> after.None?)
      && (before.Some? ==>
        match before.value
        case Leaf(Str(s)) =>
          after.value == Leaf(Str(if |path| <= 10 then CleanUp(strip(s), KeyAt(t, path, "")) else s))
        case Leaf(_) => after == before
        case Items(items, elems) => after.value.Items? && after.value.items == items && |after.value.elems| == |elems|
        case Fields(record, elems) =>
          after.value.Fields? && after.value.record == record && |after.value.elems| == |elems|)
  {
    SanitizedAt(strip, t, "", 0, path);
  }

  /** Every string left at most ten levels below the root is clean for the key that governs it. */
  lemma StoredStringsAreClean(strip: Text -> Text, t: Tree, path: seq<nat>)
    requires |path| <= 10 && At(t, path).Some?
    ensures var after := At(Sanitized(strip, t, "", 0), path);
      after.Some? && (after.value.Leaf? && after.value.value.Str? ==> Clean(after.value.value.s, KeyAt(t, path, "")))
  {
    SanitizedAt(strip, t, "", 0, path);
    var before := At(t, path).value;
    if before.Leaf? && before.value.Str? {
      CleanUpCleans(strip(before.value.s), KeyAt(t, path, ""));
    }
  }

  /** An element of an array is cleaned under the key of the array. */
  lemma {:induction false} ElementsInheritKey(t: Tree, path: seq<nat>, i: nat, key: string)
    requires At(t, path).Some? && At(t, path).value.Items? && i < |At(t, path).value.elems|
    ensures At(t, path + [i]).Some? && KeyAt(t, path + [i], key) == KeyAt(t, path, key)
    decreases |path|
  {
    if path != [] {
      assert (path + [i])[1..] == path[1..] + [i];
      ElementsInheritKey(t.elems[path[0]], path[1..], i, KeyOf(t, path[0], key));
    }
  }

  /** A field of a record is cleaned under its own key. */
  lemma {:induction false} FieldsUseOwnKey(t: Tree, path: seq<nat>, i: nat, key: string)
    requires At(t, path).Some? && At(t, path).value.Fields? && i < |At(t, path).value.elems|
    requires i < |At(t, path).value.record.keys|
    ensures At(t, path + [i]).Some? && KeyAt(t, path + [i], key) == At(t, path).value.record.keys[i]
    decreases |path|
  {
    if path != [] {
      assert (path + [i])[1..] == path[1..] + [i];
      FieldsUseOwnKey(t.elems[path[0]], path[1..], i, KeyOf(t, path[0], key));
    }
  }

  // ---- The counter ----

  /** The leaves from left to right. */
  function Leaves(t: Tree): seq<Value>
    decreases t, 1
  {
    if t.Leaf? then [t.value] else LeavesOf(t.elems, |t.elems|)
  }

  function LeavesOf(ts: seq<Tree>, n: nat): seq<Value>
    requires n <= |ts|
    decreases ts, 0, n
  {
    if n == 0 then [] else LeavesOf(ts, n - 1) + Leaves(ts[n - 1])
  }

  /** The positions at which two lists of leaves differ. */
  ghost function DifferAt(a: seq<Value>, b: seq<Value>): set<nat>
    requires |a| == |b|
  {
    set i: nat | i < |a| && a[i] != b[i]
  }

  lemma {:induction false} DifferAtAppend(a: seq<Value>, b: seq<Value>, c: seq<Value>, d: seq<Value>)
    requires |a| == |b| && |c| == |d|
    ensures |DifferAt(a + c, b + d)| == |DifferAt(a, b)| + |DifferAt(c, d)|
  {
    var n := |c| - 1;
    if c == [] {
      assert a + c == a && b + d == b;
    } else {
      DifferAtAppend(a, b, c[..n], d[..n]);
      DifferAtLast(c, d);
      assert (a + c)[..|a| + n] == a + c[..n] && (b + d)[..|a| + n] == b + d[..n];
      DifferAtLast(a + c, b + d);
    }
  }

  lemma DifferAtLast(a: seq<Value>, b: seq<Value>)
    requires |a| == |b| && a != []
    ensures var n := |a| - 1; |DifferAt(a, b)| == |DifferAt(a[..n], b[..n])| + if a[n] == b[n] then 0 else 1
  {
    var n := |a| - 1;
    assert DifferAt(a, b) == DifferAt(a[..n], b[..n]) + if a[n] == b[n] then {} else {n};
  }

  /** `fieldsModified` grows by the number of leaves whose value changes. */
  lemma {:induction false} CounterCountsLeaves(strip: Text -> Text, t: Tree, key: string, depth: nat)
    ensures var u := Sanitized(strip, t, key, depth);
      |Leaves(u)| == |Leaves(t)| && DifferingLeaves(t, u) == |DifferAt(Leaves(t), Leaves(u))|
    decreases t, 1
  {
    var u := Sanitized(strip, t, key, depth);
    if depth > MAX_DEPTH {
      NoDifference(t);
      assert DifferAt(Leaves(t), Leaves(t)) == {};
    } else if t.Leaf? {
      var a, b := [t.value], [u.value];
      DifferAtLast(a, b);
      assert DifferAt(a[..0], b[..0]) == {};
      assert Leaves(t) == a && Leaves(u) == b;
    } else {
      SanitizedNode(strip, t, key, depth);
      CountAll(strip, t, key, depth);
      CounterCountsIn(strip, t, u.elems, key, depth, |t.elems|);
    }
  }

  lemma {:induction false} CounterCountsIn(strip: Text -> Text, t: Tree, us: seq<Tree>, key: string, depth: nat, n: nat)
    requires !t.Leaf? && |us| == |t.elems| && n <= |us|
    requires forall i :: 0 <= i < |us| ==> us[i] == Sanitized(strip, t.elems[i], KeyOf(t, i, key), depth + 1)
    ensures |LeavesOf(us, n)| == |LeavesOf(t.elems, n)|
    ensures DifferingIn(t.elems, us, n) == |DifferAt(LeavesOf(t.elems, n), LeavesOf(us, n))|
    decreases t, 0, n
  {
    if n > 0 {
      hide Sanitized, Leaves, DifferingLeaves, DifferAt;
      CounterCountsIn(strip, t, us, key, depth, n - 1);
      CounterCountsLeaves(strip, t.elems[n - 1], KeyOf(t, n - 1, key), depth + 1);
      DifferAtAppend(LeavesOf(t.elems, n - 1), LeavesOf(us, n - 1), Leaves(t.elems[n - 1]), Leaves(us[n - 1]));
    }
  }

  /** The event is logged exactly when the body changed. */
  lemma {:induction false} NothingCountedIffUnchanged(strip: Text -> Text, t: Tree, key: string, depth: nat)
    ensures var u := Sanitized(strip, t, key, depth);
      DifferingLeaves(t, u) == 0 <==> u == t
    decreases t, 1
  {
    var u := Sanitized(strip, t, key, depth);
    if u == t {
      NoDifference(t);
    } else if !t.Leaf? {
      SanitizedNode(strip, t, key, depth);
      CountAll(strip, t, key, depth);
      if DifferingLeaves(t, u) == 0 {
        forall i | 0 <= i < |t.elems| ensures u.elems[i] == t.elems[i] {
          CountBelow(t.elems, u.elems, i, |t.elems|);
          NothingCountedIffUnchanged(strip, t.elems[i], KeyOf(t, i, key), depth + 1);
        }
      }
    }
  }

  lemma {:induction false} CountBelow(ts: seq<Tree>, us: seq<Tree>, i: nat, n: nat)
    requires i < n <= |ts| && n <= |us|
    ensures DifferingLeaves(ts[i], us[i]) <= DifferingIn(ts, us, n)
  {
    if i < n - 1 { CountBelow(ts, us, i, n - 1); }
  }
}
