/** The body redaction of src/middlewares/requestLogger.ts. */
module Redact {

  import opened Common
  import opened Text

  /** A parsed JSON body; a record lists its fields in order. */
  datatype Json =
    | Null
    | Bool(b: bool)
    | Num(n: real)
    | Str(s: string)
    | Arr(items: seq<Json>)
    | Obj(fields: seq<Field>)
  datatype Field = Field(key: string, value: Json)

  const MAX_DEPTH := 5
  const WORDS := ["password", "token", "secret", "key", "signature", "pin", "otp", "code", "recovery"]

  /** `SENSITIVE_BODY_FIELDS.test(key)`. */
  predicate Sensitive(key: string) {
    exists w, i :: 0 <= w < |WORDS| && 0 <= i <= |key| && OccursAt(key, WORDS[w], i)
  }

  /** Assigning this key to a fresh record sets its prototype and adds no field. */
  const PROTO := "__proto__"

  /** What `redactSensitive` returns. */
  function Redacted(obj: Json, depth: nat): Json
    decreases obj, 1
  {
    if depth > MAX_DEPTH then Str("[max-depth]") else
      match obj
      case Arr(items) => Arr(RedactedItems(items, depth + 1))
      case Obj(fields) => Obj(RedactedFields(fields, depth + 1))
      case _ => obj
  }

  function RedactedItems(items: seq<Json>, depth: nat): (r: seq<Json>)
    ensures |r| == |items|
    decreases items, 0
  {
    if items == [] then [] else [Redacted(items[0], depth)] + RedactedItems(items[1..], depth)
  }

  /** The fields a field of the input leaves in the result: none for the prototype key. */
  function RedactedField(f: Field, depth: nat): seq<Field>
    decreases f, 2
  {
    if Sensitive(f.key) then [Field(f.key, Str("[REDACTED]"))]
    else if f.key == PROTO then []
    else [Field(f.key, Redacted(f.value, depth))]
  }

  function RedactedFields(fields: seq<Field>, depth: nat): seq<Field>
    decreases fields, 0
  {
    if fields == [] then [] else RedactedField(fields[0], depth) + RedactedFields(fields[1..], depth)
  }

  lemma NextItem(items: seq<Json>, i: nat, depth: nat)
    requires i < |items|
    ensures RedactedItems(items[i..], depth) == [Redacted(items[i], depth)] + RedactedItems(items[i + 1..], depth)
  {
    assert items[i..][1..] == items[i + 1..];
  }

  lemma NextField(fields: seq<Field>, i: nat, depth: nat)
    requires i < |fields|
    ensures RedactedFields(fields[i..], depth) == RedactedField(fields[i], depth) + RedactedFields(fields[i + 1..], depth)
  {
    assert fields[i..][1..] == fields[i + 1..];
  }

  method RedactSensitive(obj: Json, depth: nat) returns (result: Json)
    ensures result == Redacted(obj, depth)
    decreases obj, 1
  {
    if depth > MAX_DEPTH {
      return Str("[max-depth]");
    }
    match obj
    case Arr(items) =>
      var mapped := RedactArray(items, depth);
      result := Arr(mapped);
    case Obj(fields) =>
      var record := RedactRecord(fields, depth);
      result := Obj(record);
    case _ =>
      result := obj;
  }

  method RedactArray(items: seq<Json>, depth: nat) returns (mapped: seq<Json>)
    ensures mapped == RedactedItems(items, depth + 1)
    decreases items, 0
  {
    hide RedactedItems, Redacted;
    mapped := [];
    assert items[0..] == items;
    for i := 0 to |items|
      invariant mapped + RedactedItems(items[i..], depth + 1) == RedactedItems(items, depth + 1)
    {
      NextItem(items, i, depth + 1);
      var item := RedactSensitive(items[i], depth + 1);
      mapped := mapped + [item];
    }
    assert |RedactedItems(items[|items|..], depth + 1)| == 0;
  }

  method RedactRecord(fields: seq<Field>, depth: nat) returns (record: seq<Field>)
    ensures record == RedactedFields(fields, depth + 1)
    decreases fields, 0
  {
    hide RedactedFields, Redacted, Sensitive;
    record := [];
    assert fields[0..] == fields;
    for i := 0 to |fields|
      invariant record + RedactedFields(fields[i..], depth + 1) == RedactedFields(fields, depth + 1)
    {
      NextField(fields, i, depth + 1);
      var f := fields[i];
      if Sensitive(f.key) {
        record := record + [Field(f.key, Str("[REDACTED]"))];
      } else {
        var value := RedactSensitive(f.value, depth + 1);
        if f.key != PROTO {
          record := record + [Field(f.key, value)];
        }
      }
    }
    NoFields(fields[|fields|..], depth + 1);
  }

  lemma NoFields(fields: seq<Field>, depth: nat)
    requires fields == []
    ensures RedactedFields(fields, depth) == []
  {
  }

  // ---- What is masked ----

  /** The key has one of the nine sensitive words in it, in any capitalisation. */
  ghost predicate NamesSecret(key: string) {
    || Holds(key, "password") || Holds(key, "token") || Holds(key, "secret") || Holds(key, "key") || Holds(key, "signature")
    || Holds(key, "pin") || Holds(key, "otp") || Holds(key, "code") || Holds(key, "recovery")
  }

  ghost predicate WordIn(key: string, w: nat)
    requires w < |WORDS|
  {
    exists i :: 0 <= i <= |key| && OccursAt(key, WORDS[w], i)
  }

  lemma SensitiveIffSomeWord(key: string)
    ensures Sensitive(key) <==> exists w :: 0 <= w < |WORDS| && WordIn(key, w)
  {
    if w, i :| 0 <= w < |WORDS| && 0 <= i <= |key| && OccursAt(key, WORDS[w], i) {
      assert WordIn(key, w);
    }
    if w :| 0 <= w < |WORDS| && WordIn(key, w) {
      var i :| 0 <= i <= |key| && OccursAt(key, WORDS[w], i);
    }
  }

  lemma WordInIffHolds(key: string, w: nat, word: string)
    requires w < |WORDS| && WORDS[w] == word && IsLower(word)
    ensures WordIn(key, w) <==> Holds(key, word)
  {
    hide OccursAt, Holds;
    OccursIffHolds(key, word);
  }

  lemma SensitiveMeansSecret(key: string)
    ensures Sensitive(key) <==> NamesSecret(key)
  {
    hide Sensitive, WordIn, Holds;
    SensitiveIffSomeWord(key);
    WordInIffHolds(key, 0, "password");
    WordInIffHolds(key, 1, "token");
    WordInIffHolds(key, 2, "secret");
    WordInIffHolds(key, 3, "key");
    WordInIffHolds(key, 4, "signature");
    WordInIffHolds(key, 5, "pin");
    WordInIffHolds(key, 6, "otp");
    WordInIffHolds(key, 7, "code");
    WordInIffHolds(key, 8, "recovery");
  }

  /** Number of fields that are kept, those not named `__proto__`. */
  function Kept(fields: seq<Field>): nat {
    if fields == [] then 0 else (if fields[0].key == "__proto__" then 0 else 1) + Kept(fields[1..])
  }

  lemma {:induction false} RedactedFieldAt(fields: seq<Field>, i: nat, depth: nat)
    requires i < |fields| && fields[i].key != "__proto__"
    ensures
      var k, r, f := Kept(fields[..i]), RedactedFields(fields, depth), fields[i];
      k < |r| && r[k] == Field(f.key, if Sensitive(f.key) then Str("[REDACTED]") else Redacted(f.value, depth))
  {
    ProtoIsNotSensitive();
    hide Sensitive, Redacted;
    if i > 0 {
      RedactedFieldAt(fields[1..], i - 1, depth);
      assert fields[..i][1..] == fields[1..][..i - 1];
    }
  }

  /**
   * Down to depth 5, a field whose key has a sensitive word in it, in any capitalisation, is
   * masked, and any other holds the redaction of its value.
   */
  lemma SecretsAreMasked(fields: seq<Field>, i: nat, depth: nat)
    requires depth <= 5 && i < |fields| && fields[i].key != "__proto__"
    ensures
      var r, k := Redacted(Obj(fields), depth), Kept(fields[..i]);
      && r.Obj? && k < |r.fields| && r.fields[k].key == fields[i].key
      && (NamesSecret(fields[i].key) ==> r.fields[k].value == Str("[REDACTED]"))
      && (!NamesSecret(fields[i].key) ==> r.fields[k].value == Redacted(fields[i].value, depth + 1))
  {
    hide Sensitive, RedactedFields, NamesSecret;
    SensitiveMeansSecret(fields[i].key);
    RedactedFieldAt(fields, i, depth + 1);
  }

  // ---- Positions ----

  datatype Step = Index(i: nat) | Key(key: string)
  datatype Label = NullLabel | BoolLabel(b: bool) | NumLabel(n: real) | StrLabel(s: string) | ArrLabel(len: nat) | ObjLabel(keys: seq<string>)

  /** The keys of a record apart from the prototype key. */
  function Keys(fields: seq<Field>): seq<string> {
    if fields == [] then [] else (if fields[0].key == PROTO then [] else [fields[0].key]) + Keys(fields[1..])
  }

  /** What is at the root of a tree: its shape one level deep, or the primitive itself. */
  function LabelOf(j: Json): Label {
    match j
    case Null => NullLabel
    case Bool(b) => BoolLabel(b)
    case Num(n) => NumLabel(n)
    case Str(s) => StrLabel(s)
    case Arr(items) => ArrLabel(|items|)
    case Obj(fields) => ObjLabel(Keys(fields))
  }

  function Lookup(fields: seq<Field>, key: string): Option<Json> {
    if fields == [] then None
    else if fields[0].key == key then Some(fields[0].value)
    else Lookup(fields[1..], key)
  }

  function Child(j: Json, step: Step): Option<Json> {
    match (j, step)
    case (Arr(items), Index(i)) => if i < |items| then Some(items[i]) else None
    case (Obj(fields), Key(k)) => Lookup(fields, k)
    case _ => None
  }

  function At(j: Json, path: seq<Step>): Option<Json>
    decreases |path|
  {
    if path == [] then Some(j) else
      match Child(j, path[0])
      case None => None
      case Some(c) => At(c, path[1..])
  }

  function LabelAt(j: Json, path: seq<Step>): Option<Label> {
    match At(j, path)
    case None => None
    case Some(c) => Some(LabelOf(c))
  }

  /** A position is visible if no key on the way to it is sensitive or the prototype key. */
  predicate VisibleStep(s: Step) {
    s.Key? ==> !Sensitive(s.key) && s.key != PROTO
  }

  predicate Visible(path: seq<Step>) {
    forall i :: 0 <= i < |path| ==> VisibleStep(path[i])
  }

  /** Same shape and values at every visible position down to the depth limit. */
  ghost predicate Agree(a: Json, b: Json, depth: nat) {
    forall path :: Visible(path) && depth + |path| <= MAX_DEPTH ==> LabelAt(a, path) == LabelAt(b, path)
  }

  /** Records have distinct keys, at every level. */
  ghost predicate WellFormed(j: Json) {
    match j
    case Arr(items) => forall i :: 0 <= i < |items| ==> WellFormed(items[i])
    case Obj(fields) =>
      && (forall i, k :: 0 <= i < k < |fields| ==> fields[i].key != fields[k].key)
      && forall i :: 0 <= i < |fields| ==> WellFormed(fields[i].value)
    case _ => true
  }

  // ---- Twice is once ----

  lemma {:induction false} RedactTwice(j: Json, depth: nat)
    ensures Redacted(Redacted(j, depth), depth) == Redacted(j, depth)
    decreases j, 1
  {
    if depth <= MAX_DEPTH {
      match j
      case Arr(items) => RedactItemsTwice(items, depth + 1);
      case Obj(fields) => RedactFieldsTwice(fields, depth + 1);
      case _ =>
    }
  }

  lemma {:induction false} RedactItemsTwice(items: seq<Json>, depth: nat)
    ensures RedactedItems(RedactedItems(items, depth), depth) == RedactedItems(items, depth)
    decreases items, 0
  {
    if items != [] {
      RedactTwice(items[0], depth);
      RedactItemsTwice(items[1..], depth);
      var r := RedactedItems(items, depth);
      assert r[1..] == RedactedItems(items[1..], depth);
    }
  }

  lemma {:induction false} RedactFieldsTwice(fields: seq<Field>, depth: nat)
    ensures RedactedFields(RedactedFields(fields, depth), depth) == RedactedFields(fields, depth)
    decreases fields, 0
  {
    if fields != [] {
      var f := fields[0];
      hide Sensitive;
      RedactTwice(f.value, depth);
      RedactFieldsTwice(fields[1..], depth);
      var rest := RedactedFields(fields[1..], depth);
      var first := RedactedField(f, depth);
      if first == [] {
        assert RedactedFields(fields, depth) == rest;
      } else {
        assert (first + rest)[0] == first[0] && (first + rest)[1..] == rest;
        assert RedactedField(first[0], depth) == first;
      }
    }
  }

  // ---- The kernel ----

  lemma ForeignLetter(word: string, j: nat, i: nat)
    requires j < |word| && word[j] !in "_prot"
    ensures !OccursAt(PROTO, word, i)
  {
    assert forall k :: 0 <= k < |PROTO| ==> LowerChar(PROTO[k]) in "_prot";
  }

  lemma NoOtp(i: nat)
    ensures !OccursAt(PROTO, "otp", i)
  {
    var word := "otp";
    assert word[0] == 'o' && word[2] == 'p';
    assert i <= 6 ==> LowerChar(PROTO[i]) != 'o' || LowerChar(PROTO[i + 2]) != 'p';
  }

  lemma ProtoIsNotSensitive()
    ensures !Sensitive(PROTO)
  {
    forall w, i: nat | 0 <= w < |WORDS| && i <= |PROTO| ensures !OccursAt(PROTO, WORDS[w], i) {
      if w == 6 {
        assert WORDS[w] == "otp";
        NoOtp(i);
      } else {
        ForeignLetter(WORDS[w], [1, 2, 0, 0, 0, 1, 0, 0, 1][w], i);
      }
    }
  }

  lemma {:induction false} KeysKept(fields: seq<Field>, depth: nat)
    ensures Keys(RedactedFields(fields, depth)) == Keys(fields)
  {
    if fields != [] {
      ProtoIsNotSensitive();
      hide Sensitive;
      KeysKept(fields[1..], depth);
      var rest := RedactedFields(fields[1..], depth);
      var first := RedactedField(fields[0], depth);
      if first != [] {
        assert (first + rest)[0] == first[0] && (first + rest)[1..] == rest;
      } else {
        assert first + rest == rest;
      }
    }
  }

  /** Above the depth limit redaction changes nothing at the root. */
  lemma LabelKept(j: Json, depth: nat)
    requires depth <= MAX_DEPTH
    ensures LabelOf(Redacted(j, depth)) == LabelOf(j)
  {
    if j.Obj? {
      KeysKept(j.fields, depth + 1);
    }
  }

  lemma {:induction false} LookupRedacted(fields: seq<Field>, key: string, depth: nat)
    requires VisibleStep(Key(key))
    ensures Lookup(RedactedFields(fields, depth), key) ==
      match Lookup(fields, key)
      case None => None
      case Some(v) => Some(Redacted(v, depth))
  {
    if fields != [] {
      hide Sensitive, Redacted;
      LookupRedacted(fields[1..], key, depth);
      var rest := RedactedFields(fields[1..], depth);
      var first := RedactedField(fields[0], depth);
      if first != [] {
        assert (first + rest)[0] == first[0] && (first + rest)[1..] == rest;
      } else {
        assert first + rest == rest;
      }
    }
  }

  lemma {:induction false} ItemRedacted(items: seq<Json>, i: nat, depth: nat)
    requires i < |items|
    ensures RedactedItems(items, depth)[i] == Redacted(items[i], depth)
  {
    if i > 0 {
      ItemRedacted(items[1..], i - 1, depth);
    }
  }

  /** A visible child of the redacted tree is the redacted child. */
  lemma ChildRedacted(j: Json, step: Step, depth: nat)
    requires VisibleStep(step) && depth <= MAX_DEPTH
    ensures Child(Redacted(j, depth), step) ==
      match Child(j, step)
      case None => None
      case Some(c) => Some(Redacted(c, depth + 1))
  {
    match (j, step)
    case (Arr(items), Index(i)) => if i < |items| { ItemRedacted(items, i, depth + 1); }
    case (Obj(fields), Key(k)) => LookupRedacted(fields, k, depth + 1);
    case _ =>
  }

  lemma {:induction false} RedactedAt(j: Json, depth: nat, path: seq<Step>)
    requires Visible(path) && depth + |path| <= MAX_DEPTH + 1
    ensures At(Redacted(j, depth), path) ==
      match At(j, path)
      case None => None
      case Some(c) => Some(Redacted(c, depth + |path|))
    decreases |path|
  {
    hide Redacted, Child, VisibleStep;
    if path != [] {
      ChildRedacted(j, path[0], depth);
      if Child(j, path[0]).Some? {
        RedactedAt(Child(j, path[0]).value, depth + 1, path[1..]);
      }
    }
  }

  /** No secret word on the way, and not through the prototype key. */
  ghost predicate Open(path: seq<Step>) {
    forall i :: 0 <= i < |path| && path[i].Key? ==> !NamesSecret(path[i].key) && path[i].key != "__proto__"
  }

  /** Values stand as they are down to five levels below the root, and the sixth level is masked. */
  lemma MaskedBelowFive(j: Json, path: seq<Step>)
    requires Open(path) && At(j, path).Some?
    ensures |path| <= 5 ==> LabelAt(Redacted(j, 0), path) == LabelAt(j, path)
    ensures |path| == 6 ==> At(Redacted(j, 0), path) == Some(Str("[max-depth]"))
  {
    forall i | 0 <= i < |path| ensures VisibleStep(path[i]) {
      if path[i].Key? { SensitiveMeansSecret(path[i].key); }
    }
    if |path| <= 6 {
      RedactedAt(j, 0, path);
      if |path| <= 5 {
        LabelKept(At(j, path).value, |path|);
      }
    }
  }

  /** Trees that redact alike agree at every visible position. */
  lemma {:induction false} EqualMeansAgree(a: Json, b: Json, depth: nat, path: seq<Step>)
    requires Redacted(a, depth) == Redacted(b, depth) && Visible(path) && depth + |path| <= MAX_DEPTH
    ensures LabelAt(a, path) == LabelAt(b, path)
    decreases |path|
  {
    hide Redacted, Child, VisibleStep;
    if path == [] {
      LabelKept(a, depth);
      LabelKept(b, depth);
    } else {
      ChildRedacted(a, path[0], depth);
      ChildRedacted(b, path[0], depth);
      if Child(a, path[0]).Some? {
        EqualMeansAgree(Child(a, path[0]).value, Child(b, path[0]).value, depth + 1, path[1..]);
      }
    }
  }

  lemma {:induction false} FindField(fields: seq<Field>, key: string) returns (i: nat)
    requires Lookup(fields, key).Some?
    ensures i < |fields| && fields[i].key == key && fields[i].value == Lookup(fields, key).value
  {
    if fields[0].key == key {
      i := 0;
    } else {
      i := FindField(fields[1..], key);
      i := i + 1;
    }
  }

  lemma {:induction false} LookupDistinct(fields: seq<Field>, key: string)
    requires fields != [] && Lookup(fields[1..], key).Some?
    requires forall i, k :: 0 <= i < k < |fields| ==> fields[i].key != fields[k].key
    ensures Lookup(fields, key) == Lookup(fields[1..], key)
  {
    var i := FindField(fields[1..], key);
    assert fields[i + 1].key == key;
  }

  lemma {:induction false} ItemsEqual(a: seq<Json>, b: seq<Json>, depth: nat)
    requires |a| == |b| && forall i :: 0 <= i < |a| ==> Redacted(a[i], depth) == Redacted(b[i], depth)
    ensures RedactedItems(a, depth) == RedactedItems(b, depth)
  {
    if a != [] {
      hide Redacted;
      ItemsEqual(a[1..], b[1..], depth);
    }
  }

  ghost predicate DistinctKeys(fields: seq<Field>) {
    forall i, k :: 0 <= i < k < |fields| ==> fields[i].key != fields[k].key
  }

  /** Visible fields present on both sides redact alike. */
  ghost predicate Matching(a: seq<Field>, b: seq<Field>, depth: nat) {
    forall k :: VisibleStep(Key(k)) && Lookup(a, k).Some? && Lookup(b, k).Some? ==>
      Redacted(Lookup(a, k).value, depth) == Redacted(Lookup(b, k).value, depth)
  }

  lemma SkipProto(fields: seq<Field>, depth: nat)
    requires fields != [] && fields[0].key == PROTO
    ensures Keys(fields) == Keys(fields[1..]) && RedactedFields(fields, depth) == RedactedFields(fields[1..], depth)
    ensures forall k :: VisibleStep(Key(k)) ==> Lookup(fields, k) == Lookup(fields[1..], k)
  {
    ProtoIsNotSensitive();
    assert [] + RedactedFields(fields[1..], depth) == RedactedFields(fields[1..], depth);
  }

  lemma FirstKey(fields: seq<Field>)
    requires fields != [] && fields[0].key != PROTO
    ensures Keys(fields) == [fields[0].key] + Keys(fields[1..])
  {
  }

  lemma FirstRedacted(a: seq<Field>, b: seq<Field>, depth: nat)
    requires a != [] && b != [] && a[0].key == b[0].key != PROTO && Matching(a, b, depth)
    ensures RedactedField(a[0], depth) == RedactedField(b[0], depth)
  {
    hide Sensitive, Redacted;
    if !Sensitive(a[0].key) {
      assert VisibleStep(Key(a[0].key));
      assert Lookup(a, a[0].key) == Some(a[0].value) && Lookup(b, a[0].key) == Some(b[0].value);
    }
  }

  lemma MatchingRest(a: seq<Field>, b: seq<Field>, depth: nat)
    requires a != [] && b != [] && DistinctKeys(a) && DistinctKeys(b) && Matching(a, b, depth)
    ensures Matching(a[1..], b[1..], depth)
  {
    hide Redacted, VisibleStep;
    forall k | VisibleStep(Key(k)) && Lookup(a[1..], k).Some? && Lookup(b[1..], k).Some?
      ensures Redacted(Lookup(a[1..], k).value, depth) == Redacted(Lookup(b[1..], k).value, depth)
    {
      LookupDistinct(a, k);
      LookupDistinct(b, k);
    }
  }

  lemma {:induction false} FieldsEqual(a: seq<Field>, b: seq<Field>, depth: nat)
    requires Keys(a) == Keys(b) && DistinctKeys(a) && DistinctKeys(b) && Matching(a, b, depth)
    ensures RedactedFields(a, depth) == RedactedFields(b, depth)
    decreases |a| + |b|
  {
    hide Redacted, RedactedField, VisibleStep, Lookup;
    if a != [] && a[0].key == PROTO {
      SkipProto(a, depth);
      FieldsEqual(a[1..], b, depth);
    } else if b != [] && b[0].key == PROTO {
      SkipProto(b, depth);
      FieldsEqual(a, b[1..], depth);
    } else if a != [] && b != [] {
      FirstKey(a);
      FirstKey(b);
      assert Keys(a)[0] == a[0].key && Keys(a)[1..] == Keys(a[1..]) && Keys(b)[1..] == Keys(b[1..]);
      FirstRedacted(a, b, depth);
      MatchingRest(a, b, depth);
      hide Matching;
      FieldsEqual(a[1..], b[1..], depth);
    }
  }

  /** Agreement passes to the child at a visible step. */
  lemma AgreeAtChild(a: Json, b: Json, depth: nat, step: Step)
    requires Agree(a, b, depth) && VisibleStep(step) && Child(a, step).Some? && Child(b, step).Some?
    ensures Agree(Child(a, step).value, Child(b, step).value, depth + 1)
  {
    forall path | Visible(path) && depth + 1 + |path| <= MAX_DEPTH
      ensures LabelAt(Child(a, step).value, path) == LabelAt(Child(b, step).value, path)
    {
      var longer := [step] + path;
      assert longer[1..] == path;
      assert Visible(longer) && LabelAt(a, longer) == LabelAt(b, longer);
    }
  }

  lemma RootsAgree(a: Json, b: Json, depth: nat)
    requires Agree(a, b, depth) && depth <= MAX_DEPTH
    ensures LabelOf(a) == LabelOf(b)
  {
    assert LabelAt(a, []) == LabelAt(b, []);
  }

  lemma IndexIsVisible(i: nat)
    ensures VisibleStep(Index(i))
  {
  }

  /** Trees that agree at every visible position redact alike. */
  lemma {:induction false} AgreeMeansEqual(a: Json, b: Json, depth: nat)
    requires WellFormed(a) && WellFormed(b) && Agree(a, b, depth)
    ensures Redacted(a, depth) == Redacted(b, depth)
    decreases a
  {
    hide Agree, LabelAt, Keys, Lookup, RedactedItems, RedactedFields, VisibleStep;
    if depth <= MAX_DEPTH {
      RootsAgree(a, b, depth);
      match a
      case Arr(items) =>
        forall i | 0 <= i < |items| ensures Redacted(items[i], depth + 1) == Redacted(b.items[i], depth + 1) {
          IndexIsVisible(i);
          AgreeAtChild(a, b, depth, Index(i));
          AgreeMeansEqual(items[i], b.items[i], depth + 1);
        }
        ItemsEqual(items, b.items, depth + 1);
      case Obj(fields) =>
        forall k | VisibleStep(Key(k)) && Lookup(fields, k).Some? && Lookup(b.fields, k).Some?
          ensures Redacted(Lookup(fields, k).value, depth + 1) == Redacted(Lookup(b.fields, k).value, depth + 1)
        {
          var i := FindField(fields, k);
          var l := FindField(b.fields, k);
          AgreeAtChild(a, b, depth, Key(k));
          AgreeMeansEqual(fields[i].value, b.fields[l].value, depth + 1);
        }
        FieldsEqual(fields, b.fields, depth + 1);
      case _ => assert !b.Arr? && !b.Obj?;
    }
  }

  /**
   * The exact kernel of redaction: two bodies are indistinguishable in the log exactly if they have
   * the same shape and values at every position down to depth 5 that is not under a sensitive key
   * or the prototype key.
   */
  lemma RedactionKernel(a: Json, b: Json)
    requires WellFormed(a) && WellFormed(b)
    ensures Redacted(a, 0) == Redacted(b, 0) <==> Agree(a, b, 0)
  {
    hide Redacted, LabelAt;
    if Redacted(a, 0) == Redacted(b, 0) {
      forall path | Visible(path) && |path| <= MAX_DEPTH ensures LabelAt(a, path) == LabelAt(b, path) {
        EqualMeansAgree(a, b, 0, path);
      }
    }
    if Agree(a, b, 0) {
      AgreeMeansEqual(a, b, 0);
    }
  }
}
