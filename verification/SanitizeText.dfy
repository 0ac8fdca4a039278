/** The string cleaning of src/middlewares/sanitizeInput.ts, on UTF-16 code units. */
module SanitizeText {
  import opened Common
  import Strings = Text

  newtype CodeUnit = x: int | 0 <= x < 0x10000
  type Text = seq<CodeUnit>

  const NAME_FIELD_MAX_LENGTH := 200
  const BIO_FIELD_MAX_LENGTH := 5000
  const NAME_FIELDS := {"name", "username", "title", "displayname", "fullname"}
  const BIO_FIELDS := {"bio", "description", "about", "summary"}

  const SPACE: CodeUnit := 0x20

  /** INVISIBLE_CHARS_REGEX. */
  predicate IsInvisible(c: CodeUnit) {
    0x200B <= c <= 0x200F || 0x202A <= c <= 0x202E || 0x2060 <= c <= 0x2064 || c == 0xFEFF
  }

  /** CONTROL_CHARS_REGEX: the control characters except tab, line feed and carriage return. */
  predicate IsControl(c: CodeUnit) {
    c <= 0x08 || c == 0x0B || c == 0x0C || 0x0E <= c <= 0x1F || 0x7F <= c <= 0x9F
  }

  /** `\s`, which is also what `trim` removes. */
  predicate IsSpace(c: CodeUnit) {
    Strings.IsSpaceCode(c as int)
  }

  function DropInvisible(s: Text): Text {
    if s == [] then [] else (if IsInvisible(s[0]) then [] else [s[0]]) + DropInvisible(s[1..])
  }

  function DropControl(s: Text): Text {
    if s == [] then [] else (if IsControl(s[0]) then [] else [s[0]]) + DropControl(s[1..])
  }

  function SkipSpaces(s: Text): (r: Text)
    ensures |r| <= |s| && (r != [] ==> !IsSpace(r[0]))
  {
    if s != [] && IsSpace(s[0]) then SkipSpaces(s[1..]) else s
  }

  function TrimEnd(s: Text): (r: Text)
    ensures |r| <= |s| && (r != [] ==> !IsSpace(r[|r| - 1]))
  {
    if s != [] && IsSpace(s[|s| - 1]) then TrimEnd(s[..|s| - 1]) else s
  }

  /** `result.replace(/\s+/g, ' ')`. */
  function Collapse(s: Text): Text
    decreases |s|
  {
    if s == [] then []
    else if IsSpace(s[0]) then [SPACE] + Collapse(SkipSpaces(s[1..]))
    else [s[0]] + Collapse(s[1..])
  }

  /** `result.replace(/\s+/g, ' ').trim()`. */
  function Squeeze(s: Text): Text {
    TrimEnd(SkipSpaces(Collapse(s)))
  }

  /** No character outside ASCII turns into a letter of a listed field name. */
  function Lower(key: string): string {
    seq(|key|, i requires 0 <= i < |key| => Strings.LowerChar(key[i]))
  }

  function MaxLengthForField(key: string): Option<nat> {
    if Lower(key) in NAME_FIELDS then Some(NAME_FIELD_MAX_LENGTH)
    else if Lower(key) in BIO_FIELDS then Some(BIO_FIELD_MAX_LENGTH)
    else None
  }

  function Truncate(s: Text, limit: Option<nat>): Text {
    if limit.Some? && |s| > limit.value then s[..limit.value] else s
  }

  /** The steps between the removal of markup and the truncation. */
  function Squeezed(s: Text): Text {
    Squeeze(DropControl(DropInvisible(s)))
  }

  /** The steps after normalization and the removal of markup. */
  function CleanUp(s: Text, key: string): Text {
    Truncate(Squeezed(s), MaxLengthForField(key))
  }

  /** `sanitizeString`; `strip` stands for the normalization and the markup patterns. */
  method SanitizeString(strip: Text -> Text, value: Text, key: string) returns (result: Text)
    ensures result == CleanUp(strip(value), key)
  {
    result := strip(value);
    result := DropInvisible(result);
    result := DropControl(result);
    result := Squeeze(result);
    var maxLength := MaxLengthForField(key);
    if maxLength.Some? && |result| > maxLength.value {
      result := result[..maxLength.value];
    }
  }

  // ---- Words ----

  /** Length of the leading run of characters that are not white space. */
  function WordLength(s: Text): (n: nat)
    ensures n <= |s| && (forall i :: 0 <= i < n ==> !IsSpace(s[i])) && (n < |s| ==> IsSpace(s[n]))
  {
    if s == [] || IsSpace(s[0]) then 0 else 1 + WordLength(s[1..])
  }

  /** The maximal runs of characters that are not white space. */
  function Words(s: Text): seq<Text>
    decreases |s|
  {
    var t := SkipSpaces(s);
    if t == [] then [] else
      var n := WordLength(t);
      assert n > 0;
      [t[..n]] + Words(t[n..])
  }

  /** Words with a single space between them. */
  function Join(words: seq<Text>): Text {
    if words == [] then [] else if |words| == 1 then words[0] else words[0] + [SPACE] + Join(words[1..])
  }

  lemma {:induction false} CollapseWord(w: Text, rest: Text)
    requires forall i :: 0 <= i < |w| ==> !IsSpace(w[i])
    ensures Collapse(w + rest) == w + Collapse(rest)
  {
    if w == [] {
      assert w + rest == rest;
    } else {
      assert (w + rest)[1..] == w[1..] + rest;
      CollapseWord(w[1..], rest);
      assert w == [w[0]] + w[1..];
    }
  }

  lemma {:induction false} TrimEndAppend(a: Text, b: Text)
    requires TrimEnd(b) != []
    ensures TrimEnd(a + b) == a + TrimEnd(b)
  {
    var k := |b| - 1;
    if IsSpace(b[k]) {
      assert (a + b)[..|a + b| - 1] == a + b[..k];
      TrimEndAppend(a, b[..k]);
    }
  }

  lemma {:induction false} TrimEndKeepsStart(s: Text)
    requires s != [] && !IsSpace(s[0])
    ensures TrimEnd(s) != []
  {
    if IsSpace(s[|s| - 1]) {
      TrimEndKeepsStart(s[..|s| - 1]);
    }
  }

  lemma WordSplit(s: Text)
    requires s != [] && !IsSpace(s[0])
    ensures var n := WordLength(s);
      n > 0 && Words(s) == [s[..n]] + Words(s[n..]) && Collapse(s) == s[..n] + Collapse(s[n..])
  {
    var n := WordLength(s);
    assert s == s[..n] + s[n..];
    CollapseWord(s[..n], s[n..]);
  }

  lemma {:induction false} TrimmedCollapseIsJoin(s: Text)
    requires s != [] && !IsSpace(s[0])
    ensures TrimEnd(Collapse(s)) == Join(Words(s))
    decreases |s|
  {
    hide Join, TrimEnd, Collapse, Words;
    var n := WordLength(s);
    var w, rest := s[..n], s[n..];
    WordSplit(s);
    if rest == [] {
      Nothing();
      TrimWord(w);
    } else {
      var next := SkipSpaces(rest[1..]);
      Gap(rest, next);
      if next == [] {
        Nothing();
        TrimWord(w);
      } else {
        TrimmedCollapseIsJoin(next);
        StartKept(next);
        JoinAfterGap(w, Collapse(next), Words(next));
      }
    }
  }

  lemma Nothing()
    ensures Collapse([]) == [] && Words([]) == [] && TrimEnd([]) == [] && Join([]) == []
  {
  }

  lemma Gap(rest: Text, next: Text)
    requires rest != [] && IsSpace(rest[0]) && next == SkipSpaces(rest[1..])
    ensures Collapse(rest) == [SPACE] + Collapse(next) && Words(rest) == Words(next)
  {
    SkipTwice(rest, next);
  }

  lemma StartKept(s: Text)
    requires s != [] && !IsSpace(s[0])
    ensures Collapse(s) != [] && Collapse(s)[0] == s[0] && Words(s) != []
  {
  }

  lemma TrimWord(w: Text)
    requires w != [] && !IsSpace(w[|w| - 1])
    ensures TrimEnd(w + []) == w == TrimEnd(w + ([SPACE] + [])) == Join([w] + [])
  {
    assert w + [] == w && (w + ([SPACE] + []))[..|w|] == w;
  }

  lemma JoinAfterGap(w: Text, c: Text, ws: seq<Text>)
    requires c != [] && !IsSpace(c[0]) && ws != [] && TrimEnd(c) == Join(ws)
    ensures TrimEnd(w + ([SPACE] + c)) == Join([w] + ws)
  {
    hide TrimEnd;
    TrimEndKeepsStart(c);
    TrimEndAppend(w + [SPACE], c);
    assert w + ([SPACE] + c) == w + [SPACE] + c;
    assert ([w] + ws)[1..] == ws;
  }

  lemma SkipTwice(s: Text, t: Text)
    requires t == SkipSpaces(s)
    ensures SkipSpaces(t) == t && Words(s) == Words(t)
  {
  }

  lemma SkipCollapse(s: Text)
    ensures SkipSpaces(Collapse(s)) == Collapse(SkipSpaces(s))
  {
    if s != [] && IsSpace(s[0]) {
      var t := SkipSpaces(s[1..]);
      assert ([SPACE] + Collapse(t))[1..] == Collapse(t);
      SkipStarted(Collapse(t));
    } else {
      SkipStarted(Collapse(s));
    }
  }

  lemma SkipStarted(s: Text)
    requires s != [] ==> !IsSpace(s[0])
    ensures SkipSpaces(s) == s
  {
  }

  /** Collapsing and trimming yields exactly the words of the text, one space apart. */
  lemma SqueezeIsJoinedWords(s: Text)
    ensures Squeeze(s) == Join(Words(s))
  {
    hide Join, TrimEnd, Collapse, Words, SkipSpaces;
    SkipCollapse(s);
    var t := SkipSpaces(s);
    SkipTwice(s, t);
    if t == [] {
      Nothing();
    } else {
      TrimmedCollapseIsJoin(t);
    }
  }

  // ---- Clean text ----

  /** No dangerous character, no white space but single spaces. */
  predicate Tidy(s: Text) {
    && (forall i :: 0 <= i < |s| ==> !IsInvisible(s[i]) && !IsControl(s[i]) && (IsSpace(s[i]) ==> s[i] == SPACE))
    && (forall i, j :: 0 <= i && j == i + 1 < |s| ==> s[i] != SPACE || s[j] != SPACE)
  }

  predicate Fits(s: Text, limit: Option<nat>) {
    limit.Some? ==> |s| <= limit.value
  }

  predicate EndsWithSpace(s: Text) {
    s != [] && s[|s| - 1] == SPACE
  }

  /** What a stored string looks like. */
  predicate Clean(s: Text, key: string) {
    Tidy(s) && (s != [] ==> s[0] != SPACE) && Fits(s, MaxLengthForField(key))
  }

  predicate Harmless(s: Text) {
    forall i :: 0 <= i < |s| ==> !IsInvisible(s[i]) && !IsControl(s[i])
  }

  lemma {:induction false} DropInvisibleDrops(s: Text)
    ensures var r := DropInvisible(s);
      |r| <= |s| && (forall i :: 0 <= i < |r| ==> !IsInvisible(r[i]))
      && ((forall i :: 0 <= i < |s| ==> !IsInvisible(s[i])) ==> r == s)
  {
    if s != [] { DropInvisibleDrops(s[1..]); }
  }

  lemma {:induction false} DropControlDrops(s: Text)
    ensures var r := DropControl(s);
      |r| <= |s| && (forall i :: 0 <= i < |r| ==> !IsControl(r[i]))
      && ((forall i :: 0 <= i < |s| ==> !IsInvisible(s[i])) ==> forall i :: 0 <= i < |r| ==> !IsInvisible(r[i]))
      && ((forall i :: 0 <= i < |s| ==> !IsControl(s[i])) ==> r == s)
  {
    if s != [] { DropControlDrops(s[1..]); }
  }

  lemma {:induction false} CollapseTidies(s: Text)
    requires Harmless(s)
    ensures Tidy(Collapse(s)) && |Collapse(s)| <= |s|
    ensures s != [] && !IsSpace(s[0]) ==> Collapse(s) != [] && Collapse(s)[0] == s[0]
    decreases |s|
  {
    if s != [] {
      if IsSpace(s[0]) {
        SkipIsSuffix(s[1..]);
        CollapseTidies(SkipSpaces(s[1..]));
      } else {
        CollapseTidies(s[1..]);
      }
    }
  }

  lemma {:induction false} TidyIsCollapsed(s: Text)
    requires Tidy(s)
    ensures Collapse(s) == s
    decreases |s|
  {
    if s != [] {
      TidyIsCollapsed(s[1..]);
      if IsSpace(s[0]) {
        assert 1 < |s| ==> s[1] != SPACE;
        assert SkipSpaces(s[1..]) == s[1..];
      }
    }
  }

  lemma TidySlice(s: Text, i: nat, j: nat)
    requires Tidy(s) && i <= j <= |s|
    ensures Tidy(s[i..j])
  {
  }

  lemma {:induction false} SkipIsSuffix(s: Text)
    ensures var r := SkipSpaces(s); r == s[|s| - |r|..|s|]
  {
    if s != [] && IsSpace(s[0]) { SkipIsSuffix(s[1..]); }
  }

  lemma {:induction false} TrimIsPrefix(s: Text)
    ensures var r := TrimEnd(s); r == s[0..|r|]
  {
    if s != [] && IsSpace(s[|s| - 1]) { TrimIsPrefix(s[..|s| - 1]); }
  }

  lemma SqueezedIsTidy(s: Text)
    ensures var r := Squeezed(s);
      Tidy(r) && |r| <= |s| && (r != [] ==> r[0] != SPACE && r[|r| - 1] != SPACE)
  {
    hide SkipSpaces, TrimEnd, Collapse;
    DropInvisibleDrops(s);
    DropControlDrops(DropInvisible(s));
    var c := Collapse(DropControl(DropInvisible(s)));
    CollapseTidies(DropControl(DropInvisible(s)));
    var t := SkipSpaces(c);
    TidySlice(c, |c| - |t|, |c|);
    SkipIsSuffix(c);
    var r := TrimEnd(t);
    TidySlice(t, 0, |r|);
    TrimIsPrefix(t);
  }

  /** Whatever the earlier passes leave, the stored string is clean. */
  lemma CleanUpCleans(s: Text, key: string)
    ensures Clean(CleanUp(s, key), key)
  {
    hide Squeezed, MaxLengthForField, Tidy;
    SqueezedIsTidy(s);
    TidySlice(Squeezed(s), 0, |CleanUp(s, key)|);
    assert CleanUp(s, key) == Squeezed(s)[0..|CleanUp(s, key)|];
  }

  /** The cleaning keeps the words: all of them, or those within the first `limit` characters. */
  lemma CleanUpKeepsWords(s: Text, key: string)
    ensures var kept := Join(Words(DropControl(DropInvisible(s))));
      var limit := MaxLengthForField(key);
      CleanUp(s, key) == if Fits(kept, limit) then kept else kept[..limit.value]
  {
    SqueezeIsJoinedWords(DropControl(DropInvisible(s)));
  }

  lemma SqueezeOfTidy(s: Text)
    requires Tidy(s) && (s != [] ==> s[0] != SPACE)
    ensures Squeezed(s) == TrimEnd(s)
  {
    DropInvisibleDrops(s);
    DropControlDrops(s);
    TidyIsCollapsed(s);
    assert s != [] ==> !IsSpace(s[0]);
  }

  lemma TrimEndOfTidy(s: Text)
    requires Tidy(s)
    ensures TrimEnd(s) == if EndsWithSpace(s) then s[..|s| - 1] else s
  {
    if EndsWithSpace(s) {
      var t := s[..|s| - 1];
      var i, j := |s| - 2, |s| - 1;
      assert TrimEnd(s) == TrimEnd(t);
      if t != [] {
        assert s[j] == SPACE && t[|t| - 1] == s[i];
        assert TrimEnd(t) == t;
      }
    }
  }

  /** The strings the cleaning leaves alone are the clean ones without a trailing space. */
  lemma UnchangedIffClean(s: Text, key: string)
    ensures CleanUp(s, key) == s <==> Clean(s, key) && !EndsWithSpace(s)
  {
    hide Squeezed, MaxLengthForField, Tidy, TrimEnd;
    CleanUpCleans(s, key);
    SqueezedIsTidy(s);
    if Clean(s, key) {
      SqueezeOfTidy(s);
      TrimEndOfTidy(s);
    }
  }

  /** Cleaning a stored string again changes it exactly when truncation cut right after a space. */
  lemma SecondCleaning(s: Text, key: string)
    ensures var once, limit := CleanUp(s, key), MaxLengthForField(key);
      var cutAfterSpace := limit.Some? && 0 < limit.value < |Squeezed(s)| && Squeezed(s)[limit.value - 1] == SPACE;
      CleanUp(once, key) == if cutAfterSpace then once[..|once| - 1] else once
  {
    hide Squeezed, MaxLengthForField, Tidy, TrimEnd;
    var once := CleanUp(s, key);
    CleanUpCleans(s, key);
    SqueezedIsTidy(s);
    SqueezeOfTidy(once);
    TrimEndOfTidy(once);
  }

  /** Such a string: one short of the limit, then a space, then more. */
  lemma CutAfterSpaceHappens(word: Text, c: CodeUnit)
    requires |word| == NAME_FIELD_MAX_LENGTH - 1 && Harmless(word + [c])
    requires forall i :: 0 <= i < |word + [c]| ==> !IsSpace((word + [c])[i])
    ensures var s := word + [SPACE, c];
      CleanUp(s, "title") == word + [SPACE] && CleanUp(word + [SPACE], "title") == word
  {
    hide Squeezed, TrimEnd;
    var s := word + [SPACE, c];
    assert (word + [c])[..|word|] == word && (word + [c])[|word|] == c;
    forall i | 0 <= i < |word| ensures s[i] == (word + [c])[i] {}
    assert Tidy(s);
    SqueezeOfTidy(s);
    TrimEndOfTidy(s);
    SqueezeOfTidy(word + [SPACE]);
    TrimEndOfTidy(word + [SPACE]);
    assert Lower("title") == "title";
    assert s[..200] == word + [SPACE];
  }

  // ---- The tables, written out ----

  /** Zero-width, bidirectional-override and control characters. */
  predicate IsDangerous(c: CodeUnit) {
    || 0x200B <= c <= 0x200F || 0x202A <= c <= 0x202E || 0x2060 <= c <= 0x2064 || c == 0xFEFF
    || (c <= 0x1F && c != 0x09 && c != 0x0A && c != 0x0D) || 0x7F <= c <= 0x9F
  }

  predicate IsBlank(c: CodeUnit) {
    c as int in {9, 10, 11, 12, 13, 32, 160, 5760, 8192, 8193, 8194, 8195, 8196, 8197, 8198, 8199, 8200, 8201, 8202,
      8232, 8233, 8239, 8287, 12288, 65279}
  }

  lemma Tables(c: CodeUnit)
    ensures IsDangerous(c) <==> IsInvisible(c) || IsControl(c)
    ensures IsBlank(c) <==> IsSpace(c)
  {
  }

  /** The character passes drop the dangerous characters and keep all others, in order. */
  lemma {:induction false} DropsTheDangerous(s: Text) returns (pos: seq<nat>)
    ensures Selects(s, pos, DropControl(DropInvisible(s)))
    ensures forall i :: 0 <= i < |s| ==> (i in pos <==> !IsDangerous(s[i]))
  {
    if s == [] {
      pos := [];
    } else {
      var init, last := s[..|s| - 1], s[|s| - 1];
      assert s == init + [last];
      DropLast(init, last);
      hide *;
      pos := DropsTheDangerous(init);
      pos := SelectsNext(s, pos, DropControl(DropInvisible(init)), !IsDangerous(last));
    }
  }

  lemma {:induction false} DropInvisibleAppend(s: Text, c: CodeUnit)
    ensures DropInvisible(s + [c]) == DropInvisible(s) + if IsInvisible(c) then [] else [c]
  {
    if s != [] {
      assert (s + [c])[1..] == s[1..] + [c];
      DropInvisibleAppend(s[1..], c);
    }
  }

  lemma {:induction false} DropControlAppend(s: Text, c: CodeUnit)
    ensures DropControl(s + [c]) == DropControl(s) + if IsControl(c) then [] else [c]
  {
    if s != [] {
      assert (s + [c])[1..] == s[1..] + [c];
      DropControlAppend(s[1..], c);
    }
  }

  lemma DropLast(s: Text, c: CodeUnit)
    ensures DropControl(DropInvisible(s + [c])) == DropControl(DropInvisible(s)) + if !IsDangerous(c) then [c] else []
  {
    Tables(c);
    hide IsInvisible, IsControl, IsDangerous;
    DropInvisibleAppend(s, c);
    if IsInvisible(c) {
      assert DropInvisible(s) + [] == DropInvisible(s);
    } else {
      DropControlAppend(DropInvisible(s), c);
    }
  }

  /** A stored string has no dangerous character and no blank but single spaces, none of them in front. */
  lemma StoredCharacters(s: Text, key: string)
    ensures var r := CleanUp(s, key);
      && (forall i :: 0 <= i < |r| ==> !IsDangerous(r[i]) && (IsBlank(r[i]) ==> r[i] == 0x20))
      && (forall i, j :: 0 <= i && j == i + 1 < |r| ==> !IsBlank(r[i]) || !IsBlank(r[j]))
      && (r != [] ==> !IsBlank(r[0]))
  {
    CleanUpCleans(s, key);
    var r := CleanUp(s, key);
    hide CleanUp, IsDangerous, IsBlank, IsInvisible, IsControl, IsSpace;
    forall i | 0 <= i < |r|
      ensures IsDangerous(r[i]) <==> IsInvisible(r[i]) || IsControl(r[i])
      ensures IsBlank(r[i]) <==> IsSpace(r[i])
    {
      Tables(r[i]);
    }
  }

  /** The limits, by the names of the fields in any capitalisation. */
  function LimitOf(name: bool, bio: bool): Option<nat> {
    if name then Some(200) else if bio then Some(5000) else None
  }

  lemma LowerIffSpells(key: string, word: string)
    requires Strings.IsLower(word)
    ensures Lower(key) == word <==> Strings.Spells(key, word)
  {
    if |key| == |word| {
      forall j | 0 <= j < |key| ensures Lower(key)[j] == word[j] <==> Strings.SameLetter(key[j], word[j]) {
        Strings.LowerMeans(key[j], word[j]);
      }
    }
  }

  ghost predicate IsNameField(key: string) {
    || Strings.Spells(key, "name") || Strings.Spells(key, "username") || Strings.Spells(key, "title")
    || Strings.Spells(key, "displayname") || Strings.Spells(key, "fullname")
  }

  ghost predicate IsBioField(key: string) {
    || Strings.Spells(key, "bio") || Strings.Spells(key, "description") || Strings.Spells(key, "about")
    || Strings.Spells(key, "summary")
  }

  lemma LimitByField(key: string)
    ensures MaxLengthForField(key) == LimitOf(IsNameField(key), IsBioField(key))
  {
    hide Lower, Strings.Spells;
    LowerIffSpells(key, "name");
    LowerIffSpells(key, "username");
    LowerIffSpells(key, "title");
    LowerIffSpells(key, "displayname");
    LowerIffSpells(key, "fullname");
    LowerIffSpells(key, "bio");
    LowerIffSpells(key, "description");
    LowerIffSpells(key, "about");
    LowerIffSpells(key, "summary");
  }

  /** Name fields keep the first 200 characters, bio fields the first 5000, all others everything. */
  lemma LimitsApplied(s: Text, key: string)
    ensures var all := Squeezed(s);
      && (IsNameField(key) ==> CleanUp(s, key) == if |all| <= 200 then all else all[..200])
      && (!IsNameField(key) && IsBioField(key) ==> CleanUp(s, key) == if |all| <= 5000 then all else all[..5000])
      && (!IsNameField(key) && !IsBioField(key) ==> CleanUp(s, key) == all)
  {
    hide Squeezed, MaxLengthForField, IsNameField, IsBioField;
    LimitByField(key);
  }
}
