/** The string operations of JavaScript that several components rely on. */
module Text {

  /** White space and line terminators, as `trim` and `\s` see them, by code. */
  predicate IsSpaceCode(c: int) {
    || 0x09 <= c <= 0x0D || c == 0x20 || c == 0xA0 || c == 0x1680 || 0x2000 <= c <= 0x200A
    || c == 0x2028 || c == 0x2029 || c == 0x202F || c == 0x205F || c == 0x3000 || c == 0xFEFF
  }

  predicate IsSpace(c: char) {
    IsSpaceCode(c as int)
  }

  /** Lower case of ASCII letters. */
  function LowerChar(c: char): char {
    if 'A' <= c <= 'Z' then c - 'A' + 'a' else c
  }

  /** Does the lower-case `word` occur in `s` at position `i`, ignoring ASCII case? */
  predicate OccursAt(s: string, word: string, i: nat) {
    i + |word| <= |s| && forall j :: 0 <= j < |word| ==> LowerChar(s[i + j]) == word[j]
  }

  /** `c` is the lower-case letter `w` in either case, or `w` itself. */
  predicate SameLetter(c: char, w: char) {
    c == w || ('a' <= w <= 'z' && c as int == w as int - 32)
  }

  /** `s` is `word` in any capitalisation. */
  ghost predicate Spells(s: string, word: string) {
    |s| == |word| && forall j :: 0 <= j < |s| ==> SameLetter(s[j], word[j])
  }

  /** `word` stands somewhere in `s`, in any capitalisation. */
  ghost predicate Holds(s: string, word: string) {
    exists prefix, cased, suffix :: s == prefix + cased + suffix && Spells(cased, word)
  }

  predicate IsLower(word: string) {
    forall j :: 0 <= j < |word| ==> !('A' <= word[j] <= 'Z')
  }

  lemma LowerMeans(c: char, w: char)
    requires !('A' <= w <= 'Z')
    ensures LowerChar(c) == w <==> SameLetter(c, w)
  {
  }

  /** The search for a word ignoring case finds it exactly where it stands in some capitalisation. */
  lemma OccursIffHolds(s: string, word: string)
    requires IsLower(word)
    ensures (exists i :: 0 <= i <= |s| && OccursAt(s, word, i)) <==> Holds(s, word)
  {
    if i :| 0 <= i <= |s| && OccursAt(s, word, i) {
      var cased := s[i..i + |word|];
      forall j | 0 <= j < |cased| ensures SameLetter(cased[j], word[j]) {
        LowerMeans(cased[j], word[j]);
      }
      assert s == s[..i] + cased + s[i + |word|..] && Spells(cased, word);
    }
    if Holds(s, word) {
      var prefix, cased, suffix :| s == prefix + cased + suffix && Spells(cased, word);
      forall j | 0 <= j < |word| ensures LowerChar(s[|prefix| + j]) == word[j] {
        assert s[|prefix| + j] == cased[j];
        LowerMeans(cased[j], word[j]);
      }
      assert OccursAt(s, word, |prefix|);
    }
  }

  function TrimStart(s: string): (r: string)
    ensures r == [] || !IsSpace(r[0])
    ensures exists k :: 0 <= k <= |s| && r == s[k..] && forall i :: 0 <= i < k ==> IsSpace(s[i])
  {
    if s == [] || !IsSpace(s[0]) then
      assert s == s[0..];
      s
    else
      var r := TrimStart(s[1..]);
      assert exists k :: 0 <= k <= |s| && r == s[k..] && forall i :: 0 <= i < k ==> IsSpace(s[i]) by {
        var j :| 0 <= j <= |s[1..]| && r == s[1..][j..] && forall i :: 0 <= i < j ==> IsSpace(s[1..][i]);
        assert r == s[j + 1..] && forall i :: 0 <= i < j + 1 ==> IsSpace(s[i]) by {
          forall i | 0 <= i < j + 1 ensures IsSpace(s[i]) {
            if i > 0 { assert s[1..][i - 1] == s[i]; }
          }
        }
      }
      r
  }

  function TrimEnd(s: string): (r: string)
    ensures r == [] || !IsSpace(r[|r| - 1])
    ensures r <= s && forall i :: |r| <= i < |s| ==> IsSpace(s[i])
  {
    if s == [] || !IsSpace(s[|s| - 1]) then s else TrimEnd(s[..|s| - 1])
  }

  function Trim(s: string): string {
    TrimEnd(TrimStart(s))
  }

  lemma TrimStartMeans(s: string) returns (i: nat)
    ensures i <= |s| && TrimStart(s) == s[i..] && (forall k :: 0 <= k < i ==> IsSpace(s[k])) && (i < |s| ==> !IsSpace(s[i]))
  {
    i :| 0 <= i <= |s| && TrimStart(s) == s[i..] && forall k :: 0 <= k < i ==> IsSpace(s[k]);
    assert i < |s| ==> s[i..][0] == s[i];
  }

  /** White space and line terminators of ECMAScript, by code. */
  predicate IsBlank(c: char) {
    c as int in {9, 10, 11, 12, 13, 32, 160, 5760, 8192, 8193, 8194, 8195, 8196, 8197, 8198, 8199, 8200, 8201, 8202,
      8232, 8233, 8239, 8287, 12288, 65279}
  }

  lemma BlankIsSpace(c: char)
    ensures IsBlank(c) <==> IsSpace(c)
  {
  }

  /** `trim` takes away the blanks at both ends and nothing else. */
  lemma TrimMeans(s: string) returns (i: nat, j: nat)
    ensures i <= j <= |s| && Trim(s) == s[i..j]
    ensures forall k :: 0 <= k < i || j <= k < |s| ==> IsBlank(s[k])
    ensures i < j ==> !IsBlank(s[i]) && !IsBlank(s[j - 1])
  {
    hide TrimStart, TrimEnd, IsBlank, IsSpace;
    i := TrimStartMeans(s);
    var t := s[i..];
    var r := TrimEnd(t);
    j := i + |r|;
    assert r == t[..|r|] && t[..|r|] == s[i..j];
    forall k | 0 <= k < |s| ensures IsBlank(s[k]) <==> IsSpace(s[k]) {
      BlankIsSpace(s[k]);
    }
    forall k | j <= k < |s| ensures IsSpace(s[k]) {
      assert t[k - i] == s[k];
    }
    assert i < j ==> r[|r| - 1] == s[j - 1];
  }
}
