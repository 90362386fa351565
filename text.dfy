/** String helpers the task manager relies on: the two flavours of `trim` (Java's
    `String.trim` on the server, JavaScript's `String.prototype.trim` in the browser),
    ASCII case mapping for the case-insensitive title search, and substring search. */
module Text {

  /** Java's `String.trim` strips every character up to and including U+0020. */
  predicate IsJavaSpace(c: char) {
    c <= ' '
  }

  /** JavaScript's `trim` strips the WhiteSpace and LineTerminator characters of
      ECMA-262 (section 12.2 and 12.3 of the 2023 edition). */
  predicate IsJsSpace(c: char) {
    || c == '\t' || c == '\n' || c == '\U{000B}' || c == '\U{000C}' || c == '\r' || c == ' '
    || c == '\U{00A0}' || c == '\U{1680}' || ('\U{2000}' <= c <= '\U{200A}')
    || c == '\U{2028}' || c == '\U{2029}' || c == '\U{202F}' || c == '\U{205F}'
    || c == '\U{3000}' || c == '\U{FEFF}'
  }

  /** Every character of `s` is a space (in particular, the empty string is blank). */
  predicate IsBlank(s: string, isSpace: char -> bool) {
    forall i | 0 <= i < |s| :: isSpace(s[i])
  }

  /** `s` without its leading spaces. */
  function TrimStart(s: string, isSpace: char -> bool): (r: string)
    ensures |r| <= |s| && r == s[|s| - |r|..]
    ensures r == [] || !isSpace(r[0])
    ensures IsBlank(s[..|s| - |r|], isSpace)
  {
    if s != [] && isSpace(s[0]) then TrimStart(s[1..], isSpace) else s
  }

  /** `s` without its trailing spaces. */
  function TrimEnd(s: string, isSpace: char -> bool): (r: string)
    ensures |r| <= |s| && r == s[..|r|]
    ensures r == [] || !isSpace(r[|r| - 1])
    ensures IsBlank(s[|r|..], isSpace)
  {
    if s != [] && isSpace(s[|s| - 1]) then TrimEnd(s[..|s| - 1], isSpace) else s
  }

  /** `r` stands at index `k` of `s`, with only spaces before and after it. */
  predicate SpacesAround(s: string, r: string, k: int, isSpace: char -> bool) {
    0 <= k <= |s| - |r| && s[k..k + |r|] == r && IsBlank(s[..k], isSpace) && IsBlank(s[k + |r|..], isSpace)
  }

  /** `s` without its leading and trailing spaces: `trim()` for the given notion of space. */
  function Trim(s: string, isSpace: char -> bool): (r: string)
    ensures |r| <= |s|
    ensures r == [] || (!isSpace(r[0]) && !isSpace(r[|r| - 1]))
  {
    TrimEnd(TrimStart(s, isSpace), isSpace)
  }

  /** Trimming removes spaces only: the result is a slice of `s` with nothing but
      spaces before and after it. */
  lemma TrimRemovesOnlySpaces(s: string, isSpace: char -> bool)
    ensures exists k :: SpacesAround(s, Trim(s, isSpace), k, isSpace)
  {
    var t := TrimStart(s, isSpace);
    var r := TrimEnd(t, isSpace);
    var k := |s| - |t|;
    assert s[k..k + |r|] == r by {
      assert t == s[k..];
      assert r == t[..|r|];
    }
    var after := s[k + |r|..];
    forall i | 0 <= i < |after|
      ensures isSpace(after[i])
    {
      assert t[|r|..][i] == after[i];
    }
    assert SpacesAround(s, r, k, isSpace);
    assert r == Trim(s, isSpace);
  }

  /** `s.trim().isEmpty()` holds exactly when `s` is made of spaces only. */
  lemma TrimEmptyIffBlank(s: string, isSpace: char -> bool)
    ensures Trim(s, isSpace) == [] <==> IsBlank(s, isSpace)
  {
    var t := TrimStart(s, isSpace);
    if Trim(s, isSpace) == [] {
      assert s[..|s|] == s;
    } else {
      var r := Trim(s, isSpace);
      assert r == t[..|r|];
      assert t == s[|s| - |t|..];
      assert !isSpace(s[|s| - |t|]);
    }
  }

  /** Trimming twice is trimming once. */
  lemma TrimIdempotent(s: string, isSpace: char -> bool)
    ensures Trim(Trim(s, isSpace), isSpace) == Trim(s, isSpace)
  {
    var r := Trim(s, isSpace);
    assert TrimStart(r, isSpace) == r;
  }

  /** ASCII lower-casing of one character; every other character is left alone. */
  function LowerChar(c: char): (d: char)
    ensures 'A' <= c <= 'Z' ==> 'a' <= d <= 'z' && d as int - c as int == 32
    ensures !('A' <= c <= 'Z') ==> d == c
  {
    if 'A' <= c <= 'Z' then (c as int + 32) as char else c
  }

  /** ASCII upper-casing of one character; every other character is left alone. */
  function UpperChar(c: char): (d: char)
    ensures 'a' <= c <= 'z' ==> 'A' <= d <= 'Z' && c as int - d as int == 32
    ensures !('a' <= c <= 'z') ==> d == c
  {
    if 'a' <= c <= 'z' then (c as int - 32) as char else c
  }

  /** Lower-casing and upper-casing identify the same pairs of characters. */
  lemma LowerOfUpperChar(c: char)
    ensures LowerChar(UpperChar(c)) == LowerChar(c)
    ensures LowerChar(LowerChar(c)) == LowerChar(c)
  {
  }

  function ToLower(s: string): (r: string)
    ensures |r| == |s|
    ensures forall i | 0 <= i < |s| :: r[i] == LowerChar(s[i])
  {
    if s == [] then [] else [LowerChar(s[0])] + ToLower(s[1..])
  }

  function ToUpper(s: string): (r: string)
    ensures |r| == |s|
    ensures forall i | 0 <= i < |s| :: r[i] == UpperChar(s[i])
  {
    if s == [] then [] else [UpperChar(s[0])] + ToUpper(s[1..])
  }

  /** Lower-casing is idempotent and forgets any earlier upper-casing, so a search
      term compares the same in any letter case. */
  lemma {:induction false} ToLowerForgetsCase(s: string)
    ensures ToLower(ToLower(s)) == ToLower(s)
    ensures ToLower(ToUpper(s)) == ToLower(s)
  {
    if s != [] {
      ToLowerForgetsCase(s[1..]);
      LowerOfUpperChar(s[0]);
      assert ToLower(ToLower(s)) == [LowerChar(LowerChar(s[0]))] + ToLower(ToLower(s[1..]));
      assert ToUpper(s) == [UpperChar(s[0])] + ToUpper(s[1..]);
      assert ToLower(ToUpper(s)) == [LowerChar(UpperChar(s[0]))] + ToLower(ToUpper(s[1..]));
    }
  }

  /** `needle` occurs in `hay` starting at index `i`. */
  predicate OccursAt(hay: string, needle: string, i: int) {
    0 <= i && i + |needle| <= |hay| && hay[i..i + |needle|] == needle
  }

  /** `hay.contains(needle)`. */
  predicate Contains(hay: string, needle: string) {
    exists i | 0 <= i <= |hay| - |needle| :: OccursAt(hay, needle, i)
  }

  /** Every string contains the empty string. */
  lemma ContainsEmpty(hay: string)
    ensures Contains(hay, [])
  {
    assert OccursAt(hay, [], 0);
  }

  /** A string contains everything its substrings contain. */
  lemma ContainsTransitive(a: string, b: string, c: string)
    requires Contains(a, b) && Contains(b, c)
    ensures Contains(a, c)
  {
    var i :| 0 <= i <= |a| - |b| && OccursAt(a, b, i);
    var j :| 0 <= j <= |b| - |c| && OccursAt(b, c, j);
    assert b == a[i..i + |b|];
    forall k | 0 <= k < |c|
      ensures a[i + j + k] == c[k]
    {
      assert c[k] == b[j + k] == a[i + j + k];
    }
    assert a[i + j..i + j + |c|] == c;
    assert OccursAt(a, c, i + j);
  }
}
