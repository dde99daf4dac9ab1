/** String helpers used by the validation chains and the query filters:
    JavaScript's `\s` whitespace, validator.js `trim`, ASCII lower-casing,
    substring search and decimal rendering of integers. */
module Text {

  /** The characters JavaScript's `\s` class matches. */
  predicate IsSpace(c: char) {
    || c == ' ' || c == '\t' || c == '\n' || c == '\r' || c == '\U{B}' || c == '\U{C}'
    || c == '\U{A0}' || c == '\U{1680}' || ('\U{2000}' <= c <= '\U{200A}')
    || c == '\U{2028}' || c == '\U{2029}' || c == '\U{202F}' || c == '\U{205F}'
    || c == '\U{3000}' || c == '\U{FEFF}'
  }

  /** Removes the leading whitespace: a suffix of `s` that does not start
      with a space (`TrimStartCutsSpaces` says what was cut). */
  function TrimStart(s: string): (r: string)
    ensures |r| <= |s| && r == s[|s| - |r|..]
    ensures r == [] || !IsSpace(r[0])
  {
    if |s| > 0 && IsSpace(s[0]) then TrimStart(s[1..]) else s
  }

  lemma {:induction false} TrimStartCutsSpaces(s: string)
    ensures forall i :: 0 <= i < |s| - |TrimStart(s)| ==> IsSpace(s[i])
  {
    if |s| > 0 && IsSpace(s[0]) {
      TrimStartCutsSpaces(s[1..]);
      assert forall i :: 1 <= i < |s| ==> s[i] == s[1..][i - 1];
    }
  }

  /** Removes the trailing whitespace: a prefix of `s` that does not end
      with a space (`TrimEndCutsSpaces` says what was cut). */
  function TrimEnd(s: string): (r: string)
    ensures |r| <= |s| && r == s[..|r|]
    ensures r == [] || !IsSpace(r[|r| - 1])
    ensures r == [] ==> s == [] || IsSpace(s[0])
  {
    if |s| > 0 && IsSpace(s[|s| - 1]) then TrimEnd(s[..|s| - 1]) else s
  }

  lemma {:induction false} TrimEndCutsSpaces(s: string)
    ensures forall i :: |TrimEnd(s)| <= i < |s| ==> IsSpace(s[i])
  {
    if |s| > 0 && IsSpace(s[|s| - 1]) {
      TrimEndCutsSpaces(s[..|s| - 1]);
    }
  }

  /** validator.js `trim` without a character argument. */
  function Trim(s: string): string {
    TrimEnd(TrimStart(s))
  }

  /** The trimmed string neither starts nor ends with whitespace, it is a
      contiguous slice of the original with only whitespace cut on either
      side, and it is empty only when the original was all whitespace. */
  lemma TrimSpec(s: string)
    ensures var r := Trim(s);
      && (r == [] || (!IsSpace(r[0]) && !IsSpace(r[|r| - 1])))
      && (exists k :: OccursAt(s, r, k) && forall i :: (0 <= i < k || k + |r| <= i < |s|) ==> IsSpace(s[i]))
      && (forall i :: 0 <= i < |s| && !IsSpace(s[i]) ==> |r| > 0)
  {
    var k := |s| - |TrimStart(s)|;
    PrefixOfSuffixOccurs(s, TrimStart(s), Trim(s));
    TrimStartCutsSpaces(s);
    TrimCutsTrailingSpaces(s);
    assert OccursAt(s, Trim(s), k);
  }

  /** Everything after the trimmed slice is whitespace. */
  lemma TrimCutsTrailingSpaces(s: string)
    ensures forall i :: |s| - |TrimStart(s)| + |Trim(s)| <= i < |s| ==> IsSpace(s[i])
  {
    var t := TrimStart(s);
    var k := |s| - |t|;
    TrimEndCutsSpaces(t);
    forall i | k + |Trim(s)| <= i < |s| ensures IsSpace(s[i]) {
      assert s[i] == t[i - k];
    }
  }

  /** A prefix `r` of a suffix `t` of `s` occurs in `s` where `t` starts. */
  lemma PrefixOfSuffixOccurs(s: string, t: string, r: string)
    requires |t| <= |s| && t == s[|s| - |t|..]
    requires |r| <= |t| && r == t[..|r|]
    ensures OccursAt(s, r, |s| - |t|)
  {
    var k := |s| - |t|;
    assert s[k..k + |r|] == r by {
      forall j | 0 <= j < |r| ensures s[k..k + |r|][j] == r[j] {
        assert r[j] == t[j] == s[k + j];
      }
    }
  }

  /** Trimming twice is trimming once. */
  lemma TrimIdempotent(s: string)
    ensures Trim(Trim(s)) == Trim(s)
  {
    var r := Trim(s);
    TrimSpec(s);
    assert TrimStart(r) == r;
    assert TrimEnd(r) == r;
  }

  /** A character outside the Basic Multilingual Plane, which UTF-16 writes
      as a surrogate pair. A Dafny `char` is a Unicode scalar value, so it is
      never a lone surrogate. */
  predicate IsAstral(c: char) {
    c as int >= 0x1_0000
  }

  /** The variation selectors U+FE0E and U+FE0F, which validator.js
      `isLength` leaves out of the count. */
  predicate IsPresentationSelector(c: char) {
    c == '\U{FE0E}' || c == '\U{FE0F}'
  }

  /** The number of surrogate pairs in the UTF-16 form of `s`. */
  function SurrogatePairs(s: string): (n: nat)
    ensures n <= |s|
    ensures n == 0 <==> forall i :: 0 <= i < |s| ==> !IsAstral(s[i])
  {
    if s == [] then 0 else (if IsAstral(s[0]) then 1 else 0) + SurrogatePairs(s[1..])
  }

  /** The number of presentation selectors in `s`. */
  function PresentationSelectors(s: string): (n: nat)
    ensures n <= |s|
    ensures n == 0 <==> forall i :: 0 <= i < |s| ==> !IsPresentationSelector(s[i])
  {
    if s == [] then 0 else (if IsPresentationSelector(s[0]) then 1 else 0) + PresentationSelectors(s[1..])
  }

  /** JavaScript's `length`: UTF-16 code units, two for an astral character. */
  function Utf16Length(s: string): (n: nat)
    ensures n == |s| + SurrogatePairs(s)
    ensures |s| <= n <= 2 * |s|
  {
    if s == [] then 0 else (if IsAstral(s[0]) then 2 else 1) + Utf16Length(s[1..])
  }

  /** validator.js `isLength`'s measure: `length`, less one per surrogate
      pair and one per presentation selector. */
  function ValidatorLength(s: string): (n: nat)
    ensures n == |s| - PresentationSelectors(s)
    ensures n <= |s| <= Utf16Length(s)
  {
    Utf16Length(s) - SurrogatePairs(s) - PresentationSelectors(s)
  }

  /** On the Basic Multilingual Plane with no selectors, the three measures
      agree; an emoji is two units of `length` and one of `isLength`; a
      selector adds to `length` but not to `isLength`. */
  lemma LengthMeasures()
    ensures Utf16Length("abc") == ValidatorLength("abc") == 3
    ensures Utf16Length("\U{1F600}") == 2 && ValidatorLength("\U{1F600}") == 1
    ensures Utf16Length("ab\U{FE0F}") == 3 && ValidatorLength("ab\U{FE0F}") == 2
  {
    assert "ab\U{FE0F}"[1..] == "b\U{FE0F}" && "b\U{FE0F}"[1..] == "\U{FE0F}";
    assert "abc"[1..] == "bc" && "bc"[1..] == "c";
  }

  function LowerChar(c: char): (d: char)
    ensures 'A' <= c <= 'Z' ==> d as int == c as int + 32
    ensures !('A' <= c <= 'Z') ==> d == c
  {
    if 'A' <= c <= 'Z' then (c as int + 32) as char else c
  }

  /** ASCII lower-casing, one character at a time. */
  function Lower(s: string): (r: string)
    ensures |r| == |s|
    ensures forall i :: 0 <= i < |s| ==> r[i] == LowerChar(s[i])
  {
    seq(|s|, i requires 0 <= i < |s| => LowerChar(s[i]))
  }

  /** `needle` occurs in `hay` starting at position `i`. */
  predicate OccursAt(hay: string, needle: string, i: int) {
    0 <= i <= |hay| - |needle| && hay[i..i + |needle|] == needle
  }

  /** `needle` occurs in `hay` at some position. */
  predicate Contains(hay: string, needle: string) {
    exists i :: 0 <= i <= |hay| - |needle| && OccursAt(hay, needle, i)
  }

  /** Prisma's `contains` with `mode: 'insensitive'`. */
  predicate ContainsInsensitive(hay: string, needle: string) {
    Contains(Lower(hay), Lower(needle))
  }

  function DigitChar(d: nat): char
    requires d < 10
  {
    "0123456789"[d]
  }

  /** Decimal rendering of a natural number, as in a template literal. */
  function NatToString(n: nat): (r: string)
    ensures |r| > 0
    decreases n
  {
    if n < 10 then [DigitChar(n)] else NatToString(n / 10) + [DigitChar(n % 10)]
  }

  function IntToString(i: int): (r: string)
    ensures |r| > 0
  {
    if i < 0 then "-" + NatToString(-i) else NatToString(i)
  }
}
