/**
 * Character classes and string helpers shared by the JavaScript app and the Python script:
 * whitespace as each language defines it, trimming, ASCII case mapping and substring search.
 */
module Strings {

  /** The characters JavaScript's `String.prototype.trim` removes and the regex class `\s` matches
    * (WhiteSpace and LineTerminator of ECMA-262). */
  predicate IsJsSpace(c: char) {
    c == ' ' || c == '\t' || c == '\n' || c == '\U{B}' || c == '\U{C}' || c == '\r'
    || c == '\U{A0}' || c == '\U{1680}' || ('\U{2000}' <= c <= '\U{200A}')
    || c == '\U{2028}' || c == '\U{2029}' || c == '\U{202F}' || c == '\U{205F}'
    || c == '\U{3000}' || c == '\U{FEFF}'
  }

  /** The characters Python's `str.strip()` removes (those for which `str.isspace` holds). */
  predicate IsPySpace(c: char) {
    c == ' ' || c == '\t' || c == '\n' || c == '\U{B}' || c == '\U{C}' || c == '\r'
    || ('\U{1C}' <= c <= '\U{1F}') || c == '\U{85}' || c == '\U{A0}' || c == '\U{1680}'
    || ('\U{2000}' <= c <= '\U{200A}') || c == '\U{2028}' || c == '\U{2029}'
    || c == '\U{202F}' || c == '\U{205F}' || c == '\U{3000}'
  }

  /** The end of the run of `isSpace` characters that starts at `i`. */
  function LeadSpan(s: string, isSpace: char -> bool, i: nat): (j: nat)
    requires i <= |s|
    ensures i <= j <= |s| && (j == |s| || !isSpace(s[j]))
    ensures forall k :: i <= k < j ==> isSpace(s[k])
    decreases |s| - i
  {
    if i < |s| && isSpace(s[i]) then LeadSpan(s, isSpace, i + 1) else i
  }

  /** The start of the run of `isSpace` characters that ends just before `j`. */
  function TailSpan(s: string, isSpace: char -> bool, j: nat): (i: nat)
    requires j <= |s|
    ensures i <= j && (i == 0 || !isSpace(s[i - 1]))
    ensures forall k :: i <= k < j ==> isSpace(s[k])
  {
    if j > 0 && isSpace(s[j - 1]) then TailSpan(s, isSpace, j - 1) else j
  }

  /** Drops the leading characters that satisfy `isSpace`. */
  function StripStart(s: string, isSpace: char -> bool): (r: string)
    ensures |r| <= |s| && r == s[|s| - |r|..]
    ensures forall i :: 0 <= i < |s| - |r| ==> isSpace(s[i])
    ensures r == [] || !isSpace(r[0])
  {
    s[LeadSpan(s, isSpace, 0)..]
  }

  /** Drops the trailing characters that satisfy `isSpace`. */
  function StripEnd(s: string, isSpace: char -> bool): (r: string)
    ensures |r| <= |s| && r == s[..|r|]
    ensures forall i :: |r| <= i < |s| ==> isSpace(s[i])
    ensures r == [] || !isSpace(r[|r| - 1])
  {
    s[..TailSpan(s, isSpace, |s|)]
  }

  function Strip(s: string, isSpace: char -> bool): string {
    StripEnd(StripStart(s, isSpace), isSpace)
  }

  /** JavaScript `s.trim()`. */
  function Trim(s: string): string { Strip(s, IsJsSpace) }

  /** JavaScript `s.trimStart()`, also what `parseFloat` skips. */
  function TrimStart(s: string): string { StripStart(s, IsJsSpace) }

  /** Python `s.strip()`. */
  function PyStrip(s: string): string { Strip(s, IsPySpace) }

  /** Neither end of `s` is JavaScript whitespace. */
  predicate IsTrimmed(s: string) {
    s == [] || (!IsJsSpace(s[0]) && !IsJsSpace(s[|s| - 1]))
  }

  /** Neither end of `s` is Python whitespace. */
  predicate IsPyStripped(s: string) {
    s == [] || (!IsPySpace(s[0]) && !IsPySpace(s[|s| - 1]))
  }

  /** What `Strip` returns has no stripped character at either end, and stripping it again changes
    * nothing. */
  lemma {:induction false} StripProperties(s: string, isSpace: char -> bool)
    ensures var r := Strip(s, isSpace);
      (r == [] || (!isSpace(r[0]) && !isSpace(r[|r| - 1])))
      && Strip(r, isSpace) == r
  {
    var a := StripStart(s, isSpace);
    var r := StripEnd(a, isSpace);
    assert r == [] || r[0] == a[0];
    StripStartFixed(r, isSpace);
    StripEndFixed(r, isSpace);
  }

  /** What stripping keeps is the slice of `s` that starts after the leading run. */
  lemma {:induction false} StripSlice(s: string, isSpace: char -> bool)
    ensures var lo := |s| - |StripStart(s, isSpace)|;
      && lo + |Strip(s, isSpace)| <= |s|
      && Strip(s, isSpace) == s[lo..lo + |Strip(s, isSpace)|]
  {
    var a := StripStart(s, isSpace);
    var r := StripEnd(a, isSpace);
    var lo := |s| - |a|;
    assert a == s[lo..] && r == a[..|r|];
    assert r == s[lo..lo + |r|];
  }

  /** Stripping only removes characters: whatever the result holds, `s` holds. */
  lemma {:induction false} StripChars(s: string, isSpace: char -> bool)
    ensures forall c :: c in Strip(s, isSpace) ==> c in s
  {
    var a := StripStart(s, isSpace);
    var r := StripEnd(a, isSpace);
    forall c | c in r
      ensures c in s
    {
      var k :| 0 <= k < |r| && r[k] == c;
      assert a[k] == c;
      assert s[|s| - |a| + k] == c;
    }
  }

  lemma {:induction false} StripStartFixed(s: string, isSpace: char -> bool)
    requires s == [] || !isSpace(s[0])
    ensures StripStart(s, isSpace) == s
  {
    assert LeadSpan(s, isSpace, 0) == 0;
  }

  lemma {:induction false} TrimStartFixed(s: string)
    requires s == [] || !IsJsSpace(s[0])
    ensures TrimStart(s) == s
  {
    StripStartFixed(s, IsJsSpace);
  }

  lemma {:induction false} StripEndFixed(s: string, isSpace: char -> bool)
    requires s == [] || !isSpace(s[|s| - 1])
    ensures StripEnd(s, isSpace) == s
  {
    assert TailSpan(s, isSpace, |s|) == |s|;
  }

  lemma {:induction false} TrimIsTrimmed(s: string)
    ensures IsTrimmed(Trim(s)) && Trim(Trim(s)) == Trim(s)
  {
    StripProperties(s, IsJsSpace);
  }

  lemma {:induction false} PyStripIsStripped(s: string)
    ensures IsPyStripped(PyStrip(s)) && PyStrip(PyStrip(s)) == PyStrip(s)
  {
    StripProperties(s, IsPySpace);
  }

  /** Trimming a string whose ends are not whitespace leaves it as it is. */
  lemma {:induction false} TrimmedIsFixed(s: string)
    requires IsTrimmed(s)
    ensures Trim(s) == s
  {
  }

  predicate IsAsciiUpper(c: char) { 'A' <= c <= 'Z' }
  predicate IsAsciiLower(c: char) { 'a' <= c <= 'z' }
  predicate IsAsciiDigit(c: char) { '0' <= c <= '9' }

  /** JavaScript's one-character case mapping, for the letters of Latin-1: `A`–`Z` and `À`–`Þ`
    * (but `×`) map to the letter 32 places on; every other character is left as it is. */
  function Lower(c: char): (r: char)
    ensures IsAsciiUpper(c) ==> IsAsciiLower(r)
    ensures c < '\U{80}' && !IsAsciiUpper(c) ==> r == c
    ensures c >= '\U{80}' ==> r >= '\U{80}'
  {
    if IsAsciiUpper(c) || ('\U{C0}' <= c <= '\U{DE}' && c != '\U{D7}') then (c as int + 32) as char else c
  }

  /** The reverse mapping; `ÿ` and `µ` have upper-case forms outside Latin-1, and `ß`, whose
    * upper-case form is the two letters `SS`, is left as it is. */
  function Upper(c: char): (r: char)
    ensures IsAsciiLower(c) ==> IsAsciiUpper(r)
    ensures c < '\U{80}' && !IsAsciiLower(c) ==> r == c
    ensures c >= '\U{80}' ==> r >= '\U{80}'
  {
    if IsAsciiLower(c) || ('\U{E0}' <= c <= '\U{FE}' && c != '\U{F7}') then (c as int - 32) as char
    else if c == '\U{FF}' then '\U{178}'
    else if c == '\U{B5}' then '\U{39C}'
    else c
  }

  function LowerStr(s: string): (r: string)
    ensures |r| == |s| && forall i :: 0 <= i < |s| ==> r[i] == Lower(s[i])
  {
    seq(|s|, i requires 0 <= i < |s| => Lower(s[i]))
  }

  function UpperStr(s: string): (r: string)
    ensures |r| == |s| && forall i :: 0 <= i < |s| ==> r[i] == Upper(s[i])
  {
    seq(|s|, i requires 0 <= i < |s| => Upper(s[i]))
  }

  /**
   * The base letter of a Latin-1 letter that Unicode decomposes canonically into a letter and a
   * combining mark (`é` is `e` + U+0301), with its case kept; every other character is its own base.
   * This is the part of NFD (and of NFKD) this model covers.
   */
  function LatinBase(c: char): (r: char)
    ensures c < '\U{80}' ==> r == c
    ensures r == c || r < '\U{80}'
  {
    if '\U{C0}' <= c <= '\U{C5}' then 'A'
    else if c == '\U{C7}' then 'C'
    else if '\U{C8}' <= c <= '\U{CB}' then 'E'
    else if '\U{CC}' <= c <= '\U{CF}' then 'I'
    else if c == '\U{D1}' then 'N'
    else if '\U{D2}' <= c <= '\U{D6}' then 'O'
    else if '\U{D9}' <= c <= '\U{DC}' then 'U'
    else if c == '\U{DD}' then 'Y'
    else if '\U{E0}' <= c <= '\U{E5}' then 'a'
    else if c == '\U{E7}' then 'c'
    else if '\U{E8}' <= c <= '\U{EB}' then 'e'
    else if '\U{EC}' <= c <= '\U{EF}' then 'i'
    else if c == '\U{F1}' then 'n'
    else if '\U{F2}' <= c <= '\U{F6}' then 'o'
    else if '\U{F9}' <= c <= '\U{FC}' then 'u'
    else if c == '\U{FD}' || c == '\U{FF}' then 'y'
    else c
  }

  /** JavaScript `hay.includes(needle)`. */
  predicate Contains(hay: string, needle: string) {
    exists i :: 0 <= i <= |hay| && OccursAt(hay, needle, i)
  }

  predicate OccursAt(hay: string, needle: string, i: int) {
    0 <= i && i + |needle| <= |hay| && hay[i..i + |needle|] == needle
  }

  /** JavaScript `s.replace(from, to)` with a one-character string pattern: only the first occurrence
    * is replaced. */
  function ReplaceFirst(s: string, from: char, to: char): (r: string)
    ensures |r| == |s|
  {
    if s == [] then []
    else if s[0] == from then [to] + s[1..]
    else [s[0]] + ReplaceFirst(s[1..], from, to)
  }

  /** Without any `from`, nothing is replaced. */
  lemma {:induction false} ReplaceFirstAbsent(s: string, from: char, to: char)
    requires from !in s
    ensures ReplaceFirst(s, from, to) == s
    decreases |s|
  {
    if s != [] {
      assert s[0] != from && from !in s[1..];
      ReplaceFirstAbsent(s[1..], from, to);
      assert [s[0]] + s[1..] == s;
    }
  }

  /** Replacing the first `from` in `a + b` leaves `a` alone when `a` has none. */
  lemma {:induction false} ReplaceFirstAfter(a: string, b: string, from: char, to: char)
    requires from !in a
    ensures ReplaceFirst(a + b, from, to) == a + ReplaceFirst(b, from, to)
    decreases |a|
  {
    if a != [] {
      assert (a + b)[0] == a[0];
      assert (a + b)[1..] == a[1..] + b;
      ReplaceFirstAfter(a[1..], b, from, to);
    } else {
      assert a + b == b;
    }
  }

  lemma {:induction false} ReplaceFirstAtStart(b: string, from: char, to: char)
    ensures ReplaceFirst([from] + b, from, to) == [to] + b
  {
    assert ([from] + b)[1..] == b;
  }

  /** The first occurrence is the one replaced, and nothing after it changes. */
  lemma {:induction false} ReplaceFirstOccurrence(a: string, b: string, from: char, to: char)
    requires from !in a
    ensures ReplaceFirst(a + [from] + b, from, to) == a + [to] + b
  {
    ReplaceFirstAtStart(b, from, to);
    ReplaceFirstAfter(a, [from] + b, from, to);
    assert a + [from] + b == a + ([from] + b);
    assert a + ([to] + b) == a + [to] + b;
  }

  /** The pieces of `s` between the separators, the first one prefixed by `current`. */
  function SplitAcc(current: string, s: string, sep: char): (r: seq<string>)
    decreases |s|
  {
    if s == [] then [current]
    else if s[0] == sep then [current] + SplitAcc("", s[1..], sep)
    else SplitAcc(current + [s[0]], s[1..], sep)
  }

  /** `s.split(sep)` with a one-character separator. */
  function SplitOn(s: string, sep: char): seq<string> {
    SplitAcc("", s, sep)
  }

  lemma {:induction false} SplitAccNonEmpty(current: string, s: string, sep: char)
    ensures |SplitAcc(current, s, sep)| >= 1
    decreases |s|
  {
    if s != [] {
      if s[0] == sep {
        SplitAccNonEmpty("", s[1..], sep);
      } else {
        SplitAccNonEmpty(current + [s[0]], s[1..], sep);
      }
    }
  }

  /** Every piece holds only characters of `current` and `s` other than the separator. */
  lemma {:induction false} SplitAccPieces(current: string, s: string, sep: char, p: char -> bool)
    requires forall c :: c in current ==> p(c) && c != sep
    requires forall c :: c in s ==> p(c) || c == sep
    ensures forall k :: 0 <= k < |SplitAcc(current, s, sep)| ==>
      forall c :: c in SplitAcc(current, s, sep)[k] ==> p(c) && c != sep
    decreases |s|
  {
    if s != [] {
      assert s[0] in s;
      assert forall c :: c in s[1..] ==> c in s;
      if s[0] == sep {
        SplitAccPieces("", s[1..], sep, p);
        var rest := SplitAcc("", s[1..], sep);
        assert forall k :: 1 <= k < |[current] + rest| ==> ([current] + rest)[k] == rest[k - 1];
      } else {
        assert forall c :: c in current + [s[0]] ==> c in current || c == s[0];
        SplitAccPieces(current + [s[0]], s[1..], sep, p);
      }
    }
  }
}
