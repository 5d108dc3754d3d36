/**
 * Number parsing: JavaScript's `parseFloat` on exact reals, the French-number parser used for
 * prices, ecotax, weights and dimensions (js/app.js parseFrenchNumber), and the discount-field
 * parser (js/app.js handleDiscountChange).
 */
module Numbers {
  import opened Strings

  /** What `parseFloat` can return. */
  datatype Float = NaN | Finite(value: real) | Infinite(negative: bool)

  function Pow10(n: nat): (r: nat)
    ensures r >= 1
  {
    if n == 0 then 1 else 10 * Pow10(n - 1)
  }

  /** `m` times ten to the power `e`. */
  function Scale(m: real, e: int): real
    decreases if e < 0 then -e else e
  {
    if e == 0 then m
    else if e > 0 then 10.0 * Scale(m, e - 1)
    else Scale(m, e + 1) / 10.0
  }

  predicate AllDigits(s: string) {
    forall i :: 0 <= i < |s| ==> IsAsciiDigit(s[i])
  }

  function DigitValue(c: char): nat
    requires IsAsciiDigit(c)
  {
    c as int - '0' as int
  }

  /** The value of a string of decimal digits, most significant first. */
  function DigitsValue(ds: string): nat
    requires AllDigits(ds)
  {
    if ds == [] then 0 else 10 * DigitsValue(ds[..|ds| - 1]) + DigitValue(ds[|ds| - 1])
  }

  /** The value of the digits after a decimal point: `0.d1d2...dn`. */
  function Fraction(ds: string): real
    requires AllDigits(ds)
  {
    if ds == [] then 0.0 else (DigitValue(ds[0]) as real + Fraction(ds[1..])) / 10.0
  }

  /** The number of consecutive ASCII digits of `s` from position `i` on. */
  function DigitRun(s: string, i: nat): (n: nat)
    requires i <= |s|
    ensures i + n <= |s|
    ensures forall j :: i <= j < i + n ==> IsAsciiDigit(s[j])
    ensures i + n == |s| || !IsAsciiDigit(s[i + n])
    decreases |s| - i
  {
    if i < |s| && IsAsciiDigit(s[i]) then 1 + DigitRun(s, i + 1) else 0
  }

  /** The word `Infinity` starts at position `k` of `t`. */
  predicate InfinityAt(t: string, k: nat) {
    k + 8 <= |t| && t[k] == 'I' && t[k + 1] == 'n' && t[k + 2] == 'f' && t[k + 3] == 'i'
    && t[k + 4] == 'n' && t[k + 5] == 'i' && t[k + 6] == 't' && t[k + 7] == 'y'
  }

  /** The exponent part `[eE][+-]?digits` at position `i`, or 0 when there is none. */
  function ExponentAt(t: string, i: nat): int
    requires i <= |t|
  {
    if i < |t| && (t[i] == 'e' || t[i] == 'E') then
      var j := if i + 1 < |t| && (t[i + 1] == '+' || t[i + 1] == '-') then i + 2 else i + 1;
      var n := DigitRun(t, j);
      if n == 0 then 0
      else if t[i + 1] == '-' then -(DigitsValue(t[j..j + n]) as int)
      else DigitsValue(t[j..j + n])
    else 0
  }

  /** The unsigned decimal number `digits [. digits?] | . digits` at a position: its value and where it ends. */
  datatype Mantissa = NoDigits | Digits(value: real, end: nat)

  function MantissaAt(t: string, k: nat): (m: Mantissa)
    requires k <= |t|
    ensures m.Digits? ==> k < m.end <= |t|
  {
    var ip := DigitRun(t, k);
    if k + ip < |t| && t[k + ip] == '.' then
      var fp := DigitRun(t, k + ip + 1);
      if ip == 0 && fp == 0 then NoDigits
      else Digits(DigitsValue(t[k..k + ip]) as real + Fraction(t[k + ip + 1..k + ip + 1 + fp]), k + ip + 1 + fp)
    else if ip == 0 then NoDigits
    else Digits(DigitsValue(t[k..k + ip]) as real, k + ip)
  }

  /** The length of an optional leading sign. */
  function SignLength(t: string): nat {
    if |t| > 0 && (t[0] == '-' || t[0] == '+') then 1 else 0
  }

  /**
   * JavaScript `parseFloat`: skip leading whitespace, then read the longest prefix of the form
   * `[+-]? (Infinity | digits [. digits?] [exponent] | . digits [exponent])`; `NaN` when no such
   * prefix exists. Values are exact; IEEE-754 rounding and overflow are not modelled.
   */
  function ParseFloat(s: string): Float {
    ParseTrimmed(TrimStart(s))
  }

  /** `parseFloat` once the leading whitespace is gone. */
  function ParseTrimmed(t: string): Float {
    var neg := |t| > 0 && t[0] == '-';
    var k := SignLength(t);
    if InfinityAt(t, k) then Infinite(neg)
    else
      match MantissaAt(t, k)
      case NoDigits => NaN
      case Digits(m, end) =>
        var magnitude := Scale(m, ExponentAt(t, end));
        Finite(if neg then -magnitude else magnitude)
  }

  /** JavaScript `s.replace(/\s/g, '')`. */
  function RemoveSpaces(s: string): (r: string)
    ensures forall i :: 0 <= i < |r| ==> !IsJsSpace(r[i])
  {
    if s == [] then []
    else if IsJsSpace(s[0]) then RemoveSpaces(s[1..])
    else [s[0]] + RemoveSpaces(s[1..])
  }

  /**
   * js/app.js parseFrenchNumber: the empty string gives 0; otherwise every whitespace character is
   * removed, the first comma becomes a decimal point, and `parseFloat` reads the result; a result
   * that is not finite gives 0. The result is a real, hence always finite.
   */
  function ParseFrenchNumber(v: string): real {
    if v == "" then 0.0
    else
      match ParseFloat(ReplaceFirst(RemoveSpaces(v), ',', '.'))
      case Finite(x) => x
      case _ => 0.0
  }

  /**
   * js/app.js handleDiscountChange: the field's text with its first comma turned into a point is
   * read by `parseFloat`; `NaN` or a negative value gives 0, anything else is capped at 100.
   */
  function DiscountRateFromInput(v: string): (rate: real)
    ensures 0.0 <= rate <= 100.0
    ensures ParseFloat(ReplaceFirst(v, ',', '.')).Finite? ==>
      var x := ParseFloat(ReplaceFirst(v, ',', '.')).value;
      rate == (if x < 0.0 then 0.0 else if x > 100.0 then 100.0 else x)
    ensures ParseFloat(ReplaceFirst(v, ',', '.')).NaN? ==> rate == 0.0
  {
    match ParseFloat(ReplaceFirst(v, ',', '.'))
    case NaN => 0.0
    case Infinite(negative) => if negative then 0.0 else 100.0
    case Finite(x) => if x < 0.0 then 0.0 else if x < 100.0 then x else 100.0
  }

  // ---------------------------------------------------------------------------------------------
  // Properties

  /** A digit run that is followed by a non-digit (or the end) is measured exactly. */
  lemma {:induction false} DigitRunExact(s: string, i: nat, n: nat)
    requires i + n <= |s| && forall j :: i <= j < i + n ==> IsAsciiDigit(s[j])
    requires i + n == |s| || !IsAsciiDigit(s[i + n])
    ensures DigitRun(s, i) == n
    decreases n
  {
    if n > 0 {
      DigitRunExact(s, i + 1, n - 1);
    }
  }

  lemma {:induction false} RemoveSpacesConcat(a: string, b: string)
    ensures RemoveSpaces(a + b) == RemoveSpaces(a) + RemoveSpaces(b)
    decreases |a|
  {
    if a != [] {
      assert (a + b)[1..] == a[1..] + b;
      RemoveSpacesConcat(a[1..], b);
    } else {
      assert a + b == b;
    }
  }

  /** Whitespace anywhere in the input is ignored, so `"1 234,56"` reads as `"1234,56"`. */
  lemma {:induction false} WhitespaceIgnored(s: string, a: string, w: char, b: string)
    requires IsJsSpace(w) && s == a + [w] + b
    ensures ParseFrenchNumber(s) == ParseFrenchNumber(a + b)
  {
    RemoveSpacesConcat(a + [w], b);
    RemoveSpacesConcat(a, [w]);
    RemoveSpacesConcat(a, b);
    assert RemoveSpaces([w]) == [];
    assert RemoveSpaces(a + [w] + b) == RemoveSpaces(a + b);
    if a + b == [] {
      assert RemoveSpaces(a + [w] + b) == [];
      assert ReplaceFirst([], ',', '.') == [];
      TrimStartFixed([]);
      assert DigitRun([], 0) == 0;
    }
  }

  /** A string of digits at position `k` that ends `t` is one mantissa. */
  lemma {:induction false} MantissaOfInteger(t: string, k: nat, ip: string)
    requires ip != [] && AllDigits(ip)
    requires k <= |t| && t[k..] == ip
    ensures MantissaAt(t, k) == Digits(DigitsValue(ip) as real, |t|)
  {
    assert forall j :: k <= j < |t| ==> t[j] == ip[j - k];
    assert t[k..k + |ip|] == ip;
    DigitRunExact(t, k, |ip|);
  }

  /** The mantissa at `k` once the lengths of both digit runs around the point are known. */
  lemma {:induction false} MantissaWithPoint(t: string, k: nat, ip: string, fp: string)
    requires AllDigits(ip) && AllDigits(fp) && ip != []
    requires k <= |t| && DigitRun(t, k) == |ip| && k + |ip| < |t| && t[k + |ip|] == '.'
    requires DigitRun(t, k + |ip| + 1) == |fp|
    requires t[k..k + |ip|] == ip && t[k + |ip| + 1..k + |ip| + 1 + |fp|] == fp
    ensures MantissaAt(t, k) == Digits(DigitsValue(ip) as real + Fraction(fp), k + |ip| + 1 + |fp|)
  {
  }

  /** Digits, a point and more digits at position `k` that end `t` are one mantissa. */
  lemma {:induction false} MantissaOfFraction(t: string, k: nat, ip: string, fp: string)
    requires ip != [] && fp != [] && AllDigits(ip) && AllDigits(fp)
    requires k <= |t| && t[k..] == ip + "." + fp
    ensures MantissaAt(t, k) == Digits(DigitsValue(ip) as real + Fraction(fp), |t|)
  {
    var q := k + |ip|;
    assert forall j :: k <= j < q ==> t[j] == ip[j - k];
    assert t[k..q] == ip;
    DigitRunExact(t, k, |ip|);
    assert t[q] == '.';
    assert forall j :: q + 1 <= j < |t| ==> t[j] == fp[j - q - 1];
    assert t[q + 1..q + 1 + |fp|] == fp;
    DigitRunExact(t, q + 1, |fp|);
    MantissaWithPoint(t, k, ip, fp);
    assert q + 1 + |fp| == |t|;
  }

  /** A string of digits, optionally followed by a point and more digits, is one mantissa. */
  lemma {:induction false} MantissaOfDecimal(t: string, k: nat, ip: string, fp: string)
    requires ip != [] && AllDigits(ip) && AllDigits(fp)
    requires k <= |t| && t[k..] == ip + (if fp == [] then "" else "." + fp)
    ensures MantissaAt(t, k) ==
      Digits(DigitsValue(ip) as real + Fraction(fp), |t|)
  {
    if fp == [] {
      assert t[k..] == ip;
      MantissaOfInteger(t, k, ip);
    } else {
      assert t[k..] == ip + "." + fp;
      MantissaOfFraction(t, k, ip, fp);
    }
  }

  /** `parseFloat` on a string without leading blanks that holds a mantissa up to its end. */
  lemma {:induction false} ParseFloatWhole(t: string, k: nat, m: real)
    requires 0 < |t| && !IsJsSpace(t[0]) && SignLength(t) == k
    requires !InfinityAt(t, k) && MantissaAt(t, k) == Digits(m, |t|)
    ensures ParseFloat(t) == Finite(if t[0] == '-' then -m else m)
  {
    ParseTrimmedMantissa(t, k, m);
    NothingAfterEnd(t, m);
    ParseFloatNoBlank(t, Finite(if t[0] == '-' then -m else m));
  }

  /** Text that does not start with whitespace is read as it is. */
  lemma {:induction false} ParseFloatNoBlank(t: string, f: Float)
    requires t == [] || !IsJsSpace(t[0])
    requires ParseTrimmed(t) == f
    ensures ParseFloat(t) == f
  {
    TrimStartFixed(t);
  }

  lemma {:induction false} ParseTrimmedMantissa(t: string, k: nat, m: real)
    requires 0 < |t| && SignLength(t) == k
    requires !InfinityAt(t, k) && MantissaAt(t, k) == Digits(m, |t|)
    ensures var x := Scale(m, ExponentAt(t, |t|)); ParseTrimmed(t) == Finite(if t[0] == '-' then -x else x)
  {
  }

  /** With no exponent part, the mantissa is the value. */
  lemma {:induction false} NothingAfterEnd(t: string, m: real)
    ensures Scale(m, ExponentAt(t, |t|)) == m
  {
  }

  /** An optional minus sign followed by a digit: no blank, no `Infinity`, a sign of known length. */
  lemma {:induction false} SignedShape(t: string, k: nat, negative: bool, d: char)
    requires IsAsciiDigit(d)
    requires k == (if negative then 1 else 0) && k < |t| && (negative ==> t[0] == '-') && t[k] == d
    ensures !IsJsSpace(t[0]) && SignLength(t) == k && (t[0] == '-' <==> negative)
    ensures !InfinityAt(t, k)
  {
  }

  /** `parseFloat` reads a signed decimal `[-]digits[.digits]` exactly. */
  lemma {:induction false} ParseFloatDecimal(t: string, k: nat, negative: bool, ip: string, fp: string)
    requires ip != [] && AllDigits(ip) && AllDigits(fp)
    requires k == (if negative then 1 else 0) && k < |t| && (negative ==> t[0] == '-')
    requires t[k..] == ip + (if fp == [] then "" else "." + fp)
    ensures var magnitude := DigitsValue(ip) as real + Fraction(fp);
      ParseFloat(t) == Finite(if negative then -magnitude else magnitude)
  {
    SignedShape(t, k, negative, ip[0]);
    MantissaOfDecimal(t, k, ip, fp);
    ParseFloatWhole(t, k, DigitsValue(ip) as real + Fraction(fp));
  }

  /** No whitespace and no comma: the characters `parseFrenchNumber` rewrites. */
  predicate Plain(s: string) {
    forall i :: 0 <= i < |s| ==> !IsJsSpace(s[i]) && s[i] != ','
  }

  predicate NoSpaces(s: string) {
    forall i :: 0 <= i < |s| ==> !IsJsSpace(s[i])
  }

  /** Removing whitespace from text without any changes nothing. */
  lemma {:induction false} NoSpacesUnchanged(a: string)
    requires NoSpaces(a)
    ensures RemoveSpaces(a) == a
    decreases |a|
  {
    if a != [] {
      NoSpacesUnchanged(a[1..]);
    }
  }

  lemma {:induction false} PlainUnchanged(a: string)
    requires Plain(a)
    ensures RemoveSpaces(a) == a && ReplaceFirst(a, ',', '.') == a
  {
    NoSpacesUnchanged(a);
    assert ',' !in a;
    ReplaceFirstAbsent(a, ',', '.');
  }

  lemma {:induction false} RemoveSpacesAroundComma(a: string, fp: string)
    requires Plain(a) && Plain(fp)
    ensures RemoveSpaces(a + "," + fp) == a + ("," + fp)
  {
    var b := a + "," + fp;
    assert NoSpaces(b) by {
      forall i | 0 <= i < |b| ensures !IsJsSpace(b[i]) {
        if i < |a| { assert b[i] == a[i]; }
        else if i > |a| { assert b[i] == fp[i - |a| - 1]; }
      }
    }
    NoSpacesUnchanged(b);
  }

  lemma {:induction false} ReplaceLeadingComma(fp: string)
    ensures ReplaceFirst("," + fp, ',', '.') == "." + fp
  {
    assert ("," + fp)[1..] == fp;
  }

  /** Once whitespace is gone, the first comma becomes the decimal point. */
  lemma {:induction false} CommaToPoint(a: string, fp: string)
    requires Plain(a) && Plain(fp)
    ensures ReplaceFirst(RemoveSpaces(a + "," + fp), ',', '.') == a + "." + fp
  {
    RemoveSpacesAroundComma(a, fp);
    assert ',' !in a;
    ReplaceFirstAfter(a, "," + fp, ',', '.');
    ReplaceLeadingComma(fp);
  }

  /** The text `parseFloat` reads for a French decimal. */
  lemma {:induction false} FrenchFractionText(s: string, negative: bool, ip: string, fp: string) returns (t: string)
    requires ip != [] && fp != [] && AllDigits(ip) && AllDigits(fp)
    requires s == (if negative then "-" else "") + ip + "," + fp
    ensures s != "" && ReplaceFirst(RemoveSpaces(s), ',', '.') == t
    ensures (if negative then 1 else 0) < |t| && (negative ==> t[0] == '-')
    ensures t[if negative then 1 else 0..] == ip + (if fp == [] then "" else "." + fp)
  {
    var sign: string := if negative then "-" else "";
    var a := sign + ip;
    SignedDigitsPlain(negative, ip);
    assert Plain(fp);
    CommaToPoint(a, fp);
    t := a + "." + fp;
    assert t[|sign|..] == ip + ("." + fp);
  }

  /** `parseFrenchNumber` is `parseFloat` on the rewritten text when that gives a finite value. */
  lemma {:induction false} FrenchViaPoint(s: string, t: string, f: Float)
    requires s != "" && ReplaceFirst(RemoveSpaces(s), ',', '.') == t && ParseFloat(t) == f && f.Finite?
    ensures ParseFrenchNumber(s) == f.value
  {
  }

  /** `-`, or nothing, followed by digits. */
  lemma {:induction false} SignedDigitsPlain(negative: bool, ip: string)
    requires AllDigits(ip)
    ensures Plain((if negative then "-" else "") + ip)
  {
    var sign: string := if negative then "-" else "";
    var a := sign + ip;
    forall i | 0 <= i < |a| ensures !IsJsSpace(a[i]) && a[i] != ',' {
      if i >= |sign| { assert a[i] == ip[i - |sign|]; }
    }
  }

  /** `parseFrenchNumber` of text that becomes a signed decimal in point notation. */
  lemma {:induction false} FrenchFromPointText(s: string, t: string, negative: bool, ip: string, fp: string)
    requires ip != [] && AllDigits(ip) && AllDigits(fp)
    requires s != "" && ReplaceFirst(RemoveSpaces(s), ',', '.') == t
    requires (if negative then 1 else 0) < |t| && (negative ==> t[0] == '-')
    requires t[if negative then 1 else 0..] == ip + (if fp == [] then "" else "." + fp)
    ensures var magnitude := DigitsValue(ip) as real + Fraction(fp);
      ParseFrenchNumber(s) == if negative then -magnitude else magnitude
  {
    ParseFloatDecimal(t, if negative then 1 else 0, negative, ip, fp);
    FrenchViaPoint(s, t, ParseFloat(t));
  }

  /** An integer in French notation (no comma) is read back exactly. */
  lemma {:induction false} FrenchIntegerValue(a: string, negative: bool, ip: string)
    requires ip != [] && AllDigits(ip) && a == (if negative then "-" else "") + ip
    ensures ParseFrenchNumber(a) == if negative then -(DigitsValue(ip) as real) else DigitsValue(ip) as real
  {
    SignedDigitsPlain(negative, ip);
    PlainUnchanged(a);
    assert a[if negative then 1 else 0..] == ip + "";
    FrenchFromPointText(a, a, negative, ip, "");
  }

  /** A decimal in French notation, with a comma before the fraction digits, is read back exactly. */
  lemma {:induction false} FrenchFractionValue(s: string, negative: bool, ip: string, fp: string)
    requires ip != [] && fp != [] && AllDigits(ip) && AllDigits(fp)
    requires s == (if negative then "-" else "") + ip + "," + fp
    ensures var magnitude := DigitsValue(ip) as real + Fraction(fp);
      ParseFrenchNumber(s) == if negative then -magnitude else magnitude
  {
    var t := FrenchFractionText(s, negative, ip, fp);
    FrenchFromPointText(s, t, negative, ip, fp);
  }

  lemma {:induction false} FrenchNumberWithComma()
    ensures ParseFrenchNumber("1234,56") == 1234.56
  {
    assert "1234"[..3] == "123" && "123"[..2] == "12" && "12"[..1] == "1";
    assert DigitsValue("1234") == 1234;
    assert "56"[1..] == "6" && "6"[1..] == "";
    assert Fraction("56") == 0.56;
    FrenchFractionValue("1234,56", false, "1234", "56");
  }

  /** Thousands separated by a space and a decimal comma: `"1 234,56"` is 1234.56. */
  lemma {:induction false} FrenchNumberWithSpace()
    ensures ParseFrenchNumber("1 234,56") == 1234.56
  {
    assert "1 234,56" == "1" + [' '] + "234,56";
    assert "1" + "234,56" == "1234,56";
    WhitespaceIgnored("1 234,56", "1", ' ', "234,56");
    FrenchNumberWithComma();
  }

  lemma {:induction false} FrenchNumberDecimal()
    ensures ParseFrenchNumber("2,5") == 2.5
  {
    assert DigitsValue("2") == 2;
    assert "5"[1..] == "";
    assert Fraction("5") == 0.5;
    FrenchFractionValue("2,5", false, "2", "5");
  }

  lemma {:induction false} FrenchNumberInteger()
    ensures ParseFrenchNumber("-4") == -4.0
  {
    FrenchIntegerValue("-4", true, "4");
  }

  /** Text that is not a number reads as 0. */
  lemma {:induction false} FrenchNumberNotANumber()
    ensures ParseFrenchNumber("abc") == 0.0
  {
    var t := "abc";
    assert |t| == 3 && t[0] == 'a' && t[1] == 'b' && t[2] == 'c';
    assert Plain(t);
    PlainUnchanged(t);
    TrimStartFixed(t);
    assert ParseTrimmed(t) == NaN by {
      assert SignLength(t) == 0 && !InfinityAt(t, 0);
      assert DigitRun(t, 0) == 0;
      assert MantissaAt(t, 0) == NoDigits;
    }
  }
}
