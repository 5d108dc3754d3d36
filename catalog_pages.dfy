/**
 * scripts/generate_catalog_pages.py: `slugify` and the part of `main` that turns the rows read from
 * the CSV file into the list of products to render: blank rows are skipped, each row becomes a
 * dictionary keyed by the stripped headers, and each product receives a file name no earlier
 * product has.
 */
module CatalogPages {
  import opened Wrappers
  import opened Strings
  import opened Maps

  // ---------------------------------------------------------------------------------------------
  // slugify

  /** The ASCII characters left by NFKD for the Latin-1 symbols that have a compatibility
    * decomposition; the non-ASCII parts (combining marks, the fraction slash) are dropped. */
  function CompatibilityAscii(c: char): (r: string)
    ensures forall k :: 0 <= k < |r| ==> r[k] < '\U{80}'
  {
    if c == '\U{A0}' || c == '\U{A8}' || c == '\U{AF}' || c == '\U{B4}' || c == '\U{B8}' then " "
    else if c == '\U{AA}' then "a"
    else if c == '\U{B2}' then "2"
    else if c == '\U{B3}' then "3"
    else if c == '\U{B9}' then "1"
    else if c == '\U{BA}' then "o"
    else if c == '\U{BC}' then "14"
    else if c == '\U{BD}' then "12"
    else if c == '\U{BE}' then "34"
    else ""
  }

  /** What `normalize("NFKD", c).encode("ascii", "ignore")` keeps of one character: ASCII stays,
    * an accented Latin-1 letter leaves its base letter, and a character with no ASCII part left
    * disappears. */
  function AsciiOf(c: char): (r: string)
    ensures forall k :: 0 <= k < |r| ==> r[k] < '\U{80}'
    ensures c < '\U{80}' ==> r == [c]
  {
    if c < '\U{80}' then [c]
    else if LatinBase(c) != c then [LatinBase(c)]
    else CompatibilityAscii(c)
  }

  function AsciiFold(text: string): (r: string)
    ensures forall k :: 0 <= k < |r| ==> r[k] < '\U{80}'
    decreases |text|
  {
    if text == [] then [] else AsciiOf(text[0]) + AsciiFold(text[1..])
  }

  /** ASCII text is its own fold. */
  lemma {:induction false} AsciiFoldFixed(text: string)
    requires forall k :: 0 <= k < |text| ==> text[k] < '\U{80}'
    ensures AsciiFold(text) == text
    decreases |text|
  {
    if text != [] {
      AsciiFoldFixed(text[1..]);
      assert text == [text[0]] + text[1..];
    }
  }

  /** `ch.isalnum()` on an ASCII character. */
  predicate IsAsciiAlnum(c: char) { IsAsciiUpper(c) || IsAsciiLower(c) || IsAsciiDigit(c) }

  /** The characters a slug is made of. */
  predicate IsSlugSymbol(c: char) { IsAsciiLower(c) || IsAsciiDigit(c) || c == '-' }

  predicate AllSlugSymbols(s: string) { forall k :: 0 <= k < |s| ==> IsSlugSymbol(s[k]) }

  /** `[ch.lower() if ch.isalnum() else "-" for ch in ascii_text]`: letters and digits stay, lowered,
    * and every other character becomes a dash. */
  function SlugChars(s: string): (r: string)
    ensures |r| == |s| && AllSlugSymbols(r)
    ensures forall k :: 0 <= k < |s| ==> (r[k] == '-' <==> !IsAsciiAlnum(s[k]))
  {
    seq(|s|, k requires 0 <= k < |s| => if IsAsciiAlnum(s[k]) then Lower(s[k]) else '-')
  }

  /** No two dashes follow each other: `"--" not in s`. */
  predicate NoDoubleDash(s: string) {
    forall i :: 0 <= i < |s| - 1 ==> !(s[i] == '-' && s[i + 1] == '-')
  }

  /** `s.replace("--", "-")`: the occurrences are replaced from the left, without overlapping. */
  function ReplaceDoubleDash(s: string): (r: string)
    ensures |r| <= |s|
    decreases |s|
  {
    if |s| >= 2 && s[0] == '-' && s[1] == '-' then "-" + ReplaceDoubleDash(s[2..])
    else if s == [] then []
    else [s[0]] + ReplaceDoubleDash(s[1..])
  }

  /** Each pass shortens a slug that still holds `--`, so the loop ends. */
  lemma {:induction false} ReplaceShortens(s: string)
    requires !NoDoubleDash(s)
    ensures |ReplaceDoubleDash(s)| < |s|
    decreases |s|
  {
    if !(|s| >= 2 && s[0] == '-' && s[1] == '-') {
      var i :| 0 <= i < |s| - 1 && s[i] == '-' && s[i + 1] == '-';
      assert s[1..][i - 1] == s[i] && s[1..][i] == s[i + 1];
      ReplaceShortens(s[1..]);
    }
  }

  /** Every run of dashes as one dash; `afterDash` says that the character before `s` was a dash
    * already kept. This is what the loop of `slugify` computes. */
  function Squeeze(s: string, afterDash: bool): (r: string)
    ensures NoDoubleDash(r)
    ensures afterDash ==> r == [] || r[0] != '-'
    ensures AllSlugSymbols(s) ==> AllSlugSymbols(r)
    decreases |s|
  {
    if s == [] then []
    else if s[0] == '-' then
      (if afterDash then Squeeze(s[1..], true) else "-" + Squeeze(s[1..], true))
    else [s[0]] + Squeeze(s[1..], false)
  }

  /** One pass of `replace("--", "-")` leaves the squeezed form as it is. */
  lemma {:induction false} ReplaceKeepsSqueeze(s: string, afterDash: bool)
    ensures Squeeze(ReplaceDoubleDash(s), afterDash) == Squeeze(s, afterDash)
    decreases |s|
  {
    if |s| >= 2 && s[0] == '-' && s[1] == '-' {
      var rest := ReplaceDoubleDash(s[2..]);
      ReplaceKeepsSqueeze(s[2..], true);
      assert ("-" + rest)[1..] == rest;
      assert s[1..][1..] == s[2..];
    } else if s != [] {
      var rest := ReplaceDoubleDash(s[1..]);
      ReplaceKeepsSqueeze(s[1..], s[0] == '-');
      assert ([s[0]] + rest)[1..] == rest;
    }
  }

  /** A string without `--` (that does not start with a dash right after one) is already squeezed. */
  lemma {:induction false} SqueezeFixed(s: string, afterDash: bool)
    requires NoDoubleDash(s) && (afterDash ==> s == [] || s[0] != '-')
    ensures Squeeze(s, afterDash) == s
    decreases |s|
  {
    if s != [] {
      SqueezeFixed(s[1..], s[0] == '-');
      assert s == [s[0]] + s[1..];
    }
  }

  predicate IsDash(c: char) { c == '-' }

  /** scripts/generate_catalog_pages.py slugify: the slug of a product name. */
  function SlugOf(text: string): string {
    var stripped := Strip(Squeeze(SlugChars(AsciiFold(text)), false), IsDash);
    if stripped == [] then "produit" else stripped
  }

  /** Stripping the dashes at the ends of a squeezed slug keeps it squeezed and made of slug
    * symbols. */
  lemma {:induction false} StripDashesShape(s: string)
    requires NoDoubleDash(s) && AllSlugSymbols(s)
    ensures var r := Strip(s, IsDash);
      && NoDoubleDash(r) && AllSlugSymbols(r)
      && (r == [] || (r[0] != '-' && r[|r| - 1] != '-'))
  {
    var r := Strip(s, IsDash);
    assert NoDoubleDash(r) && AllSlugSymbols(r) by {
      var lo := |s| - |StripStart(s, IsDash)|;
      StripSlice(s, IsDash);
      SliceShape(s, lo, lo + |r|);
    }
    assert r == [] || (!IsDash(r[0]) && !IsDash(r[|r| - 1])) by {
      StripProperties(s, IsDash);
    }
  }

  /** A piece of a squeezed slug is squeezed and made of slug symbols. */
  lemma {:induction false} SliceShape(s: string, lo: nat, hi: nat)
    requires lo <= hi <= |s| && NoDoubleDash(s) && AllSlugSymbols(s)
    ensures NoDoubleDash(s[lo..hi]) && AllSlugSymbols(s[lo..hi])
  {
    var r := s[lo..hi];
    forall i | 0 <= i < |r| - 1
      ensures !(r[i] == '-' && r[i + 1] == '-')
    {
      assert r[i] == s[lo + i] && r[i + 1] == s[lo + i + 1];
    }
    forall i | 0 <= i < |r|
      ensures IsSlugSymbol(r[i])
    {
      assert r[i] == s[lo + i];
    }
  }

  /** A slug is never empty, holds only lower-case ASCII letters, digits and dashes, has no `--`
    * and neither starts nor ends with a dash. */
  lemma {:induction false} SlugShape(text: string)
    ensures var r := SlugOf(text);
      && r != [] && AllSlugSymbols(r) && NoDoubleDash(r)
      && r[0] != '-' && r[|r| - 1] != '-'
  {
    var squeezed := Squeeze(SlugChars(AsciiFold(text)), false);
    StripDashesShape(squeezed);
    var r := SlugOf(text);
    if Strip(squeezed, IsDash) == [] {
      assert r == "produit";
      assert AllSlugSymbols(r) by {
        forall k | 0 <= k < |r|
          ensures IsSlugSymbol(r[k])
        {
          assert IsAsciiLower(r[k]);
        }
      }
    }
  }

  /** Folding to ASCII and mapping the characters leave slug symbols as they are. */
  lemma {:induction false} SlugSymbolsFixed(r: string)
    requires AllSlugSymbols(r)
    ensures AsciiFold(r) == r && SlugChars(r) == r
  {
    forall k | 0 <= k < |r|
      ensures r[k] < '\U{80}'
    {
      assert IsSlugSymbol(r[k]);
    }
    AsciiFoldFixed(r);
    var chars := SlugChars(r);
    forall k | 0 <= k < |r|
      ensures chars[k] == r[k]
    {
      assert IsSlugSymbol(r[k]);
    }
  }

  /** A text that already has the shape of a slug is its own slug. */
  lemma {:induction false} SlugFixed(r: string)
    requires r != [] && AllSlugSymbols(r) && NoDoubleDash(r) && r[0] != '-' && r[|r| - 1] != '-'
    ensures SlugOf(r) == r
  {
    SlugSymbolsFixed(r);
    SqueezeFixed(r, false);
    StripStartFixed(r, IsDash);
    StripEndFixed(r, IsDash);
  }

  /** Slugifying a slug again changes nothing. */
  lemma {:induction false} SlugIdempotent(text: string)
    ensures SlugOf(SlugOf(text)) == SlugOf(text)
  {
    SlugShape(text);
    SlugFixed(SlugOf(text));
  }

  /** scripts/generate_catalog_pages.py slugify, with its `while "--" in slug` loop. */
  method Slugify(text: string) returns (slug: string)
    ensures slug == SlugOf(text)
    ensures slug != [] && AllSlugSymbols(slug) && NoDoubleDash(slug)
    ensures slug[0] != '-' && slug[|slug| - 1] != '-'
  {
    slug := SlugChars(AsciiFold(text));
    ghost var squeezed := Squeeze(slug, false);
    while !NoDoubleDash(slug)
      invariant Squeeze(slug, false) == squeezed
      decreases |slug|
    {
      ReplaceShortens(slug);
      ReplaceKeepsSqueeze(slug, false);
      slug := ReplaceDoubleDash(slug);
    }
    SqueezeFixed(slug, false);
    slug := Strip(slug, IsDash);
    if slug == [] {
      slug := "produit";
    }
    SlugShape(text);
  }

  // ---------------------------------------------------------------------------------------------
  // File names

  function Digit(d: nat): (c: char)
    requires d < 10
    ensures IsAsciiDigit(c)
  {
    ('0' as int + d) as char
  }

  /** Python `str(n)` for a natural number. */
  function NatToString(n: nat): (r: string)
    ensures r != [] && forall k :: 0 <= k < |r| ==> IsAsciiDigit(r[k])
    decreases n
  {
    if n < 10 then [Digit(n)] else NatToString(n / 10) + [Digit(n % 10)]
  }

  /** The number a string of decimal digits denotes. */
  function DigitsValue(s: string): nat
    requires forall k :: 0 <= k < |s| ==> IsAsciiDigit(s[k])
    decreases |s|
  {
    if s == [] then 0
    else
      var last := s[|s| - 1];
      assert IsAsciiDigit(last);
      DigitsValue(s[..|s| - 1]) * 10 + (last as int - '0' as int)
  }

  lemma {:induction false} NatToStringRoundTrip(n: nat)
    ensures DigitsValue(NatToString(n)) == n
    decreases n
  {
    if n >= 10 {
      var init := NatToString(n / 10);
      NatToStringRoundTrip(n / 10);
      assert (init + [Digit(n % 10)])[..|init|] == init;
    }
  }

  lemma {:induction false} NatToStringInjective(a: nat, b: nat)
    requires NatToString(a) == NatToString(b)
    ensures a == b
  {
    NatToStringRoundTrip(a);
    NatToStringRoundTrip(b);
  }

  const HtmlSuffix := ".html"

  /** The name tried at attempt `t`: `base.html` first, then `base-2.html`, `base-3.html`, … */
  function Attempt(base: string, t: nat): string {
    if t == 0 then base + HtmlSuffix else base + "-" + NatToString(t + 1) + HtmlSuffix
  }

  /** Different attempts try different names. */
  lemma {:induction false} AttemptInjective(base: string, t: nat, u: nat)
    requires Attempt(base, t) == Attempt(base, u)
    ensures t == u
  {
    var a := Attempt(base, t);
    var p := |base| + 1;
    if t != 0 && u != 0 {
      var x := NatToString(t + 1);
      var y := NatToString(u + 1);
      assert a == base + "-" + x + HtmlSuffix;
      assert |x| == |y|;
      assert a[p..p + |x|] == x by {
        assert a == (base + "-") + (x + HtmlSuffix);
      }
      assert a[p..p + |y|] == y by {
        assert a == (base + "-") + (y + HtmlSuffix);
      }
      NatToStringInjective(t + 1, u + 1);
    }
  }

  /** `name` is what the loop of `main` picks for `base` when the names in `taken` are in use: the
    * first attempt that is free, all the attempts before it being taken. */
  ghost predicate IsFirstFree(name: string, base: string, taken: set<string>) {
    exists t: nat :: name == Attempt(base, t) && name !in taken && forall u :: 0 <= u < t ==> Attempt(base, u) in taken
  }

  /** The first free name is unique. */
  lemma {:induction false} FirstFreeUnique(a: string, b: string, base: string, taken: set<string>)
    requires IsFirstFree(a, base, taken) && IsFirstFree(b, base, taken)
    ensures a == b
  {
    var t: nat :| a == Attempt(base, t) && a !in taken && forall u :: 0 <= u < t ==> Attempt(base, u) in taken;
    var s: nat :| b == Attempt(base, s) && b !in taken && forall u :: 0 <= u < s ==> Attempt(base, u) in taken;
  }

  /** `base.html` is kept when it is free; otherwise the name is `base-k.html` for the smallest
    * k >= 2 that is free. */
  lemma {:induction false} FirstFreeCases(name: string, base: string, taken: set<string>)
    requires IsFirstFree(name, base, taken)
    ensures base + HtmlSuffix !in taken ==> name == base + HtmlSuffix
    ensures base + HtmlSuffix in taken ==> exists k: nat ::
      k >= 2 && name == base + "-" + NatToString(k) + HtmlSuffix && name !in taken
      && forall j :: 2 <= j < k ==> base + "-" + NatToString(j) + HtmlSuffix in taken
  {
    var t: nat :| name == Attempt(base, t) && name !in taken && forall u :: 0 <= u < t ==> Attempt(base, u) in taken;
    if t > 0 {
      assert Attempt(base, 0) in taken;
      assert name == base + "-" + NatToString(t + 1) + HtmlSuffix;
      forall j | 2 <= j < t + 1
        ensures base + "-" + NatToString(j) + HtmlSuffix in taken
      {
        assert Attempt(base, j - 1) in taken;
      }
    }
  }

  /** The names of the first `t` attempts. */
  ghost function Attempts(base: string, t: nat): set<string>
    decreases t
  {
    if t == 0 then {} else Attempts(base, t - 1) + {Attempt(base, t - 1)}
  }

  lemma {:induction false} AttemptsSize(base: string, t: nat)
    ensures |Attempts(base, t)| == t
    ensures forall n :: n in Attempts(base, t) ==> exists u :: 0 <= u < t && n == Attempt(base, u)
    decreases t
  {
    if t > 0 {
      AttemptsSize(base, t - 1);
      if Attempt(base, t - 1) in Attempts(base, t - 1) {
        var u :| 0 <= u < t - 1 && Attempt(base, t - 1) == Attempt(base, u);
        AttemptInjective(base, t - 1, u);
      }
    }
  }

  lemma {:induction false} SubsetSize(a: set<string>, b: set<string>)
    requires a <= b
    ensures |a| <= |b|
  {
    assert b == a + (b - a);
  }

  /** Trying one more taken name leaves fewer taken names untried. */
  lemma {:induction false} NextAttempt(base: string, t: nat, taken: set<string>)
    requires Attempts(base, t) <= taken && Attempt(base, t) in taken
    ensures Attempts(base, t + 1) <= taken
    ensures |Attempts(base, t)| < |Attempts(base, t + 1)| <= |taken|
  {
    AttemptsSize(base, t);
    AttemptsSize(base, t + 1);
    SubsetSize(Attempts(base, t + 1), taken);
  }

  /** The unique-file-name loop of `main`: `base.html`, then `base-2.html`, `base-3.html`, … until a
    * name not in `taken` comes up. */
  method UniqueFilename(base: string, taken: set<string>) returns (name: string)
    ensures IsFirstFree(name, base, taken) && name !in taken
  {
    var counter := 2;
    name := base + HtmlSuffix;
    ghost var tried: set<string> := {};
    while name in taken
      invariant counter >= 2 && name == Attempt(base, counter - 2)
      invariant forall u :: 0 <= u < counter - 2 ==> Attempt(base, u) in taken
      invariant tried == Attempts(base, counter - 2) && tried <= taken
      decreases |taken| - |tried|
    {
      NextAttempt(base, counter - 2, taken);
      tried := tried + {name};
      name := base + "-" + NatToString(counter) + HtmlSuffix;
      counter := counter + 1;
    }
  }

  // ---------------------------------------------------------------------------------------------
  // The rows of main

  const EmptyFileMessage := "Le fichier CSV est vide."
  const FilenameKey := "__filename"
  const IdColumn := "ID Produit Sellsy"
  const NameColumn := "Nom commercial"

  /** Every cell stripped, as `[header.strip() for header in headers]` and `value.strip()` do. */
  function StrippedCells(row: seq<string>): (r: seq<string>)
    ensures |r| == |row| && forall k :: 0 <= k < |r| ==> r[k] == PyStrip(row[k])
  {
    seq(|row|, k requires 0 <= k < |row| => PyStrip(row[k]))
  }

  /** `not any(cell.strip() for cell in row)`: an empty row, or one made only of whitespace. */
  predicate IsBlankRow(row: seq<string>) {
    forall k :: 0 <= k < |row| ==> PyStrip(row[k]) == ""
  }

  /** The rows the loop of `main` keeps, in file order. */
  function KeptRows(rows: seq<seq<string>>): (r: seq<seq<string>>)
    ensures |r| <= |rows|
    decreases |rows|
  {
    if rows == [] then []
    else KeptRows(rows[..|rows| - 1]) + (if IsBlankRow(rows[|rows| - 1]) then [] else [rows[|rows| - 1]])
  }

  lemma {:induction false} KeptRowsStep(rows: seq<seq<string>>, k: nat)
    requires k < |rows|
    ensures KeptRows(rows[..k + 1]) == KeptRows(rows[..k]) + (if IsBlankRow(rows[k]) then [] else [rows[k]])
  {
    assert rows[..k + 1][..k] == rows[..k];
  }

  /** A row is kept exactly when it is in the file and not blank. */
  lemma {:induction false} KeptRowsMembers(rows: seq<seq<string>>, row: seq<string>)
    ensures row in KeptRows(rows) <==> row in rows && !IsBlankRow(row)
    decreases |rows|
  {
    if rows != [] {
      var n := |rows| - 1;
      KeptRowsMembers(rows[..n], row);
      assert rows == rows[..n] + [rows[n]];
    }
  }

  /** Keeping the rows of a file in two parts keeps those of each part, in order. */
  lemma {:induction false} KeptRowsAppend(a: seq<seq<string>>, b: seq<seq<string>>)
    ensures KeptRows(a + b) == KeptRows(a) + KeptRows(b)
    decreases |b|
  {
    if b == [] {
      assert a + b == a;
    } else {
      var n := |b| - 1;
      var last := b[n];
      var tail := if IsBlankRow(last) then [] else [last];
      KeptRowsAppend(a, b[..n]);
      assert (a + b)[..|a + b| - 1] == a + b[..n];
      assert (a + b)[|a + b| - 1] == last;
      assert KeptRows(a + b) == KeptRows(a + b[..n]) + tail;
      assert KeptRows(b) == KeptRows(b[..n]) + tail;
      assert (KeptRows(a) + KeptRows(b[..n])) + tail == KeptRows(a) + (KeptRows(b[..n]) + tail);
    }
  }

  /** The `" lien"` and `" image"` renamings: the value moves to the key without the space. */
  function Harmonise(data: map<string, string>): map<string, string> {
    var linked := if " lien" in data then (data - {" lien"})["lien" := PyStrip(data[" lien"])] else data;
    if " image" in linked then (linked - {" image"})["image" := PyStrip(linked[" image"])] else linked
  }

  /** `{header: value.strip() for header, value in zip(headers, row)}`, then the renamings. */
  function RowData(headers: seq<string>, row: seq<string>): map<string, string> {
    var n := if |headers| <= |row| then |headers| else |row|;
    Harmonise(Assign(headers[..n], StrippedCells(row)))
  }

  /** Since the headers were stripped, no key starts with a space and the renamings never apply. */
  lemma {:induction false} HarmoniseNoOp(rawHeaders: seq<string>, row: seq<string>)
    ensures var headers := StrippedCells(rawHeaders);
      var n := if |headers| <= |row| then |headers| else |row|;
      RowData(headers, row) == Assign(headers[..n], StrippedCells(row))
  {
    var headers := StrippedCells(rawHeaders);
    var n := if |headers| <= |row| then |headers| else |row|;
    var data := Assign(headers[..n], StrippedCells(row));
    assert IsPySpace(' ');
    if " lien" in data {
      StrippedKey(rawHeaders, n, StrippedCells(row), " lien");
    }
    if " image" in data {
      StrippedKey(rawHeaders, n, StrippedCells(row), " image");
    }
  }

  /** A key assigned from stripped headers is stripped. */
  lemma {:induction false} StrippedKey(rawHeaders: seq<string>, n: nat, values: seq<string>, key: string)
    requires n <= |rawHeaders| && n <= |values|
    requires key in Assign(StrippedCells(rawHeaders)[..n], values)
    ensures IsPyStripped(key)
  {
    var keys := StrippedCells(rawHeaders)[..n];
    AssignKeys(keys, values);
    assert key in keys;
    var k :| 0 <= k < n && keys[k] == key;
    assert key == PyStrip(rawHeaders[k]);
    PyStripIsStripped(rawHeaders[k]);
  }

  /** `data.get(key, "")`. */
  function GetOrEmpty(data: map<string, string>, key: string): string {
    if key in data then data[key] else ""
  }

  /** `product_id or slugify(name)`. */
  function FilenameBase(data: map<string, string>): (base: string)
    ensures base != ""
  {
    var productId := PyStrip(GetOrEmpty(data, IdColumn));
    if productId != "" then productId
    else SlugShape(PyStrip(GetOrEmpty(data, NameColumn))); SlugOf(PyStrip(GetOrEmpty(data, NameColumn)))
  }

  /** The file names of the products kept so far, `{p["__filename"] for p in products}`. */
  function Filenames(products: seq<map<string, string>>): set<string>
    requires forall i :: 0 <= i < |products| ==> FilenameKey in products[i]
  {
    set i | 0 <= i < |products| :: products[i][FilenameKey]
  }

  /** `page` is the product the loop makes of `row` when the names in `taken` are in use. */
  ghost predicate PageOf(headers: seq<string>, row: seq<string>, taken: set<string>, page: map<string, string>) {
    var data := RowData(headers, row);
    && FilenameKey in page
    && page == data[FilenameKey := page[FilenameKey]]
    && IsFirstFree(page[FilenameKey], FilenameBase(data), taken)
  }

  /** `products` is what the loop of `main` makes of the kept rows. */
  ghost predicate GeneratedFrom(headers: seq<string>, kept: seq<seq<string>>, products: seq<map<string, string>>) {
    && |products| == |kept|
    && (forall i :: 0 <= i < |products| ==> FilenameKey in products[i])
    && forall i :: 0 <= i < |products| ==> PageOf(headers, kept[i], Filenames(products[..i]), products[i])
  }

  /** What `main` makes of the rows of a non-empty file. */
  ghost predicate Generated(rows: seq<seq<string>>, products: seq<map<string, string>>) {
    rows != [] && GeneratedFrom(StrippedCells(rows[0]), KeptRows(rows[1..]), products)
  }

  /** No two products get the same file name. */
  lemma {:induction false} DistinctFilenames(rows: seq<seq<string>>, products: seq<map<string, string>>, i: nat, j: nat)
    requires Generated(rows, products) && i < j < |products|
    ensures products[i][FilenameKey] != products[j][FilenameKey]
  {
    var headers := StrippedCells(rows[0]);
    var kept := KeptRows(rows[1..]);
    assert PageOf(headers, kept[j], Filenames(products[..j]), products[j]);
    assert products[..j][i] == products[i];
    assert products[i][FilenameKey] in Filenames(products[..j]);
  }

  /** A row and the names in use determine the product made of it. */
  lemma {:induction false} SamePage(headers: seq<string>, row: seq<string>, taken: set<string>, p: map<string, string>, q: map<string, string>)
    requires PageOf(headers, row, taken, p) && PageOf(headers, row, taken, q)
    ensures p == q
  {
    FirstFreeUnique(p[FilenameKey], q[FilenameKey], FilenameBase(RowData(headers, row)), taken);
  }

  lemma {:induction false} PrefixStep<T>(a: seq<T>, b: seq<T>, i: nat)
    requires i < |a| && i < |b| && a[..i] == b[..i] && a[i] == b[i]
    ensures a[..i + 1] == b[..i + 1]
  {
    assert a[..i + 1] == a[..i] + [a[i]];
    assert b[..i + 1] == b[..i] + [b[i]];
  }

  /** The rows of a file determine the products. */
  lemma {:induction false} GeneratedUnique(rows: seq<seq<string>>, a: seq<map<string, string>>, b: seq<map<string, string>>)
    requires Generated(rows, a) && Generated(rows, b)
    ensures a == b
  {
    var headers := StrippedCells(rows[0]);
    var kept := KeptRows(rows[1..]);
    var i := 0;
    while i < |a|
      invariant 0 <= i <= |a| && a[..i] == b[..i]
    {
      SamePage(headers, kept[i], Filenames(a[..i]), a[i], b[i]);
      PrefixStep(a, b, i);
      i := i + 1;
    }
    assert a == a[..|a|] && b == b[..|b|];
  }

  /** One turn of the loop of main: the row's cells under their headers, with a `__filename`
    * made from the product id, or from the slug of the name, that no earlier product uses. */
  method PageFor(headers: seq<string>, row: seq<string>, taken: set<string>) returns (page: map<string, string>)
    ensures PageOf(headers, row, taken, page)
    ensures page[FilenameKey] !in taken
  {
    var data := RowData(headers, row);
    var productId := PyStrip(GetOrEmpty(data, IdColumn));
    var name := PyStrip(GetOrEmpty(data, NameColumn));
    var filenameBase: string;
    if productId != "" {
      filenameBase := productId;
    } else {
      filenameBase := Slugify(name);
    }
    var filename := UniqueFilename(filenameBase, taken);
    assert filenameBase == FilenameBase(data);
    page := data[FilenameKey := filename];
  }

  /** The loop of scripts/generate_catalog_pages.py main over the rows the CSV reader returned:
    * an empty file is an error; otherwise the first row gives the headers and each other row that
    * is not blank becomes a product with a file name of its own. */
  method GeneratePages(rows: seq<seq<string>>) returns (r: Result<seq<map<string, string>>, string>)
    ensures r.Failure? <==> rows == []
    ensures r.Failure? ==> r.error == EmptyFileMessage
    ensures r.Success? ==> Generated(rows, r.value)
  {
    if rows == [] {
      return Failure(EmptyFileMessage);
    }
    var headers := StrippedCells(rows[0]);
    var body := rows[1..];
    var products: seq<map<string, string>> := [];
    ghost var kept: seq<seq<string>> := [];
    var k := 0;
    while k < |body|
      invariant 0 <= k <= |body|
      invariant kept == KeptRows(body[..k])
      invariant GeneratedFrom(headers, kept, products)
    {
      var row := body[k];
      KeptRowsStep(body, k);
      if !IsBlankRow(row) {
        var page := PageFor(headers, row, Filenames(products));
        Extend(headers, kept, products, row, page);
        products := products + [page];
        kept := kept + [row];
      }
      k := k + 1;
    }
    assert body[..|body|] == body;
    return Success(products);
  }

  /** Appending the product made of the next kept row extends what the loop has made. */
  lemma {:induction false} Extend(headers: seq<string>, kept: seq<seq<string>>, products: seq<map<string, string>>,
                                  row: seq<string>, page: map<string, string>)
    requires GeneratedFrom(headers, kept, products)
    requires PageOf(headers, row, Filenames(products), page)
    ensures GeneratedFrom(headers, kept + [row], products + [page])
  {
    var more := products + [page];
    assert more[..|products|] == products;
    forall i | 0 <= i < |products|
      ensures more[..i] == products[..i]
    {
    }
  }
}
