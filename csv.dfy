/**
 * The CSV reader of js/app.js: `splitCsvLine` (a quote-aware tokenizer), `slugifyHeader` (header
 * names turned into object keys) and `parseCsv` (one dictionary per non-blank line).
 */
module Csv {
  import opened Strings
  import opened Maps

  // ---------------------------------------------------------------------------------------------
  // splitCsvLine

  /** What the tokenizer makes of the characters of a line: a cell separator or a literal character
    * of the current cell. Quotes that open or close a quoted section produce nothing. */
  datatype Tok = Sep | Lit(c: char)

  /** The tokens of `line[i..]` when the scan reaches `i` inside quotes (`inQuotes`) or not. A quote
    * inside quotes followed by another quote is one literal quote; any other quote toggles the
    * quoted state; the delimiter outside quotes separates cells. The quote test comes first, so a
    * `"` delimiter never separates anything. */
  function Lex(line: string, delimiter: char, i: nat, inQuotes: bool): seq<Tok>
    requires i <= |line|
    decreases |line| - i
  {
    if i == |line| then []
    else if line[i] == '"' then
      if inQuotes && i + 1 < |line| && line[i + 1] == '"' then [Lit('"')] + Lex(line, delimiter, i + 2, inQuotes)
      else Lex(line, delimiter, i + 1, !inQuotes)
    else if line[i] == delimiter && !inQuotes then [Sep] + Lex(line, delimiter, i + 1, inQuotes)
    else [Lit(line[i])] + Lex(line, delimiter, i + 1, inQuotes)
  }

  /** `s.replace(/^\"|\"$/g, '')`: one leading and one trailing quote are removed. */
  function StripQuoteEdges(s: string): (r: string)
    ensures |s| >= 2 && s[0] == '"' && s[|s| - 1] == '"' ==> r == s[1..|s| - 1]
    ensures '"' !in s ==> r == s
  {
    var a := if |s| > 0 && s[0] == '"' then s[1..] else s;
    if |a| > 0 && a[|a| - 1] == '"' then a[..|a| - 1] else a
  }

  /** What is pushed for a finished cell: trimmed, then one quote stripped at each end. */
  function CleanCell(s: string): string {
    StripQuoteEdges(Trim(s))
  }

  /** The cells of a token stream whose current (unfinished) cell holds `current`. */
  function CellsFrom(current: string, toks: seq<Tok>): seq<string>
    decreases |toks|
  {
    if toks == [] then [CleanCell(current)]
    else match toks[0]
      case Sep => [CleanCell(current)] + CellsFrom("", toks[1..])
      case Lit(c) => CellsFrom(current + [c], toks[1..])
  }

  /** The cells `splitCsvLine(line, delimiter)` returns. */
  function SplitCells(line: string, delimiter: char): seq<string> {
    CellsFrom("", Lex(line, delimiter, 0, false))
  }

  /** js/app.js splitCsvLine: the character loop that advances `index` inside its body. */
  method SplitCsvLine(line: string, delimiter: char) returns (cells: seq<string>)
    ensures cells == SplitCells(line, delimiter)
  {
    cells := [];
    var current := "";
    var insideQuotes := false;
    var index := 0;
    while index < |line|
      invariant 0 <= index <= |line|
      invariant SplitCells(line, delimiter) == cells + CellsFrom(current, Lex(line, delimiter, index, insideQuotes))
      decreases |line| - index
    {
      var ch := line[index];
      if ch == '"' {
        if insideQuotes && index + 1 < |line| && line[index + 1] == '"' {
          current := current + ['"'];
          index := index + 1;
        } else {
          insideQuotes := !insideQuotes;
        }
      } else if ch == delimiter && !insideQuotes {
        cells := cells + [CleanCell(current)];
        current := "";
      } else {
        current := current + [ch];
      }
      index := index + 1;
    }
    cells := cells + [CleanCell(current)];
  }

  function CountSep(toks: seq<Tok>): nat
    decreases |toks|
  {
    if toks == [] then 0 else (if toks[0] == Sep then 1 else 0) + CountSep(toks[1..])
  }

  /** There is one cell more than there are separators. */
  lemma {:induction false} CellCount(current: string, toks: seq<Tok>)
    ensures |CellsFrom(current, toks)| == 1 + CountSep(toks)
    decreases |toks|
  {
    if toks != [] {
      match toks[0]
      case Sep => CellCount("", toks[1..]);
      case Lit(c) => CellCount(current + [c], toks[1..]);
    }
  }

  /** The number of delimiters of `line[i..]` that the scan meets outside quotes. */
  function DelimitersOutsideQuotes(line: string, delimiter: char, i: nat, inQuotes: bool): nat
    requires i <= |line|
    decreases |line| - i
  {
    if i == |line| then 0
    else if line[i] == '"' then
      if inQuotes && i + 1 < |line| && line[i + 1] == '"' then DelimitersOutsideQuotes(line, delimiter, i + 2, inQuotes)
      else DelimitersOutsideQuotes(line, delimiter, i + 1, !inQuotes)
    else (if line[i] == delimiter && !inQuotes then 1 else 0) + DelimitersOutsideQuotes(line, delimiter, i + 1, inQuotes)
  }

  lemma {:induction false} SepsAreOutsideDelimiters(line: string, delimiter: char, i: nat, inQuotes: bool)
    requires i <= |line|
    ensures CountSep(Lex(line, delimiter, i, inQuotes)) == DelimitersOutsideQuotes(line, delimiter, i, inQuotes)
    decreases |line| - i
  {
    if i < |line| {
      if line[i] == '"' {
        if inQuotes && i + 1 < |line| && line[i + 1] == '"' {
          SepsAreOutsideDelimiters(line, delimiter, i + 2, inQuotes);
          assert ([Lit('"')] + Lex(line, delimiter, i + 2, inQuotes))[1..] == Lex(line, delimiter, i + 2, inQuotes);
        } else {
          SepsAreOutsideDelimiters(line, delimiter, i + 1, !inQuotes);
        }
      } else {
        SepsAreOutsideDelimiters(line, delimiter, i + 1, inQuotes);
        var t := if line[i] == delimiter && !inQuotes then Sep else Lit(line[i]);
        assert Lex(line, delimiter, i, inQuotes) == [t] + Lex(line, delimiter, i + 1, inQuotes);
        assert ([t] + Lex(line, delimiter, i + 1, inQuotes))[1..] == Lex(line, delimiter, i + 1, inQuotes);
      }
    }
  }

  /** `splitCsvLine` returns exactly one cell more than the line has delimiters outside quotes. */
  lemma {:induction false} SplitCellCount(line: string, delimiter: char)
    ensures |SplitCells(line, delimiter)| == 1 + DelimitersOutsideQuotes(line, delimiter, 0, false)
  {
    CellCount("", Lex(line, delimiter, 0, false));
    SepsAreOutsideDelimiters(line, delimiter, 0, false);
  }

  /** Inside quotes, a text without quotes contributes its characters literally, delimiters included. */
  lemma {:induction false} QuotedTextIsLiteral(line: string, delimiter: char, i: nat, n: nat)
    requires i + n <= |line| && forall k :: i <= k < i + n ==> line[k] != '"'
    ensures Lex(line, delimiter, i, true) == LitSeq(line[i..i + n]) + Lex(line, delimiter, i + n, true)
    decreases n
  {
    if n > 0 {
      var rest := Lex(line, delimiter, i + n, true);
      QuotedTextIsLiteral(line, delimiter, i + 1, n - 1);
      assert Lex(line, delimiter, i, true) == [Lit(line[i])] + Lex(line, delimiter, i + 1, true);
      assert line[i..i + n] == [line[i]] + line[i + 1..i + n];
      LitSeqCons(line[i], line[i + 1..i + n]);
      assert [Lit(line[i])] + (LitSeq(line[i + 1..i + n]) + rest) == ([Lit(line[i])] + LitSeq(line[i + 1..i + n])) + rest;
    }
  }

  function LitSeq(s: string): (r: seq<Tok>)
    ensures |r| == |s| && forall k :: 0 <= k < |s| ==> r[k] == Lit(s[k])
  {
    seq(|s|, k requires 0 <= k < |s| => Lit(s[k]))
  }

  lemma {:induction false} LitSeqCons(c: char, s: string)
    ensures LitSeq([c] + s) == [Lit(c)] + LitSeq(s)
  {
  }

  /** Literal characters all accumulate into the current cell. */
  lemma {:induction false} CellsOfLiterals(current: string, s: string, rest: seq<Tok>)
    ensures CellsFrom(current, LitSeq(s) + rest) == CellsFrom(current + s, rest)
    decreases |s|
  {
    if s != [] {
      LitSeqCons(s[0], s[1..]);
      assert [s[0]] + s[1..] == s;
      assert LitSeq(s) + rest == [Lit(s[0])] + (LitSeq(s[1..]) + rest);
      CellsOfLiterals(current + [s[0]], s[1..], rest);
      assert current + [s[0]] + s[1..] == current + s;
    } else {
      assert LitSeq(s) + rest == rest;
      assert current + s == current;
    }
  }

  /** A delimiter between quotes is kept literally: a quoted text without quotes is one cell,
    * trimmed, however many delimiters it holds. */
  lemma {:induction false} QuotedCellIsOne(x: string, delimiter: char)
    requires '"' !in x
    ensures SplitCells("\"" + x + "\"", delimiter) == [Trim(x)]
  {
    QuotedLex(x, delimiter);
    CellsOfLiterals("", x, []);
    assert LitSeq(x) + [] == LitSeq(x);
    assert "" + x == x;
    CleanUnquoted(x);
  }

  /** The tokens of a quoted text without quotes are its characters. */
  lemma {:induction false} QuotedLex(x: string, delimiter: char)
    requires '"' !in x
    ensures Lex("\"" + x + "\"", delimiter, 0, false) == LitSeq(x)
  {
    var line := "\"" + x + "\"";
    var n := |x|;
    assert line[1..1 + n] == x;
    forall k | 1 <= k < 1 + n
      ensures line[k] != '"'
    {
      assert line[k] == x[k - 1];
    }
    QuotedTextIsLiteral(line, delimiter, 1, n);
    assert |line| == n + 2 && line[n + 1] == '"';
    assert Lex(line, delimiter, 1 + n, true) == [];
    assert LitSeq(x) + [] == LitSeq(x);
  }

  /** A doubled quote inside quotes is one literal quote: `"a""b"` is the single cell `a"b`. */
  lemma {:induction false} DoubledQuoteIsOneQuote()
    ensures SplitCells("\"a\"\"b\"", ';') == ["a\"b"]
  {
    DoubledQuoteLex();
    var toks := [Lit('a'), Lit('"'), Lit('b')];
    assert toks[0] == Lit('a') && toks[1..][0] == Lit('"') && toks[2..][0] == Lit('b') && toks[2..][1..] == [];
    assert "" + ['a'] == "a" && "a" + ['"'] == "a\"" && "a\"" + ['b'] == "a\"b";
    assert CellsFrom("", toks) == CellsFrom("a", toks[1..]);
    assert CellsFrom("a", toks[1..]) == CellsFrom("a\"", toks[2..]);
    assert CellsFrom("a\"", toks[2..]) == CellsFrom("a\"b", []);
    DoubledQuoteCell();
  }

  lemma {:induction false} DoubledQuoteLex()
    ensures Lex("\"a\"\"b\"", ';', 0, false) == [Lit('a'), Lit('"'), Lit('b')]
  {
    var line := "\"a\"\"b\"";
    assert |line| == 6 && line[0] == '"' && line[1] == 'a' && line[2] == '"' && line[3] == '"' && line[4] == 'b' && line[5] == '"';
    assert Lex(line, ';', 6, false) == [];
    assert Lex(line, ';', 5, true) == [];
    assert Lex(line, ';', 4, true) == [Lit('b')];
    assert Lex(line, ';', 2, true) == [Lit('"'), Lit('b')];
    assert Lex(line, ';', 1, true) == [Lit('a'), Lit('"'), Lit('b')];
  }

  lemma {:induction false} DoubledQuoteCell()
    ensures CleanCell("a\"b") == "a\"b"
  {
    var cell := "a\"b";
    assert |cell| == 3 && cell[0] == 'a' && cell[|cell| - 1] == 'b';
    assert !IsJsSpace('a') && !IsJsSpace('b');
    assert IsTrimmed(cell);
    TrimmedIsFixed(cell);
    assert StripQuoteEdges(cell) == cell;
  }

  /** Outside quotes, a line without quotes is split at every delimiter and each piece trimmed. */
  lemma {:induction false} UnquotedLineSplitsAtDelimiters(line: string, delimiter: char)
    requires '"' !in line
    ensures SplitCells(line, delimiter) == TrimAll(SplitOn(line, delimiter))
  {
    UnquotedFrom(line, delimiter, 0, "");
    assert line[0..] == line;
  }

  function TrimAll(pieces: seq<string>): (r: seq<string>)
    ensures |r| == |pieces| && forall k :: 0 <= k < |pieces| ==> r[k] == Trim(pieces[k])
  {
    seq(|pieces|, k requires 0 <= k < |pieces| => Trim(pieces[k]))
  }

  lemma {:induction false} TrimAllCons(p: string, pieces: seq<string>)
    ensures TrimAll([p] + pieces) == [Trim(p)] + TrimAll(pieces)
  {
  }

  lemma {:induction false} UnquotedFrom(line: string, delimiter: char, i: nat, current: string)
    requires i <= |line| && '"' !in line && '"' !in current
    ensures CellsFrom(current, Lex(line, delimiter, i, false)) == TrimAll(SplitAcc(current, line[i..], delimiter))
    decreases |line| - i
  {
    if i == |line| {
      assert line[i..] == [];
      CleanUnquoted(current);
    } else {
      assert line[i] in line;
      assert line[i..][0] == line[i] && line[i..][1..] == line[i + 1..];
      var rest := Lex(line, delimiter, i + 1, false);
      if line[i] == delimiter {
        UnquotedFrom(line, delimiter, i + 1, "");
        CleanUnquoted(current);
        assert ([Sep] + rest)[1..] == rest;
        TrimAllCons(current, SplitAcc("", line[i + 1..], delimiter));
      } else {
        assert ([Lit(line[i])] + rest)[1..] == rest;
        assert '"' !in current + [line[i]];
        UnquotedFrom(line, delimiter, i + 1, current + [line[i]]);
      }
    }
  }

  /** The cells a line without quotes can produce hold no quote, so they are only trimmed. */
  lemma {:induction false} CleanUnquoted(current: string)
    ensures '"' !in current ==> CleanCell(current) == Trim(current)
  {
    if '"' !in current {
      StripChars(current, IsJsSpace);
    }
  }

  // ---------------------------------------------------------------------------------------------
  // slugifyHeader

  predicate IsSlugChar(c: char) { IsAsciiLower(c) || IsAsciiDigit(c) }

  /** The combining marks `replace(/[\u0300-\u036f]/g, '')` removes. */
  predicate IsCombiningMark(c: char) { '\U{300}' <= c <= '\U{36F}' }

  /** `toLowerCase()`, `normalize('NFD')` and the removal of combining marks, character by character. */
  function FoldHeader(h: string): (r: string)
    decreases |h|
  {
    if h == [] then []
    else (if IsCombiningMark(h[0]) then [] else [Lower(LatinBase(h[0]))]) + FoldHeader(h[1..])
  }

  predicate NoDoubleUnderscore(s: string) {
    forall i :: 0 <= i < |s| - 1 ==> !(s[i] == '_' && s[i + 1] == '_')
  }

  /** `replace(/[^a-z0-9]+/g, '_')`: every maximal run of other characters becomes one `_`;
    * `inRun` says that the character before `s` already belonged to such a run. */
  function CollapseRuns(s: string, inRun: bool): (r: string)
    ensures forall i :: 0 <= i < |r| ==> IsSlugChar(r[i]) || r[i] == '_'
    ensures NoDoubleUnderscore(r)
    ensures inRun ==> r == [] || r[0] != '_'
    decreases |s|
  {
    if s == [] then []
    else if IsSlugChar(s[0]) then [s[0]] + CollapseRuns(s[1..], false)
    else if inRun then CollapseRuns(s[1..], true)
    else ['_'] + CollapseRuns(s[1..], true)
  }

  /** `replace(/^_|_$/g, '')`: one `_` is removed at each end. */
  function TrimUnderscores(s: string): (r: string)
    ensures NoDoubleUnderscore(s) ==> r == [] || (r[0] != '_' && r[|r| - 1] != '_')
    ensures |r| <= |s| && forall i :: 0 <= i < |r| ==> r[i] in s
    ensures NoDoubleUnderscore(s) ==> NoDoubleUnderscore(r)
  {
    var a := if |s| > 0 && s[0] == '_' then s[1..] else s;
    if |a| > 0 && a[|a| - 1] == '_' then a[..|a| - 1] else a
  }

  /** What a header name becomes as an object key. */
  predicate IsHeaderSlug(r: string) {
    (forall i :: 0 <= i < |r| ==> IsSlugChar(r[i]) || r[i] == '_')
    && NoDoubleUnderscore(r)
    && (r == [] || (r[0] != '_' && r[|r| - 1] != '_'))
  }

  /** js/app.js slugifyHeader. */
  function SlugifyHeader(h: string): (r: string)
    ensures IsHeaderSlug(r)
  {
    TrimUnderscores(CollapseRuns(FoldHeader(h), false))
  }

  lemma {:induction false} FoldHeaderFixed(s: string)
    requires forall i :: 0 <= i < |s| ==> IsSlugChar(s[i]) || s[i] == '_'
    ensures FoldHeader(s) == s
    decreases |s|
  {
    if s != [] {
      FoldHeaderFixed(s[1..]);
      assert [s[0]] + s[1..] == s;
    }
  }

  lemma {:induction false} CollapseRunsFixed(s: string, inRun: bool)
    requires forall i :: 0 <= i < |s| ==> IsSlugChar(s[i]) || s[i] == '_'
    requires NoDoubleUnderscore(s)
    requires inRun ==> s == [] || s[0] != '_'
    ensures CollapseRuns(s, inRun) == s
    decreases |s|
  {
    if s != [] {
      assert |s| > 1 ==> s[1..][0] == s[1];
      CollapseRunsFixed(s[1..], !IsSlugChar(s[0]));
      assert [s[0]] + s[1..] == s;
    }
  }

  /** A key that is already a slug is its own slug; hence slugifying twice is slugifying once. */
  lemma {:induction false} SlugifyHeaderFixed(r: string)
    requires IsHeaderSlug(r)
    ensures SlugifyHeader(r) == r
  {
    FoldHeaderFixed(r);
    CollapseRunsFixed(r, false);
  }

  lemma {:induction false} SlugifyHeaderIdempotent(h: string)
    ensures SlugifyHeader(SlugifyHeader(h)) == SlugifyHeader(h)
  {
    SlugifyHeaderFixed(SlugifyHeader(h));
  }

  /** Accents are dropped and letters lowered: the column `Réf` is read as the key `ref`. */
  lemma {:induction false} SlugifyAccentedHeader()
    ensures SlugifyHeader("R\U{E9}f") == "ref"
  {
    var h := "R\U{E9}f";
    assert h[1..][1..] == "f" && "f"[1..] == [];
    assert FoldHeader("f") == "f";
    assert FoldHeader(h[1..]) == "ef";
    assert FoldHeader(h) == "ref";
    assert "ref"[1..] == "ef" && "ef"[1..] == "f";
    assert CollapseRuns("ref", false) == "ref";
  }

  // ---------------------------------------------------------------------------------------------
  // parseCsv

  /** The last character of `p` dropped when it is a carriage return. */
  function DropCr(p: string): string {
    if |p| > 0 && p[|p| - 1] == '\r' then p[..|p| - 1] else p
  }

  /** `text.split(/\r?\n/)`: the pieces between line feeds, each piece that stands before a line
    * feed losing one carriage return at its end. */
  function Lines(text: string): (r: seq<string>)
    ensures |r| == |SplitOn(text, '\n')| && |r| >= 1
  {
    var pieces := SplitOn(text, '\n');
    SplitAccNonEmpty("", text, '\n');
    seq(|pieces|, k requires 0 <= k < |pieces| => if k < |pieces| - 1 then DropCr(pieces[k]) else pieces[k])
  }

  /** `filter((line) => line.trim().length > 0)`. */
  function NonBlank(lines: seq<string>): (r: seq<string>)
    ensures |r| <= |lines|
    ensures forall k :: 0 <= k < |r| ==> Trim(r[k]) != ""
    decreases |lines|
  {
    if lines == [] then []
    else (if Trim(lines[0]) != "" then [lines[0]] else []) + NonBlank(lines[1..])
  }

  /** `(cells[index] ?? '').trim()`: a missing cell reads as the empty string. */
  function CellAt(cells: seq<string>, index: nat): string {
    if index < |cells| then Trim(cells[index]) else ""
  }

  /** The trimmed cell under each header, `''` past the end of the row. */
  function CellsFor(headers: seq<string>, cells: seq<string>): (r: seq<string>)
    ensures |r| == |headers| && forall k :: 0 <= k < |headers| ==> r[k] == CellAt(cells, k)
  {
    seq(|headers|, k requires 0 <= k < |headers| => CellAt(cells, k))
  }

  /** The dictionary `headers.forEach((header, index) => entry[header] = …)` builds. */
  function EntrySpec(headers: seq<string>, cells: seq<string>): map<string, string> {
    Assign(headers, CellsFor(headers, cells))
  }

  /** The loop of parseCsv that fills one `entry`. */
  method BuildEntry(headers: seq<string>, cells: seq<string>) returns (entry: map<string, string>)
    ensures entry == EntrySpec(headers, cells)
  {
    ghost var values := CellsFor(headers, cells);
    entry := map[];
    var index := 0;
    while index < |headers|
      invariant 0 <= index <= |headers|
      invariant entry == Assign(headers[..index], values)
    {
      assert headers[..index + 1][..index] == headers[..index];
      entry := entry[headers[index] := CellAt(cells, index)];
      index := index + 1;
    }
    assert headers[..|headers|] == headers;
  }

  /** Every row of a parsed file has exactly the headers as its keys. */
  lemma {:induction false} EntryKeys(headers: seq<string>, cells: seq<string>)
    ensures EntrySpec(headers, cells).Keys == set h | h in headers
  {
    AssignKeys(headers, CellsFor(headers, cells));
  }

  /** The value of a key is the trimmed cell under the key's last occurrence among the headers, and
    * the empty string when the row is too short to have that cell. */
  lemma {:induction false} EntryValue(headers: seq<string>, cells: seq<string>, i: nat)
    requires i < |headers| && forall j :: i < j < |headers| ==> headers[j] != headers[i]
    ensures headers[i] in EntrySpec(headers, cells)
    ensures EntrySpec(headers, cells)[headers[i]] == (if i < |cells| then Trim(cells[i]) else "")
  {
    AssignValue(headers, CellsFor(headers, cells), i);
  }

  /** The keys `splitCsvLine(lines.shift(), delimiter).map(slugifyHeader)`. */
  function HeadersOf(line: string, delimiter: char): (r: seq<string>)
    ensures forall k :: 0 <= k < |r| ==> IsHeaderSlug(r[k])
  {
    HeaderKeys(SplitCells(line, delimiter))
  }

  function HeaderKeys(cells: seq<string>): (r: seq<string>)
    ensures forall k :: 0 <= k < |r| ==> IsHeaderSlug(r[k])
  {
    seq(|cells|, k requires 0 <= k < |cells| => SlugifyHeader(cells[k]))
  }

  /** One dictionary per line of `body`, keyed by `headers`. */
  function RowsWith(headers: seq<string>, body: seq<string>, delimiter: char): (rows: seq<map<string, string>>)
    ensures |rows| == |body|
  {
    seq(|body|, k requires 0 <= k < |body| => EntrySpec(headers, SplitCells(body[k], delimiter)))
  }

  /** The rows made of the non-blank `lines`: the first holds the headers, each other one a row. */
  function RowsOf(lines: seq<string>, delimiter: char): seq<map<string, string>> {
    if lines == [] then [] else RowsWith(HeadersOf(lines[0], delimiter), lines[1..], delimiter)
  }

  /** The rows `parseCsv(text, delimiter)` returns. */
  function ParseCsvSpec(text: string, delimiter: char): seq<map<string, string>> {
    RowsOf(NonBlank(Lines(text)), delimiter)
  }

  /** js/app.js parseCsv. */
  method ParseCsv(text: string, delimiter: char) returns (rows: seq<map<string, string>>)
    ensures rows == ParseCsvSpec(text, delimiter)
  {
    rows := ParseLines(NonBlank(Lines(text)), delimiter);
  }

  /** The body of parseCsv once the non-blank lines are known. */
  method ParseLines(lines: seq<string>, delimiter: char) returns (rows: seq<map<string, string>>)
    ensures rows == RowsOf(lines, delimiter)
  {
    if lines == [] {
      return [];
    }
    var headerCells := SplitCsvLine(lines[0], delimiter);
    var headers := HeaderKeys(headerCells);
    rows := [];
    var k := 1;
    while k < |lines|
      invariant 1 <= k <= |lines|
      invariant |rows| == k - 1
      invariant forall j :: 0 <= j < k - 1 ==> rows[j] == EntrySpec(headers, SplitCells(lines[j + 1], delimiter))
    {
      var cells := SplitCsvLine(lines[k], delimiter);
      var entry := BuildEntry(headers, cells);
      rows := rows + [entry];
      k := k + 1;
    }
    assert forall j :: 0 <= j < |rows| ==> lines[1..][j] == lines[j + 1];
  }

  /** One row per line after the first. */
  lemma {:induction false} RowsCount(lines: seq<string>, delimiter: char)
    ensures |RowsOf(lines, delimiter)| == (if lines == [] then 0 else |lines| - 1)
  {
  }

  /** Each row is keyed by exactly the slugified headers of the first line. */
  lemma {:induction false} RowKeys(lines: seq<string>, delimiter: char, k: nat)
    requires k + 1 < |lines|
    ensures RowsOf(lines, delimiter)[k].Keys == set h | h in HeadersOf(lines[0], delimiter)
    ensures forall key :: key in RowsOf(lines, delimiter)[k] ==> IsHeaderSlug(key)
  {
    var headers := HeadersOf(lines[0], delimiter);
    var cells := SplitCells(lines[k + 1], delimiter);
    assert lines[1..][k] == lines[k + 1];
    assert RowsOf(lines, delimiter)[k] == EntrySpec(headers, cells);
    EntryKeys(headers, cells);
    forall key | key in EntrySpec(headers, cells)
      ensures IsHeaderSlug(key)
    {
      var j :| 0 <= j < |headers| && headers[j] == key;
    }
  }

  /** The rows of `lines` number one less than the lines, and every key is a slugified header. */
  lemma {:induction false} RowsShape(lines: seq<string>, delimiter: char)
    ensures |RowsOf(lines, delimiter)| == (if lines == [] then 0 else |lines| - 1)
    ensures forall k, key :: 0 <= k < |RowsOf(lines, delimiter)| && key in RowsOf(lines, delimiter)[k] ==> IsHeaderSlug(key)
  {
    RowsCount(lines, delimiter);
    forall k | 0 <= k < |RowsOf(lines, delimiter)|
      ensures forall key :: key in RowsOf(lines, delimiter)[k] ==> IsHeaderSlug(key)
    {
      RowKeys(lines, delimiter, k);
    }
  }

  /** parseCsv returns one row per non-blank line after the first (none when there is no non-blank
    * line), and every key of every row is a slugified header. */
  lemma {:induction false} ParseCsvShape(text: string, delimiter: char)
    ensures var lines := NonBlank(Lines(text));
      |ParseCsvSpec(text, delimiter)| == (if lines == [] then 0 else |lines| - 1)
    ensures forall k, key :: 0 <= k < |ParseCsvSpec(text, delimiter)| && key in ParseCsvSpec(text, delimiter)[k] ==> IsHeaderSlug(key)
  {
    RowsShape(NonBlank(Lines(text)), delimiter);
  }
}
