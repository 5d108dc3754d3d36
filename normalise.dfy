/**
 * The field normalisers of js/app.js: how a raw CSV cell becomes a clean text, a number, a unit
 * label with its quantity mode, an environmental score, and how units and categories are shown.
 */
module Normalise {
  import opened Wrappers
  import opened Strings
  import opened Numbers

  // ---------------------------------------------------------------------------------------------
  // cleanCsvValue, parseCsvNumber

  /** `NULL` in any letter case, the marker the catalogue export writes for an empty field. */
  predicate IsNullWord(s: string) {
    UpperStr(s) == "NULL"
  }

  /** js/app.js cleanCsvValue: a missing field (`None`), a blank one and `NULL` give the empty string;
    * anything else is trimmed. */
  function CleanCsvValue(v: Option<string>): (r: string)
    ensures r == "" <==> v.None? || Trim(v.value) == "" || IsNullWord(Trim(v.value))
    ensures r != "" ==> r == Trim(v.value)
    ensures IsTrimmed(r) && !IsNullWord(r)
  {
    if v.None? then ""
    else
      var trimmed := Trim(v.value);
      TrimIsTrimmed(v.value);
      if trimmed == "" || IsNullWord(trimmed) then "" else trimmed
  }

  /** Cleaning a clean value changes nothing. */
  lemma {:induction false} CleanCsvValueIdempotent(v: Option<string>)
    ensures CleanCsvValue(Some(CleanCsvValue(v))) == CleanCsvValue(v)
  {
    var r := CleanCsvValue(v);
    TrimmedIsFixed(r);
  }

  /** js/app.js parseCsvNumber: an empty or `NULL` field is 0, anything else is read as a French
    * number. */
  function ParseCsvNumber(v: Option<string>): (x: real)
    ensures CleanCsvValue(v) == "" ==> x == 0.0
    ensures CleanCsvValue(v) != "" ==> x == ParseFrenchNumber(Trim(v.value))
  {
    var cleaned := CleanCsvValue(v);
    if cleaned == "" then 0.0 else ParseFrenchNumber(cleaned)
  }

  /** A cell that is already clean cleans to itself. */
  lemma {:induction false} CleanOfClean(s: string)
    requires s != "" && IsTrimmed(s) && !IsNullWord(s)
    ensures CleanCsvValue(Some(s)) == s
  {
    TrimmedIsFixed(s);
  }

  /** A cell that is already clean is read as it stands. */
  lemma {:induction false} ParseCsvNumberOfClean(s: string)
    requires s != "" && IsTrimmed(s) && !IsNullWord(s)
    ensures ParseCsvNumber(Some(s)) == ParseFrenchNumber(s)
  {
    TrimmedIsFixed(s);
  }

  /** A price cell `2,5` is the number 2.5. */
  lemma {:induction false} ParseCsvNumberDecimal()
    ensures ParseCsvNumber(Some("2,5")) == 2.5
  {
    var s := "2,5";
    assert |s| == 3 && s[0] == '2' && s[2] == '5';
    assert UpperStr(s)[0] == '2';
    ParseCsvNumberOfClean(s);
    FrenchNumberDecimal();
  }

  /** A `null` cell, in any letter case, and a missing one are 0. */
  lemma {:induction false} ParseCsvNumberNull()
    ensures ParseCsvNumber(Some("null")) == 0.0
    ensures ParseCsvNumber(None) == 0.0
  {
    var n := "null";
    assert IsNullWord(n) by {
      assert |n| == 4 && n[0] == 'n' && n[1] == 'u' && n[2] == 'l' && n[3] == 'l';
      assert UpperStr(n) == "NULL";
    }
    assert Trim(n) == n by {
      assert |n| == 4 && n[0] == 'n' && n[3] == 'l';
      TrimmedIsFixed(n);
    }
    assert CleanCsvValue(Some(n)) == "";
  }

  // ---------------------------------------------------------------------------------------------
  // Units

  datatype QuantityMode = Unit | Area

  datatype UnitInfo = UnitInfo(unitLabel: string, mode: QuantityMode)

  /** `/^\d+$/`: a non-empty run of ASCII digits. */
  predicate IsDigitCode(s: string) {
    |s| > 0 && forall i :: 0 <= i < |s| ==> IsAsciiDigit(s[i])
  }

  predicate IsM(c: char) { c == 'm' || c == 'M' }

  /** `replace(/m2/gi, 'm²')`: the characters stay in place, each `m2` or `M2` becoming `m²`. */
  function ReplaceM2(s: string): (r: string)
    ensures |r| == |s|
    ensures forall i :: 0 <= i < |s| ==> r[i] == s[i] || (IsM(s[i]) && r[i] == 'm') || (s[i] == '2' && r[i] == '\U{B2}')
    decreases |s|
  {
    if s == [] then []
    else if |s| >= 2 && IsM(s[0]) && s[1] == '2' then "m\U{B2}" + ReplaceM2(s[2..])
    else [s[0]] + ReplaceM2(s[1..])
  }

  /** No `m` or `M` is followed by the digit 2. */
  predicate NoM2(s: string) {
    forall i :: 0 <= i < |s| - 1 ==> !(IsM(s[i]) && s[i + 1] == '2')
  }

  /** Whitespace occurs only as single spaces. */
  predicate SingleSpaced(s: string) {
    (forall i :: 0 <= i < |s| ==> IsJsSpace(s[i]) ==> s[i] == ' ')
    && forall i :: 0 <= i < |s| - 1 ==> !(s[i] == ' ' && s[i + 1] == ' ')
  }

  /** After the replacement no `m2` is left, whatever the letter case. */
  lemma {:induction false} ReplaceM2NoM2(s: string)
    ensures NoM2(ReplaceM2(s))
    decreases |s|
  {
    if s != [] {
      if |s| >= 2 && IsM(s[0]) && s[1] == '2' {
        ReplaceM2NoM2(s[2..]);
        var rest := ReplaceM2(s[2..]);
        var r := "m\U{B2}" + rest;
        assert forall i :: 2 <= i < |r| ==> r[i] == rest[i - 2];
      } else {
        ReplaceM2NoM2(s[1..]);
        var rest := ReplaceM2(s[1..]);
        var r := [s[0]] + rest;
        assert forall i :: 1 <= i < |r| ==> r[i] == rest[i - 1];
        assert |rest| > 0 ==> rest[0] == s[1] || (IsM(s[1]) && rest[0] == 'm') || (s[1] == '2' && rest[0] == '\U{B2}');
      }
    }
  }

  /** `replace(/\s+/g, ' ')`: every maximal run of whitespace becomes one space; `inRun` says that
    * the character before `s` was already part of such a run. */
  function CollapseSpaces(s: string, inRun: bool): (r: string)
    ensures inRun ==> r == [] || r[0] != ' '
    ensures !inRun ==> (s == [] <==> r == []) && (s != [] ==> r[0] == (if IsJsSpace(s[0]) then ' ' else s[0]))
    ensures SingleSpaced(r)
    decreases |s|
  {
    if s == [] then []
    else if !IsJsSpace(s[0]) then [s[0]] + CollapseSpaces(s[1..], false)
    else if inRun then CollapseSpaces(s[1..], true)
    else [' '] + CollapseSpaces(s[1..], true)
  }

  lemma {:induction false} NoM2Tail(s: string)
    requires NoM2(s) && s != []
    ensures NoM2(s[1..])
  {
    forall i | 0 <= i < |s[1..]| - 1
      ensures !(IsM(s[1..][i]) && s[1..][i + 1] == '2')
    {
      assert s[1..][i] == s[i + 1] && s[1..][i + 1] == s[i + 2];
    }
  }

  /** Collapsing whitespace cannot bring an `m` next to a `2`: it only shortens runs of whitespace. */
  lemma {:induction false} CollapseSpacesKeepsNoM2(s: string, inRun: bool)
    requires NoM2(s)
    ensures NoM2(CollapseSpaces(s, inRun))
    decreases |s|
  {
    if s != [] {
      NoM2Tail(s);
      if !IsJsSpace(s[0]) {
        CollapseSpacesKeepsNoM2(s[1..], false);
        var rest := CollapseSpaces(s[1..], false);
        var r := [s[0]] + rest;
        assert forall i :: 1 <= i < |r| ==> r[i] == rest[i - 1];
        assert |rest| > 0 ==> rest[0] == ' ' || rest[0] == s[1];
      } else if inRun {
        CollapseSpacesKeepsNoM2(s[1..], true);
      } else {
        CollapseSpacesKeepsNoM2(s[1..], true);
        var rest := CollapseSpaces(s[1..], true);
        var r := [' '] + rest;
        assert forall i :: 1 <= i < |r| ==> r[i] == rest[i - 1];
      }
    }
  }

  /** Both properties survive cutting characters off either end. */
  lemma {:induction false} SliceKeeps(s: string, a: nat, b: nat)
    requires a <= b <= |s|
    ensures NoM2(s) ==> NoM2(s[a..b])
    ensures SingleSpaced(s) ==> SingleSpaced(s[a..b])
  {
    assert forall i :: 0 <= i < b - a ==> s[a..b][i] == s[a + i];
  }

  lemma {:induction false} TrimKeeps(s: string)
    ensures NoM2(s) ==> NoM2(Trim(s))
    ensures SingleSpaced(s) ==> SingleSpaced(Trim(s))
    ensures s != [] && !IsJsSpace(s[0]) ==> Trim(s) != []
  {
    var a := StripStart(s, IsJsSpace);
    var r := StripEnd(a, IsJsSpace);
    SliceKeeps(s, |s| - |a|, |s|);
    SliceKeeps(a, 0, |r|);
    if s != [] && !IsJsSpace(s[0]) {
      StripStartFixed(s, IsJsSpace);
    }
  }

  /** `/^pi[eè]ces?$/iu`: `piece`, `pièce`, `pieces` or `pièces`, in any letter case (`ſ`, the long s,
    * matches `s` under Unicode case folding). */
  predicate IsPieceWord(s: string) {
    (|s| == 5 || |s| == 6)
    && Lower(s[0]) == 'p' && Lower(s[1]) == 'i' && (Lower(s[2]) == 'e' || Lower(s[2]) == '\U{E8}')
    && Lower(s[3]) == 'c' && Lower(s[4]) == 'e'
    && (|s| == 6 ==> Lower(s[5]) == 's' || s[5] == '\U{17F}')
  }

  /** `/^m²$/iu`. */
  predicate IsSquareMetreWord(s: string) {
    |s| == 2 && IsM(s[0]) && s[1] == '\U{B2}'
  }

  const SquareMetre: string := "m\U{B2}"
  const Piece: string := "Pi\U{E8}ce"

  /** js/app.js normaliseUnitLabel. */
  function NormaliseUnitLabel(unit: string): string {
    var value := Trim(unit);
    if value == "" then ""
    else if IsDigitCode(value) then (if value == "3" then SquareMetre else Piece)
    else
      var normalised := Trim(CollapseSpaces(ReplaceM2(value), false));
      if IsPieceWord(normalised) then Piece
      else if IsSquareMetreWord(normalised) then SquareMetre
      else normalised
  }

  /** A unit that is not a digit code comes out non-empty, trimmed, with single spaces for its
    * whitespace and with no `m2` left in any letter case; a blank one comes out empty. */
  lemma {:induction false} NormaliseUnitLabelShape(unit: string)
    ensures Trim(unit) == "" <==> NormaliseUnitLabel(unit) == ""
    ensures IsDigitCode(Trim(unit)) ==> NormaliseUnitLabel(unit) == (if Trim(unit) == "3" then SquareMetre else Piece)
    ensures !IsDigitCode(Trim(unit)) ==>
      var r := NormaliseUnitLabel(unit);
      NoM2(r) && SingleSpaced(r) && IsTrimmed(r)
  {
    var value := Trim(unit);
    if value != "" && !IsDigitCode(value) {
      TrimIsTrimmed(unit);
      CleanedUnitShape(value);
      FixedLabelsShape();
      var normalised := Trim(CollapseSpaces(ReplaceM2(value), false));
      assert NormaliseUnitLabel(unit) in {Piece, SquareMetre, normalised};
    }
  }

  /** A label with no whitespace and no `2` is trimmed, single-spaced and free of `m2`. */
  lemma {:induction false} PlainLabelShape(s: string)
    requires forall i :: 0 <= i < |s| ==> !IsJsSpace(s[i]) && s[i] != '2'
    ensures NoM2(s) && SingleSpaced(s) && IsTrimmed(s)
  {
  }

  /** The two fixed labels `m²` and `Pièce` have the shape of a normalised unit. */
  lemma {:induction false} FixedLabelsShape()
    ensures NoM2(SquareMetre) && SingleSpaced(SquareMetre) && IsTrimmed(SquareMetre)
    ensures NoM2(Piece) && SingleSpaced(Piece) && IsTrimmed(Piece)
  {
    assert |SquareMetre| == 2 && SquareMetre[0] == 'm' && SquareMetre[1] == '\U{B2}';
    assert !IsJsSpace('m') && !IsJsSpace('\U{B2}');
    PlainLabelShape(SquareMetre);
    assert |Piece| == 5 && Piece[0] == 'P' && Piece[1] == 'i' && Piece[2] == '\U{E8}' && Piece[3] == 'c' && Piece[4] == 'e';
    assert !IsJsSpace('P') && !IsJsSpace('i') && !IsJsSpace('\U{E8}') && !IsJsSpace('c') && !IsJsSpace('e');
    PlainLabelShape(Piece);
  }

  /** The spelling clean-up on a trimmed, non-empty unit keeps it non-empty and leaves it
    * trimmed, single-spaced and free of `m2`. */
  lemma {:induction false} CleanedUnitShape(value: string)
    requires value != "" && IsTrimmed(value)
    ensures var r := Trim(CollapseSpaces(ReplaceM2(value), false));
      r != "" && NoM2(r) && SingleSpaced(r) && IsTrimmed(r)
  {
    var replaced := ReplaceM2(value);
    ReplaceM2NoM2(value);
    var collapsed := CollapseSpaces(replaced, false);
    CollapseSpacesKeepsNoM2(replaced, false);
    assert !IsJsSpace(value[0]);
    assert !IsJsSpace(replaced[0]);
    TrimKeeps(collapsed);
    TrimIsTrimmed(collapsed);
  }

  /** js/app.js getQuantityMode: a unit mentioning `m2` or `m²` (in any letter case) is measured by
    * area, any other one by the piece. */
  function GetQuantityMode(unit: string): QuantityMode {
    if unit == "" then Unit
    else
      var lowered := LowerStr(unit);
      if Contains(lowered, "m2") || Contains(lowered, "m\U{B2}") then Area else Unit
  }

  /** Some `m` or `M` is directly followed by `2` or `²`. */
  predicate HasAreaMark(s: string) {
    exists i :: 0 <= i < |s| - 1 && IsM(s[i]) && (s[i + 1] == '2' || s[i + 1] == '\U{B2}')
  }

  lemma {:induction false} LowerIs(c: char, d: char)
    requires d == 'm' || d == '2' || d == '\U{B2}'
    ensures Lower(c) == d <==> (if d == 'm' then IsM(c) else c == d)
  {
  }

  /** The quantity mode is `area` exactly when the unit holds an area mark. */
  lemma {:induction false} QuantityModeByMark(unit: string)
    ensures GetQuantityMode(unit) == Area <==> HasAreaMark(unit)
  {
    if HasAreaMark(unit) {
      MarkGivesArea(unit);
    }
    if GetQuantityMode(unit) == Area {
      AreaHasMark(unit);
    }
  }

  lemma {:induction false} MarkGivesArea(unit: string)
    requires HasAreaMark(unit)
    ensures GetQuantityMode(unit) == Area
  {
    var lowered := LowerStr(unit);
    var i :| 0 <= i < |unit| - 1 && IsM(unit[i]) && (unit[i + 1] == '2' || unit[i + 1] == '\U{B2}');
    var needle := if unit[i + 1] == '2' then "m2" else "m\U{B2}";
    LowerIs(unit[i], 'm');
    LowerIs(unit[i + 1], needle[1]);
    assert lowered[i..i + 2] == needle;
    assert OccursAt(lowered, needle, i);
  }

  lemma {:induction false} AreaHasMark(unit: string)
    requires GetQuantityMode(unit) == Area
    ensures HasAreaMark(unit)
  {
    var lowered := LowerStr(unit);
    var needle := if Contains(lowered, "m2") then "m2" else "m\U{B2}";
    assert |needle| == 2 && Contains(lowered, needle);
    var i :| 0 <= i <= |lowered| && OccursAt(lowered, needle, i);
    var pair := lowered[i..i + 2];
    assert pair[0] == Lower(unit[i]) && pair[1] == Lower(unit[i + 1]);
    LowerIs(unit[i], 'm');
    LowerIs(unit[i + 1], needle[1]);
    assert IsM(unit[i]) && (unit[i + 1] == '2' || unit[i + 1] == '\U{B2}');
  }

  /** js/app.js resolveUnitInfo. */
  function ResolveUnitInfo(raw: Option<string>): (r: UnitInfo)
    ensures CleanCsvValue(raw) == "" ==> r == UnitInfo("", Unit)
    ensures CleanCsvValue(raw) == "3" ==> r == UnitInfo(SquareMetre, Area)
    ensures IsDigitCode(CleanCsvValue(raw)) && CleanCsvValue(raw) != "3" ==> r == UnitInfo(Piece, Unit)
    ensures CleanCsvValue(raw) != "" && !IsDigitCode(CleanCsvValue(raw)) ==> r.unitLabel == NormaliseUnitLabel(CleanCsvValue(raw))
  {
    var cleaned := CleanCsvValue(raw);
    if cleaned == "" then UnitInfo("", Unit)
    else if IsDigitCode(cleaned) then (if cleaned == "3" then UnitInfo(SquareMetre, Area) else UnitInfo(Piece, Unit))
    else
      var unitLabel := NormaliseUnitLabel(cleaned);
      UnitInfo(unitLabel, GetQuantityMode(unitLabel))
  }

  /** In every case the mode is the one `getQuantityMode` gives for the label. */
  lemma {:induction false} ResolveUnitInfoMode(raw: Option<string>)
    ensures ResolveUnitInfo(raw).mode == GetQuantityMode(ResolveUnitInfo(raw).unitLabel)
  {
    assert HasAreaMark(SquareMetre) by {
      assert IsM(SquareMetre[0]) && SquareMetre[1] == '\U{B2}';
    }
    QuantityModeByMark(SquareMetre);
    assert !HasAreaMark(Piece) by {
      assert forall i :: 0 <= i < |Piece| ==> !IsM(Piece[i]);
    }
    QuantityModeByMark(Piece);
  }

  /** A non-numeric unit label has no `m2` left in any letter case, single spaces only, and no
    * whitespace at either end. */
  lemma {:induction false} ResolveUnitInfoLabel(raw: Option<string>)
    ensures !IsDigitCode(CleanCsvValue(raw)) ==>
      var unitLabel := ResolveUnitInfo(raw).unitLabel;
      NoM2(unitLabel) && SingleSpaced(unitLabel) && IsTrimmed(unitLabel)
  {
    var cleaned := CleanCsvValue(raw);
    if cleaned != "" && !IsDigitCode(cleaned) {
      NormaliseUnitLabelShape(cleaned);
      TrimmedIsFixed(cleaned);
    }
  }

  // ---------------------------------------------------------------------------------------------
  // Scores, unit labels for display and filtering

  /** The environmental scores a product may carry. */
  predicate IsGrade(s: string) {
    s == "A" || s == "B" || s == "C" || s == "D" || s == "E"
  }

  /** js/app.js normaliseScoreValue: the cleaned, upper-cased value when it is one of `A`–`E`, and
    * the empty string for anything else. */
  function NormaliseScoreValue(v: Option<string>): (r: string)
    ensures IsGrade(r) || r == ""
    ensures r != "" <==> IsGrade(UpperStr(CleanCsvValue(v)))
    ensures r != "" ==> r == UpperStr(CleanCsvValue(v))
  {
    var cleaned := UpperStr(CleanCsvValue(v));
    if IsGrade(cleaned) then cleaned else ""
  }

  /** A one-letter cell that is not whitespace is already clean. */
  lemma {:induction false} CleanLetter(c: char)
    requires !IsJsSpace(c)
    ensures CleanCsvValue(Some([c])) == [c]
  {
    assert IsTrimmed([c]) && |UpperStr([c])| == 1;
    CleanOfClean([c]);
  }

  lemma {:induction false} UpperLetter(c: char)
    ensures UpperStr([c]) == [Upper(c)]
  {
    assert UpperStr([c])[0] == Upper(c);
  }

  /** The score of a clean cell is its upper-case form when that is a grade. */
  lemma {:induction false} ScoreOfCell(s: string, up: string)
    requires CleanCsvValue(Some(s)) == s && UpperStr(s) == up
    ensures NormaliseScoreValue(Some(s)) == (if IsGrade(up) then up else "")
  {
  }

  /** A normalised score normalises to itself. */
  lemma {:induction false} NormaliseScoreIdempotent(v: Option<string>)
    ensures NormaliseScoreValue(Some(NormaliseScoreValue(v))) == NormaliseScoreValue(v)
  {
    var r := NormaliseScoreValue(v);
    if r != "" {
      assert r == [r[0]] && IsAsciiUpper(r[0]) && !IsJsSpace(r[0]);
      CleanLetter(r[0]);
      UpperLetter(r[0]);
      ScoreOfCell(r, r);
    } else {
      assert CleanCsvValue(Some(r)) == "" by {
        assert Trim(r) == "";
      }
      assert UpperStr(r) == r;
      ScoreOfCell(r, r);
    }
  }

  /** An unknown grade is dropped and a lower-case one is raised: `b` gives `B`, `F` gives nothing. */
  lemma {:induction false} NormaliseScoreExamples()
    ensures NormaliseScoreValue(Some("b")) == "B"
    ensures NormaliseScoreValue(Some("F")) == ""
  {
    CleanLetter('b');
    UpperLetter('b');
    assert Upper('b') == 'B';
    ScoreOfCell("b", "B");
    CleanLetter('F');
    UpperLetter('F');
    assert Upper('F') == 'F';
    ScoreOfCell("F", "F");
  }

  const UnitFilterAll: string := "__all__"
  const UnitFilterNone: string := "__none__"

  /** js/app.js formatUnitLabel: what the catalogue shows for a product's unit. */
  function FormatUnitLabel(unit: string): (r: string)
    ensures r != ""
    ensures unit != "" ==> r == unit
  {
    if unit == "" then "\U{C0} l'unit\U{E9}" else unit
  }

  /** js/app.js getUnitFilterValue: the value of the unit filter option a product belongs to. */
  function UnitFilterValue(unit: string): (r: string)
    ensures r != ""
    ensures r == UnitFilterNone <==> unit == "" || unit == UnitFilterNone
  {
    if unit == "" then UnitFilterNone else unit
  }

  // ---------------------------------------------------------------------------------------------
  // formatCategoryLabel

  /** `/^[A-Z0-9]+$/`: a code in capitals, shown as it is. */
  predicate IsUpperCode(s: string) {
    |s| > 0 && forall i :: 0 <= i < |s| ==> IsAsciiUpper(s[i]) || IsAsciiDigit(s[i])
  }

  predicate IsDash(c: char) { c == '_' || c == '-' }

  /** `replace(/[_-]+/g, ' ')`. */
  function DashesToSpace(s: string, inRun: bool): (r: string)
    ensures forall c :: c in r ==> !IsDash(c) && (c in s || c == ' ')
    decreases |s|
  {
    if s == [] then []
    else if !IsDash(s[0]) then [s[0]] + DashesToSpace(s[1..], false)
    else if inRun then DashesToSpace(s[1..], true)
    else [' '] + DashesToSpace(s[1..], true)
  }

  /** `filter(Boolean)`. */
  function NonEmptyWords(ws: seq<string>): (r: seq<string>)
    ensures forall k :: 0 <= k < |r| ==> r[k] != "" && r[k] in ws
    decreases |ws|
  {
    if ws == [] then []
    else (if ws[0] != "" then [ws[0]] else []) + NonEmptyWords(ws[1..])
  }

  /** `word.charAt(0).toUpperCase() + word.slice(1).toLowerCase()`. */
  function Capitalise(w: string): (r: string)
    ensures |r| == |w|
  {
    if w == [] then [] else [Upper(w[0])] + LowerStr(w[1..])
  }

  function CapitaliseAll(ws: seq<string>): (r: seq<string>)
    ensures |r| == |ws| && forall k :: 0 <= k < |ws| ==> r[k] == Capitalise(ws[k])
  {
    seq(|ws|, k requires 0 <= k < |ws| => Capitalise(ws[k]))
  }

  /** `join(' ')`. */
  function JoinWords(ws: seq<string>): string
    decreases |ws|
  {
    if ws == [] then "" else if |ws| == 1 then ws[0] else ws[0] + " " + JoinWords(ws[1..])
  }

  /** js/app.js formatCategoryLabel. */
  function FormatCategoryLabel(category: string): string {
    var trimmed := Trim(category);
    if trimmed == "" then "Divers"
    else if IsUpperCode(trimmed) then trimmed
    else JoinWords(CapitaliseAll(NonEmptyWords(SplitOn(DashesToSpace(trimmed, false), ' '))))
  }

  /** Neither `_` nor `-`, words separated by single spaces and no space at either end. */
  predicate IsLabelText(s: string) {
    (forall i :: 0 <= i < |s| ==> !IsDash(s[i]))
    && (forall i :: 0 <= i < |s| - 1 ==> !(s[i] == ' ' && s[i + 1] == ' '))
    && (s == [] || (s[0] != ' ' && s[|s| - 1] != ' '))
  }

  predicate IsWordChar(c: char) { c != ' ' && !IsDash(c) }

  lemma {:induction false} CapitaliseKeeps(w: string)
    requires forall c :: c in w ==> IsWordChar(c)
    ensures forall c :: c in Capitalise(w) ==> IsWordChar(c)
  {
    if w != [] {
      var r := Capitalise(w);
      forall c | c in r ensures IsWordChar(c) {
        var i :| 0 <= i < |r| && r[i] == c;
        assert w[i] in w;
        CaseKeepsWordChar(w[i]);
        if i == 0 { assert c == Upper(w[0]); } else { assert c == LowerStr(w[1..])[i - 1] == Lower(w[i]); }
      }
    }
  }

  /** Changing the case of a letter never yields a space, `_` or `-`. */
  lemma {:induction false} CaseKeepsWordChar(c: char)
    requires IsWordChar(c)
    ensures IsWordChar(Upper(c)) && IsWordChar(Lower(c))
  {
  }

  lemma {:induction false} JoinWordsIsLabel(ws: seq<string>)
    requires forall k :: 0 <= k < |ws| ==> ws[k] != "" && forall c :: c in ws[k] ==> IsWordChar(c)
    ensures IsLabelText(JoinWords(ws))
    ensures ws != [] ==> JoinWords(ws) != [] && JoinWords(ws)[0] == ws[0][0]
    decreases |ws|
  {
    if |ws| == 1 {
      assert forall i :: 0 <= i < |ws[0]| ==> ws[0][i] in ws[0];
    } else if |ws| > 1 {
      JoinWordsIsLabel(ws[1..]);
      var w := ws[0];
      var rest := JoinWords(ws[1..]);
      var r := w + " " + rest;
      assert rest[0] == ws[1][0] && ws[1][0] in ws[1];
      assert forall i :: 0 <= i < |w| ==> r[i] == w[i] && w[i] in w;
      assert r[|w|] == ' ';
      assert forall i :: |w| < i < |r| ==> r[i] == rest[i - |w| - 1];
      assert r[|r| - 1] == rest[|rest| - 1];
    }
  }

  /** What formatCategoryLabel returns never holds `_` or `-`, and is words separated by single
    * spaces; a blank category is shown as `Divers`. */
  lemma {:induction false} FormatCategoryLabelShape(category: string)
    ensures IsLabelText(FormatCategoryLabel(category))
    ensures Trim(category) == "" ==> FormatCategoryLabel(category) == "Divers"
  {
    var trimmed := Trim(category);
    if trimmed == "" {
      assert IsLabelText("Divers");
    } else if IsUpperCode(trimmed) {
      assert IsLabelText(trimmed);
    } else {
      var cleaned := DashesToSpace(trimmed, false);
      var pieces := SplitOn(cleaned, ' ');
      SplitAccPieces("", cleaned, ' ', c => !IsDash(c));
      var words := NonEmptyWords(pieces);
      var caps := CapitaliseAll(words);
      forall k | 0 <= k < |caps|
        ensures caps[k] != "" && forall c :: c in caps[k] ==> IsWordChar(c)
      {
        CapitaliseKeeps(words[k]);
      }
      JoinWordsIsLabel(caps);
    }
  }
}
