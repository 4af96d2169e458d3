/**
 The part of `parse()` that runs after the pattern match: turning the
 capture slots into the record's fields and computing the validity flag.

 The match itself is not modelled; its result is the input. Slot `k` is
 present (`isset`) exactly when `k < |m|`: PHP drops unmatched groups at the
 end of the list, reports unmatched groups before a matched one as "", and
 leaves the list empty when the input does not match at all.
 */
module Parser {
  import opened Php
  import opened CallNumbers

  /** Capture slots of the pattern. */
  const LettersSlot: nat := 1
  const WholeSlot: nat := 2
  const FractionSlot: nat := 3
  const ClassYearSlot: nat := 4
  const Cutter1LetterSlot: nat := 5
  const Cutter1DigitsSlot: nat := 6
  const Cutter2LetterSlot: nat := 7
  const Cutter2DigitsSlot: nat := 8
  const Cutter3LetterSlot: nat := 9
  const Cutter3DigitsSlot: nat := 10
  const RemainderSlot: nat := 11

  predicate Present(m: seq<string>, k: nat)
  {
    k < |m|
  }

  /** `isset($m[k]) ? $m[k] : false`. */
  function Slot(m: seq<string>, k: nat): (v: Value)
    ensures v.Str? <==> Present(m, k)
    ensures v.Str? ==> v.s == m[k]
    ensures !v.Str? ==> v == False
  {
    if Present(m, k) then Str(m[k]) else False
  }

  /** `_buildCutter()`: a cutter is its letter followed by its digits when
      both slots are present, and `false` as a whole otherwise; it is never
      half built. */
  function BuildCutter(m: seq<string>, letterSlot: nat, digitsSlot: nat): (v: Value)
    ensures v.Str? <==> Present(m, letterSlot) && Present(m, digitsSlot)
    ensures v.Str? ==> v.s == m[letterSlot] + m[digitsSlot]
    ensures !v.Str? ==> v == False
  {
    if Present(m, letterSlot) && Present(m, digitsSlot) then
      Str(m[letterSlot] + m[digitsSlot])
    else
      False
  }

  /** The class number: slot 2, then "." and slot 3 appended whenever slot 3
      is present, even when it holds "". A missing slot 2 reads as "" in the
      concatenation. */
  function BuildNumber(m: seq<string>): (v: Value)
    ensures Present(m, FractionSlot) ==> v == Str(m[WholeSlot] + "." + m[FractionSlot])
    ensures !Present(m, FractionSlot) ==> v == Slot(m, WholeSlot)
  {
    var whole := Slot(m, WholeSlot);
    if Present(m, FractionSlot) then Str(AsString(whole) + "." + m[FractionSlot]) else whole
  }

  /** The remainder: slot 11 with white space trimmed from both ends, or
      `false` when the slot is missing. */
  function BuildRemainder(m: seq<string>): (v: Value)
    ensures v.Str? <==> Present(m, RemainderSlot)
    ensures v.Str? ==> v.s == Trim(m[RemainderSlot])
    ensures !v.Str? ==> v == False
  {
    if Present(m, RemainderSlot) then Str(Trim(m[RemainderSlot])) else False
  }

  /** The character class `[A-Z]`. */
  const Capitals: set<char> := {
    'A', 'B', 'C', 'D', 'E', 'F', 'G', 'H', 'I', 'J', 'K', 'L', 'M',
    'N', 'O', 'P', 'Q', 'R', 'S', 'T', 'U', 'V', 'W', 'X', 'Y', 'Z'}

  /** `preg_match('/^[A-Z]/', $s)`: the first character is one of the 26
      capitals; an empty string, a lower-case or accented first letter, a
      digit or a space fails. */
  predicate StartsWithCapital(s: string): (b: bool)
    ensures b <==> |s| > 0 && s[0] in Capitals
  {
    |s| > 0 && 'A' <= s[0] <= 'Z'
  }

  /** The flag `parse()` caches: letters truthy and starting with a capital,
      number truthy, cutter 1 truthy, all in PHP's sense of truth. So all
      three are strings, none is "" or "0", and letters starts with `A`–`Z`. */
  predicate ValidFields(letters: Value, number: Value, cutter1: Value): (ok: bool)
    ensures ok <==>
      && letters !in FalsyValues && number !in FalsyValues && cutter1 !in FalsyValues
      && letters.Str? && letters.s[0] in Capitals
    ensures ok ==> letters.Str? && number.Str? && cutter1.Str?
  {
    Truthy(letters) && StartsWithCapital(AsString(letters)) && Truthy(number) && Truthy(cutter1)
  }

  /** The fields `parse()` assigns from the capture slots `m`. Every field is
      overwritten, so nothing of the record's earlier state survives. */
  function Parse(m: seq<string>): (r: CallNumber)
    ensures r.letters == Slot(m, LettersSlot)
    ensures r.classYear == Slot(m, ClassYearSlot)
    ensures r.number == BuildNumber(m)
    ensures r.number.Str? <==> Present(m, WholeSlot)
    ensures r.cutter1 == BuildCutter(m, Cutter1LetterSlot, Cutter1DigitsSlot)
    ensures r.cutter2 == BuildCutter(m, Cutter2LetterSlot, Cutter2DigitsSlot)
    ensures r.cutter3 == BuildCutter(m, Cutter3LetterSlot, Cutter3DigitsSlot)
    ensures r.remainder.Str? <==> Present(m, RemainderSlot)
    ensures r.remainder.Str? ==> r.remainder.s == Trim(m[RemainderSlot])
    ensures !Present(m, RemainderSlot) ==> r.remainder == False
    ensures r.valid == ValidFields(r.letters, r.number, r.cutter1)
    ensures forall k :: 0 <= k < 3 ==> Cutters(r)[k] != Null
  {
    var letters := Slot(m, LettersSlot);
    var number := BuildNumber(m);
    var cutter1 := BuildCutter(m, Cutter1LetterSlot, Cutter1DigitsSlot);
    var remainder := BuildRemainder(m);
    CallNumber(
      letters,
      number,
      Slot(m, ClassYearSlot),
      cutter1,
      BuildCutter(m, Cutter2LetterSlot, Cutter2DigitsSlot),
      BuildCutter(m, Cutter3LetterSlot, Cutter3DigitsSlot),
      remainder,
      ValidFields(letters, number, cutter1))
  }

  /** Validity in terms of the slots alone: at least the seven slots up to
      cutter 1's digits are present, the letters slot starts with a capital,
      and cutter 1 is neither "" nor "0". The number test then always
      passes: slot 3 is present, so the number contains a dot. */
  lemma {:induction false} ParseValidIff(m: seq<string>)
    ensures Parse(m).valid <==>
      && Present(m, Cutter1DigitsSlot)
      && StartsWithCapital(m[LettersSlot])
      && m[Cutter1LetterSlot] + m[Cutter1DigitsSlot] != ""
      && m[Cutter1LetterSlot] + m[Cutter1DigitsSlot] != "0"
  {
    var r := Parse(m);
    if Present(m, Cutter1DigitsSlot) {
      var n := m[WholeSlot] + "." + m[FractionSlot];
      assert r.number == Str(n);
      assert n[|m[WholeSlot]|] == '.';
      assert n != "" && n != "0";
    }
  }

  /** A valid parse always has a dot in its number, so a call number written
      without a decimal, such as "HD1691 .A59", reads back as "1691.". */
  lemma ValidNumberHasDot(m: seq<string>)
    requires Parse(m).valid
    ensures Parse(m).number.Str? && '.' in Parse(m).number.s
  {
    var n := m[WholeSlot] + "." + m[FractionSlot];
    assert n[|m[WholeSlot]|] == '.';
  }

  /** Input that does not match leaves every field `false` and the record
      invalid. */
  lemma NoMatch()
    ensures var r := Parse([]);
      && r == CallNumber(False, False, False, False, False, False, False, false)
      && !r.valid
  {
  }

  /** The slots reported for "HD1691 .A59": the decimal group did not take
      part (""), the class-year group did not either (""), and everything
      after cutter 1 is dropped from the end of the list. */
  const ExampleSlots: seq<string> := ["HD1691 .A59", "HD", "1691", "", "", "A", "59"]

  lemma ExampleParse()
    ensures var r := Parse(ExampleSlots);
      && r.letters == Str("HD")
      && r.number == Str("1691.")
      && r.classYear == Str("")
      && r.cutter1 == Str("A59")
      && r.cutter2 == False && r.cutter3 == False
      && r.remainder == False
      && r.valid
  {
  }

  /** "HD .A59" skips the number group, so slots 2 and 3 hold "": the
      number is a lone "." and still passes the truthiness test, so the
      record is valid. */
  lemma NumberlessIsValid()
    ensures var r := Parse(["HD .A59", "HD", "", "", "", "A", "59"]);
      r.number == Str(".") && r.cutter1 == Str("A59") && r.valid
  {
  }

  /** "HD1691 1987" matches the class-year group and no cutter: slot 3 is
      then reported as "", so the number still gets a trailing ".", and
      without cutter 1 the record is invalid. */
  lemma YearGivesTrailingDot()
    ensures var r := Parse(["HD1691 1987", "HD", "1691", "", "1987"]);
      r.number == Str("1691.") && r.classYear == Str("1987") && r.cutter1 == False && !r.valid
  {
  }

  /** "Z" alone matches only the letters group: the record has letters but
      is not valid. */
  lemma LettersOnlyIsInvalid()
    ensures var r := Parse(["Z", "Z"]);
      r.letters == Str("Z") && r.number == False && !r.valid
  {
  }
}
