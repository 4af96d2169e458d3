/**
 How parsing, the accessors and the sort key fit together: what a parsed
 record reads back as, how a write shows up in the key, and the worked
 examples.
 */
module Scenarios {
  import opened Php
  import opened CallNumbers
  import opened Normalizer
  import opened Parser
  import opened Accessors

  /** A parse that reached cutter 1 reads back letters, cutter 1 and the
      number exactly as the slots spelled them, the number carrying the dot
      and the fraction slot even when that slot is "". */
  lemma ParsedFieldsReadBack(m: seq<string>)
    requires Present(m, Cutter1DigitsSlot)
    ensures Get(Parse(m), "letters") == Ok(Str(m[LettersSlot]))
    ensures Get(Parse(m), "number") == Ok(Str(m[WholeSlot] + "." + m[FractionSlot]))
    ensures Get(Parse(m), "cutter_1") == Ok(Str(m[Cutter1LetterSlot] + m[Cutter1DigitsSlot]))
    ensures Get(Parse(m), "class_year") == Ok(Str(m[ClassYearSlot]))
  {
    var r := Parse(m);
    assert r.letters == Str(m[LettersSlot]);
    assert r.number == Str(m[WholeSlot] + "." + m[FractionSlot]);
    assert r.cutter1 == Str(m[Cutter1LetterSlot] + m[Cutter1DigitsSlot]);
    assert r.classYear == Str(m[ClassYearSlot]);
  }

  /** A cutter whose slots were not both matched reads back `false`, never
      as a letter without digits. Its digits slot comes after its letter
      slot, so a missing digits slot is enough. */
  lemma MissingCutterReadsFalse(m: seq<string>)
    ensures !Present(m, Cutter1DigitsSlot) ==> Get(Parse(m), "cutter_1") == Ok(False)
    ensures !Present(m, Cutter2DigitsSlot) ==> Get(Parse(m), "cutter_2") == Ok(False)
    ensures !Present(m, Cutter3DigitsSlot) ==> Get(Parse(m), "cutter_3") == Ok(False)
  {
  }

  /** The key reflects the fields at the time it is computed: after a new
      number is written, the number columns are those of the new value and
      every other column is as before. */
  lemma SetNumberRenormalizes(r: CallNumber, v: Value)
    ensures var w := Max(LettersWidth, |AsString(r.letters)|);
      var key := Normalize(r);
      Normalize(Set(r, "number", v)) == key[..w] + NormalizeNumber(v) + key[w + 10..]
  {
    var r' := Set(r, "number", v);
    assert r' == r.(number := v);
    var l := PadRight(AsString(r.letters), LettersWidth);
    var tail := KeyTail(r);
    assert KeyTail(r') == tail;
    KeyAroundNumber(r);
    KeyAroundNumber(r');
    AroundMiddle(l, NormalizeNumber(r.number), tail);
  }

  /** The columns after the number: class year, cutters, remainder. */
  function KeyTail(r: CallNumber): string
  {
    Segment(r.classYear) + NormalizeCutters(r) + Segment(r.remainder)
  }

  /** The key is the letters column, the number columns, then the rest. */
  lemma KeyAroundNumber(r: CallNumber)
    ensures Normalize(r)
      == PadRight(AsString(r.letters), LettersWidth) + NormalizeNumber(r.number) + KeyTail(r)
  {
    Regroup(PadRight(AsString(r.letters), LettersWidth), NormalizeNumber(r.number),
      Segment(r.classYear), NormalizeCutters(r), Segment(r.remainder));
  }

  lemma Regroup(l: string, n: string, y: string, c: string, m: string)
    ensures l + n + y + c + m == l + n + (y + c + m)
  {
  }

  /** The outer parts of `l + n + t` read back, for a ten-character `n`. */
  lemma AroundMiddle(l: string, n: string, t: string)
    requires |n| == 10
    ensures (l + n + t)[..|l|] == l
    ensures (l + n + t)[|l| + 10..] == t
  {
  }

  /** The record after the property writes `ws`, applied in order. */
  function Writes(r: CallNumber, ws: seq<(string, Value)>): CallNumber
    decreases |ws|
  {
    if ws == [] then r else Writes(Set(r, ws[0].0, ws[0].1), ws[1..])
  }

  /** No sequence of property writes changes the validity flag. */
  lemma {:induction false} WritesKeepFlag(r: CallNumber, ws: seq<(string, Value)>)
    ensures IsValid(Writes(r, ws)) == IsValid(r)
    decreases |ws|
  {
    if ws != [] {
      WritesKeepFlag(Set(r, ws[0].0, ws[0].1), ws[1..]);
    }
  }

  /** `isValid()` reports the validity test as it stood at the last parse,
      however many fields were written since: in terms of the slots, slot 6
      present, slot 1 starting with a capital, cutter 1 neither "" nor "0". */
  lemma IsValidReportsParse(m: seq<string>, ws: seq<(string, Value)>)
    ensures IsValid(Writes(Parse(m), ws)) <==>
      && Present(m, Cutter1DigitsSlot)
      && StartsWithCapital(m[LettersSlot])
      && m[Cutter1LetterSlot] + m[Cutter1DigitsSlot] != ""
      && m[Cutter1LetterSlot] + m[Cutter1DigitsSlot] != "0"
  {
    WritesKeepFlag(Parse(m), ws);
    ParseValidIff(m);
  }

  /** The validity flag is cached: blanking the letters of a valid record
      does not make `isValid()` false, although the fields would no longer
      pass the test. */
  lemma ValidityIsCached()
    ensures var r := Set(Parse(ExampleSlots), "letters", False);
      IsValid(r) && !ValidFields(r.letters, r.number, r.cutter1)
  {
  }

  /** A freshly constructed object: not valid, the four plain properties
      read `null`, every cutter reads `false`, and the key is all fillers. */
  lemma FreshObject()
    ensures !IsValid(Unparsed)
    ensures Get(Unparsed, "letters") == Ok(Null)
    ensures Get(Unparsed, "number") == Ok(Null)
    ensures Get(Unparsed, "class_year") == Ok(Null)
    ensures Get(Unparsed, "remainder") == Ok(Null)
    ensures Get(Unparsed, "cutter_1") == Ok(False)
    ensures Get(Unparsed, "cutter_2") == Ok(False)
    ensures Get(Unparsed, "cutter_3") == Ok(False)
    ensures Normalize(Unparsed) == Spaces(38)
  {
    FreshRecordNormalizesToSpaces();
  }

  /** Letters written through the accessor pass the capital-letter test
      exactly when they start with an ASCII letter of either case. */
  lemma SetLettersCapital(r: CallNumber, v: Value)
    ensures var s := AsString(v);
      StartsWithCapital(AsString(Set(r, "letters", v).letters)) <==>
        |s| > 0 && ('A' <= s[0] <= 'Z' || 'a' <= s[0] <= 'z')
  {
  }

  /** "HD1691 .A59" end to end: valid, and its key, column by column:
      letters, integer and fractional halves, class year, three cutters,
      remainder. */
  lemma ExampleKey()
    ensures IsValid(Parse(ExampleSlots))
    ensures Normalize(Parse(ExampleSlots)) == ExampleKeyColumns
  {
    ExampleParse();
    var r := CallNumber(Str("HD"), Str("1691."), Str(""), Str("A59"), False, False, False, true);
    assert Parse(ExampleSlots) == r;
    ExampleColumns();
  }

  const ExampleKeyColumns: string :=
    "HD " + (" 1691" + "     ") + "     " + ("A59  " + "     " + "     ") + "     "

  lemma ExampleColumns()
    ensures Normalize(CallNumber(Str("HD"), Str("1691."), Str(""), Str("A59"), False, False, False, true))
      == ExampleKeyColumns
  {
    ExampleLettersColumn();
    ExampleNumberColumns();
    ExampleCutterColumns();
    ExampleBlankColumns();
  }

  lemma ExampleLettersColumn()
    ensures PadRight("HD", LettersWidth) == "HD "
  {
  }

  lemma ExampleBlankColumns()
    ensures Segment(Str("")) == "     "
    ensures Segment(False) == "     "
  {
  }

  lemma ExampleNumberColumns()
    ensures NormalizeNumber(Str("1691.")) == " 1691" + "     "
  {
    ExampleSplit();
    ExampleWholeColumn();
    ExampleBlankFraction();
  }

  lemma ExampleSplit()
    ensures SplitNumber("1691.") == ("1691", "")
  {
    SplitNumberJoined("1691", "", "");
    assert "1691" + "." + "" == "1691.";
  }

  lemma ExampleWholeColumn()
    ensures LeftColumn("1691") == " 1691"
  {
  }

  lemma ExampleBlankFraction()
    ensures RightColumn("") == "     "
  {
  }

  lemma ExampleCutterColumns()
    ensures NormalizeCutters(CallNumber(Str("HD"), Str("1691."), Str(""), Str("A59"), False, False, False, true))
      == "A59  " + "     " + "     "
  {
    assert Segment(Str("A59")) == "A59  ";
    ExampleBlankColumns();
  }

  /** The empty input does not match: invalid, with a key of 38 fillers. */
  lemma EmptyInput()
    ensures !IsValid(Parse([]))
    ensures Normalize(Parse([])) == Spaces(38)
  {
    AbsentFieldsNormalizeToSpaces(Parse([]));
  }

  /** Reading an unknown property, such as "foo", fails. */
  lemma UnknownPropertyFails(r: CallNumber)
    ensures Get(r, "foo") == Err("foo is not a LCCN property")
  {
    FooIsUnknown();
  }

  lemma FooIsUnknown()
    ensures FieldNamed("foo") == Unknown("foo")
  {
  }
}
