/**
 The magic accessors `__get` and `__set`: the seven property names map onto
 the record's fields; any other name is an `Unknown` field. Reading an
 unknown name throws, while writing one is silently ignored, since the
 setter's `switch` has no default branch.
 */
module Accessors {
  import opened Php
  import opened CallNumbers

  /** Which cutter, 1 to 3. */
  type CutterIndex = k: int | 1 <= k <= 3 witness 1

  /** A property name as the accessors see it. */
  datatype Field = Letters | Number | ClassYear | Remainder | Cutter(k: CutterIndex) | Unknown(name: string)

  /** The names the accessors recognise. */
  const KnownNames: set<string> :=
    {"letters", "number", "class_year", "remainder", "cutter_1", "cutter_2", "cutter_3"}

  /** The `switch ($name)` of both accessors. */
  function FieldNamed(name: string): (f: Field)
    ensures f.Unknown? <==> name !in KnownNames
    ensures f.Unknown? ==> f.name == name
  {
    match name
    case "letters" => Letters
    case "number" => Number
    case "class_year" => ClassYear
    case "remainder" => Remainder
    case "cutter_1" => Cutter(1)
    case "cutter_2" => Cutter(2)
    case "cutter_3" => Cutter(3)
    case _ => Unknown(name)
  }

  /** The property name of a known field. */
  function NameOf(f: Field): string
  {
    match f
    case Letters => "letters"
    case Number => "number"
    case ClassYear => "class_year"
    case Remainder => "remainder"
    case Cutter(k) => if k == 1 then "cutter_1" else if k == 2 then "cutter_2" else "cutter_3"
    case Unknown(name) => name
  }

  /** Names and fields are in one-to-one correspondence. */
  lemma FieldNamedRoundTrip(f: Field, name: string)
    ensures !f.Unknown? ==> FieldNamed(NameOf(f)) == f
    ensures FieldNamed(name).Unknown? || NameOf(FieldNamed(name)) == name
  {
  }

  /** A read either yields a value or fails with the exception's message. */
  datatype Result<T> = Ok(value: T) | Err(message: string)

  function CutterValue(r: CallNumber, k: CutterIndex): Value
  {
    if k == 1 then r.cutter1 else if k == 2 then r.cutter2 else r.cutter3
  }

  /** `__get($name)`. Letters, number, class year and remainder come back as
      stored (`null` on a fresh object); a cutter comes back as stored unless
      it fails `isset`, in which case it reads `false`; any other name throws
      "<name> is not a LCCN property". */
  function Get(r: CallNumber, name: string): (res: Result<Value>)
    ensures res.Err? <==> name !in KnownNames
    ensures res.Err? ==> res.message == name + " is not a LCCN property"
    ensures name == "letters" ==> res == Ok(r.letters)
    ensures name == "number" ==> res == Ok(r.number)
    ensures name == "class_year" ==> res == Ok(r.classYear)
    ensures name == "remainder" ==> res == Ok(r.remainder)
    ensures name == "cutter_1" ==> res == Ok(if IsSet(r.cutter1) then r.cutter1 else False)
    ensures name == "cutter_2" ==> res == Ok(if IsSet(r.cutter2) then r.cutter2 else False)
    ensures name == "cutter_3" ==> res == Ok(if IsSet(r.cutter3) then r.cutter3 else False)
    ensures name in {"cutter_1", "cutter_2", "cutter_3"} ==> res.Ok? && res.value != Null
  {
    match FieldNamed(name)
    case Letters => Ok(r.letters)
    case Number => Ok(r.number)
    case ClassYear => Ok(r.classYear)
    case Remainder => Ok(r.remainder)
    case Cutter(k) =>
      var c := CutterValue(r, k);
      Ok(if IsSet(c) then c else False)
    case Unknown(_) => Err(name + " is not a LCCN property")
  }

  /** `__set($name, $value)`. Letters are stored upper-cased (a `null` or
      `false` value becomes ""), every other known field is stored verbatim,
      an unknown name leaves the record as it was, and the cached validity
      flag is never touched. */
  function Set(r: CallNumber, name: string, v: Value): (r': CallNumber)
    ensures name !in KnownNames ==> r' == r
    ensures r'.valid == r.valid
    ensures name == "letters" ==> r' == r.(letters := Str(ToUpper(AsString(v))))
  {
    match FieldNamed(name)
    case Letters => r.(letters := Str(ToUpper(AsString(v))))
    case Number => r.(number := v)
    case ClassYear => r.(classYear := v)
    case Remainder => r.(remainder := v)
    case Cutter(k) =>
      if k == 1 then r.(cutter1 := v)
      else if k == 2 then r.(cutter2 := v)
      else r.(cutter3 := v)
    case Unknown(_) => r
  }

  /** What reading a field gives right after `v` was written to it. */
  function StoredAs(name: string, v: Value): Value
  {
    if name == "letters" then Str(ToUpper(AsString(v)))
    else if name in {"cutter_1", "cutter_2", "cutter_3"} && !IsSet(v) then False
    else v
  }

  /** Reading back what was written: letters come back upper-cased, a
      cutter written as `null` comes back `false`, and every other value
      comes back unchanged. */
  lemma GetAfterSet(r: CallNumber, name: string, v: Value)
    requires name in KnownNames
    ensures Get(Set(r, name, v), name) == Ok(StoredAs(name, v))
  {
  }

  /** Writing one field leaves every other field's reading as it was. */
  lemma SetLeavesOtherFields(r: CallNumber, name: string, other: string, v: Value)
    requires name != other
    ensures Get(Set(r, name, v), other) == Get(r, other)
  {
  }

  /** Reading an unknown name fails whatever was written before, and writing
      one changes nothing a later read could see. */
  lemma UnknownNames(r: CallNumber, name: string, v: Value, other: string)
    requires name !in KnownNames
    ensures Get(r, name).Err?
    ensures Get(Set(r, name, v), other) == Get(r, other)
  {
  }

  /** Letters read back never hold a lower-case ASCII letter, and writing
      back what was read leaves the record unchanged. */
  lemma LettersStayUpperCase(r: CallNumber, v: Value)
    ensures var r' := Set(r, "letters", v);
      && (forall i :: 0 <= i < |r'.letters.s| ==> !('a' <= r'.letters.s[i] <= 'z'))
      && Set(r', "letters", Get(r', "letters").value) == r'
  {
    ToUpperCharacterises(AsString(v));
  }
}
