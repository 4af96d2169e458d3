/**
 The state of one `LCCallNumber` object: the seven fields that parsing fills
 in and the accessors read and write, plus the validity flag that parsing
 caches.
 */
module CallNumbers {
  import opened Php

  /** One call-number record. The three cutters live in the object's
      `_cutters` array under keys 1, 2 and 3; a key that was never assigned
      reads exactly like one holding `null`, so `Null` stands for both. */
  datatype CallNumber = CallNumber(
    letters: Value,
    number: Value,
    classYear: Value,
    cutter1: Value,
    cutter2: Value,
    cutter3: Value,
    remainder: Value,
    valid: bool)

  /** A freshly constructed object: no field assigned, not valid. */
  const Unparsed: CallNumber :=
    CallNumber(Null, Null, Null, Null, Null, Null, Null, false)

  /** The cutter slots in shelf order, cutter 1 first. */
  function Cutters(r: CallNumber): seq<Value>
  {
    [r.cutter1, r.cutter2, r.cutter3]
  }

  /** `isValid()`: the flag computed by the last parse; setting a field
      afterwards does not recompute it. */
  predicate IsValid(r: CallNumber)
  {
    r.valid
  }
}
