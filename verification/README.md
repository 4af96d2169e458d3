# LC call numbers in Dafny

A model of `LCCallNumber`, a PHP class that splits a Library of Congress call
number into fields (class letters, class number, class year, up to three
cutters, a free-text remainder), decides whether the result is a usable call
number, and builds a fixed-width sort key from the fields.

The model covers three parts of the class:

- **The sort key** (`normalize()` and its helpers), module `Normalizer` in
  `normalizer.dfy`. The key is the letters padded to three characters, the
  number as two five-character halves (integer half right-aligned, fractional
  half left-aligned), then five-character columns for the class year, each of
  the three cutters and the remainder. Every column is cut to five
  characters and filled with spaces, the low-sort character.
- **Field extraction after the pattern match** (the second half of
  `parse()`, `_buildCutter()`), module `Parser` in `parser.dfy`. The result of
  the match is the input: a sequence of capture slots, slot `k` present
  (`isset`) exactly when `k` is below the sequence's length. PHP drops
  unmatched groups at the end of the list and reports unmatched groups before
  a matched one as "", and both behaviours are kept. So a call number
  without a decimal that still has a cutter, such as "HD1691 .A59", gets the
  number "1691.".
- **The property accessors** (`__get`, `__set`), module `Accessors` in
  `accessors.dfy`. Property names map to a `Field` enumeration with an
  `Unknown(name)` case. Reading an unknown name fails with the exception's
  message. Writing one is silently ignored, because the setter's `switch` has
  no default branch. Letters are stored upper-cased.

The PHP values a field can hold are `Null` (never assigned, or a cutter key
never set), `False` (a missing capture slot) and `Str(s)`, in module `Php`
(`php.dfy`). That module also holds PHP truthiness, `isset`, and the string
built-ins the class calls: `substr`, `str_pad`, `trim`, `strtoupper`,
`explode`. The record is `CallNumbers.CallNumber` (`callnumber.dfy`), and
`scenarios.dfy` ties parsing, the accessors and the key together.

`normalize()` only reads fields. In the model it is a function of the record
value, so two calls on the same record give the same key and leave the
record as it was. This holds by construction.

Behaviour of the class worth knowing:

- Writing an unknown property is silently ignored; only reading one throws.
- Letters are padded to three but never cut, so the key is
  `max(3, |letters|) + 35` characters. It is exactly 38 only when letters has at
  most three characters, which parsing does not guarantee for letters set
  through the accessor.
- Only the text between the first and the second dot of the number is its
  fractional half (`explode` plus `list`); anything after a second dot is
  dropped.
- The validity test checks for an upper-case `A`–`Z` first letter and uses PHP
  truthiness (a cutter "0" is false). `parse()` caches the result, and writing
  fields afterwards does not recompute it.
- Parsing does not reproduce a number without a decimal exactly. The number
  gets "." and slot 3 appended whenever slot 3 is set, and PHP reports slot 3
  as "" as soon as any later group matched: the class year, a cutter or the
  remainder. So "HD1691 1987" gets the number "1691." (`YearGivesTrailingDot`),
  and every valid parse has a dot in its number (`ValidNumberHasDot`).
- Once cutter 1's digits are present, the number test in the validity check
  cannot fail, even when no number was written: "HD .A59" gets the number "."
  and is valid (`NumberlessIsValid`).
- A cutter that was never set reads `false`, while the four plain
  properties of a fresh object (letters, number, class year, remainder) read
  `null`.

## Model

| member | source | states |
|---|---|---|
| `Php.Prefix` | src/BCLib/LCCallNumbers/LCCallNumber.php:53-54 | `substr($s, 0, n)` is the first min(n, length of `s`) characters of `s` |
| `Php.AsString` | src/BCLib/LCCallNumbers/LCCallNumber.php:42 | `null` and `false` used as a string are "", a string is itself, and only a string can give non-empty text |
| `Php.Truthy` | src/BCLib/LCCallNumbers/LCCallNumber.php:145-148 | a field value is true exactly when it is none of `null`, `false`, "" and "0" |
| `Php.Spaces` | src/BCLib/LCCallNumbers/LCCallNumber.php:74 | `str_repeat(' ', n)` is n characters, all of them spaces |
| `Php.PadRight` | src/BCLib/LCCallNumbers/LCCallNumber.php:42 | `str_pad` on the right never truncates: the result is `s` followed by spaces, max(n, length of `s`) long |
| `Php.PadLeft` | src/BCLib/LCCallNumbers/LCCallNumber.php:55 | `str_pad` on the left never truncates: spaces followed by `s`, max(n, length of `s`) long |
| `Php.Trim` | src/BCLib/LCCallNumbers/LCCallNumber.php:143 | the trimmed remainder neither starts nor ends with a trimmable character, and is empty exactly when the text was all white space |
| `Php.TrimLeft` | src/BCLib/LCCallNumbers/LCCallNumber.php:143 | the result is the suffix left after removing every leading trimmable character, and no more |
| `Php.TrimRight` | src/BCLib/LCCallNumbers/LCCallNumber.php:143 | the result is the prefix left after removing every trailing trimmable character, and no more |
| `Php.TrimPadded` | src/BCLib/LCCallNumbers/LCCallNumber.php:143 | trimming gives back exactly the core text, whatever white space surrounds it |
| `Php.TrimRightAppend` | src/BCLib/LCCallNumbers/LCCallNumber.php:143 | white space appended on the right makes no difference to `rtrim` |
| `Php.ToUpper` | src/BCLib/LCCallNumbers/LCCallNumber.php:182 | `strtoupper` keeps the length and maps each character through ASCII upper-casing |
| `Php.ToUpperCharacterises` | src/BCLib/LCCallNumbers/LCCallNumber.php:182 | the upper-cased letters hold no lower-case ASCII letter, other characters keep their place, and upper-casing twice is upper-casing once |
| `Php.Explode` | src/BCLib/LCCallNumbers/LCCallNumber.php:52 | `explode('.')` yields at least one piece, no piece contains a dot, and joining the pieces with dots gives the number back |
| `Php.ExplodeImplode` | src/BCLib/LCCallNumbers/LCCallNumber.php:52 | the other direction: exploding dot-free pieces joined by dots yields exactly those pieces |
| `Normalizer.RightColumn` | src/BCLib/LCCallNumbers/LCCallNumber.php:61-62 | a right-padded column is five characters: character `i` is the value's own while it has one, a space after that |
| `Normalizer.LeftColumn` | src/BCLib/LCCallNumbers/LCCallNumber.php:53-55 | the integer column is five characters: the first min(5, length of the value) characters pushed to the right end behind spaces |
| `Normalizer.Segment` | src/BCLib/LCCallNumbers/LCCallNumber.php:59-63 | class year and remainder columns are the value's first min(5, length of the value) characters then spaces; `null` or `false` gives five spaces |
| `Normalizer.SegmentReadBack` | src/BCLib/LCCallNumbers/LCCallNumber.php:80-84 | `rtrim` of a column recovers the value cut to five, up to its own trailing white space |
| `Normalizer.SplitNumber` | src/BCLib/LCCallNumbers/LCCallNumber.php:52 | the integer half is the text before the first dot; the fractional half is the text up to the next dot or the end, or "" without a dot; neither half holds a dot |
| `Normalizer.SplitNumberJoined` | src/BCLib/LCCallNumbers/LCCallNumber.php:52 | splitting "whole.frac", or "whole.frac.anything", gives back `whole` and `frac` |
| `Normalizer.NormalizeNumber` | src/BCLib/LCCallNumbers/LCCallNumber.php:49-57 | the number column is ten characters: the integer half cut to five and right-aligned, then the fractional half cut to five and left-aligned, also when the fraction is "" |
| `Normalizer.CutterSegment` | src/BCLib/LCCallNumbers/LCCallNumber.php:70-75 | the `isset` branch changes nothing: a missing cutter and an empty one both give the five-space column |
| `Normalizer.NormalizeCutters` | src/BCLib/LCCallNumbers/LCCallNumber.php:65-78 | the three cutter columns together are fifteen characters |
| `Normalizer.Normalize` | src/BCLib/LCCallNumbers/LCCallNumber.php:40-47 | the key is max(3, length of letters) + 35 characters, exactly 38 when letters has at most three |
| `Normalizer.NormalizeLayout` | src/BCLib/LCCallNumbers/LCCallNumber.php:40-84 | each field sits in its own fixed column range of the key, in the order letters, number, class year, cutters 1–3, remainder |
| `Normalizer.AbsentFieldsNormalizeToSpaces` | src/BCLib/LCCallNumbers/LCCallNumber.php:40-84 | a record with no text in any field has a key of 38 spaces |
| `Normalizer.FreshRecordNormalizesToSpaces` | src/BCLib/LCCallNumbers/LCCallNumber.php:22-28 | a never-parsed object has a key of 38 spaces |
| `Normalizer.PadRightPrefixOrder` | src/BCLib/LCCallNumbers/LCCallNumber.php:56 | padding with the space keeps a string at or before any extension of it whose characters are not below the space |
| `Normalizer.LexLe` | src/BCLib/LCCallNumbers/LCCallNumber.php:37-38 | the key order, character by character: `a` sorts no later than `b` exactly when `a` is a prefix of `b` or, at the first position where they differ, `a` has the smaller character |
| `Normalizer.FractionPrefixNumberOrder` | src/BCLib/LCCallNumbers/LCCallNumber.php:49-57 | with the same integer half, a fraction that is a prefix of another ("5" and "50") gives a number column no later than the other's |
| `Normalizer.NumberDecidesKeyOrder` | src/BCLib/LCCallNumbers/LCCallNumber.php:40-47 | records that differ only in the number are ordered as their number columns are |
| `Normalizer.FractionPrefixKeyOrder` | src/BCLib/LCCallNumbers/LCCallNumber.php:40-57 | records that differ only by one fraction being a prefix of the other get keys in that order |
| `Parser.Slot` | src/BCLib/LCCallNumbers/LCCallNumber.php:132 | a present slot gives its text and an absent one gives `false` |
| `Parser.BuildCutter` | src/BCLib/LCCallNumbers/LCCallNumber.php:151-157 | a cutter is letter then digits exactly when both slots are present, and otherwise `false` as a whole, never half built |
| `Parser.BuildNumber` | src/BCLib/LCCallNumbers/LCCallNumber.php:133-136 | the number is slot 2, with "." and slot 3 appended whenever slot 3 is present, even when it is "" |
| `Parser.BuildRemainder` | src/BCLib/LCCallNumbers/LCCallNumber.php:143 | the remainder is slot 11 with white space trimmed from both ends when that slot is present, and `false` otherwise |
| `Parser.Parse` | src/BCLib/LCCallNumbers/LCCallNumber.php:132-148 | every field is assigned from the slots: letters slot 1, class year slot 4, cutters from their pairs, the trimmed slot 11 as remainder, or `false` without it; no cutter is left `null`; the flag is the validity of the new fields |
| `Parser.StartsWithCapital` | src/BCLib/LCCallNumbers/LCCallNumber.php:146-147 | `preg_match('/^[A-Z]/')` holds exactly when the text is non-empty and its first character is one of the 26 capitals |
| `Parser.ValidFields` | src/BCLib/LCCallNumbers/LCCallNumber.php:145-148 | the fields pass exactly when letters, number and cutter 1 are none of `null`, `false`, "" and "0", and letters starts with `A`–`Z`; passing fields are all strings |
| `Parser.ParseValidIff` | src/BCLib/LCCallNumbers/LCCallNumber.php:145-148 | a parse is valid exactly when slot 6 is present, slot 1 starts with `A`–`Z`, and cutter 1's text is neither "" nor "0" |
| `Parser.ValidNumberHasDot` | src/BCLib/LCCallNumbers/LCCallNumber.php:133-136 | a valid parse always has a dot in its number |
| `Parser.NoMatch` | src/BCLib/LCCallNumbers/LCCallNumber.php:129-143 | input that does not match leaves every field `false` and the record invalid |
| `Parser.ExampleParse` | src/BCLib/LCCallNumbers/LCCallNumber.php:132-148 | the slots of "HD1691 .A59" give letters "HD", number "1691.", cutter 1 "A59", no other cutters or remainder, and a valid record |
| `Parser.LettersOnlyIsInvalid` | src/BCLib/LCCallNumbers/LCCallNumber.php:145-148 | "Z" alone has letters but is not valid |
| `Parser.NumberlessIsValid` | src/BCLib/LCCallNumbers/LCCallNumber.php:133-148 | the slots of "HD .A59" give the number "." and cutter 1 "A59", and the record is valid |
| `Parser.YearGivesTrailingDot` | src/BCLib/LCCallNumbers/LCCallNumber.php:133-140 | the slots of "HD1691 1987" give the number "1691." and class year "1987", no cutter 1, and an invalid record |
| `Accessors.FieldNamed` | src/BCLib/LCCallNumbers/LCCallNumber.php:161-174 | a name is unknown exactly when it is none of the seven property names, and an unknown field keeps the name |
| `Accessors.FieldNamedRoundTrip` | src/BCLib/LCCallNumbers/LCCallNumber.php:161-174 | known fields and their names map onto each other one to one |
| `Accessors.Get` | src/BCLib/LCCallNumbers/LCCallNumber.php:159-176 | reading fails exactly for unknown names, with "<name> is not a LCCN property"; the four plain fields read as stored; a cutter reads as stored when it is set and `false` otherwise, so never `null` |
| `Accessors.Set` | src/BCLib/LCCallNumbers/LCCallNumber.php:178-196 | writing an unknown name leaves the record unchanged; letters are stored upper-cased; no write touches the validity flag |
| `Accessors.GetAfterSet` | src/BCLib/LCCallNumbers/LCCallNumber.php:178-196 | a field reads back what was written: letters upper-cased, a cutter written `null` as `false`, anything else unchanged |
| `Accessors.SetLeavesOtherFields` | src/BCLib/LCCallNumbers/LCCallNumber.php:178-196 | writing one name leaves what every other name reads unchanged |
| `Accessors.UnknownNames` | src/BCLib/LCCallNumbers/LCCallNumber.php:173-174 | reading an unknown name fails, and writing one changes nothing any read can see |
| `Accessors.LettersStayUpperCase` | src/BCLib/LCCallNumbers/LCCallNumber.php:181-183 | stored letters hold no lower-case ASCII letter, and writing back what was read leaves the record unchanged |
| `Scenarios.ParsedFieldsReadBack` | src/BCLib/LCCallNumbers/LCCallNumber.php:132-142 | after a parse that reached cutter 1, letters, number, class year and cutter 1 read back as the slots spelled them, the number with its dot |
| `Scenarios.MissingCutterReadsFalse` | src/BCLib/LCCallNumbers/LCCallNumber.php:151-172 | for each of cutters 1, 2 and 3, a parse whose digits slot for that cutter is missing reads that cutter back as `false` |
| `Scenarios.SetNumberRenormalizes` | src/BCLib/LCCallNumbers/LCCallNumber.php:184-188 | after writing the number, the key's number columns are those of the new value and every other column is unchanged |
| `Scenarios.ValidityIsCached` | src/BCLib/LCCallNumbers/LCCallNumber.php:86-89 | blanking the letters of a valid record leaves `isValid()` true, although the fields would now fail the test |
| `Scenarios.WritesKeepFlag` | src/BCLib/LCCallNumbers/LCCallNumber.php:178-196 | no sequence of property writes changes what `isValid()` reports |
| `Scenarios.IsValidReportsParse` | src/BCLib/LCCallNumbers/LCCallNumber.php:86-89 | `isValid()` after a parse and any writes holds exactly when slot 6 is present, slot 1 starts with `A`–`Z`, and cutter 1's text is neither "" nor "0" |
| `Scenarios.FreshObject` | src/BCLib/LCCallNumbers/LCCallNumber.php:22-35 | a freshly constructed object is not valid, its plain properties read `null`, its cutters read `false`, and its key is 38 spaces |
| `Scenarios.SetLettersCapital` | src/BCLib/LCCallNumbers/LCCallNumber.php:181-183 | letters written through the accessor pass the capital-letter test exactly when they start with an ASCII letter of either case |
| `Scenarios.ExampleKey` | src/BCLib/LCCallNumbers/LCCallNumber.php:40-84 | "HD1691 .A59" is valid and its key is "HD " + " 1691" + five spaces, then five spaces, "A59  ", and fifteen spaces |
| `Scenarios.EmptyInput` | src/BCLib/LCCallNumbers/LCCallNumber.php:129-143 | empty input is invalid and has a key of 38 spaces |
| `Scenarios.UnknownPropertyFails` | src/BCLib/LCCallNumbers/LCCallNumber.php:173-174 | reading "foo" fails with "foo is not a LCCN property" |

## Left out

- The pattern itself and `preg_match` (lines 94-130). A faithful model would need a backtracking regular-expression engine. The capture slots are the model's input instead, so the model does not decide which slot captures a trailing year such as "1987".
- `_input_string`, `_normalized_string`, `_is_parsed` and `HI_SORT_CHAR`: they are declared or assigned but never read by the modelled code.
- `_matches` is not a field of the record. `parse()` fills it with twelve "" at line 129, but `preg_match` then replaces the whole array with its own result, so that fill never takes effect. The array is rebuilt by every parse before it is read at lines 132-143 and 153-154, and the model takes that rebuilt array as `Parse`'s input. This is why slot `k` is present exactly when `k` is below the sequence's length.
- PHP notices and deprecations: the missing `list()` element when there is no dot, and `null`/`false` passed to `substr`/`str_pad`. Only their outcome, an empty string, is modelled.
- `strtoupper` is taken as ASCII upper-casing, not locale-dependent.
- Field values other than `null`, `false` and strings (integers, `true`, arrays) that a caller could pass to the setter are not modelled.
- Normalize idempotence and "normalize leaves the record unchanged" have no lemma of their own: `Normalize` is a function of the record value, so both hold by construction.
- Strings are byte strings in PHP, and `substr`, `str_pad` and `trim` count bytes. The model reads each Dafny `char` as one byte, so text outside ASCII stands as the `char`s of its UTF-8 bytes. A `string` holding one `char` per Unicode character would be cut at different points than PHP cuts it.
