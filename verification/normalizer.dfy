/**
 The sort key of a call number (`normalize()` and its helpers): the fields
 laid side by side in fixed columns, each cut to five characters and padded
 with the low-sort character, a space, so that comparing two keys character
 by character compares the call numbers field by field.
 */
module Normalizer {
  import opened Php
  import opened CallNumbers

  /** `LOW_SORT_CHAR`, the filler of every column. */
  const LowSortChar: char := ' '

  /** Width of the letters column before padding; letters longer than this
      are kept whole, widening the key. */
  const LettersWidth: nat := 3

  /** Width of every other column, and of each half of the number column. */
  const SegmentWidth: nat := 5

  /** Character `i` of a column that holds `s` and is padded on the right:
      the value's own character while it has one, the filler after that. */
  function ColumnChar(s: string, i: nat): char
  {
    if i < |s| then s[i] else LowSortChar
  }

  /** `str_pad(substr($s, 0, 5), 5, ' ', STR_PAD_RIGHT)`: the first
      `min(5, |s|)` characters of `s`, then fillers up to five. */
  function RightColumn(s: string): (col: string)
    ensures |col| == SegmentWidth
    ensures forall i :: 0 <= i < SegmentWidth ==> col[i] == ColumnChar(s, i)
  {
    PadRight(Prefix(s, SegmentWidth), SegmentWidth)
  }

  /** `str_pad(substr($s, 0, 5), 5, ' ', STR_PAD_LEFT)`: the first
      `min(5, |s|)` characters of `s`, pushed to the right end of the column
      behind fillers. */
  function LeftColumn(s: string): (col: string)
    ensures |col| == SegmentWidth
    ensures var k := Min(SegmentWidth, |s|);
      col == Spaces(SegmentWidth - k) + s[..k]
  {
    var p := Prefix(s, SegmentWidth);
    var col := PadLeft(p, SegmentWidth);
    var gap := SegmentWidth - |p|;
    assert col[..gap] == Spaces(gap);
    assert col == col[..gap] + col[gap..];
    col
  }

  /** Class year, remainder and each cutter: the value as a string, put in a
      right-padded column; `null` and `false` give five fillers. */
  function Segment(v: Value): (seg: string)
    ensures |seg| == SegmentWidth
    ensures forall i :: 0 <= i < SegmentWidth ==> seg[i] == ColumnChar(AsString(v), i)
    ensures AsString(v) == "" ==> seg == Spaces(SegmentWidth)
  {
    RightColumn(AsString(v))
  }

  /** Reading a column back with `rtrim` recovers the truncated value up to
      its own trailing white space. */
  lemma SegmentReadBack(v: Value)
    ensures TrimRight(Segment(v)) == TrimRight(Prefix(AsString(v), SegmentWidth))
  {
    var p := Prefix(AsString(v), SegmentWidth);
    assert Segment(v) == p + Spaces(SegmentWidth - |p|);
    TrimRightAppend(p, Spaces(SegmentWidth - |p|));
  }

  /** `list($pre_dec, $post_dec) = explode('.', $number)`: the text before
      the first dot, and the text between the first and the second dot (the
      missing second element reads as "" when there is no dot at all). */
  function SplitNumber(s: string): (halves: (string, string))
    ensures '.' !in halves.0 && '.' !in halves.1
    ensures '.' !in s ==> halves == (s, "")
    ensures '.' in s ==>
      var n := |halves.0| + 1 + |halves.1|;
      n <= |s| && s[..n] == halves.0 + "." + halves.1 && (n == |s| || s[n] == '.')
  {
    var parts := Explode(s);
    ImplodeShape(parts);
    if |parts| == 1 then (parts[0], "")
    else
      ImplodeShape(parts[1..]);
      (parts[0], parts[1])
  }

  /** How `implode` lays out its first piece and the dot after it. */
  lemma ImplodeShape(parts: seq<string>)
    requires |parts| >= 1
    ensures |parts[0]| <= |Implode(parts)|
    ensures Implode(parts)[..|parts[0]|] == parts[0]
    ensures |parts| == 1 ==> Implode(parts) == parts[0]
    ensures |parts| > 1 ==>
      Implode(parts) == parts[0] + "." + Implode(parts[1..]) &&
      Implode(parts)[|parts[0]|] == '.'
  {
  }

  /** Splitting undoes joining: for dot-free `whole` and `frac`, the halves
      of "whole.frac", and of "whole.frac.anything", are `whole` and
      `frac`. */
  lemma SplitNumberJoined(whole: string, frac: string, tail: string)
    requires '.' !in whole && '.' !in frac
    ensures SplitNumber(whole + "." + frac) == (whole, frac)
    ensures SplitNumber(whole + "." + frac + "." + tail) == (whole, frac)
  {
    ExplodeDotFree(frac, "", false);
    ExplodeDotFree(whole, frac, true);
    ExplodeDotFree(frac, tail, true);
    ExplodeDotFree(whole, frac + "." + tail, true);
    assert whole + "." + frac + "." + tail == whole + "." + (frac + "." + tail);
  }

  /** The number column: the integer half cut to five and right-aligned,
      then the fractional half cut to five and left-aligned. Always ten
      characters, also for "123." whose fractional half is "". */
  function NormalizeNumber(number: Value): (seg: string)
    ensures |seg| == 2 * SegmentWidth
    ensures var pre := SplitNumber(AsString(number)).0;
      var k := Min(SegmentWidth, |pre|);
      seg[..SegmentWidth] == Spaces(SegmentWidth - k) + pre[..k]
    ensures var post := SplitNumber(AsString(number)).1;
      forall i :: 0 <= i < SegmentWidth ==> seg[SegmentWidth + i] == ColumnChar(post, i)
  {
    var halves := SplitNumber(AsString(number));
    var whole, fraction := LeftColumn(halves.0), RightColumn(halves.1);
    var seg := whole + fraction;
    assert seg[..SegmentWidth] == whole;
    assert forall i :: 0 <= i < SegmentWidth ==> seg[SegmentWidth + i] == fraction[i];
    seg
  }

  /** One cutter column: `isset` picks between the padded cutter and five
      fillers, and both branches give the same column as `Segment`. */
  function CutterSegment(v: Value): (seg: string)
    ensures seg == Segment(v)
  {
    assert !IsSet(v) ==> Segment(v) == Spaces(SegmentWidth);
    if IsSet(v) then Segment(v) else Spaces(SegmentWidth)
  }

  /** `_normalizeCutters()`: the columns of cutters 1, 2 and 3, in that
      order, fifteen characters in all. */
  function NormalizeCutters(r: CallNumber): (cols: string)
    ensures |cols| == 3 * SegmentWidth
  {
    CutterSegment(r.cutter1) + CutterSegment(r.cutter2) + CutterSegment(r.cutter3)
  }

  /** `normalize()`: letters, number, class year, the three cutters and the
      remainder in fixed columns. Letters are padded but never cut, so the
      key is 38 characters whenever letters has at most three. */
  function Normalize(r: CallNumber): (key: string)
    ensures |key| == Max(LettersWidth, |AsString(r.letters)|) + 35
    ensures |AsString(r.letters)| <= LettersWidth ==> |key| == 38
  {
    PadRight(AsString(r.letters), LettersWidth)
      + NormalizeNumber(r.number)
      + Segment(r.classYear)
      + NormalizeCutters(r)
      + Segment(r.remainder)
  }

  /** Where each field sits in the key: with `w` the width of the letters
      column, the number occupies the next ten characters, the class year
      the five after, the cutters the fifteen after that in order, and the
      remainder the last five. */
  lemma NormalizeLayout(r: CallNumber)
    ensures var key := Normalize(r);
      var w := Max(LettersWidth, |AsString(r.letters)|);
      && key[..w] == PadRight(AsString(r.letters), LettersWidth)
      && key[w..w + 10] == NormalizeNumber(r.number)
      && key[w + 10..w + 15] == Segment(r.classYear)
      && key[w + 15..w + 20] == Segment(r.cutter1)
      && key[w + 20..w + 25] == Segment(r.cutter2)
      && key[w + 25..w + 30] == Segment(r.cutter3)
      && key[w + 30..] == Segment(r.remainder)
  {
    ColumnRanges(PadRight(AsString(r.letters), LettersWidth), NormalizeNumber(r.number),
      Segment(r.classYear), Segment(r.cutter1), Segment(r.cutter2), Segment(r.cutter3),
      Segment(r.remainder));
  }

  /** Column ranges of a concatenation of columns of known widths. */
  lemma ColumnRanges(l: string, n: string, y: string, c1: string, c2: string, c3: string, m: string)
    requires |n| == 10 && |y| == 5 && |c1| == 5 && |c2| == 5 && |c3| == 5
    ensures var key := l + n + y + (c1 + c2 + c3) + m;
      var w := |l|;
      && key[..w] == l
      && key[w..w + 10] == n
      && key[w + 10..w + 15] == y
      && key[w + 15..w + 20] == c1
      && key[w + 20..w + 25] == c2
      && key[w + 25..w + 30] == c3
      && key[w + 30..] == m
  {
    var key := l + n + y + (c1 + c2 + c3) + m;
    var w := |l|;
    assert key == l + (n + (y + (c1 + (c2 + (c3 + m)))));
    assert key[w..] == n + (y + (c1 + (c2 + (c3 + m))));
    assert key[w + 10..] == y + (c1 + (c2 + (c3 + m)));
    assert key[w + 15..] == c1 + (c2 + (c3 + m));
    assert key[w + 20..] == c2 + (c3 + m);
    assert key[w + 25..] == c3 + m;
  }

  /** No field of the record holds text. */
  predicate NoFieldText(r: CallNumber)
  {
    && AsString(r.letters) == "" && AsString(r.number) == ""
    && AsString(r.classYear) == "" && AsString(r.remainder) == ""
    && AsString(r.cutter1) == "" && AsString(r.cutter2) == "" && AsString(r.cutter3) == ""
  }

  lemma SpacesConcat(a: nat, b: nat)
    ensures Spaces(a) + Spaces(b) == Spaces(a + b)
  {
  }

  /** A record none of whose fields holds text, such as a fresh object or
      one parsed from input that did not match, normalizes to 38 spaces. */
  lemma AbsentFieldsNormalizeToSpaces(r: CallNumber)
    requires NoFieldText(r)
    ensures Normalize(r) == Spaces(38)
  {
    var s5 := Spaces(SegmentWidth);
    SpacesConcat(5, 5);
    SpacesConcat(10, 5);
    SpacesConcat(3, 10);
    SpacesConcat(13, 5);
    SpacesConcat(18, 15);
    SpacesConcat(33, 5);
    assert SplitNumber("") == ("", "");
    assert LeftColumn("") == s5;
    assert NormalizeNumber(r.number) == Spaces(10);
    assert NormalizeCutters(r) == Spaces(15);
    assert PadRight(AsString(r.letters), LettersWidth) == Spaces(3);
  }

  lemma FreshRecordNormalizesToSpaces()
    ensures Normalize(Unparsed) == Spaces(38)
  {
    AbsentFieldsNormalizeToSpaces(Unparsed);
  }

  // ---------------------------------------------------------------------
  // Sort order of keys

  /** Character-by-character (byte-wise) order of two strings, a proper
      prefix coming first. */
  predicate LexLe(a: string, b: string): (le: bool)
    ensures le <==> a <= b || FirstDifferenceBelow(a, b)
    decreases |a|
  {
    if a == [] then true
    else if b == [] then false
    else if a[0] < b[0] then
      assert a[..0] == b[..0];
      true
    else if a[0] == b[0] then
      var le := LexLe(a[1..], b[1..]);
      LexLeStep(a, b);
      le
    else
      false
  }

  /** The two strings agree up to some position where `a` has the smaller
      character. */
  predicate FirstDifferenceBelow(a: string, b: string)
  {
    exists i :: 0 <= i < |a| && i < |b| && a[..i] == b[..i] && a[i] < b[i]
  }

  /** With equal first characters, prefix and first difference are those of
      the tails. */
  lemma LexLeStep(a: string, b: string)
    requires a != [] && b != [] && a[0] == b[0]
    ensures a <= b <==> a[1..] <= b[1..]
    ensures FirstDifferenceBelow(a, b) <==> FirstDifferenceBelow(a[1..], b[1..])
  {
    PrefixStep(a, b);
    if FirstDifferenceBelow(a, b) {
      DifferenceToTail(a, b);
    }
    if FirstDifferenceBelow(a[1..], b[1..]) {
      DifferenceFromTail(a, b);
    }
  }

  lemma PrefixStep(a: string, b: string)
    requires a != [] && b != [] && a[0] == b[0]
    ensures a <= b <==> a[1..] <= b[1..]
  {
    if a[1..] <= b[1..] {
      assert a == [a[0]] + a[1..];
      assert b[..|a|] == [b[0]] + b[1..][..|a| - 1];
    }
  }

  lemma DifferenceToTail(a: string, b: string)
    requires a != [] && b != [] && a[0] == b[0]
    requires FirstDifferenceBelow(a, b)
    ensures FirstDifferenceBelow(a[1..], b[1..])
  {
    var i :| 0 <= i < |a| && i < |b| && a[..i] == b[..i] && a[i] < b[i];
    assert i != 0;
    var a', b' := a[1..], b[1..];
    assert a'[..i - 1] == a[..i][1..];
    assert b'[..i - 1] == b[..i][1..];
    assert a'[i - 1] < b'[i - 1];
  }

  lemma DifferenceFromTail(a: string, b: string)
    requires a != [] && b != [] && a[0] == b[0]
    requires FirstDifferenceBelow(a[1..], b[1..])
    ensures FirstDifferenceBelow(a, b)
  {
    var a', b' := a[1..], b[1..];
    var j :| 0 <= j < |a'| && j < |b'| && a'[..j] == b'[..j] && a'[j] < b'[j];
    assert a[..j + 1] == [a[0]] + a'[..j];
    assert b[..j + 1] == [b[0]] + b'[..j];
    assert a[j + 1] < b[j + 1];
  }

  lemma LexLeReflexive(a: string)
    ensures LexLe(a, a)
  {
  }

  /** Order between equal-length heads decides order of whole strings when
      the tails are ordered too. */
  lemma {:induction false} LexLeConcat(a: string, b: string, y: string, z: string)
    requires |a| == |b| && LexLe(a, b) && LexLe(y, z)
    ensures LexLe(a + y, b + z)
    decreases |a|
  {
    if a == [] {
      assert a + y == y && b + z == z;
    } else {
      assert (a + y)[1..] == a[1..] + y && (b + z)[1..] == b[1..] + z;
      if a[0] == b[0] {
        LexLeConcat(a[1..], b[1..], y, z);
      }
    }
  }

  /** Right-padding with the lowest character keeps a prefix before its
      extension: the column of "5" sorts no later than the column of "50". */
  lemma {:induction false} PadRightPrefixOrder(s: string, t: string, n: nat)
    requires s <= t
    requires forall i :: 0 <= i < |t| ==> LowSortChar <= t[i]
    ensures LexLe(PadRight(s, n), PadRight(t, n))
    decreases |s|, |t|
  {
    var ps, pt := PadRight(s, n), PadRight(t, n);
    if s != [] {
      assert ps[1..] == PadRight(s[1..], if n == 0 then 0 else n - 1);
      assert pt[1..] == PadRight(t[1..], if n == 0 then 0 else n - 1);
      PadRightPrefixOrder(s[1..], t[1..], if n == 0 then 0 else n - 1);
    } else if t != [] && ps != [] {
      assert ps[0] == ' ' && pt[0] == t[0];
      if t[0] == ' ' {
        assert ps[1..] == PadRight(s, n - 1);
        assert pt[1..] == PadRight(t[1..], n - 1);
        PadRightPrefixOrder(s, t[1..], n - 1);
      }
    } else if ps != [] {
      assert ps == pt;
      LexLeReflexive(ps);
    }
  }

  /** Prefixes survive truncation: cutting both strings to the same width
      keeps the shorter a prefix of the longer. */
  lemma PrefixKeepsPrefix(f: string, g: string, n: nat)
    requires f <= g
    ensures Prefix(f, n) <= Prefix(g, n)
  {
  }

  /** In the number column, a fractional half that is a prefix of another
      sorts no later than it, the integer half being the same. */
  lemma FractionPrefixNumberOrder(whole: string, f: string, g: string)
    requires '.' !in whole && '.' !in f && '.' !in g
    requires f <= g
    requires forall i :: 0 <= i < |g| ==> LowSortChar <= g[i]
    ensures LexLe(NormalizeNumber(Str(whole + "." + f)), NormalizeNumber(Str(whole + "." + g)))
  {
    SplitNumberJoined(whole, f, "");
    SplitNumberJoined(whole, g, "");
    PrefixKeepsPrefix(f, g, SegmentWidth);
    var pf, pg := Prefix(f, SegmentWidth), Prefix(g, SegmentWidth);
    PadRightPrefixOrder(pf, pg, SegmentWidth);
    LexLeReflexive(LeftColumn(whole));
    LexLeConcat(LeftColumn(whole), LeftColumn(whole), RightColumn(f), RightColumn(g));
  }

  /** Two records that differ only in the number column are ordered as
      their number columns are. */
  lemma NumberDecidesKeyOrder(a: CallNumber, b: CallNumber)
    requires b == a.(number := b.number)
    requires LexLe(NormalizeNumber(a.number), NormalizeNumber(b.number))
    ensures LexLe(Normalize(a), Normalize(b))
  {
    var l := PadRight(AsString(a.letters), LettersWidth);
    var na, nb := NormalizeNumber(a.number), NormalizeNumber(b.number);
    var y, c, m := Segment(a.classYear), NormalizeCutters(a), Segment(a.remainder);
    assert NormalizeCutters(b) == c;
    LexLeReflexive(l);
    LexLeReflexive(y);
    LexLeReflexive(c);
    LexLeReflexive(m);
    LexLeConcat(l, l, na, nb);
    LexLeConcat(l + na, l + nb, y, y);
    LexLeConcat(l + na + y, l + nb + y, c, c);
    LexLeConcat(l + na + y + c, l + nb + y + c, m, m);
  }

  /** The ordering the key is built for: two records that differ only
      in the fractional half of the number, one fraction a prefix of the
      other ("5" and "50"), get keys in that order. */
  lemma FractionPrefixKeyOrder(a: CallNumber, whole: string, f: string, g: string)
    requires '.' !in whole && '.' !in f && '.' !in g
    requires f <= g
    requires forall i :: 0 <= i < |g| ==> LowSortChar <= g[i]
    requires a.number == Str(whole + "." + f)
    ensures LexLe(Normalize(a), Normalize(a.(number := Str(whole + "." + g))))
  {
    FractionPrefixNumberOrder(whole, f, g);
    NumberDecidesKeyOrder(a, a.(number := Str(whole + "." + g)));
  }
}
