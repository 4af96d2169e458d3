/**
 The slice of PHP's runtime that the call-number class relies on: the values
 its fields can hold, PHP truthiness and `isset`, and the string built-ins
 `substr`, `str_pad`, `str_repeat`, `trim`, `strtoupper` and `explode`, each
 written for the arguments the class passes them. `Implode` is not called by
 the class; it is here to state what `explode` returns.

 PHP strings are byte strings, and these built-ins count bytes. A `string`
 here is read the same way: each `char` stands for one byte of the PHP
 string, so a character outside ASCII is the several `char`s of its UTF-8
 encoding, not one.
 */
module Php {

  /** A PHP value as it can sit in one of the record's fields: `null` (never
      assigned, or an array key that was never set), `false` (what parsing
      stores for a capture slot that is missing), or a string. */
  datatype Value = Null | False | Str(s: string)

  /** PHP's conversion to string: `null` and `false` both become "", and a
      string is itself. */
  function AsString(v: Value): (s: string)
    ensures v.Str? ==> Str(s) == v
    ensures !v.Str? ==> s == ""
    ensures s != "" ==> v.Str?
  {
    match v
    case Str(s) => s
    case _ => ""
  }

  /** The values PHP converts to `false`, among those a field can hold. */
  const FalsyValues: set<Value> := {Null, False, Str(""), Str("0")}

  /** PHP truthiness: of these values only the strings other than "" and "0"
      are true. */
  predicate Truthy(v: Value): (t: bool)
    ensures t <==> v !in FalsyValues
    ensures t ==> AsString(v) != "" && AsString(v) != "0"
  {
    v.Str? && v.s != "" && v.s != "0"
  }

  /** `isset($x)`: true for every value except `null`. */
  predicate IsSet(v: Value)
  {
    !v.Null?
  }

  function Min(a: int, b: int): int { if a <= b then a else b }

  function Max(a: int, b: int): int { if a <= b then b else a }

  /** `str_repeat(' ', n)`. */
  function Spaces(n: nat): (r: string)
    ensures |r| == n
    ensures forall i :: 0 <= i < n ==> r[i] == ' '
  {
    seq(n, _ => ' ')
  }

  /** `substr(s, 0, n)`: the first `n` characters, or all of `s` when it is
      shorter. */
  function Prefix(s: string, n: nat): (r: string)
    ensures |r| == Min(|s|, n)
    ensures r == s[..|r|]
  {
    if |s| <= n then s else s[..n]
  }

  /** `str_pad(s, n, ' ', STR_PAD_RIGHT)`: never truncates; spaces are added
      on the right up to width `n`. */
  function PadRight(s: string, n: nat): (r: string)
    ensures |r| == Max(n, |s|)
    ensures r[..|s|] == s
    ensures forall i :: 0 <= i < |s| ==> r[i] == s[i]
    ensures forall i :: |s| <= i < |r| ==> r[i] == ' '
  {
    if n <= |s| then s else s + Spaces(n - |s|)
  }

  /** `str_pad(s, n, ' ', STR_PAD_LEFT)`: never truncates; spaces are added
      on the left up to width `n`. */
  function PadLeft(s: string, n: nat): (r: string)
    ensures |r| == Max(n, |s|)
    ensures r[|r| - |s|..] == s
    ensures forall i :: 0 <= i < |r| - |s| ==> r[i] == ' '
  {
    if n <= |s| then s else Spaces(n - |s|) + s
  }

  // ---------------------------------------------------------------------
  // trim()

  /** The characters `trim` strips when given no list: space, tab, line
      feed, carriage return, NUL and vertical tab. */
  predicate IsTrimmable(c: char)
  {
    c == ' ' || c as int in {0, 9, 10, 11, 13}
  }

  predicate AllTrimmable(s: string)
  {
    forall i :: 0 <= i < |s| ==> IsTrimmable(s[i])
  }

  /** `ltrim(s)`: the longest suffix of `s` that does not start with a
      trimmable character. */
  function TrimLeft(s: string): (r: string)
    ensures |r| <= |s| && r == s[|s| - |r|..]
    ensures AllTrimmable(s[..|s| - |r|])
    ensures r == [] || !IsTrimmable(r[0])
    decreases |s|
  {
    if s != [] && IsTrimmable(s[0]) then
      var r := TrimLeft(s[1..]);
      assert s[..|s| - |r|] == [s[0]] + s[1..][..|s| - 1 - |r|];
      r
    else
      s
  }

  /** `rtrim(s)`: the longest prefix of `s` that does not end with a
      trimmable character. */
  function TrimRight(s: string): (r: string)
    ensures |r| <= |s| && r == s[..|r|]
    ensures AllTrimmable(s[|r|..])
    ensures r == [] || !IsTrimmable(r[|r| - 1])
    decreases |s|
  {
    if s != [] && IsTrimmable(s[|s| - 1]) then
      var r := TrimRight(s[..|s| - 1]);
      assert s[|r|..] == s[..|s| - 1][|r|..] + [s[|s| - 1]];
      r
    else
      s
  }

  /** `trim(s)`: both ends stripped. */
  function Trim(s: string): (r: string)
    ensures |r| <= |s|
    ensures r == [] || (!IsTrimmable(r[0]) && !IsTrimmable(r[|r| - 1]))
    ensures r == [] <==> AllTrimmable(s)
  {
    var l := TrimLeft(s);
    assert s == s[..|s| - |l|] + l;
    TrimRight(l)
  }

  /** Stripping is exact: whatever trimmable padding surrounds a core that
      does not itself start or end with a trimmable character, `trim` gives
      back exactly that core. */
  lemma {:induction false} TrimPadded(a: string, core: string, b: string)
    requires AllTrimmable(a) && AllTrimmable(b)
    requires core == [] || (!IsTrimmable(core[0]) && !IsTrimmable(core[|core| - 1]))
    ensures Trim(a + core + b) == core
  {
    if core == [] {
      assert a + core + b == a + b;
      assert AllTrimmable(a + b);
    } else {
      assert a + core + b == a + (core + b);
      TrimLeftPadded(a, core + b);
      TrimRightAppend(core, b);
    }
  }

  lemma {:induction false} TrimLeftPadded(a: string, t: string)
    requires AllTrimmable(a)
    requires t == [] || !IsTrimmable(t[0])
    ensures TrimLeft(a + t) == t
    decreases |a|
  {
    if a != [] {
      assert (a + t)[1..] == a[1..] + t;
      TrimLeftPadded(a[1..], t);
    } else {
      assert a + t == t;
    }
  }

  /** Trimmable characters appended on the right make no difference to
      `rtrim`. */
  lemma {:induction false} TrimRightAppend(t: string, b: string)
    requires AllTrimmable(b)
    ensures TrimRight(t + b) == TrimRight(t)
    decreases |b|
  {
    if b != [] {
      assert (t + b)[..|t + b| - 1] == t + b[..|b| - 1];
      TrimRightAppend(t, b[..|b| - 1]);
    } else {
      assert t + b == t;
    }
  }

  // ---------------------------------------------------------------------
  // strtoupper()

  /** ASCII upper-casing of one character. */
  function UpperChar(c: char): char
  {
    if 'a' <= c <= 'z' then (c as int - 32) as char else c
  }

  /** `strtoupper(s)`, taken as ASCII-only. */
  function ToUpper(s: string): (r: string)
    ensures |r| == |s|
    ensures forall i :: 0 <= i < |s| ==> r[i] == UpperChar(s[i])
  {
    seq(|s|, i requires 0 <= i < |s| => UpperChar(s[i]))
  }

  /** The result has no lower-case ASCII letter left, and every other
      character is kept where it was. */
  lemma ToUpperCharacterises(s: string)
    ensures forall i :: 0 <= i < |s| ==> !('a' <= ToUpper(s)[i] <= 'z')
    ensures forall i :: 0 <= i < |s| && !('a' <= s[i] <= 'z') ==> ToUpper(s)[i] == s[i]
    ensures ToUpper(ToUpper(s)) == ToUpper(s)
  {
  }

  // ---------------------------------------------------------------------
  // explode('.') and implode('.')

  /** `implode('.', parts)`. */
  function Implode(parts: seq<string>): string
    requires |parts| >= 1
    decreases |parts|
  {
    if |parts| == 1 then parts[0] else parts[0] + "." + Implode(parts[1..])
  }

  /** `explode('.', s)`: the pieces between the dots, none of them holding a
      dot, and joining them back with dots gives `s` again. */
  function Explode(s: string): (parts: seq<string>)
    ensures |parts| >= 1
    ensures forall i :: 0 <= i < |parts| ==> '.' !in parts[i]
    ensures Implode(parts) == s
    decreases |s|
  {
    if s == [] then [""]
    else
      var rest := Explode(s[1..]);
      if s[0] == '.' then
        assert ([""] + rest)[1..] == rest;
        [""] + rest
      else
        var parts := [[s[0]] + rest[0]] + rest[1..];
        assert parts[1..] == rest[1..];
        assert |rest| > 1 ==> rest[0] + "." + Implode(rest[1..]) == Implode(rest);
        assert Implode(parts) == [s[0]] + Implode(rest);
        parts
  }

  /** The other direction: exploding dot-free pieces joined with dots gives
      back exactly those pieces. */
  lemma {:induction false} ExplodeImplode(parts: seq<string>)
    requires |parts| >= 1
    requires forall i :: 0 <= i < |parts| ==> '.' !in parts[i]
    ensures Explode(Implode(parts)) == parts
    decreases |parts|
  {
    if |parts| == 1 {
      ExplodeDotFree(parts[0], "", false);
    } else {
      ExplodeImplode(parts[1..]);
      ExplodeDotFree(parts[0], Implode(parts[1..]), true);
      assert parts == [parts[0]] + parts[1..];
    }
  }

  /** Exploding `a` (no dot in it), optionally followed by a dot and `t`. */
  lemma {:induction false} ExplodeDotFree(a: string, t: string, dot: bool)
    requires '.' !in a
    ensures dot ==> Explode(a + "." + t) == [a] + Explode(t)
    ensures !dot ==> Explode(a) == [a]
    decreases |a|
  {
    if a == [] {
      assert a + "." + t == "." + t;
      assert ("." + t)[1..] == t;
    } else {
      ExplodeDotFree(a[1..], t, dot);
      if dot {
        assert (a + "." + t)[1..] == a[1..] + "." + t;
        assert [a[0]] + a[1..] == a;
      } else {
        assert [a[0]] + a[1..] == a;
      }
    }
  }
}
