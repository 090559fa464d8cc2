/** The few JavaScript value semantics the handlers depend on: truthiness of an
    optional number, `a || b`, `String.prototype.toLowerCase`,
    `String.prototype.includes` and the global `parseInt`. */
module JsValues {
  import opened Wrappers

  // ---------------------------------------------------------------------
  // Truthiness
  // ---------------------------------------------------------------------

  /** A number field that may be absent is truthy when present and non-zero
      (`undefined`, `null` and `0` are falsy). */
  predicate Truthy(v: Option<int>) {
    v.Some? && v.value != 0
  }

  /** A string field that may be absent is truthy when present and non-empty. */
  predicate Filled(v: Option<string>) {
    v.Some? && v.value != ""
  }

  /** `v || fallback` for a number field that may be absent. */
  function Or(v: Option<int>, fallback: int): int {
    if Truthy(v) then v.value else fallback
  }

  // ---------------------------------------------------------------------
  // toLowerCase and includes
  // ---------------------------------------------------------------------

  function LowerChar(c: char): char {
    if 'A' <= c <= 'Z' then (c as int + 32) as char else c
  }

  /** `s.toLowerCase()`, restricted to the ASCII letters. */
  function ToLower(s: string): (r: string)
    ensures |r| == |s|
    ensures forall i :: 0 <= i < |s| ==> r[i] == LowerChar(s[i])
    ensures forall i :: 0 <= i < |r| ==> !('A' <= r[i] <= 'Z')
  {
    seq(|s|, i requires 0 <= i < |s| => LowerChar(s[i]))
  }

  /** `t` occurs in `s` starting at index `i`. */
  predicate OccursAt(s: string, t: string, i: int) {
    0 <= i && i + |t| <= |s| && s[i..i + |t|] == t
  }

  /** `s.includes(t)`: scan `s` from the left for a position where `t` starts.
      The empty string is included in every string, and nothing longer than
      `s` is. */
  predicate Includes(s: string, t: string): (b: bool)
    ensures |t| == 0 ==> b
    ensures b ==> |t| <= |s|
    decreases |s|
  {
    (|t| <= |s| && s[..|t|] == t) || (|s| > 0 && Includes(s[1..], t))
  }

  /** The scan finds `t` exactly when `t` occurs somewhere in `s`. */
  lemma {:induction false} IncludesIffOccurs(s: string, t: string)
    ensures Includes(s, t) <==> exists i :: OccursAt(s, t, i)
    decreases |s|
  {
    if |t| <= |s| && s[..|t|] == t {
      assert OccursAt(s, t, 0);
    } else if |s| == 0 {
      forall i | OccursAt(s, t, i)
        ensures false
      {
      }
    } else {
      IncludesIffOccurs(s[1..], t);
      if Includes(s[1..], t) {
        var i :| OccursAt(s[1..], t, i);
        assert s[1..][i..i + |t|] == s[i + 1..i + 1 + |t|];
        assert OccursAt(s, t, i + 1);
      } else {
        forall i | OccursAt(s, t, i)
          ensures false
        {
          if i != 0 {
            assert s[1..][i - 1..i - 1 + |t|] == s[i..i + |t|];
            assert OccursAt(s[1..], t, i - 1);
          }
        }
      }
    }
  }

  // ---------------------------------------------------------------------
  // parseInt
  // ---------------------------------------------------------------------

  /** The white-space and line-terminator characters `parseInt` skips. */
  predicate IsSpace(c: char) {
    var k := c as int;
    k == 9 || k == 10 || k == 11 || k == 12 || k == 13 || k == 32 || k == 0xA0
    || k == 0x1680 || (0x2000 <= k <= 0x200A) || k == 0x2028 || k == 0x2029
    || k == 0x202F || k == 0x205F || k == 0x3000 || k == 0xFEFF
  }

  /** Leading white space removed. */
  function TrimStart(s: string): (r: string)
    ensures |r| <= |s| && r == s[|s| - |r|..]
    ensures forall i :: 0 <= i < |s| - |r| ==> IsSpace(s[i])
    ensures |r| > 0 ==> !IsSpace(r[0])
    decreases |s|
  {
    if |s| > 0 && IsSpace(s[0]) then TrimStart(s[1..]) else s
  }

  /** The value of `c` as a digit of any radix up to 36 (`36` when it is none). */
  function DigitValue(c: char): nat {
    if '0' <= c <= '9' then c as int - '0' as int
    else if 'a' <= c <= 'z' then c as int - 'a' as int + 10
    else if 'A' <= c <= 'Z' then c as int - 'A' as int + 10
    else 36
  }

  predicate IsDigit(c: char, radix: nat) {
    DigitValue(c) < radix
  }

  /** The length of the longest prefix of `s` made of radix digits. */
  function DigitRun(s: string, radix: nat): (n: nat)
    ensures n <= |s|
    ensures forall i :: 0 <= i < n ==> IsDigit(s[i], radix)
    ensures n < |s| ==> !IsDigit(s[n], radix)
    decreases |s|
  {
    if |s| > 0 && IsDigit(s[0], radix) then 1 + DigitRun(s[1..], radix) else 0
  }

  /** The number written by an all-digit string, most significant digit first. */
  function Value(s: string, radix: nat): nat
    requires forall i :: 0 <= i < |s| ==> IsDigit(s[i], radix)
    decreases |s|
  {
    if |s| == 0 then 0
    else Value(s[..|s| - 1], radix) * radix + DigitValue(s[|s| - 1])
  }

  /** The sign `parseInt` reads after the white space: whether it is a minus,
      and the text after it. */
  function ReadSign(s: string): (bool, string) {
    if |s| > 0 && (s[0] == '-' || s[0] == '+') then (s[0] == '-', s[1..]) else (false, s)
  }

  /** The radix `parseInt` uses with no radix argument (16 after a `0x` or
      `0X` prefix, 10 otherwise) and the text after the prefix. */
  function ReadRadix(s: string): (nat, string) {
    if |s| >= 2 && s[0] == '0' && (s[1] == 'x' || s[1] == 'X') then (16, s[2..]) else (10, s)
  }

  /** The value of the longest digit prefix, or `None` when there is no digit. */
  function ReadDigits(s: string, radix: nat): Option<nat> {
    var n := DigitRun(s, radix);
    if n == 0 then None else Some(Value(s[..n], radix))
  }

  /** The global `parseInt(s)` with no radix argument: skip leading white
      space, read an optional sign, read a `0x`/`0X` prefix as radix 16 and
      otherwise use radix 10, then read digits up to the first non-digit.
      `None` is `NaN` (no digit at all): in particular every text without a
      decimal digit, since a `0x` prefix starts with one. */
  function ParseInt(input: string): (r: Option<int>)
    ensures (forall i :: 0 <= i < |input| ==> !IsDigit(input[i], 10)) ==> r.None?
  {
    var t := TrimStart(input);
    assert (forall i :: 0 <= i < |input| ==> !IsDigit(input[i], 10)) ==> ParseTrimmed(t) == None by {
      if forall i :: 0 <= i < |input| ==> !IsDigit(input[i], 10) {
        assert forall i :: 0 <= i < |t| ==> t[i] == input[|input| - |t| + i];
        NoDigitsTrimmed(t);
      }
    }
    ParseTrimmed(t)
  }

  /** `parseInt` after the leading white space. */
  function ParseTrimmed(s: string): Option<int> {
    var (negative, unsigned) := ReadSign(s);
    var (radix, digits) := ReadRadix(unsigned);
    match ReadDigits(digits, radix)
    case None => None
    case Some(v) => var x: int := v; Some(if negative then -x else x)
  }

  /** The decimal rendering of a natural number, without leading zeros. */
  function Decimal(n: nat): (s: string)
    ensures |s| > 0
    ensures forall i :: 0 <= i < |s| ==> IsDigit(s[i], 10)
    ensures |s| > 1 ==> s[0] != '0'
    decreases n
  {
    if n < 10 then ['0' + n as char]
    else Decimal(n / 10) + ['0' + (n % 10) as char]
  }

  /** Reading back a decimal rendering gives the number. */
  lemma {:induction false} ValueOfDecimal(n: nat)
    ensures Value(Decimal(n), 10) == n
    decreases n
  {
    if n >= 10 {
      var s := Decimal(n);
      assert s[..|s| - 1] == Decimal(n / 10);
      ValueOfDecimal(n / 10);
    }
  }

  /** Reading the decimal rendering of `n`, followed by anything that does not
      continue the digits, gives `n`. */
  lemma ReadDigitsOfDecimal(n: nat, rest: string)
    requires |rest| > 0 ==> !IsDigit(rest[0], 10)
    ensures ReadDigits(Decimal(n) + rest, 10) == Some(n)
  {
    var d := Decimal(n);
    DigitRunOfPrefix(d, rest, 10);
    assert (d + rest)[..|d|] == d;
    ValueOfDecimal(n);
  }

  lemma DigitIsNotSpace(c: char)
    requires IsDigit(c, 10)
    ensures '0' <= c <= '9' && !IsSpace(c)
  {
  }

  lemma TrimStartAtNonSpace(s: string)
    requires |s| > 0 && !IsSpace(s[0])
    ensures TrimStart(s) == s
  {
  }

  /** A decimal rendering starts with a digit and never with a `0x` prefix. */
  lemma DecimalHasNoPrefix(n: nat, rest: string)
    requires |rest| > 0 ==> rest[0] != 'x' && rest[0] != 'X'
    ensures ReadRadix(Decimal(n) + rest) == (10, Decimal(n) + rest)
    ensures ReadSign(Decimal(n) + rest) == (false, Decimal(n) + rest)
    ensures TrimStart(Decimal(n) + rest) == Decimal(n) + rest
  {
    var d := Decimal(n);
    var s := d + rest;
    assert s[0] == d[0];
    DigitIsNotSpace(s[0]);
    TrimStartAtNonSpace(s);
    if |s| >= 2 {
      if |d| == 1 {
        assert s[1] == rest[0];
      } else {
        assert s[1] == d[1];
        DigitIsNotSpace(d[1]);
      }
    }
  }

  /** `parseInt` stops at the first character that is not a digit: a decimal
      number followed by anything that does not continue it reads as the number
      alone (so "2.5" and "1e3" read as 2 and 1). */
  lemma ParseIntStopsAtNonDigit(n: nat, rest: string)
    requires |rest| > 0 ==> !IsDigit(rest[0], 10) && rest[0] != 'x' && rest[0] != 'X'
    ensures ParseInt(Decimal(n) + rest) == Some(n)
  {
    DecimalHasNoPrefix(n, rest);
    ReadDigitsOfDecimal(n, rest);
  }

  /** `parseInt(String(k))` is `k` for every integer `k`. */
  lemma ParseIntOfDecimal(k: int)
    ensures k >= 0 ==> ParseInt(Decimal(k)) == Some(k)
    ensures k < 0 ==> ParseInt("-" + Decimal(-k)) == Some(k)
  {
    if k >= 0 {
      assert Decimal(k) + "" == Decimal(k);
      ParseIntStopsAtNonDigit(k, "");
    } else {
      var d := Decimal(-k);
      var s := "-" + d;
      assert TrimStart(s) == s;
      assert ReadSign(s) == (true, d);
      assert d + "" == d;
      DecimalHasNoPrefix(-k, "");
      ReadDigitsOfDecimal(-k, "");
    }
  }

  lemma TrimStartAtSpace(s: string)
    requires |s| > 0 && IsSpace(s[0])
    ensures TrimStart(s) == TrimStart(s[1..])
  {
  }

  /** Leading white space does not change what `parseInt` reads. */
  lemma ParseIntSkipsSpace(c: char, s: string)
    requires IsSpace(c)
    ensures ParseInt([c] + s) == ParseInt(s)
  {
    var t := [c] + s;
    assert t[0] == c && t[1..] == s;
    TrimStartAtSpace(t);
  }

  lemma {:induction false} DigitRunOfPrefix(d: string, rest: string, radix: nat)
    requires forall i :: 0 <= i < |d| ==> IsDigit(d[i], radix)
    requires |rest| > 0 ==> !IsDigit(rest[0], radix)
    ensures DigitRun(d + rest, radix) == |d|
    decreases |d|
  {
    if |d| > 0 {
      assert (d + rest)[1..] == d[1..] + rest;
      DigitRunOfPrefix(d[1..], rest, radix);
    } else {
      assert d + rest == rest;
    }
  }

  /** Past the white space, text without a decimal digit reads as `NaN`: the
      sign leaves a digit-free rest, which cannot start with `0x` and has no
      radix-10 digit to read. */
  lemma NoDigitsTrimmed(t: string)
    requires forall i :: 0 <= i < |t| ==> !IsDigit(t[i], 10)
    ensures ParseTrimmed(t) == None
  {
    var (negative, unsigned) := ReadSign(t);
    assert unsigned == t || unsigned == t[1..];
    assert forall i :: 0 <= i < |unsigned| ==> !IsDigit(unsigned[i], 10);
    assert |unsigned| > 0 ==> DigitValue(unsigned[0]) >= 10;
    assert ReadRadix(unsigned) == (10, unsigned);
    assert DigitRun(unsigned, 10) == 0;
  }

}
