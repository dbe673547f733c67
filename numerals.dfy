/**
 * Rendering of non-negative integers as digit strings, as JavaScript's
 * `Number.prototype.toString(radix)` and Python's `str(int)` do, and
 * `String.prototype.padStart`. `ValueOf` reads a digit string back and is the
 * partner every rendering here is proved against.
 */
module Numerals {

  /** The digit for `d`: '0'..'9', then lower-case 'a'..'f'. */
  function Digit(d: nat): char
    requires d < 16
  {
    if d < 10 then (48 + d) as char else (87 + d) as char
  }

  /** `c` is a lower-case digit of base `radix`. */
  predicate IsDigit(c: char, radix: nat) {
    || ('0' <= c <= '9' && (c as int) - 48 < radix)
    || ('a' <= c <= 'f' && (c as int) - 87 < radix)
  }

  /** The value of a digit character; 0 for anything that is not a digit. */
  function DigitValue(c: char): (v: nat)
    ensures v < 16
  {
    if '0' <= c <= '9' then (c as int) - 48
    else if 'a' <= c <= 'f' then (c as int) - 87
    else 0
  }

  /** Reading a digit back gives its value. */
  lemma DigitRoundTrip(d: nat)
    requires d < 16
    ensures DigitValue(Digit(d)) == d
  {
    var c := Digit(d);
    assert c as int == if d < 10 then 48 + d else 87 + d;
  }

  /** The number a string of digits denotes, most significant digit first. */
  function ValueOf(s: string, radix: nat): nat {
    if s == [] then 0 else ValueOf(s[..|s| - 1], radix) * radix + DigitValue(s[|s| - 1])
  }

  /** A digit of the base is a digit character of the base, and only zero shows as '0'. */
  lemma DigitIsDigit(d: nat, radix: nat)
    requires d < radix <= 16
    ensures IsDigit(Digit(d), radix)
    ensures Digit(d) == '0' <==> d == 0
  {
    var c := Digit(d);
    assert c as int == if d < 10 then 48 + d else 87 + d;
  }

  /** Division by the base: quotient and remainder, and the quotient shrinks. */
  lemma DivMod(n: nat, radix: nat)
    requires 2 <= radix <= n
    ensures n == n / radix * radix + n % radix
    ensures 0 <= n % radix < radix
    ensures 1 <= n / radix < n
  {
    var q, r := n / radix, n % radix;
    assert n == q * radix + r && 0 <= r < radix;
    assert q * radix > 0;
    MulPositive(q, radix);
    assert q * (radix - 2) >= 0 by {
      MulPositive(q, radix - 1);
    }
    assert q * radix - q * 2 == q * (radix - 2);
  }

  lemma MulPositive(a: int, b: int)
    requires b > 0
    ensures a * b > 0 <==> a > 0
  {
  }

  /** `n.toString(radix)` for a non-negative integer `n`. */
  function ToRadix(n: nat, radix: nat): (s: string)
    requires 2 <= radix <= 16
    ensures 1 <= |s|
    ensures forall i :: 0 <= i < |s| ==> IsDigit(s[i], radix)
    ensures |s| == 1 <==> n < radix
    ensures |s| > 1 ==> s[0] != '0'
    decreases n
  {
    if n < radix then
      DigitIsDigit(n, radix);
      [Digit(n)]
    else
      DivMod(n, radix);
      var q, r := n / radix, n % radix;
      DigitIsDigit(r, radix);
      DigitIsDigit(if q < radix then q else 0, radix);
      ToRadix(q, radix) + [Digit(r)]
  }

  /** Rendering then reading back gives the number again. */
  lemma {:induction false} ToRadixValue(n: nat, radix: nat)
    requires 2 <= radix <= 16
    ensures ValueOf(ToRadix(n, radix), radix) == n
    decreases n
  {
    if n >= radix {
      DivMod(n, radix);
      var q, r := n / radix, n % radix;
      var s := ToRadix(n, radix);
      assert s[..|s| - 1] == ToRadix(q, radix);
      DigitRoundTrip(r);
      ToRadixValue(q, radix);
    } else {
      DigitRoundTrip(n);
    }
  }

  /** `n` copies of `c`. */
  function Fill(c: char, n: nat): (r: string)
    ensures |r| == n && forall i :: 0 <= i < n ==> r[i] == c
  {
    if n == 0 then [] else [c] + Fill(c, n - 1)
  }

  /** `s.padStart(width, fill)`: `s` right-aligned in at least `width` characters. */
  function PadStart(s: string, width: nat, fill: char): (r: string)
    ensures |r| == if |s| < width then width else |s|
  {
    if |s| >= width then s else Fill(fill, width - |s|) + s
  }

  /** Leading zeros do not change the value of a digit string. */
  lemma {:induction false} LeadingZerosValue(z: nat, s: string, radix: nat)
    ensures ValueOf(Fill('0', z) + s, radix) == ValueOf(s, radix)
    decreases |s|
  {
    var zeros: string := Fill('0', z);
    if s == [] {
      assert zeros + s == zeros;
      ZerosValue(z, radix);
    } else {
      var t := zeros + s;
      assert t[..|t| - 1] == zeros + s[..|s| - 1];
      LeadingZerosValue(z, s[..|s| - 1], radix);
    }
  }

  lemma {:induction false} ZerosValue(z: nat, radix: nat)
    ensures ValueOf(Fill('0', z), radix) == 0
  {
    if z > 0 {
      var zeros: string := Fill('0', z);
      assert zeros[..z - 1] == Fill('0', z - 1);
      ZerosValue(z - 1, radix);
    }
  }

  /** Padding a rendered number with '0' keeps its value and its digits. */
  lemma PaddedValue(n: nat, radix: nat, width: nat)
    requires 2 <= radix <= 16
    ensures ValueOf(PadStart(ToRadix(n, radix), width, '0'), radix) == n
    ensures forall i :: 0 <= i < |PadStart(ToRadix(n, radix), width, '0')| ==>
              IsDigit(PadStart(ToRadix(n, radix), width, '0')[i], radix)
  {
    var s := ToRadix(n, radix);
    ToRadixValue(n, radix);
    if |s| < width {
      var zeros := Fill('0', width - |s|);
      assert PadStart(s, width, '0') == zeros + s;
      LeadingZerosValue(width - |s|, s, radix);
      ZerosThenDigits(width - |s|, s, radix);
    }
  }

  /** Zeros in front of digits leave only digits. */
  lemma ZerosThenDigits(z: nat, s: string, radix: nat)
    requires 2 <= radix
    requires forall i :: 0 <= i < |s| ==> IsDigit(s[i], radix)
    ensures forall i :: 0 <= i < |Fill('0', z) + s| ==> IsDigit((Fill('0', z) + s)[i], radix)
  {
    var t := Fill('0', z) + s;
    forall i | 0 <= i < |t|
      ensures IsDigit(t[i], radix)
    {
      if i < z {
        assert t[i] == '0';
      } else {
        assert t[i] == s[i - z];
      }
    }
  }

  /** Python's `str(i)` and a JavaScript template's `${i}` for an integer. */
  function DecimalString(i: int): string {
    if i < 0 then "-" + ToRadix(-i, 10) else ToRadix(i, 10)
  }

  /** The decimal text of an integer reads back as that integer, with a sign exactly when negative. */
  lemma DecimalStringValue(i: int)
    ensures var s := DecimalString(i);
            && 1 <= |s|
            && (i < 0 <==> s[0] == '-')
            && (i < 0 ==> ValueOf(s[1..], 10) == -i)
            && (i >= 0 ==> ValueOf(s, 10) == i)
  {
    var n := if i < 0 then -i else i;
    ToRadixValue(n, 10);
    if i < 0 {
      assert ("-" + ToRadix(n, 10))[1..] == ToRadix(n, 10);
    } else {
      assert ToRadix(n, 10)[0] != '-';
    }
  }
}
