/**
 * String helpers: ASCII case mapping (JavaScript `toLowerCase` /
 * `toUpperCase` restricted to ASCII), substring search (`includes`) and
 * digit strings in base 10 and 16 (`String(n)`, `n.toString(16)`).
 */
module Text {

  function LowerChar(c: char): char
  {
    if 'A' <= c <= 'Z' then (c as int + 32) as char else c
  }

  function UpperChar(c: char): char
  {
    if 'a' <= c <= 'z' then (c as int - 32) as char else c
  }

  function Lower(s: string): (r: string)
    ensures |r| == |s|
    ensures forall i :: 0 <= i < |s| ==> r[i] == LowerChar(s[i])
  {
    seq(|s|, i requires 0 <= i < |s| => LowerChar(s[i]))
  }

  function Upper(s: string): (r: string)
    ensures |r| == |s|
    ensures forall i :: 0 <= i < |s| ==> r[i] == UpperChar(s[i])
  {
    seq(|s|, i requires 0 <= i < |s| => UpperChar(s[i]))
  }

  /** `needle` occurs in `hay` at position `i`. */
  predicate OccursAt(needle: string, hay: string, i: int)
  {
    0 <= i && i + |needle| <= |hay| && hay[i..i + |needle|] == needle
  }

  /** JavaScript `hay.includes(needle)`. */
  predicate Contains(hay: string, needle: string)
  {
    exists i :: 0 <= i <= |hay| - |needle| && OccursAt(needle, hay, i)
  }

  /** The character of digit `d` (upper-case letters from 10 on). */
  function DigitChar(d: nat): char
    requires d < 16
  {
    if d < 10 then ('0' as int + d) as char else ('A' as int + d - 10) as char
  }

  /** `c` is a digit of `base` as written by DigitChar. */
  predicate IsDigitIn(c: char, base: nat)
  {
    || ('0' <= c <= '9' && c as int - '0' as int < base)
    || ('A' <= c <= 'F' && c as int - 'A' as int + 10 < base)
  }

  function DigitValue(c: char): nat
  {
    if '0' <= c <= '9' then c as int - '0' as int
    else if 'A' <= c <= 'F' then c as int - 'A' as int + 10
    else 0
  }

  lemma DigitValueOfChar(d: nat)
    requires d < 16
    ensures DigitValue(DigitChar(d)) == d
  {
  }

  /** The digits of `n` in `base`, most significant first, without leading zeros. */
  function ToDigits(n: nat, base: nat): (r: string)
    requires 2 <= base <= 16
    ensures |r| >= 1
    ensures forall i :: 0 <= i < |r| ==> IsDigitIn(r[i], base)
  {
    if n < base then [DigitChar(n)]
    else
      DivMod(n, base);
      ToDigits(n / base, base) + [DigitChar(n % base)]
  }

  lemma DivMod(n: nat, base: nat)
    requires 2 <= base <= n
    ensures n == (n / base) * base + n % base
    ensures 0 <= n % base < base && 1 <= n / base < n
  {
  }

  /** The value of a digit string, most significant first. */
  function FromDigits(s: string, base: nat): nat
  {
    if s == [] then 0
    else FromDigits(s[..|s| - 1], base) * base + DigitValue(s[|s| - 1])
  }

  /** Reading the digits back gives the number. */
  lemma {:induction false} DigitsRoundTrip(n: nat, base: nat)
    requires 2 <= base <= 16
    ensures FromDigits(ToDigits(n, base), base) == n
  {
    var r := ToDigits(n, base);
    if n < base {
      DigitValueOfChar(n);
      assert r[..0] == [];
    } else {
      DivMod(n, base);
      DigitsRoundTrip(n / base, base);
      DigitValueOfChar(n % base);
      assert r[..|r| - 1] == ToDigits(n / base, base);
    }
  }

  /** A number below `base^k` needs at most `k` digits. */
  lemma {:induction false} DigitsLength(n: nat, base: nat, k: nat)
    requires 2 <= base <= 16
    requires k >= 1 && n < Power(base, k)
    ensures |ToDigits(n, base)| <= k
  {
    if n >= base {
      DivMod(n, base);
      assert Power(base, k) == base * Power(base, k - 1);
      assert |ToDigits(n, base)| == |ToDigits(n / base, base)| + 1;
      QuotientBelow(n, base, Power(base, k - 1));
      DigitsLength(n / base, base, k - 1);
    }
  }

  lemma QuotientBelow(n: nat, base: nat, p: nat)
    requires base >= 2 && n < base * p
    ensures n / base < p
  {
    var q := n / base;
    assert q * base <= n;
  }

  function Power(b: nat, k: nat): nat
  {
    if k == 0 then 1 else b * Power(b, k - 1)
  }

  /** Leading zeros do not change the value of a digit string. */
  lemma {:induction false} LeadingZeros(z: nat, s: string, base: nat)
    ensures FromDigits(Zeros(z) + s, base) == FromDigits(s, base)
    decreases |s|
  {
    if s == [] {
      ZerosValue(z, base);
      assert Zeros(z) + s == Zeros(z);
    } else {
      var t := Zeros(z) + s;
      assert t[..|t| - 1] == Zeros(z) + s[..|s| - 1];
      LeadingZeros(z, s[..|s| - 1], base);
    }
  }

  function Zeros(z: nat): (r: string)
    ensures |r| == z && forall i :: 0 <= i < z ==> r[i] == '0'
  {
    seq(z, _ => '0')
  }

  lemma {:induction false} ZerosValue(z: nat, base: nat)
    ensures FromDigits(Zeros(z), base) == 0
  {
    if z > 0 {
      assert Zeros(z)[..z - 1] == Zeros(z - 1);
      ZerosValue(z - 1, base);
    }
  }

  /** Python `str(n)` / JavaScript `String(n)` for an integer. */
  function IntToString(n: int): (r: string)
    ensures |r| >= 1
  {
    if n < 0 then "-" + ToDigits(-n, 10) else ToDigits(n, 10)
  }

  lemma DecimalDigitsNoMinus(n: nat)
    ensures '-' !in ToDigits(n, 10)
  {
  }

  /** Reads back a string written by IntToString. */
  function ParseInt(s: string): int
  {
    if |s| > 0 && s[0] == '-' then -(FromDigits(s[1..], 10) as int) else FromDigits(s, 10)
  }

  lemma IntToStringRoundTrip(n: int)
    ensures ParseInt(IntToString(n)) == n
  {
    if n < 0 {
      DigitsRoundTrip(-n, 10);
      assert ("-" + ToDigits(-n, 10))[1..] == ToDigits(-n, 10);
    } else {
      DigitsRoundTrip(n, 10);
      assert IsDigitIn(ToDigits(n, 10)[0], 10);
    }
  }

  /** Distinct integers print differently. */
  lemma IntToStringInjective(a: int, b: int)
    requires IntToString(a) == IntToString(b)
    ensures a == b
  {
    IntToStringRoundTrip(a);
    IntToStringRoundTrip(b);
  }
}
