/**
 * The avatar helpers (frontend/src/Avatar.jsx): the background colour
 * derived from a user's name by a 32-bit string hash, and the initials
 * shown when there is no picture.
 */
module Avatar {
  import opened Wrappers
  import opened Text

  const TWO_32: int := 0x1_0000_0000
  const TWO_31: int := 0x8000_0000
  const TWO_24: int := 0x100_0000

  /** The colour of a missing or empty name. */
  const DefaultColor: string := "#dfe1e6"

  /** ECMAScript ToInt32 on an integral number: the signed 32-bit value congruent modulo 2^32. */
  function ToInt32(x: int): (r: int)
    ensures -TWO_31 <= r < TWO_31
    ensures (x - r) % TWO_32 == 0
  {
    var m := x % TWO_32;
    if m >= TWO_31 then m - TWO_32 else m
  }

  /** `x << 5` in JavaScript: both the operand and the result go through ToInt32. */
  function ShiftLeft5(x: int): (r: int)
    ensures -TWO_31 <= r < TWO_31
    ensures (r - 32 * x) % TWO_32 == 0
  {
    var t := ToInt32(x);
    var r := ToInt32(t * 32);
    ScaleCongruent(x, t);
    AddCongruent(r - 32 * t, 32 * t - 32 * x);
    r
  }

  /** Congruence modulo 2^32 is kept by scaling by 32. */
  lemma ScaleCongruent(x: int, t: int)
    requires (x - t) % TWO_32 == 0
    ensures (32 * t - 32 * x) % TWO_32 == 0
  {
    var q := (x - t) / TWO_32;
    assert x - t == q * TWO_32;
    assert 32 * t - 32 * x == (-32 * q) * TWO_32;
    MultipleMod(-32 * q);
  }

  /** The sum of two multiples of 2^32 is one. */
  lemma AddCongruent(a: int, b: int)
    requires a % TWO_32 == 0 && b % TWO_32 == 0
    ensures (a + b) % TWO_32 == 0
  {
    var qa := a / TWO_32;
    var qb := b / TWO_32;
    assert a == qa * TWO_32 && b == qb * TWO_32;
    assert a + b == (qa + qb) * TWO_32;
    MultipleMod(qa + qb);
  }

  lemma MultipleMod(k: int)
    ensures (k * TWO_32) % TWO_32 == 0
  {
  }

  /**
   * The hash after reading `s`: each character's code is added to
   * `(hash << 5) - hash`, starting from 0. `hash` itself is a JavaScript
   * number, so it is not truncated; only the shift is.
   */
  function Hash(s: string): int
  {
    if s == [] then 0
    else s[|s| - 1] as int + (ShiftLeft5(Hash(s[..|s| - 1])) - Hash(s[..|s| - 1]))
  }

  /** Names that start alike hash alike: the hash of `s + [c]` depends only on the hash of `s` and `c`. */
  lemma HashSnoc(s: string, c: char)
    ensures Hash(s + [c]) == c as int + (ShiftLeft5(Hash(s)) - Hash(s))
  {
    assert (s + [c])[..|s|] == s;
  }

  /** The base-31 polynomial string hash: each character's code added to 31 times the hash so far. */
  function Poly31(s: string): int
  {
    if s == [] then 0 else 31 * Poly31(s[..|s| - 1]) + s[|s| - 1] as int
  }

  /** A multiple of 2^32 stays one when scaled by 31. */
  lemma Scale31(a: int)
    requires a % TWO_32 == 0
    ensures (31 * a) % TWO_32 == 0
  {
    var q := a / TWO_32;
    assert a == q * TWO_32;
    assert 31 * a == (31 * q) * TWO_32;
    MultipleMod(31 * q);
  }

  /**
   * `(hash << 5) - hash` is `31 * hash` up to the truncation of the shift,
   * so the avatar hash agrees with the base-31 polynomial hash modulo 2^32.
   */
  lemma {:induction false} HashIsPoly31(s: string)
    ensures (Hash(s) - Poly31(s)) % TWO_32 == 0
  {
    if s != [] {
      var init := s[..|s| - 1];
      var h := Hash(init);
      var p := Poly31(init);
      HashIsPoly31(init);
      Scale31(h - p);
      assert Hash(s) - Poly31(s) == (ShiftLeft5(h) - 32 * h) + 31 * (h - p);
      AddCongruent(ShiftLeft5(h) - 32 * h, 31 * (h - p));
    }
  }

  /** Euclidean division by 2^24 is unique: a quotient and a remainder in range fix `y % 2^24`. */
  lemma ModUnique24(y: int, a: int, r: int)
    requires y == a * TWO_24 + r && 0 <= r < TWO_24
    ensures y % TWO_24 == r
  {
    var q := y / TWO_24;
    var m := y % TWO_24;
    assert y == q * TWO_24 + m && 0 <= m < TWO_24;
    assert (q - a) * TWO_24 == r - m;
  }

  /** The low 24 bits of the avatar hash are those of the base-31 polynomial hash. */
  lemma LowBitsArePoly31(s: string)
    ensures Hash(s) % TWO_24 == Poly31(s) % TWO_24
  {
    HashIsPoly31(s);
    var d := Hash(s) - Poly31(s);
    var q := d / TWO_32;
    assert d == q * TWO_32;
    var p := Poly31(s);
    var a := p / TWO_24;
    var r := p % TWO_24;
    assert p == a * TWO_24 + r;
    assert Hash(s) == (a + 256 * q) * TWO_24 + r;
    ModUnique24(Hash(s), a + 256 * q, r);
  }

  /** 16^6 is the number of six-digit hexadecimal values, 2^24. */
  lemma SixHexDigits()
    ensures Power(16, 6) == TWO_24
  {
    calc {
      Power(16, 6);
      16 * Power(16, 5);
      16 * 16 * Power(16, 4);
      16 * 16 * 16 * Power(16, 3);
      16 * 16 * 16 * 16 * Power(16, 2);
      16 * 16 * 16 * 16 * 16 * Power(16, 1);
      16 * 16 * 16 * 16 * 16 * 16 * Power(16, 0);
    }
  }

  /**
   * `stringToColor`: a missing or empty name gets the default grey. Any
   * other name gets '#' and six upper-case hexadecimal digits, zero-padded
   * on the left, whose value is the low 24 bits of the name's hash.
   */
  method StringToColor(name: Option<string>) returns (color: string)
    ensures name.None? || name.value == [] ==> color == DefaultColor
    ensures name.Some? && name.value != [] ==>
      && |color| == 7
      && color[0] == '#'
      && (forall i :: 1 <= i < 7 ==> IsDigitIn(color[i], 16))
      && FromDigits(color[1..], 16) == Hash(name.value) % TWO_24
      && FromDigits(color[1..], 16) == Poly31(name.value) % TWO_24
  {
    if name.None? || name.value == [] {
      return DefaultColor;
    }
    var s := name.value;
    var hash := 0;
    for i := 0 to |s|
      invariant hash == Hash(s[..i])
    {
      HashSnoc(s[..i], s[i]);
      assert s[..i + 1] == s[..i] + [s[i]];
      hash := s[i] as int + (ShiftLeft5(hash) - hash);
    }
    assert s[..|s|] == s;
    // `hash & 0x00ffffff` keeps the low 24 bits of ToInt32(hash), which are those of hash.
    var low := hash % TWO_24;
    var c := ToDigits(low, 16);
    SixHexDigits();
    DigitsLength(low, 16, 6);
    var pad := "00000"[..6 - |c|];
    color := "#" + pad + c;

    assert pad == Zeros(6 - |c|);
    assert color[1..] == Zeros(6 - |c|) + c;
    LeadingZeros(6 - |c|, c, 16);
    DigitsRoundTrip(low, 16);
    LowBitsArePoly31(s);
    forall i | 1 <= i < 7
      ensures IsDigitIn(color[i], 16)
    {
      if i < 7 - |c| {
        assert color[i] == '0';
      } else {
        assert color[i] == c[i - (7 - |c|)];
      }
    }
  }

  /**
   * `getInitials`: '?' for a missing or empty name, otherwise its first two
   * characters (one for a one-character name), upper-cased.
   */
  function GetInitials(name: Option<string>): (r: string)
    ensures name.None? || name.value == [] ==> r == "?"
    ensures name.Some? && name.value != [] ==>
      && |r| == (if |name.value| < 2 then |name.value| else 2)
      && forall i :: 0 <= i < |r| ==> r[i] == UpperChar(name.value[i])
  {
    if name.None? || name.value == [] then "?"
    else Upper(name.value[..if |name.value| < 2 then |name.value| else 2])
  }
}
