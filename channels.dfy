/**
 * Per-channel colour arithmetic shared by both Color classes of the system
 * (the on-device one and the offline one): the factor-capped scaling of
 * `__mul__`/`__imul__`, the clamped addition of `__add__`/`__iadd__`, `blend`,
 * the 24-bit packing of `__int__` and the `#rrggbb`-style string of `__str__`.
 * Channels are exact reals; Python's `int()` on a float is truncation toward zero.
 */
module Channels {
  import opened Base
  import opened Text

  /** The three channel values of a colour, nominally in [0, 1]. */
  datatype Rgb = Rgb(r: real, g: real, b: real)

  predicate InUnit(c: Rgb)
  {
    0.0 <= c.r <= 1.0 && 0.0 <= c.g <= 1.0 && 0.0 <= c.b <= 1.0
  }

  predicate AtMostOne(c: Rgb)
  {
    c.r <= 1.0 && c.g <= 1.0 && c.b <= 1.0
  }

  /** Python's `int(x)` on a float: truncation toward zero. */
  function Trunc(x: real): (n: int)
    ensures 0.0 <= x ==> n as real <= x < n as real + 1.0
    ensures x < 0.0 ==> n as real - 1.0 < x <= n as real
  {
    if x >= 0.0 then x.Floor else -((-x).Floor)
  }

  /**
   * A value capped at 1 and not bounded below: the multiplier `__mul__` and
   * `__imul__` actually apply, and each channel of a sum in `__add__` and `__iadd__`.
   */
  function Cap(mult: real): (m: real)
    ensures m <= 1.0 && m <= mult
    ensures mult <= 1.0 ==> m == mult
  {
    if mult > 1.0 then 1.0 else mult
  }

  /** `c * mult`. */
  function Scaled(c: Rgb, mult: real): (s: Rgb)
    ensures mult >= 1.0 ==> s == c
  {
    var m := Cap(mult);
    Rgb(c.r * m, c.g * m, c.b * m)
  }

  /** A non-negative factor keeps channels in [0, 1]. */
  lemma ScaledInUnit(c: Rgb, mult: real)
    requires InUnit(c) && 0.0 <= mult
    ensures InUnit(Scaled(c, mult))
  {
    var m := Cap(mult);
    UnitProduct(c.r, m);
    UnitProduct(c.g, m);
    UnitProduct(c.b, m);
  }

  lemma UnitProduct(x: real, m: real)
    requires 0.0 <= x <= 1.0 && 0.0 <= m <= 1.0
    ensures 0.0 <= x * m <= 1.0
  {
    MulAtMost(x, m);
    assert x * m <= m;
  }

  lemma MulAtMost(x: real, m: real)
    requires x <= 1.0 && 0.0 <= m
    ensures x * m <= m
  {
    assert (1.0 - x) * m >= 0.0;
  }

  /** `c + o`. */
  function Sum(c: Rgb, o: Rgb): (s: Rgb)
    ensures AtMostOne(s)
    ensures c.r + o.r <= 1.0 ==> s.r == c.r + o.r
    ensures c.g + o.g <= 1.0 ==> s.g == c.g + o.g
    ensures c.b + o.b <= 1.0 ==> s.b == c.b + o.b
    ensures c.r + o.r > 1.0 ==> s.r == 1.0
    ensures c.g + o.g > 1.0 ==> s.g == 1.0
    ensures c.b + o.b > 1.0 ==> s.b == 1.0
  {
    Rgb(Cap(c.r + o.r), Cap(c.g + o.g), Cap(c.b + o.b))
  }

  /** `c.blend(o, fraction)`: `c * (1 - fraction) + o * fraction`. */
  function Blend(c: Rgb, o: Rgb, fraction: real): (b: Rgb)
    ensures AtMostOne(b)
  {
    Sum(Scaled(c, 1.0 - fraction), Scaled(o, fraction))
  }

  /** At fraction 0 a blend is the first colour. */
  lemma BlendAtZero(c: Rgb, o: Rgb)
    requires AtMostOne(c)
    ensures Blend(c, o, 0.0) == c
  {
  }

  /** At fraction 1 a blend is the second colour. */
  lemma BlendAtOne(c: Rgb, o: Rgb)
    requires AtMostOne(o)
    ensures Blend(c, o, 1.0) == o
  {
  }

  /**
   * Between two colours with channels in [0, 1], and for a fraction in [0, 1],
   * no clamping happens: a blend is the exact linear interpolation.
   */
  lemma BlendIsInterpolation(c: Rgb, o: Rgb, f: real)
    requires InUnit(c) && InUnit(o) && 0.0 <= f <= 1.0
    ensures Blend(c, o, f) == Rgb(c.r * (1.0 - f) + o.r * f, c.g * (1.0 - f) + o.g * f, c.b * (1.0 - f) + o.b * f)
    ensures InUnit(Blend(c, o, f))
  {
    assert Cap(1.0 - f) == 1.0 - f && Cap(f) == f;
    var x, y := Scaled(c, 1.0 - f), Scaled(o, f);
    assert x == Rgb(c.r * (1.0 - f), c.g * (1.0 - f), c.b * (1.0 - f));
    assert y == Rgb(o.r * f, o.g * f, o.b * f);
    Convex(c.r, o.r, f);
    Convex(c.g, o.g, f);
    Convex(c.b, o.b, f);
  }

  lemma Convex(x: real, y: real, f: real)
    requires 0.0 <= x <= 1.0 && 0.0 <= y <= 1.0 && 0.0 <= f <= 1.0
    ensures 0.0 <= x * (1.0 - f) + y * f <= 1.0
  {
    MulAtMost(y, f);
    assert y * f <= f;
    MulAtMost(x, 1.0 - f);
    assert x * (1.0 - f) <= 1.0 - f;
    assert y * f <= f;
    assert 0.0 <= x * (1.0 - f);
    assert 0.0 <= y * f;
  }

  /** Scaling never clamps below: a negative factor (a fraction above 1 in a blend) gives negative channels. */
  lemma ScaledNegative()
    ensures Scaled(Rgb(1.0, 1.0, 1.0), -1.0) == Rgb(-1.0, -1.0, -1.0)
    ensures Blend(Rgb(1.0, 1.0, 1.0), Rgb(0.0, 0.0, 0.0), 2.0) == Rgb(-1.0, -1.0, -1.0)
  {
    assert Cap(-1.0) == -1.0;
    assert Scaled(Rgb(1.0, 1.0, 1.0), -1.0) == Rgb(1.0 * -1.0, 1.0 * -1.0, 1.0 * -1.0);
    assert Scaled(Rgb(0.0, 0.0, 0.0), 2.0) == Rgb(0.0, 0.0, 0.0);
  }

  /** The magnitude that `BitOr` recursion reduces: `x` for `x >= 0`, `~x` otherwise. */
  function Mag(x: int): nat
  {
    if x >= 0 then x else -x - 1
  }

  lemma MagHalf(x: int)
    ensures Mag(x / 2) == Mag(x) / 2
  {
  }

  /** Python's `a | b` on integers, bit by bit in unbounded two's complement. */
  function BitOr(a: int, b: int): (r: int)
    decreases Mag(a) + Mag(b)
    ensures 0 <= a && 0 <= b ==> a <= r && b <= r && r <= a + b
  {
    if (a == 0 || a == -1) && (b == 0 || b == -1) then
      if a == -1 || b == -1 then -1 else 0
    else
      MagHalf(a);
      MagHalf(b);
      2 * BitOr(a / 2, b / 2) + (if a % 2 == 1 || b % 2 == 1 then 1 else 0)
  }

  lemma Pow2Constants()
    ensures Pow2(8) == 256 && Pow2(16) == 65536 && Pow2(24) == 0x100_0000
  {
    assert Pow2(4) == 16;
    assert Pow2(8) == 256;
    assert Pow2(12) == 4096;
    assert Pow2(16) == 65536;
    assert Pow2(20) == 0x10_0000;
  }

  /** `16^k` is `16` times `16^(k - 1)`. */
  lemma Pow16Step(k: nat)
    requires k >= 1
    ensures Pow2(4 * k) == 16 * Pow2(4 * (k - 1))
  {
    var m := 4 * (k - 1);
    assert Pow2(m + 1) == 2 * Pow2(m);
    assert Pow2(m + 2) == 2 * Pow2(m + 1);
    assert Pow2(m + 3) == 2 * Pow2(m + 2);
    assert Pow2(m + 4) == 2 * Pow2(m + 3);
  }

  /** A number below `16^k` has at most `k` hexadecimal digits. */
  lemma {:induction false} HexLength(n: nat, k: nat)
    requires k >= 1 && n < Pow2(4 * k)
    ensures |Numeral(n, 16)| <= k
  {
    if n >= 16 {
      Pow16Step(k);
      DivStep(n, 16);
      var q := n / 16;
      assert q * 16 <= n < 16 * Pow2(4 * (k - 1));
      assert q < Pow2(4 * (k - 1));
      HexLength(q, k - 1);
      assert Numeral(n, 16) == Numeral(q, 16) + [DigitChar(n % 16)];
    }
  }

  lemma {:induction false} OrZero(a: int)
    ensures BitOr(a, 0) == a
    decreases Mag(a)
  {
    if a != 0 && a != -1 {
      MagHalf(a);
      OrZero(a / 2);
    }
  }

  /** OR with a value below `2^k` into a multiple of `2^k` is an addition: the bits do not meet. */
  lemma {:induction false} OrDisjoint(m: int, k: nat, b: nat)
    requires b < Pow2(k)
    ensures BitOr(m * Pow2(k), b) == m * Pow2(k) + b
  {
    if k == 0 {
      OrZero(m);
    } else {
      var a := m * Pow2(k);
      var h := m * Pow2(k - 1);
      assert a == 2 * h;
      assert a / 2 == h && a % 2 == 0;
      if (a == 0 || a == -1) && (b == 0 || b == -1) {
        assert a == 0 && b == 0;
      } else {
        OrDisjoint(m, k - 1, b / 2);
        assert BitOr(a, b) == 2 * BitOr(h, b / 2) + b % 2;
      }
    }
  }

  /** `to_tuple`: the truncated 0..255 value of each channel. */
  function Bytes(c: Rgb): (t: (int, int, int))
    ensures InUnit(c) ==> 0 <= t.0 < 256 && 0 <= t.1 < 256 && 0 <= t.2 < 256
  {
    if InUnit(c) then
      ByteRange(c.r);
      ByteRange(c.g);
      ByteRange(c.b);
      (Trunc(c.r * 255.0), Trunc(c.g * 255.0), Trunc(c.b * 255.0))
    else
      (Trunc(c.r * 255.0), Trunc(c.g * 255.0), Trunc(c.b * 255.0))
  }

  /** `int(c)`: `(R << 16) | (G << 8) | B` over the truncated channel bytes. */
  function Packed(c: Rgb): (p: int)
    ensures InUnit(c) ==> 0 <= p < 0x100_0000 && p == Bytes(c).0 * 65536 + Bytes(c).1 * 256 + Bytes(c).2
  {
    var t := Bytes(c);
    if InUnit(c) then
      OrOfBytes(t.0, t.1, t.2);
      SplitBytes(t.0, t.1, t.2);
      BitOr(BitOr(t.0 * 65536, t.1 * 256), t.2)
    else
      BitOr(BitOr(t.0 * 65536, t.1 * 256), t.2)
  }

  lemma ByteRange(x: real)
    requires 0.0 <= x <= 1.0
    ensures 0 <= Trunc(x * 255.0) <= 255
  {
  }

  /**
   * For channels in [0, 1] the packed value is a 24-bit number whose three bytes,
   * high to low, are the channel bytes of `to_tuple`.
   */
  lemma PackedBytes(c: Rgb)
    requires InUnit(c)
    ensures var t := Bytes(c);
      && 0 <= t.0 < 256 && 0 <= t.1 < 256 && 0 <= t.2 < 256
      && Packed(c) == t.0 * 65536 + t.1 * 256 + t.2
      && 0 <= Packed(c) < 0x100_0000
      && Packed(c) / 65536 == t.0 && Packed(c) / 256 % 256 == t.1 && Packed(c) % 256 == t.2
  {
    var t := Bytes(c);
    SplitBytes(t.0, t.1, t.2);
  }

  /** Shifted bytes that do not overlap combine by OR as by addition. */
  lemma OrOfBytes(x: int, y: int, z: int)
    requires 0 <= y < 256 && 0 <= z < 256
    ensures BitOr(BitOr(x * 65536, y * 256), z) == x * 65536 + y * 256 + z
  {
    Pow2Constants();
    OrDisjoint(x, 16, y * 256);
    assert x * 65536 + y * 256 == (x * 256 + y) * Pow2(8);
    OrDisjoint(x * 256 + y, 8, z);
  }

  lemma SplitBytes(x: int, y: int, z: int)
    requires 0 <= x < 256 && 0 <= y < 256 && 0 <= z < 256
    ensures var p := x * 65536 + y * 256 + z;
      && 0 <= p < 0x100_0000 && p / 65536 == x && p / 256 % 256 == y && p % 256 == z
  {
    var p := x * 65536 + y * 256 + z;
    assert p == (x * 256 + y) * 256 + z;
    assert p / 256 == x * 256 + y;
    assert p == x * 65536 + (y * 256 + z);
  }

  /** `str(c)`: `#` and the packed value in lowercase hexadecimal, unpadded. */
  function Str(c: Rgb): (s: string)
    ensures |s| >= 2 && s[0] == '#'
  {
    "#" + Hex(Packed(c))
  }

  /**
   * For channels in [0, 1] the text after `#` is a hexadecimal numeral of the
   * packed value, with no leading zero unless the value is 0, and at most six digits.
   */
  lemma StrIsHex(c: Rgb)
    requires InUnit(c)
    ensures var s := Str(c);
      && |s| >= 2 && s[0] == '#' && AllDigits(s[1..], 16)
      && ParseNumeral(s[1..], 16) == Packed(c)
      && (|s| > 2 ==> s[1] != '0')
      && |s| <= 7
  {
    PackedBytes(c);
    Pow2Constants();
    HexLength(Packed(c), 6);
    var s := Str(c);
    assert s[1..] == Numeral(Packed(c), 16);
    ParseNumeralOfNumeral(Packed(c), 16);
  }

  /** Pure blue prints as `#ff`: no zero padding to six digits. */
  lemma PureBlueStr()
    ensures Str(Rgb(0.0, 0.0, 1.0)) == "#ff"
  {
    var c := Rgb(0.0, 0.0, 1.0);
    PackedBytes(c);
    assert Packed(c) == 255;
    assert Numeral(255, 16) == Numeral(15, 16) + [DigitChar(15)];
  }
}
