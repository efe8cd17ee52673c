/**
 * Non-negative integer bit operations with the meaning Python gives them on
 * its unbounded integers: `x >> k`, `x << k` and `x | y`.
 */
module Bits {

  function Pow2(k: nat): (p: nat)
    ensures p >= 1
  {
    if k == 0 then 1 else 2 * Pow2(k - 1)
  }

  /** `x >> k`: drop the k low bits, that is, divide by 2^k rounding down. */
  function ShiftRight(x: nat, k: nat): (r: nat)
    ensures Pow2(k) * r <= x < Pow2(k) * (r + 1)
  {
    if k == 0 then x
    else
      var q := ShiftRight(x / 2, k - 1);
      DoubleProduct(Pow2(k - 1), q);
      DoubleProduct(Pow2(k - 1), q + 1);
      q
  }

  lemma DoubleProduct(p: nat, q: nat)
    ensures (2 * p) * q == 2 * (p * q)
  {
  }

  /** `x << k`: append k zero bits, that is, multiply by 2^k. */
  function ShiftLeft(x: nat, k: nat): (r: nat)
    ensures r == x * Pow2(k)
  {
    if k == 0 then x
    else
      var s := ShiftLeft(x, k - 1);
      assert x * Pow2(k) == 2 * (x * Pow2(k - 1));
      2 * s
  }

  lemma {:induction false} ShiftLeftGrows(x: nat, k: nat)
    ensures ShiftLeft(x, k) >= x
  {
    if k > 0 {
      ShiftLeftGrows(x, k - 1);
    }
  }

  lemma {:induction false} ShiftLeftAdd(x: nat, j: nat, k: nat)
    ensures ShiftLeft(x, j + k) == ShiftLeft(ShiftLeft(x, j), k)
    decreases k
  {
    if k > 0 {
      ShiftLeftAdd(x, j, k - 1);
    }
  }

  lemma ShiftLeftFour(x: nat)
    ensures ShiftLeft(x, 4) == 16 * x
  {
    assert ShiftLeft(x, 1) == 2 * x;
    assert ShiftLeft(x, 2) == 4 * x;
    assert ShiftLeft(x, 3) == 8 * x;
  }

  lemma ShiftRightFour(x: nat)
    ensures ShiftRight(x, 4) == x / 16
  {
    var x1 := x / 2;
    var x2 := x1 / 2;
    var x3 := x2 / 2;
    assert ShiftRight(x3, 1) == x3 / 2;
    assert ShiftRight(x2, 2) == x3 / 2;
    assert ShiftRight(x1, 3) == x3 / 2;
    assert x3 / 2 == x / 16;
  }

  lemma Pow2Four()
    ensures Pow2(4) == 16
  {
    assert Pow2(2) == 4;
  }

  /** `x | y`: bitwise inclusive or, one binary digit at a time. */
  function BitOr(x: nat, y: nat): (r: nat)
    ensures x <= r && y <= r && r <= x + y
    decreases x + y
  {
    if x == 0 && y == 0 then 0
    else 2 * BitOr(x / 2, y / 2) + (if x % 2 == 1 || y % 2 == 1 then 1 else 0)
  }

  lemma {:induction false} BitOrZero(x: nat)
    ensures BitOr(x, 0) == x
    decreases x
  {
    if x != 0 {
      BitOrZero(x / 2);
    }
  }

  /** Shifting both operands left by k shifts their or left by k. */
  lemma {:induction false} BitOrShiftLeft(x: nat, y: nat, k: nat)
    ensures BitOr(ShiftLeft(x, k), ShiftLeft(y, k)) == ShiftLeft(BitOr(x, y), k)
    decreases k
  {
    if k != 0 {
      var a, b := ShiftLeft(x, k - 1), ShiftLeft(y, k - 1);
      var xs, ys := ShiftLeft(x, k), ShiftLeft(y, k);
      assert xs == 2 * a && ys == 2 * b;
      assert xs / 2 == a && ys / 2 == b && xs % 2 == 0 && ys % 2 == 0;
      BitOrShiftLeft(x, y, k - 1);
      if xs != 0 || ys != 0 {
        assert BitOr(xs, ys) == 2 * BitOr(a, b);
      } else {
        ShiftLeftGrows(x, k);
        ShiftLeftGrows(y, k);
      }
    }
  }

  /**
   * Or-ing a value shifted left by k with a value of fewer than k bits
   * places the two side by side: the or is a sum.
   */
  lemma {:induction false} BitOrDisjoint(a: nat, k: nat, b: nat)
    requires b < Pow2(k)
    ensures BitOr(ShiftLeft(a, k), b) == ShiftLeft(a, k) + b
    decreases k
  {
    if k == 0 {
      BitOrZero(a);
    } else {
      var x := ShiftLeft(a, k);
      assert x / 2 == ShiftLeft(a, k - 1) && x % 2 == 0;
      BitOrDisjoint(a, k - 1, b / 2);
      if x != 0 || b != 0 {
        assert BitOr(x, b) == 2 * BitOr(x / 2, b / 2) + (if b % 2 == 1 then 1 else 0);
      }
    }
  }
}

/** Pixels and the 12-bit colour quantizer of the image transcoder. */
module Pixels {
  import opened Bits

  /** An 8-bit colour channel. */
  type Channel = x: int | 0 <= x < 256

  /** A 12-bit memory word: one 4-bit nibble per colour channel. */
  type Word12 = x: int | 0 <= x < 4096

  /** A pixel after conversion to three-channel RGB. */
  datatype Pixel = Pixel(r: Channel, g: Channel, b: Channel)

  /** Packing three nibbles with shifts and ors is base-16 positional notation. */
  lemma PackNibbles(r4: nat, g4: nat, b4: nat)
    requires r4 < 16 && g4 < 16 && b4 < 16
    ensures BitOr(BitOr(ShiftLeft(r4, 8), ShiftLeft(g4, 4)), b4) == 256 * r4 + 16 * g4 + b4
  {
    Pow2Four();
    ShiftLeftAdd(r4, 4, 4);
    ShiftLeftFour(r4);
    ShiftLeftFour(16 * r4 + g4);
    BitOrShiftLeft(ShiftLeft(r4, 4), g4, 4);
    BitOrDisjoint(r4, 4, g4);
    assert BitOr(ShiftLeft(r4, 8), ShiftLeft(g4, 4)) == ShiftLeft(16 * r4 + g4, 4);
    BitOrDisjoint(16 * r4 + g4, 4, b4);
  }

  lemma NibbleDigits(r4: nat, g4: nat, b4: nat)
    requires r4 < 16 && g4 < 16 && b4 < 16
    ensures var v := 256 * r4 + 16 * g4 + b4;
      v < 4096 && v / 256 == r4 && (v / 16) % 16 == g4 && v % 16 == b4
  {
    var v := 256 * r4 + 16 * g4 + b4;
    assert v / 16 == 16 * r4 + g4;
  }

  /**
   * The packed word `((r >> 4) << 8) | ((g >> 4) << 4) | (b >> 4)`.
   * It is the 12-bit word whose three hexadecimal digits are, from the most
   * significant, the top nibbles of red, green and blue.
   */
  function Quantize(p: Pixel): (v: Word12)
    ensures v == 256 * (p.r / 16) + 16 * (p.g / 16) + p.b / 16
    ensures v / 256 == p.r / 16 && (v / 16) % 16 == p.g / 16 && v % 16 == p.b / 16
  {
    var r4, g4, b4 := ShiftRight(p.r, 4), ShiftRight(p.g, 4), ShiftRight(p.b, 4);
    ShiftRightFour(p.r);
    ShiftRightFour(p.g);
    ShiftRightFour(p.b);
    PackNibbles(r4, g4, b4);
    NibbleDigits(r4, g4, b4);
    BitOr(BitOr(ShiftLeft(r4, 8), ShiftLeft(g4, 4)), b4)
  }

  /** The quantized words of a pixel sequence, in order. */
  function QuantizeAll(ps: seq<Pixel>): (vs: seq<Word12>)
    ensures |vs| == |ps|
    ensures forall i :: 0 <= i < |ps| ==> vs[i] == Quantize(ps[i])
  {
    seq(|ps|, i requires 0 <= i < |ps| => Quantize(ps[i]))
  }

  /** Two pixels quantize alike exactly when their channels agree in the top nibble. */
  lemma QuantizeEqualIff(p: Pixel, q: Pixel)
    ensures Quantize(p) == Quantize(q) <==>
      p.r / 16 == q.r / 16 && p.g / 16 == q.g / 16 && p.b / 16 == q.b / 16
  {
  }

  /** The pixel with the low nibble of every channel cleared. */
  function ClearLowNibbles(p: Pixel): Pixel
  {
    Pixel(p.r - p.r % 16, p.g - p.g % 16, p.b - p.b % 16)
  }

  /** The low nibble of a channel has no influence on the quantized word. */
  lemma QuantizeIgnoresLowNibbles(p: Pixel)
    ensures Quantize(ClearLowNibbles(p)) == Quantize(p)
  {
    QuantizeEqualIff(ClearLowNibbles(p), p);
  }

  /** A representative pixel of a word: every channel is its nibble with a zero low nibble. */
  function Expand(v: Word12): Pixel
  {
    Pixel((v / 256) * 16, ((v / 16) % 16) * 16, (v % 16) * 16)
  }

  /** Every 12-bit word is reached, and quantizing a representative gives it back. */
  lemma QuantizeExpand(v: Word12)
    ensures Quantize(Expand(v)) == v
  {
    var e := Expand(v);
    assert e.r / 16 == v / 256 && e.g / 16 == (v / 16) % 16 && e.b / 16 == v % 16;
    assert v == 256 * (v / 256) + 16 * ((v / 16) % 16) + v % 16;
  }

  /** Quantizing is idempotent on already quantized colours. */
  lemma QuantizeIdempotent(p: Pixel)
    ensures Quantize(Expand(Quantize(p))) == Quantize(p)
  {
    QuantizeExpand(Quantize(p));
  }

  /** Quantizing loses information: two different pixels share a word. */
  lemma QuantizeLossy()
    ensures Pixel(0, 0, 0) != Pixel(15, 15, 15)
    ensures Quantize(Pixel(0, 0, 0)) == Quantize(Pixel(15, 15, 15)) == 0
  {
    var black, almost := Pixel(0, 0, 0), Pixel(15, 15, 15);
    assert almost.r / 16 == 0 && almost.g / 16 == 0 && almost.b / 16 == 0;
    assert Quantize(almost) == 0;
    assert Quantize(black) == 0;
  }

  /** Pure red quantizes to 0xF00. */
  lemma QuantizeRed()
    ensures Quantize(Pixel(255, 0, 0)) == 0xF00
  {
  }
}
