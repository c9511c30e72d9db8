/**
 Quantisation of one pixel to a 12-bit RGB444 value (gif_to_hex.py, lines 28-34).

 PIL hands a pixel of an 'RGB' image over as the tuple (red, green, blue).
 The converter destructures that tuple as `b, g, r`, so the names it works
 with are swapped: the tuple's FIRST component (PIL's red) is what it calls
 `b` and puts in bits 0-3, and the THIRD component (PIL's blue) is what it
 calls `r` and puts in bits 8-11.
 */
module Color {
  import opened Bits

  type byte = x: int | 0 <= x < 256

  /** A 12-bit value: what one quantised pixel occupies in a memory word. */
  type Rgb444 = v: nat | v < 0x1000

  /** One pixel, its components named after PIL's 'RGB' tuple order. */
  datatype Pixel = Pixel(red: byte, green: byte, blue: byte)

  /** The 4-bit field i (i = 0 for bits 0-3, 1 for bits 4-7, ...) of v: `(v >> 4*i) & 0xF`. */
  function Nibble(v: nat, i: nat): (n: nat)
    ensures n < 16
  {
    AndLowMask(Shr(v, 4 * i), 4);
    And(Shr(v, 4 * i), 0xF)
  }

  /** The channel value a 4-bit field stands for once it is widened back: `n << 4`. */
  function Widen(n: nat): nat
  {
    Shl(n, 4)
  }

  /** Three nibbles laid side by side, `(hi << 8) | (mid << 4) | lo`, are hi, mid and lo in base 16. */
  lemma OrFields(hi: nat, mid: nat, lo: nat)
    requires hi < 16 && mid < 16 && lo < 16
    ensures Or(Or(Shl(hi, 8), Shl(mid, 4)), lo) == 0x100 * hi + 0x10 * mid + lo
  {
    assert Pow2(4) == 16;
    assert Pow2(8) == 256;
    assert Shl(mid, 4) == 0x10 * mid && Shl(hi, 8) == 0x100 * hi;
    OrDisjoint(hi, 8, Shl(mid, 4));
    assert Shl(0x10 * hi + mid, 4) == 0x100 * hi + 0x10 * mid;
    OrDisjoint(0x10 * hi + mid, 4, lo);
  }

  /**
   Lines 28-30 (and 33-34 for the bottom pixel): destructure the tuple as
   `b, g, r`, keep the high four bits of each, and lay them out as
   `((r >> 4) << 8) | ((g >> 4) << 4) | (b >> 4)`.
   */
  function Quantise(p: Pixel): (v: Rgb444)
    ensures v == 0x100 * (p.blue / 16) + 0x10 * (p.green / 16) + p.red / 16
  {
    var Pixel(b, g, r) := p;
    assert Pow2(4) == 16;
    OrFields(Shr(r, 4), Shr(g, 4), Shr(b, 4));
    Or(Or(Shl(Shr(r, 4), 8), Shl(Shr(g, 4), 4)), Shr(b, 4))
  }

  /**
   Each 4-bit field of a value built as hi, mid, lo in base 16 reads back as
   that digit, and nothing is set above bit 11.
   */
  lemma {:induction false} NibblesOfFields(hi: nat, mid: nat, lo: nat)
    requires hi < 16 && mid < 16 && lo < 16
    ensures Nibble(0x100 * hi + 0x10 * mid + lo, 0) == lo
    ensures Nibble(0x100 * hi + 0x10 * mid + lo, 1) == mid
    ensures Nibble(0x100 * hi + 0x10 * mid + lo, 2) == hi
    ensures Shr(0x100 * hi + 0x10 * mid + lo, 12) == 0
  {
    var v := 0x100 * hi + 0x10 * mid + lo;
    assert Pow2(0) == 1 && Pow2(4) == 16 && Pow2(8) == 256 && Pow2(12) == 4096;
    DivModUnique(v, 1, v, 0);
    NibbleOf(v, 0, 0x10 * hi + mid, lo);
    DivModUnique(v, 16, 0x10 * hi + mid, lo);
    NibbleOf(v, 1, hi, mid);
    DivModUnique(v, 256, hi, 0x10 * mid + lo);
    NibbleOf(v, 2, 0, hi);
    DivModUnique(v, 4096, 0, v);
  }

  /** Field i of v is n when v shifted right by 4i is 16q + n. */
  lemma NibbleOf(v: nat, i: nat, q: nat, n: nat)
    requires n < 16 && v / Pow2(4 * i) == 16 * q + n
    ensures Nibble(v, i) == n
  {
    assert Pow2(4) == 16;
    AndLowMask(16 * q + n, 4);
    DivModUnique(16 * q + n, 16, q, n);
  }

  /**
   Channel placement: the tuple's first component (PIL red) supplies bits
   0-3, the second (green) bits 4-7, the third (PIL blue) bits 8-11, each
   as its high four bits; bits 12 and up are clear.
   */
  lemma ChannelPlacement(p: Pixel)
    ensures Nibble(Quantise(p), 0) == p.red / 16
    ensures Nibble(Quantise(p), 1) == p.green / 16
    ensures Nibble(Quantise(p), 2) == p.blue / 16
    ensures Shr(Quantise(p), 12) == 0
  {
    var v := Quantise(p);
    assert v == 0x100 * (p.blue / 16) + 0x10 * (p.green / 16) + p.red / 16;
    NibblesOfFields(p.blue / 16, p.green / 16, p.red / 16);
  }

  /** Quantisation sees only the high four bits of each channel, and it tells all of them apart. */
  lemma QuantiseHighBits(p: Pixel, q: Pixel)
    ensures Quantise(p) == Quantise(q) <==>
              p.red / 16 == q.red / 16 && p.green / 16 == q.green / 16 && p.blue / 16 == q.blue / 16
  {
    ChannelPlacement(p);
    ChannelPlacement(q);
  }

  /**
   The lossy round trip: widening a field back with `<< 4` gives the
   original channel with its low four bits cleared, so it is at most 15
   below it.
   */
  lemma WidenField(p: Pixel)
    ensures Widen(Nibble(Quantise(p), 0)) <= p.red < Widen(Nibble(Quantise(p), 0)) + 16
    ensures Widen(Nibble(Quantise(p), 1)) <= p.green < Widen(Nibble(Quantise(p), 1)) + 16
    ensures Widen(Nibble(Quantise(p), 2)) <= p.blue < Widen(Nibble(Quantise(p), 2)) + 16
  {
    ChannelPlacement(p);
    WidenHigh(p.red);
    WidenHigh(p.green);
    WidenHigh(p.blue);
  }

  lemma WidenHigh(c: byte)
    ensures Widen(c / 16) <= c < Widen(c / 16) + 16
  {
    assert Pow2(4) == 16;
    assert c == 16 * (c / 16) + c % 16;
  }
}
