/**
 The 24-bit memory word that drives one pixel pair of the 1/32-scan panel
 (gif_to_hex.py, line 39): `combined = (val0 << 12) | val1`, where val0
 is the quantised pixel of row y (top) and val1 that of row y + 32
 (bottom). The top pixel therefore sits in bits 12-23 and the bottom pixel
 in bits 0-11, whatever the comment on line 38 assumes.
 */
module Word {
  import opened Bits
  import opened Color

  /** Line 39: `(val0 << 12) | val1`. */
  function Pack(top: Rgb444, bottom: Rgb444): (w: nat)
    ensures w < 0x100_0000
    ensures w == 0x1000 * top + bottom
  {
    assert Pow2(12) == 0x1000;
    OrDisjoint(top, 12, bottom);
    Or(Shl(top, 12), bottom)
  }

  /** The top-row half of a word: `w >> 12`. */
  function Top(w: nat): nat
  {
    Shr(w, 12)
  }

  /** The bottom-row half of a word: `w & 0xFFF`. */
  function Bottom(w: nat): nat
  {
    And(w, 0xFFF)
  }

  /** Unpacking a packed word gives back the top value from bits 12-23 and the bottom value from bits 0-11. */
  lemma UnpackPack(top: Rgb444, bottom: Rgb444)
    ensures Top(Pack(top, bottom)) == top
    ensures Bottom(Pack(top, bottom)) == bottom
  {
    assert Pow2(12) == 0x1000;
    ShrShl(top, 12, bottom);
    AndLowMask(Pack(top, bottom), 12);
  }

  /** Every 24-bit word is the packing of exactly its two halves, each a 12-bit value. */
  lemma PackUnpack(w: nat)
    requires w < 0x100_0000
    ensures Top(w) < 0x1000 && Bottom(w) < 0x1000
    ensures Pack(Top(w), Bottom(w)) == w
  {
    assert Pow2(12) == 0x1000;
    AndLowMask(w, 12);
    assert w == 0x1000 * (w / 0x1000) + w % 0x1000;
  }

  /** Two pixel pairs give the same word exactly when their tops and their bottoms agree. */
  lemma PackInjective(t1: Rgb444, b1: Rgb444, t2: Rgb444, b2: Rgb444)
    ensures Pack(t1, b1) == Pack(t2, b2) <==> t1 == t2 && b1 == b2
  {
    UnpackPack(t1, b1);
    UnpackPack(t2, b2);
  }
}
