/**
 The text form of one memory word (gif_to_hex.py, line 42): the format
 specifier `06X` renders a non-negative integer in upper-case hexadecimal with
 as few digits as it needs, then pads it on the left with '0' to a width
 of at least six.

 Beside Python's rendering this module defines a fixed-width reference
 rendering and the base-16 reading a `$readmemh` loader performs, and
 relates the three.
 */
module Hex {
  import opened Bits

  /** 16 to the power k. */
  function Pow16(k: nat): (r: nat)
    ensures r >= 1
  {
    if k == 0 then 1 else 16 * Pow16(k - 1)
  }

  predicate IsHexDigit(c: char)
  {
    '0' <= c <= '9' || 'A' <= c <= 'F'
  }

  predicate IsHexString(s: string)
  {
    forall i :: 0 <= i < |s| ==> IsHexDigit(s[i])
  }

  /** The upper-case digit for a value below 16. */
  function HexDigit(d: nat): (c: char)
    requires d < 16
    ensures IsHexDigit(c)
  {
    if d < 10 then '0' + d as char else 'A' + (d - 10) as char
  }

  /** The value of one hexadecimal digit. */
  function DigitValue(c: char): (d: nat)
    requires IsHexDigit(c)
    ensures d < 16 && HexDigit(d) == c
  {
    if c <= '9' then (c - '0') as nat else (c - 'A') as nat + 10
  }

  /** `format(n, 'X')`: the shortest upper-case rendering, "0" for zero. */
  function HexDigits(n: nat): (s: string)
    ensures |s| >= 1
    ensures IsHexString(s)
  {
    if n < 16 then [HexDigit(n)] else HexDigits(n / 16) + [HexDigit(n % 16)]
  }

  /** s preceded by enough '0's to make it `width` long; unchanged when already that long. */
  function PadLeft(s: string, width: nat): string
  {
    if |s| >= width then s else seq(width - |s|, _ => '0') + s
  }

  /**
   Line 42: `f"{n:06X}"`. Always digits only and at least six of them;
   exactly six when n fits in 24 bits, and then it is the six-digit
   fixed-width rendering.
   */
  function Format06(n: nat): (s: string)
    ensures IsHexString(s)
    ensures |s| >= 6
    ensures |s| == 6 <==> n < 0x100_0000
    ensures n < 0x100_0000 ==> s == FixedHex(n, 6)
  {
    assert Pow16(6) == 0x100_0000;
    HexDigitsLength(n, 6);
    if n < 0x100_0000 then
      PaddedIsFixed(n, 6);
      PadLeft(HexDigits(n), 6)
    else
      PadLeft(HexDigits(n), 6)
  }

  /** Reference rendering: exactly `width` digits, most significant first, of n modulo 16^width. */
  function FixedHex(n: nat, width: nat): (s: string)
    ensures |s| == width
    ensures IsHexString(s)
  {
    if width == 0 then [] else FixedHex(n / 16, width - 1) + [HexDigit(n % 16)]
  }

  /** The base-16 value of a digit string, as `$readmemh` or `int(s, 16)` reads it. */
  function ParseHex(s: string): nat
    requires IsHexString(s)
  {
    if |s| == 0 then 0 else 16 * ParseHex(s[..|s| - 1]) + DigitValue(s[|s| - 1])
  }

  lemma DivBelow(n: nat, p: nat)
    requires p >= 1
    ensures n / 16 < p <==> n < 16 * p
  {
    assert n == 16 * (n / 16) + n % 16;
  }

  /** Python's shortest rendering fits in w >= 1 digits exactly when n < 16^w. */
  lemma {:induction false} HexDigitsLength(n: nat, w: nat)
    requires w >= 1
    ensures |HexDigits(n)| <= w <==> n < Pow16(w)
    decreases n
  {
    if n < 16 {
      Pow16AtLeast(w);
    } else if w == 1 {
      assert Pow16(1) == 16;
    } else {
      HexDigitsLength(n / 16, w - 1);
      DivBelow(n, Pow16(w - 1));
    }
  }

  lemma {:induction false} Pow16AtLeast(w: nat)
    requires w >= 1
    ensures Pow16(w) >= 16
  {
    if w > 1 {
      Pow16AtLeast(w - 1);
    }
  }

  lemma {:induction false} FixedHexZero(w: nat)
    ensures FixedHex(0, w) == seq(w, _ => '0')
  {
    if w > 0 {
      FixedHexZero(w - 1);
    }
  }

  /** Padding the shortest rendering out to w digits is the fixed-width rendering, as long as n fits. */
  lemma {:induction false} PaddedIsFixed(n: nat, w: nat)
    requires w >= 1 && n < Pow16(w)
    ensures PadLeft(HexDigits(n), w) == FixedHex(n, w)
    decreases n
  {
    if n < 16 {
      FixedHexZero(w - 1);
      assert FixedHex(n, w) == seq(w - 1, _ => '0') + [HexDigit(n)];
    } else {
      DivBelow(n, Pow16(w - 1));
      assert w >= 2;
      PaddedIsFixed(n / 16, w - 1);
      var d := HexDigits(n / 16);
      assert |d| <= w - 1 by { HexDigitsLength(n / 16, w - 1); }
      assert PadLeft(d + [HexDigit(n % 16)], w) == PadLeft(d, w - 1) + [HexDigit(n % 16)];
    }
  }

  /** Reading a fixed-width rendering gives back the value, when it fits. */
  lemma {:induction false} ParseFixed(n: nat, w: nat)
    requires n < Pow16(w)
    ensures ParseHex(FixedHex(n, w)) == n
    decreases w
  {
    if w > 0 {
      DivBelow(n, Pow16(w - 1));
      ParseFixed(n / 16, w - 1);
      var s := FixedHex(n, w);
      assert s[..|s| - 1] == FixedHex(n / 16, w - 1);
      assert n == 16 * (n / 16) + n % 16;
    }
  }

  /** Every digit string is the fixed-width rendering of its own value, which fits its width. */
  lemma {:induction false} FixedParse(s: string)
    requires IsHexString(s)
    ensures ParseHex(s) < Pow16(|s|)
    ensures FixedHex(ParseHex(s), |s|) == s
    decreases |s|
  {
    if |s| > 0 {
      var init := s[..|s| - 1];
      var c := s[|s| - 1];
      FixedParse(init);
      var v := ParseHex(s);
      DivModUnique(v, 16, ParseHex(init), DigitValue(c));
      assert s == init + [c];
    }
  }

  /** `06X` followed by a base-16 read is the identity on 24-bit words. */
  lemma Format06RoundTrip(n: nat)
    requires n < 0x100_0000
    ensures IsHexString(Format06(n))
    ensures ParseHex(Format06(n)) == n
  {
    assert Pow16(6) == 0x100_0000;
    ParseFixed(n, 6);
  }

  /** Every six-digit upper-case string is what `06X` prints for its value. */
  lemma Format06Onto(s: string)
    requires |s| == 6 && IsHexString(s)
    ensures ParseHex(s) < 0x100_0000
    ensures Format06(ParseHex(s)) == s
  {
    assert Pow16(6) == 0x100_0000;
    FixedParse(s);
  }
}
