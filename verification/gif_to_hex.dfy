/**
 `process_gif` in Led_panel_12bpp/gifs/gif_to_hex.py: every 64x64 frame of
 an animation becomes 2048 hex lines, one per pixel pair (x, y), (x, y + 32)
 of the panel's 1/32 scan, rows y in 0..31 outermost and columns x in 0..63
 innermost; the frames' lines are appended in order and written joined by
 newlines.

 A frame is taken as already decoded, converted to RGB and resized: the
 decoder, the resampling filter and the file are outside this model.
 */
module GifToHex {
  import opened Bits
  import opened Color
  import opened Word
  import opened Hex
  import opened Text

  /** Lines 9-11: the panel geometry. */
  const WIDTH: nat := 64
  const HEIGHT: nat := 64
  const SCAN_RATE: nat := 32

  /** The lines one frame contributes. */
  const LINES_PER_FRAME: nat := WIDTH * SCAN_RATE

  /** A decoded frame, row by row: `pixels[x, y]` is `f[y][x]`. */
  type Grid = seq<seq<Pixel>>

  /** What `resize((WIDTH, HEIGHT))` delivers: HEIGHT rows of WIDTH pixels. */
  predicate IsFrame(f: Grid)
  {
    |f| == HEIGHT && forall y :: 0 <= y < |f| ==> |f[y]| == WIDTH
  }

  predicate AllFrames(frames: seq<Grid>)
  {
    forall k :: 0 <= k < |frames| ==> IsFrame(frames[k])
  }

  /**
   Lines 28-42 for one pixel pair: quantise both pixels, pack top over
   bottom, render as `06X`. The line is six hex digits that read back as
   the packed word, whose upper half is the top pixel and lower half the
   bottom pixel.
   */
  function PairLine(top: Pixel, bottom: Pixel): (s: string)
    ensures |s| == 6 && IsHexString(s)
    ensures ParseHex(s) == Pack(Quantise(top), Quantise(bottom))
    ensures Top(ParseHex(s)) == Quantise(top)
    ensures Bottom(ParseHex(s)) == Quantise(bottom)
  {
    UnpackPack(Quantise(top), Quantise(bottom));
    Format06RoundTrip(Pack(Quantise(top), Quantise(bottom)));
    Format06(Pack(Quantise(top), Quantise(bottom)))
  }

  /**
   The line for column x of scan row y: its upper half reads back as pixel
   (x, y) quantised, its lower half as pixel (x, y + SCAN_RATE).
   */
  function LineAt(f: Grid, x: nat, y: nat): (s: string)
    requires IsFrame(f) && x < WIDTH && y < SCAN_RATE
    ensures |s| == 6 && IsHexString(s)
    ensures Top(ParseHex(s)) == Quantise(f[y][x])
    ensures Bottom(ParseHex(s)) == Quantise(f[y + SCAN_RATE][x])
  {
    PairLine(f[y][x], f[y + SCAN_RATE][x])
  }

  /** One pass of the inner loop (line 26): the WIDTH lines of scan row y. */
  function RowLines(f: Grid, y: nat): (r: seq<string>)
    requires IsFrame(f) && y < SCAN_RATE
    // Unfolding aids for Rows and AllLines, not a modelling claim.
    ensures |r| == WIDTH
    ensures forall x :: 0 <= x < WIDTH ==> r[x] == LineAt(f, x, y)
  {
    seq(WIDTH, x requires 0 <= x < WIDTH => LineAt(f, x, y))
  }

  /** The first n passes of the outer loop (line 25). */
  function Rows(f: Grid, n: nat): (r: seq<string>)
    requires IsFrame(f) && n <= SCAN_RATE
    ensures |r| == n * WIDTH
  {
    if n == 0 then [] else Rows(f, n - 1) + RowLines(f, n - 1)
  }

  /** `frame_lines` once both loops have run. */
  function FrameLines(f: Grid): (r: seq<string>)
    requires IsFrame(f)
    ensures |r| == LINES_PER_FRAME
  {
    Rows(f, SCAN_RATE)
  }

  /** `frames_data` after `extend` (line 44) has run for every frame, in order. */
  function AllLines(frames: seq<Grid>): (r: seq<string>)
    requires AllFrames(frames)
    ensures |r| == |frames| * LINES_PER_FRAME
  {
    if |frames| == 0 then []
    else
      assert |frames| * LINES_PER_FRAME == (|frames| - 1) * LINES_PER_FRAME + LINES_PER_FRAME;
      AllLines(frames[..|frames| - 1]) + FrameLines(frames[|frames| - 1])
  }

  /**
   Line 53: the text written to the output file. For at least one frame it
   is seven characters per line less the final newline, and cutting it at
   newlines gives back every line.
   */
  function Output(frames: seq<Grid>): (r: string)
    requires AllFrames(frames)
    ensures |frames| == 0 ==> r == ""
    ensures |frames| >= 1 ==> |r| == 7 * |frames| * LINES_PER_FRAME - 1
    ensures |frames| >= 1 ==> Count(r, '\n') == |frames| * LINES_PER_FRAME - 1
    ensures |frames| >= 1 ==> Split(r) == AllLines(frames)
  {
    var all := AllLines(frames);
    LinesAreHex(frames);
    if |frames| == 0 then Join(all)
    else
      assert LINES_PER_FRAME == 2048;
      JoinLength(all, 6);
      SplitJoin(all);
      Join(all)
  }

  /** After n rows, line y * WIDTH + x holds the pair of column x, row y. */
  lemma RowsLayout(f: Grid, n: nat)
    requires IsFrame(f) && n <= SCAN_RATE
    ensures forall y, x :: 0 <= y < n && 0 <= x < WIDTH ==> Rows(f, n)[y * WIDTH + x] == LineAt(f, x, y)
  {
    forall y, x | 0 <= y < n && 0 <= x < WIDTH
      ensures Rows(f, n)[y * WIDTH + x] == LineAt(f, x, y)
    {
      RowsAt(f, n, x, y);
    }
  }

  lemma {:induction false} RowsAt(f: Grid, n: nat, x: nat, y: nat)
    requires IsFrame(f) && n <= SCAN_RATE && y < n && x < WIDTH
    ensures y * WIDTH + x < |Rows(f, n)|
    ensures Rows(f, n)[y * WIDTH + x] == LineAt(f, x, y)
    decreases n
  {
    assert WIDTH == 64;
    var before := Rows(f, n - 1);
    assert Rows(f, n) == before + RowLines(f, n - 1);
    if y < n - 1 {
      RowsAt(f, n - 1, x, y);
    } else {
      assert y * WIDTH + x == |before| + x;
    }
  }

  /**
   One frame gives LINES_PER_FRAME = 2048 lines; line y * WIDTH + x is built
   from pixels (x, y) and (x, y + 32), and every line index i is that of
   column i % WIDTH in scan row i / WIDTH.
   */
  lemma FrameLayout(f: Grid)
    requires IsFrame(f)
    ensures LINES_PER_FRAME == 2048 && SCAN_RATE + SCAN_RATE == HEIGHT
    ensures forall y, x :: 0 <= y < SCAN_RATE && 0 <= x < WIDTH ==> FrameLines(f)[y * WIDTH + x] == LineAt(f, x, y)
    ensures forall i :: 0 <= i < LINES_PER_FRAME ==> FrameLines(f)[i] == LineAt(f, i % WIDTH, i / WIDTH)
  {
    RowsLayout(f, SCAN_RATE);
    forall i | 0 <= i < LINES_PER_FRAME
      ensures FrameLines(f)[i] == LineAt(f, i % WIDTH, i / WIDTH)
    {
      assert i == (i / WIDTH) * WIDTH + i % WIDTH;
    }
  }

  /** Line k * 2048 + i of the output is line i of frame k. */
  lemma {:induction false} AllLinesAt(frames: seq<Grid>, k: nat, i: nat)
    requires AllFrames(frames) && k < |frames| && i < LINES_PER_FRAME
    ensures k * LINES_PER_FRAME + i < |AllLines(frames)|
    ensures AllLines(frames)[k * LINES_PER_FRAME + i] == FrameLines(frames[k])[i]
    decreases |frames|
  {
    var n := |frames| - 1;
    var init := frames[..n];
    assert LINES_PER_FRAME == 2048;
    if k < n {
      AllLinesAt(init, k, i);
      assert init[k] == frames[k];
    }
  }

  /** AllLinesAt for every frame and line at once. */
  lemma AllLinesIndex(frames: seq<Grid>)
    requires AllFrames(frames)
    ensures forall k, i :: 0 <= k < |frames| && 0 <= i < LINES_PER_FRAME ==>
              AllLines(frames)[k * LINES_PER_FRAME + i] == FrameLines(frames[k])[i]
  {
    forall k, i | 0 <= k < |frames| && 0 <= i < LINES_PER_FRAME
      ensures AllLines(frames)[k * LINES_PER_FRAME + i] == FrameLines(frames[k])[i]
    {
      AllLinesAt(frames, k, i);
    }
  }

  /** Frame k occupies lines k * 2048 up to (k + 1) * 2048, and the frames keep their order. */
  lemma AllLinesLayout(frames: seq<Grid>)
    requires AllFrames(frames)
    ensures forall k :: 0 <= k < |frames| ==>
              AllLines(frames)[k * LINES_PER_FRAME .. (k + 1) * LINES_PER_FRAME] == FrameLines(frames[k])
  {
    assert LINES_PER_FRAME == 2048;
    forall k | 0 <= k < |frames|
      ensures AllLines(frames)[k * LINES_PER_FRAME .. (k + 1) * LINES_PER_FRAME] == FrameLines(frames[k])
    {
      FrameSlice(frames, k);
    }
  }

  lemma FrameSlice(frames: seq<Grid>, k: nat)
    requires AllFrames(frames) && k < |frames|
    ensures (k + 1) * LINES_PER_FRAME <= |AllLines(frames)|
    ensures AllLines(frames)[k * LINES_PER_FRAME .. (k + 1) * LINES_PER_FRAME] == FrameLines(frames[k])
  {
    assert LINES_PER_FRAME == 2048;
    var slice := AllLines(frames)[k * LINES_PER_FRAME .. (k + 1) * LINES_PER_FRAME];
    forall i | 0 <= i < LINES_PER_FRAME
      ensures slice[i] == FrameLines(frames[k])[i]
    {
      AllLinesAt(frames, k, i);
    }
  }

  /**
   Lines 21-42: the two nested loops over one frame. Line y * WIDTH + x
   comes from pixel (x, y) on top and pixel (x, y + 32) below it.
   */
  method ProcessFrame(f: Grid) returns (lines: seq<string>)
    requires IsFrame(f)
    ensures |lines| == LINES_PER_FRAME
    ensures forall y, x :: 0 <= y < SCAN_RATE && 0 <= x < WIDTH ==> lines[y * WIDTH + x] == LineAt(f, x, y)
    ensures lines == FrameLines(f)
  {
    lines := [];
    var y := 0;
    while y < SCAN_RATE
      invariant 0 <= y <= SCAN_RATE
      invariant lines == Rows(f, y)
    {
      var x := 0;
      while x < WIDTH
        invariant 0 <= x <= WIDTH
        invariant lines == Rows(f, y) + RowLines(f, y)[..x]
      {
        var top := f[y][x];
        var bottom := f[y + SCAN_RATE][x];
        var val0 := Quantise(top);
        var val1 := Quantise(bottom);
        var combined := Pack(val0, val1);
        assert Format06(combined) == RowLines(f, y)[x];
        assert RowLines(f, y)[..x + 1] == RowLines(f, y)[..x] + [RowLines(f, y)[x]];
        lines := lines + [Format06(combined)];
        x := x + 1;
      }
      assert RowLines(f, y)[..WIDTH] == RowLines(f, y);
      assert Rows(f, y + 1) == Rows(f, y) + RowLines(f, y);
      y := y + 1;
    }
    FrameLayout(f);
  }

  /**
   Lines 13-56: run every frame through ProcessFrame, append, join with
   newlines, and report `len(frames_data) // (WIDTH * SCAN_RATE)` frames.
   The decoder always yields at least the image's first frame.
   */
  method ProcessGif(frames: seq<Grid>) returns (lines: seq<string>, text: string, frameCount: nat)
    requires AllFrames(frames)
    ensures lines == AllLines(frames)
    ensures |lines| == |frames| * LINES_PER_FRAME
    ensures frameCount == |frames|
    ensures forall k, i :: 0 <= k < |frames| && 0 <= i < LINES_PER_FRAME ==>
              lines[k * LINES_PER_FRAME + i] == FrameLines(frames[k])[i]
    ensures text == Output(frames)
    ensures |frames| >= 1 ==> Split(text) == lines
  {
    lines := [];
    var k := 0;
    while k < |frames|
      invariant 0 <= k <= |frames|
      invariant lines == AllLines(frames[..k])
    {
      var frameLines := ProcessFrame(frames[k]);
      assert frames[..k + 1][..k] == frames[..k];
      lines := lines + frameLines;
      k := k + 1;
    }
    assert frames[..|frames|] == frames;
    text := Join(lines);
    AllLinesIndex(frames);
    DivModUnique(|lines|, LINES_PER_FRAME, |frames|, 0);
    frameCount := |lines| / LINES_PER_FRAME;
    assert text == Output(frames);
  }

  lemma HexHasNoNewline(s: string)
    requires IsHexString(s)
    ensures NoNewline(s)
  {
  }

  /** Line i of a frame is six hex digits. */
  lemma FrameLineIsHex(f: Grid, i: nat)
    requires IsFrame(f) && i < LINES_PER_FRAME
    ensures |FrameLines(f)[i]| == 6 && IsHexString(FrameLines(f)[i])
  {
    FrameLayout(f);
  }

  /** Line j of the output is line j % 2048 of frame j / 2048. */
  lemma OutputLine(frames: seq<Grid>, j: nat)
    requires AllFrames(frames) && j < |AllLines(frames)|
    ensures |AllLines(frames)[j]| == 6 && IsHexString(AllLines(frames)[j])
  {
    BlockIndex(j, |frames|, LINES_PER_FRAME);
    var k := j / LINES_PER_FRAME;
    var i := j % LINES_PER_FRAME;
    AllLinesAt(frames, k, i);
    FrameLineIsHex(frames[k], i);
  }

  /** Every line of the output is six hex digits, so none holds a newline. */
  lemma LinesAreHex(frames: seq<Grid>)
    requires AllFrames(frames)
    ensures forall j :: 0 <= j < |AllLines(frames)| ==>
              |AllLines(frames)[j]| == 6 && IsHexString(AllLines(frames)[j])
    ensures AllNoNewline(AllLines(frames))
  {
    var all := AllLines(frames);
    forall j | 0 <= j < |all|
      ensures |all[j]| == 6 && IsHexString(all[j]) && NoNewline(all[j])
    {
      OutputLine(frames, j);
      HexHasNoNewline(all[j]);
    }
  }

  /** The line of the output that holds column x of scan row y of frame k, among n frames. */
  function LineNumber(n: nat, k: nat, x: nat, y: nat): (j: nat)
    requires k < n && x < WIDTH && y < SCAN_RATE
    ensures j < n * LINES_PER_FRAME
  {
    assert LINES_PER_FRAME == 2048;
    k * LINES_PER_FRAME + y * WIDTH + x
  }

  /**
   Reading the file back line by line: the line at k * 2048 + y * 64 + x
   holds frame k's pixel (x, y) in its top half and pixel (x, y + 32) in
   its bottom half.
   */
  lemma DecodeOutput(frames: seq<Grid>, k: nat, x: nat, y: nat)
    requires AllFrames(frames)
    requires k < |frames| && x < WIDTH && y < SCAN_RATE
    ensures |Split(Output(frames))[LineNumber(|frames|, k, x, y)]| == 6
    ensures IsHexString(Split(Output(frames))[LineNumber(|frames|, k, x, y)])
    ensures Top(ParseHex(Split(Output(frames))[LineNumber(|frames|, k, x, y)])) == Quantise(frames[k][y][x])
    ensures Bottom(ParseHex(Split(Output(frames))[LineNumber(|frames|, k, x, y)]))
              == Quantise(frames[k][y + SCAN_RATE][x])
  {
    PairOfLine(frames, k, x, y);
  }

  /** The line at LineNumber(N, k, x, y) is frame k's pixel (x, y) over pixel (x, y + 32). */
  lemma PairOfLine(frames: seq<Grid>, k: nat, x: nat, y: nat)
    requires AllFrames(frames)
    requires k < |frames| && x < WIDTH && y < SCAN_RATE
    ensures AllLines(frames)[LineNumber(|frames|, k, x, y)] == LineAt(frames[k], x, y)
  {
    assert LINES_PER_FRAME == 2048;
    var i := y * WIDTH + x;
    assert LineNumber(|frames|, k, x, y) == k * LINES_PER_FRAME + i;
    AllLinesAt(frames, k, i);
    FrameLineAt(frames[k], x, y);
  }

  /** Line y * WIDTH + x of one frame is the pair of column x, scan row y. */
  lemma FrameLineAt(f: Grid, x: nat, y: nat)
    requires IsFrame(f) && x < WIDTH && y < SCAN_RATE
    ensures y * WIDTH + x < |FrameLines(f)|
    ensures FrameLines(f)[y * WIDTH + x] == LineAt(f, x, y)
  {
    RowsLayout(f, SCAN_RATE);
  }

  /**
   A top pixel (255, 0, 0) over a bottom pixel (0, 255, 0) gives 00F0F0:
   the tuple's first component goes to bits 0-3 of each half and the top
   pixel to bits 12-23, whatever the names `r0, g0, b0` and the comment on
   line 38 suggest.
   */
  lemma RedOverGreen()
    ensures Quantise(Pixel(255, 0, 0)) == 0x00F
    ensures Quantise(Pixel(0, 255, 0)) == 0x0F0
    ensures Pack(Quantise(Pixel(255, 0, 0)), Quantise(Pixel(0, 255, 0))) == 0x00F0F0
    ensures PairLine(Pixel(255, 0, 0), Pixel(0, 255, 0)) == "00F0F0"
    ensures PairLine(Pixel(255, 0, 0), Pixel(0, 255, 0)) != "F000F0"
  {
    var top := Quantise(Pixel(255, 0, 0));
    var bottom := Quantise(Pixel(0, 255, 0));
    assert top == 0x00F && bottom == 0x0F0;
    assert Pack(top, bottom) == 0x00F0F0;
    Rendered00F0F0();
  }

  lemma Rendered00F0F0()
    ensures Format06(0x00F0F0) == "00F0F0"
  {
    assert FixedHex(0x00F0F0, 6) == "00F0F0";
  }

  /** A frame painted with one pixel everywhere. */
  function Solid(p: Pixel): (f: Grid)
    ensures IsFrame(f)
  {
    seq(HEIGHT, _ => seq(WIDTH, _ => p))
  }

  /** Every line of a solid frame is the line of that pixel over itself. */
  lemma SolidFrame(p: Pixel)
    ensures |FrameLines(Solid(p))| == LINES_PER_FRAME
    ensures forall i :: 0 <= i < LINES_PER_FRAME ==> FrameLines(Solid(p))[i] == PairLine(p, p)
  {
    FrameLayout(Solid(p));
  }

  /** Solid white pairs give FFFFFF and solid black pairs give 000000. */
  lemma WhiteAndBlackLines()
    ensures PairLine(Pixel(255, 255, 255), Pixel(255, 255, 255)) == "FFFFFF"
    ensures PairLine(Pixel(0, 0, 0), Pixel(0, 0, 0)) == "000000"
  {
    assert Quantise(Pixel(255, 255, 255)) == 0xFFF;
    assert Quantise(Pixel(0, 0, 0)) == 0;
    assert Pack(0xFFF, 0xFFF) == 0xFFFFFF;
    assert Pack(0, 0) == 0;
    RenderedExtremes();
  }

  lemma RenderedExtremes()
    ensures Format06(0xFFFFFF) == "FFFFFF"
    ensures Format06(0) == "000000"
  {
    FixedAllF();
    FixedHexZero(6);
  }

  lemma FixedAllF()
    ensures FixedHex(0xFFFFFF, 6) == "FFFFFF"
  {
    assert FixedHex(0xF, 1) == "F";
    assert FixedHex(0xFF, 2) == "FF";
    assert FixedHex(0xFFF, 3) == "FFF";
    assert FixedHex(0xFFFF, 4) == "FFFF";
    assert FixedHex(0xFFFFF, 5) == "FFFFF";
  }

  /** Two frames give the first frame's lines followed by the second's. */
  lemma TwoFrames(f: Grid, g: Grid)
    requires IsFrame(f) && IsFrame(g)
    ensures AllLines([f, g]) == FrameLines(f) + FrameLines(g)
  {
    assert [f, g][..1] == [f];
    assert [f][..0] == [];
    assert AllLines([f]) == [] + FrameLines(f) == FrameLines(f);
    assert AllLines([f, g]) == AllLines([f]) + FrameLines(g);
  }

  /** Two solid frames: 2048 lines of the first pixel over itself, then 2048 of the second's. */
  lemma TwoSolidFrames(p: Pixel, q: Pixel)
    ensures |AllLines([Solid(p), Solid(q)])| == 2 * LINES_PER_FRAME
    ensures forall i :: 0 <= i < LINES_PER_FRAME ==> AllLines([Solid(p), Solid(q)])[i] == PairLine(p, p)
    ensures forall i :: LINES_PER_FRAME <= i < 2 * LINES_PER_FRAME ==>
              AllLines([Solid(p), Solid(q)])[i] == PairLine(q, q)
  {
    var all := AllLines([Solid(p), Solid(q)]);
    TwoFrames(Solid(p), Solid(q));
    SolidFrame(p);
    SolidFrame(q);
    forall i | LINES_PER_FRAME <= i < 2 * LINES_PER_FRAME
      ensures all[i] == PairLine(q, q)
    {
      assert all[i] == FrameLines(Solid(q))[i - LINES_PER_FRAME];
    }
  }

  /** A white frame followed by a black one: 2048 lines FFFFFF, then 2048 lines 000000. */
  lemma WhiteThenBlack()
    ensures |AllLines([Solid(Pixel(255, 255, 255)), Solid(Pixel(0, 0, 0))])| == 2 * LINES_PER_FRAME
    ensures forall i :: 0 <= i < LINES_PER_FRAME ==>
              AllLines([Solid(Pixel(255, 255, 255)), Solid(Pixel(0, 0, 0))])[i] == "FFFFFF"
    ensures forall i :: LINES_PER_FRAME <= i < 2 * LINES_PER_FRAME ==>
              AllLines([Solid(Pixel(255, 255, 255)), Solid(Pixel(0, 0, 0))])[i] == "000000"
  {
    WhiteAndBlackLines();
    TwoSolidFrames(Pixel(255, 255, 255), Pixel(0, 0, 0));
  }
}
