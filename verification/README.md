# gif_to_hex: packing animation frames into a `$readmemh` image

`Led_panel_12bpp/gifs/gif_to_hex.py` turns an animated image into the hex
memory-initialisation file of a 64x64 LED panel driven with 1/32 scan. Each
frame, already decoded and resized to 64x64, produces 2048 lines. Rows
y = 0..31 form the outer loop and columns x = 0..63 the inner loop. For each
(x, y) the script does four things:

- it quantises pixel (x, y) (the top pixel) and pixel (x, y + 32) (the bottom
  pixel) to 12-bit RGB444 values;
- it packs them into one 24-bit word, `(val0 << 12) | val1`;
- it renders that word as `f"{combined:06X}"`;
- it appends the line.

The lines of all frames are appended in frame order and written joined by
`'\n'`. The script then reports `len // 2048` frames.

The Dafny project models this pipeline:

- `bits.dfy` (`Bits`) defines Python's `<<`, `>>`, `|` and `&` on
  non-negative integers. It also proves when they reduce to arithmetic: a
  disjoint `|` is `+`, and `& (2^k - 1)` is `% 2^k`.
- `color.dfy` (`Color`) covers quantisation (lines 28-34).
- `word.dfy` (`Word`) covers packing (line 39). `Top` and `Bottom` are the
  reading side of the word.
- `hex.dfy` (`Hex`) models `06X` the way Python computes it: the shortest
  upper-case digits, left-padded with '0' to width 6. `FixedHex`, a
  fixed-width reference rendering, and `ParseHex`, the base-16 reading that
  `$readmemh` performs, are its partners.
- `text.dfy` (`Text`) covers `'\n'.join` (line 53). `Split`, a reader that
  cuts the text at newlines, is its partner.
- `gif_to_hex.dfy` (`GifToHex`) holds:
  - the constants WIDTH, HEIGHT and SCAN_RATE;
  - the two loops of one frame, as method `ProcessFrame`;
  - the frame loop and the join, as method `ProcessGif`;
  - the layout lemmas, an end-to-end decoding lemma and the concrete
    scenarios.

Where the code and its own names or comments disagree, the model follows
the code. There are two such points:

- **Channel order.** Line 28 destructures PIL's `(R, G, B)` tuple as
  `b0, g0, r0`. So the tuple's first component (PIL red) lands in bits 0-3,
  and its third component (PIL blue) lands in bits 8-11.
- **Half order.** The comment on line 38 says the upper 12 bits hold RGB1,
  the bottom pixel. Line 39 actually puts val0, the top pixel (row y), in
  bits 12-23.

So a top pixel (255, 0, 0) over a bottom pixel (0, 255, 0) produces
`00F0F0` (`GifToHex.RedOverGreen`). The other readings give other lines:

- The names `r0, g0, b0` taken as PIL's red, green and blue, with the
  code's half order, would give `F000F0`.
- The code's channel order with the comment's half order (bottom pixel in
  the upper 12 bits) would give `0F000F`.
- The names and the comment together would give `0F0F00`.

## Model

`GifToHex.RowLines` is the plain definition of one pass of the inner loop
(line 26). Its layout is stated by `GifToHex.RowsLayout` and
`GifToHex.ProcessFrame`, so it has no row of its own.

| member | source | states |
|---|---|---|
| Color.Quantise | Led_panel_12bpp/gifs/gif_to_hex.py:28-30 | a pixel becomes the 12-bit value 0x100·(third component >> 4) + 0x10·(second >> 4) + (first >> 4); the result is below 0x1000 |
| Color.ChannelPlacement | Led_panel_12bpp/gifs/gif_to_hex.py:28-34 | in the quantised value, bits 0-3 are the tuple's first component's high nibble, bits 4-7 the second's and bits 8-11 the third's; bits 12 and above are clear |
| Color.QuantiseHighBits | Led_panel_12bpp/gifs/gif_to_hex.py:30 | two pixels quantise equally if and only if they agree on `c >> 4` for every channel |
| Color.WidenField | Led_panel_12bpp/gifs/gif_to_hex.py:30 | widening each field back with `<< 4` gives a value at most 15 below the original channel and never above it (the lossy round trip) |
| Color.NibblesOfFields | Led_panel_12bpp/gifs/gif_to_hex.py:30 | each field of hi·0x100 + mid·0x10 + lo reads back as hi, mid and lo, and nothing is set above bit 11 |
| Color.OrFields | Led_panel_12bpp/gifs/gif_to_hex.py:30 | the bitwise or of `hi << 8`, `mid << 4` and `lo`, with 4-bit operands, equals hi·256 + mid·16 + lo |
| Bits.Shl | Led_panel_12bpp/gifs/gif_to_hex.py:30 | `a << k` leaves the low k bits clear, and `>> k` gives a back |
| Bits.Shr | Led_panel_12bpp/gifs/gif_to_hex.py:34 | `a >> k` is a divided by 2^k, rounded down |
| Bits.Or | Led_panel_12bpp/gifs/gif_to_hex.py:39 | the bitwise or of a and b is at least each operand and at most their sum |
| Bits.OrDisjoint | Led_panel_12bpp/gifs/gif_to_hex.py:39 | the bitwise or of `a << k` and `b` equals (a << k) + b whenever b < 2^k |
| Bits.AndLowMask | Led_panel_12bpp/gifs/gif_to_hex.py:39 | a reading-side helper, not script code: `x & (2^k - 1)` is x mod 2^k; `Word.UnpackPack` uses it to recover val1 from the low 12 bits of the line 39 word |
| Word.Pack | Led_panel_12bpp/gifs/gif_to_hex.py:39 | the packed word is below 2^24 and equals 0x1000·top + bottom: the top-row pixel is in bits 12-23 |
| Word.UnpackPack | Led_panel_12bpp/gifs/gif_to_hex.py:39 | `combined >> 12` gives back val0 (the top row) and `combined & 0xFFF` gives back val1 (the bottom row) |
| Word.PackUnpack | Led_panel_12bpp/gifs/gif_to_hex.py:39 | every 24-bit word splits into two 12-bit halves that pack back to it |
| Word.PackInjective | Led_panel_12bpp/gifs/gif_to_hex.py:39 | two pairs give the same word if and only if their tops agree and their bottoms agree |
| Hex.HexDigitsLength | Led_panel_12bpp/gifs/gif_to_hex.py:42 | for every width w ≥ 1, the shortest hex rendering of n fits in w digits if and only if n < 16^w |
| Hex.PaddedIsFixed | Led_panel_12bpp/gifs/gif_to_hex.py:42 | for every width w ≥ 1 and n < 16^w, zero-padding the shortest rendering to width w gives the w-digit fixed-width rendering |
| Hex.Format06 | Led_panel_12bpp/gifs/gif_to_hex.py:42 | `06X` prints only 0-9 and A-F and at least 6 characters; exactly 6 if and only if the value is below 2^24, and then it is the 6-digit fixed-width rendering |
| Hex.ParseFixed | Led_panel_12bpp/gifs/gif_to_hex.py:42 | base-16 reading of a w-digit rendering returns the value when it is below 16^w |
| Hex.FixedParse | Led_panel_12bpp/gifs/gif_to_hex.py:42 | every digit string is the fixed-width rendering of its own value, and that value is below 16^length |
| Hex.Format06RoundTrip | Led_panel_12bpp/gifs/gif_to_hex.py:42 | reading the `06X` text of a 24-bit word back as base 16 returns the word |
| Hex.Format06Onto | Led_panel_12bpp/gifs/gif_to_hex.py:42 | every 6-digit upper-case hex string is exactly what `06X` prints for its value |
| Text.Join | Led_panel_12bpp/gifs/gif_to_hex.py:53 | no lines join to the empty text; newline-free lines are separated by exactly (lines − 1) newlines, and the text ends with the last line itself, with no trailing newline |
| Text.SplitJoin | Led_panel_12bpp/gifs/gif_to_hex.py:53 | cutting the joined text at newlines gives back exactly the lines, when there is at least one and none contains a newline |
| Text.JoinLength | Led_panel_12bpp/gifs/gif_to_hex.py:53 | for at least one line, lines of width w join into (w + 1)·lines − 1 characters |
| GifToHex.PairLine | Led_panel_12bpp/gifs/gif_to_hex.py:28-42 | a pair's line is 6 hex digits whose base-16 value is the top pixel's quantised value packed over the bottom pixel's; `>> 12` of that value gives the top pixel's value back and `& 0xFFF` the bottom pixel's |
| GifToHex.LineAt | Led_panel_12bpp/gifs/gif_to_hex.py:25-42 | the line for column x of scan row y reads back as pixel (x, y) quantised in bits 12-23 and pixel (x, y + 32) quantised in bits 0-11 |
| GifToHex.Rows | Led_panel_12bpp/gifs/gif_to_hex.py:25 | n passes of the outer loop give n·64 lines |
| GifToHex.RowsLayout | Led_panel_12bpp/gifs/gif_to_hex.py:25-26 | after n passes of the outer loop, line y·64 + x is the pair of column x, row y, for every y < n and x < 64 |
| GifToHex.FrameLines | Led_panel_12bpp/gifs/gif_to_hex.py:21-42 | `frame_lines` after both loops holds WIDTH·SCAN_RATE lines |
| GifToHex.FrameLineAt | Led_panel_12bpp/gifs/gif_to_hex.py:25-42 | line y·64 + x of a frame is the pair of column x, scan row y |
| GifToHex.FrameLayout | Led_panel_12bpp/gifs/gif_to_hex.py:9-34 | WIDTH·SCAN_RATE = 2048; line y·64 + x of a frame comes from pixels (x, y) and (x, y + 32); each index i is column i % 64 of row i / 64; and SCAN_RATE + SCAN_RATE = HEIGHT keeps the bottom read in range |
| GifToHex.ProcessFrame | Led_panel_12bpp/gifs/gif_to_hex.py:21-42 | the nested loops return 2048 lines; the line at y·64 + x is pixel (x, y) packed over pixel (x, y + 32) |
| GifToHex.AllLines | Led_panel_12bpp/gifs/gif_to_hex.py:44 | `frames_data` after N frames holds N·2048 lines |
| GifToHex.AllLinesAt | Led_panel_12bpp/gifs/gif_to_hex.py:44 | line k·2048 + i of the output is line i of frame k |
| GifToHex.AllLinesIndex | Led_panel_12bpp/gifs/gif_to_hex.py:44 | line k·2048 + i of the output is line i of frame k, for every k and i at once |
| GifToHex.AllLinesLayout | Led_panel_12bpp/gifs/gif_to_hex.py:44 | frame k occupies exactly the lines [k·2048, (k+1)·2048), in frame order |
| GifToHex.Output | Led_panel_12bpp/gifs/gif_to_hex.py:53 | the written text is empty for no frames; for N ≥ 1 frames it has 7·N·2048 − 1 characters and N·2048 − 1 newlines, and cutting it at newlines gives back every line |
| GifToHex.ProcessGif | Led_panel_12bpp/gifs/gif_to_hex.py:13-56 | the frame loop appends each frame's lines in order to N·2048 lines; the reported frame count `len // 2048` is N; for N ≥ 1, cutting the written text at newlines gives back the lines |
| GifToHex.LinesAreHex | Led_panel_12bpp/gifs/gif_to_hex.py:42-44 | every line of every frame is exactly 6 characters from 0-9A-F, so no line holds a newline |
| GifToHex.PairOfLine | Led_panel_12bpp/gifs/gif_to_hex.py:25-44 | the output line numbered k·2048 + y·64 + x is frame k's pixel (x, y) over pixel (x, y + 32) |
| GifToHex.DecodeOutput | Led_panel_12bpp/gifs/gif_to_hex.py:25-53 | reading the written text back line by line: line k·2048 + y·64 + x is 6 hex digits holding frame k's pixel (x, y) on top and (x, y + 32) below |
| GifToHex.RedOverGreen | Led_panel_12bpp/gifs/gif_to_hex.py:28-42 | a top pixel (255, 0, 0) over a bottom pixel (0, 255, 0) gives 0x00F and 0x0F0, the word 0x00F0F0, and the line `00F0F0`, not `F000F0` |
| GifToHex.WhiteAndBlackLines | Led_panel_12bpp/gifs/gif_to_hex.py:28-42 | a solid white pair gives `FFFFFF` and a solid black pair gives `000000` |
| GifToHex.SolidFrame | Led_panel_12bpp/gifs/gif_to_hex.py:25-42 | every one of a solid frame's 2048 lines is the pixel packed over itself |
| GifToHex.TwoSolidFrames | Led_panel_12bpp/gifs/gif_to_hex.py:25-44 | two solid frames give 4096 lines: the first 2048 from the first frame's pixel and the next 2048 from the second's |
| GifToHex.WhiteThenBlack | Led_panel_12bpp/gifs/gif_to_hex.py:25-44 | a white frame followed by a black frame gives 2048 lines `FFFFFF` followed by 2048 lines `000000` |

## Left out

- Decoding, RGB conversion and LANCZOS resizing (lines 6, 18) are PIL calls
  with floating-point resampling. A frame is taken as given: a 64x64 grid of
  byte triples (`GifToHex.IsFrame`).
- The `seek`/`tell`/`EOFError` frame loop (lines 15-16, 45-48) is decoder
  control flow. The frames are a finite `seq`. The decoder always yields at
  least the first frame, and the properties that need a line to exist
  assume N ≥ 1.
- The file is opened in text mode (line 51), so on some platforms each
  `'\n'` reaches the disk as the platform's line separator. `Output`
  describes the string passed to `f.write`; its character count is not a
  byte count on disk.
- Opening and writing the output file (lines 51-52), the two `print`
  summaries (lines 55-56) and the `sys.argv` handling (lines 58-62) are
  I/O. `ProcessGif` returns the text and the frame count instead.
- Word.Pack: takes 12-bit operands by type (`Rgb444`). The source only
  packs quantised values. Python's bitwise or of wider operands, which
  can overlap, is not modelled.
- Hex.Format06: non-negative values only. Python's sign handling under
  `06X` cannot arise, because packed words are never negative.
- `Top`, `Bottom`, `Nibble`, `Widen`, `ParseHex` and `Split` are the
  reading side of the file: what the hardware memory model and a
  `$readmemh` loader do with it. They are not part of the script.
