/** What drawing one glyph, clearing a row and moving to a new line do to each pixel. */
module Pixels {
  import opened Base
  import opened Console

  /** A character as drawn: which glyph, in which colours. */
  datatype Mark = Mark(ch: byte, fg: u32, bg: u32)

  function MarkPixel(font: Font, m: Mark, row: nat, col: nat): u32
    requires row < 8 && col < 8
  {
    if Ink(font, m.ch, row, col) then m.fg else m.bg
  }

  /** Pixel row q of text row r, pixel column col. */
  function PixelIndex(r: nat, q: nat, col: nat): nat {
    (8 * r + q) * 512 + col
  }

  /** Where a pixel lies relative to the glyph of cell (i, r). */
  lemma Relative(r: nat, q: nat, col: nat, r': nat, i: nat)
    requires r < MY && r' < MY && q < 8 && col < 512 && i < MX
    ensures var d := PixelIndex(r, q, col) - (i * 7 + r' * 8 * VRAM_WIDTH);
            && (InBox(d, 4096) <==> r == r' && 7 * i <= col <= 7 * i + 7)
            && (InBox(d, 4096) ==> d / 512 == q && d % 512 == col - 7 * i)
  {
    var d := PixelIndex(r, q, col) - (i * 7 + r' * 8 * VRAM_WIDTH);
    var row, c := 8 * r + q - 8 * r', col - 7 * i;
    assert d == row * 512 + c && -512 < c < 512;
    if c >= 0 {
      assert d / 512 == row && d % 512 == c;
    } else {
      assert d / 512 == row - 1 && d % 512 == c + 512;
    }
  }

  /** The last offset of a glyph from its first pixel is 7 * 512 + 7. */
  lemma NoStray(pen: Pen, size: nat, at: int)
    requires 0 <= at && at + 3591 < size
    ensures !StraysUpto(pen, size, at, 4096)
  {
    forall d | InBox(d, 4096) ensures d <= 3591 {
    }
  }

  /** A glyph drawn at a cell of the screen stays in the array and in the visible columns. */
  lemma CellStaysInside(s: Scr, x: nat, y: nat, fg: u32, ch: byte)
    requires |s.fb| == PIXELS && x < MX && y < MY
    ensures DrawChar(s, x * 7, y * 8, fg, ch).stray == s.stray
    ensures forall p :: 0 <= p < PIXELS && p % 512 > 476 ==> DrawChar(s, x * 7, y * 8, fg, ch).fb[p] == s.fb[p]
  {
    NoStray(PenOf(s, fg, ch), PIXELS, x * 7 + y * 8 * VRAM_WIDTH);
    MarginKept(PenOf(s, fg, ch), s.fb, x, y);
  }

  lemma MarginKept(pen: Pen, fb: seq<u32>, x: nat, y: nat)
    requires x < MX && y < MY
    ensures forall p :: 0 <= p < |fb| && p % 512 > 476 ==> Drawn(pen, fb, x * 7 + y * 8 * VRAM_WIDTH)[p] == fb[p]
  {
    forall p | 0 <= p < |fb| && p % 512 > 476 ensures !InBox(p - (x * 7 + y * 8 * VRAM_WIDTH), 4096) {
      Away(x, y, p);
    }
  }

  lemma Away(x: nat, y: nat, p: nat)
    requires x < MX && y < MY && p % 512 > 476
    ensures !InBox(p - (x * 7 + y * 8 * VRAM_WIDTH), 4096)
  {
    var d := p - (x * 7 + y * 8 * VRAM_WIDTH);
    var r, c := p / 512, p % 512;
    assert d == (r - 8 * y) * 512 + (c - 7 * x);
    assert 0 < c - 7 * x < 512;
    assert d % 512 == c - 7 * x;
  }

  /** What the pixel of a glyph becomes: without the background only the ink is drawn. */
  function Over(s: Scr, fg: u32, ch: byte, row: nat, col: nat, under: u32): u32
    requires row < 8 && col < 8
  {
    if Ink(s.font, ch, row, col) then fg else if s.useBg then s.bg else under
  }

  /** A glyph at a cell, in pixels, with any flags. */
  lemma CellPixels(s: Scr, i: nat, r: nat, fg: u32, ch: byte)
    requires s.ready && |s.fb| == PIXELS && r < MY && i < MX
    ensures var t := DrawChar(s, i * 7, r * 8, fg, ch);
            forall r', q, col :: 0 <= r' < MY && 0 <= q < 8 && 0 <= col < 512 ==>
              t.fb[PixelIndex(r', q, col)] ==
              if r' == r && 7 * i <= col <= 7 * i + 7
              then Over(s, fg, ch, q, col - 7 * i, s.fb[PixelIndex(r', q, col)])
              else s.fb[PixelIndex(r', q, col)]
  {
    var t := DrawChar(s, i * 7, r * 8, fg, ch);
    forall r', q, col | 0 <= r' < MY && 0 <= q < 8 && 0 <= col < 512
      ensures t.fb[PixelIndex(r', q, col)] ==
              if r' == r && 7 * i <= col <= 7 * i + 7
              then Over(s, fg, ch, q, col - 7 * i, s.fb[PixelIndex(r', q, col)])
              else s.fb[PixelIndex(r', q, col)]
    {
      Relative(r', q, col, r, i);
    }
  }

  lemma {:induction false} ClearedPixels(s: Scr, n: nat)
    requires s.ready && s.useBg && Ok(s) && n <= MX
    ensures var t := ClearUpto(s, n);
            forall r, q, col :: 0 <= r < MY && 0 <= q < 8 && 0 <= col < 512 ==>
              t.fb[PixelIndex(r, q, col)] ==
              if r == s.y && n > 0 && col <= 7 * n then s.bg else s.fb[PixelIndex(r, q, col)]
  {
    if n > 0 {
      ClearedPixels(s, n - 1);
      CellPixels(ClearUpto(s, n - 1), n - 1, s.y, s.bg, SOLID);
      forall q, j | 0 <= q < 8 && 0 <= j < 8 ensures MarkPixel(s.font, Mark(SOLID, s.bg, s.bg), q, j) == s.bg {
      }
    }
  }

  lemma {:induction false} ClearStaysInside(s: Scr, n: nat)
    requires Ok(s) && n <= MX
    ensures ClearUpto(s, n).stray == s.stray
  {
    if n > 0 {
      ClearStaysInside(s, n - 1);
      CellStaysInside(ClearUpto(s, n - 1), n - 1, s.y, s.bg, SOLID);
    }
  }

  /** A new line: the row below, or the first after the last, and only that row, shows the background in
      columns 0 to 476, if both flags are on; else no pixel changes. */
  lemma NewLinePixels(s: Scr)
    requires s.ready && Ok(s)
    ensures NewLine(s).y == RowBelow(s.y) == (s.y + 1) % MY && NewLine(s).x == 0
    ensures forall r, q, col :: 0 <= r < MY && 0 <= q < 8 && 0 <= col < 512 ==>
              NewLine(s).fb[PixelIndex(r, q, col)] ==
              if s.useBg && s.useClear && r == RowBelow(s.y) && col <= 476 then s.bg
              else s.fb[PixelIndex(r, q, col)]
  {
    var t := s.(x := 0, y := RowBelow(s.y));
    RowsWrap(s.y);
    if s.useBg && s.useClear {
      assert NewLine(s) == ClearUpto(t, MX);
      ClearedPixels(t, MX);
    } else {
      assert NewLine(s) == t;
    }
  }

  // ---------------------------------------------------------------- clearing a row

  /** Text row `line` shows the background in the columns text can reach. */
  predicate RowIsClear(s: Scr, line: nat)
    requires |s.fb| == PIXELS && line < MY
  {
    forall q, col :: 0 <= q < 8 && 0 <= col <= 476 ==> s.fb[PixelIndex(line, q, col)] == s.bg
  }

  lemma {:induction false} ClearNotReady(s: Scr, n: nat)
    requires !s.ready
    ensures ClearUpto(s, n) == s
  {
    if n > 0 { ClearNotReady(s, n - 1); }
  }

  /** Exactly when scr_clearline has cleared the row it was asked to clear: if that row was clear already,
      or is the row of the cursor and the flags allow it. */
  lemma ClearLineExactly(s: Scr, line: nat)
    requires Ok(s) && line < MY
    ensures RowIsClear(ClearLine(s), line) <==>
              RowIsClear(s, line) || (s.ready && s.useClear && s.useBg && line == s.y)
  {
    if s.useClear && s.useBg {
      if s.ready { ClearedPixels(s, MX); } else { ClearNotReady(s, MX); }
    }
  }

  /** Asked for row 1 while the cursor is in row 0, it leaves row 1 as it was. */
  lemma ClearLineMissesRow(s: Scr)
    requires Ok(s) && s.y == 0 && forall p :: 0 <= p < PIXELS ==> s.fb[p] != s.bg
    ensures !RowIsClear(ClearLine(s), 1)
  {
    ClearLineExactly(s, 1);
    assert s.fb[PixelIndex(1, 0, 0)] != s.bg;
  }
}
