/** Where printing writes: which texts keep the cursor in its row, and which keep every pixel written
    inside the array. */
module Bounds {
  import opened Base
  import opened Console
  import opened Pixels

  // ---------------------------------------------------------------- staying in the row

  /** The column of the 16-bit cursor after one character. */
  function CursorX(x: u16, c: byte): u16 {
    if c == CARRIAGE_RETURN || c == NEWLINE then 0
    else if c == TAB then ToU16(x + 4)
    else if ToU16(x + 1) == MX then 0 else ToU16(x + 1)
  }

  /** Every tab is met left of column 64, so that its four cells fit the row. */
  predicate TabsFit(x: u16, buf: seq<byte>)
    decreases |buf|
  {
    buf == [] || ((buf[0] == TAB ==> x < 64) && TabsFit(CursorX(x, buf[0]), buf[1..]))
  }

  lemma NextColumn(x: int)
    ensures ToU16(ToU16(x) + 1) == ToU16(x + 1)
  {
  }

  lemma {:induction false} TabColumn(s: Scr, n: nat)
    ensures TabUpto(s, n).x == ToU16(s.x + n)
  {
    if n > 0 {
      TabColumn(s, n - 1);
      NextColumn(s.x + (n - 1));
    }
  }

  lemma CursorStep(s: Scr, c: byte)
    requires s.ready
    ensures PrintChar(s, c).x == CursorX(s.x, c)
  {
    if c == TAB { TabColumn(s, 4); }
  }

  /** A text without tabs fits from any column. */
  lemma {:induction false} NoTabsFit(x: u16, buf: seq<byte>)
    requires TAB !in buf
    ensures TabsFit(x, buf)
    decreases |buf|
  {
    if buf != [] { NoTabsFit(CursorX(x, buf[0]), buf[1..]); }
  }

  /** After every character of the text the cursor is in the row. */
  ghost predicate InRowThroughout(s: Scr, buf: seq<byte>) {
    forall n :: 0 <= n <= |buf| ==> Print(s, buf[..n]).x < MX
  }

  lemma ThroughoutFirst(s: Scr, buf: seq<byte>)
    requires s.ready && s.x < MX && buf != []
    ensures InRowThroughout(s, buf) <==> InRowThroughout(PrintChar(s, buf[0]), buf[1..])
  {
    var t := PrintChar(s, buf[0]);
    forall n | 0 <= n < |buf| ensures Print(s, buf[..n + 1]) == Print(t, buf[1..][..n]) {
      assert buf[..n + 1][1..] == buf[1..][..n];
    }
    if InRowThroughout(s, buf) {
      forall n | 0 <= n <= |buf[1..]| ensures Print(t, buf[1..][..n]).x < MX {
        assert Print(s, buf[..n + 1]) == Print(t, buf[1..][..n]);
      }
    }
    if InRowThroughout(t, buf[1..]) {
      forall n | 0 <= n <= |buf| ensures Print(s, buf[..n]).x < MX {
        if n > 0 { assert Print(s, buf[..n - 1 + 1]) == Print(t, buf[1..][..n - 1]); }
        else { assert buf[..0] == []; }
      }
    }
  }

  /** The column of the cursor stays in the row after every character printed exactly when every
      tab is met left of column 64: a tab moves the cursor by four without a wrap. */
  lemma {:induction false} ColumnStaysExactly(s: Scr, buf: seq<byte>)
    requires s.ready && s.x < MX
    ensures TabsFit(s.x, buf) <==> InRowThroughout(s, buf)
    decreases |buf|
  {
    if buf == [] {
      assert buf[..0] == [];
    } else {
      CursorStep(s, buf[0]);
      ThroughoutFirst(s, buf);
      var t := PrintChar(s, buf[0]);
      if t.x < MX {
        ColumnStaysExactly(t, buf[1..]);
      } else {
        assert Print(t, buf[1..][..0]) == t;
      }
    }
  }

  /** What printing leaves alone: memory outside the array and the columns nobody sees. */
  predicate SameMargins(s: Scr, t: Scr) {
    && t.stray == s.stray && |t.fb| == |s.fb|
    && forall p :: 0 <= p < |s.fb| && p % 512 > 476 ==> t.fb[p] == s.fb[p]
  }

  lemma {:induction false} ClearKeepsMargins(s: Scr, n: nat)
    requires Ok(s) && n <= MX
    ensures SameMargins(s, ClearUpto(s, n))
  {
    if n > 0 {
      ClearKeepsMargins(s, n - 1);
      CellStaysInside(ClearUpto(s, n - 1), n - 1, s.y, s.bg, SOLID);
    }
  }

  lemma {:induction false} TabKeepsMargins(s: Scr, n: nat)
    requires Ok(s) && s.x + n <= MX
    ensures SameMargins(s, TabUpto(s, n)) && TabUpto(s, n).x == s.x + n
  {
    if n > 0 {
      TabKeepsMargins(s, n - 1);
      var t := TabUpto(s, n - 1);
      CellStaysInside(t, t.x, t.y, t.fg, SPACE);
    }
  }

  lemma NewLineKeepsMargins(s: Scr)
    requires Ok(s)
    ensures SameMargins(s, NewLine(s))
  {
    ClearKeepsMargins(s.(x := 0, y := RowBelow(s.y)), MX);
  }

  lemma CharKeepsMargins(s: Scr, c: byte)
    requires Ok(s) && s.x < MX && (c == TAB ==> s.x < 64)
    ensures SameMargins(s, PrintChar(s, c))
  {
    if c == TAB {
      TabKeepsMargins(s, 4);
    } else if c == NEWLINE {
      NewLineKeepsMargins(s);
    } else if c != CARRIAGE_RETURN {
      CellStaysInside(s, s.x, s.y, s.fg, c);
      NewLineKeepsMargins(DrawChar(s, s.x * 7, s.y * 8, s.fg, c).(x := ToU16(s.x + 1)));
    }
  }

  /** With any flags, a text whose tabs fit is printed inside the pixel array and inside the
      visible columns. */
  lemma {:induction false} PrintStaysInside(s: Scr, buf: seq<byte>)
    requires s.ready && Ok(s) && s.x < MX && TabsFit(s.x, buf)
    ensures SameMargins(s, Print(s, buf)) && Print(s, buf).x < MX
    decreases |buf|
  {
    if buf != [] {
      CursorStep(s, buf[0]);
      CharKeepsMargins(s, buf[0]);
      PrintStaysInside(PrintChar(s, buf[0]), buf[1..]);
    }
  }

  // ---------------------------------------------------------------- staying in the array

  /** Pixel (row, col) of the cell at column x of row y lies in the array. */
  predicate PixelFits(x: int, y: int, row: int, col: int) {
    x * 7 + col + (y * 8 + row) * VRAM_WIDTH < PIXELS
  }

  /** No pixel the glyph stores at column x of row y lies beyond the array. */
  predicate GlyphFits(font: Font, useBg: bool, x: int, y: int, ch: byte) {
    forall row, col :: 0 <= row < 8 && 0 <= col < 8 && (useBg || Ink(font, ch, row, col)) ==> PixelFits(x, y, row, col)
  }

  /** With the background on every pixel of the glyph is stored, so the last one decides. */
  lemma FullGlyphFits(font: Font, x: int, y: int, ch: byte)
    ensures GlyphFits(font, true, x, y, ch) <==> x * 7 + 7 + (y * 8 + 7) * VRAM_WIDTH < PIXELS
  {
    assert PixelFits(x, y, 7, 7) <==> x * 7 + 7 + (y * 8 + 7) * VRAM_WIDTH < PIXELS;
  }

  lemma StrayAt(pen: Pen, at: nat, row: nat, col: nat)
    requires row < 8 && col < 8 && (pen.useBg || Ink(pen.font, pen.ch, row, col))
    requires at + row * 512 + col >= PIXELS
    ensures StraysUpto(pen, PIXELS, at, 4096)
  {
    var d := row * 512 + col;
    assert d / 512 == row && d % 512 == col;
    assert Misses(pen, PIXELS, at, d);
  }

  /** A glyph leaves the array exactly when it does not fit: with any flags, any font, and wherever
      the cursor is; with the background on, when its last pixel is beyond the array. */
  lemma GlyphLeavesExactly(s: Scr, x: nat, y: nat, fg: u32, ch: byte)
    requires s.ready && !s.stray && |s.fb| == PIXELS
    ensures DrawChar(s, x * 7, y * 8, fg, ch).stray <==> !GlyphFits(s.font, s.useBg, x, y, ch)
    ensures s.useBg ==> (GlyphFits(s.font, true, x, y, ch) <==> x * 7 + 7 + (y * 8 + 7) * VRAM_WIDTH < PIXELS)
  {
    FullGlyphFits(s.font, x, y, ch);
    var pen, at := PenOf(s, fg, ch), x * 7 + y * 8 * VRAM_WIDTH;
    if GlyphFits(s.font, s.useBg, x, y, ch) {
      forall d | Stores(pen, d) ensures 0 <= at + d < PIXELS {
        assert PixelFits(x, y, d / 512, d % 512);
      }
    } else {
      var row, col :| 0 <= row < 8 && 0 <= col < 8 && (s.useBg || Ink(s.font, ch, row, col))
                      && !PixelFits(x, y, row, col);
      StrayAt(pen, at, row, col);
    }
  }

  function CursorY(x: u16, y: u16, c: byte): u16 {
    if c == NEWLINE || (c != CARRIAGE_RETURN && c != TAB && ToU16(x + 1) == MX) then RowBelow(y) else y
  }

  /** The first n blanks of a tab fit. */
  predicate TabFits(font: Font, useBg: bool, x: u16, y: u16, n: nat) {
    n == 0 || (TabFits(font, useBg, x, y, n - 1) && GlyphFits(font, useBg, ToU16(x + n - 1), y, SPACE))
  }

  predicate CharFits(font: Font, useBg: bool, x: u16, y: u16, c: byte) {
    if c == CARRIAGE_RETURN || c == NEWLINE then true
    else if c == TAB then TabFits(font, useBg, x, y, 4)
    else GlyphFits(font, useBg, x, y, c)
  }

  /** Every glyph of the text fits where the 16-bit cursor takes it. */
  predicate TextFits(font: Font, useBg: bool, x: u16, y: u16, buf: seq<byte>)
    decreases |buf|
  {
    buf == [] || (CharFits(font, useBg, x, y, buf[0])
                  && TextFits(font, useBg, CursorX(x, buf[0]), CursorY(x, y, buf[0]), buf[1..]))
  }

  lemma NewLineStrays(s: Scr)
    requires Ok(s)
    ensures NewLine(s).stray == s.stray && NewLine(s).y == RowBelow(s.y)
  {
    ClearStaysInside(s.(x := 0, y := RowBelow(s.y)), MX);
  }

  lemma {:induction false} TabStrays(s: Scr, n: nat)
    requires s.ready && Ok(s) && !s.stray
    ensures TabUpto(s, n).stray <==> !TabFits(s.font, s.useBg, s.x, s.y, n)
  {
    hide GlyphFits, ToU16, StraysUpto;
    if n > 0 {
      TabStrays(s, n - 1);
      TabColumn(s, n - 1);
      var t := TabUpto(s, n - 1);
      if !t.stray { GlyphLeavesExactly(t, t.x, t.y, t.fg, SPACE); }
    }
  }

  lemma CharLeavesExactly(s: Scr, c: byte)
    requires s.ready && Ok(s) && !s.stray
    ensures PrintChar(s, c).x == CursorX(s.x, c) && PrintChar(s, c).y == CursorY(s.x, s.y, c)
    ensures PrintChar(s, c).stray <==> !CharFits(s.font, s.useBg, s.x, s.y, c)
  {
    if c == TAB {
      TabStrays(s, 4);
      TabColumn(s, 4);
    } else if c == NEWLINE {
      NewLineStrays(s);
    } else if c != CARRIAGE_RETURN {
      GlyphLeavesExactly(s, s.x, s.y, s.fg, c);
      NewLineStrays(DrawChar(s, s.x * 7, s.y * 8, s.fg, c).(x := ToU16(s.x + 1)));
    }
  }

  lemma {:induction false} TabStaysStray(s: Scr, n: nat)
    requires s.stray
    ensures TabUpto(s, n).stray
  {
    if n > 0 { TabStaysStray(s, n - 1); }
  }

  lemma {:induction false} ClearStaysStray(s: Scr, n: nat)
    requires s.stray
    ensures ClearUpto(s, n).stray
  {
    if n > 0 { ClearStaysStray(s, n - 1); }
  }

  lemma {:induction false} StaysStray(s: Scr, buf: seq<byte>)
    requires s.stray
    ensures Print(s, buf).stray
    decreases |buf|
  {
    if s.ready && buf != [] {
      var t := DrawChar(s, s.x * 7, s.y * 8, s.fg, buf[0]).(x := ToU16(s.x + 1));
      ClearStaysStray(s.(x := 0, y := RowBelow(s.y)), MX);
      ClearStaysStray(t.(x := 0, y := RowBelow(t.y)), MX);
      TabStaysStray(s, 4);
      StaysStray(PrintChar(s, buf[0]), buf[1..]);
    }
  }

  /** Exactly when printing writes outside the pixel array: when some glyph of the text does not fit where
      the cursor takes it. This holds for every text, cursor, font and flags. */
  lemma {:induction false} PrintLeavesExactly(s: Scr, buf: seq<byte>)
    requires s.ready && Ok(s) && !s.stray
    ensures Print(s, buf).stray <==> !TextFits(s.font, s.useBg, s.x, s.y, buf)
    decreases |buf|
  {
    if buf != [] {
      CharLeavesExactly(s, buf[0]);
      var t := PrintChar(s, buf[0]);
      if t.stray { StaysStray(t, buf[1..]); } else { PrintLeavesExactly(t, buf[1..]); }
    }
  }

  /** Beyond the last column the cursor no longer wraps: a text of printable characters fits exactly
      when its last glyph does, from whichever row it starts. */
  lemma {:induction false} OvershotTextFits(font: Font, x: u16, y: u16, buf: seq<byte>)
    requires x >= MX && Printable(buf) && buf != [] && x + |buf| <= 0x1_0000
    ensures TextFits(font, true, x, y, buf) <==> (x + |buf| - 1) * 7 + 7 + (y * 8 + 7) * VRAM_WIDTH < PIXELS
    decreases |buf|
  {
    hide GlyphFits;
    assert buf[0] in buf;
    FullGlyphFits(font, x, y, buf[0]);
    if |buf| > 1 {
      assert forall c :: c in buf[1..] ==> c in buf;
      OvershotTextFits(font, x + 1, y, buf[1..]);
    } else {
      assert buf[1..] == [];
    }
  }

  /** Two tabs from column 66 of the last row write beyond the end of the pixel array. */
  lemma TabsCanLeaveTheArray(s: Scr)
    requires s.ready && s.useBg && Ok(s) && !s.stray && s.y == MY - 1 && s.x == 66
    ensures Print(s, [TAB, TAB]).stray
  {
    hide GlyphFits;
    PrintLeavesExactly(s, [TAB, TAB]);
    assert [TAB, TAB][1..] == [TAB];
    FullGlyphFits(s.font, 73, MY - 1, SPACE);
    assert !TabFits(s.font, true, 70, MY - 1, 4);
  }
}
