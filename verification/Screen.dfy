/** scr.c: the console as an object that updates its cursor and its pixel array in place. */
module Screen {
  import opened Base
  import opened Console
  import opened Pixels

  class DebugScreen {
    var x: u16
    var y: u16
    var fgcol: u32
    var bgcol: u32
    var useBgcol: bool
    var useClearline: bool
    var ready: bool
    const font: Font
    const vram: array<u32>
    ghost var stray: bool

    ghost function View(): Scr
      reads this, vram
    {
      Scr(x, y, fgcol, bgcol, useBgcol, useClearline, ready, font, vram[..], stray)
    }

    ghost predicate Valid()
      reads this, vram
    {
      Ok(View())
    }

    constructor (font: Font)
      ensures Valid() && fresh(vram) && !ready && x == 0 && y == 0 && !stray
    {
      this.font := font;
      vram := new u32[PIXELS](_ => 0);
      x, y, fgcol, bgcol := 0, 0, 0xFFFF_FFFF, 0;
      useBgcol, useClearline, ready, stray := true, true, false, false;
    }

    /** A store through a pixel pointer; outside the array it reaches memory not modelled here. */
    method Poke(p: int, color: u32)
      modifies vram, this`stray
      ensures forall k :: 0 <= k < vram.Length ==> vram[k] == if k == p then color else old(vram[k])
      ensures stray == (old(stray) || !(0 <= p < vram.Length))
    {
      if 0 <= p < vram.Length {
        vram[p] := color;
      } else {
        stray := true;
      }
    }

    /** The glyph of `pen` has been drawn at `at`, up to offset `cur`, on the screen `s`. */
    ghost predicate DrawnUpto(s: Scr, pen: Pen, at: int, cur: int)
      reads this, vram
    {
      && vram.Length == |s.fb|
      && View() == s.(fb := vram[..], stray := stray)
      && (forall p :: 0 <= p < vram.Length ==> vram[p] == PixelUpto(pen, s.fb, at, cur, p))
      && stray == (s.stray || StraysUpto(pen, |s.fb|, at, cur))
    }

    method DrawChar32(px: int, py: int, fg: u32, ch: byte)
      modifies vram, this`stray
      ensures View() == DrawChar(old(View()), px, py, fg, ch)
    {
      if !ready { return; }
      ghost var s := View();
      ghost var pen := PenOf(s, fg, ch);
      ghost var at := px + py * VRAM_WIDTH;
      var row := px + py * VRAM_WIDTH;
      var i := 0;
      while i < 8
        invariant 0 <= i <= 8 && row == at + i * 512
        invariant DrawnUpto(s, pen, at, i * 512)
      {
        DrawRow(row, i, fg, ch, s, pen, at);
        row := row + VRAM_WIDTH;
        i := i + 1;
      }
      assert vram[..] == Drawn(pen, s.fb, at);
    }

    /** The inner loop of drawchar_32. */
    method DrawRow(row: int, i: nat, fg: u32, ch: byte, ghost s: Scr, ghost pen: Pen, ghost at: int)
      requires i < 8 && row == at + i * 512 && pen == PenOf(s, fg, ch) && DrawnUpto(s, pen, at, i * 512)
      modifies vram, this`stray
      ensures DrawnUpto(s, pen, at, i * 512 + 512)
    {
      var bits := font[ch * 8 + i];
      var ptr := row;
      var j := 0;
      while j < 8
        invariant 0 <= j <= 8 && ptr == row + j
        invariant DrawnUpto(s, pen, at, i * 512 + j)
      {
        DrawBit(ptr, bits, i, j, fg, s, pen, at);
        ptr := ptr + 1;
        j := j + 1;
      }
      RowEnds(pen, s.fb, at, i * 512 + 8, i * 512 + 512);
    }

    /** One pixel of drawchar_32. */
    method DrawBit(ptr: int, bits: byte, i: nat, j: nat, fg: u32, ghost s: Scr, ghost pen: Pen, ghost at: int)
      requires i < 8 && j < 8 && ptr == at + (i * 512 + j)
      requires pen == PenOf(s, fg, pen.ch) && bits == font[pen.ch * 8 + i]
      requires DrawnUpto(s, pen, at, i * 512 + j)
      modifies vram, this`stray
      ensures DrawnUpto(s, pen, at, i * 512 + j + 1)
    {
      ghost var cur := i * 512 + j;
      PixelStep(pen, s.fb, at, i, j, cur, cur + 1);
      StrayStep(pen, |s.fb|, at, cur);
      StoreBit(ptr, bits, i, j, fg, pen, at, cur);
    }

    /** What one pixel of drawchar_32 stores, if anything. */
    method StoreBit(ptr: int, bits: byte, i: nat, j: nat, fg: u32, ghost pen: Pen, ghost at: int, ghost cur: nat)
      requires i < 8 && j < 8 && ptr == at + cur
      requires InBox(cur, 4096) && cur / 512 == i && cur % 512 == j
      requires pen == Pen(font, pen.ch, fg, bgcol, useBgcol) && bits == font[pen.ch * 8 + i]
      modifies vram, this`stray
      ensures forall p :: 0 <= p < vram.Length ==>
                vram[p] == if p == at + cur && Stores(pen, cur) then Paint(pen, cur) else old(vram[p])
      ensures stray == (old(stray) || Misses(pen, vram.Length, at, cur))
    {
      if (bits / Mask(j)) % 2 == 1 {
        Poke(ptr, fg);
      } else if useBgcol {
        Poke(ptr, bgcol);
      }
    }

    static lemma PixelStep(pen: Pen, fb: seq<u32>, at: int, i: nat, j: nat, cur: nat, next: nat)
      requires i < 8 && j < 8 && cur == i * 512 + j && next == cur + 1
      ensures InBox(cur, 4096) && cur / 512 == i && cur % 512 == j
      ensures forall p :: 0 <= p < |fb| ==>
                PixelUpto(pen, fb, at, next, p) ==
                if p == at + cur && Stores(pen, cur) then Paint(pen, cur) else PixelUpto(pen, fb, at, cur, p)
    {
      forall p | 0 <= p < |fb|
        ensures PixelUpto(pen, fb, at, next, p) ==
                if p == at + cur && Stores(pen, cur) then Paint(pen, cur) else PixelUpto(pen, fb, at, cur, p)
      {
        var d := p - at;
        if d == cur {
          assert !InBox(d, cur) && InBox(d, next);
        } else {
          assert InBox(d, cur) == InBox(d, next);
        }
      }
    }

    static lemma StrayStep(pen: Pen, size: nat, at: int, cur: nat)
      ensures StraysUpto(pen, size, at, cur + 1) <==> StraysUpto(pen, size, at, cur) || Misses(pen, size, at, cur)
    {
    }

    /** Between the eighth pixel of a row and the next row nothing is visited. */
    static lemma RowEnds(pen: Pen, fb: seq<u32>, at: int, lo: int, hi: int)
      requires 0 <= lo && lo % 512 == 8 && hi == lo + 504
      ensures StraysUpto(pen, |fb|, at, lo) <==> StraysUpto(pen, |fb|, at, hi)
      ensures forall p :: 0 <= p < |fb| ==> PixelUpto(pen, fb, at, lo, p) == PixelUpto(pen, fb, at, hi, p)
    {
      if d :| d < hi && Misses(pen, |fb|, at, d) {
        assert InBox(d, hi);
        assert d < lo;
      }
      forall p | 0 <= p < |fb| ensures PixelUpto(pen, fb, at, lo, p) == PixelUpto(pen, fb, at, hi, p) {
        assert InBox(p - at, lo) == InBox(p - at, hi);
      }
    }

    method PutChar(px: int, py: int, fg: u32, ch: byte)
      modifies vram, this`stray
      ensures View() == DrawChar(old(View()), px, py, fg, ch)
    {
      DrawChar32(px, py, fg, ch);
    }

    /** scr_clearline; `line` is not used by its body. */
    method ClearRow(line: int)
      modifies vram, this`stray
      ensures View() == ClearLine(old(View()))
    {
      if !useClearline { return; }
      if !useBgcol { return; }
      var i := 0;
      while i < MX
        invariant 0 <= i <= MX
        invariant View() == ClearUpto(old(View()), i)
      {
        PutChar(i * 7, y * 8, bgcol, SOLID);
        i := i + 1;
      }
    }

    method PrintData(buf: seq<byte>) returns (n: nat)
      modifies this`x, this`y, vram, this`stray
      ensures View() == Print(old(View()), buf)
      ensures n == if ready then |buf| else 0
    {
      if !ready { return 0; }
      var i := 0;
      while i < |buf|
        invariant 0 <= i <= |buf|
        invariant ready && Print(View(), buf[i..]) == Print(old(View()), buf)
      {
        assert buf[i..][1..] == buf[i + 1..];
        PrintOne(buf[i]);
        i := i + 1;
      }
      return i;
    }

    /** The body of the loop of scr_printdata. */
    method PrintOne(c: byte)
      modifies this`x, this`y, vram, this`stray
      ensures View() == PrintChar(old(View()), c)
    {
      if c == CARRIAGE_RETURN {
        x := 0;
      } else if c == NEWLINE {
        Advance();
      } else if c == TAB {
        var j := 0;
        while j < 4
          invariant 0 <= j <= 4
          invariant View() == TabUpto(old(View()), j)
        {
          PutChar(x * 7, y * 8, fgcol, SPACE);
          x := ToU16(x + 1);
          j := j + 1;
        }
      } else {
        PutChar(x * 7, y * 8, fgcol, c);
        x := ToU16(x + 1);
        if x == MX { Advance(); }
      }
    }

    method Advance()
      modifies this`x, this`y, vram, this`stray
      ensures View() == NewLine(old(View()))
    {
      x := 0;
      y := ToU16(y + 1);
      if y == MY { y := 0; }
      ClearRow(y);
    }

    /** scr_setx and scr_sety: positions outside the screen are ignored. */
    method SetX(newX: u16) returns (prev: u16)
      modifies this`x
      ensures prev == old(x) && x == if newX < MX then newX else old(x)
    {
      prev := x;
      if newX < MX { x := newX; }
    }

    method SetY(newY: u16) returns (prev: u16)
      requires Valid()
      modifies this`y
      ensures Valid() && prev == old(y) && y == if newY < MY then newY else old(y)
    {
      prev := y;
      if newY < MY { y := newY; }
    }

    method ClearScreen32(color: u32)
      modifies vram
      ensures forall p :: 0 <= p < vram.Length ==> vram[p] == color
    {
      var i := 0;
      while i < vram.Length
        invariant 0 <= i <= vram.Length
        invariant forall p :: 0 <= p < i ==> vram[p] == color
      {
        vram[i] := color;
        i := i + 1;
      }
    }

    /** scr_clear. Its loop over the rows has no effect: the outcome is that of the cursor reset
        and the full clear alone, whatever the flags and wherever the cursor was. */
    method Clear()
      requires Valid()
      modifies this`x, this`y, vram, this`stray
      ensures !ready ==> View() == old(View())
      ensures ready ==> View() == old(View()).(x := 0, y := 0, fb := vram[..])
                        && forall p :: 0 <= p < vram.Length ==> vram[p] == bgcol
    {
      if !ready { return; }
      var row := 0;
      while row < MY
        invariant 0 <= row <= MY
        invariant View() == old(View()).(fb := vram[..])
      {
        ClearLineStaysInside(View());
        ClearRow(row);
        row := row + 1;
      }
      var prevX := SetX(0);
      var prevY := SetY(0);
      ClearScreen32(bgcol);
    }

    static lemma ClearLineStaysInside(s: Scr)
      requires Ok(s)
      ensures ClearLine(s) == s.(fb := ClearLine(s).fb)
    {
      ClearStaysInside(s, MX);
    }
  }
}
