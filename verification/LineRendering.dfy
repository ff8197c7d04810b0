/** The pixels of one printed line, stated without the grid: glyphs are 8 pixels wide but 7 apart,
    so each covers the last column of the one before it. */
module LineRendering {
  import opened Base
  import opened Console
  import opened Pixels

  /** Drawing the first k characters of buf side by side from column 0, without wrapping. */
  ghost function Typed(s: Scr, buf: seq<byte>, k: nat): (r: Scr)
    requires k <= |buf|
    ensures r == s.(fb := r.fb, stray := r.stray) && |r.fb| == |s.fb|
  {
    if k == 0 then s else DrawChar(Typed(s, buf, k - 1), (k - 1) * 7, s.y * 8, s.fg, buf[k - 1])
  }

  /** What pixel column col of pixel row q in the line shows after k characters, if they reach it. */
  function LinePixel(font: Font, buf: seq<byte>, k: nat, fg: u32, bg: u32, q: nat, col: nat): u32
    requires 0 < k <= |buf| && col <= 7 * k && q < 8
  {
    if col == 7 * k then MarkPixel(font, Mark(buf[k - 1], fg, bg), q, 7)
    else MarkPixel(font, Mark(buf[col / 7], fg, bg), q, col % 7)
  }

  lemma {:induction false} TypedPixels(s: Scr, buf: seq<byte>, k: nat)
    requires s.ready && s.useBg && Ok(s) && k <= |buf| && k <= MX
    ensures var t := Typed(s, buf, k);
            forall r, q, col :: 0 <= r < MY && 0 <= q < 8 && 0 <= col < 512 ==>
              t.fb[PixelIndex(r, q, col)] ==
              if r == s.y && k > 0 && col <= 7 * k then LinePixel(s.font, buf, k, s.fg, s.bg, q, col)
              else s.fb[PixelIndex(r, q, col)]
  {
    if k > 0 {
      TypedPixels(s, buf, k - 1);
      CellPixels(Typed(s, buf, k - 1), k - 1, s.y, s.fg, buf[k - 1]);
      forall q, col | 0 <= q < 8 && 0 <= col <= 7 * k
        ensures LinePixel(s.font, buf, k, s.fg, s.bg, q, col) ==
                if 7 * (k - 1) <= col then MarkPixel(s.font, Mark(buf[k - 1], s.fg, s.bg), q, col - 7 * (k - 1))
                else LinePixel(s.font, buf, k - 1, s.fg, s.bg, q, col)
      {
        if 7 * (k - 1) <= col < 7 * k { assert col / 7 == k - 1; }
      }
    }
  }

  lemma TypedNext(s: Scr, buf: seq<byte>, k: nat)
    requires s.ready && k < |buf| && k < MX && Printable(buf)
    ensures var t := PrintChar(Typed(s, buf, k).(x := k), buf[k]);
            t == if k + 1 == MX then NewLine(Typed(s, buf, k + 1)) else Typed(s, buf, k + 1).(x := k + 1)
  {
    assert buf[k] in buf;
    var t := Typed(s, buf, k);
    assert DrawChar(t.(x := k), k * 7, s.y * 8, s.fg, buf[k]) == DrawChar(t, k * 7, s.y * 8, s.fg, buf[k]).(x := k);
  }

  lemma PrintNext(s: Scr, buf: seq<byte>, k: nat)
    requires s.ready && k < |buf|
    ensures Print(s, buf[k..]) == Print(PrintChar(s, buf[k]), buf[k + 1..])
  {
    assert buf[k..][0] == buf[k] && buf[k..][1..] == buf[k + 1..];
  }

  lemma {:induction false} PrintTyped(s: Scr, buf: seq<byte>, k: nat)
    requires s.ready && s.x == 0 && Printable(buf) && k <= |buf| && k < MX
    ensures Print(s, buf) == Print(Typed(s, buf, k).(x := k), buf[k..])
  {
    if k == 0 {
      assert buf[0..] == buf && Typed(s, buf, 0).(x := 0) == s;
    } else {
      PrintTyped(s, buf, k - 1);
      PrintNext(Typed(s, buf, k - 1).(x := k - 1), buf, k - 1);
      TypedNext(s, buf, k - 1);
    }
  }

  /** A line of fewer than 68 characters printed from column 0: the cursor follows the last
      character, and the screen is the typed line. */
  lemma PrintShortLine(s: Scr, buf: seq<byte>)
    requires s.ready && s.x == 0 && Printable(buf) && |buf| < MX
    ensures Print(s, buf) == Typed(s, buf, |buf|).(x := |buf|)
  {
    PrintTyped(s, buf, |buf|);
    assert buf[|buf|..] == [];
  }

  /** A full line also moves to the next row, or the first after the last, and clears it. */
  lemma PrintFullLine(s: Scr, buf: seq<byte>)
    requires s.ready && s.x == 0 && Printable(buf) && |buf| == MX
    ensures Print(s, buf) == NewLine(Typed(s, buf, MX))
  {
    var k := |buf| - 1;
    PrintTyped(s, buf, k);
    PrintNext(Typed(s, buf, k).(x := k), buf, k);
    TypedNext(s, buf, k);
    assert buf[k + 1..] == [];
  }

  /** One printed line on any screen. With k characters, pixel column 7 * i + j of the line (j < 7)
      is column j of glyph i, pixel column 7 * k is column 7 of the last glyph, and every other pixel
      is as it was, except that a full line clears the row it wraps to. */
  lemma LineIsRendered(s: Scr, buf: seq<byte>)
    requires s.ready && s.useBg && s.useClear && Ok(s) && s.x == 0 && Printable(buf) && |buf| <= MX
    ensures var t, k := Print(s, buf), |buf|;
            && (k < MX ==> t.x == k && t.y == s.y)
            && (k == MX ==> t.x == 0 && t.y == RowBelow(s.y))
            && (forall r, q, col :: 0 <= r < MY && 0 <= q < 8 && 0 <= col < 512 ==>
                  t.fb[PixelIndex(r, q, col)] ==
                  if k == MX && r == RowBelow(s.y) && col <= 476 then s.bg
                  else if r == s.y && k > 0 && col <= 7 * k then LinePixel(s.font, buf, k, s.fg, s.bg, q, col)
                  else s.fb[PixelIndex(r, q, col)])
  {
    TypedPixels(s, buf, |buf|);
    if |buf| < MX {
      PrintShortLine(s, buf);
    } else {
      PrintFullLine(s, buf);
      NewLinePixels(Typed(s, buf, MX));
    }
  }
}
