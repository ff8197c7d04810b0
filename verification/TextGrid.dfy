/** What the console shows: a reference model of the screen as rows of characters, and the
    theorem that the overlapping glyphs scr.c draws are exactly a picture of it. */
module TextGrid {
  import opened Base
  import opened Console
  import opened Pixels
  import opened Bounds

  // ---------------------------------------------------------------- the reference screen

  /** Column 7 * i of a row belongs to the cell that starts there or to the one that ends there,
      whichever was drawn last. */
  datatype Edge = Starts(m: Mark) | Ends(m: Mark)

  datatype Line = Line(body: seq<Mark>, edge: seq<Edge>)

  type Grid = g: seq<Line> | |g| == MY && forall r :: 0 <= r < MY ==> |g[r].body| == MX && |g[r].edge| == MX + 1
    witness seq(MY, i => Line(seq(MX, j => Mark(SOLID, 0, 0)), seq(MX + 1, j => Starts(Mark(SOLID, 0, 0)))))

  /** The picture of the grid: pixel row q of text row r, pixel column col. */
  function Picture(font: Font, g: Grid, r: nat, q: nat, col: nat): u32
    requires r < MY && q < 8 && col <= MX * 7
  {
    var i, j := col / 7, col % 7;
    if j > 0 then MarkPixel(font, g[r].body[i], q, j)
    else
      match g[r].edge[i]
      case Starts(m) => MarkPixel(font, m, q, 0)
      case Ends(m) => MarkPixel(font, m, q, 7)
  }

  /** The pixel array shows the grid. */
  ghost predicate Shows(font: Font, fb: seq<u32>, g: Grid) {
    && |fb| == PIXELS
    && forall r, q, col :: 0 <= r < MY && 0 <= q < 8 && 0 <= col <= MX * 7 ==>
         fb[PixelIndex(r, q, col)] == Picture(font, g, r, q, col)
  }

  function Put(g: Grid, r: nat, i: nat, m: Mark): (g': Grid)
    requires r < MY && i < MX
  {
    g[r := Line(g[r].body[i := m], g[r].edge[i := Starts(m)][i + 1 := Ends(m)])]
  }

  /** Drawing a glyph at a cell puts its mark in the grid, overlaps included. */
  lemma DrawShowsPut(s: Scr, g: Grid, r: nat, i: nat, fg: u32, ch: byte)
    requires s.ready && s.useBg && Shows(s.font, s.fb, g) && r < MY && i < MX
    ensures Shows(s.font, DrawChar(s, i * 7, r * 8, fg, ch).fb, Put(g, r, i, Mark(ch, fg, s.bg)))
  {
    var t, g' := DrawChar(s, i * 7, r * 8, fg, ch), Put(g, r, i, Mark(ch, fg, s.bg));
    forall r', q, col | 0 <= r' < MY && 0 <= q < 8 && 0 <= col <= MX * 7
      ensures t.fb[PixelIndex(r', q, col)] == Picture(s.font, g', r', q, col)
    {
      Relative(r', q, col, r, i);
      assert s.fb[PixelIndex(r', q, col)] == Picture(s.font, g, r', q, col);
    }
  }

  /** A cleared row: 68 full blocks in the background colour. */
  function BlankLine(bg: u32): Line {
    var m := Mark(SOLID, bg, bg);
    Line(seq(MX, i => m), seq(MX + 1, i => Starts(m)))
  }

  /** The grid and the cursor. */
  datatype Text = Text(g: Grid, x: nat, y: nat)

  predicate TextOk(t: Text) {
    t.x < MX && t.y < MY
  }

  function NextLine(t: Text, bg: u32): (r: Text)
    requires t.y < MY
    ensures TextOk(r)
  {
    var y := RowBelow(t.y);
    Text(t.g[y := BlankLine(bg)], 0, y)
  }

  function Type(t: Text, fg: u32, bg: u32, c: byte): (r: Text)
    requires TextOk(t)
    ensures r.y == t.y && r.x == t.x + 1
  {
    Text(Put(t.g, t.y, t.x, Mark(c, fg, bg)), t.x + 1, t.y)
  }

  function TypeTab(t: Text, fg: u32, bg: u32, n: nat): (r: Text)
    requires t.y < MY && t.x + n < MX
    ensures r.y == t.y && r.x == t.x + n
  {
    if n == 0 then t else Type(TypeTab(t, fg, bg, n - 1), fg, bg, SPACE)
  }

  function WriteChar(t: Text, fg: u32, bg: u32, c: byte): (r: Text)
    requires TextOk(t) && (c == TAB ==> t.x < 64)
    ensures TextOk(r) && r.x == CursorX(t.x, c)
  {
    if c == CARRIAGE_RETURN then t.(x := 0)
    else if c == NEWLINE then NextLine(t, bg)
    else if c == TAB then TypeTab(t, fg, bg, 4)
    else
      var r := Type(t, fg, bg, c);
      if r.x == MX then NextLine(r, bg) else r
  }

  function Write(t: Text, fg: u32, bg: u32, buf: seq<byte>): (r: Text)
    requires TextOk(t) && TabsFit(t.x, buf)
    ensures TextOk(r)
    decreases |buf|
  {
    if buf == [] then t else Write(WriteChar(t, fg, bg, buf[0]), fg, bg, buf[1..])
  }

  /** The console displays the text: same cursor, the pixels are its picture, nothing strayed. */
  ghost predicate Displays(s: Scr, t: Text) {
    s.x == t.x && s.y == t.y && !s.stray && Shows(s.font, s.fb, t.g)
  }

  /** DrawShowsPut and CellStaysInside together. */
  lemma DrawCell(s: Scr, g: Grid, r: nat, i: nat, fg: u32, ch: byte)
    requires s.ready && s.useBg && Shows(s.font, s.fb, g) && r < MY && i < MX
    ensures var t := DrawChar(s, i * 7, r * 8, fg, ch);
            Shows(s.font, t.fb, Put(g, r, i, Mark(ch, fg, s.bg))) && t.stray == s.stray
  {
    DrawShowsPut(s, g, r, i, fg, ch);
    CellStaysInside(s, i, r, fg, ch);
  }

  lemma DrawDisplays(s: Scr, t: Text, c: byte)
    requires s.ready && s.useBg && TextOk(t) && Displays(s, t)
    ensures Displays(DrawChar(s, s.x * 7, s.y * 8, s.fg, c).(x := ToU16(s.x + 1)), Type(t, s.fg, s.bg, c))
  {
    DrawCell(s, t.g, t.y, t.x, s.fg, c);
  }

  lemma NewLineDisplays(s: Scr, t: Text)
    requires s.ready && s.useBg && s.useClear && t.y < MY
    requires s.y == t.y && !s.stray && Shows(s.font, s.fb, t.g)
    ensures Displays(NewLine(s), NextLine(t, s.bg))
  {
    NewLinePixels(s);
    ClearStaysInside(s.(x := 0, y := RowBelow(s.y)), MX);
    var g' := NextLine(t, s.bg).g;
    forall r, q, col | 0 <= r < MY && 0 <= q < 8 && 0 <= col <= MX * 7
      ensures NewLine(s).fb[PixelIndex(r, q, col)] == Picture(s.font, g', r, q, col)
    {
      if r == RowBelow(s.y) {
        BlankPicture(s.font, g', r, q, col, s.bg);
      } else {
        assert s.fb[PixelIndex(r, q, col)] == Picture(s.font, t.g, r, q, col);
      }
    }
  }

  lemma BlankPicture(font: Font, g: Grid, r: nat, q: nat, col: nat, bg: u32)
    requires r < MY && q < 8 && col <= MX * 7 && g[r] == BlankLine(bg)
    ensures Picture(font, g, r, q, col) == bg
  {
  }

  lemma {:induction false} TabDisplays(s: Scr, t: Text, n: nat)
    requires s.ready && s.useBg && TextOk(t) && t.x + n < MX && Displays(s, t)
    ensures Displays(TabUpto(s, n), TypeTab(t, s.fg, s.bg, n))
  {
    if n > 0 {
      TabDisplays(s, t, n - 1);
      DrawDisplays(TabUpto(s, n - 1), TypeTab(t, s.fg, s.bg, n - 1), SPACE);
    }
  }

  lemma CharDisplays(s: Scr, t: Text, c: byte)
    requires s.ready && s.useBg && s.useClear && TextOk(t) && (c == TAB ==> t.x < 64) && Displays(s, t)
    ensures Displays(PrintChar(s, c), WriteChar(t, s.fg, s.bg, c))
  {
    if c == CARRIAGE_RETURN {
    } else if c == NEWLINE {
      NewLineDisplays(s, t);
    } else if c == TAB {
      TabDisplays(s, t, 4);
    } else {
      DrawDisplays(s, t, c);
      var s1 := DrawChar(s, s.x * 7, s.y * 8, s.fg, c).(x := ToU16(s.x + 1));
      if s1.x == MX { NewLineDisplays(s1, Type(t, s.fg, s.bg, c)); }
    }
  }

  /** With background and line clearing on, whatever is printed, the pixels are exactly the
      picture of the text written, the cursors agree and no write leaves the array, provided
      tabs fit. */
  lemma {:induction false} PrintDisplaysText(s: Scr, t: Text, buf: seq<byte>)
    requires s.ready && s.useBg && s.useClear && TextOk(t) && Displays(s, t) && TabsFit(t.x, buf)
    ensures Displays(Print(s, buf), Write(t, s.fg, s.bg, buf))
    decreases |buf|
  {
    if buf != [] {
      CharDisplays(s, t, buf[0]);
      PrintDisplaysText(PrintChar(s, buf[0]), WriteChar(t, s.fg, s.bg, buf[0]), buf[1..]);
    }
  }

  /** A screen cleared to one colour shows the blank grid. */
  function BlankGrid(bg: u32): Grid {
    seq(MY, r => BlankLine(bg))
  }

  lemma ClearedShowsBlank(font: Font, fb: seq<u32>, bg: u32)
    requires |fb| == PIXELS && forall p :: 0 <= p < PIXELS ==> fb[p] == bg
    ensures Shows(font, fb, BlankGrid(bg))
  {
    forall r, q, col | 0 <= r < MY && 0 <= q < 8 && 0 <= col <= MX * 7
      ensures fb[PixelIndex(r, q, col)] == Picture(font, BlankGrid(bg), r, q, col)
    {
      BlankPicture(font, BlankGrid(bg), r, q, col, bg);
    }
  }

  /** What scr_clear leaves, then anything printed whose tabs fit: the screen shows the text. */
  lemma PrintOnClearScreen(s: Scr, buf: seq<byte>)
    requires s.ready && s.useBg && s.useClear && !s.stray && s.x == 0 && s.y == 0 && TabsFit(0, buf)
    requires |s.fb| == PIXELS && forall p :: 0 <= p < PIXELS ==> s.fb[p] == s.bg
    ensures Displays(Print(s, buf), Write(Text(BlankGrid(s.bg), 0, 0), s.fg, s.bg, buf))
  {
    ClearedShowsBlank(s.font, s.fb, s.bg);
    PrintDisplaysText(s, Text(BlankGrid(s.bg), 0, 0), buf);
  }
}
