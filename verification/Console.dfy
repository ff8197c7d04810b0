/** What the text console of scr.c computes, as functions on its state: a cursor over 34 rows of
    68 characters and glyphs of 8 by 8 pixels laid 7 columns apart in a 512 by 272 array. */
module Console {
  import opened Base

  const VRAM_WIDTH := 512
  const PIXELS := 512 * 272
  const MX := 480 / 7
  const MY := 272 / 8
  const SOLID: byte := 219

  /** 8 bytes a glyph, most significant bit leftmost; glyph 219 is a full block (219 * 8 == 1752). */
  type Font = f: seq<byte> | |f| == 2048 && forall k :: 1752 <= k < 1760 ==> f[k] == 255
    witness seq(2048, i => 255)

  /** 128 >> j. */
  function Mask(j: nat): (m: nat)
    requires j < 8
    ensures m > 0
  {
    if j == 0 then 128 else if j == 1 then 64 else if j == 2 then 32 else if j == 3 then 16
    else if j == 4 then 8 else if j == 5 then 4 else if j == 6 then 2 else 1
  }

  predicate Ink(font: Font, ch: byte, row: nat, col: nat)
    requires row < 8 && col < 8
  {
    (font[ch * 8 + row] / Mask(col)) % 2 == 1
  }

  function Bit(font: Font, ch: byte, row: nat, col: nat): nat
    requires row < 8 && col < 8
  {
    if Ink(font, ch, row, col) then 1 else 0
  }

  lemma Pair(n: nat)
    ensures n == 4 * (n / 4) + 2 * (n / 2 % 2) + n % 2
  {
  }

  lemma Quarter(n: nat)
    ensures n / 4 / 2 == n / 8 && n / 4 / 4 == n / 16
  {
  }

  lemma Nibble(n: nat)
    ensures n == 16 * (n / 16) + 8 * (n / 8 % 2) + 4 * (n / 4 % 2) + 2 * (n / 2 % 2) + n % 2
  {
    Pair(n);
    Pair(n / 4);
    Quarter(n);
  }

  lemma HighNibble(b: byte)
    ensures b / 16 / 2 == b / 32 && b / 16 / 4 == b / 64 && b / 16 / 8 == b / 128 && b / 16 / 16 == 0
  {
  }

  lemma Bits(b: byte)
    ensures b == 128 * (b / 128 % 2) + 64 * (b / 64 % 2) + 32 * (b / 32 % 2) + 16 * (b / 16 % 2)
                 + 8 * (b / 8 % 2) + 4 * (b / 4 % 2) + 2 * (b / 2 % 2) + b % 2
  {
    Nibble(b);
    Nibble(b / 16);
    HighNibble(b);
  }

  lemma BitIs(font: Font, ch: byte, row: nat, col: nat, weight: nat)
    requires row < 8 && col < 8 && weight == Mask(col)
    ensures Bit(font, ch, row, col) == font[ch * 8 + row] / weight % 2
  {
  }

  /** The ink of a glyph's row, read from left to right, spells its font byte, most significant bit first. */
  lemma InkSpellsByte(font: Font, ch: byte, row: nat)
    requires row < 8
    ensures font[ch * 8 + row] ==
            128 * Bit(font, ch, row, 0) + 64 * Bit(font, ch, row, 1)
            + 32 * Bit(font, ch, row, 2) + 16 * Bit(font, ch, row, 3)
            + 8 * Bit(font, ch, row, 4) + 4 * Bit(font, ch, row, 5)
            + 2 * Bit(font, ch, row, 6) + Bit(font, ch, row, 7)
  {
    hide Bit;
    Bits(font[ch * 8 + row]);
    BitIs(font, ch, row, 0, 128);
    BitIs(font, ch, row, 1, 64);
    BitIs(font, ch, row, 2, 32);
    BitIs(font, ch, row, 3, 16);
    BitIs(font, ch, row, 4, 8);
    BitIs(font, ch, row, 5, 4);
    BitIs(font, ch, row, 6, 2);
    BitIs(font, ch, row, 7, 1);
  }

  /** g_scr and g_init, the pixel array, and whether some write fell outside that array. */
  datatype Scr = Scr(
    x: u16, y: u16, fg: u32, bg: u32, useBg: bool, useClear: bool, ready: bool,
    font: Font, fb: seq<u32>, stray: bool)

  predicate Ok(s: Scr) {
    |s.fb| == PIXELS && s.y < MY
  }

  // ---------------------------------------------------------------- one glyph

  /** The glyph to draw, its colours, and whether its background is drawn too. */
  datatype Pen = Pen(font: Font, ch: byte, fg: u32, bg: u32, useBg: bool)

  /** The offsets from the glyph's first pixel that drawchar_32 visits before offset `cur`. */
  predicate InBox(d: int, cur: int) {
    0 <= d < cur && d < 4096 && d % 512 < 8
  }

  /** Does drawchar_32 store anything at this offset? */
  predicate Stores(pen: Pen, d: int) {
    InBox(d, 4096) && (Ink(pen.font, pen.ch, d / 512, d % 512) || pen.useBg)
  }

  function Paint(pen: Pen, d: int): u32
    requires InBox(d, 4096)
  {
    if Ink(pen.font, pen.ch, d / 512, d % 512) then pen.fg else pen.bg
  }

  /** The pixel at index p once the offsets below `cur` from `at` have been visited. */
  function PixelUpto(pen: Pen, fb: seq<u32>, at: int, cur: int, p: nat): u32
    requires p < |fb|
  {
    if InBox(p - at, cur) && Stores(pen, p - at) then Paint(pen, p - at) else fb[p]
  }

  predicate Misses(pen: Pen, size: nat, at: int, d: int) {
    Stores(pen, d) && !(0 <= at + d < size)
  }

  ghost predicate StraysUpto(pen: Pen, size: nat, at: int, cur: int) {
    exists d :: d < cur && Misses(pen, size, at, d)
  }

  function Drawn(pen: Pen, fb: seq<u32>, at: int): (r: seq<u32>)
    ensures |r| == |fb|
  {
    seq(|fb|, p requires 0 <= p < |fb| => PixelUpto(pen, fb, at, 4096, p))
  }

  function PenOf(s: Scr, fg: u32, ch: byte): Pen {
    Pen(s.font, ch, fg, s.bg, s.useBg)
  }

  /** drawchar_32 at pixel (px, py). */
  ghost function DrawChar(s: Scr, px: int, py: int, fg: u32, ch: byte): (r: Scr)
    ensures |r.fb| == |s.fb|
    ensures r == s.(fb := r.fb, stray := r.stray)
  {
    if !s.ready then s
    else
      var pen, at := PenOf(s, fg, ch), px + py * VRAM_WIDTH;
      s.(fb := Drawn(pen, s.fb, at), stray := s.stray || StraysUpto(pen, |s.fb|, at, 4096))
  }

  // ---------------------------------------------------------------- text

  /** The first n glyphs of scr_clearline. */
  ghost function ClearUpto(s: Scr, n: nat): (r: Scr)
    ensures |r.fb| == |s.fb|
    ensures r == s.(fb := r.fb, stray := r.stray)
  {
    if n == 0 then s else DrawChar(ClearUpto(s, n - 1), (n - 1) * 7, s.y * 8, s.bg, SOLID)
  }

  /** scr_clearline; it clears the row of the cursor whatever row it is asked for. */
  ghost function ClearLine(s: Scr): (r: Scr)
    ensures |r.fb| == |s.fb|
    ensures r == s.(fb := r.fb, stray := r.stray)
  {
    if s.useClear && s.useBg then ClearUpto(s, MX) else s
  }

  /** The row below, where a full line continues, or the first row after the last. */
  function RowBelow(y: u16): u16 {
    if ToU16(y + 1) == MY then 0 else ToU16(y + 1)
  }

  lemma RowsWrap(y: u16)
    requires y < MY
    ensures RowBelow(y) == (y + 1) % MY
  {
  }

  ghost function NewLine(s: Scr): (r: Scr)
    ensures Ok(s) ==> Ok(r)
    ensures r.x == 0
  {
    ClearLine(s.(x := 0, y := RowBelow(s.y)))
  }

  ghost function TabUpto(s: Scr, n: nat): (r: Scr)
    ensures Ok(s) ==> Ok(r)
    ensures r == s.(x := r.x, fb := r.fb, stray := r.stray)
  {
    if n == 0 then s
    else
      var t := TabUpto(s, n - 1);
      DrawChar(t, t.x * 7, t.y * 8, t.fg, SPACE).(x := ToU16(t.x + 1))
  }

  /** One character of scr_printdata. */
  ghost function PrintChar(s: Scr, c: byte): (r: Scr)
    ensures Ok(s) ==> Ok(r)
    ensures r == s.(x := r.x, y := r.y, fb := r.fb, stray := r.stray)
  {
    if c == CARRIAGE_RETURN then s.(x := 0)
    else if c == NEWLINE then NewLine(s)
    else if c == TAB then TabUpto(s, 4)
    else
      var t := DrawChar(s, s.x * 7, s.y * 8, s.fg, c).(x := ToU16(s.x + 1));
      if t.x == MX then NewLine(t) else t
  }

  /** scr_printdata. */
  ghost function Print(s: Scr, buf: seq<byte>): (r: Scr)
    ensures Ok(s) ==> Ok(r)
    ensures r == s.(x := r.x, y := r.y, fb := r.fb, stray := r.stray)
    decreases |buf|
  {
    if !s.ready || buf == [] then s else Print(PrintChar(s, buf[0]), buf[1..])
  }

  predicate Printable(buf: seq<byte>) {
    CARRIAGE_RETURN !in buf && NEWLINE !in buf && TAB !in buf
  }

  /** Printing two pieces is printing their concatenation. */
  lemma {:induction false} PrintAppend(s: Scr, a: seq<byte>, b: seq<byte>)
    ensures Print(s, a + b) == Print(Print(s, a), b)
    decreases |a|
  {
    if a == [] {
      assert a + b == b;
    } else if s.ready {
      PrintAppend(PrintChar(s, a[0]), a[1..], b);
      assert (a + b)[1..] == a[1..] + b;
    }
  }

  /** Before initialisation printing has no effect. */
  lemma NotReadyUnchanged(s: Scr, buf: seq<byte>)
    requires !s.ready
    ensures Print(s, buf) == s
  {
  }

  /** The row of the cursor stays on the screen for every input. */
  lemma RowStaysOnScreen(s: Scr, buf: seq<byte>)
    requires Ok(s)
    ensures Print(s, buf).y < MY && |Print(s, buf).fb| == PIXELS
  {
  }
}
