/** scrk.c: the kernel's character callback, buffered in front of scr_printdata. */
module KernelPrint {
  import opened Base
  import opened Console
  import opened Screen

  const START := 0x200
  const END := 0x201
  const PRNT_CTX_BUFSZ := 256

  /** Storing a character in one byte of the buffer. */
  function ToByte(ch: int): byte {
    ch % 0x100
  }

  /** What reaches the screen of a run of characters: carriage returns are dropped, and a
      character is stored in one byte. */
  function Text(chs: seq<int>): (r: seq<byte>)
    ensures |r| <= |chs|
  {
    if chs == [] then []
    else (if chs[0] == CARRIAGE_RETURN then [] else [ToByte(chs[0])]) + Text(chs[1..])
  }

  /** Every character but a carriage return is kept as it is. */
  lemma CharactersAreKept(ch: int)
    requires 0 <= ch < 0x100
    ensures Text([ch]) == if ch == CARRIAGE_RETURN then [] else [ch]
  {
    assert [ch][1..] == [];
  }

  /** And in order. */
  lemma {:induction false} TextAppends(a: seq<int>, b: seq<int>)
    ensures Text(a + b) == Text(a) + Text(b)
    decreases |a|
  {
    hide ToByte;
    if a == [] {
      assert a + b == b;
    } else {
      TextAppends(a[1..], b);
      assert (a + b)[0] == a[0] && (a + b)[1..] == a[1..] + b;
      var first: seq<byte> := if a[0] == CARRIAGE_RETURN then [] else [ToByte(a[0])];
      assert first + (Text(a[1..]) + Text(b)) == (first + Text(a[1..])) + Text(b);
    }
  }

  /** One callback on the pending bytes and the screen. */
  ghost function Callback(pending: seq<byte>, s: Scr, ch: int): (r: (seq<byte>, Scr))
    ensures |pending| < PRNT_CTX_BUFSZ ==> |r.0| < PRNT_CTX_BUFSZ
  {
    if ch == START then ([], s)
    else if ch == END then ([], Print(s, pending))
    else if ch == CARRIAGE_RETURN then (pending, s)
    else
      var p := pending + [ToByte(ch)];
      if |p| == PRNT_CTX_BUFSZ then ([], Print(s, p)) else (p, s)
  }

  ghost function Callbacks(pending: seq<byte>, s: Scr, chs: seq<int>): (r: (seq<byte>, Scr))
    ensures |pending| < PRNT_CTX_BUFSZ ==> |r.0| < PRNT_CTX_BUFSZ
    decreases |chs|
  {
    if chs == [] then (pending, s)
    else
      var (p, t) := Callback(pending, s, chs[0]);
      Callbacks(p, t, chs[1..])
  }

  predicate Regular(chs: seq<int>) {
    START !in chs && END !in chs
  }

  /** However the characters fall into chunks, what is on the screen followed by what is still
      pending is the text so far. */
  lemma {:induction false} ChunksAreInvisible(pending: seq<byte>, s: Scr, chs: seq<int>)
    requires Regular(chs)
    ensures var (p, t) := Callbacks(pending, s, chs);
            Print(t, p) == Print(s, pending + Text(chs))
    decreases |chs|
  {
    if chs == [] {
      assert pending + [] == pending;
    } else {
      assert chs[0] in chs;
      assert forall c :: c in chs[1..] ==> c in chs;
      var (p, t) := Callback(pending, s, chs[0]);
      ChunksAreInvisible(p, t, chs[1..]);
      CallbackIsInvisible(pending, s, chs[0], Text(chs[1..]));
    }
  }

  lemma CallbackIsInvisible(pending: seq<byte>, s: Scr, ch: int, rest: seq<byte>)
    requires ch != START && ch != END
    ensures var (p, t) := Callback(pending, s, ch);
            Print(t, p + rest) == Print(s, pending + ((if ch == CARRIAGE_RETURN then [] else [ToByte(ch)]) + rest))
  {
    if ch == CARRIAGE_RETURN {
      assert pending + ([] + rest) == pending + rest;
    } else {
      var full := pending + [ToByte(ch)];
      assert pending + ([ToByte(ch)] + rest) == full + rest;
      if |full| == PRNT_CTX_BUFSZ {
        assert [] + rest == rest;
        PrintAppend(s, full, rest);
      }
    }
  }

  /** One formatted string through the callback, from start to end, whatever was pending before,
      leaves the console as a single scr_printdata of its characters without carriage returns. */
  lemma BufferedPrintIsPrint(pending: seq<byte>, s: Scr, chs: seq<int>)
    requires Regular(chs)
    ensures Callbacks(pending, s, [START] + chs + [END]) == ([], Print(s, Text(chs)))
  {
    var all := [START] + chs + [END];
    assert all[0] == START && all[1..] == chs + [END];
    CallbacksAppend([], s, chs, [END]);
    ChunksAreInvisible([], s, chs);
    assert [] + Text(chs) == Text(chs);
    var (p, t) := Callbacks([], s, chs);
    assert [END][1..] == [];
    assert Callbacks(p, t, [END]) == Callback(p, t, END);
  }

  lemma {:induction false} CallbacksAppend(pending: seq<byte>, s: Scr, a: seq<int>, b: seq<int>)
    ensures var (p, t) := Callbacks(pending, s, a);
            Callbacks(pending, s, a + b) == Callbacks(p, t, b)
    decreases |a|
  {
    if a == [] {
      assert a + b == b;
    } else {
      var (p, t) := Callback(pending, s, a[0]);
      CallbacksAppend(p, t, a[1..], b);
      assert (a + b)[1..] == a[1..] + b;
    }
  }

  /** struct prnt_ctx. */
  class PrntCtx {
    var len: u16
    const buf: array<byte>

    ghost predicate Valid()
      reads this
    {
      buf.Length == PRNT_CTX_BUFSZ && len < PRNT_CTX_BUFSZ
    }

    ghost function Pending(): seq<byte>
      requires Valid()
      reads this, buf
    {
      buf[..len]
    }

    constructor ()
      ensures Valid() && Pending() == [] && fresh(buf)
    {
      buf := new byte[PRNT_CTX_BUFSZ](_ => 0);
      len := 0;
    }

    /** prnt_cb. */
    method PrntCb(screen: DebugScreen, ch: int)
      requires Valid() && buf as object != screen.vram
      modifies this`len, buf, screen`x, screen`y, screen.vram, screen`stray
      ensures Valid()
      ensures (Pending(), screen.View()) == Callback(old(Pending()), old(screen.View()), ch)
    {
      if ch == START {
        len := 0;
      } else if ch == END {
        var n := screen.PrintData(buf[..len]);
        len := 0;
      } else if ch != CARRIAGE_RETURN {
        buf[len] := ToByte(ch);
        len := len + 1;
        assert buf[..len] == old(Pending()) + [ToByte(ch)];
        if len == PRNT_CTX_BUFSZ {
          var n := screen.PrintData(buf[..len]);
          len := 0;
        }
      }
    }

    /** scr_kprintf, given the characters prnt produces for its arguments. */
    static method ScrKprintf(screen: DebugScreen, chs: seq<int>)
      requires Regular(chs)
      modifies screen`x, screen`y, screen.vram, screen`stray
      ensures screen.View() == Print(old(screen.View()), Text(chs))
    {
      var ctx := new PrntCtx();
      var calls := [START] + chs + [END];
      var i := 0;
      while i < |calls|
        invariant 0 <= i <= |calls| && ctx.Valid() && fresh(ctx) && fresh(ctx.buf)
        invariant Callbacks(ctx.Pending(), screen.View(), calls[i..]) == Callbacks([], old(screen.View()), calls)
      {
        assert calls[i..][0] == calls[i] && calls[i..][1..] == calls[i + 1..];
        ctx.PrntCb(screen, calls[i]);
        i := i + 1;
      }
      BufferedPrintIsPrint([], old(screen.View()), chs);
    }
  }
}
