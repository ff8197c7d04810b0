/** The message buffer: what new_msg puts in it (msg.c, kprintf_int.h) and what the chain of
    handlers may do to it (handler.c). */
module MsgBuffer {
  import opened Base

  /** kprintf_msg_t without the list link: the two u16 fields and the bytes of msg[]. */
  datatype MsgBuf = MsgBuf(len: u16, size: u16, data: seq<byte>)

  /** KPRINTF_MSG_SIZE: terminator, room for a newline, 14 spare bytes. */
  function MsgSize(len: nat): nat {
    len + 1 + 1 + 14
  }

  /** SIZEOF_KPRINTF_MSG. */
  function BlockSize(len: nat): nat {
    12 + MsgSize(len)
  }

  /** strncpy: bytes up to the first NUL, then NULs. */
  function Strncpy(src: seq<byte>): (r: seq<byte>)
    ensures |r| == |src|
  {
    if src == [] then [] else if src[0] == 0 then seq(|src|, i => 0) else [src[0]] + Strncpy(src[1..])
  }

  /** No byte follows a NUL, other than NULs. */
  predicate NulsAtEnd(src: seq<byte>) {
    forall i, j :: 0 <= i < j < |src| && src[i] == 0 ==> src[j] == 0
  }

  /** strncpy loses no byte of the formatted text exactly when nothing follows an embedded NUL. */
  lemma {:induction false} StrncpyExact(src: seq<byte>)
    ensures Strncpy(src) == src <==> NulsAtEnd(src)
  {
    if src != [] {
      if src[0] == 0 {
        assert Strncpy(src) == src ==> forall j :: 0 <= j < |src| ==> src[j] == Strncpy(src)[j] == 0;
        assert NulsAtEnd(src) ==> forall j :: 0 < j < |src| ==> src[0] == 0 && src[j] == 0;
      } else {
        StrncpyExact(src[1..]);
        assert Strncpy(src)[1..] == Strncpy(src[1..]);
        assert Strncpy(src) == src ==> Strncpy(src[1..]) == src[1..];
        if NulsAtEnd(src) {
          forall i, j | 0 <= i < j < |src[1..]| && src[1..][i] == 0 ensures src[1..][j] == 0 {
            assert src[i + 1] == 0;
          }
        }
        if NulsAtEnd(src[1..]) {
          forall i, j | 0 <= i < j < |src| && src[i] == 0 ensures src[j] == 0 {
            assert src[1..][i - 1] == 0 ==> src[1..][j - 1] == 0;
          }
        }
      }
    }
  }

  /** The byte after an embedded NUL is lost. */
  lemma StrncpyLosesText()
    ensures Strncpy([65, 0, 66]) == [65, 0, 0]
  {
    assert [65, 0, 66][1..] == [0, 66];
    assert Strncpy([0, 66]) == [0, 0];
  }

  /** The buffer new_msg builds for a text of |text| bytes; the length fields are 16 bits wide. */
  function NewBuf(text: seq<byte>): MsgBuf {
    MsgBuf(ToU16(|text|), ToU16(MsgSize(|text|)), Strncpy(text) + seq(16, i => 0))
  }

  /** The block asked of the pool is exactly the 12 bytes of fixed-size members and the buffer, which is the
      text, its terminator, a byte for a newline and 14 to spare. */
  lemma BlockHoldsBuffer(text: seq<byte>)
    ensures BlockSize(|text|) == 12 + |NewBuf(text).data|
    ensures |NewBuf(text).data| == |text| + 1 + 1 + 14
    ensures forall k :: |text| <= k < |NewBuf(text).data| ==> NewBuf(text).data[k] == 0
  {
  }

  /** The length fits the buffer with `slack` bytes to spare and the text is terminated. */
  predicate BufOk(b: MsgBuf, slack: nat) {
    && b.size == |b.data|
    && 1 <= b.len < b.size && b.len + slack <= b.size
    && b.data[b.len] == 0
  }

  /** The 16-bit fields describe the block truthfully exactly when the capacity fits them;
      if so the new buffer has the full 16 bytes to spare. */
  lemma NewBufOk(text: seq<byte>)
    requires |text| > 0
    ensures MsgSize(|text|) < 0x1_0000 <==> BufOk(NewBuf(text), 16)
    ensures MsgSize(|text|) < 0x1_0000 <==> NewBuf(text).size == |NewBuf(text).data|
    ensures NulsAtEnd(text) <==> NewBuf(text).data[..|text|] == text
  {
    StrncpyExact(text);
    assert NewBuf(text).data[..|text|] == Strncpy(text);
    assert |NewBuf(text).data| == MsgSize(|text|);
  }

  /** A text of 65520 bytes asks for a capacity of 65536, and the new buffer says that it has none. */
  lemma NewBufLosesSize(text: seq<byte>)
    requires |text| == 65520
    ensures |NewBuf(text).data| == 65536 && NewBuf(text).size == 0
  {
    assert |NewBuf(text).data| == MsgSize(|text|);
  }

  /** Every access default_file_handler makes lies inside msg[]: it reads msg[len - 1] and,
      unless that is a newline, writes msg[len] and msg[len + 1]. */
  predicate DefaultInBounds(b: MsgBuf) {
    && 1 <= b.len <= |b.data|
    && (b.data[b.len - 1] == NEWLINE || b.len + 1 < |b.data|)
  }

  /** default_file_handler with the automatic newline. */
  function AppendNewline(b: MsgBuf): MsgBuf
    requires DefaultInBounds(b)
  {
    if b.data[b.len - 1] == NEWLINE then b
    else b.(data := b.data[b.len := NEWLINE][b.len + 1 := 0], len := ToU16(b.len + 1))
  }

  /** The slack given, one or two bytes, is kept. */
  predicate KeepsBuffer(b: MsgBuf, b': MsgBuf) {
    && b'.size == b.size && |b'.data| == |b.data|
    && (BufOk(b, 1) ==> BufOk(b', 1))
    && (BufOk(b, 2) ==> BufOk(b', 2))
  }

  /** Two spare bytes are enough, and unless the text already ends its line they are needed. */
  lemma DefaultInBoundsExactly(b: MsgBuf)
    requires BufOk(b, 1)
    ensures DefaultInBounds(b) <==> BufOk(b, 2) || b.data[b.len - 1] == NEWLINE
  {
    if b.data[b.len - 1] != NEWLINE && b.len + 1 < |b.data| {
      assert BufOk(b, 2);
    }
  }

  /** The default handler costs one byte of slack; its text ends with a newline and starts
      with the text it was given. */
  lemma DefaultFileEndsLine(b: MsgBuf)
    requires BufOk(b, 2)
    ensures DefaultInBounds(b)
    ensures var b' := AppendNewline(b);
            && BufOk(b', 1) && b'.size == b.size
            && b'.data[b'.len - 1] == NEWLINE
            && b.data[..b.len] <= b'.data[..b'.len] && b'.len <= b.len + 1
  {
    var b' := AppendNewline(b);
    assert b.data[..b.len] == b'.data[..b.len];
    assert b'.data[..b.len] == b'.data[..b'.len][..b.len];
  }

  /** A text that ends its line comes back as it was; any other grows by a newline, and only the two bytes
      after it change. */
  lemma DefaultFileExactly(b: MsgBuf)
    requires DefaultInBounds(b)
    ensures var b' := AppendNewline(b);
            && b'.size == b.size
            && (b.data[b.len - 1] == NEWLINE ==> b' == b)
            && (b.data[b.len - 1] != NEWLINE ==>
                  && b'.data == b.data[..b.len] + [NEWLINE, 0] + b.data[b.len + 2..]
                  && (b.len < 0xFFFF ==> b'.len == b.len + 1))
  {
    if b.data[b.len - 1] != NEWLINE {
      assert AppendNewline(b).data == b.data[..b.len] + [NEWLINE, 0] + b.data[b.len + 2..];
    }
  }

  /** default_file_handler on the buffer in place; the write to the file is not modelled. */
  method DefaultFileHandler(msg: array<byte>, len: u16, size: u16) returns (newLen: u16)
    requires DefaultInBounds(MsgBuf(len, size, msg[..]))
    modifies msg
    ensures MsgBuf(newLen, size, msg[..]) == AppendNewline(old(MsgBuf(len, size, msg[..])))
    ensures old(msg[len - 1]) == NEWLINE ==> newLen == len && msg[..] == old(msg[..])
    ensures old(msg[len - 1]) != NEWLINE ==> msg[..] == old(msg[..len] + [NEWLINE, 0] + msg[len + 2..])
    ensures old(msg[len - 1]) != NEWLINE && len < 0xFFFF ==> newLen == len + 1
  {
    DefaultFileExactly(MsgBuf(len, size, msg[..]));
    var n: int := len;
    if msg[len - 1] != NEWLINE {
      msg[len] := NEWLINE;
      msg[len + 1] := 0;
      n := n + 1;
    }
    newLen := ToU16(n);
    assert msg[..] == AppendNewline(old(MsgBuf(len, size, msg[..]))).data;
  }
}
