/** msg.c and kprintf_handler over real nodes: an intrusive singly linked list reached from
    g_head, shown to do to the heap what the step relation does to its queue. */
module MessageList {
  import opened Base
  import opened MsgBuffer
  import opened Protocol
  import opened ProtocolInvariants

  /** kprintf_msg_t, with its address and the size its pool block was asked for. */
  class Msg {
    const addr: nat
    const block: nat
    const isUser: bool
    const msg: array<byte>
    ghost const text: seq<byte> // what the message said when it was queued
    var next: Msg?
    var len: u16
    var size: u16

    constructor (addr: nat, block: nat, isUser: bool, capacity: nat, ghost text: seq<byte>)
      ensures this.addr == addr && this.block == block && this.isUser == isUser && this.text == text && next == null
      ensures fresh(msg) && msg.Length == capacity && forall i :: 0 <= i < capacity ==> msg[i] == 0
    {
      this.addr, this.block, this.isUser, this.text := addr, block, isUser, text;
      next, len, size := null, 0, 0;
      msg := new byte[capacity](_ => 0);
    }

    ghost function Val(): Node
      reads this, msg
    {
      Node(addr, Sent(text, isUser), MsgBuf(len, size, msg[..]))
    }
  }

  /** The padding of strncpy. */
  method PadWithNuls(dst: array<byte>, from: nat, to: nat)
    requires from <= to <= dst.Length
    modifies dst
    ensures dst[..from] == old(dst[..from]) && dst[to..] == old(dst[to..])
    ensures forall j :: from <= j < to ==> dst[j] == 0
  {
    var k := from;
    while k < to
      invariant from <= k <= to
      invariant dst[..from] == old(dst[..from]) && dst[to..] == old(dst[to..])
      invariant forall j :: from <= j < k ==> dst[j] == 0
    {
      dst[k] := 0;
      k := k + 1;
    }
  }

  /** strncpy(dst, src, |src|). */
  method CopyText(dst: array<byte>, src: seq<byte>)
    requires |src| <= dst.Length
    modifies dst
    ensures dst[..] == Strncpy(src) + old(dst[|src|..])
  {
    var i := 0;
    while i < |src| && src[i] != 0
      invariant 0 <= i <= |src|
      invariant dst[..i] + Strncpy(src[i..]) == Strncpy(src)
      invariant dst[|src|..] == old(dst[|src|..])
    {
      dst[i] := src[i];
      assert src[i..][1..] == src[i + 1..];
      assert dst[..i + 1] + Strncpy(src[i + 1..]) == dst[..i] + ([src[i]] + Strncpy(src[i + 1..]));
      i := i + 1;
    }
    ghost var rest := Strncpy(src[i..]);
    PadWithNuls(dst, i, |src|);
    assert dst[i..|src|] == rest;
    assert dst[..] == dst[..i] + dst[i..|src|] + dst[|src|..];
  }

  /** The part of new_msg that fills the block it got. */
  method FillMsg(addr: nat, text: seq<byte>, isUser: bool) returns (m: Msg)
    ensures fresh(m) && fresh(m.msg) && m.next == null && m.block == BlockSize(|text|)
    ensures m.Val() == Node(addr, Sent(text, isUser), NewBuf(text))
    ensures m.msg.Length == |text| + 16 && m.block == 12 + m.msg.Length
  {
    m := new Msg(addr, BlockSize(|text|), isUser, MsgSize(|text|), text);
    m.len := ToU16(|text|);
    m.size := ToU16(MsgSize(|text|));
    CopyText(m.msg, text);
    assert m.msg[..] == NewBuf(text).data;
    m.msg[|text|] := 0;
    assert m.msg[..] == NewBuf(text).data;
  }

  ghost function NodeAt(nodes: seq<Msg>, i: nat): Msg? {
    if i < |nodes| then nodes[i] else null
  }

  ghost predicate Distinct(nodes: seq<Msg>) {
    && (forall i, j :: 0 <= i < j < |nodes| ==> nodes[i] != nodes[j])
    && (forall i, j {:trigger nodes[i].msg, nodes[j].msg} ::
          0 <= i < j < |nodes| ==> nodes[i].msg != nodes[j].msg)
  }

  ghost predicate Links(nodes: seq<Msg>)
    reads nodes
  {
    && (forall i, j {:trigger nodes[i].next, nodes[j]} ::
          0 <= i < |nodes| && j == i + 1 < |nodes| ==> nodes[i].next == nodes[j])
    && (nodes != [] ==> nodes[|nodes| - 1].next == null)
  }

  ghost predicate Matches(nodes: seq<Msg>, list: seq<Node>)
    reads nodes, set i | 0 <= i < |nodes| :: nodes[i].msg
  {
    && |list| == |nodes|
    && forall i {:trigger nodes[i].Val()} ::
         0 <= i < |nodes| ==> nodes[i].Val() == list[i] && nodes[i].block == BlockOf(list[i])
  }

  ghost function Without<T>(xs: seq<T>, k: nat): (r: seq<T>)
    requires k < |xs|
    ensures |r| == |xs| - 1
    ensures forall i :: 0 <= i < |r| ==> r[i] == xs[if i < k then i else i + 1]
  {
    xs[..k] + xs[k + 1..]
  }

  lemma MatchesWithout(nodes: seq<Msg>, list: seq<Node>, k: nat)
    requires Distinct(nodes) && Matches(nodes, list) && k < |nodes|
    ensures Distinct(Without(nodes, k)) && Matches(Without(nodes, k), Without(list, k))
  {
  }

  /** The library's globals: the list and its pool, the three event bits, the semaphore's count
      and whether g_state is STATE_STARTED. */
  class Pipeline {
    const bufsz: nat
    var head: Msg?
    var free: int
    var flush: bool
    var terminate: bool
    var stopOk: bool
    var sema: nat
    var started: bool
    ghost var nodes: seq<Msg>
    ghost var list: seq<Node>
    ghost var accepted: seq<Sent>
    ghost var freed: seq<Sent>
    ghost var ran: seq<Answer> // every callback that has run, and what it returned

    /** The abstract queue these globals represent. */
    ghost function Q(): Queue
      reads this
    {
      Queue(list, free, flush, accepted, freed)
    }

    /** The chain from g_head is exactly `nodes`, without cycle or sharing, and `list` is what
        the nodes hold. */
    ghost predicate Valid()
      reads this`head, this`nodes, this`list, nodes, set i | 0 <= i < |nodes| :: nodes[i].msg
    {
      && head == NodeAt(nodes, 0)
      && Distinct(nodes) && Links(nodes) && Matches(nodes, list)
    }

    constructor (bufsz: nat, pool: nat)
      ensures Valid() && nodes == [] && !started && !terminate && !stopOk && sema == 1
      ensures this.bufsz == bufsz && Q() == Queue([], pool, false, [], []) && ran == []
    {
      this.bufsz := bufsz;
      head, free, flush, started := null, pool, false, false;
      terminate, stopOk, sema := false, false, 1;
      nodes, list, accepted, freed, ran := [], [], [], [], [];
    }

    method NewMsg(text: seq<byte>, isUser: bool, alloc: Alloc) returns (ret: int, m: Msg?)
      requires Valid()
      modifies this`free
      ensures Valid()
      ensures alloc.Refused? ==> m == null && ret == alloc.error && free == old(free)
      ensures alloc.Block? ==>
                && ret == 0 && m != null && fresh(m) && fresh(m.msg) && m.next == null
                && m.block == BlockSize(|text|) == 12 + m.msg.Length
                && m.Val() == Node(alloc.addr, Sent(text, isUser), NewBuf(text))
                && free == old(free) - BlockSize(|text|)
    {
      if alloc.Refused? { return alloc.error, null; }
      free := free - BlockSize(|text|);
      m := FillMsg(alloc.addr, text, isUser);
      return 0, m;
    }

    /** The list grows by m at its rear and nothing else changes. */
    method AddMsg(m: Msg)
      requires Valid() && m.next == null && m.block == BlockOf(m.Val())
      requires forall i :: 0 <= i < |nodes| ==> nodes[i] != m && nodes[i].msg != m.msg
      modifies this`head, this`nodes, this`list, nodes
      ensures Valid()
      ensures nodes == old(nodes) + [m] && list == old(list) + [m.Val()]
    {
      var prev: Msg?, cur := null, head;
      ghost var k := 0;
      while cur != null
        invariant 0 <= k <= |nodes|
        invariant cur == NodeAt(nodes, k)
        invariant prev == if k == 0 then null else nodes[k - 1]
        decreases |nodes| - k
      {
        assert cur.next == NodeAt(nodes, k + 1);
        prev := cur;
        cur := cur.next;
        k := k + 1;
      }
      if prev == null {
        head := m;
      } else {
        prev.next := m;
      }
      nodes := nodes + [m];
      list := list + [m.Val()];
      forall i | 0 <= i < |nodes| ensures nodes[i].Val() == list[i] && nodes[i].block == BlockOf(list[i]) {
        if i < |old(nodes)| { assert old(nodes[i].Val()) == old(list)[i]; }
      }
    }

    /** kprintf_handler, from new_msg on. */
    method QueueMessage(c: Call) returns (ret: int)
      requires Valid() && c.len == |c.text| && (c.alloc.Refused? ==> c.alloc.error < 0)
      modifies this`head, this`free, this`flush, this`nodes, this`list, this`accepted, nodes
      ensures Valid()
      ensures c.alloc.Refused? ==> ret == c.alloc.error && Q() == old(Q()) && nodes == old(nodes)
      ensures c.alloc.Block? ==>
                var n := Node(c.alloc.addr, Sent(c.text, c.isUser), NewBuf(c.text));
                && ret == c.len
                && |nodes| == |old(nodes)| + 1 && old(nodes) <= nodes
                && fresh(nodes[|old(nodes)|]) && fresh(nodes[|old(nodes)|].msg)
                && list == old(list) + [n] && free == old(free) - BlockSize(|c.text|)
                && flush && accepted == old(accepted) + [n.sent]
    {
      hide Distinct, Links, Matches;
      var r, m := NewMsg(c.text, c.isUser, c.alloc);
      if r < 0 { return r; }
      AddMsg(m);
      flush := true;
      accepted := accepted + [m.Val().sent];
      return c.len;
    }

    /** kprintf_handler. */
    method KprintfHandler(c: Call) returns (ret: int)
      requires Valid() && CallOk(Q(), bufsz, c)
      modifies this`head, this`free, this`flush, this`nodes, this`list, this`accepted, nodes
      ensures Valid()
      ensures (Q(), ret) == Produce(old(Q()), started, bufsz, c)
      ensures ret > 0 <==> started && 0 < c.len < bufsz && c.alloc.Block?
      ensures ret > 0 ==> ret == c.len
      ensures old(nodes) <= nodes
      ensures forall i :: |old(nodes)| <= i < |nodes| ==> fresh(nodes[i]) && fresh(nodes[i].msg)
    {
      if !started { return 0; }
      if c.len <= 0 || c.len >= bufsz { return 0; }
      ret := QueueMessage(c);
    }

    /** The loop of remove_delete_msg. */
    method Search(m: Msg) returns (prev: Msg?, cur: Msg?, ghost k: nat)
      requires Valid()
      requires forall i :: 0 <= i < |nodes| && nodes[i].addr == m.addr ==> nodes[i] == m
      ensures k == Find(list, m.addr)
      ensures prev == if k == 0 then null else NodeAt(nodes, k - 1)
      ensures cur == NodeAt(nodes, k) && (cur != null ==> cur == m)
    {
      prev, cur, k := null, head, 0;
      while cur != null && cur != m
        invariant 0 <= k <= |nodes|
        invariant cur == NodeAt(nodes, k)
        invariant prev == if k == 0 then null else nodes[k - 1]
        invariant forall i :: 0 <= i < k ==> nodes[i] != m
        decreases |nodes| - k
      {
        assert cur.next == NodeAt(nodes, k + 1);
        prev := cur;
        cur := cur.next;
        k := k + 1;
      }
      if cur == null { NotFound(m); } else { FoundAt(k, m.addr); }
    }

    /** The node goes, the order of the others stays, its block returns to the pool; a node that
        is not in the list leaves everything as it was. */
    method RemoveDeleteMsg(m: Msg)
      requires Valid()
      requires forall i :: 0 <= i < |nodes| && nodes[i].addr == m.addr ==> nodes[i] == m
      modifies this`head, this`free, this`nodes, this`list, this`freed, nodes
      ensures Valid()
      ensures Q() == RemoveDelete(old(Q()), m.addr)
      ensures var k := Find(old(list), m.addr);
              nodes == if k == |old(nodes)| then old(nodes) else Without(old(nodes), k)
    {
      if head == null { return; }
      var prev, cur, k := Search(m);
      if cur != null { FreeFound(prev, m, k); }
    }

    /** The node that was found is unlinked and its block freed. */
    method FreeFound(prev: Msg?, m: Msg, ghost k: nat)
      requires Valid() && k < |nodes| && nodes[k] == m && k == Find(list, m.addr)
      requires prev == if k == 0 then null else nodes[k - 1]
      modifies this`head, this`free, this`nodes, this`list, this`freed, nodes
      ensures Valid() && Q() == RemoveDelete(old(Q()), m.addr)
      ensures nodes == Without(old(nodes), k)
    {
      assert nodes[k].Val() == list[k];
      free := free + m.block;
      freed := freed + [list[k].sent];
      Unlink(prev, m, k);
    }

    /** The pointer updates of remove_delete_msg at the node it looks for. */
    method Unlink(prev: Msg?, m: Msg, ghost k: nat)
      requires Valid() && k < |nodes| && nodes[k] == m
      requires prev == if k == 0 then null else nodes[k - 1]
      modifies this`head, this`nodes, this`list, nodes
      ensures Valid()
      ensures nodes == Without(old(nodes), k) && list == Without(old(list), k)
    {
      ghost var ns, l := nodes, list;
      nodes, list := Without(ns, k), Without(l, k);
      assert m.next == NodeAt(ns, k + 1);
      if head == m {
        head := m.next;
      } else if prev != null {
        prev.next := m.next;
      }
      forall i | 0 <= i < |ns| ensures ns[i].Val() == l[i] && ns[i].block == BlockOf(l[i]) {
        assert old(ns[i].Val()) == l[i];
      }
      MatchesWithout(ns, l, k);
      hide Matches;
      assert Links(nodes);
    }

    lemma FoundAt(k: nat, addr: nat)
      requires Valid() && k < |nodes| && nodes[k].addr == addr
      requires forall i :: 0 <= i < |nodes| && nodes[i].addr == addr ==> i == k
      ensures Find(list, addr) == k
    {
      var f := Find(list, addr);
      assert nodes[k].Val() == list[k];
      if f < |list| { assert nodes[f].Val() == list[f]; }
    }

    lemma NotFound(m: Msg)
      requires Valid() && m !in nodes
      requires forall i :: 0 <= i < |nodes| && nodes[i].addr == m.addr ==> nodes[i] == m
      ensures Find(list, m.addr) == |list|
    {
      forall i | 0 <= i < |list| ensures list[i].addr != m.addr {
        assert nodes[i].Val() == list[i];
      }
    }
  }
}
