/** The log dispatcher of libs/psp/util/log.c: a slot array whose flush loop is bounded by the
    number of handlers rather than by the array. */
module LogRegistry {
  import opened Base

  /** log_handler_t; unregistering clears cb and arg but leaves flush. */
  datatype LogSlot = LogSlot(cb: Option<int>, flush: Option<int>, arg: int)

  datatype LogTable = LogTable(slots: seq<LogSlot>, count: int)

  datatype LogOp = Add(cb: Option<int>, flush: Option<int>, arg: int) | Drop(index: int)

  const LOG_VSNPRINTF_BUFSZ := 512

  function Used(slots: seq<LogSlot>): (n: nat)
    ensures n <= |slots|
  {
    if slots == [] then 0 else Used(slots[..|slots| - 1]) + if slots[|slots| - 1].cb.Some? then 1 else 0
  }

  ghost predicate Valid(t: LogTable) {
    t.count == Used(t.slots)
  }

  function FreeFrom(slots: seq<LogSlot>, from: nat): (i: int)
    requires from <= |slots|
    ensures i == -1 || from <= i < |slots|
    ensures i >= 0 ==> slots[i].cb.None?
    ensures forall j :: from <= j < (if i < 0 then |slots| else i) ==> slots[j].cb.Some?
    decreases |slots| - from
  {
    if from == |slots| then -1 else if slots[from].cb.None? then from else FreeFrom(slots, from + 1)
  }

  /** log_register_handler and log_unregister_handler. */
  function Apply(t: LogTable, op: LogOp): (LogTable, int) {
    match op
    case Add(cb, flush, arg) =>
      if cb.None? then (t, -1)
      else if t.count >= |t.slots| then (t, -2)
      else
        var i := FreeFrom(t.slots, 0);
        if i < 0 then (t, -3)
        else (LogTable(t.slots[i := LogSlot(cb, flush, arg)], t.count + 1), i)
    case Drop(i) =>
      if i < 0 || i >= |t.slots| then (t, -1)
      else if t.slots[i].cb.None? then (t, -2)
      else (LogTable(t.slots[i := t.slots[i].(cb := None, arg := 0)], t.count - 1), 0)
  }

  function Empty(max: nat): LogTable {
    LogTable(seq(max, i => LogSlot(None, None, 0)), 0)
  }

  function ApplyAll(t: LogTable, ops: seq<LogOp>): LogTable
    decreases |ops|
  {
    if ops == [] then t else ApplyAll(Apply(t, ops[0]).0, ops[1..])
  }

  lemma {:induction false} UsedUpdate(slots: seq<LogSlot>, i: nat, s: LogSlot)
    requires i < |slots|
    ensures Used(slots[i := s]) ==
            Used(slots) + (if s.cb.Some? then 1 else 0) - (if slots[i].cb.Some? then 1 else 0)
  {
    var n := |slots| - 1;
    if i < n {
      assert slots[i := s][..n] == slots[..n][i := s];
      UsedUpdate(slots[..n], i, s);
    } else {
      assert slots[i := s][..n] == slots[..n];
    }
  }

  lemma {:induction false} UsedAll(slots: seq<LogSlot>)
    ensures Used(slots) == |slots| <==> (forall i :: 0 <= i < |slots| ==> slots[i].cb.Some?)
    ensures Used(slots) == 0 <==> (forall i :: 0 <= i < |slots| ==> slots[i].cb.None?)
  {
    if slots != [] {
      var n := |slots| - 1;
      UsedAll(slots[..n]);
      assert forall i :: 0 <= i < n ==> slots[..n][i] == slots[i];
    }
  }

  lemma ApplyValid(t: LogTable, op: LogOp)
    requires Valid(t)
    ensures Valid(Apply(t, op).0) && Apply(t, op).1 != -3 && |Apply(t, op).0.slots| == |t.slots|
  {
    UsedAll(t.slots);
    match op
    case Add(cb, flush, arg) =>
      if cb.Some? && t.count < |t.slots| {
        UsedUpdate(t.slots, FreeFrom(t.slots, 0), LogSlot(cb, flush, arg));
      }
    case Drop(i) =>
      if 0 <= i < |t.slots| { UsedUpdate(t.slots, i, t.slots[i].(cb := None, arg := 0)); }
  }

  // ---------------------------------------------------------------- dispatch

  /** A callback call: which slot, which function, which argument. */
  datatype Hit = Hit(i: int, f: int, arg: int)

  /** What log_printf calls. */
  function Printed(slots: seq<LogSlot>): seq<Hit> {
    if slots == [] then []
    else
      var n := |slots| - 1;
      Printed(slots[..n]) + if slots[n].cb.Some? then [Hit(n, slots[n].cb.value, slots[n].arg)] else []
  }

  /** What log_flush calls when bounded by `count`: every slot there whose flush is set. */
  function Flushed(slots: seq<LogSlot>): seq<Hit> {
    if slots == [] then []
    else
      var n := |slots| - 1;
      Flushed(slots[..n]) + if slots[n].flush.Some? then [Hit(n, slots[n].flush.value, slots[n].arg)] else []
  }

  /** What log_flush calls. */
  function FlushCalls(t: LogTable): seq<Hit> {
    if 0 <= t.count <= |t.slots| then Flushed(t.slots[..t.count]) else []
  }

  /** What it is for: the flushes of the handlers that are registered. */
  function Registered(slots: seq<LogSlot>): seq<Hit> {
    if slots == [] then []
    else
      var n := |slots| - 1;
      Registered(slots[..n])
      + if slots[n].cb.Some? && slots[n].flush.Some? then [Hit(n, slots[n].flush.value, slots[n].arg)] else []
  }

  /** The three call lists name exactly the slots they should, in slot order. */
  lemma {:induction false} HitsAre(slots: seq<LogSlot>, h: Hit)
    ensures h in Printed(slots) <==>
              0 <= h.i < |slots| && slots[h.i].cb == Some(h.f) && slots[h.i].arg == h.arg
    ensures h in Flushed(slots) <==>
              0 <= h.i < |slots| && slots[h.i].flush == Some(h.f) && slots[h.i].arg == h.arg
    ensures h in Registered(slots) <==>
              0 <= h.i < |slots| && slots[h.i].cb.Some? && slots[h.i].flush == Some(h.f) && slots[h.i].arg == h.arg
  {
    if slots != [] {
      var n := |slots| - 1;
      HitsAre(slots[..n], h);
    }
  }

  lemma {:induction false} PrintedInOrder(slots: seq<LogSlot>)
    ensures forall j, k :: 0 <= j < k < |Printed(slots)| ==> Printed(slots)[j].i < Printed(slots)[k].i
    ensures forall k :: 0 <= k < |Printed(slots)| ==> 0 <= Printed(slots)[k].i < |slots|
  {
    if slots != [] {
      PrintedInOrder(slots[..|slots| - 1]);
    }
  }

  // ---------------------------------------------------------------- what is registered

  /** Reference definition: which handlers are registered, by index. */
  function Directory(slots: seq<LogSlot>): map<int, LogSlot> {
    map i | 0 <= i < |slots| && slots[i].cb.Some? :: slots[i]
  }

  /** What one call does to a directory of at most `max` handlers, and what it returns. */
  predicate DirectoryStep(m: map<int, LogSlot>, max: nat, op: LogOp, m': map<int, LogSlot>, ret: int) {
    match op
    case Add(cb, flush, arg) =>
      if cb.None? then m' == m && ret == -1
      else if forall j :: 0 <= j < max ==> j in m then m' == m && ret == -2
      else
        && 0 <= ret < max && ret !in m && (forall j :: 0 <= j < ret ==> j in m)
        && m' == m[ret := LogSlot(cb, flush, arg)]
    case Drop(i) =>
      if i < 0 || i >= max then m' == m && ret == -1
      else if i !in m then m' == m && ret == -2
      else m' == m - {i} && ret == 0
  }

  lemma ApplyRefinesDirectory(t: LogTable, op: LogOp)
    requires Valid(t)
    ensures DirectoryStep(Directory(t.slots), |t.slots|, op, Directory(Apply(t, op).0.slots), Apply(t, op).1)
  {
    UsedAll(t.slots);
    var (t', ret) := Apply(t, op);
    var m, m' := Directory(t.slots), Directory(t'.slots);
    match op
    case Add(cb, flush, arg) =>
      if cb.Some? && t.count < |t.slots| {
        assert ret !in m;
        assert m' == m[ret := LogSlot(cb, flush, arg)];
      }
    case Drop(i) =>
      if i in m { assert m' == m - {i}; }
  }

  /** The tables a sequence of calls goes through. */
  function Tables(t: LogTable, ops: seq<LogOp>): (r: seq<LogTable>)
    ensures |r| == |ops| + 1 && r[0] == t && r[|ops|] == ApplyAll(t, ops)
    decreases |ops|
  {
    [t] + if ops == [] then [] else Tables(Apply(t, ops[0]).0, ops[1..])
  }

  lemma {:induction false} EveryCallSteps(t: LogTable, ops: seq<LogOp>, k: nat)
    requires Valid(t) && k < |ops|
    ensures var ts := Tables(t, ops);
            && ts[k + 1] == Apply(ts[k], ops[k]).0
            && DirectoryStep(Directory(ts[k].slots), |t.slots|, ops[k], Directory(ts[k + 1].slots),
                             Apply(ts[k], ops[k]).1)
    decreases |ops|
  {
    ApplyValid(t, ops[0]);
    if k == 0 {
      ApplyRefinesDirectory(t, ops[0]);
    } else {
      EveryCallSteps(Apply(t, ops[0]).0, ops[1..], k - 1);
    }
  }

  /** After any sequence of calls log_printf calls exactly the handlers then registered, each with
      the argument it was registered with. */
  lemma PrintReachesRegistered(max: nat, ops: seq<LogOp>)
    ensures var ts := Tables(Empty(max), ops);
            var slots := ts[|ops|].slots;
            var m := Directory(slots);
            && Directory(ts[0].slots) == map[]
            && (forall k :: 0 <= k < |ops| ==>
                  DirectoryStep(Directory(ts[k].slots), max, ops[k], Directory(ts[k + 1].slots),
                                Apply(ts[k], ops[k]).1))
            && (forall h :: h in Printed(slots) <==> h.i in m && m[h.i].cb == Some(h.f) && m[h.i].arg == h.arg)
            && (forall h :: h in Registered(slots) <==> h.i in m && m[h.i].flush == Some(h.f) && m[h.i].arg == h.arg)
  {
    UsedAll(Empty(max).slots);
    var slots := ApplyAll(Empty(max), ops).slots;
    var m := Directory(slots);
    forall k | 0 <= k < |ops|
      ensures var ts := Tables(Empty(max), ops);
              DirectoryStep(Directory(ts[k].slots), max, ops[k], Directory(ts[k + 1].slots), Apply(ts[k], ops[k]).1)
    {
      EveryCallSteps(Empty(max), ops, k);
    }
    forall h
      ensures h in Printed(slots) <==> h.i in m && m[h.i].cb == Some(h.f) && m[h.i].arg == h.arg
      ensures h in Registered(slots) <==> h.i in m && m[h.i].flush == Some(h.f) && m[h.i].arg == h.arg
    {
      HitsAre(slots, h);
    }
  }

  // ---------------------------------------------------------------- what log_flush reaches

  /** What log_flush calls in any state: the flush of every one of the first slots, as many as there are
      handlers, in which one is set, in slot order. */
  lemma FlushCallsExactly(t: LogTable)
    requires 0 <= t.count <= |t.slots|
    ensures forall h :: h in FlushCalls(t) <==>
              0 <= h.i < t.count && t.slots[h.i].flush == Some(h.f) && t.slots[h.i].arg == h.arg
    ensures forall j, k :: 0 <= j < k < |FlushCalls(t)| ==> FlushCalls(t)[j].i < FlushCalls(t)[k].i
  {
    forall h ensures h in FlushCalls(t) <==>
                       0 <= h.i < t.count && t.slots[h.i].flush == Some(h.f) && t.slots[h.i].arg == h.arg {
      HitsAre(t.slots[..t.count], h);
    }
    FlushedInOrder(t.slots[..t.count]);
  }

  lemma {:induction false} FlushedInOrder(slots: seq<LogSlot>)
    ensures forall j, k :: 0 <= j < k < |Flushed(slots)| ==> Flushed(slots)[j].i < Flushed(slots)[k].i
    ensures forall k :: 0 <= k < |Flushed(slots)| ==> 0 <= Flushed(slots)[k].i < |slots|
  {
    if slots != [] {
      FlushedInOrder(slots[..|slots| - 1]);
    }
  }

  /** Below the count no unregistered slot has a flush left, and above it no registered one has. */
  predicate FlushesInReach(t: LogTable) {
    forall i :: 0 <= i < |t.slots| ==> if i < t.count then t.slots[i].cb.None? ==> t.slots[i].flush.None?
                                       else t.slots[i].cb.Some? ==> t.slots[i].flush.None?
  }

  lemma {:induction false} SameFlushes(slots: seq<LogSlot>, n: nat, k: nat)
    requires n <= k <= |slots|
    requires forall i :: 0 <= i < k ==> if i < n then slots[i].cb.None? ==> slots[i].flush.None?
                                        else slots[i].cb.Some? ==> slots[i].flush.None?
    ensures Registered(slots[..k]) == Flushed(slots[..n])
    decreases k
  {
    if k > 0 {
      assert slots[..k][..k - 1] == slots[..k - 1];
      SameFlushes(slots, if n == k then n - 1 else n, k - 1);
      if n == k { assert slots[..n][..n - 1] == slots[..n - 1]; }
    }
  }

  /** Exactly when log_flush does its job: it calls the flushes of the registered handlers, each
      once and in slot order, if and only if every flush left set is where its loop expects it. */
  lemma FlushReachesExactly(t: LogTable)
    requires Valid(t)
    ensures FlushCalls(t) == Registered(t.slots) <==> FlushesInReach(t)
  {
    var calls, wanted := FlushCalls(t), Registered(t.slots);
    if FlushesInReach(t) {
      SameFlushes(t.slots, t.count, |t.slots|);
      assert t.slots[..|t.slots|] == t.slots;
    } else {
      var i :| 0 <= i < |t.slots| && t.slots[i].flush.Some? && (i < t.count) == t.slots[i].cb.None?;
      var h := Hit(i, t.slots[i].flush.value, t.slots[i].arg);
      HitsAre(t.slots[..t.count], h);
      HitsAre(t.slots, h);
      assert h in calls <==> h !in wanted;
    }
  }

  // ---------------------------------------------------------------- which states are good

  predicate OccupiedPrefix(t: LogTable) {
    forall i :: 0 <= i < |t.slots| ==> (t.slots[i].cb.Some? <==> i < t.count)
  }

  /** Registering keeps the registered handlers in the first slots, and so does unregistering the
      one registered last. */
  lemma LastInFirstOutKeepsPrefix(t: LogTable, op: LogOp)
    requires Valid(t) && OccupiedPrefix(t) && (op.Drop? ==> op.index == t.count - 1)
    ensures OccupiedPrefix(Apply(t, op).0)
    ensures op.Add? && op.cb.Some? && t.count < |t.slots| ==> Apply(t, op).1 == t.count
  {
    if t.count < |t.slots| {
      assert t.slots[t.count].cb.None?;
      var i := FreeFrom(t.slots, 0);
      assert i == t.count;
    }
  }

  /** Slots fill from the bottom: once a slot has been used, so have all below it. */
  ghost predicate History(t: LogTable) {
    && (forall i :: 0 <= i < |t.slots| && t.slots[i].cb.Some? ==> t.slots[i].flush.Some?)
    && (forall i, j :: 0 <= i < j < |t.slots| && t.slots[j].flush.Some? ==> t.slots[i].flush.Some?)
  }

  predicate AlwaysFlush(ops: seq<LogOp>) {
    forall op :: op in ops && op.Add? ==> op.flush.Some?
  }

  lemma HistoryStep(t: LogTable, op: LogOp)
    requires Valid(t) && History(t) && (op.Add? ==> op.flush.Some?)
    ensures History(Apply(t, op).0)
  {
  }

  lemma {:induction false} HistoryKept(t: LogTable, ops: seq<LogOp>)
    requires Valid(t) && History(t) && AlwaysFlush(ops)
    ensures Valid(ApplyAll(t, ops)) && History(ApplyAll(t, ops))
    decreases |ops|
  {
    if ops != [] {
      assert ops[0] in ops && forall op :: op in ops[1..] ==> op in ops;
      ApplyValid(t, ops[0]);
      HistoryStep(t, ops[0]);
      HistoryKept(Apply(t, ops[0]).0, ops[1..]);
    }
  }

  lemma {:induction false} FirstSlotsUsed(slots: seq<LogSlot>, n: nat)
    requires n <= |slots| && (forall i :: n <= i < |slots| ==> slots[i].cb.None?)
    ensures Used(slots) <= n
    ensures Used(slots) == n ==> forall i :: 0 <= i < n ==> slots[i].cb.Some?
    decreases |slots|
  {
    if |slots| > n {
      FirstSlotsUsed(slots[..|slots| - 1], n);
      assert forall i :: 0 <= i < n ==> slots[..|slots| - 1][i] == slots[i];
    } else {
      UsedAll(slots);
    }
  }

  /** After any sequence of calls in which every handler came with a flush, log_flush does its job
      exactly while the registered handlers occupy the first slots. */
  lemma FlushNeedsPrefix(max: nat, ops: seq<LogOp>)
    requires AlwaysFlush(ops)
    ensures var t := ApplyAll(Empty(max), ops);
            FlushCalls(t) == Registered(t.slots) <==> OccupiedPrefix(t)
  {
    UsedAll(Empty(max).slots);
    HistoryKept(Empty(max), ops);
    var t := ApplyAll(Empty(max), ops);
    FlushReachesExactly(t);
    if FlushesInReach(t) {
      FirstSlotsUsed(t.slots, t.count);
    }
  }

  /** Two handlers, the first one removed. */
  function OutOfOrder(f: int, g: int): seq<LogOp> {
    [Add(Some(1), Some(f), 7)] + ([Add(Some(2), Some(g), 8)] + ([Drop(0)] + []))
  }

  lemma ApplyFirst(t: LogTable, op: LogOp, ops: seq<LogOp>)
    ensures ApplyAll(t, [op] + ops) == ApplyAll(Apply(t, op).0, ops)
  {
    assert ([op] + ops)[1..] == ops;
  }

  lemma OutOfOrderTable(max: nat, f: int, g: int)
    requires max >= 2
    ensures var t := ApplyAll(Empty(max), OutOfOrder(f, g));
            && t.count == 1 && |t.slots| == max
            && t.slots[0] == LogSlot(None, Some(f), 0) && t.slots[1] == LogSlot(Some(2), Some(g), 8)
            && forall i :: 2 <= i < max ==> t.slots[i] == LogSlot(None, None, 0)
  {
    var t0 := Empty(max);
    ApplyFirst(t0, Add(Some(1), Some(f), 7), [Add(Some(2), Some(g), 8)] + ([Drop(0)] + []));
    var t1 := Apply(t0, Add(Some(1), Some(f), 7)).0;
    assert t1 == LogTable(t0.slots[0 := LogSlot(Some(1), Some(f), 7)], 1);
    ApplyFirst(t1, Add(Some(2), Some(g), 8), [Drop(0)] + []);
    assert FreeFrom(t1.slots, 1) == 1 && FreeFrom(t1.slots, 0) == 1;
    var t2 := Apply(t1, Add(Some(2), Some(g), 8)).0;
    ApplyFirst(t2, Drop(0), []);
  }

  /** After that, log_flush calls the flush of the removed handler and not that of the one left. */
  lemma FlushAfterOutOfOrderRemoval(max: nat, f: int, g: int)
    requires max >= 2
    ensures var t := ApplyAll(Empty(max), OutOfOrder(f, g));
            FlushCalls(t) == [Hit(0, f, 0)] && Registered(t.slots) == [Hit(1, g, 8)]
  {
    OutOfOrderTable(max, f, g);
    var t := ApplyAll(Empty(max), OutOfOrder(f, g));
    var one := t.slots[..1];
    assert one[..0] == [] && one[0] == t.slots[0];
    assert Flushed(one) == Flushed(one[..0]) + [Hit(0, f, 0)];
    OnlySecond(t.slots, g, max);
    assert t.slots[..max] == t.slots;
  }

  lemma {:induction false} OnlySecond(slots: seq<LogSlot>, g: int, k: nat)
    requires 2 <= k <= |slots| && slots[0].cb.None? && slots[1] == LogSlot(Some(2), Some(g), 8)
    requires forall i :: 2 <= i < |slots| ==> slots[i].cb.None?
    ensures Registered(slots[..k]) == [Hit(1, g, 8)]
  {
    assert slots[..k][..k - 1] == slots[..k - 1];
    if k > 2 {
      OnlySecond(slots, g, k - 1);
    } else {
      assert slots[..1][..0] == [] && Registered(slots[..1]) == [];
    }
  }

  // ---------------------------------------------------------------- in place

  class LogHandlers {
    const slots: array<LogSlot>
    var count: int

    ghost function View(): LogTable
      reads this, slots
    {
      LogTable(slots[..], count)
    }

    constructor (max: nat)
      ensures View() == Empty(max) && fresh(slots)
    {
      slots := new LogSlot[max](_ => LogSlot(None, None, 0));
      count := 0;
      new;
      assert slots[..] == Empty(max).slots;
    }

    method RegisterHandler(cb: Option<int>, flush: Option<int>, arg: int) returns (ret: int)
      modifies this`count, slots
      ensures (View(), ret) == Apply(old(View()), Add(cb, flush, arg))
    {
      if cb.None? { return -1; }
      if count >= slots.Length { return -2; }
      var i := 0;
      while i < slots.Length && slots[i].cb.Some?
        invariant 0 <= i <= slots.Length
        invariant FreeFrom(slots[..], 0) == FreeFrom(slots[..], i)
      {
        i := i + 1;
      }
      if i == slots.Length { return -3; }
      slots[i] := LogSlot(cb, flush, arg);
      count := count + 1;
      return i;
    }

    method UnregisterHandler(index: int) returns (ret: int)
      modifies this`count, slots
      ensures (View(), ret) == Apply(old(View()), Drop(index))
    {
      if index < 0 || index >= slots.Length { return -1; }
      if slots[index].cb.None? { return -2; }
      slots[index] := slots[index].(cb := None, arg := 0);
      count := count - 1;
      return 0;
    }

    /** `len` is what vsnprintf returned for the message. */
    method Printf(len: int) returns (ret: int, hits: seq<Hit>)
      requires Valid(View())
      ensures 0 < len < LOG_VSNPRINTF_BUFSZ ==>
                hits == Printed(slots[..]) && ret == if count == 0 then 0 else len
      ensures !(0 < len < LOG_VSNPRINTF_BUFSZ) ==> hits == [] && ret == 0
    {
      hits := [];
      if count == 0 {
        NothingPrinted(slots[..]);
        return 0, [];
      }
      if len <= 0 || len >= LOG_VSNPRINTF_BUFSZ { return 0, []; }
      var i := 0;
      while i < slots.Length
        invariant 0 <= i <= slots.Length
        invariant hits == Printed(slots[..i])
      {
        assert slots[..i + 1][..i] == slots[..i];
        if slots[i].cb.Some? {
          hits := hits + [Hit(i, slots[i].cb.value, slots[i].arg)];
        }
        i := i + 1;
      }
      assert slots[..i] == slots[..];
      return len, hits;
    }

    static lemma NothingPrinted(slots: seq<LogSlot>)
      requires Used(slots) == 0
      ensures Printed(slots) == []
    {
      UsedAll(slots);
      if Printed(slots) != [] {
        HitsAre(slots, Printed(slots)[0]);
      }
    }

    method Flush() returns (hits: seq<Hit>)
      requires Valid(View())
      ensures hits == FlushCalls(View())
    {
      hits := [];
      var i := 0;
      while i < count
        invariant 0 <= i <= count
        invariant hits == Flushed(slots[..i])
      {
        assert slots[..i + 1][..i] == slots[..i];
        if slots[i].flush.Some? {
          hits := hits + [Hit(i, slots[i].flush.value, slots[i].arg)];
        }
        i := i + 1;
      }
    }
  }
}
