/** The handler registry of libkprintf (handler.c): a slot array with a redundant
    count and the index of the one default handler. */
module Registry {
  import opened Base

  const ERR_NOT_STARTED := -1
  const ERR_INVALID_ARGUMENT := -2
  const ERR_INVALID_INDEX := -3
  const ERR_MAX_HANDLERS := -4
  const ERR_NO_HANDLER := -5

  /** A callback is the library's own default_file_handler or a caller's function. */
  datatype Cb = DefaultFile | Custom(id: int)
  datatype Handler = Handler(cb: Cb, arg: int)
  type Slot = Option<Handler>

  /** g_handlers[], g_handler_count, g_default_handler_index. */
  datatype Table = Table(slots: seq<Slot>, count: int, def: int)

  datatype Op = Register(h: Handler, isDefault: bool) | Unregister(index: int)

  /** Only register_default_handler passes the default callback, and it alone sets the flag. */
  predicate OpOk(op: Op) {
    op.Register? ==> (op.isDefault <==> op.h.cb == DefaultFile)
  }

  function CountUsed(slots: seq<Slot>): (n: nat)
    ensures n <= |slots|
  {
    if slots == [] then 0 else CountUsed(slots[..|slots| - 1]) + if slots[|slots| - 1].Some? then 1 else 0
  }

  /** The lowest empty slot at or above `from`, or -1. */
  function FreeFrom(slots: seq<Slot>, from: nat): (i: int)
    requires from <= |slots|
    ensures i == -1 || from <= i < |slots|
    ensures i >= 0 ==> slots[i].None?
    ensures forall j :: from <= j < (if i < 0 then |slots| else i) ==> slots[j].Some?
    decreases |slots| - from
  {
    if from == |slots| then -1 else if slots[from].None? then from else FreeFrom(slots, from + 1)
  }

  predicate IsDefaultSlot(s: Slot) {
    s.Some? && s.value.cb == DefaultFile
  }

  ghost predicate Valid(t: Table) {
    && t.count == CountUsed(t.slots)
    && -1 <= t.def < |t.slots|
    && (forall i :: 0 <= i < |t.slots| ==> (IsDefaultSlot(t.slots[i]) <==> i == t.def))
  }

  /** The table as init leaves it. */
  function EmptyTable(max: nat): Table {
    Table(seq(max, i => None), 0, -1)
  }

  lemma {:induction false} CountNone(slots: seq<Slot>)
    requires forall i :: 0 <= i < |slots| ==> slots[i].None?
    ensures CountUsed(slots) == 0
  {
    if slots != [] { CountNone(slots[..|slots| - 1]); }
  }

  lemma EmptyTableValid(max: nat)
    ensures Valid(EmptyTable(max))
  {
    CountNone(EmptyTable(max).slots);
  }

  lemma {:induction false} CountUpdate(slots: seq<Slot>, i: nat, s: Slot)
    requires i < |slots|
    ensures CountUsed(slots[i := s]) ==
            CountUsed(slots) + (if s.Some? then 1 else 0) - (if slots[i].Some? then 1 else 0)
  {
    var n := |slots| - 1;
    if i < n {
      assert slots[i := s][..n] == slots[..n][i := s];
      CountUpdate(slots[..n], i, s);
    } else {
      assert slots[i := s][..n] == slots[..n];
    }
  }

  lemma {:induction false} CountFull(slots: seq<Slot>)
    ensures CountUsed(slots) == |slots| <==> (forall i :: 0 <= i < |slots| ==> slots[i].Some?)
  {
    if slots != [] {
      var n := |slots| - 1;
      CountFull(slots[..n]);
      assert forall i :: 0 <= i < n ==> slots[..n][i] == slots[i];
    }
  }

  /** The part of register_handler and unregister_handler that runs under the semaphore. */
  function Apply(t: Table, op: Op): (r: (Table, int)) {
    match op
    case Register(h, isDefault) =>
      if isDefault && t.def >= 0 then (t, t.def)
      else if t.count >= |t.slots| then (t, ERR_MAX_HANDLERS)
      else
        var i := FreeFrom(t.slots, 0);
        if i < 0 then (t, ERR_MAX_HANDLERS)
        else (Table(t.slots[i := Some(h)], t.count + 1, if isDefault then i else t.def), i)
    case Unregister(index) =>
      if index < 0 || index >= |t.slots| then (t, ERR_INVALID_INDEX)
      else if t.slots[index].None? then (t, ERR_NO_HANDLER)
      else (Table(t.slots[index := None], t.count - 1, if index == t.def then -1 else t.def), 0)
  }

  /** The count test is exact, so the search that follows it always finds a slot: the
      second "maximum reached" exit of register_handler is unreachable. */
  lemma FreeSlotExists(t: Table)
    requires Valid(t)
    ensures t.count < |t.slots| <==> FreeFrom(t.slots, 0) >= 0
  {
    CountFull(t.slots);
  }

  lemma ApplyValid(t: Table, op: Op)
    requires Valid(t) && OpOk(op)
    ensures Valid(Apply(t, op).0)
    ensures |Apply(t, op).0.slots| == |t.slots|
  {
    match op
    case Register(h, isDefault) =>
      FreeSlotExists(t);
      var i := FreeFrom(t.slots, 0);
      if !(isDefault && t.def >= 0) && t.count < |t.slots| {
        CountUpdate(t.slots, i, Some(h));
      }
    case Unregister(index) =>
      if 0 <= index < |t.slots| {
        CountUpdate(t.slots, index, None);
      }
  }

  /** Reference definition: a partial map from index to handler and an optional default. */
  datatype Directory = Directory(m: map<int, Handler>, def: Option<int>)

  function Abs(t: Table): Directory {
    Directory(map i | 0 <= i < |t.slots| && t.slots[i].Some? :: t.slots[i].value,
              if t.def >= 0 then Some(t.def) else None)
  }

  predicate LeastFree(m: map<int, Handler>, max: nat, i: int) {
    0 <= i < max && i !in m && forall j :: 0 <= j < i ==> j in m
  }

  /** What one call does to the directory of at most `max` handlers, and what it returns. */
  predicate DirectoryStep(d: Directory, max: nat, op: Op, d': Directory, ret: int) {
    match op
    case Register(h, isDefault) =>
      if isDefault && d.def.Some? then d' == d && ret == d.def.value
      else if forall j :: 0 <= j < max ==> j in d.m then d' == d && ret == ERR_MAX_HANDLERS
      else LeastFree(d.m, max, ret) && d' == Directory(d.m[ret := h], if isDefault then Some(ret) else d.def)
    case Unregister(index) =>
      if index < 0 || index >= max then d' == d && ret == ERR_INVALID_INDEX
      else if index !in d.m then d' == d && ret == ERR_NO_HANDLER
      else ret == 0 && d' == Directory(d.m - {index}, if d.def == Some(index) then None else d.def)
  }

  lemma ApplyRefinesDirectory(t: Table, op: Op)
    requires Valid(t) && OpOk(op)
    ensures DirectoryStep(Abs(t), |t.slots|, op, Abs(Apply(t, op).0), Apply(t, op).1)
  {
    FreeSlotExists(t);
    var (t', ret) := Apply(t, op);
    match op
    case Register(h, isDefault) =>
      if !(isDefault && t.def >= 0) && t.count < |t.slots| {
        assert ret == FreeFrom(t.slots, 0);
        assert ret !in Abs(t).m;
        assert Abs(t').m == Abs(t).m[ret := h];
      } else if !(isDefault && t.def >= 0) {
        assert forall j :: 0 <= j < |t.slots| ==> t.slots[j].Some?;
      }
    case Unregister(index) =>
      if 0 <= index < |t.slots| && t.slots[index].Some? {
        assert Abs(t').m == Abs(t).m - {index};
      }
  }

  function ApplyAll(t: Table, ops: seq<Op>): (r: (Table, seq<int>))
    ensures |r.1| == |ops|
    decreases |ops|
  {
    if ops == [] then (t, [])
    else
      var (t', ret) := Apply(t, ops[0]);
      var (t'', rets) := ApplyAll(t', ops[1..]);
      (t'', [ret] + rets)
  }

  /** `trail` is a history of the directory in which every call made its step. */
  predicate DirectoryHistory(trail: seq<Directory>, max: nat, ops: seq<Op>, rets: seq<int>) {
    && |trail| == |ops| + 1 && |rets| == |ops|
    && forall k :: 0 <= k < |ops| ==> DirectoryStep(trail[k], max, ops[k], trail[k + 1], rets[k])
  }

  /** Over every sequence of calls the slot array, count and default index behave as the
      partial map with an optional default does, call by call and result by result. */
  lemma {:induction false} RegistryRefinesDirectory(t: Table, ops: seq<Op>) returns (trail: seq<Directory>)
    requires Valid(t) && forall op :: op in ops ==> OpOk(op)
    ensures DirectoryHistory(trail, |t.slots|, ops, ApplyAll(t, ops).1)
    ensures trail[0] == Abs(t) && trail[|ops|] == Abs(ApplyAll(t, ops).0)
    ensures Valid(ApplyAll(t, ops).0)
    decreases |ops|
  {
    trail := [Abs(t)];
    if ops != [] {
      ApplyValid(t, ops[0]);
      ApplyRefinesDirectory(t, ops[0]);
      var t' := Apply(t, ops[0]).0;
      var rest := RegistryRefinesDirectory(t', ops[1..]);
      trail := trail + rest;
      var rets := ApplyAll(t, ops).1;
      forall k | 0 <= k < |ops|
        ensures DirectoryStep(trail[k], |t.slots|, ops[k], trail[k + 1], rets[k])
      {
        if k > 0 {
          assert trail[k] == rest[k - 1] && trail[k + 1] == rest[k];
          assert ops[k] == ops[1..][k - 1] && rets[k] == ApplyAll(t', ops[1..]).1[k - 1];
        }
      }
    }
  }

  /** Registering the default handler again changes nothing and names the same slot. */
  lemma DefaultRegistrationIsIdempotent(t: Table, h: Handler, h': Handler)
    requires Valid(t) && h.cb == DefaultFile && h'.cb == DefaultFile
    ensures var (t1, i) := Apply(t, Register(h, true));
            i >= 0 ==> Apply(t1, Register(h', true)) == (t1, i)
  {
    FreeSlotExists(t);
  }

  /** Unregistering what a successful registration returned restores the registry. */
  lemma UnregisterUndoesRegister(t: Table, op: Op)
    requires Valid(t) && op.Register? && OpOk(op)
    requires !(op.isDefault && t.def >= 0)
    ensures var (t1, i) := Apply(t, op);
            i >= 0 ==> Apply(t1, Unregister(i)) == (t, 0)
  {
    FreeSlotExists(t);
    var (t1, i) := Apply(t, op);
    if i >= 0 {
      assert t1.slots[i := None] == t.slots;
    }
  }

  /** g_handlers, g_handler_count and g_default_handler_index, changed in place by whoever holds the
      semaphore. */
  class HandlerTable {
    const slots: array<Slot>
    var count: int
    var def: int

    ghost function View(): Table
      reads this, slots
    {
      Table(slots[..], count, def)
    }

    constructor (max: nat)
      ensures View() == EmptyTable(max) && Valid(View()) && fresh(slots)
    {
      slots := new Slot[max](_ => None);
      count, def := 0, -1;
      new;
      assert slots[..] == EmptyTable(max).slots;
      EmptyTableValid(max);
    }

    method FindFreeHandlerIndex() returns (i: int)
      ensures i == FreeFrom(slots[..], 0)
    {
      var k: nat := 0;
      while k < slots.Length
        invariant k <= slots.Length
        invariant FreeFrom(slots[..], 0) == FreeFrom(slots[..], k)
      {
        if slots[k].None? { return k; }
        k := k + 1;
      }
      return -1;
    }

    /** register_handler between its semaphore wait and its signal. */
    method RegisterLocked(h: Handler, isDefault: bool) returns (ret: int)
      modifies this, slots
      ensures (View(), ret) == Apply(old(View()), Register(h, isDefault))
    {
      if isDefault && def >= 0 { return def; }
      if count >= slots.Length { return ERR_MAX_HANDLERS; }
      var index := FindFreeHandlerIndex();
      if index < 0 { return ERR_MAX_HANDLERS; }
      if isDefault { def := index; }
      slots[index] := Some(h);
      count := count + 1;
      return index;
    }

    /** unregister_handler between its semaphore wait and its signal. */
    method UnregisterLocked(index: int) returns (ret: int)
      modifies this, slots
      ensures (View(), ret) == Apply(old(View()), Unregister(index))
    {
      if index < 0 || index >= slots.Length { return ERR_INVALID_INDEX; }
      if slots[index].None? { return ERR_NO_HANDLER; }
      if index == def { def := -1; }
      slots[index] := None;
      count := count - 1;
      return 0;
    }

    method ApplyLocked(op: Op) returns (ret: int)
      modifies this, slots
      ensures (View(), ret) == Apply(old(View()), op)
    {
      match op
      case Register(h, isDefault) => ret := RegisterLocked(h, isDefault);
      case Unregister(index) => ret := UnregisterLocked(index);
    }
  }
}
