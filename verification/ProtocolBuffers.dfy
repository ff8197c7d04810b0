/** What the handlers find in the buffers they are given, along every run. */
module ProtocolBuffers {
  import opened Base
  import opened Registry
  import opened MsgBuffer
  import opened Protocol
  import opened ProtocolInvariants
  import opened ProtocolTheorems

  // ---------------------------------------------------------------- with two spare bytes

  /** A callback other than the library's own keeps its text terminated in bounds, and keeps two spare
      bytes if it was given two. */
  predicate Polite(s: State, step: Step) {
    step.Return? && s.con.InCallback? && s.q.list != [] && s.con.h.cb != DefaultFile ==>
      KeepsBuffer(s.q.list[0].buf, step.b)
  }

  predicate PoliteRun(cfg: Config, s: State, steps: seq<Step>)
    requires Feasible(cfg, s, steps)
    decreases |steps|
  {
    steps == [] || (Polite(s, steps[0]) && PoliteRun(cfg, Do(cfg, s, steps[0]), steps[1..]))
  }

  /** Every message the build's settings let through fits a buffer whose size is 16 bits wide. */
  predicate BuffersFit(cfg: Config) {
    forall len: nat :: len < cfg.bufsz ==> MsgSize(len) < 0x1_0000
  }

  /** Has the default handler already rewritten the message under the cursor? */
  predicate DefaultRan(con: Consumer, def: int) {
    HoldsMessage(con) && 0 <= def < Offered(con) - (if con.InCallback? then 1 else 0)
  }

  function Slack(con: Consumer, def: int): nat {
    if DefaultRan(con, def) then 1 else 2
  }

  ghost predicate BuffersInv(list: seq<Node>, con: Consumer, def: int) {
    forall k :: 0 <= k < |list| ==> BufOk(list[k].buf, if k == 0 then Slack(con, def) else 2)
  }

  lemma BuffersKeptByProducer(cfg: Config, q: Queue, con: Consumer, def: int, started: bool, c: Call)
    requires BuffersInv(q.list, con, def) && CursorInv(con, q.list) && BuffersFit(cfg)
    requires CallOk(q, cfg.bufsz, c)
    ensures BuffersInv(Produce(q, started, cfg.bufsz, c).0.list, con, def)
  {
    if started && Formats(c, cfg.bufsz) && c.alloc.Block? {
      NewBufOk(c.text);
    }
  }

  lemma BuffersKeptByReturn(cfg: Config, s: State, b: MsgBuf, res: int)
    requires BuffersInv(s.q.list, s.con, s.reg.def) && CursorInv(s.con, s.q.list)
    requires Valid(s.reg) && OfferInv(s.con, s.reg.slots)
    requires Enabled(cfg, s, Return(b, res)) && Polite(s, Return(b, res))
    ensures var s' := Do(cfg, s, Return(b, res)); BuffersInv(s'.q.list, s'.con, s'.reg.def)
  {
    var given := s.q.list[0].buf;
    assert Find(s.q.list, s.con.m) == 0;
    assert BufOk(given, Slack(s.con, s.reg.def));
    assert IsDefaultSlot(s.reg.slots[s.con.i]) <==> s.con.i == s.reg.def;
    if s.con.h.cb == DefaultFile {
      DefaultFileEndsLine(given);
    }
  }

  lemma SlackKeptAtMessage(cfg: Config, s: State)
    requires CursorInv(s.con, s.q.list) && Valid(s.reg) && Enabled(cfg, s, Tick)
    requires HoldsMessage(s.con) && !s.con.Remove?
    ensures Slack(ConsumerTick(s).con, s.reg.def) == Slack(s.con, s.reg.def)
  {
  }

  lemma SlackKeptElsewhere(cfg: Config, s: State)
    requires Enabled(cfg, s, Tick) && !HoldsMessage(s.con)
    ensures Slack(ConsumerTick(s).con, s.reg.def) == Slack(s.con, s.reg.def)
  {
  }

  lemma SlackKeptByThread(cfg: Config, s: State)
    requires CursorInv(s.con, s.q.list) && Valid(s.reg) && Enabled(cfg, s, Tick) && !s.con.Remove?
    ensures Slack(ConsumerTick(s).con, s.reg.def) == Slack(s.con, s.reg.def)
    ensures ConsumerTick(s).q.list == s.q.list
  {
    Unchanged(cfg, s, Tick);
    if HoldsMessage(s.con) { SlackKeptAtMessage(cfg, s); } else { SlackKeptElsewhere(cfg, s); }
  }

  lemma BuffersKept(cfg: Config, s: State, step: Step)
    requires Inv(cfg, s) && BuffersInv(s.q.list, s.con, s.reg.def) && BuffersFit(cfg)
    requires Enabled(cfg, s, step) && Polite(s, step)
    ensures var s' := Do(cfg, s, step); BuffersInv(s'.q.list, s'.con, s'.reg.def)
  {
    hide BuffersInv, Do, Polite;
    if step.Tick? {
      BuffersKeptByThread(cfg, s);
    } else if step.Return? {
      BuffersKeptByReturn(cfg, s, step.b, step.res);
    } else if step.Kprintf? {
      BuffersKeptByCall(cfg, s, step.c);
    } else {
      BuffersKeptByOthers(cfg, s, step);
    }
  }

  lemma BuffersKeptByThread(cfg: Config, s: State)
    requires Inv(cfg, s) && BuffersInv(s.q.list, s.con, s.reg.def) && Enabled(cfg, s, Tick)
    ensures var s' := Do(cfg, s, Tick); BuffersInv(s'.q.list, s'.con, s'.reg.def)
  {
    if s.con.Remove? {
      RemoveEffect(cfg, s);
    } else {
      hide BuffersInv;
      Unchanged(cfg, s, Tick);
      SlackKeptByThread(cfg, s);
      SameBuffers(s, ConsumerTick(s));
    }
  }

  lemma SameBuffers(s: State, s': State)
    requires BuffersInv(s.q.list, s.con, s.reg.def)
    requires s'.q.list == s.q.list && Slack(s'.con, s'.reg.def) == Slack(s.con, s.reg.def)
    ensures BuffersInv(s'.q.list, s'.con, s'.reg.def)
  {
    hide Slack;
  }

  lemma BuffersKeptByCall(cfg: Config, s: State, c: Call)
    requires BuffersInv(s.q.list, s.con, s.reg.def) && CursorInv(s.con, s.q.list) && BuffersFit(cfg)
    requires Enabled(cfg, s, Kprintf(c))
    ensures var s' := Do(cfg, s, Kprintf(c)); BuffersInv(s'.q.list, s'.con, s'.reg.def)
  {
    BuffersKeptByProducer(cfg, s.q, s.con, s.reg.def, s.gstate == Started, c);
  }

  lemma BuffersKeptByOthers(cfg: Config, s: State, step: Step)
    requires SemaInv(s.sema, ThreadHolds(s.con), s.clients) && BuffersInv(s.q.list, s.con, s.reg.def)
    requires Enabled(cfg, s, step) && !step.Tick? && !step.Return? && !step.Kprintf?
    ensures var s' := Do(cfg, s, step); BuffersInv(s'.q.list, s'.con, s'.reg.def)
  {
    Unchanged(cfg, s, step);
    if Changes(s, step) { OnlyHolder(s.sema, ThreadHolds(s.con), s.clients, Caller(step.tid)); }
  }

  lemma {:induction false} BuffersRun(cfg: Config, s: State, steps: seq<Step>)
    requires Inv(cfg, s) && BuffersInv(s.q.list, s.con, s.reg.def) && BuffersFit(cfg)
    requires Feasible(cfg, s, steps) && PoliteRun(cfg, s, steps)
    ensures var s' := Run(cfg, s, steps); BuffersInv(s'.q.list, s'.con, s'.reg.def)
    decreases |steps|
  {
    if steps != [] {
      BuffersKept(cfg, s, steps[0]);
      StepKeeps(cfg, s, steps[0]);
      BuffersRun(cfg, Do(cfg, s, steps[0]), steps[1..]);
    }
  }

  /** If callers' handlers keep the two spare bytes then, in every reachable state, every queued
      text is non-empty, terminated and inside its block, and default_file_handler, wherever it
      sits in the chain, stays in bounds and leaves a text that ends its line. */
  lemma BuffersSafe(cfg: Config, steps: seq<Step>)
    requires BuffersFit(cfg) && Feasible(cfg, Init(cfg), steps) && PoliteRun(cfg, Init(cfg), steps)
    ensures var s := Reached(cfg, steps);
            && (forall k :: 0 <= k < |s.q.list| ==> BufOk(s.q.list[k].buf, 1))
            && (s.con.InCallback? && s.con.h.cb == DefaultFile ==>
                  && s.q.list != [] && DefaultInBounds(s.q.list[0].buf)
                  && var b := AppendNewline(s.q.list[0].buf);
                     BufOk(b, 1) && b.data[b.len - 1] == NEWLINE)
  {
    InitInv(cfg);
    BuffersRun(cfg, Init(cfg), steps);
    ReachableInv(cfg, steps);
    hide Inv, Run;
    var s := Reached(cfg, steps);
    if s.con.InCallback? && s.con.h.cb == DefaultFile { DefaultCallSafe(cfg, s); }
  }

  lemma DefaultCallSafe(cfg: Config, s: State)
    requires Inv(cfg, s) && BuffersInv(s.q.list, s.con, s.reg.def)
    requires s.con.InCallback? && s.con.h.cb == DefaultFile
    ensures s.q.list != [] && DefaultInBounds(s.q.list[0].buf)
    ensures var b := AppendNewline(s.q.list[0].buf); BufOk(b, 1) && b.data[b.len - 1] == NEWLINE
  {
    DefaultNotYetRan(cfg, s);
    hide Inv, Slack;
    assert BufOk(s.q.list[0].buf, Slack(s.con, s.reg.def));
    DefaultFileEndsLine(s.q.list[0].buf);
  }

  lemma DefaultNotYetRan(cfg: Config, s: State)
    requires Inv(cfg, s) && s.con.InCallback? && s.con.h.cb == DefaultFile
    ensures s.q.list != [] && Slack(s.con, s.reg.def) == 2
  {
    assert IsDefaultSlot(s.reg.slots[s.con.i]);
  }

  // ---------------------------------------------------------------- with a terminated text only

  /** A terminated text, possibly empty, within the capacity. */
  predicate Fits(b: MsgBuf) {
    b.size == |b.data| && b.len < b.size && b.data[b.len] == 0
  }

  /** All kprintf.h asks of a callback: a text within the capacity it was told. */
  predicate Terminating(s: State, step: Step) {
    step.Return? && s.con.InCallback? && s.q.list != [] && s.con.h.cb != DefaultFile ==>
      (Fits(s.q.list[0].buf) ==> Fits(step.b))
  }

  predicate TerminatingRun(cfg: Config, s: State, steps: seq<Step>)
    requires Feasible(cfg, s, steps)
    decreases |steps|
  {
    steps == [] || (Terminating(s, steps[0]) && TerminatingRun(cfg, Do(cfg, s, steps[0]), steps[1..]))
  }

  /** default_file_handler is about to run on the head message. */
  predicate DefaultCall(s: State) {
    s.con.InCallback? && s.con.h.cb == DefaultFile && s.q.list != []
  }

  /** Every call of default_file_handler so far, the one about to run included, stays in its buffer. */
  predicate InBoundsThroughout(cfg: Config, s: State, steps: seq<Step>)
    requires Feasible(cfg, s, steps)
    decreases |steps|
  {
    && (DefaultCall(s) ==> DefaultInBounds(s.q.list[0].buf))
    && (steps == [] || InBoundsThroughout(cfg, Do(cfg, s, steps[0]), steps[1..]))
  }

  /** What a handler's author can look at: the text is not empty, and it ends its line or a byte is free
      beside the one for the terminator. */
  predicate HasRoom(b: MsgBuf) {
    1 <= b.len <= |b.data| && (b.len + 1 < b.size || b.data[b.len - 1] == NEWLINE)
  }

  /** Every such call finds room. */
  predicate RoomThroughout(cfg: Config, s: State, steps: seq<Step>)
    requires Feasible(cfg, s, steps)
    decreases |steps|
  {
    && (DefaultCall(s) ==> HasRoom(s.q.list[0].buf))
    && (steps == [] || RoomThroughout(cfg, Do(cfg, s, steps[0]), steps[1..]))
  }

  predicate AllTerminated(list: seq<Node>) {
    forall k :: 0 <= k < |list| ==> Fits(list[k].buf)
  }

  lemma RoomIsEnough(b: MsgBuf)
    requires Fits(b)
    ensures DefaultInBounds(b) <==> HasRoom(b)
    ensures HasRoom(b) ==> Fits(AppendNewline(b))
  {
  }

  lemma TerminatedByReturn(cfg: Config, s: State, b: MsgBuf, res: int)
    requires CursorInv(s.con, s.q.list) && AllTerminated(s.q.list) && Enabled(cfg, s, Return(b, res))
    requires Terminating(s, Return(b, res)) && (DefaultCall(s) ==> DefaultInBounds(s.q.list[0].buf))
    ensures AllTerminated(Do(cfg, s, Return(b, res)).q.list)
  {
    assert Find(s.q.list, s.con.m) == 0;
    RoomIsEnough(s.q.list[0].buf);
  }

  lemma TerminatedKept(cfg: Config, s: State, step: Step)
    requires Inv(cfg, s) && AllTerminated(s.q.list) && BuffersFit(cfg)
    requires Enabled(cfg, s, step) && Terminating(s, step)
    requires DefaultCall(s) ==> DefaultInBounds(s.q.list[0].buf)
    ensures AllTerminated(Do(cfg, s, step).q.list)
  {
    hide Do, Terminating, AllTerminated;
    if step.Kprintf? {
      TerminatedByCall(cfg, s, step.c);
    } else if step.Return? {
      TerminatedByReturn(cfg, s, step.b, step.res);
    } else {
      TerminatedByOthers(cfg, s, step);
    }
  }

  lemma TerminatedByCall(cfg: Config, s: State, c: Call)
    requires AllTerminated(s.q.list) && BuffersFit(cfg) && Enabled(cfg, s, Kprintf(c))
    ensures AllTerminated(Do(cfg, s, Kprintf(c)).q.list)
  {
    if s.gstate == Started && Formats(c, cfg.bufsz) && c.alloc.Block? { NewBufOk(c.text); }
  }

  lemma TerminatedByOthers(cfg: Config, s: State, step: Step)
    requires QueueInv(cfg, s.q) && CursorInv(s.con, s.q.list) && AllTerminated(s.q.list)
    requires Enabled(cfg, s, step) && !step.Kprintf? && !step.Return?
    ensures AllTerminated(Do(cfg, s, step).q.list)
  {
    Unchanged(cfg, s, step);
    if Removes(s, step) { RemoveEffect(cfg, s); }
  }

  lemma {:induction false} OverrunsExactly(cfg: Config, s: State, steps: seq<Step>)
    requires Inv(cfg, s) && AllTerminated(s.q.list) && BuffersFit(cfg)
    requires Feasible(cfg, s, steps) && TerminatingRun(cfg, s, steps)
    ensures InBoundsThroughout(cfg, s, steps) <==> RoomThroughout(cfg, s, steps)
    ensures InBoundsThroughout(cfg, s, steps) ==> AllTerminated(Run(cfg, s, steps).q.list)
    decreases |steps|
  {
    hide Inv, Do, Enabled;
    if DefaultCall(s) { RoomIsEnough(s.q.list[0].buf); }
    if steps != [] && (DefaultCall(s) ==> DefaultInBounds(s.q.list[0].buf)) {
      TerminatedKept(cfg, s, steps[0]);
      StepKeeps(cfg, s, steps[0]);
      OverrunsExactly(cfg, Do(cfg, s, steps[0]), steps[1..]);
    }
  }

  /** With callers' handlers of which only that is asked: over every run default_file_handler stays in its
      buffers exactly when each of its calls finds room; as long as it does, every queued text is
      terminated in bounds. */
  lemma DefaultStaysInBoundsExactly(cfg: Config, steps: seq<Step>)
    requires BuffersFit(cfg) && Feasible(cfg, Init(cfg), steps) && TerminatingRun(cfg, Init(cfg), steps)
    ensures InBoundsThroughout(cfg, Init(cfg), steps) <==> RoomThroughout(cfg, Init(cfg), steps)
    ensures InBoundsThroughout(cfg, Init(cfg), steps) ==> AllTerminated(Reached(cfg, steps).q.list)
  {
    InitInv(cfg);
    OverrunsExactly(cfg, Init(cfg), steps);
  }

  // ---------------------------------------------------------------- the overrun is real

  predicate NoReturn(steps: seq<Step>) {
    forall step :: step in steps ==> !step.Return?
  }

  lemma {:induction false} NoReturnTerminates(cfg: Config, s: State, steps: seq<Step>)
    requires Feasible(cfg, s, steps) && NoReturn(steps)
    ensures TerminatingRun(cfg, s, steps)
    decreases |steps|
  {
    if steps != [] {
      assert steps[0] in steps && forall step :: step in steps[1..] ==> step in steps;
      NoReturnTerminates(cfg, Do(cfg, s, steps[0]), steps[1..]);
    }
  }

  /** ExtendRun, for runs whose callbacks keep their texts terminated. */
  lemma {:induction false} ExtendTerminating(cfg: Config, s: State, steps: seq<Step>, step: Step)
    requires Feasible(cfg, s, steps) && TerminatingRun(cfg, s, steps)
    requires Enabled(cfg, Run(cfg, s, steps), step) && Terminating(Run(cfg, s, steps), step)
    ensures Feasible(cfg, s, steps + [step]) && TerminatingRun(cfg, s, steps + [step])
    ensures Run(cfg, s, steps + [step]) == Do(cfg, Run(cfg, s, steps), step)
    decreases |steps|
  {
    hide Enabled, Do, Terminating;
    if steps == [] {
      assert steps + [step] == [step];
    } else {
      ExtendTerminating(cfg, Do(cfg, s, steps[0]), steps[1..], step);
      assert (steps + [step])[1..] == steps[1..] + [step];
    }
  }

  /** One registry call from entry to exit. */
  function CallAlone(r: seq<Step>, tid: nat, op: Op): seq<Step> {
    r + [ClientEnter(tid, op)] + [ClientTick(tid)] + [ClientTick(tid)] + [ClientTick(tid)]
  }

  lemma CallAloneRuns(cfg: Config, r: seq<Step>, tid: nat, op: Op)
    requires Feasible(cfg, Init(cfg), r) && OpOk(op)
    requires var s := Reached(cfg, r); s.gstate == Started && s.sema == 1 && s.clients == map[]
    ensures Feasible(cfg, Init(cfg), CallAlone(r, tid, op))
    ensures var s := Reached(cfg, r);
            Reached(cfg, CallAlone(r, tid, op)) == s.(reg := Apply(s.reg, op).0, log := s.log + OpEvents(s.reg, op))
  {
    var i := Init(cfg);
    var t := r;
    ExtendRun(cfg, i, t, ClientEnter(tid, op));
    t := t + [ClientEnter(tid, op)];
    ExtendRun(cfg, i, t, ClientTick(tid));
    t := t + [ClientTick(tid)];
    ExtendRun(cfg, i, t, ClientTick(tid));
    t := t + [ClientTick(tid)];
    ExtendRun(cfg, i, t, ClientTick(tid));
    assert Reached(cfg, CallAlone(r, tid, op)).clients == map[];
  }

  /** Slot 0 holds a caller's handler, slot 1 the default handler. */
  function CustomFirst(cb: int): (Op, Op) {
    (Register(Handler(Custom(cb), 0), false), Register(Handler(DefaultFile, 0), true))
  }

  /** Two handlers are registered and one message is accepted. */
  function TwoHandlers(): seq<Step> {
    var ops := CustomFirst(7);
    CallAlone(CallAlone(OneMessage(), 0, ops.0), 0, ops.1)
  }

  lemma TwoHandlersRegistered(max: nat)
    requires max >= 2
    ensures var ops := CustomFirst(7);
            var t := Apply(Apply(EmptyTable(max), ops.0).0, ops.1).0;
            && |t.slots| == max
            && t.slots[0] == Some(Handler(Custom(7), 0)) && t.slots[1] == Some(Handler(DefaultFile, 0))
  {
    var ops := CustomFirst(7);
    var t := Apply(EmptyTable(max), ops.0).0;
    assert t.slots[0].Some? && t.slots[1].None?;
    assert FreeFrom(t.slots, 1) == 1 && FreeFrom(t.slots, 0) == 1;
  }

  /** Up to the call of the caller's handler in slot 0. */
  function CustomCalled(): seq<Step> {
    TwoHandlers() + [Tick] + [Tick] + [Tick] + [Tick] + [Tick]
  }

  lemma TwoHandlersRun(cfg: Config)
    requires cfg.bufsz > 1 && cfg.pool >= BlockSize(1) && cfg.maxHandlers >= 2
    ensures Feasible(cfg, Init(cfg), TwoHandlers())
    ensures var s := Reached(cfg, TwoHandlers());
            && s.con == Wait && s.q.flush && !s.terminate && s.sema == 1
            && |s.q.list| == 1 && s.q.list[0].addr == 1 && s.q.list[0].buf == NewBuf([65])
            && |s.reg.slots| == cfg.maxHandlers
            && s.reg.slots[0] == Some(Handler(Custom(7), 0)) && s.reg.slots[1] == Some(Handler(DefaultFile, 0))
  {
    var ops := CustomFirst(7);
    OneMessageWaits(cfg);
    TwoHandlersRegistered(cfg.maxHandlers);
    hide Apply, OneMessage, NewBuf;
    CallAloneRuns(cfg, OneMessage(), 0, ops.0);
    CallAloneRuns(cfg, CallAlone(OneMessage(), 0, ops.0), 0, ops.1);
  }

  lemma CustomIsCalled(cfg: Config)
    requires cfg.bufsz > 1 && cfg.pool >= BlockSize(1) && cfg.maxHandlers >= 2
    ensures Feasible(cfg, Init(cfg), CustomCalled())
    ensures var s := Reached(cfg, CustomCalled());
            && s.con == InCallback(false, 1, 0, Handler(Custom(7), 0))
            && |s.q.list| == 1 && s.q.list[0].addr == 1 && s.q.list[0].buf == NewBuf([65])
            && |s.reg.slots| == cfg.maxHandlers && s.reg.slots[1] == Some(Handler(DefaultFile, 0))
  {
    TwoHandlersRun(cfg);
    hide TwoHandlers;
    FlushBegins(cfg, TwoHandlers());
    ExtendRun(cfg, Init(cfg), TwoHandlers() + [Tick] + [Tick] + [Tick] + [Tick], Tick);
  }

  /** The caller's handler leaves b to the default handler. */
  function Leaves(b: MsgBuf): seq<Step> {
    CustomCalled() + [Return(b, 0)] + [Tick]
  }

  lemma NothingReturned()
    ensures NoReturn(CustomCalled())
  {
  }

  lemma CustomReturns(cfg: Config, s: State, b: MsgBuf)
    requires Fits(b) && b.size == 17
    requires s.con == InCallback(false, 1, 0, Handler(Custom(7), 0)) && |s.q.list| == 1 && s.q.list[0].addr == 1
    requires s.q.list[0].buf == NewBuf([65])
    requires |s.reg.slots| >= 2 && s.reg.slots[1] == Some(Handler(DefaultFile, 0))
    ensures Enabled(cfg, s, Return(b, 0)) && Terminating(s, Return(b, 0))
    ensures var s1 := Do(cfg, s, Return(b, 0));
            && Enabled(cfg, s1, Tick) && Terminating(s1, Tick)
            && var s2 := Do(cfg, s1, Tick);
               s2.con == InCallback(false, 1, 1, Handler(DefaultFile, 0))
               && |s2.q.list| == 1 && s2.q.list[0].buf == b
  {
    assert Find(s.q.list, 1) == 0;
    assert |NewBuf([65]).data| == 17;
  }

  /** In every configuration with two handlers there is a run in which the default handler is called on
      whatever terminated text a caller's handler puts in the buffer. */
  lemma DefaultMeets(cfg: Config, b: MsgBuf)
    requires cfg.bufsz > 1 && cfg.pool >= BlockSize(1) && cfg.maxHandlers >= 2
    requires Fits(b) && b.size == 17
    ensures Feasible(cfg, Init(cfg), Leaves(b)) && TerminatingRun(cfg, Init(cfg), Leaves(b))
    ensures DefaultCall(Reached(cfg, Leaves(b))) && Reached(cfg, Leaves(b)).q.list[0].buf == b
  {
    var i := Init(cfg);
    CustomIsCalled(cfg);
    NothingReturned();
    NoReturnTerminates(cfg, i, CustomCalled());
    CustomReturns(cfg, Reached(cfg, CustomCalled()), b);
    hide CustomCalled;
    ExtendTerminating(cfg, i, CustomCalled(), Return(b, 0));
    ExtendTerminating(cfg, i, CustomCalled() + [Return(b, 0)], Tick);
  }

  /** 16 bytes without a newline and the terminator. */
  function FullBuf(): MsgBuf {
    MsgBuf(16, 17, seq(17, i => if i < 16 then 65 else 0))
  }

  /** The text is removed. */
  function EmptiedBuf(): MsgBuf {
    MsgBuf(0, 17, seq(17, i => 0))
  }

  /** A caller's handler that fills the buffer to its capacity makes the default handler after it write
      beyond the block, and one that empties it makes it read before the text. */
  lemma DefaultCanOverrun(cfg: Config)
    requires cfg.bufsz > 1 && cfg.pool >= BlockSize(1) && cfg.maxHandlers >= 2
    ensures Feasible(cfg, Init(cfg), Leaves(FullBuf())) && TerminatingRun(cfg, Init(cfg), Leaves(FullBuf()))
    ensures var s := Reached(cfg, Leaves(FullBuf()));
            DefaultCall(s) && !DefaultInBounds(s.q.list[0].buf) && s.q.list[0].buf.len + 1 == s.q.list[0].buf.size
    ensures Feasible(cfg, Init(cfg), Leaves(EmptiedBuf())) && TerminatingRun(cfg, Init(cfg), Leaves(EmptiedBuf()))
    ensures var s := Reached(cfg, Leaves(EmptiedBuf()));
            DefaultCall(s) && !DefaultInBounds(s.q.list[0].buf) && s.q.list[0].buf.len == 0
  {
    DefaultMeets(cfg, FullBuf());
    DefaultMeets(cfg, EmptiedBuf());
  }
}
