/** flush_messages and invoke_handlers over the real list, interrupted wherever interrupts are
    on: every execution is a run of the step relation. */
module FlushLoop {
  import opened Base
  import opened Registry
  import opened MsgBuffer
  import opened Protocol
  import opened ProtocolInvariants
  import opened ProtocolTheorems
  import opened MessageList

  /** A step of some thread other than the event thread. */
  predicate Foreign(step: Step) {
    !step.Tick? && !step.Return? && !step.SemaError?
  }

  /** The globals are in the state the step relation says they are in. */
  ghost predicate Sync(p: Pipeline, slots: array<Slot>, cfg: Config, s: State)
    reads p, p.nodes, set i | 0 <= i < |p.nodes| :: p.nodes[i].msg, slots
  {
    && p.Valid() && p.Q() == s.q && p.started == (s.gstate == Started) && p.bufsz == cfg.bufsz
    && p.terminate == s.terminate && p.stopOk == s.stopOk && p.sema == s.sema
    && p.ran == History(s)
    && slots[..] == s.reg.slots
  }

  /** Every answer of a callback, in the order they came. */
  function History(s: State): seq<Answer> {
    AllAnswers(s.delivered) + s.answers
  }

  /** What the flush itself never touches. */
  predicate SameSignals(s: State, s': State) {
    s'.gstate == s.gstate && s'.terminate == s.terminate && s'.stopOk == s.stopOk && s'.sema == s.sema
  }

  /** `steps` lead from `s0` to `s`. */
  ghost predicate Trail(cfg: Config, s0: State, steps: seq<Step>, s: State) {
    Feasible(cfg, s0, steps) && Run(cfg, s0, steps) == s
  }

  lemma TrailInv(cfg: Config, s0: State, steps: seq<Step>, s: State)
    requires Inv(cfg, s0) && Trail(cfg, s0, steps, s)
    ensures Inv(cfg, s)
  {
    RunKeeps(cfg, s0, steps);
  }

  lemma Go(cfg: Config, s0: State, steps: seq<Step>, s: State, step: Step)
    requires Trail(cfg, s0, steps, s) && Enabled(cfg, s, step)
    ensures Trail(cfg, s0, steps + [step], Do(cfg, s, step))
  {
    ExtendRun(cfg, s0, steps, step);
  }

  lemma {:induction false} Concat(cfg: Config, s0: State, a: seq<Step>, s1: State, b: seq<Step>, s2: State)
    requires Trail(cfg, s0, a, s1) && Trail(cfg, s1, b, s2)
    ensures Trail(cfg, s0, a + b, s2)
    decreases |a|
  {
    if a == [] {
      assert a + b == b;
    } else {
      Concat(cfg, Do(cfg, s0, a[0]), a[1..], s1, b, s2);
      assert (a + b)[1..] == a[1..] + b;
    }
  }

  /** The list is the old one followed by nodes allocated since. */
  twostate predicate Grown(p: Pipeline)
    reads p
  {
    && old(p.nodes) <= p.nodes
    && forall i {:trigger p.nodes[i]} :: |old(p.nodes)| <= i < |p.nodes| ==>
         fresh(p.nodes[i]) && fresh(p.nodes[i].msg)
  }

  lemma {:induction false} ForeignRun(cfg: Config, s: State, steps: seq<Step>)
    requires Inv(cfg, s) && ThreadHolds(s.con) && Feasible(cfg, s, steps)
    requires forall k :: 0 <= k < |steps| ==> Foreign(steps[k])
    ensures var s' := Run(cfg, s, steps);
            s'.con == s.con && s'.reg == s.reg && s'.delivered == s.delivered
    decreases |steps|
  {
    if steps != [] {
      ForeignStep(cfg, s, steps[0]);
      StepKeeps(cfg, s, steps[0]);
      ForeignRun(cfg, Do(cfg, s, steps[0]), steps[1..]);
    }
  }

  lemma ForeignStep(cfg: Config, s: State, step: Step)
    requires Inv(cfg, s) && ThreadHolds(s.con) && Enabled(cfg, s, step) && Foreign(step)
    ensures var s' := Do(cfg, s, step); s'.con == s.con && s'.reg == s.reg && s'.delivered == s.delivered
  {
    Unchanged(cfg, s, step);
    if Changes(s, step) { OnlyHolder(s.sema, true, s.clients, EventThread); }
  }

  /** An interrupt window: other threads take any steps they can, within a finite budget. Callers
      rely on the contract alone, so this body stands for every behaviour it allows. */
  method OtherThreads(p: Pipeline, slots: array<Slot>, ghost cfg: Config, ghost s: State, ghost budget: nat)
    returns (ghost steps: seq<Step>, ghost s': State, ghost budget': nat)
    requires Sync(p, slots, cfg, s)
    modifies p, p.nodes
    ensures Trail(cfg, s, steps, s') && (forall k :: 0 <= k < |steps| ==> Foreign(steps[k]))
    ensures Sync(p, slots, cfg, s')
    ensures |p.nodes| + budget' <= old(|p.nodes|) + budget
    ensures Grown(p)
  {
    steps, s', budget' := [], s, budget;
  }

  /** One thing that contract allows: a producer calls Kprintf. */
  method ProducerCalls(p: Pipeline, slots: array<Slot>, c: Call, ghost cfg: Config, ghost s: State, ghost budget: nat)
    returns (ret: int, ghost steps: seq<Step>, ghost s': State, ghost budget': nat)
    requires Sync(p, slots, cfg, s) && CallOk(s.q, cfg.bufsz, c) && budget > 0
    modifies p, p.nodes
    ensures Trail(cfg, s, steps, s') && (forall k :: 0 <= k < |steps| ==> Foreign(steps[k]))
    ensures Sync(p, slots, cfg, s')
    ensures |p.nodes| + budget' <= old(|p.nodes|) + budget
    ensures Grown(p)
    ensures steps == [Kprintf(c)] && ret == Produce(s.q, s.gstate == Started, cfg.bufsz, c).1
  {
    ret := p.KprintfHandler(c);
    steps, s', budget' := [Kprintf(c)], Do(cfg, s, Kprintf(c)), budget - 1;
    assert steps[1..] == [];
    assert |p.list| <= |old(p.list)| + 1;
  }

  /** A window between two steps of the flush that started at `s0`. */
  method Interrupt(p: Pipeline, slots: array<Slot>, ghost cfg: Config,
                   ghost s0: State, ghost steps: seq<Step>, ghost s: State, ghost budget: nat)
    returns (ghost steps': seq<Step>, ghost s': State, ghost budget': nat)
    requires Inv(cfg, s0) && Trail(cfg, s0, steps, s) && Sync(p, slots, cfg, s) && ThreadHolds(s.con)
    modifies p, p.nodes
    ensures Trail(cfg, s0, steps', s') && Sync(p, slots, cfg, s')
    ensures s'.con == s.con && s'.reg == s.reg && s'.delivered == s.delivered
    ensures |p.nodes| + budget' <= old(|p.nodes|) + budget
    ensures Grown(p)
  {
    hide Inv;
    ghost var more;
    more, s', budget' := OtherThreads(p, slots, cfg, s, budget);
    steps' := steps + more;
    TrailInv(cfg, s0, steps, s);
    ForeignRun(cfg, s, more);
    Concat(cfg, s0, steps, s, more, s');
  }

  /** The callback in a slot runs on the head message. A caller's handler may do anything its
      contract allows; the library's own is default_file_handler. */
  method RunCallback(p: Pipeline, m: Msg, h: Handler) returns (res: int)
    requires p.Valid() && p.nodes != [] && p.nodes[0] == m
    modifies m`len, m.msg, p`list, p`ran
    ensures p.Valid() && |p.list| == |old(p.list)| > 0
    ensures p.ran == old(p.ran) + [Answer(h, res)]
    ensures CallbackMay(h, old(p.list)[0].buf, p.list[0].buf, res)
    ensures p.list == old(p.list)[0 := old(p.list)[0].(buf := p.list[0].buf)]
  {
    res := 0;
    p.ran := p.ran + [Answer(h, res)];
    assert m.Val() == p.list[0];
    if h.cb == DefaultFile && 1 <= m.len <= m.msg.Length && (m.msg[m.len - 1] == NEWLINE || m.len + 1 < m.msg.Length) {
      var n := DefaultFileHandler(m.msg, m.len, m.size);
      m.len := n;
      p.list := p.list[0 := m.Val()];
      forall i | 0 <= i < |p.nodes|
        ensures p.nodes[i].Val() == p.list[i] && p.nodes[i].block == BlockOf(p.list[i])
      {
        assert i > 0 ==> p.nodes[0] != p.nodes[i] && p.nodes[0].msg != p.nodes[i].msg;
        assert old(p.nodes[i].Val()) == old(p.list)[i];
      }
    }
  }

  lemma ChainEndStep(cfg: Config, s: State)
    requires s.con.Invoke? && s.con.i == |s.reg.slots|
    ensures Enabled(cfg, s, Tick)
    ensures Do(cfg, s, Tick) == s.(con := ReadNext(s.con.t, s.con.m, s.con.i, false))
  {
  }

  /** invoke_handlers. */
  method InvokeHandlers(p: Pipeline, slots: array<Slot>, m: Msg, ghost cfg: Config,
                        ghost s0: State, ghost steps: seq<Step>, ghost s: State, ghost budget: nat)
    returns (ghost steps': seq<Step>, ghost s': State, ghost budget': nat)
    requires Inv(cfg, s0) && Trail(cfg, s0, steps, s) && Sync(p, slots, cfg, s)
    requires s.con.Invoke? && s.con.i == 0 && p.nodes != [] && p.nodes[0] == m && s.con.m == m.addr
    modifies p, p.nodes, m.msg
    ensures Trail(cfg, s0, steps', s') && Sync(p, slots, cfg, s')
    ensures s'.con.ReadNext? && s'.con.m == m.addr && s'.con.t == s.con.t
    ensures old(p.ran) <= p.ran
    ensures RanChain(p.ran[|old(p.ran)|..], slots[..], s'.con.reach, s'.con.stopped)
    ensures |p.nodes| + budget' <= old(|p.nodes|) + budget
    ensures Grown(p)
  {
    hide Inv, Trail;
    steps', s', budget' := steps, s, budget;
    var i := 0;
    var stopped := false;
    while i < slots.Length && !stopped
      invariant 0 <= i <= slots.Length
      invariant Trail(cfg, s0, steps', s') && Sync(p, slots, cfg, s')
      invariant s'.con == if stopped then ReadNext(s.con.t, m.addr, i + 1, true) else Invoke(s.con.t, m.addr, i)
      invariant s'.delivered == s.delivered
      invariant |p.nodes| + budget' <= old(|p.nodes|) + budget
      invariant Grown(p)
      decreases slots.Length - i, !stopped
    {
      steps', s', budget', stopped := Offer(p, slots, m, i, cfg, s0, steps', s', budget');
      if !stopped { i := i + 1; }
    }
    if !stopped {
      ChainEndStep(cfg, s');
      Go(cfg, s0, steps', s', Tick);
      steps', s' := steps' + [Tick], Do(cfg, s', Tick);
    }
    ChainRan(p, slots, cfg, s0, steps, s, steps', s');
  }

  /** `since` are the answers of the occupied slots below `reach`, one each and in slot order; the chain was
      cut short exactly if the last of them was "stop", and otherwise reached every slot. */
  ghost predicate RanChain(since: seq<Answer>, slots: seq<Slot>, reach: nat, stopped: bool) {
    && |since| == |Occupants(slots, reach)| && AnsweredBy(since, Occupants(slots, reach))
    && ChainAnswers(since, stopped) && ChainDone(slots, reach, stopped)
  }

  lemma ChainRan(p: Pipeline, slots: array<Slot>, cfg: Config, s0: State,
                 steps: seq<Step>, s: State, steps': seq<Step>, s': State)
    requires Inv(cfg, s0) && Trail(cfg, s0, steps, s) && Trail(cfg, s0, steps', s') && Sync(p, slots, cfg, s')
    requires s.con.Invoke? && s.con.i == 0 && s'.con.ReadNext? && s'.delivered == s.delivered
    ensures History(s) <= p.ran
    ensures RanChain(p.ran[|History(s)|..], slots[..], s'.con.reach, s'.con.stopped)
  {
    hide Inv, Trail;
    ChainStarts(cfg, s0, steps, s);
    ChainStops(cfg, s0, steps', s');
    hide RanChain;
    assert p.ran[|History(s)|..] == s'.answers;
  }

  lemma ChainStarts(cfg: Config, s0: State, steps: seq<Step>, s: State)
    requires Inv(cfg, s0) && Trail(cfg, s0, steps, s) && s.con.Invoke? && s.con.i == 0
    ensures History(s) == AllAnswers(s.delivered)
  {
    TrailInv(cfg, s0, steps, s);
    NoAnswersYet(s);
  }

  lemma ChainStops(cfg: Config, s0: State, steps: seq<Step>, s: State)
    requires Inv(cfg, s0) && Trail(cfg, s0, steps, s) && s.con.ReadNext?
    ensures RanChain(s.answers, s.reg.slots, s.con.reach, s.con.stopped)
  {
    TrailInv(cfg, s0, steps, s);
  }

  /** The step relation's account of a callback that has returned. */
  lemma ReturnStep(cfg: Config, s: State, b: MsgBuf, res: int)
    requires s.con.InCallback? && s.q.list != [] && s.con.m == s.q.list[0].addr
    requires CallbackMay(s.con.h, s.q.list[0].buf, b, res)
    ensures Enabled(cfg, s, Return(b, res))
    ensures var s' := Do(cfg, s, Return(b, res));
            && s'.q == s.q.(list := s.q.list[0 := s.q.list[0].(buf := b)])
            && s'.con == (if res == MSG_STOP then ReadNext(s.con.t, s.con.m, s.con.i + 1, true)
                          else Invoke(s.con.t, s.con.m, s.con.i + 1))
            && s'.reg == s.reg && SameSignals(s, s')
            && s'.delivered == s.delivered && s'.answers == s.answers + [Answer(s.con.h, res)]
            && History(s') == History(s) + [Answer(s.con.h, res)]
  {
    assert Find(s.q.list, s.con.m) == 0;
    assert AllAnswers(s.delivered) + (s.answers + [Answer(s.con.h, res)]) == History(s) + [Answer(s.con.h, res)];
  }

  /** The running callback does its work and returns. */
  method FinishCall(p: Pipeline, slots: array<Slot>, m: Msg, h: Handler, ghost cfg: Config,
                    ghost s0: State, ghost steps: seq<Step>, ghost s: State)
    returns (ghost steps': seq<Step>, ghost s': State, stopped: bool)
    requires Trail(cfg, s0, steps, s) && Sync(p, slots, cfg, s)
    requires s.con.InCallback? && s.con.h == h && p.nodes != [] && p.nodes[0] == m && s.con.m == m.addr
    modifies m`len, m.msg, p`list, p`ran
    ensures Trail(cfg, s0, steps', s') && Sync(p, slots, cfg, s')
    ensures s'.con == if stopped then ReadNext(s.con.t, m.addr, s.con.i + 1, true)
                      else Invoke(s.con.t, m.addr, s.con.i + 1)
    ensures s'.delivered == s.delivered
  {
    assert m.Val() == p.list[0];
    var res := RunCallback(p, m, h);
    ghost var step := Return(p.list[0].buf, res);
    ReturnStep(cfg, s, p.list[0].buf, res);
    Go(cfg, s0, steps, s, step);
    steps', s' := steps + [step], Do(cfg, s, step);
    stopped := res == MSG_STOP;
  }

  /** A window, then the call in progress runs to its end. */
  method CallHandler(p: Pipeline, slots: array<Slot>, m: Msg, h: Handler, ghost cfg: Config,
                     ghost s0: State, ghost steps: seq<Step>, ghost s: State, ghost budget: nat)
    returns (ghost steps': seq<Step>, ghost s': State, ghost budget': nat, stopped: bool)
    requires Inv(cfg, s0) && Trail(cfg, s0, steps, s) && Sync(p, slots, cfg, s)
    requires s.con.InCallback? && s.con.h == h && p.nodes != [] && p.nodes[0] == m && s.con.m == m.addr
    modifies p, p.nodes, m.msg
    ensures Trail(cfg, s0, steps', s') && Sync(p, slots, cfg, s')
    ensures s'.con == if stopped then ReadNext(s.con.t, m.addr, s.con.i + 1, true)
                      else Invoke(s.con.t, m.addr, s.con.i + 1)
    ensures s'.delivered == s.delivered
    ensures |p.nodes| + budget' <= old(|p.nodes|) + budget
    ensures Grown(p)
  {
    hide Inv, Trail;
    steps', s', budget' := Interrupt(p, slots, cfg, s0, steps, s, budget);
    steps', s', stopped := FinishCall(p, slots, m, h, cfg, s0, steps', s');
  }

  lemma OfferStep(cfg: Config, s: State, i: nat)
    requires s.con.Invoke? && s.con.i == i < |s.reg.slots|
    ensures Enabled(cfg, s, Tick)
    ensures var s' := Do(cfg, s, Tick);
            && s'.q == s.q && s'.reg == s.reg && SameSignals(s, s')
            && s'.delivered == s.delivered && s'.answers == s.answers
            && s'.con == if s.reg.slots[i].Some? then InCallback(s.con.t, s.con.m, i, s.reg.slots[i].value)
                         else Invoke(s.con.t, s.con.m, i + 1)
  {
  }

  /** A window, then the event thread looks at slot i. */
  method LookAtSlot(p: Pipeline, slots: array<Slot>, i: nat, ghost cfg: Config,
                    ghost s0: State, ghost steps: seq<Step>, ghost s: State, ghost budget: nat)
    returns (ghost steps': seq<Step>, ghost s': State, ghost budget': nat)
    requires Inv(cfg, s0) && Trail(cfg, s0, steps, s) && Sync(p, slots, cfg, s) && i < slots.Length
    requires s.con.Invoke? && s.con.i == i
    modifies p, p.nodes
    ensures Trail(cfg, s0, steps', s') && Sync(p, slots, cfg, s')
    ensures s'.con == if slots[i].Some? then InCallback(s.con.t, s.con.m, i, slots[i].value)
                      else Invoke(s.con.t, s.con.m, i + 1)
    ensures s'.delivered == s.delivered
    ensures |p.nodes| + budget' <= old(|p.nodes|) + budget
    ensures Grown(p)
  {
    hide Inv, Trail;
    steps', s', budget' := Interrupt(p, slots, cfg, s0, steps, s, budget);
    assert slots[i] == s'.reg.slots[i];
    OfferStep(cfg, s', i);
    Go(cfg, s0, steps', s', Tick);
    steps', s' := steps' + [Tick], Do(cfg, s', Tick);
  }

  /** One round of the loop of invoke_handlers. */
  method Offer(p: Pipeline, slots: array<Slot>, m: Msg, i: nat, ghost cfg: Config,
               ghost s0: State, ghost steps: seq<Step>, ghost s: State, ghost budget: nat)
    returns (ghost steps': seq<Step>, ghost s': State, ghost budget': nat, stopped: bool)
    requires Inv(cfg, s0) && Trail(cfg, s0, steps, s) && Sync(p, slots, cfg, s) && i < slots.Length
    requires s.con.Invoke? && s.con.i == i && p.nodes != [] && p.nodes[0] == m && s.con.m == m.addr
    modifies p, p.nodes, m.msg
    ensures Trail(cfg, s0, steps', s') && Sync(p, slots, cfg, s')
    ensures s'.con == if stopped then ReadNext(s.con.t, m.addr, i + 1, true) else Invoke(s.con.t, m.addr, i + 1)
    ensures s'.delivered == s.delivered
    ensures |p.nodes| + budget' <= old(|p.nodes|) + budget
    ensures Grown(p)
  {
    hide Inv, Trail;
    steps', s', budget' := LookAtSlot(p, slots, i, cfg, s0, steps, s, budget);
    stopped := false;
    if slots[i].Some? {
      steps', s', budget', stopped := CallHandler(p, slots, m, slots[i].value, cfg, s0, steps', s', budget');
    }
  }

  ghost function AddrOf(m: Msg?): nat {
    if m == null then 0 else m.addr
  }

  lemma ReadNextStep(cfg: Config, s: State)
    requires s.con.ReadNext? && s.q.list != [] && s.con.m == s.q.list[0].addr
    ensures Enabled(cfg, s, Tick)
    ensures Do(cfg, s, Tick) ==
            s.(con := RemoveCheck(s.con.t, s.con.m, SecondAddr(s.q.list), s.con.reach, s.con.stopped))
  {
    assert Find(s.q.list, s.con.m) == 0;
  }

  /** A window, then n = m->next. */
  method LoadNext(p: Pipeline, slots: array<Slot>, m: Msg, ghost cfg: Config,
                  ghost s0: State, ghost steps: seq<Step>, ghost s: State, ghost budget: nat)
    returns (n: Msg?, ghost steps': seq<Step>, ghost s': State, ghost budget': nat)
    requires Inv(cfg, s0) && Trail(cfg, s0, steps, s) && Sync(p, slots, cfg, s)
    requires s.con.ReadNext? && p.nodes != [] && p.nodes[0] == m && s.con.m == m.addr
    modifies p, p.nodes
    ensures Trail(cfg, s0, steps', s') && Sync(p, slots, cfg, s')
    ensures s'.con == RemoveCheck(s.con.t, s.con.m, AddrOf(n), s.con.reach, s.con.stopped)
    ensures n == NodeAt(p.nodes, 1)
    ensures |p.nodes| + budget' <= old(|p.nodes|) + budget
    ensures Grown(p)
  {
    hide Inv, Trail;
    steps', s', budget' := Interrupt(p, slots, cfg, s0, steps, s, budget);
    assert m.Val() == p.list[0];
    n := m.next;
    assert n == NodeAt(p.nodes, 1);
    assert n != null ==> n.Val() == p.list[1];
    steps', s' := ReadGo(cfg, s0, steps', s');
  }

  lemma ReadGo(cfg: Config, s0: State, steps: seq<Step>, s: State) returns (steps': seq<Step>, s': State)
    requires Trail(cfg, s0, steps, s) && s.con.ReadNext? && s.q.list != [] && s.con.m == s.q.list[0].addr
    ensures Trail(cfg, s0, steps', s')
    ensures s' == s.(con := RemoveCheck(s.con.t, s.con.m, SecondAddr(s.q.list), s.con.reach, s.con.stopped))
  {
    ReadNextStep(cfg, s);
    Go(cfg, s0, steps, s, Tick);
    steps', s' := steps + [Tick], Do(cfg, s, Tick);
  }

  /** A window, then the test of g_head before the critical section, which never fails here. */
  method CheckHead(p: Pipeline, slots: array<Slot>, ghost cfg: Config,
                   ghost s0: State, ghost steps: seq<Step>, ghost s: State, ghost budget: nat)
    returns (ghost steps': seq<Step>, ghost s': State, ghost budget': nat)
    requires Inv(cfg, s0) && Trail(cfg, s0, steps, s) && Sync(p, slots, cfg, s)
    requires s.con.RemoveCheck? && p.nodes != []
    modifies p, p.nodes
    ensures Trail(cfg, s0, steps', s') && Sync(p, slots, cfg, s')
    ensures s'.con == Remove(s.con.t, s.con.m, s.con.n, s.con.reach, s.con.stopped)
    ensures |p.nodes| + budget' <= old(|p.nodes|) + budget
    ensures Grown(p)
  {
    hide Inv, Trail;
    steps', s', budget' := Interrupt(p, slots, cfg, s0, steps, s, budget);
    assert s'.q.list != [];
    Go(cfg, s0, steps', s', Tick);
    steps', s' := steps' + [Tick], Do(cfg, s', Tick);
  }

  lemma RemoveStep(cfg: Config, s: State)
    requires s.con.Remove? && s.q.list != [] && s.con.m == s.q.list[0].addr
    ensures Enabled(cfg, s, Tick)
    ensures var s' := Do(cfg, s, Tick);
            && s'.q == RemoveDelete(s.q, s.con.m) && s'.con == LoopTest(s.con.t, s.con.n)
            && s'.reg == s.reg && SameSignals(s, s') && History(s') == History(s)
  {
    assert Find(s.q.list, s.con.m) == 0;
    var d := Delivery(s.q.list[0].sent, s.reg.slots, s.con.reach, s.con.stopped, s.answers);
    assert (s.delivered + [d])[..|s.delivered|] == s.delivered;
    assert History(Do(cfg, s, Tick)) == AllAnswers(s.delivered + [d]);
  }

  lemma RemoveGo(cfg: Config, s0: State, steps: seq<Step>, s: State) returns (steps': seq<Step>, s': State)
    requires Inv(cfg, s0) && Trail(cfg, s0, steps, s) && s.con.Remove?
    ensures QueueInv(cfg, s.q) && Trail(cfg, s0, steps', s')
    ensures s'.q == RemoveDelete(s.q, s.con.m) && s'.con == LoopTest(s.con.t, s.con.n)
    ensures s'.reg == s.reg && SameSignals(s, s') && History(s') == History(s)
  {
    TrailInv(cfg, s0, steps, s);
    RemoveStep(cfg, s);
    Go(cfg, s0, steps, s, Tick);
    steps', s' := steps + [Tick], Do(cfg, s, Tick);
  }

  /** remove_delete_msg on the head of the list. */
  method FreeHead(p: Pipeline, m: Msg, ghost cfg: Config)
    requires p.Valid() && QueueInv(cfg, p.Q()) && p.nodes != [] && p.nodes[0] == m
    modifies p`head, p`free, p`nodes, p`list, p`freed, p.nodes
    ensures p.Valid() && p.Q() == RemoveDelete(old(p.Q()), m.addr)
    ensures p.nodes == old(p.nodes)[1..]
  {
    UniqueAddr(p, m, p.Q(), cfg);
    p.RemoveDeleteMsg(m);
  }

  /** remove_delete_msg on the message under the cursor is one step of the step relation. */
  method CriticalSection(p: Pipeline, slots: array<Slot>, m: Msg, ghost cfg: Config,
                         ghost s0: State, ghost steps: seq<Step>, ghost s: State)
    returns (ghost steps': seq<Step>, ghost s': State)
    requires Inv(cfg, s0) && Trail(cfg, s0, steps, s) && Sync(p, slots, cfg, s)
    requires s.con.Remove? && p.nodes != [] && p.nodes[0] == m && s.con.m == m.addr
    modifies p`head, p`free, p`nodes, p`list, p`freed, p.nodes
    ensures Trail(cfg, s0, steps', s') && Sync(p, slots, cfg, s')
    ensures s'.con == LoopTest(s.con.t, s.con.n)
    ensures p.nodes == old(p.nodes)[1..]
  {
    hide Inv, Trail, QueueInv;
    steps', s' := RemoveGo(cfg, s0, steps, s);
    FreeHead(p, m, cfg);
  }

  /** A window, then the critical section. */
  method RemoveHead(p: Pipeline, slots: array<Slot>, m: Msg, ghost cfg: Config,
                    ghost s0: State, ghost steps: seq<Step>, ghost s: State, ghost budget: nat)
    returns (ghost steps': seq<Step>, ghost s': State, ghost budget': nat)
    requires Inv(cfg, s0) && Trail(cfg, s0, steps, s) && Sync(p, slots, cfg, s)
    requires s.con.Remove? && p.nodes != [] && p.nodes[0] == m && s.con.m == m.addr
    modifies p, p.nodes
    ensures Trail(cfg, s0, steps', s') && Sync(p, slots, cfg, s')
    ensures s'.con == LoopTest(s.con.t, s.con.n)
    ensures |p.nodes| + budget' < old(|p.nodes|) + budget
    ensures |old(p.nodes)| > 1 ==> p.nodes != [] && p.nodes[0] == old(p.nodes)[1]
    ensures Known(p)
  {
    hide Inv, Trail;
    steps', s', budget' := Interrupt(p, slots, cfg, s0, steps, s, budget);
    steps', s' := CriticalSection(p, slots, m, cfg, s0, steps', s');
  }

  lemma UniqueAddr(p: Pipeline, m: Msg, q: Queue, cfg: Config)
    requires p.Valid() && p.Q() == q && QueueInv(cfg, q) && p.nodes != [] && p.nodes[0] == m
    ensures Find(p.list, m.addr) == 0
    ensures forall i :: 0 <= i < |p.nodes| && p.nodes[i].addr == m.addr ==> p.nodes[i] == m
  {
    forall i | 0 <= i < |p.nodes| && p.nodes[i].addr == m.addr ensures p.nodes[i] == m {
      assert p.nodes[i].Val() == p.list[i] && p.nodes[0].Val() == p.list[0];
    }
    assert p.nodes[0].Val() == p.list[0];
  }

  /** Every node of the list was in it before or was allocated since. */
  twostate predicate Known(p: Pipeline)
    reads p
  {
    forall i {:trigger p.nodes[i]} :: 0 <= i < |p.nodes| ==>
      p.nodes[i] in old(p.nodes) || (fresh(p.nodes[i]) && fresh(p.nodes[i].msg))
  }

  lemma EnterStep(cfg: Config, s: State)
    requires s.con.LoopTest? || s.con.FlushEntry?
    ensures Enabled(cfg, s, Tick)
    ensures Do(cfg, s, Tick) ==
            if s.con.FlushEntry? then s.(con := LoopTest(s.con.t, HeadAddr(s.q.list)))
            else s.(con := if s.con.m == 0 then Signal(s.con.t) else Invoke(s.con.t, s.con.m, 0))
  {
  }

  /** Up to the critical section. A successor read here stays the successor. */
  method BeforeRemoval(p: Pipeline, slots: array<Slot>, m: Msg, ghost cfg: Config,
                       ghost s0: State, ghost steps: seq<Step>, ghost s: State, ghost budget: nat)
    returns (n: Msg?, ghost steps': seq<Step>, ghost s': State, ghost budget': nat)
    requires Inv(cfg, s0) && Trail(cfg, s0, steps, s) && Sync(p, slots, cfg, s)
    requires s.con.ReadNext? && p.nodes != [] && p.nodes[0] == m && s.con.m == m.addr
    modifies p, p.nodes
    ensures Trail(cfg, s0, steps', s') && Sync(p, slots, cfg, s')
    ensures s'.con == Remove(s.con.t, m.addr, AddrOf(n), s.con.reach, s.con.stopped)
    ensures n != null ==> n == NodeAt(p.nodes, 1)
    ensures |p.nodes| + budget' <= old(|p.nodes|) + budget
    ensures Grown(p)
  {
    hide Inv, Trail;
    n, steps', s', budget' := LoadNext(p, slots, m, cfg, s0, steps, s, budget);
    steps', s', budget' := CheckHead(p, slots, cfg, s0, steps', s', budget');
  }

  /** From reading m->next to the end of the round. */
  method Retire(p: Pipeline, slots: array<Slot>, m: Msg, ghost cfg: Config,
                ghost s0: State, ghost steps: seq<Step>, ghost s: State, ghost budget: nat)
    returns (n: Msg?, ghost steps': seq<Step>, ghost s': State, ghost budget': nat)
    requires Inv(cfg, s0) && Trail(cfg, s0, steps, s) && Sync(p, slots, cfg, s)
    requires s.con.ReadNext? && p.nodes != [] && p.nodes[0] == m && s.con.m == m.addr
    modifies p, p.nodes
    ensures Trail(cfg, s0, steps', s') && Sync(p, slots, cfg, s')
    ensures s'.con == LoopTest(s.con.t, AddrOf(n))
    ensures n != null ==> p.nodes != [] && p.nodes[0] == n
    ensures |p.nodes| + budget' < old(|p.nodes|) + budget
    ensures Known(p)
  {
    hide Inv, Trail;
    n, steps', s', budget' := BeforeRemoval(p, slots, m, cfg, s0, steps, s, budget);
    steps', s', budget' := RemoveHead(p, slots, m, cfg, s0, steps', s', budget');
  }

  /** One round of the loop of flush_messages. */
  method Round(p: Pipeline, slots: array<Slot>, m: Msg, ghost cfg: Config,
               ghost s0: State, ghost steps: seq<Step>, ghost s: State, ghost budget: nat)
    returns (n: Msg?, ghost steps': seq<Step>, ghost s': State, ghost budget': nat)
    requires Inv(cfg, s0) && Trail(cfg, s0, steps, s) && Sync(p, slots, cfg, s)
    requires s.con.LoopTest? && p.nodes != [] && p.nodes[0] == m && s.con.m == m.addr != 0
    modifies p, p.nodes, m.msg
    ensures Trail(cfg, s0, steps', s') && Sync(p, slots, cfg, s')
    ensures s'.con == LoopTest(s.con.t, AddrOf(n))
    ensures n != null ==> p.nodes != [] && p.nodes[0] == n
    ensures |p.nodes| + budget' < old(|p.nodes|) + budget
    ensures Known(p)
  {
    hide Inv, Trail;
    EnterStep(cfg, s);
    Go(cfg, s0, steps, s, Tick);
    steps', s' := steps + [Tick], Do(cfg, s, Tick);
    steps', s', budget' := InvokeHandlers(p, slots, m, cfg, s0, steps', s', budget);
    n, steps', s', budget' := Retire(p, slots, m, cfg, s0, steps', s', budget');
  }

  lemma BeginFlush(p: Pipeline, slots: array<Slot>, cfg: Config, s0: State) returns (steps: seq<Step>, s: State)
    requires Inv(cfg, s0) && Sync(p, slots, cfg, s0) && s0.con.FlushEntry?
    ensures Trail(cfg, s0, steps, s) && Sync(p, slots, cfg, s)
    ensures s.con == LoopTest(s0.con.t, AddrOf(p.head))
    ensures p.head != null ==> p.nodes != [] && p.nodes[0] == p.head
  {
    EnterStep(cfg, s0);
    HeadAddress(p, cfg, s0.q);
    Go(cfg, s0, [], s0, Tick);
    steps, s := [] + [Tick], Do(cfg, s0, Tick);
  }

  lemma EndFlush(p: Pipeline, slots: array<Slot>, cfg: Config, s0: State, steps: seq<Step>, s: State)
    returns (steps': seq<Step>, s': State)
    requires Inv(cfg, s0) && Trail(cfg, s0, steps, s) && Sync(p, slots, cfg, s) && s.con.LoopTest? && s.con.m == 0
    ensures Trail(cfg, s0, steps', s') && Sync(p, slots, cfg, s') && s'.con == Signal(s.con.t)
    ensures p.head != null ==> p.flush
    ensures p.freed + Sents(p.list) == p.accepted
    ensures p.ran == AllAnswers(s'.delivered) && AnsweredInv(s'.delivered)
  {
    EnterStep(cfg, s);
    Go(cfg, s0, steps, s, Tick);
    steps', s' := steps + [Tick], Do(cfg, s, Tick);
    NothingLost(cfg, s0, steps', s');
    AllAnswered(cfg, s0, steps', s');
    assert p.Q() == s'.q;
  }

  lemma NothingLost(cfg: Config, s0: State, steps: seq<Step>, s: State)
    requires Inv(cfg, s0) && Trail(cfg, s0, steps, s) && s.con.Signal?
    ensures (s.q.list != [] ==> s.q.flush) && s.q.freed + Sents(s.q.list) == s.q.accepted
  {
    TrailInv(cfg, s0, steps, s);
  }

  lemma AllAnswered(cfg: Config, s0: State, steps: seq<Step>, s: State)
    requires Inv(cfg, s0) && Trail(cfg, s0, steps, s) && s.con.Signal?
    ensures History(s) == AllAnswers(s.delivered) && AnsweredInv(s.delivered)
  {
    TrailInv(cfg, s0, steps, s);
    NoAnswersYet(s);
  }

  lemma NoAnswersYet(s: State)
    requires AnswersInv(s.con, s.answers, s.reg.slots) && Offered(s.con) == 0
    ensures History(s) == AllAnswers(s.delivered)
  {
  }

  /** flush_messages with interrupts on. Whatever the other threads do meanwhile, the loop ends,
      its execution is a run of the step relation from the entry of the flush to its semaphore
      signal, and if it leaves messages behind then EV_FLUSH is pending. */
  method FlushMessages(p: Pipeline, slots: array<Slot>, ghost cfg: Config, ghost s0: State, ghost budget: nat)
    returns (ghost steps: seq<Step>, ghost s: State)
    requires Inv(cfg, s0) && Sync(p, slots, cfg, s0) && s0.con.FlushEntry?
    modifies p, p.nodes, set i | 0 <= i < |p.nodes| :: p.nodes[i].msg
    ensures Trail(cfg, s0, steps, s) && Sync(p, slots, cfg, s) && s.con == Signal(s0.con.t)
    ensures p.head != null ==> p.flush
    ensures p.freed + Sents(p.list) == p.accepted
    ensures p.ran == AllAnswers(s.delivered) && AnsweredInv(s.delivered)
    ensures Known(p)
  {
    hide Inv, Trail, Sync;
    ghost var left := budget;
    steps, s := BeginFlush(p, slots, cfg, s0);
    var m := p.head;
    while m != null
      invariant Trail(cfg, s0, steps, s) && Sync(p, slots, cfg, s)
      invariant s.con == LoopTest(s0.con.t, AddrOf(m))
      invariant m != null ==> p.nodes != [] && p.nodes[0] == m
      invariant Known(p)
      decreases |p.nodes| + left
    {
      HeadNotZero(p, slots, m, cfg, s0, steps, s);
      m, steps, s, left := Round(p, slots, m, cfg, s0, steps, s, left);
    }
    steps, s := EndFlush(p, slots, cfg, s0, steps, s);
  }

  lemma HeadNotZero(p: Pipeline, slots: array<Slot>, m: Msg, cfg: Config, s0: State, steps: seq<Step>, s: State)
    requires Inv(cfg, s0) && Trail(cfg, s0, steps, s) && Sync(p, slots, cfg, s)
    requires p.nodes != [] && p.nodes[0] == m
    ensures m.addr != 0
  {
    TrailInv(cfg, s0, steps, s);
    HeadAddress(p, cfg, s.q);
  }

  /** g_head is NULL exactly when nothing is queued, and no block has address 0. */
  lemma HeadAddress(p: Pipeline, cfg: Config, q: Queue)
    requires p.Valid() && p.Q() == q && QueueInv(cfg, q)
    ensures AddrOf(p.head) == HeadAddr(q.list)
    ensures p.head != null <==> HeadAddr(q.list) != 0
  {
    if p.nodes != [] { assert p.nodes[0].Val() == p.list[0]; }
  }
}
