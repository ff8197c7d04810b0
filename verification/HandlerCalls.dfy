/** register_handler and unregister_handler over the real globals: each call competes with the flush
    and with other callers for the semaphore. */
module HandlerCalls {
  import opened Base
  import opened Registry
  import opened Protocol
  import opened ProtocolInvariants
  import opened ProtocolTheorems
  import opened MessageList
  import opened FlushLoop

  /** The library's globals, the registry's count and default index among them, are as the step relation
      says they are. */
  ghost predicate Globals(p: Pipeline, table: HandlerTable, cfg: Config, s: State)
    reads p, p.nodes, set i | 0 <= i < |p.nodes| :: p.nodes[i].msg, table, table.slots
  {
    Sync(p, table.slots, cfg, s) && table.View() == s.reg
  }

  /** A step of some other thread than caller `tid`. */
  predicate NotBy(tid: nat, step: Step) {
    step.ClientEnter? || step.ClientTick? || step.ClientError? ==> step.tid != tid
  }

  predicate SameCaller(s: State, s': State, tid: nat) {
    && (tid in s'.clients <==> tid in s.clients)
    && (tid in s.clients ==> s'.clients[tid] == s.clients[tid])
  }

  lemma OtherStep(cfg: Config, s: State, step: Step, tid: nat)
    requires Enabled(cfg, s, step) && NotBy(tid, step)
    ensures SameCaller(s, Do(cfg, s, step), tid)
  {
  }

  lemma {:induction false} OthersKeepCaller(cfg: Config, s: State, steps: seq<Step>, tid: nat)
    requires Feasible(cfg, s, steps) && forall k :: 0 <= k < |steps| ==> NotBy(tid, steps[k])
    ensures SameCaller(s, Run(cfg, s, steps), tid)
    decreases |steps|
  {
    if steps != [] {
      OtherStep(cfg, s, steps[0], tid);
      OthersKeepCaller(cfg, Do(cfg, s, steps[0]), steps[1..], tid);
    }
  }

  /** What the other threads do meanwhile; this body stands for every behaviour of the contract. */
  method Others(p: Pipeline, table: HandlerTable, ghost tid: nat, ghost cfg: Config, ghost s: State)
    returns (ghost steps: seq<Step>, ghost s': State)
    requires Globals(p, table, cfg, s)
    modifies p, p.nodes, set i | 0 <= i < |p.nodes| :: p.nodes[i].msg, table, table.slots
    ensures Trail(cfg, s, steps, s') && (forall k :: 0 <= k < |steps| ==> NotBy(tid, steps[k]))
    ensures Globals(p, table, cfg, s') && Known(p)
  {
    steps, s' := [], s;
  }

  method Pause(p: Pipeline, table: HandlerTable, ghost tid: nat, ghost cfg: Config,
               ghost s0: State, ghost steps: seq<Step>, ghost s: State)
    returns (ghost steps': seq<Step>, ghost s': State)
    requires Trail(cfg, s0, steps, s) && Globals(p, table, cfg, s)
    modifies p, p.nodes, set i | 0 <= i < |p.nodes| :: p.nodes[i].msg, table, table.slots
    ensures Trail(cfg, s0, steps', s') && Globals(p, table, cfg, s') && SameCaller(s, s', tid)
    ensures Known(p)
  {
    ghost var more;
    more, s' := Others(p, table, tid, cfg, s);
    steps' := steps + more;
    OthersKeepCaller(cfg, s, more, tid);
    Concat(cfg, s0, steps, s, more, s');
  }

  lemma CallerSteps(cfg: Config, s: State, tid: nat)
    requires tid in s.clients
    ensures s.clients[tid].Asking? && s.sema >= 1 ==>
              Enabled(cfg, s, ClientTick(tid))
              && Do(cfg, s, ClientTick(tid)) ==
                 s.(sema := s.sema - 1, clients := s.clients[tid := Critical(s.clients[tid].op)])
    ensures s.clients[tid].Asking? ==>
              Enabled(cfg, s, ClientError(tid))
              && Do(cfg, s, ClientError(tid)) == s.(clients := s.clients - {tid})
    ensures s.clients[tid].Critical? ==>
              && Enabled(cfg, s, ClientTick(tid))
              && var (t, ret) := Apply(s.reg, s.clients[tid].op);
                 Do(cfg, s, ClientTick(tid)) ==
                 s.(reg := t, clients := s.clients[tid := Leaving(s.clients[tid].op, ret)],
                    log := s.log + OpEvents(s.reg, s.clients[tid].op))
    ensures s.clients[tid].Leaving? ==>
              Enabled(cfg, s, ClientTick(tid))
              && Do(cfg, s, ClientTick(tid)) == s.(sema := SignalSema(s.sema), clients := s.clients - {tid})
  {
  }

  /** sceKernelWaitSema. `failing` stands for the kernel's reasons to fail. */
  method WaitSema(p: Pipeline, table: HandlerTable, failing: bool, ghost tid: nat, ghost cfg: Config,
                  ghost s0: State, ghost steps: seq<Step>, ghost s: State)
    returns (ok: bool, ghost steps': seq<Step>, ghost s': State)
    requires Trail(cfg, s0, steps, s) && Globals(p, table, cfg, s) && tid in s.clients && s.clients[tid].Asking?
    modifies p, p.nodes, set i | 0 <= i < |p.nodes| :: p.nodes[i].msg, table, table.slots
    ensures Trail(cfg, s0, steps', s') && Globals(p, table, cfg, s')
    ensures if ok then tid in s'.clients && s'.clients[tid] == Critical(s.clients[tid].op) else tid !in s'.clients
    ensures !ok ==> failing || s'.sema == 0
    ensures Known(p)
  {
    hide Trail;
    steps', s' := Pause(p, table, tid, cfg, s0, steps, s);
    CallerSteps(cfg, s', tid);
    ok := p.sema >= 1 && !failing;
    ghost var step := if ok then ClientTick(tid) else ClientError(tid);
    if ok { p.sema := p.sema - 1; }
    Go(cfg, s0, steps', s', step);
    steps', s' := steps' + [step], Do(cfg, s', step);
  }

  /** The registry is changed; `steps'` without its last step leads to the state `at` this happens in. */
  method Locked(p: Pipeline, table: HandlerTable, op: Op, ghost tid: nat, ghost cfg: Config,
                ghost s0: State, ghost steps: seq<Step>, ghost s: State)
    returns (ret: int, ghost before: seq<Step>, ghost at: State, ghost s': State)
    requires Trail(cfg, s0, steps, s) && Globals(p, table, cfg, s) && tid in s.clients && s.clients[tid] == Critical(op)
    modifies p, p.nodes, set i | 0 <= i < |p.nodes| :: p.nodes[i].msg, table, table.slots
    ensures Trail(cfg, s0, before, at) && tid in at.clients && at.clients[tid] == Critical(op)
    ensures Trail(cfg, s0, before + [ClientTick(tid)], s') && Globals(p, table, cfg, s')
    ensures (s'.reg, ret) == Apply(at.reg, op) && tid in s'.clients && s'.clients[tid] == Leaving(op, ret)
    ensures Known(p)
  {
    hide Trail;
    before, at := Pause(p, table, tid, cfg, s0, steps, s);
    CallerSteps(cfg, at, tid);
    ret := table.ApplyLocked(op);
    Go(cfg, s0, before, at, ClientTick(tid));
    s' := Do(cfg, at, ClientTick(tid));
  }

  /** sceKernelSignalSema(g_semid, 1): an error, and no change, if the count is at its maximum already. */
  method Signal(p: Pipeline, overflow: int) returns (ret: int)
    requires overflow < 0
    modifies p`sema
    ensures ret == (if old(p.sema) < 1 then 0 else overflow) && p.sema == SignalSema(old(p.sema))
  {
    if p.sema >= 1 { return overflow; }
    p.sema := p.sema + 1;
    return 0;
  }

  /** The caller that leaves still holds the semaphore, so its count is 0. */
  lemma NoOverflow(cfg: Config, s0: State, steps: seq<Step>, s: State, between: seq<Step>, t: State, tid: nat)
    requires Inv(cfg, s0) && Trail(cfg, s0, steps, s) && Trail(cfg, s, between, t)
    requires tid in t.clients && t.clients[tid].Leaving?
    ensures t.sema == 0
  {
    TrailInv(cfg, s0, steps, s);
    TrailInv(cfg, s, between, t);
    OnlyHolder(t.sema, ThreadHolds(t.con), t.clients, Caller(tid));
  }

  /** The semaphore is given back, which cannot fail. */
  method Leave(p: Pipeline, table: HandlerTable, overflow: int, ghost tid: nat, ghost cfg: Config,
               ghost s0: State, ghost steps: seq<Step>, ghost s: State)
    returns (sret: int, ghost more: seq<Step>, ghost s': State)
    requires Inv(cfg, s0) && overflow < 0
    requires Trail(cfg, s0, steps, s) && Globals(p, table, cfg, s) && tid in s.clients && s.clients[tid].Leaving?
    modifies p, p.nodes, set i | 0 <= i < |p.nodes| :: p.nodes[i].msg, table, table.slots
    ensures Trail(cfg, s0, steps + more, s') && Globals(p, table, cfg, s') && tid !in s'.clients
    ensures sret == 0
    ensures Known(p)
  {
    hide Inv, Trail;
    EmptyTrail(cfg, s);
    ghost var between, t := Pause(p, table, tid, cfg, s, [], s);
    CallerSteps(cfg, t, tid);
    NoOverflow(cfg, s0, steps, s, between, t, tid);
    sret := Signal(p, overflow);
    Go(cfg, s, between, t, ClientTick(tid));
    more, s' := between + [ClientTick(tid)], Do(cfg, t, ClientTick(tid));
    Concat(cfg, s0, steps, s, more, s');
  }

  lemma EmptyTrail(cfg: Config, s: State)
    ensures Trail(cfg, s, [], s)
  {
  }

  /** How a call that was let in ended: its semaphore wait failed, or it changed the registry in the state
      `before` leads to. */
  datatype Outcome = Failed | Changed(before: seq<Step>, at: State)

  /** From the semaphore wait to the signal, however the other threads interleave. */
  method UnderSema(p: Pipeline, table: HandlerTable, op: Op, failing: bool, error: int, overflow: int,
                   ghost tid: nat, ghost cfg: Config, ghost s0: State)
    returns (ret: int, ghost outcome: Outcome, ghost steps: seq<Step>, ghost s: State)
    requires Inv(cfg, s0) && error < 0 && overflow < 0
    requires Globals(p, table, cfg, s0) && p.started && tid !in s0.clients && OpOk(op)
    modifies p, p.nodes, set i | 0 <= i < |p.nodes| :: p.nodes[i].msg, table, table.slots
    ensures Trail(cfg, s0, steps, s) && Globals(p, table, cfg, s) && tid !in s.clients
    ensures Ended(cfg, s0, steps, s, tid, op, outcome, failing, error, ret)
  {
    hide Inv, Trail, Globals;
    steps, s := Enter(p, table, tid, op, cfg, s0);
    var ok;
    ok, steps, s := WaitSema(p, table, failing, tid, cfg, s0, steps, s);
    if ok {
      ghost var before, at, more;
      ret, before, at, s := Locked(p, table, op, tid, cfg, s0, steps, s);
      var sret;
      sret, more, s := Leave(p, table, overflow, tid, cfg, s0, before + [ClientTick(tid)], s);
      steps, outcome := before + [ClientTick(tid)] + more, Changed(before, at);
      if sret < 0 { ret := sret; }
    } else {
      ret, outcome := error, Failed;
    }
  }

  lemma EnterStep(cfg: Config, s: State, tid: nat, op: Op)
    requires s.gstate == Started && tid !in s.clients && OpOk(op)
    ensures Enabled(cfg, s, ClientEnter(tid, op))
    ensures Do(cfg, s, ClientEnter(tid, op)) == s.(clients := s.clients[tid := Asking(op)])
  {
  }

  lemma Enter(p: Pipeline, table: HandlerTable, tid: nat, op: Op, cfg: Config, s0: State)
    returns (steps: seq<Step>, s: State)
    requires Globals(p, table, cfg, s0) && p.started && tid !in s0.clients && OpOk(op)
    ensures Trail(cfg, s0, steps, s) && Globals(p, table, cfg, s)
    ensures tid in s.clients && s.clients[tid] == Asking(op)
  {
    EnterStep(cfg, s0, tid, op);
    Go(cfg, s0, [], s0, ClientEnter(tid, op));
    steps, s := [] + [ClientEnter(tid, op)], Do(cfg, s0, ClientEnter(tid, op));
  }

  /** What a call returns: the kernel's error if it could not wait, else the registry's answer in the state
      in which it held the semaphore. */
  ghost predicate Ended(cfg: Config, s0: State, steps: seq<Step>, s: State, tid: nat, op: Op, outcome: Outcome,
                        failing: bool, error: int, ret: int)
  {
    match outcome
    case Failed => ret == error && (failing || s.sema == 0)
    case Changed(before, at) =>
      && Trail(cfg, s0, before, at) && before + [ClientTick(tid)] <= steps
      && tid in at.clients && at.clients[tid] == Critical(op)
      && ret == Apply(at.reg, op).1
  }

  /** register_handler. On the early exits nothing happens at all; else the call is a run of the step
      relation that leaves the caller without the semaphore. `error` and `overflow` are the kernel's errors
      of the wait and of a signal beyond the maximum. */
  method RegisterHandler(p: Pipeline, table: HandlerTable, cb: Option<Handler>, isDefault: bool,
                         failing: bool, error: int, overflow: int, ghost tid: nat, ghost cfg: Config, ghost s0: State)
    returns (ret: int, ghost outcome: Outcome, ghost steps: seq<Step>, ghost s: State)
    requires Inv(cfg, s0) && Globals(p, table, cfg, s0) && tid !in s0.clients && error < 0 && overflow < 0
    requires cb.Some? ==> OpOk(Register(cb.value, isDefault))
    modifies p, p.nodes, set i | 0 <= i < |p.nodes| :: p.nodes[i].msg, table, table.slots
    ensures Trail(cfg, s0, steps, s) && Globals(p, table, cfg, s) && tid !in s.clients
    ensures !old(p.started) ==> ret == ERR_NOT_STARTED && steps == []
    ensures old(p.started) && cb.None? ==> ret == ERR_INVALID_ARGUMENT && steps == []
    ensures old(p.started) && cb.Some? ==>
              Ended(cfg, s0, steps, s, tid, Register(cb.value, isDefault), outcome, failing, error, ret)
  {
    steps, s, outcome := [], s0, Failed;
    if !p.started { return ERR_NOT_STARTED, outcome, steps, s; }
    if cb.None? { return ERR_INVALID_ARGUMENT, outcome, steps, s; }
    var op := Register(cb.value, isDefault);
    ret, outcome, steps, s := UnderSema(p, table, op, failing, error, overflow, tid, cfg, s0);
  }

  /** unregister_handler. */
  method UnregisterHandler(p: Pipeline, table: HandlerTable, index: int, failing: bool, error: int, overflow: int,
                           ghost tid: nat, ghost cfg: Config, ghost s0: State)
    returns (ret: int, ghost outcome: Outcome, ghost steps: seq<Step>, ghost s: State)
    requires Inv(cfg, s0) && Globals(p, table, cfg, s0) && tid !in s0.clients && error < 0 && overflow < 0
    modifies p, p.nodes, set i | 0 <= i < |p.nodes| :: p.nodes[i].msg, table, table.slots
    ensures Trail(cfg, s0, steps, s) && Globals(p, table, cfg, s) && tid !in s.clients
    ensures !old(p.started) ==> ret == ERR_NOT_STARTED && steps == []
    ensures old(p.started) ==>
              Ended(cfg, s0, steps, s, tid, Unregister(index), outcome, failing, error, ret)
  {
    steps, s, outcome := [], s0, Failed;
    if !p.started { return ERR_NOT_STARTED, outcome, steps, s; }
    ret, outcome, steps, s := UnderSema(p, table, Unregister(index), failing, error, overflow, tid, cfg, s0);
  }
}
