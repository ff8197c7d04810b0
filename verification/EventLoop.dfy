/** event_thread over the real globals: one turn of its loop, from a wait that returns to the next. */
module EventLoop {
  import opened Base
  import opened Registry
  import opened Protocol
  import opened ProtocolInvariants
  import opened ProtocolTheorems
  import opened MessageList
  import opened FlushLoop

  lemma {:induction false} ForeignKeepsPlace(cfg: Config, s: State, steps: seq<Step>)
    requires Feasible(cfg, s, steps) && forall k :: 0 <= k < |steps| ==> Foreign(steps[k])
    ensures Run(cfg, s, steps).con == s.con
    decreases |steps|
  {
    if steps != [] {
      var s1 := Do(cfg, s, steps[0]);
      assert s1.con == s.con;
      ForeignKeepsPlace(cfg, s1, steps[1..]);
    }
  }

  /** What other threads do while the event thread does not hold the semaphore: they may change the
      registry too. As with OtherThreads, this body stands for every behaviour of the contract. */
  method Others(p: Pipeline, slots: array<Slot>, ghost cfg: Config, ghost s: State)
    returns (ghost steps: seq<Step>, ghost s': State)
    requires Sync(p, slots, cfg, s)
    modifies p, p.nodes, slots
    ensures Trail(cfg, s, steps, s') && (forall k :: 0 <= k < |steps| ==> Foreign(steps[k]))
    ensures Sync(p, slots, cfg, s') && Known(p)
  {
    steps, s' := [], s;
  }

  /** A window between two steps of the event thread. */
  method Pause(p: Pipeline, slots: array<Slot>, ghost cfg: Config,
               ghost s0: State, ghost steps: seq<Step>, ghost s: State)
    returns (ghost steps': seq<Step>, ghost s': State)
    requires Trail(cfg, s0, steps, s) && Sync(p, slots, cfg, s)
    modifies p, p.nodes, slots
    ensures Trail(cfg, s0, steps', s') && Sync(p, slots, cfg, s') && s'.con == s.con
    ensures steps <= steps'
    ensures Known(p)
  {
    ghost var more;
    more, s' := Others(p, slots, cfg, s);
    steps' := steps + more;
    ForeignKeepsPlace(cfg, s, more);
    Concat(cfg, s0, steps, s, more, s');
  }

  lemma SemaSteps(cfg: Config, s: State)
    requires s.con.AwaitSema?
    ensures Enabled(cfg, s, SemaError) && Do(cfg, s, SemaError) == s.(con := Resend(s.con.t))
    ensures s.sema >= 1 ==>
              Enabled(cfg, s, Tick) && Do(cfg, s, Tick) == s.(con := FlushEntry(s.con.t), sema := s.sema - 1)
  {
  }

  /** On this run the event thread found the semaphore taken when its wait ended. */
  ghost predicate FoundTaken(cfg: Config, s0: State, steps: seq<Step>) {
    exists before: seq<Step> ::
      before <= steps && Feasible(cfg, s0, before)
      && Run(cfg, s0, before).con.AwaitSema? && Run(cfg, s0, before).sema == 0
  }

  lemma StillFoundTaken(cfg: Config, s0: State, steps: seq<Step>, more: seq<Step>)
    requires FoundTaken(cfg, s0, steps) && steps <= more
    ensures FoundTaken(cfg, s0, more)
  {
    var before :| before <= steps && Feasible(cfg, s0, before)
                  && Run(cfg, s0, before).con.AwaitSema? && Run(cfg, s0, before).sema == 0;
    assert before <= more;
  }

  /** sceKernelWaitSema: other threads run, then the count is taken, or the wait fails. `failing`
      stands for the kernel's reasons to fail. */
  method WaitSema(p: Pipeline, slots: array<Slot>, failing: bool,
                  ghost cfg: Config, ghost s0: State, ghost steps: seq<Step>, ghost s: State)
    returns (ret: int, ghost steps': seq<Step>, ghost s': State)
    requires Trail(cfg, s0, steps, s) && Sync(p, slots, cfg, s) && s.con.AwaitSema?
    modifies p, p.nodes, slots
    ensures Trail(cfg, s0, steps', s') && Sync(p, slots, cfg, s')
    ensures s'.con == if ret == 0 then FlushEntry(s.con.t) else Resend(s.con.t)
    ensures ret != 0 ==> failing || FoundTaken(cfg, s0, steps')
    ensures Known(p)
  {
    steps', s' := Pause(p, slots, cfg, s0, steps, s);
    assert p.sema == s'.sema;
    hide Trail, FoundTaken, Sync;
    ghost var waiting := s';
    steps', s' := WaitEnds(cfg, s0, steps', waiting, p.sema >= 1 && !failing);
    ret := Take(p, slots, failing, cfg, waiting, s');
  }

  /** The count is taken if it can be. */
  method Take(p: Pipeline, slots: array<Slot>, failing: bool, ghost cfg: Config, ghost s: State, ghost s': State)
    returns (ret: int)
    requires Sync(p, slots, cfg, s)
    requires s' == s.(con := s'.con, sema := if p.sema >= 1 && !failing then s.sema - 1 else s.sema)
    modifies p`sema
    ensures ret == if old(p.sema) >= 1 && !failing then 0 else -1
    ensures Sync(p, slots, cfg, s')
  {
    if p.sema == 0 || failing { return -1; }
    p.sema := p.sema - 1;
    return 0;
  }

  lemma WaitEnds(cfg: Config, s0: State, steps: seq<Step>, s: State, ok: bool)
    returns (steps': seq<Step>, s': State)
    requires Trail(cfg, s0, steps, s) && s.con.AwaitSema? && (ok ==> s.sema >= 1)
    ensures Trail(cfg, s0, steps', s')
    ensures s' == if ok then s.(con := FlushEntry(s.con.t), sema := s.sema - 1) else s.(con := Resend(s.con.t))
    ensures s.sema == 0 ==> FoundTaken(cfg, s0, steps')
  {
    var step := if ok then Tick else SemaError;
    SemaSteps(cfg, s);
    Go(cfg, s0, steps, s, step);
    steps', s' := steps + [step], Do(cfg, s, step);
    if s.sema == 0 {
      assert FoundTaken(cfg, s0, steps);
      StillFoundTaken(cfg, s0, steps, steps');
    }
  }

  lemma SignalStep(cfg: Config, s: State)
    requires s.con.Signal?
    ensures Enabled(cfg, s, Tick)
    ensures Do(cfg, s, Tick) == s.(con := TermCheck(s.con.t, true), sema := SignalSema(s.sema))
  {
  }

  /** sceKernelSignalSema after the flush. */
  method Release(p: Pipeline, slots: array<Slot>, ghost cfg: Config,
                 ghost s0: State, ghost steps: seq<Step>, ghost s: State)
    returns (ghost steps': seq<Step>, ghost s': State)
    requires Trail(cfg, s0, steps, s) && Sync(p, slots, cfg, s) && s.con.Signal?
    modifies p, p.nodes, slots
    ensures Trail(cfg, s0, steps', s') && Sync(p, slots, cfg, s') && s'.con == TermCheck(s.con.t, true)
    ensures Known(p)
  {
    steps', s' := Pause(p, slots, cfg, s0, steps, s);
    SignalStep(cfg, s');
    p.sema := SignalSema(p.sema);
    Go(cfg, s0, steps', s', Tick);
    steps', s' := steps' + [Tick], Do(cfg, s', Tick);
  }

  /** A flush that follows a run. */
  method Flush(p: Pipeline, slots: array<Slot>, ghost cfg: Config, ghost s0: State, ghost steps: seq<Step>,
               ghost s: State, ghost budget: nat)
    returns (ghost steps': seq<Step>, ghost s': State)
    requires Inv(cfg, s0) && Trail(cfg, s0, steps, s) && Sync(p, slots, cfg, s) && s.con.FlushEntry?
    modifies p, p.nodes, set i | 0 <= i < |p.nodes| :: p.nodes[i].msg
    ensures Trail(cfg, s0, steps', s') && Sync(p, slots, cfg, s') && s'.con == Signal(s.con.t)
    ensures Known(p)
  {
    TrailInv(cfg, s0, steps, s);
    ghost var more;
    more, s' := FlushMessages(p, slots, cfg, s, budget);
    steps' := steps + more;
    Concat(cfg, s0, steps, s, more, s');
  }

  /** The bracket of the flush and the signal that ends it. */
  method FlushAndSignal(p: Pipeline, slots: array<Slot>, ghost cfg: Config,
                        ghost s0: State, ghost steps: seq<Step>, ghost s: State, ghost budget: nat)
    returns (ghost steps': seq<Step>, ghost s': State)
    requires Inv(cfg, s0) && Trail(cfg, s0, steps, s) && Sync(p, slots, cfg, s) && s.con.FlushEntry?
    modifies p, p.nodes, slots, set i | 0 <= i < |p.nodes| :: p.nodes[i].msg
    ensures Trail(cfg, s0, steps', s') && Sync(p, slots, cfg, s') && s'.con == TermCheck(s.con.t, true)
    ensures Known(p)
  {
    hide Inv, Trail, Sync;
    steps', s' := Flush(p, slots, cfg, s0, steps, s, budget);
    steps', s' := Release(p, slots, cfg, s0, steps', s');
  }

  lemma ResendStep(cfg: Config, s: State)
    requires s.con.Resend?
    ensures Enabled(cfg, s, Tick)
    ensures Do(cfg, s, Tick) == s.(con := TermCheck(s.con.t, false), q := s.q.(flush := true))
  {
  }

  /** The event is sent again because the semaphore could not be had. */
  method SendAgain(p: Pipeline, slots: array<Slot>, ghost cfg: Config,
                   ghost s0: State, ghost steps: seq<Step>, ghost s: State)
    returns (ghost steps': seq<Step>, ghost s': State)
    requires Trail(cfg, s0, steps, s) && Sync(p, slots, cfg, s) && s.con.Resend?
    modifies p, p.nodes, slots
    ensures Trail(cfg, s0, steps', s') && Sync(p, slots, cfg, s') && s'.con == TermCheck(s.con.t, false)
    ensures steps <= steps'
    ensures Known(p)
  {
    steps', s' := Pause(p, slots, cfg, s0, steps, s);
    ResendStep(cfg, s');
    p.flush := true;
    Go(cfg, s0, steps', s', Tick);
    steps', s' := steps' + [Tick], Do(cfg, s', Tick);
  }

  /** What EV_FLUSH makes the event thread do. */
  method OnFlush(p: Pipeline, slots: array<Slot>, failing: bool, ghost cfg: Config,
                 ghost s0: State, ghost steps: seq<Step>, ghost s: State, ghost budget: nat)
    returns (flushed: bool, ghost steps': seq<Step>, ghost s': State)
    requires Inv(cfg, s0) && Trail(cfg, s0, steps, s) && Sync(p, slots, cfg, s) && s.con.AwaitSema?
    modifies p, p.nodes, slots, set i | 0 <= i < |p.nodes| :: p.nodes[i].msg
    ensures Trail(cfg, s0, steps', s') && Sync(p, slots, cfg, s') && s'.con == TermCheck(s.con.t, flushed)
    ensures !flushed ==> failing || FoundTaken(cfg, s0, steps')
    ensures Known(p)
  {
    hide Inv, Trail, Sync, FoundTaken;
    var ret;
    ret, steps', s' := WaitSema(p, slots, failing, cfg, s0, steps, s);
    flushed := ret == 0;
    if flushed {
      steps', s' := FlushAndSignal(p, slots, cfg, s0, steps', s', budget);
    } else {
      ghost var before := steps';
      steps', s' := SendAgain(p, slots, cfg, s0, steps', s');
      if FoundTaken(cfg, s0, before) { StillFoundTaken(cfg, s0, before, steps'); }
    }
  }

  lemma TermStep(cfg: Config, s: State)
    requires s.con.TermCheck?
    ensures Enabled(cfg, s, Tick)
    ensures Do(cfg, s, Tick) == if s.con.t then s.(stopOk := true, con := Exited(s.con.flushed)) else s.(con := Wait)
  {
  }

  /** The end of a turn: on EV_TERMINATE the thread acknowledges and is done. */
  method OnTerminate(p: Pipeline, slots: array<Slot>, terminated: bool,
                     ghost cfg: Config, ghost s0: State, ghost steps: seq<Step>, ghost s: State)
    returns (ghost steps': seq<Step>, ghost s': State)
    requires Trail(cfg, s0, steps, s) && Sync(p, slots, cfg, s) && s.con.TermCheck? && s.con.t == terminated
    modifies p, p.nodes, slots
    ensures Trail(cfg, s0, steps', s') && Sync(p, slots, cfg, s')
    ensures s'.con == if terminated then Exited(s.con.flushed) else Wait
    ensures steps <= steps'
    ensures terminated ==> p.stopOk
  {
    steps', s' := Pause(p, slots, cfg, s0, steps, s);
    TermStep(cfg, s');
    if terminated { p.stopOk := true; }
    Go(cfg, s0, steps', s', Tick);
    steps', s' := steps' + [Tick], Do(cfg, s', Tick);
  }

  lemma WakeStep(cfg: Config, s: State)
    requires s.con.Wait? && (s.q.flush || s.terminate)
    ensures Enabled(cfg, s, Tick)
    ensures Do(cfg, s, Tick) ==
            s.(con := if s.q.flush then AwaitSema(s.terminate) else TermCheck(s.terminate, false),
               q := s.q.(flush := false), terminate := false)
  {
  }

  /** sceKernelWaitEventFlagCB, returning because a bit is set: both bits are taken. */
  method TakeEvents(p: Pipeline, slots: array<Slot>, ghost cfg: Config, ghost s0: State)
    returns (evFlush: bool, evTerminate: bool, ghost steps: seq<Step>, ghost s: State)
    requires Sync(p, slots, cfg, s0) && s0.con.Wait? && (p.flush || p.terminate)
    modifies p`flush, p`terminate
    ensures evFlush == old(p.flush) && evTerminate == old(p.terminate) && !p.flush && !p.terminate
    ensures Trail(cfg, s0, steps, s) && Sync(p, slots, cfg, s)
    ensures s.con == if evFlush then AwaitSema(evTerminate) else TermCheck(evTerminate, false)
  {
    evFlush, evTerminate := p.flush, p.terminate;
    p.flush, p.terminate := false, false;
    WakeStep(cfg, s0);
    Go(cfg, s0, [], s0, Tick);
    steps, s := [] + [Tick], Do(cfg, s0, Tick);
  }

  /** Between turns nothing is queued without a flag, and after a complete last flush nothing is queued. */
  lemma TurnEnds(p: Pipeline, cfg: Config, s0: State, steps: seq<Step>, s: State)
    requires Inv(cfg, s0) && Trail(cfg, s0, steps, s) && p.Valid() && p.Q() == s.q
    ensures s.con.Wait? && p.head != null ==> p.flush
    ensures s.con == Exited(true) ==> p.head == null
  {
    TrailInv(cfg, s0, steps, s);
    HeadAddress(p, cfg, s.q);
  }

  /** One turn of the loop of event_thread. Whatever the other threads do in its windows, it is a run
      of the step relation back to the wait, or to the thread's end exactly if EV_TERMINATE was taken;
      EV_FLUSH makes it flush unless its semaphore wait fails; the thread never goes back to wait with
      messages queued and no EV_FLUSH, and if it ends after a flush nothing is queued. */
  method Turn(p: Pipeline, slots: array<Slot>, failing: bool, ghost cfg: Config, ghost s0: State, ghost budget: nat)
    returns (done: bool, flushed: bool, ghost steps: seq<Step>, ghost s: State)
    requires Inv(cfg, s0) && Sync(p, slots, cfg, s0) && s0.con.Wait? && (p.flush || p.terminate)
    modifies p, p.nodes, slots, set i | 0 <= i < |p.nodes| :: p.nodes[i].msg
    ensures Trail(cfg, s0, steps, s) && Sync(p, slots, cfg, s)
    ensures done == old(p.terminate) && (if done then s.con == Exited(flushed) && p.stopOk else s.con.Wait?)
    ensures flushed ==> old(p.flush)
    ensures old(p.flush) && !flushed ==> failing || FoundTaken(cfg, s0, steps)
    ensures !done && p.head != null ==> p.flush
    ensures s.con == Exited(true) ==> p.head == null
  {
    hide Inv, Trail, FoundTaken;
    var evFlush;
    evFlush, done, steps, s := TakeEvents(p, slots, cfg, s0);
    flushed := false;
    if evFlush {
      flushed, steps, s := OnFlush(p, slots, failing, cfg, s0, steps, s, budget);
    }
    ghost var before := steps;
    steps, s := OnTerminate(p, slots, done, cfg, s0, steps, s);
    if FoundTaken(cfg, s0, before) { StillFoundTaken(cfg, s0, before, steps); }
    TurnEnds(p, cfg, s0, steps, s);
  }
}
