/** _stop over the real globals: its handshake with the event thread, while every other thread runs. */
module Shutdown {
  import opened Base
  import opened Registry
  import opened Protocol
  import opened ProtocolInvariants
  import opened ProtocolTheorems
  import opened MessageList
  import opened FlushLoop
  import opened EventLoop

  /** A step of any thread but the one in _stop. */
  predicate NotStopping(step: Step) {
    !step.StopTick? && !step.StopTimeout?
  }

  lemma {:induction false} OthersKeepStop(cfg: Config, s: State, steps: seq<Step>)
    requires Feasible(cfg, s, steps) && forall k :: 0 <= k < |steps| ==> NotStopping(steps[k])
    ensures Run(cfg, s, steps).stop == s.stop
    decreases |steps|
  {
    if steps != [] {
      var s1 := Do(cfg, s, steps[0]);
      assert s1.stop == s.stop;
      OthersKeepStop(cfg, s1, steps[1..]);
    }
  }

  /** What producers, registry callers and the event thread do meanwhile; this body stands for every
      behaviour of the contract. */
  method Others(p: Pipeline, slots: array<Slot>, ghost cfg: Config, ghost s: State)
    returns (ghost steps: seq<Step>, ghost s': State)
    requires Sync(p, slots, cfg, s)
    modifies p, p.nodes, slots, set i | 0 <= i < |p.nodes| :: p.nodes[i].msg
    ensures Trail(cfg, s, steps, s') && (forall k :: 0 <= k < |steps| ==> NotStopping(steps[k]))
    ensures Sync(p, slots, cfg, s') && Known(p)
  {
    steps, s' := [], s;
  }

  method Pause(p: Pipeline, slots: array<Slot>, ghost cfg: Config,
               ghost s0: State, ghost steps: seq<Step>, ghost s: State)
    returns (ghost steps': seq<Step>, ghost s': State)
    requires Trail(cfg, s0, steps, s) && Sync(p, slots, cfg, s)
    modifies p, p.nodes, slots, set i | 0 <= i < |p.nodes| :: p.nodes[i].msg
    ensures Trail(cfg, s0, steps', s') && Sync(p, slots, cfg, s') && s'.stop == s.stop
    ensures Known(p)
  {
    ghost var more;
    more, s' := Others(p, slots, cfg, s);
    steps' := steps + more;
    OthersKeepStop(cfg, s, more);
    Concat(cfg, s0, steps, s, more, s');
  }

  lemma StopSteps(cfg: Config, s: State)
    ensures s.stop == Entered ==>
              Enabled(cfg, s, StopTick) && Do(cfg, s, StopTick) == s.(gstate := Stopped, stop := StateSet)
    ensures s.stop == StateSet ==>
              Enabled(cfg, s, StopTick)
              && Do(cfg, s, StopTick) == s.(q := s.q.(flush := true), terminate := true, stop := Waiting)
    ensures s.stop == Waiting ==>
              && Enabled(cfg, s, StopTimeout) && Do(cfg, s, StopTimeout) == s.(stop := TimedOut)
              && (s.stopOk ==> Enabled(cfg, s, StopTick) && Do(cfg, s, StopTick) == s.(stopOk := false, stop := StopOk))
  {
  }

  /** The state leaves STATE_STARTED. */
  method ChangeState(p: Pipeline, slots: array<Slot>, ghost cfg: Config,
                     ghost s0: State, ghost steps: seq<Step>, ghost s: State)
    returns (ghost steps': seq<Step>, ghost s': State)
    requires Trail(cfg, s0, steps, s) && Sync(p, slots, cfg, s) && s.stop == Entered
    modifies p, p.nodes, slots, set i | 0 <= i < |p.nodes| :: p.nodes[i].msg
    ensures Trail(cfg, s0, steps', s') && Sync(p, slots, cfg, s') && s'.stop == StateSet
    ensures Known(p)
  {
    steps', s' := Pause(p, slots, cfg, s0, steps, s);
    StopSteps(cfg, s');
    p.started := false;
    Go(cfg, s0, steps', s', StopTick);
    steps', s' := steps' + [StopTick], Do(cfg, s', StopTick);
  }

  /** The event thread is told to flush and to terminate. */
  method SendTerminate(p: Pipeline, slots: array<Slot>, ghost cfg: Config,
                       ghost s0: State, ghost steps: seq<Step>, ghost s: State)
    returns (ghost steps': seq<Step>, ghost s': State)
    requires Trail(cfg, s0, steps, s) && Sync(p, slots, cfg, s) && s.stop == StateSet
    modifies p, p.nodes, slots, set i | 0 <= i < |p.nodes| :: p.nodes[i].msg
    ensures Trail(cfg, s0, steps', s') && Sync(p, slots, cfg, s') && s'.stop == Waiting
    ensures Known(p)
  {
    steps', s' := Pause(p, slots, cfg, s0, steps, s);
    StopSteps(cfg, s');
    p.flush, p.terminate := true, true;
    Go(cfg, s0, steps', s', StopTick);
    steps', s' := steps' + [StopTick], Do(cfg, s', StopTick);
  }

  /** The wait for EV_STOP_OK. `expired` says the timeout came first. */
  method AwaitStopOk(p: Pipeline, slots: array<Slot>, expired: bool,
                     ghost cfg: Config, ghost s0: State, ghost steps: seq<Step>, ghost s: State)
    returns (ok: bool, ghost steps': seq<Step>, ghost s': State)
    requires Trail(cfg, s0, steps, s) && Sync(p, slots, cfg, s) && s.stop == Waiting
    modifies p, p.nodes, slots, set i | 0 <= i < |p.nodes| :: p.nodes[i].msg
    ensures Trail(cfg, s0, steps', s') && Sync(p, slots, cfg, s') && s'.stop == if ok then StopOk else TimedOut
    ensures if ok then !p.stopOk else expired || !p.stopOk
  {
    steps', s' := Pause(p, slots, cfg, s0, steps, s);
    StopSteps(cfg, s');
    ok := p.stopOk && !expired;
    ghost var step := if ok then StopTick else StopTimeout;
    if ok { p.stopOk := false; }
    Go(cfg, s0, steps', s', step);
    steps', s' := steps' + [step], Do(cfg, s', step);
  }

  lemma StopEnds(p: Pipeline, cfg: Config, s0: State, steps: seq<Step>, s: State)
    requires Inv(cfg, s0) && Trail(cfg, s0, steps, s) && p.Valid() && p.Q() == s.q
    ensures s.stop == StopOk || s.stop == TimedOut ==> s.gstate == Stopped
    ensures s.stop == StopOk ==> s.con.Exited? && (s.con.flushed ==> p.head == null)
  {
    TrailInv(cfg, s0, steps, s);
    HeadAddress(p, cfg, s.q);
  }

  lemma EnterStep(cfg: Config, s: State)
    requires s.stop == Idle && s.gstate == Started
    ensures Enabled(cfg, s, StopTick) && Do(cfg, s, StopTick) == s.(stop := Entered)
  {
  }

  /** _stop. It does nothing unless the library has started. Otherwise, whatever the other threads do
      meanwhile, the library ends up stopped; and if the wait was not cut short by the timeout the event
      thread is gone, leaving nothing queued if its last flush took place. */
  method Stop(p: Pipeline, slots: array<Slot>, expired: bool, ghost cfg: Config, ghost s0: State)
    returns (ok: bool, ghost steps: seq<Step>, ghost s: State)
    requires Inv(cfg, s0) && Sync(p, slots, cfg, s0) && s0.stop == Idle
    modifies p, p.nodes, slots, set i | 0 <= i < |p.nodes| :: p.nodes[i].msg
    ensures Trail(cfg, s0, steps, s) && Sync(p, slots, cfg, s) && !p.started
    ensures !old(p.started) ==> s == s0 && !ok
    ensures old(p.started) ==> s.stop == if ok then StopOk else TimedOut
    ensures if ok then !p.stopOk else old(p.started) ==> expired || !p.stopOk
    ensures ok ==> s.con.Exited? && (s.con.flushed ==> p.head == null)
  {
    hide Inv;
    ok, steps, s := false, [], s0;
    if p.started {
      EnterStep(cfg, s0);
      Go(cfg, s0, [], s0, StopTick);
      steps, s := [] + [StopTick], Do(cfg, s0, StopTick);
      steps, s := ChangeState(p, slots, cfg, s0, steps, s);
      steps, s := SendTerminate(p, slots, cfg, s0, steps, s);
      ok, steps, s := AwaitStopOk(p, slots, expired, cfg, s0, steps, s);
      StopEnds(p, cfg, s0, steps, s);
    }
  }
}
