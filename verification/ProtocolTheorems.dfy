/** What holds over whole runs of the pipeline. */
module ProtocolTheorems {
  import opened Base
  import opened Registry
  import opened MsgBuffer
  import opened Protocol
  import opened ProtocolInvariants

  /** The state a run reaches from the one init leaves. */
  function Reached(cfg: Config, steps: seq<Step>): State
    requires Feasible(cfg, Init(cfg), steps)
  {
    Run(cfg, Init(cfg), steps)
  }

  lemma {:induction false} ExtendRun(cfg: Config, s: State, steps: seq<Step>, step: Step)
    requires Feasible(cfg, s, steps) && Enabled(cfg, Run(cfg, s, steps), step)
    ensures Feasible(cfg, s, steps + [step])
    ensures Run(cfg, s, steps + [step]) == Do(cfg, Run(cfg, s, steps), step)
    decreases |steps|
  {
    if steps == [] {
      assert steps + [step] == [step];
    } else {
      ExtendRun(cfg, Do(cfg, s, steps[0]), steps[1..], step);
      assert (steps + [step])[1..] == steps[1..] + [step];
    }
  }

  // ---------------------------------------------------------------- no lost wake-up

  /** For message k either EV_FLUSH is pending, or the flush in progress or about to begin gets to it,
      the latter if its semaphore wait succeeds. */
  predicate Covered(s: State, k: nat) {
    s.q.flush || k < Reach(s.con, |s.q.list|)
  }

  /** Every queued message is covered in every reachable state, whatever the interleaving; so
      the event thread never sleeps on a non-empty queue. */
  lemma NoLostWakeUp(cfg: Config, steps: seq<Step>)
    requires Feasible(cfg, Init(cfg), steps)
    ensures var s := Reached(cfg, steps);
            && (forall k :: 0 <= k < |s.q.list| ==> Covered(s, k))
            && (s.con.Wait? && s.q.list != [] ==> s.q.flush && Enabled(cfg, s, Tick))
  {
    ReachableInv(cfg, steps);
  }

  /** A producer that appends after n was read as NULL makes the flush loop end on a queue that
      is not empty, and only the flag the producer raised covers its message. */
  lemma AppendInTheWindow(cfg: Config, s: State, c: Call)
    requires QueueInv(cfg, s.q) && FlowInv(s) && s.con.Remove? && |s.q.list| == 1
    requires Enabled(cfg, s, Kprintf(c)) && s.gstate == Started && Formats(c, cfg.bufsz) && c.alloc.Block?
    ensures var s1 := Do(cfg, s, Kprintf(c));
            var s2 := ConsumerTick(s1);
            && s2.con == LoopTest(s.con.t, 0)
            && Sents(s2.q.list) == [Sent(c.text, c.isUser)]
            && s2.q.flush && Reach(s2.con, |s2.q.list|) == 0
  {
    var s1 := Do(cfg, s, Kprintf(c));
    QueueKept(cfg, s, Kprintf(c));
    FlowKeptByProducer(cfg, s, c);
    var n := Node(c.alloc.addr, Sent(c.text, c.isUser), NewBuf(c.text));
    assert s1.con == s.con && s1.q.list == s.q.list + [n] && s1.q.flush;
    RemoveEffect(cfg, s1);
    assert s1.q.list[1..] == [n];
  }

  // ---------------------------------------------------------------- exactly once, in order

  /** The messages of those Kprintf calls of a run that returned a positive length. */
  function Accepted(cfg: Config, s: State, steps: seq<Step>): seq<Sent>
    requires Feasible(cfg, s, steps)
    decreases |steps|
  {
    if steps == [] then []
    else
      (if steps[0].Kprintf? && Produce(s.q, s.gstate == Started, cfg.bufsz, steps[0].c).1 > 0
       then [Sent(steps[0].c.text, steps[0].c.isUser)] else [])
      + Accepted(cfg, Do(cfg, s, steps[0]), steps[1..])
  }

  /** A call returns its length exactly when it queued its message; otherwise nothing changed. */
  lemma KprintfResult(q: Queue, started: bool, bufsz: nat, c: Call)
    requires CallOk(q, bufsz, c)
    ensures var (q', ret) := Produce(q, started, bufsz, c);
            && (ret > 0 <==> q'.accepted == q.accepted + [Sent(c.text, c.isUser)])
            && (ret > 0 ==> ret == c.len && q'.flush && Sents(q'.list) == Sents(q.list) + [Sent(c.text, c.isUser)])
            && (ret <= 0 ==> q' == q)
            && (ret < 0 ==> c.alloc == Refused(ret))
  {
    if started && Formats(c, bufsz) && c.alloc.Block? {
      AppendSums(q.list, Node(c.alloc.addr, Sent(c.text, c.isUser), NewBuf(c.text)));
    }
  }

  /** Exactly when a call is accepted: the library has started, the text is not empty and was not
      truncated, and the pool has a block for it; the result is then the length of the text. */
  lemma KprintfAcceptsExactly(q: Queue, started: bool, bufsz: nat, c: Call)
    requires CallOk(q, bufsz, c)
    ensures Produce(q, started, bufsz, c).1 > 0 <==> started && 0 < c.len < bufsz && c.alloc.Block?
    ensures started && 0 < c.len < bufsz && c.alloc.Block? ==> Produce(q, started, bufsz, c).1 == c.len
    ensures started && 0 < c.len < bufsz && c.alloc.Refused? ==> Produce(q, started, bufsz, c).1 == c.alloc.error
  {
  }

  lemma AcceptedStep(cfg: Config, s: State, step: Step)
    requires Enabled(cfg, s, step)
    ensures Do(cfg, s, step).q.accepted == s.q.accepted +
              if step.Kprintf? && Produce(s.q, s.gstate == Started, cfg.bufsz, step.c).1 > 0
              then [Sent(step.c.text, step.c.isUser)] else []
  {
    Unchanged(cfg, s, step);
  }

  lemma {:induction false} AcceptedRun(cfg: Config, s: State, steps: seq<Step>)
    requires Feasible(cfg, s, steps)
    ensures Run(cfg, s, steps).q.accepted == s.q.accepted + Accepted(cfg, s, steps)
    decreases |steps|
  {
    if steps != [] {
      AcceptedStep(cfg, s, steps[0]);
      AcceptedRun(cfg, Do(cfg, s, steps[0]), steps[1..]);
    }
  }

  /** Removed messages followed by queued messages are the accepted calls, each once, in order. */
  lemma ExactlyOnceFifo(cfg: Config, steps: seq<Step>)
    requires Feasible(cfg, Init(cfg), steps)
    ensures var s := Reached(cfg, steps);
            s.q.freed + Sents(s.q.list) == Accepted(cfg, Init(cfg), steps)
  {
    ReachableInv(cfg, steps);
    AcceptedRun(cfg, Init(cfg), steps);
  }

  // ---------------------------------------------------------------- the handler chain

  /** The callback calls made so far are, message by message in order of acceptance, the whole
      chain of each removed message followed by the part of the chain the current one has had,
      and the current one is the next accepted. A chain runs over the occupied slots in slot order
      and ends early exactly when a callback returned "stop". */
  lemma EveryMessageRunsItsChain(cfg: Config, steps: seq<Step>)
    requires Feasible(cfg, Init(cfg), steps)
    ensures var s := Reached(cfg, steps);
            && Calls(s.log) == Chains(s.delivered) + Chain(|s.delivered|, s.reg.slots, Offered(s.con))
            && |s.delivered| == |s.q.freed| <= |Accepted(cfg, Init(cfg), steps)|
            && (HoldsMessage(s.con) ==>
                  |s.delivered| < |Accepted(cfg, Init(cfg), steps)| && s.q.list != []
                  && s.q.list[0].sent == Accepted(cfg, Init(cfg), steps)[|s.delivered|])
            && (forall k :: 0 <= k < |s.delivered| ==>
                  && s.delivered[k].sent == Accepted(cfg, Init(cfg), steps)[k]
                  && ChainDone(s.delivered[k].slots, s.delivered[k].reach, s.delivered[k].stopped)
                  && CallsAnswered(Chain(k, s.delivered[k].slots, s.delivered[k].reach), s.delivered[k].answers)
                  && ChainAnswers(s.delivered[k].answers, s.delivered[k].stopped))
  {
    ReachableInv(cfg, steps);
    ExactlyOnceFifo(cfg, steps);
    var s := Reached(cfg, steps);
    forall k | 0 <= k < |s.delivered|
      ensures CallsAnswered(Chain(k, s.delivered[k].slots, s.delivered[k].reach), s.delivered[k].answers)
    {
      assert Answered(s.delivered[k]);
      ChainOccupants(k, s.delivered[k].slots, s.delivered[k].reach);
    }
  }

  /** Every call was answered by the handler that was called. */
  predicate CallsAnswered(calls: seq<Event>, answers: seq<Answer>) {
    |answers| == |calls| && forall j :: 0 <= j < |calls| ==> calls[j].Called? && answers[j].h == calls[j].h
  }

  lemma {:induction false} ChainOccupants(no: nat, slots: seq<Slot>, reach: nat)
    ensures |Chain(no, slots, reach)| == |Occupants(slots, reach)|
    ensures forall j :: 0 <= j < |Chain(no, slots, reach)| ==>
              Chain(no, slots, reach)[j].Called? && Chain(no, slots, reach)[j].h == Occupants(slots, reach)[j]
  {
    if reach > 0 { ChainOccupants(no, slots, reach - 1); }
  }

  // ---------------------------------------------------------------- the registry

  /** The semaphore is never counted twice nor lost, so signalling it never overflows. */
  lemma SemaphoreConserved(cfg: Config, steps: seq<Step>)
    requires Feasible(cfg, Init(cfg), steps)
    ensures var s := Reached(cfg, steps);
            && s.sema + |Holders(ThreadHolds(s.con), s.clients)| == 1
            && (s.con.Signal? ==> s.sema == 0)
            && (forall tid :: tid in s.clients && s.clients[tid].Leaving? ==> s.sema == 0)
  {
    ReachableInv(cfg, steps);
    var s := Reached(cfg, steps);
    if s.con.Signal? { OnlyHolder(s.sema, true, s.clients, EventThread); }
    forall tid | tid in s.clients && s.clients[tid].Leaving? ensures s.sema == 0 {
      OnlyHolder(s.sema, ThreadHolds(s.con), s.clients, Caller(tid));
    }
  }

  /** From the flush's semaphore wait to its signal no step of any thread changes the registry. */
  lemma RegistryStableDuringFlush(cfg: Config, steps: seq<Step>, step: Step)
    requires Feasible(cfg, Init(cfg), steps) && Enabled(cfg, Reached(cfg, steps), step)
    requires ThreadHolds(Reached(cfg, steps).con)
    ensures Do(cfg, Reached(cfg, steps), step).reg == Reached(cfg, steps).reg
  {
    ReachableInv(cfg, steps);
    var s := Reached(cfg, steps);
    Unchanged(cfg, s, step);
    if Changes(s, step) {
      OnlyHolder(s.sema, true, s.clients, EventThread);
    }
  }

  /** The registrations and removals a slot saw between two moments of the log. */
  predicate Touches(e: Event, i: int) {
    (e.Added? || e.Dropped?) && e.i == i
  }

  lemma {:induction false} SlotHoldsLastAdded(log: seq<Event>, max: nat, i: int, from: nat) returns (l: int)
    requires 0 <= i < max && from <= |log|
    requires Replay(log, max)[i].Some?
    requires from == 0 || log[from - 1] == Dropped(i)
    ensures from <= l < |log| && log[l] == Added(i, Replay(log, max)[i].value)
    ensures forall k :: l < k < |log| ==> !Touches(log[k], i)
    decreases |log|
  {
    assert log != [];
    var n := |log| - 1;
    if log[n].Added? && log[n].i == i {
      l := n;
    } else {
      l := SlotHoldsLastAdded(log[..n], max, i, from);
    }
  }

  /** A callback is called only while it is the one registered in its slot: before every call
      there is its registration, with no registration or removal of that slot in between. */
  lemma CallsFollowRegistration(cfg: Config, steps: seq<Step>, k: nat) returns (l: int)
    requires Feasible(cfg, Init(cfg), steps)
    requires k < |Reached(cfg, steps).log| && Reached(cfg, steps).log[k].Called?
    ensures var log := Reached(cfg, steps).log;
            && 0 <= l < k && log[l] == Added(log[k].i, log[k].h)
            && (forall j :: l < j < k ==> !Touches(log[j], log[k].i))
  {
    ReachableInv(cfg, steps);
    var log := Reached(cfg, steps).log;
    l := SlotHoldsLastAdded(log[..k], cfg.maxHandlers, log[k].i, 0);
    assert forall j :: l < j < k ==> log[j] == log[..k][j];
  }

  /** After a slot was emptied it is not called until it has been registered again. */
  lemma NoCallAfterUnregister(cfg: Config, steps: seq<Step>, j: nat, k: nat) returns (l: int)
    requires Feasible(cfg, Init(cfg), steps)
    requires j < k < |Reached(cfg, steps).log|
    requires Reached(cfg, steps).log[k].Called?
    requires Reached(cfg, steps).log[j] == Dropped(Reached(cfg, steps).log[k].i)
    ensures var log := Reached(cfg, steps).log;
            j < l < k && log[l] == Added(log[k].i, log[k].h)
  {
    l := CallsFollowRegistration(cfg, steps, k);
    var log := Reached(cfg, steps).log;
    assert Touches(log[j], log[k].i);
  }

  // ---------------------------------------------------------------- the pool

  /** Free bytes and queued blocks always make up the pool; with nothing queued it is all free. */
  lemma PoolConserved(cfg: Config, steps: seq<Step>)
    requires Feasible(cfg, Init(cfg), steps)
    ensures var s := Reached(cfg, steps);
            && s.q.free + BlockSum(s.q.list) == cfg.pool
            && 0 <= s.q.free <= cfg.pool
            && (s.q.list == [] ==> s.q.free == cfg.pool)
  {
    ReachableInv(cfg, steps);
  }

  /** Every pointer the event thread is about to use is the head of the queue, so it was not
      freed, and the block the critical section frees is in use. */
  lemma NoDanglingCursor(cfg: Config, steps: seq<Step>)
    requires Feasible(cfg, Init(cfg), steps)
    ensures var s := Reached(cfg, steps);
            && (HoldsMessage(s.con) ==> s.q.list != [] && Cursor(s.con) == s.q.list[0].addr)
            && (s.con.LoopTest? && s.con.m != 0 ==> s.q.list != [] && s.con.m == s.q.list[0].addr)
            && (s.con.Remove? ==> RemoveDelete(s.q, s.con.m).list == s.q.list[1..])
  {
    ReachableInv(cfg, steps);
    var s := Reached(cfg, steps);
    if s.con.Remove? { RemoveHeadPopsFront(cfg, s.q); }
  }

  /** Nothing is queued before init has finished. */
  lemma NothingBeforeStart(cfg: Config, steps: seq<Step>)
    requires Feasible(cfg, Init(cfg), steps) && Reached(cfg, steps).gstate == Starting
    ensures Accepted(cfg, Init(cfg), steps) == [] && Reached(cfg, steps).q.list == []
  {
    ExactlyOnceFifo(cfg, steps);
    AcceptedRun(cfg, Init(cfg), steps);
    ReachableInv(cfg, steps);
  }

  // ---------------------------------------------------------------- shutdown

  /** What no step changes once the event thread has gone. */
  predicate Settled(s: State) {
    s.con.Exited? && s.gstate == Stopped
  }

  lemma SettledStays(cfg: Config, s: State, step: Step)
    requires Inv(cfg, s) && Settled(s) && Enabled(cfg, s, step)
    ensures var s' := Do(cfg, s, step);
            && Settled(s') && s'.con == s.con
            && s'.q.list == s.q.list && s'.q.accepted == s.q.accepted && s'.q.freed == s.q.freed
            && Calls(s'.log) == Calls(s.log)
  {
    Unchanged(cfg, s, step);
    if Changes(s, step) {
      CriticalKeepsLog(cfg.maxHandlers, s.reg, s.log, s.clients[step.tid].op);
    }
  }

  lemma {:induction false} SettledForever(cfg: Config, s: State, steps: seq<Step>)
    requires Inv(cfg, s) && Settled(s) && Feasible(cfg, s, steps)
    ensures var s' := Run(cfg, s, steps);
            && s'.con == s.con && s'.q.list == s.q.list && s'.q.accepted == s.q.accepted
            && Calls(s'.log) == Calls(s.log)
    decreases |steps|
  {
    if steps != [] {
      SettledStays(cfg, s, steps[0]);
      StepKeeps(cfg, s, steps[0]);
      SettledForever(cfg, Do(cfg, s, steps[0]), steps[1..]);
    }
  }

  /** If _stop returned because of EV_STOP_OK, the event thread is gone and, its last semaphore
      wait having succeeded, every message ever accepted was removed after its chain; and however
      the run goes on, nothing is queued and no callback is called any more. */
  lemma ShutdownIsComplete(cfg: Config, steps: seq<Step>, more: seq<Step>)
    requires Feasible(cfg, Init(cfg), steps)
    requires Reached(cfg, steps).stop == StopOk
    requires Feasible(cfg, Reached(cfg, steps), more)
    ensures var s := Reached(cfg, steps);
            var s' := Run(cfg, s, more);
            && s.con.Exited?
            && s'.con == s.con && s'.q.list == s.q.list && s'.q.accepted == s.q.accepted
            && Calls(s'.log) == Calls(s.log)
            && (s.con.flushed ==>
                  && s.q.list == []
                  && s.q.freed == Accepted(cfg, Init(cfg), steps)
                  && Calls(s.log) == Chains(s.delivered) && |s.delivered| == |s.q.freed|)
  {
    ReachableInv(cfg, steps);
    ExactlyOnceFifo(cfg, steps);
    SettledForever(cfg, Reached(cfg, steps), more);
  }

  /** EV_TERMINATE is pending only together with EV_FLUSH and only after the state left
      STARTED, and the two are taken by the same wait. */
  lemma TerminateComesWithFlush(cfg: Config, steps: seq<Step>)
    requires Feasible(cfg, Init(cfg), steps)
    ensures var s := Reached(cfg, steps);
            && (s.terminate ==> s.q.flush && s.gstate == Stopped)
            && (TookTerminate(s.con) ==> s.gstate == Stopped)
            && (s.con.Wait? && s.terminate ==> ConsumerTick(s).con == AwaitSema(true))
            && (s.con.Wait? ==> !ConsumerTick(s).q.flush && !ConsumerTick(s).terminate)
  {
    ReachableInv(cfg, steps);
  }

  /** The wait for the last flush failed, so the event thread leaves without it. */
  predicate GivesUp(con: Consumer) {
    con == Resend(true) || con == TermCheck(true, false) || con == Exited(false)
  }

  lemma LastRoundGoesOn(cfg: Config, s: State)
    requires TookTerminate(s.con) && Enabled(cfg, s, Tick)
    ensures TookTerminate(ConsumerTick(s).con) && ConsumerTick(s).con != AwaitSema(true)
  {
  }

  lemma GivesUpAfter(cfg: Config, s: State)
    requires TookTerminate(s.con) && Enabled(cfg, s, Tick) && GivesUp(ConsumerTick(s).con)
    ensures GivesUp(s.con)
  {
  }

  lemma LastRoundTick(cfg: Config, s: State)
    requires TookTerminate(s.con) && Enabled(cfg, s, Tick)
    ensures var s' := ConsumerTick(s);
            && TookTerminate(s'.con)
            && s'.con != AwaitSema(true)
            && (GivesUp(s'.con) ==> s'.q.list == s.q.list && GivesUp(s.con))
  {
    hide TookTerminate;
    LastRoundGoesOn(cfg, s);
    if GivesUp(ConsumerTick(s).con) {
      GivesUpAfter(cfg, s);
      Unchanged(cfg, s, Tick);
    }
  }

  lemma LastRoundOther(cfg: Config, s: State, step: Step)
    requires StopInv(s) && TookTerminate(s.con) && Enabled(cfg, s, step) && !step.Tick?
    ensures var s' := Do(cfg, s, step);
            && TookTerminate(s'.con)
            && (GivesUp(s'.con) || s'.con == AwaitSema(true) ==>
                  s'.q.list == s.q.list && (GivesUp(s.con) || s.con == AwaitSema(true)))
  {
    Unchanged(cfg, s, step);
  }

  lemma {:induction false} LastRound(cfg: Config, s: State, more: seq<Step>)
    requires Inv(cfg, s) && Feasible(cfg, s, more)
    requires TookTerminate(s.con)
    ensures var s' := Run(cfg, s, more);
            && TookTerminate(s'.con)
            && (GivesUp(s'.con) || s'.con == AwaitSema(true) ==>
                  s'.q.list == s.q.list && (GivesUp(s.con) || s.con == AwaitSema(true)))
    decreases |more|
  {
    if more != [] {
      if more[0].Tick? { LastRoundTick(cfg, s); } else { LastRoundOther(cfg, s, more[0]); }
      StepKeeps(cfg, s, more[0]);
      LastRound(cfg, Do(cfg, s, more[0]), more[1..]);
    }
  }

  /** Exactly when shutdown drains the queue: once the event thread has taken EV_TERMINATE and
      exits, the queue is empty if and only if its semaphore wait succeeded or nothing was queued
      when it began to wait. */
  lemma ShutdownDrainsExactly(cfg: Config, steps: seq<Step>, more: seq<Step>)
    requires Feasible(cfg, Init(cfg), steps)
    requires Reached(cfg, steps).con == AwaitSema(true)
    requires Feasible(cfg, Reached(cfg, steps), more)
    requires Run(cfg, Reached(cfg, steps), more).con.Exited?
    ensures var s := Reached(cfg, steps);
            var s' := Run(cfg, s, more);
            s'.q.list == [] <==> s'.con.flushed || s.q.list == []
  {
    ReachableInv(cfg, steps);
    var s := Reached(cfg, steps);
    LastRound(cfg, s, more);
    RunKeeps(cfg, s, more);
  }

  /** If _stop comes before the event thread has seen STATE_STARTED, the thread spins in its
      start-up loop for good: _stop can only time out and what is queued stays queued. */
  lemma {:induction false} StopBeforeBoot(cfg: Config, s: State, more: seq<Step>)
    requires Inv(cfg, s) && s.con.Boot? && s.gstate == Stopped && Feasible(cfg, s, more)
    ensures var s' := Run(cfg, s, more);
            s'.con.Boot? && s'.gstate == Stopped && s'.stop != StopOk && s'.q.list == s.q.list
    decreases |more|
  {
    if more != [] {
      StepKeeps(cfg, s, more[0]);
      Unchanged(cfg, s, more[0]);
      StopBeforeBoot(cfg, Do(cfg, s, more[0]), more[1..]);
    }
  }

  // ---------------------------------------------------------------- the loss is real

  function FirstCall(): Call {
    Call(1, [65], false, Block(1))
  }

  /** init finishes, the event thread starts waiting, one message is accepted. */
  function OneMessage(): seq<Step> {
    [] + [InitDone] + [Tick] + [Kprintf(FirstCall())]
  }

  /** _stop runs up to its wait, the event thread's semaphore wait fails, and _stop is told to go. */
  function StopWithoutFlush(r: seq<Step>): seq<Step> {
    r + [StopTick] + [StopTick] + [StopTick] + [Tick] + [SemaError] + [Tick] + [Tick] + [StopTick]
  }

  lemma OneMessageWaits(cfg: Config)
    requires cfg.bufsz > 1 && cfg.pool >= BlockSize(1)
    ensures Feasible(cfg, Init(cfg), OneMessage())
    ensures var s := Reached(cfg, OneMessage());
            && s.con == Wait && s.gstate == Started && s.stop == Idle && s.q.flush && !s.terminate
            && |s.q.list| == 1 && s.q.list[0].addr == 1 && s.q.list[0].buf == NewBuf([65])
            && s.q.free == cfg.pool - BlockSize(1)
            && s.delivered == [] && s.sema == 1 && s.clients == map[] && s.reg == EmptyTable(cfg.maxHandlers)
  {
    var i := Init(cfg);
    ExtendRun(cfg, i, [], InitDone);
    ExtendRun(cfg, i, [] + [InitDone], Tick);
    ExtendRun(cfg, i, [] + [InitDone] + [Tick], Kprintf(FirstCall()));
  }

  /** A caller of unregister_handler enters and takes the semaphore. */
  function SemaTaken(r: seq<Step>): seq<Step> {
    r + [ClientEnter(0, Unregister(0))] + [ClientTick(0)]
  }

  lemma SemaTakenRuns(cfg: Config, r: seq<Step>)
    requires Feasible(cfg, Init(cfg), r)
    requires var s := Reached(cfg, r); s.gstate == Started && s.sema == 1 && s.clients == map[]
    ensures Feasible(cfg, Init(cfg), SemaTaken(r))
    ensures Reached(cfg, SemaTaken(r)) == Reached(cfg, r).(sema := 0, clients := map[0 := Critical(Unregister(0))])
  {
    var i := Init(cfg);
    ExtendRun(cfg, i, r, ClientEnter(0, Unregister(0)));
    ExtendRun(cfg, i, r + [ClientEnter(0, Unregister(0))], ClientTick(0));
  }

  lemma StopWithoutFlushRuns(cfg: Config, r: seq<Step>)
    requires Feasible(cfg, Init(cfg), r)
    requires var s := Reached(cfg, r);
             s.con == Wait && s.gstate == Started && s.stop == Idle && s.q.flush && !s.terminate
    ensures var t := StopWithoutFlush(r);
            && Feasible(cfg, Init(cfg), t)
            && Reached(cfg, t).stop == StopOk && Reached(cfg, t).con == Exited(false)
            && Reached(cfg, t).q.list == Reached(cfg, r).q.list
            && Reached(cfg, t).delivered == Reached(cfg, r).delivered
            && Reached(cfg, t).sema == Reached(cfg, r).sema
  {
    var i := Init(cfg);
    ExtendRun(cfg, i, r, StopTick);
    var t := r + [StopTick];
    ExtendRun(cfg, i, t, StopTick);
    t := t + [StopTick];
    ExtendRun(cfg, i, t, StopTick);
    t := t + [StopTick];
    ExtendRun(cfg, i, t, Tick);
    t := t + [Tick];
    assert Run(cfg, i, t).con == AwaitSema(true);
    ExtendRun(cfg, i, t, SemaError);
    t := t + [SemaError];
    ExtendRun(cfg, i, t, Tick);
    t := t + [Tick];
    ExtendRun(cfg, i, t, Tick);
    t := t + [Tick];
    ExtendRun(cfg, i, t, StopTick);
  }

  /** The handshake alone does not protect messages: in this run a caller holds the semaphore, the
      event thread's wait for it fails, and _stop is told EV_STOP_OK while an accepted message is
      still queued. */
  lemma ShutdownCanLoseMessages(cfg: Config)
    requires cfg.bufsz > 1 && cfg.pool >= BlockSize(1)
    ensures var r := StopWithoutFlush(SemaTaken(OneMessage()));
            && Feasible(cfg, Init(cfg), r)
            && var s := Reached(cfg, r);
               && s.stop == StopOk && s.con == Exited(false) && |s.q.list| == 1 && s.delivered == []
               && s.sema == 0
  {
    OneMessageWaits(cfg);
    SemaTakenRuns(cfg, OneMessage());
    StopWithoutFlushRuns(cfg, SemaTaken(OneMessage()));
  }

  // ---------------------------------------------------------------- the window is real

  /** A second message, in another block. */
  function SecondCall(): Call {
    Call(1, [66], false, Block(2))
  }

  lemma {:induction false} SkipEmptySlots(cfg: Config, r: seq<Step>) returns (t: seq<Step>)
    requires Feasible(cfg, Init(cfg), r)
    requires var s := Reached(cfg, r);
             s.con.Invoke? && s.con.i <= |s.reg.slots| && forall i :: 0 <= i < |s.reg.slots| ==> s.reg.slots[i].None?
    ensures Feasible(cfg, Init(cfg), t)
    ensures var s := Reached(cfg, r); Reached(cfg, t) == s.(con := Invoke(s.con.t, s.con.m, |s.reg.slots|))
    decreases |Reached(cfg, r).reg.slots| - Reached(cfg, r).con.i
  {
    t := r;
    if Reached(cfg, r).con.i < |Reached(cfg, r).reg.slots| {
      ExtendRun(cfg, Init(cfg), r, Tick);
      t := SkipEmptySlots(cfg, r + [Tick]);
    }
  }

  /** From the wait to the first slot. */
  lemma FlushBegins(cfg: Config, r: seq<Step>)
    requires Feasible(cfg, Init(cfg), r)
    requires var s := Reached(cfg, r);
             s.con == Wait && s.q.flush && !s.terminate && s.sema == 1 && s.q.list != [] && s.q.list[0].addr != 0
    ensures var t := r + [Tick] + [Tick] + [Tick] + [Tick];
            && Feasible(cfg, Init(cfg), t)
            && var s := Reached(cfg, r);
               Reached(cfg, t) == s.(con := Invoke(false, s.q.list[0].addr, 0), sema := 0, q := s.q.(flush := false))
  {
    var i := Init(cfg);
    ExtendRun(cfg, i, r, Tick);
    ExtendRun(cfg, i, r + [Tick], Tick);
    ExtendRun(cfg, i, r + [Tick] + [Tick], Tick);
    ExtendRun(cfg, i, r + [Tick] + [Tick] + [Tick], Tick);
  }

  /** From the end of the chain past n = m->next to the critical section. */
  lemma ChainEnds(cfg: Config, r: seq<Step>)
    requires Feasible(cfg, Init(cfg), r)
    requires var s := Reached(cfg, r);
             s.con.Invoke? && s.con.i == |s.reg.slots| && |s.q.list| == 1 && s.con.m == s.q.list[0].addr
    ensures var t := r + [Tick] + [Tick] + [Tick];
            && Feasible(cfg, Init(cfg), t)
            && var s := Reached(cfg, r);
               Reached(cfg, t) == s.(con := Remove(s.con.t, s.con.m, 0, s.con.i, false))
  {
    var i := Init(cfg);
    ExtendRun(cfg, i, r, Tick);
    ExtendRun(cfg, i, r + [Tick], Tick);
    ExtendRun(cfg, i, r + [Tick] + [Tick], Tick);
  }

  /** In every configuration with room for two messages there is a run in which a producer appends
      between n = m->next and the critical section, and the loop ends on a queue that is not empty. */
  lemma WindowIsReached(cfg: Config) returns (r: seq<Step>)
    requires cfg.bufsz > 1 && cfg.pool >= 2 * BlockSize(1)
    ensures var t := r + [Kprintf(SecondCall())] + [Tick];
            && Feasible(cfg, Init(cfg), r) && Reached(cfg, r).con.Remove? && |Reached(cfg, r).q.list| == 1
            && Feasible(cfg, Init(cfg), t) && Reached(cfg, t).con == LoopTest(false, 0)
            && |Reached(cfg, t).q.list| == 1 && Reached(cfg, t).q.flush
  {
    var i := Init(cfg);
    OneMessageWaits(cfg);
    r := OneMessage();
    FlushBegins(cfg, r);
    r := SkipEmptySlots(cfg, r + [Tick] + [Tick] + [Tick] + [Tick]);
    ChainEnds(cfg, r);
    r := r + [Tick] + [Tick] + [Tick];
    var s := Reached(cfg, r);
    assert Find(s.q.list, 2) == 1;
    ReachableInv(cfg, r);
    AppendInTheWindow(cfg, s, SecondCall());
    ExtendRun(cfg, i, r, Kprintf(SecondCall()));
    ExtendRun(cfg, i, r + [Kprintf(SecondCall())], Tick);
  }

  // ---------------------------------------------------------------- no deadlock

  /** A callback that returns having changed nothing but what default_file_handler changes. */
  function PlainReturn(h: Handler, b: MsgBuf): Step {
    Return(if h.cb == DefaultFile && DefaultInBounds(b) then AppendNewline(b) else b, 0)
  }

  /** The event thread moves, or the caller that keeps it waiting does. */
  predicate Work(s: State, step: Step) {
    step.Tick? || step.Return? || (step.ClientTick? && s.con.AwaitSema? && CallerHolds(s.clients, step.tid))
  }

  lemma SomeoneMoves(cfg: Config, s: State) returns (step: Step)
    requires CursorInv(s.con, s.q.list) && SemaInv(s.sema, ThreadHolds(s.con), s.clients)
    requires !s.con.Boot? && !s.con.Exited? && (s.con.Wait? ==> s.q.flush || s.terminate)
    ensures Enabled(cfg, s, step) && Work(s, step)
  {
    if s.con.InCallback? {
      assert Find(s.q.list, s.con.m) == 0;
      step := PlainReturn(s.con.h, s.q.list[0].buf);
    } else if s.con.AwaitSema? && s.sema == 0 {
      var a :| a in Holders(ThreadHolds(s.con), s.clients);
      step := ClientTick(a.tid);
    } else {
      step := Tick;
    }
  }

  /** While messages are queued and the event thread is past its start-up, it or the caller that
      holds the semaphore can move. */
  lemma NeverStuck(cfg: Config, steps: seq<Step>) returns (step: Step)
    requires Feasible(cfg, Init(cfg), steps)
    requires var s := Reached(cfg, steps); s.q.list != [] && !s.con.Boot? && !s.con.Exited?
    ensures Enabled(cfg, Reached(cfg, steps), step)
    ensures step.Tick? || step.Return?
            || (step.ClientTick? && CallerHolds(Reached(cfg, steps).clients, step.tid))
  {
    ReachableInv(cfg, steps);
    step := SomeoneMoves(cfg, Reached(cfg, steps));
  }
}
