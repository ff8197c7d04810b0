/** How long one flush can take and what it reaches. */
module ProtocolFlush {
  import opened Base
  import opened Registry
  import opened MsgBuffer
  import opened Protocol
  import opened ProtocolInvariants
  import opened ProtocolTheorems

  // ---------------------------------------------------------------- termination

  /** An upper bound on the event thread's moves for one message. */
  function Cost(slots: nat): nat {
    2 * slots + 5
  }

  /** `work` bounds the moves for all queued messages; `one` of them may already be under way. */
  function Rank(con: Consumer, work: int, slots: nat): int {
    match con
    case FlushEntry(_) => work + 2
    case LoopTest(_, m) => if m == 0 then 1 else work + 1
    case Invoke(_, _, i) => work - Cost(slots) + 2 * (slots - i) + 5
    case InCallback(_, _, i, _) => work - Cost(slots) + 2 * (slots - i) + 4
    case ReadNext(_, _, _, _) => work - Cost(slots) + 4
    case RemoveCheck(_, _, _, _, _) => work - Cost(slots) + 3
    case Remove(_, _, _, _, _) => work - Cost(slots) + 2
    case _ => 0
  }

  /** An upper bound on the moves the event thread has left in the flush in progress. */
  function RankOf(s: State): int {
    Rank(s.con, |s.q.list| * Cost(|s.reg.slots|), |s.reg.slots|)
  }

  lemma CostOfOne(size: int, slots: nat)
    ensures (size + 1) * Cost(slots) == size * Cost(slots) + Cost(slots)
  {
  }

  /** From s to s' the event thread made `moves` moves and the messages accepted pay for them. */
  predicate Paid(s: State, s': State, moves: int) {
    && |s'.reg.slots| == |s.reg.slots|
    && moves + RankOf(s') <= RankOf(s) + (|s'.q.accepted| - |s.q.accepted|) * Cost(|s.reg.slots|)
  }

  lemma PaidTogether(s: State, s1: State, s2: State, m1: int, m2: int)
    requires Paid(s, s1, m1) && Paid(s1, s2, m2)
    ensures Paid(s, s2, m1 + m2)
  {
    var a, b, c := |s1.q.accepted| - |s.q.accepted|, |s2.q.accepted| - |s1.q.accepted|, Cost(|s.reg.slots|);
    assert a * c + b * c == (a + b) * c;
  }

  /** A move that leaves the queue and the registry alone brings the end of the flush nearer. */
  lemma TickLowersRank(cfg: Config, s: State, work: int)
    requires CursorInv(s.con, s.q.list) && OfferInv(s.con, s.reg.slots) && Enabled(cfg, s, Tick)
    requires HoldsMessage(s.con) && !s.con.Remove?
    ensures 1 + Rank(ConsumerTick(s).con, work, |s.reg.slots|) <= Rank(s.con, work, |s.reg.slots|)
  {
  }

  lemma TickIsPaid(cfg: Config, s: State)
    requires FlowInv(s) && OfferInv(s.con, s.reg.slots) && InFlush(s.con) && Enabled(cfg, s, Tick)
    requires !s.con.Remove?
    ensures Paid(s, ConsumerTick(s), 1)
  {
    hide ConsumerTick, Rank;
    var work := |s.q.list| * Cost(|s.reg.slots|);
    TickKeepsQueue(s);
    if s.con.FlushEntry? {
      TickEnters(s, work);
    } else if s.con.LoopTest? {
      TickTests(s, work);
    } else {
      TickLowersRank(cfg, s, work);
    }
  }

  lemma TickEnters(s: State, work: nat)
    requires s.con.FlushEntry?
    ensures 1 + Rank(ConsumerTick(s).con, work, |s.reg.slots|) <= Rank(s.con, work, |s.reg.slots|)
  {
  }

  lemma TickTests(s: State, work: nat)
    requires s.con.LoopTest?
    ensures 1 + Rank(ConsumerTick(s).con, work, |s.reg.slots|) <= Rank(s.con, work, |s.reg.slots|)
  {
  }

  lemma TickKeepsQueue(s: State)
    requires InFlush(s.con) && !s.con.Remove?
    ensures ConsumerTick(s).q == s.q && ConsumerTick(s).reg == s.reg
  {
  }

  lemma RemoveIsPaid(cfg: Config, s: State)
    requires QueueInv(cfg, s.q) && FlowInv(s) && s.con.Remove?
    ensures Paid(s, ConsumerTick(s), 1)
  {
    RemoveEffect(cfg, s);
    RemovalPays(s, ConsumerTick(s));
  }

  lemma RemovalPays(s: State, s': State)
    requires s.con.Remove? && s'.con.LoopTest? && |s'.q.list| == |s.q.list| - 1
    requires s'.reg == s.reg && s'.q.accepted == s.q.accepted
    ensures Paid(s, s', 1)
  {
    CostOfOne(|s'.q.list|, |s.reg.slots|);
    assert |s'.q.list| * Cost(|s.reg.slots|) >= 0;
  }

  lemma ReturnIsPaid(cfg: Config, s: State, b: MsgBuf, res: int)
    requires OfferInv(s.con, s.reg.slots) && Enabled(cfg, s, Return(b, res))
    ensures Paid(s, Do(cfg, s, Return(b, res)), 1)
  {
    assert |Do(cfg, s, Return(b, res)).q.list| == |s.q.list|;
  }

  lemma ProducerIsPaid(cfg: Config, s: State, c: Call)
    requires Enabled(cfg, s, Kprintf(c))
    ensures Paid(s, Do(cfg, s, Kprintf(c)), 0)
  {
    KprintfResult(s.q, s.gstate == Started, cfg.bufsz, c);
    ArrivalPays(s, Do(cfg, s, Kprintf(c)));
  }

  lemma ArrivalPays(s: State, s': State)
    requires s'.con == s.con && s'.reg == s.reg
    requires s'.q == s.q || (|s'.q.list| == |s.q.list| + 1 && |s'.q.accepted| == |s.q.accepted| + 1)
    ensures Paid(s, s', 0)
  {
    CostOfOne(|s.q.list|, |s.reg.slots|);
  }

  lemma OthersArePaid(cfg: Config, s: State, step: Step)
    requires Enabled(cfg, s, step) && InFlush(s.con) && !Moves(step) && !step.Kprintf?
    requires |Do(cfg, s, step).reg.slots| == |s.reg.slots|
    ensures Paid(s, Do(cfg, s, step), 0)
  {
    Unchanged(cfg, s, step);
    assert Do(cfg, s, step).con == s.con;
  }

  predicate Moves(step: Step) {
    step.Tick? || step.Return?
  }

  /** A stretch of a run every step of which starts inside one flush. */
  predicate FlushRun(cfg: Config, s: State, steps: seq<Step>)
    decreases |steps|
  {
    steps == [] ||
    (InFlush(s.con) && Enabled(cfg, s, steps[0]) && FlushRun(cfg, Do(cfg, s, steps[0]), steps[1..]))
  }

  function CountMoves(steps: seq<Step>): nat {
    if steps == [] then 0 else (if Moves(steps[0]) then 1 else 0) + CountMoves(steps[1..])
  }

  lemma {:induction false} FlushRunFeasible(cfg: Config, s: State, steps: seq<Step>)
    requires FlushRun(cfg, s, steps)
    ensures Feasible(cfg, s, steps)
    decreases |steps|
  {
    if steps != [] { FlushRunFeasible(cfg, Do(cfg, s, steps[0]), steps[1..]); }
  }

  lemma FlushStep(cfg: Config, s: State, step: Step)
    requires Inv(cfg, s) && InFlush(s.con) && Enabled(cfg, s, step)
    ensures Paid(s, Do(cfg, s, step), if Moves(step) then 1 else 0)
  {
    match step
    case Tick => if s.con.Remove? { RemoveIsPaid(cfg, s); } else { TickIsPaid(cfg, s); }
    case Return(b, res) => ReturnIsPaid(cfg, s, b, res);
    case Kprintf(c) => ProducerIsPaid(cfg, s, c);
    case _ =>
      LogKept(cfg, s, step);
      OthersArePaid(cfg, s, step);
  }

  /** However producers and callers interleave, a flush of which `steps` is a stretch makes no
      more moves than the messages queued at its start and those accepted meanwhile account for. */
  lemma {:induction false} FlushTerminates(cfg: Config, s: State, steps: seq<Step>)
    requires Inv(cfg, s) && FlushRun(cfg, s, steps)
    ensures Feasible(cfg, s, steps)
    ensures Paid(s, Run(cfg, s, steps), CountMoves(steps))
    decreases |steps|
  {
    FlushRunFeasible(cfg, s, steps);
    if steps != [] {
      var s1 := Do(cfg, s, steps[0]);
      FlushStep(cfg, s, steps[0]);
      StepKeeps(cfg, s, steps[0]);
      FlushTerminates(cfg, s1, steps[1..]);
      PaidTogether(s, s1, Run(cfg, s, steps), if Moves(steps[0]) then 1 else 0, CountMoves(steps[1..]));
    }
  }

  lemma Distribute(a: int, b: int, c: int)
    ensures a * c + b * c == (a + b) * c
  {
  }

  /** The messages a stretch of a run removed: those it found and accepted, less those left. */
  lemma RoundsBalance(cfg: Config, s: State, steps: seq<Step>)
    requires Inv(cfg, s) && Feasible(cfg, s, steps)
    ensures var s' := Run(cfg, s, steps);
            && FlowInv(s') && OfferInv(s'.con, s'.reg.slots)
            && |s'.q.freed| - |s.q.freed| == |s.q.list| + (|s'.q.accepted| - |s.q.accepted|) - |s'.q.list|
  {
    RunKeeps(cfg, s, steps);
    var s' := Run(cfg, s, steps);
    assert |s.q.freed + Sents(s.q.list)| == |s.q.accepted|;
    assert |s'.q.freed + Sents(s'.q.list)| == |s'.q.accepted|;
  }

  /** One flush from its first statement: it handles the messages queued when it began and those
      accepted while it ran, except those it leaves, each in at most Cost moves. */
  lemma FlushIsBounded(cfg: Config, s: State, steps: seq<Step>)
    requires Inv(cfg, s) && s.con.FlushEntry? && FlushRun(cfg, s, steps)
    ensures Feasible(cfg, s, steps)
    ensures var s' := Run(cfg, s, steps);
            var more := |s'.q.accepted| - |s.q.accepted|;
            && |s'.q.freed| - |s.q.freed| == |s.q.list| + more - |s'.q.list|
            && CountMoves(steps) <= (|s.q.list| + more) * Cost(|s.reg.slots|) + 2
  {
    FlushTerminates(cfg, s, steps);
    RoundsBalance(cfg, s, steps);
    hide Inv, FlowInv, OfferInv, FlushRun, Paid, RankOf, Cost;
    var s' := Run(cfg, s, steps);
    RankNotNegative(s');
    PaidInFull(s, s', CountMoves(steps));
  }

  lemma PaidInFull(s: State, s': State, moves: int)
    requires s.con.FlushEntry? && Paid(s, s', moves) && RankOf(s') >= 0
    ensures moves <= (|s.q.list| + (|s'.q.accepted| - |s.q.accepted|)) * Cost(|s.reg.slots|) + 2
  {
    hide Cost;
    assert RankOf(s) == |s.q.list| * Cost(|s.reg.slots|) + 2;
    hide RankOf;
    Distribute(|s.q.list|, |s'.q.accepted| - |s.q.accepted|, Cost(|s.reg.slots|));
  }

  lemma RankNotNegative(s: State)
    requires FlowInv(s) && OfferInv(s.con, s.reg.slots)
    ensures RankOf(s) >= 0
  {
    if s.q.list != [] {
      CostOfOne(|s.q.list| - 1, |s.reg.slots|);
      assert (|s.q.list| - 1) * Cost(|s.reg.slots|) >= 0;
    }
  }

  // ---------------------------------------------------------------- what a flush reaches

  /** What a step inside a flush removes and what it leaves to be reached make up what was to be reached. */
  lemma ReachKept(cfg: Config, s: State, step: Step)
    requires QueueInv(cfg, s.q) && CursorInv(s.con, s.q.list) && InFlush(s.con) && Enabled(cfg, s, step)
    ensures var s' := Do(cfg, s, step);
            |s'.q.freed| - |s.q.freed| + Reach(s'.con, |s'.q.list|) >= Reach(s.con, |s.q.list|)
  {
    hide Do, Reach, QueueInv, CursorInv, Enabled;
    if Removes(s, step) {
      ReachKeptByRemove(cfg, s);
    } else if step.Tick? {
      ReachKeptByTick(cfg, s);
    } else if step.Kprintf? {
      ReachKeptByProducer(cfg, s, step.c);
    } else {
      ReachKeptByOthers(cfg, s, step);
    }
  }

  lemma ReachKeptByRemove(cfg: Config, s: State)
    requires QueueInv(cfg, s.q) && CursorInv(s.con, s.q.list) && s.con.Remove?
    ensures var s' := Do(cfg, s, Tick);
            |s'.q.freed| - |s.q.freed| + Reach(s'.con, |s'.q.list|) >= Reach(s.con, |s.q.list|)
  {
    RemoveEffect(cfg, s);
  }

  lemma ReachKeptByProducer(cfg: Config, s: State, c: Call)
    requires InFlush(s.con) && Enabled(cfg, s, Kprintf(c))
    ensures var s' := Do(cfg, s, Kprintf(c));
            s'.q.freed == s.q.freed && Reach(s'.con, |s'.q.list|) >= Reach(s.con, |s.q.list|)
  {
  }

  lemma ReachKeptByOthers(cfg: Config, s: State, step: Step)
    requires InFlush(s.con) && Enabled(cfg, s, step) && !step.Tick? && !step.Kprintf?
    ensures var s' := Do(cfg, s, step);
            s'.q.freed == s.q.freed && Reach(s'.con, |s'.q.list|) == Reach(s.con, |s.q.list|)
  {
    Unchanged(cfg, s, step);
  }

  lemma ReachKeptByTick(cfg: Config, s: State)
    requires QueueInv(cfg, s.q) && CursorInv(s.con, s.q.list) && InFlush(s.con) && Enabled(cfg, s, Tick)
    requires !s.con.Remove?
    ensures var s' := Do(cfg, s, Tick);
            s'.q == s.q && Reach(s'.con, |s'.q.list|) == Reach(s.con, |s.q.list|)
  {
    if s.con.ReadNext? { assert Find(s.q.list, s.con.m) == 0; }
  }

  /** However long a stretch of a flush is, the messages the flush was bound to reach at its start were
      removed or are still to be reached. */
  lemma {:induction false} FlushReaches(cfg: Config, s: State, steps: seq<Step>)
    requires Inv(cfg, s) && FlushRun(cfg, s, steps)
    ensures Feasible(cfg, s, steps)
    ensures var s' := Run(cfg, s, steps);
            |s'.q.freed| - |s.q.freed| + Reach(s'.con, |s'.q.list|) >= Reach(s.con, |s.q.list|)
    decreases |steps|
  {
    FlushRunFeasible(cfg, s, steps);
    if steps != [] {
      ReachKept(cfg, s, steps[0]);
      StepKeeps(cfg, s, steps[0]);
      FlushReaches(cfg, Do(cfg, s, steps[0]), steps[1..]);
    }
  }

  /** So a flush that has come to its signal has removed every message it was bound to reach. */
  lemma FlushRemovesCovered(cfg: Config, s: State, steps: seq<Step>)
    requires Inv(cfg, s) && FlushRun(cfg, s, steps) && Feasible(cfg, s, steps)
    requires Run(cfg, s, steps).con.Signal?
    ensures |Run(cfg, s, steps).q.freed| - |s.q.freed| >= Reach(s.con, |s.q.list|)
  {
    FlushReaches(cfg, s, steps);
  }
}
