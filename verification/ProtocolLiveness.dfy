/** What the pipeline can always still do: drain its queue, and acknowledge _stop. */
module ProtocolLiveness {
  import opened Base
  import opened Registry
  import opened MsgBuffer
  import opened Protocol
  import opened ProtocolInvariants
  import opened ProtocolTheorems
  import opened ProtocolFlush

  // ---------------------------------------------------------------- quiet stretches

  /** No producer calls, and no semaphore wait of the event thread fails. */
  predicate Quiet(step: Step) {
    !step.Kprintf? && !step.SemaError?
  }

  predicate AllQuiet(steps: seq<Step>) {
    forall k :: 0 <= k < |steps| ==> Quiet(steps[k])
  }

  /** An upper bound on the event thread's moves for everything queued. */
  function WorkOf(s: State): nat {
    |s.q.list| * Cost(|s.reg.slots|)
  }

  lemma QuietKeeps(cfg: Config, s: State, step: Step)
    requires Inv(cfg, s) && Enabled(cfg, s, step) && Quiet(step)
    ensures var s' := Do(cfg, s, step);
            && s'.q.accepted == s.q.accepted && |s'.reg.slots| == |s.reg.slots|
            && |s'.q.freed| - |s.q.freed| == |s.q.list| - |s'.q.list| >= 0
            && (!Moves(step) ==> s'.con == s.con && s'.q.list == s.q.list)
  {
    Unchanged(cfg, s, step);
    LogKept(cfg, s, step);
    if Removes(s, step) { RemoveEffect(cfg, s); }
  }

  lemma WorkShrinks(s: State, s': State)
    requires |s'.q.list| <= |s.q.list| && |s'.reg.slots| == |s.reg.slots|
    ensures WorkOf(s') <= WorkOf(s)
  {
    var a, b, c := |s'.q.list|, |s.q.list|, Cost(|s.reg.slots|);
    assert a * c + (b - a) * c == b * c;
  }

  /** What a move inside a flush leads to: on in the same flush, or its signal. */
  lemma FlushMoveStays(cfg: Config, s: State, step: Step)
    requires InFlush(s.con) && Enabled(cfg, s, step) && Moves(step)
    ensures var s' := Do(cfg, s, step);
            (InFlush(s'.con) || s'.con.Signal?) && TookTerminate(s'.con) == TookTerminate(s.con)
  {
  }

  lemma FlushMoveKeepsStop(cfg: Config, s: State, step: Step)
    requires InFlush(s.con) && Enabled(cfg, s, step) && Moves(step)
    ensures Do(cfg, s, step).stop == s.stop && Do(cfg, s, step).stopOk == s.stopOk
  {
  }

  /** Without producers every move in a flush lowers its rank. */
  lemma FlushMoveLowers(cfg: Config, s: State, step: Step)
    requires Inv(cfg, s) && InFlush(s.con) && Enabled(cfg, s, step) && Moves(step)
    ensures RankOf(Do(cfg, s, step)) + 1 <= RankOf(s)
  {
    hide Inv, Enabled, Do, RankOf;
    FlushStep(cfg, s, step);
    QuietKeeps(cfg, s, step);
  }

  lemma RankAfter(cfg: Config, s: State, step: Step)
    requires Inv(cfg, s) && Enabled(cfg, s, step)
    ensures RankOf(s) >= 0 && RankOf(Do(cfg, s, step)) >= 0
  {
    StepKeeps(cfg, s, step);
    RankNotNegative(s);
    RankNotNegative(Do(cfg, s, step));
  }

  /** The moves a caller that holds the semaphore still makes before it gives it back. */
  ghost function HolderMoves(clients: map<nat, Client>): (n: nat)
    ensures n <= 2
  {
    if exists tid :: tid in clients && clients[tid].Critical? then 2
    else if exists tid :: tid in clients && clients[tid].Leaving? then 1
    else 0
  }

  lemma HolderMoveLowers(s: State, tid: nat)
    requires SemaInv(s.sema, ThreadHolds(s.con), s.clients) && CallerHolds(s.clients, tid)
    ensures HolderMoves(ClientMove(s, tid).clients) < HolderMoves(s.clients)
  {
    OnlyHolder(s.sema, ThreadHolds(s.con), s.clients, Caller(tid));
    var s' := ClientMove(s, tid);
    forall t | t in s'.clients && t != tid ensures s'.clients[t].Asking? {
      assert Caller(t) !in Holders(ThreadHolds(s.con), s.clients);
    }
  }

  lemma Prepend(cfg: Config, s: State, step: Step, rest: seq<Step>)
    requires Enabled(cfg, s, step) && Feasible(cfg, Do(cfg, s, step), rest)
    requires Quiet(step) && AllQuiet(rest)
    ensures Feasible(cfg, s, [step] + rest) && AllQuiet([step] + rest)
    ensures Run(cfg, s, [step] + rest) == Run(cfg, Do(cfg, s, step), rest)
  {
    hide Enabled, Do;
    assert ([step] + rest)[1..] == rest;
  }

  // ---------------------------------------------------------------- draining the queue

  /** The event thread has given up its last flush. Nothing but a failing semaphore wait makes it so. */
  lemma NeverGivesUp(cfg: Config, s: State, step: Step)
    requires Inv(cfg, s) && Enabled(cfg, s, step) && !step.SemaError? && !GivesUp(s.con) && !s.con.Boot?
    ensures !GivesUp(Do(cfg, s, step).con) && !Do(cfg, s, step).con.Boot?
  {
    hide Do, GivesUp, Enabled;
    GivesUpByFailure(cfg, s, step);
  }

  lemma GivesUpByFailure(cfg: Config, s: State, step: Step)
    requires StopInv(s) && Enabled(cfg, s, step) && !step.SemaError? && !GivesUp(s.con) && !s.con.Boot?
    ensures !GivesUp(Do(cfg, s, step).con) && !Do(cfg, s, step).con.Boot?
  {
  }

  /** An upper bound on the event thread's moves until the first k of `size` queued messages have been
      removed: the flush in progress is enough unless it misses some of them, appended late, which the
      next one gets to. `work` is the cost of k messages and `rank` the rank for them. */
  function ToServe(con: Consumer, size: nat, k: nat, rank: int, work: int): int {
    match con
    case AwaitSema(_) => work + 3
    case Wait => work + 4
    case TermCheck(_, _) => work + 5
    case Resend(_) => work + 6
    case Signal(_) => work + 6
    case Boot => 0
    case Exited(_) => 0
    case _ => if Reach(con, size) < k then rank + work + 6 else rank
  }

  function RankFor(s: State, k: nat): int {
    Rank(s.con, k * Cost(|s.reg.slots|), |s.reg.slots|)
  }

  function ServeMoves(s: State, k: nat): int {
    ToServe(s.con, |s.q.list|, k, RankFor(s, k), k * Cost(|s.reg.slots|))
  }

  function DrainMoves(s: State): int {
    ServeMoves(s, |s.q.list|)
  }

  /** How many messages a step removes. */
  function Removed(s: State, step: Step): nat {
    if Removes(s, step) then 1 else 0
  }

  lemma RankLowersByRemove(cfg: Config, s: State, k: nat)
    requires QueueInv(cfg, s.q) && CursorInv(s.con, s.q.list) && s.con.Remove? && k > 0
    ensures RankFor(Do(cfg, s, Tick), k - 1) + 1 <= RankFor(s, k)
  {
    RemoveEffect(cfg, s);
    var s' := ConsumerTick(s);
    hide ConsumerTick;
    CostOfOne(k - 1, |s.reg.slots|);
    assert (k - 1) * Cost(|s.reg.slots|) >= 0;
    assert s'.con == LoopTest(s.con.t, s.con.n) && s'.reg == s.reg;
  }

  lemma RankLowersByTick(cfg: Config, s: State, k: nat)
    requires CursorInv(s.con, s.q.list) && OfferInv(s.con, s.reg.slots) && InFlush(s.con)
    requires Enabled(cfg, s, Tick) && !s.con.Remove?
    ensures RankFor(Do(cfg, s, Tick), k) + 1 <= RankFor(s, k)
  {
    hide ConsumerTick, Rank;
    TickKeepsQueue(s);
    var work := k * Cost(|s.reg.slots|);
    if s.con.FlushEntry? {
      TickEnters(s, work);
    } else if s.con.LoopTest? {
      TickTests(s, work);
    } else {
      TickLowersRank(cfg, s, work);
    }
  }

  lemma RankLowersByReturn(cfg: Config, s: State, b: MsgBuf, res: int, k: nat)
    requires OfferInv(s.con, s.reg.slots) && Enabled(cfg, s, Return(b, res))
    ensures RankFor(Do(cfg, s, Return(b, res)), k) + 1 <= RankFor(s, k)
  {
  }

  /** Every move in a flush lowers the rank for the first k messages, whatever else is queued. */
  lemma RankLowers(cfg: Config, s: State, step: Step, k: nat)
    requires Inv(cfg, s) && InFlush(s.con) && Enabled(cfg, s, step) && Moves(step) && k > 0
    ensures RankFor(Do(cfg, s, step), k - Removed(s, step)) + 1 <= RankFor(s, k)
  {
    hide Do, RankFor, Enabled;
    if Removes(s, step) {
      RankLowersByRemove(cfg, s, k);
    } else if step.Tick? {
      RankLowersByTick(cfg, s, k);
    } else {
      RankLowersByReturn(cfg, s, step.b, step.res, k);
    }
  }

  lemma WorkOfFewer(k: nat, g: nat, slots: nat)
    requires g <= k
    ensures 0 <= (k - g) * Cost(slots) <= k * Cost(slots)
  {
    assert (k - g) * Cost(slots) + g * Cost(slots) == k * Cost(slots);
  }

  lemma RankForBounds(cfg: Config, s: State, k: nat)
    requires Inv(cfg, s) && k > 0
    ensures 0 <= RankFor(s, k) <= k * Cost(|s.reg.slots|) + 2
  {
    hide Rank, Cost;
    WorkOfFewer(k, k - 1, |s.reg.slots|);
    RankWithin(s.con, k * Cost(|s.reg.slots|), s.reg.slots);
  }

  lemma RankWithin(con: Consumer, work: int, slots: seq<Slot>)
    requires OfferInv(con, slots) && work >= Cost(|slots|)
    ensures 0 <= Rank(con, work, |slots|) <= work + 2
  {
  }

  /** Steps that are not the event thread's, producer calls included, and its moves outside a flush. */
  lemma SizesKept(cfg: Config, s: State, step: Step)
    requires Inv(cfg, s) && Enabled(cfg, s, step) && !step.SemaError?
    ensures var s' := Do(cfg, s, step);
            && |s'.reg.slots| == |s.reg.slots|
            && |s'.q.freed| == |s.q.freed| + Removed(s, step)
            && |s'.q.list| >= |s.q.list| - Removed(s, step)
            && (!Moves(step) ==> s'.con == s.con)
  {
    if step.Kprintf? {
      KprintfResult(s.q, s.gstate == Started, cfg.bufsz, step.c);
      Unchanged(cfg, s, step);
    } else {
      QuietKeeps(cfg, s, step);
      Unchanged(cfg, s, step);
      if Removes(s, step) { RemoveEffect(cfg, s); }
    }
  }

  lemma ServeInFlush(cfg: Config, s: State, step: Step, k: nat)
    requires Inv(cfg, s) && InFlush(s.con) && Enabled(cfg, s, step) && Moves(step)
    requires Removed(s, step) < k <= |s.q.list|
    ensures ServeMoves(Do(cfg, s, step), k - Removed(s, step)) + 1 <= ServeMoves(s, k)
  {
    hide Do, Enabled, ServeMoves, RankFor, Reach, InFlush, Cost;
    var s', k' := Do(cfg, s, step), k - Removed(s, step);
    FlushMoveStays(cfg, s, step);
    RankLowers(cfg, s, step, k);
    SizesKept(cfg, s, step);
    ReachKept(cfg, s, step);
    StepKeeps(cfg, s, step);
    hide Inv;
    RankForBounds(cfg, s', k');
    WorkOfFewer(k, Removed(s, step), |s.reg.slots|);
    FlushNearsServed(s, s', k, k');
  }

  lemma FlushNearsServed(s: State, s': State, k: nat, k': nat)
    requires InFlush(s.con) && (InFlush(s'.con) || s'.con.Signal?) && |s'.reg.slots| == |s.reg.slots|
    requires 0 < k' <= k && k' * Cost(|s.reg.slots|) <= k * Cost(|s.reg.slots|)
    requires 0 <= RankFor(s', k') < RankFor(s, k)
    requires k - k' + Reach(s'.con, |s'.q.list|) >= Reach(s.con, |s.q.list|)
    ensures ServeMoves(s', k') + 1 <= ServeMoves(s, k)
  {
    hide RankFor, Cost;
    if s'.con.Signal? { assert Reach(s'.con, |s'.q.list|) == 0; }
  }

  lemma ServeElsewhere(cfg: Config, s: State, k: nat)
    requires Inv(cfg, s) && Enabled(cfg, s, Tick) && 0 < k <= |s.q.list|
    requires !InFlush(s.con) && !s.con.Boot? && !GivesUp(s.con)
    ensures ServeMoves(Do(cfg, s, Tick), k) + 1 <= ServeMoves(s, k)
  {
  }

  lemma ServeMeanwhile(s: State, s': State, k: nat)
    requires s'.con == s.con && |s'.reg.slots| == |s.reg.slots| && k <= |s.q.list| <= |s'.q.list|
    ensures ServeMoves(s', k) == ServeMoves(s, k)
  {
    hide Rank, Cost;
    assert Reach(s.con, |s'.q.list|) < k <==> Reach(s.con, |s.q.list|) < k;
  }

  /** Every move of the event thread brings it nearer to having removed the first k messages, and no other
      step, of a producer or anyone else, takes it further away. */
  lemma ServeStep(cfg: Config, s: State, step: Step, k: nat)
    requires Inv(cfg, s) && Enabled(cfg, s, step) && !step.SemaError?
    requires Removed(s, step) < k <= |s.q.list| && !s.con.Boot? && !GivesUp(s.con)
    ensures ServeMoves(Do(cfg, s, step), k - Removed(s, step)) + (if Moves(step) then 1 else 0) <= ServeMoves(s, k)
  {
    hide Inv, Do, ServeMoves, GivesUp;
    if !Moves(step) {
      SizesKept(cfg, s, step);
      ServeMeanwhile(s, Do(cfg, s, step), k);
    } else if InFlush(s.con) {
      ServeInFlush(cfg, s, step, k);
    } else {
      ServeElsewhere(cfg, s, k);
    }
  }

  /** On a quiet stretch every move of the event thread brings it nearer to an empty queue, and no other
      step takes it further away. */
  lemma DrainStep(cfg: Config, s: State, step: Step)
    requires Inv(cfg, s) && Enabled(cfg, s, step) && Quiet(step)
    requires s.q.list != [] && !s.con.Boot? && !GivesUp(s.con)
    ensures var s' := Do(cfg, s, step);
            s'.q.list != [] ==> DrainMoves(s') + (if Moves(step) then 1 else 0) <= DrainMoves(s)
  {
    hide ServeMoves, Do, Enabled;
    QuietKeeps(cfg, s, step);
    SizesKept(cfg, s, step);
    if Do(cfg, s, step).q.list != [] { ServeStep(cfg, s, step, |s.q.list|); }
  }

  lemma ServeBounds(cfg: Config, s: State, k: nat)
    requires Inv(cfg, s) && k > 0
    ensures 0 <= ServeMoves(s, k) <= 2 * (k * Cost(|s.reg.slots|)) + 8
  {
    RankForBounds(cfg, s, k);
    WorkOfFewer(k, 0, |s.reg.slots|);
    hide RankFor, Cost;
  }

  predicate NoFailingWait(steps: seq<Step>) {
    forall j :: 0 <= j < |steps| ==> !steps[j].SemaError?
  }

  lemma {:induction false} FreedGrows(cfg: Config, s: State, steps: seq<Step>)
    requires Inv(cfg, s) && Feasible(cfg, s, steps) && NoFailingWait(steps)
    ensures |Run(cfg, s, steps).q.freed| >= |s.q.freed|
    decreases |steps|
  {
    hide Inv, Do, Enabled;
    if steps != [] {
      SizesKept(cfg, s, steps[0]);
      StepKeeps(cfg, s, steps[0]);
      FreedGrows(cfg, Do(cfg, s, steps[0]), steps[1..]);
    }
  }

  lemma {:induction false} ServedWithin(cfg: Config, s: State, steps: seq<Step>, k: nat)
    requires Inv(cfg, s) && !s.con.Boot? && !GivesUp(s.con) && Feasible(cfg, s, steps) && NoFailingWait(steps)
    requires 0 < k <= |s.q.list|
    ensures |Run(cfg, s, steps).q.freed| - |s.q.freed| >= k || CountMoves(steps) <= ServeMoves(s, k)
    decreases |steps|
  {
    hide Inv, Do, Enabled, ServeMoves, GivesUp, Removed, Cost;
    ServeBounds(cfg, s, k);
    if steps != [] {
      NeverGivesUp(cfg, s, steps[0]);
      var s', g := Do(cfg, s, steps[0]), Removed(s, steps[0]);
      SizesKept(cfg, s, steps[0]);
      StepKeeps(cfg, s, steps[0]);
      if g < k {
        ServeStep(cfg, s, steps[0], k);
        ServedWithin(cfg, s', steps[1..], k - g);
      } else {
        FreedGrows(cfg, s', steps[1..]);
      }
    }
  }

  /** No message starves: of what is queued in a reachable state the first k messages are removed within the
      moves of two flushes of k messages, however many more the producers send meanwhile, as long as no
      semaphore wait of the event thread fails. */
  lemma NoStarvation(cfg: Config, steps: seq<Step>, more: seq<Step>, k: nat)
    requires Feasible(cfg, Init(cfg), steps) && 0 < k <= |Reached(cfg, steps).q.list|
    requires !Reached(cfg, steps).con.Boot? && !GivesUp(Reached(cfg, steps).con)
    requires Feasible(cfg, Reached(cfg, steps), more) && NoFailingWait(more)
    ensures var s := Reached(cfg, steps);
            || s.q.freed + Sents(s.q.list)[..k] <= Run(cfg, s, more).q.freed
            || CountMoves(more) <= 2 * (k * Cost(|s.reg.slots|)) + 8
  {
    ReachableInv(cfg, steps);
    ServedWithin(cfg, Reached(cfg, steps), more, k);
    ServeBounds(cfg, Reached(cfg, steps), k);
    RemovedInOrder(cfg, Reached(cfg, steps), more, k);
  }

  /** If k more messages have been removed, they are the first k that were queued. */
  lemma RemovedInOrder(cfg: Config, s: State, more: seq<Step>, k: nat)
    requires Inv(cfg, s) && Feasible(cfg, s, more) && k <= |s.q.list|
    ensures |Run(cfg, s, more).q.freed| - |s.q.freed| >= k ==>
              s.q.freed + Sents(s.q.list)[..k] <= Run(cfg, s, more).q.freed
  {
    AcceptedRun(cfg, s, more);
    RunKeeps(cfg, s, more);
    var s' := Run(cfg, s, more);
    assert s'.q.freed + Sents(s'.q.list) == (s.q.freed + Sents(s.q.list)) + Accepted(cfg, s, more);
    SamePrefix(s.q.freed, Sents(s.q.list), Accepted(cfg, s, more), s'.q.freed, Sents(s'.q.list), k);
  }

  lemma SamePrefix<T>(a: seq<T>, b: seq<T>, c: seq<T>, d: seq<T>, e: seq<T>, k: nat)
    requires d + e == (a + b) + c && k <= |b|
    ensures |d| - |a| >= k ==> a + b[..k] <= d
  {
    if |d| - |a| >= k {
      assert forall i :: 0 <= i < |a| + k ==> (a + b[..k])[i] == (a + b)[i] == ((a + b) + c)[i] == (d + e)[i] == d[i];
    }
  }

  lemma DrainBounds(cfg: Config, s: State)
    requires Inv(cfg, s)
    ensures 0 <= DrainMoves(s) <= 2 * WorkOf(s) + 8
  {
    if s.q.list != [] { ServeBounds(cfg, s, |s.q.list|); }
  }

  /** A quiet stretch of a run with something queued before each of its steps. */
  predicate QueuedRun(cfg: Config, s: State, steps: seq<Step>)
    decreases |steps|
  {
    steps == [] ||
    (s.q.list != [] && Quiet(steps[0]) && Enabled(cfg, s, steps[0])
     && QueuedRun(cfg, Do(cfg, s, steps[0]), steps[1..]))
  }

  lemma {:induction false} QueuedMoves(cfg: Config, s: State, steps: seq<Step>)
    requires Inv(cfg, s) && !s.con.Boot? && !GivesUp(s.con) && QueuedRun(cfg, s, steps)
    ensures CountMoves(steps) <= DrainMoves(s) + 1
    decreases |steps|
  {
    DrainBounds(cfg, s);
    if steps != [] {
      var s' := Do(cfg, s, steps[0]);
      StepKeeps(cfg, s, steps[0]);
      NeverGivesUp(cfg, s, steps[0]);
      DrainStep(cfg, s, steps[0]);
      if s'.q.list == [] {
        assert steps[1..] == [];
      } else {
        QueuedMoves(cfg, s', steps[1..]);
      }
    }
  }

  lemma TwoFlushes(s: State)
    ensures 2 * WorkOf(s) == 2 * |s.q.list| * Cost(|s.reg.slots|)
  {
  }

  /** Whatever registry callers and _stop do meanwhile, as long as producers pause and no semaphore wait of
      the event thread fails, it makes no more moves than two flushes of the queue take before nothing
      is queued. */
  lemma DrainIsBounded(cfg: Config, steps: seq<Step>, more: seq<Step>)
    requires Feasible(cfg, Init(cfg), steps)
    requires var s := Reached(cfg, steps); !s.con.Boot? && !GivesUp(s.con) && QueuedRun(cfg, s, more)
    ensures var s := Reached(cfg, steps); CountMoves(more) <= 2 * |s.q.list| * Cost(|s.reg.slots|) + 9
  {
    ReachableInv(cfg, steps);
    var s := Reached(cfg, steps);
    QueuedMoves(cfg, s, more);
    DrainBounds(cfg, s);
    TwoFlushes(s);
  }

  /** The next step on the way to an empty queue: the event thread's, or the caller's it waits for. */
  lemma DrainNext(cfg: Config, s: State) returns (step: Step)
    requires Inv(cfg, s) && s.q.list != [] && !s.con.Boot? && !GivesUp(s.con)
    ensures Enabled(cfg, s, step) && Quiet(step)
    ensures var s' := Do(cfg, s, step);
            && Inv(cfg, s') && !s'.con.Boot? && !GivesUp(s'.con)
            && (s'.q.list != [] ==>
                  DrainMoves(s') + HolderMoves(s'.clients) < DrainMoves(s) + HolderMoves(s.clients))
  {
    step := SomeoneMoves(cfg, s);
    NeverGivesUp(cfg, s, step);
    DrainStep(cfg, s, step);
    WorkLowersHolder(cfg, s, step);
    hide Do, Enabled, DrainMoves, HolderMoves;
    StepKeeps(cfg, s, step);
  }

  /** Work leaves the callers alone, or brings the one that holds the semaphore nearer to its end. */
  lemma WorkLowersHolder(cfg: Config, s: State, step: Step)
    requires Inv(cfg, s) && Enabled(cfg, s, step) && Work(s, step)
    ensures var s' := Do(cfg, s, step);
            if Moves(step) then s'.clients == s.clients
            else s'.con == s.con && s.con.AwaitSema? && HolderMoves(s'.clients) < HolderMoves(s.clients)
  {
    hide HolderMoves;
    if step.ClientTick? {
      HolderMoveLowers(s, step.tid);
      QuietKeeps(cfg, s, step);
    } else {
      MovesKeepCallers(cfg, s, step);
    }
  }

  lemma MovesKeepCallers(cfg: Config, s: State, step: Step)
    requires Enabled(cfg, s, step) && Moves(step)
    ensures Do(cfg, s, step).clients == s.clients
  {
  }

  /** From any state past the start-up, unless the event thread has given up, the queue can be drained
      without a failing wait, within that bound and the two moves of a caller that holds the semaphore. */
  lemma {:induction false} Drain(cfg: Config, s: State) returns (more: seq<Step>)
    requires Inv(cfg, s) && !s.con.Boot? && !GivesUp(s.con)
    ensures Feasible(cfg, s, more) && AllQuiet(more) && Run(cfg, s, more).q.list == []
    ensures |more| <= DrainMoves(s) + HolderMoves(s.clients) + 1
    decreases |s.q.list| > 0, DrainMoves(s) + HolderMoves(s.clients)
  {
    hide Do, Enabled, DrainMoves, HolderMoves, Inv, GivesUp;
    DrainBounds(cfg, s);
    more := [];
    if s.q.list != [] {
      var step := DrainNext(cfg, s);
      var rest := [];
      if Do(cfg, s, step).q.list != [] { rest := Drain(cfg, Do(cfg, s, step)); }
      Prepend(cfg, s, step, rest);
      more := [step] + rest;
    }
  }

  /** The queue of every such reachable state can be drained. */
  lemma QueueCanDrain(cfg: Config, steps: seq<Step>) returns (more: seq<Step>)
    requires Feasible(cfg, Init(cfg), steps)
    requires !Reached(cfg, steps).con.Boot? && !GivesUp(Reached(cfg, steps).con)
    ensures var s := Reached(cfg, steps);
            && Feasible(cfg, s, more) && AllQuiet(more) && Run(cfg, s, more).q.list == []
            && |more| <= 2 * |s.q.list| * Cost(|s.reg.slots|) + 11
  {
    ReachableInv(cfg, steps);
    hide Inv, DrainMoves, HolderMoves, GivesUp;
    var s := Reached(cfg, steps);
    more := Drain(cfg, s);
    DrainBounds(cfg, s);
    TwoFlushes(s);
  }

  lemma GivenUpStep(cfg: Config, s: State, step: Step)
    requires StopInv(s) && GivesUp(s.con) && Enabled(cfg, s, step)
    ensures GivesUp(Do(cfg, s, step).con) && Do(cfg, s, step).q.list == s.q.list
  {
    Unchanged(cfg, s, step);
  }

  /** Once it has given up, what is queued stays queued. */
  lemma {:induction false} GivenUpStays(cfg: Config, s: State, more: seq<Step>)
    requires Inv(cfg, s) && GivesUp(s.con) && Feasible(cfg, s, more)
    ensures Run(cfg, s, more).q.list == s.q.list
    decreases |more|
  {
    if more != [] {
      GivenUpStep(cfg, s, more[0]);
      StepKeeps(cfg, s, more[0]);
      GivenUpStays(cfg, Do(cfg, s, more[0]), more[1..]);
    }
  }

  /** The event thread spins in its start-up loop for good. */
  predicate NeverBoots(s: State) {
    s.con.Boot? && s.gstate == Stopped
  }

  /** Exactly when what is queued in a reachable state can still reach the handlers: unless the event
      thread has given up its last flush, or was stopped before it started. */
  lemma QueueDrainsExactly(cfg: Config, steps: seq<Step>)
    requires Feasible(cfg, Init(cfg), steps) && Reached(cfg, steps).q.list != []
    ensures var s := Reached(cfg, steps);
            (exists more :: Feasible(cfg, s, more) && Run(cfg, s, more).q.list == [])
            <==> !GivesUp(s.con) && !NeverBoots(s)
  {
    ReachableInv(cfg, steps);
    var s := Reached(cfg, steps);
    if GivesUp(s.con) || NeverBoots(s) {
      forall more | Feasible(cfg, s, more) ensures Run(cfg, s, more).q.list == s.q.list {
        if GivesUp(s.con) { GivenUpStays(cfg, s, more); } else { StopBeforeBoot(cfg, s, more); }
      }
    } else if s.con.Boot? {
      var s' := Do(cfg, s, Tick);
      StepKeeps(cfg, s, Tick);
      var rest := Drain(cfg, s');
      Prepend(cfg, s, Tick, rest);
      assert Run(cfg, s, [Tick] + rest).q.list == [];
    } else {
      var more := Drain(cfg, s);
    }
  }

  // ---------------------------------------------------------------- acknowledging _stop

  /** While _stop waits, its event is pending, taken, or answered. */
  ghost predicate HandshakeInv(s: State) {
    && (s.stop == Waiting ==> s.stopOk || s.terminate || (TookTerminate(s.con) && !s.con.Exited?))
    && (s.con.Exited? ==> s.stop in {Waiting, StopOk, TimedOut})
    && (TookTerminate(s.con) ==> !s.terminate)
  }

  lemma HandshakeKept(cfg: Config, s: State, step: Step)
    requires StopInv(s) && HandshakeInv(s) && Enabled(cfg, s, step)
    ensures HandshakeInv(Do(cfg, s, step))
  {
  }

  lemma {:induction false} HandshakeRun(cfg: Config, s: State, steps: seq<Step>)
    requires Inv(cfg, s) && HandshakeInv(s) && Feasible(cfg, s, steps)
    ensures HandshakeInv(Run(cfg, s, steps))
    decreases |steps|
  {
    if steps != [] {
      HandshakeKept(cfg, s, steps[0]);
      StepKeeps(cfg, s, steps[0]);
      HandshakeRun(cfg, Do(cfg, s, steps[0]), steps[1..]);
    }
  }

  /** How far the event thread is from its next test of EV_TERMINATE. */
  function ToTest(con: Consumer, rank: int, work: int): int {
    match con
    case TermCheck(_, _) => 1
    case Resend(_) => 2
    case Signal(_) => 2
    case AwaitSema(_) => work + 6
    case Wait => 0
    case Boot => 0
    case Exited(_) => 0
    case _ => rank + 3
  }

  /** How far it is from answering: a round that has not taken EV_TERMINATE comes before one that has. */
  function ToAnswer(s: State): int {
    ToTest(s.con, RankOf(s), WorkOf(s)) + if s.con.Exited? || TookTerminate(s.con) then 0 else WorkOf(s) + 7
  }

  lemma AnswerInFlush(cfg: Config, s: State, step: Step)
    requires Inv(cfg, s) && InFlush(s.con) && Enabled(cfg, s, step) && Moves(step)
    ensures var s' := Do(cfg, s, step);
            ToAnswer(s') < ToAnswer(s) && s'.stop == s.stop && s'.stopOk == s.stopOk && !s'.con.Boot?
  {
    FlushMoveStays(cfg, s, step);
    FlushMoveKeepsStop(cfg, s, step);
    FlushMoveLowers(cfg, s, step);
    RankAfter(cfg, s, step);
    QuietKeeps(cfg, s, step);
    WorkShrinks(s, Do(cfg, s, step));
    CloserToTest(s, Do(cfg, s, step));
  }

  lemma CloserToTest(s: State, s': State)
    requires InFlush(s.con) && (InFlush(s'.con) || s'.con.Signal?) && WorkOf(s') <= WorkOf(s)
    requires TookTerminate(s'.con) == TookTerminate(s.con) && 0 <= RankOf(s') < RankOf(s)
    ensures ToAnswer(s') < ToAnswer(s)
  {
    hide RankOf, WorkOf;
  }

  lemma AnswerElsewhere(cfg: Config, s: State)
    requires FlowInv(s) && HandshakeInv(s) && s.stop == Waiting && !s.stopOk && Enabled(cfg, s, Tick)
    requires !InFlush(s.con) && !s.con.Boot?
    ensures var s' := Do(cfg, s, Tick);
            !s'.con.Boot? && s'.stop == s.stop && (s'.stopOk || ToAnswer(s') < ToAnswer(s))
  {
  }

  /** The next step on the way to EV_STOP_OK. */
  lemma AnswerNext(cfg: Config, s: State) returns (step: Step)
    requires Inv(cfg, s) && HandshakeInv(s) && s.stop == Waiting && !s.con.Boot? && !s.stopOk
    ensures Enabled(cfg, s, step) && Quiet(step)
    ensures var s' := Do(cfg, s, step);
            && Inv(cfg, s') && HandshakeInv(s') && s'.stop == Waiting && !s'.con.Boot?
            && (!GivesUp(s.con) ==> !GivesUp(s'.con))
            && (s'.stopOk || ToAnswer(s') + HolderMoves(s'.clients) < ToAnswer(s) + HolderMoves(s.clients))
  {
    step := SomeoneMoves(cfg, s);
    WorkLowersHolder(cfg, s, step);
    if !Moves(step) {
      QuietKeeps(cfg, s, step);
      assert Do(cfg, s, step).stop == s.stop;
    } else if InFlush(s.con) {
      AnswerInFlush(cfg, s, step);
    } else {
      AnswerElsewhere(cfg, s);
    }
    if !GivesUp(s.con) { NeverGivesUp(cfg, s, step); }
    hide Do, Enabled, ToAnswer, HolderMoves;
    StepKeeps(cfg, s, step);
    HandshakeKept(cfg, s, step);
  }

  lemma ToAnswerNotNegative(cfg: Config, s: State)
    requires Inv(cfg, s)
    ensures ToAnswer(s) >= 0
  {
    RankNotNegative(s);
    hide RankOf;
  }

  lemma TakeAnswer(cfg: Config, s: State) returns (more: seq<Step>)
    requires Inv(cfg, s) && s.stop == Waiting && s.stopOk
    ensures Feasible(cfg, s, more) && AllQuiet(more) && Run(cfg, s, more).stop == StopOk
    ensures !GivesUp(s.con) ==> Run(cfg, s, more).q.list == []
  {
    more := [StopTick];
    assert more[1..] == [];
  }

  /** Past its start-up the event thread can always reach EV_STOP_OK without a failing wait, and then
      leaves nothing queued unless it has already given up. */
  lemma {:induction false} Acknowledge(cfg: Config, s: State) returns (more: seq<Step>)
    requires Inv(cfg, s) && HandshakeInv(s) && s.stop == Waiting && !s.con.Boot?
    ensures Feasible(cfg, s, more) && AllQuiet(more) && Run(cfg, s, more).stop == StopOk
    ensures !GivesUp(s.con) ==> Run(cfg, s, more).q.list == []
    decreases !s.stopOk, ToAnswer(s) + HolderMoves(s.clients)
  {
    hide Inv, HandshakeInv, Enabled, Do, ToAnswer, HolderMoves, GivesUp;
    if s.stopOk {
      more := TakeAnswer(cfg, s);
    } else {
      ToAnswerNotNegative(cfg, s);
      var step := AnswerNext(cfg, s);
      var rest := Acknowledge(cfg, Do(cfg, s, step));
      Prepend(cfg, s, step, rest);
      more := [step] + rest;
    }
  }

  /** Exactly when _stop, waiting, can still be acknowledged: when the event thread has left its start-up
      loop. Then producers and failing waits are not needed for it. */
  lemma StopAcknowledgedExactly(cfg: Config, steps: seq<Step>)
    requires Feasible(cfg, Init(cfg), steps) && Reached(cfg, steps).stop == Waiting
    ensures var s := Reached(cfg, steps);
            (exists more :: Feasible(cfg, s, more) && Run(cfg, s, more).stop == StopOk) <==> !s.con.Boot?
    ensures var s := Reached(cfg, steps);
            !s.con.Boot? ==>
              exists more :: Feasible(cfg, s, more) && AllQuiet(more) && Run(cfg, s, more).stop == StopOk
                             && (!GivesUp(s.con) ==> Run(cfg, s, more).q.list == [])
  {
    var s := Reached(cfg, steps);
    ReachableInv(cfg, steps);
    InitInv(cfg);
    HandshakeRun(cfg, Init(cfg), steps);
    if s.con.Boot? {
      forall more | Feasible(cfg, s, more) ensures Run(cfg, s, more).stop != StopOk {
        StopBeforeBoot(cfg, s, more);
      }
    } else {
      var more := Acknowledge(cfg, s);
    }
  }

  /** The library is started and stopped before its event thread has run. */
  function StopAtOnce(): seq<Step> {
    [] + [InitDone] + [StopTick] + [StopTick] + [StopTick]
  }

  /** In this run _stop waits in vain: whatever happens next, it is not acknowledged. */
  lemma StopAtOnceIsNotAcknowledged(cfg: Config, more: seq<Step>)
    ensures Feasible(cfg, Init(cfg), StopAtOnce())
    ensures Reached(cfg, StopAtOnce()).stop == Waiting
    ensures Feasible(cfg, Reached(cfg, StopAtOnce()), more) ==>
              Run(cfg, Reached(cfg, StopAtOnce()), more).stop != StopOk
  {
    var i := Init(cfg);
    ExtendRun(cfg, i, [], InitDone);
    ExtendRun(cfg, i, [] + [InitDone], StopTick);
    ExtendRun(cfg, i, [] + [InitDone] + [StopTick], StopTick);
    ExtendRun(cfg, i, [] + [InitDone] + [StopTick] + [StopTick], StopTick);
    ReachableInv(cfg, StopAtOnce());
    if Feasible(cfg, Reached(cfg, StopAtOnce()), more) {
      StopBeforeBoot(cfg, Reached(cfg, StopAtOnce()), more);
    }
  }

  /** The same with a message accepted before _stop. */
  function StopAtOnceWithMessage(): seq<Step> {
    [] + [InitDone] + [Kprintf(FirstCall())] + [StopTick] + [StopTick] + [StopTick]
  }

  /** In this run, whatever happens next, the message stays queued and _stop is not acknowledged. */
  lemma MessageStaysQueued(cfg: Config, more: seq<Step>)
    requires cfg.bufsz > 1 && cfg.pool >= BlockSize(1)
    ensures Feasible(cfg, Init(cfg), StopAtOnceWithMessage())
    ensures var s := Reached(cfg, StopAtOnceWithMessage());
            && NeverBoots(s) && s.stop == Waiting && |s.q.list| == 1
            && (Feasible(cfg, s, more) ==> Run(cfg, s, more).stop != StopOk && Run(cfg, s, more).q.list == s.q.list)
  {
    var i := Init(cfg);
    ExtendRun(cfg, i, [], InitDone);
    ExtendRun(cfg, i, [] + [InitDone], Kprintf(FirstCall()));
    var r := [] + [InitDone] + [Kprintf(FirstCall())];
    ExtendRun(cfg, i, r, StopTick);
    ExtendRun(cfg, i, r + [StopTick], StopTick);
    ExtendRun(cfg, i, r + [StopTick] + [StopTick], StopTick);
    ReachableInv(cfg, StopAtOnceWithMessage());
    if Feasible(cfg, Reached(cfg, StopAtOnceWithMessage()), more) {
      StopBeforeBoot(cfg, Reached(cfg, StopAtOnceWithMessage()), more);
    }
  }
}
