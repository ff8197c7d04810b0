/** What every step of the pipeline keeps. */
module ProtocolInvariants {
  import opened Base
  import opened Registry
  import opened MsgBuffer
  import opened Protocol

  // ---------------------------------------------------------------- queue and pool

  ghost predicate QueueInv(cfg: Config, q: Queue) {
    && (forall i :: 0 <= i < |q.list| ==> q.list[i].addr != 0)
    && (forall i, j :: 0 <= i < j < |q.list| ==> q.list[i].addr != q.list[j].addr)
    && q.freed + Sents(q.list) == q.accepted
    && q.free >= 0 && q.free + BlockSum(q.list) == cfg.pool
  }

  lemma {:induction false} AppendSums(list: seq<Node>, n: Node)
    ensures Sents(list + [n]) == Sents(list) + [n.sent]
    ensures BlockSum(list + [n]) == BlockSum(list) + BlockOf(n)
  {
    if list != [] {
      AppendSums(list[1..], n);
      assert (list + [n])[1..] == list[1..] + [n];
    } else {
      assert list + [n] == [n];
    }
  }

  lemma {:induction false} RewriteSums(list: seq<Node>, k: nat, b: MsgBuf)
    requires k < |list|
    ensures var r := list[k := list[k].(buf := b)];
            Sents(r) == Sents(list) && BlockSum(r) == BlockSum(list)
  {
    var r := list[k := list[k].(buf := b)];
    if k > 0 {
      RewriteSums(list[1..], k - 1, b);
      assert r[1..] == list[1..][k - 1 := list[1..][k - 1].(buf := b)];
    } else {
      assert r[1..] == list[1..];
    }
  }

  lemma ProduceKeepsQueue(cfg: Config, q: Queue, started: bool, c: Call)
    requires QueueInv(cfg, q) && CallOk(q, cfg.bufsz, c)
    ensures QueueInv(cfg, Produce(q, started, cfg.bufsz, c).0)
  {
    if started && Formats(c, cfg.bufsz) && c.alloc.Block? {
      AppendSums(q.list, Node(c.alloc.addr, Sent(c.text, c.isUser), NewBuf(c.text)));
    }
  }

  /** Inside the flush the message removed is the head, so removal is pop-front. */
  lemma RemoveHeadPopsFront(cfg: Config, q: Queue)
    requires QueueInv(cfg, q) && q.list != []
    ensures var q' := RemoveDelete(q, q.list[0].addr);
            && q' == q.(list := q.list[1..], free := q.free + BlockOf(q.list[0]), freed := q.freed + [q.list[0].sent])
            && QueueInv(cfg, q')
  {
    assert q.list[..0] + q.list[1..] == q.list[1..];
    assert Sents(q.list) == [q.list[0].sent] + Sents(q.list[1..]);
    assert q.freed + Sents(q.list) == q.freed + [q.list[0].sent] + Sents(q.list[1..]);
  }

  lemma {:induction false} SumWithout(list: seq<Node>, k: nat)
    requires k < |list|
    ensures BlockSum(list[..k] + list[k + 1..]) + BlockOf(list[k]) == BlockSum(list)
    ensures Sents(list[..k] + list[k + 1..]) == Sents(list)[..k] + Sents(list)[k + 1..]
  {
    var rest := list[..k] + list[k + 1..];
    if k > 0 {
      SumWithout(list[1..], k - 1);
      assert rest[1..] == list[1..][..k - 1] + list[1..][k..];
      assert rest[0] == list[0];
      assert Sents(list)[1..] == Sents(list[1..]);
    } else {
      assert rest == list[1..];
    }
  }

  /** Removal from any position: that message and no other leaves the list, exactly once its block returns
      to the pool; a message that is not queued leaves everything as it was. */
  lemma RemoveAnywhere(q: Queue, m: nat)
    ensures var q', k := RemoveDelete(q, m), Find(q.list, m);
            if k == |q.list| then q' == q
            else
              && Sents(q'.list) == Sents(q.list)[..k] + Sents(q.list)[k + 1..]
              && q'.freed == q.freed + [Sents(q.list)[k]]
              && q'.free + BlockSum(q'.list) == q.free + BlockSum(q.list)
              && q'.flush == q.flush && q'.accepted == q.accepted
  {
    var k := Find(q.list, m);
    if k < |q.list| {
      SumWithout(q.list, k);
      SentAt(q.list, k);
    }
  }

  lemma {:induction false} SentAt(list: seq<Node>, k: nat)
    requires k < |list|
    ensures Sents(list)[k] == list[k].sent
  {
    if k > 0 { SentAt(list[1..], k - 1); }
  }

  lemma RewriteHeadKeepsQueue(cfg: Config, q: Queue, b: MsgBuf)
    requires QueueInv(cfg, q) && q.list != []
    ensures Rewrite(q.list, q.list[0].addr, b) == q.list[0 := q.list[0].(buf := b)]
    ensures QueueInv(cfg, q.(list := Rewrite(q.list, q.list[0].addr, b)))
  {
    RewriteSums(q.list, 0, b);
  }

  // ---------------------------------------------------------------- the event thread

  /** The message the event thread holds a pointer to, when it will use that pointer. */
  function Cursor(con: Consumer): (m: nat) {
    match con
    case LoopTest(_, m) => m
    case Invoke(_, m, _) => m
    case InCallback(_, m, _, _) => m
    case ReadNext(_, m, _, _) => m
    case RemoveCheck(_, m, _, _, _) => m
    case Remove(_, m, _, _, _) => m
    case _ => 0
  }

  predicate HoldsMessage(con: Consumer) {
    con.Invoke? || con.InCallback? || con.ReadNext? || con.RemoveCheck? || con.Remove?
  }

  predicate InFlush(con: Consumer) {
    con.FlushEntry? || con.LoopTest? || HoldsMessage(con)
  }

  predicate TookTerminate(con: Consumer) {
    match con
    case Boot => false
    case Wait => false
    case AwaitSema(t) => t
    case Resend(t) => t
    case FlushEntry(t) => t
    case LoopTest(t, _) => t
    case Invoke(t, _, _) => t
    case InCallback(t, _, _, _) => t
    case ReadNext(t, _, _, _) => t
    case RemoveCheck(t, _, _, _, _) => t
    case Remove(t, _, _, _, _) => t
    case Signal(t) => t
    case TermCheck(t, _) => t
    case Exited(_) => true
  }

  /** The n the thread has read, if it has read one. */
  predicate HasNext(con: Consumer) {
    con.RemoveCheck? || con.Remove?
  }

  function NextRead(con: Consumer): nat
    requires HasNext(con)
  {
    match con
    case RemoveCheck(_, _, n, _, _) => n
    case Remove(_, _, n, _, _) => n
  }

  function SecondAddr(list: seq<Node>): nat {
    if |list| > 1 then list[1].addr else 0
  }

  /** The cursor is always g_head, and n is the head's successor unless a producer appended
      after n was read as NULL. */
  ghost predicate CursorInv(con: Consumer, list: seq<Node>) {
    && (HoldsMessage(con) ==> list != [] && Cursor(con) == list[0].addr)
    && (con.LoopTest? ==> con.m == 0 || (list != [] && con.m == list[0].addr))
    && (HasNext(con) ==> NextRead(con) == SecondAddr(list) || NextRead(con) == 0)
  }

  /** How many of `size` queued messages, from the front, the flush in progress is bound to reach. */
  function Reach(con: Consumer, size: nat): (n: nat) {
    match con
    case AwaitSema(_) => size
    case Resend(_) => size
    case FlushEntry(_) => size
    case LoopTest(_, m) => if m == 0 then 0 else size
    case Invoke(_, _, _) => size
    case InCallback(_, _, _, _) => size
    case ReadNext(_, _, _, _) => size
    case RemoveCheck(_, _, n, _, _) => if n == 0 then 1 else size
    case Remove(_, _, n, _, _) => if n == 0 then 1 else size
    case _ => 0
  }

  /** Every queued message is covered by a pending EV_FLUSH or by the flush in progress. */
  ghost predicate CoverInv(q: Queue, con: Consumer) {
    q.flush || |q.list| <= Reach(con, |q.list|)
  }

  // ---------------------------------------------------------------- the semaphore

  datatype Actor = EventThread | Caller(tid: nat)

  /** Between a semaphore wait that succeeded and the signal that follows it. */
  predicate ThreadHolds(con: Consumer) {
    InFlush(con) || con.Signal?
  }

  predicate CallerHolds(clients: map<nat, Client>, tid: nat) {
    tid in clients && !clients[tid].Asking?
  }

  function Holders(thread: bool, clients: map<nat, Client>): (hs: set<Actor>)
    ensures EventThread in hs <==> thread
    ensures forall tid: nat :: Caller(tid) in hs <==> CallerHolds(clients, tid)
  {
    (if thread then {EventThread} else {})
    + set tid | tid in clients && !clients[tid].Asking? :: Caller(tid)
  }

  ghost predicate SemaInv(sema: nat, thread: bool, clients: map<nat, Client>) {
    sema + |Holders(thread, clients)| == 1
  }

  // ---------------------------------------------------------------- shutdown

  ghost predicate StopInv(s: State) {
    && (s.gstate == Starting ==> s.q.accepted == [])
    && (s.stop in {Idle, Entered, StateSet} ==> !s.terminate && !TookTerminate(s.con))
    && (s.stop == Entered ==> s.gstate == Started)
    && (s.stop !in {Idle, Entered} ==> s.gstate == Stopped)
    && (s.terminate ==> s.q.flush)
    && (s.stopOk || s.stop == StopOk ==> s.con.Exited?)
  }

  /** Once EV_TERMINATE has been taken nothing is appended, so the last flush reaches all. */
  ghost predicate LastFlushInv(con: Consumer, list: seq<Node>) {
    TookTerminate(con) ==>
      && (HasNext(con) ==> NextRead(con) == SecondAddr(list))
      && (con.LoopTest? && con.m == 0 ==> list == [])
      && (con.Signal? ==> list == [])
      && (con.TermCheck? && con.flushed ==> list == [])
      && (con.Exited? && con.flushed ==> list == [])
  }

  // ---------------------------------------------------------------- the handler chain

  /** The calls a message gets when it is offered to the first `reach` slots. */
  function Chain(no: nat, slots: seq<Slot>, reach: nat): seq<Event>
  {
    if reach == 0 then []
    else Chain(no, slots, reach - 1)
         + if reach <= |slots| && slots[reach - 1].Some? then [Called(no, reach - 1, slots[reach - 1].value)] else []
  }

  /** The chain ended by running out of slots, or at a slot whose callback said stop. */
  predicate ChainDone(slots: seq<Slot>, reach: nat, stopped: bool) {
    && reach <= |slots|
    && (if stopped then reach > 0 && slots[reach - 1].Some? else reach == |slots|)
  }

  /** All calls made for finished messages, in order of acceptance. */
  function Chains(ds: seq<Delivery>): seq<Event> {
    if ds == [] then []
    else
      var n := |ds| - 1;
      Chains(ds[..n]) + Chain(n, ds[n].slots, ds[n].reach)
  }

  /** The slots the message under the cursor has been offered to so far. */
  function Offered(con: Consumer): nat {
    match con
    case Invoke(_, _, i) => i
    case InCallback(_, _, i, _) => i + 1
    case ReadNext(_, _, reach, _) => reach
    case RemoveCheck(_, _, _, reach, _) => reach
    case Remove(_, _, _, reach, _) => reach
    case _ => 0
  }

  function Calls(log: seq<Event>): seq<Event> {
    if log == [] then []
    else Calls(log[..|log| - 1]) + if log[|log| - 1].Called? then [log[|log| - 1]] else []
  }

  /** The slots as the log of additions and removals says they are. */
  function Replay(log: seq<Event>, max: nat): (slots: seq<Slot>)
    ensures |slots| == max
  {
    if log == [] then EmptyTable(max).slots
    else
      var slots := Replay(log[..|log| - 1], max);
      match log[|log| - 1]
      case Added(i, h) => if 0 <= i < max then slots[i := Some(h)] else slots
      case Dropped(i) => if 0 <= i < max then slots[i := None] else slots
      case Called(_, _, _) => slots
  }

  /** Every call went to the handler its slot held at that moment. */
  ghost predicate CallsCurrent(log: seq<Event>, max: nat) {
    forall k :: 0 <= k < |log| && log[k].Called? ==>
      0 <= log[k].i < max && Replay(log[..k], max)[log[k].i] == Some(log[k].h)
  }

  ghost predicate DeliveredInv(delivered: seq<Delivery>, freed: seq<Sent>) {
    && |delivered| == |freed|
    && (forall k :: 0 <= k < |delivered| ==>
          && delivered[k].sent == freed[k]
          && ChainDone(delivered[k].slots, delivered[k].reach, delivered[k].stopped))
  }

  /** The event thread's place in the chain makes sense for the registry as it is. */
  ghost predicate OfferInv(con: Consumer, slots: seq<Slot>) {
    && Offered(con) <= |slots|
    && (con.InCallback? ==> slots[con.i] == Some(con.h))
    && (con.ReadNext? || HasNext(con) ==> ChainDone(slots, con.reach, con.stopped))
  }

  ghost predicate CallsInv(log: seq<Event>, delivered: seq<Delivery>, slots: seq<Slot>, offered: nat) {
    Calls(log) == Chains(delivered) + Chain(|delivered|, slots, offered)
  }

  /** The callbacks of a chain that went on all allowed it; only a last one that said stop ends it. */
  predicate ChainAnswers(answers: seq<Answer>, stopped: bool) {
    && (stopped <==> answers != [] && answers[|answers| - 1].res == MSG_STOP)
    && forall k :: 0 <= k < |answers| - 1 ==> answers[k].res != MSG_STOP
  }

  /** The handlers in the occupied ones of the first n slots, in slot order. */
  function Occupants(slots: seq<Slot>, n: nat): seq<Handler> {
    if n == 0 then []
    else Occupants(slots, n - 1) + if n <= |slots| && slots[n - 1].Some? then [slots[n - 1].value] else []
  }

  /** The answers so far are those of the first handlers of hs. */
  predicate AnsweredBy(answers: seq<Answer>, hs: seq<Handler>) {
    |answers| <= |hs| && forall k :: 0 <= k < |answers| ==> answers[k].h == hs[k]
  }

  predicate Stopping(con: Consumer) {
    match con
    case ReadNext(_, _, _, stopped) => stopped
    case RemoveCheck(_, _, _, _, stopped) => stopped
    case Remove(_, _, _, _, stopped) => stopped
    case _ => false
  }

  /** One answer from every callback called, the running one excepted, and a stop only at the end. */
  ghost predicate AnswersInv(con: Consumer, answers: seq<Answer>, slots: seq<Slot>) {
    && |answers| + (if con.InCallback? then 1 else 0) == |Occupants(slots, Offered(con))|
    && AnsweredBy(answers, Occupants(slots, Offered(con)))
    && ChainAnswers(answers, Stopping(con))
  }

  /** Every handler the finished message was offered to answered, in slot order. */
  ghost predicate Answered(d: Delivery) {
    && |d.answers| == |Occupants(d.slots, d.reach)| && AnsweredBy(d.answers, Occupants(d.slots, d.reach))
    && ChainAnswers(d.answers, d.stopped)
  }

  ghost predicate AnsweredInv(delivered: seq<Delivery>) {
    forall k :: 0 <= k < |delivered| ==> Answered(delivered[k])
  }

  /** All answers ever given, message by message. */
  function AllAnswers(delivered: seq<Delivery>): seq<Answer> {
    if delivered == [] then []
    else AllAnswers(delivered[..|delivered| - 1]) + delivered[|delivered| - 1].answers
  }

  ghost predicate LogInv(max: nat, reg: Table, log: seq<Event>) {
    && |reg.slots| == max
    && Valid(reg)
    && Replay(log, max) == reg.slots
    && CallsCurrent(log, max)
  }

  ghost predicate ClientsInv(clients: map<nat, Client>) {
    forall tid :: tid in clients ==> OpOk(clients[tid].op)
  }

  // ---------------------------------------------------------------- preservation

  /** Where the event thread is, what it will reach, and how far _stop has come. */
  ghost predicate FlowInv(s: State) {
    && CursorInv(s.con, s.q.list) && CoverInv(s.q, s.con)
    && StopInv(s) && LastFlushInv(s.con, s.q.list)
  }

  ghost predicate TraceInv(s: State) {
    && DeliveredInv(s.delivered, s.q.freed)
    && OfferInv(s.con, s.reg.slots)
    && CallsInv(s.log, s.delivered, s.reg.slots, Offered(s.con))
  }

  ghost predicate Inv(cfg: Config, s: State) {
    && QueueInv(cfg, s.q)
    && FlowInv(s)
    && SemaInv(s.sema, ThreadHolds(s.con), s.clients)
    && LogInv(cfg.maxHandlers, s.reg, s.log) && ClientsInv(s.clients)
    && TraceInv(s)
    && AnswersInv(s.con, s.answers, s.reg.slots) && AnsweredInv(s.delivered)
  }

  lemma InitInv(cfg: Config)
    ensures Inv(cfg, Init(cfg))
  {
    InitLog(cfg.maxHandlers);
    InitSema();
    InitTrace(cfg);
    InitFlow(cfg);
    hide FlowInv, TraceInv, LogInv, SemaInv;
  }

  lemma InitFlow(cfg: Config)
    ensures FlowInv(Init(cfg))
  {
  }

  lemma InitTrace(cfg: Config)
    ensures TraceInv(Init(cfg))
  {
  }

  lemma InitLog(max: nat)
    ensures LogInv(max, EmptyTable(max), [])
  {
    EmptyTableValid(max);
  }

  lemma InitSema()
    ensures SemaInv(1, false, map[])
  {
    assert Holders(false, map[]) == {};
  }

  lemma {:induction false} LogStep(log: seq<Event>, e: Event, max: nat)
    ensures Calls(log + [e]) == Calls(log) + if e.Called? then [e] else []
    ensures Replay(log + [e], max) == (
              var slots := Replay(log, max);
              match e
              case Added(i, h) => if 0 <= i < max then slots[i := Some(h)] else slots
              case Dropped(i) => if 0 <= i < max then slots[i := None] else slots
              case Called(_, _, _) => slots)
    ensures CallsCurrent(log, max)
            && (e.Called? ==> 0 <= e.i < max && Replay(log, max)[e.i] == Some(e.h))
            ==> CallsCurrent(log + [e], max)
  {
    assert (log + [e])[..|log|] == log;
    if CallsCurrent(log, max) {
      assert forall k :: 0 <= k < |log| ==> (log + [e])[..k] == log[..k];
    }
  }

  lemma Subset(x: set<Actor>, y: set<Actor>)
    requires x <= y
    ensures |x| <= |y|
  {
    assert y == x + (y - x);
  }

  /** While one actor holds the semaphore its count is zero and nobody else holds it. */
  lemma OnlyHolder(sema: nat, thread: bool, clients: map<nat, Client>, a: Actor)
    requires SemaInv(sema, thread, clients) && a in Holders(thread, clients)
    ensures sema == 0 && Holders(thread, clients) == {a}
  {
    var hs := Holders(thread, clients);
    Subset({a}, hs);
    if b :| b in hs && b != a {
      Subset({a, b}, hs);
    }
  }

  /** The steps that change the queue, the registry and the log are few. */
  predicate Offers(s: State, step: Step) {
    step.Tick? && s.con.Invoke? && s.con.i < |s.reg.slots| && s.reg.slots[s.con.i].Some?
  }

  predicate Changes(s: State, step: Step) {
    step.ClientTick? && step.tid in s.clients && s.clients[step.tid].Critical?
  }

  predicate Removes(s: State, step: Step) {
    step.Tick? && s.con.Remove?
  }

  lemma UnchangedRegistry(cfg: Config, s: State, step: Step)
    requires Enabled(cfg, s, step)
    ensures !Changes(s, step) ==> Do(cfg, s, step).reg == s.reg
    ensures !Changes(s, step) && !Offers(s, step) ==> Do(cfg, s, step).log == s.log
  {
  }

  lemma UnchangedQueue(cfg: Config, s: State, step: Step)
    requires Enabled(cfg, s, step) && !Removes(s, step)
    ensures var s' := Do(cfg, s, step);
            && s'.q.freed == s.q.freed
            && (!step.Kprintf? ==> s'.q.free == s.q.free && s'.q.accepted == s.q.accepted)
            && (!step.Kprintf? && !step.Return? ==> s'.q.list == s.q.list)
  {
  }

  lemma UnchangedHistory(cfg: Config, s: State, step: Step)
    requires Enabled(cfg, s, step) && !Removes(s, step)
    ensures Do(cfg, s, step).delivered == s.delivered
    ensures !step.Return? ==> Do(cfg, s, step).answers == s.answers
  {
  }

  lemma Unchanged(cfg: Config, s: State, step: Step)
    requires Enabled(cfg, s, step)
    ensures var s' := Do(cfg, s, step);
            && (!Changes(s, step) ==> s'.reg == s.reg)
            && (!Changes(s, step) && !Offers(s, step) ==> s'.log == s.log)
            && (!Removes(s, step) && !step.Kprintf? ==>
                  s'.q.free == s.q.free && s'.q.accepted == s.q.accepted)
            && (!Removes(s, step) ==> s'.q.freed == s.q.freed && s'.delivered == s.delivered)
            && (!Removes(s, step) && !step.Kprintf? && !step.Return? ==> s'.q.list == s.q.list)
            && (!Removes(s, step) && !step.Return? ==> s'.answers == s.answers)
  {
    hide Do, Changes, Offers, Removes;
    UnchangedRegistry(cfg, s, step);
    if !Removes(s, step) {
      UnchangedQueue(cfg, s, step);
      UnchangedHistory(cfg, s, step);
    }
  }

  lemma QueueKept(cfg: Config, s: State, step: Step)
    requires QueueInv(cfg, s.q) && CursorInv(s.con, s.q.list) && Enabled(cfg, s, step)
    ensures QueueInv(cfg, Do(cfg, s, step).q)
  {
    Unchanged(cfg, s, step);
    if step.Kprintf? {
      ProduceKeepsQueue(cfg, s.q, s.gstate == Started, step.c);
    } else if Removes(s, step) {
      RemoveHeadPopsFront(cfg, s.q);
    } else if step.Return? {
      RewriteHeadKeepsQueue(cfg, s.q, step.b);
    }
  }

  /** The critical section, seen from the flush: the head goes and the cursor moves to n. */
  lemma RemoveEffect(cfg: Config, s: State)
    requires QueueInv(cfg, s.q) && CursorInv(s.con, s.q.list) && s.con.Remove?
    ensures s.q.list != []
    ensures ConsumerTick(s) == s.(
        con := LoopTest(s.con.t, s.con.n),
        q := s.q.(list := s.q.list[1..], free := s.q.free + BlockOf(s.q.list[0]),
                  freed := s.q.freed + [s.q.list[0].sent]),
        answers := [],
        delivered := s.delivered
                     + [Delivery(s.q.list[0].sent, s.reg.slots, s.con.reach, s.con.stopped, s.answers)])
  {
    assert Find(s.q.list, s.con.m) == 0;
    RemoveHeadPopsFront(cfg, s.q);
  }

  lemma FlowKeptByRemove(cfg: Config, s: State)
    requires QueueInv(cfg, s.q) && FlowInv(s) && s.con.Remove?
    ensures FlowInv(ConsumerTick(s))
  {
    RemoveEffect(cfg, s);
    hide ConsumerTick;
    FlowAfterRemove(cfg, s, ConsumerTick(s));
  }

  lemma FlowAfterRemove(cfg: Config, s: State, s': State)
    requires QueueInv(cfg, s.q) && FlowInv(s) && s.con.Remove? && s'.con == LoopTest(s.con.t, s.con.n)
    requires s'.q.list == s.q.list[1..] && s'.q.accepted == s.q.accepted && s'.q.flush == s.q.flush
    requires s'.gstate == s.gstate && s'.stop == s.stop && s'.stopOk == s.stopOk && s'.terminate == s.terminate
    ensures FlowInv(s')
  {
  }

  lemma FlowKeptAtMessage(cfg: Config, s: State)
    requires QueueInv(cfg, s.q) && FlowInv(s) && Enabled(cfg, s, Tick)
    requires HoldsMessage(s.con) && !s.con.Remove?
    ensures FlowInv(ConsumerTick(s))
  {
    assert Find(s.q.list, HeadAddr(s.q.list)) == 0;
  }

  lemma FlowKeptBetweenMessages(cfg: Config, s: State)
    requires QueueInv(cfg, s.q) && FlowInv(s) && (s.con.FlushEntry? || s.con.LoopTest?)
    ensures FlowInv(ConsumerTick(s))
  {
  }

  lemma FlowKeptOutsideFlush(cfg: Config, s: State)
    requires FlowInv(s) && Enabled(cfg, s, Tick) && !InFlush(s.con)
    ensures FlowInv(ConsumerTick(s))
  {
  }

  lemma FlowKeptElsewhere(cfg: Config, s: State)
    requires QueueInv(cfg, s.q) && FlowInv(s) && Enabled(cfg, s, Tick) && !HoldsMessage(s.con)
    ensures FlowInv(ConsumerTick(s))
  {
    hide FlowInv, ConsumerTick;
    if InFlush(s.con) { FlowKeptBetweenMessages(cfg, s); } else { FlowKeptOutsideFlush(cfg, s); }
  }

  lemma FlowKeptByProducer(cfg: Config, s: State, c: Call)
    requires QueueInv(cfg, s.q) && FlowInv(s) && Enabled(cfg, s, Kprintf(c))
    ensures FlowInv(Do(cfg, s, Kprintf(c)))
  {
  }

  lemma FlowKeptByReturn(cfg: Config, s: State, b: MsgBuf, res: int)
    requires QueueInv(cfg, s.q) && FlowInv(s) && Enabled(cfg, s, Return(b, res))
    ensures FlowInv(Do(cfg, s, Return(b, res)))
  {
    RewriteHeadKeepsQueue(cfg, s.q, b);
  }

  lemma FlowKeptByOthers(cfg: Config, s: State, step: Step)
    requires FlowInv(s) && Enabled(cfg, s, step) && !step.Tick? && !step.Kprintf? && !step.Return?
    ensures FlowInv(Do(cfg, s, step))
  {
  }

  lemma ThreadTakes(sema: nat, clients: map<nat, Client>)
    requires SemaInv(sema, false, clients) && sema >= 1
    ensures SemaInv(sema - 1, true, clients)
  {
    assert Holders(true, clients) == Holders(false, clients) + {EventThread};
  }

  lemma ThreadGives(sema: nat, clients: map<nat, Client>)
    requires SemaInv(sema, true, clients)
    ensures sema == 0 && SemaInv(1, false, clients)
  {
    OnlyHolder(sema, true, clients, EventThread);
    assert Holders(false, clients) == Holders(true, clients) - {EventThread};
  }

  lemma CallerTakes(sema: nat, thread: bool, clients: map<nat, Client>, tid: nat, op: Op)
    requires SemaInv(sema, thread, clients) && sema >= 1 && tid in clients && clients[tid].Asking?
    ensures SemaInv(sema - 1, thread, clients[tid := Critical(op)])
  {
    assert Holders(thread, clients[tid := Critical(op)]) == Holders(thread, clients) + {Caller(tid)};
  }

  lemma CallerMoves(sema: nat, thread: bool, clients: map<nat, Client>, tid: nat, c: Client)
    requires SemaInv(sema, thread, clients)
    requires c.Asking? <==> tid !in clients || clients[tid].Asking?
    ensures SemaInv(sema, thread, clients[tid := c])
  {
    assert Holders(thread, clients[tid := c]) == Holders(thread, clients);
  }

  lemma CallerLeaves(sema: nat, thread: bool, clients: map<nat, Client>, tid: nat)
    requires SemaInv(sema, thread, clients) && tid in clients
    ensures clients[tid].Asking? ==> SemaInv(sema, thread, clients - {tid})
    ensures !clients[tid].Asking? ==> sema == 0 && SemaInv(1, thread, clients - {tid})
  {
    var hs, hs' := Holders(thread, clients), Holders(thread, clients - {tid});
    if clients[tid].Asking? {
      assert hs' == hs;
    } else {
      OnlyHolder(sema, thread, clients, Caller(tid));
      assert hs' == hs - {Caller(tid)};
    }
  }

  /** How the event thread's move changes the semaphore. */
  lemma SemaByThread(cfg: Config, s: State)
    requires Enabled(cfg, s, Tick)
    ensures ConsumerTick(s).clients == s.clients
    ensures ConsumerTick(s).sema == if s.con.AwaitSema? then s.sema - 1
                                    else if s.con.Signal? then SignalSema(s.sema) else s.sema
  {
  }

  /** It begins to hold the semaphore with its wait and ends with its signal. */
  lemma HoldByThread(cfg: Config, s: State)
    requires Enabled(cfg, s, Tick)
    ensures var holds := ThreadHolds(ConsumerTick(s).con);
            if s.con.AwaitSema? then holds && !ThreadHolds(s.con)
            else if s.con.Signal? then !holds && ThreadHolds(s.con)
            else holds == ThreadHolds(s.con)
  {
  }

  lemma SemaKeptByThread(cfg: Config, s: State)
    requires SemaInv(s.sema, ThreadHolds(s.con), s.clients) && Enabled(cfg, s, Tick)
    ensures var s' := ConsumerTick(s); SemaInv(s'.sema, ThreadHolds(s'.con), s'.clients)
  {
    SemaByThread(cfg, s);
    HoldByThread(cfg, s);
    if s.con.AwaitSema? {
      ThreadTakes(s.sema, s.clients);
    } else if s.con.Signal? {
      ThreadGives(s.sema, s.clients);
    }
  }

  lemma SemaKeptByCaller(cfg: Config, s: State, tid: nat)
    requires SemaInv(s.sema, ThreadHolds(s.con), s.clients) && Enabled(cfg, s, ClientTick(tid))
    ensures var s' := ClientMove(s, tid); SemaInv(s'.sema, ThreadHolds(s.con), s'.clients)
  {
    var thread := ThreadHolds(s.con);
    match s.clients[tid]
    case Asking(op) => CallerTakes(s.sema, thread, s.clients, tid, op);
    case Critical(op) => CallerMoves(s.sema, thread, s.clients, tid, Leaving(op, Apply(s.reg, op).1));
    case Leaving(_, _) => CallerLeaves(s.sema, thread, s.clients, tid);
  }

  lemma SemaKeptByOthers(cfg: Config, s: State, step: Step)
    requires SemaInv(s.sema, ThreadHolds(s.con), s.clients) && Enabled(cfg, s, step)
    requires !step.Tick? && !step.ClientTick?
    ensures var s' := Do(cfg, s, step); SemaInv(s'.sema, ThreadHolds(s'.con), s'.clients)
  {
    var s' := Do(cfg, s, step);
    assert s'.sema == s.sema && ThreadHolds(s'.con) == ThreadHolds(s.con);
    if step.ClientEnter? {
      CallerMoves(s.sema, ThreadHolds(s.con), s.clients, step.tid, Asking(step.op));
    } else if step.ClientError? {
      CallerLeaves(s.sema, ThreadHolds(s.con), s.clients, step.tid);
    } else {
      assert s'.clients == s.clients;
    }
  }

  lemma ClientsKept(cfg: Config, s: State, step: Step)
    requires ClientsInv(s.clients) && Enabled(cfg, s, step)
    ensures ClientsInv(Do(cfg, s, step).clients)
  {
    if !step.ClientTick? && !step.ClientEnter? && !step.ClientError? {
      assert Do(cfg, s, step).clients == s.clients;
    }
  }

  lemma CriticalKeepsLog(max: nat, reg: Table, log: seq<Event>, op: Op)
    requires LogInv(max, reg, log) && OpOk(op)
    ensures LogInv(max, Apply(reg, op).0, log + OpEvents(reg, op))
    ensures Calls(log + OpEvents(reg, op)) == Calls(log)
  {
    ApplyValid(reg, op);
    FreeSlotExists(reg);
    var es := OpEvents(reg, op);
    if es != [] {
      LogStep(log, es[0], max);
      assert log + es == log + [es[0]];
    } else {
      assert log + es == log;
    }
  }

  lemma LogKept(cfg: Config, s: State, step: Step)
    requires LogInv(cfg.maxHandlers, s.reg, s.log) && ClientsInv(s.clients) && Enabled(cfg, s, step)
    ensures var s' := Do(cfg, s, step); LogInv(cfg.maxHandlers, s'.reg, s'.log)
  {
    Unchanged(cfg, s, step);
    if Changes(s, step) {
      CriticalKeepsLog(cfg.maxHandlers, s.reg, s.log, s.clients[step.tid].op);
    } else if Offers(s, step) {
      LogStep(s.log, Called(|s.delivered|, s.con.i, s.reg.slots[s.con.i].value), cfg.maxHandlers);
    }
  }

  lemma OfferExtends(log: seq<Event>, delivered: seq<Delivery>, slots: seq<Slot>, i: nat)
    requires i < |slots| && CallsInv(log, delivered, slots, i)
    ensures slots[i].None? ==> CallsInv(log, delivered, slots, i + 1)
    ensures slots[i].Some? ==>
              CallsInv(log + [Called(|delivered|, i, slots[i].value)], delivered, slots, i + 1)
  {
    if slots[i].Some? {
      LogStep(log, Called(|delivered|, i, slots[i].value), 0);
    } else {
      assert Chain(|delivered|, slots, i + 1) == Chain(|delivered|, slots, i) + [];
    }
  }

  lemma DeliveryExtends(log: seq<Event>, delivered: seq<Delivery>, freed: seq<Sent>, d: Delivery)
    requires CallsInv(log, delivered, d.slots, d.reach) && ChainDone(d.slots, d.reach, d.stopped)
    requires DeliveredInv(delivered, freed)
    ensures CallsInv(log, delivered + [d], d.slots, 0)
    ensures DeliveredInv(delivered + [d], freed + [d.sent])
  {
    assert (delivered + [d])[..|delivered|] == delivered;
    assert Chains(delivered + [d]) + [] == Chains(delivered) + Chain(|delivered|, d.slots, d.reach);
  }

  lemma TraceKeptByRemove(cfg: Config, s: State)
    requires QueueInv(cfg, s.q) && CursorInv(s.con, s.q.list) && TraceInv(s) && s.con.Remove?
    ensures TraceInv(ConsumerTick(s))
  {
    RemoveEffect(cfg, s);
    var d := Delivery(s.q.list[0].sent, s.reg.slots, s.con.reach, s.con.stopped, s.answers);
    DeliveryExtends(s.log, s.delivered, s.q.freed, d);
  }

  lemma OfferEffect(s: State)
    requires OfferInv(s.con, s.reg.slots) && s.con.Invoke? && s.con.i < |s.reg.slots|
    ensures var s', i, slot := ConsumerTick(s), s.con.i, s.reg.slots[s.con.i];
            && OfferInv(s'.con, s'.reg.slots) && Offered(s'.con) == i + 1
            && s'.delivered == s.delivered && s'.q.freed == s.q.freed && s'.reg == s.reg
            && s'.log == if slot.None? then s.log else s.log + [Called(|s.delivered|, i, slot.value)]
  {
  }

  lemma TraceKeptByOffer(s: State)
    requires TraceInv(s) && s.con.Invoke? && s.con.i < |s.reg.slots|
    ensures TraceInv(ConsumerTick(s))
  {
    OfferEffect(s);
    OfferedTrace(s, ConsumerTick(s));
  }

  lemma OfferedTrace(s: State, s': State)
    requires TraceInv(s) && OfferInv(s'.con, s'.reg.slots)
    requires s'.delivered == s.delivered && s'.q.freed == s.q.freed && s'.reg == s.reg
    requires Offered(s'.con) == Offered(s.con) + 1 <= |s.reg.slots|
    requires var i := Offered(s.con);
             s'.log == if s.reg.slots[i].None? then s.log else s.log + [Called(|s.delivered|, i, s.reg.slots[i].value)]
    ensures TraceInv(s')
  {
    OfferExtends(s.log, s.delivered, s.reg.slots, Offered(s.con));
  }

  lemma OfferKeptElsewhere(cfg: Config, s: State)
    requires OfferInv(s.con, s.reg.slots) && Enabled(cfg, s, Tick)
    requires !s.con.Remove? && !(s.con.Invoke? && s.con.i < |s.reg.slots|)
    requires s.con.RemoveCheck? ==> s.q.list != []
    ensures OfferInv(ConsumerTick(s).con, s.reg.slots) && Offered(ConsumerTick(s).con) == Offered(s.con)
  {
  }

  lemma TraceKeptElsewhere(cfg: Config, s: State)
    requires TraceInv(s) && CursorInv(s.con, s.q.list) && Enabled(cfg, s, Tick)
    requires !s.con.Remove? && !(s.con.Invoke? && s.con.i < |s.reg.slots|)
    ensures TraceInv(ConsumerTick(s))
  {
    OfferKeptElsewhere(cfg, s);
    Unchanged(cfg, s, Tick);
  }

  lemma TraceKeptByCritical(cfg: Config, s: State, tid: nat)
    requires TraceInv(s) && Enabled(cfg, s, ClientTick(tid)) && s.clients[tid].Critical?
    requires SemaInv(s.sema, ThreadHolds(s.con), s.clients)
    requires LogInv(cfg.maxHandlers, s.reg, s.log) && ClientsInv(s.clients)
    ensures TraceInv(ClientMove(s, tid))
  {
    OnlyHolder(s.sema, ThreadHolds(s.con), s.clients, Caller(tid));
    assert !ThreadHolds(s.con);
    CriticalKeepsLog(cfg.maxHandlers, s.reg, s.log, s.clients[tid].op);
    assert Chain(|s.delivered|, s.reg.slots, 0) == Chain(|s.delivered|, ClientMove(s, tid).reg.slots, 0);
  }

  lemma TraceKeptByOthers(cfg: Config, s: State, step: Step)
    requires TraceInv(s) && Enabled(cfg, s, step) && !step.Tick? && !Changes(s, step)
    ensures TraceInv(Do(cfg, s, step))
  {
    Unchanged(cfg, s, step);
    assert Offered(Do(cfg, s, step).con) == Offered(s.con);
  }

  lemma AnswersKeptByRemove(cfg: Config, s: State)
    requires QueueInv(cfg, s.q) && CursorInv(s.con, s.q.list) && s.con.Remove?
    requires AnswersInv(s.con, s.answers, s.reg.slots) && AnsweredInv(s.delivered)
    ensures var s' := ConsumerTick(s); AnswersInv(s'.con, s'.answers, s'.reg.slots) && AnsweredInv(s'.delivered)
  {
    RemoveEffect(cfg, s);
  }

  lemma AnswersKeptByThread(cfg: Config, s: State)
    requires CursorInv(s.con, s.q.list) && OfferInv(s.con, s.reg.slots)
    requires AnswersInv(s.con, s.answers, s.reg.slots) && Enabled(cfg, s, Tick) && !s.con.Remove?
    ensures AnswersInv(ConsumerTick(s).con, s.answers, s.reg.slots)
  {
    if s.con.Invoke? && s.con.i < |s.reg.slots| {
      AnswersKeptByOffer(s);
    } else {
      OfferKeptElsewhere(cfg, s);
      hide ConsumerTick;
      AnswersKeptElsewhere(cfg, s);
    }
  }

  lemma AnswersKeptByOffer(s: State)
    requires OfferInv(s.con, s.reg.slots) && AnswersInv(s.con, s.answers, s.reg.slots)
    requires s.con.Invoke? && s.con.i < |s.reg.slots|
    ensures AnswersInv(ConsumerTick(s).con, s.answers, s.reg.slots)
  {
  }

  lemma AnswersKeptElsewhere(cfg: Config, s: State)
    requires Enabled(cfg, s, Tick) && !s.con.Remove? && !(s.con.Invoke? && s.con.i < |s.reg.slots|)
    requires s.con.RemoveCheck? ==> s.q.list != []
    ensures Stopping(ConsumerTick(s).con) == Stopping(s.con) && !ConsumerTick(s).con.InCallback?
  {
  }

  lemma AnswersKeptByReturn(cfg: Config, s: State, b: MsgBuf, res: int)
    requires AnswersInv(s.con, s.answers, s.reg.slots) && OfferInv(s.con, s.reg.slots)
    requires Enabled(cfg, s, Return(b, res))
    ensures var s' := Do(cfg, s, Return(b, res)); AnswersInv(s'.con, s'.answers, s.reg.slots)
  {
  }

  lemma AnswersKept(cfg: Config, s: State, step: Step)
    requires Inv(cfg, s) && Enabled(cfg, s, step)
    ensures var s' := Do(cfg, s, step); AnswersInv(s'.con, s'.answers, s'.reg.slots) && AnsweredInv(s'.delivered)
  {
    Unchanged(cfg, s, step);
    if Removes(s, step) {
      AnswersKeptByRemove(cfg, s);
    } else if step.Tick? {
      AnswersKeptByThread(cfg, s);
    } else if step.Return? {
      AnswersKeptByReturn(cfg, s, step.b, step.res);
    } else if Changes(s, step) {
      OnlyHolder(s.sema, ThreadHolds(s.con), s.clients, Caller(step.tid));
    }
  }

  lemma ThreadKeeps(cfg: Config, s: State)
    requires Inv(cfg, s) && Enabled(cfg, s, Tick)
    ensures FlowInv(ConsumerTick(s)) && TraceInv(ConsumerTick(s))
  {
    if s.con.Remove? {
      FlowKeptByRemove(cfg, s);
      TraceKeptByRemove(cfg, s);
    } else {
      if HoldsMessage(s.con) { FlowKeptAtMessage(cfg, s); } else { FlowKeptElsewhere(cfg, s); }
      if s.con.Invoke? && s.con.i < |s.reg.slots| { TraceKeptByOffer(s); } else { TraceKeptElsewhere(cfg, s); }
    }
  }

  lemma OthersKeep(cfg: Config, s: State, step: Step)
    requires Inv(cfg, s) && Enabled(cfg, s, step) && !step.Tick?
    ensures FlowInv(Do(cfg, s, step)) && TraceInv(Do(cfg, s, step))
  {
    match step {
      case Kprintf(c) => FlowKeptByProducer(cfg, s, c);
      case Return(b, res) => FlowKeptByReturn(cfg, s, b, res);
      case _ => FlowKeptByOthers(cfg, s, step);
    }
    if Changes(s, step) { TraceKeptByCritical(cfg, s, step.tid); } else { TraceKeptByOthers(cfg, s, step); }
  }

  lemma SemaKept(cfg: Config, s: State, step: Step)
    requires SemaInv(s.sema, ThreadHolds(s.con), s.clients) && Enabled(cfg, s, step)
    ensures var s' := Do(cfg, s, step); SemaInv(s'.sema, ThreadHolds(s'.con), s'.clients)
  {
    match step
    case Tick => SemaKeptByThread(cfg, s);
    case ClientTick(tid) => SemaKeptByCaller(cfg, s, tid);
    case _ => SemaKeptByOthers(cfg, s, step);
  }

  lemma StepKeeps(cfg: Config, s: State, step: Step)
    requires Inv(cfg, s) && Enabled(cfg, s, step)
    ensures Inv(cfg, Do(cfg, s, step))
  {
    QueueKept(cfg, s, step);
    ClientsKept(cfg, s, step);
    LogKept(cfg, s, step);
    SemaKept(cfg, s, step);
    AnswersKept(cfg, s, step);
    if step.Tick? { ThreadKeeps(cfg, s); } else { OthersKeep(cfg, s, step); }
  }

  /** Every reachable state satisfies the invariants. */
  lemma {:induction false} RunKeeps(cfg: Config, s: State, steps: seq<Step>)
    requires Inv(cfg, s) && Feasible(cfg, s, steps)
    ensures Inv(cfg, Run(cfg, s, steps))
    decreases |steps|
  {
    if steps != [] {
      StepKeeps(cfg, s, steps[0]);
      RunKeeps(cfg, Do(cfg, s, steps[0]), steps[1..]);
    }
  }

  lemma ReachableInv(cfg: Config, steps: seq<Step>)
    requires Feasible(cfg, Init(cfg), steps)
    ensures Inv(cfg, Run(cfg, Init(cfg), steps))
  {
    InitInv(cfg);
    RunKeeps(cfg, Init(cfg), steps);
  }
}
