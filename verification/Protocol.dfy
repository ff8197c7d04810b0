/** The message pipeline as a step relation: producers, the event thread, callers of the
    registry and _stop, with the event thread cut wherever interrupts can intervene. */
module Protocol {
  import opened Base
  import opened Registry
  import opened MsgBuffer

  // ---------------------------------------------------------------- the queue and its pool

  /** What a Kprintf call that was accepted asked to be printed. */
  datatype Sent = Sent(text: seq<byte>, isUser: bool)

  /** A message in the pool: its address, what was sent, and the buffer handlers may rewrite. */
  datatype Node = Node(addr: nat, sent: Sent, buf: MsgBuf)

  /** g_head's list, the free bytes of the pool, EV_FLUSH, and two histories: what was
      accepted and what was removed and freed. */
  datatype Queue = Queue(list: seq<Node>, free: int, flush: bool, accepted: seq<Sent>, freed: seq<Sent>)

  function Find(list: seq<Node>, addr: nat): (k: nat)
    ensures k <= |list|
    ensures k < |list| ==> list[k].addr == addr
    ensures forall j :: 0 <= j < k ==> list[j].addr != addr
  {
    if list == [] || list[0].addr == addr then 0 else 1 + Find(list[1..], addr)
  }

  function HeadAddr(list: seq<Node>): nat {
    if list == [] then 0 else list[0].addr
  }

  /** m->next. */
  function NextAddr(list: seq<Node>, m: nat): nat {
    var k := Find(list, m);
    if k + 1 < |list| then list[k + 1].addr else 0
  }

  function BlockOf(n: Node): nat {
    BlockSize(|n.sent.text|)
  }

  function BlockSum(list: seq<Node>): nat {
    if list == [] then 0 else BlockOf(list[0]) + BlockSum(list[1..])
  }

  function Sents(list: seq<Node>): (r: seq<Sent>)
    ensures |r| == |list|
  {
    if list == [] then [] else [list[0].sent] + Sents(list[1..])
  }

  /** The outcome of sceKernelTryAllocateVpl. */
  datatype Alloc = Block(addr: nat) | Refused(error: int)

  /** The pool hands out a block it does not already have in use, or an error. */
  predicate AllocOk(q: Queue, len: nat, a: Alloc) {
    match a
    case Block(addr) => addr != 0 && Find(q.list, addr) == |q.list| && BlockSize(len) <= q.free
    case Refused(error) => error < 0
  }

  /** One Kprintf call: `len` and `text` are what vsnprintf returned and wrote. */
  datatype Call = Call(len: int, text: seq<byte>, isUser: bool, alloc: Alloc)

  /** vsnprintf reported neither an error nor an empty or truncated text. */
  predicate Formats(c: Call, bufsz: nat) {
    0 < c.len < bufsz
  }

  /** vsnprintf wrote the text it reports, and the pool keeps its contract. */
  predicate CallOk(q: Queue, bufsz: nat, c: Call) {
    Formats(c, bufsz) ==> |c.text| == c.len && AllocOk(q, c.len, c.alloc)
  }

  /** kprintf_handler, whole: interrupts stay off while it runs. */
  function Produce(q: Queue, started: bool, bufsz: nat, c: Call): (Queue, int)
  {
    if !started || !Formats(c, bufsz) then (q, 0)
    else
      match c.alloc
      case Refused(error) => (q, error)
      case Block(addr) =>
        var node := Node(addr, Sent(c.text, c.isUser), NewBuf(c.text));
        (q.(list := q.list + [node], free := q.free - BlockOf(node), flush := true,
            accepted := q.accepted + [node.sent]), c.len)
  }

  /** The interrupts-off part of remove_delete_msg. */
  function RemoveDelete(q: Queue, m: nat): Queue {
    var k := Find(q.list, m);
    if k == |q.list| then q
    else q.(list := q.list[..k] + q.list[k + 1..], free := q.free + BlockOf(q.list[k]),
            freed := q.freed + [q.list[k].sent])
  }

  function Rewrite(list: seq<Node>, m: nat, b: MsgBuf): seq<Node> {
    var k := Find(list, m);
    if k == |list| then list else list[k := list[k].(buf := b)]
  }

  // ---------------------------------------------------------------- threads

  /** Where the event thread is. `t` says EV_TERMINATE was taken with the current event. */
  datatype Consumer =
    | Boot                                              // waits for STATE_STARTED
    | Wait                                              // in sceKernelWaitEventFlagCB
    | AwaitSema(t: bool)
    | Resend(t: bool)
    | FlushEntry(t: bool)                               // before m = g_head
    | LoopTest(t: bool, m: nat)                         // before while (m != NULL)
    | Invoke(t: bool, m: nat, i: nat)                   // at slot i of invoke_handlers
    | InCallback(t: bool, m: nat, i: nat, h: Handler)   // inside slot i's callback
    | ReadNext(t: bool, m: nat, reach: nat, stopped: bool)          // before n = m->next
    | RemoveCheck(t: bool, m: nat, n: nat, reach: nat, stopped: bool) // before g_head == NULL
    | Remove(t: bool, m: nat, n: nat, reach: nat, stopped: bool)    // before the critical section
    | Signal(t: bool)
    | TermCheck(t: bool, flushed: bool)
    | Exited(flushed: bool)                             // EV_STOP_OK sent, thread over

  /** A thread inside register_handler or unregister_handler. */
  datatype Client = Asking(op: Op) | Critical(op: Op) | Leaving(op: Op, ret: int)

  /** _stop: not called, past its test, after the state change, waiting, returned. */
  datatype Stopper = Idle | Entered | StateSet | Waiting | StopOk | TimedOut

  datatype GState = Starting | Started | Stopped

  /** A callback that has returned, and what it returned. */
  datatype Answer = Answer(h: Handler, res: int)

  /** A finished message: which slots it had been offered to, how the chain ended, and what its
      callbacks returned. */
  datatype Delivery = Delivery(sent: Sent, slots: seq<Slot>, reach: nat, stopped: bool, answers: seq<Answer>)

  datatype Event =
    | Added(i: int, h: Handler)
    | Dropped(i: int)
    | Called(no: nat, i: int, h: Handler)

  /** `answers`, `delivered` and `log` are histories: what the callbacks of the message under the
      cursor have returned, the finished messages, the changes of the registry and the calls. */
  datatype State = State(
    gstate: GState, q: Queue, terminate: bool, stopOk: bool, sema: nat, reg: Table,
    con: Consumer, clients: map<nat, Client>, stop: Stopper,
    answers: seq<Answer>, delivered: seq<Delivery>, log: seq<Event>)

  /** Build-time settings: KPRINTF_BUFSZ, the pool size, KPRINTF_MAX_HANDLERS. */
  datatype Config = Config(bufsz: nat, pool: nat, maxHandlers: nat)

  /** As init leaves things just before it sets STATE_STARTED. */
  function Init(c: Config): State {
    State(Starting, Queue([], c.pool, false, [], []), false, false, 1, EmptyTable(c.maxHandlers),
          Boot, map[], Idle, [], [], [])
  }

  const MSG_STOP := 1

  datatype Step =
    | InitDone
    | Kprintf(c: Call)
    | Tick                                   // the event thread moves
    | SemaError                              // its semaphore wait fails
    | Return(b: MsgBuf, res: int)            // the running callback returns
    | ClientEnter(tid: nat, op: Op)
    | ClientTick(tid: nat)
    | ClientError(tid: nat)                  // that caller's semaphore wait fails
    | StopTick
    | StopTimeout

  /** What a callback may do to the buffer it was handed: size is passed by value and nothing
      outside msg[] is touched; default_file_handler does what its code says. */
  predicate CallbackMay(h: Handler, b: MsgBuf, b': MsgBuf, res: int) {
    && b'.size == b.size && |b'.data| == |b.data|
    && (h.cb == DefaultFile && DefaultInBounds(b) ==> b' == AppendNewline(b) && res == 0)
  }

  predicate Enabled(cfg: Config, s: State, step: Step) {
    match step
    case InitDone => s.gstate == Starting
    case Kprintf(c) => CallOk(s.q, cfg.bufsz, c)
    case Tick => (
      match s.con
      case Boot => s.gstate == Started
      case Wait => s.q.flush || s.terminate
      case AwaitSema(_) => s.sema >= 1
      case InCallback(_, _, _, _) => false
      case Exited(_) => false
      case _ => true
    )
    case SemaError => s.con.AwaitSema?
    case Return(b, res) =>
      && s.con.InCallback? && Find(s.q.list, s.con.m) < |s.q.list|
      && CallbackMay(s.con.h, s.q.list[Find(s.q.list, s.con.m)].buf, b, res)
    case ClientEnter(tid, op) => tid !in s.clients && s.gstate == Started && OpOk(op)
    case ClientTick(tid) => tid in s.clients && (s.clients[tid].Asking? ==> s.sema >= 1)
    case ClientError(tid) => tid in s.clients && s.clients[tid].Asking?
    case StopTick => (
      match s.stop
      case Idle => s.gstate == Started
      case Entered => true
      case StateSet => true
      case Waiting => s.stopOk
      case StopOk => false
      case TimedOut => false
    )
    case StopTimeout => s.stop == Waiting
  }

  /** sceKernelSignalSema(g_semid, 1) on a semaphore of maximum count 1. */
  function SignalSema(n: nat): nat {
    if n < 1 then n + 1 else n
  }

  /** The event thread's next move. */
  function ConsumerTick(s: State): State {
    match s.con
    case Boot => s.(con := Wait)
    case Wait =>
      s.(con := if s.q.flush then AwaitSema(s.terminate) else TermCheck(s.terminate, false),
         q := s.q.(flush := false), terminate := false)
    case AwaitSema(t) => s.(sema := if s.sema >= 1 then s.sema - 1 else 0, con := FlushEntry(t))
    case Resend(t) => s.(q := s.q.(flush := true), con := TermCheck(t, false))
    case FlushEntry(t) => s.(con := LoopTest(t, HeadAddr(s.q.list)))
    case LoopTest(t, m) => s.(con := if m == 0 then Signal(t) else Invoke(t, m, 0))
    case Invoke(t, m, i) =>
      if i >= |s.reg.slots| then s.(con := ReadNext(t, m, i, false))
      else if s.reg.slots[i].None? then s.(con := Invoke(t, m, i + 1))
      else
        var h := s.reg.slots[i].value;
        s.(con := InCallback(t, m, i, h), log := s.log + [Called(|s.delivered|, i, h)])
    case ReadNext(t, m, reach, stopped) =>
      s.(con := RemoveCheck(t, m, NextAddr(s.q.list, m), reach, stopped))
    case RemoveCheck(t, m, n, reach, stopped) =>
      s.(con := if s.q.list == [] then LoopTest(t, n) else Remove(t, m, n, reach, stopped))
    case Remove(t, m, n, reach, stopped) =>
      var k := Find(s.q.list, m);
      s.(con := LoopTest(t, n), q := RemoveDelete(s.q, m), answers := [],
         delivered := if k == |s.q.list| then s.delivered
                      else s.delivered + [Delivery(s.q.list[k].sent, s.reg.slots, reach, stopped, s.answers)])
    case Signal(t) => s.(sema := SignalSema(s.sema), con := TermCheck(t, true))
    case TermCheck(t, flushed) =>
      if t then s.(stopOk := true, con := Exited(flushed)) else s.(con := Wait)
    case InCallback(_, _, _, _) => s
    case Exited(_) => s
  }

  /** What a registry operation adds to the log: nothing unless it changed a slot. */
  function OpEvents(t: Table, op: Op): seq<Event> {
    var (t', ret) := Apply(t, op);
    if t'.count == t.count then []
    else
      match op
      case Register(h, _) => [Added(ret, h)]
      case Unregister(i) => [Dropped(i)]
  }

  function ClientMove(s: State, tid: nat): State
    requires tid in s.clients
  {
    match s.clients[tid]
    case Asking(op) => s.(sema := if s.sema >= 1 then s.sema - 1 else 0, clients := s.clients[tid := Critical(op)])
    case Critical(op) =>
      var (t, ret) := Apply(s.reg, op);
      s.(reg := t, clients := s.clients[tid := Leaving(op, ret)], log := s.log + OpEvents(s.reg, op))
    case Leaving(op, ret) => s.(sema := SignalSema(s.sema), clients := s.clients - {tid})
  }

  function StopMove(s: State): State {
    match s.stop
    case Idle => s.(stop := Entered)
    case Entered => s.(gstate := Stopped, stop := StateSet)
    case StateSet => s.(q := s.q.(flush := true), terminate := true, stop := Waiting)
    case Waiting => s.(stopOk := false, stop := StopOk)
    case StopOk => s
    case TimedOut => s
  }

  function Do(cfg: Config, s: State, step: Step): State
    requires Enabled(cfg, s, step)
  {
    match step
    case InitDone => s.(gstate := Started)
    case Kprintf(c) => s.(q := Produce(s.q, s.gstate == Started, cfg.bufsz, c).0)
    case Tick => ConsumerTick(s)
    case SemaError => s.(con := Resend(s.con.t))
    case Return(b, res) =>
      s.(q := s.q.(list := Rewrite(s.q.list, s.con.m, b)), answers := s.answers + [Answer(s.con.h, res)],
         con := if res == MSG_STOP then ReadNext(s.con.t, s.con.m, s.con.i + 1, true)
                else Invoke(s.con.t, s.con.m, s.con.i + 1))
    case ClientEnter(tid, op) => s.(clients := s.clients[tid := Asking(op)])
    case ClientTick(tid) => ClientMove(s, tid)
    case ClientError(tid) => s.(clients := s.clients - {tid})
    case StopTick => StopMove(s)
    case StopTimeout => s.(stop := TimedOut)
  }

  // ---------------------------------------------------------------- runs

  predicate Feasible(cfg: Config, s: State, steps: seq<Step>)
    decreases |steps|
  {
    steps == [] || (Enabled(cfg, s, steps[0]) && Feasible(cfg, Do(cfg, s, steps[0]), steps[1..]))
  }

  function Run(cfg: Config, s: State, steps: seq<Step>): State
    requires Feasible(cfg, s, steps)
    decreases |steps|
  {
    if steps == [] then s else Run(cfg, Do(cfg, s, steps[0]), steps[1..])
  }
}
