/** init in startup.c: kernel objects are acquired one by one and given back on failure. */
module Startup {
  import opened Base
  import opened Protocol
  import opened Registry
  import opened MessageList
  import HandlerCalls

  datatype Kind = Vpl | EventFlag | Sema | Thread
  datatype Object = Object(kind: Kind, uid: int)

  /** What the kernel answers: four creations, starting the thread, setting the dip switch. */
  datatype Answers = Answers(vpl: int, ev: int, sema: int, thread: int, start: int, dipsw: int)

  /** The first error, or 0. */
  function Result(a: Answers): int {
    if a.vpl < 0 then a.vpl
    else if a.ev < 0 then a.ev
    else if a.sema < 0 then a.sema
    else if a.thread < 0 then a.thread
    else if a.start < 0 then a.start
    else if a.dipsw < 0 then a.dipsw
    else 0
  }

  /** The objects created before the first failing call. */
  function Created(a: Answers): set<Object> {
    if a.vpl < 0 then {}
    else if a.ev < 0 then {Object(Vpl, a.vpl)}
    else if a.sema < 0 then {Object(Vpl, a.vpl), Object(EventFlag, a.ev)}
    else if a.thread < 0 then {Object(Vpl, a.vpl), Object(EventFlag, a.ev), Object(Sema, a.sema)}
    else {Object(Vpl, a.vpl), Object(EventFlag, a.ev), Object(Sema, a.sema), Object(Thread, a.thread)}
  }

  /** What the calls answer, in the order in which init makes them. */
  function InOrder(a: Answers): seq<int> {
    [a.vpl, a.ev, a.sema, a.thread, a.start, a.dipsw]
  }

  /** The result is the answer of the first call that failed, or 0 if none did. */
  lemma ResultIsFirstError(a: Answers)
    ensures Result(a) == 0 <==> forall k :: 0 <= k < 6 ==> InOrder(a)[k] >= 0
    ensures forall k :: 0 <= k < 6 && InOrder(a)[k] < 0 && (forall j :: 0 <= j < k ==> InOrder(a)[j] >= 0) ==>
              Result(a) == InOrder(a)[k]
  {
    assert InOrder(a)[0] == a.vpl && InOrder(a)[1] == a.ev && InOrder(a)[2] == a.sema;
    assert InOrder(a)[3] == a.thread && InOrder(a)[4] == a.start && InOrder(a)[5] == a.dipsw;
  }

  /** An object exists exactly if its creation was reached and succeeded. */
  lemma CreatedExactly(a: Answers, o: Object)
    ensures o in Created(a) <==>
              var k := match o.kind case Vpl => 0 case EventFlag => 1 case Sema => 2 case Thread => 3;
              o.uid == InOrder(a)[k] && forall j :: 0 <= j <= k ==> InOrder(a)[j] >= 0
  {
    assert InOrder(a)[0] == a.vpl && InOrder(a)[1] == a.ev && InOrder(a)[2] == a.sema && InOrder(a)[3] == a.thread;
  }

  /** A creation that succeeds names an object that was not alive before. */
  predicate FreshAnswers(live: set<Object>, a: Answers) {
    Created(a) !! live
  }

  /** The clean-up tests for positive identifiers, so it overlooks an object numbered 0. */
  function Overlooked(a: Answers): set<Object> {
    set o | o in Created(a) && o.uid == 0
  }

  /** A failing init gives everything back exactly when no object it created is numbered 0. */
  lemma RollbackExactly(live: set<Object>, a: Answers)
    requires FreshAnswers(live, a)
    ensures live + Overlooked(a) == live <==> forall o :: o in Created(a) ==> o.uid > 0
  {
    var kept := Overlooked(a);
    forall o | o in Created(a) ensures o.uid >= 0 && (o in kept <==> o.uid == 0) {
    }
    if o :| o in kept {
      assert o !in live && o in live + kept;
    }
  }

  /** The pool gets identifier 0 and the event flag cannot be created: init fails and the pool stays. */
  lemma RollbackOverlooksZero()
    ensures var a := Answers(0, -1, 0, 0, 0, 0);
            && FreshAnswers({}, a) && Result(a) == -1
            && Created(a) == Overlooked(a) == {Object(Vpl, 0)}
  {
    var a := Answers(0, -1, 0, 0, 0, 0);
    assert Created(a) == {Object(Vpl, 0)};
  }

  lemma Restored(live: set<Object>, a: Answers)
    requires FreshAnswers(live, a)
    ensures live + Created(a) - (Created(a) - Overlooked(a)) == live + Overlooked(a)
  {
    assert Overlooked(a) <= Created(a);
  }

  class Library {
    var gstate: GState
    var live: set<Object>
    var installed: bool
    var vplid: int
    var evid: int
    var semid: int
    var thid: int

    /** init, for a pool of `pool` bytes. The slots are empty before it, as static storage is. On success
        the globals are in the state every run of the step relation begins with. */
    method Init(a: Answers, p: Pipeline, table: HandlerTable, pool: nat, ghost cfg: Config) returns (ret: int)
      requires FreshAnswers(live, a)
      requires p.bufsz == cfg.bufsz && pool == cfg.pool && table.slots[..] == EmptyTable(cfg.maxHandlers).slots
      modifies this, p, table
      ensures ret == Result(a) && (ret == 0 || ret < 0)
      ensures p.started == (gstate == Started)
      ensures ret == 0 ==>
                && HandlerCalls.Globals(p, table, cfg, Do(cfg, Protocol.Init(cfg), InitDone))
                && gstate == Started && installed
                && live == old(live) + {Object(Vpl, vplid), Object(EventFlag, evid),
                                        Object(Sema, semid), Object(Thread, thid)}
      ensures ret != 0 ==> gstate == Stopped && installed == old(installed) && live == old(live) + Overlooked(a)
    {
      gstate, p.started := Starting, false;
      var vpl, ev, sema, thread;
      ret, vpl, ev, sema, thread := Acquire(a);
      if ret >= 0 {
        vplid, evid, semid, thid := vpl, ev, sema, thread;
        SetGlobals(p, table, pool);
        ret := StartThread(a, p);
      }
      if ret != 0 {
        ghost var before := old(live);
        GiveBack(vpl, ev, sema, thread, a);
        Restored(before, a);
        gstate := Stopped;
      }
    }

    /** An empty list, and the new objects: a free pool, no event bit set, the semaphore at 1. */
    method SetGlobals(p: Pipeline, table: HandlerTable, pool: nat)
      modifies p, table
      ensures p.Valid() && p.Q() == Queue([], pool, false, [], []) && p.ran == []
      ensures !p.terminate && !p.stopOk && p.sema == 1 && p.started == old(p.started)
      ensures table.def == -1 && table.count == 0
    {
      table.def, table.count := -1, 0;
      p.head := null;
      p.free, p.flush, p.terminate, p.stopOk, p.sema := pool, false, false, false, 1;
      p.nodes, p.list, p.accepted, p.freed, p.ran := [], [], [], [], [];
    }

    /** The four creations; an identifier is -1 if its creation was not reached. */
    method Acquire(a: Answers) returns (ret: int, vpl: int, ev: int, sema: int, thread: int)
      modifies this`live
      ensures live == old(live) + Created(a)
      ensures vpl == a.vpl
      ensures ev == if vpl < 0 then -1 else a.ev
      ensures sema == if ev < 0 then -1 else a.sema
      ensures thread == if sema < 0 then -1 else a.thread
      ensures ret >= 0 ==> thread >= 0
      ensures ret < 0 ==> thread < 0 && ret == Result(a)
    {
      ev, sema, thread := -1, -1, -1;
      ret, vpl := a.vpl, a.vpl;
      if ret < 0 { return; }
      live := live + {Object(Vpl, vpl)};
      ret, ev := a.ev, a.ev;
      if ret < 0 { return; }
      live := live + {Object(EventFlag, ev)};
      ret, sema := a.sema, a.sema;
      if ret < 0 { return; }
      live := live + {Object(Sema, sema)};
      ret, thread := a.thread, a.thread;
      if ret < 0 { return; }
      live := live + {Object(Thread, thread)};
    }

    /** The thread is started, the kernel handler installed and the state changed. */
    method StartThread(a: Answers, p: Pipeline) returns (ret: int)
      modifies this`gstate, this`installed, p`started
      ensures gstate == if ret == 0 then Started else old(gstate)
      ensures p.started == (ret == 0 || old(p.started))
      ensures ret == if a.start < 0 then a.start else if a.dipsw < 0 then a.dipsw else 0
      ensures ret == 0 ==> installed
      ensures ret != 0 ==> installed == old(installed)
    {
      if a.start < 0 { return a.start; }
      ret := InstallKernelHandler(a.dipsw);
      if ret >= 0 {
        gstate, p.started := Started, true;
        ret := 0;
      }
    }

    /** The clean-up at the end of init. */
    method GiveBack(vpl: int, ev: int, sema: int, thread: int, ghost a: Answers)
      requires vpl == a.vpl
      requires ev == if vpl < 0 then -1 else a.ev
      requires sema == if ev < 0 then -1 else a.sema
      requires thread == if sema < 0 then -1 else a.thread
      modifies this`live
      ensures live == old(live) - (Created(a) - Overlooked(a))
    {
      if thread > 0 { live := live - {Object(Thread, thread)}; }
      if sema > 0 { live := live - {Object(Sema, sema)}; }
      if ev > 0 { live := live - {Object(EventFlag, ev)}; }
      if vpl > 0 { live := live - {Object(Vpl, vpl)}; }
      forall o | o in Created(a) - Overlooked(a) ensures o.uid > 0 {
        assert o in Overlooked(a) <==> o.uid == 0;
      }
    }

    method InstallKernelHandler(dipsw: int) returns (ret: int)
      modifies this`installed
      ensures dipsw < 0 ==> ret == dipsw && installed == old(installed)
      ensures dipsw >= 0 ==> ret == 0 && installed
    {
      if dipsw < 0 { return dipsw; }
      installed := true;
      return 0;
    }
  }
}
