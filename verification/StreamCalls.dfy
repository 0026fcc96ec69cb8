/** What the calls of the controllers have achieved when they return. */
module StreamCalls {
  import opened Bytes
  import opened StreamThreads

  datatype Call = StartStreamThread | StopStreamThread | DeleteStream | AddStream

  function CallOf(pc: Pc): Call {
    match pc
    case StartCheck | StartMark | StartCreate | StartWait => StartStreamThread
    case StopCheck | StopMark | StopWait => StopStreamThread
    case DelCheck | DelLook | DelMark | DelWait | DelCancel => DeleteStream
    case ArmCheck | Arm => AddStream
  }

  /** The step ends the call that controller `p` is in. */
  predicate Returns(w: World, p: nat)
    requires Enabled(w, Move(p))
  {
    Step(w, Move(p)).ctls[p] == Idle
  }

  /** The entry a call has worked on, when it returns; `was` is what it was before the last step. */
  predicate Achieved(call: Call, was: Option<Entry>, e: Entry, up: bool) {
    match call
    case StopStreamThread => e == Entry(Stopped, []) || (was == Some(e) && e == Entry(Cancel, []))
    case DeleteStream => e == Entry(Cancel, [])
    case StartStreamThread => up ==> e.state == Running || (was == Some(e) && e == Entry(Cancel, []))
    case AddStream => if was.None? || was.value.state == Cancel then e == Entry(Stopped, []) else e == was.value
  }

  function EntryOf(w: World, id: string): Option<Entry> { if id in w.entries then Some(w.entries[id]) else None }

  /** A controller goes on with the call it is in, and works on its own entry. */
  lemma {:induction false} CallGoesOn(w: World, p: nat)
    requires Enabled(w, Move(p))
    ensures var c, w' := w.ctls[p], Step(w, Move(p));
            && (!Returns(w, p) ==> w'.ctls[p].Busy? && w'.ctls[p].id == c.id && CallOf(w'.ctls[p].pc) == CallOf(c.pc))
            && (forall q :: 0 <= q < |w.ctls| && q != p ==> w'.ctls[q] == w.ctls[q])
            && (forall id :: id != c.id ==> EntryOf(w', id) == EntryOf(w, id))
  {
  }

  /** The last step of a call, seen from its entry. */
  lemma {:induction false} LastMove(e: Entry, pc: Pc)
    requires EntryOk(e, Some(pc)) && MayMove(e, pc)
    requires e.state != Creating || pc == StartCreate || pc == StartWait
    ensures var (e', next) := CtlMove(e, pc);
            next.None? ==> Achieved(CallOf(pc), Some(e), e', pc == StartWait ==> e.state == Creating || e.state == Running)
  {
  }

  /** A call that returns in a state in order has achieved what it is for. */
  lemma {:induction false} ReturnAchieves(w: World, p: nat)
    requires Inv(w) && Enabled(w, Move(p)) && Returns(w, p)
    ensures var c, w' := w.ctls[p], Step(w, Move(p));
            c.id in w'.entries && Achieved(CallOf(c.pc), EntryOf(w, c.id), w'.entries[c.id], NoEarlyLeaver(w))
  {
    var c := w.ctls[p];
    if c.id in w.entries {
      assert WorksOn(w, p, c.id) && InOrder(w, c.id);
      LastMove(w.entries[c.id], c.pc);
      if NoEarlyLeaver(w) { assert NotGone(w, p); }
    }
    hide CtlMove, EntryOk, MayMove;
  }

  /** Over every run under mutual exclusion: a call that returns has achieved what it is for. A stop leaves
      its entry stopped without a thread, a delete leaves it cancelled without one, an add leaves a new or
      cancelled entry stopped and any other alone, and a start leaves it running if the process has not
      been going down. Stops and starts leave cancelled entries alone. */
  lemma {:induction false} CallsAchieve(w: World, es: seq<Event>, p: nat)
    requires Fresh(w) && Feasible(w, es) && ExclusiveRun(w, es)
    requires Enabled(Run(w, es), Move(p)) && Returns(Run(w, es), p)
    ensures var u := Run(w, es);
            var c, u' := u.ctls[p], Step(u, Move(p));
            c.id in u'.entries && Achieved(CallOf(c.pc), EntryOf(u, c.id), u'.entries[c.id], u.up)
  {
    hide Inv, NoEarlyLeaver, Step, Enabled, Returns, ExclusiveRun;
    FreshInv(w);
    RunKeeps(w, es);
    if w.up { FreshUp(w); }
    UpRun(w, es);
    ReturnAchieves(Run(w, es), p);
  }

  lemma {:induction false} FreshUp(w: World)
    requires Fresh(w) && w.up
    ensures NoEarlyLeaver(w)
  {
  }

  /** While the process is up no thread leaves unasked. */
  lemma {:induction false} UpRun(w: World, es: seq<Event>)
    requires Inv(w) && Feasible(w, es) && ExclusiveRun(w, es) && (w.up ==> NoEarlyLeaver(w))
    ensures Run(w, es).up ==> NoEarlyLeaver(Run(w, es))
    decreases |es|
  {
    hide Inv, NoEarlyLeaver, Enabled, Exclusive;
    if es != [] {
      StepKeeps(w, es[0]);
      if w.up && !es[0].Shutdown? { UpStep(w, es[0]); }
      UpRun(Step(w, es[0]), es[1..]);
    }
  }

  /** A thread can leave its loop exactly when it is asked to stop or the process goes down, and a controller
      waits exactly while the state it waits for the end of lasts. */
  lemma {:induction false} WhoWaits(w: World, id: string, k: nat, p: nat)
    requires id in w.entries && k < |w.entries[id].threads| && w.entries[id].threads[k] == Looping
    requires p < |w.ctls| && w.ctls[p].Busy? && w.ctls[p].id == id
    ensures var s, pc := w.entries[id].state, w.ctls[p].pc;
            && (Enabled(w, ThreadMoves(id, k)) <==> s == Stopping || !w.up)
            && (Enabled(w, Move(p)) <==>
                  !(pc == StartWait && s == Creating) && !((pc == StopWait || pc == DelWait) && s == Stopping))
  {
  }

  // ------------------------------------------------------------ runs that get there

  /** A run under mutual exclusion that takes the entry from `a` to `b`, with its controller at `at`. */
  ghost predicate Leads(a: Entry, es: seq<Event>, b: Entry, at: Ctl) {
    var w := Pair(a, Idle, Idle); Feasible(w, es) && ExclusiveRun(w, es) && Run(w, es) == Pair(b, at, Idle)
  }

  /** A run under mutual exclusion, extended by one step. */
  lemma {:induction false} ThenAlone(w: World, es: seq<Event>, e: Event)
    requires Feasible(w, es) && ExclusiveRun(w, es) && Enabled(Run(w, es), e) && Exclusive(Run(w, es), e)
    ensures Feasible(w, es + [e]) && ExclusiveRun(w, es + [e]) && Run(w, es + [e]) == Step(Run(w, es), e)
    decreases |es|
  {
    hide Enabled, Step, Exclusive;
    if es == [] {
      assert es + [e] == [e] && [e][1..] == [];
    } else {
      ThenAlone(Step(w, es[0]), es[1..], e);
      assert (es + [e])[1..] == es[1..] + [e];
    }
  }

  lemma {:induction false} Begun(a: Entry, op: Pc)
    requires IsFirst(op)
    ensures Leads(a, [Acquire(0, "c", op)], a, Busy("c", op))
  {
    var w, e := Pair(a, Idle, Idle), Acquire(0, "c", op);
    PairAcquires(a, Idle, op);
    ThenAlone(w, [], e);
    assert [] + [e] == [e];
  }

  lemma {:induction false} Moved(a: Entry, es: seq<Event>, b: Entry, pc: Pc)
    requires Leads(a, es, b, Busy("c", pc)) && MayMove(b, pc)
    ensures var (b', next) := CtlMove(b, pc); Leads(a, es + [Move(0)], b', Returned(next, "c"))
  {
    hide MayMove, CtlMove, Feasible, ExclusiveRun, Run;
    PairMoves(b, Idle, pc);
    ThenAlone(Pair(a, Idle, Idle), es, Move(0));
  }

  lemma {:induction false} ThreadMoved(a: Entry, es: seq<Event>, b: Entry, at: Ctl)
    requires Leads(a, es, b, at) && |b.threads| > 0 && (b.threads[0] == Looping ==> b.state == Stopping)
    ensures Leads(a, es + [ThreadMoves("c", 0)], ThreadMove(b, 0), at)
  {
    hide ThreadMove, Feasible, ExclusiveRun, Run;
    PairThread(b, at, Idle);
    ThenAlone(Pair(a, Idle, Idle), es, ThreadMoves("c", 0));
  }

  const GO: Event := Move(0)
  const WORK: Event := ThreadMoves("c", 0)

  lemma {:induction false} ThreadPhases(s: State)
    ensures ThreadMove(Entry(s, [Born]), 0) == Entry(Running, [Looping])
    ensures ThreadMove(Entry(s, [Looping]), 0) == Entry(s, [Leaving])
    ensures ThreadMove(Entry(s, [Leaving]), 0) == Entry(Stopped, [])
  {
    assert [Born][0 := Looping] == [Looping] && [Looping][0 := Leaving] == [Leaving];
  }

  /** A stream is started. */
  lemma {:induction false} StartRun()
    ensures Leads(Entry(Stopped, []), [Acquire(0, "c", StartCheck)] + [GO] + [GO] + [GO] + [WORK] + [GO], Entry(Running, [Looping]), Idle)
  {
    hide Leads, ThreadMove;
    var a, es := Entry(Stopped, []), [Acquire(0, "c", StartCheck)];
    Begun(a, StartCheck);
    Moved(a, es, a, StartCheck);
    Moved(a, es + [GO], a, StartMark);
    Moved(a, es + [GO] + [GO], Entry(Creating, []), StartCreate);
    assert [] + [Born] == [Born];
    ThreadPhases(Creating);
    ThreadMoved(a, es + [GO] + [GO] + [GO], Entry(Creating, [Born]), Busy("c", StartWait));
    Moved(a, es + [GO] + [GO] + [GO] + [WORK], Entry(Running, [Looping]), StartWait);
  }

  /** A running stream is stopped. */
  lemma {:induction false} StopRun()
    ensures Leads(Entry(Running, [Looping]), [Acquire(0, "c", StopCheck)] + [GO] + [GO] + [WORK] + [WORK] + [GO], Entry(Stopped, []), Idle)
  {
    hide Leads, ThreadMove;
    var a, es := Entry(Running, [Looping]), [Acquire(0, "c", StopCheck)];
    Begun(a, StopCheck);
    Moved(a, es, a, StopCheck);
    Moved(a, es + [GO], a, StopMark);
    ThreadPhases(Stopping);
    ThreadMoved(a, es + [GO] + [GO], Entry(Stopping, [Looping]), Busy("c", StopWait));
    ThreadMoved(a, es + [GO] + [GO] + [WORK], Entry(Stopping, [Leaving]), Busy("c", StopWait));
    Moved(a, es + [GO] + [GO] + [WORK] + [WORK], Entry(Stopped, []), StopWait);
  }

  /** A running stream is deleted. */
  lemma {:induction false} DeleteRun()
    ensures Leads(Entry(Running, [Looping]), [Acquire(0, "c", DelCheck)] + [GO] + [GO] + [GO] + [WORK] + [WORK] + [GO] + [GO], Entry(Cancel, []), Idle)
  {
    hide Leads, ThreadMove;
    var a, es := Entry(Running, [Looping]), [Acquire(0, "c", DelCheck)] + [GO];
    Begun(a, DelCheck);
    Moved(a, [Acquire(0, "c", DelCheck)], a, DelCheck);
    Moved(a, es, a, DelLook);
    Moved(a, es + [GO], a, DelMark);
    ThreadPhases(Stopping);
    ThreadMoved(a, es + [GO] + [GO], Entry(Stopping, [Looping]), Busy("c", DelWait));
    ThreadMoved(a, es + [GO] + [GO] + [WORK], Entry(Stopping, [Leaving]), Busy("c", DelWait));
    Moved(a, es + [GO] + [GO] + [WORK] + [WORK], Entry(Stopped, []), DelWait);
    Moved(a, es + [GO] + [GO] + [WORK] + [WORK] + [GO], Entry(Stopped, []), DelCancel);
  }

  /** A deleted stream is added again. */
  lemma {:induction false} AddRun()
    ensures Leads(Entry(Cancel, []), [Acquire(0, "c", ArmCheck)] + [GO] + [GO], Entry(Stopped, []), Idle)
  {
    hide Leads;
    var a, es := Entry(Cancel, []), [Acquire(0, "c", ArmCheck)];
    Begun(a, ArmCheck);
    Moved(a, es, a, ArmCheck);
    Moved(a, es + [GO], a, Arm);
  }
}
