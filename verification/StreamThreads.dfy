/** The life cycle of stream threads as a step system. Any number of controllers (the schedule
    loop, AddStream, DeleteStream) work on the entries of the thread list, and every entry may
    have StreamProc threads of its own; each step is one read or one write of an entry's state. */
module StreamThreads {
  import opened Bytes

  datatype State = Creating | Running | Stopping | Stopped | Cancel

  /** Where a StreamProc is: before its first write, in its loop, or on its way out. */
  datatype Thread = Born | Looping | Leaving

  datatype Entry = Entry(state: State, threads: seq<Thread>)

  /** Where a controller is inside StartStreamThread, StopStreamThread, DeleteStream, AddStream. */
  datatype Pc =
    | StartCheck | StartMark | StartCreate | StartWait
    | StopCheck | StopMark | StopWait
    | DelCheck | DelLook | DelMark | DelWait | DelCancel
    | ArmCheck | Arm

  datatype Ctl = Idle | Busy(id: string, pc: Pc)

  datatype World = World(entries: map<string, Entry>, ctls: seq<Ctl>, up: bool)

  datatype Event =
    | Acquire(p: nat, id: string, op: Pc)
    | Move(p: nat)
    | CreateFails(p: nat)
    | ThreadMoves(id: string, k: nat)
    | BadId(id: string, k: nat)
    | Shutdown

  // ------------------------------------------------------------ steps

  predicate IsFirst(op: Pc) { op == StartCheck || op == StopCheck || op == DelCheck || op == ArmCheck }

  /** Waiting loops let a controller go on only when the state has changed. */
  predicate MayMove(e: Entry, pc: Pc) {
    (pc == StartWait ==> e.state != Creating) && (pc == StopWait || pc == DelWait ==> e.state != Stopping)
  }

  /** One read or write of a controller; None when its call returns. */
  function CtlMove(e: Entry, pc: Pc): (Entry, Option<Pc>) {
    match pc
    case StartCheck => (e, if e.state == Stopped then Some(StartMark) else None)
    case StartMark => (e.(state := Creating), Some(StartCreate))
    case StartCreate => (e.(threads := e.threads + [Born]), Some(StartWait))
    case StartWait => (e, None)
    case StopCheck => (e, if e.state == Running then Some(StopMark) else None)
    case StopMark => (e.(state := Stopping), Some(StopWait))
    case StopWait => (e, None)
    case DelCheck => (e, if e.state == Cancel then None else Some(DelLook))
    case DelLook => (e, if e.state == Stopped then Some(DelCancel) else Some(DelMark))
    case DelMark => (e.(state := Stopping), Some(DelWait))
    case DelWait => (e, Some(DelCancel))
    case DelCancel => (e.(state := Cancel), None)
    case ArmCheck => (e, if e.state == Cancel then Some(Arm) else None)
    case Arm => (e.(state := Stopped), None)
  }

  /** A thread leaves its loop when it sees a stop request or the process is going down. */
  predicate MayLeave(e: Entry, up: bool) { e.state == Stopping || !up }

  function ThreadMove(e: Entry, k: nat): Entry
    requires k < |e.threads|
  {
    match e.threads[k]
    case Born => Entry(Running, e.threads[k := Looping])
    case Looping => e.(threads := e.threads[k := Leaving])
    case Leaving => Entry(Stopped, e.threads[..k] + e.threads[k + 1..])
  }

  predicate BusyAt(w: World, p: int) { 0 <= p < |w.ctls| && w.ctls[p].Busy? }

  predicate HasThread(w: World, id: string, k: nat) { id in w.entries && k < |w.entries[id].threads| }

  predicate Enabled(w: World, e: Event) {
    match e
    case Acquire(p, id, op) =>
      p < |w.ctls| && w.ctls[p] == Idle && IsFirst(op) && (id in w.entries || op == ArmCheck)
    case Move(p) =>
      && BusyAt(w, p)
      && var c := w.ctls[p];
      && (c.pc == ArmCheck || (c.id in w.entries && MayMove(w.entries[c.id], c.pc)))
    case CreateFails(p) => BusyAt(w, p) && w.ctls[p].pc == StartCreate
    case ThreadMoves(id, k) =>
      HasThread(w, id, k) && (w.entries[id].threads[k] == Looping ==> MayLeave(w.entries[id], w.up))
    case BadId(id, k) => HasThread(w, id, k) && w.entries[id].threads[k] == Born
    case Shutdown => true
  }

  function Returned(pc: Option<Pc>, id: string): Ctl {
    match pc
    case None => Idle
    case Some(next) => Busy(id, next)
  }

  function Step(w: World, e: Event): (w': World)
    requires Enabled(w, e)
  {
    match e
    case Acquire(p, id, op) => w.(ctls := w.ctls[p := Busy(id, op)])
    case Move(p) =>
      var c := w.ctls[p];
      if c.id in w.entries then
        var (entry, next) := CtlMove(w.entries[c.id], c.pc);
        w.(entries := w.entries[c.id := entry], ctls := w.ctls[p := Returned(next, c.id)])
      else
        w.(entries := w.entries[c.id := Entry(Stopped, [])], ctls := w.ctls[p := Idle])
    case CreateFails(p) => w.(ctls := w.ctls[p := Busy(w.ctls[p].id, StartWait)])
    case ThreadMoves(id, k) => w.(entries := w.entries[id := ThreadMove(w.entries[id], k)])
    case BadId(id, k) =>
      var e := w.entries[id];
      w.(entries := w.entries[id := e.(threads := e.threads[..k] + e.threads[k + 1..])])
    case Shutdown => w.(up := false)
  }

  // ------------------------------------------------------------ the invariant

  /** The list flag taken as the mutual exclusion it stands for. */
  predicate Exclusive(w: World, e: Event) {
    e.Acquire? ==> forall p :: 0 <= p < |w.ctls| ==> w.ctls[p] == Idle
  }

  predicate Active(s: State) { s == Creating || s == Running || s == Stopping }

  /** What holds of an entry while the controller that works on it, if any, is at `at`. */
  predicate EntryOk(e: Entry, at: Option<Pc>) {
    && |e.threads| <= 1
    && (|e.threads| == 1 && e.threads[0] == Born ==> e.state == Creating && at == Some(StartWait))
    && (|e.threads| == 1 && e.threads[0] != Born ==> e.state == Running || e.state == Stopping)
    && (e.state == Creating ==> at == Some(StartCreate) || at == Some(StartWait))
    && (e.state == Stopping ==> at == Some(StopWait) || at == Some(DelWait))
    && (at == Some(StartMark) ==> e.state == Stopped)
    && (at == Some(DelLook) ==> e.state != Cancel)
    && (at == Some(Arm) ==> e.state == Cancel)
    && (at == Some(StartCreate) ==> e.state == Creating && e.threads == [])
    && (at == Some(DelCancel) ==> e.state == Stopped)
    && (at == Some(StopMark) || at == Some(DelMark) ==> e.state == Running || e.state == Stopped)
    && (at == Some(StopWait) || at == Some(DelWait) ==> e.state == Stopping || e.state == Stopped)
  }

  predicate OneBusy(w: World) {
    forall p, q :: 0 <= p < q < |w.ctls| ==> w.ctls[p] == Idle || w.ctls[q] == Idle
  }

  /** Controller `p` is the one that works on `id`. */
  predicate WorksOn(w: World, p: int, id: string) { BusyAt(w, p) && w.ctls[p].id == id }

  /** Entry `id` is in order for the controller that works on it, or for none. */
  ghost predicate InOrder(w: World, id: string)
    requires id in w.entries
  {
    && (forall p :: WorksOn(w, p, id) ==> EntryOk(w.entries[id], Some(w.ctls[p].pc)))
    && ((forall p :: !WorksOn(w, p, id)) ==> EntryOk(w.entries[id], None))
  }

  ghost predicate Inv(w: World) {
    && OneBusy(w)
    && (forall p :: BusyAt(w, p) && w.ctls[p].id !in w.entries ==> w.ctls[p].pc == ArmCheck)
    && (forall id :: id in w.entries ==> InOrder(w, id))
  }

  // ------------------------------------------------------------ one entry

  lemma {:induction false} CtlMoveOk(e: Entry, pc: Pc)
    requires EntryOk(e, Some(pc)) && MayMove(e, pc)
    ensures var (e', next) := CtlMove(e, pc); EntryOk(e', next)
  {
  }

  lemma {:induction false} ThreadMoveOk(e: Entry, k: nat, at: Option<Pc>)
    requires EntryOk(e, at) && k < |e.threads|
    ensures EntryOk(ThreadMove(e, k), at)
  {
  }

  // ------------------------------------------------------------ every step

  lemma {:induction false} MoveKeeps(w: World, p: nat)
    requires Inv(w) && Enabled(w, Move(p))
    ensures Inv(Step(w, Move(p)))
  {
    var w' := Step(w, Move(p));
    var c := w.ctls[p];
    assert BusyAt(w, p);
    if c.id in w.entries {
      assert InOrder(w, c.id) && WorksOn(w, p, c.id);
      CtlMoveOk(w.entries[c.id], c.pc);
    }
    forall q | q != p ensures BusyAt(w', q) == BusyAt(w, q) && !BusyAt(w, q) {
      var lo, hi := if p < q then p else q, if p < q then q else p;
      assert 0 <= lo && hi < |w.ctls| ==> w.ctls[lo] == Idle || w.ctls[hi] == Idle;
    }
    hide EntryOk, CtlMove, MayMove;
    forall id | id in w'.entries ensures InOrder(w', id) {
      if id == c.id {
        if BusyAt(w', p) {
          assert WorksOn(w', p, id);
        } else {
          NewEntryOk();
        }
      } else {
        assert InOrder(w, id);
        assert forall q :: WorksOn(w', q, id) == WorksOn(w, q, id);
      }
    }
  }

  lemma {:induction false} NewEntryOk()
    ensures EntryOk(Entry(Stopped, []), None)
  {
  }

  lemma {:induction false} AcquireKeeps(w: World, p: nat, id: string, op: Pc)
    requires Inv(w) && Enabled(w, Acquire(p, id, op)) && Exclusive(w, Acquire(p, id, op))
    ensures Inv(Step(w, Acquire(p, id, op)))
  {
    var w' := Step(w, Acquire(p, id, op));
    forall q | q != p ensures !BusyAt(w', q) && !BusyAt(w, q) {
    }
    forall i | i in w'.entries ensures InOrder(w', i) {
      assert InOrder(w, i);
      assert forall q :: !WorksOn(w, q, i);
      assert EntryOk(w.entries[i], None);
    }
  }

  /** A change of one entry by its own thread, whoever works on it. */
  lemma {:induction false} EntryChangeKeeps(w: World, id: string, e: Entry)
    requires Inv(w) && id in w.entries
    requires forall at :: EntryOk(w.entries[id], at) ==> EntryOk(e, at)
    ensures Inv(w.(entries := w.entries[id := e]))
  {
    hide EntryOk;
    var w' := w.(entries := w.entries[id := e]);
    forall q, i ensures WorksOn(w', q, i) == WorksOn(w, q, i) && BusyAt(w', q) == BusyAt(w, q) {}
    forall i | i in w'.entries ensures InOrder(w', i) {
      assert InOrder(w, i);
    }
  }

  /** An entry that waits for its thread is in order whether or not the thread is created. */
  lemma {:induction false} CreatorOk(w: World, p: nat)
    requires Inv(w) && BusyAt(w, p) && w.ctls[p].pc == StartCreate
    ensures var id := w.ctls[p].id;
            id in w.entries && EntryOk(w.entries[id], Some(StartCreate)) && EntryOk(w.entries[id], Some(StartWait))
  {
    var id := w.ctls[p].id;
    assert WorksOn(w, p, id) && InOrder(w, id);
  }

  lemma {:induction false} CreateFailsKeeps(w: World, p: nat)
    requires Inv(w) && Enabled(w, CreateFails(p))
    ensures Inv(Step(w, CreateFails(p)))
  {
    hide EntryOk;
    CreatorOk(w, p);
    var w' := Step(w, CreateFails(p));
    forall q, i ensures WorksOn(w', q, i) == WorksOn(w, q, i) && BusyAt(w', q) == BusyAt(w, q) {}
    forall i | i in w'.entries ensures InOrder(w', i) {
      assert InOrder(w, i);
    }
  }

  lemma {:induction false} StepKeeps(w: World, e: Event)
    requires Inv(w) && Enabled(w, e) && Exclusive(w, e)
    ensures Inv(Step(w, e))
  {
    match e
    case Acquire(p, id, op) => AcquireKeeps(w, p, id, op);
    case Move(p) => MoveKeeps(w, p);
    case CreateFails(p) => CreateFailsKeeps(w, p);
    case ThreadMoves(id, k) =>
      forall at: Option<Pc> | EntryOk(w.entries[id], at) ensures EntryOk(ThreadMove(w.entries[id], k), at) {
        ThreadMoveOk(w.entries[id], k, at);
      }
      EntryChangeKeeps(w, id, ThreadMove(w.entries[id], k));
    case BadId(id, k) =>
      var t := w.entries[id].threads;
      EntryChangeKeeps(w, id, w.entries[id].(threads := t[..k] + t[k + 1..]));
    case Shutdown =>
      ShutdownKeeps(w);
  }

  lemma {:induction false} ShutdownKeeps(w: World)
    requires Inv(w)
    ensures Inv(w.(up := false))
  {
    hide EntryOk;
    var w' := w.(up := false);
    forall q, i ensures WorksOn(w', q, i) == WorksOn(w, q, i) && BusyAt(w', q) == BusyAt(w, q) {}
    forall i | i in w'.entries ensures InOrder(w', i) {
      assert InOrder(w, i);
    }
  }

  // ------------------------------------------------------------ runs

  predicate Feasible(w: World, es: seq<Event>)
    decreases |es|
  {
    es == [] || (Enabled(w, es[0]) && Feasible(Step(w, es[0]), es[1..]))
  }

  function Run(w: World, es: seq<Event>): World
    requires Feasible(w, es)
    decreases |es|
  {
    if es == [] then w else Run(Step(w, es[0]), es[1..])
  }

  predicate ExclusiveRun(w: World, es: seq<Event>)
    requires Feasible(w, es)
    decreases |es|
  {
    es == [] || (Exclusive(w, es[0]) && ExclusiveRun(Step(w, es[0]), es[1..]))
  }

  predicate Fresh(w: World) {
    w.entries == map[] && forall p :: 0 <= p < |w.ctls| ==> w.ctls[p] == Idle
  }

  lemma {:induction false} FreshInv(w: World)
    requires Fresh(w)
    ensures Inv(w)
  {
  }

  lemma {:induction false} RunKeeps(w: World, es: seq<Event>)
    requires Inv(w) && Feasible(w, es) && ExclusiveRun(w, es)
    ensures Inv(Run(w, es))
    decreases |es|
  {
    hide Inv, Step, Enabled, Exclusive;
    if es != [] {
      StepKeeps(w, es[0]);
      RunKeeps(Step(w, es[0]), es[1..]);
    }
  }

  /** In every run under mutual exclusion an entry has at most one StreamProc, and it has one only
      while its state is creating, running or stopping; a cancelled or stopped entry has none. */
  lemma {:induction false} AtMostOneThread(w: World, es: seq<Event>, id: string)
    requires Fresh(w) && Feasible(w, es) && ExclusiveRun(w, es) && id in Run(w, es).entries
    ensures var e := Run(w, es).entries[id];
            |e.threads| <= 1 && (e.threads != [] ==> Active(e.state))
  {
    FreshInv(w);
    RunKeeps(w, es);
    var w' := Run(w, es);
    assert InOrder(w', id);
    if p :| WorksOn(w', p, id) {
      assert EntryOk(w'.entries[id], Some(w'.ctls[p].pc));
    } else {
      assert EntryOk(w'.entries[id], None);
    }
  }

  // ------------------------------------------------------------ live exactly when active

  /** Some controller is about to create the thread of `id`. */
  ghost predicate AboutToCreate(w: World, id: string) { exists p :: WorksOn(w, p, id) && w.ctls[p].pc == StartCreate }

  ghost predicate LiveWhenActive(w: World, id: string)
    requires id in w.entries
  {
    Active(w.entries[id].state) ==> w.entries[id].threads != [] || AboutToCreate(w, id)
  }

  /** Every active entry has its thread, or is about to get it. */
  ghost predicate Exact(w: World) { forall id :: id in w.entries ==> LiveWhenActive(w, id) }

  /** The steps that leave an active entry without a thread: the thread cannot be created, it
      returns at once because of its stream id, or a stop request is written although the thread
      has ended since the state was read. */
  predicate Benign(w: World, e: Event)
    requires Enabled(w, e)
  {
    match e
    case CreateFails(p) => false
    case BadId(id, k) => false
    case Move(p) =>
      var c := w.ctls[p];
      (c.pc == StopMark || c.pc == DelMark) ==> c.id in w.entries && w.entries[c.id].state != Stopped
    case _ => true
  }

  lemma {:induction false} OnlyOne(w: World, p: int, q: int)
    requires OneBusy(w) && BusyAt(w, p) && BusyAt(w, q)
    ensures p == q
  {
  }

  /** One controller step seen from its entry: it leaves an active entry without a thread only by
      writing a stop request to a stopped one. */
  lemma {:induction false} CtlMoveExact(e: Entry, pc: Pc)
    requires EntryOk(e, Some(pc)) && MayMove(e, pc)
    requires Active(e.state) ==> e.threads != [] || pc == StartCreate
    ensures var (e', next) := CtlMove(e, pc);
            (Active(e'.state) ==> e'.threads != [] || next == Some(StartCreate))
            <==> (pc == StopMark || pc == DelMark ==> e.state != Stopped)
  {
  }

  lemma {:induction false} CreatesWhen(w: World, p: nat)
    requires OneBusy(w) && BusyAt(w, p)
    ensures AboutToCreate(w, w.ctls[p].id) <==> w.ctls[p].pc == StartCreate
  {
    assert WorksOn(w, p, w.ctls[p].id);
    forall q | WorksOn(w, q, w.ctls[p].id) ensures q == p { OnlyOne(w, p, q); }
  }

  /** An entry that no controller works on. */
  lemma {:induction false} CreatesNot(w: World, id: string)
    requires forall p :: !WorksOn(w, p, id)
    ensures !AboutToCreate(w, id)
  {
  }

  lemma {:induction false} MoveExactOwn(w: World, p: nat)
    requires Inv(w) && Exact(w) && Enabled(w, Move(p)) && w.ctls[p].id in w.entries
    ensures LiveWhenActive(Step(w, Move(p)), w.ctls[p].id) <==> Benign(w, Move(p))
  {
    var w', c := Step(w, Move(p)), w.ctls[p];
    var e := w.entries[c.id];
    assert InOrder(w, c.id) && WorksOn(w, p, c.id) && LiveWhenActive(w, c.id);
    CreatesWhen(w, p);
    CtlMoveExact(e, c.pc);
    var next := CtlMove(e, c.pc).1;
    forall q | q != p ensures !BusyAt(w', q) { if BusyAt(w, q) { OnlyOne(w, p, q); } }
    hide CtlMove, EntryOk, MayMove, Inv, Exact;
    if next.Some? {
      CreatesWhen(w', p);
    } else {
      assert forall q :: !WorksOn(w', q, c.id);
      CreatesNot(w', c.id);
    }
  }

  lemma {:induction false} MoveExactOther(w: World, p: nat, id: string)
    requires Inv(w) && Exact(w) && Enabled(w, Move(p)) && id in w.entries && id != w.ctls[p].id
    ensures LiveWhenActive(Step(w, Move(p)), id)
  {
    hide CtlMove, EntryOk, MayMove;
    assert LiveWhenActive(w, id);
    forall q ensures !WorksOn(w, q, id) { if BusyAt(w, q) { OnlyOne(w, p, q); } }
    CreatesNot(w, id);
  }

  lemma {:induction false} MoveExact(w: World, p: nat)
    requires Inv(w) && Exact(w) && Enabled(w, Move(p))
    ensures Exact(Step(w, Move(p))) <==> Benign(w, Move(p))
  {
    hide CtlMove, EntryOk, MayMove, LiveWhenActive;
    var w', c := Step(w, Move(p)), w.ctls[p];
    assert BusyAt(w, p);
    forall id | id in w.entries && id != c.id ensures LiveWhenActive(w', id) {
      MoveExactOther(w, p, id);
    }
    if c.id in w.entries {
      MoveExactOwn(w, p);
    } else {
      NewEntryLive(w', c.id);
    }
  }

  lemma {:induction false} NewEntryLive(w: World, id: string)
    requires id in w.entries && w.entries[id] == Entry(Stopped, [])
    ensures LiveWhenActive(w, id)
  {
  }

  lemma {:induction false} CreateFailsNotExact(w: World, p: nat)
    requires Inv(w) && Enabled(w, CreateFails(p))
    ensures !Exact(Step(w, CreateFails(p)))
  {
    var w', id := Step(w, CreateFails(p)), w.ctls[p].id;
    assert InOrder(w, id) && WorksOn(w, p, id);
    if AboutToCreate(w', id) {
      var q :| WorksOn(w', q, id) && w'.ctls[q].pc == StartCreate;
      OnlyOne(w, p, q);
    }
    assert !LiveWhenActive(w', id);
  }

  lemma {:induction false} BadIdNotExact(w: World, id: string, k: nat)
    requires Inv(w) && Enabled(w, BadId(id, k))
    ensures !Exact(Step(w, BadId(id, k)))
  {
    var w' := Step(w, BadId(id, k));
    assert InOrder(w, id);
    assert (forall p :: !WorksOn(w, p, id)) ==> EntryOk(w.entries[id], None);
    var p :| WorksOn(w, p, id);
    assert EntryOk(w.entries[id], Some(w.ctls[p].pc));
    if AboutToCreate(w', id) {
      var q :| WorksOn(w', q, id) && w'.ctls[q].pc == StartCreate;
      assert WorksOn(w, q, id);
      OnlyOne(w, p, q);
    }
    assert w'.entries[id].threads == [];
    assert !LiveWhenActive(w', id);
  }

  lemma {:induction false} ThreadExact(w: World, id: string, k: nat)
    requires Inv(w) && Exact(w) && Enabled(w, ThreadMoves(id, k))
    ensures Exact(Step(w, ThreadMoves(id, k)))
  {
    var w' := Step(w, ThreadMoves(id, k));
    forall i | i in w'.entries ensures LiveWhenActive(w', i) {
      assert LiveWhenActive(w, i);
      if AboutToCreate(w, i) {
        var q :| WorksOn(w, q, i) && w.ctls[q].pc == StartCreate;
        assert WorksOn(w', q, i);
      }
    }
  }

  lemma {:induction false} AcquireExact(w: World, p: nat, id: string, op: Pc)
    requires Inv(w) && Exact(w) && Enabled(w, Acquire(p, id, op))
    ensures Exact(Step(w, Acquire(p, id, op)))
  {
    var w' := Step(w, Acquire(p, id, op));
    forall i | i in w'.entries ensures LiveWhenActive(w', i) {
      assert LiveWhenActive(w, i);
      if AboutToCreate(w, i) {
        var q :| WorksOn(w, q, i) && w.ctls[q].pc == StartCreate;
        assert WorksOn(w', q, i);
      }
    }
  }

  lemma {:induction false} ShutdownExact(w: World)
    requires Exact(w)
    ensures Exact(w.(up := false))
  {
    var w' := w.(up := false);
    forall i | i in w'.entries ensures LiveWhenActive(w', i) {
      assert LiveWhenActive(w, i);
      if AboutToCreate(w, i) {
        var q :| WorksOn(w, q, i) && w.ctls[q].pc == StartCreate;
        assert WorksOn(w', q, i);
      }
    }
  }

  /** A step keeps every active entry supplied with its thread if and only if it is benign. */
  lemma {:induction false} StepExact(w: World, e: Event)
    requires Inv(w) && Exact(w) && Enabled(w, e)
    ensures Exact(Step(w, e)) <==> Benign(w, e)
  {
    hide Inv, Exact;
    match e
    case Acquire(p, id, op) => AcquireExact(w, p, id, op);
    case Move(p) => MoveExact(w, p);
    case CreateFails(p) => CreateFailsNotExact(w, p);
    case ThreadMoves(id, k) => ThreadExact(w, id, k);
    case BadId(id, k) => BadIdNotExact(w, id, k);
    case Shutdown => ShutdownExact(w);
  }

  predicate BenignRun(w: World, es: seq<Event>)
    requires Feasible(w, es)
    decreases |es|
  {
    es == [] || (Benign(w, es[0]) && BenignRun(Step(w, es[0]), es[1..]))
  }

  /** Every active entry has its thread, or is about to get it, in every state of the run. */
  ghost predicate AlwaysExact(w: World, es: seq<Event>)
    requires Feasible(w, es)
    decreases |es|
  {
    Exact(w) && (es == [] || AlwaysExact(Step(w, es[0]), es[1..]))
  }

  /** Over every run under mutual exclusion, active entries have their threads throughout if and only
      if every step of the run is benign. */
  lemma {:induction false} RunExact(w: World, es: seq<Event>)
    requires Inv(w) && Exact(w) && Feasible(w, es) && ExclusiveRun(w, es)
    ensures AlwaysExact(w, es) <==> BenignRun(w, es)
    decreases |es|
  {
    hide Inv, Exact, Step, Enabled, Exclusive, Benign;
    if es != [] {
      var w' := Step(w, es[0]);
      StepKeeps(w, es[0]);
      StepExact(w, es[0]);
      if Benign(w, es[0]) {
        RunExact(w', es[1..]);
      } else {
        NeverExact(w', es[1..]);
      }
    }
  }

  lemma {:induction false} NeverExact(w: World, es: seq<Event>)
    requires Feasible(w, es) && !Exact(w)
    ensures !AlwaysExact(w, es)
  {
    hide Exact, Step, Enabled;
  }

  /** While the process is up a stop request never finds its thread gone, so without failing
      creations and bad ids every step is benign. */
  lemma {:induction false} UpIsBenign(w: World, e: Event)
    requires Inv(w) && Exact(w) && Enabled(w, e) && NoEarlyLeaver(w)
    requires !e.CreateFails? && !e.BadId?
    ensures Benign(w, e)
  {
    if e.Move? {
      var c := w.ctls[e.p];
      if c.pc == StopMark || c.pc == DelMark {
        assert WorksOn(w, e.p, c.id) && NotGone(w, e.p);
      }
    }
  }

  /** A controller that has read a state to stop still finds it, and one that waits for a new thread
      finds the entry creating or running. */
  predicate NotGone(w: World, p: int)
    requires BusyAt(w, p)
  {
    var c := w.ctls[p];
    && (Asking(c.pc) ==> c.id in w.entries && w.entries[c.id].state == Running)
    && (c.pc == StartWait ==> c.id in w.entries && (w.entries[c.id].state == Creating || w.entries[c.id].state == Running))
  }

  /** No thread leaves its loop unasked. */
  predicate Patient(e: Entry) {
    forall k :: 0 <= k < |e.threads| && e.threads[k] == Leaving ==> e.state == Stopping
  }

  ghost predicate NoEarlyLeaver(w: World) {
    && w.up
    && (forall p :: BusyAt(w, p) ==> NotGone(w, p))
    && (forall id :: id in w.entries ==> Patient(w.entries[id]))
  }

  /** A controller about to ask a thread to stop. */
  predicate Asking(pc: Pc) { pc == StopMark || pc == DelMark }

  lemma {:induction false} UpCtl(e: Entry, pc: Pc)
    requires EntryOk(e, Some(pc)) && Patient(e) && MayMove(e, pc) && (Asking(pc) ==> e.state == Running)
    ensures var (e', next) := CtlMove(e, pc);
            && Patient(e') && (next.Some? && Asking(next.value) ==> e'.state == Running)
            && (next == Some(StartWait) ==> e'.state == Creating)
  {
  }

  lemma {:induction false} UpMove(w: World, p: nat)
    requires Inv(w) && NoEarlyLeaver(w) && Enabled(w, Move(p))
    ensures NoEarlyLeaver(Step(w, Move(p)))
  {
    hide EntryOk, CtlMove, Patient, MayMove;
    var w', c := Step(w, Move(p)), w.ctls[p];
    assert BusyAt(w, p) && NotGone(w, p);
    if c.id in w.entries {
      assert InOrder(w, c.id) && WorksOn(w, p, c.id) && Patient(w.entries[c.id]);
      UpCtl(w.entries[c.id], c.pc);
    } else {
      NewPatient();
    }
    forall q | BusyAt(w', q) ensures NotGone(w', q) {
      if q != p {
        OnlyOne(w, p, q);
      } else if c.id in w.entries {
        var (e', next) := CtlMove(w.entries[c.id], c.pc);
        assert w'.entries[c.id] == e' && w'.ctls[p] == Returned(next, c.id);
      }
    }
  }

  lemma {:induction false} NewPatient()
    ensures Patient(Entry(Stopped, []))
  {
  }

  lemma {:induction false} UpThread(w: World, id: string, k: nat)
    requires Inv(w) && NoEarlyLeaver(w) && Enabled(w, ThreadMoves(id, k))
    ensures NoEarlyLeaver(Step(w, ThreadMoves(id, k)))
  {
    var w' := Step(w, ThreadMoves(id, k));
    assert Patient(w.entries[id]) && InOrder(w, id);
    forall q | BusyAt(w', q) ensures NotGone(w', q) {
      assert BusyAt(w, q) && NotGone(w, q);
      if w.ctls[q].id == id { assert WorksOn(w, q, id); }
    }
  }

  lemma {:induction false} UpBadId(w: World, id: string, k: nat)
    requires Inv(w) && NoEarlyLeaver(w) && Enabled(w, BadId(id, k))
    ensures NoEarlyLeaver(Step(w, BadId(id, k)))
  {
    hide EntryOk, InOrder, OneBusy;
    var w' := Step(w, BadId(id, k));
    assert Patient(w.entries[id]);
    forall q | BusyAt(w', q) ensures NotGone(w', q) {
      assert BusyAt(w, q) && NotGone(w, q);
    }
  }

  lemma {:induction false} UpStep(w: World, e: Event)
    requires Inv(w) && NoEarlyLeaver(w) && Enabled(w, e) && !e.Shutdown?
    ensures NoEarlyLeaver(Step(w, e))
  {
    hide Inv, ThreadMove, CtlMove;
    var w' := Step(w, e);
    match e
    case Acquire(p, id, op) =>
      forall q | BusyAt(w', q) ensures NotGone(w', q) {
        if q != p { assert BusyAt(w, q) && NotGone(w, q); }
      }
    case Move(p) => UpMove(w, p);
    case CreateFails(p) =>
      CreatorOk(w, p);
      forall q | BusyAt(w', q) ensures NotGone(w', q) {
        assert BusyAt(w, q) && NotGone(w, q);
      }
    case ThreadMoves(id, k) => UpThread(w, id, k);
    case BadId(id, k) => UpBadId(w, id, k);
  }

  /** Runs in which nothing goes down, no creation fails and every stream id is well formed: an
      entry has a StreamProc exactly while it is creating, running or stopping, save for the one
      step between marking it and creating the thread. */
  lemma {:induction false} LiveExactlyWhenActive(w: World, es: seq<Event>, id: string)
    requires Fresh(w) && w.up && Feasible(w, es) && ExclusiveRun(w, es)
    requires forall i :: 0 <= i < |es| ==> !es[i].Shutdown? && !es[i].CreateFails? && !es[i].BadId?
    requires id in Run(w, es).entries
    ensures var w', e := Run(w, es), Run(w, es).entries[id];
            && (e.threads != [] ==> Active(e.state))
            && (Active(e.state) ==> |e.threads| == 1 || AboutToCreate(w', id))
  {
    FreshInv(w);
    AtMostOneThread(w, es, id);
    CalmRun(w, es);
    assert LiveWhenActive(Run(w, es), id);
  }

  lemma {:induction false} CalmRun(w: World, es: seq<Event>)
    requires Inv(w) && Exact(w) && NoEarlyLeaver(w) && Feasible(w, es) && ExclusiveRun(w, es)
    requires forall i :: 0 <= i < |es| ==> !es[i].Shutdown? && !es[i].CreateFails? && !es[i].BadId?
    ensures Exact(Run(w, es))
    decreases |es|
  {
    hide Inv, Exact, Step, Enabled, Exclusive, Benign, NoEarlyLeaver;
    if es != [] {
      StepKeeps(w, es[0]);
      UpIsBenign(w, es[0]);
      StepExact(w, es[0]);
      UpStep(w, es[0]);
      CalmRun(Step(w, es[0]), es[1..]);
    }
  }

  /** A cancelled entry stays cancelled, without a thread, until AddStream arms it again. */
  lemma {:induction false} CancelStays(w: World, e: Event, id: string)
    requires Inv(w) && Enabled(w, e) && Exclusive(w, e)
    requires id in w.entries && w.entries[id].state == Cancel
    requires !(e.Move? && w.ctls[e.p] == Busy(id, Arm))
    ensures id in Step(w, e).entries && Step(w, e).entries[id] == Entry(Cancel, [])
  {
    hide EntryOk, OneBusy, CtlMove, ThreadMove;
    CancelBare(w, id);
    if e.Move? && w.ctls[e.p].id == id {
      assert WorksOn(w, e.p, id) && InOrder(w, id);
      CancelMove(w.entries[id], w.ctls[e.p].pc);
    }
  }

  lemma {:induction false} CancelBare(w: World, id: string)
    requires Inv(w) && id in w.entries && w.entries[id].state == Cancel
    ensures w.entries[id].threads == []
  {
    assert InOrder(w, id);
    if p :| WorksOn(w, p, id) { assert EntryOk(w.entries[id], Some(w.ctls[p].pc)); }
  }

  lemma {:induction false} CancelMove(e: Entry, pc: Pc)
    requires EntryOk(e, Some(pc)) && e.state == Cancel && pc != Arm
    ensures CtlMove(e, pc).0 == e
  {
  }

  /** No controller arms the entry in the run. */
  predicate NeverArmed(w: World, es: seq<Event>, id: string)
    requires Feasible(w, es)
    decreases |es|
  {
    es == [] || (!Arms(w, es[0], id) && NeverArmed(Step(w, es[0]), es[1..], id))
  }

  predicate Arms(w: World, e: Event, id: string)
    requires Enabled(w, e)
  {
    e.Move? && w.ctls[e.p] == Busy(id, Arm)
  }

  /** Over every run under mutual exclusion in which AddStream does not arm it, a cancelled entry stays
      cancelled without a thread. */
  lemma {:induction false} CancelStaysThroughout(w: World, es: seq<Event>, id: string)
    requires Inv(w) && Feasible(w, es) && ExclusiveRun(w, es) && NeverArmed(w, es, id)
    requires id in w.entries && w.entries[id] == Entry(Cancel, [])
    ensures var w' := Run(w, es); id in w'.entries && w'.entries[id] == Entry(Cancel, [])
    decreases |es|
  {
    hide Inv, Step, Enabled, Exclusive;
    if es != [] {
      assert !Arms(w, es[0], id);
      CancelStays(w, es[0], id);
      StepKeeps(w, es[0]);
      CancelStaysThroughout(Step(w, es[0]), es[1..], id);
    }
  }

  // ------------------------------------------------------------ without mutual exclusion

  /** One entry and two controllers. */
  function Pair(e: Entry, a: Ctl, b: Ctl): World { World(map["c" := e], [a, b], true) }

  lemma {:induction false} PairAcquires(e: Entry, other: Ctl, op: Pc)
    requires IsFirst(op)
    ensures Enabled(Pair(e, Idle, other), Acquire(0, "c", op))
    ensures Step(Pair(e, Idle, other), Acquire(0, "c", op)) == Pair(e, Busy("c", op), other)
    ensures Enabled(Pair(e, other, Idle), Acquire(1, "c", op))
    ensures Step(Pair(e, other, Idle), Acquire(1, "c", op)) == Pair(e, other, Busy("c", op))
  {
  }

  lemma {:induction false} PairMoves(e: Entry, other: Ctl, pc: Pc)
    requires MayMove(e, pc)
    ensures var (e', next) := CtlMove(e, pc);
            && Enabled(Pair(e, Busy("c", pc), other), Move(0))
            && Step(Pair(e, Busy("c", pc), other), Move(0)) == Pair(e', Returned(next, "c"), other)
            && Enabled(Pair(e, other, Busy("c", pc)), Move(1))
            && Step(Pair(e, other, Busy("c", pc)), Move(1)) == Pair(e', other, Returned(next, "c"))
  {
    hide MayMove, CtlMove;
    var (e', next) := CtlMove(e, pc);
    assert map["c" := e]["c" := e'] == map["c" := e'];
  }

  lemma {:induction false} PairThread(e: Entry, a: Ctl, b: Ctl)
    requires |e.threads| > 0 && (e.threads[0] == Looping ==> e.state == Stopping)
    ensures Enabled(Pair(e, a, b), ThreadMoves("c", 0))
    ensures Step(Pair(e, a, b), ThreadMoves("c", 0)) == Pair(ThreadMove(e, 0), a, b)
  {
    assert map["c" := e]["c" := ThreadMove(e, 0)] == map["c" := ThreadMove(e, 0)];
  }

  /** A run extended by one step. */
  lemma {:induction false} Then(w: World, es: seq<Event>, e: Event, w': World) returns (es': seq<Event>)
    requires Feasible(w, es) && Enabled(Run(w, es), e) && Step(Run(w, es), e) == w'
    ensures Feasible(w, es') && Run(w, es') == w'
    decreases |es|
  {
    hide Enabled, Step;
    if es == [] {
      es' := [e];
      assert es'[1..] == [];
    } else {
      var tail := Then(Step(w, es[0]), es[1..], e, w');
      es' := [es[0]] + tail;
      assert es'[1..] == tail;
    }
  }

  /** Two controllers that both found the list flag clear, a scheduler that starts the thread of
      the entry and a DeleteStream that had read its stopped state before: the entry ends up
      cancelled with its thread running. */
  lemma {:induction false} DeleteRace() returns (es: seq<Event>)
    ensures Feasible(Pair(Entry(Stopped, []), Idle, Idle), es)
    ensures Run(Pair(Entry(Stopped, []), Idle, Idle), es) == Pair(Entry(Cancel, [Looping]), Idle, Idle)
  {
    hide Step, Enabled, Run, Feasible, Pair;
    var w, s := Pair(Entry(Stopped, []), Idle, Idle), Entry(Stopped, []);
    var c, r := Entry(Creating, [Born]), Entry(Running, [Looping]);
    es := BothRead();
    PairMoves(s, Busy("c", DelCancel), StartMark);
    es := Then(w, es, Move(0), Pair(Entry(Creating, []), Busy("c", StartCreate), Busy("c", DelCancel)));
    PairMoves(Entry(Creating, []), Busy("c", DelCancel), StartCreate);
    assert [] + [Born] == [Born];
    es := Then(w, es, Move(0), Pair(c, Busy("c", StartWait), Busy("c", DelCancel)));
    PairThread(c, Busy("c", StartWait), Busy("c", DelCancel));
    assert ThreadMove(c, 0) == r by { assert [Born][0 := Looping] == [Looping]; }
    es := Then(w, es, ThreadMoves("c", 0), Pair(r, Busy("c", StartWait), Busy("c", DelCancel)));
    es := DeleteRaceEnds(es);
  }

  /** Both controllers have read the stopped state. */
  lemma {:induction false} BothRead() returns (es: seq<Event>)
    ensures var w := Pair(Entry(Stopped, []), Idle, Idle);
            Feasible(w, es) && Run(w, es) == Pair(Entry(Stopped, []), Busy("c", StartMark), Busy("c", DelCancel))
  {
    hide Step, Enabled, Run, Feasible, Pair;
    var w, s := Pair(Entry(Stopped, []), Idle, Idle), Entry(Stopped, []);
    es := [];
    NothingDone(w);
    PairAcquires(s, Idle, StartCheck);
    es := Then(w, es, Acquire(0, "c", StartCheck), Pair(s, Busy("c", StartCheck), Idle));
    PairAcquires(s, Busy("c", StartCheck), DelCheck);
    es := Then(w, es, Acquire(1, "c", DelCheck), Pair(s, Busy("c", StartCheck), Busy("c", DelCheck)));
    PairMoves(s, Busy("c", DelCheck), StartCheck);
    es := Then(w, es, Move(0), Pair(s, Busy("c", StartMark), Busy("c", DelCheck)));
    PairMoves(s, Busy("c", StartMark), DelCheck);
    es := Then(w, es, Move(1), Pair(s, Busy("c", StartMark), Busy("c", DelLook)));
    PairMoves(s, Busy("c", StartMark), DelLook);
    es := Then(w, es, Move(1), Pair(s, Busy("c", StartMark), Busy("c", DelCancel)));
  }

  lemma {:induction false} DeleteRaceEnds(begun: seq<Event>) returns (es: seq<Event>)
    requires var w := Pair(Entry(Stopped, []), Idle, Idle);
             Feasible(w, begun) && Run(w, begun) == Pair(Entry(Running, [Looping]), Busy("c", StartWait), Busy("c", DelCancel))
    ensures var w := Pair(Entry(Stopped, []), Idle, Idle);
            Feasible(w, es) && Run(w, es) == Pair(Entry(Cancel, [Looping]), Idle, Idle)
  {
    hide Step, Enabled, Run, Feasible, Pair;
    var w, r := Pair(Entry(Stopped, []), Idle, Idle), Entry(Running, [Looping]);
    PairMoves(r, Busy("c", DelCancel), StartWait);
    es := Then(w, begun, Move(0), Pair(r, Idle, Busy("c", DelCancel)));
    PairMoves(r, Idle, DelCancel);
    es := Then(w, es, Move(1), Pair(Entry(Cancel, [Looping]), Idle, Idle));
  }

  lemma {:induction false} NothingDone(w: World)
    ensures Feasible(w, []) && Run(w, []) == w
  {
  }

  /** From there the next AddStream and the next turn of the scheduler give the entry a second
      StreamProc. */
  lemma {:induction false} SecondThread() returns (es: seq<Event>)
    ensures Feasible(Pair(Entry(Cancel, [Looping]), Idle, Idle), es)
    ensures Run(Pair(Entry(Cancel, [Looping]), Idle, Idle), es) ==
            Pair(Entry(Creating, [Looping, Born]), Busy("c", StartWait), Idle)
  {
    hide Step, Enabled, Run, Feasible, Pair;
    var w := Pair(Entry(Cancel, [Looping]), Idle, Idle);
    var s := Entry(Stopped, [Looping]);
    es := Rearmed();
    PairMoves(s, Idle, StartCheck);
    es := Then(w, es, Move(0), Pair(s, Busy("c", StartMark), Idle));
    PairMoves(s, Idle, StartMark);
    es := Then(w, es, Move(0), Pair(Entry(Creating, [Looping]), Busy("c", StartCreate), Idle));
    PairMoves(Entry(Creating, [Looping]), Idle, StartCreate);
    assert [Looping] + [Born] == [Looping, Born];
    es := Then(w, es, Move(0), Pair(Entry(Creating, [Looping, Born]), Busy("c", StartWait), Idle));
  }

  lemma {:induction false} Rearmed() returns (es: seq<Event>)
    ensures var w := Pair(Entry(Cancel, [Looping]), Idle, Idle);
            Feasible(w, es) && Run(w, es) == Pair(Entry(Stopped, [Looping]), Busy("c", StartCheck), Idle)
  {
    hide Step, Enabled, Run, Feasible, Pair;
    var w := Pair(Entry(Cancel, [Looping]), Idle, Idle);
    var s := Entry(Stopped, [Looping]);
    es := [];
    NothingDone(w);
    PairAcquires(Entry(Cancel, [Looping]), Idle, ArmCheck);
    es := Then(w, es, Acquire(1, "c", ArmCheck), Pair(Entry(Cancel, [Looping]), Idle, Busy("c", ArmCheck)));
    PairMoves(Entry(Cancel, [Looping]), Idle, ArmCheck);
    es := Then(w, es, Move(1), Pair(Entry(Cancel, [Looping]), Idle, Busy("c", Arm)));
    PairMoves(Entry(Cancel, [Looping]), Idle, Arm);
    es := Then(w, es, Move(1), Pair(s, Idle, Idle));
    PairAcquires(s, Idle, StartCheck);
    es := Then(w, es, Acquire(0, "c", StartCheck), Pair(s, Busy("c", StartCheck), Idle));
  }
}
