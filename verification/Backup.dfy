/** Chunked backup: a server that appends the chunks of numbered streams to files, and clients
    that each send one file in chunks of any size. */
module Backup {
  import opened Bytes

  const IDS: nat := 0x1_0000_0000

  datatype Server = Server(queue: map<nat, string>, next: nat, files: map<string, bytes>)

  // ------------------------------------------------------------ the three requests

  /** TransBakFile: create the file unless it exists, enter the stream under the next number.
      The map keeps an entry that already has this number. */
  function Open(s: Server, path: string): Server {
    Server(if s.next in s.queue then s.queue else s.queue[s.next := path],
           (s.next + 1) % IDS,
           if path in s.files then s.files else s.files[path := []])
  }

  function PathOf(s: Server, id: nat): string { if id in s.queue then s.queue[id] else "" }

  /** DoingRecvBakFile: append at the end of the stream's file. Looking up a number that is not
      entered enters it with an empty path; a file that cannot be begun is left alone. */
  function Chunk(s: Server, id: nat, data: bytes): Server {
    var path := PathOf(s, id);
    s.(queue := s.queue[id := path],
       files := if path in s.files then s.files[path := s.files[path] + data] else s.files)
  }

  /** FinishBakFile: forget the stream. */
  function Close(s: Server, id: nat): Server { s.(queue := s.queue - {id}) }

  class BackupServer {
    var queue: map<nat, string>
    var next: nat
    var files: map<string, bytes>

    ghost function Abs(): Server
      reads this
    {
      Server(queue, next, files)
    }

    method TransBakFile(path: string) returns (id: nat)
      modifies this
      ensures Abs() == Open(old(Abs()), path) && id == old(next)
    {
      if path !in files {
        files := files[path := []];
      }
      if next !in queue {
        queue := queue[next := path];
      }
      id := next;
      next := (next + 1) % IDS;
    }

    method DoingRecvBakFile(id: nat, data: bytes)
      modifies this
      ensures Abs() == Chunk(old(Abs()), id, data)
    {
      if id !in queue {
        queue := queue[id := ""];
      }
      var path := queue[id];
      assert queue == queue[id := path];
      if path in files {
        files := files[path := files[path] + data];
      }
    }

    method FinishBakFile(id: nat) returns (found: bool)
      modifies this
      ensures Abs() == Close(old(Abs()), id) && found == (id in old(queue))
    {
      found := id in queue;
      queue := queue - {id};
    }

    /** The chunk loop of DoingTransBakFile, for a client that has the server to itself. */
    method DoingTransBakFile(id: nat, source: bytes, step: nat)
      requires step > 0 && id in queue && queue[id] in files
      modifies this
      ensures queue == old(queue) && next == old(next)
      ensures files == old(files)[old(queue)[id] := old(files)[old(queue)[id]] + source]
    {
      var pos := 0;
      ghost var path := queue[id];
      assert files[path] + source[..0] == files[path];
      while pos < |source|
        invariant 0 <= pos <= |source| && queue == old(queue) && next == old(next)
        invariant files == old(files)[path := old(files)[path] + source[..pos]]
      {
        var n := if |source| - pos < step then |source| - pos else step;
        ghost var sent := source[..pos] + source[pos..pos + n];
        assert sent == source[..pos + n];
        ConcatAssoc(old(files)[path], source[..pos], source[pos..pos + n]);
        DoingRecvBakFile(id, source[pos..pos + n]);
        pos := pos + n;
      }
      assert source[..pos] == source;
    }
  }

  // ------------------------------------------------------------ many clients

  datatype Phase =
    | Waiting
    | Sending(id: nat, pos: nat, base: bytes)
    | Finished(base: bytes, copy: bytes)

  /** A client with the file it sends; `base` is what the server's file held when the client's
      stream was begun, `copy` what it held when the stream was closed. */
  datatype Client = Client(path: string, source: bytes, phase: Phase)

  datatype World = World(server: Server, clients: seq<Client>)

  datatype Event = Begin(c: nat) | Send(c: nat, n: nat) | End(c: nat)

  predicate Sends(w: World, c: int) { 0 <= c < |w.clients| && w.clients[c].phase.Sending? }

  /** What clients do: open, send what was read, close after the last byte. No other open stream
      names the client's file. */
  ghost predicate Enabled(w: World, e: Event) {
    match e
    case Begin(c) =>
      && c < |w.clients| && w.clients[c].phase.Waiting?
      && forall d :: Sends(w, d) ==> w.clients[d].path != w.clients[c].path
    case Send(c, n) => Sends(w, c) && 0 < n && w.clients[c].phase.pos + n <= |w.clients[c].source|
    case End(c) => Sends(w, c) && w.clients[c].phase.pos == |w.clients[c].source|
  }

  function Contents(s: Server, path: string): bytes { if path in s.files then s.files[path] else [] }

  function SetPhase(w: World, c: nat, s: Server, p: Phase): World
    requires c < |w.clients|
  {
    World(s, w.clients[c := w.clients[c].(phase := p)])
  }

  function Step(w: World, e: Event): (w': World)
    requires Enabled(w, e)
  {
    var cl := w.clients[e.c];
    match e
    case Begin(c) =>
      SetPhase(w, c, Open(w.server, cl.path), Sending(w.server.next, 0, Contents(w.server, cl.path)))
    case Send(c, n) =>
      SetPhase(w, c, Chunk(w.server, cl.phase.id, cl.source[cl.phase.pos..cl.phase.pos + n]), cl.phase.(pos := cl.phase.pos + n))
    case End(c) =>
      SetPhase(w, c, Close(w.server, cl.phase.id), Finished(cl.phase.base, Contents(w.server, cl.path)))
  }

  /** The stream of client `c` is entered for its file, and the file is its starting contents
      followed by what the client has sent. */
  predicate StreamOk(s: Server, cl: Client)
    requires cl.phase.Sending?
  {
    && cl.phase.pos <= |cl.source|
    && cl.phase.id in s.queue && s.queue[cl.phase.id] == cl.path
    && cl.path in s.files && s.files[cl.path] == cl.phase.base + cl.source[..cl.phase.pos]
  }

  predicate CopyOk(cl: Client) { cl.phase.Finished? ==> cl.phase.copy == cl.phase.base + cl.source }

  /** Two open streams have different numbers and different files. */
  predicate Apart(w: World, c: int, d: int)
    requires Sends(w, c) && Sends(w, d)
  {
    w.clients[c].phase.id != w.clients[d].phase.id && w.clients[c].path != w.clients[d].path
  }

  ghost predicate AllApart(w: World) { forall c, d :: Sends(w, c) && Sends(w, d) && c != d ==> Apart(w, c, d) }

  predicate HasNumber(w: World, c: int, id: nat) { Sends(w, c) && w.clients[c].phase.id == id }

  /** Every number entered belongs to an open stream. */
  ghost predicate AllOwned(w: World) { forall id :: id in w.server.queue ==> exists c :: HasNumber(w, c, id) }

  ghost predicate Inv(w: World) {
    && (forall c :: Sends(w, c) ==> StreamOk(w.server, w.clients[c]))
    && (forall c :: 0 <= c < |w.clients| ==> CopyOk(w.clients[c]))
    && AllApart(w)
    && AllOwned(w)
  }

  // ------------------------------------------------------------ one step

  /** An open stream that keeps its number and its file. */
  predicate SameStream(w: World, w': World, c: int) {
    Sends(w, c) && Sends(w', c) && w'.clients[c].phase.id == w.clients[c].phase.id && w'.clients[c].path == w.clients[c].path
  }

  lemma {:induction false} OthersKept(w: World, c: nat, s: Server, p: Phase, d: int)
    requires c < |w.clients| && d != c
    ensures var w' := SetPhase(w, c, s, p);
            && Sends(w', d) == Sends(w, d)
            && (Sends(w, d) ==> SameStream(w, w', d) && w'.clients[d] == w.clients[d])
  {
  }

  lemma {:induction false} ApartKept(w: World, w': World)
    requires AllApart(w) && forall d :: Sends(w', d) ==> SameStream(w, w', d)
    ensures AllApart(w')
  {
    forall d, e | Sends(w', d) && Sends(w', e) && d != e ensures Apart(w', d, e) {
      assert SameStream(w, w', d) && SameStream(w, w', e) && Apart(w, d, e);
    }
  }

  lemma {:induction false} OwnedKept(w: World, w': World)
    requires AllOwned(w) && forall id :: id in w'.server.queue ==> id in w.server.queue
    requires forall d :: Sends(w, d) && w.clients[d].phase.id in w'.server.queue ==> SameStream(w, w', d)
    ensures AllOwned(w')
  {
    forall id | id in w'.server.queue ensures exists d :: HasNumber(w', d, id) {
      var d :| HasNumber(w, d, id);
      assert SameStream(w, w', d) && HasNumber(w', d, id);
    }
  }

  lemma {:induction false} CopiesKept(w: World, c: nat, s: Server, p: Phase)
    requires c < |w.clients| && forall d :: 0 <= d < |w.clients| ==> CopyOk(w.clients[d])
    requires CopyOk(w.clients[c].(phase := p))
    ensures forall d :: 0 <= d < |w.clients| ==> CopyOk(SetPhase(w, c, s, p).clients[d])
  {
  }

  /** Opening a stream keeps every open stream apart from the others if and only if the counter
      does not stand at the number of an open stream. */
  lemma {:induction false} BeginKeeps(w: World, c: nat)
    requires Inv(w) && Enabled(w, Begin(c))
    ensures Inv(Step(w, Begin(c))) <==> w.server.next !in w.server.queue
  {
    if w.server.next in w.server.queue {
      var w' := Step(w, Begin(c));
      var d :| HasNumber(w, d, w.server.next);
      assert Sends(w', c) && Sends(w', d) && !Apart(w', c, d);
    } else {
      BeginInv(w, c);
    }
  }

  lemma {:induction false} BeginInv(w: World, c: nat)
    requires Inv(w) && Enabled(w, Begin(c)) && w.server.next !in w.server.queue
    ensures Inv(Step(w, Begin(c)))
  {
    var w', cl, next := Step(w, Begin(c)), w.clients[c], w.server.next;
    var p := Sending(next, 0, Contents(w.server, cl.path));
    CopiesKept(w, c, w'.server, p);
    forall d | d != c ensures Sends(w', d) == Sends(w, d) && (Sends(w, d) ==> w'.clients[d] == w.clients[d]) {
      OthersKept(w, c, w'.server, p, d);
    }
    forall d | Sends(w', d) ensures StreamOk(w'.server, w'.clients[d]) {
      if d != c { assert StreamOk(w.server, w.clients[d]); }
    }
    BeginApart(w, c);
    BeginOwned(w, c);
  }

  lemma {:induction false} BeginApart(w: World, c: nat)
    requires Inv(w) && Enabled(w, Begin(c)) && w.server.next !in w.server.queue
    ensures AllApart(Step(w, Begin(c)))
  {
    var w' := Step(w, Begin(c));
    forall d, e | Sends(w', d) && Sends(w', e) && d != e ensures Apart(w', d, e) {
      if d != c { assert Sends(w, d) && w.clients[d].phase.id in w.server.queue; }
      if e != c { assert Sends(w, e) && w.clients[e].phase.id in w.server.queue; }
      if d != c && e != c { assert Apart(w, d, e); }
    }
  }

  lemma {:induction false} BeginOwned(w: World, c: nat)
    requires Inv(w) && Enabled(w, Begin(c)) && w.server.next !in w.server.queue
    ensures AllOwned(Step(w, Begin(c)))
  {
    var w', next := Step(w, Begin(c)), w.server.next;
    assert HasNumber(w', c, next);
    forall id | id in w'.server.queue ensures exists d :: HasNumber(w', d, id) {
      if id != next {
        var d :| HasNumber(w, d, id);
        assert HasNumber(w', d, id);
      }
    }
  }

  lemma {:induction false} SendKeeps(w: World, c: nat, n: nat)
    requires Inv(w) && Enabled(w, Send(c, n))
    ensures Inv(Step(w, Send(c, n)))
  {
    var w', cl := Step(w, Send(c, n)), w.clients[c];
    assert StreamOk(w.server, cl);
    assert w'.server.queue == w.server.queue;
    hide AllApart, AllOwned;
    var p := cl.phase.(pos := cl.phase.pos + n);
    CopiesKept(w, c, w'.server, p);
    forall d | Sends(w', d) || Sends(w, d) ensures SameStream(w, w', d) {
      if d != c { OthersKept(w, c, w'.server, p, d); }
    }
    forall d | Sends(w', d) ensures StreamOk(w'.server, w'.clients[d]) {
      SendStream(w, c, n, d);
    }
    ApartKept(w, w');
    OwnedKept(w, w');
  }

  lemma {:induction false} SendStream(w: World, c: nat, n: nat, d: int)
    requires Inv(w) && Enabled(w, Send(c, n)) && Sends(w, d)
    ensures var w' := Step(w, Send(c, n)); Sends(w', d) && StreamOk(w'.server, w'.clients[d])
  {
    var w', cl := Step(w, Send(c, n)), w.clients[c];
    assert StreamOk(w.server, cl) && StreamOk(w.server, w.clients[d]);
    if d != c {
      assert Apart(w, c, d);
    } else {
      var pos := cl.phase.pos;
      assert cl.source[..pos + n] == cl.source[..pos] + cl.source[pos..pos + n];
      ConcatAssoc(cl.phase.base, cl.source[..pos], cl.source[pos..pos + n]);
    }
  }

  lemma {:induction false} EndKeeps(w: World, c: nat)
    requires Inv(w) && Enabled(w, End(c))
    ensures Inv(Step(w, End(c)))
  {
    var w', cl := Step(w, End(c)), w.clients[c];
    assert StreamOk(w.server, cl);
    assert cl.source[..cl.phase.pos] == cl.source;
    CopiesKept(w, c, w'.server, Finished(cl.phase.base, Contents(w.server, cl.path)));
    forall d | Sends(w, d) && d != c
      ensures SameStream(w, w', d) && Apart(w, c, d) && StreamOk(w'.server, w'.clients[d])
    {
      OthersKept(w, c, w'.server, Finished(cl.phase.base, Contents(w.server, cl.path)), d);
      assert Apart(w, c, d) && StreamOk(w.server, w.clients[d]);
    }
    forall d | Sends(w', d) ensures d != c && Sends(w, d) && SameStream(w, w', d) {
      if d != c { OthersKept(w, c, w'.server, Finished(cl.phase.base, Contents(w.server, cl.path)), d); }
    }
    hide AllApart, AllOwned;
    ApartKept(w, w');
    OwnedKept(w, w');
  }

  // ------------------------------------------------------------ interleavings

  ghost predicate Feasible(w: World, es: seq<Event>)
    decreases |es|
  {
    es == [] || (Enabled(w, es[0]) && Feasible(Step(w, es[0]), es[1..]))
  }

  ghost function Run(w: World, es: seq<Event>): World
    requires Feasible(w, es)
    decreases |es|
  {
    if es == [] then w else Run(Step(w, es[0]), es[1..])
  }

  /** No stream is begun while the counter stands at the number of an open one. */
  ghost predicate NumbersFree(w: World, es: seq<Event>)
    requires Feasible(w, es)
    decreases |es|
  {
    es == [] || ((es[0].Begin? ==> w.server.next !in w.server.queue) && NumbersFree(Step(w, es[0]), es[1..]))
  }

  lemma {:induction false} StepKeeps(w: World, e: Event)
    requires Inv(w) && Enabled(w, e) && (e.Begin? ==> w.server.next !in w.server.queue)
    ensures Inv(Step(w, e))
  {
    hide Inv, Step;
    match e
    case Begin(c) => BeginKeeps(w, c);
    case Send(c, n) => SendKeeps(w, c, n);
    case End(c) => EndKeeps(w, c);
  }

  /** Over every interleaving, each open stream's file is its starting contents followed by that
      stream's chunks in order, and every finished copy is the starting contents followed by the
      whole source. */
  lemma {:induction false} RunKeeps(w: World, es: seq<Event>)
    requires Inv(w) && Feasible(w, es) && NumbersFree(w, es)
    ensures Inv(Run(w, es))
    decreases |es|
  {
    hide Inv, Step, Enabled;
    if es != [] {
      StepKeeps(w, es[0]);
      RunKeeps(Step(w, es[0]), es[1..]);
    }
  }

  /** The streams are in order in every state of the run. */
  ghost predicate AlwaysInv(w: World, es: seq<Event>)
    requires Feasible(w, es)
    decreases |es|
  {
    Inv(w) && (es == [] || AlwaysInv(Step(w, es[0]), es[1..]))
  }

  /** Over every interleaving that is so if and only if no stream is begun while the counter stands at
      the number of an open one. */
  lemma {:induction false} RunExact(w: World, es: seq<Event>)
    requires Inv(w) && Feasible(w, es)
    ensures AlwaysInv(w, es) <==> NumbersFree(w, es)
    decreases |es|
  {
    hide Inv, Step, Enabled;
    if es != [] {
      if es[0].Begin? { BeginKeeps(w, es[0].c); }
      if es[0].Begin? && w.server.next in w.server.queue {
        NotAlways(Step(w, es[0]), es[1..]);
      } else {
        StepKeeps(w, es[0]);
        RunExact(Step(w, es[0]), es[1..]);
      }
    }
  }

  lemma {:induction false} NotAlways(w: World, es: seq<Event>)
    requires Feasible(w, es) && !Inv(w)
    ensures !AlwaysInv(w, es)
  {
    hide Inv, Step, Enabled;
  }

  /** A world in which nothing has been sent yet. */
  predicate Fresh(w: World) {
    && w.server.queue == map[] && w.server.next == 0
    && forall c :: 0 <= c < |w.clients| ==> w.clients[c].phase.Waiting?
  }

  lemma {:induction false} FreshInv(w: World)
    requires Fresh(w)
    ensures Inv(w)
  {
  }

  function Begins(es: seq<Event>): nat {
    if es == [] then 0 else (if es[0].Begin? then 1 else 0) + Begins(es[1..])
  }

  /** Before the counter is reused, every number in use is below the number of openings. */
  predicate Unwrapped(w: World, begun: nat) {
    && w.server.next == begun % IDS
    && forall id :: id in w.server.queue ==> id < begun
  }

  lemma {:induction false} UnwrappedStep(w: World, e: Event, begun: nat)
    requires Inv(w) && Enabled(w, e) && Unwrapped(w, begun) && (e.Begin? ==> begun < IDS)
    ensures Unwrapped(Step(w, e), begun + if e.Begin? then 1 else 0)
  {
    if e.Send? { assert StreamOk(w.server, w.clients[e.c]); }
  }

  /** Up to 2^32 openings: no number is ever reused, so the run theorem applies as it is. */
  lemma {:induction false} ShortRunsAreFree(w: World, es: seq<Event>, begun: nat)
    requires Inv(w) && Feasible(w, es) && Unwrapped(w, begun) && begun + Begins(es) <= 0x1_0000_0000
    ensures NumbersFree(w, es)
    decreases |es|
  {
    hide Inv, Step, Enabled;
    if es != [] {
      StepKeeps(w, es[0]);
      UnwrappedStep(w, es[0], begun);
      ShortRunsAreFree(Step(w, es[0]), es[1..], begun + if es[0].Begin? then 1 else 0);
    }
  }

  /** An opening while the counter stands at the number of an open stream enters nothing: the new client's
      chunks go to the file of the old stream. */
  lemma {:induction false} SharedNumber(s: Server, path: string, data: bytes)
    requires s.next in s.queue && s.queue[s.next] in s.files && path in s.files
    ensures var s', held := Chunk(Open(s, path), s.next, data), s.queue[s.next];
            && s'.queue == s.queue && s'.files == s.files[held := s.files[held] + data]
  {
    var held := s.queue[s.next];
    assert s.queue[s.next := held] == s.queue;
  }

  /** A chunk with a number that is not entered enters it for the empty path and touches no other file. */
  lemma {:induction false} UnknownNumber(s: Server, id: nat, data: bytes)
    requires id !in s.queue
    ensures var s' := Chunk(s, id, data);
            && s'.next == s.next && s'.queue.Keys == s.queue.Keys + {id} && s'.queue[id] == ""
            && s'.files.Keys == s.files.Keys && forall p :: p in s.files && p != "" ==> s'.files[p] == s.files[p]
  {
  }

  /** One client more than there are numbers, with files of different names. The first `k` have begun,
      and the first of them is still sending. */
  ghost predicate Crowd(w: World, k: nat) {
    && |w.clients| == IDS + 1 && w.server.next == k % IDS && (k > 0 ==> 0 in w.server.queue)
    && forall c :: 0 <= c <= IDS ==> |w.clients[c].path| == c && (c >= k ==> w.clients[c].phase.Waiting?)
  }

  lemma {:induction false} CrowdStep(w: World, k: nat)
    requires Crowd(w, k) && k <= IDS
    ensures Enabled(w, Begin(k)) && (k < IDS ==> Crowd(Step(w, Begin(k)), k + 1))
  {
  }

  /** The others begin one after the other; the last one gets the number of the first. */
  lemma {:induction false} CrowdRun(w: World, k: nat) returns (es: seq<Event>)
    requires Crowd(w, k) && k <= IDS
    ensures Feasible(w, es) && Begins(es) == IDS + 1 - k && !NumbersFree(w, es)
    decreases IDS - k
  {
    CrowdStep(w, k);
    var w', rest := Step(w, Begin(k)), [];
    if k < IDS { rest := CrowdRun(w', k + 1); }
    es := [Begin(k)] + rest;
    assert es[0] == Begin(k) && es[1..] == rest;
    hide Enabled, Step;
  }

  /** The bound on the number of openings is the best one: a run with one opening more in which two open
      streams share a number. */
  lemma {:induction false} WrapRun() returns (w: World, es: seq<Event>)
    ensures Fresh(w) && Feasible(w, es) && Begins(es) == 0x1_0000_0001 && !AlwaysInv(w, es)
  {
    w := World(Server(map[], 0, map[]), seq(IDS + 1, i requires 0 <= i => Client(seq(i, _ => 'f'), [], Waiting)));
    es := CrowdRun(w, 0);
    FreshInv(w);
    RunExact(w, es);
  }

  /** A client alone with a server that has no files. */
  function Lone(path: string, source: bytes): World { World(Server(map[], 0, map[]), [Client(path, source, Waiting)]) }

  /** The rest of a transfer in chunks of `step` bytes, the last one shorter. */
  function Chunks(left: nat, step: nat): seq<Event>
    requires step > 0
  {
    if left == 0 then [End(0)] else if left < step then [Send(0, left), End(0)] else [Send(0, step)] + Chunks(left - step, step)
  }

  lemma {:induction false} ChunksFinish(w: World, path: string, source: bytes, pos: nat, step: nat)
    requires step > 0 && pos <= |source|
    requires |w.clients| == 1 && w.clients[0] == Client(path, source, Sending(0, pos, []))
    ensures var es := Chunks(|source| - pos, step);
            && Feasible(w, es) && Begins(es) == 0 && |Run(w, es).clients| == 1
            && var cl := Run(w, es).clients[0]; cl.source == source && cl.phase.Finished? && cl.phase.base == []
    decreases |source| - pos
  {
    var left := |source| - pos;
    if left == 0 {
      assert [End(0)][1..] == [];
    } else if left < step {
      var es := [Send(0, left), End(0)];
      assert es[1..] == [End(0)] && [End(0)][1..] == [];
      ChunksFinish(Step(w, Send(0, left)), path, source, |source|, step);
    } else {
      var es := Chunks(left, step);
      assert es[0] == Send(0, step) && es[1..] == Chunks(left - step, step);
      ChunksFinish(Step(w, Send(0, step)), path, source, pos + step, step);
    }
  }

  /** Every file can be sent, in chunks of any size, and arrives as it is. */
  lemma {:induction false} TransferRun(path: string, source: bytes, step: nat)
    requires step > 0
    ensures var w, es := Lone(path, source), [Begin(0)] + Chunks(|source|, step);
            && Feasible(w, es) && |Run(w, es).clients| == 1
            && Run(w, es).clients[0].phase == Finished([], source)
  {
    var w, es := Lone(path, source), [Begin(0)] + Chunks(|source|, step);
    assert es[0] == Begin(0) && es[1..] == Chunks(|source|, step);
    var w' := Step(w, Begin(0));
    ChunksFinish(w', path, source, 0, step);
    ExactCopy(w, es, 0);
  }

  /** A finished transfer is an exact copy if and only if the server's file was new or empty. */
  lemma {:induction false} ExactCopy(w: World, es: seq<Event>, c: nat)
    requires Fresh(w) && Feasible(w, es) && Begins(es) <= 0x1_0000_0000
    requires c < |Run(w, es).clients| && Run(w, es).clients[c].phase.Finished?
    ensures var cl := Run(w, es).clients[c];
            cl.phase.copy == cl.source <==> cl.phase.base == []
  {
    FreshInv(w);
    ShortRunsAreFree(w, es, 0);
    RunKeeps(w, es);
    var cl := Run(w, es).clients[c];
    assert CopyOk(cl);
    if cl.phase.base == [] { assert [] + cl.source == cl.source; }
    assert |cl.phase.base + cl.source| == |cl.phase.base| + |cl.source|;
  }
}
