/**
 The life of workers (pkg/net/tcp/server/server.go, pkg/net/internal/worker.go): any number
 of connections served at once, each going through `work` with its deferred steps, every
 call free to fail, and the goroutines of `Run` ending in any order.
 */
module Lifecycle {

  /** Steps of `Worker.Start`. */
  datatype StartStep = DeadlineBefore | Handshake | OnConnected | DeadlineAfter | SetStarted

  /** Steps of `work` after `Start`; the last one is deferred and runs first on the way out. */
  datatype ServeStep = PutBucket | AfterConnect | Launch | AwaitGroup | DeferredDel

  /** Steps of `Worker.Stop` and what `work` does after it, in order. */
  const STOP_BEGIN := 1
  const ON_DISCONNECT := 2
  const CLOSE_CHAN := 3
  const AWAIT_WRITER := 4
  const CLOSE_READER := 5
  const STOP_TUNNELS := 6
  const CLOSE_CONN := 7
  const AFTER_DISCONNECT := 8
  const DONE := 9

  /** The next step of the goroutine that runs `work`. */
  datatype Pc = Starting(start: StartStep) | Serving(serve: ServeStep) | Stopping(stage: nat)

  /** The writer loop: not launched, launched, inside the loop, returned. */
  datatype WriterLoop = Idle | Spawned | Looping | Ended

  /** The goroutines of `Run`: the writer loop with its two flags, and the others still alive. */
  datatype Group = Group(writer: WriterLoop, writeFailed: bool, chanStarted: bool, chanCompleted: bool, others: nat)

  /** How often the reply channel and the reader were closed and the two callbacks ran. */
  datatype Counts = Counts(chanCloses: nat, disconnects: nat, readerCloses: nat, farewells: nat)

  datatype Worker = Worker(
    pc: Pc,
    session: bool,  // the handshake completed
    started: bool,
    stopping: bool,
    group: Group,
    counts: Counts)

  datatype Server = Server(nextId: nat, workers: map<nat, Worker>, registry: set<nat>, replaced: nat)

  datatype Event =
    | Accept
    | Advance(id: nat, ok: bool)   // the main goroutine's next step, and whether it succeeded
    | WriterEnters(id: nat)
    | WriterFails(id: nat)         // a write failed, so the loop returns
    | WriterDrains(id: nat)        // the channel is closed and empty, so the loop returns
    | OtherReturns(id: nat)

  const NEW := Worker(Starting(DeadlineBefore), false, false, false, Group(Idle, false, false, false, 0), Counts(0, 0, 0, 0))
  const EMPTY := Server(0, map[], {}, 0)

  /** Stop's wait on the writer would block here. */
  predicate WaitBlocks(w: Worker) {
    w.pc == Stopping(AWAIT_WRITER) && w.group.chanStarted && !w.group.chanCompleted
  }

  /** The main goroutine's next step, registry aside. */
  function Step(w: Worker, ok: bool): Worker {
    Worker(NextPc(w, ok),
           w.session || (w.pc == Starting(Handshake) && ok),
           w.started || w.pc == Starting(SetStarted),
           w.stopping || w.pc == Stopping(STOP_BEGIN),
           if w.pc == Serving(Launch) then Group(Spawned, false, false, false, 3) else w.group,
           if w.pc.Stopping? then Counted(w.counts, w.pc.stage, w.started) else w.counts)
  }

  function NextPc(w: Worker, ok: bool): Pc {
    match w.pc
    case Starting(start) => AfterStart(start, ok)
    case Serving(serve) => AfterServe(serve, ok, w.group.writer.Ended? && w.group.others == 0)
    case Stopping(stage) => if stage >= DONE || WaitBlocks(w) then w.pc else Stopping(stage + 1)
  }

  /** `Worker.Start`: any failure goes straight to the deferred stop. */
  function AfterStart(start: StartStep, ok: bool): Pc {
    if start.SetStarted? then Serving(PutBucket)
    else if !ok then Stopping(STOP_BEGIN)
    else
      match start
      case DeadlineBefore => Starting(Handshake)
      case Handshake => Starting(OnConnected)
      case OnConnected => Starting(DeadlineAfter)
      case _ => Starting(SetStarted)
  }

  /** Registry, route table and `Worker.Run`, which waits for all its goroutines. */
  function AfterServe(serve: ServeStep, ok: bool, groupDone: bool): Pc {
    match serve
    case PutBucket => Serving(AfterConnect)
    case AfterConnect => Serving(if ok then Launch else DeferredDel)
    case Launch => Serving(AwaitGroup)
    case AwaitGroup => Serving(if groupDone then DeferredDel else AwaitGroup)
    case DeferredDel => Stopping(STOP_BEGIN)
  }

  /** The effects of `Worker.Stop` and of the disconnect callback. */
  function Counted(c: Counts, stage: nat, started: bool): Counts {
    Counts(c.chanCloses + (if stage == CLOSE_CHAN then 1 else 0),
           c.disconnects + (if stage == ON_DISCONNECT && started then 1 else 0),
           c.readerCloses + (if stage == CLOSE_READER then 1 else 0),
           c.farewells + (if stage == AFTER_DISCONNECT then 1 else 0))
  }

  /** A goroutine of `Run` moves. */
  function GroupStep(g: Group, e: Event, chanClosed: bool): Group {
    match e
    case WriterEnters(_) => if g.writer.Spawned? then g.(writer := Looping, chanStarted := true) else g
    case WriterFails(_) =>
      if g.writer.Looping? then g.(writer := Ended, writeFailed := true, chanCompleted := true) else g
    case WriterDrains(_) => if g.writer.Looping? && chanClosed then g.(writer := Ended, chanCompleted := true) else g
    case OtherReturns(_) => if g.others > 0 then g.(others := g.others - 1) else g
    case _ => g
  }

  function Next(s: Server, e: Event): Server {
    if e.Accept? then
      s.(nextId := s.nextId + 1, workers := s.workers[s.nextId + 1 := NEW])
    else if e.id !in s.workers then s
    else
      var w := s.workers[e.id];
      match e
      case Advance(id, ok) =>
        s.(workers := s.workers[id := Step(w, ok)],
        registry := if w.pc == Serving(PutBucket) then s.registry + {id}
        else if w.pc == Serving(DeferredDel) then s.registry - {id} else s.registry,
        replaced := if w.pc == Serving(PutBucket) && id in s.registry then s.replaced + 1 else s.replaced)
      case _ => s.(workers := s.workers[e.id := w.(group := GroupStep(w.group, e, w.counts.chanCloses > 0))])
  }

  function Run(events: seq<Event>): Server {
    if events == [] then EMPTY else Next(Run(events[..|events| - 1]), events[|events| - 1])
  }

  // ---------- what every step keeps ----------

  predicate Registered(pc: Pc) {
    pc.Serving? && !pc.serve.PutBucket?
  }

  /** How far Stop has come; 0 before it begins. */
  function StopStage(pc: Pc): nat {
    if pc.Stopping? then pc.stage else 0
  }

  ghost predicate StartInv(w: Worker) {
    && (w.started ==> w.session)
    && (w.pc.Starting? ==> !w.started)
    && (w.pc.Starting? && !w.pc.start.DeadlineBefore? && !w.pc.start.Handshake? ==> w.session)
    && (w.pc.Serving? ==> w.started)
  }

  ghost predicate WriterInv(pc: Pc, g: Group) {
    && (g.chanStarted <==> g.writer.Looping? || g.writer.Ended?)
    && (g.chanCompleted <==> g.writer.Ended?)
    && (g.writer.Ended? <==> g.writeFailed)
    && (g.writer.Idle? ==> g.others == 0)
    && (pc == Serving(AwaitGroup) || g.writer.Idle? || (g.writer.Ended? && g.others == 0))
    && (pc.Starting? || (pc.Serving? && !pc.serve.AwaitGroup? && !pc.serve.DeferredDel?) ==> g.writer.Idle?)
  }

  ghost predicate StopInv(w: Worker) {
    && (w.pc.Stopping? ==> STOP_BEGIN <= w.pc.stage <= DONE)
    && (w.stopping <==> StopStage(w.pc) > STOP_BEGIN)
    && w.counts == CountsAt(StopStage(w.pc), w.started)
  }

  /** The effects of all stop steps before `stage`. */
  function CountsAt(stage: nat, started: bool): Counts {
    Counts(if stage > CLOSE_CHAN then 1 else 0,
           if stage > ON_DISCONNECT && started then 1 else 0,
           if stage > CLOSE_READER then 1 else 0,
           if stage > AFTER_DISCONNECT then 1 else 0)
  }

  ghost predicate WorkerInv(w: Worker) {
    StartInv(w) && WriterInv(w.pc, w.group) && StopInv(w)
  }

  ghost predicate InvAt(s: Server, id: nat) {
    && (id in s.workers ==> 1 <= id <= s.nextId && WorkerInv(s.workers[id]))
    && (id in s.registry <==> id in s.workers && Registered(s.workers[id].pc))
  }

  ghost predicate Inv(s: Server) {
    (forall id :: InvAt(s, id)) && s.replaced == 0
  }

  lemma StartKept(w: Worker, ok: bool)
    requires StartInv(w)
    ensures StartInv(Step(w, ok))
  {
  }

  lemma WriterKept(w: Worker, ok: bool)
    requires WriterInv(w.pc, w.group)
    ensures WriterInv(NextPc(w, ok), Step(w, ok).group)
  {
  }

  lemma StopKept(w: Worker, ok: bool)
    requires StopInv(w)
    ensures StopInv(Step(w, ok))
  {
  }

  lemma WorkerStep(w: Worker, ok: bool)
    requires WorkerInv(w)
    ensures WorkerInv(Step(w, ok))
  {
    StartKept(w, ok);
    WriterKept(w, ok);
    StopKept(w, ok);
  }

  /** Where a step leaves the registry. */
  lemma RegistryStep(w: Worker, ok: bool)
    ensures Registered(Step(w, ok).pc) <==>
            w.pc == Serving(PutBucket) || (Registered(w.pc) && w.pc != Serving(DeferredDel))
  {
  }

  /** Changing one worker, and the registry only for that worker, keeps the invariant. */
  lemma OneWorkerInv(s: Server, t: Server, id: nat, w: Worker)
    requires Inv(s) && id in s.workers && WorkerInv(w)
    requires t.nextId == s.nextId && t.replaced == 0 && t.workers == s.workers[id := w]
    requires id in t.registry <==> Registered(w.pc)
    requires forall x :: x != id ==> (x in t.registry <==> x in s.registry)
    ensures Inv(t)
  {
    forall x: nat ensures InvAt(t, x) {
      assert InvAt(s, x);
    }
  }

  lemma AdvanceInv(s: Server, id: nat, ok: bool)
    requires Inv(s) && id in s.workers
    ensures Inv(Next(s, Advance(id, ok)))
  {
    var w := s.workers[id];
    assert InvAt(s, id);
    WorkerStep(w, ok);
    RegistryStep(w, ok);
    OneWorkerInv(s, Next(s, Advance(id, ok)), id, Step(w, ok));
  }

  lemma GoroutineInv(s: Server, e: Event)
    requires Inv(s) && !e.Accept? && !e.Advance? && e.id in s.workers
    ensures Inv(Next(s, e))
  {
    assert InvAt(s, e.id);
    var t := Next(s, e);
    assert s.workers == s.workers[e.id := s.workers[e.id]];
    OneWorkerInv(s, t, e.id, t.workers[e.id]);
  }

  lemma AcceptInv(s: Server)
    requires Inv(s)
    ensures Inv(Next(s, Accept))
  {
    var t := Next(s, Accept);
    forall x: nat ensures InvAt(t, x) {
      assert InvAt(s, x);
    }
  }

  lemma StepInv(s: Server, e: Event)
    requires Inv(s)
    ensures Inv(Next(s, e))
  {
    if e.Accept? {
      AcceptInv(s);
    } else if e.id in s.workers {
      if e.Advance? {
        AdvanceInv(s, e.id, e.ok);
      } else {
        GoroutineInv(s, e);
      }
    }
  }

  lemma {:induction false} RunInv(events: seq<Event>)
    ensures Inv(Run(events))
    decreases |events|
  {
    if events != [] {
      RunInv(events[..|events| - 1]);
      StepInv(Run(events[..|events| - 1]), events[|events| - 1]);
    }
  }

  // ---------- what that means for every run ----------

  /**
   A registered worker has completed its handshake, its Stop has not begun and its reply
   channel is open; and no put ever finds its id taken.
   */
  lemma RegisteredOnlyWhileLive(events: seq<Event>)
    ensures Run(events).replaced == 0
    ensures forall id :: id in Run(events).registry ==>
                           && id in Run(events).workers
                           && var w := Run(events).workers[id];
                           w.session && w.started && !w.stopping && w.counts.chanCloses == 0 && w.counts.disconnects == 0
  {
    RunInv(events);
    forall id | id in Run(events).registry
      ensures id in Run(events).workers && StopStage(Run(events).workers[id].pc) == 0
      ensures WorkerInv(Run(events).workers[id]) && Registered(Run(events).workers[id].pc)
    {
      assert InvAt(Run(events), id);
    }
  }

  /**
   The reply channel is closed at most once and never while the writer loop runs or is about
   to, and Stop's wait on the writer never blocks.
   */
  lemma ChannelClosedSafely(events: seq<Event>, id: nat)
    requires id in Run(events).workers
    ensures var w := Run(events).workers[id];
            && w.counts.chanCloses <= 1
            && (w.counts.chanCloses == 1 ==> !w.group.writer.Spawned? && !w.group.writer.Looping?)
            && !WaitBlocks(w)
  {
    RunInv(events);
    assert InvAt(Run(events), id);
  }

  /** A finished worker was stopped exactly once; OnDisconnect ran exactly if Start completed. */
  lemma FinishedExactlyOnce(events: seq<Event>, id: nat)
    requires id in Run(events).workers && Run(events).workers[id].pc == Stopping(DONE)
    ensures var w := Run(events).workers[id];
            && id !in Run(events).registry
            && w.counts.chanCloses == 1 && w.counts.readerCloses == 1 && w.counts.farewells == 1
            && w.counts.disconnects == if w.started then 1 else 0
  {
    RunInv(events);
    assert InvAt(Run(events), id);
  }

  /**
   The order of the stop steps: OnDisconnect before the channel is closed, the channel closed
   before the writer is waited for, the reader closed after that, the disconnect callback last.
   */
  lemma StopOrder(events: seq<Event>, id: nat)
    requires id in Run(events).workers
    ensures var w := Run(events).workers[id];
            && w.counts.farewells <= w.counts.readerCloses <= w.counts.chanCloses
            && (w.started ==> w.counts.chanCloses <= w.counts.disconnects)
            && (w.pc == Stopping(AWAIT_WRITER) ==> w.counts.chanCloses == 1 && w.counts.readerCloses == 0)
            && (w.counts.disconnects + w.counts.chanCloses + w.counts.readerCloses + w.counts.farewells > 0 ==> w.stopping)
  {
    RunInv(events);
    assert InvAt(Run(events), id);
  }

  // ---------- shutdown ----------

  /**
   A worker waiting in `Run` leaves it with its next step exactly if a write has failed and the
   other goroutines have returned: the writer loop waits for the channel to be closed, and that
   happens only after `Run` returns.
   */
  lemma LeavesRunIff(events: seq<Event>, id: nat, ok: bool)
    requires id in Run(events).workers && Run(events).workers[id].pc == Serving(AwaitGroup)
    ensures var w := Run(events).workers[id];
            Step(w, ok).pc != w.pc <==> w.group.writeFailed && w.group.others == 0
  {
    RunInv(events);
    assert InvAt(Run(events), id);
  }

  lemma {:induction false} RunSplit(events: seq<Event>, more: seq<Event>)
    requires more != []
    ensures Run(events + more) == Next(Run(events + more[..|more| - 1]), more[|more| - 1])
  {
    assert (events + more)[..|events + more| - 1] == events + more[..|more| - 1];
  }

  /** Without a failed write no continuation leaves `Run`, whatever else happens. */
  lemma {:induction false} StuckUntilWriteFails(events: seq<Event>, more: seq<Event>, id: nat)
    requires id in Run(events).workers && Run(events).workers[id].pc == Serving(AwaitGroup)
    requires !Run(events).workers[id].group.writeFailed && WriterFails(id) !in more
    ensures id in Run(events + more).workers
    ensures Run(events + more).workers[id].pc == Serving(AwaitGroup) && !Run(events + more).workers[id].group.writeFailed
    decreases |more|
  {
    if more == [] {
      assert events + more == events;
    } else {
      var before := more[..|more| - 1];
      StuckUntilWriteFails(events, before, id);
      RunSplit(events, more);
      RunInv(events + before);
      assert InvAt(Run(events + before), id);
      StuckStep(Run(events + before), more[|more| - 1], id);
    }
  }

  lemma StuckStep(s: Server, e: Event, id: nat)
    requires InvAt(s, id) && id in s.workers && e != WriterFails(id) && Inv(s)
    requires s.workers[id].pc == Serving(AwaitGroup) && !s.workers[id].group.writeFailed
    ensures id in Next(s, e).workers
    ensures Next(s, e).workers[id].pc == Serving(AwaitGroup) && !Next(s, e).workers[id].group.writeFailed
  {
    assert InvAt(s, s.nextId + 1);
  }

  function Repeat(e: Event, n: nat): seq<Event> {
    seq(n, _ => e)
  }

  /** The step a worker is at after `n` steps that all succeed. */
  function SmoothPc(n: nat): Pc
    requires n <= 8
  {
    [Starting(DeadlineBefore), Starting(Handshake), Starting(OnConnected), Starting(DeadlineAfter),
     Starting(SetStarted), Serving(PutBucket), Serving(AfterConnect), Serving(Launch), Serving(AwaitGroup)][n]
  }

  ghost predicate AtSmooth(w: Worker, n: nat) {
    n <= 8 && w.pc == SmoothPc(n) && w.group == if n == 8 then Group(Spawned, false, false, false, 3) else NEW.group
  }

  lemma SmoothStep(w: Worker, n: nat)
    requires n < 8 && AtSmooth(w, n)
    ensures AtSmooth(Step(w, true), n + 1)
  {
  }

  /** What an event of worker `id` does to it. */
  lemma NextAt(s: Server, e: Event, id: nat)
    requires id in s.workers && !e.Accept? && e.id == id
    ensures id in Next(s, e).workers
    ensures var w := s.workers[id];
            Next(s, e).workers[id] ==
            if e.Advance? then Step(w, e.ok) else w.(group := GroupStep(w.group, e, w.counts.chanCloses > 0))
  {
  }

  /** The run that is stuck: a smooth start, the writer in its loop, all other goroutines returned. */
  function StuckRun(): seq<Event> {
    [Accept] + Repeat(Advance(1, true), 8) + [WriterEnters(1)] + Repeat(OtherReturns(1), 3)
  }

  lemma {:induction false} SmoothStart(n: nat)
    requires n <= 8
    ensures var s := Run([Accept] + Repeat(Advance(1, true), n));
            1 in s.workers && AtSmooth(s.workers[1], n)
  {
    if n == 0 {
      assert [Accept] + Repeat(Advance(1, true), 0) == [Accept];
      assert [Accept][..0] == [];
      assert Run([]) == EMPTY;
    } else {
      SmoothStart(n - 1);
      var s := Run([Accept] + Repeat(Advance(1, true), n - 1));
      assert Repeat(Advance(1, true), n)[..n - 1] == Repeat(Advance(1, true), n - 1);
      RunSplit([Accept], Repeat(Advance(1, true), n));
      NextAt(s, Advance(1, true), 1);
      SmoothStep(s.workers[1], n - 1);
    }
  }

  /**
   A worker told to stop stays in `Run`: its other goroutines have all returned, no write has
   failed, and by `StuckUntilWriteFails` it will wait for one for ever.
   */
  lemma ShutdownCanHang()
    ensures 1 in Run(StuckRun()).workers
    ensures var w := Run(StuckRun()).workers[1];
            w.pc == Serving(AwaitGroup) && w.group.others == 0 && w.group.writer.Looping? && !w.group.writeFailed
  {
    SmoothStart(8);
    var start := [Accept] + Repeat(Advance(1, true), 8);
    RunSplit(start, [WriterEnters(1)]);
    assert start + [WriterEnters(1)][..0] == start;
    NextAt(Run(start), WriterEnters(1), 1);
    OthersReturn(start + [WriterEnters(1)], 3);
    assert StuckRun() == start + [WriterEnters(1)] + Repeat(OtherReturns(1), 3);
  }

  lemma {:induction false} OthersReturn(events: seq<Event>, n: nat)
    requires 1 in Run(events).workers && Run(events).workers[1].group.others >= n
    ensures 1 in Run(events + Repeat(OtherReturns(1), n)).workers
    ensures Run(events + Repeat(OtherReturns(1), n)).workers[1] ==
            var w := Run(events).workers[1]; w.(group := w.group.(others := w.group.others - n))
  {
    if n == 0 {
      assert events + Repeat(OtherReturns(1), 0) == events;
    } else {
      OthersReturn(events, n - 1);
      assert Repeat(OtherReturns(1), n)[..n - 1] == Repeat(OtherReturns(1), n - 1);
      RunSplit(events, Repeat(OtherReturns(1), n));
      NextAt(Run(events + Repeat(OtherReturns(1), n - 1)), OtherReturns(1), 1);
    }
  }

  // ---------- progress of the stop sequence ----------

  /** How often the worker's own goroutine moves in `events`. */
  function Advances(events: seq<Event>, id: nat): nat {
    if events == [] then 0
    else
      var n := |events| - 1;
      Advances(events[..n], id) + if events[n].Advance? && events[n].id == id then 1 else 0
  }

  /**
   Once Stop has begun nothing can hold it up: in any continuation, whatever other goroutines and
   workers do, each step of its own goroutine brings the worker one stage further, until it is done.
   */
  lemma {:induction false} StopCompletes(events: seq<Event>, more: seq<Event>, id: nat)
    requires id in Run(events).workers && Run(events).workers[id].pc.Stopping?
    ensures id in Run(events + more).workers && Run(events + more).workers[id].pc.Stopping?
    ensures Run(events + more).workers[id].pc.stage ==
            var stage := Run(events).workers[id].pc.stage + Advances(more, id);
            if stage <= DONE then stage else DONE
    decreases |more|
  {
    RunInv(events);
    assert InvAt(Run(events), id);
    if more == [] {
      assert events + more == events;
    } else {
      var before := more[..|more| - 1];
      StopCompletes(events, before, id);
      RunSplit(events, more);
      RunInv(events + before);
      assert InvAt(Run(events + before), id);
      StopAdvances(Run(events + before), more[|more| - 1], id);
    }
  }

  lemma StopAdvances(s: Server, e: Event, id: nat)
    requires InvAt(s, id) && InvAt(s, s.nextId + 1) && id in s.workers && s.workers[id].pc.Stopping?
    ensures id in Next(s, e).workers
    ensures var stage := s.workers[id].pc.stage;
            Next(s, e).workers[id].pc ==
            Stopping(if e.Advance? && e.id == id && stage < DONE then stage + 1 else stage)
  {
  }

  // ---------- what a failed step leads to ----------

  function Accepts(events: seq<Event>): nat {
    if events == [] then 0
    else Accepts(events[..|events| - 1]) + if events[|events| - 1].Accept? then 1 else 0
  }

  /** How the steps of worker `id`'s own goroutine went, in order. */
  function Oks(events: seq<Event>, id: nat): seq<bool> {
    if events == [] then []
    else
      var before, e := events[..|events| - 1], events[|events| - 1];
      Oks(before, id) + if e.Advance? && e.id == id && 1 <= id <= Accepts(before) then [e.ok] else []
  }

  /** The first of the four steps of Start that can fail to do so is step `f`. */
  ghost predicate StartFailsAt(oks: seq<bool>, f: nat) {
    f < 4 && f < |oks| && !oks[f] && forall k :: 0 <= k < f ==> oks[k]
  }

  function StopAfter(n: nat): Pc {
    Stopping(if n <= DONE then n else DONE)
  }

  /** Where a worker is whose steps went like this. */
  ghost predicate Place(oks: seq<bool>, pc: Pc) {
    && (forall f :: StartFailsAt(oks, f) ==> pc == StopAfter(|oks| - f))
    && ((forall f :: !StartFailsAt(oks, f)) ==>
          if |oks| <= 6 then pc == SmoothPc(|oks|)
          else if !oks[6] then pc == if |oks| == 7 then Serving(DeferredDel) else StopAfter(|oks| - 7)
          else if |oks| == 7 then pc == Serving(Launch)
          else pc == Serving(AwaitGroup) || pc == Serving(DeferredDel) || pc.Stopping?)
  }

  ghost predicate StartOk(oks: seq<bool>) {
    |oks| >= 4 && oks[0] && oks[1] && oks[2] && oks[3]
  }

  ghost predicate Flags(oks: seq<bool>, w: Worker) {
    && (w.session <==> |oks| >= 2 && oks[0] && oks[1])
    && (w.started <==> |oks| >= 5 && StartOk(oks))
  }

  /** One more step, after which the first failure is where it was, or this step. */
  lemma FailsStep(oks: seq<bool>, ok: bool, f: nat)
    ensures StartFailsAt(oks + [ok], f) <==>
            StartFailsAt(oks, f) || (f == |oks| && f < 4 && !ok && forall k :: 0 <= k < |oks| ==> oks[k])
  {
    assert forall k :: 0 <= k < |oks| ==> (oks + [ok])[k] == oks[k];
  }

  lemma NoFailure(oks: seq<bool>)
    requires forall f :: !StartFailsAt(oks, f)
    ensures forall k :: 0 <= k < 4 && k < |oks| ==> oks[k]
  {
    if |oks| > 0 { assert !StartFailsAt(oks, 0); }
    if |oks| > 1 { assert !StartFailsAt(oks, 1); }
    if |oks| > 2 { assert !StartFailsAt(oks, 2); }
    if |oks| > 3 { assert !StartFailsAt(oks, 3); }
  }

  lemma PlaceStep(w: Worker, oks: seq<bool>, ok: bool)
    requires WorkerInv(w) && Place(oks, w.pc)
    ensures Place(oks + [ok], Step(w, ok).pc)
  {
    if f: nat :| StartFailsAt(oks, f) {
      StopPlaceStep(w, oks, ok, f);
    } else {
      NoFailure(oks);
      if |oks| < 4 {
        StartPlaceStep(w, oks, ok);
      } else {
        ServePlaceStep(w, oks, ok);
      }
    }
  }

  lemma OneFailure(oks: seq<bool>, f: nat)
    requires StartFailsAt(oks, f)
    ensures forall g :: StartFailsAt(oks, g) ==> g == f
  {
  }

  lemma StopPlaceStep(w: Worker, oks: seq<bool>, ok: bool, f: nat)
    requires WorkerInv(w) && Place(oks, w.pc) && StartFailsAt(oks, f)
    ensures Place(oks + [ok], Step(w, ok).pc)
  {
    FailsStep(oks, ok, f);
    OneFailure(oks + [ok], f);
  }

  lemma StartPlaceStep(w: Worker, oks: seq<bool>, ok: bool)
    requires |oks| < 4 && w.pc == SmoothPc(|oks|) && forall k :: 0 <= k < |oks| ==> oks[k]
    ensures Place(oks + [ok], Step(w, ok).pc)
  {
    if ok {
      forall f: nat
        ensures !StartFailsAt(oks + [ok], f)
      {
      }
    } else {
      assert StartFailsAt(oks + [ok], |oks|);
      OneFailure(oks + [ok], |oks|);
    }
  }

  lemma ServePlaceStep(w: Worker, oks: seq<bool>, ok: bool)
    requires WorkerInv(w) && Place(oks, w.pc) && |oks| >= 4 && forall k :: 0 <= k < 4 ==> oks[k]
    ensures Place(oks + [ok], Step(w, ok).pc)
  {
    forall f: nat
      ensures !StartFailsAt(oks, f) && !StartFailsAt(oks + [ok], f)
    {
      FailsStep(oks, ok, f);
    }
  }

  lemma FlagsStep(w: Worker, oks: seq<bool>, ok: bool)
    requires Place(oks, w.pc) && Flags(oks, w)
    ensures Flags(oks + [ok], Step(w, ok))
  {
    if f: nat :| StartFailsAt(oks, f) {
    } else {
      NoFailure(oks);
    }
  }

  lemma {:induction false} NotYetAccepted(events: seq<Event>, id: nat)
    ensures Run(events).nextId == Accepts(events)
    ensures id in Run(events).workers <==> 1 <= id <= Accepts(events)
    ensures id > Accepts(events) ==> Oks(events, id) == []
    decreases |events|
  {
    if events != [] {
      NotYetAccepted(events[..|events| - 1], id);
    }
  }

  /**
   Where every worker is, and what it has achieved, in every run: exactly what the results of its
   own steps so far imply. A failed step of Start leads straight to Stop, a failed connect
   callback to the deferred delete and then to Stop, and nothing leads back.
   */
  lemma {:induction false} PathExact(events: seq<Event>, id: nat)
    requires 1 <= id <= Accepts(events)
    ensures id in Run(events).workers
    ensures Place(Oks(events, id), Run(events).workers[id].pc) && Flags(Oks(events, id), Run(events).workers[id])
    decreases |events|
  {
    NotYetAccepted(events, id);
    var before, e := events[..|events| - 1], events[|events| - 1];
    NotYetAccepted(before, id);
    if id <= Accepts(before) {
      PathExact(before, id);
      RunInv(before);
      assert InvAt(Run(before), id);
      NotYetAccepted(before, Run(before).nextId + 1);
      PathStep(Run(before), e, id, Oks(before, id));
    }
  }

  lemma PathStep(s: Server, e: Event, id: nat, oks: seq<bool>)
    requires id in s.workers && s.nextId + 1 !in s.workers && WorkerInv(s.workers[id])
    requires Place(oks, s.workers[id].pc) && Flags(oks, s.workers[id])
    ensures id in Next(s, e).workers
    ensures var oks' := oks + if e.Advance? && e.id == id then [e.ok] else [];
            Place(oks', Next(s, e).workers[id].pc) && Flags(oks', Next(s, e).workers[id])
  {
    if e.Advance? && e.id == id {
      PlaceStep(s.workers[id], oks, e.ok);
      FlagsStep(s.workers[id], oks, e.ok);
    } else {
      OthersLeave(s, e, id);
      assert oks + [] == oks;
    }
  }

  /** Another's step, or another goroutine's, does not move a worker. */
  lemma OthersLeave(s: Server, e: Event, id: nat)
    requires id in s.workers && s.nextId + 1 !in s.workers && !(e.Advance? && e.id == id)
    ensures id in Next(s, e).workers
    ensures var w, w' := s.workers[id], Next(s, e).workers[id];
            w'.pc == w.pc && w'.session == w.session && w'.started == w.started
  {
  }

  lemma {:induction false} OksPrefix(events: seq<Event>, n: nat, id: nat)
    requires n <= |events|
    ensures Oks(events[..n], id) <= Oks(events, id) && Accepts(events[..n]) <= Accepts(events)
    decreases |events|
  {
    if n == |events| {
      assert events[..n] == events;
    } else {
      var before := events[..|events| - 1];
      assert before[..n] == events[..n];
      OksPrefix(before, n, id);
    }
  }

  /** A worker that has made `m` steps had made exactly the first `m` of them at some moment. */
  lemma {:induction false} MomentOf(events: seq<Event>, id: nat, m: nat) returns (n: nat)
    requires 1 <= id <= Accepts(events) && m <= |Oks(events, id)|
    ensures n <= |events| && Oks(events[..n], id) == Oks(events, id)[..m] && 1 <= id <= Accepts(events[..n])
    decreases |events|
  {
    var before := events[..|events| - 1];
    if m == |Oks(events, id)| {
      assert events[..|events|] == events && Oks(events, id)[..m] == Oks(events, id);
      return |events|;
    }
    NotYetAccepted(before, id);
    n := MomentOf(before, id, m);
    assert before[..n] == events[..n];
  }

  ghost predicate IsServing(events: seq<Event>, id: nat) {
    && id in Run(events).workers
    && (Run(events).workers[id].pc == Serving(Launch) || Run(events).workers[id].pc == Serving(AwaitGroup))
  }

  lemma {:induction false} ServingMeans(events: seq<Event>, id: nat)
    requires IsServing(events, id)
    ensures var oks := Oks(events, id);
            |oks| >= 7 && oks[0] && oks[1] && oks[2] && oks[3] && oks[6]
  {
    NotYetAccepted(events, id);
    PathExact(events, id);
    ServingPlace(Oks(events, id), Run(events).workers[id].pc);
  }

  /** Worker `id` gets to serve in a run if and only if Start and the connect callback succeed. */
  lemma {:induction false} ServesIff(events: seq<Event>, id: nat)
    requires 1 <= id <= Accepts(events)
    ensures (exists n :: 0 <= n <= |events| && IsServing(events[..n], id)) <==>
            var oks := Oks(events, id);
            |oks| >= 7 && oks[0] && oks[1] && oks[2] && oks[3] && oks[6]
  {
    var oks := Oks(events, id);
    if n :| 0 <= n <= |events| && IsServing(events[..n], id) {
      ServingMeans(events[..n], id);
      OksPrefix(events, n, id);
    }
    if |oks| >= 7 && oks[0] && oks[1] && oks[2] && oks[3] && oks[6] {
      var n := MomentOf(events, id, 7);
      PathExact(events[..n], id);
      SmoothPlace(oks[..7], Run(events[..n]).workers[id].pc);
      assert IsServing(events[..n], id);
    }
  }

  lemma SmoothPlace(oks: seq<bool>, pc: Pc)
    requires Place(oks, pc) && 6 <= |oks| <= 7 && oks[0] && oks[1] && oks[2] && oks[3]
    ensures |oks| == 6 ==> pc == Serving(AfterConnect)
    ensures |oks| == 7 ==> pc == Serving(if oks[6] then Launch else DeferredDel)
  {
    assert forall f :: !StartFailsAt(oks, f);
  }

  lemma ServingPlace(oks: seq<bool>, pc: Pc)
    requires Place(oks, pc) && (pc == Serving(Launch) || pc == Serving(AwaitGroup))
    ensures |oks| >= 7 && oks[0] && oks[1] && oks[2] && oks[3] && oks[6]
  {
    if f: nat :| StartFailsAt(oks, f) {
    } else {
      NoFailure(oks);
    }
  }

  lemma {:induction false} RegisteredMeans(events: seq<Event>, id: nat)
    requires id in Run(events).registry
    ensures var oks := Oks(events, id);
            |oks| >= 6 && oks[0] && oks[1] && oks[2] && oks[3]
  {
    RunInv(events);
    assert InvAt(Run(events), id);
    NotYetAccepted(events, id);
    PathExact(events, id);
    RegisteredPlace(Oks(events, id), Run(events).workers[id].pc);
  }

  lemma {:induction false} JustRegistered(events: seq<Event>, id: nat)
    requires 1 <= id <= Accepts(events)
    requires var oks := Oks(events, id); |oks| == 6 && oks[0] && oks[1] && oks[2] && oks[3]
    ensures id in Run(events).registry
  {
    PathExact(events, id);
    SmoothPlace(Oks(events, id), Run(events).workers[id].pc);
    RunInv(events);
    assert InvAt(Run(events), id);
  }

  /** Worker `id` is ever registered in a run if and only if Start succeeds and the put is made. */
  lemma {:induction false} RegisteredIff(events: seq<Event>, id: nat)
    requires 1 <= id <= Accepts(events)
    ensures (exists n :: 0 <= n <= |events| && id in Run(events[..n]).registry) <==>
            var oks := Oks(events, id);
            |oks| >= 6 && oks[0] && oks[1] && oks[2] && oks[3]
  {
    var oks := Oks(events, id);
    if n :| 0 <= n <= |events| && id in Run(events[..n]).registry {
      RegisteredMeans(events[..n], id);
      OksPrefix(events, n, id);
    }
    if |oks| >= 6 && oks[0] && oks[1] && oks[2] && oks[3] {
      var n := MomentOf(events, id, 6);
      assert Oks(events[..n], id) == oks[..6];
      JustRegistered(events[..n], id);
    }
  }

  lemma RegisteredPlace(oks: seq<bool>, pc: Pc)
    requires Place(oks, pc) && Registered(pc)
    ensures |oks| >= 6 && oks[0] && oks[1] && oks[2] && oks[3]
  {
    if f: nat :| StartFailsAt(oks, f) {
    } else {
      NoFailure(oks);
    }
  }

  /**
   A failed step of Start, whatever happens after it: the worker is stopping, was never registered
   and never is, and no disconnect callback of the service runs for it.
   */
  lemma {:induction false} FailedStartStops(events: seq<Event>, id: nat, f: nat)
    requires 1 <= id <= Accepts(events) && f < 4 && f < |Oks(events, id)| && !Oks(events, id)[f]
    ensures id in Run(events).workers && Run(events).workers[id].pc.Stopping? && !Run(events).workers[id].started
    ensures Run(events).workers[id].counts.disconnects == 0
    ensures forall n :: 0 <= n <= |events| ==> id !in Run(events[..n]).registry
  {
    PathExact(events, id);
    FailedPlace(Oks(events, id), Run(events).workers[id].pc, f);
    RunInv(events);
    assert InvAt(Run(events), id);
    forall n | 0 <= n <= |events|
      ensures id !in Run(events[..n]).registry
    {
      RegisteredIff(events, id);
    }
  }

  lemma FailedPlace(oks: seq<bool>, pc: Pc, f: nat)
    requires Place(oks, pc) && f < 4 && f < |oks| && !oks[f]
    ensures pc.Stopping? && !StartOk(oks)
  {
    if forall g :: !StartFailsAt(oks, g) {
      NoFailure(oks);
    }
  }

  /**
   A failed connect callback, whatever happens after it: the worker is registered until its next
   own step, which deletes it, and from then on it is stopping.
   */
  lemma {:induction false} FailedConnectLeaves(events: seq<Event>, id: nat)
    requires 1 <= id <= Accepts(events)
    requires var oks := Oks(events, id); |oks| >= 7 && oks[0] && oks[1] && oks[2] && oks[3] && !oks[6]
    ensures id in Run(events).workers
    ensures if |Oks(events, id)| == 7
            then Run(events).workers[id].pc == Serving(DeferredDel) && id in Run(events).registry
            else Run(events).workers[id].pc.Stopping? && id !in Run(events).registry
  {
    PathExact(events, id);
    RunInv(events);
    assert InvAt(Run(events), id);
    assert forall f :: !StartFailsAt(Oks(events, id), f);
  }
}
