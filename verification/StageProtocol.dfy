/** The stages of a distributed benchmark: a server drives its clients through
    prepare, benchmark and cleanup (cli/benchserver.go), each client holds gates
    for the stages of its active benchmark (cli/benchclient.go, cli/benchmark.go). */
module StageProtocol {
  import opened Basics

  datatype Stage = Prepare | Benchmark | Cleanup

  const STAGES: set<Stage> := {Prepare, Benchmark, Cleanup}

  /** A stage of one benchmark on a client. `timers` counts delayed closings under
      way, `fired` and `finished` how often the two gates have been closed. */
  datatype StageInfo = StageInfo(startRequested: bool, timers: nat, fired: nat, finished: nat)

  datatype Bench = Bench(info: map<Stage, StageInfo>, failed: bool)

  const NEW_STAGE := StageInfo(false, 0, 0, 0)
  const NEW_BENCH := Bench(map s | s in STAGES :: NEW_STAGE, false)

  datatype Request = RunBenchmark | StartStage(stage: Stage) | StageStatus(stage: Stage) | SendOps

  /** `started` and `finished` are what a status reply says of the stage's gates; false
      in other replies. */
  datatype Reply = Failure | Success(started: bool, finished: bool)

  predicate SaysFinished(r: Reply) {
    r.Success? && r.finished
  }

  // ----- the client's side as values -------------------------------------------------------

  /** A start request closes the gate later, unless one has been accepted before. */
  function Accept(b: Bench, stage: Stage): Bench {
    if stage !in b.info || b.info[stage].startRequested then b
    else
      var i := b.info[stage];
      b.(info := b.info[stage := i.(startRequested := true, timers := i.timers + 1)])
  }

  function Fire(b: Bench, stage: Stage): Bench
    requires stage in b.info && b.info[stage].timers > 0
  {
    var i := b.info[stage];
    b.(info := b.info[stage := i.(timers := i.timers - 1, fired := i.fired + 1)])
  }

  function Finish(b: Bench, stage: Stage, err: bool): Bench
    requires stage in b.info
  {
    var i := b.info[stage];
    b.(info := b.info[stage := i.(finished := i.finished + 1)], failed := b.failed || err)
  }

  function StatusOf(b: Bench, stage: Stage): Reply {
    if b.failed || stage !in b.info then Failure else Success(b.info[stage].fired > 0, b.info[stage].finished > 0)
  }

  // ----- the client's side in place ------------------------------------------------------------

  class ClientBenchmark {
    var info: map<Stage, StageInfo>
    var failed: bool

    constructor ()
      ensures Value() == NEW_BENCH
    {
      info := map s | s in STAGES :: NEW_STAGE;
      failed := false;
    }

    function Value(): Bench
      reads this
    {
      Bench(info, failed)
    }

    /** A start_stage request. */
    method HandleStart(stage: Stage) returns (r: Reply)
      modifies this`info
      ensures r == if stage in old(info) then Success(false, false) else Failure
      ensures Value() == Accept(old(Value()), stage)
      ensures info.Keys == old(info.Keys) && forall other :: other in info && other != stage ==> info[other] == old(info[other])
      ensures stage in info ==>
        var (before, after) := (old(info[stage]), info[stage]);
        && after.startRequested && after.fired == before.fired && after.finished == before.finished
        && after.timers == before.timers + (if before.startRequested then 0 else 1)
    {
      if stage !in info {
        return Failure;
      }
      var i := info[stage];
      if i.startRequested {
        return Success(false, false);
      }
      i := i.(startRequested := true);
      info := info[stage := i.(timers := i.timers + 1)];
      r := Success(false, false);
    }

    /** The delayed closing of a start gate; false stands for the panic on closing
        a gate twice. */
    method CloseStart(stage: Stage) returns (ok: bool)
      requires stage in info && info[stage].timers > 0
      modifies this`info
      ensures Value() == Fire(old(Value()), stage)
      ensures ok <==> old(info[stage].fired) == 0
      ensures info.Keys == old(info.Keys) && forall other :: other in info && other != stage ==> info[other] == old(info[other])
      ensures var (before, after) := (old(info[stage]), info[stage]);
        && after.timers == before.timers - 1 && after.fired == before.fired + 1
        && after.startRequested == before.startRequested && after.finished == before.finished
    {
      var i := info[stage];
      ok := i.fired == 0;
      info := info[stage := i.(timers := i.timers - 1, fired := i.fired + 1)];
    }

    /** A stage_status request. */
    method HandleStatus(stage: Stage) returns (r: Reply)
      ensures r == StatusOf(Value(), stage)
      ensures r.Failure? <==> failed || stage !in info
      ensures r.Success? ==> (r.started <==> info[stage].fired > 0) && (r.finished <==> info[stage].finished > 0)
    {
      if failed {
        return Failure;
      }
      if stage !in info {
        return Failure;
      }
      r := Success(info[stage].fired > 0, info[stage].finished > 0);
    }

    /** The end of a stage; false stands for the panic on closing its gate twice. */
    method StageDone(stage: Stage, err: bool) returns (ok: bool)
      requires stage in info
      modifies this
      ensures Value() == Finish(old(Value()), stage, err)
      ensures ok <==> old(info[stage].finished) == 0
      ensures failed <==> old(failed) || err
      ensures info.Keys == old(info.Keys) && forall other :: other in info && other != stage ==> info[other] == old(info[other])
      ensures info[stage] == old(info[stage]).(finished := old(info[stage].finished) + 1)
    {
      var i := info[stage];
      ok := i.finished == 0;
      if err && !failed {
        failed := true;
      }
      info := info[stage := i.(finished := i.finished + 1)];
    }
  }

  // ----- the whole system -------------------------------------------------------------------------

  /** `done` records the stages whose end the client's latest benchmark has signalled,
      beyond a crash that loses the benchmark itself. */
  datatype Client = Client(active: Option<Bench>, done: set<Stage>)

  /** What the server is doing with one client: nothing, waiting for a request to be
      handled, or about to read the reply. */
  datatype Task = NoTask | InFlight(req: Request) | Answered(req: Request, reply: Reply)

  datatype Phase = Connecting(next: nat) | Starting(stage: Stage) | Waiting(stage: Stage) | Downloading | Over

  /** `dead`: the server has ended the run; its phase stays what it was. */
  datatype State = State(phase: Phase, dead: bool, links: seq<bool>, tasks: seq<Task>, clients: seq<Client>)

  datatype Event =
    | Connect
    | Handle(i: nat, ok: bool)
    | Resend(i: nat)
    | GiveUp(i: nat)
    | Receive(i: nat)
    | Advance
    | Abort
    | TimerFires(i: nat, stage: Stage)
    | StageEnds(i: nat, stage: Stage, err: bool)
    | RunFails(i: nat)
    | Crash(i: nat)

  ghost predicate Shaped(s: State) {
    |s.links| == |s.tasks| == |s.clients|
  }

  ghost predicate Init(s: State) {
    && Shaped(s) && s.phase == Connecting(0) && !s.dead
    && (forall i :: 0 <= i < |s.links| ==> !s.links[i] && s.tasks[i] == NoTask && s.clients[i] == Client(None, {}))
  }

  /** Errors of the prepare stage end the run. */
  predicate FailOnError(phase: Phase) {
    phase.Connecting? || phase == Starting(Prepare) || phase == Waiting(Prepare)
  }

  function SetTask(s: State, i: nat, t: Task): State
    requires i < |s.tasks|
  {
    s.(tasks := s.tasks[i := t])
  }

  function SetClient(s: State, i: nat, c: Client): State
    requires i < |s.clients|
  {
    s.(clients := s.clients[i := c])
  }

  /** A client handles a request: its new state and the reply. */
  function Handled(c: Client, req: Request, ok: bool): (Client, Reply) {
    match req
    case RunBenchmark => if ok then (Client(Some(NEW_BENCH), {}), Success(false, false)) else (c, Failure)
    case StartStage(stage) =>
      if c.active.None? || stage !in c.active.value.info then (c, Failure)
      else (c.(active := Some(Accept(c.active.value, stage))), Success(false, false))
    case StageStatus(stage) => if c.active.None? then (c, Failure) else (c, StatusOf(c.active.value, stage))
    case SendOps => if c.active.None? then (c, Failure) else (c, Success(false, false))
  }

  /** The server gives up on a client: at once fatal, or the client is left out. */
  function Drop(s: State, i: nat): State
    requires i < |s.tasks| == |s.links|
  {
    if FailOnError(s.phase) then s.(dead := true, links := s.links[i := false])
    else SetTask(s.(links := s.links[i := false]), i, NoTask)
  }

  /** The server reads a reply. */
  function Received(s: State, i: nat): State
    requires i < |s.tasks| == |s.links| && s.tasks[i].Answered?
  {
    var reply := s.tasks[i].reply;
    match s.phase
    case Connecting(_) => if reply.Failure? then s.(dead := true) else SetTask(s, i, NoTask).(phase := Connecting(i + 1))
    case Starting(_) => if reply.Failure? then Drop(s, i) else SetTask(s, i, NoTask)
    case Waiting(stage) =>
      if reply.Failure? then Drop(s, i)
      else if reply.finished then SetTask(s, i, NoTask)
      else SetTask(s, i, InFlight(StageStatus(stage)))
    case _ => SetTask(s, i, NoTask)
  }

  /** Every client still connected is sent the request. */
  function SendAll(s: State, phase: Phase, req: Request): State
    requires |s.links| == |s.tasks|
  {
    s.(phase := phase,
       tasks := seq(|s.tasks|, i requires 0 <= i < |s.tasks| => if s.links[i] then InFlight(req) else NoTask))
  }

  function NextPhase(s: State): State
    requires |s.links| == |s.tasks|
  {
    match s.phase
    case Connecting(_) => SendAll(s, Starting(Prepare), StartStage(Prepare))
    case Starting(stage) => SendAll(s, Waiting(stage), StageStatus(stage))
    case Waiting(Prepare) => SendAll(s, Starting(Benchmark), StartStage(Benchmark))
    case Waiting(Benchmark) => SendAll(s, Downloading, SendOps)
    case Downloading => SendAll(s, Starting(Cleanup), StartStage(Cleanup))
    case Waiting(Cleanup) => s.(phase := Over)
    case Over => s
  }

  ghost predicate Enabled(s: State, e: Event)
    requires Shaped(s)
  {
    match e
    case Connect =>
      !s.dead && s.phase.Connecting? && s.phase.next < |s.tasks| && s.tasks[s.phase.next] == NoTask
    case Handle(i, _) => i < |s.tasks| && s.tasks[i].InFlight?
    case Resend(i) => !s.dead && i < |s.tasks| && s.tasks[i] != NoTask
    case GiveUp(i) => !s.dead && i < |s.tasks| && s.tasks[i] != NoTask
    case Receive(i) => !s.dead && i < |s.tasks| && s.tasks[i].Answered?
    case Advance =>
      && !s.dead && (s.phase.Connecting? ==> s.phase.next == |s.tasks|) && s.phase != Over
      && forall i :: 0 <= i < |s.tasks| ==> s.tasks[i] == NoTask
    case Abort => !s.dead
    case TimerFires(i, stage) =>
      && i < |s.clients| && s.clients[i].active.Some?
      && stage in s.clients[i].active.value.info && s.clients[i].active.value.info[stage].timers > 0
    case StageEnds(i, stage, _) =>
      && i < |s.clients| && s.clients[i].active.Some? && stage in s.clients[i].active.value.info
      && s.clients[i].active.value.info[stage].fired > 0 && s.clients[i].active.value.info[stage].finished == 0
    case RunFails(i) => i < |s.clients| && s.clients[i].active.Some?
    case Crash(i) => i < |s.clients|
  }

  ghost function Apply(s: State, e: Event): State
    requires Shaped(s) && Enabled(s, e)
  {
    match e
    case Connect => SetTask(s.(links := s.links[s.phase.next := true]), s.phase.next, InFlight(RunBenchmark))
    case Handle(i, ok) =>
      var (c, reply) := Handled(s.clients[i], s.tasks[i].req, ok);
      SetTask(SetClient(s, i, c), i, Answered(s.tasks[i].req, reply))
    case Resend(i) => SetTask(s, i, InFlight(s.tasks[i].req))
    case GiveUp(i) => if s.phase == Downloading then s.(dead := true, links := s.links[i := false]) else Drop(s, i)
    case Receive(i) => Received(s, i)
    case Advance => NextPhase(s)
    case Abort => s.(dead := true)
    case TimerFires(i, stage) =>
      SetClient(s, i, s.clients[i].(active := Some(Fire(s.clients[i].active.value, stage))))
    case StageEnds(i, stage, err) =>
      SetClient(s, i, Client(Some(Finish(s.clients[i].active.value, stage, err)), s.clients[i].done + {stage}))
    case RunFails(i) =>
      SetClient(s, i, s.clients[i].(active := Some(s.clients[i].active.value.(failed := true))))
    case Crash(i) => SetClient(s, i, s.clients[i].(active := None))
  }

  /** A course of events from state s. */
  ghost predicate Trace(s: State, events: seq<Event>)
    requires Shaped(s)
    decreases |events|
  {
    |events| == 0 ||
    (Enabled(s, events[0]) && Shaped(Apply(s, events[0])) && Trace(Apply(s, events[0]), events[1..]))
  }

  ghost function After(s: State, events: seq<Event>): (t: State)
    requires Shaped(s) && Trace(s, events)
    ensures Shaped(t)
    decreases |events|
  {
    if |events| == 0 then s else After(Apply(s, events[0]), events[1..])
  }

  // ----- gates fire once ----------------------------------------------------------------------------

  /** A start gate is closed once for the one accepted request, now or later. */
  predicate OneShot(i: StageInfo) {
    i.timers + i.fired == (if i.startRequested then 1 else 0) && i.finished <= 1
  }

  predicate OneShots(b: Bench) {
    forall stage: Stage :: stage in b.info && OneShot(b.info[stage])
  }

  lemma OneShotsKept(b: Bench, stage: Stage)
    requires OneShots(b) && stage in b.info
    ensures OneShots(Accept(b, stage))
    ensures b.info[stage].timers > 0 ==> OneShots(Fire(b, stage))
    ensures b.info[stage].finished == 0 ==> OneShots(Finish(b, stage, true)) && OneShots(Finish(b, stage, false))
  {
  }

  predicate Gated(c: Client) {
    c.active.Some? ==> OneShots(c.active.value)
  }

  lemma HandledKeepsGates(c: Client, req: Request, ok: bool)
    requires Gated(c)
    ensures Gated(Handled(c, req, ok).0)
  {
    match req
    case RunBenchmark =>
      forall stage: Stage ensures stage in STAGES {
        assert stage == Prepare || stage == Benchmark || stage == Cleanup by {
          match stage
          case Prepare =>
          case Benchmark =>
          case Cleanup =>
        }
      }
    case StartStage(stage) =>
      if c.active.Some? {
        OneShotsKept(c.active.value, stage);
      }
    case StageStatus(_) =>
    case SendOps =>
  }

  // ----- the barrier -----------------------------------------------------------------------------------

  predicate Requested(c: Client, stage: Stage) {
    c.active.Some? && stage in c.active.value.info && c.active.value.info[stage].startRequested
  }

  predicate Ended(c: Client, stage: Stage) {
    c.active.Some? && stage in c.active.value.info && c.active.value.info[stage].finished > 0
  }

  predicate Carries(t: Task, req: Request) {
    t != NoTask && t.req == req
  }

  ghost predicate AllDone(s: State, stage: Stage) {
    forall j :: 0 <= j < |s.clients| ==> stage in s.clients[j].done
  }

  /** Before the server starts the benchmark stage. */
  predicate BeforeBenchmark(phase: Phase) {
    phase.Connecting? || phase == Starting(Prepare) || phase == Waiting(Prepare)
  }

  /** Before the server starts the cleanup stage. */
  predicate BeforeCleanup(phase: Phase) {
    BeforeBenchmark(phase) || phase == Starting(Benchmark) || phase == Waiting(Benchmark) || phase == Downloading
  }

  /** What is known of client i. */
  ghost predicate ClientInv(s: State, i: nat)
    requires Shaped(s) && i < |s.clients|
  {
    var c, t := s.clients[i], s.tasks[i];
    && (forall stage :: Ended(c, stage) ==> stage in c.done)
    && (forall stage :: t.Answered? && t.req == StageStatus(stage) && SaysFinished(t.reply) ==> stage in c.done)
    && (Carries(t, RunBenchmark) ==> s.phase.Connecting?)
    && (s.phase.Connecting? ==> !Requested(c, Prepare) && (t == NoTask || t.req == RunBenchmark))
    && (BeforeBenchmark(s.phase) ==> !Requested(c, Benchmark) && !Carries(t, StartStage(Benchmark)))
    && (BeforeCleanup(s.phase) ==> !Requested(c, Cleanup) && !Carries(t, StartStage(Cleanup)))
    && (s.phase.Waiting? && t != NoTask ==> t.req == StageStatus(s.phase.stage))
    && (s.phase.Starting? && t != NoTask ==> t.req == StartStage(s.phase.stage))
    && (s.phase.Connecting? && t != NoTask ==> i == s.phase.next)
    && (!s.dead && BeforeBenchmark(s.phase) && (s.phase.Connecting? ==> i < s.phase.next || t != NoTask) ==> s.links[i])
    && (!s.dead && s.phase == Waiting(Prepare) && t == NoTask ==> Prepare in c.done)
    && (s.phase == Waiting(Benchmark) && t == NoTask && s.links[i] ==> Benchmark in c.done)
    && (!BeforeCleanup(s.phase) || s.phase == Downloading ==>
          s.links[i] || Carries(t, StartStage(Cleanup)) || Requested(c, Cleanup) ==> Benchmark in c.done)
  }

  ghost predicate Inv(s: State) {
    && Shaped(s)
    && (forall i :: 0 <= i < |s.clients| ==> Gated(s.clients[i]) && ClientInv(s, i))
    && (!BeforeBenchmark(s.phase) ==> AllDone(s, Prepare))
  }

  lemma ConnectKeeps(s: State)
    requires Inv(s) && Enabled(s, Connect)
    ensures Inv(Apply(s, Connect))
  {
  }

  /** What handling a request can change about one stage of a client. */
  lemma HandledFacts(c: Client, req: Request, ok: bool, stage: Stage)
    ensures var (d, reply) := Handled(c, req, ok);
      && (d.done == c.done || req == RunBenchmark)
      && (Ended(d, stage) ==> Ended(c, stage) && d.done == c.done)
      && (Requested(d, stage) ==> Requested(c, stage) || req == StartStage(stage))
      && (req == StageStatus(stage) && SaysFinished(reply) ==> Ended(c, stage))
  {
  }

  lemma HandleKeeps(s: State, i: nat, ok: bool)
    requires Inv(s) && Enabled(s, Handle(i, ok))
    ensures Inv(Apply(s, Handle(i, ok)))
  {
    HandledKeepsGates(s.clients[i], s.tasks[i].req, ok);
    var t := Apply(s, Handle(i, ok));
    assert ClientInv(s, i);
    var (c, reply) := Handled(s.clients[i], s.tasks[i].req, ok);
    forall stage: Stage
      ensures Ended(c, stage) ==> Ended(s.clients[i], stage) && c.done == s.clients[i].done
      ensures Requested(c, stage) ==> Requested(s.clients[i], stage) || s.tasks[i].req == StartStage(stage)
      ensures s.tasks[i].req == StageStatus(stage) && SaysFinished(reply) ==> Ended(s.clients[i], stage)
    {
      HandledFacts(s.clients[i], s.tasks[i].req, ok, stage);
    }
    HandledFacts(s.clients[i], s.tasks[i].req, ok, Prepare);
    AnsweredInv(s, i, c, reply);
    forall j | 0 <= j < |t.clients| ensures ClientInv(t, j) {
      assert ClientInv(s, j);
    }
  }

  lemma AnsweredInv(s: State, i: nat, c: Client, reply: Reply)
    requires Shaped(s) && i < |s.clients| && ClientInv(s, i) && s.tasks[i].InFlight?
    requires c.done == s.clients[i].done || (s.tasks[i].req == RunBenchmark && forall stage: Stage :: !Ended(c, stage))
    requires forall stage: Stage :: Ended(c, stage) ==> Ended(s.clients[i], stage)
    requires forall stage: Stage :: Requested(c, stage) ==>
      Requested(s.clients[i], stage) || s.tasks[i].req == StartStage(stage)
    requires forall stage: Stage :: s.tasks[i].req == StageStatus(stage) && SaysFinished(reply) ==> Ended(s.clients[i], stage)
    ensures ClientInv(SetTask(SetClient(s, i, c), i, Answered(s.tasks[i].req, reply)), i)
  {
  }

  lemma ReceiveKeeps(s: State, i: nat)
    requires Inv(s) && Enabled(s, Receive(i))
    ensures Inv(Apply(s, Receive(i)))
  {
    var t := Apply(s, Receive(i));
    assert ClientInv(s, i);
    forall j | 0 <= j < |t.clients| ensures ClientInv(t, j) {
      assert ClientInv(s, j);
    }
  }

  lemma GiveUpKeeps(s: State, i: nat)
    requires Inv(s) && Enabled(s, GiveUp(i))
    ensures Inv(Apply(s, GiveUp(i)))
  {
    var t := Apply(s, GiveUp(i));
    forall j | 0 <= j < |t.clients| ensures ClientInv(t, j) {
      assert ClientInv(s, j);
    }
  }

  lemma ResendKeeps(s: State, i: nat)
    requires Inv(s) && Enabled(s, Resend(i))
    ensures Inv(Apply(s, Resend(i)))
  {
    var t := Apply(s, Resend(i));
    forall j | 0 <= j < |t.clients| ensures ClientInv(t, j) {
      assert ClientInv(s, j);
    }
  }

  lemma AdvanceKeeps(s: State)
    requires Inv(s) && Enabled(s, Advance)
    ensures Inv(Apply(s, Advance))
  {
    var t := Apply(s, Advance);
    forall j | 0 <= j < |t.clients| ensures ClientInv(t, j) {
      assert ClientInv(s, j);
    }
    if s.phase == Waiting(Prepare) {
      forall j | 0 <= j < |s.clients| ensures Prepare in s.clients[j].done {
        assert ClientInv(s, j);
      }
    }
  }

  lemma TimerKeeps(s: State, i: nat, stage: Stage)
    requires Inv(s) && Enabled(s, TimerFires(i, stage))
    ensures Inv(Apply(s, TimerFires(i, stage)))
  {
    var t := Apply(s, TimerFires(i, stage));
    OneShotsKept(s.clients[i].active.value, stage);
    forall j | 0 <= j < |t.clients| ensures ClientInv(t, j) {
      assert ClientInv(s, j);
    }
  }

  lemma StageEndKeeps(s: State, i: nat, stage: Stage, err: bool)
    requires Inv(s) && Enabled(s, StageEnds(i, stage, err))
    ensures Inv(Apply(s, StageEnds(i, stage, err)))
  {
    var t := Apply(s, StageEnds(i, stage, err));
    OneShotsKept(s.clients[i].active.value, stage);
    forall j | 0 <= j < |t.clients| ensures ClientInv(t, j) {
      assert ClientInv(s, j);
    }
  }

  lemma FailureKeeps(s: State, e: Event, i: nat)
    requires Inv(s) && Enabled(s, e) && (e == RunFails(i) || e == Crash(i))
    ensures Inv(Apply(s, e))
  {
    var t := Apply(s, e);
    forall j | 0 <= j < |t.clients| ensures ClientInv(t, j) {
      assert ClientInv(s, j);
    }
  }

  lemma AbortKeeps(s: State)
    requires Inv(s) && Enabled(s, Abort)
    ensures Inv(Apply(s, Abort))
  {
    var t := Apply(s, Abort);
    forall j | 0 <= j < |t.clients| ensures ClientInv(t, j) {
      assert ClientInv(s, j);
    }
  }

  lemma InvStep(s: State, e: Event)
    requires Inv(s) && Enabled(s, e)
    ensures Inv(Apply(s, e))
  {
    match e
    case Connect => ConnectKeeps(s);
    case Handle(i, ok) => HandleKeeps(s, i, ok);
    case Resend(i) => ResendKeeps(s, i);
    case GiveUp(i) => GiveUpKeeps(s, i);
    case Receive(i) => ReceiveKeeps(s, i);
    case Advance => AdvanceKeeps(s);
    case Abort => AbortKeeps(s);
    case TimerFires(i, stage) => TimerKeeps(s, i, stage);
    case StageEnds(i, stage, err) => StageEndKeeps(s, i, stage, err);
    case RunFails(i) => FailureKeeps(s, e, i);
    case Crash(i) => FailureKeeps(s, e, i);
  }

  lemma {:induction false} InvForever(s: State, events: seq<Event>)
    requires Inv(s) && Trace(s, events)
    ensures Inv(After(s, events))
    decreases |events|
  {
    if |events| > 0 {
      InvStep(s, events[0]);
      InvForever(Apply(s, events[0]), events[1..]);
    }
  }

  lemma InvAtStart(s: State)
    requires Init(s)
    ensures Inv(s)
  {
  }

  /** Whether the start gate of a stage has been closed on a client. */
  predicate Fired(c: Client, stage: Stage) {
    c.active.Some? && stage in c.active.value.info && c.active.value.info[stage].fired > 0
  }

  /** The stage barrier: in every run, however often requests are lost and resent
      and whatever clients fail, once the benchmark gate of any client has fired
      every client has signalled the end of its prepare stage. */
  lemma NoBenchmarkBeforeAllPrepared(s: State, events: seq<Event>, i: nat)
    requires Init(s) && Trace(s, events)
    requires i < |After(s, events).clients| && Fired(After(s, events).clients[i], Benchmark)
    ensures AllDone(After(s, events), Prepare)
  {
    InvAtStart(s);
    InvForever(s, events);
    var t := After(s, events);
    assert ClientInv(t, i) && Gated(t.clients[i]);
  }

  /** A client that has been told to clean up has ended its benchmark stage, and at
      that time so has every client the server is still connected to. */
  lemma NoCleanupBeforeBenchmarkEnded(s: State, events: seq<Event>, i: nat)
    requires Init(s) && Trace(s, events)
    requires i < |After(s, events).clients| && Fired(After(s, events).clients[i], Cleanup)
    ensures var t := After(s, events);
      && Benchmark in t.clients[i].done
      && forall j :: 0 <= j < |t.clients| && t.links[j] ==> Benchmark in t.clients[j].done
  {
    InvAtStart(s);
    InvForever(s, events);
    var t := After(s, events);
    assert ClientInv(t, i) && Gated(t.clients[i]);
    forall j | 0 <= j < |t.clients| && t.links[j] ensures Benchmark in t.clients[j].done {
      assert ClientInv(t, j);
    }
  }

  /** Each start gate of each benchmark is closed at most once. */
  lemma GatesFireOnce(s: State, events: seq<Event>, i: nat, stage: Stage)
    requires Init(s) && Trace(s, events) && i < |After(s, events).clients|
    ensures var c := After(s, events).clients[i];
      c.active.Some? ==> stage in c.active.value.info && c.active.value.info[stage].fired <= 1
                         && c.active.value.info[stage].finished <= 1
  {
    InvAtStart(s);
    InvForever(s, events);
    assert Gated(After(s, events).clients[i]);
  }
}
