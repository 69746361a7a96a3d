/** Runs of the stage protocol that get somewhere: requests take effect, failures
    are noticed, and a run without mishaps goes through all stages
    (cli/benchserver.go, cli/benchclient.go). */
module StageRuns {
  import opened Basics
  import opened StageProtocol

  // ----- one request -----------------------------------------------------------------

  /** A start request that reaches a client with a benchmark is accepted: the stage
      is requested, and its gate has been closed or will be, once. */
  lemma StartTakesEffect(s: State, i: nat, ok: bool, stage: Stage)
    requires Inv(s) && Enabled(s, Handle(i, ok)) && s.tasks[i].req == StartStage(stage) && s.clients[i].active.Some?
    ensures var (before, c) := (s.clients[i], Apply(s, Handle(i, ok)).clients[i]);
      && c.active.Some? && stage in c.active.value.info && stage in before.active.value.info
      && c.active.value.info[stage].startRequested
      && c.active.value.info[stage].timers + c.active.value.info[stage].fired == 1
      && (!before.active.value.info[stage].startRequested ==> c.active.value.info[stage].timers == 1)
      && Apply(s, Handle(i, ok)).tasks[i] == Answered(StartStage(stage), Success(false, false))
  {
    assert Gated(s.clients[i]);
    HasAllStages(s.clients[i].active.value, stage);
    OneShotsKept(s.clients[i].active.value, stage);
  }

  lemma HasAllStages(b: Bench, stage: Stage)
    requires OneShots(b)
    ensures stage in b.info
  {
    assert OneShot(b.info[stage]);
  }

  /** The server notices a failure in the prepare stage and ends the run. */
  lemma FailureInPrepareEndsRun(s: State, i: nat, ok: bool)
    requires Shaped(s) && !s.dead && s.phase == Waiting(Prepare) && i < |s.tasks| && s.tasks[i] == InFlight(StageStatus(Prepare))
    requires s.clients[i].active.None? || s.clients[i].active.value.failed
    ensures var t := Apply(s, Handle(i, ok));
      Enabled(t, Receive(i)) && Apply(t, Receive(i)).dead
  {
  }

  /** In later stages it leaves the client out and goes on. */
  lemma FailureLaterDropsClient(s: State, i: nat, ok: bool, stage: Stage)
    requires Shaped(s) && !s.dead && s.phase == Waiting(stage) && stage != Prepare
    requires i < |s.tasks| && s.tasks[i] == InFlight(StageStatus(stage))
    requires s.clients[i].active.None? || s.clients[i].active.value.failed
    ensures var t := Apply(s, Handle(i, ok));
      && Enabled(t, Receive(i))
      && Apply(t, Receive(i)) == t.(links := t.links[i := false], tasks := t.tasks[i := NoTask])
  {
  }

  /** A failure, reported or because the connection is lost, ends the run exactly
      before the benchmark has been started, or when a connection is lost while
      downloading. Otherwise the server leaves that client out, but for a failed
      download, and nothing else changes. */
  lemma FailureIsFatalIff(s: State, i: nat, e: Event)
    requires Shaped(s) && s.phase != Over && Enabled(s, e)
    requires e == GiveUp(i) || (e == Receive(i) && s.tasks[i].reply.Failure?)
    ensures var t := Apply(s, e);
      && (t.dead <==> s.phase.Connecting? || s.phase == Starting(Prepare) || s.phase == Waiting(Prepare)
                      || (e == GiveUp(i) && s.phase == Downloading))
      && (!t.dead ==> t == s.(tasks := s.tasks[i := NoTask],
                              links := if s.phase == Downloading then s.links else s.links[i := false]))
  {
  }

  // ----- reaching states ------------------------------------------------------------------

  ghost predicate Reaches(s: State, t: State) {
    Shaped(s) && exists events :: Trace(s, events) && After(s, events) == t
  }

  lemma {:induction false} TraceJoin(s: State, a: seq<Event>, b: seq<Event>)
    requires Shaped(s) && Trace(s, a) && Trace(After(s, a), b)
    ensures Trace(s, a + b) && After(s, a + b) == After(After(s, a), b)
    decreases |a|
  {
    if |a| == 0 {
      assert a + b == b;
    } else {
      assert (a + b)[1..] == a[1..] + b;
      TraceJoin(Apply(s, a[0]), a[1..], b);
    }
  }

  lemma ReachesJoin(s: State, t: State, u: State)
    requires Reaches(s, t) && Reaches(t, u)
    ensures Reaches(s, u)
  {
    var a :| Trace(s, a) && After(s, a) == t;
    var b :| Trace(t, b) && After(t, b) == u;
    TraceJoin(s, a, b);
  }

  lemma ReachesSelf(s: State)
    requires Shaped(s)
    ensures Reaches(s, s)
  {
    var none: seq<Event> := [];
    assert Trace(s, none) && After(s, none) == s;
  }

  lemma ReachesNext(s: State, e: Event, t: State)
    requires Shaped(s) && Enabled(s, e) && t == Apply(s, e) && Shaped(t)
    ensures Reaches(s, t)
  {
    var one := [e];
    assert one[1..] == [] && Trace(t, []) && After(t, []) == t;
    assert Trace(s, one) && After(s, one) == t;
  }

  lemma ReachesThen(s: State, t: State, e: Event, u: State)
    requires Reaches(s, t) && Shaped(t) && Enabled(t, e) && u == Apply(t, e) && Shaped(u)
    ensures Reaches(s, u)
  {
    ReachesNext(t, e, u);
    ReachesJoin(s, t, u);
  }

  // ----- one client's part in a phase --------------------------------------------------------

  /** s with client i in state c and nothing left to do for it. */
  function Settle(s: State, i: nat, c: Client): State
    requires i < |s.tasks| == |s.clients|
  {
    s.(tasks := s.tasks[i := NoTask], clients := s.clients[i := c])
  }

  /** A benchmark whose stages have been started and ended in turn. */
  function BenchAt(prepared: bool, benchmarked: bool, cleaned: bool): Bench {
    Bench(map[Prepare := StageAt(prepared), Benchmark := StageAt(benchmarked), Cleanup := StageAt(cleaned)], false)
  }

  function StageAt(over: bool): StageInfo {
    if over then StageInfo(true, 0, 1, 1) else NEW_STAGE
  }

  function ClientAt(prepared: bool, benchmarked: bool, cleaned: bool): Client {
    Client(Some(BenchAt(prepared, benchmarked, cleaned)),
           (if prepared then {Prepare} else {}) + (if benchmarked then {Benchmark} else {}) + (if cleaned then {Cleanup} else {}))
  }

  /** The client after a stage that has not been requested before is over. */
  function WithStage(c: Client, stage: Stage): Client
    requires c.active.Some?
  {
    Client(Some(c.active.value.(info := c.active.value.info[stage := StageInfo(true, 0, 1, 1)])), c.done + {stage})
  }

  lemma OneStage(b: Bench, stage: Stage)
    requires stage in b.info && b.info[stage] == NEW_STAGE
    ensures var a := Accept(b, stage);
      stage in a.info && a.info[stage].timers > 0 && stage in Fire(a, stage).info
      && Finish(Fire(a, stage), stage, false) == b.(info := b.info[stage := StageInfo(true, 0, 1, 1)])
  {
    assert Finish(Fire(Accept(b, stage), stage), stage, false).info == b.info[stage := StageInfo(true, 0, 1, 1)];
  }

  ghost predicate Busy(s: State, i: nat, phase: Phase, req: Request) {
    Shaped(s) && !s.dead && s.phase == phase && i < |s.tasks| && s.tasks[i] == InFlight(req)
  }

  /** The request is handled and its answer read. */
  lemma StartAnswered(s: State, i: nat, stage: Stage) returns (t: State)
    requires Busy(s, i, Starting(stage), StartStage(stage))
    requires s.clients[i].active.Some? && stage in s.clients[i].active.value.info
    ensures Reaches(s, t)
    ensures t == Settle(s, i, s.clients[i].(active := Some(Accept(s.clients[i].active.value, stage))))
  {
    var u := Apply(s, Handle(i, true));
    ReachesNext(s, Handle(i, true), u);
    t := Apply(u, Receive(i));
    ReachesThen(s, u, Receive(i), t);
  }

  lemma GateAndEnd(s: State, i: nat, stage: Stage, b: Bench)
    requires Shaped(s) && i < |s.clients| && s.clients[i].active == Some(b)
    requires stage in b.info && b.info[stage] == StageInfo(true, 1, 0, 0)
    ensures Reaches(s, s.(clients := s.clients[i := Client(Some(Finish(Fire(b, stage), stage, false)), s.clients[i].done + {stage})]))
  {
    var t := Apply(s, TimerFires(i, stage));
    ReachesNext(s, TimerFires(i, stage), t);
    var u := Apply(t, StageEnds(i, stage, false));
    ReachesThen(s, t, StageEnds(i, stage, false), u);
    assert u.clients == s.clients[i := u.clients[i]];
  }

  /** Starting: the request is handled and answered, the timer closes the gate, and
      the stage comes to its end. */
  lemma StartTurn(s: State, i: nat, stage: Stage)
    requires Busy(s, i, Starting(stage), StartStage(stage))
    requires s.clients[i].active.Some? && !s.clients[i].active.value.failed
    requires stage in s.clients[i].active.value.info && s.clients[i].active.value.info[stage] == NEW_STAGE
    ensures Reaches(s, Settle(s, i, WithStage(s.clients[i], stage)))
  {
    var b := s.clients[i].active.value;
    OneStage(b, stage);
    var t := StartAnswered(s, i, stage);
    GateAndEnd(t, i, stage, Accept(b, stage));
    var u := t.(clients := t.clients[i := WithStage(s.clients[i], stage)]);
    assert u == Settle(s, i, WithStage(s.clients[i], stage));
    ReachesJoin(s, t, u);
  }

  /** Waiting: the status request finds the stage ended. */
  lemma WaitTurn(s: State, i: nat, stage: Stage)
    requires Busy(s, i, Waiting(stage), StageStatus(stage))
    requires s.clients[i].active.Some? && !s.clients[i].active.value.failed
    requires stage in s.clients[i].active.value.info && s.clients[i].active.value.info[stage].finished > 0
    ensures Reaches(s, Settle(s, i, s.clients[i]))
  {
    var t := Apply(s, Handle(i, true));
    ReachesNext(s, Handle(i, true), t);
    var u := Apply(t, Receive(i));
    ReachesThen(s, t, Receive(i), u);
    assert u == Settle(s, i, s.clients[i]);
  }

  lemma DownloadTurn(s: State, i: nat)
    requires Busy(s, i, Downloading, SendOps) && s.clients[i].active.Some?
    ensures Reaches(s, Settle(s, i, s.clients[i]))
  {
    var t := Apply(s, Handle(i, true));
    ReachesNext(s, Handle(i, true), t);
    var u := Apply(t, Receive(i));
    ReachesThen(s, t, Receive(i), u);
    assert u == Settle(s, i, s.clients[i]);
  }

  /** What a client's turn in a phase makes of it. */
  function TurnOf(phase: Phase, c: Client): Client
    requires c.active.Some?
  {
    if phase.Starting? then WithStage(c, phase.stage) else c
  }

  function RequestOf(phase: Phase): Request {
    match phase
    case Connecting(_) => RunBenchmark
    case Starting(stage) => StartStage(stage)
    case Waiting(stage) => StageStatus(stage)
    case Downloading => SendOps
    case Over => SendOps
  }

  /** The client can take its turn in the phase. */
  predicate Ready(phase: Phase, c: Client) {
    && c.active.Some? && !c.active.value.failed
    && match phase
       case Starting(stage) => stage in c.active.value.info && c.active.value.info[stage] == NEW_STAGE
       case Waiting(stage) => stage in c.active.value.info && c.active.value.info[stage].finished > 0
       case Downloading => true
       case _ => false
  }

  lemma Turn(s: State, i: nat, phase: Phase)
    requires Busy(s, i, phase, RequestOf(phase)) && Ready(phase, s.clients[i])
    ensures Reaches(s, Settle(s, i, TurnOf(phase, s.clients[i])))
  {
    match phase
    case Starting(stage) => StartTurn(s, i, stage);
    case Waiting(stage) => WaitTurn(s, i, stage);
    case Downloading => DownloadTurn(s, i);
  }

  // ----- all clients' part in a phase ------------------------------------------------------------

  /** In this phase all n clients are connected; the first k have had their turn. */
  ghost predicate Halfway(s: State, n: nat, phase: Phase, k: nat, before: Client, after: Client) {
    && |s.links| == |s.tasks| == |s.clients| == n && s.phase == phase && !s.dead && k <= n
    && (forall i :: 0 <= i < n ==> s.links[i])
    && (forall i :: 0 <= i < k ==> s.tasks[i] == NoTask && s.clients[i] == after)
    && (forall i :: k <= i < n ==> s.tasks[i] == InFlight(RequestOf(phase)) && s.clients[i] == before)
  }

  lemma {:induction false} Round(s: State, n: nat, phase: Phase, k: nat, before: Client) returns (t: State)
    requires Ready(phase, before) && Halfway(s, n, phase, k, before, TurnOf(phase, before))
    ensures Reaches(s, t) && Halfway(t, n, phase, n, before, TurnOf(phase, before))
    decreases n - k
  {
    if k == n {
      t := s;
      ReachesSelf(s);
    } else {
      Turn(s, k, phase);
      var u := Settle(s, k, TurnOf(phase, before));
      t := Round(u, n, phase, k + 1, before);
      ReachesJoin(s, u, t);
    }
  }

  /** One phase and the step to the next. */
  lemma PhaseDone(s: State, n: nat, phase: Phase, before: Client) returns (t: State)
    requires Ready(phase, before) && Halfway(s, n, phase, 0, before, TurnOf(phase, before))
    ensures Shaped(t) && Reaches(s, t) && Enabled(t, Advance)
    ensures Halfway(t, n, phase, n, before, TurnOf(phase, before))
  {
    t := Round(s, n, phase, 0, before);
  }

  /** The order of the phases, but for the first and the last. */
  predicate Follows(phase: Phase, next: Phase) {
    || (phase == Starting(Prepare) && next == Waiting(Prepare))
    || (phase == Waiting(Prepare) && next == Starting(Benchmark))
    || (phase == Starting(Benchmark) && next == Waiting(Benchmark))
    || (phase == Waiting(Benchmark) && next == Downloading)
    || (phase == Downloading && next == Starting(Cleanup))
    || (phase == Starting(Cleanup) && next == Waiting(Cleanup))
  }

  lemma NextIs(t: State, n: nat, phase: Phase, next: Phase, c: Client, before: Client, after: Client) returns (u: State)
    requires Halfway(t, n, phase, n, before, c) && Enabled(t, Advance)
    requires Follows(phase, next)
    ensures Reaches(t, u) && Halfway(u, n, next, 0, c, after)
  {
    u := Apply(t, Advance);
    ReachesNext(t, Advance, u);
  }

  lemma Onward(s: State, n: nat, phase: Phase, next: Phase, before: Client, after: Client) returns (u: State)
    requires Ready(phase, before) && Halfway(s, n, phase, 0, before, TurnOf(phase, before))
    requires Follows(phase, next)
    ensures Reaches(s, u) && Halfway(u, n, next, 0, TurnOf(phase, before), after)
  {
    var t := PhaseDone(s, n, phase, before);
    u := NextIs(t, n, phase, next, TurnOf(phase, before), before, after);
    ReachesJoin(s, t, u);
  }

  // ----- connecting -------------------------------------------------------------------------------

  /** The first k clients are connected and have a fresh benchmark. */
  ghost predicate Connected(s: State, n: nat, k: nat) {
    && |s.links| == |s.tasks| == |s.clients| == n && s.phase == Connecting(k) && !s.dead && k <= n
    && (forall i :: 0 <= i < n ==> s.tasks[i] == NoTask)
    && (forall i :: 0 <= i < k ==> s.links[i] && s.clients[i] == Client(Some(NEW_BENCH), {}))
  }

  lemma ConnectOne(s: State, n: nat, k: nat) returns (t: State)
    requires k < n && Connected(s, n, k)
    ensures Reaches(s, t) && Connected(t, n, k + 1)
  {
    var u := Apply(s, Connect);
    ReachesNext(s, Connect, u);
    var v := Apply(u, Handle(k, true));
    ReachesThen(s, u, Handle(k, true), v);
    t := Apply(v, Receive(k));
    ReachesThen(s, v, Receive(k), t);
  }

  lemma {:induction false} ConnectAll(s: State, n: nat, k: nat) returns (t: State)
    requires Connected(s, n, k)
    ensures Reaches(s, t) && Connected(t, n, n)
    decreases n - k
  {
    if k == n {
      t := s;
      ReachesSelf(s);
    } else {
      var u := ConnectOne(s, n, k);
      t := ConnectAll(u, n, k + 1);
      ReachesJoin(s, u, t);
    }
  }

  lemma NewBenchIs()
    ensures Client(Some(NEW_BENCH), {}) == ClientAt(false, false, false)
  {
    assert NEW_BENCH.info == BenchAt(false, false, false).info;
  }

  lemma PrepareBegins(s: State) returns (t: State)
    requires Init(s)
    ensures Reaches(s, t) && Halfway(t, |s.clients|, Starting(Prepare), 0, ClientAt(false, false, false), ClientAt(true, false, false))
  {
    var n := |s.clients|;
    var u := ConnectAll(s, n, 0);
    NewBenchIs();
    t := Apply(u, Advance);
    ReachesThen(s, u, Advance, t);
  }

  // ----- the whole run ------------------------------------------------------------------------------

  lemma StagesAdd()
    ensures WithStage(ClientAt(false, false, false), Prepare) == ClientAt(true, false, false)
    ensures WithStage(ClientAt(true, false, false), Benchmark) == ClientAt(true, true, false)
    ensures WithStage(ClientAt(true, true, false), Cleanup) == ClientAt(true, true, true)
  {
    assert BenchAt(false, false, false).info[Prepare := StageAt(true)] == BenchAt(true, false, false).info;
    assert BenchAt(true, false, false).info[Benchmark := StageAt(true)] == BenchAt(true, true, false).info;
    assert BenchAt(true, true, false).info[Cleanup := StageAt(true)] == BenchAt(true, true, true).info;
  }

  lemma ThroughBenchmark(s: State) returns (t: State)
    requires Init(s)
    ensures Reaches(s, t) && Halfway(t, |s.clients|, Downloading, 0, ClientAt(true, true, false), ClientAt(true, true, false))
  {
    var n := |s.clients|;
    StagesAdd();
    var a := PrepareBegins(s);
    var b := Onward(a, n, Starting(Prepare), Waiting(Prepare), ClientAt(false, false, false), ClientAt(true, false, false));
    ReachesJoin(s, a, b);
    var c := Onward(b, n, Waiting(Prepare), Starting(Benchmark), ClientAt(true, false, false), ClientAt(true, true, false));
    ReachesJoin(s, b, c);
    var d := Onward(c, n, Starting(Benchmark), Waiting(Benchmark), ClientAt(true, false, false), ClientAt(true, true, false));
    ReachesJoin(s, c, d);
    t := Onward(d, n, Waiting(Benchmark), Downloading, ClientAt(true, true, false), ClientAt(true, true, false));
    ReachesJoin(s, d, t);
  }

  lemma ThroughCleanup(s: State, n: nat) returns (t: State)
    requires Halfway(s, n, Downloading, 0, ClientAt(true, true, false), ClientAt(true, true, false))
    ensures Reaches(s, t) && t.phase == Over && !t.dead && |t.links| == |t.clients| == n
    ensures forall i :: 0 <= i < n ==> t.links[i] && t.clients[i] == ClientAt(true, true, true)
  {
    StagesAdd();
    var a := Onward(s, n, Downloading, Starting(Cleanup), ClientAt(true, true, false), ClientAt(true, true, true));
    var b := Onward(a, n, Starting(Cleanup), Waiting(Cleanup), ClientAt(true, true, false), ClientAt(true, true, true));
    ReachesJoin(s, a, b);
    var c := PhaseDone(b, n, Waiting(Cleanup), ClientAt(true, true, true));
    ReachesJoin(s, b, c);
    t := Apply(c, Advance);
    ReachesThen(s, c, Advance, t);
  }

  /** From every initial state some run comes to its end, with every client connected
      and each of its stages requested, started and ended once. */
  lemma RunCanComplete(s: State) returns (events: seq<Event>)
    requires Init(s)
    ensures Trace(s, events)
    ensures var t := After(s, events);
      && t.phase == Over && !t.dead && |t.links| == |t.clients| == |s.clients|
      && forall i, stage: Stage :: 0 <= i < |t.clients| ==>
           && t.links[i] && t.clients[i].active.Some? && stage in t.clients[i].active.value.info
           && t.clients[i].active.value.info[stage] == StageInfo(true, 0, 1, 1) && stage in t.clients[i].done
  {
    var t := ThroughBenchmark(s);
    var u := ThroughCleanup(t, |s.clients|);
    ReachesJoin(s, t, u);
    events :| Trace(s, events) && After(s, events) == u;
    forall stage: Stage
      ensures stage in BenchAt(true, true, true).info && BenchAt(true, true, true).info[stage] == StageInfo(true, 0, 1, 1)
      ensures stage in ClientAt(true, true, true).done
    {
      match stage
      case Prepare =>
      case Benchmark =>
      case Cleanup =>
    }
  }
}
