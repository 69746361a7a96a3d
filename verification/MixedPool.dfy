/** Workers running a mixed benchmark (`Mixed.Start` in pkg/bench/mixed.go) as a
    transition system over the steps they take under the pool's lock. */
module MixedPool {
  import opened Basics
  import opened Arithmetic
  import opened Schedule

  /** Where a worker is between two locked steps. */
  datatype Worker =
    | Idle
    | Stopped
    | Fetched(op: string)
    | Reading(key: string, obj: Object)
    | Uploading(obj: Object)
    | Deleting(obj: Object)

  datatype State = State(
    objects: map<string, Object>,
    fetched: nat,
    workers: seq<Worker>,
    panicked: bool)

  // ----- steps --------------------------------------------------------------------------

  /** What a worker does next; arbitrary choices are part of the step. */
  datatype Action =
    | Stop
    | Fetch
    | Take(key: string)
    | RunOut
    | Return
    | BeginUpload(obj: Object)
    | Uploaded
    | UploadFailed
    | Deleted
    | Ignore

  datatype Event = Event(worker: nat, action: Action)

  predicate TakesObject(op: string) {
    op == GET || op == STAT || op == DELETE
  }

  predicate Enabled(s: State, e: Event) {
    !s.panicked && e.worker < |s.workers| &&
    var w := s.workers[e.worker];
    match e.action
    case Stop => w == Idle
    case Fetch => w == Idle
    case Take(key) => w.Fetched? && TakesObject(w.op) && key in s.objects
    case RunOut => w.Fetched? && TakesObject(w.op) && s.objects == map[]
    case Return => w.Reading?
    case BeginUpload(_) => w == Fetched(PUT)
    case Uploaded => w.Uploading?
    case UploadFailed => w.Uploading?
    case Deleted => w.Deleting?
    case Ignore => w.Fetched? && !TakesObject(w.op) && w.op != PUT
  }

  function Move(s: State, e: Event, worker: Worker): State
    requires e.worker < |s.workers|
  {
    s.(workers := s.workers[e.worker := worker])
  }

  function Apply(cycle: seq<string>, s: State, e: Event): State
    requires |cycle| > 0 && Enabled(s, e)
  {
    var w := s.workers[e.worker];
    match e.action
    case Stop => Move(s, e, Stopped)
    case Fetch => Move(s, e, Fetched(cycle[s.fetched % |cycle|])).(fetched := s.fetched + 1)
    case Take(key) =>
      var obj := s.objects[key];
      Move(s, e, if w.op == DELETE then Deleting(obj) else Reading(key, obj)).(objects := s.objects - {key})
    case RunOut => s.(panicked := true)
    case Return => Move(s, e, Idle).(objects := s.objects[w.key := w.obj])
    case BeginUpload(obj) => Move(s, e, Uploading(obj))
    case Uploaded => Move(s, e, Idle).(objects := s.objects[w.obj.name := w.obj])
    case UploadFailed => Move(s, e, Idle)
    case Deleted => Move(s, e, Idle)
    case Ignore => Move(s, e, Idle)
  }

  ghost predicate Init(s: State) {
    && !s.panicked && s.fetched == 0
    && (forall w :: 0 <= w < |s.workers| ==> s.workers[w] == Idle)
    && forall k :: k in s.objects ==> s.objects[k].name == k
  }

  /** The name a worker has taken out of the pool, if any. */
  function Held(w: Worker): Option<string> {
    match w
    case Reading(key, _) => Some(key)
    case Deleting(obj) => Some(obj.name)
    case _ => None
  }

  /** No object of that name is pooled or in a worker's hands. */
  ghost predicate Fresh(s: State, name: string) {
    name !in s.objects && forall w :: 0 <= w < |s.workers| ==> Held(s.workers[w]) != Some(name)
  }

  /** Uploads bring fresh names. */
  ghost predicate BringsFreshName(s: State, e: Event)
    requires Enabled(s, e)
  {
    e.action.Uploaded? ==> Fresh(s, s.workers[e.worker].obj.name)
  }

  /** A possible course of events in which uploads bring fresh names. */
  ghost predicate Trace(cycle: seq<string>, s: State, events: seq<Event>)
    requires |cycle| > 0
    decreases |events|
  {
    |events| == 0 ||
    (Enabled(s, events[0]) && BringsFreshName(s, events[0]) && Trace(cycle, Apply(cycle, s, events[0]), events[1..]))
  }

  ghost function After(cycle: seq<string>, s: State, events: seq<Event>): State
    requires |cycle| > 0 && Trace(cycle, s, events)
    decreases |events|
  {
    if |events| == 0 then s else After(cycle, Apply(cycle, s, events[0]), events[1..])
  }

  ghost predicate NoUploadFails(events: seq<Event>) {
    forall e :: e in events ==> !e.action.UploadFailed?
  }

  // ----- the invariant ------------------------------------------------------------------------

  /** What a worker has fetched or taken and not yet settled with the pool. */
  function Owed(w: Worker): int {
    match w
    case Fetched(op) => -Delta(op)
    case Reading(_, _) => 1
    case Uploading(_) => 1
    case _ => 0
  }

  function TotalOwed(workers: seq<Worker>): int {
    if |workers| == 0 then 0 else TotalOwed(workers[..|workers| - 1]) + Owed(workers[|workers| - 1])
  }

  lemma {:induction false} OwedUpdate(workers: seq<Worker>, w: nat, worker: Worker)
    requires w < |workers|
    ensures TotalOwed(workers[w := worker]) == TotalOwed(workers) - Owed(workers[w]) + Owed(worker)
  {
    var n := |workers| - 1;
    if w == n {
      assert workers[w := worker][..n] == workers[..n];
    } else {
      OwedUpdate(workers[..n], w, worker);
      assert workers[w := worker][..n] == workers[..n][w := worker];
    }
  }

  /** No name is in two hands, or in one and in the pool. */
  ghost predicate Exclusive(s: State) {
    && (forall k :: k in s.objects ==> s.objects[k].name == k)
    && (forall w :: 0 <= w < |s.workers| && s.workers[w].Reading? ==> s.workers[w].obj.name == s.workers[w].key)
    && (forall w :: 0 <= w < |s.workers| && Held(s.workers[w]).Some? ==> Held(s.workers[w]).value !in s.objects)
    && (forall v, w :: 0 <= v < w < |s.workers| && Held(s.workers[v]).Some? ==> Held(s.workers[v]) != Held(s.workers[w]))
  }

  /** The pool and what is owed to it account for every object put in and deleted. */
  ghost predicate Balanced(cycle: seq<string>, initial: nat, s: State)
    requires |cycle| > 0
  {
    |s.objects| + TotalOwed(s.workers) == initial - Excess(cycle, s.fetched)
  }

  lemma ExclusiveStep(cycle: seq<string>, s: State, e: Event)
    requires |cycle| > 0 && Exclusive(s) && Enabled(s, e) && BringsFreshName(s, e)
    ensures Exclusive(Apply(cycle, s, e))
  {
  }

  lemma RemoveOne(m: map<string, Object>, key: string)
    requires key in m
    ensures |m - {key}| == |m| - 1
  {
    assert (m - {key}).Keys == m.Keys - {key};
    assert |m| == |m.Keys| && |m - {key}| == |(m - {key}).Keys|;
  }

  lemma AddOne(m: map<string, Object>, key: string, obj: Object)
    requires key !in m
    ensures |m[key := obj]| == |m| + 1
  {
    assert m[key := obj] - {key} == m;
    RemoveOne(m[key := obj], key);
  }

  /** How the pool's size changes in one step. */
  lemma SizeStep(cycle: seq<string>, s: State, e: Event)
    requires |cycle| > 0 && Exclusive(s) && Enabled(s, e) && BringsFreshName(s, e)
    ensures |Apply(cycle, s, e).objects| ==
      |s.objects| + (if e.action.Take? then -1 else if e.action.Return? || e.action.Uploaded? then 1 else 0)
  {
    var w := s.workers[e.worker];
    match e.action
    case Take(key) => RemoveOne(s.objects, key);
    case Return =>
      assert Held(w) == Some(w.key);
      AddOne(s.objects, w.key, w.obj);
    case Uploaded => AddOne(s.objects, w.obj.name, w.obj);
    case _ =>
  }

  /** How what is owed changes in one step. */
  lemma OwedStep(cycle: seq<string>, s: State, e: Event)
    requires |cycle| > 0 && Enabled(s, e) && !e.action.UploadFailed?
    ensures TotalOwed(Apply(cycle, s, e).workers) ==
      TotalOwed(s.workers) + (if e.action.Take? then 1 else if e.action.Return? || e.action.Uploaded? then -1
                              else if e.action.Fetch? then -Delta(cycle[s.fetched % |cycle|]) else 0)
  {
    var t := Apply(cycle, s, e);
    OwedUpdate(s.workers, e.worker, t.workers[e.worker]);
    assert s.workers[e.worker := s.workers[e.worker]] == s.workers;
  }

  lemma BalancedStep(cycle: seq<string>, initial: nat, s: State, e: Event)
    requires |cycle| > 0 && Exclusive(s) && Balanced(cycle, initial, s)
    requires Enabled(s, e) && BringsFreshName(s, e) && !e.action.UploadFailed?
    ensures Balanced(cycle, initial, Apply(cycle, s, e))
  {
    SizeStep(cycle, s, e);
    OwedStep(cycle, s, e);
    assert Apply(cycle, s, e).fetched == s.fetched + if e.action.Fetch? then 1 else 0;
  }

  lemma {:induction false} NothingOwed(workers: seq<Worker>)
    requires forall w :: 0 <= w < |workers| ==> workers[w] == Idle
    ensures TotalOwed(workers) == 0
  {
    if |workers| > 0 {
      NothingOwed(workers[..|workers| - 1]);
    }
  }

  /** In every course of events, failing uploads included, no object is in two
      hands, nor in one and in the pool. */
  lemma {:induction false} ObjectsAreExclusive(cycle: seq<string>, s: State, events: seq<Event>)
    requires |cycle| > 0 && Exclusive(s) && Trace(cycle, s, events)
    ensures Exclusive(After(cycle, s, events))
    decreases |events|
  {
    if |events| > 0 {
      ExclusiveStep(cycle, s, events[0]);
      ObjectsAreExclusive(cycle, Apply(cycle, s, events[0]), events[1..]);
    }
  }

  function FailedUploads(events: seq<Event>): nat {
    if |events| == 0 then 0 else FailedUploads(events[1..]) + if events[0].action.UploadFailed? then 1 else 0
  }

  /** The pool, what is owed to it, and what the schedule has taken from it. */
  ghost function Account(cycle: seq<string>, s: State): int
    requires |cycle| > 0
  {
    |s.objects| + TotalOwed(s.workers) + Excess(cycle, s.fetched)
  }

  /** No step changes the account, except that a failed upload takes one. */
  lemma AccountStep(cycle: seq<string>, s: State, e: Event)
    requires |cycle| > 0 && Exclusive(s) && Enabled(s, e) && BringsFreshName(s, e)
    ensures Account(cycle, Apply(cycle, s, e)) == Account(cycle, s) - if e.action.UploadFailed? then 1 else 0
  {
    if e.action.UploadFailed? {
      OwedUpdate(s.workers, e.worker, Idle);
    } else {
      SizeStep(cycle, s, e);
      OwedStep(cycle, s, e);
      assert Apply(cycle, s, e).fetched == s.fetched + if e.action.Fetch? then 1 else 0;
    }
  }

  /** In every course of events each failed upload costs the pool one object for good. */
  lemma {:induction false} FailedUploadsAreLost(cycle: seq<string>, s: State, events: seq<Event>)
    requires |cycle| > 0 && Exclusive(s) && Trace(cycle, s, events)
    ensures Account(cycle, After(cycle, s, events)) == Account(cycle, s) - FailedUploads(events)
    decreases |events|
  {
    if |events| > 0 {
      ExclusiveStep(cycle, s, events[0]);
      AccountStep(cycle, s, events[0]);
      FailedUploadsAreLost(cycle, Apply(cycle, s, events[0]), events[1..]);
    }
  }

  /** How many steps an operation has left at most. */
  function StepsLeft(w: Worker): nat {
    match w
    case Fetched(_) => 2
    case Reading(_, _) => 1
    case Uploading(_) => 1
    case Deleting(_) => 1
    case _ => 0
  }

  /** Every step of an operation brings its worker closer to the next one, whatever
      fails, and leaves the others alone. */
  lemma OperationsEnd(cycle: seq<string>, s: State, e: Event)
    requires |cycle| > 0 && Enabled(s, e)
    ensures var t := Apply(cycle, s, e);
      && |t.workers| == |s.workers|
      && (forall v :: 0 <= v < |s.workers| && v != e.worker ==> t.workers[v] == s.workers[v])
      && (!e.action.Stop? && !e.action.Fetch? && !t.panicked ==>
          t.workers[e.worker] != Stopped && StepsLeft(t.workers[e.worker]) < StepsLeft(s.workers[e.worker]))
  {
  }

  /** A worker that has not stopped is never stuck: while no panic ended the run it
      has a step to take. */
  lemma NeverStuck(s: State, w: nat) returns (e: Event)
    requires !s.panicked && w < |s.workers| && s.workers[w] != Stopped
    ensures e.worker == w && Enabled(s, e) && !e.action.UploadFailed?
    ensures e.action.RunOut? <==> s.workers[w].Fetched? && TakesObject(s.workers[w].op) && s.objects == map[]
  {
    match s.workers[w]
    case Idle => e := Event(w, Fetch);
    case Reading(_, _) => e := Event(w, Return);
    case Uploading(_) => e := Event(w, Uploaded);
    case Deleting(_) => e := Event(w, Deleted);
    case Fetched(op) =>
      if !TakesObject(op) {
        e := Event(w, if op == PUT then BeginUpload(Object("", "", "", 0)) else Ignore);
      } else if s.objects == map[] {
        e := Event(w, RunOut);
      } else {
        var key :| key in s.objects;
        e := Event(w, Take(key));
      }
  }

  // ----- when a run can reach the panic --------------------------------------------------

  /** Some run with fresh, successful uploads leads from s to t. */
  ghost predicate Reaches(cycle: seq<string>, s: State, t: State)
    requires |cycle| > 0
  {
    exists events :: Trace(cycle, s, events) && NoUploadFails(events) && After(cycle, s, events) == t
  }

  ghost predicate CanPanic(cycle: seq<string>, s: State)
    requires |cycle| > 0
  {
    exists t :: Reaches(cycle, s, t) && t.panicked
  }

  lemma {:induction false} TraceJoin(cycle: seq<string>, s: State, a: seq<Event>, b: seq<Event>)
    requires |cycle| > 0 && Trace(cycle, s, a) && Trace(cycle, After(cycle, s, a), b)
    ensures Trace(cycle, s, a + b) && After(cycle, s, a + b) == After(cycle, After(cycle, s, a), b)
    decreases |a|
  {
    if |a| == 0 {
      assert a + b == b;
    } else {
      assert (a + b)[1..] == a[1..] + b;
      TraceJoin(cycle, Apply(cycle, s, a[0]), a[1..], b);
    }
  }

  lemma ReachesJoin(cycle: seq<string>, s: State, t: State, u: State)
    requires |cycle| > 0 && Reaches(cycle, s, t) && Reaches(cycle, t, u)
    ensures Reaches(cycle, s, u)
  {
    var a :| Trace(cycle, s, a) && NoUploadFails(a) && After(cycle, s, a) == t;
    var b :| Trace(cycle, t, b) && NoUploadFails(b) && After(cycle, t, b) == u;
    TraceJoin(cycle, s, a, b);
    assert NoUploadFails(a + b);
  }

  lemma ReachesSelf(cycle: seq<string>, s: State)
    requires |cycle| > 0
    ensures Reaches(cycle, s, s)
  {
    var none: seq<Event> := [];
    assert Trace(cycle, s, none) && NoUploadFails(none) && After(cycle, s, none) == s;
  }

  lemma ReachesNext(cycle: seq<string>, s: State, e: Event)
    requires |cycle| > 0 && Enabled(s, e) && BringsFreshName(s, e) && !e.action.UploadFailed?
    ensures Reaches(cycle, s, Apply(cycle, s, e))
  {
    var one := [e];
    var t := Apply(cycle, s, e);
    assert one[1..] == [] && Trace(cycle, t, []) && After(cycle, t, []) == t;
    assert Trace(cycle, s, one) && NoUploadFails(one) && After(cycle, s, one) == t;
  }

  /** The operations that can keep a worker busy while the pool misses an object. */
  predicate Occupies(op: string) {
    op == GET || op == STAT || op == PUT
  }

  /** How many of the first n fetched operations do so. */
  function Occupying(cycle: seq<string>, n: nat): nat
    requires |cycle| > 0
  {
    if n == 0 then 0 else Occupying(cycle, n - 1) + if Occupies(Next(cycle, n - 1)) then 1 else 0
  }

  function Next(cycle: seq<string>, n: nat): string
    requires |cycle| > 0
  {
    cycle[n % |cycle|]
  }

  /** After n operations, all but one of the workers being kept busy as far as possible
      and the others having finished, the next operation finds the pool empty. */
  ghost predicate DryAt(cycle: seq<string>, workers: nat, pool: int, n: nat)
    requires |cycle| > 0
  {
    TakesObject(Next(cycle, n)) && Excess(cycle, n) + Min(workers - 1, Occupying(cycle, n)) >= pool
  }

  // ----- no other run panics

  function Busy(w: Worker): nat {
    if w.Reading? || w.Uploading? || (w.Fetched? && Occupies(w.op)) then 1 else 0
  }

  function TotalBusy(workers: seq<Worker>): (n: nat)
    ensures n <= |workers|
  {
    if |workers| == 0 then 0 else TotalBusy(workers[..|workers| - 1]) + Busy(workers[|workers| - 1])
  }

  lemma {:induction false} BusyUpdate(workers: seq<Worker>, w: nat, worker: Worker)
    requires w < |workers|
    ensures TotalBusy(workers[w := worker]) == TotalBusy(workers) - Busy(workers[w]) + Busy(worker)
  {
    var n := |workers| - 1;
    if w == n {
      assert workers[w := worker][..n] == workers[..n];
    } else {
      BusyUpdate(workers[..n], w, worker);
      assert workers[w := worker][..n] == workers[..n][w := worker];
    }
  }

  lemma {:induction false} NoneBusy(workers: seq<Worker>)
    requires forall w :: 0 <= w < |workers| ==> workers[w] == Idle
    ensures TotalBusy(workers) == 0
  {
    if |workers| > 0 {
      NoneBusy(workers[..|workers| - 1]);
    }
  }

  /** Someone who is not busy leaves at most the others busy. */
  lemma {:induction false} BusyBound(workers: seq<Worker>, w: nat)
    requires w < |workers| && Busy(workers[w]) == 0
    ensures TotalBusy(workers) <= |workers| - 1
  {
    var n := |workers| - 1;
    if w < n {
      BusyBound(workers[..n], w);
    }
  }

  /** What is owed is owed by the busy, and a worker about to take an object owes none. */
  lemma {:induction false} OwedByBusy(workers: seq<Worker>, w: nat)
    requires w < |workers| && workers[w].Fetched? && TakesObject(workers[w].op)
    ensures TotalOwed(workers) <= TotalBusy(workers) - 1
  {
    var n := |workers| - 1;
    if w == n {
      OwedAtMostBusy(workers[..n]);
    } else {
      OwedByBusy(workers[..n], w);
    }
  }

  lemma {:induction false} OwedAtMostBusy(workers: seq<Worker>)
    ensures TotalOwed(workers) <= TotalBusy(workers)
  {
    if |workers| > 0 {
      OwedAtMostBusy(workers[..|workers| - 1]);
    }
  }

  /** Of the first n operations the last that is known is a deletion, if any is. */
  predicate EndsFree(cycle: seq<string>, n: nat)
    requires |cycle| > 0
  {
    n == 0 || Next(cycle, n - 1) == DELETE || (!Occupies(Next(cycle, n - 1)) && EndsFree(cycle, n - 1))
  }

  /** How many workers can be busy. */
  ghost predicate BusyWithin(cycle: seq<string>, n: nat, workers: int, busy: int)
    requires |cycle| > 0
  {
    busy <= workers && busy <= Occupying(cycle, n) && (EndsFree(cycle, n) ==> busy <= workers - 1)
  }

  ghost predicate SomeTakes(cycle: seq<string>, n: nat)
    requires |cycle| > 0
  {
    exists m :: 0 <= m < n && TakesObject(Next(cycle, m))
  }

  ghost predicate TakersHaveFetched(cycle: seq<string>, s: State)
    requires |cycle| > 0
  {
    forall w :: 0 <= w < |s.workers| && s.workers[w].Fetched? && TakesObject(s.workers[w].op) ==>
      SomeTakes(cycle, s.fetched)
  }

  /** The state of a run that has not panicked. */
  ghost predicate Accounted(cycle: seq<string>, initial: nat, s: State)
    requires |cycle| > 0
  {
    && !s.panicked && Exclusive(s) && Balanced(cycle, initial, s)
    && BusyWithin(cycle, s.fetched, |s.workers|, TotalBusy(s.workers))
    && TakersHaveFetched(cycle, s)
  }

  lemma BusyStep(cycle: seq<string>, s: State, e: Event)
    requires |cycle| > 0 && Enabled(s, e)
    requires BusyWithin(cycle, s.fetched, |s.workers|, TotalBusy(s.workers))
    ensures var t := Apply(cycle, s, e); BusyWithin(cycle, t.fetched, |t.workers|, TotalBusy(t.workers))
  {
    var t := Apply(cycle, s, e);
    BusyUpdate(s.workers, e.worker, t.workers[e.worker]);
    assert s.workers[e.worker := s.workers[e.worker]] == s.workers;
    if e.action.Fetch? && !Occupies(Next(cycle, s.fetched)) {
      BusyBound(t.workers, e.worker);
    }
  }

  lemma TakesStep(cycle: seq<string>, s: State, e: Event, w: nat)
    requires |cycle| > 0 && Enabled(s, e) && w < |s.workers|
    requires TakersHaveFetched(cycle, s)
    ensures var t := Apply(cycle, s, e);
      t.workers[w].Fetched? && TakesObject(t.workers[w].op) ==> SomeTakes(cycle, t.fetched)
  {
    var t := Apply(cycle, s, e);
    if t.workers[w].Fetched? && TakesObject(t.workers[w].op) {
      if e.action.Fetch? && e.worker == w {
        assert TakesObject(Next(cycle, s.fetched));
      } else {
        assert t.workers[w] == s.workers[w];
        var m :| 0 <= m < s.fetched && TakesObject(Next(cycle, m));
      }
    }
  }

  lemma AccountedStep(cycle: seq<string>, initial: nat, s: State, e: Event)
    requires |cycle| > 0 && Accounted(cycle, initial, s)
    requires Enabled(s, e) && BringsFreshName(s, e) && !e.action.UploadFailed? && !e.action.RunOut?
    ensures Accounted(cycle, initial, Apply(cycle, s, e))
  {
    ExclusiveStep(cycle, s, e);
    BalancedStep(cycle, initial, s, e);
    BusyStep(cycle, s, e);
    forall w | 0 <= w < |s.workers|
      ensures var t := Apply(cycle, s, e);
        t.workers[w].Fetched? && TakesObject(t.workers[w].op) ==> SomeTakes(cycle, t.fetched)
    {
      TakesStep(cycle, s, e, w);
    }
  }

  /** Going back over what was fetched to the operation that is the first to find the
      pool empty. */
  lemma {:induction false} SomewhereDry(cycle: seq<string>, workers: nat, pool: int, n: nat, busy: int) returns (m: nat)
    requires |cycle| > 0 && BusyWithin(cycle, n, workers, busy) && SomeTakes(cycle, n)
    requires Excess(cycle, n) + busy >= pool + 1
    ensures DryAt(cycle, workers, pool, m)
  {
    var op := Next(cycle, n - 1);
    if TakesObject(op) {
      m := n - 1;
    } else {
      var k :| 0 <= k < n && TakesObject(Next(cycle, k));
      assert k < n - 1;
      m := SomewhereDry(cycle, workers, pool, n - 1, if op == PUT then busy - 1 else busy);
    }
  }

  lemma PanicIsDry(cycle: seq<string>, initial: nat, s: State, e: Event) returns (m: nat)
    requires |cycle| > 0 && Accounted(cycle, initial, s) && Enabled(s, e) && e.action.RunOut?
    ensures DryAt(cycle, |s.workers|, initial, m)
  {
    OwedByBusy(s.workers, e.worker);
    m := SomewhereDry(cycle, |s.workers|, initial, s.fetched, TotalBusy(s.workers));
  }

  lemma {:induction false} PanicsOnlyDry(cycle: seq<string>, initial: nat, s: State, events: seq<Event>) returns (m: nat)
    requires |cycle| > 0 && Accounted(cycle, initial, s)
    requires Trace(cycle, s, events) && NoUploadFails(events) && After(cycle, s, events).panicked
    ensures DryAt(cycle, |s.workers|, initial, m)
    decreases |events|
  {
    var e := events[0];
    assert e in events && forall f :: f in events[1..] ==> f in events;
    if e.action.RunOut? {
      m := PanicIsDry(cycle, initial, s, e);
    } else {
      AccountedStep(cycle, initial, s, e);
      m := PanicsOnlyDry(cycle, initial, Apply(cycle, s, e), events[1..]);
    }
  }

  // ----- and such a run exists

  lemma {:induction false} LongerThanAll(names: set<string>) returns (n: nat)
    ensures forall x :: x in names ==> |x| < n
    decreases |names|
  {
    if names == {} {
      n := 0;
    } else {
      var x := Pick(names);
      n := LongerThanAll(names - {x});
      n := Max(n, |x| + 1);
    }
  }

  lemma FreshName(s: State) returns (name: string)
    ensures Fresh(s, name)
  {
    var held := set w | 0 <= w < |s.workers| && Held(s.workers[w]).Some? :: Held(s.workers[w]).value;
    var n := LongerThanAll(s.objects.Keys + held);
    name := seq(n, i => 'x');
    assert |name| == n;
    assert name !in s.objects.Keys + held;
  }

  /** What is true of a state on the way, and its next one after e. */
  ghost predicate OnTheWay(cycle: seq<string>, initial: nat, s: State)
    requires |cycle| > 0
  {
    !s.panicked && Exclusive(s) && Balanced(cycle, initial, s)
  }

  lemma Act(cycle: seq<string>, initial: nat, s: State, e: Event) returns (t: State)
    requires |cycle| > 0 && OnTheWay(cycle, initial, s) && Enabled(s, e) && BringsFreshName(s, e)
    requires !e.action.UploadFailed? && !e.action.RunOut?
    ensures t == Apply(cycle, s, e) && Reaches(cycle, s, t) && OnTheWay(cycle, initial, t)
  {
    t := Apply(cycle, s, e);
    ReachesNext(cycle, s, e);
    ExclusiveStep(cycle, s, e);
    BalancedStep(cycle, initial, s, e);
  }

  lemma ActTwice(cycle: seq<string>, initial: nat, s: State, t: State, e: Event) returns (u: State)
    requires |cycle| > 0 && Reaches(cycle, s, t) && OnTheWay(cycle, initial, t) && Enabled(t, e) && BringsFreshName(t, e)
    requires !e.action.UploadFailed? && !e.action.RunOut?
    ensures u == Apply(cycle, t, e) && Reaches(cycle, s, u) && OnTheWay(cycle, initial, u)
  {
    u := Act(cycle, initial, t, e);
    ReachesJoin(cycle, s, t, u);
  }

  lemma PanicNow(cycle: seq<string>, s: State, t: State, w: nat)
    requires |cycle| > 0 && Reaches(cycle, s, t) && Enabled(t, Event(w, RunOut))
    ensures CanPanic(cycle, s)
  {
    var e := Event(w, RunOut);
    ReachesNext(cycle, t, e);
    ReachesJoin(cycle, s, t, Apply(cycle, t, e));
  }

  /** Worker v has carried out the next operation, to the end or, if it stays, up to
      where it owes the pool an object. */
  ghost predicate Carried(cycle: seq<string>, initial: nat, s: State, t: State, v: nat, stays: bool)
    requires |cycle| > 0 && v < |s.workers|
  {
    && Reaches(cycle, s, t) && OnTheWay(cycle, initial, t) && t.fetched == s.fetched + 1
    && |t.workers| == |s.workers| && t.workers == s.workers[v := t.workers[v]]
    && (if stays then t.workers[v].Reading? || t.workers[v].Uploading? else t.workers[v] == Idle)
  }

  /** An operation that takes an object: the pool may be empty. */
  lemma CarryTake(cycle: seq<string>, initial: nat, s: State, v: nat, stays: bool) returns (t: State)
    requires |cycle| > 0 && OnTheWay(cycle, initial, s) && v < |s.workers| && s.workers[v] == Idle
    requires TakesObject(Next(cycle, s.fetched)) && (stays ==> Next(cycle, s.fetched) != DELETE)
    ensures CanPanic(cycle, s) || Carried(cycle, initial, s, t, v, stays)
  {
    t := Act(cycle, initial, s, Event(v, Fetch));
    if t.objects == map[] {
      PanicNow(cycle, s, t, v);
    } else {
      t := Took(cycle, initial, s, t, v);
      t := Settled(cycle, initial, s, t, v, stays);
    }
  }

  /** Worker v is at the given point of the operation after those s has fetched. */
  ghost predicate Doing(cycle: seq<string>, initial: nat, s: State, t: State, v: nat, worker: Worker)
    requires |cycle| > 0
  {
    && v < |s.workers| && Reaches(cycle, s, t) && OnTheWay(cycle, initial, t)
    && t.fetched == s.fetched + 1 && t.workers == s.workers[v := worker]
  }

  lemma Took(cycle: seq<string>, initial: nat, s: State, t: State, v: nat) returns (u: State)
    requires |cycle| > 0 && Doing(cycle, initial, s, t, v, Fetched(Next(cycle, s.fetched)))
    requires TakesObject(Next(cycle, s.fetched)) && t.objects != map[]
    ensures v < |u.workers| && Doing(cycle, initial, s, u, v, u.workers[v])
    ensures if Next(cycle, s.fetched) == DELETE then u.workers[v].Deleting? else u.workers[v].Reading?
  {
    assert t.objects.Keys != {};
    var e := Event(v, Take(Pick(t.objects.Keys)));
    assert Enabled(t, e);
    u := ActTwice(cycle, initial, s, t, e);
  }

  lemma Settled(cycle: seq<string>, initial: nat, s: State, t: State, v: nat, stays: bool) returns (u: State)
    requires |cycle| > 0 && v < |t.workers| && Doing(cycle, initial, s, t, v, t.workers[v])
    requires t.workers[v].Reading? || (t.workers[v].Deleting? && !stays)
    ensures Carried(cycle, initial, s, u, v, stays)
  {
    if stays {
      u := t;
    } else {
      u := ActTwice(cycle, initial, s, t, Event(v, if t.workers[v].Deleting? then Deleted else Return));
    }
  }

  lemma CarryPut(cycle: seq<string>, initial: nat, s: State, v: nat, stays: bool) returns (t: State)
    requires |cycle| > 0 && OnTheWay(cycle, initial, s) && v < |s.workers| && s.workers[v] == Idle
    requires Next(cycle, s.fetched) == PUT
    ensures Carried(cycle, initial, s, t, v, stays)
  {
    var name := FreshName(s);
    var obj := Object(name, "", "", 0);
    t := Act(cycle, initial, s, Event(v, Fetch));
    t := ActTwice(cycle, initial, s, t, Event(v, BeginUpload(obj)));
    if !stays {
      t := Uploads(cycle, initial, s, t, v, obj);
    }
  }

  lemma Uploads(cycle: seq<string>, initial: nat, s: State, t: State, v: nat, obj: Object) returns (u: State)
    requires |cycle| > 0 && Doing(cycle, initial, s, t, v, Uploading(obj))
    requires t.objects == s.objects && Fresh(s, obj.name)
    ensures Carried(cycle, initial, s, u, v, false)
  {
    assert Fresh(t, obj.name);
    u := ActTwice(cycle, initial, s, t, Event(v, Uploaded));
  }

  lemma CarryUnknown(cycle: seq<string>, initial: nat, s: State, v: nat) returns (t: State)
    requires |cycle| > 0 && OnTheWay(cycle, initial, s) && v < |s.workers| && s.workers[v] == Idle
    requires !TakesObject(Next(cycle, s.fetched)) && Next(cycle, s.fetched) != PUT
    ensures Carried(cycle, initial, s, t, v, false)
  {
    t := Act(cycle, initial, s, Event(v, Fetch));
    t := ActTwice(cycle, initial, s, t, Event(v, Ignore));
  }

  /** The workers 1 to `stuck` owe an object each, all others are idle. */
  ghost predicate Stuck(workers: seq<Worker>, stuck: nat) {
    && stuck < |workers| && workers[0] == Idle
    && (forall w :: 1 <= w <= stuck ==> workers[w].Reading? || workers[w].Uploading?)
    && (forall w :: stuck < w < |workers| ==> workers[w] == Idle)
  }

  lemma {:induction false} OwedWhenStuck(workers: seq<Worker>, stuck: nat)
    requires Stuck(workers, stuck)
    ensures TotalOwed(workers) == stuck
  {
    var n := |workers| - 1;
    if n > 0 {
      OwedWhenStuck(workers[..n], if stuck == n then stuck - 1 else stuck);
    } else {
      assert TotalOwed(workers[..0]) == 0;
    }
  }

  /** As many workers as possible owe an object after the operations fetched so far. */
  ghost predicate Staged(cycle: seq<string>, initial: nat, workers: nat, n: nat, s: State)
    requires |cycle| > 0
  {
    && OnTheWay(cycle, initial, s) && |s.workers| == workers > 0 && s.fetched == n
    && Stuck(s.workers, Min(workers - 1, Occupying(cycle, n)))
  }

  lemma StageStep(cycle: seq<string>, initial: nat, workers: nat, n: nat, s: State) returns (t: State)
    requires |cycle| > 0 && Staged(cycle, initial, workers, n, s)
    ensures CanPanic(cycle, s) || (Reaches(cycle, s, t) && Staged(cycle, initial, workers, n + 1, t))
  {
    var op, stuck := Next(cycle, n), Min(workers - 1, Occupying(cycle, n));
    var stays := Occupies(op) && stuck < workers - 1;
    var v := if stays then stuck + 1 else 0;
    t := CarryNext(cycle, initial, s, v, stays);
    if !CanPanic(cycle, s) {
      StuckNext(s.workers, t.workers, stuck, stays);
      OccupyingNext(cycle, n, workers - 1);
    }
  }

  lemma OccupyingNext(cycle: seq<string>, n: nat, most: int)
    requires |cycle| > 0 && most >= 0
    ensures Min(most, Occupying(cycle, n + 1)) ==
      Min(most, Occupying(cycle, n)) + if Occupies(Next(cycle, n)) && Occupying(cycle, n) < most then 1 else 0
  {
  }

  lemma StuckNext(workers: seq<Worker>, next: seq<Worker>, stuck: nat, stays: bool)
    requires Stuck(workers, stuck) && (stays ==> stuck + 1 < |workers|)
    requires |next| == |workers|
    requires var v := if stays then stuck + 1 else 0;
      && next == workers[v := next[v]]
      && if stays then next[v].Reading? || next[v].Uploading? else next[v] == Idle
    ensures Stuck(next, if stays then stuck + 1 else stuck)
  {
  }

  lemma CarryNext(cycle: seq<string>, initial: nat, s: State, v: nat, stays: bool) returns (t: State)
    requires |cycle| > 0 && OnTheWay(cycle, initial, s) && v < |s.workers| && s.workers[v] == Idle
    requires stays ==> Occupies(Next(cycle, s.fetched))
    ensures CanPanic(cycle, s) || Carried(cycle, initial, s, t, v, stays)
  {
    var op := Next(cycle, s.fetched);
    if TakesObject(op) {
      t := CarryTake(cycle, initial, s, v, stays);
    } else if op == PUT {
      t := CarryPut(cycle, initial, s, v, stays);
    } else {
      t := CarryUnknown(cycle, initial, s, v);
    }
  }

  lemma {:induction false} StageReached(cycle: seq<string>, s: State, n: nat, initial: nat, workers: nat) returns (t: State)
    requires |cycle| > 0 && Init(s) && |s.workers| == workers > 0 && |s.objects| == initial
    ensures CanPanic(cycle, s) || (Reaches(cycle, s, t) && Staged(cycle, initial, workers, n, t))
    decreases n
  {
    if n == 0 {
      t := s;
      StageAtStart(cycle, s);
    } else {
      var u := StageReached(cycle, s, n - 1, initial, workers);
      t := u;
      if !CanPanic(cycle, s) {
        t := StageStep(cycle, initial, workers, n - 1, u);
        StageJoin(cycle, s, u, t);
      }
    }
  }

  lemma StageAtStart(cycle: seq<string>, s: State)
    requires |cycle| > 0 && Init(s) && |s.workers| > 0
    ensures Reaches(cycle, s, s) && Staged(cycle, |s.objects|, |s.workers|, 0, s)
  {
    ReachesSelf(cycle, s);
    NothingOwed(s.workers);
  }

  lemma StageJoin(cycle: seq<string>, s: State, u: State, t: State)
    requires |cycle| > 0 && Reaches(cycle, s, u)
    ensures CanPanic(cycle, u) ==> CanPanic(cycle, s)
    ensures Reaches(cycle, u, t) ==> Reaches(cycle, s, t)
  {
    if CanPanic(cycle, u) {
      var x :| Reaches(cycle, u, x) && x.panicked;
      ReachesJoin(cycle, s, u, x);
    }
    if Reaches(cycle, u, t) {
      ReachesJoin(cycle, s, u, t);
    }
  }

  lemma DryPanics(cycle: seq<string>, s: State, n: nat)
    requires |cycle| > 0 && Init(s) && |s.workers| > 0 && DryAt(cycle, |s.workers|, |s.objects|, n)
    ensures CanPanic(cycle, s)
  {
    var t := StageReached(cycle, s, n, |s.objects|, |s.workers|);
    if !CanPanic(cycle, s) {
      OwedWhenStuck(t.workers, Min(|s.workers| - 1, Occupying(cycle, n)));
      assert t.objects == map[];
      var u := ActTwice(cycle, |s.objects|, s, t, Event(0, Fetch));
      PanicNow(cycle, s, u, 0);
    }
  }

  /** Exactly when some interleaving, uploads succeeding under fresh names, reaches the
      panic: at some point of the schedule deletions lead by so much, and so many
      earlier operations can be under way, that together they make up the pool. */
  lemma RunsDryIff(cycle: seq<string>, s: State)
    requires |cycle| > 0 && Init(s) && |s.workers| > 0
    ensures CanPanic(cycle, s) <==> exists n :: DryAt(cycle, |s.workers|, |s.objects|, n)
  {
    if CanPanic(cycle, s) {
      var t :| Reaches(cycle, s, t) && t.panicked;
      var events :| Trace(cycle, s, events) && NoUploadFails(events) && After(cycle, s, events) == t;
      NothingOwed(s.workers);
      NoneBusy(s.workers);
      var n := PanicsOnlyDry(cycle, |s.objects|, s, events);
    }
    if n :| DryAt(cycle, |s.workers|, |s.objects|, n) {
      DryPanics(cycle, s, n);
    }
  }

  // ----- checking it ---------------------------------------------------------------------

  lemma {:induction false} OccupyingRepeats(cycle: seq<string>, n: nat)
    requires |cycle| > 0
    ensures Occupying(cycle, n + |cycle|) == Occupying(cycle, n) + Occupying(cycle, |cycle|)
  {
    if n > 0 {
      OccupyingRepeats(cycle, n - 1);
      AddOneCycle(n - 1, |cycle|);
    }
  }

  lemma {:induction false} OccupyingGrows(cycle: seq<string>, k: nat)
    requires |cycle| > 0 && Occupying(cycle, |cycle|) > 0
    ensures Occupying(cycle, k * |cycle|) >= k
  {
    if k > 0 {
      OccupyingGrows(cycle, k - 1);
      OccupyingRepeats(cycle, (k - 1) * |cycle|);
      assert (k - 1) * |cycle| + |cycle| == k * |cycle|;
    }
  }

  lemma {:induction false} OccupyingMonotone(cycle: seq<string>, m: nat, n: nat)
    requires |cycle| > 0 && m <= n
    ensures Occupying(cycle, m) <= Occupying(cycle, n)
  {
    if m < n {
      OccupyingMonotone(cycle, m, n - 1);
    }
  }

  lemma OccupiedBy(cycle: seq<string>, i: nat)
    requires i < |cycle| && Occupies(cycle[i])
    ensures Occupying(cycle, |cycle|) > 0
  {
    ModUnique(i, |cycle|, 0, i);
    OccupyingMonotone(cycle, i + 1, |cycle|);
  }

  lemma AsOften(cycle: seq<string>, a: string, b: string, i: nat) returns (j: nat)
    requires multiset(cycle)[a] <= multiset(cycle)[b] && i < |cycle| && cycle[i] == a
    ensures j < |cycle| && cycle[j] == b
  {
    assert cycle[i] in multiset(cycle);
    assert b in multiset(cycle);
    j :| 0 <= j < |cycle| && cycle[j] == b;
  }

  /** A cycle that takes objects also puts or reads some. */
  lemma SomethingOccupies(cycle: seq<string>, n: nat)
    requires |cycle| > 0 && multiset(cycle)[DELETE] <= multiset(cycle)[PUT] && TakesObject(Next(cycle, n))
    ensures Occupying(cycle, |cycle|) > 0
  {
    var i := n % |cycle|;
    if cycle[i] == DELETE {
      var j := AsOften(cycle, DELETE, PUT, i);
      OccupiedBy(cycle, j);
    } else {
      OccupiedBy(cycle, i);
    }
  }

  /** One cycle earlier deletions lead by no less. */
  lemma ExcessEarlier(cycle: seq<string>, n: nat)
    requires |cycle| > 0 && multiset(cycle)[DELETE] <= multiset(cycle)[PUT]
    ensures Excess(cycle, n + |cycle|) <= Excess(cycle, n)
  {
    ExcessRepeats(cycle, n);
    ExcessOfPrefix(cycle, |cycle|);
    assert cycle[..|cycle|] == cycle;
  }

  /** After one cycle per worker but one, all but one can be busy. */
  lemma OccupyingAll(cycle: seq<string>, k: nat, m: nat)
    requires |cycle| > 0 && Occupying(cycle, |cycle|) > 0 && k * |cycle| <= m
    ensures Occupying(cycle, m) >= k
  {
    OccupyingGrows(cycle, k);
    OccupyingMonotone(cycle, k * |cycle|, m);
  }

  lemma DryEarlier(cycle: seq<string>, workers: nat, pool: int, m: nat)
    requires |cycle| > 0 && multiset(cycle)[DELETE] <= multiset(cycle)[PUT] && workers > 0
    requires DryAt(cycle, workers, pool, m + |cycle|) && (workers - 1) * |cycle| <= m
    ensures DryAt(cycle, workers, pool, m)
  {
    SomethingOccupies(cycle, m + |cycle|);
    OccupyingAll(cycle, workers - 1, m);
    ExcessEarlier(cycle, m);
    AddOneCycle(m, |cycle|);
  }

  /** For the schedules that Generate accepts one cycle per worker decides. */
  lemma {:induction false} DryWithinOneCyclePerWorker(cycle: seq<string>, workers: nat, pool: int, n: nat) returns (m: nat)
    requires |cycle| > 0 && multiset(cycle)[DELETE] <= multiset(cycle)[PUT]
    requires workers > 0 && DryAt(cycle, workers, pool, n)
    ensures m < workers * |cycle| && DryAt(cycle, workers, pool, m)
    decreases n
  {
    if n < workers * |cycle| {
      m := n;
    } else {
      DistributeRight(workers - 1, 1, |cycle|);
      MulMonotone(|cycle|, 0, workers - 1);
      var earlier: nat := n - |cycle|;
      DryEarlier(cycle, workers, pool, earlier);
      m := DryWithinOneCyclePerWorker(cycle, workers, pool, earlier);
    }
  }

  /** The pool never runs dry: on a schedule generated from weights that put at
      least as much as they delete, with an initial pool of the number of workers
      plus the lead deletions take within one cycle, no interleaving of any number
      of steps reaches the panic, as long as uploads succeed under fresh names. */
  lemma PoolNeverRunsDry(cycle: seq<string>, d: Weights, s: State, events: seq<Event>)
    requires NonNegative(d) && SumWeights(d) > 0.0 && IsCycleOf(cycle, d, SumWeights(d)) && |cycle| > 0
    requires Weight(d, DELETE) <= Weight(d, PUT)
    requires Init(s) && |s.objects| >= MaxExcess(cycle, |cycle|) + |s.workers|
    requires Trace(cycle, s, events) && NoUploadFails(events)
    ensures !After(cycle, s, events).panicked
  {
    CyclePutsCoverDeletes(cycle, d);
    NothingOwed(s.workers);
    NoneBusy(s.workers);
    if After(cycle, s, events).panicked {
      var n := PanicsOnlyDry(cycle, |s.objects|, s, events);
      OneCycleBoundsAll(cycle, n);
    }
  }

  // ----- a schedule of the program on which preparation's check is not enough ---------------

  const HALF_AND_HALF: Weights := map[DELETE := 1.0, PUT := 1.0]

  function DeletesFirst(): seq<string> {
    seq(500, i => DELETE) + seq(500, i => PUT)
  }

  lemma {:induction false} CountRepeated(op: string, n: nat, k: string)
    ensures multiset(seq(n, i => op))[k] == if k == op then n else 0
  {
    if n > 0 {
      CountRepeated(op, n - 1, k);
      assert seq(n, i => op) == seq(n - 1, i => op) + [op];
    }
  }

  lemma HalfAndHalf()
    ensures NonNegative(HALF_AND_HALF) && SumWeights(HALF_AND_HALF) == 2.0
    ensures SumRounded(HALF_AND_HALF, 2.0) == 1000 && Rounded(1.0, 2.0) == 500
  {
    var d := HALF_AND_HALF;
    SumWeightsRemove(d, DELETE);
    SumWeightsRemove(d - {DELETE}, PUT);
    SumRoundedRemove(d, 2.0, DELETE);
    SumRoundedRemove(d - {DELETE}, 2.0, PUT);
    assert d - {DELETE} - {PUT} == map[];
  }

  lemma DeletesFirstIsGenerated()
    ensures SumWeights(HALF_AND_HALF) > 0.0
    ensures IsCycleOf(DeletesFirst(), HALF_AND_HALF, SumWeights(HALF_AND_HALF))
  {
    HalfAndHalf();
    var deletes, puts := seq(500, i => DELETE), seq(500, i => PUT);
    forall k ensures multiset(DeletesFirst())[k] == if k in HALF_AND_HALF then 500 else 0 {
      CountRepeated(DELETE, 500, k);
      CountRepeated(PUT, 500, k);
      assert multiset(deletes + puts)[k] == multiset(deletes)[k] + multiset(puts)[k];
    }
  }

  lemma {:induction false} ExcessOfDeletes(n: nat)
    requires n < 500
    ensures Excess(DeletesFirst(), n) == n && Next(DeletesFirst(), n) == DELETE
  {
    ModUnique(n, 1000, 0, n);
    if n > 0 {
      ExcessOfDeletes(n - 1);
    }
  }

  /** More objects than workers, all that preparation asks for, is not enough: on a
      cycle generated from equal weights of deletions and uploads, any pool of up to
      499 objects can run out, whatever the number of workers. */
  lemma PreparationCheckIsNotEnough(s: State)
    requires Init(s) && 0 < |s.workers| < |s.objects| < 500
    ensures Weight(HALF_AND_HALF, DELETE) <= Weight(HALF_AND_HALF, PUT)
    ensures SumWeights(HALF_AND_HALF) > 0.0
    ensures IsCycleOf(DeletesFirst(), HALF_AND_HALF, SumWeights(HALF_AND_HALF))
    ensures CanPanic(DeletesFirst(), s)
  {
    DeletesFirstIsGenerated();
    ExcessOfDeletes(499);
    assert DryAt(DeletesFirst(), |s.workers|, |s.objects|, 499);
    RunsDryIff(DeletesFirst(), s);
  }

  // ----- the locked methods are steps ---------------------------------------------------------

  /** The shared object is in the state the transition system says. */
  ghost predicate Represents(m: MixedDistribution, cycle: seq<string>, s: State)
    reads m
  {
    |cycle| > 0 && m.ops == cycle && m.objects == s.objects && m.current == s.fetched % |cycle|
  }

  ghost predicate WorkerIs(s: State, w: nat, worker: Worker) {
    !s.panicked && w < |s.workers| && s.workers[w] == worker
  }

  /** `getOp` is the step Fetch. */
  method FetchStep(m: MixedDistribution, w: nat, ghost cycle: seq<string>, ghost s: State) returns (op: string)
    requires Represents(m, cycle, s) && WorkerIs(s, w, Idle)
    modifies m
    ensures Enabled(s, Event(w, Fetch)) && Represents(m, cycle, Apply(cycle, s, Event(w, Fetch)))
    ensures Apply(cycle, s, Event(w, Fetch)).workers[w] == Fetched(op)
  {
    NextPosition(s.fetched, |cycle|);
    op := m.GetOp();
  }

  /** `randomObj` and `deleteRandomObj` are the step Take of the chosen object, or RunOut. */
  method TakeStep(m: MixedDistribution, w: nat, op: string, ghost cycle: seq<string>, ghost s: State)
    returns (obj: Option<Object>, ghost e: Event)
    requires Represents(m, cycle, s) && WorkerIs(s, w, Fetched(op)) && TakesObject(op)
    modifies m
    ensures Enabled(s, e) && Represents(m, cycle, Apply(cycle, s, e))
    ensures e.worker == w && if obj.None? then e.action == RunOut else e.action.Take? && s.objects[e.action.key] == obj.value
    ensures obj.Some? && op == DELETE ==> Apply(cycle, s, e).workers[w] == Deleting(obj.value)
    ensures obj.Some? && op != DELETE ==> Apply(cycle, s, e).workers[w] == Reading(e.action.key, obj.value)
  {
    ghost var key;
    obj, key := m.RandomObj();
    e := Event(w, if obj.None? then RunOut else Take(key));
  }

  /** The function that `randomObj` returns is the step Return. */
  method ReturnStep(m: MixedDistribution, w: nat, key: string, obj: Object, ghost cycle: seq<string>, ghost s: State)
    requires Represents(m, cycle, s) && WorkerIs(s, w, Reading(key, obj))
    modifies m
    ensures Enabled(s, Event(w, Action.Return)) && Represents(m, cycle, Apply(cycle, s, Event(w, Action.Return)))
    ensures Apply(cycle, s, Event(w, Action.Return)).workers[w] == Idle
  {
    m.Return(key, obj);
  }

  /** `addObj` is the step Uploaded. */
  method AddStep(m: MixedDistribution, w: nat, obj: Object, ghost cycle: seq<string>, ghost s: State)
    requires Represents(m, cycle, s) && WorkerIs(s, w, Uploading(obj))
    modifies m
    ensures Enabled(s, Event(w, Uploaded)) && Represents(m, cycle, Apply(cycle, s, Event(w, Uploaded)))
    ensures Apply(cycle, s, Event(w, Uploaded)).workers[w] == Idle
  {
    m.AddObj(obj);
  }

  /** The other steps leave the shared object alone. */
  lemma OtherSteps(m: MixedDistribution, cycle: seq<string>, s: State, e: Event)
    requires Represents(m, cycle, s) && Enabled(s, e)
    requires !e.action.Fetch? && !e.action.Take? && !e.action.Return? && !e.action.Uploaded?
    ensures Represents(m, cycle, Apply(cycle, s, e))
  {
  }
}
