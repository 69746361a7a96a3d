/** The pool of object versions of a versioned benchmark and the workers that use
    it (`VersionedDistribution` and `Versioned.Start` in pkg/bench/versioned.go). */
module VersionedPool {
  import opened Basics
  import opened Schedule

  /** Name -> the versions of that name that are not checked out. */
  type Pool = map<string, seq<Object>>

  function Versions(m: Pool, key: string): seq<Object> {
    if key in m then m[key] else []
  }

  function RemoveAt(s: seq<Object>, n: nat): seq<Object>
    requires n < |s|
  {
    s[..n] + s[n + 1..]
  }

  ghost predicate IsEmpty(m: Pool) {
    forall k :: k in m ==> m[k] == []
  }

  // ----- the locked steps -------------------------------------------------------------

  class VersionedDistribution {
    var ops: seq<string>
    var objects: Pool
    var current: nat

    constructor ()
      ensures ops == [] && objects == map[] && current == 0
    {
      ops, objects, current := [], map[], 0;
    }

    /** The next operation of the cycle. */
    method GetOp() returns (op: string)
      requires current < |ops|
      modifies this`current
      ensures op == ops[old(current)]
      ensures current == (old(current) + 1) % |ops| && current < |ops|
    {
      op := ops[current];
      current := (current + 1) % |ops|;
    }

    /** Takes an arbitrary version of an arbitrary name out of the pool; None stands
        for the panic when there is none. */
    method TakeRandom() returns (obj: Option<Object>, key: string, ghost n: nat)
      modifies this`objects
      ensures obj.None? <==> IsEmpty(old(objects))
      ensures obj.None? ==> objects == old(objects)
      ensures obj.Some? ==>
        && key in old(objects) && n < |old(objects)[key]|
        && obj.value == old(objects)[key][n]
        && objects == old(objects)[key := RemoveAt(old(objects)[key], n)]
    {
      var todo := objects.Keys;
      while todo != {}
        invariant todo <= objects.Keys && objects == old(objects)
        invariant forall k :: k in objects && k !in todo ==> objects[k] == []
        decreases todo
      {
        var k :| k in todo;
        todo := todo - {k};
        var versions := objects[k];
        if |versions| > 0 {
          var i: nat :| i < |versions|;
          objects := objects[k := versions[..i] + versions[i + 1..]];
          return Some(versions[i]), k, i;
        }
      }
      return None, "", 0;
    }

    /** Puts a version back, or adds a new one, under a name. */
    method Put(key: string, obj: Object)
      modifies this`objects
      ensures objects == old(objects)[key := Versions(old(objects), key) + [obj]]
    {
      var versions := if key in objects then objects[key] else [];
      objects := objects[key := versions + [obj]];
    }

    /** Makes o the next version of some pooled object's name; that object stays
        checked out until the new version is stored. */
    method NewVersion(o: Object) returns (obj: Option<Object>, held: Option<Object>, key: string, ghost n: nat)
      modifies this`objects
      ensures held.None? <==> IsEmpty(old(objects))
      ensures obj.None? <==> held.None?
      ensures held.None? ==> objects == old(objects)
      ensures held.Some? ==>
        && key in old(objects) && n < |old(objects)[key]|
        && held.value == old(objects)[key][n]
        && objects == old(objects)[key := RemoveAt(old(objects)[key], n)]
        && obj.value == o.(name := held.value.name, prefix := held.value.prefix, versionID := "")
    {
      held, key, n := TakeRandom();
      match held
      case None => obj := None;
      case Some(r) => obj := Some(o.(name := r.name, prefix := r.prefix, versionID := ""));
    }
  }

  // ----- workers ------------------------------------------------------------------------

  datatype Worker =
    | Idle
    | Stopped
    | Fetched(op: string)
    | Reading(key: string, held: Object)
    | Writing(key: string, held: Object, obj: Object)
    | Releasing(key: string, held: Object)
    | Deleting(obj: Object)

  /** `added` and `deleted` record what has entered and left the pool for good. */
  datatype State = State(
    objects: Pool,
    fetched: nat,
    workers: seq<Worker>,
    panicked: bool,
    added: multiset<Object>,
    deleted: multiset<Object>)

  datatype Action =
    | Stop
    | Fetch
    | TakeToRead(key: string, n: nat)
    | TakeToWrite(key: string, n: nat, o: Object)
    | TakeToDelete(key: string, n: nat)
    | RunOut
    | Return
    | Stored(versionID: string)
    | StoreFailed
    | Deleted
    | Ignore

  datatype Event = Event(worker: nat, action: Action)

  predicate Takes(op: string) {
    op == GET || op == STAT || op == DELETE || op == PUT
  }

  predicate InPool(m: Pool, key: string, n: nat) {
    key in m && n < |m[key]|
  }

  predicate Enabled(s: State, e: Event) {
    !s.panicked && e.worker < |s.workers| &&
    var w := s.workers[e.worker];
    match e.action
    case Stop => w == Idle
    case Fetch => w == Idle
    case TakeToRead(key, n) => (w == Fetched(GET) || w == Fetched(STAT)) && InPool(s.objects, key, n)
    case TakeToWrite(key, n, _) => w == Fetched(PUT) && InPool(s.objects, key, n)
    case TakeToDelete(key, n) => w == Fetched(DELETE) && InPool(s.objects, key, n)
    case RunOut => w.Fetched? && Takes(w.op) && forall k :: k in s.objects ==> s.objects[k] == []
    case Return => w.Reading? || w.Releasing?
    case Stored(versionID) => w.Writing? && versionID != ""
    case StoreFailed => w.Writing?
    case Deleted => w.Deleting?
    case Ignore => w.Fetched? && !Takes(w.op)
  }

  function Move(s: State, e: Event, worker: Worker): State
    requires e.worker < |s.workers|
  {
    s.(workers := s.workers[e.worker := worker])
  }

  function Without(s: State, key: string, n: nat): Pool
    requires InPool(s.objects, key, n)
  {
    s.objects[key := RemoveAt(s.objects[key], n)]
  }

  function With(m: Pool, key: string, obj: Object): Pool {
    m[key := Versions(m, key) + [obj]]
  }

  function Apply(cycle: seq<string>, s: State, e: Event): State
    requires |cycle| > 0 && Enabled(s, e)
  {
    var w := s.workers[e.worker];
    match e.action
    case Stop => Move(s, e, Stopped)
    case Fetch => Move(s, e, Fetched(cycle[s.fetched % |cycle|])).(fetched := s.fetched + 1)
    case TakeToRead(key, n) => Move(s, e, Reading(key, s.objects[key][n])).(objects := Without(s, key, n))
    case TakeToWrite(key, n, o) =>
      var r := s.objects[key][n];
      Move(s, e, Writing(key, r, o.(name := r.name, prefix := r.prefix, versionID := ""))).(objects := Without(s, key, n))
    case TakeToDelete(key, n) =>
      var r := s.objects[key][n];
      Move(s, e, Deleting(r)).(objects := Without(s, key, n), deleted := s.deleted + multiset{r})
    case RunOut => s.(panicked := true)
    case Return => Move(s, e, Idle).(objects := With(s.objects, w.key, w.held))
    case Stored(versionID) =>
      var obj := w.obj.(versionID := versionID);
      Move(s, e, Releasing(w.key, w.held)).(objects := With(s.objects, obj.name, obj), added := s.added + multiset{obj})
    case StoreFailed => Move(s, e, Releasing(w.key, w.held))
    case Deleted => Move(s, e, Idle)
    case Ignore => Move(s, e, Idle)
  }

  ghost predicate Trace(cycle: seq<string>, s: State, events: seq<Event>)
    requires |cycle| > 0
    decreases |events|
  {
    |events| == 0 || (Enabled(s, events[0]) && Trace(cycle, Apply(cycle, s, events[0]), events[1..]))
  }

  ghost function After(cycle: seq<string>, s: State, events: seq<Event>): State
    requires |cycle| > 0 && Trace(cycle, s, events)
    decreases |events|
  {
    if |events| == 0 then s else After(cycle, Apply(cycle, s, events[0]), events[1..])
  }

  ghost predicate Init(s: State) {
    && !s.panicked && s.fetched == 0 && s.added == multiset{} && s.deleted == multiset{}
    && (forall w :: 0 <= w < |s.workers| ==> s.workers[w] == Idle)
    && forall k, o :: k in s.objects && o in s.objects[k] ==> o.name == k
  }

  // ----- what is pooled and what is held ----------------------------------------------------

  ghost function Pooled(m: Pool): multiset<Object> {
    if m == map[] then multiset{}
    else
      var k := Pick(m.Keys);
      multiset(m[k]) + Pooled(m - {k})
  }

  lemma {:induction false} PooledRemove(m: Pool, k: string)
    requires k in m
    ensures Pooled(m) == multiset(m[k]) + Pooled(m - {k})
    decreases m
  {
    var p := Pick(m.Keys);
    if p != k {
      PooledRemove(m - {p}, k);
      PooledRemove(m - {k}, p);
      assert m - {p} - {k} == m - {k} - {p};
    }
  }

  lemma RemoveUpdated(m: Pool, k: string, versions: seq<Object>)
    ensures m[k := versions] - {k} == m - {k}
    ensures k !in m ==> m - {k} == m
  {
  }

  lemma PooledUpdate(m: Pool, k: string, versions: seq<Object>)
    ensures Pooled(m[k := versions]) + multiset(Versions(m, k)) == Pooled(m) + multiset(versions)
  {
    PooledRemove(m[k := versions], k);
    RemoveUpdated(m, k, versions);
    if k in m {
      PooledRemove(m, k);
    }
  }

  lemma Cancel(a: multiset<Object>, b: multiset<Object>, c: multiset<Object>)
    requires a + c == b + c
    ensures a == b
  {
    forall o ensures a[o] == b[o] {
      assert (a + c)[o] == (b + c)[o];
    }
  }

  lemma PooledWithout(s: State, key: string, n: nat)
    requires InPool(s.objects, key, n)
    ensures Pooled(Without(s, key, n)) + multiset{s.objects[key][n]} == Pooled(s.objects)
  {
    var versions := s.objects[key];
    var fewer := RemoveAt(versions, n);
    PooledUpdate(s.objects, key, fewer);
    assert multiset(versions) == multiset(fewer) + multiset{versions[n]} by {
      assert versions == versions[..n] + ([versions[n]] + versions[n + 1..]);
    }
    var p, p', x := Pooled(s.objects), Pooled(Without(s, key, n)), multiset{versions[n]};
    assert p' + (multiset(fewer) + x) == p + multiset(fewer);
    assert p' + (multiset(fewer) + x) == (p' + x) + multiset(fewer);
    Cancel(p' + x, p, multiset(fewer));
  }

  lemma PooledWith(m: Pool, key: string, obj: Object)
    ensures Pooled(With(m, key, obj)) == Pooled(m) + multiset{obj}
  {
    var versions := Versions(m, key);
    PooledUpdate(m, key, versions + [obj]);
    var p, p', x := Pooled(m), Pooled(With(m, key, obj)), multiset{obj};
    assert multiset(versions + [obj]) == multiset(versions) + x;
    assert p + (multiset(versions) + x) == (p + x) + multiset(versions);
    Cancel(p', p + x, multiset(versions));
  }

  function HeldBy(w: Worker): multiset<Object> {
    match w
    case Reading(_, held) => multiset{held}
    case Writing(_, held, _) => multiset{held}
    case Releasing(_, held) => multiset{held}
    case _ => multiset{}
  }

  function AllHeld(workers: seq<Worker>): multiset<Object> {
    if |workers| == 0 then multiset{}
    else AllHeld(workers[..|workers| - 1]) + HeldBy(workers[|workers| - 1])
  }

  lemma HeldByLast(init: seq<Worker>, last: Worker, o: Object)
    ensures AllHeld(init + [last])[o] == AllHeld(init)[o] + HeldBy(last)[o]
  {
    assert (init + [last])[..|init|] == init;
  }

  lemma UpdateSplits(workers: seq<Worker>, init: seq<Worker>, last: Worker, w: nat, worker: Worker)
    requires workers == init + [last] && w < |workers|
    ensures workers[w := worker] == if w == |init| then init + [worker] else init[w := worker] + [last]
  {
  }

  lemma {:induction false} HeldUpdateAt(workers: seq<Worker>, w: nat, worker: Worker, o: Object)
    requires w < |workers|
    ensures AllHeld(workers[w := worker])[o] + HeldBy(workers[w])[o] == AllHeld(workers)[o] + HeldBy(worker)[o]
  {
    var n := |workers| - 1;
    var init, last := workers[..n], workers[n];
    assert workers == init + [last];
    UpdateSplits(workers, init, last, w, worker);
    HeldByLast(init, last, o);
    if w == n {
      HeldByLast(init, worker, o);
    } else {
      HeldByLast(init[w := worker], last, o);
      HeldUpdateAt(init, w, worker, o);
    }
  }

  // ----- conservation ---------------------------------------------------------------------------

  /** Every version that was there at first or was added is pooled, held or deleted, once. */
  ghost predicate Conserved(initial: multiset<Object>, s: State) {
    Pooled(s.objects) + AllHeld(s.workers) + s.deleted == initial + s.added
  }

  /** Versions are pooled under their own name. */
  ghost predicate PoolNamed(m: Pool) {
    forall k, o :: k in m && o in m[k] ==> o.name == k
  }

  /** A version is held together with its name, and a new version is written under
      the name of the one held meanwhile. */
  predicate HoldsNamed(w: Worker) {
    match w
    case Reading(key, held) => held.name == key
    case Writing(key, held, obj) => held.name == key && obj.name == key
    case Releasing(key, held) => held.name == key
    case _ => true
  }

  ghost predicate NamesMatch(s: State) {
    PoolNamed(s.objects) && forall i :: 0 <= i < |s.workers| ==> HoldsNamed(s.workers[i])
  }

  lemma NamedWithout(s: State, key: string, n: nat)
    requires PoolNamed(s.objects) && InPool(s.objects, key, n)
    ensures PoolNamed(Without(s, key, n)) && s.objects[key][n].name == key
  {
    assert s.objects[key][n] in s.objects[key];
    assert forall o :: o in RemoveAt(s.objects[key], n) ==> o in s.objects[key];
  }

  lemma NamedWith(m: Pool, key: string, obj: Object)
    requires PoolNamed(m) && obj.name == key
    ensures PoolNamed(With(m, key, obj))
  {
  }

  lemma NamesMove(s: State, e: Event, worker: Worker)
    requires NamesMatch(s) && e.worker < |s.workers| && HoldsNamed(worker)
    ensures forall i :: 0 <= i < |s.workers| ==> HoldsNamed(Move(s, e, worker).workers[i])
  {
  }

  lemma NamesStep(cycle: seq<string>, s: State, e: Event)
    requires |cycle| > 0 && NamesMatch(s) && Enabled(s, e)
    ensures NamesMatch(Apply(cycle, s, e))
  {
    var w, next := s.workers[e.worker], Apply(cycle, s, e).workers[e.worker];
    assert HoldsNamed(w);
    match e.action
    case TakeToRead(key, n) => NamedWithout(s, key, n);
    case TakeToWrite(key, n, _) => NamedWithout(s, key, n);
    case TakeToDelete(key, n) => NamedWithout(s, key, n);
    case Return => NamedWith(s.objects, w.key, w.held);
    case Stored(versionID) => NamedWith(s.objects, w.obj.name, w.obj.(versionID := versionID));
    case _ =>
    NamesMove(s, e, next);
  }

  /** Conservation of a single version. */
  ghost predicate ConservedAt(initial: multiset<Object>, s: State, o: Object) {
    Pooled(s.objects)[o] + AllHeld(s.workers)[o] + s.deleted[o] == initial[o] + s.added[o]
  }

  lemma ConservedIff(initial: multiset<Object>, s: State)
    ensures Conserved(initial, s) <==> forall o :: ConservedAt(initial, s, o)
  {
    var left, right := Pooled(s.objects) + AllHeld(s.workers) + s.deleted, initial + s.added;
    forall o ensures ConservedAt(initial, s, o) <==> left[o] == right[o] {
    }
    if forall o :: ConservedAt(initial, s, o) {
      forall o ensures left[o] == right[o] {
        assert ConservedAt(initial, s, o);
      }
      assert left == right;
    }
  }

  /** A version taken moves from the pool into a hand or out of the pool for good. */
  lemma TakeAt(s: State, i: nat, key: string, n: nat, taker: Worker, gone: multiset<Object>, o: Object)
    requires i < |s.workers| && InPool(s.objects, key, n)
    requires HeldBy(s.workers[i]) == multiset{}
    requires HeldBy(taker)[o] + gone[o] == multiset{s.objects[key][n]}[o]
    ensures Pooled(Without(s, key, n))[o] + AllHeld(s.workers[i := taker])[o] + (s.deleted + gone)[o] ==
      Pooled(s.objects)[o] + AllHeld(s.workers)[o] + s.deleted[o]
  {
    var r := multiset{s.objects[key][n]};
    PooledWithout(s, key, n);
    assert Pooled(Without(s, key, n))[o] + r[o] == (Pooled(Without(s, key, n)) + r)[o];
    HeldUpdateAt(s.workers, i, taker, o);
  }

  lemma ReadAt(cycle: seq<string>, initial: multiset<Object>, s: State, e: Event, o: Object)
    requires |cycle| > 0 && Enabled(s, e) && ConservedAt(initial, s, o)
    requires e.action.TakeToRead? || e.action.TakeToWrite?
    ensures ConservedAt(initial, Apply(cycle, s, e), o)
  {
    var taker := Apply(cycle, s, e).workers[e.worker];
    assert HeldBy(taker) == multiset{s.objects[e.action.key][e.action.n]};
    TakeAt(s, e.worker, e.action.key, e.action.n, taker, multiset{}, o);
  }

  lemma DeleteAt(cycle: seq<string>, initial: multiset<Object>, s: State, e: Event, o: Object)
    requires |cycle| > 0 && Enabled(s, e) && ConservedAt(initial, s, o)
    requires e.action.TakeToDelete?
    ensures ConservedAt(initial, Apply(cycle, s, e), o)
  {
    var r := s.objects[e.action.key][e.action.n];
    TakeAt(s, e.worker, e.action.key, e.action.n, Deleting(r), multiset{r}, o);
  }

  lemma ReturnAt(cycle: seq<string>, initial: multiset<Object>, s: State, e: Event, o: Object)
    requires |cycle| > 0 && Enabled(s, e) && ConservedAt(initial, s, o)
    requires e.action.Return?
    ensures ConservedAt(initial, Apply(cycle, s, e), o)
  {
    var w := s.workers[e.worker];
    HeldUpdateAt(s.workers, e.worker, Idle, o);
    PooledWith(s.objects, w.key, w.held);
  }

  lemma StoreAt(cycle: seq<string>, initial: multiset<Object>, s: State, e: Event, o: Object)
    requires |cycle| > 0 && Enabled(s, e) && ConservedAt(initial, s, o)
    requires e.action.Stored?
    ensures ConservedAt(initial, Apply(cycle, s, e), o)
  {
    var w := s.workers[e.worker];
    var obj := w.obj.(versionID := e.action.versionID);
    HeldUpdateAt(s.workers, e.worker, Releasing(w.key, w.held), o);
    PooledWith(s.objects, obj.name, obj);
  }

  /** The other steps leave the pool and what is held alone. */
  predicate LeavesPool(a: Action) {
    a.Stop? || a.Fetch? || a.StoreFailed? || a.Deleted? || a.Ignore?
  }

  lemma MoveKeeps(cycle: seq<string>, s: State, e: Event)
    requires |cycle| > 0 && Enabled(s, e) && LeavesPool(e.action)
    ensures var t := Apply(cycle, s, e);
      && t.objects == s.objects && t.added == s.added && t.deleted == s.deleted
      && t.workers == s.workers[e.worker := t.workers[e.worker]]
      && HeldBy(t.workers[e.worker]) == HeldBy(s.workers[e.worker])
  {
  }

  lemma MoveAt(cycle: seq<string>, initial: multiset<Object>, s: State, e: Event, o: Object)
    requires |cycle| > 0 && Enabled(s, e) && ConservedAt(initial, s, o) && LeavesPool(e.action)
    ensures ConservedAt(initial, Apply(cycle, s, e), o)
  {
    var t := Apply(cycle, s, e);
    var worker := t.workers[e.worker];
    MoveKeeps(cycle, s, e);
    HeldUpdateAt(s.workers, e.worker, worker, o);
    assert HeldBy(worker)[o] == HeldBy(s.workers[e.worker])[o];
  }

  lemma ConservedStepAt(cycle: seq<string>, initial: multiset<Object>, s: State, e: Event, o: Object)
    requires |cycle| > 0 && Enabled(s, e) && ConservedAt(initial, s, o)
    ensures ConservedAt(initial, Apply(cycle, s, e), o)
  {
    match e.action
    case TakeToRead(_, _) => ReadAt(cycle, initial, s, e, o);
    case TakeToWrite(_, _, _) => ReadAt(cycle, initial, s, e, o);
    case TakeToDelete(_, _) => DeleteAt(cycle, initial, s, e, o);
    case Return => ReturnAt(cycle, initial, s, e, o);
    case Stored(_) => StoreAt(cycle, initial, s, e, o);
    case RunOut =>
    case _ => MoveAt(cycle, initial, s, e, o);
  }

  lemma ConservedStep(cycle: seq<string>, initial: multiset<Object>, s: State, e: Event)
    requires |cycle| > 0 && Conserved(initial, s) && Enabled(s, e)
    ensures Conserved(initial, Apply(cycle, s, e))
  {
    ConservedIff(initial, s);
    ConservedIff(initial, Apply(cycle, s, e));
    forall o ensures ConservedAt(initial, Apply(cycle, s, e), o) {
      ConservedStepAt(cycle, initial, s, e, o);
    }
  }

  lemma {:induction false} ConservedForever(cycle: seq<string>, initial: multiset<Object>, s: State, events: seq<Event>)
    requires |cycle| > 0 && Conserved(initial, s) && NamesMatch(s) && Trace(cycle, s, events)
    ensures Conserved(initial, After(cycle, s, events)) && NamesMatch(After(cycle, s, events))
    decreases |events|
  {
    if |events| > 0 {
      ConservedStep(cycle, initial, s, events[0]);
      NamesStep(cycle, s, events[0]);
      ConservedForever(cycle, initial, Apply(cycle, s, events[0]), events[1..]);
    }
  }

  lemma {:induction false} NothingHeld(workers: seq<Worker>)
    requires forall w :: 0 <= w < |workers| ==> workers[w] == Idle
    ensures AllHeld(workers) == multiset{}
  {
    if |workers| > 0 {
      NothingHeld(workers[..|workers| - 1]);
    }
  }

  /** In every course of events, failed uploads included, pooled, held and deleted
      versions together are exactly the initial ones and those added. */
  lemma VersionsAreConserved(cycle: seq<string>, s: State, events: seq<Event>)
    requires |cycle| > 0 && Init(s) && Trace(cycle, s, events)
    ensures var t := After(cycle, s, events);
      Pooled(t.objects) + AllHeld(t.workers) + t.deleted == Pooled(s.objects) + t.added
    ensures NamesMatch(After(cycle, s, events))
  {
    NothingHeld(s.workers);
    ConservedForever(cycle, Pooled(s.objects), s, events);
  }

  // ----- ownership --------------------------------------------------------------------------------

  /** The store never gives out the same version twice. */
  ghost predicate NoDuplicates(m: multiset<Object>) {
    forall o :: m[o] <= 1
  }

  lemma {:induction false} HeldContains(workers: seq<Worker>, i: nat, o: Object)
    requires i < |workers|
    ensures HeldBy(workers[i])[o] <= AllHeld(workers)[o]
  {
    var n := |workers| - 1;
    if i < n {
      HeldContains(workers[..n], i, o);
    }
  }

  lemma HeldContainsBoth(workers: seq<Worker>, i: nat, j: nat, o: Object)
    requires i < |workers| && j < |workers| && i != j
    ensures HeldBy(workers[i])[o] + HeldBy(workers[j])[o] <= AllHeld(workers)[o]
  {
    HeldUpdateAt(workers, i, Idle, o);
    HeldContains(workers[i := Idle], j, o);
  }

  /** As long as stored versions are distinct, a held version has one holder, is not
      in the pool, and has not been deleted. */
  lemma HeldVersionsAreOwned(cycle: seq<string>, s: State, events: seq<Event>, i: nat, v: Object)
    requires |cycle| > 0 && Init(s) && Trace(cycle, s, events)
    requires NoDuplicates(Pooled(s.objects) + After(cycle, s, events).added)
    requires i < |After(cycle, s, events).workers| && v in HeldBy(After(cycle, s, events).workers[i])
    ensures var t := After(cycle, s, events);
      && v !in Pooled(t.objects) && v !in t.deleted
      && forall j :: 0 <= j < |t.workers| && j != i ==> v !in HeldBy(t.workers[j])
  {
    var t := After(cycle, s, events);
    VersionsAreConserved(cycle, s, events);
    HeldContains(t.workers, i, v);
    var all := Pooled(t.objects) + AllHeld(t.workers) + t.deleted;
    assert all[v] == Pooled(t.objects)[v] + AllHeld(t.workers)[v] + t.deleted[v];
    forall j | 0 <= j < |t.workers| && j != i ensures v !in HeldBy(t.workers[j]) {
      HeldContainsBoth(t.workers, i, j, v);
    }
  }

  /** While a new version is written, an older version of the same name is held and
      alive, so the name cannot disappear underneath the write. */
  lemma WrittenNameStaysAlive(cycle: seq<string>, s: State, events: seq<Event>, i: nat)
    requires |cycle| > 0 && Init(s) && Trace(cycle, s, events)
    requires NoDuplicates(Pooled(s.objects) + After(cycle, s, events).added)
    requires i < |After(cycle, s, events).workers| && After(cycle, s, events).workers[i].Writing?
    ensures var t := After(cycle, s, events); var w := t.workers[i];
      && w.held.name == w.obj.name
      && w.held in Pooled(s.objects) + t.added && w.held !in t.deleted
  {
    var t := After(cycle, s, events);
    var held := t.workers[i].held;
    HeldVersionsAreOwned(cycle, s, events, i, held);
    VersionsAreConserved(cycle, s, events);
    HeldContains(t.workers, i, held);
    assert held in AllHeld(t.workers);
  }

  // ----- never running dry -------------------------------------------------------------------------

  /** What a worker has fetched and not yet added to or removed from the versions. */
  function Pending(w: Worker): int {
    match w
    case Fetched(op) => -Delta(op)
    case Writing(_, _, _) => 1
    case _ => 0
  }

  function TotalPending(workers: seq<Worker>): int {
    if |workers| == 0 then 0 else TotalPending(workers[..|workers| - 1]) + Pending(workers[|workers| - 1])
  }

  lemma {:induction false} PendingUpdate(workers: seq<Worker>, w: nat, worker: Worker)
    requires w < |workers|
    ensures TotalPending(workers[w := worker]) == TotalPending(workers) - Pending(workers[w]) + Pending(worker)
  {
    var n := |workers| - 1;
    if w == n {
      assert workers[w := worker][..n] == workers[..n];
    } else {
      PendingUpdate(workers[..n], w, worker);
      assert workers[w := worker][..n] == workers[..n][w := worker];
    }
  }

  /** Additions and deletions match what the schedule has handed out. */
  ghost predicate OnSchedule(cycle: seq<string>, s: State)
    requires |cycle| > 0
  {
    |s.added| - |s.deleted| + TotalPending(s.workers) == -Excess(cycle, s.fetched)
  }

  lemma OnScheduleStep(cycle: seq<string>, s: State, e: Event)
    requires |cycle| > 0 && OnSchedule(cycle, s) && Enabled(s, e) && !e.action.StoreFailed?
    ensures OnSchedule(cycle, Apply(cycle, s, e))
  {
    var t := Apply(cycle, s, e);
    PendingUpdate(s.workers, e.worker, t.workers[e.worker]);
    assert s.workers[e.worker := s.workers[e.worker]] == s.workers;
  }

  /** A worker keeps at most two versions from the pool: one held, one to come. */
  lemma {:induction false} KeptAtMost(workers: seq<Worker>)
    ensures TotalPending(workers) + |AllHeld(workers)| <= 2 * |workers|
  {
    if |workers| > 0 {
      KeptAtMost(workers[..|workers| - 1]);
    }
  }

  lemma {:induction false} KeptWhenTaking(workers: seq<Worker>, w: nat)
    requires w < |workers| && workers[w].Fetched?
    ensures TotalPending(workers) + |AllHeld(workers)| <= 2 * |workers| - 1
  {
    var n := |workers| - 1;
    if w == n {
      KeptAtMost(workers[..n]);
    } else {
      KeptWhenTaking(workers[..n], w);
    }
  }

  lemma {:induction false} EmptyPool(m: Pool)
    requires IsEmpty(m)
    ensures Pooled(m) == multiset{}
    decreases m
  {
    if m != map[] {
      EmptyPool(m - {Pick(m.Keys)});
    }
  }

  ghost predicate Safe(cycle: seq<string>, initial: multiset<Object>, s: State)
    requires |cycle| > 0
  {
    && !s.panicked && Conserved(initial, s) && OnSchedule(cycle, s)
    && multiset(cycle)[DELETE] <= multiset(cycle)[PUT]
    && |initial| >= MaxExcess(cycle, |cycle|) + 2 * |s.workers|
  }

  lemma NotEmptyWhenTaking(cycle: seq<string>, initial: multiset<Object>, s: State, w: nat)
    requires |cycle| > 0 && Safe(cycle, initial, s) && w < |s.workers| && s.workers[w].Fetched?
    ensures !IsEmpty(s.objects)
  {
    OneCycleBoundsAll(cycle, s.fetched);
    KeptWhenTaking(s.workers, w);
    assert |Pooled(s.objects) + AllHeld(s.workers) + s.deleted| == |initial + s.added|;
    if IsEmpty(s.objects) {
      EmptyPool(s.objects);
    }
  }

  lemma {:induction false} SafeForever(cycle: seq<string>, initial: multiset<Object>, s: State, events: seq<Event>)
    requires |cycle| > 0 && Safe(cycle, initial, s) && Trace(cycle, s, events)
    requires forall e :: e in events ==> !e.action.StoreFailed?
    ensures !After(cycle, s, events).panicked
    decreases |events|
  {
    if |events| > 0 {
      var e := events[0];
      assert e in events && forall f :: f in events[1..] ==> f in events;
      if e.action.RunOut? {
        NotEmptyWhenTaking(cycle, initial, s, e.worker);
      }
      ConservedStep(cycle, initial, s, e);
      OnScheduleStep(cycle, s, e);
      SafeForever(cycle, initial, Apply(cycle, s, e), events[1..]);
    }
  }

  lemma {:induction false} NothingPending(workers: seq<Worker>)
    requires forall w :: 0 <= w < |workers| ==> workers[w] == Idle
    ensures TotalPending(workers) == 0
  {
    if |workers| > 0 {
      NothingPending(workers[..|workers| - 1]);
    }
  }

  /** A versioned pool needs two versions per worker, because an upload holds one
      while it makes another: with those and the lead deletions take in one cycle
      it never runs dry, as long as uploads succeed. Unlike the mixed benchmark,
      generation does not check that the cycle puts at least what it deletes. */
  lemma VersionsNeverRunDry(cycle: seq<string>, s: State, events: seq<Event>)
    requires |cycle| > 0 && multiset(cycle)[DELETE] <= multiset(cycle)[PUT]
    requires Init(s) && Trace(cycle, s, events)
    requires |Pooled(s.objects)| >= MaxExcess(cycle, |cycle|) + 2 * |s.workers|
    requires forall e :: e in events ==> !e.action.StoreFailed?
    ensures !After(cycle, s, events).panicked
  {
    NothingHeld(s.workers);
    NothingPending(s.workers);
    SafeForever(cycle, Pooled(s.objects), s, events);
  }

  // ----- workers go on --------------------------------------------------------------------

  /** How many steps an operation has left at most. */
  function StepsLeft(w: Worker): nat {
    match w
    case Fetched(_) => 3
    case Writing(_, _, _) => 2
    case Reading(_, _) => 1
    case Releasing(_, _) => 1
    case Deleting(_) => 1
    case _ => 0
  }

  /** Every step of an operation brings its worker closer to the next one, whatever
      fails, and leaves the others alone. */
  lemma OperationsEnd(cycle: seq<string>, s: State, e: Event)
    requires |cycle| > 0 && Enabled(s, e)
    ensures var t := Apply(cycle, s, e);
      && |t.workers| == |s.workers|
      && (forall v :: 0 <= v < |s.workers| && v != e.worker ==> t.workers[v] == s.workers[v])
      && (!e.action.Stop? && !e.action.Fetch? && !t.panicked ==>
          t.workers[e.worker] != Stopped && StepsLeft(t.workers[e.worker]) < StepsLeft(s.workers[e.worker]))
  {
  }

  /** A worker that has not stopped is never stuck: while no panic ended the run it
      has a step to take. */
  lemma NeverStuck(s: State, w: nat) returns (e: Event)
    requires !s.panicked && w < |s.workers| && s.workers[w] != Stopped
    ensures e.worker == w && Enabled(s, e) && !e.action.StoreFailed?
    ensures e.action.RunOut? <==> s.workers[w].Fetched? && Takes(s.workers[w].op) && IsEmpty(s.objects)
  {
    match s.workers[w]
    case Idle => e := Event(w, Fetch);
    case Reading(_, _) => e := Event(w, Return);
    case Releasing(_, _) => e := Event(w, Return);
    case Writing(_, _, _) => e := Event(w, Stored("1"));
    case Deleting(_) => e := Event(w, Deleted);
    case Fetched(op) =>
      if !Takes(op) {
        e := Event(w, Ignore);
      } else if IsEmpty(s.objects) {
        e := Event(w, RunOut);
      } else {
        var key :| key in s.objects && s.objects[key] != [];
        e := Event(w, if op == PUT then TakeToWrite(key, 0, Object("", "", "", 0))
                      else if op == DELETE then TakeToDelete(key, 0) else TakeToRead(key, 0));
      }
  }

  // ----- the locked methods are steps ---------------------------------------------------------

  /** The shared object is in the state the transition system says. */
  ghost predicate Represents(m: VersionedDistribution, cycle: seq<string>, s: State)
    reads m
  {
    |cycle| > 0 && m.ops == cycle && m.objects == s.objects && m.current == s.fetched % |cycle|
  }

  ghost predicate WorkerIs(s: State, w: nat, worker: Worker) {
    !s.panicked && w < |s.workers| && s.workers[w] == worker
  }

  /** `getOp` is the step Fetch. */
  method FetchStep(m: VersionedDistribution, w: nat, ghost cycle: seq<string>, ghost s: State) returns (op: string)
    requires Represents(m, cycle, s) && WorkerIs(s, w, Idle)
    modifies m
    ensures Enabled(s, Event(w, Fetch)) && Represents(m, cycle, Apply(cycle, s, Event(w, Fetch)))
    ensures Apply(cycle, s, Event(w, Fetch)).workers[w] == Fetched(op)
  {
    NextPosition(s.fetched, |cycle|);
    op := m.GetOp();
  }

  /** `randomObjRead`, for a download or a status request, is the step TakeToRead of
      the chosen version, or RunOut. */
  method ReadStep(m: VersionedDistribution, w: nat, op: string, ghost cycle: seq<string>, ghost s: State)
    returns (obj: Option<Object>, key: string, ghost e: Event)
    requires Represents(m, cycle, s) && WorkerIs(s, w, Fetched(op)) && (op == GET || op == STAT)
    modifies m
    ensures Enabled(s, e) && Represents(m, cycle, Apply(cycle, s, e))
    ensures e.worker == w && if obj.None? then e.action == RunOut
      else e.action.TakeToRead? && Apply(cycle, s, e).workers[w] == Reading(key, obj.value)
  {
    ghost var n;
    obj, key, n := m.TakeRandom();
    e := Event(w, if obj.None? then RunOut else TakeToRead(key, n));
  }

  /** `deleteRandomObj` is the step TakeToDelete of the chosen version, or RunOut. */
  method DeleteStep(m: VersionedDistribution, w: nat, ghost cycle: seq<string>, ghost s: State)
    returns (obj: Option<Object>, ghost e: Event)
    requires Represents(m, cycle, s) && WorkerIs(s, w, Fetched(DELETE))
    modifies m
    ensures Enabled(s, e) && Represents(m, cycle, Apply(cycle, s, e))
    ensures e.worker == w && if obj.None? then e.action == RunOut
      else e.action.TakeToDelete? && Apply(cycle, s, e).workers[w] == Deleting(obj.value)
  {
    var key;
    ghost var n;
    obj, key, n := m.TakeRandom();
    e := Event(w, if obj.None? then RunOut else TakeToDelete(key, n));
  }

  /** `newVersion` is the step TakeToWrite, or RunOut. */
  method WriteStep(m: VersionedDistribution, w: nat, o: Object, ghost cycle: seq<string>, ghost s: State)
    returns (obj: Option<Object>, held: Option<Object>, key: string, ghost e: Event)
    requires Represents(m, cycle, s) && WorkerIs(s, w, Fetched(PUT))
    modifies m
    ensures Enabled(s, e) && Represents(m, cycle, Apply(cycle, s, e))
    ensures e.worker == w && if held.None? then e.action == RunOut
      else e.action.TakeToWrite? && obj.Some? && Apply(cycle, s, e).workers[w] == Writing(key, held.value, obj.value)
  {
    ghost var n;
    obj, held, key, n := m.NewVersion(o);
    e := Event(w, if held.None? then RunOut else TakeToWrite(key, n, o));
  }

  /** Putting back a version that was read or held during a write is the step Return. */
  method ReturnStep(m: VersionedDistribution, w: nat, worker: Worker, ghost cycle: seq<string>, ghost s: State)
    requires Represents(m, cycle, s) && WorkerIs(s, w, worker) && (worker.Reading? || worker.Releasing?)
    modifies m
    ensures Enabled(s, Event(w, Return)) && Represents(m, cycle, Apply(cycle, s, Event(w, Return)))
    ensures Apply(cycle, s, Event(w, Return)).workers[w] == Idle
  {
    m.Put(worker.key, worker.held);
  }

  /** `addObj` of a version that was written is the step Stored. */
  method StoreStep(m: VersionedDistribution, w: nat, worker: Worker, versionID: string, ghost cycle: seq<string>, ghost s: State)
    requires Represents(m, cycle, s) && WorkerIs(s, w, worker) && worker.Writing? && versionID != ""
    modifies m
    ensures Enabled(s, Event(w, Stored(versionID)))
    ensures Represents(m, cycle, Apply(cycle, s, Event(w, Stored(versionID))))
    ensures Apply(cycle, s, Event(w, Stored(versionID))).workers[w] == Releasing(worker.key, worker.held)
  {
    m.Put(worker.obj.name, worker.obj.(versionID := versionID));
  }
}
