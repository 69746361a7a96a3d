/** The "active" stretch of a run (pkg/bench/ops.go): every thread has finished
    a request before it and still starts one after it. */
module ActiveRange {
  import opened Basics
  import opened Operations

  // ----- what each thread contributes ---------------------------------------

  /** Thread -> earliest end of any of its operations. */
  function FirstEnded(ops: seq<Operation>): map<uint16, Time> {
    if |ops| == 0 then map[]
    else
      var m := FirstEnded(ops[..|ops| - 1]);
      var op := ops[|ops| - 1];
      if op.thread !in m || m[op.thread] > op.end then m[op.thread := op.end] else m
  }

  /** Thread -> latest start of any of its operations. */
  function LastStarted(ops: seq<Operation>): map<uint16, Time> {
    if |ops| == 0 then map[]
    else
      var m := LastStarted(ops[..|ops| - 1]);
      var op := ops[|ops| - 1];
      if op.thread !in m || m[op.thread] < op.start then m[op.thread := op.start] else m
  }

  ghost function Starts(ops: seq<Operation>): set<Time> {
    set op | op in ops :: op.start
  }

  ghost function Ends(ops: seq<Operation>): set<Time> {
    set op | op in ops :: op.end
  }

  ghost function After(s: set<Time>, t: Time): set<Time> {
    set x | x in s && x > t
  }

  ghost function Before(s: set<Time>, t: Time): set<Time> {
    set x | x in s && x < t
  }

  // ----- the range as a value -------------------------------------------------

  /** The latest of the threads' first completions, but not before the zero time. */
  ghost function ActiveStart(ops: seq<Operation>): Time {
    MaxOf(FirstEnded(ops).Values, ZERO_TIME)
  }

  /** The earliest of the threads' last starts. */
  ghost function ActiveEnd(ops: seq<Operation>): Time {
    MinOf(LastStarted(ops).Values, MaxOf(Ends(ops), ZERO_TIME))
  }

  ghost function Collapse(start: Time, end: Time): (Time, Time) {
    if start > end then (start, start) else (start, end)
  }

  /** Everything after the first completion and before the last start of anyone,
      widened to the nearest operation boundary inside. */
  ghost function AnyRange(ops: seq<Operation>): (Time, Time)
    requires |ops| > 0
  {
    var startF := MinOf(Ends(ops), ops[0].start);
    var endF := MaxOf(Starts(ops), ops[0].end);
    Collapse(MinOf(After(Starts(ops), startF), endF),
             MaxOf(Before(Ends(ops), endF), startF))
  }

  ghost function Active(ops: seq<Operation>, allThreads: bool): (Time, Time) {
    if |ops| == 0 then (ZERO_TIME, ZERO_TIME)
    else if allThreads then Collapse(ActiveStart(ops), ActiveEnd(ops))
    else AnyRange(ops)
  }

  // ----- the loops ------------------------------------------------------------

  method ActiveTimeRange(ops: seq<Operation>, allThreads: bool) returns (start: Time, end: Time)
    ensures (start, end) == Active(ops, allThreads)
  {
    if |ops| == 0 {
      return ZERO_TIME, ZERO_TIME;
    }
    if !allThreads {
      start, end := AnyTimeRange(ops);
      return;
    }
    start, end := ZERO_TIME, ZERO_TIME;
    var firstEnded: map<uint16, Time> := map[];
    var lastStarted: map<uint16, Time> := map[];
    for i := 0 to |ops|
      invariant firstEnded == FirstEnded(ops[..i]) && lastStarted == LastStarted(ops[..i])
      invariant forall op :: op in ops[..i] ==> op.end <= end
      invariant end == ZERO_TIME || exists op :: op in ops[..i] && op.end == end
      invariant ZERO_TIME <= end
    {
      var op := ops[i];
      assert ops[..i + 1] == ops[..i] + [op] && ops[..i + 1][..i] == ops[..i];
      if op.thread !in firstEnded || firstEnded[op.thread] > op.end {
        firstEnded := firstEnded[op.thread := op.end];
      }
      if op.thread !in lastStarted || lastStarted[op.thread] < op.start {
        lastStarted := lastStarted[op.thread := op.start];
      }
      if end < op.end {
        assert op in ops[..i + 1];
        end := op.end;
      }
    }
    assert ops[..|ops|] == ops;
    LatestEnd(ops, end);
    start := LatestValue(firstEnded, start);
    end := EarliestValue(lastStarted, end);
    if start > end {
      return start, start;
    }
  }

  /** The map is ranged over in an arbitrary order. */
  method LatestValue(m: map<uint16, Time>, start0: Time) returns (start: Time)
    ensures start == MaxOf(m.Values, start0)
  {
    start := start0;
    var todo := m.Keys;
    while todo != {}
      invariant todo <= m.Keys
      invariant start0 <= start && forall t :: t in m.Keys - todo ==> m[t] <= start
      invariant start == start0 || start in m.Values
      decreases todo
    {
      var t :| t in todo;
      todo := todo - {t};
      if m[t] > start {
        start := m[t];
      }
    }
  }

  /** The map is ranged over in an arbitrary order. */
  method EarliestValue(m: map<uint16, Time>, end0: Time) returns (end: Time)
    ensures end == MinOf(m.Values, end0)
  {
    end := end0;
    var todo := m.Keys;
    while todo != {}
      invariant todo <= m.Keys
      invariant end <= end0 && forall t :: t in m.Keys - todo ==> end <= m[t]
      invariant end == end0 || end in m.Values
      decreases todo
    {
      var t :| t in todo;
      todo := todo - {t};
      if end > m[t] {
        end := m[t];
      }
    }
  }

  /** The branch of ActiveTimeRange that discards one operation only. */
  method AnyTimeRange(ops: seq<Operation>) returns (start: Time, end: Time)
    requires |ops| > 0
    ensures (start, end) == AnyRange(ops)
  {
    var startF, endF := Boundaries(ops);
    start, end := Inner(ops, startF, endF);
    if start > end {
      return start, start;
    }
  }

  method Boundaries(ops: seq<Operation>) returns (startF: Time, endF: Time)
    requires |ops| > 0
    ensures startF == MinOf(Ends(ops), ops[0].start) && endF == MaxOf(Starts(ops), ops[0].end)
  {
    startF, endF := ops[0].start, ops[0].end;
    for i := 0 to |ops|
      invariant (startF, endF) == BoundariesUpTo(ops, i)
    {
      BoundariesStep(ops, i);
      if ops[i].end < startF {
        startF := ops[i].end;
      }
      if endF < ops[i].start {
        endF := ops[i].start;
      }
    }
    assert ops[..|ops|] == ops;
  }

  method Inner(ops: seq<Operation>, startF: Time, endF: Time) returns (start: Time, end: Time)
    ensures start == MinOf(After(Starts(ops), startF), endF) && end == MaxOf(Before(Ends(ops), endF), startF)
  {
    start, end := endF, startF;
    for i := 0 to |ops|
      invariant (start, end) == InnerUpTo(ops, i, startF, endF)
    {
      InnerStep(ops, i, startF, endF);
      if ops[i].start > startF && ops[i].start < start {
        start := ops[i].start;
      }
      if ops[i].end < endF && ops[i].end > end {
        end := ops[i].end;
      }
    }
    assert ops[..|ops|] == ops;
  }

  /** The earliest end and the latest start among the first i operations. */
  ghost function BoundariesUpTo(ops: seq<Operation>, i: nat): (Time, Time)
    requires i <= |ops| && |ops| > 0
  {
    (MinOf(Ends(ops[..i]), ops[0].start), MaxOf(Starts(ops[..i]), ops[0].end))
  }

  lemma BoundariesStep(ops: seq<Operation>, i: nat)
    requires i < |ops|
    ensures BoundariesUpTo(ops, 0) == (ops[0].start, ops[0].end)
    ensures BoundariesUpTo(ops, i + 1) ==
      (Min(ops[i].end, BoundariesUpTo(ops, i).0), Max(ops[i].start, BoundariesUpTo(ops, i).1))
  {
    BoundaryStep(ops, i);
    MinOfAdd(Ends(ops[..i]), ops[i].end, ops[0].start);
    MaxOfAdd(Starts(ops[..i]), ops[i].start, ops[0].end);
  }

  /** The earliest start after startF and the latest end before endF among them. */
  ghost function InnerUpTo(ops: seq<Operation>, i: nat, startF: Time, endF: Time): (Time, Time)
    requires i <= |ops|
  {
    (MinOf(After(Starts(ops[..i]), startF), endF), MaxOf(Before(Ends(ops[..i]), endF), startF))
  }

  lemma InnerStep(ops: seq<Operation>, i: nat, startF: Time, endF: Time)
    requires i < |ops|
    ensures InnerUpTo(ops, 0, startF, endF) == (endF, startF)
    ensures var (s, e) := InnerUpTo(ops, i, startF, endF);
      InnerUpTo(ops, i + 1, startF, endF) ==
      (if ops[i].start > startF then Min(ops[i].start, s) else s, if ops[i].end < endF then Max(ops[i].end, e) else e)
  {
    BoundaryStep(ops, i);
    AfterAdd(Starts(ops[..i]), ops[i].start, startF);
    BeforeAdd(Ends(ops[..i]), ops[i].end, endF);
    MinOfAdd(After(Starts(ops[..i]), startF), ops[i].start, endF);
    MaxOfAdd(Before(Ends(ops[..i]), endF), ops[i].end, startF);
  }

  lemma BoundaryStep(ops: seq<Operation>, i: nat)
    requires i < |ops|
    ensures Starts(ops[..i + 1]) == Starts(ops[..i]) + {ops[i].start}
    ensures Ends(ops[..i + 1]) == Ends(ops[..i]) + {ops[i].end}
  {
    var before, after := ops[..i], ops[..i + 1];
    assert after == before + [ops[i]];
    assert forall op :: op in after <==> op in before || op == ops[i];
    assert ops[i] in after;
  }

  lemma AfterAdd(s: set<Time>, x: Time, t: Time)
    ensures After(s + {x}, t) == if x > t then After(s, t) + {x} else After(s, t)
  {
  }

  lemma BeforeAdd(s: set<Time>, x: Time, t: Time)
    ensures Before(s + {x}, t) == if x < t then Before(s, t) + {x} else Before(s, t)
  {
  }

  lemma LatestEnd(ops: seq<Operation>, end: Time)
    requires ZERO_TIME <= end
    requires forall op :: op in ops ==> op.end <= end
    requires end == ZERO_TIME || exists op :: op in ops && op.end == end
    ensures end == MaxOf(Ends(ops), ZERO_TIME)
  {
    var latest := MaxOf(Ends(ops), ZERO_TIME);
    if end != ZERO_TIME {
      var op :| op in ops && op.end == end;
      assert op.end in Ends(ops);
    }
    assert forall t :: t in Ends(ops) ==> t <= end;
  }

  // ----- what the range means ---------------------------------------------------

  ghost predicate EndedBy(ops: seq<Operation>, thread: uint16, s: Time) {
    exists p :: p in ops && p.thread == thread && p.end <= s
  }

  ghost predicate StartsFrom(ops: seq<Operation>, thread: uint16, e: Time) {
    exists p :: p in ops && p.thread == thread && e <= p.start
  }

  /** By time s every thread has finished one of its operations. */
  ghost predicate ReadyBy(ops: seq<Operation>, s: Time) {
    forall op :: op in ops ==> EndedBy(ops, op.thread, s)
  }

  /** At time e or later every thread still starts one of its operations. */
  ghost predicate BusyFrom(ops: seq<Operation>, e: Time) {
    forall op :: op in ops ==> StartsFrom(ops, op.thread, e)
  }

  lemma {:induction false} FirstEndedBound(ops: seq<Operation>, op: Operation)
    requires op in ops
    ensures op.thread in FirstEnded(ops) && FirstEnded(ops)[op.thread] <= op.end
  {
    var init, last := ops[..|ops| - 1], ops[|ops| - 1];
    assert ops == init + [last];
    if op in init {
      FirstEndedBound(init, op);
    }
  }

  lemma {:induction false} FirstEndedWitness(ops: seq<Operation>, thread: uint16) returns (p: Operation)
    requires thread in FirstEnded(ops)
    ensures p in ops && p.thread == thread && p.end == FirstEnded(ops)[thread]
  {
    var init, last := ops[..|ops| - 1], ops[|ops| - 1];
    if last.thread == thread && FirstEnded(ops)[thread] == last.end {
      p := last;
    } else {
      p := FirstEndedWitness(init, thread);
    }
  }

  lemma {:induction false} LastStartedBound(ops: seq<Operation>, op: Operation)
    requires op in ops
    ensures op.thread in LastStarted(ops) && op.start <= LastStarted(ops)[op.thread]
  {
    var init, last := ops[..|ops| - 1], ops[|ops| - 1];
    assert ops == init + [last];
    if op in init {
      LastStartedBound(init, op);
    }
  }

  lemma {:induction false} LastStartedWitness(ops: seq<Operation>, thread: uint16) returns (p: Operation)
    requires thread in LastStarted(ops)
    ensures p in ops && p.thread == thread && p.start == LastStarted(ops)[thread]
  {
    var init, last := ops[..|ops| - 1], ops[|ops| - 1];
    if last.thread == thread && LastStarted(ops)[thread] == last.start {
      p := last;
    } else {
      p := LastStartedWitness(init, thread);
    }
  }

  /** A time is late enough for every thread exactly when it is not before ActiveStart. */
  lemma ReadyByIff(ops: seq<Operation>, s: Time)
    requires ZERO_TIME <= s
    ensures ReadyBy(ops, s) <==> ActiveStart(ops) <= s
  {
    var m := FirstEnded(ops);
    if ReadyBy(ops, s) {
      forall v | v in m.Values ensures v <= s {
        var t :| t in m && m[t] == v;
        var op := FirstEndedWitness(ops, t);
        var p :| p in ops && p.thread == t && p.end <= s;
        FirstEndedBound(ops, p);
      }
    }
    if ActiveStart(ops) <= s {
      forall op | op in ops ensures EndedBy(ops, op.thread, s) {
        FirstEndedBound(ops, op);
        assert m[op.thread] in m.Values;
        var p := FirstEndedWitness(ops, op.thread);
      }
    }
  }

  /** A time is early enough for every thread exactly when it is not after ActiveEnd. */
  lemma BusyFromIff(ops: seq<Operation>, e: Time)
    requires |ops| > 0 && WellTimed(ops)
    ensures BusyFrom(ops, e) <==> e <= ActiveEnd(ops)
  {
    var m := LastStarted(ops);
    if BusyFrom(ops, e) {
      forall v | v in m.Values ensures e <= v {
        var t :| t in m && m[t] == v;
        var op := LastStartedWitness(ops, t);
        var p :| p in ops && p.thread == t && e <= p.start;
        LastStartedBound(ops, p);
      }
      assert StartsFrom(ops, ops[0].thread, e);
      var p :| p in ops && p.thread == ops[0].thread && e <= p.start;
      assert p.end in Ends(ops);
    }
    if e <= ActiveEnd(ops) {
      forall op | op in ops ensures StartsFrom(ops, op.thread, e) {
        LastStartedBound(ops, op);
        assert m[op.thread] in m.Values;
        var p := LastStartedWitness(ops, op.thread);
      }
    }
  }

  /** The all-threads range is the widest window [s, e] before which every thread
      finished an operation and after which every thread starts one. It starts when
      the last thread has finished one, and is empty there when there is no such window. */
  lemma WidestWindow(ops: seq<Operation>)
    requires |ops| > 0 && WellTimed(ops)
    ensures var (a, b) := Active(ops, true);
      && ZERO_TIME <= a <= b
      && (forall s, e :: ZERO_TIME <= s <= e && ReadyBy(ops, s) && BusyFrom(ops, e) ==> a <= s && e <= b)
      && ((exists s, e :: ZERO_TIME <= s <= e && ReadyBy(ops, s) && BusyFrom(ops, e))
          <==> ReadyBy(ops, a) && BusyFrom(ops, b))
      && ReadyBy(ops, a) && (forall s :: ZERO_TIME <= s && ReadyBy(ops, s) ==> a <= s)
      && (BusyFrom(ops, b) || a == b)
  {
    forall s | ZERO_TIME <= s ensures ReadyBy(ops, s) <==> ActiveStart(ops) <= s {
      ReadyByIff(ops, s);
    }
    forall e ensures BusyFrom(ops, e) <==> e <= ActiveEnd(ops) {
      BusyFromIff(ops, e);
    }
  }

  /** The order in which operations are recorded does not move the all-threads range. */
  lemma OrderDoesNotMatter(ops: seq<Operation>, other: seq<Operation>)
    requires multiset(ops) == multiset(other)
    ensures Active(ops, true) == Active(other, true)
  {
    SameMembers(ops, other);
    FirstEndedWithin(ops, other);
    FirstEndedWithin(other, ops);
    LastStartedWithin(ops, other);
    LastStartedWithin(other, ops);
    assert FirstEnded(ops) == FirstEnded(other);
    assert LastStarted(ops) == LastStarted(other);
    assert Ends(ops) == Ends(other);
  }

  lemma FirstEndedWithin(ops: seq<Operation>, more: seq<Operation>)
    requires forall op :: op in ops ==> op in more
    ensures forall t :: t in FirstEnded(ops) ==> t in FirstEnded(more) && FirstEnded(more)[t] <= FirstEnded(ops)[t]
  {
    forall t | t in FirstEnded(ops)
      ensures t in FirstEnded(more) && FirstEnded(more)[t] <= FirstEnded(ops)[t]
    {
      var p := FirstEndedWitness(ops, t);
      FirstEndedBound(more, p);
    }
  }

  lemma LastStartedWithin(ops: seq<Operation>, more: seq<Operation>)
    requires forall op :: op in ops ==> op in more
    ensures forall t :: t in LastStarted(ops) ==> t in LastStarted(more) && LastStarted(ops)[t] <= LastStarted(more)[t]
  {
    forall t | t in LastStarted(ops)
      ensures t in LastStarted(more) && LastStarted(ops)[t] <= LastStarted(more)[t]
    {
      var p := LastStartedWitness(ops, t);
      LastStartedBound(more, p);
    }
  }

  lemma SameMembers<T>(a: seq<T>, b: seq<T>)
    requires multiset(a) == multiset(b)
    ensures |a| == |b|
    ensures forall x :: x in a <==> x in b
  {
    assert |multiset(a)| == |multiset(b)|;
    forall x ensures x in a <==> x in b {
      assert x in a <==> x in multiset(a);
      assert x in b <==> x in multiset(b);
    }
  }

  /** The other range discards little: of operations in starting order, only those
      that start first of all start before it, and those that end after it end no
      earlier than any start. */
  lemma AnyRangeDiscardsBoundaries(ops: seq<Operation>, op: Operation)
    requires SortedByStart(ops) && WellTimed(ops) && op in ops
    ensures var (start, end) := Active(ops, false);
      && start <= end
      && (op.start < start ==> op.start == ops[0].start)
      && (end < op.end ==> forall p :: p in ops ==> p.start <= op.end)
  {
    var startF := MinOf(Ends(ops), ops[0].start);
    var endF := MaxOf(Starts(ops), ops[0].end);
    FirstStartsFirst(ops, op);
    if ops[0].start < op.start {
      assert startF <= ops[0].start;
      assert op.start in After(Starts(ops), startF);
    }
    if op.end < endF {
      assert op.end in Before(Ends(ops), endF);
    }
    forall p | p in ops ensures p.start <= endF {
      assert p.start in Starts(ops);
    }
  }

  lemma FirstStartsFirst(ops: seq<Operation>, op: Operation)
    requires SortedByStart(ops) && op in ops
    ensures ops[0].start <= op.start && op.start in Starts(ops) && op.end in Ends(ops)
  {
    var i :| 0 <= i < |ops| && ops[i] == op;
  }

  /** Where the second half of the other range ends: at the last start, or at the
      first operation's end if that is later. */
  function LastBoundary(ops: seq<Operation>): Time
    requires |ops| > 0
  {
    Max(ops[|ops| - 1].start, ops[0].end)
  }

  /** What the two loops find in a run in starting order. */
  lemma SortedBoundaries(ops: seq<Operation>)
    requires |ops| > 0 && SortedByStart(ops) && WellTimed(ops)
    ensures MinOf(Ends(ops), ops[0].start) == ops[0].start
    ensures MaxOf(Starts(ops), ops[0].end) == LastBoundary(ops)
    ensures ops[0].start <= ops[|ops| - 1].start <= LastBoundary(ops)
  {
    forall e | e in Ends(ops) ensures ops[0].start <= e {
      var op :| op in ops && op.end == e;
      FirstStartsFirst(ops, op);
    }
    forall s | s in Starts(ops) ensures s <= ops[|ops| - 1].start {
      var op :| op in ops && op.start == s;
      var i :| 0 <= i < |ops| && ops[i] == op;
    }
    assert ops[|ops| - 1] in ops;
    assert ops[|ops| - 1].start in Starts(ops);
  }

  /** The start of the other range, in starting order: the first start after that of
      the first operation, or the last boundary if there is none earlier. */
  lemma AnyRangeStart(ops: seq<Operation>)
    requires |ops| > 0 && SortedByStart(ops) && WellTimed(ops)
    ensures var start := Active(ops, false).0;
      && ((exists p :: p in ops && ops[0].start < p.start) ==> ops[0].start < start)
      && (forall p :: p in ops ==> !(ops[0].start < p.start < start))
      && ((exists p :: p in ops && p.start == start) || start == LastBoundary(ops))
      && ops[0].start <= start <= LastBoundary(ops)
  {
    var startF, endF := ops[0].start, LastBoundary(ops);
    SortedBoundaries(ops);
    var later := After(Starts(ops), startF);
    var start := MinOf(later, endF);
    forall p | p in ops ensures !(startF < p.start < start) {
      if startF < p.start {
        assert p.start in later;
      }
    }
    if start != endF {
      assert start in Starts(ops);
      var p :| p in ops && p.start == start;
    }
    forall p | p in ops && startF < p.start ensures startF < endF {
      var i :| 0 <= i < |ops| && ops[i] == p;
    }
  }

  /** Its end: the last end before the last boundary. The range is not empty exactly
      when an operation ends between its start and that boundary. */
  lemma AnyRangeEnd(ops: seq<Operation>)
    requires |ops| > 0 && SortedByStart(ops) && WellTimed(ops)
    ensures var (start, end) := Active(ops, false);
      && start <= end
      && (start < end <==> exists p :: p in ops && start < p.end < LastBoundary(ops))
      && (start < end ==>
          && end < LastBoundary(ops)
          && (exists p :: p in ops && p.end == end)
          && (forall p :: p in ops ==> !(end < p.end < LastBoundary(ops))))
  {
    var startF, endF := ops[0].start, LastBoundary(ops);
    SortedBoundaries(ops);
    AnyRangeStart(ops);
    var earlier := Before(Ends(ops), endF);
    var end := MaxOf(earlier, startF);
    forall p | p in ops && p.end < endF ensures p.end <= end {
      assert p.end in earlier;
    }
    if Active(ops, false).0 < end {
      assert end in earlier;
      var p :| p in ops && p.end == end;
    }
  }

  /** For example, of requests [0,10], [5,20] and [12,30] the stretch from 5 to 10 is
      left: the first start and the ends from 20 on are discarded. */
  lemma AnyRangeExample(a: Operation, b: Operation, c: Operation)
    requires (a.start, a.end) == (0, 10) && (b.start, b.end) == (5, 20) && (c.start, c.end) == (12, 30)
    ensures Active([a, b, c], false) == (5, 10)
  {
    var ops := [a, b, c];
    assert a in ops && b in ops && c in ops;
    AnyRangeStart(ops);
    AnyRangeEnd(ops);
  }
}
