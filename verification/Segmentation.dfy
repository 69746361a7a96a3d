/** Cutting a run into equal time segments (`Operations.Segment` in
    pkg/bench/analyze.go). */
module Segmentation {
  import opened Basics
  import opened Arithmetic
  import opened Operations
  import opened ActiveRange
  import opened Aggregate

  datatype SegmentOptions = SegmentOptions(
    from: Time,
    perSegDuration: int,
    allThreads: bool,
    multiOp: bool)

  /** What a computation yields that the program may abandon with a panic. */
  datatype Result<+T> = Ok(value: T) | Panic

  ghost predicate Int64Durations(ops: seq<Operation>) {
    forall op :: op in ops ==> IsInt64(op.Duration())
  }

  /** The one endpoint all operations went to, or the empty string. */
  function HostOf(ops: seq<Operation>): string {
    if |ops| > 0 && forall op :: op in ops ==> op.endpoint == ops[0].endpoint then ops[0].endpoint else ""
  }

  /** The empty segment for the window [start, start + so.perSegDuration). */
  function Blank(ops: seq<Operation>, so: SegmentOptions, start: Time): Segment {
    Segment(if so.multiOp then "" else FirstOpType(ops), HostOf(ops),
            if so.multiOp then 0 else FirstObjPerOp(ops),
            0, 0, 0, 0, 0, 0.0, 0, 0.0, start, start + so.perSegDuration)
  }

  // ----- the plain form -----------------------------------------------------------

  /** Every operation is aggregated, in order. */
  function Fold(s: Segment, ops: seq<Operation>): Result<Segment> {
    if |ops| == 0 then Ok(s)
    else
      match Fold(s, ops[..|ops| - 1])
      case Panic => Panic
      case Ok(t) =>
        var op := ops[|ops| - 1];
        if Panics(t, op) then Panic else Ok(Add(t, op))
  }

  /** The request time turns from a sum into an average over the operations ended. */
  function Averaged(s: Segment): Segment {
    if s.opsEnded > 0 then s.(reqAvg := s.reqAvg / s.opsEnded as real) else s
  }

  function Finish(r: Result<Segment>): Result<Segment> {
    if r.Ok? then Ok(Averaged(r.value)) else Panic
  }

  function PlainTotals(ops: seq<Operation>, s: Segment): Result<Segment> {
    Finish(Fold(s, ops))
  }

  // ----- the fast form ------------------------------------------------------------

  /** The length of the leading run of operations ended by time t. */
  function EndedRun(ops: seq<Operation>, t: Time): (n: nat)
    ensures n <= |ops|
    ensures forall i :: 0 <= i < n ==> ops[i].end <= t
    ensures n < |ops| ==> t < ops[n].end
  {
    if |ops| == 0 || t < ops[0].end then 0 else 1 + EndedRun(ops[1..], t)
  }

  /** Where aggregation begins: at the last operation of the leading ended run. */
  function FirstEntry(ops: seq<Operation>, t: Time): (n: nat)
    ensures n <= |ops| && (n == |ops| ==> n == 0)
    ensures |ops| == 0 || t < ops[0].end ==> n == 0
    ensures |ops| > 0 && ops[0].end <= t ==>
      && (forall i :: 0 <= i <= n ==> ops[i].end <= t)
      && (n + 1 < |ops| ==> t < ops[n + 1].end)
  {
    if EndedRun(ops, t) == 0 then 0 else EndedRun(ops, t) - 1
  }

  function FastTotals(ops: seq<Operation>, s: Segment): Result<Segment> {
    Finish(Fold(s, ops[FirstEntry(ops, s.start)..]))
  }

  // ----- the windows ----------------------------------------------------------------

  /** How many windows of length d, from `from` on, end strictly before `end`. */
  function WindowCount(from: Time, end: Time, d: int): nat
    requires d > 0
  {
    if end <= from then 0
    else
      assert (end - 1 - from) / d >= 0 by { DivMonotone(0, end - 1 - from, d); DivUnique(0, d, 0); }
      (end - 1 - from) / d
  }

  function WindowStart(from: Time, d: int, k: nat): Time {
    from + k * d
  }

  /** The empty segment k windows after s. */
  function Shift(s: Segment, k: nat): Segment {
    var d := s.endsBefore - s.start;
    s.(start := WindowStart(s.start, d, k), endsBefore := WindowStart(s.start, d, k) + d)
  }

  /** The first empty segment of the run. */
  ghost function FirstBlank(ops: seq<Operation>, so: SegmentOptions): Segment {
    Blank(ops, so, Max(Active(ops, so.allThreads).0, so.from))
  }

  ghost function SegmentCount(ops: seq<Operation>, so: SegmentOptions): nat {
    if so.perSegDuration <= 0 then 0
    else WindowCount(FirstBlank(ops, so).start, Active(ops, so.allThreads).1, so.perSegDuration)
  }

  /** `segs` are the segments of the first |segs| windows from `first` on. */
  ghost predicate AreSegments(ops: seq<Operation>, first: Segment, segs: seq<Segment>) {
    forall k :: 0 <= k < |segs| ==> FastTotals(ops, Shift(first, k)) == Ok(segs[k])
  }

  /** One of the first n windows from `first` on makes the program panic. */
  ghost predicate SomePanic(ops: seq<Operation>, first: Segment, n: nat) {
    exists k :: 0 <= k < n && FastTotals(ops, Shift(first, k)) == Panic
  }

  // ----- the loops ------------------------------------------------------------------

  lemma {:induction false} FoldKeepsWindow(s: Segment, ops: seq<Operation>)
    ensures var r := Fold(s, ops);
      r.Ok? ==> r.value.start == s.start && r.value.endsBefore == s.endsBefore && r.value.opType == s.opType
                && r.value.host == s.host
  {
    if |ops| > 0 {
      FoldKeepsWindow(s, ops[..|ops| - 1]);
    }
  }

  lemma AddUntouched(s: Segment, op: Operation)
    requires !s.Touches(op)
    ensures Add(s, op) == s && !Panics(s, op)
  {
  }

  lemma {:induction false} FoldIgnoresUntouched(s: Segment, ops: seq<Operation>, rest: seq<Operation>)
    requires forall op :: op in rest ==> !s.Touches(op)
    ensures Fold(s, ops + rest) == Fold(s, ops)
  {
    if |rest| == 0 {
      assert ops + rest == ops;
    } else {
      var init, last := rest[..|rest| - 1], rest[|rest| - 1];
      assert (ops + rest)[..|ops + rest| - 1] == ops + init;
      assert last in rest && forall op :: op in init ==> op in rest;
      FoldIgnoresUntouched(s, ops, init);
      FoldKeepsWindow(s, ops);
      if Fold(s, ops).Ok? {
        AddUntouched(Fold(s, ops).value, last);
      }
    }
  }

  lemma {:induction false} FoldPanicPersists(s: Segment, ops: seq<Operation>, rest: seq<Operation>)
    requires Fold(s, ops).Panic?
    ensures Fold(s, ops + rest).Panic?
  {
    if |rest| == 0 {
      assert ops + rest == ops;
    } else {
      FoldPanicPersists(s, ops, rest[..|rest| - 1]);
      assert (ops + rest)[..|ops + rest| - 1] == ops + rest[..|rest| - 1];
    }
  }

  /** The search for the entry to begin with. */
  method FindFirst(ops: seq<Operation>, t: Time) returns (first: nat)
    ensures first == FirstEntry(ops, t)
  {
    first := 0;
    var i := 0;
    while i < |ops| && ops[i].end <= t
      invariant i <= |ops|
      invariant i + EndedRun(ops[i..], t) == EndedRun(ops, t)
      invariant first == if i == 0 then 0 else i - 1
    {
      assert ops[i..][1..] == ops[i + 1..];
      first := i;
      i := i + 1;
    }
  }

  /** One segment: skip the leading ended run but its last operation, and stop at
      the first operation that starts after the window. */
  method FillSegment(ops: seq<Operation>, blank: Segment) returns (r: Result<Segment>)
    requires SortedByStart(ops) && Int64Durations(ops)
    requires blank.start < blank.endsBefore
    ensures r == FastTotals(ops, blank)
  {
    var s := new SegmentRef(blank);
    var first := FindFirst(ops, s.start);
    var panicked := AggregateFrom(s, ops, first, blank);
    if panicked {
      return Panic;
    }
    FinishRef(s);
    r := Ok(s.Value());
  }

  method FinishRef(s: SegmentRef)
    modifies s
    ensures s.Value() == Averaged(old(s.Value()))
  {
    if s.opsEnded > 0 {
      s.reqAvg := s.reqAvg / s.opsEnded as real;
    }
  }

  /** The loop that aggregates, up to the first operation after the window. */
  method AggregateFrom(s: SegmentRef, ops: seq<Operation>, first: nat, ghost blank: Segment) returns (panicked: bool)
    requires SortedByStart(ops) && Int64Durations(ops) && first <= |ops|
    requires s.Value() == blank && blank.start < blank.endsBefore
    modifies s
    ensures Fold(blank, ops[first..]) == if panicked then Panic else Ok(s.Value())
  {
    var j := first;
    assert ops[first..j] == [];
    while j < |ops|
      invariant first <= j <= |ops|
      invariant Fold(blank, ops[first..j]) == Ok(s.Value())
      invariant s.start == blank.start && s.endsBefore == blank.endsBefore
    {
      SliceNext(ops, first, j);
      var o := AggregateNext(s, blank, ops[first..j], ops[j]);
      j := j + 1;
      if o.Panicked? {
        PanicInside(blank, ops, first, j);
        return true;
      }
      if o.done {
        break;
      }
    }
    RestUntouched(ops, blank, first, j);
    return false;
  }

  lemma SliceNext(ops: seq<Operation>, first: nat, j: nat)
    requires first <= j < |ops|
    ensures ops[first..j + 1] == ops[first..j] + [ops[j]] && ops[j] in ops
  {
  }

  lemma PanicInside(s: Segment, ops: seq<Operation>, first: nat, j: nat)
    requires first <= j <= |ops| && Fold(s, ops[first..j]).Panic?
    ensures Fold(s, ops[first..]).Panic?
  {
    assert ops[first..] == ops[first..j] + ops[j..];
    FoldPanicPersists(s, ops[first..j], ops[j..]);
  }

  /** One more operation. */
  method AggregateNext(s: SegmentRef, ghost blank: Segment, ghost before: seq<Operation>, op: Operation) returns (o: Outcome)
    requires Fold(blank, before) == Ok(s.Value())
    requires s.start == blank.start && s.endsBefore == blank.endsBefore && blank.start < blank.endsBefore
    requires IsInt64(op.Duration())
    modifies s
    ensures Fold(blank, before + [op]) == if o.Panicked? then Panic else Ok(s.Value())
    ensures o.Returned? ==> (o.done <==> blank.endsBefore <= op.start)
    ensures s.start == blank.start && s.endsBefore == blank.endsBefore
  {
    FoldOneMore(blank, before, op);
    o := s.Aggregate(op);
  }

  lemma FoldOneMore(s: Segment, before: seq<Operation>, op: Operation)
    ensures Fold(s, before + [op]) ==
      var t := Fold(s, before);
      if t.Panic? || Panics(t.value, op) then Panic else Ok(Add(t.value, op))
  {
    assert (before + [op])[..|before|] == before;
  }

  /** Nothing after the last operation looked at touches the window. */
  lemma RestUntouched(ops: seq<Operation>, blank: Segment, first: nat, j: nat)
    requires SortedByStart(ops) && first <= j <= |ops|
    requires j == |ops| || (j > first && blank.endsBefore <= ops[j - 1].start)
    ensures Fold(blank, ops[first..j]) == Fold(blank, ops[first..])
  {
    assert ops[first..] == ops[first..j] + ops[j..];
    forall op | op in ops[j..] ensures !blank.Touches(op) {
      var k :| j <= k < |ops| && ops[k] == op;
    }
    FoldIgnoresUntouched(blank, ops[first..j], ops[j..]);
  }

  /** The loop reaches exactly the windows that `WindowCount` counts. */
  lemma CountIff(from: Time, end: Time, d: int, k: nat)
    requires d > 0
    ensures WindowStart(from, d, k) < end - d <==> k < WindowCount(from, end, d)
  {
    var x := end - 1 - from;
    if end > from {
      var n := x / d;
      assert n * d <= x < n * d + d;
      if k < n {
        MulMonotone(d, k + 1, n);
      } else {
        MulMonotone(d, n, k);
      }
    } else {
      MulMonotone(d, 0, k);
    }
  }

  /** The windows follow each other without gap, all end strictly before the end of
      the active range, and no further one would. */
  lemma WindowsTile(ops: seq<Operation>, so: SegmentOptions, k: nat)
    requires so.perSegDuration > 0
    ensures var (first, end) := (FirstBlank(ops, so), Active(ops, so.allThreads).1);
      && Shift(first, 0) == first
      && Shift(first, k).endsBefore == Shift(first, k + 1).start
      && (Shift(first, k).endsBefore < end <==> k < SegmentCount(ops, so))
  {
    var first := FirstBlank(ops, so);
    CountIff(first.start, Active(ops, so.allThreads).1, so.perSegDuration, k);
    NextWindow(first.start, so.perSegDuration, k);
  }

  lemma NextWindow(from: Time, d: int, k: nat)
    ensures WindowStart(from, d, 0) == from
    ensures WindowStart(from, d, k + 1) == WindowStart(from, d, k) + d
  {
  }

  method Segments(o: array<Operation>, so: SegmentOptions) returns (r: Result<seq<Segment>>)
    requires Int64Durations(o[..])
    modifies o
    ensures SortedByStart(o[..]) && multiset(o[..]) == multiset(old(o[..]))
    ensures SortedByStart(old(o[..])) ==> o[..] == old(o[..])
    ensures r.Ok? ==> |r.value| == SegmentCount(o[..], so) && AreSegments(o[..], FirstBlank(o[..], so), r.value)
    ensures r.Panic? ==> SomePanic(o[..], FirstBlank(o[..], so), SegmentCount(o[..], so))
  {
    ghost var recorded := o[..];
    SortByStartTime(o);
    var ops := o[..];
    SameMembers(recorded, ops);
    if so.perSegDuration <= 0 {
      return Ok([]);
    }
    r := SegmentsOfSorted(ops, so);
    assert o[..] == ops;
  }

  method SegmentsOfSorted(ops: seq<Operation>, so: SegmentOptions) returns (r: Result<seq<Segment>>)
    requires SortedByStart(ops) && Int64Durations(ops) && so.perSegDuration > 0
    ensures r.Ok? ==> |r.value| == SegmentCount(ops, so) && AreSegments(ops, FirstBlank(ops, so), r.value)
    ensures r.Panic? ==> SomePanic(ops, FirstBlank(ops, so), SegmentCount(ops, so))
  {
    var start, end := ActiveTimeRange(ops, so.allThreads);
    var first := Blank(ops, so, Max(start, so.from));
    CountFromBlank(ops, so, first, end);
    r := SegmentsFrom(ops, first, end);
  }

  lemma CountFromBlank(ops: seq<Operation>, so: SegmentOptions, first: Segment, end: Time)
    requires so.perSegDuration > 0 && end == Active(ops, so.allThreads).1
    requires first == Blank(ops, so, Max(Active(ops, so.allThreads).0, so.from))
    ensures first == FirstBlank(ops, so) && first.endsBefore - first.start == so.perSegDuration
    ensures WindowCount(first.start, end, first.endsBefore - first.start) == SegmentCount(ops, so)
  {
  }

  ghost predicate SmallSizes(ops: seq<Operation>) {
    forall op :: op in ops ==> Moderate(op)
  }

  lemma {:induction false} FoldDoesNotPanic(s: Segment, ops: seq<Operation>)
    requires s.start < s.endsBefore && SmallSizes(ops)
    ensures Fold(s, ops).Ok?
  {
    if |ops| > 0 {
      var init, last := ops[..|ops| - 1], ops[|ops| - 1];
      assert last in ops && forall op :: op in init ==> op in ops;
      FoldDoesNotPanic(s, init);
      FoldKeepsWindow(s, init);
      SmallOpsDoNotPanic(Fold(s, init).value, last);
    }
  }

  /** Runs whose operations keep size times duration below 2^63 never panic. */
  lemma SmallRunsDoNotPanic(ops: seq<Operation>, first: Segment, n: nat)
    requires first.start < first.endsBefore && SmallSizes(ops)
    ensures !SomePanic(ops, first, n)
  {
    forall k | 0 <= k < n ensures FastTotals(ops, Shift(first, k)).Ok? {
      var s := Shift(first, k);
      var rest := ops[FirstEntry(ops, s.start)..];
      assert forall op :: op in rest ==> op in ops;
      FoldDoesNotPanic(s, rest);
    }
  }

  lemma PanicWitness(ops: seq<Operation>, first: Segment, k: nat, n: nat)
    requires k < n && FastTotals(ops, Shift(first, k)) == Panic
    ensures SomePanic(ops, first, n)
  {
  }

  /** The loop over the windows, from an empty first segment to the active end. */
  method SegmentsFrom(ops: seq<Operation>, first: Segment, end: Time) returns (r: Result<seq<Segment>>)
    requires SortedByStart(ops) && Int64Durations(ops)
    requires first.start < first.endsBefore
    ensures var n := WindowCount(first.start, end, first.endsBefore - first.start);
      && (r.Ok? ==> |r.value| == n && AreSegments(ops, first, r.value))
      && (r.Panic? ==> SomePanic(ops, first, n))
  {
    var d := first.endsBefore - first.start;
    var segments: seq<Segment> := [];
    var segStart := first.start;
    while segStart < end - d
      invariant segStart == WindowStart(first.start, d, |segments|)
      invariant |segments| <= WindowCount(first.start, end, d)
      invariant AreSegments(ops, first, segments)
      decreases end - segStart
    {
      assert first.(start := segStart, endsBefore := segStart + d) == Shift(first, |segments|);
      var s := FillSegment(ops, first.(start := segStart, endsBefore := segStart + d));
      CountIff(first.start, end, d, |segments|);
      NextWindow(first.start, d, |segments|);
      if s.Panic? {
        PanicWitness(ops, first, |segments|, WindowCount(first.start, end, d));
        return Panic;
      }
      segments := segments + [s.value];
      segStart := segStart + d;
    }
    CountIff(first.start, end, d, |segments|);
    r := Ok(segments);
  }
}
