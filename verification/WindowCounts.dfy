/** What the counters of one segment mean, told by the times, types and error texts
    of the operations alone (`Operation.Aggregate` in pkg/bench/ops.go). */
module WindowCounts {
  import opened Basics
  import opened Arithmetic
  import opened Operations
  import opened ActiveRange
  import opened Aggregate
  import opened Segmentation
  import opened FastForm
  import opened Conservation
  import Totals

  // ----- operations and windows ------------------------------------------------------

  predicate Meets(s: Segment, op: Operation) {
    (s.opType == "" || op.opType == s.opType) && op.start < s.endsBefore && s.start <= op.end
  }

  /** Begins and ends inside the window. */
  predicate Inside(s: Segment, op: Operation) {
    Meets(s, op) && s.start <= op.start && op.end < s.endsBefore
  }

  function Meeting(s: Segment): Operation -> bool {
    (op: Operation) => Meets(s, op)
  }

  function Whole(s: Segment): Operation -> bool {
    (op: Operation) => Inside(s, op) && op.err == ""
  }

  function FailedInside(s: Segment): Operation -> bool {
    (op: Operation) => Inside(s, op) && op.err != ""
  }

  function Crossing(s: Segment): Operation -> bool {
    (op: Operation) => Meets(s, op) && !Inside(s, op)
  }

  function EndingWell(s: Segment): Operation -> bool {
    (op: Operation) => Meets(s, op) && op.end < s.endsBefore && op.err == ""
  }

  /** Fails in the window after having started before it. */
  function FailingLate(s: Segment): Operation -> bool {
    (op: Operation) => Meets(s, op) && op.end < s.endsBefore && op.start < s.start && op.err != ""
  }

  /** The total duration of the successes that end in the window. */
  function EndingTime(s: Segment, ops: seq<Operation>): int {
    if |ops| == 0 then 0
    else EndingTime(s, ops[..|ops| - 1]) + if EndingWell(s)(ops[|ops| - 1]) then ops[|ops| - 1].end - ops[|ops| - 1].start else 0
  }

  /** The number of objects of the last operation inside the window that succeeded. */
  function LastObjects(s: Segment, ops: seq<Operation>, before: int): int {
    if |ops| == 0 then before
    else if Whole(s)(ops[|ops| - 1]) then ops[|ops| - 1].objPerOp
    else LastObjects(s, ops[..|ops| - 1], before)
  }

  // ----- one segment ----------------------------------------------------------------------

  function InMillis(t: int): real {
    t as real / 1000000.0
  }

  lemma AddMillis(a: int, b: int)
    ensures InMillis(a) + InMillis(b) == InMillis(a + b)
  {
  }

  /** The counters of a segment that every operation was aggregated into. */
  ghost predicate CountsWindow(s: Segment, ops: seq<Operation>, u: Segment) {
    && u.fullOps == s.fullOps + NumberOf(ops, Whole(s))
    && u.partialOps == s.partialOps + NumberOf(ops, Crossing(s))
    && u.opsEnded == s.opsEnded + NumberOf(ops, EndingWell(s)) + NumberOf(ops, FailingLate(s))
    && u.reqAvg == s.reqAvg + InMillis(EndingTime(s, ops))
    && u.objsPerOp == LastObjects(s, ops, s.objsPerOp)
  }

  lemma AddCounts(s: Segment, t: Segment, op: Operation)
    requires SameWindow(s, t)
    ensures var u := Add(t, op);
      && u.fullOps == t.fullOps + Count(Whole(s)(op))
      && u.partialOps == t.partialOps + Count(Crossing(s)(op))
      && u.opsEnded == t.opsEnded + Count(EndingWell(s)(op)) + Count(FailingLate(s)(op))
      && u.reqAvg == t.reqAvg + InMillis(if EndingWell(s)(op) then op.end - op.start else 0)
      && u.objsPerOp == (if Whole(s)(op) then op.objPerOp else t.objsPerOp)
  {
  }

  lemma {:induction false} FoldCounts(s: Segment, ops: seq<Operation>)
    requires Fold(s, ops).Ok?
    ensures CountsWindow(s, ops, Fold(s, ops).value)
  {
    if |ops| > 0 {
      var init, last := ops[..|ops| - 1], ops[|ops| - 1];
      FoldCounts(s, init);
      FoldKeepsWindow(s, init);
      AddCounts(s, Fold(s, init).value, last);
      AddMillis(EndingTime(s, init), if EndingWell(s)(last) then last.end - last.start else 0);
    }
  }

  /** Every operation that meets the window is full, partial, or failed inside it. */
  lemma {:induction false} MeetingSplits(s: Segment, ops: seq<Operation>)
    ensures NumberOf(ops, Meeting(s)) ==
      NumberOf(ops, Whole(s)) + NumberOf(ops, Crossing(s)) + NumberOf(ops, FailedInside(s))
  {
    if |ops| > 0 {
      MeetingSplits(s, ops[..|ops| - 1]);
    }
  }

  /** So full and partial operations and failures inside the window make up those that
      meet it. */
  lemma FullAndPartial(s: Segment, ops: seq<Operation>)
    requires IsEmptySegment(s) && Fold(s, ops).Ok?
    ensures var u := Fold(s, ops).value;
      u.fullOps + u.partialOps + NumberOf(ops, FailedInside(s)) == NumberOf(ops, Meeting(s))
  {
    FoldCounts(s, ops);
    MeetingSplits(s, ops);
  }

  // ----- the average request time --------------------------------------------------------

  lemma {:induction false} NoneEnds(s: Segment, ops: seq<Operation>)
    requires NumberOf(ops, EndingWell(s)) == 0
    ensures EndingTime(s, ops) == 0
  {
    if |ops| > 0 {
      NoneEnds(s, ops[..|ops| - 1]);
    }
  }

  /** A share of the sum, nothing for no shares. */
  function PerOperation(sum: real, n: int): real {
    if n > 0 then sum / n as real else 0.0
  }

  lemma AveragedIs(u: Segment, sum: real)
    requires u.reqAvg == sum && (u.opsEnded <= 0 ==> sum == 0.0)
    ensures Averaged(u).reqAvg == PerOperation(sum, u.opsEnded)
  {
  }

  /** The average request time is the request time of the successes that ended in the
      window over the number of operations ended, late failures among them. */
  lemma AverageIs(s: Segment, ops: seq<Operation>)
    requires IsEmptySegment(s) && PlainTotals(ops, s).Ok?
    ensures var u := PlainTotals(ops, s).value;
      && u.opsEnded == NumberOf(ops, EndingWell(s)) + NumberOf(ops, FailingLate(s))
      && u.reqAvg == PerOperation(InMillis(EndingTime(s, ops)), u.opsEnded)
  {
    FoldCounts(s, ops);
    if NumberOf(ops, EndingWell(s)) == 0 {
      NoneEnds(s, ops);
    }
    AveragedIs(Fold(s, ops).value, InMillis(EndingTime(s, ops)));
  }

  /** It is the mean of those successes exactly when no operation fails in the window
      that started before it, or all of them took no time. */
  lemma AverageIsMeanIff(s: Segment, ops: seq<Operation>)
    requires IsEmptySegment(s) && PlainTotals(ops, s).Ok? && NumberOf(ops, EndingWell(s)) > 0
    ensures var (avg, n) := (PlainTotals(ops, s).value.reqAvg, NumberOf(ops, EndingWell(s)));
      avg == PerOperation(InMillis(EndingTime(s, ops)), n) <==> NumberOf(ops, FailingLate(s)) == 0 || EndingTime(s, ops) == 0
  {
    AverageIs(s, ops);
    MoreShares(InMillis(EndingTime(s, ops)), NumberOf(ops, EndingWell(s)), NumberOf(ops, FailingLate(s)));
    NoMillis(EndingTime(s, ops));
  }

  lemma NoMillis(t: int)
    ensures InMillis(t) == 0.0 <==> t == 0
  {
  }

  lemma MoreShares(sum: real, n: int, more: int)
    requires n > 0 && more >= 0
    ensures PerOperation(sum, n + more) == PerOperation(sum, n) <==> more == 0 || sum == 0.0
  {
    var a, b := sum / n as real, sum / (n + more) as real;
    assert a * n as real == sum && b * (n + more) as real == sum;
    assert b * (n + more) as real == b * n as real + b * more as real;
    if a == b && more > 0 {
      assert b * more as real == 0.0;
      NoFactor(b, more as real);
      assert 0.0 * n as real == 0.0;
    }
  }

  lemma NoFactor(a: real, b: real)
    requires a * b == 0.0 && b > 0.0
    ensures a == 0.0
  {
  }

  // ----- the segments of a run --------------------------------------------------------------

  /** The k-th window of a run: its times, type and endpoint. */
  lemma SegmentLabels(ops: seq<Operation>, so: SegmentOptions, segs: seq<Segment>, k: nat)
    requires so.perSegDuration > 0 && k < |segs| && AreSegments(ops, FirstBlank(ops, so), segs)
    ensures var (first, s) := (FirstBlank(ops, so), segs[k]);
      && s.start == first.start + k * so.perSegDuration && s.endsBefore == s.start + so.perSegDuration
      && s.opType == first.opType && s.host == HostOf(ops) && SameWindow(Shift(first, k), s)
  {
    assert FastTotals(ops, Shift(FirstBlank(ops, so), k)) == Ok(segs[k]);
    FastKeepsWindow(ops, Shift(FirstBlank(ops, so), k));
  }

  /** The operations the k-th segment holds in full and, when no operation ends on the
      start of a window, those that run across its borders and their request time. */
  lemma SegmentCounts(ops: seq<Operation>, first: Segment, segs: seq<Segment>, k: nat)
    requires first.start < first.endsBefore && IsEmptySegment(first)
    requires PositiveDurations(ops) && NonNegativeSizes(ops) && k < |segs| && AreSegments(ops, first, segs)
    ensures var s := segs[k];
      && s.fullOps == NumberOf(ops, Whole(s))
      && s.objsPerOp == LastObjects(s, ops, first.objsPerOp)
      && (NoneEndsOnStart(ops, first, |segs|) ==>
          && s.partialOps == NumberOf(ops, Crossing(s))
          && s.reqAvg == PerOperation(InMillis(EndingTime(s, ops)), s.opsEnded))
  {
    var blank := Shift(first, k);
    ShiftIsWindow(first, k);
    PlainOfSegment(ops, first, segs, k);
    assert FastTotals(ops, blank) == Ok(segs[k]);
    FastKeepsWindow(ops, blank);
    SameWindowCounts(blank, segs[k], ops, first.objsPerOp);
    FastCounts(blank, ops, segs[k]);
    if NoneEndsOnStart(ops, first, |segs|) {
      PlainCounts(blank, ops, segs[k]);
    }
  }

  lemma FastCounts(blank: Segment, ops: seq<Operation>, s: Segment)
    requires blank.start < blank.endsBefore && IsEmptySegment(blank)
    requires PositiveDurations(ops) && NonNegativeSizes(ops) && FastTotals(ops, blank) == Ok(s)
    ensures s.fullOps == NumberOf(ops, Whole(blank)) && s.objsPerOp == LastObjects(blank, ops, blank.objsPerOp)
  {
    SkippedIsEnded(blank, ops);
    FastKeepsSizes(blank, ops);
    FoldCounts(blank, ops);
  }

  lemma PlainCounts(blank: Segment, ops: seq<Operation>, s: Segment)
    requires IsEmptySegment(blank) && PlainTotals(ops, blank) == Ok(s)
    ensures s.partialOps == NumberOf(ops, Crossing(blank))
    ensures s.reqAvg == PerOperation(InMillis(EndingTime(blank, ops)), s.opsEnded)
  {
    FoldCounts(blank, ops);
    AverageIs(blank, ops);
  }

  lemma FastKeepsWindow(ops: seq<Operation>, s: Segment)
    ensures var r := FastTotals(ops, s);
      r.Ok? ==> SameWindow(r.value, s) && r.value.host == s.host
  {
    FoldKeepsWindow(s, ops[FirstEntry(ops, s.start)..]);
  }

  /** What is counted depends on the window only. */
  lemma {:induction false} SameWindowCounts(s: Segment, t: Segment, ops: seq<Operation>, before: int)
    requires SameWindow(s, t)
    ensures NumberOf(ops, Whole(s)) == NumberOf(ops, Whole(t))
    ensures NumberOf(ops, Crossing(s)) == NumberOf(ops, Crossing(t))
    ensures EndingTime(s, ops) == EndingTime(t, ops)
    ensures LastObjects(s, ops, before) == LastObjects(t, ops, before)
  {
    if |ops| > 0 {
      SameWindowCounts(s, t, ops[..|ops| - 1], before);
    }
  }

  // ----- the total ------------------------------------------------------------------------------

  /** The total of a run with at least two active nanoseconds: it covers the active
      range but its last nanosecond, and holds the bytes, starts, ends, failures and
      full operations of every type when types overlap, and of the first type when
      they do not. */
  lemma TotalOfRun(recorded: seq<Operation>, sorted: seq<Operation>, allThreads: bool, total: Segment)
    requires multiset(sorted) == multiset(recorded)
    requires allThreads || (SortedByStart(recorded) && sorted == recorded)
    requires PositiveDurations(recorded) && AllMeasurable(recorded)
    requires Active(recorded, allThreads).0 + 1 < Active(recorded, allThreads).1
    requires Totals.IsFirstSegment(sorted, Totals.TotalOptions(recorded, allThreads), Ok(total))
    ensures PositiveDurations(sorted)
    ensures var ((start, end), first) :=
        (Active(recorded, allThreads), FirstBlank(sorted, Totals.TotalOptions(recorded, allThreads)));
      && total.start == first.start == start && total.endsBefore == first.endsBefore == end - 1
      && SumsAreOf(sorted, (op: Operation) => Totals.Mixed(recorded) || sorted[0].opType == "" || op.opType == sorted[0].opType,
                   first, [total])
      && total.fullOps == NumberOf(sorted, Whole(total))
  {
    var so := Totals.TotalOptions(recorded, allThreads);
    var first := FirstBlank(sorted, so);
    SameMembers(recorded, sorted);
    Totals.TotalIsOneSegment(recorded, sorted, allThreads);
    FirstBlankIs(sorted, so);
    Totals.FirstShift(first);
    FastKeepsWindow(sorted, first);
    assert |sorted| > 0;
    SumsAreOfSelected(sorted, (op: Operation) => Totals.Mixed(recorded) || sorted[0].opType == "" || op.opType == sorted[0].opType,
                      first, [total]);
    SegmentCounts(sorted, first, [total], 0);
  }
}
