/** The prefix skip and the early exit of `Segment` against a plain fold over all
    operations (pkg/bench/analyze.go). */
module FastForm {
  import opened Basics
  import opened Operations
  import opened Aggregate
  import opened Segmentation
  import Float64

  ghost predicate NonNegativeSizes(ops: seq<Operation>) {
    forall op :: op in ops ==> 0 <= op.size
  }

  /** What the fast form leaves out: the entries before the first one it looks at. */
  function Skipped(s: Segment, ops: seq<Operation>): seq<Operation> {
    ops[..FirstEntry(ops, s.start)]
  }

  function Touching(s: Segment): Operation -> bool {
    (op: Operation) => s.Touches(op)
  }

  function FailedTouching(s: Segment): Operation -> bool {
    (op: Operation) => s.Touches(op) && op.Failed()
  }

  /** Touches the window and lasts for some time. */
  function Lasting(s: Segment): Operation -> bool {
    (op: Operation) => s.Touches(op) && op.start < op.end
  }

  /** Touches the window, succeeded, and began and ended at the same instant. */
  function Instant(s: Segment): Operation -> bool {
    (op: Operation) => s.Touches(op) && op.start == op.end && !op.Failed()
  }

  /** The same with bytes to lose. */
  function InstantWithBytes(s: Segment): Operation -> bool {
    (op: Operation) => Instant(s)(op) && op.size > 0
  }

  function InstantBytes(s: Segment, ops: seq<Operation>): int {
    if |ops| == 0 then 0
    else InstantBytes(s, ops[..|ops| - 1]) + if Instant(s)(ops[|ops| - 1]) then ops[|ops| - 1].size else 0
  }

  function InstantObjects(s: Segment, ops: seq<Operation>): real {
    if |ops| == 0 then 0.0
    else InstantObjects(s, ops[..|ops| - 1]) + if Instant(s)(ops[|ops| - 1]) then ops[|ops| - 1].objPerOp as real else 0.0
  }

  /** The request time of the operations that end in the window. */
  function EndingMillis(s: Segment, ops: seq<Operation>): real {
    if |ops| == 0 then 0.0 else EndingMillis(s, ops[..|ops| - 1]) + Millis(s, ops[|ops| - 1])
  }

  // ----- folding from different totals ----------------------------------------------

  predicate SameWindow(s: Segment, t: Segment) {
    s.start == t.start && s.endsBefore == t.endsBefore && s.opType == t.opType
  }

  /** From s to s' every total grows by as much as from t to t'. */
  predicate SameGains(s: Segment, s': Segment, t: Segment, t': Segment) {
    && s'.totalBytes - s.totalBytes == t'.totalBytes - t.totalBytes
    && s'.fullOps - s.fullOps == t'.fullOps - t.fullOps
    && s'.partialOps - s.partialOps == t'.partialOps - t.partialOps
    && s'.opsStarted - s.opsStarted == t'.opsStarted - t.opsStarted
    && s'.opsEnded - s.opsEnded == t'.opsEnded - t.opsEnded
    && s'.errors - s.errors == t'.errors - t.errors
    && s'.objects - s.objects == t'.objects - t.objects
    && s'.reqAvg - s.reqAvg == t'.reqAvg - t.reqAvg
    && (s.objsPerOp == t.objsPerOp ==> s'.objsPerOp == t'.objsPerOp)
  }

  lemma AddGains(s: Segment, t: Segment, op: Operation)
    requires SameWindow(s, t)
    ensures Panics(s, op) == Panics(t, op)
    ensures SameGains(s, Add(s, op), t, Add(t, op))
  {
  }

  lemma GainsAddUp(s: Segment, s': Segment, s'': Segment, t: Segment, t': Segment, t'': Segment)
    requires SameGains(s, s', t, t') && SameGains(s', s'', t', t'')
    ensures SameGains(s, s'', t, t'')
  {
  }

  /** What a fold adds does not depend on the totals it starts from. */
  lemma {:induction false} FoldGains(s: Segment, t: Segment, ops: seq<Operation>)
    requires SameWindow(s, t)
    ensures Fold(s, ops).Panic? == Fold(t, ops).Panic?
    ensures Fold(s, ops).Ok? ==> SameGains(s, Fold(s, ops).value, t, Fold(t, ops).value)
  {
    if |ops| > 0 {
      var init, last := ops[..|ops| - 1], ops[|ops| - 1];
      FoldGains(s, t, init);
      FoldKeepsWindow(s, init);
      FoldKeepsWindow(t, init);
      if Fold(s, init).Ok? {
        var s', t' := Fold(s, init).value, Fold(t, init).value;
        AddGains(s', t', last);
        GainsAddUp(s, s', Add(s', last), t, t', Add(t', last));
      }
    }
  }

  lemma {:induction false} FoldAppend(s: Segment, a: seq<Operation>, b: seq<Operation>)
    ensures Fold(s, a + b) == if Fold(s, a).Ok? then Fold(Fold(s, a).value, b) else Panic
  {
    if |b| == 0 {
      assert a + b == a;
    } else {
      assert (a + b)[..|a + b| - 1] == a + b[..|b| - 1];
      FoldAppend(s, a, b[..|b| - 1]);
    }
  }

  // ----- operations ended by the window's start --------------------------------------

  /** u is s with the contributions of operations that ended by the window's start:
      those that ended exactly then count, and those of no duration count in full. */
  predicate GainsEnded(s: Segment, ops: seq<Operation>, t: Segment, u: Segment) {
    && u.totalBytes == t.totalBytes + InstantBytes(s, ops)
    && u.objects == t.objects + InstantObjects(s, ops)
    && u.fullOps == t.fullOps + NumberOf(ops, Instant(s))
    && u.opsStarted == t.opsStarted + NumberOf(ops, Instant(s))
    && u.partialOps == t.partialOps + NumberOf(ops, Lasting(s))
    && u.opsEnded == t.opsEnded + NumberOf(ops, Lasting(s)) + NumberOf(ops, Instant(s))
    && u.errors == t.errors + NumberOf(ops, FailedTouching(s))
    && u.reqAvg == t.reqAvg + EndingMillis(s, ops)
    && (NumberOf(ops, Instant(s)) == 0 ==> u.objsPerOp == t.objsPerOp)
  }

  /** No part of a duration is no part of the bytes. */
  lemma ZeroShare(op: Operation)
    requires op.start < op.end && 0 <= op.size
    ensures PartSize(op.size, 0, op.Duration()) == 0 && ObjectShare(op, 0) == 0.0
  {
    assert op.size * 0 == 0;
    PartSizeIsShare(op.size, 0, op.Duration());
    assert op.objPerOp as real * 0.0 == 0.0;
  }

  lemma AddEnded(s: Segment, op: Operation)
    requires s.start < s.endsBefore && op.start <= op.end <= s.start && 0 <= op.size
    ensures !Panics(s, op)
    ensures Bytes(s, op) == if Instant(s)(op) then op.size else 0
    ensures Objects(s, op) == if Instant(s)(op) then op.objPerOp as real else 0.0
  {
    if op.start < op.end {
      assert Overlap(op, s.start, s.endsBefore) == 0;
      ZeroShare(op);
    }
  }

  lemma {:induction false} FoldEnded(s: Segment, ops: seq<Operation>)
    requires s.start < s.endsBefore && WellTimed(ops) && NonNegativeSizes(ops)
    requires forall op :: op in ops ==> op.end <= s.start
    ensures Fold(s, ops).Ok? && GainsEnded(s, ops, s, Fold(s, ops).value)
  {
    if |ops| > 0 {
      var init, last := ops[..|ops| - 1], ops[|ops| - 1];
      assert last in ops && forall op :: op in init ==> op in ops;
      FoldEnded(s, init);
      FoldKeepsWindow(s, init);
      AddEnded(s, last);
      GainsOneMore(s, init, last, ops, Fold(s, init).value);
    }
  }

  lemma GainsOneMore(s: Segment, init: seq<Operation>, last: Operation, ops: seq<Operation>, t: Segment)
    requires s.start < s.endsBefore && SameWindow(s, t) && last.start <= last.end <= s.start && 0 <= last.size
    requires |ops| > 0 && ops[..|ops| - 1] == init && ops[|ops| - 1] == last && GainsEnded(s, init, s, t)
    ensures !Panics(t, last) && GainsEnded(s, ops, s, Add(t, last))
  {
    AddEnded(t, last);
  }

  // ----- the refinement -----------------------------------------------------------------

  lemma SkippedIsEnded(s: Segment, ops: seq<Operation>)
    ensures forall op :: op in Skipped(s, ops) ==> op in ops && op.end <= s.start
    ensures ops == Skipped(s, ops) + ops[|Skipped(s, ops)|..]
  {
    var skipped := Skipped(s, ops);
    forall op | op in skipped ensures op.end <= s.start && op in ops {
      var i :| 0 <= i < |skipped| && skipped[i] == op;
      assert ops[i] == op;
    }
  }

  /** The plain fold panics exactly when the fast one does; otherwise it is the fast
      one plus what the skipped operations add that ended on the window's start. */
  lemma PlainIsFastPlusSkipped(s: Segment, ops: seq<Operation>)
    requires s.start < s.endsBefore && WellTimed(ops) && NonNegativeSizes(ops)
    ensures var (skipped, plain, fast) := (Skipped(s, ops), Fold(s, ops), Fold(s, ops[|Skipped(s, ops)|..]));
      && plain.Panic? == fast.Panic?
      && (plain.Ok? ==> GainsEnded(s, skipped, fast.value, plain.value) && SameWindow(plain.value, fast.value)
                        && plain.value.host == fast.value.host)
  {
    var skipped := Skipped(s, ops);
    var rest := ops[|skipped|..];
    SkippedIsEnded(s, ops);
    FoldEnded(s, skipped);
    FoldAppend(s, skipped, rest);
    var u := Fold(s, skipped).value;
    FoldKeepsWindow(s, skipped);
    FoldKeepsWindow(s, rest);
    FoldKeepsWindow(s, ops);
    FoldGains(s, u, rest);
    if Fold(s, rest).Ok? {
      ShiftGains(s, skipped, u, Fold(s, rest).value, Fold(u, rest).value);
    }
  }

  lemma ShiftGains(s: Segment, ops: seq<Operation>, u: Segment, fast: Segment, plain: Segment)
    requires GainsEnded(s, ops, s, u) && SameGains(s, fast, u, plain)
    ensures GainsEnded(s, ops, fast, plain)
  {
  }

  /** The shortcut changes nothing exactly when no skipped operation touches the
      window, and does not change the bytes exactly when none without duration that
      succeeded brings any. */
  lemma FastRefinesPlain(s: Segment, ops: seq<Operation>)
    requires s.start < s.endsBefore && WellTimed(ops) && NonNegativeSizes(ops)
    ensures var (skipped, plain, fast) := (Skipped(s, ops), PlainTotals(ops, s), FastTotals(ops, s));
      && plain.Panic? == fast.Panic?
      && (plain.Ok? ==>
          && (plain == fast <==> forall op :: op in skipped ==> !s.Touches(op))
          && (plain.value.totalBytes == fast.value.totalBytes <==>
              forall op :: op in skipped ==> !InstantWithBytes(s)(op)))
  {
    var skipped := Skipped(s, ops);
    SkippedIsEnded(s, ops);
    PlainIsFastPlusSkipped(s, ops);
    NoneIff(skipped, Touching(s));
    InstantBytesIff(s, skipped);
    if Fold(s, ops).Ok? {
      var fast, plain := Fold(s, ops[|skipped|..]).value, Fold(s, ops).value;
      SameTotals(s, skipped, fast, plain);
    }
  }

  /** When no skipped operation is without duration, bytes, objects, full and started
      operations agree, and the other counters differ by those that touch the window. */
  lemma FastKeepsSizes(s: Segment, ops: seq<Operation>)
    requires s.start < s.endsBefore && WellTimed(ops) && NonNegativeSizes(ops)
    requires forall op :: op in Skipped(s, ops) ==> op.start < op.end
    ensures var (skipped, plain, fast) := (Skipped(s, ops), PlainTotals(ops, s), FastTotals(ops, s));
      && plain.Panic? == fast.Panic?
      && (plain.Ok? ==>
          && plain.value.totalBytes == fast.value.totalBytes
          && plain.value.objects == fast.value.objects
          && plain.value.fullOps == fast.value.fullOps
          && plain.value.opsStarted == fast.value.opsStarted
          && plain.value.objsPerOp == fast.value.objsPerOp
          && plain.value.partialOps == fast.value.partialOps + NumberOf(skipped, Touching(s))
          && plain.value.opsEnded == fast.value.opsEnded + NumberOf(skipped, Touching(s))
          && plain.value.errors == fast.value.errors + NumberOf(skipped, FailedTouching(s)))
  {
    PlainIsFastPlusSkipped(s, ops);
    TouchingSplits(s, Skipped(s, ops));
    NoneIff(Skipped(s, ops), Instant(s));
    NoInstants(s, Skipped(s, ops));
    NoFailedInstants(s, Skipped(s, ops));
  }

  function FailedInstant(s: Segment): Operation -> bool {
    (op: Operation) => s.Touches(op) && op.start == op.end && op.Failed()
  }

  lemma {:induction false} TouchingSplits(s: Segment, ops: seq<Operation>)
    requires WellTimed(ops)
    ensures NumberOf(ops, Touching(s)) ==
      NumberOf(ops, Lasting(s)) + NumberOf(ops, Instant(s)) + NumberOf(ops, FailedInstant(s))
    ensures NumberOf(ops, FailedInstant(s)) <= NumberOf(ops, FailedTouching(s)) <= NumberOf(ops, Touching(s))
    ensures NumberOf(ops, Touching(s)) == 0 ==> EndingMillis(s, ops) == 0.0
  {
    if |ops| > 0 {
      var init, last := ops[..|ops| - 1], ops[|ops| - 1];
      assert last in ops && forall op :: op in init ==> op in ops;
      TouchingSplits(s, init);
    }
  }

  lemma {:induction false} InstantBytesIff(s: Segment, ops: seq<Operation>)
    requires NonNegativeSizes(ops)
    ensures InstantBytes(s, ops) >= 0
    ensures InstantBytes(s, ops) == 0 <==> forall op :: op in ops ==> !InstantWithBytes(s)(op)
  {
    if |ops| > 0 {
      var init, last := ops[..|ops| - 1], ops[|ops| - 1];
      assert last in ops && forall op :: op in ops <==> op in init || op == last by {
        assert ops == init + [last];
      }
      InstantBytesIff(s, init);
    }
  }

  lemma {:induction false} NoInstants(s: Segment, ops: seq<Operation>)
    requires NumberOf(ops, Instant(s)) == 0
    ensures InstantBytes(s, ops) == 0 && InstantObjects(s, ops) == 0.0
  {
    if |ops| > 0 {
      NoInstants(s, ops[..|ops| - 1]);
    }
  }

  lemma NoFailedInstants(s: Segment, ops: seq<Operation>)
    requires forall op :: op in ops ==> op.start < op.end
    ensures NumberOf(ops, FailedInstant(s)) == 0
  {
    NoneIff(ops, FailedInstant(s));
  }

  /** Averaging the request time neither hides nor makes a difference. */
  lemma SameTotals(s: Segment, ops: seq<Operation>, t: Segment, u: Segment)
    requires WellTimed(ops) && GainsEnded(s, ops, t, u) && SameWindow(t, u) && t.host == u.host
    ensures Averaged(t) == Averaged(u) <==> NumberOf(ops, Touching(s)) == 0
  {
    TouchingSplits(s, ops);
    if NumberOf(ops, Touching(s)) == 0 {
      NoInstants(s, ops);
    }
  }

  /** A skipped operation touches the window only by ending on its first instant. */
  lemma SkippedTouchesAtStart(s: Segment, ops: seq<Operation>, op: Operation)
    requires s.start < s.endsBefore && WellTimed(ops)
    requires op in Skipped(s, ops)
    ensures s.Touches(op) <==> (s.opType == "" || op.opType == s.opType) && op.end == s.start
  {
    SkippedIsEnded(s, ops);
  }

  /** Of two operations that start and end on the window's start with bytes, the
      first is skipped. */
  lemma InstantOperationsLoseBytes(op: Operation, s: Segment)
    requires s.start < s.endsBefore && op.start == op.end == s.start
    requires s.opType == op.opType && !op.Failed() && 0 < op.size
    ensures FastTotals([op, op], s).Ok? && PlainTotals([op, op], s).Ok?
    ensures FastTotals([op, op], s).value.totalBytes != PlainTotals([op, op], s).value.totalBytes
  {
    var ops := [op, op];
    assert ops[1..] == [op] && [op][1..] == [];
    assert EndedRun([op], s.start) == 1;
    assert EndedRun(ops, s.start) == 2;
    FoldEnded(s, ops);
    FastRefinesPlain(s, ops);
    assert Skipped(s, ops) == [op] && op in [op];
    assert InstantWithBytes(s)(op);
  }
}
