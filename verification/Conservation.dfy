/** What contiguous segments add up to: bytes and objects are conserved up to
    rounding, and every start, end and failure is counted once
    (pkg/bench/ops.go, pkg/bench/analyze.go). */
module Conservation {
  import opened Basics
  import opened Arithmetic
  import opened Operations
  import opened ActiveRange
  import opened Aggregate
  import opened Segmentation
  import opened FastForm

  function TileEnd(first: Segment, n: nat): Time {
    WindowStart(first.start, first.endsBefore - first.start, n)
  }

  predicate Selects(s: Segment, op: Operation) {
    s.opType == "" || op.opType == s.opType
  }

  // ----- sums over windows and operations -------------------------------------------

  /** A quantity that an operation contributes to the k-th window. */
  type Measure = (nat, Operation) -> int

  function OverWindows(f: Measure, n: nat, op: Operation): int {
    if n == 0 then 0 else OverWindows(f, n - 1, op) + f(n - 1, op)
  }

  function OverOps(f: Measure, k: nat, ops: seq<Operation>): int {
    if |ops| == 0 then 0 else OverOps(f, k, ops[..|ops| - 1]) + f(k, ops[|ops| - 1])
  }

  function ByOp(f: Measure, n: nat, ops: seq<Operation>): int {
    if |ops| == 0 then 0 else ByOp(f, n, ops[..|ops| - 1]) + OverWindows(f, n, ops[|ops| - 1])
  }

  function ByWindow(f: Measure, n: nat, ops: seq<Operation>): int {
    if n == 0 then 0 else ByWindow(f, n - 1, ops) + OverOps(f, n - 1, ops)
  }

  lemma {:induction false} OneMoreWindow(f: Measure, n: nat, ops: seq<Operation>)
    ensures ByOp(f, n + 1, ops) == ByOp(f, n, ops) + OverOps(f, n, ops)
  {
    if |ops| > 0 {
      OneMoreWindow(f, n, ops[..|ops| - 1]);
    }
  }

  lemma {:induction false} ExchangeSums(f: Measure, n: nat, ops: seq<Operation>)
    ensures ByWindow(f, n, ops) == ByOp(f, n, ops)
  {
    if n == 0 {
      NoWindows(f, ops);
    } else {
      ExchangeSums(f, n - 1, ops);
      OneMoreWindow(f, n - 1, ops);
    }
  }

  lemma {:induction false} NoWindows(f: Measure, ops: seq<Operation>)
    ensures ByOp(f, 0, ops) == 0
  {
    if |ops| > 0 {
      NoWindows(f, ops[..|ops| - 1]);
    }
  }

  // ----- the measures -----------------------------------------------------------------

  function BytesIn(first: Segment): Measure {
    (k: nat, op: Operation) => Bytes(Shift(first, k), op)
  }

  function StartedIn(first: Segment): Measure {
    (k: nat, op: Operation) => Count(Shift(first, k).StartsIn(op) && !(op.Failed() && Shift(first, k).EndsIn(op)))
  }

  function EndedIn(first: Segment): Measure {
    (k: nat, op: Operation) => Count(Shift(first, k).EndsIn(op) && !(op.Failed() && Shift(first, k).StartsIn(op)))
  }

  function ErrorsIn(first: Segment): Measure {
    (k: nat, op: Operation) => Count(Shift(first, k).EndsIn(op) && op.Failed())
  }

  function FullIn(first: Segment): Measure {
    (k: nat, op: Operation) => Count(Full(Shift(first, k), op))
  }

  /** How much of op's running time s gives it bytes and objects for. */
  function CreditedTime(s: Segment, op: Operation): nat {
    if s.Credits(op) then Overlap(op, s.start, s.endsBefore) else 0
  }

  function TimeIn(first: Segment): Measure {
    (k: nat, op: Operation) => CreditedTime(Shift(first, k), op)
  }

  /** The windows that do so. */
  function SharesIn(first: Segment): Measure {
    (k: nat, op: Operation) => Count(CreditedTime(Shift(first, k), op) > 0)
  }

  /** Those of operations too large to be shared out in 64-bit integers. */
  function LargeSharesIn(first: Segment): Measure {
    (k: nat, op: Operation) => if Moderate(op) then 0 else SharesIn(first)(k, op)
  }

  /** The windows op runs right through. */
  function SpannedIn(first: Segment): Measure {
    (k: nat, op: Operation) => Count(op.start < Shift(first, k).start && Shift(first, k).endsBefore <= op.end)
  }

  function ObjectsOverWindows(first: Segment, n: nat, op: Operation): real {
    if n == 0 then 0.0
    else ObjectsOverWindows(first, n - 1, op) + Objects(Shift(first, n - 1), op)
  }

  // ----- one operation and one window -----------------------------------------------

  /** Size and duration for which the share is within a byte of the exact one, whether
      computed in integers or in floating point. */
  predicate Measurable(op: Operation) {
    0 <= op.size && (Moderate(op) || (op.size < TWO_52 && op.Duration() < TWO_53))
  }

  /** An operation's bytes and objects are its own times the part of its duration that
      the window credits it with: rounded down for bytes of up to 63 bits times
      nanoseconds, and off by at most one byte otherwise. */
  lemma SharesAreProportional(s: Segment, op: Operation)
    requires s.start < s.endsBefore && op.start < op.end && Measurable(op) && !Panics(s, op)
    ensures var (part, d) := (CreditedTime(s, op), op.Duration());
      && part <= d
      && (Moderate(op) ==> Bytes(s, op) == op.size * part / d)
      && -1 <= Bytes(s, op) - op.size * part / d <= 1
      && 0 <= Bytes(s, op) <= op.size
      && (part == 0 ==> Bytes(s, op) == 0)
  {
    var part, d := CreditedTime(s, op), op.Duration();
    if !s.Credits(op) || part == 0 {
      NothingShared(op.size, d);
    }
    if s.Credits(op) {
      if s.StartsIn(op) && s.EndsIn(op) {
        assert part == d;
        QuotientBounds(op.size, d, d);
      } else if Moderate(op) {
        MulMonotone(op.size, part, d);
        PartSizeIsShare(op.size, part, d);
        QuotientBounds(op.size, part, d);
      } else {
        CheckFailsIff(op.size, part, d);
        if part == 0 {
          PartSizeIsShare(op.size, 0, d);
        }
      }
    }
  }

  lemma NothingShared(size: int, d: int)
    requires d > 0
    ensures size * 0 == 0 && size * 0 / d == 0
  {
    DivUnique(0, d, 0);
  }

  lemma ObjectsAreProportional(s: Segment, op: Operation)
    requires s.start < s.endsBefore && op.start < op.end
    ensures Objects(s, op) == Proportion(op.objPerOp, CreditedTime(s, op), op.Duration())
  {
    ZeroProportion(op.objPerOp, op.Duration());
    if s.Credits(op) && CreditedTime(s, op) == op.Duration() {
      RealCancel(op.objPerOp as real, op.Duration() as real);
    }
  }

  /** What a window credits: a successful operation with all its time inside, a failed
      one with the whole window, but only if it runs right through. */
  lemma CreditedTimeIs(s: Segment, op: Operation)
    requires s.start < s.endsBefore && op.start < op.end
    ensures CreditedTime(s, op) ==
      if !Selects(s, op) then 0
      else if !op.Failed() then Overlap(op, s.start, s.endsBefore)
      else if op.start < s.start && s.endsBefore <= op.end then s.endsBefore - s.start
      else 0
  {
  }

  /** A failed operation adds bytes and objects too, but only to windows it spans,
      neither starting nor ending in them. */
  lemma FailedOperationsCountWhenSpanning(s: Segment, op: Operation)
    requires s.start < s.endsBefore && op.start < op.end && Moderate(op) && op.Failed() && Selects(s, op)
    ensures var window := s.endsBefore - s.start;
      if op.start < s.start && s.endsBefore <= op.end then
        && Bytes(s, op) == op.size * window / op.Duration()
        && Objects(s, op) == Proportion(op.objPerOp, window, op.Duration())
      else Bytes(s, op) == 0 && Objects(s, op) == 0.0
  {
    SmallOpsDoNotPanic(s, op);
    SharesAreProportional(s, op);
    ObjectsAreProportional(s, op);
    ZeroProportion(op.objPerOp, op.Duration());
    FailedTime(s, op, CreditedTime(s, op));
  }

  lemma FailedTime(s: Segment, op: Operation, time: int)
    requires s.start < s.endsBefore && op.start < op.end && op.Failed() && Selects(s, op)
    requires time == CreditedTime(s, op)
    ensures time == if op.start < s.start && s.endsBefore <= op.end then s.endsBefore - s.start else 0
  {
  }

  // ----- one operation over the tiling ----------------------------------------------

  lemma NextTile(first: Segment, n: nat, op: Operation)
    requires first.start < first.endsBefore && op.start <= op.end
    ensures Shift(first, n).start == TileEnd(first, n) && Shift(first, n).endsBefore == TileEnd(first, n + 1)
    ensures first.start <= TileEnd(first, n) < TileEnd(first, n + 1)
    ensures Overlap(op, first.start, TileEnd(first, n + 1)) ==
      Overlap(op, first.start, TileEnd(first, n)) + Overlap(op, Shift(first, n).start, Shift(first, n).endsBefore)
  {
    var d := first.endsBefore - first.start;
    NextWindow(first.start, d, n);
    MulMonotone(d, 0, n);
  }

  /** A successful operation is credited with all of its time in the tiled stretch. */
  lemma {:induction false} TimeOfSuccess(first: Segment, n: nat, op: Operation)
    requires first.start < first.endsBefore && op.start < op.end && !op.Failed() && Selects(first, op)
    ensures OverWindows(TimeIn(first), n, op) == Overlap(op, first.start, TileEnd(first, n))
  {
    if n == 0 {
      assert Overlap(op, first.start, TileEnd(first, 0)) == 0;
    } else {
      TimeOfSuccess(first, n - 1, op);
      NextTile(first, n - 1, op);
      CreditedTimeIs(Shift(first, n - 1), op);
    }
  }

  /** A failed one is credited with the windows it spans. */
  lemma {:induction false} TimeOfFailure(first: Segment, n: nat, op: Operation)
    requires first.start < first.endsBefore && op.start < op.end && op.Failed() && Selects(first, op)
    ensures OverWindows(TimeIn(first), n, op) ==
      (first.endsBefore - first.start) * OverWindows(SpannedIn(first), n, op)
  {
    if n > 0 {
      TimeOfFailure(first, n - 1, op);
      CreditedTimeIs(Shift(first, n - 1), op);
      var d, m, x := first.endsBefore - first.start, OverWindows(SpannedIn(first), n - 1, op), SpannedIn(first)(n - 1, op);
      Distribute(d, m, x);
    }
  }

  /** No operation is credited with more than its time in the tiled stretch. */
  lemma {:induction false} TimeAtMost(first: Segment, n: nat, op: Operation)
    requires first.start < first.endsBefore && op.start < op.end
    ensures 0 <= OverWindows(TimeIn(first), n, op) <= Overlap(op, first.start, TileEnd(first, n)) <= op.Duration()
    ensures 0 <= OverWindows(SharesIn(first), n, op)
    ensures OverWindows(TimeIn(first), n, op) > 0 <==> OverWindows(SharesIn(first), n, op) > 0
  {
    if n > 0 {
      TimeAtMost(first, n - 1, op);
      NextTile(first, n - 1, op);
      CreditedTimeIs(Shift(first, n - 1), op);
    }
  }

  /** `total` bytes stand for `covered` of `dur` nanoseconds of an operation of `size`
      bytes, rounded down in each of `pieces` windows, up to one byte more or less in
      each of `large` windows. */
  predicate Conserves(size: int, dur: int, covered: int, total: int, pieces: int, large: int) {
    && dur * total <= size * covered + dur * large
    && size * covered <= dur * total + (dur - 1) * pieces + dur * large
  }

  lemma AddPiece(size: int, dur: int, covered: int, total: int, pieces: int, large: int,
                 part: int, q: int, piece: int, l: int)
    requires Conserves(size, dur, covered, total, pieces, large) && Conserves(size, dur, part, q, piece, l)
    ensures Conserves(size, dur, covered + part, total + q, pieces + piece, large + l)
  {
    Distribute(dur, total, q);
    Distribute(size, covered, part);
    Distribute(dur - 1, pieces, piece);
    Distribute(dur, large, l);
  }

  /** One quotient loses less than one unit, and nothing when nothing is shared. */
  lemma QuotientLoss(size: int, part: nat, dur: int, q: int)
    requires 0 <= size && 0 < dur && q == size * part / dur
    ensures dur * q <= size * part <= dur * q + (dur - 1) * Count(part > 0)
  {
    assert size * part == dur * q + size * part % dur;
    if part == 0 {
      NothingShared(size, dur);
    }
  }

  lemma WindowConserves(s: Segment, op: Operation)
    requires s.start < s.endsBefore && op.start < op.end && Measurable(op) && !Panics(s, op)
    ensures var part := CreditedTime(s, op);
      Conserves(op.size, op.Duration(), part, Bytes(s, op), Count(part > 0),
                if Moderate(op) then 0 else Count(part > 0))
  {
    var part, d := CreditedTime(s, op), op.Duration();
    var q := op.size * part / d;
    SharesAreProportional(s, op);
    QuotientLoss(op.size, part, d, q);
    if part == 0 {
      NothingShared(op.size, d);
    } else {
      OneByteOff(d, Bytes(s, op), q);
    }
  }

  lemma OneByteOff(d: int, b: int, q: int)
    requires d > 0 && -1 <= b - q <= 1
    ensures d * q - d <= d * b <= d * q + d
  {
    MulMonotone(d, b, q + 1);
    MulMonotone(d, q - 1, b);
  }

  /** None of the first n windows panics over op. */
  ghost predicate Passes(first: Segment, n: nat, op: Operation) {
    forall k :: 0 <= k < n ==> !Panics(Shift(first, k), op)
  }

  /** Byte conservation: over n windows any operation's bytes, failed or not, add up
      to the share of the time it is credited with, short of it by less than one byte
      for each window that credits it; one byte more or less for each when its size
      times its duration exceeds 63 bits. */
  lemma {:induction false} BytesConserved(first: Segment, n: nat, op: Operation)
    requires first.start < first.endsBefore && op.start < op.end && Measurable(op) && Passes(first, n, op)
    ensures Conserves(op.size, op.Duration(), OverWindows(TimeIn(first), n, op), OverWindows(BytesIn(first), n, op),
                      OverWindows(SharesIn(first), n, op), OverWindows(LargeSharesIn(first), n, op))
  {
    if n > 0 {
      BytesConserved(first, n - 1, op);
      AddWindow(first, n - 1, op, OverWindows(TimeIn(first), n - 1, op), OverWindows(BytesIn(first), n - 1, op),
                OverWindows(SharesIn(first), n - 1, op), OverWindows(LargeSharesIn(first), n - 1, op));
    }
  }

  lemma AddWindow(first: Segment, k: nat, op: Operation, time: int, bytes: int, shares: int, large: int)
    requires first.start < first.endsBefore && op.start < op.end && Measurable(op) && !Panics(Shift(first, k), op)
    requires Conserves(op.size, op.Duration(), time, bytes, shares, large)
    ensures Conserves(op.size, op.Duration(), time + TimeIn(first)(k, op), bytes + BytesIn(first)(k, op),
                      shares + SharesIn(first)(k, op), large + LargeSharesIn(first)(k, op))
  {
    var s := Shift(first, k);
    ShiftIsWindow(first, k);
    WindowConserves(s, op);
    var piece := SharesIn(first)(k, op);
    AddPiece(op.size, op.Duration(), time, bytes, shares, large,
             CreditedTime(s, op), Bytes(s, op), piece, if Moderate(op) then 0 else piece);
  }

  lemma {:induction false} NoLargeShares(first: Segment, n: nat, op: Operation)
    requires Moderate(op)
    ensures OverWindows(LargeSharesIn(first), n, op) == 0
  {
    if n > 0 {
      NoLargeShares(first, n - 1, op);
    }
  }

  /** A moderate operation passes every window. */
  lemma ModeratePasses(first: Segment, n: nat, op: Operation)
    requires first.start < first.endsBefore && Moderate(op)
    ensures Passes(first, n, op)
  {
    forall k | 0 <= k < n ensures !Panics(Shift(first, k), op) {
      SmallOpsDoNotPanic(Shift(first, k), op);
    }
  }

  /** `part` out of `whole` of n, as a real number. */
  function Proportion(n: int, part: int, whole: int): real
    requires whole != 0
  {
    n as real * part as real / whole as real
  }

  lemma ZeroProportion(n: int, whole: int)
    requires whole != 0
    ensures Proportion(n, 0, whole) == 0.0
  {
    assert n as real * 0.0 == 0.0;
  }

  /** Objects are conserved exactly: their shares add up to the objects of the
      operation times the credited part of its duration. */
  lemma {:induction false} ObjectsConserved(first: Segment, n: nat, op: Operation)
    requires first.start < first.endsBefore && op.start < op.end
    ensures ObjectsOverWindows(first, n, op) ==
      Proportion(op.objPerOp, OverWindows(TimeIn(first), n, op), op.Duration())
  {
    if n == 0 {
      ZeroProportion(op.objPerOp, op.Duration());
    } else {
      ObjectsConserved(first, n - 1, op);
      ObjectsAreProportional(Shift(first, n - 1), op);
      AddProportions(op.objPerOp, OverWindows(TimeIn(first), n - 1, op), CreditedTime(Shift(first, n - 1), op), op.Duration());
    }
  }

  lemma AddProportions(n: int, a: int, b: int, whole: int)
    requires whole > 0
    ensures Proportion(n, a, whole) + Proportion(n, b, whole) == Proportion(n, a + b, whole)
  {
    AddShares(n as real, a as real, b as real, whole as real);
  }

  lemma AddShares(a: real, b: real, c: real, d: real)
    requires d > 0.0
    ensures a * b / d + a * c / d == a * (b + c) / d
  {
  }

  lemma {:induction false} BytesGrow(first: Segment, m: nat, n: nat, op: Operation)
    requires first.start < first.endsBefore && op.start < op.end && Moderate(op) && m <= n
    ensures OverWindows(BytesIn(first), m, op) <= OverWindows(BytesIn(first), n, op)
  {
    if m < n {
      BytesGrow(first, m, n - 1, op);
      BytesNotNegative(first, n - 1, op);
    }
  }

  lemma BytesNotNegative(first: Segment, k: nat, op: Operation)
    requires first.start < first.endsBefore && op.start < op.end && Moderate(op)
    ensures 0 <= BytesIn(first)(k, op)
  {
    ShiftIsWindow(first, k);
    SmallOpsDoNotPanic(Shift(first, k), op);
    SharesAreProportional(Shift(first, k), op);
  }

  /** All windows together hold no more of an operation than its size. */
  lemma BytesAtMost(first: Segment, n: nat, op: Operation)
    requires first.start < first.endsBefore && op.start < op.end && Moderate(op)
    ensures OverWindows(BytesIn(first), n, op) <= op.size
  {
    ModeratePasses(first, n, op);
    NoLargeShares(first, n, op);
    BytesConserved(first, n, op);
    TimeAtMost(first, n, op);
    NotMoreThanAll(op.size, op.Duration(), OverWindows(TimeIn(first), n, op), OverWindows(BytesIn(first), n, op),
                   OverWindows(SharesIn(first), n, op));
  }

  /** An operation inside one window gives it all its bytes and the others none. */
  lemma BytesOfContained(first: Segment, k: nat, n: nat, op: Operation)
    requires first.start < first.endsBefore && op.start < op.end && Moderate(op)
    requires !op.Failed() && Selects(first, op)
    requires k < n && Shift(first, k).start <= op.start && op.end < Shift(first, k).endsBefore
    ensures OverWindows(BytesIn(first), n, op) == op.size
  {
    BytesGrow(first, 0, k, op);
    BytesGrow(first, k + 1, n, op);
    assert Bytes(Shift(first, k), op) == op.size;
    BytesAtMost(first, n, op);
  }

  lemma NotMoreThanAll(size: int, dur: int, covered: int, total: int, pieces: int)
    requires dur > 0 && 0 <= size && covered <= dur && Conserves(size, dur, covered, total, pieces, 0)
    ensures total <= size
  {
    MulMonotone(size, covered, dur);
    AtMost(dur, total, size);
  }

  lemma NotMuchLessThanAll(size: int, dur: int, total: int, pieces: int)
    requires dur > 0 && pieces > 0 && Conserves(size, dur, dur, total, pieces, 0)
    ensures size - pieces < total
  {
    if total <= size - pieces {
      MulMonotone(dur, total, size - pieces);
      Distribute(dur, size - pieces, pieces);
      Distribute(pieces, dur - 1, 1);
    }
  }

  lemma AtMost(d: int, a: int, b: int)
    requires d > 0 && d * a <= d * b
    ensures a <= b
  {
  }

  /** A successful operation inside the tiled stretch loses less than one byte for
      each window that credits it. */
  lemma BytesOfCovered(first: Segment, n: nat, op: Operation)
    requires first.start < first.endsBefore && op.start < op.end && Moderate(op)
    requires !op.Failed() && Selects(first, op)
    requires first.start <= op.start && op.end <= TileEnd(first, n)
    ensures op.size - OverWindows(SharesIn(first), n, op) < OverWindows(BytesIn(first), n, op) <= op.size
  {
    ModeratePasses(first, n, op);
    NoLargeShares(first, n, op);
    BytesConserved(first, n, op);
    TimeOfSuccess(first, n, op);
    TimeAtMost(first, n, op);
    assert Overlap(op, first.start, TileEnd(first, n)) == op.Duration();
    BytesAtMost(first, n, op);
    NotMuchLessThanAll(op.size, op.Duration(), OverWindows(BytesIn(first), n, op), OverWindows(SharesIn(first), n, op));
  }

  // ----- starts, ends and failures ----------------------------------------------------

  /** Failures are counted once, in the window that holds the operation's end. */
  lemma {:induction false} ErrorCountedOnce(first: Segment, n: nat, op: Operation)
    requires first.start < first.endsBefore && op.start <= op.end
    ensures OverWindows(ErrorsIn(first), n, op) == Count(Selects(first, op) && Fails(first, n, op))
  {
    if n > 0 {
      ErrorCountedOnce(first, n - 1, op);
      NextTile(first, n - 1, op);
    }
  }

  /** The number of the window that holds t. */
  function WindowOf(first: Segment, t: Time): int
    requires first.start < first.endsBefore
  {
    (t - first.start) / (first.endsBefore - first.start)
  }

  lemma WindowOfIff(first: Segment, k: nat, t: Time)
    requires first.start < first.endsBefore
    ensures Shift(first, k).start <= t < Shift(first, k).endsBefore <==> WindowOf(first, t) == k
  {
    var d, x := first.endsBefore - first.start, t - first.start;
    assert x == d * (x / d) + x % d;
    if Shift(first, k).start <= t < Shift(first, k).endsBefore {
      DivUnique(x, d, k);
    }
  }

  /** A failure that starts and ends in one window counts neither as started nor as ended. */
  predicate FailsAtOnce(first: Segment, op: Operation)
    requires first.start < first.endsBefore
  {
    op.Failed() && WindowOf(first, op.start) == WindowOf(first, op.end)
  }

  /** Starts in the stretch that n windows tile and is counted for it. */
  predicate Begins(first: Segment, n: nat, op: Operation)
    requires first.start < first.endsBefore
  {
    first.start <= op.start < TileEnd(first, n) && !FailsAtOnce(first, op)
  }

  /** Ends in the stretch that n windows tile and is counted for it. */
  predicate Finishes(first: Segment, n: nat, op: Operation)
    requires first.start < first.endsBefore
  {
    first.start <= op.end < TileEnd(first, n) && !FailsAtOnce(first, op)
  }

  /** Fails in the stretch that n windows tile. */
  predicate Fails(first: Segment, n: nat, op: Operation) {
    op.err != "" && first.start <= op.end < TileEnd(first, n)
  }

  /** Succeeds with start and end in the same one of n windows. */
  predicate Completes(first: Segment, n: nat, op: Operation)
    requires first.start < first.endsBefore
  {
    op.err == "" && first.start <= op.start && op.end < TileEnd(first, n) && WindowOf(first, op.start) == WindowOf(first, op.end)
  }

  /** What one window counts, told by the numbers of the windows of start and end. */
  lemma WindowCounts(first: Segment, k: nat, op: Operation)
    requires first.start < first.endsBefore && op.start <= op.end
    ensures StartedIn(first)(k, op) == Count(Selects(first, op) && WindowOf(first, op.start) == k && !FailsAtOnce(first, op))
    ensures EndedIn(first)(k, op) == Count(Selects(first, op) && WindowOf(first, op.end) == k && !FailsAtOnce(first, op))
  {
    WindowOfIff(first, k, op.start);
    WindowOfIff(first, k, op.end);
  }

  /** Every start and every end is counted once, where it happens, unless the
      operation fails in the window it starts in. */
  lemma {:induction false} StartAndEndCountedOnce(first: Segment, n: nat, op: Operation)
    requires first.start < first.endsBefore && op.start <= op.end
    ensures OverWindows(StartedIn(first), n, op) == Count(Selects(first, op) && Begins(first, n, op))
    ensures OverWindows(EndedIn(first), n, op) == Count(Selects(first, op) && Finishes(first, n, op))
  {
    if n > 0 {
      StartAndEndCountedOnce(first, n - 1, op);
      NextTile(first, n - 1, op);
      WindowCounts(first, n - 1, op);
      WindowOfIff(first, n - 1, op.start);
      WindowOfIff(first, n - 1, op.end);
    }
  }

  lemma WindowCompletes(first: Segment, k: nat, op: Operation)
    requires first.start < first.endsBefore && op.start <= op.end
    ensures FullIn(first)(k, op) ==
      Count(Selects(first, op) && op.err == "" && WindowOf(first, op.start) == k && WindowOf(first, op.end) == k)
  {
    WindowOfIff(first, k, op.start);
    WindowOfIff(first, k, op.end);
  }

  /** An operation is full in one window exactly when it succeeds and both starts and
      ends there, and in none otherwise. */
  lemma {:induction false} FullCountedOnce(first: Segment, n: nat, op: Operation)
    requires first.start < first.endsBefore && op.start <= op.end
    ensures OverWindows(FullIn(first), n, op) == Count(Selects(first, op) && Completes(first, n, op))
  {
    if n == 0 {
      assert TileEnd(first, 0) == first.start;
    } else {
      FullCountedOnce(first, n - 1, op);
      NextTile(first, n - 1, op);
      WindowCompletes(first, n - 1, op);
      WindowOfIff(first, n - 1, op.start);
      WindowOfIff(first, n - 1, op.end);
    }
  }

  // ----- whole runs -----------------------------------------------------------------------

  predicate IsEmptySegment(s: Segment) {
    && s.totalBytes == s.fullOps == s.partialOps == s.opsStarted == s.opsEnded == s.errors == 0
    && s.objects == s.reqAvg == 0.0
  }

  lemma AddMeasures(first: Segment, k: nat, t: Segment, op: Operation)
    requires t.opType == first.opType
    requires t.start == Shift(first, k).start && t.endsBefore == Shift(first, k).endsBefore
    ensures Add(t, op).totalBytes == t.totalBytes + BytesIn(first)(k, op)
    ensures Add(t, op).opsStarted == t.opsStarted + StartedIn(first)(k, op)
    ensures Add(t, op).opsEnded == t.opsEnded + EndedIn(first)(k, op)
    ensures Add(t, op).errors == t.errors + ErrorsIn(first)(k, op)
    ensures Add(t, op).fullOps == t.fullOps + FullIn(first)(k, op)
  {
  }

  /** A plain segment's totals are the sums of what each operation contributes. */
  lemma {:induction false} FoldSums(first: Segment, k: nat, ops: seq<Operation>)
    requires IsEmptySegment(first) && Fold(Shift(first, k), ops).Ok?
    ensures var r := Fold(Shift(first, k), ops).value;
      && r.totalBytes == OverOps(BytesIn(first), k, ops)
      && r.opsStarted == OverOps(StartedIn(first), k, ops)
      && r.opsEnded == OverOps(EndedIn(first), k, ops)
      && r.errors == OverOps(ErrorsIn(first), k, ops)
      && r.fullOps == OverOps(FullIn(first), k, ops)
  {
    if |ops| > 0 {
      var init, last := ops[..|ops| - 1], ops[|ops| - 1];
      FoldSums(first, k, init);
      FoldKeepsWindow(Shift(first, k), init);
      AddMeasures(first, k, Fold(Shift(first, k), init).value, last);
    }
  }

  /** One total, added up over a list of segments. */
  function TotalOf(segs: seq<Segment>, field: Segment -> int): int {
    if |segs| == 0 then 0 else TotalOf(segs[..|segs| - 1], field) + field(segs[|segs| - 1])
  }

  function SumBytes(segs: seq<Segment>): int {
    TotalOf(segs, (s: Segment) => s.totalBytes)
  }

  function SumErrors(segs: seq<Segment>): int {
    TotalOf(segs, (s: Segment) => s.errors)
  }

  function SumStarted(segs: seq<Segment>): int {
    TotalOf(segs, (s: Segment) => s.opsStarted)
  }

  function SumEnded(segs: seq<Segment>): int {
    TotalOf(segs, (s: Segment) => s.opsEnded)
  }

  function SumFull(segs: seq<Segment>): int {
    TotalOf(segs, (s: Segment) => s.fullOps)
  }

  function SumSizes(ops: seq<Operation>): int {
    if |ops| == 0 then 0 else SumSizes(ops[..|ops| - 1]) + ops[|ops| - 1].size
  }

  /** No operation ends on the first instant of one of the first n windows. */
  ghost predicate NoneEndsOnStart(ops: seq<Operation>, first: Segment, n: nat) {
    forall op, k :: op in ops && 0 <= k < n ==> op.end != Shift(first, k).start
  }

  lemma ShiftIsWindow(first: Segment, k: nat)
    requires first.start < first.endsBefore
    ensures Shift(first, k).start < Shift(first, k).endsBefore && Shift(first, k).opType == first.opType
  {
  }

  /** The plain fold of a window from which the program returned a segment. */
  lemma PlainOfSegment(ops: seq<Operation>, first: Segment, segs: seq<Segment>, k: nat)
    requires first.start < first.endsBefore && WellTimed(ops) && NonNegativeSizes(ops)
    requires k < |segs| && AreSegments(ops, first, segs)
    ensures Fold(Shift(first, k), ops).Ok?
    ensures NoneEndsOnStart(ops, first, |segs|) ==> PlainTotals(ops, Shift(first, k)) == Ok(segs[k])
  {
    var s := Shift(first, k);
    ShiftIsWindow(first, k);
    assert FastTotals(ops, s) == Ok(segs[k]);
    FastRefinesPlain(s, ops);
    if NoneEndsOnStart(ops, first, |segs|) {
      forall op | op in Skipped(s, ops) ensures !s.Touches(op) {
        SkippedIsEnded(s, ops);
        SkippedTouchesAtStart(s, ops, op);
      }
    }
  }

  /** What the segments the program returns say about one window. */
  lemma SegmentSums(ops: seq<Operation>, first: Segment, segs: seq<Segment>, k: nat)
    requires first.start < first.endsBefore && IsEmptySegment(first)
    requires WellTimed(ops) && NonNegativeSizes(ops)
    requires k < |segs| && AreSegments(ops, first, segs)
    ensures PositiveDurations(ops) || NoneEndsOnStart(ops, first, |segs|) ==>
      && segs[k].totalBytes == OverOps(BytesIn(first), k, ops) && segs[k].opsStarted == OverOps(StartedIn(first), k, ops)
      && segs[k].fullOps == OverOps(FullIn(first), k, ops)
    ensures NoneEndsOnStart(ops, first, |segs|) ==>
      segs[k].opsEnded == OverOps(EndedIn(first), k, ops) && segs[k].errors == OverOps(ErrorsIn(first), k, ops)
  {
    var s := Shift(first, k);
    ShiftIsWindow(first, k);
    PlainOfSegment(ops, first, segs, k);
    FoldSums(first, k, ops);
    if PositiveDurations(ops) {
      SkippedIsEnded(s, ops);
      FastKeepsSizes(s, ops);
    }
  }

  /** Adding up per window is adding up per operation. */
  lemma {:induction false} TotalByOperation(field: Segment -> int, f: Measure, ops: seq<Operation>, segs: seq<Segment>)
    requires forall k :: 0 <= k < |segs| ==> field(segs[k]) == OverOps(f, k, ops)
    ensures TotalOf(segs, field) == ByOp(f, |segs|, ops)
  {
    ExchangeSums(f, |segs|, ops);
    TotalByWindow(field, f, ops, segs);
  }

  lemma {:induction false} TotalByWindow(field: Segment -> int, f: Measure, ops: seq<Operation>, segs: seq<Segment>)
    requires forall k :: 0 <= k < |segs| ==> field(segs[k]) == OverOps(f, k, ops)
    ensures TotalOf(segs, field) == ByWindow(f, |segs|, ops)
  {
    if |segs| > 0 {
      TotalByWindow(field, f, ops, segs[..|segs| - 1]);
    }
  }

  /** Summing the segments is summing over windows, then over operations. */
  lemma SumsByOperation(ops: seq<Operation>, first: Segment, segs: seq<Segment>)
    requires first.start < first.endsBefore && IsEmptySegment(first)
    requires WellTimed(ops) && NonNegativeSizes(ops) && AreSegments(ops, first, segs)
    ensures PositiveDurations(ops) || NoneEndsOnStart(ops, first, |segs|) ==>
      && SumBytes(segs) == ByOp(BytesIn(first), |segs|, ops) && SumStarted(segs) == ByOp(StartedIn(first), |segs|, ops)
      && SumFull(segs) == ByOp(FullIn(first), |segs|, ops)
    ensures NoneEndsOnStart(ops, first, |segs|) ==>
      SumEnded(segs) == ByOp(EndedIn(first), |segs|, ops) && SumErrors(segs) == ByOp(ErrorsIn(first), |segs|, ops)
  {
    forall k | 0 <= k < |segs|
      ensures PositiveDurations(ops) || NoneEndsOnStart(ops, first, |segs|) ==>
        && segs[k].totalBytes == OverOps(BytesIn(first), k, ops) && segs[k].opsStarted == OverOps(StartedIn(first), k, ops)
        && segs[k].fullOps == OverOps(FullIn(first), k, ops)
      ensures NoneEndsOnStart(ops, first, |segs|) ==>
        segs[k].opsEnded == OverOps(EndedIn(first), k, ops) && segs[k].errors == OverOps(ErrorsIn(first), k, ops)
    {
      SegmentSums(ops, first, segs, k);
    }
    if PositiveDurations(ops) || NoneEndsOnStart(ops, first, |segs|) {
      TotalByOperation((s: Segment) => s.totalBytes, BytesIn(first), ops, segs);
      TotalByOperation((s: Segment) => s.opsStarted, StartedIn(first), ops, segs);
      TotalByOperation((s: Segment) => s.fullOps, FullIn(first), ops, segs);
    }
    if NoneEndsOnStart(ops, first, |segs|) {
      TotalByOperation((s: Segment) => s.opsEnded, EndedIn(first), ops, segs);
      TotalByOperation((s: Segment) => s.errors, ErrorsIn(first), ops, segs);
    }
  }

  // ----- bytes of a run --------------------------------------------------------------------

  ghost predicate AllMeasurable(ops: seq<Operation>) {
    forall op :: op in ops ==> Measurable(op)
  }

  /** What a run moved in the tiled stretch: each operation's size times the part of its
      duration it is credited with there. */
  function ExactBytes(first: Segment, n: nat, ops: seq<Operation>): real
    requires forall op :: op in ops ==> op.start < op.end
  {
    if |ops| == 0 then 0.0
    else
      var op := ops[|ops| - 1];
      assert op in ops && forall p :: p in ops[..|ops| - 1] ==> p in ops;
      ExactBytes(first, n, ops[..|ops| - 1]) + Proportion(op.size, OverWindows(TimeIn(first), n, op), op.Duration())
  }

  /** The exact number minus less than one for each of `pieces`, give or take one for
      each of `large`. */
  predicate RoundsTo(exact: real, total: int, pieces: int, large: int) {
    && total as real <= exact + large as real
    && exact <= (total + pieces + large) as real
    && (pieces > 0 ==> exact < (total + pieces + large) as real)
  }

  lemma RoundsToAdd(a: real, s: int, p: int, l: int, b: real, t: int, q: int, m: int)
    requires RoundsTo(a, s, p, l) && RoundsTo(b, t, q, m) && p >= 0 && q >= 0
    ensures RoundsTo(a + b, s + t, p + q, l + m)
  {
  }

  lemma ConservedRounds(size: int, dur: int, covered: int, total: int, pieces: int, large: int)
    requires dur > 0 && pieces >= 0 && Conserves(size, dur, covered, total, pieces, large)
    ensures RoundsTo(Proportion(size, covered, dur), total, pieces, large)
  {
    RealProduct(size, covered);
    Distribute(dur, total, large);
    Distribute(dur, total + large, pieces);
    Distribute(pieces, dur, -1);
    RatioAtLeast(size * covered, dur, total - large);
    RatioAtMost(size * covered, dur, total + pieces + large);
    if pieces > 0 {
      assert size * covered < dur * (total + pieces + large);
    }
  }

  lemma RatioAtLeast(n: int, d: int, q: int)
    requires d > 0
    ensures d * q <= n ==> q as real <= n as real / d as real
  {
    RealProduct(d, q);
    if d * q <= n {
      QuotientLow(n as real, d as real, q as real);
    }
  }

  lemma RatioAtMost(n: int, d: int, q: int)
    requires d > 0
    ensures n <= d * q ==> n as real / d as real <= q as real
    ensures n < d * q ==> n as real / d as real < q as real
  {
    RealProduct(d, q);
    var x := n as real / d as real;
    assert x * d as real == n as real;
    if n <= d * q && x > q as real {
      RealMulStrict(d as real, q as real, x);
    }
    if n < d * q && x >= q as real {
      RealMulMonotone(d as real, q as real, x);
    }
  }

  lemma QuotientLow(n: real, d: real, q: real)
    requires d > 0.0 && d * q <= n
    ensures q <= n / d
  {
    var x := n / d;
    assert x * d == n;
    if x < q {
      RealMulStrict(d, x, q);
    }
  }

  lemma {:induction false} BytesByOperation(ops: seq<Operation>, first: Segment, n: nat)
    requires first.start < first.endsBefore && PositiveDurations(ops) && AllMeasurable(ops)
    requires forall op :: op in ops ==> Passes(first, n, op)
    ensures ByOp(SharesIn(first), n, ops) >= 0
    ensures RoundsTo(ExactBytes(first, n, ops), ByOp(BytesIn(first), n, ops),
                     ByOp(SharesIn(first), n, ops), ByOp(LargeSharesIn(first), n, ops))
  {
    if |ops| > 0 {
      var init, last := ops[..|ops| - 1], ops[|ops| - 1];
      assert last in ops && forall op :: op in init ==> op in ops;
      BytesByOperation(init, first, n);
      BytesConserved(first, n, last);
      TimeAtMost(first, n, last);
      var time, bytes := OverWindows(TimeIn(first), n, last), OverWindows(BytesIn(first), n, last);
      var pieces, large := OverWindows(SharesIn(first), n, last), OverWindows(LargeSharesIn(first), n, last);
      ConservedRounds(last.size, last.Duration(), time, bytes, pieces, large);
      RoundsToAdd(ExactBytes(first, n, init), ByOp(BytesIn(first), n, init), ByOp(SharesIn(first), n, init),
                  ByOp(LargeSharesIn(first), n, init),
                  Proportion(last.size, time, last.Duration()), bytes, pieces, large);
    }
  }

  lemma {:induction false} FoldPasses(s: Segment, ops: seq<Operation>, op: Operation)
    requires Fold(s, ops).Ok? && op in ops
    ensures !Panics(s, op)
  {
    var init, last := ops[..|ops| - 1], ops[|ops| - 1];
    FoldKeepsWindow(s, init);
    if op in init {
      FoldPasses(s, init, op);
    } else {
      assert ops == init + [last];
      AddGains(s, Fold(s, init).value, op);
    }
  }

  lemma SegmentsPass(ops: seq<Operation>, first: Segment, segs: seq<Segment>)
    requires first.start < first.endsBefore && WellTimed(ops) && NonNegativeSizes(ops) && AreSegments(ops, first, segs)
    ensures forall op :: op in ops ==> Passes(first, |segs|, op)
  {
    forall op, k | op in ops && 0 <= k < |segs| ensures !Panics(Shift(first, k), op) {
      PlainOfSegment(ops, first, segs, k);
      FoldPasses(Shift(first, k), ops, op);
    }
  }

  /** The segments of any run, with failures and other types of operation among them,
      hold what the run moved in the tiled stretch, short of it by less than one byte
      for each share; shares beyond 63 bits are off by one byte more at most. */
  lemma SegmentsConserveBytes(ops: seq<Operation>, first: Segment, segs: seq<Segment>)
    requires first.start < first.endsBefore && IsEmptySegment(first)
    requires PositiveDurations(ops) && AllMeasurable(ops) && AreSegments(ops, first, segs)
    ensures RoundsTo(ExactBytes(first, |segs|, ops), SumBytes(segs),
                     ByOp(SharesIn(first), |segs|, ops), ByOp(LargeSharesIn(first), |segs|, ops))
  {
    SumsByOperation(ops, first, segs);
    SegmentsPass(ops, first, segs);
    BytesByOperation(ops, first, |segs|);
  }

  lemma {:induction false} BytesAtMostByOperation(ops: seq<Operation>, first: Segment, n: nat)
    requires first.start < first.endsBefore && PositiveDurations(ops) && SmallSizes(ops)
    ensures ByOp(BytesIn(first), n, ops) <= SumSizes(ops)
    ensures ByOp(LargeSharesIn(first), n, ops) == 0
  {
    if |ops| > 0 {
      var init, last := ops[..|ops| - 1], ops[|ops| - 1];
      assert last in ops && forall op :: op in init ==> op in ops;
      BytesAtMostByOperation(init, first, n);
      BytesAtMost(first, n, last);
      NoLargeShares(first, n, last);
    }
  }

  /** They never hold more bytes than the run's operations moved. */
  lemma SegmentsHoldNoMore(ops: seq<Operation>, first: Segment, segs: seq<Segment>)
    requires first.start < first.endsBefore && IsEmptySegment(first)
    requires PositiveDurations(ops) && SmallSizes(ops) && AreSegments(ops, first, segs)
    ensures SumBytes(segs) <= SumSizes(ops)
    ensures ByOp(LargeSharesIn(first), |segs|, ops) == 0
  {
    SumsByOperation(ops, first, segs);
    BytesAtMostByOperation(ops, first, |segs|);
  }

  // ----- counters of a run -----------------------------------------------------------------

  /** The selected operations that have property p. */
  function Among(wanted: Operation -> bool, p: Operation -> bool): Operation -> bool {
    (op: Operation) => wanted(op) && p(op)
  }

  function SelectedBy(first: Segment): Operation -> bool {
    (op: Operation) => Selects(first, op)
  }

  function Beginning(first: Segment, n: nat): Operation -> bool
    requires first.start < first.endsBefore
  {
    (op: Operation) => Begins(first, n, op)
  }

  function Finishing(first: Segment, n: nat): Operation -> bool
    requires first.start < first.endsBefore
  {
    (op: Operation) => Finishes(first, n, op)
  }

  function Failing(first: Segment, n: nat): Operation -> bool {
    (op: Operation) => Fails(first, n, op)
  }

  function Completing(first: Segment, n: nat): Operation -> bool
    requires first.start < first.endsBefore
  {
    (op: Operation) => Completes(first, n, op)
  }

  lemma {:induction false} CountsByOperation(ops: seq<Operation>, first: Segment, n: nat)
    requires first.start < first.endsBefore && WellTimed(ops)
    ensures ByOp(ErrorsIn(first), n, ops) == NumberOf(ops, Among(SelectedBy(first), Failing(first, n)))
    ensures ByOp(StartedIn(first), n, ops) == NumberOf(ops, Among(SelectedBy(first), Beginning(first, n)))
    ensures ByOp(EndedIn(first), n, ops) == NumberOf(ops, Among(SelectedBy(first), Finishing(first, n)))
    ensures ByOp(FullIn(first), n, ops) == NumberOf(ops, Among(SelectedBy(first), Completing(first, n)))
  {
    if |ops| > 0 {
      var init, last := ops[..|ops| - 1], ops[|ops| - 1];
      assert last in ops && forall op :: op in init ==> op in ops;
      CountsByOperation(init, first, n);
      ErrorCountedOnce(first, n, last);
      StartAndEndCountedOnce(first, n, last);
      FullCountedOnce(first, n, last);
    }
  }

  /** Every failed operation of the type that ends in the tiled stretch is counted
      as an error exactly once, and nothing else is. */
  lemma SegmentsCountErrorsOnce(ops: seq<Operation>, first: Segment, segs: seq<Segment>)
    requires first.start < first.endsBefore && IsEmptySegment(first)
    requires WellTimed(ops) && NonNegativeSizes(ops) && AreSegments(ops, first, segs)
    requires NoneEndsOnStart(ops, first, |segs|)
    ensures SumErrors(segs) == NumberOf(ops, Among(SelectedBy(first), Failing(first, |segs|)))
  {
    SumsByOperation(ops, first, segs);
    CountsByOperation(ops, first, |segs|);
  }

  /** Every start and every end in the tiled stretch is counted in exactly one segment,
      but for operations that fail in the window they start in; every success within
      one window is counted as a full operation. */
  lemma SegmentsCountStartsAndEndsOnce(ops: seq<Operation>, first: Segment, segs: seq<Segment>)
    requires first.start < first.endsBefore && IsEmptySegment(first)
    requires WellTimed(ops) && NonNegativeSizes(ops) && AreSegments(ops, first, segs)
    ensures PositiveDurations(ops) || NoneEndsOnStart(ops, first, |segs|) ==>
      && SumStarted(segs) == NumberOf(ops, Among(SelectedBy(first), Beginning(first, |segs|)))
      && SumFull(segs) == NumberOf(ops, Among(SelectedBy(first), Completing(first, |segs|)))
    ensures NoneEndsOnStart(ops, first, |segs|) ==>
      SumEnded(segs) == NumberOf(ops, Among(SelectedBy(first), Finishing(first, |segs|)))
  {
    SumsByOperation(ops, first, segs);
    CountsByOperation(ops, first, |segs|);
  }

  // ----- what a run's segments are about -----------------------------------------------------

  /** The operations that the segments of a run count: with `multiOp` all of them, and
      otherwise those of the type of the first operation. */
  function Wanted(ops: seq<Operation>, so: SegmentOptions): Operation -> bool {
    (op: Operation) => so.multiOp || |ops| == 0 || ops[0].opType == "" || op.opType == ops[0].opType
  }

  /** The first window of a run: where it begins, how long it is, and what it selects. */
  lemma FirstBlankIs(ops: seq<Operation>, so: SegmentOptions)
    ensures var (first, start) := (FirstBlank(ops, so), Active(ops, so.allThreads).0);
      && first.start >= start && first.start >= so.from && (first.start == start || first.start == so.from)
      && first.endsBefore == first.start + so.perSegDuration
      && IsEmptySegment(first)
      && (forall op :: op in ops ==> (Selects(first, op) <==> Wanted(ops, so)(op)))
      && first.objsPerOp == (if so.multiOp || |ops| == 0 then 0 else ops[0].objPerOp)
  {
  }

  /** The segments name the endpoint exactly when all operations went to the same. */
  lemma HostIs(ops: seq<Operation>, op: Operation)
    requires op in ops
    ensures (forall p :: p in ops ==> p.endpoint == op.endpoint) ==> HostOf(ops) == op.endpoint
    ensures HostOf(ops) != "" ==> HostOf(ops) == op.endpoint
  {
    assert ops[0] in ops;
  }

  /** The time of op for which n windows give it bytes and objects: of a success all
      the time it runs in them, of a failure the windows that it runs right through. */
  function CountedTime(first: Segment, n: nat, op: Operation): int {
    if op.err == "" then Overlap(op, first.start, TileEnd(first, n))
    else (first.endsBefore - first.start) * OverWindows(SpannedIn(first), n, op)
  }

  /** What the wanted operations moved in the stretch that n windows tile. */
  function MovedBytes(wanted: Operation -> bool, first: Segment, n: nat, ops: seq<Operation>): real
    requires forall op :: op in ops ==> op.start < op.end
  {
    if |ops| == 0 then 0.0
    else
      var op := ops[|ops| - 1];
      assert op in ops && forall p :: p in ops[..|ops| - 1] ==> p in ops;
      MovedBytes(wanted, first, n, ops[..|ops| - 1])
      + if wanted(op) then Proportion(op.size, CountedTime(first, n, op), op.Duration()) else 0.0
  }

  lemma {:induction false} TimeOfOthers(first: Segment, n: nat, op: Operation)
    requires !Selects(first, op)
    ensures OverWindows(TimeIn(first), n, op) == 0
  {
    if n > 0 {
      TimeOfOthers(first, n - 1, op);
    }
  }

  lemma CreditedIsCounted(first: Segment, n: nat, op: Operation)
    requires first.start < first.endsBefore && op.start < op.end
    ensures OverWindows(TimeIn(first), n, op) == if Selects(first, op) then CountedTime(first, n, op) else 0
  {
    if !Selects(first, op) {
      TimeOfOthers(first, n, op);
    } else if op.Failed() {
      TimeOfFailure(first, n, op);
    } else {
      TimeOfSuccess(first, n, op);
    }
  }

  lemma {:induction false} ExactIsMoved(wanted: Operation -> bool, first: Segment, n: nat, ops: seq<Operation>)
    requires first.start < first.endsBefore && PositiveDurations(ops)
    requires forall op :: op in ops ==> (Selects(first, op) <==> wanted(op))
    ensures ExactBytes(first, n, ops) == MovedBytes(wanted, first, n, ops)
  {
    if |ops| > 0 {
      var init, op := ops[..|ops| - 1], ops[|ops| - 1];
      assert op in ops && forall p :: p in init ==> p in ops;
      ExactIsMoved(wanted, first, n, init);
      CreditedIsCounted(first, n, op);
      ZeroProportion(op.size, op.Duration());
    }
  }

  lemma SameAmong(ops: seq<Operation>, wanted: Operation -> bool, other: Operation -> bool, p: Operation -> bool)
    requires forall op :: op in ops ==> (wanted(op) <==> other(op))
    ensures NumberOf(ops, Among(wanted, p)) == NumberOf(ops, Among(other, p))
  {
    SameNumber(ops, Among(wanted, p), Among(other, p));
  }

  /** The segments' sums in terms of the wanted operations. */
  ghost predicate SumsAreOf(ops: seq<Operation>, wanted: Operation -> bool, first: Segment, segs: seq<Segment>)
    requires PositiveDurations(ops) && first.start < first.endsBefore
  {
    var n := |segs|;
    && RoundsTo(MovedBytes(wanted, first, n, ops), SumBytes(segs),
                ByOp(SharesIn(first), n, ops), ByOp(LargeSharesIn(first), n, ops))
    && SumStarted(segs) == NumberOf(ops, Among(wanted, Beginning(first, n)))
    && SumFull(segs) == NumberOf(ops, Among(wanted, Completing(first, n)))
    && (NoneEndsOnStart(ops, first, n) ==>
        && SumEnded(segs) == NumberOf(ops, Among(wanted, Finishing(first, n)))
        && SumErrors(segs) == NumberOf(ops, Among(wanted, Failing(first, n))))
  }

  lemma SumsAreOfSelected(ops: seq<Operation>, wanted: Operation -> bool, first: Segment, segs: seq<Segment>)
    requires first.start < first.endsBefore && IsEmptySegment(first)
    requires PositiveDurations(ops) && AllMeasurable(ops) && AreSegments(ops, first, segs)
    requires forall op :: op in ops ==> (Selects(first, op) <==> wanted(op))
    ensures SumsAreOf(ops, wanted, first, segs)
  {
    var n := |segs|;
    SegmentsConserveBytes(ops, first, segs);
    ExactIsMoved(wanted, first, n, ops);
    SegmentsCountStartsAndEndsOnce(ops, first, segs);
    SameAmong(ops, SelectedBy(first), wanted, Beginning(first, n));
    SameAmong(ops, SelectedBy(first), wanted, Completing(first, n));
    SameAmong(ops, SelectedBy(first), wanted, Finishing(first, n));
    SameAmong(ops, SelectedBy(first), wanted, Failing(first, n));
    if NoneEndsOnStart(ops, first, n) {
      SegmentsCountErrorsOnce(ops, first, segs);
    }
  }

  /** The segments that `Segments` returns hold the bytes, starts, ends, failures and
      full operations of every type with `multiOp`, and of the first type without. */
  lemma SegmentsOfRun(ops: seq<Operation>, so: SegmentOptions, segs: seq<Segment>)
    requires so.perSegDuration > 0 && PositiveDurations(ops) && AllMeasurable(ops)
    requires |segs| == SegmentCount(ops, so) && AreSegments(ops, FirstBlank(ops, so), segs)
    ensures SumsAreOf(ops, Wanted(ops, so), FirstBlank(ops, so), segs)
    ensures SmallSizes(ops) ==>
      SumBytes(segs) <= SumSizes(ops) && ByOp(LargeSharesIn(FirstBlank(ops, so)), |segs|, ops) == 0
  {
    var first := FirstBlank(ops, so);
    FirstBlankIs(ops, so);
    SumsAreOfSelected(ops, Wanted(ops, so), first, segs);
    if SmallSizes(ops) {
      SegmentsHoldNoMore(ops, first, segs);
    }
  }
}
