/** Automatic termination of a benchmark once its throughput is stable
    (`Collector.AutoTerm` in pkg/bench/ops.go). */
module AutoTerm {
  import opened Basics
  import opened Arithmetic
  import opened Operations
  import opened ActiveRange
  import opened Aggregate
  import opened Segmentation
  import opened Conservation
  import opened Totals

  const NS_PER_SEC: real := 1000000000.0
  const MIB: real := 1048576.0

  /** MiB per second and objects per second. */
  function SpeedPerSec(s: Segment): (real, real)
    requires s.start < s.endsBefore
  {
    var scale := (s.endsBefore - s.start) as real / NS_PER_SEC;
    PositiveScale(s);
    (s.totalBytes as real / MIB / scale, s.objects / scale)
  }

  lemma PositiveScale(s: Segment)
    requires s.start < s.endsBefore
    ensures (s.endsBefore - s.start) as real / NS_PER_SEC > 0.0
  {
  }

  function Abs(x: real): real {
    if x < 0.0 then -x else x
  }

  /** A speed is within the threshold of the base speed, by bytes if there are any. */
  predicate NearSpeed(base: (real, real), speed: (real, real), threshold: real) {
    if base.0 > 0.0 then Abs(base.0 - speed.0) <= threshold * base.0 else Abs(base.1 - speed.1) <= threshold * base.1
  }

  predicate Near(base: Segment, s: Segment, threshold: real)
    requires base.start < base.endsBefore && s.start < s.endsBefore
  {
    NearSpeed(SpeedPerSec(base), SpeedPerSec(s), threshold)
  }

  ghost predicate ProperWindows(segs: seq<Segment>) {
    forall k :: 0 <= k < |segs| ==> segs[k].start < segs[k].endsBefore
  }

  /** The last `want` segments are all near the last one. */
  ghost predicate Stable(segs: seq<Segment>, want: nat, threshold: real)
    requires ProperWindows(segs)
  {
    0 < want <= |segs| &&
    forall k :: |segs| - want <= k < |segs| - 1 ==> Near(segs[|segs| - 1], segs[k], threshold)
  }

  // ----- the comparison in terms of the segments' totals ------------------------------------

  /** The same length for all segments. */
  ghost predicate EqualLengths(segs: seq<Segment>) {
    forall j, k :: 0 <= j < |segs| && 0 <= k < |segs| ==>
      segs[j].endsBefore - segs[j].start == segs[k].endsBefore - segs[k].start
  }

  /** a differs from b by no more than the threshold times a. */
  predicate Within(a: real, b: real, threshold: real) {
    a - b <= threshold * a && b - a <= threshold * a
  }

  /** The last segment moved bytes: bytes are compared. It moved none: objects are. */
  predicate CloseTo(base: Segment, s: Segment, threshold: real) {
    if base.totalBytes > 0 then Within(base.totalBytes as real, s.totalBytes as real, threshold)
    else Within(base.objects, s.objects, threshold)
  }

  lemma ScaleAtMost(x: real, y: real, c: real, xc: real, yc: real)
    requires c > 0.0 && xc == x * c && yc == y * c
    ensures x <= y <==> xc <= yc
  {
    if x <= y {
      RealMulMonotone(c, x, y);
    } else {
      RealMulStrict(c, y, x);
    }
  }

  lemma ScaleWithin(a: real, b: real, threshold: real, c: real, ac: real, bc: real)
    requires c > 0.0 && ac == a * c && bc == b * c
    ensures Within(a, b, threshold) <==> Within(ac, bc, threshold)
  {
    Associate(threshold, a, c, ac);
    Subtract(a, b, c, ac, bc);
    ScaleAtMost(a - b, threshold * a, c, ac - bc, threshold * ac);
    ScaleAtMost(b - a, threshold * a, c, bc - ac, threshold * ac);
  }

  lemma Associate(a: real, b: real, c: real, bc: real)
    requires bc == b * c
    ensures a * bc == a * b * c
  {
  }

  lemma Subtract(a: real, b: real, c: real, ac: real, bc: real)
    requires ac == a * c && bc == b * c
    ensures ac - bc == (a - b) * c && bc - ac == (b - a) * c
  {
  }

  lemma ScalePositive(x: real, c: real, xc: real)
    requires c > 0.0 && xc == x * c
    ensures x > 0.0 <==> xc > 0.0
  {
  }

  lemma DivideIsScale(x: real, scale: real, c: real, d: real)
    requires scale > 0.0 && d == 1.0 / scale && c == 1.0 / MIB / scale
    ensures c > 0.0 && d > 0.0 && x / scale == x * d && x / MIB / scale == x * c
  {
  }

  lemma SpeedIsScaled(s: Segment, scale: real, c: real, d: real)
    requires s.start < s.endsBefore && scale == (s.endsBefore - s.start) as real / NS_PER_SEC > 0.0
    requires d == 1.0 / scale && c == 1.0 / MIB / scale
    ensures SpeedPerSec(s).0 == s.totalBytes as real * c && SpeedPerSec(s).1 == s.objects * d
  {
    DivideIsScale(s.totalBytes as real, scale, c, d);
    DivideIsScale(s.objects, scale, c, d);
  }

  lemma BothAreScaled(base: Segment, s: Segment) returns (c: real, d: real)
    requires base.start < base.endsBefore && s.endsBefore - s.start == base.endsBefore - base.start
    ensures c > 0.0 && d > 0.0
    ensures SpeedPerSec(base).0 == base.totalBytes as real * c && SpeedPerSec(base).1 == base.objects * d
    ensures SpeedPerSec(s).0 == s.totalBytes as real * c && SpeedPerSec(s).1 == s.objects * d
  {
    var scale := (s.endsBefore - s.start) as real / NS_PER_SEC;
    PositiveScale(s);
    c, d := 1.0 / MIB / scale, 1.0 / scale;
    DivideIsScale(0.0, scale, c, d);
    SpeedIsScaled(base, scale, c, d);
    SpeedIsScaled(s, scale, c, d);
  }

  /** For segments of the same length speeds compare as bytes or objects do. */
  lemma NearIff(base: Segment, s: Segment, threshold: real)
    requires base.start < base.endsBefore && s.endsBefore - s.start == base.endsBefore - base.start
    ensures Near(base, s, threshold) <==> CloseTo(base, s, threshold)
  {
    var c, d := BothAreScaled(base, s);
    SpeedsIff(base.totalBytes as real, s.totalBytes as real, base.objects, s.objects, threshold, c, d,
              SpeedPerSec(base), SpeedPerSec(s));
  }

  lemma SpeedsIff(a: real, b: real, x: real, y: real, threshold: real, c: real, d: real, u: (real, real), v: (real, real))
    requires c > 0.0 && d > 0.0 && u.0 == a * c && u.1 == x * d && v.0 == b * c && v.1 == y * d
    ensures NearSpeed(u, v, threshold) <==> if a > 0.0 then Within(a, b, threshold) else Within(x, y, threshold)
  {
    ScalePositive(a, c, u.0);
    ScaleWithin(a, b, threshold, c, u.0, v.0);
    ScaleWithin(x, y, threshold, d, u.1, v.1);
  }

  /** The verdict on segments of the same length. */
  ghost predicate LastAreClose(segs: seq<Segment>, want: nat, threshold: real) {
    0 < want <= |segs| &&
    forall k :: |segs| - want <= k < |segs| - 1 ==> CloseTo(segs[|segs| - 1], segs[k], threshold)
  }

  lemma StableIff(segs: seq<Segment>, want: nat, threshold: real)
    requires ProperWindows(segs) && EqualLengths(segs)
    ensures Stable(segs, want, threshold) <==> LastAreClose(segs, want, threshold)
  {
    if 0 < want <= |segs| {
      forall k | |segs| - want <= k < |segs| - 1
        ensures Near(segs[|segs| - 1], segs[k], threshold) <==> CloseTo(segs[|segs| - 1], segs[k], threshold)
      {
        NearIff(segs[|segs| - 1], segs[k], threshold);
      }
    }
  }

  function AutoOptions(start: Time, end: Time, splitInto: int): SegmentOptions
    requires splitInto > 0 && start <= end
  {
    SegmentOptions(start, (end - start) / splitInto, true, false)
  }

  /** The active range is long enough for the minimum duration; the product is a
      64-bit one. */
  predicate LongEnough(start: Time, end: Time, minDur: int, want: int, splitInto: int)
    requires want > 0
  {
    end - start > TruncDiv(Wrap64(minDur * splitInto), want)
  }

  /** The comparison of the last `want` segments with the last one. */
  method CheckSegments(segs: seq<Segment>, want: nat, threshold: real) returns (r: Result<bool>)
    requires 1 <= want && ProperWindows(segs)
    ensures r.Ok? ==> (r.value <==> Stable(segs, want, threshold))
    ensures r.Ok? && EqualLengths(segs) ==> (r.value <==> LastAreClose(segs, want, threshold))
    ensures r.Panic? <==> want == 1 && |segs| > 0
  {
    if EqualLengths(segs) {
      StableIff(segs, want, threshold);
    }
    if |segs| < want {
      return Ok(false);
    }
    var base := segs[|segs| - 1];
    for k := |segs| - want to |segs| - 1
      invariant forall j :: |segs| - want <= j < k ==> Near(base, segs[j], threshold)
    {
      if !Near(base, segs[k], threshold) {
        return Ok(false);
      }
    }
    if want == 1 {
      // The first examined segment is reported, and there is none.
      return Panic;
    }
    r := Ok(true);
  }

  /** The segments of the operations in this order. */
  ghost predicate SegmentsInOrder(sorted: seq<Operation>, so: SegmentOptions, segs: seq<Segment>) {
    && |segs| == SegmentCount(sorted, so) && AreSegments(sorted, FirstBlank(sorted, so), segs)
    && ProperWindows(segs) && EqualLengths(segs)
  }

  /** What a check of operations sorted into this order comes to. */
  ghost predicate Decides(sorted: seq<Operation>, so: SegmentOptions, want: nat, threshold: real, r: Result<bool>) {
    if r.Panic? then
      (want == 1 && SegmentCount(sorted, so) > 0) || SomePanic(sorted, FirstBlank(sorted, so), SegmentCount(sorted, so))
    else
      exists segs ::
        SegmentsInOrder(sorted, so, segs) && (want == 1 ==> segs == []) && (r.value <==> LastAreClose(segs, want, threshold))
  }

  /** One check on a snapshot of the collected operations; true terminates. */
  method CheckStable(snapshot: seq<Operation>, opType: string, threshold: real, want: int, splitInto: int, minDur: int)
    returns (r: Result<bool>)
    requires 1 <= want < splitInto
    requires Int64Durations(snapshot)
    ensures var ops := OfType(snapshot, opType);
      var (start, end) := Active(ops, true);
      if end - start <= TruncDiv(Wrap64(minDur * splitInto), want) then r == Ok(false)
      else exists sorted ::
        && multiset(sorted) == multiset(ops) && SortedByStart(sorted)
        && Decides(sorted, SegmentOptions(start, (end - start) / splitInto, true, false), want, threshold, r)
  {
    var ops := FilterByOp(snapshot, opType);
    var start, end := ActiveTimeRange(ops, true);
    if end - start <= TruncDiv(Wrap64(minDur * splitInto), want) {
      return Ok(false);
    }
    var so := AutoOptions(start, end, splitInto);
    var list, sorted := SegmentsOf(ops, so, snapshot, opType);
    if list.Panic? {
      assert Decides(sorted, so, want, threshold, Panic);
      return Panic;
    }
    SegmentWindows(sorted, so, list.value);
    r := CheckSegments(list.value, want, threshold);
    assert SegmentsInOrder(sorted, so, list.value);
    assert Decides(sorted, so, want, threshold, r);
  }

  /** Segments of a filtered copy, which is sorted in place. */
  method SegmentsOf(ops: seq<Operation>, so: SegmentOptions, ghost snapshot: seq<Operation>, ghost opType: string)
    returns (r: Result<seq<Segment>>, sorted: seq<Operation>)
    requires ops == OfType(snapshot, opType) && Int64Durations(snapshot)
    ensures SortedByStart(sorted) && multiset(sorted) == multiset(ops)
    ensures r.Ok? ==> |r.value| == SegmentCount(sorted, so) && AreSegments(sorted, FirstBlank(sorted, so), r.value)
    ensures r.Panic? ==> SomePanic(sorted, FirstBlank(sorted, so), SegmentCount(sorted, so))
  {
    var o := new Operation[|ops|](i requires 0 <= i < |ops| => ops[i]);
    assert o[..] == ops;
    Totals.OfTypeWithin(snapshot, opType);
    r := Segments(o, so);
    sorted := o[..];
  }

  lemma SegmentWindows(ops: seq<Operation>, so: SegmentOptions, segs: seq<Segment>)
    requires |segs| == SegmentCount(ops, so) && AreSegments(ops, FirstBlank(ops, so), segs)
    ensures ProperWindows(segs) && EqualLengths(segs)
  {
    var first := FirstBlank(ops, so);
    forall k | 0 <= k < |segs|
      ensures segs[k].endsBefore - segs[k].start == so.perSegDuration && segs[k].start < segs[k].endsBefore
    {
      var s := Shift(first, k);
      assert FastTotals(ops, s) == Ok(segs[k]);
      FoldKeepsWindow(s, ops[FirstEntry(ops, s.start)..]);
    }
  }

  /** The length asked for is the minimum duration stretched from `want` samples to
      all `splitInto` of them. */
  lemma LongEnoughIff(start: Time, end: Time, minDur: int, want: int, splitInto: int)
    requires 1 <= want && 0 <= minDur && 0 < splitInto && IsInt64(minDur * splitInto)
    ensures LongEnough(start, end, minDur, want, splitInto) <==> want * (end - start) > minDur * splitInto
  {
    var p, length := minDur * splitInto, end - start;
    MulMonotone(minDur, 0, splitInto);
    var q := p / want;
    assert want * q <= p < want * q + want;
    Distribute(want, q, 1);
    if length > q {
      MulMonotone(want, q + 1, length);
    } else {
      MulMonotone(want, length, q);
    }
  }

  /** Whenever segments last at least a nanosecond there are enough of them, and
      the examined ones together fall short of the minimum duration by less than
      one nanosecond each. */
  lemma ExaminedStretch(ops: seq<Operation>, start: Time, end: Time, minDur: int, want: int, splitInto: int)
    requires 1 <= want < splitInto && 0 <= minDur && IsInt64(minDur * splitInto)
    requires Active(ops, true) == (start, end) && start <= end
    requires LongEnough(start, end, minDur, want, splitInto)
    ensures var so := AutoOptions(start, end, splitInto);
      && want * so.perSegDuration > minDur - want
      && (so.perSegDuration >= 1 ==> want <= splitInto - 1 <= SegmentCount(ops, so))
      && (so.perSegDuration < 1 ==> SegmentCount(ops, so) == 0)
  {
    var length := end - start;
    var d := length / splitInto;
    Stretch(length, d, minDur, want, splitInto);
    if d >= 1 {
      EnoughWindows(length, d, splitInto);
    }
  }

  lemma EnoughWindows(length: int, d: int, splitInto: int)
    requires 0 < splitInto && d == length / splitInto && d >= 1
    ensures length > 0 && splitInto - 1 <= (length - 1) / d
  {
    assert splitInto * d <= length;
    MulMonotone(splitInto, 1, d);
    var n := (length - 1) / d;
    assert length - 1 < n * d + d;
    if n < splitInto - 1 {
      MulMonotone(d, n + 1, splitInto - 1);
    }
  }

  lemma Stretch(length: int, d: int, minDur: int, want: int, splitInto: int)
    requires 1 <= want && 0 < splitInto && 0 <= minDur && d == length / splitInto
    requires length > TruncDiv(minDur * splitInto, want)
    ensures want * d > minDur - want
  {
    var product := minDur * splitInto;
    MulMonotone(minDur, 0, splitInto);
    var q := product / want;
    assert product < q * want + want;
    assert q + 1 <= length;
    MulMonotone(want, q + 1, length);
    assert product < want * length;
    assert length < d * splitInto + splitInto;
    MulMonotone(want, length + 1, d * splitInto + splitInto);
    assert splitInto * minDur < splitInto * (want * d + want) by {
      Regroup(want, d, splitInto);
    }
    if want * d + want <= minDur {
      MulMonotone(splitInto, want * d + want, minDur);
    }
  }

  lemma Regroup(a: int, b: int, c: int)
    ensures a * (b * c + c) == c * (a * b + a)
  {
  }

  /** Whatever types are asked for, a check looks at operations of one type only: a
      check on all types looks at the type of the operation that started first. */
  lemma OneTypeIsExamined(sorted: seq<Operation>, start: Time, end: Time, splitInto: int, op: Operation)
    requires splitInto > 0 && start <= end && op in sorted && sorted[0].opType != ""
    ensures Selects(FirstBlank(sorted, AutoOptions(start, end, splitInto)), op) <==> op.opType == sorted[0].opType
  {
    FirstBlankIs(sorted, AutoOptions(start, end, splitInto));
  }
}
