/** Adding one operation to one time segment (`Operation.Aggregate` in
    pkg/bench/ops.go, `Segment` in pkg/bench/analyze.go). */
module Aggregate {
  import opened Basics
  import opened Arithmetic
  import opened Operations
  import Float64
  import opened F = Float64

  const NS_PER_MS: real := 1000000.0

  /** The value of a segment: its window, what it selects, and its totals. */
  datatype Segment = Segment(
    opType: string,
    host: string,
    objsPerOp: int,
    totalBytes: int,
    fullOps: int,
    partialOps: int,
    opsStarted: int,
    opsEnded: int,
    objects: real,
    errors: int,
    reqAvg: real,
    start: Time,
    endsBefore: Time)
  {
    /** An operation of the selected type that has not ended before the window
        and starts before the window's end. */
    predicate Touches(op: Operation) {
      (opType == "" || op.opType == opType) && op.start < endsBefore && start <= op.end
    }

    predicate StartsIn(op: Operation) {
      Touches(op) && start <= op.start
    }

    predicate EndsIn(op: Operation) {
      Touches(op) && op.end < endsBefore
    }

    /** Operations that add bytes and objects. A failed operation does so only
        when it spans the window, neither starting nor ending in it. */
    predicate Credits(op: Operation) {
      Touches(op) && (op.Failed() ==> !StartsIn(op) && !EndsIn(op))
    }
  }

  function Count(b: bool): int {
    if b then 1 else 0
  }

  /** How long op runs inside [start, end); 0 when it does not. */
  function Overlap(op: Operation, start: Time, end: Time): (r: int)
    ensures r >= 0
  {
    Max(0, Min(op.end, end) - Max(op.start, start))
  }

  function ObjectShare(op: Operation, part: int): real {
    if op.Duration() <= 0 || part == op.Duration() then op.objPerOp as real
    else op.objPerOp as real * part as real / op.Duration() as real
  }

  /** The bytes op adds to s: all of them when it starts and ends there, its share
      as the program computes it when it is split. */
  function Bytes(s: Segment, op: Operation): int {
    if !s.Credits(op) then 0
    else if (s.StartsIn(op) && s.EndsIn(op)) || op.Duration() <= 0 then op.size
    else PartSize(op.size, Overlap(op, s.start, s.endsBefore), op.Duration())
  }

  function Objects(s: Segment, op: Operation): real {
    if s.Credits(op) then ObjectShare(op, Overlap(op, s.start, s.endsBefore)) else 0.0
  }

  function Millis(s: Segment, op: Operation): real {
    if s.EndsIn(op) && !op.Failed() then op.Duration() as real / NS_PER_MS else 0.0
  }

  predicate Full(s: Segment, op: Operation) {
    s.StartsIn(op) && s.EndsIn(op) && !op.Failed()
  }

  /** The segment with op's contribution added: one line per total. */
  function Add(s: Segment, op: Operation): Segment {
    s.(totalBytes := s.totalBytes + Bytes(s, op),
       fullOps := s.fullOps + Count(Full(s, op)),
       partialOps := s.partialOps + Count(s.Touches(op) && !(s.StartsIn(op) && s.EndsIn(op))),
       opsStarted := s.opsStarted + Count(s.StartsIn(op) && !(op.Failed() && s.EndsIn(op))),
       opsEnded := s.opsEnded + Count(s.EndsIn(op) && !(op.Failed() && s.StartsIn(op))),
       objects := s.objects + Objects(s, op),
       errors := s.errors + Count(s.EndsIn(op) && op.Failed()),
       reqAvg := s.reqAvg + Millis(s, op),
       objsPerOp := if Full(s, op) then op.objPerOp else s.objsPerOp)
  }

  // ----- the share of a split operation --------------------------------------------

  /** The product of size and time in floating point; factors and result are rounded. */
  function FloatProduct(size: nat, part: nat): (r: real)
    ensures r == 0.0 || r >= 1.0
  {
    Mul(Double(size as real), Double(part as real))
  }

  /** The test for overflow: the largest 64-bit integer is 2^63 in floating point. */
  predicate FallsBack(size: int, part: nat) {
    size > 0 && FloatProduct(size, part) > REAL_2_63
  }

  /** The share when the integer product is taken to have overflowed. */
  function FloatQuotient(size: nat, part: nat, dur: nat): real
    requires FallsBack(size, part) && 0 < dur < TWO_63
  {
    ExceedsIff(dur as real);
    Div(FloatProduct(size, part), Double(dur as real))
  }

  /** The share as computed: an int64 product, replaced by a floating-point quotient
      when the product is too large in floating point. Durations fit in 64 bits. */
  function PartSize(size: int, part: nat, dur: int): int
    requires dur > 0
  {
    if FallsBack(size, part) && dur < TWO_63 then FloatQuotient(size, part, dur).Floor
    else TruncDiv(Wrap64(size * part), dur)
  }

  /** Operations whose share is split over several windows. */
  predicate Splits(s: Segment, op: Operation) {
    s.Credits(op) && !(s.StartsIn(op) && s.EndsIn(op))
  }

  /** The sanity check on the share fails, which the program answers with a panic. */
  predicate Panics(s: Segment, op: Operation) {
    Splits(s, op) && op.Duration() > 0 &&
    var part := PartSize(op.size, Overlap(op, s.start, s.endsBefore), op.Duration());
    part < 0 || part > op.size
  }

  lemma QuotientBounds(size: int, part: int, dur: int)
    requires 0 <= size && 0 <= part <= dur && dur > 0
    ensures 0 <= size * part
    ensures 0 <= size * part / dur <= size
    ensures part == dur ==> size * part / dur == size
  {
    MulMonotone(size, 0, part);
    MulMonotone(size, part, dur);
    DivMonotone(0, size * part, dur);
    DivMonotone(size * part, size * dur, dur);
    DivUnique(size * dur, dur, size);
  }

  /** A size and a time of at most 53 bits are multiplied exactly before rounding. */
  lemma ExactFactors(size: nat, part: nat, p: nat)
    requires size < TWO_53 && part < TWO_53 && p as real == size as real * part as real
    ensures FloatProduct(size, part) == Double(p as real)
  {
    DoubleOfInteger(size);
    DoubleOfInteger(part);
    MulRounds(size as real, part as real, p as real);
  }

  lemma FallsBackIff(size: nat, part: nat, p: nat)
    requires size < TWO_53 && part < TWO_53 && p as real == size as real * part as real
    ensures FallsBack(size, part) <==> p > TWO_63 + 1024
  {
    ExactFactors(size, part, p);
    if size == 0 {
      NoProduct(part as real, p as real);
    }
    ProductExceeds(size, part, p);
  }

  lemma NoProduct(b: real, p: real)
    requires p == 0.0 * b
    ensures p == 0.0
  {
  }

  lemma ProductExceeds(size: nat, part: nat, p: nat)
    requires FloatProduct(size, part) == Double(p as real) && (size == 0 ==> p == 0)
    ensures FallsBack(size, part) <==> p > TWO_63 + 1024
  {
    ExceedsIff(p as real);
  }

  /** A product that fits in 64 bits never falls back, whatever rounds. */
  lemma SmallProductStays(size: nat, part: nat)
    requires size * part < TWO_63
    ensures !FallsBack(size, part)
  {
    if size > 0 {
      var a, b := Double(size as real), Double(part as real);
      var p := a * b;
      RoundedProduct(size, part, a, b);
      MulRounds(a, b, p);
      ExceedsIff(p);
    }
  }

  lemma RoundedProduct(size: nat, part: nat, a: real, b: real)
    requires size > 0 && size * part < TWO_63
    requires a == Double(size as real) && b == Double(part as real)
    ensures a * b <= REAL_2_63 + 1024.0
  {
    RealProduct(size, part);
    var p := (size * part) as real;
    if part == 0 {
      assert a * 0.0 == 0.0;
    } else {
      OneFactorExact(size, part);
      RoundedIsNear(size as real, a);
      RoundedIsNear(part as real, b);
      RoundedFactors(size as real, part as real, a, b, p);
    }
  }

  lemma RoundedFactors(x: real, y: real, a: real, b: real, p: real)
    requires x >= 1.0 && y >= 1.0 && x * y == p < TWO_63 as real
    requires (a == x && REAL_2_53 * (b - y) <= y) || (b == y && REAL_2_53 * (a - x) <= x)
    ensures a * b <= REAL_2_63 + 1024.0
  {
    if a == x {
      RoundedFactor(x, y, b, p);
    } else {
      RoundedFactor(y, x, a, p);
    }
  }

  lemma OneFactorExact(size: nat, part: nat)
    requires size > 0 && part > 0 && size * part < TWO_63
    ensures size < TWO_53 || part < TWO_53
    ensures size < TWO_53 ==> Double(size as real) == size as real
    ensures part < TWO_53 ==> Double(part as real) == part as real
  {
    if size >= TWO_53 && part >= TWO_53 {
      MulMonotone(size, TWO_53, part);
      MulMonotone(TWO_53, TWO_53, size);
    }
    if size < TWO_53 {
      DoubleOfInteger(size);
    }
    if part < TWO_53 {
      DoubleOfInteger(part);
    }
  }

  /** Rounding one factor moves a product below 2^63 to at most 2^63 + 1024. */
  lemma RoundedFactor(a: real, b: real, r: real, p: real)
    requires a >= 1.0 && a * b == p < TWO_63 as real && REAL_2_53 * (r - b) <= b
    ensures a * r <= REAL_2_63 + 1024.0
  {
    RealMulMonotone(a, REAL_2_53 * (r - b), b);
    assert a * (REAL_2_53 * (r - b)) == REAL_2_53 * (a * r - p);
  }

  /** A product below 2^63 is shared out exactly. */
  lemma PartSizeIsShare(size: nat, part: nat, dur: int)
    requires part <= dur && dur > 0 && size * part < TWO_63
    ensures PartSize(size, part, dur) == size * part / dur
  {
    SmallProductStays(size, part);
    QuotientBounds(size, part, dur);
  }

  /** What the sanity check finds: for up to 2^52 bytes and 2^53 nanoseconds it fails
      exactly for products that overflow the integer but not the rounded product. */
  lemma CheckFailsIff(size: nat, part: nat, dur: nat)
    requires size < TWO_52 && part <= dur < TWO_53 && dur > 0
    ensures !(0 <= PartSize(size, part, dur) <= size) <==> TWO_63 <= size * part <= TWO_63 + 1024
    ensures 0 <= PartSize(size, part, dur) <= size ==> -1 <= PartSize(size, part, dur) - size * part / dur <= 1
  {
    QuotientBounds(size, part, dur);
    RealProduct(size, part);
    FallsBackIff(size, part, size * part);
    if size * part < TWO_63 {
      PartSizeIsShare(size, part, dur);
    } else if size * part <= TWO_63 + 1024 {
      WrappedIsNegative(size * part, dur);
    } else {
      FallbackShare(size, part, dur, size * part);
    }
  }

  lemma FallbackShare(size: nat, part: nat, dur: nat, p: nat)
    requires size < TWO_52 && part <= dur < TWO_53 && 0 < dur && FallsBack(size, part)
    requires p == size * part && TWO_63 <= p
    ensures 0 <= PartSize(size, part, dur) <= size && -1 <= PartSize(size, part, dur) - p / dur <= 1
  {
    FallbackValue(size, part, dur, p);
    ExactRatio(size, part, dur, p);
    NearFloor(p as real, dur as real, p as real / dur as real, size, p / dur);
  }

  lemma FallbackValue(size: nat, part: nat, dur: nat, p: nat)
    requires size < TWO_53 && part < TWO_53 && 0 < dur < TWO_53 && FallsBack(size, part) && p == size * part
    ensures p > 0 && 1.0 <= dur as real <= Double(p as real)
    ensures PartSize(size, part, dur) == Div(Double(p as real), dur as real).Floor
  {
    ExactProduct(size, part, p);
    FallbackPart(size, part, dur, Double(p as real));
  }

  /** Just above 2^63 the wrapped product is so low that its quotient is negative. */
  lemma WrappedIsNegative(p: int, dur: int)
    requires TWO_63 <= p <= TWO_63 + 1024 && 0 < dur < TWO_53
    ensures TruncDiv(Wrap64(p), dur) < 0
  {
    var w := Wrap64(p);
    assert w == p - TWO_64;
    DivUnique(dur, dur, 1);
    DivMonotone(dur, -w, dur);
  }

  lemma FallbackPart(size: nat, part: nat, dur: nat, r: real)
    requires FallsBack(size, part) && 0 < dur < TWO_53 && r == FloatProduct(size, part)
    ensures 1.0 <= dur as real <= r && PartSize(size, part, dur) == Div(r, dur as real).Floor
  {
    DoubleOfInteger(dur);
  }

  lemma ExactProduct(size: nat, part: nat, p: nat)
    requires size < TWO_53 && part < TWO_53 && p == size * part
    ensures FloatProduct(size, part) == Double(p as real)
  {
    RealProduct(size, part);
    ExactFactors(size, part, p);
  }

  lemma ExactRatio(size: nat, part: nat, dur: nat, p: nat)
    requires part <= dur && 0 < dur && p == size * part
    ensures 0.0 <= p as real / dur as real <= size as real
    ensures (p as real / dur as real).Floor == p / dur
  {
    RealProduct(size, dur);
    MulMonotone(size, part, dur);
    FloorOfQuotient(p, dur);
    NotMore(p as real / dur as real, size as real, dur as real, p as real, (size * dur) as real);
  }

  /** The rounded p, divided by d and rounded, against the exact quotient t. */
  lemma NearFloor(p: real, d: real, t: real, size: nat, f: int)
    requires 1.0 <= d && 1.0 <= p && d <= Double(p) && size < TWO_52
    requires t == p / d && 0.0 <= t <= size as real && f == t.Floor
    ensures 0 <= Div(Double(p), d).Floor <= size && -1 <= Div(Double(p), d).Floor - f <= 1
  {
    var r := Double(p);
    RoundedIsNear(p, r);
    QuotientTimes(p, d, t);
    DivIsNear(t, p, r, d);
    Nearest(t, Div(r, d), size);
  }

  lemma RoundedIsNear(p: real, r: real)
    requires 1.0 <= p && r == Double(p)
    ensures REAL_2_53 * (r - p) <= p && REAL_2_53 * (p - r) <= p
  {
    assert r == Rounded(p);
  }

  lemma QuotientTimes(p: real, d: real, t: real)
    requires d >= 1.0 && t == p / d
    ensures t * d == p
  {
  }

  lemma Nearest(t: real, r: real, size: nat)
    requires 0.0 <= t <= size as real && r >= 1.0 && t - 1.0 < r < t + 1.0
    ensures 0 <= r.Floor <= size && -1 <= r.Floor - t.Floor <= 1
  {
  }

  lemma NotMore(t: real, s: real, d: real, p: real, limit: real)
    requires d >= 1.0 && t * d == p && s * d == limit && 0.0 <= p <= limit
    ensures 0.0 <= t <= s
  {
    if t > s {
      RealMulStrict(d, s, t);
    }
    if t < 0.0 {
      RealMulStrict(d, t, 0.0);
    }
  }

  /** Exactly when adding op to s panics: a share is split whose byte-nanosecond
      product is 2^63 or up to 1024 more, or the operation's size is negative. */
  lemma PanicsIff(s: Segment, op: Operation)
    requires s.start < s.endsBefore && op.size < TWO_52 && op.Duration() < TWO_53
    ensures Panics(s, op) <==>
      Splits(s, op) && (op.size < 0 || TWO_63 <= op.size * Overlap(op, s.start, s.endsBefore) <= TWO_63 + 1024)
  {
    if Splits(s, op) && op.size >= 0 {
      var part := Overlap(op, s.start, s.endsBefore);
      assert 0 <= part <= op.Duration() && op.Duration() > 0;
      CheckFailsIff(op.size, part, op.Duration());
    }
  }

  /** The least such product: 2 GiB in 2^33 ns, half of it inside a window of 2^32 ns. */
  lemma HalfOfTwoGiBPanics(s: Segment, op: Operation)
    requires op.size == 0x8000_0000 && op.start == 0 && op.end == 0x2_0000_0000 && !op.Failed()
    requires s.start == 0x1_0000_0000 && s.endsBefore == 0x2_0000_0001 && s.opType == op.opType
    ensures Panics(s, op)
  {
    PanicsIff(s, op);
  }

  /** One more than 2^63: rounding takes the product back to 2^63. */
  lemma OneMorePanics(s: Segment, op: Operation)
    requires op.size == 77158673929 && op.start == 0 && op.end == 119537722 && !op.Failed()
    requires s.start == 1 && s.endsBefore == 119537723 && s.opType == op.opType
    ensures op.size * Overlap(op, s.start, s.endsBefore) == TWO_63 + 1 && Panics(s, op)
  {
    PanicsIff(s, op);
  }

  /** Bytes times nanoseconds fit in 64 bits. */
  predicate Moderate(op: Operation) {
    0 <= op.size && op.size * op.Duration() < TWO_63
  }

  /** No operation whose size times duration stays below 2^63 panics anywhere. */
  lemma SmallOpsDoNotPanic(s: Segment, op: Operation)
    requires s.start < s.endsBefore && Moderate(op)
    ensures !Panics(s, op)
  {
    if Splits(s, op) {
      var part := Overlap(op, s.start, s.endsBefore);
      MulMonotone(op.size, part, op.Duration());
      PartSizeIsShare(op.size, part, op.Duration());
      QuotientBounds(op.size, part, op.Duration());
    }
  }

  /** The objects of a split share, computed one way or the other. */
  lemma ObjectsOfSplit(op: Operation, part: int)
    requires op.Duration() > 0
    ensures op.objPerOp as real * part as real / op.Duration() as real == ObjectShare(op, part)
  {
    if part == op.Duration() {
      RealCancel(op.objPerOp as real, part as real);
    }
  }

  // ----- the in-place form -----------------------------------------------------------

  datatype Outcome = Returned(done: bool) | Panicked

  /** A segment under construction, updated in place by reference. */
  class SegmentRef {
    var opType: string
    var host: string
    var objsPerOp: int
    var totalBytes: int
    var fullOps: int
    var partialOps: int
    var opsStarted: int
    var opsEnded: int
    var objects: real
    var errors: int
    var reqAvg: real
    var start: Time
    var endsBefore: Time

    constructor (s: Segment)
      ensures Value() == s
    {
      opType, host, objsPerOp, totalBytes := s.opType, s.host, s.objsPerOp, s.totalBytes;
      fullOps, partialOps, opsStarted, opsEnded := s.fullOps, s.partialOps, s.opsStarted, s.opsEnded;
      objects, errors, reqAvg, start, endsBefore := s.objects, s.errors, s.reqAvg, s.start, s.endsBefore;
    }

    /** The segment's current value, as copied when it is appended to a list. */
    function Value(): Segment
      reads this
    {
      Segment(opType, host, objsPerOp, totalBytes, fullOps, partialOps, opsStarted, opsEnded,
              objects, errors, reqAvg, start, endsBefore)
    }

    /** The share of a split operation, with the fall-back on overflow. */
    static method PartBytes(size: int, part: nat, dur: int) returns (partSize: int)
      requires 0 < dur < TWO_63
      ensures partSize == PartSize(size, part, dur)
    {
      partSize := TruncDiv(Wrap64(size * part), dur);
      if FallsBack(size, part) {
        partSize := FloatQuotient(size, part, dur).Floor;
      }
    }

    method Aggregate(op: Operation) returns (r: Outcome)
      requires start < endsBefore && IsInt64(op.Duration())
      modifies this
      ensures r.Panicked? <==> Panics(old(Value()), op)
      ensures r.Returned? ==> Value() == Add(old(Value()), op)
      ensures r.Returned? ==> (r.done <==> old(endsBefore) <= op.start)
      ensures start == old(start) && endsBefore == old(endsBefore)
    {
      if op.start >= endsBefore {
        return Returned(true);
      }
      if |opType| > 0 && op.opType != opType {
        return Returned(false);
      }
      if op.end < start {
        return Returned(false);
      }
      var startedInSegment := op.start >= start;
      var endedInSegment := op.end < endsBefore;

      if startedInSegment && endedInSegment {
        if |op.err| != 0 {
          errors := errors + 1;
          return Returned(false);
        }
        totalBytes := totalBytes + op.size;
        fullOps := fullOps + 1;
        opsStarted := opsStarted + 1;
        opsEnded := opsEnded + 1;
        objsPerOp := op.objPerOp;
        objects := objects + op.objPerOp as real;
        reqAvg := reqAvg + (op.end - op.start) as real / NS_PER_MS;
        return Returned(false);
      }
      r := AggregatePart(op, startedInSegment, endedInSegment);
    }

    /** The part of Aggregate for an operation that runs across a border of the window. */
    method AggregatePart(op: Operation, startedInSegment: bool, endedInSegment: bool) returns (r: Outcome)
      requires start < endsBefore && IsInt64(op.Duration()) && Value().Touches(op)
      requires startedInSegment <==> Value().StartsIn(op)
      requires endedInSegment <==> Value().EndsIn(op)
      requires !(startedInSegment && endedInSegment)
      modifies this
      ensures r.Panicked? <==> Panics(old(Value()), op)
      ensures r.Returned? ==> Value() == Add(old(Value()), op) && !r.done
      ensures start == old(start) && endsBefore == old(endsBefore)
    {
      partialOps := partialOps + 1;
      if startedInSegment {
        opsStarted := opsStarted + 1;
        if |op.err| != 0 {
          return Returned(false);
        }
      }
      if endedInSegment {
        opsEnded := opsEnded + 1;
        if |op.err| != 0 {
          errors := errors + 1;
          return Returned(false);
        }
        reqAvg := reqAvg + (op.end - op.start) as real / NS_PER_MS;
      }

      var ok := AddShare(op, startedInSegment, endedInSegment);
      return if ok then Returned(false) else Panicked;
    }

    /** The part of Aggregate that splits an operation's bytes and objects; false
        stands for the panic of the sanity check. */
    method AddShare(op: Operation, startedInSegment: bool, endedInSegment: bool) returns (ok: bool)
      requires start < endsBefore && op.start < endsBefore && start <= op.end && IsInt64(op.Duration())
      requires startedInSegment <==> start <= op.start
      requires endedInSegment <==> op.end < endsBefore
      requires !(startedInSegment && endedInSegment)
      modifies this`objects, this`totalBytes
      ensures var part := Overlap(op, start, endsBefore);
        && 0 <= part <= op.Duration() && op.Duration() > 0
        && (ok <==> 0 <= PartSize(op.size, part, op.Duration()) <= op.size)
        && (ok ==> objects == old(objects) + ObjectShare(op, part))
        && (ok ==> totalBytes == old(totalBytes) + PartSize(op.size, part, op.Duration()))
    {
      var opDur := op.end - op.start;
      var partStart, partEnd := op.start, op.end;
      if !startedInSegment {
        partStart := start;
      }
      if !endedInSegment {
        partEnd := endsBefore;
      }
      var partDur := partEnd - partStart;
      assert partDur == Overlap(op, start, endsBefore);
      var partSize := PartBytes(op.size, partDur, opDur);
      if partSize < 0 || partSize > op.size {
        return false;
      }
      ObjectsOfSplit(op, partDur);
      objects := objects + op.objPerOp as real * partDur as real / opDur as real;
      totalBytes := totalBytes + partSize;
      return true;
    }
  }
}
