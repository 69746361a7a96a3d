/** The one-segment summary of a run (`Operations.Total` in pkg/bench/analyze.go)
    and the test whether operation types overlap (`isMixed` in pkg/bench/ops.go). */
module Totals {
  import opened Basics
  import opened Arithmetic
  import opened Operations
  import opened ActiveRange
  import opened Aggregate
  import opened Segmentation

  // ----- overlapping operation types ---------------------------------------------------

  /** The operation types in order of first appearance. */
  function TypesOf(ops: seq<Operation>): seq<string> {
    if |ops| == 0 then []
    else
      var types := TypesOf(ops[..|ops| - 1]);
      var t := ops[|ops| - 1].opType;
      if t in types then types else types + [t]
  }

  /** From the first start to the last end. */
  ghost function Range(ops: seq<Operation>): (Time, Time) {
    if |ops| == 0 then (ZERO_TIME, ZERO_TIME)
    else (MinOf(Starts(ops), ops[0].start), MaxOf(Ends(ops), ops[0].end))
  }

  /** No operation starts before the range or ends after it, and some start and some
      end are its borders. */
  lemma RangeIsExact(ops: seq<Operation>, op: Operation)
    requires op in ops
    ensures Range(ops).0 <= op.start && op.end <= Range(ops).1
    ensures exists p :: p in ops && p.start == Range(ops).0
    ensures exists p :: p in ops && p.end == Range(ops).1
  {
    assert ops[0] in ops;
    assert op.start in Starts(ops) && op.end in Ends(ops);
    if Range(ops).0 != ops[0].start {
      assert Range(ops).0 in Starts(ops);
    }
    if Range(ops).1 != ops[0].end {
      assert Range(ops).1 in Ends(ops);
    }
  }

  method TimeRange(ops: seq<Operation>) returns (start: Time, end: Time)
    ensures (start, end) == Range(ops)
  {
    if |ops| == 0 {
      return ZERO_TIME, ZERO_TIME;
    }
    start, end := ops[0].start, ops[0].end;
    for i := 0 to |ops|
      invariant (start, end) == RangeUpTo(ops, i)
    {
      RangeStep(ops, i);
      if ops[i].start < start {
        start := ops[i].start;
      }
      if end < ops[i].end {
        end := ops[i].end;
      }
    }
    assert ops[..|ops|] == ops;
  }

  ghost function RangeUpTo(ops: seq<Operation>, i: nat): (Time, Time)
    requires i <= |ops| && |ops| > 0
  {
    (MinOf(Starts(ops[..i]), ops[0].start), MaxOf(Ends(ops[..i]), ops[0].end))
  }

  lemma RangeStep(ops: seq<Operation>, i: nat)
    requires i < |ops|
    ensures RangeUpTo(ops, 0) == (ops[0].start, ops[0].end)
    ensures RangeUpTo(ops, i + 1) ==
      (Min(ops[i].start, RangeUpTo(ops, i).0), Max(ops[i].end, RangeUpTo(ops, i).1))
  {
    BoundaryStep(ops, i);
    MinOfAdd(Starts(ops[..i]), ops[i].start, ops[0].start);
    MaxOfAdd(Ends(ops[..i]), ops[i].end, ops[0].end);
  }

  ghost function RangeOf(ops: seq<Operation>, opType: string): (Time, Time) {
    Range(OfType(ops, opType))
  }

  /** The comparison made for one ordered pair of types. */
  ghost predicate Overtakes(a: (Time, Time), b: (Time, Time)) {
    if b.0 < a.0 then b.1 > a.0 else a.1 > b.1
  }

  ghost predicate Mixed(ops: seq<Operation>) {
    exists a, b :: a in TypesOf(ops) && b in TypesOf(ops) && a != b && Overtakes(RangeOf(ops, a), RangeOf(ops, b))
  }

  method AppearingTypes(ops: seq<Operation>) returns (types: seq<string>)
    ensures types == TypesOf(ops)
  {
    types := [];
    for i := 0 to |ops|
      invariant types == TypesOf(ops[..i])
    {
      assert ops[..i + 1][..i] == ops[..i];
      if ops[i].opType !in types {
        types := types + [ops[i].opType];
      }
    }
    assert ops[..|ops|] == ops;
  }

  /** The list holds the type of every operation, each once. */
  lemma {:induction false} TypesOfIsExact(ops: seq<Operation>)
    ensures forall t :: t in TypesOf(ops) <==> exists op :: op in ops && op.opType == t
    ensures forall t :: multiset(TypesOf(ops))[t] <= 1
  {
    if |ops| > 0 {
      var init, last := ops[..|ops| - 1], ops[|ops| - 1];
      assert ops == init + [last];
      TypesOfIsExact(init);
      OneMoreType(ops, init, last);
    }
  }

  lemma OneMoreType(ops: seq<Operation>, init: seq<Operation>, last: Operation)
    requires ops == init + [last]
    requires forall t :: t in TypesOf(init) <==> exists op :: op in init && op.opType == t
    ensures forall t :: t in TypesOf(ops) <==> exists op :: op in ops && op.opType == t
  {
    assert ops[..|ops| - 1] == init;
    assert last in ops && forall op :: op in init ==> op in ops;
    forall t ensures t in TypesOf(ops) <==> exists op :: op in ops && op.opType == t {
      if op :| op in ops && op.opType == t {
        assert op in init || op == last;
      }
    }
  }

  // ----- alphabetical order ---------------------------------------------------------------

  /** Strings are compared character by character. */
  predicate NotAfter(a: string, b: string) {
    a == "" || (b != "" && (a[0] < b[0] || (a[0] == b[0] && NotAfter(a[1..], b[1..]))))
  }

  predicate Alphabetical(s: seq<string>) {
    forall i, j :: 0 <= i < j < |s| ==> NotAfter(s[i], s[j])
  }

  lemma {:induction false} OneIsNotAfter(a: string, b: string)
    ensures NotAfter(a, b) || NotAfter(b, a)
  {
    if a != "" && b != "" {
      OneIsNotAfter(a[1..], b[1..]);
    }
  }

  lemma {:induction false} NotAfterEither(a: string, b: string, c: string)
    requires NotAfter(a, b) && NotAfter(b, c)
    ensures NotAfter(a, c)
  {
    if a != "" && a[0] == b[0] == c[0] {
      NotAfterEither(a[1..], b[1..], c[1..]);
    }
  }

  method SortStrings(s: seq<string>) returns (t: seq<string>)
    ensures Alphabetical(t) && multiset(t) == multiset(s)
  {
    t := [];
    for i := 0 to |s|
      invariant Alphabetical(t) && multiset(t) == multiset(s[..i])
    {
      assert s[..i + 1] == s[..i] + [s[i]];
      var k := Position(t, s[i]);
      InsertKeepsOrder(t[..k], s[i], t[k..], t);
      t := t[..k] + [s[i]] + t[k..];
    }
    assert s[..|s|] == s;
  }

  lemma InsertKeepsOrder(before: seq<string>, x: string, after: seq<string>, t: seq<string>)
    requires t == before + after && Alphabetical(t)
    requires (forall i :: 0 <= i < |before| ==> NotAfter(before[i], x))
    requires (forall i :: 0 <= i < |after| ==> NotAfter(x, after[i]))
    ensures Alphabetical(before + [x] + after)
    ensures multiset(before + [x] + after) == multiset(t) + multiset{x}
  {
    var u := before + [x] + after;
    forall i, j | 0 <= i < j < |u| ensures NotAfter(u[i], u[j]) {
      var i', j' := if i <= |before| then i else i - 1, if j <= |before| then j else j - 1;
      if i != |before| && j != |before| {
        assert u[i] == t[i'] && u[j] == t[j'];
      }
    }
  }

  /** Where x belongs in an alphabetical list. */
  method Position(t: seq<string>, x: string) returns (k: nat)
    requires Alphabetical(t)
    ensures k <= |t|
    ensures forall i :: 0 <= i < k ==> NotAfter(t[i], x)
    ensures forall i :: k <= i < |t| ==> NotAfter(x, t[i])
  {
    k := 0;
    while k < |t| && NotAfter(t[k], x)
      invariant k <= |t| && forall i :: 0 <= i < k ==> NotAfter(t[i], x)
    {
      k := k + 1;
    }
    forall i | k <= i < |t| ensures NotAfter(x, t[i]) {
      OneIsNotAfter(x, t[k]);
      if i > k {
        NotAfterEither(x, t[k], t[i]);
      }
    }
  }

  // ----- the comparison of types ------------------------------------------------------------

  /** In order of appearance, or alphabetically when types overlap. */
  method OpTypes(ops: seq<Operation>) returns (types: seq<string>)
    ensures if Mixed(ops) then Alphabetical(types) && multiset(types) == multiset(TypesOf(ops))
            else types == TypesOf(ops)
  {
    types := AppearingTypes(ops);
    var mixed := AnyOvertakes(ops, types);
    if mixed {
      types := SortStrings(types);
    }
  }

  method IsMixed(ops: seq<Operation>) returns (mixed: bool)
    ensures mixed <==> Mixed(ops)
  {
    var types := OpTypes(ops);
    if Mixed(ops) {
      SameStrings(types, TypesOf(ops));
    }
    mixed := AnyOvertakes(ops, types);
  }

  lemma SameStrings(a: seq<string>, b: seq<string>)
    requires multiset(a) == multiset(b)
    ensures forall t :: t in a <==> t in b
  {
    forall t ensures t in a <==> t in b {
      assert t in multiset(a) <==> t in multiset(b);
    }
  }

  /** Some type's range overtakes another's. */
  method AnyOvertakes(ops: seq<Operation>, types: seq<string>) returns (mixed: bool)
    requires forall t :: t in types <==> t in TypesOf(ops)
    ensures mixed <==> Mixed(ops)
  {
    if |types| <= 1 {
      assert forall a, b :: a in types && b in types ==> a == b;
      return false;
    }
    for i := 0 to |types|
      invariant forall a :: a in types[..i] ==> !OvertakesAny(ops, types, a)
    {
      mixed := OvertakesOther(ops, types, types[i]);
      if mixed {
        assert types[i] in types;
        return;
      }
    }
    assert types[..|types|] == types;
    mixed := false;
  }

  ghost predicate OvertakesAny(ops: seq<Operation>, types: seq<string>, a: string) {
    exists b :: b in types && a != b && Overtakes(RangeOf(ops, a), RangeOf(ops, b))
  }

  /** The inner loop of the comparison. */
  method OvertakesOther(ops: seq<Operation>, types: seq<string>, a: string) returns (found: bool)
    ensures found <==> OvertakesAny(ops, types, a)
  {
    var ofA := FilterByOp(ops, a);
    var aStart, aEnd := TimeRange(ofA);
    for j := 0 to |types|
      invariant forall b :: b in types[..j] && a != b ==> !Overtakes(RangeOf(ops, a), RangeOf(ops, b))
    {
      var b := types[j];
      if a != b {
        var ofB := FilterByOp(ops, b);
        var bStart, bEnd := TimeRange(ofB);
        var firstEnd, secondStart := aEnd, bEnd;
        if bStart < aStart {
          firstEnd, secondStart := bEnd, aStart;
        }
        if firstEnd > secondStart {
          assert b in types;
          return true;
        }
      }
    }
    assert types[..|types|] == types;
    found := false;
  }

  /** b's range begins inside a's, or both begin together and end apart. */
  ghost predicate Interleave(a: (Time, Time), b: (Time, Time)) {
    a.0 < b.0 < a.1 || (a.0 == b.0 && a.1 != b.1)
  }

  /** Exactly when a run counts as mixed: two types' ranges interleave. Ranges that
      coincide do not count, although they overlap. */
  lemma MixedIff(ops: seq<Operation>)
    requires WellTimed(ops)
    ensures Mixed(ops) <==> (exists a, b ::
      a in TypesOf(ops) && b in TypesOf(ops) && a != b && Interleave(RangeOf(ops, a), RangeOf(ops, b)))
  {
    if Mixed(ops) {
      var a, b :| a in TypesOf(ops) && b in TypesOf(ops) && a != b && Overtakes(RangeOf(ops, a), RangeOf(ops, b));
      RangeWellTimed(ops, a);
      RangeWellTimed(ops, b);
      assert Interleave(RangeOf(ops, a), RangeOf(ops, b)) || Interleave(RangeOf(ops, b), RangeOf(ops, a));
    }
    if a, b :| a in TypesOf(ops) && b in TypesOf(ops) && a != b && Interleave(RangeOf(ops, a), RangeOf(ops, b)) {
      assert Overtakes(RangeOf(ops, a), RangeOf(ops, b)) || Overtakes(RangeOf(ops, b), RangeOf(ops, a));
    }
  }

  lemma RangeWellTimed(ops: seq<Operation>, t: string)
    requires WellTimed(ops)
    ensures RangeOf(ops, t).0 <= RangeOf(ops, t).1
  {
    var sub := OfType(ops, t);
    OfTypeWithin(ops, t);
    if |sub| > 0 {
      assert sub[0] in sub && sub[0].start in Starts(sub) && sub[0].end in Ends(sub);
    }
  }

  lemma {:induction false} OfTypeWithin(ops: seq<Operation>, t: string)
    ensures forall op :: op in OfType(ops, t) ==> op in ops
  {
    if |ops| > 0 {
      OfTypeWithin(ops[..|ops| - 1], t);
    }
  }

  // ----- the total -----------------------------------------------------------------------

  const NO_SEGMENT := Segment("", "", 0, 0, 0, 0, 0, 0, 0.0, 0, 0.0, ZERO_TIME, ZERO_TIME)

  ghost function TotalOptions(ops: seq<Operation>, allThreads: bool): SegmentOptions {
    var (start, end) := Active(ops, allThreads);
    SegmentOptions(start, end - start - 1, allThreads, Mixed(ops))
  }

  /** r is the first of the segments of a run, or a panic for want of one. */
  ghost predicate IsFirstSegment(sorted: seq<Operation>, so: SegmentOptions, r: Result<Segment>) {
    && (r.Ok? ==> SegmentCount(sorted, so) > 0 && r == FastTotals(sorted, FirstBlank(sorted, so)))
    && (r.Panic? ==> SegmentCount(sorted, so) == 0
                     || SomePanic(sorted, FirstBlank(sorted, so), SegmentCount(sorted, so)))
  }

  method FirstSegment(o: array<Operation>, so: SegmentOptions) returns (r: Result<Segment>)
    requires Int64Durations(o[..])
    modifies o
    ensures SortedByStart(o[..]) && multiset(o[..]) == multiset(old(o[..]))
    ensures SortedByStart(old(o[..])) ==> o[..] == old(o[..])
    ensures IsFirstSegment(o[..], so, r)
  {
    var segs := Segments(o, so);
    if segs.Panic? || |segs.value| == 0 {
      return Panic;
    }
    FirstShift(FirstBlank(o[..], so));
    r := Ok(segs.value[0]);
  }

  /** The first of the segments, of which there must be one. */
  method Total(o: array<Operation>, allThreads: bool) returns (r: Result<Segment>)
    requires Int64Durations(o[..])
    modifies o
    ensures var (recorded, so) := (old(o[..]), TotalOptions(old(o[..]), allThreads));
      if Active(recorded, allThreads).0 == Active(recorded, allThreads).1 then
        r == Ok(Segment("", "", 0, 0, 0, 0, 0, 0, 0.0, 0, 0.0, ZERO_TIME, ZERO_TIME)) && o[..] == recorded
      else
        && SortedByStart(o[..]) && multiset(o[..]) == multiset(recorded)
        && (SortedByStart(recorded) ==> o[..] == recorded)
        && IsFirstSegment(o[..], so, r)
  {
    var start, end := ActiveTimeRange(o[..], allThreads);
    if start == end {
      return Ok(NO_SEGMENT);
    }
    var mixed := IsMixed(o[..]);
    var so := SegmentOptions(start, end - start - 1, allThreads, mixed);
    assert so == TotalOptions(o[..], allThreads);
    r := FirstSegment(o, so);
  }

  lemma FirstShift(s: Segment)
    ensures Shift(s, 0) == s
  {
  }

  /** An active range [start, end) of at least two nanoseconds gives exactly one
      segment, [start, end - 1); one of a single nanosecond gives none, so that
      taking the first panics. */
  lemma TotalIsOneSegment(recorded: seq<Operation>, sorted: seq<Operation>, allThreads: bool)
    requires multiset(sorted) == multiset(recorded)
    requires allThreads || (SortedByStart(recorded) && sorted == recorded)
    ensures var ((start, end), so) := (Active(recorded, allThreads), TotalOptions(recorded, allThreads));
      && start <= end
      && (start < end ==> (SegmentCount(sorted, so) == 0 <==> end == start + 1))
      && (start + 1 < end ==>
          && SegmentCount(sorted, so) == 1
          && FirstBlank(sorted, so).start == start
          && FirstBlank(sorted, so).endsBefore == end - 1)
  {
    if allThreads {
      OrderDoesNotMatter(recorded, sorted);
    }
    var (start, end) := Active(recorded, allThreads);
    if start + 1 < end {
      DivUnique(end - 1 - start, end - 1 - start, 1);
    }
  }
}
