/** Merging the operations of several clients into one run: thread ids are offset
    per client (`OffsetThreads` in pkg/bench/ops.go, the download loop of
    `runServerBenchmark` in cli/benchserver.go). */
module Merge {
  import opened Basics
  import opened Operations
  import opened ActiveRange

  const THREADS: int := 0x1_0000

  /** uint16 addition wraps around. */
  function AddThread(t: uint16, n: uint16): (r: uint16)
    ensures r == (t as int + n as int) % THREADS
  {
    if t + n < THREADS then t + n else t + n - THREADS
  }

  function OffsetOp(op: Operation, n: uint16): Operation {
    op.(thread := AddThread(op.thread, n))
  }

  function Offset(ops: seq<Operation>, n: uint16): seq<Operation> {
    seq(|ops|, i requires 0 <= i < |ops| => OffsetOp(ops[i], n))
  }

  /** The greatest thread id, 0 for an empty list. */
  function MaxThread(ops: seq<Operation>): uint16 {
    if |ops| == 0 then 0 else Max(MaxThread(ops[..|ops| - 1]), ops[|ops| - 1].thread)
  }

  /** The next free thread id, as computed: 0 after an empty list. */
  function NextThread(ops: seq<Operation>): uint16 {
    if |ops| == 0 then 0 else AddThread(MaxThread(ops), 1)
  }

  method OffsetThreads(o: array<Operation>, n: uint16) returns (next: uint16)
    modifies o
    ensures o[..] == Offset(old(o[..]), n)
    ensures forall i :: 0 <= i < o.Length ==> o[i] == old(o[i]).(thread := (old(o[i].thread) as int + n as int) % THREADS)
    ensures next == NextThread(o[..])
  {
    if o.Length == 0 {
      return 0;
    }
    var maxT: uint16 := 0;
    for i := 0 to o.Length
      invariant forall j :: 0 <= j < i ==> o[j] == OffsetOp(old(o[j]), n)
      invariant forall j :: i <= j < o.Length ==> o[j] == old(o[j])
      invariant maxT == MaxThread(o[..i])
    {
      var op := o[i];
      op := op.(thread := AddThread(op.thread, n));
      maxT := Store(o, i, op, maxT);
    }
    assert o[..o.Length] == o[..];
    next := AddThread(maxT, 1);
  }

  /** Writes one operation back and keeps the greatest id so far. */
  method Store(o: array<Operation>, i: nat, op: Operation, max: uint16) returns (maxT: uint16)
    requires i < o.Length && max == MaxThread(o[..i])
    modifies o
    ensures o[i] == op && forall j :: 0 <= j < o.Length && j != i ==> o[j] == old(o[j])
    ensures maxT == MaxThread(o[..i + 1])
  {
    maxT := max;
    if op.thread > maxT {
      maxT := op.thread;
    }
    o[i] := op;
    assert o[..i + 1][..i] == o[..i] == old(o[..i]);
  }

  /** Each list with its ids moved past those of the lists before it. */
  function MergeFrom(lists: seq<seq<Operation>>, n: uint16): seq<Operation> {
    if |lists| == 0 then []
    else Offset(lists[0], n) + MergeFrom(lists[1..], NextThread(Offset(lists[0], n)))
  }

  ghost function Lists(downloaded: seq<array<Operation>>): (r: seq<seq<Operation>>)
    reads downloaded
  {
    seq(|downloaded|, i requires 0 <= i < |downloaded| reads downloaded => downloaded[i][..])
  }

  method MergeDownloads(downloaded: seq<array<Operation>>) returns (allOps: seq<Operation>)
    requires forall i, j :: 0 <= i < j < |downloaded| ==> downloaded[i] != downloaded[j]
    modifies downloaded
    ensures allOps == MergeFrom(old(Lists(downloaded)), 0)
  {
    ghost var lists := Lists(downloaded);
    allOps := [];
    if |downloaded| == 0 {
      return;
    }
    if |downloaded| == 1 {
      OffsetByZero(lists[0]);
      assert lists[1..] == [];
      return downloaded[0][..];
    }
    var threads: uint16 := 0;
    var i := 0;
    while i < |downloaded|
      invariant i <= |downloaded| == |lists|
      invariant allOps + MergeFrom(lists[i..], threads) == MergeFrom(lists, 0)
      invariant forall j :: i <= j < |downloaded| ==> downloaded[j][..] == lists[j]
    {
      MergeStep(lists, i, threads);
      var ops, next := MergeOne(downloaded[i], threads, lists[i]);
      Regroup(allOps, ops, MergeFrom(lists[i + 1..], next));
      allOps, threads := allOps + ops, next;
      i := i + 1;
    }
    assert lists[|downloaded|..] == [];
  }

  /** Offsets the ids of one client's operations. */
  method MergeOne(o: array<Operation>, n: uint16, ghost list: seq<Operation>) returns (ops: seq<Operation>, next: uint16)
    requires o[..] == list
    modifies o
    ensures ops == Offset(list, n) && next == NextThread(ops)
  {
    next := OffsetThreads(o, n);
    ops := o[..];
  }

  lemma Regroup(a: seq<Operation>, b: seq<Operation>, c: seq<Operation>)
    ensures a + (b + c) == a + b + c
  {
  }

  lemma MergeStep(lists: seq<seq<Operation>>, i: nat, n: uint16)
    requires i < |lists|
    ensures MergeFrom(lists[i..], n) ==
      Offset(lists[i], n) + MergeFrom(lists[i + 1..], NextThread(Offset(lists[i], n)))
  {
    assert lists[i..][1..] == lists[i + 1..];
  }

  lemma OffsetByZero(ops: seq<Operation>)
    ensures Offset(ops, 0) == ops
  {
    forall i | 0 <= i < |ops| ensures Offset(ops, 0)[i] == ops[i] {
    }
  }

  // ----- disjoint thread ids -------------------------------------------------------------

  /** The ids needed to keep the clients apart. */
  function ThreadsNeeded(lists: seq<seq<Operation>>): nat {
    if |lists| == 0 then 0 else MaxThread(lists[0]) + 1 + ThreadsNeeded(lists[1..])
  }

  ghost predicate AllNonEmpty(lists: seq<seq<Operation>>) {
    forall l :: l in lists ==> |l| > 0
  }

  ghost predicate AllWellTimed(lists: seq<seq<Operation>>) {
    forall l :: l in lists ==> WellTimed(l)
  }

  ghost predicate DisjointThreads(a: seq<Operation>, b: seq<Operation>) {
    forall p, q :: p in a && q in b ==> p.thread != q.thread
  }

  lemma {:induction false} MaxThreadBound(ops: seq<Operation>, op: Operation)
    requires op in ops
    ensures op.thread <= MaxThread(ops)
  {
    var init, last := ops[..|ops| - 1], ops[|ops| - 1];
    assert ops == init + [last];
    if op in init {
      MaxThreadBound(init, op);
    }
  }

  /** The next id is one more than the greatest one in use, wrapping around. */
  lemma {:induction false} NextThreadIs(ops: seq<Operation>) returns (last: Operation)
    requires |ops| > 0
    ensures last in ops && forall op :: op in ops ==> op.thread <= last.thread
    ensures MaxThread(ops) == last.thread && NextThread(ops) == (last.thread as int + 1) % THREADS
  {
    var init := ops[..|ops| - 1];
    last := ops[|ops| - 1];
    assert ops == init + [last];
    if |init| > 0 {
      var other := NextThreadIs(init);
      if other.thread > last.thread {
        last := other;
      }
    }
  }

  /** Offsetting by n wraps no thread id around. */
  predicate Fits(ops: seq<Operation>, n: uint16) {
    n + MaxThread(ops) < THREADS
  }

  lemma OffsetMember(ops: seq<Operation>, n: uint16, p: Operation) returns (q: Operation)
    requires p in Offset(ops, n) && Fits(ops, n)
    ensures q in ops && p == OffsetOp(q, n) && p.thread == q.thread + n <= n + MaxThread(ops)
  {
    var i :| 0 <= i < |ops| && Offset(ops, n)[i] == p;
    q := ops[i];
    MaxThreadBound(ops, q);
  }

  lemma OffsetOfMember(ops: seq<Operation>, n: uint16, q: Operation)
    requires q in ops && Fits(ops, n)
    ensures OffsetOp(q, n) in Offset(ops, n) && OffsetOp(q, n).thread == q.thread + n
  {
    var i :| 0 <= i < |ops| && ops[i] == q;
    assert Offset(ops, n)[i] == OffsetOp(q, n);
    MaxThreadBound(ops, q);
  }

  lemma {:induction false} MaxThreadOfOffset(ops: seq<Operation>, n: uint16)
    requires |ops| > 0 && Fits(ops, n)
    ensures MaxThread(Offset(ops, n)) == MaxThread(ops) + n
  {
    var init, last := ops[..|ops| - 1], ops[|ops| - 1];
    assert Offset(ops, n)[..|ops| - 1] == Offset(init, n);
    if |init| > 0 {
      MaxThreadOfOffset(init, n);
    }
  }

  /** The ids of a merged run start at the given offset. */
  lemma {:induction false} MergedThread(lists: seq<seq<Operation>>, n: uint16, op: Operation)
    requires AllNonEmpty(lists) && n + ThreadsNeeded(lists) <= THREADS
    requires op in MergeFrom(lists, n)
    ensures n <= op.thread < n + ThreadsNeeded(lists)
  {
    var head := Offset(lists[0], n);
    if op in head {
      var q := OffsetMember(lists[0], n, op);
    } else {
      RestFits(lists, n);
      MergedThread(lists[1..], NextThread(head), op);
    }
  }

  /** What is known of the clients after the first. */
  lemma RestFits(lists: seq<seq<Operation>>, n: uint16)
    requires AllNonEmpty(lists) && |lists| > 0 && n + ThreadsNeeded(lists) <= THREADS
    ensures |lists[0]| > 0 && Fits(lists[0], n) && AllNonEmpty(lists[1..])
    ensures var next := NextThread(Offset(lists[0], n));
      |lists| > 1 ==> next == n + MaxThread(lists[0]) + 1 && next + ThreadsNeeded(lists[1..]) <= THREADS
    ensures |lists| == 1 ==> lists[1..] == []
  {
    assert lists[0] in lists && forall l :: l in lists[1..] ==> l in lists;
    MaxThreadOfOffset(lists[0], n);
    if |lists| > 1 {
      assert ThreadsNeeded(lists[1..]) >= 1;
    }
  }

  /** The first client's ids differ from those of every later client. */
  lemma HeadDisjoint(lists: seq<seq<Operation>>, n: uint16)
    requires AllNonEmpty(lists) && |lists| > 0 && n + ThreadsNeeded(lists) <= THREADS
    ensures var head := Offset(lists[0], n); DisjointThreads(head, MergeFrom(lists[1..], NextThread(head)))
  {
    var head := Offset(lists[0], n);
    var rest := MergeFrom(lists[1..], NextThread(head));
    RestFits(lists, n);
    forall p, q | p in head && q in rest ensures p.thread != q.thread {
      var p' := OffsetMember(lists[0], n, p);
      MergedThread(lists[1..], NextThread(head), q);
    }
  }

  /** The offset the i-th client's ids receive. */
  function ClientOffset(lists: seq<seq<Operation>>, n: uint16, i: nat): uint16
    requires i < |lists|
  {
    if i == 0 then n else ClientOffset(lists[1..], NextThread(Offset(lists[0], n)), i - 1)
  }

  lemma {:induction false} ClientIsMerged(lists: seq<seq<Operation>>, n: uint16, i: nat)
    requires i < |lists|
    ensures forall op :: op in Offset(lists[i], ClientOffset(lists, n, i)) ==> op in MergeFrom(lists, n)
  {
    if i > 0 {
      ClientIsMerged(lists[1..], NextThread(Offset(lists[0], n)), i - 1);
    }
  }

  lemma DisjointFromPart(a: seq<Operation>, whole: seq<Operation>, part: seq<Operation>)
    requires DisjointThreads(a, whole) && forall op :: op in part ==> op in whole
    ensures DisjointThreads(a, part)
  {
  }

  function TotalLength(lists: seq<seq<Operation>>): nat {
    if |lists| == 0 then 0 else |lists[0]| + TotalLength(lists[1..])
  }

  /** Nothing is added or lost in merging. */
  lemma {:induction false} MergedIsExact(lists: seq<seq<Operation>>, n: uint16, op: Operation)
    ensures |MergeFrom(lists, n)| == TotalLength(lists)
    ensures op in MergeFrom(lists, n) <==> exists i :: 0 <= i < |lists| && op in Offset(lists[i], ClientOffset(lists, n, i))
  {
    if |lists| > 0 {
      var next := NextThread(Offset(lists[0], n));
      MergedIsExact(lists[1..], next, op);
      if i :| 0 <= i < |lists[1..]| && op in Offset(lists[1..][i], ClientOffset(lists[1..], next, i)) {
        assert op in Offset(lists[i + 1], ClientOffset(lists, n, i + 1));
      }
      if i :| 0 <= i < |lists| && op in Offset(lists[i], ClientOffset(lists, n, i)) {
        if i > 0 {
          assert op in Offset(lists[1..][i - 1], ClientOffset(lists[1..], next, i - 1));
        }
      }
      if op in Offset(lists[0], n) {
        assert op in Offset(lists[0], ClientOffset(lists, n, 0));
      }
    }
  }

  /** Different clients use different thread ids in the merged run. */
  lemma {:induction false} ClientsKeptApart(lists: seq<seq<Operation>>, n: uint16, i: nat, j: nat)
    requires AllNonEmpty(lists) && n + ThreadsNeeded(lists) <= THREADS
    requires i < j < |lists|
    ensures DisjointThreads(Offset(lists[i], ClientOffset(lists, n, i)), Offset(lists[j], ClientOffset(lists, n, j)))
  {
    var next := NextThread(Offset(lists[0], n));
    RestFits(lists, n);
    if i == 0 {
      HeadDisjoint(lists, n);
      ClientIsMerged(lists[1..], next, j - 1);
      DisjointFromPart(Offset(lists[0], n), MergeFrom(lists[1..], next),
                       Offset(lists[j], ClientOffset(lists, n, j)));
    } else {
      ClientsKeptApart(lists[1..], next, i - 1, j - 1);
    }
  }

  // ----- the merged active range -------------------------------------------------------------

  lemma ConcatMembers<T>(a: seq<T>, b: seq<T>, x: T)
    ensures x in a + b <==> x in a || x in b
  {
  }

  lemma ReadyByBoth(a: seq<Operation>, b: seq<Operation>, s: Time)
    requires DisjointThreads(a, b)
    ensures ReadyBy(a + b, s) <==> ReadyBy(a, s) && ReadyBy(b, s)
  {
    forall op | op in a + b
      ensures EndedBy(a + b, op.thread, s) <==> if op in a then EndedBy(a, op.thread, s) else EndedBy(b, op.thread, s)
    {
      forall p ensures p in a + b <==> p in a || p in b {
        ConcatMembers(a, b, p);
      }
    }
    forall p ensures p in a + b <==> p in a || p in b {
      ConcatMembers(a, b, p);
    }
    forall op | op in b ensures op !in a {
    }
  }

  lemma BusyFromBoth(a: seq<Operation>, b: seq<Operation>, e: Time)
    requires DisjointThreads(a, b)
    ensures BusyFrom(a + b, e) <==> BusyFrom(a, e) && BusyFrom(b, e)
  {
    forall op | op in a + b
      ensures StartsFrom(a + b, op.thread, e) <==> if op in a then StartsFrom(a, op.thread, e) else StartsFrom(b, op.thread, e)
    {
      forall p ensures p in a + b <==> p in a || p in b {
        ConcatMembers(a, b, p);
      }
    }
    forall p ensures p in a + b <==> p in a || p in b {
      ConcatMembers(a, b, p);
    }
    forall op | op in b ensures op !in a {
    }
  }

  lemma StartIff(a: seq<Operation>, b: seq<Operation>, s: Time)
    requires DisjointThreads(a, b) && ZERO_TIME <= s
    ensures ActiveStart(a + b) <= s <==> ActiveStart(a) <= s && ActiveStart(b) <= s
  {
    ReadyByIff(a, s);
    ReadyByIff(b, s);
    ReadyByIff(a + b, s);
    ReadyByBoth(a, b, s);
  }

  lemma EndIff(a: seq<Operation>, b: seq<Operation>, e: Time)
    requires DisjointThreads(a, b) && |a| > 0 && |b| > 0 && WellTimed(a) && WellTimed(b)
    ensures WellTimed(a + b)
    ensures e <= ActiveEnd(a + b) <==> e <= ActiveEnd(a) && e <= ActiveEnd(b)
  {
    forall p ensures p in a + b <==> p in a || p in b {
      ConcatMembers(a, b, p);
    }
    BusyFromIff(a, e);
    BusyFromIff(b, e);
    BusyFromIff(a + b, e);
    BusyFromBoth(a, b, e);
  }

  /** Among runs with different threads everyone is active when each run is. */
  lemma ActiveOfDisjoint(a: seq<Operation>, b: seq<Operation>)
    requires |a| > 0 && |b| > 0 && WellTimed(a) && WellTimed(b) && DisjointThreads(a, b)
    ensures WellTimed(a + b)
    ensures ActiveStart(a + b) == Max(ActiveStart(a), ActiveStart(b))
    ensures ActiveEnd(a + b) == Min(ActiveEnd(a), ActiveEnd(b))
  {
    StartIff(a, b, ActiveStart(a + b));
    StartIff(a, b, Max(ActiveStart(a), ActiveStart(b)));
    EndIff(a, b, ActiveEnd(a + b));
    EndIff(a, b, Min(ActiveEnd(a), ActiveEnd(b)));
  }

  lemma EndedByOffset(ops: seq<Operation>, n: uint16, t: uint16, s: Time)
    requires Fits(ops, n) && t + n < THREADS
    ensures EndedBy(Offset(ops, n), t + n, s) <==> EndedBy(ops, t, s)
  {
    if EndedBy(ops, t, s) {
      var p :| p in ops && p.thread == t && p.end <= s;
      OffsetOfMember(ops, n, p);
    }
    if EndedBy(Offset(ops, n), t + n, s) {
      var p :| p in Offset(ops, n) && p.thread == t + n && p.end <= s;
      var q := OffsetMember(ops, n, p);
    }
  }

  lemma StartsFromOffset(ops: seq<Operation>, n: uint16, t: uint16, e: Time)
    requires Fits(ops, n) && t + n < THREADS
    ensures StartsFrom(Offset(ops, n), t + n, e) <==> StartsFrom(ops, t, e)
  {
    if StartsFrom(ops, t, e) {
      var p :| p in ops && p.thread == t && e <= p.start;
      OffsetOfMember(ops, n, p);
    }
    if StartsFrom(Offset(ops, n), t + n, e) {
      var p :| p in Offset(ops, n) && p.thread == t + n && e <= p.start;
      var q := OffsetMember(ops, n, p);
    }
  }

  lemma ReadyByOffset(ops: seq<Operation>, n: uint16, s: Time)
    requires Fits(ops, n)
    ensures ReadyBy(Offset(ops, n), s) <==> ReadyBy(ops, s)
  {
    if ReadyBy(ops, s) {
      forall p | p in Offset(ops, n) ensures EndedBy(Offset(ops, n), p.thread, s) {
        var q := OffsetMember(ops, n, p);
        EndedByOffset(ops, n, q.thread, s);
      }
    }
    if ReadyBy(Offset(ops, n), s) {
      forall q | q in ops ensures EndedBy(ops, q.thread, s) {
        OffsetOfMember(ops, n, q);
        EndedByOffset(ops, n, q.thread, s);
      }
    }
  }

  lemma BusyFromOffset(ops: seq<Operation>, n: uint16, e: Time)
    requires Fits(ops, n)
    ensures BusyFrom(Offset(ops, n), e) <==> BusyFrom(ops, e)
  {
    if BusyFrom(ops, e) {
      forall p | p in Offset(ops, n) ensures StartsFrom(Offset(ops, n), p.thread, e) {
        var q := OffsetMember(ops, n, p);
        StartsFromOffset(ops, n, q.thread, e);
      }
    }
    if BusyFrom(Offset(ops, n), e) {
      forall q | q in ops ensures StartsFrom(ops, q.thread, e) {
        OffsetOfMember(ops, n, q);
        StartsFromOffset(ops, n, q.thread, e);
      }
    }
  }

  /** Moving all ids by the same amount moves nothing else. */
  lemma ActiveOfOffset(ops: seq<Operation>, n: uint16)
    requires |ops| > 0 && WellTimed(ops) && Fits(ops, n)
    ensures WellTimed(Offset(ops, n))
    ensures ActiveStart(Offset(ops, n)) == ActiveStart(ops)
    ensures ActiveEnd(Offset(ops, n)) == ActiveEnd(ops)
  {
    var moved := Offset(ops, n);
    forall p | p in moved ensures p.start <= p.end {
      var q := OffsetMember(ops, n, p);
    }
    OffsetStart(ops, n, ActiveStart(ops));
    OffsetStart(ops, n, ActiveStart(moved));
    OffsetEnd(ops, n, ActiveEnd(ops));
    OffsetEnd(ops, n, ActiveEnd(moved));
  }

  lemma OffsetStart(ops: seq<Operation>, n: uint16, s: Time)
    requires Fits(ops, n) && ZERO_TIME <= s
    ensures ActiveStart(Offset(ops, n)) <= s <==> ActiveStart(ops) <= s
  {
    ReadyByIff(ops, s);
    ReadyByIff(Offset(ops, n), s);
    ReadyByOffset(ops, n, s);
  }

  lemma OffsetEnd(ops: seq<Operation>, n: uint16, e: Time)
    requires |ops| > 0 && WellTimed(ops) && WellTimed(Offset(ops, n)) && Fits(ops, n)
    ensures e <= ActiveEnd(Offset(ops, n)) <==> e <= ActiveEnd(ops)
  {
    BusyFromIff(ops, e);
    BusyFromIff(Offset(ops, n), e);
    BusyFromOffset(ops, n, e);
  }

  /** The latest start and the earliest end among the clients' own active ranges. */
  ghost function LatestStart(lists: seq<seq<Operation>>): (r: Time)
    ensures ZERO_TIME <= r
  {
    if |lists| == 0 then ZERO_TIME else Max(Active(lists[0], true).0, LatestStart(lists[1..]))
  }

  ghost function EarliestEnd(lists: seq<seq<Operation>>): Time
    requires |lists| > 0
  {
    if |lists| == 1 then Active(lists[0], true).1 else Min(Active(lists[0], true).1, EarliestEnd(lists[1..]))
  }

  lemma OwnRange(ops: seq<Operation>)
    requires |ops| > 0
    ensures Active(ops, true) == (ActiveStart(ops), Max(ActiveStart(ops), ActiveEnd(ops)))
  {
  }

  /** Above a bound that no start exceeds, collapsing a range makes no difference. */
  lemma BoundedMin(bound: int, start: int, end: int, a: int, b: int)
    requires start <= bound && Max(bound, a) == Max(bound, b)
    ensures Max(bound, Min(end, a)) == Max(bound, Min(Max(start, end), b))
  {
  }

  lemma {:induction false} MergedRange(lists: seq<seq<Operation>>, n: uint16, bound: Time)
    requires |lists| > 0 && AllNonEmpty(lists) && AllWellTimed(lists) && n + ThreadsNeeded(lists) <= THREADS
    requires LatestStart(lists) <= bound
    ensures var all := MergeFrom(lists, n);
      && |all| > 0 && WellTimed(all)
      && ActiveStart(all) == LatestStart(lists)
      && Max(bound, ActiveEnd(all)) == Max(bound, EarliestEnd(lists))
  {
    var head := Offset(lists[0], n);
    var rest := MergeFrom(lists[1..], NextThread(head));
    RestFits(lists, n);
    assert lists[0] in lists && forall l :: l in lists[1..] ==> l in lists;
    ActiveOfOffset(lists[0], n);
    OwnRange(lists[0]);
    if |lists| == 1 {
      assert head + rest == head;
    } else {
      MergedRange(lists[1..], NextThread(head), bound);
      HeadDisjoint(lists, n);
      ActiveOfDisjoint(head, rest);
      BoundedMin(bound, ActiveStart(lists[0]), ActiveEnd(lists[0]), ActiveEnd(rest), EarliestEnd(lists[1..]));
    }
  }

  /** Merging intersects the windows: the merged run is active from the latest of
      the clients' starts to the earliest of their ends, if that is later. */
  lemma MergingIntersectsWindows(lists: seq<seq<Operation>>)
    requires |lists| > 0 && AllNonEmpty(lists) && AllWellTimed(lists) && ThreadsNeeded(lists) <= THREADS
    ensures var (start, end) := (LatestStart(lists), EarliestEnd(lists));
      Active(MergeFrom(lists, 0), true) == (start, Max(start, end))
  {
    MergedRange(lists, 0, LatestStart(lists));
  }

  // ----- any download order -------------------------------------------------------------------

  lemma {:induction false} LatestStartIff(lists: seq<seq<Operation>>, s: Time)
    requires ZERO_TIME <= s
    ensures LatestStart(lists) <= s <==> forall l :: l in lists ==> Active(l, true).0 <= s
  {
    if |lists| > 0 {
      LatestStartIff(lists[1..], s);
      assert forall l :: l in lists <==> l == lists[0] || l in lists[1..];
    }
  }

  lemma {:induction false} EarliestEndIff(lists: seq<seq<Operation>>, e: Time)
    requires |lists| > 0
    ensures e <= EarliestEnd(lists) <==> forall l :: l in lists ==> e <= Active(l, true).1
  {
    assert forall l :: l in lists <==> l == lists[0] || l in lists[1..];
    if |lists| > 1 {
      EarliestEndIff(lists[1..], e);
    }
  }

  lemma SameRanges(lists: seq<seq<Operation>>, other: seq<seq<Operation>>)
    requires |lists| > 0 && |other| > 0
    requires forall l :: l in lists <==> l in other
    ensures LatestStart(lists) == LatestStart(other) && EarliestEnd(lists) == EarliestEnd(other)
  {
    LatestStartIff(lists, LatestStart(lists));
    LatestStartIff(other, LatestStart(lists));
    LatestStartIff(lists, LatestStart(other));
    LatestStartIff(other, LatestStart(other));
    EarliestEndIff(lists, EarliestEnd(lists));
    EarliestEndIff(other, EarliestEnd(lists));
    EarliestEndIff(lists, EarliestEnd(other));
    EarliestEndIff(other, EarliestEnd(other));
  }

  function Without<T>(s: seq<T>, i: nat): seq<T>
    requires i < |s|
  {
    s[..i] + s[i + 1..]
  }

  lemma {:induction false} ThreadsNeededRemove(lists: seq<seq<Operation>>, i: nat)
    requires i < |lists|
    ensures ThreadsNeeded(lists) == MaxThread(lists[i]) + 1 + ThreadsNeeded(Without(lists, i))
  {
    if i == 0 {
      assert Without(lists, 0) == lists[1..];
    } else {
      var rest := lists[1..];
      ThreadsNeededRemove(rest, i - 1);
      assert rest[i - 1] == lists[i];
      assert Without(lists, i)[1..] == Without(rest, i - 1);
      assert Without(lists, i)[0] == lists[0];
    }
  }

  lemma RemoveFromBoth<T>(a: seq<T>, b: seq<T>, i: nat)
    requires multiset(a) == multiset(b) && |a| > 0 && i < |b| && b[i] == a[0]
    ensures multiset(a[1..]) == multiset(Without(b, i))
  {
    assert a == [a[0]] + a[1..];
    assert b == b[..i] + ([b[i]] + b[i + 1..]);
    assert multiset(b) == multiset(b[..i]) + (multiset{b[i]} + multiset(b[i + 1..]));
    assert multiset(Without(b, i)) == multiset(b[..i]) + multiset(b[i + 1..]);
    assert multiset(a) == multiset{a[0]} + multiset(a[1..]);
    assert multiset(a[1..]) == multiset(a) - multiset{a[0]};
    assert multiset(Without(b, i)) == multiset(b) - multiset{b[i]};
  }

  lemma {:induction false} ThreadsNeededAnyOrder(lists: seq<seq<Operation>>, other: seq<seq<Operation>>)
    requires multiset(lists) == multiset(other)
    ensures ThreadsNeeded(lists) == ThreadsNeeded(other)
    decreases |lists|
  {
    SameMembers(lists, other);
    if |lists| > 0 {
      assert lists[0] in other;
      var i :| 0 <= i < |other| && other[i] == lists[0];
      RemoveFromBoth(lists, other, i);
      ThreadsNeededAnyOrder(lists[1..], Without(other, i));
      ThreadsNeededRemove(other, i);
    }
  }

  /** The order in which clients are downloaded does not move the merged range. */
  lemma DownloadOrderDoesNotMatter(lists: seq<seq<Operation>>, other: seq<seq<Operation>>)
    requires multiset(lists) == multiset(other)
    requires |lists| > 0 && AllNonEmpty(lists) && AllWellTimed(lists) && ThreadsNeeded(lists) <= THREADS
    ensures Active(MergeFrom(lists, 0), true) == Active(MergeFrom(other, 0), true)
  {
    SameMembers(lists, other);
    ThreadsNeededAnyOrder(lists, other);
    MergingIntersectsWindows(lists);
    MergingIntersectsWindows(other);
    SameRanges(lists, other);
  }

  // ----- clients without operations --------------------------------------------------------

  /** No client without operations comes between two that have some. */
  ghost predicate NoGap(lists: seq<seq<Operation>>) {
    forall i, k, j :: 0 <= i < k < j < |lists| && |lists[i]| > 0 && |lists[j]| > 0 ==> |lists[k]| > 0
  }

  /** All clients with operations got thread ids of their own. */
  ghost predicate KeptApart(lists: seq<seq<Operation>>, n: uint16) {
    forall i, j :: 0 <= i < j < |lists| ==>
      DisjointThreads(Offset(lists[i], ClientOffset(lists, n, i)), Offset(lists[j], ClientOffset(lists, n, j)))
  }

  /** Workers are numbered from 0. */
  ghost predicate UsesThreadZero(ops: seq<Operation>) {
    exists op :: op in ops && op.thread == 0
  }

  /** A client without operations resets the offset: the next one starts at 0 again,
      wherever in the list that happens. */
  lemma {:induction false} EmptyClientResetsOffset(lists: seq<seq<Operation>>, n: uint16, i: nat)
    requires 0 < i < |lists| && lists[i - 1] == []
    ensures ClientOffset(lists, n, i) == 0
  {
    if i > 1 {
      EmptyClientResetsOffset(lists[1..], NextThread(Offset(lists[0], n)), i - 1);
    } else {
      assert Offset(lists[0], n) == [];
    }
  }

  /** The first client from `from` on that has operations; it starts at offset 0 when
      it follows one without, or is the first of all. */
  lemma {:induction false} FirstFrom(lists: seq<seq<Operation>>, from: nat, known: nat) returns (i: nat)
    requires from <= known < |lists| && |lists[known]| > 0
    requires from == 0 || lists[from - 1] == []
    ensures from <= i <= known && |lists[i]| > 0 && ClientOffset(lists, 0, i) == 0
    decreases known - from
  {
    if |lists[from]| > 0 {
      i := from;
      if i > 0 {
        EmptyClientResetsOffset(lists, 0, i);
      }
    } else {
      i := FirstFrom(lists, from + 1, known);
    }
  }

  lemma ZeroStaysZero(ops: seq<Operation>)
    requires UsesThreadZero(ops)
    ensures UsesThreadZero(Offset(ops, 0))
  {
    OffsetByZero(ops);
  }

  /** Two clients that both start at offset 0 and use thread 0 share it. */
  lemma GapCollides(lists: seq<seq<Operation>>, i: nat, k: nat, j: nat)
    requires forall l :: l in lists && |l| > 0 ==> UsesThreadZero(l)
    requires i < k < j < |lists| && |lists[i]| > 0 && lists[k] == [] && |lists[j]| > 0
    ensures !KeptApart(lists, 0)
  {
    var a := FirstFrom(lists, 0, i);
    var b := FirstFrom(lists, k + 1, j);
    assert lists[a] in lists && lists[b] in lists;
    ZeroStaysZero(lists[a]);
    ZeroStaysZero(lists[b]);
    assert a < b && !DisjointThreads(Offset(lists[a], 0), Offset(lists[b], 0));
  }

  /** The offset of a client depends on those before it only. */
  lemma {:induction false} OffsetOfPrefix(lists: seq<seq<Operation>>, m: nat, n: uint16, i: nat)
    requires i < m <= |lists|
    ensures ClientOffset(lists[..m], n, i) == ClientOffset(lists, n, i)
  {
    if i > 0 {
      assert lists[..m][1..] == lists[1..][..m - 1];
      OffsetOfPrefix(lists[1..], m - 1, NextThread(Offset(lists[0], n)), i - 1);
    }
  }

  /** Past clients without operations offsets start over at 0. */
  lemma {:induction false} OffsetPastEmpty(lists: seq<seq<Operation>>, from: nat, i: nat)
    requires from <= i < |lists| && (forall k :: 0 <= k < from ==> lists[k] == [])
    ensures ClientOffset(lists, 0, i) == ClientOffset(lists[from..], 0, i - from)
  {
    if from > 0 {
      assert Offset(lists[0], 0) == [];
      assert lists[1..][from - 1..] == lists[from..];
      OffsetPastEmpty(lists[1..], from - 1, i - 1);
    } else {
      assert lists[0..] == lists;
    }
  }

  lemma {:induction false} ThreadsNeededOfPrefix(lists: seq<seq<Operation>>, m: nat)
    requires m <= |lists|
    ensures ThreadsNeeded(lists[..m]) <= ThreadsNeeded(lists)
  {
    if m > 0 {
      assert lists[..m][1..] == lists[1..][..m - 1];
      ThreadsNeededOfPrefix(lists[1..], m - 1);
    }
  }

  lemma {:induction false} ThreadsNeededOfSuffix(lists: seq<seq<Operation>>, from: nat)
    requires from <= |lists|
    ensures ThreadsNeeded(lists[from..]) <= ThreadsNeeded(lists)
  {
    if from > 0 {
      assert lists[from..] == lists[1..][from - 1..];
      ThreadsNeededOfSuffix(lists[1..], from - 1);
    } else {
      assert lists[0..] == lists;
    }
  }

  /** How far the leading clients without operations go, up to one that has some. */
  lemma {:induction false} LeadingEmpty(lists: seq<seq<Operation>>, i: nat) returns (from: nat)
    requires i < |lists| && |lists[i]| > 0
    ensures from <= i && |lists[from]| > 0 && forall k :: 0 <= k < from ==> lists[k] == []
    decreases i
  {
    if k :| 0 <= k < i && |lists[k]| > 0 {
      from := LeadingEmpty(lists, k);
    } else {
      from := i;
    }
  }

  /** The clients from `from` to `last`, seen as a list of their own. */
  function Block(lists: seq<seq<Operation>>, from: nat, last: nat): seq<seq<Operation>>
    requires from <= last < |lists|
  {
    lists[..last + 1][from..]
  }

  lemma BlockOffset(lists: seq<seq<Operation>>, from: nat, last: nat, i: nat)
    requires from <= i <= last < |lists| && (forall k :: 0 <= k < from ==> lists[k] == [])
    ensures Block(lists, from, last)[i - from] == lists[i]
    ensures ClientOffset(lists, 0, i) == ClientOffset(Block(lists, from, last), 0, i - from)
  {
    OffsetOfPrefix(lists, last + 1, 0, i);
    OffsetPastEmpty(lists[..last + 1], from, i);
  }

  lemma BlockFits(lists: seq<seq<Operation>>, from: nat, last: nat)
    requires from <= last < |lists| && NoGap(lists) && |lists[from]| > 0 && |lists[last]| > 0
    ensures AllNonEmpty(Block(lists, from, last))
    ensures ThreadsNeeded(Block(lists, from, last)) <= ThreadsNeeded(lists)
  {
    forall l | l in Block(lists, from, last) ensures |l| > 0 {
      var k :| 0 <= k < |Block(lists, from, last)| && Block(lists, from, last)[k] == l;
      assert lists[from + k] == l;
    }
    ThreadsNeededOfPrefix(lists, last + 1);
    ThreadsNeededOfSuffix(lists[..last + 1], from);
  }

  lemma PairKeptApart(lists: seq<seq<Operation>>, i: nat, j: nat)
    requires NoGap(lists) && ThreadsNeeded(lists) <= THREADS
    requires i < j < |lists| && |lists[i]| > 0 && |lists[j]| > 0
    ensures DisjointThreads(Offset(lists[i], ClientOffset(lists, 0, i)), Offset(lists[j], ClientOffset(lists, 0, j)))
  {
    var from := LeadingEmpty(lists, i);
    BlockFits(lists, from, j);
    BlockOffset(lists, from, j, i);
    BlockOffset(lists, from, j, j);
    TwoKeptApart(Block(lists, from, j), i - from, j - from, lists[i], lists[j],
                 ClientOffset(lists, 0, i), ClientOffset(lists, 0, j));
  }

  lemma TwoKeptApart(lists: seq<seq<Operation>>, i: nat, j: nat,
                     a: seq<Operation>, b: seq<Operation>, n: uint16, m: uint16)
    requires AllNonEmpty(lists) && ThreadsNeeded(lists) <= THREADS && i < j < |lists|
    requires lists[i] == a && lists[j] == b && ClientOffset(lists, 0, i) == n && ClientOffset(lists, 0, j) == m
    ensures DisjointThreads(Offset(a, n), Offset(b, m))
  {
    ClientsKeptApart(lists, 0, i, j);
  }

  /** Exactly when all clients get thread ids of their own: when none without
      operations comes between two that have some. */
  lemma KeptApartIff(lists: seq<seq<Operation>>)
    requires ThreadsNeeded(lists) <= THREADS
    requires forall l :: l in lists && |l| > 0 ==> UsesThreadZero(l)
    ensures KeptApart(lists, 0) <==> NoGap(lists)
  {
    if NoGap(lists) {
      forall i, j | 0 <= i < j < |lists|
        ensures DisjointThreads(Offset(lists[i], ClientOffset(lists, 0, i)), Offset(lists[j], ClientOffset(lists, 0, j)))
      {
        if |lists[i]| > 0 && |lists[j]| > 0 {
          PairKeptApart(lists, i, j);
        }
      }
    } else {
      var i, k, j :| 0 <= i < k < j < |lists| && |lists[i]| > 0 && |lists[j]| > 0 && |lists[k]| == 0;
      GapCollides(lists, i, k, j);
    }
  }
}
