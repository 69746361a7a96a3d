/** One timed request of a benchmark and lists of them (pkg/bench/ops.go). */
module Operations {
  import opened Basics

  datatype Operation = Operation(
    opType: string,
    objPerOp: int,
    start: Time,
    firstByte: Option<Time>,
    end: Time,
    err: string,
    size: int,
    file: string,
    thread: uint16,
    clientID: string,
    endpoint: string)
  {
    function Duration(): int {
      end - start
    }

    predicate Failed() {
      err != ""
    }
  }

  predicate SortedByStart(ops: seq<Operation>) {
    forall i, j :: 0 <= i < j < |ops| ==> ops[i].start <= ops[j].start
  }

  ghost predicate WellTimed(ops: seq<Operation>) {
    forall op :: op in ops ==> op.start <= op.end
  }

  ghost predicate PositiveDurations(ops: seq<Operation>) {
    forall op :: op in ops ==> op.start < op.end
  }

  function FirstOpType(ops: seq<Operation>): string {
    if |ops| == 0 then "" else ops[0].opType
  }

  function FirstObjPerOp(ops: seq<Operation>): int {
    if |ops| == 0 then 0 else ops[0].objPerOp
  }

  /** The sub-list of the operations of one type; the empty type selects all. */
  function OfType(ops: seq<Operation>, opType: string): seq<Operation> {
    if |ops| == 0 then []
    else
      var rest := OfType(ops[..|ops| - 1], opType);
      var op := ops[|ops| - 1];
      if op.opType == opType || opType == "" then rest + [op] else rest
  }

  /** The sub-list holds every operation of the type as often as the list, and no
      other; the empty type leaves the list as it is. */
  lemma {:induction false} OfTypeIsExact(ops: seq<Operation>, opType: string, op: Operation)
    ensures multiset(OfType(ops, opType))[op] == if opType == "" || op.opType == opType then multiset(ops)[op] else 0
    ensures opType == "" ==> OfType(ops, opType) == ops
  {
    if |ops| > 0 {
      var init, last := ops[..|ops| - 1], ops[|ops| - 1];
      assert ops == init + [last];
      OfTypeIsExact(init, opType, op);
    }
  }

  /** It keeps the order. */
  lemma {:induction false} OfTypeKeepsOrder(ops: seq<Operation>, more: seq<Operation>, opType: string)
    ensures OfType(ops + more, opType) == OfType(ops, opType) + OfType(more, opType)
  {
    if |more| == 0 {
      assert ops + more == ops;
    } else {
      assert (ops + more)[..|ops + more| - 1] == ops + more[..|more| - 1];
      OfTypeKeepsOrder(ops, more[..|more| - 1], opType);
    }
  }

  /** How many of the operations have property p. */
  function NumberOf(ops: seq<Operation>, p: Operation -> bool): nat {
    if |ops| == 0 then 0
    else NumberOf(ops[..|ops| - 1], p) + if p(ops[|ops| - 1]) then 1 else 0
  }

  lemma {:induction false} SameNumber(ops: seq<Operation>, p: Operation -> bool, q: Operation -> bool)
    requires forall op :: op in ops ==> (p(op) <==> q(op))
    ensures NumberOf(ops, p) == NumberOf(ops, q)
  {
    if |ops| > 0 {
      var init, last := ops[..|ops| - 1], ops[|ops| - 1];
      assert last in ops && forall op :: op in init ==> op in ops;
      SameNumber(init, p, q);
    }
  }

  lemma {:induction false} NoneIff(ops: seq<Operation>, p: Operation -> bool)
    ensures NumberOf(ops, p) == 0 <==> forall op :: op in ops ==> !p(op)
  {
    if |ops| > 0 {
      var init, last := ops[..|ops| - 1], ops[|ops| - 1];
      NoneIff(init, p);
      assert forall op :: op in ops <==> op in init || op == last by {
        assert ops == init + [last];
      }
    }
  }

  method FilterByOp(ops: seq<Operation>, opType: string) returns (dst: seq<Operation>)
    ensures dst == OfType(ops, opType)
  {
    dst := [];
    for i := 0 to |ops|
      invariant dst == OfType(ops[..i], opType)
    {
      assert ops[..i + 1][..i] == ops[..i];
      if ops[i].opType == opType || opType == "" {
        dst := dst + [ops[i]];
      }
    }
    assert ops[..|ops|] == ops;
  }

  /** The library sort is not stable: callers may rely on nothing but these
      clauses, so every result below holds for whatever order it leaves equal
      start times in. A list that is already sorted is left alone. */
  method SortByStartTime(o: array<Operation>)
    modifies o
    ensures SortedByStart(o[..])
    ensures multiset(o[..]) == multiset(old(o[..]))
    ensures SortedByStart(old(o[..])) ==> o[..] == old(o[..])
  {
    if SortedByStart(o[..]) {
      return;
    }
    for i := 0 to o.Length
      invariant forall a, b :: 0 <= a < b < o.Length && a < i ==> o[a].start <= o[b].start
      invariant multiset(o[..]) == multiset(old(o[..]))
    {
      var least := EarliestFrom(o, i);
      Swap(o, i, least);
    }
  }

  method Swap(o: array<Operation>, i: nat, j: nat)
    requires i < o.Length && j < o.Length
    modifies o
    ensures o[i] == old(o[j]) && o[j] == old(o[i])
    ensures forall k :: 0 <= k < o.Length && k != i && k != j ==> o[k] == old(o[k])
    ensures multiset(o[..]) == multiset(old(o[..]))
  {
    o[i], o[j] := o[j], o[i];
  }

  method EarliestFrom(o: array<Operation>, i: nat) returns (least: nat)
    requires i < o.Length
    ensures i <= least < o.Length
    ensures forall b :: i <= b < o.Length ==> o[least].start <= o[b].start
  {
    least := i;
    for j := i + 1 to o.Length
      invariant i <= least < o.Length
      invariant forall b :: i <= b < j ==> o[least].start <= o[b].start
    {
      if o[j].start < o[least].start {
        least := j;
      }
    }
  }
}
