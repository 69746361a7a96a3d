/** The cyclic schedule of mixed operations and the pool of objects they use
    (`MixedDistribution` in pkg/bench/mixed.go). */
module Schedule {
  import opened Basics
  import opened Arithmetic

  const GET := "GET"
  const PUT := "PUT"
  const DELETE := "DELETE"
  const STAT := "STAT"

  const GEN_OPS: real := 1000.0

  datatype Object = Object(name: string, prefix: string, versionID: string, size: int)

  type Weights = map<string, real>

  /** A Go map yields the zero value for a missing key. */
  function Weight(d: Weights, op: string): real {
    if op in d then d[op] else 0.0
  }

  ghost function SumWeights(d: Weights): real {
    if d == map[] then 0.0
    else
      var k := Pick(d.Keys);
      d[k] + SumWeights(d - {k})
  }

  /** The sum does not depend on the order of the map. */
  lemma {:induction false} SumWeightsRemove(d: Weights, k: string)
    requires k in d
    ensures SumWeights(d) == d[k] + SumWeights(d - {k})
    decreases d
  {
    var p := Pick(d.Keys);
    if p != k {
      SumWeightsRemove(d - {p}, k);
      SumWeightsRemove(d - {k}, p);
      assert d - {p} - {k} == d - {k} - {p};
    }
  }

  /** How often an operation of weight w out of `total` enters the schedule. */
  function Rounded(w: real, total: real): int
    requires total != 0.0
  {
    (0.5 + w / total * GEN_OPS).Floor
  }

  ghost function SumRounded(d: Weights, total: real): int
    requires total != 0.0
  {
    if d == map[] then 0
    else
      var k := Pick(d.Keys);
      Rounded(d[k], total) + SumRounded(d - {k}, total)
  }

  lemma {:induction false} SumRoundedRemove(d: Weights, total: real, k: string)
    requires total != 0.0 && k in d
    ensures SumRounded(d, total) == Rounded(d[k], total) + SumRounded(d - {k}, total)
    decreases d
  {
    var p := Pick(d.Keys);
    if p != k {
      SumRoundedRemove(d - {p}, total, k);
      SumRoundedRemove(d - {k}, total, p);
      assert d - {p} - {k} == d - {k} - {p};
    }
  }

  predicate NonNegative(d: Weights) {
    forall k :: k in d ==> d[k] >= 0.0
  }

  /** `cycle` holds every operation of d as often as its rounded share, and no other. */
  ghost predicate IsCycleOf(cycle: seq<string>, d: Weights, total: real)
    requires total != 0.0
  {
    && |cycle| == SumRounded(d, total)
    && forall k :: multiset(cycle)[k] == if k in d then Rounded(d[k], total) else 0
  }

  // ----- accuracy of the schedule ------------------------------------------------------

  lemma NonNegativeShare(w: real, total: real)
    requires w >= 0.0 && total > 0.0
    ensures w / total >= 0.0
    ensures Rounded(w, total) >= 0
  {
  }

  /** Each operation's count is within one half of its exact share of 1000. */
  lemma CountIsNearShare(w: real, total: real)
    requires total != 0.0
    ensures -0.5 <= Rounded(w, total) as real - GEN_OPS * w / total <= 0.5
  {
    var x := w / total;
    assert x * GEN_OPS == GEN_OPS * w / total by {
      Commute(w, total);
    }
  }

  lemma Commute(w: real, total: real)
    requires total != 0.0
    ensures w / total * GEN_OPS == GEN_OPS * w / total
  {
  }

  ghost function Half(n: nat): real {
    n as real / 2.0
  }

  /** The length of the cycle is within k/2 of 1000 for k kinds of operation. */
  lemma {:induction false} CycleLengthNear(d: Weights, total: real)
    requires total != 0.0
    ensures -Half(|d|) <= SumRounded(d, total) as real - GEN_OPS * SumWeights(d) / total <= Half(|d|)
    decreases d
  {
    if d == map[] {
      assert GEN_OPS * 0.0 / total == 0.0;
    } else {
      var k := Pick(d.Keys);
      var rest := d - {k};
      CycleLengthNear(rest, total);
      CountIsNearShare(d[k], total);
      SplitShare(d[k], SumWeights(rest), total);
      assert |d| == |rest| + 1 by {
        assert d.Keys == rest.Keys + {k};
      }
      HalfMore(|rest|, Rounded(d[k], total), SumRounded(rest, total),
               GEN_OPS * d[k] / total, GEN_OPS * SumWeights(rest) / total);
    }
  }

  lemma HalfMore(n: nat, a: int, b: int, x: real, y: real)
    requires -0.5 <= a as real - x <= 0.5 && -Half(n) <= b as real - y <= Half(n)
    ensures -Half(n + 1) <= (a + b) as real - (x + y) <= Half(n + 1)
  {
  }

  lemma SplitShare(a: real, b: real, total: real)
    requires total != 0.0
    ensures GEN_OPS * (a + b) / total == GEN_OPS * a / total + GEN_OPS * b / total
  {
  }

  /** For the weights a schedule is generated from, the cycle length is 1000 but
      for half an operation per kind; it is never empty for fewer than 2000 kinds. */
  lemma CycleLength(cycle: seq<string>, d: Weights)
    requires SumWeights(d) > 0.0 && IsCycleOf(cycle, d, SumWeights(d))
    ensures GEN_OPS - Half(|d|) <= |cycle| as real <= GEN_OPS + Half(|d|)
    ensures |d| < 2000 ==> |cycle| > 0
  {
    CycleLengthNear(d, SumWeights(d));
    RealCancel(GEN_OPS, SumWeights(d));
  }

  /** A heavier operation is never scheduled less often. */
  lemma RoundingIsMonotone(v: real, w: real, total: real)
    requires total > 0.0 && v <= w
    ensures Rounded(v, total) <= Rounded(w, total)
  {
    assert v / total <= w / total by {
      DivideBoth(v, w, total);
    }
  }

  lemma DivideBoth(v: real, w: real, total: real)
    requires total > 0.0 && v <= w
    ensures v / total <= w / total
  {
    var a, b := v / total, w / total;
    assert a * total == v && b * total == w;
    if b < a {
      RealMulStrict(total, b, a);
    }
  }

  /** What the check at the start of Generate buys: no cycle deletes more than it puts. */
  lemma CyclePutsCoverDeletes(cycle: seq<string>, d: Weights)
    requires NonNegative(d) && SumWeights(d) > 0.0 && IsCycleOf(cycle, d, SumWeights(d))
    requires Weight(d, DELETE) <= Weight(d, PUT)
    ensures multiset(cycle)[DELETE] <= multiset(cycle)[PUT]
  {
    var total := SumWeights(d);
    if DELETE in d {
      NonNegativeShare(d[DELETE], total);
      if PUT in d {
        RoundingIsMonotone(d[DELETE], d[PUT], total);
      } else {
        assert d[DELETE] == 0.0;
        assert Rounded(0.0, total) == 0;
      }
    }
  }

  // ----- consecutive operations ---------------------------------------------------------

  /** What n calls of getOp return when the first one is at position c. */
  function Window(cycle: seq<string>, c: nat, n: nat): (r: seq<string>)
    requires |cycle| > 0
  {
    seq(n, i requires 0 <= i < n => cycle[(c + i) % |cycle|])
  }

  /** Any window of one cycle length holds every operation exactly as often as the
      cycle, wherever it begins. */
  lemma WindowIsRotation(cycle: seq<string>, c: nat)
    requires |cycle| > 0
    ensures multiset(Window(cycle, c, |cycle|)) == multiset(cycle)
  {
    var n := |cycle|;
    var r := c % n;
    var w := Window(cycle, c, n);
    forall i | 0 <= i < n ensures w[i] == (cycle[r..] + cycle[..r])[i] {
      WrapIndex(c, i, n);
    }
    assert w == cycle[r..] + cycle[..r];
    assert cycle == cycle[..r] + cycle[r..];
  }

  lemma WrapIndex(c: nat, i: nat, n: nat)
    requires i < n
    ensures (c + i) % n == if c % n + i < n then c % n + i else c % n + i - n
  {
    var q, r := c / n, c % n;
    assert c == q * n + r;
    if r + i < n {
      ModUnique(c + i, n, q, r + i);
    } else {
      ModUnique(c + i, n, q + 1, r + i - n);
    }
  }

  // ----- how far deletions get ahead -------------------------------------------------------

  function Delta(op: string): int {
    if op == DELETE then 1 else if op == PUT then -1 else 0
  }

  /** Deletions minus uploads among the first n operations ever fetched. */
  function Excess(cycle: seq<string>, n: nat): int
    requires |cycle| > 0
  {
    if n == 0 then 0 else Excess(cycle, n - 1) + Delta(cycle[(n - 1) % |cycle|])
  }

  /** The largest such excess over the first n operations. */
  function MaxExcess(cycle: seq<string>, n: nat): (r: nat)
    requires |cycle| > 0
  {
    if n == 0 then 0 else Max(MaxExcess(cycle, n - 1), Excess(cycle, n))
  }

  lemma {:induction false} MaxExcessBounds(cycle: seq<string>, n: nat, m: nat)
    requires |cycle| > 0 && m <= n
    ensures Excess(cycle, m) <= MaxExcess(cycle, n)
  {
    if m < n {
      MaxExcessBounds(cycle, n - 1, m);
    } else if n > 0 {
      assert MaxExcess(cycle, n) >= Excess(cycle, n);
    }
  }

  /** It is reached, or deletions never lead. */
  lemma {:induction false} MaxExcessReached(cycle: seq<string>, n: nat) returns (m: nat)
    requires |cycle| > 0
    ensures m <= n && Excess(cycle, m) == MaxExcess(cycle, n)
  {
    m := 0;
    if n > 0 {
      m := MaxExcessReached(cycle, n - 1);
      if Excess(cycle, n) == MaxExcess(cycle, n) {
        m := n;
      }
    }
  }

  lemma CountOneMore(s: seq<string>, n: nat)
    requires n < |s|
    ensures multiset(s[..n + 1]) == multiset(s[..n]) + multiset{s[n]}
  {
    assert s[..n + 1] == s[..n] + [s[n]];
  }

  lemma {:induction false} ExcessOfPrefix(cycle: seq<string>, n: nat)
    requires 0 < |cycle| && n <= |cycle|
    ensures Excess(cycle, n) == multiset(cycle[..n])[DELETE] as int - multiset(cycle[..n])[PUT] as int
  {
    if n > 0 {
      ExcessOfPrefix(cycle, n - 1);
      ModUnique(n - 1, |cycle|, 0, n - 1);
      CountOneMore(cycle, n - 1);
    }
  }

  lemma {:induction false} ExcessRepeats(cycle: seq<string>, n: nat)
    requires |cycle| > 0
    ensures Excess(cycle, n + |cycle|) == Excess(cycle, n) + Excess(cycle, |cycle|)
  {
    if n > 0 {
      ExcessRepeats(cycle, n - 1);
      var c := |cycle|;
      assert (n - 1 + c) % c == (n - 1) % c by {
        AddOneCycle(n - 1, c);
      }
    }
  }

  lemma AddOneCycle(x: nat, c: nat)
    requires c > 0
    ensures (x + c) % c == x % c
  {
    ModUnique(x + c, c, x / c + 1, x % c);
  }

  /** One cycle bounds the infinite run: if a cycle does not delete more than it
      puts, deletions never get further ahead than within the first cycle. */
  lemma {:induction false} OneCycleBoundsAll(cycle: seq<string>, n: nat)
    requires |cycle| > 0 && multiset(cycle)[DELETE] <= multiset(cycle)[PUT]
    ensures Excess(cycle, n) <= MaxExcess(cycle, |cycle|)
  {
    if n <= |cycle| {
      MaxExcessBounds(cycle, |cycle|, n);
    } else {
      OneCycleBoundsAll(cycle, n - |cycle|);
      ExcessRepeats(cycle, n - |cycle|);
      ExcessOfPrefix(cycle, |cycle|);
      assert cycle[..|cycle|] == cycle;
    }
  }

  // ----- the distribution -------------------------------------------------------------------

  datatype GenerateError = NoError | DeleteExceedsPut | NegativeWeight | ZeroTotal

  class MixedDistribution {
    var distribution: Weights
    var ops: seq<string>
    var objects: map<string, Object>
    var current: nat

    constructor (d: Weights)
      ensures distribution == d && ops == [] && objects == map[] && current == 0
    {
      distribution, ops, objects, current := d, [], map[], 0;
    }

    method Generate() returns (err: GenerateError)
      modifies this
      ensures var d := old(distribution);
        err == if Weight(d, DELETE) > Weight(d, PUT) then DeleteExceedsPut
               else if !NonNegative(d) then NegativeWeight
               else if SumWeights(d) == 0.0 then ZeroTotal
               else NoError
      ensures err == NoError ==>
        var (d, total) := (old(distribution), SumWeights(old(distribution)));
        && total > 0.0
        && IsCycleOf(ops, d, total)
        && distribution == (map k | k in d :: d[k] / total)
      ensures err != NoError ==> distribution == old(distribution) && ops == old(ops)
      ensures objects == if err == DeleteExceedsPut then old(objects) else map[]
      ensures current == old(current)
    {
      if Weight(distribution, DELETE) > Weight(distribution, PUT) {
        return DeleteExceedsPut;
      }
      objects := map[];
      ghost var d := distribution;
      err := Normalize();
      if err != NoError {
        return;
      }
      ghost var total := SumWeights(d);
      ops := [];
      var todo := distribution.Keys;
      ghost var rest := d;
      while todo != {}
        invariant todo == rest.Keys && rest.Keys <= d.Keys
        invariant forall k :: k in rest ==> rest[k] == d[k]
        invariant distribution == map k | k in d :: d[k] / total
        invariant |ops| + SumRounded(rest, total) == SumRounded(d, total)
        invariant forall k :: multiset(ops)[k] == if k in d && k !in rest then Rounded(d[k], total) else 0
        invariant objects == map[] && current == old(current)
        decreases todo
      {
        var op :| op in todo;
        todo := todo - {op};
        NonNegativeShare(d[op], total);
        SumRoundedRemove(rest, total, op);
        var add := (0.5 + distribution[op] * GEN_OPS).Floor;
        AppendCopies(op, add);
        rest := rest - {op};
      }
      assert rest == map[];
      Shuffle();
    }

    method AppendCopies(op: string, add: nat)
      requires op !in ops
      modifies this`ops
      ensures |ops| == |old(ops)| + add && multiset(ops) == multiset(old(ops))[op := add]
    {
      for i := 0 to add
        invariant |ops| == |old(ops)| + i
        invariant multiset(ops) == multiset(old(ops))[op := i]
      {
        ops := ops + [op];
      }
    }

    /** Divides all weights by their sum, which must be positive. */
    method Normalize() returns (err: GenerateError)
      modifies this`distribution
      ensures var d := old(distribution);
        err == if !NonNegative(d) then NegativeWeight else if SumWeights(d) == 0.0 then ZeroTotal else NoError
      ensures err == NoError ==>
        var (d, total) := (old(distribution), SumWeights(old(distribution)));
        && NonNegative(d) && total > 0.0 && distribution == (map k | k in d :: d[k] / total)
      ensures err != NoError ==> distribution == old(distribution)
    {
      var total := 0.0;
      var todo := distribution.Keys;
      ghost var rest := distribution;
      while todo != {}
        invariant distribution == old(distribution)
        invariant todo == rest.Keys && rest.Keys <= distribution.Keys
        invariant forall k :: k in rest ==> rest[k] == distribution[k]
        invariant forall k :: k in distribution && k !in rest ==> distribution[k] >= 0.0
        invariant total >= 0.0 && total + SumWeights(rest) == SumWeights(distribution)
        decreases todo
      {
        var op :| op in todo;
        todo := todo - {op};
        if distribution[op] < 0.0 {
          return NegativeWeight;
        }
        SumWeightsRemove(rest, op);
        total := total + distribution[op];
        rest := rest - {op};
      }
      assert rest == map[];
      if total == 0.0 {
        return ZeroTotal;
      }
      ghost var d := distribution;
      todo := distribution.Keys;
      while todo != {}
        invariant todo <= d.Keys && distribution.Keys == d.Keys
        invariant forall k :: k in d ==> distribution[k] == if k in todo then d[k] else d[k] / total
        decreases todo
      {
        var op :| op in todo;
        todo := todo - {op};
        distribution := distribution[op := distribution[op] / total];
      }
      err := NoError;
    }

    /** Swaps every position with an arbitrary one not after it. */
    method Shuffle()
      modifies this`ops
      ensures multiset(ops) == multiset(old(ops)) && |ops| == |old(ops)|
    {
      var i := |ops| - 1;
      while i > 0
        invariant i < |ops| == |old(ops)|
        invariant multiset(ops) == multiset(old(ops))
        decreases i
      {
        var j :| 0 <= j <= i;
        SwapKeeps(ops, i, j);
        ops := ops[i := ops[j]][j := ops[i]];
        i := i - 1;
      }
    }

    /** The next operation of the cycle. */
    method GetOp() returns (op: string)
      requires current < |ops|
      modifies this`current
      ensures op == ops[old(current)]
      ensures current == (old(current) + 1) % |ops| && current < |ops|
    {
      op := ops[current];
      current := (current + 1) % |ops|;
    }

    /** Takes an arbitrary object out of the pool; None stands for the panic on an
        empty pool. A reader puts it back with Return; deletion takes one in the
        same way and keeps it. */
    method RandomObj() returns (obj: Option<Object>, ghost key: string)
      modifies this`objects
      ensures obj.None? <==> old(objects) == map[]
      ensures obj.None? ==> objects == old(objects)
      ensures obj.Some? ==>
        key in old(objects) && obj.value == old(objects)[key] && objects == old(objects) - {key}
    {
      if objects == map[] {
        return None, "";
      }
      assert objects.Keys != {};
      var k :| k in objects.Keys;
      obj, key := Some(objects[k]), k;
      objects := objects - {k};
    }

    /** Puts a checked-out object back under its key. */
    method Return(key: string, obj: Object)
      modifies this`objects
      ensures objects == old(objects)[key := obj]
    {
      objects := objects[key := obj];
    }

    method AddObj(obj: Object)
      modifies this`objects
      ensures objects == old(objects)[obj.name := obj]
    {
      objects := objects[obj.name := obj];
    }
  }

  lemma SwapKeeps(s: seq<string>, i: nat, j: nat)
    requires i < |s| && j < |s|
    ensures multiset(s[i := s[j]][j := s[i]]) == multiset(s)
  {
  }

  lemma NextPosition(n: nat, c: nat)
    requires c > 0
    ensures (n % c + 1) % c == (n + 1) % c
  {
    NextQuotient(n, c);
    if n % c + 1 < c {
      ModSmall(n % c + 1, c);
    } else {
      ModUnique(n % c + 1, c, 1, 0);
    }
  }

  /** Consecutive calls of getOp, from any position: a cycle's length of them return
      every operation as often as the cycle holds it. */
  method FetchMany(m: MixedDistribution, n: nat) returns (fetched: seq<string>)
    requires m.current < |m.ops|
    modifies m
    ensures m.ops == old(m.ops) && m.objects == old(m.objects) && m.current == (old(m.current) + n) % |m.ops|
    ensures fetched == Window(m.ops, old(m.current), n)
    ensures |fetched| == n && forall i :: 0 <= i < n ==> fetched[i] == m.ops[(old(m.current) + i) % |m.ops|]
    ensures n == |m.ops| ==> multiset(fetched) == multiset(m.ops)
  {
    ghost var c := m.current;
    fetched := [];
    ModSmall(c, |m.ops|);
    for i := 0 to n
      invariant m.ops == old(m.ops) && m.objects == old(m.objects) && |m.ops| > 0
      invariant m.current == (c + i) % |m.ops|
      invariant fetched == Window(m.ops, c, i)
    {
      NextPosition(c + i, |m.ops|);
      WindowNext(m.ops, c, i);
      var op := m.GetOp();
      fetched := fetched + [op];
    }
    WindowIsRotation(m.ops, c);
  }

  lemma WindowNext(cycle: seq<string>, c: nat, n: nat)
    requires |cycle| > 0
    ensures Window(cycle, c, n + 1) == Window(cycle, c, n) + [cycle[(c + n) % |cycle|]]
  {
  }
}
