/** The collector that workers report their operations to (`Collector` in
    pkg/bench/ops.go): a bounded channel drained into a list under a lock. Every
    method is one atomic step; workers, drainer and stability checks interleave
    freely. */
module Collector {
  import opened Operations

  const CAPACITY: nat := 1000

  /** An operation together with the worker that sent it. */
  datatype Sent = Sent(worker: nat, op: Operation)

  /** A list handed to a stability check, taken when `taken` operations had been collected. */
  datatype View = View(opType: string, taken: nat, list: seq<Operation>)

  function OpsOf(sent: seq<Sent>): seq<Operation> {
    if |sent| == 0 then [] else OpsOf(sent[..|sent| - 1]) + [sent[|sent| - 1].op]
  }

  function ByWorker(sent: seq<Sent>, worker: nat): seq<Operation> {
    if |sent| == 0 then []
    else
      var rest := ByWorker(sent[..|sent| - 1], worker);
      var last := sent[|sent| - 1];
      if last.worker == worker then rest + [last.op] else rest
  }

  /** `all` takes the workers' sequences in turns, each in its own order. */
  ghost predicate Interleaves(all: seq<Operation>, perWorker: map<nat, seq<Operation>>) {
    exists sent: seq<Sent> :: OpsOf(sent) == all && Partitions(sent, perWorker)
  }

  ghost predicate Partitions(sent: seq<Sent>, perWorker: map<nat, seq<Operation>>) {
    && (forall i :: 0 <= i < |sent| ==> sent[i].worker in perWorker)
    && (forall w :: w in perWorker ==> ByWorker(sent, w) == perWorker[w])
  }

  lemma SendStep(sent: seq<Sent>, s: Sent, perWorker: map<nat, seq<Operation>>)
    requires Partitions(sent, perWorker)
    ensures OpsOf(sent + [s]) == OpsOf(sent) + [s.op]
    ensures var mine := if s.worker in perWorker then perWorker[s.worker] else [];
      Partitions(sent + [s], perWorker[s.worker := mine + [s.op]])
  {
    var more := sent + [s];
    assert more[..|more| - 1] == sent;
    if s.worker !in perWorker {
      NothingSent(sent, s.worker);
    }
  }

  lemma {:induction false} NothingSent(sent: seq<Sent>, worker: nat)
    requires forall i :: 0 <= i < |sent| ==> sent[i].worker != worker
    ensures ByWorker(sent, worker) == []
  {
    if |sent| > 0 {
      NothingSent(sent[..|sent| - 1], worker);
    }
  }

  lemma MoveOne(ops: seq<Operation>, rcv: seq<Operation>)
    requires |rcv| > 0
    ensures (ops + [rcv[0]]) + rcv[1..] == ops + rcv
  {
  }

  class Collector {
    var ops: seq<Operation>
    var rcv: seq<Operation>
    var closed: bool

    ghost var sent: seq<Sent>
    ghost var perWorker: map<nat, seq<Operation>>
    ghost var views: seq<View>

    /** Whatever was sent is collected or still in the channel, in sending order,
        and every list ever inspected filters a prefix of what is collected. */
    ghost predicate Valid()
      reads this
    {
      && |rcv| <= CAPACITY
      && OpsOf(sent) == ops + rcv
      && Partitions(sent, perWorker)
      && forall v :: v in views ==> v.taken <= |ops| && v.list == OfType(ops[..v.taken], v.opType)
    }

    constructor ()
      ensures Valid() && ops == [] && perWorker == map[] && views == [] && !closed
    {
      ops, rcv, closed := [], [], false;
      sent, perWorker, views := [], map[], [];
    }

    /** A worker tries to send; on a full channel it has to wait and try again. */
    method Send(ghost worker: nat, op: Operation) returns (done: bool)
      requires Valid() && !closed
      modifies this
      ensures Valid() && !closed && ops == old(ops) && views == old(views)
      ensures done <==> |old(rcv)| < CAPACITY
      ensures done ==> rcv == old(rcv) + [op]
      ensures done ==> perWorker == old(perWorker)[worker :=
        (if worker in old(perWorker) then old(perWorker)[worker] else []) + [op]]
      ensures !done ==> rcv == old(rcv) && perWorker == old(perWorker)
    {
      if |rcv| >= CAPACITY {
        return false;
      }
      SendStep(sent, Sent(worker, op), perWorker);
      rcv := rcv + [op];
      sent := sent + [Sent(worker, op)];
      perWorker := perWorker[worker := (if worker in perWorker then perWorker[worker] else []) + [op]];
      done := true;
    }

    /** The drainer moves one operation from the channel to the list. */
    method Receive()
      requires Valid() && |rcv| > 0
      modifies this
      ensures Valid() && closed == old(closed) && perWorker == old(perWorker) && views == old(views)
      ensures ops == old(ops) + [old(rcv)[0]] && rcv == old(rcv)[1..]
    {
      ghost var before := ops;
      ops := ops + [rcv[0]];
      rcv := rcv[1..];
      assert forall k :: 0 <= k <= |before| ==> ops[..k] == before[..k];
    }

    /** A stability check copies the operations of one type. */
    method Snapshot(opType: string) returns (list: seq<Operation>)
      requires Valid()
      modifies this`views
      ensures Valid() && list == OfType(ops, opType)
      ensures views == old(views) + [View(opType, |ops|, list)]
    {
      list := FilterByOp(ops, opType);
      assert ops[..|ops|] == ops;
      views := views + [View(opType, |ops|, list)];
    }

    /** Closing drains the channel: the final list interleaves exactly what the
        workers sent, and every inspected list filters one of its prefixes. */
    method Close() returns (all: seq<Operation>)
      requires Valid() && !closed
      modifies this
      ensures Valid() && closed && rcv == [] && all == ops
      ensures perWorker == old(perWorker) && views == old(views)
      ensures all == old(ops) + old(rcv)
      ensures Interleaves(all, perWorker)
      ensures forall v :: v in views ==> v.taken <= |all| && v.list == OfType(all[..v.taken], v.opType)
    {
      closed := true;
      ghost var collected := ops + rcv;
      while |rcv| > 0
        invariant Valid() && closed && perWorker == old(perWorker) && views == old(views)
        invariant ops + rcv == collected
        decreases |rcv|
      {
        MoveOne(ops, rcv);
        Receive();
      }
      all := ops;
      assert ops + rcv == ops;
    }
  }

  /** An interleaving holds each worker's operations and nothing else. */
  lemma {:induction false} InterleavingKeepsEverything(sent: seq<Sent>, op: Operation)
    ensures op in OpsOf(sent) <==> exists i :: 0 <= i < |sent| && op in ByWorker(sent, sent[i].worker)
  {
    if |sent| > 0 {
      var init, last := sent[..|sent| - 1], sent[|sent| - 1];
      InterleavingKeepsEverything(init, op);
      if op in OpsOf(init) {
        var i :| 0 <= i < |init| && op in ByWorker(init, init[i].worker);
        assert op in ByWorker(sent, sent[i].worker);
      }
      if op == last.op {
        assert op in ByWorker(sent, sent[|sent| - 1].worker);
      }
      if i :| 0 <= i < |sent| && op in ByWorker(sent, sent[i].worker) && op != last.op {
        assert op in ByWorker(init, sent[i].worker);
        SentBefore(init, sent[i].worker, op);
      }
    }
  }

  lemma {:induction false} SentBefore(sent: seq<Sent>, worker: nat, op: Operation)
    requires op in ByWorker(sent, worker)
    ensures op in OpsOf(sent)
  {
    var init, last := sent[..|sent| - 1], sent[|sent| - 1];
    if op in ByWorker(init, worker) {
      SentBefore(init, worker, op);
    }
  }
}
