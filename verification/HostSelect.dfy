/** Choosing the host for the next request (the selector closures in
    client/s3/s3client.go). */
module HostSelect {
  import opened Basics
  import opened Arithmetic

  const MAX_INT32: int := 0x7FFF_FFFF
  const SECOND: int := 1_000_000_000

  function Sum(s: seq<int>): int {
    if |s| == 0 then 0 else Sum(s[..|s| - 1]) + s[|s| - 1]
  }

  lemma {:induction false} SumUpdate(s: seq<int>, i: nat, x: int)
    requires i < |s|
    ensures Sum(s[i := x]) == Sum(s) - s[i] + x
  {
    var n := |s| - 1;
    if i == n {
      assert s[i := x][..n] == s[..n];
    } else {
      SumUpdate(s[..n], i, x);
      assert s[i := x][..n] == s[..n][i := x];
    }
  }

  lemma {:induction false} SumOfZeros(s: seq<int>)
    requires forall i :: 0 <= i < |s| ==> s[i] == 0
    ensures Sum(s) == 0
  {
    if |s| > 0 {
      SumOfZeros(s[..|s| - 1]);
    }
  }

  // ----- the choice ------------------------------------------------------------------------

  predicate IsLeast(running: seq<int>, i: nat) {
    i < |running| && forall j :: 0 <= j < |running| ==> running[i] <= running[j]
  }

  /** Host i has the fewest requests running; among those it has waited the longest,
      and is the first in case of a tie. */
  predicate IsLeastLoaded(running: seq<int>, lastFinished: seq<Time>, i: nat)
    requires |running| == |lastFinished|
  {
    && IsLeast(running, i)
    && (forall j :: 0 <= j < |running| && running[j] == running[i] ==> lastFinished[i] <= lastFinished[j])
    && (forall j :: 0 <= j < i && running[j] == running[i] ==> lastFinished[i] < lastFinished[j])
  }

  /** A clock that is not behind any recorded finish by a second or more. */
  predicate ClockIsSane(lastFinished: seq<Time>, now: Time) {
    forall j :: 0 <= j < |lastFinished| ==> lastFinished[j] < now + SECOND
  }

  /** The loads are the outstanding handles, host by host and in total. */
  ghost predicate Tracks(running: seq<int>, outstanding: multiset<nat>) {
    && (forall h :: h in outstanding ==> h < |running|)
    && (forall h :: 0 <= h < |running| ==> running[h] == outstanding[h])
    && Sum(running) == |outstanding|
  }

  lemma TracksOneMore(running: seq<int>, outstanding: multiset<nat>, idx: nat)
    requires Tracks(running, outstanding) && idx < |running|
    ensures Tracks(running[idx := running[idx] + 1], outstanding + multiset{idx})
  {
    SumUpdate(running, idx, running[idx] + 1);
  }

  lemma TracksOneLess(running: seq<int>, outstanding: multiset<nat>, idx: nat)
    requires Tracks(running, outstanding) && idx in outstanding
    ensures Tracks(running[idx := running[idx] - 1], outstanding - multiset{idx})
  {
    SumUpdate(running, idx, running[idx] - 1);
  }

  class Weighed {
    const running: array<int>
    const lastFinished: array<Time>
    /** The hosts whose handles have not been returned. */
    ghost var outstanding: multiset<nat>

    ghost predicate Valid()
      reads this, running, lastFinished
    {
      && running.Length == lastFinished.Length > 0 && running != lastFinished
      && Tracks(running[..], outstanding)
    }

    constructor (hosts: nat, now: Time, off: nat)
      requires hosts > 0
      ensures Valid() && fresh(running) && fresh(lastFinished) && outstanding == multiset{}
      ensures running.Length == hosts
      ensures forall h :: 0 <= h < hosts ==> running[h] == 0 && lastFinished[h] == now + (h + off % hosts)
      ensures 2 * hosts <= SECOND ==> ClockIsSane(lastFinished[..], now)
    {
      var r := new int[hosts](i => 0);
      var f := new Time[hosts](i => now + (i + off % hosts));
      running, lastFinished := r, f;
      outstanding := multiset{};
      new;
      SumOfZeros(running[..]);
    }

    /** The scan for the least number, then for the earliest finish among those. */
    method Find(now: Time) returns (idx: nat)
      requires Valid()
      ensures idx < running.Length
      ensures ClockIsSane(lastFinished[..], now) && (exists h :: 0 <= h < running.Length && running[h] < MAX_INT32) ==>
        IsLeastLoaded(running[..], lastFinished[..], idx)
    {
      var min := MAX_INT32;
      for i := 0 to running.Length
        invariant min <= MAX_INT32 && forall j :: 0 <= j < i ==> min <= running[j]
        invariant min == MAX_INT32 || exists j :: 0 <= j < i && running[j] == min
      {
        if running[i] < min {
          min := running[i];
        }
      }
      var earliest := now + SECOND;
      idx := 0;
      for i := 0 to running.Length
        invariant idx < running.Length && earliest <= now + SECOND
        invariant forall j :: 0 <= j < i && running[j] == min ==> earliest <= lastFinished[j]
        invariant earliest < now + SECOND ==> running[idx] == min && lastFinished[idx] == earliest && idx < i
        invariant earliest < now + SECOND ==> forall j :: 0 <= j < idx && running[j] == min ==> earliest < lastFinished[j]
      {
        if running[i] == min {
          if lastFinished[i] < earliest {
            earliest := lastFinished[i];
            idx := i;
          }
        }
      }
    }

    /** Hands out a host. */
    method Acquire(now: Time) returns (idx: nat)
      requires Valid()
      modifies this`outstanding, running
      ensures Valid() && idx < running.Length
      ensures outstanding == old(outstanding) + multiset{idx}
      ensures running[..] == old(running[..])[idx := old(running[..])[idx] + 1]
      ensures ClockIsSane(lastFinished[..], now) && (exists h :: 0 <= h < running.Length && old(running[h]) < MAX_INT32) ==>
        IsLeastLoaded(old(running[..]), lastFinished[..], idx)
    {
      idx := Find(now);
      TracksOneMore(running[..], outstanding, idx);
      running[idx] := running[idx] + 1;
      outstanding := outstanding + multiset{idx};
    }

    /** Takes a handle back; false stands for the panic when there was none. */
    method Done(idx: nat, now: Time) returns (ok: bool)
      requires Valid() && idx < running.Length
      modifies this`outstanding, running, lastFinished
      ensures ok <==> idx in old(outstanding)
      ensures ok ==> Valid() && outstanding == old(outstanding) - multiset{idx}
      ensures ok ==> running[..] == old(running[..])[idx := old(running[..])[idx] - 1]
      ensures lastFinished[..] == old(lastFinished[..])[idx := now]
      ensures ClockIsSane(old(lastFinished[..]), now) ==> ClockIsSane(lastFinished[..], now)
    {
      lastFinished[idx] := now;
      assert running[idx] == running[..][idx] == outstanding[idx];
      if idx in outstanding {
        TracksOneLess(running[..], outstanding, idx);
      }
      running[idx] := running[idx] - 1;
      ok := running[idx] >= 0;
      outstanding := outstanding - multiset{idx};
    }
  }

  /** As time goes by a clock stays sane. */
  lemma ClockStaysSane(lastFinished: seq<Time>, now: Time, later: Time)
    requires ClockIsSane(lastFinished, now) && now <= later
    ensures ClockIsSane(lastFinished, later)
  {
  }

  // ----- balance ---------------------------------------------------------------------------

  /** No host has two requests more than another. */
  predicate Balanced(running: seq<int>) {
    forall i, j :: 0 <= i < |running| && 0 <= j < |running| ==> running[i] <= running[j] + 1
  }

  /** The loads after a sequence of choices, none of them returned. */
  function AfterPicks(running: seq<int>, picks: seq<nat>): seq<int>
    requires forall k :: 0 <= k < |picks| ==> picks[k] < |running|
    decreases |picks|
  {
    if |picks| == 0 then running else AfterPicks(running[picks[0] := running[picks[0]] + 1], picks[1..])
  }

  /** Every choice is of a host with the least load at that time. */
  ghost predicate PicksLeast(running: seq<int>, picks: seq<nat>)
    decreases |picks|
  {
    |picks| == 0 ||
    (IsLeast(running, picks[0]) && PicksLeast(running[picks[0] := running[picks[0]] + 1], picks[1..]))
  }

  lemma {:induction false} PicksInRange(running: seq<int>, picks: seq<nat>)
    requires PicksLeast(running, picks)
    ensures forall k :: 0 <= k < |picks| ==> picks[k] < |running|
    decreases |picks|
  {
    if |picks| > 0 {
      PicksInRange(running[picks[0] := running[picks[0]] + 1], picks[1..]);
      assert forall k :: 1 <= k < |picks| ==> picks[k] == picks[1..][k - 1];
    }
  }

  /** Least-loaded choices keep the loads within one of each other, and their sum
      counts the choices. */
  lemma {:induction false} AcquiringKeepsBalance(running: seq<int>, picks: seq<nat>)
    requires Balanced(running) && PicksLeast(running, picks)
    ensures forall k :: 0 <= k < |picks| ==> picks[k] < |running|
    ensures Balanced(AfterPicks(running, picks))
    ensures Sum(AfterPicks(running, picks)) == Sum(running) + |picks|
    decreases |picks|
  {
    PicksInRange(running, picks);
    if |picks| > 0 {
      SumUpdate(running, picks[0], running[picks[0]] + 1);
      AcquiringKeepsBalance(running[picks[0] := running[picks[0]] + 1], picks[1..]);
    }
  }

  lemma {:induction false} PickOneMore(running: seq<int>, picks: seq<nat>, p: nat)
    requires PicksLeast(running, picks) && (forall k :: 0 <= k < |picks| ==> picks[k] < |running|)
    requires IsLeast(AfterPicks(running, picks), p)
    ensures |AfterPicks(running, picks)| == |running| && PicksLeast(running, picks + [p])
    ensures (forall k :: 0 <= k < |picks + [p]| ==> (picks + [p])[k] < |running|)
    ensures var r := AfterPicks(running, picks); AfterPicks(running, picks + [p]) == r[p := r[p] + 1]
    decreases |picks|
  {
    AfterPicksLength(running, picks);
    if |picks| == 0 {
      assert picks + [p] == [p] && [p][1..] == [];
    } else {
      var next := running[picks[0] := running[picks[0]] + 1];
      assert (picks + [p])[1..] == picks[1..] + [p];
      PickOneMore(next, picks[1..], p);
    }
  }

  lemma {:induction false} AfterPicksLength(running: seq<int>, picks: seq<nat>)
    requires forall k :: 0 <= k < |picks| ==> picks[k] < |running|
    ensures |AfterPicks(running, picks)| == |running|
    decreases |picks|
  {
    if |picks| > 0 {
      AfterPicksLength(running[picks[0] := running[picks[0]] + 1], picks[1..]);
    }
  }

  lemma {:induction false} SumAtLeast(s: seq<int>, m: int)
    requires forall i :: 0 <= i < |s| ==> m <= s[i]
    ensures |s| * m <= Sum(s)
  {
    if |s| > 0 {
      SumAtLeast(s[..|s| - 1], m);
      DistributeRight(|s| - 1, 1, m);
    }
  }

  /** Unless every host has 2^31 - 1 requests running there is one to choose. */
  lemma SomeHostIsFree(running: seq<int>)
    requires Sum(running) < |running| * MAX_INT32
    ensures exists h :: 0 <= h < |running| && running[h] < MAX_INT32
  {
    if forall h :: 0 <= h < |running| ==> MAX_INT32 <= running[h] {
      SumAtLeast(running, MAX_INT32);
    }
  }

  /** Requests that begin at the given times, none of which ends: each goes to a host
      with the least load, and loads that were within one of each other stay so. */
  method AcquireAll(w: Weighed, times: seq<Time>) returns (picks: seq<nat>)
    requires w.Valid() && Balanced(w.running[..])
    requires forall k :: 0 <= k < |times| ==> ClockIsSane(w.lastFinished[..], times[k])
    requires |w.outstanding| + |times| <= w.running.Length * MAX_INT32
    modifies w, w.running
    ensures w.Valid() && |picks| == |times|
    ensures PicksLeast(old(w.running[..]), picks)
    ensures Balanced(w.running[..]) && Sum(w.running[..]) == old(Sum(w.running[..])) + |times|
  {
    ghost var before := w.running[..];
    picks := [];
    for i := 0 to |times|
      invariant w.Valid() && |picks| == i && PicksLeast(before, picks)
      invariant forall k :: 0 <= k < |picks| ==> picks[k] < |before|
      invariant w.running[..] == AfterPicks(before, picks)
      invariant Sum(w.running[..]) == Sum(before) + i && Sum(before) == |old(w.outstanding)|
      invariant w.lastFinished[..] == old(w.lastFinished[..])
    {
      SomeHostIsFree(w.running[..]);
      ghost var loads := w.running[..];
      assert exists h :: 0 <= h < w.running.Length && w.running[h] < MAX_INT32 by {
        var h :| 0 <= h < |loads| && loads[h] < MAX_INT32;
        assert w.running[h] < MAX_INT32;
      }
      var p := w.Acquire(times[i]);
      SumUpdate(loads, p, loads[p] + 1);
      PickOneMore(before, picks, p);
      picks := picks + [p];
    }
    AcquiringKeepsBalance(before, picks);
  }

  /** From a fresh selector, with a clock that never goes back behind its creation, the
      loads never differ by more than one. */
  method FreshRun(hosts: nat, now: Time, off: nat, times: seq<Time>) returns (loads: seq<int>)
    requires 0 < hosts && 2 * hosts <= SECOND && |times| <= hosts * MAX_INT32
    requires forall k :: 0 <= k < |times| ==> now <= times[k]
    ensures |loads| == hosts && Balanced(loads) && Sum(loads) == |times|
  {
    var w := new Weighed(hosts, now, off);
    SumOfZeros(w.running[..]);
    forall k | 0 <= k < |times| ensures ClockIsSane(w.lastFinished[..], times[k]) {
      ClockStaysSane(w.lastFinished[..], now, times[k]);
    }
    var picks := AcquireAll(w, times);
    loads := w.running[..];
  }

  /** The random offset meant to start with a random host is added to every host's
      time, so the first choice is host 0 whatever the offset. */
  lemma FirstChoiceIsHostZero(running: seq<int>, lastFinished: seq<Time>, now: Time, off: nat, idx: nat)
    requires |running| == |lastFinished| > 0
    requires forall h :: 0 <= h < |running| ==> running[h] == 0 && lastFinished[h] == now + (h + off % |running|)
    requires IsLeastLoaded(running, lastFinished, idx)
    ensures idx == 0
  {
    assert running[0] == running[idx];
  }

  // ----- round robin -------------------------------------------------------------------------

  class RoundRobin {
    const hosts: nat
    var current: nat

    constructor (n: nat)
      requires n > 0
      ensures hosts == n && current == 0
    {
      hosts, current := n, 0;
    }

    method Next() returns (now: nat)
      requires hosts > 0
      modifies this
      ensures now == old(current) % hosts && current == old(current) + 1
    {
      now := current % hosts;
      current := current + 1;
    }
  }

  /** How often host h is chosen by the first k calls. */
  function Chosen(h: nat, k: nat, hosts: nat): nat
    requires hosts > 0
  {
    if k == 0 then 0 else Chosen(h, k - 1, hosts) + if (k - 1) % hosts == h then 1 else 0
  }

  /** After k calls each host has been chosen k/n times, the first k mod n once more. */
  lemma {:induction false} RoundRobinIsFair(h: nat, k: nat, hosts: nat)
    requires h < hosts
    ensures Chosen(h, k, hosts) == k / hosts + if h < k % hosts then 1 else 0
  {
    if k == 0 {
      DivUnique(0, hosts, 0);
    } else {
      RoundRobinIsFair(h, k - 1, hosts);
      NextQuotient(k - 1, hosts);
    }
  }

  /** k calls on a new selector. */
  method ChooseMany(hosts: nat, k: nat) returns (chosen: seq<nat>)
    requires hosts > 0
    ensures |chosen| == k
    ensures forall h: nat :: h < hosts ==> multiset(chosen)[h] == k / hosts + if h < k % hosts then 1 else 0
  {
    var r := new RoundRobin(hosts);
    chosen := [];
    for i := 0 to k
      invariant r.hosts == hosts && r.current == i == |chosen|
      invariant forall h: nat :: h < hosts ==> multiset(chosen)[h] == Chosen(h, i, hosts)
    {
      var now := r.Next();
      chosen := chosen + [now];
    }
    forall h: nat | h < hosts ensures Chosen(h, k, hosts) == k / hosts + if h < k % hosts then 1 else 0 {
      RoundRobinIsFair(h, k, hosts);
    }
  }
}
