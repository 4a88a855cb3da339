/** The bounded fan-out of `GetHostFactsWithConcurrency` and `GetHostWithConcurrency`: a worker per
    request, a semaphore channel of capacity `limit`, an unbuffered result channel, one collector
    that sorts what it received and then closes both channels. */
module FanOut {
  import opened Wrappers

  /** Where a worker stands: not started, before the semaphore, with the request in flight, with the
      result ready to be sent, with the result sent but the slot still taken, finished. */
  datatype Phase = Unspawned | Waiting | Requesting | Offering | Delivered | Done

  datatype State = State(phases: seq<Phase>, spawned: nat, slots: nat, received: seq<nat>, closed: bool)

  datatype Step =
    | Spawn
    | Acquire(i: nat)
    | Respond(i: nat)
    | Deliver(i: nat)
    | Release(i: nat)
    | Close

  function Initial(n: nat): State {
    State(seq(n, _ => Unspawned), 0, 0, [], false)
  }

  predicate In(s: State, i: nat, p: Phase) {
    i < |s.phases| && s.phases[i] == p
  }

  /** A send blocks while the semaphore is full; the collector receives once every worker has been
      started and until it has a result from each; a receive from the semaphore never blocks. */
  predicate Enabled(limit: nat, s: State, step: Step) {
    match step
    case Spawn => s.spawned < |s.phases|
    case Acquire(i) => In(s, i, Waiting) && s.slots < limit
    case Respond(i) => In(s, i, Requesting)
    case Deliver(i) => In(s, i, Offering) && s.spawned == |s.phases| && |s.received| < |s.phases|
    case Release(i) => In(s, i, Delivered)
    case Close => |s.received| == |s.phases| && !s.closed
  }

  function Move(s: State, i: nat, p: Phase): State
    requires i < |s.phases|
  {
    s.(phases := s.phases[i := p])
  }

  function Apply(limit: nat, s: State, step: Step): State
    requires Enabled(limit, s, step)
  {
    match step
    case Spawn => Move(s, s.spawned, Waiting).(spawned := s.spawned + 1)
    case Acquire(i) => Move(s, i, Requesting).(slots := s.slots + 1)
    case Respond(i) => Move(s, i, Offering)
    case Deliver(i) => Move(s, i, Delivered).(received := s.received + [i])
    case Release(i) => Move(s, i, Done).(slots := if s.slots > 0 then s.slots - 1 else 0)
    case Close => s.(closed := true)
  }

  /** A run: every step is enabled where it is taken. */
  predicate Runs(limit: nat, s: State, steps: seq<Step>)
    decreases |steps|
  {
    steps == [] || (Enabled(limit, s, steps[0]) && Runs(limit, Apply(limit, s, steps[0]), steps[1..]))
  }

  function After(limit: nat, s: State, steps: seq<Step>): State
    requires Runs(limit, s, steps)
    decreases |steps|
  {
    if steps == [] then s else After(limit, Apply(limit, s, steps[0]), steps[1..])
  }

  /* ---- weights of the workers' phases ---- */

  function HasSlot(p: Phase): nat {
    if p in {Requesting, Offering, Delivered} then 1 else 0
  }

  function StepsLeft(p: Phase): nat {
    match p
    case Unspawned => 5
    case Waiting => 4
    case Requesting => 3
    case Offering => 2
    case Delivered => 1
    case Done => 0
  }

  function Weigh(phases: seq<Phase>, weight: Phase -> nat): nat {
    if phases == [] then 0 else Weigh(phases[..|phases| - 1], weight) + weight(phases[|phases| - 1])
  }

  lemma {:induction false} WeighMove(phases: seq<Phase>, i: nat, p: Phase, weight: Phase -> nat)
    requires i < |phases|
    ensures Weigh(phases[i := p], weight) + weight(phases[i]) == Weigh(phases, weight) + weight(p)
  {
    var n := |phases| - 1;
    if i == n {
      assert phases[i := p][..n] == phases[..n];
    } else {
      assert phases[i := p][..n] == phases[..n][i := p];
      WeighMove(phases[..n], i, p, weight);
    }
  }

  lemma {:induction false} WeighUniform(phases: seq<Phase>, p: Phase, weight: Phase -> nat)
    requires forall i :: 0 <= i < |phases| ==> phases[i] == p
    ensures Weigh(phases, weight) == |phases| * weight(p)
  {
    if phases != [] {
      WeighUniform(phases[..|phases| - 1], p, weight);
    }
  }

  lemma {:induction false} WeighPositive(phases: seq<Phase>, i: nat, weight: Phase -> nat)
    requires i < |phases|
    ensures Weigh(phases, weight) >= weight(phases[i])
  {
    if i < |phases| - 1 {
      WeighPositive(phases[..|phases| - 1], i, weight);
    }
  }

  lemma {:induction false} WeighWitness(phases: seq<Phase>, weight: Phase -> nat) returns (i: nat)
    requires Weigh(phases, weight) > 0
    ensures i < |phases| && weight(phases[i]) > 0
  {
    if weight(phases[|phases| - 1]) > 0 {
      i := |phases| - 1;
    } else {
      i := WeighWitness(phases[..|phases| - 1], weight);
    }
  }

  /* ---- the invariant ---- */

  ghost predicate Distinct(xs: seq<nat>) {
    forall i, j :: 0 <= i < j < |xs| ==> xs[i] != xs[j]
  }

  ghost predicate Inv(limit: nat, s: State) {
    && s.spawned <= |s.phases|
    && (forall i :: 0 <= i < |s.phases| ==> (s.phases[i] == Unspawned <==> i >= s.spawned))
    && s.slots == Weigh(s.phases, HasSlot) && s.slots <= limit
    && Distinct(s.received)
    && (forall i: nat :: i in s.received <==> i < |s.phases| && s.phases[i] in {Delivered, Done})
    && (s.closed ==> |s.received| == |s.phases|)
  }

  lemma InitialInv(limit: nat, n: nat)
    ensures Inv(limit, Initial(n))
  {
    WeighUniform(Initial(n).phases, Unspawned, HasSlot);
    assert Initial(n).received == [];
  }

  lemma StepInv(limit: nat, s: State, step: Step)
    requires Inv(limit, s) && Enabled(limit, s, step)
    ensures Inv(limit, Apply(limit, s, step))
    ensures |Apply(limit, s, step).phases| == |s.phases|
  {
    hide Weigh;
    match step
    case Spawn => WeighMove(s.phases, s.spawned, Waiting, HasSlot);
    case Acquire(i) => WeighMove(s.phases, i, Requesting, HasSlot);
    case Respond(i) => WeighMove(s.phases, i, Offering, HasSlot);
    case Deliver(i) => WeighMove(s.phases, i, Delivered, HasSlot);
    case Release(i) => WeighMove(s.phases, i, Done, HasSlot);
    case Close =>
  }

  lemma {:induction false} RunInv(limit: nat, s: State, steps: seq<Step>)
    requires Inv(limit, s) && Runs(limit, s, steps)
    ensures Inv(limit, After(limit, s, steps))
    ensures |After(limit, s, steps).phases| == |s.phases|
    decreases |steps|
  {
    if steps != [] {
      StepInv(limit, s, steps[0]);
      RunInv(limit, Apply(limit, s, steps[0]), steps[1..]);
    }
  }

  /* ---- what holds in every reachable state ---- */

  /** No more workers than the limit are between the semaphore's two ends, in particular none beyond
      it has a request in flight; no result is delivered twice; and once the channels are closed no
      worker can still send on either of them. */
  lemma Safety(limit: nat, n: nat, steps: seq<Step>)
    requires Runs(limit, Initial(n), steps)
    ensures
      var s := After(limit, Initial(n), steps);
      && Weigh(s.phases, HasSlot) <= limit
      && Distinct(s.received) && (forall i :: i in s.received ==> i < n)
      && (s.closed ==> forall i :: 0 <= i < |s.phases| ==> s.phases[i] in {Delivered, Done})
  {
    InitialInv(limit, n);
    RunInv(limit, Initial(n), steps);
    var s := After(limit, Initial(n), steps);
    if s.closed {
      DistinctCovers(s.received, n);
    }
  }

  lemma DistinctCovers(xs: seq<nat>, n: nat)
    requires Distinct(xs) && |xs| == n && forall x :: x in xs ==> x < n
    ensures forall i: nat :: i < n ==> i in xs
  {
    forall i: nat | i < n
      ensures i in xs
    {
      if i !in xs {
        Pigeonhole(xs, n, i);
      }
    }
  }

  /** n distinct numbers below n cannot avoid one of them. */
  lemma Pigeonhole(xs: seq<nat>, n: nat, missing: nat)
    requires Distinct(xs) && missing < n && missing !in xs && forall x :: x in xs ==> x < n
    ensures |xs| < n
  {
    SubsetSize(Elements(xs) + {missing}, Below(n));
  }

  /** The numbers below n. */
  ghost function Below(n: nat): (s: set<nat>)
    ensures |s| == n && forall k: nat :: k in s <==> k < n
  {
    if n == 0 then {} else Below(n - 1) + {n - 1}
  }

  ghost function Elements(xs: seq<nat>): (s: set<nat>)
    ensures forall k: nat :: k in s <==> k in xs
    ensures Distinct(xs) ==> |s| == |xs|
  {
    if xs == [] then {}
    else
      var init, last := xs[..|xs| - 1], xs[|xs| - 1];
      assert xs == init + [last];
      Elements(init) + {last}
  }

  /* ---- the slots can be used ---- */

  /** The first k workers have their requests in flight, the others are not started. */
  function InFlight(n: nat, k: nat): State
    requires k <= n
  {
    State(seq(n, i requires 0 <= i < n => if i < k then Requesting else Unspawned), k, k, [], false)
  }

  lemma {:induction false} Launch(limit: nat, n: nat, j: nat, k: nat) returns (steps: seq<Step>)
    requires j <= k <= n && k <= limit
    ensures Runs(limit, InFlight(n, j), steps) && After(limit, InFlight(n, j), steps) == InFlight(n, k)
    decreases k - j
  {
    if j == k {
      steps := [];
    } else {
      var rest := Launch(limit, n, j + 1, k);
      steps := [Spawn, Acquire(j)] + rest;
      var s := Apply(limit, InFlight(n, j), Spawn);
      assert Apply(limit, s, Acquire(j)) == InFlight(n, j + 1);
      assert steps[1..] == [Acquire(j)] + rest && steps[1..][1..] == rest;
    }
  }

  /** The limit is not only kept but can be reached: some run has as many requests in flight as the limit
      and the work allow. */
  lemma LimitCanBeReached(limit: nat, n: nat) returns (steps: seq<Step>)
    ensures Runs(limit, Initial(n), steps)
    ensures After(limit, Initial(n), steps).slots == if limit <= n then limit else n
  {
    hide Runs, After;
    steps := Launch(limit, n, 0, if limit <= n then limit else n);
    assert InFlight(n, 0) == Initial(n);
  }

  /* ---- progress ---- */

  /** Until every result is in and the channels are closed, some step is enabled. */
  lemma Progress(limit: nat, s: State) returns (step: Step)
    requires Inv(limit, s) && limit >= 1 && !s.closed
    ensures Enabled(limit, s, step)
  {
    if s.spawned < |s.phases| {
      step := Spawn;
    } else if i :| 0 <= i < |s.phases| && s.phases[i] == Requesting {
      step := Respond(i);
    } else if i :| 0 <= i < |s.phases| && s.phases[i] == Delivered {
      step := Release(i);
    } else if i :| 0 <= i < |s.phases| && s.phases[i] == Offering {
      Pigeonhole(s.received, |s.phases|, i);
      step := Deliver(i);
    } else if i :| 0 <= i < |s.phases| && s.phases[i] == Waiting {
      if s.slots > 0 {
        var j := WeighWitness(s.phases, HasSlot);
      }
      step := Acquire(i);
    } else {
      assert forall i :: 0 <= i < |s.phases| ==> s.phases[i] == Done;
      AllReceived(s.received, |s.phases|);
      step := Close;
    }
  }

  lemma AllReceived(xs: seq<nat>, n: nat)
    requires Distinct(xs) && forall i: nat :: i in xs <==> i < n
    ensures |xs| == n
  {
    assert Elements(xs) == Below(n);
  }

  function Measure(s: State): nat {
    Weigh(s.phases, StepsLeft) + (if s.closed then 0 else 1)
  }

  /** Every run ends: it has at most five steps a worker and one for closing the channels. */
  lemma {:induction false} RunsAreBounded(limit: nat, s: State, steps: seq<Step>)
    requires Inv(limit, s) && Runs(limit, s, steps)
    ensures |steps| + Measure(After(limit, s, steps)) == Measure(s)
    decreases |steps|
  {
    hide Weigh, Inv;
    if steps != [] {
      var step := steps[0];
      StepInv(limit, s, step);
      StepMeasure(limit, s, step);
      RunsAreBounded(limit, Apply(limit, s, step), steps[1..]);
    }
  }

  lemma StepMeasure(limit: nat, s: State, step: Step)
    requires Inv(limit, s) && Enabled(limit, s, step)
    ensures Measure(Apply(limit, s, step)) + 1 == Measure(s)
  {
    hide Weigh;
    match step
    case Spawn => WeighMove(s.phases, s.spawned, Waiting, StepsLeft);
    case Acquire(i) => WeighMove(s.phases, i, Requesting, StepsLeft);
    case Respond(i) => WeighMove(s.phases, i, Offering, StepsLeft);
    case Deliver(i) => WeighMove(s.phases, i, Delivered, StepsLeft);
    case Release(i) => WeighMove(s.phases, i, Done, StepsLeft);
    case Close =>
  }

  ghost predicate Stuck(limit: nat, s: State) {
    forall step :: !Enabled(limit, s, step)
  }

  lemma NothingToWaitFor(limit: nat, s: State)
    requires Inv(limit, s) && s.phases == [] && !s.closed
    ensures Enabled(limit, s, Close)
  {
    assert Elements(s.received) == {};
  }

  /** A run that cannot be continued took exactly 5n + 1 steps, closed the channels and delivered
      every index exactly once, if and only if the limit is positive (or there is no work). */
  lemma Completion(limit: nat, n: nat, steps: seq<Step>)
    requires Runs(limit, Initial(n), steps) && Stuck(limit, After(limit, Initial(n), steps))
    ensures
      var s := After(limit, Initial(n), steps);
      (s.closed && |steps| == 5 * n + 1 && Distinct(s.received) && |s.received| == n
       && forall i: nat :: i in s.received <==> i < n)
        <==> limit >= 1 || n == 0
  {
    hide Runs, After;
    var s := After(limit, Initial(n), steps);
    InitialInv(limit, n);
    RunInv(limit, Initial(n), steps);
    if limit >= 1 || n == 0 {
      if !s.closed {
        if limit >= 1 {
          var step := Progress(limit, s);
        } else {
          NothingToWaitFor(limit, s);
        }
      }
      DistinctCovers(s.received, n);
      RunsAreBounded(limit, Initial(n), steps);
      WeighUniform(Initial(n).phases, Unspawned, StepsLeft);
      forall i | 0 <= i < |s.phases|
        ensures s.phases[i] == Done
      {
        assert !Enabled(limit, s, Release(i));
      }
      WeighUniform(s.phases, Done, StepsLeft);
    } else {
      NothingWithoutSlots(n, steps);
    }
  }

  /** With a limit of zero no worker gets past the semaphore. */
  lemma NothingWithoutSlots(n: nat, steps: seq<Step>)
    requires Runs(0, Initial(n), steps)
    ensures After(0, Initial(n), steps).received == [] || n == 0
  {
    InitialInv(0, n);
    assert NoneStarted(Initial(n));
    NoneEverStart(Initial(n), steps);
    var s := After(0, Initial(n), steps);
    RunInv(0, Initial(n), steps);
    if s.received != [] {
      assert s.received[0] in s.received;
    }
  }

  predicate NoneStarted(s: State) {
    forall i :: 0 <= i < |s.phases| ==> s.phases[i] in {Unspawned, Waiting}
  }

  lemma {:induction false} NoneEverStart(s: State, steps: seq<Step>)
    requires NoneStarted(s) && Runs(0, s, steps)
    ensures NoneStarted(After(0, s, steps))
    decreases |steps|
  {
    if steps != [] {
      NoneEverStart(Apply(0, s, steps[0]), steps[1..]);
    }
  }

  /* ---- the sorted results ---- */

  datatype Indexed<T> = Indexed(index: nat, reply: T)

  /** What the collector has after its loop: each received index with that request's reply. */
  function Collected<T>(received: seq<nat>, reply: nat -> T): seq<Indexed<T>> {
    seq(|received|, k requires 0 <= k < |received| => Indexed(received[k], reply(received[k])))
  }

  /** The results in request order. */
  function InOrder<T>(n: nat, reply: nat -> T): seq<Indexed<T>> {
    seq(n, k requires 0 <= k < n => Indexed(k, reply(k)))
  }

  /** What `sort.Slice` by index promises. */
  ghost predicate IsSortOf<T>(sorted: seq<Indexed<T>>, results: seq<Indexed<T>>) {
    && multiset(sorted) == multiset(results)
    && forall i, j :: 0 <= i < j < |sorted| ==> sorted[i].index <= sorted[j].index
  }

  /** However the schedule interleaved the workers, sorting yields every reply at its own index. */
  lemma SortedIsInOrder<T>(limit: nat, n: nat, steps: seq<Step>, reply: nat -> T, sorted: seq<Indexed<T>>)
    requires Runs(limit, Initial(n), steps) && |After(limit, Initial(n), steps).received| == n
    requires IsSortOf(sorted, Collected(After(limit, Initial(n), steps).received, reply))
    ensures sorted == InOrder(n, reply)
  {
    hide Runs, After;
    var received := After(limit, Initial(n), steps).received;
    Safety(limit, n, steps);
    var results := Collected(received, reply);
    SortLength(sorted, results);
    SortKeepsEntries(sorted, results, received, reply);
    var indices := seq(n, k requires 0 <= k < n => sorted[k].index);
    IncreasingFromZero(indices, n);
    forall k | 0 <= k < n
      ensures sorted[k] == Indexed(k, reply(k))
    {
      assert indices[k] == k;
    }
  }

  lemma SortLength<T>(sorted: seq<Indexed<T>>, results: seq<Indexed<T>>)
    requires IsSortOf(sorted, results)
    ensures |sorted| == |results|
  {
    assert |multiset(sorted)| == |multiset(results)|;
  }

  lemma SortKeepsEntries<T>(sorted: seq<Indexed<T>>, results: seq<Indexed<T>>, received: seq<nat>, reply: nat -> T)
    requires IsSortOf(sorted, results) && results == Collected(received, reply) && Distinct(received)
    requires |sorted| == |received|
    ensures forall k :: 0 <= k < |sorted| ==> sorted[k].index in received && sorted[k].reply == reply(sorted[k].index)
    ensures forall i, j :: 0 <= i < j < |sorted| ==> sorted[i].index < sorted[j].index
  {
    forall k | 0 <= k < |sorted|
      ensures sorted[k].index in received && sorted[k].reply == reply(sorted[k].index)
    {
      assert sorted[k] in multiset(sorted);
      assert sorted[k] in multiset(results);
      assert sorted[k] in results;
    }
    forall i, j | 0 <= i < j < |sorted|
      ensures sorted[i].index < sorted[j].index
    {
      if sorted[i].index == sorted[j].index {
        assert sorted[i] == sorted[j];
        assert sorted == sorted[..i] + [sorted[i]] + sorted[i + 1..j] + [sorted[j]] + sorted[j + 1..];
        assert multiset(sorted)[sorted[i]] >= 2;
        AtMostOnce(results, received, reply, sorted[i]);
      }
    }
  }

  lemma {:induction false} AtMostOnce<T>(results: seq<Indexed<T>>, received: seq<nat>, reply: nat -> T, x: Indexed<T>)
    requires results == Collected(received, reply) && Distinct(received)
    ensures multiset(results)[x] <= 1
    ensures x.index !in received ==> multiset(results)[x] == 0
  {
    if received != [] {
      var n := |received| - 1;
      assert results == results[..n] + [results[n]];
      AtMostOnce(results[..n], received[..n], reply, x);
    }
  }

  lemma IncreasingFromZero(xs: seq<nat>, n: nat)
    requires |xs| == n && (forall x :: x in xs ==> x < n)
    requires forall i, j :: 0 <= i < j < n ==> xs[i] < xs[j]
    ensures forall k :: 0 <= k < n ==> xs[k] == k
  {
    forall k | 0 <= k < n
      ensures xs[k] >= k && xs[k] <= k
    {
      AtLeastPosition(xs, k);
      AtMostPosition(xs, n, k);
    }
  }

  lemma {:induction false} AtLeastPosition(xs: seq<nat>, k: nat)
    requires k < |xs| && forall i, j :: 0 <= i < j < |xs| ==> xs[i] < xs[j]
    ensures xs[k] >= k
  {
    if k > 0 {
      AtLeastPosition(xs, k - 1);
      assert xs[k - 1] < xs[k];
    }
  }

  lemma {:induction false} AtMostPosition(xs: seq<nat>, n: nat, k: nat)
    requires k < |xs| == n && (forall x :: x in xs ==> x < n) && forall i, j :: 0 <= i < j < |xs| ==> xs[i] < xs[j]
    ensures xs[k] <= k
    decreases n - k
  {
    if k < n - 1 {
      AtMostPosition(xs, n, k + 1);
      assert xs[k] < xs[k + 1];
    } else {
      assert xs[k] in xs;
    }
  }
}
