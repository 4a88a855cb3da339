/** What the bulk collection reports and exports, told by the replies alone: whatever the server does and in
    whatever order the batches finish. */
module BulkErrors {
  import opened Wrappers
  import opened Batches
  import opened FactPages
  import opened BatchEnds
  import opened FanOut
  import opened Bulk
  import opened BulkSchedules

  /** A page of the batch is reached and fails. */
  ghost predicate Fails(c: BulkConfig, fetch: FactFetch, batch: seq<Host>, p: nat) {
    FailsAt(PagesOf(fetch, batch), Configured(c.factPerPage, 10000), Configured(c.factMaxPages, 10), p)
  }

  /** The error that the request for page p of the batch comes back with. */
  function ErrorOn(fetch: FactFetch, batch: seq<Host>, p: nat): Option<string> {
    match fetch(IdsOf(batch), p)
    case Failed(error) => Some(error)
    case Page(_, _) => None
  }

  ghost predicate FailedBatch(c: BulkConfig, fetch: FactFetch, batch: seq<Host>) {
    exists p: nat :: Fails(c, fetch, batch, p)
  }

  /** Every page that may be fetched is full. */
  ghost predicate TruncatedBatch(c: BulkConfig, fetch: FactFetch, batch: seq<Host>) {
    RunsOut(PagesOf(fetch, batch), Configured(c.factPerPage, 10000), Configured(c.factMaxPages, 10))
  }

  /** A page that is not full is reached: the batch came back whole, in p pages. */
  ghost predicate WholeIn(c: BulkConfig, fetch: FactFetch, batch: seq<Host>, p: nat) {
    EndsAt(PagesOf(fetch, batch), Configured(c.factPerPage, 10000), Configured(c.factMaxPages, 10), p)
  }

  ghost predicate WholeBatch(c: BulkConfig, fetch: FactFetch, batch: seq<Host>) {
    exists p: nat :: WholeIn(c, fetch, batch, p)
  }

  lemma OutcomeOf(c: BulkConfig, fetch: FactFetch, batch: seq<Host>)
    ensures
      var r := Outcome(c, fetch, batch);
      && (r.err.Some? <==> FailedBatch(c, fetch, batch))
      && (forall p: nat :: Fails(c, fetch, batch, p) ==> r.err == ErrorOn(fetch, batch, p))
      && (r.truncated <==> TruncatedBatch(c, fetch, batch))
      && (r.truncated ==> r.err.None?)
      && (r.err.None? && !r.truncated <==> WholeBatch(c, fetch, batch))
      && (forall p: nat :: WholeIn(c, fetch, batch, p) ==> r.pages == p)
  {
    hide BatchOutcome, FullBefore, EndsAt, RunsOut;
    BatchEnding(PagesOf(fetch, batch), batch, c.factPerPage, c.factMaxPages);
    var pages := PagesOf(fetch, batch);
    var perPage, maxPages := Configured(c.factPerPage, 10000), Configured(c.factMaxPages, 10);
    assert forall p: nat :: Fails(c, fetch, batch, p) <==> FailsAt(pages, perPage, maxPages, p);
    assert forall p: nat :: WholeIn(c, fetch, batch, p) <==> EndsAt(pages, perPage, maxPages, p);
    assert forall p: nat :: pages(p) == fetch(IdsOf(batch), p);
  }

  /* ---- how many batches, how many hosts ---- */

  ghost function FailedBatches(c: BulkConfig, fetch: FactFetch, batches: seq<seq<Host>>): set<nat> {
    set i: nat | i < |batches| && FailedBatch(c, fetch, batches[i])
  }

  ghost function TruncatedBatches(c: BulkConfig, fetch: FactFetch, batches: seq<seq<Host>>): set<nat> {
    set i: nat | i < |batches| && TruncatedBatch(c, fetch, batches[i])
  }

  /** The hosts of the batches that did not come back whole. */
  ghost function HostsLost(c: BulkConfig, fetch: FactFetch, batches: seq<seq<Host>>): nat {
    if batches == [] then 0
    else
      var last := batches[|batches| - 1];
      HostsLost(c, fetch, batches[..|batches| - 1]) + if WholeBatch(c, fetch, last) then 0 else |last|
  }

  lemma {:induction false} SumIsCount(n: nat, done: set<nat>, f: nat -> nat, s: set<nat>)
    requires forall i: nat :: i < n && i in done ==> f(i) == if i in s then 1 else 0
    requires forall i: nat :: i < n ==> i in done
    ensures SumOver(n, done, f) == |set i: nat | i < n && i in s|
  {
    var below := set i: nat | i < n && i in s;
    if n == 0 {
      assert below == {};
    } else {
      SumIsCount(n - 1, done, f, s);
      var rest := set i: nat | i < n - 1 && i in s;
      assert below == if n - 1 in s then rest + {n - 1} else rest;
    }
  }

  lemma {:induction false} SumIsLost(c: BulkConfig, fetch: FactFetch, w: Work, k: nat)
    requires Told(c, fetch, w) && k <= |w.batches|
    ensures SumOver(k, Below(|w.batches|), Losses(w)) == HostsLost(c, fetch, w.batches[..k])
  {
    hide WholeBatch, FailedBatch, TruncatedBatch;
    if k > 0 {
      SumIsLost(c, fetch, w, k - 1);
      assert w.batches[..k][..k - 1] == w.batches[..k - 1];
    }
  }

  lemma CountersOf(c: BulkConfig, fetch: FactFetch, hosts: seq<Host>, order: seq<nat>)
    requires Schedule(order, |Split(c.search, hosts)|)
    ensures
      var batches, t := Split(c.search, hosts), CommitAll(WorkFor(c, fetch, hosts), c.flt, order);
      && t.failed == |FailedBatches(c, fetch, batches)|
      && t.truncated == |TruncatedBatches(c, fetch, batches)|
      && t.lostHosts == HostsLost(c, fetch, batches)
      && (t.firstErr.None? <==> t.failed == 0)
  {
    hide CommitAll, WorkFor, SumOver, HostsLost, FailedBatches, TruncatedBatches, Split, Failures, Truncations, Losses;
    var w := WorkFor(c, fetch, hosts);
    ResultsOf(c, fetch, hosts);
    ScheduleCovers(order, |w.batches|);
    CountersAreSums(w, c.flt, order);
    SumsAreCounts(c, fetch, w);
    SumIsLost(c, fetch, w, |w.batches|);
    assert w.batches[..|w.batches|] == w.batches;
  }

  /** The results of the batches are what the replies to them say. */
  ghost predicate Told(c: BulkConfig, fetch: FactFetch, w: Work) {
    && w.Valid()
    && forall i: nat :: i < |w.results| ==>
         && (w.results[i].err.Some? <==> FailedBatch(c, fetch, w.batches[i]))
         && (w.results[i].err.None? && w.results[i].truncated <==> TruncatedBatch(c, fetch, w.batches[i]))
         && (w.Good(i) <==> WholeBatch(c, fetch, w.batches[i]))
  }

  lemma ResultsOf(c: BulkConfig, fetch: FactFetch, hosts: seq<Host>)
    ensures var w := WorkFor(c, fetch, hosts); Told(c, fetch, w) && w.batches == Split(c.search, hosts)
  {
    hide Split, Outcome, FailedBatch, TruncatedBatch, WholeBatch;
    var w := WorkFor(c, fetch, hosts);
    forall i: nat | i < |w.results|
      ensures w.results[i] == Outcome(c, fetch, w.batches[i])
      ensures w.results[i].err.Some? <==> FailedBatch(c, fetch, w.batches[i])
      ensures w.results[i].err.None? && w.results[i].truncated <==> TruncatedBatch(c, fetch, w.batches[i])
      ensures w.Good(i) <==> WholeBatch(c, fetch, w.batches[i])
    {
      OutcomeOf(c, fetch, w.batches[i]);
    }
  }

  lemma SumsAreCounts(c: BulkConfig, fetch: FactFetch, w: Work)
    requires Told(c, fetch, w)
    ensures var n := |w.batches|;
      && SumOver(n, Below(n), Failures(w)) == |FailedBatches(c, fetch, w.batches)|
      && SumOver(n, Below(n), Truncations(w)) == |TruncatedBatches(c, fetch, w.batches)|
  {
    hide FailedBatch, TruncatedBatch, WholeBatch, SumOver;
    var n := |w.batches|;
    var failed, truncated := FailedBatches(c, fetch, w.batches), TruncatedBatches(c, fetch, w.batches);
    SumIsCount(n, Below(n), Failures(w), failed);
    SumIsCount(n, Below(n), Truncations(w), truncated);
    assert failed == set i: nat | i < n && i in failed;
    assert truncated == set i: nat | i < n && i in truncated;
  }

  /* ---- the error ---- */

  /** Of the batches that failed, number k in the order was the first to finish. */
  ghost predicate FirstToFail(c: BulkConfig, fetch: FactFetch, batches: seq<seq<Host>>, order: seq<nat>, k: nat)
    requires AllBelow(order, |batches|)
  {
    && k < |order| && FailedBatch(c, fetch, batches[order[k]])
    && forall j :: 0 <= j < k ==> !FailedBatch(c, fetch, batches[order[j]])
  }

  lemma {:induction false} FirstErrIsFirst(c: BulkConfig, fetch: FactFetch, w: Work, order: seq<nat>, k: nat)
    requires Told(c, fetch, w) && AllBelow(order, |w.batches|) && FirstToFail(c, fetch, w.batches, order, k)
    ensures CommitAll(w, c.flt, order).firstErr == w.results[order[k]].err
  {
    hide FailedBatch, TruncatedBatch, WholeBatch, Filtered;
    var init := order[..|order| - 1];
    if k < |init| {
      FirstErrIsFirst(c, fetch, w, init, k);
    } else {
      NoErrYet(c, fetch, w, init);
    }
  }

  lemma {:induction false} NoErrYet(c: BulkConfig, fetch: FactFetch, w: Work, order: seq<nat>)
    requires w.Valid() && AllBelow(order, |w.batches|)
    requires forall j :: 0 <= j < |order| ==> w.results[order[j]].err.None?
    ensures CommitAll(w, c.flt, order).firstErr == None
  {
    hide Filtered;
    if order != [] {
      NoErrYet(c, fetch, w, order[..|order| - 1]);
    }
  }

  /** What the error says, whatever the replies: how many batches had a page that failed, how many ran out of
      pages, of how many batches, how many hosts those had; nothing if and only if there were none of either
      kind; and as the first error the one of the failing page of the batch that was the first to fail. */
  lemma ErrorSays(c: BulkConfig, fetch: FactFetch, hosts: seq<Host>, order: seq<nat>)
    requires Schedule(order, |Split(c.search, hosts)|)
    ensures
      var batches := Split(c.search, hosts);
      var t := CommitAll(WorkFor(c, fetch, hosts), c.flt, order);
      var err, lost := ErrorOf(t, |batches|), HostsLost(c, fetch, batches);
      var failed, truncated := |FailedBatches(c, fetch, batches)|, |TruncatedBatches(c, fetch, batches)|;
      && (failed == 0 && truncated == 0 ==> err == None)
      && (t.firstErr.Some? <==> failed > 0)
      && (failed == 0 && truncated > 0 ==> err == Some(SomeTruncated(truncated, |batches|, lost)))
      && (failed > 0 && truncated == 0 ==> err == Some(SomeFailed(failed, |batches|, lost, t.firstErr)))
      && (failed > 0 && truncated > 0 ==> err == Some(FailedAndTruncated(failed, |batches|, lost, t.firstErr, truncated)))
      && (forall k: nat, p: nat :: FirstToFail(c, fetch, batches, order, k) && Fails(c, fetch, batches[order[k]], p) ==>
            t.firstErr == ErrorOn(fetch, batches[order[k]], p))
  {
    hide CommitAll, WorkFor, Outcome, FailedBatches, TruncatedBatches, HostsLost, Fails, FailedBatch, Split, ErrorOn;
    var w := WorkFor(c, fetch, hosts);
    ResultsOf(c, fetch, hosts);
    CountersOf(c, fetch, hosts, order);
    forall k: nat, p: nat | FirstToFail(c, fetch, w.batches, order, k) && Fails(c, fetch, w.batches[order[k]], p)
      ensures CommitAll(w, c.flt, order).firstErr == ErrorOn(fetch, w.batches[order[k]], p)
    {
      FirstErrIsFirst(c, fetch, w, order, k);
      ResultIsOutcome(c, fetch, hosts, order[k]);
      OutcomeOf(c, fetch, w.batches[order[k]]);
    }
  }

  lemma ResultIsOutcome(c: BulkConfig, fetch: FactFetch, hosts: seq<Host>, i: nat)
    requires i < |Split(c.search, hosts)|
    ensures WorkFor(c, fetch, hosts).results[i] == Outcome(c, fetch, Split(c.search, hosts)[i])
  {
    hide Split, Outcome;
  }

  /** Whatever the server replies and whatever the hosts are called: the hosts lost and the hosts of the
      batches that came back whole are all the hosts, and there is no error exactly when all batches did. */
  lemma LossesAndErrors(c: BulkConfig, fetch: FactFetch, hosts: seq<Host>, order: seq<nat>)
    requires Schedule(order, |Split(c.search, hosts)|)
    ensures
      var batches, w := Split(c.search, hosts), WorkFor(c, fetch, hosts);
      var t := CommitAll(w, c.flt, order);
      && t.lostHosts + HostsOfGoodBatches(w) == |hosts|
      && (forall i: nat :: i < |batches| ==> (w.Good(i) <==> WholeBatch(c, fetch, batches[i])))
      && (ErrorOf(t, |batches|) == None <==> forall i: nat :: i < |batches| ==> WholeBatch(c, fetch, batches[i]))
  {
    hide CommitAll, WorkFor, FailedBatch, TruncatedBatch, WholeBatch, SumOver, Concat, Losses, Gains, Failures, Truncations;
    var batches, w := Split(c.search, hosts), WorkFor(c, fetch, hosts);
    ResultsOf(c, fetch, hosts);
    ScheduleCovers(order, |w.batches|);
    CountersAreSums(w, c.flt, order);
    HostsAddUp(w);
    SplitIsGood(c.search, hosts);
    SumsAreCounts(c, fetch, w);
    NoneMeansWhole(c, fetch, w);
  }

  lemma NoneMeansWhole(c: BulkConfig, fetch: FactFetch, w: Work)
    requires Told(c, fetch, w)
    ensures |FailedBatches(c, fetch, w.batches)| == 0 && |TruncatedBatches(c, fetch, w.batches)| == 0
        <==> forall i: nat :: i < |w.batches| ==> WholeBatch(c, fetch, w.batches[i])
  {
    hide FailedBatch, TruncatedBatch, WholeBatch;
    var batches := w.batches;
    forall i: nat | i < |batches|
      ensures WholeBatch(c, fetch, batches[i]) <==>
              i !in FailedBatches(c, fetch, batches) && i !in TruncatedBatches(c, fetch, batches)
    {
      assert w.Good(i) <==> WholeBatch(c, fetch, batches[i]);
    }
    if |FailedBatches(c, fetch, batches)| == 0 && |TruncatedBatches(c, fetch, batches)| == 0 {
      assert FailedBatches(c, fetch, batches) == {} && TruncatedBatches(c, fetch, batches) == {};
    } else if FailedBatches(c, fetch, batches) != {} {
      var i :| i in FailedBatches(c, fetch, batches);
    } else {
      var i :| i in TruncatedBatches(c, fetch, batches);
    }
  }

  /* ---- what is exported ---- */

  /** The batch came back whole, and page q of it brought the host's fact last, with this value. */
  ghost predicate WholeAndBrought(c: BulkConfig, fetch: FactFetch, batch: seq<Host>, name: string, fact: string, value: string) {
    exists p: nat, q: nat :: WholeIn(c, fetch, batch, p) && BroughtLast(PagesOf(fetch, batch), p, q, name, fact, value)
  }

  /** The batch came back whole, and some page of it named the host. */
  ghost predicate WholeAndNamed(c: BulkConfig, fetch: FactFetch, batch: seq<Host>, name: string) {
    exists p: nat, q: nat :: WholeIn(c, fetch, batch, p) && NamedOn(PagesOf(fetch, batch), p, q, name)
  }

  predicate NamedOn(pages: Pages, p: nat, q: nat, name: string) {
    1 <= q <= p && pages(q).Page? && name in pages(q).results
  }

  /** All or nothing, reply by reply: a host of a batch is exported exactly when that batch came back whole
      and named it; nothing of a batch with a failed page or without an end is. Its labels are the facts
      that the pages brought, that the expressions keep and that are not empty. */
  lemma ExportsAreReplies(c: BulkConfig, fetch: FactFetch, hosts: seq<Host>, order: seq<nat>,
                          i: nat, name: string, fact: string, value: string)
    requires DistinctNames(hosts) && NamesItsHosts(c, fetch, hosts) && Schedule(order, |Split(c.search, hosts)|)
    requires i < |Split(c.search, hosts)| && Named(Split(c.search, hosts)[i], name)
    ensures
      var batch, facts := Split(c.search, hosts)[i], CommitAll(WorkFor(c, fetch, hosts), c.flt, order).hostsFacts;
      && (name in facts <==> WholeAndNamed(c, fetch, batch, name))
      && (name in facts && fact in facts[name] && facts[name][fact] == value <==>
            && WholeAndBrought(c, fetch, batch, name, fact, value) && value != ""
            && (c.flt.includes.Some? ==> c.flt.includes.value(fact))
            && !(c.flt.excludes.Some? && c.flt.excludes.value(fact)))
      && (FailedBatch(c, fetch, batch) || TruncatedBatch(c, fetch, batch) ==> name !in facts)
  {
    hide CommitAll, Split, BatchOutcome, NamesItsHosts, BroughtLast, FailedBatch, TruncatedBatch, WholeIn, FilterFacts;
    var w := WorkFor(c, fetch, hosts);
    var batch := w.batches[i];
    Accounting(c, fetch, hosts, order);
    OutcomeOf(c, fetch, batch);
    OutcomeHolds(c, fetch, batch, name, fact, value);
    if Brought(w, i, name) {
      FilterKeeps(c.flt, w.results[i].facts[name], fact);
    }
  }

  lemma OutcomeHolds(c: BulkConfig, fetch: FactFetch, batch: seq<Host>, name: string, fact: string, value: string)
    ensures
      var r := Outcome(c, fetch, batch);
      var good := r.err.None? && !r.truncated;
      && (good && name in r.facts <==> WholeAndNamed(c, fetch, batch, name))
      && (good && name in r.facts && fact in r.facts[name] && r.facts[name][fact] == value
          <==> WholeAndBrought(c, fetch, batch, name, fact, value))
  {
    hide BatchOutcome, BroughtLast, FailedBatch, TruncatedBatch, WholeIn;
    var r, pages := Outcome(c, fetch, batch), PagesOf(fetch, batch);
    OutcomeOf(c, fetch, batch);
    BatchHolds(pages, batch, c.factPerPage, c.factMaxPages, name, fact, value);
    if r.err.None? && !r.truncated {
      var p: nat :| WholeIn(c, fetch, batch, p);
      if name in r.facts {
        var q: nat :| 1 <= q <= r.pages && pages(q).Page? && name in pages(q).results;
        assert NamedOn(pages, p, q, name);
      }
    }
  }
}
