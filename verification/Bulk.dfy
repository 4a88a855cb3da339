/** Collecting the facts of the whole fleet in batches (`getHostsFactsBulk`): the batches finish in any
    order, and each commits its outcome under a mutex. */
module Bulk {
  import opened Wrappers
  import opened Batches
  import opened FactPages
  import opened FanOut

  /* ---- the client-side filter ---- */

  /** The optional include and exclude expressions, as the names they match. */
  datatype FactFilter = FactFilter(includes: Option<string -> bool>, excludes: Option<string -> bool>)

  predicate Kept(flt: FactFilter, name: string) {
    && (flt.includes.None? || flt.includes.value(name))
    && (flt.excludes.None? || !flt.excludes.value(name))
  }

  function FilterFacts(flt: FactFilter, data: Facts): Facts {
    map k | k in data && Kept(flt, k) && data[k] != "" :: data[k]
  }

  method ApplyFilter(flt: FactFilter, data: Facts) returns (facts: Facts)
    ensures facts == FilterFacts(flt, data)
  {
    facts := map[];
    var todo := data.Keys;
    while todo != {}
      invariant todo <= data.Keys
      invariant facts == map k | k in data && k !in todo && Kept(flt, k) && data[k] != "" :: data[k]
      decreases todo
    {
      var k :| k in todo;
      todo := todo - {k};
      if flt.includes.Some? && !flt.includes.value(k) {
        continue;
      }
      if flt.excludes.Some? && flt.excludes.value(k) {
        continue;
      }
      if data[k] != "" {
        facts := facts[k := data[k]];
      }
    }
  }

  /** What becomes a label: a non-empty fact that the include expression, if there is one, matches and the
      exclude expression, if there is one, does not. */
  lemma FilterKeeps(flt: FactFilter, data: Facts, k: string)
    ensures k in FilterFacts(flt, data) <==>
      && k in data && data[k] != ""
      && (flt.includes.Some? ==> flt.includes.value(k))
      && !(flt.excludes.Some? && flt.excludes.value(k))
    ensures k in FilterFacts(flt, data) ==> FilterFacts(flt, data)[k] == data[k]
    ensures Kept(flt, k) <==> (flt.includes == None || flt.includes.value(k)) && (flt.excludes == None || !flt.excludes.value(k))
  {
  }

  /* ---- one commit ---- */

  datatype Tally = Tally(
    hostsFacts: HostFacts, failed: nat, truncated: nat, lostHosts: nat, noFacts: nat, firstErr: Option<string>)

  const EMPTY: Tally := Tally(map[], 0, 0, 0, 0, None)

  function Filtered(flt: FactFilter, facts: HostFacts): HostFacts {
    map name | name in facts :: FilterFacts(flt, facts[name])
  }

  function Commit(t: Tally, hosts: nat, res: BatchResult, flt: FactFilter): Tally {
    if res.err.Some? then
      t.(failed := t.failed + 1, lostHosts := t.lostHosts + hosts,
         firstErr := if t.firstErr.None? then res.err else t.firstErr)
    else if res.truncated then
      t.(truncated := t.truncated + 1, lostHosts := t.lostHosts + hosts)
    else
      t.(noFacts := t.noFacts + |res.missing|, hostsFacts := t.hostsFacts + Filtered(flt, res.facts))
  }

  /** The variables that the batch workers share under the mutex. */
  class SharedTally {
    var hostsFacts: HostFacts
    var failed: nat
    var truncated: nat
    var lostHosts: nat
    var noFacts: nat
    var firstErr: Option<string>

    constructor ()
      ensures Value() == EMPTY
    {
      hostsFacts, failed, truncated, lostHosts, noFacts, firstErr := map[], 0, 0, 0, 0, None;
    }

    function Value(): Tally
      reads this
    {
      Tally(hostsFacts, failed, truncated, lostHosts, noFacts, firstErr)
    }

    /** The critical section of a worker whose batch came back. */
    method CommitBatch(batch: seq<Host>, res: BatchResult, flt: FactFilter)
      modifies this
      ensures Value() == Commit(old(Value()), |batch|, res, flt)
    {
      if res.err.Some? {
        failed := failed + 1;
        lostHosts := lostHosts + |batch|;
        if firstErr.None? {
          firstErr := res.err;
        }
        return;
      }
      if res.truncated {
        truncated := truncated + 1;
        lostHosts := lostHosts + |batch|;
        return;
      }
      noFacts := noFacts + |res.missing|;
      hostsFacts := FilterInto(hostsFacts, res.facts, flt);
    }
  }

  /** The loop over the hosts of a response. */
  method FilterInto(into: HostFacts, facts: HostFacts, flt: FactFilter) returns (merged: HostFacts)
    ensures merged == into + Filtered(flt, facts)
  {
    hide FilterFacts, FilteredBut;
    merged := into;
    var todo := facts.Keys;
    NothingAndAll(into, facts, flt);
    while todo != {}
      invariant todo <= facts.Keys
      invariant merged == into + FilteredBut(flt, facts, todo)
      decreases todo
    {
      var name :| name in todo;
      var own := ApplyFilter(flt, facts[name]);
      FilterOneMore(into, facts, flt, todo, name);
      merged := merged[name := own];
      todo := todo - {name};
    }
  }

  /** The filtered facts of all hosts but those still to be done. */
  ghost function FilteredBut(flt: FactFilter, facts: HostFacts, todo: set<string>): HostFacts {
    map name | name in facts && name !in todo :: FilterFacts(flt, facts[name])
  }

  lemma NothingAndAll(into: HostFacts, facts: HostFacts, flt: FactFilter)
    ensures into + FilteredBut(flt, facts, facts.Keys) == into
    ensures FilteredBut(flt, facts, {}) == Filtered(flt, facts)
  {
    hide FilterFacts;
  }

  lemma FilterOneMore(into: HostFacts, facts: HostFacts, flt: FactFilter, todo: set<string>, name: string)
    requires name in todo && name in facts
    ensures (into + FilteredBut(flt, facts, todo))[name := FilterFacts(flt, facts[name])]
         == into + FilteredBut(flt, facts, todo - {name})
  {
    hide FilterFacts;
  }

  /* ---- all commits, in some order ---- */

  datatype Work = Work(batches: seq<seq<Host>>, results: seq<BatchResult>) {
    ghost predicate Valid() { |batches| == |results| }

    predicate Good(i: nat)
      requires i < |results|
    {
      results[i].err.None? && !results[i].truncated
    }
  }

  ghost predicate AllBelow(order: seq<nat>, n: nat) {
    forall k :: 0 <= k < |order| ==> order[k] < n
  }

  ghost predicate Within(order: seq<nat>, n: nat) {
    Distinct(order) && AllBelow(order, n)
  }

  /** An order in which all n batches finish. */
  ghost predicate Schedule(order: seq<nat>, n: nat) {
    Within(order, n) && |order| == n
  }

  ghost function CommitAll(w: Work, flt: FactFilter, order: seq<nat>): Tally
    requires w.Valid() && AllBelow(order, |w.batches|)
  {
    if order == [] then EMPTY
    else
      var last := order[|order| - 1];
      Commit(CommitAll(w, flt, order[..|order| - 1]), |w.batches[last]|, w.results[last], flt)
  }

  /** The three messages and the numbers in them. */
  datatype BulkError =
    | FailedAndTruncated(failed: nat, batches: nat, lostHosts: nat, firstErr: Option<string>, truncated: nat)
    | SomeFailed(failed: nat, batches: nat, lostHosts: nat, firstErr: Option<string>)
    | SomeTruncated(truncated: nat, batches: nat, lostHosts: nat)

  function ErrorOf(t: Tally, batches: nat): Option<BulkError> {
    if t.failed > 0 && t.truncated > 0 then
      Some(FailedAndTruncated(t.failed, batches, t.lostHosts, t.firstErr, t.truncated))
    else if t.failed > 0 then Some(SomeFailed(t.failed, batches, t.lostHosts, t.firstErr))
    else if t.truncated > 0 then Some(SomeTruncated(t.truncated, batches, t.lostHosts))
    else None
  }

  datatype BulkConfig = BulkConfig(search: SearchConfig, factPerPage: int, factMaxPages: int, flt: FactFilter)

  /** A request for a page of the facts of some hosts. */
  type FactFetch = (seq<int>, nat) -> Reply

  /** The pages of one batch. */
  function PagesOf(fetch: FactFetch, batch: seq<Host>): nat -> Reply {
    (page: nat) => fetch(IdsOf(batch), page)
  }

  function Outcome(c: BulkConfig, fetch: FactFetch, batch: seq<Host>): BatchResult {
    BatchOutcome(PagesOf(fetch, batch), batch, c.factPerPage, c.factMaxPages)
  }

  function WorkFor(c: BulkConfig, fetch: FactFetch, hosts: seq<Host>): (w: Work)
    ensures |w.batches| == |w.results|
  {
    var batches := Split(c.search, hosts);
    Work(batches, seq(|batches|, i requires 0 <= i < |batches| => Outcome(c, fetch, batches[i])))
  }

  /** Collects in bulk; `order` is the order in which the workers reach the mutex. */
  method GetHostsFactsBulk(c: BulkConfig, fetch: FactFetch, hosts: seq<Host>, order: seq<nat>)
    returns (facts: HostFacts, err: Option<BulkError>)
    requires Schedule(order, |Split(c.search, hosts)|)
    ensures
      var w := WorkFor(c, fetch, hosts);
      && facts == CommitAll(w, c.flt, order).hostsFacts
      && err == ErrorOf(CommitAll(w, c.flt, order), |w.batches|)
  {
    hide Split, FactPages.BatchOutcome, Commit;
    var batches := SplitHosts(c.search, hosts);
    ghost var w := WorkFor(c, fetch, hosts);
    var shared := new SharedTally();
    for k := 0 to |order|
      invariant shared.Value() == CommitAll(w, c.flt, order[..k])
    {
      assert order[..k + 1][..k] == order[..k];
      var batch := batches[order[k]];
      var res := GetFactValuesBatch(PagesOf(fetch, batch), batch, c.factPerPage, c.factMaxPages);
      shared.CommitBatch(batch, res, c.flt);
    }
    assert order[..|order|] == order;
    facts := shared.hostsFacts;
    if shared.failed > 0 && shared.truncated > 0 {
      err := Some(FailedAndTruncated(shared.failed, |batches|, shared.lostHosts, shared.firstErr, shared.truncated));
    } else if shared.failed > 0 {
      err := Some(SomeFailed(shared.failed, |batches|, shared.lostHosts, shared.firstErr));
    } else if shared.truncated > 0 {
      err := Some(SomeTruncated(shared.truncated, |batches|, shared.lostHosts));
    } else {
      err := None;
    }
  }
}
