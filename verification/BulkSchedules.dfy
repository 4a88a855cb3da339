/** What the bulk collection guarantees for every order in which its batches finish, against any server:
    which hosts are exported, which are lost, and when the order does not matter. */
module BulkSchedules {
  import opened Wrappers
  import opened Batches
  import opened FactPages
  import opened FanOut
  import opened Bulk

  /* ---- sums over the batches that have committed ---- */

  ghost function SumOver(n: nat, s: set<nat>, f: nat -> nat): nat {
    if n == 0 then 0 else SumOver(n - 1, s, f) + (if n - 1 in s then f(n - 1) else 0)
  }

  lemma {:induction false} SumInsert(n: nat, s: set<nat>, x: nat, f: nat -> nat)
    requires x !in s
    ensures SumOver(n, s + {x}, f) == SumOver(n, s, f) + (if x < n then f(x) else 0)
  {
    if n > 0 {
      SumInsert(n - 1, s, x, f);
    }
  }

  lemma {:induction false} SumAdds(n: nat, s: set<nat>, f: nat -> nat, g: nat -> nat, h: nat -> nat)
    requires forall i: nat :: i < n ==> f(i) + g(i) == h(i)
    ensures SumOver(n, s, f) + SumOver(n, s, g) == SumOver(n, s, h)
  {
    if n > 0 {
      SumAdds(n - 1, s, f, g, h);
    }
  }

  lemma {:induction false} SumZero(n: nat, s: set<nat>, f: nat -> nat)
    ensures SumOver(n, s, f) == 0 <==> forall i: nat :: i < n && i in s ==> f(i) == 0
  {
    if n > 0 {
      SumZero(n - 1, s, f);
    }
  }

  lemma {:induction false} SumNothing(n: nat, f: nat -> nat)
    ensures SumOver(n, {}, f) == 0
  {
    if n > 0 {
      SumNothing(n - 1, f);
    }
  }

  /** What each batch adds to each counter. */
  ghost function Failures(w: Work): nat -> nat {
    (i: nat) => if i < |w.results| && w.results[i].err.Some? then 1 else 0
  }

  ghost function Truncations(w: Work): nat -> nat {
    (i: nat) => if i < |w.results| && w.results[i].err.None? && w.results[i].truncated then 1 else 0
  }

  ghost function Sizes(w: Work): nat -> nat {
    (i: nat) => if i < |w.batches| then |w.batches[i]| else 0
  }

  ghost function Losses(w: Work): nat -> nat {
    (i: nat) => if i < |w.results| && i < |w.batches| && !w.Good(i) then |w.batches[i]| else 0
  }

  ghost function Gains(w: Work): nat -> nat {
    (i: nat) => if i < |w.results| && i < |w.batches| && w.Good(i) then |w.batches[i]| else 0
  }

  ghost function Silences(w: Work): nat -> nat {
    (i: nat) => if i < |w.results| && w.Good(i) then |w.results[i].missing| else 0
  }

  ghost predicate Counts(t: Tally, w: Work, done: set<nat>) {
    var n := |w.batches|;
    && t.failed == SumOver(n, done, Failures(w))
    && t.truncated == SumOver(n, done, Truncations(w))
    && t.lostHosts == SumOver(n, done, Losses(w))
    && t.noFacts == SumOver(n, done, Silences(w))
    && (t.firstErr.None? <==> t.failed == 0)
  }

  /** The counters depend only on which batches have committed. */
  lemma {:induction false} CountersAreSums(w: Work, flt: FactFilter, order: seq<nat>)
    requires w.Valid() && Within(order, |w.batches|)
    ensures Counts(CommitAll(w, flt, order), w, Elements(order))
  {
    if order == [] {
      NothingCounted(w);
    } else {
      hide Counts, Commit;
      var init, last := order[..|order| - 1], order[|order| - 1];
      assert order == init + [last];
      CountersAreSums(w, flt, init);
      ElementsSnoc(init, last);
      assert last !in Elements(init);
      CountOneMore(CommitAll(w, flt, init), w, Elements(init), last, flt);
    }
  }

  lemma NothingCounted(w: Work)
    ensures Counts(EMPTY, w, {})
  {
    SumNothing(|w.batches|, Failures(w));
    SumNothing(|w.batches|, Truncations(w));
    SumNothing(|w.batches|, Losses(w));
    SumNothing(|w.batches|, Silences(w));
  }

  lemma CountOneMore(t: Tally, w: Work, done: set<nat>, last: nat, flt: FactFilter)
    requires w.Valid() && Counts(t, w, done) && last < |w.batches| && last !in done
    ensures Counts(Commit(t, |w.batches[last]|, w.results[last], flt), w, done + {last})
  {
    hide SumOver, Filtered;
    SumInsert(|w.batches|, done, last, Failures(w));
    SumInsert(|w.batches|, done, last, Truncations(w));
    SumInsert(|w.batches|, done, last, Losses(w));
    SumInsert(|w.batches|, done, last, Silences(w));
  }

  lemma ElementsSnoc(init: seq<nat>, last: nat)
    ensures Elements(init + [last]) == Elements(init) + {last}
  {
  }

  /* ---- the facts that have been committed ---- */

  ghost predicate Named(hosts: seq<Host>, name: string) {
    exists h :: h in hosts && h.name == name
  }

  /** Batches bring facts of their own hosts only, and no name is in two batches. */
  ghost predicate Confined(w: Work) {
    && w.Valid()
    && (forall i, name :: 0 <= i < |w.results| && name in w.results[i].facts ==> Named(w.batches[i], name))
    && (forall i, j, name :: 0 <= i < j < |w.batches| ==> !(Named(w.batches[i], name) && Named(w.batches[j], name)))
  }

  /** Good batches that bring the same name bring it with the same labels. */
  ghost predicate Agreed(w: Work, flt: FactFilter) {
    forall i: nat, j: nat, name :: Brought(w, i, name) && Brought(w, j, name) ==>
      FilterFacts(flt, w.results[i].facts[name]) == FilterFacts(flt, w.results[j].facts[name])
  }

  lemma ConfinedAgrees(w: Work, flt: FactFilter)
    requires Confined(w)
    ensures Agreed(w, flt)
  {
    hide FilterFacts;
    forall i: nat, j: nat, name | Brought(w, i, name) && Brought(w, j, name)
      ensures i == j
    {
      OneBatchEach(w, i, j, name);
    }
  }

  /** Host `name` got its facts from good batch i. */
  ghost predicate Brought(w: Work, i: nat, name: string) {
    i < |w.results| && w.Good(i) && name in w.results[i].facts
  }

  /** The facts are those of the good batches among the ones that have committed, filtered. */
  ghost predicate Holds(w: Work, flt: FactFilter, done: set<nat>, facts: HostFacts) {
    && (forall name :: name in facts ==> exists i :: i in done && Brought(w, i, name))
    && (forall i, name :: i in done && Brought(w, i, name) ==>
          name in facts && facts[name] == FilterFacts(flt, w.results[i].facts[name]))
  }

  lemma {:induction false} CommitAllHolds(w: Work, flt: FactFilter, order: seq<nat>)
    requires w.Valid() && Agreed(w, flt) && Within(order, |w.batches|)
    ensures Holds(w, flt, Elements(order), CommitAll(w, flt, order).hostsFacts)
  {
    if order != [] {
      hide FilterFacts, Holds, Agreed;
      var init, last := order[..|order| - 1], order[|order| - 1];
      assert order == init + [last];
      CommitAllHolds(w, flt, init);
      ElementsSnoc(init, last);
      HoldsMore(w, flt, Elements(init), last, CommitAll(w, flt, init).hostsFacts);
    }
  }

  lemma HoldsMore(w: Work, flt: FactFilter, done: set<nat>, last: nat, facts: HostFacts)
    requires Agreed(w, flt) && last < |w.results| && Holds(w, flt, done, facts)
    ensures Holds(w, flt, done + {last},
                  if w.Good(last) then facts + Filtered(flt, w.results[last].facts) else facts)
  {
    hide FilterFacts;
  }

  lemma OneBatchEach(w: Work, i: nat, j: nat, name: string)
    requires Confined(w) && Brought(w, i, name) && j < |w.batches|
    requires Named(w.batches[j], name) || Brought(w, j, name)
    ensures i == j
  {
    assert Named(w.batches[i], name);
    assert Named(w.batches[j], name);
  }

  lemma HoldsIsUnique(w: Work, flt: FactFilter, done: set<nat>, a: HostFacts, b: HostFacts)
    requires Holds(w, flt, done, a) && Holds(w, flt, done, b)
    ensures a == b
  {
    hide FilterFacts;
    forall name | name in a
      ensures name in b && a[name] == b[name]
    {
      var i :| i in done && Brought(w, i, name);
    }
    forall name | name in b
      ensures name in a
    {
      var i :| i in done && Brought(w, i, name);
    }
  }

  /* ---- schedule independence ---- */

  lemma ScheduleCovers(order: seq<nat>, n: nat)
    requires Schedule(order, n)
    ensures Elements(order) == Below(n)
  {
    assert forall x :: x in order ==> x < n;
    DistinctCovers(order, n);
  }

  /** The same outcome, but for which of the errors came first. */
  predicate SameOutcome(t: Tally, t': Tally) {
    t.(firstErr := None) == t'.(firstErr := None) && (t.firstErr.None? <==> t'.firstErr.None?)
  }

  lemma AgreedIsIndependent(w: Work, flt: FactFilter, order: seq<nat>, order': seq<nat>)
    requires w.Valid() && Agreed(w, flt) && Schedule(order, |w.batches|) && Schedule(order', |w.batches|)
    ensures SameOutcome(CommitAll(w, flt, order), CommitAll(w, flt, order'))
  {
    hide SumOver, CommitAll, Holds, Agreed;
    ScheduleCovers(order, |w.batches|);
    ScheduleCovers(order', |w.batches|);
    CountersAreSums(w, flt, order);
    CountersAreSums(w, flt, order');
    CommitAllHolds(w, flt, order);
    CommitAllHolds(w, flt, order');
    HoldsIsUnique(w, flt, Below(|w.batches|), CommitAll(w, flt, order).hostsFacts, CommitAll(w, flt, order').hostsFacts);
  }

  /** The order in which batch j finishes last and the others in turn. */
  function LastIs(n: nat, j: nat): seq<nat>
    requires j < n
  {
    seq(n, k requires 0 <= k < n => if k < j then k else if k < n - 1 then k + 1 else j)
  }

  /** The last good batch to finish decides the labels of the names it brings. */
  lemma LastBatchWins(w: Work, flt: FactFilter, j: nat, name: string)
    requires w.Valid() && Brought(w, j, name)
    ensures Schedule(LastIs(|w.batches|, j), |w.batches|)
    ensures
      var facts := CommitAll(w, flt, LastIs(|w.batches|, j)).hostsFacts;
      name in facts && facts[name] == FilterFacts(flt, w.results[j].facts[name])
  {
    hide FilterFacts;
    var order := LastIs(|w.batches|, j);
    assert order[|order| - 1] == j;
  }

  ghost predicate OrderNeverMatters(w: Work, flt: FactFilter)
    requires w.Valid()
  {
    forall order, order' :: Schedule(order, |w.batches|) && Schedule(order', |w.batches|) ==>
      SameOutcome(CommitAll(w, flt, order), CommitAll(w, flt, order'))
  }

  /** Exactly when the completion order does not matter, whatever the server replies: no two good batches
      bring a host of the same name with different labels. */
  lemma OrderMattersOnConflict(c: BulkConfig, fetch: FactFetch, hosts: seq<Host>)
    ensures OrderNeverMatters(WorkFor(c, fetch, hosts), c.flt) <==> Agreed(WorkFor(c, fetch, hosts), c.flt)
  {
    hide WorkFor, CommitAll, FilterFacts;
    var w := WorkFor(c, fetch, hosts);
    if Agreed(w, c.flt) {
      forall order, order' | Schedule(order, |w.batches|) && Schedule(order', |w.batches|)
        ensures SameOutcome(CommitAll(w, c.flt, order), CommitAll(w, c.flt, order'))
      {
        AgreedIsIndependent(w, c.flt, order, order');
      }
    } else {
      var i: nat, j: nat, name :| Brought(w, i, name) && Brought(w, j, name)
        && FilterFacts(c.flt, w.results[i].facts[name]) != FilterFacts(c.flt, w.results[j].facts[name]);
      LastBatchWins(w, c.flt, i, name);
      LastBatchWins(w, c.flt, j, name);
      assert !SameOutcome(CommitAll(w, c.flt, LastIs(|w.batches|, i)), CommitAll(w, c.flt, LastIs(|w.batches|, j)));
    }
  }

  /** With distinct host names and replies that name only the hosts asked about, every completion order
      yields the same facts, the same counters and an error in the same cases - also when batches fail or
      run out of pages. */
  lemma ScheduleIndependent(c: BulkConfig, fetch: FactFetch, hosts: seq<Host>, order: seq<nat>, order': seq<nat>)
    requires DistinctNames(hosts) && NamesItsHosts(c, fetch, hosts)
    requires Schedule(order, |Split(c.search, hosts)|) && Schedule(order', |Split(c.search, hosts)|)
    ensures
      var w := WorkFor(c, fetch, hosts);
      SameOutcome(CommitAll(w, c.flt, order), CommitAll(w, c.flt, order'))
  {
    hide CommitAll, Split, Confined, Agreed;
    WorkIsConfined(c, fetch, hosts);
    ConfinedAgrees(WorkFor(c, fetch, hosts), c.flt);
    AgreedIsIndependent(WorkFor(c, fetch, hosts), c.flt, order, order');
  }

  lemma {:induction false} SizesAddUp(w: Work, k: nat)
    requires k <= |w.batches|
    ensures SumOver(k, Below(|w.batches|), Sizes(w)) == |Concat(w.batches[..k])|
  {
    if k == 0 {
      assert w.batches[..0] == [];
    } else {
      SizesAddUp(w, k - 1);
      assert w.batches[..k] == w.batches[..k - 1] + [w.batches[k - 1]];
      ConcatSnoc(w.batches[..k - 1], w.batches[k - 1]);
    }
  }

  lemma {:induction false} ConcatSnoc(batches: seq<seq<Host>>, last: seq<Host>)
    ensures Concat(batches + [last]) == Concat(batches) + last
  {
    if batches == [] {
      assert [last] == [last] + [];
      assert Concat([last]) == last + Concat([last][1..]);
    } else {
      assert (batches + [last])[1..] == batches[1..] + [last];
      ConcatSnoc(batches[1..], last);
    }
  }

  /** The hosts of the batches that came back whole. */
  ghost function HostsOfGoodBatches(w: Work): nat {
    SumOver(|w.batches|, Below(|w.batches|), Gains(w))
  }

  /** All or nothing: a host is exported exactly when its batch came back whole and brought it, and then
      with that batch's facts, filtered; no host of a failed or truncated batch is exported, and no name
      that is not a host's. */
  lemma Accounting(c: BulkConfig, fetch: FactFetch, hosts: seq<Host>, order: seq<nat>)
    requires DistinctNames(hosts) && NamesItsHosts(c, fetch, hosts) && Schedule(order, |Split(c.search, hosts)|)
    ensures
      var w := WorkFor(c, fetch, hosts);
      var facts := CommitAll(w, c.flt, order).hostsFacts;
      && (forall i, name :: 0 <= i < |w.batches| && Named(w.batches[i], name) ==>
            && (name in facts <==> Brought(w, i, name))
            && (name in facts ==> facts[name] == FilterFacts(c.flt, w.results[i].facts[name])))
      && (forall name :: name in facts ==> Named(hosts, name))
  {
    hide CommitAll, Holds, Split, Confined, FilterFacts, Agreed;
    var w := WorkFor(c, fetch, hosts);
    var facts := CommitAll(w, c.flt, order).hostsFacts;
    WorkIsConfined(c, fetch, hosts);
    ConfinedAgrees(w, c.flt);
    ScheduleCovers(order, |w.batches|);
    CommitAllHolds(w, c.flt, order);
    forall i, name | 0 <= i < |w.batches| && Named(w.batches[i], name)
      ensures name in facts <==> Brought(w, i, name)
      ensures name in facts ==> facts[name] == FilterFacts(c.flt, w.results[i].facts[name])
    {
      ExportedIsBrought(w, c.flt, facts, i, name);
    }
    forall name | name in facts
      ensures Named(hosts, name)
    {
      OnlyHostsAreExported(c, fetch, hosts, facts, name);
    }
  }

  lemma OnlyHostsAreExported(c: BulkConfig, fetch: FactFetch, hosts: seq<Host>, facts: HostFacts, name: string)
    requires var w := WorkFor(c, fetch, hosts); Confined(w) && Holds(w, c.flt, Below(|w.batches|), facts)
    requires name in facts
    ensures Named(hosts, name)
  {
    hide Split, Outcome, FilterFacts;
    var w := WorkFor(c, fetch, hosts);
    var i :| i in Below(|w.batches|) && Brought(w, i, name);
    assert Named(w.batches[i], name);
    var h :| h in w.batches[i] && h.name == name;
    SplitIsGood(c.search, hosts);
    InSomeBatch(w.batches, h);
  }

  lemma HostsAddUp(w: Work)
    requires w.Valid()
    ensures var n := |w.batches|;
      SumOver(n, Below(n), Losses(w)) + SumOver(n, Below(n), Gains(w)) == |Concat(w.batches)|
  {
    var n := |w.batches|;
    SizesAddUp(w, n);
    assert w.batches[..n] == w.batches;
    SumAdds(n, Below(n), Losses(w), Gains(w), Sizes(w));
  }

  lemma ExportedIsBrought(w: Work, flt: FactFilter, facts: HostFacts, i: nat, name: string)
    requires Confined(w) && Holds(w, flt, Below(|w.batches|), facts) && i < |w.batches| && Named(w.batches[i], name)
    ensures name in facts <==> Brought(w, i, name)
    ensures name in facts ==> facts[name] == FilterFacts(flt, w.results[i].facts[name])
  {
    hide FilterFacts;
    if name in facts {
      var j :| j in Below(|w.batches|) && Brought(w, j, name);
      OneBatchEach(w, j, i, name);
    }
  }

  /* ---- batches of a fleet with distinct names ---- */

  ghost predicate DistinctNames(hosts: seq<Host>) {
    forall i, j :: 0 <= i < j < |hosts| ==> hosts[i].name != hosts[j].name
  }

  /** Every host is in some batch, and batches hold nothing but hosts. */
  lemma {:induction false} InSomeBatch(batches: seq<seq<Host>>, h: Host)
    ensures h in Concat(batches) <==> exists i :: 0 <= i < |batches| && h in batches[i]
  {
    if batches != [] {
      InSomeBatch(batches[1..], h);
      if h in batches[0] {
      } else if i :| 0 <= i < |batches| && h in batches[i] {
        assert batches[1..][i - 1] == batches[i];
      }
    }
  }

  lemma {:induction false} BatchesAreDisjoint(batches: seq<seq<Host>>, i: nat, j: nat, name: string)
    requires DistinctNames(Concat(batches)) && i < j < |batches|
    ensures !(Named(batches[i], name) && Named(batches[j], name))
  {
    var hosts := Concat(batches);
    var rest := Concat(batches[1..]);
    assert hosts == batches[0] + rest;
    assert DistinctNames(rest) by {
      forall a, b | 0 <= a < b < |rest|
        ensures rest[a].name != rest[b].name
      {
        assert rest[a] == hosts[|batches[0]| + a] && rest[b] == hosts[|batches[0]| + b];
      }
    }
    if i > 0 {
      BatchesAreDisjoint(batches[1..], i - 1, j - 1, name);
    } else if Named(batches[i], name) && Named(batches[j], name) {
      var g :| g in batches[0] && g.name == name;
      var h :| h in batches[j] && h.name == name;
      assert batches[1..][j - 1] == batches[j];
      InSomeBatch(batches[1..], h);
      DistinctAcross(batches[0], rest, g, h);
    }
  }

  lemma DistinctAcross(x: seq<Host>, y: seq<Host>, g: Host, h: Host)
    requires DistinctNames(x + y) && g in x && h in y
    ensures g.name != h.name
  {
    var a :| 0 <= a < |x| && x[a] == g;
    var b :| 0 <= b < |y| && y[b] == h;
    assert (x + y)[a] == g && (x + y)[|x| + b] == h;
  }

  /** The replies to a batch name only hosts of the batch. */
  ghost predicate NamesOnly(pages: nat -> Reply, batch: seq<Host>) {
    forall p: nat, name :: p >= 1 && pages(p).Page? && name in pages(p).results ==> Named(batch, name)
  }

  ghost predicate NamesItsHosts(c: BulkConfig, fetch: FactFetch, hosts: seq<Host>) {
    forall i :: 0 <= i < |Split(c.search, hosts)| ==>
      NamesOnly(PagesOf(fetch, Split(c.search, hosts)[i]), Split(c.search, hosts)[i])
  }

  /** Then so do the facts of the batch, however its paging ends. */
  lemma {:induction false} FollowNamesOnly(pages: nat -> Reply, batch: seq<Host>, perPage: int, maxPages: nat,
                                           page: nat, facts: HostFacts)
    requires page >= 1 && NamesOnly(pages, batch)
    requires forall name :: name in facts ==> Named(batch, name)
    ensures forall name :: name in FollowPages(pages, batch, perPage, maxPages, page, facts).facts ==> Named(batch, name)
    decreases maxPages + 1 - page
  {
    hide Missing, RowCount, Named;
    if page <= maxPages && pages(page).Page? {
      var merged := MergeFacts(facts, pages(page).results);
      FollowNamesOnly(pages, batch, perPage, maxPages, page + 1, merged);
    }
  }

  lemma WorkIsConfined(c: BulkConfig, fetch: FactFetch, hosts: seq<Host>)
    requires DistinctNames(hosts) && NamesItsHosts(c, fetch, hosts)
    ensures Confined(WorkFor(c, fetch, hosts))
  {
    hide Split, FollowPages, Named, NamesOnly;
    var w := WorkFor(c, fetch, hosts);
    SplitIsGood(c.search, hosts);
    forall i, name | 0 <= i < |w.results| && name in w.results[i].facts
      ensures Named(w.batches[i], name)
    {
      FollowNamesOnly(PagesOf(fetch, w.batches[i]), w.batches[i], OrDefault(c.factPerPage, DEFAULT_FACT_PER_PAGE),
                      OrDefault(c.factMaxPages, DEFAULT_FACT_MAX_PAGES), 1, map[]);
    }
    forall i, j, name | 0 <= i < j < |w.batches|
      ensures !(Named(w.batches[i], name) && Named(w.batches[j], name))
    {
      BatchesAreDisjoint(w.batches, i, j, name);
    }
  }
}
