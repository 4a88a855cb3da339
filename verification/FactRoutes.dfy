/** The two routes to the fleet's facts - one request per host, or batches through the bulk route -
    against one fixed server, and exactly when they return the same map. */
module FactRoutes {
  import opened Wrappers
  import opened Search
  import opened Batches
  import opened FactPages
  import opened FanOut
  import opened Bulk
  import opened BulkSchedules

  /* ---- the per-host route ---- */

  /** What the loop over the per-host results has collected and how many failed. */
  function PerHost(results: seq<Reply>, flt: FactFilter): (HostFacts, nat) {
    if results == [] then (map[], 0)
    else
      var before := PerHost(results[..|results| - 1], flt);
      match results[|results| - 1]
      case Failed(_) => (before.0, before.1 + 1)
      case Page(_, facts) => (before.0 + Filtered(flt, facts), before.1)
  }

  datatype PerHostError = Short(expected: nat, got: int)

  /** The per-host half of `GetHostsFactsFiltered`, from the results in host order. */
  method CollectPerHost(results: seq<Indexed<Reply>>, flt: FactFilter) returns (facts: HostFacts, err: Option<PerHostError>)
    ensures
      var replies := seq(|results|, k requires 0 <= k < |results| => results[k].reply);
      && facts == PerHost(replies, flt).0
      && err == (if PerHost(replies, flt).1 > 0 then Some(Short(|results|, |results| - PerHost(replies, flt).1)) else None)
  {
    hide Filtered;
    ghost var replies := seq(|results|, k requires 0 <= k < |results| => results[k].reply);
    facts := map[];
    var errCount := 0;
    for k := 0 to |results|
      invariant facts == PerHost(replies[..k], flt).0 && errCount == PerHost(replies[..k], flt).1
    {
      assert replies[..k + 1][..k] == replies[..k];
      match results[k].reply {
        case Failed(_) => errCount := errCount + 1;
        case Page(_, data) => facts := FilterInto(facts, data, flt);
      }
    }
    assert replies[..|results|] == replies;
    err := if errCount > 0 then Some(Short(|results|, |results| - errCount)) else None;
  }

  /** Result k came back and names the host. */
  predicate ResultNames(results: seq<Reply>, k: nat, name: string) {
    k < |results| && results[k].Page? && name in results[k].results
  }

  ghost predicate LastNames(results: seq<Reply>, k: nat, name: string) {
    ResultNames(results, k, name) && forall j: nat :: k < j ==> !ResultNames(results, j, name)
  }

  /** What the loop collects, for any results: it counts exactly those that failed, drops none of the others,
      and of a host that several of them name keeps what the last one says, filtered. */
  lemma PerHostCollects(results: seq<Reply>, flt: FactFilter, name: string)
    ensures PerHost(results, flt).1 == |set k: nat | k < |results| && results[k].Failed?|
    ensures name in PerHost(results, flt).0 <==> exists k: nat :: ResultNames(results, k, name)
    ensures forall k: nat :: LastNames(results, k, name) ==>
      PerHost(results, flt).0[name] == FilterFacts(flt, results[k].results[name])
  {
    hide PerHost, FilterFacts;
    PerHostCounts(results, flt);
    PerHostNames(results, flt, name);
    forall k: nat | LastNames(results, k, name)
      ensures PerHost(results, flt).0[name] == FilterFacts(flt, results[k].results[name])
    {
      PerHostKeepsLast(results, flt, name, k);
    }
  }

  lemma {:induction false} PerHostCounts(results: seq<Reply>, flt: FactFilter)
    ensures PerHost(results, flt).1 == |set k: nat | k < |results| && results[k].Failed?|
  {
    hide Filtered;
    FailedResults(results);
    if results != [] {
      PerHostCounts(results[..|results| - 1], flt);
    }
  }

  lemma {:induction false} PerHostNames(results: seq<Reply>, flt: FactFilter, name: string)
    ensures name in PerHost(results, flt).0 <==> exists k: nat :: ResultNames(results, k, name)
  {
    hide FilterFacts;
    if results != [] {
      var n := |results| - 1;
      PerHostNames(results[..n], flt, name);
      forall k: nat
        ensures ResultNames(results[..n], k, name) <==> k < n && ResultNames(results, k, name)
      {
      }
      if name in PerHost(results[..n], flt).0 {
        var k: nat :| ResultNames(results[..n], k, name);
        assert ResultNames(results, k, name);
      } else {
        assert name in PerHost(results, flt).0 <==> ResultNames(results, n, name);
      }
    }
  }

  lemma {:induction false} PerHostKeepsLast(results: seq<Reply>, flt: FactFilter, name: string, k: nat)
    requires LastNames(results, k, name)
    ensures name in PerHost(results, flt).0
    ensures PerHost(results, flt).0[name] == FilterFacts(flt, results[k].results[name])
  {
    hide FilterFacts;
    var n := |results| - 1;
    if k < n {
      assert !ResultNames(results, n, name);
      forall j: nat | k < j
        ensures !ResultNames(results[..n], j, name)
      {
        assert !ResultNames(results, j, name);
      }
      assert LastNames(results[..n], k, name);
      PerHostKeepsLast(results[..n], flt, name, k);
    }
  }

  lemma FailedResults(results: seq<Reply>)
    ensures |set k: nat | k < |results| && results[k].Failed?| ==
      if results == [] then 0
      else
        var init := results[..|results| - 1];
        |set k: nat | k < |init| && init[k].Failed?| + if results[|results| - 1].Failed? then 1 else 0
  {
    var failed := set k: nat | k < |results| && results[k].Failed?;
    if results == [] {
      assert failed == {};
    } else {
      var n := |results| - 1;
      var before := set k: nat | k < |results[..n]| && results[..n][k].Failed?;
      assert failed == if results[n].Failed? then before + {n} else before;
    }
  }

  /* ---- one server behind both routes ---- */

  type Fact = (string, string)

  /** For a host id its facts, in the server's order; for some ids the rows of the bulk route, in the
      server's order; the page sizes applied on the bulk route and on the per-host route. */
  datatype FactDb = FactDb(table: int -> seq<Fact>, rows: seq<int> -> seq<Row>, e: nat, echoed: int, hostPage: nat) {
    function Serve(ids: seq<int>, page: nat): Reply {
      Server(rows(ids), e, echoed).Fetch(page)
    }

    /** The single page of one host's facts. */
    function HostReply(h: Host): Reply {
      var facts := table(h.id);
      Page(hostPage, if facts == [] then map[] else map[h.name := FactMap(facts[..Min(hostPage, |facts|)])])
    }
  }

  function FactMap(facts: seq<Fact>): Facts {
    if facts == [] then map[]
    else FactMap(facts[..|facts| - 1])[facts[|facts| - 1].0 := facts[|facts| - 1].1]
  }

  ghost predicate DistinctFacts(facts: seq<Fact>) {
    forall i, j :: 0 <= i < j < |facts| ==> facts[i].0 != facts[j].0
  }

  /** The fact names that the bulk query restricts the server to, if any. */
  predicate Asked(c: BulkConfig, fact: string) {
    NonEmpty(c.search.factNames) == [] || fact in NonEmpty(c.search.factNames)
  }

  /** The facts that end up as labels. */
  predicate IsLabel(c: BulkConfig, f: Fact) {
    Kept(c.flt, f.0) && f.1 != ""
  }

  /** The bulk route answers a batch with exactly the facts of its hosts that were asked for, and no
      batch runs out of pages. */
  ghost predicate Serves(db: FactDb, c: BulkConfig, hosts: seq<Host>) {
    && db.hostPage >= 1
    && (forall h :: h in hosts ==> DistinctFacts(db.table(h.id)))
    && (forall i :: 0 <= i < |Split(c.search, hosts)| ==> ServesBatch(db, c, Split(c.search, hosts)[i]))
  }

  ghost predicate ServesBatch(db: FactDb, c: BulkConfig, batch: seq<Host>) {
    var rows := db.rows(IdsOf(batch));
    && Server(rows, db.e, db.echoed).Valid(OrDefault(c.factPerPage, DEFAULT_FACT_PER_PAGE))
    && |rows| < OrDefault(c.factMaxPages, DEFAULT_FACT_MAX_PAGES) * db.e
    && (forall r :: r in rows ==> exists h :: h in batch && IsRowOf(db, c, h, r))
    && (forall h, r :: h in batch && IsRowOf(db, c, h, r) ==> r in rows)
  }

  ghost predicate IsRowOf(db: FactDb, c: BulkConfig, h: Host, r: Row) {
    r.host == h.name && (r.fact, r.value) in db.table(h.id) && Asked(c, r.fact)
  }

  /* ---- what each route says about one host ---- */

  lemma {:induction false} FactMapHolds(facts: seq<Fact>, f: string, v: string)
    requires DistinctFacts(facts)
    ensures f in FactMap(facts) && FactMap(facts)[f] == v <==> (f, v) in facts
  {
    if facts != [] {
      var init, last := facts[..|facts| - 1], facts[|facts| - 1];
      FactMapHolds(init, f, v);
      assert facts == init + [last];
    }
  }

  lemma {:induction false} FollowCongruent(f: nat -> Reply, g: nat -> Reply, hosts: seq<Host>, perPage: int,
                                           maxPages: nat, page: nat, facts: HostFacts)
    requires page >= 1 && forall p :: f(p) == g(p)
    ensures FollowPages(f, hosts, perPage, maxPages, page, facts) == FollowPages(g, hosts, perPage, maxPages, page, facts)
    decreases maxPages + 1 - page
  {
    hide MergeFacts, Missing, RowCount;
    if page <= maxPages && f(page).Page? {
      FollowCongruent(f, g, hosts, perPage, maxPages, page + 1, MergeFacts(facts, f(page).results));
    }
  }

  /** An unfailing batch brings exactly the rows asked for. */
  lemma BatchFacts(db: FactDb, c: BulkConfig, batch: seq<Host>)
    requires ServesBatch(db, c, batch)
    ensures
      var r := Outcome(c, db.Serve, batch);
      r.err == None && !r.truncated && r.facts == Group(db.rows(IdsOf(batch)))
  {
    hide FollowPages, Group, Missing;
    var s := Server(db.rows(IdsOf(batch)), db.e, db.echoed);
    forall p: nat
      ensures PagesOf(db.Serve, batch)(p) == s.Fetch(p)
    {
      assert PagesOf(db.Serve, batch)(p) == db.Serve(IdsOf(batch), p);
    }
    FollowCongruent(PagesOf(db.Serve, batch), s.Fetch, batch, OrDefault(c.factPerPage, DEFAULT_FACT_PER_PAGE),
                    OrDefault(c.factMaxPages, DEFAULT_FACT_MAX_PAGES), 1, map[]);
    FixedBatch(s, batch, c.factPerPage, c.factMaxPages);
  }

  lemma ServerNamesItsHosts(db: FactDb, c: BulkConfig, hosts: seq<Host>)
    requires Serves(db, c, hosts)
    ensures NamesItsHosts(c, db.Serve, hosts)
  {
    hide Split;
    forall i | 0 <= i < |Split(c.search, hosts)|
      ensures NamesOnly(PagesOf(db.Serve, Split(c.search, hosts)[i]), Split(c.search, hosts)[i])
    {
      BatchNamesOnly(db, c, Split(c.search, hosts)[i]);
    }
  }

  lemma BatchNamesOnly(db: FactDb, c: BulkConfig, batch: seq<Host>)
    requires ServesBatch(db, c, batch)
    ensures NamesOnly(PagesOf(db.Serve, batch), batch)
  {
    hide Server.Fetch;
    var pages := PagesOf(db.Serve, batch);
    var s := Server(db.rows(IdsOf(batch)), db.e, db.echoed);
    forall p: nat, name | p >= 1 && pages(p).Page? && name in pages(p).results
      ensures Named(batch, name)
    {
      assert pages(p) == db.Serve(IdsOf(batch), p) == s.Fetch(p);
      var r := PageNamesRows(s, p, name);
      var h :| h in batch && IsRowOf(db, c, h, r);
    }
  }

  lemma PageNamesRows(s: Server, page: nat, name: string) returns (r: Row)
    requires DistinctKeys(s.rows) && page >= 1 && name in s.Fetch(page).results
    ensures r in s.rows && r.host == name
  {
    hide Group;
    GroupHoldsRows(s.Slice(page), name, "", "");
    r :| r in s.Slice(page) && r.host == name;
  }

  /** The facts that the bulk route asks for of a host. */
  ghost predicate BulkHas(db: FactDb, c: BulkConfig, h: Host, f: Fact) {
    f in db.table(h.id) && Asked(c, f.0)
  }

  lemma GroupOfHost(db: FactDb, c: BulkConfig, hosts: seq<Host>, batch: seq<Host>, h: Host, f: Fact)
    requires ServesBatch(db, c, batch) && h in batch && DistinctNames(hosts) && forall g :: g in batch ==> g in hosts
    ensures var m := Group(db.rows(IdsOf(batch)));
      && (h.name in m && f.0 in m[h.name] && m[h.name][f.0] == f.1 <==> BulkHas(db, c, h, f))
      && (BulkHas(db, c, h, f) ==> h.name in m)
      && (h.name in m ==> exists g :: BulkHas(db, c, h, g))
  {
    hide Group, Asked;
    var rows := db.rows(IdsOf(batch));
    var r := Row(h.name, f.0, f.1);
    GroupHoldsRows(rows, h.name, f.0, f.1);
    if r in rows {
      var g :| g in batch && IsRowOf(db, c, g, r);
      SameNameSameHost(hosts, g, h);
    }
    if BulkHas(db, c, h, f) {
      assert IsRowOf(db, c, h, r);
    }
    if h.name in Group(rows) {
      var q :| q in rows && q.host == h.name;
      var g :| g in batch && IsRowOf(db, c, g, q);
      SameNameSameHost(hosts, g, h);
      assert BulkHas(db, c, h, (q.fact, q.value));
    }
  }

  lemma SameNameSameHost(hosts: seq<Host>, g: Host, h: Host)
    requires DistinctNames(hosts) && g in hosts && h in hosts && g.name == h.name
    ensures g == h
  {
  }

  ghost function BulkMap(db: FactDb, c: BulkConfig, hosts: seq<Host>, order: seq<nat>): HostFacts
    requires Schedule(order, |Split(c.search, hosts)|)
  {
    CommitAll(WorkFor(c, db.Serve, hosts), c.flt, order).hostsFacts
  }

  lemma BatchOfHost(c: SearchConfig, hosts: seq<Host>, h: Host) returns (i: nat)
    requires h in hosts
    ensures i < |Split(c, hosts)| && h in Split(c, hosts)[i]
    ensures forall g :: g in Split(c, hosts)[i] ==> g in hosts
  {
    hide Split;
    var batches := Split(c, hosts);
    SplitIsGood(c, hosts);
    InSomeBatch(batches, h);
    i :| 0 <= i < |batches| && h in batches[i];
    forall g | g in batches[i]
      ensures g in hosts
    {
      InSomeBatch(batches, g);
    }
  }

  lemma FilterHolds(flt: FactFilter, data: Facts, f: Fact)
    ensures (f.0 in FilterFacts(flt, data) && FilterFacts(flt, data)[f.0] == f.1) <==>
            (f.0 in data && data[f.0] == f.1 && Kept(flt, f.0) && f.1 != "")
  {
  }

  /** What the bulk route returns for a host, under every schedule. */
  lemma BulkHost(db: FactDb, c: BulkConfig, hosts: seq<Host>, order: seq<nat>, h: Host, f: Fact)
    requires Serves(db, c, hosts) && DistinctNames(hosts) && Schedule(order, |Split(c.search, hosts)|) && h in hosts
    ensures var m := BulkMap(db, c, hosts, order);
      && (h.name in m && f.0 in m[h.name] && m[h.name][f.0] == f.1 <==> BulkHas(db, c, h, f) && IsLabel(c, f))
      && (BulkHas(db, c, h, f) ==> h.name in m)
      && (h.name in m ==> exists g :: BulkHas(db, c, h, g))
  {
    hide Split, Outcome, Group, CommitAll, FilterFacts, Kept, ServesBatch, NamesItsHosts, BulkHas;
    var i := BatchOfHost(c.search, hosts, h);
    var batch := Split(c.search, hosts)[i];
    BatchFacts(db, c, batch);
    GroupOfHost(db, c, hosts, batch, h, f);
    ServerNamesItsHosts(db, c, hosts);
    Accounting(c, db.Serve, hosts, order);
    var w := WorkFor(c, db.Serve, hosts);
    assert Named(w.batches[i], h.name);
    assert Brought(w, i, h.name) <==> h.name in Group(db.rows(IdsOf(batch)));
    if h.name in Group(db.rows(IdsOf(batch))) {
      FilterHolds(c.flt, Group(db.rows(IdsOf(batch)))[h.name], f);
    }
  }

  function PerHostMap(db: FactDb, c: BulkConfig, hosts: seq<Host>): HostFacts {
    PerHost(seq(|hosts|, k requires 0 <= k < |hosts| => db.HostReply(hosts[k])), c.flt).0
  }

  lemma PerHostSnoc(db: FactDb, c: BulkConfig, hosts: seq<Host>, h: Host)
    ensures PerHostMap(db, c, hosts + [h]) == PerHostMap(db, c, hosts) + Filtered(c.flt, db.HostReply(h).results)
  {
    hide Filtered;
    var all := seq(|hosts| + 1, k requires 0 <= k < |hosts| + 1 => db.HostReply((hosts + [h])[k]));
    assert all[..|hosts|] == seq(|hosts|, k requires 0 <= k < |hosts| => db.HostReply(hosts[k]));
  }

  lemma {:induction false} PerHostAt(db: FactDb, c: BulkConfig, hosts: seq<Host>, name: string)
    requires DistinctNames(hosts)
    ensures name in PerHostMap(db, c, hosts) <==> exists h :: h in hosts && h.name == name && db.table(h.id) != []
    ensures forall h :: h in hosts && h.name == name && db.table(h.id) != [] ==>
      PerHostMap(db, c, hosts)[name] == FilterFacts(c.flt, FactMap(db.table(h.id)[..Min(db.hostPage, |db.table(h.id)|)]))
  {
    hide PerHostMap, FilterFacts, FactMap;
    if hosts == [] {
      NothingPerHost(db, c);
    } else {
      var init, last := hosts[..|hosts| - 1], hosts[|hosts| - 1];
      assert hosts == init + [last];
      PerHostAt(db, c, init, name);
      PerHostSnoc(db, c, init, last);
    }
  }

  lemma NothingPerHost(db: FactDb, c: BulkConfig)
    ensures PerHostMap(db, c, []) == map[]
  {
  }

  /** What the per-host route returns for a host. */
  lemma PerHostHost(db: FactDb, c: BulkConfig, hosts: seq<Host>, h: Host, f: Fact)
    requires DistinctNames(hosts) && h in hosts && DistinctFacts(db.table(h.id))
    ensures var m, facts := PerHostMap(db, c, hosts), db.table(h.id);
      && ((h.name in m && f.0 in m[h.name] && m[h.name][f.0] == f.1) <==>
            (f in facts[..Min(db.hostPage, |facts|)] && IsLabel(c, f)))
      && (h.name in m <==> facts != [])
  {
    hide PerHostMap, FactMap, Kept;
    var facts := db.table(h.id);
    PerHostAt(db, c, hosts, h.name);
    FactMapHolds(facts[..Min(db.hostPage, |facts|)], f.0, f.1);
    if exists g :: g in hosts && g.name == h.name && db.table(g.id) != [] {
      var g :| g in hosts && g.name == h.name && db.table(g.id) != [];
      SameNameSameHost(hosts, g, h);
    }
  }

  /* ---- agreement ---- */

  /** Among the facts that become labels, the bulk route asks for exactly those that are on the single
      page of the per-host route. */
  ghost predicate SameLabels(db: FactDb, c: BulkConfig, h: Host) {
    forall k :: 0 <= k < |db.table(h.id)| && IsLabel(c, db.table(h.id)[k]) ==>
      (Asked(c, db.table(h.id)[k].0) <==> k < db.hostPage)
  }

  /** A host that has facts has one that is asked for. */
  ghost predicate SomeFactAsked(db: FactDb, c: BulkConfig, h: Host) {
    db.table(h.id) == [] || exists k :: 0 <= k < |db.table(h.id)| && Asked(c, db.table(h.id)[k].0)
  }

  /** The two routes give a host the same labels exactly when `SameLabels` holds of it. */
  lemma HostAgrees(db: FactDb, c: BulkConfig, hosts: seq<Host>, order: seq<nat>, h: Host)
    requires Serves(db, c, hosts) && DistinctNames(hosts) && Schedule(order, |Split(c.search, hosts)|) && h in hosts
    ensures FactsOf(BulkMap(db, c, hosts, order), h.name) == FactsOf(PerHostMap(db, c, hosts), h.name)
        <==> SameLabels(db, c, h)
  {
    hide Split, BulkMap, PerHostMap, Asked, IsLabel;
    var facts := db.table(h.id);
    var a, b := FactsOf(BulkMap(db, c, hosts, order), h.name), FactsOf(PerHostMap(db, c, hosts), h.name);
    forall f: Fact
      ensures f.0 in a && a[f.0] == f.1 <==> f in facts && Asked(c, f.0) && IsLabel(c, f)
      ensures f.0 in b && b[f.0] == f.1 <==> f in facts[..Min(db.hostPage, |facts|)] && IsLabel(c, f)
    {
      BulkHost(db, c, hosts, order, h, f);
      PerHostHost(db, c, hosts, h, f);
    }
    assert DistinctFacts(facts);
    LabelsAgree(db, c, h, a, b);
  }

  lemma LabelsAgree(db: FactDb, c: BulkConfig, h: Host, a: Facts, b: Facts)
    requires DistinctFacts(db.table(h.id))
    requires forall f: Fact :: f.0 in a && a[f.0] == f.1 <==> f in db.table(h.id) && Asked(c, f.0) && IsLabel(c, f)
    requires forall f: Fact :: (f.0 in b && b[f.0] == f.1) <==>
                                 (f in db.table(h.id)[..Min(db.hostPage, |db.table(h.id)|)] && IsLabel(c, f))
    ensures a == b <==> SameLabels(db, c, h)
  {
    hide Asked, IsLabel;
    var facts := db.table(h.id);
    var first := facts[..Min(db.hostPage, |facts|)];
    forall k | 0 <= k < |facts|
      ensures facts[k] in first <==> k < db.hostPage
    {
      if k < db.hostPage {
        assert first[k] == facts[k];
      }
    }
    if SameLabels(db, c, h) {
      forall n | n in a
        ensures n in b && b[n] == a[n]
      {
        var f: Fact := (n, a[n]);
        assert f.0 in a && a[f.0] == f.1;
        var k :| 0 <= k < |facts| && facts[k] == f;
      }
      forall n | n in b
        ensures n in a
      {
        var f: Fact := (n, b[n]);
        assert f.0 in b && b[f.0] == f.1;
        var k :| 0 <= k < |facts| && facts[k] == f;
      }
    }
    if a == b {
      forall k | 0 <= k < |facts| && IsLabel(c, facts[k])
        ensures Asked(c, facts[k].0) <==> k < db.hostPage
      {
        var f := facts[k];
        assert f.0 in a && a[f.0] == f.1 <==> f.0 in b && b[f.0] == f.1;
      }
    }
  }

  /** Bulk refines per-host: the two routes return the same map if and only if, for every host, they
      give it the same labels and the bulk query does not hide all of its facts. */
  lemma RoutesAgree(db: FactDb, c: BulkConfig, hosts: seq<Host>, order: seq<nat>)
    requires Serves(db, c, hosts) && DistinctNames(hosts) && Schedule(order, |Split(c.search, hosts)|)
    ensures BulkMap(db, c, hosts, order) == PerHostMap(db, c, hosts)
        <==> forall h :: h in hosts ==> SameLabels(db, c, h) && SomeFactAsked(db, c, h)
  {
    hide Split, BulkMap, PerHostMap, SameLabels, Asked, IsLabel;
    var a, b := BulkMap(db, c, hosts, order), PerHostMap(db, c, hosts);
    forall h | h in hosts
      ensures FactsOf(a, h.name) == FactsOf(b, h.name) <==> SameLabels(db, c, h)
      ensures (h.name in a <==> h.name in b) <==> SomeFactAsked(db, c, h)
    {
      HostAgrees(db, c, hosts, order, h);
      HostListed(db, c, hosts, order, h);
    }
    if forall h :: h in hosts ==> SameLabels(db, c, h) && SomeFactAsked(db, c, h) {
      forall name
        ensures (name in a <==> name in b) && FactsOf(a, name) == FactsOf(b, name)
      {
        if !Named(hosts, name) {
          StrangerIsAbsent(db, c, hosts, order, name);
        }
      }
      SameFacts(a, b);
    }
  }

  lemma HostListed(db: FactDb, c: BulkConfig, hosts: seq<Host>, order: seq<nat>, h: Host)
    requires Serves(db, c, hosts) && DistinctNames(hosts) && Schedule(order, |Split(c.search, hosts)|) && h in hosts
    ensures (h.name in BulkMap(db, c, hosts, order) <==> h.name in PerHostMap(db, c, hosts)) <==> SomeFactAsked(db, c, h)
  {
    hide Split, BulkMap, PerHostMap, Asked;
    var facts := db.table(h.id);
    BulkHost(db, c, hosts, order, h, ("", ""));
    PerHostHost(db, c, hosts, h, ("", ""));
    if h.name in BulkMap(db, c, hosts, order) {
      var g :| BulkHas(db, c, h, g);
      var k :| 0 <= k < |facts| && facts[k] == g;
    } else if k :| 0 <= k < |facts| && Asked(c, facts[k].0) {
      BulkHost(db, c, hosts, order, h, facts[k]);
      assert false;
    }
  }

  lemma StrangerIsAbsent(db: FactDb, c: BulkConfig, hosts: seq<Host>, order: seq<nat>, name: string)
    requires Serves(db, c, hosts) && DistinctNames(hosts) && Schedule(order, |Split(c.search, hosts)|)
    requires !Named(hosts, name)
    ensures name !in BulkMap(db, c, hosts, order) && name !in PerHostMap(db, c, hosts)
  {
    hide Split, CommitAll, PerHostMap, FilterFacts, NamesItsHosts;
    PerHostAt(db, c, hosts, name);
    ServerNamesItsHosts(db, c, hosts);
    Accounting(c, db.Serve, hosts, order);
  }

  /** Without server-side names the routes agree whenever every host fits the single page. */
  lemma RoutesAgreeWithoutNames(db: FactDb, c: BulkConfig, hosts: seq<Host>, order: seq<nat>)
    requires Serves(db, c, hosts) && DistinctNames(hosts) && Schedule(order, |Split(c.search, hosts)|)
    requires NonEmpty(c.search.factNames) == []
    requires forall h :: h in hosts ==> |db.table(h.id)| <= db.hostPage
    ensures BulkMap(db, c, hosts, order) == PerHostMap(db, c, hosts)
  {
    hide BulkMap, PerHostMap;
    RoutesAgree(db, c, hosts, order);
    forall h | h in hosts
      ensures SomeFactAsked(db, c, h)
    {
      if db.table(h.id) != [] {
        assert Asked(c, db.table(h.id)[0].0);
      }
    }
  }

  /** With names that cover every fact the filter keeps, they agree on the labels of every host, and so
      on every host that keeps a fact; they may still differ in listing a host without labels. */
  lemma RoutesAgreeOnLabels(db: FactDb, c: BulkConfig, hosts: seq<Host>, order: seq<nat>, h: Host)
    requires Serves(db, c, hosts) && DistinctNames(hosts) && Schedule(order, |Split(c.search, hosts)|) && h in hosts
    requires forall f :: Kept(c.flt, f) ==> Asked(c, f)
    requires |db.table(h.id)| <= db.hostPage
    ensures FactsOf(BulkMap(db, c, hosts, order), h.name) == FactsOf(PerHostMap(db, c, hosts), h.name)
    ensures h.name in BulkMap(db, c, hosts, order) ==> h.name in PerHostMap(db, c, hosts)
  {
    hide BulkMap, PerHostMap;
    HostAgrees(db, c, hosts, order, h);
    BulkHost(db, c, hosts, order, h, ("", ""));
    PerHostHost(db, c, hosts, h, ("", ""));
  }

  /* ---- fleets on which they differ ---- */

  const LONE_HOST: Host := Host(1, "h")

  /** A server of that one host, with large pages on the bulk route. */
  function LoneServer(facts: seq<Fact>, rows: seq<Row>, hostPage: nat): FactDb {
    FactDb((id: int) => facts, (ids: seq<int>) => rows, 10, 10, hostPage)
  }

  function LoneConfig(names: seq<string>, flt: FactFilter): BulkConfig {
    BulkConfig(SearchConfig("", "or", names, 10, 1000), 10, 10, flt)
  }

  lemma LoneBatch(c: SearchConfig)
    ensures Split(c, [LONE_HOST]) == [[LONE_HOST]]
  {
    hide Shrink;
    assert [LONE_HOST][..1] == [LONE_HOST];
    assert [LONE_HOST][1..] == [];
  }

  const TWO_FACTS: seq<Fact> := [("a", "x"), ("b", "y")]

  /** One host with two facts, and one fact per page on the per-host route, which reads a single page:
      the second fact is lost there. */
  lemma SinglePageLosesFacts(order: seq<nat>)
    requires var c := LoneConfig([], FactFilter(None, None)); Schedule(order, |Split(c.search, [LONE_HOST])|)
    ensures
      var db := LoneServer(TWO_FACTS, [Row("h", "a", "x"), Row("h", "b", "y")], 1);
      var c := LoneConfig([], FactFilter(None, None));
      && Serves(db, c, [LONE_HOST]) && DistinctNames([LONE_HOST])
      && BulkMap(db, c, [LONE_HOST], order) != PerHostMap(db, c, [LONE_HOST])
      && "b" in FactsOf(BulkMap(db, c, [LONE_HOST], order), "h")
      && "b" !in FactsOf(PerHostMap(db, c, [LONE_HOST]), "h")
  {
    hide Split, BulkMap, PerHostMap;
    var c := LoneConfig([], FactFilter(None, None));
    var rows := [Row("h", "a", "x"), Row("h", "b", "y")];
    var db := LoneServer(TWO_FACTS, rows, 1);
    LoneBatch(c.search);
    assert db.rows(IdsOf([LONE_HOST])) == rows && db.table(LONE_HOST.id) == TWO_FACTS;
    forall r | r in rows
      ensures IsRowOf(db, c, LONE_HOST, r)
    {
      assert TWO_FACTS[if r == rows[0] then 0 else 1] == (r.fact, r.value);
    }
    forall h, r | h in [LONE_HOST] && IsRowOf(db, c, h, r)
      ensures r in rows
    {
      assert r == rows[0] || r == rows[1];
    }
    assert LONE_HOST in [LONE_HOST];
    assert Serves(db, c, [LONE_HOST]);
    BulkHost(db, c, [LONE_HOST], order, LONE_HOST, ("b", "y"));
    assert TWO_FACTS[1] == ("b", "y") && BulkHas(db, c, LONE_HOST, ("b", "y"));
    PerHostAt(db, c, [LONE_HOST], "h");
    FirstFactOnly();
  }

  lemma FirstFactOnly()
    ensures FactMap(TWO_FACTS[..1]) == map["a" := "x"]
  {
    assert TWO_FACTS[..1] == [("a", "x")];
  }

  /** One host whose only fact is not among the names asked for and is filtered out: the per-host route
      lists the host without labels, the bulk route does not list it. */
  lemma NamesHideHosts(order: seq<nat>)
    requires var c := LoneConfig(["q"], FactFilter(Some(OnlyQ()), None)); Schedule(order, |Split(c.search, [LONE_HOST])|)
    ensures
      var db := LoneServer([("a", "x")], [], 10);
      var c := LoneConfig(["q"], FactFilter(Some(OnlyQ()), None));
      && Serves(db, c, [LONE_HOST]) && DistinctNames([LONE_HOST])
      && "h" !in BulkMap(db, c, [LONE_HOST], order)
      && "h" in PerHostMap(db, c, [LONE_HOST]) && PerHostMap(db, c, [LONE_HOST])["h"] == map[]
  {
    hide Split, BulkMap, PerHostMap;
    var c := LoneConfig(["q"], FactFilter(Some(OnlyQ()), None));
    var db := LoneServer([("a", "x")], [], 10);
    LoneBatch(c.search);
    assert NonEmpty(["q"]) == ["q"];
    assert Serves(db, c, [LONE_HOST]);
    BulkHost(db, c, [LONE_HOST], order, LONE_HOST, ("a", "x"));
    PerHostAt(db, c, [LONE_HOST], "h");
    assert LONE_HOST in [LONE_HOST];
    assert [("a", "x")][..1] == [("a", "x")];
  }

  function OnlyQ(): string -> bool {
    name => name == "q"
  }
}
