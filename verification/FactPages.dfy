/** Fetching every fact of one batch of hosts, page by page (`GetFactValuesBatch`). */
module FactPages {
  import opened Wrappers
  import opened Batches

  type Facts = map<string, string>
  type HostFacts = map<string, Facts>

  /** A reply to one request for a page; perPage is what the server says it applied. */
  datatype Reply = Failed(error: string) | Page(perPage: int, results: HostFacts)

  datatype BatchResult = BatchResult(
    hostIds: seq<int>, facts: HostFacts, missing: seq<string>, pages: nat, truncated: bool, err: Option<string>)

  const DEFAULT_FACT_PER_PAGE: int := 10000
  const DEFAULT_FACT_MAX_PAGES: int := 10

  function OrDefault(n: int, default: int): (r: int)
    requires default > 0
    ensures r > 0 && (r == n || (n < 1 && r == default))
  {
    if n <= 0 then default else n
  }

  /* ---- maps of maps ---- */

  function FactsOf(m: HostFacts, host: string): Facts {
    if host in m then m[host] else map[]
  }

  function MergeFacts(a: HostFacts, b: HostFacts): HostFacts {
    map host | host in a.Keys + b.Keys :: FactsOf(a, host) + FactsOf(b, host)
  }

  /** The (host, fact) pairs of a reply; their number is its number of rows. */
  function RowKeys(m: HostFacts): set<(string, string)> {
    set host, fact | host in m.Keys && fact in m[host].Keys :: (host, fact)
  }

  /** The number of rows of a reply. */
  function RowCount(m: HostFacts): nat {
    |RowKeys(m)|
  }

  ghost function Restrict(m: HostFacts, hosts: set<string>): HostFacts {
    map host | host in m && host in hosts :: m[host]
  }

  lemma RowCountAddHost(m: HostFacts, hosts: set<string>, host: string)
    requires host in m && host !in hosts
    ensures RowCount(Restrict(m, hosts + {host})) == RowCount(Restrict(m, hosts)) + |m[host]|
  {
    hide RowKeys, Restrict;
    var added := set fact | fact in m[host].Keys :: (host, fact);
    PairsCount(host, m[host].Keys);
    RowKeysAddHost(m, hosts, host, added);
    assert |m[host].Keys| == |m[host]|;
  }

  lemma RowKeysAddHost(m: HostFacts, hosts: set<string>, host: string, added: set<(string, string)>)
    requires host in m && host !in hosts && added == set fact | fact in m[host].Keys :: (host, fact)
    ensures RowKeys(Restrict(m, hosts + {host})) == RowKeys(Restrict(m, hosts)) + added
    ensures RowKeys(Restrict(m, hosts)) !! added
  {
    var before, after := RowKeys(Restrict(m, hosts)), RowKeys(Restrict(m, hosts + {host}));
    forall h, f
      ensures (h, f) in after <==> (h, f) in before || (h, f) in added
    {
    }
  }

  lemma MergeAt(a: HostFacts, b: HostFacts, host: string)
    ensures host in MergeFacts(a, b) <==> host in a || host in b
    ensures FactsOf(MergeFacts(a, b), host) == FactsOf(a, host) + FactsOf(b, host)
  {
    var nothing: Facts := map[];
    assert nothing + nothing == nothing;
  }

  /** Merging one more host, whose facts the first page may have in part. */
  function PutFacts(m: HostFacts, host: string, facts: Facts): HostFacts {
    m[host := FactsOf(m, host) + facts]
  }

  lemma PutAt(m: HostFacts, host: string, facts: Facts, h: string)
    ensures h in PutFacts(m, host, facts) <==> h in m || h == host
    ensures FactsOf(PutFacts(m, host, facts), h) == FactsOf(m, h) + (if h == host then facts else map[])
  {
    assert FactsOf(m, h) + map[] == FactsOf(m, h);
  }

  lemma SameFacts(x: HostFacts, y: HostFacts)
    requires forall h :: (h in x <==> h in y) && FactsOf(x, h) == FactsOf(y, h)
    ensures x == y
  {
    forall h | h in x
      ensures x[h] == y[h]
    {
      assert FactsOf(x, h) == FactsOf(y, h);
    }
  }

  /** Merging and putting commute. */
  lemma MergePut(a: HostFacts, g: HostFacts, host: string, facts: Facts)
    ensures MergeFacts(a, PutFacts(g, host, facts)) == PutFacts(MergeFacts(a, g), host, facts)
  {
    hide MergeFacts, PutFacts, FactsOf;
    var x, y := MergeFacts(a, PutFacts(g, host, facts)), PutFacts(MergeFacts(a, g), host, facts);
    forall h
      ensures (h in x <==> h in y) && FactsOf(x, h) == FactsOf(y, h)
    {
      MergePutAt(a, g, host, facts, h);
    }
    SameFacts(x, y);
  }

  lemma MergePutAt(a: HostFacts, g: HostFacts, host: string, facts: Facts, h: string)
    ensures
      var x, y := MergeFacts(a, PutFacts(g, host, facts)), PutFacts(MergeFacts(a, g), host, facts);
      (h in x <==> h in y) && FactsOf(x, h) == FactsOf(y, h)
  {
    hide MergeFacts, PutFacts, FactsOf;
    MergeAt(a, PutFacts(g, host, facts), h);
    PutAt(g, host, facts, h);
    PutAt(MergeFacts(a, g), host, facts, h);
    MergeAt(a, g, h);
    var added: Facts := if h == host then facts else map[];
    LaterFactsWin(FactsOf(a, h), FactsOf(g, h), added);
  }

  lemma LaterFactsWin(a: Facts, b: Facts, c: Facts)
    ensures a + (b + c) == a + b + c
  {
  }

  lemma MergeAddHost(a: HostFacts, m: HostFacts, hosts: set<string>, host: string)
    requires host in m && host !in hosts
    ensures MergeFacts(a, Restrict(m, hosts + {host})) == PutFacts(MergeFacts(a, Restrict(m, hosts)), host, m[host])
  {
    hide MergeFacts;
    var r := Restrict(m, hosts);
    assert FactsOf(r, host) == map[] && map[] + m[host] == m[host];
    assert Restrict(m, hosts + {host}) == PutFacts(r, host, m[host]);
    MergePut(a, r, host, m[host]);
  }

  lemma {:induction false} PairsCount(host: string, facts: set<string>)
    ensures |set fact | fact in facts :: (host, fact)| == |facts|
    decreases facts
  {
    var pairs := set fact | fact in facts :: (host, fact);
    if facts == {} {
      assert pairs == {};
    } else {
      var x :| x in facts;
      PairsCount(host, facts - {x});
      assert pairs == (set fact | fact in facts - {x} :: (host, fact)) + {(host, x)};
    }
  }

  /** Merges a page into what the batch has so far, in whatever order the reply is visited. */
  method MergePage(facts: HostFacts, results: HostFacts) returns (merged: HostFacts, rows: nat)
    ensures merged == MergeFacts(facts, results)
    ensures rows == RowCount(results)
  {
    hide RowCount, MergeFacts, Restrict, PutFacts;
    merged, rows := facts, 0;
    var todo := results.Keys;
    NothingMerged(facts, results);
    while todo != {}
      invariant todo <= results.Keys
      invariant merged == MergeFacts(facts, Restrict(results, results.Keys - todo))
      invariant rows == RowCount(Restrict(results, results.Keys - todo))
      decreases todo
    {
      var host :| host in todo;
      ghost var done := results.Keys - todo;
      MergeAddHost(facts, results, done, host);
      RowCountAddHost(results, done, host);
      merged := MergeHost(merged, host, results[host]);
      rows := rows + |results[host]|;
      todo := todo - {host};
      assert results.Keys - todo == done + {host};
    }
    assert results.Keys - todo == results.Keys;
    RestrictToAll(results);
  }

  lemma RestrictToAll(m: HostFacts)
    ensures Restrict(m, m.Keys) == m
  {
  }

  lemma NothingMerged(facts: HostFacts, results: HostFacts)
    ensures MergeFacts(facts, Restrict(results, {})) == facts
    ensures MergeFacts(facts, map[]) == facts
    ensures RowCount(Restrict(results, {})) == 0
    ensures results.Keys - results.Keys == {}
  {
    forall h | h in facts
      ensures facts[h] + map[] == facts[h]
    {
    }
    assert RowKeys(Restrict(results, {})) == {};
  }

  method MergeHost(into: HostFacts, host: string, facts: Facts) returns (merged: HostFacts)
    ensures merged == PutFacts(into, host, facts)
  {
    var own: Facts := map[];
    if host in into {
      own := into[host];
    }
    var todo := facts.Keys;
    while todo != {}
      invariant todo <= facts.Keys
      invariant own == FactsOf(into, host) + (map k | k in facts.Keys - todo :: facts[k])
      decreases todo
    {
      var k :| k in todo;
      own := own[k := facts[k]];
      todo := todo - {k};
    }
    assert facts.Keys - todo == facts.Keys;
    assert (map k | k in facts.Keys :: facts[k]) == facts;
    assert own == FactsOf(into, host) + facts;
    merged := into[host := own];
  }

  /* ---- missing hosts ---- */

  function Missing(hosts: seq<Host>, facts: HostFacts): seq<string> {
    if hosts == [] then []
    else
      var last := hosts[|hosts| - 1].name;
      Missing(hosts[..|hosts| - 1], facts) + (if last in facts then [] else [last])
  }

  method MissingHosts(hosts: seq<Host>, facts: HostFacts) returns (missing: seq<string>)
    ensures missing == Missing(hosts, facts)
  {
    missing := [];
    for i := 0 to |hosts|
      invariant missing == Missing(hosts[..i], facts)
    {
      assert hosts[..i + 1][..i] == hosts[..i];
      if hosts[i].name !in facts {
        missing := missing + [hosts[i].name];
      }
    }
    assert hosts[..|hosts|] == hosts;
  }

  lemma {:induction false} MissingAreAbsent(hosts: seq<Host>, facts: HostFacts, name: string)
    ensures name in Missing(hosts, facts) <==> name !in facts && exists h :: h in hosts && h.name == name
  {
    if hosts != [] {
      var init, last := hosts[..|hosts| - 1], hosts[|hosts| - 1];
      MissingAreAbsent(init, facts, name);
      assert hosts == init + [last];
    }
  }

  /* ---- following pages ---- */

  /** What following pages from `page` on makes of any replies, given the facts so far. */
  function FollowPages(fetch: nat -> Reply, hosts: seq<Host>, perPage: int, maxPages: nat, page: nat, facts: HostFacts):
    BatchResult
    requires 1 <= page
    decreases maxPages + 1 - page
  {
    if page > maxPages then
      BatchResult(IdsOf(hosts), facts, Missing(hosts, facts), page - 1, true, None)
    else
      match fetch(page)
      case Failed(error) => BatchResult(IdsOf(hosts), facts, [], page - 1, false, Some(error))
      case Page(echoed, results) =>
        var merged := MergeFacts(facts, results);
        if RowCount(results) < (if echoed <= 0 then perPage else echoed) then
          BatchResult(IdsOf(hosts), merged, Missing(hosts, merged), page, false, None)
        else
          FollowPages(fetch, hosts, perPage, maxPages, page + 1, merged)
  }

  function BatchOutcome(fetch: nat -> Reply, hosts: seq<Host>, factPerPage: int, factMaxPages: int): BatchResult {
    FollowPages(fetch, hosts, OrDefault(factPerPage, DEFAULT_FACT_PER_PAGE),
                OrDefault(factMaxPages, DEFAULT_FACT_MAX_PAGES), 1, map[])
  }

  method GetFactValuesBatch(fetch: nat -> Reply, hosts: seq<Host>, factPerPage: int, factMaxPages: int)
    returns (res: BatchResult)
    ensures res == BatchOutcome(fetch, hosts, factPerPage, factMaxPages)
  {
    hide MergeFacts, RowCount, Missing;
    var ids := CollectIds(hosts);
    res := BatchResult(ids, map[], [], 0, false, None);
    var perPage := factPerPage;
    if perPage <= 0 {
      perPage := DEFAULT_FACT_PER_PAGE;
    }
    var maxPages := factMaxPages;
    if maxPages <= 0 {
      maxPages := DEFAULT_FACT_MAX_PAGES;
    }
    var page := 1;
    while page <= maxPages
      invariant 1 <= page <= maxPages + 1
      invariant res == BatchResult(ids, res.facts, [], page - 1, false, None)
      invariant BatchOutcome(fetch, hosts, factPerPage, factMaxPages)
             == FollowPages(fetch, hosts, perPage, maxPages, page, res.facts)
      decreases maxPages - page
    {
      match fetch(page) {
        case Failed(error) =>
          res := res.(err := Some(error), pages := page - 1);
          return;
        case Page(echoed, results) =>
          var effPerPage := echoed;
          if effPerPage <= 0 {
            effPerPage := perPage;
          }
          var merged, rows := MergePage(res.facts, results);
          res := res.(facts := merged, pages := page);
          if rows < effPerPage {
            var missing := MissingHosts(hosts, merged);
            res := res.(missing := missing);
            return;
          }
      }
      page := page + 1;
    }
    var missing := MissingHosts(hosts, res.facts);
    res := res.(truncated := true, missing := missing);
  }

  /* ---- a server with fixed rows ---- */

  datatype Row = Row(host: string, fact: string, value: string)

  ghost predicate DistinctKeys(rows: seq<Row>) {
    forall i, j :: 0 <= i < j < |rows| ==> (rows[i].host, rows[i].fact) != (rows[j].host, rows[j].fact)
  }

  /** The rows as the server groups them in a reply. */
  function Group(rows: seq<Row>): HostFacts {
    if rows == [] then map[]
    else
      var m, r := Group(rows[..|rows| - 1]), rows[|rows| - 1];
      PutFacts(m, r.host, map[r.fact := r.value])
  }

  /** A server that answers from fixed rows, at most e a page, and echoes the page size it applies
      (or nothing, if it applies the one asked for). */
  datatype Server = Server(rows: seq<Row>, e: nat, echoed: int) {
    ghost predicate Valid(perPage: int) {
      e >= 1 && DistinctKeys(rows) && (echoed == e || (echoed <= 0 && perPage == e))
    }

    function Slice(page: nat): seq<Row>
      requires page >= 1
    {
      var from := (page - 1) * e;
      rows[Min(from, |rows|)..Min(from + e, |rows|)]
    }

    function Fetch(page: nat): Reply {
      Page(echoed, if page == 0 then map[] else Group(Slice(page)))
    }
  }

  lemma {:induction false} MergeGroups(a: seq<Row>, b: seq<Row>)
    ensures MergeFacts(Group(a), Group(b)) == Group(a + b)
    decreases |b|
  {
    hide MergeFacts;
    if b == [] {
      assert a + b == a;
      NothingMerged(Group(a), map[]);
    } else {
      var init, r := b[..|b| - 1], b[|b| - 1];
      MergeGroups(a, init);
      assert (a + b)[..|a + b| - 1] == a + init;
      MergePut(Group(a), Group(init), r.host, map[r.fact := r.value]);
    }
  }

  lemma {:induction false} GroupKeys(rows: seq<Row>)
    requires DistinctKeys(rows)
    ensures |RowKeys(Group(rows))| == |rows|
    ensures RowKeys(Group(rows)) == set r | r in rows :: (r.host, r.fact)
  {
    hide RowKeys;
    NoRowKeys();
    if rows != [] {
      var init, r := rows[..|rows| - 1], rows[|rows| - 1];
      GroupKeys(init);
      assert rows == init + [r];
      AddRowKey(Group(init), r);
      assert (r.host, r.fact) !in RowKeys(Group(init));
    }
  }

  lemma NoRowKeys()
    ensures RowKeys(map[]) == {}
  {
  }

  lemma AddRowKey(m: HostFacts, r: Row)
    ensures RowKeys(PutFacts(m, r.host, map[r.fact := r.value])) == RowKeys(m) + {(r.host, r.fact)}
  {
    var m' := PutFacts(m, r.host, map[r.fact := r.value]);
    forall h, f
      ensures (h, f) in RowKeys(m') <==> (h, f) in RowKeys(m) || (h, f) == (r.host, r.fact)
    {
    }
  }

  lemma GroupRowCount(rows: seq<Row>)
    requires DistinctKeys(rows)
    ensures RowCount(Group(rows)) == |rows|
  {
    GroupKeys(rows);
  }

  /** A grouped reply holds exactly the rows: every row, and nothing but rows. */
  lemma {:induction false} GroupHoldsRows(rows: seq<Row>, host: string, fact: string, value: string)
    requires DistinctKeys(rows)
    ensures host in Group(rows) && fact in Group(rows)[host] && Group(rows)[host][fact] == value
        <==> Row(host, fact, value) in rows
    ensures host in Group(rows) <==> exists r :: r in rows && r.host == host
  {
    if rows != [] {
      var init, r := rows[..|rows| - 1], rows[|rows| - 1];
      GroupHoldsRows(init, host, fact, value);
      assert rows == init + [r];
    }
  }

  lemma {:induction false} FollowFixed(s: Server, hosts: seq<Host>, perPage: int, maxPages: nat, page: nat)
    requires s.Valid(perPage) && 1 <= page <= maxPages + 1 && (page - 1) * s.e <= |s.rows|
    ensures FollowPages(s.Fetch, hosts, perPage, maxPages, page, Group(s.rows[..(page - 1) * s.e]))
         == FixedOutcome(s, hosts, maxPages)
    decreases maxPages + 1 - page
  {
    hide Group, MergeFacts, Missing, RowKeys, RowCount;
    var from := (page - 1) * s.e;
    PageArithmetic(|s.rows|, s.e, maxPages, page);
    if page <= maxPages {
      var slice := s.Slice(page);
      assert from + s.e == page * s.e by { PageEnd(page, s.e); }
      assert s.rows[..from] + slice == s.rows[..Min(from + s.e, |s.rows|)];
      MergeGroups(s.rows[..from], slice);
      GroupRowCount(slice);
      if from + s.e <= |s.rows| {
        FollowFixed(s, hosts, perPage, maxPages, page + 1);
      } else {
        assert s.rows[..|s.rows|] == s.rows;
      }
    }
  }

  lemma PageEnd(page: nat, e: nat)
    requires page >= 1
    ensures (page - 1) * e + e == page * e
  {
  }

  lemma PageArithmetic(n: nat, e: nat, maxPages: nat, page: nat)
    requires e >= 1 && 1 <= page <= maxPages + 1 && (page - 1) * e <= n
    ensures page == maxPages + 1 ==> n >= maxPages * e
    ensures page <= maxPages && n < page * e ==> n < maxPages * e && n / e == page - 1
  {
    if page <= maxPages && n < page * e {
      assert page * e <= maxPages * e;
      assert (page - 1) * e <= n < (page - 1) * e + e;
      assert n == (page - 1) * e + (n - (page - 1) * e);
      DivUnique(n, e, page - 1);
    }
  }

  lemma DivUnique(n: nat, e: nat, q: nat)
    requires e >= 1 && q * e <= n < q * e + e
    ensures n / e == q
  {
    var d := n / e;
    assert n == d * e + n % e && 0 <= n % e < e;
    MulMono(d + 1, q, e);
    MulMono(q + 1, d, e);
  }

  lemma MulMono(x: nat, y: nat, e: nat)
    ensures x <= y ==> x * e <= y * e
  {
  }

  /** What a batch against a fixed server comes to. */
  function FixedOutcome(s: Server, hosts: seq<Host>, maxPages: nat): BatchResult
    requires s.e >= 1
  {
    if |s.rows| >= maxPages * s.e then
      var facts := Group(s.rows[..maxPages * s.e]);
      BatchResult(IdsOf(hosts), facts, Missing(hosts, facts), maxPages, true, None)
    else
      BatchResult(IdsOf(hosts), Group(s.rows), Missing(hosts, Group(s.rows)), |s.rows| / s.e + 1, false, None)
  }

  /** Page following is complete. The batch is truncated exactly when the rows fill all the pages it
      may fetch; otherwise it fetches one page more than it can fill, has every row and no other, also
      of hosts that straddle pages, and misses exactly the requested hosts that have no row. */
  lemma PagesAreComplete(s: Server, hosts: seq<Host>, factPerPage: int, factMaxPages: int)
    requires s.Valid(OrDefault(factPerPage, DEFAULT_FACT_PER_PAGE))
    ensures
      var r := BatchOutcome(s.Fetch, hosts, factPerPage, factMaxPages);
      && r.err == None
      && (r.truncated <==> |s.rows| >= OrDefault(factMaxPages, DEFAULT_FACT_MAX_PAGES) * s.e)
      && (!r.truncated ==>
            && r.pages == |s.rows| / s.e + 1
            && (forall h, f, v :: h in r.facts && f in r.facts[h] && r.facts[h][f] == v <==> Row(h, f, v) in s.rows)
            && (forall h :: h in r.facts <==> exists row :: row in s.rows && row.host == h)
            && (forall n :: n in r.missing <==>
                  (exists h :: h in hosts && h.name == n) && !exists row :: row in s.rows && row.host == n))
  {
    hide Group, Missing, FollowPages;
    var perPage, maxPages := OrDefault(factPerPage, DEFAULT_FACT_PER_PAGE), OrDefault(factMaxPages, DEFAULT_FACT_MAX_PAGES);
    FixedBatch(s, hosts, factPerPage, factMaxPages);
    if |s.rows| < maxPages * s.e {
      forall h, f, v
        ensures h in Group(s.rows) && f in Group(s.rows)[h] && Group(s.rows)[h][f] == v <==> Row(h, f, v) in s.rows
        ensures h in Group(s.rows) <==> exists row :: row in s.rows && row.host == h
      {
        GroupHoldsRows(s.rows, h, f, v);
      }
      forall h
        ensures h in Group(s.rows) <==> exists row :: row in s.rows && row.host == h
      {
        GroupHoldsRows(s.rows, h, "", "");
      }
      forall n
        ensures n in Missing(hosts, Group(s.rows)) <==>
                n !in Group(s.rows) && exists h :: h in hosts && h.name == n
      {
        MissingAreAbsent(hosts, Group(s.rows), n);
      }
    }
  }

  lemma FixedBatch(s: Server, hosts: seq<Host>, factPerPage: int, factMaxPages: int)
    requires s.Valid(OrDefault(factPerPage, DEFAULT_FACT_PER_PAGE))
    ensures BatchOutcome(s.Fetch, hosts, factPerPage, factMaxPages)
         == FixedOutcome(s, hosts, OrDefault(factMaxPages, DEFAULT_FACT_MAX_PAGES))
  {
    hide FollowPages;
    var perPage, maxPages := OrDefault(factPerPage, DEFAULT_FACT_PER_PAGE), OrDefault(factMaxPages, DEFAULT_FACT_MAX_PAGES);
    assert Group(s.rows[..(1 - 1) * s.e]) == map[];
    FollowFixed(s, hosts, perPage, maxPages, 1);
  }
}
