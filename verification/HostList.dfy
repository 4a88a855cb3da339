/** Listing the fleet page by page (`foreman/foreman.go`). The fan-out over pages is
    `FanOut.InOrder`, which is what that protocol is proved to return. */
module HostList {
  import opened Wrappers
  import opened Batches
  import opened FanOut

  datatype HostPage = HostPage(total: int, subtotal: Option<int>, page: int, perPage: int, results: seq<Host>)

  datatype PageReply = PageFailed | PageOk(resp: HostPage)

  /** A request for a page, given its number and the page size asked for. */
  type Fetch = (int, int) -> PageReply

  const DEFAULT_HOST_LIST_PER_PAGE: int := 5000

  /* ---- page arithmetic ---- */

  function ExpectedHosts(resp: HostPage): int {
    match resp.subtotal
    case Some(n) => n
    case None => resp.total
  }

  function CeilDiv(a: int, b: int): int
    requires b > 0
  {
    -((-a) / b)
  }

  /** The smaller of the limit, if there is one, and n. */
  function Limited(limit: int, n: int): (r: int)
    ensures r <= n && (limit != 0 ==> r <= limit)
    ensures r == n || (limit != 0 && r == limit)
  {
    if limit != 0 && limit < n then limit else n
  }

  function PageCount(limit: int, expected: int, perPage: int): (pages: int)
    ensures perPage <= 0 || expected <= 0 ==> pages == 0
  {
    if perPage <= 0 || expected <= 0 then 0 else CeilDiv(Limited(limit, expected), perPage)
  }

  /** A number of pages covers the hosts wanted exactly when it is at least the planned one. */
  lemma PageCountIsLeast(limit: int, expected: int, perPage: int, pages: int)
    requires expected > 0 && perPage > 0
    ensures Limited(limit, expected) <= pages * perPage <==> PageCount(limit, expected, perPage) <= pages
  {
    var wanted, planned := Limited(limit, expected), PageCount(limit, expected, perPage);
    CeilBounds(wanted, perPage);
    hide CeilDiv;
    if planned <= pages {
      Monotone(planned, pages, perPage);
    } else {
      Monotone(pages, planned - 1, perPage);
    }
  }

  lemma CeilBounds(a: int, b: int)
    requires b > 0
    ensures (CeilDiv(a, b) - 1) * b < a <= CeilDiv(a, b) * b
  {
  }

  lemma Monotone(x: int, y: int, b: int)
    requires x <= y && b > 0
    ensures x * b <= y * b
  {
  }

  lemma PageCountCovers(limit: int, expected: int, perPage: int)
    requires limit >= 0 && expected > 0 && perPage > 0
    ensures
      var pages, wanted := PageCount(limit, expected, perPage), Limited(limit, expected);
      pages >= 1 && (pages - 1) * perPage < wanted <= pages * perPage
  {
  }

  /** The page numbers from..last. */
  function Pages(from: int, last: int): (r: seq<int>)
    ensures |r| == if from <= last then last - from + 1 else 0
    ensures forall k :: 0 <= k < |r| ==> r[k] == from + k
    decreases last - from
  {
    if from > last then [] else Pages(from, last - 1) + [last]
  }

  method ListPages(from: int, last: int) returns (pages: seq<int>)
    ensures pages == Pages(from, last)
  {
    pages := [];
    var page := from;
    while page <= last
      invariant from <= page && (page <= last + 1 || page == from)
      invariant pages == Pages(from, page - 1)
    {
      pages := pages + [page];
      page := page + 1;
    }
  }

  function PageReplies(pages: seq<int>, perPage: int, fetch: Fetch): nat -> PageReply {
    (k: nat) => if k < |pages| then fetch(pages[k], perPage) else PageFailed
  }

  /** `GetHostWithConcurrency`: one reply a page, in page order. */
  function Gather(pages: seq<int>, perPage: int, fetch: Fetch): (r: seq<Indexed<PageReply>>)
    ensures |r| == |pages|
  {
    InOrder(|pages|, PageReplies(pages, perPage, fetch))
  }

  /** That is what the bounded fan-out returns under every schedule that runs to its end. */
  lemma GatherUnderAnySchedule(limit: nat, pages: seq<int>, perPage: int, fetch: Fetch,
                               steps: seq<Step>, sorted: seq<Indexed<PageReply>>)
    requires limit >= 1 && Runs(limit, FanOut.Initial(|pages|), steps)
    requires Stuck(limit, After(limit, FanOut.Initial(|pages|), steps))
    requires
      var received := After(limit, FanOut.Initial(|pages|), steps).received;
      IsSortOf(sorted, Collected(received, PageReplies(pages, perPage, fetch)))
    ensures sorted == Gather(pages, perPage, fetch)
  {
    hide Runs, After, Stuck;
    Completion(limit, |pages|, steps);
    SortedIsInOrder(limit, |pages|, steps, PageReplies(pages, perPage, fetch), sorted);
  }

  /* ---- the thin list in front of the fact collection ---- */

  function AskPerPage(limit: int, perPage: int): (ask: int)
    ensures limit == 0 ==> ask == if perPage >= 1 then perPage else 5000
  {
    Limited(limit, if perPage <= 0 then DEFAULT_HOST_LIST_PER_PAGE else perPage)
  }

  /** The hosts of some pages, or nothing if one of them failed. */
  function AllPages(pages: seq<int>, perPage: int, fetch: Fetch): Option<seq<Host>> {
    if pages == [] then Some([])
    else
      var init := AllPages(pages[..|pages| - 1], perPage, fetch);
      match fetch(pages[|pages| - 1], perPage)
      case PageFailed => None
      case PageOk(resp) => if init.None? then None else Some(init.value + resp.results)
  }

  /** The pages that are fetched after the first one. */
  function RestPages(limit: int, first: HostPage, ask: int): seq<int> {
    var effective := if first.perPage <= 0 then ask else first.perPage;
    var pages := PageCount(limit, ExpectedHosts(first), effective);
    if pages > 1 then Pages(first.page + 1, pages) else []
  }

  function ThinList(limit: int, perPage: int, fetch: Fetch): Option<seq<Host>> {
    var ask := AskPerPage(limit, perPage);
    match fetch(1, ask)
    case PageFailed => None
    case PageOk(first) =>
      match AllPages(RestPages(limit, first, ask), ask, fetch)
      case None => None
      case Some(rest) => Some(first.results + rest)
  }

  /** The host list phase of `GetHostsFactsFiltered`; None is its error. */
  method GetThinList(limit: int, hostListPerPage: int, fetch: Fetch) returns (list: Option<seq<Host>>)
    ensures list == ThinList(limit, hostListPerPage, fetch)
  {
    var perPage := hostListPerPage;
    if perPage <= 0 {
      perPage := DEFAULT_HOST_LIST_PER_PAGE;
    }
    if limit != 0 && limit < perPage {
      perPage := limit;
    }
    var reply := fetch(1, perPage);
    if reply.PageFailed? {
      return None;
    }
    var first := reply.resp;
    var hosts := first.results;
    var effPerPage := first.perPage;
    if effPerPage <= 0 {
      effPerPage := perPage;
    }
    var pages := PageCount(limit, ExpectedHosts(first), effPerPage);
    var rest: seq<int> := [];
    if pages > 1 {
      rest := ListPages(first.page + 1, pages);
    }
    assert rest == RestPages(limit, first, perPage);
    var others := CollectPages(rest, perPage, fetch);
    if others.None? {
      return None;
    }
    list := Some(hosts + others.value);
  }

  /** The loop over the gathered pages; the first failure ends it. */
  method CollectPages(pages: seq<int>, perPage: int, fetch: Fetch) returns (hosts: Option<seq<Host>>)
    ensures hosts == AllPages(pages, perPage, fetch)
  {
    var results := Gather(pages, perPage, fetch);
    hosts := Some([]);
    for k := 0 to |results|
      invariant hosts.Some? && hosts == AllPages(pages[..k], perPage, fetch)
    {
      assert pages[..k + 1][..k] == pages[..k];
      match results[k].reply {
        case PageFailed =>
          OneFailureIsFatal(pages, k, perPage, fetch);
          return None;
        case PageOk(resp) =>
          hosts := Some(hosts.value + resp.results);
      }
    }
    assert pages[..|pages|] == pages;
  }

  lemma {:induction false} OneFailureIsFatal(pages: seq<int>, k: nat, perPage: int, fetch: Fetch)
    requires k < |pages| && fetch(pages[k], perPage).PageFailed?
    ensures AllPages(pages, perPage, fetch).None?
  {
    if k < |pages| - 1 {
      OneFailureIsFatal(pages[..|pages| - 1], k, perPage, fetch);
    }
  }

  lemma {:induction false} NoFailureIsComplete(pages: seq<int>, perPage: int, fetch: Fetch)
    requires forall k :: 0 <= k < |pages| ==> fetch(pages[k], perPage).PageOk?
    ensures AllPages(pages, perPage, fetch).Some?
  {
    if pages != [] {
      NoFailureIsComplete(pages[..|pages| - 1], perPage, fetch);
    }
  }

  /** Any failed page yields no list at all, and nothing else does. */
  lemma NoPartialList(limit: int, perPage: int, fetch: Fetch)
    ensures
      var ask := AskPerPage(limit, perPage);
      ThinList(limit, perPage, fetch).None? <==>
        || fetch(1, ask).PageFailed?
        || exists p :: p in RestPages(limit, fetch(1, ask).resp, ask) && fetch(p, ask).PageFailed?
  {
    hide AskPerPage, RestPages, AllPages;
    var ask := AskPerPage(limit, perPage);
    if fetch(1, ask).PageOk? {
      var rest := RestPages(limit, fetch(1, ask).resp, ask);
      if k :| 0 <= k < |rest| && fetch(rest[k], ask).PageFailed? {
        var p := rest[k];
        assert p in rest;
        OneFailureIsFatal(rest, k, ask, fetch);
      } else {
        NoFailureIsComplete(rest, ask, fetch);
      }
    }
  }

  /* ---- a server with a fixed list ---- */

  /** The matching hosts in a fixed order, handed out e a page. The page size applied is echoed unless
      it is the one asked for; the number of matches is the subtotal, or the total on a server that
      does not report subtotals. */
  datatype ListServer = ListServer(all: seq<Host>, e: nat, echoed: int, total: int, subtotal: Option<int>) {
    predicate Valid(ask: int) {
      && 1 <= e <= ask
      && (echoed == e || (echoed <= 0 && ask == e))
      && (if subtotal.Some? then subtotal.value == |all| else total == |all|)
    }

    /** How many hosts lie on the pages up to this one. */
    function Covered(page: int): (n: nat)
      ensures n <= |all|
    {
      if page < 1 || page * e <= 0 then 0 else Min(page * e, |all|)
    }

    function Reply(page: int, perPage: int): PageReply {
      PageOk(HostPage(total, subtotal, page, echoed,
                      if page < 1 || Covered(page - 1) > Covered(page) then [] else all[Covered(page - 1)..Covered(page)]))
    }
  }

  lemma CoveredGrows(s: ListServer, page: int)
    requires page >= 1
    ensures s.Covered(page - 1) <= s.Covered(page)
  {
    assert page * s.e == (page - 1) * s.e + s.e;
  }

  lemma OnePageMore(s: ListServer, first: int, last: int, perPage: int)
    requires 1 <= first <= last && AllPages(Pages(first, last - 1), perPage, s.Reply).Some?
    ensures s.Covered(last - 1) <= s.Covered(last)
    ensures AllPages(Pages(first, last), perPage, s.Reply)
         == Some(AllPages(Pages(first, last - 1), perPage, s.Reply).value + s.all[s.Covered(last - 1)..s.Covered(last)])
  {
    hide ListServer.Covered;
    CoveredGrows(s, last);
    assert Pages(first, last)[..|Pages(first, last)| - 1] == Pages(first, last - 1);
  }

  lemma NoPagesAtAll(first: int, perPage: int, fetch: Fetch)
    ensures AllPages(Pages(first, first - 1), perPage, fetch) == Some([]) == AllPages([], perPage, fetch)
  {
  }

  lemma {:induction false} FixedPages(s: ListServer, first: int, last: int, perPage: int)
    requires 1 <= first <= last + 1
    ensures AllPages(Pages(first, last), perPage, s.Reply).Some?
    ensures s.all[..s.Covered(first - 1)] + AllPages(Pages(first, last), perPage, s.Reply).value == s.all[..s.Covered(last)]
    decreases last
  {
    hide ListServer.Covered, AllPages, Pages;
    if first <= last {
      FixedPages(s, first, last - 1, perPage);
      OnePageMore(s, first, last, perPage);
      var a, b := s.Covered(last - 1), s.Covered(last);
      var before := AllPages(Pages(first, last - 1), perPage, s.Reply).value;
      assert s.all[..a] + s.all[a..b] == s.all[..b];
      assert s.all[..s.Covered(first - 1)] + (before + s.all[a..b])
          == s.all[..s.Covered(first - 1)] + before + s.all[a..b];
    } else {
      NoPagesAtAll(first, perPage, s.Reply);
      assert s.all[..s.Covered(last)] + [] == s.all[..s.Covered(last)];
    }
  }

  /** Under a clamping server the list is a prefix of the matching hosts - so without gaps, repetitions
      or disorder - that covers the hosts wanted and overshoots by less than a page. */
  lemma ListUnderClamping(s: ListServer, limit: int, perPage: int)
    requires limit >= 0 && s.Valid(AskPerPage(limit, perPage))
    ensures
      var list, wanted := ThinList(limit, perPage, s.Reply), Limited(limit, |s.all|);
      && list.Some? && list.value <= s.all
      && wanted <= |list.value| < wanted + s.e
      && (limit == 0 ==> list.value == s.all)
  {
    hide ThinList, PageCount, AllPages;
    var pages := PageCount(limit, |s.all|, s.e);
    if |s.all| == 0 {
      EmptyList(s, limit, perPage);
    } else {
      PageCountCovers(limit, |s.all|, s.e);
      PrefixIsList(s, limit, perPage, pages);
      assert pages * s.e == (pages - 1) * s.e + s.e;
    }
  }

  lemma EmptyList(s: ListServer, limit: int, perPage: int)
    requires s.Valid(AskPerPage(limit, perPage)) && |s.all| == 0
    ensures ThinList(limit, perPage, s.Reply) == Some([])
  {
    var ask := AskPerPage(limit, perPage);
    assert RestPages(limit, s.Reply(1, ask).resp, ask) == [];
    NoPagesAtAll(1, ask, s.Reply);
    var none: seq<Host> := [];
    assert s.Reply(1, ask).resp.results == none && none + none == none;
  }

  lemma PrefixIsList(s: ListServer, limit: int, perPage: int, pages: int)
    requires s.Valid(AskPerPage(limit, perPage)) && pages == PageCount(limit, |s.all|, s.e) && pages >= 1
    ensures ThinList(limit, perPage, s.Reply) == Some(s.all[..s.Covered(pages)])
  {
    hide PageCount, ListServer.Covered;
    var ask := AskPerPage(limit, perPage);
    var first := s.Reply(1, ask).resp;
    CoveredGrows(s, 1);
    NothingCovered(s);
    assert s.all[0..s.Covered(1)] == s.all[..s.Covered(1)];
    assert first.results == s.all[..s.Covered(1)];
    assert RestPages(limit, first, ask) == if pages > 1 then Pages(2, pages) else [];
    if pages > 1 {
      FixedPages(s, 2, pages, ask);
    } else {
      NoPagesAtAll(1, ask, s.Reply);
      assert first.results + [] == first.results;
    }
  }

  lemma NothingCovered(s: ListServer)
    ensures s.Covered(0) == 0
  {
  }

  /* ---- the full list of the host collector ---- */

  datatype ListError = ProbeFailed | Incomplete(expected: int, got: nat, failed: nat, planned: nat)

  datatype HostsResult = HostsResult(hosts: seq<Host>, err: Option<ListError>)

  /** The hosts of the pages that came back, in page order. */
  function GoodPages(pages: seq<int>, perPage: int, fetch: Fetch): seq<Host> {
    if pages == [] then []
    else
      GoodPages(pages[..|pages| - 1], perPage, fetch)
      + match fetch(pages[|pages| - 1], perPage)
        case PageFailed => []
        case PageOk(resp) => resp.results
  }

  function FailedPages(pages: seq<int>, perPage: int, fetch: Fetch): (n: nat)
    ensures n <= |pages|
    ensures n == 0 <==> forall k :: 0 <= k < |pages| ==> fetch(pages[k], perPage).PageOk?
  {
    if pages == [] then 0
    else
      var init := pages[..|pages| - 1];
      assert pages == init + [pages[|pages| - 1]];
      FailedPages(init, perPage, fetch) + (if fetch(pages[|pages| - 1], perPage).PageFailed? then 1 else 0)
  }

  function HostsOutcome(limit: int, perPage: int, probe: PageReply, fetch: Fetch): HostsResult {
    match probe
    case PageFailed => HostsResult([], Some(ProbeFailed))
    case PageOk(resp) =>
      var ask, expected := Limited(limit, perPage), ExpectedHosts(resp);
      var planned := Pages(1, PageCount(limit, expected, ask));
      var got, failed := GoodPages(planned, ask, fetch), FailedPages(planned, ask, fetch);
      var wanted := Limited(limit, expected);
      HostsResult(got,
        if planned != [] && (failed > 0 || |got| < wanted) then Some(Incomplete(wanted, |got|, failed, |planned|)) else None)
  }

  method GetHostsFiltered(limit: int, perPage: int, probe: PageReply, fetch: Fetch) returns (r: HostsResult)
    requires limit >= 0
    ensures r == HostsOutcome(limit, perPage, probe, fetch)
  {
    hide PageCount, Pages, GoodPages, FailedPages;
    var ask := perPage;
    if limit != 0 && limit < ask {
      ask := limit;
    }
    if probe.PageFailed? {
      return HostsResult([], Some(ProbeFailed));
    }
    var expected := ExpectedHosts(probe.resp);
    var pages := PageCount(limit, expected, ask);
    if pages == 0 {
      NoPages(ask, fetch);
      return HostsResult([], None);
    }
    PageCountPositive(limit, expected, ask);
    var planned := ListPages(1, pages);
    assert |planned| == pages;
    var hosts, errCount := CountPages(planned, ask, fetch);
    if limit != 0 && limit < expected {
      expected := limit;
    }
    if errCount > 0 || |hosts| < expected {
      return HostsResult(hosts, Some(Incomplete(expected, |hosts|, errCount, |planned|)));
    }
    return HostsResult(hosts, None);
  }

  lemma NoPages(perPage: int, fetch: Fetch)
    ensures Pages(1, 0) == [] && GoodPages([], perPage, fetch) == []
  {
  }

  /** The loop over the gathered pages; failures are counted and skipped. */
  method CountPages(pages: seq<int>, perPage: int, fetch: Fetch) returns (hosts: seq<Host>, errCount: nat)
    ensures hosts == GoodPages(pages, perPage, fetch) && errCount == FailedPages(pages, perPage, fetch)
  {
    var results := Gather(pages, perPage, fetch);
    hosts, errCount := [], 0;
    for k := 0 to |results|
      invariant hosts == GoodPages(pages[..k], perPage, fetch)
      invariant errCount == FailedPages(pages[..k], perPage, fetch)
    {
      assert pages[..k + 1][..k] == pages[..k];
      match results[k].reply {
        case PageFailed => errCount := errCount + 1;
        case PageOk(resp) => hosts := hosts + resp.results;
      }
    }
    assert pages[..|pages|] == pages;
  }

  lemma PageCountPositive(limit: int, expected: int, perPage: int)
    requires limit >= 0 && PageCount(limit, expected, perPage) != 0
    ensures PageCount(limit, expected, perPage) >= 1
  {
    PageCountCovers(limit, expected, perPage);
  }

  lemma PageCountZero(limit: int, expected: int, perPage: int)
    requires limit >= 0 && perPage >= 1
    ensures PageCount(limit, expected, perPage) >= 1 <==> expected > 0
    ensures expected <= 0 ==> PageCount(limit, expected, perPage) == 0
  {
    if expected > 0 {
      PageCountCovers(limit, expected, perPage);
    }
  }

  /** The hosts of a page that came back. */
  function HostsOn(reply: PageReply): seq<Host> {
    match reply
    case PageFailed => []
    case PageOk(resp) => resp.results
  }

  /** The numbers of the pages up to n that failed. */
  ghost function FailedUpTo(n: int, perPage: int, fetch: Fetch): set<int> {
    set p: int | 1 <= p <= n && fetch(p, perPage).PageFailed?
  }

  lemma {:induction false} FailedPagesAre(n: nat, perPage: int, fetch: Fetch)
    ensures FailedPages(Pages(1, n), perPage, fetch) == |FailedUpTo(n, perPage, fetch)|
  {
    hide FailedUpTo, Pages;
    FailedStep(n, perPage, fetch);
    PagesStep(n);
    if n > 0 {
      FailedPagesAre(n - 1, perPage, fetch);
    }
  }

  lemma PagesStep(n: nat)
    ensures Pages(1, n) == if n == 0 then [] else Pages(1, n - 1) + [n]
  {
  }

  lemma FailedStep(n: nat, perPage: int, fetch: Fetch)
    ensures |FailedUpTo(n, perPage, fetch)| ==
      if n == 0 then 0 else |FailedUpTo(n - 1, perPage, fetch)| + if fetch(n, perPage).PageFailed? then 1 else 0
  {
    if n == 0 {
      assert FailedUpTo(0, perPage, fetch) == {};
    } else {
      var before := FailedUpTo(n - 1, perPage, fetch);
      assert FailedUpTo(n, perPage, fetch) == if fetch(n, perPage).PageFailed? then before + {n} else before;
    }
  }

  lemma {:induction false} GoodPagesAre(pages: seq<int>, perPage: int, fetch: Fetch)
    ensures GoodPages(pages, perPage, fetch)
         == Concat(seq(|pages|, k requires 0 <= k < |pages| => HostsOn(fetch(pages[k], perPage))))
  {
    if pages != [] {
      var n := |pages| - 1;
      var init := seq(n, k requires 0 <= k < n => HostsOn(fetch(pages[..n][k], perPage)));
      GoodPagesAre(pages[..n], perPage, fetch);
      ConcatLast(init, HostsOn(fetch(pages[n], perPage)));
      assert seq(|pages|, k requires 0 <= k < |pages| => HostsOn(fetch(pages[k], perPage)))
          == init + [HostsOn(fetch(pages[n], perPage))];
    }
  }

  lemma {:induction false} ConcatLast(lists: seq<seq<Host>>, last: seq<Host>)
    ensures Concat(lists + [last]) == Concat(lists) + last
  {
    if lists == [] {
      assert Concat([last]) == last + Concat([last][1..]);
    } else {
      assert (lists + [last])[1..] == lists[1..] + [last];
      ConcatLast(lists[1..], last);
    }
  }

  /** What the full list is, and when it comes with an error, for any probe and any replies: nothing but an
      error if the probe failed; otherwise the hosts of the pages that came back, in page order, with an
      error exactly when a planned page failed or fewer hosts than wanted were collected. The error says how
      many were wanted, collected, failed and planned. Nothing is planned with a page size below one, and
      then an empty list passes for complete. */
  lemma ShortReadsAreDetected(limit: int, perPage: int, probe: PageReply, fetch: Fetch)
    requires limit >= 0
    ensures
      var r := HostsOutcome(limit, perPage, probe, fetch);
      && (r.err == Some(ProbeFailed) <==> probe.PageFailed?)
      && (probe.PageFailed? ==> r.hosts == [])
      && (probe.PageOk? ==>
            var ask, expected := Limited(limit, perPage), ExpectedHosts(probe.resp);
            var planned, wanted := PageCount(limit, expected, ask), Limited(limit, expected);
            && planned >= 0
            && r.hosts == Concat(seq(planned, k requires 0 <= k < planned => HostsOn(fetch(k + 1, ask))))
            && var complete := (forall p: int :: 1 <= p <= planned ==> fetch(p, ask).PageOk?) && |r.hosts| >= wanted;
            && (r.err == None <==> perPage <= 0 || complete)
            && (r.err.Some? ==>
                  r.err.value == Incomplete(wanted, |r.hosts|, |FailedUpTo(planned, ask, fetch)|, planned)))
  {
    if probe.PageOk? {
      hide PageCount, Pages, GoodPages, FailedPages, FailedUpTo;
      var ask, expected := Limited(limit, perPage), ExpectedHosts(probe.resp);
      var planned := PageCount(limit, expected, ask);
      PlannedPages(limit, expected, perPage);
      var pages := Pages(1, planned);
      GoodPagesAre(pages, ask, fetch);
      assert seq(|pages|, k requires 0 <= k < |pages| => HostsOn(fetch(pages[k], ask)))
          == seq(planned, k requires 0 <= k < planned => HostsOn(fetch(k + 1, ask)));
      FailedPagesAre(planned, ask, fetch);
      NoneFailed(planned, ask, fetch);
    }
  }

  lemma PlannedPages(limit: int, expected: int, perPage: int)
    requires limit >= 0
    ensures
      var planned := PageCount(limit, expected, Limited(limit, perPage));
      planned >= 0 && (planned == 0 <==> perPage <= 0 || expected <= 0)
  {
    if perPage >= 1 {
      PageCountZero(limit, expected, Limited(limit, perPage));
    }
  }

  lemma NoneFailed(n: int, perPage: int, fetch: Fetch)
    ensures |FailedUpTo(n, perPage, fetch)| == 0 <==> forall p: int :: 1 <= p <= n ==> fetch(p, perPage).PageOk?
  {
    if |FailedUpTo(n, perPage, fetch)| != 0 {
      var p :| p in FailedUpTo(n, perPage, fetch);
    } else {
      assert FailedUpTo(n, perPage, fetch) == {};
      forall p: int | 1 <= p <= n
        ensures fetch(p, perPage).PageOk?
      {
        assert p !in FailedUpTo(n, perPage, fetch);
      }
    }
  }

  /** Against a server with a fixed list that applies the page size s.e, the full list is a prefix of the
      matching hosts, and a clamp is noticed: there is no error exactly when the planned pages hold the
      hosts wanted, as they always do if the page size asked for is the one applied. */
  lemma HostsUnderClamping(s: ListServer, limit: int, perPage: int, probe: HostPage)
    requires limit >= 0 && 1 <= s.e <= Limited(limit, perPage)
    requires (if probe.subtotal.Some? then probe.subtotal.value else probe.total) == |s.all|
    ensures
      var r, wanted := HostsOutcome(limit, perPage, PageOk(probe), s.Reply), Limited(limit, |s.all|);
      var planned := PageCount(limit, |s.all|, Limited(limit, perPage));
      && r.hosts <= s.all && |r.hosts| == s.Covered(planned)
      && (r.err == None <==> wanted <= planned * s.e)
      && (s.e == Limited(limit, perPage) ==> r.err == None)
  {
    hide PageCount, HostsOutcome, ListServer.Covered, ListServer.Reply, FailedUpTo, Concat;
    var ask := Limited(limit, perPage);
    var planned := PageCount(limit, |s.all|, ask);
    PlannedPages(limit, |s.all|, perPage);
    PlannedHosts(s, limit, perPage, probe);
    ShortReadsAreDetected(limit, perPage, PageOk(probe), s.Reply);
    RepliesAreGood(s, planned, ask);
    if |s.all| > 0 {
      PageCountCovers(limit, |s.all|, ask);
    }
    EnoughCovered(s, planned, Limited(limit, |s.all|));
  }

  lemma RepliesAreGood(s: ListServer, planned: int, perPage: int)
    ensures forall p: int :: 1 <= p <= planned ==> s.Reply(p, perPage).PageOk?
  {
  }

  lemma PlannedHosts(s: ListServer, limit: int, perPage: int, probe: HostPage)
    requires limit >= 0 && 1 <= s.e <= Limited(limit, perPage) && ExpectedHosts(probe) == |s.all|
    ensures
      var planned := PageCount(limit, |s.all|, Limited(limit, perPage));
      planned >= 0 && HostsOutcome(limit, perPage, PageOk(probe), s.Reply).hosts == s.all[..s.Covered(planned)]
  {
    hide PageCount, Pages, GoodPages, FailedPages, AllPages, ListServer.Covered;
    var ask := Limited(limit, perPage);
    var planned := PageCount(limit, |s.all|, ask);
    PlannedPages(limit, |s.all|, perPage);
    FixedPages(s, 1, planned, ask);
    NothingCovered(s);
    GoodIsAll(Pages(1, planned), ask, s.Reply);
    assert [] + GoodPages(Pages(1, planned), ask, s.Reply) == s.all[..s.Covered(planned)];
  }

  lemma EnoughCovered(s: ListServer, planned: int, wanted: int)
    requires planned >= 0 && wanted <= |s.all| && s.e >= 1
    ensures s.Covered(planned) >= wanted <==> wanted <= planned * s.e
  {
  }

  lemma {:induction false} GoodIsAll(pages: seq<int>, perPage: int, fetch: Fetch)
    requires AllPages(pages, perPage, fetch).Some?
    ensures GoodPages(pages, perPage, fetch) == AllPages(pages, perPage, fetch).value
  {
    if pages != [] {
      GoodIsAll(pages[..|pages| - 1], perPage, fetch);
    }
  }
}
