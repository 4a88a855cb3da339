/** How the paging of a batch ends, told by the replies alone, whatever the server does: with a failed
    page, with a page that is not full, or out of pages. */
module BatchEnds {
  import opened Wrappers
  import opened Batches
  import opened FactPages

  type Pages = nat -> Reply

  /** The page size that a page is measured against: the one echoed, if any. */
  function Applied(perPage: int, echoed: int): int {
    if echoed >= 1 then echoed else perPage
  }

  predicate FullPage(fetch: Pages, perPage: int, p: nat) {
    fetch(p).Page? && RowCount(fetch(p).results) >= Applied(perPage, fetch(p).perPage)
  }

  predicate ShortPage(fetch: Pages, perPage: int, p: nat) {
    fetch(p).Page? && RowCount(fetch(p).results) < Applied(perPage, fetch(p).perPage)
  }

  ghost predicate FullBefore(fetch: Pages, perPage: int, p: nat) {
    forall q: nat :: 1 <= q < p ==> FullPage(fetch, perPage, q)
  }

  /** Page p is reached, and it fails. */
  ghost predicate FailsAt(fetch: Pages, perPage: int, maxPages: nat, p: nat) {
    1 <= p <= maxPages && FullBefore(fetch, perPage, p) && fetch(p).Failed?
  }

  /** Page p is reached, and it is the last one. */
  ghost predicate EndsAt(fetch: Pages, perPage: int, maxPages: nat, p: nat) {
    1 <= p <= maxPages && FullBefore(fetch, perPage, p) && ShortPage(fetch, perPage, p)
  }

  /** No page fails and all of them are full. */
  ghost predicate RunsOut(fetch: Pages, perPage: int, maxPages: nat) {
    FullBefore(fetch, perPage, maxPages + 1)
  }

  /** The number that is configured, or the default. */
  function Configured(n: int, default: nat): (r: nat)
    requires default >= 1
    ensures r >= 1
  {
    if n >= 1 then n else default
  }

  /** The facts of the first n pages. */
  ghost function Merged(fetch: Pages, n: nat): HostFacts
    requires forall q: nat :: 1 <= q <= n ==> fetch(q).Page?
  {
    if n == 0 then map[] else MergeFacts(Merged(fetch, n - 1), fetch(n).results)
  }

  ghost predicate Ended(fetch: Pages, hosts: seq<Host>, perPage: int, maxPages: nat, r: BatchResult) {
    && r.hostIds == IdsOf(hosts)
    && (forall q: nat :: 1 <= q <= r.pages ==> fetch(q).Page?)
    && r.facts == Merged(fetch, r.pages)
    && if r.err.Some? then
         FailsAt(fetch, perPage, maxPages, r.pages + 1) && r.err == Some(fetch(r.pages + 1).error) && !r.truncated
       else
         && r.missing == Missing(hosts, r.facts)
         && if r.truncated then RunsOut(fetch, perPage, maxPages) && r.pages == maxPages
            else EndsAt(fetch, perPage, maxPages, r.pages)
  }

  lemma {:induction false} FollowEnds(fetch: Pages, hosts: seq<Host>, perPage: int, maxPages: nat, page: nat)
    requires 1 <= page <= maxPages + 1 && FullBefore(fetch, perPage, page)
    requires forall q: nat :: 1 <= q < page ==> fetch(q).Page?
    ensures Ended(fetch, hosts, perPage, maxPages,
                  FollowPages(fetch, hosts, perPage, maxPages, page, Merged(fetch, page - 1)))
    decreases maxPages + 1 - page
  {
    hide MergeFacts, Missing, RowCount;
    if page <= maxPages && FullPage(fetch, perPage, page) {
      FollowEnds(fetch, hosts, perPage, maxPages, page + 1);
    }
  }

  lemma OutcomeEnded(fetch: Pages, hosts: seq<Host>, factPerPage: int, factMaxPages: int)
    ensures Ended(fetch, hosts, Configured(factPerPage, 10000), Configured(factMaxPages, 10),
                  BatchOutcome(fetch, hosts, factPerPage, factMaxPages))
  {
    hide FollowPages, Ended;
    assert Merged(fetch, 0) == map[];
    FollowEnds(fetch, hosts, Configured(factPerPage, 10000), Configured(factMaxPages, 10), 1);
  }

  /** How a batch ends, exactly: with an error if and only if a page fails behind full ones only, which is
      then the error reported; truncated if and only if every page that may be fetched is full; otherwise
      at the first page that is not full. */
  lemma BatchEnding(fetch: Pages, hosts: seq<Host>, factPerPage: int, factMaxPages: int)
    ensures
      var perPage, maxPages := Configured(factPerPage, 10000), Configured(factMaxPages, 10);
      var r := BatchOutcome(fetch, hosts, factPerPage, factMaxPages);
      && (r.err.Some? <==> exists p: nat :: FailsAt(fetch, perPage, maxPages, p))
      && (forall p: nat :: FailsAt(fetch, perPage, maxPages, p) ==> r.err == Some(fetch(p).error) && r.pages == p - 1)
      && (r.truncated <==> RunsOut(fetch, perPage, maxPages))
      && (r.truncated ==> r.pages == maxPages && r.err.None?)
      && (r.err.None? && !r.truncated <==> exists p: nat :: EndsAt(fetch, perPage, maxPages, p))
      && (forall p: nat :: EndsAt(fetch, perPage, maxPages, p) ==> r.pages == p)
  {
    hide BatchOutcome, RowCount, Merged, Missing;
    var perPage, maxPages := Configured(factPerPage, 10000), Configured(factMaxPages, 10);
    OutcomeEnded(fetch, hosts, factPerPage, factMaxPages);
    forall p: nat, q: nat
      ensures FailsAt(fetch, perPage, maxPages, p) && FailsAt(fetch, perPage, maxPages, q) ==> p == q
      ensures EndsAt(fetch, perPage, maxPages, p) && EndsAt(fetch, perPage, maxPages, q) ==> p == q
      ensures !(FailsAt(fetch, perPage, maxPages, p) && EndsAt(fetch, perPage, maxPages, q))
      ensures RunsOut(fetch, perPage, maxPages) ==>
        !FailsAt(fetch, perPage, maxPages, p) && !EndsAt(fetch, perPage, maxPages, p)
    {
      OneEnding(fetch, perPage, maxPages, p, q);
    }
  }

  lemma OneEnding(fetch: Pages, perPage: int, maxPages: nat, p: nat, q: nat)
    ensures FailsAt(fetch, perPage, maxPages, p) && FailsAt(fetch, perPage, maxPages, q) ==> p == q
    ensures EndsAt(fetch, perPage, maxPages, p) && EndsAt(fetch, perPage, maxPages, q) ==> p == q
    ensures !(FailsAt(fetch, perPage, maxPages, p) && EndsAt(fetch, perPage, maxPages, q))
    ensures RunsOut(fetch, perPage, maxPages) ==>
      !FailsAt(fetch, perPage, maxPages, p) && !EndsAt(fetch, perPage, maxPages, p)
  {
    hide RowCount;
    assert FullPage(fetch, perPage, p) ==> !fetch(p).Failed? && !ShortPage(fetch, perPage, p);
    assert FullPage(fetch, perPage, q) ==> !fetch(q).Failed? && !ShortPage(fetch, perPage, q);
  }

  /* ---- what the batch then holds ---- */

  predicate Brings(fetch: Pages, q: nat, host: string, fact: string) {
    fetch(q).Page? && host in fetch(q).results && fact in fetch(q).results[host]
  }

  /** Page q is the last of the first n pages that brings this fact of the host, with this value. */
  ghost predicate BroughtLast(fetch: Pages, n: nat, q: nat, host: string, fact: string, value: string) {
    && 1 <= q <= n && Brings(fetch, q, host, fact) && fetch(q).results[host][fact] == value
    && forall p: nat :: q < p <= n ==> !Brings(fetch, p, host, fact)
  }

  lemma {:induction false} MergedHolds(fetch: Pages, n: nat, host: string, fact: string, value: string)
    requires forall q: nat :: 1 <= q <= n ==> fetch(q).Page?
    ensures var m := Merged(fetch, n);
      && (host in m && fact in m[host] && m[host][fact] == value
          <==> exists q: nat :: BroughtLast(fetch, n, q, host, fact, value))
      && (host in m <==> exists q: nat :: 1 <= q <= n && host in fetch(q).results)
  {
    hide MergeFacts;
    if n > 0 {
      MergedHolds(fetch, n - 1, host, fact, value);
      MergeAt(Merged(fetch, n - 1), fetch(n).results, host);
      forall q: nat | q < n
        ensures BroughtLast(fetch, n, q, host, fact, value)
            <==> BroughtLast(fetch, n - 1, q, host, fact, value) && !Brings(fetch, n, host, fact)
      {
      }
      var before, m := Merged(fetch, n - 1), Merged(fetch, n);
      if Brings(fetch, n, host, fact) {
        assert BroughtLast(fetch, n, n, host, fact, fetch(n).results[host][fact]);
      } else if host in before && fact in before[host] && before[host][fact] == value {
        var q: nat :| BroughtLast(fetch, n - 1, q, host, fact, value);
        assert BroughtLast(fetch, n, q, host, fact, value);
      }
    }
  }

  /** What a batch holds, whatever the server replies: of every fact of every host the value of the last
      page that brought it, the hosts that some page named, and - unless it failed - as missing exactly
      the requested hosts that no page named. */
  lemma BatchHolds(fetch: Pages, hosts: seq<Host>, factPerPage: int, factMaxPages: int,
                   host: string, fact: string, value: string)
    ensures
      var r := BatchOutcome(fetch, hosts, factPerPage, factMaxPages);
      && r.hostIds == IdsOf(hosts)
      && (host in r.facts && fact in r.facts[host] && r.facts[host][fact] == value
          <==> exists q: nat :: BroughtLast(fetch, r.pages, q, host, fact, value))
      && (host in r.facts <==> exists q: nat :: 1 <= q <= r.pages && fetch(q).Page? && host in fetch(q).results)
      && (r.err.None? ==> (host in r.missing <==> host !in r.facts && exists h :: h in hosts && h.name == host))
  {
    hide BatchOutcome, Merged, Missing;
    OutcomeEnded(fetch, hosts, factPerPage, factMaxPages);
    var r := BatchOutcome(fetch, hosts, factPerPage, factMaxPages);
    MergedHolds(fetch, r.pages, host, fact, value);
    MissingAreAbsent(hosts, r.facts, host);
  }
}
