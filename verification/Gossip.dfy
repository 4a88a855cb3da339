/** The replicated cache under gossip: every replica merges the updates it hears of, in whatever
    order and however often they arrive. `Newer` is what `CacheMessage.Cache.Merge` is proved to do. */
module Gossip {
  import opened Wrappers
  import opened CacheWire
  import opened CacheMessage

  /* ---- one replica ---- */

  /** The value a replica ends with when it starts from v0 and hears the updates us in order. */
  function Heard(v0: CacheValue, us: seq<CacheValue>): CacheValue {
    if us == [] then v0 else Newer(Heard(v0, us[..|us| - 1]), us[|us| - 1])
  }

  function Updates(us: seq<CacheValue>): set<CacheValue> {
    set u | u in us
  }

  /** A replica always holds a newest one of the values it has seen, and keeps v0 on a tie with it. */
  lemma {:induction false} HeardIsNewest(v0: CacheValue, us: seq<CacheValue>)
    ensures var v := Heard(v0, us);
      && (v == v0 || (v in us && v0.createdAt < v.createdAt))
      && v0.createdAt <= v.createdAt
      && forall u :: u in us ==> u.createdAt <= v.createdAt
  {
    if us != [] {
      HeardIsNewest(v0, us[..|us| - 1]);
      assert us == us[..|us| - 1] + [us[|us| - 1]];
    }
  }

  /** No two different updates tie for newest, unless the replicas already hold something as new. */
  ghost predicate NoTieAtTheTop(v0: CacheValue, all: set<CacheValue>) {
    forall u, w :: IsNewest(v0, u, all) && IsNewest(v0, w, all) ==> u == w
  }

  ghost predicate IsNewest(v0: CacheValue, u: CacheValue, all: set<CacheValue>) {
    u in all && v0.createdAt < u.createdAt && forall x :: x in all ==> x.createdAt <= u.createdAt
  }

  lemma HeardInUpdates(v0: CacheValue, us: seq<CacheValue>)
    ensures var v := Heard(v0, us);
      && (v == v0 || IsNewest(v0, v, Updates(us)))
      && forall x :: x in Updates(us) ==> x.createdAt <= v.createdAt
  {
    hide Heard;
    HeardIsNewest(v0, us);
  }

  lemma OnlyNewest(v0: CacheValue, u: CacheValue, w: CacheValue, all: set<CacheValue>)
    requires NoTieAtTheTop(v0, all)
    requires u == v0 || IsNewest(v0, u, all)
    requires w == v0 || IsNewest(v0, w, all)
    requires forall x :: x in all ==> x.createdAt <= u.createdAt && x.createdAt <= w.createdAt
    ensures u == w
  {
  }

  lemma Converge(v0: CacheValue, us: seq<CacheValue>, ws: seq<CacheValue>)
    requires Updates(us) == Updates(ws) && NoTieAtTheTop(v0, Updates(us))
    ensures Heard(v0, us) == Heard(v0, ws)
  {
    hide Heard, NoTieAtTheTop, Updates;
    HeardInUpdates(v0, us);
    HeardInUpdates(v0, ws);
    OnlyNewest(v0, Heard(v0, us), Heard(v0, ws), Updates(us));
  }

  ghost predicate OrderNeverMatters(v0: CacheValue, all: set<CacheValue>) {
    forall us, ws :: Updates(us) == all && Updates(ws) == all ==> Heard(v0, us) == Heard(v0, ws)
  }

  /** Convergence, exactly: every order and repetition of a set of updates leads to the same value if
      and only if the newest of them is unique. The code comment's single-writer assumption implies
      it, but a request that bypasses the cache writes without being the leader. */
  lemma ConvergenceNeedsUniqueNewest(v0: CacheValue, all: set<CacheValue>)
    ensures OrderNeverMatters(v0, all) <==> NoTieAtTheTop(v0, all)
  {
    hide Heard, Updates;
    if NoTieAtTheTop(v0, all) {
      forall us, ws | Updates(us) == all && Updates(ws) == all
        ensures Heard(v0, us) == Heard(v0, ws)
      {
        Converge(v0, us, ws);
      }
    } else {
      var u, w :| IsNewest(v0, u, all) && IsNewest(v0, w, all) && u != w;
      var us, ws := TiedOrders(v0, u, w, all);
      assert Heard(v0, us) != Heard(v0, ws);
    }
  }

  /** Two updates of the same instant, heard in different orders, leave replicas apart. */
  lemma TiesDiverge()
    ensures
      var u, w := CacheValue([1], 1, 0, []), CacheValue([2], 1, 0, []);
      && Updates([u, w]) == Updates([w, u])
      && Heard(ZERO, [u, w]) == u && Heard(ZERO, [w, u]) == w && u != w
  {
    var u, w := CacheValue([1], 1, 0, []), CacheValue([2], 1, 0, []);
    FirstOfTheNewestStays(ZERO, u, w, []);
    FirstOfTheNewestStays(ZERO, w, u, []);
    assert [u, w] + [] == [u, w] && [w, u] + [] == [w, u];
  }

  lemma TiedOrders(v0: CacheValue, u: CacheValue, w: CacheValue, all: set<CacheValue>)
    returns (us: seq<CacheValue>, ws: seq<CacheValue>)
    requires IsNewest(v0, u, all) && IsNewest(v0, w, all)
    ensures Updates(us) == all && Updates(ws) == all
    ensures Heard(v0, us) == u && Heard(v0, ws) == w
  {
    hide Heard;
    var rest := Enumerate(all);
    assert forall x :: x in rest <==> x in Updates(rest);
    us, ws := [u, w] + rest, [w, u] + rest;
    FirstOfTheNewestStays(v0, u, w, rest);
    FirstOfTheNewestStays(v0, w, u, rest);
    assert Updates(us) == all && Updates(ws) == all;
  }

  lemma {:induction false} FirstOfTheNewestStays(v0: CacheValue, u: CacheValue, w: CacheValue, rest: seq<CacheValue>)
    requires v0.createdAt < u.createdAt && w.createdAt <= u.createdAt
    requires forall x :: x in rest ==> x.createdAt <= u.createdAt
    ensures Heard(v0, [u, w] + rest) == u
  {
    if rest == [] {
      assert [u, w] + rest == [u, w];
      assert [u, w][..1] == [u] && [u][..0] == [];
      assert Heard(v0, [u]) == u;
    } else {
      var n := |rest| - 1;
      assert ([u, w] + rest)[..|[u, w] + rest| - 1] == [u, w] + rest[..n];
      FirstOfTheNewestStays(v0, u, w, rest[..n]);
    }
  }

  lemma Enumerate(all: set<CacheValue>) returns (s: seq<CacheValue>)
    ensures Updates(s) == all
  {
    if all == {} {
      s := [];
    } else {
      var x :| x in all;
      var t := Enumerate(all - {x});
      s := t + [x];
      assert Updates(s) == Updates(t) + {x};
    }
  }

  /* ---- a cluster ---- */

  datatype Delivery = Delivery(replica: nat, update: CacheValue)

  type Cluster = map<nat, CacheValue>

  ghost predicate Addressed(c: Cluster, run: seq<Delivery>) {
    forall i :: 0 <= i < |run| ==> run[i].replica in c
  }

  function Deliver(c: Cluster, d: Delivery): Cluster
    requires d.replica in c
  {
    c[d.replica := Newer(c[d.replica], d.update)]
  }

  function Last(run: seq<Delivery>): Delivery
    requires run != []
  {
    run[|run| - 1]
  }

  function Init(run: seq<Delivery>): seq<Delivery>
    requires run != []
  {
    run[..|run| - 1]
  }

  ghost function Run(c: Cluster, run: seq<Delivery>): (c': Cluster)
    requires Addressed(c, run)
    ensures c'.Keys == c.Keys
  {
    if run == [] then c else Deliver(Run(c, Init(run)), Last(run))
  }

  /** The updates that reached replica r, in order. */
  function HeardBy(run: seq<Delivery>, r: nat): seq<CacheValue> {
    if run == [] then []
    else HeardBy(Init(run), r) + (if Last(run).replica == r then [Last(run).update] else [])
  }

  lemma {:induction false} RunIsHeard(c: Cluster, run: seq<Delivery>, r: nat)
    requires Addressed(c, run) && r in c
    ensures Run(c, run)[r] == Heard(c[r], HeardBy(run, r))
  {
    if run != [] {
      RunIsHeard(c, Init(run), r);
      var h := HeardBy(Init(run), r);
      if Last(run).replica == r {
        assert (h + [Last(run).update])[..|h|] == h;
      } else {
        assert h + [] == h;
      }
    }
  }

  /** Replicas that started alike and heard of the same updates hold the same value. */
  lemma ReplicasConverge(c: Cluster, run: seq<Delivery>, r: nat, q: nat)
    requires Addressed(c, run) && r in c && q in c && c[r] == c[q]
    requires Updates(HeardBy(run, r)) == Updates(HeardBy(run, q))
    requires NoTieAtTheTop(c[r], Updates(HeardBy(run, r)))
    ensures Run(c, run)[r] == Run(c, run)[q]
  {
    RunIsHeard(c, run, r);
    RunIsHeard(c, run, q);
    Converge(c[r], HeardBy(run, r), HeardBy(run, q));
  }

  /** The deliveries that were reported as changes. */
  ghost function Accepted(c: Cluster, run: seq<Delivery>): seq<Delivery>
    requires Addressed(c, run)
  {
    if run == [] then []
    else
      var held := Run(c, Init(run))[Last(run).replica];
      Accepted(c, Init(run)) + (if held.createdAt < Last(run).update.createdAt then [Last(run)] else [])
  }

  lemma NewerIsNewer(mine: CacheValue, theirs: CacheValue)
    ensures Newer(mine, theirs).createdAt >= mine.createdAt && Newer(mine, theirs).createdAt >= theirs.createdAt
  {
  }

  lemma {:induction false} AcceptedAreHeard(c: Cluster, run: seq<Delivery>)
    requires Addressed(c, run)
    ensures forall r :: r in c ==> c[r].createdAt <= Run(c, run)[r].createdAt
    ensures forall d :: d in Accepted(c, run) ==>
      d in run && d.update.createdAt <= Run(c, run)[d.replica].createdAt
  {
    hide Newer;
    if run != [] {
      AcceptedAreHeard(c, Init(run));
      assert run == Init(run) + [Last(run)];
      NewerIsNewer(Run(c, Init(run))[Last(run).replica], Last(run).update);
    }
  }

  /** A replica's CreatedAt never decreases, and an accepted delivery is newer than anything the
      replica accepted before, so no delivery is accepted twice. */
  lemma {:induction false} AcceptedAreDistinct(c: Cluster, run: seq<Delivery>)
    requires Addressed(c, run)
    ensures forall r :: r in c ==> c[r].createdAt <= Run(c, run)[r].createdAt
    ensures forall d :: d in Accepted(c, run) ==>
      d in run && d.update.createdAt <= Run(c, run)[d.replica].createdAt
    ensures forall i, j :: 0 <= i < j < |Accepted(c, run)| ==> Accepted(c, run)[i] != Accepted(c, run)[j]
  {
    hide Run;
    AcceptedAreHeard(c, run);
    if run != [] {
      AcceptedAreHeard(c, Init(run));
      AcceptedAreDistinct(c, Init(run));
    }
  }

  /** Gossip quiesces: however long the run, at most one change per replica and distinct update. */
  lemma ChangesAreBounded(c: Cluster, run: seq<Delivery>, all: set<CacheValue>)
    requires Addressed(c, run)
    requires forall d :: d in run ==> d.update in all
    ensures |Accepted(c, run)| <= |c.Keys| * |all|
  {
    AcceptedAreDistinct(c, run);
    var accepted := Accepted(c, run);
    var pairs := set r, u | r in c.Keys && u in all :: Delivery(r, u);
    PairCount(c.Keys, all);
    DistinctCount(accepted);
    forall d | d in accepted
      ensures d in pairs
    {
      assert d == Delivery(d.replica, d.update);
    }
    SubsetSize((set d | d in accepted), pairs);
  }

  lemma {:induction false} DistinctCount(s: seq<Delivery>)
    requires forall i, j :: 0 <= i < j < |s| ==> s[i] != s[j]
    ensures |set d | d in s| == |s|
  {
    if s != [] {
      var t := s[..|s| - 1];
      DistinctCount(t);
      assert (set d | d in s) == (set d | d in t) + {s[|s| - 1]};
    }
  }

  lemma {:induction false} PairCount(rs: set<nat>, all: set<CacheValue>)
    ensures |set r, u | r in rs && u in all :: Delivery(r, u)| == |rs| * |all|
    decreases rs
  {
    var pairs := set r, u | r in rs && u in all :: Delivery(r, u);
    if rs == {} {
      assert pairs == {};
    } else {
      var x :| x in rs;
      var rest := set r, u | r in rs - {x} && u in all :: Delivery(r, u);
      PairCount(rs - {x}, all);
      RowCount(x, all);
      var row := set u | u in all :: Delivery(x, u);
      assert pairs == rest + row;
      assert rest !! row;
      assert |rs| * |all| == (|rs| - 1) * |all| + |all|;
    }
  }

  lemma {:induction false} RowCount(r: nat, all: set<CacheValue>)
    ensures |set u | u in all :: Delivery(r, u)| == |all|
    decreases all
  {
    var row := set u | u in all :: Delivery(r, u);
    if all == {} {
      assert row == {};
    } else {
      var x :| x in all;
      RowCount(r, all - {x});
      assert row == (set u | u in all - {x} :: Delivery(r, u)) + {Delivery(r, x)};
    }
  }
}
