/** What every run of the collector machine guarantees, told in terms of the steps of the run alone:
    what the cache holds, where exported series come from, and who may store. */
module CollectorRuns {
  import opened Wrappers
  import opened MemCaches
  import opened Collector

  /* ---- what a run says by itself ---- */

  /** The clock after some steps. */
  function ClockAt(clock: int, past: seq<Event>): int {
    if past == [] then clock
    else
      var last := past[|past| - 1];
      ClockAt(clock, past[..|past| - 1]) + if last.Tick? then last.elapsed else 0
  }

  /** What the client returned to the scrape of a request. */
  datatype Scrape = Scrape(data: Series, failed: bool)

  function Answer(past: seq<Event>, i: nat): Option<Scrape> {
    if past == [] then None
    else
      match past[|past| - 1]
      case At(j, ClientReturns(data, failed)) =>
        if j == i then Some(Scrape(data, failed)) else Answer(past[..|past| - 1], i)
      case _ => Answer(past[..|past| - 1], i)
  }

  /** What the requests asked for, in the order in which they arrived. */
  function Arrivals(past: seq<Event>): seq<Options> {
    if past == [] then []
    else
      var last := past[|past| - 1];
      Arrivals(past[..|past| - 1]) + if last.Arrive? then [last.opts] else []
  }

  /** Step k stores what the client returned to that request: something, without an error or, with the flag,
      in spite of one. */
  predicate Refreshes(c: Config, past: seq<Event>, k: nat) {
    && k < |past| && past[k].At? && past[k].action.Store? && !c.ring
    && var scrape := Answer(past[..k], past[k].i);
       scrape.Some? && c.cacheEnabled && scrape.value.data != [] && (c.cacheOnPartial || !scrape.value.failed)
  }

  function EntryAt(c: Config, clock: int, past: seq<Event>, k: nat): CacheEntry<Series>
    requires Refreshes(c, past, k)
  {
    CacheEntry(Answer(past[..k], past[k].i).value.data, ClockAt(clock, past[..k]) + c.ttl)
  }

  /** What the last refreshing step stores. */
  function LastScrape(c: Config, clock: int, past: seq<Event>): Option<CacheEntry<Series>> {
    if past == [] then None
    else if Refreshes(c, past, |past| - 1) then Some(EntryAt(c, clock, past, |past| - 1))
    else LastScrape(c, clock, past[..|past| - 1])
  }

  ghost predicate IsLastRefresh(c: Config, past: seq<Event>, m: nat) {
    Refreshes(c, past, m) && forall n: nat :: m < n ==> !Refreshes(c, past, n)
  }

  lemma {:induction false} LastScrapeIs(c: Config, clock: int, past: seq<Event>)
    ensures LastScrape(c, clock, past) == None <==> forall m: nat :: !Refreshes(c, past, m)
    ensures LastScrape(c, clock, past).Some? ==>
      exists m: nat :: IsLastRefresh(c, past, m) && LastScrape(c, clock, past).value == EntryAt(c, clock, past, m)
  {
    hide MayStore;
    if past != [] {
      var init, k := past[..|past| - 1], |past| - 1;
      forall m: nat | m < k
        ensures Refreshes(c, past, m) <==> Refreshes(c, init, m)
        ensures Refreshes(c, past, m) ==> EntryAt(c, clock, past, m) == EntryAt(c, clock, init, m)
      {
        assert init[..m] == past[..m];
      }
      LastScrapeIs(c, clock, init);
      if Refreshes(c, past, k) {
        assert IsLastRefresh(c, past, k);
      } else if LastScrape(c, clock, init).Some? {
        var m: nat :| IsLastRefresh(c, init, m) && LastScrape(c, clock, init).value == EntryAt(c, clock, init, m);
        assert IsLastRefresh(c, past, m);
      }
    }
  }

  lemma {:induction false} AnswerWasGiven(past: seq<Event>, i: nat)
    requires Answer(past, i).Some?
    ensures At(i, ClientReturns(Answer(past, i).value.data, Answer(past, i).value.failed)) in past
  {
    var last := past[|past| - 1];
    if !(last.At? && last.i == i && last.action.ClientReturns?) {
      AnswerWasGiven(past[..|past| - 1], i);
    }
  }

  lemma {:induction false} ClockNeverFalls(clock: int, past: seq<Event>, m: nat)
    requires m <= |past|
    ensures ClockAt(clock, past[..m]) <= ClockAt(clock, past)
  {
    if m == |past| {
      assert past[..m] == past;
    } else {
      ClockNeverFalls(clock, past[..|past| - 1], m);
      assert past[..|past| - 1][..m] == past[..m];
    }
  }

  /* ---- the state is what the run says ---- */

  /** A request that does not go through the ring reads the local cache. */
  predicate ReadsLocally(c: Config, r: Request) {
    !(c.ring && r.opts.useCache)
  }

  predicate IsReadOf(past: seq<Event>, i: nat, k: nat) {
    k < |past| && past[k].At? && past[k].i == i && past[k].action.Read?
  }

  /** The entry that a request which gets past the leader check sees at step k: none if it does not use the
      cache, on the ring the one in the reply, otherwise the one in the local cache. */
  function SeenAt(c: Config, clock: int, past: seq<Event>, opts: Options, k: nat): Option<CacheEntry<Series>>
    requires k < |past| && past[k].At? && past[k].action.Read?
  {
    if !c.cacheEnabled || !opts.useCache then None
    else if c.ring then
      match past[k].action.ring
      case Stored(entry) => Some(entry)
      case _ => None
    else LastScrape(c, clock, past[..k])
  }

  /** The request is refused at step k since this replica is not the leader. */
  predicate RefusedAt(c: Config, past: seq<Event>, opts: Options, k: nat)
    requires k < |past| && past[k].At? && past[k].action.Read?
  {
    c.ring && opts.useCache && (past[k].action.ring.NoLeader? || past[k].action.ring.NotLeader?)
  }

  /** The request finds an entry that cannot be decoded. */
  predicate BrokenAt(c: Config, past: seq<Event>, opts: Options, k: nat)
    requires k < |past| && past[k].At? && past[k].action.Read?
  {
    c.ring && opts.useCache && c.cacheEnabled && past[k].action.ring.Undecodable?
  }

  const JUST_AN_ERROR: Export := Export([], true, false, None)

  /** What the read of request i at step k has left in its state. */
  predicate ReadAtStep(c: Config, clock: int, past: seq<Event>, r: Request, i: nat, k: nat) {
    && IsReadOf(past, i, k)
    && if RefusedAt(c, past, r.opts, k) then r.phase == Rejected && r.exported == None
       else if BrokenAt(c, past, r.opts, k) then r.phase == Rejected && r.exported == Some(JUST_AN_ERROR)
       else
         && r.phase != Rejected
         && r.readAt == ClockAt(clock, past[..k])
         && r.read == SeenAt(c, clock, past, r.opts, k)
  }

  /** The request has read once, unless it is still to read. */
  ghost predicate ReadTraced(c: Config, clock: int, past: seq<Event>, r: Request, i: nat) {
    && (r.phase == Reading <==> forall k: nat :: !IsReadOf(past, i, k))
    && forall k: nat :: IsReadOf(past, i, k) ==> ReadAtStep(c, clock, past, r, i, k)
  }

  /** Which arm of the select ran. */
  function Arm(ending: Ending): Action {
    match ending
    case GotResult(_) => ReceiveResult
    case GotBusy => ReceiveBusy
    case TimedOut => Timeout
  }

  /** Whatever the goroutine and its request hold of a scrape is what the client returned to it. */
  predicate AnswerTraced(r: Request, answer: Option<Scrape>) {
    && (r.task.Scraped? ==> answer == Some(Scrape(r.task.data, r.task.failed)) && r.vars.errVal == r.task.failed)
    && (r.task.Cached? ==> answer == Some(Scrape(r.task.data, r.vars.errVal)))
    && (r.result.Some? ==> answer == Some(Scrape(r.result.value, r.vars.errVal)))
    && (r.ending.Some? && r.ending.value.GotResult? ==> answer == Some(Scrape(r.ending.value.data, r.vars.errVal)))
    && (r.vars.errVal <==> HasFailed(answer))
  }

  predicate HasFailed(answer: Option<Scrape>) {
    answer.Some? && answer.value.failed
  }

  /** The export was emitted at step k, with the error gauge as the client's answer had left it by then. */
  predicate EmittedAt(past: seq<Event>, r: Request, i: nat, k: nat) {
    && k < |past| && past[k] == At(i, Emit) && r.exported.Some?
    && (r.exported.value.scrapeError <==> HasFailed(Answer(past[..k], i)))
  }

  ghost predicate EmitTraced(past: seq<Event>, r: Request, i: nat) {
    r.phase == Finished ==> exists k: nat :: EmittedAt(past, r, i, k)
  }

  /** The goroutine scraped: it never found the lock taken. */
  predicate WentThrough(r: Request) {
    && (r.task.Cached? || r.task.Replied? || r.task.Gone?)
    && !r.inflight && r.ending != Some(GotBusy)
  }

  ghost predicate RequestTraced(c: Config, clock: int, past: seq<Event>, r: Request, i: nat) {
    && ReadTraced(c, clock, past, r, i)
    && AnswerTraced(r, Answer(past, i))
    && EmitTraced(past, r, i)
    && (r.ending.Some? ==> At(i, Arm(r.ending.value)) in past)
    && (At(i, Store) in past ==> WentThrough(r))
    && (At(i, TryLock) in past || Answer(past, i).Some? ==> r.task != NoTask)
  }

  ghost predicate Traced(c: Config, clock: int, past: seq<Event>, s: State) {
    && s.clock == ClockAt(clock, past)
    && s.cache == LastScrape(c, clock, past)
    && |s.requests| == |Arrivals(past)|
    && (forall i :: 0 <= i < |s.requests| ==>
          s.requests[i].opts == Arrivals(past)[i] && RequestTraced(c, clock, past, s.requests[i], i))
    && (forall k :: 0 <= k < |past| && past[k].At? ==> past[k].i < |s.requests|)
  }

  /** A step that is no read of the request leaves what it read alone. */
  lemma ReadTracedStays(c: Config, clock: int, past: seq<Event>, e: Event, r: Request, r': Request, i: nat)
    requires ReadTraced(c, clock, past, r, i) && !(e.At? && e.i == i && e.action.Read?)
    requires SameRead(r, r')
    ensures ReadTraced(c, clock, past + [e], r', i)
  {
    hide LastScrape, ClockAt;
    forall k: nat
      ensures IsReadOf(past + [e], i, k) <==> IsReadOf(past, i, k)
      ensures IsReadOf(past, i, k) ==> (past + [e])[..k] == past[..k] && (past + [e])[k] == past[k]
    {
    }
    forall k: nat | IsReadOf(past + [e], i, k)
      ensures ReadAtStep(c, clock, past + [e], r', i, k)
    {
      assert ReadAtStep(c, clock, past, r, i, k);
    }
  }

  predicate SameRead(r: Request, r': Request) {
    && r'.read == r.read && r'.readAt == r.readAt && r'.opts == r.opts
    && (r'.phase == Reading <==> r.phase == Reading)
    && (r'.phase == Rejected <==> r.phase == Rejected)
    && (r.phase == Rejected ==> r'.exported == r.exported)
  }

  lemma OnlyReadReads(c: Config, s: State, r: Request, a: Action)
    requires CanAct(r, a) && !a.Read? && RequestInv(c, r)
    ensures SameRead(r, Act(c, s, r, a))
  {
    hide Fallback, ReadCache, LocalInv, ErrInv;
  }

  /** What the machine does at a read is what the steps say. */
  lemma ReadReads(c: Config, clock: int, past: seq<Event>, s: State, i: nat, ring: RingReply)
    requires Traced(c, clock, past, s) && i < |s.requests|
    requires CanAct(s.requests[i], Read(ring)) && RequestInv(c, s.requests[i])
    ensures ReadAtStep(c, clock, past + [At(i, Read(ring))], ReadCache(c, s, s.requests[i], ring), i, |past|)
    ensures ReadCache(c, s, s.requests[i], ring).phase != Reading
  {
    hide LastScrape, ClockAt, IsHit, AnswerTraced, ReadTraced;
    assert (past + [At(i, Read(ring))])[..|past|] == past;
  }

  lemma ActKeepsReadTraced(c: Config, clock: int, past: seq<Event>, s: State, i: nat, a: Action)
    requires Traced(c, clock, past, s) && i < |s.requests| && CanAct(s.requests[i], a) && RequestInv(c, s.requests[i])
    ensures ReadTraced(c, clock, past + [At(i, a)], Act(c, s, s.requests[i], a), i)
  {
    hide LastScrape, ClockAt, RequestInv, IsHit, AnswerTraced, ReadAtStep;
    var r, e := s.requests[i], At(i, a);
    assert RequestTraced(c, clock, past, r, i);
    if a.Read? {
      ReadReads(c, clock, past, s, i, a.ring);
      assert a == Read(a.ring) && IsReadOf(past + [e], i, |past|);
      hide ReadCache;
      forall k: nat
        ensures IsReadOf(past + [e], i, k) <==> k == |past|
      {
        if k < |past| {
          assert (past + [e])[k] == past[k] && !IsReadOf(past, i, k);
        }
      }
    } else {
      OnlyReadReads(c, s, r, a);
      hide Act;
      ReadTracedStays(c, clock, past, e, r, Act(c, s, r, a), i);
    }
  }

  lemma AnswerStep(past: seq<Event>, e: Event, i: nat)
    ensures Answer(past + [e], i) == if e.At? && e.i == i && e.action.ClientReturns?
                                     then Some(Scrape(e.action.data, e.action.failed)) else Answer(past, i)
  {
    assert (past + [e])[..|past|] == past;
  }

  lemma ActKeepsAnswer(c: Config, s: State, r: Request, a: Action, answer: Option<Scrape>)
    requires CanAct(r, a) && RequestInv(c, r) && AnswerTraced(r, answer)
    ensures AnswerTraced(Act(c, s, r, a), if a.ClientReturns? then Some(Scrape(a.data, a.failed)) else answer)
  {
    hide Fallback, LocalInv, MayStore;
  }

  lemma EmitTracedStays(past: seq<Event>, e: Event, r: Request, r': Request, i: nat)
    requires EmitTraced(past, r, i) && (r'.phase == Finished ==> r.phase == Finished) && r'.exported == r.exported
    ensures EmitTraced(past + [e], r', i)
  {
    if r'.phase == Finished {
      var k: nat :| EmittedAt(past, r, i, k);
      assert (past + [e])[..k] == past[..k];
      assert EmittedAt(past + [e], r', i, k);
    }
  }

  lemma OnlyEmitEmits(c: Config, s: State, r: Request, a: Action)
    requires CanAct(r, a) && RequestInv(c, r)
    ensures var r' := Act(c, s, r, a);
      && (r'.phase == Finished <==> r.phase == Finished || a.Emit?)
      && (r'.exported == r.exported || a.Emit? || r'.phase == Rejected)
      && (a.Emit? ==> r'.exported.Some? && r'.exported.value.scrapeError == r.vars.errVal)
  {
    hide Fallback, LocalInv, ErrInv;
  }

  lemma ActKeepsEmit(c: Config, s: State, past: seq<Event>, r: Request, a: Action, i: nat)
    requires CanAct(r, a) && RequestInv(c, r) && EmitTraced(past, r, i) && AnswerTraced(r, Answer(past, i))
    ensures EmitTraced(past + [At(i, a)], Act(c, s, r, a), i)
  {
    hide RequestInv, CanAct, Act, Answer;
    var r' := Act(c, s, r, a);
    OnlyEmitEmits(c, s, r, a);
    if a.Emit? {
      assert (past + [At(i, a)])[..|past|] == past;
      assert EmittedAt(past + [At(i, a)], r', i, |past|);
    } else if r'.phase == Finished {
      EmitTracedStays(past, At(i, a), r, r', i);
    }
  }

  lemma ActKeepsEnding(c: Config, s: State, r: Request, a: Action)
    requires CanAct(r, a) && RequestInv(c, r)
    ensures var r' := Act(c, s, r, a); r'.ending != r.ending ==> r'.ending.Some? && a == Arm(r'.ending.value)
    ensures WentThrough(r) || a.Store? ==> WentThrough(Act(c, s, r, a))
    ensures r.task != NoTask || a.TryLock? || a.ClientReturns? ==> Act(c, s, r, a).task != NoTask
    ensures Act(c, s, r, a).opts == r.opts
  {
    hide Fallback, LocalInv;
  }

  lemma ActKeepsTraced(c: Config, clock: int, past: seq<Event>, s: State, i: nat, a: Action)
    requires Traced(c, clock, past, s) && i < |s.requests| && CanAct(s.requests[i], a) && RequestInv(c, s.requests[i])
    ensures RequestTraced(c, clock, past + [At(i, a)], Act(c, s, s.requests[i], a), i)
  {
    hide Answer, LastScrape, ClockAt, RequestInv, Act, ReadTraced, CanAct, AnswerTraced, EmitTraced, WentThrough;
    var r := s.requests[i];
    assert RequestTraced(c, clock, past, r, i);
    ActKeepsReadTraced(c, clock, past, s, i, a);
    ActKeepsAnswer(c, s, r, a, Answer(past, i));
    AnswerStep(past, At(i, a), i);
    ActKeepsEmit(c, s, past, r, a, i);
    ActKeepsEnding(c, s, r, a);
  }

  lemma OthersStayTraced(c: Config, clock: int, past: seq<Event>, e: Event, r: Request, i: nat)
    requires RequestTraced(c, clock, past, r, i) && !(e.At? && e.i == i)
    ensures RequestTraced(c, clock, past + [e], r, i)
  {
    hide Answer, LastScrape, ClockAt, AnswerTraced, WentThrough;
    AnswerStep(past, e, i);
    EmitTracedStays(past, e, r, r, i);
    ReadTracedStays(c, clock, past, e, r, r, i);
  }

  lemma NewIsTraced(c: Config, clock: int, past: seq<Event>, opts: Options, i: nat)
    requires forall k :: 0 <= k < |past| && past[k].At? ==> past[k].i < i
    ensures RequestTraced(c, clock, past, NewRequest(opts), i)
  {
    if Answer(past, i).Some? {
      AnswerWasGiven(past, i);
      assert false;
    }
  }

  lemma ClockStep(clock: int, past: seq<Event>, e: Event)
    ensures ClockAt(clock, past + [e]) == ClockAt(clock, past) + if e.Tick? then e.elapsed else 0
  {
    assert (past + [e])[..|past|] == past;
  }

  lemma ArrivalsStep(past: seq<Event>, e: Event)
    ensures Arrivals(past + [e]) == Arrivals(past) + if e.Arrive? then [e.opts] else []
  {
    assert (past + [e])[..|past|] == past;
  }

  /** The step stores exactly what the run says it may. */
  lemma CacheStep(c: Config, clock: int, past: seq<Event>, s: State, e: Event)
    requires Enabled(s, e) && Traced(c, clock, past, s)
    ensures Apply(c, s, e).cache == LastScrape(c, clock, past + [e])
  {
    hide Answer, ClockAt, Act, ReadTraced;
    assert (past + [e])[..|past|] == past;
    if e.At? && e.action.Store? {
      assert RequestTraced(c, clock, past, s.requests[e.i], e.i);
    }
  }

  lemma TracedStep(c: Config, clock: int, past: seq<Event>, s: State, e: Event)
    requires Enabled(s, e) && Inv(c, s) && Traced(c, clock, past, s)
    ensures Traced(c, clock, past + [e], Apply(c, s, e))
  {
    hide LockInv, RequestInv, RequestTraced, LastScrape, ClockAt, Arrivals, Act, CanAct, MayStore;
    var s' := Apply(c, s, e);
    CacheStep(c, clock, past, s, e);
    ClockStep(clock, past, e);
    ArrivalsStep(past, e);
    if e.At? {
      ActKeepsEnding(c, s, s.requests[e.i], e.action);
    }
    forall i | 0 <= i < |s'.requests|
      ensures RequestTraced(c, clock, past + [e], s'.requests[i], i)
    {
      if e.Arrive? && i == |s.requests| {
        NewIsTraced(c, clock, past + [e], e.opts, i);
      } else if e.At? && i == e.i {
        ActKeepsTraced(c, clock, past, s, i, e.action);
      } else {
        OthersStayTraced(c, clock, past, e, s.requests[i], i);
      }
    }
  }

  lemma {:induction false} RunTraced(c: Config, clock: int, past: seq<Event>, s: State, events: seq<Event>)
    requires Inv(c, s) && Traced(c, clock, past, s) && Runs(c, s, events)
    ensures Inv(c, After(c, s, events)) && Traced(c, clock, past + events, After(c, s, events))
    decreases |events|
  {
    hide Inv, Traced, Enabled, Apply;
    if events == [] {
      assert past + events == past;
    } else {
      StepInv(c, s, events[0]);
      TracedStep(c, clock, past, s, events[0]);
      RunTraced(c, clock, past + [events[0]], Apply(c, s, events[0]), events[1..]);
      assert past + [events[0]] + events[1..] == past + events;
    }
  }

  lemma ReachableIsTraced(c: Config, clock: int, events: seq<Event>)
    requires Runs(c, Initial(clock), events)
    ensures Inv(c, After(c, Initial(clock), events)) && Traced(c, clock, events, After(c, Initial(clock), events))
  {
    hide Runs, After;
    assert Inv(c, Initial(clock));
    RunTraced(c, clock, [], Initial(clock), events);
    assert [] + events == events;
  }

  /* ---- the cache ---- */

  /** In every run the cache holds what the client returned to the scrape of the last step that stored a
      permitted result, with its full TTL from that step, or nothing if there was no such step. */
  lemma CacheIsLastScrape(c: Config, clock: int, events: seq<Event>)
    requires Runs(c, Initial(clock), events)
    ensures
      var cache := After(c, Initial(clock), events).cache;
      && (cache == None <==> forall m: nat :: !Refreshes(c, events, m))
      && (cache.Some? ==> exists m: nat :: IsLastRefresh(c, events, m) && cache.value == EntryAt(c, clock, events, m))
  {
    hide Runs, After, Inv, Refreshes;
    ReachableIsTraced(c, clock, events);
    LastScrapeIs(c, clock, events);
  }

  /** Request i read the cache at step k; the series is what the client returned, before step m, to the
      request that stored it at step m; nothing refreshed the cache in between. */
  ghost predicate ServedFrom(c: Config, events: seq<Event>, i: nat, series: Series, failed: bool, m: nat, k: nat) {
    && m < k && IsReadOf(events, i, k)
    && events[m].At? && events[m].action.Store?
    && At(events[m].i, ClientReturns(series, failed)) in events[..m]
    && (forall n: nat :: m < n < k ==> !Refreshes(c, events, n))
  }

  /** The step at which a request read the local cache. */
  lemma LocalRead(c: Config, clock: int, past: seq<Event>, r: Request, i: nat) returns (k: nat)
    requires ReadTraced(c, clock, past, r, i) && ReadsLocally(c, r) && Settled(r) && r.read.Some?
    ensures IsReadOf(past, i, k) && r.readAt == ClockAt(clock, past[..k]) && r.read == LastScrape(c, clock, past[..k])
  {
    hide LastScrape, ClockAt;
    k :| IsReadOf(past, i, k);
    assert ReadAtStep(c, clock, past, r, i, k);
  }

  /** Whatever was read from the local cache at step k is traced back to the scrape that stored it. */
  lemma ReadIsScraped(c: Config, clock: int, events: seq<Event>, i: nat, k: nat) returns (m: nat, failed: bool)
    requires IsReadOf(events, i, k) && LastScrape(c, clock, events[..k]).Some?
    ensures
      var entry := LastScrape(c, clock, events[..k]).value;
      && ServedFrom(c, events, i, entry.value, failed, m, k)
      && entry.expiresAt == ClockAt(clock, events[..m]) + c.ttl
      && entry.value != [] && (!failed || c.cacheOnPartial)
      && ClockAt(clock, events[..m]) <= ClockAt(clock, events[..k])
  {
    hide Answer, ClockAt, LastScrape;
    var past := events[..k];
    LastScrapeIs(c, clock, past);
    m :| IsLastRefresh(c, past, m) && LastScrape(c, clock, past).value == EntryAt(c, clock, past, m);
    assert past[..m] == events[..m];
    failed := Answer(past[..m], past[m].i).value.failed;
    AnswerWasGiven(past[..m], past[m].i);
    ClockNeverFalls(clock, past, m);
    forall n: nat | m < n < k
      ensures !Refreshes(c, events, n)
    {
      assert past[..n] == events[..n];
      assert !Refreshes(c, past, n);
    }
  }

  /** Cache safety (local cache): what a request serves as an unexpired hit is non-empty, was stored no
      later than it was read and within the TTL before, was the last thing stored until then, and is what
      the client had returned without error - or, for host facts with the flag set, with one. */
  lemma HitsAreSafe(c: Config, clock: int, events: seq<Event>, i: nat)
    requires Runs(c, Initial(clock), events)
    requires var s := After(c, Initial(clock), events);
      i < |s.requests| && ReadsLocally(c, s.requests[i]) && s.requests[i].vars.found && s.requests[i].exported.Some?
    ensures
      var series := After(c, Initial(clock), events).requests[i].exported.value.series;
      && series != []
      && exists m: nat, k: nat, failed ::
           && ServedFrom(c, events, i, series, failed, m, k)
           && (!failed || c.cacheOnPartial)
           && ClockAt(clock, events[..m]) <= ClockAt(clock, events[..k]) <= ClockAt(clock, events[..m]) + c.ttl
  {
    hide Runs, After, LastScrape, ClockAt, ServedFrom, LockInv, AnswerTraced;
    ReachableIsTraced(c, clock, events);
    var s := After(c, Initial(clock), events);
    var r := s.requests[i];
    assert RequestInv(c, r) && RequestTraced(c, clock, events, r, i);
    FoundIsServed(c, r);
    var k := LocalRead(c, clock, events, r, i);
    var m, failed := ReadIsScraped(c, clock, events, i, k);
  }

  lemma FoundIsServed(c: Config, r: Request)
    requires RequestInv(c, r) && r.vars.found && r.exported.Some?
    ensures r.read.Some? && r.exported.value.series == r.read.value.value && IsHit(r.read.value, r.readAt)
    ensures r.phase == Finished
  {
  }

  /* ---- what a read leads to ---- */

  /** The request never gets as far as a scrape. */
  ghost predicate NoScrape(events: seq<Event>, i: nat) {
    At(i, TryLock) !in events && Answer(events, i) == None
  }

  /** What the reply to the read decides, on the ring as off it. Away from the leader the request exports
      nothing, with an undecodable entry nothing but the error; an entry that has not expired is served as
      it is, and neither case ever scrapes. With any other reply the request starts a scrape. */
  lemma ReadsDecide(c: Config, clock: int, events: seq<Event>, i: nat, k: nat)
    requires Runs(c, Initial(clock), events) && i < |Arrivals(events)| && IsReadOf(events, i, k)
    ensures |After(c, Initial(clock), events).requests| == |Arrivals(events)|
    ensures
      var opts, ring := Arrivals(events)[i], events[k].action.ring;
      var r := After(c, Initial(clock), events).requests[i];
      if c.ring && opts.useCache && (ring.NoLeader? || ring.NotLeader?) then r.exported == None && NoScrape(events, i)
      else if c.ring && opts.useCache && c.cacheEnabled && ring.Undecodable? then
        r.exported == Some(Export([], true, false, None)) && NoScrape(events, i)
      else
        var seen := SeenAt(c, clock, events, opts, k);
        if seen.Some? && ClockAt(clock, events[..k]) <= seen.value.expiresAt then
          && NoScrape(events, i)
          && (r.exported.Some? ==> r.exported.value == Export(seen.value.value, false, false, Some(false)))
        else r.task != NoTask && !r.vars.found
  {
    hide Runs, After, LastScrape, ClockAt, LockInv, Arrivals, Answer;
    ReachableIsTraced(c, clock, events);
    var r := After(c, Initial(clock), events).requests[i];
    assert RequestInv(c, r) && RequestTraced(c, clock, events, r, i);
    assert ReadAtStep(c, clock, events, r, i, k);
    ReadIsDecided(c, r);
  }

  lemma ReadIsDecided(c: Config, r: Request)
    requires RequestInv(c, r) && r.phase != Reading
    ensures r.phase == Rejected ==> r.task == NoTask
    ensures
      r.phase != Rejected ==>
        if r.read.Some? && IsHit(r.read.value, r.readAt) then
          && r.task == NoTask
          && (r.exported.Some? ==>
                r.exported.value == Export(r.read.value.value, false, false, if c.cacheEnabled then Some(false) else None))
        else r.task != NoTask && !r.vars.found
  {
  }

  /* ---- the exported series ---- */

  /** Where exported series can come from. */
  datatype Source = UnexpiredHit | FreshScrape | ExpiredByOptIn | StaleWithoutError | Nothing

  function SourceOf(c: Config, r: Request): Source
    requires Settled(r)
  {
    match r.ending
    case None => UnexpiredHit
    case Some(GotResult(data)) =>
      if data != [] then FreshScrape
      else if !r.vars.errVal then StaleWithoutError
      else if c.cacheEnabled && r.opts.useExpiredCache && CachedData(r) != [] then ExpiredByOptIn
      else Nothing
    case Some(GotBusy) => StaleWithoutError
    case Some(TimedOut) =>
      if c.cacheEnabled && r.opts.useExpiredCache && CachedData(r) != [] then ExpiredByOptIn else Nothing
  }

  /** Export classification: past the leader and decoding checks, a request exports its unexpired hit, the
      non-empty result that the client returned to its own scrape, the cached value because the caller
      opted in after a failed or timed-out scrape - the only case in which the expired-cache gauge is 1 -,
      the cached value because the lock was busy or the scrape was empty without error, or nothing. A
      result that arrives in time comes with its own error gauge; a scrape that fails after its request has
      timed out may still flip that gauge, but not the series. */
  lemma ExportsAreClassified(c: Config, clock: int, events: seq<Event>, i: nat)
    requires Runs(c, Initial(clock), events)
    requires var s := After(c, Initial(clock), events); i < |s.requests| && s.requests[i].phase == Finished
    ensures
      var r := After(c, Initial(clock), events).requests[i];
      && r.exported.Some? && i < |Arrivals(events)| && r.opts == Arrivals(events)[i]
      && (exists k: nat :: IsReadOf(events, i, k)
            && r.readAt == ClockAt(clock, events[..k]) && r.read == SeenAt(c, clock, events, r.opts, k))
      && (match SourceOf(c, r)
          case FreshScrape =>
            && r.exported.value.series != []
            && At(i, ClientReturns(r.exported.value.series, r.exported.value.scrapeError)) in events
          case Nothing => r.exported.value.series == []
          case _ => r.exported.value.series == CachedData(r))
      && (SourceOf(c, r) == UnexpiredHit <==> r.read.Some? && IsHit(r.read.value, r.readAt))
      && (r.exported.value.expiredCache == Some(true) <==> SourceOf(c, r) == ExpiredByOptIn)
      && (r.exported.value.expiredCache.Some? <==> c.cacheEnabled)
      && (r.exported.value.timeout <==> r.ending == Some(TimedOut))
      && (r.ending.Some? ==> At(i, Arm(r.ending.value)) in events)
      && (r.ending.Some? && r.ending.value.GotResult? ==>
            At(i, ClientReturns(r.ending.value.data, r.exported.value.scrapeError)) in events)
      && (exists k: nat :: EmittedAt(events, r, i, k))
      && (r.ending == Some(GotBusy) ==> !r.exported.value.scrapeError)
  {
    hide Runs, After;
    ReachableIsTraced(c, clock, events);
    var r := After(c, Initial(clock), events).requests[i];
    assert RequestInv(c, r) && RequestTraced(c, clock, events, r, i);
    FinishedIsClassified(c, r);
    var k: nat :| IsReadOf(events, i, k);
    assert ReadAtStep(c, clock, events, r, i, k);
    if r.ending.Some? && r.ending.value.GotResult? {
      AnswerWasGiven(events, i);
    }
  }

  lemma FinishedIsClassified(c: Config, r: Request)
    requires RequestInv(c, r) && r.phase == Finished
    ensures
      && r.exported.Some?
      && r.exported.value.series == (match SourceOf(c, r)
                                     case FreshScrape => r.ending.value.data
                                     case Nothing => []
                                     case _ => CachedData(r))
      && (SourceOf(c, r) == UnexpiredHit <==> r.read.Some? && IsHit(r.read.value, r.readAt))
      && (r.exported.value.expiredCache == Some(true) <==> SourceOf(c, r) == ExpiredByOptIn)
      && (r.exported.value.expiredCache.Some? <==> c.cacheEnabled)
      && (r.exported.value.timeout <==> r.ending == Some(TimedOut))
      && (r.ending != Some(TimedOut) ==> r.exported.value.scrapeError == r.vars.errVal)
      && (r.ending == Some(GotBusy) ==> !r.vars.errVal)
  {
  }

  /** Series from the local cache, expired ones included, are what the client had returned to the scrape
      that was the last to be stored when the request read; they are older than the TTL unless they are
      an unexpired hit. */
  lemma CachedExportsAreScrapes(c: Config, clock: int, events: seq<Event>, i: nat)
    requires Runs(c, Initial(clock), events)
    requires
      var s := After(c, Initial(clock), events);
      i < |s.requests| && s.requests[i].phase == Finished && ReadsLocally(c, s.requests[i])
    requires
      var r := After(c, Initial(clock), events).requests[i];
      SourceOf(c, r) != FreshScrape && r.exported.Some? && r.exported.value.series != []
    ensures
      var r := After(c, Initial(clock), events).requests[i];
      exists m: nat, k: nat, failed ::
        && ServedFrom(c, events, i, r.exported.value.series, failed, m, k)
        && (!failed || c.cacheOnPartial)
        && (SourceOf(c, r) == UnexpiredHit <==> ClockAt(clock, events[..k]) <= ClockAt(clock, events[..m]) + c.ttl)
  {
    hide Runs, After, LastScrape, ClockAt, ServedFrom, LockInv, AnswerTraced, LocalInv, ChannelInv, ErrInv;
    ReachableIsTraced(c, clock, events);
    var r := After(c, Initial(clock), events).requests[i];
    assert RequestInv(c, r) && RequestTraced(c, clock, events, r, i);
    FinishedIsClassified(c, r);
    var k := LocalRead(c, clock, events, r, i);
    var m, failed := ReadIsScraped(c, clock, events, i, k);
  }

  /* ---- the lock ---- */

  /** Lock protocol: at most one scrape is active, the slot is full exactly while one is - also after the
      request it belongs to timed out - and a request that found it full has stored nothing. */
  lemma LockProtocol(c: Config, clock: int, events: seq<Event>)
    requires Runs(c, Initial(clock), events) && c.lock
    ensures
      var s := After(c, Initial(clock), events);
      && (s.slot <==> exists i :: 0 <= i < |s.requests| && Active(s.requests[i]))
      && (forall i, j | 0 <= i < |s.requests| && 0 <= j < |s.requests| ::
            Active(s.requests[i]) && Active(s.requests[j]) ==> i == j)
      && (forall i | 0 <= i < |s.requests| && At(i, Store) in events ::
            !s.requests[i].inflight && s.requests[i].ending != Some(GotBusy))
  {
    hide Runs, After, RequestInv, Active;
    ReachableIsTraced(c, clock, events);
  }

  /** A goroutine that tries the lock scrapes, unless the lock is in use and another scrape is active: then it
      tells its request, and is gone. */
  lemma LockIsTried(c: Config, clock: int, events: seq<Event>, i: nat)
    requires Runs(c, Initial(clock), events) && Enabled(After(c, Initial(clock), events), At(i, TryLock))
    ensures
      var s := After(c, Initial(clock), events);
      var r := Apply(c, s, At(i, TryLock)).requests[i];
      if c.lock && (exists j :: 0 <= j < |s.requests| && Active(s.requests[j])) then r.task == Gone && r.inflight
      else r.task == Scraping && !r.inflight
  {
    hide Runs, After, Active;
    ReachableIsTraced(c, clock, events);
  }

  /** No goroutine is ever blocked: whatever became of its request, its next step is enabled, and at most
      one message is ever sent to that request. */
  lemma TasksNeverBlock(c: Config, clock: int, events: seq<Event>, i: nat) returns (a: Action)
    requires Runs(c, Initial(clock), events) && i < |After(c, Initial(clock), events).requests|
    ensures
      var s := After(c, Initial(clock), events);
      var r := s.requests[i];
      && r.sent <= 1
      && (r.task != NoTask && r.task != Gone ==>
            Enabled(s, At(i, a)) && a in {TryLock, ClientReturns([], false), Store, Reply, Unlock}
            && (a.Unlock? && c.lock ==> s.slot))
  {
    hide Runs, After;
    ReachableIsTraced(c, clock, events);
    var s := After(c, Initial(clock), events);
    var r := s.requests[i];
    assert RequestInv(c, r);
    match r.task
    case NoTask => a := Emit;
    case Gone => a := Emit;
    case Starting => a := TryLock;
    case Scraping => a := ClientReturns([], false);
    case Scraped(_, _) => a := Store;
    case Cached(_) => a := Reply;
    case Replied =>
      a := Unlock;
      assert Active(r);
  }

  /** Nor is any request: until it has exported, or was refused, it has a step of its own, at the latest its
      deadline; what reaches it in time it can receive. */
  lemma RequestsNeverBlock(c: Config, clock: int, events: seq<Event>, i: nat, ring: RingReply) returns (a: Action)
    requires Runs(c, Initial(clock), events) && i < |After(c, Initial(clock), events).requests|
    ensures
      var s := After(c, Initial(clock), events);
      var r := s.requests[i];
      && (r.phase == Finished || r.phase == Rejected || (Enabled(s, At(i, a)) && a in {Read(ring), Timeout, Decide, Emit}))
      && (r.phase == Waiting && r.result.Some? ==> Enabled(s, At(i, ReceiveResult)))
      && (r.phase == Waiting && r.inflight ==> Enabled(s, At(i, ReceiveBusy)))
      && (r.phase == Finished ==> r.exported.Some?)
  {
    hide Runs, After;
    ReachableIsTraced(c, clock, events);
    var s := After(c, Initial(clock), events);
    assert RequestInv(c, s.requests[i]);
    match s.requests[i].phase
    case Reading => a := Read(ring);
    case Waiting => a := Timeout;
    case Deciding => a := Decide;
    case _ => a := Emit;
  }
}
