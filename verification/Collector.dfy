/** Any number of concurrent requests to one collector (`host_collector.go`, `hostfact_collector.go`):
    each reads the cache, may start a background scrape, waits for it, for the news that another one is
    running, or for its timeout, and exports. A scrape outlives a request that timed out. */
module Collector {
  import opened Wrappers
  import opened MemCaches

  type Series = seq<map<string, string>>

  /** What the collector is configured with; `cacheOnPartial` is false for the host collector. */
  datatype Config = Config(ring: bool, cacheEnabled: bool, lock: bool, ttl: nat, cacheOnPartial: bool)

  /** What the HTTP request asks for. */
  datatype Options = Options(useCache: bool, useExpiredCache: bool)

  /** What the leader check and the replicated store answer a request. */
  datatype RingReply = NoLeader | NotLeader | Empty | Undecodable | Stored(entry: CacheEntry<Series>)

  /** The background goroutine: about to try the lock, scraping, with the client's answer, with the cache
      step done, with its answer sent and only the lock to give back, gone. */
  datatype Task =
    | NoTask
    | Starting
    | Scraping
    | Scraped(data: Series, failed: bool)
    | Cached(data: Series)
    | Replied
    | Gone

  /** How the select ended. */
  datatype Ending = GotResult(data: Series) | GotBusy | TimedOut

  datatype Phase = Reading | Waiting | Deciding | Emitting | Finished | Rejected

  datatype Export = Export(series: Series, scrapeError: bool, timeout: bool, expiredCache: Option<bool>)

  /** The variables of `Collect`; errVal is shared with its goroutine. */
  datatype Vars = Vars(
    found: bool, data: Series, errVal: bool, timeoutVal: bool, expiredVal: bool, servedFromScrape: bool)

  const NO_VARS: Vars := Vars(false, [], false, false, false, false)

  /** A request: its variables, its two channels of capacity one, its goroutine, and a record of what it
      read and when, how its select ended and how much was ever sent to it. */
  datatype Request = Request(
    opts: Options, phase: Phase, vars: Vars, result: Option<Series>, inflight: bool, task: Task,
    read: Option<CacheEntry<Series>>, readAt: int, ending: Option<Ending>, sent: nat, exported: Option<Export>)

  datatype State = State(clock: int, cache: Option<CacheEntry<Series>>, slot: bool, requests: seq<Request>)

  function NewRequest(opts: Options): Request {
    Request(opts, Reading, NO_VARS, None, false, NoTask, None, 0, None, 0, None)
  }

  function Initial(clock: int): State {
    State(clock, None, false, [])
  }

  /* ---- the pieces of Collect ---- */

  /** Whether an entry read at `now` is a hit; otherwise it counts as expired. */
  predicate IsHit(entry: CacheEntry<Series>, now: int) {
    now <= entry.expiresAt
  }

  function VarsAfterRead(v: Vars, entry: Option<CacheEntry<Series>>, now: int): Vars {
    v.(found := entry.Some? && IsHit(entry.value, now), data := if entry.Some? then entry.value.value else [])
  }

  /** After the cache has been read: served from it, or with a scrape to start. */
  function AfterRead(r: Request, entry: Option<CacheEntry<Series>>, now: int): Request {
    var r := r.(read := entry, readAt := now, vars := VarsAfterRead(r.vars, entry, now));
    if r.vars.found then r.(phase := Deciding) else r.(phase := Waiting, task := Starting)
  }

  function ReadCache(c: Config, s: State, r: Request, ring: RingReply): Request {
    if c.ring && r.opts.useCache then
      if ring.NoLeader? || ring.NotLeader? then r.(phase := Rejected)
      else if !c.cacheEnabled then AfterRead(r, None, s.clock)
      else
        match ring
        case Undecodable => r.(phase := Rejected, exported := Some(Export([], true, false, None)))
        case Stored(entry) => AfterRead(r, Some(entry), s.clock)
        case _ => AfterRead(r, None, s.clock)
    else AfterRead(r, if c.cacheEnabled && r.opts.useCache then s.cache else None, s.clock)
  }

  /** When a scrape may refresh the cache. */
  predicate MayStore(c: Config, data: Series, failed: bool) {
    c.cacheEnabled && data != [] && (!failed || c.cacheOnPartial)
  }

  function VarsAfterSelect(v: Vars, ending: Ending): Vars {
    match ending
    case GotResult(scraped) => if scraped != [] then v.(data := scraped, servedFromScrape := true) else v
    case GotBusy => v
    case TimedOut => v.(timeoutVal := true)
  }

  /** The data and the expired-cache gauge after the fallback switch. */
  function Fallback(c: Config, opts: Options, data: Series, served: bool, err: bool, timeout: bool): (Series, bool) {
    if !served && (err || timeout) then
      if c.cacheEnabled && opts.useExpiredCache && data != [] then (data, true)
      else ([], false)
    else (data, false)
  }

  function VarsAfterFallback(c: Config, opts: Options, v: Vars): Vars {
    var f := Fallback(c, opts, v.data, v.servedFromScrape, v.errVal, v.timeoutVal);
    v.(data := f.0, expiredVal := f.1)
  }

  function ExportOf(c: Config, v: Vars): Export {
    Export(v.data, v.errVal, v.timeoutVal, if c.cacheEnabled then Some(v.expiredVal) else None)
  }

  /* ---- the machine ---- */

  /** One atomic step of a request: of its goroutine (TryLock to Unlock) or of its own thread. */
  datatype Action =
    | Read(ring: RingReply)
    | TryLock
    | ClientReturns(data: Series, failed: bool)
    | Store
    | Reply
    | Unlock
    | ReceiveResult
    | ReceiveBusy
    | Timeout
    | Decide
    | Emit

  datatype Event = Tick(elapsed: nat) | Arrive(opts: Options) | At(i: nat, action: Action)

  /** A send on a full channel blocks, a receive on an empty one too; the lock is only ever tried. */
  predicate CanAct(r: Request, a: Action) {
    match a
    case Read(_) => r.phase == Reading
    case TryLock => r.task == Starting && !r.inflight
    case ClientReturns(_, _) => r.task == Scraping
    case Store => r.task.Scraped?
    case Reply => r.task.Cached? && r.result == None
    case Unlock => r.task == Replied
    case ReceiveResult => r.phase == Waiting && r.result.Some?
    case ReceiveBusy => r.phase == Waiting && r.inflight
    case Timeout => r.phase == Waiting
    case Decide => r.phase == Deciding
    case Emit => r.phase == Emitting
  }

  predicate Enabled(s: State, e: Event) {
    e.At? ==> e.i < |s.requests| && CanAct(s.requests[e.i], e.action)
  }

  /** The scrape stores its data in the local cache. */
  predicate Stores(c: Config, r: Request, a: Action)
    requires CanAct(r, a)
  {
    a.Store? && MayStore(c, r.task.data, r.task.failed) && !c.ring
  }

  /** What the step does to the request's variables and channels. */
  function Act(c: Config, s: State, r: Request, a: Action): Request
    requires CanAct(r, a)
  {
    match a
    case Read(ring) => ReadCache(c, s, r, ring)
    case TryLock =>
      if c.lock && s.slot then r.(task := Gone, inflight := true, sent := r.sent + 1) else r.(task := Scraping)
    case ClientReturns(data, failed) =>
      r.(task := Scraped(data, failed), vars := r.vars.(errVal := r.vars.errVal || failed))
    case Store => r.(task := Cached(r.task.data))
    case Reply => r.(task := Replied, result := Some(r.task.data), sent := r.sent + 1)
    case Unlock => r.(task := Gone)
    case ReceiveResult => AfterSelect(r.(result := None), GotResult(r.result.value))
    case ReceiveBusy => AfterSelect(r.(inflight := false), GotBusy)
    case Timeout => AfterSelect(r, TimedOut)
    case Decide => r.(vars := VarsAfterFallback(c, r.opts, r.vars), phase := Emitting)
    case Emit => r.(exported := Some(ExportOf(c, r.vars)), phase := Finished)
  }

  function AfterSelect(r: Request, ending: Ending): Request {
    r.(vars := VarsAfterSelect(r.vars, ending), ending := Some(ending), phase := Deciding)
  }

  /** What it does to the lock slot. */
  function SlotAfter(c: Config, s: State, a: Action): bool {
    if c.lock && a.TryLock? then true
    else if c.lock && a.Unlock? then false
    else s.slot
  }

  function Apply(c: Config, s: State, e: Event): State
    requires Enabled(s, e)
  {
    match e
    case Tick(elapsed) => s.(clock := s.clock + elapsed)
    case Arrive(opts) => s.(requests := s.requests + [NewRequest(opts)])
    case At(i, a) =>
      var r := s.requests[i];
      var t := s.(slot := SlotAfter(c, s, a), requests := s.requests[i := Act(c, s, r, a)]);
      if Stores(c, r, a) then t.(cache := Some(CacheEntry(r.task.data, s.clock + c.ttl))) else t
  }

  predicate Runs(c: Config, s: State, events: seq<Event>)
    decreases |events|
  {
    events == [] || (Enabled(s, events[0]) && Runs(c, Apply(c, s, events[0]), events[1..]))
  }

  function After(c: Config, s: State, events: seq<Event>): State
    requires Runs(c, s, events)
    decreases |events|
  {
    if events == [] then s else After(c, Apply(c, s, events[0]), events[1..])
  }

  /* ---- the invariant ---- */

  /** The goroutine is past the lock and has not given it back. */
  predicate Active(r: Request) {
    r.task.Scraping? || r.task.Scraped? || r.task.Cached? || r.task.Replied?
  }

  predicate Held(s: State) {
    exists i :: 0 <= i < |s.requests| && Active(s.requests[i])
  }

  ghost predicate LockInv(c: Config, s: State) {
    if c.lock then
      && (s.slot <==> Held(s))
      && (forall i, j :: 0 <= i < j < |s.requests| ==> !(Active(s.requests[i]) && Active(s.requests[j])))
    else !s.slot
  }

  /** At most one message ever reaches a request, whatever became of it. */
  predicate ChannelInv(r: Request) {
    && r.sent == (if r.task.Replied? || r.task.Gone? then 1 else 0)
    && ((r.result.Some? || r.inflight) ==> r.sent == 1)
    && !(r.result.Some? && r.inflight)
    && (r.phase == Reading || r.phase == Rejected ==> r.task == NoTask && !r.vars.found)
    && (r.task != NoTask ==> !r.vars.found && r.phase != Reading && r.phase != Rejected)
    && (r.ending.Some? || r.phase == Waiting ==> r.task != NoTask)
  }

  function CachedData(r: Request): Series {
    if r.read.Some? then r.read.value.value else []
  }

  /** The request went past the leader and decoding checks and its select, if any, has ended. */
  predicate Settled(r: Request) {
    r.phase in {Deciding, Emitting, Finished}
  }

  /** What the locals say at each phase. */
  predicate LocalInv(c: Config, r: Request) {
    && (r.vars.found ==> Settled(r) && r.read.Some? && IsHit(r.read.value, r.readAt) && r.ending == None)
    && (r.vars.found ==> !r.vars.errVal && !r.vars.timeoutVal && !r.vars.servedFromScrape)
    && (r.phase == Rejected ==> r.ending == None && !r.vars.timeoutVal && !r.vars.servedFromScrape)
    && (Settled(r) && r.read.Some? ==> (r.vars.found <==> IsHit(r.read.value, r.readAt)))
    && (r.phase == Waiting && r.read.Some? ==> !IsHit(r.read.value, r.readAt))
    && (r.exported.Some? ==> r.phase == Finished || r.phase == Rejected)
    && (Settled(r) ==> (r.vars.found <==> r.ending == None))
    && (r.phase == Reading || r.phase == Waiting ==> r.ending == None && !r.vars.timeoutVal && !r.vars.servedFromScrape)
    && (r.phase == Waiting ==> !r.vars.found && r.vars.data == CachedData(r))
    && (r.vars.timeoutVal <==> r.ending == Some(TimedOut))
    && (r.vars.servedFromScrape <==> r.ending.Some? && r.ending.value.GotResult? && r.ending.value.data != [])
    && (r.phase == Deciding ==> r.vars.data == if r.vars.servedFromScrape then r.ending.value.data else CachedData(r))
    && (r.phase == Emitting || r.phase == Finished ==>
          var f := Fallback(c, r.opts, if r.vars.servedFromScrape then r.ending.value.data else CachedData(r),
                            r.vars.servedFromScrape, r.vars.errVal, r.vars.timeoutVal);
          r.vars.data == f.0 && r.vars.expiredVal == f.1)
    && (r.phase == Finished ==> r.exported.Some?)
    && (r.phase == Finished ==> r.exported.value.series == r.vars.data && r.exported.value.timeout == r.vars.timeoutVal)
    && (r.phase == Finished ==> r.exported.value.expiredCache == (if c.cacheEnabled then Some(r.vars.expiredVal) else None))
  }

  /** The error flag is final before anything is sent; a busy goroutine never sets it. */
  predicate ErrInv(r: Request) {
    && (r.task.NoTask? || r.task.Starting? || r.task.Scraping? ==> !r.vars.errVal)
    && (r.phase == Finished && r.ending != Some(TimedOut) && r.exported.Some? ==> r.exported.value.scrapeError == r.vars.errVal)
    && (r.inflight || r.ending == Some(GotBusy) ==> r.task.Gone? && !r.vars.errVal)
    && (r.result.Some? || (r.ending.Some? && r.ending.value.GotResult?) ==> r.task.Replied? || r.task.Gone?)
  }

  ghost predicate RequestInv(c: Config, r: Request) {
    ChannelInv(r) && LocalInv(c, r) && ErrInv(r)
  }

  ghost predicate Inv(c: Config, s: State) {
    LockInv(c, s) && forall i :: 0 <= i < |s.requests| ==> RequestInv(c, s.requests[i])
  }

  /* ---- every step keeps it ---- */

  lemma NewRequestInv(c: Config, opts: Options)
    ensures RequestInv(c, NewRequest(opts))
  {
  }

  lemma ActKeepsRequest(c: Config, s: State, r: Request, a: Action)
    requires CanAct(r, a) && RequestInv(c, r)
    ensures RequestInv(c, Act(c, s, r, a))
  {
    ActKeepsChannels(c, s, r, a);
    ActKeepsLocals(c, s, r, a);
    ActKeepsErrors(c, s, r, a);
  }

  lemma ActKeepsChannels(c: Config, s: State, r: Request, a: Action)
    requires CanAct(r, a) && RequestInv(c, r)
    ensures ChannelInv(Act(c, s, r, a))
  {
    hide Fallback;
  }

  lemma ReadKeepsLocals(c: Config, s: State, r: Request, ring: RingReply)
    requires CanAct(r, Read(ring)) && RequestInv(c, r)
    ensures LocalInv(c, ReadCache(c, s, r, ring))
  {
    hide Fallback;
  }

  /** The goroutine touches none of the request's own variables but the error flag. */
  lemma TaskKeepsLocals(c: Config, s: State, r: Request, a: Action)
    requires CanAct(r, a) && RequestInv(c, r)
    requires a.TryLock? || a.ClientReturns? || a.Store? || a.Reply? || a.Unlock?
    ensures LocalInv(c, Act(c, s, r, a))
  {
    hide IsHit;
    if a.ClientReturns? {
      if r.phase == Emitting || r.phase == Finished {
        LateErrorIsHarmless(c, r);
      }
    } else {
      hide Fallback;
    }
  }

  lemma ThreadKeepsLocals(c: Config, s: State, r: Request, a: Action)
    requires CanAct(r, a) && RequestInv(c, r)
    requires a.ReceiveResult? || a.ReceiveBusy? || a.Timeout? || a.Decide? || a.Emit?
    ensures LocalInv(c, Act(c, s, r, a))
  {
    hide IsHit, Fallback;
  }

  lemma ActKeepsLocals(c: Config, s: State, r: Request, a: Action)
    requires CanAct(r, a) && RequestInv(c, r)
    ensures LocalInv(c, Act(c, s, r, a))
  {
    hide RequestInv, LocalInv, CanAct;
    match a
    case Read(ring) => ReadKeepsLocals(c, s, r, ring);
    case TryLock => TaskKeepsLocals(c, s, r, a);
    case ClientReturns(_, _) => TaskKeepsLocals(c, s, r, a);
    case Store => TaskKeepsLocals(c, s, r, a);
    case Reply => TaskKeepsLocals(c, s, r, a);
    case Unlock => TaskKeepsLocals(c, s, r, a);
    case _ => ThreadKeepsLocals(c, s, r, a);
  }

  /** The flag that a late scrape sets is no longer looked at: the request has timed out. */
  lemma LateErrorIsHarmless(c: Config, r: Request)
    requires RequestInv(c, r) && r.task == Scraping && (r.phase == Emitting || r.phase == Finished)
    ensures r.vars.timeoutVal
  {
    hide Fallback;
  }

  lemma ActKeepsErrors(c: Config, s: State, r: Request, a: Action)
    requires CanAct(r, a) && RequestInv(c, r)
    ensures ErrInv(Act(c, s, r, a))
  {
    hide Fallback;
  }

  /** Which steps take and give back the lock. */
  lemma ActChangesActive(c: Config, s: State, r: Request, a: Action)
    requires CanAct(r, a) && RequestInv(c, r)
    ensures Active(Act(c, s, r, a)) <==> (Active(r) && !a.Unlock?) || (a.TryLock? && !(c.lock && s.slot))
    ensures a.Unlock? ==> Active(r)
    ensures a.TryLock? ==> !Active(r)
  {
    hide Fallback, LocalInv, ErrInv;
  }

  lemma LockStep(c: Config, s: State, e: Event)
    requires Enabled(s, e) && LockInv(c, s)
    requires e.At? ==> RequestInv(c, s.requests[e.i])
    ensures LockInv(c, Apply(c, s, e))
  {
    hide MayStore, RequestInv, Active, Act;
    var s' := Apply(c, s, e);
    if e.At? {
      var r, a := s.requests[e.i], e.action;
      ActChangesActive(c, s, r, a);
      if c.lock {
        assert Active(s'.requests[e.i]) ==> Held(s');
        forall j | 0 <= j < |s.requests| && j != e.i
          ensures Active(s'.requests[j]) <==> Active(s.requests[j])
        {
        }
        if Held(s) && !Active(r) {
          var j :| 0 <= j < |s.requests| && Active(s.requests[j]);
          assert Active(s'.requests[j]);
        }
        if Held(s') && !Active(s'.requests[e.i]) {
          var j :| 0 <= j < |s'.requests| && Active(s'.requests[j]);
          assert Active(s.requests[j]);
        }
      }
    } else {
      NewIsInactive();
      if Held(s) {
        var j :| 0 <= j < |s.requests| && Active(s.requests[j]);
        assert Active(s'.requests[j]);
      }
    }
  }

  lemma NewIsInactive()
    ensures forall opts :: !Active(NewRequest(opts))
  {
  }

  lemma StepInv(c: Config, s: State, e: Event)
    requires Enabled(s, e) && Inv(c, s)
    ensures Inv(c, Apply(c, s, e))
  {
    hide RequestInv, LockInv, Act, MayStore;
    var s' := Apply(c, s, e);
    LockStep(c, s, e);
    forall i | 0 <= i < |s'.requests|
      ensures RequestInv(c, s'.requests[i])
    {
      if e.Arrive? && i == |s.requests| {
        NewRequestInv(c, e.opts);
      } else if e.At? && i == e.i {
        ActKeepsRequest(c, s, s.requests[i], e.action);
      }
    }
  }
}
