/** The sequential pieces of `Collect` as the code runs them, on variables that are updated in place.
    They are proved to do what the concurrent machine in `Collector` takes as single steps. */
module CollectThread {
  import opened Wrappers
  import opened MemCaches
  import opened Bulk
  import opened Collector

  class Collect {
    var found: bool
    var expired: bool
    var data: Series
    var errVal: bool
    var timeoutVal: bool
    var expiredVal: bool
    var servedFromScrape: bool

    constructor ()
      ensures Value() == NO_VARS && !expired
    {
      found, expired, data := false, false, [];
      errVal, timeoutVal, expiredVal, servedFromScrape := false, false, false, false;
    }

    function Value(): Vars
      reads this
    {
      Vars(found, data, errVal, timeoutVal, expiredVal, servedFromScrape)
    }

    /** Reads the local cache, as far as it is to be used, and says whether a scrape is needed. */
    method ReadLocalCache(c: Config, opts: Options, cache: MemCache<Series>, key: string, now: int)
      returns (scrape: bool)
      requires Value() == NO_VARS && !expired
      modifies this
      ensures
        var entry := if c.cacheEnabled && opts.useCache then Lookup(cache.data, key) else None;
        && Value() == VarsAfterRead(NO_VARS, entry, now)
        && (scrape <==> !found)
        && (expired <==> entry.Some? && !found)
    {
      if c.cacheEnabled && opts.useCache {
        var cached := cache.Get(key);
        if cached.Some? {
          if now > cached.value.expiresAt {
            expired := true;
          } else {
            found := true;
          }
          data := cached.value.value;
        }
      }
      scrape := !found || expired;
    }

    /** The select: a result, the news of another scrape, or the deadline. */
    method Select(ending: Ending)
      modifies this
      ensures Value() == VarsAfterSelect(old(Value()), ending)
    {
      var cached := data;
      match ending {
        case GotResult(scraped) =>
          if |scraped| > 0 {
            data := scraped;
            servedFromScrape := true;
          } else {
            data := cached;
          }
        case GotBusy =>
        case TimedOut =>
          timeoutVal := true;
      }
    }

    /** The fallback to the cached value. */
    method FallBack(c: Config, opts: Options)
      requires !expiredVal
      modifies this
      ensures Value() == VarsAfterFallback(c, opts, old(Value()))
    {
      if !servedFromScrape && (errVal || timeoutVal) {
        if c.cacheEnabled && opts.useExpiredCache && |data| != 0 {
          expiredVal := true;
        } else if |data| != 0 {
          data := [];
        }
      }
    }

    method Emit(c: Config) returns (out: Export)
      ensures out == ExportOf(c, Value())
    {
      out := Export(data, errVal, timeoutVal, if c.cacheEnabled then Some(expiredVal) else None);
    }
  }

  /** The goroutine's cache step, for a collector that is not on the ring. */
  method StoreScrape(c: Config, cache: MemCache<Series>, key: string, data: Series, failed: bool, now: int)
    requires !c.ring
    modifies cache
    ensures cache.data ==
      if MayStore(c, data, failed) then old(cache.data)[key := CacheEntry(data, now + c.ttl)] else old(cache.data)
  {
    if c.cacheEnabled && |data| > 0 && (!failed || c.cacheOnPartial) {
      cache.Set(key, data, now, c.ttl);
    }
  }

  /** The label loop of the host collector: the name always stays, the id never. */
  method FilterLabels(hostLabels: map<string, string>, flt: FactFilter) returns (filtered: map<string, string>)
    ensures filtered == map l | l in hostLabels && l != "id" && (l == "name" || Kept(flt, l)) :: hostLabels[l]
  {
    var labels := hostLabels - {"id"};
    filtered := labels;
    var todo := labels.Keys;
    while todo != {}
      invariant todo <= labels.Keys
      invariant filtered == map l | l in labels && (l in todo || l == "name" || Kept(flt, l)) :: labels[l]
      decreases todo
    {
      var name :| name in todo;
      todo := todo - {name};
      if name == "name" {
        continue;
      }
      if flt.includes.Some? && !flt.includes.value(name) {
        filtered := filtered - {name};
        continue;
      }
      if flt.excludes.Some? && flt.excludes.value(name) {
        filtered := filtered - {name};
      }
    }
  }
}
