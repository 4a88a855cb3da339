# Verified model of the foreman exporter

The exporter polls a Foreman server for hosts and host facts and serves them as Prometheus series,
through a cache that is either in-process or gossiped between replicas. This project models the parts
whose behaviour ranges over unbounded inputs, schedules or runs, and proves what they promise:

- the protobuf codec of the gossiped cache value (`Varints.dfy`, `CacheWire.dfy`, `FieldGrammar.dfy`,
  `CacheMessage.dfy`), a reference decoder over the grammar of fields (`DecodedFields.dfy`), and the last-writer-wins merge under gossip (`Gossip.dfy`);
- the bulk collection of facts: the query (`Search.dfy`) and its text in a URL (`UrlEscapes.dfy`), the
  batches (`Batches.dfy`), the pages of a batch (`FactPages.dfy`) and how they end against any server
  (`BatchEnds.dfy`), the concurrent batches (`Bulk.dfy`), what they guarantee in every completion order
  (`BulkSchedules.dfy`) and report and export for any replies (`BulkErrors.dfy`), and exactly when they
  return what the per-host route returns (`FactRoutes.dfy`);
- the bounded fan-out (`FanOut.dfy`) and the host list built on it (`HostList.dfy`);
- the two collectors as a machine of any number of concurrent requests and background scrapes around one
  cache and one lock (`Collector.dfy`), what each of its runs guarantees in terms of the run's own steps
  (`CollectorRuns.dfy`), the sequential pieces of `Collect` on variables updated in place
  (`CollectThread.dfy`) and the in-process cache (`MemCaches.dfy`).

Loops and objects that the Go code updates in place are methods and classes, each proved against a
function; the properties are lemmas about those functions. Concurrent code is a state machine whose runs
are arbitrary sequences of atomic steps. Replies of the server, the clock, leader election, the decoding
of a stored payload and the regular expressions are parameters, so every result holds for all of them.

What the proofs found beside the properties themselves:

- Decoding `a` followed by `b` accepts the same strings and yields the same message as decoding `b` into
  the result of `a`, but the *error* can differ: a length that still fits an `int` in `b` alone may
  overflow behind `a`. `CacheWire.DecodeAppend` says exactly when, `CacheWire.AppendCanChangeTheError`
  gives bytes.
- `cache_codec.go` explains its merge by a single writer per key. A request that bypasses the cache skips
  the leader check and still writes, so that is not guaranteed; `Gossip.ConvergenceNeedsUniqueNewest`
  gives the exact condition instead, and `Gossip.TiesDiverge` two updates of one instant that leave
  replicas apart.
- The repository's README says that both fact routes return the same facts. `FactRoutes.RoutesAgree`
  says exactly when: not with more facts than the per-host page holds (`FactRoutes.SinglePageLosesFacts`
  is such a fleet), and with server-side names a host whose facts are all filtered out is listed without
  labels on one route and missing on the other (`FactRoutes.NamesHideHosts`).
- `GetHostsFiltered` plans no page for a page size below one and then returns an empty list without an
  error; otherwise short reads are always reported (`HostList.ShortReadsAreDetected`).
- The order in which batches finish can change the exported facts only if two good batches bring a host
  of one name with different labels (`BulkSchedules.OrderMattersOnConflict`).
- The fan-out needs a positive concurrency: with zero it never delivers anything
  (`FanOut.Completion`, `FanOut.NothingWithoutSlots`).
- A scrape that fails after its request timed out may still set that request's error flag while it is
  being exported. `CollectorRuns.ExportsAreClassified` shows that the series do not depend on this.

## Model

| member | source | states |
|---|---|---|
| `Varints.SovCountsVarintBytes` | cache.pb.go:157-192 | the closed form (Len64(x\|1)+6)/7 is exactly the number of bytes the varint loop writes, for every value |
| `Varints.ReadWrittenUint64` | cache.pb.go:157-167 | the reading loop returns any 64-bit value that the writing loop wrote, consuming exactly its bytes, whatever follows |
| `Varints.ReadVarintEnds` | cache.pb.go:201-215 | reading stops at the first byte below 128 among the first ten, overflows behind ten others, and meets the end of the data behind fewer |
| `Varints.WrittenIsShortest` | cache.pb.go:157-215 | no accepted encoding of a value, padded or overflowing ones included, is shorter than the written one |
| `CacheMessage.EncodeVarint` | cache.pb.go:157-167 | writes the varint just before the offset and changes no other byte, in range |
| `CacheMessage.Cache.Size` | cache.pb.go:168-192 | the size is the length of the encoding |
| `CacheMessage.Cache.MarshalToSizedBuffer` | cache.pb.go:128-155 | writing backwards puts the encoding at the end of the buffer, leaves everything before it untouched and returns its length |
| `CacheMessage.Cache.Marshal` | cache.pb.go:113-121 | a buffer of exactly `Size` bytes is filled from index 0 with the encoding |
| `CacheMessage.LoadVarint` | cache.pb.go:201-215 | the loop that shifts and ors groups of seven bits equals the recursive reader: value modulo 2^64, position, and overflow or end of data after at most ten bytes |
| `CacheMessage.PassToken` | cache.pb.go:324-390 | one pass of the skipping loop, with `int` wrap-around, equals one token of the functional form |
| `CacheMessage.SkipField` | cache.pb.go:319-396 | the skipping loop terminates in bounds on every array and returns the length of the field or its error |
| `CacheMessage.Cache.UnmarshalField` | cache.pb.go:200-311 | one pass of the decoding loop: the fields as they are left, also on failure, the bytes consumed and the error |
| `CacheMessage.Cache.Unmarshal` | cache.pb.go:196-318 | decoding terminates in bounds on every byte array, leaves the message the functional decoder gives and reports the corresponding Go error; `DecodedFields.DecodeIsMeaning` says what that message is |
| `CacheWire.DecodeConcat` | cache.pb.go:196-318 | decoding a then b is decoding b into the result of a, overruns at absolute positions included |
| `CacheWire.DecodeAppend` | cache.pb.go:196-318 | acceptance and message of a followed by b are those of b into the result of a; the reported error differs exactly for a field whose end overflows `int` only behind a |
| `CacheWire.AppendCanChangeTheError` | cache.pb.go:244-253 | concrete bytes whose error changes from unexpected end of file to invalid length |
| `CacheWire.LastOneWins` | cache.pb.go:196-318 | an encoding behind accepted bytes overrides the fields it carries, leaves the others and appends its unknown fields |
| `CacheWire.RoundTrip` | cache.pb.go:113-167 | a value survives encoding and decoding if and only if its unrecognized bytes are well-formed fields numbered other than 1 to 3 |
| `CacheWire.EncodeInjective` | cache.pb.go:128-155 | different values that survive have different encodings |
| `CacheWire.DecodeKeepsUnknown` | cache.pb.go:297-311 | decoding keeps every unknown field byte for byte and in order, and the kept bytes are again well-formed |
| `CacheWire.Canonicalisation` | cache.pb.go:128-155 | whatever byte string is accepted, the decoded value survives re-encoding, unknown fields included |
| `CacheWire.CanonicalIsShortest` | cache.pb.go:168-318 | re-encoding is never longer than the bytes that were decoded |
| `FieldGrammar.SkipRecognisesFields` | cache.pb.go:319-396 | the depth counter of the skipping loop accepts exactly one field of an independent grammar with nested groups |
| `FieldGrammar.UnknownFieldsAreGrammar` | cache.pb.go:297-311 | the unrecognized bytes that survive are exactly the renderings of grammatical fields numbered other than 1 to 3 |
| `DecodedFields.DecodeIsMeaning` | cache.pb.go:196-318 | a byte string is accepted exactly when it renders fields of the grammar none of which is refused, and then yields what a reference decoder over fields makes of them |
| `DecodedFields.DecodeMeans` | cache.pb.go:196-318 | on any rendering of fields the decoding loop and the reference decoder end with the same message and the same refusal |
| `DecodedFields.FieldByNumber` | cache.pb.go:216-311 | a field behind the tag 8n+w: 1 to 3 with their wire type set exactly content, CreatedAt or ExpiresAt, 0 and other wire types are refused, every n from 4 on is kept byte for byte and changes nothing else |
| `DecodedFields.WrittenTag` | cache.pb.go:216-217 | number and wire type are read back from every tag 8n+w with n below 2^29 |
| `DecodedFields.FieldNumberWraps` | cache.pb.go:216 | the number is the 32-bit signed one congruent to the tag shifted by three |
| `DecodedFields.FieldSeventeen` | cache.pb.go:297-311 | concrete bytes of field 17 are kept and touch no other field |
| `DecodedFields.RefusedTags` | cache.pb.go:218-235 | which error each one-byte tag with nothing behind it is refused with |
| `DecodedFields.RefusedLengths` | cache.pb.go:226-255 | a missing, too long or negative length is refused as unexpected end of file, the same, and invalid length |
| `DecodedFields.EncodedExample` | cache.pb.go:128-155 | the exact bytes of a value with all four fields |
| `CacheMessage.Cache.Merge` | cache_codec.go:33-56 | the newer value wins, ties keep the local one, and a change is reported exactly on a strictly newer CreatedAt |
| `Gossip.HeardIsNewest` | cache_codec.go:45-55 | a replica always holds a newest value among those it has seen |
| `Gossip.ConvergenceNeedsUniqueNewest` | cache_codec.go:29-56 | all orders and repetitions of a set of updates lead to one value if and only if no two of them tie for newest above the initial one |
| `Gossip.TiesDiverge` | cache_codec.go:45-55 | two updates with equal CreatedAt and different content, heard in both orders, leave different values |
| `Gossip.ReplicasConverge` | cache_codec.go:29-56 | in every run, replicas that started alike and heard the same updates hold the same value |
| `Gossip.AcceptedAreDistinct` | cache_codec.go:45-55 | CreatedAt never decreases at any replica and no delivery is accepted twice |
| `Gossip.ChangesAreBounded` | cache_codec.go:45-55 | the changes of any run are at most replicas times distinct updates |
| `Search.BuildFactSearch` | foreman/factvalues.go:130-181 | the loops build the query: user search, quoted non-empty names, ids with either operator |
| `Search.TextOfSearch` | foreman/factvalues.go:142-181 | the literal text of a query with a user search, two names beside an empty one and two ids, for both operators |
| `Search.TextOfOnePart` | foreman/factvalues.go:142-181 | the literal text with a single part, and of none |
| `Search.TextOfInts` | foreman/factvalues.go:165-169 | ids are rendered in decimal, also negative ones |
| `Search.QuotedIffSyntax` | foreman/factvalues.go:130-135 | a name is quoted exactly when it contains one of the seventeen characters that are syntax |
| `Search.SearchCanBeRead` | foreman/factvalues.go:130-181 | names and ids can be read back from the query for any characters in the names and any user search |
| `Search.SearchIsUnambiguous` | foreman/factvalues.go:130-181 | two queries with the same user search and operator are equal if and only if ids and non-empty names are |
| `Batches.UrlLenGrows` | foreman/factvalues.go:142-187 | each further id makes the encoded query strictly longer, for both operators |
| `UrlEscapes.UnescapeEscaped` | foreman/factvalues.go:183-187 | unescaping gives back every byte string that was escaped for the query |
| `UrlEscapes.EscapeCost` | foreman/factvalues.go:183-187 | the unreserved bytes stay, a space takes one character, every other byte three, and only characters safe in a query are written |
| `Batches.UrlLenExample` | foreman/factvalues.go:183-187 | the query for hosts 1 and 2 takes 24 bytes |
| `Batches.SplitHosts` | foreman/factvalues.go:193-221 | the nested loops terminate with the split that halves a batch until its query fits |
| `Batches.SplitIsGood` | foreman/factvalues.go:189-221 | the batches concatenate to the hosts; each is non-empty, within factBatchSize and with an escaped query text within the URL budget unless it is a single host, and at least half the longest run from its start within both limits |
| `FactPages.MergePage` | foreman/factvalues.go:303-314 | a page is merged fact by fact into what the batch has, in any visiting order, and its rows are counted |
| `FactPages.MissingHosts` | foreman/factvalues.go:341-349 | the loop lists the requested hosts without an entry |
| `FactPages.GetFactValuesBatch` | foreman/factvalues.go:267-329 | for arbitrary replies the paging loop gives the facts, pages, truncation, missing hosts and error of the recursive form |
| `FactPages.GroupHoldsRows` | foreman/factvalues.go:303-314 | a reply grouped by host holds every row and nothing but rows |
| `FactPages.PagesAreComplete` | foreman/factvalues.go:284-329 | against fixed rows and a clamped page size E, a batch is truncated exactly when the rows number at least pages times E; otherwise it fetches floor(rows/E)+1 pages, has exactly the rows, and misses exactly the requested hosts without a row |
| `BatchEnds.BatchEnding` | foreman/factvalues.go:279-329 | for any replies: an error exactly when a page fails behind full pages only, which is then the one reported; truncated exactly when every page that may be fetched is full; otherwise the first page that is not full is the last |
| `BatchEnds.BatchHolds` | foreman/factvalues.go:303-329 | for any replies: of each fact the value of the last page that brought it, every host that a page named, and as missing exactly the requested hosts that no page named |
| `Bulk.ApplyFilter` | foreman/factvalues.go:455-469 | keeps exactly the non-empty facts that the include and exclude expressions let through |
| `Bulk.FilterKeeps` | foreman/factvalues.go:452-469 | a fact becomes a label exactly when it is not empty, the include expression, if any, matches it and the exclude expression, if any, does not |
| `Bulk.SharedTally.CommitBatch` | foreman/factvalues.go:388-432 | one critical section: all or nothing of a batch, counters and first error |
| `Bulk.GetHostsFactsBulk` | foreman/factvalues.go:356-450 | split, fetch and commit in any completion order, and the error from the counters |
| `BulkSchedules.OrderMattersOnConflict` | foreman/factvalues.go:377-450 | for any replies, all completion orders give the same facts, counters and presence of an error if and only if no two good batches bring one name with different labels |
| `BulkSchedules.ScheduleIndependent` | foreman/factvalues.go:356-450 | with distinct host names and replies that name only the hosts asked about, failed and truncated batches included, every completion order gives the same outcome |
| `BulkErrors.LossesAndErrors` | foreman/factvalues.go:388-450 | for any replies and hosts, lost hosts plus hosts of the batches that came back whole are all hosts, and there is no error exactly when every batch reached a page that is not full |
| `BulkErrors.ErrorSays` | foreman/factvalues.go:388-450 | for any replies: how many batches failed, were truncated, existed, and how many hosts they had, in the message that fits, with the error of the failing page of the batch that failed first |
| `BulkSchedules.Accounting` | foreman/factvalues.go:390-432 | a host is exported, with its batch's facts filtered, exactly when its batch came back whole and brought it; none of a failed or truncated batch is, and no other name |
| `BulkErrors.ExportsAreReplies` | foreman/factvalues.go:390-469 | told by the replies: a host is exported exactly when its batch came back whole and named it, with exactly the brought facts that the expressions keep; nothing of a batch with a failed page or without an end |
| `FactRoutes.CollectPerHost` | foreman/foreman.go:779-798 | the loop over the per-host results collects the filtered facts and counts failures |
| `FactRoutes.PerHostCollects` | foreman/foreman.go:779-798 | for any results: exactly the failed ones are counted, no other is dropped, and the last result that names a host decides its facts |
| `FactRoutes.BulkHost` | foreman/factvalues.go:356-469 | under every schedule a host gets exactly its facts that were asked for, pass the filter and are non-empty |
| `FactRoutes.PerHostHost` | foreman/foreman.go:643-695 | the per-host route gives a host exactly the facts of its single page that pass the filter |
| `FactRoutes.RoutesAgree` | foreman/factvalues.go:356-469 | both routes return the same map if and only if, for every host, the facts that pass the filter are asked for exactly when they are on the single page, and the names do not hide all of a host's facts |
| `FactRoutes.SinglePageLosesFacts` | foreman/foreman.go:643-695 | one host with two facts and one fact per page: the bulk route has the second fact, the per-host route does not |
| `FactRoutes.NamesHideHosts` | foreman/factvalues.go:341-349 | one host whose fact the names hide and the filter drops: listed without labels on the per-host route, missing on the bulk route |
| `FactRoutes.RoutesAgreeWithoutNames` | foreman/foreman.go:775-798 | without server-side names the routes agree whenever every host fits the single page |
| `FactRoutes.RoutesAgreeOnLabels` | foreman/factvalues.go:452-469 | with names covering all kept facts they agree on the labels of every host |
| `FanOut.StepInv` | foreman/foreman.go:855-927 | every step keeps the channel fill, the delivered indices and the close consistent |
| `FanOut.Safety` | foreman/foreman.go:855-927 | in every reachable state at most the limit hold a slot, no index is delivered twice, and no worker can send once the channels are closed |
| `FanOut.LimitCanBeReached` | foreman/foreman.go:855-915 | some run has as many requests in flight as the limit and the work allow |
| `FanOut.Progress` | foreman/foreman.go:855-915 | until the channels are closed some step is enabled |
| `FanOut.RunsAreBounded` | foreman/foreman.go:855-915 | every run is finite: the steps taken plus those left are a constant |
| `FanOut.Completion` | foreman/foreman.go:623-695 | a run that cannot continue took 5n+1 steps and delivered every index once, if and only if the limit is positive or there is no work |
| `FanOut.SortedIsInOrder` | foreman/foreman.go:688-694 | under every schedule sorting puts each reply at its own index |
| `HostList.GatherUnderAnySchedule` | foreman/foreman.go:855-927 | a completed fan-out over pages returns the replies in page order |
| `HostList.PageCountIsLeast` | foreman/foreman.go:709-719 | a number of pages covers the hosts wanted exactly when it is at least the planned one |
| `HostList.GetThinList` | foreman/foreman.go:721-767 | first page, echoed page size, remaining pages, first failure fatal |
| `HostList.NoPartialList` | foreman/foreman.go:735-767 | there is no list if and only if the first or a planned page failed |
| `HostList.ListUnderClamping` | foreman/foreman.go:702-767 | under a clamping server the list is a prefix of the matching hosts that covers the hosts wanted and overshoots by less than a page |
| `HostList.GetHostsFiltered` | foreman/foreman.go:801-850 | probe, planned pages, successful pages concatenated, error on a failure or a short read |
| `HostList.ShortReadsAreDetected` | foreman/foreman.go:801-850 | for every probe and any replies: only an error if the probe failed; otherwise the hosts of the pages that came back, in page order, with an error exactly when a planned page failed or fewer hosts than wanted were collected, and what it says |
| `HostList.HostsUnderClamping` | foreman/foreman.go:801-850 | against a fixed list the hosts are a prefix of it, and a clamped page size is noticed exactly when the planned pages do not hold the hosts wanted |
| `MemCaches.MemCache.Set` | memcache/memcache.go:24-33 | stores the value with its expiry and touches no other key |
| `MemCaches.MemCache.Del` | memcache/memcache.go:43-47 | removes the key only |
| `MemCaches.FindsWhatWasLastPut` | memcache/memcache.go:24-47 | after any operations on any keys an entry is found, expired or not, exactly when the last operation on its key put it there |
| `CollectThread.Collect.ReadLocalCache` | host_collector.go:111-136 | a hit, an expired entry or nothing, and whether a scrape is needed |
| `CollectThread.Collect.Select` | hostfact_collector.go:207-228 | what each arm of the select does to the variables |
| `CollectThread.Collect.FallBack` | hostfact_collector.go:230-250 | the fallback switch keeps the data, keeps it as expired, or drops it |
| `CollectThread.StoreScrape` | hostfact_collector.go:188-202 | the cache is written exactly when the scrape may be stored |
| `CollectThread.FilterLabels` | host_collector.go:177-204 | the labels that remain after deletion in place: the name always, the id never, others as the expressions say |
| `Collector.StepInv` | host_collector.go:58-293 | every step of any request or goroutine keeps the lock, channel, error-flag and local-variable invariants |
| `CollectorRuns.CacheIsLastScrape` | hostfact_collector.go:188-202 | in every run the cache holds what the client returned to the scrape behind the last storing step that was permitted, with its full TTL from that step, or nothing if there was none |
| `CollectorRuns.HitsAreSafe` | host_collector.go:111-126 | in every run an unexpired hit is non-empty, is what the client had returned without error (or with one and the flag) to the request that stored it, was stored within the TTL before it was read, and was the last thing stored until then |
| `CollectorRuns.CachedExportsAreScrapes` | hostfact_collector.go:104-250 | in every run any cached series exported, expired ones included, are what the client had returned to the scrape stored last before the read, and are within the TTL exactly when they count as an unexpired hit |
| `CollectorRuns.ReadsDecide` | hostfact_collector.go:52-122 | in every run, on the ring as off it: not the leader exports nothing, an undecodable entry only the error, an unexpired entry of the reply or the local cache is exported as it is, none of them scrapes, and every other reply starts a scrape |
| `CollectorRuns.ExportsAreClassified` | hostfact_collector.go:52-270 | exported series come from one of five sources; what was read is the ring's reply or the local cache at that step; a fresh scrape is what the client returned to this very request, with its error gauge; the expired-cache gauge is 1 exactly for the opt-in fallback, the timeout gauge exactly for the deadline, the error gauge exactly if the client had failed by the time of the export |
| `CollectorRuns.LockProtocol` | hostfact_collector.go:143-158 | in every run at most one scrape is active, the slot is full exactly while one is, and a request that found it full never stores |
| `CollectorRuns.LockIsTried` | hostfact_collector.go:143-158 | in every run a goroutine that tries the lock scrapes, unless the lock is in use and another scrape is active, and then its request is told |
| `CollectorRuns.TasksNeverBlock` | hostfact_collector.go:139-205 | in every run each unfinished goroutine has an enabled step and sends at most one message |
| `CollectorRuns.RequestsNeverBlock` | hostfact_collector.go:139-270 | in every run each request that has not exported or been refused has an enabled step, and can receive what was sent to it |

## Left out

- HTTP, JSON, TLS, retries, rate limiting: replies are arbitrary values or values of a fixed server.
- Ring and memberlist transport: the leader check and the value read from the store are inputs; writes to the replicated store are not part of the local cache whose safety is proved.
- Compression and JSON of the cached payload: opaque bytes in the codec, a list of label maps in the collectors.
- Counters, histograms and log lines; the deterministic marshal path, descriptors and `XXX_Merge`.
- Fact-name-to-label sanitising and its collisions.
- CacheMessage.Cache.Unmarshal: nil and empty slices are the same sequence, and the reuse of the old content buffer is not modelled.
- CacheMessage.Cache.Merge: an argument of another type cannot occur, so that error is absent.
- HostList.PageCountIsLeast: the float ceiling of `pageCount` is an exact integer ceiling, which it equals for counts up to 2^53.
- HostList.ListUnderClamping: the fixed server reports the number of the page it returns, as the code relies on; a negative limit is not considered.
- Batches.SplitHosts: the sum of a start index and the batch size is taken not to overflow `int`.
- Bulk.GetHostsFactsBulk: the semaphore, mutex and wait group of the batches appear as an arbitrary completion order; their own protocol is the one of the host fan-out without the result channel.
- FanOut.SortedIsInOrder: `sort.Slice` is any permutation that is ordered by index.
- Collector.StepInv: `Collect` and its goroutine appear as atomic steps on values, since their interleavings are what is proved about; the deadline may strike at any time, which includes every real one. The same sequential code on variables is in `CollectThread`.
