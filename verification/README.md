# Verified model of the CDN's stateful protocols

This project models, in Dafny, the parts of the CDN whose guarantees depend on state, interleaving or exact
arithmetic, and proves what they promise. One module stands for one component of the system.

- **Request coalescing** (`Coalescer.dfy`, `AutoTuner.dfy`). The proxy's single-flight protocol: the first miss of a
  key becomes the leader and fetches, later arrivals subscribe to its broadcast channel, and a drop guard covers panic
  and cancellation. Each critical section is one step and steps of all callers interleave. Beside it runs the task that
  doubles or halves the channel capacity.
- **In-flight memory** (`InFlight.dfy`). The semaphore and the byte counter with its compare-and-swap reservation loop,
  reconciliation and release. Load and swap are separate steps; the counter is a wrapping 64-bit word.
- **Disk cache** (`CacheIndex.dfy`, `CacheContents.dfy`, `CacheLayer.dfy`, `CacheInterleaving.dfy`). Index, byte counter
  and files of the storage service. The functions of `CacheIndex` are what the locked sections compute; the class
  `CacheLayer` carries them out on real fields, one caller at a time, and refines a plain map; `CacheInterleaving` lets
  any number of operations run their sections in any order, with unlocked loads that may see any value.
- **Serving hits** (`ByteRanges.dfy`, `ContentCoding.dfy`, `HitPath.dfy`). Range parsing and resolution, the choice of a
  content coding, the save path that builds a pre-compressed variant, and the promotion from disk to memory.
- **Log stream** (`DockerFrames.dfy`). Docker's multiplexed frames, decoded from arbitrary chunks and in one pass.
- **Domain changes** (`HostLocks.dfy`, `DomainSync.dfy`, `PushInterleaving.dfy`, `LikeEscaping.dfy`). The per-host
  promise chain, the change/push/undo sequences of the admin server with the proxy's `update_domains_handler` at the
  other end, one request at a time and with requests of different hosts overlapping, and the literal search through SQL
  LIKE.
- **Companions** (`EventBatcher.dfy`, `CertCache.dfy`, `RecentQueries.dfy`). The optimization-event batcher, the
  double-checked certificate cache, and the DNS service's recent-query buffer with its ranking.

`Sorting.dfy` stands for the library sort, `MapSum.dfy` sums maps, `Text.dfy` trims and splits text, `Wrappers.dfy` holds
shared types.

A component that changes state is a class with the source's fields. Its methods say that the new state is a step
function of the old one, and write out beside that what each outcome is; the lemmas speak about whole runs of that step
function. Some states carry history (who leads a channel, when a call entered, what was accepted and until when) that no
step reads; the statements below need it.

## Where the code falls short of a promise

- Different cache keys can share a file, because the path of a pre-compressed variant is built with `with_extension`.
  `CacheContents.DottedKeysShareAFile` names two that do, and `CacheContents.FilesDisjointExactly` says exactly when two
  keys share none. What that means for what is read: every run of puts and removals over a set of keys reads back what
  was last put, if and only if the keys have separate files (`CacheContents.SeparateFilesExactly`). Digests, which hold no
  dot, always have (`CacheContents.FilesDoNotCollide`).
- The in-flight counter is a wrapping 64-bit word. When no request exceeds m bytes it is exact, and the memory bound
  holds, in every run if and only if permits * m is below 2^64, whatever the limit
  (`InFlightMemory.BoundHoldsExactlyWhenPermitsFit`; `InFlightMemory.CorrectionsOverflow` is the failing run). Where no
  reservation is corrected afterwards it also holds whenever the limit is below 2^64 - 1, and only then or when the
  permits fit (`InFlightMemory.UncorrectedBoundHoldsExactly`; `InFlightMemory.TopLimitBreaksTheBound` is the failing
  run).
- The cache's size tests add two 64-bit numbers. No sum overflows in any run, and every test decides as it should, if and
  only if the capacity is below 2^63 (`CacheInterleaving.SizeTestsFitExactly`). Subtractions never underflow, whatever
  the capacity.
- `ByteRanges.ResolutionIsExact`: `resolve_range` returns a wrong interval for two kinds of range that only a caller
  other than the parser could build: reversed bounds that start inside the body, and a suffix of length zero. The parser
  yields neither.
- `ContentCoding.AppliedCodingIsAcceptable`: a coding is applied against sections 5.3.1 and 5.3.4 of RFC 7231 in exactly
  two cases. Br is refused by name while `*` is accepted, as in `br;q=0,*` (`ContentCoding.RefusedBrIsApplied`); or every
  item that supplies the coding states a weight of zero that goes unseen, as in `br;Q=0`
  (`ContentCoding.UpperCaseRefusalIsApplied`). In an item with one weight, as the grammar has it, only an upper-case Q
  goes unseen (`ContentCoding.OverlookedIsUpperCase`); in others a later weight can hide a zero.
- The proxy's maps can differ from the enabled rows. One request at a time they do exactly when the last push that reached
  the proxy was not confirmed and showed a change that was then undone (`DomainSync.MirrorHoldsExactly`). Host locks do
  not keep requests of different hosts apart: a failed change can stay at the proxy because another request's push showed
  it (`PushInterleaving.FailedChangeLeaks`), and a confirmed change can be forgotten because an older push arrives later
  (`PushInterleaving.OvertakenPushForgets`). `PushInterleaving.MirrorSurvivesExactly` says exactly which runs are safe.
- `RecentQueries.CapacityBoundsBuffer`: a buffer created with capacity zero never drops anything.

## Model

| member | source | states |
|---|---|---|
| `Coalescing.StepKeepsInv` | services/proxy/src/coalescer.rs:99-160 | Every step of every caller keeps the inductive invariant: a live leader owns the entry of its key, an entry has a live leader, a channel carries at most one message, and every waiter and every returned call is consistent with its channel |
| `Coalescing.RunKeepsInv` | services/proxy/src/coalescer.rs:99-160 | The invariant holds after every interleaving, panics and cancellations included |
| `Coalescing.OneLiveLeaderPerKey` | services/proxy/src/coalescer.rs:102-156 | In every reachable state a key is in the map if and only if a live call leads it, the entry is that leader's own channel, and no two calls lead one key |
| `Coalescing.LeaderRemovesOnlyItsOwnChannel` | services/proxy/src/coalescer.rs:133-156 | Whether a leader finishes or is dropped, exactly the entries pointing at its own channel go, only that channel is closed, and only a finished fetch sends on it |
| `Coalescing.SettledChannelIsFrozen` | services/proxy/src/coalescer.rs:133-156 | Once its sender is gone no later step changes a channel |
| `Coalescing.CallsKeepTheirChannel` | services/proxy/src/coalescer.rs:102-126 | Over any run a call keeps its key, channel and entry time, and settled channels stay as they are |
| `Coalescing.Delivery` | services/proxy/src/coalescer.rs:115-126 | A subscriber still waiting when its leader ends receives that leader's result however much happens in between, or an error if the leader was dropped |
| `Coalescing.NobodyIsStranded` | services/proxy/src/coalescer.rs:115-144 | A waiting call has a live leader of its own key, or its receive completes at once |
| `Coalescing.EveryReplyIsTheLeaders` | services/proxy/src/coalescer.rs:99-160 | The lag counter stays zero; every reply is the reply of that channel's leader, or an error if the leader was dropped; and the channel was settled after the call entered |
| `Coalescing.GoneMeansAbandoned` | services/proxy/src/coalescer.rs:99-160 | In any run a call ends without a reply only if it was cancelled as a subscriber or dropped as a leader |
| `Coalescing.EnteringSubscribes` | services/proxy/src/coalescer.rs:104-117 | A call that enters while its key is fetched waits on that fetch's channel, and goes on waiting until the fetch ends |
| `Coalescing.SubscriberGetsTheReply` | services/proxy/src/coalescer.rs:99-160 | From the call on: a call that enters while its key is fetched and is never cancelled gets, with its first receive after the fetch has ended, what the fetch returned, or an error if the fetcher was dropped, whatever happens in between |
| `Coalescing.ReceiveIgnoresCapacity` | services/proxy/src/coalescer.rs:99-110 | What a subscriber receives does not depend on the capacity of its channel |
| `Coalescing.CapacityIsIrrelevant` | services/proxy/src/coalescer.rs:99-160 | Two runs that differ only in requested capacities, zero included, leave every call in the same state |
| `Coalescing.Coalescer.constructor` | services/proxy/src/coalescer.rs:46-62 | A new coalescer is idle |
| `Coalescing.Coalescer.Enter` | services/proxy/src/coalescer.rs:99-113 | The first critical section is the Enter step: an absent key makes the caller leader of a new channel, a present one makes it wait on the channel that is there |
| `Coalescing.Coalescer.FetchDone` | services/proxy/src/coalescer.rs:149-160 | The last critical section of a leader is the FetchDone step: its key leaves the map, its reply is sent, its channel settles |
| `Coalescing.Coalescer.DropGuard` | services/proxy/src/coalescer.rs:127-144 | Dropping an unfinished leader is the LeaderDropped step: its key leaves the map and its channel settles without a message |
| `Coalescing.Coalescer.Recv` | services/proxy/src/coalescer.rs:115-126 | A subscriber's receive is the Recv step, from any state whose ids are sound: a message is returned, a settled empty channel fails, a live one lets it wait, a lag is counted |
| `Coalescing.Coalescer.CancelSubscriber` | services/proxy/src/coalescer.rs:115-126 | Cancelling a subscriber changes nothing but that call |
| `AutoTuning.CapacityStaysInBounds` | services/proxy/src/lib.rs:123-155 | In every run the capacity stays within 256 and 65536 |
| `AutoTuning.LaggingRunDoubles` | services/proxy/src/lib.rs:133-138 | k lagging intervals from c give min(65536, c * 2^k) |
| `AutoTuning.CalmRunHalves` | services/proxy/src/lib.rs:139-147 | Every tenth calm interval, counting those already behind, halves the capacity down to the floor |
| `AutoTuning.LagThenCalm` | services/proxy/src/lib.rs:127-155 | Mixed runs: lag starts the count of calm intervals over, so k lagging intervals and then n calm ones double k times, halve once for each full ten of n, and leave n mod 10 behind |
| `AutoTuning.HalvedIsShift` | services/proxy/src/lib.rs:139-147 | n halvings never pass the floor, and reach it when the start is at most 256 * 2^n |
| `AutoTuning.EightyCalmIntervalsReachTheFloor` | services/proxy/src/lib.rs:123-155 | Eighty calm intervals from any admissible state end at 256 |
| `AutoTuning.CapacityNeverIncreases` | services/proxy/src/lib.rs:123-155 | Reading the lag counter of any run of the coalescer, the tuner never raises the capacity |
| `AutoTuning.AutoTuner.constructor` | services/proxy/src/lib.rs:86-125 | The configured capacity, or 1024 if it is unset, unreadable or zero, is clamped into the bounds, and the baseline is the current lag count |
| `AutoTuning.AutoTuner.Run` | services/proxy/src/lib.rs:127-155 | The loop of the task computes the tuner's run over its readings |
| `InFlightMemory.RunKeepsInv` | services/proxy/src/lib.rs:192-227 | In every run the counter is the sum reserved by live guards, modulo 2^64, and admitted fetches never outnumber permits |
| `InFlightMemory.CounterReturnsToZero` | services/proxy/src/lib.rs:223-227 | When every guard has dropped the counter is zero |
| `InFlightMemory.GuardsNeverOutnumberPermits` | services/proxy/src/lib.rs:1334-1466 | Live guards are at most the permits held, which are at most the permits there are; a corollary of the invariant |
| `InFlightMemory.MemoryBound` | services/proxy/src/lib.rs:189-221 | If m bytes for every permit fit a word and no request exceeds m, then under any interleaving the counter is exactly the reserved sum and at most max(limit, largest single reservation) plus the live guards' outstanding upward corrections |
| `InFlightMemory.UndisturbedReservation` | services/proxy/src/lib.rs:192-208 | A reservation nobody disturbs goes through whenever the counter is zero, counter + want is within the limit, or the limit is 2^64 - 1 |
| `InFlightMemory.BoundHoldsExactlyWhenPermitsFit` | services/proxy/src/lib.rs:192-221 | With requests of at most m bytes, exactness and the bound hold in all runs if and only if permits * m < 2^64, for every limit |
| `InFlightMemory.CorrectionsOverflow` | services/proxy/src/lib.rs:210-221 | Otherwise there is a run within m whose corrections leave the counter below what is held, for every limit |
| `InFlightMemory.UncorrectedBoundHoldsExactly` | services/proxy/src/lib.rs:192-221 | Without corrections they hold in all runs if and only if the limit is below 2^64 - 1 or permits * m < 2^64 |
| `InFlightMemory.TopLimitBreaksTheBound` | services/proxy/src/lib.rs:192-208 | At the top limit reservations alone overflow the counter and pass the bound |
| `InFlightMemory.InFlightBuffer.constructor` | services/proxy/src/lib.rs:160-190 | The counter starts at zero with no fetch |
| `InFlightMemory.InFlightBuffer.TryAcquire` | services/proxy/src/lib.rs:1334-1351 | Admission is the Acquire step |
| `InFlightMemory.InFlightBuffer.StartReserving` | services/proxy/src/lib.rs:1430-1438 | An admitted fetch turns to reserving what it wants; nothing else changes |
| `InFlightMemory.InFlightBuffer.LoadCounter` | services/proxy/src/lib.rs:194-200 | The load and its test are the Load step: refused if and only if the counter is above zero and counter + want exceeds a limit below 2^64 - 1 |
| `InFlightMemory.InFlightBuffer.CompareExchange` | services/proxy/src/lib.rs:201-206 | compare_exchange_weak is the Swap step, spurious failure included |
| `InFlightMemory.InFlightBuffer.Attempt` | services/proxy/src/lib.rs:194-206 | One turn of the loop is a load, what others do, and a swap, or a load that the test refuses |
| `InFlightMemory.InFlightBuffer.Reserve` | services/proxy/src/lib.rs:192-208 | Under any interference the effect is that of the named attempts' loads, interference and swaps: every load that led to a swap found room in plain arithmetic, success leaves a guard for exactly what was wanted, and refusal follows one more load that found none |
| `InFlightMemory.InFlightBuffer.ReconcileTo` | services/proxy/src/lib.rs:210-221 | Reconciliation is the Reconcile step, up or down |
| `InFlightMemory.InFlightBuffer.Drop` | services/proxy/src/lib.rs:223-227 | Dropping a guard gives back what it holds |
| `InFlightMemory.InFlightBuffer.ReleasePermit` | services/proxy/src/lib.rs:1334-1351 | A fetch without a guard gives its permit back |
| `CacheIndex.RemoveKeepsAccount` | services/storage-service/src/cache.rs:463-486 | Removing a key keeps the counter equal to the indexed total and within capacity |
| `CacheIndex.LookupKeepsAccount` | services/storage-service/src/cache.rs:212-238 | So does a lookup, expired or not, stale allowed or not |
| `CacheIndex.RegisterKeepsAccount` | services/storage-service/src/cache.rs:346-367 | So does the registration of a put, thanks to its second size check |
| `CacheIndex.AccessOrderDescribes` | services/storage-service/src/cache.rs:375-380 | The sorted candidates list every indexed key once with its true size, oldest access first |
| `CacheIndex.VictimsArePrefix` | services/storage-service/src/cache.rs:382-393 | The victims are a prefix of the candidates that frees enough or is everything, and no shorter prefix would do |
| `CacheIndex.EvictKeepsAccount` | services/storage-service/src/cache.rs:370-394 | Eviction keeps the account |
| `CacheIndex.VictimsAreOldest` | services/storage-service/src/cache.rs:375-393 | No survivor was accessed before a victim, whatever order the hash map yields |
| `CacheIndex.HitIsEvictedLast` | services/storage-service/src/cache.rs:227-231 | A fresh entry looked up later than all others were accessed moves to the young end: it is evicted only if all the others have to go and their bytes are not enough |
| `CacheIndex.EvictionIsShortest` | services/storage-service/src/cache.rs:382-393 | The counter drops by exactly the victims' sizes, and sparing the last victim would free too little |
| `CacheIndex.EvictionFrees` | services/storage-service/src/cache.rs:370-394 | Eviction frees what is needed or leaves the cache empty |
| `CacheIndex.PurgeKeepsAccount` | services/storage-service/src/cache.rs:488-558 | Purging a set of keys keeps the account and lowers the counter by exactly their bytes |
| `CacheIndex.StatsAdd` | services/storage-service/src/cache.rs:585-600 | One more entry changes the statistics of its own domain only |
| `CacheIndex.StatsSumToTotal` | services/storage-service/src/cache.rs:585-600 | The per-domain sizes add up to the indexed total |
| `CacheContents.FilesDoNotCollide` | services/storage-service/src/cache.rs:235-254 | Any set of keys without dots has separate files, three for each key |
| `CacheContents.FilesDisjointExactly` | services/storage-service/src/cache.rs:235-254 | Two different keys share no file if and only if their stems differ and neither is the other's headers file |
| `CacheContents.SeparateFilesExactly` | services/storage-service/src/cache.rs:235-404 | Every run of puts and removals over a set of keys reads back, for every key, what was last put and not removed, if and only if the keys have separate files |
| `CacheContents.SeparateReadsBack` | services/storage-service/src/cache.rs:235-404 | With separate files every such run reads back exactly body and variant last put |
| `CacheContents.SameStemMixesUp` | services/storage-service/src/cache.rs:311-325 | Two keys with one stem: a run in which one is read with the other's variant |
| `CacheContents.HeadersReplaceBody` | services/storage-service/src/cache.rs:326-335 | A key that is another's headers file: a run in which its body is replaced |
| `CacheContents.VariantReplacesBody` | services/storage-service/src/cache.rs:301-325 | A key that is its own variant's file: a put whose body is replaced |
| `CacheContents.DottedKeysShareAFile` | services/storage-service/src/cache.rs:301-325 | Two dotted keys share one `.br` file, and a put under one replaces the variant of the other |
| `CacheContents.RemovalKeepsTheRest` | services/storage-service/src/cache.rs:396-404 | Removing keys and deleting their files leaves every other stored value as it was |
| `CacheContents.RemovedFiles` | services/storage-service/src/cache.rs:396-404 | A removal leaves no body, variant or headers file of a removed key and every other file as it was |
| `CacheContents.WriteStores` | services/storage-service/src/cache.rs:301-367 | Where files are separate, after the writes of a put the stored value is exactly what was put, leftover `.br` files notwithstanding, and no other value changes |
| `CacheContents.WrittenFiles` | services/storage-service/src/cache.rs:301-335 | A put leaves the body under the key, a variant that is not empty beside it, headers whose text has at most 8192 bytes in the headers file, and no other file changed |
| `CacheContents.ContentsAreLastAcceptedPuts` | services/storage-service/src/cache.rs:202-582 | After any history a key is present if and only if some put of it was dropped by nothing later, and holds its last accepted put; the cache's own history is tied to its contents by `Valid` |
| `DiskCache.CacheLayer.constructor` | services/storage-service/src/cache.rs:172-181 | A new cache is empty |
| `DiskCache.CacheLayer.LookupSection` | services/storage-service/src/cache.rs:212-238 | The locked lookup computes Lookup: an absent key, an entry past its deadline that goes unless stale ones are allowed, or a fresh one that is counted and touched |
| `DiskCache.CacheLayer.ForgetSection` | services/storage-service/src/cache.rs:256-267 | An entry whose file is missing is forgotten |
| `DiskCache.CacheLayer.ReadFiles` | services/storage-service/src/cache.rs:235-267 | The read returns the stored value, or forgets the entry when the body file is missing |
| `DiskCache.CacheLayer.RegisterSection` | services/storage-service/src/cache.rs:346-367 | The locked registration computes Register: the entry replaces the old one if and only if it fits beside the entries of all other keys |
| `DiskCache.CacheLayer.Store` | services/storage-service/src/cache.rs:301-367 | Write, register, and on refusal take back body and headers file; the disk afterwards is stated exactly |
| `DiskCache.CacheLayer.EvictSection` | services/storage-service/src/cache.rs:372-394 | The eviction loop computes Evict, without underflow, and returns the victims in order |
| `DiskCache.CacheLayer.PurgeSection` | services/storage-service/src/cache.rs:488-511 | The purge loop removes the given keys and returns their number and bytes |
| `DiskCache.CacheLayer.EvictLru` | services/storage-service/src/cache.rs:370-404 | Index and disk lose exactly the victims and their files, freeing what is needed or everything |
| `DiskCache.CacheLayer.StoreFitting` | services/storage-service/src/cache.rs:301-367 | Storing what fits never reaches the rollback and always ends indexed, with the files stated exactly |
| `DiskCache.CacheLayer.Put` | services/storage-service/src/cache.rs:276-367 | For every key: an over-size put changes nothing; any other ends indexed with the entry and deadline its arguments say, at the price of exactly the entries eviction needed, with index, files and history stated exactly; while keys have separate files every key goes on reading back its last accepted put |
| `DiskCache.CacheLayer.GetWithStale` | services/storage-service/src/cache.rs:202-269 | A key is found if and only if some put of it was accepted and not dropped since, and stale ones are allowed or the deadline of that put has not passed; the hit is exactly that put, stale if and only if the deadline has passed; a fresh hit is counted and touched, a stale one changes nothing, and an expired entry that is not allowed goes with its files |
| `DiskCache.CacheLayer.PurgeByKey` | services/storage-service/src/cache.rs:463-486 | Drops that key from index, disk and history and reports its count and size |
| `DiskCache.CacheLayer.PurgeByUrl` | services/storage-service/src/cache.rs:488-522 | Drops exactly the entries of that URL from index, disk and history, with their count and the exact decrease |
| `DiskCache.CacheLayer.PurgeDomain` | services/storage-service/src/cache.rs:524-558 | Drops exactly the entries of that domain, likewise |
| `DiskCache.CacheLayer.PurgeAll` | services/storage-service/src/cache.rs:560-582 | Leaves nothing and reports everything |
| `DiskCache.CacheLayer.EvictToRatio` | services/storage-service/src/cache.rs:443-455 | Above the hard ratio usage ends at or below the target with the fewest oldest entries and their files gone; below it nothing happens; the result is the exact decrease |
| `DiskCache.CacheLayer.EvictIf` | services/storage-service/src/cache.rs:443-455 | The same for whatever the float computations make of the usage test and the target |
| `DiskCache.ReachedMeans` | services/storage-service/src/cache.rs:444-447 | Usage has reached the hard ratio if and only if the capacity is above zero and the used bytes are at least that ratio of it |
| `DiskCache.TargetMeans` | services/storage-service/src/cache.rs:448 | The target is the largest whole number of bytes within the ratio of the capacity, and never negative |
| `DiskCache.CacheLayer.GetDomainStats` | services/storage-service/src/cache.rs:585-600 | The accumulated statistics are the per-domain totals, and their sizes add up to the counter |
| `CacheInterleaving.StepKeepsAccount` | services/storage-service/src/cache.rs:202-404 | Every step of every operation keeps the account |
| `CacheInterleaving.RunKeepsAccount` | services/storage-service/src/cache.rs:202-600 | So does every interleaving |
| `CacheInterleaving.CounterIsExactAndBounded` | services/storage-service/src/cache.rs:202-600 | From an empty cache the counter is always the indexed total, the sum of the domain statistics, and within capacity |
| `CacheInterleaving.CounterNeverUnderflows` | services/storage-service/src/cache.rs:212-264 | In every run and for every capacity, taking out any entry or any set of entries leaves the counter non-negative |
| `CacheInterleaving.PutAloneIsSequential` | services/storage-service/src/cache.rs:276-367 | The steps of one undisturbed put evict what the sequential put evicts and end with its entry indexed |
| `CacheInterleaving.LookupAlone` | services/storage-service/src/cache.rs:202-269 | The steps of one lookup count and touch a fresh entry, keep or take out an expired one, and forget an entry whose file is not found |
| `CacheInterleaving.EvictToAlone` | services/storage-service/src/cache.rs:443-455 | So do those of an eviction to a target: usage ends at or below it with the oldest entries gone |
| `CacheInterleaving.SizeTestsFitExactly` | services/storage-service/src/cache.rs:294-358 | The sums a put compares with the capacity stay below 2^64 in all runs, and the tests with wrapping sums agree with the tests on true sums in all runs, if and only if the capacity is below 2^63 |
| `CacheInterleaving.RacingPutsNeedTheRecheck` | services/storage-service/src/cache.rs:294-364 | Two puts that both pass the first size test: the second is rolled back, and without the re-check capacity would be exceeded |
| `ByteRanges.ParseAcceptsExactlySpelledRanges` | services/proxy/src/range.rs:24-67 | A header parses to a range if and only if, trimmed, it spells that well-formed range |
| `ByteRanges.DecimalRoundTrip` | services/proxy/src/range.rs:62-67 | The decimal form of a number is a numeral for it |
| `ByteRanges.RangeTextRoundTrips` | services/proxy/src/range.rs:24-67 | Printing a well-formed range, with any white space around, and parsing gives it back |
| `ByteRanges.ResolutionIsExact` | services/proxy/src/range.rs:73-93 | Resolution covers exactly the requested positions below the total, or None if there are none, if and only if the range is neither reversed inside the body nor an empty suffix |
| `ByteRanges.ParsedRangeResolvesExactly` | services/proxy/src/range.rs:24-93 | Every parsed range resolves exactly |
| `ByteRanges.ContentRangeNamesOneSlice` | services/proxy/src/range.rs:95-98 | The Content-Range text determines start, end and total |
| `ByteRanges.FormattedNamesSlice` | services/proxy/src/range.rs:95-98 | The formatted text reads `bytes start-end/total` with decimal numerals for the three numbers |
| `ContentCoding.NegotiateEncoding` | services/proxy/src/compress.rs:13-41 | The loop over the header computes the preference br (or anything), then gzip, then none |
| `ContentCoding.ReadItem` | services/proxy/src/compress.rs:20-37 | One item yields the coding it names and whether it accepts it, nothing for a blank one |
| `ContentCoding.ReadQ` | services/proxy/src/compress.rs:24-30 | The last readable q parameter of an item decides whether it is accepted |
| `ContentCoding.SpelledOffersNegotiate` | services/proxy/src/compress.rs:13-41 | Whatever codings and weights a client lists, the header that spells them gets br if br or `*` is wanted in any case of letters, otherwise gzip if that is, otherwise no coding |
| `ContentCoding.AllowedCodingIsApplied` | services/proxy/src/compress.rs:13-41 | With weights read as the RFC has them: a header that allows br or anything gets br, one that allows gzip and lists neither gets gzip, one that lists none of them, or no header, gets no coding |
| `ContentCoding.AppliedCodingIsAcceptable` | services/proxy/src/compress.rs:13-41 | With weights read as the RFC has them, an applied coding is acceptable if and only if br was not refused by name while `*` was accepted, and not every item that supplies the coding states a weight of zero |
| `ContentCoding.OverlookedIsUpperCase` | services/proxy/src/compress.rs:24-31 | An item with at most one weight is accepted though refused if and only if it spells a zero weight with an upper-case Q |
| `ContentCoding.RefusedBrIsApplied` | services/proxy/src/compress.rs:13-41 | The header `br;q=0,*` is answered with br, which is not acceptable |
| `ContentCoding.UpperCaseRefusalIsApplied` | services/proxy/src/compress.rs:24-31 | So is the header `br;Q=0` |
| `ContentCoding.SpelledTypeCompresses` | services/proxy/src/compress.rs:43-71 | A media type, with parameters or without, and a content coding are read as they are spelled: compressed if and only if large enough, not yet coded, and one of the eight text types |
| `HitPath.EvaluateRange` | services/proxy/src/lib.rs:915-930 | A partial outcome is always a slice of the body |
| `HitPath.SelectedBodyDecodes` | services/proxy/src/lib.rs:889-912 | The selected body decodes to the stored one even if re-encoding fails, and is not coded when a Range header is present |
| `HitPath.HitIsTransparent` | services/proxy/src/lib.rs:1081-1121 | From a faithful entry a client decodes the whole body (200), exactly the requested positions that Content-Range names (206), or gets an empty 416 |
| `HitPath.HitIsCodedAsNegotiated` | services/proxy/src/lib.rs:889-912 | Without a Range header br is answered with the stored variant, and gzip with the body gzipped if that succeeds; otherwise, and where no variant is stored, the body goes out as it is |
| `HitPath.SavedFormIsFaithful` | services/proxy/src/lib.rs:1526-1640 | Every entry the save path builds has no variant or one that decompresses to its body, whatever the optimizer returns and whatever the size test says |
| `HitPath.SavedFormKeeps` | services/proxy/src/lib.rs:1526-1640 | The save keeps the headers; body and type are the optimizer's if the item is an image and it answered, otherwise the origin's; a variant is stored if and only if compression is on, the type and the sizes allow it, and encoding succeeds and is worth it |
| `HitPath.RunKeepsFaithful` | services/proxy/src/lib.rs:1186-1201 | Faithfulness survives saves, promotions, evictions and purges in both caches |
| `HitPath.EveryHitIsTransparent` | services/proxy/src/lib.rs:1081-1240 | After any run every hit of either cache is transparent for every Accept-Encoding and Range, and in the coding that was negotiated |
| `HitPath.HitsServeTheNewestSave` | services/proxy/src/lib.rs:1186-1658 | A disk hit serves what the origin or the optimizer returned for the last save of its key that the disk accepted, headers and type included; a memory hit serves a save after which none was both accepted and small enough for memory |
| `HitPath.CachedAfterStep` | services/proxy/src/lib.rs:1186-1658 | After any step a key is in either cache if and only if the step put it there, or it was there and the step did not take it away; what a step neither puts nor takes is untouched, and a promotion copies the disk entry |
| `HitPath.OnDiskExactly` | services/proxy/src/lib.rs:1636-1646 | After any run a key is on disk if and only if an accepted save of it was followed by nothing that evicted or dropped it |
| `DockerFrames.DecodeContinues` | services/admin-server/src/routes/logs.ts:177-199 | Decoding a longer stream continues from the suffix kept by decoding a prefix |
| `DockerFrames.AnyChunkingDecodesTheSame` | services/admin-server/src/routes/logs.ts:177-199 | For any split into chunks the payloads and the kept suffix are those of one pass over the concatenation |
| `DockerFrames.DecodeInvertsEncode` | services/admin-server/src/routes/logs.ts:19-32 | Decoding inverts frame encoding for payloads under 2^32 bytes and leaves an incomplete last frame alone |
| `DockerFrames.TakeFrames` | services/admin-server/src/routes/logs.ts:182-197 | The offset loop computes the one-pass decoding and ends at the undecoded suffix |
| `DockerFrames.LogStream.constructor` | services/admin-server/src/routes/logs.ts:177-180 | A new stream has received nothing |
| `DockerFrames.LogStream.OnData` | services/admin-server/src/routes/logs.ts:178-199 | The handler emits the newly complete payloads, keeps the rest, and ignores data after the close |
| `DockerFrames.LogStream.Close` | services/admin-server/src/routes/logs.ts:204-223 | Closing drops nothing already emitted |
| `DockerFrames.StripDockerHeader` | services/admin-server/src/routes/logs.ts:19-32 | The batch decoder joins the text of the same payload list, or returns the raw text if there is none |
| `HostLocks.StepKeepsInv` | services/admin-server/src/routes/domains.ts:132-144 | Every arrival, start, settlement and cleanup keeps the chain invariant |
| `HostLocks.RunKeepsInv` | services/admin-server/src/routes/domains.ts:132-144 | The invariant holds in every run |
| `HostLocks.OneAtATimeInArrivalOrder` | services/admin-server/src/routes/domains.ts:132-144 | Operations of a host run one at a time, in arrival order, each once, even after rejections |
| `HostLocks.MissingEntryMeansAllSettled` | services/admin-server/src/routes/domains.ts:134-137 | No map entry means every earlier operation of the host has settled; an entry is its latest operation |
| `HostLocks.MapEmptiesOut` | services/admin-server/src/routes/domains.ts:140-143 | Once all have settled and cleaned up the map is empty |
| `HostLocks.SomeoneCanMove` | services/admin-server/src/routes/domains.ts:132-144 | While an operation is unfinished, it or an earlier one can take its next step |
| `HostLocks.HostLockTable.constructor` | services/admin-server/src/routes/domains.ts:132-133 | The map starts empty |
| `HostLocks.HostLockTable.Enqueue` | services/admin-server/src/routes/domains.ts:133-137 | Arrival chains to the current entry and replaces it |
| `HostLocks.HostLockTable.RunNext` | services/admin-server/src/routes/domains.ts:135-136 | The callback starts once the previous promise has settled either way |
| `HostLocks.HostLockTable.Settle` | services/admin-server/src/routes/domains.ts:138-139 | The operation resolves if it succeeded and rejects if not, and the map stays |
| `HostLocks.HostLockTable.Finally` | services/admin-server/src/routes/domains.ts:140-143 | Cleanup removes the entry only if it is still its own |
| `DomainSync.PushProjects` | services/admin-server/src/routes/domains.ts:103-117 | Whatever the listing order, a pushed payload fills the proxy's maps with the projection of the enabled rows |
| `DomainSync.ProxyMaps.constructor` | services/proxy/src/lib.rs:2282-2290 | The proxy starts with the projection of no rows |
| `DomainSync.ProxyMaps.UpdateDomains` | services/proxy/src/lib.rs:2286-2319 | The three clear-and-refill loops leave exactly the maps of the payload |
| `DomainSync.LastEntryWins` | services/proxy/src/lib.rs:2286-2319 | Whatever a payload repeats, each map holds for a host what the last entry that counts says: enabled, with a window, with a capacity of at least one |
| `DomainSync.OnlyEntriesCount` | services/proxy/src/lib.rs:2286-2319 | And a host is in a map only if such an entry exists |
| `DomainSync.FailureRestores` | services/admin-server/src/routes/domains.ts:741-944 | A corollary of the handlers' step: a failed request leaves statistics and events alone and every row field as it was, `updated_at` excepted only when a PUT or toggle is compensated, and the proxy too unless the push was applied unconfirmed |
| `DomainSync.MirrorAfterRequest` | services/admin-server/src/routes/domains.ts:741-944 | After one request the proxy mirrors the rows exactly if it was told the truth, or nothing and mirrored them before |
| `DomainSync.MirrorHoldsExactly` | services/admin-server/src/routes/domains.ts:103-117 | After any serialised run, pushes confirmed, lost or applied unconfirmed, the proxy mirrors the rows if and only if every untruth it was told was followed by a truth |
| `DomainSync.ProxyMirrorsRows` | services/admin-server/src/routes/domains.ts:103-117 | After any serialised run in which pushes are confirmed or lost, the proxy's maps are the projection of the rows |
| `DomainSync.DomainServer.constructor` | services/admin-server/src/db/domain-repo.ts:85-90 | An empty table beside a given proxy |
| `DomainSync.DomainServer.SyncToProxy` | services/admin-server/src/routes/domains.ts:103-117 | A push that is applied makes the proxy's maps the projection of the rows, confirmed or not; a lost one has no effect; the result tells whether it was confirmed |
| `DomainSync.DomainServer.Begin` | services/admin-server/src/db/domain-repo.ts:371-376 | BEGIN remembers rows, statistics and events |
| `DomainSync.DomainServer.End` | services/admin-server/src/db/domain-repo.ts:376-389 | COMMIT keeps the database, ROLLBACK brings back the remembered one |
| `DomainSync.DomainServer.Upsert` | services/admin-server/src/db/domain-repo.ts:96-106 | A new row is enabled without policies; an old one keeps enabled flag, creation time and policies |
| `DomainSync.DomainServer.Update` | services/admin-server/src/db/domain-repo.ts:197-244 | Each of the five fields takes the new value if it is named and keeps the old one if not; the creation time stays, and `updated_at` changes unless the patch is empty |
| `DomainSync.DomainServer.DeleteRows` | services/admin-server/src/db/domain-repo.ts:325-351 | The rows go, their statistics with them, and their number is returned |
| `DomainSync.MissingFrom` | services/admin-server/src/db/domain-repo.ts:325-340 | Exactly the requested hosts that are absent, each once, in the order of their first request |
| `DomainSync.DomainServer.HandlePost` | services/admin-server/src/routes/domains.ts:741-807 | One Handle step, its statuses written out: on failure the database is as before, and the proxy too unless the push was applied unconfirmed; on success only that row has changed, an existing one keeps flag, policies and creation time, a new one is enabled without policies, and the proxy holds the projection |
| `DomainSync.DomainServer.HandlePut` | services/admin-server/src/routes/domains.ts:833-910 | One Handle step, its statuses and the limits of every field written out: on failure rows are restored but for `updated_at`, and the proxy is as before unless the push was applied unconfirmed; on success only that row has changed, each of the five fields to its new value if named and not at all otherwise, and the proxy holds the projection |
| `DomainSync.DomainServer.HandleToggle` | services/admin-server/src/routes/domains.ts:922-944 | One Handle step, with its three statuses; on success the row is flipped and stamped, no other row changes, and the proxy serves the host if and only if it was disabled |
| `DomainSync.DomainServer.HandleDelete` | services/admin-server/src/routes/domains.ts:1412-1472 | One Handle step, with its three statuses: on failure the database is as before; on success exactly the row, statistics and events of the host are gone, and its proxy entry |
| `DomainSync.DomainServer.HandleBulkDelete` | services/admin-server/src/routes/domains.ts:581-648 | One Handle step: on failure the database is as before, statistics and events included; on success exactly the records of the requested hosts are gone; it reports how many rows went and the absent hosts in request order |
| `PushInterleaving.StepKeepsInv` | services/admin-server/src/routes/domains.ts:833-944 | Every begin, delivery, confirmation and failure keeps: where nothing changed for good since a push was sent, the push still shows the row as it is without the requests begun later |
| `PushInterleaving.RunKeepsTraced` | services/admin-server/src/routes/domains.ts:833-944 | In every run each settled row comes from the last kept request of its host, and what a push shows of a host from a request no later than the push |
| `PushInterleaving.ConfirmedRequest` | services/admin-server/src/routes/domains.ts:833-944 | A request of a free host takes effect from any state: its push shows its row beside the others, the proxy holds that once it is delivered, and confirming it leaves the row for good |
| `PushInterleaving.FailedRequest` | services/admin-server/src/routes/domains.ts:892-941 | A request that fails puts back the row it found but for `updated_at`; its push stays with the proxy if it was delivered |
| `PushInterleaving.CalmIsMirrored` | services/admin-server/src/routes/domains.ts:833-944 | However requests of different hosts overlap and pushes are delayed, lost or overtaken: if nothing is under way, every request begun after the push delivered last was undone, and none under way when it was sent was, the proxy mirrors the rows |
| `PushInterleaving.MirrorSurvivesExactly` | services/admin-server/src/routes/domains.ts:833-944 | Once nothing is under way, and if every request wrote an origin of its own, the proxy mirrors the rows if and only if that condition holds |
| `PushInterleaving.FailedChangeLeaks` | services/admin-server/src/routes/domains.ts:892-906 | For any two hosts: the first request's push is lost and its change undone, yet the proxy keeps the change, shown by the second request's push |
| `PushInterleaving.OvertakenPushForgets` | services/admin-server/src/routes/domains.ts:833-944 | For any two hosts: both requests are confirmed, yet the proxy forgets the second change because the first push is delivered later |
| `LikeEscaping.ThreePassesAreOne` | services/admin-server/src/db/domain-repo.ts:75-77 | The three global replacements equal one character-wise pass |
| `LikeEscaping.EscapedMatchesPrefix` | services/admin-server/src/db/domain-repo.ts:75-77 | Escaped text followed by `%` matches exactly the strings that start with the text, up to ASCII case |
| `LikeEscaping.EscapedSearchIsLiteral` | services/admin-server/src/routes/domains.ts:38-40 | `%` escaped text `%` matches a string if and only if it contains the text up to ASCII case |
| `LikeEscaping.UnescapedSearchIsNot` | services/admin-server/src/db/domain-repo.ts:146-151 | An example: without escaping `_` matches what does not contain it |
| `LikeEscaping.SearchListsExactlyContaining` | services/admin-server/src/db/domain-repo.ts:146-151 | A search lists a domain if and only if its host or origin contains the text |
| `EventBatcher.RunKeepsInv` | services/proxy/src/events.rs:109-170 | Every schedule keeps: batches, buffer and channel in order are the accepted events; batches fit; the buffer is below the batch size; emitted = accepted + dropped |
| `EventBatcher.BatchesAreTheAcceptedEvents` | services/proxy/src/events.rs:78-147 | From the start, in any run, the same as an end-to-end statement; once the task has ended the batches are all accepted events in order |
| `EventBatcher.ClosedPipelineDrains` | services/proxy/src/events.rs:122-138 | After close, one receive per queued event and one more end the task with nothing left |
| `EventBatcher.EventsPipeline.constructor` | services/proxy/src/events.rs:94-120 | A pipeline starts empty |
| `EventBatcher.EventsPipeline.TryEmit` | services/proxy/src/events.rs:78-82 | An emit is accepted if and only if the channel has room and the task runs, otherwise counted as dropped; it never blocks |
| `EventBatcher.EventsPipeline.FlushOnce` | services/proxy/src/events.rs:151-170 | A flush hands over the whole buffer as one batch and clears it |
| `EventBatcher.EventsPipeline.OnRecv` | services/proxy/src/events.rs:123-139 | The receive branch is the RecvReady step: the oldest event joins the buffer, which goes out as one batch once it is full, or when all senders are gone |
| `EventBatcher.EventsPipeline.OnTimer` | services/proxy/src/events.rs:140-145 | The timer branch is the TimerReady step: what is in the buffer goes out as one batch |
| `EventBatcher.EventsPipeline.FlushLoop` | services/proxy/src/events.rs:109-147 | The loop under any schedule computes the pipeline's run |
| `CertCache.CertificatesMatchTheirDomain` | services/tls-service/src/tls.rs:96-127 | Every stored certificate is for the domain it is stored under, every one returned for the domain asked, and each lives thirty days from its issuing |
| `CertCache.StoredCertificateIsStable` | services/tls-service/src/tls.rs:96-127 | Until it expires or is pruned a stored certificate stays, and every call that returns meanwhile with a certificate returns that one |
| `CertCache.ReturnedCertificateIsStored` | services/tls-service/src/tls.rs:96-127 | At the moment a call returns a certificate, that certificate is the stored one |
| `CertCache.RacingCallersAgree` | services/tls-service/src/tls.rs:96-127 | Calls for one domain that return a certificate before expiry or prune return the same one |
| `CertCache.OnlyExpiredEntriesChange` | services/tls-service/src/tls.rs:115-126 | An entry changes only when it has expired and is replaced, or is pruned |
| `CertCache.NoExpiredCertificate` | services/tls-service/src/tls.rs:96-127 | No expired certificate is handed out: what a call returns is unexpired at that moment, or the thirty-day certificate the call has just been issued |
| `CertCache.CallFromStartToEnd` | services/tls-service/src/tls.rs:96-127 | One call whatever others do in between: the cached certificate if unexpired, none if issuing fails, what another call stored meanwhile if unexpired, and otherwise its own, which is then stored |
| `CertCache.TlsManager.constructor` | services/tls-service/src/tls.rs:72-77 | The cache starts empty |
| `CertCache.TlsManager.LookupCached` | services/tls-service/src/tls.rs:96-105 | The first section answers with the stored certificate if and only if it expires later than now, and changes nothing in the cache |
| `CertCache.TlsManager.IssueDomainCert` | services/tls-service/src/tls.rs:107-165 | Issuing makes a certificate for the domain valid for thirty days, or ends the call without one |
| `CertCache.TlsManager.StoreUnlessCached` | services/tls-service/src/tls.rs:115-126 | The second section returns the stored certificate if it expires later than now, otherwise its own, which it stores |
| `CertCache.TlsManager.PruneTo` | services/tls-service/src/tls.rs:173-178 | Exactly the old keys in `keep` remain, unchanged, and the count is the difference |
| `RecentQueries.BufferIsLastEntriesNewestFirst` | services/dns-service/src/metrics.rs:84-107 | After any pushes the buffer is the newest-first list of the last min(cap, n) entries |
| `RecentQueries.NewestFirst` | services/dns-service/src/metrics.rs:84-107 | Read by position: entry i of the buffer is the one pushed i pushes before the last |
| `RecentQueries.CapacityBoundsBuffer` | services/dns-service/src/metrics.rs:95-101 | The capacity bounds the buffer in all runs if and only if it is at least one |
| `RecentQueries.RankingIgnoresHashOrder` | services/dns-service/src/metrics.rs:110-121 | The ranking is the same for any two orders of the hash map |
| `RecentQueries.CountIsOccurrences` | services/dns-service/src/metrics.rs:112-116 | A name's count is the number of buffer positions that hold it |
| `RecentQueries.StrLeqExactly` | services/dns-service/src/metrics.rs:118-119 | One name comes before another if and only if it is a prefix of it or has the smaller character where they first differ |
| `RecentQueries.SortedDrainIsTop` | services/dns-service/src/metrics.rs:110-121 | It has exact counts, is ordered by count then name, and every omitted name ranks after every kept one |
| `RecentQueries.RecentQueries.constructor` | services/dns-service/src/metrics.rs:84-93 | The buffer starts empty |
| `RecentQueries.RecentQueries.Push` | services/dns-service/src/metrics.rs:95-101 | One push keeps the buffer the newest-first list of what the capacity retains of everything pushed |
| `RecentQueries.RecentQueries.Snapshot` | services/dns-service/src/metrics.rs:103-107 | The last min(limit, cap, n) entries pushed, newest first |
| `RecentQueries.RecentQueries.TopQnames` | services/dns-service/src/metrics.rs:109-122 | Counting, sorting and truncating gives that one ranking of the buffer |

## Left out

- InFlightMemory.MemoryBound: models the wrapping arithmetic of a release build; a debug build panics where the counter would wrap.
- CacheContents.SeparateFilesExactly: keys are plain file names, neither empty nor `.` or `..`, and hold no path separator; the text of a headers file is a parameter.
- CacheInterleaving.CounterIsExactAndBounded: adds without wrapping; by `CacheInterleaving.SizeTestsFitExactly` that is the code's arithmetic exactly for capacities below 2^63.
- DiskCache.CacheLayer.EvictToRatio: computes in real numbers, without the rounding of 32-bit floats; `DiskCache.CacheLayer.EvictIf` holds for any outcome of those computations.
- DiskCache.CacheLayer.Put: disk writes succeed; the headers side file is a parameter because nothing reads it back; an empty pre-compressed variant counts as none; a lifetime too large for the clock type is not cut to zero.
- ContentCoding.ReadQ: reading a q-value as a float is a parameter that says whether the text is a number and whether it exceeds zero; the statements hold for every such parameter.
- HitPath.SavedFormIsFaithful: the codecs, the image optimizer and the nine-tenths test in floats are parameters, the codecs with the law that decoding inverts encoding.
- PushInterleaving.MirrorSurvivesExactly: covers PUT and toggle, which change one row under its host's lock; a delivery replaces the three maps in one step, where two deliveries could interleave between maps.
- DomainSync.DomainServer.HandlePut: the second existence check after the change, which cannot fail because nothing runs between it and the first, is not modelled; nor are audit entries and optimizer profiles, here and in the other handlers.
- Concurrent puts of one key: file writes happen outside the lock, so agreement of body and metadata is claimed only for one caller at a time; accounting and capacity are claimed under every interleaving.
- `dev_seed_popular`: it inserts entries without counting their bytes and breaks the account by design.
- HEAD misses, which share the key of a GET but forward HEAD to the origin: the hit-path statements are for runs of GET requests.
- Stale-if-error from end to end: a normal lookup deletes an expired entry, and the client that connects the two lookups is not part of this model.
- Bulk add and bulk toggle, which do not undo themselves when the push fails; overlapping asynchronous transactions on the shared connection; the snapshot pulled at boot; pushes to the TLS and DNS services.
- The MISS response before it is saved, `get_popular`, `peek_metadata`, Cache-Control parsing, log line parsing, request classification, pagination, audit, authentication, pruners, reports, migrations and the web interface are not modelled.
- Network, gRPC, HTTP, the SQLite engine, the Docker socket, image codecs and X.509 issuing: parameters or absent. Clocks are parameters.
- Tokio rounds channel capacities up, where `Coalescing` gives a channel exactly the requested slots; mutex poisoning is not modelled.
