# Gossan: scheduling, pacing, crawling and deduplication, verified

A Dafny model of the parts of the Gossan scanner whose correctness does not show from one function: the
shuffled SYN schedule and the threads that share it, the token bucket under adaptive control, the two
backoff tables, the crawl worklist, the recursive SPF count, the deduplication of findings, and the small
printers and parsers around them. One command checks everything: `dafny verify dfyconfig.toml`.

Code that works by changing things is modelled as classes and loops, each proved against a function of its
inputs or of its old state; the theorems are lemmas about those functions. Clock readings are explicit
arguments. The engine's answer to a batch, the DNS resolver, the browser, the URL parser, the token hash
and the finding builder are arbitrary functions, so the theorems hold whatever they do. The Feistel round
function is arbitrary too. Machine integers have the widths of the source, wrapping or saturating where
the source does.

## How the files fit together

- `Words`: machine words and the bitwise operators, bit by bit.
- `Blackrock`, `CycleWalk`, `PairOrder`, `ScanSchedule`, `TxDispatch`: a Feistel network that is a
  bijection for any round function; walking its cycles back into the range, which ends because the points
  outside the range are finitely many and none is met twice; the order of (IP, port) pairs; the iterator;
  the strided transmit threads that together dispatch every pair once.
- `RateLimiter` (`TokenBucket`), `AdaptiveRate` (`Aimd`), `AdaptiveLoop` (`Pacing`): what the bucket grants
  over any run of takes, ticks and applies.
- `Windows`, `ThreadPacing`: any window of any run, exactly when its length may be rounded down, all transmit
  threads together, and the loop that waits for the tokens of a batch.
- `IcmpBackoff` (`Icmp`), `RstBackoff` (`Rst`): tables refined to their histories; pruning as a
  bisimulation.
- `Crawl`, `Forms`: the worklist with its invariant, and what it has collected.
- `Spf`, `Hosts`, `Dedup`: the SPF cutoff; host keys; survivors.
- `Wires`: the end-to-end statement about what a scan sends. `Snapshots`: the loop over runs of engine
  statistics. `IcmpWindows` (`FeedWindows`): when a /24 trips, said of its feeds alone. `SpfMechanisms`: what each
  printed mechanism adds.
- `Text`, `XmlText` (`Xml`), `Sitemap`, `DomFingerprint`, `SimHash`, `Base64`, `Qname`: printers and parsers
  with the decoders that invert them.

## Where the code does not keep what is said of it

Each is a theorem: an input that fails, and exactly when the code does what is said.

- *Schedule.* "Every (IP, port) exactly once" holds exactly when the number of pairs fits in 64 bits
  (`Schedule.ScanSchedule.FreshScheduleIsExact`): the product saturates, and the pair behind the cut is never
  visited (`Schedule.ScanSchedule.SaturatedScheduleMisses`).
- *Transmit threads.* A refused full batch is logged as being retried but stays in the buffer, and the next
  probe is stamped past its end. `TxDispatch.RunThread` says when a thread panics: exactly when a full
  batch before its last packets is refused. `TxDispatch.RefusalPanics` is such a run.
- *Token bucket.* "At most burst + rate × E over any window of E microseconds" holds in every window of whole
  microseconds (`Windows.WholeMicrosecondWindow`). In other windows E must be rounded up, because the
  window may open just before a credited microsecond is complete (`Pacing.WindowMayStraddleRefill`);
  `Windows.RoundedDownFailsIff` says for which rates, bursts and lengths rounding down fails, in closed form
  in `Windows.FailsIffUncapped`, `Windows.FailsIffInStrip` and `Windows.FailsIffCapped`.
- *ICMP backoff.* `feed_at` answers whether the /24 is blocked afterwards unless the backoff is zero and the
  feed trips (`Icmp.FeedAnswersBlocked`, `Icmp.ZeroBackoffBlocksNothing`).
- *Host normalisation.* It is not idempotent: `Hosts.IdempotentIff` names the three families of targets that
  break it, and no others do: a dot behind the port, a second `@`, two ports behind a bracketed address.
- *Wildcard coverage.* A wildcard finding is meant to cover the names below its key. It does exactly when its
  target is in none of these families (`Dedup.CoversByKeyIff`); `Dedup.UnstableWildcardMisses` is a host it
  misses. An apex is meant never to fall to its own wildcard. It falls exactly when another wildcard stands behind
  an `@` of the wildcard's key (`Dedup.ApexCoveredIff`), as in `Dedup.ApexAbsorbed`.
- *SPF qualifiers.* Leading qualifiers are meant to come off. They all do exactly when they stand in the order of
  the four passes (`SpfMechanisms.QualifiedAddsOneIff`); `-+a` counts nothing
  (`SpfMechanisms.SwappedQualifiersCountNothing`).
- *AXFR query.* It asks what the caller means exactly when every label has 1 to 63 bytes and the name at most
  255 octets (`Qname.QueryMeansTransferIff`). The root zone is encoded with a byte too many
  (`Qname.RootZoneMisread`), and an over-long name is sent although it cannot be read
  (`Qname.OverlongZoneMisread`).

## Model

| member | source | states |
|---|---|---|
| Words.MaskedXorTwice | crates/engine/src/schedule.rs:84-99 | xor with the same word twice under the half mask gives the half back, for any word |
| Words.SplitJoined | crates/engine/src/schedule.rs:80-89 | joining two halves by shift and or, then shifting and masking, gives the halves back |
| Words.JoinSplit | crates/engine/src/schedule.rs:80-89 | joining the two halves of a word gives the word back |
| Blackrock.Permutation.Feistel | crates/engine/src/schedule.rs:79-90 | the forward loop computes the rounds in ascending order |
| Blackrock.Permutation.FeistelInverse | crates/engine/src/schedule.rs:92-103 | the backward loop undoes the rounds in descending order |
| Blackrock.Permutation.RoundInverse | crates/engine/src/schedule.rs:82-101 | one round and its undoing are mutually inverse and keep both halves in their width |
| Blackrock.Permutation.FeistelBijective | crates/engine/src/schedule.rs:79-103 | for any round function and any number of rounds, the two passes invert each other and stay in the domain; no shift loses a bit |
| Blackrock.HalfBitsCover | crates/engine/src/schedule.rs:35-38 | the chosen split covers every range from 1 to 2^64 - 1, needs at most 32 bits a half, and has fewer than four points for each one of the range |
| Blackrock.New | crates/engine/src/schedule.rs:32-48 | construction gives a permutation of the asked range with the invariant the walk needs |
| CycleWalk.NoRepeat | crates/engine/src/schedule.rs:56-65 | a walk still outside the range has met no point twice |
| CycleWalk.FindLanding | crates/engine/src/schedule.rs:56-65 | every walk from inside the range comes back into it |
| CycleWalk.ImageReached | crates/engine/src/schedule.rs:57-64 | each pass of the loop either stays outside or has reached the landing point |
| CycleWalk.WalkBack | crates/engine/src/schedule.rs:68-77 | walking with the inverse from the end retraces the walk |
| CycleWalk.ImageInverse | crates/engine/src/schedule.rs:56-77 | the inverse walk from the landing point lands on the start |
| CycleWalk.ImageInjective | crates/engine/src/schedule.rs:56-65 | different indices land on different outputs |
| Blackrock.Permutation.Shuffle | crates/engine/src/schedule.rs:56-65 | the loop ends for every index below the range, inside the range, at the landing point of the walk |
| Blackrock.Permutation.Unshuffle | crates/engine/src/schedule.rs:68-77 | likewise for the inverse walk |
| Blackrock.Permutation.RoundTrip | crates/engine/src/schedule.rs:56-77 | unshuffle(shuffle(x)) = x and shuffle(unshuffle(x)) = x for every x below the range |
| Blackrock.Permutation.MapsPermute | crates/engine/src/schedule.rs:56-77 | shuffling permutes [0, range) with unshuffling as inverse |
| PairOrder.PairOnce | crates/engine/src/schedule.rs:158-169 | a pair comes up at one index of the order and at no other |
| PairOrder.CompleteIffNotCut | crates/engine/src/schedule.rs:132-146 | the order visits every pair if and only if its length is the whole product |
| PairOrder.VisitsIff | crates/engine/src/schedule.rs:158-169 | the order visits exactly the pairs whose flat index lies before its length |
| PairOrder.WholeOrder | crates/engine/src/schedule.rs:132-169 | no pair repeats, all are in bounds, and all come up if and only if the length was not cut |
| Schedule.ScanSchedule.constructor | crates/engine/src/schedule.rs:132-146 | a new schedule satisfies its invariant, also for no IPs or no ports |
| Schedule.ScanSchedule.Next | crates/engine/src/schedule.rs:158-169 | yields the head of the remaining pairs and leaves the tail; none only when nothing remains |
| Schedule.ScanSchedule.SizeHint | crates/engine/src/schedule.rs:171-174 | the hint is the exact number of remaining pairs at every step |
| Schedule.ScanSchedule.FreshScheduleIsExact | crates/engine/src/schedule.rs:132-169 | distinct pairs, in bounds, and all of them if and only if the product fits in 64 bits |
| Schedule.ScanSchedule.YieldedIff | crates/engine/src/schedule.rs:132-169 | a pair is yielded if and only if it is in bounds and its flat index is below the saturated product |
| Schedule.ScanSchedule.SaturatedScheduleMisses | crates/engine/src/schedule.rs:132-146 | with 2^32 IPs and 2^32 ports the last pair is never yielded |
| TxDispatch.Job.Stamp | crates/engine/src/scan.rs:579-604 | the packet goes to the IP at the quotient and the port at the remainder of its shuffled index by the number of ports, both in bounds, from the thread's source port |
| TxDispatch.StridedCount | crates/engine/src/scan.rs:575-594 | a thread's selection has an index once if it lies on its stride and got that answer, else not at all |
| TxDispatch.IndexHandledOnce | crates/engine/src/scan.rs:569-646 | every index is stamped or skipped, not both, by the one thread of its residue, and by no other |
| TxDispatch.PairHandledOnce | crates/engine/src/scan.rs:569-646 | every (ip, port) has one home index, which exactly one thread handles exactly once |
| TxDispatch.AllHandled | crates/engine/src/scan.rs:569-646 | stamped plus skipped over all threads is the number of probes |
| TxDispatch.TxThread.Queue | crates/engine/src/scan.rs:598-632 | a stamp is out of bounds if and only if a refused full batch is still in the buffer; otherwise the probe is recorded and the buffer invariant kept |
| TxDispatch.TxThread.SendFull | crates/engine/src/scan.rs:606-632 | for every answer of the engine: the accepted first part of a full batch reaches the wire in order and the buffer empties; a refused batch stays; the rest of a partial acceptance is lost |
| TxDispatch.TxThread.Flush | crates/engine/src/scan.rs:649-684 | for every answer: the wire and the count of the whole thread once what is held, partial or refused, has been offered and a refusal retried once |
| TxDispatch.RunThread | crates/engine/src/scan.rs:564-687 | for every engine the wire and counters are exact, it panics if and only if a full batch before its last packets is refused, and its wire then ends before that batch; with whole acceptance the wire is exactly its packets in order |
| TxDispatch.WholeWireAccepted | crates/engine/src/scan.rs:614-684 | when every batch is accepted whole, the batches put together are the stamped packets |
| TxDispatch.RefusalPanics | crates/engine/src/scan.rs:598-632 | one thread, more than 1024 probes and an engine that refuses everything: the thread panics and nothing is on the wire |
| TxDispatch.PairDispatchedOnce | crates/engine/src/scan.rs:569-646 | of all places where some thread stamps or skips an index, one and only one holds a given (ip, port) |
| TxDispatch.RunScan | crates/engine/src/scan.rs:504-722 | all threads, each with its own source port and its own engine if that initialises: with whole acceptance no thread panics, every wire is what its thread stamps, and sent plus skipped plus the strides of threads that did not start is the number of probes |
| TxDispatch.CompletedScan | crates/engine/src/scan.rs:713-763 | with whole acceptance a scan completes if and only if some thread started, and when strict all did; a strict scan that completes has sent or skipped every probe |
| Wires.ScanSendsEachTargetOnce | crates/engine/src/scan.rs:564-687 | with whole acceptance the destinations on all wires are, each exactly once, the (ip, port) pairs whose home index is not blocked and whose thread has an engine; thread t's packets leave from port base + t |
| Wires.ScanAll | crates/engine/src/scan.rs:504-722 | the scan that is run sends exactly those |
| Wires.WireWithinStamped | crates/engine/src/scan.rs:614-684 | whatever the engine answers, no stamped packet is on a thread's wire more often than it was stamped |
| Wires.CountIsWire | crates/engine/src/scan.rs:614-684 | over an engine that does not overstate, the count reported is the number of packets on the wire |
| Wires.RetryDelivers | crates/engine/src/scan.rs:661-683 | a last batch that is refused and accepted at its retry is delivered whole |
| TxDispatch.PortWindow | crates/engine/src/scan.rs:194-203 | for every process id and requested thread count, each thread's port is in the receiver's 8-port window, without 16-bit saturation |
| TxDispatch.ClampTxThreads | crates/engine/src/scan.rs:42-44 | as many threads as asked for, between one and eight |
| TxDispatch.BasesDiffer | crates/engine/src/scan.rs:194-203 | processes with different small ids start from different source ports |
| TokenBucket.RateLimiter.constructor | crates/engine/src/rate.rs:43-61 | a full bucket of at least one token that fits in 64 bits, for every rate and burst |
| TokenBucket.RateLimiter.TryConsume | crates/engine/src/rate.rs:71-79 | grants what taking one token grants; the bucket stays in [0, max] |
| TokenBucket.RateLimiter.TryConsumeBatch | crates/engine/src/rate.rs:82-88 | grants what taking n tokens grants; the bucket stays in [0, max] |
| TokenBucket.RateLimiter.SetRatePps | crates/engine/src/rate.rs:130-138 | changes the rate and nothing in the bucket |
| TokenBucket.RateLimiter.Refill | crates/engine/src/rate.rs:140-151 | credits whole elapsed microseconds, saturating, capped at max; no credit when the clock reads earlier |
| TokenBucket.TakeIsGreedy | crates/engine/src/rate.rs:71-88 | tokens are conserved, and fewer than asked are granted only when less than one is left |
| TokenBucket.BatchIsSingles | crates/engine/src/rate.rs:71-88 | a batch of n grants what n single requests at that instant grant, and leaves the same bucket |
| TokenBucket.EarnsAtNewRate | crates/engine/src/rate.rs:130-151 | after a change of rate the bucket earns at the new rate and keeps what it holds |
| TokenBucket.UnlimitedFills | crates/engine/src/rate.rs:130-151 | rate 0 fills any bucket within three microseconds |
| Aimd.AdaptiveRate.constructor | crates/engine/src/rate.rs:194-215 | starts between floor and ceiling, also for ceilings below the usual floor and for 0 |
| Aimd.AdaptiveRate.ReportSuccess | crates/engine/src/rate.rs:218-228 | one success of the controller: a step up at each tenth |
| Aimd.AdaptiveRate.ReportDrops | crates/engine/src/rate.rs:231-238 | one drop of the controller: three quarters, not below the floor |
| Aimd.Run | crates/engine/src/rate.rs:218-238 | floor <= current <= ceiling after every sequence of reports |
| Aimd.LowCeilingPins | crates/engine/src/rate.rs:194-238 | a ceiling of at most 1000 pins the rate at the ceiling |
| Aimd.ClimbBySteps | crates/engine/src/rate.rs:218-228 | after n successes the rate is the old one plus a twentieth of the ceiling for each completed ten, capped |
| Aimd.TwoHundredSuccessesReachCeiling | crates/engine/src/rate.rs:218-228 | 200 successes reach the ceiling from any reachable state |
| Aimd.DropsDecayGeometrically | crates/engine/src/rate.rs:231-238 | n drops leave the floor, or 4^n current_n <= 3^n current_0 |
| Aimd.DropsDecayNoFaster | crates/engine/src/rate.rs:231-238 | and not faster: 4^n (current_n + 3) >= 3^n (current_0 + 3) |
| Aimd.NewController | crates/engine/src/rate.rs:194-215 | starts at half the ceiling from 2000 up, at 1000 from there down to 1000, at the ceiling below |
| Pacing.AdaptiveLoop.Tick | crates/engine/src/rate.rs:288-305 | the first snapshot only seeds the baseline; then new drops take the rate to three quarters or the floor, without new drops it does not fall, without new packets either it stays |
| Snapshots.CleanTrafficReachesCeiling | crates/engine/src/rate.rs:288-305 | 200 snapshots or more with growing packets and no new drops reach the ceiling |
| Snapshots.DropsSlowDown | crates/engine/src/rate.rs:288-305 | n snapshots with new drops leave the floor or the n-th power of three quarters of the rate, and not less |
| Snapshots.QuietKeepsRate | crates/engine/src/rate.rs:288-305 | snapshots without traffic change nothing |
| Pacing.AdaptiveLoop.Apply | crates/engine/src/rate.rs:309-311 | sets the limiter to the controller's current rate |
| Pacing.Pacer.After | crates/engine/src/rate.rs:288-311 | over any run of takes, ticks and applies the limiter's rate is never 0 (unlimited) nor above the ceiling |
| Pacing.GrantsAreEarned | crates/engine/src/rate.rs:71-151 | what a run grants was in the bucket or was earned since its last refill |
| Pacing.WindowBound | crates/engine/src/rate.rs:71-151 | any window grants at most burst plus ceiling times its length, rounded up to microseconds |
| Pacing.RunBound | crates/engine/src/rate.rs:43-151 | from creation on, the length may be rounded down; a burst of 0 counts as 1 |
| Pacing.WindowMayStraddleRefill | crates/engine/src/rate.rs:140-151 | a window of one nanosecond that grants two tokens from a bucket of one |
| Windows.AnyWindow | crates/engine/src/rate.rs:71-151 | whatever a run has come to, any later window of it grants at most a full bucket plus ceiling times its length, rounded up |
| Windows.AnyWindowOfRun | crates/engine/src/rate.rs:43-151 | in any window of a limiter's life, at most burst plus ceiling times its length, rounded up to microseconds |
| Windows.WholeMicrosecondWindow | crates/engine/src/rate.rs:43-151 | in a window of E whole microseconds, at most burst + R × E / 1000000 |
| Windows.GrantedAtMostBest | crates/engine/src/rate.rs:71-151 | no run is granted more than taking everything now and after each microsecond |
| Windows.DrainsGrantBest | crates/engine/src/rate.rs:82-151 | a limiter drained at every whole microsecond grants that best amount |
| Windows.RoundedDownFailsIff | crates/engine/src/rate.rs:140-151 | the bound with the length rounded down fails for a rate, a burst and a window length if and only if the length is not whole and one more microsecond grants more than the bound |
| Windows.FailsIffUncapped | crates/engine/src/rate.rs:140-151 | where a microsecond cannot fill the bucket: if and only if the length is not whole and its last microsecond completes a token |
| Windows.FailsIffInStrip | crates/engine/src/rate.rs:140-151 | where a microsecond earns more than the burst less one token but not the burst: if and only if the length is not whole and (b - 1 + (d + 1) / cycle) tokens exceed the d parts, in closed form |
| Windows.FailsIffCapped | crates/engine/src/rate.rs:140-151 | where a microsecond fills the bucket: if and only if the length is not whole and (d + 1) bursts exceed d microseconds of the rate |
| Windows.BoundForAllIffWhole | crates/engine/src/rate.rs:140-151 | for a window length the rounded-down bound holds for all rates and bursts if and only if the length is whole |
| ThreadPacing.PerThreadRate | crates/engine/src/scan.rs:490-494 | the shares together are at least the configured rate and less than a packet a second above it for each thread; a positive rate has positive shares |
| ThreadPacing.AggregateBound | crates/engine/src/scan.rs:490-494 | threads that each keep to their share keep together to the rate plus threads - 1, and a burst each |
| ThreadPacing.ThreadsWindow | crates/engine/src/scan.rs:490-563 | in any window all threads together, each with its own limiter made at its own time and its own loop, are granted at most T × 1024 + (rate + T - 1) × E / 1000000, E rounded up |
| ThreadPacing.ThreadsBound | crates/engine/src/scan.rs:490-563 | counted from before the first limiter was made, E may be rounded down |
| ThreadPacing.AwaitTokens | crates/engine/src/scan.rs:606-616 | the loop in front of a batch ends with what the limiter has not granted of it |
| ThreadPacing.SpinGrants | crates/engine/src/scan.rs:606-616 | a loop that ends has been granted the whole batch as events of the limiter, so the bounds on grants bound the packets |
| ThreadPacing.SpinEnds | crates/engine/src/scan.rs:606-616 | the loop ends at the first clock reading that comes after the rate has earned the batch since the readings before |
| Icmp.IcmpBackoff.FeedAt | crates/engine/src/icmp_backoff.rs:93-121 | answer, table and blocked_total of one feed; under one configuration and a clock that does not run backwards it trips if and only if the feeds of the /24 say so: not blocked, and the saturated sum since its window opened reaches the threshold |
| Icmp.ReplayReflects | crates/engine/src/icmp_backoff.rs:93-152 | whatever prunes and other /24s came between, an entry holds the opening and the sum of the current window, feeds during a block included, and blocks when the feeds say so |
| FeedWindows.WindowStep | crates/engine/src/icmp_backoff.rs:104-109 | a feed opens a window, with its own count, or adds to the sum of the current one |
| Icmp.IcmpBackoff.IsBlockedAt | crates/engine/src/icmp_backoff.rs:133-140 | while the clock has not run backwards: true if and only if some earlier feed tripped this /24 less than that feed's backoff ago; under one configuration, if and only if the feeds of the /24 alone say so |
| Icmp.IcmpBackoff.PruneAt | crates/engine/src/icmp_backoff.rs:144-152 | drops exactly the entries that are unblocked and whose window is over |
| Icmp.SimilarNext | crates/engine/src/icmp_backoff.rs:93-152 | a prune on one side, or the same feed or question on both, keeps two tables similar, with equal answers |
| Icmp.PruneInvisible | crates/engine/src/icmp_backoff.rs:93-152 | a run with prunes anywhere gives the answers and blocked_total of the run without them |
| Icmp.Isolation | crates/engine/src/icmp_backoff.rs:93-152 | what a /24 is answered, and when it trips, depends on its own feeds only |
| Icmp.BlockedIffTripped | crates/engine/src/icmp_backoff.rs:93-140 | from any table that records some trips, blocked at the end of a run if and only if one of those or of the run's own trips is less than backoff ago |
| Icmp.BlockedFromEmpty | crates/engine/src/icmp_backoff.rs:93-140 | from an empty table: blocked at t if and only if it tripped at some t0 <= t < t0 + backoff |
| Icmp.FeedAnswersBlocked | crates/engine/src/icmp_backoff.rs:93-121 | a feed answers true if and only if the /24 is blocked already or the count in its window reaches the threshold; that is whether it is blocked afterwards if and only if the backoff is positive, it is blocked already, or the count is below the threshold; other /24s are untouched |
| Icmp.ZeroBackoffBlocksNothing | crates/engine/src/icmp_backoff.rs:93-121 | with backoff 0 a burst of three answers true and blocks nothing |
| Icmp.BlockedIffTripReaches | crates/engine/src/icmp_backoff.rs:93-152 | blocked if and only if some call tripped the /24 less than its own backoff ago, for any sequence of calls with any configurations |
| Rst.Slash24Backoff.BlockFor | crates/engine/src/scan.rs:148-160 | keeps the later of the old and the new expiry; the table stays the replay of its history |
| Rst.Slash24Backoff.IsBlocked | crates/engine/src/scan.rs:165-174 | while the clock has not run backwards: true if and only if some earlier call for this /24 has its expiry ahead, whatever came between |
| Rst.Slash24Backoff.PruneAt | crates/engine/src/scan.rs:178-183 | drops exactly the expired entries |
| Rst.BlockedIffSomeCallReaches | crates/engine/src/scan.rs:148-183 | blocked at t if and only if the expiry of some earlier call exceeds t, whatever shorter calls and prunes came between |
| Crawl.SkipKeeps | crates/crawl/src/lib.rs:400-411 | passing over an item keeps the invariant: nothing that should be visited is lost |
| Crawl.VisitKeeps | crates/crawl/src/lib.rs:400-411 | opening a page keeps the invariant; the page is new, on-host, allowed and labelled |
| Crawl.StatusesGrow | crates/crawl/src/lib.rs:458-460 | the status map is exactly the statuses of the loaded pages |
| Crawl.AddLinks | crates/crawl/src/lib.rs:575-619 | every eligible link is visited or discovered afterwards, and nothing else is added |
| Crawl.Explore | crates/crawl/src/lib.rs:376-639 | the loop terminates for every site and ends with an empty queue, the whole invariant, exact statuses and the forms of all accepted pages |
| Crawl.CrawlAsset | crates/crawl/src/lib.rs:353-662 | the whole crawl emits the seed and the discovered URLs, on-host, allowed (seed aside) and distinct up to fragments; statuses come from 2xx pages not known to be off-host, URLs, forms and parameters only from such pages that are no soft 404 |
| Crawl.GatesAre | crates/crawl/src/lib.rs:437-456 | a page is loaded and accepted if and only if its status, final host, look and fingerprint allow it |
| Crawl.LinksAre | crates/crawl/src/lib.rs:575-619 | links are followed if and only if the page is open, there is a baseline and the depth is below the limit |
| Crawl.StatusReached | crates/crawl/src/lib.rs:437-460 | a visit gives its status if it was reached, and none otherwise |
| Crawl.CollectedOpen | crates/crawl/src/lib.rs:548-571 | every form kept lies on an open page, every form on an open page is kept up to repetition, every parameter is an input of such a form |
| Crawl.OpenLinksVisited | crates/crawl/src/lib.rs:575-625 | with budget left, every allowed link of an open page above the depth limit was visited |
| Crawl.CanonicalIs | crates/crawl/src/lib.rs:98-104 | two URLs are one if their texts are the same up to the first hash sign |
| Crawl.CrawlIsSafe | crates/crawl/src/lib.rs:107-123 | at most max_pages visits, same host, allowed by robots (seed aside), within depth; emitted URLs are distinct, differ from the seed, and there are none without a baseline |
| Crawl.CrawlIsClosed | crates/crawl/src/lib.rs:575-625 | with budget left, every emitted URL and every eligible link on an expanded page was visited |
| Crawl.LabelHasPath | crates/crawl/src/lib.rs:575-625 | every depth label is the length of a link path from the seed through expanded pages |
| Crawl.EmittedHasPath | crates/crawl/src/lib.rs:575-625 | every emitted URL ends such a path of at most max_depth links |
| Crawl.EmitDiscovered | crates/crawl/src/lib.rs:641-660 | one asset for each discovered URL, with its observed status or 0; the filter against the seed drops nothing |
| Forms.FormTable.RecordForm | crates/crawl/src/lib.rs:548-571 | records a form and its parameters as the specification does, keeping the key sets exact |
| Forms.SameFormIff | crates/crawl/src/lib.rs:129-131 | two forms are the same if and only if they have the same action and the same method in any case |
| Forms.BodyIff | crates/crawl/src/lib.rs:556-560 | inputs go into the body if and only if the method is POST in any case |
| Forms.FormsExact | crates/crawl/src/lib.rs:548-571 | recorded forms have distinct keys, were all seen, and every seen key is recorded |
| Forms.ParamsExact | crates/crawl/src/lib.rs:553-571 | parameters have distinct names and are exactly the inputs of the recorded forms, each with the location of a form that has it |
| Spf.CountSpfLookups | crates/dns/src/email.rs:292-354 | the recursive loop terminates on cyclic records too and computes the count with cutoff |
| SpfMechanisms.LookupAddsOne | crates/dns/src/email.rs:323-332 | any qualifiers in the order of the passes and then a form of a, mx, ptr or exists add exactly one |
| SpfMechanisms.QualifiedAddsOneIff | crates/dns/src/email.rs:299-303 | of several qualifiers in front of such a form, it adds one if and only if they stand in the order + - ~ ?, else nothing |
| SpfMechanisms.SwappedQualifiersCountNothing | crates/dns/src/email.rs:299-303 | -+a adds nothing |
| SpfMechanisms.FollowAdds | crates/dns/src/email.rs:305-350 | an include or redirect adds one and the count of the first SPF record of its domain, or one alone if there is none |
| SpfMechanisms.RepeatedForm | crates/dns/src/email.rs:305-334 | a repeated include: or redirect= counts once |
| SpfMechanisms.OtherAddsNothing | crates/dns/src/email.rs:298-352 | every other token adds nothing |
| SpfMechanisms.FlatRecord | crates/dns/src/email.rs:260-261 | a record without includes and redirects, however it is spaced, counts its lookups, and is reported if and only if there are more than ten |
| Spf.ChainCosts | crates/dns/src/email.rs:292-354 | a chain as long as the levels left reaches the sentinel and costs a lookup a level |
| Spf.NoChainExact | crates/dns/src/email.rs:292-354 | without such a chain the count is the whole unfolding, however deep |
| Spf.CutoffSoundAndComplete | crates/dns/src/email.rs:260-261 | over the limit as counted if and only if some finite unfolding, counted without sentinel, exceeds 10; any resolver |
| Spf.ReportedCountExact | crates/dns/src/email.rs:292-354 | the reported number is exact when no chain of 13 includes or redirects exists |
| Hosts.HostRecovered | crates/core/src/domain.rs:26-67 | whatever scheme, user information, port and path surround a name, an IPv4 address or an IPv6 address, in brackets or bare, the target comes down to it in lower case without trailing dots |
| Hosts.KeyShape | crates/core/src/domain.rs:26-67 | a key has no path, is in lower case and has no trailing dot |
| Hosts.IdempotentIff | crates/core/src/domain.rs:26-67 | normalising twice is normalising once if and only if the host part of the target has no second '@', no single port followed by dots, and not two ports behind brackets |
| Hosts.KeyFixedIff | crates/core/src/domain.rs:26-67 | a key is its own key if and only if it holds no '@' and does not end in what reads as a port |
| Hosts.PlainHostIdempotent | crates/core/src/domain.rs:26-67 | idempotent for every host without '@', '/' and ':' |
| Hosts.DottedPortNotIdempotent | crates/core/src/domain.rs:26-67 | host:digits. is never idempotent: the dot hides the port from the first pass |
| Hosts.SecondAtNotIdempotent | crates/core/src/domain.rs:26-67 | a@b@c is not idempotent |
| Hosts.BracketedPortsNotIdempotent | crates/core/src/domain.rs:26-67 | a bracketed address with two ports is not idempotent |
| Dedup.CoverageExact | crates/core/src/dedup.rs:47-55 | a wildcard covers exactly the names that extend its parent by a dot; never the parent itself |
| Dedup.CoversByKeyIff | crates/core/src/dedup.rs:47-55 | a wildcard finding covers exactly the hosts that extend its key's parent by a dot if and only if the host part of its target has no second '@', no single port followed by dots, and not two ports behind brackets |
| Dedup.UnstableWildcardMisses | crates/core/src/dedup.rs:47-55 | a wildcard *.a:1. does not cover b.a:1., though its key is *.a:1 and the host's is b.a:1 |
| Dedup.DedupFindings | crates/core/src/dedup.rs:64-131 | the loop computes the specification: wildcards first, one survivor a key, tagged when needed and the builder accepts |
| Dedup.SurvivorsExact | crates/core/src/dedup.rs:64-131 | for all findings: one survivor for each wildcard key and each host key that no wildcard covers, made from the first finding with it; no other |
| Dedup.SurvivorCarries | crates/core/src/dedup.rs:64-131 | a survivor is the first finding of its key, unchanged unless a wildcard covers it, it lacks the tag and rebuilding succeeds; then it has the tag added |
| Dedup.OrderIndependent | crates/core/src/dedup.rs:64-131 | for all findings: every permutation gives the same surviving keys |
| Dedup.DedupIdempotent | crates/core/src/dedup.rs:64-131 | for all findings: deduplicating the survivors returns exactly the survivors |
| Dedup.ApexCoveredIff | crates/core/src/dedup.rs:47-55 | a wildcard covers its own apex if and only if behind an '@' of its key stands another wildcard without a port |
| Dedup.ApexSurvivesIff | crates/core/src/dedup.rs:47-131 | for all findings in which no other wildcard covers it, an apex that is not itself a wildcard survives if and only if its wildcard's key hides no other; the wildcard always survives |
| Dedup.ApexAbsorbed | crates/core/src/dedup.rs:47-131 | the apex z@q@*.b falls to its wildcard z@*.q@*.b |
| Xml.ChainIsMap | crates/core/src/text.rs:5-12 | the five-pass replace chain is the per-character map, on every string |
| Xml.UnescapeInvertsEscape | crates/core/src/text.rs:5-21 | the five-pass unescaper inverts it, on every string |
| Xml.XmlEscapeReport | crates/cli/src/output.rs:293-307 | the report escaper is the per-character map on the text without disallowed control characters |
| Xml.EscapersAgreeIff | crates/cli/src/output.rs:293-307 | the two escapers agree if and only if the text has no such character |
| Xml.DroppedCount | crates/cli/src/output.rs:293-307 | exactly the characters below 32 other than tab, line feed and carriage return are dropped |
| Xml.ReportRoundTrip | crates/cli/src/output.rs:293-307 | both unescapers give back a report text less the dropped characters |
| Xml.DecodeXmlEntities | crates/crawl/src/seeds.rs:90-125 | the one-pass loop computes the decoder, unclosed and unknown entities included |
| Xml.DecodeInvertsEscape | crates/crawl/src/seeds.rs:90-125 | the one-pass decoder inverts the escapers, on every string |
| Xml.UnknownEntityCopied | crates/crawl/src/seeds.rs:90-125 | an entity that is not one of the five is copied, semicolon and all |
| Xml.KnownEntityDecoded | crates/crawl/src/seeds.rs:90-125 | the five entities are decoded, each to its character |
| Xml.UnclosedEntityCopied | crates/crawl/src/seeds.rs:90-125 | without a semicolon nothing is decoded |
| Sitemap.ParseSitemap | crates/crawl/src/seeds.rs:128-154 | terminates on every body, nested tags included, and computes the located URLs |
| Sitemap.SitemapRoundTrip | crates/crawl/src/seeds.rs:128-154 | of every printed list of trimmed texts, through escaping and white space, around any filler without an opening tag, exactly those that parse as http or https come back, in order |
| Sitemap.OnlyWeb | crates/crawl/src/seeds.rs:128-154 | nothing but http and https comes out of any body |
| Sitemap.FindIsFirst | crates/crawl/src/seeds.rs:132-141 | a tag is found where it first occurs |
| Sitemap.NestedLocTakesOver | crates/crawl/src/seeds.rs:136-141 | of nested tags the outer is skipped and the inner read |
| DomFingerprint.GenerateDomFingerprint | crates/core/src/accuracy.rs:86-151 | the flag-driven loop computes the scanner state of the whole page |
| DomFingerprint.ScanPage | crates/core/src/accuracy.rs:86-151 | a printed page adds its tag names in document order and leaves the scanner idle, whatever follows |
| DomFingerprint.FingerprintOfPrinted | crates/core/src/accuracy.rs:86-151 | the fingerprint of a printed page is the comma-joined lower-case pre-order list of its tag names |
| DomFingerprint.FingerprintReadsBack | crates/core/src/accuracy.rs:86-151 | names without commas are read back from the fingerprint at its commas |
| DomFingerprint.ScanQuotedTag | crates/core/src/accuracy.rs:104-124 | a name that runs into a quote is taken, and the markup in the quote is not |
| SimHash.CalculateFuzzyHash | crates/core/src/accuracy.rs:158-188 | each bit is the strict majority vote of the token hashes; without tokens, the hash of the text |
| Text.SplitSpaced | crates/core/src/accuracy.rs:162-166 | words come back from any spacing |
| Text.IsSpaceIff | crates/core/src/accuracy.rs:162 | white space is the blank and the five control characters from tab to carriage return |
| Text.LowerCharCodes | crates/core/src/domain.rs:64-65 | lower case moves the 26 capitals and nothing else |
| SimHash.WeightFits | crates/core/src/accuracy.rs:158-188 | a balance is at most the number of tokens, so it stays within 32 bits below 2^31 tokens |
| SimHash.BitsDetermine | crates/core/src/accuracy.rs:158-188 | a word is determined by its bits, so the majority determines the value |
| SimHash.PermutationInvariant | crates/core/src/accuracy.rs:158-188 | permuting the tokens does not change the value |
| SimHash.OneTokenFlips | crates/core/src/accuracy.rs:158-188 | one more token, anywhere, flips only bits whose balance was 0 or 1, and towards its own bit |
| Base64.Base64Std | crates/core/src/hashing.rs:61-86 | the chunk loop computes the encoding, padding included |
| Base64.EncodeRoundTrip | crates/core/src/hashing.rs:61-86 | a decoder after section 4 of RFC 4648 inverts it, for every byte string |
| Base64.EncodedLength | crates/core/src/hashing.rs:61-86 | 4 × ceil(n / 3) symbols |
| Base64.FrameLines | crates/core/src/hashing.rs:95-99 | the loop computes the 76-column framing |
| Base64.FrameRoundTrip | crates/core/src/hashing.rs:93-99 | deleting the newlines gives the text back; there are exactly ceil(len / 76) |
| Base64.NewlineColumns | crates/core/src/hashing.rs:93-99 | the newlines stand behind each 76 characters and at the end, nowhere else |
| Base64.FramingInjective | crates/core/src/hashing.rs:93-99 | different icons are framed differently, so only the hash can confuse them |
| Qname.BuildQueryWithTxid | crates/dns/src/axfr.rs:304-336 | the loop builds header, name and question, or nothing when the message outgrows 65535 bytes |
| Qname.ParseNameBytes | crates/dns/src/axfr.rs:316-324 | a decoder after section 3.1 of RFC 1035, with its limits of 63 and 255 octets, reads the kept labels up to the first empty one if they fit, and leaves the rest |
| Qname.QueryMeansTransferIff | crates/dns/src/axfr.rs:304-336 | the message decodes to the zone's labels, type 252, class 1, nothing left over, if and only if every label has 1 to 63 bytes and the name at most 255 octets |
| Qname.ProperZoneIff | crates/dns/src/axfr.rs:316-324 | labels of 1 to 63 bytes fit a name if and only if the text without final dots has at most 253 bytes |
| Qname.OverlongZoneMisread | crates/dns/src/axfr.rs:304-336 | 200 labels of one letter: the query is built, and no decoder reads its name of 401 octets |
| Qname.RootZoneMisread | crates/dns/src/axfr.rs:316-327 | the query for the root zone decodes to type 0, class 0xfc00 |
| Qname.QueryLength | crates/dns/src/axfr.rs:304-336 | at most 18 bytes more than the trimmed text; exactly 17 + sum(len + 1) for proper labels |
| Qname.QueryInjective | crates/dns/src/axfr.rs:304-336 | two zones of proper labels share a query only if they differ in final dots |
| Qname.SendQuery | crates/dns/src/axfr.rs:174-179 | for any zone the two-byte length prefix of a query that is sent is its length; a zone of proper labels is sent if and only if its text has at most 65517 bytes |

## Left out

- TxDispatch.RunThread: the number of probes plus the stride is taken to fit in 64 bits, or the index itself would wrap; how often it skipped before a panic is not stated.
- TxDispatch.RunScan: the threads share no state but the backoff table, whose answers are arbitrary, so running them one after the other stands for any interleaving. The message of an abort is not modelled.
- ThreadPacing.AwaitTokens: the clock readings are given, as many as there are; a clock that stands still for ever is not modelled.
- TokenBucket.RateLimiter.Refill: clock readings lie below 2^63 microseconds, so the cast of the elapsed time to 64 bits never truncates.
- Windows.RoundedDownFailsIff: window lengths end 999 nanoseconds before the end of the clock, for room to show a failing run.
- Aimd.AdaptiveRate.ReportSuccess: ceilings within a twentieth of 2^64 are excluded, where the step up would overflow.
- Aimd.AdaptiveRate.ReportDrops: ceilings above a third of 2^64 are excluded, where tripling the rate would overflow; the configured rate has 32 bits.
- Icmp.IcmpBackoff.FeedAt: blocked_total and the times are unbounded; overflow of the clock is not modelled.
- Crawl.CrawlIsClosed: nothing is said about URLs beyond the depth labels; the worklist is a stack, so a URL may be labelled with a depth that is not the least one and its links left unexpanded.
- Spf.CountSpfLookups: the count is unbounded; a machine word could overflow only on records of impossible size.
- SpfMechanisms.OtherAddsNothing: mechanism names count as written in lower case; the source does not fold case either.
- Hosts.HostRecovered: ASCII only; internationalised names (`xn--` labels) and the public suffix list are not part of this model. A path with an '@' and no user information in front is excluded: the source takes the text up to it for user information.
- Dedup.DedupFindings: the fields of a finding are lumped into content and extra; extra stands for what rebuilding a finding loses.
- DomFingerprint.FingerprintOfPrinted: a '<' inside text or attributes is excluded; the scanner takes it for a tag.
- SimHash.CalculateFuzzyHash: the weights are unbounded where the source's have 32 bits; they differ only from 2^31 tokens on (SimHash.WeightFits).
- Base64.EncodedLength: Rust capacities are not modelled beyond the length itself.
- White space and case are those of ASCII wherever the source trims, splits or folds text.
- Sockets, packet engines, cookies, the receive path, CPU pinning, banner grabbing and logging.
- The browser, JavaScript evaluation, HTTP fetching and URL parsing: replaced by arbitrary outcomes.
- `consume_blocking` and the periodic cadence of ticks: any interleaving of takes, ticks and applies is covered instead.
- Lock poisoning and memory ordering: each table operation is one atomic step.
- MurmurHash and wyhash internals, and floating-point similarity.
- The parser of robots.txt, the checkpoint store, configuration, cloud providers, DNS probes and rule tables: single-branch logic.
