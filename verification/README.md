# Models of the ZenGate gateway

Dafny models of the stateful decisions of the gateway and of its agent pipeline, with the properties
they are meant to have. Four parts:

- **Rate limiting.** The Redis sorted-set log (`SlidingWindow`, with `LogContents` and `SkewBound`), the
  in-memory token bucket (`TokenBucket`), the fixed-window counter (`FixedWindow`), and whole requests
  at many gateways that share one Redis (`Gateway`, with `Policies`). `Counting` and `Windows` hold the
  arguments the limiters share.
- **Policies.** One store replicated into caches (`ControlPlane`), the handlers with etcd and without
  it (`Modes`), and all writers and gateways interleaved step by step, with etcd (`Cluster`) and
  without it (`Local`).
- **Metrics and monitors.** Counters created, added to and read while others do the same (`Metrics`,
  `Recordings`, `Registry`, `MetricKeys`), the self-healer (`Healer`) and the spike detector
  (`Detector`, `Sampling`). `Sums` and `Paths` are shared.
- **The agent pipeline.** The file-block scanner (`BlockParser`, `BlockShape`), the working tree
  (`WorkTree`, `WrittenPaths`), the stages (`Stages`), the class that carries them out (`Pipeline`),
  the calls whole runs make (`Traces`, `LongestRun`), what their final message says (`Outcomes`) and
  does not say (`Unheeded`), and what they leave behind (`FinalTree`).

Code that updates state is a class whose methods are proved equal to functions on values; the theorems
are about those functions, over whole runs. Clocks, network faults, random suffixes, agents' answers
and test results are inputs. Times and counts are unbounded integers; token levels, throughput samples
and rates are reals. In the gateway's modules a string is a sequence of bytes, as in Go; in the
pipeline's it is one of characters, as in Python.

## What turned out different from what one might expect

- The fixed window admits at most 2L - 1 calls in a window, not 2L: the call that opens a lifetime
  always lies outside (`IntervalBound`); 2L - 1 is reached for every window of at least two ticks
  (`BoundIsReached`).
- The sliding window's promise rests on distinct members. `sliding_window.lua:25` draws the suffix from
  Redis' `math.random`, whose sequence starts afresh in every script, so calls in one millisecond can
  present one member. Such a call overwrites the earlier one and is not counted; a call counts too few
  exactly when members in its window repeat (`CountsExactlyWhenDistinct`), and the promise is kept
  exactly when no call finds fewer members than the limit among at least as many admissions
  (`PromiseKeptExactly`; the same condition makes every answer the full history's, `RefinesExactly`).
  Three calls at once pass a limit of two (`RepeatedMembersBreakThePromise`).
- An absorbed spike can exceed its own threshold again, but only in a history of more than ten samples
  (`FlaggedIsHighest`, `SpikeFlagsItselfExactlyAboveTen`). Whenever samples of a history exceed its
  threshold they are fewer than a tenth of it (`FewerThanOneInTen`), a sharper bound than the ninth that
  Chebyshev's inequality gives.
- A watch is opened without a revision (`client.go:174`), so events written between the load and the
  watch, or between two watches, are skipped; a deletion there leaves the policy in the cache until
  it is written again (`SkippedDeletionStays`). In any run, with any number of such gaps, the cache is
  the store exactly when every entry is still what it was when the gateway last heard of it
  (`CacheIsStoreExactlyWhen`); after one gap, exactly when everything the skipped events changed has
  been rewritten (`GapHealsExactlyWhenRewritten`).
- Scaling reads all policies and then writes them one by one. Each write puts the value that was read:
  it brings a policy back exactly when the last event about it since the reading is a deletion, and
  undoes a save exactly when the last event is one that scales differently
  (`Cluster.ScalingRevivesExactly`, and `Local.ScalingRevivesExactly` without etcd). What it writes is
  still complete (`PoliciesStayComplete`).
- The pipeline can announce success without the reviewer's approval and with failing tests, although
  `ARCHITECTURE.md:118-134` shows a failed test leading back to the code generator. The last review of a
  run that reaches its tester approves exactly when fewer reviews than there may be rejected
  (`RunApprovedUnlessAlwaysRejected`). The code it hands to the tester failed its last test exactly
  when the last rework used up all its tries (`RunFailsTestsExactly`). No branch looks at the outcome of
  the tester's own test run: it only feeds the tester's prompt, so it bears on the run through nothing
  but the agents' later answers (`HandOverIsReached`). Success is announced exactly when the tester's
  agent completed and the documentation could be written (`SuccessExactlyWhenTested`).
- Without etcd two deletions of one policy can both find it and both be answered as carried out, where
  etcd answers the second that there is nothing to delete (`ErasesNothingExactly`).
- The code stage cleans the tree between its attempts, the rework in the review loop does not: what the
  stage's last answer and all later ones wrote stays (`SuccessTree`).

## Model

| member | source | states |
|---|---|---|
| SlidingWindow.SortedSet.RunScript | internal/ratelimit/scripts/sliding_window.lua:10-36 | the script's commands, run in turn on a key that may have expired, give the answer and the log of one atomic evict-count-admit-or-refuse step |
| SlidingWindow.SortedSet.ZRemRangeByScore | internal/ratelimit/scripts/sliding_window.lua:16-17 | members scored 0 to now - window go, both ends included, and a set left empty loses its key and its expiry |
| SlidingWindow.SortedSet.PExpire | internal/ratelimit/scripts/sliding_window.lua:29 | the key expires one window from the server's time; a window that is not positive deletes it at once |
| SlidingWindow.Retained | internal/ratelimit/scripts/sliding_window.lua:16-29 | an admitted member is still in the log for every later call whose timestamp is less than the smallest window minus the clock drift past it: neither eviction nor expiry loses it |
| LogContents.LogExactly | internal/ratelimit/scripts/sliding_window.lua:10-36 | for any clocks and policies: the log holds exactly the members of admitted calls that no call since has evicted or come too late for, scored by their timestamps, and its key expires one window of the server's time after the last admission, refused calls adding and prolonging nothing |
| LogContents.SeenExactly | internal/ratelimit/scripts/sliding_window.lua:16-22 | what a call counts is exactly those members that it neither evicts nor comes too late for itself, and it is admitted exactly when they are fewer than its limit |
| LogContents.IdleKeyIsEmpty | internal/ratelimit/scripts/sliding_window.lua:22-36 | once every admission is more than its window ago in the server's time a call counts nothing, whatever was refused since, and any positive limit admits it |
| SlidingWindow.SkewSafety | internal/ratelimit/scripts/sliding_window.lua:16-32 | for gateways drifting by at most d and any mixture of policies on the client's one key, no half-open interval of length (smallest window - d) receives more distinct members than the largest limit |
| SlidingWindow.SkewSafetyForCalls | internal/ratelimit/scripts/sliding_window.lua:24-26 | with fresh members the same bound holds for the number of admitted calls |
| SkewBound.SkewBoundIsSharp | internal/ratelimit/scripts/sliding_window.lua:16-32 | that length is the best possible: for every limit of at least two and every drift up to the window a run with fresh members admits more than the limit in an interval one tick longer |
| SlidingWindow.BoundedSkewIsDrift | internal/ratelimit/limiter.go:104 | gateways whose clocks stay within e of the server's drift by at most 2e |
| SlidingWindow.OnlyAdmitted | internal/ratelimit/scripts/sliding_window.lua:22-26 | the log holds nothing but members of earlier admissions, scored by their timestamps |
| SlidingWindow.SeenIsWindow | internal/ratelimit/scripts/sliding_window.lua:16-20 | on one shared clock and one window, what a call counts is exactly the members admitted in (now - window, now] |
| SlidingWindow.RefusedExactlyWhenFull | internal/ratelimit/scripts/sliding_window.lua:20-36 | on one shared clock, with fresh members, a call is refused if and only if at least limit earlier admissions have times in (now - window, now] |
| SlidingWindow.RefinesFullHistory | internal/ratelimit/scripts/sliding_window.lua:16-36 | on one shared clock and one window, with fresh members, pruning and expiring change no decision: every answer is that of a reference limiter that never forgets |
| SlidingWindow.RefinesExactly | internal/ratelimit/scripts/sliding_window.lua:16-36 | on one clock with one policy and members of whatever freshness, all answers are the full history's if and only if no call finds fewer members than the limit among at least as many admissions |
| SlidingWindow.GreedyIsOptimal | internal/ratelimit/scripts/sliding_window.lua:16-36 | under the same conditions, one limit and a positive window, the script keeps at most limit in each window and after every prefix no choice of calls that keeps at most limit in each window has admitted more than the script |
| SlidingWindow.IthAdmissionNoLater | internal/ratelimit/scripts/sliding_window.lua:16-36 | the i-th admission comes no later than the i-th pick of any such choice |
| SlidingWindow.CountsExactlyWhenDistinct | internal/ratelimit/scripts/sliding_window.lua:20-26 | a call never counts more than the earlier admissions in its window, and counts as many exactly when their members are pairwise distinct |
| SlidingWindow.OverlookedExactly | internal/ratelimit/scripts/sliding_window.lua:20-26 | a call is admitted although its window already holds limit admissions exactly when fewer than limit distinct members lie there |
| SlidingWindow.PromiseKeptExactly | internal/ratelimit/scripts/sliding_window.lua:16-32 | with members of whatever freshness, the promise of at most limit admissions a window is kept exactly when no call finds fewer members than the limit among at least as many admissions |
| SlidingWindow.RepeatedMembersBreakThePromise | internal/ratelimit/scripts/sliding_window.lua:24-26 | three calls in one millisecond that repeat one member are all admitted under a limit of two |
| Windows.DecidingKeepsPromise | internal/ratelimit/scripts/sliding_window.lua:20-36 | deciding by the number of earlier admissions in the window never puts more than limit admissions into a window |
| Windows.DecidingIsOptimal | internal/ratelimit/scripts/sliding_window.lua:20-36 | and no choice that keeps that promise is ever ahead of it |
| TokenBucket.Bucket.Take | internal/ratelimit/limiter.go:57-73 | refill from the time elapsed up to capacity, then take one token if there is one; the bucket's new tokens and time |
| TokenBucket.Limiter.Allow | internal/ratelimit/limiter.go:45-74 | the client's bucket, created full if new, is charged and every other client's is unchanged; the call's limit and window are ignored |
| TokenBucket.TokensAreLeast | internal/ratelimit/limiter.go:57-65 | the tokens a call finds are the least, over the client's calls k so far, of capacity + rate * (time since k) - (admissions since k) |
| TokenBucket.ExactEnvelope | internal/ratelimit/limiter.go:45-74 | call n is admitted if and only if for each of the client's calls k up to n the admissions in k..n-1 plus one fit in capacity + rate * (t_n - t_k); for any rate, capacity and clock, whatever other clients do |
| TokenBucket.SpanBound | internal/ratelimit/limiter.go:45-74 | a span of calls i..j of a client admits at most capacity + rate * (t_j - t_i): for any rate, capacity and clock if it ends in an admission, and wherever it ends if the client's own clock does not run backwards and rate and capacity are not negative |
| TokenBucket.BucketIsOptimal | internal/ratelimit/limiter.go:45-74 | no choice that fits the envelope has, after any prefix, admitted more of a client's calls |
| TokenBucket.AnswersFitEnvelope | internal/ratelimit/limiter.go:45-74 | the bucket's own answers fit the envelope |
| FixedWindow.Key.Incr | pkg/ratelimiter/limiter.go:15 | an expired or absent counter starts at one, a live one goes up by one and keeps its expiry |
| FixedWindow.Key.Allow | pkg/ratelimiter/limiter.go:14-44 | the counter's next state and the comparison with the limit; an error lets the request pass, and the counter moves unless the call never reached Redis |
| FixedWindow.WholeLifetime | pkg/ratelimiter/limiter.go:14-23 | a counter's lifetime admits exactly the lesser of its calls and the limit |
| FixedWindow.BurstBound | pkg/ratelimiter/limiter.go:14-23 | calls spanning less than a window are admitted at most 2 * limit - 1 times, since they meet at most two lifetimes |
| FixedWindow.IntervalBound | pkg/ratelimiter/limiter.go:14-23 | any half-open interval of one window admits at most 2 * limit - 1 calls |
| FixedWindow.BoundIsReached | pkg/ratelimiter/limiter.go:14-23 | for every positive limit and window of at least two ticks a run reaches that bound |
| Policies.GetMatchingPolicy | internal/controlplane/client.go:128-153 | a policy is found exactly when one matches, and what is found is a stored policy that matches |
| Policies.SelectPolicy | internal/ratelimit/middleware.go:46-51 | a matching policy or else the tier's default; a complete one whenever all cached ones are |
| Policies.ScalingKeepsComplete | internal/ai/analyzer.go:224-226 | scaling a complete policy by more than one changes its limit alone: never below what it was, never above the exact product, and less than one below it |
| Policies.MatchesExactly | internal/controlplane/client.go:132-146 | a policy applies where its path, method and tier are each a star or the request's own |
| Policies.DefaultedMatches | internal/controlplane/handler.go:97-102 | a stored policy applies as the one sent, an empty method or tier standing for any, and nothing else of it changes |
| Policies.DefaultLimits | internal/ratelimit/middleware.go:80-111 | without a policy a minute holds 1000 requests of a premium client, 100 of a basic one and 20 of any other |
| Policies.SelectedExactly | internal/ratelimit/middleware.go:46-51 | whatever a request is limited by is cached and applies to it, and is its tier's default if nothing cached applies |
| Gateway.Redis.EvalSha | internal/ratelimit/limiter.go:110 | a script the server holds runs once on its key and touches no other, whether or not its reply is heard; otherwise nothing changes |
| Gateway.Limiter.Allow | internal/ratelimit/limiter.go:102-133 | one script run at most, on the key zg:rl:client with the window in milliseconds; an answer is that run's, no answer is an error, and the digest afterwards is the reloaded one or none |
| Gateway.Middleware.Handle | internal/ratelimit/middleware.go:32-78 | the policy, identity and arguments used; the request is served exactly if the limiter does not answer or the log of the client, "anonymous" without a name, counts fewer members than the limit; a refusal is counted once; complete cached policies give a positive limit and window |
| Gateway.ServedExactly | internal/ratelimit/middleware.go:55-74 | a request is served if and only if the limiter does not answer it or the log it counts holds fewer members than its limit |
| Gateway.ServedAreExactly | internal/ratelimit/middleware.go:55-78 | in any run the requests served of a client are exactly its answered admissions and its unanswered requests |
| Gateway.ExecutedExactly | internal/ratelimit/limiter.go:110-124 | the script runs exactly when the first command reaches Redis holding it or, where that finds it missing, the reload works and the second command arrives before it is lost again |
| Gateway.DigestAfter | internal/ratelimit/limiter.go:112-117 | a limiter's digest changes only when it reloads the script, to the one that comes back or to none |
| Gateway.LogIsItsOwn | internal/ratelimit/limiter.go:103 | a client's log is what its own calls make of an absent key, whoever else shares the server |
| Gateway.DecidedByOwnCalls | internal/ratelimit/limiter.go:102-133 | the answers a client meets are those of a run of its own calls alone |
| Gateway.GatewaysKeepTheLimit | internal/ratelimit/middleware.go:53-78 | what all gateways together let through for a client in an interval of (smallest window - drift) is at most its largest limit by answered admissions, and one more for each request the limiter failed to answer |
| Gateway.FleetKeepsTheLimit | internal/ratelimit/limiter.go:102-133 | with fresh members and bounded drift, that bound holds in every run of requests at gateways sharing one Redis, whatever digests they start with, whenever scripts are lost and whichever commands and replies fail |
| Gateway.AnsweredExactly | internal/ratelimit/limiter.go:110-124 | a call is answered exactly when its first command works and, if the script is missing, the reload and the one retry work and the script is not lost in between |
| Gateway.UndisturbedFleetKeepsTheLimit | internal/ratelimit/limiter.go:102-133 | where commands work the limit itself is kept, with fresh members and bounded drift, whatever digests the gateways start with and however scripts were lost before |
| ControlPlane.ReplayMirrors | internal/controlplane/client.go:190-219 | a cache that holds the store keyed by ID still does after delivering any stretch of events whose values carry their keys' IDs |
| ControlPlane.GapHealsExactlyWhenRewritten | internal/controlplane/client.go:167-200 | after one gap of missed events behind a cache that was the store, and then any delivered events, the cache is the store again if and only if every policy the gap changed has been rewritten |
| ControlPlane.LastDecides | internal/controlplane/client.go:190-219 | an entry of the store after any events is what the last event about its key left, or what was there before |
| Modes.Client.SavePolicy | internal/controlplane/handler.go:81-133 | the validation, the defaults and the write of a save: its answer, the new cache without etcd, and the one event written with it, also when the write takes effect but reports an error |
| Modes.Client.DeletePolicy | internal/controlplane/handler.go:136-180 | the answers 400, 404, 500 and 200 of a delete and what it removes in each mode, also when it takes effect but reports an error |
| Modes.Client.TranslatePolicy | internal/ai/translator.go:96-133 | the same for a translated policy, for any answer of the model |
| Modes.Client.ScaleLimits | internal/ai/analyzer.go:188-244 | nothing unless an increase by more than one is advised; then every policy once, scaled from the value read, save those whose put fails |
| Modes.Client.Start | internal/controlplane/client.go:54-78 | without etcd or after an error nothing is loaded; else every value of the store replaces what was held under the ID it carries, and nothing else changes |
| Modes.SaveExactly | internal/controlplane/handler.go:90-113 | a save is accepted exactly with an ID, a path, a positive limit and a positive window, 400 otherwise; it then replaces the policy of that ID alone, an empty method or tier made a star |
| Modes.RemoveExactly | internal/controlplane/handler.go:136-155 | a deletion is 400 exactly without an ID and 404 exactly for an unknown one, and otherwise removes that policy alone |
| Modes.TranslateExactly | internal/ai/translator.go:62-133 | a translation is 400 exactly without a prompt and 500 exactly without a complete policy for an answer, and otherwise stores it as a save does |
| Modes.MemoryScalesExactly | internal/ai/analyzer.go:188-210 | without etcd every limit is multiplied by the factor, to less than one below, exactly if the advice finds an anomaly, says increase-limit and gives a factor above one; nothing else changes |
| Modes.EtcdScalesExactly | internal/ai/analyzer.go:188-243 | with etcd the same holds of every policy whose put takes effect, the others staying as they are |
| Modes.LoadMirrorsExactlyWhenKeyed | internal/controlplane/client.go:61-75 | what is loaded into an empty cache is the store keyed by ID if and only if every key carries its value's ID |
| Modes.RequestsAgree | internal/controlplane/handler.go:81-180 | one request gets the same answer in both modes and leaves the same policies |
| Modes.FaultsOnlyHideAnswers | internal/controlplane/handler.go:121-180 | a fault of the store only ever turns an answer into 500, never into one that claims success or absence; any other answer is the in-memory mode's with the same policies left, and a request that wrote anything took its whole effect |
| Modes.AnswersAgree | internal/controlplane/handler.go:81-180 | in any run of saves, deletes, translations and scalings each is answered alike in both modes |
| Modes.CachesAgree | internal/controlplane/client.go:202-219 | after any such run, once all events are delivered, the cache fed by etcd equals the in-memory map |
| Cluster.StepKeepsInv | internal/controlplane/client.go:54-219 | every step of writers, scalers and gateways keeps keys matched to IDs, policies complete and unbroken watches exact |
| Cluster.PoliciesStayComplete | internal/ai/analyzer.go:188-243 | at every point of every interleaved run all stored and cached policies have an ID, a path, a positive limit and a positive window |
| Cluster.CacheIsStoreAtRevision | internal/controlplane/client.go:61-75 | a gateway that skipped no event holds exactly the store of its revision |
| Cluster.CacheIsStoreExactlyWhen | internal/controlplane/client.go:167-200 | in every run, however often a watch was lost, a gateway's cache is the store of its revision if and only if every entry is still what it was right after the last delivered event about it, or at the load |
| Cluster.SkippedDeletionStays | internal/controlplane/client.go:61-75 | for every policy there is a run in which a deletion between load and watch leaves an up-to-date gateway holding the deleted policy |
| Cluster.ScalingKeepsReading | internal/ai/analyzer.go:217-226 | the revision and the factor of a scaling's writes are those of its one read |
| Cluster.ScalingRevivesExactly | internal/ai/analyzer.go:217-243 | in every run each write of a scaling puts the read value scaled; it revives a policy if and only if the last event about it since the read is a deletion, and scales the current value if and only if there was no event or the last was a save that scales alike |
| Cluster.ScalingRevivesDeleted | internal/ai/analyzer.go:214-243 | such a run exists for every policy |
| Local.StepKeepsInv | internal/ai/analyzer.go:199-210 | without etcd, every step of saves, look-then-delete deletions and one-by-one scaling keeps policies complete, filed under their IDs, and scalings true to what they took |
| Local.ErasesNothingExactly | internal/controlplane/handler.go:145-155 | in every run a deletion that found its policy removes nothing if and only if the last write under its ID since it looked is another deletion |
| Local.BothErase | internal/controlplane/handler.go:145-155 | for every policy there is a run in which two deletions find it and the second removes nothing |
| Local.ScalesEachOnce | internal/controlplane/client.go:106-113 | in every run the policies a scaling without etcd has still to write are each there once |
| Local.PoliciesStayComplete | internal/controlplane/handler.go:103-180 | at every point of every such interleaved run all policies of the map are filed under their ID and have a path, a positive limit and a positive window |
| Local.ScalingRevivesExactly | internal/ai/analyzer.go:199-210 | each write of a scaling puts the policy as it was when taken, scaled; it revives it if and only if the last write under its ID since is a deletion, and scales the current one if and only if there was none or the last was a save that scales alike |
| Metrics.StepKeepsInv | internal/metrics/handler.go:162-215 | check, locked re-check, insert, add and read steps in any order keep one cell per name, no lost add and sound readers |
| Metrics.NoLostCounts | internal/metrics/handler.go:45-62 | in every interleaving each counter holds exactly the sum of the adds completed under its name |
| Metrics.BoundForEver | internal/metrics/handler.go:162-215 | a name is bound to one counter for ever, and no two names share one |
| Metrics.HitsAreTimedPlusInFlight | internal/metrics/handler.go:45-56 | the request counters of a method and path, summed over statuses, exceed its latency count by exactly the recordings half done; at quiescence they are equal |
| Metrics.TornSnapshotsGrow | internal/metrics/handler.go:139-153 | snapshots read counter by counter during adds are ordered entry by entry |
| Recordings.CountersAreRecordings | internal/metrics/handler.go:45-56 | in every interleaving a request counter reads the number of recordings of its method, path and status that passed their first add, and a latency sum the milliseconds of those that passed their second |
| Recordings.LatencyIsExact | internal/metrics/handler.go:50-55 | the durations of the requests counted for a method and path are its latency sum and what recordings half done still owe it; at quiescence exactly the sum |
| Recordings.CountersOnlyRise | internal/metrics/handler.go:162-215 | a counter never moves to another cell and never falls |
| Recordings.SnapshotIsRecent | internal/metrics/handler.go:139-153 | a snapshot holds every request counter, each with a value between what it read when the snapshot began and what it reads when it ends |
| Registry.Handler.GetOrCreate | internal/metrics/handler.go:162-215 | an existing counter is returned as it is, a new one starts at zero, and no other binding or value changes |
| Registry.Handler.RecordRequest | internal/metrics/handler.go:45-62 | the counters after a recorded request, and a limited request counted as such |
| Registry.RecordedCounters | internal/metrics/handler.go:45-56 | a recorded request moves its own three counters by 1, its milliseconds and 1, and no other |
| Registry.Handler.Snapshot | internal/metrics/handler.go:139-153 | a snapshot is exactly the request counters and their values, the number of refusals and the whole seconds since the start |
| MetricKeys.IsLikelyID | internal/metrics/handler.go:231-250 | the loop decides exactly the segments that look like identifiers |
| MetricKeys.NormalizePath | internal/metrics/handler.go:219-228 | the rewritten path is the one with those segments replaced |
| MetricKeys.NormalizedTwice | internal/metrics/handler.go:219-228 | normalising again changes nothing |
| MetricKeys.NormalizedSegments | internal/metrics/handler.go:219-228 | normalising keeps the number of segments, and each one is kept or replaced on its own |
| MetricKeys.NormalizedExactly | internal/metrics/handler.go:219-250 | exactly the segments that are nonempty runs of the digits 0 to 9, or at least 32 long with a hyphen, become ":id" |
| MetricKeys.CounterKeysDistinct | internal/metrics/handler.go:46-51 | for methods without a colon, distinct method, path and status triples have distinct keys, although paths may hold ":id" |
| MetricKeys.LatencyKeysDistinct | internal/metrics/handler.go:54 | the same for latency keys |
| MetricKeys.FailureKeys | internal/ai/healer.go:100-103 | the test for the suffixes :500, :502 and :504 holds exactly for keys with those statuses |
| Paths.JoinSplit | internal/metrics/handler.go:220-227 | joining what a path was split into gives the path back |
| Paths.SplitJoin | internal/metrics/handler.go:220-227 | splitting what slash-free parts were joined into gives the parts back |
| Healer.SelfHealer.CountRequests | internal/ai/healer.go:94-104 | the loop adds up all counters and those of failing statuses, in any order |
| Healer.SelfHealer.Tick | internal/ai/healer.go:92-119 | the interval's rate or none, the totals carried over, and a recovery started, none being under way, exactly if at least ten requests came and a hundred times the failures reach the limit times the requests |
| Healer.RateExactly | internal/ai/healer.go:113-118 | an interval is judged exactly from ten requests on, and its rate times the requests is a hundred times the failures |
| Healer.BreachesExactly | internal/ai/healer.go:124-132 | the rate reaches the limit exactly if a hundred times the failures reach the limit times the requests |
| Healer.SelfHealer.EvaluateHealth | internal/ai/healer.go:124-138 | a recovery starts exactly when none runs and the rate reaches the limit; at most one is ever under way |
| Healer.SelfHealer.Recovered | internal/ai/healer.go:140-145 | however a recovery ends, the flag is clear and none is under way |
| Healer.TornSnapshotsAreSound | internal/ai/healer.go:94-118 | however torn the snapshots, 0 <= failed <= total in each interval and the rate is between 0 and 100 |
| Detector.Analyzer.AnalyzeTPS | internal/ai/analyzer.go:112-153 | nothing is flagged before five samples; then exactly those above the mean plus three standard deviations and above five; the history then absorbs the sample |
| Detector.HistoryIsRecent | internal/ai/analyzer.go:148-152 | after any run the history is exactly the last min(n, 60) samples |
| Detector.FewerThanOneInTen | internal/ai/analyzer.go:124-138 | of any history, no samples or fewer than a tenth of them exceed its own threshold |
| Detector.FlaggedIsHighest | internal/ai/analyzer.go:124-138 | with at most ten samples retained, only a sample above every one of them can be flagged |
| Detector.SpikeFlagsItselfExactlyAboveTen | internal/ai/analyzer.go:124-138 | a spike absorbed by an otherwise quiet history of m samples exceeds its threshold again if and only if m > 10 |
| Detector.ExceedsWithoutRoot | internal/ai/analyzer.go:124-138 | the test equals n*x > S and (n*x - S)^2 > 9 (n*Q - S^2), S the sum and Q the sum of squares |
| Detector.FlaggedExactly | internal/ai/analyzer.go:117-138 | nothing is flagged before five samples, and then exactly a sample above 5 that passes the root-free test |
| Sampling.Monitor.Tick | internal/ai/analyzer.go:86-107 | a tick totals the snapshot, carries the total over, and hands the difference over the interval to the detector |
| Sampling.HistoryMeasuresTraffic | internal/ai/analyzer.go:97-105 | the differences telescope: the retained history accounts for exactly the requests of the last sixty intervals, or of all of them |
| BlockParser.ParserInvertsRenderer | adk/agents/orchestrator.py:37-44 | scanning any list of blocks in the prompted format, their code free of closing fences and prose free of headers between them, gives the same blocks in order |
| BlockParser.RoundTripExactlyWhenClosed | adk/config.py:198-205 | one rendered block is read back unchanged if and only if its code holds no closing fence |
| BlockShape.MatchExactly | adk/agents/orchestrator.py:39 | a text matches, with a path, a code and a rest, if and only if it begins with that header, path, bracket, fence, language, code free of closing fences, and closing fence, white space allowed where the pattern allows it |
| BlockShape.TextExactly | adk/agents/orchestrator.py:39 | that shape spelt out in characters |
| BlockShape.CharactersExactly | adk/agents/orchestrator.py:39 | which characters may stand in a path, in a language and between the parts |
| BlockShape.LeftmostBlock | adk/agents/orchestrator.py:40 | the first block is at the first place that matches, and the others are those of the text after it |
| BlockShape.NoBlocks | adk/agents/orchestrator.py:40 | where nothing matches there are no blocks |
| WorkTree.ParseAndWriteFiles | adk/agents/orchestrator.py:37-56 | an answer's blocks are written in order up to one that cannot be written, those with paths that could leave the tree skipped, and the names returned are those written |
| WrittenPaths.ContainedExactly | adk/agents/orchestrator.py:47-49 | a block is written exactly if its path holds no ".." and begins with neither kind of slash |
| WrittenPaths.NeverClimbs | adk/agents/orchestrator.py:47-51 | no segment of a written path climbs out of the tree |
| WrittenPaths.FaultExactly | adk/agents/orchestrator.py:51-54 | a block that cannot be written ends the writing there, those before it written and no others, exactly if it would be written at all |
| WrittenPaths.ResolvesExactly | adk/agents/orchestrator.py:51 | a path names the file of its segments, empty and dot segments making no difference |
| WorkTree.LaterBlocksWin | adk/agents/orchestrator.py:42-54 | every written file holds the code of the last block that names it, and no other file changes |
| WorkTree.CleanUp | adk/agents/orchestrator.py:271-292 | each stale file that exists is checked out if tracked and deleted if not |
| WorkTree.CleanUpExact | adk/agents/orchestrator.py:271-292 | the clean-up restores the initial tree if and only if the touched files that exist began as they are tracked |
| WrittenPaths.RestoredExactly | adk/agents/orchestrator.py:271-292 | the clean-up leaves at each path a stale file that exists as it is tracked, or gone, and any other file as it was |
| FinalTree.AttemptBeginsClean | adk/agents/orchestrator.py:268-292 | from a tidy tree every attempt of the code stage begins with the initial tree |
| FinalTree.OnlyLastAttemptRemains | adk/agents/orchestrator.py:262-361 | the stage leaves the initial tree overlaid with exactly the last attempt's files, as far as they could be written, however many attempts it took |
| FinalTree.AllAttemptsTouched | adk/agents/orchestrator.py:262-308 | the files of all the attempts of the code stage are down for clean-up, not only the last one's |
| FinalTree.SuccessTree | adk/agents/orchestrator.py:262-477 | a successful run leaves the initial tree overlaid with the stage's last answer and every later code or documentation answer, in order |
| Pipeline.Pipeline.RunWithRetry | adk/agents/orchestrator.py:479-500 | the loop of one batch: every result recorded, waits that double, the first completed or the last failed result returned, and none at all without a try |
| Pipeline.Pipeline.GenerateCode | adk/agents/orchestrator.py:262-361 | the code stage's loop carries out clean, ask, write and test until the tests do not fail |
| Pipeline.Pipeline.Review | adk/agents/orchestrator.py:363-423 | the review loop, with its rework, falls through when it is used up |
| Pipeline.Pipeline.Execute | adk/agents/orchestrator.py:234-477 | the whole run: every result, test run, wait, file and the final message, a file that cannot be written ending it in a pipeline error |
| Traces.BackoffIsGeometric | adk/agents/orchestrator.py:490-496 | a batch with k failures waits 2^k - 1 times the base wait |
| Traces.FailuresAreNumbered | adk/agents/orchestrator.py:483-500 | the failed calls of a batch carry the numbers of their attempts, a completed one none |
| Traces.RunIsRecorded | adk/agents/orchestrator.py:483-488 | the results of every run are exactly its agents' answers, in the order they were asked |
| Traces.RunCalls | adk/agents/orchestrator.py:248-500 | every run ends after at most R^3 + 2R^2 + 3R agent calls |
| LongestRun.CallBoundIsReached | adk/agents/orchestrator.py:248-500 | for every R > 0 some successful run makes exactly that many |
| Traces.RunIsOrderly | adk/agents/orchestrator.py:248-477 | the calls of every run follow architect+ codegen* (reviewer+ codegen*)* tester+ docwriter+ as far as it gets; all agents but the code generator are called again only after a failed call and left only after a completed one, and a review leads to the code generator exactly if it rejects |
| Outcomes.SuccessExactlyWhenTested | adk/agents/orchestrator.py:248-477 | a run has a completed tester result if and only if it announces success or fails only in writing the documentation; the architect, the code generator and a reviewer have then completed too |
| Outcomes.MessageFitsLastResult | adk/agents/orchestrator.py:248-477 | the message of a run is the one that belongs to its last result and to no other: each agent's failure has its own, code that never passed its tests another, and a file that cannot be written is a pipeline error |
| Outcomes.SpecificationExactly | adk/agents/orchestrator.py:249-260 | once the architect completed, the run ends there as a pipeline error exactly if its specification cannot be written, and goes on to the code stage otherwise |
| Outcomes.CodeFailsExactly | adk/agents/orchestrator.py:262-361 | the code stage gives up on its tests if and only if all R of its test runs fail |
| Outcomes.ReviewsDecide | adk/agents/orchestrator.py:370-423 | in every run a completed review is followed by the code generator if it holds the word REJECT in letters of either case, and by the tester if not |
| Outcomes.ReviewBranches | adk/agents/orchestrator.py:370-423 | in the review loop a completed review that holds the word starts a rework, and any other ends the loop |
| Stages.RejectsExactly | adk/agents/orchestrator.py:377 | an answer rejects if and only if it holds those six letters, each in either case, somewhere |
| Outcomes.ApprovedUnlessAlwaysRejected | adk/agents/orchestrator.py:370-423 | the review loop lets code through with an approving last review if and only if fewer reviews than it may ask for rejected it |
| Outcomes.RunApprovedUnlessAlwaysRejected | adk/agents/orchestrator.py:363-477 | the same for whole runs that reach their tester, every successful one among them |
| Outcomes.ReworkFailsExactly | adk/agents/orchestrator.py:386-417 | a rework hands on code that failed its last test if and only if all R of its test runs failed |
| Outcomes.RunFailsTestsExactly | adk/agents/orchestrator.py:262-435 | in whole runs that reach their tester, the code handed over failed its last test if and only if a review rejected it and the last rework used up all R tries |
| Unheeded.AnsweringMeansSuccess | adk/agents/orchestrator.py:327-477 | once all agents answer, the files can be written and the first test does not fail, every run ends in success, whatever the reviews and later tests say |
| Unheeded.HandOverIsReached | adk/agents/orchestrator.py:425-477 | in any world alike up to the hand-over, whatever the tester's own test run shows and the agents answer after it, the tester is reached with the same results, files and waits, and only the later answers, and whether the last can be written, decide the end |
| Unheeded.SameAnswersSameRun | adk/agents/orchestrator.py:425-477 | for the same answers of the agents the whole run is the same, whatever the tester's own test run shows |
| Unheeded.SilentTesterFails | adk/agents/orchestrator.py:447-450 | every run that hands code over ends as a tester failure if the tester then never answers |
| Unheeded.SuccessWithoutApproval | adk/agents/orchestrator.py:370-477 | for every number of retries a run succeeds although every review rejected and all later tests failed |

## Left out

- HTTP, headers, authentication, logging, request IDs, the proxy and the wiring of the processes: input and output.
- JSON, Redis and etcd themselves: the commands used are modelled, decoding is taken to invert encoding, and undecodable stored values do not occur.
- Floating-point rounding and integer overflow: reals and unbounded integers; the square root is any function that gives nonnegative roots.
- The clean-up of a model's answer into JSON, and prompts: an answer is an arbitrary decoded value or a failure.
- Repeated delivery of one command by the Redis client library: a lost reply is modelled, its automatic repetition is not.
- Gateway.GatewaysKeepTheLimit: supposes fresh members and bounded drift among the client's calls, without which it does not hold.
- Gateway.FleetKeepsTheLimit: supposes the same, and so does Gateway.UndisturbedFleetKeepsTheLimit.
- Modes.AnswersAgree: requests are atomic and meet no faults; faults are in each method's contract and in FaultsOnlyHideAnswers, interleavings in Cluster and Local.
- Cluster.CacheIsStoreAtRevision: is about gateways that skipped no event; CacheIsStoreExactlyWhen covers every run.
- ControlPlane.GapHealsExactlyWhenRewritten: is about one gap; CacheIsStoreExactlyWhen covers any number.
- MetricKeys.CounterKeysDistinct: supposes methods without a colon, which HTTP methods are.
- The Prometheus text output and its splitting of keys, and the gauges beside the request counters.
- Path rewriting and directory creation of the file system beyond dropping empty and "." segments; a path that names a directory, and errors when writing.
- BlockParser.ParserInvertsRenderer: white space and letters are those of ASCII with the separators U+001C to U+001F; other Unicode spaces are not modelled, nor are other upper-case mappings in the search for a rejection.
- FinalTree.OnlyLastAttemptRemains: go.mod, go.sum and the saved specification are set aside, and the tests themselves write nothing.
- Pipeline.Pipeline.RunWithRetry: waits are counted in units of the base wait.
- Pipeline.Pipeline.Execute: exceptions of the git commands of the clean-up, and files left half written, are not modelled.
- Outcomes.RunFailsTestsExactly: a test run that could not be started counts as not failed, as the code treats it.
- Git branches, the stage and file lists kept for display, and the human approval switch, which only prints.
- The healer's failover action and the stub agents: calls into other systems.
