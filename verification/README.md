# Ads.txt analysis service: verified models

A Dafny model of the parts of the service in which many things happen at once or over time, with
proofs about all their runs: the two-tier rate limiter, the concurrent batch analysis, the ads.txt
parser, and the expiring cache under the analysis service. `dafny verify dfyconfig.toml` checks
everything.

## What is modelled

**Rate limiter** (`internal/ratelimit/limiter.go`). It is modelled twice. `RateLimit` has the objects
as the program has them, updated in place; each method is proved to compute the value-level step of
`Buckets` and `Limiters`. `Protocol` has the interleaved view: the locks are per bucket, so a call is
a sequence of small steps (charge the global bucket, look up, create a candidate, load or store, ask
the client's bucket, refund), and the steps of any number of calls interleave. `Schedules` ties the
two together, `Windows` shows when a window's bound needs the tokens held as it opens, and `Refusals`
says why a call is refused. One invariant, the *account* of a window in `Buckets`, carries the
whole-run conservation law and the sliding-window bounds, for a single bucket, for the global bucket
with its refunds racing refills, and for each client's bucket. `Eviction` settles when the sweep of idle
buckets can be noticed, `Limiters` how long `Wait` can take.

**Batch analysis** (`internal/domainAnalysis/analysis.go`). `Batch` is the state machine of one
request: workers, semaphore, wait group, result channel, closer, aggregator, response. The outcome of
each analysis is left free. `Aggregation` is the aggregator's loop, `Ranking` the sorted list it ends
with, `Tallies` and `Sums` the arithmetic below.

**Parser** (`internal/parser/adstxt.go`). `AdsTxtLine` and `DomainNames` state the two patterns as the
existence of a decomposition, and decide them by scanners. `AdsTxt` has the parsing loop, the counting
loop and a printer, which the program does not have and which is there to state the round trip.
Labels are those of section 2.3.1 of RFC 1035 with the leading digit that section 2.1 of RFC 1123
allows.

**Cache and analysis service** (`internal/cache/memory.go`,
`internal/cache/domainCache/domain_cache.go`, `internal/domainAnalysis/analysis.go`). `Cache` has the
timed map as an object beside its history of operations. `Analysis` has the cache-aside flow on the
heap: the cache hands out the stored object itself, and later hits mark it.

## What came out

- If a call read one time throughout, eviction could be noticed exactly when a client bucket can hold
  more than 30 minutes earn it. The sweep goes by the last refill, which the code calls the last
  activity: with a rate of zero an active bucket is deleted and comes back full.
- But the code reads the clock when it creates a bucket and again when it asks it. With these readings
  eviction is invisible under every global tier only if client buckets never grant anything, or earn a
  token every nanosecond and fill up while idle. At the service's own configuration, capacities equal to
  rates, with a global rate at least the per-IP rate (100 and 10 a second by default), a run in which the
  two readings are a nanosecond apart is answered differently: the new bucket's clock stays a nanosecond
  behind that of the kept one, so it is granted its next token a nanosecond earlier.
- The cache's clean-up reads the clock before it waits for the lock. That does no harm: a look-up can
  miss a live value only if some clean-up before it read a later time than the look-up does.
- A publisher field consisting of vertical tabs matches the line pattern, whose white space excludes
  that character, and is then trimmed to nothing. So an accepted entry can name no publisher; it does so
  exactly for such fields, and the round trip through print and parse holds exactly without them.
- Checking for comments decides nothing: no line starting with the comment sign could be accepted.
- A name may have 253 characters including its trailing dot: a name of 253 characters followed by a dot
  is refused. Section 2.3.4 of RFC 1035 counts the encoded name; the model follows the code.
- The bound on admissions in a window has to count calls already holding a global token when it opens. It
  is attained from every state, at once; without them it holds exactly for windows that open when the
  refilled bucket has room for the tokens held.
- The repository's README says the cache key is the normalised domain. The code uses `domain:` followed
  by the domain as requested, and so does the model.
- The mark that an analysis came from the cache sits on the shared object: a result returned earlier as
  not cached shows the mark after the next hit.

## Assumptions

- Time is an integer number of nanoseconds, and a refill's credit is the exact product of time and rate
  with the fraction dropped. The program multiplies 64-bit floating-point numbers. Its integers do not
  overflow in the model.
- Clock readings are arguments. Where a result needs them not to run back, it says so. Bounds are for
  capacities and rates of at least zero, and waiting for at least one; the objects and their methods
  make no such demand.
- Bucket and cache methods that hold their lock throughout are single steps. A sweep or clean-up pass is
  one step.
- Characters are ASCII, so letter case and trimming are those of ASCII, and a character is a byte.
- What `Fetch` returns, content or an error, is an argument.

## Model

| member | source | states |
|---|---|---|
| `Protocol.StepSound` | internal/ratelimit/limiter.go:78-94 | Every step of every interleaving keeps the state sound: all buckets in range, a candidate bucket stays its maker's own and pristine until published, a call asks only the published bucket of its client |
| `Protocol.StepGlobalAccount` | internal/ratelimit/limiter.go:78-94 | Every step keeps the global bucket's account for a window opened at any earlier state: tokens, tokens in the hands of unfinished calls and admissions since are covered by what the bucket held, tokens held at the opening and credit, with the capacity as the ceiling |
| `Protocol.StepClientAccount` | internal/ratelimit/limiter.go:78-94 | Every step keeps each client's account, whichever call the step belongs to; publishing a bucket opens it |
| `Protocol.Conservation` | internal/ratelimit/limiter.go:78-94 | In every reachable state of any number of interleaved calls, global tokens are within 0 and capacity; tokens + unresolved holders + admissions never exceed capacity + credit up to the last refill; so admissions never exceed capacity + rate times elapsed, rounded down |
| `Protocol.AdmissionWindow` | internal/ratelimit/limiter.go:78-94 | From any reachable state on, admissions and tokens then held number at most what the global bucket holds once refilled + the window's worth rounded up + the tokens held when the window opened; the last term is covered by the capacity whenever the bucket has room for the held tokens |
| `Windows.AdmissionWindowIsAttained` | internal/ratelimit/limiter.go:78-94 | From every reachable state with room for a token in both tiers, a run in no time admits exactly what the refilled bucket holds + the tokens held: the window bound is sharp everywhere |
| `Windows.PlainBoundIff` | internal/ratelimit/limiter.go:78-94 | For every reachable state: every window opening there admits at most capacity + the window's worth rounded up if and only if the refilled bucket has room for the tokens held, or clients have no capacity |
| `Windows.EverythingCanBeAdmitted` | internal/ratelimit/limiter.go:78-94 | The same from any sound state: newcomers take what is in stock, and each holder is admitted or its refund goes to the next newcomer, until nothing is left |
| `Windows.OnwardCounts` | internal/ratelimit/limiter.go:78-94 | With the bucket empty, a step of a call that holds a token keeps tokens in stock + held + admissions unchanged: a refund is never cut off then |
| `Schedules.HeldTokensCount` | internal/ratelimit/limiter.go:78-94 | An instance of the failing case of `Windows.PlainBoundIff`, spelled out: a reachable state holding one token from which two calls are admitted at the same instant with room for one |
| `Protocol.OneBucketPerClient` | internal/ratelimit/limiter.go:114-124 | Racing first requests share one bucket: whatever the interleaving, a call about to ask a client bucket asks the one in the table, and it is never replaced |
| `Refusals.LoadOrStoreLooks` | internal/ratelimit/limiter.go:119-123 | Publishing always leaves the caller about to ask its client's published bucket: its own candidate if it was first, the one already there if it lost the race; no other entry changes |
| `Refusals.LoadLooks` | internal/ratelimit/limiter.go:115-117 | Looking up finds the published bucket exactly if there is one |
| `Refusals.StepTurnsAwayIff` | internal/ratelimit/limiter.go:78-94 | A step of any interleaving turns a call away if and only if in it the call asks the global bucket, or its client's published bucket, and that has no token even once refilled |
| `Refusals.RefusedIffMetEmpty` | internal/ratelimit/limiter.go:78-94 | Over whole runs from a new limiter: a call is answered with a refusal if and only if at one of its steps it met such an empty bucket; losing a race, or anybody else's step, never refuses it |
| `Protocol.ClientConservation` | internal/ratelimit/limiter.go:114-124 | A client has no admissions before its bucket is published, and afterwards at most the per-IP capacity + credit since that bucket's creation, however many callers created candidates |
| `Protocol.ClientWindow` | internal/ratelimit/limiter.go:84-93 | In any window of any interleaved run a client is admitted at most the per-IP capacity + the window's worth rounded up |
| `Schedules.UndisturbedCallIsSequential` | internal/ratelimit/limiter.go:78-94 | Every run from a sound state in which a new call takes all its steps and no other call takes any ends in exactly the limiter and answer of the sequential call, with clock readings taken in order during the run; in every branch of the bucket look-up |
| `Schedules.SequentialCallIsRealised` | internal/ratelimit/limiter.go:78-94 | Conversely, for all clock readings in order there is such a run that ends as the sequential call with these readings |
| `Buckets.RangeKept` | internal/ratelimit/limiter.go:29-53 | Refilling, taking and returning keep the tokens between empty and full |
| `Buckets.ReturnUndoesTake` | internal/ratelimit/limiter.go:127-134 | Returning the token just taken leaves the bucket as the refill left it: the refund undoes the call exactly |
| `Buckets.ReturnMeans` | internal/ratelimit/limiter.go:131-133 | A full bucket stays as it is; otherwise exactly one token is added, and the clock stays |
| `Buckets.TakeMovesClock` | internal/ratelimit/limiter.go:44-53 | The refill clock never goes back nor past the present, and moves only when at least one whole token was earned |
| `Buckets.AccountTake` | internal/ratelimit/limiter.go:29-41 | The window account survives a call: a granted token adds one to what was spent, refills are covered by credit since the origin |
| `Buckets.AccountReturn` | internal/ratelimit/limiter.go:127-134 | The window account survives a refund, including one that is cut off at the capacity |
| `Buckets.AccountBounds` | internal/ratelimit/limiter.go:29-53 | What the account covers: spending in the window is at most what the bucket held once refilled at the opening + tokens held + the window's worth, rounded up, or rounded down when the bucket had just been refilled |
| `Buckets.SlidingWindow` | internal/ratelimit/limiter.go:29-53 | For every history of calls on a bucket and every window placed anywhere in it, the calls granted in the window number at most capacity + rate times length rounded up |
| `Buckets.SlidingWindowIsTight` | internal/ratelimit/limiter.go:29-53 | The rounding up cannot be dropped: one nanosecond can hold two grants of a bucket that holds one token |
| `Buckets.RefillsNeverOvershoot` | internal/ratelimit/limiter.go:44-53 | However a span is cut into refills, they earn at most what one refill over the span earns, and less than one token per earning refill below the exact worth of the time consumed; refills that earn nothing consume no time |
| `Buckets.RefillsWithoutCapping` | internal/ratelimit/limiter.go:50-51 | While the bucket does not fill up, its tokens grow by exactly those credits and its clock is theirs |
| `Buckets.RefillMeans` | internal/ratelimit/limiter.go:44-53 | By the whole tokens that time times rate is worth, in nanoseconds: none changes nothing; else they are added as far as there is room, filling the bucket if there is not, and the clock moves to the present |
| `Buckets.RefillNeedsAToken` | internal/ratelimit/limiter.go:45-49 | Time worth less than a token, or a clock that has run back, leaves the bucket as it is |
| `Credits.CreditIsFloor` | internal/ratelimit/limiter.go:48 | For a non-negative span and rate the integer conversion is the floor of the exact product |
| `Credits.CreditIff` | internal/ratelimit/limiter.go:46-48 | A number of tokens is the credit if and only if that many, and not one more, times 1,000,000,000 fit into nanoseconds times rate |
| `Credits.CreditBackwards` | internal/ratelimit/limiter.go:46-49 | For a clock that has run back the conversion rounds toward zero as well |
| `Credits.CeilingIsLeast` | internal/ratelimit/limiter.go:48 | The rounded-up worth in the window bounds is the least number of tokens worth at least the window |
| `Credits.CreditSplits` | internal/ratelimit/limiter.go:48 | Crediting two parts of a span apart gives at most the credit of the whole, and at most one token less |
| `Limiters.AllowKeeps` | internal/ratelimit/limiter.go:78-94 | A call is allowed exactly if both tiers grant; refused, it leaves the global bucket merely refilled; refused by the global tier, it touches no client bucket and makes none; otherwise its client's bucket is refilled and charged if allowed; other clients' buckets are untouched; all buckets stay in range |
| `Limiters.SweptMeans` | internal/ratelimit/limiter.go:142-152 | A sweep keeps a client bucket if and only if it was last refilled no more than 1,800,000,000,000 ns before, and keeps it unchanged |
| `Limiters.PollKeepsPrompt` | internal/ratelimit/limiter.go:97-111 | A refused poll preserves readiness in both tiers: it neither spends the token the other tier is waiting for nor restarts the earning of one |
| `Limiters.PromptGrants` | internal/ratelimit/limiter.go:44-53 | An empty bucket whose clock is not past the start grants by the first tick at which the ticks elapsed are worth a token |
| `Limiters.WaitIsPrompt` | internal/ratelimit/limiter.go:97-111 | An uncontested waiter is let through by the first tick at which both rates have had time to earn one token, for every starting content of the buckets and however late after its tick each poll reads the clock |
| `Limiters.WaitWithinTenPolls` | internal/ratelimit/limiter.go:97-111 | With capacities and rates of at least 1 and time for at least ten polls, the k-th no earlier than k times 100,000,000 ns after the start, waiting succeeds within 10 polls |
| `Limiters.TenPollsCanBeNeeded` | internal/ratelimit/limiter.go:97-111 | Ten is the least such number: a configuration whose first nine polls are all refused |
| `RateLimit.TokenBucket.constructor` | internal/ratelimit/limiter.go:19-26 | A new bucket's fields: capacity and rate as given, full, and the clock at the creation time |
| `RateLimit.TokenBucket.Refill` | internal/ratelimit/limiter.go:44-53 | Updating in place gives the specified refilled bucket |
| `RateLimit.TokenBucket.Allow` | internal/ratelimit/limiter.go:29-41 | Answer and new state are those of taking a token |
| `RateLimit.TokenBucket.Return` | internal/ratelimit/limiter.go:127-134 | New state is that of returning a token |
| `RateLimit.TwoTierRateLimiter.constructor` | internal/ratelimit/limiter.go:64-75 | A full global bucket with the global parameters, the per-IP parameters for later, and no client buckets |
| `RateLimit.TwoTierRateLimiter.GetOrCreateIPBucket` | internal/ratelimit/limiter.go:114-124 | The client's existing object is returned as it is; otherwise a fresh full one is stored; no object is ever shared by two clients or with the global tier |
| `RateLimit.TwoTierRateLimiter.AllowClient` | internal/ratelimit/limiter.go:85-86 | The client tier as a whole, creation on first sight included: only that client's bucket changes, and as taking a token from it prescribes |
| `RateLimit.TwoTierRateLimiter.Ask` | internal/ratelimit/limiter.go:86 | The bucket object published for the client serves the call; in the heap no other bucket changes |
| `RateLimit.TwoTierRateLimiter.Allow` | internal/ratelimit/limiter.go:78-94 | The heap after the call and the answer are exactly those of the value-level call the theorems are about |
| `RateLimit.TwoTierRateLimiter.Wait` | internal/ratelimit/limiter.go:97-111 | Returns at the first allowed poll, all earlier ones refused, or refused after all the polls the context leaves time for; the state is that of so many polls, each with its own clock readings |
| `RateLimit.TwoTierRateLimiter.CleanupIPBuckets` | internal/ratelimit/limiter.go:137-156 | In whatever order the buckets are visited, exactly those last refilled more than 1,800,000,000,000 ns ago are gone, and the rest are the same objects unchanged |
| `Eviction.StaleIsLikeNew` | internal/ratelimit/limiter.go:137-156 | A bucket due for deletion answers its next call, and is left by it, exactly as a new full one, provided the new one is asked at its creation reading or earns a token every nanosecond |
| `Eviction.TwinsStep` | internal/ratelimit/limiter.go:137-156 | Bisimulation: under that condition a limiter that evicts and one that never does give the same answer to each call, and stay related after each call or sweep |
| `Eviction.TwinsAnswerAlike` | internal/ratelimit/limiter.go:137-156 | Hence the same answers to every sequence of calls and sweeps whose calls meet the condition |
| `Eviction.EvictionShows` | internal/ratelimit/limiter.go:137-156 | If the capacity exceeds what 30 minutes and a nanosecond earn, some run of sweeps and calls, each reading one time, is answered differently |
| `Eviction.InvisibleAtOnceIff` | internal/ratelimit/limiter.go:137-156 | While all clock readings of a call agree, eviction is invisible to every run of calls and sweeps from a new limiter, under every global tier, if and only if the per-IP capacity is not positive or capacity times 1,000,000,000 is at most 1,800,000,000,001 times the rate |
| `Eviction.SecondReadingShowsEviction` | internal/ratelimit/limiter.go:114-124 | For every positive capacity that idle time does fill, at any rate below a token a nanosecond: under a large enough global tier, a run from a new limiter in which one bucket is created a nanosecond before it is asked is answered differently |
| `Eviction.SkewShows` | internal/ratelimit/limiter.go:114-124 | The run itself, from any new limiter whose global tier grants its calls: the answer to the last call differs |
| `Eviction.InvisibleIff` | internal/ratelimit/limiter.go:114-124 | With the separate readings the code takes, eviction is invisible to every run if and only if the capacity is not positive, or the rate is at least 1,000,000,000 a second and capacity times 1,000,000,000 at most 1,800,000,000,001 times the rate |
| `Eviction.EvictionAsConfigured` | main.go:76-81 | Over all global tiers: a per-IP capacity equal to the rate, like any up to 1800 times the rate, is safe while the readings of a call agree; with separate readings it is safe for all of them only at rates of zero or less, or a token a nanosecond and more |
| `Eviction.ConfiguredInvisibleIff` | main.go:76-81 | For the limiters the service builds, each capacity equal to its rate, unless the global rate is positive and below the per-IP rate: eviction is invisible to every run with separate readings if and only if one of the rates is not positive or the per-IP rate is at least a token a nanosecond |
| `Batch.StepSound` | internal/domainAnalysis/analysis.go:131-191 | Every step of workers, closer, aggregator and caller keeps: semaphore and wait group count what they should, every result sent is in the channel or absorbed exactly once, the channel is closed only after all workers finished, a response is that of all results |
| `Batch.SendNeverBlocks` | internal/domainAnalysis/analysis.go:131-180 | In every sound state a worker about to send finds room in the channel and the channel open |
| `Batch.Progresses` | internal/domainAnalysis/analysis.go:131-191 | No deadlock: with room for one analysis, every sound state that has not returned has an enabled step |
| `Batch.StepCounts` | internal/domainAnalysis/analysis.go:142-191 | Every step lowers the measure over worker stages, buffered results and closing by exactly one |
| `Batch.EveryRunReturns` | internal/domainAnalysis/analysis.go:131-191 | With a concurrency limit of at least 1, a run cannot continue exactly when it has returned, and that is after exactly 7 steps a domain and 4 more, for every schedule and all worker outcomes |
| `Batch.ReturnsIff` | internal/domainAnalysis/analysis.go:138-150 | A non-empty request can return if and only if the concurrency limit is at least 1 |
| `Batch.ConcurrencyIsBounded` | internal/domainAnalysis/analysis.go:138-157 | At every moment of every run at most the allowed number of workers are inside the analysis |
| `Batch.ReturnedIsOver` | internal/domainAnalysis/analysis.go:184-191 | Once the request has returned every worker is done and no step is left |
| `Batch.ResponseIsScheduleFree` | internal/domainAnalysis/analysis.go:131-202 | Results hold exactly one result per requested occurrence, duplicates included; summary, ranking and total equal those of aggregating the workers' results in request order, whatever the schedule |
| `Batch.ResponseConserves` | internal/domainAnalysis/analysis.go:131-202 | Succeeded + failed = total = number of requested domains, and succeeded is the number of results that did; the response lists exactly the advertisers some successful result mentions, most frequent first and then by name, each with the sum of its counts over the successful results; the total is the sum of all counts listed, and of the results' own totals when those are consistent |
| `Aggregation.AggregateResults` | internal/domainAnalysis/analysis.go:240-291 | The receiving loop with its map updates computes the fold of the arrivals, ranked |
| `Aggregation.MergeMeans` | internal/domainAnalysis/analysis.go:256-258 | Merging a result adds to each advertiser's count the sum of its items there, lists exactly the advertisers listed before or mentioned, and adds the sum of all items to the total |
| `Aggregation.AbsorbAllMeans` | internal/domainAnalysis/analysis.go:247-262 | After any arrivals: each count is that advertiser's sum over the successful results, an advertiser is listed exactly if a successful result mentions it, and the summary counts both kinds |
| `Aggregation.SummaryCounts` | internal/domainAnalysis/analysis.go:252-261 | Succeeded is the number of arrivals that did, failed that of the others |
| `Aggregation.RankingAdds` | internal/domainAnalysis/analysis.go:264-281 | The ranked list of any arrivals holds each mentioned advertiser once, in order, with its summed count, and nothing else |
| `Aggregation.ArrivalOrderIsIrrelevant` | internal/domainAnalysis/analysis.go:247-290 | For every two orders of the same arrivals, summary, advertiser list and total are identical and the results a permutation |
| `Aggregation.BatchConserves` | internal/domainAnalysis/analysis.go:240-290 | Successes and failures make up the arrivals, and the total is both the sum of the results' own totals and of the counts listed |
| `Aggregation.EmptyBatch` | internal/domainAnalysis/analysis.go:120-128 | The early answer to an empty request is what the aggregator would have answered |
| `Ranking.LessTransitive` | internal/domainAnalysis/analysis.go:224 | Comparing names byte by byte is transitive |
| `Ranking.LessTotal` | internal/domainAnalysis/analysis.go:224 | Of two names exactly one comes first, or they are equal |
| `Ranking.BeforeTransitive` | internal/domainAnalysis/analysis.go:222-227 | The comparison by count descending then name is transitive |
| `Ranking.BeforeTotal` | internal/domainAnalysis/analysis.go:222-227 | Of two items exactly one comes first, or they are equal: the strict order a sort needs |
| `Ranking.LessMeans` | internal/domainAnalysis/analysis.go:224 | One name comes before another if and only if it has the smaller character where they first differ, or is a proper prefix |
| `Ranking.SortedUnique` | internal/domainAnalysis/analysis.go:276-281 | Two lists of the same items that are each in order are the same list: no sort, stable or not, can give another result |
| `Ranking.SortedListingRanks` | internal/domainAnalysis/analysis.go:265-281 | Sorting any listing of a map, whatever the order it was walked in, gives a strictly ordered list with one item per name and its count |
| `Ranking.RankingOrder` | internal/domainAnalysis/analysis.go:222-227 | In a ranking every item has a larger count than the items after it, or the same count and a name that comes first in that sense |
| `Ranking.RankingUnique` | internal/domainAnalysis/analysis.go:222-227 | A map of counts has exactly one ranking |
| `Ranking.ListingTotals` | internal/domainAnalysis/analysis.go:213-219 | The counts of a listing add up to the map's total |
| `Ranking.SortSorts` | internal/domainAnalysis/analysis.go:276-281 | The sort standing in for the library's returns the same items in order |
| `Ranking.Rank` | internal/domainAnalysis/analysis.go:211-227 | Walking the map in an arbitrary order and sorting returns its one ranking, most frequent first and equal counts by name, and the sum of its counts |
| `Tallies.TotalAdd` | internal/domainAnalysis/analysis.go:256-258 | Raising one count, present or not, raises the total by as much |
| `Analysis.BuiltMeans` | internal/domainAnalysis/analysis.go:206-236 | The report names the domain asked for; lists each advertiser of the entries once with the number of its entries, most frequent first and then by name; and its total is the number of entries and the sum of the counts |
| `Analysis.Service.BuildAnalysis` | internal/domainAnalysis/analysis.go:206-236 | A fresh unmarked object for the domain asked for, holding that report |
| `Analysis.Service.AnalyzeDomain` | internal/domainAnalysis/analysis.go:44-109 | Hit or miss, the analysis returned names the domain asked for. A hit returns the very object found, built for this domain from a parsed fetch no longer than the time to live ago, and marks it; a failed fetch or parse stores nothing; otherwise a fresh unmarked object is stored under the key. Every analysis ever built still says what its text said; its mark is set afterwards exactly if it was before or the look-up found it |
| `Analysis.Service.AnalyzeTwice` | internal/domainAnalysis/analysis.go:47-56 | A second request while the first one's analysis lives returns the same object, which the first caller got unmarked and now sees marked |
| `Analysis.Service.AnalyzeHit` | internal/domainAnalysis/analysis.go:48-56 | Marking the shared object changes no other object, no content and not the cache |
| `Analysis.Service.AnalyzeMiss` | internal/domainAnalysis/analysis.go:63-108 | Failure leaves cache and objects alone; success adds one entry for a fresh object |
| `Analysis.Service.BuildAndStore` | internal/domainAnalysis/analysis.go:91-108 | One fresh unmarked object is built and stored; every earlier object and its mark is as before |
| `Analysis.Service.Store` | internal/domainAnalysis/analysis.go:94-95 | Storing keeps: every analysis says what its text says, and everything cached under a key was built for that key's domain and expires the time to live after it was stored |
| `Analysis.Service.AnalyzeForBatch` | internal/domainAnalysis/analysis.go:156-177 | The worker's result, field by field: the domain asked for and, on a hit, the cached object's total and list, marked cached; on a miss the report on the entries read, not marked; else the full error message. It is always consistent, as batch conservation needs |
| `Analysis.FaithfulIsConsistent` | internal/domainAnalysis/analysis.go:206-236 | Any analysis that says what its text said has a total equal to the sum of its counts |
| `Analysis.FaithfulReports` | internal/domainAnalysis/analysis.go:71-92 | Every analysis ever built reports, in that sense, the entries of the text it was built from |
| `Analysis.FetchAndParse` | internal/domainAnalysis/analysis.go:63-84 | Succeeds exactly if content was fetched and some trimmed line of it matches the pattern with a valid domain, with entries that are all in order; otherwise the error is the full message: domain, stage that failed and cause |
| `Analysis.ReadMeans` | internal/domainAnalysis/analysis.go:63-84 | The same of the specification, where the entries are those of the text's lines in order and at least one |
| `Analysis.KeyInjective` | internal/cache/domainCache/domain_cache.go:29 | Different domains have different keys |
| `Analysis.FoundIsFresh` | internal/cache/domainCache/domain_cache.go:28-53 | Whatever a look-up finds for a domain was built for that domain no longer than the time to live ago |
| `Analysis.StoringKeepsCachedOk` | internal/cache/domainCache/domain_cache.go:56-66 | Storing an analysis keeps every cached entry's provenance and expiry |
| `Analysis.RemovingKeepsCachedOk` | internal/cache/memory.go:78-102 | Deletions and clean-up passes keep it too |
| `Analysis.Service.CleanUp` | internal/cache/memory.go:87-102 | A clean-up pass between requests keeps the service valid and every record of what was built |
| `Analysis.Service.Forget` | internal/cache/domainCache/domain_cache.go:69-72 | So does a deletion between requests, which removes exactly the domain's entry |
| `Analysis.DomainCache.Get` | internal/cache/domainCache/domain_cache.go:28-53 | Finds what the cache holds alive under the prefixed key, the object itself |
| `Analysis.DomainCache.Set` | internal/cache/domainCache/domain_cache.go:56-66 | Stores under the prefixed key for the time given, or the default for zero; refused unless that is positive |
| `Analysis.DomainCache.Delete` | internal/cache/domainCache/domain_cache.go:69-72 | Removes exactly the entry under the prefixed key |
| `Cache.CacheRefinesHistory` | internal/cache/memory.go:42-102 | A look-up that reads the clock after all clean-ups before it have done so finds exactly the value last set successfully and not deleted since, up to and including its expiry; sets and clean-ups may have read the clock in any order |
| `Cache.CacheRefinesHistoryIff` | internal/cache/memory.go:42-102 | With no condition on clock readings: a look-up agrees with the history if and only if no clean-up since the last set of the key read a clock past an expiry still to come; otherwise it misses |
| `Cache.CleanupIsInvisibleIff` | internal/cache/memory.go:87-102 | Leaving out all clean-up passes changes a look-up if and only if one of them was early in that sense; so never for look-ups that read the clock last |
| `Cache.CleanupShowsIfTimeRunsBack` | internal/cache/memory.go:87-102 | A concrete history in which an early clean-up loses a value still alive |
| `Cache.MemoryCache.Get` | internal/cache/memory.go:42-58 | Returns what the map holds alive; that is what the history says if and only if no clean-up was early |
| `Cache.MemoryCache.Set` | internal/cache/memory.go:61-75 | Succeeds exactly for a positive time to live; otherwise nothing changes |
| `Cache.MemoryCache.Delete` | internal/cache/memory.go:78-84 | Removes exactly that key |
| `Cache.MemoryCache.CleanupExpired` | internal/cache/memory.go:87-102 | In whatever order keys are visited, no expired entry is left and no look-up from now on is answered differently |
| `Cache.MemoryCache.Size` | internal/cache/memory.go:105-109 | At no time do more keys answer a look-up than it says, and exactly that many do when nothing held has expired, as after a clean-up at that time |
| `AdsTxtLine.ScanDecidesMatch` | internal/parser/adstxt.go:27 | The left-to-right scanner returns given captures exactly if the line is spelled from them as the pattern says: words free of commas and of the five white space characters by number, one of four account types, commas and runs of white space between |
| `AdsTxtLine.LineIsUnambiguous` | internal/parser/adstxt.go:27 | No line has two decompositions with different captures |
| `AdsTxtLine.MatchScans` | internal/parser/adstxt.go:71-75 | Every decomposition is found by the scanner |
| `AdsTxtLine.ScanMatches` | internal/parser/adstxt.go:71-75 | Everything the scanner accepts is a decomposition |
| `DomainNames.ScanDecidesPattern` | internal/parser/adstxt.go:122-123 | The single-pass scanner with a label-length counter accepts exactly what the pattern matches: labels of 1 to 63 characters joined by dots |
| `DomainNames.ValidDomainIff` | internal/parser/adstxt.go:108-124 | Valid exactly if at most 253 characters, a trailing dot included, and two or more labels joined by dots with at most one dot at the end; a label has 1 to 63 ASCII letters, digits and inner hyphens |
| `DomainNames.ValidityIgnoresCase` | internal/parser/adstxt.go:77-91 | Lowering a name before checking it does not change whether it is valid |
| `DomainNames.NameIsUnambiguous` | internal/parser/adstxt.go:108-124 | A name determines its labels |
| `Text.SplitAround` | internal/parser/adstxt.go:41 | Splitting text around a separator splits the two sides on their own |
| `Text.SplitJoin` | internal/parser/adstxt.go:41 | Joining separator-free pieces and splitting returns them |
| `Text.JoinSplit` | internal/parser/adstxt.go:41 | Splitting and joining returns the text |
| `Text.SplitIff` | internal/parser/adstxt.go:41 | Splitting gives pieces if and only if they are free of the separator and joined by it give the text |
| `Text.TrimSpaceMeans` | internal/parser/adstxt.go:44 | Trimming cuts only white space, and leaves none at either end |
| `Text.TrimSpacePositions` | internal/parser/adstxt.go:44 | What is left is a middle piece that neither starts nor ends with one of the characters 9 to 13 and 32, and only those are cut off |
| `Text.WhiteSpaceIff` | internal/parser/adstxt.go:27 | The pattern's white space is that of trimming without character 11, the vertical tab |
| `Text.ToLowerMeans` | internal/parser/adstxt.go:78 | Lowering moves capitals by 32, keeps every other character, and leaves no capital; it changes nothing exactly if there is none |
| `AdsTxt.Parse` | internal/parser/adstxt.go:35-68 | The loop returns the collected entries of the lines, or the error for empty content or for no valid entry |
| `AdsTxt.ParsedOkIff` | internal/parser/adstxt.go:35-68 | Parsing succeeds if and only if some line, trimmed, matches the pattern with a valid domain; the empty-content error is for empty content only |
| `AdsTxt.ReadLine` | internal/parser/adstxt.go:43-60 | Contributes an entry exactly if the trimmed line matches the pattern with a valid domain, then one that says what the captured fields say; so skipping blank lines and comments skips only lines that would not count |
| `AdsTxt.FittingIsNoComment` | internal/parser/adstxt.go:46-48 | No line that matches with a valid domain is blank or starts with the comment sign |
| `AdsTxt.ParsingIsLinewise` | internal/parser/adstxt.go:41-61 | The entries of two texts joined by a newline are those of the first followed by those of the second |
| `AdsTxt.EmptyLinesDoNotMatter` | internal/parser/adstxt.go:46-56 | Text whose lines give no entries can be inserted before, between or after other text without changing the result; next to empty text the result is the no-valid-entries error |
| `AdsTxt.ParsedLineOk` | internal/parser/adstxt.go:71-94 | Every parsed entry has a valid domain without capitals, one of two account types and comma-free, space-free fields |
| `AdsTxt.ParsedLineSays` | internal/parser/adstxt.go:71-94 | A line with given captures is accepted exactly if its trimmed domain is valid in whatever letter case, and the entry then holds that domain with each capital moved to lower case, the trimmed publisher and certification field, and DIRECT or RESELLER as spelled |
| `AdsTxt.UnmatchedIsInvalidLine` | internal/parser/adstxt.go:72-75 | A line that cannot be spelled as the pattern says gives the invalid-line error |
| `AdsTxt.ParsedEntriesOk` | internal/parser/adstxt.go:35-68 | So has every entry of every content |
| `AdsTxt.AccountNormalised` | internal/parser/adstxt.go:80 | Any of the four spellings has nothing to trim and becomes DIRECT or RESELLER |
| `AdsTxt.RoundTripIff` | internal/parser/adstxt.go:35-94 | Parsing the printed form of a list returns the list if and only if every entry has a valid domain without capitals, a valid account type, comma-free and space-free fields without white space at their ends, and a non-empty publisher |
| `AdsTxt.ReparseIff` | internal/parser/adstxt.go:35-94 | Printing what was parsed and parsing again changes nothing if and only if no line of the content matches with a valid domain and a publisher field of vertical tabs only |
| `AdsTxt.PublisherVanishesIff` | internal/parser/adstxt.go:71-94 | An accepted line names no publisher if and only if its publisher field is vertical tabs throughout: the one character the pattern keeps and trimming removes |
| `AdsTxt.PublisherVanishes` | internal/parser/adstxt.go:79 | Printing an entry whose publisher is vertical tabs only and parsing it back loses the publisher, for every otherwise valid entry |
| `AdsTxt.PublisherCanVanish` | internal/parser/adstxt.go:79 | A concrete such line, accepted with an empty publisher |
| `AdsTxt.CountAdvertisers` | internal/parser/adstxt.go:97-105 | The loop computes the specified counts |
| `AdsTxt.CountsMeans` | internal/parser/adstxt.go:97-105 | Each domain is counted as often as it occurs, and only those that occur are listed |
| `AdsTxt.CountsAreOccurrences` | internal/parser/adstxt.go:97-105 | A domain's count is the number of positions at which an entry has it as its exchange domain |
| `AdsTxt.CountsTotal` | internal/parser/adstxt.go:97-105 | The counts add up to the number of entries |
| `AdsTxt.CountsConcat` | internal/parser/adstxt.go:97-105 | Counts of two lists put together are the pointwise sums |
| `AdsTxt.CountsAddUp` | internal/parser/adstxt.go:97-105 | Counting joined content gives the pointwise sum of the two counts |

## Left out

- Eviction.ConfiguredInvisibleIff: leaves open global rates that are positive and below the per-IP rate; how much such a tier hides depends on both rates.
- RateLimit.TwoTierRateLimiter.CleanupIPBuckets: one pass is atomic between calls; a sweep deleting a bucket that a call already loaded is not modelled, and the per-IP bound does not survive it. The ticker is left out.
- RateLimit.TwoTierRateLimiter.Wait: the context, and the random choice when it is done and a tick is due, show only as the number of polls made before giving up.
- Protocol.OneBucketPerClient: runs contain no sweeps; so do those of the two per-client bounds.
- Schedules.UndisturbedCallIsSequential: is about runs in which one call takes all the steps; interleaved calls are covered by the bounds, not by an equivalence with some sequential order.
- Credits.CreditIsFloor: rounding of floating-point multiplication and overflow of 64-bit integers are not modelled.
- AdsTxtLine.ScanDecidesMatch: the regular-expression engine is not modelled; the pattern is stated as a decomposition. Non-ASCII letters and white space are left out.
- Ranking.SortSorts: the library sort works in place on a slice; here an insertion sort on values stands for it, and uniqueness shows that any sort gives the same list.
- Batch.EveryRunReturns: a deadline of a worker's context shows only as a failed analysis, and each analysis is one step that ends; the early answer to an empty request is covered by Aggregation.EmptyBatch; a negative concurrency limit, on which the program panics, is left out.
- Batch.ResponseConserves: the sum of the results' own totals is for consistent results; Analysis.Service.AnalyzeForBatch proves each to be so, for analyses that do not overlap in time. Concurrent access to the shared mark by workers on the same domain is not modelled.
- Analysis.DomainCache.Get: only the in-memory branch, which hands back the stored pointer; values stored by copy and JSON strings from Redis are left out.
- Time stamps in results and analyses.
- HTTP handlers, middleware, router, fetcher, Redis cache, logger, database, configuration loading and mocks: plumbing and library behaviour.
