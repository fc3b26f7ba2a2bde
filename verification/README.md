# A model of the query gateway

The gateway sits in front of several InfluxDB targets. A Flux query whose range ends at "now" is
cut at a cutoff into an old segment, which is kept in Redis under an anti-stampede lock, and a
live tail, which is forwarded; the two CSV answers are merged. Forwards go through a weighted,
circuit-broken, retrying balancer. This project models that path, from the text of the query to
the rows of the answer, and proves what it promises.

How the pieces fit:

| file | what it models |
|---|---|
| `Text`, `Rfc3339`, `Wire` | Go's string and time formats as far as the gateway uses them; what a target answers |
| `Patterns`, `RangeCall` | the regular expressions of the rewrite, as texts of a pattern and as a matcher, shown equal |
| `StampTexts`, `CallTexts` | which texts are read as instants, and how range calls and times may be written, word by word |
| `FluxSplit`, `SplitLaws` | the rewrite of a query into a cached and a live query, and its laws |
| `CsvMerge`, `MergeLaws` | parsing and merging CSV bodies, and the laws of merging |
| `CacheKey`, `CacheFill` | the Redis key space; the cache-fill protocol as a step system: any number of requests, one store for values and locks, a clock, lost and refused Redis writes, evictions |
| `CacheSafety`, `CacheHits`, `CacheRuns`, `CacheWaits`, `CacheLimits` | what holds in every run of the protocol, where hits come from, how long entries live and requests wait, and runs that show where a promise ends |
| `FetchOrCache` | `fetchOrCache` and the calls it makes, as methods on a shared world, forwarding through the retry loop on the shared manager; each call is a stretch of a run of the step system |
| `Modular`, `Upstream`, `Manager` | breaker and weighted round robin, as functions and as the stateful object |
| `Retry`, `RetryLaws` | the retry loop over the manager, with other goroutines using the manager meanwhile |
| `Meaning`, `EndToEnd`, `HandleQuery`, `Overshoot` | what queries mean, the composition of all of the above, `handleQuery` itself, and how far back an answer can reach |
| `Example` | two small worlds that meet every assumption of the end-to-end theorems, with a hit and a row in excess |

Conventions. Instants are nanoseconds since year 1, unbounded integers; the `uint64` pick counter
and the clamping of `time.Time.Sub` are written out. The hash is any function with colon-free
digests of fixed length; where it matters that two texts do not collide, that is a hypothesis
about those texts. What a target answers, what other goroutines and requests do, random draws and
the outcome of every Redis call are parameters that the theorems quantify over.

Where the code and its own documents differ, the code is modelled:

- `docs/query-rewrite-and-merge.md` says that only `stop: now()` is split. The code also splits
  `v.timeRangeStop` and absolute stops.
- `README.md` says to expect at most one `MISS` per key and refresh window. Without any expired
  lock a second one is possible (`CacheLimits.TwoMissesInOneLife`), and it is excluded in all runs
  exactly when no lock is ever granted (`CacheLimits.OneMissIffLocksRefused`). Such a second one has
  read the key before the entry was stored (`CacheRuns.SecondMissReadBeforeSet`).

Findings, each stated as a lemma:

- Mutual exclusion of the fill section holds in every timing exactly when locks never expire; once
  a holder outlives its lock, two holders overlap and the late release deletes a foreign lock.
- The key does not cover `Accept`, so a hit can have the wrong format. Every hit has the right one
  exactly when clients use at most one choice of cacheable headers for a text.
- Merging drops repeated lines: the answer has one row per printed point exactly when no two points
  print the same line.
- A relative or absolute range overshoots at the front. The overshoot is stated exactly. A variable
  stop before the cutoff overshoots at the end (`Meaning.FixedStart`). InfluxDB refuses empty ranges,
  so for a relative range that starts after the cutoff, and for such a stop, it will answer one of
  the segments with an error, which the gateway passes on; the theorems do not depend on it.
- A printed table reads back as it was exactly when its outer edges are not white space. CRLF line
  ends violate that.
- `count()` does not survive the split unless there is nothing to count.
- The round robin is fair across the wrap of its counter only if the total weight divides 2^64.

## Model

| member | source | states |
|---|---|---|
| HandleQuery.GatewayAnswersRelative | internal/gateway/server.go:158-236 | for a row-wise query over the last d up to now() that is answered by merging: the cached segment comes from a forward f of the run for this question, on this or an earlier request; if nothing older than the cutoff was written between f and the live evaluation e, the answer is exactly the rows of [f.at - d, e) (from the cutoff if that is earlier), no row of the unsplit answer is lost and the excess is exactly the rows before e - d; it spans less than the freshness window when both evaluations lie in the window of the cutoff |
| HandleQuery.GatewayAnswersAbsolute | internal/gateway/server.go:158-236 | for an absolute range answered by merging, under the same condition: exactly the rows of [cutoff - length, stop), whoever filled the cache; the unsplit answer plus the rows before its start, an overshoot of stop - cutoff, shorter than the window when the stop is not in the future |
| HandleQuery.HandleQuery | internal/gateway/server.go:102-237 | every response of the handler by case: the fetch is a call in a run of the protocol and forwards, if it does, through the retry loop on the manager as it was; the live body goes through the retry loop on the manager the fetch left; the payload is a merge of the two; the manager ends up as these loops leave it, and where Redis works a 502 means that one of them came to nothing |
| HandleQuery.Join | internal/gateway/server.go:209-236 | the live request goes through the retry loop; a payload is joined only from two 2xx segments, otherwise the failing status is passed on |
| HandleQuery.GatewayAvailable | internal/gateway/server.go:196-215 | where Redis works, with an attempt for every name and one target that always answers below 500, the gateway never answers 502, whatever the breakers say |
| HandleQuery.LiveGiven | internal/gateway/server.go:209-209 | a 2xx outcome of the retry loop is an answer of the targets to the live request, at the instant of the deciding attempt |
| HandleQuery.JoinedIsMerged | internal/gateway/server.go:196-224 | a joined response comes from a split query, a 2xx cached segment fetched under the rewritten body and a 2xx live segment, each an answer to its own query, the live one not evaluated before the cached one was served |
| HandleQuery.ResponseParts | internal/gateway/server.go:102-237 | what every response goes back to: a request is split if and only if the rewrite splits its query and Accept is empty or holds "csv" in any mix of cases; 400 only for a missing organisation or a body that cannot be built; an answer in one piece is the result fetched for the body as it came; a failed segment is a non-2xx result of one of the two; a joined answer has segments of status 200 to 299 |
| Overshoot.ExcessBounded | internal/gateway/server.go:158-196 | where requests for a cached segment are those the gateway produces, the segment is not evaluated before its cutoff, and the rows in excess of a relative range span less than the freshness window plus the time since the cutoff was chosen, whenever the segments are evaluated |
| Overshoot.EvaluatedAfterCutoff | internal/gateway/server.go:158-196 | no forward in any run for a body that spells a cutoff, produced by the gateway only, is evaluated before that cutoff |
| SplitLaws.CachedSpellsCutoff | internal/flux/split.go:21-61 | the cutoff can be read back from the cached query of any form, for a query with one range call |
| Example.AssumptionsMet | internal/gateway/server.go:158-236 | a request served from an entry that another one stored an instant before, and a live forward after it, meet every assumption of both end-to-end theorems |
| Example.RelativeApplies | internal/gateway/server.go:158-236 | the relative theorem applied to the documented one-hour query: the response to a hit, whose cached segment comes from a logged forward one instant before the live one, holds three rows, one of them in excess of the unsplit answer |
| Example.AbsoluteApplies | internal/gateway/server.go:158-236 | the absolute theorem applied: the response to a hit holds three rows, one of them in the overshoot |
| Example.SplitOfLastHour | docs/query-rewrite-and-merge.md:8-18 | the documented rewrite of `range(start: -1h, stop: now())` |
| Example.SplitToBareStop | internal/flux/split.go:33-48 | `range(start: -1h, stop: 2024-06-01T12:00:00Z)` and the like, for every bare timestamp: split if and only if the stop lies after the cutoff, and the cached query keeps `start: -1h` |
| EndToEnd.PayloadSource | internal/gateway/server.go:282-327 | whatever its cache status, a 2xx payload served to a request is that of a logged 2xx forward for the same organisation, body and headers, not later than now |
| EndToEnd.MergedIsCompared | internal/gateway/server.go:196-224 | the cached payload of a merged answer was given by the targets to this very cached query at the time of a forward in the run, and the answers compare if nothing before the cutoff changed since that forward |
| EndToEnd.RelativeEndToEnd | internal/gateway/server.go:196-224 | the rows of a merged relative range, over every interleaving of cache fills, against the unsplit query at the same instant, if nothing before the cutoff changed since the forward that was served |
| EndToEnd.MovingEndToEnd | internal/gateway/server.go:196-224 | the rows of a merged range of any form whose start is sent as it is, so for v.timeRangeStop and for an absolute stop with a start as -1h, over every interleaving of cache fills: nothing lost, exact excess at both ends |
| EndToEnd.AbsoluteEndToEnd | internal/gateway/server.go:196-224 | the rows of a merged absolute range, over every interleaving of cache fills, against the unsplit query at the same instant, if nothing before the cutoff changed since the forward that was served |
| EndToEnd.SharedKey | internal/gateway/server.go:192-196 | two absolute ranges in the same surrounding text, in bodies of any kind that keep different texts apart, look up the same cache key if and only if organisation, cutoff and length agree |
| Meaning.SplitUnion | internal/flux/split.go:21-57 | whatever the pipeline prints, the merged answer is what it prints for the cached range at e0 and for the live range at e |
| Meaning.SplitAnswer | internal/flux/split.go:21-57 | for a row-wise pipeline the merged answer is the rows, as of now, of one stretch of time, with its exact ends in every position of start, cutoff and stop |
| Meaning.SegmentsJoin | internal/flux/merge.go:26-45 | rows of adjacent ranges, the older read at an earlier instant, are the rows of the joined range if nothing before the cutoff changed |
| Meaning.DirectAnswer | internal/gateway/server.go:161-178 | what the unsplit query answers: what the pipeline prints between its own bounds |
| Meaning.RelativeRange | internal/flux/split.go:21-25 | merged against unsplit for the last d up to now(): nothing lost, exact excess |
| Meaning.RelativeRangeInWindow | internal/flux/utils.go:52-58 | with both evaluations in the window of the cutoff the answer is the rows of [e0 - d, e), and the excess is shorter than the window |
| Meaning.FixedStart | internal/flux/split.go:21-48 | a start that does not move and is sent as it is, that is, any but an instant before an absolute stop: the answer is exact when the cutoff lies in the range; otherwise the exact rows in excess |
| Meaning.MovingStart | internal/flux/split.go:21-48 | a start that is sent as it is and may move, under any form of stop: the rows from the start as the cached segment saw it, or the cutoff, to the stop, or the cutoff; no row of the unsplit answer is lost, and the excess is exact at both ends |
| Meaning.AbsoluteAnswer | internal/flux/split.go:33-48 | merged against unsplit for an absolute range: superset with exact overshoot stop - cutoff |
| Meaning.CountIsBroken | internal/flux/merge.go:14-46 | the merged answer of a count, with the cached segment evaluated at any earlier instant, is the count over the whole range if and only if there are no points in it |
| Meaning.MultiplicitySurvives | internal/flux/merge.go:26-34 | the merged answer has at most one row per printed point, and exactly one if and only if no two points of the range print the same line |
| Meaning.CachedCall | internal/flux/split.go:53-57 | the range text of the cached query is read as a call from the chosen start to the cutoff |
| Meaning.LiveCall | internal/flux/split.go:53-57 | the range text of the live query is read as a call from the cutoff to the original stop |
| Meaning.SentQueries | internal/flux/split.go:21-51 | the two queries sent are the original text with its range call, and nothing else, replaced |
| CacheSafety.InvKept | internal/gateway/server.go:270-328 | every step keeps: stored values are 2xx payloads forwarded for their key, results are hits on those or a request's own answer, the log tells the truth |
| CacheSafety.InvReached | internal/gateway/server.go:270-328 | the same after every run, whatever the interleaving, faults and evictions |
| CacheHits.CacheSoundness | internal/gateway/server.go:282-327 | a payload served as HIT or HIT_WAIT is read at a step of the run by which another request's forward for the same organisation and body was finished, 2xx and with this payload; any other payload is the request's own answer |
| CacheHits.HitTraced | internal/gateway/server.go:282-327 | every hit reads an entry stored by an earlier SET of another request for a cacheable format, whose own forward was 2xx with this payload for this key; the entry is younger than max(1 s, time to live + jitter) |
| CacheHits.TtlAtMost | internal/cache/service.go:99-111 | every jittered time to live is at most the longest one, and positive if that is |
| CacheWaits.TtlValues | internal/cache/service.go:99-111 | the times to live a SET can draw are exactly: the configured one without jitter; with it, every value within the jitter of the configured one, none below one second |
| CacheWaits.EntryLives | internal/cache/service.go:57-62 | after a SET that reaches the store the key stays readable for the shortest time to live, for ever if that is not positive, unless it is evicted; no other SET, lock or release takes it away |
| CacheWaits.FreshEntrySparesUpstream | internal/gateway/server.go:284-288 | a request whose first Get comes after such a SET for its key and within the shortest time to live is a HIT and never forwards |
| CacheWaits.WakesSoon | internal/cache/service.go:77-92 | whenever a request waits, in every run, its next loop test is due in 30 ms at most |
| CacheWaits.WaiterServed | internal/cache/service.go:77-92 | a waiter whose entry is readable 30 ms from now, with a later deadline, is served it as HIT_WAIT within 30 ms and two steps of its own, with no forward |
| CacheWaits.WaiterGivesUp | internal/cache/service.go:77-92 | a waiter whose deadline has passed goes on to forward within 30 ms |
| CacheHits.FailureInvisible | internal/gateway/server.go:319-325 | every forward, in the whole run, of the writer of an entry that a hit reads is a 2xx answer with the payload that was read: a failed or non-2xx forward is visible to nobody else |
| CacheHits.EveryoneForwardsOnce | internal/gateway/server.go:270-328 | no request forwards twice in a run |
| CacheHits.EveryValueStored | internal/gateway/server.go:321-323 | every value in the store was put there by a SET of a request that held a 2xx answer with this payload |
| CacheHits.FormatAgrees | internal/gateway/server.go:280-287 | if all cacheable requests for a text carry the same headers, a hit was forwarded with the headers of the request it is served to |
| CacheSafety.MutualExclusion | internal/cache/service.go:64-75 | in every run whose holders stay within the lock's time to live, at most one request per key is in the section, and it holds the lock |
| CacheSafety.ReleaseIsOwn | internal/cache/service.go:73-75 | in such a run a DEL removes the lock of the request that issues it |
| CacheRuns.LocksAlwaysOwned | internal/gateway/server.go:293-317 | with no hypothesis about time, every lock in the store belongs to a request still in its section |
| CacheRuns.NoLockLeft | internal/gateway/server.go:315-317 | when all requests have finished, in success, error or a non-2xx answer, no lock is left |
| CacheRuns.LiveEntrySparesUpstream | internal/gateway/server.go:284-288 | a request whose first Get falls inside the life of an entry is served that entry and never forwards in the whole run |
| CacheRuns.DoneStays | internal/gateway/server.go:284-288 | a finished request keeps its result and causes no further forward |
| CacheRuns.EveryMissReadAbsent | internal/gateway/server.go:284-298 | every MISS and MISS_RACE goes back to a Get that found the key absent |
| CacheRuns.SecondMissReadBeforeSet | internal/gateway/server.go:284-327 | a request that is past its miss at some point of a stretch in which its key is alive throughout has its Get before that stretch began, that is, before the entry was stored |
| CacheRuns.RaceOnlyAfterWait | internal/cache/service.go:77-92 | unless a poll failed, a MISS_RACE forward comes after a loop test that found the full wait over, and every poll found the key absent |
| CacheLimits.ExpiryBreaksExclusion | internal/cache/service.go:64-71 | a run in which two requests of one key are in the section at once, for any positive lock time to live |
| CacheLimits.LateReleaseDeletesForeignLock | internal/cache/service.go:73-75 | a run in which a late holder deletes the lock of another request that is still in its section |
| CacheLimits.ExclusionIffLocksNeverExpire | internal/cache/service.go:64-71 | exclusion in every run, with no hypothesis about time, if and only if the lock has no positive time to live |
| CacheLimits.TwoMissesInOneLife | README.md:60-60 | a run in which a second forward for a key starts while the first one's entry is alive, with no time passing |
| CacheLimits.OneMissIffLocksRefused | README.md:60-60 | no run with working lock calls has a holder beside another request's MISS while their key is alive, if and only if locks are refused |
| CacheLimits.HitInWrongFormat | internal/cache/service.go:94-97 | for any two cacheable headers, a run in which a request with one is served a payload forwarded with the other |
| CacheLimits.FormatIffOneCacheable | internal/cache/service.go:94-97 | every hit for a text, in every run, was forwarded with its requester's headers if and only if at most one choice of cacheable headers is allowed for the text (or locks are refused and nothing is ever cached) |
| FetchOrCache.World.FetchOrCache | internal/gateway/server.go:270-328 | the call is a stretch of a run, ends with a result, and a served payload is its own answer or that of a 2xx forward for its key; BYPASS if and only if Accept is not empty and holds neither "csv" nor "arrow" at any position in any mix of cases; if it forwards, the logged reply and the manager after it are those of the retry loop, otherwise the manager is left alone; where Redis works the only error is that of the loop |
| CacheFill.CacheableFormats | internal/gateway/server.go:271-273 | an answer is cached if and only if Accept is empty or holds "csv" or "arrow" at some position, each letter in either case |
| FetchOrCache.World.FillOrWait | internal/gateway/server.go:293-327 | after a miss the call ends with a result, lock released or never held, through the retry loop if it forwards |
| FetchOrCache.World.Fill | internal/gateway/server.go:315-327 | the lock holder's forward, its SET if the answer is 2xx, and the deferred release: the result is the outcome of the retry loop |
| FetchOrCache.World.Race | internal/gateway/server.go:304-312 | the forward without the lock: the result is the outcome of the retry loop |
| FetchOrCache.World.WaitForLock | internal/cache/service.go:77-92 | the polling loop ends, with the value as HIT_WAIT or with a race |
| FetchOrCache.World.Get | internal/cache/service.go:50-55 | the first read ends in a hit, a miss or an error, as a step of a run |
| FetchOrCache.World.AcquireLock | internal/cache/service.go:64-71 | the SETNX makes the request holder or sends it waiting, as a step of a run |
| FetchOrCache.World.Forward | internal/gateway/server.go:319-327 | the request goes through the retry loop on the shared manager: the logged reply, its instant, the manager and what the request does next are those of the loop |
| FetchOrCache.World.Set | internal/cache/service.go:57-62 | the value is stored, or not, and the request goes on with its own answer |
| FetchOrCache.World.ReleaseLock | internal/cache/service.go:73-75 | the request ends with the result it had |
| CacheKey.KeyInjective | internal/cache/service.go:94-97 | keys are equal if and only if organisation and query are, even when an organisation contains a colon or a newline |
| CacheKey.LockKeyIsNoKey | internal/cache/service.go:64-65 | no lock key is a value key, so a lock token is never read as a payload |
| CacheKey.LockKeyInjective | internal/cache/service.go:64-65 | different keys have different locks |
| Patterns.EatExact | internal/flux/split.go:13-18 | the matcher leaves r exactly when the text is a text of the pattern followed by r |
| RangeCall.CallFound | internal/flux/split.go:13-17 | every text of a range pattern is matched, whatever follows it |
| RangeCall.CallSound | internal/flux/split.go:13-17 | only texts of the pattern are matched |
| RangeCall.CallLocal | internal/flux/split.go:13-17 | a match depends on the matched text alone |
| CallTexts.CallWritten | internal/flux/split.go:13-17 | a call is recognised at the front of a text if and only if the text begins with `range ( start : CAPTURE , stop : STOP )` with any blanks, tabs, line ends and form feeds between the words, a capture without commas, and a stop that is now ( ), v.timeRangeStop, time(v: "...") or time(v: '...'), or a bare timestamp with a double quote or none at either end |
| CallTexts.TimeRead | internal/flux/split.go:63-74 | a time expression reads as the argument of time(v: "...") or time(v: '...'), with any white space, and any other text as itself without the double quotes at its ends |
| CallTexts.TimeArgRead | internal/flux/split.go:18-18 | the argument pattern takes exactly the time calls, and yields what is between the quotes |
| CallTexts.BareStamp | internal/flux/split.go:17-17 | every bare UTC timestamp, quoted or not and with a fraction of any length, is a stop of the third pattern and is read as its own text |
| CallTexts.QuotedStamp | internal/flux/split.go:17-18 | every text in quotes of either kind inside a time call is a stop and is read as that text |
| FluxSplit.FindIsLeftmost | internal/flux/split.go:22-33 | what is found is a match and nothing matches earlier, or nothing matches anywhere |
| FluxSplit.FindFirst | internal/flux/split.go:22-33 | a match with none before it is the one found |
| FluxSplit.RecognisedFirst | internal/flux/split.go:21-33 | the recognised call is the leftmost match of the first form that matches anywhere: now() before v.timeRangeStop before an absolute stop |
| FluxSplit.ReplaceHitsMatch | internal/flux/split.go:53-57 | the first occurrence of the matched text is the match itself, so replacing it leaves all other text intact |
| FluxSplit.SplitShape | internal/flux/split.go:21-61 | a query is split if and only if a call is recognised and an absolute stop parses and lies after the cutoff; then both queries are the original with the call replaced, spelled out: the cached one keeps the start unless the stop is absolute and the start an instant before it, in which case it begins as long before the cutoff as the range is long, clamped at 2^63 - 1 ns |
| FluxSplit.SplitCutoff | internal/flux/utils.go:52-58 | the cutoff is the only multiple of the window in (now - window, now]; without a window it is now |
| SplitLaws.CutoffShared | internal/flux/utils.go:52-58 | two instants share the cutoff if and only if the later one lies in the window of the earlier; in the window after that, and only there, the cutoff is later by one window |
| SplitLaws.ParseOfCutoff | internal/flux/split.go:59-74 | parsing the expression printed for an instant returns the instant |
| SplitLaws.CachedIsNotSplitAgain | internal/flux/split.go:33-37 | splitting the cached query again at the same cutoff is refused, for a query with one range call |
| SplitLaws.LiveSplitsToItself | internal/flux/split.go:21-51 | splitting the live query again at the same cutoff returns the identical live query, for a query with one range call |
| SplitLaws.CachedQueryOfRange | internal/flux/split.go:38-46 | the cached query of an absolute range runs from cutoff minus length to the cutoff |
| SplitLaws.CachedQueryCanonical | internal/flux/split.go:38-46 | two absolute ranges in the same text have the same cached query if and only if cutoff and length agree |
| SplitLaws.AbsoluteSplitRanges | internal/flux/split.go:33-48 | the two ranges are disjoint, meet at the cutoff and make up [cutoff - length, stop); nothing is lost if and only if the length fits a Duration, 2^63 - 1 ns, or the clamped length still reaches the start |
| SplitLaws.OvershootBelowWindow | internal/flux/utils.go:52-58 | the overshoot is below the window when the stop is not after now |
| Rfc3339.ParseOfFormat | internal/flux/split.go:59-70 | printing an instant of years 0 to 9999 and parsing it back returns it to the nanosecond |
| StampTexts.StampRead | internal/flux/split.go:63-74 | the instant a text is read as, by its fields: date, clock, the first nine digits of a fraction as if zeros followed, and the zone offset taken off; fields out of range are refused |
| StampTexts.PrintedShort | internal/flux/split.go:59-61 | an instant is printed in UTC with a fraction only if it has one, and then without zeros at its end |
| StampTexts.UnixEpochRead | internal/flux/merge.go:74-74 | the time of a row without one is the first instant of 1970 |
| Rfc3339.DaysInARow | internal/flux/split.go:59-74 | day 0 is 0001-01-01 and calendar days follow one another without gaps; with the month lengths and leap years of `DaysIn` this fixes the calendar |
| CsvMerge.ParseCsvResponse | internal/flux/merge.go:48-86 | the loop computes the parsed body as specified, and every row has the time its cell in the first column named _time reads as, or the Unix epoch; which lines are annotations, header and rows is stated by `ParsedLines` |
| CsvMerge.FindTimeColumn | internal/flux/merge.go:65-71 | the loop finds the time column |
| CsvMerge.TimeColumnIsFirst | internal/flux/merge.go:65-71 | the time column is the first one named _time, and there is none if and only if no column is |
| MergeLaws.RowTime | internal/flux/merge.go:65-83 | a row has the time its cell below the first column named _time reads as, and the Unix epoch when there is no such column, no such cell, or it does not read |
| MergeLaws.ParsedLines | internal/flux/merge.go:48-65 | of the lines of the trimmed body those that begin with # are the annotations, the first other non-empty one is the header, and the rest of those are the rows, in order |
| CsvMerge.Deduplicate | internal/flux/merge.go:26-34 | every text once, as it first appears, and no others |
| CsvMerge.SortRows | internal/flux/merge.go:36-36 | a permutation in order of time |
| CsvMerge.MergeCsv | internal/flux/merge.go:14-46 | the output is the cached annotations, the chosen header and the distinct rows of both bodies, each once, in order of time with ties free; without any header it is the live body. `MergedText` spells the text out |
| MergeLaws.MergedText | internal/flux/merge.go:14-46 | the merged text itself: the live body if neither body has a header; otherwise the cached annotations, the cached header (the live one if there is none) and every row of the two bodies once, each with its line end, in order of the times their cells read as, a row of both bodies under the cached header |
| MergeLaws.ParseShape | internal/flux/merge.go:48-86 | annotations, header and rows are non-empty single lines, and every row has the time its cell in the first column named _time reads as, or the Unix epoch |
| MergeLaws.ParseOfRender | internal/flux/merge.go:38-50 | a printed table parses back to the same annotations, header and rows in order if and only if it neither starts nor ends with white space |
| MergeLaws.MergeReread | internal/flux/merge.go:14-86 | a merge of clean bodies reads back as the cached annotations, the chosen header and the rows of both, each once, sorted under a common header, and is clean again |
| MergeLaws.MergeIsUnion | internal/flux/merge.go:26-45 | row sets merge by union |
| MergeLaws.MergeCommutes | internal/flux/merge.go:26-45 | merging in either order gives the same rows and, under a common header, the same header |
| MergeLaws.MergeAssociates | internal/flux/merge.go:26-45 | three bodies merge to the same rows and header in either grouping |
| MergeLaws.RemergeAddsNothing | internal/flux/merge.go:26-45 | merging a merged body with itself or one of its parts has the body itself as a result, and no result has other rows |
| MergeLaws.MergeDetermined | internal/flux/merge.go:36-36 | if rows of equal time are equal, the merged text is determined |
| Upstream.BreakerIsFunctionOfHistory | internal/upstream/manager.go:81-99 | with threshold b and n failures since the last success the counter is n mod b and the circuit was last opened by the latest failure whose number is a multiple of b |
| Upstream.CounterBelowThreshold | internal/upstream/manager.go:89-99 | the counter stays below the threshold, and the circuit has been opened if and only if a full streak happened |
| Upstream.OpenUntilNeverDecreases | internal/upstream/manager.go:89-99 | between successes, on a clock that does not go back, the open-until time never decreases |
| Upstream.PickSpec | internal/upstream/manager.go:49-79 | a target is picked if and only if an untried name is left; it is configured and untried, and its stored open-until time is later than now only if that of every untried name is |
| Upstream.CandidatesSpec | internal/upstream/manager.go:54-73 | a target is a candidate if and only if it is configured with weight, untried, and not before its stored open-until time, or every untried target with weight is before its own |
| Upstream.CandidateByHistory | internal/upstream/manager.go:54-99 | breaker and pick together: while another untried target is closed, a target is a candidate if and only if it has not failed a full streak since its last success, or the cooldown is over since the latest failure that completed one |
| Upstream.TrippedIsAvoided | internal/upstream/manager.go:54-99 | from the failure that completes a streak until the cooldown is over, a target is not picked while another untried target is closed |
| Upstream.PickedAt | internal/upstream/manager.go:77-78 | successive picks over the same candidates go through them in order from the one after the counter, modulo 2^64 |
| Upstream.OneTurn | internal/upstream/manager.go:70-78 | consecutive counter values through a list pick every entry once |
| Upstream.AnyInterleaving | internal/upstream/manager.go:77-78 | picks depend on the counter values as a collection, not on who got which |
| Upstream.WeightedFairness | internal/upstream/manager.go:54-78 | as many consecutive counter values as the total weight, whoever uses which, select each allowed target from the expanded list exactly its weight times |
| Upstream.PicksAreFair | internal/upstream/manager.go:49-79 | over as many successive calls of the pick as the candidates weigh together, all seeing the same candidates while breakers may change otherwise, each candidate is picked exactly its weight times and nothing else is, from any counter value from which the turn does not cross the wrap or if the total weight divides 2^64 |
| Upstream.FairIffNoWrapOrDividing | internal/upstream/manager.go:77-78 | with the uint64 counter a turn is fair if and only if it does not cross the wrap or the total weight divides 2^64 |
| ManagerObject.Manager.constructor | internal/upstream/manager.go:30-47 | every configured target starts closed |
| ManagerObject.Manager.Lists | internal/upstream/manager.go:51-68 | the nested loops build the expansions: all untried targets with weight, and those of them not before their stored open-until time |
| ManagerObject.Manager.PickTarget | internal/upstream/manager.go:49-79 | the pick and the advanced counter are those of the specification, breakers unchanged; a target before its open-until time is returned only if every untried one is before its own |
| ManagerObject.Manager.RecordSuccess | internal/upstream/manager.go:81-87 | the breaker is closed, the history grows, and state stays a function of history |
| ManagerObject.Manager.RecordFailure | internal/upstream/manager.go:89-108 | the counter goes up or the circuit opens, the history grows, and state stays a function of history |
| Retry.TryNext | internal/gateway/server.go:339-374 | one round: the specified pick, the answer of its target to the request, and the breaker event, between other goroutines' actions |
| Retry.Forward | internal/gateway/server.go:330-379 | the loop makes the specified attempts, at most retries + 1 of them (one if retries is negative), leaves the manager as specified and returns what the last attempt decides |
| RetryLaws.AttemptsAsked | internal/gateway/server.go:346-346 | every attempt sends the request it was given, and its answer is the one of its target at that moment |
| RetryLaws.ForwardTries | internal/gateway/server.go:330-379 | at most m = max(1, retries + 1) attempts, on distinct configured targets, each but the last failed with a network error or status 500 and up; exactly min(m, names) when none is below 500; a target before its open-until time only when every untried one is |
| RetryLaws.ForwardAvailable | internal/gateway/server.go:330-379 | with no more names than retries + 1, forward answers below 500 whenever some target does whenever asked, whatever the breakers |
| RetryLaws.PassThroughOnlyAtLimit | internal/gateway/server.go:356-372 | the last attempt decides: below 500 as it came, a 5xx payload only as number max(1, retries + 1), an error otherwise; with fewer names than that no 5xx is passed through |
| RetryLaws.NoTargetsUnreachable | internal/config/config.go:63-70 | under any accepted configuration the "no available targets" error is unreachable |
| RetryLaws.NormaliseWeights | internal/config/config.go:66-70 | the loop gives every target without a positive weight the weight 1; every name, URL, token and positive weight stays |
| RetryLaws.RetryAccounting | internal/gateway/server.go:336-374 | every attempt produces exactly one breaker event, in order: success if below 500, otherwise failure at the time after the answer; and the manager ends up as these and the others' actions leave it |

## Left out

- The HTTP server and client, headers, authorisation, the read proxy's request copying, logging, metrics, tracing: no state of their own that the promises depend on.
- `forwardRead` (internal/gateway/server.go:416-463): the same loop as `forward` with another request.
- The JSON body of a query: `build`, the function that puts a Flux text into a body, is any function and may fail.
- SHA-256: any function with fixed-length digests; the Redis client and its rounding of times to live to milliseconds.
- The network part of the health probe: its successes and failures are among the other goroutines' actions.
- A gateway process that dies while it holds a lock; the lock then goes when it expires.
- Quoted CSV fields, several tables per body: the source splits on raw commas and newlines, and so does the model; the targets of `Meaning` answer with one clean table.
- Flux beyond the range call: a pipeline is any function of the points of the range for `Meaning.SplitUnion`, row by row for the comparison, and `_start`/`_stop` columns, which differ between the segments, are not part of a row.
- Bytes that are not valid UTF-8, and years beyond 9999 in printed cutoffs.
- The sorting algorithm of `sort.Slice`: the model's own sort has the same contract, and the laws allow every order of rows with equal times.
- `QuerySignature`, `QueryPreview`, the load generator and the benchmark: no property beyond their own bodies.
- SplitLaws.CachedIsNotSplitAgain: for queries in which a range call opens (`range ( start :`) in one place only, since with a second one the start capture may run from one call into the other and the second call is recognised next.
- SplitLaws.LiveSplitsToItself: the same restriction.
