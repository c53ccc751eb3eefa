# A verified model of the Shepard gateway

Shepard routes LLM requests from clients to upstream providers. This project models the parts of it
whose correctness is not visible in any single function, and proves what they promise:

- **Admission** (`config.dfy`, `limiter.dfy`, `queue.dfy`): token buckets and concurrency counters over
  several scopes under one lock, and the bounded waiting room.
- **The laws of the limits** (`rate_laws.dfy`, `reservations.dfy`): what whole sequences of admissions,
  releases and clears can do to one store.
- **The request lifecycle** (`lifecycle.dfy`, `lifecycle_laws.dfy`, `lifecycle_theorems.dfy`,
  `gateway_rates.dfy`, `attempts.dfy`, `progress.dfy`, `admissions.dfy`): a transition system in which any number of proxied requests and
  any number of reloads interleave at every critical section and atomic update. Theorems are about every
  reachable state of every run.
- **Retry and failover** (`failover.dfy`, `failover_laws.dfy`): the nested loop of one request against
  an oracle for everything around it, with a trace of what it did.
- **The readiness cache** (`readiness.dfy`, `readiness_laws.dfy`, `readiness_times.dfy`): one probe at a time for any number of
  callers, invalidated by generation while it runs.
- **Capture and usage** (`capture.dfy`, `usage.dfy`): the in-place tail buffer, the bounded log, and
  the token usage read from a tail instead of a whole stream.
- **The usage ledger** (`ledger.dfy`): two tables written in one transaction, and the reports over them.
- **Listing and routing** (`routing.dfy`), **bodies per target** (`payload.dfy`) and the **client
  address** behind proxies (`acl.dfy`).

Code that changes state in place is modelled by classes and methods with loops. Each method is proved
against a function of the old state, and the theorems are about those functions. The transition systems
use the same functions, so a step of a run is exactly one call of a verified method.

`dafny verify dfyconfig.toml` checks the whole project.

## Reading the model

- Times are real numbers (minutes in the limiter). Token counts are reals, which idealises the 64-bit
  floating point of the source.
- The string keys `ingress`, `client:…`, `model:…` and `provider:…` are the constructors of a datatype.
  JSON field names that some rule mentions are constructors too.
- Every request carries the configuration it loaded on arrival, so a reload needs only its two effects
  on shared state (the size of the waiting room, and the clearing of the buckets), as separate steps.
- A step that is not enabled changes nothing, so every sequence of steps is a run.
- The Go `select` between a tick and a deadline is a free choice: either may win.

## Where the code differs from what one might expect

- A refused admission is invisible to later callers only while each key keeps its limits. A request that
  outlives a reload still carries its old limits; then a refusal can be seen, and
  `RateLaws.RefusalInvisibleUnderAnyLimitsIff` says exactly when. The guard is whether the refusing scope
  was full, or its bucket had already been brought up to date at that instant.
- A scope listed twice in one admission would take two slots but only one token. The callers never do
  that. The functions model it all the same, and `Reservations.ReleaseUndoesAdmission` covers it.
- A final 429 does not mean that every target was limited. A discarded 5xx of an earlier target leaves no
  trace in the status (`FailoverLaws.DiscardedFailureReadsAsLimit`). While the context lives it means so
  exactly when no call was given up for the next target, that is, when every call drew a failure that is
  worth repeating with a repeat left (`FailoverLaws.AllLimitedIff`).
- A call can follow the death of its context (`FailoverLaws.CallsAfterDeathHappen`), because a retryable
  response moves on without a look at the context and an admission is tried before the context is looked
  at. `FailoverLaws.CallAfterDeathIff` is the exact condition, and there is never a second such call
  (`FailoverLaws.OneCallAfterDeath`).
- An empty write to a log that is already full marks it as cut although nothing was dropped;
  `Capture.LogAgreesWithOneShotIff` is the exact condition. Readers never write empty chunks.
- The tail of a stream may begin inside a line and then misread it (`Usage.CutLineCanMislead`), and what the
  lost part said may be missing. `Usage.TailSufficesIff` is the exact condition under which the tail is
  enough, and it can be checked on the tail alone: its whole lines tell the total and both counts. It
  supposes that a line starting with some other letter is no data line and that events can say different
  things.
- Validation rejects equal discovery prefixes only. Routing is independent of the order in which the
  provider map is walked, and agrees with the list, exactly when no enabled prefix begins another
  (`Routing.OrderNeverMattersIff`, `Routing.ListAndRoutesAgreeIff`).
- The waiting room is not a queue in order of arrival; no order is claimed.

## Model

| member | source | states |
|---|---|---|
| Config.LoadedLimitsAreSound | internal/config/config.go:206-210 | loading gives a rate without a burst a burst of 1, accepts a limit block exactly when nothing is negative and a burst comes with a rate, and what it accepts has room for a token wherever there is a rate (`validate` is at lines 335-343) |
| Limiter.LimitStore.Admit | internal/gateway/limiter.go:44-99 | the two loops check every scope before charging any; the answer and the whole new store, including the one bucket a refusal writes back |
| Limiter.LimitStore.RefilledBucket | internal/gateway/limiter.go:58-68 | an unseen key starts full; a known one gains its share of the rate up to the burst |
| Limiter.LimitStore.Consume | internal/gateway/limiter.go:76-84 | one token from every rate-limited key and one slot from every counted scope |
| Limiter.LimitStore.Release | internal/gateway/limiter.go:87-98 | the release closure decrements the captured scopes and deletes entries that reach zero |
| Limiter.LimitStore.Clear | internal/gateway/limiter.go:36-42 | buckets are forgotten, reservations are kept |
| Limiter.FirstRefusal | internal/gateway/limiter.go:51-75 | the first refusing scope in order, with none before it refusing |
| RateLaws.RefillComposes | internal/gateway/limiter.go:62-67 | refilling in two steps equals refilling once, despite the cap |
| RateLaws.GrantedIff | internal/gateway/limiter.go:44-75 | all or nothing, in the numbers of the maps: granted exactly when for every scope a positive concurrency limit exceeds the stored count, and a positive rate has a burst of at least one and a stored bucket that has kept or earned a whole token |
| RateLaws.GrantCharges | internal/gateway/limiter.go:76-81 | a grant takes exactly one token from each listed rate-limited key and touches no other bucket |
| RateLaws.RefusalsAreInvisible | internal/gateway/limiter.go:50-74 | with fixed limits, after a refusal every later sequence of admissions, releases and clears gets the answers it would have had without it |
| RateLaws.RefusalInvisibleUnderAnyLimitsIff | internal/gateway/limiter.go:69-73 | when limits may change, a refusal stays invisible exactly when it wrote nothing new |
| RateLaws.Revealing | internal/gateway/limiter.go:69-73 | otherwise there is a single later call whose answer gives the refusal away |
| RateLaws.WindowBound | internal/gateway/limiter.go:55-80 | whatever limits a key had before, and however they change in the window below a largest one, the key can spend between 0 and that burst at any time and admits at most (1 + clears) such bursts plus what that rate supplies |
| RateLaws.HistorySettles | internal/gateway/limiter.go:55-80 | through any sequence of calls under any changing limits a bucket never owes tokens and never lies in the future |
| RateLaws.WindowBoundIsAttained | internal/gateway/limiter.go:36-42 | the bound is sharp: in one instant, c clears let exactly (c + 1) bursts through |
| RateLaws.SlotsAreGivenOut | internal/gateway/limiter.go:52-84 | a concurrency limit of m with a slots in use grants exactly the first m - a of any arrivals, no fewer and no more |
| RateLaws.GreedyIsOptimal | internal/gateway/limiter.go:55-80 | at every prefix of any arrival sequence no policy respecting the same bucket has admitted more than the store |
| RateLaws.GreedyStaysAhead | internal/gateway/limiter.go:55-80 | the joint invariant behind it: neither the admitted count nor admitted count plus tokens ever falls behind any respecting policy |
| Reservations.TakeAllCounts | internal/gateway/limiter.go:82-84 | an admission adds exactly the slots of its scopes |
| Reservations.GiveBackAllCounts | internal/gateway/limiter.go:90-95 | while the slots are there a release takes off exactly those, and leaves no entry at zero |
| Reservations.ReleaseUndoesAdmission | internal/gateway/limiter.go:76-98 | release after admission restores the counters, for any scopes, repeated keys included |
| Queue.RequestQueue.Enter | internal/gateway/queue.go:32-40 | admits a waiter exactly below a positive bound |
| Queue.RequestQueue.Leave | internal/gateway/queue.go:42-48 | takes one waiter off, never below zero |
| Queue.RequestQueue.SetMax | internal/gateway/queue.go:26-30 | changes the bound and nothing else |
| Queue.RequestQueue.Wait | internal/gateway/queue.go:50-77 | tries once before queueing, then at each tick until one succeeds or the deadline wins; the room is left as it was found |
| LifecycleLaws.InvNext | internal/gateway/gateway.go:283-515 | every step of every request, and every part of a reload, keeps the invariant on held reservations, counters, waiting room, metrics and usage records |
| LifecycleLaws.StairsNext | internal/gateway/limiter.go:52-54 | a grant under a limit of m finds fewer than m slots granted under limits of at most m |
| LifecycleLaws.RoomKeptNext | internal/gateway/queue.go:32-48 | the room counts exactly the requests in it, and a leave always finds its waiter |
| LifecycleTheorems.ReservationsAreConserved | internal/gateway/limiter.go:36-99 | in every reachable state each counter is the number of slots live requests hold, entries exist exactly for held keys, and the queue depth is the number of waiters |
| LifecycleTheorems.ReleasesAreExact | internal/gateway/limiter.go:87-98 | no decrement is ever suppressed by its guard, in the limiter or in the room |
| LifecycleTheorems.LimitsHoldAcrossReloads | internal/gateway/gateway.go:94-110 | across any reloads, at most m live slots of a key were granted under a limit of at most m, and at most m waiters entered a room of at most m |
| LifecycleTheorems.NeverBeyondTheLargestLimit | internal/gateway/limiter.go:52-54 | a key is never used beyond the largest limit its holders were granted under |
| Admissions.ProviderLimitHolds | internal/gateway/gateway.go:389-396 | across any reloads, at most m requests are calling, judging, giving up or streaming from one provider under a limit of at most m of their own target |
| Admissions.ModelLimitHolds | internal/gateway/gateway.go:349-362 | at most m requests are past the gate of one model under a model limit of at most m |
| Admissions.ClientLimitHolds | internal/gateway/gateway.go:303-315 | at most m requests of one client are past the ingress gate under a client limit of at most m |
| Admissions.RequestLimitHolds | internal/gateway/gateway.go:303-315 | at most m requests in all are past the ingress gate under a gateway bound of at most m |
| Admissions.IngressGateAsks | internal/gateway/gateway.go:303-306 | the ingress gate lets a request through exactly when the gateway has a slot and its client has a slot and a token, and charges both |
| Admissions.ModelGateAsks | internal/gateway/gateway.go:349-351 | the model gate lets a request through exactly when its own model has a slot and a token under its own limits, and charges it one token and one slot |
| Admissions.ProviderGateAsks | internal/gateway/gateway.go:392-394 | in every run the provider gate does so for the provider of the request's own target |
| Admissions.FatesHaveCauses | internal/gateway/gateway.go:310-376 | a request's fate is given once: refused by the gate it stands at, a bad body, a payload that fails to take shape, or the end of its loop |
| Admissions.CountersAreExact | internal/gateway/gateway.go:284-294 | at every moment requests, active, completed and failed are exact counts of requests, and upstream requests and errors of the calls returned and failed in transport (counted at lines 411 and 416) |
| LifecycleTheorems.NothingLeaks | internal/gateway/gateway.go:286-294 | with no request in flight the concurrency map is empty, nobody waits, nothing is active, and requests = completed + failed |
| LifecycleTheorems.RunsAreAccounted | internal/gateway/gateway.go:411-416 | upstream errors never exceed upstream requests; a request writes at most one usage record, and a finished one exactly one iff it was refused at its model, exhausted its targets or forwarded a response (records are at lines 357, 477 and 509) |
| LifecycleTheorems.WaitersHoldLower | internal/gateway/gateway.go:302-315 | in every reachable state a request that tries or polls at a gate holds slots of lower gates only, and none of a provider while it pauses |
| LifecycleTheorems.NoCircularWait | internal/gateway/gateway.go:389-402 | whenever a request polls for a missing slot, some request in flight holds a reservation and is not itself polling for a missing slot |
| LifecycleTheorems.SomeoneCanAlwaysMove | internal/gateway/gateway.go:302-402 | while any request is in flight, some request has a step other than giving up: one outside polling, or a poll that is granted at some later time with the store as it stands |
| LifecycleTheorems.TokensReturn | internal/gateway/limiter.go:62-67 | scopes that only lack tokens can all be paid at some later time |
| GatewayRates.StoreFollowsCalls | internal/gateway/gateway.go:116-120 | the store of any run is what its admissions, releases and clears make of it in sequence |
| GatewayRates.RateHoldsForTheGateway | internal/gateway/gateway.go:302-313 | after any history of sound configurations and reloads, the window bound holds for all admissions of the whole gateway on a key in any stretch, reloads of its limits and requests that still carry older ones included, with the most generous of the limits it is tried under |
| Attempts.RunsStayWithinPlan | internal/gateway/gateway.go:378-396 | no request in any run goes beyond its own targets and retries |
| Attempts.RunsWalkTheLoop | internal/gateway/gateway.go:378-464 | in every run, what a request has done at its providers is the beginning of the trace of the failover loop for its plan and the answers that run gave it, and the whole trace once it has left the loop, with the same end |
| Attempts.RunStands | internal/gateway/gateway.go:378-464 | the same for every loop that would have heard the same answers, event by event and phase by phase |
| Attempts.LoopLawsHoldInRuns | internal/gateway/gateway.go:378-464 | so the order, number, backoff and slot laws hold for every request of every run, a forwarded reply is a final one, and a request out of targets has met none |
| Attempts.StatusInRuns | internal/gateway/gateway.go:466-476 | in every run, a request that is out of targets is due 504 iff its deadline passed, otherwise 429 iff some provider denied it and no call of it ended in a transport error, otherwise 502 |
| Attempts.OneCallAfterDeathInRuns | internal/gateway/gateway.go:410-456 | in every run whose environment keeps a dead context dead, a request makes at most one call after the one that found it dead, and then gets no response |
| Progress.StepsAreBounded | internal/gateway/gateway.go:283-515 | refused polls aside, a request takes at most 17 + 8 · targets · (retries + 1) steps in any run, and is done exactly when none is left |
| Progress.CanAlwaysDrain | internal/gateway/gateway.go:283-515 | from every reachable state, at any time, every request can end without a new arrival, without any waiter giving up and with the clock moving forward |
| Failover.Proxy | internal/gateway/gateway.go:370-480 | the labelled nested loop with its admissions, calls, releases and pauses as actions: it leaves the trace and the end of the recursive walk; the slot it hands over is that of the selected response or none; its counters count calls and errors; and without a response it sends 504 iff the deadline passed, otherwise 429 iff some admission was refused and no call had a transport error, otherwise 502 |
| FailoverLaws.TraceLaw | internal/gateway/gateway.go:378-464 | on every oracle the walk begins at the first target, calls ascend strictly by target and attempt, attempts run from 0 without a gap, there are at most targets × (retries + 1), and no call on a target follows a timeout of its provider or a response other than 408, 500, 502, 503 or 504 |
| FailoverLaws.WhatFollowsACall | internal/gateway/gateway.go:415-461 | for every call of every oracle, what comes next: the end, a repeat after its pause, the next target, or the response forwarded, by reply, context and place |
| FailoverLaws.WhatFollowsARefusal | internal/gateway/gateway.go:398-402 | a refused target is followed by the next target's first attempt, and the last one by the end |
| FailoverLaws.BackoffLaw | internal/gateway/gateway.go:607-617 | the backoff on one target is at most 100·(2^n − 1) ms for n ≤ 5 retries and 3100 + 1600·(n − 5) ms beyond |
| FailoverLaws.BackoffIsAttained | internal/gateway/gateway.go:607-617 | that bound is reached by a target that keeps failing |
| FailoverLaws.SlotLaw | internal/gateway/gateway.go:392-462 | each granted provider slot is used by its own attempt and freed exactly once, none is held while pausing, being refused or acquiring, and at the end one is held iff a response was selected |
| FailoverLaws.EventsAreOrdered | internal/gateway/gateway.go:392-461 | event by event: a slot is acquired when none is held, used for one call and freed right after it, a pause follows the freeing and lasts 100, 200, 400, 800 or 1600 ms, and only the forwarded response keeps its slot |
| FailoverLaws.ForwardLaw | internal/gateway/gateway.go:435-462 | a response is forwarded iff it is not retryable or the last target has no repeat left for it, and then it is the last call and the only such one |
| FailoverLaws.LiveContextTriesAll | internal/gateway/gateway.go:378-402 | while the context lives, a loop without a response has called or been refused by every target |
| FailoverLaws.LiveContextExhausts | internal/gateway/gateway.go:398-433 | and its last target was refused or failed in transport |
| FailoverLaws.AllLimitedIff | internal/gateway/gateway.go:441-476 | while the context lives, a 429 means that every target was limited exactly when every call could be repeated where it was made, so that none was given up for the next target |
| FailoverLaws.DiscardedFailureReadsAsLimit | internal/gateway/gateway.go:441-476 | a concrete run in which a 500 followed by a refusal is reported as 429 |
| FailoverLaws.CallAfterDeathIff | internal/gateway/gateway.go:435-456 | a call made as the context dies is followed by another exactly when it drew a retryable response that leads on and some admission ahead is granted |
| FailoverLaws.OneCallAfterDeath | internal/gateway/gateway.go:410-423 | a dead context staying dead and failing the calls made on it, a request makes at most one more call after its context has died, and then gets no response |
| FailoverLaws.CallsAfterDeathHappen | internal/gateway/queue.go:50-53 | a concrete run that makes that call |
| Readiness.ReadinessCache.Clear | internal/gateway/readiness.go:29-36 | drops the result and opens a new generation, leaving a running probe in place |
| Readiness.ReadinessCache.Consult | internal/gateway/readiness.go:55-75 | an unexpired result, else the running probe's channel, else a new probe with the current generation |
| Readiness.ReadinessCache.Finish | internal/gateway/readiness.go:78-85 | the result is kept only if its generation is still current; the flight ends either way |
| Readiness.CheckReadiness | internal/gateway/readiness.go:98-130 | every provider is reported, and the gateway is ready iff some provider is, in whatever order the probes come in |
| Readiness.InvNext | internal/gateway/readiness.go:53-88 | every step keeps single flight, channel use and the dating of results |
| ReadinessLaws.OneFlightAtATime | internal/gateway/readiness.go:61-85 | at most one probe runs, the cache names its channel exactly while it runs, and each channel is closed once |
| ReadinessLaws.NoLostWakeup | internal/gateway/readiness.go:61-70 | a waiter can wake now, or the running probe's end lets it wake |
| ReadinessLaws.CachedResultsAreNewerThanClears | internal/gateway/readiness.go:79-82 | an unexpired stored result was found by a probe that began after the most recent clear |
| ReadinessLaws.AnswersAreNewerThanClears | internal/gateway/readiness.go:56-60 | the same for whatever a caller is answered without probing |
| ReadinessLaws.ProbesAreBounded | internal/gateway/readiness.go:56-86 | a window of length d with c clears starts at most c + 1 + d / ttl probes, however many callers poll |
| ReadinessLaws.ProbesAreApart | internal/gateway/readiness.go:56-86 | without a clear in between, probes start at least the ttl apart |
| ReadinessTimes.AnswersAreYoung | internal/gateway/readiness.go:56-82 | whoever is answered without probing gets the result of a probe that ended less than its time to live ago and began after the last clear |
| ReadinessTimes.YoungResultsAreServed | internal/gateway/readiness.go:56-60 | and every asker within that time gets it, and starts no probe |
| ReadinessTimes.OthersWaitOrProbe | internal/gateway/readiness.go:61-75 | without such a result an asker joins the running probe, or begins one if none runs |
| ReadinessTimes.ProbersGetTheirOwn | internal/gateway/readiness.go:77-86 | the prober gets what it found, even when a clear has made it stale |
| Capture.TailBuffer.Write | internal/gateway/gateway.go:763-778 | the buffer holds the last `limit` bytes of what it held followed by what is written |
| Capture.TailBuffer.ShiftDown | internal/gateway/gateway.go:771-775 | the overlapping in-place shift drops exactly the oldest bytes |
| Capture.CaptureTail | internal/gateway/gateway.go:499-509 | under every chunking the capture is the last `limit` bytes of the stream |
| Capture.LogBodyBuffer.Write | internal/gateway/logging.go:75-93 | keeps what fits, reports all of it as consumed, and marks a write that does not fit |
| Capture.BoundedLogBody | internal/gateway/logging.go:95-99 | the first `limit` bytes, marked iff bytes were dropped; nothing and marked without a positive limit |
| Capture.LogLaw | internal/gateway/logging.go:75-93 | under every chunking the log is the first `limit` bytes, marked iff bytes were dropped or an empty write found it full |
| Capture.LogAgreesWithOneShotIff | internal/gateway/logging.go:75-99 | chunked and one-shot logs agree exactly when no empty write meets a log that is just full |
| Capture.NonemptyWritesMarkCuts | internal/gateway/logging.go:75-99 | with non-empty writes they always agree |
| Capture.NoLimitKeepsNothing | internal/gateway/logging.go:78-81 | without a positive limit nothing is kept and any write is marked |
| Usage.Split | internal/gateway/usage.go:252 | the pieces between newlines |
| Usage.ExtractUsage | internal/gateway/usage.go:228-271 | field by field the last event that sets a field decides, the body as a whole coming first; older names and the sum fill in |
| Usage.LinesAre | internal/gateway/usage.go:252 | the lines hold no newline and, rejoined with newlines, are the body |
| Usage.UsageMeans | internal/gateway/usage.go:244-270 | the three results in full, from what the last event to mention each field says |
| Usage.PlainBodyUsage | internal/gateway/usage.go:251 | a body without data lines has the usage it decodes to as a whole, with the older names and the 64-bit sum standing in for what is missing or 0 |
| Usage.SingleEventUsage | internal/gateway/usage.go:252-257 | a stream with one data line has the usage of its event |
| Usage.LinesOfConcat | internal/gateway/usage.go:252 | cutting a stream anywhere cuts at most one line |
| Usage.FieldFromTail | internal/gateway/usage.go:244-257 | a field set by a whole line of the tail is read from the tail as from the stream |
| Usage.TailSufficesIff | internal/gateway/usage.go:228-271 | the usage read from a tail is that of every stream it may have been cut from exactly when the whole lines of the tail set the total and settle both counts (the newer name, or the newer name to zero and the older one) |
| Usage.FieldKnownIff | internal/gateway/usage.go:244-257 | a single field is known from a tail exactly when a whole line of the tail sets it |
| Usage.TailSuffices | internal/gateway/usage.go:228-271 | for one known stream: if it fits, or every field is set by a whole line of the tail or by nothing at all, the tail yields its usage |
| Usage.UsageOfCapture | internal/gateway/gateway.go:492-509 | end to end, from chunks through the capture buffer to the usage recorded: always that of the tail, and that of the whole stream when it fits, when the tail tells it, or when nothing outside the tail sets what the tail leaves open |
| Usage.CutLineCanMislead | internal/gateway/usage.go:252-257 | for any event text, a stream that holds no event but is read as one when cut inside its line |
| Ledger.UsageStore.RecordAt | internal/gateway/usage.go:97-149 | both tables change or neither does, whichever statement fails |
| Ledger.BaseIsKept | internal/gateway/usage.go:97-149 | over any committed and failed recordings, cumulative total minus daily rows never changes for any model and counter |
| Ledger.RecordingCounts | internal/gateway/usage.go:97-149 | a committed recording adds one request, an error from status 400 up, and its token counts to exactly the row of its model and that of its day, client and model; a failed one changes nothing |
| Ledger.TablesHoldTheCommitted | internal/gateway/usage.go:112-141 | from a fresh database both tables hold exactly the committed recordings |
| Ledger.LastIsTheLastCommitted | internal/gateway/usage.go:123-124 | a model's last time and status are those of its last committed recording |
| Ledger.EachLineIsItsSum | internal/gateway/usage.go:193-203 | each report line is the sum of the daily rows of its period, client and model |
| Ledger.DatesByPeriod | internal/gateway/usage.go:182-192 | reports by day list a date as it is, those by month under its year and month, and any other period is refused |
| Ledger.MonthsAddUpDays | internal/gateway/usage.go:182-226 | month and day reports agree for every filter, month, client, model and counter, and list no line twice |
| Ledger.FilteredReportIsTheClientsPart | internal/gateway/usage.go:198-201 | the client filter picks out that client's lines |
| Ledger.ReportsAgree | internal/gateway/usage.go:151-226 | after any run the cumulative report is the unchanging base plus all lines of either period report |
| Routing.DiscoverProvider | internal/gateway/discovery.go:144-158 | aliases are prefix + upstream id; empty ids are skipped |
| Routing.DiscoverAll | internal/gateway/discovery.go:62-82 | exactly what the enabled, answering providers offer, sorted by alias, in any map order |
| Routing.Models | internal/gateway/gateway.go:255-281 | the static aliases sorted, then every other alias on offer sorted, each once, under an owner that offers it |
| Routing.ResolveDiscoveredModel | internal/gateway/discovery.go:84-101 | the first enabled provider whose prefix fits decides alone |
| Routing.RoutesToIff | internal/gateway/discovery.go:84-101 | with prefix-free prefixes an alias routes to a provider iff no static alias hides it, the provider is enabled and reports the model, and the alias is its prefix and that model |
| Routing.RouteFailsIff | internal/gateway/discovery.go:84-101 | and it fails iff the one provider it fits cannot be asked |
| Routing.ListMeans | internal/gateway/gateway.go:255-281 | the list in full: static aliases under the gateway's name, then exactly the reported models of enabled providers that none of them hides, each part in character order |
| Routing.NoIdTwice | internal/gateway/gateway.go:261-276 | no id is listed twice, with any prefixes |
| Routing.ListedIdsRouteToTheirOwner | internal/gateway/gateway.go:334-348 | every listed id is routed to its listed owner, static aliases first, and equals prefix + upstream model |
| Routing.RoutedIdsAreListed | internal/gateway/gateway.go:255-281 | and every id that routes is listed under the owner it routes to |
| Routing.ListAndRoutesAgreeIff | internal/gateway/discovery.go:84-101 | over every snapshot and walk each listed id routes to its owner exactly when no enabled prefix begins another |
| Routing.ListIsUnique | internal/gateway/gateway.go:255-281 | the list does not depend on the order in which maps are walked |
| Routing.OrderNeverMattersIff | internal/gateway/discovery.go:85-100 | routing is independent of the walk for every alias and snapshot exactly when no enabled prefix begins another (loading checks only equality, `config.go:226-232`) |
| Payloads.Payload.Override | internal/gateway/gateway.go:517-523 | configured fields win, others stay, in any map order |
| Payloads.Payload.Clone | internal/gateway/gateway.go:525-531 | a fresh copy with the same fields |
| Payloads.Payload.ApplyCompatibility | internal/gateway/gateway.go:533-577 | the translations of protocol and endpoint |
| Payloads.BodiesForTargets | internal/gateway/gateway.go:367-389 | each body is a function of the client payload, the overrides and its own target, however many targets came before, and the shared payload is left alone |
| Payloads.BodyNamesItsTarget | internal/gateway/gateway.go:381-383 | every body carries its target's model, and fields without a translation pass untouched |
| Payloads.CompatibleIsIdempotent | internal/gateway/gateway.go:533-577 | translating twice is translating once |
| Payloads.OllamaEffort | internal/gateway/gateway.go:534-568 | precedence: explicit effort, then a bool or string `thinking`, then a bool or string `think`; true is medium, false is none, a string is itself; neither switch is sent |
| Payloads.TokenLimitAndSwitches | internal/gateway/gateway.go:569-576 | the token limit travels under its newer name on the responses endpoint only, explicit value first; OpenAI targets get switches as they came |
| Acl.ForwardedClientIP | internal/gateway/acl.go:66-86 | the right-to-left walk returns the nearest readable untrusted hop, or the peer |
| Acl.ClientMeans | internal/gateway/acl.go:66-86 | in full: the peer unless it is in a trusted network, otherwise the last hop that is readable and in none of them, or the peer; an empty list trusts everyone |
| Acl.LeftOfTheBoundaryIsIrrelevant | internal/gateway/acl.go:73-84 | nothing to the left of that hop matters |
| Acl.HeaderIsVoidIff | internal/gateway/acl.go:66-72 | the header counts for nothing exactly when no proxy is trusted, the peer is not, or every address is |

## Left out

- HTTP serving, TLS, the upstream client, streaming and header copying: an upstream call is its outcome.
- YAML, URL and address parsing, fingerprints and environment lookups: parsed values are inputs.
- JSON encoding and decoding and space trimming: functions about which nothing is assumed.
- SQLite: the tables are sequences of rows, a failed transaction leaves them alone, and 64-bit overflow of the
  stored sums is not modelled. The order of report lines is not modelled.
- Payloads.BodiesForTargets: the system prompt (`applySystemPrompt`) runs before the overrides and is not
  modelled; the payload it leaves is the input.
- Capture.TailBuffer.Append: a buffer that is too small moves to an array of exactly the size needed, where the
  source's runtime chooses a larger one.
- Queue.RequestQueue.Wait: runs against a script of wakes with no one else in the room; the interleaved wait is
  the phases `Trying` to `Leaving` of the lifecycle.
- Failover.Proxy: draining and closing of discarded bodies, cancelling of attempt contexts, the two queue
  metrics, and the early return when a body cannot be encoded are not in this loop; the early return is a
  step of the lifecycle.
- Config.LoadedLimitsAreSound: `defaults` updates its receiver in place; it is a function here.
- Readiness.ReadinessCache.Finish: the generation is unbounded, where the source's wraps after 2^64 reloads.
- The retry loop of `cachedReadiness` is the phases of a caller rather than a method of its own.
- Discovery caching and freshness across a reload: listing and routing are about one snapshot of the offers.
- Order of service in the waiting room and promptness after a deadline: the code does not promise them.
- Updates of several counters in one deferred function are separate steps where their order matters
  (`active`, then `failed`) and one step otherwise; durations are not counted.
- `/opencode.json`, `/healthz`, metrics output, structured logging and bearer checks: they add nothing hard.
