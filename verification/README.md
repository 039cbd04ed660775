# go-route: a verified model

go-route is a proxy in front of LLM providers. It holds tenants to spend caps that any
number of replicas enforce against one set of live counters, fails over from one provider to
the next, relays event streams, and has an admin API. This project models the parts of it
with the most state and arithmetic, and proves what they promise.

`dafny verify dfyconfig.toml` checks everything.

## How the model is laid out

**Quota accounting.** `Amounts` has counters, keys and sums. `LiveCounters` has the three
Redis scripts, each as one atomic step: the function it computes, and a `Store` whose
methods run it statement by statement. `ReserveReply` is the wire format of the reserve
script's answer. `DurableCounters` is the table of durable counters, `Flushing` one
replica's queue on the way there, and `LockOrder` the row locks its batches take.
`Enforcing` is the enforcer of one replica, in the source's own order of calls, between any
two of which other replicas may move the live counters anyhow and the durable ones upwards.
`QuotaProtocol` is all of it at once: a state machine in which replicas, requests, flushers
and resyncs interleave one store call at a time, and calls fail, fail after having taken
effect, or lose data. Four ledgers that no program stores (settled, dropped, leaked,
replayed) say where usage went. `QuotaSafety` proves what holds in every run whatever fails;
`QuotaExactness` what holds exactly of a counter that is not lost, that caps are kept, and
that one resync heals a lost one; `QuotaRuns` which steps leave or write too much, with runs
that do. `QuotaCaps` has caps kept at the prices, and how far one can be passed after a
loss. `EnforcerSteps` proves that in every run of the protocol requests are decided as the
enforcer's contract says.

**Arithmetic under it.** `Metering`, `Pricing` (floor-divided prices, estimates, the
effective-dated table, the dearest target), `Calendar` and `ClockWindows`.

**Event streams.** `EventStream` gives a byte stream its meaning as events, `EventDecoder`
is the stateful decoder over a bounded buffer, `EventRoundTrip` the encoder and what becomes
of its output cut anywhere, and `EventStandard` the interpretation of section 9.2.6 of the
WHATWG HTML Living Standard, written on its own, with the decoder's agreement.

**Failover.** `Dispatch` is the ladder, one attempt, the relay loop and the client's side of
the connection; `Completions` the endpoint around it, from its gates through the enforcer
and the ladder to the settlement.

**The admin API.** `SessionTokens` and `Sessions` (refresh token rotation under
interleaving), `Throttle`, `Logins` and `Guessing` (login attempts in flight together),
`AuditPaging` and `Cursor`, `JsonEquality`, `QuotaSets`.

`Basics` holds what all share.

## What the code does not do as promised

Each of these is a lemma, or a method's contract, below; the code is modelled as it is.

- A durable write that commits but reports failure is tried again and counted twice
  (`AmbiguousWriteCountsTwice`), and there are runs that come to it, for any usage
  (`AmbiguousWriteRun`). A counter's usage is written twice exactly if some such write held
  usage of it (`ReplayedIff`), and the durable counter is ahead of what was settled exactly
  while more was written twice than is on its way or dropped (`DurableAheadIff`). With
  truthful errors it never is (`DurableWithinSettled`).
- A failed reconcile leaves the reservation's excess over the actual usage on the live
  counter (`FailedCorrectionLeaks`, and `FailedCorrectionRun` for runs that come to it). So
  do three other steps leave something there, and no more: a reply lost after the script
  ran, a request abandoned while it holds a reservation (`AbandonedRun`), and a failover to
  a larger value (`LeakedIff`). A counter that is not lost is what was settled and is
  outstanding exactly as long as no such step has been taken, and ahead of it ever after
  (`RightIffNoneLeaked`).
- A cap can be passed once the counter behind it was lost (`CapPassedRun`): by what the
  snapshot it is seeded from did not have, and no more (`CapAfterLoss`).
- The last write at shutdown is not tried again. Unless it takes effect what it held is
  lost, and the program's count of dropped deltas does not go up by it (`Worker.Finish`,
  and `LastWriteRun` for runs that come to it).
- A price table may have free input and paid cache reads, and then a cached prompt costs
  more than was reserved (`FreeInputDoesNot`); `DominatesIff` is the exact condition.
- A login that has checked its password before a password change or a disabling commits can
  still open a session after it (`LoginOutrunsPasswordChange`). Of the logins under way
  exactly those can that have checked it and are not answered yet (`LocksOutIff`); one that
  comes later needs the new password, or is refused (`LaterLoginsAreChecked`).
  `SessionsEndForGood` says what does end, and `DisabledCannotRefresh` that such a session
  cannot be refreshed by a disabled person.
- Sweeping expired tokens can trip over the table's foreign key, and the login fails:
  exactly when a rotation gave a token a shorter life than the one it replaced, as after the
  refresh lifetime is lowered (`SweepFailsIff`, `ShorterLifetimeLocksOut`). Otherwise it
  never does (`SweepNeverStopsALogin`).
- `decodeCursor` takes text `encodeCursor` never writes: numbers with a plus sign, leading
  zeros or a minus sign before zero, and ids that are not in lower-case canonical form, but
  no other (`WrittenIff`, `DecodesMoreThanWritten`). A position whose time does not fit 64
  bits of nanoseconds does not come back (`RoundTripIff`).
- Period quotas with times finer than a microsecond are rounded by the database, look
  different when sent again, and are rewritten and audited each time (`RepeatIsQuietIff`).
- `equalJSON` is not reflexive on numbers the rational parser refuses
  (`EqualJsonIsEquivalence`, `ByMeaningNotByText`).
- An event survives encoding and decoding exactly when no line of its data ends in a
  carriage return and every line fits (`EventRoundTrip.RoundTripIff`).
- The decoder does not take a bare carriage return for a line end, as the standard does
  (`LinesAgreeIff` says when that shows, `ReturnIsData` what becomes of it).
- Nor does it skip a leading byte order mark: it loses the first line to it
  (`MarkHidesFirstLine`, `MarkIsRead`). That shows exactly if the line is data, or a type
  that matters, of a block that a blank line ends (`MarkAgreesIff`).
- Login attempts in flight together get past the throttle's five failures: four more than
  there are in flight at once, and no more (`GuessesAreBounded`, `AsManyAsThat`). A sweep
  can forgive a key for an attempt that reports late (`LateAttemptIsForgiven`); in order it
  never shows (`SweepingDoesNotShow`).

## Model

| member | source | states |
|---|---|---|
| QuotaSafety.NoDoubleCounting | internal/usecases/quota/enforcer.go:159-302 | in every state of every run, with any failures: durable is settled less unflushed less dropped plus replayed, and a live counter is at most settled plus outstanding plus leaked plus replayed |
| Amounts.FieldByField | internal/core/domains/quota.go:90-117 | accounting one field at a time loses nothing: amounts are equal, added, subtracted and raised just as their fields are |
| QuotaSafety.DurableWithinSettled | internal/usecases/quota/enforcer.go:159-302 | with truthful store errors no durable counter exceeds what was settled, nor a live one what was settled, is outstanding or leaked |
| QuotaSafety.AmbiguousWriteCountsTwice | internal/usecases/quota/flusher.go:144-148 | a write committed but reported failed is retried: everything pending is added twice, and nothing more was settled |
| QuotaRuns.ReplayedIff | internal/usecases/quota/flusher.go:114-152 | in every run: usage of a counter has been written twice iff an earlier write that was committed and reported as failed held some |
| QuotaRuns.DurableAheadIff | internal/usecases/quota/flusher.go:114-152 | in every run: a durable counter is ahead of what was settled iff more of it was written twice than is on its way or was dropped, and only after such a write |
| QuotaRuns.LeakedIff | internal/usecases/quota/enforcer.go:159-302 | in every run: something of a counter was left behind iff some earlier step lost a reply after the script took it, failed to correct a request that used less than reserved, abandoned a request holding it, or failed over to a larger value |
| QuotaRuns.RightIffNoneLeaked | internal/usecases/quota/enforcer.go:159-302 | a counter that is never lost equals settled plus outstanding iff no such step was taken so far, and is otherwise ahead |
| QuotaRuns.AmbiguousWriteRun | internal/usecases/quota/flusher.go:144-148 | for any usage there is a run from the start that leaves its durable counter at twice that |
| QuotaRuns.FailedCorrectionRun | internal/usecases/quota/enforcer.go:289-294 | for any reservation and any smaller usage there is a run from the start that leaves the live counter ahead by their difference |
| QuotaRuns.AbandonedRun | internal/usecases/quota/enforcer.go:136-198 | for any reservation there is a run from the start that leaves all of it on the live counter: its holder died |
| QuotaRuns.LastWriteRun | internal/usecases/quota/flusher.go:83-89 | for any usage there is a run from the start that settles it and never makes it durable: the last write at shutdown failed |
| QuotaSafety.StepKeepsAccounts | internal/usecases/quota/enforcer.go:159-302 | each of the sixteen kinds of step keeps both accounting equations |
| QuotaSafety.StepStaysSound | internal/usecases/quota/enforcer.go:159-302 | each step keeps every snapshot anyone holds at or below the durable counter, all ledgers non-negative and the keys of each task's limits distinct |
| QuotaExactness.ExactConservation | internal/usecases/quota/enforcer.go:200-302 | as long as a counter is not lost or replaced by a smaller value, none of its writes is replayed, and no request whose correction fails used more than it reserved: live equals durable plus unflushed plus dropped plus outstanding plus left behind, hence settled plus outstanding iff nothing was left behind, and seeding any snapshot held, however stale, changes nothing. Lost replies, failed corrections, dying processes and flushers, failed writes and losses of other keys are all allowed |
| QuotaExactness.CapsHold | internal/ports/quota.go:94-115 | in such runs a blocking cap that the counter starts within is never passed, by the live counter or by settled plus outstanding plus left-behind spend, over any number of replicas |
| QuotaCaps.CapsHoldAtPrices | internal/usecases/quota/enforcer.go:136-344 | with every request reserved at its estimate's dearest price and settled at what it used, a blocking cap bounds the live counter and all that is spent, reserved or left behind: that no request costs more than reserved is derived |
| QuotaCaps.CapAfterLoss | internal/usecases/quota/enforcer.go:200-270 | after any history, once a lost counter is seeded again and until it is lost again: all spent, reserved and left behind is at most the larger of cap and snapshot, plus what was written between the snapshot's read and its seed, plus what was then on its way, dropped, outstanding or left behind |
| QuotaCaps.CapPassedRun | internal/usecases/quota/enforcer.go:159-195 | for any blocking cap there is a run in which twice the cap is reserved, its counter lost in between |
| QuotaExactness.OneResyncHeals | internal/usecases/quota/enforcer.go:200-270 | after any history of losses, a rehydration that reads and seeds a window while it is quiescent leaves live, durable and settled equal |
| QuotaExactness.StepStaysExact | internal/usecases/quota/enforcer.go:200-302 | each of the sixteen kinds of step that does not lose the counter keeps the exact equation, and a counter not live has nothing outstanding or left behind |
| QuotaExactness.FailedCorrectionLeaks | internal/usecases/quota/enforcer.go:289-294 | a failed correction leaves the live counters where they are and just the positive part of reserved minus actual behind |
| QuotaExactness.LostReplyLeaves | internal/usecases/quota/enforcer.go:159-163 | when the reply to the reserve script is lost, the counters move by exactly what the ledger says was left behind |
| LiveCounters.ReserveIsAllOrNothing | internal/adapters/repositories/redisquota/reserve.lua:20-71 | a reservation is taken iff every window has a counter and no blocking cap would be passed (filling it exactly is allowed); then requests, tokens and cost of every window move by just the amount, otherwise none does |
| LiveCounters.FirstBreach | internal/adapters/repositories/redisquota/reserve.lua:43-49 | the breach reported is the first limit crossed, with its true figures |
| LiveCounters.EveryBreach | internal/adapters/repositories/redisquota/reserve.lua:38-70 | what is reported crossed is exactly the limits of that sort that the cost would take past their caps, each with what was spent |
| LiveCounters.EveryMissing | internal/adapters/repositories/redisquota/reserve.lua:23-34 | the windows reported missing are exactly those of the limits without a counter |
| LiveCounters.SeedsConverge | internal/adapters/repositories/redisquota/seed.lua:1-26 | seeding is idempotent, order-independent between replicas, and lowers no field |
| LiveCounters.Store.Reserve | internal/adapters/repositories/redisquota/reserve.lua:20-71 | the script's loops answer and leave behind exactly what the specification says, for limits with distinct keys |
| LiveCounters.Store.Seed | internal/adapters/repositories/redisquota/seed.lua:13-26 | the script raises each counter to the snapshot, field by field |
| LiveCounters.Store.Adjust | internal/adapters/repositories/redisquota/adjust.lua:1-19 | the script adds the delta to the counters that exist and recreates none |
| ReserveReply.ReplyParses | internal/adapters/repositories/redisquota/counters.go:111-181 | what the script replies, its windows counted from one, is read back as the very answer it meant, for all limits and counters |
| ReserveReply.ReplyIs | internal/adapters/repositories/redisquota/reserve.lua:16-71 | the reply to the letter: the positions, counted from one, of all windows without a counter if there are any; or else the position, spending and cap of a blocking limit that would be passed; or else those of soft ones |
| ReserveReply.ParseReserve | internal/adapters/repositories/redisquota/counters.go:118-181 | the decoding loops compute the specified parse; a reply is read iff its status is known, every index is a window's, and its breaches are whole: one if blocked |
| ReserveReply.BreachesAre | internal/adapters/repositories/redisquota/counters.go:135-153 | breaches are read three values at a time: a window by its position, what was spent, the cap |
| DurableCounters.UsageCounters.AddDeltas | internal/adapters/repositories/usage_counters.go:49-82 | a batch is added whole or not at all: not if a statement fails or the commit is rolled back, and whole if the commit takes effect, even if it then reports an error |
| DurableCounters.UsageCounters.Get | internal/adapters/repositories/usage_counters.go:30-47 | a counter never written reads as zero |
| DurableCounters.TotalOfBook | internal/usecases/quota/flusher.go:123-126 | a batch listing each pending entry once adds up, key by key, to what was pending |
| Flushing.Worker.Add | internal/usecases/quota/flusher.go:61-74 | a delta goes to the back of the queue, or is dropped and counted if the flusher is closed or its buffer full; everything added stays traced |
| Flushing.Worker.Merge | internal/usecases/quota/flusher.go:100-112 | a delta joins its counter's pending sum, or is dropped and counted if the map is full and has no entry for it |
| Flushing.Worker.Batch | internal/usecases/quota/flusher.go:123-139 | the batch holds each pending entry once, in strictly ascending key order |
| Flushing.Worker.Write | internal/usecases/quota/flusher.go:118-152 | a write that succeeds adds exactly what was pending to the table and empties it; one that fails changes nothing here, and in the table only if its commit took effect |
| Flushing.Worker.Finish | internal/usecases/quota/flusher.go:83-89 | after the channel is drained one write is made, and succeeds iff nothing is pending or no statement fails and the commit is confirmed; what was pending lands iff it took effect and is lost otherwise; the dropped count goes up by just the deltas that draining found no room for; everything ever added has landed, was shed or was lost |
| Flushing.OfferIsTraced | internal/usecases/quota/flusher.go:61-74 | added usage equals landed plus backlog plus shed plus lost, per counter and field, across an Add |
| Flushing.AbsorbIsTraced | internal/usecases/quota/flusher.go:100-112 | the same across a merge |
| LockOrder.BeforeIsAStrictTotalOrder | internal/usecases/quota/flusher.go:130-139 | the sort key orders counters strictly and totally |
| LockOrder.BeforeIsByName | internal/usecases/quota/flusher.go:130-139 | the key compares tenants, then the kinds' names as strings, then starts |
| LockOrder.NoDeadlock | internal/adapters/repositories/usage_counters.go:49-82 | replicas that lock their rows in ascending order never reach a cyclic wait, in any interleaving |
| LockOrder.SomeoneCanMove | internal/adapters/repositories/usage_counters.go:49-82 | as long as a transaction is open, some replica can take its next row or has all it wants and can end |
| LockOrder.UnsortedBatchesDeadlock | internal/usecases/quota/flusher.go:128-129 | without the order two replicas come, step by step, to wait for each other over any two rows |
| Enforcing.Enforcer.Reserve | internal/usecases/quota/enforcer.go:136-198 | the limits are the cached or loaded ones that apply, the amount one request, the estimate's tokens and its cost at the dearest price; with a limit and a price, a grant or refusal is exactly the script's verdict on counters that were all there, with all windows or none taken, after at most three rounds; anything else is the outage policy's answer, given with healthy stores only if a counter was missing in all three rounds; a request without limits is let through, one without a price and a failed load are for the policy. A grant takes from one counter of that tenant's for each quota that governs the instant, for its window, and leaves no more cost on it than a quota that blocks allows |
| Enforcing.Enforcer.Rehydrate | internal/usecases/quota/enforcer.go:200-214 | the live counters are raised to the rows read, each as the table held it when it was read, zero where it had none, and none above what the table holds by the end |
| Enforcing.SeedingStaysBelow | internal/usecases/quota/enforcer.go:200-214 | seeding lowers no live counter and raises none above the durable one, however the table grew while it was read |
| Enforcing.Enforcer.Reconcile | internal/usecases/quota/enforcer.go:279-321 | a request nobody served settles at nothing, one whose target reported nothing at what was reserved, and any other at one request, all tokens reported, and each kind of them priced at the target's rate in force when it was reserved, or free with no price; the counters of the reservation's own windows, as the correction finds them, move field by field by that minus what was reserved iff it runs, whatever is reported of it, and no other; what was settled is queued at the flusher once per window, in order, as far as there is room, and the rest counted as dropped |
| Enforcing.Enforcer.TenantLimits | internal/usecases/quota/enforcer.go:368-397 | an entry younger than the lifetime is served from the cache, a failed refresh serves the stale one, a good one replaces it and is dated now |
| Enforcing.SettlesWithinReservation | internal/usecases/quota/enforcer.go:304-344 | however a request ends, its requests, tokens and cost settle within its reservation, if what the provider reports is within the estimate and cache reads cost no more than fresh input |
| Enforcing.SeedsAreSnapshot | internal/usecases/quota/enforcer.go:204-213 | seeds read from a table that stands still amount to its snapshot of the windows |
| EnforcerSteps.RunDecides | internal/usecases/quota/enforcer.go:159-197 | in every run of the protocol, whatever interleaves or fails, the step that decides a request satisfies the enforcer's contract: what each of at most three script calls found, what is left behind and the verdict fit together, and without a failed call of its own a request is given up only after three rounds that found counters missing |
| EnforcerSteps.UndisturbedReserve | internal/usecases/quota/enforcer.go:159-195 | a request nobody disturbs asks, reads, seeds and asks again, and ends granted or refused, never unavailable: as the script answers on its counters with the missing ones raised to the table's |
| EnforcerSteps.RehydrationIsItsSteps | internal/usecases/quota/enforcer.go:200-214 | the protocol's reads and seed, uninterrupted, raise the live counters as the enforcer's method does |
| EnforcerSteps.SettlementIsItsSteps | internal/usecases/quota/enforcer.go:279-302 | the protocol's correction and handing over, uninterrupted, leave live counters and flusher as the enforcer's method does |
| Pricing.PartsCostNoMore | internal/core/domains/money.go:42-44 | flooring two parts never comes to more than flooring the whole |
| Pricing.CostIsNearlyExact | internal/core/domains/pricing.go:12-17 | usage costs at most its exact price over all four kinds of token, and falls short of it by less than four nanodollars |
| Pricing.OneKindCosts | internal/core/domains/money.go:42-44 | usage of one kind alone costs its rate per million tokens, rounded down |
| Pricing.CostIsItsParts | internal/core/domains/pricing.go:12-17 | usage costs what its four kinds cost apart, and reasoning nothing more |
| Pricing.NegativesMirror | internal/core/domains/money.go:42-44 | negative amounts are rounded toward zero as positive ones are |
| Pricing.Estimate | internal/core/domains/estimate.go:38-51 | the estimate is non-negative, counts no cache use, takes the text at four bytes a token rounded up, four tokens a message and a thousand a media part, and the output asked for, or the default, times the choices |
| Pricing.Report | internal/adapters/outbound/providers/oaicompat/chunck.go:45-73 | fresh input is never negative, and fresh plus cached input is the larger of prompt and cached; in all it is that and the completion |
| Pricing.DominatesIff | internal/core/domains/pricing.go:12-39 | the estimate's cost bounds the cost of all usage within it iff pricing its whole input as cache reads costs no more than as fresh input |
| Pricing.CheckedRatesDominate | internal/core/domains/pricing.go:23-39 | rates that pass validation dominate unless input is free and cache reads are not |
| Pricing.RefusedRates | internal/core/domains/pricing.go:23-39 | rates are refused iff one is negative, or paid input is dearer from the cache |
| Pricing.FreeInputDoesNot | internal/core/domains/pricing.go:35-38 | rates with free input and paid cache reads pass validation and cost more than reserved |
| Pricing.Table.RatesAt | internal/adapters/outbound/pricing/table.go:43-63 | the backward scan finds the last block in force, and the target's rates in it or none |
| Pricing.Table.constructor | internal/adapters/outbound/pricing/table.go:25-41 | the table is the configured blocks, sorted by date |
| Pricing.LatestIsInForce | internal/adapters/outbound/pricing/table.go:25-63 | whatever order the blocks are configured in, the one used is that with the latest date not after the time asked |
| Pricing.DearestOf | internal/usecases/quota/enforcer.go:326-344 | the dearest cost bounds that of every priced target and is one of them, and a request is priced iff some target is |
| Pricing.PriceEstimate | internal/usecases/quota/enforcer.go:326-344 | the loop computes it |
| Pricing.ReservationCoversCost | internal/usecases/quota/enforcer.go:304-344 | whichever target of the ladder served, usage within the estimate costs at most what was reserved |
| Calendar.DateOf | internal/core/domains/quota.go:29-34 | every day number has a valid Gregorian date that counts back to it |
| Calendar.WholeYear | internal/core/domains/quota.go:29-34 | twelve months make a year of 365 or, in leap years, 366 days |
| Calendar.MonthIsUnique | internal/core/domains/quota.go:32-34 | a day lies between the starts of exactly one month and the next |
| Calendar.KnownDays | internal/core/domains/quota.go:29-34 | the day count agrees with known dates around century and leap years |
| Calendar.KnownMonths | internal/core/domains/quota.go:32-34 | every month is as long as the list of their lengths says, February by the Gregorian rule |
| ClockWindows.WindowsPartitionTime | internal/core/domains/quota.go:19-39 | for minute, hour, day and month: a window holds its instant, holds exactly the instants that have the same window, and abuts the next and the last |
| ClockWindows.WindowsInSeconds | internal/core/domains/quota.go:19-39 | minutes, hours and days are of 60, 3600 and 86400 seconds and start at whole multiples of them; a month runs from the first of the date's month to the first of the next |
| ClockWindows.WindowAtIsStable | internal/core/domains/quota.go:46-62 | the window a quota governs, a period's included, holds the instant, and every instant in it gets the same |
| ClockWindows.ApplicableLimits | internal/core/domains/quota.go:80-88 | the limits correspond one to one, in order, to the quotas that govern the instant: every calendar quota, and a period quota iff from <= at < until; each has the tenant, the quota's kind and cap and its window's start in whole seconds, and blocks unless the quota explicitly allows |
| ClockWindows.KeysDiffer | internal/core/domains/quota.go:80-88 | with one quota per kind, no two applicable limits share a counter |
| ClockWindows.TenantsApart | internal/adapters/repositories/redisquota/counters.go:73-74 | limits of two tenants never share a counter |
| EventDecoder.Decoder.ReadLine | internal/core/sse/parse.go:137-171 | over every buffer size, the line found, or the refusal, is the one an unbuffered reader of the whole input finds |
| EventStream.TooLongMeansTooLong | internal/core/sse/parse.go:137-171 | a line is refused as too long only if its raw bytes exceed the limit, and at a clean end always then |
| EventStream.BufferDoesNotShow | internal/core/sse/parse.go:137-171 | a cleanly ending stream decodes the same through every buffer |
| EventStream.EndsAsItsSource | internal/core/sse/parse.go:54-109 | a source that breaks is reported as it broke, and one that ends as a clean or an unexpected end, unless a line was too long first |
| EventDecoder.Decoder.NextEvent | internal/core/sse/parse.go:54-109 | each call takes the next event off the stream's meaning, or reports its error now and ever after |
| EventDecoder.Decoder.Drain | internal/core/sse/parse.go:203-212 | draining yields exactly the stream's meaning |
| EventRoundTrip.WriteEvent | internal/core/sse/parse.go:114-135 | an event is written in wire format, or refused iff its type has a line terminator |
| EventRoundTrip.OnTheWire | internal/core/sse/parse.go:114-135 | the wire format to the letter, for one line of data |
| EventRoundTrip.Segments | internal/core/sse/parse.go:126-130 | data is cut at its newlines into pieces that join back to it |
| EventRoundTrip.CutDecodes | internal/core/sse/parse.go:54-135 | decoding any byte prefix of encoded events yields exactly those wholly contained, then a clean end iff the cut is on an event boundary and an unexpected one otherwise |
| EventRoundTrip.RoundTripIff | internal/core/sse/parse.go:54-135 | an event comes back unchanged iff no line of its data ends in a carriage return and no line exceeds the limit |
| EventRoundTrip.ReceivedIsSent | internal/core/sse/parse.go:185-188 | trimming line ends loses nothing iff no line of the data ends in a carriage return |
| EventStandard.DecoderRefinesStandard | internal/core/sse/parse.go:54-201 | if the input has no bare carriage return and no byte order mark first, the events are the standard's, cut short only by an overlong line |
| EventStandard.LinesAgreeIff | internal/core/sse/parse.go:137-188 | for every input, both cut the same first line iff it has no bare carriage return |
| EventStandard.ReturnIsData | internal/core/sse/parse.go:173-188 | two data fields separated by a bare carriage return are two lines of data to the standard, and one line that holds the second field as text to the decoder |
| EventStandard.MarkIsRead | internal/core/sse/parse.go:54-109 | a stream of which, behind a mark, the standard dispatches the first event and the decoder none |
| EventStandard.MarkHidesFirstLine | internal/core/sse/parse.go:54-109 | behind a mark the decoder gives the standard's events of all but the first line, cut short only by an overlong line, for every input without bare carriage returns |
| EventStandard.MarkAgreesIff | internal/core/sse/parse.go:54-109 | with no line too long the decoder gives the standard's events of a stream with a mark iff its first line does not matter: it ends before no blank line, or is neither data nor a type, or is a type that is the default, is replaced, or has no data |
| EventStandard.FieldsAgree | internal/core/sse/parse.go:190-201 | a line is split into the field name and value the standard gives |
| Dispatch.Run | internal/usecases/dispatch/dispatch.go:25-55 | attempts are a prefix of the ladder, truly told, as long as failures let the next be tried; the status is set, and exhausted iff nothing was committed; an exhausted outcome has no first-token time; a served stream is delivered after one status line |
| Dispatch.ClimbedTells | internal/usecases/dispatch/dispatch.go:35-55 | of the attempts recorded all but the last failed retryably; one short of the ladder's end did not; the ladder serves iff the last has no failure |
| Dispatch.ToldTruly | internal/usecases/dispatch/dispatch.go:149-193 | an attempt names its target and has no failure iff it sent an event; a failure has the provider's status, message and kind if it gave any, the kind of a context that ended before all else, and is retryable iff the context had not ended and the provider does not object |
| Dispatch.TryTarget | internal/usecases/dispatch/dispatch.go:60-98 | a target that yields no event leaves outcome and client untouched; one that does is recorded, committed and relayed |
| Dispatch.Relay | internal/usecases/dispatch/dispatch.go:102-147 | what is sent, the usage kept and the status are those of the events read up to the terminal one, the end, or the first write or flush the client does not stay for; an event whose flush alone fails has been written |
| Dispatch.ClientSeesAPrefix | internal/usecases/dispatch/dispatch.go:110-146 | the client sees a prefix of the serving stream less unwanted usage-only events, all of it and at most an error after it if the stream broke off |
| Dispatch.WhoStaysGetsAll | internal/usecases/dispatch/dispatch.go:102-147 | a client that stays gets the whole stream up to its terminal event, and the request is done; without one it is done if the stream ended cleanly, abandoned if its context ended, and otherwise truncated, with an error event last |
| Dispatch.WantedIs | internal/usecases/dispatch/dispatch.go:115-124 | what is relayed is the events in order, each once, less those that carry just usage nobody asked for |
| Dispatch.ReportedIs | internal/usecases/dispatch/dispatch.go:111-113 | the usage kept is that of the last event to report any |
| Dispatch.FailureOf | internal/usecases/dispatch/dispatch.go:149-193 | the failure recorded is marked retryable iff the ladder goes on after it |
| Dispatch.Climbed | internal/usecases/dispatch/dispatch.go:35-50 | the number of leading targets that failed retryably, and no more |
| Dispatch.ClientStream.Commit | internal/adapters/inbound/proxyapi/client_stream.go:32-61 | the status line goes out at most once |
| Dispatch.ClientStream.Send | internal/adapters/inbound/proxyapi/client_stream.go:63-75 | an event is written, on a stream only after the commit, iff the client is there for the write; it succeeds iff the client, on a stream, is there for the flush too |
| Dispatch.ClientStream.SendError | internal/adapters/inbound/proxyapi/client_stream.go:77-95 | an error event is written after the commit, and only then, iff the client is there for the write, and succeeds iff it is there for the flush |
| Completions.Handler.Completions | internal/adapters/inbound/proxyapi/handler.go:72-164 | every request gets exactly one status line, first: 401, 413, 400, 403, 400 or 500 by the first gate it does not pass, 429 or 503 if the quota refuses or cannot be checked, 200 if a target served, and otherwise what its last attempt calls for; the decision is the enforcer's on that request; what it reserved for a dispatched request is settled once, at what became of it, and nothing is settled for the rest; a decision is recorded iff the quota was asked and answered |
| Completions.ExhaustedStatus | internal/adapters/inbound/proxyapi/errors.go:16-45 | an exhausted ladder is answered 503 iff it was empty; otherwise with the code and message of the last target tried iff that is 400, 404, 413 or 422, and else with 502 and a message of its own |
| Completions.Serve | internal/adapters/inbound/proxyapi/handler.go:150-160 | the outcome settled is that of the dispatch: who served, what of its stream was relayed, and the usage it reported |
| Completions.UnservedIsReleased | internal/adapters/inbound/proxyapi/handler.go:143-148 | a request no target served gives back all that was reserved for it, and nothing is handed to the flusher |
| Completions.ServedWithinReservation | internal/usecases/quota/enforcer.go:304-344 | whoever of the ladder serves, what is settled is within what the enforcer reserved for that request, if the usage is within the estimate at rates where cached input costs no more than fresh |
| Completions.ServedStatusLines | internal/adapters/inbound/proxyapi/client_stream.go:32-95 | a relayed stream has one status line in all |
| Sessions.OneLiveTokenPerLogin | internal/usecases/admin/users.go:221-307 | in every reachable state at most one token of a login's chain is unrevoked |
| Sessions.RotatedAtMostOnce | internal/adapters/repositories/admin_users.go:188-211 | once a token is replaced its replacement never changes, revoked tokens stay revoked and rows keep owner and login |
| Sessions.OneRefreshWins | internal/usecases/admin/users.go:221-261 | of all refreshes ever presenting one token, however interleaved, at most one is handed a session |
| Sessions.ReadInTime | internal/usecases/admin/users.go:221-238 | in every run: a refresh that is handed a session, or rotates, once read its token before it expired, unused, with its owner enabled |
| Sessions.SessionsEndForGood | internal/adapters/repositories/admin_users.go:92-152 | after a reuse, a disabling or a password change no token from before, nor a descendant of one, works again |
| Sessions.DeadForGood | internal/adapters/repositories/admin_users.go:188-211 | in every run: once a token is revoked or swept no refresh that presents it is handed a session any more |
| Sessions.LogoutEnds | internal/usecases/admin/users.go:263-284 | in every run: nor after its logout |
| Sessions.LoginOutrunsPasswordChange | internal/usecases/admin/users.go:202-217 | a login verified before the change may be handed a session that works after it |
| Sessions.LocksOutIff | internal/adapters/repositories/admin_users.go:92-152 | in every run: after a new password or a disabling, some continuation hands a session that works to a login of the user's that was already there iff that login had been verified and was not over |
| Sessions.LaterLoginsAreChecked | internal/usecases/admin/users.go:202-214 | in every run: a login verified after a new password has presented a newer one than the old, and none of a disabled person is verified |
| Sessions.DisabledCannotRefresh | internal/usecases/admin/users.go:232-255 | once a person is disabled no refresh hands out a session of theirs, whatever it had read |
| Sessions.RefreshSession | internal/usecases/admin/users.go:221-261 | a refresh is handed a session iff its read was answered and found the token there, unused and in time and its owner enabled, a session could be issued, and the token was still live when a confirmed commit rotated it into a new row of the same user and login; a token found used, when read or when rotated, is refused and ends every session of its owner unless that cut is rolled back. The sequence takes the protocol's steps, whatever others have made of the tables by the time each transaction runs |
| Sessions.StepStaysSound | internal/adapters/repositories/admin_users.go:154-239 | every transaction and read keeps the chain, ownership and hand-out invariants |
| SessionTokens.AdminUserRepo.RotateAdminSession | internal/adapters/repositories/admin_users.go:188-211 | only a live token is rotated; a conflict or a rollback leaves the table as it was, and a rotation whose commit is only reported as failed is made |
| SessionTokens.AdminUserRepo.StartAdminSession | internal/adapters/repositories/admin_users.go:154-173 | just the user's rows that expired before now go, and a row that begins a chain is added, or nothing changes if the store or the foreign key refuses |
| SessionTokens.AdminUserRepo.DisableAdminUser | internal/adapters/repositories/admin_users.go:92-122 | disabling ends every session with it, and twice is once |
| SessionTokens.AdminUserRepo.SetAdminUserPassword | internal/adapters/repositories/admin_users.go:124-152 | a new password ends every session with it |
| SessionTokens.SweepKeepsReferences | db/migrations/0010_admin_users.sql:33-44 | no sweep trips over the foreign key as long as no rotation shortened a token's life |
| SessionTokens.SweepFailsIff | db/gen/admin_users.sql.go:90-93 | a sweep fails iff a token that stays was replaced by one that goes |
| SessionTokens.ShorterLifetimeLocksOut | internal/adapters/repositories/admin_users.go:154-162 | after the refresh lifetime is lowered a login can fail |
| Sessions.SweepNeverStopsALogin | internal/adapters/repositories/admin_users.go:154-173 | in runs where no refresh shortens a token's life, every login whose transaction commits opens a session |
| Logins.Users.Login | internal/usecases/admin/users.go:181-218 | with any other attempts at work between its steps: a key blocked when checked is refused and not counted again; other bad credentials, as the lookup finds the user, are refused alike and counted; a failed lookup is held against nobody; good credentials clear the count and take the session protocol's steps. A session, which is a row of the user's that begins a chain, is handed out iff the key was not blocked, the password is the user's and not too long, the user is enabled, and reading, issuing and opening all work |
| AuditPaging.EveryRowOnce | internal/adapters/repositories/observability.go:322-368 | pages followed to the end run strictly downwards by time and then id as one list, hold only the tenant's rows from since up to until, and every such row that was there at the first read, whatever is inserted meanwhile |
| AuditPaging.NoEmptyRequest | internal/ports/store.go:146-149 | no page after the first is empty: a page that is exactly full says it is the last |
| AuditPaging.FixedTableIsListed | internal/adapters/repositories/observability.go:322-368 | on a table nobody writes to, the rows on the pages so far and those still to come are the matching rows, in order; there are no more pages than rows, or one; so paging ends, with all of them |
| AuditPaging.GoesOn | internal/ports/store.go:146-149 | a page that names a next position can always be followed by the next page |
| AuditPaging.CursorsCarryPaging | internal/adapters/inbound/adminapi/cursor.go:26-55 | with every time within 64 bits of nanoseconds, paging by the text of cursors is paging by position: the same list with every row of the first read that is the tenant's and in range |
| AuditPaging.AuditLog.ListAudit | internal/adapters/repositories/observability.go:322-368 | a query is refused iff it names no tenant, its range is empty, or its limit is negative or over 500; a page holds at most the limit, or 50, of the tenant's rows from since up to until strictly below the cursor, newest first, and every other such row is below where the next page starts |
| AuditPaging.MatchingIsFilter | db/gen/audit_log.sql.go:228-239 | the query returns exactly the tenant's rows from since up to until that are strictly below the cursor by time and then id, newest first |
| Cursor.RoundTripIff | internal/adapters/inbound/adminapi/cursor.go:26-55 | a position comes back through its cursor iff its time fits 64 bits of nanoseconds, and is otherwise whole turns of 2^64 off, for every 16-byte id |
| Cursor.TextIs | internal/adapters/inbound/adminapi/cursor.go:26-29 | the text: version, decimal number with its sign, and the dashed id in lower-case hexadecimal, lowest digits last |
| Cursor.WrittenIff | internal/adapters/inbound/adminapi/cursor.go:26-55 | for every text: it is written for some position iff it decodes, its number has no plus sign, leading zero or minus sign before zero, and its id is in lower-case canonical form |
| Cursor.DecodesMoreThanWritten | internal/adapters/inbound/adminapi/cursor.go:31-55 | a plus sign or a zero before any written time that is not negative makes a text that decodes to the same position and is never written |
| Cursor.HexIs | internal/adapters/inbound/adminapi/cursor.go:49-52 | capital hexadecimal digits are read as small ones are, and no other character is a digit |
| Cursor.IntParses | internal/adapters/inbound/adminapi/cursor.go:45-48 | a formatted integer parses back iff it fits, and holds no dot |
| Throttle.Throttle.IsBlocked | internal/usecases/admin/throttle.go:28-34 | in whatever order attempts report: a key is blocked iff its trailing run of failures, since the last success or sweep of it, with gaps of at most the window, has five members and the last is strictly younger than the window |
| Throttle.FiveBlock | internal/usecases/admin/throttle.go:8-34 | five failures in a row with gaps of at most fifteen minutes block a key until fifteen minutes after the last, and not at that instant |
| Throttle.FourDoNot | internal/usecases/admin/throttle.go:8-56 | four failures since a success do not, and one that comes later than that after the last starts over |
| Throttle.Throttle.Fail | internal/usecases/admin/throttle.go:36-50 | a failure is added to the key's run; every 256th, and any that leaves more than 4096 keys, sweeps, so that the map holds no more than 4096 unless none has run out |
| Throttle.Throttle.Succeed | internal/usecases/admin/throttle.go:52-56 | a success forgets the key and no other: it is blocked at no time until it fails again |
| Throttle.Throttle.Sweep | internal/usecases/admin/throttle.go:58-64 | sweeping forgets just the keys whose last failure is further back than the window |
| Throttle.RunIsLongest | internal/usecases/admin/throttle.go:36-44 | the count kept is the longest trailing run without a gap over the window |
| Throttle.SweepingDoesNotShow | internal/usecases/admin/throttle.go:36-64 | as long as attempts report in the order of their times, who is blocked does not depend on what was swept |
| Throttle.LateAttemptIsForgiven | internal/usecases/admin/throttle.go:46-49 | a sweep lets an attempt that began before it through where the failures alone would block it |
| Guessing.GuessesAreBounded | internal/usecases/admin/throttle.go:28-50 | in every run within one window and without a success: wrong passwords counted against a key and attempts on it in flight are together at most four plus the most ever in flight together |
| Guessing.AsManyAsThat | internal/usecases/admin/throttle.go:28-50 | for every number in flight together there is a run that comes to four more than that |
| JsonEquality.EqualIffSameMeaning | internal/usecases/admin/tenants.go:258-297 | two values are equal iff all their numbers can be read and they denote the same structure of rationals, sequences and maps |
| JsonEquality.EqualJsonIsEquivalence | internal/usecases/admin/tenants.go:258-297 | equality is symmetric and transitive, and reflexive iff every number can be read |
| JsonEquality.SameIffLowest | internal/usecases/admin/tenants.go:285-292 | comparing scaled integers is comparing them in lowest terms |
| JsonEquality.NumbersReadIff | internal/usecases/admin/tenants.go:285-292 | a number is equal to itself iff its exponent fits 64 bits and its scale, unless it is zero, is at most a million either way |
| JsonEquality.ByMeaningNotByText | internal/usecases/admin/tenants.go:247-249 | 1e3 equals 1000, and an unreadable number does not equal itself |
| QuotaSets.ValidQuotaSet | internal/usecases/admin/quotas.go:151-172 | a set is accepted iff no kind repeats, no cap is negative, and periods and only they have a beginning and a later end; it comes back in the enum's order with the same quotas, blocking where no action was stated |
| QuotaSets.RankIsPlace | internal/core/domains/admin.go:157-164 | a kind's rank is its place among minute, hour, day, month, period |
| QuotaSets.SameQuotaSet | internal/usecases/admin/quotas.go:174-189 | the answer is yes iff the two sets describe the same limits |
| QuotaSets.QuotaTable.ReplaceQuotas | internal/usecases/admin/quotas.go:41-81 | it succeeds iff the set is valid, no statement fails, every row to be written is accepted and the commit is confirmed, and then the table holds for each kind asked for the cap, action and times asked for, to the microsecond, and no other kind; if the commit takes effect on a set that differs, the table holds exactly the requested set in rank order and one audit row was added, and otherwise both are as they were |
| QuotaSets.AcceptedIff | db/migrations/0002_policy.sql:27-32 | a valid quota's row is refused iff its period begins and ends within one microsecond |
| QuotaSets.RepeatIsQuietIff | internal/usecases/admin/quotas.go:60-62 | asking again for a stored set changes nothing iff its times are whole microseconds |
| QuotaSets.ListIsTable | db/gen/quotas.sql.go:136-138 | the rows are listed in the enum's order, each once |

## Left out

- Integers are unbounded; the code's int64 arithmetic is right as long as rate times tokens,
  and each counter, stays within 64 bits (within 53 in the Lua scripts, whose numbers are
  floats). Where wrapping is the point, in the cursor, it is modelled.
- Reading, writing, clocks, tickers, contexts and deadlines: results and times are
  parameters or arbitrary choices, and a deadline is a failure that may come at any step.
  Logging and metrics.
- A panic during dispatch, after which the deferred reconcile releases the whole
  reservation.
- The values modelled are not aliased: that the decoder hands out copies, and that a line it
  returns is overwritten by the next read, is not captured.
- Redis expiry: a counter past its window's end and grace is a lost key. Two period windows
  that start in the same second would share a live counter; a tenant has one period quota at
  a time.
- Row locks beyond their order, and every other Postgres isolation question: a transaction
  is one step.
- The durable store behind a resync pass over all cached tenants: the pass is one
  rehydration task per tenant in the protocol, without the loop over the cache.
- argon2, SHA-256, JWTs, base32 and base64: hashes are injective, fresh ids distinct, base64
  invertible. A login's password check is an action that only the current password enables.
- Cursor.Decode: takes ids in the canonical form only; the UUID parser also takes them in
  braces, as URNs and without dashes, none of which is ever written.
- JsonEquality.EqualJson: is on decoded values; decoding itself, where text after the first
  value is ignored, is not modelled.
- EventStandard.DecoderRefinesStandard: compares bytes; where input is not UTF-8 the
  standard replaces what the decoder passes on. Fields id and retry, which both ignore as
  far as type and data go, are not kept.
- QuotaSets: unknown window kinds and actions cannot be expressed; PutQuota and DeleteQuota
  are the same transaction with one row.
- Dispatch.Connection: a client that fails one write or flush fails all later ones. A write
  that fails has put nothing on the wire.
- What other requests of the same replica offer the flusher during a settlement; the
  protocol interleaves them.
- That each replica has a throttle of its own.
- Dispatch: times of attempts other than that an exhausted outcome has no first-token time.
- The buffered decision sink (like the flusher, and simpler), routing and resolving targets,
  tenant and credential administration, reports, configuration, bootstrap, the HTTP servers
  and the command line.
