/** The enforcer of one replica: it reserves before a request is served and settles after.
    Between any two calls to a store other replicas may have changed what it holds: the
    live counters in any way, the durable ones only upwards. The protocol over all
    replicas is in QuotaProtocol. */
module Enforcing {
  import opened Basics
  import opened Amounts
  import opened LiveCounters
  import opened DurableCounters
  import opened Flushing
  import opened Metering
  import opened ClockWindows
  import Dispatch
  import Pricing
  import QuotaProtocol

  /** What a reservation is sized from. */
  datatype QuotaRequest = QuotaRequest(
    tenant: string, at: int, prompt: Pricing.PromptSize, maxOutput: int, choices: int, targets: seq<string>)

  /** What one request took, from which counters, and when. */
  datatype Reservation = Reservation(keys: seq<CounterKey>, at: int, amount: QuotaUsage)

  datatype Decision = Granted(reservation: Reservation) | Unlimited | Refused(breach: Breach) | Unavailable

  /** A tenant's quotas, and when they were read. */
  datatype Cached = Cached(tenant: nat, quotas: seq<Quota>, fetched: int)

  function Nothing(): QuotaUsage { QuotaUsage(0, 0, 0) }

  // ---------------------------------------------------------------- snapshots

  function RowOf(rows: Book, k: CounterKey): QuotaUsage {
    if k in rows then rows[k] else Nothing()
  }

  /** What the table says of these windows. */
  function SnapshotOf(rows: Book, windows: seq<CounterKey>): (r: Book)
    ensures forall k :: k in r <==> k in windows
    ensures forall k :: k in r ==> r[k] == RowOf(rows, k)
  {
    map k | k in windows :: RowOf(rows, k)
  }

  /** The seeds read window by window, each from the table as it then was. */
  ghost predicate Read(seeds: seq<WindowUsage>, windows: seq<CounterKey>, tables: seq<Book>) {
    && |seeds| == |windows| == |tables|
    && forall i :: 0 <= i < |seeds| ==> seeds[i] == WindowUsage(windows[i], RowOf(tables[i], windows[i]))
  }

  /** No seed is above the durable counter it was read from. */
  ghost predicate NotAbove(seeds: seq<WindowUsage>, rows: Book) {
    forall i, f :: 0 <= i < |seeds| ==> Val(seeds[i].usage, f) <= Of(rows, seeds[i].key, f)
  }

  lemma GrowthKeepsBelow(seeds: seq<WindowUsage>, was: Book, rows: Book)
    requires NotAbove(seeds, was) && Grew(was, rows)
    ensures NotAbove(seeds, rows)
  {
    forall i, f | 0 <= i < |seeds| ensures Val(seeds[i].usage, f) <= Of(rows, seeds[i].key, f) {
      assert Of(was, seeds[i].key, f) <= Of(rows, seeds[i].key, f);
    }
  }

  lemma OneMoreRead(seeds: seq<WindowUsage>, windows: seq<CounterKey>, tables: seq<Book>, rows: Book)
    requires |seeds| < |windows| && Read(seeds, windows[..|seeds|], tables) && NotAbove(seeds, rows)
    ensures var k := windows[|seeds|];
            && Read(seeds + [WindowUsage(k, RowOf(rows, k))], windows[..|seeds| + 1], tables + [rows])
            && NotAbove(seeds + [WindowUsage(k, RowOf(rows, k))], rows)
  {
  }

  /** The tables seen on the way from one to another, none ever lower than the last. */
  ghost predicate GrewThrough(was: Book, tables: seq<Book>, rows: Book) {
    Grew(was, rows) && forall i :: 0 <= i < |tables| ==> Grew(was, tables[i]) && Grew(tables[i], rows)
  }

  lemma NothingRead(rows: Book)
    ensures Read([], [], []) && NotAbove([], rows) && GrewThrough(rows, [], rows)
  {
  }

  lemma GrewOn(was: Book, tables: seq<Book>, rows: Book, next: Book)
    requires GrewThrough(was, tables, rows) && Grew(rows, next)
    ensures GrewThrough(was, tables, next) && GrewThrough(was, tables + [next], next)
  {
    GrewFurther(was, rows, next);
    forall i | 0 <= i < |tables| ensures Grew(tables[i], next) {
      GrewFurther(tables[i], rows, next);
    }
  }

  lemma GrewAtAll(was: Book, tables: seq<Book>, rows: Book)
    requires GrewThrough(was, tables, rows)
    ensures Grew(was, rows)
  {
  }

  lemma GrewFurther(a: Book, b: Book, c: Book)
    requires Grew(a, b) && Grew(b, c)
    ensures Grew(a, c)
  {
    forall k, f ensures Of(a, k, f) <= Of(c, k, f) {
      assert Of(a, k, f) <= Of(b, k, f);
    }
  }

  /** Read from a table that stands still they are its snapshot. */
  lemma {:induction false} SeedsAreSnapshot(
      rows: Book, windows: seq<CounterKey>, seeds: seq<WindowUsage>, tables: seq<Book>)
    requires Read(seeds, windows, tables) && forall i :: 0 <= i < |tables| ==> tables[i] == rows
    ensures Snapshot(seeds) == SnapshotOf(rows, windows)
  {
    if seeds != [] {
      var n := |seeds| - 1;
      SeedsAreSnapshot(rows, windows[..n], seeds[..n], tables[..n]);
      assert windows == windows[..n] + [windows[n]];
      var u := seeds[n].usage;
      assert u.Max(u) == u;
    }
  }

  /** However they were read, seeding them puts no live counter above where it or the
      durable one already was. */
  lemma {:induction false} SeedingStaysBelow(live: Book, seeds: seq<WindowUsage>, rows: Book, k: CounterKey, f: Field)
    requires NotAbove(seeds, rows) && k in Raise(live, Snapshot(seeds))
    ensures k in live ==> Of(Raise(live, Snapshot(seeds)), k, f) >= Of(live, k, f)
    ensures || (k in live && Of(Raise(live, Snapshot(seeds)), k, f) == Of(live, k, f))
            || Of(Raise(live, Snapshot(seeds)), k, f) <= Of(rows, k, f)
  {
    SnapshotStaysBelow(seeds, rows, k, f);
  }

  lemma {:induction false} SnapshotStaysBelow(seeds: seq<WindowUsage>, rows: Book, k: CounterKey, f: Field)
    requires NotAbove(seeds, rows)
    ensures k in Snapshot(seeds) ==> Val(Snapshot(seeds)[k], f) <= Of(rows, k, f)
  {
    if seeds != [] {
      var n := |seeds| - 1;
      assert NotAbove(seeds[..n], rows);
      SnapshotStaysBelow(seeds[..n], rows, k, f);
      assert Val(seeds[n].usage, f) <= Of(rows, seeds[n].key, f);
    }
  }

  /** The flusher after it was offered the same usage for each window in turn. */
  function OfferedAll(fl: Flusher, keys: seq<CounterKey>, u: QuotaUsage): Flusher {
    if keys == [] then fl
    else OfferedAll(fl, keys[..|keys| - 1], u).Offer(WindowUsage(keys[|keys| - 1], u))
  }

  lemma BumpByNothing(live: Book, keys: seq<CounterKey>)
    ensures Bump(live, keys, Nothing()) == live
  {
  }

  // ---------------------------------------------------------------- verdicts

  ghost predicate AllMissing(seen: seq<Book>, limits: seq<Limit>, amount: QuotaUsage) {
    forall i :: 0 <= i < |seen| ==> AnswerTo(seen[i], limits, amount).Missing?
  }

  /** At most three runs of the script, each but the last finding a counter missing. */
  ghost predicate Rounds(seen: seq<Book>, limits: seq<Limit>, amount: QuotaUsage) {
    |seen| <= QuotaProtocol.MAX_SEED_ROUNDS && (seen == [] || AllMissing(seen[..|seen| - 1], limits, amount))
  }

  lemma OneMoreRound(seen: seq<Book>, saw: Book, limits: seq<Limit>, amount: QuotaUsage)
    requires |seen| < QuotaProtocol.MAX_SEED_ROUNDS && AllMissing(seen, limits, amount)
    ensures Rounds(seen + [saw], limits, amount)
    ensures AnswerTo(saw, limits, amount).Missing? ==> AllMissing(seen + [saw], limits, amount)
  {
    assert (seen + [saw])[..|seen|] == seen;
  }

  /** What a decision says, seen being what each run of the script found and left being what
      the counters hold after: only what the script granted is granted, all windows at once,
      against counters that were all there, and only what it refused is refused, nothing
      having been taken. Anything else is a quota that could not be checked: with the stores
      healthy, because the counters were lost again after each of three rehydrations. */
  ghost predicate Decides(d: Decision, seen: seq<Book>, left: Book, limits: seq<Limit>, at: int, amount: QuotaUsage,
                          healthy: bool) {
    && Rounds(seen, limits, amount)
    && (d.Granted? ==>
          && d.reservation == Reservation(Keys(limits), at, amount) && seen != []
          && AnswerTo(seen[|seen| - 1], limits, amount).Reserved?
          && left == AfterReserve(seen[|seen| - 1], limits, amount))
    && (d.Refused? ==>
          && seen != [] && AnswerTo(seen[|seen| - 1], limits, amount) == Blocked(d.breach)
          && left == seen[|seen| - 1])
    && (healthy && !d.Granted? && !d.Refused? ==>
          && |seen| == QuotaProtocol.MAX_SEED_ROUNDS && AnswerTo(seen[|seen| - 1], limits, amount).Missing?)
  }

  /** The quotas a request is held to: fresh from the store, or else as last read. */
  function QuotasFor(cache: map<string, Cached>, tenant: string, now: int, ttl: int, load: Option<Cached>)
    : Option<Cached>
  {
    if tenant in cache && now - cache[tenant].fetched < ttl then Some(cache[tenant])
    else if load.Some? then Some(load.value.(fetched := now))
    else if tenant in cache then Some(cache[tenant])
    else None
  }

  lemma AmountIs(req: QuotaRequest, blocks: seq<Pricing.Block>, defaultMaxOutput: nat)
    ensures var e := Pricing.Estimate(req.prompt, req.maxOutput, req.choices, defaultMaxOutput);
            var d := Pricing.DearestOf(blocks, req.at, req.targets, e);
            AmountOf(req, blocks, defaultMaxOutput) == if d.priced then Some(QuotaUsage(1, e.Total(), d.cost)) else None
  {
  }

  /** What a request reserves, if it can be priced. */
  function AmountOf(req: QuotaRequest, blocks: seq<Pricing.Block>, defaultMaxOutput: nat): Option<QuotaUsage> {
    var e := Pricing.Estimate(req.prompt, req.maxOutput, req.choices, defaultMaxOutput);
    var d := Pricing.DearestOf(blocks, req.at, req.targets, e);
    if d.priced then Some(QuotaUsage(1, e.Total(), d.cost)) else None
  }

  lemma {:induction false} NoPrices(at: int, targets: seq<string>, e: TokenUsage)
    ensures Pricing.DearestOf([], at, targets, e) == Pricing.Dearest(0, false)
  {
    if targets != [] {
      NoPrices(at, targets[..|targets| - 1], e);
    }
  }

  // ---------------------------------------------------------------- what a request is settled at

  /** As much of how a request ended as it is settled by. */
  datatype Outcome = Outcome(status: Dispatch.Status, chosen: string, usage: TokenUsage)

  /** What a request used: nothing if no target served it, the whole reservation if the
      target reported nothing, and otherwise what it reported, priced where it can be. */
  function ActualUsage(res: Reservation, o: Outcome, blocks: seq<Pricing.Block>): QuotaUsage {
    if o.status == Dispatch.Exhausted || o.chosen == "" then Nothing()
    else if o.usage.Total() == 0 then res.amount
    else QuotaUsage(1, o.usage.Total(), Pricing.ServedCost(blocks, res.at, o.chosen, o.usage))
  }

  /** The usage is within the estimate, at rates where cached input costs no more than fresh. */
  ghost predicate UsesWithin(o: Outcome, req: QuotaRequest, blocks: seq<Pricing.Block>, defaultMaxOutput: nat) {
    var e := Pricing.Estimate(req.prompt, req.maxOutput, req.choices, defaultMaxOutput);
    && Pricing.Within(o.usage, e)
    && forall r :: Pricing.RateOf(blocks, req.at, o.chosen) == Some(r) ==>
         r.NonNegative() && Pricing.Price(r.cacheRead, e.input) <= Pricing.Price(r.input, e.input)
  }

  /** However the request ends, it settles within its reservation: on tokens and cost when
      what the target reports is within the estimate and its rates favour cached input. */
  lemma SettlesWithinReservation(req: QuotaRequest, keys: seq<CounterKey>, o: Outcome, blocks: seq<Pricing.Block>,
                                 defaultMaxOutput: nat)
    requires o.chosen == "" || o.chosen in req.targets
    requires AmountOf(req, blocks, defaultMaxOutput).Some? && UsesWithin(o, req, blocks, defaultMaxOutput)
    ensures var reserved := AmountOf(req, blocks, defaultMaxOutput).value;
            var actual := ActualUsage(Reservation(keys, req.at, reserved), o, blocks);
            actual.requests <= reserved.requests && actual.tokens <= reserved.tokens && actual.cost <= reserved.cost
  {
    if o.chosen != "" {
      var e := Pricing.Estimate(req.prompt, req.maxOutput, req.choices, defaultMaxOutput);
      var i :| 0 <= i < |req.targets| && req.targets[i] == o.chosen;
      Pricing.ReservationCoversCost(blocks, req.at, req.targets, e, i, o.usage);
    }
  }

  // ---------------------------------------------------------------- the enforcer

  lemma Decided(d: Decision, seen: seq<Book>, left: Book, limits: seq<Limit>, at: int, amount: QuotaUsage,
                healthy: bool)
    requires Rounds(seen, limits, amount) && seen != []
    requires d.Granted? ==>
        && d.reservation == Reservation(Keys(limits), at, amount)
        && AnswerTo(seen[|seen| - 1], limits, amount).Reserved?
        && left == AfterReserve(seen[|seen| - 1], limits, amount)
    requires d.Refused? ==> AnswerTo(seen[|seen| - 1], limits, amount) == Blocked(d.breach) && left == seen[|seen| - 1]
    requires healthy && !d.Granted? && !d.Refused? ==>
        |seen| == QuotaProtocol.MAX_SEED_ROUNDS && AnswerTo(seen[|seen| - 1], limits, amount).Missing?
    ensures Decides(d, seen, left, limits, at, amount, healthy)
  {
  }

  lemma GrantedKeys(d: Decision, seen: seq<Book>, left: Book, limits: seq<Limit>, at: int, amount: QuotaUsage,
                    healthy: bool)
    requires Decides(d, seen, left, limits, at, amount, healthy)
    ensures d.Granted? ==>
        && d.reservation == Reservation(Keys(limits), at, amount) && seen != []
        && left == Bump(seen[|seen| - 1], d.reservation.keys, d.reservation.amount)
  {
  }

  /** The counters taken from are those of the quotas that govern the instant, one each, in
      order: of that tenant, for the quota's window, and unless the quota just warns now
      holding no more cost than it allows. */
  ghost predicate WithinQuotas(keys: seq<CounterKey>, governing: seq<nat>, c: Cached, at: int, left: Book) {
    && |governing| == |keys|
    && (forall n: nat :: n in governing <==>
          && n < |c.quotas|
          && (c.quotas[n].kind == Period ==>
                && c.quotas[n].from.Some? && c.quotas[n].until.Some?
                && c.quotas[n].from.value <= at < c.quotas[n].until.value))
    && forall i :: 0 <= i < |keys| ==>
         && governing[i] in governing && keys[i] in left
         && var q := c.quotas[governing[i]];
         && keys[i].tenant == c.tenant && keys[i].kind == q.kind
         && keys[i].start == (if q.kind == Period then q.from.value else ClockWindow(q.kind, at).start) / 1_000_000_000
         && (q.onExceed != Allow ==> left[keys[i]].cost <= q.maxCost)
  }

  lemma GrantedWithin(d: Decision, seen: seq<Book>, left: Book, limits: seq<Limit>, governing: seq<nat>, c: Cached,
                      at: int, amount: QuotaUsage, healthy: bool)
    requires Decides(d, seen, left, limits, at, amount, healthy) && d.Granted?
    requires |governing| == |limits|
    requires forall n: nat :: n in governing <==>
        && n < |c.quotas|
        && (c.quotas[n].kind == Period ==>
              && c.quotas[n].from.Some? && c.quotas[n].until.Some?
              && c.quotas[n].from.value <= at < c.quotas[n].until.value)
    requires forall i :: 0 <= i < |limits| ==>
        && governing[i] in governing
        && var q := c.quotas[governing[i]];
        && limits[i].key.tenant == c.tenant && limits[i].key.kind == q.kind
        && limits[i].key.start
           == (if q.kind == Period then q.from.value else ClockWindow(q.kind, at).start) / 1_000_000_000
        && limits[i].maxCost == q.maxCost
        && (limits[i].block <==> q.onExceed == Block || q.onExceed == Unstated)
    ensures WithinQuotas(d.reservation.keys, governing, c, at, left)
  {
    hide ClockWindow, AnswerTo, AfterReserve;
    ReserveIsAllOrNothing(seen[|seen| - 1], limits, amount);
    forall i | 0 <= i < |limits|
      ensures limits[i].key in left && (limits[i].block ==> left[limits[i].key].cost <= limits[i].maxCost)
    {
      assert limits[i].key in left.Keys;
    }
  }

  /** The limits a request is held to; none if its quotas could not be read. */
  function Wanted(tl: Option<Cached>, req: QuotaRequest): seq<Limit> {
    if tl.Some? then Applicable(tl.value.tenant, tl.value.quotas, req.at) else []
  }

  /** What becomes of a request: without a limit it is let through; when its quotas cannot be
      read or it has no price the outage policy has its say; and otherwise the script. */
  ghost predicate Responds(d: Decision, seen: seq<Book>, left: Book, tl: Option<Cached>, req: QuotaRequest,
                           amount: Option<QuotaUsage>, healthy: bool, policy: Decision) {
    if tl.None? then d == policy && seen == []
    else if Wanted(tl, req) == [] then d == Unlimited && seen == []
    else if amount.None? then d == policy && seen == []
    else
      && Decides(d, seen, left, Wanted(tl, req), req.at, amount.value, healthy) && seen != []
      && (!d.Granted? && !d.Refused? ==> d == policy)
  }

  class Enforcer {
    const counters: Store
    const durable: UsageCounters
    const flusher: Worker
    const pricing: Option<Pricing.Table>
    const failClosed: bool
    const ttl: int
    const defaultMaxOutput: nat
    var unavailable: nat
    var unpriced: nat
    var degraded: bool
    var resyncWanted: bool
    var limits: map<string, Cached>

    constructor (counters: Store, durable: UsageCounters, flusher: Worker, pricing: Option<Pricing.Table>,
                 failClosed: bool, ttl: int, defaultMaxOutput: int)
      ensures this.counters == counters && this.durable == durable && this.flusher == flusher
      ensures this.pricing == pricing && this.failClosed == failClosed
      ensures this.ttl == (if ttl <= 0 then 10 else ttl)
      ensures this.defaultMaxOutput == if defaultMaxOutput <= 0 then 4096 else defaultMaxOutput
      ensures unavailable == unpriced == 0 && !degraded && !resyncWanted && limits == map[]
    {
      this.counters, this.durable, this.flusher, this.pricing := counters, durable, flusher, pricing;
      this.failClosed := failClosed;
      this.ttl := if ttl <= 0 then 10 else ttl;
      this.defaultMaxOutput := if defaultMaxOutput <= 0 then 4096 else defaultMaxOutput;
      unavailable, unpriced, degraded, resyncWanted, limits := 0, 0, false, false, map[];
    }

    /** With no price table nothing has a price. */
    function Prices(): seq<Pricing.Block>
      reads if pricing.Some? then {pricing.value} else {}
    {
      if pricing.Some? then pricing.value.blocks else []
    }

    /** What the outage policy makes of a quota that cannot be checked. */
    function Policy(): Decision {
      if failClosed then Unavailable else Unlimited
    }

    /** Anything that other replicas, lost keys and failovers may do to the stores. */
    method Others()
      modifies counters, durable
      ensures Grew(old(durable.rows), durable.rows)
    {
      var hashes, more: Book := *, *;
      counters.hashes := hashes;
      if forall k | k in more :: more[k].NonNegative() {
        durable.rows := Amounts.Merge(durable.rows, more);
      }
    }

    /** Reads a snapshot of each window, then raises the live counters to them. Each window
        is read from the table as it is by then, and nothing that is read is ever too much. */
    method Rehydrate(windows: seq<CounterKey>, healthy: bool)
      returns (ok: bool, ghost seen: Book, ghost seeds: seq<WindowUsage>, ghost tables: seq<Book>)
      modifies counters, durable
      ensures healthy ==> ok
      ensures GrewThrough(old(durable.rows), tables, durable.rows)
      ensures ok ==>
          && Read(seeds, windows, tables) && NotAbove(seeds, durable.rows)
          && counters.hashes == Raise(seen, Snapshot(seeds))
    {
      hide Snapshot, Read, NotAbove, Grew, GrewThrough;
      seen := counters.hashes;
      var read: seq<WindowUsage> := [];
      seeds, tables := [], [];
      NothingRead(durable.rows);
      assert windows[..0] == [];
      for i := 0 to |windows|
        invariant seeds == read && |read| == i
        invariant Read(read, windows[..i], tables) && NotAbove(read, durable.rows)
        invariant GrewThrough(old(durable.rows), tables, durable.rows)
      {
        ghost var rows := durable.rows;
        Others();
        GrowthKeepsBelow(read, rows, durable.rows);
        GrewOn(old(durable.rows), tables, rows, durable.rows);
        var answered: bool := *;
        if !answered && !healthy {
          return false, seen, seeds, tables;
        }
        var u := durable.Get(windows[i]);
        OneMoreRead(read, windows, tables, durable.rows);
        read := read + [WindowUsage(windows[i], u)];
        seeds, tables := read, tables + [durable.rows];
      }
      assert windows[..|windows|] == windows;
      ghost var rows := durable.rows;
      Others();
      GrowthKeepsBelow(read, rows, durable.rows);
      GrewOn(old(durable.rows), tables, rows, durable.rows);
      seen := counters.hashes;
      var ran, answered: bool := *, *;
      if ran || healthy {
        counters.Seed(read);
      }
      ok := healthy || (ran && answered);
    }

    /** A tenant's quotas through a short-lived cache: a failed refresh serves the stale
        entry, as old limits beat none. */
    method TenantLimits(tenant: string, now: int, load: Option<Cached>) returns (r: Option<Cached>)
      modifies this`limits
      ensures r == QuotasFor(old(limits), tenant, now, ttl, load)
      ensures limits == if r.Some? then old(limits)[tenant := r.value] else old(limits)
      ensures var known := tenant in old(limits);
              var current := known && now - old(limits)[tenant].fetched < ttl;
              && (current ==> r == Some(old(limits)[tenant]))
              && (!current && load.Some? ==> r == Some(Cached(load.value.tenant, load.value.quotas, now)))
              && (!current && load.None? && known ==> r == Some(old(limits)[tenant]))
              && (!known && load.None? ==> r == None)
    {
      if tenant in limits && now - limits[tenant].fetched < ttl {
        return Some(limits[tenant]);
      }
      if load.None? {
        return if tenant in limits then Some(limits[tenant]) else None;
      }
      var fresh' := load.value.(fetched := now);
      limits := limits[tenant := fresh'];
      return Some(fresh');
    }

    /** The estimate, priced at the dearest target the ladder may pick. */
    method PriceEstimate(req: QuotaRequest, e: TokenUsage) returns (d: Pricing.Dearest)
      ensures d == Pricing.DearestOf(Prices(), req.at, req.targets, e)
    {
      if pricing.None? {
        NoPrices(req.at, req.targets, e);
        return Pricing.Dearest(0, false);
      }
      d := Pricing.PriceEstimate(pricing.value, req.at, req.targets, e);
    }

    /** Reserves the worst a request can cost, before it is served. */
    method Reserve(req: QuotaRequest, now: int, load: Option<Cached>, healthy: bool)
      returns (d: Decision, ghost seen: seq<Book>, ghost governing: seq<nat>)
      requires forall t :: t in limits ==> KindsDiffer(limits[t].quotas)
      requires load.Some? ==> KindsDiffer(load.value.quotas)
      modifies this`limits, this`unavailable, this`unpriced, this`degraded, this`resyncWanted, counters, durable
      ensures forall t :: t in limits ==> KindsDiffer(limits[t].quotas)
      ensures Grew(old(durable.rows), durable.rows)
      ensures var tl := QuotasFor(old(limits), req.tenant, now, ttl, load);
              var amount := AmountOf(req, old(Prices()), defaultMaxOutput);
              && limits == (if tl.Some? then old(limits)[req.tenant := tl.value] else old(limits))
              && Responds(d, seen, counters.hashes, tl, req, amount, healthy, Policy())
              && unpriced == old(unpriced) + (if Wanted(tl, req) != [] && amount.None? then 1 else 0)
              && unavailable == old(unavailable) + (if tl.None? || (seen != [] && d == Policy()) then 1 else 0)
      ensures seen == [] ==> !d.Granted? && !d.Refused?
      ensures d.Granted? ==>
          && Distinct(d.reservation.keys) && seen != []
          && counters.hashes == Bump(seen[|seen| - 1], d.reservation.keys, d.reservation.amount)
      ensures d.Granted? || d.Refused? ==> !degraded && (old(degraded) ==> resyncWanted)
      ensures unavailable > old(unavailable) ==> degraded
      ensures |seen| <= 3 && (healthy && seen != [] && !d.Granted? && !d.Refused? ==> |seen| == 3)
      ensures d.Granted? ==>
          && var e := Pricing.Estimate(req.prompt, req.maxOutput, req.choices, defaultMaxOutput);
          && d.reservation.at == req.at && d.reservation.amount.requests == 1
          && d.reservation.amount.tokens == e.input + e.output + e.cacheRead + e.cacheWrite
          && d.reservation.amount.cost == Pricing.DearestOf(old(Prices()), req.at, req.targets, e).cost
      ensures d.Granted? ==>
          && req.tenant in limits
          && WithinQuotas(d.reservation.keys, governing, limits[req.tenant], req.at, counters.hashes)
    {
      hide AmountOf, Decides, Applicable, KindsDiffer, Grew, GrewThrough, Distinct, WithinQuotas;
      hide Pricing.DearestOf, Pricing.Estimate;
      NothingRead(durable.rows);
      GrewAtAll(durable.rows, [], durable.rows);
      seen, governing := [], [];
      var tl := TenantLimits(req.tenant, now, load);
      if tl.None? {
        d := Failed();
        return;
      }
      d, seen, governing := ReserveFor(tl.value, req, healthy);
    }

    /** The same, the tenant's quotas being known. */
    method ReserveFor(c: Cached, req: QuotaRequest, healthy: bool)
      returns (d: Decision, ghost seen: seq<Book>, ghost governing: seq<nat>)
      requires KindsDiffer(c.quotas)
      modifies this`unavailable, this`unpriced, this`degraded, this`resyncWanted, counters, durable
      ensures Grew(old(durable.rows), durable.rows)
      ensures var amount := AmountOf(req, old(Prices()), defaultMaxOutput);
              && Responds(d, seen, counters.hashes, Some(c), req, amount, healthy, Policy())
              && unpriced == old(unpriced) + (if Wanted(Some(c), req) != [] && amount.None? then 1 else 0)
              && unavailable == old(unavailable) + if seen != [] && d == Policy() then 1 else 0
      ensures seen == [] ==> !d.Granted? && !d.Refused?
      ensures d.Granted? ==>
          && Distinct(d.reservation.keys) && seen != []
          && counters.hashes == Bump(seen[|seen| - 1], d.reservation.keys, d.reservation.amount)
      ensures d.Granted? || d.Refused? ==> !degraded && (old(degraded) ==> resyncWanted)
      ensures unavailable > old(unavailable) ==> degraded
      ensures |seen| <= 3 && (healthy && seen != [] && !d.Granted? && !d.Refused? ==> |seen| == 3)
      ensures d.Granted? ==>
          && var e := Pricing.Estimate(req.prompt, req.maxOutput, req.choices, defaultMaxOutput);
          && d.reservation.at == req.at && d.reservation.amount.requests == 1
          && d.reservation.amount.tokens == e.input + e.output + e.cacheRead + e.cacheWrite
          && d.reservation.amount.cost == Pricing.DearestOf(old(Prices()), req.at, req.targets, e).cost
      ensures d.Granted? ==> WithinQuotas(d.reservation.keys, governing, c, req.at, counters.hashes)
    {
      hide AmountOf, Decides, Applicable, KindsDiffer, Grew, GrewThrough, Distinct, WithinQuotas;
      hide Pricing.DearestOf, Pricing.Estimate, ClockWindow;
      NothingRead(durable.rows);
      GrewAtAll(durable.rows, [], durable.rows);
      seen, governing := [], [];
      var wanted;
      wanted, governing := ClockWindows.ApplicableLimits(c.tenant, c.quotas, req.at);
      if wanted == [] {
        return Unlimited, seen, governing;
      }
      KeysDiffer(c.tenant, c.quotas, req.at);
      var e := Pricing.Estimate(req.prompt, req.maxOutput, req.choices, defaultMaxOutput);
      var price := PriceEstimate(req, e);
      AmountIs(req, Prices(), defaultMaxOutput);
      if !price.priced {
        unpriced := unpriced + 1;
        return Policy(), seen, governing;
      }
      var amount := QuotaUsage(1, e.Total(), price.cost);
      d, seen := ReserveAmount(wanted, req.at, amount, healthy);
      GrantedKeys(d, seen, counters.hashes, wanted, req.at, amount, healthy);
      if d.Granted? {
        GrantedWithin(d, seen, counters.hashes, wanted, governing, c, req.at, amount, healthy);
      }
    }

    /** Three rounds at most of asking the script and rehydrating what it finds missing. */
    method ReserveAmount(limits: seq<Limit>, at: int, amount: QuotaUsage, healthy: bool)
      returns (d: Decision, ghost seen: seq<Book>)
      requires Distinct(Keys(limits))
      modifies this`unavailable, this`degraded, this`resyncWanted, counters, durable
      ensures Grew(old(durable.rows), durable.rows)
      ensures Decides(d, seen, counters.hashes, limits, at, amount, healthy) && seen != []
      ensures |seen| <= 3 && (healthy && !d.Granted? && !d.Refused? ==> |seen| == 3)
      ensures !d.Granted? && !d.Refused? ==> d == Policy() && unavailable == old(unavailable) + 1 && degraded
      ensures d.Granted? || d.Refused? ==>
          unavailable == old(unavailable) && !degraded && (old(degraded) ==> resyncWanted)
    {
      seen := [];
      assert AllMissing(seen, limits, amount) && Rounds(seen, limits, amount);
      NothingRead(durable.rows);
      GrewAtAll(durable.rows, [], durable.rows);
      hide *;
      for round := 0 to QuotaProtocol.MAX_SEED_ROUNDS
        invariant unavailable == old(unavailable) && degraded == old(degraded) && resyncWanted == old(resyncWanted)
        invariant |seen| == round && AllMissing(seen, limits, amount) && Rounds(seen, limits, amount)
        invariant seen != [] ==> AnswerTo(seen[|seen| - 1], limits, amount).Missing?
        invariant Grew(old(durable.rows), durable.rows)
      {
        ghost var rows := durable.rows;
        var verdict, saw := Ask(limits, at, amount, healthy);
        GrewFurther(old(durable.rows), rows, durable.rows);
        OneMoreRound(seen, saw, limits, amount);
        seen := seen + [saw];
        if verdict.Some? {
          Decided(verdict.value, seen, counters.hashes, limits, at, amount, healthy);
          return verdict.value, seen;
        }
      }
      d := Failed();
      Decided(d, seen, counters.hashes, limits, at, amount, healthy);
    }

    /** One round: the script's verdict, or none if it found counters missing and they have
        now been seeded. */
    method Ask(limits: seq<Limit>, at: int, amount: QuotaUsage, healthy: bool)
      returns (d: Option<Decision>, ghost saw: Book)
      requires Distinct(Keys(limits))
      modifies this`unavailable, this`degraded, this`resyncWanted, counters, durable
      ensures Grew(old(durable.rows), durable.rows)
      ensures d.None? ==>
          && AnswerTo(saw, limits, amount).Missing?
          && unavailable == old(unavailable) && degraded == old(degraded) && resyncWanted == old(resyncWanted)
      ensures d.Some? && d.value.Granted? ==>
          && d.value.reservation == Reservation(Keys(limits), at, amount)
          && AnswerTo(saw, limits, amount).Reserved? && counters.hashes == AfterReserve(saw, limits, amount)
      ensures d.Some? && d.value.Refused? ==>
          AnswerTo(saw, limits, amount) == Blocked(d.value.breach) && counters.hashes == saw
      ensures d.Some? && (d.value.Granted? || d.value.Refused?) ==>
          && unavailable == old(unavailable) && !degraded && (resyncWanted <==> old(resyncWanted) || old(degraded))
      ensures d.Some? && !d.value.Granted? && !d.value.Refused? ==>
          && !healthy && unavailable == old(unavailable) + 1 && degraded && d.value == Policy()
    {
      hide AnswerTo, Grew, Snapshot, Distinct;
      Others();
      saw := counters.hashes;
      var answered, ran: bool := *, *;
      if !answered && !healthy {
        if ran {  // the reply was lost, but not its effect
          var _ := counters.Reserve(limits, amount);
        }
        var failure := Failed();
        return Some(failure), saw;
      }
      var answer := counters.Reserve(limits, amount);
      match answer {
        case Missing(windows) =>
          ghost var rows := durable.rows;
          var ok, _, _, tables := Rehydrate(windows, healthy);
          GrewAtAll(rows, tables, durable.rows);
          GrewFurther(old(durable.rows), rows, durable.rows);
          if ok {
            return None, saw;
          }
          var failure := Failed();
          return Some(failure), saw;
        case Blocked(breach) =>
          Recovered();
          return Some(Refused(breach)), saw;
        case Reserved(_) =>
          Recovered();
          return Some(Granted(Reservation(Keys(limits), at, amount))), saw;
      }
    }

    method Failed() returns (d: Decision)
      modifies this`unavailable, this`degraded
      ensures unavailable == old(unavailable) + 1 && degraded && d == Policy()
      ensures failClosed ==> d == Unavailable
      ensures !failClosed ==> d == Unlimited
    {
      unavailable := unavailable + 1;
      degraded := true;
      d := if failClosed then Unavailable else Unlimited;
    }

    /** The store answers again: what it holds may be behind, so a resync is asked for. */
    method Recovered()
      modifies this`degraded, this`resyncWanted
      ensures !degraded && resyncWanted == (old(resyncWanted) || old(degraded))
    {
      if degraded {
        degraded := false;
        resyncWanted := true;
      }
    }

    /** Corrects the live counters, as the correction finds them, to what the request used,
        and hands that to the flusher, once per window; nothing is handed over for a request
        that used nothing. A correction that did run may be reported as failed: nobody asks. */
    method Reconcile(res: Reservation, outcome: Outcome, ran: bool)
      returns (ghost met: Book, ghost actual: QuotaUsage)
      requires Distinct(res.keys) && flusher.Valid()
      modifies counters, durable, flusher
      ensures flusher.Valid() && Grew(old(durable.rows), durable.rows)
      ensures actual == ActualUsage(res, outcome, old(Prices()))
      ensures && counters.hashes == (if res.keys != [] && ran then Bump(met, res.keys, actual.Sub(res.amount)) else met)
              && flusher.Value() == if res.keys == [] || actual.IsZero() then old(flusher.Value())
                                    else OfferedAll(old(flusher.Value()), res.keys, actual)
      ensures outcome.status == Dispatch.Exhausted || outcome.chosen == "" ==> actual == QuotaUsage(0, 0, 0)
      ensures outcome.status != Dispatch.Exhausted && outcome.chosen != "" ==>
          var u := outcome.usage;
          var rate := Pricing.RateOf(old(Prices()), res.at, outcome.chosen);
          if u.input + u.output + u.cacheRead + u.cacheWrite == 0 then actual == res.amount
          else
            && actual.requests == 1 && actual.tokens == u.input + u.output + u.cacheRead + u.cacheWrite
            && (rate.None? ==> actual.cost == 0)
            && (rate.Some? ==>
                  actual.cost == Pricing.Price(rate.value.input, u.input) + Pricing.Price(rate.value.output, u.output)
                               + Pricing.Price(rate.value.cacheRead, u.cacheRead)
                               + Pricing.Price(rate.value.cacheWrite, u.cacheWrite))
      ensures counters.hashes.Keys == met.Keys
      ensures forall k :: k in met ==>
          var was, now := met[k], counters.hashes[k];
          if ran && k in res.keys then
            && now.requests - was.requests == actual.requests - res.amount.requests
            && now.tokens - was.tokens == actual.tokens - res.amount.tokens
            && now.cost - was.cost == actual.cost - res.amount.cost
          else now == was
      ensures var used := actual.requests != 0 || actual.tokens != 0 || actual.cost != 0;
              var room := if old(flusher.closed) || |old(flusher.queue)| >= flusher.capacity then 0
                          else flusher.capacity - |old(flusher.queue)|;
              var offered := if used then |res.keys| else 0;
              var taken := if offered <= room then offered else room;
              && |flusher.queue| == |old(flusher.queue)| + taken && old(flusher.queue) <= flusher.queue
              && (forall i :: 0 <= i < taken ==>
                    flusher.queue[|old(flusher.queue)| + i] == WindowUsage(res.keys[i], actual))
              && flusher.dropped == old(flusher.dropped) + offered - taken
    {
      hide Grew, Worker.Value, Worker.Valid, Flusher.Offer, Bump, OfferedAll;
      Others();
      met, actual := counters.hashes, ActualUsage(res, outcome, Prices());
      if res.keys == [] {
        return;
      }
      var settled := ActualUsage(res, outcome, Prices());
      var delta := settled.Sub(res.amount);
      if delta.IsZero() {
        BumpByNothing(counters.hashes, res.keys);
      } else if ran {
        counters.Adjust(res.keys, delta);
      }
      if settled.IsZero() {
        return;
      }
      Hand(res.keys, settled);
    }

    /** The usage is offered for each window in turn; what there is no room for is dropped. */
    method Hand(keys: seq<CounterKey>, u: QuotaUsage)
      requires flusher.Valid()
      modifies flusher
      ensures flusher.Valid() && flusher.Value() == OfferedAll(old(flusher.Value()), keys, u)
      ensures var room := if old(flusher.closed) || |old(flusher.queue)| >= flusher.capacity then 0
                          else flusher.capacity - |old(flusher.queue)|;
              var taken := if |keys| <= room then |keys| else room;
              && |flusher.queue| == |old(flusher.queue)| + taken && old(flusher.queue) <= flusher.queue
              && (forall i :: 0 <= i < taken ==>
                    flusher.queue[|old(flusher.queue)| + i] == WindowUsage(keys[i], u))
              && flusher.dropped == old(flusher.dropped) + |keys| - taken
    {
      hide Worker.Value, Flusher.Offer;
      ghost var room := if old(flusher.closed) || |old(flusher.queue)| >= flusher.capacity then 0
                        else flusher.capacity - |old(flusher.queue)|;
      for i := 0 to |keys|
        invariant flusher.Valid() && flusher.Value() == OfferedAll(old(flusher.Value()), keys[..i], u)
        invariant flusher.closed == old(flusher.closed) && old(flusher.queue) <= flusher.queue
        invariant |flusher.queue| == |old(flusher.queue)| + if i <= room then i else room
        invariant forall j :: 0 <= j < |flusher.queue| - |old(flusher.queue)| ==>
            flusher.queue[|old(flusher.queue)| + j] == WindowUsage(keys[j], u)
        invariant flusher.dropped == old(flusher.dropped) + if i <= room then 0 else i - room
      {
        assert keys[..i + 1][..i] == keys[..i];
        flusher.Add(WindowUsage(keys[i], u));
      }
      assert keys[..|keys|] == keys;
    }
  }
}
