/** The completions endpoint: the gates before dispatch, and what surrounds it. */
module Completions {
  import opened Basics
  import opened Amounts
  import opened Metering
  import opened Dispatch
  import opened LiveCounters
  import Enforcing
  import Flushing
  import ClockWindows
  import Pricing

  /** A request as far as it is looked at: whether it has an identity, its body is not too
      large and can be read, its model is allowed and has a route, the targets the route
      resolves to, and what the quota is asked with. */
  datatype Request = Request(
    identified: bool, fits: bool, parses: bool, allowed: bool, routed: bool, targets: Option<seq<Target>>,
    wantsUsage: bool, stream: bool, asked: Enforcing.QuotaRequest)
  {
    /** The quota is asked about the very ladder that is dispatched. */
    ghost predicate Valid() {
      targets.Some? ==> asked.targets == Refs(targets.value)
    }
  }

  /** The names of a ladder's targets. */
  function Refs(ladder: seq<Target>): seq<string> {
    seq(|ladder|, i requires 0 <= i < |ladder| => ladder[i].ref)
  }

  /** The answer to a request no target served. */
  function StatusFor(attempts: seq<Attempt>): int {
    if attempts == [] then 503
    else match attempts[|attempts| - 1].failure
      case None => 500
      case Some(f) => if f.statusCode in {400, 404, 413, 422} then f.statusCode else 502
  }

  function LastMessage(attempts: seq<Attempt>): string {
    if attempts == [] then "no upstream targets were available"
    else match attempts[|attempts| - 1].failure
      case None => "upstream failed without a recorded reason"
      case Some(f) => if f.statusCode in {400, 404, 413, 422} then f.message else "all upstream targets failed"
  }

  /** An exhausted ladder is answered 503 if it was empty. Otherwise the last target tried has
      its say if it found the request itself at fault, and any other failure is a 502: never a
      rate limit, a refusal of credentials or a success. */
  lemma {:induction false} ExhaustedStatus(attempts: seq<Attempt>, ladder: seq<Target>)
    requires Recorded(attempts, ladder) && !Serves(ladder)
    requires |attempts| == if Climbed(ladder) < |ladder| then Climbed(ladder) + 1 else |ladder|
    ensures StatusFor(attempts) == 503 <==> ladder == []
    ensures ladder == [] ==> LastMessage(attempts) == "no upstream targets were available"
    ensures ladder != [] ==>
        && attempts != []
        && var up := ladder[|attempts| - 1].upstream;
        && var refusal := (if up.Refuses? then up.error else up.end).provider;
        && if refusal.Some? && refusal.value.statusCode in {400, 404, 413, 422} then
             StatusFor(attempts) == refusal.value.statusCode && LastMessage(attempts) == refusal.value.message
           else
             StatusFor(attempts) == 502 && LastMessage(attempts) == "all upstream targets failed"
  {
    if ladder != [] {
      var last := |attempts| - 1;
      assert attempts[last] == AttemptOn(ladder[last]);
    }
  }

  // ---------------------------------------------------------------- the quota

  /** What the quota and its stores are up to while a request is served. */
  datatype Weather = Weather(now: int, load: Option<Enforcing.Cached>, healthy: bool, ran: bool)

  /** What is handed back to be settled: nothing, unless something was granted. */
  function ReservationOf(d: Enforcing.Decision): Enforcing.Reservation {
    if d.Granted? then d.reservation else Enforcing.Reservation([], 0, Enforcing.Nothing())
  }

  /** What the quota decided about a request, and left the live counters at: without a quota
      store, that nothing is enforced. */
  ghost predicate Asked(quota: Option<Enforcing.Enforcer>, cache: map<string, Enforcing.Cached>,
                        prices: seq<Pricing.Block>, asked: Enforcing.QuotaRequest, weather: Weather,
                        d: Enforcing.Decision, seen: seq<Book>, left: Book) {
    if quota.None? then d == Enforcing.Unlimited
    else
      var e := quota.value;
      Enforcing.Responds(
        d, seen, left, Enforcing.QuotasFor(cache, asked.tenant, weather.now, e.ttl, weather.load), asked,
        Enforcing.AmountOf(asked, prices, e.defaultMaxOutput), weather.healthy, e.Policy())
  }

  /** A reservation was settled at an outcome: the live counters were corrected, as they
      then were, and the flusher was offered the usage once per window. */
  ghost predicate SettledAt(d: Enforcing.Decision, o: Enforcing.Outcome, prices: seq<Pricing.Block>, ran: bool,
                            met: Book, left: Book, before: Flushing.Flusher, after: Flushing.Flusher) {
    var res := ReservationOf(d);
    var actual := Enforcing.ActualUsage(res, o, prices);
    && left == (if res.keys != [] && ran then Bump(met, res.keys, actual.Sub(res.amount)) else met)
    && after == if res.keys == [] || actual.IsZero() then before else Enforcing.OfferedAll(before, res.keys, actual)
  }

  /** A request nobody served gives back all that was reserved for it. */
  lemma UnservedIsReleased(d: Enforcing.Decision, o: Enforcing.Outcome, prices: seq<Pricing.Block>,
                           met: Book, left: Book, before: Flushing.Flusher, after: Flushing.Flusher,
                           k: CounterKey, f: Field)
    requires SettledAt(d, o, prices, true, met, left, before, after) && o.status == Exhausted
    ensures after == before && left.Keys == met.Keys
    ensures k in met ==>
        Of(left, k, f)
        == Of(met, k, f) - if d.Granted? && k in d.reservation.keys then Val(d.reservation.amount, f) else 0
  {
  }

  /** Whoever serves, what a request settles at is within what was reserved for it: when its
      usage is within the estimate, at rates where cached input costs no more than fresh. */
  lemma ServedWithinReservation(
      quota: Option<Enforcing.Enforcer>, cache: map<string, Enforcing.Cached>, prices: seq<Pricing.Block>, r: Request,
      weather: Weather, d: Enforcing.Decision, seen: seq<Book>, left: Book, o: Enforcing.Outcome)
    requires r.Valid() && r.targets.Some? && d.Granted?
    requires Asked(quota, cache, prices, r.asked, weather, d, seen, left)
    requires o.chosen == ServedBy(r.targets.value) && forall t <- r.targets.value :: t.ref != ""
    requires Enforcing.UsesWithin(o, r.asked, prices, quota.value.defaultMaxOutput)
    ensures var actual := Enforcing.ActualUsage(d.reservation, o, prices);
            && actual.requests <= d.reservation.amount.requests
            && actual.tokens <= d.reservation.amount.tokens
            && actual.cost <= d.reservation.amount.cost
  {
    var ladder := r.targets.value;
    if Serves(ladder) {
      assert Refs(ladder)[Climbed(ladder)] == ServedBy(ladder);
    }
    Enforcing.SettlesWithinReservation(r.asked, d.reservation.keys, o, prices, quota.value.defaultMaxOutput);
  }

  class Handler {
    const quota: Option<Enforcing.Enforcer>
    var decisions: seq<Status>

    constructor (quota: Option<Enforcing.Enforcer>)
      ensures this.quota == quota && decisions == []
    {
      this.quota, decisions := quota, [];
    }

    ghost function Footprint(): set<object> {
      if quota.None? then {} else {quota.value, quota.value.counters, quota.value.durable, quota.value.flusher}
    }

    ghost function Cache(): map<string, Enforcing.Cached>
      reads Footprint()
    {
      if quota.Some? then quota.value.limits else map[]
    }

    ghost function Prices(): seq<Pricing.Block>
      reads if quota.Some? && quota.value.pricing.Some? then {quota.value.pricing.value} else {}
    {
      if quota.Some? then quota.value.Prices() else []
    }

    ghost predicate Valid()
      reads Footprint()
    {
      quota.Some? ==>
        && quota.value.flusher.Valid()
        && forall t :: t in quota.value.limits ==> ClockWindows.KindsDiffer(quota.value.limits[t].quotas)
    }

    /** With no quota store nothing is enforced. */
    method Reserve(r: Request, weather: Weather)
      returns (d: Enforcing.Decision, ghost seen: seq<Book>, ghost left: Book)
      requires Valid() && (weather.load.Some? ==> ClockWindows.KindsDiffer(weather.load.value.quotas))
      modifies Footprint()
      ensures Valid() && (d.Granted? ==> Distinct(d.reservation.keys))
      ensures Asked(quota, old(Cache()), old(Prices()), r.asked, weather, d, seen, left)
      ensures quota.Some? ==>
          left == quota.value.counters.hashes && quota.value.flusher.Value() == old(quota.value.flusher.Value())
    {
      if quota.None? {
        return Enforcing.Unlimited, [], map[];
      }
      ghost var governing;
      d, seen, governing := quota.value.Reserve(r.asked, weather.now, weather.load, weather.healthy);
      left := quota.value.counters.hashes;
    }

    method Reconcile(d: Enforcing.Decision, o: Enforcing.Outcome, weather: Weather) returns (ghost met: Book)
      requires Valid() && (d.Granted? ==> Distinct(d.reservation.keys))
      modifies Footprint()
      ensures Valid()
      ensures quota.Some? ==>
          SettledAt(d, o, old(Prices()), weather.ran, met, quota.value.counters.hashes,
                    old(quota.value.flusher.Value()), quota.value.flusher.Value())
    {
      if quota.None? {
        return map[];
      }
      ghost var actual;
      met, actual := quota.value.Reconcile(ReservationOf(d), o, weather.ran);
    }

    /** Every request is answered with exactly one status line. One that passes every gate is
        dispatched, and what was reserved for it is settled once, at what became of it. */
    method Completions(r: Request, weather: Weather, w: Connection)
      returns (ghost d: Option<Enforcing.Decision>, ghost seen: seq<Book>, ghost left: Book,
               ghost attempts: seq<Attempt>, ghost o: Enforcing.Outcome, ghost met: Book)
      requires Valid() && (weather.load.Some? ==> ClockWindows.KindsDiffer(weather.load.value.quotas))
      requires w.Valid() && w.log == [] && r.Valid()
      modifies this, w, Footprint()
      ensures Valid() && StatusLines(w.log) == 1 && w.log[0].StatusLine?
      ensures d.Some? <==> r.identified && r.fits && r.parses && r.allowed && r.routed && r.targets.Some?
      ensures d.Some? ==> Asked(quota, old(Cache()), old(Prices()), r.asked, weather, d.value, seen, left)
      ensures d.None? ==> decisions == old(decisions)
      ensures !r.identified ==> w.log[0].code == 401
      ensures r.identified && !r.fits ==> w.log[0].code == 413
      ensures r.identified && r.fits && !r.parses ==> w.log[0].code == 400
      ensures r.identified && r.fits && r.parses && !r.allowed ==> w.log[0].code == 403
      ensures r.identified && r.fits && r.parses && r.allowed && !r.routed ==> w.log[0].code == 400
      ensures r.identified && r.fits && r.parses && r.allowed && r.routed && r.targets.None? ==> w.log[0].code == 500
      ensures d.Some? && d.value.Refused? ==> w.log[0].code == 429 && decisions == old(decisions) + [PolicyBlocked]
      ensures d.Some? && d.value.Unavailable? ==> w.log[0].code == 503 && decisions == old(decisions)
      ensures d.Some? && (d.value.Granted? || d.value.Unlimited?) ==>
          && decisions == old(decisions) + [o.status]
          && (if o.status == Exhausted then w.log[0].code in {400, 404, 413, 422, 502, 503} else w.log[0].code == 200)
          && Answered(r.targets.value, r.wantsUsage, r.stream, old(w.patience), w.log, attempts, o)
          && (quota.Some? ==>
                SettledAt(d.value, o, old(Prices()), weather.ran, met, quota.value.counters.hashes,
                          old(quota.value.flusher.Value()), quota.value.flusher.Value()))
      ensures quota.Some? && (d.None? || !(d.value.Granted? || d.value.Unlimited?)) ==>
          quota.value.flusher.Value() == old(quota.value.flusher.Value())
    {
      hide Answered, SettledAt, Asked, StatusLines;
      d, seen, left, attempts, o, met := None, [], map[], [], Enforcing.Outcome(Unset, "", NoUsage()), map[];
      if !r.identified {
        WriteError(w, 401, "no credentials");
      } else if !r.fits {
        WriteError(w, 413, "request body too large");
      } else if !r.parses {
        WriteError(w, 400, "malformed");
      } else if !r.allowed {
        WriteError(w, 403, "model not allowed");
      } else if !r.routed {
        WriteError(w, 400, "no route");
      } else if r.targets.None? {
        WriteError(w, 500, "routing misconfiguration");
      } else {
        d, seen, left, attempts, o, met := Admit(r, weather, w);
      }
    }

    /** The last gate, and what is behind it. */
    method Admit(r: Request, weather: Weather, w: Connection)
      returns (ghost d: Option<Enforcing.Decision>, ghost seen: seq<Book>, ghost left: Book,
               ghost attempts: seq<Attempt>, ghost o: Enforcing.Outcome, ghost met: Book)
      requires Valid() && (weather.load.Some? ==> ClockWindows.KindsDiffer(weather.load.value.quotas))
      requires w.Valid() && w.log == [] && r.targets.Some?
      modifies this, w, Footprint()
      ensures Valid() && StatusLines(w.log) == 1 && w.log[0].StatusLine? && d.Some?
      ensures Asked(quota, old(Cache()), old(Prices()), r.asked, weather, d.value, seen, left)
      ensures d.value.Refused? ==> w.log[0].code == 429 && decisions == old(decisions) + [PolicyBlocked]
      ensures d.value.Unavailable? ==> w.log[0].code == 503 && decisions == old(decisions)
      ensures d.value.Granted? || d.value.Unlimited? ==>
          && decisions == old(decisions) + [o.status]
          && (if o.status == Exhausted then w.log[0].code in {400, 404, 413, 422, 502, 503} else w.log[0].code == 200)
          && Answered(r.targets.value, r.wantsUsage, r.stream, old(w.patience), w.log, attempts, o)
          && (quota.Some? ==>
                SettledAt(d.value, o, old(Prices()), weather.ran, met, quota.value.counters.hashes,
                          old(quota.value.flusher.Value()), quota.value.flusher.Value()))
      ensures quota.Some? && !(d.value.Granted? || d.value.Unlimited?) ==>
          quota.value.flusher.Value() == old(quota.value.flusher.Value())
    {
      hide Answered, SettledAt, Asked, StatusLines;
      attempts, o, met := [], Enforcing.Outcome(Unset, "", NoUsage()), map[];
      var decision;
      decision, seen, left := Reserve(r, weather);
      d := Some(decision);
      if decision.Refused? {
        WriteError(w, 429, "quota exceeded");
        decisions := decisions + [PolicyBlocked];
      } else if decision.Unavailable? {
        WriteError(w, 503, "quota enforcement is unavailable");
      } else {
        var outcome;
        outcome, attempts := Serve(r.targets.value, r.wantsUsage, r.stream, w);
        decisions := decisions + [outcome.status];
        o := outcome;
        met := Reconcile(decision, outcome, weather);
      }
    }
  }

  // ---------------------------------------------------------------- the answer

  /** What the client got and what the outcome says, for a request that was dispatched. */
  ghost predicate Answered(ladder: seq<Target>, wantsUsage: bool, stream: bool, patience: nat, log: seq<Wire>,
                           attempts: seq<Attempt>, o: Enforcing.Outcome) {
    && (o.status == Exhausted <==> !Serves(ladder))
    && o.chosen == ServedBy(ladder)
    && Recorded(attempts, ladder)
    && |attempts| == (if Climbed(ladder) < |ladder| then Climbed(ladder) + 1 else |ladder|)
    && (Serves(ladder) ==> exists n, sent :: Went(ladder, wantsUsage, stream, patience, n, sent, log, o))
    && (!Serves(ladder) ==>
          && o.usage == NoUsage()
          && var head := StatusLine(StatusFor(attempts));
             [head] <= log <= [head, ErrorBody(LastMessage(attempts))])
  }

  /** The serving target's stream was relayed so far, after a status line. */
  ghost predicate Went(ladder: seq<Target>, wantsUsage: bool, stream: bool, patience: nat, n: nat, sent: seq<Wire>,
                       log: seq<Wire>, o: Enforcing.Outcome)
    requires Serves(ladder)
  {
    && log == [StatusLine(200)] + sent
    && Delivered(ladder[Climbed(ladder)].upstream, wantsUsage, stream, patience, n, NoUsage(), o.status, o.usage, sent)
  }

  /** Dispatches an admitted request, and answers it if nothing was relayed. */
  method Serve(ladder: seq<Target>, wantsUsage: bool, stream: bool, w: Connection)
    returns (s: Enforcing.Outcome, ghost attempts: seq<Attempt>)
    requires w.Valid() && w.log == []
    modifies w
    ensures StatusLines(w.log) == 1 && w.log[0].StatusLine?
    ensures if s.status == Exhausted then w.log[0].code in {400, 404, 413, 422, 502, 503} else w.log[0].code == 200
    ensures Answered(ladder, wantsUsage, stream, old(w.patience), w.log, attempts, s)
  {
    hide Recorded, Delivered, Climbed, StatusLines, StatusFor, LastMessage, Serves;
    var out := new ClientStream(w, stream);
    var o, n, sent := Run(ladder, wantsUsage, out);
    attempts := o.attempts;
    s := Enforcing.Outcome(o.status, o.ChosenTarget(), o.usage);
    ChosenIs(attempts, ladder, s.chosen);
    if o.status == Exhausted {
      ExhaustedStatus(attempts, ladder);
      WriteError(w, StatusFor(o.attempts), LastMessage(o.attempts));
    } else {
      assert w.log == [StatusLine(200)] + sent;
      ServedStatusLines(ladder, wantsUsage, stream, old(w.patience), n, o.status, o.usage, sent);
      assert Went(ladder, wantsUsage, stream, old(w.patience), n, sent, w.log, s);
    }
  }

  /** The name of the target that serves, or nothing. */
  function ServedBy(ladder: seq<Target>): string {
    if Serves(ladder) then ladder[Climbed(ladder)].Name() else ""
  }

  /** The last attempt names the target chosen, if it did not fail. */
  lemma {:induction false} ChosenIs(attempts: seq<Attempt>, ladder: seq<Target>, chosen: string)
    requires Recorded(attempts, ladder)
    requires |attempts| == if Climbed(ladder) < |ladder| then Climbed(ladder) + 1 else |ladder|
    requires chosen == if attempts == [] || attempts[|attempts| - 1].failure.Some? then ""
                       else attempts[|attempts| - 1].target
    ensures chosen == ServedBy(ladder)
  {
    if attempts != [] {
      assert attempts[|attempts| - 1] == AttemptOn(ladder[|attempts| - 1]);
    }
  }

  method WriteError(w: Connection, code: int, message: string)
    requires w.Valid() && w.log == []
    modifies w
    ensures w.Valid() && StatusLines(w.log) == 1
    ensures [StatusLine(code)] <= w.log <= [StatusLine(code), ErrorBody(message)]
  {
    w.WriteHeader(code);
    assert StatusLines([]) == 0;
    StatusLinesAppend([], StatusLine(code));
    assert [] + [StatusLine(code)] == [StatusLine(code)];
    var ok := w.Write(ErrorBody(message));
    StatusLinesAppend([StatusLine(code)], ErrorBody(message));
  }

  lemma {:induction false} RelayedHasNoStatusLine(head: seq<Wire>, events: seq<StreamEvent>, wantsUsage: bool)
    ensures StatusLines(head + Wanted(events, wantsUsage)) == StatusLines(head)
  {
    if events == [] {
      assert head + Wanted(events, wantsUsage) == head;
    } else {
      var n := |events| - 1;
      RelayedHasNoStatusLine(head, events[..n], wantsUsage);
      var less := Wanted(events[..n], wantsUsage);
      if events[n].usageOnly && !wantsUsage {
        assert Wanted(events, wantsUsage) == less;
      } else {
        StatusLinesAppend(head + less, Body(events[n].raw));
        assert head + Wanted(events, wantsUsage) == head + less + [Body(events[n].raw)];
      }
    }
  }

  lemma ServedStatusLines(ladder: seq<Target>, wantsUsage: bool, stream: bool, patience: nat, n: nat, status: Status,
                          usage: TokenUsage, sent: seq<Wire>)
    requires Serves(ladder)
    requires Delivered(ladder[Climbed(ladder)].upstream, wantsUsage, stream, patience, n, NoUsage(),
                       status, usage, sent)
    ensures StatusLines([StatusLine(200)] + sent) == 1
  {
    var head := [StatusLine(200)];
    var up := ladder[Climbed(ladder)].upstream;
    assert StatusLines(head) == 1 by {
      StatusLinesAppend([], head[0]);
      assert [] + head == head;
    }
    if n == 0 {
      assert head + sent == head;
    } else {
      var all := Wanted(up.events[..n], wantsUsage);
      RelayedHasNoStatusLine(head, up.events[..n], wantsUsage);
      RelayedHasNoStatusLine(head, up.events[..n - 1], wantsUsage);
      StatusLinesAppend(head + all, ErrorEvent(up.end.text));
      assert head + (all + [ErrorEvent(up.end.text)]) == head + all + [ErrorEvent(up.end.text)];
    }
  }
}
