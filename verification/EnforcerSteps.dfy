/** The enforcer's methods and the protocol agree: in every run, whatever else goes on, a
    request is decided as the enforcer's contract says, and what the enforcer does between
    two interruptions is what the state machine does. */
module EnforcerSteps {
  import opened Basics
  import opened Amounts
  import opened LiveCounters
  import opened DurableCounters
  import opened Flushing
  import opened QuotaProtocol
  import Enforcing

  // ---------------------------------------------------------------- reserving, in every run

  /** The reserve script is called for task t. */
  predicate Asks(a: Action, t: nat) {
    (a.Ask? || a.AskFails?) && a.t == t
  }

  /** A call made for task t fails. */
  predicate Fails(a: Action, t: nat) {
    (a.AskFails? || a.RehydrateFails?) && a.t == t
  }

  /** The counters as each call for task t found them, in the first i steps. */
  function Seen(states: seq<State>, actions: seq<Action>, t: nat, i: nat): seq<Book>
    requires i <= |actions| && i <= |states|
  {
    if i == 0 then []
    else Seen(states, actions, t, i - 1) + if Asks(actions[i - 1], t) then [states[i - 1].live] else []
  }

  ghost predicate Clean(actions: seq<Action>, t: nat, i: nat) {
    forall j :: 0 <= j < i && j < |actions| ==> !Fails(actions[j], t)
  }

  ghost predicate Took(seen: seq<Book>, task: Task) {
    && Enforcing.Rounds(seen, task.limits, task.amount)
    && seen != [] && AnswerTo(seen[|seen| - 1], task.limits, task.amount).Reserved?
  }

  /** What the calls made so far say of where a task is. */
  ghost predicate Tracks(task: Task, seen: seq<Book>, clean: bool) {
    match task.phase
    case Asking(round) =>
      |seen| == round < MAX_SEED_ROUNDS && Enforcing.AllMissing(seen, task.limits, task.amount)
    case Rehydrating(Retry(round), _, _) =>
      |seen| == round + 1 <= MAX_SEED_ROUNDS && Enforcing.AllMissing(seen, task.limits, task.amount)
    case Rehydrating(Stop, _, _) => seen == []
    case Holding => Took(seen, task)
    case Handing(_, _) => Took(seen, task)
    case Over(Settled) => Took(seen, task)
    case Over(Refused(breach)) =>
      && Enforcing.Rounds(seen, task.limits, task.amount)
      && seen != [] && AnswerTo(seen[|seen| - 1], task.limits, task.amount) == Blocked(breach)
    case Over(Unavailable) =>
      && Enforcing.Rounds(seen, task.limits, task.amount)
      && (clean ==> |seen| == MAX_SEED_ROUNDS && Enforcing.AllMissing(seen, task.limits, task.amount))
    case Over(_) => true
  }

  lemma AskTracks(s: State, t: nat, seen: seq<Book>, clean: bool)
    requires CanDo(s, Ask(t)) && Tracks(s.tasks[t], seen, clean)
    ensures Tracks(DoAsk(s, t).tasks[t], seen + [s.live], clean)
  {
    hide AnswerTo, Enforcing.Rounds, Enforcing.AllMissing;
    Enforcing.OneMoreRound(seen, s.live, s.tasks[t].limits, s.tasks[t].amount);
  }

  lemma AskFailsTracks(s: State, t: nat, ran: bool, seen: seq<Book>)
    requires CanDo(s, AskFails(t, ran)) && Tracks(s.tasks[t], seen, true)
    ensures Tracks(DoAskFails(s, t, ran).tasks[t], seen + [s.live], false)
  {
    hide AnswerTo, Enforcing.Rounds, Enforcing.AllMissing;
    Enforcing.OneMoreRound(seen, s.live, s.tasks[t].limits, s.tasks[t].amount);
  }

  lemma PrefixMissing(seen: seq<Book>, limits: seq<Limit>, amount: QuotaUsage)
    requires Enforcing.AllMissing(seen, limits, amount) && |seen| <= MAX_SEED_ROUNDS
    ensures Enforcing.Rounds(seen, limits, amount)
  {
  }

  lemma AfterSeedTracks(task: Task, seen: seq<Book>, clean: bool)
    requires task.phase.Rehydrating? && Tracks(task, seen, clean)
    ensures Tracks(task.(phase := AfterSeed(task.phase.after)), seen, clean)
    ensures Tracks(task.(phase := Over(Unavailable)), seen, false)
  {
    hide AnswerTo, Enforcing.Rounds, Enforcing.AllMissing;
    match task.phase.after
    case Retry(_) => PrefixMissing(seen, task.limits, task.amount);
    case Stop =>
      NoneMissing(task.limits, task.amount);
      PrefixMissing(seen, task.limits, task.amount);
  }

  lemma NoneMissing(limits: seq<Limit>, amount: QuotaUsage)
    ensures Enforcing.AllMissing([], limits, amount)
  {
  }

  lemma Dirty(task: Task, seen: seq<Book>)
    ensures Tracks(task, seen, true) ==> Tracks(task, seen, false)
  {
  }

  /** Where a task is once it may have been followed, and nowhere before it arrived. */
  ghost predicate Followed(s: State, t: nat, seen: seq<Book>, clean: bool) {
    if t < |s.tasks| then Tracks(s.tasks[t], seen, clean) else seen == []
  }

  lemma NewIsTracked(task: Task, clean: bool)
    requires Fresh(task)
    ensures Tracks(task, [], clean)
  {
  }

  lemma OthersAreFollowed(s: State, a: Action, t: nat, seen: seq<Book>, clean: bool)
    requires CanDo(s, a) && Followed(s, t, seen, clean) && (ByTask(a) ==> a.t != t)
    ensures Followed(Do(s, a), t, seen, clean)
  {
    hide Enforcing.Rounds, Enforcing.AllMissing, Took, AnswerTo, Tracks;
    if t < |s.tasks| {
      OthersLeaveTask(s, a, t);
    } else if a.Arrive? && t == |s.tasks| {
      NewIsTracked(a.task, clean);
    }
  }

  lemma OwnStepIsFollowed(s: State, a: Action, t: nat, seen: seq<Book>, clean: bool)
    requires CanDo(s, a) && ByTask(a) && a.t == t && t < |s.tasks| && Tracks(s.tasks[t], seen, clean)
    ensures t < |Do(s, a).tasks|
    ensures Tracks(Do(s, a).tasks[t], if Asks(a, t) then seen + [s.live] else seen, clean && !Fails(a, t))
  {
    hide AnswerTo, Enforcing.Rounds, Enforcing.AllMissing, AfterReserve;
    Dirty(s.tasks[t], seen);
    match a
    case Ask(_) => AskTracks(s, t, seen, clean);
    case AskFails(_, ran) => AskFailsTracks(s, t, ran, seen);
    case Fetch(_) => assert Do(s, a) == DoFetch(s, t);
    case Seed(_) =>
      AfterSeedTracks(s.tasks[t], seen, clean);
      assert Do(s, a) == DoSeed(s, t);
    case RehydrateFails(_, ran) =>
      AfterSeedTracks(s.tasks[t], seen, clean);
      assert Do(s, a) == DoRehydrateFails(s, t, ran);
    case Reconcile(_, actual, adjusted) => assert Do(s, a) == DoReconcile(s, t, actual, adjusted);
    case HandOver(_) => assert Do(s, a) == DoHandOver(s, t);
    case Abandon(_) => assert Do(s, a) == DoAbandon(s, t);
  }

  lemma {:induction false} RunIsFollowed(states: seq<State>, actions: seq<Action>, t: nat, i: nat)
    requires IsRun(states, actions) && i < |states|
    ensures Followed(states[i], t, Seen(states, actions, t, i), Clean(actions, t, i))
  {
    hide Tracks, Do, CanDo, Clean;
    if i > 0 {
      var s, a := states[i - 1], actions[i - 1];
      RunIsFollowed(states, actions, t, i - 1);
      OneMoreClean(actions, t, i - 1);
      assert Seen(states, actions, t, i - 1) + [] == Seen(states, actions, t, i - 1);
      if ByTask(a) && a.t == t {
        InRange(s, a);
        OwnStepIsFollowed(s, a, t, Seen(states, actions, t, i - 1), Clean(actions, t, i - 1));
      } else {
        OthersAreFollowed(s, a, t, Seen(states, actions, t, i - 1), Clean(actions, t, i - 1));
      }
    }
  }

  lemma InRange(s: State, a: Action)
    requires CanDo(s, a) && ByTask(a)
    ensures a.t < |s.tasks|
  {
  }

  lemma OneMoreClean(actions: seq<Action>, t: nat, i: nat)
    requires i < |actions|
    ensures Clean(actions, t, i + 1) <==> Clean(actions, t, i) && !Fails(actions[i], t)
  {
  }

  /** How a task's request was decided, once it was. */
  function DecisionOf(task: Task, at: int, failClosed: bool): Option<Enforcing.Decision> {
    match task.phase
    case Holding => Some(Enforcing.Granted(Enforcing.Reservation(Keys(task.limits), at, task.amount)))
    case Over(Refused(breach)) => Some(Enforcing.Refused(breach))
    case Over(Unavailable) => Some(if failClosed then Enforcing.Unavailable else Enforcing.Unlimited)
    case _ => None
  }

  /** In every run, whatever the other replicas and the stores do meanwhile, the step that
      decides a request decides it as the enforcer's contract says: what the counters were
      at each of at most three calls, and what they are left at, is just what the contract
      allows, with stores as healthy as no call made for the request failed. */
  lemma RunDecides(states: seq<State>, actions: seq<Action>, t: nat, i: nat, at: int, failClosed: bool)
    requires IsRun(states, actions) && i < |actions| && t < |states[i].tasks| && t < |states[i + 1].tasks|
    requires DecisionOf(states[i].tasks[t], at, failClosed).None?
    requires DecisionOf(states[i + 1].tasks[t], at, failClosed).Some?
    ensures var task := states[i + 1].tasks[t];
            Enforcing.Decides(DecisionOf(task, at, failClosed).value, Seen(states, actions, t, i + 1),
                              states[i + 1].live, task.limits, at, task.amount, Clean(actions, t, i + 1))
  {
    var s, a := states[i], actions[i];
    RunIsFollowed(states, actions, t, i + 1);
    assert CanDo(s, a) && states[i + 1] == Do(s, a);
    if !(ByTask(a) && a.t == t) {
      OthersLeaveTask(s, a, t);
      assert false;
    }
    DecidingStep(s, a, at, failClosed);
    LastMissing(Seen(states, actions, t, i + 1), states[i + 1].tasks[t]);
    hide Do, CanDo, AnswerTo, Clean;
  }

  lemma DecidingStep(s: State, a: Action, at: int, failClosed: bool)
    requires CanDo(s, a) && ByTask(a) && a.t < |s.tasks| && DecisionOf(s.tasks[a.t], at, failClosed).None?
    ensures a.t < |Do(s, a).tasks|
    ensures var task := Do(s, a).tasks[a.t];
            task.phase.Holding? || (task.phase.Over? && task.phase.verdict.Refused?) ==>
              a.Ask? && Do(s, a).live == if task.phase.Holding? then AfterReserve(s.live, task.limits, task.amount)
                                         else s.live
  {
    hide AnswerTo;
  }

  lemma LastMissing(seen: seq<Book>, task: Task)
    ensures seen != [] && Enforcing.AllMissing(seen, task.limits, task.amount) ==>
              AnswerTo(seen[|seen| - 1], task.limits, task.amount).Missing?
  {
  }

  // ---------------------------------------------------------------- reserving undisturbed

  /** A task in the middle of rehydrating, with the table as it now is. */
  function FetchAll(s: State, t: nat): State
    requires t < |s.tasks| && s.tasks[t].phase.Rehydrating?
    decreases |s.tasks[t].phase.todo|
  {
    if s.tasks[t].phase.todo == [] then s else FetchAll(DoFetch(s, t), t)
  }

  /** Reading the windows one by one collects the snapshot the enforcer seeds from. */
  lemma {:induction false} FetchesCollect(s: State, t: nat)
    requires t < |s.tasks| && s.tasks[t].phase.Rehydrating?
    ensures var p, next := s.tasks[t].phase, FetchAll(s, t);
            && next.live == s.live && next.durable == s.durable && t < |next.tasks|
            && next.tasks[t] == s.tasks[t].(
                 phase := Rehydrating(p.after, [], p.got + Enforcing.SnapshotOf(s.durable, p.todo)))
    decreases |s.tasks[t].phase.todo|
  {
    hide Enforcing.SnapshotOf;
    var p := s.tasks[t].phase;
    if p.todo == [] {
      assert p.got + Enforcing.SnapshotOf(s.durable, p.todo) == p.got;
    } else {
      FetchesCollect(DoFetch(s, t), t);
      OneMoreFetched(s.durable, p.got, p.todo);
    }
  }

  lemma OneMoreFetched(rows: Book, got: Book, todo: seq<CounterKey>)
    requires todo != []
    ensures var k := todo[0];
            got[k := if k in rows then rows[k] else QuotaUsage(0, 0, 0)] + Enforcing.SnapshotOf(rows, todo[1..])
            == got + Enforcing.SnapshotOf(rows, todo)
  {
    assert todo == [todo[0]] + todo[1..];
  }

  /** A rehydration nobody interrupts raises the counters as the enforcer's method says. */
  lemma RehydrationIsItsSteps(s: State, t: nat)
    requires t < |s.tasks| && s.tasks[t].phase.Rehydrating? && s.tasks[t].phase.got == map[]
    ensures var read := FetchAll(s, t);
            && CanDo(read, Seed(t))
            && DoSeed(read, t).live == Raise(s.live, Enforcing.SnapshotOf(s.durable, s.tasks[t].phase.todo))
  {
    FetchesCollect(s, t);
    var snapshot := Enforcing.SnapshotOf(s.durable, s.tasks[t].phase.todo);
    assert map[] + snapshot == snapshot;
  }

  /** A request nobody interrupts: it asks, and while it finds counters missing it reads
      and seeds them all and asks again. */
  function ReserveRun(s: State, t: nat): State
    requires t < |s.tasks| && s.tasks[t].phase.Asking?
    decreases MAX_SEED_ROUNDS - s.tasks[t].phase.round
  {
    var asked := DoAsk(s, t);
    if !asked.tasks[t].phase.Rehydrating? then asked
    else
      FetchesCollect(asked, t);
      var seeded := DoSeed(FetchAll(asked, t), t);
      if seeded.tasks[t].phase.Asking? then ReserveRun(seeded, t) else seeded
  }

  lemma {:induction false} MissingAre(live: Book, limits: seq<Limit>, k: CounterKey)
    ensures k in MissingKeys(live, limits) <==> k in Keys(limits) && k !in live
  {
    if limits != [] {
      MissingAre(live, limits[..|limits| - 1], k);
      assert Keys(limits) == Keys(limits[..|limits| - 1]) + [limits[|limits| - 1].key];
    }
  }

  /** Raising the counters to what was missing leaves nothing missing. */
  lemma SeededAreThere(live: Book, rows: Book, limits: seq<Limit>, amount: QuotaUsage)
    ensures !AnswerTo(Raise(live, Enforcing.SnapshotOf(rows, MissingKeys(live, limits))), limits, amount).Missing?
    ensures MissingKeys(live, limits) == [] ==>
              Raise(live, Enforcing.SnapshotOf(rows, MissingKeys(live, limits))) == live
  {
    forall i | 0 <= i < |limits| ensures limits[i].key in live || limits[i].key in MissingKeys(live, limits) {
      MissingAre(live, limits, limits[i].key);
      assert Keys(limits)[i] == limits[i].key;
    }
  }

  lemma AskEnds(s: State, t: nat)
    requires t < |s.tasks| && s.tasks[t].phase.Asking?
    requires !AnswerTo(s.live, s.tasks[t].limits, s.tasks[t].amount).Missing?
    ensures var task, end := s.tasks[t], ReserveRun(s, t);
            var answer := AnswerTo(s.live, task.limits, task.amount);
            && end.live == AfterReserve(s.live, task.limits, task.amount) && end.durable == s.durable
            && t < |end.tasks| && end.tasks[t].phase == AfterAnswer(task.phase.round, answer)
  {
    hide AnswerTo, AfterReserve, FetchAll;
  }

  lemma AskSeeds(s: State, t: nat) returns (seeded: State)
    requires t < |s.tasks| && s.tasks[t].phase.Asking? && s.tasks[t].phase.round + 1 < MAX_SEED_ROUNDS
    requires AnswerTo(s.live, s.tasks[t].limits, s.tasks[t].amount).Missing?
    ensures var task := s.tasks[t];
            && t < |seeded.tasks| && seeded.tasks[t] == task.(phase := Asking(task.phase.round + 1))
            && seeded.live == Raise(s.live, Enforcing.SnapshotOf(s.durable, MissingKeys(s.live, task.limits)))
            && seeded.durable == s.durable && ReserveRun(s, t) == ReserveRun(seeded, t)
  {
    hide Raise, MissingKeys, Crossed, FetchAll, Enforcing.SnapshotOf;
    var asked := DoAsk(s, t);
    FetchesCollect(asked, t);
    RehydrationIsItsSteps(asked, t);
    seeded := DoSeed(FetchAll(asked, t), t);
  }

  /** It ends granted or refused, never unavailable: as the script answers on its counters
      with those missing raised to the table's. */
  lemma UndisturbedReserve(s: State, t: nat)
    requires t < |s.tasks| && s.tasks[t].phase.Asking? && s.tasks[t].phase.round + 1 < MAX_SEED_ROUNDS
    ensures var task, end := s.tasks[t], ReserveRun(s, t);
            var met := Raise(s.live, Enforcing.SnapshotOf(s.durable, MissingKeys(s.live, task.limits)));
            var answer := AnswerTo(met, task.limits, task.amount);
            && end.live == AfterReserve(met, task.limits, task.amount) && end.durable == s.durable
            && t < |end.tasks| && !answer.Missing?
            && (end.tasks[t].phase.Holding? <==> answer.Reserved?)
            && (answer.Blocked? ==> end.tasks[t].phase == Over(Refused(answer.breach)))
  {
    hide ReserveRun, AfterReserve, Raise, MissingKeys, Crossed, Enforcing.SnapshotOf;
    var task := s.tasks[t];
    SeededAreThere(s.live, s.durable, task.limits, task.amount);
    if AnswerTo(s.live, task.limits, task.amount).Missing? {
      var seeded := AskSeeds(s, t);
      AskEnds(seeded, t);
    } else {
      AskEnds(s, t);
    }
  }

  // ---------------------------------------------------------------- settling

  function HandAll(s: State, t: nat): State
    requires t < |s.tasks| && (s.tasks[t].phase.Handing? ==> s.tasks[t].replica < |s.flushers|)
    decreases if s.tasks[t].phase.Handing? then |s.tasks[t].phase.left| else 0
  {
    if !s.tasks[t].phase.Handing? || s.tasks[t].phase.left == [] then s else HandAll(DoHandOver(s, t), t)
  }

  lemma {:induction false} OfferFirst(fl: Flusher, k: CounterKey, keys: seq<CounterKey>, u: QuotaUsage)
    ensures Enforcing.OfferedAll(fl, [k] + keys, u) == Enforcing.OfferedAll(fl.Offer(WindowUsage(k, u)), keys, u)
  {
    if keys == [] {
      assert [k] + keys == [k] && [k][..0] == [];
    } else {
      var n := |keys| - 1;
      assert ([k] + keys)[..n + 1] == [k] + keys[..n];
      OfferFirst(fl, k, keys[..n], u);
    }
  }

  /** Handing over window by window offers the flusher all of them, in order. */
  lemma {:induction false} HandOversOffer(s: State, t: nat)
    requires t < |s.tasks| && s.tasks[t].phase.Handing? && s.tasks[t].replica < |s.flushers|
    requires s.tasks[t].phase.left != []
    ensures var p, r, next := s.tasks[t].phase, s.tasks[t].replica, HandAll(s, t);
            && next.live == s.live && |next.flushers| == |s.flushers|
            && next.flushers[r] == Enforcing.OfferedAll(s.flushers[r], p.left, p.actual)
            && t < |next.tasks| && next.tasks[t].phase == Over(Settled)
    decreases |s.tasks[t].phase.left|
  {
    var p, r, next := s.tasks[t].phase, s.tasks[t].replica, DoHandOver(s, t);
    assert p.left == [p.left[0]] + p.left[1..];
    OfferFirst(s.flushers[r], p.left[0], p.left[1..], p.actual);
    if |p.left| > 1 {
      HandOversOffer(next, t);
    } else {
      assert p.left[1..] == [];
    }
  }

  /** A settlement nobody interrupts moves counters and flusher as the enforcer's method says. */
  lemma SettlementIsItsSteps(s: State, t: nat, actual: QuotaUsage, adjusted: bool)
    requires CanDo(s, Reconcile(t, actual, adjusted)) && s.tasks[t].replica < |s.flushers| && s.tasks[t].limits != []
    ensures var task := s.tasks[t];
            var keys, r := Keys(task.limits), task.replica;
            var next := HandAll(DoReconcile(s, t, actual, adjusted), t);
            && next.live == (if adjusted then Bump(s.live, keys, actual.Sub(task.amount)) else s.live)
            && r < |next.flushers|
            && next.flushers[r] == (if actual.IsZero() then s.flushers[r]
                                    else Enforcing.OfferedAll(s.flushers[r], keys, actual))
            && t < |next.tasks| && next.tasks[t].phase == Over(Settled)
  {
    var mid := DoReconcile(s, t, actual, adjusted);
    if !actual.IsZero() {
      HandOversOffer(mid, t);
    }
  }
}
