/** Which steps leave something behind or write something twice, and runs that come to it. */
module QuotaRuns {
  import opened Basics
  import opened Amounts
  import opened LiveCounters
  import opened DurableCounters
  import opened Flushing
  import opened QuotaProtocol
  import opened QuotaSafety
  import opened QuotaExactness

  /* ---- when usage is written twice ---- */

  /** The write looked failed, was not, and held usage of this counter. */
  predicate Replays(s: State, a: Action, k: CounterKey, f: Field) {
    a.Flush? && a.commit.Ambiguous? && a.r < |s.flushers| && Of(s.flushers[a.r].pending, k, f) > 0
  }

  lemma StepReplays(s: State, a: Action, k: CounterKey, f: Field)
    requires Sound(s) && CanDo(s, a)
    ensures Of(Do(s, a).replayed, k, f) >= Of(s.replayed, k, f) >= 0
    ensures Of(Do(s, a).replayed, k, f) > Of(s.replayed, k, f) <==> Replays(s, a, k, f)
  {
    if Truthful(a) {
      OnlyAmbiguityReplays(s, a);
    } else {
      assert SoundFlusher(s.flushers[a.r]);
      assert Do(s, a).replayed == Merge(s.replayed, s.flushers[a.r].pending);
    }
  }

  /** A counter's usage was written twice exactly if some write of it looked failed and was not. */
  lemma {:induction false} ReplayedIff(states: seq<State>, actions: seq<Action>, i: nat, k: CounterKey, f: Field)
    requires IsRun(states, actions) && i < |states|
    ensures Of(states[i].replayed, k, f) > 0 <==> exists j :: 0 <= j < i && Replays(states[j], actions[j], k, f)
  {
    hide Do, Sound, Accounted, Replays;
    if i > 0 {
      ReplayedIff(states, actions, i - 1, k, f);
      ReachableIsSound(states, actions, i - 1, k, f);
      StepReplays(states[i - 1], actions[i - 1], k, f);
    }
  }

  /** A durable counter is ahead of what was settled exactly when more of it was written
      twice than is still on its way or was dropped. */
  lemma DurableAheadIff(states: seq<State>, actions: seq<Action>, i: nat, k: CounterKey, f: Field)
    requires IsRun(states, actions) && i < |states|
    ensures var s := states[i];
            Of(s.durable, k, f) > Of(s.settled, k, f)
            <==> Of(s.replayed, k, f) > Unflushed(s, k, f) + Of(s.dropped, k, f)
    ensures Of(states[i].durable, k, f) > Of(states[i].settled, k, f) ==>
              exists j :: 0 <= j < i && Replays(states[j], actions[j], k, f)
  {
    NoDoubleCounting(states, actions, i, k, f);
    ReachableIsSound(states, actions, i, k, f);
    InFlightNonNegative(states[i], k, f);
    ReplayedIff(states, actions, i, k, f);
  }

  /* ---- when something is left behind ---- */

  /** The reserve script takes the counter for the task, by this much at least one. */
  predicate Takes(s: State, task: Task, k: CounterKey, f: Field) {
    && AnswerTo(s.live, task.limits, task.amount).Reserved?
    && k in Keys(task.limits) && Val(task.amount, f) > 0
  }

  /** The script's reply is lost after it took the counter, a correction does not run for a
      request that used less than it reserved, a request holding the counter is abandoned,
      or a promoted replica holds more of it. */
  predicate Leaks(s: State, a: Action, k: CounterKey, f: Field)
    requires CanDo(s, a)
  {
    match a
    case AskFails(t, ran) => ran && Takes(s, s.tasks[t], k, f)
    case Reconcile(t, actual, adjusted) =>
      !adjusted && k in Keys(s.tasks[t].limits) && Val(actual, f) < Val(s.tasks[t].amount, f)
    case Abandon(t) =>
      s.tasks[t].phase.Holding? && k in Keys(s.tasks[t].limits) && Val(s.tasks[t].amount, f) > 0
    case Failover(key, value) => key == k && Val(value, f) > Of(s.live, k, f)
    case _ => false
  }

  lemma AskFailsLeaks(s: State, t: nat, ran: bool, k: CounterKey, f: Field)
    requires CanDo(s, AskFails(t, ran)) && s.tasks[t].amount.NonNegative()
    ensures Of(DoAskFails(s, t, ran).leaked, k, f) >= Of(s.leaked, k, f)
    ensures Of(DoAskFails(s, t, ran).leaked, k, f) > Of(s.leaked, k, f) <==> Leaks(s, AskFails(t, ran), k, f)
  {
    hide AnswerTo, AfterReserve;
  }

  lemma ReconcileLeaks(s: State, t: nat, actual: QuotaUsage, adjusted: bool, k: CounterKey, f: Field)
    requires CanDo(s, Reconcile(t, actual, adjusted))
    ensures var next := DoReconcile(s, t, actual, adjusted);
            && Of(next.leaked, k, f) >= Of(s.leaked, k, f)
            && (Of(next.leaked, k, f) > Of(s.leaked, k, f) <==> Leaks(s, Reconcile(t, actual, adjusted), k, f))
  {
    hide AnswerTo, AfterReserve, Bump;
  }

  lemma AbandonLeaks(s: State, t: nat, k: CounterKey, f: Field)
    requires CanDo(s, Abandon(t)) && s.tasks[t].amount.NonNegative()
    ensures Of(DoAbandon(s, t).leaked, k, f) >= Of(s.leaked, k, f)
    ensures Of(DoAbandon(s, t).leaked, k, f) > Of(s.leaked, k, f) <==> Leaks(s, Abandon(t), k, f)
  {
    hide AnswerTo;
  }

  lemma FailoverLeaks(s: State, key: CounterKey, value: QuotaUsage, k: CounterKey, f: Field)
    requires CanDo(s, Failover(key, value))
    ensures Of(DoFailover(s, key, value).leaked, k, f) >= Of(s.leaked, k, f)
    ensures Of(DoFailover(s, key, value).leaked, k, f) > Of(s.leaked, k, f) <==> Leaks(s, Failover(key, value), k, f)
  {
  }

  lemma OthersAreNoLeaks(s: State, a: Action, k: CounterKey, f: Field)
    requires CanDo(s, a) && !a.AskFails? && !a.Reconcile? && !a.Abandon? && !a.Failover?
    ensures !Leaks(s, a, k, f)
  {
  }

  lemma OthersLeakNothing(s: State, a: Action)
    requires CanDo(s, a) && !a.AskFails? && !a.Reconcile? && !a.Abandon? && !a.Failover?
    ensures Do(s, a).leaked == s.leaked
  {
    hide AnswerTo, AfterReserve, Raise, Merge, Plus, Spill, Fresh;
    match a
    case Ask(t) => assert DoAsk(s, t).leaked == s.leaked;
    case HandOver(t) => assert DoHandOver(s, t).leaked == s.leaked;
    case Crash(r) => assert DoCrash(s, r).leaked == s.leaked;
    case _ =>
  }

  lemma StepLeaks(s: State, a: Action, k: CounterKey, f: Field)
    requires Sound(s) && CanDo(s, a)
    ensures Of(Do(s, a).leaked, k, f) >= Of(s.leaked, k, f) >= 0
    ensures Of(Do(s, a).leaked, k, f) > Of(s.leaked, k, f) <==> Leaks(s, a, k, f)
  {
    hide Takes, Fresh, Leaks, DoAskFails, DoReconcile, DoAbandon;
    match a
    case AskFails(t, ran) =>
      assert SoundTask(s, s.tasks[t]);
      AskFailsLeaks(s, t, ran, k, f);
    case Reconcile(t, actual, adjusted) => ReconcileLeaks(s, t, actual, adjusted, k, f);
    case Abandon(t) =>
      assert SoundTask(s, s.tasks[t]);
      AbandonLeaks(s, t, k, f);
    case Failover(key, value) => FailoverLeaks(s, key, value, k, f);
    case _ =>
      OthersLeakNothing(s, a);
      OthersAreNoLeaks(s, a, k, f);
  }

  /** In every run: something of a counter was left behind exactly if some step leaked it. */
  lemma {:induction false} LeakedIff(states: seq<State>, actions: seq<Action>, i: nat, k: CounterKey, f: Field)
    requires IsRun(states, actions) && i < |states|
    ensures Of(states[i].leaked, k, f) > 0 <==> exists j :: 0 <= j < i && Leaks(states[j], actions[j], k, f)
  {
    hide Do, CanDo, Sound, Accounted, Leaks;
    if i > 0 {
      LeakedIff(states, actions, i - 1, k, f);
      ReachableIsSound(states, actions, i - 1, k, f);
      StepLeaks(states[i - 1], actions[i - 1], k, f);
    }
  }

  /** A live counter that is never lost is what was settled and is outstanding exactly as
      long as no step has leaked it, and ahead of that from then on. */
  lemma RightIffNoneLeaked(states: seq<State>, actions: seq<Action>, i: nat, k: CounterKey, f: Field)
    requires KeepingRun(states, actions, k, f) && i < |states| && k in states[i].live
    ensures var s := states[i];
            && (Of(s.live, k, f) == Of(s.settled, k, f) + Outstanding(s.tasks, k, f)
                <==> forall j :: 0 <= j < i ==> !Leaks(states[j], actions[j], k, f))
            && Of(s.live, k, f) >= Of(s.settled, k, f) + Outstanding(s.tasks, k, f)
  {
    ReachableIsExact(states, actions, i, k, f);
    LeakedIff(states, actions, i, k, f);
  }

  /* ---- runs that come to it ---- */

  ghost predicate Reachable(s: State) {
    exists states, actions :: IsRun(states, actions) && states[|actions|] == s
  }

  lemma StartIsReachable(s: State)
    requires Start(s)
    ensures Reachable(s)
  {
    var actions: seq<Action> := [];
    assert IsRun([s], actions) && [s][|actions|] == s;
  }

  lemma StepIsReachable(s: State, a: Action)
    requires Reachable(s) && CanDo(s, a)
    ensures Reachable(Do(s, a))
  {
    hide Do, CanDo, Start;
    var states, actions :| IsRun(states, actions) && states[|actions|] == s;
    var more, taken := states + [Do(s, a)], actions + [a];
    forall i | 0 <= i < |taken| ensures CanDo(more[i], taken[i]) && more[i + 1] == Do(more[i], taken[i]) {
      assert i < |actions| ==> taken[i] == actions[i] && more[i] == states[i] && more[i + 1] == states[i + 1];
    }
    assert IsRun(more, taken) && more[|taken|] == Do(s, a);
  }

  function Zero(): QuotaUsage { QuotaUsage(0, 0, 0) }

  function FreshFlusher(): Flusher { Flusher([], map[], 1, false, false) }

  /** A state with one replica and one request, nothing dropped. */
  function Solo(live: Book, task: Task, fl: Flusher): State {
    State(live, map[], [task], [fl], map[], map[], map[], map[])
  }

  lemma Take(s: State, a: Action, to: State) returns (next: State)
    requires Reachable(s) && CanDo(s, a) && Do(s, a) == to
    ensures Reachable(next) && next == to
  {
    StepIsReachable(s, a);
    next := to;
  }

  lemma OneWindow(live: Book, l: Limit, amount: QuotaUsage)
    ensures Keys([l]) == [l.key]
    ensures l.key !in live ==> AnswerTo(live, [l], amount) == Missing([l.key])
    ensures l.key in live && (l.block ==> live[l.key].cost + amount.cost <= l.maxCost) ==>
              AnswerTo(live, [l], amount).Reserved?
  {
    assert [l][..0] == [];
  }

  /** A request nobody disturbs, its window's counter not there at first, gets to be served. */
  lemma Reserves(l: Limit, amount: QuotaUsage) returns (s: State)
    requires amount.NonNegative() && amount.requests > 0 && (l.block ==> amount.cost <= l.maxCost)
    ensures Reachable(s) && s == Solo(map[l.key := amount], Task(0, [l], amount, Holding), FreshFlusher())
  {
    hide Reachable, AnswerTo;
    var task := Task(0, [l], amount, Asking(0));
    s := State(map[], map[], [], [FreshFlusher()], map[], map[], map[], map[]);
    StartIsReachable(s);
    OneWindow(map[], l, amount);
    s := Take(s, Arrive(task), Solo(map[], task, FreshFlusher()));
    s := Take(s, Ask(0), Solo(map[], task.(phase := Rehydrating(Retry(0), [l.key], map[])), FreshFlusher()));
    s := Take(s, Fetch(0),
              Solo(map[], task.(phase := Rehydrating(Retry(0), [], map[l.key := Zero()])), FreshFlusher()));
    s := Take(s, Seed(0), Solo(map[l.key := Zero()], task.(phase := Asking(1)), FreshFlusher()));
    OneWindow(s.live, l, amount);
    s := Take(s, Ask(0), Solo(map[l.key := amount], task.(phase := Holding), FreshFlusher()));
  }

  /** Whatever was reserved and not used, there is a run that leaves just that behind: its
      correction failed, and the live counter stays ahead of all that is settled or reserved. */
  lemma FailedCorrectionRun(l: Limit, amount: QuotaUsage, actual: QuotaUsage, f: Field) returns (s: State)
    requires amount.NonNegative() && amount.requests > 0 && (l.block ==> amount.cost <= l.maxCost)
    requires actual.NonNegative() && Val(actual, f) < Val(amount, f)
    ensures Reachable(s) && l.key in s.live
    ensures Of(s.leaked, l.key, f) == Val(amount, f) - Val(actual, f)
    ensures Of(s.live, l.key, f)
            == Of(s.settled, l.key, f) + Outstanding(s.tasks, l.key, f) + Val(amount, f) - Val(actual, f)
  {
    hide Reachable, AnswerTo;
    var held := Reserves(l, amount);
    StepIsReachable(held, Reconcile(0, actual, false));
    s := DoReconcile(held, 0, actual, false);
    assert Keys([l]) == [l.key];
    HeldByNone(s.tasks, 1, l.key, f);
  }

  /** And one that leaves a whole reservation behind: its replica died holding it. */
  lemma AbandonedRun(l: Limit, amount: QuotaUsage, f: Field) returns (s: State)
    requires amount.NonNegative() && amount.requests > 0 && (l.block ==> amount.cost <= l.maxCost)
    ensures Reachable(s) && l.key in s.live && Of(s.leaked, l.key, f) == Val(amount, f)
    ensures Of(s.live, l.key, f) == Of(s.settled, l.key, f) + Outstanding(s.tasks, l.key, f) + Val(amount, f)
  {
    hide Reachable, AnswerTo;
    var held := Reserves(l, amount);
    StepIsReachable(held, Abandon(0));
    s := DoAbandon(held, 0);
    assert Keys([l]) == [l.key];
    HeldByNone(s.tasks, 1, l.key, f);
  }

  /** Whatever a request used, there is a run in which it never becomes durable: the last
      write at shutdown failed, and nobody tries again. */
  lemma LastWriteRun(l: Limit, amount: QuotaUsage, actual: QuotaUsage, f: Field) returns (s: State)
    requires amount.NonNegative() && amount.requests > 0 && (l.block ==> amount.cost <= l.maxCost)
    requires actual.NonNegative() && !actual.IsZero()
    ensures Reachable(s) && |s.flushers| == 1 && s.flushers[0].finished && s.flushers[0].pending == map[]
    ensures Of(s.settled, l.key, f) == Val(actual, f) && Of(s.durable, l.key, f) == 0
  {
    hide Reachable, AnswerTo;
    var held := Reserves(l, amount);
    s := Served(held, l, actual);
    StepIsReachable(s, Close(0));
    var closing := Do(s, Close(0));
    StepIsReachable(closing, Finish(0, RolledBack));
    s := DoFinish(closing, 0, RolledBack);
  }

  /** Whatever a request used, there is a run in which its durable counter ends up at twice
      that: its write was committed and reported as failed, and tried again. */
  lemma AmbiguousWriteRun(l: Limit, amount: QuotaUsage, actual: QuotaUsage, f: Field) returns (s: State)
    requires amount.NonNegative() && amount.requests > 0 && (l.block ==> amount.cost <= l.maxCost)
    requires actual.NonNegative() && Val(actual, f) > 0
    ensures Reachable(s)
    ensures Of(s.settled, l.key, f) == Val(actual, f) && Of(s.durable, l.key, f) == 2 * Val(actual, f)
  {
    hide Reachable, AnswerTo, Do;
    var held := Reserves(l, amount);
    var served := Served(held, l, actual);
    AmbiguousWriteCountsTwice(served, 0, l.key, f);
    StepIsReachable(served, Flush(0, Ambiguous));
    var once := Do(served, Flush(0, Ambiguous));
    StepIsReachable(once, Flush(0, Committed));
    s := Do(once, Flush(0, Committed));
  }

  /** It is served, and its usage gets as far as the flusher's loop. */
  lemma Served(held: State, l: Limit, actual: QuotaUsage) returns (s: State)
    requires Reachable(held) && actual.NonNegative() && !actual.IsZero()
    requires |held.tasks| == 1 && held.tasks[0].limits == [l] && held.tasks[0].replica == 0
    requires held == Solo(held.live, held.tasks[0].(phase := Holding), FreshFlusher())
    ensures Reachable(s) && |s.flushers| == 1 && s.flushers[0] == FreshFlusher().(pending := map[l.key := actual])
    ensures s.durable == map[] && forall f :: Of(s.settled, l.key, f) == Val(actual, f)
  {
    hide Reachable, AnswerTo, Fresh;
    assert Keys([l]) == [l.key];
    s := Take(held, Reconcile(0, actual, true), DoReconcile(held, 0, actual, true));
    s := Queues(s, l.key, actual);
  }

  lemma Queues(from: State, k: CounterKey, actual: QuotaUsage) returns (s: State)
    requires Reachable(from) && |from.tasks| == 1 && from.tasks[0].phase == Handing(actual, [k])
    requires from.tasks[0].replica == 0 && from.flushers == [FreshFlusher()]
    ensures Reachable(s) && s.flushers == [FreshFlusher().(pending := map[k := actual])]
    ensures s.durable == from.durable && s.settled == from.settled
  {
    hide Reachable, Fresh;
    var d := WindowUsage(k, actual);
    s := Take(from, HandOver(0), DoHandOver(from, 0));
    assert FreshFlusher().Accepts() && FreshFlusher().Offer(d).queue == [d];
    assert s.flushers == [FreshFlusher().Offer(d)];
    s := Take(s, Absorb(0), DoAbsorb(s, 0));
    assert [d][1..] == [];
  }
}
