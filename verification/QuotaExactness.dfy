/** Runs in which one live counter is not lost: it then equals, at every moment, what was
    settled, is outstanding and was left behind on it; seeding changes nothing, and no
    blocking cap is ever passed. Then the recovery: what one resync restores after losses. */
module QuotaExactness {
  import opened Basics
  import opened Amounts
  import opened LiveCounters
  import opened DurableCounters
  import opened Flushing
  import opened QuotaProtocol
  import opened QuotaSafety

  /** The counter is not lost, nor replaced by a smaller value, no write of it is replayed,
      and where a correction does not happen the request used no more than it reserved.
      Everything else may go wrong: replies lost after the script ran, failed corrections,
      dying processes and flushers, dropped deltas, failed writes, and losses elsewhere. */
  predicate Keeps(s: State, a: Action, k: CounterKey, f: Field) {
    match a
    case Reconcile(t, actual, adjusted) =>
      adjusted || t >= |s.tasks| || Val(actual, f) <= Val(s.tasks[t].amount, f)
    case Flush(r, commit) => commit.Ambiguous? && r < |s.flushers| ==> Of(s.flushers[r].pending, k, f) == 0
    case LoseKey(key) => key != k
    case Failover(key, value) => key == k ==> Val(value, f) >= Of(s.live, k, f)
    case _ => true
  }

  /** A counter nobody has reserved against yet is untouched, and every snapshot of it
      in anyone's hands is current. */
  ghost predicate Untouched(s: State, k: CounterKey, f: Field) {
    && Of(s.dropped, k, f) == 0 == Of(s.leaked, k, f) && Of(s.durable, k, f) == Of(s.settled, k, f)
    && (forall t | 0 <= t < |s.tasks| :: QuietTask(s.tasks[t], Of(s.durable, k, f), k, f))
    && (forall r | 0 <= r < |s.flushers| :: QuietFlusher(s.flushers[r], k))
  }

  ghost predicate QuietTask(task: Task, durable: int, k: CounterKey, f: Field) {
    && (task.phase.Holding? ==> k !in Keys(task.limits))
    && (task.phase.Handing? ==> k !in task.phase.left)
    && (task.phase.Rehydrating? && k in task.phase.got ==> Val(task.phase.got[k], f) == durable)
  }

  ghost predicate QuietFlusher(fl: Flusher, k: CounterKey) {
    k !in fl.pending && forall i | 0 <= i < |fl.queue| :: fl.queue[i].key != k
  }

  ghost predicate Exact(s: State, k: CounterKey, f: Field) {
    && Of(s.replayed, k, f) == 0
    && (k in s.live ==>
          Of(s.live, k, f) == Of(s.settled, k, f) + Outstanding(s.tasks, k, f) + Of(s.leaked, k, f))
    && (k !in s.live ==> Untouched(s, k, f))
  }

  lemma UntouchedIsIdle(s: State, k: CounterKey, f: Field)
    requires Untouched(s, k, f)
    ensures Outstanding(s.tasks, k, f) == 0
  {
    assert forall t | 0 <= t < |s.tasks| :: QuietTask(s.tasks[t], Of(s.durable, k, f), k, f);
    HeldByNone(s.tasks, |s.tasks|, k, f);
  }

  /** In an exact state no snapshot, however old, can move a counter that exists. */
  lemma SeedMovesNothing(s: State, t: nat, k: CounterKey, f: Field)
    requires Sound(s) && Balanced(s, k, f) && Exact(s, k, f)
    requires t < |s.tasks| && s.tasks[t].phase.Rehydrating? && k in s.live
    ensures Of(Raise(s.live, s.tasks[t].phase.got), k, f) == Of(s.live, k, f)
  {
    InFlightNonNegative(s, k, f);
    assert SoundTask(s, s.tasks[t]);
    var got := s.tasks[t].phase.got;
    if k in got {
      assert Val(got[k], f) <= Of(s.durable, k, f);
      assert Of(s.dropped, k, f) >= 0 && Of(s.leaked, k, f) >= 0;
    }
    RaiseMoves(s.live, got, k, f);
  }

  /* ---- one step ---- */

  lemma SeedStaysExact(s: State, t: nat, k: CounterKey, f: Field)
    requires Sound(s) && Balanced(s, k, f) && Exact(s, k, f) && CanDo(s, Seed(t))
    ensures Exact(DoSeed(s, t), k, f)
  {
    var phase := AfterSeed(s.tasks[t].phase.after);
    var got := s.tasks[t].phase.got;
    MovedTaskSums(s, t, phase, k, f);
    if k in s.live {
      SeedMovesNothing(s, t, k, f);
    } else {
      UntouchedIsIdle(s, k, f);
      assert QuietTask(s.tasks[t], Of(s.durable, k, f), k, f);
      MoveStaysUntouched(s, t, phase, k, f);
    }
  }

  lemma RehydrateFailsStaysExact(s: State, t: nat, ran: bool, k: CounterKey, f: Field)
    requires Sound(s) && Balanced(s, k, f) && Exact(s, k, f) && CanDo(s, RehydrateFails(t, ran))
    ensures Exact(DoRehydrateFails(s, t, ran), k, f)
  {
    MovedTaskSums(s, t, Over(Unavailable), k, f);
    if k in s.live {
      SeedMovesNothing(s, t, k, f);
    } else {
      UntouchedIsIdle(s, k, f);
      assert QuietTask(s.tasks[t], Of(s.durable, k, f), k, f);
      MoveStaysUntouched(s, t, Over(Unavailable), k, f);
    }
  }

  lemma MovedTaskSums(s: State, t: nat, phase: Phase, k: CounterKey, f: Field)
    requires t < |s.tasks| && !s.tasks[t].phase.Holding? && !phase.Holding?
    ensures Outstanding(Move(s, t, phase).tasks, k, f) == Outstanding(s.tasks, k, f)
  {
    TaskSums(s.tasks, t, s.tasks[t].(phase := phase), k, f);
  }

  lemma MoveStaysUntouched(s: State, t: nat, phase: Phase, k: CounterKey, f: Field)
    requires Untouched(s, k, f) && t < |s.tasks|
    requires QuietTask(s.tasks[t].(phase := phase), Of(s.durable, k, f), k, f)
    ensures Untouched(Move(s, t, phase), k, f)
  {
  }

  lemma PauseStaysExact(s: State, t: nat, phase: Phase, k: CounterKey, f: Field)
    requires Exact(s, k, f) && t < |s.tasks| && s.tasks[t].phase.Asking?
    requires phase.Over? || (phase.Rehydrating? && phase.got == map[])
    ensures Exact(Move(s, t, phase), k, f)
  {
    MovedTaskSums(s, t, phase, k, f);
    if k !in s.live {
      MoveStaysUntouched(s, t, phase, k, f);
    }
  }

  /** Taking a reservation touches only windows that have counters. */
  lemma TakeStaysExact(s: State, t: nat, k: CounterKey, f: Field)
    requires Exact(s, k, f) && CanDo(s, Ask(t))
    requires AnswerTo(s.live, s.tasks[t].limits, s.tasks[t].amount).Reserved?
    ensures Exact(DoAsk(s, t), k, f)
  {
    var task := s.tasks[t];
    ReserveMoves(s.live, task.limits, task.amount, k, f);
    TaskSums(s.tasks, t, task.(phase := Holding), k, f);
    if k !in s.live {
      assert MissingKeys(s.live, task.limits) == [];
      forall i | 0 <= i < |task.limits| ensures Keys(task.limits)[i] != k {
        assert task.limits[i].key in s.live;
      }
      MoveStaysUntouched(s, t, Holding, k, f);
    }
  }

  lemma AskStaysExact(s: State, t: nat, k: CounterKey, f: Field)
    requires Exact(s, k, f) && CanDo(s, Ask(t))
    ensures Exact(DoAsk(s, t), k, f)
  {
    var task := s.tasks[t];
    match AnswerTo(s.live, task.limits, task.amount)
    case Missing(windows) => PauseStaysExact(s, t, Rehydrating(Retry(task.phase.round), windows, map[]), k, f);
    case Blocked(breach) => PauseStaysExact(s, t, Over(Refused(breach)), k, f);
    case Reserved(_) => TakeStaysExact(s, t, k, f);
  }

  /** A window a reservation was taken from has a counter. */
  lemma ReservedKeysAreLive(live: Book, limits: seq<Limit>, amount: QuotaUsage, k: CounterKey)
    requires AnswerTo(live, limits, amount).Reserved? && k in Keys(limits)
    ensures k in live
  {
    assert MissingKeys(live, limits) == [];
    var i :| 0 <= i < |limits| && Keys(limits)[i] == k;
    assert limits[i].key in live;
  }

  /** A reply lost after the script took the reservation leaves it on the counters. */
  lemma LostReplyLeaves(s: State, t: nat, ran: bool, k: CounterKey, f: Field)
    requires CanDo(s, AskFails(t, ran))
    ensures var next := DoAskFails(s, t, ran);
            && next == Move(s, t, Over(Unavailable)).(live := next.live, leaked := next.leaked)
            && (k in next.live <==> k in s.live)
            && (k in s.live ==> Of(next.live, k, f) - Of(s.live, k, f) == Of(next.leaked, k, f) - Of(s.leaked, k, f))
            && (k !in s.live ==> Of(next.leaked, k, f) == Of(s.leaked, k, f))
  {
    var task := s.tasks[t];
    ReserveMoves(s.live, task.limits, task.amount, k, f);
    if AnswerTo(s.live, task.limits, task.amount).Reserved? && k in Keys(task.limits) {
      ReservedKeysAreLive(s.live, task.limits, task.amount, k);
    }
  }

  lemma AskFailsStaysExact(s: State, t: nat, ran: bool, k: CounterKey, f: Field)
    requires Exact(s, k, f) && CanDo(s, AskFails(t, ran))
    ensures Exact(DoAskFails(s, t, ran), k, f)
  {
    LostReplyLeaves(s, t, ran, k, f);
    MovedTaskSums(s, t, Over(Unavailable), k, f);
    hide DoAskFails, AnswerTo, HeldBy;
    if k !in s.live {
      MoveStaysUntouched(s, t, Over(Unavailable), k, f);
    }
  }

  /** A process dying with a reservation leaves it on the counters; with usage in hand, drops it. */
  lemma AbandonStaysExact(s: State, t: nat, k: CounterKey, f: Field)
    requires Exact(s, k, f) && CanDo(s, Abandon(t))
    ensures Exact(DoAbandon(s, t), k, f)
  {
    var task := s.tasks[t];
    TaskSums(s.tasks, t, task.(phase := Over(Abandoned)), k, f);
    if k !in s.live {
      assert QuietTask(task, Of(s.durable, k, f), k, f);
      MoveStaysUntouched(s, t, Over(Abandoned), k, f);
      assert Of(DoAbandon(s, t).dropped, k, f) == Of(s.dropped, k, f);
      assert Of(DoAbandon(s, t).leaked, k, f) == Of(s.leaked, k, f);
    }
  }

  lemma FetchStaysExact(s: State, t: nat, k: CounterKey, f: Field)
    requires Exact(s, k, f) && CanDo(s, Fetch(t))
    ensures Exact(DoFetch(s, t), k, f)
  {
    var phase := DoFetch(s, t).tasks[t].phase;
    MovedTaskSums(s, t, phase, k, f);
    if k !in s.live {
      assert QuietTask(s.tasks[t], Of(s.durable, k, f), k, f);
      MoveStaysUntouched(s, t, phase, k, f);
    }
  }

  /** A correction that does not happen leaves the excess over the actual usage behind. */
  lemma ReconcileStaysExact(s: State, t: nat, actual: QuotaUsage, adjusted: bool, k: CounterKey, f: Field)
    requires Exact(s, k, f) && CanDo(s, Reconcile(t, actual, adjusted))
    requires adjusted || Val(actual, f) <= Val(s.tasks[t].amount, f)
    ensures Exact(DoReconcile(s, t, actual, adjusted), k, f)
  {
    var task := s.tasks[t];
    var keys := Keys(task.limits);
    var next := DoReconcile(s, t, actual, adjusted);
    TaskSums(s.tasks, t, next.tasks[t], k, f);
    if k in s.live {
      BumpMoves(s.live, keys, actual.Sub(task.amount), k, f);
    } else {
      assert QuietTask(task, Of(s.durable, k, f), k, f);
      MoveStaysUntouched(s, t, next.tasks[t].phase, k, f);
      assert Of(next.settled, k, f) == Of(s.settled, k, f);
      assert Of(next.leaked, k, f) == Of(s.leaked, k, f);
    }
  }

  lemma HandOverStaysExact(s: State, t: nat, k: CounterKey, f: Field)
    requires Exact(s, k, f) && CanDo(s, HandOver(t))
    ensures Exact(DoHandOver(s, t), k, f)
  {
    var task := s.tasks[t];
    var left := task.phase.left;
    var next := DoHandOver(s, t);
    TaskSums(s.tasks, t, next.tasks[t], k, f);
    if k !in s.live {
      assert QuietTask(task, Of(s.durable, k, f), k, f);
      assert left == [left[0]] + left[1..];
      MoveStaysUntouched(s, t, next.tasks[t].phase, k, f);
      assert QuietFlusher(s.flushers[task.replica], k);
      assert Of(next.dropped, k, f) == Of(s.dropped, k, f);
    }
  }

  lemma ArriveStaysExact(s: State, task: Task, k: CounterKey, f: Field)
    requires Exact(s, k, f) && CanDo(s, Arrive(task))
    ensures Exact(DoArrive(s, task), k, f)
  {
    NewTaskSums(s.tasks, task, k, f);
  }

  lemma AbsorbStaysExact(s: State, r: nat, k: CounterKey, f: Field)
    requires Exact(s, k, f) && CanDo(s, Absorb(r))
    ensures Exact(DoAbsorb(s, r), k, f)
  {
    if k !in s.live {
      var fl := s.flushers[r];
      assert QuietFlusher(fl, k) && fl.queue[0].key != k;
      assert QuietFlusher(fl.Absorb(), k);
      assert Of(DoAbsorb(s, r).dropped, k, f) == Of(s.dropped, k, f);
    }
  }

  lemma FlushStaysExact(s: State, r: nat, commit: Commit, k: CounterKey, f: Field)
    requires Exact(s, k, f) && CanDo(s, Flush(r, commit))
    requires commit.Ambiguous? ==> Of(s.flushers[r].pending, k, f) == 0
    ensures Exact(DoFlush(s, r, commit), k, f)
  {
    if k !in s.live {
      assert QuietFlusher(s.flushers[r], k);
    }
  }

  lemma {:induction false} NothingSpilled(queue: seq<WindowUsage>, k: CounterKey, f: Field)
    requires forall i | 0 <= i < |queue| :: queue[i].key != k
    ensures Total(queue, k, f) == 0
  {
    if queue != [] {
      NothingSpilled(queue[..|queue| - 1], k, f);
    }
  }

  lemma CrashStaysExact(s: State, r: nat, k: CounterKey, f: Field)
    requires Exact(s, k, f) && r < |s.flushers|
    ensures Exact(DoCrash(s, r), k, f)
  {
    if k !in s.live {
      assert QuietFlusher(s.flushers[r], k);
      NothingSpilled(s.flushers[r].queue, k, f);
    }
  }

  lemma LossStaysExact(s: State, a: Action, k: CounterKey, f: Field)
    requires Exact(s, k, f) && CanDo(s, a) && Keeps(s, a, k, f) && (a.LoseKey? || a.Failover?)
    ensures Exact(Do(s, a), k, f)
  {
  }

  lemma FinishStaysExact(s: State, r: nat, commit: Commit, k: CounterKey, f: Field)
    requires Exact(s, k, f) && CanDo(s, Finish(r, commit))
    ensures Exact(DoFinish(s, r, commit), k, f)
  {
    if k !in s.live {
      assert QuietFlusher(s.flushers[r], k);
    }
  }

  lemma CloseStaysExact(s: State, r: nat, k: CounterKey, f: Field)
    requires Exact(s, k, f) && CanDo(s, Close(r))
    ensures Exact(Do(s, Close(r)), k, f)
  {
    if k !in s.live {
      assert QuietFlusher(s.flushers[r], k);
    }
  }

  lemma StepStaysExact(s: State, a: Action, k: CounterKey, f: Field)
    requires Sound(s) && Balanced(s, k, f) && Exact(s, k, f) && CanDo(s, a) && Keeps(s, a, k, f)
    ensures Exact(Do(s, a), k, f)
  {
    match a
    case Arrive(task) => ArriveStaysExact(s, task, k, f);
    case Ask(t) => AskStaysExact(s, t, k, f);
    case AskFails(t, ran) => AskFailsStaysExact(s, t, ran, k, f);
    case Fetch(t) => FetchStaysExact(s, t, k, f);
    case Seed(t) => SeedStaysExact(s, t, k, f);
    case RehydrateFails(t, ran) => RehydrateFailsStaysExact(s, t, ran, k, f);
    case Reconcile(t, actual, adjusted) => ReconcileStaysExact(s, t, actual, adjusted, k, f);
    case HandOver(t) => HandOverStaysExact(s, t, k, f);
    case Abandon(t) => AbandonStaysExact(s, t, k, f);
    case Absorb(r) => AbsorbStaysExact(s, r, k, f);
    case Flush(r, commit) => FlushStaysExact(s, r, commit, k, f);
    case Close(r) => CloseStaysExact(s, r, k, f);
    case Finish(r, commit) => FinishStaysExact(s, r, commit, k, f);
    case Crash(r) => CrashStaysExact(s, r, k, f);
    case LoseKey(_) => LossStaysExact(s, a, k, f);
    case Failover(_, _) => LossStaysExact(s, a, k, f);
  }

  /* ---- runs that keep the counter ---- */

  ghost predicate KeepingRun(states: seq<State>, actions: seq<Action>, k: CounterKey, f: Field) {
    IsRun(states, actions) && forall i | 0 <= i < |actions| :: Keeps(states[i], actions[i], k, f)
  }

  lemma {:induction false} ReachableIsExact(states: seq<State>, actions: seq<Action>, i: nat, k: CounterKey, f: Field)
    requires KeepingRun(states, actions, k, f) && i < |states|
    ensures Sound(states[i]) && Balanced(states[i], k, f) && Exact(states[i], k, f)
  {
    ReachableIsSound(states, actions, i, k, f);
    if i > 0 {
      ReachableIsExact(states, actions, i - 1, k, f);
      StepStaysExact(states[i - 1], actions[i - 1], k, f);
    }
  }

  /** A live counter that is never lost is, at every moment, exactly what is durable, on its
      way, dropped, outstanding or left behind; so it is exact but for what was left behind;
      and seeding any snapshot anyone holds, however stale, would change no counter. */
  lemma ExactConservation(states: seq<State>, actions: seq<Action>, i: nat, k: CounterKey, f: Field)
    requires KeepingRun(states, actions, k, f) && i < |states| && k in states[i].live
    ensures var s := states[i];
            && Of(s.live, k, f) == Of(s.durable, k, f) + Unflushed(s, k, f) + Of(s.dropped, k, f)
                                   + Outstanding(s.tasks, k, f) + Of(s.leaked, k, f)
            && (Of(s.live, k, f) == Of(s.settled, k, f) + Outstanding(s.tasks, k, f) <==> Of(s.leaked, k, f) == 0)
            && forall t | 0 <= t < |s.tasks| && s.tasks[t].phase.Rehydrating? ::
                 Of(Raise(s.live, s.tasks[t].phase.got), k, f) == Of(s.live, k, f)
  {
    ReachableIsExact(states, actions, i, k, f);
    var s := states[i];
    forall t | 0 <= t < |s.tasks| && s.tasks[t].phase.Rehydrating?
      ensures Of(Raise(s.live, s.tasks[t].phase.got), k, f) == Of(s.live, k, f)
    {
      SeedMovesNothing(s, t, k, f);
    }
  }

  /** What a failed correction leaves behind: the counter stands still, and is ahead by
      what was reserved and not used. */
  lemma FailedCorrectionLeaks(s: State, t: nat, actual: QuotaUsage, k: CounterKey, f: Field)
    requires CanDo(s, Reconcile(t, actual, false)) && k in Keys(s.tasks[t].limits)
    ensures var next := DoReconcile(s, t, actual, false);
            var excess := Val(s.tasks[t].amount, f) - Val(actual, f);
            && next.live == s.live
            && Of(next.settled, k, f) == Of(s.settled, k, f) + Val(actual, f)
            && Of(next.leaked, k, f) == Of(s.leaked, k, f) + if excess > 0 then excess else 0
  {
  }

  /* ---- caps ---- */

  /** Every request that touches k carries k's cap as a blocking limit. */
  ghost predicate CapsTask(task: Task, k: CounterKey, cap: int) {
    forall i | 0 <= i < |task.limits| && task.limits[i].key == k ::
      task.limits[i].block && task.limits[i].maxCost == cap
  }

  ghost predicate RespectsCap(s: State, k: CounterKey, cap: int) {
    && (forall t | 0 <= t < |s.tasks| :: CapsTask(s.tasks[t], k, cap))
    && (if k in s.live then CostOf(s.live, k) <= cap else CostOf(s.durable, k) <= cap)
  }

  /** The limits on k are fixed, no request costs more than was reserved for it, and no
      other value takes the counter's place. */
  ghost predicate FixedCap(s: State, a: Action, k: CounterKey, cap: int) {
    match a
    case Arrive(task) => CapsTask(task, k, cap)
    case Reconcile(t, actual, _) => t < |s.tasks| ==> actual.cost <= s.tasks[t].amount.cost
    case Failover(key, _) => key != k
    case _ => true
  }

  lemma MoveRespectsCap(s: State, t: nat, phase: Phase, live: Book, k: CounterKey, cap: int)
    requires RespectsCap(s, k, cap) && t < |s.tasks|
    requires if k in live then CostOf(live, k) <= cap else k !in s.live
    ensures RespectsCap(Move(s, t, phase).(live := live), k, cap)
  {
    assert CapsTask(s.tasks[t], k, cap);
    assert CapsTask(s.tasks[t].(phase := phase), k, cap);
  }

  lemma ReserveRespectsCap(live: Book, limits: seq<Limit>, amount: QuotaUsage, k: CounterKey, cap: int)
    requires k in live && CostOf(live, k) <= cap
    requires forall i | 0 <= i < |limits| && limits[i].key == k :: limits[i].block && limits[i].maxCost == cap
    ensures CostOf(AfterReserve(live, limits, amount), k) <= cap
  {
    ReserveMoves(live, limits, amount, k, Cost);
    if AnswerTo(live, limits, amount).Reserved? && k in Keys(limits) {
      var i :| 0 <= i < |limits| && Keys(limits)[i] == k;
      ReserveIsAllOrNothing(live, limits, amount);
    }
  }

  lemma AskRespectsCap(s: State, t: nat, k: CounterKey, cap: int)
    requires RespectsCap(s, k, cap) && CanDo(s, Ask(t))
    ensures RespectsCap(DoAsk(s, t), k, cap)
  {
    var task := s.tasks[t];
    assert CapsTask(task, k, cap);
    var after := AfterReserve(s.live, task.limits, task.amount);
    assert after.Keys == s.live.Keys;
    if k in s.live {
      ReserveRespectsCap(s.live, task.limits, task.amount, k, cap);
    }
    MoveRespectsCap(s, t, DoAsk(s, t).tasks[t].phase, after, k, cap);
  }

  lemma RaiseRespectsCap(s: State, t: nat, phase: Phase, k: CounterKey, cap: int)
    requires Sound(s) && Balanced(s, k, Cost) && Exact(s, k, Cost) && RespectsCap(s, k, cap)
    requires t < |s.tasks| && s.tasks[t].phase.Rehydrating?
    ensures RespectsCap(Move(s, t, phase).(live := Raise(s.live, s.tasks[t].phase.got)), k, cap)
    ensures RespectsCap(Move(s, t, phase), k, cap)
  {
    if k in s.live {
      SeedMovesNothing(s, t, k, Cost);
    } else {
      assert QuietTask(s.tasks[t], CostOf(s.durable, k), k, Cost);
    }
    MoveRespectsCap(s, t, phase, Raise(s.live, s.tasks[t].phase.got), k, cap);
    MoveRespectsCap(s, t, phase, s.live, k, cap);
  }

  lemma AskFailsRespectsCap(s: State, t: nat, ran: bool, k: CounterKey, cap: int)
    requires RespectsCap(s, k, cap) && CanDo(s, AskFails(t, ran))
    ensures RespectsCap(DoAskFails(s, t, ran), k, cap)
  {
    var task := s.tasks[t];
    assert CapsTask(task, k, cap);
    if k in s.live {
      ReserveRespectsCap(s.live, task.limits, task.amount, k, cap);
    }
    MoveRespectsCap(s, t, Over(Unavailable), DoAskFails(s, t, ran).live, k, cap);
  }

  lemma ReconcileRespectsCap(s: State, t: nat, actual: QuotaUsage, adjusted: bool, k: CounterKey, cap: int)
    requires RespectsCap(s, k, cap) && CanDo(s, Reconcile(t, actual, adjusted))
    requires actual.cost <= s.tasks[t].amount.cost
    ensures RespectsCap(DoReconcile(s, t, actual, adjusted), k, cap)
  {
    var next := DoReconcile(s, t, actual, adjusted);
    if k in s.live {
      BumpMoves(s.live, Keys(s.tasks[t].limits), actual.Sub(s.tasks[t].amount), k, Cost);
    }
    MoveRespectsCap(s, t, next.tasks[t].phase, next.live, k, cap);
  }

  lemma HandOverRespectsCap(s: State, t: nat, k: CounterKey, cap: int)
    requires RespectsCap(s, k, cap) && CanDo(s, HandOver(t))
    ensures RespectsCap(DoHandOver(s, t), k, cap)
  {
    MoveRespectsCap(s, t, DoHandOver(s, t).tasks[t].phase, s.live, k, cap);
  }

  lemma FetchRespectsCap(s: State, t: nat, k: CounterKey, cap: int)
    requires RespectsCap(s, k, cap) && CanDo(s, Fetch(t))
    ensures RespectsCap(DoFetch(s, t), k, cap)
  {
    MoveRespectsCap(s, t, DoFetch(s, t).tasks[t].phase, s.live, k, cap);
  }

  lemma AbandonRespectsCap(s: State, t: nat, k: CounterKey, cap: int)
    requires RespectsCap(s, k, cap) && CanDo(s, Abandon(t))
    ensures RespectsCap(DoAbandon(s, t), k, cap)
  {
    MoveRespectsCap(s, t, Over(Abandoned), s.live, k, cap);
  }

  /** A flusher's step moves no live counter, and no durable one that nobody has used. */
  lemma FlushRespectsCap(s: State, r: nat, commit: Commit, k: CounterKey, cap: int)
    requires Exact(s, k, Cost) && RespectsCap(s, k, cap) && CanDo(s, Flush(r, commit))
    ensures RespectsCap(DoFlush(s, r, commit), k, cap)
  {
    assert k !in s.live ==> QuietFlusher(s.flushers[r], k);
  }

  lemma FinishRespectsCap(s: State, r: nat, commit: Commit, k: CounterKey, cap: int)
    requires Exact(s, k, Cost) && RespectsCap(s, k, cap) && CanDo(s, Finish(r, commit))
    ensures RespectsCap(DoFinish(s, r, commit), k, cap)
  {
    assert k !in s.live ==> QuietFlusher(s.flushers[r], k);
  }

  lemma QueueRespectsCap(s: State, a: Action, k: CounterKey, cap: int)
    requires RespectsCap(s, k, cap) && CanDo(s, a) && (a.Absorb? || a.Close? || a.Crash?)
    ensures RespectsCap(Do(s, a), k, cap)
  {
  }

  lemma ArriveRespectsCap(s: State, task: Task, k: CounterKey, cap: int)
    requires RespectsCap(s, k, cap) && CapsTask(task, k, cap)
    ensures RespectsCap(DoArrive(s, task), k, cap)
  {
  }

  lemma LossRespectsCap(s: State, a: Action, k: CounterKey, cap: int)
    requires RespectsCap(s, k, cap) && CanDo(s, a) && (a.LoseKey? || a.Failover?)
    requires Keeps(s, a, k, Cost) && FixedCap(s, a, k, cap)
    ensures RespectsCap(Do(s, a), k, cap)
  {
  }

  lemma StepRespectsCap(s: State, a: Action, k: CounterKey, cap: int)
    requires Sound(s) && Balanced(s, k, Cost) && Exact(s, k, Cost) && RespectsCap(s, k, cap)
    requires CanDo(s, a) && Keeps(s, a, k, Cost) && FixedCap(s, a, k, cap)
    ensures RespectsCap(Do(s, a), k, cap)
  {
    hide RespectsCap, Exact, Sound, Balanced, CapsTask;
    match a
    case Arrive(task) => ArriveRespectsCap(s, task, k, cap);
    case Ask(t) => AskRespectsCap(s, t, k, cap);
    case AskFails(t, ran) => AskFailsRespectsCap(s, t, ran, k, cap);
    case Fetch(t) => FetchRespectsCap(s, t, k, cap);
    case Seed(t) => RaiseRespectsCap(s, t, AfterSeed(s.tasks[t].phase.after), k, cap);
    case RehydrateFails(t, ran) => RaiseRespectsCap(s, t, Over(Unavailable), k, cap);
    case Reconcile(t, actual, adjusted) => ReconcileRespectsCap(s, t, actual, adjusted, k, cap);
    case HandOver(t) => HandOverRespectsCap(s, t, k, cap);
    case Abandon(t) => AbandonRespectsCap(s, t, k, cap);
    case Absorb(_) => QueueRespectsCap(s, a, k, cap);
    case Flush(r, commit) => FlushRespectsCap(s, r, commit, k, cap);
    case Close(_) => QueueRespectsCap(s, a, k, cap);
    case Finish(r, commit) => FinishRespectsCap(s, r, commit, k, cap);
    case Crash(_) => QueueRespectsCap(s, a, k, cap);
    case LoseKey(_) => LossRespectsCap(s, a, k, cap);
    case Failover(_, _) => LossRespectsCap(s, a, k, cap);
  }

  lemma {:induction false} ReachableRespectsCap(
      states: seq<State>, actions: seq<Action>, i: nat, k: CounterKey, cap: int)
    requires KeepingRun(states, actions, k, Cost) && i < |states|
    requires CostOf(states[0].durable, k) <= cap
    requires forall j | 0 <= j < |actions| :: FixedCap(states[j], actions[j], k, cap)
    ensures RespectsCap(states[i], k, cap)
  {
    if i > 0 {
      ReachableRespectsCap(states, actions, i - 1, k, cap);
      ReachableIsExact(states, actions, i - 1, k, Cost);
      StepRespectsCap(states[i - 1], actions[i - 1], k, cap);
    }
  }

  /** A blocking cap that its counter starts within is never passed while the counter is
      not lost, by any number of replicas and whatever else fails: not by the live counter,
      nor by all that was ever spent, is reserved, or was left behind. */
  lemma CapsHold(states: seq<State>, actions: seq<Action>, i: nat, k: CounterKey, cap: int)
    requires KeepingRun(states, actions, k, Cost) && i < |states|
    requires CostOf(states[0].durable, k) <= cap
    requires forall j | 0 <= j < |actions| :: FixedCap(states[j], actions[j], k, cap)
    ensures k in states[i].live ==> CostOf(states[i].live, k) <= cap
    ensures CostOf(states[i].settled, k) + Outstanding(states[i].tasks, k, Cost) + CostOf(states[i].leaked, k) <= cap
  {
    ReachableRespectsCap(states, actions, i, k, cap);
    ReachableIsExact(states, actions, i, k, Cost);
    if k !in states[i].live {
      UntouchedIsIdle(states[i], k, Cost);
    }
  }

  /* ---- healing ---- */

  /** Nothing is reserved against the counter, nothing of it is on its way, and none of
      its usage was dropped, left behind or replayed. */
  ghost predicate Quiescent(s: State, k: CounterKey, f: Field) {
    && (forall t | 0 <= t < |s.tasks| :: s.tasks[t].phase.Holding? ==> k !in Keys(s.tasks[t].limits))
    && Unflushed(s, k, f) == 0
    && Of(s.dropped, k, f) == 0 && Of(s.leaked, k, f) == 0 && Of(s.replayed, k, f) == 0
  }

  lemma OnlyReconcileSettles(s: State, a: Action)
    requires CanDo(s, a) && !a.Reconcile?
    ensures Do(s, a).settled == s.settled
  {
  }

  lemma QuietStepSettlesNothing(s: State, a: Action, k: CounterKey, f: Field)
    requires CanDo(s, a) && Quiescent(s, k, f)
    ensures Of(Do(s, a).settled, k, f) == Of(s.settled, k, f)
  {
    if a.Reconcile? {
      assert k !in Keys(s.tasks[a.t].limits);
      assert Do(s, a) == DoReconcile(s, a.t, a.actual, a.adjusted);
    } else {
      OnlyReconcileSettles(s, a);
    }
  }

  lemma QuiescentIsSettled(s: State, k: CounterKey, f: Field)
    requires Sound(s) && Accounted(s, k, f) && Quiescent(s, k, f)
    ensures Of(s.durable, k, f) == Of(s.settled, k, f)
    ensures k in s.live ==> Of(s.live, k, f) <= Of(s.settled, k, f)
  {
    HeldByNone(s.tasks, |s.tasks|, k, f);
  }

  /** Between two actions of a rehydration, nothing acts on its task but its own reads. */
  predicate LeavesTask(a: Action, t: nat) {
    a == Fetch(t) || (ByTask(a) ==> a.t != t)
  }

  /** Task t holds a snapshot of k that is the whole truth about it. */
  ghost predicate HasTruth(s: State, t: nat, k: CounterKey, f: Field) {
    && t < |s.tasks| && s.tasks[t].phase.Rehydrating?
    && k in s.tasks[t].phase.got && Val(s.tasks[t].phase.got[k], f) == Of(s.settled, k, f)
  }

  lemma FetchBringsTruth(s: State, t: nat, k: CounterKey, f: Field)
    requires CanDo(s, Fetch(t)) && Of(s.durable, k, f) == Of(s.settled, k, f)
    requires s.tasks[t].phase.todo[0] == k || HasTruth(s, t, k, f)
    ensures HasTruth(DoFetch(s, t), t, k, f)
  {
  }

  lemma StepKeepsTruth(s: State, a: Action, t: nat, k: CounterKey, f: Field)
    requires Sound(s) && Accounted(s, k, f) && Quiescent(s, k, f)
    requires CanDo(s, a) && HasTruth(s, t, k, f) && LeavesTask(a, t)
    ensures HasTruth(Do(s, a), t, k, f)
  {
    if a == Fetch(t) {
      QuiescentIsSettled(s, k, f);
      FetchBringsTruth(s, t, k, f);
    } else {
      OthersLeaveTask(s, a, t);
      QuietStepSettlesNothing(s, a, k, f);
    }
  }

  lemma {:induction false} TruthLasts(
      states: seq<State>, actions: seq<Action>, i: nat, j: nat, t: nat, k: CounterKey, f: Field)
    requires IsRun(states, actions) && i < j < |states|
    requires actions[i] == Fetch(t) && CanDo(states[i], Fetch(t)) && states[i].tasks[t].phase.todo[0] == k
    requires forall m | i < m < j :: LeavesTask(actions[m], t)
    requires forall m | i <= m < j :: Quiescent(states[m], k, f)
    ensures HasTruth(states[j], t, k, f)
  {
    hide Quiescent, HasTruth, Start, Sound, Accounted;
    ReachableIsSound(states, actions, j - 1, k, f);
    if j == i + 1 {
      QuiescentIsSettled(states[i], k, f);
      FetchBringsTruth(states[i], t, k, f);
    } else {
      TruthLasts(states, actions, i, j - 1, t, k, f);
      StepKeepsTruth(states[j - 1], actions[j - 1], t, k, f);
    }
  }

  /** After any history of lost counters, failovers and outages: once a window is quiescent,
      one rehydration that reads the window's snapshot and later seeds, the window quiescent
      throughout, leaves the live counter, the durable one and the truth all equal. Others
      may go on reserving elsewhere, reading, seeding and losing keys meanwhile. */
  lemma OneResyncHeals(
      states: seq<State>, actions: seq<Action>, i: nat, j: nat, t: nat, k: CounterKey, f: Field)
    requires IsRun(states, actions) && i < j < |actions|
    requires actions[i] == Fetch(t) && CanDo(states[i], Fetch(t)) && states[i].tasks[t].phase.todo[0] == k
    requires actions[j] == Seed(t) && forall m | i < m < j :: LeavesTask(actions[m], t)
    requires forall m | i <= m <= j :: Quiescent(states[m], k, f)
    ensures k in states[j + 1].live
    ensures Of(states[j + 1].live, k, f) == Of(states[j + 1].durable, k, f) == Of(states[j + 1].settled, k, f)
  {
    var s := states[j];
    ReachableIsSound(states, actions, j, k, f);
    QuiescentIsSettled(s, k, f);
    TruthLasts(states, actions, i, j, t, k, f);
    assert states[j + 1] == DoSeed(s, t);
    RaiseMoves(s.live, s.tasks[t].phase.got, k, f);
  }
}
