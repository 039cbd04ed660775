/** What every step of the quota protocol keeps, whatever fails: usage is accounted for
    exactly once on the durable side, and no live counter ever runs ahead of what was
    settled, is outstanding, or was left behind. */
module QuotaSafety {
  import opened Basics
  import opened Amounts
  import opened LiveCounters
  import opened DurableCounters
  import opened Flushing
  import opened QuotaProtocol

  /* ---- what is in flight for one counter ---- */

  function Held(task: Task, k: CounterKey, f: Field): int {
    if task.phase.Holding? && k in Keys(task.limits) then Val(task.amount, f) else 0
  }

  function InHand(task: Task, k: CounterKey, f: Field): int {
    if task.phase.Handing? && k in task.phase.left then Val(task.phase.actual, f) else 0
  }

  function HeldBy(tasks: seq<Task>, n: nat, k: CounterKey, f: Field): int
    requires n <= |tasks|
  {
    if n == 0 then 0 else HeldBy(tasks, n - 1, k, f) + Held(tasks[n - 1], k, f)
  }

  function InHandOf(tasks: seq<Task>, n: nat, k: CounterKey, f: Field): int
    requires n <= |tasks|
  {
    if n == 0 then 0 else InHandOf(tasks, n - 1, k, f) + InHand(tasks[n - 1], k, f)
  }

  function BacklogOf(flushers: seq<Flusher>, n: nat, k: CounterKey, f: Field): int
    requires n <= |flushers|
  {
    if n == 0 then 0 else BacklogOf(flushers, n - 1, k, f) + flushers[n - 1].Backlog(k, f)
  }

  /** Reserved and not yet corrected. */
  function Outstanding(tasks: seq<Task>, k: CounterKey, f: Field): int {
    HeldBy(tasks, |tasks|, k, f)
  }

  function Handed(tasks: seq<Task>, k: CounterKey, f: Field): int {
    InHandOf(tasks, |tasks|, k, f)
  }

  function Queued(flushers: seq<Flusher>, k: CounterKey, f: Field): int {
    BacklogOf(flushers, |flushers|, k, f)
  }

  /** Settled and on its way to the durable counter. */
  function Unflushed(s: State, k: CounterKey, f: Field): int {
    Handed(s.tasks, k, f) + Queued(s.flushers, k, f)
  }

  lemma {:induction false} SumsUpTo(tasks: seq<Task>, n: nat, t: nat, task: Task, k: CounterKey, f: Field)
    requires n <= |tasks| && t < |tasks|
    ensures HeldBy(tasks[t := task], n, k, f)
            == HeldBy(tasks, n, k, f) + if t < n then Held(task, k, f) - Held(tasks[t], k, f) else 0
    ensures InHandOf(tasks[t := task], n, k, f)
            == InHandOf(tasks, n, k, f) + if t < n then InHand(task, k, f) - InHand(tasks[t], k, f) else 0
  {
    if n > 0 {
      SumsUpTo(tasks, n - 1, t, task, k, f);
    }
  }

  lemma TaskSums(tasks: seq<Task>, t: nat, task: Task, k: CounterKey, f: Field)
    requires t < |tasks|
    ensures Outstanding(tasks[t := task], k, f) == Outstanding(tasks, k, f) - Held(tasks[t], k, f) + Held(task, k, f)
    ensures Handed(tasks[t := task], k, f) == Handed(tasks, k, f) - InHand(tasks[t], k, f) + InHand(task, k, f)
  {
    SumsUpTo(tasks, |tasks|, t, task, k, f);
  }

  lemma {:induction false} SumsOfPrefix(tasks: seq<Task>, more: seq<Task>, n: nat, k: CounterKey, f: Field)
    requires n <= |tasks|
    ensures HeldBy(tasks + more, n, k, f) == HeldBy(tasks, n, k, f)
    ensures InHandOf(tasks + more, n, k, f) == InHandOf(tasks, n, k, f)
  {
    if n > 0 {
      SumsOfPrefix(tasks, more, n - 1, k, f);
    }
  }

  lemma NewTaskSums(tasks: seq<Task>, task: Task, k: CounterKey, f: Field)
    ensures Outstanding(tasks + [task], k, f) == Outstanding(tasks, k, f) + Held(task, k, f)
    ensures Handed(tasks + [task], k, f) == Handed(tasks, k, f) + InHand(task, k, f)
  {
    SumsOfPrefix(tasks, [task], |tasks|, k, f);
  }

  lemma {:induction false} BacklogUpTo(flushers: seq<Flusher>, n: nat, r: nat, fl: Flusher, k: CounterKey, f: Field)
    requires n <= |flushers| && r < |flushers|
    ensures BacklogOf(flushers[r := fl], n, k, f)
            == BacklogOf(flushers, n, k, f) + if r < n then fl.Backlog(k, f) - flushers[r].Backlog(k, f) else 0
  {
    if n > 0 {
      BacklogUpTo(flushers, n - 1, r, fl, k, f);
    }
  }

  lemma FlusherSums(flushers: seq<Flusher>, r: nat, fl: Flusher, k: CounterKey, f: Field)
    requires r < |flushers|
    ensures Queued(flushers[r := fl], k, f)
            == Queued(flushers, k, f) - flushers[r].Backlog(k, f) + fl.Backlog(k, f)
  {
    BacklogUpTo(flushers, |flushers|, r, fl, k, f);
  }

  lemma {:induction false} HeldBounds(tasks: seq<Task>, n: nat, k: CounterKey, f: Field)
    requires n <= |tasks|
    requires forall t | 0 <= t < n :: tasks[t].amount.NonNegative()
    requires forall t | 0 <= t < n && tasks[t].phase.Handing? :: tasks[t].phase.actual.NonNegative()
    ensures HeldBy(tasks, n, k, f) >= 0 && InHandOf(tasks, n, k, f) >= 0
  {
    if n > 0 {
      HeldBounds(tasks, n - 1, k, f);
      assert tasks[n - 1].amount.NonNegative();
    }
  }

  lemma {:induction false} HeldByNone(tasks: seq<Task>, n: nat, k: CounterKey, f: Field)
    requires n <= |tasks|
    requires forall t | 0 <= t < n && tasks[t].phase.Holding? :: k !in Keys(tasks[t].limits)
    ensures HeldBy(tasks, n, k, f) == 0
  {
    if n > 0 {
      HeldByNone(tasks, n - 1, k, f);
      assert Held(tasks[n - 1], k, f) == 0;
    }
  }

  lemma {:induction false} BacklogBounds(flushers: seq<Flusher>, n: nat, k: CounterKey, f: Field)
    requires n <= |flushers| && forall r | 0 <= r < n :: SoundFlusher(flushers[r])
    ensures BacklogOf(flushers, n, k, f) >= 0
  {
    if n > 0 {
      BacklogBounds(flushers, n - 1, k, f);
      assert SoundFlusher(flushers[n - 1]);
      TotalNonNegative(flushers[n - 1].queue, k, f);
    }
  }

  /* ---- the shape of reachable states ---- */

  ghost predicate SoundTask(s: State, task: Task) {
    && task.replica < |s.flushers|
    && Distinct(Keys(task.limits))
    && task.amount.NonNegative()
    && (task.phase.Asking? || task.phase.Holding? ==> task.amount.requests > 0)
    && (task.phase.Rehydrating? && task.phase.after.Retry? ==> task.amount.requests > 0)
    && (task.phase.Rehydrating? ==> NoneAhead(task.phase.got, s.durable))
    && (task.phase.Handing? ==>
          task.phase.actual.NonNegative() && Distinct(task.phase.left)
          && forall k | k in task.phase.left :: k in Keys(task.limits))
  }

  /** A snapshot, however stale, is not ahead of the counter it was read from. */
  ghost predicate NoneAhead(got: Book, durable: Book) {
    forall k, f | k in got :: Val(got[k], f) <= Of(durable, k, f)
  }

  ghost predicate SoundFlusher(fl: Flusher) {
    && fl.Bounded()
    && NoneNegative(fl.pending)
    && forall i | 0 <= i < |fl.queue| :: fl.queue[i].usage.NonNegative()
  }

  ghost predicate Sound(s: State) {
    && (forall t | 0 <= t < |s.tasks| :: SoundTask(s, s.tasks[t]))
    && (forall r | 0 <= r < |s.flushers| :: SoundFlusher(s.flushers[r]))
    && SoundLedgers(s)
  }

  ghost predicate SoundLedgers(s: State) {
    && NoneNegative(s.durable) && NoneNegative(s.settled)
    && NoneNegative(s.dropped) && NoneNegative(s.leaked) && NoneNegative(s.replayed)
  }

  /* ---- the two books ---- */

  /** The durable side: what was settled is durable, on its way, or dropped, and what is
      durable beyond that was written twice by an ambiguous commit. */
  ghost predicate Balanced(s: State, k: CounterKey, f: Field) {
    Of(s.durable, k, f) + Unflushed(s, k, f) + Of(s.dropped, k, f)
    == Of(s.settled, k, f) + Of(s.replayed, k, f)
  }

  /** The live side. */
  ghost predicate NotAhead(s: State, k: CounterKey, f: Field) {
    k in s.live ==>
      Of(s.live, k, f)
      <= Of(s.settled, k, f) + Outstanding(s.tasks, k, f) + Of(s.leaked, k, f) + Of(s.replayed, k, f)
  }

  lemma {:induction false} TotalNonNegative(queue: seq<WindowUsage>, k: CounterKey, f: Field)
    requires forall i | 0 <= i < |queue| :: queue[i].usage.NonNegative()
    ensures Total(queue, k, f) >= 0
  {
    if queue != [] {
      TotalNonNegative(queue[..|queue| - 1], k, f);
    }
  }

  lemma InFlightNonNegative(s: State, k: CounterKey, f: Field)
    requires Sound(s)
    ensures Outstanding(s.tasks, k, f) >= 0
    ensures Unflushed(s, k, f) >= 0
  {
    forall t | 0 <= t < |s.tasks|
      ensures s.tasks[t].amount.NonNegative() && (s.tasks[t].phase.Handing? ==> s.tasks[t].phase.actual.NonNegative())
    {
      assert SoundTask(s, s.tasks[t]);
    }
    HeldBounds(s.tasks, |s.tasks|, k, f);
    BacklogBounds(s.flushers, |s.flushers|, k, f);
  }

  /** No counter, nor any snapshot of it, is above what was settled or replayed. */
  lemma DurableNotAhead(s: State, k: CounterKey, f: Field)
    requires Sound(s) && Balanced(s, k, f)
    ensures Of(s.durable, k, f) <= Of(s.settled, k, f) + Of(s.replayed, k, f)
  {
    InFlightNonNegative(s, k, f);
  }

  /* ---- one step ---- */

  ghost predicate Accounted(s: State, k: CounterKey, f: Field) {
    Balanced(s, k, f) && NotAhead(s, k, f)
  }

  lemma ReserveMoves(live: Book, limits: seq<Limit>, amount: QuotaUsage, k: CounterKey, f: Field)
    ensures AfterReserve(live, limits, amount).Keys == live.Keys
    ensures k in live ==>
              Of(AfterReserve(live, limits, amount), k, f)
              == Of(live, k, f)
                 + if AnswerTo(live, limits, amount).Reserved? && k in Keys(limits) then Val(amount, f) else 0
  {
  }

  lemma TakeKeeps(s: State, t: nat, live: Book, k: CounterKey, f: Field)
    requires t < |s.tasks| && s.tasks[t].phase.Asking? && Accounted(s, k, f)
    requires live.Keys == s.live.Keys
    requires k in live ==> Of(live, k, f) == Of(s.live, k, f)
                                             + if k in Keys(s.tasks[t].limits) then Val(s.tasks[t].amount, f) else 0
    ensures Accounted(Move(s, t, Holding).(live := live), k, f)
  {
    TaskSums(s.tasks, t, s.tasks[t].(phase := Holding), k, f);
  }

  lemma PauseKeeps(s: State, t: nat, phase: Phase, k: CounterKey, f: Field)
    requires t < |s.tasks| && s.tasks[t].phase.Asking? && Accounted(s, k, f)
    requires !phase.Holding? && !phase.Handing?
    ensures Accounted(Move(s, t, phase), k, f)
  {
    TaskSums(s.tasks, t, s.tasks[t].(phase := phase), k, f);
  }

  lemma AskKeeps(s: State, t: nat, k: CounterKey, f: Field)
    requires CanDo(s, Ask(t)) && Accounted(s, k, f)
    ensures Accounted(DoAsk(s, t), k, f)
  {
    hide HeldBy, InHandOf, BacklogOf, AnswerTo, Accounted;
    var task := s.tasks[t];
    match AnswerTo(s.live, task.limits, task.amount)
    case Missing(windows) => PauseKeeps(s, t, Rehydrating(Retry(task.phase.round), windows, map[]), k, f);
    case Blocked(breach) => PauseKeeps(s, t, Over(Refused(breach)), k, f);
    case Reserved(_) =>
      ReserveMoves(s.live, task.limits, task.amount, k, f);
      TakeKeeps(s, t, AfterReserve(s.live, task.limits, task.amount), k, f);
  }

  lemma AskFailsKeeps(s: State, t: nat, ran: bool, k: CounterKey, f: Field)
    requires CanDo(s, AskFails(t, ran)) && Accounted(s, k, f)
    requires s.tasks[t].amount.NonNegative()
    ensures Accounted(DoAskFails(s, t, ran), k, f)
  {
    var task := s.tasks[t];
    ReserveMoves(s.live, task.limits, task.amount, k, f);
    TaskSums(s.tasks, t, task.(phase := Over(Unavailable)), k, f);
  }

  lemma FetchKeeps(s: State, t: nat, k: CounterKey, f: Field)
    requires CanDo(s, Fetch(t)) && Accounted(s, k, f)
    ensures Accounted(DoFetch(s, t), k, f)
  {
    TaskSums(s.tasks, t, DoFetch(s, t).tasks[t], k, f);
  }

  lemma RaiseMoves(live: Book, got: Book, k: CounterKey, f: Field)
    ensures k in Raise(live, got) ==>
              || (k in live && Of(Raise(live, got), k, f) == Of(live, k, f))
              || (k in got && Of(Raise(live, got), k, f) == Val(got[k], f))
  {
  }

  lemma MoveKeeps(s: State, t: nat, phase: Phase, k: CounterKey, f: Field)
    requires t < |s.tasks| && s.tasks[t].phase.Rehydrating? && !phase.Holding? && !phase.Handing?
    requires Accounted(s, k, f)
    ensures Accounted(Move(s, t, phase), k, f)
    ensures Outstanding(Move(s, t, phase).tasks, k, f) == Outstanding(s.tasks, k, f)
    ensures Unflushed(Move(s, t, phase), k, f) == Unflushed(s, k, f)
  {
    TaskSums(s.tasks, t, s.tasks[t].(phase := phase), k, f);
  }

  /** Seeding cannot put a counter ahead: a snapshot never is. */
  lemma RaiseKeeps(s: State, t: nat, phase: Phase, k: CounterKey, f: Field)
    requires t < |s.tasks| && s.tasks[t].phase.Rehydrating? && !phase.Holding? && !phase.Handing?
    requires NoneAhead(s.tasks[t].phase.got, s.durable) && Accounted(s, k, f)
    requires Unflushed(s, k, f) >= 0 && Outstanding(s.tasks, k, f) >= 0
    requires Of(s.dropped, k, f) >= 0 && Of(s.leaked, k, f) >= 0
    ensures Accounted(Move(s, t, phase).(live := Raise(s.live, s.tasks[t].phase.got)), k, f)
    ensures Accounted(Move(s, t, phase), k, f)
  {
    var got := s.tasks[t].phase.got;
    MoveKeeps(s, t, phase, k, f);
    RaiseMoves(s.live, got, k, f);
    if k in got {
      assert Val(got[k], f) <= Of(s.durable, k, f);
    }
  }

  lemma BumpMoves(live: Book, keys: seq<CounterKey>, u: QuotaUsage, k: CounterKey, f: Field)
    requires k in live
    ensures Of(Bump(live, keys, u), k, f) == Of(live, k, f) + if k in keys then Val(u, f) else 0
  {
  }

  lemma ReconcileKeeps(s: State, t: nat, actual: QuotaUsage, adjusted: bool, k: CounterKey, f: Field)
    requires CanDo(s, Reconcile(t, actual, adjusted)) && Accounted(s, k, f)
    ensures Accounted(DoReconcile(s, t, actual, adjusted), k, f)
  {
    var task := s.tasks[t];
    var keys := Keys(task.limits);
    var next := DoReconcile(s, t, actual, adjusted);
    TaskSums(s.tasks, t, next.tasks[t], k, f);
    if k in s.live {
      BumpMoves(s.live, keys, actual.Sub(task.amount), k, f);
    }
    assert Of(next.settled, k, f) == Of(s.settled, k, f) + if k in keys then Val(actual, f) else 0;
  }

  /** A task hands over its first window: what it has in hand shrinks by that much. */
  lemma HandOverShrinks(task: Task, next: Task, k: CounterKey, f: Field)
    requires task.phase.Handing? && task.phase.left != [] && Distinct(task.phase.left)
    requires var p := task.phase;
             next == task.(phase := if |p.left| == 1 then Over(Settled) else p.(left := p.left[1..]))
    ensures Held(task, k, f) == 0 == Held(next, k, f)
    ensures InHand(next, k, f)
            == InHand(task, k, f) - For(WindowUsage(task.phase.left[0], task.phase.actual), k, f)
  {
    var left := task.phase.left;
    assert left == [left[0]] + left[1..];
    assert left[0] !in left[1..];
  }

  lemma HandOverKeeps(s: State, t: nat, k: CounterKey, f: Field)
    requires CanDo(s, HandOver(t)) && Accounted(s, k, f)
    requires Distinct(s.tasks[t].phase.left) && s.flushers[s.tasks[t].replica].Bounded()
    ensures Accounted(DoHandOver(s, t), k, f)
  {
    hide HeldBy, InHandOf, BacklogOf, Total, Held, InHand, Distinct;
    var task := s.tasks[t];
    var fl := s.flushers[task.replica];
    var d := WindowUsage(task.phase.left[0], task.phase.actual);
    var next := DoHandOver(s, t);
    HandOverShrinks(task, next.tasks[t], k, f);
    TaskSums(s.tasks, t, next.tasks[t], k, f);
    OfferBacklog(fl, d, k, f);
    FlusherSums(s.flushers, task.replica, fl.Offer(d), k, f);
  }

  lemma AbandonKeeps(s: State, t: nat, k: CounterKey, f: Field)
    requires CanDo(s, Abandon(t)) && Accounted(s, k, f)
    ensures Accounted(DoAbandon(s, t), k, f)
  {
    TaskSums(s.tasks, t, s.tasks[t].(phase := Over(Abandoned)), k, f);
  }

  lemma AbsorbKeeps(s: State, r: nat, k: CounterKey, f: Field)
    requires CanDo(s, Absorb(r)) && Accounted(s, k, f) && s.flushers[r].Bounded()
    ensures Accounted(DoAbsorb(s, r), k, f)
  {
    AbsorbBacklog(s.flushers[r], k, f);
    FlusherSums(s.flushers, r, s.flushers[r].Absorb(), k, f);
  }

  lemma FlushKeeps(s: State, r: nat, commit: Commit, k: CounterKey, f: Field)
    requires CanDo(s, Flush(r, commit)) && Accounted(s, k, f) && Of(s.flushers[r].pending, k, f) >= 0
    ensures Accounted(DoFlush(s, r, commit), k, f)
  {
    hide HeldBy, InHandOf, BacklogOf, Total;
    FlusherSums(s.flushers, r, s.flushers[r].(pending := map[]), k, f);
  }

  lemma FinishKeeps(s: State, r: nat, commit: Commit, k: CounterKey, f: Field)
    requires CanDo(s, Finish(r, commit)) && Accounted(s, k, f)
    ensures Accounted(DoFinish(s, r, commit), k, f)
  {
    FlusherSums(s.flushers, r, s.flushers[r].(pending := map[], finished := true), k, f);
  }

  lemma CloseKeeps(s: State, r: nat, k: CounterKey, f: Field)
    requires r < |s.flushers| && Accounted(s, k, f)
    ensures Accounted(Do(s, Close(r)), k, f)
  {
    hide HeldBy, InHandOf, BacklogOf;
    FlusherSums(s.flushers, r, s.flushers[r].(closed := true), k, f);
  }

  lemma CrashKeeps(s: State, r: nat, k: CounterKey, f: Field)
    requires r < |s.flushers| && Accounted(s, k, f)
    ensures Accounted(DoCrash(s, r), k, f)
  {
    hide HeldBy, InHandOf, BacklogOf;
    FlusherSums(s.flushers, r, s.flushers[r].(queue := [], pending := map[], closed := true, finished := true), k, f);
  }

  lemma ArriveKeeps(s: State, task: Task, k: CounterKey, f: Field)
    requires CanDo(s, Arrive(task)) && Accounted(s, k, f)
    ensures Accounted(DoArrive(s, task), k, f)
  {
    NewTaskSums(s.tasks, task, k, f);
  }

  lemma LossKeeps(s: State, a: Action, k: CounterKey, f: Field)
    requires CanDo(s, a) && Accounted(s, k, f) && (a.LoseKey? || a.Failover?)
    ensures Accounted(Do(s, a), k, f)
  {
  }

  lemma StepKeepsAccounts(s: State, a: Action, k: CounterKey, f: Field)
    requires Sound(s) && CanDo(s, a) && Accounted(s, k, f)
    ensures Accounted(Do(s, a), k, f)
  {
    InFlightNonNegative(s, k, f);
    if a.AskFails? || a.Seed? || a.RehydrateFails? || a.HandOver? {
      assert SoundTask(s, s.tasks[a.t]);
    }
    match a
    case Arrive(task) => ArriveKeeps(s, task, k, f);
    case Ask(t) => AskKeeps(s, t, k, f);
    case AskFails(t, ran) => AskFailsKeeps(s, t, ran, k, f);
    case Fetch(t) => FetchKeeps(s, t, k, f);
    case Seed(t) => RaiseKeeps(s, t, AfterSeed(s.tasks[t].phase.after), k, f);
    case RehydrateFails(t, ran) => RaiseKeeps(s, t, Over(Unavailable), k, f);
    case Reconcile(t, actual, adjusted) => ReconcileKeeps(s, t, actual, adjusted, k, f);
    case HandOver(t) => HandOverKeeps(s, t, k, f);
    case Abandon(t) => AbandonKeeps(s, t, k, f);
    case Absorb(r) => AbsorbKeeps(s, r, k, f);
    case Flush(r, commit) => FlushKeeps(s, r, commit, k, f);
    case Close(r) => CloseKeeps(s, r, k, f);
    case Finish(r, commit) => FinishKeeps(s, r, commit, k, f);
    case Crash(r) => CrashKeeps(s, r, k, f);
    case LoseKey(_) => LossKeeps(s, a, k, f);
    case Failover(_, _) => LossKeeps(s, a, k, f);
  }

  /* ---- shape is kept ---- */

  lemma MergeGrows(m: Book, deltas: Book)
    requires NoneNegative(m) && NoneNegative(deltas)
    ensures NoneNegative(Merge(m, deltas)) && Grew(m, Merge(m, deltas))
  {
  }

  lemma PostStaysNonNegative(m: Book, keys: seq<CounterKey>, u: QuotaUsage)
    requires NoneNegative(m) && u.NonNegative()
    ensures NoneNegative(Post(m, keys, u))
  {
  }

  lemma PlusStaysNonNegative(m: Book, k: CounterKey, u: QuotaUsage)
    requires NoneNegative(m) && u.NonNegative()
    ensures NoneNegative(Plus(m, k, u))
  {
  }

  lemma {:induction false} SpillStaysNonNegative(m: Book, queue: seq<WindowUsage>)
    requires NoneNegative(m) && forall i | 0 <= i < |queue| :: queue[i].usage.NonNegative()
    ensures NoneNegative(Spill(m, queue))
  {
    if queue != [] {
      SpillStaysNonNegative(m, queue[..|queue| - 1]);
      PlusStaysNonNegative(Spill(m, queue[..|queue| - 1]), queue[|queue| - 1].key, queue[|queue| - 1].usage);
    }
  }

  lemma StillSound(s: State, next: State, task: Task)
    requires |next.flushers| == |s.flushers| && Grew(s.durable, next.durable) && SoundTask(s, task)
    ensures SoundTask(next, task)
  {
    var p := task.phase;
    if p.Rehydrating? {
      forall k, f | k in p.got ensures Val(p.got[k], f) <= Of(next.durable, k, f) {
        assert Of(s.durable, k, f) <= Of(next.durable, k, f);
      }
    }
  }

  /** A step that moves one task and touches no flusher. */
  lemma SoundAfterTask(s: State, next: State, t: nat)
    requires Sound(s) && t < |s.tasks| == |next.tasks| && next.tasks == s.tasks[t := next.tasks[t]]
    requires next.flushers == s.flushers && next.durable == s.durable
    requires SoundTask(s, next.tasks[t]) && SoundLedgers(next)
    ensures Sound(next)
  {
    forall i | 0 <= i < |next.tasks| ensures SoundTask(next, next.tasks[i]) {
      assert i != t ==> SoundTask(s, s.tasks[i]);
    }
  }

  /** A step that moves one flusher and touches no task. */
  lemma SoundAfterFlusher(s: State, next: State, r: nat)
    requires Sound(s) && r < |s.flushers| == |next.flushers| && next.flushers == s.flushers[r := next.flushers[r]]
    requires next.tasks == s.tasks && Grew(s.durable, next.durable)
    requires SoundFlusher(next.flushers[r]) && SoundLedgers(next)
    ensures Sound(next)
  {
    forall i | 0 <= i < |next.tasks| ensures SoundTask(next, next.tasks[i]) {
      StillSound(s, next, s.tasks[i]);
    }
  }

  lemma MoveStaysSound(s: State, t: nat, phase: Phase, live: Book)
    requires Sound(s) && t < |s.tasks| && SoundTask(s, s.tasks[t].(phase := phase))
    ensures Sound(Move(s, t, phase).(live := live))
  {
    SoundAfterTask(s, Move(s, t, phase).(live := live), t);
  }

  lemma ArriveStaysSound(s: State, task: Task)
    requires Sound(s) && CanDo(s, Arrive(task))
    ensures Sound(DoArrive(s, task))
  {
    assert SoundTask(s, task);
  }

  lemma AskStaysSound(s: State, t: nat)
    requires Sound(s) && CanDo(s, Ask(t))
    ensures Sound(DoAsk(s, t))
  {
    var task := s.tasks[t];
    assert SoundTask(s, task);
    hide Sound, AnswerTo, Distinct;
    match AnswerTo(s.live, task.limits, task.amount)
    case Missing(windows) => MoveStaysSound(s, t, Rehydrating(Retry(task.phase.round), windows, map[]), s.live);
    case Blocked(breach) => MoveStaysSound(s, t, Over(Refused(breach)), s.live);
    case Reserved(_) => MoveStaysSound(s, t, Holding, AfterReserve(s.live, task.limits, task.amount));
  }

  lemma AskFailsStaysSound(s: State, t: nat, ran: bool)
    requires Sound(s) && CanDo(s, AskFails(t, ran))
    ensures Sound(DoAskFails(s, t, ran))
  {
    assert SoundTask(s, s.tasks[t]);
    PostStaysNonNegative(s.leaked, Keys(s.tasks[t].limits), s.tasks[t].amount);
    SoundAfterTask(s, DoAskFails(s, t, ran), t);
  }

  lemma FetchStaysSound(s: State, t: nat)
    requires Sound(s) && CanDo(s, Fetch(t))
    ensures Sound(DoFetch(s, t))
  {
    assert SoundTask(s, s.tasks[t]);
    var next := DoFetch(s, t);
    assert NoneAhead(next.tasks[t].phase.got, s.durable);
    SoundAfterTask(s, next, t);
  }

  lemma SeedStaysSound(s: State, t: nat)
    requires Sound(s) && CanDo(s, Seed(t))
    ensures Sound(DoSeed(s, t))
  {
    var p := s.tasks[t].phase;
    assert SoundTask(s, s.tasks[t]);
    MoveStaysSound(s, t, AfterSeed(p.after), Raise(s.live, p.got));
  }

  lemma RehydrateFailsStaysSound(s: State, t: nat, ran: bool)
    requires Sound(s) && CanDo(s, RehydrateFails(t, ran))
    ensures Sound(DoRehydrateFails(s, t, ran))
  {
    assert SoundTask(s, s.tasks[t]);
    MoveStaysSound(s, t, Over(Unavailable), DoRehydrateFails(s, t, ran).live);
  }

  lemma ReconcileStaysSound(s: State, t: nat, actual: QuotaUsage, adjusted: bool)
    requires Sound(s) && CanDo(s, Reconcile(t, actual, adjusted))
    ensures Sound(DoReconcile(s, t, actual, adjusted))
  {
    var task := s.tasks[t];
    assert SoundTask(s, task);
    PostStaysNonNegative(s.settled, Keys(task.limits), actual);
    PostStaysNonNegative(s.leaked, Keys(task.limits), task.amount.Excess(actual));
    SoundAfterTask(s, DoReconcile(s, t, actual, adjusted), t);
  }

  lemma HandOverStaysSound(s: State, t: nat)
    requires Sound(s) && CanDo(s, HandOver(t))
    ensures Sound(DoHandOver(s, t))
  {
    var task := s.tasks[t];
    var p := task.phase;
    var fl := s.flushers[task.replica];
    var next := DoHandOver(s, t);
    assert SoundTask(s, task) && SoundFlusher(fl);
    assert p.left == [p.left[0]] + p.left[1..];
    OfferBacklog(fl, WindowUsage(p.left[0], p.actual), p.left[0], Cost);
    PlusStaysNonNegative(s.dropped, p.left[0], p.actual);
    var moved := s.(tasks := next.tasks);
    SoundAfterTask(s, moved, t);
    SoundAfterFlusher(moved, next, task.replica);
  }

  lemma LedgersStaySound(s: State, next: State)
    requires Sound(s) && SoundLedgers(next) && next.tasks == s.tasks
    requires next.flushers == s.flushers && next.durable == s.durable
    ensures Sound(next)
  {
    forall t | 0 <= t < |next.tasks| ensures SoundTask(next, next.tasks[t]) {
      assert SoundTask(s, s.tasks[t]);
    }
  }

  lemma AbandonStaysSound(s: State, t: nat)
    requires Sound(s) && CanDo(s, Abandon(t))
    ensures Sound(DoAbandon(s, t))
  {
    var task := s.tasks[t];
    assert SoundTask(s, task);
    if task.phase.Holding? {
      PostStaysNonNegative(s.leaked, Keys(task.limits), task.amount);
    }
    if task.phase.Handing? {
      PostStaysNonNegative(s.dropped, task.phase.left, task.phase.actual);
    }
    MoveStaysSound(s, t, Over(Abandoned), s.live);
    LedgersStaySound(Move(s, t, Over(Abandoned)), DoAbandon(s, t));
  }

  lemma AbsorbStaysSound(s: State, r: nat)
    requires Sound(s) && CanDo(s, Absorb(r))
    ensures Sound(DoAbsorb(s, r))
  {
    var fl := s.flushers[r];
    var d := fl.queue[0];
    assert SoundFlusher(fl);
    AbsorbBacklog(fl, d.key, Cost);
    PlusStaysNonNegative(fl.pending, d.key, d.usage);
    PlusStaysNonNegative(s.dropped, d.key, d.usage);
    SoundAfterFlusher(s, DoAbsorb(s, r), r);
  }

  lemma FlushStaysSound(s: State, r: nat, commit: Commit)
    requires Sound(s) && CanDo(s, Flush(r, commit))
    ensures Sound(DoFlush(s, r, commit))
  {
    assert SoundFlusher(s.flushers[r]);
    MergeGrows(s.durable, s.flushers[r].pending);
    MergeGrows(s.replayed, s.flushers[r].pending);
    SoundAfterFlusher(s, DoFlush(s, r, commit), r);
  }

  lemma CloseStaysSound(s: State, r: nat)
    requires Sound(s) && CanDo(s, Close(r))
    ensures Sound(Do(s, Close(r)))
  {
    assert SoundFlusher(s.flushers[r]);
    SoundAfterFlusher(s, Do(s, Close(r)), r);
  }

  lemma FinishStaysSound(s: State, r: nat, commit: Commit)
    requires Sound(s) && CanDo(s, Finish(r, commit))
    ensures Sound(DoFinish(s, r, commit))
  {
    assert SoundFlusher(s.flushers[r]);
    MergeGrows(s.durable, s.flushers[r].pending);
    MergeGrows(s.dropped, s.flushers[r].pending);
    SoundAfterFlusher(s, DoFinish(s, r, commit), r);
  }

  lemma CrashStaysSound(s: State, r: nat)
    requires Sound(s) && CanDo(s, Crash(r))
    ensures Sound(DoCrash(s, r))
  {
    var fl := s.flushers[r];
    assert SoundFlusher(fl);
    SpillStaysNonNegative(s.dropped, fl.queue);
    MergeGrows(Spill(s.dropped, fl.queue), fl.pending);
    SoundAfterFlusher(s, DoCrash(s, r), r);
  }

  lemma LossStaysSound(s: State, a: Action)
    requires Sound(s) && CanDo(s, a) && (a.LoseKey? || a.Failover?)
    ensures Sound(Do(s, a))
  {
    if a.Failover? {
      PlusStaysNonNegative(s.leaked, a.key, a.value.Excess(s.live[a.key]));
    }
    LedgersStaySound(s, Do(s, a));
  }

  lemma StepStaysSound(s: State, a: Action)
    requires Sound(s) && CanDo(s, a)
    ensures Sound(Do(s, a))
  {
    match a
    case Arrive(task) => ArriveStaysSound(s, task);
    case Ask(t) => AskStaysSound(s, t);
    case AskFails(t, ran) => AskFailsStaysSound(s, t, ran);
    case Fetch(t) => FetchStaysSound(s, t);
    case Seed(t) => SeedStaysSound(s, t);
    case RehydrateFails(t, ran) => RehydrateFailsStaysSound(s, t, ran);
    case Reconcile(t, actual, adjusted) => ReconcileStaysSound(s, t, actual, adjusted);
    case HandOver(t) => HandOverStaysSound(s, t);
    case Abandon(t) => AbandonStaysSound(s, t);
    case Absorb(r) => AbsorbStaysSound(s, r);
    case Flush(r, commit) => FlushStaysSound(s, r, commit);
    case Close(r) => CloseStaysSound(s, r);
    case Finish(r, commit) => FinishStaysSound(s, r, commit);
    case Crash(r) => CrashStaysSound(s, r);
    case LoseKey(_) => LossStaysSound(s, a);
    case Failover(_, _) => LossStaysSound(s, a);
  }

  /* ---- every run ---- */

  lemma {:induction false} NoBacklog(flushers: seq<Flusher>, n: nat, k: CounterKey, f: Field)
    requires n <= |flushers|
    requires forall r | 0 <= r < n :: flushers[r].queue == [] && flushers[r].pending == map[]
    ensures BacklogOf(flushers, n, k, f) == 0
  {
    if n > 0 {
      NoBacklog(flushers, n - 1, k, f);
    }
  }

  lemma StartIsAccounted(s: State, k: CounterKey, f: Field)
    requires Start(s)
    ensures Sound(s) && Accounted(s, k, f)
  {
    NoBacklog(s.flushers, |s.flushers|, k, f);
  }

  lemma {:induction false} ReachableIsSound(states: seq<State>, actions: seq<Action>, i: nat, k: CounterKey, f: Field)
    requires IsRun(states, actions) && i < |states|
    ensures Sound(states[i]) && Accounted(states[i], k, f)
  {
    if i == 0 {
      StartIsAccounted(states[0], k, f);
    } else {
      ReachableIsSound(states, actions, i - 1, k, f);
      StepStaysSound(states[i - 1], actions[i - 1]);
      StepKeepsAccounts(states[i - 1], actions[i - 1], k, f);
    }
  }

  /** No usage is counted twice, in any interleaving and under any faults. What is durable
      is what was settled less what is on its way or dropped, plus what an ambiguous commit
      replayed; a live counter is at most what was settled, is outstanding, or was left on it. */
  lemma NoDoubleCounting(states: seq<State>, actions: seq<Action>, i: nat, k: CounterKey, f: Field)
    requires IsRun(states, actions) && i < |states|
    ensures var s := states[i];
            && Of(s.durable, k, f)
               == Of(s.settled, k, f) - Unflushed(s, k, f) - Of(s.dropped, k, f) + Of(s.replayed, k, f)
            && Of(s.durable, k, f) <= Of(s.settled, k, f) + Of(s.replayed, k, f)
            && (k in s.live ==>
                  Of(s.live, k, f) <= Of(s.settled, k, f) + Outstanding(s.tasks, k, f)
                                      + Of(s.leaked, k, f) + Of(s.replayed, k, f))
  {
    ReachableIsSound(states, actions, i, k, f);
    DurableNotAhead(states[i], k, f);
  }

  /* ---- writes that looked failed ---- */

  /** No write was committed and yet reported as failed. */
  ghost predicate Truthful(a: Action) {
    a.Flush? ==> !a.commit.Ambiguous?
  }

  lemma OnlyAmbiguityReplays(s: State, a: Action)
    requires CanDo(s, a) && Truthful(a)
    ensures Do(s, a).replayed == s.replayed
  {
    hide AnswerTo, AfterReserve, Raise, Bump, Merge, Plus, Post, Spill, Fresh;
    match a
    case Ask(t) => assert DoAsk(s, t).replayed == s.replayed;
    case Reconcile(t, actual, adjusted) => assert DoReconcile(s, t, actual, adjusted).replayed == s.replayed;
    case HandOver(t) => assert DoHandOver(s, t).replayed == s.replayed;
    case _ =>
  }

  lemma {:induction false} NothingReplayed(states: seq<State>, actions: seq<Action>, i: nat)
    requires IsRun(states, actions) && i < |states| && forall j | 0 <= j < |actions| :: Truthful(actions[j])
    ensures states[i].replayed == map[]
  {
    hide Do;
    if i > 0 {
      NothingReplayed(states, actions, i - 1);
      OnlyAmbiguityReplays(states[i - 1], actions[i - 1]);
    }
  }

  /** Where the durable store's errors are truthful, no durable counter is ever ahead of what
      was settled, and no live one of what was settled, is outstanding or was left behind. */
  lemma DurableWithinSettled(states: seq<State>, actions: seq<Action>, i: nat, k: CounterKey, f: Field)
    requires IsRun(states, actions) && i < |states| && forall j | 0 <= j < |actions| :: Truthful(actions[j])
    ensures var s := states[i];
            && Of(s.durable, k, f) <= Of(s.settled, k, f)
            && (k in s.live ==>
                  Of(s.live, k, f) <= Of(s.settled, k, f) + Outstanding(s.tasks, k, f) + Of(s.leaked, k, f))
  {
    NothingReplayed(states, actions, i);
    NoDoubleCounting(states, actions, i, k, f);
  }

  /** Where they are not, one can be: the write is tried again, all it held is added twice,
      and nothing more was settled. */
  lemma AmbiguousWriteCountsTwice(s: State, r: nat, k: CounterKey, f: Field)
    requires CanDo(s, Flush(r, Ambiguous))
    ensures var once := Do(s, Flush(r, Ambiguous));
            && CanDo(once, Flush(r, Committed))
            && var twice := Do(once, Flush(r, Committed));
            && twice.settled == s.settled
            && Of(twice.durable, k, f) == Of(s.durable, k, f) + 2 * Of(s.flushers[r].pending, k, f)
  {
    var once := DoFlush(s, r, Ambiguous);
    assert Do(s, Flush(r, Ambiguous)) == once && Do(once, Flush(r, Committed)) == DoFlush(once, r, Committed);
  }
}
