/** Caps: kept at the prices requests are reserved and settled at, and passed by no more
    than so much once the counter behind one has been lost and seeded again. */
module QuotaCaps {
  import opened Basics
  import opened Amounts
  import opened LiveCounters
  import opened DurableCounters
  import opened Flushing
  import opened QuotaProtocol
  import opened QuotaSafety
  import opened QuotaExactness
  import opened QuotaRuns
  import Enforcing
  import Pricing

  /* ---- at the prices ---- */

  /** A task reserved what its request was estimated at, and settles what it used: nothing, or
      what a target of its ladder reports within the estimate. */
  ghost predicate PricedAt(
      task: Task, actual: QuotaUsage, req: Enforcing.QuotaRequest, blocks: seq<Pricing.Block>, defaultMaxOutput: nat)
  {
    && Enforcing.AmountOf(req, blocks, defaultMaxOutput) == Some(task.amount)
    && exists o: Enforcing.Outcome :: (o.chosen == "" || o.chosen in req.targets)
                   && Enforcing.UsesWithin(o, req, blocks, defaultMaxOutput)
                   && actual == Enforcing.ActualUsage(
                                  Enforcing.Reservation(Keys(task.limits), req.at, task.amount), o, blocks)
  }

  /** Limits on k are fixed, requests are reserved and settled at the prices, and k is
      neither lost nor replaced nor written twice. */
  ghost predicate AtPrices(s: State, a: Action, k: CounterKey, cap: int, reqs: seq<Enforcing.QuotaRequest>,
                           blocks: seq<Pricing.Block>, defaultMaxOutput: nat) {
    match a
    case Arrive(task) => CapsTask(task, k, cap)
    case Reconcile(t, actual, _) =>
      t < |s.tasks| ==> t < |reqs| && PricedAt(s.tasks[t], actual, reqs[t], blocks, defaultMaxOutput)
    case Flush(_, _) => Keeps(s, a, k, Cost)
    case LoseKey(key) => key != k
    case Failover(key, _) => key != k
    case _ => true
  }

  lemma PricesKeepCaps(s: State, a: Action, k: CounterKey, cap: int, reqs: seq<Enforcing.QuotaRequest>,
                       blocks: seq<Pricing.Block>, defaultMaxOutput: nat)
    requires AtPrices(s, a, k, cap, reqs, blocks, defaultMaxOutput)
    ensures FixedCap(s, a, k, cap) && Keeps(s, a, k, Cost)
  {
    if a.Reconcile? && a.t < |s.tasks| {
      var task, req := s.tasks[a.t], reqs[a.t];
      var o: Enforcing.Outcome :| (o.chosen == "" || o.chosen in req.targets)
               && Enforcing.UsesWithin(o, req, blocks, defaultMaxOutput)
               && a.actual == Enforcing.ActualUsage(
                                Enforcing.Reservation(Keys(task.limits), req.at, task.amount), o, blocks);
      Enforcing.SettlesWithinReservation(req, Keys(task.limits), o, blocks, defaultMaxOutput);
    }
  }

  /** With every request reserved at its estimate's dearest price and settled at what it
      used, a blocking cap is never passed while its counter is not lost: that no request
      costs more than it reserved is not assumed but follows from the prices. */
  lemma CapsHoldAtPrices(states: seq<State>, actions: seq<Action>, i: nat, k: CounterKey, cap: int,
                         reqs: seq<Enforcing.QuotaRequest>, blocks: seq<Pricing.Block>, defaultMaxOutput: nat)
    requires IsRun(states, actions) && i < |states| && CostOf(states[0].durable, k) <= cap
    requires forall j | 0 <= j < |actions| :: AtPrices(states[j], actions[j], k, cap, reqs, blocks, defaultMaxOutput)
    ensures k in states[i].live ==> CostOf(states[i].live, k) <= cap
    ensures Spent(states[i], k) <= cap
  {
    forall j | 0 <= j < |actions|
      ensures FixedCap(states[j], actions[j], k, cap) && Keeps(states[j], actions[j], k, Cost)
    {
      PricesKeepCaps(states[j], actions[j], k, cap, reqs, blocks, defaultMaxOutput);
    }
    CapsHold(states, actions, i, k, cap);
  }

  /* ---- after a loss ---- */

  /** All that was ever spent, is reserved, or was left behind. */
  function Spent(s: State, k: CounterKey): int {
    CostOf(s.settled, k) + Outstanding(s.tasks, k, Cost) + CostOf(s.leaked, k)
  }

  /** The live counter is behind what was spent by no more than gap, and what was spent is
      no more than a bound that is at least the cap and the gap together. */
  ghost predicate Within(s: State, k: CounterKey, cap: int, gap: int, bound: int) {
    && k in s.live && Spent(s, k) - CostOf(s.live, k) <= gap
    && Spent(s, k) <= bound && cap + gap <= bound
  }

  ghost predicate AllCapped(tasks: seq<Task>, k: CounterKey, cap: int) {
    forall t | 0 <= t < |tasks| :: CapsTask(tasks[t], k, cap)
  }

  lemma AskStaysWithin(s: State, t: nat, k: CounterKey, cap: int, gap: int, bound: int)
    requires CanDo(s, Ask(t)) && CapsTask(s.tasks[t], k, cap) && Within(s, k, cap, gap, bound)
    ensures Within(DoAsk(s, t), k, cap, gap, bound)
  {
    hide AnswerTo, AfterReserve;
    var task, next := s.tasks[t], DoAsk(s, t);
    ReserveMoves(s.live, task.limits, task.amount, k, Cost);
    TaskSums(s.tasks, t, next.tasks[t], k, Cost);
    TakenWithinCap(s.live, task, k, cap);
  }

  /** Nothing is taken from a counter that would pass its cap by it. */
  lemma TakenWithinCap(live: Book, task: Task, k: CounterKey, cap: int)
    requires CapsTask(task, k, cap) && k in live
    ensures AnswerTo(live, task.limits, task.amount).Reserved? && k in Keys(task.limits) ==>
              CostOf(live, k) + task.amount.cost <= cap
  {
    if AnswerTo(live, task.limits, task.amount).Reserved? && k in Keys(task.limits) {
      var i :| 0 <= i < |task.limits| && Keys(task.limits)[i] == k;
      ReserveIsAllOrNothing(live, task.limits, task.amount);
    }
  }

  lemma AskFailsStaysWithin(s: State, t: nat, ran: bool, k: CounterKey, cap: int, gap: int, bound: int)
    requires CanDo(s, AskFails(t, ran)) && CapsTask(s.tasks[t], k, cap) && Within(s, k, cap, gap, bound)
    ensures Within(DoAskFails(s, t, ran), k, cap, gap, bound)
  {
    hide AnswerTo, AfterReserve;
    var task, next := s.tasks[t], DoAskFails(s, t, ran);
    ReserveMoves(s.live, task.limits, task.amount, k, Cost);
    TaskSums(s.tasks, t, next.tasks[t], k, Cost);
    TakenWithinCap(s.live, task, k, cap);
  }

  lemma RaiseStaysWithin(s: State, t: nat, phase: Phase, k: CounterKey, cap: int, gap: int, bound: int)
    requires t < |s.tasks| && s.tasks[t].phase.Rehydrating? && !phase.Holding? && Within(s, k, cap, gap, bound)
    ensures Within(Move(s, t, phase).(live := Raise(s.live, s.tasks[t].phase.got)), k, cap, gap, bound)
    ensures Within(Move(s, t, phase), k, cap, gap, bound)
  {
    MovedTaskSums(s, t, phase, k, Cost);
  }

  lemma ReconcileStaysWithin(
      s: State, t: nat, actual: QuotaUsage, adjusted: bool, k: CounterKey, cap: int, gap: int, bound: int)
    requires CanDo(s, Reconcile(t, actual, adjusted)) && actual.cost <= s.tasks[t].amount.cost
    requires Within(s, k, cap, gap, bound)
    ensures Within(DoReconcile(s, t, actual, adjusted), k, cap, gap, bound)
  {
    var task, next := s.tasks[t], DoReconcile(s, t, actual, adjusted);
    TaskSums(s.tasks, t, next.tasks[t], k, Cost);
    BumpMoves(s.live, Keys(task.limits), actual.Sub(task.amount), k, Cost);
  }

  lemma AbandonStaysWithin(s: State, t: nat, k: CounterKey, cap: int, gap: int, bound: int)
    requires CanDo(s, Abandon(t)) && Within(s, k, cap, gap, bound)
    ensures Within(DoAbandon(s, t), k, cap, gap, bound)
  {
    TaskSums(s.tasks, t, s.tasks[t].(phase := Over(Abandoned)), k, Cost);
  }

  lemma QueueStaysWithin(s: State, a: Action, k: CounterKey, cap: int, gap: int, bound: int)
    requires CanDo(s, a) && Within(s, k, cap, gap, bound)
    requires a.Arrive? || a.Fetch? || a.HandOver?
    ensures Within(Do(s, a), k, cap, gap, bound)
  {
    match a
    case Arrive(task) => NewTaskSums(s.tasks, task, k, Cost);
    case Fetch(t) => MovedTaskSums(s, t, DoFetch(s, t).tasks[t].phase, k, Cost);
    case HandOver(t) => MovedTaskSums(s, t, DoHandOver(s, t).tasks[t].phase, k, Cost);
  }

  lemma StoreStaysWithin(s: State, a: Action, k: CounterKey, cap: int, gap: int, bound: int)
    requires CanDo(s, a) && Within(s, k, cap, gap, bound)
    requires a.Absorb? || a.Flush? || a.Close? || a.Finish? || a.Crash?
             || (a.LoseKey? && a.key != k) || (a.Failover? && a.key != k)
    ensures Within(Do(s, a), k, cap, gap, bound)
  {
    hide Merge, Spill;
  }

  lemma StepStaysWithin(s: State, a: Action, k: CounterKey, cap: int, gap: int, bound: int)
    requires CanDo(s, a) && AllCapped(s.tasks, k, cap) && Within(s, k, cap, gap, bound)
    requires FixedCap(s, a, k, cap) && a != LoseKey(k)
    ensures Within(Do(s, a), k, cap, gap, bound)
  {
    hide Within, CapsTask, DoAsk, DoAskFails, DoReconcile, DoAbandon, DoFetch, DoHandOver, Fresh;
    match a
    case Ask(t) => AskStaysWithin(s, t, k, cap, gap, bound);
    case AskFails(t, ran) => AskFailsStaysWithin(s, t, ran, k, cap, gap, bound);
    case Seed(t) => RaiseStaysWithin(s, t, AfterSeed(s.tasks[t].phase.after), k, cap, gap, bound);
    case RehydrateFails(t, _) => RaiseStaysWithin(s, t, Over(Unavailable), k, cap, gap, bound);
    case Reconcile(t, actual, adjusted) => ReconcileStaysWithin(s, t, actual, adjusted, k, cap, gap, bound);
    case Abandon(t) => AbandonStaysWithin(s, t, k, cap, gap, bound);
    case Arrive(_) => QueueStaysWithin(s, a, k, cap, gap, bound);
    case Fetch(_) => QueueStaysWithin(s, a, k, cap, gap, bound);
    case HandOver(_) => QueueStaysWithin(s, a, k, cap, gap, bound);
    case _ => StoreStaysWithin(s, a, k, cap, gap, bound);
  }

  /** Every request that ever arrived in the first n steps carries the cap. */
  ghost predicate CapsArrive(actions: seq<Action>, n: nat, k: CounterKey, cap: int) {
    forall j | 0 <= j < n && j < |actions| && actions[j].Arrive? :: CapsTask(actions[j].task, k, cap)
  }

  lemma StepStaysCapped(s: State, a: Action, k: CounterKey, cap: int)
    requires CanDo(s, a) && AllCapped(s.tasks, k, cap) && (a.Arrive? ==> CapsTask(a.task, k, cap))
    ensures AllCapped(Do(s, a).tasks, k, cap)
  {
    hide CapsTask, Fresh, AnswerTo;
    var next := Do(s, a);
    forall t | 0 <= t < |next.tasks| ensures CapsTask(next.tasks[t], k, cap) {
      if t < |s.tasks| {
        SameLimits(s, a, t);
        SameCap(s.tasks[t], next.tasks[t], k, cap);
      }
    }
  }

  lemma SameLimits(s: State, a: Action, t: nat)
    requires CanDo(s, a) && t < |s.tasks|
    ensures t < |Do(s, a).tasks| && Do(s, a).tasks[t].limits == s.tasks[t].limits
  {
    if !(ByTask(a) && a.t == t) {
      OthersLeaveTask(s, a, t);
    }
  }

  lemma SameCap(task: Task, next: Task, k: CounterKey, cap: int)
    requires CapsTask(task, k, cap) && next.limits == task.limits
    ensures CapsTask(next, k, cap)
  {
  }

  lemma {:induction false} RunStaysCapped(states: seq<State>, actions: seq<Action>, i: nat, k: CounterKey, cap: int)
    requires IsRun(states, actions) && i < |states| && CapsArrive(actions, i, k, cap)
    ensures AllCapped(states[i].tasks, k, cap)
  {
    hide Do, CanDo;
    if i > 0 {
      RunStaysCapped(states, actions, i - 1, k, cap);
      StepStaysCapped(states[i - 1], actions[i - 1], k, cap);
    }
  }

  lemma {:induction false} RunStaysWithin(
      states: seq<State>, actions: seq<Action>, from: nat, i: nat, k: CounterKey, cap: int, gap: int, bound: int)
    requires IsRun(states, actions) && from <= i < |states| && CapsArrive(actions, i, k, cap)
    requires forall j | from <= j < i :: FixedCap(states[j], actions[j], k, cap) && actions[j] != LoseKey(k)
    requires Within(states[from], k, cap, gap, bound)
    ensures Within(states[i], k, cap, gap, bound)
    decreases i
  {
    hide Do, CanDo, Within, FixedCap;
    if from < i {
      RunStaysWithin(states, actions, from, i - 1, k, cap, gap, bound);
      RunStaysCapped(states, actions, i - 1, k, cap);
      StepStaysWithin(states[i - 1], actions[i - 1], k, cap, gap, bound);
    }
  }

  /** Task t read the counter's row in step r, and holds what it read. */
  ghost predicate ReadAt(states: seq<State>, actions: seq<Action>, r: nat, t: nat, k: CounterKey, value: QuotaUsage) {
    && r < |actions| && r < |states| && actions[r] == Fetch(t)
    && forall f :: Val(value, f) == Of(states[r].durable, k, f)
  }

  lemma StepReads(s: State, a: Action, t: nat, k: CounterKey)
    requires CanDo(s, a) && t < |Do(s, a).tasks|
    requires var p := Do(s, a).tasks[t].phase; p.Rehydrating? && k in p.got
    ensures var got := Do(s, a).tasks[t].phase.got;
            || (t < |s.tasks| && s.tasks[t].phase.Rehydrating? && k in s.tasks[t].phase.got
                && s.tasks[t].phase.got[k] == got[k])
            || (a == Fetch(t) && forall f :: Val(got[k], f) == Of(s.durable, k, f))
  {
    hide AnswerTo, AfterReserve, Raise, Post, Plus, Merge, Distinct;
    if t < |s.tasks| && !(ByTask(a) && a.t == t) {
      OthersLeaveTask(s, a, t);
    }
  }

  /** Whatever a rehydrating task holds it has read, in some step before. */
  lemma {:induction false} SnapshotWasRead(states: seq<State>, actions: seq<Action>, i: nat, t: nat, k: CounterKey)
    requires IsRun(states, actions) && i < |states| && t < |states[i].tasks|
    requires states[i].tasks[t].phase.Rehydrating? && k in states[i].tasks[t].phase.got
    ensures exists r :: 0 <= r < i && ReadAt(states, actions, r, t, k, states[i].tasks[t].phase.got[k])
  {
    hide Do, CanDo;
    if i > 0 {
      StepReads(states[i - 1], actions[i - 1], t, k);
      var value := states[i].tasks[t].phase.got[k];
      if actions[i - 1] == Fetch(t) && forall f :: Val(value, f) == Of(states[i - 1].durable, k, f) {
        assert ReadAt(states, actions, i - 1, t, k, value);
      } else {
        SnapshotWasRead(states, actions, i - 1, t, k);
      }
    }
  }

  /** What the durable counter does not say of all that was spent. */
  function Unseen(s: State, k: CounterKey): int {
    Unflushed(s, k, Cost) + CostOf(s.dropped, k) + Outstanding(s.tasks, k, Cost) + CostOf(s.leaked, k)
  }

  function Larger(a: int, b: int): int { if a < b then b else a }

  predicate Seeds(a: Action, t: nat) {
    a == Seed(t) || a == RehydrateFails(t, true)
  }

  /** A lost counter comes back from a snapshot read in step r, and until it is lost again
      all that is spent passes the cap by no more than this: what the snapshot already was
      over it, what was written to the table between the read and the seed, and what had
      not reached the table by then, on its way, dropped, outstanding or left behind. */
  lemma CapAfterLoss(states: seq<State>, actions: seq<Action>, j: nat, i: nat, t: nat, k: CounterKey, cap: int)
    requires IsRun(states, actions) && j < i < |states| && CapsArrive(actions, i, k, cap)
    requires Seeds(actions[j], t) && k !in states[j].live && k in states[j + 1].live
    requires forall m | j < m < i :: FixedCap(states[m], actions[m], k, cap) && actions[m] != LoseKey(k)
    ensures exists r :: 0 <= r < j && actions[r] == Fetch(t)
              && var seen := CostOf(states[r].durable, k);
                 Spent(states[i], k)
                 <= Larger(cap, seen) + (CostOf(states[j + 1].durable, k) - seen) + Unseen(states[j + 1], k)
  {
    hide Sound, Accounted, Do, CanDo, FixedCap, CapsArrive, Spent, Unseen;
    var value := SeededValue(states, actions, j, t, k);
    SnapshotWasRead(states, actions, j, t, k);
    var r :| 0 <= r < j && ReadAt(states, actions, r, t, k, value);
    assert Val(value, Cost) == Of(states[r].durable, k, Cost);
    ReachableIsSound(states, actions, j + 1, k, Cost);
    SpentIsSomewhere(states[j + 1], k);
    var seen := CostOf(states[j + 1].live, k);
    var gap := Spent(states[j + 1], k) - seen;
    RunStaysWithin(states, actions, j + 1, i, k, cap, gap, Larger(cap, seen) + gap);
  }

  lemma SpentIsSomewhere(s: State, k: CounterKey)
    requires Sound(s) && Accounted(s, k, Cost)
    ensures Spent(s, k) <= CostOf(s.durable, k) + Unseen(s, k)
  {
    assert CostOf(s.replayed, k) >= 0;
  }

  /** A counter that comes back holds what the task had read of it. */
  lemma SeededValue(states: seq<State>, actions: seq<Action>, j: nat, t: nat, k: CounterKey) returns (value: QuotaUsage)
    requires IsRun(states, actions) && j < |actions| && Seeds(actions[j], t)
    requires k !in states[j].live && k in states[j + 1].live
    ensures t < |states[j].tasks| && states[j].tasks[t].phase.Rehydrating? && k in states[j].tasks[t].phase.got
    ensures value == states[j].tasks[t].phase.got[k] && CostOf(states[j + 1].live, k) == value.cost
  {
    var s := states[j];
    assert CanDo(s, actions[j]) && states[j + 1] == Do(s, actions[j]);
    value := s.tasks[t].phase.got[k];
  }

  function Pair(live: Book, first: Task, second: Task): State {
    State(live, map[], [first, second], [FreshFlusher()], map[], map[], map[], map[])
  }

  /** A cap can be passed in this way, by as much again: its counter is lost while a request
      holds all of it, and another takes all of it once more. */
  lemma CapPassedRun(l: Limit, amount: QuotaUsage) returns (s: State)
    requires amount.NonNegative() && amount.requests > 0 && l.block && amount.cost == l.maxCost
    ensures Reachable(s) && Spent(s, l.key) == 2 * l.maxCost
    ensures AllCapped(s.tasks, l.key, l.maxCost)
  {
    hide Reachable, AnswerTo, Spent, AllCapped;
    var held, task := Task(0, [l], amount, Holding), Task(0, [l], amount, Asking(0));
    OneWindow(map[], l, amount);
    s := Reserves(l, amount);
    s := Take(s, LoseKey(l.key), Solo(map[], held, FreshFlusher()));
    s := Take(s, Arrive(task), Pair(map[], held, task));
    s := Take(s, Ask(1), Pair(map[], held, task.(phase := Rehydrating(Retry(0), [l.key], map[]))));
    s := Take(s, Fetch(1), Pair(map[], held, task.(phase := Rehydrating(Retry(0), [], map[l.key := Zero()]))));
    s := Take(s, Seed(1), Pair(map[l.key := Zero()], held, task.(phase := Asking(1))));
    OneWindow(s.live, l, amount);
    s := Take(s, Ask(1), Pair(map[l.key := amount], held, held));
    BothHold(s.live, held, l);
  }

  lemma BothHold(live: Book, held: Task, l: Limit)
    requires held.limits == [l] && held.phase.Holding? && l.block && held.amount.cost == l.maxCost
    ensures Spent(Pair(live, held, held), l.key) == 2 * l.maxCost
    ensures AllCapped(Pair(live, held, held).tasks, l.key, l.maxCost)
  {
    assert Keys([l])[0] == l.key;
    assert Held(held, l.key, Cost) == l.maxCost;
    assert HeldBy([held, held], 1, l.key, Cost) == l.maxCost;
  }
}
