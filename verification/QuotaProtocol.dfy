/** The quota protocol: any number of replicas, each with a flusher, serving requests
    and resyncing against one set of live counters and one durable table. A script call,
    a transaction and a channel operation are one step each; everything between two of
    them may interleave, and every store can fail, lie about having failed, or lose data. */
module QuotaProtocol {
  import opened Basics
  import opened Amounts
  import opened LiveCounters
  import opened DurableCounters
  import opened Flushing

  const MAX_SEED_ROUNDS: nat := 3

  /** What a rehydration was for: the next round of a reservation, or a resync pass. */
  datatype After = Retry(round: nat) | Stop

  datatype Verdict = Settled | Refused(breach: Breach) | Unavailable | Synced | Abandoned

  datatype Phase =
    | Asking(round: nat)                                        // about to run the reserve script
    | Rehydrating(after: After, todo: seq<CounterKey>, got: Book)  // reading snapshots, then seeding
    | Holding                                                   // reserved; the request is being served
    | Handing(actual: QuotaUsage, left: seq<CounterKey>)        // corrected; usage going to the flusher
    | Over(verdict: Verdict)

  /** One request, or one tenant's part of one resync pass. */
  datatype Task = Task(replica: nat, limits: seq<Limit>, amount: QuotaUsage, phase: Phase)

  /** The stores, the work in progress, and four ledgers nobody stores: the usage of every
      settled request, and what was dropped, left behind on a live counter, or written twice. */
  datatype State = State(
    live: Book, durable: Book, tasks: seq<Task>, flushers: seq<Flusher>,
    settled: Book, dropped: Book, leaked: Book, replayed: Book)

  datatype Action =
    | Arrive(task: Task)
    | Ask(t: nat)
    | AskFails(t: nat, ran: bool)
    | Fetch(t: nat)
    | Seed(t: nat)
    | RehydrateFails(t: nat, ran: bool)
    | Reconcile(t: nat, actual: QuotaUsage, adjusted: bool)
    | HandOver(t: nat)
    | Abandon(t: nat)
    | Absorb(r: nat)
    | Flush(r: nat, commit: Commit)
    | Close(r: nat)
    | Finish(r: nat, commit: Commit)
    | Crash(r: nat)
    | LoseKey(key: CounterKey)
    | Failover(key: CounterKey, value: QuotaUsage)

  predicate Fresh(task: Task) {
    && Distinct(Keys(task.limits))
    && task.amount.NonNegative()
    && (task.phase == Asking(0) ==> task.limits != [] && task.amount.requests > 0)
    && (task.phase == Asking(0) || task.phase == Rehydrating(Stop, Keys(task.limits), map[]))
  }

  predicate CanDo(s: State, a: Action) {
    match a
    case Arrive(task) => task.replica < |s.flushers| && Fresh(task)
    case Ask(t) => t < |s.tasks| && s.tasks[t].phase.Asking?
    case AskFails(t, _) => t < |s.tasks| && s.tasks[t].phase.Asking?
    case Fetch(t) => t < |s.tasks| && s.tasks[t].phase.Rehydrating? && s.tasks[t].phase.todo != []
    case Seed(t) => t < |s.tasks| && s.tasks[t].phase.Rehydrating? && s.tasks[t].phase.todo == []
    case RehydrateFails(t, ran) =>
      t < |s.tasks| && s.tasks[t].phase.Rehydrating? && (ran ==> s.tasks[t].phase.todo == [])
    case Reconcile(t, actual, _) => t < |s.tasks| && s.tasks[t].phase.Holding? && actual.NonNegative()
    case HandOver(t) =>
      t < |s.tasks| && s.tasks[t].phase.Handing? && s.tasks[t].phase.left != [] && s.tasks[t].replica < |s.flushers|
    case Abandon(t) => t < |s.tasks| && !s.tasks[t].phase.Over?
    case Absorb(r) => r < |s.flushers| && s.flushers[r].queue != []
    case Flush(r, _) => r < |s.flushers| && !s.flushers[r].finished
    case Close(r) => r < |s.flushers|
    case Finish(r, _) =>
      r < |s.flushers| && s.flushers[r].closed && !s.flushers[r].finished && s.flushers[r].queue == []
    case Crash(r) => r < |s.flushers|
    case LoseKey(k) => k in s.live
    case Failover(k, _) => k in s.live
  }

  function Move(s: State, t: nat, phase: Phase): State
    requires t < |s.tasks|
  {
    s.(tasks := s.tasks[t := s.tasks[t].(phase := phase)])
  }

  function Ship(s: State, r: nat, fl: Flusher): State
    requires r < |s.flushers|
  {
    s.(flushers := s.flushers[r := fl])
  }

  function AfterSeed(after: After): Phase {
    match after
    case Stop => Over(Synced)
    case Retry(round) => if round + 1 < MAX_SEED_ROUNDS then Asking(round + 1) else Over(Unavailable)
  }

  /** A book with a queue of deltas added to it. */
  function Spill(m: Book, queue: seq<WindowUsage>): (r: Book)
    ensures forall k, f :: Of(r, k, f) == Of(m, k, f) + Total(queue, k, f)
  {
    if queue == [] then m
    else
      var d := queue[|queue| - 1];
      Plus(Spill(m, queue[..|queue| - 1]), d.key, d.usage)
  }

  function Do(s: State, a: Action): State
    requires CanDo(s, a)
  {
    match a
    case Arrive(task) => DoArrive(s, task)
    case Ask(t) => DoAsk(s, t)
    case AskFails(t, ran) => DoAskFails(s, t, ran)
    case Fetch(t) => DoFetch(s, t)
    case Seed(t) => DoSeed(s, t)
    case RehydrateFails(t, ran) => DoRehydrateFails(s, t, ran)
    case Reconcile(t, actual, adjusted) => DoReconcile(s, t, actual, adjusted)
    case HandOver(t) => DoHandOver(s, t)
    case Abandon(t) => DoAbandon(s, t)
    case Absorb(r) => DoAbsorb(s, r)
    case Flush(r, commit) => DoFlush(s, r, commit)
    case Close(r) => Ship(s, r, s.flushers[r].(closed := true))
    case Finish(r, commit) => DoFinish(s, r, commit)
    case Crash(r) => DoCrash(s, r)
    case LoseKey(k) => s.(live := s.live - {k})
    case Failover(k, value) => DoFailover(s, k, value)
  }

  function DoArrive(s: State, task: Task): State {
    s.(tasks := s.tasks + [task])
  }

  function AfterAnswer(round: nat, answer: Answer): Phase {
    match answer
    case Missing(windows) => Rehydrating(Retry(round), windows, map[])
    case Blocked(breach) => Over(Refused(breach))
    case Reserved(_) => Holding
  }

  /** One round of Reserve: the script answers for every window at once. */
  function DoAsk(s: State, t: nat): (r: State)
    requires CanDo(s, Ask(t))
    ensures |r.tasks| == |s.tasks| && forall u | 0 <= u < |s.tasks| && u != t :: r.tasks[u] == s.tasks[u]
    ensures r.settled == s.settled
  {
    var task := s.tasks[t];
    var answer := AnswerTo(s.live, task.limits, task.amount);
    Move(s, t, AfterAnswer(task.phase.round, answer)).(live := AfterReserve(s.live, task.limits, task.amount))
  }

  /** The reserve call fails. If the script had run, what it took is left behind: the
      caller holds no reservation to give back. */
  function DoAskFails(s: State, t: nat, ran: bool): (r: State)
    requires CanDo(s, AskFails(t, ran))
    ensures |r.tasks| == |s.tasks| && forall u | 0 <= u < |s.tasks| && u != t :: r.tasks[u] == s.tasks[u]
    ensures r.settled == s.settled
  {
    var task := s.tasks[t];
    var took := ran && AnswerTo(s.live, task.limits, task.amount).Reserved?;
    Move(s, t, Over(Unavailable)).(
    live := if ran then AfterReserve(s.live, task.limits, task.amount) else s.live,
    leaked := if took then Post(s.leaked, Keys(task.limits), task.amount) else s.leaked)
  }

  /** Rehydration reads one window's durable counter, zero when there is no row. */
  function DoFetch(s: State, t: nat): (r: State)
    requires CanDo(s, Fetch(t))
    ensures |r.tasks| == |s.tasks| && forall u | 0 <= u < |s.tasks| && u != t :: r.tasks[u] == s.tasks[u]
    ensures r.settled == s.settled
  {
    var p := s.tasks[t].phase;
    var k := p.todo[0];
    var u := if k in s.durable then s.durable[k] else QuotaUsage(0, 0, 0);
    Move(s, t, p.(todo := p.todo[1..], got := p.got[k := u]))
  }

  function DoSeed(s: State, t: nat): (r: State)
    requires CanDo(s, Seed(t))
    ensures |r.tasks| == |s.tasks| && forall u | 0 <= u < |s.tasks| && u != t :: r.tasks[u] == s.tasks[u]
    ensures r.settled == s.settled
  {
    var p := s.tasks[t].phase;
    Move(s, t, AfterSeed(p.after)).(live := Raise(s.live, p.got))
  }

  function DoRehydrateFails(s: State, t: nat, ran: bool): (r: State)
    requires CanDo(s, RehydrateFails(t, ran))
    ensures |r.tasks| == |s.tasks| && forall u | 0 <= u < |s.tasks| && u != t :: r.tasks[u] == s.tasks[u]
    ensures r.settled == s.settled
  {
    Move(s, t, Over(Unavailable)).(live := if ran then Raise(s.live, s.tasks[t].phase.got) else s.live)
  }

  /** Reconcile corrects the live counters, or fails to, and goes on either way. */
  function DoReconcile(s: State, t: nat, actual: QuotaUsage, adjusted: bool): (r: State)
    requires CanDo(s, Reconcile(t, actual, adjusted))
    ensures |r.tasks| == |s.tasks| && forall u | 0 <= u < |s.tasks| && u != t :: r.tasks[u] == s.tasks[u]
  {
    var task := s.tasks[t];
    var keys := Keys(task.limits);
    Move(s, t, if actual.IsZero() then Over(Settled) else Handing(actual, keys)).(
    live := if adjusted then Bump(s.live, keys, actual.Sub(task.amount)) else s.live,
    settled := Post(s.settled, keys, actual),
    leaked := if adjusted then s.leaked else Post(s.leaked, keys, task.amount.Excess(actual)))
  }

  /** Reconcile queues one window's usage, or the flusher drops it. */
  function DoHandOver(s: State, t: nat): (r: State)
    requires CanDo(s, HandOver(t))
    ensures |r.tasks| == |s.tasks| && forall u | 0 <= u < |s.tasks| && u != t :: r.tasks[u] == s.tasks[u]
    ensures r.settled == s.settled
  {
    var task := s.tasks[t];
    var p := task.phase;
    var fl := s.flushers[task.replica];
    var next := Move(s, t, if |p.left| == 1 then Over(Settled) else p.(left := p.left[1..]));
    Ship(next, task.replica, fl.Offer(WindowUsage(p.left[0], p.actual))).(
    dropped := if fl.Accepts() then s.dropped else Plus(s.dropped, p.left[0], p.actual))
  }

  /** The process serving a request dies: a reservation stays on the counters, and usage
      not yet queued is lost. */
  function DoAbandon(s: State, t: nat): (r: State)
    requires CanDo(s, Abandon(t))
    ensures |r.tasks| == |s.tasks| && forall u | 0 <= u < |s.tasks| && u != t :: r.tasks[u] == s.tasks[u]
    ensures r.settled == s.settled
  {
    var task := s.tasks[t];
    Move(s, t, Over(Abandoned)).(
    leaked := if task.phase.Holding? then Post(s.leaked, Keys(task.limits), task.amount) else s.leaked,
    dropped := if task.phase.Handing? then Post(s.dropped, task.phase.left, task.phase.actual) else s.dropped)
  }

  function DoAbsorb(s: State, r: nat): (next: State)
    requires CanDo(s, Absorb(r))
    ensures next.tasks == s.tasks && next.settled == s.settled
  {
    var fl := s.flushers[r];
    var d := fl.queue[0];
    Ship(s, r, fl.Absorb()).(dropped := if fl.Absorbs(d) then s.dropped else Plus(s.dropped, d.key, d.usage))
  }

  /** One tick's write. One that looked failed is tried again, so if it had in fact
      committed its deltas are added twice. */
  function DoFlush(s: State, r: nat, commit: Commit): (next: State)
    requires CanDo(s, Flush(r, commit))
    ensures next.tasks == s.tasks && next.settled == s.settled
  {
    var fl := s.flushers[r];
    match commit
    case RolledBack => s
    case Committed => Ship(s, r, fl.(pending := map[])).(durable := Merge(s.durable, fl.pending))
    case Ambiguous => s.(durable := Merge(s.durable, fl.pending), replayed := Merge(s.replayed, fl.pending))
  }

  /** The write on the way out is not tried again. */
  function DoFinish(s: State, r: nat, commit: Commit): (next: State)
    requires CanDo(s, Finish(r, commit))
    ensures next.tasks == s.tasks && next.settled == s.settled
  {
    var fl := s.flushers[r];
    Ship(s, r, fl.(pending := map[], finished := true)).(
    durable := if commit.RolledBack? then s.durable else Merge(s.durable, fl.pending),
    dropped := if commit.RolledBack? then Merge(s.dropped, fl.pending) else s.dropped)
  }

  function DoCrash(s: State, r: nat): (next: State)
    requires r < |s.flushers|
    ensures next.tasks == s.tasks && next.settled == s.settled
  {
    var fl := s.flushers[r];
    Ship(s, r, fl.(queue := [], pending := map[], closed := true, finished := true)).(
    dropped := Merge(Spill(s.dropped, fl.queue), fl.pending))
  }

  /** A promoted replica holds another value; what it holds in excess is left behind. */
  function DoFailover(s: State, k: CounterKey, value: QuotaUsage): (next: State)
    requires k in s.live
    ensures next.tasks == s.tasks && next.settled == s.settled
  {
    s.(live := s.live[k := value], leaked := Plus(s.leaked, k, value.Excess(s.live[k])))
  }

  predicate ByTask(a: Action) {
    a.Ask? || a.AskFails? || a.Fetch? || a.Seed? || a.RehydrateFails? || a.Reconcile? || a.HandOver? || a.Abandon?
  }

  lemma OthersLeaveTask(s: State, a: Action, t: nat)
    requires CanDo(s, a) && t < |s.tasks| && (ByTask(a) ==> a.t != t)
    ensures t < |Do(s, a).tasks| && Do(s, a).tasks[t] == s.tasks[t]
  {
  }

  /* ---- runs ---- */

  /** Every durable counter starts out as the sum of what was settled before. */
  ghost predicate Start(s: State) {
    && s.live == map[] && s.tasks == [] && NoneNegative(s.durable) && s.settled == s.durable
    && s.dropped == s.leaked == s.replayed == map[]
    && forall r | 0 <= r < |s.flushers| ::
      s.flushers[r] == Flusher([], map[], s.flushers[r].capacity, false, false)
  }

  /** The run visits states[i] and takes actions[i] from there. */
  ghost predicate IsRun(states: seq<State>, actions: seq<Action>) {
    && |states| == |actions| + 1
    && Start(states[0])
    && forall i | 0 <= i < |actions| :: CanDo(states[i], actions[i]) && states[i + 1] == Do(states[i], actions[i])
  }
}
