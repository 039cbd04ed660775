/** The order batches are written in, and why replicas writing overlapping batches
    queue instead of deadlocking. */
module LockOrder {
  import opened Amounts

  /** Kinds compare as the strings that name them do. */
  function NameRank(k: WindowKind): nat {
    match k
    case Day => 0
    case Hour => 1
    case Minute => 2
    case Month => 3
    case Period => 4
  }

  /** Tenant, then kind, then start. */
  predicate Before(a: CounterKey, b: CounterKey) {
    if a.tenant != b.tenant then a.tenant < b.tenant
    else if a.kind != b.kind then NameRank(a.kind) < NameRank(b.kind)
    else a.start < b.start
  }

  function NameOf(k: WindowKind): string {
    match k
    case Day => "day"
    case Hour => "hour"
    case Minute => "minute"
    case Month => "month"
    case Period => "period"
  }

  /** How strings compare: by the first character that differs, a prefix coming first. */
  predicate Precedes(a: string, b: string) {
    b != [] && (a == [] || a[0] < b[0] || (a[0] == b[0] && Precedes(a[1..], b[1..])))
  }

  lemma BeforeIsByName(a: CounterKey, b: CounterKey)
    ensures Before(a, b) <==>
            || a.tenant < b.tenant
            || (a.tenant == b.tenant && Precedes(NameOf(a.kind), NameOf(b.kind)))
            || (a.tenant == b.tenant && a.kind == b.kind && a.start < b.start)
  {
    NamesPrecede(a.kind, b.kind);
  }

  lemma NamesPrecede(a: WindowKind, b: WindowKind)
    ensures Precedes(NameOf(a), NameOf(b)) <==> NameRank(a) < NameRank(b)
  {
    var x, y := NameOf(a), NameOf(b);
    if a == b {
      NoneBeforeItself(x);
    } else {
      assert x[0] == y[0] ==> x[1] != y[1];
      assert x[1] == x[1..][0] && y[1] == y[1..][0];
    }
  }

  lemma {:induction false} NoneBeforeItself(s: string)
    ensures !Precedes(s, s)
  {
    if s != [] {
      NoneBeforeItself(s[1..]);
    }
  }

  lemma BeforeIsAStrictTotalOrder(a: CounterKey, b: CounterKey, c: CounterKey)
    ensures !Before(a, a)
    ensures Before(a, b) && Before(b, c) ==> Before(a, c)
    ensures a != b ==> Before(a, b) || Before(b, a)
  {
  }

  ghost predicate Ascending(keys: seq<CounterKey>) {
    forall i, j | 0 <= i < j < |keys| :: Before(keys[i], keys[j])
  }

  function KeysOf(batch: seq<WindowUsage>): (r: seq<CounterKey>)
    ensures |r| == |batch|
    ensures forall i | 0 <= i < |batch| :: r[i] == batch[i].key
  {
    seq(|batch|, i requires 0 <= i < |batch| => batch[i].key)
  }

  /** Sorts a batch whose keys are distinct. */
  method SortBatch(batch: seq<WindowUsage>) returns (sorted: seq<WindowUsage>)
    requires forall i, j | 0 <= i < j < |batch| :: batch[i].key != batch[j].key
    ensures Ascending(KeysOf(sorted))
    ensures multiset(sorted) == multiset(batch)
  {
    sorted := [];
    for i := 0 to |batch|
      invariant multiset(sorted) == multiset(batch[..i])
      invariant Ascending(KeysOf(sorted))
    {
      forall j | 0 <= j < |sorted| ensures sorted[j].key != batch[i].key {
        assert sorted[j] in multiset(sorted);
        assert sorted[j] in batch[..i];
        var p :| 0 <= p < i && batch[p] == sorted[j];
      }
      assert batch[..i + 1] == batch[..i] + [batch[i]];
      sorted := InsertInOrder(sorted, batch[i]);
    }
    assert batch[..|batch|] == batch;
  }

  lemma InsertAscends(sorted: seq<WindowUsage>, d: WindowUsage, n: nat)
    requires Ascending(KeysOf(sorted)) && n <= |sorted|
    requires n > 0 ==> Before(sorted[n - 1].key, d.key)
    requires forall j | n <= j < |sorted| :: Before(d.key, sorted[j].key)
    ensures Ascending(KeysOf(sorted[..n] + [d] + sorted[n..]))
  {
    var r := sorted[..n] + [d] + sorted[n..];
    forall i, j | 0 <= i < j < |r| ensures Before(KeysOf(r)[i], KeysOf(r)[j]) {
      assert forall p | 0 <= p < n :: r[p] == sorted[p];
      assert forall p | n < p < |r| :: r[p] == sorted[p - 1];
      if i < n <= j {
        assert KeysOf(sorted)[i] == sorted[i].key;
        assert i < n - 1 ==> Before(KeysOf(sorted)[i], KeysOf(sorted)[n - 1]);
        assert Before(sorted[i].key, d.key);
      }
      assert n < i ==> Before(KeysOf(sorted)[i - 1], KeysOf(sorted)[j - 1]);
      assert j < n ==> Before(KeysOf(sorted)[i], KeysOf(sorted)[j]);
      assert i < n < j ==> Before(KeysOf(sorted)[i], KeysOf(sorted)[j - 1]);
    }
  }

  method InsertInOrder(sorted: seq<WindowUsage>, d: WindowUsage) returns (r: seq<WindowUsage>)
    requires Ascending(KeysOf(sorted))
    requires forall j | 0 <= j < |sorted| :: sorted[j].key != d.key
    ensures Ascending(KeysOf(r))
    ensures multiset(r) == multiset(sorted) + multiset{d}
  {
    var n := |sorted|;
    while n > 0 && Before(d.key, sorted[n - 1].key)
      invariant 0 <= n <= |sorted|
      invariant forall j | n <= j < |sorted| :: Before(d.key, sorted[j].key)
    {
      n := n - 1;
    }
    r := sorted[..n] + [d] + sorted[n..];
    InsertAscends(sorted, d, n);
    assert sorted == sorted[..n] + sorted[n..];
  }

  /* ---- row locks ---- */

  /** One replica's transaction: it locks its batch's rows in order, keeps every
      lock until it ends, and holds the first `held` of them now. */
  datatype Transaction = Transaction(batch: seq<CounterKey>, held: nat)

  ghost predicate Holds(t: Transaction, k: CounterKey)
    requires t.held <= |t.batch|
  {
    k in t.batch[..t.held]
  }

  predicate Wants(txs: seq<Transaction>, i: nat) {
    i < |txs| && txs[i].held < |txs[i].batch|
  }

  /** The row a replica locks next. */
  function Wanted(txs: seq<Transaction>, i: nat): CounterKey
    requires Wants(txs, i)
  {
    txs[i].batch[txs[i].held]
  }

  datatype LockStep =
    | Begin(i: nat, batch: seq<CounterKey>)
    | Acquire(i: nat)
    | End(i: nat)  // commit or rollback: both release everything

  /** Only a free row can be locked; each replica sorts before it begins, or none does. */
  ghost predicate CanStep(txs: seq<Transaction>, step: LockStep, sorted: bool) {
    match step
    case Begin(i, batch) => i < |txs| && txs[i] == Transaction([], 0) && (sorted ==> Ascending(batch))
    case End(i) => i < |txs| && txs[i].batch != []
    case Acquire(i) =>
      && Wants(txs, i)
      && forall j | 0 <= j < |txs| && txs[j].held <= |txs[j].batch| :: !Holds(txs[j], Wanted(txs, i))
  }

  ghost function StepTo(txs: seq<Transaction>, step: LockStep): seq<Transaction>
    requires CanStep(txs, step, false)
  {
    match step
    case Begin(i, batch) => txs[i := Transaction(batch, 0)]
    case End(i) => txs[i := Transaction([], 0)]
    case Acquire(i) => txs[i := Transaction(txs[i].batch, txs[i].held + 1)]
  }

  ghost predicate Reaches(replicas: nat, sorted: bool, steps: seq<LockStep>, txs: seq<Transaction>)
    decreases |steps|
  {
    if steps == [] then txs == seq(replicas, _ => Transaction([], 0))
    else
      var last := steps[|steps| - 1];
      exists prev ::
        && Reaches(replicas, sorted, steps[..|steps| - 1], prev)
        && CanStep(prev, last, sorted) && txs == StepTo(prev, last)
  }

  ghost predicate Orderly(txs: seq<Transaction>) {
    && (forall i | 0 <= i < |txs| :: txs[i].held <= |txs[i].batch| && Ascending(txs[i].batch))
    && (forall i, j, k | 0 <= i < j < |txs| && Holds(txs[i], k) :: !Holds(txs[j], k))
  }

  lemma StepStaysOrderly(txs: seq<Transaction>, step: LockStep)
    requires Orderly(txs) && CanStep(txs, step, true)
    ensures Orderly(StepTo(txs, step))
  {
    var next := StepTo(txs, step);
    if step.Acquire? {
      var t := txs[step.i];
      assert t.batch[..t.held + 1] == t.batch[..t.held] + [t.batch[t.held]];
    }
    hide Ascending;
    forall i, j, k | 0 <= i < j < |next| && Holds(next[i], k) ensures !Holds(next[j], k) {
      if i != step.i && j != step.i {
        assert Holds(txs[i], k);
      }
    }
  }

  lemma {:induction false} ReachableIsOrderly(replicas: nat, steps: seq<LockStep>, txs: seq<Transaction>)
    requires Reaches(replicas, true, steps, txs)
    ensures |txs| == replicas && Orderly(txs)
    decreases |steps|
  {
    if steps != [] {
      var last := steps[|steps| - 1];
      var prev: seq<Transaction> :|
        Reaches(replicas, true, steps[..|steps| - 1], prev) && CanStep(prev, last, true) && txs == StepTo(prev, last);
      ReachableIsOrderly(replicas, steps[..|steps| - 1], prev);
      StepStaysOrderly(prev, last);
    }
  }

  /** Replica i cannot go on because j holds the row it wants next. */
  ghost predicate WaitsFor(txs: seq<Transaction>, i: nat, j: nat) {
    && Wants(txs, i) && j < |txs| && i != j && txs[j].held <= |txs[j].batch|
    && Holds(txs[j], Wanted(txs, i))
  }

  ghost predicate CyclicWait(txs: seq<Transaction>, cycle: seq<nat>) {
    && cycle != []
    && (forall m | 0 <= m < |cycle| - 1 :: WaitsFor(txs, cycle[m], cycle[m + 1]))
    && WaitsFor(txs, cycle[|cycle| - 1], cycle[0])
  }

  lemma WaitingClimbs(txs: seq<Transaction>, i: nat, j: nat)
    requires Orderly(txs) && WaitsFor(txs, i, j) && Wants(txs, j)
    ensures Before(Wanted(txs, i), Wanted(txs, j))
  {
    var k := Wanted(txs, i);
    var p :| 0 <= p < txs[j].held && txs[j].batch[p] == k;
    assert Before(txs[j].batch[p], Wanted(txs, j));
  }

  lemma {:induction false} ClimbsAlongTheCycle(txs: seq<Transaction>, cycle: seq<nat>, m: nat)
    requires Orderly(txs) && 0 < m < |cycle|
    requires forall p | 0 <= p < |cycle| :: Wants(txs, cycle[p])
    requires forall p | 0 <= p < |cycle| - 1 :: WaitsFor(txs, cycle[p], cycle[p + 1])
    ensures Wants(txs, cycle[0]) && Wants(txs, cycle[m])
    ensures Before(Wanted(txs, cycle[0]), Wanted(txs, cycle[m]))
  {
    assert WaitsFor(txs, cycle[m - 1], cycle[m]);
    WaitingClimbs(txs, cycle[m - 1], cycle[m]);
    if m > 1 {
      ClimbsAlongTheCycle(txs, cycle, m - 1);
    }
  }

  /** No reachable state has replicas waiting for each other in a ring. */
  lemma NoDeadlock(replicas: nat, steps: seq<LockStep>, txs: seq<Transaction>, cycle: seq<nat>)
    requires Reaches(replicas, true, steps, txs)
    ensures !CyclicWait(txs, cycle)
  {
    ReachableIsOrderly(replicas, steps, txs);
    if CyclicWait(txs, cycle) {
      var last := |cycle| - 1;
      forall p | 0 <= p < |cycle| ensures Wants(txs, cycle[p]) {
        assert p < last ==> WaitsFor(txs, cycle[p], cycle[p + 1]);
      }
      WaitingClimbs(txs, cycle[last], cycle[0]);
      if last > 0 {
        ClimbsAlongTheCycle(txs, cycle, last);
      }
      assert false;
    }
  }

  /** While any transaction is open, one of them can take its next lock or end with
      every lock it needs, so the replicas never all stand still. */
  lemma SomeoneCanMove(replicas: nat, steps: seq<LockStep>, txs: seq<Transaction>)
    requires Reaches(replicas, true, steps, txs)
    requires exists i :: 0 <= i < |txs| && txs[i].batch != []
    ensures exists i :: 0 <= i < |txs| && txs[i].batch != []
                        && (CanStep(txs, Acquire(i), true)
                            || (txs[i].held == |txs[i].batch| && CanStep(txs, End(i), true)))
  {
    ReachableIsOrderly(replicas, steps, txs);
    var i :| 0 <= i < |txs| && txs[i].batch != [];
    if Wants(txs, i) {
      var m := Foremost(txs, i);
      if !CanStep(txs, Acquire(m), true) {
        var j :| 0 <= j < |txs| && Holds(txs[j], Wanted(txs, m));
        assert WaitsFor(txs, m, j);
        if Wants(txs, j) {
          WaitingClimbs(txs, m, j);
          assert false;
        }
        assert CanStep(txs, End(j), true);
      }
    } else {
      assert txs[i].held == |txs[i].batch| && CanStep(txs, End(i), true);
    }
  }

  /** The waiting replica that wants the row furthest on in the order. */
  lemma Foremost(txs: seq<Transaction>, i: nat) returns (m: nat)
    requires Wants(txs, i)
    ensures Wants(txs, m)
    ensures forall j | 0 <= j < |txs| && Wants(txs, j) ::
              !Before(Wanted(txs, m), Wanted(txs, j))
  {
    m := i;
    for n := 0 to |txs|
      invariant Wants(txs, m)
      invariant forall j | 0 <= j < n && Wants(txs, j) ::
          !Before(Wanted(txs, m), Wanted(txs, j))
    {
      if Wants(txs, n) && Before(Wanted(txs, m), Wanted(txs, n)) {
        m := n;
      }
    }
  }

  lemma OneMoreStep(replicas: nat, steps: seq<LockStep>, txs: seq<Transaction>, step: LockStep, to: seq<Transaction>)
    returns (more: seq<LockStep>)
    requires Reaches(replicas, false, steps, txs) && CanStep(txs, step, false) && StepTo(txs, step) == to
    ensures Reaches(replicas, false, more, to)
  {
    more := steps + [step];
    assert more[|more| - 1] == step && more[..|more| - 1] == steps;
  }

  /** The order is what does it: two replicas that lock the same two rows in opposite
      orders can come to wait for each other. */
  lemma UnsortedBatchesDeadlock(a: CounterKey, b: CounterKey)
    requires a != b
    ensures exists steps, txs :: Reaches(2, false, steps, txs) && CyclicWait(txs, [0, 1])
  {
    var steps := BothBegin([a, b], [b, a]);
    hide Reaches;
    var begun := [Transaction([a, b], 0), Transaction([b, a], 0)];
    var one := [Transaction([a, b], 1), Transaction([b, a], 0)];
    var both := [Transaction([a, b], 1), Transaction([b, a], 1)];
    assert one[0].batch[..1] == [a] && both[1].batch[..1] == [b];
    steps := OneMoreStep(2, steps, begun, Acquire(0), one);
    steps := OneMoreStep(2, steps, one, Acquire(1), both);
    assert WaitsFor(both, 0, 1) && WaitsFor(both, 1, 0);
    assert Reaches(2, false, steps, both) && CyclicWait(both, [0, 1]);
  }

  lemma BothBegin(first: seq<CounterKey>, second: seq<CounterKey>) returns (steps: seq<LockStep>)
    ensures Reaches(2, false, steps, [Transaction(first, 0), Transaction(second, 0)])
  {
    var idle := Transaction([], 0);
    assert seq(2, _ => idle) == [idle, idle];
    assert Reaches(2, false, [], [idle, idle]);
    hide Reaches;
    steps := OneMoreStep(2, [], [idle, idle], Begin(0, first), [Transaction(first, 0), idle]);
    steps := OneMoreStep(2, steps, [Transaction(first, 0), idle], Begin(1, second),
                         [Transaction(first, 0), Transaction(second, 0)]);
  }
}
