/** The flusher: one replica's queue of usage on its way to the durable counters. */
module Flushing {
  import opened Basics
  import opened Amounts
  import opened DurableCounters
  import opened LockOrder

  /** A flusher's state as a value. The queue is the channel; pending is what the loop
      has summed per counter. Both are bounded by the same capacity. */
  datatype Flusher = Flusher(
    queue: seq<WindowUsage>, pending: Book, capacity: nat, closed: bool, finished: bool)
  {
    predicate Bounded() {
      && |queue| <= capacity && |pending| <= capacity
      && (finished ==> closed && queue == [])
    }

    /** Whether Add takes a delta or drops it: it never blocks. */
    predicate Accepts() {
      !closed && |queue| < capacity
    }

    function Offer(d: WindowUsage): Flusher {
      if Accepts() then this.(queue := queue + [d]) else this
    }

    /** Whether the loop has room for the delta it took off the queue. */
    predicate Absorbs(d: WindowUsage) {
      d.key in pending || |pending| < capacity
    }

    function Absorb(): Flusher
      requires queue != []
    {
      var d := queue[0];
      this.(queue := queue[1..], pending := if Absorbs(d) then Plus(pending, d.key, d.usage) else pending)
    }

    /** The loop once its channel is closed: it takes off all that is left. */
    function Drain(): (r: Flusher)
      ensures r.queue == [] && r.capacity == capacity && r.closed == closed && r.finished == finished
      ensures |pending| <= capacity ==> |r.pending| <= capacity
      decreases |queue|
    {
      if queue == [] then this else Absorb().Drain()
    }

    /** What it finds no room for on the way. */
    function DrainSheds(): seq<WindowUsage>
      decreases |queue|
    {
      if queue == [] then [] else (if Absorbs(queue[0]) then [] else [queue[0]]) + Absorb().DrainSheds()
    }

    /** Usage accepted for a counter and not yet durable. */
    function Backlog(k: CounterKey, f: Field): int {
      Total(queue, k, f) + Of(pending, k, f)
    }
  }

  lemma OfferBacklog(fl: Flusher, d: WindowUsage, k: CounterKey, f: Field)
    requires fl.Bounded()
    ensures fl.Offer(d).Bounded()
    ensures fl.Offer(d).Backlog(k, f) == fl.Backlog(k, f) + if fl.Accepts() then For(d, k, f) else 0
  {
    TotalAppend(fl.queue, d, k, f);
  }

  lemma AbsorbBacklog(fl: Flusher, k: CounterKey, f: Field)
    requires fl.Bounded() && fl.queue != []
    ensures fl.Absorb().Bounded()
    ensures fl.Absorb().Backlog(k, f)
            == fl.Backlog(k, f) - if fl.Absorbs(fl.queue[0]) then 0 else For(fl.queue[0], k, f)
  {
    TotalOfTail(fl.queue, k, f);
    var d := fl.queue[0];
  }

  /** Everything handed over has landed in the table, is still here, was shed, or was lost. */
  ghost predicate Traced(added: Book, landed: Book, fl: Flusher, shed: Book, lost: Book) {
    forall k, f :: Of(added, k, f) == Of(landed, k, f) + fl.Backlog(k, f) + Of(shed, k, f) + Of(lost, k, f)
  }

  lemma OfferIsTraced(added: Book, landed: Book, fl: Flusher, shed: Book, lost: Book, d: WindowUsage)
    requires fl.Bounded() && Traced(added, landed, fl, shed, lost)
    ensures fl.Offer(d).Bounded()
    ensures Traced(Plus(added, d.key, d.usage), landed, fl.Offer(d),
                   if fl.Accepts() then shed else Plus(shed, d.key, d.usage), lost)
  {
    OfferBacklog(fl, d, d.key, Cost);
    forall k, f
      ensures fl.Offer(d).Backlog(k, f) == fl.Backlog(k, f) + if fl.Accepts() then For(d, k, f) else 0
      ensures For(d, k, f) == if k == d.key then Val(d.usage, f) else 0
    {
      OfferBacklog(fl, d, k, f);
    }
  }

  lemma AbsorbIsTraced(added: Book, landed: Book, fl: Flusher, shed: Book, lost: Book)
    requires fl.Bounded() && fl.queue != [] && Traced(added, landed, fl, shed, lost)
    ensures fl.Absorb().Bounded()
    ensures var d := fl.queue[0];
            Traced(added, landed, fl.Absorb(), if fl.Absorbs(d) then shed else Plus(shed, d.key, d.usage), lost)
  {
    var d := fl.queue[0];
    var next := fl.Absorb();
    var left := if fl.Absorbs(d) then shed else Plus(shed, d.key, d.usage);
    AbsorbBacklog(fl, d.key, Cost);
    forall k, f
      ensures Of(added, k, f) == Of(landed, k, f) + next.Backlog(k, f) + Of(left, k, f) + Of(lost, k, f)
    {
      AbsorbBacklog(fl, k, f);
      var more := if fl.Absorbs(d) then 0 else For(d, k, f);
      assert Of(left, k, f) == Of(shed, k, f) + more;
      assert Of(added, k, f) == Of(landed, k, f) + fl.Backlog(k, f) + Of(shed, k, f) + Of(lost, k, f);
    }
  }

  /** A write moves what is pending to the table; one that is given up loses it. */
  lemma WriteIsTraced(added: Book, landed: Book, fl: Flusher, shed: Book, lost: Book, finished: bool)
    requires Traced(added, landed, fl, shed, lost)
    ensures var next := fl.(pending := map[], finished := finished);
            && Traced(added, Merge(landed, fl.pending), next, shed, lost)
            && Traced(added, landed, next, shed, Merge(lost, fl.pending))
  {
    var next := fl.(pending := map[], finished := finished);
    forall k, f ensures fl.Backlog(k, f) == next.Backlog(k, f) + Of(fl.pending, k, f) {
    }
  }

  lemma NothingAdded(m: Book)
    ensures Amounts.Merge(m, map[]) == m && IsSum(m, m, map[])
  {
  }

  /** The goroutine and its channel. The ghost books say where all that was ever handed to
      it has gone: the table has it, it was shed and counted as dropped, or it was lost
      without being counted. What the table was given twice is kept apart. */
  class Worker {
    const store: UsageCounters
    const capacity: nat
    var queue: seq<WindowUsage>
    var pending: Book
    var closed: bool
    var finished: bool
    var dropped: nat
    ghost var added: Book
    ghost var landed: Book
    ghost var shed: Book
    ghost var lost: Book
    ghost var replayed: Book

    ghost function Value(): Flusher
      reads this
    {
      Flusher(queue, pending, capacity, closed, finished)
    }

    /** Nothing handed over is ever lost track of. */
    ghost predicate Valid()
      reads this
    {
      Value().Bounded() && Traced(added, landed, Value(), shed, lost)
    }

    constructor (store: UsageCounters, buffer: nat)
      ensures Valid() && this.store == store && !closed && !finished
      ensures capacity == if buffer == 0 then 8192 else buffer
      ensures Value().queue == [] && Value().pending == map[] && dropped == 0
      ensures added == landed == shed == lost == replayed == map[]
    {
      this.store := store;
      capacity := if buffer == 0 then 8192 else buffer;
      queue, pending, closed, finished, dropped := [], map[], false, false, 0;
      added, landed, shed, lost, replayed := map[], map[], map[], map[], map[];
    }

    method Add(d: WindowUsage)
      requires Valid()
      modifies this
      ensures Valid() && Value() == old(Value()).Offer(d)
      ensures added == Plus(old(added), d.key, d.usage)
      ensures landed == old(landed) && lost == old(lost) && replayed == old(replayed)
      ensures pending == old(pending) && closed == old(closed) && finished == old(finished) && |queue| <= capacity
      ensures !old(closed) && |old(queue)| < capacity ==>
          queue == old(queue) + [d] && dropped == old(dropped) && shed == old(shed)
      ensures old(closed) || |old(queue)| >= capacity ==>
          queue == old(queue) && dropped == old(dropped) + 1 && shed == Plus(old(shed), d.key, d.usage)
    {
      hide Traced, Plus;
      OfferIsTraced(added, landed, Value(), shed, lost, d);
      added := Plus(added, d.key, d.usage);
      if closed || |queue| >= capacity {
        dropped := dropped + 1;
        shed := Plus(shed, d.key, d.usage);
      } else {
        queue := queue + [d];
      }
    }

    /** The loop takes one delta off the channel. */
    method Merge()
      requires Valid() && queue != [] && !finished
      modifies this
      ensures Valid() && Value() == old(Value()).Absorb()
      ensures added == old(added) && landed == old(landed) && lost == old(lost) && replayed == old(replayed)
      ensures queue == old(queue)[1..] && closed == old(closed) && finished == old(finished)
      ensures var d := old(queue)[0];
              if d.key in old(pending) || |old(pending)| < capacity then
                pending == Plus(old(pending), d.key, d.usage) && dropped == old(dropped) && shed == old(shed)
              else pending == old(pending) && dropped == old(dropped) + 1 && shed == Plus(old(shed), d.key, d.usage)
    {
      hide Traced, Flusher.Backlog, Plus;
      AbsorbIsTraced(added, landed, Value(), shed, lost);
      var d := queue[0];
      var room := d.key in pending || |pending| < capacity;
      queue, pending := queue[1..], if room then Plus(pending, d.key, d.usage) else pending;
      if !room {
        dropped := dropped + 1;
        shed := Plus(shed, d.key, d.usage);
      }
    }

    /** The pending entries as a batch, in the order rows are locked in. */
    method Batch() returns (batch: seq<WindowUsage>)
      ensures Ascending(KeysOf(batch))
      ensures Lists(batch, pending)
      ensures batch == [] <==> pending == map[]
      ensures |KeysOf(batch)| == |pending|
    {
      batch := [];
      var rest := pending.Keys;
      while rest != {}
        invariant rest <= pending.Keys && |batch| + |rest| == |pending|
        invariant forall k | k in pending :: k in rest || exists i :: 0 <= i < |batch| && batch[i].key == k
        invariant forall i | 0 <= i < |batch| ::
            batch[i].key in pending && batch[i].key !in rest && batch[i].usage == pending[batch[i].key]
        invariant forall i, j | 0 <= i < j < |batch| :: batch[i].key != batch[j].key
        decreases |rest|
      {
        var k :| k in rest;
        ghost var was := batch;
        batch := batch + [WindowUsage(k, pending[k])];
        rest := rest - {k};
        assert batch[|was|].key == k && forall i | 0 <= i < |was| :: batch[i] == was[i];
      }
      var listed := batch;
      batch := SortBatch(listed);
      SameEntries(listed, batch);
      BatchTotals(listed, batch, pending);
    }

    /** One write: what is pending is added to the table once, or stays for the next tick.
        If the commit took effect and its answer was lost, it has been added and stays. */
    method Write(failAt: nat, commit: Commit) returns (ok: bool)
      requires Valid() && !finished
      modifies this, store
      ensures Valid()
      ensures ok <==> old(pending) == map[] || Succeeds(|old(pending)|, failAt, commit)
      ensures Value() == if ok then old(Value()).(pending := map[]) else old(Value())
      ensures added == old(added) && shed == old(shed) && lost == old(lost) && dropped == old(dropped)
      ensures landed == if ok then Amounts.Merge(old(landed), old(pending)) else old(landed)
      ensures replayed == if !ok && Lands(|old(pending)|, failAt, commit)
                          then Amounts.Merge(old(replayed), old(pending)) else old(replayed)
      ensures !Lands(|old(pending)|, failAt, commit) && old(pending) != map[] ==> store.rows == old(store.rows)
      ensures ok || Lands(|old(pending)|, failAt, commit) ==>
          IsSum(store.rows, old(store.rows), old(pending))
    {
      hide Traced, IsSum, BatchAdded, Lists, Amounts.Merge, Ascending, KeysOf;
      if |pending| == 0 {
        NothingAdded(landed);
        NothingAdded(store.rows);
        return true;
      }
      WriteIsTraced(added, landed, Value(), shed, lost, false);
      var batch := Batch();
      assert |batch| == |KeysOf(batch)|;
      ok := store.AddDeltas(batch, failAt, commit);
      if Lands(|batch|, failAt, commit) {
        ListedIsSum(store.rows, old(store.rows), batch, pending);
      }
      if ok {
        landed := Amounts.Merge(landed, pending);
        pending := map[];
      } else if Lands(|batch|, failAt, commit) {
        replayed := Amounts.Merge(replayed, pending);
      }
    }

    /** Stops taking deltas; what is queued is still drained. */
    method Close()
      requires Valid()
      modifies this
      ensures Valid() && Value() == old(Value()).(closed := true)
      ensures added == old(added) && landed == old(landed) && dropped == old(dropped)
      ensures shed == old(shed) && lost == old(lost) && replayed == old(replayed)
    {
      closed := true;
    }

    /** The loop after Close, as far as the end of its channel. */
    method TakeRest()
      requires Valid() && closed && !finished
      modifies this
      ensures Valid() && Value() == old(Value()).Drain() && queue == []
      ensures added == old(added) && landed == old(landed) && lost == old(lost) && replayed == old(replayed)
      ensures dropped == old(dropped) + |old(Value()).DrainSheds()|
      ensures BatchAdded(shed, old(shed), old(Value()).DrainSheds())
    {
      hide Traced;
      ghost var was := Value();
      while queue != []
        invariant Valid() && closed && !finished && added == old(added) && landed == old(landed)
        invariant lost == old(lost) && replayed == old(replayed)
        invariant Value().Drain() == was.Drain()
        invariant dropped + |Value().DrainSheds()| == old(dropped) + |was.DrainSheds()|
        invariant forall k, f ::
            Of(shed, k, f) + Total(Value().DrainSheds(), k, f) == Of(old(shed), k, f) + Total(was.DrainSheds(), k, f)
        decreases |queue|
      {
        DrainStep(Value());
        Merge();
      }
    }

    /** The loop after Close: it drains the channel, writes once more, and ends whether or
        not that write worked. What a failed write held is gone, and the count of dropped
        deltas does not say so: it goes up only by what draining found no room for. */
    method Finish(failAt: nat, commit: Commit) returns (ok: bool)
      requires Valid() && closed && !finished
      modifies this, store
      ensures Valid() && Value() == old(Value()).Drain().(pending := map[], finished := true)
      ensures var final := old(Value()).Drain().pending;
              ok <==> final == map[] || Succeeds(|final|, failAt, commit)
      ensures added == old(added) && replayed == old(replayed)
      ensures dropped == old(dropped) + |old(Value()).DrainSheds()|
      ensures BatchAdded(shed, old(shed), old(Value()).DrainSheds())
      ensures var final := old(Value()).Drain().pending;
              var took := final == map[] || Lands(|final|, failAt, commit);
              && landed == (if took then Amounts.Merge(old(landed), final) else old(landed))
              && lost == (if took then old(lost) else Amounts.Merge(old(lost), final))
              && if took then IsSum(store.rows, old(store.rows), final) else store.rows == old(store.rows)
      ensures forall k, f :: Of(added, k, f) == Of(landed, k, f) + Of(shed, k, f) + Of(lost, k, f)
    {
      hide Traced, IsSum, BatchAdded, Amounts.Merge, Flusher.Drain, Flusher.DrainSheds;
      TakeRest();
      ghost var final := pending;
      WriteIsTraced(added, landed, Value(), shed, lost, true);
      ok := Write(failAt, commit);
      landed, replayed := old(landed), old(replayed);
      if final == map[] || Lands(|final|, failAt, commit) {
        landed := Amounts.Merge(landed, final);
      } else {
        lost := Amounts.Merge(lost, final);
      }
      pending, finished := map[], true;
      NothingLeft(added, landed, Value(), shed, lost);
    }
  }

  lemma NothingLeft(added: Book, landed: Book, fl: Flusher, shed: Book, lost: Book)
    requires Traced(added, landed, fl, shed, lost) && fl.queue == [] && fl.pending == map[]
    ensures forall k, f :: Of(added, k, f) == Of(landed, k, f) + Of(shed, k, f) + Of(lost, k, f)
  {
    assert forall k, f :: fl.Backlog(k, f) == 0;
  }

  lemma DrainStep(fl: Flusher)
    requires fl.queue != []
    ensures fl.Absorb().Drain() == fl.Drain()
    ensures var d := fl.queue[0];
            && |fl.DrainSheds()| == |fl.Absorb().DrainSheds()| + (if fl.Absorbs(d) then 0 else 1)
            && forall k, f :: Total(fl.DrainSheds(), k, f)
                              == Total(fl.Absorb().DrainSheds(), k, f) + if fl.Absorbs(d) then 0 else For(d, k, f)
  {
    var d, rest := fl.queue[0], fl.Absorb().DrainSheds();
    if fl.Absorbs(d) {
      assert fl.DrainSheds() == rest;
    } else {
      assert fl.DrainSheds() == [d] + rest;
      forall k, f ensures Total([d] + rest, k, f) == Total(rest, k, f) + For(d, k, f) {
        TotalOfTail([d] + rest, k, f);
        assert ([d] + rest)[1..] == rest;
      }
    }
  }

  lemma SameEntries(a: seq<WindowUsage>, b: seq<WindowUsage>)
    requires multiset(a) == multiset(b)
    requires Ascending(KeysOf(b))
    ensures |a| == |b|
    ensures forall i | 0 <= i < |b| :: b[i] in a
    ensures forall i | 0 <= i < |a| :: a[i] in b
    ensures forall i, j | 0 <= i < j < |b| :: b[i].key != b[j].key
  {
    assert |multiset(a)| == |a| && |multiset(b)| == |b|;
    forall i | 0 <= i < |b| ensures b[i] in a {
      assert b[i] in multiset(b);
    }
    forall i | 0 <= i < |a| ensures a[i] in b {
      assert a[i] in multiset(a);
    }
    forall i, j | 0 <= i < j < |b| ensures b[i].key != b[j].key {
      assert Before(KeysOf(b)[i], KeysOf(b)[j]);
    }
  }

  /** A sorted listing of a book sums, key by key, to the book. */
  lemma BatchTotals(listed: seq<WindowUsage>, batch: seq<WindowUsage>, book: Book)
    requires forall k | k in book :: exists i :: 0 <= i < |listed| && listed[i].key == k
    requires forall i | 0 <= i < |listed| :: listed[i].key in book && listed[i].usage == book[listed[i].key]
    requires forall i | 0 <= i < |listed| :: listed[i] in batch
    requires forall i | 0 <= i < |batch| :: batch[i] in listed
    requires forall i, j | 0 <= i < j < |batch| :: batch[i].key != batch[j].key
    ensures forall k, f :: Total(batch, k, f) == Of(book, k, f)
    ensures batch == [] <==> book == map[]
  {
    assert batch != [] ==> batch[0] in listed;
    assert book != map[] ==> exists k :: k in book;
    forall k, f ensures Total(batch, k, f) == Of(book, k, f) {
      TotalOfBook(batch, book, k, f);
      if k in book {
        var i :| 0 <= i < |listed| && listed[i].key == k;
        var j :| 0 <= j < |batch| && batch[j] == listed[i];
      }
    }
  }
}
