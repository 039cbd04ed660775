/** The live counters every replica enforces against: what the three Redis scripts
    do to them, each script being one atomic step. Window expiry is a way of losing a
    key and is not kept here. */
module LiveCounters {
  import opened Amounts

  /** A quota resolved against the clock. */
  datatype Limit = Limit(key: CounterKey, maxCost: int, block: bool)

  datatype Breach = Breach(key: CounterKey, used: int, requested: int, limit: int)

  /** The answer to one check-and-reserve. */
  datatype Answer =
    | Missing(windows: seq<CounterKey>)
    | Blocked(breach: Breach)
    | Reserved(soft: seq<Breach>)

  function Keys(limits: seq<Limit>): (keys: seq<CounterKey>)
    ensures |keys| == |limits|
    ensures forall i | 0 <= i < |limits| :: keys[i] == limits[i].key
  {
    seq(|limits|, i requires 0 <= i < |limits| => limits[i].key)
  }

  /** The windows with no live counter, in the order asked for. */
  function MissingKeys(live: Book, limits: seq<Limit>): (r: seq<CounterKey>)
    ensures r == [] <==> forall i | 0 <= i < |limits| :: limits[i].key in live
  {
    if limits == [] then []
    else
      var front := limits[..|limits| - 1];
      var last := limits[|limits| - 1];
      assert limits == front + [last];
      MissingKeys(live, front) + if last.key in live then [] else [last.key]
  }

  predicate Crosses(live: Book, l: Limit, cost: int) {
    CostOf(live, l.key) + cost > l.maxCost
  }

  /** The limits of one sort, blocking or soft, that a reservation would cross. */
  function Crossed(live: Book, limits: seq<Limit>, cost: int, block: bool): (r: seq<Breach>)
    ensures r == [] <==> forall i | 0 <= i < |limits| && limits[i].block == block :: !Crosses(live, limits[i], cost)
  {
    if limits == [] then []
    else
      var front := limits[..|limits| - 1];
      var last := limits[|limits| - 1];
      assert limits == front + [last];
      Crossed(live, front, cost, block) +
      if last.block == block && Crosses(live, last, cost)
      then [Breach(last.key, CostOf(live, last.key), cost, last.maxCost)]
      else []
  }

  /** What the reserve script answers. */
  function AnswerTo(live: Book, limits: seq<Limit>, amount: QuotaUsage): Answer {
    var missing := MissingKeys(live, limits);
    var blocked := Crossed(live, limits, amount.cost, true);
    if missing != [] then Missing(missing)
    else if blocked != [] then Blocked(blocked[0])
    else Reserved(Crossed(live, limits, amount.cost, false))
  }

  /** The counters with u added to those of the keys that exist. */
  function Bump(live: Book, keys: seq<CounterKey>, u: QuotaUsage): (r: Book)
    ensures r.Keys == live.Keys
    ensures forall k | k in live :: r[k] == if k in keys then live[k].Add(u) else live[k]
  {
    map k | k in live :: if k in keys then live[k].Add(u) else live[k]
  }

  /** What the reserve script leaves behind. */
  function AfterReserve(live: Book, limits: seq<Limit>, amount: QuotaUsage): Book {
    if AnswerTo(live, limits, amount).Reserved? then Bump(live, Keys(limits), amount) else live
  }

  /** The counters raised, field by field, to a snapshot. */
  function Raise(live: Book, snapshot: Book): (r: Book)
    ensures forall k :: k in r <==> k in live || k in snapshot
    ensures forall k | k in r ::
      r[k] == if k !in snapshot then live[k] else if k in live then live[k].Max(snapshot[k]) else snapshot[k]
  {
    map k | k in live.Keys + snapshot.Keys ::
      if k !in snapshot then live[k] else if k in live then live[k].Max(snapshot[k]) else snapshot[k]
  }

  /* ---- what the scripts promise ---- */

  /** A reservation is taken exactly when every window has a counter and no blocking
      cap would be passed; one that exactly fills the cap is taken. Otherwise no
      counter of any window moves. */
  lemma ReserveIsAllOrNothing(live: Book, limits: seq<Limit>, amount: QuotaUsage)
    ensures AnswerTo(live, limits, amount).Reserved? <==>
            forall i | 0 <= i < |limits| ::
              && limits[i].key in live
              && (limits[i].block ==> live[limits[i].key].cost + amount.cost <= limits[i].maxCost)
    ensures !AnswerTo(live, limits, amount).Reserved? ==> AfterReserve(live, limits, amount) == live
    ensures AnswerTo(live, limits, amount).Reserved? ==>
              forall i | 0 <= i < |limits| ::
                var was, now := live[limits[i].key], AfterReserve(live, limits, amount)[limits[i].key];
                && now.requests == was.requests + amount.requests
                && now.tokens == was.tokens + amount.tokens && now.cost == was.cost + amount.cost
    ensures AfterReserve(live, limits, amount).Keys == live.Keys
    ensures forall k | k in live && forall i | 0 <= i < |limits| :: limits[i].key != k ::
              AfterReserve(live, limits, amount)[k] == live[k]
  {
    if AnswerTo(live, limits, amount).Reserved? {
      forall i | 0 <= i < |limits|
        ensures limits[i].key in live
        ensures AfterReserve(live, limits, amount)[limits[i].key] == live[limits[i].key].Add(amount)
        ensures limits[i].block ==> live[limits[i].key].cost + amount.cost <= limits[i].maxCost
      {
        assert limits[i].key == Keys(limits)[i];
        assert !limits[i].block || !Crosses(live, limits[i], amount.cost);
      }
    } else if forall i | 0 <= i < |limits| :: limits[i].key in live {
      var i :| 0 <= i < |limits| && limits[i].block && Crosses(live, limits[i], amount.cost);
      assert limits[i].key in live;
    }
  }

  /** The breach reported is the first blocking limit crossed, and it is reported truthfully. */
  lemma {:induction false} FirstBreach(live: Book, limits: seq<Limit>, cost: int, block: bool)
    requires Crossed(live, limits, cost, block) != []
    ensures exists i :: 0 <= i < |limits| && limits[i].block == block && Crosses(live, limits[i], cost)
                        && Crossed(live, limits, cost, block)[0]
                           == Breach(limits[i].key, CostOf(live, limits[i].key), cost, limits[i].maxCost)
                        && forall j | 0 <= j < i && limits[j].block == block :: !Crosses(live, limits[j], cost)
  {
    var front := limits[..|limits| - 1];
    if Crossed(live, front, cost, block) != [] {
      FirstBreach(live, front, cost, block);
      var i :| 0 <= i < |front| && front[i].block == block && Crosses(live, front[i], cost)
               && Crossed(live, front, cost, block)[0]
                  == Breach(front[i].key, CostOf(live, front[i].key), cost, front[i].maxCost)
               && forall j | 0 <= j < i && front[j].block == block :: !Crosses(live, front[j], cost);
      assert limits[i] == front[i];
      assert forall j | 0 <= j < i :: limits[j] == front[j];
    } else {
      var i := |limits| - 1;
      assert forall j | 0 <= j < i :: limits[j] == front[j];
      assert limits[i].block == block && Crosses(live, limits[i], cost);
    }
  }

  /** Every limit of its sort that is crossed is reported, with its figures, and no other. */
  lemma {:induction false} EveryBreach(live: Book, limits: seq<Limit>, cost: int, block: bool, b: Breach)
    ensures b in Crossed(live, limits, cost, block) <==>
            exists i :: 0 <= i < |limits| && limits[i].block == block
                        && b.key == limits[i].key && b.requested == cost && b.limit == limits[i].maxCost
                        && b.used == (if b.key in live then live[b.key].cost else 0)
                        && b.used + cost > limits[i].maxCost
  {
    if limits != [] {
      var front, last := limits[..|limits| - 1], limits[|limits| - 1];
      EveryBreach(live, front, cost, block, b);
      assert forall i :: 0 <= i < |front| ==> limits[i] == front[i];
    }
  }

  /** The windows reported missing are those of the limits without a counter. */
  lemma {:induction false} EveryMissing(live: Book, limits: seq<Limit>, k: CounterKey)
    ensures k in MissingKeys(live, limits) <==> k !in live && exists i :: 0 <= i < |limits| && limits[i].key == k
  {
    if limits != [] {
      var front := limits[..|limits| - 1];
      EveryMissing(live, front, k);
      assert forall i :: 0 <= i < |front| ==> limits[i] == front[i];
    }
  }

  lemma MaxLaws(x: QuotaUsage, a: QuotaUsage, b: QuotaUsage)
    ensures x.Max(a).Max(a) == x.Max(a)
    ensures a.Max(b) == b.Max(a)
    ensures x.Max(a).Max(b) == x.Max(b).Max(a)
  {
  }

  /** Replicas seeding the same windows at once converge: seeding twice is seeding once,
      and the order does not matter. No seed ever lowers a counter. */
  lemma SeedsConverge(live: Book, a: Book, b: Book)
    ensures Raise(Raise(live, a), a) == Raise(live, a)
    ensures Raise(Raise(live, a), b) == Raise(Raise(live, b), a)
    ensures forall k, f | k in live :: Of(live, k, f) <= Of(Raise(live, a), k, f)
    ensures forall k, f | k in a :: Of(a, k, f) <= Of(Raise(live, a), k, f)
  {
    SeedsCommute(live, a, b);
    var aa := Raise(Raise(live, a), a);
    forall k | k in aa ensures aa[k] == Raise(live, a)[k] {
      MaxLaws(if k in live then live[k] else aa[k], if k in a then a[k] else aa[k], aa[k]);
    }
  }

  lemma SeedsCommute(live: Book, a: Book, b: Book)
    ensures Raise(Raise(live, a), b) == Raise(Raise(live, b), a)
  {
    var ab, ba := Raise(Raise(live, a), b), Raise(Raise(live, b), a);
    forall k | k in ab ensures ab[k] == ba[k] {
      MaxLaws(if k in live then live[k] else ab[k], if k in a then a[k] else ab[k], if k in b then b[k] else ab[k]);
    }
  }

  lemma BumpOneMore(live: Book, keys: seq<CounterKey>, k: CounterKey, u: QuotaUsage)
    requires k !in keys
    ensures Bump(live, keys + [k], u)
            == if k in live then Bump(live, keys, u)[k := live[k].Add(u)] else Bump(live, keys, u)
  {
  }

  /* ---- the scripts, step by step ---- */

  lemma BumpNextLimit(live: Book, limits: seq<Limit>, i: nat, u: QuotaUsage)
    requires i < |limits| && Distinct(Keys(limits)) && limits[i].key in live
    ensures Bump(live, Keys(limits)[..i], u)[limits[i].key] == live[limits[i].key]
    ensures Bump(live, Keys(limits)[..i + 1], u)
            == Bump(live, Keys(limits)[..i], u)[limits[i].key := live[limits[i].key].Add(u)]
  {
    var k := limits[i].key;
    DistinctAt(Keys(limits), i);
    assert Keys(limits)[..i + 1] == Keys(limits)[..i] + [k];
    BumpOneMore(live, Keys(limits)[..i], k, u);
  }

  lemma OneMoreLimit(live: Book, limits: seq<Limit>, i: nat, cost: int, block: bool)
    requires i < |limits|
    ensures MissingKeys(live, limits[..i + 1])
            == MissingKeys(live, limits[..i]) + if limits[i].key in live then [] else [limits[i].key]
    ensures Crossed(live, limits[..i + 1], cost, block)
            == Crossed(live, limits[..i], cost, block) +
               if limits[i].block == block && Crosses(live, limits[i], cost)
               then [Breach(limits[i].key, CostOf(live, limits[i].key), cost, limits[i].maxCost)]
               else []
  {
    assert limits[..i + 1][..i] == limits[..i];
  }

  /** The book a list of seeds amounts to: their maximum where they repeat a key. */
  function Snapshot(seeds: seq<WindowUsage>): Book {
    if seeds == [] then map[]
    else
      var m := Snapshot(seeds[..|seeds| - 1]);
      var last := seeds[|seeds| - 1];
      m[last.key := if last.key in m then m[last.key].Max(last.usage) else last.usage]
  }

  lemma RaiseOneMore(live: Book, m: Book, k: CounterKey, u: QuotaUsage)
    ensures Raise(live, m[k := if k in m then m[k].Max(u) else u]) ==
            var r := Raise(live, m);
            r[k := if k in r then r[k].Max(u) else u]
  {
  }

  /** The hashes of one Redis. */
  class Store {
    var hashes: Book

    constructor ()
      ensures hashes == map[]
    {
      hashes := map[];
    }

    /** The reserve script: every read and check comes before any write. */
    method Reserve(limits: seq<Limit>, amount: QuotaUsage) returns (answer: Answer)
      requires Distinct(Keys(limits))
      modifies this
      ensures answer == AnswerTo(old(hashes), limits, amount)
      ensures hashes == AfterReserve(old(hashes), limits, amount)
    {
      var missing := [];
      for i := 0 to |limits|
        invariant hashes == old(hashes)
        invariant missing == MissingKeys(hashes, limits[..i])
      {
        OneMoreLimit(hashes, limits, i, amount.cost, true);
        if limits[i].key !in hashes {
          missing := missing + [limits[i].key];
        }
      }
      assert limits[..|limits|] == limits;
      if missing != [] {
        return Missing(missing);
      }

      for i := 0 to |limits|
        invariant hashes == old(hashes)
        invariant Crossed(hashes, limits[..i], amount.cost, true) == []
      {
        OneMoreLimit(hashes, limits, i, amount.cost, true);
        var spent := hashes[limits[i].key].cost;
        if limits[i].block && spent + amount.cost > limits[i].maxCost {
          CrossedPrefix(hashes, limits, i + 1, amount.cost, true);
          return Blocked(Breach(limits[i].key, spent, amount.cost, limits[i].maxCost));
        }
      }

      var soft := Increment(limits, amount);
      return Reserved(soft);
    }

    /** The write half of the reserve script, which also notes the soft caps passed. */
    method Increment(limits: seq<Limit>, amount: QuotaUsage) returns (soft: seq<Breach>)
      requires Distinct(Keys(limits))
      requires forall i | 0 <= i < |limits| :: limits[i].key in hashes
      modifies this
      ensures soft == Crossed(old(hashes), limits, amount.cost, false)
      ensures hashes == Bump(old(hashes), Keys(limits), amount)
    {
      soft := [];
      hide MissingKeys, Bump, Distinct;
      for i := 0 to |limits|
        invariant hashes == Bump(old(hashes), Keys(limits)[..i], amount)
        invariant soft == Crossed(old(hashes), limits[..i], amount.cost, false)
      {
        OneMoreLimit(old(hashes), limits, i, amount.cost, false);
        var k := limits[i].key;
        BumpNextLimit(old(hashes), limits, i, amount);
        var spent := hashes[k].cost;
        hashes := hashes[k := hashes[k].Add(amount)];
        if !limits[i].block && spent + amount.cost > limits[i].maxCost {
          soft := soft + [Breach(k, spent, amount.cost, limits[i].maxCost)];
        }
      }
      assert limits[..|limits|] == limits && Keys(limits)[..|limits|] == Keys(limits);
    }

    /** The seed script: each field becomes the larger of its value and the snapshot's. */
    method Seed(seeds: seq<WindowUsage>)
      modifies this
      ensures hashes == Raise(old(hashes), Snapshot(seeds))
    {
      for i := 0 to |seeds|
        invariant hashes == Raise(old(hashes), Snapshot(seeds[..i]))
      {
        assert seeds[..i + 1][..i] == seeds[..i];
        var k, u := seeds[i].key, seeds[i].usage;
        RaiseOneMore(old(hashes), Snapshot(seeds[..i]), k, u);
        hashes := hashes[k := if k in hashes then hashes[k].Max(u) else u];
      }
      assert seeds[..|seeds|] == seeds;
    }

    /** The adjust script: a counter that has gone is not recreated. */
    method Adjust(keys: seq<CounterKey>, delta: QuotaUsage)
      requires Distinct(keys)
      modifies this
      ensures hashes == Bump(old(hashes), keys, delta)
    {
      for i := 0 to |keys|
        invariant hashes == Bump(old(hashes), keys[..i], delta)
      {
        DistinctAt(keys, i);
        assert keys[..i + 1] == keys[..i] + [keys[i]];
        BumpOneMore(old(hashes), keys[..i], keys[i], delta);
        if keys[i] in hashes {
          hashes := hashes[keys[i] := hashes[keys[i]].Add(delta)];
        }
      }
      assert keys[..|keys|] == keys;
    }
  }

  /** Breaches found in a prefix come first. */
  lemma {:induction false} CrossedPrefix(live: Book, limits: seq<Limit>, n: nat, cost: int, block: bool)
    requires n <= |limits|
    ensures Crossed(live, limits[..n], cost, block) <= Crossed(live, limits, cost, block)
  {
    if n == |limits| {
      assert limits[..n] == limits;
    } else {
      var front := limits[..|limits| - 1];
      assert front[..n] == limits[..n];
      CrossedPrefix(live, front, n, cost, block);
    }
  }
}
