/** The reserve script's reply as it goes over the wire, and its decoding. Window indices
    count from one. */
module ReserveReply {
  import opened Basics
  import opened Amounts
  import opened LiveCounters

  datatype Value = Text(s: string) | Integer(n: int) | Other

  // ---------------------------------------------------------------- written by the script

  function MissingIndices(live: Book, limits: seq<Limit>): seq<Value> {
    if limits == [] then []
    else
      var n := |limits| - 1;
      MissingIndices(live, limits[..n]) + if limits[n].key in live then [] else [Integer(n + 1)]
  }

  function BreachFields(live: Book, limits: seq<Limit>, cost: int, block: bool): seq<Value> {
    if limits == [] then []
    else
      var n := |limits| - 1;
      BreachFields(live, limits[..n], cost, block) +
      if limits[n].block == block && Crosses(live, limits[n], cost)
      then [Integer(n + 1), Integer(CostOf(live, limits[n].key)), Integer(limits[n].maxCost)]
      else []
  }

  function ReplyTo(live: Book, limits: seq<Limit>, amount: QuotaUsage): seq<Value> {
    var missing := MissingIndices(live, limits);
    var blocked := BreachFields(live, limits, amount.cost, true);
    if missing != [] then [Text("missing")] + missing
    else if |blocked| >= 3 then [Text("blocked")] + blocked[..3]
    else [Text("ok")] + BreachFields(live, limits, amount.cost, false)
  }

  // ---------------------------------------------------------------- read by the caller

  function WindowOf(v: Value, limits: seq<Limit>): Option<CounterKey> {
    if v.Integer? && 1 <= v.n <= |limits| then Some(limits[v.n - 1].key) else None
  }

  function Windows(vals: seq<Value>, limits: seq<Limit>): Option<seq<CounterKey>> {
    if vals == [] then Some([])
    else
      var n := |vals| - 1;
      var front, w := Windows(vals[..n], limits), WindowOf(vals[n], limits);
      if front.None? || w.None? then None else Some(front.value + [w.value])
  }

  function Amount(v: Value): int {
    if v.Integer? then v.n else 0
  }

  function BreachesIn(vals: seq<Value>, limits: seq<Limit>, cost: int): Option<seq<Breach>> {
    if vals == [] then Some([])
    else if |vals| < 3 then None
    else
      var n := |vals| - 3;
      var front, w := BreachesIn(vals[..n], limits, cost), WindowOf(vals[n], limits);
      if front.None? || w.None? then None
      else Some(front.value + [Breach(w.value, Amount(vals[n + 1]), cost, Amount(vals[n + 2]))])
  }

  /** The answer a reply stands for, if it is one the script could have written. */
  function Parse(reply: seq<Value>, limits: seq<Limit>, cost: int): Option<Answer> {
    if reply == [] then None
    else
      var windows, breaches := Windows(reply[1..], limits), BreachesIn(reply[1..], limits, cost);
      if reply[0] == Text("missing") then
        if windows.Some? then Some(Missing(windows.value)) else None
      else if reply[0] == Text("blocked") then
        if breaches.Some? && |breaches.value| == 1 then Some(Blocked(breaches.value[0])) else None
      else if reply[0] == Text("ok") then
        if breaches.Some? then Some(Reserved(breaches.value)) else None
      else None
  }

  lemma {:induction false} ThreesOnly(vals: seq<Value>, limits: seq<Limit>, cost: int)
    requires |vals| % 3 != 0
    ensures BreachesIn(vals, limits, cost).None?
  {
    if |vals| >= 3 {
      ThreesOnly(vals[..|vals| - 3], limits, cost);
    }
  }

  lemma {:induction false} BadWindowSpoils(vals: seq<Value>, i: nat, limits: seq<Limit>)
    requires i < |vals| && WindowOf(vals[i], limits).None?
    ensures Windows(vals, limits).None?
  {
    if i < |vals| - 1 {
      BadWindowSpoils(vals[..|vals| - 1], i, limits);
    }
  }

  lemma {:induction false} BadBreachSpoils(vals: seq<Value>, i: nat, limits: seq<Limit>, cost: int)
    requires |vals| % 3 == 0 && i < |vals| && i % 3 == 0 && WindowOf(vals[i], limits).None?
    ensures BreachesIn(vals, limits, cost).None?
  {
    if i < |vals| - 3 {
      BadBreachSpoils(vals[..|vals| - 3], i, limits, cost);
    }
  }

  method ParseWindows(vals: seq<Value>, limits: seq<Limit>) returns (r: Option<seq<CounterKey>>)
    ensures r == Windows(vals, limits)
  {
    var out: seq<CounterKey> := [];
    for i := 0 to |vals|
      invariant Windows(vals[..i], limits) == Some(out)
    {
      var w := WindowOf(vals[i], limits);
      if w.None? {
        BadWindowSpoils(vals, i, limits);
        return None;
      }
      assert vals[..i + 1][..i] == vals[..i];
      out := out + [w.value];
    }
    assert vals[..|vals|] == vals;
    return Some(out);
  }

  method ParseBreaches(vals: seq<Value>, limits: seq<Limit>, cost: int) returns (r: Option<seq<Breach>>)
    ensures r == BreachesIn(vals, limits, cost)
  {
    if |vals| % 3 != 0 {
      ThreesOnly(vals, limits, cost);
      return None;
    }
    var out: seq<Breach> := [];
    var i := 0;
    while i < |vals|
      invariant 0 <= i <= |vals| && i % 3 == 0
      invariant BreachesIn(vals[..i], limits, cost) == Some(out)
    {
      var w := WindowOf(vals[i], limits);
      if w.None? {
        BadBreachSpoils(vals, i, limits, cost);
        return None;
      }
      assert vals[..i + 3][..i] == vals[..i];
      out := out + [Breach(w.value, Amount(vals[i + 1]), cost, Amount(vals[i + 2]))];
      i := i + 3;
    }
    assert vals[..|vals|] == vals;
    return Some(out);
  }

  /** Windows are read by their position, counted from one; one that is no position spoils all. */
  lemma {:induction false} WindowsAre(vals: seq<Value>, limits: seq<Limit>)
    ensures Windows(vals, limits).Some? <==>
            forall i :: 0 <= i < |vals| ==> vals[i].Integer? && 1 <= vals[i].n <= |limits|
    ensures Windows(vals, limits).Some? ==>
        && |Windows(vals, limits).value| == |vals|
        && forall i :: 0 <= i < |vals| ==> Windows(vals, limits).value[i] == limits[vals[i].n - 1].key
  {
    if vals != [] {
      WindowsAre(vals[..|vals| - 1], limits);
    }
  }

  /** Breaches are read three values at a time: a position, what was spent, and the cap. */
  lemma {:induction false} BreachesAre(vals: seq<Value>, limits: seq<Limit>, cost: int)
    ensures BreachesIn(vals, limits, cost).Some? <==>
            && |vals| % 3 == 0
            && forall i :: 0 <= i < |vals| / 3 ==> vals[3 * i].Integer? && 1 <= vals[3 * i].n <= |limits|
    ensures BreachesIn(vals, limits, cost).Some? ==>
        var out := BreachesIn(vals, limits, cost).value;
        && |out| == |vals| / 3
        && forall i :: 0 <= i < |out| ==>
             && out[i].key == limits[vals[3 * i].n - 1].key && out[i].requested == cost
             && out[i].used == (if vals[3 * i + 1].Integer? then vals[3 * i + 1].n else 0)
             && out[i].limit == if vals[3 * i + 2].Integer? then vals[3 * i + 2].n else 0
  {
    if |vals| >= 3 {
      var n := |vals| - 3;
      BreachesAre(vals[..n], limits, cost);
      assert |vals| / 3 == n / 3 + 1 && (n % 3 == 0 ==> vals[n] == vals[3 * (n / 3)]);
      assert forall i :: 0 <= i < n / 3 ==> vals[3 * i] == vals[..n][3 * i];
    }
  }

  /** Read as the answer it stands for, or refused: iff its status is none of the three, an
      index is no window's, or its breaches are not whole. */
  method ParseReserve(reply: seq<Value>, limits: seq<Limit>, cost: int) returns (r: Option<Answer>)
    ensures r == Parse(reply, limits, cost)
    ensures r.Some? <==>
        && reply != []
        && if reply[0] == Text("missing") then
             forall i :: 0 < i < |reply| ==> reply[i].Integer? && 1 <= reply[i].n <= |limits|
           else
             && (reply[0] == Text("ok") || (reply[0] == Text("blocked") && |reply| == 4)) && |reply| % 3 == 1
             && forall i :: 0 <= i < |reply| / 3 ==>
                  reply[3 * i + 1].Integer? && 1 <= reply[3 * i + 1].n <= |limits|
  {
    if reply != [] {
      var rest := reply[1..];
      WindowsAre(rest, limits);
      BreachesAre(rest, limits, cost);
      assert forall i :: 0 < i < |reply| ==> reply[i] == rest[i - 1];
      assert forall i :: 0 <= i < |rest| / 3 ==> rest[3 * i] == reply[3 * i + 1];
    }
    if reply == [] {
      return None;
    }
    if reply[0] == Text("missing") {
      var windows := ParseWindows(reply[1..], limits);
      return if windows.Some? then Some(Missing(windows.value)) else None;
    } else if reply[0] == Text("blocked") {
      var breaches := ParseBreaches(reply[1..], limits, cost);
      return if breaches.Some? && |breaches.value| == 1 then Some(Blocked(breaches.value[0])) else None;
    } else if reply[0] == Text("ok") {
      var breaches := ParseBreaches(reply[1..], limits, cost);
      return if breaches.Some? then Some(Reserved(breaches.value)) else None;
    }
    return None;
  }

  // ---------------------------------------------------------------- there and back

  lemma {:induction false} WindowsAppend(front: seq<Value>, v: Value, limits: seq<Limit>)
    requires Windows(front, limits).Some? && WindowOf(v, limits).Some?
    ensures Windows(front + [v], limits) == Some(Windows(front, limits).value + [WindowOf(v, limits).value])
  {
    assert (front + [v])[..|front|] == front;
  }

  lemma {:induction false} BreachesAppend(
      front: seq<Value>, v: Value, used: int, limit: int, limits: seq<Limit>, cost: int)
    requires BreachesIn(front, limits, cost).Some? && WindowOf(v, limits).Some?
    ensures BreachesIn(front + [v, Integer(used), Integer(limit)], limits, cost)
            == Some(BreachesIn(front, limits, cost).value + [Breach(WindowOf(v, limits).value, used, cost, limit)])
  {
    assert (front + [v, Integer(used), Integer(limit)])[..|front|] == front;
  }

  lemma {:induction false} OneMoreIndex(live: Book, limits: seq<Limit>, i: nat)
    requires i < |limits|
    ensures MissingIndices(live, limits[..i + 1])
            == MissingIndices(live, limits[..i]) + if limits[i].key in live then [] else [Integer(i + 1)]
  {
    assert limits[..i + 1][..i] == limits[..i];
  }

  lemma {:induction false} MissingParses(live: Book, limits: seq<Limit>, n: nat)
    requires n <= |limits|
    ensures Windows(MissingIndices(live, limits[..n]), limits) == Some(MissingKeys(live, limits[..n]))
  {
    if n == 0 {
      NoneParses(live, limits);
    } else {
      hide MissingIndices, MissingKeys, Windows;
      MissingParses(live, limits, n - 1);
      OneMoreLimit(live, limits, n - 1, 0, true);
      OneMoreIndex(live, limits, n - 1);
      var front := MissingIndices(live, limits[..n - 1]);
      if limits[n - 1].key in live {
        assert MissingIndices(live, limits[..n]) == front;
        assert MissingKeys(live, limits[..n]) == MissingKeys(live, limits[..n - 1]);
      } else {
        WindowsAppend(front, Integer(n), limits);
      }
    }
  }

  lemma NoneParses(live: Book, limits: seq<Limit>)
    ensures Windows(MissingIndices(live, limits[..0]), limits) == Some(MissingKeys(live, limits[..0]))
  {
  }

  /** The script's fields and the breaches they stand for grow together. */
  lemma {:induction false} OneMoreBreach(live: Book, limits: seq<Limit>, i: nat, cost: int, block: bool)
    requires i < |limits|
    ensures var l, front, more := limits[i], limits[..i], limits[..i + 1];
            if l.block == block && Crosses(live, l, cost) then
              && BreachFields(live, more, cost, block)
                 == BreachFields(live, front, cost, block)
                    + [Integer(i + 1), Integer(CostOf(live, l.key)), Integer(l.maxCost)]
              && Crossed(live, more, cost, block)
                 == Crossed(live, front, cost, block) + [Breach(l.key, CostOf(live, l.key), cost, l.maxCost)]
            else
              && BreachFields(live, more, cost, block) == BreachFields(live, front, cost, block)
              && Crossed(live, more, cost, block) == Crossed(live, front, cost, block)
  {
    assert limits[..i + 1][..i] == limits[..i];
  }

  /** The breaches that the first n limits give come out as they went in. */
  ghost predicate ParsesUpTo(live: Book, limits: seq<Limit>, n: nat, cost: int, block: bool) {
    && n <= |limits|
    && BreachesIn(BreachFields(live, limits[..n], cost, block), limits, cost)
       == Some(Crossed(live, limits[..n], cost, block))
  }

  lemma {:induction false} NextParses(live: Book, limits: seq<Limit>, n: nat, cost: int, block: bool)
    requires n < |limits| && ParsesUpTo(live, limits, n, cost, block)
    ensures ParsesUpTo(live, limits, n + 1, cost, block)
  {
    hide BreachFields, Crossed, BreachesIn;
    OneMoreBreach(live, limits, n, cost, block);
    var l, front := limits[n], BreachFields(live, limits[..n], cost, block);
    if l.block == block && Crosses(live, l, cost) {
      BreachesAppend(front, Integer(n + 1), CostOf(live, l.key), l.maxCost, limits, cost);
    }
  }

  lemma {:induction false} BreachesParse(live: Book, limits: seq<Limit>, n: nat, cost: int, block: bool)
    requires n <= |limits|
    ensures ParsesUpTo(live, limits, n, cost, block)
  {
    if n == 0 {
      NothingParses(live, limits, cost, block);
    } else {
      hide ParsesUpTo;
      BreachesParse(live, limits, n - 1, cost, block);
      NextParses(live, limits, n - 1, cost, block);
    }
  }

  lemma {:induction false} NothingParses(live: Book, limits: seq<Limit>, cost: int, block: bool)
    ensures BreachesIn(BreachFields(live, limits[..0], cost, block), limits, cost)
            == Some(Crossed(live, limits[..0], cost, block))
  {
  }

  /** The first breach is the first three fields. */
  lemma {:induction false} FirstThree(vals: seq<Value>, limits: seq<Limit>, cost: int)
    requires vals != [] && BreachesIn(vals, limits, cost).Some?
    ensures |vals| >= 3 && BreachesIn(vals, limits, cost).value != []
    ensures BreachesIn(vals[..3], limits, cost) == Some([BreachesIn(vals, limits, cost).value[0]])
    decreases |vals|
  {
    var n := |vals| - 3;
    if n > 0 {
      FirstThree(vals[..n], limits, cost);
      assert vals[..n][..3] == vals[..3];
    } else {
      assert vals[..3] == vals && vals[..n] == [];
      var all := BreachesIn(vals, limits, cost).value;
      assert |all| == 1 && all == [all[0]];
    }
  }

  /** The indices written are the positions, counted from one, of the windows that lack a
      counter. */
  lemma {:induction false} IndicesAre(live: Book, limits: seq<Limit>, n: int)
    ensures Integer(n) in MissingIndices(live, limits) <==> 1 <= n <= |limits| && limits[n - 1].key !in live
    ensures forall v :: v in MissingIndices(live, limits) ==> v.Integer?
  {
    if limits != [] {
      IndicesAre(live, limits[..|limits| - 1], n);
    }
  }

  /** Three fields at i give a limit of the sort asked for that would be passed, by its
      position, what is spent and its cap. */
  ghost predicate GivesBreach(
      vals: seq<Value>, i: nat, live: Book, limits: seq<Limit>, cost: int, block: bool)
  {
    && i + 3 <= |vals| && vals[i].Integer? && 1 <= vals[i].n <= |limits|
    && var l := limits[vals[i].n - 1];
    && var spent := if l.key in live then live[l.key].cost else 0;
    && l.block == block && spent + cost > l.maxCost
    && vals[i + 1] == Integer(spent) && vals[i + 2] == Integer(l.maxCost)
  }

  lemma {:induction false} FieldsAre(live: Book, limits: seq<Limit>, cost: int, block: bool)
    ensures var vals := BreachFields(live, limits, cost, block);
            && |vals| % 3 == 0
            && forall i: nat :: i < |vals| && i % 3 == 0 ==> GivesBreach(vals, i, live, limits, cost, block)
  {
    if limits != [] {
      var n := |limits| - 1;
      FieldsAre(live, limits[..n], cost, block);
      var front, vals := BreachFields(live, limits[..n], cost, block), BreachFields(live, limits, cost, block);
      forall i: nat | i < |vals| && i % 3 == 0 ensures GivesBreach(vals, i, live, limits, cost, block) {
        if i < |front| {
          assert GivesBreach(front, i, live, limits[..n], cost, block);
        }
      }
    }
  }

  /** What goes over the wire: the windows that lack a counter if there are any, or else a
      blocking limit that would be passed, or else the soft ones that are. */
  lemma {:induction false} ReplyIs(live: Book, limits: seq<Limit>, amount: QuotaUsage, n: int)
    ensures var reply := ReplyTo(live, limits, amount);
            if reply[0] == Text("missing") then
              && |reply| > 1
              && (Integer(n) in reply[1..] <==> 1 <= n <= |limits| && limits[n - 1].key !in live)
            else
              && (1 <= n <= |limits| ==> limits[n - 1].key in live)
              && if reply[0] == Text("blocked") then
                   |reply| == 4 && GivesBreach(reply[1..], 0, live, limits, amount.cost, true)
                 else
                   && reply[0] == Text("ok") && |reply| % 3 == 1
                   && forall i: nat :: i < |reply| - 1 && i % 3 == 0 ==>
                        GivesBreach(reply[1..], i, live, limits, amount.cost, false)
  {
    IndicesAre(live, limits, n);
    FieldsAre(live, limits, amount.cost, true);
    FieldsAre(live, limits, amount.cost, false);
    hide MissingIndices, BreachFields, GivesBreach;
    var missing, blocked := MissingIndices(live, limits), BreachFields(live, limits, amount.cost, true);
    var soft := BreachFields(live, limits, amount.cost, false);
    if missing != [] {
      assert ([Text("missing")] + missing)[1..] == missing;
    } else if |blocked| >= 3 {
      FirstBreachIs(blocked, live, limits, amount.cost);
      assert ([Text("blocked")] + blocked[..3])[1..] == blocked[..3];
    } else {
      assert ([Text("ok")] + soft)[1..] == soft;
    }
  }

  lemma FirstBreachIs(vals: seq<Value>, live: Book, limits: seq<Limit>, cost: int)
    requires |vals| >= 3 && GivesBreach(vals, 0, live, limits, cost, true)
    ensures GivesBreach(vals[..3], 0, live, limits, cost, true)
  {
  }

  /** What the script answers is what its caller reads. */
  lemma {:induction false} ReplyParses(live: Book, limits: seq<Limit>, amount: QuotaUsage)
    ensures Parse(ReplyTo(live, limits, amount), limits, amount.cost) == Some(AnswerTo(live, limits, amount))
  {
    var n := |limits|;
    assert limits[..n] == limits;
    MissingParses(live, limits, n);
    BreachesParse(live, limits, n, amount.cost, true);
    BreachesParse(live, limits, n, amount.cost, false);
    var missing := MissingIndices(live, limits);
    var blocked := BreachFields(live, limits, amount.cost, true);
    var soft := BreachFields(live, limits, amount.cost, false);
    assert ([Text("missing")] + missing)[1..] == missing && ([Text("ok")] + soft)[1..] == soft;
    if blocked != [] {
      FirstThree(blocked, limits, amount.cost);
      assert ([Text("blocked")] + blocked[..3])[1..] == blocked[..3];
    }
    SomeWindows(missing, limits);
  }

  lemma SomeWindows(vals: seq<Value>, limits: seq<Limit>)
    requires Windows(vals, limits).Some?
    ensures vals == [] <==> Windows(vals, limits).value == []
  {
  }
}
