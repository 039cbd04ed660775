/** Prices, costs and estimates: what a request is reserved at and what it turns out to cost. */
module Pricing {
  import opened Basics
  import opened Metering

  const MILLION: int := 1_000_000

  /** Integer division that rounds toward zero. */
  function Quotient(a: int, b: int): int
    requires b > 0
  {
    if a >= 0 then a / b else -(-a / b)
  }

  /** The price of n tokens, in nanodollars, at a rate per million. */
  function Price(rate: int, n: int): int {
    Quotient(rate * n, MILLION)
  }

  datatype Rates = Rates(input: int, output: int, cacheRead: int, cacheWrite: int) {
    function Cost(u: TokenUsage): int {
      Price(input, u.input) + Price(output, u.output) + Price(cacheRead, u.cacheRead) + Price(cacheWrite, u.cacheWrite)
    }

    predicate NonNegative() {
      input >= 0 && output >= 0 && cacheRead >= 0 && cacheWrite >= 0
    }

    /** What a price table is checked for when it is loaded. */
    predicate Passes() {
      NonNegative() && !(cacheRead > input && input > 0)
    }
  }

  // ---------------------------------------------------------------- flooring

  lemma PriceIsFloor(rate: int, n: int)
    requires rate >= 0 && n >= 0
    ensures Price(rate, n) * MILLION <= rate * n < Price(rate, n) * MILLION + MILLION
  {
    assert rate * n >= 0;
  }

  lemma FloorsGrow(x: int, a: int, y: int, b: int)
    requires a * MILLION <= x && y < b * MILLION + MILLION && x <= y
    ensures a <= b
  {
  }

  lemma PriceGrows(rate: int, higher: int, n: int, more: int)
    requires 0 <= rate <= higher && 0 <= n <= more
    ensures 0 <= Price(rate, n) <= Price(higher, more)
  {
    PriceIsFloor(rate, n);
    PriceIsFloor(higher, more);
    ProductGrows(rate, higher, n, more);
    FloorsGrow(rate * n, Price(rate, n), higher * more, Price(higher, more));
  }

  lemma ProductGrows(a: int, b: int, n: int, m: int)
    requires 0 <= a <= b && 0 <= n <= m
    ensures 0 <= a * n <= b * m
  {
    assert a * n <= b * n;
    assert b * n <= b * m;
  }

  /** Flooring the parts never comes to more than flooring the whole. */
  lemma PartsCostNoMore(rate: int, a: int, b: int)
    requires rate >= 0 && a >= 0 && b >= 0
    ensures Price(rate, a) + Price(rate, b) <= Price(rate, a + b)
  {
    PriceIsFloor(rate, a);
    PriceIsFloor(rate, b);
    PriceIsFloor(rate, a + b);
    assert rate * (a + b) == rate * a + rate * b;
    FloorsGrow(rate * a + rate * b, Price(rate, a) + Price(rate, b), rate * (a + b), Price(rate, a + b));
  }

  /** What usage costs, by what it is made of: every kind is charged at its own rate per
      million tokens, rounded down on its own, and reasoning is not charged again. */
  lemma CostIsItsParts(r: Rates, u: TokenUsage)
    ensures r.Cost(u) == r.Cost(TokenUsage(u.input, 0, 0, 0, 0)) + r.Cost(TokenUsage(0, u.output, 0, 0, 0))
                         + r.Cost(TokenUsage(0, 0, u.cacheWrite, 0, 0)) + r.Cost(TokenUsage(0, 0, 0, u.cacheRead, 0))
  {
    NothingIsFree(r);
  }

  lemma NothingIsFree(r: Rates)
    ensures Price(r.input, 0) == Price(r.output, 0) == Price(r.cacheRead, 0) == Price(r.cacheWrite, 0) == 0
  {
  }

  lemma OneKindCosts(r: Rates, n: nat)
    requires r.NonNegative()
    ensures 1_000_000 * r.Cost(TokenUsage(n, 0, 0, 0, 0)) <= r.input * n
            < 1_000_000 * r.Cost(TokenUsage(n, 0, 0, 0, 0)) + 1_000_000
    ensures 1_000_000 * r.Cost(TokenUsage(0, n, 0, 0, 0)) <= r.output * n
            < 1_000_000 * r.Cost(TokenUsage(0, n, 0, 0, 0)) + 1_000_000
    ensures 1_000_000 * r.Cost(TokenUsage(0, 0, n, 0, 0)) <= r.cacheWrite * n
            < 1_000_000 * r.Cost(TokenUsage(0, 0, n, 0, 0)) + 1_000_000
    ensures 1_000_000 * r.Cost(TokenUsage(0, 0, 0, n, 0)) <= r.cacheRead * n
            < 1_000_000 * r.Cost(TokenUsage(0, 0, 0, n, 0)) + 1_000_000
  {
    NothingIsFree(r);
    PriceIsFloor(r.input, n);
    PriceIsFloor(r.output, n);
    PriceIsFloor(r.cacheWrite, n);
    PriceIsFloor(r.cacheRead, n);
    hide Price;
  }

  /** All in all usage costs at most its exact price, and short of it by less than four
      nanodollars. */
  lemma CostIsNearlyExact(r: Rates, u: TokenUsage)
    requires r.NonNegative() && u.NonNegative()
    ensures 1_000_000 * r.Cost(u)
            <= r.input * u.input + r.output * u.output + r.cacheRead * u.cacheRead + r.cacheWrite * u.cacheWrite
            < 1_000_000 * r.Cost(u) + 4_000_000
  {
    PriceIsFloor(r.input, u.input);
    PriceIsFloor(r.output, u.output);
    PriceIsFloor(r.cacheRead, u.cacheRead);
    PriceIsFloor(r.cacheWrite, u.cacheWrite);
    hide Price;
  }

  /** Negative amounts are rounded toward zero as positive ones are. */
  lemma NegativesMirror(rate: int, n: int)
    ensures Price(-rate, n) == -Price(rate, n) == Price(rate, -n)
  {
    assert -rate * n == -(rate * n) == rate * -n;
  }

  /** Rates are refused exactly if one is negative, or paid input is dearer from the cache. */
  lemma RefusedRates(r: Rates)
    ensures !r.Passes() <==>
            || r.input < 0 || r.output < 0 || r.cacheRead < 0 || r.cacheWrite < 0
            || r.cacheRead > r.input > 0
  {
  }

  // ---------------------------------------------------------------- estimates

  datatype PromptSize = PromptSize(textBytes: nat, messages: nat, mediaParts: nat)

  /** The worst case a request is reserved at: four bytes a token, rounded up, four tokens
      a message, a thousand a media part, and all the output it may ask for. */
  function Estimate(p: PromptSize, maxOutput: int, choices: int, defaultMaxOutput: nat): (u: TokenUsage)
    ensures u.NonNegative() && u.cacheRead == u.cacheWrite == u.reasoning == 0
    ensures p.textBytes <= 4 * (u.input - 4 * p.messages - 1000 * p.mediaParts) < p.textBytes + 4
    ensures maxOutput > 0 && choices >= 1 ==> u.output == maxOutput * choices
    ensures maxOutput > 0 && choices < 1 ==> u.output == maxOutput
    ensures maxOutput <= 0 && choices >= 1 ==> u.output == defaultMaxOutput * choices
    ensures maxOutput <= 0 && choices < 1 ==> u.output == defaultMaxOutput
  {
    var input := (p.textBytes + 3) / 4 + p.messages * 4 + p.mediaParts * 1000;
    var output: nat := if maxOutput <= 0 then defaultMaxOutput else maxOutput;
    var times: nat := if choices < 1 then 1 else choices;
    assert output * times >= 0;
    TokenUsage(input, output * times, 0, 0, 0)
  }

  /** What a provider's report comes to: cached input is kept apart from fresh. */
  function Report(prompt: int, completion: int, cached: int, reasoning: int): (u: TokenUsage)
    ensures u.input >= 0 && u.input + u.cacheRead == if cached > prompt then cached else prompt
    ensures u.input + u.output + u.cacheRead + u.cacheWrite
            == completion + if cached > prompt then cached else prompt
    ensures u.cacheRead == cached && u.reasoning == reasoning && u.cacheWrite == 0
  {
    var input := prompt - cached;
    TokenUsage(if input < 0 then 0 else input, completion, 0, cached, reasoning)
  }

  /** Usage an estimate allows for. */
  predicate Within(u: TokenUsage, e: TokenUsage) {
    u.NonNegative() && u.cacheWrite == 0 && u.input + u.cacheRead <= e.input && u.output <= e.output
  }

  /** At these rates no usage within the estimate can cost more than the estimate does. */
  ghost predicate Dominates(r: Rates, e: TokenUsage) {
    forall u: TokenUsage | Within(u, e) :: r.Cost(u) <= r.Cost(e)
  }

  lemma InputDominates(r: Rates, u: TokenUsage, e: TokenUsage)
    requires r.NonNegative() && Within(u, e) && Price(r.cacheRead, e.input) <= Price(r.input, e.input)
    ensures Price(r.input, u.input) + Price(r.cacheRead, u.cacheRead) <= Price(r.input, e.input)
  {
    var dearer := if r.cacheRead <= r.input then r.input else r.cacheRead;
    PriceGrows(r.input, dearer, u.input, u.input);
    PriceGrows(r.cacheRead, dearer, u.cacheRead, u.cacheRead);
    PartsCostNoMore(dearer, u.input, u.cacheRead);
    PriceGrows(dearer, dearer, u.input + u.cacheRead, e.input);
  }

  /** Exactly when the reservation dominates: the whole input read from the cache costs no
      more than the whole input sent fresh. */
  lemma DominatesIff(r: Rates, e: TokenUsage)
    requires r.NonNegative() && e.NonNegative() && e.cacheRead == e.cacheWrite == 0
    ensures Dominates(r, e) <==> Price(r.cacheRead, e.input) <= Price(r.input, e.input)
  {
    assert Price(r.cacheRead, 0) == 0 == Price(r.cacheWrite, 0) && Price(r.input, 0) == 0;
    if Dominates(r, e) {
      var cached := TokenUsage(0, e.output, 0, e.input, 0);
      assert Within(cached, e);
    } else {
      var u: TokenUsage :| Within(u, e) && r.Cost(u) > r.Cost(e);
      PriceGrows(r.output, r.output, u.output, e.output);
      if Price(r.cacheRead, e.input) <= Price(r.input, e.input) {
        InputDominates(r, u, e);
        assert false;
      }
    }
  }

  /** A table that passes its check dominates unless input is free and cache reads are not. */
  lemma CheckedRatesDominate(r: Rates, e: TokenUsage)
    requires r.Passes() && e.NonNegative() && e.cacheRead == e.cacheWrite == 0
    requires r.input > 0 || r.cacheRead == 0
    ensures Dominates(r, e)
  {
    PriceGrows(r.cacheRead, r.input, e.input, e.input);
    DominatesIff(r, e);
  }

  /** Free input with paid cache reads passes the check, and a cached prompt then costs more
      than was reserved for it. */
  lemma FreeInputDoesNot()
    ensures var r, e := Rates(0, 0, MILLION, 0), TokenUsage(10, 0, 0, 0, 0);
            r.Passes() && Within(TokenUsage(0, 0, 0, 10, 0), e) && r.Cost(TokenUsage(0, 0, 0, 10, 0)) > r.Cost(e)
  {
  }

  // ---------------------------------------------------------------- the table

  /** Prices in force from a date on. */
  datatype Block = Block(from: int, rates: map<string, Rates>)

  ghost predicate Sorted(blocks: seq<Block>) {
    forall i, j :: 0 <= i < j < |blocks| ==> blocks[i].from <= blocks[j].from
  }

  /** The last block to have come into force, if any has. */
  function InForce(blocks: seq<Block>, at: int): (i: Option<nat>)
    ensures i.Some? ==> i.value < |blocks| && blocks[i.value].from <= at
    ensures i.Some? ==> forall j :: i.value < j < |blocks| ==> blocks[j].from > at
    ensures i.None? ==> forall j :: 0 <= j < |blocks| ==> blocks[j].from > at
  {
    if blocks == [] then None
    else if blocks[|blocks| - 1].from <= at then Some(|blocks| - 1)
    else InForce(blocks[..|blocks| - 1], at)
  }

  function RateOf(blocks: seq<Block>, at: int, target: string): Option<Rates> {
    match InForce(blocks, at)
    case None => None
    case Some(i) => if target in blocks[i].rates then Some(blocks[i].rates[target]) else None
  }

  method InsertByDate(sorted: seq<Block>, b: Block) returns (r: seq<Block>)
    requires Sorted(sorted)
    ensures Sorted(r) && multiset(r) == multiset(sorted) + multiset{b}
  {
    hide Sorted;
    var n := |sorted|;
    while n > 0 && b.from < sorted[n - 1].from
      invariant 0 <= n <= |sorted|
      invariant n < |sorted| ==> b.from < sorted[n].from
    {
      n := n - 1;
    }
    InsertedIsSorted(sorted, b, n);
    assert sorted == sorted[..n] + sorted[n..];
    r := sorted[..n] + [b] + sorted[n..];
  }

  lemma InsertedIsSorted(sorted: seq<Block>, b: Block, n: nat)
    requires Sorted(sorted) && n <= |sorted|
    requires n > 0 ==> sorted[n - 1].from <= b.from
    requires n < |sorted| ==> b.from < sorted[n].from
    ensures Sorted(sorted[..n] + [b] + sorted[n..])
  {
    var r := sorted[..n] + [b] + sorted[n..];
    forall i, j | 0 <= i < j < |r| ensures r[i].from <= r[j].from {
      assert i < n ==> r[i] == sorted[i];
      assert j < n ==> r[j] == sorted[j];
      assert i > n ==> r[i] == sorted[i - 1];
      assert j > n ==> r[j] == sorted[j - 1];
    }
  }

  class Table {
    var blocks: seq<Block>

    /** Keeps the configured blocks by date. */
    constructor (cfg: seq<Block>)
      ensures Sorted(blocks) && multiset(blocks) == multiset(cfg)
    {
      var sorted: seq<Block> := [];
      for i := 0 to |cfg|
        invariant Sorted(sorted) && multiset(sorted) == multiset(cfg[..i])
      {
        assert cfg[..i + 1] == cfg[..i] + [cfg[i]];
        sorted := InsertByDate(sorted, cfg[i]);
      }
      assert cfg[..|cfg|] == cfg;
      blocks := sorted;
    }

    method RatesAt(at: int, target: string) returns (r: Option<Rates>)
      ensures r == RateOf(blocks, at, target)
    {
      var i := |blocks|;
      while i > 0
        invariant 0 <= i <= |blocks|
        invariant InForce(blocks, at) == InForce(blocks[..i], at)
      {
        i := i - 1;
        assert blocks[..i + 1][..i] == blocks[..i];
        if blocks[i].from > at {
          continue;
        }
        if target !in blocks[i].rates {
          return None;
        }
        return Some(blocks[i].rates[target]);
      }
      return None;
    }
  }

  /** Whatever order the blocks were configured in, the one in force is the one with the
      latest date not after the time asked about. */
  lemma LatestIsInForce(cfg: seq<Block>, blocks: seq<Block>, at: int, k: nat, target: string)
    requires Sorted(blocks) && multiset(blocks) == multiset(cfg)
    requires k < |cfg| && cfg[k].from <= at
    requires forall j :: 0 <= j < |cfg| && j != k && cfg[j].from <= at ==> cfg[j].from < cfg[k].from
    ensures RateOf(blocks, at, target) == if target in cfg[k].rates then Some(cfg[k].rates[target]) else None
  {
    assert cfg[k] in multiset(blocks);
    var i :| 0 <= i < |blocks| && blocks[i] == cfg[k];
    var f := InForce(blocks, at).value;
    assert blocks[f] in multiset(cfg);
    var j :| 0 <= j < |cfg| && cfg[j] == blocks[f];
    assert f >= i;
  }

  // ---------------------------------------------------------------- the reservation's price

  datatype Dearest = Dearest(cost: int, priced: bool)

  /** The dearest of the targets that have a price. */
  function DearestOf(blocks: seq<Block>, at: int, targets: seq<string>, e: TokenUsage): (d: Dearest)
    ensures d.cost >= 0
    ensures d.priced <==> exists i :: 0 <= i < |targets| && RateOf(blocks, at, targets[i]).Some?
    ensures forall i :: 0 <= i < |targets| && RateOf(blocks, at, targets[i]).Some? ==>
        RateOf(blocks, at, targets[i]).value.Cost(e) <= d.cost
    ensures d.cost > 0 ==>
        exists i :: 0 <= i < |targets| && RateOf(blocks, at, targets[i]).Some?
                    && RateOf(blocks, at, targets[i]).value.Cost(e) == d.cost
  {
    if targets == [] then Dearest(0, false)
    else
      var n := |targets| - 1;
      var d := DearestOf(blocks, at, targets[..n], e);
      assert forall i :: 0 <= i < n ==> targets[..n][i] == targets[i];
      match RateOf(blocks, at, targets[n])
      case None => d
      case Some(r) => Dearest(if r.Cost(e) > d.cost then r.Cost(e) else d.cost, true)
  }

  method PriceEstimate(table: Table, at: int, targets: seq<string>, e: TokenUsage) returns (d: Dearest)
    ensures d == DearestOf(table.blocks, at, targets, e)
  {
    d := Dearest(0, false);
    for i := 0 to |targets|
      invariant d == DearestOf(table.blocks, at, targets[..i], e)
    {
      assert targets[..i + 1][..i] == targets[..i];
      var r := table.RatesAt(at, targets[i]);
      if r.None? {
        continue;
      }
      d := Dearest(if r.value.Cost(e) > d.cost then r.value.Cost(e) else d.cost, true);
    }
    assert targets[..|targets|] == targets;
  }

  /** What a served request cost: nothing if its target has no price. */
  function ServedCost(blocks: seq<Block>, at: int, target: string, u: TokenUsage): int {
    var r := RateOf(blocks, at, target);
    if r.Some? then r.value.Cost(u) else 0
  }

  /** Whichever target of the ladder served, usage within the estimate costs no more than
      was reserved. */
  lemma ReservationCoversCost(blocks: seq<Block>, at: int, targets: seq<string>, e: TokenUsage, i: nat, u: TokenUsage)
    requires i < |targets| && Within(u, e) && e.NonNegative() && e.cacheRead == e.cacheWrite == 0
    requires forall r :: RateOf(blocks, at, targets[i]) == Some(r) ==>
        r.NonNegative() && Price(r.cacheRead, e.input) <= Price(r.input, e.input)
    ensures ServedCost(blocks, at, targets[i], u) <= DearestOf(blocks, at, targets, e).cost
  {
    var found := RateOf(blocks, at, targets[i]);
    if found.Some? {
      DominatesIff(found.value, e);
    }
  }
}
