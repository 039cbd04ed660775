/** The stretch of time a quota counter covers, and which quotas apply at an instant.
    Times are nanoseconds since 1970-01-01 UTC. */
module ClockWindows {
  import opened Basics
  import opened Amounts
  import opened Calendar
  import opened LiveCounters

  const SECOND: int := 1_000_000_000
  const MINUTE: int := 60_000_000_000
  const HOUR: int := 3_600_000_000_000
  const DAY: int := 86_400_000_000_000

  /** From start up to, but not including, end. */
  datatype Window = Window(kind: WindowKind, start: int, end: int) {
    predicate Contains(at: int) {
      start <= at < end
    }
  }

  /** The calendar window of a kind that an instant falls in. */
  function ClockWindow(kind: WindowKind, at: int): Window
    requires kind != Period
  {
    match kind
    case Minute => var start := at - at % MINUTE; Window(kind, start, start + MINUTE)
    case Hour => var start := at - at % HOUR; Window(kind, start, start + HOUR)
    case Day =>
      var d := DateOf(at / DAY);
      Window(kind, DayNumber(d.year, d.month, d.day) * DAY, DayNumber(d.year, d.month, d.day + 1) * DAY)
    case Month =>
      var d := DateOf(at / DAY);
      Window(kind, DayNumber(d.year, d.month, 1) * DAY, DayNumber(d.year, d.month + 1, 1) * DAY)
  }

  lemma DivisionIs(t: int, q: int, d: int)
    requires d > 0 && q * d <= t < q * d + d
    ensures t / d == q && t - t % d == q * d
  {
    var x := t / d - q;
    assert t == t / d * d + t % d;
    assert x * d == t / d * d - q * d;
    SmallMultiple(x, d);
  }

  lemma SmallMultiple(x: int, d: int)
    requires d > 0 && -d < x * d < d
    ensures x == 0
  {
    assert x >= 1 ==> x * d >= 1 * d;
    assert x <= -1 ==> x * d <= -1 * d;
  }

  /** Which window of its kind, counted from the epoch, an instant falls in. */
  function Number(kind: WindowKind, at: int): int
    requires kind != Period
  {
    match kind
    case Minute => at / MINUTE
    case Hour => at / HOUR
    case Day => at / DAY
    case Month => MonthIndex(DateOf(at / DAY))
  }

  /** Where the numbered windows begin. */
  function Begins(kind: WindowKind, n: int): int
    requires kind != Period
  {
    match kind
    case Minute => n * MINUTE
    case Hour => n * HOUR
    case Day => n * DAY
    case Month => MonthStart(n) * DAY
  }

  lemma NumberedWindow(kind: WindowKind, at: int)
    requires kind != Period
    ensures ClockWindow(kind, at) == Window(kind, Begins(kind, Number(kind, at)), Begins(kind, Number(kind, at) + 1))
    ensures ClockWindow(kind, at).Contains(at)
  {
    hide DayNumber, MonthStart, MonthIndex;
    var d := DateOf(at / DAY);
    if kind == Month {
      MonthOfDate(at / DAY);
    } else if kind == Day {
      NextDay(d);
    }
  }

  lemma NextDay(d: Date)
    requires d.Valid()
    ensures DayNumber(d.year, d.month, d.day + 1) == DayNumber(d.year, d.month, d.day) + 1
  {
  }

  /** Minutes, hours and days are of 60, 3600 and 86400 seconds and start at whole multiples of
      them; a month runs from the first of the date's month to the first of the next. */
  lemma WindowsInSeconds(kind: WindowKind, at: int)
    requires kind != Period
    ensures ClockWindow(kind, at).kind == kind
    ensures var start, end := ClockWindow(kind, at).start, ClockWindow(kind, at).end;
            match kind
            case Minute => start % 60_000_000_000 == 0 && start <= at < end == start + 60_000_000_000
            case Hour => start % 3_600_000_000_000 == 0 && start <= at < end == start + 3_600_000_000_000
            case Day => start % 86_400_000_000_000 == 0 && start <= at < end == start + 86_400_000_000_000
            case Month =>
              var d := DateOf(at / 86_400_000_000_000);
              && start == DayNumber(d.year, d.month, 1) * 86_400_000_000_000
              && end == start + DaysIn(d.year, d.month) * 86_400_000_000_000
  {
    hide DayNumber, DaysIn, DateOf, ClockWindow;
    match kind
    case Minute =>
      MinuteOrHour(kind, at);
      StartsEven(at, 60_000_000_000);
    case Hour =>
      MinuteOrHour(kind, at);
      StartsEven(at, 3_600_000_000_000);
    case Day =>
      DayWindow(at);
      StartsEven(at, 86_400_000_000_000);
    case Month => MonthWindow(at);
  }

  lemma StartsEven(at: int, length: int)
    requires length > 0
    ensures (at - at % length) % length == 0 && at - at % length <= at < at - at % length + length
  {
    var q := at / length;
    assert at == q * length + at % length;
    DivisionIs(q * length, q, length);
  }

  lemma MinuteOrHour(kind: WindowKind, at: int)
    requires kind == Minute || kind == Hour
    ensures var length := if kind == Minute then 60_000_000_000 else 3_600_000_000_000;
            ClockWindow(kind, at) == Window(kind, at - at % length, at - at % length + length)
  {
  }

  lemma DayWindow(at: int)
    ensures var start := at - at % 86_400_000_000_000;
            ClockWindow(Day, at) == Window(Day, start, start + 86_400_000_000_000)
  {
    hide DayNumber;
    NextDay(DateOf(at / DAY));
  }

  lemma MonthWindow(at: int)
    ensures var d := DateOf(at / 86_400_000_000_000);
            var start := DayNumber(d.year, d.month, 1) * 86_400_000_000_000;
            ClockWindow(Month, at) == Window(Month, start, start + DaysIn(d.year, d.month) * 86_400_000_000_000)
  {
    hide DaysIn, YearStart;
  }

  lemma NumberIs(kind: WindowKind, at: int, n: int)
    requires kind != Period && Begins(kind, n) <= at < Begins(kind, n + 1)
    ensures Number(kind, at) == n
  {
    match kind
    case Minute => DivisionIs(at, n, MINUTE);
    case Hour => DivisionIs(at, n, HOUR);
    case Day => DivisionIs(at, n, DAY);
    case Month =>
      var days := at / DAY;
      assert MonthStart(n) <= days < MonthStart(n + 1);
      MonthIsUnique(days, n);
  }

  lemma WindowsGrow(kind: WindowKind, n: int)
    requires kind != Period
    ensures Begins(kind, n) < Begins(kind, n + 1)
  {
    if kind == Month {
      MonthStep(n);
    }
  }

  /** The windows of a kind partition time: each instant is in its window, every instant in
      that window has the same one, and where it ends the next begins. */
  lemma WindowsPartitionTime(kind: WindowKind, at: int, t: int)
    requires kind != Period
    ensures ClockWindow(kind, at).Contains(at)
    ensures ClockWindow(kind, at).Contains(t) <==> ClockWindow(kind, t) == ClockWindow(kind, at)
    ensures ClockWindow(kind, ClockWindow(kind, at).end).start == ClockWindow(kind, at).end
    ensures ClockWindow(kind, ClockWindow(kind, at).start - 1).end == ClockWindow(kind, at).start
  {
    hide Begins, Number, ClockWindow;
    var n := Number(kind, at);
    NumberedWindow(kind, at);
    NumberedWindow(kind, t);
    if ClockWindow(kind, at).Contains(t) {
      NumberIs(kind, t, n);
    }
    var next, last := Begins(kind, n + 1), Begins(kind, n) - 1;
    WindowsGrow(kind, n + 1);
    WindowsGrow(kind, n - 1);
    NumberedWindow(kind, next);
    NumberIs(kind, next, n + 1);
    NumberedWindow(kind, last);
    NumberIs(kind, last, n - 1);
  }

  // ---------------------------------------------------------------- quotas at an instant

  datatype OnExceed = Allow | Block | Unstated

  datatype Quota = Quota(kind: WindowKind, maxCost: int, onExceed: OnExceed, from: Option<int>, until: Option<int>)

  /** The window a quota governs at an instant; a billing period that does not cover it
      limits nothing. */
  function WindowAt(q: Quota, at: int): Option<Window> {
    if q.kind == Period then
      if q.from.None? || q.until.None? then None
      else if at < q.from.value || at >= q.until.value then None
      else Some(Window(Period, q.from.value, q.until.value))
    else Some(ClockWindow(q.kind, at))
  }

  /** The window a quota governs holds the instant, and every instant in it gets the same. */
  lemma WindowAtIsStable(q: Quota, at: int, t: int)
    ensures WindowAt(q, at).Some? ==>
        && WindowAt(q, at).value.kind == q.kind && WindowAt(q, at).value.Contains(at)
        && (WindowAt(q, at).value.Contains(t) ==> WindowAt(q, t) == WindowAt(q, at))
  {
    if q.kind != Period {
      WindowsPartitionTime(q.kind, at, t);
      NumberedWindow(q.kind, at);
    }
  }

  /** A counter's key holds its window's start in whole seconds. */
  function LimitOf(tenant: nat, q: Quota, w: Window): Limit {
    Limit(CounterKey(tenant, w.kind, w.start / SECOND), q.maxCost, q.onExceed != Allow)
  }

  function Applicable(tenant: nat, quotas: seq<Quota>, at: int): seq<Limit> {
    if quotas == [] then []
    else
      var w := WindowAt(quotas[0], at);
      (if w.Some? then [LimitOf(tenant, quotas[0], w.value)] else []) + Applicable(tenant, quotas[1..], at)
  }

  /** The quotas found among the first n, in order, and their limits. */
  ghost predicate FoundUpTo(
      limits: seq<Limit>, governing: seq<nat>, tenant: nat, quotas: seq<Quota>, at: int, n: nat)
  {
    && n <= |quotas| && |governing| == |limits|
    && (forall i, j :: 0 <= i < j < |governing| ==> governing[i] < governing[j])
    && (forall m: nat :: m in governing <==> m < n && WindowAt(quotas[m], at).Some?)
    && forall i :: 0 <= i < |limits| ==>
         && governing[i] in governing
         && limits[i] == LimitOf(tenant, quotas[governing[i]], WindowAt(quotas[governing[i]], at).value)
  }

  lemma NoneYet(tenant: nat, quotas: seq<Quota>, at: int)
    ensures FoundUpTo([], [], tenant, quotas, at, 0)
  {
  }

  lemma NoneLeft(tenant: nat, quotas: seq<Quota>, at: int)
    ensures Applicable(tenant, quotas[|quotas|..], at) == []
  {
  }

  lemma ApplicableFrom(tenant: nat, quotas: seq<Quota>, at: int, i: nat)
    requires i < |quotas|
    ensures var w := WindowAt(quotas[i], at);
            Applicable(tenant, quotas[i..], at)
            == (if w.Some? then [LimitOf(tenant, quotas[i], w.value)] else [])
               + Applicable(tenant, quotas[i + 1..], at)
  {
    hide WindowAt, LimitOf;
    assert quotas[i..][1..] == quotas[i + 1..];
  }

  lemma OneMoreQuota(limits: seq<Limit>, governing: seq<nat>, tenant: nat, quotas: seq<Quota>, at: int, n: nat)
    requires n < |quotas| && FoundUpTo(limits, governing, tenant, quotas, at, n)
    ensures var w := WindowAt(quotas[n], at);
            if w.Some? then
              FoundUpTo(limits + [LimitOf(tenant, quotas[n], w.value)], governing + [n], tenant, quotas, at, n + 1)
            else FoundUpTo(limits, governing, tenant, quotas, at, n + 1)
  {
    hide WindowAt, LimitOf;
    if WindowAt(quotas[n], at).Some? {
      var more := governing + [n];
      forall i, j | 0 <= i < j < |more| ensures more[i] < more[j] {
        assert more[i] == governing[i] && governing[i] in governing;
        assert j < |governing| ==> more[j] == governing[j];
      }
    }
  }

  lemma Found(limits: seq<Limit>, governing: seq<nat>, tenant: nat, quotas: seq<Quota>, at: int)
    requires FoundUpTo(limits, governing, tenant, quotas, at, |quotas|)
    ensures |governing| == |limits| && forall i, j :: 0 <= i < j < |governing| ==> governing[i] < governing[j]
    ensures forall n: nat :: n in governing <==>
        && n < |quotas|
        && (quotas[n].kind == Period ==>
              && quotas[n].from.Some? && quotas[n].until.Some?
              && quotas[n].from.value <= at < quotas[n].until.value)
    ensures forall i :: 0 <= i < |limits| ==> governing[i] in governing
    ensures forall i :: 0 <= i < |limits| ==>
        var q := quotas[governing[i]];
        && limits[i].key.tenant == tenant && limits[i].key.kind == q.kind
        && limits[i].key.start
           == (if q.kind == Period then q.from.value else ClockWindow(q.kind, at).start) / 1_000_000_000
        && limits[i].maxCost == q.maxCost
        && (limits[i].block <==> q.onExceed == Block || q.onExceed == Unstated)
  {
    hide ClockWindow;
    forall i | 0 <= i < |limits| ensures WindowAt(quotas[governing[i]], at).value.kind == quotas[governing[i]].kind {
      WindowAtIsStable(quotas[governing[i]], at, at);
    }
  }

  /** Every quota that covers the instant, resolved against the clock: a calendar quota always
      does, a billing period from its first instant up to its end. The quotas found are listed
      in order, and anything but an explicit allow blocks. */
  method ApplicableLimits(tenant: nat, quotas: seq<Quota>, at: int)
    returns (limits: seq<Limit>, ghost governing: seq<nat>)
    ensures limits == Applicable(tenant, quotas, at)
    ensures |governing| == |limits| && forall i, j :: 0 <= i < j < |governing| ==> governing[i] < governing[j]
    ensures forall n: nat :: n in governing <==>
        && n < |quotas|
        && (quotas[n].kind == Period ==>
              && quotas[n].from.Some? && quotas[n].until.Some?
              && quotas[n].from.value <= at < quotas[n].until.value)
    ensures forall i :: 0 <= i < |limits| ==> governing[i] in governing
    ensures forall i :: 0 <= i < |limits| ==>
        var q := quotas[governing[i]];
        && limits[i].key.tenant == tenant && limits[i].key.kind == q.kind
        && limits[i].key.start
           == (if q.kind == Period then q.from.value else ClockWindow(q.kind, at).start) / 1_000_000_000
        && limits[i].maxCost == q.maxCost
        && (limits[i].block <==> q.onExceed == Block || q.onExceed == Unstated)
  {
    hide WindowAt, LimitOf, Applicable, FoundUpTo, ClockWindow;
    limits, governing := [], [];
    assert FoundUpTo(limits, governing, tenant, quotas, at, 0) by {
      NoneYet(tenant, quotas, at);
    }
    assert quotas[0..] == quotas;
    for i := 0 to |quotas|
      invariant limits + Applicable(tenant, quotas[i..], at) == Applicable(tenant, quotas, at)
      invariant FoundUpTo(limits, governing, tenant, quotas, at, i)
    {
      ApplicableFrom(tenant, quotas, at, i);
      var w := WindowAt(quotas[i], at);
      OneMoreQuota(limits, governing, tenant, quotas, at, i);
      if w.Some? {
        Regroup(limits, [LimitOf(tenant, quotas[i], w.value)], Applicable(tenant, quotas[i + 1..], at));
        limits := limits + [LimitOf(tenant, quotas[i], w.value)];
        governing := governing + [i];
      }
    }
    assert Applicable(tenant, quotas[|quotas|..], at) == [] && limits + [] == limits by {
      NoneLeft(tenant, quotas, at);
    }
    Found(limits, governing, tenant, quotas, at);
  }

  /** No two tenants share a counter. */
  lemma {:induction false} TenantsApart(
      tenant: nat, quotas: seq<Quota>, at: int, other: nat, others: seq<Quota>, when: int)
    requires tenant != other
    ensures forall k :: k in Keys(Applicable(tenant, quotas, at)) ==> k !in Keys(Applicable(other, others, when))
  {
    KeysAreTenants(tenant, quotas, at);
    KeysAreTenants(other, others, when);
  }

  lemma {:induction false} KeysAreTenants(tenant: nat, quotas: seq<Quota>, at: int)
    ensures forall k :: k in Keys(Applicable(tenant, quotas, at)) ==> k.tenant == tenant
  {
    if quotas != [] {
      hide WindowAt;
      KeysAreTenants(tenant, quotas[1..], at);
      var rest := Applicable(tenant, quotas[1..], at);
      var w := WindowAt(quotas[0], at);
      if w.Some? {
        assert Keys(Applicable(tenant, quotas, at)) == [LimitOf(tenant, quotas[0], w.value).key] + Keys(rest);
      }
    }
  }

  ghost predicate KindsDiffer(quotas: seq<Quota>) {
    forall i, j :: 0 <= i < j < |quotas| ==> quotas[i].kind != quotas[j].kind
  }

  /** With at most one quota of each kind, as the table's key has it, no two of the windows
      share a counter: what the scripts need of their caller. */
  lemma {:induction false} KeysDiffer(tenant: nat, quotas: seq<Quota>, at: int)
    requires KindsDiffer(quotas)
    ensures Distinct(Keys(Applicable(tenant, quotas, at)))
    ensures forall k :: k in Keys(Applicable(tenant, quotas, at)) ==>
        exists i :: 0 <= i < |quotas| && quotas[i].kind == k.kind
  {
    if quotas != [] {
      KeysDiffer(tenant, quotas[1..], at);
      WindowAtIsStable(quotas[0], at, at);
      hide WindowAt;
      var rest := Applicable(tenant, quotas[1..], at);
      var all := Applicable(tenant, quotas, at);
      forall k | k in Keys(rest)
        ensures k.kind != quotas[0].kind && exists i :: 0 <= i < |quotas| && quotas[i].kind == k.kind
      {
        var i :| 0 <= i < |quotas[1..]| && quotas[1..][i].kind == k.kind;
        assert quotas[i + 1].kind == k.kind;
      }
      var w := WindowAt(quotas[0], at);
      if w.Some? {
        assert Keys(all)[0].kind == quotas[0].kind;
        assert Keys(all)[1..] == Keys(rest);
      } else {
        assert all == rest;
      }
    }
  }
}
