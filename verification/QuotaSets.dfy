/** Replacing a tenant's whole set of quotas. */
module QuotaSets {
  import opened Basics
  import opened Amounts
  import opened ClockWindows

  const MICROSECOND: int := 1000

  /** The order the database enum declares the kinds in. */
  function Rank(k: WindowKind): nat {
    match k
    case Minute => 0
    case Hour => 1
    case Day => 2
    case Month => 3
    case Period => 4
  }

  /** A row of the table: a quota, and when it was written. */
  datatype Row = Row(quota: Quota, updatedAt: int)

  // ---------------------------------------------------------------- valid sets

  function WithDefault(q: Quota): Quota {
    if q.onExceed == Unstated then q.(onExceed := Block) else q
  }

  predicate ValidQuota(q: Quota) {
    && (if q.kind == Period then q.from.Some? && q.until.Some? && q.from.value < q.until.value
        else q.from.None? && q.until.None?)
    && q.maxCost >= 0
  }

  ghost predicate ValidSet(quotas: seq<Quota>) {
    KindsDiffer(quotas) && forall i :: 0 <= i < |quotas| ==> ValidQuota(quotas[i])
  }

  function Defaulted(quotas: seq<Quota>): (r: seq<Quota>)
    ensures |r| == |quotas| && forall i :: 0 <= i < |r| ==> r[i] == WithDefault(quotas[i])
  {
    seq(|quotas|, i requires 0 <= i < |quotas| => WithDefault(quotas[i]))
  }

  ghost predicate ByRank(quotas: seq<Quota>) {
    forall i, j :: 0 <= i < j < |quotas| ==> Rank(quotas[i].kind) < Rank(quotas[j].kind)
  }

  /** A kind's rank is its place in that order. */
  lemma RankIsPlace(k: WindowKind)
    ensures Rank(k) < 5 && [Minute, Hour, Day, Month, Period][Rank(k)] == k
  {
  }

  lemma RankIsInjective(a: WindowKind, b: WindowKind)
    ensures Rank(a) == Rank(b) <==> a == b
  {
  }

  ghost function KindsOf(quotas: seq<Quota>): set<WindowKind> {
    set i | 0 <= i < |quotas| :: quotas[i].kind
  }

  /** Reading on by one: the set so far stays valid if the next quota is valid and its kind
      new, and otherwise the whole set is not valid. */
  lemma OneMoreKind(quotas: seq<Quota>, i: nat)
    requires i < |quotas| && ValidSet(quotas[..i])
    ensures KindsOf(quotas[..i + 1]) == KindsOf(quotas[..i]) + {quotas[i].kind}
    ensures ValidQuota(WithDefault(quotas[i])) <==> ValidQuota(quotas[i])
    ensures ValidQuota(quotas[i]) && quotas[i].kind !in KindsOf(quotas[..i]) ==> ValidSet(quotas[..i + 1])
    ensures !ValidQuota(quotas[i]) || quotas[i].kind in KindsOf(quotas[..i]) ==> !ValidSet(quotas)
  {
    var before, after := quotas[..i], quotas[..i + 1];
    assert after == before + [quotas[i]];
    if quotas[i].kind in KindsOf(before) {
      var j :| 0 <= j < |before| && before[j].kind == quotas[i].kind;
      assert quotas[j].kind == quotas[i].kind;
    }
  }

  /** Applies defaults, checks, and puts the set in the order a later read returns it in. */
  method ValidQuotaSet(quotas: seq<Quota>) returns (r: Option<seq<Quota>>)
    ensures r.Some? <==> ValidSet(quotas)
    ensures r.Some? ==> ByRank(r.value) && multiset(r.value) == multiset(Defaulted(quotas))
    ensures r.Some? <==>
        && (forall i, j :: 0 <= i < j < |quotas| ==> quotas[i].kind != quotas[j].kind)
        && forall i :: 0 <= i < |quotas| ==>
             var q := quotas[i];
             && q.maxCost >= 0
             && (q.kind == Period ==> q.from.Some? && q.until.Some? && q.from.value < q.until.value)
             && (q.kind != Period ==> q.from.None? && q.until.None?)
    ensures r.Some? ==>
        && |r.value| == |quotas|
        && forall i :: 0 <= i < |quotas| ==>
             var q := quotas[i];
             var action := if q.onExceed == Unstated then Block else q.onExceed;
             Quota(q.kind, q.maxCost, action, q.from, q.until) in r.value
  {
    var out: seq<Quota> := [];
    assert ByRank(out) && ValidSet(quotas[..0]);
    var seen: set<WindowKind> := {};
    var given := Defaulted(quotas);
    assert quotas[..0] == [] && KindsOf([]) == {};
    hide ByRank, ValidQuota, Defaulted, ValidSet, KindsOf, KindsDiffer, WithDefault;
    for i := 0 to |quotas|
      invariant ValidSet(quotas[..i]) && seen == KindsOf(quotas[..i])
      invariant ByRank(out) && multiset(out) == multiset(given[..i])
      invariant forall j :: 0 <= j < |out| ==> out[j].kind in seen
    {
      OneMoreKind(quotas, i);
      var q := given[i];
      if !ValidQuota(q) {
        ValidSetIs(quotas);
        return None;
      }
      if q.kind in seen {
        ValidSetIs(quotas);
        return None;
      }
      seen := seen + {q.kind};
      assert given[..i + 1] == given[..i] + [q];
      out := InsertByRank(out, q);
    }
    assert given[..|quotas|] == given && quotas[..|quotas|] == quotas;
    ValidSetIs(quotas);
    DefaultsAreIn(quotas, out);
    return Some(out);
  }

  lemma ValidSetIs(quotas: seq<Quota>)
    ensures ValidSet(quotas) <==>
            && (forall i, j :: 0 <= i < j < |quotas| ==> quotas[i].kind != quotas[j].kind)
            && forall i :: 0 <= i < |quotas| ==>
                 var q := quotas[i];
                 && q.maxCost >= 0
                 && (q.kind == Period ==> q.from.Some? && q.until.Some? && q.from.value < q.until.value)
                 && (q.kind != Period ==> q.from.None? && q.until.None?)
  {
  }

  lemma DefaultsAreIn(quotas: seq<Quota>, out: seq<Quota>)
    requires multiset(out) == multiset(Defaulted(quotas))
    ensures |out| == |quotas|
    ensures forall i :: 0 <= i < |quotas| ==>
        var q := quotas[i];
        var action := if q.onExceed == Unstated then Block else q.onExceed;
        Quota(q.kind, q.maxCost, action, q.from, q.until) in out
  {
    AllAreIn(Defaulted(quotas), out);
    forall i | 0 <= i < |quotas| ensures WithDefault(quotas[i]) in out {
      assert Defaulted(quotas)[i] in Defaulted(quotas);
    }
  }

  lemma AllAreIn(given: seq<Quota>, out: seq<Quota>)
    requires multiset(given) == multiset(out)
    ensures |given| == |out| && forall q :: q in given <==> q in out
  {
    assert |given| == |multiset(given)| && |out| == |multiset(out)|;
    forall q ensures q in given <==> q in out {
      assert q in given <==> q in multiset(given);
      assert q in out <==> q in multiset(out);
    }
  }

  method InsertByRank(sorted: seq<Quota>, q: Quota) returns (r: seq<Quota>)
    requires ByRank(sorted) && forall i :: 0 <= i < |sorted| ==> sorted[i].kind != q.kind
    ensures ByRank(r) && multiset(r) == multiset(sorted) + multiset{q}
    ensures forall i :: 0 <= i < |r| ==> r[i] == q || r[i] in sorted
  {
    hide ByRank;
    var n := |sorted|;
    while n > 0 && Rank(q.kind) < Rank(sorted[n - 1].kind)
      invariant 0 <= n <= |sorted|
      invariant n < |sorted| ==> Rank(q.kind) < Rank(sorted[n].kind)
    {
      n := n - 1;
    }
    if n > 0 {
      RankIsInjective(sorted[n - 1].kind, q.kind);
    }
    InsertedByRank(sorted, q, n);
    assert sorted == sorted[..n] + sorted[n..];
    r := sorted[..n] + [q] + sorted[n..];
  }

  lemma InsertedByRank(sorted: seq<Quota>, q: Quota, n: nat)
    requires ByRank(sorted) && n <= |sorted|
    requires n > 0 ==> Rank(sorted[n - 1].kind) < Rank(q.kind)
    requires n < |sorted| ==> Rank(q.kind) < Rank(sorted[n].kind)
    ensures ByRank(sorted[..n] + [q] + sorted[n..])
  {
    var r := sorted[..n] + [q] + sorted[n..];
    forall i, j | 0 <= i < j < |r| ensures Rank(r[i].kind) < Rank(r[j].kind) {
      assert i < n ==> r[i] == sorted[i];
      assert j < n ==> r[j] == sorted[j];
      assert i > n ==> r[i] == sorted[i - 1];
      assert j > n ==> r[j] == sorted[j - 1];
    }
  }

  // ---------------------------------------------------------------- comparing sets

  ghost predicate Holds(rows: seq<Row>, q: Quota) {
    exists i :: 0 <= i < |rows| && rows[i].quota == q
  }

  /** The same limits are described, whenever and in whatever order they were written. */
  ghost predicate SameLimits(current: seq<Row>, desired: seq<Quota>) {
    forall q :: Holds(current, q) <==> q in desired
  }

  ghost predicate RowKindsDiffer(rows: seq<Row>) {
    forall i, j :: 0 <= i < j < |rows| ==> rows[i].quota.kind != rows[j].quota.kind
  }

  method SameQuotaSet(current: seq<Row>, desired: seq<Quota>) returns (same: bool)
    requires RowKindsDiffer(current) && KindsDiffer(desired)
    ensures same <==> SameLimits(current, desired)
  {
    if |current| != |desired| {
      if SameLimits(current, desired) {
        SameSizes(current, desired);
      }
      return false;
    }
    var byKind: map<WindowKind, Quota> := map[];
    for i := 0 to |current|
      invariant forall k :: k in byKind <==> exists j :: 0 <= j < i && current[j].quota.kind == k
      invariant forall j :: 0 <= j < i ==> byKind[current[j].quota.kind] == current[j].quota
    {
      byKind := byKind[current[i].quota.kind := current[i].quota];
    }
    for i := 0 to |desired|
      invariant forall j :: 0 <= j < i ==> Holds(current, desired[j])
    {
      var q := desired[i];
      if q.kind !in byKind || byKind[q.kind] != q {
        assert q in desired;
        assert !Holds(current, q);
        return false;
      }
      var l :| 0 <= l < |current| && current[l].quota.kind == q.kind;
      assert current[l].quota == q;
    }
    EqualSizes(current, desired);
    return true;
  }

  /** The quotas of a list of rows, as a set. */
  ghost function QuotasOf(rows: seq<Row>): (s: set<Quota>)
    ensures forall q :: q in s <==> Holds(rows, q)
  {
    set i | 0 <= i < |rows| :: rows[i].quota
  }

  lemma {:induction false} RowCount(rows: seq<Row>)
    requires RowKindsDiffer(rows)
    ensures |QuotasOf(rows)| == |rows|
  {
    if rows != [] {
      var n := |rows| - 1;
      RowCount(rows[..n]);
      assert QuotasOf(rows) == QuotasOf(rows[..n]) + {rows[n].quota};
      assert rows[n].quota !in QuotasOf(rows[..n]);
    }
  }

  lemma {:induction false} QuotaCount(quotas: seq<Quota>)
    requires KindsDiffer(quotas)
    ensures |(set q | q in quotas)| == |quotas|
  {
    if quotas != [] {
      var n := |quotas| - 1;
      QuotaCount(quotas[..n]);
      assert (set q | q in quotas) == (set q | q in quotas[..n]) + {quotas[n]};
      assert quotas[n] !in quotas[..n];
    }
  }

  lemma SameSizes(current: seq<Row>, desired: seq<Quota>)
    requires RowKindsDiffer(current) && KindsDiffer(desired) && SameLimits(current, desired)
    ensures |current| == |desired|
  {
    RowCount(current);
    QuotaCount(desired);
    assert QuotasOf(current) == set q | q in desired;
  }

  lemma EqualSizes(current: seq<Row>, desired: seq<Quota>)
    requires RowKindsDiffer(current) && KindsDiffer(desired) && |current| == |desired|
    requires forall j :: 0 <= j < |desired| ==> Holds(current, desired[j])
    ensures SameLimits(current, desired)
  {
    RowCount(current);
    QuotaCount(desired);
    var have, want := QuotasOf(current), set q | q in desired;
    assert want <= have;
    assert |have - want| == 0;
    assert have == want;
    forall q ensures Holds(current, q) <==> q in desired {
      assert q in have <==> q in want;
    }
  }

  // ---------------------------------------------------------------- the table

  /** A time as the database keeps it: whole microseconds. */
  function Micros(t: Option<int>): (r: Option<int>)
    ensures r.Some? <==> t.Some?
    ensures r.Some? ==> r.value % 1000 == 0 && r.value <= t.value < r.value + 1000
  {
    match t
    case None => None
    case Some(n) => Some(n - n % MICROSECOND)
  }

  function Stored(q: Quota): Quota {
    q.(from := Micros(q.from), until := Micros(q.until))
  }

  /** The table's own check on a row, which rounding can fail. */
  predicate Accepted(q: Quota) {
    Stored(q).from.Some? && Stored(q).until.Some? ==> Stored(q).from.value < Stored(q).until.value
  }

  /** A period is refused if it begins and ends in the same microsecond. */
  lemma AcceptedIff(q: Quota)
    requires ValidQuota(q)
    ensures Accepted(q) <==> (q.kind == Period ==> q.from.value / 1000 < q.until.value / 1000)
  {
    if q.kind == Period {
      assert Micros(q.from).value == q.from.value / 1000 * 1000;
      assert Micros(q.until).value == q.until.value / 1000 * 1000;
    }
  }

  ghost predicate AllAccepted(quotas: seq<Quota>) {
    forall i :: 0 <= i < |quotas| ==> Accepted(quotas[i])
  }

  function EnumOrder(): seq<WindowKind> {
    [Minute, Hour, Day, Month, Period]
  }

  /** The rows of these kinds, in order. */
  function RowsOf(table: map<WindowKind, Row>, kinds: seq<WindowKind>): seq<Row> {
    if kinds == [] then []
    else (if kinds[0] in table then [table[kinds[0]]] else []) + RowsOf(table, kinds[1..])
  }

  /** A tenant's rows in the enum's order. */
  function List(table: map<WindowKind, Row>): seq<Row> {
    RowsOf(table, EnumOrder())
  }

  /** Each row is under its own kind. */
  ghost predicate Keyed(table: map<WindowKind, Row>) {
    forall k :: k in table ==> table[k].quota.kind == k
  }

  ghost predicate RowsByRank(rows: seq<Row>) {
    forall i, j :: 0 <= i < j < |rows| ==> Rank(rows[i].quota.kind) < Rank(rows[j].quota.kind)
  }

  lemma {:induction false} RowsOfKinds(table: map<WindowKind, Row>, kinds: seq<WindowKind>)
    requires Keyed(table) && forall i, j :: 0 <= i < j < |kinds| ==> Rank(kinds[i]) < Rank(kinds[j])
    ensures RowsByRank(RowsOf(table, kinds))
    ensures forall r :: r in RowsOf(table, kinds) <==>
        r.quota.kind in kinds && r.quota.kind in table && table[r.quota.kind] == r
  {
    if kinds != [] {
      RowsOfKinds(table, kinds[1..]);
      hide Rank;
      var rest := RowsOf(table, kinds[1..]);
      assert kinds == [kinds[0]] + kinds[1..];
      forall i | 0 <= i < |rest| ensures Rank(kinds[0]) < Rank(rest[i].quota.kind) {
        assert rest[i] in rest;
        var j :| 0 <= j < |kinds[1..]| && kinds[1..][j] == rest[i].quota.kind;
        assert kinds[j + 1] == rest[i].quota.kind;
      }
    }
  }

  lemma ListIsTable(table: map<WindowKind, Row>)
    requires Keyed(table)
    ensures RowsByRank(List(table)) && RowKindsDiffer(List(table))
    ensures forall r :: r in List(table) <==> r.quota.kind in table && table[r.quota.kind] == r
  {
    RowsOfKinds(table, EnumOrder());
    forall k: WindowKind ensures k in EnumOrder() {
      assert EnumOrder()[Rank(k)] == k;
    }
  }

  /** What writing a list of quotas leaves in an empty table. */
  function Written(quotas: seq<Quota>, now: int): (rows: seq<Row>)
    ensures |rows| == |quotas|
    ensures forall i :: 0 <= i < |rows| ==> rows[i] == Row(Stored(quotas[i]), now)
  {
    seq(|quotas|, i requires 0 <= i < |quotas| => Row(Stored(quotas[i]), now))
  }

  ghost predicate Upserted(table: map<WindowKind, Row>, rows: seq<Row>) {
    && Keyed(table)
    && (forall k :: k in table ==> table[k] in rows)
    && forall i :: 0 <= i < |rows| ==> rows[i].quota.kind in table && table[rows[i].quota.kind] == rows[i]
  }

  lemma {:induction false} SameRowsSameOrder(a: seq<Row>, b: seq<Row>)
    requires RowsByRank(a) && RowsByRank(b) && forall r :: r in a <==> r in b
    ensures a == b
  {
    if a == [] {
      assert forall i :: 0 <= i < |b| ==> b[i] in b;
    } else {
      assert a[0] in b && (b != [] ==> b[0] in a);
      assert a[0] == b[0];
      forall r ensures r in a[1..] <==> r in b[1..] {
        assert r in a <==> r == a[0] || r in a[1..];
        assert r in b <==> r == b[0] || r in b[1..];
        assert a[0] !in a[1..] && b[0] !in b[1..];
      }
      SameRowsSameOrder(a[1..], b[1..]);
    }
  }

  lemma ListIsWritten(table: map<WindowKind, Row>, quotas: seq<Quota>, now: int)
    requires ByRank(quotas) && Upserted(table, Written(quotas, now))
    ensures List(table) == Written(quotas, now)
  {
    ListIsTable(table);
    hide List;
    SameRowsSameOrder(List(table), Written(quotas, now));
  }

  // ---------------------------------------------------------------- replacing

  datatype Replaced = Invalid | Unavailable | Replaced(rows: seq<Row>)

  /** No statement fails: of an unchanged set only the lock and the list are made. */
  ghost predicate Runs(table: map<WindowKind, Row>, quotas: seq<Quota>, failAt: nat)
    requires Keyed(table)
  {
    if SameLimits(List(table), quotas) then failAt >= 2 else failAt >= |quotas| + 4 && AllAccepted(quotas)
  }

  /** A quota as it was asked for, up to what the database rounds away. */
  ghost predicate AsAsked(stored: Quota, q: Quota) {
    && stored.kind == q.kind && stored.maxCost == q.maxCost
    && stored.onExceed == (if q.onExceed == Unstated then Block else q.onExceed)
    && (stored.from.Some? <==> q.from.Some?) && (stored.until.Some? <==> q.until.Some?)
    && (q.from.Some? ==> stored.from.value <= q.from.value < stored.from.value + 1000)
    && (q.until.Some? ==> stored.until.value <= q.until.value < stored.until.value + 1000)
  }

  /** The table holds what was asked for, kind by kind, and nothing else. */
  ghost predicate HoldsJust(table: map<WindowKind, Row>, requested: seq<Quota>) {
    && (forall i :: 0 <= i < |requested| ==>
          requested[i].kind in table && AsAsked(table[requested[i].kind].quota, requested[i]))
    && forall k :: k in table ==> exists i :: 0 <= i < |requested| && requested[i].kind == k
  }

  lemma DefaultedIsAsAsked(q: Quota)
    ensures AsAsked(WithDefault(q), q) && AsAsked(Stored(WithDefault(q)), q)
    ensures WithDefault(q).kind == Stored(WithDefault(q)).kind == q.kind
  {
  }

  lemma {:induction false} FoundAsAsked(table: map<WindowKind, Row>, requested: seq<Quota>, quotas: seq<Quota>)
    requires multiset(quotas) == multiset(Defaulted(requested))
    requires forall q :: q in quotas ==>
        q.kind in table && (table[q.kind].quota == q || table[q.kind].quota == Stored(q))
    requires forall k :: k in table ==> exists q :: q in quotas && q.kind == k
    ensures HoldsJust(table, requested)
  {
    hide AsAsked, Stored, WithDefault;
    AllAreIn(quotas, Defaulted(requested));
    forall i | 0 <= i < |requested|
      ensures requested[i].kind in table && AsAsked(table[requested[i].kind].quota, requested[i])
    {
      DefaultedIsAsAsked(requested[i]);
      assert Defaulted(requested)[i] in quotas;
    }
    forall k | k in table ensures exists i :: 0 <= i < |requested| && requested[i].kind == k {
      var q :| q in quotas && q.kind == k;
      var i :| 0 <= i < |requested| && Defaulted(requested)[i] == q;
      DefaultedIsAsAsked(requested[i]);
    }
  }

  /** Nothing to do: what is there is what was asked for. */
  lemma SameAsAsked(table: map<WindowKind, Row>, requested: seq<Quota>, quotas: seq<Quota>)
    requires Keyed(table) && KindsDiffer(requested) && multiset(quotas) == multiset(Defaulted(requested))
    requires SameLimits(List(table), quotas)
    ensures HoldsJust(table, requested)
  {
    ListIsTable(table);
    hide List;
    forall q | q in quotas ensures q.kind in table && table[q.kind].quota == q {
      assert Holds(List(table), q);
    }
    forall k | k in table ensures exists q :: q in quotas && q.kind == k {
      var row := table[k];
      assert row in List(table);
      var i :| 0 <= i < |List(table)| && List(table)[i] == row;
      assert Holds(List(table), row.quota);
    }
    FoundAsAsked(table, requested, quotas);
  }

  lemma WrittenAsAsked(table: map<WindowKind, Row>, requested: seq<Quota>, quotas: seq<Quota>, now: int)
    requires KindsDiffer(requested) && multiset(quotas) == multiset(Defaulted(requested))
    requires Upserted(table, Written(quotas, now))
    ensures HoldsJust(table, requested)
  {
    var rows := Written(quotas, now);
    forall q | q in quotas ensures q.kind in table && table[q.kind].quota == Stored(q) {
      var i :| 0 <= i < |quotas| && quotas[i] == q;
      assert rows[i].quota.kind in table;
    }
    forall k | k in table ensures exists q :: q in quotas && q.kind == k {
      var i :| 0 <= i < |rows| && rows[i] == table[k];
      assert quotas[i] in quotas;
    }
    FoundAsAsked(table, requested, quotas);
  }

  class QuotaTable {
    var table: map<WindowKind, Row>
    var audits: seq<seq<Row>>

    ghost predicate Valid()
      reads this
    {
      Keyed(table)
    }

    constructor ()
      ensures Valid() && table == map[] && audits == []
    {
      table, audits := map[], [];
    }

    /** One transaction. The statement numbered failAt fails: the tenant's lock, the list,
        the delete, each upsert, the audit row. Whether the commit takes effect and whether
        it is confirmed are told apart. */
    method ReplaceQuotas(requested: seq<Quota>, now: int, failAt: nat, commit: Commit)
      returns (r: Replaced, ghost set': seq<Quota>)
      requires Valid()
      modifies this
      ensures Valid()
      ensures r.Invalid? <==> !ValidSet(requested)
      ensures !r.Invalid? ==> ByRank(set') && multiset(set') == multiset(Defaulted(requested))
      ensures r.Replaced? ==> r.rows == List(table) && HoldsJust(table, requested)
      ensures ValidSet(requested) ==> (r.Replaced? <==> Runs(old(table), set', failAt) && commit.Committed?)
      ensures if ValidSet(requested) && Runs(old(table), set', failAt) && !commit.RolledBack?
                 && !SameLimits(List(old(table)), set')
              then List(table) == Written(set', now) && audits == old(audits) + [List(table)]
              else table == old(table) && audits == old(audits)
    {
      set' := [];
      var checked := ValidQuotaSet(requested);
      if checked.None? {
        return Invalid, [];
      }
      var quotas := checked.value;
      set' := quotas;
      RanksDiffer(quotas);
      ListIsTable(table);
      hide List, ByRank, ValidSet, Defaulted, SameLimits, Rank, HoldsJust, KindsDiffer, Upserted, Runs;
      if failAt < 2 {
        return Unavailable, set';
      }
      var current := List(table);
      var same := SameQuotaSet(current, quotas);
      if same {
        SameAsAsked(table, requested, quotas);
        return if commit.Committed? then Replaced(current) else Unavailable, set';
      }
      var before := table;
      var written := Upsert(quotas, now, failAt - 2);
      if written.None? || failAt - 2 == |quotas| + 1 {
        table := before;  // rolled back
        return Unavailable, set';
      }
      ListIsWritten(table, quotas, now);
      WrittenAsAsked(table, requested, quotas, now);
      if commit.RolledBack? {
        table := before;
        return Unavailable, set';
      }
      audits := audits + [written.value];
      return if commit.Committed? then Replaced(written.value) else Unavailable, set';
    }

    /** Deletes every row, then writes the set one by one. */
    method Upsert(quotas: seq<Quota>, now: int, failAt: nat) returns (written: Option<seq<Row>>)
      requires KindsDiffer(quotas)
      modifies this`table
      ensures written.Some? ==> written.value == Written(quotas, now) && Upserted(table, Written(quotas, now))
      ensures written.Some? <==> failAt > |quotas| && AllAccepted(quotas)
    {
      if failAt == 0 {
        return None;
      }
      table := map[];
      var rows: seq<Row> := [];
      for i := 0 to |quotas|
        invariant i < failAt && forall j :: 0 <= j < i ==> Accepted(quotas[j])
        invariant rows == Written(quotas, now)[..i]
        invariant Upserted(table, rows)
      {
        var q := quotas[i];
        if i + 1 == failAt || !Accepted(q) {
          return None;
        }
        var row := Row(Stored(q), now);
        table := table[q.kind := row];
        rows := rows + [row];
      }
      assert Written(quotas, now)[..|quotas|] == Written(quotas, now);
      return Some(rows);
    }
  }

  lemma RanksDiffer(quotas: seq<Quota>)
    requires ByRank(quotas)
    ensures KindsDiffer(quotas)
  {
  }

  // ---------------------------------------------------------------- asking twice

  /** Asking again for a set already written changes nothing exactly when its times are
      whole microseconds: finer ones are rounded away and look different ever after. */
  lemma RepeatIsQuietIff(quotas: seq<Quota>, now: int)
    requires ByRank(quotas)
    ensures SameLimits(Written(quotas, now), quotas) <==>
            forall i :: 0 <= i < |quotas| ==>
              && (quotas[i].from.Some? ==> quotas[i].from.value % 1000 == 0)
              && (quotas[i].until.Some? ==> quotas[i].until.value % 1000 == 0)
  {
    var rows := Written(quotas, now);
    if SameLimits(rows, quotas) {
      forall i | 0 <= i < |quotas| ensures Stored(quotas[i]) == quotas[i] {
        assert quotas[i] in quotas && Holds(rows, quotas[i]);
        var j :| 0 <= j < |rows| && rows[j].quota == quotas[i];
        assert Stored(quotas[j]) == quotas[i];
        assert Stored(Stored(quotas[j])) == Stored(quotas[j]);
      }
    }
    if forall i :: 0 <= i < |quotas| ==> Stored(quotas[i]) == quotas[i] {
      forall q ensures Holds(rows, q) <==> q in quotas {
        if q in quotas {
          var i :| 0 <= i < |quotas| && quotas[i] == q;
          assert rows[i].quota == q;
        }
      }
    }
  }
}
