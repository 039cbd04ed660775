/** What a quota counter holds, the key it is held under, and sums of both.
    Counters, ledgers and the durable table are all maps from keys to amounts in
    which an absent key reads as zero, except that an absent live counter means "lost". */
module Amounts {

  /** One counter's three fields, and also what one request adds to it. */
  datatype QuotaUsage = QuotaUsage(requests: int, tokens: int, cost: int) {
    function Add(o: QuotaUsage): QuotaUsage {
      QuotaUsage(requests + o.requests, tokens + o.tokens, cost + o.cost)
    }

    function Sub(o: QuotaUsage): QuotaUsage {
      QuotaUsage(requests - o.requests, tokens - o.tokens, cost - o.cost)
    }

    predicate IsZero() {
      requests == 0 && tokens == 0 && cost == 0
    }

    /** Field by field maximum, as the seed script takes it. */
    function Max(o: QuotaUsage): QuotaUsage {
      QuotaUsage(
        if requests < o.requests then o.requests else requests,
        if tokens < o.tokens then o.tokens else tokens,
        if cost < o.cost then o.cost else cost)
    }

    /** Field by field, what this has over another, and nothing where it has less. */
    function Excess(o: QuotaUsage): QuotaUsage {
      Max(o).Sub(o)
    }

    predicate NonNegative() {
      requests >= 0 && tokens >= 0 && cost >= 0
    }
  }

  /** The accounting is done one field at a time. */
  datatype Field = Requests | Tokens | Cost

  function Val(u: QuotaUsage, f: Field): int {
    match f
    case Requests => u.requests
    case Tokens => u.tokens
    case Cost => u.cost
  }

  /** Nothing is lost by it: amounts are the same when all their fields are, and are added,
      subtracted and raised field by field. */
  lemma FieldByField(u: QuotaUsage, v: QuotaUsage, f: Field)
    ensures u == v <==> forall g :: Val(u, g) == Val(v, g)
    ensures Val(u.Add(v), f) == Val(u, f) + Val(v, f) && Val(u.Sub(v), f) == Val(u, f) - Val(v, f)
    ensures Val(u.Max(v), f) == if Val(u, f) < Val(v, f) then Val(v, f) else Val(u, f)
    ensures u.IsZero() <==> forall g :: Val(u, g) == 0
    ensures u.NonNegative() <==> forall g :: Val(u, g) >= 0
  {
    assert Val(u, Requests) == u.requests && Val(u, Tokens) == u.tokens && Val(u, Cost) == u.cost;
    assert Val(v, Requests) == v.requests && Val(v, Tokens) == v.tokens && Val(v, Cost) == v.cost;
  }

  /** The kinds of window, in the order of their names as strings: this is the
      order the flusher sorts by, not the database enum's. */
  datatype WindowKind = Day | Hour | Minute | Month | Period

  /** A tenant's counter for one window. Tenants are 16-byte ids; as big-endian
      numbers they compare as their bytes do. The start is in Unix seconds. */
  datatype CounterKey = CounterKey(tenant: nat, kind: WindowKind, start: int)

  /** Usage on one counter: a change the flusher adds to the durable row, or a
      snapshot a live counter is seeded from. */
  datatype WindowUsage = WindowUsage(key: CounterKey, usage: QuotaUsage)

  type Book = map<CounterKey, QuotaUsage>

  /** What a book holds for a counter; an absent entry reads as zero. */
  function Of(m: Book, k: CounterKey, f: Field): int {
    if k in m then Val(m[k], f) else 0
  }

  function CostOf(m: Book, k: CounterKey): int {
    Of(m, k, Cost)
  }

  /** No element repeats. */
  predicate Distinct<T(==)>(s: seq<T>) {
    s == [] || (s[0] !in s[1..] && Distinct(s[1..]))
  }

  lemma {:induction false} DistinctAt<T>(s: seq<T>, i: nat)
    requires Distinct(s) && i < |s|
    ensures s[i] !in s[..i]
  {
    if i > 0 {
      DistinctAt(s[1..], i - 1);
      assert s[..i] == [s[0]] + s[1..][..i - 1];
      assert s[i] == s[1..][i - 1];
    }
  }

  /** The book with u added at one key. */
  function Plus(m: Book, k: CounterKey, u: QuotaUsage): (r: Book)
    ensures forall j, f :: Of(r, j, f) == Of(m, j, f) + if j == k then Val(u, f) else 0
  {
    m[k := if k in m then m[k].Add(u) else u]
  }

  /** The book with u added at each of the keys, creating those it lacks. */
  function Post(m: Book, keys: seq<CounterKey>, u: QuotaUsage): (r: Book)
    ensures forall k, f :: Of(r, k, f) == Of(m, k, f) + if k in keys then Val(u, f) else 0
  {
    map k | k in m.Keys + (set k | k in keys) ::
      if k !in keys then m[k] else if k in m then m[k].Add(u) else u
  }

  /** The book with every entry of another added to it. */
  function Merge(m: Book, deltas: Book): (r: Book)
    ensures forall k, f :: Of(r, k, f) == Of(m, k, f) + Of(deltas, k, f)
  {
    map k | k in m.Keys + deltas.Keys ::
      if k !in deltas then m[k] else if k in m then m[k].Add(deltas[k]) else deltas[k]
  }

  /** A book holds, key by key, what two others do together. */
  ghost predicate IsSum(total: Book, a: Book, b: Book) {
    forall k, f :: Of(total, k, f) == Of(a, k, f) + Of(b, k, f)
  }

  /** No counter of the book is lower than it was. */
  ghost predicate Grew(was: Book, now: Book) {
    forall k, f :: Of(was, k, f) <= Of(now, k, f)
  }

  ghost predicate NoneNegative(m: Book) {
    forall k | k in m :: m[k].NonNegative()
  }
}
