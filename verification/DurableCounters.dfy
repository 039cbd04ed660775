/** The usage_counters table: the durable snapshot lost live counters are rebuilt from. */
module DurableCounters {
  import opened Basics
  import opened Amounts

  /** A delta as it bears on one counter. */
  function For(d: WindowUsage, k: CounterKey, f: Field): int {
    if d.key == k then Val(d.usage, f) else 0
  }

  /** What a batch adds to one counter. */
  function Total(batch: seq<WindowUsage>, k: CounterKey, f: Field): int {
    if batch == [] then 0
    else Total(batch[..|batch| - 1], k, f) + For(batch[|batch| - 1], k, f)
  }

  lemma TotalAppend(batch: seq<WindowUsage>, d: WindowUsage, k: CounterKey, f: Field)
    ensures Total(batch + [d], k, f) == Total(batch, k, f) + For(d, k, f)
  {
    assert (batch + [d])[..|batch|] == batch;
  }

  lemma {:induction false} TotalOfTail(batch: seq<WindowUsage>, k: CounterKey, f: Field)
    requires batch != []
    ensures Total(batch, k, f) == For(batch[0], k, f) + Total(batch[1..], k, f)
  {
    var front := batch[..|batch| - 1];
    if front == [] {
      assert batch[1..] == [];
    } else {
      TotalOfTail(front, k, f);
      assert front[1..] == batch[1..][..|batch| - 2];
    }
  }

  /** A batch that lists each entry of a book once adds up to the book. */
  lemma {:induction false} TotalOfBook(batch: seq<WindowUsage>, m: Book, k: CounterKey, f: Field)
    requires forall i | 0 <= i < |batch| :: batch[i].key in m && batch[i].usage == m[batch[i].key]
    requires forall i, j | 0 <= i < j < |batch| :: batch[i].key != batch[j].key
    ensures Total(batch, k, f) == if exists i :: 0 <= i < |batch| && batch[i].key == k then Of(m, k, f) else 0
  {
    if batch != [] {
      var n := |batch| - 1;
      TotalOfBook(batch[..n], m, k, f);
      assert batch[n].key == k ==> forall i | 0 <= i < n :: batch[..n][i].key != k;
      assert batch[n].key != k ==>
          ((exists i :: 0 <= i < |batch| && batch[i].key == k) <==> exists i :: 0 <= i < n && batch[..n][i].key == k);
    }
  }

  /** Whether a transaction of n statements, of which failAt is the first to fail, leaves
      its effect behind, and whether its caller is told so. The commit may take effect and
      its answer be lost. */
  predicate Lands(n: nat, failAt: nat, commit: Commit) {
    failAt >= n && !commit.RolledBack?
  }

  predicate Succeeds(n: nat, failAt: nat, commit: Commit) {
    failAt >= n && commit.Committed?
  }

  /** The rows after a batch was added to them. */
  ghost predicate BatchAdded(rows: Book, was: Book, batch: seq<WindowUsage>) {
    forall k, f :: Of(rows, k, f) == Of(was, k, f) + Total(batch, k, f)
  }

  /** The batch comes to just what the book holds. */
  ghost predicate Lists(batch: seq<WindowUsage>, m: Book) {
    forall k, f :: Total(batch, k, f) == Of(m, k, f)
  }

  lemma ListedIsSum(rows: Book, was: Book, batch: seq<WindowUsage>, m: Book)
    requires BatchAdded(rows, was, batch) && Lists(batch, m)
    ensures IsSum(rows, was, m)
  {
  }

  /** The table. Every write to it is a transaction. */
  class UsageCounters {
    var rows: Book

    constructor ()
      ensures rows == map[]
    {
      rows := map[];
    }

    /** Zero when none has been written. */
    method Get(k: CounterKey) returns (u: QuotaUsage)
      ensures u == if k in rows then rows[k] else QuotaUsage(0, 0, 0)
    {
      if k in rows {
        u := rows[k];
      } else {
        u := QuotaUsage(0, 0, 0);
      }
    }

    /** Adds a batch in one transaction: whole, or not at all if a statement fails or the
        commit is rolled back. An error after the commit took effect is an error too. */
    method AddDeltas(batch: seq<WindowUsage>, failAt: nat, commit: Commit) returns (ok: bool)
      modifies this
      ensures ok <==> batch == [] || (failAt >= |batch| && commit == Committed)
      ensures failAt < |batch| || commit == RolledBack ==> rows == old(rows)
      ensures batch == [] || (failAt >= |batch| && commit != RolledBack) ==> BatchAdded(rows, old(rows), batch)
    {
      if batch == [] {
        return true;
      }
      var snapshot := rows;
      for i := 0 to |batch|
        invariant i <= failAt
        invariant BatchAdded(rows, old(rows), batch[..i])
      {
        if i == failAt {
          rows := snapshot;  // rolled back
          return false;
        }
        ghost var was := rows;
        rows := Plus(rows, batch[i].key, batch[i].usage);
        forall k, f
          ensures Of(rows, k, f) == Of(old(rows), k, f) + Total(batch[..i + 1], k, f)
        {
          assert batch[..i + 1] == batch[..i] + [batch[i]];
          TotalAppend(batch[..i], batch[i], k, f);
          assert Of(rows, k, f) == Of(was, k, f) + For(batch[i], k, f);
        }
      }
      assert batch[..|batch|] == batch;
      if commit.RolledBack? {
        rows := snapshot;
      }
      return commit.Committed?;
    }
  }
}
