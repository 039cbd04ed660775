/** The login throttle: counts of recent failures per key, swept now and then. Attempts
    report in any order, each with the time it began at. */
module Throttle {

  const MAX_FAILURES: nat := 5
  const WINDOW: int := 15 * 60
  const MAX_TRACKED: nat := 4096
  const SWEEP_EVERY: nat := 256

  datatype Event = Failed(key: string, at: int) | Succeeded(key: string) | Swept(at: int)

  // ---------------------------------------------------------------- what it is meant to do

  predicate RunOut(times: seq<int>, now: int) {
    times != [] && now > times[|times| - 1] + WINDOW
  }

  /** What one event makes of a key's failures. */
  function After(times: seq<int>, e: Event, key: string): seq<int> {
    match e
    case Failed(k, at) => if k == key then times + [at] else times
    case Succeeded(k) => if k == key then [] else times
    case Swept(at) => if RunOut(times, at) then [] else times
  }

  /** When a key failed, since it last succeeded or was swept away. */
  function Failures(history: seq<Event>, key: string): seq<int> {
    if history == [] then []
    else After(Failures(history[..|history| - 1], key), history[|history| - 1], key)
  }

  lemma OneMoreEvent(history: seq<Event>, e: Event, key: string)
    ensures Failures(history + [e], key) == After(Failures(history, key), e, key)
  {
    assert (history + [e])[..|history|] == history;
  }

  /** Whether the last n of these came without a gap of more than the window. */
  ghost predicate IsRun(times: seq<int>, n: nat) {
    n <= |times| && forall i :: |times| - n < i < |times| ==> times[i] - times[i - 1] <= WINDOW
  }

  /** The failures up to now that still count together. */
  function RunLength(times: seq<int>): (n: nat)
    ensures n <= |times| && (times != [] ==> n > 0)
  {
    if times == [] then 0
    else
      var n := |times| - 1;
      if n > 0 && times[n] - times[n - 1] <= WINDOW then RunLength(times[..n]) + 1 else 1
  }

  /** It is the longest such run. */
  lemma {:induction false} RunIsLongest(times: seq<int>, n: nat)
    ensures IsRun(times, RunLength(times))
    ensures IsRun(times, n) ==> n <= RunLength(times)
  {
    if times != [] {
      var front := times[..|times| - 1];
      RunIsLongest(front, if n > 0 then n - 1 else 0);
      if n > 1 && IsRun(times, n) {
        assert times[|times| - 1] - times[|times| - 2] <= WINDOW;
        assert forall i :: 0 <= i < |front| ==> front[i] == times[i];
        assert IsRun(front, n - 1);
      }
    }
  }

  ghost predicate Blocked(history: seq<Event>, key: string, now: int) {
    var times := Failures(history, key);
    times != [] && RunLength(times) >= MAX_FAILURES && now < times[|times| - 1] + WINDOW
  }

  /** What it comes to: five failures in a row, no more than a quarter of an hour apart, block
      a key until a quarter of an hour after the last, whatever came before. */
  lemma {:induction false} FiveBlock(
      history: seq<Event>, key: string, a: int, b: int, c: int, d: int, e: int, now: int)
    requires b - a <= 900 && c - b <= 900 && d - c <= 900 && e - d <= 900
    ensures var four := history + [Failed(key, a)] + [Failed(key, b)] + [Failed(key, c)] + [Failed(key, d)];
            Blocked(four + [Failed(key, e)], key, now) <==> now < e + 900
  {
    FailedAgain(history, key, a);
    var one := history + [Failed(key, a)];
    FailedAgain(one, key, b);
    FailedAgain(one + [Failed(key, b)], key, c);
    FailedAgain(one + [Failed(key, b)] + [Failed(key, c)], key, d);
    FailedAgain(one + [Failed(key, b)] + [Failed(key, c)] + [Failed(key, d)], key, e);
  }

  /** Four since a success do not, nor does one that comes more than that after the last. */
  lemma {:induction false} FourDoNot(history: seq<Event>, key: string, a: int, b: int, c: int, d: int, now: int)
    ensures !Blocked(history + [Succeeded(key)] + [Failed(key, a)] + [Failed(key, b)] + [Failed(key, c)]
                     + [Failed(key, d)], key, now)
    ensures b - a > 900 ==> !Blocked(history + [Failed(key, a)] + [Failed(key, b)], key, now)
  {
    var none := history + [Succeeded(key)];
    OneMoreEvent(history, Succeeded(key), key);
    FailedAgain(none, key, a);
    FailedAgain(none + [Failed(key, a)], key, b);
    FailedAgain(none + [Failed(key, a)] + [Failed(key, b)], key, c);
    FailedAgain(none + [Failed(key, a)] + [Failed(key, b)] + [Failed(key, c)], key, d);
    FailedAgain(history, key, a);
    FailedAgain(history + [Failed(key, a)], key, b);
  }

  /** Another key's attempts do not matter. */
  lemma {:induction false} OthersDoNotCount(history: seq<Event>, key: string, other: string, at: int, now: int)
    requires key != other
    ensures Blocked(history + [Failed(other, at)], key, now) <==> Blocked(history, key, now)
    ensures Blocked(history + [Succeeded(other)], key, now) <==> Blocked(history, key, now)
  {
    OneMoreEvent(history, Failed(other, at), key);
    OneMoreEvent(history, Succeeded(other), key);
  }

  lemma {:induction false} FailedAgain(history: seq<Event>, key: string, at: int)
    ensures var was, times := Failures(history, key), Failures(history + [Failed(key, at)], key);
            && times == was + [at]
            && RunLength(times) == 1 + if was != [] && at - was[|was| - 1] <= 900 then RunLength(was) else 0
  {
    OneMoreEvent(history, Failed(key, at), key);
    var was := Failures(history, key);
    assert (was + [at])[..|was|] == was;
  }

  // ---------------------------------------------------------------- what it keeps

  datatype Slot = Slot(failures: nat, until: int)

  /** The map is the history. */
  ghost predicate Tracks(counts: map<string, Slot>, history: seq<Event>) {
    forall key :: TracksKey(counts, Failures(history, key), key)
  }

  ghost predicate TracksKey(counts: map<string, Slot>, times: seq<int>, key: string) {
    if key in counts
    then times != [] && counts[key] == Slot(RunLength(times), times[|times| - 1] + WINDOW)
    else times == []
  }

  function AfterFailure(counts: map<string, Slot>, key: string, now: int): Slot {
    var w := if key in counts then counts[key] else Slot(0, 0);
    Slot(if key in counts && now > w.until then 1 else w.failures + 1, now + WINDOW)
  }

  lemma FailureTracked(counts: map<string, Slot>, history: seq<Event>, key: string, now: int)
    requires Tracks(counts, history)
    ensures Tracks(counts[key := AfterFailure(counts, key, now)], history + [Failed(key, now)])
  {
    var next := counts[key := AfterFailure(counts, key, now)];
    var later := history + [Failed(key, now)];
    forall k ensures TracksKey(next, Failures(later, k), k) {
      OneMoreEvent(history, Failed(key, now), k);
      var times := Failures(history, k);
      assert TracksKey(counts, times, k);
      if k == key {
        assert (times + [now])[..|times|] == times;
      }
    }
  }

  lemma SuccessTracked(counts: map<string, Slot>, history: seq<Event>, key: string)
    requires Tracks(counts, history)
    ensures Tracks(counts - {key}, history + [Succeeded(key)])
  {
    forall k ensures TracksKey(counts - {key}, Failures(history + [Succeeded(key)], k), k) {
      OneMoreEvent(history, Succeeded(key), k);
      assert TracksKey(counts, Failures(history, k), k);
    }
  }

  lemma SweepTracked(counts: map<string, Slot>, swept: map<string, Slot>, history: seq<Event>, now: int)
    requires Tracks(counts, history)
    requires forall k :: k in swept <==> k in counts && now <= counts[k].until
    requires forall k :: k in swept ==> swept[k] == counts[k]
    ensures Tracks(swept, history + [Swept(now)])
  {
    forall k ensures TracksKey(swept, Failures(history + [Swept(now)], k), k) {
      OneMoreEvent(history, Swept(now), k);
      assert TracksKey(counts, Failures(history, k), k);
    }
  }

  class Throttle {
    var counts: map<string, Slot>
    var writes: nat
    ghost var history: seq<Event>

    ghost predicate Valid()
      reads this
    {
      Tracks(counts, history)
    }

    constructor ()
      ensures Valid() && history == []
    {
      counts, writes, history := map[], 0, [];
    }

    method IsBlocked(key: string, now: int) returns (blocked: bool)
      requires Valid()
      ensures blocked <==> Blocked(history, key, now)
    {
      assert TracksKey(counts, Failures(history, key), key);
      blocked := key in counts && now < counts[key].until && counts[key].failures >= MAX_FAILURES;
    }

    /** Every so often, and whenever there are too many, what has run out is swept. */
    method Fail(key: string, now: int)
      requires Valid()
      modifies this
      ensures Valid() && Noted(old(history), key, now, history)
      ensures writes == old(writes) + 1
      ensures var sweeps := writes % 256 == 0 || |old(counts).Keys + {key}| > 4096;
              history == old(history) + if sweeps then [Failed(key, now), Swept(now)] else [Failed(key, now)]
      ensures |counts| <= 4096 || forall k :: k in counts ==> now <= counts[k].until
    {
      FailureTracked(counts, history, key, now);
      var w := if key in counts then counts[key] else Slot(0, 0);
      if key in counts && now > w.until {
        w := Slot(0, 0);
      }
      counts := counts[key := Slot(w.failures + 1, now + WINDOW)];
      history := history + [Failed(key, now)];
      writes := writes + 1;
      assert counts.Keys == old(counts).Keys + {key} && |counts| == |counts.Keys|;
      if writes % SWEEP_EVERY == 0 || |counts| > MAX_TRACKED {
        Sweep(now);
      }
    }

    method Succeed(key: string)
      requires Valid()
      modifies this
      ensures Valid() && history == old(history) + [Succeeded(key)]
      ensures counts == old(counts) - {key} && forall now :: !Blocked(history, key, now)
    {
      SuccessTracked(counts, history, key);
      OneMoreEvent(history, Succeeded(key), key);
      counts := counts - {key};
      history := history + [Succeeded(key)];
    }

    method Sweep(now: int)
      requires Valid()
      modifies this`counts, this`history
      ensures Valid() && history == old(history) + [Swept(now)]
      ensures forall k :: k in counts <==> k in old(counts) && now <= old(counts)[k].until
      ensures forall k :: k in counts ==> counts[k] == old(counts)[k]
    {
      ghost var before := counts;
      var left := counts.Keys;
      while left != {}
        invariant history == old(history)
        invariant forall k :: k in counts <==> k in before && (k in left || now <= before[k].until)
        invariant forall k :: k in counts ==> counts[k] == before[k]
        decreases |left|
      {
        var key :| key in left;
        left := left - {key};
        if key in counts && now > counts[key].until {
          counts := counts - {key};
        }
      }
      SweepTracked(before, counts, history, now);
      history := history + [Swept(now)];
    }
  }

  /** A failure was added, and perhaps a sweep at its time. */
  predicate Noted(was: seq<Event>, key: string, now: int, history: seq<Event>) {
    history == was + [Failed(key, now)] || history == was + [Failed(key, now), Swept(now)]
  }

  // ---------------------------------------------------------------- sweeping

  function Unswept(history: seq<Event>): seq<Event> {
    if history == [] then []
    else
      var n := |history| - 1;
      Unswept(history[..n]) + if history[n].Swept? then [] else [history[n]]
  }

  /** Failures and sweeps are reported in the order of their times, none after the last. */
  ghost predicate InOrder(history: seq<Event>, last: int)
    decreases |history|
  {
    history == []
    || var n := |history| - 1;
       if history[n].Succeeded? then InOrder(history[..n], last)
       else history[n].at <= last && InOrder(history[..n], history[n].at)
  }

  /** One list of failures counts like another that was never swept. */
  ghost predicate CountsLike(swept: seq<int>, times: seq<int>, clock: int) {
    if swept == [] then times == [] || RunOut(times, clock)
    else times != [] && swept[|swept| - 1] == times[|times| - 1] && RunLength(swept) == RunLength(times)
  }

  lemma OneMoreCounts(swept: seq<int>, times: seq<int>, e: Event, key: string, clock: int)
    requires CountsLike(swept, times, if e.Succeeded? then clock else e.at) && (e.Succeeded? || e.at <= clock)
    ensures CountsLike(After(swept, e, key), if e.Swept? then times else After(times, e, key), clock)
  {
    if e.Failed? {
      assert (swept + [e.at])[..|swept|] == swept && (times + [e.at])[..|times|] == times;
    }
  }

  lemma {:induction false} SweptCountsLike(history: seq<Event>, key: string, clock: int)
    requires InOrder(history, clock)
    ensures CountsLike(Failures(history, key), Failures(Unswept(history), key), clock)
  {
    if history != [] {
      var front, e := history[..|history| - 1], history[|history| - 1];
      SweptCountsLike(front, key, if e.Succeeded? then clock else e.at);
      OneMoreCounts(Failures(front, key), Failures(Unswept(front), key), e, key, clock);
      OneMoreEvent(Unswept(front), e, key);
      assert Unswept(front) + [] == Unswept(front);
    }
  }

  /** As long as attempts report in the order they began in, sweeping never shows. */
  lemma SweepingDoesNotShow(history: seq<Event>, key: string, now: int)
    requires InOrder(history, now)
    ensures Blocked(history, key, now) <==> Blocked(Unswept(history), key, now)
  {
    SweptCountsLike(history, key, now);
  }

  /** When one reports late it can: a sweep forgives a key for an attempt that began before. */
  lemma LateAttemptIsForgiven(history: seq<Event>, key: string, now: int, late: int)
    requires Blocked(history, key, now)
    requires late > Failures(history, key)[|Failures(history, key)| - 1] + WINDOW
    ensures !Blocked(history + [Swept(late)], key, now)
    ensures Unswept(history + [Swept(late)]) == Unswept(history)
  {
    OneMoreEvent(history, Swept(late), key);
    assert (history + [Swept(late)])[..|history|] == history;
    assert Unswept(history) + [] == Unswept(history);
  }
}
