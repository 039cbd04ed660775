/** How many passwords can be tried against one key before it is blocked, with any number
    of attempts in flight: the check, the derivation and the report are separate steps. */
module Guessing {
  import opened Throttle

  /** An attempt that got past the check, until it is over. */
  datatype Try = Try(key: string, at: int, over: bool)

  datatype State = State(history: seq<Event>, tries: seq<Try>)

  datatype Action =
    | Begin(key: string, now: int)       // asks the throttle; refused, it leaves no trace
    | Fails(c: nat, sweeps: bool)        // reports a wrong password, perhaps sweeping
    | Succeeds(c: nat)
    | Drops(c: nat)                      // the lookup failed: nothing is reported

  predicate Flying(s: State, c: nat) {
    c < |s.tries| && !s.tries[c].over
  }

  predicate CanDo(s: State, a: Action) {
    match a
    case Begin(_, _) => true
    case Fails(c, _) => Flying(s, c)
    case Succeeds(c) => Flying(s, c)
    case Drops(c) => Flying(s, c)
  }

  function Finish(s: State, c: nat): State
    requires c < |s.tries|
  {
    s.(tries := s.tries[c := s.tries[c].(over := true)])
  }

  ghost function Do(s: State, a: Action): State
    requires CanDo(s, a)
  {
    match a
    case Begin(key, now) => if Blocked(s.history, key, now) then s else s.(tries := s.tries + [Try(key, now, false)])
    case Fails(c, sweeps) =>
      var failed := s.history + [Failed(s.tries[c].key, s.tries[c].at)];
      Finish(s, c).(history := if sweeps then failed + [Swept(s.tries[c].at)] else failed)
    case Succeeds(c) => Finish(s, c).(history := s.history + [Succeeded(s.tries[c].key)])
    case Drops(c) => Finish(s, c)
  }

  ghost predicate IsRun(states: seq<State>, actions: seq<Action>) {
    && |states| == |actions| + 1
    && states[0] == State([], [])
    && forall i :: 0 <= i < |actions| ==> CanDo(states[i], actions[i]) && states[i + 1] == Do(states[i], actions[i])
  }

  /** Attempts on the key that are past the check and not yet over. */
  function InFlight(tries: seq<Try>, key: string): nat {
    if tries == [] then 0
    else
      var t := tries[|tries| - 1];
      InFlight(tries[..|tries| - 1], key) + if t.key == key && !t.over then 1 else 0
  }

  lemma OneMoreTry(tries: seq<Try>, t: Try, key: string)
    ensures InFlight(tries + [t], key) == InFlight(tries, key) + if t.key == key && !t.over then 1 else 0
  {
    assert (tries + [t])[..|tries|] == tries;
  }

  lemma {:induction false} OneLessInFlight(tries: seq<Try>, c: nat, key: string)
    requires c < |tries| && !tries[c].over
    ensures InFlight(tries[c := tries[c].(over := true)], key)
            == InFlight(tries, key) - if tries[c].key == key then 1 else 0
  {
    var n := |tries| - 1;
    var less := tries[c := tries[c].(over := true)];
    if c < n {
      OneLessInFlight(tries[..n], c, key);
      assert less[..n] == tries[..n][c := tries[c].(over := true)];
    } else {
      assert less[..n] == tries[..n];
    }
  }

  /** All times lie within one window. */
  predicate Between(from: int, at: int) {
    from <= at < from + WINDOW
  }

  ghost predicate AllBetween(times: seq<int>, from: int) {
    forall i :: 0 <= i < |times| ==> Between(from, times[i])
  }

  /** Failures within one window all count together. */
  lemma {:induction false} AllCount(times: seq<int>, from: int)
    requires AllBetween(times, from)
    ensures RunLength(times) == |times|
  {
    if times != [] {
      AllCount(times[..|times| - 1], from);
      assert |times| > 1 ==> Between(from, times[|times| - 2]) && Between(from, times[|times| - 1]);
    }
  }

  /** All that happens does so within one window, nobody gets the key's password right, and
      no more than so many attempts on it are ever in flight together. */
  ghost predicate Attacks(states: seq<State>, actions: seq<Action>, key: string, from: int, most: nat) {
    && IsRun(states, actions)
    && (forall i :: 0 <= i < |actions| && actions[i].Begin? ==> Between(from, actions[i].now))
    && (forall i :: 0 <= i < |actions| && actions[i].Succeeds? ==> states[i].tries[actions[i].c].key != key)
    && forall i :: 0 <= i < |states| ==> InFlight(states[i].tries, key) <= most
  }

  ghost predicate Bounded(s: State, key: string, from: int, most: nat) {
    && (forall c :: 0 <= c < |s.tries| ==> Between(from, s.tries[c].at))
    && AllBetween(Failures(s.history, key), from)
    && |Failures(s.history, key)| + InFlight(s.tries, key) < MAX_FAILURES + most
  }

  lemma BeginStaysBounded(s: State, key: string, from: int, most: nat, k: string, now: int)
    requires Bounded(s, key, from, most) && Between(from, now) && InFlight(Do(s, Begin(k, now)).tries, key) <= most
    ensures Bounded(Do(s, Begin(k, now)), key, from, most)
  {
    OneMoreTry(s.tries, Try(k, now, false), key);
    AllCount(Failures(s.history, key), from);
  }

  lemma FailStaysBounded(s: State, key: string, from: int, most: nat, c: nat, sweeps: bool)
    requires Bounded(s, key, from, most) && Flying(s, c)
    ensures Bounded(Do(s, Fails(c, sweeps)), key, from, most)
  {
    var t := s.tries[c];
    var failed := s.history + [Failed(t.key, t.at)];
    OneMoreEvent(s.history, Failed(t.key, t.at), key);
    OneMoreEvent(failed, Swept(t.at), key);
    OneLessInFlight(s.tries, c, key);
    var times := Failures(failed, key);
    assert times != [] ==> Between(from, times[|times| - 1]) && Between(from, t.at);
  }

  lemma StepStaysBounded(s: State, a: Action, key: string, from: int, most: nat)
    requires CanDo(s, a) && Bounded(s, key, from, most) && InFlight(Do(s, a).tries, key) <= most
    requires (a.Begin? ==> Between(from, a.now)) && (a.Succeeds? ==> s.tries[a.c].key != key)
    ensures Bounded(Do(s, a), key, from, most)
  {
    match a
    case Begin(k, now) => BeginStaysBounded(s, key, from, most, k, now);
    case Fails(c, sweeps) => FailStaysBounded(s, key, from, most, c, sweeps);
    case Succeeds(c) =>
      OneMoreEvent(s.history, Succeeded(s.tries[c].key), key);
      OneLessInFlight(s.tries, c, key);
    case Drops(c) => OneLessInFlight(s.tries, c, key);
  }

  /** With no more than so many attempts on a key in flight together, no more than that and
      four wrong passwords are ever counted against it within one window, however many are
      sent: one at a time that is five. */
  lemma {:induction false} GuessesAreBounded(
      states: seq<State>, actions: seq<Action>, key: string, from: int, most: nat, i: nat)
    requires Attacks(states, actions, key, from, most) && i < |states|
    ensures |Failures(states[i].history, key)| + InFlight(states[i].tries, key) <= 4 + most
    ensures Bounded(states[i], key, from, most)
  {
    hide Do, CanDo, Bounded;
    if i == 0 {
      NothingIsBounded(key, from, most);
    } else {
      GuessesAreBounded(states, actions, key, from, most, i - 1);
      assert states[i] == Do(states[i - 1], actions[i - 1]) && InFlight(states[i].tries, key) <= most;
      StepStaysBounded(states[i - 1], actions[i - 1], key, from, most);
    }
    BoundedSays(states[i], key, from, most);
  }

  lemma NothingIsBounded(key: string, from: int, most: nat)
    ensures Bounded(State([], []), key, from, most)
  {
  }

  lemma BoundedSays(s: State, key: string, from: int, most: nat)
    requires Bounded(s, key, from, most)
    ensures |Failures(s.history, key)| + InFlight(s.tries, key) < MAX_FAILURES + most
  {
  }

  // ---------------------------------------------------------------- as many as that

  ghost predicate Reachable(s: State) {
    exists states, actions :: IsRun(states, actions) && states[|actions|] == s
  }

  lemma StepIsReachable(s: State, a: Action)
    requires Reachable(s) && CanDo(s, a)
    ensures Reachable(Do(s, a))
  {
    hide Do, CanDo;
    var states, actions :| IsRun(states, actions) && states[|actions|] == s;
    var more, taken := states + [Do(s, a)], actions + [a];
    forall i | 0 <= i < |taken| ensures CanDo(more[i], taken[i]) && more[i + 1] == Do(more[i], taken[i]) {
      assert i < |actions| ==> taken[i] == actions[i] && more[i] == states[i] && more[i + 1] == states[i + 1];
    }
    assert IsRun(more, taken) && more[|taken|] == Do(s, a);
  }

  lemma NothingYet(key: string, now: int) returns (s: State)
    ensures Reachable(s) && InFlight(s.tries, key) == 0 && Failures(s.history, key) == []
    ensures AllBetween(Failures(s.history, key), now)
  {
    s := State([], []);
    var states, actions: seq<Action> := [s], [];
    assert IsRun(states, actions) && states[|actions|] == s;
  }

  /** Attempts made one after another that all fail at once. */
  lemma {:induction false} FailInTurn(key: string, now: int, n: nat) returns (s: State)
    requires n < MAX_FAILURES
    ensures Reachable(s) && InFlight(s.tries, key) == 0
    ensures |Failures(s.history, key)| == n && AllBetween(Failures(s.history, key), now)
  {
    hide Blocked, InFlight, AllBetween;
    if n == 0 {
      s := NothingYet(key, now);
    } else {
      var less := FailInTurn(key, now, n - 1);
      s := MoreBegin(less, key, now, 1);
      s := LastFails(s, key, now);
    }
  }

  lemma LastFails(s: State, key: string, now: int) returns (next: State)
    requires Reachable(s) && s.tries != [] && s.tries[|s.tries| - 1] == Try(key, now, false)
    requires AllBetween(Failures(s.history, key), now)
    ensures Reachable(next) && InFlight(next.tries, key) == InFlight(s.tries, key) - 1
    ensures |Failures(next.history, key)| == |Failures(s.history, key)| + 1
    ensures AllBetween(Failures(next.history, key), now)
  {
    hide InFlight, Failures;
    var c := |s.tries| - 1;
    StepIsReachable(s, Fails(c, false));
    OneLessInFlight(s.tries, c, key);
    OneMoreEvent(s.history, Failed(key, now), key);
    next := Do(s, Fails(c, false));
  }

  /** Any number of attempts can get past the check together before the fifth has failed. */
  lemma {:induction false} MoreBegin(s: State, key: string, now: int, n: nat) returns (more: State)
    requires Reachable(s) && |Failures(s.history, key)| < MAX_FAILURES && AllBetween(Failures(s.history, key), now)
    ensures Reachable(more) && more.history == s.history
    ensures InFlight(more.tries, key) == InFlight(s.tries, key) + n
    ensures n > 0 ==> more.tries != [] && more.tries[|more.tries| - 1] == Try(key, now, false)
  {
    more := s;
    if n > 0 {
      more := MoreBegin(s, key, now, n - 1);
      AllCount(Failures(s.history, key), now);
      StepIsReachable(more, Begin(key, now));
      OneMoreTry(more.tries, Try(key, now, false), key);
      more := Do(more, Begin(key, now));
    }
  }

  /** The bound is reached, for every number of attempts in flight together. */
  lemma AsManyAsThat(key: string, now: int, most: nat) returns (s: State)
    ensures Reachable(s) && InFlight(s.tries, key) == most
    ensures |Failures(s.history, key)| + InFlight(s.tries, key) == 4 + most
  {
    var four := FailInTurn(key, now, MAX_FAILURES - 1);
    s := MoreBegin(four, key, now, most);
  }
}
