/** Exchanging a password for a session: the throttle in front of the user table, with any
    number of attempts in flight. */
module Logins {
  import opened Basics
  import opened SessionTokens
  import Sessions
  import T = Throttle

  /** What is presented: a key to count it under, whether the password is longer than any
      stored one can be, whose email it is, if anyone's, and the password. */
  datatype Attempt = Attempt(key: string, tooLong: bool, user: Option<nat>, password: nat)

  /** When it is presented, whether the store answers the lookup, whether a session can be
      issued, and how the transaction that opens it ends. */
  datatype Fate = Fate(now: int, expires: int, answers: bool, issues: bool, opening: Commit)

  /** Whether these credentials would do, were the throttle not asked. */
  predicate Welcome(a: Attempt, users: seq<User>) {
    !a.tooLong && a.user.Some? && a.user.value < |users| && users[a.user.value] == User(a.password, false)
  }

  class Users {
    const throttle: T.Throttle
    const repo: AdminUserRepo

    constructor (throttle: T.Throttle, repo: AdminUserRepo)
      ensures this.throttle == throttle && this.repo == repo
    {
      this.throttle, this.repo := throttle, repo;
    }

    /** Anything that other attempts may do meanwhile, in whatever order they report. */
    method Others()
      requires throttle.Valid()
      modifies throttle, repo
      ensures throttle.Valid() && old(throttle.history) <= throttle.history
      ensures Sessions.Later(old(repo.tokens), repo.tokens)
    {
      var reports: int := *;
      while reports > 0
        invariant throttle.Valid() && old(throttle.history) <= throttle.history
        invariant repo.tokens == old(repo.tokens)
      {
        var failed: bool, key: string, at: int := *, *, *;
        if failed {
          throttle.Fail(key, at);
        } else {
          throttle.Succeed(key);
        }
        reports := reports - 1;
      }
      Sessions.Others(repo);
    }

    /** A login that was verified was answered as the protocol has it. */
    ghost predicate Answers(user: nat, fate: Fate, rows: seq<Token>, r: Sessions.Result)
      reads repo
    {
      Sessions.State(repo.users, repo.tokens, [Sessions.Call(Sessions.Login(user), Sessions.Done(r))])
      == Sessions.Do(
           Sessions.State(repo.users, rows, [Sessions.Call(Sessions.Login(user), Sessions.Verified)]),
           if fate.issues then Sessions.Open(0, fate.now, fate.expires, fate.opening) else Sessions.GiveUp(0))
    }

    /** A blocked key is refused whatever it presents, and is not counted against again. Of
        the rest, bad credentials of every kind are refused alike and counted, and a failed
        lookup is held against nobody; good ones clear the count and take the protocol's
        steps. Between check, lookup, report and opening others may do anything: users are
        as the lookup found them, rows as the opening did, noted is the history reported to. */
    method Login(a: Attempt, fate: Fate)
      returns (r: Sessions.Result, ghost users: seq<User>, ghost rows: seq<Token>, ghost noted: seq<T.Event>)
      requires throttle.Valid()
      modifies throttle, repo
      ensures throttle.Valid() && old(throttle.history) <= noted && Sessions.Later(old(repo.tokens), rows)
      ensures T.Blocked(old(throttle.history), a.key, fate.now) ==>
          r == Sessions.Refused && throttle.history == old(throttle.history)
      ensures !T.Blocked(old(throttle.history), a.key, fate.now) ==>
          if !a.tooLong && !fate.answers then r == Sessions.Failed && throttle.history == noted
          else if !Welcome(a, users) then r == Sessions.Refused && T.Noted(noted, a.key, fate.now, throttle.history)
          else
            && throttle.history == noted + [T.Succeeded(a.key)]
            && Sessions.CanDo(Sessions.State(users, rows, []), Sessions.Verify(a.user.value, a.password))
            && Answers(a.user.value, fate, rows, r)
      ensures r == Sessions.Refused ==> repo.tokens == rows
      ensures r.Session? <==>
          && !T.Blocked(old(throttle.history), a.key, fate.now)
          && !a.tooLong && fate.answers
          && a.user.Some? && a.user.value < |users|
          && users[a.user.value].password == a.password && !users[a.user.value].disabled
          && fate.issues && fate.opening == Committed && References(Sweep(rows, a.user.value, fate.now))
      ensures r.Session? ==>
          && r.token == |rows| && |repo.tokens| == |rows| + 1
          && repo.tokens[r.token] == Token(a.user.value, r.token, fate.expires, false, None, false)
    {
      hide References, Sweep;
      hide Sessions.Later, Sessions.Do, T.Blocked, T.Noted, Answers;
      users, rows, noted := repo.users, repo.tokens, throttle.history;
      Sessions.LaterIsReflexive(repo.tokens);
      var blocked := throttle.IsBlocked(a.key, fate.now);
      if blocked {
        return Sessions.Refused, users, rows, noted;
      }
      Others();
      users, rows, noted := repo.users, repo.tokens, throttle.history;
      if a.tooLong {
        throttle.Fail(a.key, fate.now);
        return Sessions.Refused, users, rows, noted;
      }
      if !fate.answers {
        return Sessions.Failed, users, rows, noted;
      }
      var welcome := a.user.Some? && a.user.value < |repo.users| && repo.users[a.user.value] == User(a.password, false);
      Others();
      Sessions.LaterIsTransitive(old(repo.tokens), rows, repo.tokens);
      rows, noted := repo.tokens, throttle.history;
      if !welcome {
        throttle.Fail(a.key, fate.now);
        return Sessions.Refused, users, rows, noted;
      }
      throttle.Succeed(a.key);
      ghost var found;
      r, found := StartSession(a.user.value, fate);
      Sessions.LaterIsTransitive(old(repo.tokens), rows, found);
      rows := found;
    }

    method StartSession(user: nat, fate: Fate) returns (r: Sessions.Result, ghost rows: seq<Token>)
      modifies repo
      ensures Sessions.Later(old(repo.tokens), rows) && r != Sessions.Refused && Answers(user, fate, rows, r)
      ensures r.Session? <==> fate.issues && fate.opening == Committed && References(Sweep(rows, user, fate.now))
      ensures r.Session? ==>
          && r.token == |rows| && |repo.tokens| == |rows| + 1
          && repo.tokens[r.token] == Token(user, r.token, fate.expires, false, None, false)
    {
      Sessions.Others(repo);
      rows := repo.tokens;
      if !fate.issues {
        return Sessions.Failed, rows;
      }
      var next := |repo.tokens|;
      var tx := repo.StartAdminSession(user, fate.now, fate.expires, fate.opening);
      r := if tx == Ok then Sessions.Session(next) else Sessions.Failed;
    }
  }
}
