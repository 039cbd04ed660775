/** Admin users and their refresh tokens: the two tables and the transactions on them. */
module SessionTokens {
  import opened Basics

  /** A row of the token table. A token's id is its position in the order of creation, and
      stands for its secret too, as only its own secret hashes to its row. Rows deleted by
      a sweep stay here, marked. The login is the id of the token the chain began with;
      the database does not store it. */
  datatype Token = Token(
    user: nat, login: nat, expires: int, revoked: bool, replacedBy: Option<nat>, swept: bool)
  {
    predicate Live() { !revoked && !swept }
  }

  /** A person; the password is a count of how often it was changed. */
  datatype User = User(password: nat, disabled: bool)

  // ---------------------------------------------------------------- statements

  /** Ends every session of a user. */
  function CutAll(tokens: seq<Token>, user: nat): (r: seq<Token>)
    ensures |r| == |tokens|
    ensures forall i :: 0 <= i < |tokens| ==>
        r[i] == if tokens[i].user == user && tokens[i].Live() then tokens[i].(revoked := true) else tokens[i]
  {
    if tokens == [] then []
    else
      var t := tokens[|tokens| - 1];
      CutAll(tokens[..|tokens| - 1], user) + [if t.user == user && t.Live() then t.(revoked := true) else t]
  }

  /** Deletes a user's rows that expired before now. */
  function Sweep(tokens: seq<Token>, user: nat, now: int): (r: seq<Token>)
    ensures |r| == |tokens|
    ensures forall i :: 0 <= i < |tokens| ==> r[i] == SweepOne(tokens[i], user, now)
  {
    if tokens == [] then []
    else Sweep(tokens[..|tokens| - 1], user, now) + [SweepOne(tokens[|tokens| - 1], user, now)]
  }

  function SweepOne(t: Token, user: nat, now: int): Token {
    if t.user == user && t.expires < now then t.(swept := true) else t
  }

  /** The table's foreign key: a row that is there refers only to rows that are there. */
  ghost predicate References(tokens: seq<Token>) {
    forall i, j :: 0 <= i < |tokens| && 0 <= j < |tokens| && !tokens[i].swept && tokens[i].replacedBy == Some(j) ==>
      !tokens[j].swept
  }

  /** Rotation: the replacement is inserted, and takes the presented token's place. */
  function Rotated(tokens: seq<Token>, presented: nat, expires: int): seq<Token>
    requires presented < |tokens|
  {
    var was := tokens[presented];
    tokens[presented := was.(revoked := true, replacedBy := Some(|tokens|))]
    + [Token(was.user, was.login, expires, false, None, false)]
  }

  /** Login: the user's expired rows go, and a new chain begins. */
  function Opened(tokens: seq<Token>, user: nat, now: int, expires: int): seq<Token> {
    Sweep(tokens, user, now) + [Token(user, |tokens|, expires, false, None, false)]
  }

  function Ended(tokens: seq<Token>, id: nat): seq<Token>
    requires id < |tokens|
  {
    if tokens[id].Live() then tokens[id := tokens[id].(revoked := true)] else tokens
  }

  // ---------------------------------------------------------------- transactions

  datatype Tx = Ok | Conflict | Error

  /** The repository. Each method is one transaction, which takes effect as a whole or not
      at all; one whose commit is ambiguous takes effect and reports an error. */
  class AdminUserRepo {
    var users: seq<User>
    var tokens: seq<Token>

    constructor ()
      ensures users == [] && tokens == []
    {
      users, tokens := [], [];
    }

    /** A sweep that would leave a dangling reference fails, and the login with it. */
    method StartAdminSession(user: nat, now: int, expires: int, commit: Commit) returns (tx: Tx)
      modifies this`tokens
      ensures tx == if commit.Committed? && References(Sweep(old(tokens), user, now)) then Ok else Error
      ensures tokens == if !commit.RolledBack? && References(Sweep(old(tokens), user, now))
                        then Opened(old(tokens), user, now, expires) else old(tokens)
      ensures tx == Ok ==>
          && |tokens| == |old(tokens)| + 1
          && tokens[|old(tokens)|] == Token(user, |old(tokens)|, expires, false, None, false)
          && forall i :: 0 <= i < |old(tokens)| ==>
               var was := old(tokens)[i];
               tokens[i] == was.(swept := was.swept || (was.user == user && was.expires < now))
    {
      var before := tokens;
      tokens := Sweep(tokens, user, now);
      var fine := CheckReferences();
      if !fine {
        tokens := before;
        return Error;
      }
      tokens := tokens + [Token(user, |tokens|, expires, false, None, false)];
      if commit.RolledBack? {
        tokens := before;
      }
      return if commit.Committed? then Ok else Error;
    }

    method CheckReferences() returns (fine: bool)
      ensures fine <==> References(tokens)
    {
      for i := 0 to |tokens|
        invariant forall k, j ::
            0 <= k < i && 0 <= j < |tokens| && !tokens[k].swept && tokens[k].replacedBy == Some(j) ==> !tokens[j].swept
      {
        var t := tokens[i];
        if !t.swept && t.replacedBy.Some? && t.replacedBy.value < |tokens| && tokens[t.replacedBy.value].swept {
          return false;
        }
      }
      return true;
    }

    /** Of rotations racing on one token, only the first finds it live. */
    method RotateAdminSession(presented: nat, expires: int, commit: Commit) returns (tx: Tx)
      requires presented < |tokens|
      modifies this`tokens
      ensures tx == if !old(tokens)[presented].Live() then Conflict else if commit.Committed? then Ok else Error
      ensures tokens == if old(tokens)[presented].Live() && !commit.RolledBack?
                        then Rotated(old(tokens), presented, expires) else old(tokens)
    {
      var before := tokens;
      var was := tokens[presented];
      tokens := tokens + [Token(was.user, was.login, expires, false, None, false)];
      if !tokens[presented].Live() {
        tokens := before;
        return Conflict;
      }
      tokens := tokens[presented := was.(revoked := true, replacedBy := Some(|before|))];
      assert tokens == Rotated(before, presented, expires);
      if commit.RolledBack? {
        tokens := before;
      }
      return if commit.Committed? then Ok else Error;
    }

    method EndAdminSession(id: nat, commit: Commit) returns (tx: Tx)
      requires id < |tokens|
      modifies this`tokens
      ensures tx == if commit.Committed? then Ok else Error
      ensures tokens == if !commit.RolledBack? then Ended(old(tokens), id) else old(tokens)
    {
      if commit.RolledBack? {
        return Error;
      }
      if tokens[id].Live() {
        tokens := tokens[id := tokens[id].(revoked := true)];
      }
      return if commit.Committed? then Ok else Error;
    }

    method RevokeAdminSessions(user: nat, commit: Commit) returns (tx: Tx)
      modifies this`tokens
      ensures tx == if commit.Committed? then Ok else Error
      ensures tokens == if !commit.RolledBack? then CutAll(old(tokens), user) else old(tokens)
    {
      if commit.RolledBack? {
        return Error;
      }
      tokens := CutAll(tokens, user);
      return if commit.Committed? then Ok else Error;
    }

    method DisableAdminUser(id: nat, commit: Commit) returns (tx: Tx)
      requires id < |users|
      modifies this
      ensures tx == if commit.Committed? then Ok else Error
      ensures users == if !commit.RolledBack? then old(users)[id := old(users)[id].(disabled := true)] else old(users)
      ensures tokens == if !commit.RolledBack? && !old(users)[id].disabled then CutAll(old(tokens), id) else old(tokens)
    {
      if commit.RolledBack? {
        return Error;
      }
      if !users[id].disabled {
        users := users[id := users[id].(disabled := true)];
        tokens := CutAll(tokens, id);
      }
      return if commit.Committed? then Ok else Error;
    }

    method SetAdminUserPassword(id: nat, commit: Commit) returns (tx: Tx)
      requires id < |users|
      modifies this
      ensures tx == if commit.Committed? then Ok else Error
      ensures users == if commit.RolledBack? then old(users)
                       else old(users)[id := old(users)[id].(password := old(users)[id].password + 1)]
      ensures tokens == if !commit.RolledBack? then CutAll(old(tokens), id) else old(tokens)
    {
      if commit.RolledBack? {
        return Error;
      }
      users := users[id := users[id].(password := users[id].password + 1)];
      tokens := CutAll(tokens, id);
      return if commit.Committed? then Ok else Error;
    }
  }

  // ---------------------------------------------------------------- the sweep and the foreign key

  /** No rotation gave a token a shorter life than the one it replaced. */
  ghost predicate LastsLonger(tokens: seq<Token>) {
    forall i, j :: 0 <= i < |tokens| && 0 <= j < |tokens| && tokens[i].replacedBy == Some(j) ==>
      tokens[i].user == tokens[j].user && tokens[i].expires <= tokens[j].expires
  }

  /** Then no login is ever refused over the foreign key. */
  lemma SweepKeepsReferences(tokens: seq<Token>, user: nat, now: int)
    requires LastsLonger(tokens) && References(tokens)
    ensures References(Sweep(tokens, user, now))
  {
  }

  /** Exactly when a sweep trips over the foreign key: a token that stays was replaced by
      one that goes, and only a rotation that shortened a token's life makes that so. */
  lemma SweepFailsIff(tokens: seq<Token>, user: nat, now: int)
    requires References(tokens)
    requires forall i, j :: 0 <= i < |tokens| && 0 <= j < |tokens| && tokens[i].replacedBy == Some(j) ==>
               tokens[i].user == tokens[j].user
    ensures !References(Sweep(tokens, user, now)) <==>
            exists i, j :: 0 <= i < |tokens| && 0 <= j < |tokens| && tokens[i].replacedBy == Some(j)
              && tokens[i].user == user && !tokens[i].swept && tokens[j].expires < now <= tokens[i].expires
  {
    var after := Sweep(tokens, user, now);
    if exists i, j :: 0 <= i < |tokens| && 0 <= j < |tokens| && tokens[i].replacedBy == Some(j)
              && tokens[i].user == user && !tokens[i].swept && tokens[j].expires < now <= tokens[i].expires {
      var i, j :| 0 <= i < |tokens| && 0 <= j < |tokens| && tokens[i].replacedBy == Some(j)
              && tokens[i].user == user && !tokens[i].swept && tokens[j].expires < now <= tokens[i].expires;
      assert after[j].swept && !after[i].swept && after[i].replacedBy == Some(j);
    }
  }

  /** With the refresh lifetime cut from 1000 to 10 between a login at 0 and a refresh at
      500, the same person cannot log in at 600. */
  lemma ShorterLifetimeLocksOut()
    ensures var tokens := Rotated(Opened([], 0, 0, 1000), 0, 510);
            References(tokens) && !References(Sweep(tokens, 0, 600))
  {
    hide Sweep;
    var tokens := Rotated(Opened([], 0, 0, 1000), 0, 510);
    assert Opened([], 0, 0, 1000) == [Token(0, 0, 1000, false, None, false)];
    assert tokens[0] == Token(0, 0, 1000, true, Some(1), false) && tokens[1] == Token(0, 0, 510, false, None, false);
    var after := Sweep(tokens, 0, 600);
    assert !after[0].swept && after[0].replacedBy == Some(1) && after[1].swept;
  }
}
