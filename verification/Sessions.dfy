/** Logins, refreshes and logouts of any number of clients, interleaved: what a call reads
    it acts on later, and only the transaction it then runs is atomic. */
module Sessions {
  import opened Basics
  import opened SessionTokens

  datatype Result = Session(token: nat) | Refused | Failed

  datatype Step =
    | Presented             // a refresh that has yet to read
    | Rotating              // it read its token live and its owner welcome
    | Cutting               // it saw the token used twice
    | Verified              // a login whose password was right
    | Done(result: Result)

  /** A refresh presents a token, or a secret that is no token's. */
  datatype Kind = Refresh(secret: Option<nat>) | Login(user: nat)

  datatype Call = Call(kind: Kind, step: Step)

  datatype State = State(users: seq<User>, tokens: seq<Token>, calls: seq<Call>)

  datatype Action =
    | AddUser
    | Present(secret: Option<nat>)
    | Read(c: nat, now: int)
    | Rotate(c: nat, expires: int, commit: Commit)
    | Cut(c: nat, works: bool)
    | GiveUp(c: nat)                            // a read failed, or nothing could be issued
    | Verify(user: nat, password: nat)
    | Open(c: nat, now: int, expires: int, commit: Commit)
    | Logout(token: nat)
    | Disable(user: nat)
    | SetPassword(user: nat)

  predicate At(s: State, c: nat, step: Step) {
    c < |s.calls| && s.calls[c].step == step
  }

  /** The token a refresh presents is in the table, swept or not. */
  predicate Holds(s: State, c: nat) {
    && c < |s.calls| && s.calls[c].kind.Refresh?
    && s.calls[c].kind.secret.Some? && s.calls[c].kind.secret.value < |s.tokens|
  }

  predicate CanDo(s: State, a: Action) {
    match a
    case AddUser => true
    case Present(secret) => secret.Some? ==> secret.value < |s.tokens|
    case Read(c, _) => At(s, c, Presented) && s.calls[c].kind.Refresh?
    case Rotate(c, _, _) => At(s, c, Rotating) && Holds(s, c)
    case Cut(c, _) => At(s, c, Cutting) && Holds(s, c)
    case GiveUp(c) => At(s, c, Presented) || At(s, c, Rotating) || At(s, c, Verified)
    case Verify(user, password) => user < |s.users| && s.users[user] == User(password, false)
    case Open(c, _, _, _) => At(s, c, Verified) && s.calls[c].kind.Login?
    case Logout(token) => token < |s.tokens|
    case Disable(user) => user < |s.users|
    case SetPassword(user) => user < |s.users|
  }

  function Move(s: State, c: nat, step: Step): State
    requires c < |s.calls|
  {
    s.(calls := s.calls[c := s.calls[c].(step := step)])
  }

  /** What a refresh decides from the row and its owner, read together. */
  function Decision(s: State, secret: Option<nat>, now: int): Step {
    if secret.None? || secret.value >= |s.tokens| || s.tokens[secret.value].swept then Done(Refused)
    else
      var t := s.tokens[secret.value];
      if t.revoked then Cutting
      else if now >= t.expires || t.user >= |s.users| || s.users[t.user].disabled then Done(Refused)
      else Rotating
  }

  ghost function Do(s: State, a: Action): State
    requires CanDo(s, a)
  {
    match a
    case AddUser => s.(users := s.users + [User(0, false)])
    case Present(secret) => s.(calls := s.calls + [Call(Refresh(secret), Presented)])
    case Read(c, now) => Move(s, c, Decision(s, s.calls[c].kind.secret, now))
    case Rotate(c, expires, commit) => DoRotate(s, c, expires, commit)
    case Cut(c, works) => DoCut(s, c, works)
    case GiveUp(c) => Move(s, c, Done(Failed))
    case Verify(user, _) => s.(calls := s.calls + [Call(Login(user), Verified)])
    case Open(c, now, expires, commit) => DoOpen(s, c, now, expires, commit)
    case Logout(token) => s.(tokens := Ended(s.tokens, token))
    case Disable(user) =>
      if s.users[user].disabled then s
      else s.(users := s.users[user := s.users[user].(disabled := true)], tokens := CutAll(s.tokens, user))
    case SetPassword(user) =>
      s.(users := s.users[user := s.users[user].(password := s.users[user].password + 1)],
         tokens := CutAll(s.tokens, user))
  }

  /** A rotation that lost the race has seen a reuse; one that failed hands out nothing,
      even if the store did commit it. */
  function DoRotate(s: State, c: nat, expires: int, commit: Commit): State
    requires CanDo(s, Rotate(c, expires, commit))
  {
    var secret := s.calls[c].kind.secret.value;
    if !s.tokens[secret].Live() then Move(s, c, Cutting)
    else if commit.RolledBack? then Move(s, c, Done(Failed))
    else
      var result := if commit.Committed? then Session(|s.tokens|) else Failed;
      Move(s, c, Done(result)).(tokens := Rotated(s.tokens, secret, expires))
  }

  function DoCut(s: State, c: nat, works: bool): State
    requires CanDo(s, Cut(c, works))
  {
    var user := s.tokens[s.calls[c].kind.secret.value].user;
    Move(s, c, Done(Refused)).(tokens := if works then CutAll(s.tokens, user) else s.tokens)
  }

  ghost function DoOpen(s: State, c: nat, now: int, expires: int, commit: Commit): State
    requires CanDo(s, Open(c, now, expires, commit))
  {
    var user := s.calls[c].kind.user;
    if commit.RolledBack? || !References(Sweep(s.tokens, user, now)) then Move(s, c, Done(Failed))
    else
      var result := if commit.Committed? then Session(|s.tokens|) else Failed;
      Move(s, c, Done(result)).(tokens := Opened(s.tokens, user, now, expires))
  }

  // ---------------------------------------------------------------- one refresh

  /** Rows never change hands, nor come back to life, nor are replaced twice. */
  predicate Later(was: seq<Token>, tokens: seq<Token>) {
    && |was| <= |tokens|
    && forall i :: 0 <= i < |was| ==> LaterRow(was[i], tokens[i])
  }

  predicate LaterRow(was: Token, t: Token) {
    && t.user == was.user && t.login == was.login && t.expires == was.expires
    && (was.revoked ==> t.revoked) && (was.swept ==> t.swept)
    && (was.replacedBy.Some? ==> t.replacedBy == was.replacedBy)
  }

  /** How a refresh fares: when it runs, whether the store answers its read, whether a new
      session can be issued, and how its transactions end. */
  datatype Fate = Fate(now: int, expires: int, answers: bool, issues: bool, rotation: Commit, cut: Commit)

  function Overtaken(s: State, others: State): State {
    s.(users := others.users, tokens := others.tokens)
  }

  /** One refresh, its transactions finding whatever others have made of the tables. */
  ghost function OneRefresh(s: State, fate: Fate, met: State, last: State): State
    requires |s.calls| == 1 && CanDo(s, Read(0, fate.now)) && (s.calls[0].kind.secret.Some? ==> Holds(s, 0))
    requires Later(s.tokens, met.tokens) && Later(met.tokens, last.tokens)
  {
    if !fate.answers then Do(s, GiveUp(0))
    else
      var read := Do(s, Read(0, fate.now));
      match read.calls[0].step
      case Rotating =>
        if !fate.issues then Do(read, GiveUp(0))
        else
          var tried := Do(Overtaken(read, met), Rotate(0, fate.expires, fate.rotation));
          if tried.calls[0].step == Cutting then Do(Overtaken(tried, last), Cut(0, !fate.cut.RolledBack?)) else tried
      case Cutting => Do(Overtaken(read, last), Cut(0, !fate.cut.RolledBack?))
      case _ => read
  }

  /** Anything that everybody else may do to the tables. */
  method Others(repo: AdminUserRepo)
    modifies repo
    ensures Later(old(repo.tokens), repo.tokens)
  {
    var users, tokens: seq<Token> := *, *;
    repo.users := users;
    if Later(repo.tokens, tokens) {
      repo.tokens := tokens;
    }
  }

  /** The read was answered, and found the token there, unused and in time, and its owner
      welcome. */
  ghost predicate WelcomeBack(secret: Option<nat>, tokens: seq<Token>, users: seq<User>, fate: Fate)
    requires secret.Some? ==> secret.value < |tokens|
  {
    && fate.answers && secret.Some?
    && var t := tokens[secret.value];
    && !t.swept && !t.revoked && fate.now < t.expires
    && t.user < |users| && !users[t.user].disabled
  }

  /** The token had been used when it was read, or was by the time it was to be rotated. */
  ghost predicate UsedTwice(secret: Option<nat>, tokens: seq<Token>, users: seq<User>, fate: Fate, met: seq<Token>)
    requires secret.Some? ==> secret.value < |tokens| <= |met|
  {
    && fate.answers && secret.Some?
    && ((!tokens[secret.value].swept && tokens[secret.value].revoked)
        || (WelcomeBack(secret, tokens, users, fate) && fate.issues
            && (met[secret.value].revoked || met[secret.value].swept)))
  }

  /** A token was used twice: every session of its user's that still works ends. */
  method Reused(repo: AdminUserRepo, user: nat, cut: Commit) returns (ghost last: State)
    modifies repo
    ensures Later(old(repo.tokens), last.tokens) && repo.users == last.users && last.calls == []
    ensures repo.tokens == if cut.RolledBack? then last.tokens else CutAll(last.tokens, user)
    ensures |repo.tokens| == |last.tokens|
    ensures forall i :: 0 <= i < |last.tokens| ==>
        repo.tokens[i] == if last.tokens[i].user == user && !last.tokens[i].swept && cut != RolledBack
                          then last.tokens[i].(revoked := true) else last.tokens[i]
  {
    Others(repo);
    last := State(repo.users, repo.tokens, []);
    var _ := repo.RevokeAdminSessions(user, cut);
  }

  /** Rotates a refresh token into a new session, in the order the service does it. */
  method RefreshSession(repo: AdminUserRepo, secret: Option<nat>, fate: Fate)
    returns (r: Result, ghost met: State, ghost last: State)
    requires secret.Some? ==> secret.value < |repo.tokens|
    modifies repo
    ensures Later(old(repo.tokens), met.tokens) && Later(met.tokens, last.tokens)
    ensures var before := State(old(repo.users), old(repo.tokens), [Call(Refresh(secret), Presented)]);
            State(repo.users, repo.tokens, [Call(Refresh(secret), Done(r))]) == OneRefresh(before, fate, met, last)
    ensures r.Session? <==>
        && fate.answers && secret.Some?
        && var t := old(repo.tokens)[secret.value];
        && !t.swept && !t.revoked && fate.now < t.expires
        && t.user < |old(repo.users)| && !old(repo.users)[t.user].disabled
        && fate.issues
        && !met.tokens[secret.value].revoked && !met.tokens[secret.value].swept && fate.rotation == Committed
    ensures r.Session? ==>
        var was := met.tokens[secret.value];
        && r.token == |met.tokens| && |repo.tokens| == |met.tokens| + 1
        && repo.tokens[r.token] == Token(was.user, was.login, fate.expires, false, None, false)
        && repo.tokens[secret.value] == was.(revoked := true, replacedBy := Some(r.token))
        && forall i :: 0 <= i < |met.tokens| && i != secret.value ==> repo.tokens[i] == met.tokens[i]
    ensures r.Failed? <==>
        || !fate.answers
        || (WelcomeBack(secret, old(repo.tokens), old(repo.users), fate)
            && (!fate.issues
                || (!met.tokens[secret.value].revoked && !met.tokens[secret.value].swept
                    && fate.rotation != Committed)))
    ensures UsedTwice(secret, old(repo.tokens), old(repo.users), fate, met.tokens) ==>
        && r == Refused && |repo.tokens| == |last.tokens|
        && forall i :: 0 <= i < |last.tokens| ==>
             repo.tokens[i] == if last.tokens[i].user == old(repo.tokens)[secret.value].user && !last.tokens[i].swept
                                  && fate.cut != RolledBack
                               then last.tokens[i].(revoked := true) else last.tokens[i]
  {
    hide CutAll;
    met := State(repo.users, repo.tokens, []);
    last := met;
    if !fate.answers {
      return Failed, met, last;
    }
    if secret.None? || repo.tokens[secret.value].swept {
      return Refused, met, last;
    }
    var t := repo.tokens[secret.value];
    if t.revoked {
      last := Reused(repo, t.user, fate.cut);
      return Refused, met, last;
    }
    if fate.now >= t.expires || t.user >= |repo.users| || repo.users[t.user].disabled {
      return Refused, met, last;
    }
    if !fate.issues {
      return Failed, met, last;
    }
    Others(repo);
    met := State(repo.users, repo.tokens, []);
    last := met;
    var next := |repo.tokens|;
    var tx := repo.RotateAdminSession(secret.value, fate.expires, fate.rotation);
    if tx == Conflict {
      last := Reused(repo, t.user, fate.cut);
      return Refused, met, last;
    }
    if tx == Error {
      return Failed, met, last;
    }
    return Session(next), met, last;
  }

  // ---------------------------------------------------------------- the token table over time

  /** A row belongs to the login its chain began with, and a replaced one is revoked. */
  ghost predicate SoundRows(tokens: seq<Token>) {
    forall i :: 0 <= i < |tokens| ==>
      && tokens[i].login <= i
      && (tokens[i].replacedBy.Some? ==> tokens[i].revoked)
  }

  /** Within one login, only the newest token can be unrevoked. */
  ghost predicate OneUnrevoked(tokens: seq<Token>) {
    forall i, j :: 0 <= i < j < |tokens| && tokens[i].login == tokens[j].login ==> tokens[i].revoked
  }

  ghost predicate SoundTokens(tokens: seq<Token>) {
    SoundRows(tokens) && OneUnrevoked(tokens)
  }

  lemma RotatedStaysSound(tokens: seq<Token>, presented: nat, expires: int)
    requires presented < |tokens| && tokens[presented].Live() && SoundTokens(tokens)
    ensures SoundTokens(Rotated(tokens, presented, expires)) && Later(tokens, Rotated(tokens, presented, expires))
  {
    var next := Rotated(tokens, presented, expires);
    forall i, j | 0 <= i < j < |next| && next[i].login == next[j].login ensures next[i].revoked {
      if j == |tokens| && i != presented {
        assert i < presented;
      }
    }
  }

  lemma OpenedStaysSound(tokens: seq<Token>, user: nat, now: int, expires: int)
    requires SoundTokens(tokens)
    ensures SoundTokens(Opened(tokens, user, now, expires)) && Later(tokens, Opened(tokens, user, now, expires))
  {
    var next := Opened(tokens, user, now, expires);
    assert forall i :: 0 <= i < |tokens| ==> next[i] == SweepOne(tokens[i], user, now);
  }

  lemma CutStaysSound(tokens: seq<Token>, user: nat)
    requires SoundTokens(tokens)
    ensures SoundTokens(CutAll(tokens, user)) && Later(tokens, CutAll(tokens, user))
  {
  }

  // ---------------------------------------------------------------- the calls over time

  /** A finished refresh that handed out a session did replace the token presented. */
  ghost predicate SoundCall(tokens: seq<Token>, call: Call) {
    && (call.kind.Refresh? && call.kind.secret.Some? ==> call.kind.secret.value < |tokens|)
    && (call.step.Rotating? ==> call.kind.Refresh? && call.kind.secret.Some?)
    && (call.step.Done? && call.step.result.Session? ==>
          && call.step.result.token < |tokens|
          && (call.kind.Refresh? ==>
                && call.kind.secret.Some?
                && tokens[call.kind.secret.value].replacedBy == Some(call.step.result.token)))
  }

  ghost predicate SoundCalls(s: State) {
    forall c :: 0 <= c < |s.calls| ==> SoundCall(s.tokens, s.calls[c])
  }

  predicate Got(call: Call, token: nat) {
    call.step == Done(Session(token))
  }

  /** No two calls were handed the same token. */
  ghost predicate Apart(calls: seq<Call>) {
    forall c, d, t :: 0 <= c < |calls| && 0 <= d < |calls| && Got(calls[c], t) && Got(calls[d], t) ==> c == d
  }

  ghost predicate Sound(s: State) {
    SoundTokens(s.tokens) && SoundCalls(s) && Apart(s.calls)
  }

  lemma LaterKeepsCalls(s: State, tokens: seq<Token>)
    requires SoundCalls(s) && Later(s.tokens, tokens)
    ensures SoundCalls(s.(tokens := tokens))
  {
    forall c | 0 <= c < |s.calls| ensures SoundCall(tokens, s.calls[c]) {
      assert SoundCall(s.tokens, s.calls[c]);
    }
  }

  /** Moving one call on, without a session, keeps the rest. */
  lemma MoveStaysSound(s: State, c: nat, step: Step)
    requires Sound(s) && c < |s.calls| && (step.Done? ==> !step.result.Session?)
    requires step.Rotating? ==> s.calls[c].kind.Refresh? && s.calls[c].kind.secret.Some?
    ensures Sound(Move(s, c, step))
  {
    assert SoundCall(s.tokens, s.calls[c]);
  }

  /** Handing out the newest token, which nobody else can have. */
  lemma HandOutStaysSound(s: State, c: nat)
    requires SoundTokens(s.tokens) && SoundCalls(s) && Apart(s.calls) && c < |s.calls| && s.tokens != []
    requires forall d :: 0 <= d < |s.calls| ==> !Got(s.calls[d], |s.tokens| - 1)
    requires s.calls[c].kind.Refresh? ==>
        && s.calls[c].kind.secret.Some? && s.calls[c].kind.secret.value < |s.tokens|
        && s.tokens[s.calls[c].kind.secret.value].replacedBy == Some(|s.tokens| - 1)
    ensures Sound(Move(s, c, Done(Session(|s.tokens| - 1))))
  {
    assert SoundCall(s.tokens, s.calls[c]);
  }

  lemma NewTokenIsNobodys(s: State, tokens: seq<Token>)
    requires SoundCalls(s) && |tokens| == |s.tokens| + 1
    ensures forall d :: 0 <= d < |s.calls| ==> !Got(s.calls[d], |tokens| - 1)
  {
    forall d | 0 <= d < |s.calls| ensures !Got(s.calls[d], |tokens| - 1) {
      assert SoundCall(s.tokens, s.calls[d]);
    }
  }

  lemma RotateStaysSound(s: State, c: nat, expires: int, commit: Commit)
    requires CanDo(s, Rotate(c, expires, commit)) && Sound(s)
    ensures Sound(DoRotate(s, c, expires, commit)) && Later(s.tokens, DoRotate(s, c, expires, commit).tokens)
  {
    hide SoundTokens, SoundCalls, Apart;
    var secret := s.calls[c].kind.secret.value;
    if !s.tokens[secret].Live() {
      MoveStaysSound(s, c, Cutting);
    } else if commit.RolledBack? {
      MoveStaysSound(s, c, Done(Failed));
    } else {
      var tokens := Rotated(s.tokens, secret, expires);
      var mid := s.(tokens := tokens);
      RotatedStaysSound(s.tokens, secret, expires);
      LaterKeepsCalls(s, tokens);
      if commit.Committed? {
        NewTokenIsNobodys(s, tokens);
        HandOutStaysSound(mid, c);
        assert DoRotate(s, c, expires, commit) == Move(mid, c, Done(Session(|tokens| - 1)));
      } else {
        MoveStaysSound(mid, c, Done(Failed));
        assert DoRotate(s, c, expires, commit) == Move(mid, c, Done(Failed));
      }
    }
  }

  lemma OpenStaysSound(s: State, c: nat, now: int, expires: int, commit: Commit)
    requires CanDo(s, Open(c, now, expires, commit)) && Sound(s)
    ensures Sound(DoOpen(s, c, now, expires, commit)) && Later(s.tokens, DoOpen(s, c, now, expires, commit).tokens)
  {
    hide SoundTokens, SoundCalls, Apart;
    var user := s.calls[c].kind.user;
    if commit.RolledBack? || !References(Sweep(s.tokens, user, now)) {
      MoveStaysSound(s, c, Done(Failed));
    } else {
      var tokens := Opened(s.tokens, user, now, expires);
      var mid := s.(tokens := tokens);
      OpenedStaysSound(s.tokens, user, now, expires);
      LaterKeepsCalls(s, tokens);
      if commit.Committed? {
        NewTokenIsNobodys(s, tokens);
        HandOutStaysSound(mid, c);
        assert DoOpen(s, c, now, expires, commit) == Move(mid, c, Done(Session(|tokens| - 1)));
      } else {
        MoveStaysSound(mid, c, Done(Failed));
        assert DoOpen(s, c, now, expires, commit) == Move(mid, c, Done(Failed));
      }
    }
  }

  lemma CutsStaySound(s: State, user: nat)
    requires Sound(s)
    ensures Sound(s.(tokens := CutAll(s.tokens, user))) && Later(s.tokens, CutAll(s.tokens, user))
  {
    CutStaysSound(s.tokens, user);
    LaterKeepsCalls(s, CutAll(s.tokens, user));
  }

  lemma EndStaysSound(s: State, token: nat)
    requires Sound(s) && token < |s.tokens|
    ensures Sound(s.(tokens := Ended(s.tokens, token))) && Later(s.tokens, Ended(s.tokens, token))
  {
    LaterKeepsCalls(s, Ended(s.tokens, token));
  }

  lemma NewCallStaysSound(s: State, call: Call)
    requires Sound(s) && SoundCall(s.tokens, call) && !call.step.Done?
    ensures Sound(s.(calls := s.calls + [call]))
  {
  }

  lemma UsersDoNotMatter(s: State, users: seq<User>)
    requires Sound(s)
    ensures Sound(s.(users := users))
  {
  }

  lemma StepStaysSound(s: State, a: Action)
    requires CanDo(s, a) && Sound(s)
    ensures Sound(Do(s, a)) && Later(s.tokens, Do(s, a).tokens)
  {
    hide SoundTokens, SoundCalls, Apart, DoRotate, DoOpen;
    match a
    case AddUser => UsersDoNotMatter(s, s.users + [User(0, false)]);
    case Present(secret) => NewCallStaysSound(s, Call(Refresh(secret), Presented));
    case Read(c, now) => MoveStaysSound(s, c, Decision(s, s.calls[c].kind.secret, now));
    case Rotate(c, expires, commit) => RotateStaysSound(s, c, expires, commit);
    case Cut(c, works) =>
      MoveStaysSound(s, c, Done(Refused));
      CutsStaySound(Move(s, c, Done(Refused)), s.tokens[s.calls[c].kind.secret.value].user);
    case GiveUp(c) => MoveStaysSound(s, c, Done(Failed));
    case Verify(user, _) => NewCallStaysSound(s, Call(Login(user), Verified));
    case Open(c, now, expires, commit) => OpenStaysSound(s, c, now, expires, commit);
    case Logout(token) => EndStaysSound(s, token);
    case Disable(user) =>
      CutsStaySound(s, user);
      UsersDoNotMatter(s.(tokens := CutAll(s.tokens, user)), s.users[user := s.users[user].(disabled := true)]);
    case SetPassword(user) =>
      CutsStaySound(s, user);
      UsersDoNotMatter(s.(tokens := CutAll(s.tokens, user)), Do(s, a).users);
  }

  // ---------------------------------------------------------------- runs

  ghost predicate IsRun(states: seq<State>, actions: seq<Action>) {
    && |states| == |actions| + 1
    && states[0] == State([], [], [])
    && forall i :: 0 <= i < |actions| ==> CanDo(states[i], actions[i]) && states[i + 1] == Do(states[i], actions[i])
  }

  lemma {:induction false} ReachableIsSound(states: seq<State>, actions: seq<Action>, i: nat)
    requires IsRun(states, actions) && i < |states|
    ensures Sound(states[i])
  {
    if i > 0 {
      ReachableIsSound(states, actions, i - 1);
      StepStaysSound(states[i - 1], actions[i - 1]);
    }
  }

  lemma LaterIsReflexive(tokens: seq<Token>)
    ensures Later(tokens, tokens)
  {
  }

  lemma LaterIsTransitive(a: seq<Token>, b: seq<Token>, c: seq<Token>)
    requires Later(a, b) && Later(b, c)
    ensures Later(a, c)
  {
    forall i | 0 <= i < |a| ensures LaterRow(a[i], c[i]) {
      assert LaterRow(a[i], b[i]) && LaterRow(b[i], c[i]);
    }
  }

  /** In every reachable state a login's chain has at most one token that still works. */
  lemma OneLiveTokenPerLogin(states: seq<State>, actions: seq<Action>, i: nat, t: nat, u: nat)
    requires IsRun(states, actions) && i < |states| && t < |states[i].tokens| && u < |states[i].tokens|
    requires !states[i].tokens[t].revoked && !states[i].tokens[u].revoked
    requires states[i].tokens[t].login == states[i].tokens[u].login
    ensures t == u
  {
    ReachableIsSound(states, actions, i);
  }

  /** A token's replacement, once there, is there for good: it is rotated at most once. */
  lemma {:induction false} RotatedAtMostOnce(states: seq<State>, actions: seq<Action>, i: nat, j: nat)
    requires IsRun(states, actions) && i <= j < |states|
    ensures Later(states[i].tokens, states[j].tokens)
    decreases j
  {
    hide Do, CanDo, Sound;
    if i < j {
      RotatedAtMostOnce(states, actions, i, j - 1);
      ReachableIsSound(states, actions, j - 1);
      StepStaysSound(states[j - 1], actions[j - 1]);
      LaterIsTransitive(states[i].tokens, states[j - 1].tokens, states[j].tokens);
    }
  }

  /** Of all the refreshes that ever present one token, at most one gets a session. */
  lemma OneRefreshWins(states: seq<State>, actions: seq<Action>, i: nat, c: nat, d: nat, secret: nat, t: nat, u: nat)
    requires IsRun(states, actions) && i < |states| && c < |states[i].calls| && d < |states[i].calls|
    requires states[i].calls[c].kind == Refresh(Some(secret)) == states[i].calls[d].kind
    requires Got(states[i].calls[c], t) && Got(states[i].calls[d], u)
    ensures c == d
  {
    ReachableIsSound(states, actions, i);
    assert SoundCall(states[i].tokens, states[i].calls[c]) && SoundCall(states[i].tokens, states[i].calls[d]);
  }

  /** A refresh that is handed a session, or is about to rotate, once read its token in time,
      unused, and its owner welcome. */
  lemma {:induction false} ReadInTime(states: seq<State>, actions: seq<Action>, i: nat, c: nat, secret: nat)
    returns (j: nat, now: int)
    requires IsRun(states, actions) && i < |states| && c < |states[i].calls|
    requires states[i].calls[c].kind == Refresh(Some(secret))
    requires states[i].calls[c].step == Rotating || exists t: nat :: Got(states[i].calls[c], t)
    ensures j < i && actions[j] == Read(c, now) && secret < |states[j].tokens|
    ensures var t := states[j].tokens[secret];
            && !t.revoked && !t.swept && now < t.expires
            && t.user < |states[j].users| && !states[j].users[t.user].disabled
    decreases i
  {
    assert i > 0 && CanDo(states[i - 1], actions[i - 1]) && states[i] == Do(states[i - 1], actions[i - 1]);
    if actions[i - 1].Read? && actions[i - 1].c == c {
      j, now := i - 1, actions[i - 1].now;
    } else {
      BeforeThat(states[i - 1], actions[i - 1], c);
      hide Do, CanDo;
      j, now := ReadInTime(states, actions, i - 1, c, secret);
    }
  }

  /** A session comes from a rotation, and nothing but a read makes a refresh rotate. */
  lemma BeforeThat(s: State, a: Action, c: nat)
    requires CanDo(s, a) && !(a.Read? && a.c == c)
    requires c < |Do(s, a).calls| && Do(s, a).calls[c].kind.Refresh?
    requires Do(s, a).calls[c].step == Rotating || exists t: nat :: Got(Do(s, a).calls[c], t)
    ensures c < |s.calls| && s.calls[c].kind == Do(s, a).calls[c].kind
    ensures s.calls[c].step == Rotating || exists t: nat :: Got(s.calls[c], t)
  {
    if c < |s.calls| && s.calls[c] == Do(s, a).calls[c] && s.calls[c].step != Rotating {
      var t: nat :| Got(Do(s, a).calls[c], t);
      assert Got(s.calls[c], t);
    }
  }

  /** Once a token is revoked or swept, no refresh that presents it gets a session any more. */
  lemma {:induction false} DeadForGood(
      states: seq<State>, actions: seq<Action>, i: nat, j: nat, secret: nat, c: nat, t: nat)
    requires IsRun(states, actions) && i <= j < |states| && secret < |states[i].tokens|
    requires states[i].tokens[secret].revoked || states[i].tokens[secret].swept
    requires c < |states[j].calls| && states[j].calls[c].kind == Refresh(Some(secret)) && Got(states[j].calls[c], t)
    ensures c < |states[i].calls| && Got(states[i].calls[c], t)
    decreases j
  {
    hide Do, CanDo;
    if i < j {
      RotatedAtMostOnce(states, actions, i, j - 1);
      assert LaterRow(states[i].tokens[secret], states[j - 1].tokens[secret]);
      assert CanDo(states[j - 1], actions[j - 1]) && states[j - 1 + 1] == Do(states[j - 1], actions[j - 1]);
      DeadStep(states[j - 1], actions[j - 1], secret, c, t);
      DeadForGood(states, actions, i, j - 1, secret, c, t);
    }
  }

  lemma DeadStep(s: State, a: Action, secret: nat, c: nat, t: nat)
    requires CanDo(s, a) && secret < |s.tokens| && (s.tokens[secret].revoked || s.tokens[secret].swept)
    requires c < |Do(s, a).calls| && Do(s, a).calls[c].kind == Refresh(Some(secret)) && Got(Do(s, a).calls[c], t)
    ensures c < |s.calls| && s.calls[c].kind == Refresh(Some(secret)) && Got(s.calls[c], t)
  {
  }

  /** A logout ends its token, for good. */
  lemma LogoutEnds(states: seq<State>, actions: seq<Action>, i: nat, j: nat, token: nat, c: nat, t: nat)
    requires IsRun(states, actions) && i < |actions| && i < j < |states| && actions[i] == Logout(token)
    requires c < |states[j].calls| && states[j].calls[c].kind == Refresh(Some(token)) && Got(states[j].calls[c], t)
    ensures c < |states[i].calls| && Got(states[i].calls[c], t)
  {
    assert CanDo(states[i], actions[i]) && states[i + 1] == Do(states[i], actions[i]);
    DeadForGood(states, actions, i + 1, j, token, c, t);
  }

  // ---------------------------------------------------------------- ending sessions

  /** Every token the user got by the time there were n is dead. */
  ghost predicate NoneLeft(tokens: seq<Token>, user: nat, n: nat) {
    forall i :: 0 <= i < |tokens| && tokens[i].user == user && tokens[i].login < n ==> !tokens[i].Live()
  }

  lemma LaterKeepsNoneLeft(was: seq<Token>, tokens: seq<Token>, user: nat, n: nat)
    requires NoneLeft(was, user, n) && Later(was, tokens)
    requires forall i :: |was| <= i < |tokens| && tokens[i].user == user ==> tokens[i].login >= n
    ensures NoneLeft(tokens, user, n)
  {
    forall i | 0 <= i < |tokens| && tokens[i].user == user && tokens[i].login < n ensures !tokens[i].Live() {
      assert LaterRow(was[i], tokens[i]);
    }
  }

  lemma StepKeepsNoneLeft(s: State, a: Action, user: nat, n: nat)
    requires CanDo(s, a) && Sound(s) && n <= |s.tokens| && NoneLeft(s.tokens, user, n)
    ensures NoneLeft(Do(s, a).tokens, user, n)
  {
    StepStaysSound(s, a);
    hide Sound, Later;
    LaterKeepsNoneLeft(s.tokens, Do(s, a).tokens, user, n);
  }

  /** The step that ends a user's sessions: a reuse seen, a disabling or a new password. */
  ghost predicate Ends(s: State, a: Action, user: nat) {
    match a
    case Cut(c, works) => works && CanDo(s, a) && s.tokens[s.calls[c].kind.secret.value].user == user
    case Disable(u) => u == user && CanDo(s, a) && !s.users[u].disabled
    case SetPassword(u) => u == user && CanDo(s, a)
    case _ => false
  }

  lemma EndsAll(s: State, a: Action, user: nat)
    requires Ends(s, a, user)
    ensures CanDo(s, a) && NoneLeft(Do(s, a).tokens, user, |s.tokens|)
  {
    assert Do(s, a).tokens == CutAll(s.tokens, user);
  }

  /** From then on no token from before works again, nor any it might have been rotated
      into: whatever works later was opened by a login that committed later. */
  lemma {:induction false} SessionsEndForGood(states: seq<State>, actions: seq<Action>, i: nat, j: nat, user: nat)
    requires IsRun(states, actions) && i < j < |states| && Ends(states[i], actions[i], user)
    ensures |states[i].tokens| <= |states[j].tokens|
    ensures NoneLeft(states[j].tokens, user, |states[i].tokens|)
    decreases j
  {
    hide Do, Sound, LaterRow, NoneLeft;
    var n := |states[i].tokens|;
    RotatedAtMostOnce(states, actions, i, j);
    if j > i + 1 {
      SessionsEndForGood(states, actions, i, j - 1, user);
      RotatedAtMostOnce(states, actions, i, j - 1);
      ReachableIsSound(states, actions, j - 1);
      StepKeepsNoneLeft(states[j - 1], actions[j - 1], user, n);
    } else {
      EndsAll(states[i], actions[i], user);
    }
  }

  // ---------------------------------------------------------------- logins under way

  /** A login has checked its password, or is over. */
  ghost predicate LoginsVerified(s: State) {
    forall c :: 0 <= c < |s.calls| && s.calls[c].kind.Login? ==> s.calls[c].step.Verified? || s.calls[c].step.Done?
  }

  /** The foreign key holds, and every replacement is a row. */
  ghost predicate Intact(tokens: seq<Token>) {
    && References(tokens)
    && forall i :: 0 <= i < |tokens| && tokens[i].replacedBy.Some? ==> tokens[i].replacedBy.value < |tokens|
  }

  lemma SweptStaysIntact(tokens: seq<Token>, user: nat, now: int)
    requires Intact(tokens) && References(Sweep(tokens, user, now))
    ensures Intact(Sweep(tokens, user, now))
  {
  }

  lemma OpenedStaysIntact(tokens: seq<Token>, user: nat, now: int, expires: int)
    requires Intact(tokens) && References(Sweep(tokens, user, now))
    ensures Intact(Opened(tokens, user, now, expires))
  {
    SweptStaysIntact(tokens, user, now);
    hide Sweep;
  }

  lemma RotatedStaysIntact(tokens: seq<Token>, presented: nat, expires: int)
    requires presented < |tokens| && tokens[presented].Live() && Intact(tokens)
    ensures Intact(Rotated(tokens, presented, expires))
  {
  }

  lemma RevokedStaysIntact(was: seq<Token>, tokens: seq<Token>)
    requires Intact(was) && |tokens| == |was|
    requires forall i :: 0 <= i < |was| ==> tokens[i].swept == was[i].swept && tokens[i].replacedBy == was[i].replacedBy
    ensures Intact(tokens)
  {
  }

  lemma StepStaysIntact(s: State, a: Action)
    requires CanDo(s, a) && Intact(s.tokens)
    ensures Intact(Do(s, a).tokens)
  {
    hide Intact;
    match a
    case Rotate(c, expires, _) =>
      var secret := s.calls[c].kind.secret.value;
      if s.tokens[secret].Live() {
        RotatedStaysIntact(s.tokens, secret, expires);
      }
    case Open(c, now, expires, _) =>
      if References(Sweep(s.tokens, s.calls[c].kind.user, now)) {
        OpenedStaysIntact(s.tokens, s.calls[c].kind.user, now, expires);
      }
    case _ => RevokedStaysIntact(s.tokens, Do(s, a).tokens);
  }

  /** A call never becomes another, and one that is over stays as it ended. */
  ghost predicate CallsGoOn(s: State, next: State) {
    && |s.calls| <= |next.calls|
    && forall c :: 0 <= c < |s.calls| ==>
         next.calls[c].kind == s.calls[c].kind && (s.calls[c].step.Done? ==> next.calls[c] == s.calls[c])
  }

  lemma StepMovesCallsOn(s: State, a: Action)
    requires CanDo(s, a)
    ensures CallsGoOn(s, Do(s, a))
    ensures LoginsVerified(s) ==> LoginsVerified(Do(s, a))
  {
  }

  lemma {:induction false} ReachableLogins(states: seq<State>, actions: seq<Action>, i: nat)
    requires IsRun(states, actions) && i < |states|
    ensures LoginsVerified(states[i]) && Intact(states[i].tokens)
  {
    hide Do, CanDo, LoginsVerified;
    if i > 0 {
      ReachableLogins(states, actions, i - 1);
      StepMovesCallsOn(states[i - 1], actions[i - 1]);
      StepStaysIntact(states[i - 1], actions[i - 1]);
    } else {
      NoLogins(states[0]);
    }
  }

  lemma NoLogins(s: State)
    requires s.calls == []
    ensures LoginsVerified(s)
  {
  }

  /** One way things may go on from a state. */
  ghost predicate GoesOn(from: State, states: seq<State>, actions: seq<Action>) {
    && |states| == |actions| + 1
    && states[0] == from
    && forall i :: 0 <= i < |actions| ==> CanDo(states[i], actions[i]) && states[i + 1] == Do(states[i], actions[i])
  }

  lemma {:induction false} CallsGoOnAll(from: State, states: seq<State>, actions: seq<Action>, i: nat)
    requires GoesOn(from, states, actions) && i < |states|
    ensures CallsGoOn(from, states[i])
  {
    hide Do, CanDo;
    if i > 0 {
      CallsGoOnAll(from, states, actions, i - 1);
      StepMovesCallsOn(states[i - 1], actions[i - 1]);
    }
  }

  /** A call that was there before, for this user's login, is handed a session that works. */
  ghost predicate LetIn(s: State, last: State, user: nat, c: nat) {
    && c < |s.calls| && s.calls[c].kind == Login(user) && c < |last.calls|
    && last.calls[c].step.Done? && last.calls[c] != s.calls[c]
    && last.calls[c].step.result.Session? && last.calls[c].step.result.token < |last.tokens|
    && var t := last.tokens[last.calls[c].step.result.token]; t.user == user && t.Live()
  }

  ghost predicate MayLetIn(s: State, from: State, user: nat, c: nat) {
    exists states, actions :: GoesOn(from, states, actions) && LetIn(s, states[|actions|], user, c)
  }

  /** The time at which the oldest token is still good. */
  lemma {:induction false} Earliest(tokens: seq<Token>) returns (now: int)
    ensures forall i :: 0 <= i < |tokens| ==> now <= tokens[i].expires
  {
    now := 0;
    for i := 0 to |tokens|
      invariant forall j :: 0 <= j < i ==> now <= tokens[j].expires
    {
      now := if tokens[i].expires < now then tokens[i].expires else now;
    }
  }

  /** A login that had checked the old password can still open a session after the change:
      it outlives the step meant to end them all. */
  lemma LoginOutrunsPasswordChange(s: State, from: State, user: nat, c: nat)
    requires c < |s.calls| && s.calls[c] == Call(Login(user), Verified) && from.calls == s.calls
    requires References(from.tokens)
    ensures MayLetIn(s, from, user, c)
  {
    var now := Earliest(from.tokens);
    assert Sweep(from.tokens, user, now) == from.tokens;
    var a := Open(c, now, now, Committed);
    var last := Do(from, a);
    assert GoesOn(from, [from, last], [a]);
    assert LetIn(s, [from, last][|[a]|], user, c);
  }

  /** What a new password or a disabling does not lock out, exactly: a login that was there
      may yet be handed a session that works iff its password had been checked and it had
      not been answered. */
  lemma LocksOutIff(states: seq<State>, actions: seq<Action>, i: nat, user: nat, c: nat)
    requires IsRun(states, actions) && i < |actions|
    requires actions[i] == SetPassword(user) || actions[i] == Disable(user)
    ensures MayLetIn(states[i], states[i + 1], user, c)
            <==> c < |states[i].calls| && states[i].calls[c] == Call(Login(user), Verified)
  {
    var s, from := states[i], states[i + 1];
    ReachableLogins(states, actions, i);
    ReachableLogins(states, actions, i + 1);
    assert from == Do(s, actions[i]) && from.calls == s.calls;
    if MayLetIn(s, from, user, c) {
      var more: seq<State>, taken: seq<Action> :| GoesOn(from, more, taken) && LetIn(s, more[|taken|], user, c);
      CallsGoOnAll(from, more, taken, |taken|);
      assert more[|taken|].calls[c].kind == from.calls[c].kind;
    }
    if c < |s.calls| && s.calls[c] == Call(Login(user), Verified) {
      LoginOutrunsPasswordChange(s, from, user, c);
    }
  }

  lemma {:induction false} UsersGoOn(states: seq<State>, actions: seq<Action>, i: nat, j: nat, user: nat)
    requires IsRun(states, actions) && i <= j < |states| && user < |states[i].users|
    ensures user < |states[j].users|
    ensures states[j].users[user].password >= states[i].users[user].password
    ensures states[i].users[user].disabled ==> states[j].users[user].disabled
    decreases j
  {
    if i < j {
      UsersGoOn(states, actions, i, j - 1, user);
      assert states[j] == Do(states[j - 1], actions[j - 1]);
    }
  }

  /** And of the logins that come later: none gets past its check with a password from
      before the change, nor does one of a disabled person's at all. */
  lemma LaterLoginsAreChecked(states: seq<State>, actions: seq<Action>, i: nat, j: nat, user: nat, password: nat)
    requires IsRun(states, actions) && i < j < |actions| && actions[j] == Verify(user, password)
    ensures actions[i] != Disable(user)
    ensures actions[i] == SetPassword(user) && CanDo(states[i], actions[i]) ==>
              password > states[i].users[user].password
  {
    assert CanDo(states[j], actions[j]);
    if actions[i] == SetPassword(user) || actions[i] == Disable(user) {
      assert CanDo(states[i], actions[i]) && states[i + 1] == Do(states[i], actions[i]);
      UsersGoOn(states, actions, i + 1, j, user);
    }
  }

  // ---------------------------------------------------------------- disabled users

  /** A disabled user's tokens are dead to every refresh that got as far as rotating. */
  ghost predicate LockedOut(s: State, user: nat) {
    && user < |s.users| && s.users[user].disabled
    && forall c :: 0 <= c < |s.calls| ==> !Owns(s, s.calls[c], user)
  }

  /** The call is about to rotate a live token of the user's. */
  ghost predicate Owns(s: State, call: Call, user: nat) {
    && call.step.Rotating? && call.kind.Refresh? && call.kind.secret.Some? && call.kind.secret.value < |s.tokens|
    && s.tokens[call.kind.secret.value].user == user && s.tokens[call.kind.secret.value].Live()
  }

  lemma StepKeepsLockedOut(s: State, a: Action, user: nat)
    requires CanDo(s, a) && Sound(s) && LockedOut(s, user)
    ensures LockedOut(Do(s, a), user)
  {
    StepStaysSound(s, a);
    var next := Do(s, a);
    forall c | 0 <= c < |next.calls| ensures !Owns(next, next.calls[c], user) {
      if c < |s.calls| {
        assert !Owns(s, s.calls[c], user) && SoundCall(s.tokens, s.calls[c]);
        if s.calls[c].kind.Refresh? && s.calls[c].kind.secret.Some? {
          assert LaterRow(s.tokens[s.calls[c].kind.secret.value], next.tokens[s.calls[c].kind.secret.value]);
        }
      }
    }
  }

  lemma NoSessionWhenLockedOut(s: State, a: Action, user: nat, c: nat, t: nat)
    requires CanDo(s, a) && Sound(s) && LockedOut(s, user)
    requires c < |Do(s, a).calls| && Do(s, a).calls[c].kind.Refresh? && Got(Do(s, a).calls[c], t)
    requires t < |Do(s, a).tokens| && Do(s, a).tokens[t].user == user
    ensures c < |s.calls| && s.calls[c].kind == Do(s, a).calls[c].kind && Got(s.calls[c], t)
  {
    assert c < |s.calls| ==> !Owns(s, s.calls[c], user);
  }

  /** Once someone is disabled no refresh gives them a session any more, whatever it had
      read before, and whatever tokens logins already under way still open. */
  lemma {:induction false} DisabledCannotRefresh(
      states: seq<State>, actions: seq<Action>, i: nat, j: nat, user: nat, c: nat, t: nat)
    requires IsRun(states, actions) && i < j < |states|
    requires actions[i] == Disable(user) && CanDo(states[i], actions[i]) && !states[i].users[user].disabled
    requires c < |states[j].calls| && states[j].calls[c].kind.Refresh? && Got(states[j].calls[c], t)
    requires t < |states[j].tokens| && states[j].tokens[t].user == user
    ensures c < |states[i].calls| && Got(states[i].calls[c], t)
    decreases j
  {
    hide Sound, LockedOut;
    if j > i + 1 {
      StaysLockedOut(states, actions, i, j - 1, user);
      ReachableIsSound(states, actions, j - 1);
      LockedOutStep(states[j - 1], actions[j - 1], user, c, t);
      DisabledCannotRefresh(states, actions, i, j - 1, user, c, t);
    }
  }

  lemma LockedOutStep(s: State, a: Action, user: nat, c: nat, t: nat)
    requires CanDo(s, a) && Sound(s) && LockedOut(s, user)
    requires c < |Do(s, a).calls| && Do(s, a).calls[c].kind.Refresh? && Got(Do(s, a).calls[c], t)
    requires t < |Do(s, a).tokens| && Do(s, a).tokens[t].user == user
    ensures c < |s.calls| && s.calls[c].kind.Refresh? && Got(s.calls[c], t)
    ensures t < |s.tokens| && s.tokens[t].user == user
  {
    NoSessionWhenLockedOut(s, a, user, c, t);
    StepStaysSound(s, a);
    hide Do;
    assert SoundCall(s.tokens, s.calls[c]);
    assert LaterRow(s.tokens[t], Do(s, a).tokens[t]);
  }

  lemma {:induction false} StaysLockedOut(states: seq<State>, actions: seq<Action>, i: nat, j: nat, user: nat)
    requires IsRun(states, actions) && i < j < |states|
    requires actions[i] == Disable(user) && CanDo(states[i], actions[i]) && !states[i].users[user].disabled
    ensures LockedOut(states[j], user)
    ensures j > i + 1 ==> LockedOut(states[j - 1], user)
    decreases j
  {
    if j > i + 1 {
      StaysLockedOut(states, actions, i, j - 1, user);
      ReachableIsSound(states, actions, j - 1);
      StepKeepsLockedOut(states[j - 1], actions[j - 1], user);
    } else {
      assert states[j] == Do(states[i], Disable(user));
    }
  }

  // ---------------------------------------------------------------- logins and the foreign key

  /** Every replacement is a row, one that is there while the row replaced is, and lasts as long. */
  ghost predicate Linked(tokens: seq<Token>) {
    && (forall i :: 0 <= i < |tokens| && tokens[i].replacedBy.Some? ==> tokens[i].replacedBy.value < |tokens|)
    && References(tokens) && LastsLonger(tokens)
  }

  /** A refresh does not shorten a token's life, as with one lifetime for all and a clock
      that does not go back. */
  ghost predicate Lengthens(s: State, a: Action) {
    a.Rotate? && CanDo(s, a) ==> s.tokens[s.calls[a.c].kind.secret.value].expires <= a.expires
  }

  lemma RotatedStaysLinked(tokens: seq<Token>, presented: nat, expires: int)
    requires presented < |tokens| && tokens[presented].Live() && Linked(tokens)
    requires tokens[presented].expires <= expires
    ensures Linked(Rotated(tokens, presented, expires))
  {
  }

  lemma OpenedStaysLinked(tokens: seq<Token>, user: nat, now: int, expires: int)
    requires Linked(tokens)
    ensures References(Sweep(tokens, user, now)) && Linked(Opened(tokens, user, now, expires))
  {
    SweepKeepsReferences(tokens, user, now);
    var swept := Sweep(tokens, user, now);
    assert Linked(swept);
  }

  lemma StepStaysLinked(s: State, a: Action)
    requires CanDo(s, a) && Linked(s.tokens) && Lengthens(s, a)
    ensures Linked(Do(s, a).tokens)
  {
    match a
    case Rotate(c, expires, _) =>
      var secret := s.calls[c].kind.secret.value;
      if s.tokens[secret].Live() {
        RotatedStaysLinked(s.tokens, secret, expires);
      }
    case Open(c, now, expires, _) => OpenedStaysLinked(s.tokens, s.calls[c].kind.user, now, expires);
    case _ =>
  }

  lemma {:induction false} ReachableIsLinked(states: seq<State>, actions: seq<Action>, i: nat)
    requires IsRun(states, actions) && i < |states|
    requires forall j :: 0 <= j < |actions| ==> Lengthens(states[j], actions[j])
    ensures Linked(states[i].tokens)
  {
    hide Do, Linked;
    if i == 0 {
      NothingIsLinked();
    } else {
      ReachableIsLinked(states, actions, i - 1);
      StepStaysLinked(states[i - 1], actions[i - 1]);
    }
  }

  lemma NothingIsLinked()
    ensures Linked([])
  {
  }

  /** As long as no refresh shortens a token's life, no login is ever refused over the rows
      its sweep deletes: every one whose transaction commits opens a session. */
  lemma SweepNeverStopsALogin(states: seq<State>, actions: seq<Action>, i: nat, c: nat, now: int, expires: int)
    requires IsRun(states, actions) && i < |actions|
    requires forall j :: 0 <= j < |actions| ==> Lengthens(states[j], actions[j])
    requires actions[i] == Open(c, now, expires, Committed)
    ensures c < |states[i + 1].calls| && Got(states[i + 1].calls[c], |states[i].tokens|)
  {
    ReachableIsLinked(states, actions, i);
    var s := states[i];
    assert CanDo(s, actions[i]) && states[i + 1] == Do(s, actions[i]);
    OpenedStaysLinked(s.tokens, s.calls[c].kind.user, now, expires);
  }
}
