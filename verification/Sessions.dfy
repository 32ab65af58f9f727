/**
 * Refresh-token families: login, rotation on the bearer and the browser path, logout,
 * and revocation by user, over a session store whose calls may fail.
 *
 * Each request is one atomic step.  Tokens and families are fresh numbers, which
 * stands for random tokens and collision-free hashes.
 */
module Sessions {
  import opened Common

  type Token = nat
  type Family = nat

  datatype Session = Session(user: string, family: Family, expiresAt: int, revoked: bool)

  datatype State = State(sessions: map<Token, Session>, nextToken: Token, nextFamily: Family)

  /** Which store or token calls of a request fail. */
  datatype Faults = Faults(get: bool, revoke: bool, user: bool, generate: bool, create: bool, csrf: bool)

  /** `Issue` is a login by any path, or a switch of organization. */
  datatype Request =
    | Issue(user: string, expiresAt: int, faults: Faults)
    | RefreshBearer(token: Token, now: int, expiresAt: int, active: bool, faults: Faults)
    | RefreshBrowser(token: Token, now: int, expiresAt: int, active: bool, faults: Faults)
    | Logout(token: Token, faults: Faults)
    | RevokeUser(user: string, faults: Faults)
    | DeleteExpired(now: int)

  /** Revocation is one statement: all sessions of the family, or on failure none. */
  function FamilyRevoked(s: State, family: Family): State {
    s.(sessions := map t | t in s.sessions ::
         if s.sessions[t].family == family then s.sessions[t].(revoked := true) else s.sessions[t])
  }

  function UserRevoked(s: State, user: string): State {
    s.(sessions := map t | t in s.sessions ::
         if s.sessions[t].user == user then s.sessions[t].(revoked := true) else s.sessions[t])
  }

  function Created(s: State, user: string, family: Family, expiresAt: int): State {
    s.(sessions := s.sessions[s.nextToken := Session(user, family, expiresAt, false)], nextToken := s.nextToken + 1)
  }

  function Issued(s: State, user: string, expiresAt: int, f: Faults): State {
    if f.generate then s
    else
      var drawn := s.(nextFamily := s.nextFamily + 1);
      if f.create then drawn.(nextToken := s.nextToken + 1) else Created(drawn, user, s.nextFamily, expiresAt)
  }

  /** The session of a token that may be rotated now. */
  predicate Usable(s: State, token: Token, now: int) {
    token in s.sessions && !s.sessions[token].revoked && now < s.sessions[token].expiresAt
  }

  /** The token was rotated and the caller got a new one. */
  predicate Redeems(s: State, r: Request) {
    match r
    case RefreshBearer(token, now, _, active, f) =>
      !f.get && Usable(s, token, now) && !f.user && active && !f.revoke && !f.generate && !f.create
    case RefreshBrowser(token, now, _, active, f) =>
      !f.get && Usable(s, token, now) && !f.revoke && !f.user && active && !f.generate && !f.create && !f.csrf
    case _ => false
  }

  function After(s: State, r: Request): State {
    match r
    case Issue(user, expiresAt, f) => Issued(s, user, expiresAt, f)
    case RefreshBearer(token, now, expiresAt, active, f) =>
      if f.get || token !in s.sessions || f.revoke then s
      else
        var session := s.sessions[token];
        var revoked := FamilyRevoked(s, session.family);
        if !Usable(s, token, now) || f.user || !active || f.generate then revoked
        else if f.create then revoked.(nextToken := s.nextToken + 1)
        else Created(revoked, session.user, session.family, expiresAt)
    case RefreshBrowser(token, now, expiresAt, active, f) =>
      if f.get || !Usable(s, token, now) || f.revoke then s
      else
        var session := s.sessions[token];
        var revoked := FamilyRevoked(s, session.family);
        if f.user || !active then revoked else Issued(revoked, session.user, expiresAt, f)
    case Logout(token, f) =>
      if f.get || token !in s.sessions || f.revoke then s else FamilyRevoked(s, s.sessions[token].family)
    case RevokeUser(user, f) => if f.revoke then s else UserRevoked(s, user)
    case DeleteExpired(now) =>
      s.(sessions := map t | t in s.sessions && s.sessions[t].expiresAt >= now :: s.sessions[t])
  }

  // ---------------------------------------------------------------------
  // The program
  // ---------------------------------------------------------------------

  class AuthService {
    var sessions: map<Token, Session>
    var nextToken: Token
    var nextFamily: Family

    function Model(): State
      reads this
    {
      State(sessions, nextToken, nextFamily)
    }

    constructor ()
      ensures Model() == State(map[], 0, 0)
    {
      sessions, nextToken, nextFamily := map[], 0, 0;
    }

    method RevokeFamily(family: Family, fails: bool) returns (ok: bool)
      modifies this`sessions
      ensures ok == !fails
      ensures Model() == if ok then FamilyRevoked(old(Model()), family) else old(Model())
    {
      if fails {
        return false;
      }
      sessions := map t | t in sessions ::
        if sessions[t].family == family then sessions[t].(revoked := true) else sessions[t];
      return true;
    }

    /** A new session in a new family. */
    method IssueSession(user: string, expiresAt: int, f: Faults) returns (token: Option<Token>)
      modifies this
      ensures Model() == Issued(old(Model()), user, expiresAt, f)
      ensures token == if f.generate || f.create || f.csrf then None else Some(old(nextToken))
    {
      if f.generate {
        return None;
      }
      var next, family := nextToken, nextFamily;
      nextToken, nextFamily := nextToken + 1, nextFamily + 1;
      if f.create {
        return None;
      }
      sessions := sessions[next := Session(user, family, expiresAt, false)];
      return if f.csrf then None else Some(next);
    }

    /** Look up the session for rotation; anything wrong with it revokes its family. */
    method SessionForRotation(token: Token, now: int, active: bool, f: Faults) returns (session: Option<Session>)
      modifies this`sessions
      ensures session.Some? <==> !f.get && Usable(old(Model()), token, now) && !f.user && active
      ensures session.Some? ==> session.value == old(sessions)[token] && Model() == old(Model())
      ensures session.None? ==>
                Model() == if f.get || token !in old(sessions) || f.revoke then old(Model())
                           else FamilyRevoked(old(Model()), old(sessions)[token].family)
    {
      if f.get || token !in sessions {
        return None;
      }
      var found := sessions[token];
      if found.revoked {
        var _ := RevokeFamily(found.family, f.revoke);
        return None;
      }
      if !(now < found.expiresAt) {
        var _ := RevokeFamily(found.family, f.revoke);
        return None;
      }
      if !f.user && active {
        return Some(found);
      }
      var _ := RevokeFamily(found.family, f.revoke);
      return None;
    }

    method RefreshToken(token: Token, now: int, expiresAt: int, active: bool, f: Faults) returns (issued: Option<Token>)
      modifies this
      ensures Model() == After(old(Model()), RefreshBearer(token, now, expiresAt, active, f))
      ensures issued.Some? <==> Redeems(old(Model()), RefreshBearer(token, now, expiresAt, active, f))
      ensures issued.Some? ==> issued.value == old(nextToken)
    {
      var session := SessionForRotation(token, now, active, f);
      if session.None? {
        return None;
      }
      var revoked := RevokeFamily(session.value.family, f.revoke);
      if !revoked || f.generate {
        return None;
      }
      var t := nextToken;
      nextToken := nextToken + 1;
      if f.create {
        return None;
      }
      sessions := sessions[t := Session(session.value.user, session.value.family, expiresAt, false)];
      return Some(t);
    }

    method RefreshBrowserSession(token: Token, now: int, expiresAt: int, active: bool, f: Faults)
      returns (issued: Option<Token>)
      modifies this
      ensures Model() == After(old(Model()), RefreshBrowser(token, now, expiresAt, active, f))
      ensures issued.Some? <==> Redeems(old(Model()), RefreshBrowser(token, now, expiresAt, active, f))
      ensures issued.Some? ==> issued.value == old(nextToken)
    {
      if f.get || token !in sessions {
        return None;
      }
      var session := sessions[token];
      if session.revoked || !(now < session.expiresAt) {
        return None;
      }
      var revoked := RevokeFamily(session.family, f.revoke);
      if !revoked {
        return None;
      }
      if f.user || !active {
        return None;
      }
      issued := IssueSession(session.user, expiresAt, f);
    }

    /** Logging out a token that is not known succeeds. */
    method LogoutToken(token: Token, f: Faults) returns (ok: bool)
      modifies this`sessions
      ensures Model() == After(old(Model()), Logout(token, f))
      ensures ok <==> !f.get && (token !in old(sessions) || !f.revoke)
    {
      if f.get {
        return false;
      }
      if token !in sessions {
        return true;
      }
      ok := RevokeFamily(sessions[token].family, f.revoke);
    }

    /** Logout by access token, and the end of a password change. */
    method RevokeByUser(user: string, f: Faults) returns (ok: bool)
      modifies this`sessions
      ensures Model() == After(old(Model()), RevokeUser(user, f)) && ok == !f.revoke
    {
      if f.revoke {
        return false;
      }
      sessions := map t | t in sessions ::
        if sessions[t].user == user then sessions[t].(revoked := true) else sessions[t];
      return true;
    }

    /** A new password counts only once all sessions of the user are revoked. */
    method ChangePassword(user: string, verified: bool, updateFails: bool, f: Faults) returns (ok: bool)
      modifies this`sessions
      ensures ok <==> verified && !updateFails && !f.revoke
      ensures Model() == if verified && !updateFails then After(old(Model()), RevokeUser(user, f)) else old(Model())
    {
      if !verified || updateFails {
        return false;
      }
      ok := RevokeByUser(user, f);
    }
  }

  // ---------------------------------------------------------------------
  // Safety of every run
  // ---------------------------------------------------------------------

  ghost predicate Live(s: State, t: Token) {
    t in s.sessions && !s.sessions[t].revoked
  }

  /** Tokens and families in use have been drawn. */
  ghost predicate Drawn(s: State) {
    forall t :: t in s.sessions ==> t < s.nextToken && s.sessions[t].family < s.nextFamily
  }

  /** At most one live session per family. */
  ghost predicate Single(s: State) {
    forall t, u :: Live(s, t) && Live(s, u) && s.sessions[t].family == s.sessions[u].family ==> t == u
  }

  ghost predicate Inv(s: State) {
    Drawn(s) && Single(s)
  }

  /** The family has been drawn and has no live session. */
  ghost predicate Dead(s: State, family: Family) {
    family < s.nextFamily && forall t :: Live(s, t) ==> s.sessions[t].family != family
  }

  /** The token has been drawn and can never be rotated again. */
  ghost predicate Spent(s: State, t: Token) {
    t < s.nextToken && !Live(s, t)
  }

  lemma FamilyRevokedKeepsInv(s: State, family: Family)
    requires Inv(s)
    ensures Inv(FamilyRevoked(s, family))
    ensures family < s.nextFamily ==> Dead(FamilyRevoked(s, family), family)
  {
    forall t | Live(FamilyRevoked(s, family), t) ensures Live(s, t) {
    }
  }

  /** A session may be added to a family that has no live one. */
  lemma CreatedKeepsInv(s: State, user: string, family: Family, expiresAt: int)
    requires Inv(s) && Dead(s, family)
    ensures Inv(Created(s, user, family, expiresAt))
  {
    var s' := Created(s, user, family, expiresAt);
    forall t | Live(s', t) ensures t == s.nextToken || (Live(s, t) && s'.sessions[t] == s.sessions[t]) {
    }
  }

  lemma IssuedKeepsInv(s: State, user: string, expiresAt: int, f: Faults)
    requires Inv(s)
    ensures Inv(Issued(s, user, expiresAt, f))
  {
    var drawn := s.(nextFamily := s.nextFamily + 1);
    assert forall t :: Live(drawn, t) <==> Live(s, t);
    CreatedKeepsInv(drawn, user, s.nextFamily, expiresAt);
  }

  lemma FewerLiveKeepsInv(s: State, s': State)
    requires Inv(s) && s'.nextToken >= s.nextToken && s'.nextFamily == s.nextFamily
    requires forall t :: t in s'.sessions ==> t in s.sessions && s'.sessions[t].family == s.sessions[t].family
    requires forall t :: Live(s', t) ==> Live(s, t)
    ensures Inv(s')
  {
  }

  lemma RequestKeepsInv(s: State, r: Request)
    requires Inv(s)
    ensures Inv(After(s, r))
  {
    match r
    case Issue(user, expiresAt, f) => IssuedKeepsInv(s, user, expiresAt, f);
    case RefreshBearer(token, now, expiresAt, active, f) =>
      if token in s.sessions {
        var session := s.sessions[token];
        var revoked := FamilyRevoked(s, session.family);
        FamilyRevokedKeepsInv(s, session.family);
        FewerLiveKeepsInv(revoked, revoked.(nextToken := s.nextToken + 1));
        CreatedKeepsInv(revoked, session.user, session.family, expiresAt);
      }
    case RefreshBrowser(token, now, expiresAt, active, f) =>
      if token in s.sessions {
        FamilyRevokedKeepsInv(s, s.sessions[token].family);
        IssuedKeepsInv(FamilyRevoked(s, s.sessions[token].family), s.sessions[token].user, expiresAt, f);
      }
    case Logout(token, f) =>
      if token in s.sessions {
        FamilyRevokedKeepsInv(s, s.sessions[token].family);
      }
    case RevokeUser(user, f) => FewerLiveKeepsInv(s, After(s, r));
    case DeleteExpired(now) => FewerLiveKeepsInv(s, After(s, r));
  }

  lemma DeadStaysDead(s: State, r: Request, family: Family)
    requires Drawn(s) && Dead(s, family)
    ensures Dead(After(s, r), family)
  {
  }

  lemma SpentStaysSpent(s: State, r: Request, t: Token)
    requires Drawn(s) && Spent(s, t)
    ensures Spent(After(s, r), t)
  {
  }

  ghost predicate TokenOf(r: Request, t: Token) {
    (r.RefreshBearer? || r.RefreshBrowser?) && r.token == t
  }

  lemma RedeemedIsSpent(s: State, r: Request, t: Token)
    requires Inv(s) && TokenOf(r, t) && Redeems(s, r)
    ensures Live(s, t) && Spent(After(s, r), t)
  {
  }

  ghost predicate Run(states: seq<State>, requests: seq<Request>) {
    && |states| == |requests| + 1 && states[0] == State(map[], 0, 0)
    && forall i :: 0 <= i < |requests| ==> states[i + 1] == After(states[i], requests[i])
  }

  lemma {:induction false} RunKeepsInv(states: seq<State>, requests: seq<Request>, i: nat)
    requires Run(states, requests) && i < |states|
    ensures Inv(states[i])
  {
    if i > 0 {
      RunKeepsInv(states, requests, i - 1);
      RequestKeepsInv(states[i - 1], requests[i - 1]);
    }
  }

  /** In every run each family has at most one live session. */
  lemma OneLiveSessionPerFamily(states: seq<State>, requests: seq<Request>, i: nat, t: Token, u: Token)
    requires Run(states, requests) && i < |states| && Live(states[i], t) && Live(states[i], u)
    requires states[i].sessions[t].family == states[i].sessions[u].family
    ensures t == u
  {
    RunKeepsInv(states, requests, i);
  }

  /** A family without a live session never gets one again. */
  lemma {:induction false} DeadForever(states: seq<State>, requests: seq<Request>, i: nat, j: nat, family: Family)
    requires Run(states, requests) && i <= j < |states| && Dead(states[i], family)
    ensures Dead(states[j], family)
  {
    if i < j {
      DeadForever(states, requests, i, j - 1, family);
      RunKeepsInv(states, requests, j - 1);
      DeadStaysDead(states[j - 1], requests[j - 1], family);
    }
  }

  lemma {:induction false} SpentForever(states: seq<State>, requests: seq<Request>, i: nat, j: nat, t: Token)
    requires Run(states, requests) && i <= j < |states| && Spent(states[i], t)
    ensures Spent(states[j], t)
  {
    if i < j {
      SpentForever(states, requests, i, j - 1, t);
      RunKeepsInv(states, requests, j - 1);
      SpentStaysSpent(states[j - 1], requests[j - 1], t);
    }
  }

  /** Every refresh token is redeemed at most once, on either path. */
  lemma RedeemedAtMostOnce(states: seq<State>, requests: seq<Request>, i: nat, j: nat, t: Token)
    requires Run(states, requests) && i < j < |requests|
    requires TokenOf(requests[i], t) && TokenOf(requests[j], t) && Redeems(states[i], requests[i])
    ensures !Redeems(states[j], requests[j])
  {
    RunKeepsInv(states, requests, i);
    RedeemedIsSpent(states[i], requests[i], t);
    SpentForever(states, requests, i + 1, j, t);
  }

  /** Whether anything went wrong on the way of a rotation. */
  ghost predicate Smooth(r: Request) {
    && (r.RefreshBearer? || r.RefreshBrowser?) && r.active
    && !r.faults.get && !r.faults.user && !r.faults.revoke && !r.faults.generate && !r.faults.create
    && (r.RefreshBrowser? ==> !r.faults.csrf)
  }

  /** A token is redeemed exactly when it is known, neither revoked nor expired, and nothing goes wrong. */
  lemma RedeemsIff(s: State, r: Request)
    ensures Redeems(s, r) <==>
            && Smooth(r) && r.token in s.sessions
            && !s.sessions[r.token].revoked && r.now < s.sessions[r.token].expiresAt
  {
  }

  /** The request revokes this session. */
  ghost predicate Revokes(s: State, r: Request, t: Session) {
    match r
    case Issue(_, _, _) => false
    case RefreshBearer(token, _, _, _, f) =>
      !f.get && token in s.sessions && !f.revoke && t.family == s.sessions[token].family
    case RefreshBrowser(token, now, _, _, f) =>
      && !f.get && token in s.sessions && !s.sessions[token].revoked && s.sessions[token].expiresAt > now
      && !f.revoke && t.family == s.sessions[token].family
    case Logout(token, f) => !f.get && token in s.sessions && !f.revoke && t.family == s.sessions[token].family
    case RevokeUser(user, f) => !f.revoke && t.user == user
    case DeleteExpired(_) => false
  }

  /** The session that the request opens: a bearer rotation stays in its family, all others start one. */
  ghost function Opens(s: State, r: Request): Option<Session> {
    match r
    case Issue(user, expiresAt, f) =>
      if f.generate || f.create then None else Some(Session(user, s.nextFamily, expiresAt, false))
    case RefreshBearer(token, _, expiresAt, _, f) =>
      if !f.user && Rotates(s, token, r) then
        Some(Session(s.sessions[token].user, s.sessions[token].family, expiresAt, false))
      else None
    case RefreshBrowser(token, _, expiresAt, _, f) =>
      if !f.user && Rotates(s, token, r) then Some(Session(s.sessions[token].user, s.nextFamily, expiresAt, false))
      else None
    case _ => None
  }

  ghost predicate Rotates(s: State, token: Token, r: Request)
    requires r.RefreshBearer? || r.RefreshBrowser?
  {
    && token in s.sessions && !s.sessions[token].revoked && s.sessions[token].expiresAt > r.now && r.active
    && !r.faults.get && !r.faults.revoke && !r.faults.generate && !r.faults.create
  }

  /**
   * What every request does, call failures included: it revokes those sessions, opens
   * that one under the next token, and changes no other session.
   */
  lemma RequestMeans(s: State, r: Request, t: Token)
    requires Inv(s) && !r.DeleteExpired?
    ensures var s' := After(s, r);
            && (t in s.sessions ==>
                  t in s'.sessions
                  && s'.sessions[t] == s.sessions[t].(revoked := s.sessions[t].revoked || Revokes(s, r, s.sessions[t])))
            && (t !in s.sessions ==>
                  (t in s'.sessions <==> Opens(s, r).Some? && t == s.nextToken)
                  && (t in s'.sessions ==> s'.sessions[t] == Opens(s, r).value))
  {
  }

  /** Deleting expired sessions is never noticed: what could be redeemed later still can. */
  lemma CleanupIsInvisible(s: State, now: int, r: Request)
    requires (r.RefreshBearer? || r.RefreshBrowser?) && r.now >= now
    ensures Redeems(After(s, DeleteExpired(now)), r) <==> Redeems(s, r)
    ensures forall t :: t in After(s, DeleteExpired(now)).sessions <==>
              t in s.sessions && !(s.sessions[t].expiresAt < now)
    ensures forall t :: t in After(s, DeleteExpired(now)).sessions ==>
              After(s, DeleteExpired(now)).sessions[t] == s.sessions[t]
  {
  }

  /** The session has been revoked, or its time is over. */
  ghost predicate IsOver(s: State, r: Request) {
    && (r.RefreshBearer? || r.RefreshBrowser?) && r.token in s.sessions
    && (s.sessions[r.token].revoked || r.now >= s.sessions[r.token].expiresAt)
  }

  /** On the browser path, presenting a token that is over changes nothing. */
  lemma OverChangesNothing(s: State, r: Request)
    requires r.RefreshBrowser? && IsOver(s, r)
    ensures After(s, r) == s
  {
  }

  lemma OverKillsFamily(s: State, r: Request)
    requires Inv(s) && r.RefreshBearer? && IsOver(s, r) && !r.faults.get && !r.faults.revoke
    ensures Dead(After(s, r), s.sessions[r.token].family)
  {
  }

  /** In every run, presenting an expired token on the bearer path ends its family for good, unless the store fails. */
  lemma ExpiryEndsTheFamily(states: seq<State>, requests: seq<Request>, i: nat, j: nat)
    requires Run(states, requests) && i < j < |states| && requests[i].RefreshBearer?
    requires var r, s := requests[i], states[i]; r.token in s.sessions && r.now >= s.sessions[r.token].expiresAt
    requires !requests[i].faults.get && !requests[i].faults.revoke
    ensures Dead(states[j], states[i].sessions[requests[i].token].family)
  {
    RunKeepsInv(states, requests, i);
    OverKillsFamily(states[i], requests[i]);
    DeadForever(states, requests, i + 1, j, states[i].sessions[requests[i].token].family);
  }

  lemma ReplayKillsFamily(s: State, token: Token, now: int, expiresAt: int, active: bool, f: Faults)
    requires Inv(s) && token in s.sessions && s.sessions[token].revoked && !f.get && !f.revoke
    ensures Dead(After(s, RefreshBearer(token, now, expiresAt, active, f)), s.sessions[token].family)
  {
  }

  /** In every run, presenting a revoked token on the bearer path ends its family for good, unless the store fails. */
  lemma ReplayEndsTheFamily(states: seq<State>, requests: seq<Request>, i: nat, j: nat)
    requires Run(states, requests) && i < j < |states| && requests[i].RefreshBearer?
    requires requests[i].token in states[i].sessions && states[i].sessions[requests[i].token].revoked
    requires !requests[i].faults.get && !requests[i].faults.revoke
    ensures Dead(states[j], states[i].sessions[requests[i].token].family)
  {
    var r := requests[i];
    RunKeepsInv(states, requests, i);
    ReplayKillsFamily(states[i], r.token, r.now, r.expiresAt, r.active, r.faults);
    DeadForever(states, requests, i + 1, j, states[i].sessions[r.token].family);
  }

  /**
   * In every run, after a revocation by user, as on logout or a password change, a
   * session of that user that is live later belongs to a token issued after it.
   */
  lemma RevokedUserStartsAfresh(states: seq<State>, requests: seq<Request>, i: nat, j: nat, t: Token)
    requires Run(states, requests) && i < j < |states| && requests[i].RevokeUser? && !requests[i].faults.revoke
    requires Live(states[j], t) && states[j].sessions[t].user == requests[i].user
    ensures t >= states[i].nextToken
  {
    if t < states[i].nextToken {
      var user := requests[i].user;
      if Live(states[i + 1], t) {
        UserIsKept(states, requests, i + 1, j, t);
      } else {
        SpentForever(states, requests, i + 1, j, t);
      }
    }
  }

  lemma RequestKeepsUser(s: State, r: Request, t: Token)
    requires Inv(s) && t < s.nextToken && t in After(s, r).sessions
    ensures t in s.sessions && After(s, r).sessions[t].user == s.sessions[t].user
  {
  }

  lemma {:induction false} UserIsKept(states: seq<State>, requests: seq<Request>, i: nat, j: nat, t: Token)
    requires Run(states, requests) && i <= j < |states| && t < states[i].nextToken && t in states[j].sessions
    ensures t in states[i].sessions && states[j].sessions[t].user == states[i].sessions[t].user
    decreases j - i
  {
    if i < j {
      RunKeepsInv(states, requests, i);
      assert states[i].nextToken <= states[i + 1].nextToken;
      UserIsKept(states, requests, i + 1, j, t);
      RequestKeepsUser(states[i], requests[i], t);
    }
  }
}
