/**
 * Rotation of refresh tokens call by call: the lookup, the revocation of the family
 * and the creation of the new session are steps of their own, and any other request
 * may run in between.
 *
 * The program neither locks a family nor checks at the creation that the family is
 * still its own, so what Sessions proves for atomic requests holds here only as far
 * as requests of one family do not overlap.  This module says exactly how far.
 */
module SessionRotation {
  import opened Sessions

  /** A rotation under way, by the browser or the bearer path: looked up, or revoked and about to create. */
  datatype Rotation =
    | Idle
    | Looked(token: Token, session: Session, browser: bool)
    | Revoked(token: Token, session: Session, browser: bool)

  datatype Machine = Machine(store: State, threads: map<nat, Rotation>)

  /**
   * `Whole` is another request of one store call.  `End` is the revocation of a family
   * that a logout, or a refusal to rotate, has looked up some time before.
   */
  datatype Step =
    | Lookup(thread: nat, token: Token, browser: bool, now: int)
    | Revoke(thread: nat, fails: bool)
    | Create(thread: nat, expiresAt: int, faults: Faults)
    | Whole(request: Request)
    | End(family: Family)

  ghost predicate Allowed(m: Machine, step: Step) {
    match step
    case Lookup(u, token, _, now) => u in m.threads && m.threads[u].Idle? && Usable(m.store, token, now)
    case Revoke(u, _) => u in m.threads && m.threads[u].Looked?
    case Create(u, _, _) => u in m.threads && m.threads[u].Revoked?
    case Whole(_) => true
    case End(family) => family < m.store.nextFamily
  }

  /** The bearer path goes on in the family, the browser path starts a new one. */
  function Renewed(s: State, r: Rotation, expiresAt: int, f: Faults): State
    requires r.Revoked?
  {
    if r.browser then (if f.user then s else Issued(s, r.session.user, expiresAt, f))
    else if f.generate then s
    else if f.create then s.(nextToken := s.nextToken + 1)
    else Created(s, r.session.user, r.session.family, expiresAt)
  }

  ghost function Stepped(m: Machine, step: Step): Machine
    requires Allowed(m, step)
  {
    match step
    case Lookup(u, token, browser, _) =>
      m.(threads := m.threads[u := Looked(token, m.store.sessions[token], browser)])
    case Revoke(u, fails) =>
      var l := m.threads[u];
      if fails then m.(threads := m.threads[u := Idle])
      else Machine(FamilyRevoked(m.store, l.session.family), m.threads[u := Revoked(l.token, l.session, l.browser)])
    case Create(u, expiresAt, f) => Machine(Renewed(m.store, m.threads[u], expiresAt, f), m.threads[u := Idle])
    case Whole(r) => m.(store := After(m.store, r))
    case End(family) => m.(store := FamilyRevoked(m.store, family))
  }

  /** Without interruption the three calls are the atomic request, whichever of them fails. */
  lemma ThreeCallsAreOneRequest(m: Machine, u: nat, token: Token, browser: bool, now: int, expiresAt: int, f: Faults)
    requires u in m.threads && m.threads[u].Idle? && Usable(m.store, token, now) && !f.get && (f.user ==> browser)
    ensures var m1 := Stepped(m, Lookup(u, token, browser, now));
            var m2 := Stepped(m1, Revoke(u, f.revoke));
            var m3 := if f.revoke then m2 else Stepped(m2, Create(u, expiresAt, f));
            && m3.threads == m.threads
            && m3.store == After(m.store, if browser then RefreshBrowser(token, now, expiresAt, true, f)
                                          else RefreshBearer(token, now, expiresAt, true, f))
  {
    var m1 := Stepped(m, Lookup(u, token, browser, now));
    var m2 := Stepped(m1, Revoke(u, f.revoke));
    if f.revoke {
      assert m2.threads == m.threads;
    } else {
      assert Stepped(m2, Create(u, expiresAt, f)).threads == m.threads;
    }
  }

  // ---------------------------------------------------------------------
  // Every interleaving
  // ---------------------------------------------------------------------

  ghost predicate Path(machines: seq<Machine>, steps: seq<Step>) {
    && |machines| == |steps| + 1
    && forall i :: 0 <= i < |steps| ==>
         Allowed(machines[i], steps[i]) && machines[i + 1] == Stepped(machines[i], steps[i])
  }

  ghost predicate Start(m: Machine) {
    m.store == State(map[], 0, 0) && forall u :: u in m.threads ==> m.threads[u] == Idle
  }

  ghost predicate Run(machines: seq<Machine>, steps: seq<Step>) {
    Path(machines, steps) && Start(machines[0])
  }

  /** The thread works on a token that was drawn, and once it has revoked the family the token is spent. */
  ghost predicate ThreadInv(s: State, r: Rotation) {
    !r.Idle? ==>
      && r.token < s.nextToken && r.session.family < s.nextFamily
      && (r.token in s.sessions ==> s.sessions[r.token].family == r.session.family)
      && (r.Revoked? ==> Spent(s, r.token))
  }

  ghost predicate MachineInv(m: Machine) {
    Drawn(m.store) && forall u :: u in m.threads ==> ThreadInv(m.store, m.threads[u])
  }

  /** Sessions are added with new tokens, stay in their family, and are not restored. */
  ghost predicate Follows(s: State, s': State) {
    && Drawn(s') && s.nextToken <= s'.nextToken && s.nextFamily <= s'.nextFamily
    && (forall t :: t in s'.sessions && t < s.nextToken ==>
          t in s.sessions && s'.sessions[t].family == s.sessions[t].family
          && s'.sessions[t].user == s.sessions[t].user)
    && (forall t: Token :: t < s.nextToken && Live(s', t) ==> Live(s, t))
  }

  lemma FollowsTransitive(s: State, s': State, s'': State)
    requires Follows(s, s') && Follows(s', s'')
    ensures Follows(s, s'')
  {
  }

  lemma RevokedFollows(s: State, family: Family)
    requires Drawn(s)
    ensures Follows(s, FamilyRevoked(s, family))
  {
  }

  lemma CreatedFollows(s: State, user: string, family: Family, expiresAt: int)
    requires Drawn(s) && family < s.nextFamily
    ensures Follows(s, Created(s, user, family, expiresAt))
  {
  }

  lemma IssuedFollows(s: State, user: string, expiresAt: int, f: Faults)
    requires Drawn(s)
    ensures Follows(s, Issued(s, user, expiresAt, f))
  {
    var drawn := s.(nextFamily := s.nextFamily + 1);
    CreatedFollows(drawn, user, s.nextFamily, expiresAt);
    FollowsTransitive(s, drawn, Created(drawn, user, s.nextFamily, expiresAt));
  }

  lemma RequestFollows(s: State, r: Request)
    requires Drawn(s)
    ensures Follows(s, After(s, r))
  {
    match r
    case Issue(user, expiresAt, f) => IssuedFollows(s, user, expiresAt, f);
    case RefreshBearer(token, now, expiresAt, active, f) =>
      if token in s.sessions {
        var session, s' := s.sessions[token], FamilyRevoked(s, s.sessions[token].family);
        RevokedFollows(s, session.family);
        CreatedFollows(s', session.user, session.family, expiresAt);
        FollowsTransitive(s, s', Created(s', session.user, session.family, expiresAt));
      }
    case RefreshBrowser(token, now, expiresAt, active, f) =>
      if token in s.sessions {
        var session, s' := s.sessions[token], FamilyRevoked(s, s.sessions[token].family);
        RevokedFollows(s, session.family);
        IssuedFollows(s', session.user, expiresAt, f);
        FollowsTransitive(s, s', Issued(s', session.user, expiresAt, f));
      }
    case Logout(token, f) =>
      if token in s.sessions {
        RevokedFollows(s, s.sessions[token].family);
      }
    case RevokeUser(_, _) =>
    case DeleteExpired(_) =>
  }

  lemma StepFollows(m: Machine, step: Step)
    requires MachineInv(m) && Allowed(m, step)
    ensures Follows(m.store, Stepped(m, step).store)
  {
    match step
    case Lookup(_, _, _, _) =>
    case Revoke(u, _) => RevokedFollows(m.store, m.threads[u].session.family);
    case Create(u, expiresAt, f) =>
      var session := m.threads[u].session;
      assert ThreadInv(m.store, m.threads[u]);
      IssuedFollows(m.store, session.user, expiresAt, f);
      CreatedFollows(m.store, session.user, session.family, expiresAt);
    case Whole(r) => RequestFollows(m.store, r);
    case End(family) => RevokedFollows(m.store, family);
  }

  lemma StepKeepsInv(m: Machine, step: Step)
    requires MachineInv(m) && Allowed(m, step)
    ensures MachineInv(Stepped(m, step))
  {
    var m' := Stepped(m, step);
    StepFollows(m, step);
    forall u | u in m'.threads ensures ThreadInv(m'.store, m'.threads[u]) {
      if u in m.threads {
        assert ThreadInv(m.store, m.threads[u]);
      }
    }
  }

  lemma {:induction false} PathKeepsInv(machines: seq<Machine>, steps: seq<Step>, i: nat)
    requires Path(machines, steps) && MachineInv(machines[0]) && i < |machines|
    ensures MachineInv(machines[i])
  {
    if i > 0 {
      PathKeepsInv(machines, steps, i - 1);
      StepKeepsInv(machines[i - 1], steps[i - 1]);
    }
  }

  // ---------------------------------------------------------------------
  // At most one live session per family
  // ---------------------------------------------------------------------

  /** The step is a creation in the thread's old family that succeeds. */
  ghost predicate Continues(m: Machine, step: Step, family: Family) {
    && step.Create? && Allowed(m, step) && !step.faults.generate && !step.faults.create
    && !m.threads[step.thread].browser && m.threads[step.thread].session.family == family
  }

  /** A creation in a family that has a live session. */
  ghost predicate CreatesBeside(m: Machine, step: Step) {
    exists t :: Live(m.store, t) && Continues(m, step, m.store.sessions[t].family)
  }

  lemma BesideMakesTwo(m: Machine, step: Step, t: Token)
    requires MachineInv(m) && Live(m.store, t) && Continues(m, step, m.store.sessions[t].family)
    ensures !Single(Stepped(m, step).store)
  {
    var s' := Stepped(m, step).store;
    assert Live(s', t) && Live(s', m.store.nextToken);
  }

  lemma AloneStaysSingle(m: Machine, step: Step)
    requires MachineInv(m) && Single(m.store) && Allowed(m, step) && !CreatesBeside(m, step)
    ensures Single(Stepped(m, step).store)
  {
    match step
    case Lookup(_, _, _, _) =>
    case Revoke(u, fails) =>
      FamilyRevokedKeepsInv(m.store, m.threads[u].session.family);
    case Create(u, expiresAt, f) =>
      var r := m.threads[u];
      assert ThreadInv(m.store, r);
      if r.browser {
        IssuedKeepsInv(m.store, r.session.user, expiresAt, f);
      } else if !f.generate && f.create {
        FewerLiveKeepsInv(m.store, Stepped(m, step).store);
      } else if !f.generate {
        forall t | Live(m.store, t) ensures m.store.sessions[t].family != r.session.family {
          assert !Continues(m, step, m.store.sessions[t].family);
        }
        CreatedKeepsInv(m.store, r.session.user, r.session.family, expiresAt);
      }
    case Whole(r) => RequestKeepsInv(m.store, r);
    case End(family) => FamilyRevokedKeepsInv(m.store, family);
  }

  /** A step gives a family a second live session exactly when it creates beside a live one. */
  lemma SecondLiveIff(m: Machine, step: Step)
    requires MachineInv(m) && Single(m.store) && Allowed(m, step)
    ensures !Single(Stepped(m, step).store) <==> CreatesBeside(m, step)
  {
    if CreatesBeside(m, step) {
      var t :| Live(m.store, t) && Continues(m, step, m.store.sessions[t].family);
      BesideMakesTwo(m, step, t);
    } else {
      AloneStaysSingle(m, step);
    }
  }

  ghost predicate SingleUpTo(machines: seq<Machine>, n: nat)
    requires n < |machines|
  {
    forall i :: 0 <= i <= n ==> Single(machines[i].store)
  }

  ghost predicate NoneBeside(machines: seq<Machine>, steps: seq<Step>, n: nat)
    requires n <= |steps| < |machines|
  {
    forall i :: 0 <= i < n ==> !CreatesBeside(machines[i], steps[i])
  }

  /**
   * In every run, families have at most one live session throughout exactly when no
   * step creates beside a live one.
   */
  lemma {:induction false} SingleThroughoutIff(machines: seq<Machine>, steps: seq<Step>, n: nat)
    requires Run(machines, steps) && n < |machines|
    ensures SingleUpTo(machines, n) <==> NoneBeside(machines, steps, n)
  {
    if n > 0 {
      SingleThroughoutIff(machines, steps, n - 1);
      SingleOneMore(machines, n);
      NoneOneMore(machines, steps, n);
      LosesItIff(machines, steps, n);
    } else {
      assert forall t :: !Live(machines[0].store, t);
    }
  }

  lemma LosesItIff(machines: seq<Machine>, steps: seq<Step>, n: nat)
    requires Path(machines, steps) && MachineInv(machines[0]) && 0 < n < |machines|
    ensures Single(machines[n - 1].store) ==>
              (Single(machines[n].store) <==> !CreatesBeside(machines[n - 1], steps[n - 1]))
  {
    PathKeepsInv(machines, steps, n - 1);
    if Single(machines[n - 1].store) {
      SecondLiveIff(machines[n - 1], steps[n - 1]);
    }
  }

  lemma SingleOneMore(machines: seq<Machine>, n: nat)
    requires 0 < n < |machines|
    ensures SingleUpTo(machines, n) <==> SingleUpTo(machines, n - 1) && Single(machines[n].store)
    ensures SingleUpTo(machines, n - 1) ==> Single(machines[n - 1].store)
  {
  }

  lemma NoneOneMore(machines: seq<Machine>, steps: seq<Step>, n: nat)
    requires 0 < n <= |steps| < |machines|
    ensures NoneBeside(machines, steps, n) <==>
            NoneBeside(machines, steps, n - 1) && !CreatesBeside(machines[n - 1], steps[n - 1])
  {
  }

  // ---------------------------------------------------------------------
  // Families that come back
  // ---------------------------------------------------------------------

  /** A thread is about to go on in the family. */
  ghost predicate Returning(m: Machine, family: Family) {
    exists u :: u in m.threads && !m.threads[u].Idle? && !m.threads[u].browser && m.threads[u].session.family == family
  }

  /** Neither live nor about to be. */
  ghost predicate Over(m: Machine, family: Family) {
    Dead(m.store, family) && !Returning(m, family)
  }

  lemma StepKeepsOver(m: Machine, step: Step, family: Family)
    requires MachineInv(m) && Allowed(m, step) && Over(m, family)
    ensures Over(Stepped(m, step), family)
  {
    match step
    case Lookup(_, token, _, _) =>
      assert Live(m.store, token);
    case Revoke(_, _) =>
    case Create(_, _, _) =>
    case Whole(r) =>
      DeadStaysDead(m.store, r, family);
    case End(_) =>
  }

  /** Along every path a family that is neither live nor about to be never gets a session again. */
  lemma {:induction false} OverForever(machines: seq<Machine>, steps: seq<Step>, i: nat, j: nat, family: Family)
    requires Path(machines, steps) && MachineInv(machines[0]) && i <= j < |machines| && Over(machines[i], family)
    ensures Over(machines[j], family)
  {
    if i < j {
      OverForever(machines, steps, i, j - 1, family);
      PathKeepsInv(machines, steps, j - 1);
      StepKeepsOver(machines[j - 1], steps[j - 1], family);
    }
  }

  const NO_FAULTS := Faults(false, false, false, false, false, false)

  /** From here on, the thread finishes what it has begun. */
  lemma Finishes(m: Machine, u: nat) returns (machines: seq<Machine>, steps: seq<Step>)
    requires MachineInv(m) && u in m.threads && !m.threads[u].Idle?
    ensures Path(machines, steps) && steps != [] && machines[0] == m
    ensures var n := |steps| - 1;
            && steps[n] == Create(u, 0, NO_FAULTS) && u in machines[n].threads
            && machines[n].threads[u] == Revoked(m.threads[u].token, m.threads[u].session, m.threads[u].browser)
            && Follows(m.store, machines[n].store)
  {
    var last := Create(u, 0, NO_FAULTS);
    if m.threads[u].Revoked? {
      machines, steps := [m, Stepped(m, last)], [last];
    } else {
      var m1 := Stepped(m, Revoke(u, false));
      StepFollows(m, Revoke(u, false));
      machines, steps := [m, m1, Stepped(m1, last)], [Revoke(u, false), last];
    }
  }

  ghost predicate ComesBack(machines: seq<Machine>, steps: seq<Step>, m: Machine, family: Family) {
    Path(machines, steps) && machines[0] == m && !Dead(machines[|steps|].store, family)
  }

  /** A family without a live session can get one again exactly when a thread is about to go on in it. */
  lemma FamilyComesBackIff(m: Machine, family: Family)
    requires MachineInv(m) && Dead(m.store, family)
    ensures (exists machines, steps :: ComesBack(machines, steps, m, family)) <==> Returning(m, family)
  {
    if Returning(m, family) {
      var u :| u in m.threads && !m.threads[u].Idle? && !m.threads[u].browser && m.threads[u].session.family == family;
      var machines, steps := Finishes(m, u);
      assert Live(machines[|steps|].store, machines[|steps| - 1].store.nextToken);
      assert ComesBack(machines, steps, m, family);
    } else {
      forall machines: seq<Machine>, steps: seq<Step> | Path(machines, steps) && machines[0] == m
        ensures Dead(machines[|steps|].store, family)
      {
        OverForever(machines, steps, 0, |steps|, family);
      }
    }
  }

  // ---------------------------------------------------------------------
  // Users that come back
  // ---------------------------------------------------------------------

  /** No session of the user is live. */
  ghost predicate LoggedOut(s: State, user: string) {
    forall t :: Live(s, t) ==> s.sessions[t].user != user
  }

  /** A thread is about to create a session for the user in an old family. */
  ghost predicate Lingers(m: Machine, user: string) {
    exists u :: u in m.threads && !m.threads[u].Idle? && !m.threads[u].browser && m.threads[u].session.user == user
  }

  /** Live sessions of the user, and those about to be, belong to families from `since` on. */
  ghost predicate Fresh(m: Machine, user: string, since: Family) {
    && since <= m.store.nextFamily
    && (forall t :: Live(m.store, t) && m.store.sessions[t].user == user ==> m.store.sessions[t].family >= since)
    && (forall u :: u in m.threads && !m.threads[u].Idle? && !m.threads[u].browser && m.threads[u].session.user == user
          ==> m.threads[u].session.family >= since)
  }

  lemma RequestKeepsFresh(s: State, r: Request, user: string, since: Family)
    requires Drawn(s) && since <= s.nextFamily
    requires forall t :: Live(s, t) && s.sessions[t].user == user ==> s.sessions[t].family >= since
    ensures var s' := After(s, r);
            forall t :: Live(s', t) && s'.sessions[t].user == user ==> s'.sessions[t].family >= since
  {
  }

  lemma StepKeepsFresh(m: Machine, step: Step, user: string, since: Family)
    requires MachineInv(m) && Allowed(m, step) && Fresh(m, user, since)
    ensures Fresh(Stepped(m, step), user, since)
  {
    match step
    case Lookup(_, token, _, _) =>
      assert Live(m.store, token);
    case Revoke(_, _) =>
    case Create(_, _, _) =>
    case Whole(r) =>
      RequestFollows(m.store, r);
      RequestKeepsFresh(m.store, r, user, since);
    case End(_) =>
  }

  lemma {:induction false} FreshForever(machines: seq<Machine>, steps: seq<Step>, i: nat, user: string, since: Family)
    requires Path(machines, steps) && MachineInv(machines[0]) && Fresh(machines[0], user, since) && i < |machines|
    ensures Fresh(machines[i], user, since)
  {
    if i > 0 {
      FreshForever(machines, steps, i - 1, user, since);
      PathKeepsInv(machines, steps, i - 1);
      StepKeepsFresh(machines[i - 1], steps[i - 1], user, since);
    }
  }

  /** The user is logged in again without a new login: in a family that is drawn already. */
  ghost predicate SlipsBack(machines: seq<Machine>, steps: seq<Step>, m: Machine, user: string) {
    && Path(machines, steps) && machines[0] == m
    && var s := machines[|steps|].store;
       exists t :: Live(s, t) && s.sessions[t].user == user && s.sessions[t].family < m.store.nextFamily
  }

  /**
   * A user without a live session, such as after a revocation of all of them, can be
   * logged in again without a new login exactly when a rotation is under way.
   */
  lemma UserSlipsBackIff(m: Machine, user: string)
    requires MachineInv(m) && LoggedOut(m.store, user)
    ensures (exists machines, steps :: SlipsBack(machines, steps, m, user)) <==> Lingers(m, user)
  {
    if Lingers(m, user) {
      var u :| u in m.threads && !m.threads[u].Idle? && !m.threads[u].browser && m.threads[u].session.user == user;
      assert ThreadInv(m.store, m.threads[u]);
      var machines, steps := Finishes(m, u);
      assert Live(machines[|steps|].store, machines[|steps| - 1].store.nextToken);
      assert SlipsBack(machines, steps, m, user);
    } else {
      forall machines: seq<Machine>, steps: seq<Step> | Path(machines, steps) && machines[0] == m
        ensures !SlipsBack(machines, steps, m, user)
      {
        FreshForever(machines, steps, |steps|, user, m.store.nextFamily);
      }
    }
  }

  // ---------------------------------------------------------------------
  // Tokens that are redeemed again
  // ---------------------------------------------------------------------

  /** The step ends a rotation of the token, and the caller gets a new one. */
  ghost predicate Redeemed(m: Machine, step: Step, t: Token) {
    && step.Create? && Allowed(m, step) && m.threads[step.thread].token == t
    && !step.faults.generate && !step.faults.create
    && (m.threads[step.thread].browser ==> !step.faults.user && !step.faults.csrf)
  }

  /** A thread is rotating the token. */
  ghost predicate InUse(m: Machine, t: Token) {
    exists u :: u in m.threads && !m.threads[u].Idle? && m.threads[u].token == t
  }

  /** The token is spent and nobody is rotating it. */
  ghost predicate Gone(m: Machine, t: Token) {
    Spent(m.store, t) && !InUse(m, t)
  }

  lemma StepKeepsGone(m: Machine, step: Step, t: Token)
    requires MachineInv(m) && Allowed(m, step) && Gone(m, t)
    ensures Gone(Stepped(m, step), t)
  {
    StepFollows(m, step);
    if step.Lookup? {
      assert Live(m.store, step.token);
    }
  }

  lemma {:induction false} GoneForever(machines: seq<Machine>, steps: seq<Step>, i: nat, j: nat, t: Token)
    requires Path(machines, steps) && MachineInv(machines[0]) && i <= j < |machines| && Gone(machines[i], t)
    ensures Gone(machines[j], t)
  {
    if i < j {
      GoneForever(machines, steps, i, j - 1, t);
      PathKeepsInv(machines, steps, j - 1);
      StepKeepsGone(machines[j - 1], steps[j - 1], t);
    }
  }

  ghost predicate RedeemsLater(machines: seq<Machine>, steps: seq<Step>, m: Machine, t: Token) {
    Path(machines, steps) && machines[0] == m && exists k :: 0 <= k < |steps| && Redeemed(machines[k], steps[k], t)
  }

  /** After a token was redeemed, it can be redeemed again exactly when another thread is rotating it as well. */
  lemma RedeemableAgainIff(m: Machine, step: Step, t: Token)
    requires MachineInv(m) && Redeemed(m, step, t)
    ensures (exists machines, steps :: RedeemsLater(machines, steps, Stepped(m, step), t)) <==>
            exists v :: v in m.threads && v != step.thread && !m.threads[v].Idle? && m.threads[v].token == t
  {
    var m' := Stepped(m, step);
    StepKeepsInv(m, step);
    StepFollows(m, step);
    assert ThreadInv(m.store, m.threads[step.thread]);
    if v :| v in m.threads && v != step.thread && !m.threads[v].Idle? && m.threads[v].token == t {
      var machines, steps := Finishes(m', v);
      assert Redeemed(machines[|steps| - 1], steps[|steps| - 1], t);
      assert RedeemsLater(machines, steps, m', t);
    } else {
      forall machines: seq<Machine>, steps: seq<Step> | Path(machines, steps) && machines[0] == m'
        ensures !RedeemsLater(machines, steps, m', t)
      {
        forall k | 0 <= k < |steps| ensures !Redeemed(machines[k], steps[k], t) {
          GoneForever(machines, steps, 0, k, t);
        }
      }
    }
  }

  /** The step looks the token up while it is neither revoked nor expired. */
  ghost predicate LooksUp(m: Machine, step: Step, u: nat, t: Token) {
    && step.Lookup? && step.thread == u && step.token == t && t in m.store.sessions
    && !m.store.sessions[t].revoked && step.now < m.store.sessions[t].expiresAt
  }

  lemma {:induction false} LookedUpAt(machines: seq<Machine>, steps: seq<Step>, i: nat, u: nat) returns (k: nat)
    requires Run(machines, steps) && i < |machines| && u in machines[i].threads && !machines[i].threads[u].Idle?
    ensures k < i && LooksUp(machines[k], steps[k], u, machines[i].threads[u].token)
  {
    assert i > 0 && machines[i] == Stepped(machines[i - 1], steps[i - 1]);
    if steps[i - 1].Lookup? && steps[i - 1].thread == u {
      k := i - 1;
    } else {
      k := LookedUpAt(machines, steps, i - 1, u);
    }
  }

  /** In every interleaving, whoever redeems a token has looked it up before its time was over. */
  lemma RedeemedWasLookedUp(machines: seq<Machine>, steps: seq<Step>, j: nat, t: Token) returns (k: nat)
    requires Run(machines, steps) && j < |steps| && Redeemed(machines[j], steps[j], t)
    ensures k < j && LooksUp(machines[k], steps[k], steps[j].thread, t)
  {
    k := LookedUpAt(machines, steps, j, steps[j].thread);
  }

  // ---------------------------------------------------------------------
  // Runs in which requests overlap
  // ---------------------------------------------------------------------

  function Threads(u: nat, r: Rotation, v: nat, q: Rotation): map<nat, Rotation> {
    map[u := r, v := q]
  }

  lemma RunGrows(machines: seq<Machine>, steps: seq<Step>, step: Step)
    requires Run(machines, steps) && Allowed(machines[|steps|], step)
    ensures Run(machines + [Stepped(machines[|steps|], step)], steps + [step])
  {
  }

  /** Two rotations of one token have looked it up, and both have revoked its family. */
  lemma OverlapBegins(user: string, u: nat, v: nat) returns (machines: seq<Machine>, steps: seq<Step>)
    requires u != v
    ensures Run(machines, steps)
    ensures var first := Session(user, 0, 1, false);
            machines[|steps|] == Machine(State(map[0 := first.(revoked := true)], 1, 1),
                                         Threads(u, Revoked(0, first, false), v, Revoked(0, first, false)))
  {
    var first := Session(user, 0, 1, false);
    steps := [Whole(Issue(user, 1, NO_FAULTS)), Lookup(u, 0, false, 0), Lookup(v, 0, false, 0),
              Revoke(u, false), Revoke(v, false)];
    var m0 := Machine(State(map[], 0, 0), Threads(u, Idle, v, Idle));
    var m1 := Stepped(m0, steps[0]);
    assert m1.store == State(map[0 := first], 1, 1);
    var m2 := Stepped(m1, steps[1]);
    var m3 := Stepped(m2, steps[2]);
    assert m3.threads == Threads(u, Looked(0, first, false), v, Looked(0, first, false));
    var m4 := Stepped(m3, steps[3]);
    assert m4.store == State(map[0 := first.(revoked := true)], 1, 1);
    var m5 := Stepped(m4, steps[4]);
    assert m5.store == m4.store;
    assert m5.threads == Threads(u, Revoked(0, first, false), v, Revoked(0, first, false));
    machines := [m0, m1, m2, m3, m4, m5];
  }

  /** Two rotations of one token overlap: it is redeemed twice, and its family has two live sessions. */
  lemma OverlapMakesTwo(user: string, u: nat, v: nat) returns (machines: seq<Machine>, steps: seq<Step>)
    requires u != v
    ensures Run(machines, steps)
    ensures var s := machines[|steps|].store;
            Live(s, 1) && Live(s, 2) && s.sessions[1].family == s.sessions[2].family
    ensures exists i, j :: 0 <= i < j < |steps| && Redeemed(machines[i], steps[i], 0)
                        && Redeemed(machines[j], steps[j], 0)
  {
    machines, steps := OverlapBegins(user, u, v);
    var n, one, other := |steps|, Create(u, 1, NO_FAULTS), Create(v, 1, NO_FAULTS);
    RunGrows(machines, steps, one);
    machines, steps := machines + [Stepped(machines[n], one)], steps + [one];
    RunGrows(machines, steps, other);
    machines, steps := machines + [Stepped(machines[n + 1], other)], steps + [other];
    assert Redeemed(machines[n], steps[n], 0) && Redeemed(machines[n + 1], steps[n + 1], 0);
  }

  /** All sessions of a user are revoked during a rotation, which then logs the user in again. */
  lemma RotationOutlivesRevocation(user: string, u: nat) returns (machines: seq<Machine>, steps: seq<Step>, i: nat)
    ensures Run(machines, steps) && i < |steps| && steps[i] == Whole(RevokeUser(user, NO_FAULTS))
    ensures Dead(machines[i + 1].store, 0) && LoggedOut(machines[i + 1].store, user)
    ensures var s := machines[|steps|].store;
            Live(s, 1) && s.sessions[1].user == user && s.sessions[1].family == 0
  {
    var first := Session(user, 0, 1, false);
    i := 3;
    steps := [Whole(Issue(user, 1, NO_FAULTS)), Lookup(u, 0, false, 0), Revoke(u, false),
              Whole(RevokeUser(user, NO_FAULTS)), Create(u, 1, NO_FAULTS)];
    var m0 := Machine(State(map[], 0, 0), map[u := Idle]);
    var m1 := Stepped(m0, steps[0]);
    assert m1.store == State(map[0 := first], 1, 1);
    var m2 := Stepped(m1, steps[1]);
    var m3 := Stepped(m2, steps[2]);
    var m4 := Stepped(m3, steps[3]);
    var m5 := Stepped(m4, steps[4]);
    machines := [m0, m1, m2, m3, m4, m5];
  }

  // ---------------------------------------------------------------------
  // Runs in which requests of one family do not overlap
  // ---------------------------------------------------------------------

  /** The family is being rotated. */
  ghost predicate Busy(m: Machine, family: Family) {
    exists u :: u in m.threads && !m.threads[u].Idle? && m.threads[u].session.family == family
  }

  ghost predicate InFamily(s: State, t: Token, family: Family) {
    t in s.sessions && s.sessions[t].family == family
  }

  /** The sessions of the family are the same in both states. */
  ghost predicate Untouched(s: State, s': State, family: Family) {
    && (forall t :: InFamily(s, t, family) <==> InFamily(s', t, family))
    && (forall t :: InFamily(s, t, family) ==> s'.sessions[t] == s.sessions[t])
  }

  /** The step does not touch a family that another request is rotating. */
  ghost predicate Alone(m: Machine, step: Step)
    requires Allowed(m, step)
  {
    match step
    case Lookup(_, token, _, _) => !Busy(m, m.store.sessions[token].family)
    case Revoke(_, _) => true
    case Create(_, _, _) => true
    case Whole(r) => forall family :: Busy(m, family) ==> Untouched(m.store, After(m.store, r), family)
    case End(family) => !Busy(m, family)
  }

  ghost predicate Serialised(machines: seq<Machine>, steps: seq<Step>)
    requires Path(machines, steps)
  {
    forall i :: 0 <= i < |steps| ==> Alone(machines[i], steps[i])
  }

  /** What was looked up is still live, and what was revoked is still dead. */
  ghost predicate Kept(s: State, r: Rotation)
    requires !r.Idle?
  {
    if r.Revoked? then Dead(s, r.session.family) else Live(s, r.token)
  }

  /** Families and tokens under way are distinct, and nobody else has touched them. */
  ghost predicate Apart(m: Machine) {
    && (forall u, v :: u in m.threads && v in m.threads && u != v && !m.threads[u].Idle? && !m.threads[v].Idle? ==>
          m.threads[u].session.family != m.threads[v].session.family && m.threads[u].token != m.threads[v].token)
    && (forall u :: u in m.threads && !m.threads[u].Idle? ==> Kept(m.store, m.threads[u]))
  }

  lemma LookupKeepsApart(m: Machine, u: nat, token: Token, browser: bool, now: int)
    requires MachineInv(m) && Apart(m)
    requires Allowed(m, Lookup(u, token, browser, now)) && Alone(m, Lookup(u, token, browser, now))
    ensures Apart(Stepped(m, Lookup(u, token, browser, now)))
  {
    forall v | v in m.threads && !m.threads[v].Idle?
      ensures m.threads[v].session.family != m.store.sessions[token].family && m.threads[v].token != token
    {
      assert ThreadInv(m.store, m.threads[v]) && Busy(m, m.threads[v].session.family);
    }
  }

  /** What happens to other families does not concern a thread. */
  lemma KeptApart(s: State, s': State, l: Rotation)
    requires !l.Idle? && ThreadInv(s, l) && Kept(s, l)
    requires Untouched(s, s', l.session.family) && s.nextFamily <= s'.nextFamily
    ensures Kept(s', l)
  {
    if l.Revoked? {
      forall t | Live(s', t) ensures s'.sessions[t].family != l.session.family {
        assert InFamily(s', t, l.session.family) ==> InFamily(s, t, l.session.family);
      }
    } else {
      assert InFamily(s, l.token, l.session.family);
    }
  }

  lemma RevokedElsewhere(s: State, family: Family, other: Family)
    requires family != other
    ensures Untouched(s, FamilyRevoked(s, family), other)
  {
  }

  lemma RenewedElsewhere(s: State, r: Rotation, expiresAt: int, f: Faults, other: Family)
    requires Drawn(s) && r.Revoked? && r.session.family != other && other < s.nextFamily
    ensures Untouched(s, Renewed(s, r, expiresAt, f), other)
  {
  }

  lemma RevokeKeepsApart(m: Machine, u: nat, fails: bool)
    requires MachineInv(m) && Apart(m) && Allowed(m, Revoke(u, fails))
    ensures Apart(Stepped(m, Revoke(u, fails)))
  {
    var family := m.threads[u].session.family;
    var s' := FamilyRevoked(m.store, family);
    assert ThreadInv(m.store, m.threads[u]);
    forall v | v in m.threads && v != u && !m.threads[v].Idle? ensures Kept(s', m.threads[v]) {
      RevokedElsewhere(m.store, family, m.threads[v].session.family);
      KeptApart(m.store, s', m.threads[v]);
    }
  }

  lemma CreateKeepsApart(m: Machine, u: nat, expiresAt: int, f: Faults)
    requires MachineInv(m) && Apart(m) && Allowed(m, Create(u, expiresAt, f))
    ensures Apart(Stepped(m, Create(u, expiresAt, f)))
  {
    var s' := Renewed(m.store, m.threads[u], expiresAt, f);
    forall v | v in m.threads && v != u && !m.threads[v].Idle? ensures Kept(s', m.threads[v]) {
      assert ThreadInv(m.store, m.threads[v]);
      RenewedElsewhere(m.store, m.threads[u], expiresAt, f, m.threads[v].session.family);
      KeptApart(m.store, s', m.threads[v]);
    }
  }

  lemma EndKeepsApart(m: Machine, family: Family)
    requires MachineInv(m) && Apart(m) && Allowed(m, End(family)) && Alone(m, End(family))
    ensures Apart(Stepped(m, End(family)))
  {
    forall v | v in m.threads && !m.threads[v].Idle? ensures Kept(FamilyRevoked(m.store, family), m.threads[v]) {
      assert Busy(m, m.threads[v].session.family);
      RevokedElsewhere(m.store, family, m.threads[v].session.family);
      KeptApart(m.store, FamilyRevoked(m.store, family), m.threads[v]);
    }
  }

  lemma WholeKeepsApart(m: Machine, r: Request)
    requires MachineInv(m) && Apart(m) && Alone(m, Whole(r))
    ensures Apart(Stepped(m, Whole(r)))
  {
    RequestFollows(m.store, r);
    forall v | v in m.threads && !m.threads[v].Idle? ensures Kept(After(m.store, r), m.threads[v]) {
      assert Busy(m, m.threads[v].session.family);
      KeptApart(m.store, After(m.store, r), m.threads[v]);
    }
  }

  lemma StepKeepsApart(m: Machine, step: Step)
    requires MachineInv(m) && Apart(m) && Allowed(m, step) && Alone(m, step)
    ensures Apart(Stepped(m, step))
  {
    match step
    case Lookup(u, token, browser, now) => LookupKeepsApart(m, u, token, browser, now);
    case Revoke(u, fails) => RevokeKeepsApart(m, u, fails);
    case Create(u, expiresAt, f) => CreateKeepsApart(m, u, expiresAt, f);
    case Whole(r) => WholeKeepsApart(m, r);
    case End(family) => EndKeepsApart(m, family);
  }

  lemma {:induction false} SerialisedKeepsApart(machines: seq<Machine>, steps: seq<Step>, i: nat)
    requires Run(machines, steps) && Serialised(machines, steps) && i < |machines|
    ensures MachineInv(machines[i]) && Apart(machines[i])
  {
    PathKeepsInv(machines, steps, i);
    if i > 0 {
      SerialisedKeepsApart(machines, steps, i - 1);
      StepKeepsApart(machines[i - 1], steps[i - 1]);
    }
  }

  /** If requests of one family do not overlap, each family has at most one live session at every moment. */
  lemma OneLiveSessionCallByCall(machines: seq<Machine>, steps: seq<Step>, i: nat)
    requires Run(machines, steps) && Serialised(machines, steps) && i < |machines|
    ensures Single(machines[i].store)
  {
    forall k | 0 <= k < i ensures !CreatesBeside(machines[k], steps[k]) {
      SerialisedKeepsApart(machines, steps, k);
    }
    SingleThroughoutIff(machines, steps, i);
  }

  /** If requests of one family do not overlap, every refresh token is redeemed at most once. */
  lemma RedeemedOnceCallByCall(machines: seq<Machine>, steps: seq<Step>, i: nat, j: nat, t: Token)
    requires Run(machines, steps) && Serialised(machines, steps)
    requires i < j < |steps| && Redeemed(machines[i], steps[i], t)
    ensures !Redeemed(machines[j], steps[j], t)
  {
    SerialisedKeepsApart(machines, steps, i);
    var u := steps[i].thread;
    assert ThreadInv(machines[i].store, machines[i].threads[u]);
    StepFollows(machines[i], steps[i]);
    GoneForever(machines, steps, i + 1, j, t);
  }
}
