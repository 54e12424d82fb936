/**
 Dashboard accounts and sessions (api/internal/store/auth.go, api/internal/httpapi/auth.go).
 A login reads the account and later writes the session; a check reads the session
 and later the account. Password resets and disabling fall anywhere in between.
 */
module DashboardSessions {
  import opened Prelude

  /** bcrypt is modelled by the password itself: a stored hash matches exactly the password it was made from. */
  datatype User = User(password: string, version: int, disabled: bool)

  /** The payload kept in Redis. */
  datatype Session = Session(username: string, version: int)

  predicate Enabled(users: map<string, User>, username: string) {
    username in users && !users[username].disabled
  }

  /** `UserAuthVersion` and the comparison in `sessionUser`. */
  predicate Accepts(users: map<string, User>, s: Session) {
    Enabled(users, s.username) && users[s.username].version == s.version
  }

  function Created(users: map<string, User>, username: string, password: string): map<string, User> {
    if username in users then users else users[username := User(password, 1, false)]
  }

  function PasswordReset(users: map<string, User>, username: string, password: string): map<string, User> {
    if username !in users then users
    else users[username := User(password, users[username].version + 1, users[username].disabled)]
  }

  function Disabled(users: map<string, User>, username: string): map<string, User> {
    if username !in users then users
    else users[username := User(users[username].password, users[username].version + 1, true)]
  }

  predicate Authenticates(users: map<string, User>, username: string, password: string) {
    Enabled(users, username) && users[username].password == password
  }

  /** The `app_users` table. */
  class Store {
    var users: map<string, User>

    constructor ()
      ensures users == map[]
    {
      users := map[];
    }

    method CreateUser(username: string, password: string) returns (created: bool)
      modifies this
      ensures created <==> username !in old(users)
      ensures users == Created(old(users), username, password)
      ensures users == if created then old(users)[username := User(password, 1, false)] else old(users)
    {
      created := username !in users;
      if created {
        users := users[username := User(password, 1, false)];
      }
    }

    method DisableUser(username: string) returns (found: bool)
      modifies this
      ensures found <==> username in old(users)
      ensures users == Disabled(old(users), username)
      ensures found ==>
                && username in users && users[username].disabled
                && users[username].password == old(users)[username].password
      ensures found ==> users[username].version == old(users)[username].version + 1
      ensures users - {username} == old(users) - {username}
    {
      found := username in users;
      if found {
        var u := users[username];
        users := users[username := u.(disabled := true, version := u.version + 1)];
      }
    }

    method ResetUserPassword(username: string, password: string) returns (found: bool)
      modifies this
      ensures found <==> username in old(users)
      ensures users == PasswordReset(old(users), username, password)
      ensures found ==> username in users && users[username].password == password
      ensures found ==> users[username].version == old(users)[username].version + 1
      ensures found ==> users[username].disabled == old(users)[username].disabled
      ensures users - {username} == old(users) - {username}
    {
      found := username in users;
      if found {
        var u := users[username];
        users := users[username := u.(password := password, version := u.version + 1)];
      }
    }

    method AuthenticateUser(username: string, password: string) returns (user: Option<Session>)
      ensures user.Some? <==> Authenticates(users, username, password)
      ensures user.Some? ==> user.value.username == username && Accepts(users, user.value)
    {
      if username !in users || users[username].disabled || users[username].password != password {
        return None;
      }
      user := Some(Session(username, users[username].version));
    }

    method UserAuthVersion(username: string) returns (version: int, enabled: bool)
      ensures enabled <==> Enabled(users, username)
      ensures enabled ==> version == users[username].version
    {
      if username !in users || users[username].disabled {
        return 0, false;
      }
      version, enabled := users[username].version, true;
    }
  }

  /** The session keys in Redis, beside the accounts. */
  class Authenticator {
    const store: Store
    var sessions: map<string, Session>

    constructor (store: Store)
      ensures this.store == store && sessions == map[]
    {
      this.store := store;
      sessions := map[];
    }

    method Login(username: string, password: string, token: string) returns (ok: bool)
      modifies this
      ensures ok <==> Authenticates(store.users, username, password)
      ensures sessions == if ok then old(sessions)[token := Session(username, store.users[username].version)]
              else old(sessions)
    {
      var user := store.AuthenticateUser(username, password);
      if user.None? {
        return false;
      }
      sessions := sessions[token := user.value];
      ok := true;
    }

    /** With a session cookie but no valid CSRF token, the logout is refused and the session stays. */
    method Logout(cookie: Option<string>, validCSRF: bool) returns (ok: bool)
      modifies this
      ensures ok <==> cookie.None? || validCSRF
      ensures sessions == if cookie.Some? && validCSRF then old(sessions) - {cookie.value} else old(sessions)
    {
      if cookie.Some? && !validCSRF {
        return false;
      }
      if cookie.Some? {
        sessions := sessions - {cookie.value};
      }
      ok := true;
    }

    /** A token is good exactly when its session is stored and accepted; a stale session is dropped. */
    method SessionUser(token: string) returns (username: Option<string>)
      modifies this
      ensures username.Some? <==> token in old(sessions) && Accepts(store.users, old(sessions)[token])
      ensures username.Some? ==> username.value == old(sessions)[token].username
      ensures sessions == if username.Some? then old(sessions) else old(sessions) - {token}
    {
      if token !in sessions {
        return None;
      }
      var session := sessions[token];
      var version, enabled := store.UserAuthVersion(session.username);
      if !enabled || version != session.version {
        sessions := sessions - {token};
        return None;
      }
      username := Some(session.username);
    }
  }

  /** A session with the step at which its credentials were read, which the program does not keep. */
  datatype Issued = Issued(session: Session, readAt: int)

  datatype Revocation = Revocation(username: string, step: int)

  datatype Verdict = Verdict(issued: Issued, step: int)

  /** `logins` and `checks` are in flight; `revocations` and `accepted` are history. */
  datatype World = World(users: map<string, User>, sessions: map<string, Issued>, logins: map<int, Issued>,
      checks: map<int, Issued>,
                         step: int, revocations: seq<Revocation>, accepted: seq<Verdict>)

  const START := World(map[], map[], map[], map[], 0, [], [])

  /** Tokens and request numbers are chosen freely, so the theorems hold for fresh ones too. */
  datatype Event =
    | CreateUser(username: string, password: string)
    | ResetPassword(username: string, password: string)
    | DisableUser(username: string)
    | ReadCredentials(request: int, username: string, password: string)
    | WriteSession(request: int, token: string)
    | ReadSession(request: int, token: string)
    | CheckVersion(request: int)
    | DropSession(token: string)

  function Effect(w: World, e: Event): World {
    match e
    case CreateUser(u, password) => w.(users := Created(w.users, u, password))
    case ResetPassword(u, password) =>
      w.(users := PasswordReset(w.users, u, password), revocations := w.revocations + [Revocation(u, w.step)])
    case DisableUser(u) => w.(users := Disabled(w.users, u), revocations := w.revocations + [Revocation(u, w.step)])
    case ReadCredentials(r, u, password) =>
      if Authenticates(w.users, u, password)
        then w.(logins := w.logins[r := Issued(Session(u, w.users[u].version), w.step)]) else w
    case WriteSession(r, token) =>
      if r in w.logins then w.(sessions := w.sessions[token := w.logins[r]], logins := w.logins - {r}) else w
    case ReadSession(r, token) => if token in w.sessions then w.(checks := w.checks[r := w.sessions[token]]) else w
    case CheckVersion(r) =>
      if r !in w.checks then w
      else if Accepts(w.users, w.checks[r].session)
        then w.(accepted := w.accepted + [Verdict(w.checks[r], w.step)], checks := w.checks - {r})
      else w.(checks := w.checks - {r})
    case DropSession(token) => w.(sessions := w.sessions - {token})
  }

  function Next(w: World, e: Event): World {
    Effect(w, e).(step := w.step + 1)
  }

  function Run(events: seq<Event>): World {
    if events == [] then START else Next(Run(events[..|events| - 1]), events[|events| - 1])
  }

  /** How often an account was reset or disabled after a step. */
  function Count(revocations: seq<Revocation>, username: string, since: int): nat {
    if revocations == [] then 0
    else
      var last := revocations[|revocations| - 1];
      Count(revocations[..|revocations| - 1], username, since)
        + if last.username == username && last.step > since then 1 else 0
  }

  predicate Unrevoked(revocations: seq<Revocation>, s: Issued) {
    forall r | r in revocations :: r.username == s.session.username ==> r.step <= s.readAt
  }

  lemma {:induction false} CountZeroIff(revocations: seq<Revocation>, s: Issued)
    ensures Count(revocations, s.session.username, s.readAt) == 0 <==> Unrevoked(revocations, s)
  {
    if revocations == [] {
    } else {
      var n := |revocations| - 1;
      CountZeroIff(revocations[..n], s);
      assert revocations == revocations[..n] + [revocations[n]];
    }
  }

  lemma CountSnoc(revocations: seq<Revocation>, r: Revocation, username: string, since: int)
    ensures Count(revocations + [r], username, since)
            == Count(revocations, username, since) + if r.username == username && r.step > since then 1 else 0
  {
    assert (revocations + [r])[..|revocations|] == revocations;
  }

  /** The version a session carries lags the account's by the revocations since it was read. */
  predicate TracedIn(users: map<string, User>, revocations: seq<Revocation>, s: Issued) {
    && s.session.username in users
    && s.session.version + Count(revocations, s.session.username, s.readAt) == users[s.session.username].version
    && (users[s.session.username].disabled ==> Count(revocations, s.session.username, s.readAt) > 0)
  }

  predicate Traced(w: World, s: Issued) {
    s.readAt < w.step && TracedIn(w.users, w.revocations, s)
  }

  /** Stored, or carried by a login or a check in flight. */
  predicate Held(w: World, s: Issued) {
    s in w.sessions.Values || s in w.logins.Values || s in w.checks.Values
  }

  /** No revocation of its account falls between reading the credentials and the verdict. */
  predicate Deserved(w: World, v: Verdict) {
    && v.step < w.step
    && forall r | r in w.revocations && r.username == v.issued.session.username && r.step > v.issued.readAt ::
      r.step > v.step
  }

  ghost predicate Inv(w: World) {
    && (forall s | Held(w, s) :: Traced(w, s))
    && (forall v | v in w.accepted :: Deserved(w, v))
    && (forall r | r in w.revocations :: r.step < w.step)
  }

  lemma RevocationKeepsTrace(users: map<string, User>, users': map<string, User>, revocations: seq<Revocation>,
      r: Revocation, s: Issued)
    requires TracedIn(users, revocations, s) && s.readAt < r.step
    requires s.session.username in users'
    requires var u, u' := users[s.session.username], users'[s.session.username];
             if r.username == s.session.username then u'.version == u.version + 1 else u' == u
    ensures TracedIn(users', revocations + [r], s)
  {
    CountSnoc(revocations, r, s.session.username, s.readAt);
  }

  /** Every session, wherever it is, stays traced while accounts change. */
  lemma TracedStep(w: World, e: Event, s: Issued)
    requires Traced(w, s)
    ensures Traced(Next(w, e), s)
  {
    var users', rev' := Next(w, e).users, Next(w, e).revocations;
    if e.ResetPassword? || e.DisableUser? {
      assert rev' == w.revocations + [Revocation(e.username, w.step)];
      RevocationKeepsTrace(w.users, users', w.revocations, Revocation(e.username, w.step), s);
    } else {
      assert rev' == w.revocations;
    }
  }

  /** Credentials can only be read from an enabled account, so a new session starts with nothing held against it. */
  lemma ReadIsTraced(w: World, username: string)
    requires Enabled(w.users, username)
    requires forall r | r in w.revocations :: r.step < w.step
    ensures TracedIn(w.users, w.revocations, Issued(Session(username, w.users[username].version), w.step))
  {
    CountZeroIff(w.revocations, Issued(Session(username, w.users[username].version), w.step));
  }

  /** The only new session a step can bring about is one just read from an enabled account. */
  lemma HeldStep(w: World, e: Event, s: Issued)
    requires Held(Next(w, e), s)
    ensures Held(w, s)
            || (e.ReadCredentials? && Enabled(w.users, e.username)
               && s == Issued(Session(e.username, w.users[e.username].version), w.step))
  {}

  lemma DeservedStep(w: World, e: Event, v: Verdict)
    requires Deserved(w, v)
    ensures Deserved(Next(w, e), v)
  {}

  lemma NewVerdict(w: World, e: Event, v: Verdict)
    requires v in Next(w, e).accepted && v !in w.accepted
    ensures Held(w, v.issued) && Accepts(w.users, v.issued.session) && v.step == w.step
    ensures Next(w, e).revocations == w.revocations
  {}

  /** A session is accepted exactly when its account was neither reset nor disabled since its credentials were read. */
  lemma AcceptedIff(w: World, s: Issued)
    requires Traced(w, s)
    ensures Accepts(w.users, s.session) <==> Unrevoked(w.revocations, s)
  {
    CountZeroIff(w.revocations, s);
  }

  lemma InvStep(w: World, e: Event)
    requires Inv(w)
    ensures Inv(Next(w, e))
  {
    var w' := Next(w, e);
    forall s | Held(w', s) ensures Traced(w', s) {
      HeldStep(w, e, s);
      if Held(w, s) {
        TracedStep(w, e, s);
      } else {
        ReadIsTraced(w, e.username);
      }
    }
    forall v | v in w'.accepted ensures Deserved(w', v) {
      if v in w.accepted {
        DeservedStep(w, e, v);
      } else {
        NewVerdict(w, e, v);
        AcceptedIff(w, v.issued);
      }
    }
  }

  lemma {:induction false} InvRun(events: seq<Event>)
    ensures Inv(Run(events))
  {
    if events == [] {
    } else {
      InvRun(events[..|events| - 1]);
      InvStep(Run(events[..|events| - 1]), events[|events| - 1]);
    }
  }

  /**
   Invalidation under every interleaving: whatever was accepted had not been
   revoked since its credentials were read, and a stored session, a login in
   flight or a check in flight would be accepted now exactly under that condition.
   */
  lemma RevocationIsFinal(events: seq<Event>)
    ensures forall v | v in Run(events).accepted :: Deserved(Run(events), v)
    ensures forall s | Held(Run(events), s) ::
              Accepts(Run(events).users, s.session) <==> Unrevoked(Run(events).revocations, s)
  {
    InvRun(events);
    forall s | Held(Run(events), s)
      ensures Accepts(Run(events).users, s.session) <==> Unrevoked(Run(events).revocations, s) {
      AcceptedIff(Run(events), s);
    }
  }

  lemma {:induction false} TracedForever(events: seq<Event>, more: seq<Event>, s: Issued)
    requires Traced(Run(events), s)
    ensures Traced(Run(events + more), s)
    ensures Unrevoked(Run(events + more).revocations, s) ==> Unrevoked(Run(events).revocations, s)
  {
    if more == [] {
      assert events + more == events;
    } else {
      var m := |more| - 1;
      TracedForever(events, more[..m], s);
      assert (events + more)[..|events + more| - 1] == events + more[..m];
      TracedStep(Run(events + more[..m]), more[m], s);
      RevocationsGrow(Run(events + more[..m]), more[m], s);
    }
  }

  lemma RunSnoc(events: seq<Event>, e: Event)
    ensures Run(events + [e]) == Next(Run(events), e)
  {
    assert (events + [e])[..|events|] == events;
  }

  predicate IsDisabled(users: map<string, User>, username: string) {
    username in users && users[username].disabled
  }

  lemma DisabledStep(w: World, e: Event, username: string)
    requires IsDisabled(w.users, username)
    ensures IsDisabled(Next(w, e).users, username)
  {}

  lemma {:induction false} DisabledStays(events: seq<Event>, more: seq<Event>, username: string)
    requires IsDisabled(Run(events).users, username)
    ensures IsDisabled(Run(events + more).users, username)
  {
    if more == [] {
      assert events + more == events;
    } else {
      var m := |more| - 1;
      DisabledStays(events, more[..m], username);
      assert events + more == (events + more[..m]) + [more[m]];
      RunSnoc(events + more[..m], more[m]);
      DisabledStep(Run(events + more[..m]), more[m], username);
    }
  }

  /** Once an existing account is disabled, no password logs in to it ever again, whatever happens later. */
  lemma DisabledForever(events: seq<Event>, username: string, more: seq<Event>, password: string)
    requires username in Run(events).users
    ensures !Authenticates(Run(events + [DisableUser(username)] + more).users, username, password)
  {
    RunSnoc(events, DisableUser(username));
    DisabledStays(events + [DisableUser(username)], more, username);
  }

  /** The account is left alone: neither reset nor disabled. */
  predicate Spares(events: seq<Event>, username: string) {
    forall e | e in events :: (e.ResetPassword? || e.DisableUser?) ==> e.username != username
  }

  predicate LogsInWith(users: map<string, User>, username: string, password: string) {
    Enabled(users, username) && users[username].password == password
  }

  lemma PasswordStep(w: World, e: Event, username: string, password: string)
    requires LogsInWith(w.users, username, password)
             && ((e.ResetPassword? || e.DisableUser?) ==> e.username != username)
    ensures LogsInWith(Next(w, e).users, username, password)
  {}

  lemma {:induction false} PasswordStays(events: seq<Event>, more: seq<Event>, username: string, password: string)
    requires LogsInWith(Run(events).users, username, password) && Spares(more, username)
    ensures LogsInWith(Run(events + more).users, username, password)
  {
    if more == [] {
      assert events + more == events;
    } else {
      var m := |more| - 1;
      assert more[m] in more && forall e | e in more[..m] :: e in more;
      PasswordStays(events, more[..m], username, password);
      assert events + more == (events + more[..m]) + [more[m]];
      RunSnoc(events + more[..m], more[m]);
      PasswordStep(Run(events + more[..m]), more[m], username, password);
    }
  }

  /** After a reset of an enabled account, exactly the new password logs in until the next reset or disabling. */
  lemma OnlyTheNewPassword(events: seq<Event>, username: string, password: string, more: seq<Event>, tried: string)
    requires Enabled(Run(events).users, username) && Spares(more, username)
    ensures Authenticates(Run(events + [ResetPassword(username, password)] + more).users, username, tried)
            <==> tried == password
  {
    RunSnoc(events, ResetPassword(username, password));
    PasswordStays(events + [ResetPassword(username, password)], more, username, password);
  }

  /** A new account is open to exactly its first password until it is reset or disabled. */
  lemma OnlyTheFirstPassword(events: seq<Event>, username: string, password: string, more: seq<Event>, tried: string)
    requires username !in Run(events).users && Spares(more, username)
    ensures Authenticates(Run(events + [CreateUser(username, password)] + more).users, username, tried)
            <==> tried == password
  {
    RunSnoc(events, CreateUser(username, password));
    PasswordStays(events + [CreateUser(username, password)], more, username, password);
  }

  lemma RevocationsGrow(w: World, e: Event, s: Issued)
    ensures Unrevoked(Next(w, e).revocations, s) ==> Unrevoked(w.revocations, s)
  {}

  /** Once revoked, a session is rejected by every later check, wherever it was held at the time. */
  lemma RejectedForever(events: seq<Event>, more: seq<Event>, s: Issued)
    requires Held(Run(events), s) && !Unrevoked(Run(events).revocations, s)
    ensures !Accepts(Run(events + more).users, s.session)
  {
    InvRun(events);
    TracedForever(events, more, s);
    AcceptedIff(Run(events + more), s);
  }
}
