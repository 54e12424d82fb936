/**
 The router session of the Huawei adapter (api/internal/router/huawei_adapter.go):
 permanent login failures are cached because the firmware locks out repeated ones.
 */
module HuaweiSession {
  import opened Prelude

  /** The kinds `errors.Is` can tell apart through wrapping; `Other` is any transient error. */
  datatype Error = CredentialsRequired | AuthenticationFailed | Other

  predicate IsPermanent(e: Option<Error>) {
    e == Some(CredentialsRequired) || e == Some(AuthenticationFailed)
  }

  /** What the router may answer to a page request; `login` marks a body that shows a login form or failure. */
  datatype Page = Silence | Page(status: int, readable: bool, login: bool)

  function PageError(page: Page): Option<Error> {
    match page
    case Silence => Some(Other)
    case Page(status, readable, login) =>
      if status == 401 || status == 403 then Some(AuthenticationFailed)
      else if status != 200 || !readable then Some(Other)
      else if login then Some(AuthenticationFailed)
      else None
  }

  /**
   What the router may answer to one login: whether it hands out a token, then the
   reply to the submitted form. `atLogin` and `atCGI` say where redirects ended,
   `failed` that the body carries a failure marker, `pageName` that it names a
   landing page and `backToLogin` that it navigates to the login page instead.
   */
  datatype Login = Login(token: bool, reply: LoginReply)
  datatype LoginReply = NoAnswer | Answer(status: int, readable: bool, atLogin: bool, failed: bool,
                                          atCGI: bool, pageName: bool, backToLogin: bool, landing: Page)

  function LoginError(reply: LoginReply): Option<Error> {
    match reply
    case NoAnswer => Some(Other)
    case Answer(status, readable, atLogin, failed, atCGI, pageName, backToLogin, landing) =>
      if !readable then Some(Other)
      else if status >= 400 || atLogin || failed then Some(AuthenticationFailed)
      else if !atCGI then None
      else if !pageName && backToLogin then Some(AuthenticationFailed)
      else PageError(landing)
  }

  /** One run of `authenticate`: whether the credentials were submitted, and the outcome. */
  datatype Attempt = Attempt(submitted: bool, error: Option<Error>)

  function Attempted(hasCredentials: bool, l: Login): Attempt {
    if !hasCredentials then Attempt(false, Some(CredentialsRequired))
    else if !l.token then Attempt(false, Some(Other))
    else Attempt(true, LoginError(l.reply))
  }

  /** The requests behind one operation of the adapter. */
  datatype Work =
    | Counters(pages: seq<Page>, parses: bool)
    | Devices(page: Page, parses: bool)
    | Block(page: Page, tokenOnPage: bool, tokenFetched: bool, post: Page)

  function FirstError(pages: seq<Page>): Option<Error> {
    if pages == [] then None
    else if PageError(pages[0]).Some? then PageError(pages[0])
    else FirstError(pages[1..])
  }

  function WorkError(work: Work): Option<Error> {
    match work
    case Counters(pages, parses) =>
      if FirstError(pages).Some? then FirstError(pages) else if parses then None else Some(Other)
    case Devices(page, parses) =>
      if PageError(page).Some? then PageError(page) else if parses then None else Some(Other)
    case Block(page, tokenOnPage, tokenFetched, post) =>
      if PageError(page).Some? then PageError(page)
      else if !tokenOnPage && !tokenFetched then Some(Other)
      else PageError(post)
  }

  /** Everything the router does while one operation runs; `valid` is the argument check of `BlockDevice`. */
  datatype Script = Script(login: Login, valid: bool, work: Work, renewal: Login, retry: Work)

  /** `log` is every attempt to authenticate in the adapter's lifetime. */
  datatype State = State(hasCredentials: bool, authenticated: bool, authErr: Option<Error>, log: seq<Attempt>)

  function Fresh(hasCredentials: bool): State {
    State(hasCredentials, false, None, [])
  }

  function Renewed(s: State, l: Login): State {
    var attempt := Attempted(s.hasCredentials, l);
    s.(authenticated := attempt.error.None?, authErr := attempt.error, log := s.log + [attempt])
  }

  function Authenticated(s: State, l: Login): State {
    if s.authenticated || IsPermanent(s.authErr) then s else Renewed(s, l)
  }

  function AuthenticateError(s: State, l: Login): Option<Error> {
    if s.authenticated then None else Authenticated(s, l).authErr
  }

  function Operated(s: State, x: Script): State {
    var s1 := Authenticated(s, x.login);
    if AuthenticateError(s, x.login).Some? || !x.valid || WorkError(x.work) != Some(AuthenticationFailed) then s1
    else Renewed(s1, x.renewal)
  }

  function OperationError(s: State, x: Script): Option<Error> {
    if AuthenticateError(s, x.login).Some? then AuthenticateError(s, x.login)
    else if !x.valid then Some(Other)
    else if WorkError(x.work) != Some(AuthenticationFailed) then WorkError(x.work)
    else
      var s2 := Renewed(Authenticated(s, x.login), x.renewal);
      if s2.authErr.Some? then s2.authErr else WorkError(x.retry)
  }

  /** An operation gets as far as its work: it is logged in, or its login succeeds. */
  predicate Reaches(s: State, x: Script) {
    s.authenticated || (!IsPermanent(s.authErr) && Attempted(s.hasCredentials, x.login).error.None?)
  }

  /** The pages of the work show that the session is gone. */
  predicate FindsGone(work: Work) {
    WorkError(work) == Some(AuthenticationFailed)
  }

  predicate Succeeds(work: Work) {
    WorkError(work).None?
  }

  /**
   What an operation returns: it succeeds exactly when its first work does, or finds
   the session gone, renews it and then succeeds with the same work done again.
   */
  predicate Answers(s: State, x: Script, error: Option<Error>) {
    var renewal := Attempted(s.hasCredentials, x.renewal).error;
    && (error.None? <==>
          Reaches(s, x) && x.valid && (Succeeds(x.work) || (FindsGone(x.work) && renewal.None? && Succeeds(x.retry))))
    && (!Reaches(s, x) ==>
          error == if IsPermanent(s.authErr) then s.authErr else Attempted(s.hasCredentials, x.login).error)
    && (Reaches(s, x) && !x.valid ==> error == Some(Other))
    && (Reaches(s, x) && x.valid && !FindsGone(x.work) ==> error == WorkError(x.work))
    && (Reaches(s, x) && x.valid && FindsGone(x.work)
       ==> error == if renewal.Some? then renewal else WorkError(x.retry))
  }

  lemma OperationAnswers(s: State, x: Script)
    ensures Answers(s, x, OperationError(s, x))
  {}

  const WELL := Page(200, true, false)

  /** The statuses 401 and 403, or a page with a login form or failure marker. */
  predicate Refuses(page: Page) {
    page.Page? && (page.status in {401, 403} || (page.status == 200 && page.readable && page.login))
  }

  lemma PageAnswers(page: Page)
    ensures PageError(page).None? <==> page == WELL
    ensures PageError(page) == Some(AuthenticationFailed) <==> Refuses(page)
  {}

  /**
   A login succeeds exactly on an answer that is no error, names no login page, and leads to a
   readable landing page.
   */
  lemma LoginAnswers(reply: LoginReply)
    ensures LoginError(reply).None? <==>
            && reply.Answer? && reply.readable && reply.status < 400 && !reply.atLogin && !reply.failed
            && (reply.atCGI ==> (reply.pageName || !reply.backToLogin) && reply.landing == WELL)
    ensures LoginError(reply) == Some(AuthenticationFailed) <==>
            && reply.Answer? && reply.readable
            && (|| reply.status >= 400 || reply.atLogin || reply.failed
                || (reply.atCGI && ((!reply.pageName && reply.backToLogin) || Refuses(reply.landing))))
  {}

  predicate FirstRefusal(pages: seq<Page>, k: nat) {
    k < |pages| && Refuses(pages[k]) && forall j | 0 <= j < k :: pages[j] == WELL
  }

  /** All pages are in order, or the first one that is not decides. */
  lemma {:induction false} PagesAnswer(pages: seq<Page>)
    ensures FirstError(pages).None? <==> forall p | p in pages :: p == WELL
    ensures FirstError(pages) == Some(AuthenticationFailed) <==> exists k: nat :: FirstRefusal(pages, k)
  {
    if pages == [] {
    } else {
      var rest := pages[1..];
      PagesAnswer(rest);
      PageAnswers(pages[0]);
      assert pages == [pages[0]] + rest && pages[0] in pages && forall p | p in rest :: p in pages;
      if pages[0] == WELL {
        LaterRefusal(pages);
      } else if Refuses(pages[0]) {
        assert FirstRefusal(pages, 0);
      }
    }
  }

  lemma LaterRefusal(pages: seq<Page>)
    requires pages != [] && pages[0] == WELL
    ensures (exists k: nat :: FirstRefusal(pages, k)) <==> exists k: nat :: FirstRefusal(pages[1..], k)
  {
    if k: nat :| FirstRefusal(pages[1..], k) {
      assert FirstRefusal(pages, k + 1);
    }
    if k: nat :| FirstRefusal(pages, k) {
      assert FirstRefusal(pages[1..], k - 1);
    }
  }

  /** When each kind of work succeeds, and when it finds the session gone. */
  lemma WorkAnswers(work: Work)
    ensures Succeeds(work) <==>
            match work
            case Counters(pages, parses) => (forall p | p in pages :: p == WELL) && parses
            case Devices(page, parses) => page == WELL && parses
            case Block(page, tokenOnPage, tokenFetched, post) =>
              page == WELL && (tokenOnPage || tokenFetched) && post == WELL
    ensures FindsGone(work) <==>
            match work
            case Counters(pages, parses) => exists k: nat :: FirstRefusal(pages, k)
            case Devices(page, parses) => Refuses(page)
            case Block(page, tokenOnPage, tokenFetched, post) =>
              Refuses(page) || (page == WELL && (tokenOnPage || tokenFetched) && Refuses(post))
  {
    match work
    case Counters(pages, parses) => PagesAnswer(pages);
    case Devices(page, parses) => PageAnswers(page);
    case Block(page, tokenOnPage, tokenFetched, post) =>
      PageAnswers(page);
      PageAnswers(post);
  }

  class HuaweiAdapter {
    const hasCredentials: bool
    var authenticated: bool
    var authErr: Option<Error>
    ghost var log: seq<Attempt>

    ghost function Contents(): State
      reads this
    {
      State(hasCredentials, authenticated, authErr, log)
    }

    constructor (hasCredentials: bool)
      ensures Contents() == Fresh(hasCredentials)
    {
      this.hasCredentials := hasCredentials;
      authenticated, authErr, log := false, None, [];
    }

    method TryLogin(l: Login) returns (error: Option<Error>)
      modifies this`log
      ensures error == Attempted(hasCredentials, l).error
      ensures log == old(log) + [Attempted(hasCredentials, l)]
    {
      log := log + [Attempted(hasCredentials, l)];
      if !hasCredentials {
        return Some(CredentialsRequired);
      }
      if !l.token {
        return Some(Other);
      }
      error := LoginError(l.reply);
    }

    method Authenticate(l: Login) returns (error: Option<Error>)
      modifies this
      ensures Contents() == Authenticated(old(Contents()), l)
      ensures error == AuthenticateError(old(Contents()), l)
    {
      if authenticated {
        return None;
      }
      if IsPermanent(authErr) {
        return authErr;
      }
      authErr := TryLogin(l);
      authenticated := authErr.None?;
      error := authErr;
    }

    method Reauthenticate(l: Login) returns (error: Option<Error>)
      modifies this
      ensures Contents() == Renewed(old(Contents()), l)
      ensures error == Contents().authErr
    {
      authenticated := false;
      authErr := None;
      authErr := TryLogin(l);
      authenticated := authErr.None?;
      error := authErr;
    }

    method BlockDevice(x: Script) returns (error: Option<Error>)
      requires x.work.Block? && x.retry.Block?
      modifies this
      ensures Contents() == Operated(old(Contents()), x)
      ensures error == OperationError(old(Contents()), x) && Answers(old(Contents()), x, error)
    {
      OperationAnswers(Contents(), x);
      error := Authenticate(x.login);
      if error.Some? {
        return;
      }
      if !x.valid {
        return Some(Other);
      }
      error := WorkError(x.work);
      if error != Some(AuthenticationFailed) {
        return;
      }
      error := Reauthenticate(x.renewal);
      if error.Some? {
        return;
      }
      error := WorkError(x.retry);
    }

    /** `ConnectionCounters` and `ConnectedDevices`, which differ only in the pages they fetch. */
    method Collect(x: Script) returns (error: Option<Error>)
      requires !x.work.Block? && !x.retry.Block? && x.valid
      modifies this
      ensures Contents() == Operated(old(Contents()), x)
      ensures error == OperationError(old(Contents()), x) && Answers(old(Contents()), x, error)
    {
      OperationAnswers(Contents(), x);
      error := Authenticate(x.login);
      if error.Some? {
        return;
      }
      error := WorkError(x.work);
      if error != Some(AuthenticationFailed) {
        return;
      }
      error := Reauthenticate(x.renewal);
      if error.Some? {
        return;
      }
      error := WorkError(x.retry);
    }
  }

  /** The worker authenticates at start-up, then runs operations one at a time. */
  datatype Op = StartUp(login: Login) | Operate(script: Script)

  function Apply(s: State, op: Op): State {
    match op
    case StartUp(login) => Authenticated(s, login)
    case Operate(script) => Operated(s, script)
  }

  function Run(s: State, ops: seq<Op>): State {
    if ops == [] then s else Apply(Run(s, ops[..|ops| - 1]), ops[|ops| - 1])
  }

  /** A permanent failure can only be the last attempt ever made. */
  predicate RejectedAtMostLast(log: seq<Attempt>) {
    forall i | 0 <= i < |log| - 1 :: !IsPermanent(log[i].error)
  }

  /** The cached error is the outcome of the last attempt. */
  predicate Remembers(s: State) {
    && s.authErr == (if s.log == [] then None else s.log[|s.log| - 1].error)
    && s.authenticated == (s.log != [] && s.authErr.None?)
    && RejectedAtMostLast(s.log)
  }

  /** `reauthenticate` clears the cached failure: it is harmless exactly when none is cached. */
  lemma RenewalSafeIff(s: State, l: Login)
    requires Remembers(s)
    ensures Remembers(Renewed(s, l)) <==> !IsPermanent(s.authErr)
  {
    var log := Renewed(s, l).log;
    if IsPermanent(s.authErr) {
      assert IsPermanent(log[|s.log| - 1].error);
    } else {
      forall i | 0 <= i < |log| - 1 ensures !IsPermanent(log[i].error) {
        assert log[i] == s.log[i];
      }
    }
  }

  lemma OpStep(s: State, op: Op)
    requires Remembers(s)
    ensures Remembers(Apply(s, op))
    ensures s.log <= Apply(s, op).log && |Apply(s, op).log| <= |s.log| + 2
    ensures IsPermanent(s.authErr) ==> Apply(s, op) == s
  {
    var login := if op.StartUp? then op.login else op.script.login;
    if !IsPermanent(s.authErr) {
      RenewalSafeIff(s, login);
    }
    var s1 := Authenticated(s, login);
    if op.Operate? && AuthenticateError(s, login).None? {
      RenewalSafeIff(s1, op.script.renewal);
    }
  }

  lemma {:induction false} RunRemembers(hasCredentials: bool, ops: seq<Op>)
    ensures Remembers(Run(Fresh(hasCredentials), ops))
    ensures Run(Fresh(hasCredentials), ops).hasCredentials == hasCredentials
  {
    if ops == [] {
    } else {
      RunRemembers(hasCredentials, ops[..|ops| - 1]);
      OpStep(Run(Fresh(hasCredentials), ops[..|ops| - 1]), ops[|ops| - 1]);
    }
  }

  function Logins(log: seq<Attempt>): nat {
    if log == [] then 0 else Logins(log[..|log| - 1]) + if log[|log| - 1].submitted then 1 else 0
  }

  lemma {:induction false} LoginsAtMost(log: seq<Attempt>, longer: seq<Attempt>)
    requires log <= longer
    ensures Logins(log) <= Logins(longer) <= Logins(log) + |longer| - |log|
  {
    if |longer| > |log| {
      assert longer[..|longer| - 1][..|log|] == longer[..|log|];
      LoginsAtMost(log, longer[..|longer| - 1]);
    } else {
      assert longer == log;
    }
  }

  /**
   Lockout safety, for any router and any sequence of operations run one at a
   time: no attempt ever follows a permanent failure, so there is at most one;
   and a single operation submits the credentials at most twice.
   */
  lemma {:induction false} LockoutSafety(hasCredentials: bool, ops: seq<Op>, op: Op)
    ensures var s := Run(Fresh(hasCredentials), ops);
            && RejectedAtMostLast(s.log)
            && Logins(Apply(s, op).log) <= Logins(s.log) + 2
            && (IsPermanent(s.authErr) ==> Apply(s, op) == s)
  {
    RunRemembers(hasCredentials, ops);
    var s := Run(Fresh(hasCredentials), ops);
    OpStep(s, op);
    LoginsAtMost(s.log, Apply(s, op).log);
  }

  /** The pages of an operation show that the session is gone, so that it will be renewed. */
  predicate SessionExpires(op: Op) {
    op.Operate? && op.script.valid && WorkError(op.script.work) == Some(AuthenticationFailed)
  }

  lemma LogOnlyGrows(s: State, op: Op)
    ensures s.log <= Apply(s, op).log
  {}

  /**
   Once start-up has logged in, the adapter makes no other attempt exactly while no
   operation finds its session gone; until then its state does not change at all.
   */
  lemma {:induction false} OneAttemptIff(login: Login, ops: seq<Op>)
    requires Authenticated(Fresh(true), login).authErr.None?
    ensures var started := Authenticated(Fresh(true), login);
            var s := Run(started, ops);
            && |s.log| >= 1
            && (|s.log| == 1 <==> forall op | op in ops :: !SessionExpires(op))
            && (|s.log| == 1 ==> s == started)
  {
    if ops == [] {
    } else {
      var front, op := ops[..|ops| - 1], ops[|ops| - 1];
      OneAttemptIff(login, front);
      LogOnlyGrows(Run(Authenticated(Fresh(true), login), front), op);
      assert ops == front + [op];
      if exists x :: x in front && SessionExpires(x) {
        var x :| x in front && SessionExpires(x);
        assert x in ops;
      } else {
        WhileLoggedIn(Authenticated(Fresh(true), login), op);
        assert op in ops;
      }
    }
  }

  lemma WhileLoggedIn(s: State, op: Op)
    requires s.authenticated
    ensures if SessionExpires(op) then |Apply(s, op).log| == |s.log| + 1 else Apply(s, op) == s
  {}

  const GOOD := Login(true, Answer(200, true, false, false, false, false, false, Silence))
  const REFUSED := Login(true, Answer(200, true, false, true, false, false, false, Silence))

  const EXPIRED := Devices(Page(403, true, false), true)
  const LISTED := Devices(Page(200, true, false), true)
  const UNREACHABLE := Login(false, NoAnswer)

  /** Without credentials nothing is ever submitted, and the one attempt is remembered as permanent. */
  lemma {:induction false} NothingWithoutCredentials(ops: seq<Op>)
    ensures var s := Run(Fresh(false), ops);
            && s.log == (if ops == [] then [] else [Attempt(false, Some(CredentialsRequired))])
            && s.authErr == (if ops == [] then None else Some(CredentialsRequired))
  {
    if ops == [] {
    } else {
      RunRemembers(false, ops[..|ops| - 1]);
      NothingWithoutCredentials(ops[..|ops| - 1]);
    }
  }

  /**
   Three attempts, one at a time: start-up, a renewal that fails in passing, and its
   retry by the next operation. The first operation reports the failure, the second
   succeeds; had the renewal logged in, the first would have succeeded.
   */
  lemma FailedRenewalIsRetried()
    ensures var s := Run(Fresh(true), [StartUp(GOOD)]);
            var s' := Apply(s, Operate(Script(GOOD, true, EXPIRED, UNREACHABLE, LISTED)));
            && OperationError(s, Script(GOOD, true, EXPIRED, UNREACHABLE, LISTED)) == Some(Other)
            && OperationError(s', Script(GOOD, true, LISTED, GOOD, LISTED)) == None
            && OperationError(s, Script(GOOD, true, EXPIRED, GOOD, LISTED)) == None
    ensures var s := Run(Fresh(true), [StartUp(GOOD)] + [Operate(Script(GOOD, true, EXPIRED, UNREACHABLE, LISTED))]
                                      + [Operate(Script(GOOD, true, LISTED, GOOD, LISTED))]);
            s.log == [Attempt(true, None)] + [Attempt(false, Some(Other))] + [Attempt(true, None)] && s.authenticated
  {
    var first := [StartUp(GOOD)];
    var expired := Operate(Script(GOOD, true, EXPIRED, UNREACHABLE, LISTED));
    var listed := Operate(Script(GOOD, true, LISTED, GOOD, LISTED));
    assert first[..0] == [] && (first + [expired])[..1] == first
           && (first + [expired] + [listed])[..2] == first + [expired];
    var s1 := Apply(Fresh(true), first[0]);
    assert Run(Fresh(true), first) == s1;
    assert s1.log == [Attempt(true, None)] && s1.authenticated;
    var s2 := Apply(s1, expired);
    assert Run(Fresh(true), first + [expired]) == s2;
    assert s2.log == [Attempt(true, None)] + [Attempt(false, Some(Other))] && !s2.authenticated;
    assert Run(Fresh(true), first + [expired] + [listed]) == Apply(s2, listed);
  }

  /** Two operations that overlap both renew an expired session, and the router refuses two logins. */
  lemma OverlappingRenewalsAreRefusedTwice()
    ensures var s := Renewed(Renewed(Authenticated(Fresh(true), GOOD), REFUSED), REFUSED);
            s.log == [Attempt(true, None), Attempt(true, Some(AuthenticationFailed)),
              Attempt(true, Some(AuthenticationFailed))]
            && !RejectedAtMostLast(s.log)
  {
    var s := Renewed(Renewed(Authenticated(Fresh(true), GOOD), REFUSED), REFUSED);
    assert IsPermanent(s.log[1].error);
  }
}
