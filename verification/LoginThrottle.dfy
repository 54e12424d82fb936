/** The login throttle on one username and client (api/internal/httpapi/auth.go). */
module LoginThrottle {
  import opened Prelude

  const LIMIT: nat := 5
  const WINDOW: int := 15 * MINUTE

  /** The Redis counter; with `count` 0 there is no key. */
  datatype Key = Key(count: nat, expiresAt: int)

  const ABSENT := Key(0, 0)

  datatype Outcome = Limited | Failed | Succeeded

  datatype Attempt = Attempt(at: int, correct: bool)

  function Current(k: Key, now: int): nat {
    if k.count > 0 && now < k.expiresAt then k.count else 0
  }

  function OutcomeOf(k: Key, a: Attempt): Outcome {
    if Current(k, a.at) >= LIMIT then Limited else if a.correct then Succeeded else Failed
  }

  function After(k: Key, a: Attempt): Key {
    match OutcomeOf(k, a)
    case Limited => k
    case Failed => Key(Current(k, a.at) + 1, a.at + WINDOW)
    case Succeeded => ABSENT
  }

  class Throttle {
    var count: nat
    var expiresAt: int

    function Contents(): Key
      reads this
    {
      Key(count, expiresAt)
    }

    constructor ()
      ensures Contents() == ABSENT
    {
      count, expiresAt := 0, 0;
    }

    method LoginLimited(now: int) returns (limited: bool)
      ensures limited <==> Current(Contents(), now) >= LIMIT
    {
      limited := count > 0 && now < expiresAt && count >= LIMIT;
    }

    method RecordLoginFailure(now: int)
      modifies this
      ensures Contents() == Key(Current(old(Contents()), now) + 1, now + WINDOW)
    {
      if count == 0 || now >= expiresAt {
        count := 0;
      }
      count := count + 1;
      expiresAt := now + WINDOW;
    }

    method ClearLoginFailures()
      modifies this
      ensures Contents() == ABSENT
    {
      count, expiresAt := 0, 0;
    }

    method Login(a: Attempt) returns (outcome: Outcome)
      modifies this
      ensures outcome == Limited <==> old(count) >= 5 && a.at < old(expiresAt)
      ensures outcome == Succeeded ==> a.correct && count == 0
      ensures outcome == Failed ==>
                && !a.correct && expiresAt == a.at + 15 * MINUTE
                && count == if a.at < old(expiresAt) then old(count) + 1 else 1
      ensures outcome == Limited ==> count == old(count) && expiresAt == old(expiresAt)
      ensures outcome == OutcomeOf(old(Contents()), a)
      ensures Contents() == After(old(Contents()), a)
    {
      var limited := LoginLimited(a.at);
      if limited {
        return Limited;
      }
      if !a.correct {
        RecordLoginFailure(a.at);
        return Failed;
      }
      ClearLoginFailures();
      outcome := Succeeded;
    }
  }

  function Run(attempts: seq<Attempt>): Key {
    if attempts == [] then ABSENT else After(Run(attempts[..|attempts| - 1]), attempts[|attempts| - 1])
  }

  function Outcomes(attempts: seq<Attempt>): seq<Outcome> {
    seq(|attempts|, i requires 0 <= i < |attempts| => OutcomeOf(Run(attempts[..i]), attempts[i]))
  }

  /** An attempt succeeds exactly with the right password while not refused, and fails exactly with a wrong one. */
  lemma OutcomesMean(attempts: seq<Attempt>, i: nat)
    requires i < |attempts|
    ensures Outcomes(attempts)[i] == Succeeded <==> attempts[i].correct && Outcomes(attempts)[i] != Limited
    ensures Outcomes(attempts)[i] == Failed <==> !attempts[i].correct && Outcomes(attempts)[i] != Limited
  {}

  predicate Timed(attempts: seq<Attempt>) {
    forall i, j | 0 <= i < j < |attempts| :: attempts[i].at <= attempts[j].at
  }

  function Failures(outcomes: seq<Outcome>): nat {
    if outcomes == [] then 0
    else Failures(outcomes[..|outcomes| - 1]) + if outcomes[|outcomes| - 1] == Failed then 1 else 0
  }

  lemma {:induction false} CountBounded(attempts: seq<Attempt>)
    ensures Run(attempts).count <= LIMIT
  {
    if attempts == [] {
    } else {
      CountBounded(attempts[..|attempts| - 1]);
    }
  }

  lemma OutcomesPrefix(attempts: seq<Attempt>)
    requires attempts != []
    ensures var n := |attempts| - 1;
            Outcomes(attempts) == Outcomes(attempts[..n]) + [OutcomeOf(Run(attempts[..n]), attempts[n])]
  {
    var n := |attempts| - 1;
    forall i | 0 <= i < n ensures Outcomes(attempts)[i] == Outcomes(attempts[..n])[i] {
      assert attempts[..n][..i] == attempts[..i];
    }
  }

  /** From attempt `i` on nothing succeeds, and all of it falls within one window. */
  predicate Quiet(attempts: seq<Attempt>, i: nat) {
    && |Outcomes(attempts)| == |attempts|
    && forall k | i <= k < |attempts| ::
       Outcomes(attempts)[k] != Succeeded && attempts[i].at <= attempts[k].at < attempts[i].at + WINDOW
  }

  predicate Remembers(k: Key, failures: nat, until: int) {
    failures > 0 ==> k.count >= failures && k.expiresAt >= until
  }

  lemma RemembersStep(k: Key, a: Attempt, failures: nat, start: int)
    requires start <= a.at < start + WINDOW && OutcomeOf(k, a) != Succeeded
    requires Remembers(k, failures, start + WINDOW)
    ensures Remembers(After(k, a), failures + if OutcomeOf(k, a) == Failed then 1 else 0, start + WINDOW)
  {}

  lemma QuietPrefix(attempts: seq<Attempt>, i: nat)
    requires i < |attempts| - 1 && Quiet(attempts, i)
    ensures Quiet(attempts[..|attempts| - 1], i)
  {
    OutcomesPrefix(attempts);
  }

  lemma FailuresFrom(attempts: seq<Attempt>, i: nat)
    requires i < |attempts|
    ensures var n := |attempts| - 1;
            Failures(Outcomes(attempts)[i..])
            == Failures(Outcomes(attempts[..n])[i..])
              + if OutcomeOf(Run(attempts[..n]), attempts[n]) == Failed then 1 else 0
  {
    var n := |attempts| - 1;
    var before, o := Outcomes(attempts[..n]), OutcomeOf(Run(attempts[..n]), attempts[n]);
    OutcomesPrefix(attempts);
    assert (before + [o])[i..] == before[i..] + [o];
    FailuresSnoc(before[i..], o);
  }

  /**
   From attempt `i` on, without a success, the key remembers every failure while the span is
   shorter than the window.
   */
  lemma {:induction false} KeyRemembers(attempts: seq<Attempt>, i: nat)
    requires i < |attempts| && Quiet(attempts, i)
    ensures Remembers(Run(attempts), Failures(Outcomes(attempts)[i..]), attempts[i].at + WINDOW)
  {
    var n := |attempts| - 1;
    var front := attempts[..n];
    FailuresFrom(attempts, i);
    var failures := Failures(Outcomes(front)[i..]);
    if i < n {
      QuietPrefix(attempts, i);
      KeyRemembers(front, i);
    } else {
      assert failures == 0;
    }
    assert Outcomes(attempts)[n] == OutcomeOf(Run(front), attempts[n]);
    RemembersStep(Run(front), attempts[n], failures, attempts[i].at);
  }

  lemma FailuresSnoc(outcomes: seq<Outcome>, o: Outcome)
    ensures Failures(outcomes + [o]) == Failures(outcomes) + if o == Failed then 1 else 0
  {
    assert (outcomes + [o])[..|outcomes|] == outcomes;
  }

  /** In any span shorter than 15 minutes with no success in it, at most 5 password checks fail. */
  lemma AtMostFiveFailures(attempts: seq<Attempt>, i: nat, j: nat)
    requires i <= j < |attempts| && Timed(attempts)
    requires attempts[j].at - attempts[i].at < WINDOW
    requires forall k | i <= k <= j :: Outcomes(attempts)[k] != Succeeded
    ensures Failures(Outcomes(attempts)[i..j + 1]) <= LIMIT
  {
    var upTo := attempts[..j + 1];
    QuietUpTo(attempts, i, j);
    KeyRemembers(upTo, i);
    CountBounded(upTo);
    OutcomesOfPrefix(attempts, j + 1);
    assert Outcomes(upTo)[i..] == Outcomes(attempts)[i..j + 1];
  }

  lemma QuietUpTo(attempts: seq<Attempt>, i: nat, j: nat)
    requires i <= j < |attempts| && Timed(attempts)
    requires attempts[j].at - attempts[i].at < WINDOW
    requires forall k | i <= k <= j :: Outcomes(attempts)[k] != Succeeded
    ensures Quiet(attempts[..j + 1], i)
  {
    var upTo := attempts[..j + 1];
    OutcomesOfPrefix(attempts, j + 1);
    forall k | i <= k < |upTo|
      ensures Outcomes(upTo)[k] != Succeeded && upTo[i].at <= upTo[k].at < upTo[i].at + WINDOW {
      assert upTo[k] == attempts[k] && Outcomes(upTo)[k] == Outcomes(attempts)[k];
      assert attempts[k].at <= attempts[j].at;
    }
  }

  lemma OutcomesOfPrefix(attempts: seq<Attempt>, n: nat)
    requires n <= |attempts|
    ensures Outcomes(attempts[..n]) == Outcomes(attempts)[..n]
  {
    forall i | 0 <= i < n ensures Outcomes(attempts[..n])[i] == Outcomes(attempts)[i] {
      assert attempts[..n][..i] == attempts[..i];
    }
  }

  /** The last attempt that was counted as a failure, unless a success came after it. */
  predicate LastCounted(attempts: seq<Attempt>, f: nat) {
    f < |attempts| && Outcomes(attempts)[f] == Failed && forall k | f < k < |attempts| ::
      Outcomes(attempts)[k] == Limited
  }

  lemma {:induction false} KeyExpiry(attempts: seq<Attempt>) returns (f: nat)
    ensures Run(attempts).count > 0 ==> LastCounted(attempts, f) && Run(attempts).expiresAt == attempts[f].at + WINDOW
  {
    f := 0;
    if attempts == [] {
    } else {
      var n := |attempts| - 1;
      OutcomesPrefix(attempts);
      var o := OutcomeOf(Run(attempts[..n]), attempts[n]);
      if o == Failed {
        f := n;
      } else if o == Limited {
        f := KeyExpiry(attempts[..n]);
      }
    }
  }

  /** The time of the latest counted failure from attempt `s` on. */
  function LastFailure(attempts: seq<Attempt>, s: nat): Option<int> {
    if |attempts| <= s then None
    else
      var n := |attempts| - 1;
      if OutcomeOf(Run(attempts[..n]), attempts[n]) == Failed then Some(attempts[n].at)
        else LastFailure(attempts[..n], s)
  }

  /**
   From attempt `s` on nothing succeeds, and each counted failure comes less than 15 minutes
   after the one before it.
   */
  predicate Linked(attempts: seq<Attempt>, s: nat) {
    |attempts| > s ==>
      var n := |attempts| - 1;
      var o, before := OutcomeOf(Run(attempts[..n]), attempts[n]), LastFailure(attempts[..n], s);
      && Linked(attempts[..n], s) && o != Succeeded
      && (o == Failed && before.Some? ==> attempts[n].at < before.value + WINDOW)
  }

  function FailuresSince(attempts: seq<Attempt>, s: nat): nat
    requires s <= |attempts|
  {
    Failures(Outcomes(attempts)[s..])
  }

  lemma NoneSinceNow(attempts: seq<Attempt>)
    ensures FailuresSince(attempts, |attempts|) == 0
  {
    assert Outcomes(attempts)[|attempts|..] == [];
  }

  /** The key counts at least the linked failures of any stretch up to now, and expires after the last of them. */
  lemma {:induction false} KeyHolds(attempts: seq<Attempt>, s: nat)
    requires s <= |attempts| && Linked(attempts, s)
    ensures FailuresSince(attempts, s) > 0 <==> LastFailure(attempts, s).Some?
    ensures FailuresSince(attempts, s) > 0 ==>
              Run(attempts).count >= FailuresSince(attempts, s)
                && Run(attempts).expiresAt == LastFailure(attempts, s).value + WINDOW
  {
    if s == |attempts| {
      NoneSinceNow(attempts);
    } else {
      FailuresFrom(attempts, s);
      KeyHolds(attempts[..|attempts| - 1], s);
    }
  }

  /** The key counts exactly the linked failures since the last success or expiry. */
  lemma {:induction false} KeyBegins(attempts: seq<Attempt>) returns (s: nat)
    ensures s <= |attempts| && Linked(attempts, s) && Run(attempts).count == FailuresSince(attempts, s)
  {
    if attempts == [] {
      s := 0;
      NoneSinceNow(attempts);
    } else {
      var n := |attempts| - 1;
      var front := attempts[..n];
      s := KeyBegins(front);
      KeyHolds(front, s);
      var o := OutcomeOf(Run(front), attempts[n]);
      if o == Succeeded {
        s := |attempts|;
        NoneSinceNow(attempts);
      } else if o == Failed && Current(Run(front), attempts[n].at) != Run(front).count {
        s := n;
        FailuresFrom(attempts, s);
        NoneSinceNow(front);
      } else {
        FailuresFrom(attempts, s);
      }
    }
  }

  /**
   From attempt `s` on five linked failures were counted, the last of them less than 15 minutes
   before the new attempt.
   */
  predicate Exhausted(attempts: seq<Attempt>, s: nat, a: Attempt) {
    && s <= |attempts| && Linked(attempts, s) && FailuresSince(attempts, s) == LIMIT
    && LastFailure(attempts, s).Some? && a.at < LastFailure(attempts, s).value + WINDOW
  }

  lemma ExhaustedIsLimited(attempts: seq<Attempt>, s: nat, a: Attempt)
    requires Exhausted(attempts, s, a)
    ensures OutcomeOf(Run(attempts), a) == Limited
  {
    KeyHolds(attempts, s);
  }

  lemma LimitedIsExhausted(attempts: seq<Attempt>, a: Attempt) returns (s: nat)
    requires OutcomeOf(Run(attempts), a) == Limited
    ensures Exhausted(attempts, s, a)
  {
    CountBounded(attempts);
    s := KeyBegins(attempts);
    KeyHolds(attempts, s);
  }

  /**
   An attempt is refused exactly when five failures have been counted since the
   last success or expiry and the last of them is less than 15 minutes ago; refused
   attempts do not prolong it.
   */
  lemma AdmittedAgain(attempts: seq<Attempt>, a: Attempt)
    ensures OutcomeOf(Run(attempts), a) == Limited <==> exists s: nat :: Exhausted(attempts, s, a)
  {
    forall s: nat | Exhausted(attempts, s, a) ensures OutcomeOf(Run(attempts), a) == Limited {
      ExhaustedIsLimited(attempts, s, a);
    }
    if OutcomeOf(Run(attempts), a) == Limited {
      var s := LimitedIsExhausted(attempts, a);
    }
  }
}
