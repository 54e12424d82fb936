/** Health and retry pacing of the ingestion worker (api/internal/collector/collector.go). */
module Collector {
  import opened Prelude
  import opened Streaks

  /** What one poll met: the counter page, the ledger, the device page and the device tables, in that order. */
  datatype Poll = Poll(counters: Option<string>, ledger: Option<string>, devices: DevicesReply, tables: Option<string>)
  datatype DevicesReply = Unsupported | Failed(message: string) | Listed

  /** `collect`: an adapter without a device list is not a failure; every failure is reported with a prefix. */
  function CollectError(p: Poll): (e: Option<string>)
    ensures e.None?
            <==> p.counters.None? && p.ledger.None? && (p.devices.Unsupported? || (p.devices.Listed? && p.tables.None?))
    ensures e.Some? ==> e.value != ""
  {
    if p.counters.Some? then Some("collect router counters: " + p.counters.value)
    else if p.ledger.Some? then Some("store router counters: " + p.ledger.value)
    else match p.devices
      case Unsupported => None
      case Failed(message) => Some("collect connected devices: " + message)
      case Listed => if p.tables.Some? then Some("store connected devices: " + p.tables.value) else None
  }

  /** `events` holds the detail of every `collection_failed` event the worker tried to record. */
  datatype Status = Status(heartbeatAt: int, lastAttemptAt: Option<int>, lastSuccessAt: Option<int>,
                           lastError: string, failures: nat, events: seq<string>)

  function Fresh(now: int): Status {
    Status(now, None, None, "", 0, [])
  }

  function Recorded(s: Status, error: Option<string>, now: int): Status {
    if error.None?
      then s.(heartbeatAt := now, lastAttemptAt := Some(now), lastSuccessAt := Some(now), lastError := "",
        failures := 0)
    else
      s.(heartbeatAt := now, lastAttemptAt := Some(now), lastError := error.value, failures := s.failures + 1,
         events := if s.failures == 0 then s.events + [error.value] else s.events)
  }

  /** `1 << n`. */
  function Doubled(n: nat): (r: nat)
    ensures r >= 1
  {
    if n == 0 then 1 else 2 * Doubled(n - 1)
  }

  function Delay(failures: nat, interval: int): int {
    if failures == 0 then interval
    else
      var backoff := 5 * SECOND * Doubled(if failures - 1 < 6 then failures - 1 else 6);
      if backoff > interval then interval else backoff
  }

  lemma {:induction false} DoubledAscends(a: nat, b: nat)
    requires a <= b
    ensures Doubled(a) <= Doubled(b)
  {
    if a < b { DoubledAscends(a, b - 1); }
  }

  lemma SixDoublings()
    ensures Doubled(6) == 64
  {
    assert Doubled(3) == 8;
    assert Doubled(6) == 8 * Doubled(3);
  }

  /**
   Along a failure streak the delay never shrinks, and it stays between 5 s and the smaller of
   the interval and 320 s.
   */
  lemma DelayBounds(shorter: nat, longer: nat, interval: int)
    requires 0 < shorter <= longer && interval >= 5 * SECOND
    ensures Delay(shorter, interval) <= Delay(longer, interval)
    ensures 5 * SECOND <= Delay(longer, interval) <= interval && Delay(longer, interval) <= 320 * SECOND
  {
    var a := if shorter - 1 < 6 then shorter - 1 else 6;
    var b := if longer - 1 < 6 then longer - 1 else 6;
    DoubledAscends(a, b);
    DoubledAscends(b, 6);
    SixDoublings();
  }

  /** The delays one by one: 5 s doubled six times, and never more than the interval. */
  lemma DelayTable(failures: nat, interval: int)
    requires failures > 0
    ensures var backoff := [5, 10, 20, 40, 80, 160, 320][if failures <= 7 then failures - 1 else 6] * SECOND;
            Delay(failures, interval) == if backoff > interval then interval else backoff
  {
    assert Doubled(1) == 2 && Doubled(2) == 4 && Doubled(3) == 8 && Doubled(4) == 16;
    assert Doubled(5) == 2 * Doubled(4) && Doubled(6) == 2 * Doubled(5);
  }

  predicate Ends(text: string, tail: string) {
    |text| >= |tail| && text[|text| - |tail|..] == tail
  }

  /** A failed poll reports the text of the first step that failed. */
  lemma FirstFailureIsReported(p: Poll)
    ensures p.counters.Some? ==> Ends(CollectError(p).value, p.counters.value)
    ensures p.counters.None? && p.ledger.Some? ==> Ends(CollectError(p).value, p.ledger.value)
    ensures p.counters.None? && p.ledger.None? && p.devices.Failed? ==> Ends(CollectError(p).value, p.devices.message)
    ensures p.counters.None? && p.ledger.None? && p.devices.Listed? && p.tables.Some? ==>
              Ends(CollectError(p).value, p.tables.value)
  {}

  class Collector {
    const interval: int
    var heartbeatAt: int
    var lastAttemptAt: Option<int>
    var lastSuccessAt: Option<int>
    var lastError: string
    var consecutiveFailures: nat
    var events: seq<string>

    function Contents(): Status
      reads this
    {
      Status(heartbeatAt, lastAttemptAt, lastSuccessAt, lastError, consecutiveFailures, events)
    }

    constructor (interval: int, now: int)
      ensures Contents() == Fresh(now) && this.interval == interval
    {
      this.interval := interval;
      heartbeatAt, lastAttemptAt, lastSuccessAt := now, None, None;
      lastError, consecutiveFailures, events := "", 0, [];
    }

    method RecordResult(error: Option<string>, now: int)
      modifies this
      ensures Contents() == Recorded(old(Contents()), error, now)
    {
      heartbeatAt := now;
      lastAttemptAt := Some(now);
      if error.None? {
        lastSuccessAt := Some(now);
        lastError := "";
        consecutiveFailures := 0;
      } else {
        lastError := error.value;
        consecutiveFailures := consecutiveFailures + 1;
        if consecutiveFailures == 1 {
          events := events + [error.value];
        }
      }
    }

    method RunCollection(poll: Poll, now: int) returns (delay: int)
      modifies this
      ensures Contents() == Recorded(old(Contents()), CollectError(poll), now)
      ensures delay == Delay(Contents().failures, interval)
    {
      var error := CollectError(poll);
      RecordResult(error, now);
      if error.None? {
        return interval;
      }
      var shift := if consecutiveFailures - 1 < 6 then consecutiveFailures - 1 else 6;
      delay := 5 * SECOND * Doubled(shift);
      if delay > interval {
        delay := interval;
      }
    }
  }

  datatype Outcome = Outcome(error: Option<string>, at: int)

  function Run(now: int, results: seq<Outcome>): Status {
    if results == [] then Fresh(now)
    else
      var last := results[|results| - 1];
      Recorded(Run(now, results[..|results| - 1]), last.error, last.at)
  }

  function Failing(results: seq<Outcome>): seq<bool> {
    seq(|results|, i requires 0 <= i < |results| => results[i].error.Some?)
  }

  lemma {:induction false} FailuresTrail(now: int, results: seq<Outcome>)
    ensures var s := Run(now, results);
            s.failures == Trailing(Failing(results)) && |s.events| == RisingEdges(Failing(results))
  {
    if results == [] {
    } else {
      var n := |results| - 1;
      FailuresTrail(now, results[..n]);
      assert Failing(results)[..n] == Failing(results[..n]);
      EdgesSnoc(Failing(results[..n]), results[n].error.Some?);
      assert Failing(results) == Failing(results[..n]) + [results[n].error.Some?];
    }
  }

  /**
   Health over any run: the counter is the length of the failure streak that
   reaches the present, and one event was attempted for each maximal streak.
   */
  lemma {:induction false} HealthOverRuns(now: int, results: seq<Outcome>)
    ensures var s := Run(now, results);
            var failing := Failing(results);
            && |s.events| == |MaximalRuns(failing)|
            && (forall k: Streak :: k in MaximalRuns(failing) <==> IsStreak(failing, k.from, k.to))
            && (s.failures == 0 <==> results == [] || !failing[|results| - 1])
            && (s.failures > 0 ==> IsStreak(failing, |results| - s.failures, |results|))
  {
    CounterIsStreak(now, results);
    StreaksExact(Failing(results));
    FailuresTrail(now, results);
  }

  lemma CounterIsStreak(now: int, results: seq<Outcome>)
    ensures var failures := Run(now, results).failures;
            && (failures == 0 <==> results == [] || !Failing(results)[|results| - 1])
            && (failures > 0 ==> IsStreak(Failing(results), |results| - failures, |results|))
  {
    FailuresTrail(now, results);
    if results != [] && Failing(results)[|results| - 1] {
      TrailingStreak(Failing(results));
    }
  }

  /** The latest success, if there was one. */
  predicate LastSuccess(results: seq<Outcome>, i: nat) {
    i < |results| && results[i].error.None? && forall k | i < k < |results| :: results[k].error.Some?
  }

  /** The errors that began a streak of failures. */
  function FirstErrors(results: seq<Outcome>): seq<string> {
    if results == [] then []
    else
      var n := |results| - 1;
      var begins := results[n].error.Some? && (n == 0 || results[n - 1].error.None?);
      FirstErrors(results[..n]) + if begins then [results[n].error.value] else []
  }

  lemma {:induction false} SuccessesRecorded(now: int, results: seq<Outcome>)
    ensures var s := Run(now, results);
            && (s.lastSuccessAt.None? <==> forall i | 0 <= i < |results| :: results[i].error.Some?)
            && (forall i: nat | LastSuccess(results, i) :: s.lastSuccessAt == Some(results[i].at))
  {
    if results == [] {
    } else {
      var n := |results| - 1;
      SuccessesRecorded(now, results[..n]);
      forall i: nat | LastSuccess(results, i) ensures Run(now, results).lastSuccessAt == Some(results[i].at) {
        if i < n {
          assert results[n].error.Some? && LastSuccess(results[..n], i);
        }
      }
    }
  }

  /**
   What the health record shows over any run: the times of the latest attempt and
   success, the error of a latest attempt that failed, and for each streak of failures
   an event with its first error.
   */
  lemma {:induction false} StatusOverRuns(now: int, results: seq<Outcome>)
    ensures var s := Run(now, results);
            && s.events == FirstErrors(results)
            && (results == [] ==> s.lastAttemptAt.None? && s.heartbeatAt == now && s.lastError == "")
            && (results != [] ==>
                  var last := results[|results| - 1];
                  && s.lastAttemptAt == Some(last.at) && s.heartbeatAt == last.at
                  && s.lastError == if last.error.Some? then last.error.value else "")
            && (s.lastSuccessAt.None? <==> forall i | 0 <= i < |results| :: results[i].error.Some?)
            && (forall i: nat | LastSuccess(results, i) :: s.lastSuccessAt == Some(results[i].at))
  {
    SuccessesRecorded(now, results);
    EventsAreFirstErrors(now, results);
  }

  lemma {:induction false} EventsAreFirstErrors(now: int, results: seq<Outcome>)
    ensures Run(now, results).events == FirstErrors(results)
    ensures Run(now, results).failures == 0 <==> results == [] || results[|results| - 1].error.None?
  {
    if results == [] {
    } else {
      EventsAreFirstErrors(now, results[..|results| - 1]);
    }
  }
}
