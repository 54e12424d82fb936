/**
 The reading and interval tables (api/internal/store/ingestion.go): a cumulative
 reading is stored once per instant, and becomes an interval when it is newer
 than the latest stored reading of its source.
 */
module Ledger {
  import opened Prelude
  import opened Counters

  const MAX_BIGINT: int := 0x7FFF_FFFF_FFFF_FFFF
  const ZERO_TIME: int := 0

  datatype Reading = Reading(counters: TrafficCounters, source: string)

  datatype Interval = Interval(startedAt: int, endedAt: int, usage: Delta, estimated: bool, source: string)

  /** Rows in insertion order; `resets` holds the detail of each `counter_reset` event. */
  datatype Tables = Tables(readings: seq<Reading>, intervals: seq<Interval>, resets: seq<int>)

  const EMPTY := Tables([], [], [])

  datatype RecordError = SourceRequired | CounterOutOfRange

  /** The newest reading of a source: `where source=$1 order by recorded_at desc limit 1`. */
  function Latest(readings: seq<Reading>, source: string): (r: Option<TrafficCounters>)
    ensures r.None? <==> forall x | x in readings :: x.source != source
    ensures r.Some? ==> Reading(r.value, source) in readings
    ensures r.Some? ==> forall x | x in readings && x.source == source :: x.counters.recordedAt <= r.value.recordedAt
  {
    if readings == [] then None
    else
      var rest := Latest(readings[..|readings| - 1], source);
      var last := readings[|readings| - 1];
      if last.source == source && (rest.None? || rest.value.recordedAt < last.counters.recordedAt)
      then Some(last.counters) else rest
  }

  /** The unique index on `recorded_at` ranges over every source. */
  predicate TimeTaken(readings: seq<Reading>, at: int) {
    exists r | r in readings :: r.counters.recordedAt == at
  }

  /** The columns are signed 64-bit, so a larger counter aborts the transaction. */
  predicate Storable(c: TrafficCounters) {
    c.download <= MAX_BIGINT && c.upload <= MAX_BIGINT && c.uptime <= MAX_BIGINT
  }

  predicate Extends(readings: seq<Reading>, source: string, c: TrafficCounters) {
    var previous := Latest(readings, source);
    previous.Some? && previous.value.recordedAt != ZERO_TIME && c.recordedAt > previous.value.recordedAt
  }

  function IntervalBetween(previous: TrafficCounters, c: TrafficCounters, source: string): Interval {
    Interval(previous.recordedAt, c.recordedAt, CalculateDelta(previous, c),
             c.recordedAt - previous.recordedAt > 2 * MINUTE, source)
  }

  /** The tables after a committed `RecordConnectionReading`. */
  function Recorded(t: Tables, source: string, c: TrafficCounters): Tables {
    var stored := if TimeTaken(t.readings, c.recordedAt) then t.readings else t.readings + [Reading(c, source)];
    if !Extends(t.readings, source, c) then t.(readings := stored)
    else
      var interval := IntervalBetween(Latest(t.readings, source).value, c, source);
      Tables(stored, t.intervals + [interval],
             if interval.usage.reset then t.resets + [c.recordedAt] else t.resets)
  }

  function Since(readings: seq<Reading>, before: int): (kept: seq<Reading>)
    ensures forall r :: r in kept <==> r in readings && r.counters.recordedAt >= before
  {
    if readings == [] then []
    else
      var rest := Since(readings[..|readings| - 1], before);
      var last := readings[|readings| - 1];
      if last.counters.recordedAt < before then rest else rest + [last]
  }

  /** A call of the store. */
  datatype Op = Record(source: string, counters: TrafficCounters) | Prune(before: int)

  function Apply(t: Tables, op: Op): Tables {
    match op
    case Record(source, c) => if source != "" && Storable(c) then Recorded(t, source, c) else t
    case Prune(before) => t.(readings := Since(t.readings, before))
  }

  class Store {
    var readings: seq<Reading>
    var intervals: seq<Interval>
    var resets: seq<int>

    function Contents(): Tables
      reads this
    {
      Tables(readings, intervals, resets)
    }

    constructor ()
      ensures Contents() == EMPTY
    {
      readings, intervals, resets := [], [], [];
    }

    method RecordConnectionReading(source: string, reading: TrafficCounters) returns (r: Result<(), RecordError>)
      modifies this
      ensures r.Ok? <==>
                && source != "" && reading.download < 0x8000_0000_0000_0000
                && reading.upload < 0x8000_0000_0000_0000 && reading.uptime < 0x8000_0000_0000_0000
      ensures r == Err(SourceRequired) <==> source == ""
      ensures Contents() == if r.Ok? then Recorded(old(Contents()), source, reading) else old(Contents())
      ensures Contents() == Apply(old(Contents()), Record(source, reading))
    {
      if source == "" {
        return Err(SourceRequired);
      }
      var latest := Latest(readings, source);
      var previous := if latest.Some? then latest.value else TrafficCounters(ZERO_TIME, 0, 0, 0);
      if !Storable(reading) {
        return Err(CounterOutOfRange);
      }
      if !TimeTaken(readings, reading.recordedAt) {
        readings := readings + [Reading(reading, source)];
      }
      if previous.recordedAt != ZERO_TIME && reading.recordedAt > previous.recordedAt {
        var delta := CalculateDelta(previous, reading);
        var estimated := reading.recordedAt - previous.recordedAt > 2 * MINUTE;
        intervals := intervals + [Interval(previous.recordedAt, reading.recordedAt, delta, estimated, source)];
        if delta.reset {
          resets := resets + [reading.recordedAt];
        }
      }
      r := Ok(());
    }

    /** Usage intervals and events outlive the raw readings they came from. */
    method PruneRawData(before: int)
      modifies this
      ensures Contents() == old(Contents()).(readings := Since(old(readings), before))
      ensures Contents() == Apply(old(Contents()), Prune(before))
    {
      readings := Since(readings, before);
    }
  }
}
