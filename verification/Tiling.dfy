/** What the intervals of one source look like after any history of the ledger. */
module Tiling {
  import opened Prelude
  import opened Counters
  import opened Ledger

  function Of(intervals: seq<Interval>, source: string): (r: seq<Interval>)
    ensures forall i :: i in r <==> i in intervals && i.source == source
  {
    if intervals == [] then []
    else
      var last := intervals[|intervals| - 1];
      Of(intervals[..|intervals| - 1], source) + if last.source == source then [last] else []
  }

  lemma OfSnoc(intervals: seq<Interval>, x: Interval, source: string)
    ensures Of(intervals + [x], source) == Of(intervals, source) + if x.source == source then [x] else []
  {
    assert (intervals + [x])[..|intervals|] == intervals;
  }

  /** The first-arrived reading of a source, which is its baseline. */
  function First(readings: seq<Reading>, source: string): (r: Option<TrafficCounters>)
    ensures r.None? <==> forall x | x in readings :: x.source != source
  {
    if readings == [] then None
    else
      var earlier := First(readings[..|readings| - 1], source);
      var last := readings[|readings| - 1];
      if earlier.None? && last.source == source then Some(last.counters) else earlier
  }

  /** Non-empty intervals laid end to end, exactly from `a` to `b`. */
  predicate Chain(intervals: seq<Interval>, a: int, b: int) {
    if intervals == [] then a == b
    else
      var last := intervals[|intervals| - 1];
      last.endedAt == b && last.startedAt < b && Chain(intervals[..|intervals| - 1], a, last.startedAt)
  }

  /** All that one source shows: its first and latest stored readings and its intervals. */
  datatype View = View(first: Option<TrafficCounters>, latest: Option<TrafficCounters>, intervals: seq<Interval>)
  {
    /** The intervals exactly tile the span from the baseline to the latest reading. */
    predicate Tiled() {
      if first.None? || latest.None? then intervals == []
      else Chain(intervals, first.value.recordedAt, latest.value.recordedAt)
    }

    predicate Extended(c: TrafficCounters) {
      latest.Some? && latest.value.recordedAt != ZERO_TIME && c.recordedAt > latest.value.recordedAt
    }

    function After(c: TrafficCounters, source: string, taken: bool): View {
      View(if !taken && latest.None? then Some(c) else first,
           if !taken && (latest.None? || latest.value.recordedAt < c.recordedAt) then Some(c) else latest,
           intervals + if Extended(c) then [IntervalBetween(latest.value, c, source)] else [])
    }
  }

  function See(t: Tables, source: string): View {
    View(First(t.readings, source), Latest(t.readings, source), Of(t.intervals, source))
  }

  predicate TimesSet(t: Tables) {
    forall r | r in t.readings :: r.counters.recordedAt > ZERO_TIME
  }

  /** A reading newer than its source's latest whose instant another source already holds. */
  predicate Clash(t: Tables, source: string, c: TrafficCounters) {
    Extends(t.readings, source, c) && TimeTaken(t.readings, c.recordedAt)
  }

  lemma ChainSnoc(intervals: seq<Interval>, x: Interval, a: int, b: int)
    ensures Chain(intervals + [x], a, b) <==> x.endedAt == b && x.startedAt < b && Chain(intervals, a, x.startedAt)
  {
    assert (intervals + [x])[..|intervals|] == intervals;
  }

  lemma ChainAdvances(intervals: seq<Interval>, a: int, b: int)
    requires Chain(intervals, a, b)
    ensures intervals == [] || a < b
  {
    if intervals == [] {
    } else {
      ChainAdvances(intervals[..|intervals| - 1], a, intervals[|intervals| - 1].startedAt);
    }
  }

  lemma RowSnoc(readings: seq<Reading>, x: Reading, source: string)
    ensures First(readings + [x], source) ==
            if First(readings, source).None? && x.source == source then Some(x.counters) else First(readings, source)
    ensures Latest(readings + [x], source) ==
            var l := Latest(readings, source);
            if x.source == source && (l.None? || l.value.recordedAt < x.counters.recordedAt) then Some(x.counters)
              else l
  {
    assert (readings + [x])[..|readings|] == readings;
  }

  /** A recorded reading changes the view of its own source only. */
  lemma {:induction false} RecordedView(t: Tables, source: string, from: string, c: TrafficCounters)
    ensures See(Recorded(t, from, c), source) ==
            if from == source then See(t, source).After(c, source, TimeTaken(t.readings, c.recordedAt))
              else See(t, source)
  {
    RecordedRows(t, source, from, c);
    RecordedIntervals(t, source, from, c);
  }

  lemma RecordedRows(t: Tables, source: string, from: string, c: TrafficCounters)
    ensures var t', v := Recorded(t, from, c), See(t, source).After(c, source, TimeTaken(t.readings, c.recordedAt));
            && First(t'.readings, source) == (if from == source then v.first else First(t.readings, source))
            && Latest(t'.readings, source) == (if from == source then v.latest else Latest(t.readings, source))
  {
    RowSnoc(t.readings, Reading(c, from), source);
  }

  lemma RecordedIntervals(t: Tables, source: string, from: string, c: TrafficCounters)
    ensures Of(Recorded(t, from, c).intervals, source) ==
            if from == source then See(t, source).After(c, source, TimeTaken(t.readings, c.recordedAt)).intervals
              else Of(t.intervals, source)
  {
    if Extends(t.readings, from, c) {
      OfSnoc(t.intervals, IntervalBetween(Latest(t.readings, from).value, c, from), source);
    }
  }

  /** One step: tiling survives a reading exactly when the reading does not clash. */
  lemma TilingStep(v: View, c: TrafficCounters, source: string, taken: bool)
    requires v.first.Some? <==> v.latest.Some?
    requires v.latest.Some? ==> v.latest.value.recordedAt > ZERO_TIME
    ensures v.After(c, source, taken).Tiled() <==> v.Tiled() && !(v.Extended(c) && taken)
  {
    if v.latest.None? {
      if Chain(v.intervals, c.recordedAt, c.recordedAt) {
        ChainAdvances(v.intervals, c.recordedAt, c.recordedAt);
      }
      assert v.intervals + [] == v.intervals;
    } else if v.Extended(c) {
      var interval := IntervalBetween(v.latest.value, c, source);
      ChainSnoc(v.intervals, interval, v.first.value.recordedAt, c.recordedAt);
      ChainSnoc(v.intervals, interval, v.first.value.recordedAt, v.latest.value.recordedAt);
    } else {
      assert v.intervals + [] == v.intervals;
    }
  }

  lemma TimesStaySet(t: Tables, op: Op)
    requires TimesSet(t) && (op.Record? ==> op.counters.recordedAt > ZERO_TIME)
    ensures TimesSet(Apply(t, op))
  {}

  function Run(t: Tables, ops: seq<Op>): Tables {
    if ops == [] then t else Apply(Run(t, ops[..|ops| - 1]), ops[|ops| - 1])
  }

  /** Recording only, at instants Go regards as set. */
  predicate RecordsOnly(ops: seq<Op>) {
    forall op | op in ops :: op.Record? && op.counters.recordedAt > ZERO_TIME
  }

  predicate OpClashes(t: Tables, op: Op, source: string) {
    op.Record? && op.source == source && source != "" && Storable(op.counters) && Clash(t, source, op.counters)
  }

  predicate NeverClashes(ops: seq<Op>, source: string) {
    ops == [] ||
    (var front := ops[..|ops| - 1];
     NeverClashes(front, source) && !OpClashes(Run(EMPTY, front), ops[|ops| - 1], source))
  }

  lemma TilingApply(t: Tables, source: string, op: Op)
    requires TimesSet(t) && op.Record?
    ensures See(Apply(t, op), source).Tiled() <==> See(t, source).Tiled() && !OpClashes(t, op, source)
  {
    if op.source != "" && Storable(op.counters) {
      RecordedView(t, source, op.source, op.counters);
      TilingStep(See(t, source), op.counters, source, TimeTaken(t.readings, op.counters.recordedAt));
    }
  }

  /**
   Tiling, for any arrival order and any mixture of sources: the intervals of a
   source tile its span if and only if none of its readings ever clashed.
   */
  lemma {:induction false} TilingExact(ops: seq<Op>, source: string)
    requires RecordsOnly(ops)
    ensures TimesSet(Run(EMPTY, ops))
    ensures See(Run(EMPTY, ops), source).Tiled() <==> NeverClashes(ops, source)
  {
    if ops == [] {
    } else {
      var front, op := ops[..|ops| - 1], ops[|ops| - 1];
      TilingExact(front, source);
      assert op in ops;
      TimesStaySet(Run(EMPTY, front), op);
      TilingApply(Run(EMPTY, front), source, op);
    }
  }

  /** Readings of different sources never carry the same instant. */
  predicate NoSharedInstants(ops: seq<Op>) {
    forall a, b | a in ops && b in ops && a.Record? && b.Record? ::
      a.source != b.source ==> a.counters.recordedAt != b.counters.recordedAt
  }

  lemma {:induction false} StoredRowsWereRecorded(ops: seq<Op>, r: Reading)
    requires r in Run(EMPTY, ops).readings
    ensures Record(r.source, r.counters) in ops
  {
    var front := ops[..|ops| - 1];
    if r in Run(EMPTY, front).readings {
      StoredRowsWereRecorded(front, r);
    }
  }

  lemma {:induction false} DistinctInstantsNeverClash(ops: seq<Op>, source: string)
    requires RecordsOnly(ops) && NoSharedInstants(ops)
    ensures NeverClashes(ops, source)
  {
    if ops == [] {
    } else {
      var front, op := ops[..|ops| - 1], ops[|ops| - 1];
      DistinctInstantsNeverClash(front, source);
      assert op in ops;
      var rows := Run(EMPTY, front).readings;
      if OpClashes(Run(EMPTY, front), op, source) {
        var r :| r in rows && r.counters.recordedAt == op.counters.recordedAt;
        StoredRowsWereRecorded(front, r);
      }
    }
  }

  /** Late and duplicate readings are harmless while sources do not share instants. */
  lemma {:induction false} TilingWithoutSharedInstants(ops: seq<Op>, source: string)
    requires RecordsOnly(ops) && NoSharedInstants(ops)
    ensures See(Run(EMPTY, ops), source).Tiled()
  {
    DistinctInstantsNeverClash(ops, source);
    TilingExact(ops, source);
  }

  lemma RunSnoc(t: Tables, ops: seq<Op>, op: Op)
    ensures Run(t, ops + [op]) == Apply(Run(t, ops), op)
  {
    assert (ops + [op])[..|ops|] == ops;
  }

  lemma {:induction false} ClashStays(ops: seq<Op>, op: Op, more: seq<Op>, source: string)
    requires OpClashes(Run(EMPTY, ops), op, source)
    ensures !NeverClashes(ops + [op] + more, source)
  {
    var all := ops + [op] + more;
    ClashOfFront(all, source);
    if more == [] {
      assert all[..|all| - 1] == ops && all[|all| - 1] == op;
    } else {
      assert all[..|all| - 1] == ops + [op] + more[..|more| - 1];
      ClashStays(ops, op, more[..|more| - 1], source);
    }
  }

  lemma ClashOfFront(ops: seq<Op>, source: string)
    requires ops != []
    ensures var n := |ops| - 1;
            NeverClashes(ops, source) <==>
            NeverClashes(ops[..n], source) && !OpClashes(Run(EMPTY, ops[..n]), ops[n], source)
  {}

  /** Broken tiling never heals: no later reading or absence of readings repairs a clash. */
  lemma ClashIsForever(ops: seq<Op>, op: Op, more: seq<Op>, source: string)
    requires RecordsOnly(ops + [op] + more) && OpClashes(Run(EMPTY, ops), op, source)
    ensures !See(Run(EMPTY, ops + [op] + more), source).Tiled()
  {
    ClashStays(ops, op, more, source);
    TilingExact(ops + [op] + more, source);
  }

  const POLL := Record("huawei-web", TrafficCounters(1, 10, 10, 0))
  const OTHER := Record("simulated", TrafficCounters(2, 0, 0, 0))
  const SHARED := Record("huawei-web", TrafficCounters(2, 20, 20, 0))

  lemma TwoSourcesStored()
    ensures Run(EMPTY, [POLL, OTHER])
            == Tables([Reading(POLL.counters, POLL.source), Reading(OTHER.counters, OTHER.source)], [], [])
  {
    RunSnoc(EMPTY, [], POLL);
    RunSnoc(EMPTY, [POLL], OTHER);
    assert [] + [POLL] == [POLL] && [POLL] + [OTHER] == [POLL, OTHER];
    var one := Reading(POLL.counters, POLL.source);
    assert Apply(EMPTY, POLL) == Tables([one], [], []);
    RowSnoc([], one, "simulated");
  }

  lemma SharedClashes(readings: seq<Reading>)
    requires readings == [Reading(POLL.counters, POLL.source)] + [Reading(OTHER.counters, OTHER.source)]
    ensures Extends(readings, "huawei-web", SHARED.counters) && TimeTaken(readings, 2)
  {
    var one, two := Reading(POLL.counters, POLL.source), Reading(OTHER.counters, OTHER.source);
    RowSnoc([], one, "huawei-web");
    assert [] + [one] == [one];
    RowSnoc([one], two, "huawei-web");
    assert two in readings;
  }

  /** Two sources at one instant: the reading is skipped, its interval is not. */
  lemma SharedInstantBreaksTiling()
    ensures !See(Run(EMPTY, [POLL, OTHER] + [SHARED] + []), "huawei-web").Tiled()
  {
    TwoSourcesStored();
    var readings := Run(EMPTY, [POLL, OTHER]).readings;
    assert readings == [Reading(POLL.counters, POLL.source)] + [Reading(OTHER.counters, OTHER.source)];
    SharedClashes(readings);
    ClashIsForever([POLL, OTHER], SHARED, [], "huawei-web");
  }

  /** The ends of the intervals recorded as resets, oldest first. */
  function ResetEnds(intervals: seq<Interval>): seq<int> {
    if intervals == [] then []
    else
      var last := intervals[|intervals| - 1];
      ResetEnds(intervals[..|intervals| - 1]) + if last.usage.reset then [last.endedAt] else []
  }

  lemma ResetEndsSnoc(intervals: seq<Interval>, x: Interval)
    ensures ResetEnds(intervals + [x]) == ResetEnds(intervals) + if x.usage.reset then [x.endedAt] else []
  {
    assert (intervals + [x])[..|intervals|] == intervals;
  }

  /**
   Over any history, prunes included: one reset event for each reset interval, in
   order, and an interval is estimated exactly when it is longer than two minutes.
   */
  lemma {:induction false} EventsMatchIntervals(ops: seq<Op>)
    ensures Run(EMPTY, ops).resets == ResetEnds(Run(EMPTY, ops).intervals)
    ensures forall i | i in Run(EMPTY, ops).intervals ::
            i.startedAt < i.endedAt && (i.estimated <==> i.endedAt - i.startedAt > 2 * MINUTE)
  {
    if ops == [] {
    } else {
      var front, op := ops[..|ops| - 1], ops[|ops| - 1];
      var t := Run(EMPTY, front);
      EventsMatchIntervals(front);
      if op.Record? && Extends(t.readings, op.source, op.counters) {
        ResetEndsSnoc(t.intervals, IntervalBetween(Latest(t.readings, op.source).value, op.counters, op.source));
      }
    }
  }

  /** In time order with no overlap; there may be gaps. */
  predicate Disjoint(intervals: seq<Interval>, bound: int) {
    if intervals == [] then true
    else
      var last := intervals[|intervals| - 1];
      last.startedAt < last.endedAt <= bound && Disjoint(intervals[..|intervals| - 1], last.startedAt)
  }

  lemma {:induction false} DisjointMeaning(intervals: seq<Interval>, bound: int)
    requires Disjoint(intervals, bound)
    ensures forall i | 0 <= i < |intervals| :: intervals[i].startedAt < intervals[i].endedAt <= bound
    ensures forall i, j | 0 <= i < j < |intervals| :: intervals[i].endedAt <= intervals[j].startedAt
  {
    if intervals == [] {
    } else {
      var n := |intervals| - 1;
      var front := intervals[..n];
      DisjointMeaning(front, intervals[n].startedAt);
      assert forall i | 0 <= i < n :: front[i] == intervals[i];
      forall i | 0 <= i < n ensures intervals[i].startedAt < intervals[i].endedAt <= intervals[n].startedAt {
        assert front[i] == intervals[i];
      }
    }
  }

  lemma DisjointWiden(intervals: seq<Interval>, low: int, high: int)
    requires Disjoint(intervals, low) && low <= high
    ensures Disjoint(intervals, high)
  {}

  /** The newest instant recorded for a source by a history, pruned or not. */
  function Newest(ops: seq<Op>, source: string): int {
    if ops == [] then ZERO_TIME
    else
      var op := ops[|ops| - 1];
      var before := Newest(ops[..|ops| - 1], source);
      if op.Record? && op.source == source && op.counters.recordedAt > before then op.counters.recordedAt else before
  }

  /** The source's own readings arrive in increasing order and never clash; prunes come at any moment. */
  predicate InArrivalOrder(ops: seq<Op>, source: string) {
    ops == [] ||
    (var front, op := ops[..|ops| - 1], ops[|ops| - 1];
     InArrivalOrder(front, source) &&
     (op.Record? ==> op.counters.recordedAt > ZERO_TIME) &&
     (op.Record? && op.source == source ==>
        op.counters.recordedAt > Newest(front, source)
          && !TimeTaken(Run(EMPTY, front).readings, op.counters.recordedAt)))
  }

  lemma SinceLatest(readings: seq<Reading>, source: string, before: int)
    ensures Latest(Since(readings, before), source) ==
            var l := Latest(readings, source);
            if l.Some? && l.value.recordedAt >= before then l else None
  {
    if readings == [] {
    } else {
      var front := readings[..|readings| - 1];
      var last := readings[|readings| - 1];
      SinceLatest(front, source, before);
      if last.counters.recordedAt >= before {
        RowSnoc(Since(front, before), last, source);
      }
    }
  }

  /** The intervals are disjoint and end before any reading that could extend them. */
  predicate Sound(v: View, newest: int) {
    Disjoint(v.intervals, if v.latest.Some? then v.latest.value.recordedAt else newest)
    && (v.latest.Some? ==> v.latest.value.recordedAt <= newest)
  }

  lemma SoundStep(v: View, c: TrafficCounters, source: string, newest: int)
    requires Sound(v, newest) && newest < c.recordedAt
    ensures Sound(v.After(c, source, false), c.recordedAt)
  {
    var v' := v.After(c, source, false);
    if v.Extended(c) {
      assert v'.intervals[..|v.intervals|] == v.intervals;
    } else {
      assert v'.intervals == v.intervals;
      DisjointWiden(v.intervals, if v.latest.Some? then v.latest.value.recordedAt else newest, c.recordedAt);
    }
  }

  /** Pruning at any moment may leave a gap but never an overlap. */
  lemma {:induction false} PruningNeverOverlaps(ops: seq<Op>, source: string)
    requires InArrivalOrder(ops, source)
    ensures Sound(See(Run(EMPTY, ops), source), Newest(ops, source))
  {
    if ops == [] {
    } else {
      var front, op := ops[..|ops| - 1], ops[|ops| - 1];
      PruningNeverOverlaps(front, source);
      PruningStep(Run(EMPTY, front), source, op, Newest(front, source));
    }
  }

  lemma PruningStep(t: Tables, source: string, op: Op, newest: int)
    requires Sound(See(t, source), newest)
    requires op.Record? && op.source == source
             ==> newest < op.counters.recordedAt && !TimeTaken(t.readings, op.counters.recordedAt)
    ensures Sound(See(Apply(t, op), source),
            if op.Record? && op.source == source then op.counters.recordedAt else newest)
  {
    var v := See(t, source);
    match op
    case Prune(before) =>
      SinceLatest(t.readings, source, before);
      DisjointWiden(v.intervals, if v.latest.Some? then v.latest.value.recordedAt else newest, newest);
    case Record(from, c) =>
      RecordedView(t, source, from, c);
      if from == source {
        SoundStep(v, c, source, newest);
        DisjointWiden(v.intervals, if v.latest.Some? then v.latest.value.recordedAt else newest, c.recordedAt);
      }
  }

  /** The intervals reach from `a` to a latest reading that is still stored. */
  predicate Connected(t: Tables, source: string, a: int) {
    Latest(t.readings, source).Some? && Chain(Of(t.intervals, source), a, Latest(t.readings, source).value.recordedAt)
  }

  /** A prune opens a gap exactly when its cutoff passes the latest reading, the next baseline. */
  lemma {:induction false} PruneOpensGapIff(t: Tables, source: string, a: int, before: int)
    requires Connected(t, source, a)
    ensures Connected(Apply(t, Prune(before)), source, a) <==> before <= Latest(t.readings, source).value.recordedAt
  {
    SinceLatest(t.readings, source, before);
  }

  function SumIntervals(intervals: seq<Interval>, dir: Direction): nat {
    if intervals == [] then 0
    else SumIntervals(intervals[..|intervals| - 1], dir) + intervals[|intervals| - 1].usage.Bytes(dir)
  }

  predicate Ascending(rs: seq<TrafficCounters>) {
    (forall i | 0 <= i < |rs| :: rs[i].recordedAt > ZERO_TIME && Storable(rs[i])) &&
    forall i | 0 < i < |rs| :: rs[i - 1].recordedAt < rs[i].recordedAt
  }

  /** The readings a history records for a source, in order of arrival. */
  function Own(ops: seq<Op>, source: string): seq<TrafficCounters> {
    if ops == [] then []
    else
      var op := ops[|ops| - 1];
      Own(ops[..|ops| - 1], source) + if op.Record? && op.source == source then [op.counters] else []
  }

  /** What a source shows after readings `rs` in increasing order. */
  predicate Follows(v: View, rs: seq<TrafficCounters>) {
    if rs == [] then v.latest.None? && v.intervals == []
    else
      && v.latest == Some(Last(rs)) && |v.intervals| == |rs| - 1
      && forall i | 0 <= i < |rs| - 1 :: v.intervals[i].usage == Deltas(rs)[i]
  }

  lemma FollowsStep(v: View, source: string, rs: seq<TrafficCounters>, c: TrafficCounters, all: seq<TrafficCounters>)
    requires Follows(v, rs) && all == rs + [c]
    requires rs != [] ==> ZERO_TIME < Last(rs).recordedAt < c.recordedAt
    ensures Follows(v.After(c, source, false), all)
  {
    if rs != [] {
      assert all[..|rs|] == rs;
      assert Deltas(all) == Deltas(rs) + [CalculateDelta(Last(rs), c)];
    }
  }

  lemma AscendingFront(rs: seq<TrafficCounters>)
    requires rs != [] && Ascending(rs)
    ensures Ascending(rs[..|rs| - 1]) && Storable(Last(rs))
    ensures |rs| > 1 ==> ZERO_TIME < Last(rs[..|rs| - 1]).recordedAt < Last(rs).recordedAt
  {}

  lemma InstantFree(ops: seq<Op>, source: string, own: seq<TrafficCounters>, c: TrafficCounters, all: seq<Op>)
    requires NoSharedInstants(all) && all == ops + [Record(source, c)]
    requires Follows(See(Run(EMPTY, ops), source), own) && (own != [] ==> Last(own).recordedAt < c.recordedAt)
    ensures !TimeTaken(Run(EMPTY, ops).readings, c.recordedAt)
  {
    var rows := Run(EMPTY, ops).readings;
    forall r | r in rows ensures r.counters.recordedAt != c.recordedAt {
      StoredRowsWereRecorded(ops, r);
      assert Record(r.source, r.counters) in all && Record(source, c) in all;
    }
  }

  lemma OwnReading(t: Tables, source: string, own: seq<TrafficCounters>, c: TrafficCounters, all: seq<TrafficCounters>)
    requires Follows(See(t, source), own) && all == own + [c] && !TimeTaken(t.readings, c.recordedAt)
    requires own != [] ==> ZERO_TIME < Last(own).recordedAt < c.recordedAt
    ensures Follows(See(Recorded(t, source, c), source), all)
  {
    RecordedView(t, source, source, c);
    FollowsStep(See(t, source), source, own, c, all);
  }

  lemma OtherReading(t: Tables, source: string, own: seq<TrafficCounters>, op: Op)
    requires Follows(See(t, source), own) && op.Record? && op.source != source
    ensures Follows(See(Apply(t, op), source), own)
  {
    RecordedView(t, source, op.source, op.counters);
  }

  lemma FrontOf(ops: seq<Op>)
    requires ops != [] && RecordsOnly(ops) && NoSharedInstants(ops)
    ensures RecordsOnly(ops[..|ops| - 1]) && NoSharedInstants(ops[..|ops| - 1]) && ops[|ops| - 1].Record?
    ensures ops == ops[..|ops| - 1] + [ops[|ops| - 1]]
  {
    assert ops[|ops| - 1] in ops;
  }

  /**
   Readings of a source in increasing order, among any readings of others, store exactly their
   own consecutive deltas.
   */
  lemma {:induction false} AscendingLedger(ops: seq<Op>, source: string)
    requires source != "" && RecordsOnly(ops) && NoSharedInstants(ops) && Ascending(Own(ops, source))
    ensures Follows(See(Run(EMPTY, ops), source), Own(ops, source))
  {
    if ops == [] {
    } else {
      var front, op := ops[..|ops| - 1], ops[|ops| - 1];
      FrontOf(ops);
      if op.source == source {
        OwnFront(ops, source);
        AscendingLedger(front, source);
        AfterOwn(ops, source);
      } else {
        assert Own(ops, source) == Own(front, source);
        AscendingLedger(front, source);
        OtherReading(Run(EMPTY, front), source, Own(front, source), op);
      }
    }
  }

  predicate EndsOwn(ops: seq<Op>, source: string) {
    ops != [] && ops[|ops| - 1].Record? && ops[|ops| - 1].source == source
  }

  lemma OwnFront(ops: seq<Op>, source: string)
    requires EndsOwn(ops, source) && Ascending(Own(ops, source))
    ensures var own := Own(ops[..|ops| - 1], source);
            && Own(ops, source) == own + [ops[|ops| - 1].counters] && Ascending(own)
               && Storable(ops[|ops| - 1].counters)
            && (own != [] ==> ZERO_TIME < Last(own).recordedAt < ops[|ops| - 1].counters.recordedAt)
  {
    var own, all := Own(ops[..|ops| - 1], source), Own(ops, source);
    assert all == own + [ops[|ops| - 1].counters] && all[..|all| - 1] == own;
    AscendingFront(all);
  }

  lemma LastRecorded(ops: seq<Op>, source: string)
    requires source != "" && EndsOwn(ops, source) && Storable(ops[|ops| - 1].counters)
    ensures var front, c := ops[..|ops| - 1], ops[|ops| - 1].counters;
            ops == front + [Record(source, c)] && Run(EMPTY, ops) == Recorded(Run(EMPTY, front), source, c)
  {
    assert ops[|ops| - 1] == Record(source, ops[|ops| - 1].counters);
  }

  lemma AfterOwn(ops: seq<Op>, source: string)
    requires source != "" && EndsOwn(ops, source) && NoSharedInstants(ops) && Ascending(Own(ops, source))
    requires Follows(See(Run(EMPTY, ops[..|ops| - 1]), source), Own(ops[..|ops| - 1], source))
    ensures Follows(See(Run(EMPTY, ops), source), Own(ops, source))
  {
    var front, c := ops[..|ops| - 1], ops[|ops| - 1].counters;
    OwnFront(ops, source);
    LastRecorded(ops, source);
    InstantFree(front, source, Own(front, source), c, ops);
    OwnReading(Run(EMPTY, front), source, Own(front, source), c, Own(ops, source));
  }

  lemma {:induction false} SumsAgree(intervals: seq<Interval>, ds: seq<Delta>, dir: Direction)
    requires |intervals| == |ds| && forall i | 0 <= i < |ds| :: intervals[i].usage == ds[i]
    ensures SumIntervals(intervals, dir) == SumDeltas(ds, dir)
  {
    if ds == [] {
    } else {
      SumsAgree(intervals[..|ds| - 1], ds[..|ds| - 1], dir);
    }
  }

  /**
   Conservation: what the ledger stores for a source whose readings arrive in
   increasing order, among any readings of others at other instants, is its counters'
   growth over the first reset-free segment plus the final counter of every later one.
   */
  lemma LedgerTelescopes(ops: seq<Op>, source: string, dir: Direction)
    requires source != "" && RecordsOnly(ops) && NoSharedInstants(ops) && Ascending(Own(ops, source))
             && Own(ops, source) != []
    ensures SumIntervals(Of(Run(EMPTY, ops).intervals, source), dir) == Telescoped(Segments(Own(ops, source)), dir)
  {
    AscendingLedger(ops, source);
    SumsAgree(Of(Run(EMPTY, ops).intervals, source), Deltas(Own(ops, source)), dir);
    DeltasTelescope(Own(ops, source), dir);
  }
}
