/**
 The ledger beside the router it polls. Each WAN record of the router carries
 traffic, wraps its counters, restarts and comes and goes on the pages whenever it
 likes; the world also remembers what really happened, which the ledger never sees.
 */
module TrueTraffic {
  import opened Prelude
  import opened Counters
  import opened Ledger
  import opened Tiling
  import opened WanRegisters

  const SOURCE := "huawei-web"

  datatype Totals = Totals(download: int, upload: int)
  {
    function Bytes(dir: Direction): int {
      match dir
      case Download => download
      case Upload => upload
    }
  }

  const NOTHING := Totals(0, 0)

  /**
   `Restart` zeroes one record, as when its connection reconnects; `Drop` and
   `Return` change whether the pages list it; `Reboot` zeroes all records and the
   uptime. `Wait` passes `time` on the worker's clock and `uptime` seconds on the
   router's.
   */
  datatype Step =
    | Traffic(record: nat, download: nat, upload: nat)
    | Restart(record: nat)
    | Drop(record: nat)
    | Return(record: nat)
    | Reboot
    | Wait(time: nat, uptime: nat)
    | Poll
    | Prune(before: int)

  /**
   `wans` and `uptime` are the router; an adapter that cannot read the uptime
   reports 0. The rest is the truth: total traffic, the totals at the first stored
   reading and at the latest, the bytes charged again and left unseen so far, the
   restarts, rollovers and drop-outs so far, and whether one of them fell after the
   latest reading.
   */
  datatype World = World(
    tables: Tables, now: int, wans: seq<Wan>, uptime: nat, reportsUptime: bool,
    total: Totals, baseline: Option<Totals>, atLatest: Totals,
    again: Totals, unseen: Totals, disturbances: nat, disturbed: bool)
  {
    function Shown(): nat {
      if !reportsUptime then 0 else if uptime <= MAX_UINT64 then uptime else MAX_UINT64
    }

    function Reading(): TrafficCounters
      requires Readable(wans)
    {
      TrafficCounters(now, Sum(wans, Shows, Download), Sum(wans, Shows, Upload), Shown())
    }

    function LatestReading(): Option<TrafficCounters> {
      Latest(tables.readings, SOURCE)
    }
  }

  function NewWan(listed: bool): Wan {
    Wan(Register(0, 0, 0, false), Register(0, 0, 0, false), listed, listed)
  }

  function NewWans(listed: seq<bool>): seq<Wan> {
    seq(|listed|, i requires 0 <= i < |listed| => NewWan(listed[i]))
  }

  /** A router with one record for each flag, which tells whether the pages list it. */
  function Start(now: int, reportsUptime: bool, listed: seq<bool>): World {
    World(EMPTY, now, NewWans(listed), 0, reportsUptime, NOTHING, None, NOTHING, NOTHING, NOTHING, 0, false)
  }

  function Disturbed(w: World): World {
    w.(disturbances := w.disturbances + 1, disturbed := true)
  }

  function Next(w: World, step: Step): World {
    match step
    case Traffic(i, d, u) => if i < |w.wans| then Transferred(w, i, d, u) else w
    case Restart(i) => if i < |w.wans| then Disturbed(w.(wans := w.wans[i := w.wans[i].Restart()])) else w
    case Drop(i) =>
      if i < |w.wans| && w.wans[i].listed then Disturbed(w.(wans := w.wans[i := w.wans[i].(listed := false)])) else w
    case Return(i) => if i < |w.wans| then w.(wans := w.wans[i := w.wans[i].(listed := true)]) else w
    case Reboot => Disturbed(w.(wans := RestartAll(w.wans), uptime := 0))
    case Wait(time, uptime) => w.(now := w.now + time, uptime := w.uptime + uptime)
    case Poll => if Readable(w.wans) then Polled(w, w.Reading()) else w
    case Prune(before) => w.(tables := Apply(w.tables, Op.Prune(before)))
  }

  function Transferred(w: World, i: nat, d: nat, u: nat): World
    requires i < |w.wans|
  {
    var x := w.wans[i];
    var w' := w.(wans := w.wans[i := x.(down := x.down.Carry(d), up := x.up.Carry(u))],
                 total := Totals(w.total.download + d, w.total.upload + u));
    if x.down.RollsOver(d) || x.up.RollsOver(u) then Disturbed(w') else w'
  }

  /** `collect` hands the reading to `RecordConnectionReading`; only a stored one moves the bookmarks. */
  function Polled(w: World, c: TrafficCounters): World {
    var t := Apply(w.tables, Record(SOURCE, c));
    if !Storable(c) || TimeTaken(w.tables.readings, c.recordedAt) then w.(tables := t) else Bookmarked(w, c, t)
  }

  function Bookmarked(w: World, c: TrafficCounters, t: Tables): World {
    w.(tables := t,
       wans := MarkAll(w.wans),
       baseline := if w.baseline.None? then Some(w.total) else w.baseline,
       atLatest := w.total,
       again := Totals(w.again.download + ChargedAgain(w, c, Download), w.again.upload + ChargedAgain(w, c, Upload)),
       unseen := Totals(w.unseen.download + LeftUnseen(w, c, Download), w.unseen.upload + LeftUnseen(w, c, Upload)),
       disturbed := false)
  }

  function ChargedAgain(w: World, c: TrafficCounters, dir: Direction): int {
    var latest := w.LatestReading();
    if latest.Some? then Again(w.wans, CalculateDelta(latest.value, c).reset, dir) else 0
  }

  /** Without a previous reading - pruned away, after the first - the whole gap goes uncharged. */
  function LeftUnseen(w: World, c: TrafficCounters, dir: Direction): int {
    var latest := w.LatestReading();
    if latest.Some? then Unseen(w.wans, CalculateDelta(latest.value, c).reset, dir)
    else if w.baseline.Some? then Sum(w.wans, Carried, dir)
    else 0
  }

  function Run(w: World, steps: seq<Step>): World {
    if steps == [] then w else Next(Run(w, steps[..|steps| - 1]), steps[|steps| - 1])
  }

  predicate Clocked(w: World) {
    && w.now > ZERO_TIME
    && (forall r | r in w.tables.readings :: r.source == SOURCE && ZERO_TIME < r.counters.recordedAt <= w.now)
  }

  predicate Counted(w: World) {
    var latest := w.LatestReading();
    && (w.baseline.None? ==> latest.None? && w.tables.intervals == [])
    && (latest.Some? && !w.disturbed ==> latest.value.uptime <= w.Shown())
    && (!w.disturbed ==> Undisturbed(w.wans))
    && |w.tables.resets| + (if latest.Some? && w.disturbed then 1 else 0) <= w.disturbances
  }

  /** Stored and unseen bytes are those carried between the first and the latest reading and those charged again. */
  predicate Balanced(stored: int, unseen: int, between: int, again: int) {
    stored + unseen == between + again && 0 <= unseen && 0 <= again && 0 <= between
  }

  predicate Books(w: World, dir: Direction) {
    var latest := w.LatestReading();
    && AllSound(w.wans)
    && Sum(w.wans, Carried, dir) == w.total.Bytes(dir) - w.atLatest.Bytes(dir)
    && (latest.Some? ==> latest.value.Bytes(dir) == Sum(w.wans, Showed, dir))
    && (w.baseline.None? ==> w.again.Bytes(dir) == 0 && w.unseen.Bytes(dir) == 0)
    && (w.baseline.Some? ==>
          Balanced(SumIntervals(w.tables.intervals, dir), w.unseen.Bytes(dir),
            w.atLatest.Bytes(dir) - w.baseline.value.Bytes(dir), w.again.Bytes(dir)))
  }

  predicate Inv(w: World) {
    Clocked(w) && Counted(w) && Books(w, Download) && Books(w, Upload)
  }

  lemma SumSnoc(intervals: seq<Interval>, x: Interval, dir: Direction)
    ensures SumIntervals(intervals + [x], dir) == SumIntervals(intervals, dir) + x.usage.Bytes(dir)
  {
    assert (intervals + [x])[..|intervals|] == intervals;
  }

  /** The tables `t` after a stored reading `c`: the gap before it is closed. */
  predicate Closes(w: World, c: TrafficCounters, t: Tables) {
    var latest := w.LatestReading();
    && Latest(t.readings, SOURCE) == Some(c)
    && t.intervals
       == (if latest.None? then w.tables.intervals else w.tables.intervals + [IntervalBetween(latest.value, c, SOURCE)])
    && t.resets == if latest.Some? && CalculateDelta(latest.value, c).reset then w.tables.resets + [c.recordedAt]
       else w.tables.resets
  }

  lemma PolledTables(w: World)
    requires Clocked(w) && Readable(w.wans)
    ensures var c := w.Reading();
            var t := Apply(w.tables, Record(SOURCE, c));
            if !Storable(c) || TimeTaken(w.tables.readings, c.recordedAt) then t == w.tables
            else t.readings == w.tables.readings + [Ledger.Reading(c, SOURCE)] && Closes(w, c, t)
  {
    var c := w.Reading();
    RowSnoc(w.tables.readings, Ledger.Reading(c, SOURCE), SOURCE);
    var latest := w.LatestReading();
    if latest.Some? && latest.value.recordedAt == c.recordedAt {
      assert TimeTaken(w.tables.readings, c.recordedAt);
    }
  }

  lemma PollBooks(w: World, dir: Direction, c: TrafficCounters, t: Tables)
    requires Books(w, dir) && c.Bytes(dir) == Sum(w.wans, Shows, dir) && Closes(w, c, t)
    requires w.baseline.None? ==> w.LatestReading().None? && w.tables.intervals == []
    ensures Books(Bookmarked(w, c, t), dir)
  {
    var latest := w.LatestReading();
    AllMarked(w.wans);
    MarkSums(w.wans, dir);
    SumNotNegative(w.wans, Carried, dir);
    if latest.Some? {
      GapBalances(w.wans, latest.value, c, dir);
      SumSnoc(w.tables.intervals, IntervalBetween(latest.value, c, SOURCE), dir);
    }
  }

  lemma PollCounts(w: World, c: TrafficCounters, t: Tables)
    requires Counted(w) && Closes(w, c, t) && c.uptime == w.Shown() && AllSound(w.wans)
    requires w.LatestReading().Some? ==>
               Gap(w.wans, w.LatestReading().value, c, Download) && Gap(w.wans, w.LatestReading().value, c, Upload)
    ensures Counted(Bookmarked(w, c, t))
  {
    var latest := w.LatestReading();
    AllMarked(w.wans);
    if latest.Some? && !w.disturbed {
      ResetNeedsDisturbance(w.wans, latest.value, c);
    }
  }

  /** A stored reading that closes its gap keeps the books. */
  lemma ClosedGap(w: World, c: TrafficCounters, t: Tables)
    requires Inv(w) && Readable(w.wans) && c == w.Reading() && Closes(w, c, t)
    requires forall r | r in t.readings :: r in w.tables.readings || r == Ledger.Reading(c, SOURCE)
    ensures Inv(Bookmarked(w, c, t))
  {
    PollBooks(w, Download, c, t);
    PollBooks(w, Upload, c, t);
    PollCounts(w, c, t);
  }

  lemma PollStep(w: World)
    requires Inv(w) && Readable(w.wans)
    ensures Inv(Polled(w, w.Reading()))
  {
    var c := w.Reading();
    PolledTables(w);
    if Storable(c) && !TimeTaken(w.tables.readings, c.recordedAt) {
      ClosedGap(w, c, Apply(w.tables, Record(SOURCE, c)));
    } else {
      assert Polled(w, c) == w;
    }
  }

  /** What a record shows at the latest reading and has carried since changes with the total only. */
  lemma UpdateBooks(w: World, w': World, i: nat, x: Wan, dir: Direction)
    requires i < |w.wans| && w'.wans == w.wans[i := x] && Books(w, dir) && x.Sound()
    requires Measure(x, Showed, dir) == Measure(w.wans[i], Showed, dir)
    requires w'.total.Bytes(dir) - w.total.Bytes(dir) == x.At(dir).carried - w.wans[i].At(dir).carried
    requires w'.tables == w.tables && w'.baseline == w.baseline && w'.atLatest == w.atLatest && w'.again == w.again
             && w'.unseen == w.unseen
    ensures Books(w', dir)
  {
    UpdatedSound(w.wans, i, x);
    SumUpdated(w.wans, i, x, Carried, dir);
    SumUpdated(w.wans, i, x, Showed, dir);
  }

  /** A change to one record that restarts and drops nothing, or is counted as a disturbance. */
  lemma UpdateCounts(w: World, w': World, i: nat, x: Wan)
    requires i < |w.wans| && w'.wans == w.wans[i := x] && Counted(w)
    requires w'.tables == w.tables && w'.baseline == w.baseline && w'.uptime == w.uptime
             && w'.reportsUptime == w.reportsUptime
    requires || (w'.disturbed && w'.disturbances == w.disturbances + 1)
             || (w'.disturbed == w.disturbed && w'.disturbances == w.disturbances && x.wasListed == w.wans[i].wasListed
                 && x.down.restarted == w.wans[i].down.restarted && x.up.restarted == w.wans[i].up.restarted
                 && (w.wans[i].listed ==> x.listed))
    ensures Counted(w')
  {
    if !w'.disturbed {
      forall y | y in w'.wans ensures !y.down.restarted && !y.up.restarted && (y.wasListed ==> y.listed) {
        var k :| 0 <= k < |w'.wans| && w'.wans[k] == y;
        assert w.wans[k] in w.wans;
      }
    }
  }

  lemma RecordStep(w: World, step: Step)
    requires Inv(w) && (step.Traffic? || step.Restart? || step.Drop? || step.Return?)
    ensures Inv(Next(w, step))
  {
    var i, w' := step.record, Next(w, step);
    if i < |w.wans| && w' != w {
      assert w.wans[i].Sound();
      var x := w'.wans[i];
      if step.Traffic? {
        CarryKeepsSound(w.wans[i].down, step.download);
        CarryKeepsSound(w.wans[i].up, step.upload);
      }
      UpdateBooks(w, w', i, x, Download);
      UpdateBooks(w, w', i, x, Upload);
      UpdateCounts(w, w', i, x);
    }
  }

  lemma RebootStep(w: World)
    requires Inv(w)
    ensures Inv(Next(w, Reboot))
  {
    AllRestarted(w.wans);
    RestartSums(w.wans, Download);
    RestartSums(w.wans, Upload);
    assert Books(Next(w, Reboot), Download) && Books(Next(w, Reboot), Upload);
  }

  lemma PruneBooks(w: World, t: Tables, dir: Direction)
    requires Books(w, dir) && t.intervals == w.tables.intervals
    requires Latest(t.readings, SOURCE).Some? ==> Latest(t.readings, SOURCE) == w.LatestReading()
    ensures Books(w.(tables := t), dir)
  {}

  lemma PruneStep(w: World, before: int)
    requires Inv(w)
    ensures Inv(Next(w, Step.Prune(before)))
  {
    SinceLatest(w.tables.readings, SOURCE, before);
    var t := Apply(w.tables, Op.Prune(before));
    PruneBooks(w, t, Download);
    PruneBooks(w, t, Upload);
    PruneCounts(w, t);
  }

  lemma PruneCounts(w: World, t: Tables)
    requires Clocked(w) && Counted(w) && t.intervals == w.tables.intervals && t.resets == w.tables.resets
    requires forall r | r in t.readings :: r in w.tables.readings
    requires Latest(t.readings, SOURCE).Some? ==> Latest(t.readings, SOURCE) == w.LatestReading()
    ensures Clocked(w.(tables := t)) && Counted(w.(tables := t))
  {}

  lemma InvStep(w: World, step: Step)
    requires Inv(w)
    ensures Inv(Next(w, step))
  {
    match step
    case Poll =>
      if Readable(w.wans) {
        PollStep(w);
      }
    case Prune(before) => PruneStep(w, before);
    case Reboot => RebootStep(w);
    case Wait(time, uptime) =>
      assert Books(Next(w, step), Download) && Books(Next(w, step), Upload);
    case _ => RecordStep(w, step);
  }

  lemma {:induction false} InvRun(w: World, steps: seq<Step>)
    requires Inv(w)
    ensures Inv(Run(w, steps))
  {
    if steps == [] {
    } else {
      InvRun(w, steps[..|steps| - 1]);
      InvStep(Run(w, steps[..|steps| - 1]), steps[|steps| - 1]);
    }
  }

  lemma StartInv(now: int, reportsUptime: bool, listed: seq<bool>)
    requires now > ZERO_TIME
    ensures Inv(Start(now, reportsUptime, listed))
  {
    var wans := NewWans(listed);
    forall x | x in wans ensures exists flag :: x == NewWan(flag) {
      var i :| 0 <= i < |wans| && wans[i] == x;
      assert x == NewWan(listed[i]);
    }
    SumIsZero(wans, Carried, Download);
    SumIsZero(wans, Carried, Upload);
    assert Books(Start(now, reportsUptime, listed), Download) && Books(Start(now, reportsUptime, listed), Upload);
  }

  /**
   Conservation over every run of any router: stored bytes and bytes left unseen
   are together the traffic between the first and the latest reading and the bytes
   charged again, so usage is over-counted exactly when more is charged again than
   left unseen, and under-counted exactly when less is; and reset events never
   outnumber restarts, rollovers and drop-outs.
   */
  lemma {:induction false} BooksBalance(now: int, reportsUptime: bool, listed: seq<bool>, steps: seq<Step>,
      dir: Direction)
    requires now > ZERO_TIME
    ensures var w := Run(Start(now, reportsUptime, listed), steps);
            var stored := SumIntervals(w.tables.intervals, dir);
            && |w.tables.resets| <= w.disturbances
            && (w.baseline.None? ==> stored == 0)
            && (w.baseline.Some? ==>
                  var between := w.atLatest.Bytes(dir) - w.baseline.value.Bytes(dir);
                  && stored + w.unseen.Bytes(dir) == between + w.again.Bytes(dir)
                  && (stored > between <==> w.again.Bytes(dir) > w.unseen.Bytes(dir))
                  && (stored < between <==> w.again.Bytes(dir) < w.unseen.Bytes(dir))
                  && 0 <= w.again.Bytes(dir) && 0 <= w.unseen.Bytes(dir)
                  && 0 <= between <= w.total.Bytes(dir) - w.baseline.value.Bytes(dir))
  {
    var start := Start(now, reportsUptime, listed);
    StartInv(now, reportsUptime, listed);
    InvRun(start, steps);
    assert Books(Run(start, steps), dir);
    SumNotNegative(Run(start, steps).wans, Carried, dir);
  }

  /** How many steps restarted, rolled over or dropped something. */
  function Disturbances(w: World, steps: seq<Step>): nat {
    if steps == [] then 0
    else
      var front, last := steps[..|steps| - 1], steps[|steps| - 1];
      Disturbances(w, front) + if Disturbs(Run(w, front), last) then 1 else 0
  }

  predicate RollsOver(w: World, step: Step) {
    step.Traffic? && step.record < |w.wans|
    && (w.wans[step.record].down.RollsOver(step.download) || w.wans[step.record].up.RollsOver(step.upload))
  }

  predicate Disturbs(w: World, step: Step) {
    || step.Reboot?
    || (step.Restart? && step.record < |w.wans|)
    || (step.Drop? && step.record < |w.wans| && w.wans[step.record].listed)
    || RollsOver(w, step)
  }

  lemma DisturbanceCounted(w: World, step: Step)
    ensures Next(w, step).disturbances == w.disturbances + if Disturbs(w, step) then 1 else 0
  {}

  lemma {:induction false} DisturbancesCounted(w: World, steps: seq<Step>)
    ensures Run(w, steps).disturbances == w.disturbances + Disturbances(w, steps)
  {
    if steps == [] {
    } else {
      DisturbancesCounted(w, steps[..|steps| - 1]);
      DisturbanceCounted(Run(w, steps[..|steps| - 1]), steps[|steps| - 1]);
    }
  }

  /** Every reset event answers to a step of its own that restarted, rolled over or dropped a record. */
  lemma {:induction false} ResetsHaveCauses(now: int, reportsUptime: bool, listed: seq<bool>, steps: seq<Step>)
    requires now > ZERO_TIME
    ensures var start := Start(now, reportsUptime, listed);
            |Run(start, steps).tables.resets| <= Disturbances(start, steps)
  {
    BooksBalance(now, reportsUptime, listed, steps, Download);
    DisturbancesCounted(Start(now, reportsUptime, listed), steps);
  }

  /**
   Every restart along the run takes all records with it - a reboot, or the restart
   of an only record - nothing rolls over, and the page never changes.
   */
  predicate RestartTogether(w: World, steps: seq<Step>) {
    steps != [] ==>
      var front, last := steps[..|steps| - 1], steps[|steps| - 1];
      && RestartTogether(w, front)
      && !last.Drop? && !last.Return? && (last.Restart? ==> |w.wans| <= 1) && !RollsOver(Run(w, front), last)
  }

  predicate Together(w: World) {
    && (forall x | x in w.wans ::
       x.down.restarted == w.disturbed && x.up.restarted == w.disturbed && x.wasListed == x.listed)
    && w.again == NOTHING
  }

  lemma TogetherGap(wans: seq<Wan>, reset: bool, disturbed: bool, dir: Direction)
    requires forall x | x in wans ::
             x.down.restarted == disturbed && x.up.restarted == disturbed && x.wasListed == x.listed
    requires reset ==> disturbed
    ensures Again(wans, reset, dir) == 0
  {
    if reset {
      SumIsZero(wans, Stale, dir);
    } else {
      SumIsZero(wans, NewlyListed, dir);
    }
  }

  lemma TogetherPoll(w: World)
    requires Inv(w) && Together(w) && Readable(w.wans)
    ensures Together(Next(w, Poll))
  {
    var c, latest := w.Reading(), w.LatestReading();
    PolledTables(w);
    AllMarked(w.wans);
    if latest.Some? {
      assert Books(w, Download) && Books(w, Upload);
      if !w.disturbed {
        ResetNeedsDisturbance(w.wans, latest.value, c);
      }
      var reset := CalculateDelta(latest.value, c).reset;
      TogetherGap(w.wans, reset, w.disturbed, Download);
      TogetherGap(w.wans, reset, w.disturbed, Upload);
    }
    MarkedPage(w.wans);
  }

  lemma MarkedPage(wans: seq<Wan>)
    ensures forall x | x in MarkAll(wans) :: !x.down.restarted && !x.up.restarted && x.wasListed == x.listed
  {}

  lemma TogetherStep(w: World, step: Step)
    requires Inv(w) && Together(w)
    requires !step.Drop? && !step.Return? && (step.Restart? ==> |w.wans| <= 1) && !RollsOver(w, step)
    ensures Together(Next(w, step)) && |Next(w, step).wans| == |w.wans|
  {
    if step.Poll? && Readable(w.wans) {
      TogetherPoll(w);
    }
  }

  lemma {:induction false} TogetherRun(w: World, steps: seq<Step>)
    requires Inv(w) && Together(w) && RestartTogether(w, steps)
    ensures Together(Run(w, steps)) && |Run(w, steps).wans| == |w.wans|
  {
    if steps == [] {
    } else {
      var front := steps[..|steps| - 1];
      TogetherRun(w, front);
      InvRun(w, front);
      TogetherStep(Run(w, front), steps[|steps| - 1]);
    }
  }

  lemma StartTogether(now: int, reportsUptime: bool, listed: seq<bool>)
    ensures Together(Start(now, reportsUptime, listed))
  {}

  /** While all records restart together, usage is never over-counted. */
  lemma {:induction false} NeverOverCounts(now: int, reportsUptime: bool, listed: seq<bool>, steps: seq<Step>,
      dir: Direction)
    requires now > ZERO_TIME && RestartTogether(Start(now, reportsUptime, listed), steps)
    ensures var w := Run(Start(now, reportsUptime, listed), steps);
            w.baseline.Some? ==>
              && SumIntervals(w.tables.intervals, dir) <= w.atLatest.Bytes(dir) - w.baseline.value.Bytes(dir)
              && w.atLatest.Bytes(dir) <= w.total.Bytes(dir)
  {
    StartInv(now, reportsUptime, listed);
    StartTogether(now, reportsUptime, listed);
    TogetherRun(Start(now, reportsUptime, listed), steps);
    BooksBalance(now, reportsUptime, listed, steps, dir);
  }

  /** A prune that leaves the latest reading, the next baseline, in place. */
  predicate KeepsLatest(w: World, step: Step) {
    step.Prune? && w.LatestReading().Some? ==> step.before <= w.LatestReading().value.recordedAt
  }

  /** Nothing restarts, rolls over or leaves the page, and no baseline is pruned. */
  predicate Calm(w: World, steps: seq<Step>) {
    steps != [] ==>
      var front, last := steps[..|steps| - 1], steps[|steps| - 1];
      Calm(w, front) && KeepsLatest(Run(w, front), last) && !Disturbs(Run(w, front), last)
  }

  /** All records are listed, and since the first stored reading there was nothing to disturb the books. */
  predicate Quiet(w: World) {
    && (forall x | x in w.wans :: x.listed)
    && (w.baseline.Some? ==> w.LatestReading().Some? && !w.disturbed && forall x | x in w.wans :: x.wasListed)
    && w.again == NOTHING && w.unseen == NOTHING
  }

  lemma QuietGap(wans: seq<Wan>, dir: Direction)
    requires Undisturbed(wans) && forall x | x in wans :: x.listed && x.wasListed
    ensures Again(wans, false, dir) == 0 && Unseen(wans, false, dir) == 0
  {
    SumIsZero(wans, NewlyListed, dir);
    SumIsZero(wans, Missed, dir);
    SumIsZero(wans, Gone, dir);
  }

  lemma QuietPoll(w: World)
    requires Inv(w) && Quiet(w) && Readable(w.wans)
    ensures Quiet(Next(w, Poll))
  {
    PolledTables(w);
    if w.LatestReading().Some? {
      QuietGap(w.wans, Download);
      QuietGap(w.wans, Upload);
      assert Books(w, Download) && Books(w, Upload);
      ResetNeedsDisturbance(w.wans, w.LatestReading().value, w.Reading());
    }
    MarkedPage(w.wans);
    assert forall x | x in MarkAll(w.wans) :: x.listed;
  }

  lemma QuietStep(w: World, step: Step)
    requires Inv(w) && Quiet(w) && KeepsLatest(w, step) && !Disturbs(w, step)
    ensures Quiet(Next(w, step))
  {
    if step.Poll? && Readable(w.wans) {
      QuietPoll(w);
    } else if step.Prune? {
      SinceLatest(w.tables.readings, SOURCE, step.before);
    }
  }

  lemma {:induction false} QuietRun(w: World, steps: seq<Step>)
    requires Inv(w) && Quiet(w) && Calm(w, steps)
    ensures Quiet(Run(w, steps))
  {
    if steps == [] {
    } else {
      var front := steps[..|steps| - 1];
      QuietRun(w, front);
      InvRun(w, front);
      QuietStep(Run(w, front), steps[|steps| - 1]);
    }
  }

  /** A poll whose reading goes into the ledger. */
  predicate Stores(w: World, step: Step) {
    step.Poll? && Readable(w.wans) && Storable(w.Reading()) && !TimeTaken(w.tables.readings, w.now)
  }

  predicate StoresNothing(w: World, steps: seq<Step>) {
    steps != [] ==>
      var front, last := steps[..|steps| - 1], steps[|steps| - 1];
      StoresNothing(w, front) && !Stores(Run(w, front), last)
  }

  lemma IdleStep(w: World, step: Step)
    requires Inv(w) && !Stores(w, step)
    ensures var w' := Next(w, step);
            w'.tables.intervals == w.tables.intervals && w'.baseline == w.baseline && w'.atLatest == w.atLatest
  {
    if step.Poll? && Readable(w.wans) {
      PolledTables(w);
    }
  }

  lemma {:induction false} IdleRun(w: World, steps: seq<Step>)
    requires Inv(w) && StoresNothing(w, steps)
    ensures var w' := Run(w, steps);
            w'.tables.intervals == w.tables.intervals && w'.baseline == w.baseline && w'.atLatest == w.atLatest
  {
    if steps == [] {
    } else {
      var front := steps[..|steps| - 1];
      IdleRun(w, front);
      InvRun(w, front);
      IdleStep(Run(w, front), steps[|steps| - 1]);
    }
  }

  lemma FreshStep(w: World, step: Step)
    requires w.baseline.None? && w.again == NOTHING && w.unseen == NOTHING && !Stores(w, step)
    ensures Next(w, step).baseline.None? && Next(w, step).again == NOTHING && Next(w, step).unseen == NOTHING
  {}

  lemma {:induction false} FreshRun(w: World, steps: seq<Step>)
    requires w.baseline.None? && w.again == NOTHING && w.unseen == NOTHING && StoresNothing(w, steps)
    ensures Run(w, steps).baseline.None? && Run(w, steps).again == NOTHING && Run(w, steps).unseen == NOTHING
  {
    if steps == [] {
    } else {
      FreshRun(w, steps[..|steps| - 1]);
      FreshStep(Run(w, steps[..|steps| - 1]), steps[|steps| - 1]);
    }
  }

  lemma {:induction false} RunAppend(w: World, a: seq<Step>, b: seq<Step>)
    ensures Run(w, a + b) == Run(Run(w, a), b)
  {
    if b == [] {
      assert a + b == a;
    } else {
      assert (a + b)[..|a + b| - 1] == a + b[..|b| - 1];
      RunAppend(w, a, b[..|b| - 1]);
    }
  }

  /**
   Whatever happens before the first stored reading and after the latest one: if all
   records are listed and nothing disturbs them in between, usage is exactly what was
   carried between the two.
   */
  lemma {:induction false} ExactWhileCalm(now: int, reportsUptime: bool, listed: seq<bool>,
                                          before: seq<Step>, during: seq<Step>, after: seq<Step>, dir: Direction)
    requires now > ZERO_TIME
    requires var w := Run(Start(now, reportsUptime, listed), before);
             && StoresNothing(Start(now, reportsUptime, listed), before) && (forall x | x in w.wans :: x.listed)
             && Calm(w, during) && StoresNothing(Run(w, during), after)
    ensures var w := Run(Start(now, reportsUptime, listed), before + during + after);
            w.baseline.Some? ==>
              SumIntervals(w.tables.intervals, dir) == w.atLatest.Bytes(dir) - w.baseline.value.Bytes(dir)
  {
    var start := Start(now, reportsUptime, listed);
    StartInv(now, reportsUptime, listed);
    FreshRun(start, before);
    InvRun(start, before);
    QuietRun(Run(start, before), during);
    InvRun(Run(start, before), during);
    RunAppend(start, before, during);
    BooksBalance(now, reportsUptime, listed, before + during, dir);
    IdleRun(Run(start, before + during), after);
    RunAppend(start, before + during, after);
  }
}
