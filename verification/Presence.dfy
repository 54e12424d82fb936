/** Who is online now, and each device's history by day (api/internal/store/devices.go, api/internal/store/usage.go). */
module Presence {
  import opened Prelude
  import opened Snapshots
  import opened Streaks

  datatype Op = Snapshot(entries: seq<Entry>, at: int) | Archive(device: int) | Restore(device: int)
      | Delete(device: int) | Prune(before: int)

  /** The tables with what was last recorded, and whether pruning has spared it. */
  datatype World = World(t: Tables, newest: Option<Op>, kept: bool)

  const START := World(EMPTY, None, false)

  function Next(w: World, op: Op): World {
    match op
    case Snapshot(entries, at) => World(Recorded(w.t, entries, at), Some(op), true)
    case Archive(d) => w.(t := Archived(w.t, d, true))
    case Restore(d) => w.(t := Archived(w.t, d, false))
    case Delete(d) => w.(t := Deleted(w.t, d))
    case Prune(before) =>
      World(Pruned(w.t, before), w.newest,
        w.kept && w.newest.Some? && w.newest.value.Snapshot? && before <= w.newest.value.at)
  }

  function Run(ops: seq<Op>): World {
    if ops == [] then START else Next(Run(ops[..|ops| - 1]), ops[|ops| - 1])
  }

  /** Snapshots are taken at nondecreasing instants. */
  predicate InOrderOfTime(ops: seq<Op>) {
    forall i, j | 0 <= i < j < |ops| && ops[i].Snapshot? && ops[j].Snapshot? :: ops[i].at <= ops[j].at
  }

  ghost predicate Inv(w: World) {
    && Keyed(w.t)
    && (w.newest.None? ==> w.t.devices == map[] && !w.kept)
    && (w.newest.Some? ==> w.newest.value.Snapshot? && forall k | k in w.t.readings :: k.at <= w.newest.value.at)
    && (w.kept ==> w.newest.Some? && Shows(w.t, w.newest.value.entries, w.newest.value.at))
    && (!w.kept ==> w.t.readings == map[])
  }

  lemma InvStep(w: World, op: Op)
    requires Inv(w) && (op.Snapshot? && w.newest.Some? ==> w.newest.value.at <= op.at)
    ensures Inv(Next(w, op))
  {
    if op.Snapshot? {
      SnapshotExact(w.t, op.entries, op.at);
      var t' := Next(w, op).t;
      forall k | k in t'.readings ensures k.at <= op.at {
        if k.at != op.at { assert k in w.t.readings; }
      }
    }
  }

  lemma {:induction false} InvRun(ops: seq<Op>)
    requires InOrderOfTime(ops)
    ensures Inv(Run(ops))
    ensures Run(ops).newest.Some? ==> exists i :: 0 <= i < |ops| && ops[i] == Run(ops).newest.value && ops[i].Snapshot?
  {
    if ops == [] {
    } else {
      var n := |ops| - 1;
      InvRun(ops[..n]);
      InvStep(Run(ops[..n]), ops[n]);
      assert ops[n].Snapshot? ==> Run(ops).newest == Some(ops[n]);
    }
  }

  lemma ActiveOf(w: World)
    requires Inv(w)
    ensures Active(w.t) == if w.kept
            then set d | d in w.t.devices && LastOnline(w.newest.value.entries, w.t.devices[d].mac) else {}
  {
    if w.kept {
      var entries, at := w.newest.value.entries, w.newest.value.at;
      forall d ensures d in Active(w.t) <==> d in w.t.devices && LastOnline(entries, w.t.devices[d].mac) {
        if d in w.t.devices {
          assert IsLatest(w.t.readings, Key(d, at));
        }
        if d in Active(w.t) {
          var k :| k in w.t.readings && IsLatest(w.t.readings, k) && w.t.readings[k] && k.device == d;
          assert d in w.t.devices;
          assert k.at == at;
        }
      }
    }
  }

  /**
   The count of active devices is the number of surviving devices that were
   online in the newest snapshot, as long as that snapshot has not been pruned;
   after that it is zero until the next one.
   */
  lemma ActiveDevicesExact(ops: seq<Op>)
    requires InOrderOfTime(ops)
    ensures var w := Run(ops);
            && (w.kept ==> w.newest.Some? && w.newest.value.Snapshot?
                           && Active(w.t) == set d | d in w.t.devices
                              && LastOnline(w.newest.value.entries, w.t.devices[d].mac))
            && (!w.kept ==> Active(w.t) == {})
  {
    InvRun(ops);
    ActiveOf(Run(ops));
  }

  datatype Sample = Sample(at: int, online: bool)

  function TimesOf(t: Tables, device: int, start: int, end: int): set<int> {
    set k | k in t.readings && k.device == device && start <= k.at < end :: k.at
  }

  /** The readings of a device in a window, in order of time. */
  function Samples(t: Tables, device: int, start: int, end: int): (samples: seq<Sample>)
    ensures forall s | s in samples ::
            start <= s.at < end && Key(device, s.at) in t.readings && s.online == t.readings[Key(device, s.at)]
    ensures forall i, j | 0 <= i < j < |samples| :: samples[i].at < samples[j].at
  {
    var times := InOrder(TimesOf(t, device, start, end));
    assert forall i | 0 <= i < |times| :: times[i] in TimesOf(t, device, start, end);
    seq(|times|, i requires 0 <= i < |times| => Sample(times[i], t.readings[Key(device, times[i])]))
  }

  /** The samples are exactly the stored readings of the device in the window, each with its stored state. */
  lemma SamplesExact(t: Tables, device: int, start: int, end: int, at: int, online: bool)
    ensures Sample(at, online) in Samples(t, device, start, end)
            <==> start <= at < end && Key(device, at) in t.readings && t.readings[Key(device, at)] == online
    ensures TimesAscend(Samples(t, device, start, end))
  {
    var times := InOrder(TimesOf(t, device, start, end));
    if start <= at < end && Key(device, at) in t.readings {
      assert at in TimesOf(t, device, start, end);
      var i :| 0 <= i < |times| && times[i] == at;
      assert Samples(t, device, start, end)[i] == Sample(at, t.readings[Key(device, at)]);
    }
  }

  function Flags(samples: seq<Sample>): seq<bool> {
    seq(|samples|, i requires 0 <= i < |samples| => samples[i].online)
  }

  function DayOf(at: int, offset: int): int {
    (at + offset) / DAY
  }

  datatype DayRow = DayRow(day: int, first: int, last: int, online: nat, total: nat, sessions: nat)

  /** One more sample, after all those grouped so far: `lag(online,1,false)` looks back across midnight. */
  function AddSample(rows: seq<DayRow>, s: Sample, day: int, previouslyOnline: bool): seq<DayRow> {
    var online := if s.online then 1 else 0;
    var session := if s.online && !previouslyOnline then 1 else 0;
    if rows != [] && rows[|rows| - 1].day == day then
      var row := rows[|rows| - 1];
      rows[..|rows| - 1] + [DayRow(day, row.first, s.at, row.online + online, row.total + 1, row.sessions + session)]
    else rows + [DayRow(day, s.at, s.at, online, 1, session)]
  }

  /** `DeviceHistory`: samples in order of time, grouped by local day. */
  function History(samples: seq<Sample>, offset: int): seq<DayRow> {
    if samples == [] then []
    else
      var n := |samples| - 1;
      AddSample(History(samples[..n], offset), samples[n], DayOf(samples[n].at, offset), n > 0 && samples[n - 1].online)
  }

  function SumSessions(rows: seq<DayRow>): nat {
    if rows == [] then 0 else SumSessions(rows[..|rows| - 1]) + rows[|rows| - 1].sessions
  }

  function SumTotal(rows: seq<DayRow>): nat {
    if rows == [] then 0 else SumTotal(rows[..|rows| - 1]) + rows[|rows| - 1].total
  }

  /** One row per day in order; each day's sessions, online samples and samples nest. */
  predicate WellFormed(rows: seq<DayRow>) {
    && (forall i | 0 <= i < |rows| ::
       rows[i].sessions <= rows[i].online <= rows[i].total && rows[i].total > 0 && rows[i].first <= rows[i].last)
    && (forall i, j | 0 <= i < j < |rows| :: rows[i].day < rows[j].day && rows[i].last < rows[j].first)
  }

  lemma AddSampleSums(rows: seq<DayRow>, s: Sample, day: int, previouslyOnline: bool)
    ensures SumSessions(AddSample(rows, s, day, previouslyOnline)) == SumSessions(rows)
            + if s.online && !previouslyOnline then 1 else 0
    ensures SumTotal(AddSample(rows, s, day, previouslyOnline)) == SumTotal(rows) + 1
  {
    var after := AddSample(rows, s, day, previouslyOnline);
    if rows != [] && rows[|rows| - 1].day == day {
      assert after[..|after| - 1] == rows[..|rows| - 1];
    } else {
      assert after[..|after| - 1] == rows;
    }
  }

  predicate TimesAscend(samples: seq<Sample>) {
    forall i, j | 0 <= i < j < |samples| :: samples[i].at < samples[j].at
  }

  /** The rows' last row is the day of the last sample. */
  predicate EndsWith(rows: seq<DayRow>, samples: seq<Sample>, offset: int) {
    if samples == [] then rows == []
    else
      && rows != [] && rows[|rows| - 1].last == samples[|samples| - 1].at
      && rows[|rows| - 1].day == DayOf(samples[|samples| - 1].at, offset)
  }

  lemma AddSampleKeeps(rows: seq<DayRow>, s: Sample, offset: int, previouslyOnline: bool)
    requires WellFormed(rows)
    requires rows != [] ==> rows[|rows| - 1].last < s.at && rows[|rows| - 1].day <= DayOf(s.at, offset)
    ensures var after := AddSample(rows, s, DayOf(s.at, offset), previouslyOnline);
            WellFormed(after) && after != [] && after[|after| - 1].last == s.at
              && after[|after| - 1].day == DayOf(s.at, offset)
  {
    var day := DayOf(s.at, offset);
    var after := AddSample(rows, s, day, previouslyOnline);
    if rows != [] && rows[|rows| - 1].day == day {
      RowGrows(rows, after[|rows| - 1]);
    } else {
      RowAdded(rows, after[|rows|]);
    }
  }

  lemma RowGrows(rows: seq<DayRow>, grown: DayRow)
    requires rows != [] && WellFormed(rows)
    requires var row := rows[|rows| - 1]; grown.day == row.day && grown.first == row.first && row.last <= grown.last
    requires grown.sessions <= grown.online <= grown.total && grown.total > 0
    ensures WellFormed(rows[..|rows| - 1] + [grown])
  {}

  lemma RowAdded(rows: seq<DayRow>, row: DayRow)
    requires WellFormed(rows) && row.sessions <= row.online <= row.total && row.total > 0 && row.first <= row.last
    requires rows != [] ==> rows[|rows| - 1].day < row.day && rows[|rows| - 1].last < row.first
    ensures WellFormed(rows + [row])
  {}

  lemma {:induction false} HistoryOrdered(samples: seq<Sample>, offset: int)
    requires TimesAscend(samples)
    ensures WellFormed(History(samples, offset)) && EndsWith(History(samples, offset), samples, offset)
  {
    if samples == [] {
    } else {
      var n := |samples| - 1;
      var rows := History(samples[..n], offset);
      HistoryOrdered(samples[..n], offset);
      if n > 0 {
        LaterSample(samples[n - 1].at, samples[n].at, offset);
      }
      AddSampleKeeps(rows, samples[n], offset, n > 0 && samples[n - 1].online);
    }
  }

  lemma LaterSample(earlier: int, later: int, offset: int)
    requires earlier < later
    ensures DayOf(earlier, offset) <= DayOf(later, offset)
  {}

  lemma {:induction false} HistorySums(samples: seq<Sample>, offset: int)
    ensures SumSessions(History(samples, offset)) == RisingEdges(Flags(samples))
    ensures SumTotal(History(samples, offset)) == |samples|
  {
    if samples == [] {
    } else {
      var n := |samples| - 1;
      var front, s := samples[..n], samples[n];
      HistorySums(front, offset);
      AddSampleSums(History(front, offset), s, DayOf(s.at, offset), n > 0 && samples[n - 1].online);
      EdgesSnoc(Flags(front), s.online);
      assert Flags(samples) == Flags(front) + [s.online];
    }
  }

  datatype Tally = Tally(online: nat, total: nat, sessions: nat)
  {
    predicate Agrees(other: Tally) {
      online == other.online && total == other.total && sessions == other.sessions
    }

    function Add(isOnline: bool, wasOnline: bool): Tally {
      Tally(if isOnline then online + 1 else online, total + 1,
        if isOnline && !wasOnline then sessions + 1 else sessions)
    }
  }

  /** What one day's samples amount to, counted directly. */
  function DayTally(samples: seq<Sample>, offset: int, day: int): Tally {
    if samples == [] then Tally(0, 0, 0)
    else
      var n := |samples| - 1;
      var before := DayTally(samples[..n], offset, day);
      if DayOf(samples[n].at, offset) != day then before
      else before.Add(samples[n].online, n > 0 && samples[n - 1].online)
  }

  function RowTally(rows: seq<DayRow>, day: int): Tally {
    if rows == [] then Tally(0, 0, 0)
    else
      var last := rows[|rows| - 1];
      if last.day == day then Tally(last.online, last.total, last.sessions) else RowTally(rows[..|rows| - 1], day)
  }

  lemma {:induction false} NoRowBeyond(rows: seq<DayRow>, day: int)
    requires forall i | 0 <= i < |rows| :: rows[i].day < day
    ensures RowTally(rows, day) == Tally(0, 0, 0)
  {
    if rows == [] {
    } else {
      NoRowBeyond(rows[..|rows| - 1], day);
    }
  }

  lemma AddSampleTally(rows: seq<DayRow>, s: Sample, day: int, previouslyOnline: bool, other: int)
    requires WellFormed(rows) && (rows != [] ==> rows[|rows| - 1].day <= day)
    ensures var before := RowTally(rows, other);
            RowTally(AddSample(rows, s, day, previouslyOnline), other).Agrees(
              if other != day then before else before.Add(s.online, previouslyOnline))
  {
    var after := AddSample(rows, s, day, previouslyOnline);
    if rows != [] && rows[|rows| - 1].day == day {
      assert after[..|after| - 1] == rows[..|rows| - 1];
    } else {
      assert after[..|after| - 1] == rows;
      NoRowBeyond(rows, day);
    }
  }

  /** Each row holds exactly its own day's counts, and days without samples have no row. */
  lemma {:induction false} RowsTallyTheirDay(samples: seq<Sample>, offset: int, day: int)
    requires TimesAscend(samples)
    ensures RowTally(History(samples, offset), day).Agrees(DayTally(samples, offset, day))
  {
    if samples == [] {
    } else {
      var n := |samples| - 1;
      RowsTallyTheirDay(samples[..n], offset, day);
      HistoryOrdered(samples[..n], offset);
      AddSampleTally(History(samples[..n], offset), samples[n], DayOf(samples[n].at, offset),
        n > 0 && samples[n - 1].online, day);
    }
  }

  /** A day runs from one local midnight to the next. */
  lemma DaysRunFromMidnight(at: int, offset: int, day: int)
    ensures DayOf(at, offset) == day <==> day * DAY <= at + offset < (day + 1) * DAY
  {}

  predicate OnDay(samples: seq<Sample>, offset: int, day: int, at: int) {
    exists s | s in samples :: s.at == at && DayOf(s.at, offset) == day
  }

  /** A row's first and last times are those of samples of its day, and all samples of the day lie between them. */
  predicate Spans(row: DayRow, samples: seq<Sample>, offset: int) {
    && OnDay(samples, offset, row.day, row.first) && OnDay(samples, offset, row.day, row.last)
    && forall s | s in samples && DayOf(s.at, offset) == row.day :: row.first <= s.at <= row.last
  }

  lemma OnDayStays(front: seq<Sample>, s: Sample, offset: int, day: int, at: int)
    requires OnDay(front, offset, day, at)
    ensures OnDay(front + [s], offset, day, at)
  {
    var x :| x in front && x.at == at && DayOf(x.at, offset) == day;
    assert x in front + [s];
  }

  lemma OlderRowSpans(row: DayRow, front: seq<Sample>, s: Sample, offset: int)
    requires Spans(row, front, offset) && DayOf(s.at, offset) != row.day
    ensures Spans(row, front + [s], offset)
  {
    OnDayStays(front, s, offset, row.day, row.first);
    OnDayStays(front, s, offset, row.day, row.last);
  }

  lemma GrownRowSpans(row: DayRow, grown: DayRow, front: seq<Sample>, s: Sample, offset: int)
    requires Spans(row, front, offset) && DayOf(s.at, offset) == row.day && (forall x | x in front :: x.at < s.at)
    requires grown.day == row.day && grown.first == row.first && grown.last == s.at
    ensures Spans(grown, front + [s], offset)
  {
    OnDayStays(front, s, offset, row.day, row.first);
    assert s in front + [s];
    var x :| x in front && x.at == row.first && DayOf(x.at, offset) == row.day;
  }

  lemma NewRowSpans(row: DayRow, front: seq<Sample>, s: Sample, offset: int)
    requires row.day == DayOf(s.at, offset) && row.first == s.at && row.last == s.at
    requires forall x | x in front :: DayOf(x.at, offset) != row.day
    ensures Spans(row, front + [s], offset)
  {
    assert s in front + [s];
  }

  predicate AllSpan(rows: seq<DayRow>, samples: seq<Sample>, offset: int) {
    forall i | 0 <= i < |rows| :: Spans(rows[i], samples, offset)
  }

  lemma KeptRowsSpan(rows: seq<DayRow>, kept: nat, front: seq<Sample>, s: Sample, offset: int)
    requires kept <= |rows| && forall i | 0 <= i < kept ::
             Spans(rows[i], front, offset) && rows[i].day != DayOf(s.at, offset)
    ensures forall i | 0 <= i < kept :: Spans(rows[i], front + [s], offset)
  {
    forall i | 0 <= i < kept ensures Spans(rows[i], front + [s], offset) {
      OlderRowSpans(rows[i], front, s, offset);
    }
  }

  /** Another sample of the day of the last row. */
  lemma SameDaySpans(rows: seq<DayRow>, grown: DayRow, front: seq<Sample>, s: Sample, offset: int)
    requires rows != [] && AllSpan(rows, front, offset) && rows[|rows| - 1].day == DayOf(s.at, offset)
    requires forall i | 0 <= i < |rows| - 1 :: rows[i].day < rows[|rows| - 1].day
    requires grown.day == rows[|rows| - 1].day && grown.first == rows[|rows| - 1].first && grown.last == s.at
    requires forall x | x in front :: x.at < s.at
    ensures AllSpan(rows[..|rows| - 1] + [grown], front + [s], offset)
  {
    KeptRowsSpan(rows, |rows| - 1, front, s, offset);
    GrownRowSpans(rows[|rows| - 1], grown, front, s, offset);
  }

  /** The first sample of a later day. */
  lemma NewDaySpans(rows: seq<DayRow>, row: DayRow, front: seq<Sample>, s: Sample, offset: int)
    requires AllSpan(rows, front, offset) && forall i | 0 <= i < |rows| :: rows[i].day < DayOf(s.at, offset)
    requires forall x | x in front :: DayOf(x.at, offset) < DayOf(s.at, offset)
    requires row.day == DayOf(s.at, offset) && row.first == s.at && row.last == s.at
    ensures AllSpan(rows + [row], front + [s], offset)
  {
    KeptRowsSpan(rows, |rows|, front, s, offset);
    NewRowSpans(row, front, s, offset);
  }

  lemma DaysSoFar(front: seq<Sample>, offset: int)
    requires TimesAscend(front) && front != []
    ensures forall x | x in front :: DayOf(x.at, offset) <= DayOf(front[|front| - 1].at, offset)
  {
    forall x | x in front ensures DayOf(x.at, offset) <= DayOf(front[|front| - 1].at, offset) {
      var k :| 0 <= k < |front| && front[k] == x;
      if k < |front| - 1 {
        LaterSample(x.at, front[|front| - 1].at, offset);
      }
    }
  }

  lemma SpansStep(rows: seq<DayRow>, front: seq<Sample>, s: Sample, offset: int, previouslyOnline: bool)
    requires WellFormed(rows) && AllSpan(rows, front, offset) && EndsWith(rows, front, offset)
    requires TimesAscend(front) && forall x | x in front :: x.at < s.at
    ensures AllSpan(AddSample(rows, s, DayOf(s.at, offset), previouslyOnline), front + [s], offset)
  {
    var day := DayOf(s.at, offset);
    var after := AddSample(rows, s, day, previouslyOnline);
    if front != [] {
      LaterSample(front[|front| - 1].at, s.at, offset);
      DaysSoFar(front, offset);
    }
    if rows != [] && rows[|rows| - 1].day == day {
      SameDaySpans(rows, after[|rows| - 1], front, s, offset);
    } else {
      NewDaySpans(rows, after[|rows|], front, s, offset);
    }
  }

  lemma AscendingFront(samples: seq<Sample>)
    requires samples != [] && TimesAscend(samples)
    ensures var n := |samples| - 1;
            TimesAscend(samples[..n]) && (forall x | x in samples[..n] :: x.at < samples[n].at)
              && samples == samples[..n] + [samples[n]]
  {}

  /** Each row spans exactly its own day's samples. */
  lemma {:induction false} RowsSpanTheirDay(samples: seq<Sample>, offset: int)
    requires TimesAscend(samples)
    ensures AllSpan(History(samples, offset), samples, offset)
  {
    if samples == [] {
    } else {
      var n := |samples| - 1;
      var front := samples[..n];
      AscendingFront(samples);
      RowsSpanTheirDay(front, offset);
      HistoryOrdered(front, offset);
      SpansStep(History(front, offset), front, samples[n], offset, n > 0 && samples[n - 1].online);
    }
  }

  /**
   Over all days, the sessions are the maximal runs of online samples - a run
   across midnight counts once, on the day it began - and no sample is lost.
   */
  lemma SessionsAreMaximalRuns(t: Tables, device: int, start: int, end: int, offset: int)
    ensures var samples := Samples(t, device, start, end);
            var runs := MaximalRuns(Flags(samples));
            && SumSessions(History(samples, offset)) == |runs|
            && SumTotal(History(samples, offset)) == |samples|
            && (forall k: Streak :: k in runs <==> IsStreak(Flags(samples), k.from, k.to))
            && WellFormed(History(samples, offset))
  {
    var samples := Samples(t, device, start, end);
    HistoryOrdered(samples, offset);
    HistorySums(samples, offset);
    StreaksExact(Flags(samples));
  }

  /** Deleting an archived device takes exactly its own readings along; any other stays. */
  lemma DeletionTakesReadings(t: Tables, d: int)
    requires Keyed(t)
    ensures d in Deleted(t, d).devices <==> d in t.devices && !t.devices[d].archived
    ensures forall k ::
              k in Deleted(t, d).readings <==> k in t.readings && !(k.device == d && d !in Deleted(t, d).devices)
    ensures forall k | k in Deleted(t, d).readings :: Deleted(t, d).readings[k] == t.readings[k]
    ensures forall other | other != d :: other in Deleted(t, d).devices <==> other in t.devices
  {}
}
