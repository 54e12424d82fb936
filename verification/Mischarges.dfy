/**
 Ways in which a ledger charges bytes that nobody carried or misses bytes that were, from any
 state a poll can leave.
 */
module Mischarges {
  import opened Prelude
  import opened Counters
  import opened Ledger
  import Tiling
  import opened WanRegisters
  import opened TrueTraffic

  /** The latest reading was stored with these registers, and nothing has happened to them since. */
  predicate JustStored(w: World) {
    && Inv(w) && w.LatestReading().Some? && Storable(w.LatestReading().value)
       && w.LatestReading().value.uptime == w.Shown()
    && (forall x | x in w.wans :: x.down == x.down.Mark() && x.up == x.up.Mark() && x.wasListed == x.listed)
  }

  predicate SomeListedBut(wans: seq<Wan>, i: nat) {
    exists k | 0 <= k < |wans| :: k != i && wans[k].listed
  }

  /** A later reading than all stored ones. */
  predicate Later(w: World) {
    forall r | r in w.tables.readings :: r.counters.recordedAt < w.now
  }

  lemma StoredPoll(w: World)
    requires Clocked(w) && Readable(w.wans) && Storable(w.Reading()) && Later(w)
    ensures var t := Next(w, Poll).tables;
            && Next(w, Poll) == Bookmarked(w, w.Reading(), t) && Closes(w, w.Reading(), t)
            && t.readings == w.tables.readings + [Ledger.Reading(w.Reading(), SOURCE)]
  {
    var c := w.Reading();
    PolledTables(w);
    assert !TimeTaken(w.tables.readings, c.recordedAt);
    assert Next(w, Poll) == Polled(w, c) && Polled(w, c) == Bookmarked(w, c, Apply(w.tables, Record(SOURCE, c)));
  }

  /** A stored poll after a stored reading: one more interval, and the reading is the latest. */
  lemma PollStores(w: World)
    requires Clocked(w) && Readable(w.wans) && Storable(w.Reading()) && Later(w) && w.LatestReading().Some?
    ensures var w' := Next(w, Poll);
            && w'.LatestReading() == Some(w.Reading())
            && w'.wans == MarkAll(w.wans) && w'.total == w.total && w'.Shown() == w.Shown() && Clocked(w')
            && Closes(w, w.Reading(), w'.tables)
    ensures forall dir :: Stored(Next(w, Poll), dir)
                          == Tiling.SumIntervals(w.tables.intervals, dir)
                            + CalculateDelta(w.LatestReading().value, w.Reading()).Bytes(dir)
  {
    StoredPoll(w);
    forall dir ensures Stored(Next(w, Poll), dir)
                       == Stored(w, dir) + CalculateDelta(w.LatestReading().value, w.Reading()).Bytes(dir) {
      GapCharged(w, w.Reading(), Next(w, Poll).tables, dir);
    }
  }

  lemma GapCharged(w: World, c: TrafficCounters, t: Tables, dir: Direction)
    requires Closes(w, c, t) && w.LatestReading().Some?
    ensures Tiling.SumIntervals(t.intervals, dir)
            == Stored(w, dir) + CalculateDelta(w.LatestReading().value, c).Bytes(dir)
  {
    SumSnoc(w.tables.intervals, IntervalBetween(w.LatestReading().value, c, SOURCE), dir);
  }

  /** All that is stored in one direction. */
  function Stored(w: World, dir: Direction): int {
    Tiling.SumIntervals(w.tables.intervals, dir)
  }

  lemma JustStoredShows(w: World, dir: Direction)
    requires JustStored(w)
    ensures Sum(w.wans, Shows, dir) == w.LatestReading().value.Bytes(dir)
  {
    assert Books(w, dir);
    forall x | x in w.wans ensures Measure(x, Showed, dir) == Measure(x, Shows, dir) {
      assert x.down == x.down.Mark() && x.up == x.up.Mark();
    }
    SumAtMost(w.wans, Showed, Shows, dir);
    SumAtMost(w.wans, Shows, Showed, dir);
  }

  /** A change to one listed record that takes its bytes off the page leaves a smaller page that can still be read. */
  lemma PageWithout(w: World, i: nat, x: Wan)
    requires JustStored(w) && i < |w.wans| && w.wans[i].listed && SomeListedBut(w.wans, i)
    requires x.Sound() && forall dir :: Measure(x, Shows, dir) == 0
    ensures var wans := w.wans[i := x];
            && Readable(wans)
            && forall dir :: Sum(wans, Shows, dir) == w.LatestReading().value.Bytes(dir) - w.wans[i].At(dir).current
  {
    var wans := w.wans[i := x];
    forall dir ensures 0 <= Sum(wans, Shows, dir) == w.LatestReading().value.Bytes(dir) - w.wans[i].At(dir).current {
      assert Books(w, dir);
      JustStoredShows(w, dir);
      SumUpdated(w.wans, i, x, Shows, dir);
      UpdatedSound(w.wans, i, x);
      SumNotNegative(wans, Shows, dir);
      assert w.wans[i].Sound();
    }
    var k :| 0 <= k < |w.wans| && k != i && w.wans[k].listed;
    assert wans[k] in wans;
    assert Sum(wans, Shows, Download) <= MAX_UINT64 && Sum(wans, Shows, Upload) <= MAX_UINT64 by {
      assert w.wans[i].Sound();
    }
  }

  /** A moment passes and the router is polled. */
  function WaitAndPoll(w: World): World {
    Next(Next(w, Wait(1, 0)), Poll)
  }

  function PageReading(w: World): TrafficCounters
    requires Readable(w.wans)
  {
    TrafficCounters(w.now + 1, Sum(w.wans, Shows, Download), Sum(w.wans, Shows, Upload), w.Shown())
  }

  /** The next poll can be stored, after a latest reading of the same uptime. */
  predicate Ready(w: World) {
    && Clocked(w) && w.LatestReading().Some? && w.LatestReading().value.uptime == w.Shown()
    && Readable(w.wans) && Storable(PageReading(w))
  }

  lemma WaitedPoll(w: World)
    requires Ready(w)
    ensures var w' := WaitAndPoll(w);
            && w'.LatestReading() == Some(PageReading(w)) && w'.wans == MarkAll(w.wans) && Clocked(w')
               && w'.Shown() == w.Shown() && w'.total == w.total
            && forall dir :: Stored(w', dir)
                             == Stored(w, dir) + CalculateDelta(w.LatestReading().value, PageReading(w)).Bytes(dir)
  {
    var w1 := Next(w, Wait(1, 0));
    Waited(w, w1);
    PollStores(w1);
  }

  /** A reset event accompanies the charge exactly when some total has fallen. */
  lemma NextReset(w: World)
    requires Ready(w)
    ensures var p := w.LatestReading().value;
            |WaitAndPoll(w).tables.resets| ==
            |w.tables.resets|
            + if Sum(w.wans, Shows, Download) < p.download || Sum(w.wans, Shows, Upload) < p.upload then 1 else 0
  {
    var w1 := Next(w, Wait(1, 0));
    Waited(w, w1);
    PollStores(w1);
  }

  lemma Waited(w: World, w1: World)
    requires Ready(w) && w1 == Next(w, Wait(1, 0))
    ensures w1.wans == w.wans && w1.tables == w.tables && w1.total == w.total && w1.Shown() == w.Shown()
    ensures Clocked(w1) && Later(w1) && Readable(w1.wans) && w1.Reading() == PageReading(w)
            && w1.LatestReading() == w.LatestReading()
  {}

  /** What is charged by the next poll when some total has fallen, and when none has. */
  lemma NextCharge(w: World, dir: Direction)
    requires Ready(w)
    ensures var p, charged := w.LatestReading().value, Stored(WaitAndPoll(w), dir) - Stored(w, dir);
            if Sum(w.wans, Shows, Download) < p.download || Sum(w.wans, Shows, Upload) < p.upload
              then charged == Sum(w.wans, Shows, dir)
            else charged == Sum(w.wans, Shows, dir) - p.Bytes(dir)
  {
    WaitedPoll(w);
  }

  /** The registers have changed since the latest reading, but not the ledger or the clock. */
  predicate Moved(w: World, w': World) {
    w'.tables == w.tables && w'.now == w.now && w'.Shown() == w.Shown()
  }

  /** A page that shows no more than the latest reading can be stored. */
  lemma SmallerPageReady(w: World, w': World)
    requires JustStored(w) && Moved(w, w') && Readable(w'.wans)
    requires forall dir :: Sum(w'.wans, Shows, dir) <= w.LatestReading().value.Bytes(dir)
    ensures Ready(w')
  {
    assert Sum(w'.wans, Shows, Download) <= w.LatestReading().value.Bytes(Download);
    assert Sum(w'.wans, Shows, Upload) <= w.LatestReading().value.Bytes(Upload);
  }

  lemma DroppedOut(w: World, i: nat, x: Wan, w': World, dir: Direction)
    requires JustStored(w) && i < |w.wans| && w.wans[i].listed && SomeListedBut(w.wans, i)
    requires x.Sound() && forall d :: Measure(x, Shows, d) == 0
    requires w.wans[i].At(Download).current > 0 || w.wans[i].At(Upload).current > 0
    requires Moved(w, w') && w'.wans == w.wans[i := x]
    ensures Ready(w') && WaitAndPoll(w').total == w'.total
    ensures Stored(WaitAndPoll(w'), dir)
            == Stored(w, dir) + w.LatestReading().value.Bytes(dir) - w.wans[i].At(dir).current
  {
    PageWithout(w, i, x);
    PartsNotNegative(w.wans, i);
    SmallerPageReady(w, w');
    NextCharge(w', dir);
    WaitedPoll(w');
    assert Sum(w'.wans, Shows, Download) == w.LatestReading().value.Bytes(Download) - w.wans[i].At(Download).current;
    assert Sum(w'.wans, Shows, Upload) == w.LatestReading().value.Bytes(Upload) - w.wans[i].At(Upload).current;
  }

  lemma PartsNotNegative(wans: seq<Wan>, i: nat)
    requires i < |wans| && AllSound(wans)
    ensures wans[i].At(Download).current >= 0 && wans[i].At(Upload).current >= 0
  {
    assert wans[i].Sound();
  }

  /** The record is back on the page that `before` showed without it. */
  lemma CameBack(w: World, i: nat, before: World, w': World, dir: Direction)
    requires JustStored(w) && i < |w.wans| && w.wans[i].listed
    requires Ready(before) && before.wans == w.wans[i := w.wans[i].(listed := false)] && before.Shown() == w.Shown()
    requires Moved(WaitAndPoll(before), w')
             && w'.wans == MarkAll(before.wans)[i := MarkAll(before.wans)[i].(listed := true)]
    ensures WaitAndPoll(w').total == w'.total
    ensures Stored(WaitAndPoll(w'), dir)
            == Stored(WaitAndPoll(before), dir) + w.wans[i].At(dir).current
  {
    WaitedPoll(before);
    ReturnedPage(w, i, w'.wans);
    PartsNotNegative(w.wans, i);
    forall d ensures Sum(before.wans, Shows, d) == w.LatestReading().value.Bytes(d) - w.wans[i].At(d).current {
      JustStoredShows(w, d);
      SumUpdated(w.wans, i, before.wans[i], Shows, d);
    }
    assert Sum(w'.wans, Shows, Download) == w.LatestReading().value.Bytes(Download);
    assert Sum(w'.wans, Shows, Upload) == w.LatestReading().value.Bytes(Upload);
    assert Ready(w');
    assert Sum(before.wans, Shows, Download)
           == w.LatestReading().value.Bytes(Download) - w.wans[i].At(Download).current;
    assert Sum(before.wans, Shows, Upload) == w.LatestReading().value.Bytes(Upload) - w.wans[i].At(Upload).current;
    NextCharge(w', dir);
    WaitedPoll(w');
  }

  /**
   A record leaves the page for one poll and returns, and nothing at all is carried:
   everything the router shows is charged once more.
   */
  lemma DropAndReturnChargesAll(w: World, i: nat, dir: Direction)
    requires JustStored(w) && i < |w.wans| && w.wans[i].listed && SomeListedBut(w.wans, i)
    requires w.wans[i].At(Download).current > 0 || w.wans[i].At(Upload).current > 0
    ensures var w' := WaitAndPoll(Next(WaitAndPoll(Next(w, Drop(i))), Return(i)));
            && w'.total == w.total
            && Stored(w', dir) == Stored(w, dir) + w.LatestReading().value.Bytes(dir)
  {
    var w1 := Next(w, Drop(i));
    assert w.wans[i].Sound();
    DroppedOut(w, i, w.wans[i].(listed := false), w1, dir);
    WaitedPoll(w1);
    var w2 := Next(WaitAndPoll(w1), Return(i));
    CameBack(w, i, w1, w2, dir);
  }

  lemma ReturnedPage(w: World, i: nat, wans: seq<Wan>)
    requires JustStored(w) && i < |w.wans| && w.wans[i].listed
    requires var back := MarkAll(w.wans[i := w.wans[i].(listed := false)]); wans == back[i := back[i].(listed := true)]
    ensures Readable(wans) && forall dir :: Sum(wans, Shows, dir) == w.LatestReading().value.Bytes(dir)
  {
    var x := w.wans[i].(wasListed := false);
    forall k | 0 <= k < |w.wans| ensures wans[k] == w.wans[i := x][k] {
      assert w.wans[k] in w.wans;
    }
    assert wans == w.wans[i := x];
    forall dir ensures Sum(wans, Shows, dir) == w.LatestReading().value.Bytes(dir) {
      JustStoredShows(w, dir);
      SumUpdated(w.wans, i, x, Shows, dir);
    }
    assert wans[i] in wans && wans[i].listed;
  }

  /** One of several records restarts and nothing is carried: what all the others show is charged once more. */
  lemma RestartChargesOthers(w: World, i: nat, dir: Direction)
    requires JustStored(w) && i < |w.wans| && w.wans[i].listed && SomeListedBut(w.wans, i)
    requires w.wans[i].At(Download).current > 0 || w.wans[i].At(Upload).current > 0
    ensures var w' := WaitAndPoll(Next(w, Restart(i)));
            && w'.total == w.total
            && Stored(w', dir)
               == Stored(w, dir) + w.LatestReading().value.Bytes(dir) - w.wans[i].At(dir).current
  {
    assert w.wans[i].Sound();
    DroppedOut(w, i, w.wans[i].Restart(), Next(w, Restart(i)), dir);
  }

  lemma RolledOver(w: World, i: nat, d: nat, x: Wan, w': World)
    requires JustStored(w) && i < |w.wans| && w.wans[i].listed && w.wans[i].down.RollsOver(d) && d < WRAP
    requires x.Sound() && x.listed && x.down.current == w.wans[i].down.current + d - WRAP
             && x.up.current == w.wans[i].up.current
    requires Moved(w, w') && w'.wans == w.wans[i := x]
    ensures Ready(w') && WaitAndPoll(w').total == w'.total
    ensures Stored(WaitAndPoll(w'), Upload)
            == Stored(w, Upload) + w.LatestReading().value.upload
  {
    forall dir ensures 0 <= Sum(w'.wans, Shows, dir)
      == w.LatestReading().value.Bytes(dir) - w.wans[i].At(dir).current + x.At(dir).current {
      JustStoredShows(w, dir);
      SumUpdated(w.wans, i, x, Shows, dir);
      UpdatedSound(w.wans, i, x);
      SumNotNegative(w'.wans, Shows, dir);
    }
    assert Sum(w'.wans, Shows, Download)
           == w.LatestReading().value.Bytes(Download) - w.wans[i].At(Download).current + x.At(Download).current;
    assert Sum(w'.wans, Shows, Upload)
           == w.LatestReading().value.Bytes(Upload) - w.wans[i].At(Upload).current + x.At(Upload).current;
    assert w'.wans[i] in w'.wans && w'.wans[i].listed;
    SmallerPageReady(w, w');
    NextCharge(w', Upload);
    WaitedPoll(w');
  }

  /** A download counter rolls over with nothing uploaded: all uploads the router shows are charged once more. */
  lemma RolloverChargesUploads(w: World, i: nat, d: nat)
    requires JustStored(w) && i < |w.wans| && w.wans[i].listed && w.wans[i].down.RollsOver(d) && d < WRAP
    ensures var w' := WaitAndPoll(Next(w, Traffic(i, d, 0)));
            && w'.total.upload == w.total.upload
            && Stored(w', Upload) == Stored(w, Upload) + w.LatestReading().value.upload
  {
    assert w.wans[i].Sound();
    CarryKeepsSound(w.wans[i].down, d);
    CarryKeepsSound(w.wans[i].up, 0);
    RolledOver(w, i, d, w.wans[i].(down := w.wans[i].down.Carry(d), up := w.wans[i].up.Carry(0)),
      Next(w, Traffic(i, d, 0)));
  }

  lemma {:induction false} RestartedShows(wans: seq<Wan>, dir: Direction)
    ensures Sum(RestartAll(wans), Shows, dir) == 0
  {
    forall x | x in RestartAll(wans) ensures Measure(x, Shows, dir) == 0 {
      var k :| 0 <= k < |wans| && RestartAll(wans)[k] == x;
    }
    SumIsZero(RestartAll(wans), Shows, dir);
  }

  /** The router as `w` left it, after a reboot and `d` and `u` bytes on one listed record. */
  function Rebooted(w: World, i: nat, d: nat, u: nat): World {
    Next(Next(w, Reboot), Traffic(i, d, u))
  }

  lemma RebootedShows(w: World, i: nat, d: nat, u: nat)
    requires i < |w.wans| && w.wans[i].listed && d < WRAP && u < WRAP
    ensures var w' := Rebooted(w, i, d, u);
            && Readable(w'.wans) && Sum(w'.wans, Shows, Download) == d && Sum(w'.wans, Shows, Upload) == u
            && w'.tables == w.tables && w'.now == w.now && w'.uptime == 0 && w'.reportsUptime == w.reportsUptime
            && w'.total == Totals(w.total.download + d, w.total.upload + u)
  {
    var zeroed := RestartAll(w.wans);
    var x := zeroed[i].(down := zeroed[i].down.Carry(d), up := zeroed[i].up.Carry(u));
    assert Rebooted(w, i, d, u).wans == zeroed[i := x];
    assert x.down.current == d && x.up.current == u;
    RestartedShows(w.wans, Download);
    RestartedShows(w.wans, Upload);
    OneShows(zeroed, i, x);
  }

  /** Where nothing else is left on the page, one record shows all. */
  lemma OneShows(wans: seq<Wan>, i: nat, x: Wan)
    requires i < |wans| && wans[i].listed && x.listed && wans[i].down.current == 0 && wans[i].up.current == 0
    requires Sum(wans, Shows, Download) == 0 && Sum(wans, Shows, Upload) == 0
    requires 0 <= x.down.current < WRAP && 0 <= x.up.current < WRAP
    ensures Readable(wans[i := x])
    ensures Sum(wans[i := x], Shows, Download) == x.down.current && Sum(wans[i := x], Shows, Upload) == x.up.current
  {
    SumUpdated(wans, i, x, Shows, Download);
    SumUpdated(wans, i, x, Shows, Upload);
    assert wans[i := x][i] in wans[i := x];
  }

  /**
   A reboot just after a reading, then traffic, with no uptime to show for it: if
   either total is still below the last reading the traffic is charged exactly;
   otherwise the reboot goes unnoticed, and all that the last reading showed is
   missing from the charge.
   */
  lemma UnnoticedRebootLosesReading(w: World, i: nat, d: nat, u: nat, dir: Direction)
    requires JustStored(w) && i < |w.wans| && w.wans[i].listed && w.Shown() == 0
    requires d <= MAX_BIGINT && u <= MAX_BIGINT
    ensures var p, w' := w.LatestReading().value, WaitAndPoll(Rebooted(w, i, d, u));
            var noticed := d < p.download || u < p.upload;
            && w'.total == Totals(w.total.download + d, w.total.upload + u)
            && |w'.tables.resets| == |w.tables.resets| + (if noticed then 1 else 0)
            && Stored(w', dir) + (if noticed then 0 else p.Bytes(dir))
               == Stored(w, dir) + w'.total.Bytes(dir) - w.total.Bytes(dir)
  {
    var w1 := Rebooted(w, i, d, u);
    RebootedShows(w, i, d, u);
    assert Ready(w1);
    WaitedPoll(w1);
    NextCharge(w1, dir);
    NextReset(w1);
  }

  lemma RunSnoc(w: World, steps: seq<Step>, step: Step)
    ensures Run(w, steps + [step]) == Next(Run(w, steps), step)
  {
    assert (steps + [step])[..|steps|] == steps;
  }

  const PAGE := [Wan(Register(10, 10, 0, false), Register(10, 10, 0, false), true, true),
                 Wan(Register(5, 5, 0, false), Register(5, 5, 0, false), true, true)]
  const FIFTEEN := TrafficCounters(1, 15, 15, 0)

  lemma FirstPage(wans: seq<Wan>)
    requires wans == [Wan(Register(10, 0, 10, false), Register(10, 0, 10, false), true, true)]
                     + [Wan(Register(5, 0, 5, false), Register(5, 0, 5, false), true, true)]
    ensures Readable(wans) && Sum(wans, Shows, Download) == 15 && Sum(wans, Shows, Upload) == 15
            && MarkAll(wans) == PAGE
  {
    assert wans[..1] == [wans[0]] && wans[..1][..0] == [];
    assert wans[0] in wans;
    assert Sum(wans[..1], Shows, Download) == 10 && Sum(wans[..1], Shows, Upload) == 10;
  }

  lemma FirstPollStores(w: World)
    requires Inv(w) && Readable(w.wans) && w.tables.readings == [] && w.tables.intervals == [] && Storable(w.Reading())
    ensures var w' := Next(w, Poll);
            JustStored(w') && w'.wans == MarkAll(w.wans) && w'.LatestReading() == Some(w.Reading())
              && w'.tables.intervals == [] && w'.total == w.total
            && (w.baseline.None? ==> w'.baseline == Some(w.total))
  {
    PollStep(w);
    FirstPollTables(w);
    AllAtRest(w.wans);
  }

  lemma FirstPollTables(w: World)
    requires Clocked(w) && Readable(w.wans) && w.tables.readings == [] && w.tables.intervals == []
             && Storable(w.Reading())
    ensures var w' := Next(w, Poll);
            && w'.LatestReading() == Some(w.Reading()) && w'.tables.intervals == [] && w'.wans == MarkAll(w.wans)
            && w'.total == w.total && w'.Shown() == w.Shown() && (w.baseline.None? ==> w'.baseline == Some(w.total))
  {
    StoredPoll(w);
  }

  lemma AllAtRest(wans: seq<Wan>)
    ensures forall x | x in MarkAll(wans) :: x.down == x.down.Mark() && x.up == x.up.Mark() && x.wasListed == x.listed
  {
    forall x | x in MarkAll(wans) ensures x.down == x.down.Mark() && x.up == x.up.Mark() && x.wasListed == x.listed {
      var k :| 0 <= k < |wans| && MarkAll(wans)[k] == x;
    }
  }

  function BeforeFirstPoll(): World {
    Next(Next(Start(1, false, [true, true]), Traffic(0, 10, 10)), Traffic(1, 5, 5))
  }

  lemma CarrySmall(r: Register, amount: nat)
    requires 0 <= r.current && r.current + amount < WRAP
    ensures r.Carry(amount) == Register(r.current + amount, r.shown, r.carried + amount, r.restarted)
  {}

  lemma SmallTraffic(w: World, i: nat, amount: nat, before: Register)
    requires i < |w.wans| && w.wans[i] == Wan(before, before, true, true) && 0 <= before.current
             && before.current + amount < WRAP
    ensures var x := Register(before.current + amount, before.shown, before.carried + amount, before.restarted);
            Next(w, Traffic(i, amount, amount))
            == w.(wans := w.wans[i := Wan(x, x, true, true)],
              total := Totals(w.total.download + amount, w.total.upload + amount))
  {
    CarrySmall(before, amount);
  }

  function AfterFirst(): World {
    Next(Start(1, false, [true, true]), Traffic(0, 10, 10))
  }

  lemma FirstTransfer()
    ensures var w := AfterFirst();
            && w.tables == EMPTY && w.now == 1 && w.baseline == None && w.total == Totals(10, 10) && w.Shown() == 0
            && w.wans == [Wan(Register(10, 0, 10, false), Register(10, 0, 10, false), true, true)]
                         + [Wan(Register(0, 0, 0, false), Register(0, 0, 0, false), true, true)]
  {
    assert Start(1, false, [true, true]).wans == [NewWan(true)] + [NewWan(true)];
    SmallTraffic(Start(1, false, [true, true]), 0, 10, Register(0, 0, 0, false));
  }

  lemma FirstTraffic()
    ensures var w := BeforeFirstPoll();
            && w.tables == EMPTY && w.now == 1 && w.baseline == None && w.total == Totals(15, 15) && w.Shown() == 0
            && w.wans == [Wan(Register(10, 0, 10, false), Register(10, 0, 10, false), true, true)]
                         + [Wan(Register(5, 0, 5, false), Register(5, 0, 5, false), true, true)]
  {
    FirstTransfer();
    SmallTraffic(AfterFirst(), 1, 5, Register(0, 0, 0, false));
  }

  lemma FirstInv()
    ensures Inv(BeforeFirstPoll())
  {
    StartInv(1, false, [true, true]);
    InvStep(Start(1, false, [true, true]), Traffic(0, 10, 10));
    InvStep(AfterFirst(), Traffic(1, 5, 5));
  }

  /** Two records are read once: a world from which each of the above can go wrong. */
  lemma SomePollStored()
    ensures var w := Next(BeforeFirstPoll(), Poll);
            && JustStored(w) && w.wans == PAGE && w.LatestReading() == Some(FIFTEEN) && w.tables.intervals == []
            && w.baseline == Some(w.total)
  {
    FirstTraffic();
    FirstInv();
    FirstPage(BeforeFirstPoll().wans);
    FirstPollStores(BeforeFirstPoll());
  }

  const OVERCHARGED :=
      [Traffic(0, 10, 10)] + [Traffic(1, 5, 5)] + [Poll] + [Drop(1)] + [Wait(1, 0)] + [Poll] + [Return(1)]
        + [Wait(1, 0)] + [Poll]

  lemma OverChargedSteps()
    ensures Run(Start(1, false, [true, true]), OVERCHARGED)
            == WaitAndPoll(Next(WaitAndPoll(Next(Next(BeforeFirstPoll(), Poll), Drop(1))), Return(1)))
  {
    var start := Start(1, false, [true, true]);
    var s1 := [Traffic(0, 10, 10)];
    var s2 := s1 + [Traffic(1, 5, 5)];
    var s3 := s2 + [Poll];
    var s4 := s3 + [Drop(1)];
    var s5 := s4 + [Wait(1, 0)];
    var s6 := s5 + [Poll];
    var s7 := s6 + [Return(1)];
    RunSnoc(start, [], Traffic(0, 10, 10));
    assert [] + s1 == s1;
    RunSnoc(start, s1, Traffic(1, 5, 5));
    RunSnoc(start, s2, Poll);
    RunSnoc(start, s3, Drop(1));
    RunSnoc(start, s4, Wait(1, 0));
    RunSnoc(start, s5, Poll);
    RunSnoc(start, s6, Return(1));
    RunSnoc(start, s7, Wait(1, 0));
    RunSnoc(start, s7 + [Wait(1, 0)], Poll);
  }

  lemma OverChargedWorld(w: World, dir: Direction)
    requires JustStored(w) && w.wans == PAGE && w.LatestReading() == Some(FIFTEEN) && w.tables.intervals == []
    ensures var w' := WaitAndPoll(Next(WaitAndPoll(Next(w, Drop(1))), Return(1)));
            w'.total == w.total && Stored(w', dir) == 15
  {
    assert w.wans[0].listed;
    DropAndReturnChargesAll(w, 1, dir);
  }

  /** A run that charges 15 bytes each way although none was carried after the first reading. */
  lemma OverChargedRun(dir: Direction)
    ensures Next(BeforeFirstPoll(), Poll).baseline == Some(Next(BeforeFirstPoll(), Poll).total)
    ensures var w := Run(Start(1, false, [true, true]), OVERCHARGED);
            w.total == Next(BeforeFirstPoll(), Poll).total && Stored(w, dir) == 15
  {
    OverChargedSteps();
    SomePollStored();
    OverChargedWorld(Next(BeforeFirstPoll(), Poll), dir);
  }

  const UNDERCHARGED :=
    [Traffic(0, 10, 10)] + [Traffic(1, 5, 5)] + [Poll] + [Reboot] + [Traffic(0, 20, 20)] + [Wait(1, 0)] + [Poll]

  lemma UnderChargedSteps()
    ensures Run(Start(1, false, [true, true]), UNDERCHARGED)
            == WaitAndPoll(Rebooted(Next(BeforeFirstPoll(), Poll), 0, 20, 20))
  {
    var start := Start(1, false, [true, true]);
    var s1 := [Traffic(0, 10, 10)];
    var s2 := s1 + [Traffic(1, 5, 5)];
    var s3 := s2 + [Poll];
    var s4 := s3 + [Reboot];
    var s5 := s4 + [Traffic(0, 20, 20)];
    RunSnoc(start, [], Traffic(0, 10, 10));
    assert [] + s1 == s1;
    RunSnoc(start, s1, Traffic(1, 5, 5));
    RunSnoc(start, s2, Poll);
    RunSnoc(start, s3, Reboot);
    RunSnoc(start, s4, Traffic(0, 20, 20));
    RunSnoc(start, s5, Wait(1, 0));
    RunSnoc(start, s5 + [Wait(1, 0)], Poll);
  }

  lemma UnderChargedWorld(w: World, dir: Direction)
    requires JustStored(w) && w.wans == PAGE && w.LatestReading() == Some(FIFTEEN) && w.tables.intervals == []
    ensures var w' := WaitAndPoll(Rebooted(w, 0, 20, 20));
            w'.total == Totals(w.total.download + 20, w.total.upload + 20) && Stored(w', dir) == 5
  {
    assert w.wans[0].listed;
    UnnoticedRebootLosesReading(w, 0, 20, 20, dir);
  }

  /** A run that charges 5 of the 20 bytes carried each way after the first reading. */
  lemma UnderChargedRun(dir: Direction)
    ensures var first, w := Next(BeforeFirstPoll(), Poll), Run(Start(1, false, [true, true]), UNDERCHARGED);
            && first.baseline == Some(first.total)
            && w.total == Totals(first.total.download + 20, first.total.upload + 20) && Stored(w, dir) == 5
  {
    UnderChargedSteps();
    SomePollStored();
    UnderChargedWorld(Next(BeforeFirstPoll(), Poll), dir);
  }
}
