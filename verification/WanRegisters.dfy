/**
 The WAN records behind one reading. The adapter adds up the records it finds on
 the router's pages (api/internal/router/huawei_adapter.go), each with registers of
 its own that can restart, roll over, or be missing from a page. One gap between
 two readings is compared here with what was really carried in it.
 */
module WanRegisters {
  import opened Counters
  import HuaweiWan

  const WRAP: int := MAX_UINT64 + 1

  /**
   One 64-bit counter: its value, the value it had at the latest reading, what it
   has carried since, and whether it has restarted from zero since.
   */
  datatype Register = Register(current: int, shown: int, carried: int, restarted: bool)
  {
    predicate Sound() {
      && 0 <= current < WRAP && 0 <= shown && 0 <= carried
      && if restarted then current <= carried else current == shown + carried
    }

    function Carry(amount: nat): Register {
      Register((current + amount) % WRAP, shown, carried + amount, restarted || RollsOver(amount))
    }

    predicate RollsOver(amount: nat) {
      current + amount >= WRAP
    }

    function Restart(): Register {
      Register(0, shown, carried, true)
    }

    function Mark(): Register {
      Register(current, current, 0, false)
    }
  }

  /**
   A record is `listed` while the pages show it in a form that parses, and `wasListed` tells
   this of the latest reading.
   */
  datatype Wan = Wan(down: Register, up: Register, listed: bool, wasListed: bool)
  {
    function At(dir: Direction): Register {
      match dir
      case Download => down
      case Upload => up
    }

    predicate Sound() {
      down.Sound() && up.Sound()
    }

    function Restart(): Wan {
      Wan(down.Restart(), up.Restart(), listed, wasListed)
    }

    function Mark(): Wan {
      Wan(down.Mark(), up.Mark(), listed, listed)
    }
  }

  /**
   What is added up over the records: what the reading shows and what the latest
   one showed; what was carried since; bytes on the page that were there before the
   gap (`Stale`), those of records the latest reading did not list (`NewlyListed`);
   bytes carried that are not on the page (`Missed`); and bytes of the latest
   reading that have gone from the page (`Gone`).
   */
  datatype Quantity = Shows | Showed | Carried | Stale | NewlyListed | Missed | Gone

  function Measure(x: Wan, q: Quantity, dir: Direction): int {
    var r := x.At(dir);
    match q
    case Shows => if x.listed then r.current else 0
    case Showed => if x.wasListed then r.shown else 0
    case Carried => r.carried
    case Stale => if x.listed && !r.restarted then r.shown else 0
    case NewlyListed => if x.listed && !x.wasListed && !r.restarted then r.shown else 0
    case Missed => if !x.listed then r.carried else if r.restarted then r.carried - r.current else 0
    case Gone => if x.wasListed && (!x.listed || r.restarted) then r.shown else 0
  }

  function Sum(wans: seq<Wan>, q: Quantity, dir: Direction): int {
    if wans == [] then 0 else Sum(wans[..|wans| - 1], q, dir) + Measure(wans[|wans| - 1], q, dir)
  }

  predicate AllSound(wans: seq<Wan>) {
    forall x | x in wans :: x.Sound()
  }

  /** The records as the page lists them. */
  function Page(wans: seq<Wan>): seq<HuaweiWan.Pair>
    requires AllSound(wans)
  {
    if wans == [] then []
    else
      var last := wans[|wans| - 1];
      assert last.Sound();
      Page(wans[..|wans| - 1]) + if last.listed then [HuaweiWan.Pair(last.down.current, last.up.current)] else []
  }

  /** Some record is listed and both totals fit in 64 bits. */
  predicate Readable(wans: seq<Wan>) {
    (exists x | x in wans :: x.listed) && 0 <= Sum(wans, Shows, Download) <= MAX_UINT64
      && 0 <= Sum(wans, Shows, Upload) <= MAX_UINT64
  }

  /**
   From the text of the page: whatever the kinds, domains and other columns printed
   with the listed records, in any order, the parser accepts the page exactly when it is readable, and
   its totals are the sums over the listed records.
   */
  lemma {:induction false} PageReads(wans: seq<Wan>, records: seq<HuaweiWan.WanRecord>)
    requires AllSound(wans) && HuaweiWan.AllPrintable(records)
    requires multiset(HuaweiWan.CountersOf(records)) == multiset(Page(wans))
    ensures var pairs := HuaweiWan.AllPairs(HuaweiWan.WanPage(records));
            && (Readable(wans) <==> pairs != [] && HuaweiWan.Fits(pairs))
            && HuaweiWan.Received(pairs) == Sum(wans, Shows, Download)
            && HuaweiWan.Sent(pairs) == Sum(wans, Shows, Upload)
  {
    HuaweiWan.WanPageRead(records);
    HuaweiWan.KindsPartition(records);
    HuaweiWan.SumsOfPermutation(HuaweiWan.AllPairs(HuaweiWan.WanPage(records)), Page(wans));
    PageSums(wans);
  }

  lemma {:induction false} PageSums(wans: seq<Wan>)
    requires AllSound(wans)
    ensures HuaweiWan.Received(Page(wans)) == Sum(wans, Shows, Download)
            && HuaweiWan.Sent(Page(wans)) == Sum(wans, Shows, Upload)
    ensures Page(wans) != [] <==> exists x | x in wans :: x.listed
  {
    if wans == [] {
    } else {
      var front, last := wans[..|wans| - 1], wans[|wans| - 1];
      PageSums(front);
      assert wans == front + [last] && last.Sound();
      if last.listed {
        var pair := HuaweiWan.Pair(last.down.current, last.up.current);
        HuaweiWan.OneMoreRecord(Page(front), pair, []);
        assert last in wans;
      } else {
        assert Page(wans) == Page(front);
      }
    }
  }

  /** Two pairs of quantities that agree on every record agree in total. */
  lemma {:induction false} SumsBalance(wans: seq<Wan>, a: Quantity, b: Quantity, c: Quantity, d: Quantity,
      dir: Direction)
    requires forall x | x in wans :: Measure(x, a, dir) + Measure(x, b, dir) == Measure(x, c, dir) + Measure(x, d, dir)
    ensures Sum(wans, a, dir) + Sum(wans, b, dir) == Sum(wans, c, dir) + Sum(wans, d, dir)
  {
    if wans == [] {
    } else {
      SumsBalance(wans[..|wans| - 1], a, b, c, d, dir);
    }
  }

  lemma {:induction false} SumAtMost(wans: seq<Wan>, a: Quantity, b: Quantity, dir: Direction)
    requires forall x | x in wans :: Measure(x, a, dir) <= Measure(x, b, dir)
    ensures Sum(wans, a, dir) <= Sum(wans, b, dir)
  {
    if wans == [] {
    } else {
      SumAtMost(wans[..|wans| - 1], a, b, dir);
    }
  }

  lemma {:induction false} SumIsZero(wans: seq<Wan>, q: Quantity, dir: Direction)
    requires forall x | x in wans :: Measure(x, q, dir) == 0
    ensures Sum(wans, q, dir) == 0
  {
    if wans == [] {
    } else {
      SumIsZero(wans[..|wans| - 1], q, dir);
    }
  }

  lemma {:induction false} SumNotNegative(wans: seq<Wan>, q: Quantity, dir: Direction)
    requires AllSound(wans)
    ensures 0 <= Sum(wans, q, dir)
  {
    if wans == [] {
    } else {
      SumNotNegative(wans[..|wans| - 1], q, dir);
      assert wans[|wans| - 1].Sound();
    }
  }

  lemma {:induction false} SumUpdated(wans: seq<Wan>, i: nat, x: Wan, q: Quantity, dir: Direction)
    requires i < |wans|
    ensures Sum(wans[i := x], q, dir) == Sum(wans, q, dir) - Measure(wans[i], q, dir) + Measure(x, q, dir)
  {
    var n := |wans| - 1;
    if i == n {
      assert wans[i := x][..n] == wans[..n];
    } else {
      assert wans[i := x][..n] == wans[..n][i := x];
      SumUpdated(wans[..n], i, x, q, dir);
    }
  }

  /** The usage charged for a gap is the difference of two readings, or the later reading after a reset. */
  predicate Gap(wans: seq<Wan>, previous: TrafficCounters, c: TrafficCounters, dir: Direction) {
    AllSound(wans) && previous.Bytes(dir) == Sum(wans, Showed, dir) && c.Bytes(dir) == Sum(wans, Shows, dir)
  }

  /** Bytes from before the gap that are charged in it. */
  function Again(wans: seq<Wan>, reset: bool, dir: Direction): int {
    if reset then Sum(wans, Stale, dir) else Sum(wans, NewlyListed, dir)
  }

  /** Bytes of the gap that are not charged, and bytes of the latest reading that are set off against it. */
  function Unseen(wans: seq<Wan>, reset: bool, dir: Direction): int {
    if reset then Sum(wans, Missed, dir) else Sum(wans, Missed, dir) + Sum(wans, Gone, dir)
  }

  /** What a gap stores and what it leaves out are what was carried and what is charged again. */
  lemma GapBalances(wans: seq<Wan>, previous: TrafficCounters, c: TrafficCounters, dir: Direction)
    requires Gap(wans, previous, c, dir)
    ensures var d := CalculateDelta(previous, c);
            && d.Bytes(dir) + Unseen(wans, d.reset, dir) == Sum(wans, Carried, dir) + Again(wans, d.reset, dir)
            && 0 <= Again(wans, d.reset, dir) && 0 <= Unseen(wans, d.reset, dir)
  {
    forall x | x in wans
      ensures Measure(x, Shows, dir) + Measure(x, Missed, dir) == Measure(x, Carried, dir) + Measure(x, Stale, dir) {
      assert x.Sound();
    }
    SumsBalance(wans, Shows, Missed, Carried, Stale, dir);
    SumsBalance(wans, Stale, Gone, NewlyListed, Showed, dir);
    SumNotNegative(wans, Stale, dir);
    SumNotNegative(wans, NewlyListed, dir);
    SumNotNegative(wans, Missed, dir);
    SumNotNegative(wans, Gone, dir);
  }

  /**
   A gap stores more than was carried exactly when, taken for a reset, the listed
   registers that kept counting held more at its start than the gap carried unseen;
   or, not taken for one, when the newly listed ones held more than the gap carried
   unseen and the dropped or restarted ones took with them.
   */
  lemma GapOverCountsIff(wans: seq<Wan>, previous: TrafficCounters, c: TrafficCounters, dir: Direction)
    requires Gap(wans, previous, c, dir)
    ensures var d := CalculateDelta(previous, c);
            d.Bytes(dir) > Sum(wans, Carried, dir) <==>
            if d.reset then Sum(wans, Stale, dir) > Sum(wans, Missed, dir)
            else Sum(wans, NewlyListed, dir) > Sum(wans, Missed, dir) + Sum(wans, Gone, dir)
  {
    GapBalances(wans, previous, c, dir);
  }

  /** A gap stores less than was carried exactly when it leaves more unseen than it charges again. */
  lemma GapUnderCountsIff(wans: seq<Wan>, previous: TrafficCounters, c: TrafficCounters, dir: Direction)
    requires Gap(wans, previous, c, dir)
    ensures var d := CalculateDelta(previous, c);
            d.Bytes(dir) < Sum(wans, Carried, dir) <==>
            if d.reset then Sum(wans, Stale, dir) < Sum(wans, Missed, dir)
            else Sum(wans, NewlyListed, dir) < Sum(wans, Missed, dir) + Sum(wans, Gone, dir)
  {
    GapBalances(wans, previous, c, dir);
  }

  predicate AllRestartedOn(wans: seq<Wan>) {
    forall x | x in wans :: x.down.restarted && x.up.restarted && x.wasListed == x.listed
  }

  /**
   A restart of all records that goes unnoticed loses the whole previous reading
   besides what was carried before the restart; a noticed one loses only the latter.
   */
  lemma RestartLoses(wans: seq<Wan>, previous: TrafficCounters, c: TrafficCounters, dir: Direction)
    requires Gap(wans, previous, c, dir) && AllRestartedOn(wans)
    ensures var d := CalculateDelta(previous, c);
            d.Bytes(dir) + Sum(wans, Missed, dir) + (if d.reset then 0 else previous.Bytes(dir))
              == Sum(wans, Carried, dir)
  {
    GapBalances(wans, previous, c, dir);
    SumIsZero(wans, Stale, dir);
    SumIsZero(wans, NewlyListed, dir);
    SumAtMost(wans, Gone, Showed, dir);
    SumAtMost(wans, Showed, Gone, dir);
  }

  /** Every record of the latest reading is still listed, and no register of any record has restarted. */
  predicate Undisturbed(wans: seq<Wan>) {
    forall x | x in wans :: !x.down.restarted && !x.up.restarted && (x.wasListed ==> x.listed)
  }

  lemma UndisturbedGrows(wans: seq<Wan>, dir: Direction)
    requires AllSound(wans) && Undisturbed(wans)
    ensures Sum(wans, Showed, dir) <= Sum(wans, Shows, dir)
  {
    forall x | x in wans ensures Measure(x, Showed, dir) <= Measure(x, Shows, dir) {
      assert x.Sound();
    }
    SumAtMost(wans, Showed, Shows, dir);
  }

  /**
   A counter that falls shows that a register restarted or a record was dropped; only a shorter
   uptime could show more.
   */
  lemma ResetNeedsDisturbance(wans: seq<Wan>, previous: TrafficCounters, c: TrafficCounters)
    requires Gap(wans, previous, c, Download) && Gap(wans, previous, c, Upload) && Undisturbed(wans)
    ensures CalculateDelta(previous, c).reset <==> c.uptime < previous.uptime
  {
    UndisturbedGrows(wans, Download);
    UndisturbedGrows(wans, Upload);
  }

  function MarkAll(wans: seq<Wan>): seq<Wan> {
    seq(|wans|, i requires 0 <= i < |wans| => wans[i].Mark())
  }

  function RestartAll(wans: seq<Wan>): seq<Wan> {
    seq(|wans|, i requires 0 <= i < |wans| => wans[i].Restart())
  }

  /** A stored reading becomes the latest one. */
  lemma {:induction false} MarkSums(wans: seq<Wan>, dir: Direction)
    ensures Sum(MarkAll(wans), Showed, dir) == Sum(wans, Shows, dir) && Sum(MarkAll(wans), Carried, dir) == 0
  {
    if wans == [] {
    } else {
      var n := |wans| - 1;
      assert MarkAll(wans)[..n] == MarkAll(wans[..n]);
      MarkSums(wans[..n], dir);
    }
  }

  lemma {:induction false} RestartSums(wans: seq<Wan>, dir: Direction)
    ensures Sum(RestartAll(wans), Showed, dir) == Sum(wans, Showed, dir)
            && Sum(RestartAll(wans), Carried, dir) == Sum(wans, Carried, dir)
  {
    if wans == [] {
    } else {
      var n := |wans| - 1;
      assert RestartAll(wans)[..n] == RestartAll(wans[..n]);
      RestartSums(wans[..n], dir);
    }
  }

  lemma AllMarked(wans: seq<Wan>)
    requires AllSound(wans)
    ensures AllSound(MarkAll(wans)) && Undisturbed(MarkAll(wans))
  {
    forall x | x in MarkAll(wans) ensures x.Sound() && !x.down.restarted && !x.up.restarted && x.wasListed == x.listed {
      var i :| 0 <= i < |wans| && MarkAll(wans)[i] == x;
      assert wans[i].Sound();
    }
  }

  lemma AllRestarted(wans: seq<Wan>)
    requires AllSound(wans)
    ensures AllSound(RestartAll(wans))
  {
    forall x | x in RestartAll(wans) ensures x.Sound() {
      var i :| 0 <= i < |wans| && RestartAll(wans)[i] == x;
      assert wans[i].Sound();
    }
  }

  lemma CarryKeepsSound(r: Register, amount: nat)
    requires r.Sound()
    ensures r.Carry(amount).Sound()
    ensures !r.RollsOver(amount) ==> r.Carry(amount).current == r.current + amount
  {}

  lemma UpdatedSound(wans: seq<Wan>, i: nat, x: Wan)
    requires i < |wans| && AllSound(wans) && x.Sound()
    ensures AllSound(wans[i := x])
  {}
}
