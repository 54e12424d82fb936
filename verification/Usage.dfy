/** Aggregation of usage intervals (api/internal/store/usage.go and api/internal/httpapi/usage_handlers.go). */
module Usage {
  import opened Prelude
  import opened Counters
  import opened Ledger
  import opened Calendar
  import Tiling

  datatype Totals = Totals(download: nat, upload: nat, count: nat)
  {
    function Plus(other: Totals): Totals {
      Totals(download + other.download, upload + other.upload, count + other.count)
    }

    predicate IsSum(a: Totals, b: Totals) {
      download == a.download + b.download && upload == a.upload + b.upload && count == a.count + b.count
    }
  }

  const NOTHING := Totals(0, 0, 0)

  function Single(x: Interval): Totals {
    Totals(x.usage.download, x.usage.upload, 1)
  }

  /** The `where` clauses of the queries; a window is open at its start and closed at its end. */
  datatype Condition =
    | Window(source: string, start: int, end: int)
    | Inside(source: string, start: int, end: int)
    | EndingAt(source: string, at: int)
    | Bucket(source: string, start: int, end: int, g: Granularity, offset: int, period: int)
  {
    predicate Holds(x: Interval) {
      match this
      case Window(source, start, end) => x.source == source && start < x.endedAt <= end
      case Inside(source, start, end) => x.source == source && start < x.endedAt < end
      case EndingAt(source, at) => x.source == source && x.endedAt == at
      case Bucket(source, start, end, g, offset, period) =>
        x.source == source && start < x.endedAt <= end && Truncate(g, offset, x.endedAt) == period
    }
  }

  /** `sum(download_bytes), sum(upload_bytes), count(*)` of the intervals a condition selects. */
  function SumWhere(intervals: seq<Interval>, where: Condition): Totals {
    if intervals == [] then NOTHING
    else
      var last := intervals[|intervals| - 1];
      var before := SumWhere(intervals[..|intervals| - 1], where);
      if where.Holds(last) then before.Plus(Single(last)) else before
  }

  function Summarize(intervals: seq<Interval>, source: string, start: int, end: int): Totals {
    SumWhere(intervals, Window(source, start, end))
  }

  /** The intervals a condition selects. */
  function Selected(intervals: seq<Interval>, where: Condition): (r: seq<Interval>)
    ensures forall x :: x in r <==> x in intervals && where.Holds(x)
  {
    if intervals == [] then []
    else
      var last := intervals[|intervals| - 1];
      Selected(intervals[..|intervals| - 1], where) + if where.Holds(last) then [last] else []
  }

  /** Whatever is selected, the sums are those of the stored bytes, and the count is that of the intervals. */
  lemma {:induction false} SumsAreOfStoredBytes(intervals: seq<Interval>, where: Condition)
    ensures var sums, selected := SumWhere(intervals, where), Selected(intervals, where);
            && sums.download == Tiling.SumIntervals(selected, Download)
            && sums.upload == Tiling.SumIntervals(selected, Upload)
            && sums.count == |selected|
  {
    if intervals == [] {
    } else {
      var n := |intervals| - 1;
      SumsAreOfStoredBytes(intervals[..n], where);
      var selected := Selected(intervals, where);
      if where.Holds(intervals[n]) {
        assert selected[..|selected| - 1] == Selected(intervals[..n], where);
      } else {
        assert selected == Selected(intervals[..n], where);
      }
    }
  }

  lemma {:induction false} WholeWindow(intervals: seq<Interval>, source: string, start: int, end: int)
    requires forall x | x in intervals && x.source == source :: start < x.endedAt <= end
    ensures Selected(intervals, Window(source, start, end)) == Tiling.Of(intervals, source)
  {
    if intervals == [] {
    } else {
      var n := |intervals| - 1;
      assert intervals == intervals[..n] + [intervals[n]];
      WholeWindow(intervals[..n], source, start, end);
    }
  }

  /**
   A window's summary adds up the bytes of exactly the source's intervals that end in
   it, after its start and no later than its end.
   */
  lemma SummaryOfWindow(intervals: seq<Interval>, source: string, start: int, end: int)
    ensures var summary := Summarize(intervals, source, start, end);
            var inside := Selected(intervals, Window(source, start, end));
            && (forall x :: x in inside <==> x in intervals && x.source == source && start < x.endedAt <= end)
            && summary.download == Tiling.SumIntervals(inside, Download)
            && summary.upload == Tiling.SumIntervals(inside, Upload)
            && summary.count == |inside|
            && ((forall x | x in intervals && x.source == source :: start < x.endedAt <= end) ==>
                  inside == Tiling.Of(intervals, source))
  {
    SumsAreOfStoredBytes(intervals, Window(source, start, end));
    if forall x | x in intervals && x.source == source :: start < x.endedAt <= end {
      WholeWindow(intervals, source, start, end);
    }
  }

  /** From readings to report: a window around all the intervals of a source shows its telescoped counter growth. */
  lemma ReportsTelescope(ops: seq<Op>, source: string, start: int, end: int)
    requires source != "" && Tiling.RecordsOnly(ops) && Tiling.NoSharedInstants(ops)
    requires var own := Tiling.Own(ops, source); own != [] && Tiling.Ascending(own)
    requires forall x | x in Tiling.Run(EMPTY, ops).intervals && x.source == source :: start < x.endedAt <= end
    ensures var summary := Summarize(Tiling.Run(EMPTY, ops).intervals, source, start, end);
            var segments := Segments(Tiling.Own(ops, source));
            && summary.download == Telescoped(segments, Download)
            && summary.upload == Telescoped(segments, Upload)
            && summary.count == |Tiling.Own(ops, source)| - 1
  {
    SummaryOfWindow(Tiling.Run(EMPTY, ops).intervals, source, start, end);
    Tiling.LedgerTelescopes(ops, source, Download);
    Tiling.LedgerTelescopes(ops, source, Upload);
    Tiling.AscendingLedger(ops, source);
  }

  lemma PlusAssociates(a: Totals, b: Totals, c: Totals)
    ensures a.Plus(b).Plus(c) == a.Plus(b.Plus(c))
  {}

  lemma PlusSwaps(a: Totals, b: Totals, c: Totals)
    ensures a.Plus(b).Plus(c) == a.Plus(c).Plus(b)
  {}

  /** `whole` selects what exactly one of `a` and `b` selects. */
  predicate Splits(x: Interval, whole: Condition, a: Condition, b: Condition) {
    whole.Holds(x) == (a.Holds(x) || b.Holds(x)) && !(a.Holds(x) && b.Holds(x))
  }

  lemma {:induction false} SumSplits(intervals: seq<Interval>, whole: Condition, a: Condition, b: Condition)
    requires forall x: Interval :: Splits(x, whole, a, b)
    ensures SumWhere(intervals, whole).IsSum(SumWhere(intervals, a), SumWhere(intervals, b))
  {
    if intervals == [] {
    } else {
      SumSplits(intervals[..|intervals| - 1], whole, a, b);
      assert Splits(intervals[|intervals| - 1], whole, a, b);
    }
  }

  predicate Alike(x: Interval, a: Condition, b: Condition) {
    a.Holds(x) == b.Holds(x)
  }

  lemma {:induction false} SumAlike(intervals: seq<Interval>, a: Condition, b: Condition)
    requires forall x: Interval :: Alike(x, a, b)
    ensures SumWhere(intervals, a) == SumWhere(intervals, b)
  {
    if intervals == [] {
    } else {
      SumAlike(intervals[..|intervals| - 1], a, b);
      assert Alike(intervals[|intervals| - 1], a, b);
    }
  }

  /** Adjacent windows neither share nor lose an interval. */
  lemma AdjacentWindowsAdd(intervals: seq<Interval>, source: string, a: int, b: int, c: int)
    requires a <= b <= c
    ensures Summarize(intervals, source, a, c).IsSum(Summarize(intervals, source, a, b),
            Summarize(intervals, source, b, c))
  {
    forall x: Interval ensures Splits(x, Window(source, a, c), Window(source, a, b), Window(source, b, c)) {}
    SumSplits(intervals, Window(source, a, c), Window(source, a, b), Window(source, b, c));
  }

  datatype Granularity = Hour | Day | Week | Month

  /** An empty name means days. */
  function ParseGranularity(name: string): Option<Granularity> {
    if name == "" then Some(Day)
    else if name == "hour" then Some(Hour)
    else if name == "day" then Some(Day)
    else if name == "week" then Some(Week)
    else if name == "month" then Some(Month)
    else None
  }

  /** Local start of the `k`-th period; 1 January of year 1 is a Monday, where PostgreSQL's weeks begin. */
  function PeriodStart(g: Granularity, k: int): int {
    match g
    case Hour => k * HOUR
    case Day => k * DAY
    case Week => k * WEEK
    case Month => MonthStart(k) * DAY
  }

  function PeriodIndex(g: Granularity, local: int): int {
    match g
    case Hour => local / HOUR
    case Day => local / DAY
    case Week => local / WEEK
    case Month => MonthOf(local / DAY)
  }

  /** `date_trunc(g, at at time zone offset)`. */
  function Truncate(g: Granularity, offset: int, at: int): int {
    PeriodStart(g, PeriodIndex(g, at + offset))
  }

  lemma FloorDivision(local: int, length: int, k: int)
    requires length > 0
    ensures local / length == k <==> k * length <= local < (k + 1) * length
  {
    var q := local / length;
    if q < k {
      assert (q + 1) * length <= k * length;
    } else if k < q {
      assert (k + 1) * length <= q * length;
    }
  }

  lemma MonthsTile(k: int, local: int)
    ensures MonthOf(local / DAY) == k <==> MonthStart(k) * DAY <= local < MonthStart(k + 1) * DAY
  {
    var day := local / DAY;
    if MonthStart(k) <= day < MonthStart(k + 1) {
      MonthOfIs(day, k);
    }
  }

  /** Periods tile local time, and truncation finds the one an instant lies in. */
  lemma PeriodsTile(g: Granularity, k: int, local: int)
    ensures PeriodIndex(g, local) == k <==> PeriodStart(g, k) <= local < PeriodStart(g, k + 1)
  {
    match g
    case Hour => FloorDivision(local, HOUR, k);
    case Day => FloorDivision(local, DAY, k);
    case Week => FloorDivision(local, WEEK, k);
    case Month => MonthsTile(k, local);
  }

  /**
   Periods begin on the hour, at midnight, on Mondays - 3 January of year `y + 1`, 2000, was one
   - and on the first of the month.
   */
  lemma PeriodsBegin(k: int, y: int)
    requires y == 1999
    ensures PeriodStart(Hour, k) == k * 60 * MINUTE
    ensures PeriodStart(Day, k) == k * 24 * 60 * MINUTE
    ensures PeriodStart(Week, k) == (Date(12 * y, 3) + 7 * (k - 104303)) * 24 * 60 * MINUTE
    ensures PeriodStart(Month, k) == Date(k, 1) * 24 * 60 * MINUTE
  {
    YearStart(y);
    WeekStart(k, Date(12 * y, 3));
  }

  lemma WeekStart(k: int, monday: int)
    requires monday == 7 * 104303
    ensures PeriodStart(Week, k) == (monday + 7 * (k - 104303)) * 24 * 60 * MINUTE
  {}

  lemma TruncateIs(g: Granularity, offset: int, at: int, k: int)
    ensures Truncate(g, offset, at) == PeriodStart(g, k) <==> PeriodStart(g, k) <= at + offset < PeriodStart(g, k + 1)
  {
    PeriodsTile(g, k, at + offset);
    var j := PeriodIndex(g, at + offset);
    if j < k { PeriodStartsAscend(g, j, k); }
    if k < j { PeriodStartsAscend(g, k, j); }
  }

  lemma PeriodStartsAscend(g: Granularity, j: int, k: int)
    requires j < k
    ensures PeriodStart(g, j) < PeriodStart(g, k)
  {
    if g == Month {
      MonthsAscend(j, k);
    }
  }

  datatype Point = Point(period: int, usage: Totals)

  /** Adds usage to its period's row, keeping rows in order of period. */
  function AddTo(points: seq<Point>, period: int, usage: Totals): seq<Point> {
    if points == [] || period < points[0].period then [Point(period, usage)] + points
    else if period == points[0].period then [Point(period, points[0].usage.Plus(usage))] + points[1..]
    else [points[0]] + AddTo(points[1..], period, usage)
  }

  /** `group by 1 order by 1` over the intervals of a window. */
  function History(intervals: seq<Interval>, g: Granularity, offset: int, source: string, start: int,
      end: int): seq<Point> {
    if intervals == [] then []
    else
      var last := intervals[|intervals| - 1];
      var before := History(intervals[..|intervals| - 1], g, offset, source, start, end);
      if Window(source, start, end).Holds(last) then AddTo(before, Truncate(g, offset, last.endedAt), Single(last))
        else before
  }

  function At(points: seq<Point>, period: int): Totals {
    if points == [] then NOTHING
    else if points[0].period == period then points[0].usage
    else At(points[1..], period)
  }

  predicate Rows(points: seq<Point>) {
    forall i | 0 <= i < |points| :: points[i].usage.count > 0 && (i > 0 ==> points[i - 1].period < points[i].period)
  }

  function Total(points: seq<Point>): Totals {
    if points == [] then NOTHING else points[0].usage.Plus(Total(points[1..]))
  }

  lemma RowsTail(points: seq<Point>)
    requires Rows(points) && points != []
    ensures Rows(points[1..]) && (|points| > 1 ==> points[0].period < points[1..][0].period)
  {
    forall i | 0 <= i < |points| - 1 ensures points[1..][i] == points[i + 1] {}
  }

  lemma RowsCons(p: Point, rest: seq<Point>)
    requires p.usage.count > 0 && Rows(rest) && (rest != [] ==> p.period < rest[0].period)
    ensures Rows([p] + rest)
    ensures Total([p] + rest) == p.usage.Plus(Total(rest))
  {
    var r := [p] + rest;
    assert r[1..] == rest;
    forall i | 0 < i < |r| ensures r[i] == rest[i - 1] && r[i - 1].period < r[i].period {}
  }

  lemma {:induction false} AddToRows(points: seq<Point>, period: int, usage: Totals)
    requires Rows(points) && usage.count > 0
    ensures var r := AddTo(points, period, usage);
            Rows(r) && r != [] && (r[0].period == period || (points != [] && r[0].period == points[0].period))
    ensures Total(AddTo(points, period, usage)) == Total(points).Plus(usage)
  {
    if points == [] || period < points[0].period {
      RowsCons(Point(period, usage), points);
      PlusSwaps(NOTHING, usage, Total(points));
    } else {
      var rest := points[1..];
      RowsTail(points);
      if period == points[0].period {
        RowsCons(Point(period, points[0].usage.Plus(usage)), rest);
        PlusSwaps(points[0].usage, usage, Total(rest));
      } else {
        AddToRows(rest, period, usage);
        RowsCons(points[0], AddTo(rest, period, usage));
        PlusAssociates(points[0].usage, Total(rest), usage);
      }
    }
  }

  lemma {:induction false} AddToAt(points: seq<Point>, period: int, usage: Totals, key: int)
    requires Rows(points)
    ensures At(AddTo(points, period, usage), key) == if key == period then At(points, key).Plus(usage)
            else At(points, key)
  {
    if points == [] {
    } else if period < points[0].period {
      if key == period { NothingBelow(points, key); }
      assert AddTo(points, period, usage)[1..] == points;
    } else if period == points[0].period {
      assert AddTo(points, period, usage)[1..] == points[1..];
    } else {
      assert forall i | 0 <= i < |points[1..]| :: points[1..][i] == points[i + 1];
      AddToAt(points[1..], period, usage, key);
      assert AddTo(points, period, usage)[1..] == AddTo(points[1..], period, usage);
    }
  }

  lemma {:induction false} NothingBelow(points: seq<Point>, key: int)
    requires Rows(points) && (points != [] ==> key < points[0].period)
    ensures At(points, key) == NOTHING
  {
    if points == [] {
    } else {
      assert forall i | 0 <= i < |points[1..]| :: points[1..][i] == points[i + 1];
      NothingBelow(points[1..], key);
    }
  }

  /**
   The rows are exactly the non-empty periods in increasing order, each holding
   the sums of its own intervals, and together they hold the window's summary.
   */
  lemma {:induction false} HistoryExact(intervals: seq<Interval>, g: Granularity, offset: int, source: string,
      start: int, end: int, period: int)
    ensures var points := History(intervals, g, offset, source, start, end);
            && Rows(points)
            && At(points, period) == SumWhere(intervals, Bucket(source, start, end, g, offset, period))
            && Total(points) == Summarize(intervals, source, start, end)
  {
    if intervals == [] {
    } else {
      var front, last := intervals[..|intervals| - 1], intervals[|intervals| - 1];
      HistoryExact(front, g, offset, source, start, end, period);
      if Window(source, start, end).Holds(last) {
        AddToRows(History(front, g, offset, source, start, end), Truncate(g, offset, last.endedAt), Single(last));
        AddToAt(History(front, g, offset, source, start, end), Truncate(g, offset, last.endedAt), Single(last), period);
      }
    }
  }

  /**
   A period inside a window: its row is the period's own summary, except that an
   interval ending exactly on a boundary is counted with the period it opens,
   while summaries count it with the period it closes.
   */
  lemma PeriodRowAgainstSummary(intervals: seq<Interval>, g: Granularity, offset: int, source: string, start: int,
      end: int, k: int)
    requires var s, e := PeriodStart(g, k) - offset, PeriodStart(g, k + 1) - offset; start <= s && e <= end
    ensures var s, e := PeriodStart(g, k) - offset, PeriodStart(g, k + 1) - offset;
            var row := At(History(intervals, g, offset, source, start, end), PeriodStart(g, k));
            var opening := if start == s then NOTHING else SumWhere(intervals, EndingAt(source, s));
            row.Plus(SumWhere(intervals, EndingAt(source, e))).IsSum(Summarize(intervals, source, s, e), opening)
  {
    var s, e := PeriodStart(g, k) - offset, PeriodStart(g, k + 1) - offset;
    PeriodStartsAscend(g, k, k + 1);
    RowIsHalfOpen(intervals, g, offset, source, start, end, k, s, e);
    WindowIsHalfClosed(intervals, source, s, e);
  }

  lemma WindowIsHalfClosed(intervals: seq<Interval>, source: string, s: int, e: int)
    requires s < e
    ensures Summarize(intervals, source, s, e).IsSum(SumWhere(intervals, Inside(source, s, e)),
            SumWhere(intervals, EndingAt(source, e)))
  {
    forall x: Interval ensures Splits(x, Window(source, s, e), Inside(source, s, e), EndingAt(source, e)) {}
    SumSplits(intervals, Window(source, s, e), Inside(source, s, e), EndingAt(source, e));
  }

  lemma RowIsHalfOpen(intervals: seq<Interval>, g: Granularity, offset: int, source: string, start: int, end: int,
      k: int, s: int, e: int)
    requires s == PeriodStart(g, k) - offset && e == PeriodStart(g, k + 1) - offset && start <= s < e <= end
    ensures At(History(intervals, g, offset, source, start, end), PeriodStart(g, k)).IsSum(
              SumWhere(intervals, Inside(source, s, e)), if start == s then NOTHING
                else SumWhere(intervals, EndingAt(source, s)))
  {
    HistoryExact(intervals, g, offset, source, start, end, PeriodStart(g, k));
    BucketIsHalfOpen(source, start, end, g, offset, k, s, e);
    HalfOpenSum(intervals, Bucket(source, start, end, g, offset, PeriodStart(g, k)), Inside(source, s, e),
      EndingAt(source, s), start == s);
  }

  /** `bucket` selects what `inside` does and, unless it is the window's first, what `opening` does. */
  ghost predicate HalfOpen(bucket: Condition, inside: Condition, opening: Condition, first: bool) {
    if first then forall x: Interval :: Alike(x, bucket, inside)
      else forall x: Interval :: Splits(x, bucket, inside, opening)
  }

  lemma HalfOpenSum(intervals: seq<Interval>, bucket: Condition, inside: Condition, opening: Condition, first: bool)
    requires HalfOpen(bucket, inside, opening, first)
    ensures SumWhere(intervals, bucket).IsSum(SumWhere(intervals, inside),
            if first then NOTHING else SumWhere(intervals, opening))
  {
    if first {
      SumAlike(intervals, bucket, inside);
    } else {
      SumSplits(intervals, bucket, inside, opening);
    }
  }

  lemma BucketIsHalfOpen(source: string, start: int, end: int, g: Granularity, offset: int, k: int, s: int, e: int)
    requires s == PeriodStart(g, k) - offset && e == PeriodStart(g, k + 1) - offset && start <= s < e <= end
    ensures HalfOpen(Bucket(source, start, end, g, offset, PeriodStart(g, k)), Inside(source, s, e),
            EndingAt(source, s), start == s)
  {
    var bucket := Bucket(source, start, end, g, offset, PeriodStart(g, k));
    forall x: Interval
      ensures start == s ==> Alike(x, bucket, Inside(source, s, e))
      ensures start < s ==> Splits(x, bucket, Inside(source, s, e), EndingAt(source, s))
    {
      TruncateIs(g, offset, x.endedAt, k);
    }
  }

  /** A report gains a row for the period after its last one exactly when some interval ends on the boundary. */
  lemma BoundarySpillsOver(intervals: seq<Interval>, g: Granularity, offset: int, source: string, start: int, k: int)
    requires start < PeriodStart(g, k) - offset
    ensures var end := PeriodStart(g, k) - offset;
            At(History(intervals, g, offset, source, start, end), PeriodStart(g, k))
              == SumWhere(intervals, EndingAt(source, end))
  {
    var end := PeriodStart(g, k) - offset;
    var bucket := Bucket(source, start, end, g, offset, PeriodStart(g, k));
    HistoryExact(intervals, g, offset, source, start, end, PeriodStart(g, k));
    PeriodStartsAscend(g, k, k + 1);
    forall x: Interval ensures Alike(x, bucket, EndingAt(source, end)) {
      TruncateIs(g, offset, x.endedAt, k);
    }
    SumAlike(intervals, bucket, EndingAt(source, end));
  }

  lemma TotalSnoc(points: seq<Point>, p: Point)
    ensures Total(points + [p]) == Total(points).Plus(p.usage)
  {
    if points == [] {
    } else {
      assert (points + [p])[1..] == points[1..] + [p];
      TotalSnoc(points[1..], p);
    }
  }

  datatype HistoryReport = HistoryReport(points: seq<Point>, total: nat, previousTotal: nat)

  /** `usageHistory`: the loop's total is the window's summary, and it meets the comparison window without a seam. */
  method UsageHistory(intervals: seq<Interval>, source: string, offset: int, granularity: string, from: int, end: int)
    returns (r: Result<HistoryReport, string>)
    requires from <= end
    ensures r.Ok? <==> granularity in {"", "hour", "day", "week", "month"}
    ensures r.Ok? ==>
              var now := Summarize(intervals, source, from, end);
              var both := Summarize(intervals, source, from - (end - from), end);
              && (granularity == "hour" ==> r.value.points == History(intervals, Hour, offset, source, from, end))
              && (granularity in {"", "day"} ==> r.value.points == History(intervals, Day, offset, source, from, end))
              && (granularity == "week" ==> r.value.points == History(intervals, Week, offset, source, from, end))
              && (granularity == "month" ==> r.value.points == History(intervals, Month, offset, source, from, end))
              && r.value.total == now.download + now.upload
              && r.value.previousTotal + r.value.total == both.download + both.upload
  {
    var g := ParseGranularity(granularity);
    if g.None? {
      return Err("unsupported usage granularity");
    }
    var points := History(intervals, g.value, offset, source, from, end);
    var total: nat := 0;
    for i := 0 to |points|
      invariant total == Total(points[..i]).download + Total(points[..i]).upload
    {
      assert points[..i + 1] == points[..i] + [points[i]];
      TotalSnoc(points[..i], points[i]);
      total := total + points[i].usage.download + points[i].usage.upload;
    }
    assert points[..|points|] == points;
    HistoryExact(intervals, g.value, offset, source, from, end, 0);
    var duration := end - from;
    var previous := Summarize(intervals, source, from - duration, from);
    AdjacentWindowsAdd(intervals, source, from - duration, from, end);
    r := Ok(HistoryReport(points, total, previous.download + previous.upload));
  }

  /** `daily`: the accumulated download and upload are those of the whole range. */
  method Daily(intervals: seq<Interval>, source: string, offset: int, from: int, end: int)
    returns (days: seq<Point>, download: nat, upload: nat)
    ensures days == History(intervals, Day, offset, source, from, end)
    ensures var all := Summarize(intervals, source, from, end); download == all.download && upload == all.upload
  {
    days := History(intervals, Day, offset, source, from, end);
    download, upload := 0, 0;
    for i := 0 to |days|
      invariant download == Total(days[..i]).download && upload == Total(days[..i]).upload
    {
      assert days[..i + 1] == days[..i] + [days[i]];
      TotalSnoc(days[..i], days[i]);
      download := download + days[i].usage.download;
      upload := upload + days[i].usage.upload;
    }
    assert days[..|days|] == days;
    HistoryExact(intervals, Day, offset, source, from, end, 0);
  }
}
