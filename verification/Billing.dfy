/** The data-plan cycle, budget and projection (api/internal/httpapi/plan_handlers.go). */
module Billing {
  import opened Prelude
  import opened Calendar
  import opened Ledger
  import opened Usage

  /** Instants are UTC; the zone is a fixed `offset` ahead of it. */
  function CycleStart(billingDay: int, offset: int, now: int): int {
    var local := now + offset;
    var start := Date(MonthOf(local / DAY), billingDay);
    (if local < start * DAY then AddMonths(start, -1) else start) * DAY - offset
  }

  function CycleEnd(billingDay: int, offset: int, now: int): int {
    AddMonths((CycleStart(billingDay, offset, now) + offset) / DAY, 1) * DAY - offset
  }

  /** For days that every month has, the cycle is a pair of consecutive billing dates around the instant. */
  lemma CycleIsBetweenBillingDates(billingDay: int, offset: int, now: int) returns (m: int)
    requires 1 <= billingDay <= 28
    ensures CycleStart(billingDay, offset, now) == Date(m, billingDay) * DAY - offset
    ensures CycleEnd(billingDay, offset, now) == Date(m + 1, billingDay) * DAY - offset
    ensures Date(m, billingDay) * DAY <= now + offset < Date(m + 1, billingDay) * DAY
  {
    var local := now + offset;
    var day := local / DAY;
    var k := MonthOf(day);
    m := if day < Date(k, billingDay) then k - 1 else k;
    BillingDatesAround(billingDay, day, m);
    DayCovers(local, Date(m, billingDay), Date(m + 1, billingDay));
    StartDate(billingDay, offset, now, m);
    EndDate(billingDay, offset, now, m);
  }

  lemma BillingDatesAround(billingDay: int, day: int, m: int)
    requires 1 <= billingDay <= 28
    requires m == (var k := MonthOf(day); if day < Date(k, billingDay) then k - 1 else k)
    ensures Date(m, billingDay) <= day < Date(m + 1, billingDay)
  {
    var k := MonthOf(day);
    MonthLength(k - 1);
    MonthLength(k);
  }

  lemma StartDate(billingDay: int, offset: int, now: int, m: int)
    requires 1 <= billingDay <= 28
    requires m == (var day := (now + offset) / DAY; var k := MonthOf(day);
             if day < Date(k, billingDay) then k - 1 else k)
    ensures CycleStart(billingDay, offset, now) == Date(m, billingDay) * DAY - offset
  {
    AddMonthsOf(MonthOf((now + offset) / DAY), billingDay, -1);
  }

  lemma EndDate(billingDay: int, offset: int, now: int, m: int)
    requires 1 <= billingDay <= 28
    requires CycleStart(billingDay, offset, now) == Date(m, billingDay) * DAY - offset
    ensures CycleEnd(billingDay, offset, now) == Date(m + 1, billingDay) * DAY - offset
  {
    AddMonthsOf(m, billingDay, 1);
    assert (Date(m, billingDay) * DAY) / DAY == Date(m, billingDay);
  }

  lemma DayCovers(local: int, a: int, b: int)
    requires a <= local / DAY < b
    ensures a * DAY <= local < b * DAY
  {}

  /** An instant determines its billing dates. */
  lemma BillingDatesDetermine(billingDay: int, local: int, j: int, k: int)
    requires Date(j, billingDay) * DAY <= local < Date(j + 1, billingDay) * DAY
    requires Date(k, billingDay) * DAY <= local < Date(k + 1, billingDay) * DAY
    ensures j == k
  {
    if j + 1 < k { MonthsAscend(j + 1, k); }
    if k + 1 < j { MonthsAscend(k + 1, j); }
  }

  predicate InCycle(billingDay: int, offset: int, now: int, at: int) {
    CycleStart(billingDay, offset, now) <= at < CycleEnd(billingDay, offset, now)
  }

  predicate SameCycle(billingDay: int, offset: int, a: int, b: int) {
    CycleStart(billingDay, offset, a) == CycleStart(billingDay, offset, b)
      && CycleEnd(billingDay, offset, a) == CycleEnd(billingDay, offset, b)
  }

  /**
   Cycles tile time: each instant is in its own cycle, shares it with all its instants, and the
   next begins where it ends.
   */
  ghost predicate CyclesTile(billingDay: int, offset: int) {
    && (forall now :: InCycle(billingDay, offset, now, now))
    && (forall a, b | InCycle(billingDay, offset, a, b) :: SameCycle(billingDay, offset, a, b))
    && (forall now ::
       CycleStart(billingDay, offset, CycleEnd(billingDay, offset, now)) == CycleEnd(billingDay, offset, now))
  }

  lemma SharedCycle(billingDay: int, offset: int, a: int, b: int)
    requires 1 <= billingDay <= 28
    requires InCycle(billingDay, offset, a, b)
    ensures SameCycle(billingDay, offset, a, b)
  {
    var j := CycleIsBetweenBillingDates(billingDay, offset, a);
    var k := CycleIsBetweenBillingDates(billingDay, offset, b);
    BillingDatesDetermine(billingDay, b + offset, j, k);
  }

  lemma NextCycleFollows(billingDay: int, offset: int, now: int)
    requires 1 <= billingDay <= 28
    ensures InCycle(billingDay, offset, now, now)
    ensures CycleStart(billingDay, offset, CycleEnd(billingDay, offset, now)) == CycleEnd(billingDay, offset, now)
  {
    var j := CycleIsBetweenBillingDates(billingDay, offset, now);
    var end := CycleEnd(billingDay, offset, now);
    var k := CycleIsBetweenBillingDates(billingDay, offset, end);
    MonthsAscend(j + 1, j + 2);
    BillingDatesDetermine(billingDay, end + offset, j + 1, k);
  }

  lemma FirstMonths()
    ensures MonthStart(1) == 31 && MonthStart(2) == 59 && MonthStart(3) == 90 && MonthStart(4) == 120
  {
    MonthLength(0);
    MonthLength(1);
    MonthLength(2);
    MonthLength(3);
  }

  /** With a billing day some month lacks, a February cycle runs into the March one. */
  lemma {:induction false} LateBillingDaysOverlap(billingDay: int, offset: int)
    requires 29 <= billingDay <= 31
    ensures var a, b := (30 + billingDay) * DAY - offset, (58 + billingDay) * DAY - offset;
            InCycle(billingDay, offset, a, b) && !SameCycle(billingDay, offset, a, b)
  {
    FirstMonths();
    var a, b := 30 + billingDay, 58 + billingDay;
    MonthOfIs(a, 2);
    MonthOfIs(b, 2);
    assert (a * DAY) / DAY == a && (b * DAY) / DAY == b;
    assert CycleStart(billingDay, offset, a * DAY - offset) == a * DAY - offset;
    assert CycleStart(billingDay, offset, b * DAY - offset) == b * DAY - offset;
    assert AddMonths(a, 1) == 61 + billingDay;
  }

  /** The accepted range 1 to 28 is exactly the range for which cycles tile. */
  lemma {:induction false} CyclesTileIff(billingDay: int, offset: int)
    requires 1 <= billingDay <= 31
    ensures CyclesTile(billingDay, offset) <==> billingDay <= 28
  {
    if billingDay <= 28 {
      forall now
        ensures InCycle(billingDay, offset, now, now)
        ensures CycleStart(billingDay, offset, CycleEnd(billingDay, offset, now)) == CycleEnd(billingDay, offset, now)
      {
        NextCycleFollows(billingDay, offset, now);
      }
      forall a, b | InCycle(billingDay, offset, a, b) ensures SameCycle(billingDay, offset, a, b) {
        SharedCycle(billingDay, offset, a, b);
      }
    } else {
      LateBillingDaysOverlap(billingDay, offset);
    }
  }

  datatype Plan = Plan(allowance: nat, billingDay: int)

  datatype PlanUsage = PlanUsage(start: int, end: int, used: nat, remaining: nat, remainingDays: int, dailyBudget: int,
                                 projected: int, exhaustion: Option<int>)

  /** `planUsage`, with the projection in exact arithmetic. */
  function Report(plan: Plan, offset: int, now: int, intervals: seq<Interval>, source: string): PlanUsage
    requires 1 <= plan.billingDay <= 28
  {
    var start := CycleStart(plan.billingDay, offset, now);
    var end := CycleEnd(plan.billingDay, offset, now);
    NextCycleFollows(plan.billingDay, offset, now);
    var summary := Summarize(intervals, source, start, end);
    var used := summary.download + summary.upload;
    var remaining := if plan.allowance - used > 0 then plan.allowance - used else 0;
    var days := if (end - now) / DAY + 1 > 1 then (end - now) / DAY + 1 else 1;
    var projected := if now > start then used * (end - start) / (now - start) else 0;
    PlanUsage(start, end, used, remaining, days,
              if plan.allowance > 0 then remaining / days else 0,
              projected,
              if now > start && plan.allowance > 0 && projected > plan.allowance
              then Some(start + (end - start) * plan.allowance / projected) else None)
  }

  lemma Scale(a: int, b: int, c: int)
    requires 0 <= a && b <= c
    ensures a * b <= a * c
  {}

  lemma ScaleStrictly(a: int, b: int, c: int)
    requires 0 < a && b < c
    ensures a * b < a * c
  {}

  lemma QuotientAtLeast(n: int, d: int, q: int)
    requires d > 0 && q * d <= n
    ensures q <= n / d
  {
    if n / d < q { Scale(d, n / d + 1, q); }
  }

  lemma QuotientBelow(n: int, d: int, q: int)
    requires d > 0 && n < q * d
    ensures n / d < q
  {
    if q <= n / d { Scale(d, q, n / d); }
  }

  lemma ProjectionCovers(used: nat, elapsed: int, length: int, projected: int)
    requires 0 < elapsed <= length && projected == used * length / elapsed
    ensures used <= projected && projected * elapsed <= used * length < (projected + 1) * elapsed
  {
    Scale(used, elapsed, length);
    QuotientAtLeast(used * length, elapsed, used);
    Floor(used * length, elapsed);
  }

  lemma ExhaustionInside(allowance: nat, projected: int, length: int, after: int)
    requires 0 < allowance < projected && 0 < length && after == length * allowance / projected
    ensures 0 <= after < length && after * projected <= allowance * length < (after + 1) * projected
  {
    Floor(length * allowance, projected);
    Scale(length, 0, allowance);
    ScaleStrictly(length, allowance, projected);
    QuotientAtLeast(length * allowance, projected, 0);
    QuotientBelow(length * allowance, projected, length);
  }

  lemma Floor(n: int, d: int)
    requires d > 0
    ensures n / d * d <= n < (n / d + 1) * d
  {}

  /** The share of the cycle gone by, the usage and its projection, rounded down. */
  predicate Projects(r: PlanUsage, now: int) {
    r.used <= r.projected
      && r.projected * (now - r.start) <= r.used * (r.end - r.start) < (r.projected + 1) * (now - r.start)
  }

  /** Usage at the projected rate reaches the allowance at the instant, which falls inside the cycle. */
  predicate Exhausts(r: PlanUsage, allowance: int, at: int) {
    r.start <= at < r.end
      && (at - r.start) * r.projected <= allowance * (r.end - r.start) < (at - r.start + 1) * r.projected
  }

  /** The budget is the most that can be spent on each remaining day. */
  predicate Budgets(r: PlanUsage) {
    r.dailyBudget * r.remainingDays <= r.remaining < (r.dailyBudget + 1) * r.remainingDays
  }

  lemma {:induction false} ProjectionSound(plan: Plan, offset: int, now: int, intervals: seq<Interval>, source: string)
    requires 1 <= plan.billingDay <= 28 && CycleStart(plan.billingDay, offset, now) < now
    ensures Projects(Report(plan, offset, now, intervals, source), now)
  {
    var r := Report(plan, offset, now, intervals, source);
    NextCycleFollows(plan.billingDay, offset, now);
    ProjectionCovers(r.used, now - r.start, r.end - r.start, r.projected);
  }

  lemma {:induction false} ExhaustionSound(plan: Plan, offset: int, now: int, intervals: seq<Interval>, source: string)
    requires 1 <= plan.billingDay <= 28
    ensures var r := Report(plan, offset, now, intervals, source);
            && (r.exhaustion.Some? <==> now > r.start && 0 < plan.allowance < r.projected)
            && (r.exhaustion.Some? ==> Exhausts(r, plan.allowance, r.exhaustion.value))
  {
    var r := Report(plan, offset, now, intervals, source);
    NextCycleFollows(plan.billingDay, offset, now);
    if now > r.start && 0 < plan.allowance < r.projected {
      ExhaustionInside(plan.allowance, r.projected, r.end - r.start, r.exhaustion.value - r.start);
    }
  }

  lemma {:induction false} BudgetSound(plan: Plan, offset: int, now: int, intervals: seq<Interval>, source: string)
    requires 1 <= plan.billingDay <= 28
    ensures var r := Report(plan, offset, now, intervals, source);
            && r.start <= now < r.end
            && (r.remainingDays - 1) * DAY <= r.end - now < r.remainingDays * DAY
            && (if plan.allowance > 0 then Budgets(r) else r.dailyBudget == 0)
            && (r.used <= plan.allowance ==> r.used + r.remaining == plan.allowance)
            && (r.used > plan.allowance ==> r.remaining == 0)
  {
    var r := Report(plan, offset, now, intervals, source);
    NextCycleFollows(plan.billingDay, offset, now);
    Floor(r.remaining, r.remainingDays);
  }

  /**
   The projection carries the usage on at its present rate and is never below it,
   a projected exhaustion is the instant inside the cycle at which that rate uses
   up the allowance, and the daily budget spreads what remains over the days still
   to come, the current one included.
   */
  lemma {:induction false} ReportSound(plan: Plan, offset: int, now: int, intervals: seq<Interval>, source: string)
    requires 1 <= plan.billingDay <= 28
    ensures var r := Report(plan, offset, now, intervals, source);
            && (now > r.start ==> Projects(r, now))
            && (now == r.start ==> r.projected == 0)
            && (r.exhaustion.Some? <==> now > r.start && 0 < plan.allowance < r.projected)
            && (r.exhaustion.Some? ==> Exhausts(r, plan.allowance, r.exhaustion.value))
            && (if plan.allowance > 0 then Budgets(r) else r.dailyBudget == 0)
            && (r.remainingDays - 1) * DAY <= r.end - now < r.remainingDays * DAY
  {
    if now > CycleStart(plan.billingDay, offset, now) {
      ProjectionSound(plan, offset, now, intervals, source);
    }
    ExhaustionSound(plan, offset, now, intervals, source);
    BudgetSound(plan, offset, now, intervals, source);
  }

  /** Consecutive cycles bill every interval exactly once. */
  lemma {:induction false} CyclesBillOnce(plan: Plan, offset: int, now: int, intervals: seq<Interval>, source: string)
    requires 1 <= plan.billingDay <= 28
    ensures var current := Report(plan, offset, now, intervals, source);
            var next := Report(plan, offset, current.end, intervals, source);
            var both := Summarize(intervals, source, current.start, next.end);
            current.used + next.used == both.download + both.upload
  {
    NextCycleFollows(plan.billingDay, offset, now);
    var end := CycleEnd(plan.billingDay, offset, now);
    NextCycleFollows(plan.billingDay, offset, end);
    AdjacentWindowsAdd(intervals, source, CycleStart(plan.billingDay, offset, now), end,
      CycleEnd(plan.billingDay, offset, end));
  }
}
