/** The dashboard's growth series (apps/system_admin/services/dashboard_services.py, lines 112-150):
    month arithmetic by adding and subtracting days, and two scaled series. */
module Growth {

  datatype Date = Date(y: int, m: int, d: int)

  predicate Leap(y: int) {
    y % 4 == 0 && (y % 100 != 0 || y % 400 == 0)
  }

  function MonthLength(y: int, m: int): int {
    if m == 2 then (if Leap(y) then 29 else 28) else if m in {4, 6, 9, 11} then 30 else 31
  }

  predicate Valid(x: Date) {
    1 <= x.m <= 12 && 1 <= x.d <= MonthLength(x.y, x.m)
  }

  // ----- days -----

  function DaysBeforeYear(y: int): int {
    (y - 1) * 365 + (y - 1) / 4 - (y - 1) / 100 + (y - 1) / 400
  }

  function DaysBeforeMonth(y: int, m: int): int
    requires 1 <= m <= 12
  {
    if m == 1 then 0 else DaysBeforeMonth(y, m - 1) + MonthLength(y, m - 1)
  }

  /** `date.toordinal()` */
  function Ordinal(x: Date): int
    requires Valid(x)
  {
    DaysBeforeYear(x.y) + DaysBeforeMonth(x.y, x.m) + x.d
  }

  function PreviousMonthEnd(x: Date): Date {
    if x.m == 1 then Date(x.y - 1, 12, 31) else Date(x.y, x.m - 1, MonthLength(x.y, x.m - 1))
  }

  function NextMonthStart(x: Date): Date {
    if x.m == 12 then Date(x.y + 1, 1, 1) else Date(x.y, x.m + 1, 1)
  }

  /** `x - timedelta(days=n)` */
  function MinusDays(x: Date, n: nat): Date
    requires Valid(x)
    decreases n
  {
    if n < x.d then x.(d := x.d - n) else MinusDays(PreviousMonthEnd(x), n - x.d)
  }

  /** `x + timedelta(days=n)` */
  function PlusDays(x: Date, n: nat): Date
    requires Valid(x)
    decreases n
  {
    var left := MonthLength(x.y, x.m) - x.d;
    if n <= left then x.(d := x.d + n) else PlusDays(NextMonthStart(x), n - left - 1)
  }

  lemma {:induction false} DaysOfMonths(y: int)
    ensures DaysBeforeMonth(y, 12) + 31 == if Leap(y) then 366 else 365
  {
    hide Leap;
    assert DaysBeforeMonth(y, 2) == 31;
    assert DaysBeforeMonth(y, 3) == 31 + MonthLength(y, 2);
    assert DaysBeforeMonth(y, 5) == DaysBeforeMonth(y, 3) + 31 + 30;
    assert DaysBeforeMonth(y, 7) == DaysBeforeMonth(y, 5) + 31 + 30;
    assert DaysBeforeMonth(y, 9) == DaysBeforeMonth(y, 7) + 31 + 31;
    assert DaysBeforeMonth(y, 11) == DaysBeforeMonth(y, 9) + 30 + 31;
  }

  lemma {:induction false} FourStep(y: int)
    ensures y / 4 == (y - 1) / 4 + if y % 4 == 0 then 1 else 0
  {
  }

  lemma {:induction false} CenturyStep(y: int)
    ensures y / 100 == (y - 1) / 100 + if y % 100 == 0 then 1 else 0
    ensures y % 100 == 0 ==> y % 4 == 0
  {
  }

  lemma {:induction false} FourCenturiesStep(y: int)
    ensures y / 400 == (y - 1) / 400 + if y % 400 == 0 then 1 else 0
    ensures y % 400 == 0 ==> y % 100 == 0
  {
  }

  lemma {:induction false} DaysInYear(y: int)
    ensures DaysBeforeMonth(y, 12) + 31 == if Leap(y) then 366 else 365
    ensures DaysBeforeYear(y + 1) == DaysBeforeYear(y) + DaysBeforeMonth(y, 12) + 31
  {
    hide DaysBeforeMonth;
    DaysOfMonths(y);
    FourStep(y);
    CenturyStep(y);
    FourCenturiesStep(y);
  }

  /** Walking the months agrees with the day count of the calendar. */
  lemma {:induction false} MinusDaysCounts(x: Date, n: nat)
    requires Valid(x)
    ensures Valid(MinusDays(x, n)) && Ordinal(MinusDays(x, n)) == Ordinal(x) - n
    decreases n
  {
    hide DaysBeforeYear;
    if n >= x.d {
      DaysInYear(x.y - 1);
      assert Ordinal(PreviousMonthEnd(x)) == Ordinal(x) - x.d;
      MinusDaysCounts(PreviousMonthEnd(x), n - x.d);
    }
  }

  lemma {:induction false} PlusDaysCounts(x: Date, n: nat)
    requires Valid(x)
    ensures Valid(PlusDays(x, n)) && Ordinal(PlusDays(x, n)) == Ordinal(x) + n
    decreases n
  {
    hide DaysBeforeYear;
    var left := MonthLength(x.y, x.m) - x.d;
    if n > left {
      DaysInYear(x.y);
      assert Ordinal(NextMonthStart(x)) == Ordinal(x) + left + 1;
      PlusDaysCounts(NextMonthStart(x), n - left - 1);
    }
  }

  lemma {:induction false} YearsAdvance(a: int, b: int)
    requires a <= b
    ensures DaysBeforeYear(a) <= DaysBeforeYear(b)
    decreases b - a
  {
    hide DaysBeforeYear;
    if a < b {
      DaysInYear(b - 1);
      YearsAdvance(a, b - 1);
    }
  }

  lemma {:induction false} MonthsAdvance(y: int, a: int, b: int)
    requires 1 <= a < b <= 12
    ensures DaysBeforeMonth(y, a) + MonthLength(y, a) <= DaysBeforeMonth(y, b)
    decreases b
  {
    if a < b - 1 {
      MonthsAdvance(y, a, b - 1);
    }
  }

  lemma {:induction false} MonthsAreNatural(y: int, m: int)
    requires 1 <= m <= 12
    ensures DaysBeforeMonth(y, m) >= 0
  {
    if m > 1 { MonthsAreNatural(y, m - 1); }
  }

  /** A later date has a greater ordinal, so the ordinal determines the date, and the two functions
      above are the only ones that count days right. */
  lemma {:induction false} OrdinalOrders(a: Date, b: Date)
    requires Valid(a) && Valid(b)
    requires a.y < b.y || (a.y == b.y && (a.m < b.m || (a.m == b.m && a.d < b.d)))
    ensures Ordinal(a) < Ordinal(b)
  {
    hide DaysBeforeYear, DaysBeforeMonth;
    if a.y < b.y {
      YearsAdvance(a.y + 1, b.y);
      DaysInYear(a.y);
      MonthsAreNatural(b.y, b.m);
      if a.m < 12 { MonthsAdvance(a.y, a.m, 12); }
    } else if a.m < b.m {
      MonthsAdvance(a.y, a.m, b.m);
    }
  }

  lemma {:induction false} OrdinalInjective(a: Date, b: Date)
    requires Valid(a) && Valid(b) && Ordinal(a) == Ordinal(b)
    ensures a == b
  {
    if a != b {
      if a.y < b.y || (a.y == b.y && (a.m < b.m || (a.m == b.m && a.d < b.d))) {
        OrdinalOrders(a, b);
      } else {
        OrdinalOrders(b, a);
      }
    }
  }

  // ----- months -----

  function MonthIndex(x: Date): int {
    x.y * 12 + x.m - 1
  }

  function FirstOf(index: int): Date {
    Date(index / 12, index % 12 + 1, 1)
  }

  /** `(now.replace(day=1) - timedelta(days=150)).replace(day=1)` */
  function StartMonth(now: Date): Date
    requires Valid(now)
  {
    MinusDays(now.(d := 1), 150).(d := 1)
  }

  /** `(cursor.replace(day=28) + timedelta(days=4)).replace(day=1)` */
  function StepMonth(cursor: Date): Date
    requires Valid(cursor)
  {
    PlusDays(cursor.(d := 28), 4).(d := 1)
  }

  lemma {:induction false} MonthIndexInverts(x: Date)
    requires Valid(x)
    ensures FirstOf(MonthIndex(x)) == x.(d := 1)
  {
  }

  /** Five month ends back from the first of a month take between 150 and 153 days; the shortest
      five, February to June of a common year, take exactly 150. */
  lemma {:induction false} MonthBack(x: Date, n: nat)
    requires Valid(x) && n >= x.d
    ensures Valid(PreviousMonthEnd(x)) && MinusDays(x, n) == MinusDays(PreviousMonthEnd(x), n - x.d)
    ensures MonthIndex(PreviousMonthEnd(x)) == MonthIndex(x) - 1 && PreviousMonthEnd(x).d >= 28
    ensures PreviousMonthEnd(x).d == MonthLength(PreviousMonthEnd(x).y, PreviousMonthEnd(x).m)
  {
  }

  lemma {:induction false} StartIsFiveMonthsBack(now: Date)
    requires Valid(now)
    ensures Valid(StartMonth(now)) && StartMonth(now) == FirstOf(MonthIndex(now) - 5)
  {
    hide PreviousMonthEnd, FirstOf;
    var x0 := now.(d := 1);
    MonthBack(x0, 150);
    var x1 := PreviousMonthEnd(x0);
    MonthBack(x1, 149);
    var x2 := PreviousMonthEnd(x1);
    MonthBack(x2, 149 - x1.d);
    var x3 := PreviousMonthEnd(x2);
    MonthBack(x3, 149 - x1.d - x2.d);
    var x4 := PreviousMonthEnd(x3);
    var n := 149 - x1.d - x2.d - x3.d;
    FourMonths(x1, x2, x3, x4);
    MonthBack(x4, n);
    var x5 := PreviousMonthEnd(x4);
    FiveMonths(x1, x2, x3, x4, x5);
    assert MinusDays(x0, 150) == x5.(d := x5.d - (n - x4.d));
    MonthIndexInverts(x5);
  }

  predicate MonthEnd(x: Date) {
    1 <= x.m <= 12 && x.d == MonthLength(x.y, x.m)
  }

  predicate Before(x: Date, y: Date) {
    MonthIndex(x) == MonthIndex(y) - 1
  }

  /** Any four months in a row have at most 123 days and any five at least 150. */
  lemma {:induction false} FourMonths(x1: Date, x2: Date, x3: Date, x4: Date)
    requires MonthEnd(x1) && MonthEnd(x2) && MonthEnd(x3) && MonthEnd(x4)
    requires Before(x2, x1) && Before(x3, x2) && Before(x4, x3)
    ensures x1.d + x2.d + x3.d + x4.d <= 123
  {
  }

  lemma {:induction false} FiveMonths(x1: Date, x2: Date, x3: Date, x4: Date, x5: Date)
    requires MonthEnd(x1) && MonthEnd(x2) && MonthEnd(x3) && MonthEnd(x4) && MonthEnd(x5)
    requires Before(x2, x1) && Before(x3, x2) && Before(x4, x3) && Before(x5, x4)
    ensures x1.d + x2.d + x3.d + x4.d + x5.d >= 150
  {
  }

  lemma {:induction false} StepIsNextMonth(cursor: Date)
    requires Valid(cursor)
    ensures Valid(StepMonth(cursor)) && StepMonth(cursor) == FirstOf(MonthIndex(cursor) + 1)
  {
    var x := cursor.(d := 28);
    var left := MonthLength(x.y, x.m) - 28;
    assert PlusDays(x, 4) == PlusDays(NextMonthStart(x), 4 - left - 1);
  }

  // ----- scaled values -----

  /** `round(100 * n / d)` with ties to even. */
  function Percent(n: nat, d: nat): nat
    requires d > 0
  {
    var q, r := 100 * n / d, 100 * n % d;
    if 2 * r < d || (2 * r == d && q % 2 == 0) then q else q + 1
  }

  /** `max(8, round(100 * n / d))` */
  function Bar(n: nat, d: nat): nat
    requires d > 0
  {
    if Percent(n, d) < 8 then 8 else Percent(n, d)
  }

  lemma {:induction false} QuotientMonotone(a: nat, b: nat, d: nat)
    requires a <= b && d > 0
    ensures a / d <= b / d
    ensures a / d == b / d ==> a % d <= b % d
  {
    var p, q := a / d, b / d;
    assert a == d * p + a % d && b == d * q + b % d;
    if q < p {
      assert d * q + d <= d * p by { ProductStep(d, q, p); }
    }
  }

  lemma {:induction false} ProductStep(d: nat, q: nat, p: nat)
    requires q < p
    ensures d * q + d <= d * p
    decreases p
  {
    if q + 1 < p {
      ProductStep(d, q, p - 1);
      assert d * p == d * (p - 1) + d;
    }
  }

  lemma {:induction false} PercentMonotone(a: nat, b: nat, d: nat)
    requires a <= b && d > 0
    ensures Percent(a, d) <= Percent(b, d)
  {
    QuotientMonotone(100 * a, 100 * b, d);
  }

  lemma {:induction false} PercentWhole(d: nat)
    requires d > 0
    ensures Percent(d, d) == 100
  {
    var q, r := 100 * d / d, 100 * d % d;
    assert 100 * d == d * q + r;
    if q < 100 { ProductStep(d, q, 100); }
    if q > 100 { ProductStep(d, 100, q); }
  }

  /** A bar of a part of its whole is between 8 and 100, grows with the part, and is full for the whole. */
  lemma {:induction false} BarRange(a: nat, b: nat, d: nat)
    requires a <= b <= d && d > 0
    ensures 8 <= Bar(a, d) <= Bar(b, d) <= 100 && Bar(d, d) == 100
  {
    PercentMonotone(a, b, d);
    PercentMonotone(b, d, d);
    PercentWhole(d);
  }

  datatype Point = Point(month: Date, monthly: nat, yearly: nat, highlight: bool)

  /** A bar above 8 is the whole percentage nearest to its part, the even one of two; a bar of 8 stands for
      every part up to 8.5 percent. */
  lemma {:induction false} BarIsNearest(n: nat, d: nat)
    requires d > 0
    ensures var p := Bar(n, d);
      && (p > 8 ==> 200 * n <= 2 * (d * p) + d && 2 * (d * p) <= 200 * n + d)
      && (p > 8 && (200 * n == 2 * (d * p) + d || 2 * (d * p) == 200 * n + d) ==> p % 2 == 0)
      && (p == 8 <==> 200 * n <= 17 * d)
  {
    var q, r := 100 * n / d, 100 * n % d;
    assert 100 * n == d * q + r;
    assert d * (q + 1) == d * q + d;
    if q < 8 { ProductStep(d, q, 8); }
    if q > 8 { ProductStep(d, 8, q); }
  }


  function CountIn(counts: map<Date, nat>, month: Date): nat {
    if month in counts then counts[month] else 0
  }

  /** The count of the `k`-th of the six months ending with the current one. */
  function MonthCount(now: Date, counts: map<Date, nat>, k: int): nat {
    CountIn(counts, FirstOf(MonthIndex(now) - 5 + k))
  }

  /** Events created in the first `k` of those months, and the largest count among them. */
  function Total(now: Date, counts: map<Date, nat>, k: nat): nat {
    if k == 0 then 0 else Total(now, counts, k - 1) + MonthCount(now, counts, k - 1)
  }

  function Peak(now: Date, counts: map<Date, nat>, k: nat): nat {
    if k == 0 then 0 else Max(Peak(now, counts, k - 1), MonthCount(now, counts, k - 1))
  }

  function Max(a: nat, b: nat): nat {
    if a >= b then a else b
  }

  function OrOne(n: nat): nat {
    if n == 0 then 1 else n
  }

  /** `max(xs)` */
  function Largest(xs: seq<nat>): nat
    requires xs != []
  {
    if |xs| == 1 then xs[0] else Max(Largest(xs[..|xs| - 1]), xs[|xs| - 1])
  }

  lemma {:induction false} PeakCovers(now: Date, counts: map<Date, nat>, j: nat, k: nat)
    requires j < k
    ensures MonthCount(now, counts, j) <= Peak(now, counts, k)
    decreases k
  {
    if j < k - 1 { PeakCovers(now, counts, j, k - 1); }
  }

  lemma {:induction false} IndexOfFirst(i: int)
    ensures Valid(FirstOf(i)) && MonthIndex(FirstOf(i)) == i
  {
  }

  lemma {:induction false} BarOfNone(d: nat)
    requires d > 0
    ensures Bar(0, d) == 8
  {
  }

  /** The loop over six months, stepping a cursor from the start month. */
  method CollectMonths(now: Date, counts: map<Date, nat>) returns (months: seq<Date>, values: seq<nat>)
    requires Valid(now)
    ensures |values| == |months| == 6 && Largest(values) == Peak(now, counts, 6)
    ensures forall k | 0 <= k < 6 :: months[k] == FirstOf(MonthIndex(now) - 5 + k) && values[k] == MonthCount(now, counts, k)
  {
    hide StartMonth, StepMonth, FirstOf, MonthIndex, Leap;
    StartIsFiveMonthsBack(now);
    var cursor := StartMonth(now);
    months, values := [], [];
    for i := 0 to 6
      invariant |values| == |months| == i
      invariant Valid(cursor) && cursor == FirstOf(MonthIndex(now) - 5 + i)
      invariant forall k | 0 <= k < i :: months[k] == FirstOf(MonthIndex(now) - 5 + k) && values[k] == MonthCount(now, counts, k)
      invariant i > 0 ==> Largest(values) == Peak(now, counts, i)
    {
      assert (values + [CountIn(counts, cursor)])[..i] == values;
      values := values + [CountIn(counts, cursor)];
      months := months + [cursor];
      StepIsNextMonth(cursor);
      IndexOfFirst(MonthIndex(now) - 5 + i);
      cursor := StepMonth(cursor);
    }
  }

  /** The running totals, which never shrink, so the last is the largest. */
  method Accumulate(now: Date, counts: map<Date, nat>, values: seq<nat>) returns (running: seq<nat>)
    requires |values| == 6 && forall k | 0 <= k < 6 :: values[k] == MonthCount(now, counts, k)
    ensures |running| == 6 && Largest(running) == running[5] == Total(now, counts, 6)
    ensures forall k | 0 <= k < 6 :: running[k] == Total(now, counts, k + 1)
    ensures forall j, k | 0 <= j <= k < 6 :: running[j] <= running[k]
  {
    hide MonthCount;
    var cumulative := 0;
    running := [];
    for i := 0 to 6
      invariant |running| == i && cumulative == Total(now, counts, i)
      invariant forall k | 0 <= k < i :: running[k] == Total(now, counts, k + 1) && running[k] <= cumulative
      invariant forall j, k | 0 <= j <= k < i :: running[j] <= running[k]
      invariant i > 0 ==> Largest(running) == cumulative == running[i - 1]
    {
      cumulative := cumulative + values[i];
      assert (running + [cumulative])[..i] == running;
      running := running + [cumulative];
    }
  }

  /** The six consecutive months ending at the current one, with a bar of each month's count against
      the largest, and a bar of the running total against the total, which never shrinks. */
  method BuildGrowthSeries(now: Date, counts: map<Date, nat>) returns (points: seq<Point>)
    requires Valid(now)
    ensures |points| == 6
    ensures forall k | 0 <= k < 6 ::
              && points[k].month == FirstOf(MonthIndex(now) - 5 + k) && points[k].highlight == (k == 5)
              && points[k].monthly == Bar(MonthCount(now, counts, k), OrOne(Peak(now, counts, 6)))
              && points[k].yearly == Bar(Total(now, counts, k + 1), OrOne(Total(now, counts, 6)))
    ensures points[5].month == now.(d := 1)
    ensures forall k | 0 <= k < 6 :: 8 <= points[k].monthly <= 100 && 8 <= points[k].yearly <= 100
    ensures forall j, k | 0 <= j <= k < 6 :: points[j].yearly <= points[k].yearly
  {
    hide Bar, MonthCount, Total, Peak, Largest, FirstOf, MonthIndex;
    var months, values := CollectMonths(now, counts);
    var maxValue := OrOne(Largest(values));
    var running := Accumulate(now, counts, values);
    var maxCumulative := OrOne(Largest(running));
    forall k | 0 <= k < 6 ensures 8 <= Bar(values[k], maxValue) <= 100 {
      PeakCovers(now, counts, k, 6);
      BarRange(values[k], values[k], maxValue);
    }
    forall j, k | 0 <= j <= k < 6 ensures 8 <= Bar(running[j], maxCumulative) <= Bar(running[k], maxCumulative) <= 100 {
      BarRange(running[j], running[k], maxCumulative);
    }
    points := [];
    for i := 0 to 6
      invariant |points| == i
      invariant forall k | 0 <= k < i :: points[k] == Point(months[k], Bar(values[k], maxValue), Bar(running[k], maxCumulative), k == 5)
    {
      BarOfNone(maxValue);
      points := points + [Point(months[i], if values[i] != 0 then Bar(values[i], maxValue) else 8,
                                Bar(running[i], maxCumulative), i == 5)];
    }
    MonthIndexInverts(now);
  }
}
