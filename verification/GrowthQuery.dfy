/** The query behind the dashboard's growth series (apps/system_admin/services/dashboard_services.py, lines
    113-122). Its window starts in UTC, on the first of the month five back and at the present time of day;
    its rows are grouped by month in the site's time zone, `offset` ahead of UTC (core/settings.py, line
    128: seven hours). */
module GrowthQuery {
  import opened Growth

  /** Microseconds in a day. */
  const DAY := 86_400_000_000

  /** A moment in UTC: the date and the microseconds of the day. */
  datatype Moment = Moment(day: Date, time: nat)

  predicate ValidMoment(m: Moment) {
    Valid(m.day) && m.time < DAY
  }

  predicate Earlier(a: Moment, b: Moment)
    requires Valid(a.day) && Valid(b.day)
  {
    Ordinal(a.day) < Ordinal(b.day) || (a.day == b.day && a.time < b.time)
  }

  function LocalDay(m: Moment, offset: nat): Date
    requires Valid(m.day)
  {
    if m.time + offset >= DAY then PlusDays(m.day, 1) else m.day
  }

  /** The first of the month in the site's time zone. */
  function LocalMonth(m: Moment, offset: nat): Date
    requires Valid(m.day)
  {
    LocalDay(m, offset).(d := 1)
  }

  predicate AllValid(events: seq<Moment>) {
    forall i | 0 <= i < |events| :: ValidMoment(events[i])
  }

  /** How many events were created in a month. */
  function InMonth(events: seq<Moment>, offset: nat, month: Date): nat
    requires AllValid(events)
  {
    if events == [] then 0
    else InMonth(events[..|events| - 1], offset, month)
         + if LocalMonth(events[|events| - 1], offset) == month then 1 else 0
  }

  /** How many of them the window leaves out. */
  function Dropped(events: seq<Moment>, start: Moment, offset: nat, month: Date): nat
    requires AllValid(events) && Valid(start.day)
  {
    if events == [] then 0
    else
      var last := events[|events| - 1];
      Dropped(events[..|events| - 1], start, offset, month)
      + if LocalMonth(last, offset) == month && Earlier(last, start) then 1 else 0
  }

  /** The rows: a count for each month that has an event in the window. */
  function Counts(events: seq<Moment>, start: Moment, offset: nat): map<Date, nat>
    requires AllValid(events) && Valid(start.day)
  {
    if events == [] then map[]
    else
      var before := Counts(events[..|events| - 1], start, offset);
      var last := events[|events| - 1];
      var month := LocalMonth(last, offset);
      if Earlier(last, start) then before else before[month := CountIn(before, month) + 1]
  }

  lemma {:induction false} CountsAre(events: seq<Moment>, start: Moment, offset: nat, month: Date)
    requires AllValid(events) && Valid(start.day)
    ensures CountIn(Counts(events, start, offset), month) + Dropped(events, start, offset, month)
            == InMonth(events, offset, month)
  {
    hide LocalMonth, Earlier;
    if events != [] {
      CountsAre(events[..|events| - 1], start, offset, month);
    }
  }

  /** An event is dropped from a month exactly when there is one of that month before the start. */
  lemma {:induction false} DroppedIff(events: seq<Moment>, start: Moment, offset: nat, month: Date)
    requires AllValid(events) && Valid(start.day)
    ensures Dropped(events, start, offset, month) > 0
            <==> exists i :: 0 <= i < |events| && LocalMonth(events[i], offset) == month && Earlier(events[i], start)
  {
    hide LocalMonth, Earlier;
    if events != [] {
      var n := |events| - 1;
      var before := events[..n];
      DroppedIff(before, start, offset, month);
      if i :| 0 <= i < n && LocalMonth(before[i], offset) == month && Earlier(before[i], start) {
        assert LocalMonth(events[i], offset) == month && Earlier(events[i], start);
      }
      assert forall i | 0 <= i < n :: before[i] == events[i];
    }
  }

  // ----- the window against the months -----

  /** `timezone.now()` with the day set to the first of the month five back. */
  function Start(now: Moment): Moment
    requires Valid(now.day)
  {
    Moment(StartMonth(now.day), now.time)
  }

  /** The local day is the UTC day or the next one. */
  lemma {:induction false} LocalDayIs(m: Moment, offset: nat)
    requires Valid(m.day)
    ensures Valid(LocalDay(m, offset))
    ensures var i := MonthIndex(LocalDay(m, offset));
      i == MonthIndex(m.day) || (i == MonthIndex(m.day) + 1 && m.day.d >= 28)
  {
    if m.day.d == MonthLength(m.day.y, m.day.m) {
      assert PlusDays(m.day, 1) == PlusDays(NextMonthStart(m.day), 0);
    }
  }

  lemma {:induction false} LaterMonth(a: Date, b: Date)
    requires Valid(a) && Valid(b)
    requires MonthIndex(a) < MonthIndex(b) || (MonthIndex(a) == MonthIndex(b) && a.d < b.d)
    ensures Ordinal(a) < Ordinal(b)
  {
    OrdinalOrders(a, b);
  }

  lemma {:induction false} SameMonth(x: Date, i: int)
    requires Valid(x) && x.(d := 1) == FirstOf(i)
    ensures MonthIndex(x) == i
  {
    IndexOfFirst(i);
  }

  /** The events of the later months all lie in the window; of the first month exactly those are dropped that
      were created on its first day before the present time of day, or, by the site's clock only, on that
      day when in UTC it had not begun. */
  lemma {:induction false} BeforeStart(e: Moment, now: Moment, offset: nat, k: nat)
    requires ValidMoment(e) && ValidMoment(now) && LocalMonth(e, offset) == FirstOf(MonthIndex(now.day) - 5 + k)
    ensures Valid(Start(now).day)
    ensures var first := FirstOf(MonthIndex(now.day) - 5);
      Earlier(e, Start(now)) <==> k == 0 && (MonthIndex(e.day) < MonthIndex(first) || (e.day == first && e.time < now.time))
  {
    hide Ordinal, StartMonth, LocalDay, MonthIndex, FirstOf;
    var first := FirstOf(MonthIndex(now.day) - 5);
    StartIsFiveMonthsBack(now.day);
    IndexOfFirst(MonthIndex(now.day) - 5);
    LocalDayIs(e, offset);
    SameMonth(LocalDay(e, offset), MonthIndex(now.day) - 5 + k);
    FirstIsFirst(MonthIndex(now.day) - 5);
    if MonthIndex(e.day) < MonthIndex(first) {
      LaterMonth(e.day, first);
    } else if MonthIndex(e.day) > MonthIndex(first) || e.day.d > 1 {
      LaterMonth(first, e.day);
    } else {
      SameDay(e.day, first);
    }
  }

  lemma {:induction false} FirstIsFirst(i: int)
    ensures FirstOf(i).d == 1
  {
  }

  lemma {:induction false} SameDay(a: Date, b: Date)
    requires Valid(a) && Valid(b) && MonthIndex(a) == MonthIndex(b) && a.d == b.d
    ensures a == b
  {
  }

  /** The count behind each bar. Those of the last five months are complete. The first is short by the dropped
      events, that is exactly when some event of that month was created before the start. */
  lemma {:induction false} MonthCountsAre(events: seq<Moment>, now: Moment, offset: nat, k: nat)
    requires AllValid(events) && ValidMoment(now) && k < 6
    ensures Valid(Start(now).day)
    ensures var month := FirstOf(MonthIndex(now.day) - 5 + k);
      var n := MonthCount(now.day, Counts(events, Start(now), offset), k);
      && (k > 0 ==> n == InMonth(events, offset, month))
      && (k == 0 ==> n + Dropped(events, Start(now), offset, month) == InMonth(events, offset, month))
      && (n < InMonth(events, offset, month)
          <==> exists i :: 0 <= i < |events| && LocalMonth(events[i], offset) == month && Earlier(events[i], Start(now)))
  {
    hide LocalMonth, Earlier, StartMonth, FirstOf, MonthIndex, Counts, Dropped, InMonth;
    StartIsFiveMonthsBack(now.day);
    var month := FirstOf(MonthIndex(now.day) - 5 + k);
    CountsAre(events, Start(now), offset, month);
    DroppedIff(events, Start(now), offset, month);
    if k > 0 {
      forall i | 0 <= i < |events| && LocalMonth(events[i], offset) == month ensures !Earlier(events[i], Start(now)) {
        BeforeStart(events[i], now, offset, k);
      }
    }
  }

  /** The last bar is the present month of the site's clock, except in the hours when that clock is already in
      the next month. */
  lemma {:induction false} LastBarIsPresentIff(now: Moment, offset: nat)
    requires ValidMoment(now)
    ensures LocalMonth(now, offset) == FirstOf(MonthIndex(now.day))
            <==> !(now.day.d == MonthLength(now.day.y, now.day.m) && now.time + offset >= DAY)
  {
    if now.day.d == MonthLength(now.day.y, now.day.m) {
      assert PlusDays(now.day, 1) == PlusDays(NextMonthStart(now.day), 0);
    }
  }
}
