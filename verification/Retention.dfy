/** Which snapshots `trim_snapshots` keeps, as a function of their dates. */
module Retention {
  import opened Calendar

  // Instants are seconds since the epoch.
  const DAY: nat := 86400
  const ONE_WEEK: nat := 7 * DAY + 60 * 60

  function Midnight(now: nat): nat {
    now / DAY * DAY
  }

  function DayOfMonth(t: nat): int {
    DateOf(t / DAY).day
  }

  function Month(t: nat): int {
    DateOf(t / DAY).month
  }

  predicate Sorted(dates: seq<nat>) {
    forall i, j :: 0 <= i < j < |dates| ==> dates[i] <= dates[j]
  }

  predicate Increasing(dates: seq<nat>) {
    forall i, j :: 0 <= i < j < |dates| ==> dates[i] < dates[j]
  }

  predicate In(date: nat, lo: int, hi: int) {
    lo <= date <= hi
  }

  predicate InPreviousWeek(date: nat, now: nat) {
    In(date, Midnight(now) - ONE_WEEK, Midnight(now))
  }

  /** The index of the first date of the previous week, or the length. */
  function FirstOfWeek(dates: seq<nat>, now: nat): (p: nat)
    ensures p <= |dates|
    ensures p < |dates| ==> InPreviousWeek(dates[p], now)
    ensures forall j :: 0 <= j < p ==> !InPreviousWeek(dates[j], now)
  {
    if dates == [] then 0 else if InPreviousWeek(dates[0], now) then 0 else 1 + FirstOfWeek(dates[1..], now)
  }

  /** The date moved back to Monday, at the same time of day. */
  function WeekBoundary(date: nat): int {
    date - Weekday(date / DAY) * DAY
  }

  /** In a window of a sorted list, and not the first there. */
  predicate NotFirst(dates: seq<nat>, i: nat, lo: int, hi: int)
    requires i < |dates|
  {
    i > 0 && In(dates[i], lo, hi) && In(dates[i - 1], lo, hi)
  }

  predicate RepeatsDay(dates: seq<nat>, i: nat, lo: int, hi: int)
    requires i < |dates|
  {
    NotFirst(dates, i, lo, hi) && DayOfMonth(dates[i - 1]) == DayOfMonth(dates[i])
  }

  predicate RepeatsMonth(dates: seq<nat>, i: nat, hi: int)
    requires i < |dates|
  {
    i > 0 && dates[i] <= hi && dates[i - 1] <= hi && Month(dates[i - 1]) == Month(dates[i])
  }

  /** The upper edge of the `w`-th weekly window before `boundary`. */
  function Edge(boundary: int, w: int): int {
    boundary - w * ONE_WEEK
  }

  /** Not cleared by the partial week or the first `weeks` weekly windows. */
  predicate KeptInWeeks(dates: seq<nat>, i: nat, oldest: nat, weeks: nat)
    requires i < |dates|
  {
    var boundary := WeekBoundary(oldest);
    && !NotFirst(dates, i, boundary, oldest)
    && forall w :: 0 <= w < weeks ==> !NotFirst(dates, i, Edge(boundary, w + 1), Edge(boundary, w))
  }

  /** Whether the `i`-th of the snapshots between the oldest and the newest is kept. */
  predicate Kept(dates: seq<nat>, i: nat, now: nat)
    requires i < |dates|
  {
    var p := FirstOfWeek(dates, now);
    p < |dates| ==>
      && !RepeatsDay(dates, i, Midnight(now) - ONE_WEEK, Midnight(now))
      && KeptInWeeks(dates, i, dates[p], 4)
      && !RepeatsMonth(dates, i, Edge(WeekBoundary(dates[p]), 4))
  }

  // ---- What survives -----------------------------------------------------------------

  /** All snapshots of the current day are kept, one at midnight, which is in the previous week too, included. */
  lemma TodayIsKept(dates: seq<nat>, i: nat, now: nat)
    requires Increasing(dates) && i < |dates| && dates[i] >= Midnight(now)
    ensures Kept(dates, i, now)
  {
    var p := FirstOfWeek(dates, now);
    if p < |dates| && dates[i] == Midnight(now) {
      if i > 0 && InPreviousWeek(dates[i - 1], now) && DayOfMonth(dates[i - 1]) == DayOfMonth(dates[i]) {
        assert dates[i - 1] < dates[i] && dates[i - 1] / DAY < dates[i] / DAY;
        SameDayOfMonth(dates[i - 1] / DAY, dates[i] / DAY);
      }
      var boundary := WeekBoundary(dates[p]);
      assert p <= i && dates[p] <= dates[i];
      assert i > 0 ==> dates[i - 1] < dates[i];
      assert i == p && i > 0 ==> dates[i - 1] < Midnight(now) - ONE_WEEK;
      assert forall w :: 1 <= w < 5 ==> Edge(boundary, w) < boundary;
      assert Edge(boundary, 0) == boundary && Edge(boundary, 1) == boundary - ONE_WEEK;
    }
  }

  /** The first snapshot of every day of the previous week is kept, except perhaps of its oldest day. */
  lemma FirstOfDayIsKept(dates: seq<nat>, i: nat, now: nat)
    requires Increasing(dates) && i < |dates| && InPreviousWeek(dates[i], now)
    requires forall j :: 0 <= j < i && InPreviousWeek(dates[j], now) ==> dates[j] / DAY != dates[i] / DAY
    requires dates[FirstOfWeek(dates, now)] / DAY != dates[i] / DAY
    ensures Kept(dates, i, now)
  {
    var p := FirstOfWeek(dates, now);
    assert p < i && dates[p] < dates[i];
    if i > 0 && InPreviousWeek(dates[i - 1], now) && DayOfMonth(dates[i - 1]) == DayOfMonth(dates[i]) {
      SameDayOfMonth(dates[i - 1] / DAY, dates[i] / DAY);
    }
    var boundary := WeekBoundary(dates[p]);
    assert forall w :: 0 <= w < 5 ==> Edge(boundary, w) <= boundary <= dates[p];
  }

  /** Of one day of the previous week, the seven days and an hour before midnight, nothing but the first snapshot is
      kept. */
  lemma KeptIsFirstOfDay(dates: seq<nat>, i: nat, now: nat)
    requires Increasing(dates) && i < |dates| && Kept(dates, i, now)
    requires now / DAY * DAY - 7 * DAY - 3600 <= dates[i] <= now / DAY * DAY
    ensures forall j :: 0 <= j < i && dates[j] >= now / DAY * DAY - 7 * DAY - 3600 ==> dates[j] / DAY != dates[i] / DAY
  {
    forall j | 0 <= j < i && dates[j] >= now / DAY * DAY - 7 * DAY - 3600
      ensures dates[j] / DAY != dates[i] / DAY
    {
      assert dates[j] <= dates[i - 1] < dates[i];
      DaysPass(dates[j], dates[i - 1]);
      DaysPass(dates[i - 1], dates[i]);
    }
  }

  /** So of each day but the oldest of the previous week, which `OldestOfWeekKeptIff` tells about, exactly the
      first snapshot is kept. */
  lemma DayKeptIff(dates: seq<nat>, i: nat, now: nat)
    requires Increasing(dates) && i < |dates| && InPreviousWeek(dates[i], now)
    requires dates[FirstOfWeek(dates, now)] / DAY != dates[i] / DAY
    ensures Kept(dates, i, now)
            <==> forall j :: 0 <= j < i && InPreviousWeek(dates[j], now) ==> dates[j] / DAY != dates[i] / DAY
  {
    if Kept(dates, i, now) {
      KeptIsFirstOfDay(dates, i, now);
    } else if forall j :: 0 <= j < i && InPreviousWeek(dates[j], now) ==> dates[j] / DAY != dates[i] / DAY {
      FirstOfDayIsKept(dates, i, now);
    }
  }

  /** Of the partial week nothing but the first snapshot is kept. */
  lemma KeptIsFirstOfPartialWeek(dates: seq<nat>, i: nat, now: nat)
    requires Increasing(dates) && i < |dates| && FirstOfWeek(dates, now) < |dates| && Kept(dates, i, now)
    requires var oldest := dates[FirstOfWeek(dates, now)]; WeekBoundary(oldest) <= dates[i] <= oldest
    ensures forall j :: 0 <= j < i ==> dates[j] < WeekBoundary(dates[FirstOfWeek(dates, now)])
  {
    var oldest := dates[FirstOfWeek(dates, now)];
    assert !NotFirst(dates, i, WeekBoundary(oldest), oldest);
    assert forall j :: 0 <= j < i ==> dates[j] <= dates[i - 1];
  }

  /** Of each weekly window before it, of seven days and an hour, nothing but the first snapshot is kept. */
  lemma KeptIsFirstOfWindow(dates: seq<nat>, i: nat, now: nat, w: nat)
    requires Increasing(dates) && i < |dates| && FirstOfWeek(dates, now) < |dates| && Kept(dates, i, now) && w < 4
    requires var boundary := WeekBoundary(dates[FirstOfWeek(dates, now)]);
             boundary - (w + 1) * (7 * DAY + 3600) <= dates[i] <= boundary - w * (7 * DAY + 3600)
    ensures var boundary := WeekBoundary(dates[FirstOfWeek(dates, now)]);
            forall j :: 0 <= j < i ==> dates[j] < boundary - (w + 1) * (7 * DAY + 3600)
  {
    var boundary := WeekBoundary(dates[FirstOfWeek(dates, now)]);
    assert !NotFirst(dates, i, Edge(boundary, w + 1), Edge(boundary, w));
    assert forall j :: 0 <= j < i ==> dates[j] <= dates[i - 1];
  }

  /** The windows begin on Mondays, at the time of day of the oldest snapshot of the previous week. */
  lemma BoundaryIsMonday(date: nat)
    requires date >= 7 * DAY
    ensures var boundary := WeekBoundary(date);
            0 <= boundary <= date < boundary + 7 * DAY && boundary % DAY == date % DAY && Weekday(boundary / DAY) == 0
  {
    var d := date / DAY;
    var w := Weekday(d);
    assert WeekBoundary(date) == (d - w) * DAY + date % DAY;
    assert d >= 7 && (d - w + 3) % 7 == 0;
  }

  /** The oldest snapshot of the previous week is kept exactly when no other lies between the Monday
      before it (the start of the first weekly window, when it lies on a Monday itself) and it. */
  lemma OldestOfWeekKeptIff(dates: seq<nat>, now: nat)
    requires Increasing(dates) && FirstOfWeek(dates, now) < |dates|
    ensures var p := FirstOfWeek(dates, now);
            var boundary := WeekBoundary(dates[p]);
            var from := if boundary == dates[p] then boundary - ONE_WEEK else boundary;
            Kept(dates, p, now) <==> forall j :: 0 <= j < |dates| ==> !(from <= dates[j] < dates[p])
  {
    var p := FirstOfWeek(dates, now);
    var boundary := WeekBoundary(dates[p]);
    var from := if boundary == dates[p] then boundary - ONE_WEEK else boundary;
    assert !RepeatsDay(dates, p, Midnight(now) - ONE_WEEK, Midnight(now));
    assert Edge(boundary, 0) == boundary && Edge(boundary, 1) == boundary - ONE_WEEK;
    assert forall w :: 1 <= w < 5 ==> Edge(boundary, w) < boundary;
    assert Kept(dates, p, now) <==>
      !NotFirst(dates, p, boundary, dates[p]) && !NotFirst(dates, p, boundary - ONE_WEEK, boundary);
    if p > 0 {
      assert from <= dates[p - 1] < dates[p] <==> !Kept(dates, p, now);
      if from > dates[p - 1] {
        assert forall j :: 0 <= j < p ==> dates[j] <= dates[p - 1];
      }
    }
  }

  /** So the documented "first snapshot of the day for the previous seven days" can fail on the oldest of
      those days, even for the only snapshot of that day. */
  lemma FirstOfDayCanBeLost()
    ensures exists dates, now :: Increasing(dates) && |dates| == 2 && dates[0] / DAY < dates[1] / DAY
                                 && FirstOfWeek(dates, now) == 1 && !Kept(dates, 1, now)
  {
    var dates, now := [19 * DAY, 20 * DAY + 1000], 27 * DAY;
    assert Midnight(now) - ONE_WEEK == 20 * DAY - 3600;
    assert !InPreviousWeek(dates[0], now) && InPreviousWeek(dates[1], now);
    assert WeekBoundary(dates[1]) == 18 * DAY + 1000;
    assert NotFirst(dates, 1, WeekBoundary(dates[1]), dates[1]);
    assert Increasing(dates) && FirstOfWeek(dates, now) == 1 && !Kept(dates, 1, now);
  }

  predicate EarliestIn(dates: seq<nat>, e: nat, lo: int, hi: int) {
    && e < |dates| && In(dates[e], lo, hi)
    && forall j :: 0 <= j < e ==> !In(dates[j], lo, hi)
  }

  /** The code keeps "one within this partial week", its earliest snapshot, exactly unless that lies on the
      Monday that begins it and belongs to the first weekly window too, not as its first. */
  lemma EarliestOfPartialWeekKeptIff(dates: seq<nat>, now: nat, e: nat)
    requires Increasing(dates) && FirstOfWeek(dates, now) < |dates|
    requires var oldest := dates[FirstOfWeek(dates, now)]; EarliestIn(dates, e, WeekBoundary(oldest), oldest)
    ensures var boundary := WeekBoundary(dates[FirstOfWeek(dates, now)]);
            Kept(dates, e, now) <==> !(e > 0 && dates[e] == boundary && dates[e - 1] >= boundary - ONE_WEEK)
  {
    var p := FirstOfWeek(dates, now);
    var boundary := WeekBoundary(dates[p]);
    assert e <= p && (e > 0 ==> dates[e - 1] < boundary);
    assert forall w :: 1 <= w < 5 ==> Edge(boundary, w) < boundary;
    assert Edge(boundary, 0) == boundary && Edge(boundary, 1) == boundary - ONE_WEEK;
    assert Kept(dates, e, now) <==> !NotFirst(dates, e, boundary - ONE_WEEK, boundary);
  }

  /** The earliest snapshot of each weekly window is kept, unless it lies exactly on the window's lower
      edge and then belongs to the next window too, not as its first, or, for the last window, repeats
      the month of the snapshot before it. */
  lemma EarliestOfWindowKeptIff(dates: seq<nat>, now: nat, w: nat, e: nat)
    requires Increasing(dates) && FirstOfWeek(dates, now) < |dates| && w < 4
    requires var boundary := WeekBoundary(dates[FirstOfWeek(dates, now)]);
             EarliestIn(dates, e, Edge(boundary, w + 1), Edge(boundary, w))
    ensures var boundary := WeekBoundary(dates[FirstOfWeek(dates, now)]);
            Kept(dates, e, now) <==>
              !(&& e > 0 && dates[e] == Edge(boundary, w + 1)
                && if w < 3 then dates[e - 1] >= Edge(boundary, w + 2) else Month(dates[e - 1]) == Month(dates[e]))
  {
    var p := FirstOfWeek(dates, now);
    var boundary := WeekBoundary(dates[p]);
    assert dates[e] <= boundary <= dates[p];
    assert e <= p;
    assert e > 0 ==> dates[e - 1] < Edge(boundary, w + 1);
    assert !RepeatsDay(dates, e, Midnight(now) - ONE_WEEK, Midnight(now));
    assert !NotFirst(dates, e, boundary, dates[p]);
    forall v | 0 <= v < 4 && v != w + 1
      ensures !NotFirst(dates, e, Edge(boundary, v + 1), Edge(boundary, v))
    {
      if v > w + 1 {
        assert Edge(boundary, v) < Edge(boundary, w + 1);
      } else {
        assert Edge(boundary, v + 1) >= Edge(boundary, w + 1);
      }
    }
    if w < 3 {
      assert Edge(boundary, 4) < Edge(boundary, w + 1);
    }
  }

  /** Older than the weekly windows, a snapshot is kept exactly when the one before it is from another
      month of the year. */
  lemma MonthlyKeptIff(dates: seq<nat>, now: nat, i: nat)
    requires Increasing(dates) && FirstOfWeek(dates, now) < |dates| && i < |dates|
    requires dates[i] <= Edge(WeekBoundary(dates[FirstOfWeek(dates, now)]), 4)
    ensures Kept(dates, i, now) <==> i == 0 || Month(dates[i - 1]) != Month(dates[i])
  {
    var p := FirstOfWeek(dates, now);
    var boundary := WeekBoundary(dates[p]);
    assert dates[i] < dates[p] && i < p;
    assert i > 0 ==> dates[i - 1] < dates[i];
    forall v | 0 <= v < 4
      ensures !NotFirst(dates, i, Edge(boundary, v + 1), Edge(boundary, v))
    {
      assert Edge(boundary, v + 1) >= Edge(boundary, 4);
    }
  }

  function Year(t: nat): int {
    DateOf(t / DAY).year
  }

  /** No earlier snapshot is from the same month of the same year. */
  predicate FirstOfItsMonth(dates: seq<nat>, i: nat)
    requires i < |dates|
  {
    forall j :: 0 <= j < i ==> Year(dates[j]) != Year(dates[i]) || Month(dates[j]) != Month(dates[i])
  }

  /** The documented "first snapshot of each month" is what is kept of the older ones, except for a snapshot that
      follows one from the same month of an earlier year: the comparison ignores the year, and it is lost. */
  lemma FirstOfMonthKeptIff(dates: seq<nat>, now: nat, i: nat)
    requires Increasing(dates) && FirstOfWeek(dates, now) < |dates| && i < |dates|
    requires dates[i] <= Edge(WeekBoundary(dates[FirstOfWeek(dates, now)]), 4)
    ensures (Kept(dates, i, now) <==> FirstOfItsMonth(dates, i))
            <==> !(i > 0 && Month(dates[i - 1]) == Month(dates[i]) && Year(dates[i - 1]) < Year(dates[i]))
    ensures Kept(dates, i, now) ==> FirstOfItsMonth(dates, i)
  {
    MonthlyKeptIff(dates, now, i);
    if i > 0 {
      DaysPass(dates[i - 1], dates[i]);
      MonthsPass(dates[i - 1] / DAY, dates[i] / DAY);
      forall j | 0 <= j < i
        ensures Year(dates[j]) < Year(dates[i - 1])
                || (Year(dates[j]) == Year(dates[i - 1]) && Month(dates[j]) <= Month(dates[i - 1]))
      {
        assert dates[j] <= dates[i - 1];
        DaysPass(dates[j], dates[i - 1]);
        MonthsPass(dates[j] / DAY, dates[i - 1] / DAY);
      }
    }
  }

  lemma DaysPass(s: nat, t: nat)
    requires s <= t
    ensures s / DAY <= t / DAY
  {
  }
}
