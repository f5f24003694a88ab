/** When a daily task that is polled punctually is ever found due. */
module TaskStarvation {
  import opened Common
  import opened TaskSchedule

  // ---- Punctual polling ----------------------------------------------------------------

  /** The instant at which a deferred message becomes visible again. */
  function Later(h: int, lastExecuted: Option<int>, now: int): int {
    now + Check(AtHour(h), lastExecuted, now) * SECOND
  }

  /** The instant after `k` deferrals, when every poll happens the moment the message is visible. */
  function Redelivery(h: int, lastExecuted: Option<int>, now: int, k: nat): int
    decreases k
  {
    if k == 0 then now else Redelivery(h, lastExecuted, Later(h, lastExecuted, now), k - 1)
  }

  predicate Due(h: int, lastExecuted: Option<int>, now: int) {
    Check(AtHour(h), lastExecuted, now) == 0
  }

  ghost predicate EventuallyDue(h: int, lastExecuted: Option<int>, now: int) {
    exists k: nat :: Due(h, lastExecuted, Redelivery(h, lastExecuted, now, k))
  }

  lemma OneDeferral(h: int, lastExecuted: Option<int>, now: int)
    requires !Due(h, lastExecuted, now)
    ensures EventuallyDue(h, lastExecuted, now) <==> EventuallyDue(h, lastExecuted, Later(h, lastExecuted, now))
  {
    var later := Later(h, lastExecuted, now);
    forall k: nat
      ensures Redelivery(h, lastExecuted, now, k + 1) == Redelivery(h, lastExecuted, later, k)
    {
    }
    if k: nat :| Due(h, lastExecuted, Redelivery(h, lastExecuted, now, k)) {
      assert k > 0;
      assert Due(h, lastExecuted, Redelivery(h, lastExecuted, later, k - 1));
    }
    if k: nat :| Due(h, lastExecuted, Redelivery(h, lastExecuted, later, k)) {
      assert Due(h, lastExecuted, Redelivery(h, lastExecuted, now, k + 1));
    }
  }

  // ---- The walk of the clock hour ------------------------------------------------------

  /** The clock hour at which a task deferred at clock hour `x` is polled next; `h` itself stays. */
  function Onward(h: int, x: int): (y: int)
    requires 0 <= h <= 23 && 0 <= x <= 23
    ensures 0 <= y <= 23
  {
    var y := x + Distance(h, x);
    if y >= 24 then y - 24 else y
  }

  function Walk(h: int, x: int, n: nat): (y: int)
    requires 0 <= h <= 23 && 0 <= x <= 23
    ensures 0 <= y <= 23
    decreases n
  {
    if n == 0 then x else Walk(h, Onward(h, x), n - 1)
  }

  /** The hours that the walk takes. */
  function WalkHours(h: int, x: int, n: nat): nat
    requires 0 <= h <= 23 && 0 <= x <= 23
    decreases n
  {
    if n == 0 then 0 else Distance(h, x) + WalkHours(h, Onward(h, x), n - 1)
  }

  /** Five deferrals decide whether the walk ever comes to the hour. */
  predicate Arrives(h: int, x: int)
    requires 0 <= h <= 23 && 0 <= x <= 23
  {
    Walk(h, x, 5) == h
  }

  /** Days passed in one deferral after the hour, which doubles the distance to it. */
  function Wraps(h: int, x: int): (w: int)
    requires 0 <= h < x <= 23
    ensures Onward(h, x) - h == 2 * (x - h) - 24 * w
  {
    if 2 * x - h >= 24 then 1 else 0
  }

  /** A walk that is still after the hour by then has come into a cycle. */
  lemma FifthIsThird(h: int, x: int)
    requires 0 <= h < x <= 23 && h < Onward(h, x) && h < Walk(h, x, 2) && h < Walk(h, x, 3) && h < Walk(h, x, 4)
    ensures Walk(h, x, 5) == Walk(h, x, 3)
  {
    var x1 := Onward(h, x);
    var x2 := Onward(h, x1);
    var x3 := Onward(h, x2);
    var x4 := Onward(h, x3);
    assert Walk(h, x, 2) == x2 && Walk(h, x, 3) == x3 && Walk(h, x, 4) == x4 && Walk(h, x, 5) == Onward(h, x4);
    var a, b, c, d, e := Wraps(h, x), Wraps(h, x1), Wraps(h, x2), Wraps(h, x3), Wraps(h, x4);
    SameModDay(Onward(h, x4) - x3, x - h - 3 * (4 * a + 2 * b + c) - 2 * d - e);
  }

  lemma SameModDay(hours: int, days: int)
    requires hours == 24 * days && -24 < hours < 24
    ensures hours == 0
  {
  }

  lemma ArrivalKept(h: int, x: int)
    requires 0 <= h <= 23 && 0 <= x <= 23
    ensures Arrives(h, Onward(h, x)) <==> Arrives(h, x)
  {
    var x1 := Onward(h, x);
    var x2 := Onward(h, x1);
    var x3 := Onward(h, x2);
    var x4 := Onward(h, x3);
    UpToTheHour(h, x, 5);
    UpToTheHour(h, x1, 4);
    UpToTheHour(h, x2, 3);
    UpToTheHour(h, x3, 2);
    UpToTheHour(h, x4, 1);
    UpToTheHour(h, x4, 2);
    if h < x && h < x1 && h < x2 && h < x3 && h < x4 {
      FifthIsThird(h, x);
    } else {
      UpToTheHour(h, Onward(h, x4), 1);
    }
  }

  /** From an hour not after its own the next stop is its own, where the walk stays. */
  lemma {:induction false} UpToTheHour(h: int, x: int, n: nat)
    requires 0 <= h <= 23 && 0 <= x <= 23 && n > 0
    ensures x <= h ==> Walk(h, x, n) == h
    ensures Walk(h, x, n) == Walk(h, Onward(h, x), n - 1)
    decreases n
  {
    if n == 1 || x > h {
    } else {
      assert Onward(h, x) == h;
      UpToTheHour(h, h, n - 1);
    }
  }

  lemma {:induction false} FiveTell(h: int, x: int, n: nat)
    requires 0 <= h <= 23 && 0 <= x <= 23 && n >= 5
    ensures Arrives(h, x) <==> Walk(h, x, n) == h
    decreases n
  {
    if n == 5 {
    } else {
      ArrivalKept(h, x);
      FiveTell(h, Onward(h, x), n - 1);
    }
  }

  lemma LateHoursArrive(h: int, x: int)
    requires 8 <= h <= 23 && 0 <= x <= 23
    ensures Arrives(h, x)
  {
  }

  // ---- The walk is the polling ---------------------------------------------------------

  lemma OutsideItsHour(h: int, lastExecuted: Option<int>, now: int)
    requires 0 <= h <= 23 && HourOf(now) != h
    ensures !Due(h, lastExecuted, now)
    ensures var later := Later(h, lastExecuted, now);
            later == now + Distance(h, HourOf(now)) * HOUR && HourOf(later) == Onward(h, HourOf(now))
  {
    HoursLater(now, Distance(h, HourOf(now)));
  }

  /** Inside its hour a task that has run within a day is put off by 82800 seconds. */
  lemma InItsHour(h: int, last: int, now: int)
    requires 0 <= h <= 23 && HourOf(now) == h && !DayOld(Some(last), now)
    ensures !Due(h, Some(last), now)
    ensures var later := Later(h, Some(last), now);
            later == now + 23 * HOUR && HourOf(later) == if h == 0 then 23 else h - 1
  {
    HoursLater(now, 23);
  }

  lemma HoursLater(now: int, hours: nat)
    requires hours < 24
    ensures HourOf(now + hours * HOUR) == (HourOf(now) + hours) % 24
  {
    assert (now + hours * HOUR) / HOUR == now / HOUR + hours;
  }

  /** A walk that never comes to the hour is a task that is never found due. */
  lemma {:induction false} DailyTaskCanStarve(h: int, lastExecuted: Option<int>, now: int, k: nat)
    requires 0 <= h <= 23 && !Arrives(h, HourOf(now))
    ensures !Due(h, lastExecuted, Redelivery(h, lastExecuted, now, k))
    decreases k
  {
    UpToTheHour(h, h, 5);
    OutsideItsHour(h, lastExecuted, now);
    if k == 0 {
    } else {
      ArrivalKept(h, HourOf(now));
      DailyTaskCanStarve(h, lastExecuted, Later(h, lastExecuted, now), k - 1);
    }
  }

  lemma NeverFoundDue(h: int, lastExecuted: Option<int>, now: int)
    requires 0 <= h <= 23 && !Arrives(h, HourOf(now))
    ensures !EventuallyDue(h, lastExecuted, now)
  {
    forall k: nat
      ensures !Due(h, lastExecuted, Redelivery(h, lastExecuted, now, k))
    {
      DailyTaskCanStarve(h, lastExecuted, now, k);
    }
  }

  /** From any hour but midnight, 82800 seconds and then one hour lead back to the same time of day, and
      to a day later. */
  lemma {:induction false} BackInItsHour(h: int, last: int, now: int)
    requires 1 <= h <= 23 && HourOf(now) == h
    ensures EventuallyDue(h, Some(last), now)
    decreases last + DAY - now
  {
    if DayOld(Some(last), now) {
      assert Due(h, Some(last), Redelivery(h, Some(last), now, 0));
    } else {
      var before := Later(h, Some(last), now);
      InItsHour(h, last, now);
      OneDeferral(h, Some(last), now);
      OutsideItsHour(h, Some(last), before);
      OneDeferral(h, Some(last), before);
      BackInItsHour(h, last, Later(h, Some(last), before));
    }
  }

  lemma MidnightIsMissed(last: int, now: int)
    requires HourOf(now) == 0 && !DayOld(Some(last), now)
    ensures !EventuallyDue(0, Some(last), now)
  {
    InItsHour(0, last, now);
    OneDeferral(0, Some(last), now);
    NeverFoundDue(0, Some(last), Later(0, Some(last), now));
  }

  lemma AtItsHour(h: int, lastExecuted: Option<int>, now: int)
    requires 0 <= h <= 23 && HourOf(now) == h
    ensures EventuallyDue(h, lastExecuted, now) <==> h >= 1 || DayOld(lastExecuted, now)
  {
    if DayOld(lastExecuted, now) {
      assert Due(h, lastExecuted, Redelivery(h, lastExecuted, now, 0));
    } else if h >= 1 {
      BackInItsHour(h, lastExecuted.value, now);
    } else {
      MidnightIsMissed(lastExecuted.value, now);
    }
  }

  lemma {:induction false} WalkToItsHour(h: int, lastExecuted: Option<int>, now: int, n: nat)
    requires 0 <= h <= 23 && Walk(h, HourOf(now), n) == h
    ensures EventuallyDue(h, lastExecuted, now)
            <==> h >= 1 || DayOld(lastExecuted, now + WalkHours(h, HourOf(now), n) * HOUR)
    decreases n
  {
    var x := HourOf(now);
    if n == 0 {
      AtItsHour(h, lastExecuted, now);
    } else if x == h {
      WalkToItsHour(h, lastExecuted, now, n - 1);
    } else {
      var later := Later(h, lastExecuted, now);
      OutsideItsHour(h, lastExecuted, now);
      OneDeferral(h, lastExecuted, now);
      WalkToItsHour(h, lastExecuted, later, n - 1);
      assert WalkHours(h, x, n) == Distance(h, x) + WalkHours(h, Onward(h, x), n - 1);
    }
  }

  /** Polled punctually, a daily task is ever found due exactly when the walk of the clock hour comes to its
      hour and, for a midnight task, comes there a day or more after the last execution. Five deferrals (or
      any number `n` from five on) tell. */
  lemma DailyTaskFoundDueIff(h: int, lastExecuted: Option<int>, now: int, n: nat)
    requires 0 <= h <= 23 && n >= 5
    ensures EventuallyDue(h, lastExecuted, now)
            <==> Arrives(h, HourOf(now))
                 && (h >= 1 || DayOld(lastExecuted, now + WalkHours(h, HourOf(now), n) * HOUR))
  {
    FiveTell(h, HourOf(now), n);
    if Arrives(h, HourOf(now)) {
      WalkToItsHour(h, lastExecuted, now, n);
    } else {
      NeverFoundDue(h, lastExecuted, now);
    }
  }

  /** From eight o'clock on no task starves. */
  lemma LateTasksNeverStarve(h: int, lastExecuted: Option<int>, now: int)
    requires 8 <= h <= 23
    ensures EventuallyDue(h, lastExecuted, now)
  {
    LateHoursArrive(h, HourOf(now));
    DailyTaskFoundDueIff(h, lastExecuted, now, 5);
  }

  /** Polled in its hour within a day of its last execution, as it is right after running, a daily task
      runs again exactly when its hour is not midnight. */
  lemma RunsAgainIff(h: int, last: int, now: int)
    requires 0 <= h <= 23 && HourOf(now) == h && !DayOld(Some(last), now)
    ensures EventuallyDue(h, Some(last), now) <==> h >= 1
  {
    AtItsHour(h, Some(last), now);
  }
}
