/** `Task.check`, the decision whether a task is due, and `Task._run`, the loop that
    keeps the message's visibility lease alive while the command runs. */
module TaskSchedule {
  import opened Common
  import opened Arithmetic

  // Instants are microseconds since the epoch, the resolution of datetime.utcnow().
  const SECOND: int := 1_000_000
  const HOUR: int := 3600 * SECOND
  const DAY: int := 24 * HOUR

  /** The validated `hour` property: '*' or 0..23. */
  datatype Hour = EveryHour | AtHour(hour: int)

  predicate ValidHour(h: Hour) {
    h.AtHour? ==> 0 <= h.hour <= 23
  }

  /** `datetime.hour` of an instant. */
  function HourOf(now: int): (h: int)
    ensures 0 <= h <= 23
  {
    (now / HOUR) % 24
  }

  // The two fields of a normalised timedelta; both round toward minus infinity.
  function DeltaDays(delta: int): int {
    delta / DAY
  }

  function DeltaSeconds(delta: int): int {
    (delta % DAY) / SECOND
  }

  /** The instant as the store keeps it: whole seconds. */
  function Stamp(now: int): (s: int)
    ensures s <= now < s + SECOND && s % SECOND == 0
  {
    now - now % SECOND
  }

  function Distance(a: int, b: int): int {
    if a >= b then a - b else b - a
  }

  /** `Task.check`: seconds to wait, or zero when the task must run now. */
  function Check(hour: Hour, lastExecuted: Option<int>, now: int): int {
    match (hour, lastExecuted)
    case (EveryHour, None) => 0
    case (EveryHour, Some(last)) =>
      var secs := DeltaSeconds(now - last);
      if secs >= 60 * 60 then 0 else 60 * 60 - secs
    case (AtHour(h), None) =>
      if h == HourOf(now) then 0 else Distance(h, HourOf(now)) * 60 * 60
    case (AtHour(h), Some(last)) =>
      if h == HourOf(now) then
        if DeltaDays(now - last) >= 1 then 0 else 82800
      else Distance(h, HourOf(now)) * 60 * 60
  }

  /** The shortest distance the schedule promises between two executions. */
  function Period(hour: Hour): int {
    if hour.EveryHour? then HOUR else DAY
  }

  /** A task that is found due was last stamped at least one period ago, and a daily task is
      inside its hour. */
  lemma DueIsSpaced(hour: Hour, last: int, now: int)
    requires last <= now && last % SECOND == 0
    requires Check(hour, Some(last), now) == 0
    ensures last + Period(hour) <= Stamp(now)
  {
    var delta := now - last;
    if hour.EveryHour? {
      assert delta % DAY >= HOUR;
      assert delta >= delta % DAY;
    } else {
      assert delta >= DAY;
    }
    BelowStamp(last, last / SECOND, if hour.EveryHour? then 3600 else 86400, now);
  }

  lemma BelowStamp(last: int, q: int, seconds: int, now: int)
    requires last == q * SECOND && last + seconds * SECOND <= now
    ensures last + seconds * SECOND <= Stamp(now)
  {
  }

  lemma DueInHour(h: int, lastExecuted: Option<int>, now: int)
    requires Check(AtHour(h), lastExecuted, now) == 0
    ensures HourOf(now) == h
  {
  }

  /** A task that has never run is due at once, a daily one in its hour. */
  lemma NeverRunIsDueIff(hour: Hour, now: int)
    requires ValidHour(hour)
    ensures Check(hour, None, now) == 0 <==> hour.EveryHour? || HourOf(now) == hour.hour
  {
  }

  /** Every task falls due again, however late the clock already is. */
  lemma FallsDue(hour: Hour, lastExecuted: Option<int>, clock: int) returns (now: int)
    requires ValidHour(hour)
    ensures clock <= now && Check(hour, lastExecuted, now) == 0
  {
    match (hour, lastExecuted)
    case (EveryHour, None) => now := clock;
    case (EveryHour, Some(last)) =>
      var k := if clock > last then (clock - last) / DAY + 1 else 0;
      now := last + k * DAY + HOUR;
      assert now - last == k * DAY + HOUR;
      assert (k * DAY + HOUR) % DAY == HOUR;
    case (AtHour(h), _) =>
      var base := if lastExecuted.Some? && lastExecuted.value > clock then lastExecuted.value else clock;
      var k := base / DAY + 2;
      now := k * DAY + h * HOUR;
      assert now / HOUR == k * 24 + h;
      assert base < (k - 1) * DAY;
      assert HourOf(now) == h;
  }

  // ---- What the delay is worth -------------------------------------------------------

  /** Hours from clock hour `x` forward to the next clock hour `h`. */
  function HoursUntil(x: int, h: int): (d: int)
    ensures 0 <= d < 24
  {
    (h - x) % 24
  }

  /** A task that has never run, or not for a day. */
  predicate DayOld(lastExecuted: Option<int>, now: int) {
    lastExecuted.Some? ==> DeltaDays(now - lastExecuted.value) >= 1
  }

  /** Hours to the next scheduled time of a daily task: inside its hour that is now for a task that has
      not run for a day, and tomorrow otherwise. */
  function HoursToSchedule(h: int, lastExecuted: Option<int>, now: int): int {
    if HourOf(now) != h then HoursUntil(HourOf(now), h) else if DayOld(lastExecuted, now) then 0 else 24
  }

  /** Microseconds to the next scheduled time: the start of the hour, or now when the task is due. */
  function UntilSchedule(h: int, lastExecuted: Option<int>, now: int): int {
    if HourOf(now) == h && DayOld(lastExecuted, now) then 0
    else (if HourOf(now) == h then 24 else HoursUntil(HourOf(now), h)) * HOUR - now % HOUR
  }

  /** The documented meaning of the result, "seconds until the next scheduled time or zero if the task
      needs to be run immediately", holds for a daily task exactly when the task is due, or when it is on the
      hour and the task's own is still ahead today or exactly twelve hours away. */
  lemma DelayIsTimeToScheduleIff(h: int, lastExecuted: Option<int>, now: int)
    requires 0 <= h <= 23
    ensures Check(AtHour(h), lastExecuted, now) * SECOND == UntilSchedule(h, lastExecuted, now)
            <==> || (HourOf(now) == h && DayOld(lastExecuted, now))
                 || (now % HOUR == 0 && (HourOf(now) < h || HourOf(now) == h + 12))
  {
  }

  /** Rounded to the hour, counting from clock hour to clock hour, it holds whatever the minute. */
  lemma DelayIsHoursToScheduleIff(h: int, lastExecuted: Option<int>, now: int)
    requires 0 <= h <= 23
    ensures Check(AtHour(h), lastExecuted, now) == HoursToSchedule(h, lastExecuted, now) * 3600
            <==> HourOf(now) < h || HourOf(now) == h + 12 || (HourOf(now) == h && DayOld(lastExecuted, now))
  {
  }

  /** For an hourly task the delay is exact: the task is due that many seconds later and at no whole
      second before. */
  lemma HourlyDelayIsExact(last: int, now: int, wait: nat)
    requires Check(EveryHour, Some(last), now) > 0
    ensures wait < Check(EveryHour, Some(last), now) ==> Check(EveryHour, Some(last), now + wait * SECOND) != 0
    ensures wait == Check(EveryHour, Some(last), now) ==> Check(EveryHour, Some(last), now + wait * SECOND) == 0
  {
    var delta := now - last;
    if wait <= Check(EveryHour, Some(last), now) {
      assert delta % DAY + wait * SECOND < 2 * HOUR;
      LaterInTheDay(delta, wait * SECOND);
      assert (delta % DAY + wait * SECOND) / SECOND == delta % DAY / SECOND + wait;
    }
  }

  lemma LaterInTheDay(delta: int, more: nat)
    requires delta % DAY + more < DAY
    ensures (delta + more) % DAY == delta % DAY + more
  {
  }

  /** Only the part of the elapsed time within a day counts, so an hourly task that has waited longer than
      an hour is still put off exactly when it has waited whole days and less than an hour. */
  lemma OverdueHourlyTaskPutOffIff(last: int, now: int)
    requires last + HOUR <= now
    ensures Check(EveryHour, Some(last), now) != 0
            <==> exists days: nat :: last + days * DAY <= now < last + days * DAY + HOUR
  {
    var delta := now - last;
    var days := delta / DAY;
    assert delta == days * DAY + delta % DAY;
    assert forall d: nat :: last + d * DAY <= now < last + d * DAY + HOUR ==> d == days;
    assert Check(EveryHour, Some(last), now) != 0 <==> last + days * DAY <= now < last + days * DAY + HOUR;
  }

  // ---- The distance of executions on the clock ---------------------------------------

  /** Executed at `earlier` and saved, the task is not found due again before a period has passed. */
  ghost predicate KeepsPeriod(hour: Hour, earlier: int) {
    forall later :: later >= earlier && Check(hour, Some(Stamp(earlier)), later) == 0 ==>
      later - earlier >= Period(hour)
  }

  /** Saving drops the part of a second, so the period holds on the clock exactly for executions on a
      whole second (or, for a daily task, outside its hour, where it never executes). */
  lemma ClockSpacingIff(hour: Hour, earlier: int)
    requires ValidHour(hour)
    ensures KeepsPeriod(hour, earlier)
            <==> earlier % SECOND == 0 || (hour.AtHour? && HourOf(earlier) != hour.hour)
  {
    if earlier % SECOND == 0 || (hour.AtHour? && HourOf(earlier) != hour.hour) {
      forall later | later >= earlier && Check(hour, Some(Stamp(earlier)), later) == 0
        ensures later - earlier >= Period(hour)
      {
        DueIsSpaced(hour, Stamp(earlier), later);
        if Stamp(earlier) + DAY <= later < earlier + DAY {
          SameHourNextDay(earlier, later);
        }
      }
    } else {
      StampKeepsHour(earlier);
      DueAfterPeriod(hour, Stamp(earlier));
    }
  }

  lemma StampKeepsHour(now: int)
    ensures HourOf(Stamp(now)) == HourOf(now)
  {
    var h := now / HOUR;
    WholeSeconds(now, 3600 * h);
    QuotientIs(Stamp(now), HOUR, h, Stamp(now) - HOUR * h);
  }

  lemma SecondKeepsHour(now: int)
    ensures HourOf(Stamp(now) + SECOND - 1) == HourOf(now)
  {
    var h := now / HOUR;
    WholeSeconds(now, 3600 * h);
    WholeSeconds(now, 3600 * (h + 1));
    QuotientIs(Stamp(now) + SECOND - 1, HOUR, h, Stamp(now) + SECOND - 1 - HOUR * h);
  }

  lemma WholeSeconds(now: int, seconds: int)
    ensures SECOND * seconds <= now ==> SECOND * seconds <= Stamp(now)
    ensures now < SECOND * seconds ==> Stamp(now) + SECOND <= SECOND * seconds
  {
  }

  /** A whole period after its stamp, in its hour, a task is due. */
  lemma DueAfterPeriod(hour: Hour, last: int)
    requires hour.AtHour? ==> HourOf(last) == hour.hour
    ensures Check(hour, Some(last), last + Period(hour)) == 0
  {
    assert (last + DAY) / HOUR == last / HOUR + 24;
  }

  /** The rest of the second that begins a day after the stamp is in the same clock hour. */
  lemma SameHourNextDay(earlier: int, later: int)
    requires Stamp(earlier) + DAY <= later < earlier + DAY
    ensures HourOf(later) == HourOf(earlier)
  {
    assert Stamp(earlier) / HOUR == earlier / HOUR;
    assert later / HOUR == Stamp(earlier) / HOUR + 24;
  }

  /** Whether a saved task is due does not change within a second. */
  lemma DueAllSecond(hour: Hour, lastExecuted: Option<int>, now: int)
    requires lastExecuted.Some? ==> lastExecuted.value % SECOND == 0
    requires Check(hour, lastExecuted, now) == 0
    ensures Check(hour, lastExecuted, Stamp(now) + SECOND - 1) == 0
  {
    var end := Stamp(now) + SECOND - 1;
    SecondKeepsHour(now);
    if lastExecuted.Some? {
      SecondsSince(lastExecuted.value, now);
      SameSecond(now - lastExecuted.value, end - lastExecuted.value);
    }
  }

  lemma SecondsSince(last: int, now: int)
    requires last % SECOND == 0
    ensures Stamp(now - last) == Stamp(now) - last
  {
  }

  lemma SameSecond(a: int, b: int)
    requires b == Stamp(a) + SECOND - 1
    ensures DeltaDays(a) == DeltaDays(b) && DeltaSeconds(a) == DeltaSeconds(b)
  {
    assert a / SECOND == b / SECOND;
    SecondsOf(a);
    SecondsOf(b);
  }

  lemma SecondsOf(a: int)
    ensures DeltaDays(a) == (a / SECOND) / 86400 && DeltaSeconds(a) == (a / SECOND) % 86400
  {
  }

  // ---- The lease loop ----------------------------------------------------------------

  /** One wake-up of the loop: seconds since the message was read, and the end of its lease
      while the loop slept. */
  datatype Wake = Wake(elapsed: int, leaseEnd: int)

  /** The lease covers the whole sleep that ends at this wake-up. */
  predicate Covered(w: Wake) {
    w.elapsed <= w.leaseEnd
  }

  /** The received message; `leaseEnd` is the second at which it becomes visible to others. */
  class LeasedMessage {
    var leaseEnd: int

    constructor (vtimeout: int)
      ensures leaseEnd == vtimeout
    {
      leaseEnd := vtimeout;
    }

    /** `change_visibility` counts from the moment it is called. */
    method ChangeVisibility(elapsed: int, timeout: int)
      modifies this
      ensures leaseEnd == elapsed + timeout
    {
      leaseEnd := elapsed + timeout;
    }
  }

  /** The timeout the loop has reached after `k` wake-ups: one more vtimeout whenever the count
      of seconds has caught up with it. */
  function TimeoutAfter(vtimeout: int, k: nat): int {
    if k == 0 then vtimeout
    else
      var before := TimeoutAfter(vtimeout, k - 1);
      if 5 * k >= before then before + vtimeout else before
  }

  function LeaseAfter(vtimeout: int, k: nat): int {
    if k == 0 then vtimeout
    else if 5 * k >= TimeoutAfter(vtimeout, k - 1) then 5 * (k - 1) + TimeoutAfter(vtimeout, k)
    else LeaseAfter(vtimeout, k - 1)
  }

  function Wakes(vtimeout: int, polls: nat): (ws: seq<Wake>)
    ensures |ws| == polls
  {
    seq(polls, k requires 0 <= k < polls => Wake(5 * (k + 1), LeaseAfter(vtimeout, k + 1)))
  }

  /** The loop of `Task._run`, for a command that is still running at the first `polls` polls. */
  method HoldLease(msg: LeasedMessage, vtimeout: int, polls: nat) returns (wakes: seq<Wake>)
    requires msg.leaseEnd == vtimeout
    modifies msg
    ensures wakes == Wakes(vtimeout, polls)
    ensures msg.leaseEnd == LeaseAfter(vtimeout, polls)
    ensures vtimeout >= 3 ==> forall w <- wakes :: Covered(w)
  {
    var nsecs, currentTimeout := 5, vtimeout;
    wakes := [];
    for k := 0 to polls
      invariant nsecs == 5 * (k + 1)
      invariant currentTimeout == TimeoutAfter(vtimeout, k)
      invariant msg.leaseEnd == LeaseAfter(vtimeout, k)
      invariant wakes == Wakes(vtimeout, k)
    {
      if nsecs >= currentTimeout {
        currentTimeout := currentTimeout + vtimeout;
        msg.ChangeVisibility(nsecs - 5, currentTimeout);
      }
      wakes := wakes + [Wake(nsecs, msg.leaseEnd)];
      nsecs := nsecs + 5;
    }
    if vtimeout >= 3 {
      LeaseNeverExpiresIff(vtimeout);
      assert forall w <- Wakes(vtimeout, polls) :: Covered(w);
    }
  }

  lemma {:induction false} LeaseCoversSleep(vtimeout: int, k: nat)
    requires vtimeout >= 3
    ensures TimeoutAfter(vtimeout, k) >= vtimeout
    ensures LeaseAfter(vtimeout, k) >= TimeoutAfter(vtimeout, k)
    ensures k > 0 ==> 5 * k <= LeaseAfter(vtimeout, k)
    ensures k > 0 && vtimeout < 5 ==> TimeoutAfter(vtimeout, k) >= 2 * vtimeout
  {
    if k == 0 {
    } else {
      LeaseCoversSleep(vtimeout, k - 1);
    }
  }

  /** The timeout after `k` wake-ups: one vtimeout more for each, when the sleeps are no shorter, and otherwise for
      each whole vtimeout that has passed. */
  lemma {:induction false} TimeoutIs(vtimeout: int, k: nat)
    ensures vtimeout <= 5 ==> TimeoutAfter(vtimeout, k) == vtimeout * (k + 1)
    ensures vtimeout >= 5 ==> TimeoutAfter(vtimeout, k) == vtimeout * (5 * k / vtimeout + 1)
  {
    if k == 0 {
      assert vtimeout >= 5 ==> 0 / vtimeout == 0;
    } else {
      TimeoutIs(vtimeout, k - 1);
      if vtimeout <= 5 {
        ShortTimeout(vtimeout, k);
      }
      if vtimeout >= 5 {
        FiveMore(vtimeout, 5 * (k - 1));
      }
    }
  }

  lemma ShortTimeout(vtimeout: int, k: nat)
    requires vtimeout <= 5
    ensures 5 * k >= vtimeout * k && vtimeout * k + vtimeout == vtimeout * (k + 1)
  {
  }

  /** Five more than `x` reach the next multiple of `v`, or do not. */
  lemma FiveMore(v: int, x: nat)
    requires v >= 5
    ensures (x + 5) / v == x / v + if x + 5 >= v * (x / v + 1) then 1 else 0
    ensures v * (x / v + 1) + v == v * (x / v + 1 + 1)
  {
    var q, r := x / v, x % v;
    DivMod(x, v);
    assert v * (q + 1) == v * q + v;
    if r + 5 >= v {
      QuotientIs(x + 5, v, q + 1, r + 5 - v);
    } else {
      QuotientIs(x + 5, v, q, r + 5);
    }
  }

  /** The lease reaches as far as the timeout of the wake-up that last extended it, counted from five seconds
      before that. */
  lemma {:induction false} LeaseIs(vtimeout: int, k: nat) returns (j: nat)
    ensures j <= k && TimeoutAfter(vtimeout, j) == TimeoutAfter(vtimeout, k)
    ensures LeaseAfter(vtimeout, k) == if j == 0 then vtimeout else 5 * (j - 1) + TimeoutAfter(vtimeout, k)
    ensures j > 0 ==> 5 * j >= TimeoutAfter(vtimeout, j - 1)
  {
    if k == 0 {
      j := 0;
    } else if 5 * k >= TimeoutAfter(vtimeout, k - 1) {
      j := k;
    } else {
      j := LeaseIs(vtimeout, k - 1);
    }
  }

  /** The lease outlives every sleep of every command exactly when the initial visibility timeout
      is at least three seconds. */
  lemma LeaseNeverExpiresIff(vtimeout: int)
    ensures (forall polls: nat :: forall w <- Wakes(vtimeout, polls) :: Covered(w)) <==> vtimeout >= 3
  {
    if vtimeout >= 3 {
      forall polls: nat, w | w in Wakes(vtimeout, polls)
        ensures Covered(w)
      {
        var k :| 0 <= k < polls && w == Wakes(vtimeout, polls)[k];
        LeaseCoversSleep(vtimeout, k + 1);
      }
    } else {
      var ws := Wakes(vtimeout, 1);
      assert ws[0] == Wake(5, LeaseAfter(vtimeout, 1));
      assert ws[0] in ws && !Covered(ws[0]);
    }
  }
}
