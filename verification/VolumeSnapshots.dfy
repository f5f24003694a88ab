/** `get_snapshot_range` and `trim_snapshots`: the loops that clear `keep` flags over overlapping date
    windows, proved to keep what `Retention.Kept` says. */
module VolumeSnapshots {
  import opened Common
  import opened Retention

  class Snapshot {
    const date: nat
    var keep: bool
    var deleted: bool

    constructor (date: nat)
      ensures this.date == date && keep && !deleted
    {
      this.date := date;
      keep, deleted := true, false;
    }
  }

  function Dates(snaps: seq<Snapshot>): (dates: seq<nat>)
    ensures |dates| == |snaps|
  {
    seq(|snaps|, i requires 0 <= i < |snaps| => snaps[i].date)
  }

  /** What `get_snapshots` delivers: distinct objects in order of date. */
  ghost predicate Listed(snaps: seq<Snapshot>) {
    && (forall i, j :: 0 <= i < j < |snaps| ==> snaps[i] != snaps[j])
    && Sorted(Dates(snaps))
  }

  predicate InRange(date: nat, start: Option<int>, end: Option<int>) {
    (start.Some? ==> start.value <= date) && (end.Some? ==> date <= end.value)
  }

  /** `get_snapshot_range`: the snapshots in a range, in order; on a sorted list, one slice of it. */
  method GetSnapshotRange(snaps: seq<Snapshot>, start: Option<int>, end: Option<int>)
    returns (l: seq<Snapshot>, ghost lo: nat, ghost hi: nat)
    requires Sorted(Dates(snaps))
    ensures lo <= hi <= |snaps| && l == snaps[lo..hi]
    ensures forall i :: 0 <= i < |snaps| ==> (lo <= i < hi <==> InRange(snaps[i].date, start, end))
    ensures forall s <- snaps :: InRange(s.date, start, end) ==> s in l
    ensures forall s <- l :: s in snaps && InRange(s.date, start, end)
  {
    l, lo, hi := [], 0, 0;
    for i := 0 to |snaps|
      invariant lo <= hi <= i && l == snaps[lo..hi]
      invariant forall j :: 0 <= j < i ==> (lo <= j < hi <==> InRange(snaps[j].date, start, end))
      invariant l == [] ==> lo == hi == i
      invariant hi < i && l != [] ==> end.Some? && end.value < snaps[i - 1].date
    {
      assert i > 0 ==> Dates(snaps)[i - 1] <= Dates(snaps)[i];
      if InRange(snaps[i].date, start, end) {
        assert l != [] ==> hi == i;
        l := l + [snaps[i]];
        hi := i + 1;
      } else if l == [] {
        lo, hi := i + 1, i + 1;
      }
    }
  }

  /** Clears `keep` on all but the first snapshot of a window. */
  method KeepFirst(snaps: seq<Snapshot>, lo: int, hi: int)
    requires Listed(snaps)
    modifies snaps`keep
    ensures forall i :: 0 <= i < |snaps| ==>
              snaps[i].keep == (old(snaps[i].keep) && !NotFirst(Dates(snaps), i, lo, hi))
  {
    var l, a, b := GetSnapshotRange(snaps, Some(lo), Some(hi));
    if |l| > 1 {
      for k := 1 to |l|
        invariant forall i :: 0 <= i < |snaps| ==> snaps[i].keep == (old(snaps[i].keep) && !(a < i < a + k))
      {
        assert l[k] == snaps[a + k];
        l[k].keep := false;
      }
    }
  }

  /** Clears `keep` on every snapshot of the previous week that has the day of the month of the one
      before it; returns the first of the week. */
  method KeepFirstOfDays(snaps: seq<Snapshot>, midnight: int) returns (oldest: Option<Snapshot>, ghost p: nat)
    requires Listed(snaps)
    modifies snaps`keep
    ensures p <= |snaps| && oldest == (if p < |snaps| then Some(snaps[p]) else None)
    ensures forall i :: 0 <= i < p ==> !In(snaps[i].date, midnight - ONE_WEEK, midnight)
    ensures p < |snaps| ==> In(snaps[p].date, midnight - ONE_WEEK, midnight)
    ensures forall i :: 0 <= i < |snaps| ==>
              snaps[i].keep == (old(snaps[i].keep) && !RepeatsDay(Dates(snaps), i, midnight - ONE_WEEK, midnight))
  {
    var l, a, b := GetSnapshotRange(snaps, Some(midnight - ONE_WEEK), Some(midnight));
    if l == [] {
      return None, |snaps|;
    }
    var currentDay := None;
    for k := 0 to |l|
      invariant currentDay == (if k == 0 then None else Some(DayOfMonth(snaps[a + k - 1].date)))
      invariant forall i :: 0 <= i < |snaps| ==>
                  snaps[i].keep == (old(snaps[i].keep)
                                    && !(i < a + k && RepeatsDay(Dates(snaps), i, midnight - ONE_WEEK, midnight)))
    {
      assert l[k] == snaps[a + k];
      if currentDay == Some(DayOfMonth(l[k].date)) {
        l[k].keep := false;
      } else {
        currentDay := Some(DayOfMonth(l[k].date));
      }
    }
    oldest, p := Some(l[0]), a;
  }

  /** Clears `keep` on every snapshot up to `hi` that has the month of the one before it. */
  method KeepFirstOfMonths(snaps: seq<Snapshot>, hi: int)
    requires Listed(snaps)
    modifies snaps`keep
    ensures forall i :: 0 <= i < |snaps| ==>
              snaps[i].keep == (old(snaps[i].keep) && !RepeatsMonth(Dates(snaps), i, hi))
  {
    var l, a, b := GetSnapshotRange(snaps, None, Some(hi));
    var currentMonth := None;
    for k := 0 to |l|
      invariant currentMonth == (if k == 0 then None else Some(Month(snaps[a + k - 1].date)))
      invariant forall i :: 0 <= i < |snaps| ==>
                  snaps[i].keep == (old(snaps[i].keep) && !(i < a + k && RepeatsMonth(Dates(snaps), i, hi)))
    {
      assert l[k] == snaps[a + k];
      if currentMonth == Some(Month(l[k].date)) {
        l[k].keep := false;
      } else {
        currentMonth := Some(Month(l[k].date));
      }
    }
  }

  /** The windows of `trim_snapshots` below the previous week: the partial week, four weeks, then months. */
  method KeepFirstOfWeeks(snaps: seq<Snapshot>, oldest: nat)
    requires Listed(snaps)
    modifies snaps`keep
    ensures forall i :: 0 <= i < |snaps| ==>
              snaps[i].keep == (old(snaps[i].keep) && KeptInWeeks(Dates(snaps), i, oldest, 4)
                                && !RepeatsMonth(Dates(snaps), i, Edge(WeekBoundary(oldest), 4)))
  {
    var boundary := WeekBoundary(oldest);
    KeepFirst(snaps, boundary, oldest);
    for w := 0 to 4
      invariant boundary == Edge(WeekBoundary(oldest), w)
      invariant forall i :: 0 <= i < |snaps| ==>
                  snaps[i].keep == (old(snaps[i].keep) && KeptInWeeks(Dates(snaps), i, oldest, w))
    {
      KeepFirst(snaps, boundary - ONE_WEEK, boundary);
      boundary := boundary - ONE_WEEK;
    }
    KeepFirstOfMonths(snaps, boundary);
  }

  function Middle<T>(s: seq<T>): seq<T>
    requires |s| >= 2
  {
    s[1..|s| - 1]
  }

  /** `trim_snapshots` on the list that `get_snapshots` delivers: the snapshots between the oldest and
      the newest are kept as `Kept` says, the oldest and the newest always, and with `delete` exactly
      those not kept are deleted. */
  method TrimSnapshots(all: seq<Snapshot>, now: nat, delete: bool) returns (snaps: seq<Snapshot>)
    requires Listed(all) && forall s <- all :: s.keep && !s.deleted
    modifies all
    ensures |all| <= 2 ==> snaps == all && forall s <- all :: s.keep && !s.deleted
    ensures |all| > 2 ==>
              && snaps == Middle(all)
              && (forall i :: 0 <= i < |snaps| ==> snaps[i].keep == Kept(Dates(snaps), i, now))
              && (forall i :: 0 <= i < |snaps| ==> snaps[i].deleted == (delete && !snaps[i].keep))
              && all[0].keep && !all[0].deleted && all[|all| - 1].keep && !all[|all| - 1].deleted
  {
    if |all| <= 2 {
      return all;
    }
    snaps := Middle(all);
    assert forall i :: 0 <= i < |snaps| ==> snaps[i] == all[i + 1] && Dates(snaps)[i] == Dates(all)[i + 1];
    TrimMiddle(snaps, now, delete);
  }

  method TrimMiddle(snaps: seq<Snapshot>, now: nat, delete: bool)
    requires Listed(snaps) && forall i :: 0 <= i < |snaps| ==> snaps[i].keep && !snaps[i].deleted
    modifies snaps
    ensures forall i :: 0 <= i < |snaps| ==> snaps[i].keep == Kept(Dates(snaps), i, now)
    ensures forall i :: 0 <= i < |snaps| ==> snaps[i].deleted == (delete && !snaps[i].keep)
  {
    var oldest, p := KeepFirstOfDays(snaps, Midnight(now));
    assert p == FirstOfWeek(Dates(snaps), now);
    if oldest.Some? {
      KeepFirstOfWeeks(snaps, oldest.value.date);
      if delete {
        DeleteUnkept(snaps);
      }
    }
  }

  method DeleteUnkept(snaps: seq<Snapshot>)
    requires Listed(snaps)
    modifies snaps`deleted
    ensures forall i :: 0 <= i < |snaps| ==> snaps[i].deleted == (old(snaps[i].deleted) || !snaps[i].keep)
  {
    for k := 0 to |snaps|
      invariant forall i :: 0 <= i < |snaps| ==>
                  snaps[i].deleted == (old(snaps[i].deleted) || (i < k && !snaps[i].keep))
    {
      if !snaps[k].keep {
        snaps[k].deleted := true;
      }
    }
  }
}
