/** The billing views of `record_usage` and its grouped cost reports. */
module UsageReport {
  import opened Common
  import opened InstanceTypes
  import opened Usage

  // ---- The views and the hours billed --------------------------------------------------

  /** SQLite's `round`: half away from zero. */
  function Round(x: real): int {
    if x >= 0.0 then (x + 0.5).Floor else -(0.5 - x).Floor
  }

  /** The hours billed for a stretch of time. No stop is ever closed, so none is ever subtracted. */
  function BilledHours(start: real, end: real): int {
    Round(24.0 * (end - start) + 0.5)
  }

  predicate Integral(x: real) {
    x == x.Floor as real
  }

  lemma FloorOfInt(n: int)
    ensures (n as real).Floor == n
  {
  }

  lemma IntegralNegated(x: real)
    ensures Integral(x) <==> Integral(-x)
  {
    FloorOfInt(-x.Floor);
    FloorOfInt(-(-x).Floor);
  }

  /** For any length of time `x` in hours, rounding `x + 0.5` gives the next whole hour above it, or `x`
      itself when that is a negative whole number. */
  lemma RoundedUp(x: real)
    ensures x <= Round(x + 0.5) as real <= x + 1.0
    ensures x < Round(x + 0.5) as real <==> !(x < 0.0 && Integral(x))
  {
    IntegralNegated(x);
    if x + 0.5 >= 0.0 {
      assert Round(x + 0.5) == (x + 0.5 + 0.5).Floor;
      assert Integral(x) && x < 0.0 ==> x.Floor <= -1;
    } else {
      assert Round(x + 0.5) == -(0.5 - (x + 0.5)).Floor;
      assert 0.5 - (x + 0.5) == -x;
    }
  }

  /** Billing rounds up by at most one hour, and strictly except for a negative whole number of hours. */
  lemma BilledWithinAnHour(start: real, end: real)
    ensures var hours := 24.0 * (end - start);
            && hours <= BilledHours(start, end) as real <= hours + 1.0
            && (hours < BilledHours(start, end) as real <==> !(hours < 0.0 && Integral(hours)))
  {
    RoundedUp(24.0 * (end - start));
  }

  /** A line of a billing view or of a grouped report. */
  datatype Line = Line(spot: bool, kind: Kind, hours: int)

  function FinishedLine(r: Row): Option<Line> {
    if r.end.Some? then Some(Line(r.spot, r.kind, BilledHours(r.start, r.end.value))) else None
  }

  function PendingLine(r: Row, now: real): Option<Line> {
    if r.end.None? then Some(Line(r.spot, r.kind, BilledHours(r.start, now))) else None
  }

  // ---- Grouped cost reports ------------------------------------------------------------

  /** What a line costs; proportional to its hours in the only way that grouping needs. */
  type Pricing = Line -> real

  function For(l: Line, hours: int): Line {
    l.(hours := hours)
  }

  ghost predicate Additive(cost: Pricing) {
    forall l, a, b :: cost(For(l, a + b)) == cost(For(l, a)) + cost(For(l, b))
  }

  function Total(cost: Pricing, ls: seq<Line>): real {
    if ls == [] then 0.0
    else
      var n := |ls| - 1;
      Total(cost, ls[..n]) + cost(ls[n])
  }

  predicate SameGroup(a: Line, b: Line) {
    a.spot == b.spot && a.kind == b.kind
  }

  /** `SUM(hours)` of the lines in the group of `g`. */
  function HoursIn(ls: seq<Line>, g: Line): int {
    if ls == [] then 0
    else
      var n := |ls| - 1;
      HoursIn(ls[..n], g) + if SameGroup(ls[n], g) then ls[n].hours else 0
  }

  predicate HasGroup(gs: seq<Line>, l: Line) {
    exists i :: 0 <= i < |gs| && SameGroup(gs[i], l)
  }

  /** `GROUP BY is_spot, instance_type`: every line is in one group, and each group has its sum. */
  ghost predicate Groups(gs: seq<Line>, ls: seq<Line>) {
    && (forall i, j :: 0 <= i < j < |gs| ==> !SameGroup(gs[i], gs[j]))
    && (forall l <- ls :: HasGroup(gs, l))
    && (forall i :: 0 <= i < |gs| ==> gs[i].hours == HoursIn(ls, gs[i]))
  }

  lemma {:induction false} TotalOfZeros(cost: Pricing, gs: seq<Line>)
    requires Additive(cost) && forall i :: 0 <= i < |gs| ==> gs[i].hours == 0
    ensures Total(cost, gs) == 0.0
    decreases |gs|
  {
    if gs == [] {
    } else {
      var n := |gs| - 1;
      TotalOfZeros(cost, gs[..n]);
      assert cost(For(gs[n], 0 + 0)) == cost(For(gs[n], 0)) + cost(For(gs[n], 0));
    }
  }

  /** Adding hours to one line adds their cost to the total. */
  lemma {:induction false} TotalOfLonger(cost: Pricing, gs: seq<Line>, j: nat, more: int)
    requires Additive(cost) && j < |gs|
    ensures Total(cost, gs[j := For(gs[j], gs[j].hours + more)]) == Total(cost, gs) + cost(For(gs[j], more))
    decreases |gs|
  {
    var n, gs' := |gs| - 1, gs[j := For(gs[j], gs[j].hours + more)];
    if j == n {
      assert gs'[..n] == gs[..n];
      assert gs[j] == For(gs[j], gs[j].hours);
    } else {
      TotalOfLonger(cost, gs[..n], j, more);
      assert gs'[..n] == gs[..n][j := For(gs[j], gs[j].hours + more)];
    }
  }

  /** The total over groups is the total over the lines themselves, at any additive prices and however
      the database forms and orders the groups. */
  lemma {:induction false} GroupingKeepsTotal(cost: Pricing, gs: seq<Line>, ls: seq<Line>)
    requires Additive(cost) && Groups(gs, ls)
    ensures Total(cost, gs) == Total(cost, ls)
    decreases |ls|
  {
    if ls == [] {
      TotalOfZeros(cost, gs);
    } else {
      var n := |ls| - 1;
      assert ls[n] in ls;
      var j :| 0 <= j < |gs| && SameGroup(gs[j], ls[n]);
      var less := gs[j := For(gs[j], gs[j].hours - ls[n].hours)];
      WithoutLastLine(gs, ls, less, j);
      GroupingKeepsTotal(cost, less, ls[..n]);
      TotalOfLonger(cost, less, j, ls[n].hours);
      assert less[j := For(less[j], less[j].hours + ls[n].hours)] == gs;
      assert For(less[j], ls[n].hours) == ls[n];
    }
  }

  lemma WithoutLastLine(gs: seq<Line>, ls: seq<Line>, less: seq<Line>, j: nat)
    requires Groups(gs, ls) && ls != [] && j < |gs| && SameGroup(gs[j], ls[|ls| - 1])
    requires less == gs[j := For(gs[j], gs[j].hours - ls[|ls| - 1].hours)]
    ensures Groups(less, ls[..|ls| - 1])
  {
    var n := |ls| - 1;
    forall i | 0 <= i < |less|
      ensures less[i].hours == HoursIn(ls[..n], less[i])
    {
      SameGroupSameHours(ls[..n], less[i], gs[i]);
      assert SameGroup(ls[n], gs[i]) <==> i == j;
    }
    forall l | l in ls[..n]
      ensures HasGroup(less, l)
    {
      assert l in ls;
      var i :| 0 <= i < |gs| && SameGroup(gs[i], l);
      assert SameGroup(less[i], l);
    }
  }

  lemma {:induction false} SameGroupSameHours(ls: seq<Line>, a: Line, b: Line)
    requires SameGroup(a, b)
    ensures HoursIn(ls, a) == HoursIn(ls, b)
    decreases |ls|
  {
    if ls == [] {
    } else {
      SameGroupSameHours(ls[..|ls| - 1], a, b);
    }
  }

  // ---- The report of one user ------------------------------------------------------------

  /** The estimate per hour: table cost times COST_BASE, times SPOT_FACTOR for spot instances. */
  function Estimate(kind: Kind, spot: bool): real {
    var demand := if CostTenths(kind).Some? then CostTenths(kind).value as real / 10.0 * 0.085 else 0.0;
    if spot then demand * 0.7 else demand
  }

  function LineCost(l: Line): real {
    Estimate(l.kind, l.spot) * l.hours as real
  }

  /** A spot instance costs seven tenths of the same instance on demand. */
  lemma SpotIsCheaper(kind: Kind, hours: int)
    ensures LineCost(Line(true, kind, hours)) == 0.7 * LineCost(Line(false, kind, hours))
  {
  }

  /** What an hour on demand costs, in dollars. */
  lemma HourOnDemand()
    ensures LineCost(Line(false, T1Micro, 1)) == 0.017 && LineCost(Line(false, M1Small, 1)) == 0.085
    ensures LineCost(Line(false, M1Large, 1)) == 0.34 && LineCost(Line(false, M1XLarge, 1)) == 0.68
    ensures LineCost(Line(false, C1Medium, 1)) == 0.17 && LineCost(Line(false, C1XLarge, 1)) == 0.68
    ensures LineCost(Line(false, M2XLarge, 1)) == 0.5015 && LineCost(Line(false, M22XLarge, 1)) == 1.003
    ensures LineCost(Line(false, M24XLarge, 1)) == 2.006 && LineCost(Line(false, CC14XLarge, 1)) == 1.598
  {
  }

  lemma LineCostPerHour(l: Line)
    ensures LineCost(l) == l.hours as real * LineCost(For(l, 1))
  {
  }

  lemma LineCostIsAdditive()
    ensures Additive(LineCost)
  {
  }

  predicate Priced(ls: seq<Line>) {
    forall l <- ls :: CostTenths(l.kind).Some?
  }

  datatype Error = KeyError

  /** `report_set`: adds up a grouped report; an instance type without a price raises. */
  method ReportSet(gs: seq<Line>) returns (r: Result<real, Error>)
    ensures r == if Priced(gs) then Ok(Total(LineCost, gs)) else Err(KeyError)
  {
    var total := 0.0;
    for i := 0 to |gs|
      invariant Priced(gs[..i]) && total == Total(LineCost, gs[..i])
    {
      assert gs[i] in gs && gs[..i + 1][..i] == gs[..i];
      if CostTenths(gs[i].kind).None? {
        return Err(KeyError);
      }
      total := total + LineCost(gs[i]);
    }
    assert gs[..|gs|] == gs;
    r := Ok(total);
  }

  function FinishedLines(rows: seq<Row>): seq<Line> {
    if rows == [] then []
    else
      var l := FinishedLine(rows[|rows| - 1]);
      FinishedLines(rows[..|rows| - 1]) + if l.Some? then [l.value] else []
  }

  function PendingLines(rows: seq<Row>, now: real): seq<Line> {
    if rows == [] then []
    else
      var l := PendingLine(rows[|rows| - 1], now);
      PendingLines(rows[..|rows| - 1], now) + if l.Some? then [l.value] else []
  }

  /** The cost of a row: its rate times its billed hours, up to its end or up to now. */
  function RowCost(r: Row, now: real): real {
    LineCost(Line(r.spot, r.kind, BilledHours(r.start, if r.end.Some? then r.end.value else now)))
  }

  function RowsCost(rows: seq<Row>, now: real): real {
    if rows == [] then 0.0 else RowsCost(rows[..|rows| - 1], now) + RowCost(rows[|rows| - 1], now)
  }

  lemma TotalMore(cost: Pricing, ls: seq<Line>, l: Line)
    ensures Total(cost, ls + [l]) == Total(cost, ls) + cost(l)
  {
  }

  /** Each row gives a line in exactly one of the two views, which together cost what the rows cost one by one. */
  lemma {:induction false} ViewsCostTheRows(rows: seq<Row>, now: real)
    ensures Total(LineCost, FinishedLines(rows)) + Total(LineCost, PendingLines(rows, now)) == RowsCost(rows, now)
    ensures |FinishedLines(rows)| + |PendingLines(rows, now)| == |rows|
    decreases |rows|
  {
    if rows == [] {
    } else {
      var n := |rows| - 1;
      ViewsCostTheRows(rows[..n], now);
      var f, p := FinishedLine(rows[n]), PendingLine(rows[n], now);
      if f.Some? {
        TotalMore(LineCost, FinishedLines(rows[..n]), f.value);
        assert PendingLines(rows, now) == PendingLines(rows[..n], now);
      } else {
        TotalMore(LineCost, PendingLines(rows[..n], now), p.value);
        assert FinishedLines(rows) == FinishedLines(rows[..n]);
      }
    }
  }

  /** One hour of a spot instance for each pending spot request. */
  function RequestLines(kinds: seq<Kind>): (ls: seq<Line>)
    ensures |ls| == |kinds|
  {
    seq(|kinds|, i requires 0 <= i < |kinds| => Line(true, kinds[i], 1))
  }

  /** Each pending request costs an hour of its type at the spot rate. */
  lemma RequestIsSpotHour(kinds: seq<Kind>, i: nat)
    requires i < |kinds|
    ensures LineCost(RequestLines(kinds)[i]) == 0.7 * LineCost(Line(false, kinds[i], 1))
  {
    SpotIsCheaper(kinds[i], 1);
  }

  /** A row costs its hourly rate for its time up to its end, or up to now, and at most an hour more. */
  lemma RowCostWithinAnHour(r: Row, now: real)
    ensures var rate := LineCost(Line(r.spot, r.kind, 1));
            var hours := 24.0 * ((if r.end.Some? then r.end.value else now) - r.start);
            rate * hours <= RowCost(r, now) <= rate * (hours + 1.0)
  {
    var until := if r.end.Some? then r.end.value else now;
    var rate, hours := LineCost(Line(r.spot, r.kind, 1)), 24.0 * (until - r.start);
    BilledWithinAnHour(r.start, until);
    LineCostPerHour(Line(r.spot, r.kind, BilledHours(r.start, until)));
    Scaled(rate, hours, BilledHours(r.start, until) as real);
    Scaled(rate, BilledHours(r.start, until) as real, hours + 1.0);
  }

  lemma Scaled(rate: real, x: real, y: real)
    requires 0.0 <= rate && x <= y
    ensures rate * x <= rate * y
  {
  }

  /** Every group comes from some line, as `GROUP BY` forms them. */
  ghost predicate GroupedBy(gs: seq<Line>, ls: seq<Line>) {
    Groups(gs, ls) && forall g <- gs :: HasGroup(ls, g)
  }

  lemma {:induction false} NoGroupNoHours(ls: seq<Line>, g: Line)
    requires forall l <- ls :: !SameGroup(l, g)
    ensures HoursIn(ls, g) == 0
    decreases |ls|
  {
    if ls == [] {
    } else {
      var n := |ls| - 1;
      assert ls[n] in ls && forall l <- ls[..n] :: l in ls;
      NoGroupNoHours(ls[..n], g);
    }
  }

  /** Groups with one line more: it joins its group, or begins a new one. */
  lemma OneMoreLine(gs: seq<Line>, ls: seq<Line>, l: Line) returns (more: seq<Line>)
    requires GroupedBy(gs, ls)
    ensures GroupedBy(more, ls + [l])
  {
    var all := ls + [l];
    assert all[..|ls|] == ls && all[|ls|] == l;
    var at := |gs|;
    if j :| 0 <= j < |gs| && SameGroup(gs[j], l) {
      at := j;
      more := gs[j := For(gs[j], gs[j].hours + l.hours)];
      forall i | 0 <= i < |more|
        ensures SameGroup(more[i], gs[i]) && more[i].hours == HoursIn(all, more[i])
      {
        SameGroupSameHours(ls, more[i], gs[i]);
        assert SameGroup(l, gs[i]) <==> i == j;
      }
    } else {
      more := gs + [l];
      forall k | k in ls
        ensures !SameGroup(k, l)
      {
        assert HasGroup(gs, k);
      }
      NoGroupNoHours(ls, l);
    }
    forall k | k in all
      ensures HasGroup(more, k)
    {
      if k in ls {
        var i :| 0 <= i < |gs| && SameGroup(gs[i], k);
        assert SameGroup(more[i], k);
      } else {
        assert SameGroup(more[at], k);
      }
    }
    forall i | 0 <= i < |more|
      ensures HasGroup(all, more[i])
    {
      if i < |gs| {
        assert gs[i] in gs;
        var k :| 0 <= k < |ls| && SameGroup(ls[k], gs[i]);
        assert SameGroup(all[k], more[i]);
      } else {
        assert SameGroup(all[|ls|], more[i]);
      }
    }
  }

  /** Every list of lines can be grouped. */
  lemma {:induction false} GroupsExist(ls: seq<Line>) returns (gs: seq<Line>)
    ensures GroupedBy(gs, ls)
    decreases |ls|
  {
    if ls == [] {
      gs := [];
    } else {
      var n := |ls| - 1;
      var less := GroupsExist(ls[..n]);
      gs := OneMoreLine(less, ls[..n], ls[n]);
      assert ls[..n] + [ls[n]] == ls;
    }
  }

  lemma PricedGroups(gs: seq<Line>, ls: seq<Line>)
    requires GroupedBy(gs, ls)
    ensures Priced(gs) <==> Priced(ls)
  {
  }

  lemma GroupedReportIsRowsCost(rows: seq<Row>, kinds: seq<Kind>, now: real,
                                finished: seq<Line>, pending: seq<Line>, requests: seq<Line>)
    requires Groups(finished, FinishedLines(rows))
    requires Groups(pending, PendingLines(rows, now))
    requires Groups(requests, RequestLines(kinds))
    ensures Total(LineCost, finished) == Total(LineCost, FinishedLines(rows))
    ensures Total(LineCost, requests) + Total(LineCost, pending) + Total(LineCost, finished)
            == RowsCost(rows, now) + Total(LineCost, RequestLines(kinds))
  {
    LineCostIsAdditive();
    GroupingKeepsTotal(LineCost, requests, RequestLines(kinds));
    GroupingKeepsTotal(LineCost, pending, PendingLines(rows, now));
    GroupingKeepsTotal(LineCost, finished, FinishedLines(rows));
    ViewsCostTheRows(rows, now);
  }

  /** `user_report` on the user's rows, the types of the user's open spot requests, and the groups the
      database forms of them: with pending usage included, the total is the sum over rows of rate times
      billed hours, plus one spot hour for each pending request. */
  method UserReport(rows: seq<Row>, kinds: seq<Kind>, now: real, includePending: bool,
                    finished: seq<Line>, pending: seq<Line>, requests: seq<Line>) returns (r: Result<real, Error>)
    requires GroupedBy(finished, FinishedLines(rows))
    requires GroupedBy(pending, PendingLines(rows, now))
    requires GroupedBy(requests, RequestLines(kinds))
    ensures r.Ok? <==> Priced(FinishedLines(rows))
                       && (includePending ==> Priced(PendingLines(rows, now)) && Priced(RequestLines(kinds)))
    ensures r.Ok? ==> r.value == if includePending then RowsCost(rows, now) + Total(LineCost, RequestLines(kinds))
                                 else Total(LineCost, FinishedLines(rows))
  {
    PricedGroups(finished, FinishedLines(rows));
    PricedGroups(pending, PendingLines(rows, now));
    PricedGroups(requests, RequestLines(kinds));
    GroupedReportIsRowsCost(rows, kinds, now, finished, pending, requests);
    var total := 0.0;
    if includePending {
      var a := ReportSet(requests);
      if a.Err? { return a; }
      var b := ReportSet(pending);
      if b.Err? { return b; }
      total := a.value + b.value;
    }
    var c := ReportSet(finished);
    if c.Err? { return c; }
    r := Ok(total + c.value);
  }
}
