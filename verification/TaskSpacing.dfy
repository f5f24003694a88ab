/** How far apart the executions of one task are, over whole runs with exclusive delivery. */
module TaskSpacing {
  import opened Common
  import opened TaskSchedule
  import opened TaskProtocol

  // ---- After a saved execution ---------------------------------------------------------


  /** The last execution is stored as a whole second that is not in the future. */
  predicate PastStamp(s: State, t: TaskId) {
    t in s.store && (s.store[t].lastExecuted.Some? ==>
      s.store[t].lastExecuted.value <= s.clock && s.store[t].lastExecuted.value % SECOND == 0)
  }

  predicate Spaced(hour: Hour, earlier: int, later: int) {
    Stamp(earlier) + Period(hour) <= Stamp(later)
  }

  /** From a saved execution of `t` to any later one is at least a period, and a daily task
      executes inside its hour. */
  predicate OnSchedule(history: seq<Execution>, t: TaskId, hour: Hour) {
    && (forall i, j :: 0 <= i < j < |history| && history[i].task == t && history[j].task == t && history[i].saved ==>
          Spaced(hour, history[i].now, history[j].now))
    && (forall i :: 0 <= i < |history| && history[i].task == t && hour.AtHour? ==>
          HourOf(history[i].now) == hour.hour)
  }

  /** No saved execution is later than the stored time. */
  predicate Remembered(s: State, t: TaskId)
    requires t in s.store
  {
    forall i :: 0 <= i < |s.history| && s.history[i].task == t && s.history[i].saved ==>
      s.store[t].lastExecuted.Some? && Stamp(s.history[i].now) <= s.store[t].lastExecuted.value
  }

  /** What a worker in the critical section of `t` carries. */
  predicate Faithful(s: State, t: TaskId, p: Phase)
    requires t in s.store
  {
    match p
    case Accepted(_, _, copy, now) => copy == s.store[t] && now <= s.clock && NotAfter(copy, now)
    case Running(_, _, copy, now, run) => copy == s.store[t] && now <= s.clock && Latest(s, t, now, run)
    case Finished(_, _, copy, now, run) =>
      copy == s.store[t].(lastExecuted := Some(now)) && now <= s.clock && Latest(s, t, now, run)
    case Written(_, _, copy, now, run, newId) =>
      && copy == s.store[t].(lastExecuted := Some(now), messageId := Some(newId))
      && now <= s.clock && Latest(s, t, now, run)
    case _ => true
  }

  predicate NotAfter(r: Record, now: int) {
    r.lastExecuted.Some? ==> r.lastExecuted.value <= now
  }

  /** Entry `run` is the unsaved execution of `t` at `now`, with none of `t` after it. */
  predicate Latest(s: State, t: TaskId, now: int, run: nat) {
    && run < |s.history| && s.history[run].task == t && s.history[run].now == now && !s.history[run].saved
    && (forall k :: run < k < |s.history| ==> s.history[k].task != t)
    && (forall i :: 0 <= i < run && s.history[i].task == t && s.history[i].saved ==>
          Stamp(s.history[i].now) <= Stamp(now))
  }

  /** A started worker's entry in the history is for the task it runs. */
  predicate OwnEntries(s: State) {
    forall w <- s.workers :: s.workers[w].Started() ==>
      s.workers[w].run < |s.history| && s.history[s.workers[w].run].task == s.workers[w].task
  }

  predicate Scheduled(s: State, t: TaskId, hour: Hour) {
    && MutualExclusion(s, t) && PastStamp(s, t)
    && s.store[t].hour == hour
    && OnSchedule(s.history, t, hour)
    && Remembered(s, t)
    && OwnEntries(s)
    && forall w <- s.workers :: s.workers[w].Critical() && s.workers[w].task == t ==> Faithful(s, t, s.workers[w])
  }

  lemma StartKeepsSchedule(s: State, w: WorkerId, t: TaskId, hour: Hour)
    requires Scheduled(s, t, hour) && s.At(w).Accepted? && s.At(w).task == t
    requires Do(s, Decide(w)).At(w).Running? && MutualExclusion(Do(s, Decide(w)), t)
    ensures Scheduled(Do(s, Decide(w)), t, hour)
  {
    var p, s' := s.At(w), Do(s, Decide(w));
    assert Faithful(s, t, p);
    forall i | 0 <= i < |s.history| && s.history[i].task == t && s.history[i].saved
      ensures Spaced(hour, s.history[i].now, p.now)
    {
      DueIsSpaced(hour, s.store[t].lastExecuted.value, p.now);
    }
    assert OnSchedule(s'.history, t, hour);
    assert Faithful(s', t, s'.workers[w]);
  }

  lemma PutKeepsSchedule(s: State, w: WorkerId, t: TaskId, hour: Hour)
    requires Scheduled(s, t, hour) && s.At(w).Written? && s.At(w).task == t
    requires MutualExclusion(Do(s, Put(w)), t)
    ensures Scheduled(Do(s, Put(w)), t, hour)
  {
    var p, s' := s.At(w), Do(s, Put(w));
    assert Faithful(s, t, p);
    assert forall i :: 0 <= i < |s.history| && i != p.run ==> s'.history[i] == s.history[i];
    assert s'.history[p.run] == s.history[p.run].(saved := true);
    assert OnSchedule(s'.history, t, hour);
    assert Remembered(s', t);
  }

  /** Nothing about `t` changed: its record, and its part of the history. */
  predicate SameFor(t: TaskId, s: State, s': State) {
    && t in s.store && t in s'.store && s'.store[t] == s.store[t]
    && s.clock <= s'.clock
    && |s.history| <= |s'.history|
    && (forall i :: 0 <= i < |s.history| ==>
          s'.history[i].task == s.history[i].task && (s.history[i].task == t ==> s'.history[i] == s.history[i]))
    && (forall i :: |s.history| <= i < |s'.history| ==> s'.history[i].task != t)
  }

  lemma OtherStepFrame(s: State, step: Step, t: TaskId)
    requires t in s.store && OwnEntries(s) && Enabled(s, step)
    requires step.Decide? && s.At(step.w).task == t ==> Do(s, step).At(step.w).Idle?
    requires step.Put? ==> s.At(step.w).task != t
    ensures SameFor(t, s, Do(s, step)) && OwnEntries(Do(s, step))
  {
  }

  lemma FrameKeepsHistory(s: State, s': State, t: TaskId, hour: Hour)
    requires SameFor(t, s, s') && OnSchedule(s.history, t, hour) && Remembered(s, t)
    ensures OnSchedule(s'.history, t, hour) && Remembered(s', t)
  {
  }

  lemma FrameKeepsFaithful(s: State, s': State, t: TaskId, p: Phase)
    requires SameFor(t, s, s') && Faithful(s, t, p)
    ensures Faithful(s', t, p)
  {
  }

  lemma OtherStepKeepsSchedule(s: State, step: Step, t: TaskId, hour: Hour)
    requires Scheduled(s, t, hour) && Enabled(s, step)
    requires MutualExclusion(Do(s, step), t)
    requires step.Decide? && s.At(step.w).task == t ==> Do(s, step).At(step.w).Idle?
    requires step.Put? ==> s.At(step.w).task != t
    ensures Scheduled(Do(s, step), t, hour)
  {
    var s' := Do(s, step);
    OtherStepFrame(s, step, t);
    FrameKeepsHistory(s, s', t, hour);
    forall w | w in s'.workers && s'.workers[w].Critical() && s'.workers[w].task == t
      ensures Faithful(s', t, s'.workers[w])
    {
      OtherStepKeepsFaithful(s, step, t, w);
    }
  }

  lemma OtherStepKeepsFaithful(s: State, step: Step, t: TaskId, w: WorkerId)
    requires PastStamp(s, t) && Enabled(s, step) && SameFor(t, s, Do(s, step))
    requires s.At(w).Critical() && s.At(w).task == t ==> Faithful(s, t, s.At(w))
    requires Do(s, step).At(w).Critical() && Do(s, step).At(w).task == t
    requires step.Decide? && step.w == w ==> Do(s, step).At(w).Idle?
    ensures Faithful(Do(s, step), t, Do(s, step).At(w))
  {
    var s', p := Do(s, step), s.At(w);
    if p.Critical() && p.task == t {
      FrameKeepsFaithful(s, s', t, p);
    }
  }

  lemma ScheduleKept(s: State, step: Step, t: TaskId, hour: Hour)
    requires Scheduled(s, t, hour) && Enabled(s, step) && Exclusive(s, step)
    ensures Scheduled(Do(s, step), t, hour)
  {
    ExclusionStep(s, step, t);
    var s' := Do(s, step);
    if step.Decide? && s.At(step.w).task == t && s'.At(step.w).Running? {
      StartKeepsSchedule(s, step.w, t, hour);
    } else if step.Put? && s.At(step.w).task == t {
      PutKeepsSchedule(s, step.w, t, hour);
    } else {
      OtherStepKeepsSchedule(s, step, t, hour);
    }
  }

  lemma {:induction false} ScheduleRun(s: State, steps: seq<Step>, t: TaskId, hour: Hour)
    requires Scheduled(s, t, hour) && ValidRun(s, steps) && ExclusiveRun(s, steps)
    ensures Scheduled(Run(s, steps), t, hour)
    decreases |steps|
  {
    if steps == [] {
    } else {
      ScheduleKept(s, steps[0], t, hour);
      ScheduleRun(Do(s, steps[0]), steps[1..], t, hour);
    }
  }

  /** From one execution to another is a period on the stored whole-second stamps; on the clock that is
      at most a second less, and nothing less for an execution on a whole second. */
  predicate Apart(hour: Hour, earlier: int, later: int) {
    && Spaced(hour, earlier, later)
    && later - earlier > Period(hour) - SECOND
    && (earlier % SECOND == 0 ==> later - earlier >= Period(hour))
  }

  lemma SpacedIsApart(hour: Hour, earlier: int, later: int)
    requires Spaced(hour, earlier, later)
    ensures Apart(hour, earlier, later)
  {
  }

  /** Over every run with exclusive delivery and a clock that never runs backwards, every execution
      of a started task lies one period (3600 s, or 86400 s for a daily task) after each earlier saved
      one; a daily task always executes within its hour. */
  lemma ExecutionsOnSchedule(s: State, steps: seq<Step>, t: TaskId)
    requires Initial(s) && HasStarted(s, t) && PastStamp(s, t)
    requires ValidRun(s, steps) && ExclusiveRun(s, steps)
    ensures var hour, h := s.store[t].hour, Run(s, steps).history;
            && OnSchedule(h, t, hour)
            && forall i, j :: 0 <= i < j < |h| && h[i].task == t && h[j].task == t && h[i].saved ==>
                 Apart(hour, h[i].now, h[j].now)
  {
    var hour := s.store[t].hour;
    ScheduleRun(s, steps, t, hour);
    var h := Run(s, steps).history;
    forall i, j | 0 <= i < j < |h| && h[i].task == t && h[j].task == t && h[i].saved
      ensures Apart(hour, h[i].now, h[j].now)
    {
      SpacedIsApart(hour, h[i].now, h[j].now);
    }
  }

  // ---- No crash between an execution and its save: all executions keep their distance --

  /** No worker crashes between starting the command of `t` and saving it. */
  predicate SavesWhatItStarts(s: State, step: Step, t: TaskId) {
    step.Crash? ==> !(s.At(step.w).Started() && s.At(step.w).task == t)
  }

  ghost predicate AllSaved(s: State, steps: seq<Step>, t: TaskId)
    requires ValidRun(s, steps)
    decreases |steps|
  {
    steps == [] || (SavesWhatItStarts(s, steps[0], t) && AllSaved(Do(s, steps[0]), steps[1..], t))
  }

  predicate AllSpaced(history: seq<Execution>, t: TaskId, hour: Hour) {
    forall i, j :: 0 <= i < j < |history| && history[i].task == t && history[j].task == t ==>
      Spaced(hour, history[i].now, history[j].now)
  }

  predicate RunsEntry(p: Phase, t: TaskId, i: nat) {
    p.Started() && p.task == t && p.run == i
  }

  /** Every execution of `t` that is not saved has a worker that is still to save it. */
  predicate UnsavedRunning(s: State, t: TaskId) {
    forall i :: 0 <= i < |s.history| && s.history[i].task == t && !s.history[i].saved ==>
      exists w <- s.workers :: RunsEntry(s.workers[w], t, i)
  }

  lemma AcceptedHasAllSaved(s: State, w: WorkerId, t: TaskId)
    requires MutualExclusion(s, t) && UnsavedRunning(s, t) && s.At(w).Accepted? && s.At(w).task == t
    ensures forall i :: 0 <= i < |s.history| && s.history[i].task == t ==> s.history[i].saved
  {
    forall i | 0 <= i < |s.history| && s.history[i].task == t
      ensures s.history[i].saved
    {
      if !s.history[i].saved {
        var v :| v in s.workers && RunsEntry(s.workers[v], t, i);
        assert s.workers[v].Critical() && s.At(w).Critical();
      }
    }
  }

  lemma RunningKept(s: State, step: Step, t: TaskId)
    requires UnsavedRunning(s, t) && OwnEntries(s) && Enabled(s, step) && SavesWhatItStarts(s, step, t)
    ensures UnsavedRunning(Do(s, step), t)
  {
    var s' := Do(s, step);
    forall i | 0 <= i < |s'.history| && s'.history[i].task == t && !s'.history[i].saved
      ensures exists w <- s'.workers :: RunsEntry(s'.workers[w], t, i)
    {
      if i < |s.history| {
        var w :| w in s.workers && RunsEntry(s.workers[w], t, i);
        assert RunsEntry(s'.workers[w], t, i);
      } else {
        assert RunsEntry(s'.workers[step.w], t, i);
      }
    }
  }

  lemma SpacingKept(s: State, step: Step, t: TaskId, hour: Hour)
    requires Scheduled(s, t, hour) && UnsavedRunning(s, t) && AllSpaced(s.history, t, hour)
    requires Enabled(s, step) && OnSchedule(Do(s, step).history, t, hour)
    ensures AllSpaced(Do(s, step).history, t, hour)
  {
    if step.Decide? && s.At(step.w).task == t {
      AcceptedHasAllSaved(s, step.w, t);
    }
  }

  lemma {:induction false} SpacingRun(s: State, steps: seq<Step>, t: TaskId, hour: Hour)
    requires Scheduled(s, t, hour) && UnsavedRunning(s, t) && AllSpaced(s.history, t, hour)
    requires ValidRun(s, steps) && ExclusiveRun(s, steps) && AllSaved(s, steps, t)
    ensures AllSpaced(Run(s, steps).history, t, hour)
    decreases |steps|
  {
    if steps == [] {
    } else {
      ScheduleKept(s, steps[0], t, hour);
      RunningKept(s, steps[0], t);
      SpacingKept(s, steps[0], t, hour);
      SpacingRun(Do(s, steps[0]), steps[1..], t, hour);
    }
  }

  /** Over every run with exclusive delivery in which no worker crashes between starting the command of
      the task and saving it, any two executions of the task lie one period apart. */
  lemma AllExecutionsApart(s: State, steps: seq<Step>, t: TaskId)
    requires Initial(s) && HasStarted(s, t) && PastStamp(s, t)
    requires ValidRun(s, steps) && ExclusiveRun(s, steps) && AllSaved(s, steps, t)
    ensures var hour, h := s.store[t].hour, Run(s, steps).history;
            forall i, j :: 0 <= i < j < |h| && h[i].task == t && h[j].task == t ==>
              Apart(hour, h[i].now, h[j].now)
  {
    var hour := s.store[t].hour;
    SpacingRun(s, steps, t, hour);
    var h := Run(s, steps).history;
    forall i, j | 0 <= i < j < |h| && h[i].task == t && h[j].task == t
      ensures Apart(hour, h[i].now, h[j].now)
    {
      SpacedIsApart(hour, h[i].now, h[j].now);
    }
  }

  // ---- From load to start ----------------------------------------------------------------

  /** No command starts before its record was loaded. */
  predicate LoadedFirst(s: State) {
    && (forall w <- s.workers :: s.workers[w].Accepted? ==> s.workers[w].now <= s.clock)
    && forall i :: 0 <= i < |s.history| ==> s.history[i].now <= s.history[i].start
  }

  lemma {:induction false} LoadedFirstRun(s: State, steps: seq<Step>)
    requires LoadedFirst(s) && ValidRun(s, steps)
    ensures LoadedFirst(Run(s, steps))
    decreases |steps|
  {
    if steps == [] {
    } else {
      LoadedFirstStep(s, steps[0]);
      LoadedFirstRun(Do(s, steps[0]), steps[1..]);
    }
  }

  lemma LoadedFirstStep(s: State, step: Step)
    requires LoadedFirst(s) && Enabled(s, step)
    ensures LoadedFirst(Do(s, step))
  {
  }

  /** What is a period apart are the loads of the record, whose instant is saved. Under the conditions of
      `AllExecutionsApart` the commands themselves start a period apart but for the time the earlier one took from
      load to start (and the part of a second). */
  lemma StartsApart(s: State, steps: seq<Step>, t: TaskId)
    requires Initial(s) && HasStarted(s, t) && PastStamp(s, t)
    requires ValidRun(s, steps) && ExclusiveRun(s, steps) && AllSaved(s, steps, t)
    ensures var hour, h := s.store[t].hour, Run(s, steps).history;
            forall i, j :: 0 <= i < j < |h| && h[i].task == t && h[j].task == t ==>
              && h[i].now <= h[i].start
              && h[j].start - h[i].start > Period(hour) - SECOND - (h[i].start - h[i].now)
  {
    AllExecutionsApart(s, steps, t);
    LoadedFirstRun(s, steps);
  }

  /** That time can be any: every started task has a run in which its command starts `delay` after its load. */
  lemma StartCanWait(s: State, t: TaskId, delay: nat) returns (steps: seq<Step>, now: int)
    requires Initial(s) && HasStarted(s, t) && ValidHour(s.store[t].hour)
    ensures ValidRun(s, steps) && ExclusiveRun(s, steps)
    ensures Run(s, steps).history == [Execution(t, now, now + delay, false)]
  {
    var m := s.store[t].messageId.value;
    now := FallsDue(s.store[t].hour, s.store[t].lastExecuted, s.clock);
    One(s, Tick(now));
    var s1 := Do(s, Tick(now));
    One(s1, Read(0, m));
    var s2 := Do(s1, Read(0, m));
    One(s2, Load(0));
    var s3 := Do(s2, Load(0));
    One(s3, Tick(now + delay));
    var s4 := Do(s3, Tick(now + delay));
    One(s4, Decide(0));
    var s5 := Do(s4, Decide(0));
    Then(s, [Tick(now)], s1, [Read(0, m)], s2);
    Then(s, [Tick(now)] + [Read(0, m)], s2, [Load(0)], s3);
    Then(s, [Tick(now)] + [Read(0, m)] + [Load(0)], s3, [Tick(now + delay)], s4);
    Then(s, [Tick(now)] + [Read(0, m)] + [Load(0)] + [Tick(now + delay)], s4, [Decide(0)], s5);
    steps := [Tick(now)] + [Read(0, m)] + [Load(0)] + [Tick(now + delay)] + [Decide(0)];
    assert s5.history == [Execution(t, now, now + delay, false)];
  }

  /** An execution that a crash keeps from being saved is repeated, even under exclusive delivery:
      every started task has such a run with two executions at the same instant. */
  lemma UnsavedExecutionRepeats(s: State, t: TaskId) returns (steps: seq<Step>)
    requires Initial(s) && HasStarted(s, t) && ValidHour(s.store[t].hour)
    ensures ValidRun(s, steps) && ExclusiveRun(s, steps)
    ensures exists now :: Run(s, steps).history == [Execution(t, now, now, false), Execution(t, now, now, false)]
  {
    var m := s.store[t].messageId.value;
    var now := FallsDue(s.store[t].hour, s.store[t].lastExecuted, s.clock);
    One(s, Tick(now));
    var s1 := Do(s, Tick(now));
    var first := StartRun(s1, 0, t, m);
    var s2 := StartedBy(s1, 0, t, m);
    One(s2, Crash(0));
    var s3 := Do(s2, Crash(0));
    var second := StartRun(s3, 1, t, m);
    var s4 := StartedBy(s3, 1, t, m);
    Then(s, [Tick(now)], s1, first, s2);
    Then(s, [Tick(now)] + first, s2, [Crash(0)], s3);
    Then(s, [Tick(now)] + first + [Crash(0)], s3, second, s4);
    steps := [Tick(now)] + first + [Crash(0)] + second;
    assert s4.history == [Execution(t, now, now, false), Execution(t, now, now, false)];
  }

  /** Storing whole seconds costs up to one: every started task has a run, with exclusive delivery, no
      crash and its first execution saved, in which the second comes less than a period later by the
      clock (`ClockSpacingIff` tells from which instants). */
  lemma ClockSpacingCanFallShort(s: State, t: TaskId) returns (steps: seq<Step>)
    requires Initial(s) && HasStarted(s, t) && PastStamp(s, t) && ValidHour(s.store[t].hour)
    ensures ValidRun(s, steps) && ExclusiveRun(s, steps)
    ensures exists a, b :: Run(s, steps).history == [Execution(t, a, a, true), Execution(t, b, b, false)]
                           && 0 < b - a < Period(s.store[t].hour)
  {
    var hour := s.store[t].hour;
    var now := LateInItsSecond(hour, s.store[t].lastExecuted, s.clock);
    var first, s1, id := SavedRun(s, t, now);
    var next := Stamp(now) + Period(hour);
    One(s1, Tick(next));
    var s2 := Do(s1, Tick(next));
    var second := StartRun(s2, 0, t, id);
    var s3 := StartedBy(s2, 0, t, id);
    Then(s, first, s1, [Tick(next)], s2);
    Then(s, first + [Tick(next)], s2, second, s3);
    steps := first + [Tick(next)] + second;
    assert s3.history == [Execution(t, now, now, true), Execution(t, next, next, false)];
  }

  /** The first worker runs the task at `now`, saves it and deletes the message; `id` names the next one. */
  lemma SavedRun(s: State, t: TaskId, now: int) returns (steps: seq<Step>, end: State, id: MsgId)
    requires Initial(s) && HasStarted(s, t) && s.clock <= now
    requires Check(s.store[t].hour, s.store[t].lastExecuted, now) == 0
    ensures Reaches(s, steps, end) && ExclusiveRun(s, steps)
    ensures end.clock == now && end.history == [Execution(t, now, now, true)] && end.workers == map[0 := Idle]
    ensures end.store == s.store[t := Record(s.store[t].hour, Some(Stamp(now)), Some(id))]
    ensures id in end.queue && id in end.issued && end.issued[id] == t
  {
    var m := s.store[t].messageId.value;
    id := Unissued(s.issued.Keys);
    One(s, Tick(now));
    var s1 := Do(s, Tick(now));
    var work := WriteRun(s1, 0, t, m, id);
    var s2 := WrittenBy(s1, 0, t, m, id);
    One(s2, Put(0));
    var s3 := Do(s2, Put(0));
    One(s3, Delete(0));
    end := Do(s3, Delete(0));
    Then(s, [Tick(now)], s1, work, s2);
    Then(s, [Tick(now)] + work, s2, [Put(0)], s3);
    Then(s, [Tick(now)] + work + [Put(0)], s3, [Delete(0)], end);
    steps := [Tick(now)] + work + [Put(0)] + [Delete(0)];
  }

  /** An instant in the last microsecond of its second at which the task is due, and will be again a period
      after its stamp. */
  lemma LateInItsSecond(hour: Hour, lastExecuted: Option<int>, clock: int) returns (now: int)
    requires ValidHour(hour) && (lastExecuted.Some? ==> lastExecuted.value % SECOND == 0)
    ensures clock <= now == Stamp(now) + SECOND - 1
    ensures Check(hour, lastExecuted, now) == 0
    ensures Check(hour, Some(Stamp(now)), Stamp(now) + Period(hour)) == 0
  {
    var due := FallsDue(hour, lastExecuted, clock);
    now := Stamp(due) + SECOND - 1;
    EndOfSecond(due, now);
    DueAllSecond(hour, lastExecuted, due);
    DueAgain(hour, lastExecuted, due);
  }

  lemma EndOfSecond(due: int, now: int)
    requires now == Stamp(due) + SECOND - 1
    ensures due <= now && Stamp(now) == Stamp(due)
  {
  }

  lemma DueAgain(hour: Hour, lastExecuted: Option<int>, due: int)
    requires Check(hour, lastExecuted, due) == 0
    ensures Check(hour, Some(Stamp(due)), Stamp(due) + Period(hour)) == 0
  {
    if hour.AtHour? {
      DueInHour(hour.hour, lastExecuted, due);
      StampKeepsHour(due);
    }
    DueAfterPeriod(hour, Stamp(due));
  }
}
