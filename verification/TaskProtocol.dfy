/** The queue protocol of `TaskPoller.poll` and `Task.run` as a state machine: any number of
    workers, a crash between any two steps, and a queue that may deliver a message again. */
module TaskProtocol {
  import opened Common
  import opened TaskSchedule

  type TaskId = nat
  type MsgId = nat
  type WorkerId = nat

  /** The saved properties of a task that the protocol uses. */
  datatype Record = Record(hour: Hour, lastExecuted: Option<int>, messageId: Option<MsgId>)

  /** Where one worker is in `poll`/`run`. `run` is the index of its entry in the history. */
  datatype Phase =
    | Idle
    | Holding(msg: MsgId)
    | Accepted(msg: MsgId, task: TaskId, copy: Record, now: int)
    | Running(msg: MsgId, task: TaskId, copy: Record, now: int, run: nat)
    | Finished(msg: MsgId, task: TaskId, copy: Record, now: int, run: nat)
    | Written(msg: MsgId, task: TaskId, copy: Record, now: int, run: nat, newId: MsgId)
    | Saved(msg: MsgId, task: TaskId)
  {
    /** Past the id comparison. */
    predicate Past() {
      !Idle? && !Holding?
    }

    /** Between passing the id comparison and saving the new id. */
    predicate Critical() {
      Accepted? || Running? || Finished? || Written?
    }

    /** The command has been started and not yet saved. */
    predicate Started() {
      Running? || Finished? || Written?
    }
  }

  /** One execution of a task's command: its time stamp, which is the instant its record was loaded, the instant
      the command started, and whether it has been saved. */
  datatype Execution = Execution(task: TaskId, now: int, start: int, saved: bool)

  datatype State = State(
    clock: int,
    store: map<TaskId, Record>,
    queue: set<MsgId>,           // the messages in the queue
    issued: map<MsgId, TaskId>,  // every message ever written, with its body
    workers: map<WorkerId, Phase>,
    history: seq<Execution>)
  {
    function At(w: WorkerId): Phase {
      if w in workers then workers[w] else Idle
    }

    function Move(w: WorkerId, p: Phase): State {
      this.(workers := workers[w := p])
    }
  }

  datatype Step =
    | Tick(clock: int)
    | Read(w: WorkerId, msg: MsgId)
    | Load(w: WorkerId)
    | Decide(w: WorkerId)
    | Finish(w: WorkerId)
    | Write(w: WorkerId, newId: MsgId)
    | Put(w: WorkerId)
    | Delete(w: WorkerId)
    | Crash(w: WorkerId)

  predicate Enabled(s: State, step: Step) {
    match step
    case Tick(clock) => s.clock <= clock
    case Read(w, m) => s.At(w).Idle? && m in s.queue && m in s.issued
    case Load(w) => s.At(w).Holding? && s.At(w).msg in s.issued
    case Decide(w) => s.At(w).Accepted?
    case Finish(w) => s.At(w).Running?
    case Write(w, newId) => s.At(w).Finished? && newId !in s.issued
    case Put(w) => s.At(w).Written?
    case Delete(w) => s.At(w).Saved?
    case Crash(w) => true
  }

  function Do(s: State, step: Step): State
    requires Enabled(s, step)
  {
    match step
    case Tick(clock) => s.(clock := clock)
    case Read(w, m) => s.Move(w, Holding(m))
    case Load(w) =>
      var m := s.At(w).msg;
      var t := s.issued[m];
      if t in s.store && (s.store[t].messageId.None? || s.store[t].messageId == Some(m)) then
        s.Move(w, Accepted(m, t, s.store[t], s.clock))
      else
        s.Move(w, Idle)
    case Decide(w) =>
      var Accepted(m, t, copy, now) := s.At(w);
      if Check(copy.hour, copy.lastExecuted, now) == 0 then
        s.Move(w, Running(m, t, copy, now, |s.history|))
        .(history := s.history + [Execution(t, now, s.clock, false)])
      else
        s.Move(w, Idle)
    case Finish(w) =>
      var Running(m, t, copy, now, run) := s.At(w);
      s.Move(w, Finished(m, t, copy.(lastExecuted := Some(now)), now, run))
    case Write(w, newId) =>
      var Finished(m, t, copy, now, run) := s.At(w);
      s.Move(w, Written(m, t, copy.(messageId := Some(newId)), now, run, newId))
      .(queue := s.queue + {newId}, issued := s.issued[newId := t])
    case Put(w) =>
      var Written(m, t, copy, now, run, newId) := s.At(w);
      s.Move(w, Saved(m, t))
      .(store := s.store[t := AsStored(copy)],
        history := MarkSaved(s.history, run))
    case Delete(w) => s.Move(w, Idle).(queue := s.queue - {s.At(w).msg})
    case Crash(w) => s.Move(w, Idle)
  }

  function MarkSaved(history: seq<Execution>, run: nat): seq<Execution> {
    if run < |history| then history[run := history[run].(saved := true)] else history
  }

  /** Saving keeps whole seconds only. */
  function AsStored(r: Record): Record {
    match r.lastExecuted
    case None => r
    case Some(now) => r.(lastExecuted := Some(Stamp(now)))
  }

  /** A queue that never hands a message to a worker while another live worker has it. */
  predicate Exclusive(s: State, step: Step) {
    step.Read? ==> forall w <- s.workers :: w != step.w && !s.workers[w].Idle? ==> s.workers[w].msg != step.msg
  }

  ghost predicate ValidRun(s: State, steps: seq<Step>)
    decreases |steps|
  {
    steps == [] || (Enabled(s, steps[0]) && ValidRun(Do(s, steps[0]), steps[1..]))
  }

  ghost function Run(s: State, steps: seq<Step>): State
    requires ValidRun(s, steps)
    decreases |steps|
  {
    if steps == [] then s else Run(Do(s, steps[0]), steps[1..])
  }

  ghost predicate ExclusiveRun(s: State, steps: seq<Step>)
    requires ValidRun(s, steps)
    decreases |steps|
  {
    steps == [] || (Exclusive(s, steps[0]) && ExclusiveRun(Do(s, steps[0]), steps[1..]))
  }

  /** Polling begins: nobody is working and nothing has been executed yet. */
  predicate Initial(s: State) {
    && s.workers == map[]
    && s.history == []
    && s.queue <= s.issued.Keys
  }

  // ---- A started task is never lost --------------------------------------------------

  /** If an id is saved for `t`, the message with that id is in the queue and names `t`. */
  predicate NotLost(s: State, t: TaskId) {
    t in s.store && s.store[t].messageId.Some? ==>
      var m := s.store[t].messageId.value;
      m in s.queue && m in s.issued && s.issued[m] == t
  }

  /** `Task.start` has completed for `t`. */
  predicate HasStarted(s: State, t: TaskId) {
    t in s.store && s.store[t].messageId.Some? && NotLost(s, t)
  }

  /** No message names `t` and no id is saved for it. */
  predicate Dormant(s: State, t: TaskId) {
    && (t in s.store ==> s.store[t].messageId.None?)
    && forall m <- s.queue :: m in s.issued ==> s.issued[m] != t
  }

  predicate Bodies(s: State) {
    && s.queue <= s.issued.Keys
    && forall w <- s.workers :: var p := s.workers[w];
         && (!p.Idle? ==> p.msg in s.issued)
         && (p.Past() ==> s.issued[p.msg] == p.task)
         && (p.Written? ==> p.newId in s.issued && s.issued[p.newId] == p.task)
  }

  predicate Handover(s: State, t: TaskId) {
    && HasStarted(s, t)
    && Bodies(s)
    && (forall w <- s.workers :: s.workers[w].Written? && s.workers[w].task == t ==> PendingId(s, t, w))
    && (forall w <- s.workers :: s.workers[w].Saved? && s.workers[w].task == t ==>
          Some(s.workers[w].msg) != s.store[t].messageId)
  }

  /** The id that `w` has written but not saved is in the queue and nobody else relies on it. */
  predicate PendingId(s: State, t: TaskId, w: WorkerId)
    requires t in s.store && w in s.workers && s.workers[w].Written?
  {
    var newId := s.workers[w].newId;
    && newId in s.queue && newId in s.issued && s.issued[newId] == t
    && s.store[t].messageId != Some(newId)
    && s.workers[w].copy.messageId == Some(newId)
    && (forall v <- s.workers :: s.workers[v].Past() ==> s.workers[v].msg != newId)
    && (forall v <- s.workers :: v != w && s.workers[v].Written? ==> s.workers[v].newId != newId)
  }

  lemma HandoverStep(s: State, step: Step, t: TaskId)
    requires Handover(s, t) && Enabled(s, step)
    ensures Handover(Do(s, step), t)
  {
    var s' := Do(s, step);
    BodiesKept(s, step);
    if step.Put? {
      assert PendingId(s, t, step.w) || s.At(step.w).task != t;
    }
    forall w | w in s'.workers && s'.workers[w].Written? && s'.workers[w].task == t
      ensures PendingId(s', t, w)
    {
      PendingKept(s, step, t, w);
    }
  }

  lemma BodiesKept(s: State, step: Step)
    requires Bodies(s) && Enabled(s, step)
    ensures Bodies(Do(s, step))
  {
  }

  /** The id that a worker is about to save stays its own. */
  lemma PendingKept(s: State, step: Step, t: TaskId, w: WorkerId)
    requires Handover(s, t) && Enabled(s, step)
    requires var p := Do(s, step).At(w); p.Written? && p.task == t
    ensures PendingId(Do(s, step), t, w)
  {
    assert (step.Write? && step.w == w) || PendingId(s, t, w);
    assert step.Put? ==> PendingId(s, t, step.w) || s.At(step.w).task != t;
  }

  lemma {:induction false} HandoverRun(s: State, steps: seq<Step>, t: TaskId)
    requires Handover(s, t) && ValidRun(s, steps)
    ensures Handover(Run(s, steps), t)
    decreases |steps|
  {
    if steps == [] {
    } else {
      HandoverStep(s, steps[0], t);
      HandoverRun(Do(s, steps[0]), steps[1..], t);
    }
  }

  predicate Untouched(s: State, t: TaskId) {
    && Dormant(s, t)
    && Bodies(s)
    && forall w <- s.workers :: !s.workers[w].Idle? ==> s.issued[s.workers[w].msg] != t
  }

  lemma {:induction false} DormantRun(s: State, steps: seq<Step>, t: TaskId)
    requires Untouched(s, t) && ValidRun(s, steps)
    ensures Untouched(Run(s, steps), t)
    decreases |steps|
  {
    if steps == [] {
    } else {
      BodiesKept(s, steps[0]);
      DormantRun(Do(s, steps[0]), steps[1..], t);
    }
  }

  /** `t` is not lost in any state of any run. */
  ghost predicate NeverLost(s: State, t: TaskId) {
    forall steps: seq<Step> :: ValidRun(s, steps) ==> NotLost(Run(s, steps), t)
  }

  /** A task survives every interleaving of workers, crashes and duplicate deliveries exactly when
      polling begins after its `start` has completed, or with no message for it at all. */
  lemma NeverLostIff(s: State, t: TaskId)
    requires Initial(s) && t in s.store && ValidHour(s.store[t].hour)
    ensures NeverLost(s, t) <==> HasStarted(s, t) || Dormant(s, t)
  {
    if HasStarted(s, t) || Dormant(s, t) {
      forall steps: seq<Step> | ValidRun(s, steps)
        ensures NotLost(Run(s, steps), t)
      {
        if HasStarted(s, t) {
          HandoverRun(s, steps, t);
        } else {
          DormantRun(s, steps, t);
        }
      }
    } else if s.store[t].messageId.Some? {
      assert ValidRun(s, []) && !NotLost(Run(s, []), t);
    } else {
      var m :| m in s.queue && m in s.issued && s.issued[m] == t;
      var steps := LosingRun(s, t, m);
      assert ValidRun(s, steps) && !NotLost(Run(s, steps), t);
    }
  }

  // ---- Building runs -----------------------------------------------------------------

  ghost predicate Reaches(s: State, steps: seq<Step>, end: State) {
    ValidRun(s, steps) && Run(s, steps) == end
  }

  lemma {:induction false} Then(s: State, steps: seq<Step>, mid: State, more: seq<Step>, end: State)
    requires Reaches(s, steps, mid) && Reaches(mid, more, end)
    ensures Reaches(s, steps + more, end)
    ensures ExclusiveRun(s, steps) && ExclusiveRun(mid, more) ==> ExclusiveRun(s, steps + more)
    decreases |steps|
  {
    if steps == [] {
      assert steps + more == more;
    } else {
      Then(Do(s, steps[0]), steps[1..], mid, more, end);
      assert (steps + more)[1..] == steps[1..] + more;
    }
  }

  lemma One(s: State, step: Step)
    requires Enabled(s, step)
    ensures Reaches(s, [step], Do(s, step))
    ensures ExclusiveRun(s, [step]) <==> Exclusive(s, step)
  {
  }

  /** The task is due now, and a message naming it will be accepted. */
  predicate Ready(s: State, t: TaskId, m: MsgId) {
    && t in s.store && m in s.queue && m in s.issued && s.issued[m] == t
    && (s.store[t].messageId.None? || s.store[t].messageId == Some(m))
    && Check(s.store[t].hour, s.store[t].lastExecuted, s.clock) == 0
  }

  function StartedBy(s: State, w: WorkerId, t: TaskId, m: MsgId): State
    requires t in s.store
  {
    s.Move(w, Running(m, t, s.store[t], s.clock, |s.history|))
    .(history := s.history + [Execution(t, s.clock, s.clock, false)])
  }

  lemma StartRun(s: State, w: WorkerId, t: TaskId, m: MsgId) returns (steps: seq<Step>)
    requires Ready(s, t, m) && s.At(w).Idle?
    ensures Reaches(s, steps, StartedBy(s, w, t, m))
    ensures Exclusive(s, Read(w, m)) ==> ExclusiveRun(s, steps)
  {
    var s1 := Do(s, Read(w, m));
    One(s, Read(w, m));
    var s2 := Do(s1, Load(w));
    One(s1, Load(w));
    One(s2, Decide(w));
    var s3 := StartedBy(s, w, t, m);
    assert Do(s2, Decide(w)) == s3 by {
      assert s2.workers[w := s3.workers[w]] == s3.workers;
    }
    Then(s, [Read(w, m)], s1, [Load(w)], s2);
    Then(s, [Read(w, m)] + [Load(w)], s2, [Decide(w)], s3);
    steps := [Read(w, m)] + [Load(w)] + [Decide(w)];
  }

  function WrittenBy(s: State, w: WorkerId, t: TaskId, m: MsgId, id: MsgId): State
    requires t in s.store
  {
    var copy := s.store[t].(lastExecuted := Some(s.clock), messageId := Some(id));
    StartedBy(s, w, t, m)
    .(workers := s.workers[w := Written(m, t, copy, s.clock, |s.history|, id)],
      queue := s.queue + {id}, issued := s.issued[id := t])
  }

  lemma WriteRun(s: State, w: WorkerId, t: TaskId, m: MsgId, id: MsgId) returns (steps: seq<Step>)
    requires Ready(s, t, m) && s.At(w).Idle? && id !in s.issued
    ensures Reaches(s, steps, WrittenBy(s, w, t, m, id))
    ensures Exclusive(s, Read(w, m)) ==> ExclusiveRun(s, steps)
  {
    var start := StartRun(s, w, t, m);
    var s1 := StartedBy(s, w, t, m);
    One(s1, Finish(w));
    var s2 := Do(s1, Finish(w));
    One(s2, Write(w, id));
    var s3 := WrittenBy(s, w, t, m, id);
    assert Do(s2, Write(w, id)) == s3 by {
      assert s2.workers[w := s3.workers[w]] == s3.workers;
    }
    Then(s, start, s1, [Finish(w)], s2);
    Then(s, start + [Finish(w)], s2, [Write(w, id)], s3);
    steps := start + [Finish(w)] + [Write(w, id)];
  }

  /** With no id saved, a second worker accepts the message the first has just written, replaces
      it, and the first then saves the id of a deleted message. */
  lemma LosingRun(s: State, t: TaskId, m: MsgId) returns (steps: seq<Step>)
    requires Initial(s) && t in s.store && ValidHour(s.store[t].hour)
    requires s.store[t].messageId.None? && m in s.queue && s.issued[m] == t
    ensures ValidRun(s, steps) && !NotLost(Run(s, steps), t)
  {
    var now := FallsDue(s.store[t].hour, s.store[t].lastExecuted, s.clock);
    var a := Unissued(s.issued.Keys);
    var b := Unissued(s.issued.Keys + {a});
    One(s, Tick(now));
    var s1 := Do(s, Tick(now));
    var first := WriteRun(s1, 0, t, m, a);
    var s2 := WrittenBy(s1, 0, t, m, a);
    var second := WriteRun(s2, 1, t, a, b);
    var s3 := WrittenBy(s2, 1, t, a, b);
    One(s3, Put(1));
    var s4 := Do(s3, Put(1));
    One(s4, Delete(1));
    var s5 := Do(s4, Delete(1));
    One(s5, Put(0));
    var s6 := Do(s5, Put(0));
    Then(s, [Tick(now)], s1, first, s2);
    Then(s, [Tick(now)] + first, s2, second, s3);
    Then(s, [Tick(now)] + first + second, s3, [Put(1)], s4);
    Then(s, [Tick(now)] + first + second + [Put(1)], s4, [Delete(1)], s5);
    Then(s, [Tick(now)] + first + second + [Put(1)] + [Delete(1)], s5, [Put(0)], s6);
    steps := [Tick(now)] + first + second + [Put(1)] + [Delete(1)] + [Put(0)];
    assert s6.store[t].messageId == Some(a) && a !in s6.queue;
  }

  lemma Unissued(ids: set<MsgId>) returns (id: MsgId)
    ensures id !in ids
  {
    if ids == {} {
      id := 0;
    } else {
      var top := Largest(ids);
      id := top + 1;
    }
  }

  lemma Largest(ids: set<MsgId>) returns (top: MsgId)
    requires ids != {}
    ensures top in ids && forall i <- ids :: i <= top
  {
    var x :| x in ids;
    top := x;
    if i :| i in ids && i > x {
      assert i in ids - {x};
      top := Largest(ids - {x});
      assert forall j <- ids :: j == x || j in ids - {x};
    }
  }

  // ---- Exclusive delivery: a command never runs twice at once ------------------------

  predicate OneHolder(s: State) {
    forall v <- s.workers, w <- s.workers :: v != w && !s.workers[v].Idle? && !s.workers[w].Idle? ==>
      s.workers[v].msg != s.workers[w].msg
  }

  /** Every worker in the critical section of `t` holds the message whose id is saved. */
  predicate HoldsSavedId(s: State, t: TaskId) {
    t in s.store &&
    forall w <- s.workers :: s.workers[w].Critical() && s.workers[w].task == t ==>
      s.store[t].messageId == Some(s.workers[w].msg)
  }

  predicate MutualExclusion(s: State, t: TaskId) {
    Handover(s, t) && OneHolder(s) && HoldsSavedId(s, t)
  }

  lemma ExclusionStep(s: State, step: Step, t: TaskId)
    requires MutualExclusion(s, t) && Enabled(s, step) && Exclusive(s, step)
    ensures MutualExclusion(Do(s, step), t)
  {
    HandoverStep(s, step, t);
  }

  lemma {:induction false} ExclusionRun(s: State, steps: seq<Step>, t: TaskId)
    requires MutualExclusion(s, t) && ValidRun(s, steps) && ExclusiveRun(s, steps)
    ensures MutualExclusion(Run(s, steps), t)
    decreases |steps|
  {
    if steps == [] {
    } else {
      ExclusionStep(s, steps[0], t);
      ExclusionRun(Do(s, steps[0]), steps[1..], t);
    }
  }

  /** Under exclusive delivery, two workers are never both between the id comparison and the save
      of one started task. */
  lemma AtMostOneCritical(s: State, steps: seq<Step>, t: TaskId, v: WorkerId, w: WorkerId)
    requires Initial(s) && HasStarted(s, t)
    requires ValidRun(s, steps) && ExclusiveRun(s, steps)
    requires var end := Run(s, steps);
             && end.At(v).Critical() && end.At(v).task == t
             && end.At(w).Critical() && end.At(w).task == t
    ensures v == w
  {
    ExclusionRun(s, steps, t);
  }

  /** No message can be accepted for `t`: the saved id is not that of a queued message of `t`. */
  predicate Unreachable(s: State, t: TaskId) {
    && t in s.store && s.store[t].messageId.Some? && Bodies(s)
    && (forall w <- s.workers :: s.workers[w].Past() ==> s.workers[w].task != t)
    && var id := s.store[t].messageId.value;
       id in s.issued && s.issued[id] == t ==>
         id !in s.queue && forall w <- s.workers :: !s.workers[w].Idle? ==> s.workers[w].msg != id
  }

  lemma UnreachableStep(s: State, step: Step, t: TaskId)
    requires Unreachable(s, t) && Enabled(s, step)
    ensures Unreachable(Do(s, step), t)
  {
    BodiesKept(s, step);
  }

  lemma {:induction false} UnreachableRun(s: State, steps: seq<Step>, t: TaskId)
    requires Unreachable(s, t) && ValidRun(s, steps)
    ensures Unreachable(Run(s, steps), t)
    decreases |steps|
  {
    if steps == [] {
    } else {
      UnreachableStep(s, steps[0], t);
      UnreachableRun(Do(s, steps[0]), steps[1..], t);
    }
  }

  predicate InSection(s: State, w: WorkerId, t: TaskId) {
    s.At(w).Critical() && s.At(w).task == t
  }

  ghost predicate AlwaysExcludes(s: State, t: TaskId) {
    forall steps: seq<Step>, v, w ::
      ValidRun(s, steps) && ExclusiveRun(s, steps)
      && InSection(Run(s, steps), v, t) && InSection(Run(s, steps), w, t) ==>
        v == w
  }

  /** Under exclusive delivery two workers are never both between the id comparison and the save of a task,
      exactly when polling begins with an id saved for it or with no message of it queued. */
  lemma ExclusionIff(s: State, t: TaskId)
    requires Initial(s) && t in s.store && ValidHour(s.store[t].hour)
    ensures AlwaysExcludes(s, t) <==> s.store[t].messageId.Some? || Dormant(s, t)
  {
    if s.store[t].messageId.Some? || Dormant(s, t) {
      forall steps: seq<Step>, v, w | ValidRun(s, steps) && ExclusiveRun(s, steps)
                                      && InSection(Run(s, steps), v, t) && InSection(Run(s, steps), w, t)
        ensures v == w
      {
        if HasStarted(s, t) {
          AtMostOneCritical(s, steps, t, v, w);
        } else if s.store[t].messageId.Some? {
          UnreachableRun(s, steps, t);
        } else {
          DormantRun(s, steps, t);
        }
      }
    } else {
      var m :| m in s.queue && m in s.issued && s.issued[m] == t;
      var steps := OverlappingRun(s, t, m);
      assert InSection(Run(s, steps), 0, t) && InSection(Run(s, steps), 1, t);
    }
  }

  /** With no id saved, a second worker accepts the message that the first has written and not yet saved. */
  lemma OverlappingRun(s: State, t: TaskId, m: MsgId) returns (steps: seq<Step>)
    requires Initial(s) && t in s.store && ValidHour(s.store[t].hour)
    requires s.store[t].messageId.None? && m in s.queue && s.issued[m] == t
    ensures ValidRun(s, steps) && ExclusiveRun(s, steps)
    ensures forall w <- [0, 1] :: InSection(Run(s, steps), w, t)
  {
    var now := FallsDue(s.store[t].hour, s.store[t].lastExecuted, s.clock);
    var id := Unissued(s.issued.Keys);
    One(s, Tick(now));
    var s1 := Do(s, Tick(now));
    var first := WriteRun(s1, 0, t, m, id);
    var s2 := WrittenBy(s1, 0, t, m, id);
    var second := StartRun(s2, 1, t, id);
    var s3 := StartedBy(s2, 1, t, id);
    Then(s, [Tick(now)], s1, first, s2);
    Then(s, [Tick(now)] + first, s2, second, s3);
    steps := [Tick(now)] + first + second;
  }

  /** The queue's promise is needed: with duplicate delivery every started task has a run in which
      two workers run its command at the same time. */
  lemma DuplicateDeliveryOverlaps(s: State, t: TaskId) returns (steps: seq<Step>)
    requires Initial(s) && HasStarted(s, t) && ValidHour(s.store[t].hour)
    ensures ValidRun(s, steps)
    ensures forall w <- [0, 1] :: Run(s, steps).At(w).Running? && Run(s, steps).At(w).task == t
  {
    var m := s.store[t].messageId.value;
    var now := FallsDue(s.store[t].hour, s.store[t].lastExecuted, s.clock);
    One(s, Tick(now));
    var s1 := Do(s, Tick(now));
    var first := StartRun(s1, 0, t, m);
    var s2 := StartedBy(s1, 0, t, m);
    var second := StartRun(s2, 1, t, m);
    var s3 := StartedBy(s2, 1, t, m);
    Then(s, [Tick(now)], s1, first, s2);
    Then(s, [Tick(now)] + first, s2, second, s3);
    steps := [Tick(now)] + first + second;
  }
}
