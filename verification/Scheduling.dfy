/**
 * Who wakes whom (db/db_impl.cc): background work is scheduled whenever there is some to do, every thread waiting for
 * background_work_finished_signal_ has a job outstanding that will signal it, and the jobs do the work there is.
 */
module Scheduling {
  import opened Wrappers

  const L0_COMPACTION_TRIGGER := 4
  const L0_STOP_WRITES_TRIGGER := 12

  /** What a background call found to do, and has not done yet. */
  datatype Task = Nothing | FlushMemTable | Manual(request: nat) | Automatic

  datatype State = State(
    imm: bool,                   // imm_ != nullptr
    manual: Option<nat>,         // manual_compaction_, as the number of the request it belongs to
    needs: bool,                 // versions_->NeedsCompaction()
    levelZero: nat,              // versions_->NumLevelFiles(0)
    scheduled: bool,             // background_compaction_scheduled_
    queued: nat,                 // calls handed to the environment that have not started
    running: seq<Task>,          // background calls under way
    bgError: bool,
    shuttingDown: bool,
    asleep: set<nat>)            // threads waiting for background_work_finished_signal_

  datatype Step =
    | SwitchMemTable
    | WaitForRoom(thread: nat)
    | WaitForFlush(thread: nat)
    | StartManual(thread: nat)
    | WaitForManual(thread: nat)
    | CancelManual(request: nat)
    | ReadSample
    | WriterError
    | ShutDown
    | JobBegins
    | Flushed(job: nat, ok: bool, needs: bool, levelZero: nat)
    | Compacted(job: nat, ok: bool, needs: bool, levelZero: nat)
    | JobEnds(job: nat)

  function MaybeScheduleCompaction(s: State): State {
    if s.scheduled then s
    else if s.shuttingDown then s
    else if s.bgError then s
    else if !s.imm && s.manual.None? && !s.needs then s
    else s.(scheduled := true, queued := s.queued + 1)
  }

  function RecordBackgroundError(s: State): State {
    if s.bgError then s else s.(bgError := true, asleep := {})
  }

  function Sleeps(s: State, thread: nat): State {
    s.(asleep := s.asleep + {thread})
  }

  /** What BackgroundCall and BackgroundCompaction choose to do. */
  function Chosen(s: State): Task {
    if s.shuttingDown || s.bgError then Nothing
    else if s.imm then FlushMemTable
    else if s.manual.Some? then Manual(s.manual.value)
    else Automatic
  }

  /** A version edit has been applied: level sizes are weighed anew, and four tables in level 0 weigh enough. */
  predicate Finalized(needs: bool, levelZero: nat) {
    levelZero >= L0_COMPACTION_TRIGGER ==> needs
  }

  predicate Next(s: State, step: Step, s': State) {
    match step
    case SwitchMemTable =>
      !s.bgError && !s.imm && s.levelZero < L0_STOP_WRITES_TRIGGER && s' == MaybeScheduleCompaction(s.(imm := true))
    case WaitForRoom(thread) =>
      !s.bgError && (s.imm || s.levelZero >= L0_STOP_WRITES_TRIGGER) && s' == Sleeps(s, thread)
    case WaitForFlush(thread) => s.imm && !s.bgError && s' == Sleeps(s, thread)
    case StartManual(thread) =>
      && !s.shuttingDown && !s.bgError && s.manual.None?
      && s' == Sleeps(MaybeScheduleCompaction(s.(manual := Some(thread))), thread)
    case WaitForManual(thread) => !s.shuttingDown && !s.bgError && s.manual.Some? && s' == Sleeps(s, thread)
    case CancelManual(request) =>
      (s.shuttingDown || s.bgError) && s.manual == Some(request) && s' == s.(manual := None)
    case ReadSample => s' == MaybeScheduleCompaction(s.(needs := true))
    case WriterError => s' == RecordBackgroundError(s)
    case ShutDown => s' == s.(shuttingDown := true)
    case JobBegins =>
      s.queued > 0 && s' == s.(queued := s.queued - 1, running := s.running + [Chosen(s)])
    case Flushed(job, ok, needs, levelZero) =>
      && job < |s.running| && s.running[job] != Nothing && s.imm && Finalized(needs, levelZero)
      && s' == if ok then AfterFlush(s.(imm := false, needs := needs, levelZero := levelZero), job)
               else AfterFlush(RecordBackgroundError(s), job)
    case Compacted(job, ok, needs, levelZero) =>
      && job < |s.running| && s.running[job] !in {Nothing, FlushMemTable} && Finalized(needs, levelZero)
      && s' == if ok then s.(needs := needs, levelZero := levelZero) else RecordBackgroundError(s)
    case JobEnds(job) =>
      && job < |s.running| && !s.running[job].FlushMemTable?
      && s' == Ended(s, job)
  }

  /** A compaction that flushed a memtable on the way signals at once; a flush job has only its end left, which does. */
  function AfterFlush(s: State, job: nat): State
    requires job < |s.running|
  {
    if s.running[job].FlushMemTable? then s.(running := s.running[job := Nothing]) else s.(asleep := {})
  }

  /** A manual compaction is taken off, more work is scheduled if there is any, and everyone waiting is signalled. */
  function Ended(s: State, job: nat): State
    requires job < |s.running|
  {
    var t := s.(running := s.running[..job] + s.running[job + 1..],
                manual := if s.running[job].Manual? then None else s.manual,
                scheduled := false);
    MaybeScheduleCompaction(t).(asleep := {})
  }

  /** A database just opened schedules what its recovered version needs. */
  function Opened(needs: bool, levelZero: nat): State {
    MaybeScheduleCompaction(State(false, None, needs, levelZero, false, 0, [], false, false, {}))
  }

  // ----- Whenever the mutex is free -----

  predicate WorkToDo(s: State) {
    s.imm || s.manual.Some? || s.needs
  }

  ghost predicate Ok(s: State) {
    && s.queued + |s.running| == (if s.scheduled then 1 else 0)
    && (!s.shuttingDown && !s.bgError && WorkToDo(s) ==> s.scheduled)
    && (!s.shuttingDown && s.asleep != {} ==> s.scheduled && !s.bgError)
    && Finalized(s.needs, s.levelZero)
    && ManualOk(s)
    && (s.running != [] && s.running[0].FlushMemTable? ==> s.imm)
  }

  /** The job's manual compaction is still the registered one, unless an error or a shutdown let its owner withdraw. */
  ghost predicate ManualOk(s: State) {
    s.running != [] && s.running[0].Manual? ==>
      s.manual == Some(s.running[0].request) || (s.manual == None && (s.bgError || s.shuttingDown))
  }

  lemma NextIsOk(s: State, step: Step, s': State)
    requires Ok(s) && Next(s, step, s')
    ensures Ok(s')
  {
    if step.JobEnds? {
      hide Next;
      EndedIsOk(s, step, s');
    } else if step.JobBegins? {
      BegunIsOk(s);
    } else if step.Flushed? || step.Compacted? {
      hide Next;
      VersionChangedIsOk(s, step, s');
    } else {
      hide Next;
      ThreadStepIsOk(s, step, s');
    }
  }

  lemma VersionChangedIsOk(s: State, step: Step, s': State)
    requires Ok(s) && (step.Flushed? || step.Compacted?) && Next(s, step, s')
    ensures Ok(s')
  {
    hide Ended, Chosen, MaybeScheduleCompaction;
    assert step.job == 0 && |s.running| == 1 && s.scheduled;
    assert s'.queued == s.queued && s'.manual == s.manual && s'.scheduled;
    assert |s'.running| == 1 && (s'.running == s.running || s'.running[0] == Nothing);
  }

  lemma ThreadStepIsOk(s: State, step: Step, s': State)
    requires Ok(s) && !step.JobEnds? && !step.JobBegins? && !step.Flushed? && !step.Compacted? && Next(s, step, s')
    ensures Ok(s')
  {
    hide Ended, Chosen;
  }

  lemma BegunIsOk(s: State)
    requires Ok(s) && s.queued > 0
    ensures Ok(s.(queued := s.queued - 1, running := s.running + [Chosen(s)]))
  {
    assert s.running == [];
  }

  /** A job can only end when it is the one outstanding. */
  lemma EndedIsOk(s: State, step: Step, s': State)
    requires Ok(s) && step.JobEnds? && Next(s, step, s')
    ensures Ok(s')
  {
    assert step.job == 0 && s.running[..0] + s.running[1..] == [];
  }

  ghost predicate StepAt(states: seq<State>, steps: seq<Step>, k: nat)
    requires |states| == |steps| + 1 && k < |steps|
  {
    Next(states[k], steps[k], states[k + 1])
  }

  ghost predicate Run(states: seq<State>, steps: seq<Step>) {
    && |states| == |steps| + 1
    && (exists needs, levelZero :: Finalized(needs, levelZero) && states[0] == Opened(needs, levelZero))
    && forall k :: 0 <= k < |steps| ==> StepAt(states, steps, k)
  }

  lemma {:induction false} RunIsOk(states: seq<State>, steps: seq<Step>, k: nat)
    requires Run(states, steps) && k < |states|
    ensures Ok(states[k])
  {
    hide Next;
    if k > 0 {
      RunIsOk(states, steps, k - 1);
      assert StepAt(states, steps, k - 1);
      hide Ok;
      NextIsOk(states[k - 1], steps[k - 1], states[k]);
    }
  }

  /**
   * In every run, short of shutdown and background errors, pending work means that exactly one background call is
   * outstanding; and whoever waits, for whatever reason, waits while one is.
   */
  lemma NoWaiterWithoutWaker(states: seq<State>, steps: seq<Step>, k: nat)
    requires Run(states, steps) && k < |states| && !states[k].shuttingDown
    ensures !states[k].bgError && WorkToDo(states[k]) ==> states[k].queued + |states[k].running| == 1
    ensures states[k].asleep != {} ==> states[k].queued + |states[k].running| == 1
    ensures states[k].queued + |states[k].running| <= 1
  {
    RunIsOk(states, steps, k);
  }

  /**
   * Short of an error a writer with a full memtable either switches to a new one or waits: it waits for the flush of an
   * older one, and with twelve tables in level 0; with four of them a compaction is needed, so it never waits in vain.
   */
  lemma RoomOrWait(s: State, thread: nat)
    requires Ok(s) && !s.bgError
    ensures (exists s' :: Next(s, SwitchMemTable, s')) <==> !s.imm && s.levelZero < 12
    ensures (exists s' :: Next(s, WaitForRoom(thread), s')) <==> s.imm || s.levelZero >= 12
    ensures s.levelZero >= 4 ==> s.needs
    ensures (exists s' :: Next(s, WaitForRoom(thread), s')) && !s.shuttingDown ==> s.scheduled
  {
    if !s.imm && s.levelZero < 12 { assert Next(s, SwitchMemTable, MaybeScheduleCompaction(s.(imm := true))); }
    if s.imm || s.levelZero >= 12 { assert Next(s, WaitForRoom(thread), Sleeps(s, thread)); }
  }

  // ----- What the jobs get done -----

  predicate JobStep(step: Step) {
    step.JobBegins? || step.Flushed? || step.Compacted? || step.JobEnds?
  }

  /** Steps of background calls only, from s on. */
  ghost predicate JobRun(s: State, states: seq<State>, steps: seq<Step>) {
    && |states| == |steps| + 1 && states[0] == s
    && forall k :: 0 <= k < |steps| ==> StepAt(states, steps, k) && JobStep(steps[k])
  }

  predicate Healthy(s: State) {
    !s.shuttingDown && !s.bgError
  }

  lemma Stay(s: State) returns (states: seq<State>, steps: seq<Step>)
    ensures JobRun(s, states, steps) && steps == [] && states[|steps|] == s
  {
    states, steps := [s], [];
  }

  lemma OneMore(s: State, states: seq<State>, steps: seq<Step>, step: Step, t: State)
    requires JobRun(s, states, steps) && JobStep(step) && Next(states[|steps|], step, t)
    ensures JobRun(s, states + [t], steps + [step])
  {
    hide Next;
    var states', steps' := states + [t], steps + [step];
    forall k | 0 <= k < |steps'| ensures StepAt(states', steps', k) && JobStep(steps'[k]) {
      assert k < |steps| ==> StepAt(states, steps, k);
    }
  }

  /**
   * The call under way comes to its end, having flushed if that was its task and taken off the manual compaction if
   * that was; everybody is awake then, and a new call is scheduled if there is work.
   */
  lemma CallEnds(s: State) returns (states: seq<State>, steps: seq<Step>, t: State)
    requires Ok(s) && s.running != []
    ensures JobRun(s, states, steps) && t == states[|steps|] && Ok(t) && t.running == [] && t.asleep == {}
    ensures t.bgError == s.bgError && t.shuttingDown == s.shuttingDown && t.needs == s.needs
    ensures t.imm == (s.imm && !s.running[0].FlushMemTable?)
    ensures t.manual == if s.running[0].Manual? then None else s.manual
  {
    states, steps := Stay(s);
    t := s;
    if s.running[0].FlushMemTable? {
      var flushed := AfterFlush(s.(imm := false), 0);
      NextIsOk(s, Flushed(0, true, s.needs, s.levelZero), flushed);
      OneMore(s, states, steps, Flushed(0, true, s.needs, s.levelZero), flushed);
      states, steps, t := states + [flushed], steps + [Flushed(0, true, s.needs, s.levelZero)], flushed;
    }
    var ended := Ended(t, 0);
    NextIsOk(t, JobEnds(0), ended);
    OneMore(s, states, steps, JobEnds(0), ended);
    states, steps, t := states + [ended], steps + [JobEnds(0)], ended;
  }

  /** The call that is scheduled begins. */
  lemma CallBegins(s: State) returns (states: seq<State>, steps: seq<Step>, t: State)
    requires Ok(s) && s.running == [] && s.scheduled
    ensures JobRun(s, states, steps) && t == states[|steps|] && Ok(t)
    ensures t == s.(queued := 0, running := [Chosen(s)])
  {
    states, steps := Stay(s);
    t := s.(queued := s.queued - 1, running := s.running + [Chosen(s)]);
    NextIsOk(s, JobBegins, t);
    OneMore(s, states, steps, JobBegins, t);
    states, steps := states + [t], steps + [JobBegins];
  }

  lemma {:induction false} Joined(s: State, a: seq<State>, as_: seq<Step>, b: seq<State>, bs: seq<Step>)
    requires JobRun(s, a, as_) && JobRun(a[|as_|], b, bs)
    ensures JobRun(s, a + b[1..], as_ + bs) && (a + b[1..])[|as_ + bs|] == b[|bs|]
    ensures forall k :: 0 <= k < |a| ==> (a + b[1..])[k] == a[k]
    ensures forall k :: 0 <= k < |b| ==> (a + b[1..])[|as_| + k] == b[k]
  {
    hide Next;
    var c, cs := a + b[1..], as_ + bs;
    forall k | 0 <= k < |cs| ensures StepAt(c, cs, k) && JobStep(cs[k]) {
      if k < |as_| { assert StepAt(a, as_, k); } else { assert StepAt(b, bs, k - |as_|); }
    }
  }

  /**
   * The outstanding call, when it has begun, flushed the memtable if it is a flush, and ended, has woken everybody;
   * nobody else's help is needed.
   */
  lemma WaitersWake(s: State) returns (states: seq<State>, steps: seq<Step>)
    requires Ok(s) && !s.shuttingDown && s.asleep != {}
    ensures JobRun(s, states, steps) && states[|steps|].asleep == {}
  {
    hide Ok, Next;
    states, steps := Stay(s);
    var t := s;
    assert s.scheduled by { CallOutstanding(s); }
    if s.running == [] {
      states, steps, t := CallBegins(s);
    }
    var more, moreSteps, end := CallEnds(t);
    Joined(s, states, steps, more, moreSteps);
    states, steps := states + more[1..], steps + moreSteps;
  }

  lemma CallOutstanding(s: State)
    requires Ok(s) && !s.shuttingDown
    ensures s.asleep != {} || (WorkToDo(s) && !s.bgError) ==> s.scheduled
  {
  }

  /** From any state with work to do, calls end and begin until one has taken up the most urgent of it. */
  lemma WorkTakenUp(s: State) returns (states: seq<State>, steps: seq<Step>, t: State)
    requires Ok(s) && Healthy(s) && s.running == [] && WorkToDo(s)
    ensures JobRun(s, states, steps) && t == states[|steps|] && Ok(t) && Healthy(t)
    ensures t.imm == s.imm && t.manual == s.manual && t.needs == s.needs
    ensures |t.running| == 1 && !t.running[0].Nothing?
    ensures s.imm ==> t.running[0].FlushMemTable?
    ensures !s.imm && s.manual.Some? ==> t.running[0] == Manual(s.manual.value)
    ensures !s.imm && s.manual.None? ==> t.running[0].Automatic?
  {
    CallOutstanding(s);
    hide Ok, Next;
    states, steps, t := CallBegins(s);
  }

  /** A full memtable gets flushed, by background calls alone. */
  lemma MemTableGetsFlushed(s: State) returns (states: seq<State>, steps: seq<Step>, t: State)
    requires Ok(s) && Healthy(s) && s.imm
    ensures JobRun(s, states, steps) && t == states[|steps|] && Ok(t) && Healthy(t) && !t.imm && t.running == []
    ensures t.needs == s.needs
    ensures t.manual == if s.running != [] && s.running[0].Manual? then None else s.manual
  {
    hide Ok, Next;
    states, steps := Stay(s);
    t := s;
    if s.running != [] {
      states, steps, t := CallEnds(s);
    }
    if t.imm {
      var begun, beginning, u := WorkTakenUp(t);
      Joined(s, states, steps, begun, beginning);
      var ended, ending, v := CallEnds(u);
      Joined(s, states + begun[1..], steps + beginning, ended, ending);
      states, steps, t := states + begun[1..] + ended[1..], steps + beginning + ending, v;
    }
  }

  /** With no memtable to flush, and no call under way. */
  lemma ComesToRest(s: State) returns (states: seq<State>, steps: seq<Step>, t: State)
    requires Ok(s) && Healthy(s)
    ensures JobRun(s, states, steps) && t == states[|steps|] && Ok(t) && Healthy(t) && !t.imm && t.running == []
    ensures t.needs == s.needs
    ensures t.manual == if s.running != [] && s.running[0].Manual? then None else s.manual
  {
    hide Ok, Next;
    if s.imm {
      states, steps, t := MemTableGetsFlushed(s);
    } else if s.running != [] {
      states, steps, t := CallEnds(s);
    } else {
      states, steps := Stay(s);
      t := s;
    }
  }

  /** A manual compaction is taken up, and taken off when that call has ended. */
  lemma ManualGetsDone(s: State) returns (states: seq<State>, steps: seq<Step>, k: nat)
    requires Ok(s) && Healthy(s) && s.manual.Some?
    ensures JobRun(s, states, steps) && k <= |steps|
    ensures states[k].running == [Manual(s.manual.value)] && states[|steps|].manual == None
  {
    if s.running != [] && s.running[0].Manual? {
      var ended;
      states, steps, ended := CallEnds(s);
      k := 0;
    } else {
      hide Ok, Next;
      var t, u;
      states, steps, t := ComesToRest(s);
      var begun, beginning;
      begun, beginning, u := WorkTakenUp(t);
      Joined(s, states, steps, begun, beginning);
      k := |steps + beginning|;
      var ended, ending, v := CallEnds(u);
      Joined(s, states + begun[1..], steps + beginning, ended, ending);
      states, steps := states + begun[1..] + ended[1..], steps + beginning + ending;
    }
  }

  /** What a level needs gets done: a call takes up a compaction and may install its result. */
  lemma CompactionGetsDone(s: State, needs: bool, levelZero: nat) returns (states: seq<State>, steps: seq<Step>)
    requires Ok(s) && Healthy(s) && s.needs && Finalized(needs, levelZero)
    ensures JobRun(s, states, steps) && steps != [] && steps[|steps| - 1].Compacted?
    ensures states[|steps|].needs == needs && states[|steps|].levelZero == levelZero && Healthy(states[|steps|])
  {
    hide Ok, Next;
    var t, u;
    states, steps, t := ComesToRest(s);
    var begun, beginning;
    begun, beginning, u := WorkTakenUp(t);
    Joined(s, states, steps, begun, beginning);
    states, steps := states + begun[1..], steps + beginning;
    var v := u.(needs := needs, levelZero := levelZero);
    assert Next(u, Compacted(0, true, needs, levelZero), v) by { MayCompact(u, needs, levelZero); }
    OneMore(s, states, steps, Compacted(0, true, needs, levelZero), v);
    states, steps := states + [v], steps + [Compacted(0, true, needs, levelZero)];
  }

  lemma MayCompact(s: State, needs: bool, levelZero: nat)
    requires |s.running| == 1 && s.running[0] !in {Nothing, FlushMemTable} && Finalized(needs, levelZero)
    ensures Next(s, Compacted(0, true, needs, levelZero), s.(needs := needs, levelZero := levelZero))
  {
  }

  /** Whichever way a call begins while there is a memtable to flush: flushing it is what it does. */
  lemma BegunFlushes(s: State, t: State, needs: bool, levelZero: nat) returns (u: State)
    requires Ok(s) && Healthy(s) && s.imm && Next(s, JobBegins, t) && Finalized(needs, levelZero)
    ensures Next(t, Flushed(0, true, needs, levelZero), u) && !u.imm
    ensures forall u' :: !Next(t, JobEnds(0), u')
  {
    u := AfterFlush(t.(imm := false, needs := needs, levelZero := levelZero), 0);
  }

  /** In every run such a call does not end before it has flushed the memtable, or failed to. */
  lemma FlushBeforeEnd(states: seq<State>, steps: seq<Step>, k: nat, m: nat) returns (j: nat)
    requires Run(states, steps) && k < m < |steps|
    requires steps[k].JobBegins? && states[k].imm && Healthy(states[k]) && steps[m].JobEnds?
    ensures k < j < m && steps[j].Flushed?
    ensures steps[j].ok ==> !states[j + 1].imm
    ensures !steps[j].ok ==> states[j + 1].bgError
  {
    hide Ok, Next;
    RunIsOk(states, steps, k);
    assert StepAt(states, steps, k);
    assert Pending(states[k + 1]) by { BegunIsPending(states[k], states[k + 1]); }
    j := FindFlush(states, steps, k + 1, m);
    assert StepAt(states, steps, j);
    FlushShows(states[j], steps[j], states[j + 1]);
  }

  /** The one call under way is to flush the memtable. */
  ghost predicate Pending(s: State) {
    s.running == [FlushMemTable] && s.imm
  }

  lemma BegunIsPending(s: State, t: State)
    requires Ok(s) && Healthy(s) && s.imm && Next(s, JobBegins, t)
    ensures Pending(t)
  {
  }

  lemma FlushShows(s: State, step: Step, t: State)
    requires step.Flushed? && Next(s, step, t)
    ensures step.ok ==> !t.imm
    ensures !step.ok ==> t.bgError
  {
  }

  lemma {:induction false} FindFlush(states: seq<State>, steps: seq<Step>, k: nat, m: nat) returns (j: nat)
    requires Run(states, steps) && k <= m < |steps| && Pending(states[k]) && steps[m].JobEnds?
    ensures k <= j < m && steps[j].Flushed?
    decreases m - k
  {
    hide Ok, Next;
    assert StepAt(states, steps, k) && StepAt(states, steps, m);
    RunIsOk(states, steps, k);
    if steps[k].Flushed? {
      j := k;
    } else {
      StillPending(states[k], steps[k], states[k + 1]);
      j := FindFlush(states, steps, k + 1, m);
    }
  }

  lemma StillPending(s: State, step: Step, t: State)
    requires Ok(s) && Pending(s) && Next(s, step, t) && !step.Flushed?
    ensures Pending(t) && !step.JobEnds?
  {
  }

  /**
   * A background job that took up a manual compaction looks at it again when it is done. It is still registered then
   * if no error has been recorded and no shutdown has begun.
   */
  lemma ManualStillThere(states: seq<State>, steps: seq<Step>, k: nat, i: nat)
    requires Run(states, steps) && k < |states|
    requires i < |states[k].running| && states[k].running[i].Manual?
    ensures !states[k].bgError && !states[k].shuttingDown ==> states[k].manual == Some(states[k].running[i].request)
  {
    RunIsOk(states, steps, k);
  }

  /**
   * After either of the two its owner may have withdrawn it under the running job: a write that fails to sync wakes
   * the owner, which gives up, and so does one that looks after a shutdown has begun.
   */
  lemma ManualMayBeWithdrawn(owner: nat, shutdown: bool) returns (states: seq<State>, steps: seq<Step>)
    ensures Run(states, steps)
    ensures states[|steps|].running == [Manual(owner)] && states[|steps|].manual == None
    ensures states[|steps|].shuttingDown == shutdown && states[|steps|].bgError == !shutdown
  {
    var s0 := Opened(false, 0);
    var s1 := Sleeps(MaybeScheduleCompaction(s0.(manual := Some(owner))), owner);
    var s2 := s1.(queued := 0, running := [Manual(owner)]);
    var s3 := if shutdown then s2.(shuttingDown := true) else RecordBackgroundError(s2);
    var s4 := s3.(manual := None);
    steps := [StartManual(owner), JobBegins, if shutdown then ShutDown else WriterError, CancelManual(owner)];
    states := [s0, s1, s2, s3, s4];
    assert Finalized(false, 0);
    assert StepAt(states, steps, 0) && StepAt(states, steps, 1) && StepAt(states, steps, 2) && StepAt(states, steps, 3);
  }
}
