/** What task scheduling keeps: over every run in which edits interleave with a running alarm,
    and over runs of whole alarms. */
module TaskSafety {
  import opened Common
  import opened NextRuns
  import opened Schedule
  import opened TaskAlarms

  // ---- Steps ----

  datatype Edit =
    | Create(id: nat, task: Task)
    | Update(id: nat, change: Change)
    | Delete(id: nat)

  /** A task as the alarm's query read it. */
  datatype Due = Due(id: nat, schedule: TaskSchedule, at: int)

  /** An alarm under way: `done` of its tasks are finished, and the next one may be running. */
  datatype Running = Running(now: int, due: seq<Due>, done: nat, started: bool)

  datatype Run = Run(id: nat, at: int)

  /** `settled` says that the alarm was set after the last write, which was at `setAt`. `runs` is
      the history of what the task runner was asked to do, `cut` the places in it where an alarm
      stopped before it took note of the run, and `latest` the time of the last alarm. `stopped`
      says that the last alarm stopped halfway and no edit came since. */
  datatype State = State(
    tasks: map<nat, Task>,
    alarm: Option<int>,
    running: Option<Running>,
    clock: int,
    settled: bool,
    setAt: int,
    runs: seq<Run>,
    cut: set<int>,
    latest: int,
    stopped: bool)

  /** An edit comes in between alarms, or while an alarm waits for the task runner. */
  datatype Step =
    | Apply(edit: Edit, now: int)
    | StartAlarm(now: int)
    | StartRun
    | FinishRun(outcome: Outcome)
    | EndAlarm(now: int)
    | StopAlarm

  ghost function Edited(tasks: map<nat, Task>, edit: Edit, now: int): map<nat, Task> {
    match edit
    case Create(id, task) => tasks[id := NewTask(task.title, task.description, task.schedule, now)]
    case Update(id, change) => if id in tasks then tasks[id := Changed(tasks[id], change, now)] else tasks
    case Delete(id) => tasks - {id}
  }

  /** The edits that are carried out; the others change nothing. */
  ghost predicate Accepts(tasks: map<nat, Task>, edit: Edit, now: int) {
    match edit
    case Create(id, task) => id !in tasks && ValidSchedule(task.schedule) && NextRun(task.schedule, now).Some?
    case Update(id, change) =>
      && id in tasks && (change.schedule.Some? ==> ValidSchedule(change.schedule.value))
      && !HasNoRun(Changed(tasks[id], change, now))
    case Delete(id) => id in tasks
  }

  ghost function Read(tasks: map<nat, Task>, ids: seq<nat>): seq<Due>
    requires Elements(ids) <= Waiting(tasks)
  {
    seq(|ids|, (k: nat) requires k < |ids| =>
      assert ids[k] in Elements(ids);
      Due(ids[k], tasks[ids[k]].schedule, tasks[ids[k]].next.value))
  }

  ghost predicate IsRunning(s: State, started: bool) {
    s.running.Some? && s.running.value.done < |s.running.value.due| && s.running.value.started == started
  }

  /** The task that an alarm runs or is about to run. */
  ghost function Current(s: State): Run
    requires s.running.Some? && s.running.value.done < |s.running.value.due|
  {
    var d := s.running.value.due[s.running.value.done];
    Run(d.id, d.at)
  }

  ghost predicate Enabled(s: State, step: Step) {
    match step
    case Apply(edit, now) =>
      s.clock <= now && Accepts(s.tasks, edit, now) && (s.running.None? || IsRunning(s, true))
    case StartAlarm(now) => s.clock <= now && s.running.None?
    case StartRun => IsRunning(s, false)
    case FinishRun(_) => IsRunning(s, true)
    case EndAlarm(now) => s.clock <= now && s.running.Some? && s.running.value.done == |s.running.value.due|
    case StopAlarm => s.running.Some?
  }

  ghost function Next(s: State, step: Step): State
    requires Enabled(s, step)
  {
    match step
    case Apply(edit, now) =>
      var tasks := Edited(s.tasks, edit, now);
      s.(tasks := tasks, alarm := AlarmFor(tasks, now), clock := now, settled := s.running.None?, setAt := now,
          stopped := false)
    case StartAlarm(now) =>
      DueListIsDistinct(s.tasks, now);
      s.(running := Some(Running(now, Read(s.tasks, DueList(s.tasks, now)), 0, false)),
         clock := now, latest := now, settled := false, stopped := false)
    case StartRun =>
      var r := s.running.value;
      s.(running := Some(r.(started := true)), runs := s.runs + [Current(s)])
    case FinishRun(outcome) =>
      var r := s.running.value;
      var d := r.due[r.done];
      s.(running := Some(r.(done := r.done + 1, started := false)),
         tasks := if d.id in s.tasks then s.tasks[d.id := Ran(s.tasks[d.id], d.schedule, r.now, outcome)] else s.tasks)
    case EndAlarm(now) =>
      s.(running := None, alarm := AlarmFor(s.tasks, now), clock := now, settled := true, setAt := now)
    case StopAlarm =>
      s.(running := None, stopped := true, cut := if IsRunning(s, true) then s.cut + {|s.runs| - 1} else s.cut)
  }

  ghost predicate IsRun(states: seq<State>, steps: seq<Step>) {
    && |states| == |steps| + 1
    && states[0] == State(map[], None, None, states[0].clock, true, states[0].clock, [], {}, states[0].clock, false)
    && forall i :: 0 <= i < |steps| ==> Enabled(states[i], steps[i]) && states[i + 1] == Next(states[i], steps[i])
  }

  // ---- The invariant ----

  ghost predicate TaskOk(s: State, id: nat) {
    id in s.tasks ==>
      && ValidSchedule(s.tasks[id].schedule)
      && (s.tasks[id].next.Some? ==> s.tasks[id].enabled && s.tasks[id].status != Completed)
  }

  ghost predicate ClockOk(s: State) {
    && s.latest <= s.clock && s.setAt <= s.clock
    && (s.running.Some? ==> s.running.value.done <= |s.running.value.due| && s.running.value.now == s.latest)
    && (s.settled || s.running.Some? || s.stopped)
    && (s.stopped ==> s.running.None?)
    && (s.settled ==> s.running.None? && s.alarm == AlarmFor(s.tasks, s.setAt))
  }

  predicate Precedes(a: int, b: int, orSame: bool) {
    a < b || (orSame && a == b)
  }

  /** A task that the alarm read is overdue, and its row has not moved back since. */
  ghost predicate DueOk(s: State, k: nat) {
    s.running.Some? && k < |s.running.value.due| ==>
      var d := s.running.value.due[k];
      && d.at <= s.running.value.now && ValidSchedule(d.schedule)
      && (s.running.value.done <= k && d.id in s.tasks && s.tasks[d.id].next.Some? ==> d.at <= s.tasks[d.id].next.value)
  }

  ghost predicate DistinctDue(s: State, j: nat, k: nat) {
    s.running.Some? && j < k < |s.running.value.due| ==> s.running.value.due[j].id != s.running.value.due[k].id
  }

  /** The task that the runner works on. */
  ghost predicate InFlight(s: State, id: nat) {
    IsRunning(s, true) && s.running.value.due[s.running.value.done].id == id
  }

  /** The number of tasks that an alarm has started. */
  ghost function Started(r: Running): nat {
    if r.started then r.done + 1 else r.done
  }

  /** The run under way is the last one. */
  ghost predicate LastRunOk(s: State) {
    IsRunning(s, true) ==> s.runs != [] && s.runs[|s.runs| - 1] == Current(s)
  }

  /** What a task's row holds comes after the task's runs. */
  ghost predicate RowAfterRun(s: State, i: nat) {
    i < |s.runs| ==>
      var r := s.runs[i];
      && r.at <= s.latest
      && (r.id in s.tasks && s.tasks[r.id].next.Some? ==>
            Precedes(r.at, s.tasks[r.id].next.value, i in s.cut || InFlight(s, r.id)))
  }

  ghost predicate DueAfterRun(s: State, i: nat, k: nat) {
    i < |s.runs| && s.running.Some? && Started(s.running.value) <= k < |s.running.value.due|
    && s.running.value.due[k].id == s.runs[i].id ==>
      Precedes(s.runs[i].at, s.running.value.due[k].at, i in s.cut)
  }

  ghost predicate LaterRun(s: State, i: nat, j: nat) {
    i < j < |s.runs| && s.runs[i].id == s.runs[j].id ==> Precedes(s.runs[i].at, s.runs[j].at, i in s.cut)
  }

  ghost predicate Ok(s: State, k: nat) {
    TaskOk(s, k) && DueOk(s, k) && RowAfterRun(s, k)
  }

  ghost predicate PairOk(s: State, i: nat, k: nat) {
    DistinctDue(s, i, k) && DueAfterRun(s, i, k) && LaterRun(s, i, k)
  }

  ghost predicate Invariant(s: State) {
    && ClockOk(s) && LastRunOk(s)
    && (forall k: nat :: Ok(s, k))
    && (forall i: nat, k: nat :: PairOk(s, i, k))
  }

  // ---- Every step keeps it ----

  lemma NextIsLater(schedule: TaskSchedule, after: int)
    requires ValidSchedule(schedule)
    ensures NextRun(schedule, after).Some? ==> NextRun(schedule, after).value > after
  {
    if NextRun(schedule, after).Some? {
      NextRunIsARunTime(schedule, after);
    }
  }

  lemma EditedTask(tasks: map<nat, Task>, edit: Edit, now: int, id: nat)
    requires Accepts(tasks, edit, now) && id in Edited(tasks, edit, now)
    requires id in tasks ==> ValidSchedule(tasks[id].schedule)
    ensures var t := Edited(tasks, edit, now)[id];
            || (id in tasks && t == tasks[id])
            || (ValidSchedule(t.schedule)
                && (t.next.Some? ==> t.next.value > now && t.enabled && t.status != Completed))
  {
    var t := Edited(tasks, edit, now)[id];
    if ValidSchedule(t.schedule) {
      NextIsLater(t.schedule, now);
    }
    hide ValidSchedule, NextRun;
  }

  lemma ApplyKeepsTask(s: State, step: Step, id: nat)
    requires Invariant(s) && Enabled(s, step) && step.Apply?
    ensures TaskOk(Next(s, step), id)
  {
    assert Ok(s, id);
    if id in Edited(s.tasks, step.edit, step.now) {
      EditedTask(s.tasks, step.edit, step.now, id);
    }
    hide Accepts, Edited, ValidSchedule, AlarmFor, NextRun, DueOk, RowAfterRun;
  }

  lemma ApplyKeepsDue(s: State, step: Step, k: nat)
    requires Invariant(s) && Enabled(s, step) && step.Apply?
    ensures DueOk(Next(s, step), k)
  {
    assert Ok(s, k);
    if s.running.Some? && k < |s.running.value.due| {
      var id := s.running.value.due[k].id;
      assert Ok(s, id);
      if id in Edited(s.tasks, step.edit, step.now) {
        EditedTask(s.tasks, step.edit, step.now, id);
      }
    }
    hide Accepts, Edited, ValidSchedule, AlarmFor, NextRun, RowAfterRun;
  }

  lemma ApplyKeepsRow(s: State, step: Step, i: nat)
    requires Invariant(s) && Enabled(s, step) && step.Apply?
    ensures RowAfterRun(Next(s, step), i)
  {
    assert Ok(s, i);
    if i < |s.runs| {
      var id := s.runs[i].id;
      assert Ok(s, id);
      if id in Edited(s.tasks, step.edit, step.now) {
        EditedTask(s.tasks, step.edit, step.now, id);
      }
    }
    hide Accepts, Edited, ValidSchedule, AlarmFor, NextRun, DueOk;
  }

  /** What the alarm's query reads of the `k`th task. */
  lemma ReadDue(tasks: map<nat, Task>, now: int, k: nat)
    requires k < |DueList(tasks, now)| && Elements(DueList(tasks, now)) <= Waiting(tasks)
    ensures var d := Read(tasks, DueList(tasks, now))[k];
            && d.id == DueList(tasks, now)[k] && d.id in tasks && Waits(tasks[d.id])
            && d.at == tasks[d.id].next.value <= now && d.schedule == tasks[d.id].schedule
  {
    DueListIsDistinct(tasks, now);
    assert DueList(tasks, now)[k] in Elements(DueList(tasks, now));
    hide FirstFew, DueList;
  }

  lemma StartKeeps(s: State, step: Step, k: nat)
    requires Invariant(s) && Enabled(s, step) && step.StartAlarm?
    ensures Ok(Next(s, step), k)
  {
    assert Ok(s, k);
    DueListIsDistinct(s.tasks, step.now);
    if k < |DueList(s.tasks, step.now)| {
      ReadDue(s.tasks, step.now, k);
      assert Ok(s, DueList(s.tasks, step.now)[k]);
    }
    hide DueList, Read, ValidSchedule, AlarmFor;
  }

  lemma StartRunKeeps(s: State, step: Step, k: nat)
    requires Invariant(s) && Enabled(s, step) && step.StartRun?
    ensures Ok(Next(s, step), k)
  {
    assert Ok(s, k) && Ok(s, s.running.value.done);
    hide ValidSchedule, AlarmFor;
  }

  lemma RanTask(t: Task, schedule: TaskSchedule, now: int, outcome: Outcome)
    requires ValidSchedule(schedule)
    ensures var t' := Ran(t, schedule, now, outcome);
            t'.schedule == t.schedule && (t'.next.Some? ==> t'.next.value > now && t'.enabled && t'.status != Completed)
  {
    NextIsLater(schedule, now);
  }

  lemma FinishKeepsTask(s: State, step: Step, id: nat)
    requires Invariant(s) && Enabled(s, step) && step.FinishRun?
    ensures TaskOk(Next(s, step), id)
  {
    var r := s.running.value;
    assert Ok(s, id) && Ok(s, r.done);
    if id == r.due[r.done].id && id in s.tasks {
      RanTask(s.tasks[id], r.due[r.done].schedule, r.now, step.outcome);
    }
    hide Ran, ValidSchedule, AlarmFor;
  }

  lemma FinishKeepsDue(s: State, step: Step, k: nat)
    requires Invariant(s) && Enabled(s, step) && step.FinishRun?
    ensures DueOk(Next(s, step), k)
  {
    var r := s.running.value;
    assert Ok(s, k) && PairOk(s, r.done, k);
    hide Ran, ValidSchedule, AlarmFor, RowAfterRun, TaskOk, DueAfterRun, LaterRun;
  }

  lemma FinishKeepsRow(s: State, step: Step, i: nat)
    requires Invariant(s) && Enabled(s, step) && step.FinishRun?
    ensures RowAfterRun(Next(s, step), i)
  {
    var r := s.running.value;
    assert Ok(s, i) && Ok(s, r.done);
    if r.due[r.done].id in s.tasks {
      RanTask(s.tasks[r.due[r.done].id], r.due[r.done].schedule, r.now, step.outcome);
    }
    hide Ran, ValidSchedule, AlarmFor;
  }

  lemma EndKeeps(s: State, step: Step, k: nat)
    requires Invariant(s) && Enabled(s, step) && (step.EndAlarm? || step.StopAlarm?)
    ensures Ok(Next(s, step), k)
  {
    assert Ok(s, k);
    if IsRunning(s, true) {
      assert PairOk(s, k, |s.runs| - 1) && Ok(s, s.running.value.done);
    }
    hide ValidSchedule, AlarmFor;
  }

  lemma StartKeepsPair(s: State, step: Step, i: nat, k: nat)
    requires Invariant(s) && Enabled(s, step) && step.StartAlarm?
    ensures PairOk(Next(s, step), i, k)
  {
    assert PairOk(s, i, k) && Ok(s, i);
    DueListIsDistinct(s.tasks, step.now);
    if k < |DueList(s.tasks, step.now)| {
      ReadDue(s.tasks, step.now, k);
    }
    if i < |DueList(s.tasks, step.now)| {
      ReadDue(s.tasks, step.now, i);
    }
    hide DueList, Read, ValidSchedule, AlarmFor;
  }

  lemma StepKeepsPair(s: State, step: Step, i: nat, k: nat)
    requires Invariant(s) && Enabled(s, step) && !step.StartAlarm?
    ensures PairOk(Next(s, step), i, k)
  {
    assert PairOk(s, i, k);
    if IsRunning(s, false) {
      assert PairOk(s, i, s.running.value.done) && PairOk(s, s.running.value.done, k);
    }
    hide Ran, ValidSchedule, AlarmFor, Edited, Accepts, Ok, ClockOk;
  }

  lemma StepKeeps(s: State, step: Step)
    requires Invariant(s) && Enabled(s, step)
    ensures Invariant(Next(s, step))
  {
    var next := Next(s, step);
    forall i: nat, k: nat
      ensures PairOk(next, i, k)
    {
      if step.StartAlarm? {
        StartKeepsPair(s, step, i, k);
      } else {
        StepKeepsPair(s, step, i, k);
      }
    }
    forall k: nat
      ensures Ok(next, k)
    {
      match step
      case Apply(_, _) =>
        ApplyKeepsTask(s, step, k);
        ApplyKeepsDue(s, step, k);
        ApplyKeepsRow(s, step, k);
      case StartAlarm(_) => StartKeeps(s, step, k);
      case StartRun => StartRunKeeps(s, step, k);
      case FinishRun(_) =>
        FinishKeepsTask(s, step, k);
        FinishKeepsDue(s, step, k);
        FinishKeepsRow(s, step, k);
      case _ => EndKeeps(s, step, k);
      hide TaskOk, DueOk, RowAfterRun;
    }
    hide Ok, PairOk, AlarmFor, Edited, Accepts, Ran, Read;
  }

  lemma {:induction false} EveryRunIsSafe(states: seq<State>, steps: seq<Step>, n: nat)
    requires IsRun(states, steps) && n <= |steps|
    ensures Invariant(states[n])
  {
    if n > 0 {
      EveryRunIsSafe(states, steps, n - 1);
      hide Invariant, Next, Enabled;
      StepKeeps(states[n - 1], steps[n - 1]);
    }
  }

  // ---- The main results ----

  /** However edits interleave with alarms, a task with a next run is enabled and not completed. */
  lemma NextRunMeansActive(states: seq<State>, steps: seq<Step>, n: nat, id: nat)
    requires IsRun(states, steps) && n <= |steps| && id in states[n].tasks && states[n].tasks[id].next.Some?
    ensures states[n].tasks[id].enabled && states[n].tasks[id].status != Completed
  {
    EveryRunIsSafe(states, steps, n);
    assert Ok(states[n], id);
  }

  /** While no alarm is under way, unless the last one stopped halfway and no edit came since,
      the alarm is set exactly when some task waits. It then rings at the first next run of all, or at once if that had
      passed when the alarm was set. */
  lemma AlarmIsTheFirstRun(states: seq<State>, steps: seq<Step>, n: nat)
    requires IsRun(states, steps) && n <= |steps| && states[n].running.None? && !states[n].stopped
    ensures var s := states[n];
            && s.setAt <= s.clock && (s.alarm.None? <==> Waiting(s.tasks) == {})
            && (s.alarm.Some? ==> exists id :: id in Waiting(s.tasks)
                                               && s.alarm.value == Max(s.setAt, s.tasks[id].next.value))
            && forall id :: id in Waiting(s.tasks) ==> s.alarm.value <= Max(s.setAt, s.tasks[id].next.value)
  {
    EveryRunIsSafe(states, steps, n);
    var s := states[n];
    if Waiting(s.tasks) != {} {
      var first := FirstOf(s.tasks, Waiting(s.tasks));
      forall id | id in Waiting(s.tasks)
        ensures s.alarm.value <= Max(s.setAt, s.tasks[id].next.value)
      {
        assert Before(s.tasks, first, id);
      }
    }
    hide Invariant, IsRun;
  }

  /** The times for which a task is run strictly increase, across edits and re-scheduling. Only a
      run that was under way when its alarm stopped may be repeated for the same time. */
  lemma RunsOfATaskIncrease(states: seq<State>, steps: seq<Step>, n: nat, i: nat, j: nat)
    requires IsRun(states, steps) && n <= |steps| && i < j < |states[n].runs|
    requires states[n].runs[i].id == states[n].runs[j].id
    ensures states[n].runs[i].at <= states[n].runs[j].at
    ensures states[n].runs[i].at == states[n].runs[j].at ==> i in states[n].cut
  {
    EveryRunIsSafe(states, steps, n);
    assert PairOk(states[n], i, j);
  }

  /** No task is run before its time. */
  lemma NoRunIsEarly(states: seq<State>, steps: seq<Step>, n: nat, i: nat)
    requires IsRun(states, steps) && n <= |steps| && i < |states[n].runs|
    ensures states[n].runs[i].at <= states[n].latest <= states[n].clock
  {
    EveryRunIsSafe(states, steps, n);
    assert Ok(states[n], i);
  }
}
