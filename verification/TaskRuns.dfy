/** Runs in which an edit or a stop falls into an alarm. */
module TaskRuns {
  import opened Common
  import opened NextRuns
  import opened Schedule
  import opened TaskAlarms
  import opened TaskSafety

  const DAILY := Recurring(Daily, 8, 0, _ => 0)

  ghost function FirstState(): State {
    State(map[], None, None, 0, true, 0, [], {}, 0, false)
  }

  lemma Go(states: seq<State>, steps: seq<Step>, step: Step) returns (states': seq<State>, steps': seq<Step>)
    requires IsRun(states, steps) && Enabled(states[|steps|], step)
    ensures states' == states + [Next(states[|steps|], step)] && steps' == steps + [step] && IsRun(states', steps')
    ensures states'[|steps'|] == Next(states[|steps|], step)
  {
    hide Next, Enabled;
    states', steps' := states + [Next(states[|steps|], step)], steps + [step];
  }

  lemma DueListOfOne(tasks: map<nat, Task>, now: int, id: nat)
    requires DueAt(tasks, now) == {id}
    ensures DueList(tasks, now) == [id]
  {
    assert DueList(tasks, now) == [FirstOf(tasks, {id})] + FirstFew(tasks, {id} - {FirstOf(tasks, {id})}, 19);
  }

  /** A daily task comes due, and an alarm has the runner work on it. */
  lemma RunnerAtWork() returns (states: seq<State>, steps: seq<Step>, task: Task, at: int)
    ensures IsRun(states, steps) && |steps| == 3 && task.schedule == DAILY && Waits(task) && task.next == Some(at)
    ensures var s := states[3];
            && s.tasks == map[0 := task] && s.clock == at && s.runs == [Run(0, at)] && s.cut == {}
            && s.running == Some(Running(at, [Due(0, DAILY, at)], 0, true))
  {
    RecurringRulesAlwaysRunAgain(DAILY, 0, 0);
    NextIsLater(DAILY, 0);
    task := NewTask("t", "d", DAILY, 0);
    at := task.next.value;
    hide NextRun, AlarmFor, DueList;
    states, steps := [FirstState()], [];
    states, steps := Go(states, steps, Apply(Create(0, task), 0));
    assert states[1].tasks == map[0 := task];
    states, steps := Go(states, steps, StartAlarm(at));
    assert DueAt(map[0 := task], at) == {0};
    DueListOfOne(map[0 := task], at, 0);
    DueListIsDistinct(map[0 := task], at);
    assert Read(map[0 := task], [0]) == [Due(0, DAILY, at)];
    states, steps := Go(states, steps, StartRun);
  }

  /** Disabling a task while the runner works on it does not last: when the run ends, the task
      is enabled again. */
  lemma DisabledTaskIsEnabledAgain() returns (states: seq<State>, steps: seq<Step>)
    ensures IsRun(states, steps) && |steps| == 5
    ensures steps[3].Apply? && steps[3].edit == Update(0, Change(None, None, None, None, Some(false)))
    ensures steps[4] == FinishRun(Outcome(true, None))
    ensures 0 in states[4].tasks && !states[4].tasks[0].enabled
    ensures 0 in states[5].tasks && Waits(states[5].tasks[0])
  {
    var task: Task, at: int;
    states, steps, task, at := RunnerAtWork();
    RecurringRulesAlwaysRunAgain(DAILY, at, 0);
    hide NextRun, AlarmFor;
    states, steps := Go(states, steps, Apply(Update(0, Change(None, None, None, None, Some(false))), at));
    states, steps := Go(states, steps, FinishRun(Outcome(true, None)));
  }

  /** After an alarm that stopped while the runner worked, the next one runs the task for the
      same time again. */
  lemma StoppedRunIsRepeated() returns (states: seq<State>, steps: seq<Step>, at: int)
    ensures IsRun(states, steps) && |steps| == 6 && steps[3] == StopAlarm
    ensures states[6].runs == [Run(0, at), Run(0, at)] && states[6].cut == {0}
  {
    var task: Task;
    states, steps, task, at := RunnerAtWork();
    hide NextRun, AlarmFor, DueList;
    states, steps := Go(states, steps, StopAlarm);
    states, steps := Go(states, steps, StartAlarm(at));
    assert DueAt(map[0 := task], at) == {0};
    DueListOfOne(map[0 := task], at, 0);
    DueListIsDistinct(map[0 := task], at);
    assert Read(map[0 := task], [0]) == [Due(0, DAILY, at)];
    states, steps := Go(states, steps, StartRun);
  }
}
