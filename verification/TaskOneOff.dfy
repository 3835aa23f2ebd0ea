/** Work that is scheduled for one instant. */
module TaskOneOff {
  import opened Common
  import opened Schedule
  import opened TaskAlarms
  import opened TaskEdits
  import opened TaskSafety

  /** The only edit of the task, if any, creates it for one instant. */
  ghost predicate IsNeverEdited(steps: seq<Step>, id: nat, at: int) {
    forall k :: 0 <= k < |steps| && steps[k].Apply? && IdOf(steps[k].edit) == id ==>
      steps[k].edit.Create? && steps[k].edit.task.schedule == Once(at)
  }

  /** Whatever is known of the task is about that instant. */
  ghost predicate IsFor(s: State, id: nat, at: int) {
    && (id in s.tasks ==> s.tasks[id].schedule == Once(at) && s.tasks[id].next in {None, Some(at)})
    && (s.running.Some? ==>
          forall k :: 0 <= k < |s.running.value.due| && s.running.value.due[k].id == id ==>
            s.running.value.due[k].at == at && s.running.value.due[k].schedule == Once(at))
    && (forall i :: 0 <= i < |s.runs| && s.runs[i].id == id ==> s.runs[i].at == at)
  }

  lemma StartIsFor(s: State, step: Step, id: nat, at: int)
    requires Enabled(s, step) && step.StartAlarm? && IsFor(s, id, at)
    ensures IsFor(Next(s, step), id, at)
  {
    DueListIsDistinct(s.tasks, step.now);
    forall k: nat | k < |DueList(s.tasks, step.now)|
      ensures var d := Next(s, step).running.value.due[k]; d.id == id ==> d.at == at && d.schedule == Once(at)
    {
      ReadDue(s.tasks, step.now, k);
      hide Read, DueList;
    }
    hide DueList;
  }

  lemma StepIsFor(s: State, step: Step, id: nat, at: int)
    requires Enabled(s, step) && IsFor(s, id, at)
    requires step.Apply? && IdOf(step.edit) == id ==> step.edit.Create? && step.edit.task.schedule == Once(at)
    ensures IsFor(Next(s, step), id, at)
  {
    if step.StartAlarm? {
      StartIsFor(s, step, id, at);
    }
    hide AlarmFor, DueList, Read, ValidSchedule;
  }

  lemma {:induction false} StaysFor(states: seq<State>, steps: seq<Step>, n: nat, id: nat, at: int)
    requires IsRun(states, steps) && n <= |steps| && IsNeverEdited(steps, id, at)
    ensures IsFor(states[n], id, at)
  {
    hide Enabled, Next;
    if n > 0 {
      StaysFor(states, steps, n - 1, id, at);
      StepIsFor(states[n - 1], steps[n - 1], id, at);
      hide IsFor;
    }
  }

  /** A task that is created for one instant and never edited is executed for exactly that
      instant, not before it, and more than once only if an alarm stopped during the earlier
      execution. */
  lemma OneOffIsExecutedForItsInstant(states: seq<State>, steps: seq<Step>, n: nat, id: nat, at: int, i: nat)
    requires IsRun(states, steps) && n <= |steps| && IsNeverEdited(steps, id, at)
    requires i < |states[n].runs| && states[n].runs[i].id == id
    ensures states[n].runs[i].at == at <= states[n].clock
    ensures forall j :: i < j < |states[n].runs| && states[n].runs[j].id == id ==> i in states[n].cut
  {
    StaysFor(states, steps, n, id, at);
    NoRunIsEarly(states, steps, n, i);
    hide IsRun;
    forall j | i < j < |states[n].runs| && states[n].runs[j].id == id
      ensures i in states[n].cut
    {
      RunsOfATaskIncrease(states, steps, n, i, j);
    }
  }
}
