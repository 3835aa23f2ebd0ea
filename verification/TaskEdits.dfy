/** Whether an edit of a task stands, when an alarm that read the task before is still at work. */
module TaskEdits {
  import opened Common
  import opened Schedule
  import opened TaskAlarms
  import opened TaskSafety

  function IdOf(edit: Edit): nat {
    match edit
    case Create(id, _) => id
    case Update(id, _) => id
    case Delete(id) => id
  }

  /** A run from `s` on in which no request edits the task. */
  ghost predicate IsRunWithoutEdit(s: State, states: seq<State>, steps: seq<Step>, id: nat) {
    && |states| == |steps| + 1 && states[0] == s
    && forall i :: 0 <= i < |steps| ==>
         && Enabled(states[i], steps[i]) && states[i + 1] == Next(states[i], steps[i])
         && (steps[i].Apply? ==> IdOf(steps[i].edit) != id)
  }

  /** The row stayed as it was, or it is what runs by its own schedule make of it. */
  ghost predicate Follows(row: Task, later: Task) {
    || later == row
    || (Waits(row) && exists now, outcome :: later == Ran(row, row.schedule, now, outcome))
  }

  /** Both schedules let a run at this time end in the same way. */
  ghost predicate SameRuns(a: TaskSchedule, b: TaskSchedule, now: int) {
    a.Recurring? == b.Recurring? && (a.Recurring? ==> NextRun(a, now) == NextRun(b, now))
  }

  /** The alarm under way still has the task ahead of it. */
  ghost predicate IsAhead(s: State, id: nat, k: nat) {
    s.running.Some? && s.running.value.done <= k < |s.running.value.due| && s.running.value.due[k].id == id
  }

  /** The alarm under way has the task ahead of it, although by now the task does not wait, or
      with a schedule that has other runs than the present one. */
  ghost predicate IsStale(s: State, row: Task, id: nat, k: nat) {
    && IsAhead(s, id, k)
    && !(Waits(row) && SameRuns(s.running.value.due[k].schedule, row.schedule, s.running.value.now))
  }

  ghost predicate WillOverwrite(s: State, row: Task, id: nat) {
    exists k :: IsStale(s, row, id, k)
  }

  // ---- Without a stale read, edits stand ----

  ghost predicate Stands(s: State, row: Task, id: nat) {
    id in s.tasks && Follows(row, s.tasks[id]) && !WillOverwrite(s, row, id)
  }

  /** What a run leaves does not depend on the runs before it. */
  lemma FinishFollows(row: Task, present: Task, schedule: TaskSchedule, now: int, outcome: Outcome)
    requires Follows(row, present) && Waits(row) && SameRuns(schedule, row.schedule, now)
    ensures Follows(row, Ran(present, schedule, now, outcome))
  {
    assert Ran(present, schedule, now, outcome) == Ran(row, row.schedule, now, outcome);
  }

  lemma FinishStep(s: State, step: Step, row: Task, id: nat)
    requires Invariant(s) && Enabled(s, step) && step.FinishRun? && Stands(s, row, id)
    ensures Stands(Next(s, step), row, id)
  {
    var next, done := Next(s, step), s.running.value.done;
    var d := s.running.value.due[done];
    assert !IsStale(s, row, id, done);
    if d.id == id {
      FinishFollows(row, s.tasks[id], d.schedule, s.running.value.now, step.outcome);
    }
    forall k: nat
      ensures !IsStale(next, row, id, k)
    {
      assert !IsStale(s, row, id, k);
    }
    hide Follows, Ran, Invariant, SameRuns;
  }

  lemma StartStep(s: State, step: Step, row: Task, id: nat)
    requires Invariant(s) && Enabled(s, step) && step.StartAlarm? && Stands(s, row, id)
    ensures Stands(Next(s, step), row, id)
  {
    var next := Next(s, step);
    DueListIsDistinct(s.tasks, step.now);
    forall k: nat
      ensures !IsStale(next, row, id, k)
    {
      if IsAhead(next, id, k) {
        ReadDue(s.tasks, step.now, k);
      }
      hide DueList, Read;
    }
    hide Invariant, DueList, Read;
  }

  lemma StandsStep(s: State, step: Step, row: Task, id: nat)
    requires Invariant(s) && Enabled(s, step) && Stands(s, row, id) && (step.Apply? ==> IdOf(step.edit) != id)
    ensures Stands(Next(s, step), row, id)
  {
    match step
    case FinishRun(_) => FinishStep(s, step, row, id);
    case StartAlarm(_) => StartStep(s, step, row, id);
    case _ =>
      forall k: nat
        ensures !IsStale(Next(s, step), row, id, k)
      {
        assert !IsStale(s, row, id, k);
      }
      hide Invariant, Follows, SameRuns, Waits;
  }

  lemma {:induction false} StandsOverRun(s: State, states: seq<State>, steps: seq<Step>, n: nat, row: Task, id: nat)
    requires Invariant(s) && Stands(s, row, id) && IsRunWithoutEdit(s, states, steps, id) && n <= |steps|
    ensures Invariant(states[n]) && Stands(states[n], row, id)
  {
    hide Invariant, Stands, Enabled, Next;
    if n > 0 {
      StandsOverRun(s, states, steps, n - 1, row, id);
      StandsStep(states[n - 1], steps[n - 1], row, id);
      StepKeeps(states[n - 1], steps[n - 1]);
    }
  }

  // ---- With one, they need not ----

  /** The runner can take the task in such a way that its row does not follow the edit. */
  lemma OverwritingOutcome(row: Task, schedule: TaskSchedule, now: int) returns (outcome: Outcome)
    requires !(Waits(row) && SameRuns(schedule, row.schedule, now))
    ensures !Follows(row, Ran(row, schedule, now, outcome))
  {
    outcome := Outcome(row.lastOk != Some(true), None);
    var later := Ran(row, schedule, now, outcome);
    assert later.lastOk != row.lastOk;
    forall at, o | Waits(row)
      ensures later != Ran(row, row.schedule, at, o)
    {
      if later == Ran(row, row.schedule, at, o) {
        assert later.lastRun == Some(at) && later.lastRun == Some(now);
        assert SameRuns(schedule, row.schedule, now);
      }
    }
  }

  /** The alarm under way comes to the task. */
  lemma {:induction false} Overwriting(s: State, id: nat, k: nat) returns (states: seq<State>, steps: seq<Step>)
    requires Invariant(s) && id in s.tasks && IsStale(s, s.tasks[id], id, k)
    ensures IsRunWithoutEdit(s, states, steps, id)
    ensures id in states[|steps|].tasks && !Follows(s.tasks[id], states[|steps|].tasks[id])
    decreases k - s.running.value.done, if s.running.value.started then 0 else 1
  {
    var r := s.running.value;
    var step := StartRun;
    if r.started {
      var outcome := OverwritingOutcome(s.tasks[id], r.due[k].schedule, r.now);
      step := FinishRun(outcome);
    }
    var next := Next(s, step);
    if r.started && r.done == k {
      states, steps := [s, next], [step];
    } else {
      assert PairOk(s, r.done, k);
      StepKeeps(s, step);
      assert next.tasks[id] == s.tasks[id] && IsStale(next, next.tasks[id], id, k);
      var laterStates, laterSteps := Overwriting(next, id, k);
      states, steps := [s] + laterStates, [step] + laterSteps;
      hide Invariant, Next, Enabled, Follows, IsStale;
      ConsRun(s, step, laterStates, laterSteps, id);
    }
  }

  lemma ConsRun(s: State, step: Step, states: seq<State>, steps: seq<Step>, id: nat)
    requires Enabled(s, step) && !step.Apply? && IsRunWithoutEdit(Next(s, step), states, steps, id)
    ensures IsRunWithoutEdit(s, [s] + states, [step] + steps, id)
    ensures ([s] + states)[|[step] + steps|] == states[|steps|]
  {
    hide Next, Enabled;
    var allStates, allSteps := [s] + states, [step] + steps;
    forall i | 0 <= i < |allSteps|
      ensures Enabled(allStates[i], allSteps[i]) && allStates[i + 1] == Next(allStates[i], allSteps[i])
      ensures allSteps[i].Apply? ==> IdOf(allSteps[i].edit) != id
    {
      if i > 0 {
        assert allStates[i] == states[i - 1] && allSteps[i] == steps[i - 1];
      }
    }
  }

  // ---- The main results ----

  /** In every reachable state: until a request edits the task again, whatever else happens, its
      row follows from what it is now, if and only if the alarm under way does not have the task
      ahead of it with a stale schedule, or although it no longer waits. */
  lemma EditStandsWhen(s: State, id: nat)
    requires Invariant(s) && id in s.tasks
    ensures (forall states: seq<State>, steps: seq<Step> :: IsRunWithoutEdit(s, states, steps, id) ==>
               id in states[|steps|].tasks && Follows(s.tasks[id], states[|steps|].tasks[id])) <==>
            !WillOverwrite(s, s.tasks[id], id)
  {
    if WillOverwrite(s, s.tasks[id], id) {
      var k :| IsStale(s, s.tasks[id], id, k);
      var states, steps := Overwriting(s, id, k);
    } else {
      forall states: seq<State>, steps: seq<Step> | IsRunWithoutEdit(s, states, steps, id)
        ensures id in states[|steps|].tasks && Follows(s.tasks[id], states[|steps|].tasks[id])
      {
        StandsOverRun(s, states, steps, |steps|, s.tasks[id], id);
      }
    }
    hide Invariant, Follows, IsStale, IsRunWithoutEdit;
  }

  /** A disabled task stays as it is until the next edit, if and only if the alarm under way
      does not have it ahead. */
  lemma DisabledTaskStaysWhen(s: State, id: nat)
    requires Invariant(s) && id in s.tasks && !s.tasks[id].enabled
    ensures (forall states: seq<State>, steps: seq<Step> :: IsRunWithoutEdit(s, states, steps, id) ==>
               id in states[|steps|].tasks && states[|steps|].tasks[id] == s.tasks[id]) <==>
            !(exists k :: IsAhead(s, id, k))
  {
    EditStandsWhen(s, id);
    hide Invariant, IsRunWithoutEdit;
    if k :| IsAhead(s, id, k) {
      assert IsStale(s, s.tasks[id], id, k);
    }
  }
}
