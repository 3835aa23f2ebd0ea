/** When the same work is run for the same time again. */
module TaskRepeats {
  import opened Common
  import opened Schedule
  import opened TaskAlarms
  import opened TaskEdits
  import opened TaskSafety

  /** Where the alarm under way read what is due: the last start of an alarm before `n`. */
  ghost function ReadStep(steps: seq<Step>, n: nat): Option<nat>
    requires n <= |steps|
  {
    if n == 0 then None else if steps[n - 1].StartAlarm? then Some(n - 1) else ReadStep(steps, n - 1)
  }

  /** What an alarm reads of a task. */
  ghost predicate WasRead(s: State, d: Due) {
    d.id in s.tasks && s.tasks[d.id].next == Some(d.at)
  }

  ghost predicate ReadThen(states: seq<State>, steps: seq<Step>, n: nat)
    requires n <= |steps| < |states|
  {
    states[n].running.Some? ==>
      var read := ReadStep(steps, n);
      && read.Some? && read.value < n && steps[read.value].StartAlarm?
      && (forall d :: d in states[n].running.value.due ==>
            WasRead(states[read.value], d) && d.at <= states[read.value + 1].latest)
  }

  lemma StartReads(s: State, step: Step, d: Due)
    requires Enabled(s, step) && step.StartAlarm? && d in Next(s, step).running.value.due
    ensures WasRead(s, d) && d.at <= step.now
  {
    DueListIsDistinct(s.tasks, step.now);
    var k :| 0 <= k < |DueList(s.tasks, step.now)| && d == Read(s.tasks, DueList(s.tasks, step.now))[k];
    ReadDue(s.tasks, step.now, k);
    hide DueList, Read, Waits;
  }

  lemma DueStays(s: State, step: Step)
    requires Enabled(s, step) && !step.StartAlarm? && Next(s, step).running.Some?
    ensures s.running.Some? && Next(s, step).running.value.due == s.running.value.due
  {
    hide Edited, Accepts, AlarmFor, Ran;
  }

  lemma {:induction false} DueWasRead(states: seq<State>, steps: seq<Step>, n: nat)
    requires IsRun(states, steps) && n <= |steps|
    ensures ReadThen(states, steps, n)
  {
    if n > 0 {
      DueWasRead(states, steps, n - 1);
      var s, step := states[n - 1], steps[n - 1];
      if step.StartAlarm? {
        forall d | d in states[n].running.value.due
          ensures WasRead(s, d) && d.at <= states[n].latest
        {
          StartReads(s, step, d);
        }
      } else if states[n].running.Some? {
        DueStays(s, step);
      }
      hide Enabled, Next, WasRead;
    }
  }

  /** The step edits the row of a task, or ends a run of it. */
  ghost predicate Touches(s: State, step: Step, id: nat) {
    (step.Apply? && IdOf(step.edit) == id) || (step.FinishRun? && InFlight(s, id))
  }

  ghost predicate IsUntouched(states: seq<State>, steps: seq<Step>, m: nat, n: nat, id: nat)
    requires m <= n <= |steps| < |states|
  {
    forall k :: m <= k < n ==> !Touches(states[k], steps[k], id)
  }

  lemma UntouchedStep(s: State, step: Step, id: nat)
    requires Enabled(s, step) && !Touches(s, step, id)
    ensures id in s.tasks <==> id in Next(s, step).tasks
    ensures id in s.tasks ==> Next(s, step).tasks[id] == s.tasks[id]
  {
    hide AlarmFor, Ran;
  }

  lemma {:induction false} UntouchedRow(states: seq<State>, steps: seq<Step>, m: nat, n: nat, id: nat)
    requires IsRun(states, steps) && m <= n <= |steps| && IsUntouched(states, steps, m, n, id)
    ensures id in states[m].tasks <==> id in states[n].tasks
    ensures id in states[m].tasks ==> states[n].tasks[id] == states[m].tasks[id]
    decreases n
  {
    hide Enabled, Next;
    if m < n {
      assert IsUntouched(states, steps, m, n - 1, id);
      UntouchedRow(states, steps, m, n - 1, id);
      UntouchedStep(states[n - 1], steps[n - 1], id);
    }
  }

  /** The next run of the task, if it has one, is later. */
  ghost predicate RunsLater(s: State, id: nat, at: int) {
    id in s.tasks && s.tasks[id].next.Some? ==> at < s.tasks[id].next.value
  }

  /** An edit and the end of a run both set a time after the present one. */
  lemma TouchedRunsLater(s: State, step: Step, id: nat, at: int)
    requires Invariant(s) && Enabled(s, step) && Touches(s, step, id) && at <= s.latest
    ensures RunsLater(Next(s, step), id, at)
  {
    assert TaskSafety.Ok(s, id);
    if step.Apply? {
      if id in Edited(s.tasks, step.edit, step.now) {
        EditedTask(s.tasks, step.edit, step.now, id);
        EditSetsNext(s.tasks, step.edit, step.now);
      }
    } else {
      var r := s.running.value;
      assert TaskSafety.Ok(s, r.done);
      if id in s.tasks {
        RanTask(s.tasks[id], r.due[r.done].schedule, r.now, step.outcome);
      }
    }
    hide Ran, ValidSchedule, AlarmFor, Edited, Accepts;
  }

  lemma EditSetsNext(tasks: map<nat, Task>, edit: Edit, now: int)
    requires Accepts(tasks, edit, now) && !edit.Delete?
    requires IdOf(edit) in tasks ==> ValidSchedule(tasks[IdOf(edit)].schedule)
    ensures IdOf(edit) in Edited(tasks, edit, now)
    ensures var next := Edited(tasks, edit, now)[IdOf(edit)].next; next.Some? ==> now < next.value
  {
    var t := Edited(tasks, edit, now)[IdOf(edit)];
    NextIsLater(t.schedule, now);
    hide ValidSchedule, NextRun;
  }

  lemma LatestGrows(s: State, step: Step)
    requires Invariant(s) && Enabled(s, step)
    ensures s.latest <= Next(s, step).latest
  {
    hide AlarmFor, Edited, Accepts;
  }

  /** Once touched, the row stays later; before that it is as it was. */
  lemma {:induction false} TouchedRow(states: seq<State>, steps: seq<Step>, m: nat, n: nat, id: nat, at: int)
    requires IsRun(states, steps) && m <= n <= |steps| && at <= states[m].latest
    ensures at <= states[n].latest
    ensures !IsUntouched(states, steps, m, n, id) ==> RunsLater(states[n], id, at)
    decreases n
  {
    hide Enabled, Next, RunsLater, Touches, Invariant;
    if m < n {
      var s, step := states[n - 1], steps[n - 1];
      TouchedRow(states, steps, m, n - 1, id, at);
      EveryRunIsSafe(states, steps, n - 1);
      LatestGrows(s, step);
      if Touches(s, step, id) {
        TouchedRunsLater(s, step, id, at);
      } else if !IsUntouched(states, steps, m, n - 1, id) {
        LaterStays(s, step, id, at);
      }
    }
  }

  lemma LaterStays(s: State, step: Step, id: nat, at: int)
    requires Enabled(s, step) && !Touches(s, step, id) && RunsLater(s, id, at)
    ensures RunsLater(Next(s, step), id, at)
  {
    UntouchedStep(s, step, id);
    hide Enabled, Next;
  }

  /** The runner is asked for a task at `p` and again at `q`. Both times it is asked for the same
      run if and only if between the queries of the two alarms no request edited the task and no
      run of it ended, so that the first alarm stopped before it took note of the run. */
  lemma RunIsRepeatedWhen(states: seq<State>, steps: seq<Step>, p: nat, q: nat)
    requires IsRun(states, steps) && p < q < |steps| && steps[p].StartRun? && steps[q].StartRun?
    requires IsRunning(states[p], false) && IsRunning(states[q], false)
    requires Current(states[p]).id == Current(states[q]).id
    ensures var first, second := ReadStep(steps, p), ReadStep(steps, q);
            && first.Some? && second.Some? && first.value < second.value < q
            && (Current(states[p]).at == Current(states[q]).at <==>
                IsUntouched(states, steps, first.value, second.value, Current(states[p]).id))
  {
    DueWasRead(states, steps, p);
    DueWasRead(states, steps, q);
    var m, n := ReadStep(steps, p).value, ReadStep(steps, q).value;
    var id, at := Current(states[p]).id, Current(states[p]).at;
    var r, r' := states[p].running.value, states[q].running.value;
    assert r.due[r.done] in r.due && r'.due[r'.done] in r'.due;
    ReadsOnlyOnce(states, steps, p, q);
    hide Enabled, Next, Touches;
    TouchedRow(states, steps, m + 1, n, id, at);
    assert IsUntouched(states, steps, m, n, id) <==> IsUntouched(states, steps, m + 1, n, id) by {
      NotTouchedByStart(states, steps, m, id);
    }
    if IsUntouched(states, steps, m, n, id) {
      UntouchedRow(states, steps, m, n, id);
    }
    hide IsRun, IsUntouched, ReadStep;
  }

  lemma NotTouchedByStart(states: seq<State>, steps: seq<Step>, m: nat, id: nat)
    requires m < |steps| < |states| && steps[m].StartAlarm?
    ensures !Touches(states[m], steps[m], id)
  {}

  // ---- One alarm runs a task once ----

  /** While no other alarm starts, the one under way goes on. */
  ghost predicate GoesOn(s: State, s': State) {
    s'.running.Some? ==>
      && s.running.Some? && s'.running.value.due == s.running.value.due
      && Started(s.running.value) <= Started(s'.running.value)
  }

  lemma GoesOnStep(s: State, step: Step)
    requires Enabled(s, step) && !step.StartAlarm?
    ensures GoesOn(s, Next(s, step))
    ensures step.StartRun? ==> Started(s.running.value) < Started(Next(s, step).running.value)
  {
    hide Edited, Accepts, AlarmFor, Ran;
  }

  lemma {:induction false} SameAlarmGoesOn(states: seq<State>, steps: seq<Step>, m: nat, n: nat)
    requires IsRun(states, steps) && m <= n <= |steps|
    requires forall k :: m <= k < n ==> !steps[k].StartAlarm?
    ensures GoesOn(states[m], states[n])
    decreases n
  {
    hide Enabled, Next, Started;
    if m < n {
      SameAlarmGoesOn(states, steps, m, n - 1);
      GoesOnStep(states[n - 1], steps[n - 1]);
    }
  }

  lemma {:induction false} NoStartSince(steps: seq<Step>, n: nat)
    requires n <= |steps| && ReadStep(steps, n).Some?
    ensures ReadStep(steps, n).value < n
    ensures forall k :: ReadStep(steps, n).value < k < n ==> !steps[k].StartAlarm?
    ensures steps[ReadStep(steps, n).value].StartAlarm?
  {
    if !steps[n - 1].StartAlarm? {
      NoStartSince(steps, n - 1);
    }
  }

  lemma {:induction false} ReadStepGrows(steps: seq<Step>, p: nat, q: nat)
    requires p <= q <= |steps| && ReadStep(steps, p).Some?
    ensures ReadStep(steps, q).Some? && ReadStep(steps, p).value <= ReadStep(steps, q).value
    decreases q
  {
    if p < q {
      ReadStepGrows(steps, p, q - 1);
      NoStartSince(steps, p);
    }
  }

  lemma ReadsOnlyOnce(states: seq<State>, steps: seq<Step>, p: nat, q: nat)
    requires IsRun(states, steps) && p < q < |steps| && steps[p].StartRun?
    requires IsRunning(states[p], false) && IsRunning(states[q], false)
    requires Current(states[p]).id == Current(states[q]).id
    ensures ReadStep(steps, p).Some? && ReadStep(steps, q).Some?
    ensures ReadStep(steps, p).value < ReadStep(steps, q).value
  {
    DueWasRead(states, steps, p);
    ReadStepGrows(steps, p, q);
    NoStartSince(steps, p);
    NoStartSince(steps, q);
    EveryRunIsSafe(states, steps, q);
    assert PairOk(states[q], states[p].running.value.done, states[q].running.value.done);
    if ReadStep(steps, p) == ReadStep(steps, q) {
      assert Enabled(states[p], steps[p]) && states[p + 1] == Next(states[p], steps[p]);
      GoesOnStep(states[p], steps[p]);
      SameAlarmGoesOn(states, steps, p + 1, q);
      assert false;
    }
    hide Next, Invariant;
  }
}
