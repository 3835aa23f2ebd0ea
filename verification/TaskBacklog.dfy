/** Overdue tasks: each alarm runs the twenty that have waited longest, so a backlog drains. */
module TaskBacklog {
  import opened Common
  import opened Schedule
  import opened TaskAlarms
  import opened TaskSafety

  /** Among `ids`, the tasks due by `at`. */
  ghost function Overdue(tasks: map<nat, Task>, ids: set<nat>, at: int): set<nat>
    requires ids <= Waiting(tasks)
  {
    set id | id in ids && tasks[id].next.value <= at
  }

  lemma FirstIsOverdue(tasks: map<nat, Task>, ids: set<nat>, at: int)
    requires ids <= Waiting(tasks) && Overdue(tasks, ids, at) != {}
    ensures ids != {} && FirstOf(tasks, ids) in Overdue(tasks, ids, at)
    ensures Overdue(tasks, ids - {FirstOf(tasks, ids)}, at) == Overdue(tasks, ids, at) - {FirstOf(tasks, ids)}
  {
    SomeTask(Overdue(tasks, ids, at));
    var other :| other in Overdue(tasks, ids, at);
    assert Before(tasks, FirstOf(tasks, ids), other);
  }

  lemma WithoutFirst(due: set<nat>, a: nat, rest: seq<nat>)
    requires a in due
    ensures |due - {a}| == |due| - 1
    ensures |due - Elements([a] + rest)| == |(due - {a}) - Elements(rest)|
  {
    ElementsOfCons(a, rest);
    assert due - Elements([a] + rest) == (due - {a}) - Elements(rest);
  }

  lemma WithoutNone(due: set<nat>, rest: seq<nat>)
    ensures |due - Elements([])| == |due|
    ensures due == {} ==> |due - Elements(rest)| == 0
  {
    assert due - Elements([]) == due;
  }

  /** How many of `due` are not among `few`. */
  ghost function Left(due: set<nat>, few: seq<nat>): nat {
    |due - Elements(few)|
  }

  lemma OneFewer(tasks: map<nat, Task>, ids: set<nat>, n: nat, at: int, a: nat)
    requires ids <= Waiting(tasks) && Overdue(tasks, ids, at) != {} && n > 0 && ids != {} && a == FirstOf(tasks, ids)
    ensures |Overdue(tasks, ids - {a}, at)| == |Overdue(tasks, ids, at)| - 1
    ensures Left(Overdue(tasks, ids, at), FirstFew(tasks, ids, n))
              == Left(Overdue(tasks, ids - {a}, at), FirstFew(tasks, ids - {a}, n - 1))
  {
    FirstIsOverdue(tasks, ids, at);
    WithoutFirst(Overdue(tasks, ids, at), a, FirstFew(tasks, ids - {a}, n - 1));
  }

  ghost predicate TakesOverdue(tasks: map<nat, Task>, ids: set<nat>, n: nat, at: int)
    requires ids <= Waiting(tasks)
  {
    Left(Overdue(tasks, ids, at), FirstFew(tasks, ids, n)) == Max(0, |Overdue(tasks, ids, at)| - n)
  }

  /** The first `n` by next run take from what is due by any time as many as there are. */
  lemma {:induction false} FirstFewAreOverdue(tasks: map<nat, Task>, ids: set<nat>, n: nat, at: int)
    requires ids <= Waiting(tasks)
    ensures TakesOverdue(tasks, ids, n, at)
    decreases n
  {
    hide Overdue, Elements, Waiting, IsFirst, FirstFew, Left;
    if Overdue(tasks, ids, at) == {} || n == 0 {
      NoneTaken(tasks, ids, n, at);
    } else {
      OverdueAreSome(tasks, ids, at);
      var a := FirstOf(tasks, ids);
      OneFewer(tasks, ids, n, at, a);
      FirstFewAreOverdue(tasks, ids - {a}, n - 1, at);
    }
  }

  lemma OverdueAreSome(tasks: map<nat, Task>, ids: set<nat>, at: int)
    requires ids <= Waiting(tasks) && Overdue(tasks, ids, at) != {}
    ensures ids != {}
  {
    FirstIsOverdue(tasks, ids, at);
  }

  lemma NoneTaken(tasks: map<nat, Task>, ids: set<nat>, n: nat, at: int)
    requires ids <= Waiting(tasks) && (Overdue(tasks, ids, at) == {} || n == 0)
    ensures Left(Overdue(tasks, ids, at), FirstFew(tasks, ids, n)) == |Overdue(tasks, ids, at)|
  {
    WithoutNone(Overdue(tasks, ids, at), FirstFew(tasks, ids, n));
  }

  lemma ElementsOfCons(a: nat, rest: seq<nat>)
    ensures Elements([a] + rest) == {a} + Elements(rest)
  {
    forall x | x in {a} + Elements(rest)
      ensures x in Elements([a] + rest)
    {
      if x in Elements(rest) {
        var i :| 0 <= i < |rest| && rest[i] == x;
        assert ([a] + rest)[i + 1] == x;
      } else {
        assert ([a] + rest)[0] == x;
      }
    }
  }

  ghost predicate ValidTasks(tasks: map<nat, Task>) {
    forall id :: id in tasks ==> ValidSchedule(tasks[id].schedule)
  }

  /** Those that ran are not due any more, and the others are as they were. */
  lemma RunsLeave(tasks: map<nat, Task>, done: set<nat>, now: int, outcome: nat -> Outcome, at: int)
    requires ValidTasks(tasks) && at <= now
    ensures ValidTasks(AfterRuns(tasks, done, now, outcome))
    ensures DueAt(AfterRuns(tasks, done, now, outcome), at) == DueAt(tasks, at) - done
  {
    var after := AfterRuns(tasks, done, now, outcome);
    forall id | id in tasks
      ensures ValidSchedule(after[id].schedule)
      ensures id in DueAt(after, at) <==> id in DueAt(tasks, at) - done
    {
      assert ValidSchedule(tasks[id].schedule);
      RanTask(tasks[id], tasks[id].schedule, now, outcome(id));
      hide Ran, ValidSchedule;
    }
    hide ValidSchedule, Ran;
  }

  /** An alarm takes exactly twenty from the backlog of every earlier instant, or all of it. */
  lemma AlarmShrinksBacklog(a: Agent, principal: string, now: int, ended: int, outcome: nat -> Outcome, at: int)
    requires ValidTasks(a.tasks) && at <= now
    ensures ValidTasks(AlarmRun(a, principal, now, ended, outcome).tasks)
    ensures |DueAt(AlarmRun(a, principal, now, ended, outcome).tasks, at)| == Max(0, |DueAt(a.tasks, at)| - 20)
  {
    var ids := DueAt(a.tasks, now);
    RunsLeave(a.tasks, Elements(DueList(a.tasks, now)), now, outcome, at);
    FirstFewAreOverdue(a.tasks, ids, ALARM_LIMIT, at);
    assert Left(Overdue(a.tasks, ids, at), DueList(a.tasks, now))
             == |Overdue(a.tasks, ids, at) - Elements(DueList(a.tasks, now))|;
    assert Overdue(a.tasks, ids, at) == DueAt(a.tasks, at);
    hide AfterRuns, FirstFew, AlarmFor, ValidTasks;
  }

  /** No edit adds to the backlog of an instant that has passed. */
  lemma EditAddsNoBacklog(tasks: map<nat, Task>, edit: Edit, now: int, at: int)
    requires ValidTasks(tasks) && Accepts(tasks, edit, now) && at <= now
    ensures ValidTasks(Edited(tasks, edit, now))
    ensures DueAt(Edited(tasks, edit, now), at) <= DueAt(tasks, at)
  {
    forall id | id in Edited(tasks, edit, now)
      ensures ValidSchedule(Edited(tasks, edit, now)[id].schedule)
      ensures id in DueAt(Edited(tasks, edit, now), at) ==> id in DueAt(tasks, at)
    {
      assert id in tasks ==> ValidSchedule(tasks[id].schedule);
      EditedTask(tasks, edit, now, id);
      hide Edited, Accepts, ValidSchedule;
    }
    hide Edited, Accepts, ValidSchedule;
  }

  // ---- Over runs ----

  /** The tasks that the alarm under way has still to finish. */
  ghost function Ahead(s: State): set<nat> {
    if s.running.None? then {}
    else set k: nat | s.running.value.done <= k < |s.running.value.due| :: s.running.value.due[k].id
  }

  /** What is due at `at`, besides what the alarm under way is about to run. */
  ghost function Rest(s: State, at: int): set<nat> {
    DueAt(s.tasks, at) - Ahead(s)
  }

  /** How many alarms ended among the first steps. */
  ghost function Ended(steps: seq<Step>, m: nat, n: nat): nat
    requires m <= n <= |steps|
    decreases n
  {
    if n == m then 0 else Ended(steps, m, n - 1) + if steps[n - 1].EndAlarm? then 1 else 0
  }

  lemma TasksAreValid(s: State)
    requires Invariant(s)
    ensures ValidTasks(s.tasks)
  {
    forall id | id in s.tasks
      ensures ValidSchedule(s.tasks[id].schedule)
    {
      assert TaskSafety.Ok(s, id);
    }
  }

  lemma FinishOnBacklog(s: State, step: Step, at: int)
    requires Invariant(s) && Enabled(s, step) && at <= s.latest && step.FinishRun?
    ensures DueAt(Next(s, step).tasks, at) <= DueAt(s.tasks, at) && Rest(Next(s, step), at) <= Rest(s, at)
  {
    var r := s.running.value;
    var d := r.due[r.done];
    assert TaskSafety.Ok(s, r.done);
    if d.id in s.tasks {
      RanTask(s.tasks[d.id], d.schedule, r.now, step.outcome);
    }
    assert d.id !in DueAt(Next(s, step).tasks, at);
    assert Ahead(s) <= Ahead(Next(s, step)) + {d.id};
    hide Ran, ValidSchedule, Invariant;
  }

  /** A step adds nothing to the backlog, and an alarm under way adds nothing to the rest. */
  lemma StepOnBacklog(s: State, step: Step, at: int)
    requires Invariant(s) && Enabled(s, step) && at <= s.clock && (s.running.Some? ==> at <= s.latest)
    ensures DueAt(Next(s, step).tasks, at) <= DueAt(s.tasks, at)
    ensures s.running.Some? && Next(s, step).running.Some? ==> Rest(Next(s, step), at) <= Rest(s, at)
    ensures step.EndAlarm? ==> Rest(s, at) == DueAt(s.tasks, at) == DueAt(Next(s, step).tasks, at)
  {
    match step
    case Apply(edit, now) =>
      TasksAreValid(s);
      EditAddsNoBacklog(s.tasks, edit, now, at);
      assert Ahead(Next(s, step)) == Ahead(s);
      hide Invariant, Edited, Accepts, AlarmFor, DueAt, ValidTasks;
    case FinishRun(_) => FinishOnBacklog(s, step, at);
    case _ =>
      hide Invariant, DueAt, AlarmFor;
  }

  /** The query of an alarm leaves all but twenty of the backlog to later alarms. */
  lemma StartOnBacklog(s: State, step: Step, at: int)
    requires Invariant(s) && Enabled(s, step) && step.StartAlarm? && at <= step.now
    ensures |Rest(Next(s, step), at)| <= Max(0, |DueAt(s.tasks, at)| - ALARM_LIMIT)
  {
    var tasks, ids := s.tasks, DueAt(s.tasks, step.now);
    var list := DueList(tasks, step.now);
    DueListIsDistinct(tasks, step.now);
    FirstFewAreOverdue(tasks, ids, ALARM_LIMIT, at);
    assert Overdue(tasks, ids, at) == DueAt(tasks, at);
    forall id | id in Elements(list)
      ensures id in Ahead(Next(s, step))
    {
      var k :| 0 <= k < |list| && list[k] == id;
      ReadDue(tasks, step.now, k);
      assert Next(s, step).running.value.due[k].id == id;
    }
    SubsetIsNotLarger(Rest(Next(s, step), at), DueAt(tasks, at) - Elements(list));
    hide Invariant, FirstFew, DueList, Read, AlarmFor;
  }

  ghost predicate Drained(s: State, at: int, size: nat, alarms: nat) {
    && at <= s.clock && (s.running.Some? ==> at <= s.latest)
    && |DueAt(s.tasks, at)| <= Max(0, size - ALARM_LIMIT * alarms)
    && (s.running.Some? ==> |Rest(s, at)| <= Max(0, size - ALARM_LIMIT * (alarms + 1)))
  }

  lemma StillDrained(s: State, next: State, ends: bool, at: int, size: nat, alarms: nat)
    requires Drained(s, at, size, alarms)
    requires at <= next.clock && (next.running.Some? ==> at <= next.latest)
    requires |DueAt(next.tasks, at)| <= |DueAt(s.tasks, at)|
    requires next.running.Some? && s.running.Some? ==> |Rest(next, at)| <= |Rest(s, at)|
    requires next.running.Some? && s.running.None? ==> |Rest(next, at)| <= Max(0, |DueAt(s.tasks, at)| - ALARM_LIMIT)
    requires ends ==> s.running.Some? && next.running.None? && |DueAt(next.tasks, at)| <= |Rest(s, at)|
    ensures Drained(next, at, size, if ends then alarms + 1 else alarms)
  {
    hide DueAt, Rest;
  }

  lemma BacklogSizes(s: State, step: Step, at: int)
    requires Invariant(s) && Enabled(s, step) && at <= s.clock && (s.running.Some? ==> at <= s.latest)
    ensures var next := Next(s, step);
            && at <= next.clock && (next.running.Some? ==> at <= next.latest)
            && |DueAt(next.tasks, at)| <= |DueAt(s.tasks, at)|
            && (next.running.Some? && s.running.Some? ==> |Rest(next, at)| <= |Rest(s, at)|)
            && (next.running.Some? && s.running.None? ==>
                  |Rest(next, at)| <= Max(0, |DueAt(s.tasks, at)| - ALARM_LIMIT))
            && (step.EndAlarm? ==> s.running.Some? && next.running.None? && |DueAt(next.tasks, at)| <= |Rest(s, at)|)
  {
    var next := Next(s, step);
    StepOnBacklog(s, step, at);
    SubsetIsNotLarger(DueAt(next.tasks, at), DueAt(s.tasks, at));
    if step.StartAlarm? {
      StartOnBacklog(s, step, at);
    } else if s.running.Some? && next.running.Some? {
      SubsetIsNotLarger(Rest(next, at), Rest(s, at));
    }
    hide Invariant, DueAt, Rest, Edited, Accepts, AlarmFor, Read, DueList;
  }

  lemma DrainedStep(s: State, step: Step, at: int, size: nat, alarms: nat)
    requires Invariant(s) && Enabled(s, step) && Drained(s, at, size, alarms)
    ensures Drained(Next(s, step), at, size, if step.EndAlarm? then alarms + 1 else alarms)
  {
    hide Invariant, DueAt, Rest, Enabled;
    BacklogSizes(s, step, at);
    StillDrained(s, Next(s, step), step.EndAlarm?, at, size, alarms);
  }

  lemma {:induction false} DrainedOverRun(states: seq<State>, steps: seq<Step>, m: nat, n: nat, at: int)
    requires IsRun(states, steps) && m <= n <= |steps| && states[m].running.None? && at <= states[m].clock
    ensures Drained(states[n], at, |DueAt(states[m].tasks, at)|, Ended(steps, m, n))
    decreases n
  {
    hide Next, Enabled, DueAt, Rest;
    if m < n {
      DrainedOverRun(states, steps, m, n - 1, at);
      EveryRunIsSafe(states, steps, n - 1);
      hide Drained, Invariant;
      DrainedStep(states[n - 1], steps[n - 1], at, |DueAt(states[m].tasks, at)|, Ended(steps, m, n - 1));
    }
  }

  /** Every alarm that ends takes twenty from the backlog of any instant before its start, until
      nothing of it is left, whatever edits come before, between and during alarms and however
      many alarms stop. */
  lemma BacklogDrains(states: seq<State>, steps: seq<Step>, m: nat, n: nat, at: int)
    requires IsRun(states, steps) && m <= n <= |steps| && states[m].running.None? && at <= states[m].clock
    ensures |DueAt(states[n].tasks, at)| <= Max(0, |DueAt(states[m].tasks, at)| - 20 * Ended(steps, m, n))
  {
    DrainedOverRun(states, steps, m, n, at);
    hide DueAt, Rest;
  }

  lemma {:induction false} SubsetIsNotLarger(a: set<nat>, b: set<nat>)
    requires a <= b
    ensures |a| <= |b|
  {
    SomeTask(a);
    if a != {} {
      var x :| x in a;
      SubsetIsNotLarger(a - {x}, b - {x});
    }
  }
}
