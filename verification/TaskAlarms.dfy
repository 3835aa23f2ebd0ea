/** The scheduled tasks of a conversation and the single alarm that runs them. */
module TaskAlarms {
  import opened Common
  import opened Schedule

  datatype TaskStatus = Pending | InProgress | Completed

  datatype Task = Task(
    title: string,
    description: string,
    status: TaskStatus,
    schedule: TaskSchedule,
    enabled: bool,
    next: Option<int>,
    lastRun: Option<int>,
    lastOk: Option<bool>,
    lastError: Option<string>)

  datatype Reply = TaskReply(id: nat, task: Task) | DeletedReply(id: nat)

  /** How the task runner took a task. */
  datatype Outcome = Outcome(ok: bool, error: Option<string>)

  /** What goes to the audit. */
  datatype Event =
    | Created(principal: string, id: nat)
    | Updated(principal: string, id: nat)
    | Deleted(principal: string, id: nat)
    | Executed(principal: string, id: nat, scheduledFor: int, outcome: Outcome)

  datatype Agent = Agent(tasks: map<nat, Task>, alarm: Option<int>, replies: map<string, Reply>, outbox: seq<Event>)

  const ALARM_LIMIT := 20

  // ---- Queries ----

  predicate Waits(t: Task) {
    t.enabled && t.status != Completed && t.next.Some?
  }

  function Waiting(tasks: map<nat, Task>): set<nat> {
    set id | id in tasks && Waits(tasks[id])
  }

  function DueAt(tasks: map<nat, Task>, at: int): set<nat> {
    set id | id in tasks && Waits(tasks[id]) && tasks[id].next.value <= at
  }

  /** The order of next runs; ties, which the database may break at will, go by identifier. */
  predicate Before(tasks: map<nat, Task>, a: nat, b: nat)
    requires a in Waiting(tasks) && b in Waiting(tasks)
  {
    tasks[a].next.value < tasks[b].next.value || (tasks[a].next == tasks[b].next && a <= b)
  }

  lemma SomeTask(ids: set<nat>)
    ensures ids == {} || exists id :: id in ids
  {
    if forall id :: id !in ids {
      assert ids == {};
    }
  }

  predicate IsFirst(tasks: map<nat, Task>, ids: set<nat>, a: nat)
    requires ids <= Waiting(tasks)
  {
    a in ids && forall b :: b in ids ==> Before(tasks, a, b)
  }

  lemma FirstOfMore(tasks: map<nat, Task>, ids: set<nat>, x: nat, y: nat)
    requires ids <= Waiting(tasks) && x in ids && IsFirst(tasks, ids - {x}, y)
    ensures IsFirst(tasks, ids, if Before(tasks, x, y) then x else y)
  {
    var a := if Before(tasks, x, y) then x else y;
    forall b | b in ids
      ensures Before(tasks, a, b)
    {
      assert b == x || Before(tasks, y, b);
    }
  }

  lemma {:induction false} FirstExists(tasks: map<nat, Task>, ids: set<nat>)
    requires ids <= Waiting(tasks) && ids != {}
    ensures exists a :: IsFirst(tasks, ids, a)
  {
    SomeTask(ids);
    var x :| x in ids;
    SomeTask(ids - {x});
    if ids - {x} == {} {
      assert forall b :: b in ids ==> b == x || b in ids - {x};
      assert IsFirst(tasks, ids, x);
    } else {
      FirstExists(tasks, ids - {x});
      var y :| IsFirst(tasks, ids - {x}, y);
      FirstOfMore(tasks, ids, x, y);
    }
  }

  ghost function FirstOf(tasks: map<nat, Task>, ids: set<nat>): (a: nat)
    requires ids <= Waiting(tasks) && ids != {}
    ensures IsFirst(tasks, ids, a)
  {
    FirstExists(tasks, ids);
    var a :| IsFirst(tasks, ids, a);
    a
  }

  /** No other waits for less. */
  lemma FirstIsFirst(tasks: map<nat, Task>, ids: set<nat>, a: nat)
    requires ids == Waiting(tasks) && IsFirst(tasks, ids, a)
    ensures tasks[FirstOf(tasks, ids)].next == tasks[a].next
    ensures forall id :: id in tasks && Waits(tasks[id]) ==> tasks[a].next.value <= tasks[id].next.value
  {
    assert Before(tasks, a, FirstOf(tasks, ids)) && Before(tasks, FirstOf(tasks, ids), a);
    forall id | id in tasks && Waits(tasks[id])
      ensures tasks[a].next.value <= tasks[id].next.value
    {
      assert id in ids && Before(tasks, a, id);
    }
  }

  /** ORDER BY next_run_at LIMIT n. */
  ghost function FirstFew(tasks: map<nat, Task>, ids: set<nat>, n: nat): seq<nat>
    requires ids <= Waiting(tasks)
  {
    if n == 0 || ids == {} then []
    else var a := FirstOf(tasks, ids); [a] + FirstFew(tasks, ids - {a}, n - 1)
  }

  ghost function DueList(tasks: map<nat, Task>, now: int): seq<nat> {
    FirstFew(tasks, DueAt(tasks, now), ALARM_LIMIT)
  }

  // ---- Operations ----

  /** The alarm is set for the first task, or for now when that is overdue. */
  ghost function AlarmFor(tasks: map<nat, Task>, now: int): Option<int> {
    if Waiting(tasks) == {} then None
    else Some(Max(now, tasks[FirstOf(tasks, Waiting(tasks))].next.value))
  }

  function NextFor(schedule: TaskSchedule, enabled: bool, status: TaskStatus, now: int): Option<int> {
    if enabled && status != Completed then NextRun(schedule, now) else None
  }

  function NewTask(title: string, description: string, schedule: TaskSchedule, now: int): Task {
    Task(title, description, Pending, schedule, true, NextRun(schedule, now), None, None, None)
  }

  /** A request changes the fields that it gives. */
  datatype Change = Change(
    title: Option<string>, description: Option<string>, status: Option<TaskStatus>,
    schedule: Option<TaskSchedule>, enabled: Option<bool>)

  function Given<T>(o: Option<T>, otherwise: T): T {
    if o.Some? then o.value else otherwise
  }

  function Changed(t: Task, c: Change, now: int): Task {
    var schedule, enabled, status :=
      Given(c.schedule, t.schedule), Given(c.enabled, t.enabled), Given(c.status, t.status);
    t.(title := Given(c.title, t.title), description := Given(c.description, t.description),
       status := status, schedule := schedule, enabled := enabled, next := NextFor(schedule, enabled, status, now))
  }

  /** A schedule that will not run again is refused for a task that is to run. */
  predicate HasNoRun(t: Task) {
    !t.schedule.NoSchedule? && t.enabled && t.status != Completed && t.next.None?
  }

  /** The row after a run, written with the schedule that was read before the run. */
  function Ran(t: Task, schedule: TaskSchedule, now: int, outcome: Outcome): Task {
    t.(status := if !schedule.Recurring? && outcome.ok then Completed else Pending,
       enabled := schedule.Recurring?,
       next := if schedule.Recurring? then NextRun(schedule, now) else None,
       lastRun := Some(now), lastOk := Some(outcome.ok), lastError := outcome.error)
  }

  function AfterRuns(tasks: map<nat, Task>, due: set<nat>, now: int, outcome: nat -> Outcome): map<nat, Task> {
    map id | id in tasks :: if id in due then Ran(tasks[id], tasks[id].schedule, now, outcome(id)) else tasks[id]
  }

  lemma NoRuns(tasks: map<nat, Task>, now: int, outcome: nat -> Outcome)
    ensures AfterRuns(tasks, {}, now, outcome) == tasks
  {}

  lemma OneMoreElement(due: seq<nat>, k: nat)
    requires k < |due| && forall i, j :: 0 <= i < j < |due| ==> due[i] != due[j]
    ensures due[k] in Elements(due) && due[k] !in Elements(due[..k])
    ensures Elements(due[..k + 1]) == Elements(due[..k]) + {due[k]}
  {}

  lemma OneMoreRun(tasks: map<nat, Task>, done: set<nat>, id: nat, now: int, outcome: nat -> Outcome)
    requires id in tasks && id !in done
    ensures var after := AfterRuns(tasks, done, now, outcome);
            && id in after && after[id] == tasks[id]
            && AfterRuns(tasks, done + {id}, now, outcome)
                 == after[id := Ran(tasks[id], tasks[id].schedule, now, outcome(id))]
  {}

  ghost function Elements(s: seq<nat>): set<nat> {
    set i | 0 <= i < |s| :: s[i]
  }

  /** One event for each run, in the order of the runs. */
  ghost function Executions(tasks: map<nat, Task>, due: seq<nat>, principal: string, outcome: nat -> Outcome)
    : seq<Event>
    requires Elements(due) <= Waiting(tasks)
  {
    seq(|due|, (k: nat) requires k < |due| =>
      assert due[k] in Elements(due);
      Executed(principal, due[k], tasks[due[k]].next.value, outcome(due[k])))
  }

  lemma DueAreWaiting(tasks: map<nat, Task>, now: int)
    ensures DueAt(tasks, now) <= Waiting(tasks)
  {}

  lemma RunsOnly(tasks: map<nat, Task>, due: seq<nat>, now: int, outcome: nat -> Outcome)
    ensures forall id :: id in tasks && id !in due ==>
              id in AfterRuns(tasks, Elements(due), now, outcome)
              && AfterRuns(tasks, Elements(due), now, outcome)[id] == tasks[id]
  {
    hide Ran;
  }

  lemma EventsAre(tasks: map<nat, Task>, due: seq<nat>, principal: string, outcome: nat -> Outcome)
    requires Elements(due) <= Waiting(tasks)
    ensures |Executions(tasks, due, principal, outcome)| == |due|
    ensures forall k :: 0 <= k < |due| ==>
              && due[k] in tasks && tasks[due[k]].next.Some?
              && Executions(tasks, due, principal, outcome)[k] ==
                 Executed(principal, due[k], tasks[due[k]].next.value, outcome(due[k]))
  {
    forall k | 0 <= k < |due|
      ensures due[k] in Waiting(tasks)
    {
      assert due[k] in Elements(due);
    }
  }

  /** A whole alarm from `now` to `ended`, without edits while tasks run. */
  ghost function AlarmRun(a: Agent, principal: string, now: int, ended: int, outcome: nat -> Outcome): Agent {
    var due := DueList(a.tasks, now);
    var tasks := AfterRuns(a.tasks, Elements(due), now, outcome);
    DueListIsDistinct(a.tasks, now);
    a.(tasks := tasks, alarm := AlarmFor(tasks, ended),
       outbox := a.outbox + Executions(a.tasks, due, principal, outcome))
  }

  // ---- The class ----

  datatype Response = Answer(reply: Reply) | NotFound | NoFutureRun

  class ConversationAgent {
    var tasks: map<nat, Task>
    var alarm: Option<int>
    var replies: map<string, Reply>
    var outbox: seq<Event>

    ghost function State(): Agent
      reads this
    {
      Agent(tasks, alarm, replies, outbox)
    }

    /** Schedules were validated when they came in. */
    predicate Valid()
      reads this
    {
      forall id :: id in tasks ==> ValidSchedule(tasks[id].schedule)
    }

    constructor ()
      ensures Valid() && State() == Agent(map[], None, map[], [])
    {
      tasks, alarm, replies, outbox := map[], None, map[], [];
    }

    method RescheduleAlarm(now: int)
      modifies this`alarm
      ensures alarm == AlarmFor(tasks, now)
      ensures alarm.None? <==> forall id :: id in tasks ==>
                                 !(tasks[id].enabled && tasks[id].status != Completed && tasks[id].next.Some?)
      ensures forall id :: id in tasks && tasks[id].enabled && tasks[id].status != Completed && tasks[id].next.Some? ==>
                alarm.Some? && (alarm.value <= now || alarm.value <= tasks[id].next.value)
      ensures alarm.Some? ==>
                exists id :: id in tasks && tasks[id].enabled && tasks[id].status != Completed && tasks[id].next.Some?
                             && alarm.value == if now < tasks[id].next.value then tasks[id].next.value else now
    {
      var waiting := Waiting(tasks);
      if waiting == {} {
        alarm := None;
        assert forall id :: id in tasks && Waits(tasks[id]) ==> id in waiting;
      } else {
        FirstExists(tasks, waiting);
        var first :| first in waiting && IsFirst(tasks, waiting, first);
        var at := tasks[first].next.value;
        alarm := Some(if at < now then now else at);
        FirstIsFirst(tasks, waiting, first);
      }
    }

    method RecordWrite(key: string, reply: Reply, event: Event)
      modifies this`replies, this`outbox
      ensures replies == old(replies)[key := reply] && outbox == old(outbox) + [event]
    {
      outbox := outbox + [event];
      replies := replies[key := reply];
    }

    method CreateTask(principal: string, key: string, title: string, description: string, schedule: TaskSchedule,
                      now: int, id: nat)
      returns (response: Response)
      requires Valid() && id !in tasks && ValidSchedule(schedule) && !schedule.NoSchedule?
      modifies this
      ensures Valid()
      ensures "task:" + key in old(replies) ==>
                response == Answer(old(replies)["task:" + key]) && State() == old(State())
      ensures "task:" + key !in old(replies) ==>
                var task := Task(title, description, Pending, schedule, true, NextRun(schedule, now), None, None, None);
                if task.next.None? then response == NoFutureRun && State() == old(State())
                else response == Answer(TaskReply(id, task))
                     && tasks == old(tasks)[id := task] && alarm == AlarmFor(tasks, now)
                     && replies == old(replies)["task:" + key := TaskReply(id, task)]
                     && outbox == old(outbox) + [Created(principal, id)]
    {
      if "task:" + key in replies {
        return Answer(replies["task:" + key]);
      }
      var nextRunAt := NextTaskRunAt(schedule, now);
      if nextRunAt.None? {
        return NoFutureRun;
      }
      var task := Task(title, description, Pending, schedule, true, nextRunAt, None, None, None);
      tasks := tasks[id := task];
      RecordWrite("task:" + key, TaskReply(id, task), Created(principal, id));
      RescheduleAlarm(now);
      return Answer(TaskReply(id, task));
    }

    static method ApplyChange(existing: Task, change: Change, now: int) returns (task: Task)
      requires ValidSchedule(existing.schedule)
      requires change.schedule.Some? ==> ValidSchedule(change.schedule.value)
      ensures task == Changed(existing, change, now)
      ensures task.title == if change.title.Some? then change.title.value else existing.title
      ensures task.description == if change.description.Some? then change.description.value else existing.description
      ensures task.status == if change.status.Some? then change.status.value else existing.status
      ensures task.schedule == if change.schedule.Some? then change.schedule.value else existing.schedule
      ensures task.enabled == if change.enabled.Some? then change.enabled.value else existing.enabled
      ensures task.next == if task.enabled && task.status != Completed then NextRun(task.schedule, now) else None
      ensures (task.lastRun, task.lastOk, task.lastError) == (existing.lastRun, existing.lastOk, existing.lastError)
    {
      var schedule := if change.schedule.Some? then change.schedule.value else existing.schedule;
      var enabled := if change.enabled.Some? then change.enabled.value else existing.enabled;
      var status := if change.status.Some? then change.status.value else existing.status;
      var nextRunAt := None;
      if enabled && status != Completed {
        nextRunAt := NextTaskRunAt(schedule, now);
      }
      task := existing.(
        title := if change.title.Some? then change.title.value else existing.title,
        description := if change.description.Some? then change.description.value else existing.description,
        status := status, schedule := schedule, enabled := enabled, next := nextRunAt);
    }

    method UpdateTask(principal: string, key: string, id: nat, change: Change, now: int) returns (response: Response)
      requires change.schedule.Some? ==> ValidSchedule(change.schedule.value)
      requires Valid()
      modifies this
      ensures Valid()
      ensures "task-update:" + key in old(replies) ==>
                response == Answer(old(replies)["task-update:" + key]) && State() == old(State())
      ensures "task-update:" + key !in old(replies) ==>
                if id !in old(tasks) then response == NotFound && State() == old(State())
                else
                  var task := Changed(old(tasks)[id], change, now);
                  if !task.schedule.NoSchedule? && task.enabled && task.status != Completed && task.next.None?
                  then response == NoFutureRun && State() == old(State())
                  else response == Answer(TaskReply(id, task))
                       && tasks == old(tasks)[id := task] && alarm == AlarmFor(tasks, now)
                       && replies == old(replies)["task-update:" + key := TaskReply(id, task)]
                       && outbox == old(outbox) + [Updated(principal, id)]
    {
      hide ValidSchedule, NextRun, AlarmFor;
      if "task-update:" + key in replies {
        return Answer(replies["task-update:" + key]);
      }
      if id !in tasks {
        return NotFound;
      }
      var task := ApplyChange(tasks[id], change, now);
      if HasNoRun(task) {
        return NoFutureRun;
      }
      tasks := tasks[id := task];
      RecordWrite("task-update:" + key, TaskReply(id, task), Updated(principal, id));
      RescheduleAlarm(now);
      return Answer(TaskReply(id, task));
    }

    method DeleteTask(principal: string, key: string, id: nat, now: int) returns (response: Response)
      requires Valid()
      modifies this
      ensures Valid()
      ensures "task-delete:" + key in old(replies) ==>
                response == Answer(old(replies)["task-delete:" + key]) && State() == old(State())
      ensures "task-delete:" + key !in old(replies) ==>
                if id !in old(tasks) then response == NotFound && State() == old(State())
                else response == Answer(DeletedReply(id))
                     && tasks == old(tasks) - {id} && alarm == AlarmFor(tasks, now)
                     && replies == old(replies)["task-delete:" + key := DeletedReply(id)]
                     && outbox == old(outbox) + [Deleted(principal, id)]
    {
      if "task-delete:" + key in replies {
        return Answer(replies["task-delete:" + key]);
      }
      if id !in tasks {
        return NotFound;
      }
      tasks := tasks - {id};
      RecordWrite("task-delete:" + key, DeletedReply(id), Deleted(principal, id));
      RescheduleAlarm(now);
      return Answer(DeletedReply(id));
    }

    /** The query of the alarm. */
    method SelectDue(now: int) returns (due: seq<nat>)
      ensures due == DueList(tasks, now)
      ensures |due| <= 20 && forall i, j :: 0 <= i < j < |due| ==> due[i] != due[j]
      ensures forall id :: id in due ==> IsDue(tasks, id, now)
      ensures forall i, j :: 0 <= i < j < |due| ==> NoLater(tasks, due[i], due[j])
      ensures forall id :: IsDue(tasks, id, now) && id !in due ==>
                |due| == 20 && forall i :: 0 <= i < 20 ==> NoLater(tasks, due[i], id)
    {
      var left, limit := DueAt(tasks, now), ALARM_LIMIT;
      due := [];
      while left != {} && limit > 0
        invariant left <= Waiting(tasks) && 0 <= limit
        invariant due + FirstFew(tasks, left, limit) == DueList(tasks, now)
        decreases limit
      {
        FirstExists(tasks, left);
        var a :| a in left && IsFirst(tasks, left, a);
        assert a == FirstOf(tasks, left);
        due, left, limit := due + [a], left - {a}, limit - 1;
      }
      DueListIs(tasks, now);
    }

    /** What follows a run: the two statements at the end of the alarm's loop. */
    method FinishRun(principal: string, id: nat, schedule: TaskSchedule, at: int, now: int, outcome: Outcome)
      requires Valid() && id in tasks && ValidSchedule(schedule)
      modifies this`tasks, this`outbox
      ensures Valid()
      ensures tasks == old(tasks)[id := Ran(old(tasks)[id], schedule, now, outcome)]
      ensures var t := old(tasks)[id];
              tasks[id] == Task(t.title, t.description,
                                if schedule.Recurring? || !outcome.ok then Pending else Completed,
                                t.schedule, schedule.Recurring?,
                                if schedule.Recurring? then NextRun(schedule, now) else None,
                                Some(now), Some(outcome.ok), outcome.error)
      ensures outbox == old(outbox) + [Executed(principal, id, at, outcome)]
    {
      var nextRunAt := None;
      if schedule.Recurring? {
        nextRunAt := NextTaskRunAt(schedule, now);
      }
      tasks := tasks[id := tasks[id].(
        status := if !schedule.Recurring? && outcome.ok then Completed else Pending,
        enabled := schedule.Recurring?, next := nextRunAt,
        lastRun := Some(now), lastOk := Some(outcome.ok), lastError := outcome.error)];
      outbox := outbox + [Executed(principal, id, at, outcome)];
    }

    /** `conversation` is the principal of the conversation, `outcome` how the task runner takes
        each task. */
    method Alarm(conversation: Option<string>, now: int, ended: int, outcome: nat -> Outcome)
      requires Valid()
      modifies this
      ensures Valid()
      ensures State() == if conversation.Some? then AlarmRun(old(State()), conversation.value, now, ended, outcome)
                         else old(State()).(alarm := AlarmFor(old(tasks), ended))
    {
      if conversation.None? {
        RescheduleAlarm(ended);
        return;
      }
      AlarmAwake(conversation.value, now, ended, outcome);
    }

    method AlarmAwake(principal: string, now: int, ended: int, outcome: nat -> Outcome)
      requires Valid()
      modifies this
      ensures Valid() && State() == AlarmRun(old(State()), principal, now, ended, outcome)
    {
      hide NoLater, IsDue, FirstFew, AlarmFor, AfterRuns, Executions, ValidSchedule;
      var due := SelectDue(now);
      DueListIsDistinct(tasks, now);
      DueAreWaiting(tasks, now);
      hide DueList, Waiting, DueAt;
      RunAll(principal, due, now, outcome);
      RescheduleAlarm(ended);
    }

    /** The loop of the alarm. */
    method RunAll(principal: string, due: seq<nat>, now: int, outcome: nat -> Outcome)
      requires Valid() && Elements(due) <= Waiting(tasks)
      requires forall i, j :: 0 <= i < j < |due| ==> due[i] != due[j]
      modifies this`tasks, this`outbox
      ensures Valid() && tasks == AfterRuns(old(tasks), Elements(due), now, outcome)
      ensures outbox == old(outbox) + Executions(old(tasks), due, principal, outcome)
      ensures forall id :: id in old(tasks) && id !in due ==> id in tasks && tasks[id] == old(tasks)[id]
      ensures |outbox| == |old(outbox)| + |due|
      ensures forall k :: 0 <= k < |due| ==>
                && due[k] in old(tasks) && old(tasks)[due[k]].next.Some?
                && outbox[|old(outbox)| + k] ==
                   Executed(principal, due[k], old(tasks)[due[k]].next.value, outcome(due[k]))
    {
      RunEach(principal, due, now, outcome);
      RunsOnly(old(tasks), due, now, outcome);
      EventsAre(old(tasks), due, principal, outcome);
      hide AfterRuns, Executions, Elements, Waiting, ValidSchedule;
    }

    method RunEach(principal: string, due: seq<nat>, now: int, outcome: nat -> Outcome)
      requires Valid() && Elements(due) <= Waiting(tasks)
      requires forall i, j :: 0 <= i < j < |due| ==> due[i] != due[j]
      modifies this`tasks, this`outbox
      ensures Valid() && tasks == AfterRuns(old(tasks), Elements(due), now, outcome)
      ensures outbox == old(outbox) + Executions(old(tasks), due, principal, outcome)
    {
      NoRuns(tasks, now, outcome);
      assert Elements(due[..0]) == {};
      ghost var events := Executions(tasks, due, principal, outcome);
      hide Ran, AfterRuns, ValidSchedule;
      for k := 0 to |due|
        invariant Valid() && tasks == AfterRuns(old(tasks), Elements(due[..k]), now, outcome)
        invariant outbox == old(outbox) + events[..k]
      {
        var id := due[k];
        OneMoreElement(due, k);
        hide Elements, Waiting;
        OneMoreRun(old(tasks), Elements(due[..k]), id, now, outcome);
        assert events[..k + 1] == events[..k] + [events[k]];
        FinishRun(principal, id, tasks[id].schedule, tasks[id].next.value, now, outcome(id));
      }
      assert due[..|due|] == due && events[..|due|] == events;
    }
  }

  lemma {:induction false} FirstFewAre(tasks: map<nat, Task>, ids: set<nat>, n: nat)
    requires ids <= Waiting(tasks)
    ensures Elements(FirstFew(tasks, ids, n)) <= ids
    ensures forall i, j :: 0 <= i < j < |FirstFew(tasks, ids, n)| ==>
              FirstFew(tasks, ids, n)[i] != FirstFew(tasks, ids, n)[j]
  {
    if n > 0 && ids != {} {
      var a := FirstOf(tasks, ids);
      FirstFewAre(tasks, ids - {a}, n - 1);
      var rest := FirstFew(tasks, ids - {a}, n - 1);
      assert forall i :: 0 <= i < |rest| ==> rest[i] in Elements(rest);
    }
  }

  /** The task waits for a time that has come. */
  predicate IsDue(tasks: map<nat, Task>, id: nat, now: int) {
    && id in tasks && tasks[id].enabled && tasks[id].status != Completed
    && tasks[id].next.Some? && tasks[id].next.value <= now
  }

  predicate NoLater(tasks: map<nat, Task>, a: nat, b: nat) {
    && a in tasks && b in tasks && tasks[a].next.Some? && tasks[b].next.Some?
    && tasks[a].next.value <= tasks[b].next.value
  }

  /** The first few come in order, and nothing is left out that comes before them. */
  lemma {:induction false} FirstFewAreInOrder(tasks: map<nat, Task>, ids: set<nat>, n: nat)
    requires ids <= Waiting(tasks)
    ensures var few := FirstFew(tasks, ids, n);
            && |few| <= n && (forall id :: id in few ==> id in ids)
            && (forall i, j :: 0 <= i < j < |few| ==> NoLater(tasks, few[i], few[j]))
            && forall id :: id in ids && id !in few ==>
                 |few| == n && forall i :: 0 <= i < n ==> NoLater(tasks, few[i], id)
  {
    if n > 0 && ids != {} {
      var a := FirstOf(tasks, ids);
      FirstFewAreInOrder(tasks, ids - {a}, n - 1);
      var rest := FirstFew(tasks, ids - {a}, n - 1);
      forall id | id in ids
        ensures NoLater(tasks, a, id)
      {
        assert Before(tasks, a, id);
      }
      hide IsFirst, Before, NoLater;
    }
  }

  lemma DueListIs(tasks: map<nat, Task>, now: int)
    ensures var due := DueList(tasks, now);
            && |due| <= 20 && (forall i, j :: 0 <= i < j < |due| ==> due[i] != due[j])
            && (forall id :: id in due ==> IsDue(tasks, id, now))
            && (forall i, j :: 0 <= i < j < |due| ==> NoLater(tasks, due[i], due[j]))
            && forall id :: IsDue(tasks, id, now) && id !in due ==>
                 |due| == 20 && forall i :: 0 <= i < 20 ==> NoLater(tasks, due[i], id)
  {
    DueListIsDistinct(tasks, now);
    FirstFewAreInOrder(tasks, DueAt(tasks, now), 20);
    assert forall id :: IsDue(tasks, id, now) <==> id in DueAt(tasks, now);
    hide FirstFew;
  }

  lemma DueListIsDistinct(tasks: map<nat, Task>, now: int)
    ensures Elements(DueList(tasks, now)) <= DueAt(tasks, now)
    ensures forall i, j :: 0 <= i < j < |DueList(tasks, now)| ==> DueList(tasks, now)[i] != DueList(tasks, now)[j]
  {
    FirstFewAre(tasks, DueAt(tasks, now), ALARM_LIMIT);
  }
}
