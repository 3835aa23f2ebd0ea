/** No event is lost, however closes, appends and deletions interleave: what is not in the live
    segments was counted by a checkpoint, or reached its segment after that was read. */
module AuditConservation {
  import opened Common
  import opened AuditLedger
  import opened AuditSafety
  import opened AuditClosing

  /** How many events the run has stored. */
  ghost function Stored(states: seq<State>, steps: seq<Step>, n: nat): nat
    requires n <= |steps| < |states|
  {
    if n == 0 then 0
    else
      var step := steps[n - 1];
      Stored(states, steps, n - 1)
        + if step.Arrive? && !HasEvent(states[n - 1].ledger.events, step.input.id) then 1 else 0
  }

  /** The last deletion of a segment before `n`. */
  ghost function LastRemoval(steps: seq<Step>, n: nat, date: int): Option<nat>
    requires n <= |steps|
  {
    if n == 0 then None else if Removes(steps[n - 1], date) then Some(n - 1) else LastRemoval(steps, n - 1, date)
  }

  /** The checkpoint on record was read since the segment was deleted last. */
  ghost predicate IsOfThisSegment(states: seq<State>, steps: seq<Step>, n: nat, date: int)
    requires n <= |steps| < |states|
  {
    var read := ReadAt(states, steps, n, date, true);
    read.Some? && read.value <= n && IsKept(steps, read.value, n, date)
  }

  /** What the checkpoint on record counts of the present segment. */
  ghost function Recorded(states: seq<State>, steps: seq<Step>, n: nat, date: int): nat
    requires n <= |steps| < |states|
  {
    if IsOfThisSegment(states, steps, n, date) && date in states[n].ledger.rows
    then states[n].ledger.rows[date].count else 0
  }

  /** Since when events of the present segment are not in the checkpoint on record. */
  ghost function Since(states: seq<State>, steps: seq<Step>, n: nat, date: int): (m: nat)
    requires n <= |steps| < |states|
    ensures m <= n
  {
    var removal := LastRemoval(steps, n, date);
    if IsOfThisSegment(states, steps, n, date) then ReadAt(states, steps, n, date, true).value
    else if removal.Some? && removal.value < n then removal.value + 1 else 0
  }

  /** How many events of the present segment reached it too late for the checkpoint on record. */
  ghost function Late(states: seq<State>, steps: seq<Step>, n: nat, date: int): nat
    requires n <= |steps| < |states|
  {
    Reached(states, steps, Since(states, steps, n, date), n, date)
  }

  lemma {:induction false} KeptSinceRemoval(steps: seq<Step>, n: nat, date: int)
    requires n <= |steps|
    ensures var removal := LastRemoval(steps, n, date);
            match removal
            case None => IsKept(steps, 0, n, date)
            case Some(r) => r < n && Removes(steps[r], date) && IsKept(steps, r + 1, n, date)
  {
    if n > 0 {
      KeptSinceRemoval(steps, n - 1, date);
    }
  }

  lemma RemovalEmpties(s: State, step: Step, date: int)
    requires Possible(s, step) && Removes(step, date)
    ensures EventsOf(Next(s, step).ledger.events, date) == []
    ensures |s.ledger.events| == |Next(s, step).ledger.events| + |EventsOf(s.ledger.events, date)|
  {
    WithoutEvents(s.ledger.events, {date}, date);
    WithoutNone(s.ledger.events);
    WithoutOneMore(s.ledger.events, {}, date);
    assert {} + {date} == {date};
  }

  /** Before a deletion the checkpoint on record and the late arrivals account for all events
      of the segment. */
  lemma SegmentIsAccountedFor(states: seq<State>, steps: seq<Step>, n: nat, date: int)
    requires AuditClosing.IsRun(states, steps) && n <= |steps| && date in states[n].ledger.rows
    ensures |EventsOf(states[n].ledger.events, date)| ==
            Recorded(states, steps, n, date) + Late(states, steps, n, date)
  {
    CheckpointIsAsRead(states, steps, n, date, true);
    KeptSinceRemoval(steps, n, date);
    var since := Since(states, steps, n, date);
    if !IsOfThisSegment(states, steps, n, date) {
      var removal := LastRemoval(steps, n, date);
      if removal.Some? {
        assert Possible(states[removal.value], steps[removal.value]);
        RemovalEmpties(states[removal.value], steps[removal.value], date);
      }
    }
    EventsGrow(states, steps, since, n, date);
    hide EventsOf, Possible, Next, ReadAt, LastRemoval, Reached;
  }

  /** The sums over all deletions. */
  ghost function AllRecorded(states: seq<State>, steps: seq<Step>, n: nat): nat
    requires n <= |steps| < |states|
  {
    if n == 0 then 0
    else
      AllRecorded(states, steps, n - 1)
        + if steps[n - 1].Remove? then Recorded(states, steps, n - 1, steps[n - 1].date) else 0
  }

  ghost function AllLate(states: seq<State>, steps: seq<Step>, n: nat): nat
    requires n <= |steps| < |states|
  {
    if n == 0 then 0
    else
      AllLate(states, steps, n - 1)
        + if steps[n - 1].Remove? then Late(states, steps, n - 1, steps[n - 1].date) else 0
  }

  lemma StepConserves(states: seq<State>, steps: seq<Step>, n: nat)
    requires AuditClosing.IsRun(states, steps) && n < |steps|
    ensures var before, after, step := states[n].ledger.events, states[n + 1].ledger.events, steps[n];
            |after| == |before|
                       + (if step.Arrive? && !HasEvent(before, step.input.id) then 1 else 0)
                       - if step.Remove? then
                           Recorded(states, steps, n, step.date) + Late(states, steps, n, step.date)
                         else 0
  {
    var step := steps[n];
    assert Possible(states[n], step) && states[n + 1] == Next(states[n], step);
    if step.Remove? {
      SegmentIsAccountedFor(states, steps, n, step.date);
      RemovalEmpties(states[n], step, step.date);
    }
    hide AuditClosing.IsRun, HasEvent, EventsOf, Without, Closable, Recorded, Late;
  }

  /** Conservation over every run: each event stored is live, or was counted by the checkpoint
      of a deleted segment, or had reached that segment too late for the checkpoint. A
      checkpoint that was read before an earlier deletion of its segment counts for nothing. */
  lemma {:induction false} NoEventIsLost(states: seq<State>, steps: seq<Step>, n: nat)
    requires AuditClosing.IsRun(states, steps) && n <= |steps|
    ensures Stored(states, steps, n) ==
            |states[n].ledger.events| + AllRecorded(states, steps, n) + AllLate(states, steps, n)
  {
    if n > 0 {
      NoEventIsLost(states, steps, n - 1);
      StepConserves(states, steps, n - 1);
    }
    hide Recorded, Late, HasEvent, Next, Possible;
  }

  /** No deleted segment had an event that came too late for its checkpoint. */
  ghost predicate NoneLate(states: seq<State>, steps: seq<Step>, n: nat)
    requires n <= |steps| < |states|
  {
    forall k :: 0 <= k < n && steps[k].Remove? ==> Late(states, steps, k, steps[k].date) == 0
  }

  lemma {:induction false} AllLateIsZeroWhen(states: seq<State>, steps: seq<Step>, n: nat)
    requires n <= |steps| < |states|
    ensures AllLate(states, steps, n) == 0 <==> NoneLate(states, steps, n)
  {
    if n > 0 {
      AllLateIsZeroWhen(states, steps, n - 1);
    }
    hide Late;
  }

  /** Live events and checkpoints alone account for every event if and only if no deleted
      segment had an event that came too late for its checkpoint. */
  lemma CheckpointsAccountForAllWhen(states: seq<State>, steps: seq<Step>, n: nat)
    requires AuditClosing.IsRun(states, steps) && n <= |steps|
    ensures Stored(states, steps, n) == |states[n].ledger.events| + AllRecorded(states, steps, n) <==>
            NoneLate(states, steps, n)
  {
    NoEventIsLost(states, steps, n);
    AllLateIsZeroWhen(states, steps, n);
    hide AuditClosing.IsRun, NoneLate, Stored, AllRecorded, AllLate;
  }
}
