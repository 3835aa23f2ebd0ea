/** Closing segments while events arrive: the alarm of the ledger reads what to close first, and
    then awaits storage and the database before it marks each segment, in which time appends and
    other closes are let in. */
module AuditClosing {
  import opened Common
  import opened AuditLedger
  import opened AuditSafety

  /** What a close read of a segment. */
  datatype Entry = Entry(date: int, checkpoint: Checkpoint)

  datatype Stage = Storing | Recording | Marking

  /** A close under way: the segments it has still to get through, and the statement it comes to
      for the first of them. It may stop at any time. */
  datatype Closer = Closer(todo: seq<Entry>, stage: Stage)

  datatype State = State(ledger: Ledger, closers: map<nat, Closer>, clock: int)

  datatype Step =
    | Arrive(input: Input, today: int)
    | Select(c: nat, through: int, dates: seq<int>, today: int)
    | Store(c: nat)
    | Record(c: nat)
    | Mark(c: nat)
    | Remove(before: int, date: int, today: int)

  ghost predicate IsAt(s: State, c: nat, stage: Stage) {
    c in s.closers && s.closers[c].todo != [] && s.closers[c].stage == stage
  }

  ghost predicate Possible(s: State, step: Step) {
    match step
    case Arrive(_, today) => s.clock <= today
    case Select(c, through, dates, today) =>
      s.clock <= today && c !in s.closers && Ascending(dates) && Elements(dates) == Closable(s.ledger, through)
    case Store(c) => IsAt(s, c, Storing)
    case Record(c) => IsAt(s, c, Recording)
    case Mark(c) => IsAt(s, c, Marking)
    case Remove(before, date, today) => s.clock <= today && date in Deletable(s.ledger, before)
  }

  ghost function Read(l: Ledger, dates: seq<int>): seq<Entry>
    requires Elements(dates) <= l.segments.Keys
  {
    seq(|dates|, (k: nat) requires k < |dates| =>
      assert dates[k] in Elements(dates);
      Entry(dates[k], CheckpointOf(l.segments[dates[k]])))
  }

  /** Marking closes a segment if it still exists. */
  function MarkedOne(segments: map<int, Segment>, date: int): map<int, Segment> {
    if date in segments then segments[date := segments[date].(status := Closed)] else segments
  }

  ghost function Next(s: State, step: Step): State
    requires Possible(s, step)
  {
    var l := s.ledger;
    match step
    case Arrive(input, today) => s.(ledger := Append(l, input, today), clock := today)
    case Select(c, through, dates, today) =>
      s.(closers := s.closers[c := Closer(Read(l, dates), Storing)], clock := today)
    case Store(c) =>
      var e := s.closers[c].todo[0];
      s.(ledger := l.(objects := l.objects[e.date := e.checkpoint]),
         closers := s.closers[c := s.closers[c].(stage := Recording)])
    case Record(c) =>
      var e := s.closers[c].todo[0];
      s.(ledger := l.(rows := l.rows[e.date := e.checkpoint]),
         closers := s.closers[c := s.closers[c].(stage := Marking)])
    case Mark(c) =>
      var todo := s.closers[c].todo;
      s.(ledger := l.(segments := MarkedOne(l.segments, todo[0].date)),
         closers := s.closers[c := Closer(todo[1..], Storing)])
    case Remove(_, date, today) => s.(ledger := Delete(l, {date}), clock := today)
  }

  ghost predicate IsRun(states: seq<State>, steps: seq<Step>) {
    && |states| == |steps| + 1 && states[0] == State(EMPTY, map[], states[0].clock)
    && forall i :: 0 <= i < |steps| ==> Possible(states[i], steps[i]) && states[i + 1] == Next(states[i], steps[i])
  }

  // ---- Active segments ----

  ghost predicate ActiveOk(l: Ledger, date: int) {
    date in l.segments && l.segments[date].status == Active ==>
      Summarises(CheckpointOf(l.segments[date]), EventsOf(l.events, date))
  }

  /** Events have segments, and the active ones describe their events. */
  ghost predicate ActiveMatching(l: Ledger) {
    && (forall i :: 0 <= i < |l.events| ==> l.events[i].segment in l.segments)
    && (forall d :: ActiveOk(l, d))
  }

  ghost predicate Reaches(s: State, step: Step, date: int) {
    step.Arrive? && !HasEvent(s.ledger.events, step.input.id) && SegmentFor(s.ledger, step.input, step.today) == date
  }

  ghost predicate Removes(step: Step, date: int) {
    step.Remove? && step.date == date
  }

  /** Only an arrival for the segment or its deletion changes the events of a segment. */
  lemma EventsStep(s: State, step: Step, date: int)
    requires Possible(s, step) && !Removes(step, date)
    ensures var before, after := EventsOf(s.ledger.events, date), EventsOf(Next(s, step).ledger.events, date);
            if Reaches(s, step, date) then |after| == |before| + 1 else after == before
  {
    match step
    case Arrive(input, today) =>
      if !HasEvent(s.ledger.events, input.id) {
        EventsOfAppend(s.ledger.events, NewEvent(s.ledger, input, today), date);
      }
    case Remove(_, removed, _) => WithoutEvents(s.ledger.events, {removed}, date);
    case _ =>
  }

  lemma AppendKeepsActive(l: Ledger, input: Input, today: int, date: int)
    requires ActiveMatching(l) && !HasEvent(l.events, input.id)
    ensures ActiveOk(Append(l, input, today), date)
  {
    hide HasEvent, EventsOf, ActiveMatching, Summarises, CheckpointOf;
    if date == SegmentFor(l, input, today) {
      AppendKeepsOwnActive(l, input, today, date);
    } else {
      ActiveBefore(l, date);
      EventsOfAppend(l.events, NewEvent(l, input, today), date);
      assert EventsOf(l.events, date) + [] == EventsOf(l.events, date);
    }
  }

  lemma ActiveBefore(l: Ledger, date: int)
    requires ActiveMatching(l)
    ensures ActiveOk(l, date)
    ensures date !in l.segments ==> EventsOf(l.events, date) == []
  {
    if date !in l.segments {
      NoEventsOf(l, date);
    }
  }

  lemma AppendKeepsOwnActive(l: Ledger, input: Input, today: int, date: int)
    requires ActiveMatching(l) && !HasEvent(l.events, input.id) && date == SegmentFor(l, input, today)
    ensures ActiveOk(Append(l, input, today), date)
  {
    hide HasEvent, EventsOf, ActiveMatching, Summarises, CheckpointOf;
    ActiveBefore(l, date);
    if !IsClosed(l, date) {
      var e := NewEvent(l, input, today);
      EventsOfAppend(l.events, e, date);
      SummaryGrows(l.segments, date, EventsOf(l.events, date), e);
    }
  }

  lemma StepKeepsActive(s: State, step: Step)
    requires Possible(s, step) && ActiveMatching(s.ledger)
    ensures ActiveMatching(Next(s, step).ledger)
  {
    var l, l' := s.ledger, Next(s, step).ledger;
    forall d
      ensures ActiveOk(l', d)
    {
      assert ActiveOk(l, d);
      if step.Arrive? && !HasEvent(l.events, step.input.id) {
        AppendKeepsActive(l, step.input, step.today, d);
      } else if step.Remove? {
        WithoutEvents(l.events, {step.date}, d);
      }
      hide HasEvent, EventsOf, Summarises, Append;
    }
    if step.Remove? {
      WithoutEvents(l.events, {step.date}, 0);
    }
    hide HasEvent, EventsOf, ActiveOk;
  }

  lemma {:induction false} ActiveSegmentsMatch(states: seq<State>, steps: seq<Step>, n: nat)
    requires IsRun(states, steps) && n <= |steps|
    ensures ActiveMatching(states[n].ledger)
  {
    if n > 0 {
      ActiveSegmentsMatch(states, steps, n - 1);
      hide ActiveMatching, Next, Possible;
      StepKeepsActive(states[n - 1], steps[n - 1]);
    }
  }

  // ---- Arrivals ----

  /** How many events reached a segment from `m` on and before `n`. */
  ghost function Reached(states: seq<State>, steps: seq<Step>, m: nat, n: nat, date: int): nat
    requires m <= n <= |steps| < |states|
    decreases n
  {
    if n == m then 0
    else Reached(states, steps, m, n - 1, date) + if Reaches(states[n - 1], steps[n - 1], date) then 1 else 0
  }

  ghost predicate IsKept(steps: seq<Step>, m: nat, n: nat, date: int)
    requires m <= n <= |steps|
  {
    forall k :: m <= k < n ==> !Removes(steps[k], date)
  }

  lemma {:induction false} EventsGrow(states: seq<State>, steps: seq<Step>, m: nat, n: nat, date: int)
    requires IsRun(states, steps) && m <= n <= |steps| && IsKept(steps, m, n, date)
    ensures var before, after := EventsOf(states[m].ledger.events, date), EventsOf(states[n].ledger.events, date);
            var reached := Reached(states, steps, m, n, date);
            |after| == |before| + reached && (reached == 0 ==> after == before)
    decreases n
  {
    if m < n {
      EventsGrow(states, steps, m, n - 1, date);
      EventsStep(states[n - 1], steps[n - 1], date);
      hide Next, Possible, EventsOf, Reaches;
    }
  }

  // ---- What closes write ----

  /** Where the close `c` read the segments. */
  ghost function SelectOf(steps: seq<Step>, n: nat, c: nat): Option<nat>
    requires n <= |steps|
  {
    if n == 0 then None
    else if steps[n - 1].Select? && steps[n - 1].c == c then Some(n - 1)
    else SelectOf(steps, n - 1, c)
  }

  ghost predicate WasRead(l: Ledger, e: Entry) {
    e.date in l.segments && l.segments[e.date].status == Active && e.checkpoint == CheckpointOf(l.segments[e.date])
  }

  ghost predicate Knows(states: seq<State>, steps: seq<Step>, n: nat, c: nat)
    requires n <= |steps| < |states|
  {
    c in states[n].closers ==>
      var select := SelectOf(steps, n, c);
      && select.Some? && select.value < n
      && forall e :: e in states[n].closers[c].todo ==> WasRead(states[select.value].ledger, e)
  }

  lemma {:induction false} ClosersKnow(states: seq<State>, steps: seq<Step>, n: nat, c: nat)
    requires IsRun(states, steps) && n <= |steps|
    ensures Knows(states, steps, n, c)
  {
    if n > 0 {
      ClosersKnow(states, steps, n - 1, c);
      var s, step := states[n - 1], steps[n - 1];
      assert states[n] == Next(s, step) && Possible(s, step);
      if step.Select? && step.c == c {
        forall e | e in states[n].closers[c].todo
          ensures WasRead(s.ledger, e)
        {
          var k :| 0 <= k < |step.dates| && e == Read(s.ledger, step.dates)[k];
          assert step.dates[k] in Elements(step.dates);
        }
      }
    }
    hide IsRun, EventsOf, Append, Delete, Elements, WasRead;
  }

  /** The step writes the checkpoint of a segment, into storage or on record. */
  ghost predicate Writes(s: State, step: Step, date: int, row: bool) {
    && (if row then step.Record? && IsAt(s, step.c, Recording) else step.Store? && IsAt(s, step.c, Storing))
    && s.closers[step.c].todo[0].date == date
  }

  ghost function LastWrite(states: seq<State>, steps: seq<Step>, n: nat, date: int, row: bool): Option<nat>
    requires n <= |steps| < |states|
  {
    if n == 0 then None
    else if Writes(states[n - 1], steps[n - 1], date, row) then Some(n - 1)
    else LastWrite(states, steps, n - 1, date, row)
  }

  function Written(l: Ledger, row: bool): map<int, Checkpoint> {
    if row then l.rows else l.objects
  }

  lemma WriteStep(s: State, step: Step, date: int, row: bool)
    requires Possible(s, step)
    ensures var before, after := Written(s.ledger, row), Written(Next(s, step).ledger, row);
            if Writes(s, step, date, row) then
              date in after && after[date] == s.closers[step.c].todo[0].checkpoint
            else (date in before <==> date in after) && (date in before ==> after[date] == before[date])
  {
    hide EventsOf, Without, Closable, Deletable, HasEvent, Elements;
  }

  lemma {:induction false} WrittenIsTheLastWrite(states: seq<State>, steps: seq<Step>, n: nat, date: int, row: bool)
    requires IsRun(states, steps) && n <= |steps|
    ensures var write, written := LastWrite(states, steps, n, date, row), Written(states[n].ledger, row);
            && (write.Some? <==> date in written)
            && (write.Some? ==>
                  && write.value < n && Writes(states[write.value], steps[write.value], date, row)
                  && written[date] == states[write.value].closers[steps[write.value].c].todo[0].checkpoint)
  {
    if n > 0 {
      WrittenIsTheLastWrite(states, steps, n - 1, date, row);
      assert states[n] == Next(states[n - 1], steps[n - 1]) && Possible(states[n - 1], steps[n - 1]);
      WriteStep(states[n - 1], steps[n - 1], date, row);
      hide Next, Possible, Writes, Written;
    }
    hide IsRun, EventsOf, Without, Closable, Deletable, HasEvent, Elements;
  }

  // ---- Closed segments ----

  /** What is closed was stored and recorded before. */
  ghost predicate WrittenFirst(s: State, date: int) {
    && (IsClosed(s.ledger, date) ==> date in s.ledger.objects && date in s.ledger.rows)
    && forall c :: c in s.closers && s.closers[c].todo != [] && s.closers[c].todo[0].date == date ==>
         && (s.closers[c].stage != Storing ==> date in s.ledger.objects)
         && (s.closers[c].stage == Marking ==> date in s.ledger.rows)
  }

  lemma {:induction false} ClosedIsWritten(states: seq<State>, steps: seq<Step>, n: nat, date: int)
    requires IsRun(states, steps) && n <= |steps|
    ensures WrittenFirst(states[n], date)
  {
    if n > 0 {
      ClosedIsWritten(states, steps, n - 1, date);
      hide WrittenFirst, Next, Possible;
      WrittenFirstStep(states[n - 1], steps[n - 1], date);
    }
  }

  lemma WrittenFirstStep(s: State, step: Step, date: int)
    requires Possible(s, step) && WrittenFirst(s, date)
    ensures WrittenFirst(Next(s, step), date)
  {
    hide EventsOf, Without, Closable, Deletable, HasEvent, Elements, Read, CheckpointOf;
  }

  lemma {:induction false} StaysClosed(states: seq<State>, steps: seq<Step>, m: nat, n: nat, date: int)
    requires IsRun(states, steps) && m <= n <= |steps| && IsKept(steps, m, n, date)
    requires IsClosed(states[m].ledger, date)
    ensures IsClosed(states[n].ledger, date)
    decreases n
  {
    if m < n {
      StaysClosed(states, steps, m, n - 1, date);
      assert states[n] == Next(states[n - 1], steps[n - 1]) && Possible(states[n - 1], steps[n - 1]);
      assert !Removes(steps[n - 1], date);
    }
    hide IsRun, EventsOf, Without, Closable, Deletable, HasEvent, Elements;
  }

  // ---- The main results ----

  /** Where the checkpoint of a segment, in storage or on record, was read. */
  ghost function ReadAt(states: seq<State>, steps: seq<Step>, n: nat, date: int, row: bool): Option<nat>
    requires n <= |steps| < |states|
  {
    var write := LastWrite(states, steps, n, date, row);
    if write.Some? && write.value < |steps| && !steps[write.value].Arrive? && !steps[write.value].Remove?
    then SelectOf(steps, write.value, steps[write.value].c) else None
  }

  /** A written checkpoint describes the segment as it was when the checkpoint was read. */
  lemma CheckpointIsAsRead(states: seq<State>, steps: seq<Step>, n: nat, date: int, row: bool)
    requires IsRun(states, steps) && n <= |steps| && date in Written(states[n].ledger, row)
    ensures var read, written := ReadAt(states, steps, n, date, row), Written(states[n].ledger, row);
            && read.Some? && read.value < n && !IsClosed(states[read.value].ledger, date)
            && Summarises(written[date], EventsOf(states[read.value].ledger.events, date))
  {
    WrittenIsTheLastWrite(states, steps, n, date, row);
    var write := LastWrite(states, steps, n, date, row).value;
    var c := steps[write].c;
    ClosersKnow(states, steps, write, c);
    var read := SelectOf(steps, write, c).value;
    var e := states[write].closers[c].todo[0];
    assert e in states[write].closers[c].todo && WasRead(states[read].ledger, e);
    ActiveSegmentsMatch(states, steps, read);
    assert ActiveOk(states[read].ledger, date);
    hide IsRun, EventsOf, Possible, Next, LastWrite, SelectOf, Summarises;
  }

  /** A closed segment has its checkpoint in storage and on record. Each describes the segment's
      events if and only if no event reached the segment since the checkpoint was read. */
  lemma CheckpointMatchesWhen(states: seq<State>, steps: seq<Step>, n: nat, date: int, row: bool)
    requires IsRun(states, steps) && n <= |steps| && IsClosed(states[n].ledger, date)
    ensures var read, written := ReadAt(states, steps, n, date, row), Written(states[n].ledger, row);
            && date in written && read.Some? && read.value < n
            && (IsKept(steps, read.value, n, date) ==>
                  (Summarises(written[date], EventsOf(states[n].ledger.events, date)) <==>
                   Reached(states, steps, read.value, n, date) == 0))
  {
    ClosedIsWritten(states, steps, n, date);
    CheckpointIsAsRead(states, steps, n, date, row);
    hide IsRun, EventsOf, IsKept, Reached, ReadAt;
    var read := ReadAt(states, steps, n, date, row).value;
    if IsKept(steps, read, n, date) {
      EventsGrow(states, steps, read, n, date);
    }
  }

  /** Closes only concern days before the present one, as in the alarm. */
  ghost predicate IsPunctual(steps: seq<Step>) {
    forall k :: 0 <= k < |steps| && steps[k].Select? ==> steps[k].through < steps[k].today
  }

  ghost predicate PastOnly(s: State, date: int) {
    && (IsClosed(s.ledger, date) ==> date < s.clock)
    && forall c :: c in s.closers && Entries(s.closers[c].todo, date) ==> date < s.clock
  }

  ghost predicate Entries(todo: seq<Entry>, date: int) {
    exists e :: e in todo && e.date == date
  }

  lemma SelectsThePast(s: State, step: Step, date: int)
    requires Possible(s, step) && step.Select? && step.through < step.today
    ensures Entries(Read(s.ledger, step.dates), date) ==> date < step.today
  {
    if Entries(Read(s.ledger, step.dates), date) {
      var e :| e in Read(s.ledger, step.dates) && e.date == date;
      var k :| 0 <= k < |step.dates| && e == Read(s.ledger, step.dates)[k];
      assert step.dates[k] in Elements(step.dates);
    }
    hide EventsOf;
  }

  lemma FewerEntries(todo: seq<Entry>, date: int)
    requires todo != []
    ensures Entries(todo[1..], date) ==> Entries(todo, date)
    ensures Entries(todo, todo[0].date)
  {}

  lemma {:induction false} ClosedIsPast(states: seq<State>, steps: seq<Step>, n: nat, date: int)
    requires IsRun(states, steps) && IsPunctual(steps) && n <= |steps|
    ensures PastOnly(states[n], date)
  {
    if n > 0 {
      ClosedIsPast(states, steps, n - 1, date);
      var s, step := states[n - 1], steps[n - 1];
      assert states[n] == Next(s, step) && Possible(s, step);
      if step.Select? {
        SelectsThePast(s, step, date);
      } else if step.Mark? {
        FewerEntries(s.closers[step.c].todo, date);
      }
    }
    hide IsRun, EventsOf, Without, Closable, Deletable, HasEvent, Elements, Entries, Read;
  }

  /** Nothing reaches a closed segment of a past day. */
  lemma {:induction false} NothingReachesClosed(states: seq<State>, steps: seq<Step>, m: nat, n: nat, date: int)
    requires IsRun(states, steps) && IsPunctual(steps) && m <= n <= |steps| && IsKept(steps, m, n, date)
    requires IsClosed(states[m].ledger, date)
    ensures Reached(states, steps, m, n, date) == 0
    decreases n
  {
    if m < n {
      NothingReachesClosed(states, steps, m, n - 1, date);
      StaysClosed(states, steps, m, n - 1, date);
      ClosedIsPast(states, steps, n - 1, date);
      assert Possible(states[n - 1], steps[n - 1]);
    }
    hide IsRun, HasEvent, Next;
  }

  /** When only past days are closed, a closed segment keeps its events, however closes and
      appends interleave. */
  lemma ClosedSegmentKeepsItsEvents(states: seq<State>, steps: seq<Step>, m: nat, n: nat, date: int)
    requires IsRun(states, steps) && IsPunctual(steps) && m <= n <= |steps| && IsKept(steps, m, n, date)
    requires IsClosed(states[m].ledger, date)
    ensures IsClosed(states[n].ledger, date)
    ensures EventsOf(states[n].ledger.events, date) == EventsOf(states[m].ledger.events, date)
  {
    StaysClosed(states, steps, m, n, date);
    NothingReachesClosed(states, steps, m, n, date);
    EventsGrow(states, steps, m, n, date);
  }

  lemma {:induction false} ReachedAdds(states: seq<State>, steps: seq<Step>, l: nat, m: nat, n: nat, date: int)
    requires l <= m <= n <= |steps| < |states|
    ensures Reached(states, steps, l, n, date) ==
            Reached(states, steps, l, m, date) + Reached(states, steps, m, n, date)
    decreases n
  {
    if m < n {
      ReachedAdds(states, steps, l, m, n - 1, date);
    }
  }

  /** When only past days are closed, what counts is the time between reading and marking: at
      any time after a segment was marked, its checkpoint describes its events if and only if no
      event reached the segment between the reading of the checkpoint and the marking. */
  lemma CheckpointMatchesWhenMarkedInTime(states: seq<State>, steps: seq<Step>, m: nat, n: nat, date: int, row: bool)
    requires IsRun(states, steps) && IsPunctual(steps) && m <= n <= |steps|
    requires IsClosed(states[m].ledger, date) && IsKept(steps, 0, n, date)
    ensures var read, written := ReadAt(states, steps, n, date, row), Written(states[n].ledger, row);
            && date in written && read.Some? && read.value < m
            && (Summarises(written[date], EventsOf(states[n].ledger.events, date)) <==>
                Reached(states, steps, read.value, m, date) == 0)
  {
    StaysClosed(states, steps, m, n, date);
    CheckpointMatchesWhen(states, steps, n, date, row);
    var read := ReadAt(states, steps, n, date, row).value;
    CheckpointIsAsRead(states, steps, n, date, row);
    if m <= read {
      StaysClosed(states, steps, m, read, date);
    }
    NothingReachesClosed(states, steps, m, n, date);
    ReachedAdds(states, steps, read, m, n, date);
    hide IsRun, EventsOf, Possible, Next, Reached, ReadAt, Summarises;
  }

  // ---- Retention ----

  /** Deletions leave the last `k` days alone, as the alarm does with 180. */
  ghost predicate LeavesRecent(steps: seq<Step>, k: int) {
    forall i :: 0 <= i < |steps| && steps[i].Remove? ==> steps[i].before <= steps[i].today - k
  }

  lemma StepKeepsRecentSegment(s: State, step: Step, date: int, k: int)
    requires Possible(s, step) && date in s.ledger.segments && Next(s, step).clock - k <= date
    requires step.Remove? ==> step.before <= step.today - k
    ensures s.clock <= Next(s, step).clock && Extends(s.ledger, Next(s, step).ledger, date)
  {
    match step
    case Arrive(input, today) =>
      if !HasEvent(s.ledger.events, input.id) {
        EventsOfAppend(s.ledger.events, NewEvent(s.ledger, input, today), date);
      }
    case Remove(before, removed, _) =>
      DeletableIs(s.ledger, before);
      WithoutEvents(s.ledger.events, {removed}, date);
    case _ =>
  }

  lemma ClockGrows(s: State, step: Step)
    requires Possible(s, step)
    ensures s.clock <= Next(s, step).clock
  {}

  /** However closes, appends and deletions interleave: a segment that is dated from `k` days
      ago on is still there, with all its events. */
  lemma {:induction false} RecentSegmentsStay(states: seq<State>, steps: seq<Step>, m: nat, n: nat, date: int, k: int)
    requires IsRun(states, steps) && LeavesRecent(steps, k) && m <= n <= |steps|
    requires date in states[m].ledger.segments && states[n].clock - k <= date
    ensures Extends(states[m].ledger, states[n].ledger, date)
    decreases n
  {
    if m < n {
      ClockGrows(states[n - 1], steps[n - 1]);
      hide Possible, Next, EventsOf;
      RecentSegmentsStay(states, steps, m, n - 1, date, k);
      StepKeepsRecentSegment(states[n - 1], steps[n - 1], date, k);
    }
  }

  // ---- A run that closes with a stale checkpoint ----

  lemma Go(states: seq<State>, steps: seq<Step>, step: Step) returns (states': seq<State>, steps': seq<Step>)
    requires IsRun(states, steps) && Possible(states[|steps|], step)
    ensures states' == states + [Next(states[|steps|], step)] && steps' == steps + [step] && IsRun(states', steps')
    ensures states'[|steps'|] == Next(states[|steps|], step)
  {
    hide Next, Possible;
    states', steps' := states + [Next(states[|steps|], step)], steps + [step];
  }

  /** The alarm has read segment 0, with one event, when a second one arrives. */
  lemma ArrivalDuringClose() returns (states: seq<State>, steps: seq<Step>)
    ensures IsRun(states, steps) && IsPunctual(steps) && |steps| == 3
    ensures var s := states[3];
            && s.clock == 1 && |EventsOf(s.ledger.events, 0)| == 2
            && 0 in s.ledger.segments && s.ledger.segments[0].status == Active
            && 0 in s.closers && s.closers[0].stage == Storing
            && |s.closers[0].todo| == 1 && s.closers[0].todo[0].date == 0 && s.closers[0].todo[0].checkpoint.count == 1
  {
    var a, b := Input("a", 0, ""), Input("b", 0, "");
    states, steps := [State(EMPTY, map[], 1)], [];
    states, steps := Go(states, steps, Arrive(a, 1));
    EventsOfAppend([], NewEvent(EMPTY, a, 1), 0);
    assert Elements([0]) == {0} by {
      assert [0][0] == 0;
    }
    assert states[1].ledger.events == [] + [NewEvent(EMPTY, a, 1)];
    assert Closable(states[1].ledger, 0) == {0};
    states, steps := Go(states, steps, Select(0, 0, [0], 1));
    states, steps := Go(states, steps, Arrive(b, 1));
    EventsOfAppend(states[2].ledger.events, NewEvent(states[2].ledger, b, 1), 0);
  }

  /** An event of yesterday that arrives while the alarm awaits storage is in the segment that
      the alarm then marks, but not in its checkpoint. */
  lemma LateArrivalIsNotInTheCheckpoint() returns (states: seq<State>, steps: seq<Step>)
    ensures IsRun(states, steps) && IsPunctual(steps) && |steps| == 6
    ensures 0 in states[6].closers && states[6].closers[0].todo == []
    ensures IsClosed(states[6].ledger, 0) && 0 < states[6].clock
    ensures |EventsOf(states[6].ledger.events, 0)| == 2
    ensures 0 in states[6].ledger.objects && states[6].ledger.objects[0].count == 1
    ensures 0 in states[6].ledger.rows && states[6].ledger.rows[0].count == 1
  {
    states, steps := ArrivalDuringClose();
    hide IsRun, EventsOf, Closable, Append;
    states, steps := Go(states, steps, Store(0));
    states, steps := Go(states, steps, Record(0));
    states, steps := Go(states, steps, Mark(0));
  }
}
