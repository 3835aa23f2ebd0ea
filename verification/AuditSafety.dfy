/** Safety of the audit ledger over every run: closed segments keep matching their
    checkpoints, no event is lost without being counted, and the hash chain holds. */
module AuditSafety {
  import opened Common
  import opened AuditLedger

  // ---- The invariant ----

  /** The stored summary of a segment is that of its events. */
  ghost predicate Summarises(c: Checkpoint, events: seq<Event>) {
    && events != [] && c.count == |events|
    && c.first == Some(events[0].hash) && c.last == Some(events[|events| - 1].hash)
  }

  ghost predicate SegmentMatches(l: Ledger, date: int) {
    date in l.segments ==> Summarises(CheckpointOf(l.segments[date]), EventsOf(l.events, date))
  }

  /** A closed segment has its checkpoint in storage and on record, and it is that of the
      segment's events. */
  ghost predicate CheckpointMatches(l: Ledger, date: int) {
    IsClosed(l, date) ==>
      && date in l.objects && date in l.rows
      && Summarises(l.objects[date], EventsOf(l.events, date))
      && l.rows[date] == l.objects[date] == CheckpointOf(l.segments[date])
  }

  ghost predicate Matching(l: Ledger) {
    && (forall i :: 0 <= i < |l.events| ==> l.events[i].segment in l.segments)
    && (forall d :: SegmentMatches(l, d))
    && (forall d :: CheckpointMatches(l, d))
  }

  /** Closed segments lie in the past. */
  ghost predicate PastClosed(l: Ledger, clock: int) {
    forall d :: IsClosed(l, d) ==> d < clock
  }

  // ---- Appending ----

  lemma {:induction false} NoEventsWithoutSegment(l: Ledger, n: nat, date: int)
    requires n <= |l.events| && date !in l.segments
    requires forall i :: 0 <= i < |l.events| ==> l.events[i].segment in l.segments
    ensures EventsOf(l.events[..n], date) == []
  {
    if n > 0 {
      assert l.events[..n][..n - 1] == l.events[..n - 1];
      NoEventsWithoutSegment(l, n - 1, date);
    }
  }

  lemma NoEventsOf(l: Ledger, date: int)
    requires date !in l.segments
    requires forall i :: 0 <= i < |l.events| ==> l.events[i].segment in l.segments
    ensures EventsOf(l.events, date) == []
  {
    NoEventsWithoutSegment(l, |l.events|, date);
    assert l.events[..|l.events|] == l.events;
  }

  /** An append goes into a closed segment, which its checkpoint then no longer describes. */
  predicate BreaksACheckpoint(l: Ledger, input: Input, today: int) {
    !HasEvent(l.events, input.id) && IsClosed(l, input.date) && IsClosed(l, today)
  }

  lemma AppendKeepsOther(l: Ledger, input: Input, today: int, date: int)
    requires Matching(l) && !HasEvent(l.events, input.id) && date != SegmentFor(l, input, today)
    ensures SegmentMatches(Append(l, input, today), date) && CheckpointMatches(Append(l, input, today), date)
    ensures EventsOf(Append(l, input, today).events, date) == EventsOf(l.events, date)
  {
    var e := NewEvent(l, input, today);
    assert SegmentMatches(l, date) && CheckpointMatches(l, date);
    EventsOfAppend(l.events, e, date);
    assert EventsOf(l.events, date) + [] == EventsOf(l.events, date);
    hide HasEvent, EventsOf, Matching;
  }

  /** What the update of an active segment makes of its summary. */
  lemma SummaryGrows(segments: map<int, Segment>, date: int, events: seq<Event>, e: Event)
    requires date in segments ==> segments[date].status == Active && Summarises(CheckpointOf(segments[date]), events)
    requires date !in segments ==> events == []
    ensures var s := Counted(segments, date, e.hash)[date];
            s.status == Active && Summarises(CheckpointOf(s), events + [e])
  {}

  lemma AppendKeepsOwn(l: Ledger, input: Input, today: int, date: int)
    requires Matching(l) && !HasEvent(l.events, input.id)
    requires date == SegmentFor(l, input, today) && !IsClosed(l, date)
    ensures SegmentMatches(Append(l, input, today), date) && !IsClosed(Append(l, input, today), date)
  {
    var e := NewEvent(l, input, today);
    assert SegmentMatches(l, date);
    EventsOfAppend(l.events, e, date);
    if date !in l.segments {
      NoEventsOf(l, date);
    }
    SummaryGrows(l.segments, date, EventsOf(l.events, date), e);
    hide HasEvent, EventsOf, Matching, Summarises, Counted, CheckpointOf;
  }

  lemma AppendKeepsSegment(l: Ledger, input: Input, today: int, date: int)
    requires Matching(l) && !HasEvent(l.events, input.id) && !BreaksACheckpoint(l, input, today)
    ensures SegmentMatches(Append(l, input, today), date) && CheckpointMatches(Append(l, input, today), date)
    ensures IsClosed(l, date) ==> EventsOf(Append(l, input, today).events, date) == EventsOf(l.events, date)
  {
    if date == SegmentFor(l, input, today) {
      AppendKeepsOwn(l, input, today, date);
    } else {
      AppendKeepsOther(l, input, today, date);
    }
    hide HasEvent, EventsOf, Append, SegmentMatches, Matching;
  }

  /** Appending keeps every segment and checkpoint in step with its events if and only if the
      event is known already, or its own segment is open, or today's is. */
  lemma AppendKeepsMatchingWhen(l: Ledger, input: Input, today: int)
    requires Matching(l)
    ensures Matching(Append(l, input, today)) <==> !BreaksACheckpoint(l, input, today)
  {
    var l' := Append(l, input, today);
    if BreaksACheckpoint(l, input, today) {
      EventsOfAppend(l.events, NewEvent(l, input, today), today);
      assert SegmentMatches(l, today) && !SegmentMatches(l', today);
    } else if !HasEvent(l.events, input.id) {
      forall d
        ensures SegmentMatches(l', d) && CheckpointMatches(l', d)
      {
        AppendKeepsSegment(l, input, today, d);
      }
      hide SegmentMatches, CheckpointMatches, HasEvent;
    }
  }

  /** When today's segment could be closed, a late event does break a checkpoint. */
  lemma ClosingTodayBreaksACheckpoint(a: Input, b: Input, c: Input)
    requires a.id != b.id && b.id != c.id && a.id != c.id
    requires a.date == 0 && b.date == 1 && c.date == 0
    ensures var l := Close(Append(Append(EMPTY, a, 1), b, 1), {0, 1});
            Matching(l) && !Matching(Append(l, c, 1))
  {
    EmptyMatches();
    var l1 := Append(EMPTY, a, 1);
    AppendKeepsMatchingWhen(EMPTY, a, 1);
    AppendKeepsMatchingWhen(l1, b, 1);
    var l2 := Append(l1, b, 1);
    CloseKeepsMatching(l2, {0, 1});
    AppendKeepsMatchingWhen(Close(l2, {0, 1}), c, 1);
  }

  lemma EmptyMatches()
    ensures Matching(EMPTY)
  {}

  // ---- Closing and deleting ----

  lemma CloseKeepsMatching(l: Ledger, done: set<int>)
    requires Matching(l) && done <= l.segments.Keys
    ensures Matching(Close(l, done))
  {
    forall d
      ensures SegmentMatches(Close(l, done), d) && CheckpointMatches(Close(l, done), d)
    {
      assert SegmentMatches(l, d) && CheckpointMatches(l, d);
    }
  }

  lemma InterruptionKeepsMatching(l: Ledger, date: int, rowWritten: bool)
    requires Matching(l) && date in l.segments && l.segments[date].status == Active
    ensures Matching(Interrupted(l, date, rowWritten))
  {
    forall d
      ensures SegmentMatches(Interrupted(l, date, rowWritten), d)
      ensures CheckpointMatches(Interrupted(l, date, rowWritten), d)
    {
      assert SegmentMatches(l, d) && CheckpointMatches(l, d);
    }
  }

  lemma DeleteKeepsMatching(l: Ledger, done: set<int>)
    requires Matching(l)
    ensures Matching(Delete(l, done))
  {
    WithoutEvents(l.events, done, 0);
    forall d
      ensures SegmentMatches(Delete(l, done), d) && CheckpointMatches(Delete(l, done), d)
    {
      WithoutEvents(l.events, done, d);
      assert SegmentMatches(l, d) && CheckpointMatches(l, d);
    }
  }

  // ---- Runs ----

  /** `done` are the segments an operation got through before it ended or was interrupted, and
      `partial` one that it left with a checkpoint but open. */
  datatype Op =
    | AppendOp(input: Input, today: int)
    | CloseOp(through: int, done: set<int>, partial: Option<(int, bool)>, today: int)
    | DeleteOp(before: int, done: set<int>, today: int)

  /** What the ledger does with an operation, closing only days before the present one. */
  ghost predicate Legal(l: Ledger, op: Op) {
    match op
    case AppendOp(_, _) => true
    case CloseOp(through, done, partial, today) =>
      && through < today && done <= Closable(l, through)
      && (partial.Some? ==> partial.value.0 in Closable(l, through) - done)
    case DeleteOp(before, done, _) => done <= Deletable(l, before)
  }

  ghost function Step(l: Ledger, op: Op): Ledger
    requires Legal(l, op)
  {
    match op
    case AppendOp(input, today) => Append(l, input, today)
    case CloseOp(_, done, partial, _) =>
      if partial.Some? then Interrupted(Close(l, done), partial.value.0, partial.value.1) else Close(l, done)
    case DeleteOp(_, done, _) => Delete(l, done)
  }

  ghost predicate Safe(l: Ledger, clock: int) {
    Matching(l) && PastClosed(l, clock)
  }

  lemma StepIsSafe(l: Ledger, op: Op, clock: int)
    requires Safe(l, clock) && clock <= op.today && Legal(l, op)
    ensures Safe(Step(l, op), op.today)
  {
    match op
    case AppendOp(input, today) =>
      AppendKeepsMatchingWhen(l, input, today);
      forall d | IsClosed(Append(l, input, today), d)
        ensures d < today
      {
        assert IsClosed(l, d);
      }
    case CloseOp(through, done, partial, today) =>
      CloseKeepsMatching(l, done);
      if partial.Some? {
        InterruptionKeepsMatching(Close(l, done), partial.value.0, partial.value.1);
      }
      forall d | IsClosed(Step(l, op), d)
        ensures d < today
      {
        assert d in done || IsClosed(l, d);
      }
    case DeleteOp(before, done, today) =>
      DeleteKeepsMatching(l, done);
      forall d | IsClosed(Delete(l, done), d)
        ensures d < today
      {
        assert IsClosed(l, d);
      }
  }

  /** A closed segment is left alone by every operation, except that it may be deleted whole. */
  ghost predicate Untouched(l: Ledger, l': Ledger, date: int) {
    if date in l'.segments then
      && IsClosed(l', date) && EventsOf(l'.events, date) == EventsOf(l.events, date)
      && date in l.objects && date in l'.objects && l'.objects[date] == l.objects[date]
      && date in l.rows && date in l'.rows && l'.rows[date] == l.rows[date]
    else EventsOf(l'.events, date) == []
  }

  lemma StepLeavesClosedSegments(l: Ledger, op: Op, clock: int, date: int)
    requires Safe(l, clock) && clock <= op.today && Legal(l, op) && IsClosed(l, date)
    ensures Untouched(l, Step(l, op), date)
  {
    assert CheckpointMatches(l, date);
    match op
    case AppendOp(input, today) =>
      if !HasEvent(l.events, input.id) {
        AppendKeepsSegment(l, input, today, date);
      }
    case CloseOp(through, done, partial, today) =>
    case DeleteOp(before, done, today) =>
      WithoutEvents(l.events, done, date);
  }

  /** A run: each operation with the state it leads to. */
  ghost predicate IsRun(states: seq<Ledger>, ops: seq<Op>) {
    && |states| == |ops| + 1 && states[0] == EMPTY
    && (forall i :: 0 <= i < |ops| ==> Legal(states[i], ops[i]) && states[i + 1] == Step(states[i], ops[i]))
    && (forall i, j :: 0 <= i < j < |ops| ==> ops[i].today <= ops[j].today)
  }

  ghost function ClockAt(ops: seq<Op>, n: nat): int
    requires n <= |ops| && 0 < |ops|
  {
    if n == 0 then ops[0].today else ops[n - 1].today
  }

  lemma {:induction false} EveryRunIsSafe(states: seq<Ledger>, ops: seq<Op>, n: nat)
    requires IsRun(states, ops) && n <= |ops| && 0 < |ops|
    ensures Safe(states[n], ClockAt(ops, n))
  {
    if n == 0 {
      EmptyMatches();
    } else {
      EveryRunIsSafe(states, ops, n - 1);
      StepIsSafe(states[n - 1], ops[n - 1], ClockAt(ops, n - 1));
    }
  }

  /** In every reachable state each closed segment matches its checkpoint: count, first hash
      and last hash, late events included. */
  lemma CheckpointsStayVerifiable(states: seq<Ledger>, ops: seq<Op>, n: nat, date: int)
    requires IsRun(states, ops) && n <= |ops| && IsClosed(states[n], date)
    ensures date in states[n].objects && Summarises(states[n].objects[date], EventsOf(states[n].events, date))
    ensures date in states[n].rows && states[n].rows[date] == states[n].objects[date]
  {
    if 0 < |ops| {
      EveryRunIsSafe(states, ops, n);
      assert CheckpointMatches(states[n], date);
    }
  }

  /** A closed segment never changes for as long as it is kept. */
  lemma {:induction false} ClosedSegmentNeverChanges(states: seq<Ledger>, ops: seq<Op>, n: nat, m: nat, date: int)
    requires IsRun(states, ops) && n <= m <= |ops| && IsClosed(states[n], date)
    requires forall k :: n <= k <= m ==> date in states[k].segments
    ensures IsClosed(states[m], date)
    ensures EventsOf(states[m].events, date) == EventsOf(states[n].events, date)
    ensures date in states[n].objects && date in states[m].objects
    ensures states[m].objects[date] == states[n].objects[date]
    decreases m
  {
    CheckpointsStayVerifiable(states, ops, n, date);
    if n < m {
      ClosedSegmentNeverChanges(states, ops, n, m - 1, date);
      EveryRunIsSafe(states, ops, m - 1);
      StepLeavesClosedSegments(states[m - 1], ops[m - 1], ClockAt(ops, m - 1), date);
    }
  }

  // ---- Retention ----

  /** Deletions leave the last `k` days alone, as the alarm does with 180. */
  ghost predicate Keeps(ops: seq<Op>, k: int) {
    forall i :: 0 <= i < |ops| && ops[i].DeleteOp? ==> ops[i].before <= ops[i].today - k
  }

  /** The events of the segment grow at their end. */
  ghost predicate Extends(l: Ledger, l': Ledger, date: int) {
    && date in l'.segments
    && EventsOf(l.events, date) <= EventsOf(l'.events, date)
  }

  lemma StepKeepsRecent(l: Ledger, op: Op, date: int, k: int)
    requires Legal(l, op) && date in l.segments
    requires op.DeleteOp? ==> op.before <= op.today - k && op.today - k <= date
    ensures Extends(l, Step(l, op), date)
  {
    match op
    case AppendOp(input, today) =>
      if !HasEvent(l.events, input.id) {
        EventsOfAppend(l.events, NewEvent(l, input, today), date);
      }
    case CloseOp(_, _, _, _) =>
    case DeleteOp(before, done, _) =>
      DeletableIs(l, before);
      WithoutEvents(l.events, done, date);
  }

  /** A segment that is dated from `k` days ago on is still there, with all its events. */
  lemma {:induction false} RecentSegmentsAreKept(states: seq<Ledger>, ops: seq<Op>, m: nat, n: nat, date: int, k: int)
    requires IsRun(states, ops) && Keeps(ops, k) && m <= n <= |ops| && date in states[m].segments
    requires 0 < n ==> ops[n - 1].today - k <= date
    ensures Extends(states[m], states[n], date)
    decreases n
  {
    if m < n {
      assert 0 < n - 1 ==> ops[n - 2].today <= ops[n - 1].today;
      RecentSegmentsAreKept(states, ops, m, n - 1, date, k);
      StepKeepsRecent(states[n - 1], ops[n - 1], date, k);
      hide Legal, Step, EventsOf;
    }
  }

  // ---- Conservation ----

  /** The sum of the counts that the checkpoints of `dates` record. */
  ghost function CountIn(checkpoints: map<int, Checkpoint>, dates: set<int>): int {
    SomeElement(dates);
    if dates == {} then 0
    else
      var d :| d in dates;
      (if d in checkpoints then checkpoints[d].count else 0) + CountIn(checkpoints, dates - {d})
  }

  lemma {:induction false} CountInOneLess(checkpoints: map<int, Checkpoint>, dates: set<int>, d: int)
    requires d in dates
    ensures CountIn(checkpoints, dates)
              == (if d in checkpoints then checkpoints[d].count else 0) + CountIn(checkpoints, dates - {d})
    decreases dates
  {
    var c :| c in dates && CountIn(checkpoints, dates) ==
                           (if c in checkpoints then checkpoints[c].count else 0) + CountIn(checkpoints, dates - {c});
    if c != d {
      CountInOneLess(checkpoints, dates - {c}, d);
      CountInOneLess(checkpoints, dates - {d}, c);
      assert dates - {c} - {d} == dates - {d} - {c};
    }
  }

  lemma {:induction false} CountInSame(a: map<int, Checkpoint>, b: map<int, Checkpoint>, dates: set<int>)
    requires forall d :: d in dates ==> d in a && d in b && a[d] == b[d]
    ensures CountIn(a, dates) == CountIn(b, dates)
    decreases dates
  {
    SomeElement(dates);
    if dates == {} {
    } else {
      var d :| d in dates;
      CountInOneLess(a, dates, d);
      CountInOneLess(b, dates, d);
      CountInSame(a, b, dates - {d});
    }
  }

  lemma {:induction false} CountInUnion(checkpoints: map<int, Checkpoint>, a: set<int>, b: set<int>)
    requires a !! b
    ensures CountIn(checkpoints, a + b) == CountIn(checkpoints, a) + CountIn(checkpoints, b)
    decreases b
  {
    SomeElement(b);
    if b == {} {
      assert a + b == a;
    } else {
      var d :| d in b;
      CountInOneLess(checkpoints, a + b, d);
      CountInOneLess(checkpoints, b, d);
      assert a + b - {d} == a + (b - {d});
      CountInUnion(checkpoints, a, b - {d});
    }
  }

  /** Deleting segments removes as many events as their checkpoints count. */
  lemma {:induction false} DeletionIsCounted(l: Ledger, done: set<int>)
    requires Matching(l) && forall d :: d in done ==> IsClosed(l, d)
    ensures |l.events| == |Without(l.events, done)| + CountIn(l.rows, done)
    decreases done
  {
    SomeElement(done);
    if done == {} {
      WithoutNone(l.events);
    } else {
      var d :| d in done;
      DeletionIsCounted(l, done - {d});
      CountInOneLess(l.rows, done, d);
      WithoutOneMore(l.events, done - {d}, d);
      assert done - {d} + {d} == done;
      assert CheckpointMatches(l, d);
    }
  }

  lemma {:induction false} WithoutOneMore(events: seq<Event>, done: set<int>, d: int)
    requires d !in done
    ensures |Without(events, done)| == |Without(events, done + {d})| + |EventsOf(events, d)|
  {
    if events != [] {
      WithoutOneMore(events[..|events| - 1], done, d);
    }
  }

  /** How many appends of the run stored an event. */
  ghost function Appended(states: seq<Ledger>, ops: seq<Op>, n: nat): nat
    requires n <= |ops| < |states|
  {
    if n == 0 then 0
    else
      var op := ops[n - 1];
      Appended(states, ops, n - 1)
        + if op.AppendOp? && !HasEvent(states[n - 1].events, op.input.id) then 1 else 0
  }

  /** The counts in the checkpoints of the segments that were deleted, as they stood then. */
  ghost function Retired(states: seq<Ledger>, ops: seq<Op>, n: nat): int
    requires n <= |ops| < |states|
  {
    if n == 0 then 0
    else
      var op := ops[n - 1];
      Retired(states, ops, n - 1) + if op.DeleteOp? then CountIn(states[n - 1].rows, op.done) else 0
  }

  /** Conservation: events appended are live, or counted in the checkpoint of a segment that
      has been deleted. */
  lemma {:induction false} NoEventIsLost(states: seq<Ledger>, ops: seq<Op>, n: nat)
    requires IsRun(states, ops) && n <= |ops|
    ensures Appended(states, ops, n) == |states[n].events| + Retired(states, ops, n)
  {
    if n > 0 {
      NoEventIsLost(states, ops, n - 1);
      EveryRunIsSafe(states, ops, n - 1);
      var op := ops[n - 1];
      if op.DeleteOp? {
        DeletionIsCounted(states[n - 1], op.done);
      }
    }
  }

  /** The dates whose segments have been deleted. */
  ghost function RetiredDates(ops: seq<Op>, n: nat): set<int>
    requires n <= |ops|
  {
    if n == 0 then {} else RetiredDates(ops, n - 1) + if ops[n - 1].DeleteOp? then ops[n - 1].done else {}
  }

  ghost predicate NothingForRetiredDates(ops: seq<Op>, n: nat)
    requires n <= |ops|
  {
    forall i :: 0 <= i < n && ops[i].AppendOp? ==>
      ops[i].input.date !in RetiredDates(ops, i) && ops[i].today !in RetiredDates(ops, i)
  }

  lemma AppendLeavesRetired(l: Ledger, op: Op, dates: set<int>)
    requires op.AppendOp? && Legal(l, op) && dates !! l.segments.Keys && dates <= l.rows.Keys
    requires op.input.date !in dates && op.today !in dates
    ensures dates !! Step(l, op).segments.Keys && Step(l, op).rows == l.rows
    ensures |Step(l, op).events| == |l.events| + if HasEvent(l.events, op.input.id) then 0 else 1
  {}

  lemma CloseLeavesRetired(l: Ledger, op: Op, dates: set<int>)
    requires op.CloseOp? && Legal(l, op) && dates !! l.segments.Keys && dates <= l.rows.Keys
    ensures dates !! Step(l, op).segments.Keys && dates <= Step(l, op).rows.Keys
    ensures CountIn(Step(l, op).rows, dates) == CountIn(l.rows, dates)
    ensures Step(l, op).events == l.events
  {
    CountInSame(l.rows, Step(l, op).rows, dates);
  }

  lemma DeleteMovesToRetired(l: Ledger, op: Op, dates: set<int>)
    requires Matching(l) && op.DeleteOp? && Legal(l, op) && dates !! l.segments.Keys && dates <= l.rows.Keys
    ensures dates + op.done !! Step(l, op).segments.Keys && dates + op.done <= Step(l, op).rows.Keys
    ensures |l.events| + CountIn(l.rows, dates)
              == |Step(l, op).events| + CountIn(Step(l, op).rows, dates + op.done)
  {
    DeletionIsCounted(l, op.done);
    CountInUnion(l.rows, dates, op.done);
  }

  /** When no event arrives for a date that was already deleted, the checkpoints on record
      account for everything deleted: no later close overwrites them. */
  lemma {:induction false} RecordsAccountForDeleted(states: seq<Ledger>, ops: seq<Op>, n: nat)
    requires IsRun(states, ops) && n <= |ops| && NothingForRetiredDates(ops, n)
    ensures RetiredDates(ops, n) !! states[n].segments.Keys && RetiredDates(ops, n) <= states[n].rows.Keys
    ensures Appended(states, ops, n) == |states[n].events| + CountIn(states[n].rows, RetiredDates(ops, n))
  {
    if n > 0 {
      var l, l', op, dates := states[n - 1], states[n], ops[n - 1], RetiredDates(ops, n - 1);
      RecordsAccountForDeleted(states, ops, n - 1);
      EveryRunIsSafe(states, ops, n - 1);
      assert l' == Step(l, op);
      assert RetiredDates(ops, n) == dates + if op.DeleteOp? then op.done else {};
      hide Matching, PastClosed, Step, Legal, CountIn, HasEvent;
      match op
      case AppendOp(_, _) =>
        assert op.input.date !in dates && op.today !in dates;
        AppendLeavesRetired(l, op, dates);
        assert dates + {} == dates;
      case CloseOp(_, _, _, _) =>
        CloseLeavesRetired(l, op, dates);
        assert dates + {} == dates;
      case DeleteOp(_, _, _) =>
        DeleteMovesToRetired(l, op, dates);
    }
  }

  // ---- The hash chain ----

  ghost predicate Hashed(events: seq<Event>) {
    forall i :: 0 <= i < |events| ==> events[i].hash == Hash(events[i].input, events[i].previous)
  }

  ghost function HashBefore(events: seq<Event>, i: nat): Option<Hash>
    requires i <= |events|
  {
    if i == 0 then None else Some(events[i - 1].hash)
  }

  /** From position `n` on, each event carries the hash of the one before it. */
  ghost predicate LinkedFrom(events: seq<Event>, n: nat) {
    forall i :: n <= i < |events| ==> events[i].previous == HashBefore(events, i)
  }

  lemma {:induction false} HashesAreRight(states: seq<Ledger>, ops: seq<Op>, n: nat)
    requires IsRun(states, ops) && n <= |ops|
    ensures Hashed(states[n].events)
  {
    if n > 0 {
      HashesAreRight(states, ops, n - 1);
      if ops[n - 1].DeleteOp? {
        WithoutEvents(states[n - 1].events, ops[n - 1].done, 0);
      }
    }
  }

  lemma StepLinks(l: Ledger, op: Op, n: nat)
    requires Legal(l, op) && !op.DeleteOp? && n <= |l.events| && LinkedFrom(l.events, n)
    ensures |l.events| <= |Step(l, op).events| && Step(l, op).events[..|l.events|] == l.events
    ensures LinkedFrom(Step(l, op).events, n)
  {}

  /** Between deletions the chain only grows, and each event appended carries the hash of the
      live event before it. Without any deletion the whole ledger is one chain. */
  lemma {:induction false} ChainGrowsBetweenDeletions(states: seq<Ledger>, ops: seq<Op>, n: nat, m: nat)
    requires IsRun(states, ops) && n <= m <= |ops|
    requires forall k :: n <= k < m ==> !ops[k].DeleteOp?
    ensures |states[n].events| <= |states[m].events|
    ensures states[m].events[..|states[n].events|] == states[n].events
    ensures LinkedFrom(states[m].events, |states[n].events|)
    decreases m
  {
    if n < m {
      ChainGrowsBetweenDeletions(states, ops, n, m - 1);
      var k := |states[n].events|;
      StepLinks(states[m - 1], ops[m - 1], k);
      hide Step, LinkedFrom, Legal;
      assert states[m].events[..k] == states[m - 1].events[..k];
    }
  }

  lemma ShorterChain(a: seq<Event>)
    requires a != [] && Hashed(a) && LinkedFrom(a, 0)
    ensures var m := |a| - 1;
            Hashed(a[..m]) && LinkedFrom(a[..m], 0) && a[m].hash == Hash(a[m].input, LastHash(a[..m]))
  {
    var m := |a| - 1;
    assert a[m].previous == HashBefore(a, m);
    forall i | 0 <= i < m
      ensures a[..m][i].previous == HashBefore(a[..m], i)
    {
      assert a[i].previous == HashBefore(a, i);
    }
  }

  /** The last hash of a chain determines all its events: a chain cannot be altered and keep
      the hash that a checkpoint recorded. */
  lemma {:induction false} ChainIsTamperEvident(a: seq<Event>, b: seq<Event>, i: nat)
    requires Hashed(a) && Hashed(b) && LinkedFrom(a, 0) && LinkedFrom(b, 0)
    requires LastHash(a) == LastHash(b)
    ensures |a| == |b|
    ensures i < |a| ==> a[i].input == b[i].input && a[i].hash == b[i].hash
  {
    hide Hashed, LinkedFrom;
    if a != [] {
      var m, n := |a| - 1, |b| - 1;
      ShorterChain(a);
      ShorterChain(b);
      assert a[m].hash == b[n].hash;
      ChainIsTamperEvident(a[..m], b[..n], i);
      if i < m {
        assert a[i] == a[..m][i] && b[i] == b[..n][i];
      }
    }
  }

  ghost predicate NoDeletion(ops: seq<Op>, n: nat)
    requires n <= |ops|
  {
    forall k :: 0 <= k < n ==> !ops[k].DeleteOp?
  }

  /** Two ledgers that never deleted anything and end in the same hash have the same events,
      whatever their runs were. */
  lemma HeadDeterminesHistory(states: seq<Ledger>, ops: seq<Op>, n: nat,
                              states': seq<Ledger>, ops': seq<Op>, n': nat, i: nat)
    requires IsRun(states, ops) && n <= |ops| && NoDeletion(ops, n)
    requires IsRun(states', ops') && n' <= |ops'| && NoDeletion(ops', n')
    requires LastHash(states[n].events) == LastHash(states'[n'].events)
    ensures |states[n].events| == |states'[n'].events|
    ensures i < |states[n].events| ==> states[n].events[i].input == states'[n'].events[i].input
  {
    HashesAreRight(states, ops, n);
    HashesAreRight(states', ops', n');
    ChainGrowsBetweenDeletions(states, ops, 0, n);
    ChainGrowsBetweenDeletions(states', ops', 0, n');
    hide Hashed, LinkedFrom;
    ChainIsTamperEvident(states[n].events, states'[n'].events, i);
  }
}
