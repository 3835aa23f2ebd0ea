/** The audit ledger of a deployment: an append-only hash chain cut into daily segments, which
    are closed with a checkpoint and deleted after their retention time. Dates are counted in
    days. */
module AuditLedger {
  import opened Common

  /** An event as it arrives; `body` stands for its other hashed fields. */
  datatype Input = Input(id: string, date: int, body: string)

  /** SHA-256 over the event and the previous hash, idealised as free of collisions. */
  datatype Hash = Hash(input: Input, previous: Option<Hash>)

  datatype Event = Event(input: Input, segment: int, previous: Option<Hash>, hash: Hash)

  datatype Status = Active | Closed
  datatype Segment = Segment(status: Status, first: Option<Hash>, last: Option<Hash>, count: nat)
  datatype Checkpoint = Checkpoint(first: Option<Hash>, last: Option<Hash>, count: nat)

  /** `events` lists the live rows in the order of their sequence numbers; `objects` are the
      checkpoints in R2 and `rows` those in D1. */
  datatype Ledger = Ledger(
    events: seq<Event>,
    segments: map<int, Segment>,
    objects: map<int, Checkpoint>,
    rows: map<int, Checkpoint>)

  const EMPTY := Ledger([], map[], map[], map[])

  // ---- Queries ----

  predicate HasEvent(events: seq<Event>, id: string) {
    exists i :: 0 <= i < |events| && events[i].input.id == id
  }

  /** The events of a segment, in order. */
  function EventsOf(events: seq<Event>, date: int): seq<Event> {
    if events == [] then []
    else
      var front := EventsOf(events[..|events| - 1], date);
      var e := events[|events| - 1];
      if e.segment == date then front + [e] else front
  }

  /** The events whose segment is not among `dates`. */
  function Without(events: seq<Event>, dates: set<int>): seq<Event> {
    if events == [] then []
    else
      var front := Without(events[..|events| - 1], dates);
      var e := events[|events| - 1];
      if e.segment in dates then front else front + [e]
  }

  predicate IsClosed(l: Ledger, date: int) {
    date in l.segments && l.segments[date].status == Closed
  }

  function LastHash(events: seq<Event>): Option<Hash> {
    if events == [] then None else Some(events[|events| - 1].hash)
  }

  function CheckpointOf(s: Segment): Checkpoint {
    Checkpoint(s.first, s.last, s.count)
  }

  /** Active segments up to a date that have events. */
  function Closable(l: Ledger, through: int): set<int> {
    set d | d in l.segments && d <= through && l.segments[d].status == Active && EventsOf(l.events, d) != []
  }

  /** Closed segments before a date whose checkpoint is on record and in storage. */
  function Deletable(l: Ledger, before: int): set<int> {
    set d | d in l.segments && d < before && l.segments[d].status == Closed && EventsOf(l.events, d) != []
            && d in l.rows && d in l.objects
  }

  // ---- Operations ----

  /** A late event keeps its date but goes to today's segment when its own is closed. */
  function SegmentFor(l: Ledger, input: Input, today: int): int {
    if IsClosed(l, input.date) then today else input.date
  }

  function NewEvent(l: Ledger, input: Input, today: int): Event {
    var previous := LastHash(l.events);
    Event(input, SegmentFor(l, input, today), previous, Hash(input, previous))
  }

  /** INSERT OR IGNORE, and the update that only active segments take. */
  function Counted(segments: map<int, Segment>, date: int, hash: Hash): map<int, Segment> {
    var s := if date in segments then segments[date] else Segment(Active, None, None, 0);
    segments[date := if s.status == Active
                     then Segment(Active, if s.first.Some? then s.first else Some(hash), Some(hash), s.count + 1)
                     else s]
  }

  function Append(l: Ledger, input: Input, today: int): Ledger {
    if HasEvent(l.events, input.id) then l
    else
      var e := NewEvent(l, input, today);
      l.(events := l.events + [e], segments := Counted(l.segments, e.segment, e.hash))
  }

  function Marked(segments: map<int, Segment>, done: set<int>): map<int, Segment> {
    map d | d in segments :: if d in done then segments[d].(status := Closed) else segments[d]
  }

  function Checkpoints(segments: map<int, Segment>, done: set<int>): map<int, Checkpoint>
    requires done <= segments.Keys
  {
    map d | d in done :: CheckpointOf(segments[d])
  }

  /** Writes checkpoints, and marks the segments of `done` as closed. */
  function Close(l: Ledger, done: set<int>): Ledger
    requires done <= l.segments.Keys
  {
    l.(segments := Marked(l.segments, done),
       objects := l.objects + Checkpoints(l.segments, done),
       rows := l.rows + Checkpoints(l.segments, done))
  }

  /** A close that stopped after writing one more checkpoint object, and perhaps its row, but
      before marking that segment. */
  function Interrupted(l: Ledger, date: int, rowWritten: bool): Ledger
    requires date in l.segments
  {
    var c := CheckpointOf(l.segments[date]);
    l.(objects := l.objects[date := c], rows := if rowWritten then l.rows[date := c] else l.rows)
  }

  function Delete(l: Ledger, done: set<int>): Ledger {
    l.(events := Without(l.events, done), segments := l.segments - done)
  }

  // ---- The class ----

  class AuditLedgerObject {
    var events: seq<Event>
    var segments: map<int, Segment>
    var objects: map<int, Checkpoint>
    var rows: map<int, Checkpoint>

    function State(): Ledger
      reads this
    {
      Ledger(events, segments, objects, rows)
    }

    constructor ()
      ensures State() == EMPTY
    {
      events, segments, objects, rows := [], map[], map[], map[];
    }

    method AppendEvent(input: Input, today: int)
      modifies this
      ensures State() == Append(old(State()), input, today)
      ensures objects == old(objects) && rows == old(rows)
      ensures (exists i :: 0 <= i < |old(events)| && old(events)[i].input.id == input.id) ==>
                events == old(events) && segments == old(segments)
      ensures !(exists i :: 0 <= i < |old(events)| && old(events)[i].input.id == input.id) ==>
                var previous := if old(events) == [] then None else Some(old(events)[|old(events)| - 1].hash);
                var date := if input.date in old(segments) && old(segments)[input.date].status == Closed
                            then today else input.date;
                && events == old(events) + [Event(input, date, previous, Hash(input, previous))]
                && segments == old(segments)[date :=
                     if date !in old(segments) then
                       Segment(Active, Some(Hash(input, previous)), Some(Hash(input, previous)), 1)
                     else if old(segments)[date].status == Closed then old(segments)[date]
                     else
                       var s := old(segments)[date];
                       Segment(Active, if s.first.Some? then s.first else Some(Hash(input, previous)),
                               Some(Hash(input, previous)), s.count + 1)]
    {
      var i := 0;
      while i < |events|
        invariant 0 <= i <= |events|
        invariant forall k :: 0 <= k < i ==> events[k].input.id != input.id
      {
        if events[i].input.id == input.id {
          return;
        }
        i := i + 1;
      }
      var previous := LastHash(events);
      var hash := Hash(input, previous);
      var segmentDate := input.date;
      if input.date in segments && segments[input.date].status == Closed {
        segmentDate := today;
      }
      if segmentDate !in segments {
        segments := segments[segmentDate := Segment(Active, None, None, 0)];
      }
      events := events + [Event(input, segmentDate, previous, hash)];
      var s := segments[segmentDate];
      if s.status == Active {
        var first := if s.first.Some? then s.first else Some(hash);
        segments := segments[segmentDate := Segment(Active, first, Some(hash), s.count + 1)];
      }
    }

    /** Closes in the order of the dates. */
    method CloseSegments(through: int) returns (closed: seq<int>)
      modifies this
      ensures State() == Close(old(State()), Closable(old(State()), through))
      ensures Ascending(closed) && Elements(closed) == Closable(old(State()), through)
      ensures forall d :: d in closed <==>
                && d in old(segments) && old(segments)[d].status == Active && d <= through
                && exists i :: 0 <= i < |old(events)| && old(events)[i].segment == d
      ensures events == old(events) && segments.Keys == old(segments).Keys
      ensures forall d :: d in segments ==>
                segments[d] == old(segments)[d].(status := if d in closed then Closed else old(segments)[d].status)
      ensures forall d :: d in closed ==>
                var s := old(segments)[d];
                && d in objects && objects[d] == Checkpoint(s.first, s.last, s.count)
                && d in rows && rows[d] == Checkpoint(s.first, s.last, s.count)
      ensures forall d :: d !in closed ==>
                && (d in objects <==> d in old(objects)) && (d in objects ==> objects[d] == old(objects)[d])
                && (d in rows <==> d in old(rows)) && (d in rows ==> rows[d] == old(rows)[d])
    {
      closed := CloseEach(through);
      CloseLeaves(old(State()), Elements(closed));
      ClosableIs(old(State()), through);
      assert forall d :: d in closed <==> d in Elements(closed);
      hide Close, Closable, Elements, EventsOf;
    }

    /** The query and the loop. */
    method CloseEach(through: int) returns (closed: seq<int>)
      modifies this
      ensures State() == Close(old(State()), Closable(old(State()), through))
      ensures Ascending(closed) && Elements(closed) == Closable(old(State()), through)
    {
      ghost var all := Closable(State(), through);
      var todo := Closable(State(), through);
      ghost var done: set<int> := {};
      closed := [];
      CloseNothing(State());
      assert all <= segments.Keys;
      hide Closable, Close;
      while todo != {}
        invariant done + todo == all && done !! todo
        invariant State() == Close(old(State()), done)
        invariant Ascending(closed) && Elements(closed) == done
        invariant forall a, b :: a in done && b in todo ==> a < b
        decreases todo
      {
        LeastExists(todo);
        var date :| date in todo && forall d :: d in todo ==> date <= d;
        CloseOneMore(old(State()), done, date);
        AscendingAppend(closed, date);
        var checkpoint := CheckpointOf(segments[date]);
        objects := objects[date := checkpoint];
        rows := rows[date := checkpoint];
        segments := segments[date := segments[date].(status := Closed)];
        closed := closed + [date];
        done := done + {date};
        todo := todo - {date};
      }
    }

    method DeleteClosedSegments(before: int) returns (deleted: set<int>)
      modifies this
      ensures deleted == Deletable(old(State()), before)
      ensures State() == Delete(old(State()), deleted)
      ensures forall d :: d in deleted <==>
                && d < before && d in old(segments) && old(segments)[d].status == Closed
                && d in old(rows) && d in old(objects)
                && exists i :: 0 <= i < |old(events)| && old(events)[i].segment == d
      ensures segments == old(segments) - deleted && objects == old(objects) && rows == old(rows)
      ensures forall d :: EventsOf(events, d) == if d in deleted then [] else EventsOf(old(events), d)
    {
      deleted := DeleteEach(before);
      DeletableIs(old(State()), before);
      DeleteLeaves(old(events), deleted);
      hide Deletable, EventsOf, Without;
    }

    /** The query and the loop. */
    method DeleteEach(before: int) returns (deleted: set<int>)
      modifies this
      ensures deleted == Deletable(old(State()), before)
      ensures State() == Delete(old(State()), deleted)
    {
      var todo := Deletable(State(), before);
      deleted := {};
      DeleteNothing(State());
      while todo != {}
        invariant deleted + todo == Deletable(old(State()), before)
        invariant State() == Delete(old(State()), deleted)
        decreases todo
      {
        var date :| date in todo;
        WithoutTwice(old(events), deleted, {date});
        events := Without(events, {date});
        segments := segments - {date};
        deleted := deleted + {date};
        todo := todo - {date};
      }
    }

    /** The alarm of a day, when nothing comes in between: all days before are closed, and closed
        days are kept for 180 days. */
    method Alarm(today: int)
      modifies this
      ensures forall d :: d in old(segments) && today - 180 <= d ==>
                d in segments && EventsOf(events, d) == EventsOf(old(events), d)
      ensures forall d :: d in segments && d < today && segments[d].status == Active ==>
                EventsOf(events, d) == []
      ensures forall d :: d in old(segments) && d < today - 180 && EventsOf(old(events), d) != []
                          && (old(segments)[d].status == Active || (d in old(rows) && d in old(objects))) ==>
                d !in segments && EventsOf(events, d) == []
    {
      var closed := CloseSegments(today - 1);
      ClosableIs(old(State()), today - 1);
      assert forall d :: d in closed <==> d in Elements(closed);
      ghost var middle := State();
      var deleted := DeleteClosedSegments(today - 180);
      DeletableIs(middle, today - 180);
    }
  }

  // ---- Facts about the queries ----

  lemma {:induction false} HasEventsWhen(events: seq<Event>, date: int)
    ensures EventsOf(events, date) != [] <==> exists i :: 0 <= i < |events| && events[i].segment == date
  {
    if events != [] {
      var n := |events| - 1;
      HasEventsWhen(events[..n], date);
      if i :| 0 <= i < n && events[i].segment == date {
        assert events[..n][i].segment == date;
      }
    }
  }

  lemma ClosableIs(l: Ledger, through: int)
    ensures forall d :: d in Closable(l, through) <==>
              && d in l.segments && l.segments[d].status == Active && d <= through
              && exists i :: 0 <= i < |l.events| && l.events[i].segment == d
    ensures forall d :: d in Closable(l, through) <==>
              d in l.segments && l.segments[d].status == Active && d <= through && EventsOf(l.events, d) != []
  {
    forall d
      ensures EventsOf(l.events, d) != [] <==> exists i :: 0 <= i < |l.events| && l.events[i].segment == d
    {
      HasEventsWhen(l.events, d);
    }
  }

  lemma DeletableIs(l: Ledger, before: int)
    ensures forall d :: d in Deletable(l, before) <==>
              && d < before && d in l.segments && l.segments[d].status == Closed && d in l.rows && d in l.objects
              && exists i :: 0 <= i < |l.events| && l.events[i].segment == d
    ensures forall d :: d in Deletable(l, before) <==>
              && d < before && d in l.segments && l.segments[d].status == Closed && d in l.rows && d in l.objects
              && EventsOf(l.events, d) != []
  {
    forall d
      ensures EventsOf(l.events, d) != [] <==> exists i :: 0 <= i < |l.events| && l.events[i].segment == d
    {
      HasEventsWhen(l.events, d);
    }
  }

  lemma CloseLeaves(l: Ledger, done: set<int>)
    requires done <= l.segments.Keys
    ensures var after := Close(l, done);
            && after.segments.Keys == l.segments.Keys
            && (forall d :: d in l.segments ==>
                  after.segments[d] == l.segments[d].(status := if d in done then Closed else l.segments[d].status))
            && (forall d :: d in done ==>
                  var s := l.segments[d];
                  && d in after.objects && after.objects[d] == Checkpoint(s.first, s.last, s.count)
                  && d in after.rows && after.rows[d] == Checkpoint(s.first, s.last, s.count))
    ensures var after := Close(l, done);
            && after.events == l.events
            && forall d :: d !in done ==>
                 && (d in after.objects <==> d in l.objects)
                 && (d in after.objects ==> after.objects[d] == l.objects[d])
                 && (d in after.rows <==> d in l.rows) && (d in after.rows ==> after.rows[d] == l.rows[d])
  {}

  lemma DeleteLeaves(events: seq<Event>, done: set<int>)
    ensures forall d :: EventsOf(Without(events, done), d) == if d in done then [] else EventsOf(events, d)
  {
    forall d
      ensures EventsOf(Without(events, done), d) == if d in done then [] else EventsOf(events, d)
    {
      WithoutEvents(events, done, d);
    }
  }

  lemma EventsOfAppend(events: seq<Event>, e: Event, date: int)
    ensures EventsOf(events + [e], date) == EventsOf(events, date) + if e.segment == date then [e] else []
  {
    assert (events + [e])[..|events|] == events;
  }

  lemma {:induction false} WithoutEvents(events: seq<Event>, done: set<int>, date: int)
    ensures EventsOf(Without(events, done), date) == if date in done then [] else EventsOf(events, date)
    ensures forall i :: 0 <= i < |Without(events, done)| ==>
              Without(events, done)[i] in events && Without(events, done)[i].segment !in done
  {
    if events != [] {
      var n := |events| - 1;
      WithoutEvents(events[..n], done, date);
      EventsOfAppend(Without(events[..n], done), events[n], date);
    }
  }

  ghost predicate Ascending(s: seq<int>) {
    forall i, j :: 0 <= i < j < |s| ==> s[i] < s[j]
  }

  ghost function Elements(s: seq<int>): set<int> {
    set i | 0 <= i < |s| :: s[i]
  }

  lemma AscendingAppend(s: seq<int>, x: int)
    requires Ascending(s) && forall y :: y in Elements(s) ==> y < x
    ensures Ascending(s + [x]) && Elements(s + [x]) == Elements(s) + {x}
  {
    assert forall i :: 0 <= i < |s| ==> s[i] in Elements(s);
    assert (s + [x])[|s|] == x;
    forall y | y in Elements(s)
      ensures y in Elements(s + [x])
    {
      var i :| 0 <= i < |s| && s[i] == y;
      assert (s + [x])[i] == y;
    }
  }

  lemma SomeElement(s: set<int>)
    ensures s == {} || exists x :: x in s
  {
    if forall x :: x !in s {
      assert s == {};
    }
  }

  lemma {:induction false} LeastExists(s: set<int>)
    requires s != {}
    ensures exists x :: x in s && forall y :: y in s ==> x <= y
  {
    SomeElement(s);
    var x :| x in s;
    var others := s - {x};
    if others == {} {
      assert forall y :: y in s ==> y == x || y in others;
    } else {
      LeastExists(others);
      var y :| y in others && forall z :: z in others ==> y <= z;
      var least := if x < y then x else y;
      forall z | z in s
        ensures least <= z
      {
        assert z == x || z in others;
      }
    }
  }

  lemma CloseNothing(l: Ledger)
    ensures Close(l, {}) == l
  {
    assert Close(l, {}).segments == l.segments;
  }

  lemma MarkOneMore(segments: map<int, Segment>, done: set<int>, date: int)
    requires date in segments && date !in done
    ensures var marked := Marked(segments, done);
            && marked[date] == segments[date]
            && Marked(segments, done + {date}) == marked[date := segments[date].(status := Closed)]
  {}

  lemma CheckpointOneMore(m: map<int, Checkpoint>, segments: map<int, Segment>, done: set<int>, date: int)
    requires done <= segments.Keys && date in segments
    ensures m + Checkpoints(segments, done + {date})
              == (m + Checkpoints(segments, done))[date := CheckpointOf(segments[date])]
  {}

  lemma CloseOneMore(l: Ledger, done: set<int>, date: int)
    requires done <= l.segments.Keys && date in l.segments && date !in done
    ensures var l1 := Close(l, done); var c := CheckpointOf(l1.segments[date]);
            Close(l, done + {date}) == l1.(objects := l1.objects[date := c], rows := l1.rows[date := c],
                                          segments := l1.segments[date := l1.segments[date].(status := Closed)])
  {
    MarkOneMore(l.segments, done, date);
    CheckpointOneMore(l.objects, l.segments, done, date);
    CheckpointOneMore(l.rows, l.segments, done, date);
    hide Marked, Checkpoints;
  }

  lemma {:induction false} DeleteNothing(l: Ledger)
    ensures Delete(l, {}) == l
  {
    WithoutNone(l.events);
    assert l.segments - {} == l.segments;
  }

  lemma {:induction false} WithoutNone(events: seq<Event>)
    ensures Without(events, {}) == events
  {
    if events != [] {
      WithoutNone(events[..|events| - 1]);
    }
  }

  lemma {:induction false} WithoutTwice(events: seq<Event>, a: set<int>, b: set<int>)
    ensures Without(Without(events, a), b) == Without(events, a + b)
  {
    if events != [] {
      var n := |events| - 1;
      WithoutTwice(events[..n], a, b);
      var front := Without(events[..n], a);
      assert (front + [events[n]])[..|front|] == front;
    }
  }
}
