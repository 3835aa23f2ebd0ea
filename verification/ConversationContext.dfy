/** The part of a conversation that is put before the model. */
module ConversationContext {
  import opened Common

  datatype Role = User | Assistant | System | Tool

  /** A stored message; `normal` says that its information policy has normal sensitivity. */
  datatype Row = Row(role: Role, content: string, normal: bool)
  datatype Message = Message(role: Role, content: string)

  const CONTEXT_MESSAGES: nat := 8
  const CONTEXT_CHARACTERS: nat := 12000

  predicate Eligible(row: Row) {
    (row.role == User || row.role == Assistant) && row.normal
  }

  function EligibleMessages(rows: seq<Row>): seq<Message> {
    if rows == [] then []
    else (if Eligible(rows[0]) then [Message(rows[0].role, rows[0].content)] else []) + EligibleMessages(rows[1..])
  }

  /** slice(-n) and, for strings, slice(max(0, length - n)). */
  function Last<T>(s: seq<T>, n: nat): seq<T> {
    s[Max(0, |s| - n)..]
  }

  function Joined(messages: seq<Message>): string {
    if messages == [] then "" else Joined(messages[..|messages| - 1]) + messages[|messages| - 1].content
  }

  /** The messages that fit into `room` characters, counted from the end; the first of them
      is cut at its start where it does not fit whole. */
  function Fitting(messages: seq<Message>, room: nat): seq<Message> {
    if messages == [] || room == 0 then []
    else
      var m := messages[|messages| - 1];
      var content := Last(m.content, room);
      Fitting(messages[..|messages| - 1], room - |content|) + [m.(content := content)]
  }

  lemma FittingStep(messages: seq<Message>, i: nat, room: nat)
    requires i < |messages| && room > 0
    ensures var content := Last(messages[i].content, room);
            Fitting(messages[..i + 1], room)
              == Fitting(messages[..i], room - |content|) + [messages[i].(content := content)]
  {
    assert messages[..i + 1][..i] == messages[..i];
  }

  /** normalConversationContext: a walk over the reversed messages. */
  method NormalConversationContext(rows: seq<Row>) returns (kept: seq<Message>)
    ensures kept == Fitting(Last(EligibleMessages(rows), 8), 12000)
  {
    var messages := Last(EligibleMessages(rows), CONTEXT_MESSAGES);
    kept := Walk(messages, CONTEXT_CHARACTERS);
  }

  /** The loop of normalConversationContext. */
  method Walk(messages: seq<Message>, room: nat) returns (kept: seq<Message>)
    ensures kept == Fitting(messages, room)
  {
    var remaining: nat := room;
    kept := [];
    var i := |messages|;
    assert messages[..i] == messages;
    while i > 0
      invariant 0 <= i <= |messages|
      invariant Fitting(messages, room) == Fitting(messages[..i], remaining) + kept
    {
      hide Fitting, Last;
      i := i - 1;
      if remaining > 0 {
        FittingStep(messages, i, remaining);
        var content := Last(messages[i].content, remaining);
        LastFits(messages[i].content, remaining);
        remaining := remaining - |content|;
        Regroup(Fitting(messages[..i], remaining), messages[i].(content := content), kept);
        kept := [messages[i].(content := content)] + kept;
      } else {
        NothingFits(messages, i);
      }
    }
  }

  lemma Regroup<T>(a: seq<T>, x: T, b: seq<T>)
    ensures (a + [x]) + b == a + ([x] + b)
  {}

  lemma NothingFits(messages: seq<Message>, i: nat)
    requires i < |messages|
    ensures Fitting(messages[..i + 1], 0) == [] == Fitting(messages[..i], 0)
  {}

  lemma LastFits<T>(s: seq<T>, n: nat)
    ensures |Last(s, n)| == Min(n, |s|)
    ensures |Last(s, n)| < n ==> Last(s, n) == s
  {}

  lemma LastOfJoin<T>(a: seq<T>, b: seq<T>, n: nat)
    ensures Last(a + b, n) == Last(a, n - |Last(b, n)|) + Last(b, n)
  {}

  lemma JoinedAppend(messages: seq<Message>, m: Message)
    ensures Joined(messages + [m]) == Joined(messages) + m.content
  {
    assert (messages + [m])[..|messages|] == messages;
  }

  /** The kept contents, joined in order, are exactly the last `room` characters of the joined
      messages. */
  lemma {:induction false} FittingIsTheTail(messages: seq<Message>, room: nat)
    ensures Joined(Fitting(messages, room)) == Last(Joined(messages), room)
  {
    if messages != [] && room > 0 {
      var n := |messages| - 1;
      var last := messages[n].(content := Last(messages[n].content, room));
      var left := room - |last.content|;
      FittingIsTheTail(messages[..n], left);
      JoinedAppend(Fitting(messages[..n], left), last);
      LastOfJoin(Joined(messages[..n]), messages[n].content, room);
    } else if room == 0 {
      LastFits(Joined(messages), 0);
    }
  }

  /** Messages are left out only when the room is used up. */
  lemma {:induction false} LeavesOutOnlyWhenFull(messages: seq<Message>, room: nat)
    ensures |Fitting(messages, room)| <= |messages|
    ensures |Fitting(messages, room)| < |messages| ==> |Joined(Fitting(messages, room))| == room
  {
    if messages != [] && room > 0 {
      var n := |messages| - 1;
      var content := Last(messages[n].content, room);
      var front := Fitting(messages[..n], room - |content|);
      LeavesOutOnlyWhenFull(messages[..n], room - |content|);
      assert (front + [messages[n].(content := content)])[..|front|] == front;
    }
  }

  lemma FittingShape(messages: seq<Message>, room: nat) returns (front: seq<Message>, last: Message, left: nat)
    requires messages != [] && room > 0
    ensures Fitting(messages, room) == front + [last]
    ensures front == Fitting(messages[..|messages| - 1], left) && |front| < |messages|
    ensures last.role == messages[|messages| - 1].role
    ensures front != [] ==> last == messages[|messages| - 1]
  {
    var n := |messages| - 1;
    var content := Last(messages[n].content, room);
    left := room - |content|;
    front := Fitting(messages[..n], left);
    last := messages[n].(content := content);
    LeavesOutOnlyWhenFull(messages[..n], left);
    LastFits(messages[n].content, room);
  }

  /** The kept messages are the last ones, in order and with their roles; only the first may
      be cut. */
  lemma {:induction false} FittingKeepsTheLast(messages: seq<Message>, room: nat, kept: seq<Message>, i: nat)
    requires kept == Fitting(messages, room) && i < |kept|
    ensures |kept| <= |messages|
    ensures kept[i].role == messages[|messages| - |kept| + i].role
    ensures 0 < i ==> kept[i] == messages[|messages| - |kept| + i]
  {
    assert messages != [] && room > 0;
    var front, last, left := FittingShape(messages, room);
    hide Fitting;
    if i < |front| {
      FittingKeepsTheLast(messages[..|messages| - 1], left, front, i);
    }
  }

  /** The whole result of normalConversationContext on the stored rows. */
  lemma ContextIsTheLastCharacters(rows: seq<Row>)
    ensures var messages := Last(EligibleMessages(rows), 8);
            && |messages| <= 8
            && Joined(Fitting(messages, 12000)) == Last(Joined(messages), 12000)
            && |Joined(Fitting(messages, 12000))| == Min(12000, |Joined(messages)|)
  {
    FittingIsTheTail(Last(EligibleMessages(rows), 8), 12000);
  }

  // ---- Where the kept messages come from ----

  /** A row of normal sensitivity by the user or the assistant. */
  predicate IsSource(row: Row) {
    row.normal && row.role in {User, Assistant}
  }

  /** The places of these rows, in order. */
  function SourceRows(rows: seq<Row>): seq<nat> {
    if rows == [] then []
    else
      var n := |rows| - 1;
      SourceRows(rows[..n]) + if IsSource(rows[n]) then [n] else []
  }

  lemma {:induction false} SourceRowsAreSources(rows: seq<Row>, i: nat)
    requires i < |SourceRows(rows)|
    ensures SourceRows(rows)[i] < |rows| && IsSource(rows[SourceRows(rows)[i]])
    ensures 0 < i ==> SourceRows(rows)[i - 1] < SourceRows(rows)[i]
  {
    hide IsSource;
    var n := |rows| - 1;
    var before := SourceRows(rows[..n]);
    if i < |before| {
      SourceRowsAreSources(rows[..n], i);
    } else if 0 < i {
      SourceRowsAreSources(rows[..n], i - 1);
    }
  }

  lemma {:induction false} SourcesAreListed(rows: seq<Row>, r: nat)
    requires r < |rows| && IsSource(rows[r])
    ensures r in SourceRows(rows)
  {
    hide IsSource;
    var n := |rows| - 1;
    if r < n {
      assert rows[..n][r] == rows[r];
      SourcesAreListed(rows[..n], r);
    }
  }

  lemma {:induction false} EligibleAppend(rows: seq<Row>, row: Row)
    ensures EligibleMessages(rows + [row]) ==
            EligibleMessages(rows) + if Eligible(row) then [Message(row.role, row.content)] else []
  {
    if rows != [] {
      assert (rows + [row])[1..] == rows[1..] + [row];
      EligibleAppend(rows[1..], row);
      hide Eligible;
    }
  }

  lemma {:induction false} EligibleComeFromRows(rows: seq<Row>)
    ensures |EligibleMessages(rows)| == |SourceRows(rows)|
    ensures forall i: nat :: i < |SourceRows(rows)| ==>
              IsMessageOf(EligibleMessages(rows)[i], rows, SourceRows(rows)[i])
  {
    if rows != [] {
      var n := |rows| - 1;
      EligibleComeFromRows(rows[..n]);
      EligibleAppend(rows[..n], rows[n]);
      assert rows[..n] + [rows[n]] == rows;
      assert IsSource(rows[n]) <==> Eligible(rows[n]);
      hide EligibleMessages, Eligible, IsSource;
    }
  }

  predicate IsMessageOf(m: Message, rows: seq<Row>, r: nat) {
    r < |rows| && m == Message(rows[r].role, rows[r].content)
  }

  /** `part` is the end of `whole`. */
  predicate IsEnd(part: string, whole: string) {
    |part| <= |whole| && part == whole[|whole| - |part|..]
  }

  /** A kept message has the role of the row and its content, or the end of its content. */
  predicate ComesFrom(kept: Message, row: Row, whole: bool) {
    kept.role == row.role && (whole ==> kept.content == row.content) && IsEnd(kept.content, row.content)
  }

  lemma LastIsEnd(s: string, n: nat)
    ensures IsEnd(Last(s, n), s)
  {}

  lemma {:induction false} FittingCutsAtTheStart(messages: seq<Message>, room: nat, kept: seq<Message>, i: nat)
    requires kept == Fitting(messages, room) && i < |kept|
    ensures |kept| <= |messages|
    ensures IsEnd(kept[i].content, messages[|messages| - |kept| + i].content)
  {
    hide Last, IsEnd;
    assert messages != [] && room > 0;
    var n := |messages| - 1;
    var content := Last(messages[n].content, room);
    LastFits(messages[n].content, room);
    var front := Fitting(messages[..n], room - |content|);
    assert kept == front + [messages[n].(content := content)];
    LeavesOutOnlyWhenFull(messages[..n], room - |content|);
    LastIsEnd(messages[n].content, room);
    hide Fitting;
    if i < |front| {
      FittingCutsAtTheStart(messages[..n], room - |content|, front, i);
    }
  }

  lemma KeptComesFrom(messages: seq<Message>, kept: seq<Message>, i: nat, row: Row)
    requires kept == Fitting(messages, 12000) && i < |kept| <= |messages|
    requires messages[|messages| - |kept| + i] == Message(row.role, row.content)
    ensures ComesFrom(kept[i], row, 0 < i)
  {
    hide Fitting, IsEnd;
    FittingKeepsTheLast(messages, 12000, kept, i);
    FittingCutsAtTheStart(messages, 12000, kept, i);
  }

  /** Every kept message comes from a stored row of normal sensitivity, by the user or the
      assistant: the last rows of this kind, eight at most, in their order, with their roles and
      their contents. Only the first may be cut, and it is cut at its start. */
  lemma ContextComesFromRows(rows: seq<Row>, kept: seq<Message>, i: nat)
    requires kept == Fitting(Last(EligibleMessages(rows), 8), 12000) && i < |kept|
    ensures |kept| <= 8 && |kept| <= |SourceRows(rows)|
    ensures var r := SourceRows(rows)[|SourceRows(rows)| - |kept| + i];
            r < |rows| && rows[r].normal && rows[r].role in {User, Assistant} && ComesFrom(kept[i], rows[r], 0 < i)
  {
    var all, from := EligibleMessages(rows), SourceRows(rows);
    var k := |from| - |kept| + i;
    hide Fitting, EligibleMessages, SourceRows, ComesFrom, Last;
    EligibleComeFromRows(rows);
    LeavesOutOnlyWhenFull(Last(all, 8), 12000);
    LastFits(all, 8);
    SourceRowsAreSources(rows, k);
    LastAt(all, 8, |Last(all, 8)| - |kept| + i);
    assert IsMessageOf(all[k], rows, from[k]);
    KeptComesFrom(Last(all, 8), kept, i, rows[from[k]]);
  }

  lemma LastAt<T>(s: seq<T>, n: nat, i: nat)
    requires i < |Last(s, n)|
    ensures |Last(s, n)| <= |s| && Last(s, n)[i] == s[|s| - |Last(s, n)| + i]
  {}
}
