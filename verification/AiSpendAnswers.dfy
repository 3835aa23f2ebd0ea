/** What the operations of the AI spend ledger answer in every reachable state, and what they
    leave, in figures. */
module AiSpendAnswers {
  import opened Common
  import opened OrderedMap
  import opened AiSpendLedger
  import opened AiSpendSafety

  /** Reaping turns each active row whose time has come into an expired one, and leaves the
      others and the keys alone. */
  lemma ReapAnswers(cap: Option<real>, ops: seq<Op>, now: int)
    ensures var before, after := Run(cap, ops), Run(cap, ops + [Reap(now)]);
            && |after.reservations| == |before.reservations|
            && after.idempotency == before.idempotency
            && forall i :: 0 <= i < |before.reservations| ==>
                 var r := before.reservations[i].value;
                 after.reservations[i] ==
                 Entry(before.reservations[i].key,
                       if r.status == Active && r.expiresAt <= now then r.(status := Expired) else r)
  {
    var l := Run(cap, ops);
    assert (ops + [Reap(now)])[..|ops|] == ops;
    ReapingIsComplete(l, now, 0);
    ReapingKeepsKeys(l, now, 0);
  }

  /** Of the neurons a request asks for, those that the 10,000 free ones of the day still cover. */
  function FreeOf(d: DayUsage, neurons: real): real {
    var left := 10000.0 - d.used - d.reserved;
    if left <= 0.0 then 0.0 else if left <= neurons then left else neurons
  }

  /** The others cost eleven micros each. */
  function PriceOf(d: DayUsage, neurons: real): real {
    11.0 * (neurons - FreeOf(d, neurons))
  }

  /** A request with a key that is not known is refused when its amount is not positive. It is
      refused for its price when a cap is set and what the month has used and reserved passes it
      together with the price. Neither changes anything. In every other case the reservation is
      made and answered. */
  ghost predicate IsReserved(cap: Option<real>, l: Ledger, q: Request, after: Ledger,
                             answer: Result<Reservation, Error>) {
    var d := if q.day in l.daily then l.daily[q.day] else DayUsage(0.0, 0.0);
    var m := if q.month in l.monthly then l.monthly[q.month] else MonthUsage(0.0, 0.0);
    var free, price := FreeOf(d, q.neurons), PriceOf(d, q.neurons);
    if q.neurons <= 0.0 then answer == Err(NotPositive) && after == l
    else if cap.Some? && m.usedMicros + m.reservedMicros + price > cap.value then
      answer == Err(SpendLimitReached) && after == l
    else
      var r := Reservation(q.id, q.key, q.day, q.month, q.neurons, q.expiresAt, free, price, Active);
      && answer == Ok(r) && after.idempotency == l.idempotency[q.key := q.id]
      && after.daily == l.daily[q.day := DayUsage(d.used, d.reserved + q.neurons)]
      && after.monthly == l.monthly[q.month := MonthUsage(m.usedMicros, m.reservedMicros + price)]
      && FiledUnder(l.reservations, after.reservations, q.id, r) && after.settled == l.settled
  }

  lemma AcceptedIsReserved(cap: Option<real>, l: Ledger, q: Request)
    requires WellFormed(l) && 0.0 < q.neurons
    ensures if OverLimit(cap, l, q) then IsReserved(cap, l, q, l, Err(SpendLimitReached))
            else IsReserved(cap, l, q, Accepted(l, q), Ok(NewRow(l, q)))
  {
    var d, m := DayOf(l, q.day), MonthOf(l, q.month);
    AcceptedIs(l, q, d, m, FreeOf(d, q.neurons), PriceOf(d, q.neurons));
    PutFiles(l.reservations, q.id, NewRow(l, q));
    hide FiledUnder, Put, Accepted, NewRow, OverLimit, WellFormed, FreeOf;
  }

  /** In every reachable state, after the reaping. */
  lemma ReserveAnswers(cap: Option<real>, ops: seq<Op>, q: Request, now: int)
    requires var l := Run(cap, ops + [Reap(now)]);
             q.key !in l.idempotency || l.idempotency[q.key] == ""
    ensures var (after, answer) := ReserveStep(cap, Run(cap, ops), q, now);
            IsReserved(cap, Run(cap, ops + [Reap(now)]), q, after, answer)
  {
    var l := Run(cap, ops + [Reap(now)]);
    assert (ops + [Reap(now)])[..|ops|] == ops;
    assert l == ReapedFrom(Run(cap, ops), now, 0);
    RunIsWellFormed(cap, ops + [Reap(now)]);
    if 0.0 < q.neurons {
      AcceptedIsReserved(cap, l, q);
    }
    hide FiledUnder, Put, Accepted, NewRow, OverLimit, ReapedFrom, FreeOf, Run, WellFormed;
  }

  /** The position of an active row under the id. */
  predicate IsActiveAt(l: Ledger, id: string, i: nat) {
    i < |l.reservations| && l.reservations[i].key == id && l.reservations[i].value.status == Active
  }

  lemma ActiveIsFound(l: Ledger, id: string, i: nat)
    requires WellFormed(l) && i < |l.reservations| && l.reservations[i].key == id
    ensures i == Find(l.reservations, id)
    ensures l.reservations[i].value.day in l.daily && l.reservations[i].value.month in l.monthly
  {}

  /** An active row ends: its day and its month give back in full what it had reserved, and
      take what was used and what has to be paid. */
  ghost predicate IsEnded(l: Ledger, i: nat, used: real, paid: real, status: Status, after: Ledger)
    requires i < |l.reservations|
  {
    var r := l.reservations[i].value;
    && r.day in l.daily && r.month in l.monthly
    && var d, m := l.daily[r.day], l.monthly[r.month];
       && after.daily == l.daily[r.day := DayUsage(d.used + used, d.reserved - r.neurons)]
       && after.monthly ==
          l.monthly[r.month := MonthUsage(m.usedMicros + 11.0 * paid, m.reservedMicros - r.overageMicros)]
       && after.reservations == l.reservations[i := Entry(l.reservations[i].key, r.(status := status))]
       && after.idempotency == l.idempotency
  }

  lemma SettledIsEnded(cap: Option<real>, l: Ledger, id: string, i: nat, actual: real)
    requires Inv(cap, l) && IsActiveAt(l, id, i) && 0.0 <= actual
    ensures SettleStep(l, id, actual).1 == Ok(())
    ensures var free := l.reservations[i].value.freeNeurons;
            IsEnded(l, i, actual, if actual <= free then 0.0 else actual - free, Settled, SettleStep(l, id, actual).0)
  {
    ClampsNeverBite(cap, l, i);
    ActiveIsFound(l, id, i);
    hide Inv, Find, WellFormed;
  }

  lemma ReleasedIsEnded(cap: Option<real>, l: Ledger, id: string, i: nat)
    requires Inv(cap, l) && IsActiveAt(l, id, i)
    ensures ReleaseStep(l, id).1 == Ok(())
    ensures IsEnded(l, i, 0.0, 0.0, Released, ReleaseStep(l, id).0)
    ensures ReleaseStep(l, id).0.settled == l.settled
  {
    ClampsNeverBite(cap, l, i);
    ActiveIsFound(l, id, i);
    hide Inv, Find, WellFormed;
  }

  /** A negative amount, an unknown id and a row that is not active are answered as errors. */
  lemma EndFails(l: Ledger, id: string, actual: real)
    requires WellFormed(l)
    ensures actual < 0.0 ==> SettleStep(l, id, actual) == (l, Err(NegativeActual))
    ensures !(exists i :: IsActiveAt(l, id, i)) ==>
              var e := if exists i :: 0 <= i < |l.reservations| && l.reservations[i].key == id
                       then NotActive else NotFound;
              && ReleaseStep(l, id) == (l, Err(e))
              && (0.0 <= actual ==> SettleStep(l, id, actual) == (l, Err(e)))
  {
    var k := Find(l.reservations, id);
    if exists i :: 0 <= i < |l.reservations| && l.reservations[i].key == id {
      assert k < |l.reservations|;
      assert l.reservations[k].value.status == Active ==> IsActiveAt(l, id, k);
    }
    hide WellFormed;
  }

  /** In every reachable state: settling succeeds if and only if the amount is not negative and
      there is an active row under the id. The row's month then pays for the neurons beyond its
      free ones. Otherwise nothing changes. */
  lemma SettleAnswers(cap: Option<real>, ops: seq<Op>, id: string, actual: real)
    ensures var l := Run(cap, ops); var (after, answer) := SettleStep(l, id, actual);
            && (actual < 0.0 ==> answer == Err(NegativeActual) && after == l)
            && (0.0 <= actual && !(exists i :: IsActiveAt(l, id, i)) ==>
                  && answer == Err(if exists i :: 0 <= i < |l.reservations| && l.reservations[i].key == id
                                   then NotActive else NotFound)
                  && after == l)
            && forall i: nat :: IsActiveAt(l, id, i) && 0.0 <= actual ==>
                 var free := l.reservations[i].value.freeNeurons;
                 && answer == Ok(())
                 && IsEnded(l, i, actual, if actual <= free then 0.0 else actual - free, Settled, after)
  {
    EveryRunIsSafe(cap, ops);
    var l := Run(cap, ops);
    EndFails(l, id, actual);
    hide SettleStep, IsEnded, Run, WellFormed;
    forall i: nat | IsActiveAt(l, id, i) && 0.0 <= actual
      ensures SettleStep(l, id, actual).1 == Ok(())
      ensures var free := l.reservations[i].value.freeNeurons;
              IsEnded(l, i, actual, if actual <= free then 0.0 else actual - free, Settled, SettleStep(l, id, actual).0)
    {
      SettledIsEnded(cap, l, id, i, actual);
    }
  }

  /** Likewise for releasing, which uses and pays nothing. */
  lemma ReleaseAnswers(cap: Option<real>, ops: seq<Op>, id: string)
    ensures var l := Run(cap, ops); var (after, answer) := ReleaseStep(l, id);
            && after.settled == l.settled
            && (!(exists i :: IsActiveAt(l, id, i)) ==>
                  && answer == Err(if exists i :: 0 <= i < |l.reservations| && l.reservations[i].key == id
                                   then NotActive else NotFound)
                  && after == l)
            && forall i: nat :: IsActiveAt(l, id, i) ==> answer == Ok(()) && IsEnded(l, i, 0.0, 0.0, Released, after)
  {
    EveryRunIsSafe(cap, ops);
    var l := Run(cap, ops);
    EndFails(l, id, 0.0);
    hide ReleaseStep, IsEnded, Run, WellFormed;
    if i :| IsActiveAt(l, id, i) {
      ReleasedIsEnded(cap, l, id, i);
      forall j: nat | IsActiveAt(l, id, j)
        ensures IsEnded(l, j, 0.0, 0.0, Released, ReleaseStep(l, id).0)
      {
        ReleasedIsEnded(cap, l, id, j);
      }
    }
  }
}
