/** What the operations of the quota ledger answer in every reachable state, and what they
    leave, in figures. */
module QuotaAnswers {
  import opened Common
  import opened OrderedMap
  import opened QuotaLedger
  import opened QuotaSafety

  /** Reaping turns each active row whose time has come into an expired one, and leaves the
      others and the keys alone. */
  lemma ReapAnswers(policy: Policy, ops: seq<Op>, now: int)
    ensures var before, after := Run(policy, ops), Run(policy, ops + [Reap(now)]);
            && |after.reservations| == |before.reservations|
            && after.idempotency == before.idempotency
            && forall i :: 0 <= i < |before.reservations| ==>
                 var r := before.reservations[i].value;
                 after.reservations[i] ==
                 Entry(before.reservations[i].key,
                       if r.status == Active && r.input.expiresAt <= now then Stored(r.input, Expired, None) else r)
  {
    var l := Run(policy, ops);
    assert (ops + [Reap(now)])[..|ops|] == ops;
    ReapingIsComplete(l, now, 0);
    ReapKeepsKeys(l, now, 0);
  }

  /** Neurons go to the other ledger. A policy may bound every resource by a fraction of what is
      included of it; a request is refused if it passes that bound together with what its
      resource has used and reserved in its period. Refusals change nothing. In every other case
      the reservation is made and answered. */
  ghost predicate IsReserved(policy: Policy, l: Ledger, q: Request, after: Ledger, answer: Result<Request, Error>) {
    var b := (q.resource, q.period);
    var u := if b in l.usage then l.usage[b] else Usage(0.0, 0.0);
    if q.resource == WorkersAiNeuron then answer == Err(RequiresAiLedger) && after == l
    else if policy != Unlimited && u.used + u.reserved + q.amount > Included(q.resource) * policy.fraction then
      && after == l
      && answer == Err(if q.resource in {DurableObjectStorageGbMonth, D1StorageGbMonth, R2StorageGbMonth}
                       then StorageBudgetReached else HardLimitReached)
    else
      && answer == Ok(q) && FiledUnder(l.reservations, after.reservations, q.id, Stored(q, Active, None))
      && after.usage == l.usage[b := Usage(u.used, u.reserved + q.amount)] && after.charges == l.charges
      && q.key in after.idempotency && after.idempotency[q.key].id == q.id
      && after.idempotency[q.key].fingerprint == Fingerprint(q.resource, q.period, q.amount, q.taskId)
      && after.idempotency - {q.key} == l.idempotency - {q.key}
  }

  lemma NewIsReserved(policy: Policy, l: Ledger, q: Request)
    requires WellFormed(l) && q.key !in l.idempotency
    ensures var (after, answer) := ReserveReaped(policy, l, q); IsReserved(policy, l, q, after, answer)
  {
    hide Put, FiledUnder, Included;
    PutFiles(l.reservations, q.id, Stored(q, Active, None));
    hide WellFormed, DistinctKeys;
    NewKeyOnly(l.idempotency, q.key, KeyRecord(q.id, FingerprintOf(q)));
    OverLimitWhen(policy, l, q);
    hide OverLimit, HardLimit;
  }

  lemma OverLimitWhen(policy: Policy, l: Ledger, q: Request)
    ensures var u := if (q.resource, q.period) in l.usage then l.usage[(q.resource, q.period)] else Usage(0.0, 0.0);
            OverLimit(policy, l, q) <==>
            policy != Unlimited && u.used + u.reserved + q.amount > Included(q.resource) * policy.fraction
  {
    hide Included;
  }

  lemma NewKeyOnly(m: map<string, KeyRecord>, key: string, record: KeyRecord)
    ensures m[key := record] - {key} == m - {key}
  {}

  /** In every reachable state, after the reaping, for a valid request with a new key. */
  lemma ReserveAnswers(policy: Policy, ops: seq<Op>, q: Request, now: int)
    requires ValidInput(q) && q.key !in Run(policy, ops + [Reap(now)]).idempotency
    ensures var (after, answer) := ReserveStep(policy, Run(policy, ops), q, now);
            IsReserved(policy, Run(policy, ops + [Reap(now)]), q, after, answer)
  {
    assert (ops + [Reap(now)])[..|ops|] == ops;
    EveryRunIsSafe(policy, ops + [Reap(now)]);
    NewIsReserved(policy, Run(policy, ops + [Reap(now)]), q);
    hide IsReserved, ReserveReaped, ReapedFrom, ValidInput;
  }

  /** A request is refused as invalid, before anything is reaped, if and only if an identifier,
      the period or the key has a wrong length or character, or the amount is not positive. */
  lemma InvalidIsRefused(policy: Policy, l: Ledger, q: Request, now: int)
    ensures var (after, answer) := ReserveStep(policy, l, q, now);
            && (answer == Err(InvalidInput) ==> after == l)
            && (answer != Err(InvalidInput) <==>
                  && 0.0 < q.amount && 1 <= |q.period| <= 100 && 1 <= |q.key| <= 200
                  && forall id :: id == q.id || Some(id) == q.taskId ==>
                       && 1 <= |id| <= 200 && id[0] !in "._:/-"
                       && forall i :: 0 <= i < |id| ==>
                            'a' <= id[i] <= 'z' || 'A' <= id[i] <= 'Z' || '0' <= id[i] <= '9' || id[i] in "._:/-")
  {
    assert "._:/-" == ['.', '_', ':', '/', '-'];
    IdentifierIs(q.id);
    if q.taskId.Some? {
      IdentifierIs(q.taskId.value);
    }
    hide ReserveReaped, ReapedFrom, IsIdentifier;
    AnswersToValid(policy, l, q, now);
  }

  lemma AnswersToValid(policy: Policy, l: Ledger, q: Request, now: int)
    ensures ReserveReaped(policy, ReapedFrom(l, now, 0), q).1 != Err(InvalidInput)
  {
    hide Find, OverLimit, ReapedFrom;
  }

  lemma IdentifierIs(id: string)
    ensures IsIdentifier(id) <==>
            && 1 <= |id| <= 200 && id[0] !in "._:/-"
            && forall i :: 0 <= i < |id| ==>
                 'a' <= id[i] <= 'z' || 'A' <= id[i] <= 'Z' || '0' <= id[i] <= '9' || id[i] in "._:/-"
  {
    assert "._:/-" == ['.', '_', ':', '/', '-'];
  }

  /** What is included a month, by resource. */
  lemma IncludedAmounts()
    ensures Included(WorkerRequest) == 10000000.0 && Included(WorkerCpuMs) == 30000000.0
    ensures Included(DurableObjectRequest) == 1000000.0 && Included(DurableObjectDurationGbS) == 400000.0
    ensures Included(DurableObjectRowRead) == Included(D1RowRead) == 25000000000.0
    ensures Included(DurableObjectRowWrite) == Included(D1RowWrite) == 50000000.0
    ensures Included(DurableObjectStorageGbMonth) == Included(D1StorageGbMonth) == 5.0
    ensures Included(R2StorageGbMonth) == 10.0 && Included(R2ClassA) == 1000000.0 && Included(R2ClassB) == 10000000.0
    ensures Included(WorkersLogEvent) == 20000000.0 && Included(ContainerMemoryGibHour) == 25.0
    ensures Included(ContainerCpuVcpuMinute) == 375.0 && Included(ContainerDiskGbHour) == 200.0
  {}

  // ---- Ending a reservation ----

  /** The position of an active row under the id. */
  predicate IsActiveAt(l: Ledger, id: string, i: nat) {
    i < |l.reservations| && l.reservations[i].key == id && l.reservations[i].value.status == Active
  }

  /** An active row ends: its resource gives back in full what it had reserved for the period,
      and takes what was used. */
  ghost predicate IsEnded(l: Ledger, i: nat, status: Status, actual: Option<real>, after: Ledger)
    requires i < |l.reservations|
  {
    var q := l.reservations[i].value.input;
    var b := (q.resource, q.period);
    && b in l.usage && after.idempotency == l.idempotency
    && after.usage == l.usage[b := Usage(l.usage[b].used + (if actual.Some? then actual.value else 0.0),
                                         l.usage[b].reserved - q.amount)]
    && after.reservations == l.reservations[i := Entry(l.reservations[i].key, Stored(q, status, actual))]
  }

  lemma ActiveIsEnded(policy: Policy, l: Ledger, id: string, i: nat, status: Status, actual: Option<real>)
    requires Inv(policy, l) && IsActiveAt(l, id, i)
    ensures Lookup(l, id) == Ok(i) && IsEnded(l, i, status, actual, EndedAt(l, i, status, actual))
  {
    ActiveIsHeld(policy, l, i);
    ActiveIsFound(l, id, i);
    hide Inv, Sum, Find, HardLimit, WellFormed;
  }

  lemma ActiveIsHeld(policy: Policy, l: Ledger, i: nat)
    requires Inv(policy, l) && i < |l.reservations| && l.reservations[i].value.status == Active
    ensures var q := l.reservations[i].value.input;
            BucketOf(q) in l.usage && q.amount <= l.usage[BucketOf(q)].reserved
  {
    var b := BucketOf(l.reservations[i].value.input);
    assert BucketInv(policy, l, b);
    SumAtLeastTerm(l.reservations, i, ActiveIn(b));
    hide Sum, Find, HardLimit;
  }

  lemma ActiveIsFound(l: Ledger, id: string, i: nat)
    requires WellFormed(l) && i < |l.reservations| && l.reservations[i].key == id
    ensures i == Find(l.reservations, id)
  {}

  lemma NoneIsEnded(l: Ledger, id: string)
    requires WellFormed(l)
    ensures !(exists i :: IsActiveAt(l, id, i)) ==>
              Lookup(l, id) == Err(if exists i :: 0 <= i < |l.reservations| && l.reservations[i].key == id
                                   then NotActive else NotFound)
  {
    var k := Find(l.reservations, id);
    if exists i :: 0 <= i < |l.reservations| && l.reservations[i].key == id {
      assert k < |l.reservations|;
      assert l.reservations[k].value.status == Active ==> IsActiveAt(l, id, k);
    }
    hide WellFormed;
  }

  /** In every reachable state: settling succeeds if and only if the amount is not negative and
      there is an active row under the id. Otherwise nothing changes. */
  lemma SettleAnswers(policy: Policy, ops: seq<Op>, id: string, actual: real)
    ensures var l := Run(policy, ops); var (after, answer) := SettleStep(l, id, actual);
            && (actual < 0.0 ==> answer == Err(NegativeActual) && after == l)
            && (0.0 <= actual && !(exists i :: IsActiveAt(l, id, i)) ==>
                  && answer == Err(if exists i :: 0 <= i < |l.reservations| && l.reservations[i].key == id
                                   then NotActive else NotFound)
                  && after == l)
            && forall i: nat :: IsActiveAt(l, id, i) && 0.0 <= actual ==>
                 answer == Ok(()) && IsEnded(l, i, Settled, Some(actual), after)
  {
    EveryRunIsSafe(policy, ops);
    var l := Run(policy, ops);
    NoneIsEnded(l, id);
    hide IsEnded, Run, WellFormed, Lookup, EndedAt, Inv;
    forall i: nat | IsActiveAt(l, id, i)
      ensures Lookup(l, id) == Ok(i) && IsEnded(l, i, Settled, Some(actual), EndedAt(l, i, Settled, Some(actual)))
    {
      ActiveIsEnded(policy, l, id, i, Settled, Some(actual));
    }
  }

  /** Likewise for releasing, which uses nothing. */
  lemma ReleaseAnswers(policy: Policy, ops: seq<Op>, id: string)
    ensures var l := Run(policy, ops); var (after, answer) := ReleaseStep(l, id);
            && (!(exists i :: IsActiveAt(l, id, i)) ==>
                  && answer == Err(if exists i :: 0 <= i < |l.reservations| && l.reservations[i].key == id
                                   then NotActive else NotFound)
                  && after == l)
            && forall i: nat :: IsActiveAt(l, id, i) ==> answer == Ok(()) && IsEnded(l, i, Released, None, after)
  {
    EveryRunIsSafe(policy, ops);
    var l := Run(policy, ops);
    NoneIsEnded(l, id);
    hide IsEnded, Run, WellFormed, Lookup, EndedAt, Inv;
    forall i: nat | IsActiveAt(l, id, i)
      ensures Lookup(l, id) == Ok(i) && IsEnded(l, i, Released, None, EndedAt(l, i, Released, None))
    {
      ActiveIsEnded(policy, l, id, i, Released, None);
    }
  }
}
