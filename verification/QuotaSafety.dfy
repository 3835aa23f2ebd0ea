/** Safety of the quota ledger over every run. */
module QuotaSafety {
  import opened Common
  import opened OrderedMap
  import opened QuotaLedger

  ghost function ActiveIn(b: Bucket): Entry<Stored> -> real {
    (e: Entry<Stored>) => if e.value.status == Active && BucketOf(e.value.input) == b then e.value.input.amount else 0.0
  }

  ghost function ChargedIn(b: Bucket): Charge -> real {
    (c: Charge) => if c.bucket == b then c.actual else 0.0
  }

  ghost function OverrunIn(b: Bucket): Charge -> real {
    (c: Charge) => if c.bucket == b then MaxReal(0.0, c.actual - c.amount) else 0.0
  }

  ghost predicate BucketInv(policy: Policy, l: Ledger, b: Bucket) {
    var u := UsageOf(l, b);
    var limit := HardLimit(policy, b.0);
    && Sum(l.reservations, ActiveIn(b)) <= u.reserved
    && u.used == Sum(l.charges, ChargedIn(b))
    && (limit.Some? && b in l.usage ==> u.used + u.reserved <= limit.value + Sum(l.charges, OverrunIn(b)))
  }

  ghost predicate Inv(policy: Policy, l: Ledger) {
    && WellFormed(l)
    && (forall i :: 0 <= i < |l.reservations| ==> 0.0 < l.reservations[i].value.input.amount)
    && (forall b :: BucketInv(policy, l, b))
  }

  ghost predicate Exact(l: Ledger) {
    forall b :: UsageOf(l, b).reserved == Sum(l.reservations, ActiveIn(b))
  }

  // ---- Steps ----

  lemma EndKeepsBucket(policy: Policy, l: Ledger, i: nat, status: Status, actual: Option<real>, b: Bucket)
    requires Inv(policy, l) && i < |l.reservations|
    requires l.reservations[i].value.status == Active && status != Active
    requires actual.Some? ==> 0.0 <= actual.value
    ensures BucketInv(policy, EndedAt(l, i, status, actual), b)
    ensures UsageOf(l, b).reserved == Sum(l.reservations, ActiveIn(b)) ==>
              UsageOf(EndedAt(l, i, status, actual), b).reserved
                == Sum(EndedAt(l, i, status, actual).reservations, ActiveIn(b))
  {
    var e := l.reservations[i];
    var l' := EndedAt(l, i, status, actual);
    assert BucketInv(policy, l, b);
    SumUpdate(l.reservations, i, l'.reservations[i], ActiveIn(b));
    SumAtLeastTerm(l.reservations, i, ActiveIn(b));
    if actual.Some? {
      var c := Charge(BucketOf(e.value.input), e.value.input.amount, actual.value);
      SumAppend(l.charges, c, ChargedIn(b));
      SumAppend(l.charges, c, OverrunIn(b));
    }
  }

  lemma EndKeepsInv(policy: Policy, l: Ledger, i: nat, status: Status, actual: Option<real>)
    requires Inv(policy, l) && i < |l.reservations|
    requires l.reservations[i].value.status == Active && status != Active
    requires actual.Some? ==> 0.0 <= actual.value
    ensures Inv(policy, EndedAt(l, i, status, actual))
    ensures Exact(l) ==> Exact(EndedAt(l, i, status, actual))
  {
    EndedKeepsWellFormed(l, i, status, actual);
    forall b
      ensures BucketInv(policy, EndedAt(l, i, status, actual), b)
      ensures UsageOf(l, b).reserved == Sum(l.reservations, ActiveIn(b)) ==>
                UsageOf(EndedAt(l, i, status, actual), b).reserved
                  == Sum(EndedAt(l, i, status, actual).reservations, ActiveIn(b))
    {
      EndKeepsBucket(policy, l, i, status, actual, b);
    }
  }

  lemma {:induction false} ReapKeepsInv(policy: Policy, l: Ledger, now: int, i: nat)
    requires Inv(policy, l)
    ensures Inv(policy, ReapedFrom(l, now, i))
    ensures Exact(l) ==> Exact(ReapedFrom(l, now, i))
    decreases |l.reservations| - i
  {
    if i < |l.reservations| {
      if Expiring(l.reservations[i].value, now) {
        EndKeepsInv(policy, l, i, Expired, None);
        ReapKeepsInv(policy, EndedAt(l, i, Expired, None), now, i + 1);
      } else {
        ReapKeepsInv(policy, l, now, i + 1);
      }
    }
  }

  ghost function Dropped(l: Ledger, id: string, b: Bucket): real {
    var i := Find(l.reservations, id);
    if i < |l.reservations| then ActiveIn(b)(l.reservations[i]) else 0.0
  }

  lemma AcceptMovesTotals(l: Ledger, q: Request, b: Bucket)
    ensures Sum(Accepted(l, q).reservations, ActiveIn(b))
              == Sum(l.reservations, ActiveIn(b)) - Dropped(l, q.id, b) + (if BucketOf(q) == b then q.amount else 0.0)
  {
    var i := Find(l.reservations, q.id);
    var e := Entry(q.id, Stored(q, Active, None));
    if i < |l.reservations| {
      SumUpdate(l.reservations, i, e, ActiveIn(b));
    } else {
      SumAppend(l.reservations, e, ActiveIn(b));
    }
  }

  lemma AcceptKeepsBucket(policy: Policy, l: Ledger, q: Request, b: Bucket)
    requires Inv(policy, l) && 0.0 < q.amount && !OverLimit(policy, l, q)
    ensures BucketInv(policy, Accepted(l, q), b)
  {
    hide Included, HardLimit, Put, Sum;
    assert BucketInv(policy, l, b);
    DroppedIsNotNegative(l, q.id, b);
    hide Inv, Dropped, WellFormed;
    AcceptMovesTotals(l, q, b);
    if b == BucketOf(q) {
      SumNonNegative(l.charges, OverrunIn(b));
    }
  }

  lemma DroppedIsNotNegative(l: Ledger, id: string, b: Bucket)
    requires forall i :: 0 <= i < |l.reservations| ==> 0.0 < l.reservations[i].value.input.amount
    ensures 0.0 <= Dropped(l, id, b)
    ensures OverwritesActive(l, id) && b == BucketOf(l.reservations[Find(l.reservations, id)].value.input) ==>
              Dropped(l, id, b) > 0.0
  {}

  lemma AcceptKeepsInv(policy: Policy, l: Ledger, q: Request)
    requires Inv(policy, l) && 0.0 < q.amount && !OverLimit(policy, l, q)
    ensures Inv(policy, Accepted(l, q))
  {
    AcceptedKeepsWellFormed(l, q);
    var l' := Accepted(l, q);
    forall i | 0 <= i < |l'.reservations|
      ensures 0.0 < l'.reservations[i].value.input.amount
    {
      assert l'.reservations[i] == Entry(q.id, Stored(q, Active, None)) || l'.reservations[i] in l.reservations;
    }
    forall b
      ensures BucketInv(policy, l', b)
    {
      AcceptKeepsBucket(policy, l, q, b);
    }
  }

  predicate OverwritesActive(l: Ledger, id: string) {
    Has(l.reservations, id) && l.reservations[Find(l.reservations, id)].value.status == Active
  }

  /** Conservation of reserved totals breaks exactly when the id of an active row is reused. */
  lemma AcceptIsExactUnlessItOverwrites(policy: Policy, l: Ledger, q: Request)
    requires Inv(policy, l) && Exact(l)
    ensures Exact(Accepted(l, q)) <==> !OverwritesActive(l, q.id)
  {
    if OverwritesActive(l, q.id) {
      var b := BucketOf(l.reservations[Find(l.reservations, q.id)].value.input);
      AcceptMovesTotals(l, q, b);
      assert UsageOf(Accepted(l, q), b).reserved != Sum(Accepted(l, q).reservations, ActiveIn(b));
    } else {
      forall b
        ensures UsageOf(Accepted(l, q), b).reserved == Sum(Accepted(l, q).reservations, ActiveIn(b))
      {
        AcceptMovesTotals(l, q, b);
      }
    }
  }

  // ---- Runs ----

  datatype Op =
    | Reserve(q: Request, now: int)
    | Settle(id: string, actual: real)
    | Release(id: string)
    | Reap(now: int)

  function Step(policy: Policy, l: Ledger, op: Op): Ledger {
    match op
    case Reserve(q, now) => ReserveStep(policy, l, q, now).0
    case Settle(id, actual) => SettleStep(l, id, actual).0
    case Release(id) => ReleaseStep(l, id).0
    case Reap(now) => ReapedFrom(l, now, 0)
  }

  function Run(policy: Policy, ops: seq<Op>): Ledger {
    if ops == [] then EMPTY else Step(policy, Run(policy, ops[..|ops| - 1]), ops[|ops| - 1])
  }

  /** The reserve that this operation makes, if it makes one. */
  predicate Accepts(policy: Policy, l: Ledger, op: Op) {
    && op.Reserve? && ValidInput(op.q)
    && var l1 := ReapedFrom(l, op.now, 0);
       op.q.key !in l1.idempotency && op.q.resource != WorkersAiNeuron && !OverLimit(policy, l1, op.q)
  }

  lemma StepKeepsInv(policy: Policy, l: Ledger, op: Op)
    requires Inv(policy, l)
    ensures Inv(policy, Step(policy, l, op))
    ensures (Exact(l) && (Accepts(policy, l, op) ==> !OverwritesActive(ReapedFrom(l, op.now, 0), op.q.id))) ==>
              Exact(Step(policy, l, op))
  {
    hide Inv, Exact, Accepted, EndedAt, OverLimit, OverwritesActive;
    match op
    case Reserve(q, now) =>
      ReapKeepsInv(policy, l, now, 0);
      var l1 := ReapedFrom(l, now, 0);
      if Accepts(policy, l, op) {
        AcceptKeepsInv(policy, l1, q);
        if Exact(l1) {
          AcceptIsExactUnlessItOverwrites(policy, l1, q);
        }
      }
    case Settle(id, actual) =>
      if 0.0 <= actual && Lookup(l, id).Ok? {
        EndKeepsInv(policy, l, Find(l.reservations, id), Settled, Some(actual));
      }
    case Release(id) =>
      if Lookup(l, id).Ok? {
        EndKeepsInv(policy, l, Find(l.reservations, id), Released, None);
      }
    case Reap(now) =>
      ReapKeepsInv(policy, l, now, 0);
  }

  lemma {:induction false} EveryRunIsSafe(policy: Policy, ops: seq<Op>)
    ensures Inv(policy, Run(policy, ops))
  {
    if ops != [] {
      EveryRunIsSafe(policy, ops[..|ops| - 1]);
      StepKeepsInv(policy, Run(policy, ops[..|ops| - 1]), ops[|ops| - 1]);
    }
  }

  /** In every run under a policy with a fraction, what a resource has used and reserved in a
      period stays within that fraction of what is included, plus the amounts by which
      settlements exceeded their reservations. */
  lemma HardLimitHoldsUpToOverrun(policy: Policy, ops: seq<Op>, b: Bucket)
    requires policy.IncludedFraction? && b in Run(policy, ops).usage
    ensures var l := Run(policy, ops);
            l.usage[b].used + l.usage[b].reserved
              <= Included(b.0) * policy.fraction + Sum(l.charges, OverrunIn(b))
    ensures Run(policy, ops).usage[b].used == Sum(Run(policy, ops).charges, ChargedIn(b))
  {
    hide *;
    EveryRunIsSafe(policy, ops);
    BucketIsBounded(policy, Run(policy, ops), b);
  }

  lemma BucketIsBounded(policy: Policy, l: Ledger, b: Bucket)
    requires Inv(policy, l) && policy.IncludedFraction? && b in l.usage
    ensures l.usage[b].used + l.usage[b].reserved <= Included(b.0) * policy.fraction + Sum(l.charges, OverrunIn(b))
    ensures l.usage[b].used == Sum(l.charges, ChargedIn(b))
  {
    assert BucketInv(policy, l, b);
    hide Inv, Included, Sum;
  }

  /** The operation makes a reservation under the id of one that is active at that moment. */
  predicate Overwrites(policy: Policy, l: Ledger, op: Op) {
    Accepts(policy, l, op) && OverwritesActive(ReapedFrom(l, op.now, 0), op.q.id)
  }

  ghost predicate NeverOverwrites(policy: Policy, ops: seq<Op>) {
    forall i :: 0 <= i < |ops| ==> !Overwrites(policy, Run(policy, ops[..i]), ops[i])
  }

  /** What a bucket has reserved for no active row. */
  ghost function Leak(l: Ledger, b: Bucket): real {
    UsageOf(l, b).reserved - Sum(l.reservations, ActiveIn(b))
  }

  lemma EndKeepsLeak(policy: Policy, l: Ledger, i: nat, status: Status, actual: Option<real>, b: Bucket)
    requires Inv(policy, l) && i < |l.reservations|
    requires l.reservations[i].value.status == Active && status != Active
    ensures Leak(EndedAt(l, i, status, actual), b) == Leak(l, b)
  {
    assert BucketInv(policy, l, BucketOf(l.reservations[i].value.input));
    SumUpdate(l.reservations, i, EndedAt(l, i, status, actual).reservations[i], ActiveIn(b));
    SumAtLeastTerm(l.reservations, i, ActiveIn(BucketOf(l.reservations[i].value.input)));
  }

  lemma {:induction false} ReapKeepsLeak(policy: Policy, l: Ledger, now: int, i: nat, b: Bucket)
    requires Inv(policy, l)
    ensures Leak(ReapedFrom(l, now, i), b) == Leak(l, b)
    decreases |l.reservations| - i
  {
    hide Leak, Inv, EndedAt;
    if i < |l.reservations| {
      if Expiring(l.reservations[i].value, now) {
        EndKeepsLeak(policy, l, i, Expired, None, b);
        EndKeepsInv(policy, l, i, Expired, None);
        EndKeepsRows(l, i, Expired, None);
        ReapKeepsLeak(policy, EndedAt(l, i, Expired, None), now, i + 1, b);
      } else {
        ReapKeepsLeak(policy, l, now, i + 1, b);
      }
    }
  }

  lemma EndKeepsRows(l: Ledger, i: nat, status: Status, actual: Option<real>)
    requires i < |l.reservations|
    ensures |EndedAt(l, i, status, actual).reservations| == |l.reservations|
  {}

  lemma AcceptLeaksWhatItOverwrites(policy: Policy, l: Ledger, q: Request, b: Bucket)
    requires Inv(policy, l)
    ensures Leak(Accepted(l, q), b) == Leak(l, b) + Dropped(l, q.id, b) && Dropped(l, q.id, b) >= 0.0
    ensures OverwritesActive(l, q.id) && b == BucketOf(l.reservations[Find(l.reservations, q.id)].value.input) ==>
              Dropped(l, q.id, b) > 0.0
  {
    DroppedIsNotNegative(l, q.id, b);
    hide Inv, Dropped, Put, Find, Sum, OverwritesActive;
    AcceptMovesTotals(l, q, b);
  }

  /** What has leaked is never recovered. */
  lemma LeakNeverShrinks(policy: Policy, l: Ledger, op: Op, b: Bucket)
    requires Inv(policy, l)
    ensures Leak(Step(policy, l, op), b) >= Leak(l, b)
  {
    hide Inv, Leak, Accepted, EndedAt, OverLimit, ValidInput;
    match op
    case Reserve(q, now) =>
      ReapKeepsLeak(policy, l, now, 0, b);
      ReapKeepsInv(policy, l, now, 0);
      AcceptLeaksWhatItOverwrites(policy, ReapedFrom(l, now, 0), q, b);
    case Settle(id, actual) =>
      if Lookup(l, id).Ok? {
        EndKeepsLeak(policy, l, Find(l.reservations, id), Settled, Some(actual), b);
      }
    case Release(id) =>
      if Lookup(l, id).Ok? {
        EndKeepsLeak(policy, l, Find(l.reservations, id), Released, None, b);
      }
    case Reap(now) =>
      ReapKeepsLeak(policy, l, now, 0, b);
  }

  /** An overwritten reservation leaks its whole amount. */
  lemma OverwritingLeaks(policy: Policy, l: Ledger, op: Op) returns (b: Bucket)
    requires Inv(policy, l) && Overwrites(policy, l, op)
    ensures Leak(Step(policy, l, op), b) > 0.0
  {
    var l1 := ReapedFrom(l, op.now, 0);
    ReapKeepsInv(policy, l, op.now, 0);
    b := BucketOf(l1.reservations[Find(l1.reservations, op.q.id)].value.input);
    assert BucketInv(policy, l1, b);
    assert Leak(l1, b) >= 0.0;
    AcceptLeaksWhatItOverwrites(policy, l1, op.q, b);
    hide Inv, Leak, Dropped, OverwritesActive, Accepted, OverLimit, ValidInput;
  }

  lemma NeverOverwritesBefore(policy: Policy, ops: seq<Op>)
    requires ops != []
    ensures var n := |ops| - 1;
            NeverOverwrites(policy, ops) <==>
            NeverOverwrites(policy, ops[..n]) && !Overwrites(policy, Run(policy, ops[..n]), ops[n])
  {
    var n := |ops| - 1;
    hide Overwrites, Run;
    forall i | 0 <= i < n
      ensures ops[..n][i] == ops[i] && ops[..n][..i] == ops[..i]
    {}
    if NeverOverwrites(policy, ops) {
      forall i | 0 <= i < n
        ensures !Overwrites(policy, Run(policy, ops[..n][..i]), ops[..n][i])
      {
        assert !Overwrites(policy, Run(policy, ops[..i]), ops[i]);
      }
    } else {
      var i :| 0 <= i < |ops| && Overwrites(policy, Run(policy, ops[..i]), ops[i]);
      assert i < n ==> Overwrites(policy, Run(policy, ops[..n][..i]), ops[..n][i]);
    }
  }

  ghost predicate SomethingLeaked(l: Ledger) {
    exists b :: Leak(l, b) > 0.0
  }

  lemma {:induction false} OverwritingRunLeaks(policy: Policy, ops: seq<Op>)
    requires !NeverOverwrites(policy, ops)
    ensures SomethingLeaked(Run(policy, ops))
  {
    hide Overwrites, Step, Leak, Inv;
    if ops != [] {
      var n := |ops| - 1;
      var l := Run(policy, ops[..n]);
      NeverOverwritesBefore(policy, ops);
      EveryRunIsSafe(policy, ops[..n]);
      assert Run(policy, ops) == Step(policy, l, ops[n]);
      hide NeverOverwrites, Run;
      if Overwrites(policy, l, ops[n]) {
        var b := OverwritingLeaks(policy, l, ops[n]);
      } else {
        OverwritingRunLeaks(policy, ops[..n]);
        var b :| Leak(l, b) > 0.0;
        LeakNeverShrinks(policy, l, ops[n], b);
      }
    }
  }

  lemma {:induction false} TotalsAreConserved(policy: Policy, ops: seq<Op>)
    requires NeverOverwrites(policy, ops)
    ensures Exact(Run(policy, ops))
  {
    if ops != [] {
      var n := |ops| - 1;
      NeverOverwritesBefore(policy, ops);
      TotalsAreConserved(policy, ops[..n]);
      EveryRunIsSafe(policy, ops[..n]);
      StepKeepsInv(policy, Run(policy, ops[..n]), ops[n]);
    }
  }

  /** Conservation over runs: after a run the reserved totals equal the sums over active
      reservations if and only if no reservation of the run was made under the id of one that
      was active at that moment. */
  lemma TotalsAreConservedWhen(policy: Policy, ops: seq<Op>)
    ensures Exact(Run(policy, ops)) <==> NeverOverwrites(policy, ops)
  {
    hide NeverOverwrites, Run;
    if NeverOverwrites(policy, ops) {
      TotalsAreConserved(policy, ops);
    } else {
      OverwritingRunLeaks(policy, ops);
      var b :| Leak(Run(policy, ops), b) > 0.0;
    }
  }

  // ---- Replays ----

  /** The index leads from the key of an accepted input to some row under the id of that input. */
  ghost predicate Knows(l: Ledger, q: Request) {
    && q.key in l.idempotency && l.idempotency[q.key] == KeyRecord(q.id, FingerprintOf(q))
    && Has(l.reservations, q.id)
  }

  ghost function RowOf(l: Ledger, q: Request): Request
    requires Knows(l, q)
  {
    l.reservations[Find(l.reservations, q.id)].value.input
  }

  /** The index and the inputs of the rows are the same. */
  ghost predicate SameRow(l: Ledger, l': Ledger, q: Request) {
    Knows(l, q) && Knows(l', q) && RowOf(l', q) == RowOf(l, q)
  }

  lemma EndKeepsRow(l: Ledger, i: nat, status: Status, actual: Option<real>, q: Request)
    requires i < |l.reservations| && Knows(l, q)
    ensures SameRow(l, EndedAt(l, i, status, actual), q)
  {
    FindAfterUpdate(l.reservations, i, Stored(l.reservations[i].value.input, status, actual), q.id);
  }

  lemma {:induction false} ReapKeepsRow(l: Ledger, now: int, i: nat, q: Request)
    requires Knows(l, q)
    ensures SameRow(l, ReapedFrom(l, now, i), q)
    decreases |l.reservations| - i
  {
    if i < |l.reservations| {
      if Expiring(l.reservations[i].value, now) {
        EndKeepsRow(l, i, Expired, None, q);
        ReapKeepsRow(EndedAt(l, i, Expired, None), now, i + 1, q);
      } else {
        ReapKeepsRow(l, now, i + 1, q);
      }
    }
  }

  lemma AcceptedRow(l: Ledger, q: Request, other: Request)
    requires Knows(l, q) && q.key != other.key
    ensures Knows(Accepted(l, other), q)
    ensures RowOf(Accepted(l, other), q) == if other.id == q.id then other else RowOf(l, q)
  {
    FindAfterPut(l.reservations, other.id, Stored(other, Active, None), q.id);
  }

  /** Only a reservation under the same id replaces the row, and it has another key. */
  lemma StepOnRow(policy: Policy, l: Ledger, op: Op, q: Request)
    requires Knows(l, q)
    ensures Knows(Step(policy, l, op), q)
    ensures Accepts(policy, l, op) ==> op.q.key != q.key
    ensures RowOf(Step(policy, l, op), q) == if Accepts(policy, l, op) && op.q.id == q.id then op.q else RowOf(l, q)
  {
    match op
    case Reserve(other, now) =>
      ReapKeepsRow(l, now, 0, q);
      if Accepts(policy, l, op) {
        AcceptedRow(ReapedFrom(l, now, 0), q, other);
      }
    case Settle(id, actual) =>
      if 0.0 <= actual && Lookup(l, id).Ok? {
        EndKeepsRow(l, Find(l.reservations, id), Settled, Some(actual), q);
      }
    case Release(id) =>
      if Lookup(l, id).Ok? {
        EndKeepsRow(l, Find(l.reservations, id), Released, None, q);
      }
    case Reap(now) =>
      ReapKeepsRow(l, now, 0, q);
  }

  lemma AcceptKnows(policy: Policy, l: Ledger, op: Op)
    requires Accepts(policy, l, op)
    ensures Knows(Step(policy, l, op), op.q) && RowOf(Step(policy, l, op), op.q) == op.q
  {
    FindAfterPut(ReapedFrom(l, op.now, 0).reservations, op.q.id, Stored(op.q, Active, None), op.q.id);
  }

  ghost predicate AcceptsAt(policy: Policy, ops: seq<Op>, i: nat)
    requires i < |ops|
  {
    Accepts(policy, Run(policy, ops[..i]), ops[i])
  }

  /** No reserve after the n-th makes a reservation under the id of the n-th. */
  ghost predicate IdIsNotReused(policy: Policy, ops: seq<Op>, n: nat)
    requires n < |ops| && ops[n].Reserve?
  {
    forall i :: n < i < |ops| && ops[i].Reserve? && AcceptsAt(policy, ops, i) ==> ops[i].q.id != ops[n].q.id
  }

  /** Whether the id is used again, read off the last operation. */
  lemma ReuseByLast(policy: Policy, ops: seq<Op>, n: nat)
    requires n < |ops| - 1 && ops[n].Reserve?
    ensures var m := |ops| - 1;
            && AcceptsAt(policy, ops[..m], n) == AcceptsAt(policy, ops, n)
            && (IdIsNotReused(policy, ops, n) <==>
                IdIsNotReused(policy, ops[..m], n)
                && (Accepts(policy, Run(policy, ops[..m]), ops[m]) ==> ops[m].q.id != ops[n].q.id))
  {
    var m := |ops| - 1;
    forall i | 0 <= i < m
      ensures AcceptsAt(policy, ops[..m], i) == AcceptsAt(policy, ops, i)
    {
      assert ops[..m][..i] == ops[..i];
    }
    assert AcceptsAt(policy, ops, m) == Accepts(policy, Run(policy, ops[..m]), ops[m]);
    hide Run, Step;
  }

  /** The row under the id of an accepted reservation is its own until the id is used again,
      and from then on that of another key. */
  lemma {:induction false} RunOnRow(policy: Policy, ops: seq<Op>, n: nat)
    requires n < |ops| && ops[n].Reserve? && AcceptsAt(policy, ops, n)
    ensures Knows(Run(policy, ops), ops[n].q)
    ensures var row := RowOf(Run(policy, ops), ops[n].q);
            if IdIsNotReused(policy, ops, n) then row == ops[n].q else row.key != ops[n].q.key
  {
    var m := |ops| - 1;
    var before := Run(policy, ops[..m]);
    if n == m {
      AcceptKnows(policy, before, ops[n]);
    } else {
      ReuseByLast(policy, ops, n);
      hide Step, Accepts, Knows, RowOf, AcceptsAt, IdIsNotReused;
      RunOnRow(policy, ops[..m], n);
      StepOnRow(policy, before, ops[m], ops[n].q);
    }
  }

  /** A key that was charged once is never charged again: using it only reaps. With another
      resource, period, amount or task it is refused. With the same ones the answer is the reservation made first if
      and only if no reservation was made under its id since then, which the row map would
      overwrite. */
  lemma ReplayReturnsTheFirstWhen(policy: Policy, ops: seq<Op>, n: nat, again: Request, now: int)
    requires n < |ops| && ops[n].Reserve? && AcceptsAt(policy, ops, n)
    requires again.key == ops[n].q.key && ValidInput(again)
    ensures var (after, result) := ReserveStep(policy, Run(policy, ops), again, now);
            && after == ReapedFrom(Run(policy, ops), now, 0)
            && var first := ops[n].q;
               if (again.resource, again.period, again.amount, again.taskId)
                  == (first.resource, first.period, first.amount, first.taskId)
               then result.Ok? && (result.value == first <==> IdIsNotReused(policy, ops, n))
               else result == Err(KeyReused)
  {
    RunOnRow(policy, ops, n);
    ReapKeepsRow(Run(policy, ops), now, 0, ops[n].q);
    hide Run, IdIsNotReused, ReapedFrom;
  }

  /** A run in which a replay answers with the reservation of another key. */
  lemma ReplayReturnsAnother(q: Request, other: Request, now: int)
    requires ValidInput(q) && ValidInput(other) && q.id == other.id && q.key != other.key
    requires q.resource != WorkersAiNeuron && other.resource != WorkersAiNeuron
    ensures var l := Run(Unlimited, [Reserve(q, now), Reserve(other, now)]);
            ReserveStep(Unlimited, l, q, now).1 == Ok(other)
  {
    var ops := [Reserve(q, now), Reserve(other, now)];
    var l1 := Accepted(EMPTY, q);
    assert ops[..1][..0] == [] && ops[..1] == [ops[0]];
    assert ReapedFrom(EMPTY, now, 0) == EMPTY;
    assert Accepts(Unlimited, EMPTY, ops[0]);
    assert Run(Unlimited, ops[..1]) == Step(Unlimited, EMPTY, ops[0]) == l1;
    AcceptKnows(Unlimited, EMPTY, ops[0]);
    StepOnRow(Unlimited, l1, ops[1], q);
    ReapKeepsKeys(l1, now, 0);
    assert Accepts(Unlimited, l1, ops[1]);
    ReapKeepsRow(Run(Unlimited, ops), now, 0, q);
    hide ReapedFrom, ValidInput, Put, Find;
  }

  lemma {:induction false} ReapKeepsKeys(l: Ledger, now: int, i: nat)
    ensures ReapedFrom(l, now, i).idempotency == l.idempotency
    decreases |l.reservations| - i
  {
    if i < |l.reservations| {
      ReapKeepsKeys(if Expiring(l.reservations[i].value, now) then EndedAt(l, i, Expired, None) else l, now, i + 1);
    }
  }

  lemma {:induction false} ReapingIsComplete(l: Ledger, now: int, i: nat)
    ensures var rows := ReapedFrom(l, now, i).reservations;
            && |rows| == |l.reservations|
            && (forall k :: i <= k < |rows| ==> !Expiring(rows[k].value, now))
            && (forall k :: 0 <= k < |rows| ==>
                  rows[k] == if i <= k && Expiring(l.reservations[k].value, now)
                             then Entry(l.reservations[k].key, Stored(l.reservations[k].value.input, Expired, None))
                             else l.reservations[k])
    decreases |l.reservations| - i
  {
    if i < |l.reservations| {
      ReapingIsComplete(if Expiring(l.reservations[i].value, now) then EndedAt(l, i, Expired, None) else l, now, i + 1);
    }
  }
}
