/** Safety of the AI spend ledger over every run: the free allocation is never exceeded, the
    true bill is never undercounted, and the monthly cap holds up to settle overruns. */
module AiSpendSafety {
  import opened Common
  import opened OrderedMap
  import opened AiSpendLedger

  // ---- What the totals are made of ----

  ghost function ActiveNeurons(day: string): Entry<Reservation> -> real {
    (e: Entry<Reservation>) => if e.value.status == Active && e.value.day == day then e.value.neurons else 0.0
  }

  ghost function ActiveFree(day: string): Entry<Reservation> -> real {
    (e: Entry<Reservation>) => if e.value.status == Active && e.value.day == day then e.value.freeNeurons else 0.0
  }

  ghost function ActiveOverage(month: string): Entry<Reservation> -> real {
    (e: Entry<Reservation>) => if e.value.status == Active && e.value.month == month then e.value.overageMicros else 0.0
  }

  ghost function ActualOn(day: string): Settlement -> real {
    (s: Settlement) => if s.day == day then s.actual else 0.0
  }

  /** Settled neurons that were covered by the free share of their reservation. */
  ghost function CoveredOn(day: string): Settlement -> real {
    (s: Settlement) => if s.day == day then MinReal(s.actual, s.freeNeurons) else 0.0
  }

  function Paid(s: Settlement): real {
    MaxReal(0.0, s.actual - s.freeNeurons)
  }

  ghost function PaidOn(day: string): Settlement -> real {
    (s: Settlement) => if s.day == day then Paid(s) else 0.0
  }

  ghost function PaidIn(month: string): Settlement -> real {
    (s: Settlement) => if s.month == month then Paid(s) else 0.0
  }

  ghost function OverrunIn(month: string): Settlement -> real {
    (s: Settlement) => if s.month == month then MaxReal(0.0, s.actual - s.neurons) else 0.0
  }

  ghost function UsedNeurons(l: Ledger, day: string): real {
    Sum(l.settled, ActualOn(day))
  }

  /** Free neurons of the day that are spoken for. */
  ghost function FreeHeld(l: Ledger, day: string): real {
    Sum(l.reservations, ActiveFree(day)) + Sum(l.settled, CoveredOn(day))
  }

  /** What the provider bills for a day, in neurons above the free allocation. */
  ghost function BilledNeurons(l: Ledger, day: string): real {
    MaxReal(0.0, UsedNeurons(l, day) - 10000.0)
  }

  // ---- The invariant ----

  ghost predicate GoodRow(r: Reservation) {
    && 0.0 < r.neurons && 0.0 <= r.freeNeurons <= r.neurons
    && r.overageMicros == (r.neurons - r.freeNeurons) * MICROS_PER_NEURON
  }

  ghost predicate GoodSettlement(s: Settlement) {
    0.0 <= s.actual && 0.0 <= s.freeNeurons <= s.neurons
  }

  ghost predicate DayInv(l: Ledger, day: string) {
    && Sum(l.reservations, ActiveNeurons(day)) <= DayOf(l, day).reserved
    && DayOf(l, day).used == UsedNeurons(l, day)
    && FreeHeld(l, day) <= FREE_NEURONS_PER_DAY
  }

  ghost predicate MonthInv(cap: Option<real>, l: Ledger, month: string) {
    && Sum(l.reservations, ActiveOverage(month)) <= MonthOf(l, month).reservedMicros
    && MonthOf(l, month).usedMicros == MICROS_PER_NEURON * Sum(l.settled, PaidIn(month))
    && (cap.Some? && month in l.monthly ==>
          MonthOf(l, month).usedMicros + MonthOf(l, month).reservedMicros
            <= cap.value + MICROS_PER_NEURON * Sum(l.settled, OverrunIn(month)))
  }

  ghost predicate Inv(cap: Option<real>, l: Ledger) {
    && WellFormed(l)
    && (forall i :: 0 <= i < |l.reservations| ==> GoodRow(l.reservations[i].value))
    && (forall i :: 0 <= i < |l.settled| ==> GoodSettlement(l.settled[i]))
    && (forall day :: DayInv(l, day))
    && (forall month :: MonthInv(cap, l, month))
  }

  /** Reserved totals are exactly what active rows hold. */
  ghost predicate DayExact(l: Ledger, day: string) {
    DayOf(l, day).reserved == Sum(l.reservations, ActiveNeurons(day))
  }

  ghost predicate MonthExact(l: Ledger, month: string) {
    MonthOf(l, month).reservedMicros == Sum(l.reservations, ActiveOverage(month))
  }

  ghost predicate Exact(l: Ledger) {
    (forall day :: DayExact(l, day)) && (forall month :: MonthExact(l, month))
  }

  // ---- Ending a reservation ----

  lemma EndRowSums(l: Ledger, i: nat, status: Status, day: string, month: string)
    requires i < |l.reservations| && l.reservations[i].value.status == Active && status != Active
    ensures var r := l.reservations[i].value;
            var rows := l.reservations[i := Entry(l.reservations[i].key, r.(status := status))];
            && Sum(rows, ActiveNeurons(day)) ==
               Sum(l.reservations, ActiveNeurons(day)) - (if r.day == day then r.neurons else 0.0)
            && Sum(rows, ActiveFree(day)) ==
               Sum(l.reservations, ActiveFree(day)) - (if r.day == day then r.freeNeurons else 0.0)
            && Sum(rows, ActiveOverage(month)) ==
               Sum(l.reservations, ActiveOverage(month)) - (if r.month == month then r.overageMicros else 0.0)
  {
    var r' := Entry(l.reservations[i].key, l.reservations[i].value.(status := status));
    SumUpdate(l.reservations, i, r', ActiveNeurons(day));
    SumUpdate(l.reservations, i, r', ActiveFree(day));
    SumUpdate(l.reservations, i, r', ActiveOverage(month));
  }

  /** The clamps of the source never bite: a rollup holds at least what each active row holds. */
  lemma ClampsNeverBite(cap: Option<real>, l: Ledger, i: nat)
    requires Inv(cap, l) && i < |l.reservations| && l.reservations[i].value.status == Active
    ensures l.reservations[i].value.neurons <= DayOf(l, l.reservations[i].value.day).reserved
    ensures l.reservations[i].value.overageMicros <= MonthOf(l, l.reservations[i].value.month).reservedMicros
  {
    var r := l.reservations[i].value;
    SumAtLeastTerm(l.reservations, i, ActiveNeurons(r.day));
    SumAtLeastTerm(l.reservations, i, ActiveOverage(r.month));
    assert DayInv(l, r.day) && MonthInv(cap, l, r.month);
  }

  lemma ReleaseKeepsInv(cap: Option<real>, l: Ledger, i: nat, status: Status)
    requires Inv(cap, l) && i < |l.reservations|
    requires l.reservations[i].value.status == Active && status != Active
    ensures Inv(cap, ReleasedAt(l, i, status))
    ensures Exact(l) ==> Exact(ReleasedAt(l, i, status))
  {
    var l' := ReleasedAt(l, i, status);
    ReleasedKeepsWellFormed(l, i, status);
    ClampsNeverBite(cap, l, i);
    forall day
      ensures DayInv(l', day) && (DayExact(l, day) ==> DayExact(l', day))
    {
      EndRowSums(l, i, status, day, "");
      assert DayInv(l, day);
    }
    forall month
      ensures MonthInv(cap, l', month) && (MonthExact(l, month) ==> MonthExact(l', month))
    {
      EndRowSums(l, i, status, "", month);
      assert MonthInv(cap, l, month);
    }
  }

  lemma SettleKeepsDay(cap: Option<real>, l: Ledger, i: nat, actual: real, day: string)
    requires Inv(cap, l) && i < |l.reservations|
    requires l.reservations[i].value.status == Active && 0.0 <= actual
    ensures DayInv(SettledAt(l, i, actual), day)
    ensures DayExact(l, day) ==> DayExact(SettledAt(l, i, actual), day)
  {
    var r := l.reservations[i].value;
    var s := Settlement(r.day, r.month, r.neurons, r.freeNeurons, actual);
    ClampsNeverBite(cap, l, i);
    EndRowSums(l, i, Settled, day, "");
    assert DayInv(l, day);
    hide Inv, WellFormed, MonthOf;
    SumAppend(l.settled, s, ActualOn(day));
    SumAppend(l.settled, s, CoveredOn(day));
  }

  lemma SettleKeepsMonth(cap: Option<real>, l: Ledger, i: nat, actual: real, month: string)
    requires Inv(cap, l) && i < |l.reservations|
    requires l.reservations[i].value.status == Active && 0.0 <= actual
    ensures MonthInv(cap, SettledAt(l, i, actual), month)
    ensures MonthExact(l, month) ==> MonthExact(SettledAt(l, i, actual), month)
  {
    var r := l.reservations[i].value;
    var s := Settlement(r.day, r.month, r.neurons, r.freeNeurons, actual);
    assert r.month in l.monthly && GoodRow(r);
    ClampsNeverBite(cap, l, i);
    EndRowSums(l, i, Settled, "", month);
    assert MonthInv(cap, l, month);
    hide Inv, WellFormed, DayOf;
    SumAppend(l.settled, s, PaidIn(month));
    SumAppend(l.settled, s, OverrunIn(month));
  }

  lemma SettleKeepsInv(cap: Option<real>, l: Ledger, i: nat, actual: real)
    requires Inv(cap, l) && i < |l.reservations|
    requires l.reservations[i].value.status == Active && 0.0 <= actual
    ensures Inv(cap, SettledAt(l, i, actual))
    ensures Exact(l) ==> Exact(SettledAt(l, i, actual))
  {
    hide DayInv, MonthInv, DayExact, MonthExact;
    SettledKeepsWellFormed(l, i, actual);
    forall day
      ensures DayInv(SettledAt(l, i, actual), day)
      ensures DayExact(l, day) ==> DayExact(SettledAt(l, i, actual), day)
    {
      SettleKeepsDay(cap, l, i, actual, day);
    }
    forall month
      ensures MonthInv(cap, SettledAt(l, i, actual), month)
      ensures MonthExact(l, month) ==> MonthExact(SettledAt(l, i, actual), month)
    {
      SettleKeepsMonth(cap, l, i, actual, month);
    }
  }

  // ---- Making a reservation ----

  /** What an existing row of the same id contributed, which Put drops. */
  ghost function Dropped(l: Ledger, id: string, f: Entry<Reservation> -> real): real {
    var i := Find(l.reservations, id);
    if i < |l.reservations| then f(l.reservations[i]) else 0.0
  }

  lemma PutSum(l: Ledger, id: string, r: Reservation, f: Entry<Reservation> -> real)
    ensures Sum(Put(l.reservations, id, r), f) == Sum(l.reservations, f) - Dropped(l, id, f) + f(Entry(id, r))
  {
    var i := Find(l.reservations, id);
    if i < |l.reservations| {
      SumUpdate(l.reservations, i, Entry(id, r), f);
    } else {
      SumAppend(l.reservations, Entry(id, r), f);
    }
  }

  /** Held free neurons are among the neurons used or reserved. */
  lemma FreeHeldIsUsedOrReserved(cap: Option<real>, l: Ledger, day: string)
    requires Inv(cap, l)
    ensures FreeHeld(l, day) <= DayOf(l, day).used + DayOf(l, day).reserved
  {
    SumMono(l.reservations, ActiveFree(day), ActiveNeurons(day));
    SumMono(l.settled, CoveredOn(day), ActualOn(day));
    assert DayInv(l, day);
  }

  lemma FreeShareFits(cap: Option<real>, l: Ledger, q: Request)
    requires Inv(cap, l) && 0.0 < q.neurons
    ensures 0.0 <= FreeShare(l, q) <= q.neurons
    ensures FreeHeld(l, q.day) + FreeShare(l, q) <= FREE_NEURONS_PER_DAY
  {
    FreeHeldIsUsedOrReserved(cap, l, q.day);
    assert DayInv(l, q.day);
  }

  lemma AcceptKeepsDay(cap: Option<real>, l: Ledger, q: Request, day: string)
    requires Inv(cap, l) && 0.0 < q.neurons
    ensures DayInv(Accepted(l, q), day)
  {
    FreeShareFits(cap, l, q);
    assert DayInv(l, day);
    var r := NewRow(l, q);
    AcceptedRowFitsDay(l, q, r, day);
  }

  lemma AcceptedRowFitsDay(l: Ledger, q: Request, r: Reservation, day: string)
    requires r == NewRow(l, q) && 0.0 < q.neurons && 0.0 <= r.freeNeurons
    requires forall i :: 0 <= i < |l.reservations| ==> GoodRow(l.reservations[i].value)
    requires DayInv(l, day)
    requires q.day == day ==> FreeHeld(l, day) + r.freeNeurons <= FREE_NEURONS_PER_DAY
    ensures DayInv(Accepted(l, q), day)
  {
    hide FreeShare;
    PutSum(l, q.id, r, ActiveNeurons(day));
    PutSum(l, q.id, r, ActiveFree(day));
  }

  lemma AcceptKeepsMonth(cap: Option<real>, l: Ledger, q: Request, month: string)
    requires Inv(cap, l) && 0.0 < q.neurons && !OverLimit(cap, l, q)
    ensures MonthInv(cap, Accepted(l, q), month)
  {
    FreeShareFits(cap, l, q);
    assert MonthInv(cap, l, month);
    OverageDroppedIsNotNegative(l, q.id, month);
    hide Inv;
    AcceptedRowFitsMonth(cap, l, q, NewRow(l, q), month);
  }

  lemma OverageDroppedIsNotNegative(l: Ledger, id: string, month: string)
    requires forall i :: 0 <= i < |l.reservations| ==> GoodRow(l.reservations[i].value)
    ensures 0.0 <= Dropped(l, id, ActiveOverage(month))
  {}

  lemma AcceptedRowFitsMonth(cap: Option<real>, l: Ledger, q: Request, r: Reservation, month: string)
    requires r == NewRow(l, q) && 0.0 <= r.overageMicros && !OverLimit(cap, l, q)
    requires MonthInv(cap, l, month) && 0.0 <= Dropped(l, q.id, ActiveOverage(month))
    ensures MonthInv(cap, Accepted(l, q), month)
  {
    hide FreeShare, Put, Sum, Dropped;
    PutSum(l, q.id, r, ActiveOverage(month));
    SumNonNegative(l.settled, OverrunIn(month));
  }

  lemma NewRowIsGood(cap: Option<real>, l: Ledger, q: Request)
    requires Inv(cap, l) && 0.0 < q.neurons
    ensures GoodRow(NewRow(l, q))
  {
    FreeShareFits(cap, l, q);
  }

  lemma AcceptKeepsInv(cap: Option<real>, l: Ledger, q: Request)
    requires Inv(cap, l) && 0.0 < q.neurons && !OverLimit(cap, l, q)
    ensures Inv(cap, Accepted(l, q))
  {
    var l' := Accepted(l, q);
    AcceptedKeepsWellFormed(l, q);
    NewRowIsGood(cap, l, q);
    forall i | 0 <= i < |l'.reservations|
      ensures GoodRow(l'.reservations[i].value)
    {
      assert l'.reservations[i] == Entry(q.id, NewRow(l, q)) || l'.reservations[i] in l.reservations;
    }
    forall day
      ensures DayInv(l', day)
    {
      AcceptKeepsDay(cap, l, q, day);
    }
    forall month
      ensures MonthInv(cap, l', month)
    {
      AcceptKeepsMonth(cap, l, q, month);
    }
  }

  predicate OverwritesActive(l: Ledger, id: string) {
    var i := Find(l.reservations, id);
    i < |l.reservations| && l.reservations[i].value.status == Active
  }

  lemma AcceptMovesTotals(l: Ledger, q: Request, day: string, month: string)
    requires DayExact(l, day) && MonthExact(l, month)
    ensures DayOf(Accepted(l, q), day).reserved
              == Sum(Accepted(l, q).reservations, ActiveNeurons(day)) + Dropped(l, q.id, ActiveNeurons(day))
    ensures MonthOf(Accepted(l, q), month).reservedMicros
              == Sum(Accepted(l, q).reservations, ActiveOverage(month)) + Dropped(l, q.id, ActiveOverage(month))
  {
    hide FreeShare, Put, Sum;
    PutSum(l, q.id, NewRow(l, q), ActiveNeurons(day));
    PutSum(l, q.id, NewRow(l, q), ActiveOverage(month));
  }

  /** Reserving keeps the totals exact if and only if its id is not the id of an active
      reservation: the row map is overwritten silently, and the reserved amount then leaks. */
  lemma AcceptIsExactUnlessItOverwrites(cap: Option<real>, l: Ledger, q: Request)
    requires Inv(cap, l) && Exact(l) && 0.0 < q.neurons
    ensures Exact(Accepted(l, q)) <==> !OverwritesActive(l, q.id)
  {
    if OverwritesActive(l, q.id) {
      var dropped := l.reservations[Find(l.reservations, q.id)].value;
      AcceptMovesTotals(l, q, dropped.day, dropped.month);
      assert !DayExact(Accepted(l, q), dropped.day);
    } else {
      forall day
        ensures DayExact(Accepted(l, q), day)
      {
        AcceptMovesTotals(l, q, day, q.month);
      }
      forall month
        ensures MonthExact(Accepted(l, q), month)
      {
        AcceptMovesTotals(l, q, q.day, month);
      }
    }
  }

  lemma {:induction false} ReapKeepsInv(cap: Option<real>, l: Ledger, now: int, i: nat)
    requires Inv(cap, l)
    ensures Inv(cap, ReapedFrom(l, now, i))
    ensures Exact(l) ==> Exact(ReapedFrom(l, now, i))
    decreases |l.reservations| - i
  {
    if i < |l.reservations| {
      if Expiring(l.reservations[i].value, now) {
        ReleaseKeepsInv(cap, l, i, Expired);
        ReapKeepsInv(cap, ReleasedAt(l, i, Expired), now, i + 1);
      } else {
        ReapKeepsInv(cap, l, now, i + 1);
      }
    }
  }

  // ---- Runs ----

  datatype Op =
    | Reserve(q: Request, now: int)
    | Settle(id: string, actual: real)
    | Release(id: string)
    | Reap(now: int)

  function Step(cap: Option<real>, l: Ledger, op: Op): Ledger {
    match op
    case Reserve(q, now) => ReserveStep(cap, l, q, now).0
    case Settle(id, actual) => SettleStep(l, id, actual).0
    case Release(id) => ReleaseStep(l, id).0
    case Reap(now) => ReapedFrom(l, now, 0)
  }

  function Run(cap: Option<real>, ops: seq<Op>): Ledger {
    if ops == [] then EMPTY else Step(cap, Run(cap, ops[..|ops| - 1]), ops[|ops| - 1])
  }

  lemma StepKeepsInv(cap: Option<real>, l: Ledger, op: Op)
    requires Inv(cap, l)
    ensures Inv(cap, Step(cap, l, op))
  {
    hide Inv, Exact, Accepted, SettledAt, ReleasedAt, OverLimit;
    match op
    case Reserve(q, now) =>
      ReapKeepsInv(cap, l, now, 0);
      var l1 := ReapedFrom(l, now, 0);
      if KnownId(l1, q.key).None? && 0.0 < q.neurons && !OverLimit(cap, l1, q) {
        AcceptKeepsInv(cap, l1, q);
      }
    case Settle(id, actual) =>
      var i := Find(l.reservations, id);
      if 0.0 <= actual && i < |l.reservations| && l.reservations[i].value.status == Active {
        SettleKeepsInv(cap, l, i, actual);
      }
    case Release(id) =>
      var i := Find(l.reservations, id);
      if i < |l.reservations| && l.reservations[i].value.status == Active {
        ReleaseKeepsInv(cap, l, i, Released);
      }
    case Reap(now) =>
      ReapKeepsInv(cap, l, now, 0);
  }

  lemma {:induction false} EveryRunIsSafe(cap: Option<real>, ops: seq<Op>)
    ensures Inv(cap, Run(cap, ops))
  {
    if ops != [] {
      EveryRunIsSafe(cap, ops[..|ops| - 1]);
      StepKeepsInv(cap, Run(cap, ops[..|ops| - 1]), ops[|ops| - 1]);
    }
  }

  // ---- Main results ----

  /** In every reachable state, reused reservation ids included: at most the free allocation
      of a day is handed out, so what the ledger records as paid covers the day's bill. */
  lemma FreeAllocationIsNeverExceeded(cap: Option<real>, ops: seq<Op>, day: string)
    ensures FreeHeld(Run(cap, ops), day) <= 10000.0
    ensures Sum(Run(cap, ops).settled, CoveredOn(day)) <= 10000.0
    ensures Sum(Run(cap, ops).settled, PaidOn(day)) >= BilledNeurons(Run(cap, ops), day)
  {
    EveryRunIsSafe(cap, ops);
    var l := Run(cap, ops);
    assert DayInv(l, day);
    PaidAndCovered(l, day);
    SumNonNegative(l.reservations, ActiveFree(day));
    SumNonNegative(l.settled, PaidOn(day));
  }

  lemma PaidAndCovered(l: Ledger, day: string)
    ensures UsedNeurons(l, day) == Sum(l.settled, PaidOn(day)) + Sum(l.settled, CoveredOn(day))
  {
    SumAdd(l.settled, PaidOn(day), CoveredOn(day), ActualOn(day));
  }

  /** The day's record equals its bill if and only if settled reservations used up the whole
      free allocation or none of them was charged; otherwise it is an overcount. */
  lemma RecordIsExactWhen(cap: Option<real>, ops: seq<Op>, day: string)
    ensures var l := Run(cap, ops);
            Sum(l.settled, PaidOn(day)) == BilledNeurons(l, day) <==>
            Sum(l.settled, CoveredOn(day)) == 10000.0 || Sum(l.settled, PaidOn(day)) == 0.0
  {
    var l := Run(cap, ops);
    FreeAllocationIsNeverExceeded(cap, ops, day);
    PaidAndCovered(l, day);
  }

  ghost function BillOfDays(l: Ledger, days: seq<string>): real {
    if days == [] then 0.0 else BillOfDays(l, days[1..]) + 11.0 * BilledNeurons(l, days[0])
  }

  ghost predicate Distinct(days: seq<string>) {
    forall i, j :: 0 <= i < j < |days| ==> days[i] != days[j]
  }

  ghost predicate DaysBelongTo(l: Ledger, days: seq<string>, month: string) {
    forall i :: 0 <= i < |l.settled| && l.settled[i].day in days ==> l.settled[i].month == month
  }

  ghost function PaidOnDays(days: seq<string>): Settlement -> real {
    (s: Settlement) => if s.day in days then Paid(s) else 0.0
  }

  lemma {:induction false} PaidByDays(cap: Option<real>, ops: seq<Op>, days: seq<string>)
    requires Distinct(days)
    ensures BillOfDays(Run(cap, ops), days) <= MICROS_PER_NEURON * Sum(Run(cap, ops).settled, PaidOnDays(days))
  {
    var l := Run(cap, ops);
    if days == [] {
      SumNonNegative(l.settled, PaidOnDays([]));
    } else {
      PaidByDays(cap, ops, days[1..]);
      FreeAllocationIsNeverExceeded(cap, ops, days[0]);
      SumAdd(l.settled, PaidOn(days[0]), PaidOnDays(days[1..]), PaidOnDays(days));
    }
  }

  /** The ledger never undercounts: `usedMicros` of a month is at least the true bill summed
      over any distinct days whose settlements were filed under that month. */
  lemma MonthIsNeverUndercounted(cap: Option<real>, ops: seq<Op>, days: seq<string>, month: string)
    requires Distinct(days) && DaysBelongTo(Run(cap, ops), days, month)
    ensures BillOfDays(Run(cap, ops), days) <= MonthOf(Run(cap, ops), month).usedMicros
  {
    var l := Run(cap, ops);
    EveryRunIsSafe(cap, ops);
    assert MonthInv(cap, l, month);
    PaidByDays(cap, ops, days);
    SumMono(l.settled, PaidOnDays(days), PaidIn(month));
  }

  /** Recorded and reserved spend stays within the cap plus what settlements overran. */
  lemma CapHoldsUpToOverrun(cap: real, ops: seq<Op>, month: string)
    requires 0.0 <= cap || month in Run(Some(cap), ops).monthly
    ensures var l := Run(Some(cap), ops);
            MonthOf(l, month).usedMicros + MonthOf(l, month).reservedMicros
              <= cap + 11.0 * Sum(l.settled, OverrunIn(month))
  {
    EveryRunIsSafe(Some(cap), ops);
    assert MonthInv(Some(cap), Run(Some(cap), ops), month);
    SumNonNegative(Run(Some(cap), ops).settled, OverrunIn(month));
  }

  /** When no settlement exceeds its reservation, the true bill of a month is within the cap. */
  lemma TrueBillIsWithinCap(cap: real, ops: seq<Op>, days: seq<string>, month: string)
    requires Distinct(days) && DaysBelongTo(Run(Some(cap), ops), days, month)
    requires forall s :: s in Run(Some(cap), ops).settled ==> s.actual <= s.neurons
    requires 0.0 <= cap || month in Run(Some(cap), ops).monthly
    ensures BillOfDays(Run(Some(cap), ops), days) <= cap
  {
    var l := Run(Some(cap), ops);
    MonthIsNeverUndercounted(Some(cap), ops, days, month);
    CapHoldsUpToOverrun(cap, ops, month);
    EveryRunIsSafe(Some(cap), ops);
    assert MonthInv(Some(cap), l, month);
    SumNonNegative(l.reservations, ActiveOverage(month));
    NoOverrun(l.settled, month);
  }

  lemma {:induction false} NoOverrun(settled: seq<Settlement>, month: string)
    requires forall s :: s in settled ==> s.actual <= s.neurons
    ensures Sum(settled, OverrunIn(month)) == 0.0
  {
    if settled != [] {
      assert settled[|settled| - 1] in settled;
      NoOverrun(settled[..|settled| - 1], month);
    }
  }

  /** The operation makes a reservation. */
  predicate Accepts(cap: Option<real>, l: Ledger, op: Op) {
    && op.Reserve? && 0.0 < op.q.neurons
    && var l1 := ReapedFrom(l, op.now, 0);
       KnownId(l1, op.q.key).None? && !OverLimit(cap, l1, op.q)
  }

  /** The operation makes a reservation under the id of one that is active at that moment. */
  predicate Overwrites(cap: Option<real>, l: Ledger, op: Op) {
    Accepts(cap, l, op) && OverwritesActive(ReapedFrom(l, op.now, 0), op.q.id)
  }

  ghost predicate NeverOverwrites(cap: Option<real>, ops: seq<Op>) {
    forall i :: 0 <= i < |ops| ==> !Overwrites(cap, Run(cap, ops[..i]), ops[i])
  }

  lemma StepKeepsTotals(cap: Option<real>, l: Ledger, op: Op)
    requires Inv(cap, l) && Exact(l) && !Overwrites(cap, l, op)
    ensures Exact(Step(cap, l, op))
  {
    hide Inv, Exact, Accepted, SettledAt, ReleasedAt, OverLimit;
    match op
    case Reserve(q, now) =>
      ReapKeepsInv(cap, l, now, 0);
      var l1 := ReapedFrom(l, now, 0);
      if Accepts(cap, l, op) {
        AcceptIsExactUnlessItOverwrites(cap, l1, q);
      }
    case Settle(id, actual) =>
      var i := Find(l.reservations, id);
      if 0.0 <= actual && i < |l.reservations| && l.reservations[i].value.status == Active {
        SettleKeepsInv(cap, l, i, actual);
      }
    case Release(id) =>
      var i := Find(l.reservations, id);
      if i < |l.reservations| && l.reservations[i].value.status == Active {
        ReleaseKeepsInv(cap, l, i, Released);
      }
    case Reap(now) =>
      ReapKeepsInv(cap, l, now, 0);
  }

  /** What a day has reserved for no active row. */
  ghost function Leak(l: Ledger, day: string): real {
    DayOf(l, day).reserved - Sum(l.reservations, ActiveNeurons(day))
  }

  lemma EndKeepsLeak(cap: Option<real>, l: Ledger, i: nat, status: Status, actual: real, day: string)
    requires Inv(cap, l) && i < |l.reservations| && l.reservations[i].value.status == Active
    ensures status != Active ==> Leak(ReleasedAt(l, i, status), day) == Leak(l, day)
    ensures Leak(SettledAt(l, i, actual), day) == Leak(l, day)
  {
    ClampsNeverBite(cap, l, i);
    EndRowSums(l, i, Settled, day, "");
    if status != Active {
      EndRowSums(l, i, status, day, "");
    }
    hide Inv, WellFormed;
  }

  lemma {:induction false} ReapKeepsLeak(cap: Option<real>, l: Ledger, now: int, i: nat, day: string)
    requires Inv(cap, l)
    ensures Leak(ReapedFrom(l, now, i), day) == Leak(l, day)
    decreases |l.reservations| - i
  {
    hide Leak, Inv;
    if i < |l.reservations| {
      if Expiring(l.reservations[i].value, now) {
        EndKeepsLeak(cap, l, i, Expired, 0.0, day);
        ReleaseKeepsInv(cap, l, i, Expired);
        ReapKeepsLeak(cap, ReleasedAt(l, i, Expired), now, i + 1, day);
      } else {
        ReapKeepsLeak(cap, l, now, i + 1, day);
      }
    }
  }

  lemma AcceptLeaksWhatItOverwrites(l: Ledger, q: Request, day: string)
    ensures Leak(Accepted(l, q), day) == Leak(l, day) + Dropped(l, q.id, ActiveNeurons(day))
  {
    hide FreeShare, Put, Sum;
    PutSum(l, q.id, NewRow(l, q), ActiveNeurons(day));
  }

  /** What has leaked is never recovered. */
  lemma LeakNeverShrinks(cap: Option<real>, l: Ledger, op: Op, day: string)
    requires Inv(cap, l)
    ensures Leak(Step(cap, l, op), day) >= Leak(l, day)
  {
    hide Inv, Leak, Accepted, SettledAt, ReleasedAt, OverLimit;
    match op
    case Reserve(q, now) =>
      ReapKeepsLeak(cap, l, now, 0, day);
      ReapKeepsInv(cap, l, now, 0);
      if Accepts(cap, l, op) {
        AcceptLeaksWhatItOverwrites(ReapedFrom(l, now, 0), q, day);
        DroppedIsNotNegative(cap, ReapedFrom(l, now, 0), q.id, day);
      }
    case Settle(id, actual) =>
      var i := Find(l.reservations, id);
      if 0.0 <= actual && i < |l.reservations| && l.reservations[i].value.status == Active {
        EndKeepsLeak(cap, l, i, Settled, actual, day);
      }
    case Release(id) =>
      var i := Find(l.reservations, id);
      if i < |l.reservations| && l.reservations[i].value.status == Active {
        EndKeepsLeak(cap, l, i, Released, 0.0, day);
      }
    case Reap(now) =>
      ReapKeepsLeak(cap, l, now, 0, day);
  }

  lemma DroppedIsNotNegative(cap: Option<real>, l: Ledger, id: string, day: string)
    requires Inv(cap, l)
    ensures 0.0 <= Dropped(l, id, ActiveNeurons(day))
    ensures OverwritesActive(l, id) && l.reservations[Find(l.reservations, id)].value.day == day ==>
              0.0 < Dropped(l, id, ActiveNeurons(day))
  {}

  /** An overwritten reservation leaks all its neurons. */
  lemma OverwritingLeaks(cap: Option<real>, l: Ledger, op: Op) returns (day: string)
    requires Inv(cap, l) && Overwrites(cap, l, op)
    ensures Leak(Step(cap, l, op), day) > 0.0
  {
    var l1 := ReapedFrom(l, op.now, 0);
    ReapKeepsInv(cap, l, op.now, 0);
    day := l1.reservations[Find(l1.reservations, op.q.id)].value.day;
    assert DayInv(l1, day);
    AcceptLeaksWhatItOverwrites(l1, op.q, day);
    DroppedIsNotNegative(cap, l1, op.q.id, day);
    assert Leak(l1, day) >= 0.0;
    hide Inv, Leak, Dropped, OverwritesActive, Accepted, OverLimit;
  }

  lemma NeverOverwritesBefore(cap: Option<real>, ops: seq<Op>)
    requires ops != []
    ensures var n := |ops| - 1;
            NeverOverwrites(cap, ops) <==>
            NeverOverwrites(cap, ops[..n]) && !Overwrites(cap, Run(cap, ops[..n]), ops[n])
  {
    var n := |ops| - 1;
    hide Overwrites, Run;
    forall i | 0 <= i < n
      ensures ops[..n][i] == ops[i] && ops[..n][..i] == ops[..i]
    {}
    if NeverOverwrites(cap, ops) {
      forall i | 0 <= i < n
        ensures !Overwrites(cap, Run(cap, ops[..n][..i]), ops[..n][i])
      {
        assert !Overwrites(cap, Run(cap, ops[..i]), ops[i]);
      }
    } else {
      var i :| 0 <= i < |ops| && Overwrites(cap, Run(cap, ops[..i]), ops[i]);
      assert i < n ==> Overwrites(cap, Run(cap, ops[..n][..i]), ops[..n][i]);
    }
  }

  ghost predicate SomethingLeaked(l: Ledger) {
    exists day :: Leak(l, day) > 0.0
  }

  lemma {:induction false} OverwritingRunLeaks(cap: Option<real>, ops: seq<Op>)
    requires !NeverOverwrites(cap, ops)
    ensures SomethingLeaked(Run(cap, ops))
  {
    hide Overwrites, Step, Leak, Inv;
    if ops != [] {
      var n := |ops| - 1;
      var l := Run(cap, ops[..n]);
      NeverOverwritesBefore(cap, ops);
      EveryRunIsSafe(cap, ops[..n]);
      assert Run(cap, ops) == Step(cap, l, ops[n]);
      hide NeverOverwrites, Run;
      if Overwrites(cap, l, ops[n]) {
        var day := OverwritingLeaks(cap, l, ops[n]);
      } else {
        OverwritingRunLeaks(cap, ops[..n]);
        var day :| Leak(l, day) > 0.0;
        LeakNeverShrinks(cap, l, ops[n], day);
      }
    }
  }

  lemma {:induction false} TotalsAreConserved(cap: Option<real>, ops: seq<Op>)
    requires NeverOverwrites(cap, ops)
    ensures Exact(Run(cap, ops))
  {
    if ops != [] {
      var n := |ops| - 1;
      NeverOverwritesBefore(cap, ops);
      TotalsAreConserved(cap, ops[..n]);
      EveryRunIsSafe(cap, ops[..n]);
      StepKeepsTotals(cap, Run(cap, ops[..n]), ops[n]);
    }
  }

  /** Conservation over runs: after a run the reserved totals equal the sums over active
      reservations if and only if no reservation of the run was made under the id of one that
      was active at that moment. */
  lemma TotalsAreConservedWhen(cap: Option<real>, ops: seq<Op>)
    ensures Exact(Run(cap, ops)) <==> NeverOverwrites(cap, ops)
  {
    hide NeverOverwrites, Run;
    if NeverOverwrites(cap, ops) {
      TotalsAreConserved(cap, ops);
    } else {
      OverwritingRunLeaks(cap, ops);
      var day :| Leak(Run(cap, ops), day) > 0.0;
      assert !DayExact(Run(cap, ops), day);
    }
  }

  /** After reaping, no reservation that has expired is active, and no other row changed. */
  lemma {:induction false} ReapingIsComplete(l: Ledger, now: int, i: nat)
    ensures var rows := ReapedFrom(l, now, i).reservations;
            && |rows| == |l.reservations|
            && (forall k :: i <= k < |rows| ==> !Expiring(rows[k].value, now))
            && (forall k :: 0 <= k < |rows| ==>
                  rows[k] == if i <= k && Expiring(l.reservations[k].value, now)
                             then Entry(l.reservations[k].key, l.reservations[k].value.(status := Expired))
                             else l.reservations[k])
    decreases |l.reservations| - i
  {
    if i < |l.reservations| {
      ReapingIsComplete(if Expiring(l.reservations[i].value, now) then ReleasedAt(l, i, Expired) else l, now, i + 1);
    }
  }

  lemma {:induction false} ReapingKeepsKeys(l: Ledger, now: int, i: nat)
    ensures ReapedFrom(l, now, i).idempotency == l.idempotency
    decreases |l.reservations| - i
  {
    if i < |l.reservations| {
      ReapingKeepsKeys(if Expiring(l.reservations[i].value, now) then ReleasedAt(l, i, Expired) else l, now, i + 1);
    }
  }

  lemma StepKeepsKnownKeys(cap: Option<real>, l: Ledger, op: Op, key: string)
    requires KnownId(l, key).Some?
    ensures KnownId(Step(cap, l, op), key) == KnownId(l, key)
  {
    match op
    case Reserve(q, now) =>
      ReapingKeepsKeys(l, now, 0);
    case Reap(now) =>
      ReapingKeepsKeys(l, now, 0);
    case Settle(id, actual) =>
    case Release(id) =>
  }

  lemma RunIsWellFormed(cap: Option<real>, ops: seq<Op>)
    ensures WellFormed(Run(cap, ops))
  {
    EveryRunIsSafe(cap, ops);
  }

  lemma {:induction false} KnownKeysStayKnown(cap: Option<real>, ops: seq<Op>, n: nat, key: string)
    requires n <= |ops| && KnownId(Run(cap, ops[..n]), key).Some?
    ensures KnownId(Run(cap, ops), key) == KnownId(Run(cap, ops[..n]), key)
    decreases |ops|
  {
    hide KnownId, Step;
    if n == |ops| {
      assert ops[..n] == ops;
    } else {
      var m := |ops| - 1;
      assert ops[..m][..n] == ops[..n];
      KnownKeysStayKnown(cap, ops[..m], n, key);
      StepKeepsKnownKeys(cap, Run(cap, ops[..m]), ops[m], key);
    }
  }

  /** The answer to a key that is known by the row `id`: the row as it stands, if neurons and
      day agree. */
  function ReplayOf(l: Ledger, id: string, q: Request): Result<Reservation, Error>
    requires Has(l.reservations, id)
  {
    var row := l.reservations[Find(l.reservations, id)].value;
    if row.neurons == q.neurons && row.day == q.day then Ok(row) else Err(KeyReused)
  }

  lemma KnownKeyOnlyReaps(cap: Option<real>, l: Ledger, q: Request, now: int)
    requires WellFormed(l) && KnownId(l, q.key).Some?
    ensures var l' := ReapedFrom(l, now, 0);
            && Has(l'.reservations, KnownId(l, q.key).value)
            && ReserveStep(cap, l, q, now) == (l', ReplayOf(l', KnownId(l, q.key).value, q))
  {
    ReapedKeepsWellFormed(l, now, 0);
    ReapingKeepsKeys(l, now, 0);
  }

  /** A key that has been charged stays known by the same row, so it is charged once: a later
      reserve with it does no more than reap, and returns that row if it agrees in neurons and
      day, and is refused otherwise. */
  lemma KeyIsChargedOnce(cap: Option<real>, ops: seq<Op>, n: nat, q: Request, now: int)
    requires n <= |ops| && KnownId(Run(cap, ops[..n]), q.key).Some?
    ensures KnownId(Run(cap, ops), q.key) == KnownId(Run(cap, ops[..n]), q.key)
    ensures var id := KnownId(Run(cap, ops[..n]), q.key).value; var l' := ReapedFrom(Run(cap, ops), now, 0);
            && Has(l'.reservations, id)
            && ReserveStep(cap, Run(cap, ops), q, now) == (l', ReplayOf(l', id, q))
  {
    KnownKeysStayKnown(cap, ops, n, q.key);
    RunIsWellFormed(cap, ops);
    var l := Run(cap, ops);
    KnownKeyOnlyReaps(cap, l, q, now);
  }
}
