/** The Workers AI spend ledger: reservations are split into free and paid neurons when
    they are made, and settled later by the amount really used. */
module AiSpendLedger {
  import opened Common
  import opened OrderedMap

  const FREE_NEURONS_PER_DAY: real := 10000.0
  const MICROS_PER_NEURON: real := 11.0

  /** Math.round of dollars in micros: the nearest whole number, halves upwards. */
  function Micros(usd: real): (m: real)
    ensures m == m.Floor as real && m - 0.5 <= usd * 1000000.0 < m + 0.5
  {
    (usd * 1000000.0 + 0.5).Floor as real
  }

  datatype Status = Active | Settled | Released | Expired

  datatype Reservation = Reservation(
    id: string, key: string, day: string, month: string, neurons: real, expiresAt: int,
    freeNeurons: real, overageMicros: real, status: Status)

  datatype Request = Request(
    id: string, key: string, day: string, month: string, neurons: real, expiresAt: int)

  datatype DayUsage = DayUsage(used: real, reserved: real)
  datatype MonthUsage = MonthUsage(usedMicros: real, reservedMicros: real)

  /** What a settlement charged. The source does not store it: the ledger below carries the
      list of all settlements as a history, to say what the totals must add up to. */
  datatype Settlement = Settlement(day: string, month: string, neurons: real, freeNeurons: real, actual: real)

  datatype Error =
    | IndexInconsistent | KeyReused | NotPositive | SpendLimitReached
    | NotFound | NotActive | RollupMissing | NegativeActual

  /** `reservations` lists the rows of the reservation map in the order of their insertion;
      `settled` is history. */
  datatype Ledger = Ledger(
    daily: map<string, DayUsage>,
    monthly: map<string, MonthUsage>,
    reservations: seq<Entry<Reservation>>,
    idempotency: map<string, string>,
    settled: seq<Settlement>)

  const EMPTY := Ledger(map[], map[], [], map[], [])

  // ---- Look-ups ----

  function DayOf(l: Ledger, day: string): DayUsage {
    if day in l.daily then l.daily[day] else DayUsage(0.0, 0.0)
  }

  function MonthOf(l: Ledger, month: string): MonthUsage {
    if month in l.monthly then l.monthly[month] else MonthUsage(0.0, 0.0)
  }

  /** What the tables need for every look-up of the source to succeed: rows have distinct
      ids, their rollups exist, and the idempotency index names rows. */
  ghost predicate WellFormed(l: Ledger) {
    && DistinctKeys(l.reservations)
    && (forall i :: 0 <= i < |l.reservations| ==>
          l.reservations[i].value.day in l.daily && l.reservations[i].value.month in l.monthly)
    && (forall k :: k in l.idempotency ==> Has(l.reservations, l.idempotency[k]))
  }

  // ---- Operations ----

  function ReleasedAt(l: Ledger, i: nat, status: Status): Ledger
    requires i < |l.reservations|
  {
    var r := l.reservations[i].value;
    var d := DayOf(l, r.day);
    var m := MonthOf(l, r.month);
    l.(daily := l.daily[r.day := d.(reserved := MaxReal(0.0, d.reserved - r.neurons))],
       monthly := l.monthly[r.month := m.(reservedMicros := MaxReal(0.0, m.reservedMicros - r.overageMicros))],
       reservations := l.reservations[i := Entry(l.reservations[i].key, r.(status := status))])
  }

  predicate Expiring(r: Reservation, now: int) {
    r.status == Active && r.expiresAt <= now
  }

  /** Rows i and later are released if they have expired. */
  function ReapedFrom(l: Ledger, now: int, i: nat): Ledger
    decreases |l.reservations| - i
  {
    if i >= |l.reservations| then l
    else if Expiring(l.reservations[i].value, now) then ReapedFrom(ReleasedAt(l, i, Expired), now, i + 1)
    else ReapedFrom(l, now, i + 1)
  }

  function FreeShare(l: Ledger, q: Request): real {
    var d := DayOf(l, q.day);
    MinReal(MaxReal(0.0, FREE_NEURONS_PER_DAY - d.used - d.reserved), q.neurons)
  }

  function Accepted(l: Ledger, q: Request): Ledger {
    var free := FreeShare(l, q);
    var overage := (q.neurons - free) * MICROS_PER_NEURON;
    var d := DayOf(l, q.day);
    var m := MonthOf(l, q.month);
    l.(daily := l.daily[q.day := d.(reserved := d.reserved + q.neurons)],
       monthly := l.monthly[q.month := m.(reservedMicros := m.reservedMicros + overage)],
       reservations := Put(l.reservations, q.id, NewRow(l, q)),
       idempotency := l.idempotency[q.key := q.id])
  }

  function NewRow(l: Ledger, q: Request): Reservation {
    var free := FreeShare(l, q);
    Reservation(q.id, q.key, q.day, q.month, q.neurons, q.expiresAt, free,
                (q.neurons - free) * MICROS_PER_NEURON, Active)
  }

  /** The id under which a key was used before; the source takes the empty id for no id. */
  function KnownId(l: Ledger, key: string): Option<string> {
    if key in l.idempotency && l.idempotency[key] != "" then Some(l.idempotency[key]) else None
  }

  predicate OverLimit(cap: Option<real>, l: Ledger, q: Request) {
    cap.Some? &&
    MonthOf(l, q.month).usedMicros + MonthOf(l, q.month).reservedMicros
      + (q.neurons - FreeShare(l, q)) * MICROS_PER_NEURON > cap.value
  }

  /** reserve: expired rows are reaped even when the call then fails. */
  function ReserveStep(cap: Option<real>, l0: Ledger, q: Request, now: int): (Ledger, Result<Reservation, Error>) {
    ReserveReaped(cap, ReapedFrom(l0, now, 0), q)
  }

  function ReserveReaped(cap: Option<real>, l: Ledger, q: Request): (Ledger, Result<Reservation, Error>) {
    var known := KnownId(l, q.key);
    if known.Some? then
      var i := Find(l.reservations, known.value);
      if i == |l.reservations| then (l, Err(IndexInconsistent)) else
      var existing := l.reservations[i].value;
      if existing.neurons != q.neurons || existing.day != q.day then (l, Err(KeyReused)) else (l, Ok(existing))
    else if q.neurons <= 0.0 then (l, Err(NotPositive))
    else if OverLimit(cap, l, q) then (l, Err(SpendLimitReached))
    else (Accepted(l, q), Ok(NewRow(l, q)))
  }

  function Lookup(l: Ledger, id: string): Result<nat, Error> {
    var i := Find(l.reservations, id);
    if i == |l.reservations| then Err(NotFound)
    else if l.reservations[i].value.status != Active then Err(NotActive)
    else if l.reservations[i].value.day !in l.daily then Err(RollupMissing)
    else if l.reservations[i].value.month !in l.monthly then Err(RollupMissing)
    else Ok(i)
  }

  function SettledAt(l: Ledger, i: nat, actual: real): Ledger
    requires i < |l.reservations|
  {
    var r := l.reservations[i].value;
    var d := DayOf(l, r.day);
    var m := MonthOf(l, r.month);
    l.(daily := l.daily[r.day := DayUsage(d.used + actual, MaxReal(0.0, d.reserved - r.neurons))],
       monthly := l.monthly[r.month := MonthUsage(
                    m.usedMicros + MaxReal(0.0, actual - r.freeNeurons) * MICROS_PER_NEURON,
                    MaxReal(0.0, m.reservedMicros - r.overageMicros))],
       reservations := l.reservations[i := Entry(l.reservations[i].key, r.(status := Settled))],
       settled := l.settled + [Settlement(r.day, r.month, r.neurons, r.freeNeurons, actual)])
  }

  function SettleStep(l: Ledger, id: string, actual: real): (Ledger, Result<(), Error>) {
    if actual < 0.0 then (l, Err(NegativeActual))
    else match Lookup(l, id)
      case Err(e) => (l, Err(e))
      case Ok(i) => (SettledAt(l, i, actual), Ok(()))
  }

  function ReleaseStep(l: Ledger, id: string): (Ledger, Result<(), Error>) {
    match Lookup(l, id)
    case Err(e) => (l, Err(e))
    case Ok(i) => (ReleasedAt(l, i, Released), Ok(()))
  }

  // ---- Well-formedness is kept ----

  lemma ReleasedKeepsWellFormed(l: Ledger, i: nat, status: Status)
    requires WellFormed(l) && i < |l.reservations|
    ensures WellFormed(ReleasedAt(l, i, status))
  {
    forall k | k in l.idempotency
      ensures Has(ReleasedAt(l, i, status).reservations, l.idempotency[k])
    {
      FindAfterUpdate(l.reservations, i, l.reservations[i].value.(status := status), l.idempotency[k]);
    }
  }

  lemma {:induction false} ReapedKeepsWellFormed(l: Ledger, now: int, i: nat)
    requires WellFormed(l)
    ensures WellFormed(ReapedFrom(l, now, i))
    decreases |l.reservations| - i
  {
    if i < |l.reservations| {
      if Expiring(l.reservations[i].value, now) {
        ReleasedKeepsWellFormed(l, i, Expired);
        ReapedKeepsWellFormed(ReleasedAt(l, i, Expired), now, i + 1);
      } else {
        ReapedKeepsWellFormed(l, now, i + 1);
      }
    }
  }

  lemma AcceptedKeepsWellFormed(l: Ledger, q: Request)
    requires WellFormed(l)
    ensures WellFormed(Accepted(l, q))
  {
    var l' := Accepted(l, q);
    FindAfterPut(l.reservations, q.id, NewRow(l, q), q.id);
    forall k | k in l'.idempotency
      ensures Has(l'.reservations, l'.idempotency[k])
    {
      FindAfterPut(l.reservations, q.id, NewRow(l, q), l'.idempotency[k]);
    }
  }

  lemma SettledKeepsWellFormed(l: Ledger, i: nat, actual: real)
    requires WellFormed(l) && i < |l.reservations|
    ensures WellFormed(SettledAt(l, i, actual))
  {
    forall k | k in l.idempotency
      ensures Has(SettledAt(l, i, actual).reservations, l.idempotency[k])
    {
      FindAfterUpdate(l.reservations, i, l.reservations[i].value.(status := Settled), l.idempotency[k]);
    }
  }

  /** A reservation, from what the ledger holds for its day and month. */
  lemma AcceptedIs(l: Ledger, q: Request, d: DayUsage, m: MonthUsage, free: real, overage: real)
    requires d == DayOf(l, q.day) && m == MonthOf(l, q.month)
    requires free == MinReal(MaxReal(0.0, FREE_NEURONS_PER_DAY - d.used - d.reserved), q.neurons)
    requires overage == (q.neurons - free) * MICROS_PER_NEURON
    ensures forall cap: Option<real> ::
              OverLimit(cap, l, q) <==> cap.Some? && m.usedMicros + m.reservedMicros + overage > cap.value
    ensures NewRow(l, q) == Reservation(q.id, q.key, q.day, q.month, q.neurons, q.expiresAt, free, overage, Active)
    ensures Accepted(l, q) ==
            l.(daily := l.daily[q.day := d.(reserved := d.reserved + q.neurons)],
               monthly := l.monthly[q.month := m.(reservedMicros := m.reservedMicros + overage)],
               reservations := Put(l.reservations, q.id, NewRow(l, q)),
               idempotency := l.idempotency[q.key := q.id])
  {
    hide Put;
  }

  // ---- The class ----

  class InMemoryAiSpendLedger {
    const monthlyOverageMicros: Option<real>
    var daily: map<string, DayUsage>
    var monthly: map<string, MonthUsage>
    var reservations: seq<Entry<Reservation>>
    var idempotency: map<string, string>
    ghost var settled: seq<Settlement>

    ghost function State(): Ledger
      reads this
    {
      Ledger(daily, monthly, reservations, idempotency, settled)
    }

    ghost predicate Valid()
      reads this
    {
      WellFormed(State())
    }

    constructor (monthlyOverageUsd: Option<real>)
      ensures Valid() && State() == EMPTY
      ensures monthlyOverageMicros
              == if monthlyOverageUsd.None? then None else Some(Micros(monthlyOverageUsd.value))
    {
      monthlyOverageMicros := if monthlyOverageUsd.None? then None else Some(Micros(monthlyOverageUsd.value));
      daily, monthly, reservations, idempotency, settled := map[], map[], [], map[], [];
    }

    method ReleaseRow(i: nat, status: Status)
      requires Valid() && i < |reservations|
      modifies this
      ensures Valid() && State() == ReleasedAt(old(State()), i, status)
    {
      ReleasedKeepsWellFormed(State(), i, status);
      var r := reservations[i].value;
      var d, m := daily[r.day], monthly[r.month];
      daily := daily[r.day := d.(reserved := MaxReal(0.0, d.reserved - r.neurons))];
      monthly := monthly[r.month := m.(reservedMicros := MaxReal(0.0, m.reservedMicros - r.overageMicros))];
      reservations := reservations[i := Entry(reservations[i].key, r.(status := status))];
    }

    method ReapExpired(now: int) returns (count: nat)
      requires Valid()
      modifies this
      ensures Valid() && State() == ReapedFrom(old(State()), now, 0)
      ensures count == |set i | 0 <= i < |old(reservations)| && Expiring(old(reservations)[i].value, now)|
    {
      hide WellFormed, Expiring;
      count := 0;
      ghost var reaped: set<int> := {};
      for i := 0 to |reservations|
        invariant Valid() && |reservations| == |old(reservations)|
        invariant reservations[i..] == old(reservations)[i..]
        invariant ReapedFrom(State(), now, i) == ReapedFrom(old(State()), now, 0)
        invariant reaped == set k | 0 <= k < i && Expiring(old(reservations)[k].value, now)
        invariant count == |reaped|
      {
        assert reservations[i] == reservations[i..][0] == old(reservations)[i];
        if Expiring(reservations[i].value, now) {
          ReleaseRow(i, Expired);
          count := count + 1;
          reaped := reaped + {i};
        }
      }
      assert reaped == set i | 0 <= i < |old(reservations)| && Expiring(old(reservations)[i].value, now);
    }

    method Reserve(q: Request, now: int) returns (r: Result<Reservation, Error>)
      requires Valid()
      modifies this
      ensures Valid() && (State(), r) == ReserveStep(monthlyOverageMicros, old(State()), q, now)
    {
      var _ := ReapExpired(now);
      r := ReserveAfterReaping(q);
    }

    method ReserveAfterReaping(q: Request) returns (r: Result<Reservation, Error>)
      requires Valid()
      modifies this
      ensures Valid() && (State(), r) == ReserveReaped(monthlyOverageMicros, old(State()), q)
    {
      if q.key in idempotency && idempotency[q.key] != "" {
        var existing := reservations[Find(reservations, idempotency[q.key])].value;
        if existing.neurons != q.neurons || existing.day != q.day {
          return Err(KeyReused);
        }
        return Ok(existing);
      }
      if q.neurons <= 0.0 {
        return Err(NotPositive);
      }
      r := ReserveNew(q);
    }

    method ReserveNew(q: Request) returns (r: Result<Reservation, Error>)
      requires Valid()
      modifies this
      ensures Valid()
      ensures OverLimit(monthlyOverageMicros, old(State()), q) ==>
                r == Err(SpendLimitReached) && State() == old(State())
      ensures !OverLimit(monthlyOverageMicros, old(State()), q) ==>
                r == Ok(NewRow(old(State()), q)) && State() == Accepted(old(State()), q)
    {
      ghost var before := State();
      AcceptedKeepsWellFormed(before, q);
      hide WellFormed, Put;
      var d := if q.day in daily then daily[q.day] else DayUsage(0.0, 0.0);
      var freeRemaining := MaxReal(0.0, FREE_NEURONS_PER_DAY - d.used - d.reserved);
      var freeNeurons := MinReal(freeRemaining, q.neurons);
      var overageMicros := (q.neurons - freeNeurons) * MICROS_PER_NEURON;
      var m := if q.month in monthly then monthly[q.month] else MonthUsage(0.0, 0.0);
      AcceptedIs(before, q, d, m, freeNeurons, overageMicros);
      hide Accepted, NewRow, OverLimit, FreeShare, MaxReal, MinReal;
      if monthlyOverageMicros.Some? &&
         m.usedMicros + m.reservedMicros + overageMicros > monthlyOverageMicros.value {
        return Err(SpendLimitReached);
      }
      var row := Reservation(q.id, q.key, q.day, q.month, q.neurons, q.expiresAt, freeNeurons, overageMicros, Active);
      daily := daily[q.day := d.(reserved := d.reserved + q.neurons)];
      monthly := monthly[q.month := m.(reservedMicros := m.reservedMicros + overageMicros)];
      reservations := Put(reservations, q.id, row);
      idempotency := idempotency[q.key := q.id];
      r := Ok(row);
    }

    method Settle(id: string, actual: real) returns (r: Result<(), Error>)
      requires Valid()
      modifies this
      ensures Valid() && (State(), r) == SettleStep(old(State()), id, actual)
    {
      if actual < 0.0 {
        return Err(NegativeActual);
      }
      var i := Find(reservations, id);
      if i == |reservations| {
        return Err(NotFound);
      }
      if reservations[i].value.status != Active {
        return Err(NotActive);
      }
      SettledKeepsWellFormed(State(), i, actual);
      var row := reservations[i].value;
      var d, m := daily[row.day], monthly[row.month];
      var paidNeurons := MaxReal(0.0, actual - row.freeNeurons);
      daily := daily[row.day := DayUsage(d.used + actual, MaxReal(0.0, d.reserved - row.neurons))];
      monthly := monthly[row.month := MonthUsage(m.usedMicros + paidNeurons * MICROS_PER_NEURON,
                                                MaxReal(0.0, m.reservedMicros - row.overageMicros))];
      reservations := reservations[i := Entry(reservations[i].key, row.(status := Settled))];
      settled := settled + [Settlement(row.day, row.month, row.neurons, row.freeNeurons, actual)];
      r := Ok(());
    }

    method Release(id: string) returns (r: Result<(), Error>)
      requires Valid()
      modifies this
      ensures Valid() && (State(), r) == ReleaseStep(old(State()), id)
    {
      var i := Find(reservations, id);
      if i == |reservations| {
        return Err(NotFound);
      }
      if reservations[i].value.status != Active {
        return Err(NotActive);
      }
      ReleaseRow(i, Released);
      r := Ok(());
    }
  }
}
