/** The ledger of metered Cloudflare resources other than Workers AI. */
module QuotaLedger {
  import opened Common
  import opened OrderedMap

  datatype Resource =
    | WorkerRequest | WorkerCpuMs | DurableObjectRequest | DurableObjectDurationGbS
    | DurableObjectRowRead | DurableObjectRowWrite | DurableObjectStorageGbMonth
    | D1RowRead | D1RowWrite | D1StorageGbMonth | R2StorageGbMonth | R2ClassA | R2ClassB
    | WorkersLogEvent | ContainerMemoryGibHour | ContainerCpuVcpuMinute | ContainerDiskGbHour
    | WorkersAiNeuron

  function Included(resource: Resource): real {
    match resource
    case WorkerRequest => 10000000.0
    case WorkerCpuMs => 30000000.0
    case DurableObjectRequest => 1000000.0
    case DurableObjectDurationGbS => 400000.0
    case DurableObjectRowRead => 25000000000.0
    case DurableObjectRowWrite => 50000000.0
    case DurableObjectStorageGbMonth => 5.0
    case D1RowRead => 25000000000.0
    case D1RowWrite => 50000000.0
    case D1StorageGbMonth => 5.0
    case R2StorageGbMonth => 10.0
    case R2ClassA => 1000000.0
    case R2ClassB => 10000000.0
    case WorkersLogEvent => 20000000.0
    case ContainerMemoryGibHour => 25.0
    case ContainerCpuVcpuMinute => 375.0
    case ContainerDiskGbHour => 200.0
    case WorkersAiNeuron => 0.0
  }

  predicate IsStorage(resource: Resource) {
    resource == DurableObjectStorageGbMonth || resource == D1StorageGbMonth || resource == R2StorageGbMonth
  }

  datatype Policy = Unlimited | IncludedFraction(fraction: real)

  function HardLimit(policy: Policy, resource: Resource): Option<real> {
    match policy
    case Unlimited => None
    case IncludedFraction(fraction) => Some(Included(resource) * fraction)
  }

  datatype Request = Request(
    id: string, key: string, resource: Resource, period: string, amount: real,
    taskId: Option<string>, expiresAt: int)

  datatype Fingerprint = Fingerprint(resource: Resource, period: string, amount: real, taskId: Option<string>)

  function FingerprintOf(q: Request): Fingerprint {
    Fingerprint(q.resource, q.period, q.amount, q.taskId)
  }

  datatype Status = Active | Settled | Released | Expired
  datatype Stored = Stored(input: Request, status: Status, actual: Option<real>)
  datatype Usage = Usage(used: real, reserved: real)
  datatype KeyRecord = KeyRecord(id: string, fingerprint: Fingerprint)
  datatype Charge = Charge(bucket: Bucket, amount: real, actual: real)

  /** One rollup per resource and period. */
  type Bucket = (Resource, string)

  function BucketOf(q: Request): Bucket {
    (q.resource, q.period)
  }

  datatype Error =
    | InvalidInput | KeyReused | IndexInconsistent | RequiresAiLedger
    | StorageBudgetReached | HardLimitReached
    | NotFound | NotActive | RollupMissing | NegativeActual

  /** `charges` is history: everything settled so far. */
  datatype Ledger = Ledger(
    usage: map<Bucket, Usage>,
    reservations: seq<Entry<Stored>>,
    idempotency: map<string, KeyRecord>,
    charges: seq<Charge>)

  const EMPTY := Ledger(map[], [], map[], [])

  function UsageOf(l: Ledger, b: Bucket): Usage {
    if b in l.usage then l.usage[b] else Usage(0.0, 0.0)
  }

  ghost predicate WellFormed(l: Ledger) {
    && DistinctKeys(l.reservations)
    && (forall i :: 0 <= i < |l.reservations| ==> BucketOf(l.reservations[i].value.input) in l.usage)
    && (forall k :: k in l.idempotency ==> Has(l.reservations, l.idempotency[k].id))
  }

  // ---- Operations ----

  function EndedAt(l: Ledger, i: nat, status: Status, actual: Option<real>): Ledger
    requires i < |l.reservations|
  {
    var e := l.reservations[i];
    var b := BucketOf(e.value.input);
    var u := UsageOf(l, b);
    var spent := if actual.Some? then actual.value else 0.0;
    l.(usage := l.usage[b := Usage(u.used + spent, MaxReal(0.0, u.reserved - e.value.input.amount))],
       reservations := l.reservations[i := Entry(e.key, Stored(e.value.input, status, actual))],
       charges := if actual.Some? then l.charges + [Charge(b, e.value.input.amount, spent)] else l.charges)
  }

  predicate Expiring(s: Stored, now: int) {
    s.status == Active && s.input.expiresAt <= now
  }

  function ReapedFrom(l: Ledger, now: int, i: nat): Ledger
    decreases |l.reservations| - i
  {
    if i >= |l.reservations| then l
    else if Expiring(l.reservations[i].value, now) then ReapedFrom(EndedAt(l, i, Expired, None), now, i + 1)
    else ReapedFrom(l, now, i + 1)
  }

  predicate OverLimit(policy: Policy, l: Ledger, q: Request) {
    var u := UsageOf(l, BucketOf(q));
    var limit := HardLimit(policy, q.resource);
    limit.Some? && u.used + u.reserved + q.amount > limit.value
  }

  function Accepted(l: Ledger, q: Request): Ledger {
    var u := UsageOf(l, BucketOf(q));
    l.(usage := l.usage[BucketOf(q) := u.(reserved := u.reserved + q.amount)],
       reservations := Put(l.reservations, q.id, Stored(q, Active, None)),
       idempotency := l.idempotency[q.key := KeyRecord(q.id, FingerprintOf(q))])
  }

  function ReserveReaped(policy: Policy, l: Ledger, q: Request): (Ledger, Result<Request, Error>) {
    if q.key in l.idempotency then
      var known := l.idempotency[q.key];
      if known.fingerprint != FingerprintOf(q) then (l, Err(KeyReused)) else
      if !Has(l.reservations, known.id) then (l, Err(IndexInconsistent)) else
      (l, Ok(l.reservations[Find(l.reservations, known.id)].value.input))
    else if q.resource == WorkersAiNeuron then (l, Err(RequiresAiLedger))
    else if OverLimit(policy, l, q) then
      (l, Err(if IsStorage(q.resource) then StorageBudgetReached else HardLimitReached))
    else (Accepted(l, q), Ok(q))
  }

  predicate IsAlphanumeric(c: char) {
    'a' <= c <= 'z' || 'A' <= c <= 'Z' || '0' <= c <= '9'
  }

  predicate IsIdentifier(s: string) {
    && 1 <= |s| <= 200 && IsAlphanumeric(s[0])
    && forall i :: 0 <= i < |s| ==> IsAlphanumeric(s[i]) || s[i] in "._:/-"
  }

  /** What usageReservationSchema lets through. */
  predicate ValidInput(q: Request) {
    && IsIdentifier(q.id) && 1 <= |q.period| <= 100 && 0.0 < q.amount
    && (q.taskId.Some? ==> IsIdentifier(q.taskId.value)) && 1 <= |q.key| <= 200
  }

  /** reserve: input is checked before anything is reaped. */
  function ReserveStep(policy: Policy, l: Ledger, q: Request, now: int): (Ledger, Result<Request, Error>) {
    if !ValidInput(q) then (l, Err(InvalidInput)) else ReserveReaped(policy, ReapedFrom(l, now, 0), q)
  }

  function Lookup(l: Ledger, id: string): Result<nat, Error> {
    var i := Find(l.reservations, id);
    if i == |l.reservations| then Err(NotFound)
    else if l.reservations[i].value.status != Active then Err(NotActive)
    else if BucketOf(l.reservations[i].value.input) !in l.usage then Err(RollupMissing)
    else Ok(i)
  }

  function SettleStep(l: Ledger, id: string, actual: real): (Ledger, Result<(), Error>) {
    if actual < 0.0 then (l, Err(NegativeActual))
    else match Lookup(l, id)
      case Err(e) => (l, Err(e))
      case Ok(i) => (EndedAt(l, i, Settled, Some(actual)), Ok(()))
  }

  function ReleaseStep(l: Ledger, id: string): (Ledger, Result<(), Error>) {
    match Lookup(l, id)
    case Err(e) => (l, Err(e))
    case Ok(i) => (EndedAt(l, i, Released, None), Ok(()))
  }

  // ---- Well-formedness is kept ----

  lemma EndedKeepsWellFormed(l: Ledger, i: nat, status: Status, actual: Option<real>)
    requires WellFormed(l) && i < |l.reservations|
    ensures WellFormed(EndedAt(l, i, status, actual))
  {
    var l' := EndedAt(l, i, status, actual);
    forall k | k in l.idempotency
      ensures Has(l'.reservations, l.idempotency[k].id)
    {
      FindAfterUpdate(l.reservations, i, l'.reservations[i].value, l.idempotency[k].id);
    }
  }

  lemma AcceptedKeepsWellFormed(l: Ledger, q: Request)
    requires WellFormed(l)
    ensures WellFormed(Accepted(l, q))
  {
    var l' := Accepted(l, q);
    FindAfterPut(l.reservations, q.id, Stored(q, Active, None), q.id);
    forall k | k in l'.idempotency
      ensures Has(l'.reservations, l'.idempotency[k].id)
    {
      FindAfterPut(l.reservations, q.id, Stored(q, Active, None), l'.idempotency[k].id);
    }
  }

  // ---- The class ----

  class InMemoryQuotaLedger {
    const policy: Policy
    var usage: map<Bucket, Usage>
    var reservations: seq<Entry<Stored>>
    var idempotency: map<string, KeyRecord>
    ghost var charges: seq<Charge>

    ghost function State(): Ledger
      reads this
    {
      Ledger(usage, reservations, idempotency, charges)
    }

    ghost predicate Valid()
      reads this
    {
      WellFormed(State())
    }

    constructor (policy: Policy)
      ensures Valid() && State() == EMPTY && this.policy == policy
    {
      this.policy := policy;
      usage, reservations, idempotency, charges := map[], [], map[], [];
    }

    method EndRow(i: nat, status: Status, actual: Option<real>)
      requires Valid() && i < |reservations|
      modifies this
      ensures Valid() && State() == EndedAt(old(State()), i, status, actual)
    {
      EndedKeepsWellFormed(State(), i, status, actual);
      var row := reservations[i].value;
      var b := BucketOf(row.input);
      var u := usage[b];
      u := u.(reserved := MaxReal(0.0, u.reserved - row.input.amount));
      if actual.Some? {
        u := u.(used := u.used + actual.value);
        charges := charges + [Charge(b, row.input.amount, actual.value)];
      }
      usage := usage[b := u];
      reservations := reservations[i := Entry(reservations[i].key, Stored(row.input, status, actual))];
    }

    method ReapExpired(now: int) returns (reaped: nat)
      requires Valid()
      modifies this
      ensures Valid() && State() == ReapedFrom(old(State()), now, 0)
      ensures reaped == |set i | 0 <= i < |old(reservations)| && Expiring(old(reservations)[i].value, now)|
    {
      hide WellFormed, Expiring;
      reaped := 0;
      ghost var done: set<int> := {};
      for i := 0 to |reservations|
        invariant Valid() && |reservations| == |old(reservations)|
        invariant reservations[i..] == old(reservations)[i..]
        invariant ReapedFrom(State(), now, i) == ReapedFrom(old(State()), now, 0)
        invariant done == set k | 0 <= k < i && Expiring(old(reservations)[k].value, now)
        invariant reaped == |done|
      {
        assert reservations[i] == reservations[i..][0] == old(reservations)[i];
        if Expiring(reservations[i].value, now) {
          EndRow(i, Expired, None);
          reaped := reaped + 1;
          done := done + {i};
        }
      }
      assert done == set i | 0 <= i < |old(reservations)| && Expiring(old(reservations)[i].value, now);
    }

    method Reserve(q: Request, now: int) returns (r: Result<Request, Error>)
      requires Valid()
      modifies this
      ensures Valid() && (State(), r) == ReserveStep(policy, old(State()), q, now)
    {
      if !ValidInput(q) {
        return Err(InvalidInput);
      }
      var _ := ReapExpired(now);
      r := ReserveAfterReaping(q);
    }

    method ReserveAfterReaping(q: Request) returns (r: Result<Request, Error>)
      requires Valid()
      modifies this
      ensures Valid() && (State(), r) == ReserveReaped(policy, old(State()), q)
    {
      if q.key in idempotency {
        if idempotency[q.key].fingerprint != FingerprintOf(q) {
          return Err(KeyReused);
        }
        return Ok(reservations[Find(reservations, idempotency[q.key].id)].value.input);
      }
      if q.resource == WorkersAiNeuron {
        return Err(RequiresAiLedger);
      }
      hide WellFormed, Put, Find, Included;
      var u := if BucketOf(q) in usage then usage[BucketOf(q)] else Usage(0.0, 0.0);
      var limit := HardLimit(policy, q.resource);
      if limit.Some? && u.used + u.reserved + q.amount > limit.value {
        return Err(if IsStorage(q.resource) then StorageBudgetReached else HardLimitReached);
      }
      AcceptedKeepsWellFormed(State(), q);
      reservations := Put(reservations, q.id, Stored(q, Active, None));
      idempotency := idempotency[q.key := KeyRecord(q.id, FingerprintOf(q))];
      usage := usage[BucketOf(q) := u.(reserved := u.reserved + q.amount)];
      r := Ok(q);
    }

    method Settle(id: string, actual: real) returns (r: Result<(), Error>)
      requires Valid()
      modifies this
      ensures Valid() && (State(), r) == SettleStep(old(State()), id, actual)
    {
      if actual < 0.0 {
        return Err(NegativeActual);
      }
      var i := Find(reservations, id);
      if i == |reservations| {
        return Err(NotFound);
      }
      if reservations[i].value.status != Active {
        return Err(NotActive);
      }
      EndRow(i, Settled, Some(actual));
      r := Ok(());
    }

    method Release(id: string) returns (r: Result<(), Error>)
      requires Valid()
      modifies this
      ensures Valid() && (State(), r) == ReleaseStep(old(State()), id)
    {
      var i := Find(reservations, id);
      if i == |reservations| {
        return Err(NotFound);
      }
      if reservations[i].value.status != Active {
        return Err(NotActive);
      }
      EndRow(i, Released, None);
      r := Ok(());
    }
  }
}
