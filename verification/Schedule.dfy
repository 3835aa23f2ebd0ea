/** Recurring task schedules: resolving wall-clock times in a time zone and finding the next
    run. Instants are counted in milliseconds, wall times and zone offsets in minutes. */
module Schedule {
  import opened Common
  import opened Calendar

  /** Minutes to add to UTC, for each minute of UTC. */
  type Zone = int -> int

  datatype Rule =
    | Daily
    | Weekly(weekdays: seq<int>)
    | Monthly(dayOfMonth: int)

  datatype TaskSchedule =
    | NoSchedule
    | Once(at: int)
    | Recurring(rule: Rule, hour: int, minute: int, zone: Zone)

  predicate ValidClock(s: TaskSchedule)
    requires s.Recurring?
  {
    0 <= s.hour < 24 && 0 <= s.minute < 60
  }

  /** What the source's validation lets through. */
  predicate ValidSchedule(s: TaskSchedule) {
    s.Recurring? ==>
      && ValidClock(s)
      && match s.rule
         case Daily => true
         case Weekly(days) =>
           && 1 <= |days| <= 7
           && (forall i, j :: 0 <= i < j < |days| ==> days[i] != days[j])
           && forall i :: 0 <= i < |days| ==> 0 <= days[i] <= 6
         case Monthly(day) => 1 <= day <= 31
  }

  const MILLIS_PER_MINUTE: int := 60000

  /** What a wall clock in the zone shows. */
  function PartsInZone(minute: int, zone: Zone): Local {
    LocalOf(minute + zone(minute))
  }

  // ---- Resolving a wall time ----

  function Refined(desired: int, candidate: int, zone: Zone, rounds: nat): int
    decreases rounds
  {
    if rounds == 0 then candidate
    else Refined(desired, candidate - (candidate + zone(candidate) - desired), zone, rounds - 1)
  }

  function Resolve(desired: int, zone: Zone): Option<int> {
    var candidate := Refined(desired, desired, zone, 4);
    if candidate + zone(candidate) == desired then Some(candidate) else None
  }

  lemma ShownWhen(local: Local, candidate: int, zone: Zone)
    requires ValidLocal(local)
    ensures PartsInZone(candidate, zone) == local <==> candidate + zone(candidate) == MinuteOf(local)
  {
    hide LocalOf, MinuteOf, ValidLocal;
    LocalIsUnique(local);
  }

  method LocalToEpoch(local: Local, zone: Zone) returns (r: Option<int>)
    requires ValidLocal(local)
    ensures r == Resolve(MinuteOf(local), zone)
    ensures r.Some? ==> PartsInZone(r.value, zone) == local
  {
    var desired := MinuteOf(local);
    var candidate := Refine(desired, zone);
    ShownWhen(local, candidate, zone);
    r := if PartsInZone(candidate, zone) == local then Some(candidate) else None;
  }

  /** The loop of localToEpoch. */
  method Refine(desired: int, zone: Zone) returns (candidate: int)
    ensures candidate == Refined(desired, desired, zone, 4)
  {
    hide LocalOf, MinuteOf;
    candidate := desired;
    for iteration := 0 to 4
      invariant Refined(desired, candidate, zone, 4 - iteration) == Refined(desired, desired, zone, 4)
    {
      var actual := PartsInZone(candidate, zone);
      var represented := MinuteOf(actual);
      candidate := candidate - (represented - desired);
    }
  }

  /** The zone's offset is below a day and changes at most once, at `change`, among all
      minutes that could show the wall time `desired`. */
  ghost predicate OneChangeAround(zone: Zone, desired: int, change: int, before: int, after: int) {
    && (forall m {:trigger zone(m)} :: -1440 < zone(m) < 1440)
    && (forall m {:trigger zone(m)} :: desired - 1440 < m < desired + 1440 ==>
          zone(m) == if m < change then before else after)
  }

  /** Four rounds are enough around one change: a wall time resolves if and only if some
      instant shows it, so exactly the times that fall in a gap do not. */
  lemma ResolveIsExact(zone: Zone, desired: int, change: int, before: int, after: int)
    requires OneChangeAround(zone, desired, change, before, after)
    ensures Resolve(desired, zone).Some? <==> exists m :: m + zone(m) == desired
    ensures Resolve(desired, zone).None? <==> desired - before >= change > desired - after
  {
    FourRounds(zone, desired);
  }

  lemma FourRounds(zone: Zone, desired: int)
    ensures Refined(desired, desired, zone, 4)
              == desired - zone(desired - zone(desired - zone(desired - zone(desired))))
  {
    var c1 := desired - zone(desired);
    var c2 := desired - zone(c1);
    var c3 := desired - zone(c2);
    assert Refined(desired, desired, zone, 4) == Refined(desired, c1, zone, 3);
    assert Refined(desired, c1, zone, 3) == Refined(desired, c2, zone, 2);
    assert Refined(desired, c2, zone, 2) == Refined(desired, c3, zone, 1);
    assert Refined(desired, c3, zone, 1) == Refined(desired, desired - zone(c3), zone, 0);
  }

  /** The zone's offset is below a day and changes twice. */
  ghost predicate TwoChanges(zone: Zone, first: int, second: int, before: int, between: int, after: int) {
    && first < second && before != between && between != after
    && (forall m {:trigger zone(m)} :: -1440 < zone(m) < 1440)
    && (forall m {:trigger zone(m)} ::
          zone(m) == if m < first then before else if m < second then between else after)
  }

  /** With two changes close together the rounds can oscillate and miss a wall time that an
      instant shows: the condition above is needed. */
  lemma OscillationMissesAWallTime() returns (zone: Zone)
    ensures TwoChanges(zone, -10, -5, 1, 7, 60)
    ensures Resolve(0, zone).None? && -7 + zone(-7) == 0
  {
    zone := (m: int) => if m < -10 then 1 else if m < -5 then 7 else 60;
    FourRounds(zone, 0);
  }

  // ---- The next run ----

  function WallMinute(s: TaskSchedule, day: int): int
    requires s.Recurring?
  {
    day * 1440 + s.hour * 60 + s.minute
  }

  predicate DayMatches(rule: Rule, day: int) {
    match rule
    case Daily => true
    case Weekly(days) => WeekDay(day) in days
    case Monthly(k) => DateOf(day).day == k
  }

  function MaxDays(rule: Rule): nat {
    match rule
    case Daily => 3
    case Weekly(_) => 15
    case Monthly(_) => 800
  }

  /** The run of local day `day`, if the day matches and its wall time resolves to an instant
      later than `after`. */
  function RunOn(s: TaskSchedule, day: int, after: int): Option<int>
    requires s.Recurring?
  {
    if !DayMatches(s.rule, day) then None else
    var candidate := Resolve(WallMinute(s, day), s.zone);
    if candidate.Some? && candidate.value * MILLIS_PER_MINUTE > after
    then Some(candidate.value * MILLIS_PER_MINUTE) else None
  }

  function Runs(s: TaskSchedule, after: int): int -> Option<int>
    requires s.Recurring?
  {
    (day: int) => RunOn(s, day, after)
  }

  /** The first result of `f` on `day` and the days after it. */
  function First(f: int -> Option<int>, day: int, tries: nat): Option<int>
    decreases tries
  {
    if tries == 0 then None else if f(day).Some? then f(day) else First(f, day + 1, tries - 1)
  }

  function LocalDay(after: int, zone: Zone): int {
    var m := after / MILLIS_PER_MINUTE;
    (m + zone(m)) / 1440
  }

  function NextRun(s: TaskSchedule, after: int): Option<int> {
    match s
    case NoSchedule => None
    case Once(at) => if at > after then Some(at) else None
    case Recurring(rule, _, _, zone) => First(Runs(s, after), LocalDay(after, zone), MaxDays(rule) + 1)
  }

  /** The date `days` after that of `local`, by way of Date.UTC. */
  function DateAfterDays(local: Local, days: int): Date
    requires ValidLocal(local)
  {
    DateOf(DayNumber(local.date.(day := local.date.day + days)))
  }

  lemma DateAfterDaysIs(local: Local, days: int)
    requires ValidLocal(local)
    ensures DayNumber(DateAfterDays(local, days)) == DayNumber(local.date) + days
  {}

  lemma LocalDayIs(after: int, zone: Zone)
    ensures DayNumber(PartsInZone(after / MILLIS_PER_MINUTE, zone).date) == LocalDay(after, zone)
  {}

  method NextTaskRunAt(s: TaskSchedule, after: int) returns (r: Option<int>)
    requires ValidSchedule(s)
    ensures s.NoSchedule? ==> r == None
    ensures s.Once? ==> r == if after < s.at then Some(s.at) else None
    ensures r == NextRun(s, after)
  {
    if s.NoSchedule? {
      return None;
    }
    if s.Once? {
      return if s.at > after then Some(s.at) else None;
    }
    var localAfter := PartsInZone(after / MILLIS_PER_MINUTE, s.zone);
    LocalDayIs(after, s.zone);
    r := Search(s, localAfter, after);
  }

  /** The search of nextTaskRunAt. */
  method Search(s: TaskSchedule, localAfter: Local, after: int) returns (r: Option<int>)
    requires s.Recurring? && ValidClock(s) && ValidLocal(localAfter)
    ensures r == First(Runs(s, after), DayNumber(localAfter.date), MaxDays(s.rule) + 1)
  {
    hide RunOn;
    ghost var today, f := DayNumber(localAfter.date), Runs(s, after);
    var maxDays := MaxDays(s.rule);
    for offset := 0 to maxDays + 1
      invariant First(f, today + offset, maxDays + 1 - offset) == First(f, today, maxDays + 1)
    {
      r := RunAfterDays(s, localAfter, offset, after);
      if r.Some? {
        return;
      }
    }
    r := None;
  }

  /** One pass of the search. */
  method RunAfterDays(s: TaskSchedule, localAfter: Local, offset: nat, after: int) returns (r: Option<int>)
    requires s.Recurring? && ValidClock(s) && ValidLocal(localAfter)
    ensures r == Runs(s, after)(DayNumber(localAfter.date) + offset)
  {
    hide RunOn;
    DateAfterDaysIs(localAfter, offset);
    r := RunOnDate(s, DateAfterDays(localAfter, offset), after);
  }

  /** The tests of the search on a date. */
  predicate DateMatches(rule: Rule, date: Date)
    requires ValidDate(date)
  {
    match rule
    case Daily => true
    case Weekly(days) => WeekDay(DayNumber(date)) in days
    case Monthly(k) => date.day == k
  }

  lemma DateMatchesIs(rule: Rule, date: Date)
    requires ValidDate(date)
    ensures DateMatches(rule, date) <==> DayMatches(rule, DayNumber(date))
  {
    DateIsUnique(date);
  }

  lemma RunOnDateIs(s: TaskSchedule, date: Date, after: int)
    requires s.Recurring? && ValidClock(s) && ValidDate(date)
    ensures ValidLocal(Local(date, s.hour, s.minute))
    ensures var candidate := Resolve(MinuteOf(Local(date, s.hour, s.minute)), s.zone);
            RunOn(s, DayNumber(date), after) ==
            if !DateMatches(s.rule, date) then None
            else if candidate.Some? && candidate.value * MILLIS_PER_MINUTE > after
            then Some(candidate.value * MILLIS_PER_MINUTE)
            else None
  {
    DateMatchesIs(s.rule, date);
    hide DateMatches, DayMatches, DayNumber, ValidDate, Resolve;
  }

  method RunOnDate(s: TaskSchedule, date: Date, after: int) returns (r: Option<int>)
    requires s.Recurring? && ValidClock(s) && ValidDate(date)
    ensures r == RunOn(s, DayNumber(date), after)
  {
    RunOnDateIs(s, date, after);
    hide *;
    if !DateMatches(s.rule, date) {
      return None;
    }
    var candidate := LocalToEpoch(Local(date, s.hour, s.minute), s.zone);
    if candidate.Some? && candidate.value * MILLIS_PER_MINUTE > after {
      return Some(candidate.value * MILLIS_PER_MINUTE);
    }
    r := None;
  }
}
