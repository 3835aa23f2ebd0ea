/** What the next run of a schedule is: a run time in any zone, and in a fixed-offset zone the
    least one, which always exists. */
module NextRuns {
  import opened Common
  import opened Calendar
  import opened Schedule

  // ---- What a run is ----

  /** Minute `m` is a run time of the rule: the zone's clock shows the hour and minute, on any
      day, on one of the weekdays, or on the day of the month. Day 0 was a Thursday, and Sunday
      counts as 0. */
  ghost predicate IsRunTime(s: TaskSchedule, m: int)
    requires s.Recurring?
  {
    var local := PartsInZone(m, s.zone);
    && local.hour == s.hour && local.minute == s.minute
    && match s.rule
       case Daily => true
       case Weekly(days) => (DayNumber(local.date) + 4) % 7 in days
       case Monthly(k) => local.date.day == k
  }

  lemma RunTimeIs(s: TaskSchedule, m: int)
    requires s.Recurring?
    ensures var local := PartsInZone(m, s.zone);
            IsRunTime(s, m) <==>
            local.hour == s.hour && local.minute == s.minute && DayMatches(s.rule, DayNumber(local.date))
  {
    DateIsUnique(PartsInZone(m, s.zone).date);
    hide LocalOf, DayNumber, ValidDate;
  }

  /** The instants at which a schedule of any kind runs, in milliseconds. */
  ghost predicate IsRunInstant(s: TaskSchedule, t: int) {
    match s
    case NoSchedule => false
    case Once(at) => t == at
    case Recurring(_, _, _, _) => exists m :: t == m * 60000 && IsRunTime(s, m)
  }

  lemma {:induction false} FirstIsOnSomeDay(f: int -> Option<int>, day: int, tries: nat) returns (found: int)
    requires First(f, day, tries).Some?
    ensures day <= found < day + tries && First(f, day, tries) == f(found)
    ensures forall d :: day <= d < found ==> f(d).None?
    decreases tries
  {
    if f(day).Some? {
      found := day;
    } else {
      found := FirstIsOnSomeDay(f, day + 1, tries - 1);
    }
  }

  lemma WallMinuteIsARunTime(s: TaskSchedule, day: int, m: int)
    requires s.Recurring? && ValidSchedule(s)
    requires DayMatches(s.rule, day) && m + s.zone(m) == WallMinute(s, day)
    ensures IsRunTime(s, m)
  {
    var local := Local(DateOf(day), s.hour, s.minute);
    assert MinuteOf(local) == WallMinute(s, day);
    ShownWhen(local, m, s.zone);
    RunTimeIs(s, m);
  }

  lemma RunOnIsARunTime(s: TaskSchedule, day: int, after: int) returns (m: int)
    requires s.Recurring? && ValidSchedule(s) && RunOn(s, day, after).Some?
    ensures RunOn(s, day, after) == Some(m * MILLIS_PER_MINUTE)
    ensures m * MILLIS_PER_MINUTE > after && IsRunTime(s, m)
  {
    m := Resolve(WallMinute(s, day), s.zone).value;
    WallMinuteIsARunTime(s, day, m);
  }

  /** In any zone whatever, a next run lies strictly after the given time and is an instant at
      which the schedule runs: the one given, or one at which the zone's clock shows the
      scheduled time on a matching day. */
  lemma NextRunIsARunTime(s: TaskSchedule, after: int)
    requires ValidSchedule(s) && NextRun(s, after).Some?
    ensures NextRun(s, after).value > after && IsRunInstant(s, NextRun(s, after).value)
  {
    if s.Recurring? {
      var day := FirstIsOnSomeDay(Runs(s, after), LocalDay(after, s.zone), MaxDays(s.rule) + 1);
      var m := RunOnIsARunTime(s, day, after);
    }
  }

  /** Without a rule there is a next run if and only if the schedule runs at some later instant,
      and it is the first of these. */
  lemma OneOffRunsAtItsTime(s: TaskSchedule, after: int)
    requires !s.Recurring?
    ensures NextRun(s, after).Some? <==> exists t :: t > after && IsRunInstant(s, t)
    ensures NextRun(s, after).Some? ==>
              && IsRunInstant(s, NextRun(s, after).value) && NextRun(s, after).value > after
              && forall t :: t > after && IsRunInstant(s, t) ==> NextRun(s, after).value <= t
  {
    if s.Once? && s.at > after {
      assert IsRunInstant(s, s.at);
    }
  }

  // ---- Fixed-offset zones ----

  ghost predicate FixedOffset(zone: Zone, k: int) {
    forall m {:trigger zone(m)} :: zone(m) == k
  }

  lemma FixedOffsetResolves(zone: Zone, k: int, desired: int)
    requires FixedOffset(zone, k)
    ensures Resolve(desired, zone) == Some(desired - k)
  {
    FourRounds(zone, desired);
  }

  /** Some day after the present one, and within the search window, matches. */
  lemma AMatchingDayFollows(s: TaskSchedule, today: int) returns (day: int)
    requires s.Recurring? && ValidSchedule(s)
    ensures today < day <= today + MaxDays(s.rule) && DayMatches(s.rule, day)
  {
    match s.rule
    case Daily =>
      day := today + 1;
    case Weekly(days) =>
      day := today + 1 + (days[0] - WeekDay(today + 1)) % 7;
      assert WeekDay(day) == days[0];
    case Monthly(k) =>
      day := DayOfMonthRecurs(today, k);
  }

  lemma {:induction false} FirstFindsADay(f: int -> Option<int>, day: int, tries: nat, target: int)
    requires day <= target < day + tries && f(target).Some?
    ensures First(f, day, tries).Some?
    decreases tries
  {
    if f(day).None? {
      FirstFindsADay(f, day + 1, tries - 1, target);
    }
  }

  lemma FixedOffsetRunOn(s: TaskSchedule, day: int, after: int, k: int)
    requires s.Recurring? && FixedOffset(s.zone, k) && DayMatches(s.rule, day)
    ensures var run := (WallMinute(s, day) - k) * MILLIS_PER_MINUTE;
            RunOn(s, day, after) == if run > after then Some(run) else None
  {
    FixedOffsetResolves(s.zone, k, WallMinute(s, day));
  }

  /** In a fixed-offset zone every valid recurring rule has a next run: the windows of 3, 15
      and 800 days always contain one. */
  lemma RecurringRulesAlwaysRunAgain(s: TaskSchedule, after: int, k: int)
    requires s.Recurring? && ValidSchedule(s) && FixedOffset(s.zone, k)
    ensures NextRun(s, after).Some?
  {
    var today := LocalDay(after, s.zone);
    var day := AMatchingDayFollows(s, today);
    FixedOffsetRunOn(s, day, after, k);
    FirstFindsADay(Runs(s, after), today, MaxDays(s.rule) + 1, day);
  }

  /** The local day of a run time. */
  function RunDay(s: TaskSchedule, m: int): int
    requires s.Recurring?
  {
    (m + s.zone(m)) / 1440
  }

  lemma RunTimeOn(s: TaskSchedule, m: int)
    requires s.Recurring?
    ensures IsRunTime(s, m) ==> DayMatches(s.rule, RunDay(s, m)) && m + s.zone(m) == WallMinute(s, RunDay(s, m))
  {
    hide DayMatches, DayNumber, LocalOf;
    var local := PartsInZone(m, s.zone);
    DayOfMinute(DayNumber(local.date), local.hour, local.minute);
    RunTimeIs(s, m);
  }

  lemma DayOfMinute(day: int, hour: int, minute: int)
    requires 0 <= hour < 24 && 0 <= minute < 60
    ensures (day * 1440 + hour * 60 + minute) / 1440 == day
  {}

  lemma FoundRunIs(s: TaskSchedule, day: int, after: int, k: int)
    requires s.Recurring? && FixedOffset(s.zone, k) && RunOn(s, day, after).Some?
    ensures RunOn(s, day, after) == Some((WallMinute(s, day) - k) * MILLIS_PER_MINUTE)
  {
    FixedOffsetRunOn(s, day, after, k);
  }

  /** No run of a matching day is missed. */
  lemma RunOnDayIsNotMissed(s: TaskSchedule, after: int, k: int, day: int)
    requires s.Recurring? && FixedOffset(s.zone, k) && DayMatches(s.rule, day) && NextRun(s, after).Some?
    requires LocalDay(after, s.zone) <= day
    ensures var run := (WallMinute(s, day) - k) * MILLIS_PER_MINUTE;
            run > after ==> NextRun(s, after).value <= run
  {
    var found := FirstIsOnSomeDay(Runs(s, after), LocalDay(after, s.zone), MaxDays(s.rule) + 1);
    FixedOffsetRunOn(s, day, after, k);
    assert Runs(s, after)(day) == RunOn(s, day, after);
    hide DayMatches, RunOn, First;
    FoundRunIs(s, found, after, k);
  }

  /** In a fixed-offset zone the next run is the least run time strictly after `after`. */
  lemma NextRunIsTheLeast(s: TaskSchedule, after: int, k: int, t: int)
    requires s.Recurring? && ValidSchedule(s) && FixedOffset(s.zone, k)
    ensures NextRun(s, after).Some?
    ensures t > after && IsRunInstant(s, t) ==> NextRun(s, after).value <= t
  {
    RecurringRulesAlwaysRunAgain(s, after, k);
    if m :| t == m * 60000 && IsRunTime(s, m) {
      NextRunIsBefore(s, after, k, m);
    }
  }

  lemma NextRunIsBefore(s: TaskSchedule, after: int, k: int, m: int)
    requires s.Recurring? && ValidSchedule(s) && FixedOffset(s.zone, k)
    ensures NextRun(s, after).Some?
    ensures m * MILLIS_PER_MINUTE > after && IsRunTime(s, m) ==> NextRun(s, after).value <= m * MILLIS_PER_MINUTE
  {
    RecurringRulesAlwaysRunAgain(s, after, k);
    RunTimeOn(s, m);
    hide NextRun, DayMatches;
    if m * MILLIS_PER_MINUTE > after && IsRunTime(s, m) {
      RunOnDayIsNotMissed(s, after, k, RunDay(s, m));
    }
  }
}
