/** What becomes of versions when handlers overlap: single statements of any number of handlers
    interleave, and each may stop anywhere. */
module PluginOverlap {
  import opened Approvals
  import opened Common
  import opened PluginGrants
  import opened Plugins

  // ---- What handlers rely on ----

  /** Versions have installations, and approvals versions. */
  ghost predicate HomeOk(s: State, k: nat) {
    && (k in s.db.versions ==> s.db.versions[k].installation in s.db.installations)
    && (k in s.db.grants ==> s.db.grants[k].version in s.db.versions)
  }

  /** A handler under way still knows the version that it read or inserted. */
  ghost predicate ThreadHomeOk(s: State, t: nat) {
    t in s.threads ==>
      match s.threads[t]
      case Adding(i, _, _) => i in s.db.installations
      case Switching(i, v, ver) => IsVersionOf(s.db, i, v, ver)
      case Activating(i, v, ver) => IsVersionOf(s.db, i, v, ver)
      case Asking(_, v, _) => v in s.db.versions
      case Clearing(i) => i in s.db.installations && s.db.installations[i].status == Removed
      case Applying(a) => a in s.db.grants
      case Done => true
  }

  predicate IsVersionOf(db: Db, i: nat, v: nat, ver: Version) {
    v in db.versions && db.versions[v] == ver.(status := db.versions[v].status) && ver.installation == i
  }

  /** An installation shows the version that it names. */
  ghost predicate ShownOk(s: State, i: nat) {
    i in s.db.installations && s.db.installations[i].active.Some? ==>
      var inst := s.db.installations[i]; var v := inst.active.value;
      && v in s.db.versions && s.db.versions[v].installation == i
      && inst.archive == s.db.versions[v].archive && inst.manifest == s.db.versions[v].manifest
  }

  /** A handler has inserted the version as active, and has still to switch to it. */
  ghost predicate IsUnfinished(s: State, i: nat, v: nat) {
    exists t :: t in s.threads && s.threads[t].Switching? && s.threads[t].i == i && s.threads[t].v == v
  }

  ghost predicate ActiveOk(s: State, v: nat) {
    v in s.db.versions && s.db.versions[v].status == Active ==>
      var i := s.db.versions[v].installation;
      && i in s.db.installations
      && (s.db.installations[i].status == Removed || s.db.installations[i].active == Some(v) || IsUnfinished(s, i, v))
  }

  ghost predicate Sound(s: State, k: nat) {
    HomeOk(s, k) && ThreadHomeOk(s, k) && ShownOk(s, k) && ActiveOk(s, k)
  }

  ghost predicate AllSound(s: State) {
    forall k: nat :: Sound(s, k)
  }

  /** Of a version only the status ever changes, and a removed installation stays removed. */
  lemma RowsAreKept(s: State, step: Step, k: nat)
    requires Possible(s, step)
    ensures var db, db' := s.db, Next(s, step).db;
            && (k in db.versions ==>
                  k in db'.versions && db'.versions[k] == db.versions[k].(status := db'.versions[k].status))
            && (k in db.installations ==>
                  k in db'.installations
                  && (db.installations[k].status == Removed ==> db'.installations[k].status == Removed))
            && (k in db.grants ==> k in db'.grants && db'.grants[k].version == db.grants[k].version)
  {}

  lemma NewVersionHome(s: State, step: Step, k: nat)
    requires AllSound(s) && Possible(s, step) && k !in s.db.versions && k in Next(s, step).db.versions
    ensures Next(s, step).db.versions[k].installation in Next(s, step).db.installations
  {
    if step.InsertVersion? {
      assert Sound(s, step.t);
    }
    hide AllSound, HomeOk, ShownOk, ActiveOk;
  }

  lemma NewGrantHome(s: State, step: Step, k: nat)
    requires AllSound(s) && Possible(s, step) && k !in s.db.grants && k in Next(s, step).db.grants
    ensures Next(s, step).db.grants[k].version in Next(s, step).db.versions
  {
    assert step.InsertGrant?;
    assert Sound(s, step.t);
    hide AllSound, HomeOk, ShownOk, ActiveOk;
  }

  lemma HomeStep(s: State, step: Step, k: nat)
    requires AllSound(s) && Possible(s, step)
    ensures HomeOk(Next(s, step), k)
  {
    hide Next, Possible, ThreadHomeOk, ShownOk, ActiveOk;
    assert Sound(s, k);
    RowsAreKept(s, step, k);
    if k in s.db.versions {
      RowsAreKept(s, step, s.db.versions[k].installation);
    } else if k in Next(s, step).db.versions {
      NewVersionHome(s, step, k);
    }
    if k in s.db.grants {
      RowsAreKept(s, step, s.db.grants[k].version);
    } else if k in Next(s, step).db.grants {
      NewGrantHome(s, step, k);
    }
  }

  lemma OldThreadStep(s: State, step: Step, t: nat)
    requires AllSound(s) && Possible(s, step) && t in s.threads && t in Next(s, step).threads
    requires Next(s, step).threads[t] == s.threads[t]
    ensures ThreadHomeOk(Next(s, step), t)
  {
    assert Sound(s, t);
    match s.threads[t] {
      case Adding(i, _, _) => RowsAreKept(s, step, i);
      case Switching(i, v, _) => RowsAreKept(s, step, v);
      case Activating(i, v, _) => RowsAreKept(s, step, v);
      case Asking(_, v, _) => RowsAreKept(s, step, v);
      case Clearing(i) => RowsAreKept(s, step, i);
      case Applying(a) => RowsAreKept(s, step, a);
      case Done =>
    }
    hide Next, Possible, HomeOk, ShownOk, ActiveOk;
  }

  lemma NewThreadStep(s: State, step: Step, t: nat)
    requires AllSound(s) && Possible(s, step) && t in Next(s, step).threads
    requires t !in s.threads || Next(s, step).threads[t] != s.threads[t]
    ensures ThreadHomeOk(Next(s, step), t)
  {
    assert t == step.t;
    assert Sound(s, t);
    hide ShownOk, ActiveOk, NewGrant, Decided, Superseding, Revoking;
  }

  /** The step writes which version installation `i` names. */
  ghost predicate Names(s: State, step: Step, i: nat)
    requires Possible(s, step)
  {
    match step
    case InsertInstallation(_, ins, j, _, _) => i == j && ins.manifest.requested == {}
    case SwitchVersion(t) => s.threads[t].i == i && i in s.db.installations
    case ActivateVersion(t) =>
      s.threads[t].i == i && i in s.db.installations && s.db.installations[i].status != Removed
    case _ => false
  }

  ghost function NamedBy(s: State, step: Step): nat
    requires Possible(s, step) && (step.InsertInstallation? || step.SwitchVersion? || step.ActivateVersion?)
  {
    if step.InsertInstallation? then step.v else s.threads[step.t].v
  }

  lemma NamingShows(s: State, step: Step, i: nat)
    requires AllSound(s) && Possible(s, step) && Names(s, step, i)
    ensures var db := Next(s, step).db; var v := NamedBy(s, step);
            && i in db.installations && v in db.versions && db.versions[v].installation == i
            && db.installations[i].active == Some(v)
            && db.installations[i].archive == db.versions[v].archive
            && db.installations[i].manifest == db.versions[v].manifest
  {
    var v := NamedBy(s, step);
    RowsAreKept(s, step, v);
    if !step.InsertInstallation? {
      assert Sound(s, step.t);
    }
    hide ShownOk, ActiveOk, Superseding, AllSound;
  }

  /** Any other step leaves alone what the installation names, shows and has been granted. */
  lemma NotNamingKeeps(s: State, step: Step, i: nat)
    requires Possible(s, step) && !Names(s, step, i) && i in Next(s, step).db.installations
    ensures var inst' := Next(s, step).db.installations[i];
            if i !in s.db.installations then inst'.active == None
            else inst' == s.db.installations[i].(status := inst'.status)
  {
    hide Superseding, Revoking, NewGrant, Decided;
  }

  lemma ShownStep(s: State, step: Step, i: nat)
    requires AllSound(s) && Possible(s, step)
    ensures ShownOk(Next(s, step), i)
  {
    assert Sound(s, i);
    if Names(s, step, i) {
      NamingShows(s, step, i);
    } else if i in Next(s, step).db.installations {
      NotNamingKeeps(s, step, i);
      if i in s.db.installations && s.db.installations[i].active.Some? {
        RowsAreKept(s, step, s.db.installations[i].active.value);
      }
    }
    hide Next, Possible, ActiveOk, Names;
  }

  /** A handler under way goes on unless the step is its own. */
  lemma UnfinishedStays(s: State, step: Step, i: nat, v: nat)
    requires Possible(s, step) && IsUnfinished(s, i, v)
    requires step.SwitchVersion? ==> s.threads[step.t].i != i || s.threads[step.t].v != v
    ensures IsUnfinished(Next(s, step), i, v)
  {
    var t :| t in s.threads && s.threads[t].Switching? && s.threads[t].i == i && s.threads[t].v == v;
    assert t in Next(s, step).threads && Next(s, step).threads[t] == s.threads[t];
  }

  lemma OldActiveStep(s: State, step: Step, v: nat)
    requires AllSound(s) && Possible(s, step) && v in s.db.versions
    ensures ActiveOk(Next(s, step), v)
  {
    var i := s.db.versions[v].installation;
    assert Sound(s, v);
    RowsAreKept(s, step, v);
    RowsAreKept(s, step, i);
    if step.SwitchVersion? || step.ActivateVersion? {
      assert Sound(s, step.t);
    }
    if IsUnfinished(s, i, v) && !(step.SwitchVersion? && s.threads[step.t].i == i && s.threads[step.t].v == v) {
      UnfinishedStays(s, step, i, v);
    }
    hide IsUnfinished, ShownOk, NewGrant, Decided;
  }

  lemma NewActiveStep(s: State, step: Step, v: nat)
    requires AllSound(s) && Possible(s, step) && v !in s.db.versions
    ensures ActiveOk(Next(s, step), v)
  {
    var next := Next(s, step);
    if step.InsertVersion? && step.v == v {
      assert Sound(s, step.t);
      assert next.threads[step.t].Switching? ==> IsUnfinished(next, s.threads[step.t].i, v);
    }
    hide ShownOk, NewGrant, Decided;
  }

  lemma StepKeepsSound(s: State, step: Step)
    requires AllSound(s) && Possible(s, step)
    ensures AllSound(Next(s, step))
  {
    var next := Next(s, step);
    forall k: nat
      ensures Sound(next, k)
    {
      HomeStep(s, step, k);
      ShownStep(s, step, k);
      if k in s.db.versions {
        OldActiveStep(s, step, k);
      } else {
        NewActiveStep(s, step, k);
      }
      if k in next.threads {
        if k in s.threads && next.threads[k] == s.threads[k] {
          OldThreadStep(s, step, k);
        } else {
          NewThreadStep(s, step, k);
        }
      }
      hide Next, Possible, AllSound, HomeOk, ShownOk, ActiveOk;
    }
  }

  lemma {:induction false} EveryRunIsSound(states: seq<State>, steps: seq<Step>, n: nat)
    requires IsRun(states, steps) && n <= |steps|
    ensures AllSound(states[n])
  {
    if n > 0 {
      EveryRunIsSound(states, steps, n - 1);
      hide AllSound, Next, Possible;
      StepKeepsSound(states[n - 1], steps[n - 1]);
    }
  }

  // ---- The active version ----

  /** An active version of an installation that is not removed is the one it names, unless a
      handler that inserted it has still to switch to it. */
  lemma ActiveVersionIsNamedUnlessUnfinished(states: seq<State>, steps: seq<Step>, n: nat, v: nat)
    requires IsRun(states, steps) && n <= |steps|
    requires v in states[n].db.versions && states[n].db.versions[v].status == Active
    ensures var i := states[n].db.versions[v].installation;
            && i in states[n].db.installations
            && var inst := states[n].db.installations[i];
               inst.status == Removed || inst.active == Some(v) || IsUnfinished(states[n], i, v)
  {
    EveryRunIsSound(states, steps, n);
    assert Sound(states[n], v);
  }

  /** Two active versions of one installation: a handler has still to switch to one of them. */
  lemma TwoActiveMeansUnfinished(states: seq<State>, steps: seq<Step>, n: nat, v: nat, w: nat)
    requires IsRun(states, steps) && n <= |steps| && v != w
    requires v in states[n].db.versions && states[n].db.versions[v].status == Active
    requires w in states[n].db.versions && states[n].db.versions[w].status == Active
    requires states[n].db.versions[v].installation == states[n].db.versions[w].installation
    ensures var i := states[n].db.versions[v].installation;
            && i in states[n].db.installations
            && (states[n].db.installations[i].status == Removed
                || IsUnfinished(states[n], i, v) || IsUnfinished(states[n], i, w))
  {
    ActiveVersionIsNamedUnlessUnfinished(states, steps, n, v);
    ActiveVersionIsNamedUnlessUnfinished(states, steps, n, w);
  }

  /** The last step of the first `n` that wrote which version installation `i` names. */
  ghost function LastNaming(states: seq<State>, steps: seq<Step>, n: nat, i: nat): Option<nat>
    requires n <= |steps| < |states| && forall k :: 0 <= k < |steps| ==> Possible(states[k], steps[k])
  {
    if n == 0 then None
    else if Names(states[n - 1], steps[n - 1], i) then Some(n - 1)
    else LastNaming(states, steps, n - 1, i)
  }

  /** A switch to a version that another handler has superseded in the meantime. */
  ghost predicate ComesTooLate(s: State, step: Step)
    requires Possible(s, step)
  {
    step.SwitchVersion? && s.threads[step.t].v in s.db.versions && s.db.versions[s.threads[step.t].v].status != Active
  }

  /** A switch to a version that requests what another handler has taken away in the meantime. */
  ghost predicate LacksGrants(s: State, step: Step)
    requires Possible(s, step)
  {
    && step.SwitchVersion? && s.threads[step.t].i in s.db.installations
    && !(s.threads[step.t].ver.manifest.requested <= s.db.installations[s.threads[step.t].i].granted)
  }

  /** What naming a version says about it right away. */
  lemma NamingActivatesWhen(s: State, step: Step, i: nat)
    requires AllSound(s) && Possible(s, step) && Names(s, step, i)
    requires Next(s, step).db.installations[i].status != Removed
    ensures var db := Next(s, step).db; var v := NamedBy(s, step);
            && v in db.versions
            && (db.versions[v].status == Active <==> !ComesTooLate(s, step))
            && (db.versions[v].manifest.requested <= db.installations[i].granted <==> !LacksGrants(s, step))
  {
    NamingShows(s, step, i);
    if !step.InsertInstallation? {
      assert Sound(s, step.t);
    }
    hide ShownOk, ActiveOk, AllSound;
  }

  /** As long as the installation is not removed, only naming changes its versions from active
      or to active, but for insertion. */
  lemma NotNamingKeepsStatus(s: State, step: Step, i: nat, v: nat)
    requires AllSound(s) && Possible(s, step) && !Names(s, step, i)
    requires v in s.db.versions && s.db.versions[v].installation == i
    requires i in s.db.installations && Next(s, step).db.installations[i].status != Removed
    ensures v in Next(s, step).db.versions
    ensures Next(s, step).db.versions[v].status == Active <==> s.db.versions[v].status == Active
  {
    assert Sound(s, v);
    RowsAreKept(s, step, i);
    if step.RevokeVersions? || step.ActivateVersion? || step.SwitchVersion? {
      assert Sound(s, step.t);
    }
    hide ShownOk, ActiveOk, AllSound, NewGrant, Decided;
  }

  /** What the last naming says about the version that an installation names. */
  ghost predicate NamedAsLastWritten(states: seq<State>, steps: seq<Step>, n: nat, i: nat)
    requires n <= |steps| < |states| && forall k :: 0 <= k < |steps| ==> Possible(states[k], steps[k])
  {
    var db := states[n].db;
    i in db.installations && db.installations[i].status != Removed && db.installations[i].active.Some? ==>
      var v, last := db.installations[i].active.value, LastNaming(states, steps, n, i);
      && last.Some? && last.value < n && v in db.versions && db.versions[v].installation == i
      && (db.versions[v].status == Active <==> !ComesTooLate(states[last.value], steps[last.value]))
      && var requested, granted := db.versions[v].manifest.requested, db.installations[i].granted;
         (requested <= granted <==> !LacksGrants(states[last.value], steps[last.value]))
  }

  lemma NamingStep(states: seq<State>, steps: seq<Step>, n: nat, i: nat)
    requires IsRun(states, steps) && n < |steps| && AllSound(states[n]) && NamedAsLastWritten(states, steps, n, i)
    ensures NamedAsLastWritten(states, steps, n + 1, i)
  {
    var s, step := states[n], steps[n];
    assert states[n + 1] == Next(s, step) && Possible(s, step);
    var db' := Next(s, step).db;
    if i in db'.installations && db'.installations[i].status != Removed && db'.installations[i].active.Some? {
      if Names(s, step, i) {
        NamingShows(s, step, i);
        NamingActivatesWhen(s, step, i);
      } else {
        NotNamingKeeps(s, step, i);
        RowsAreKept(s, step, i);
        var v := db'.installations[i].active.value;
        assert Sound(s, i);
        NotNamingKeepsStatus(s, step, i, v);
        RowsAreKept(s, step, v);
      }
    }
    hide IsRun, Next, Possible, Names, ComesTooLate, LacksGrants, AllSound, NamedBy, ActiveOk;
  }

  lemma {:induction false} NamedAsWritten(states: seq<State>, steps: seq<Step>, n: nat, i: nat)
    requires IsRun(states, steps) && n <= |steps|
    ensures NamedAsLastWritten(states, steps, n, i)
  {
    if n > 0 {
      NamedAsWritten(states, steps, n - 1, i);
      EveryRunIsSound(states, steps, n - 1);
      NamingStep(states, steps, n - 1, i);
    }
    hide NamedAsLastWritten, AllSound, Next, Possible;
  }

  /** The version that an installation names is active if and only if the step that last named
      it did not come too late, and all it requests is granted if and only if that step did not
      lack grants. Only the second statement of an update can do either. */
  lemma NamedVersionIsActiveWhen(states: seq<State>, steps: seq<Step>, n: nat, i: nat)
    requires IsRun(states, steps) && n <= |steps| && i in states[n].db.installations
    requires states[n].db.installations[i].status != Removed && states[n].db.installations[i].active.Some?
    ensures var db := states[n].db; var inst := db.installations[i]; var v := inst.active.value;
            var last := LastNaming(states, steps, n, i);
            && v in db.versions && db.versions[v].installation == i
            && inst.archive == db.versions[v].archive && inst.manifest == db.versions[v].manifest
            && last.Some? && last.value < n
            && (db.versions[v].status == Active <==> !ComesTooLate(states[last.value], steps[last.value]))
            && var requested := db.versions[v].manifest.requested;
               (requested <= inst.granted <==> !LacksGrants(states[last.value], steps[last.value]))
  {
    NamedAsWritten(states, steps, n, i);
    EveryRunIsSound(states, steps, n);
    assert Sound(states[n], i);
    hide IsRun, Possible, ComesTooLate, LacksGrants, LastNaming;
  }

  // ---- Removal ----

  /** The step inserts or activates the version. */
  ghost predicate Revives(s: State, step: Step, v: nat)
    requires Possible(s, step)
  {
    || (step.InsertInstallation? && step.v == v)
    || (step.InsertVersion? && step.v == v)
    || (step.ActivateVersion? && s.threads[step.t].v == v)
  }

  ghost predicate Revokes(s: State, step: Step, v: nat)
    requires Possible(s, step)
  {
    step.RevokeVersions? && v in s.db.versions && s.db.versions[v].installation == s.threads[step.t].i
  }

  /** Since versions of its installation were last revoked, the version was inserted or
      activated. */
  ghost predicate WasRevived(states: seq<State>, steps: seq<Step>, n: nat, v: nat)
    requires n <= |steps| < |states| && forall k :: 0 <= k < |steps| ==> Possible(states[k], steps[k])
  {
    n > 0 && (Revives(states[n - 1], steps[n - 1], v)
              || (!Revokes(states[n - 1], steps[n - 1], v) && WasRevived(states, steps, n - 1, v)))
  }

  lemma StatusStep(s: State, step: Step, v: nat)
    requires AllSound(s) && Possible(s, step) && v in Next(s, step).db.versions
    ensures Revives(s, step, v) ==> Next(s, step).db.versions[v].status != Revoked
    ensures !Revives(s, step, v) ==> v in s.db.versions
    ensures !Revives(s, step, v) ==>
              var status := Next(s, step).db.versions[v].status;
              (status == Revoked <==> Revokes(s, step, v) || s.db.versions[v].status == Revoked)
  {
    if step.ActivateVersion? {
      assert Sound(s, step.t);
    }
    hide ShownOk, ActiveOk, AllSound, NewGrant, Decided;
  }

  /** A version is not revoked if and only if it was revived. */
  lemma {:induction false} VersionIsNotRevokedWhen(states: seq<State>, steps: seq<Step>, n: nat, v: nat)
    requires IsRun(states, steps) && n <= |steps| && v in states[n].db.versions
    ensures states[n].db.versions[v].status != Revoked <==> WasRevived(states, steps, n, v)
  {
    if n > 0 {
      EveryRunIsSound(states, steps, n - 1);
      assert states[n] == Next(states[n - 1], steps[n - 1]) && Possible(states[n - 1], steps[n - 1]);
      StatusStep(states[n - 1], steps[n - 1], v);
      hide Next, Possible, AllSound, Revives, Revokes;
      if v in states[n - 1].db.versions {
        VersionIsNotRevokedWhen(states, steps, n - 1, v);
      }
    }
  }

  ghost predicate IsRunFrom(s: State, states: seq<State>, steps: seq<Step>) {
    && |states| == |steps| + 1 && states[0] == s
    && forall i :: 0 <= i < |steps| ==> Possible(states[i], steps[i]) && states[i + 1] == Next(states[i], steps[i])
  }

  /** The installation is removed, and all its versions are revoked. */
  ghost predicate IsGone(s: State, i: nat) {
    && i in s.db.installations && s.db.installations[i].status == Removed
    && forall v :: v in s.db.versions && s.db.versions[v].installation == i ==> s.db.versions[v].status == Revoked
  }

  /** A handler has read the installation or one of its versions, and has still to insert or to
      activate a version of it. */
  predicate Awaits(th: Thread, i: nat) {
    match th
    case Adding(j, _, _) => j == i
    case Activating(j, _, _) => j == i
    case _ => false
  }

  ghost predicate IsAwaited(s: State, i: nat) {
    exists t :: t in s.threads && Awaits(s.threads[t], i)
  }

  lemma GoneVersionStep(s: State, step: Step, i: nat, v: nat)
    requires AllSound(s) && Possible(s, step) && IsGone(s, i) && !IsAwaited(s, i)
    requires v in Next(s, step).db.versions && Next(s, step).db.versions[v].installation == i
    ensures Next(s, step).db.versions[v].status == Revoked
  {
    if step.InsertVersion? || step.ActivateVersion? {
      assert !Awaits(s.threads[step.t], i);
      assert Sound(s, step.t);
    }
    hide ShownOk, ActiveOk, AllSound, NewGrant, Decided;
  }

  /** Nothing is read from a removed installation whose versions are all revoked. */
  lemma GoneThreadStep(s: State, step: Step, i: nat, t: nat)
    requires AllSound(s) && Possible(s, step) && IsGone(s, i) && !IsAwaited(s, i)
    requires t in Next(s, step).threads
    ensures !Awaits(Next(s, step).threads[t], i)
  {
    if t in s.threads && Next(s, step).threads[t] == s.threads[t] {
      assert !Awaits(s.threads[t], i);
    }
    hide ShownOk, ActiveOk, AllSound, NewGrant, Decided, Superseding, Revoking;
  }

  lemma GoneStep(s: State, step: Step, i: nat)
    requires AllSound(s) && Possible(s, step) && IsGone(s, i) && !IsAwaited(s, i)
    ensures IsGone(Next(s, step), i) && !IsAwaited(Next(s, step), i)
  {
    RowsAreKept(s, step, i);
    var next := Next(s, step);
    forall v | v in next.db.versions && next.db.versions[v].installation == i
      ensures next.db.versions[v].status == Revoked
    {
      GoneVersionStep(s, step, i, v);
    }
    forall t | t in next.threads
      ensures !Awaits(next.threads[t], i)
    {
      GoneThreadStep(s, step, i, t);
    }
    hide Next, Possible, AllSound;
  }

  lemma {:induction false} GoneRun(s: State, states: seq<State>, steps: seq<Step>, n: nat, i: nat)
    requires AllSound(s) && IsRunFrom(s, states, steps) && n <= |steps| && IsGone(s, i) && !IsAwaited(s, i)
    ensures AllSound(states[n]) && IsGone(states[n], i) && !IsAwaited(states[n], i)
  {
    hide Next, Possible, AllSound, IsGone, IsAwaited;
    if n > 0 {
      GoneRun(s, states, steps, n - 1, i);
      GoneStep(states[n - 1], steps[n - 1], i);
      StepKeepsSound(states[n - 1], steps[n - 1]);
    }
  }

  /** A handler that waits to insert or activate a version brings it back at once. */
  lemma AwaitedComesBack(s: State, i: nat) returns (step: Step)
    requires AllSound(s) && IsGone(s, i) && IsAwaited(s, i)
    ensures Possible(s, step) && !IsGone(Next(s, step), i)
  {
    var t :| t in s.threads && Awaits(s.threads[t], i);
    assert Sound(s, t);
    if s.threads[t].Adding? {
      var v := BoundExists(s.db.versions.Keys + s.shown.Keys);
      assert v !in s.db.versions.Keys + s.shown.Keys;
      step := InsertVersion(t, v);
      assert v in Next(s, step).db.versions && Next(s, step).db.versions[v].status != Revoked;
    } else {
      step := ActivateVersion(t);
      var v := s.threads[t].v;
      assert v in Next(s, step).db.versions && Next(s, step).db.versions[v].status != Revoked;
    }
    hide ShownOk, ActiveOk, AllSound, Superseding;
  }

  /** A removed installation keeps all its versions revoked, whatever handlers do from then on,
      if and only if no handler under way waits to insert or to activate one of them. */
  lemma RemovedStaysGoneWhen(s: State, i: nat)
    requires AllSound(s) && IsGone(s, i)
    ensures (forall states, steps :: IsRunFrom(s, states, steps) ==> IsGone(states[|steps|], i)) <==> !IsAwaited(s, i)
  {
    if IsAwaited(s, i) {
      var step := AwaitedComesBack(s, i);
      assert IsRunFrom(s, [s, Next(s, step)], [step]);
    } else {
      forall states, steps | IsRunFrom(s, states, steps)
        ensures IsGone(states[|steps|], i)
      {
        GoneRun(s, states, steps, |steps|, i);
      }
    }
    hide Next, Possible, AllSound, IsGone, IsAwaited;
  }
}
