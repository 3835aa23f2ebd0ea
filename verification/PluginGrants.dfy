/** Where the capabilities of a plugin come from, when the single statements of all handlers
    interleave and any handler may stop between two of them. */
module PluginGrants {
  import opened Common
  import opened Approvals
  import opened Plugins

  /** What a handler under way has read, and the statement it comes to next. */
  datatype Thread =
    | Adding(i: nat, granted: set<string>, ins: Inspection)
    | Switching(i: nat, v: nat, ver: Version)
    | Asking(i: nat, v: nat, added: set<string>)
    | Applying(a: nat)
    | Activating(i: nat, v: nat, ver: Version)
    | Clearing(i: nat)
    | Done

  /** `shown` is history: the capabilities found to be missing when a version was inserted. */
  datatype State = State(db: Db, threads: map<nat, Thread>, shown: map<nat, set<string>>)

  const INITIAL := State(Db(map[], map[], map[]), map[], map[])

  datatype Step =
    | InsertInstallation(t: nat, ins: Inspection, i: nat, v: nat, key: string)
    | ReadInstallation(t: nat, i: nat, ins: Inspection)
    | InsertVersion(t: nat, v: nat)
    | SwitchVersion(t: nat)
    | InsertGrant(t: nat, a: nat, principal: string, text: string, now: int)
    | UpdateGrant(t: nat, a: nat, decision: Decision, key: string)
    | ReadWaiting(t: nat)
    | ReadTarget(t: nat, i: nat, v: nat)
    | ActivateVersion(t: nat)
    | SetStatus(i: nat, enabled: bool)
    | MarkRemoved(t: nat, i: nat)
    | RevokeVersions(t: nat)

  predicate Possible(s: State, step: Step) {
    match step
    case InsertInstallation(t, _, i, v, _) =>
      t !in s.threads && i !in s.db.installations && v !in s.db.versions && v !in s.shown
    case ReadInstallation(t, i, ins) =>
      t !in s.threads && i in s.db.installations && s.db.installations[i].status != Removed
    case InsertVersion(t, v) => t in s.threads && s.threads[t].Adding? && v !in s.db.versions && v !in s.shown
    case SwitchVersion(t) => t in s.threads && s.threads[t].Switching?
    case InsertGrant(t, a, _, _, _) => t in s.threads && s.threads[t].Asking? && a !in s.db.grants
    case UpdateGrant(t, a, _, _) =>
      t !in s.threads && a in s.db.grants && s.db.grants[a].approval.status == Pending
    case ReadWaiting(t) =>
      t in s.threads && s.threads[t].Applying? && Grants(s.db, s.threads[t].a, Approve)
    case ReadTarget(t, i, v) => t !in s.threads && CanRollBack(s.db, i, v)
    case ActivateVersion(t) => t in s.threads && s.threads[t].Activating?
    case SetStatus(i, _) => i in s.db.installations
    case MarkRemoved(t, i) => t !in s.threads && i in s.db.installations
    case RevokeVersions(t) => t in s.threads && s.threads[t].Clearing?
  }

  function After(s: State, t: nat, thread: Thread, db: Db): State {
    s.(threads := s.threads[t := thread], db := db)
  }

  function Next(s: State, step: Step): State
    requires Possible(s, step)
  {
    var db := s.db;
    match step
    case InsertInstallation(t, ins, i, v, key) =>
      var added := ins.manifest.requested;
      After(s, t, if added == {} then Done else Asking(i, v, added), Installed(db, ins, i, v, key))
      .(shown := s.shown[v := added])
    case ReadInstallation(t, i, ins) => After(s, t, Adding(i, db.installations[i].granted, ins), db)
    case InsertVersion(t, v) =>
      var Adding(i, granted, ins) := s.threads[t];
      var added := ins.manifest.requested - granted;
      var ver := Version(i, ins.archive, ins.manifest, if added == {} then Active else AwaitingApproval);
      After(s, t, if added == {} then Switching(i, v, ver) else Asking(i, v, added),
            db.(versions := db.versions[v := ver]))
      .(shown := s.shown[v := added])
    case SwitchVersion(t) =>
      var Switching(i, v, ver) := s.threads[t];
      After(s, t, Done, Switched(db, i, v, ver))
    case InsertGrant(t, a, principal, text, now) =>
      var Asking(i, v, added) := s.threads[t];
      After(s, t, Done, WithGrant(db, a, NewGrant(principal, text, i, v, added, now)))
    case UpdateGrant(t, a, decision, key) =>
      var g := db.grants[a];
      After(s, t, if decision == Approve then Applying(a) else Done,
            WithGrant(db, a, g.(approval := Decided(g.approval, decision, key))))
    case ReadWaiting(t) =>
      var g := db.grants[s.threads[t].a];
      After(s, t, Activating(g.installation, g.version, db.versions[g.version]), db)
    case ReadTarget(t, i, v) => After(s, t, Activating(i, v, db.versions[v]), db)
    case ActivateVersion(t) =>
      var Activating(i, v, ver) := s.threads[t];
      After(s, t, Done, Activated(db, i, v, ver))
    case SetStatus(i, enabled) => s.(db := Enabling(db, i, enabled))
    case MarkRemoved(t, i) =>
      After(s, t, Clearing(i),
            db.(installations := db.installations[i := db.installations[i].(status := Removed)]))
    case RevokeVersions(t) =>
      After(s, t, Done, db.(versions := Revoking(db.versions, s.threads[t].i)))
  }

  // ---- The invariant ----

  /** The owner accepted an approval of this installation that shows the capability. */
  ghost predicate WasAccepted(db: Db, i: nat, capability: string) {
    exists a :: a in db.grants && db.grants[a].approval.status == Approved
                && db.grants[a].installation == i && capability in db.grants[a].added
  }

  ghost predicate AllAccepted(db: Db, i: nat, capabilities: set<string>) {
    forall c :: c in capabilities ==> WasAccepted(db, i, c)
  }

  ghost predicate InstallationOk(s: State, i: nat) {
    i in s.db.installations ==> AllAccepted(s.db, i, s.db.installations[i].granted)
  }

  /** A version requests what was accepted, and while it waits also what was shown for it. */
  ghost predicate VersionOk(s: State, v: nat) {
    v in s.db.versions ==>
      var ver := s.db.versions[v];
      && v in s.shown
      && match ver.status
         case Active | Superseded => AllAccepted(s.db, ver.installation, ver.manifest.requested)
         case AwaitingApproval => AllAccepted(s.db, ver.installation, ver.manifest.requested - s.shown[v])
         case Revoked => true
  }

  /** An approval shows what was found to be missing for its version. */
  ghost predicate GrantOk(s: State, a: nat) {
    a in s.db.grants ==>
      var g := s.db.grants[a];
      && g.version in s.db.versions && s.db.versions[g.version].installation == g.installation
      && g.version in s.shown && g.added == s.shown[g.version]
  }

  ghost predicate ThreadOk(s: State, t: nat) {
    t in s.threads ==>
      match s.threads[t]
      case Adding(i, granted, _) => AllAccepted(s.db, i, granted)
      case Asking(i, v, added) =>
        v in s.db.versions && s.db.versions[v].installation == i && v in s.shown && added == s.shown[v]
      case Applying(a) => a in s.db.grants && s.db.grants[a].approval.status == Approved
      case Activating(i, v, ver) =>
        && AllAccepted(s.db, i, ver.manifest.requested)
        && v in s.db.versions && s.db.versions[v].installation == i && s.db.versions[v].manifest == ver.manifest
      case _ => true
  }

  ghost predicate Ok(s: State, k: nat) {
    InstallationOk(s, k) && VersionOk(s, k) && GrantOk(s, k) && ThreadOk(s, k)
  }

  ghost predicate Invariant(s: State) {
    forall k: nat :: Ok(s, k)
  }

  // ---- Every step keeps it ----

  lemma AcceptedStays(s: State, step: Step, i: nat, capabilities: set<string>)
    requires Possible(s, step) && AllAccepted(s.db, i, capabilities)
    ensures AllAccepted(Next(s, step).db, i, capabilities)
  {
    var db' := Next(s, step).db;
    forall c | c in capabilities
      ensures WasAccepted(db', i, c)
    {
      var a :| a in s.db.grants && s.db.grants[a].approval.status == Approved
               && s.db.grants[a].installation == i && c in s.db.grants[a].added;
      assert a in db'.grants && db'.grants[a] == s.db.grants[a];
    }
  }

  /** With an accepted approval, all that its version requests was accepted. */
  lemma AcceptedGrantCovers(s: State, a: nat)
    requires Invariant(s) && Grants(s.db, a, Approve) && s.db.grants[a].approval.status == Approved
    ensures var g := s.db.grants[a]; AllAccepted(s.db, g.installation, s.db.versions[g.version].manifest.requested)
  {
    var g := s.db.grants[a];
    assert Ok(s, a) && Ok(s, g.version);
    var requested, missing := s.db.versions[g.version].manifest.requested, s.shown[g.version];
    forall c | c in requested
      ensures WasAccepted(s.db, g.installation, c)
    {
      assert c in missing || c in requested - missing;
    }
  }

  lemma InstallationStep(s: State, step: Step, i: nat)
    requires Invariant(s) && Possible(s, step)
    ensures InstallationOk(Next(s, step), i)
  {
    assert Ok(s, i);
    if i in s.db.installations {
      AcceptedStays(s, step, i, s.db.installations[i].granted);
    }
    if step.ActivateVersion? {
      assert Ok(s, step.t);
      var th := s.threads[step.t];
      AcceptedStays(s, step, th.i, th.ver.manifest.requested);
    }
    hide AllAccepted, Superseding, Revoking, NewGrant;
    if step.InsertInstallation? {
      AllOfNone(Next(s, step).db, i);
    }
  }

  lemma AllOfNone(db: Db, i: nat)
    ensures AllAccepted(db, i, {})
  {}

  /** What must have been accepted for a version in its present status. */
  ghost function Needed(s: State, v: nat): set<string>
    requires v in s.db.versions && v in s.shown
  {
    var ver := s.db.versions[v];
    match ver.status
    case Active | Superseded => ver.manifest.requested
    case AwaitingApproval => ver.manifest.requested - s.shown[v]
    case Revoked => {}
  }

  lemma NewVersionStep(s: State, step: Step)
    requires Invariant(s) && Possible(s, step) && step.InsertVersion?
    ensures VersionOk(Next(s, step), step.v)
  {
    assert Ok(s, step.t);
    var Adding(i, granted, ins) := s.threads[step.t];
    AcceptedStays(s, step, i, granted);
    var requested := ins.manifest.requested;
    forall c | c in requested - (requested - granted)
      ensures c in granted
    {}
    assert requested - granted == {} ==> requested - (requested - granted) == requested;
  }

  lemma OldVersionStep(s: State, step: Step, v: nat)
    requires Invariant(s) && Possible(s, step) && v in s.db.versions
    ensures VersionOk(Next(s, step), v)
  {
    assert Ok(s, v);
    AcceptedStays(s, step, s.db.versions[v].installation, Needed(s, v));
    if step.ActivateVersion? {
      assert Ok(s, step.t);
      AcceptedStays(s, step, s.threads[step.t].i, s.threads[step.t].ver.manifest.requested);
    }
    hide AllAccepted, NewGrant, Decided;
  }

  lemma FirstVersionStep(s: State, step: Step)
    requires Invariant(s) && Possible(s, step) && step.InsertInstallation?
    ensures VersionOk(Next(s, step), step.v)
  {
    AllOfNone(Next(s, step).db, step.i);
    var requested := step.ins.manifest.requested;
    assert requested - requested == {};
  }

  lemma VersionStep(s: State, step: Step, v: nat)
    requires Invariant(s) && Possible(s, step)
    ensures VersionOk(Next(s, step), v)
  {
    var next := Next(s, step);
    if v in s.db.versions {
      OldVersionStep(s, step, v);
    } else if step.InsertVersion? {
      NewVersionStep(s, step);
    } else if step.InsertInstallation? {
      FirstVersionStep(s, step);
    }
    hide AllAccepted, NewGrant, Decided, Invariant;
  }

  lemma GrantStep(s: State, step: Step, a: nat)
    requires Invariant(s) && Possible(s, step)
    ensures GrantOk(Next(s, step), a)
  {
    assert Ok(s, a);
    if step.InsertGrant? {
      assert Ok(s, step.t);
    }
  }

  /** What a handler relies on having been accepted. */
  ghost function Relied(th: Thread): (nat, set<string>) {
    match th
    case Adding(i, granted, _) => (i, granted)
    case Activating(i, _, ver) => (i, ver.manifest.requested)
    case _ => (0, {})
  }

  lemma OldThreadStep(s: State, step: Step, t: nat)
    requires Invariant(s) && Possible(s, step) && t in s.threads && t in Next(s, step).threads
    requires Next(s, step).threads[t] == s.threads[t]
    ensures ThreadOk(Next(s, step), t)
  {
    assert Ok(s, t);
    AcceptedStays(s, step, Relied(s.threads[t]).0, Relied(s.threads[t]).1);
    hide AllAccepted, NewGrant;
  }

  lemma NewThreadStep(s: State, step: Step, t: nat)
    requires Invariant(s) && Possible(s, step) && t in Next(s, step).threads
    requires t !in s.threads || Next(s, step).threads[t] != s.threads[t]
    ensures ThreadOk(Next(s, step), t)
  {
    assert t == step.t;
    match step
    case ReadInstallation(_, i, _) => assert Ok(s, i);
    case ReadWaiting(_) =>
      assert Ok(s, t) && Ok(s, s.threads[t].a);
      AcceptedGrantCovers(s, s.threads[t].a);
    case ReadTarget(_, _, v) => assert Ok(s, v);
    case _ =>
    hide AllAccepted, NewGrant;
  }

  lemma StepKeeps(s: State, step: Step)
    requires Invariant(s) && Possible(s, step)
    ensures Invariant(Next(s, step))
  {
    var next := Next(s, step);
    forall k: nat
      ensures Ok(next, k)
    {
      InstallationStep(s, step, k);
      VersionStep(s, step, k);
      GrantStep(s, step, k);
      if k in next.threads {
        if k in s.threads && next.threads[k] == s.threads[k] {
          OldThreadStep(s, step, k);
        } else {
          NewThreadStep(s, step, k);
        }
      }
      hide Next, Possible, Invariant, InstallationOk, VersionOk, GrantOk;
    }
  }

  ghost predicate IsRun(states: seq<State>, steps: seq<Step>) {
    && |states| == |steps| + 1 && states[0] == INITIAL
    && forall i :: 0 <= i < |steps| ==> Possible(states[i], steps[i]) && states[i + 1] == Next(states[i], steps[i])
  }

  lemma {:induction false} EveryRunIsSafe(states: seq<State>, steps: seq<Step>, n: nat)
    requires IsRun(states, steps) && n <= |steps|
    ensures Invariant(states[n])
  {
    if n > 0 {
      EveryRunIsSafe(states, steps, n - 1);
      hide Invariant, Next, Possible;
      StepKeeps(states[n - 1], steps[n - 1]);
    }
  }

  // ---- The main results ----

  /** However handlers interleave and wherever they stop, every capability that an installation
      holds was shown in an approval for that installation which the owner accepted. */
  lemma EveryGrantWasAccepted(states: seq<State>, steps: seq<Step>, n: nat, i: nat, capability: string)
    requires IsRun(states, steps) && n <= |steps|
    requires i in states[n].db.installations && capability in states[n].db.installations[i].granted
    ensures exists a :: a in states[n].db.grants && states[n].db.grants[a].approval.status == Approved
                        && states[n].db.grants[a].installation == i && capability in states[n].db.grants[a].added
  {
    EveryRunIsSafe(states, steps, n);
    assert Ok(states[n], i);
    assert WasAccepted(states[n].db, i, capability);
  }
}
