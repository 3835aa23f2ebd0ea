/** What every run of plugin operations keeps when handlers do not overlap: each handler is one
    step. The module PluginOverlap says what is left of it when they do. */
module PluginSafety {
  import opened Common
  import opened Approvals
  import opened Plugins

  // ---- The invariant ----

  /** An active version is the one its installation names and shows, with all it requests
      granted; the versions of a removed installation are revoked, and no others are. */
  ghost predicate VersionOk(db: Db, v: nat) {
    v in db.versions ==>
      var ver := db.versions[v];
      && ver.installation in db.installations
      && var inst := db.installations[ver.installation];
         && ver.manifest.plugin == inst.manifest.plugin
         && (inst.status == Removed <==> ver.status == Revoked)
         && (ver.status == Active ==>
               inst.active == Some(v) && inst.archive == ver.archive && inst.manifest == ver.manifest
               && ver.manifest.requested <= inst.granted)
  }

  ghost predicate InstallationOk(db: Db, i: nat) {
    i in db.installations && db.installations[i].status != Removed && db.installations[i].active.Some? ==>
      var v := db.installations[i].active.value;
      v in db.versions && db.versions[v].installation == i && db.versions[v].status == Active
  }

  ghost predicate Ok(db: Db, k: nat) {
    VersionOk(db, k) && InstallationOk(db, k)
  }

  ghost predicate Invariant(db: Db) {
    forall k: nat :: Ok(db, k)
  }

  // ---- Operations ----

  datatype Op =
    | Install(ins: Inspection, i: nat, v: nat, key: string)
    | AddVersion(ins: Inspection, i: nat, v: nat)
    | AskApproval(a: nat, grant: Grant)
    | Decide(a: nat, decision: Decision, key: string)
    | Rollback(i: nat, v: nat)
    | Enable(i: nat, enabled: bool)
    | Remove(i: nat)

  /** The cases in which a handler writes. Asking for an approval is a write of its own, which
      comes after the version's. */
  predicate Legal(db: Db, op: Op) {
    match op
    case Install(_, i, v, _) => i !in db.installations && v !in db.versions
    case AddVersion(ins, i, v) =>
      && v !in db.versions && i in db.installations && db.installations[i].status != Removed
      && ins.manifest.plugin == db.installations[i].manifest.plugin
    case AskApproval(a, grant) => a !in db.grants
    case Decide(a, _, _) => a in db.grants && db.grants[a].approval.status == Pending
    case Rollback(i, v) => CanRollBack(db, i, v)
    case Enable(i, _) => i in db.installations
    case Remove(i) => i in db.installations
  }

  function Step(db: Db, op: Op): Db
    requires Legal(db, op)
  {
    match op
    case Install(ins, i, v, key) => Installed(db, ins, i, v, key)
    case AddVersion(ins, i, v) => Added(db, ins, i, v)
    case AskApproval(a, grant) => WithGrant(db, a, grant)
    case Decide(a, decision, key) => DecidedGrant(db, a, decision, key)
    case Rollback(i, v) => RolledBack(db, i, v)
    case Enable(i, enabled) => Enabling(db, i, enabled)
    case Remove(i) => Removing(db, i)
  }

  // ---- Every operation keeps it ----

  lemma ActivationKeeps(db: Db, i: nat, v: nat, k: nat)
    requires Invariant(db) && v in db.versions && db.versions[v].installation == i
    requires db.versions[v].status != Revoked
    ensures Ok(Activated(db, i, v, db.versions[v]), k)
  {
    assert Ok(db, k) && Ok(db, v);
  }

  lemma NothingMissing<T>(a: set<T>, b: set<T>)
    ensures a - b == {} <==> a <= b
  {
    if a - b == {} {
      forall x | x in a
        ensures x in b
      {
        assert x in a - b || x in b;
      }
    }
  }

  lemma InstallKeeps(db: Db, ins: Inspection, i: nat, v: nat, key: string, k: nat)
    requires Invariant(db) && i !in db.installations && v !in db.versions
    ensures Ok(Installed(db, ins, i, v, key), k)
  {
    assert Ok(db, k);
  }

  lemma AddKeeps(db: Db, ins: Inspection, i: nat, v: nat, k: nat)
    requires Invariant(db) && v !in db.versions && i in db.installations && db.installations[i].status != Removed
    requires ins.manifest.plugin == db.installations[i].manifest.plugin
    ensures Ok(Added(db, ins, i, v), k)
  {
    NothingMissing(ins.manifest.requested, db.installations[i].granted);
    assert Ok(db, k);
  }

  lemma StatusKeeps(db: Db, i: nat, enabled: bool, k: nat)
    requires Invariant(db) && i in db.installations
    ensures Ok(Enabling(db, i, enabled), k) && Ok(Removing(db, i), k)
  {
    assert Ok(db, k);
  }

  lemma GrantsDoNotMatter(db: Db, a: nat, grant: Grant, k: nat)
    requires Ok(db, k)
    ensures Ok(WithGrant(db, a, grant), k)
  {}

  lemma StepKeeps(db: Db, op: Op)
    requires Invariant(db) && Legal(db, op)
    ensures Invariant(Step(db, op))
  {
    var next := Step(db, op);
    forall k: nat
      ensures Ok(next, k)
    {
      assert Ok(db, k);
      match op
      case Install(ins, i, v, key) => InstallKeeps(db, ins, i, v, key, k);
      case AddVersion(ins, i, v) => AddKeeps(db, ins, i, v, k);
      case AskApproval(a, grant) => GrantsDoNotMatter(db, a, grant, k);
      case Decide(a, decision, key) =>
        var g := db.grants[a];
        if Grants(db, a, decision) {
          ActivationKeeps(db, g.installation, g.version, k);
          GrantsDoNotMatter(Activated(db, g.installation, g.version, db.versions[g.version]), a, next.grants[a], k);
        } else {
          GrantsDoNotMatter(db, a, next.grants[a], k);
        }
      case Rollback(i, v) => ActivationKeeps(db, i, v, k);
      case Enable(i, enabled) => StatusKeeps(db, i, enabled, k);
      case Remove(i) => StatusKeeps(db, i, true, k);
      hide Ok, Activated;
    }
  }

  ghost predicate IsRun(states: seq<Db>, ops: seq<Op>) {
    && |states| == |ops| + 1 && states[0] == Db(map[], map[], map[])
    && forall i :: 0 <= i < |ops| ==> Legal(states[i], ops[i]) && states[i + 1] == Step(states[i], ops[i])
  }

  lemma {:induction false} EveryRunIsSafe(states: seq<Db>, ops: seq<Op>, n: nat)
    requires IsRun(states, ops) && n <= |ops|
    ensures Invariant(states[n])
  {
    if n > 0 {
      EveryRunIsSafe(states, ops, n - 1);
      hide Invariant, Step, Legal;
      StepKeeps(states[n - 1], ops[n - 1]);
    }
  }

  // ---- The main results ----

  /** In every reachable state an installation that is not removed has at most one active
      version. There is one exactly when the installation names one, and it is that one. */
  lemma ActiveVersionIsTheNamedOne(states: seq<Db>, ops: seq<Op>, n: nat, v: nat)
    requires IsRun(states, ops) && n <= |ops| && v in states[n].versions
    ensures var ver := states[n].versions[v];
            && ver.installation in states[n].installations
            && var inst := states[n].installations[ver.installation];
               inst.status != Removed ==> (ver.status == Active <==> inst.active == Some(v))
  {
    EveryRunIsSafe(states, ops, n);
    assert Ok(states[n], v) && Ok(states[n], states[n].versions[v].installation);
  }

  /** The active version is what the installation shows, and all it requests is granted. */
  lemma ActiveVersionIsShownAndGranted(states: seq<Db>, ops: seq<Op>, n: nat, i: nat)
    requires IsRun(states, ops) && n <= |ops| && i in states[n].installations
    requires states[n].installations[i].status != Removed && states[n].installations[i].active.Some?
    ensures var inst := states[n].installations[i]; var v := inst.active.value;
            && v in states[n].versions && states[n].versions[v].installation == i
            && inst.archive == states[n].versions[v].archive && inst.manifest == states[n].versions[v].manifest
            && inst.manifest.requested <= inst.granted
  {
    EveryRunIsSafe(states, ops, n);
    assert Ok(states[n], i) && Ok(states[n], states[n].installations[i].active.value);
  }

  /** A removed installation stays removed with the grants it had, and all its versions are
      revoked, also those that are added or approved later. */
  lemma {:induction false} RemovedIsForever(states: seq<Db>, ops: seq<Op>, n: nat, m: nat, i: nat)
    requires IsRun(states, ops) && n <= m <= |ops|
    requires i in states[n].installations && states[n].installations[i].status == Removed
    ensures i in states[m].installations && states[m].installations[i] == states[n].installations[i]
    ensures forall v :: v in states[m].versions && states[m].versions[v].installation == i ==>
                          states[m].versions[v].status == Revoked
    decreases m
  {
    if n < m {
      RemovedIsForever(states, ops, n, m - 1, i);
      EveryRunIsSafe(states, ops, m - 1);
      assert states[m] == Step(states[m - 1], ops[m - 1]);
      StepKeepsRemoved(states[m - 1], ops[m - 1], i);
    }
    EveryRunIsSafe(states, ops, m);
    hide Step, Legal;
    forall v | v in states[m].versions && states[m].versions[v].installation == i
      ensures states[m].versions[v].status == Revoked
    {
      assert Ok(states[m], v);
    }
  }

  lemma StepKeepsRemoved(db: Db, op: Op, i: nat)
    requires Invariant(db) && Legal(db, op) && i in db.installations && db.installations[i].status == Removed
    ensures i in Step(db, op).installations && Step(db, op).installations[i] == db.installations[i]
  {}

  // ---- Grants ----

  /** An approval or a rollback leaves exactly the capabilities that the version requests. */
  lemma ActivationGrantsExactly(db: Db, i: nat, v: nat)
    requires Invariant(db) && v in db.versions && db.versions[v].installation == i
    requires db.versions[v].status in {AwaitingApproval, Active, Superseded}
    ensures var db' := Activated(db, i, v, db.versions[v]);
            && i in db'.installations && db'.installations[i].granted == db.versions[v].manifest.requested
            && db'.installations[i].status == Enabled
            && forall w :: w in db'.versions && db'.versions[w].installation == i ==>
                             (db'.versions[w].status == Active <==> w == v)
  {
    assert Ok(db, v);
  }
}
