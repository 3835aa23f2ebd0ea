/** Runs of plugin handlers that overlap or stop. */
module PluginRuns {
  import opened Approvals
  import opened Common
  import opened PluginGrants
  import opened Plugins
  import PluginOverlap

  ghost predicate IsReachable(s: State) {
    exists states, steps :: IsRun(states, steps) && states[|steps|] == s
  }

  predicate AllFinished(s: State) {
    forall t :: t in s.threads ==> s.threads[t].Done?
  }

  lemma Start()
    ensures IsReachable(INITIAL)
  {
    assert IsRun([INITIAL], []);
  }

  lemma Go(s: State, step: Step) returns (next: State)
    requires IsReachable(s) && Possible(s, step)
    ensures next == Next(s, step) && IsReachable(next)
  {
    next := Next(s, step);
    var states, steps :| IsRun(states, steps) && states[|steps|] == s;
    hide Next, Possible;
    assert IsRun(states + [next], steps + [step]);
  }

  function ManifestOf(version: string, requested: set<string>): Manifest {
    Manifest("p", version, requested)
  }

  function Archive(version: string, requested: set<string>): Inspection {
    Inspection(version, ManifestOf(version, requested), 0)
  }

  /** A row of a version of installation 0. */
  function Row(version: string, requested: set<string>, status: VersionStatus): Version {
    Version(0, version, ManifestOf(version, requested), status)
  }

  /** Installation 0, with what it shows, names and holds. */
  function Home(version: string, requested: set<string>, active: nat, held: set<string>): Installation {
    Installation(version, ManifestOf(version, requested), held, Enabled, Some(active), "k")
  }

  /** What superseding makes of rows that are written out. */
  lemma SupersedingIs(versions: map<nat, Version>, i: nat, keep: Option<nat>, after: map<nat, Version>)
    requires after.Keys == versions.Keys
    requires forall v :: v in versions ==>
               after[v] == if versions[v].installation == i && versions[v].status == Active && keep != Some(v)
                           then versions[v].(status := Superseded) else versions[v]
    ensures Superseding(versions, i, keep) == after
  {}

  /** The first version of installation 0 requests nothing, so it is active at once. */
  lemma FirstInstalled() returns (s: State)
    ensures IsReachable(s)
    ensures s == State(Db(map[0 := Home("0", {}, 0, {})], map[0 := Row("0", {}, Active)], map[]),
                       map[0 := Done], map[0 := {}])
  {
    Start();
    s := Go(INITIAL, InsertInstallation(0, Archive("0", {}), 0, 0, "k"));
  }

  /** A rollback that has read its target when a removal comes. */
  lemma RemovalStarted() returns (s: State)
    ensures IsReachable(s)
    ensures s == State(Db(map[0 := Home("0", {}, 0, {}).(status := Removed)], map[0 := Row("0", {}, Active)], map[]),
                       map[0 := Done, 1 := Activating(0, 0, Row("0", {}, Active)), 2 := Clearing(0)], map[0 := {}])
  {
    s := FirstInstalled();
    s := Go(s, ReadTarget(1, 0, 0));
    s := Go(s, MarkRemoved(2, 0));
  }

  /** A rollback that reads its target before a removal and activates it afterwards leaves an
      active version on a removed installation, with every handler finished. */
  lemma RemovalDuringRollback() returns (s: State)
    ensures IsReachable(s) && AllFinished(s)
    ensures s.db.installations.Keys == {0} && s.db.installations[0].status == Removed
    ensures 0 in s.db.versions && s.db.versions[0].installation == 0 && s.db.versions[0].status == Active
  {
    s := RemovalStarted();
    hide IsReachable;
    s := Go(s, RevokeVersions(2));
    s := Go(s, ActivateVersion(1));
  }

  /** Two updates that have both read the installation and inserted an active version. */
  lemma TwoInserted() returns (s: State)
    ensures IsReachable(s)
    ensures s == State(Db(map[0 := Home("0", {}, 0, {})],
                          map[0 := Row("0", {}, Active), 1 := Row("1", {}, Active), 2 := Row("2", {}, Active)], map[]),
                       map[0 := Done, 1 := Switching(0, 1, Row("1", {}, Active)),
                           2 := Switching(0, 2, Row("2", {}, Active))],
                       map[0 := {}, 1 := {}, 2 := {}])
  {
    s := FirstInstalled();
    s := Go(s, ReadInstallation(1, 0, Archive("1", {})));
    s := Go(s, ReadInstallation(2, 0, Archive("2", {})));
    s := Go(s, InsertVersion(1, 1));
    s := Go(s, InsertVersion(2, 2));
  }

  /** The first one has switched. */
  lemma OneSwitched() returns (s: State)
    ensures IsReachable(s)
    ensures s == State(Db(map[0 := Home("1", {}, 1, {})],
                          map[0 := Row("0", {}, Superseded), 1 := Row("1", {}, Active), 2 := Row("2", {}, Superseded)],
                          map[]),
                       map[0 := Done, 1 := Done, 2 := Switching(0, 2, Row("2", {}, Active))],
                       map[0 := {}, 1 := {}, 2 := {}])
  {
    s := TwoInserted();
    SupersedingIs(s.db.versions, 0, Some(1),
                  map[0 := Row("0", {}, Superseded), 1 := Row("1", {}, Active), 2 := Row("2", {}, Superseded)]);
    hide Superseding, IsReachable;
    s := Go(s, SwitchVersion(1));
  }

  /** Two updates without new capabilities that overlap leave an installation which names a
      superseded version and has no active one, with every handler finished. */
  lemma UpdatesDuringEachOther() returns (s: State)
    ensures IsReachable(s) && AllFinished(s)
    ensures s.db.installations.Keys == {0} && s.db.installations[0].status == Enabled
    ensures s.db.installations[0].active == Some(2) && 2 in s.db.versions && s.db.versions[2].status == Superseded
    ensures forall v :: v in s.db.versions ==> s.db.versions[v].installation == 0 && s.db.versions[v].status != Active
  {
    s := OneSwitched();
    hide IsReachable;
    s := Go(s, SwitchVersion(2));
  }

  /** An update that stops between its two writes leaves two active versions. */
  lemma StoppedUpdate() returns (s: State)
    ensures IsReachable(s) && s.db.installations.Keys == {0} && s.db.installations[0].status == Enabled
    ensures s.db.versions.Keys == {0, 1}
    ensures forall v :: v in s.db.versions ==> s.db.versions[v].installation == 0 && s.db.versions[v].status == Active
  {
    s := FirstInstalled();
    s := Go(s, ReadInstallation(1, 0, Archive("1", {})));
    s := Go(s, InsertVersion(1, 1));
  }

  // ---- An approval that adds what it does not show ----

  /** Version 1 asks for one capability. */
  lemma FirstAsked() returns (s: State)
    ensures IsReachable(s) && s.threads.Keys == {0, 1} && s.shown.Keys == {0, 1}
    ensures s.db == Db(map[0 := Home("0", {}, 0, {})],
                       map[0 := Row("0", {}, Active), 1 := Row("1", {"a"}, AwaitingApproval)],
                       map[0 := NewGrant("o", "", 0, 1, {"a"}, 0)])
  {
    s := FirstInstalled();
    s := Go(s, ReadInstallation(1, 0, Archive("1", {"a"})));
    assert {"a"} - {} == {"a"};
    s := Go(s, InsertVersion(1, 1));
    assert s.threads[1] == Asking(0, 1, {"a"});
    s := Go(s, InsertGrant(1, 0, "o", "", 0));
  }

  /** It is approved, and about to be activated. */
  lemma FirstApproved() returns (s: State)
    ensures IsReachable(s) && s.threads.Keys == {0, 1, 2} && s.shown.Keys == {0, 1} && s.db.grants.Keys == {0}
    ensures s.threads[2] == Activating(0, 1, Row("1", {"a"}, AwaitingApproval))
    ensures s.db.installations == map[0 := Home("0", {}, 0, {})]
    ensures s.db.versions == map[0 := Row("0", {}, Active), 1 := Row("1", {"a"}, AwaitingApproval)]
  {
    s := FirstAsked();
    s := Go(s, UpdateGrant(2, 0, Approve, "k"));
    s := Go(s, ReadWaiting(2));
  }

  lemma FirstGranted() returns (s: State)
    ensures IsReachable(s) && s.threads.Keys == {0, 1, 2} && s.shown.Keys == {0, 1} && s.db.grants.Keys == {0}
    ensures Holds(s, {"a"}) && s.db.versions.Keys == {0, 1} && s.db.versions[0] == Row("0", {}, Superseded)
  {
    s := FirstApproved();
    hide IsReachable;
    s := Go(s, ActivateVersion(2));
  }

  /** Installation 0 is enabled and holds just these capabilities. */
  predicate Holds(s: State, held: set<string>) {
    0 in s.db.installations && s.db.installations[0].status == Enabled && s.db.installations[0].granted == held
  }

  /** Version 2 asks for a second capability. */
  lemma SecondAsked() returns (s: State)
    ensures IsReachable(s) && s.threads.Keys == {0, 1, 2, 3} && s.db.grants.Keys == {0, 1}
    ensures s.db.grants[1] == NewGrant("o", "", 0, 2, {"b"}, 0) && Holds(s, {"a"})
    ensures 0 in s.db.versions && s.db.versions[0] == Row("0", {}, Superseded)
    ensures 2 in s.db.versions && s.db.versions[2] == Row("2", {"a", "b"}, AwaitingApproval)
  {
    s := FirstGranted();
    hide IsReachable;
    s := Go(s, ReadInstallation(3, 0, Archive("2", {"a", "b"})));
    assert {"a", "b"} - {"a"} == {"b"};
    s := Go(s, InsertVersion(3, 2));
    assert s.threads[3] == Asking(0, 2, {"b"});
    s := Go(s, InsertGrant(3, 1, "o", "", 0));
  }

  /** Version 0 comes back in the meantime. */
  lemma FirstIsBack() returns (s: State)
    ensures IsReachable(s) && s.threads.Keys == {0, 1, 2, 3, 4} && s.db.grants.Keys == {0, 1}
    ensures s.db.grants[1] == NewGrant("o", "", 0, 2, {"b"}, 0) && Holds(s, {})
    ensures 2 in s.db.versions && s.db.versions[2] == Row("2", {"a", "b"}, AwaitingApproval)
  {
    s := SecondAsked();
    hide IsReachable;
    s := Go(s, ReadTarget(4, 0, 0));
    s := Go(s, ActivateVersion(4));
  }

  /** Approving version 2 now gives the installation both capabilities, of which it holds none,
      while the approval shows only the second. */
  lemma ApprovalAddsWhatItDoesNotShow() returns (s: State)
    ensures IsReachable(s) && Possible(s, ActivateVersion(5))
    ensures 1 in s.db.grants && s.db.grants[1].approval.status == Approved && s.db.grants[1].added == {"b"}
    ensures s.threads[5] == Activating(0, s.db.grants[1].version, Row("2", {"a", "b"}, AwaitingApproval))
    ensures 0 in s.db.installations && s.db.installations[0].granted == {}
    ensures var after := Next(s, ActivateVersion(5)).db;
            0 in after.installations && after.installations[0].granted == {"a", "b"}
  {
    s := FirstIsBack();
    s := Go(s, UpdateGrant(5, 1, Approve, "k"));
    s := Go(s, ReadWaiting(5));
  }
}
