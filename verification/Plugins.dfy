/** Plugin installations, their versions and the approvals that grant them capabilities. Each
    handler is one step here; the module PluginGrants cuts them into single statements. */
module Plugins {
  import opened Common
  import opened Approvals

  datatype Manifest = Manifest(plugin: string, version: string, requested: set<string>)

  /** An inspected archive, ready to be installed until it expires. */
  datatype Inspection = Inspection(archive: string, manifest: Manifest, expiresAt: int)

  datatype VersionStatus = AwaitingApproval | Active | Superseded | Revoked

  datatype Version = Version(installation: nat, archive: string, manifest: Manifest, status: VersionStatus)

  datatype InstallationStatus = Enabled | Disabled | Removed

  datatype Installation = Installation(
    archive: string, manifest: Manifest, granted: set<string>,
    status: InstallationStatus, active: Option<nat>, key: string)

  /** An approval of plugin.capabilities.grant, with the fields of its request. */
  datatype Grant = Grant(approval: Approval, installation: nat, version: nat, added: set<string>)

  datatype Db = Db(installations: map<nat, Installation>, versions: map<nat, Version>, grants: map<nat, Grant>)

  // ---- Statements ----

  function NewGrant(principal: string, text: string, i: nat, v: nat, added: set<string>, now: int): Grant {
    Grant(NewApproval(principal, PluginGrant, text, now), i, v, added)
  }

  /** Takes over a version's archive and manifest; the grants stay. */
  function Showing(inst: Installation, v: nat, ver: Version): Installation {
    inst.(archive := ver.archive, manifest := ver.manifest, active := Some(v))
  }

  /** Supersedes the active versions of an installation, except `keep`. */
  function Superseding(versions: map<nat, Version>, i: nat, keep: Option<nat>): map<nat, Version> {
    map k | k in versions ::
      if versions[k].installation == i && versions[k].status == Active && keep != Some(k)
      then versions[k].(status := Superseded) else versions[k]
  }

  function Revoking(versions: map<nat, Version>, i: nat): map<nat, Version> {
    map k | k in versions :: if versions[k].installation == i then versions[k].(status := Revoked) else versions[k]
  }

  /** The batch that activates a version and grants all it requests; `ver` is the row as read
      before. A removed installation keeps its row. */
  function Activated(db: Db, i: nat, v: nat, ver: Version): Db {
    var versions := Superseding(db.versions, i, None);
    db.(versions := if v in versions then versions[v := versions[v].(status := Active)] else versions,
        installations :=
          if i in db.installations && db.installations[i].status != Removed then
            db.installations[i := Showing(db.installations[i], v, ver)
                                  .(granted := ver.manifest.requested, status := Enabled)]
          else db.installations)
  }

  /** The batch that switches to a version which needs no further capability. */
  function Switched(db: Db, i: nat, v: nat, ver: Version): Db {
    db.(versions := Superseding(db.versions, i, Some(v)),
        installations :=
          if i in db.installations then db.installations[i := Showing(db.installations[i], v, ver)]
          else db.installations)
  }

  // ---- Handlers ----

  /** A first version; without requested capabilities it is active at once. */
  function Installed(db: Db, ins: Inspection, i: nat, v: nat, key: string): Db {
    var free := ins.manifest.requested == {};
    db.(installations := db.installations[i :=
          Installation(ins.archive, ins.manifest, {}, if free then Enabled else Disabled,
                       if free then Some(v) else None, key)],
        versions := db.versions[v := Version(i, ins.archive, ins.manifest, if free then Active else AwaitingApproval)])
  }

  function WithGrant(db: Db, a: nat, grant: Grant): Db {
    db.(grants := db.grants[a := grant])
  }

  function AddedTo(inst: Installation, m: Manifest): set<string> {
    m.requested - inst.granted
  }

  function Added(db: Db, ins: Inspection, i: nat, v: nat): Db
    requires i in db.installations
  {
    var free := AddedTo(db.installations[i], ins.manifest) == {};
    var ver := Version(i, ins.archive, ins.manifest, if free then Active else AwaitingApproval);
    var inserted := db.(versions := db.versions[v := ver]);
    if free then Switched(inserted, i, v, ver) else inserted
  }

  /** The version a decision activates: only an approval of a version that still waits. */
  predicate Grants(db: Db, a: nat, decision: Decision) {
    && a in db.grants && decision == Approve
    && db.grants[a].version in db.versions
    && db.versions[db.grants[a].version].installation == db.grants[a].installation
    && db.versions[db.grants[a].version].status == AwaitingApproval
  }

  function DecidedGrant(db: Db, a: nat, decision: Decision, key: string): Db
    requires a in db.grants
  {
    var g := db.grants[a];
    var decided := Decided(g.approval, decision, key);
    if Grants(db, a, decision) then
      WithGrant(Activated(db, g.installation, g.version, db.versions[g.version]),
                a, g.(approval := decided.(execution := Succeeded)))
    else WithGrant(db, a, g.(approval := decided))
  }

  predicate CanRollBack(db: Db, i: nat, v: nat) {
    v in db.versions && db.versions[v].installation == i && db.versions[v].status in {Active, Superseded}
  }

  function RolledBack(db: Db, i: nat, v: nat): Db
    requires CanRollBack(db, i, v)
  {
    Activated(db, i, v, db.versions[v])
  }

  function Enabling(db: Db, i: nat, enabled: bool): Db
    requires i in db.installations
  {
    var inst := db.installations[i];
    if inst.status == Removed then db
    else db.(installations := db.installations[i := inst.(status := if enabled then Enabled else Disabled)])
  }

  function Removing(db: Db, i: nat): Db
    requires i in db.installations
  {
    db.(installations := db.installations[i := db.installations[i].(status := Removed)],
        versions := Revoking(db.versions, i))
  }

  // ---- The class ----

  datatype Reply =
    | Failure(code: nat)
    | Existing(installation: nat)
    | Activation(installation: nat, version: nat)
    | NeedsApproval(installation: nat, version: nat, grant: nat, added: set<string>)

  /** Of the versions of an installation, exactly `v` is active afterwards, and those that were
      before are superseded. */
  ghost predicate Activates(before: map<nat, Version>, after: map<nat, Version>, i: nat, v: nat) {
    && after.Keys == before.Keys
    && forall k :: k in before ==>
         after[k] == before[k].(status := if k == v then Active
                                          else if before[k].installation == i && before[k].status == Active
                                          then Superseded else before[k].status)
  }

  /** A request for the capabilities that are missing, open for fifteen minutes. */
  ghost predicate Asks(g: Grant, principal: string, text: string, i: nat, v: nat, added: set<string>, now: int) {
    g == Grant(Approval(principal, PluginGrant, PluginControl, text, Digest(text), now + 900000, Pending, None,
                        NoExecution), i, v, added)
  }

  class PluginControl {
    var installations: map<nat, Installation>
    var versions: map<nat, Version>
    var grants: map<nat, Grant>

    function State(): Db
      reads this
    {
      Db(installations, versions, grants)
    }

    constructor ()
      ensures State() == Db(map[], map[], map[])
    {
      installations, versions, grants := map[], map[], map[];
    }

    /** The version is the active one, and an installation that was not removed shows it, holds
        what it requests and is enabled. */
    ghost predicate IsActivated(before: Db, i: nat, v: nat)
      reads this
    {
      && v in before.versions && Activates(before.versions, versions, i, v)
      && var ver := before.versions[v];
         installations ==
         if i in before.installations && before.installations[i].status != Removed
         then before.installations[i := Installation(ver.archive, ver.manifest, ver.manifest.requested, Enabled,
                                                     Some(v), before.installations[i].key)]
         else before.installations
    }

    /** `i`, `v` and `a` are fresh identifiers. A key that was used before returns what it
        installed then, whatever archive is asked for now. */
    method InstallPlugin(inspection: Option<Inspection>, key: string, principal: string, text: string, now: int,
                         i: nat, v: nat, a: nat) returns (reply: Reply)
      requires i !in installations && v !in versions && a !in grants
      modifies this
      ensures reply == Failure(409) <==> inspection.None? || inspection.value.expiresAt <= now
      ensures reply.Existing? ==> reply.installation in old(installations)
                                  && old(installations)[reply.installation].key == key
      ensures reply.Failure? || reply.Existing? ==> State() == old(State())
      ensures reply.Activation? || reply.NeedsApproval? ==>
                var ins := inspection.value; var free := ins.manifest.requested == {};
                && (reply.Activation? <==> free)
                && installations == old(installations)[i := Installation(
                     ins.archive, ins.manifest, {}, if free then Enabled else Disabled,
                     if free then Some(v) else None, key)]
                && versions == old(versions)[v := Version(
                     i, ins.archive, ins.manifest, if free then Active else AwaitingApproval)]
                && (if free then grants == old(grants)
                    else && a in grants && grants == old(grants)[a := grants[a]]
                         && Asks(grants[a], principal, text, i, v, ins.manifest.requested, now))
      ensures (exists j :: j in old(installations) && old(installations)[j].key == key) ==>
                reply == Failure(409) || reply.Existing?
      ensures reply.Activation? ==> inspection.value.manifest.requested == {} && reply == Activation(i, v)
                                    && State() == Installed(old(State()), inspection.value, i, v, key)
      ensures reply.NeedsApproval? ==>
                var added := inspection.value.manifest.requested;
                added != {} && reply == NeedsApproval(i, v, a, added)
                && State() == WithGrant(Installed(old(State()), inspection.value, i, v, key), a,
                                        NewGrant(principal, text, i, v, added, now))
    {
      if inspection.None? || inspection.value.expiresAt <= now {
        return Failure(409);
      }
      var manifest := inspection.value.manifest;
      if j :| j in installations && installations[j].key == key {
        return Existing(j);
      }
      var needsApproval := manifest.requested != {};
      installations := installations[i := Installation(inspection.value.archive, manifest,
        if needsApproval then {} else manifest.requested, if needsApproval then Disabled else Enabled,
        if needsApproval then None else Some(v), key)];
      versions := versions[v := Version(i, inspection.value.archive, manifest,
                                        if needsApproval then AwaitingApproval else Active)];
      if needsApproval {
        grants := grants[a := NewGrant(principal, text, i, v, manifest.requested, now)];
        return NeedsApproval(i, v, a, manifest.requested);
      }
      return Activation(i, v);
    }

    method AddPluginVersion(i: nat, inspection: Option<Inspection>, principal: string, text: string, now: int,
                            v: nat, a: nat) returns (reply: Reply)
      requires v !in versions && a !in grants
      modifies this
      ensures reply == Failure(404) <==> i !in old(installations) || old(installations)[i].status == Removed
      ensures reply.Failure? <==> || i !in old(installations) || old(installations)[i].status == Removed
                                  || inspection.None? || inspection.value.expiresAt <= now
                                  || inspection.value.manifest.plugin != old(installations)[i].manifest.plugin
      ensures reply.Failure? ==> State() == old(State())
      ensures !reply.Existing?
      ensures !reply.Failure? ==>
                var ins, inst := inspection.value, old(installations)[i];
                var added := ins.manifest.requested - inst.granted;
                && (reply.Activation? <==> added == {})
                && v in versions && versions[v].status == (if added == {} then Active else AwaitingApproval)
                && versions[v] == Version(i, ins.archive, ins.manifest, versions[v].status)
                && (if added == {} then
                      && Activates(old(versions)[v := versions[v]], versions, i, v) && grants == old(grants)
                      && installations ==
                         old(installations)[i := inst.(archive := ins.archive, manifest := ins.manifest,
                                                       active := Some(v))]
                    else
                      && versions == old(versions)[v := versions[v]] && installations == old(installations)
                      && a in grants && grants == old(grants)[a := grants[a]]
                      && Asks(grants[a], principal, text, i, v, added, now))
      ensures reply.Activation? ==> reply == Activation(i, v)
                                    && AddedTo(old(installations)[i], inspection.value.manifest) == {}
                                    && State() == Added(old(State()), inspection.value, i, v)
      ensures reply.NeedsApproval? ==>
                var added := AddedTo(old(installations)[i], inspection.value.manifest);
                added != {} && reply == NeedsApproval(i, v, a, added)
                && State() == WithGrant(Added(old(State()), inspection.value, i, v), a,
                                        NewGrant(principal, text, i, v, added, now))
    {
      if i !in installations || installations[i].status == Removed {
        return Failure(404);
      }
      if inspection.None? || inspection.value.expiresAt <= now {
        return Failure(409);
      }
      var manifest := inspection.value.manifest;
      if manifest.plugin != installations[i].manifest.plugin {
        return Failure(409);
      }
      var added := manifest.requested - installations[i].granted;
      var version := Version(i, inspection.value.archive, manifest,
                             if added != {} then AwaitingApproval else Active);
      versions := versions[v := version];
      if added == {} {
        versions := Superseding(versions, i, Some(v));
        installations := installations[i := installations[i].(manifest := manifest, active := Some(v),
                                                              archive := inspection.value.archive)];
        return Activation(i, v);
      }
      grants := grants[a := NewGrant(principal, text, i, v, added, now)];
      return NeedsApproval(i, v, a, added);
    }

    /** The plugin branch of a decision. When the version no longer waits, the approval stays
        accepted without effect. */
    method DecideGrant(a: nat, principal: string, decision: Decision, key: string, now: int)
      returns (answer: Answer, applied: bool)
      modifies this
      ensures answer == AnswerFor(if a in old(grants) then Some(old(grants)[a].approval) else None,
                                  principal, decision, key, now)
      ensures answer == NotFound <==> a !in old(grants) || old(grants)[a].approval.principal != principal
      ensures answer == Proceed <==>
                && a in old(grants) && old(grants)[a].approval.principal == principal
                && old(grants)[a].approval.status == Pending && now < old(grants)[a].approval.expiresAt
      ensures answer == Proceed ==>
                var g := old(grants)[a]; var i, v := g.installation, g.version;
                && (applied <==> decision == Approve && v in old(versions) && old(versions)[v].installation == i
                                 && old(versions)[v].status == AwaitingApproval)
                && grants == old(grants)[a := g.(approval := g.approval.(
                     status := if decision == Approve then Approved else Rejected, key := Some(key),
                     execution := if applied then Succeeded else if decision == Approve then Running
                                  else NoExecution))]
                && (if applied then IsActivated(old(State()), i, v)
                    else versions == old(versions) && installations == old(installations))
      ensures answer != Proceed ==> !applied && State() == old(State())
      ensures answer == Proceed ==> a in old(grants) && State() == DecidedGrant(old(State()), a, decision, key)
      ensures answer == Proceed ==> (applied <==> Grants(old(State()), a, decision))
    {
      if a !in grants || grants[a].approval.principal != principal {
        return NotFound, false;
      }
      var current := grants[a];
      if current.approval.status == StatusOf(decision) && current.approval.key == Some(key) {
        return Replayed, false;
      }
      if current.approval.status != Pending || current.approval.expiresAt <= now {
        return NotPending, false;
      }
      var decided := Decided(current.approval, decision, key);
      grants := grants[a := current.(approval := decided)];
      if decision == Reject {
        return Proceed, false;
      }
      var i, v := current.installation, current.version;
      if v !in versions || versions[v].installation != i || versions[v].status != AwaitingApproval {
        return Proceed, false;
      }
      var version := versions[v];
      versions := Superseding(versions, i, None);
      versions := versions[v := versions[v].(status := Active)];
      if i in installations && installations[i].status != Removed {
        installations := installations[i := installations[i].(
          archive := version.archive, manifest := version.manifest, granted := version.manifest.requested,
          active := Some(v), status := Enabled)];
      }
      grants := grants[a := current.(approval := decided.(execution := Succeeded))];
      return Proceed, true;
    }

    method RollbackPlugin(i: nat, v: nat) returns (done: bool)
      modifies this
      ensures done <==> v in old(versions) && old(versions)[v].installation == i
                        && old(versions)[v].status in {Active, Superseded}
      ensures done ==> IsActivated(old(State()), i, v) && grants == old(grants)
      ensures done <==> CanRollBack(old(State()), i, v)
      ensures State() == if done then RolledBack(old(State()), i, v) else old(State())
    {
      if v !in versions || versions[v].installation != i || versions[v].status !in {Active, Superseded} {
        return false;
      }
      var target := versions[v];
      versions := Superseding(versions, i, None);
      versions := versions[v := versions[v].(status := Active)];
      if i in installations && installations[i].status != Removed {
        installations := installations[i := installations[i].(
          archive := target.archive, manifest := target.manifest, granted := target.manifest.requested,
          active := Some(v), status := Enabled)];
      }
      return true;
    }

    /** `enabled` is absent in a request to remove. */
    method MutatePlugin(i: nat, enabled: Option<bool>) returns (done: bool)
      modifies this
      ensures done <==> i in old(installations)
      ensures done && enabled.None? ==>
                && installations == old(installations)[i := old(installations)[i].(status := Removed)]
                && versions.Keys == old(versions).Keys
                && forall k :: k in versions ==>
                     versions[k] == if old(versions)[k].installation == i then old(versions)[k].(status := Revoked)
                                    else old(versions)[k]
      ensures done && enabled.Some? ==>
                && versions == old(versions)
                && installations == old(installations)[i := old(installations)[i].(
                     status := if old(installations)[i].status == Removed then Removed
                               else if enabled.value then Enabled else Disabled)]
      ensures done ==> grants == old(grants)
      ensures State() == if !done then old(State())
                         else if enabled.None? then Removing(old(State()), i)
                         else Enabling(old(State()), i, enabled.value)
    {
      if i !in installations {
        return false;
      }
      if enabled.None? {
        installations := installations[i := installations[i].(status := Removed)];
        versions := Revoking(versions, i);
      } else if installations[i].status != Removed {
        installations := installations[i := installations[i].(status := if enabled.value then Enabled else Disabled)];
      }
      return true;
    }
  }
}
