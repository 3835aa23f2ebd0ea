/** The handlers of plugins and the machine of their single statements are the same model: a
    handler that nothing interrupts does what its statements do one after the other. */
module PluginHandlers {
  import opened Approvals
  import opened Common
  import opened PluginGrants
  import opened Plugins

  /** Installing: one batch, and the approval if capabilities are requested. */
  lemma InstallIsItsSteps(s: State, t: nat, ins: Inspection, i: nat, v: nat, key: string, a: nat, principal: string,
                          text: string, now: int)
    requires Possible(s, InsertInstallation(t, ins, i, v, key)) && a !in s.db.grants
    ensures var s1 := Next(s, InsertInstallation(t, ins, i, v, key)); var added := ins.manifest.requested;
            && s1.db == Installed(s.db, ins, i, v, key)
            && (s1.threads[t].Done? <==> added == {})
            && (added != {} ==>
                  && Possible(s1, InsertGrant(t, a, principal, text, now))
                  && var s2 := Next(s1, InsertGrant(t, a, principal, text, now));
                     && s2.db == WithGrant(s1.db, a, NewGrant(principal, text, i, v, added, now))
                     && s2.threads[t].Done?)
  {}

  /** Updating: the read, the version, and then the switch or the approval. */
  lemma AddIsItsSteps(s: State, t: nat, i: nat, ins: Inspection, v: nat, a: nat, principal: string, text: string,
                      now: int)
    requires Possible(s, ReadInstallation(t, i, ins)) && v !in s.db.versions && v !in s.shown && a !in s.db.grants
    ensures var s1 := Next(s, ReadInstallation(t, i, ins)); var added := AddedTo(s.db.installations[i], ins.manifest);
            && Possible(s1, InsertVersion(t, v))
            && var s2 := Next(s1, InsertVersion(t, v));
               if added == {} then
                 && Possible(s2, SwitchVersion(t))
                 && Next(s2, SwitchVersion(t)).db == Added(s.db, ins, i, v)
                 && Next(s2, SwitchVersion(t)).threads[t].Done?
               else
                 && Possible(s2, InsertGrant(t, a, principal, text, now))
                 && var s3 := Next(s2, InsertGrant(t, a, principal, text, now));
                    && s3.db == WithGrant(Added(s.db, ins, i, v), a, NewGrant(principal, text, i, v, added, now))
                    && s3.threads[t].Done?
  {
    hide Superseding, NewGrant;
  }

  /** Deciding: the row, the read of the version that waits, and its activation. That the last
      batch also notes the execution of the approval is left to the handler. */
  lemma DecideIsItsSteps(s: State, t: nat, a: nat, decision: Decision, key: string)
    requires Possible(s, UpdateGrant(t, a, decision, key))
    ensures var s1 := Next(s, UpdateGrant(t, a, decision, key)); var after := DecidedGrant(s.db, a, decision, key);
            var g := s.db.grants[a];
            && a in after.grants && after.grants[a] == s1.db.grants[a].(approval := after.grants[a].approval)
            && after.grants[a].approval ==
               s1.db.grants[a].approval.(execution := after.grants[a].approval.execution)
            && after.grants[a := s1.db.grants[a]] == s1.db.grants
            && (decision == Approve ==> (Possible(s1, ReadWaiting(t)) <==> Grants(s.db, a, Approve)))
            && (decision == Approve && Grants(s.db, a, Approve) ==>
                  var s2 := Next(s1, ReadWaiting(t));
                  && Possible(s2, ActivateVersion(t))
                  && var s3 := Next(s2, ActivateVersion(t));
                     && s3.db.versions == after.versions && s3.db.installations == after.installations
                     && s3.db.grants == s1.db.grants && s3.threads[t].Done?)
            && (!Grants(s.db, a, decision) ==>
                  after.versions == s1.db.versions && after.installations == s1.db.installations)
  {
    hide Superseding;
  }

  /** Rolling back: the read of the target and its activation. */
  lemma RollbackIsItsSteps(s: State, t: nat, i: nat, v: nat)
    requires t !in s.threads
    ensures Possible(s, ReadTarget(t, i, v)) <==> CanRollBack(s.db, i, v)
    ensures CanRollBack(s.db, i, v) ==>
              var s1 := Next(s, ReadTarget(t, i, v));
              && Possible(s1, ActivateVersion(t))
              && Next(s1, ActivateVersion(t)).db == RolledBack(s.db, i, v)
              && Next(s1, ActivateVersion(t)).threads[t].Done?
  {
    hide Superseding;
  }

  /** Removing: the installation and then its versions. */
  lemma RemoveIsItsSteps(s: State, t: nat, i: nat)
    requires Possible(s, MarkRemoved(t, i))
    ensures var s1 := Next(s, MarkRemoved(t, i));
            && Possible(s1, RevokeVersions(t))
            && Next(s1, RevokeVersions(t)).db == Removing(s.db, i)
            && Next(s1, RevokeVersions(t)).threads[t].Done?
  {}
}
