/** What an approval of capabilities shows and what it adds, when handlers overlap. */
module PluginApprovals {
  import opened Approvals
  import opened Common
  import opened PluginGrants
  import opened Plugins
  import PluginOverlap

  // ---- Following a handler ----

  /** A handler reads an installation only once. */
  lemma {:induction false} ReadOnce(states: seq<State>, steps: seq<Step>, r: nat, n: nat)
    requires IsRun(states, steps) && r < n <= |steps| && steps[r].ReadInstallation?
    ensures var ReadInstallation(t, i, ins) := steps[r];
            && i in states[r].db.installations && t in states[n].threads
            && (states[n].threads[t].Adding? ==>
                  states[n].threads[t] == Adding(i, states[r].db.installations[i].granted, ins))
    decreases n
  {
    assert Possible(states[r], steps[r]) && states[r + 1] == Next(states[r], steps[r]);
    if r + 1 < n {
      ReadOnce(states, steps, r, n - 1);
      ReadOnceStep(states[n - 1], steps[n - 1], steps[r].t);
      hide Next, Possible;
    }
  }

  lemma ReadOnceStep(s: State, step: Step, t: nat)
    requires Possible(s, step) && t in s.threads
    ensures t in Next(s, step).threads
    ensures Next(s, step).threads[t].Adding? ==> Next(s, step).threads[t] == s.threads[t]
  {}

  /** The handler of a decision that was to approve `a` is at work on the version of `a`. */
  ghost predicate WorksOn(s: State, u: nat, a: nat) {
    && u in s.threads && a in s.db.grants
    && match s.threads[u]
       case Applying(b) => b == a
       case Activating(i, v, _) => i == s.db.grants[a].installation && v == s.db.grants[a].version
       case Done => true
       case _ => false
  }

  lemma WorksOnStep(s: State, step: Step, u: nat, a: nat)
    requires Possible(s, step) && WorksOn(s, u, a)
    ensures WorksOn(Next(s, step), u, a)
    ensures a in Next(s, step).db.grants && Next(s, step).db.grants[a].added == s.db.grants[a].added
    ensures Next(s, step).db.grants[a].version == s.db.grants[a].version
  {
    hide Superseding, Revoking, NewGrant, Decided;
  }

  lemma {:induction false} WorksOnFromThen(states: seq<State>, steps: seq<Step>, w: nat, n: nat)
    requires IsRun(states, steps) && w < n <= |steps| && steps[w].UpdateGrant? && steps[w].decision == Approve
    ensures WorksOn(states[n], steps[w].t, steps[w].a)
    decreases n
  {
    assert Possible(states[w], steps[w]) && states[w + 1] == Next(states[w], steps[w]);
    if w + 1 < n {
      WorksOnFromThen(states, steps, w, n - 1);
      WorksOnStep(states[n - 1], steps[n - 1], steps[w].t, steps[w].a);
      hide Next, Possible;
    }
  }

  // ---- What was shown ----

  lemma ShownStays(s: State, step: Step, v: nat)
    requires Possible(s, step) && v in s.shown
    ensures v in Next(s, step).shown && Next(s, step).shown[v] == s.shown[v]
  {}

  /** What an added version requests beyond what the installation held when it was read is
      shown, from then on. */
  lemma {:induction false} ShowsWhatWasMissing(states: seq<State>, steps: seq<Step>, r: nat, k: nat, n: nat)
    requires IsRun(states, steps) && r < k < n <= |steps| && steps[r].ReadInstallation?
    requires steps[k].InsertVersion? && steps[k].t == steps[r].t
    ensures var ReadInstallation(_, i, ins) := steps[r]; var v := steps[k].v;
            && i in states[r].db.installations && v in states[n].shown && v in states[n].db.versions
            && states[n].shown[v] == ins.manifest.requested - states[r].db.installations[i].granted
            && states[n].db.versions[v].installation == i && states[n].db.versions[v].manifest == ins.manifest
    decreases n
  {
    if k + 1 < n {
      ShowsWhatWasMissing(states, steps, r, k, n - 1);
      ShownStays(states[n - 1], steps[n - 1], steps[k].v);
      PluginOverlap.RowsAreKept(states[n - 1], steps[n - 1], steps[k].v);
      hide Next, Possible;
    } else {
      ReadOnce(states, steps, r, k);
      assert Possible(states[k], steps[k]) && states[k + 1] == Next(states[k], steps[k]);
    }
  }

  // ---- What is held ----

  /** The step replaces the capabilities that the installation holds. */
  ghost predicate Replaces(s: State, step: Step, i: nat)
    requires Possible(s, step)
  {
    && step.ActivateVersion? && s.threads[step.t].i == i
    && i in s.db.installations && s.db.installations[i].status != Removed
  }

  ghost function Requested(s: State, step: Step): set<string>
    requires Possible(s, step) && step.ActivateVersion?
  {
    s.threads[step.t].ver.manifest.requested
  }

  /** The last step from `r` on and before `n` that replaced what the installation holds. */
  ghost function LastReplacement(states: seq<State>, steps: seq<Step>, r: nat, n: nat, i: nat): Option<nat>
    requires r <= n <= |steps| < |states| && forall k :: 0 <= k < |steps| ==> Possible(states[k], steps[k])
    decreases n
  {
    if n == r then None
    else if Replaces(states[n - 1], steps[n - 1], i) then Some(n - 1)
    else LastReplacement(states, steps, r, n - 1, i)
  }

  lemma HeldStep(s: State, step: Step, i: nat)
    requires Possible(s, step) && i in s.db.installations
    ensures i in Next(s, step).db.installations
    ensures Next(s, step).db.installations[i].granted ==
            if Replaces(s, step, i) then Requested(s, step) else s.db.installations[i].granted
  {
    hide Superseding, Revoking, NewGrant, Decided;
  }

  lemma ReplacingActivates(s: State, step: Step, i: nat)
    requires Possible(s, step)
    ensures Replaces(s, step, i) ==> step.ActivateVersion?
  {}

  /** An installation holds what the version activated last requests. */
  lemma {:induction false} HoldsTheLastReplacement(states: seq<State>, steps: seq<Step>, r: nat, n: nat, i: nat)
    requires IsRun(states, steps) && r <= n <= |steps| && i in states[r].db.installations
    ensures i in states[n].db.installations
    ensures var last := LastReplacement(states, steps, r, n, i);
            && (last.Some? ==> r <= last.value < n && steps[last.value].ActivateVersion?)
            && states[n].db.installations[i].granted ==
               if last.None? then states[r].db.installations[i].granted
               else Requested(states[last.value], steps[last.value])
    decreases n
  {
    hide Next, Possible, Replaces;
    if r < n {
      HoldsTheLastReplacement(states, steps, r, n - 1, i);
      HeldStep(states[n - 1], steps[n - 1], i);
      ReplacingActivates(states[n - 1], steps[n - 1], i);
    }
  }

  // ---- The main result ----

  /** A handler read the installation at `r` and inserted a version at `k`; another one approved
      `a`, the approval of that version, at `w` and activates it at `m`. The approval shows all
      that this adds if and only if the version activated last in between, if there is one,
      requests all that the new version needs of what was held at `r`. */
  lemma ApprovalShowsAllItAddsWhen(states: seq<State>, steps: seq<Step>, r: nat, k: nat, w: nat, m: nat)
    requires IsRun(states, steps) && r < k < m < |steps| && w < m
    requires steps[r].ReadInstallation? && steps[k].InsertVersion? && steps[k].t == steps[r].t
    requires steps[w].UpdateGrant? && steps[w].decision == Approve
    requires steps[w].a in states[w].db.grants && states[w].db.grants[steps[w].a].version == steps[k].v
    requires steps[m] == ActivateVersion(steps[w].t)
    requires var i := steps[r].i; i in states[m].db.installations && states[m].db.installations[i].status != Removed
    ensures var i, a := steps[r].i, steps[w].a;
            && i in states[r].db.installations && i in states[m + 1].db.installations
            && a in states[m].db.grants
            && var held, requested := states[r].db.installations[i].granted, steps[r].ins.manifest.requested;
               var before := states[m].db.installations[i].granted;
               var after := states[m + 1].db.installations[i].granted;
               var last := LastReplacement(states, steps, r, m, i);
               && (last.Some? ==> r <= last.value < m && steps[last.value].ActivateVersion?)
               && (after - before <= states[m].db.grants[a].added <==>
                   last.None? || requested * held <= Requested(states[last.value], steps[last.value]))
  {
    var i, a, v, u := steps[r].i, steps[w].a, steps[k].v, steps[w].t;
    ShowsWhatWasMissing(states, steps, r, k, m);
    WorksOnFromThen(states, steps, w, m);
    VersionOfGrantStays(states, steps, w, m, a);
    PluginGrants.EveryRunIsSafe(states, steps, m);
    PluginOverlap.EveryRunIsSound(states, steps, m);
    assert PluginGrants.Ok(states[m], a) && PluginOverlap.Sound(states[m], u);
    HoldsTheLastReplacement(states, steps, r, m, i);
    assert Possible(states[m], steps[m]) && states[m + 1] == Next(states[m], steps[m]);
    HeldStep(states[m], steps[m], i);
    hide IsRun, Next, Invariant, PluginOverlap.AllSound, LastReplacement, VersionOk, InstallationOk;
    hide PluginOverlap.ActiveOk, PluginOverlap.ShownOk, PluginOverlap.HomeOk;
    var held, requested := states[r].db.installations[i].granted, steps[r].ins.manifest.requested;
    ShowsAllWhen(requested, held, states[m].db.installations[i].granted);
  }

  lemma ShowsAllWhen(requested: set<string>, held: set<string>, before: set<string>)
    ensures requested - before <= requested - held <==> requested * held <= before
  {
    if requested - before <= requested - held {
      forall c | c in requested * held
        ensures c in before
      {
        assert c !in requested - held;
      }
    }
  }

  lemma {:induction false} VersionOfGrantStays(states: seq<State>, steps: seq<Step>, w: nat, n: nat, a: nat)
    requires IsRun(states, steps) && w <= n <= |steps| && a in states[w].db.grants
    ensures a in states[n].db.grants && states[n].db.grants[a].version == states[w].db.grants[a].version
    decreases n
  {
    hide Next, Possible;
    if w < n {
      VersionOfGrantStays(states, steps, w, n - 1, a);
      PluginOverlap.RowsAreKept(states[n - 1], steps[n - 1], a);
    }
  }
}
