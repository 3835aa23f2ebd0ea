/** When approvals can be decided, and when leases can be used, over every run. */
module ApprovalTimes {
  import opened Common
  import opened Approvals
  import opened ApprovalProtocol
  import D = DecisionSteps
  import G = GatekeeperSteps

  // ---- Decisions are made in time ----

  /** At `r` a request of the owner read the row, which was pending and had not expired, to make
      the decision of decider `t`. */
  ghost predicate ReadInTime(states: seq<State>, steps: seq<Step>, r: nat, t: nat, d: D.Decider)
    requires r < |steps| < |states|
  {
    && steps[r].Decide? && steps[r].decide.ReadRow?
    && var read := steps[r].decide;
       && read.t == t && read.id == d.id && read.decision == d.decision && read.key == d.key
       && read.id in states[r].control.approvals
       && var a := states[r].control.approvals[read.id];
          a == d.row && a.status == Pending && a.principal == read.principal && read.now < a.expiresAt
  }

  lemma DeciderStep(s: State, step: Step, t: nat)
    requires Enabled(s, step) && t in Next(s, step).control.deciders
    ensures t !in s.control.deciders ==> step.Decide? && step.decide.ReadRow? && step.decide.t == t
    ensures t in s.control.deciders ==>
              var d, d' := s.control.deciders[t], Next(s, step).control.deciders[t];
              d' == d.(phase := d'.phase, lease := d'.lease)
  {
    hide G.Next, G.Enabled;
  }

  lemma {:induction false} DecidersReadInTime(states: seq<State>, steps: seq<Step>, n: nat, t: nat)
    requires IsRun(states, steps) && n <= |steps| && t in states[n].control.deciders
    ensures exists r :: 0 <= r < n && ReadInTime(states, steps, r, t, states[n].control.deciders[t])
  {
    DeciderStep(states[n - 1], steps[n - 1], t);
    if t in states[n - 1].control.deciders {
      DecidersReadInTime(states, steps, n - 1, t);
      hide Enabled, Next;
      var r :| 0 <= r < n - 1 && ReadInTime(states, steps, r, t, states[n - 1].control.deciders[t]);
      assert ReadInTime(states, steps, r, t, states[n].control.deciders[t]);
    } else {
      assert ReadInTime(states, steps, n - 1, t, states[n].control.deciders[t]);
    }
  }

  /** A row that is decided was read by the request that decided it strictly before it expired,
      and that request was the owner's and carried the decision and the key that the row shows. */
  lemma DecisionWasInTime(states: seq<State>, steps: seq<Step>, n: nat, id: nat)
    requires IsRun(states, steps) && n <= |steps| && id in states[n].control.approvals
    requires states[n].control.approvals[id].status != Pending
    ensures var a := states[n].control.approvals[id];
            exists r :: 0 <= r < n && steps[r].Decide? && steps[r].decide.ReadRow?
                        && var read := steps[r].decide;
                           && read.id == id && read.principal == a.principal && read.now < a.expiresAt
                           && a.key == Some(read.key)
                           && a.status == if read.decision == Approve then Approved else Rejected
  {
    EveryRunIsSafe(states, steps, n);
    var c := states[n].control;
    assert D.Ok(c, id);
    var t := c.winners[id];
    assert D.Ok(c, t);
    DecidersReadInTime(states, steps, n, t);
    var r :| 0 <= r < n && ReadInTime(states, steps, r, t, c.deciders[t]);
    hide Invariant, IsRun;
  }

  // ---- Expiry is final ----

  /** A request that read the row as pending has still to write its decision. */
  ghost predicate IsBeingDecided(s: State, id: nat) {
    exists t :: t in s.control.deciders && s.control.deciders[t].id == id && s.control.deciders[t].phase == D.Read
  }

  /** From now on, rows are read at `now` or later. */
  predicate ReadsFrom(steps: seq<Step>, now: int) {
    forall k :: 0 <= k < |steps| && steps[k].Decide? && steps[k].decide.ReadRow? ==> now <= steps[k].decide.now
  }

  predicate IsPending(s: State, id: nat) {
    id in s.control.approvals && s.control.approvals[id].status == Pending
  }

  /** The row is pending and has expired, and nobody is about to decide it. */
  ghost predicate IsExpired(c: D.Control, id: nat, now: int) {
    && id in c.approvals && c.approvals[id].status == Pending && c.approvals[id].expiresAt <= now
    && forall t :: t in c.deciders && c.deciders[t].id == id ==> c.deciders[t].phase != D.Read
  }

  lemma ExpiredControlStep(c: D.Control, step: D.Step, id: nat, now: int)
    requires D.Enabled(c, step) && IsExpired(c, id, now) && (step.ReadRow? ==> now <= step.now)
    ensures IsExpired(D.Next(c, step), id, now)
  {}

  lemma ExpiredStep(s: State, step: Step, id: nat, now: int)
    requires Enabled(s, step) && IsExpired(s.control, id, now)
    requires step.Decide? && step.decide.ReadRow? ==> now <= step.decide.now
    ensures IsExpired(Next(s, step).control, id, now)
  {
    hide G.Next, G.Enabled, D.Next, IsExpired;
    match step
    case Decide(d) => ExpiredControlStep(s.control, d, id, now);
    case Execute(_, _) =>
    case Report(t, answered) =>
      ExpiredControlStep(s.control, D.Record(s.control.deciders[t].id, NoteFor(s, t, answered).outcome), id, now);
  }

  lemma {:induction false} ExpiredStaysPending(s: State, states: seq<State>, steps: seq<Step>, n: nat, id: nat,
                                               now: int)
    requires IsRunFrom(s, states, steps) && n <= |steps| && ReadsFrom(steps, now)
    requires IsExpired(s.control, id, now)
    ensures IsExpired(states[n].control, id, now)
  {
    hide Enabled, Next, IsExpired;
    if n > 0 {
      ExpiredStaysPending(s, states, steps, n - 1, id, now);
      ExpiredStep(states[n - 1], steps[n - 1], id, now);
    }
  }

  lemma DecidedBy(s: State, t: nat) returns (next: State)
    requires t in s.control.deciders && s.control.deciders[t].phase == D.Read && IsPending(s, s.control.deciders[t].id)
    ensures Enabled(s, Decide(D.UpdateRow(t))) && next == Next(s, Decide(D.UpdateRow(t)))
    ensures !IsPending(next, s.control.deciders[t].id)
  {
    next := Next(s, Decide(D.UpdateRow(t)));
  }

  /** A pending row can still be decided. */
  lemma CanBeDecided(s: State, id: nat, now: int) returns (states: seq<State>, steps: seq<Step>)
    requires IsPending(s, id) && (now < s.control.approvals[id].expiresAt || IsBeingDecided(s, id))
    ensures IsRunFrom(s, states, steps) && ReadsFrom(steps, now) && !IsPending(states[|steps|], id)
  {
    if IsBeingDecided(s, id) {
      var t :| t in s.control.deciders && s.control.deciders[t].id == id && s.control.deciders[t].phase == D.Read;
      var next := DecidedBy(s, t);
      states, steps := [s, next], [Decide(D.UpdateRow(t))];
    } else {
      var t := BoundExists(s.control.deciders.Keys);
      assert t !in s.control.deciders.Keys;
      var step := Decide(D.ReadRow(t, id, s.control.approvals[id].principal, Approve, "", now));
      assert Enabled(s, step);
      var middle := Next(s, step);
      var next := DecidedBy(middle, t);
      states, steps := [s, middle, next], [step, Decide(D.UpdateRow(t))];
    }
    hide Next, Enabled, IsBeingDecided;
  }

  /** A pending row stays pending in every continuation whose reads come at `now` or later, if
      and only if it has expired by then and no request that read it before is under way. */
  lemma StaysPendingWhen(s: State, id: nat, now: int)
    requires IsPending(s, id)
    ensures (forall states: seq<State>, steps: seq<Step> :: IsRunFrom(s, states, steps) && ReadsFrom(steps, now) ==>
               IsPending(states[|steps|], id)) <==>
            s.control.approvals[id].expiresAt <= now && !IsBeingDecided(s, id)
  {
    hide Enabled, Next;
    if s.control.approvals[id].expiresAt <= now && !IsBeingDecided(s, id) {
      forall states: seq<State>, steps: seq<Step> | IsRunFrom(s, states, steps) && ReadsFrom(steps, now)
        ensures IsPending(states[|steps|], id)
      {
        ExpiredStaysPending(s, states, steps, |steps|, id, now);
      }
    } else {
      var states, steps := CanBeDecided(s, id, now);
    }
  }

  // ---- Leases are used in time ----

  /** At `p` a request presented the lease that it carries. */
  ghost predicate PresentedInTime(steps: seq<Step>, p: nat, u: nat, r: G.Request)
    requires p < |steps|
  {
    && steps[p].Execute? && steps[p].execute.Present?
    && var present := steps[p].execute; var l := r.lease;
       && present.u == u && present.token == l && present.input == r.input
       && present.gatekeeper == l.gatekeeper && present.principal == l.principal && present.capability == l.capability
       && l.digest == Digest(present.input) && present.now / 1000 < l.expiresAt
  }

  lemma RequestStep(s: State, step: Step, u: nat)
    requires Enabled(s, step) && u in Next(s, step).gates.requests
    ensures u !in s.gates.requests ==>
              && step.Execute? && step.execute.Present? && step.execute.u == u
              && Signed(s.control, step.execute.token)
    ensures u in s.gates.requests ==>
              && Next(s, step).gates.requests[u].lease == s.gates.requests[u].lease
              && Next(s, step).gates.requests[u].input == s.gates.requests[u].input
  {
    hide D.Next, D.Enabled;
  }

  lemma {:induction false} RequestsPresentInTime(states: seq<State>, steps: seq<Step>, n: nat, u: nat) returns (p: nat)
    requires IsRun(states, steps) && n <= |steps| && u in states[n].gates.requests
    ensures p < n && PresentedInTime(steps, p, u, states[n].gates.requests[u])
    ensures Signed(states[p].control, states[n].gates.requests[u].lease)
  {
    RequestStep(states[n - 1], steps[n - 1], u);
    if u in states[n - 1].gates.requests {
      p := RequestsPresentInTime(states, steps, n - 1, u);
      hide Enabled, Next;
    } else {
      p := n - 1;
    }
  }

  /** At `j` a lease was signed. */
  predicate SignedAt(steps: seq<Step>, j: nat, l: Lease)
    requires j < |steps|
  {
    && steps[j].Decide? && steps[j].decide.IssueLease? && steps[j].decide.lease == l.id
    && l.expiresAt == steps[j].decide.now / 1000 + 300
  }

  lemma LeaseStep(s: State, step: Step, k: nat)
    requires Enabled(s, step) && k in Next(s, step).control.leases
    ensures k in s.control.leases ==> Next(s, step).control.leases[k] == s.control.leases[k]
    ensures k !in s.control.leases ==>
              && step.Decide? && step.decide.IssueLease? && step.decide.lease == k
              && Next(s, step).control.leases[k].id == k
              && Next(s, step).control.leases[k].expiresAt == step.decide.now / 1000 + 300
  {
    hide G.Next, G.Enabled;
  }

  lemma {:induction false} LeasesAreSignedFor(states: seq<State>, steps: seq<Step>, n: nat, k: nat) returns (j: nat)
    requires IsRun(states, steps) && n <= |steps| && k in states[n].control.leases
    ensures j < n && SignedAt(steps, j, states[n].control.leases[k])
  {
    LeaseStep(states[n - 1], steps[n - 1], k);
    if k in states[n - 1].control.leases {
      j := LeasesAreSignedFor(states, steps, n - 1, k);
      hide Enabled, Next;
    } else {
      j := n - 1;
    }
  }

  /** Every provider call was made by a request that presented its lease within 300 seconds of
      its signing, as the principal, for the capability and to the gatekeeper of the lease. */
  lemma CallWasInTime(states: seq<State>, steps: seq<Step>, n: nat, k: nat)
    requires IsRun(states, steps) && n <= |steps| && k < |states[n].gates.calls|
    ensures var call := states[n].gates.calls[k].call; var l := call.lease;
            exists j, p :: 0 <= j < p < n && SignedAt(steps, j, l)
                           && steps[p].Execute? && steps[p].execute.Present?
                           && var present := steps[p].execute;
                              && present.u == states[n].gates.calls[k].request && present.token == l
                              && present.input == call.input && present.gatekeeper == l.gatekeeper
                              && present.principal == l.principal && present.capability == l.capability
                              && call.capability == l.capability
                              && present.now / 1000 < steps[j].decide.now / 1000 + 300
  {
    EveryRunIsSafe(states, steps, n);
    var g := states[n].gates;
    assert G.CallOk(g, k);
    hide Invariant, Enabled, Next, G.CallOk;
    var p := RequestsPresentInTime(states, steps, n, g.calls[k].request);
    var l := g.requests[g.calls[k].request].lease;
    var j := LeasesAreSignedFor(states, steps, p, l.id);
    assert SignedAt(steps, j, l);
  }
}
