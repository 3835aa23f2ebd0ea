/** The whole approval protocol: policy control, gatekeepers and the assistant between them. */
module ApprovalProtocol {
  import opened Common
  import opened Approvals
  import D = DecisionSteps
  import G = GatekeeperSteps

  /** What the assistant recorded as the outcome of an approval, and the response it had. */
  datatype Note = Note(request: Option<nat>, outcome: Execution)

  /** `links` are the requests that the assistant sent, by the decision they follow; `notes` is
      history: the first outcome recorded for an approval. */
  datatype State = State(control: D.Control, gates: G.Gates, links: map<nat, nat>, notes: map<nat, Note>)

  const INITIAL := State(D.Control(map[], map[], map[], map[]), G.Gates(map[], map[], map[], []), map[], map[])

  /** A lease is presented by the assistant that received it, once, or replayed by anyone. */
  datatype Step =
    | Decide(decide: D.Step)
    | Execute(execute: G.Step, sender: Option<nat>)
    | Report(t: nat, answered: bool)

  /** The signature of a lease is valid if policy control signed it. */
  predicate Signed(c: D.Control, l: Lease) {
    l.id in c.leases && c.leases[l.id] == l
  }

  predicate HoldsLease(s: State, t: nat) {
    t in s.control.deciders && s.control.deciders[t].lease.Some?
  }

  predicate HasResponse(s: State, t: nat) {
    t in s.links && s.links[t] in s.gates.requests && s.gates.requests[s.links[t]].response.Some?
  }

  predicate Enabled(s: State, step: Step) {
    match step
    case Decide(d) => !d.Record? && D.Enabled(s.control, d)
    case Execute(e, sender) =>
      && G.Enabled(s.gates, e) && (e.Present? ==> Signed(s.control, e.token))
      && (sender.Some? ==> e.Present? && HoldsLease(s, sender.value) && sender.value !in s.links
                           && s.control.deciders[sender.value].lease == Some(e.token.id))
    case Report(t, answered) =>
      HoldsLease(s, t) && s.control.deciders[t].id in s.control.approvals && (answered ==> HasResponse(s, t))
  }

  /** Without a response the assistant records that it does not know. */
  function NoteFor(s: State, t: nat, answered: bool): Note
    requires answered ==> HasResponse(s, t)
  {
    if answered then Note(Some(s.links[t]), OutcomeOf(s.gates.requests[s.links[t]].response.value))
    else Note(None, Unknown)
  }

  function Next(s: State, step: Step): State
    requires Enabled(s, step)
  {
    match step
    case Decide(d) => s.(control := D.Next(s.control, d))
    case Execute(e, sender) =>
      s.(gates := G.Next(s.gates, e), links := if sender.Some? then s.links[sender.value := e.u] else s.links)
    case Report(t, answered) =>
      var id := s.control.deciders[t].id;
      var note := NoteFor(s, t, answered);
      var isFirst := s.control.approvals[id].execution == Running;
      s.(control := D.Next(s.control, D.Record(id, note.outcome)),
         notes := if isFirst then s.notes[id := note] else s.notes)
  }

  /** A run passes through `states` by taking `steps`. */
  ghost predicate IsRunFrom(s: State, states: seq<State>, steps: seq<Step>) {
    && |states| == |steps| + 1 && states[0] == s
    && forall i :: 0 <= i < |steps| ==> Enabled(states[i], steps[i]) && states[i + 1] == Next(states[i], steps[i])
  }

  ghost predicate IsRun(states: seq<State>, steps: seq<Step>) {
    IsRunFrom(INITIAL, states, steps)
  }

  // ---- The invariant ----

  ghost predicate AuthenticOk(s: State, u: nat) {
    u in s.gates.requests ==> Signed(s.control, s.gates.requests[u].lease)
  }

  ghost predicate LinkOk(s: State, t: nat) {
    t in s.links ==>
      && HoldsLease(s, t) && s.links[t] in s.gates.requests
      && s.gates.requests[s.links[t]].lease.id == s.control.deciders[t].lease.value
  }

  predicate Reported(e: Execution) {
    e in {Succeeded, Failed, Unknown}
  }

  /** The row shows the first outcome recorded, or what the owner made of an unknown one. */
  ghost predicate NoteOk(s: State, id: nat) {
    && (id in s.notes ==> id in s.control.approvals && NoteIsBacked(s, id))
    && (id in s.control.approvals ==>
          var e := s.control.approvals[id].execution;
          && (id in s.notes <==> Reported(e))
          && (id in s.notes ==> e == s.notes[id].outcome || (s.notes[id].outcome == Unknown && e != Running)))
  }

  ghost predicate NoteIsBacked(s: State, id: nat)
    requires id in s.notes
  {
    match s.notes[id]
    case Note(None, outcome) => outcome == Unknown
    case Note(Some(u), outcome) =>
      && u in s.gates.requests && s.gates.requests[u].lease.approval == id
      && s.gates.requests[u].response.Some? && outcome == OutcomeOf(s.gates.requests[u].response.value)
  }

  ghost predicate Ok(s: State, k: nat) {
    AuthenticOk(s, k) && LinkOk(s, k) && NoteOk(s, k)
  }

  ghost predicate Invariant(s: State) {
    && D.Invariant(s.control) && G.Invariant(s.gates)
    && forall k: nat :: Ok(s, k)
  }

  lemma DecideKeeps(s: State, step: Step, k: nat)
    requires Invariant(s) && Enabled(s, step) && step.Decide?
    ensures Ok(Next(s, step), k)
  {
    assert Ok(s, k);
    if k in s.gates.requests {
      D.StepKeepsLeases(s.control, step.decide, s.gates.requests[k].lease.id);
    }
    if k in s.links {
      D.StepKeepsDeciders(s.control, step.decide, k);
    }
    if k in s.control.approvals {
      D.StepKeepsDecision(s.control, step.decide, k);
    } else if k in Next(s, step).control.approvals {
      D.NewRow(s.control, step.decide, k);
    }
    hide D.Next, D.Invariant, G.Invariant;
  }

  lemma ExecuteKeepsAuthentic(s: State, step: Step, k: nat)
    requires Invariant(s) && Enabled(s, step) && step.Execute?
    ensures AuthenticOk(Next(s, step), k)
  {
    assert Ok(s, k);
    if k in s.gates.requests {
      G.StepKeepsRequests(s.gates, step.execute, k);
    } else if k in Next(s, step).gates.requests {
      G.NewRequest(s.gates, step.execute, k);
    }
    hide G.Next, D.Invariant, G.Invariant, G.Enabled;
  }

  lemma ExecuteKeepsLink(s: State, step: Step, k: nat)
    requires Invariant(s) && Enabled(s, step) && step.Execute?
    ensures LinkOk(Next(s, step), k)
  {
    assert Ok(s, k);
    if step.sender == Some(k) {
      G.NewRequest(s.gates, step.execute, step.execute.u);
    } else if k in s.links {
      G.StepKeepsRequests(s.gates, step.execute, s.links[k]);
    }
    hide G.Next, D.Invariant, G.Invariant, G.Enabled;
  }

  lemma ExecuteKeepsNote(s: State, step: Step, k: nat)
    requires Invariant(s) && Enabled(s, step) && step.Execute?
    ensures NoteOk(Next(s, step), k)
  {
    assert Ok(s, k);
    if k in s.notes && s.notes[k].request.Some? {
      G.StepKeepsRequests(s.gates, step.execute, s.notes[k].request.value);
    }
    hide G.Next, D.Invariant, G.Invariant, G.Enabled;
  }

  lemma ReportKeeps(s: State, step: Step, k: nat)
    requires Invariant(s) && Enabled(s, step) && step.Report?
    ensures Ok(Next(s, step), k)
  {
    var d := s.control.deciders[step.t];
    assert Ok(s, k) && Ok(s, step.t);
    assert D.Ok(s.control, step.t) && D.Ok(s.control, d.id);
    if step.answered {
      assert Ok(s, s.links[step.t]);
    }
    hide D.Invariant, G.Invariant;
  }

  lemma StepKeeps(s: State, step: Step)
    requires Invariant(s) && Enabled(s, step)
    ensures Invariant(Next(s, step))
  {
    var next := Next(s, step);
    forall k: nat
      ensures Ok(next, k)
    {
      match step
      case Decide(_) => DecideKeeps(s, step, k);
      case Execute(_, _) =>
        ExecuteKeepsAuthentic(s, step, k);
        ExecuteKeepsLink(s, step, k);
        ExecuteKeepsNote(s, step, k);
      case Report(_, _) => ReportKeeps(s, step, k);
    }
    match step {
      case Decide(d) => D.StepKeeps(s.control, d);
      case Execute(e, _) => G.StepKeeps(s.gates, e);
      case Report(t, answered) =>
        D.StepKeeps(s.control, D.Record(s.control.deciders[t].id, NoteFor(s, t, answered).outcome));
    }
    hide Ok, D.Invariant, G.Invariant, D.Next, G.Next;
  }

  lemma {:induction false} EveryRunIsSafe(states: seq<State>, steps: seq<Step>, n: nat)
    requires IsRun(states, steps) && n <= |steps|
    ensures Invariant(states[n])
  {
    hide Invariant, Next, Enabled;
    if n == 0 {
      InitialIsInvariant();
    } else {
      EveryRunIsSafe(states, steps, n - 1);
      StepKeeps(states[n - 1], steps[n - 1]);
    }
  }

  lemma InitialIsInvariant()
    ensures Invariant(INITIAL)
  {
    D.EmptyIsInvariant();
    G.EmptyIsInvariant();
  }

  // ---- The main results ----

  lemma CallHasSignedLease(s: State, k: nat)
    requires Invariant(s) && k < |s.gates.calls|
    ensures Signed(s.control, s.gates.calls[k].call.lease)
  {
    assert G.CallOk(s.gates, k) && Ok(s, s.gates.calls[k].request);
  }

  /** However requests interleave, are repeated or stop, an approval leads to at most one call
      to a provider. */
  lemma AtMostOneCallPerApproval(states: seq<State>, steps: seq<Step>, n: nat, i: nat, j: nat)
    requires IsRun(states, steps) && n <= |steps|
    requires i < |states[n].gates.calls| && j < |states[n].gates.calls|
    requires states[n].gates.calls[i].call.lease.approval == states[n].gates.calls[j].call.lease.approval
    ensures i == j
  {
    EveryRunIsSafe(states, steps, n);
    var s := states[n];
    CallHasSignedLease(s, i);
    CallHasSignedLease(s, j);
    D.OneLeasePerApproval(s.control, s.gates.calls[i].call.lease.id, s.gates.calls[j].call.lease.id);
    G.OneCallPerLease(s.gates, i, j);
  }

  /** That call is for an approval its owner accepted, and carries out exactly what was
      approved: the same capability and the same request, through the right gatekeeper. */
  lemma CallIsWhatWasApproved(states: seq<State>, steps: seq<Step>, n: nat, k: nat)
    requires IsRun(states, steps) && n <= |steps| && k < |states[n].gates.calls|
    ensures var call := states[n].gates.calls[k].call; var id := call.lease.approval;
            && id in states[n].control.approvals
            && var a := states[n].control.approvals[id];
               a.status == Approved && call.input == a.request && call.capability == a.capability
               && call.lease.gatekeeper == GatekeeperOf(a.capability) && call.lease.principal == a.principal
  {
    EveryRunIsSafe(states, steps, n);
    var s := states[n];
    CallHasSignedLease(s, k);
    G.CallMatchesLease(s.gates, k);
    var l := s.gates.calls[k].call.lease;
    assert D.Ok(s.control, l.id) && D.Ok(s.control, l.approval);
  }

  /** A decision is never changed nor undone, and neither are the terms decided about. */
  lemma {:induction false} DecisionIsFinal(states: seq<State>, steps: seq<Step>, n: nat, m: nat, id: nat)
    requires IsRun(states, steps) && n <= m <= |steps| && id in states[n].control.approvals
    ensures id in states[m].control.approvals
    ensures var a, b := states[n].control.approvals[id], states[m].control.approvals[id];
            && D.SameTerms(a, b)
            && (a.status != Pending ==> b.status == a.status && b.key == a.key)
            && (a.execution in {Succeeded, Failed} ==> b.execution == a.execution)
            && (a.execution == Unknown ==> b.execution in {Unknown, Succeeded, Failed})
    decreases m
  {
    if n < m {
      DecisionIsFinal(states, steps, n, m - 1, id);
      EveryRunIsSafe(states, steps, m - 1);
      ApprovalsKept(states[m - 1], steps[m - 1], id);
    }
  }

  lemma ApprovalsKept(s: State, step: Step, id: nat)
    requires Invariant(s) && Enabled(s, step) && id in s.control.approvals
    ensures id in Next(s, step).control.approvals
    ensures var a, b := s.control.approvals[id], Next(s, step).control.approvals[id];
            && D.SameTerms(a, b)
            && (a.status != Pending ==> b.status == a.status && b.key == a.key)
            && (a.execution in {Succeeded, Failed} ==> b.execution == a.execution)
            && (a.execution == Unknown ==> b.execution in {Unknown, Succeeded, Failed})
  {
    match step
    case Decide(d) => D.StepKeepsDecision(s.control, d, id);
    case Execute(_, _) =>
    case Report(t, answered) =>
      D.StepKeepsDecision(s.control, D.Record(s.control.deciders[t].id, NoteFor(s, t, answered).outcome), id);
  }

  /** An approval recorded as succeeded has a call that its provider accepted, unless the owner
      resolved an unknown outcome. */
  lemma RecordedSuccessIsReal(states: seq<State>, steps: seq<Step>, n: nat, id: nat)
    requires IsRun(states, steps) && n <= |steps|
    requires id in states[n].control.approvals && states[n].control.approvals[id].execution == Succeeded
    ensures id in states[n].notes
    ensures states[n].notes[id].outcome == Unknown
            || exists k :: 0 <= k < |states[n].gates.calls| && states[n].gates.calls[k].call.lease.approval == id
                           && states[n].gates.calls[k].call.outcome == Accepted
  {
    EveryRunIsSafe(states, steps, n);
    var s := states[n];
    assert Ok(s, id);
    if s.notes[id].outcome != Unknown {
      var u := s.notes[id].request.value;
      G.ResponseTellsTheCall(s.gates, u);
      var k := s.gates.requests[u].call.value;
      assert G.CallOk(s.gates, k);
    }
  }

  /** A call for the approval that its provider did not refuse: accepted, or without answer. */
  ghost predicate WasMade(s: State, id: nat) {
    exists k :: 0 <= k < |s.gates.calls| && s.gates.calls[k].call.lease.approval == id
                && s.gates.calls[k].call.outcome != Refused
  }

  /** Request `w` made that call, after it took the nonce that request `u` asked for in vain. */
  predicate LostTheNonceTo(g: G.Gates, u: nat, w: nat) {
    && u in g.requests && g.requests[u].response == Some(LeaseReplay)
    && G.NonceOf(g.requests[u]) in g.nonces && g.nonces[G.NonceOf(g.requests[u])] == w
    && w in g.requests && g.requests[w].call.Some? && g.requests[w].call.value < |g.calls|
    && g.calls[g.requests[w].call.value].call.outcome != Refused
  }

  /** An approval recorded as failed, by the response to request `u`. */
  predicate FailedBy(s: State, id: nat, u: nat) {
    id in s.notes && s.notes[id] == Note(Some(u), Failed)
  }

  lemma FailureIsFalseIf(s: State, id: nat, u: nat, w: nat)
    requires Invariant(s) && FailedBy(s, id, u) && LostTheNonceTo(s.gates, u, w)
    ensures WasMade(s, id)
  {
    var k := s.gates.requests[w].call.value;
    assert Ok(s, id) && Ok(s, u) && Ok(s, w);
    assert G.RequestOk(s.gates, w) && G.NonceOk(s.gates, G.NonceOf(s.gates.requests[u]));
    assert G.CallOk(s.gates, k);
    hide D.Invariant, G.Invariant;
  }

  lemma FailureIsFalseOnlyIf(s: State, id: nat, u: nat)
    requires Invariant(s) && FailedBy(s, id, u) && WasMade(s, id)
    ensures exists w :: LostTheNonceTo(s.gates, u, w)
  {
    var k :| 0 <= k < |s.gates.calls| && s.gates.calls[k].call.lease.approval == id
             && s.gates.calls[k].call.outcome != Refused;
    var w := s.gates.calls[k].request;
    assert Ok(s, id) && Ok(s, u) && Ok(s, w);
    assert G.CallOk(s.gates, k) && G.RequestOk(s.gates, w) && G.RequestOk(s.gates, u);
    D.OneLeasePerApproval(s.control, s.gates.requests[u].lease.id, s.gates.requests[w].lease.id);
    G.ResponseTellsTheCall(s.gates, u);
    hide D.Invariant, G.Invariant;
    assert LostTheNonceTo(s.gates, u, w);
  }

  /** An approval is recorded as failed by the response to a request. The record is wrong if
      and only if that request was refused as a replay and the request that had taken its
      nonce made a call which was not refused. */
  lemma RecordedFailureIsFalseWhen(states: seq<State>, steps: seq<Step>, n: nat, id: nat)
    requires IsRun(states, steps) && n <= |steps|
    requires id in states[n].notes && states[n].notes[id].outcome == Failed
    ensures states[n].notes[id].request.Some?
    ensures var u := states[n].notes[id].request.value;
            WasMade(states[n], id) <==> exists w :: LostTheNonceTo(states[n].gates, u, w)
  {
    EveryRunIsSafe(states, steps, n);
    var s := states[n];
    assert Ok(s, id);
    var u := s.notes[id].request.value;
    hide Invariant, IsRun, WasMade, LostTheNonceTo, Ok;
    if WasMade(s, id) {
      FailureIsFalseOnlyIf(s, id, u);
    }
    if w :| LostTheNonceTo(s.gates, u, w) {
      FailureIsFalseIf(s, id, u, w);
    }
  }

  /** When the recorded request was not refused as a replay, every call there was, was refused. */
  lemma RecordedFailureIsReal(states: seq<State>, steps: seq<Step>, n: nat, id: nat, k: nat)
    requires IsRun(states, steps) && n <= |steps|
    requires id in states[n].notes && states[n].notes[id].outcome == Failed
    requires var note := states[n].notes[id];
             note.request.Some? && note.request.value in states[n].gates.requests ==>
               states[n].gates.requests[note.request.value].response != Some(LeaseReplay)
    requires k < |states[n].gates.calls| && states[n].gates.calls[k].call.lease.approval == id
    ensures states[n].gates.calls[k].call.outcome == Refused
  {
    RecordedFailureIsFalseWhen(states, steps, n, id);
    hide IsRun;
  }

  // ---- An approved operation does get carried out ----

  lemma Joined(s: State, states: seq<State>, steps: seq<Step>, states': seq<State>, steps': seq<Step>)
    requires IsRunFrom(s, states, steps) && IsRunFrom(states[|steps|], states', steps')
    ensures IsRunFrom(s, states + states'[1..], steps + steps')
    ensures (states + states'[1..])[|steps + steps'|] == states'[|steps'|]
  {
    hide Enabled, Next;
    var all, done := states + states'[1..], steps + steps';
    forall i | 0 <= i < |done|
      ensures Enabled(all[i], done[i]) && all[i + 1] == Next(all[i], done[i])
    {
      if i >= |steps| {
        assert all[i] == states'[i - |steps|] && all[i + 1] == states'[i + 1 - |steps|];
      }
    }
  }

  /** When nothing interferes, a pending approval leads to a signed lease. */
  lemma ApprovalGivesLease(s: State, id: nat, t: nat, lease: nat, key: string, now: int)
    returns (states: seq<State>, steps: seq<Step>)
    requires Invariant(s) && id in s.control.approvals && t !in s.control.deciders && lease !in s.control.leases
    requires var a := s.control.approvals[id];
             a.status == Pending && now < a.expiresAt && a.capability != PluginGrant
    ensures IsRunFrom(s, states, steps)
    ensures var s' := states[|steps|]; var a := s.control.approvals[id];
            && s'.gates == s.gates && s'.links == s.links && s'.notes == s.notes
            && id in s'.control.approvals && s'.control.approvals[id] == Decided(a, Approve, key)
            && t in s'.control.deciders && s'.control.deciders[t].id == id
            && s'.control.deciders[t].lease == Some(lease)
            && lease in s'.control.leases && s'.control.leases[lease] == LeaseFor(id, a, lease, now)
  {
    var a := s.control.approvals[id];
    var step1 := Decide(D.ReadRow(t, id, a.principal, Approve, key, now));
    assert Enabled(s, step1);
    var s1 := Next(s, step1);
    var step2 := Decide(D.UpdateRow(t));
    assert Enabled(s1, step2);
    var s2 := Next(s1, step2);
    var step3 := Decide(D.IssueLease(t, lease, now));
    assert Enabled(s2, step3);
    var s3 := Next(s2, step3);
    states, steps := [s, s1, s2, s3], [step1, step2, step3];
  }

  /** A lease presented before it expires, for the first time and with the approved input, has
      its nonce consumed by that request. */
  lemma LeaseIsConsumed(s: State, t: nat, u: nat, token: Lease, input: string, now: int)
    returns (states: seq<State>, steps: seq<Step>)
    requires HoldsLease(s, t) && t !in s.links && s.control.deciders[t].lease == Some(token.id)
    requires Signed(s.control, token) && u !in s.gates.requests && (token.gatekeeper, token.id) !in s.gates.nonces
    requires Handles(token.gatekeeper, token.capability) && token.digest == Digest(input)
    requires now / 1000 < token.expiresAt
    ensures IsRunFrom(s, states, steps)
    ensures var s' := states[|steps|];
            && s'.control == s.control && s'.notes == s.notes && s'.links == s.links[t := u]
            && s'.gates.calls == s.gates.calls && u in s'.gates.requests
            && s'.gates.requests[u] == G.Request(token.gatekeeper, token, input, G.Consumed, None, None)
  {
    var step1 := Execute(G.Present(u, token.gatekeeper, token.principal, token.capability, token, input, now), Some(t));
    assert Enabled(s, step1);
    var s1 := Next(s, step1);
    var step2 := Execute(G.InsertNonce(u), None);
    assert Enabled(s1, step2);
    states, steps := [s, s1, Next(s1, step2)], [step1, step2];
  }

  /** From there one accepted call follows, and a response that tells so. */
  lemma ConsumedLeaseGivesCall(s: State, u: nat, r: G.Request) returns (states: seq<State>, steps: seq<Step>)
    requires u in s.gates.requests && r == s.gates.requests[u] && r.phase == G.Consumed
    ensures IsRunFrom(s, states, steps)
    ensures var s' := states[|steps|];
            && s'.control == s.control && s'.notes == s.notes && s'.links == s.links
            && s'.gates.calls == s.gates.calls + [G.Made(Call(r.lease, r.lease.capability, r.input, Accepted), u)]
            && u in s'.gates.requests && s'.gates.requests[u].response == Some(WriteSucceeded)
  {
    var step1 := Execute(G.InsertRecord(u), None);
    assert Enabled(s, step1);
    var s1 := Next(s, step1);
    var step2 := Execute(G.CallProvider(u, Accepted), None);
    assert Enabled(s1, step2);
    var s2 := Next(s1, step2);
    var step3 := Execute(G.UpdateRecord(u, true), None);
    assert Enabled(s2, step3);
    states, steps := [s, s1, s2, Next(s2, step3)], [step1, step2, step3];
  }

  lemma NonceIsOfSignedLease(s: State, n: G.Nonce)
    requires Invariant(s)
    ensures n in s.gates.nonces ==> n.1 in s.control.leases
  {
    if n in s.gates.nonces {
      assert G.NonceOk(s.gates, n);
      assert Ok(s, s.gates.nonces[n]);
    }
  }

  lemma ResponseIsReported(s: State, t: nat) returns (states: seq<State>, steps: seq<Step>)
    requires HoldsLease(s, t) && s.control.deciders[t].id in s.control.approvals && HasResponse(s, t)
    requires var a := s.control.approvals[s.control.deciders[t].id]; a.status == Approved && a.execution == Running
    ensures IsRunFrom(s, states, steps)
    ensures var s' := states[|steps|]; var id := s.control.deciders[t].id;
            && s'.gates == s.gates && id in s'.control.approvals
            && s'.control.approvals[id].execution == OutcomeOf(s.gates.requests[s.links[t]].response.value)
  {
    var step := Report(t, true);
    assert Enabled(s, step);
    states, steps := [s, Next(s, step)], [step];
  }

  /** In every reachable state, a pending approval that has not expired can be approved, carried
      out by one accepted call, and recorded as succeeded. */
  lemma ApprovedOperationCanSucceed(s: State, id: nat, t: nat, u: nat, lease: nat, key: string, now: int)
    returns (states: seq<State>, steps: seq<Step>)
    requires Invariant(s) && id in s.control.approvals && t !in s.control.deciders && lease !in s.control.leases
    requires u !in s.gates.requests
    requires var a := s.control.approvals[id];
             a.status == Pending && now < a.expiresAt && Handles(a.gatekeeper, a.capability)
    ensures IsRunFrom(s, states, steps)
    ensures var s' := states[|steps|]; var a := s.control.approvals[id];
            && id in s'.control.approvals && s'.control.approvals[id].execution == Succeeded
            && s'.gates.calls == s.gates.calls
                 + [G.Made(Call(LeaseFor(id, a, lease, now), a.capability, a.request, Accepted), u)]
  {
    var a := s.control.approvals[id];
    var token := LeaseFor(id, a, lease, now);
    states, steps := ApprovalGivesLease(s, id, t, lease, key, now);
    NonceIsOfSignedLease(s, (token.gatekeeper, lease));
    assert Ok(s, t);
    hide Invariant, IsRunFrom, Handles;
    var s1 := states[|steps|];
    var states2, steps2 := LeaseIsConsumed(s1, t, u, token, a.request, now);
    Joined(s, states, steps, states2, steps2);
    states, steps := states + states2[1..], steps + steps2;
    var s2 := states[|steps|];
    var states3, steps3 := ConsumedLeaseGivesCall(s2, u, s2.gates.requests[u]);
    Joined(s, states, steps, states3, steps3);
    states, steps := states + states3[1..], steps + steps3;
    var s3 := states[|steps|];
    var states4, steps4 := ResponseIsReported(s3, t);
    Joined(s, states, steps, states4, steps4);
    states, steps := states + states4[1..], steps + steps4;
  }

  // ---- A record that is wrong ----

  /** A lease that was presented twice: both requests are verified, the assistant's second. */
  lemma LeaseIsPresentedTwice(s: State, t: nat, u: nat, w: nat, token: Lease, input: string, now: int)
    returns (states: seq<State>, steps: seq<Step>)
    requires HoldsLease(s, t) && t !in s.links && s.control.deciders[t].lease == Some(token.id)
    requires Signed(s.control, token) && u != w && u !in s.gates.requests && w !in s.gates.requests
    requires (token.gatekeeper, token.id) !in s.gates.nonces && now / 1000 < token.expiresAt
    requires Handles(token.gatekeeper, token.capability) && token.digest == Digest(input)
    ensures IsRunFrom(s, states, steps)
    ensures var s' := states[|steps|];
            var verified := G.Request(token.gatekeeper, token, input, G.Verified, None, None);
            && s'.control == s.control && s'.links == s.links[t := u]
            && s'.gates == s.gates.(requests := s.gates.requests[w := verified][u := verified])
  {
    var step1 := Execute(G.Present(w, token.gatekeeper, token.principal, token.capability, token, input, now), None);
    assert Enabled(s, step1);
    var s1 := Next(s, step1);
    var step2 := Execute(G.Present(u, token.gatekeeper, token.principal, token.capability, token, input, now), Some(t));
    assert Enabled(s1, step2);
    states, steps := [s, s1, Next(s1, step2)], [step1, step2];
  }

  /** The other request takes the nonce, and the assistant's is refused as a replay. */
  lemma SecondIsRefused(s: State, u: nat, w: nat, r: G.Request) returns (states: seq<State>, steps: seq<Step>)
    requires u != w && u in s.gates.requests && w in s.gates.requests
    requires s.gates.requests[u] == s.gates.requests[w] == r && r.phase == G.Verified
    requires G.NonceOf(r) !in s.gates.nonces
    ensures IsRunFrom(s, states, steps)
    ensures var s' := states[|steps|];
            && s'.control == s.control && s'.links == s.links && s'.gates.calls == s.gates.calls
            && u in s'.gates.requests && s'.gates.requests[u].response == Some(LeaseReplay)
            && w in s'.gates.requests && s'.gates.requests[w] == r.(phase := G.Consumed)
  {
    var step1 := Execute(G.InsertNonce(w), None);
    assert Enabled(s, step1);
    var s1 := Next(s, step1);
    var step2 := Execute(G.InsertNonce(u), None);
    assert Enabled(s1, step2);
    states, steps := [s, s1, Next(s1, step2)], [step1, step2];
  }

  lemma OthersResponseStays(s: State, u: nat, w: nat, r: G.Request) returns (states: seq<State>, steps: seq<Step>)
    requires u != w && u in s.gates.requests && w in s.gates.requests
    requires r == s.gates.requests[w] && r.phase == G.Consumed
    ensures IsRunFrom(s, states, steps)
    ensures var s' := states[|steps|];
            && s'.control == s.control && s'.links == s.links
            && u in s'.gates.requests && s'.gates.requests[u] == s.gates.requests[u]
            && s'.gates.calls == s.gates.calls + [G.Made(Call(r.lease, r.lease.capability, r.input, Accepted), w)]
  {
    var step1 := Execute(G.InsertRecord(w), None);
    assert Enabled(s, step1);
    var s1 := Next(s, step1);
    var step2 := Execute(G.CallProvider(w, Accepted), None);
    assert Enabled(s1, step2);
    states, steps := [s, s1, Next(s1, step2)], [step1, step2];
  }

  lemma CreatedApproval(principal: string, request: string, now: int)
    returns (states: seq<State>, steps: seq<Step>)
    ensures IsRun(states, steps) && |steps| == 1
    ensures states[1] == INITIAL.(control := INITIAL.control.(
                approvals := map[0 := NewApproval(principal, GmailSend, request, now)]))
  {
    var step := Decide(D.Create(0, principal, GmailSend, request, now));
    assert Enabled(INITIAL, step);
    states, steps := [INITIAL, Next(INITIAL, step)], [step];
  }

  /** The run that breaks the record: another request with the assistant's lease takes the
      nonce and sends the message, while the assistant is told of a replay and records that the
      operation failed. */
  lemma ReplayIsRecordedAsFailure(principal: string, request: string, now: int)
    returns (states: seq<State>, steps: seq<Step>)
    ensures IsRun(states, steps)
    ensures var s := states[|steps|];
            && 0 in s.control.approvals && s.control.approvals[0].execution == Failed
            && |s.gates.calls| == 1 && s.gates.calls[0].call.outcome == Accepted
            && s.gates.calls[0].call.lease.approval == 0 && s.gates.calls[0].call.input == request
  {
    states, steps := CreatedApproval(principal, request, now);
    EveryRunIsSafe(states, steps, 1);
    var a := states[1].control.approvals[0];
    var token := LeaseFor(0, a, 0, now);
    var states2, steps2 := ApprovalGivesLease(states[1], 0, 0, 0, "key", now);
    hide Invariant, IsRunFrom, Handles;
    Joined(INITIAL, states, steps, states2, steps2);
    states, steps := states + states2[1..], steps + steps2;
    var s2 := states[|steps|];
    states2, steps2 := LeaseIsPresentedTwice(s2, 0, 0, 1, token, request, now);
    Joined(INITIAL, states, steps, states2, steps2);
    states, steps := states + states2[1..], steps + steps2;
    var s3 := states[|steps|];
    states2, steps2 := SecondIsRefused(s3, 0, 1, s3.gates.requests[0]);
    Joined(INITIAL, states, steps, states2, steps2);
    states, steps := states + states2[1..], steps + steps2;
    var s4 := states[|steps|];
    states2, steps2 := OthersResponseStays(s4, 0, 1, s4.gates.requests[1]);
    Joined(INITIAL, states, steps, states2, steps2);
    states, steps := states + states2[1..], steps + steps2;
    var s5 := states[|steps|];
    states2, steps2 := ResponseIsReported(s5, 0);
    Joined(INITIAL, states, steps, states2, steps2);
    states, steps := states + states2[1..], steps + steps2;
  }
}
