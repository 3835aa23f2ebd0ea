/** Policy control as a machine over its single statements. Statements of any number of requests
    interleave, and a request may stop between any two of them. */
module DecisionSteps {
  import opened Common
  import opened Approvals

  datatype Phase = Read | Lost | Won

  /** A request to decide that found the row pending; it goes on with `row` as it read it. */
  datatype Decider = Decider(id: nat, decision: Decision, key: string, row: Approval, phase: Phase, lease: Option<nat>)

  /** The table of approvals, the leases that were signed and the requests under way; `winners`
      is history: the request whose UPDATE changed the row. */
  datatype Control = Control(
    approvals: map<nat, Approval>,
    leases: map<nat, Lease>,
    deciders: map<nat, Decider>,
    winners: map<nat, nat>)

  datatype Step =
    | Create(id: nat, principal: string, capability: Capability, request: string, now: int)
    | ReadRow(t: nat, id: nat, principal: string, decision: Decision, key: string, now: int)
    | UpdateRow(t: nat)
    | IssueLease(t: nat, lease: nat, now: int)
    | Record(id: nat, outcome: Execution)
    | Reconcile(id: nat, principal: string, succeeded: bool)

  function RowOf(c: Control, id: nat): Option<Approval> {
    if id in c.approvals then Some(c.approvals[id]) else None
  }

  predicate Enabled(c: Control, step: Step) {
    match step
    case Create(id, _, _, _, _) => id !in c.approvals
    case ReadRow(t, id, principal, decision, key, now) =>
      t !in c.deciders && AnswerFor(RowOf(c, id), principal, decision, key, now) == Proceed
    case UpdateRow(t) =>
      t in c.deciders && c.deciders[t].phase == Read && c.deciders[t].id in c.approvals
    case IssueLease(t, lease, _) =>
      t in c.deciders && lease !in c.leases && MayIssue(c.deciders[t])
    case Record(id, outcome) => id in c.approvals && outcome in {Succeeded, Failed, Unknown}
    case Reconcile(id, principal, _) => id in c.approvals && c.approvals[id].principal == principal
  }

  predicate MayIssue(d: Decider) {
    d.phase == Won && d.decision == Approve && d.row.capability != PluginGrant && d.lease == None
  }

  function Updated(c: Control, t: nat): Control
    requires t in c.deciders && c.deciders[t].id in c.approvals
  {
    var d := c.deciders[t];
    var a := c.approvals[d.id];
    if a.status == Pending then
      c.(approvals := c.approvals[d.id := Decided(a, d.decision, d.key)],
         deciders := c.deciders[t := d.(phase := Won)], winners := c.winners[d.id := t])
    else c.(deciders := c.deciders[t := d.(phase := Lost)])
  }

  function Next(c: Control, step: Step): Control
    requires Enabled(c, step)
  {
    match step
    case Create(id, principal, capability, request, now) =>
      c.(approvals := c.approvals[id := NewApproval(principal, capability, request, now)])
    case ReadRow(t, id, _, decision, key, _) =>
      c.(deciders := c.deciders[t := Decider(id, decision, key, c.approvals[id], Read, None)])
    case UpdateRow(t) => Updated(c, t)
    case IssueLease(t, lease, now) =>
      var d := c.deciders[t];
      c.(leases := c.leases[lease := LeaseFor(d.id, d.row, lease, now)],
         deciders := c.deciders[t := d.(lease := Some(lease))])
    case Record(id, outcome) =>
      c.(approvals := c.approvals[id := Recorded(c.approvals[id], outcome)])
    case Reconcile(id, _, succeeded) =>
      c.(approvals := c.approvals[id := Reconciled(c.approvals[id], if succeeded then Succeeded else Failed)])
  }

  // ---- The invariant, item by item ----

  /** The columns that no statement ever changes. */
  predicate SameTerms(a: Approval, b: Approval) {
    b == a.(status := b.status, key := b.key, execution := b.execution)
  }

  ghost predicate ApprovalOk(c: Control, id: nat) {
    id in c.approvals ==>
      var a := c.approvals[id];
      && a.digest == Digest(a.request) && a.gatekeeper == GatekeeperOf(a.capability)
      && (a.status == Pending <==> id !in c.winners)
      && (a.status == Approved <==> a.execution != NoExecution)
  }

  /** The winner of a decision is the request whose decision the row shows. */
  ghost predicate WinnerOk(c: Control, id: nat) {
    id in c.winners ==>
      && id in c.approvals && c.winners[id] in c.deciders
      && var d := c.deciders[c.winners[id]];
         d.id == id && d.phase == Won
         && c.approvals[id].status == StatusOf(d.decision) && c.approvals[id].key == Some(d.key)
  }

  ghost predicate DeciderOk(c: Control, t: nat) {
    t in c.deciders ==>
      var d := c.deciders[t];
      && d.id in c.approvals && SameTerms(d.row, c.approvals[d.id])
      && (d.phase == Won ==> d.id in c.winners && c.winners[d.id] == t)
      && (d.lease.Some? ==> d.phase == Won && d.lease.value in c.leases && c.leases[d.lease.value].approval == d.id)
  }

  predicate Covers(l: Lease, a: Approval) {
    && a.status == Approved && l.principal == a.principal && l.capability == a.capability
    && l.gatekeeper == a.gatekeeper && l.digest == a.digest
  }

  /** A lease carries the terms of an approved row and belongs to the request that decided it. */
  ghost predicate LeaseOk(c: Control, j: nat) {
    j in c.leases ==>
      var l := c.leases[j];
      && l.id == j && l.approval in c.approvals && Covers(l, c.approvals[l.approval])
      && l.approval in c.winners
      && c.winners[l.approval] in c.deciders && c.deciders[c.winners[l.approval]].lease == Some(j)
  }

  ghost predicate Ok(c: Control, k: nat) {
    ApprovalOk(c, k) && WinnerOk(c, k) && DeciderOk(c, k) && LeaseOk(c, k)
  }

  ghost predicate Invariant(c: Control) {
    forall k: nat :: Ok(c, k)
  }

  // ---- Every step keeps it ----

  lemma CreateKeeps(c: Control, step: Step, k: nat)
    requires Invariant(c) && Enabled(c, step) && step.Create?
    ensures Ok(Next(c, step), k)
  {
    assert Ok(c, k) && Ok(c, step.id);
  }

  lemma ReadKeeps(c: Control, step: Step, k: nat)
    requires Invariant(c) && Enabled(c, step) && step.ReadRow?
    ensures Ok(Next(c, step), k)
  {
    assert Ok(c, k);
  }

  lemma UpdateKeeps(c: Control, step: Step, k: nat)
    requires Invariant(c) && Enabled(c, step) && step.UpdateRow?
    ensures Ok(Next(c, step), k)
  {
    assert Ok(c, k) && Ok(c, c.deciders[step.t].id);
  }

  lemma IssueKeeps(c: Control, step: Step, k: nat)
    requires Invariant(c) && Enabled(c, step) && step.IssueLease?
    ensures Ok(Next(c, step), k)
  {
    assert Ok(c, k) && Ok(c, step.t) && Ok(c, c.deciders[step.t].id);
  }

  lemma OutcomeKeeps(c: Control, step: Step, k: nat)
    requires Invariant(c) && Enabled(c, step) && (step.Record? || step.Reconcile?)
    ensures Ok(Next(c, step), k)
  {
    assert Ok(c, k);
  }

  lemma StepKeeps(c: Control, step: Step)
    requires Invariant(c) && Enabled(c, step)
    ensures Invariant(Next(c, step))
  {
    var next := Next(c, step);
    hide Ok, Enabled, Next;
    forall k: nat
      ensures Ok(next, k)
    {
      match step
      case Create(_, _, _, _, _) => CreateKeeps(c, step, k);
      case ReadRow(_, _, _, _, _, _) => ReadKeeps(c, step, k);
      case UpdateRow(_) => UpdateKeeps(c, step, k);
      case IssueLease(_, _, _) => IssueKeeps(c, step, k);
      case Record(_, _) => OutcomeKeeps(c, step, k);
      case Reconcile(_, _, _) => OutcomeKeeps(c, step, k);
    }
  }

  lemma EmptyIsInvariant()
    ensures Invariant(Control(map[], map[], map[], map[]))
  {}

  // ---- What the invariant and the steps give ----

  /** At most one lease is ever signed for an approval. */
  lemma OneLeasePerApproval(c: Control, i: nat, j: nat)
    requires Invariant(c) && i in c.leases && j in c.leases && c.leases[i].approval == c.leases[j].approval
    ensures i == j
  {
    assert Ok(c, i) && Ok(c, j);
  }

  /** Nothing changes the terms of an approval, nor a decision that was made; Succeeded and
      Failed are final, and Unknown is resolved by the owner only. */
  lemma StepKeepsDecision(c: Control, step: Step, id: nat)
    requires Invariant(c) && Enabled(c, step) && id in c.approvals
    ensures id in Next(c, step).approvals
    ensures var a, b := c.approvals[id], Next(c, step).approvals[id];
            && SameTerms(a, b)
            && (a.status != Pending ==> b.status == a.status && b.key == a.key)
            && (a.execution != b.execution ==>
                  || (a.execution == NoExecution && b.execution == Running && step.UpdateRow?)
                  || (a.execution == Running && step.Record? && b.execution == step.outcome)
                  || (a.execution == Unknown && step.Reconcile? && step.principal == a.principal
                      && b.execution == if step.succeeded then Succeeded else Failed))
  {
    assert Ok(c, id);
  }

  /** Leases are kept as they were signed. */
  lemma StepKeepsLeases(c: Control, step: Step, j: nat)
    requires Enabled(c, step) && j in c.leases
    ensures j in Next(c, step).leases && Next(c, step).leases[j] == c.leases[j]
  {}

  /** A request keeps the lease it was given. */
  lemma StepKeepsDeciders(c: Control, step: Step, t: nat)
    requires Enabled(c, step) && t in c.deciders && c.deciders[t].lease.Some?
    ensures t in Next(c, step).deciders
    ensures Next(c, step).deciders[t].lease == c.deciders[t].lease && Next(c, step).deciders[t].id == c.deciders[t].id
  {}

  /** A decision that nothing interrupts is the handler's: the row is decided as it was read, and
      an approved operation of a gatekeeper gets the lease of that row. */
  lemma DecideIsItsSteps(c: Control, t: nat, id: nat, principal: string, decision: Decision, key: string, now: int,
                         lease: nat)
    requires t !in c.deciders && lease !in c.leases
    requires AnswerFor(RowOf(c, id), principal, decision, key, now) == Proceed
    ensures Enabled(c, ReadRow(t, id, principal, decision, key, now))
    ensures var c1 := Next(c, ReadRow(t, id, principal, decision, key, now));
            && Enabled(c1, UpdateRow(t))
            && var c2 := Next(c1, UpdateRow(t)); var a := c.approvals[id];
               && c2.approvals == c.approvals[id := Decided(a, decision, key)] && c2.leases == c.leases
               && (Enabled(c2, IssueLease(t, lease, now)) <==> decision == Approve && a.capability != PluginGrant)
               && (decision == Approve && a.capability != PluginGrant ==>
                     var c3 := Next(c2, IssueLease(t, lease, now));
                     && c3.approvals == c2.approvals
                     && c3.leases == c.leases[lease := LeaseFor(id, c2.approvals[id], lease, now)])
  {}

  /** A row starts without an execution. */
  lemma NewRow(c: Control, step: Step, id: nat)
    requires Enabled(c, step) && id !in c.approvals && id in Next(c, step).approvals
    ensures Next(c, step).approvals[id].execution == NoExecution
  {}
}
