/** The gatekeepers as a machine over their single statements. Any lease may be presented any
    number of times, statements of all requests interleave, and a request may stop between
    any two of them. */
module GatekeeperSteps {
  import opened Common
  import opened Approvals

  datatype Phase = Verified | Consumed | Recording | Called | Answered

  /** A request whose lease was verified, the position of the call it made, and its response. */
  datatype Request = Request(
    gatekeeper: GatekeeperId, lease: Lease, input: string,
    phase: Phase, call: Option<nat>, response: Option<Response>)

  datatype Made = Made(call: Call, request: nat)

  type Nonce = (GatekeeperId, nat)

  /** The two tables of every gatekeeper, the requests under way and the calls that providers
      received in their order. Which request consumed a nonce is history. */
  datatype Gates = Gates(
    nonces: map<Nonce, nat>,
    records: map<Nonce, RecordStatus>,
    requests: map<nat, Request>,
    calls: seq<Made>)

  function NonceOf(r: Request): Nonce {
    (r.gatekeeper, r.lease.id)
  }

  datatype Step =
    | Present(u: nat, gatekeeper: GatekeeperId, principal: string, capability: Capability,
              token: Lease, input: string, now: int)
    | InsertNonce(u: nat)
    | InsertRecord(u: nat)
    | FindNoConnection(u: nat)
    | CallProvider(u: nat, outcome: Outcome)
    | UpdateRecord(u: nat, stored: bool)

  predicate InPhase(g: Gates, u: nat, phase: Phase) {
    u in g.requests && g.requests[u].phase == phase
  }

  predicate Enabled(g: Gates, step: Step) {
    match step
    case Present(u, gatekeeper, principal, capability, token, input, now) =>
      && u !in g.requests && Handles(gatekeeper, capability)
      && Verifies(token, gatekeeper, principal, capability, input, now)
    case InsertNonce(u) => InPhase(g, u, Verified)
    case InsertRecord(u) => InPhase(g, u, Consumed)
    case FindNoConnection(u) => InPhase(g, u, Recording)
    case CallProvider(u, _) => InPhase(g, u, Recording)
    case UpdateRecord(u, _) =>
      InPhase(g, u, Called) && g.requests[u].call.Some? && g.requests[u].call.value < |g.calls|
  }

  function Answer(r: Request, response: Response): Request {
    r.(phase := Answered, response := Some(response))
  }

  function Next(g: Gates, step: Step): Gates
    requires Enabled(g, step)
  {
    var u := step.u;
    match step
    case Present(_, gatekeeper, _, _, token, input, _) =>
      g.(requests := g.requests[u := Request(gatekeeper, token, input, Verified, None, None)])
    case InsertNonce(_) =>
      var r := g.requests[u];
      if NonceOf(r) in g.nonces then g.(requests := g.requests[u := Answer(r, LeaseReplay)])
      else g.(requests := g.requests[u := r.(phase := Consumed)], nonces := g.nonces[NonceOf(r) := u])
    case InsertRecord(_) =>
      var r := g.requests[u];
      g.(requests := g.requests[u := r.(phase := Recording)], records := g.records[NonceOf(r) := Claimed])
    case FindNoConnection(_) =>
      g.(requests := g.requests[u := Answer(g.requests[u], ConnectionNotFound)])
    case CallProvider(_, outcome) =>
      var r := g.requests[u];
      g.(requests := g.requests[u := r.(phase := Called, call := Some(|g.calls|))],
         calls := g.calls + [Made(Call(r.lease, r.lease.capability, r.input, outcome), u)])
    case UpdateRecord(_, stored) =>
      var r := g.requests[u];
      var status := RecordFor(g.calls[r.call.value].call.outcome, stored);
      g.(requests := g.requests[u := Answer(r, ResponseFor(status))], records := g.records[NonceOf(r) := status])
  }

  // ---- The invariant, item by item ----

  predicate HasConsumed(r: Request) {
    r.phase in {Consumed, Recording, Called} || (r.phase == Answered && r.response != Some(LeaseReplay))
  }

  predicate HasCalled(r: Request) {
    r.phase == Called
    || (r.phase == Answered && r.response in {Some(WriteSucceeded), Some(WriteFailed), Some(WriteUnknown)})
  }

  /** What passed the checks stays so, and only the request that consumed the nonce goes on. */
  ghost predicate RequestOk(g: Gates, u: nat) {
    u in g.requests ==>
      var r := g.requests[u];
      && r.gatekeeper == r.lease.gatekeeper && r.lease.digest == Digest(r.input)
      && (HasConsumed(r) ==> NonceOf(r) in g.nonces && g.nonces[NonceOf(r)] == u)
      && (r.phase == Answered <==> r.response.Some?)
      && (HasCalled(r) <==> r.call.Some?)
      && (r.call.Some? ==> r.call.value < |g.calls| && g.calls[r.call.value].request == u)
  }

  ghost predicate NonceOk(g: Gates, n: Nonce) {
    n in g.nonces ==>
      && g.nonces[n] in g.requests && NonceOf(g.requests[g.nonces[n]]) == n && HasConsumed(g.requests[g.nonces[n]])
  }

  ghost predicate CallOk(g: Gates, k: nat) {
    k < |g.calls| ==>
      && g.calls[k].request in g.requests
      && var r := g.requests[g.calls[k].request]; var c := g.calls[k].call;
         r.call == Some(k) && c.lease == r.lease && c.capability == r.lease.capability && c.input == r.input
  }

  /** Record and response tell the outcome of the call; otherwise the record stays open. */
  ghost predicate RecordOk(g: Gates, u: nat) {
    u in g.requests && HasConsumed(g.requests[u]) && g.requests[u].phase != Consumed ==>
      var r := g.requests[u];
      && NonceOf(r) in g.records
      && if r.call.Some? && r.response.Some? then
           && r.call.value < |g.calls|
           && var o := g.calls[r.call.value].call.outcome;
              g.records[NonceOf(r)] in {RecordFor(o, true), RecordFor(o, false)}
              && r.response == Some(ResponseFor(g.records[NonceOf(r)]))
         else g.records[NonceOf(r)] == Claimed
  }

  ghost predicate Invariant(g: Gates) {
    && (forall u :: RequestOk(g, u))
    && (forall u :: RecordOk(g, u))
    && (forall n :: NonceOk(g, n))
    && (forall k :: CallOk(g, k))
  }

  lemma EmptyIsInvariant()
    ensures Invariant(Gates(map[], map[], map[], []))
  {}

  // ---- Every step keeps it ----

  lemma RequestStep(g: Gates, step: Step, u: nat)
    requires Invariant(g) && Enabled(g, step)
    ensures RequestOk(Next(g, step), u)
  {
    assert RequestOk(g, u);
    hide Verifies, Handles, Invariant, RecordOk, NonceOk, CallOk, RecordFor;
  }

  lemma NonceStep(g: Gates, step: Step, n: Nonce)
    requires Invariant(g) && Enabled(g, step)
    ensures NonceOk(Next(g, step), n)
  {
    assert NonceOk(g, n) && RequestOk(g, step.u);
  }

  lemma CallStep(g: Gates, step: Step, k: nat)
    requires Invariant(g) && Enabled(g, step)
    ensures CallOk(Next(g, step), k)
  {
    assert CallOk(g, k) && RequestOk(g, step.u);
  }

  lemma RecordStep(g: Gates, step: Step, u: nat)
    requires Invariant(g) && Enabled(g, step)
    ensures RecordOk(Next(g, step), u)
  {
    assert RecordOk(g, u) && RequestOk(g, u) && RequestOk(g, step.u);
  }

  lemma StepKeeps(g: Gates, step: Step)
    requires Invariant(g) && Enabled(g, step)
    ensures Invariant(Next(g, step))
  {
    var next := Next(g, step);
    forall u: nat
      ensures RequestOk(next, u) && RecordOk(next, u) && CallOk(next, u)
    {
      RequestStep(g, step, u);
      RecordStep(g, step, u);
      CallStep(g, step, u);
    }
    forall n
      ensures NonceOk(next, n)
    {
      NonceStep(g, step, n);
    }
    hide RequestOk, RecordOk, CallOk, NonceOk, Next;
  }

  // ---- What the invariant and the steps give ----

  /** However often a lease is presented, at most one call is made with it. */
  lemma OneCallPerLease(g: Gates, i: nat, j: nat)
    requires Invariant(g) && i < |g.calls| && j < |g.calls| && g.calls[i].call.lease == g.calls[j].call.lease
    ensures i == j
  {
    assert CallOk(g, i) && CallOk(g, j);
    assert RequestOk(g, g.calls[i].request) && RequestOk(g, g.calls[j].request);
  }

  /** A call is made with exactly the input that the lease's digest was taken from. */
  lemma CallMatchesLease(g: Gates, k: nat)
    requires Invariant(g) && k < |g.calls|
    ensures var c := g.calls[k].call; c.capability == c.lease.capability && Digest(c.input) == c.lease.digest
  {
    assert CallOk(g, k);
    assert RequestOk(g, g.calls[k].request);
  }

  /** The response tells whether there was a call, and how it was taken. */
  lemma ResponseTellsTheCall(g: Gates, u: nat)
    requires Invariant(g) && u in g.requests && g.requests[u].response.Some?
    ensures var r := g.requests[u];
            && (r.call.Some? ==> r.call.value < |g.calls| && g.calls[r.call.value].request == u)
            && (r.call.Some? <==> r.response.value in {WriteSucceeded, WriteFailed, WriteUnknown})
            && (r.response == Some(WriteSucceeded) ==> g.calls[r.call.value].call.outcome == Accepted)
            && (r.response == Some(WriteFailed) <==> r.call.Some? && g.calls[r.call.value].call.outcome == Refused)
  {
    assert RequestOk(g, u) && RecordOk(g, u);
  }

  /** What a request presented, the calls made and the responses given are kept. */
  lemma StepKeepsRequests(g: Gates, step: Step, u: nat)
    requires Invariant(g) && Enabled(g, step) && u in g.requests
    ensures var g' := Next(g, step);
            && u in g'.requests
            && g'.requests[u].lease == g.requests[u].lease && g'.requests[u].input == g.requests[u].input
            && (g.requests[u].response.Some? ==> g'.requests[u] == g.requests[u])
            && g.calls <= g'.calls
  {
    assert RequestOk(g, u);
  }

  lemma NewRequest(g: Gates, step: Step, u: nat)
    requires Enabled(g, step) && u !in g.requests && u in Next(g, step).requests
    ensures step.Present? && u == step.u && Next(g, step).requests[u].lease == step.token
  {}
}
