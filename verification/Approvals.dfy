/** Approvals, execution leases and gatekeepers: what each handler does with its own store.
    Instants are in milliseconds. Handlers run here without interruption; the module
    ApprovalProtocol cuts them into their single statements. */
module Approvals {
  import opened Common

  datatype Capability =
    | GmailDraft | GmailSend | CalendarEvent
    | GithubIssue | GithubComment
    | ConnectorResults
    | DiscordDestination | DiscordPolicy | DiscordDelivery
    | PluginGrant

  datatype GatekeeperId = Google | GitHub | Discord | ModelRouter | PluginControl

  function GatekeeperOf(c: Capability): GatekeeperId {
    match c
    case GithubIssue | GithubComment => GitHub
    case PluginGrant => PluginControl
    case DiscordDestination | DiscordPolicy | DiscordDelivery => Discord
    case ConnectorResults => ModelRouter
    case GmailDraft | GmailSend | CalendarEvent => Google
  }

  /** The capabilities for which a gatekeeper's writeInput accepts an input. */
  predicate Handles(g: GatekeeperId, c: Capability) {
    match c
    case GmailDraft | GmailSend | CalendarEvent => g == Google
    case GithubIssue | GithubComment => g == GitHub
    case _ => false
  }

  /** The two gatekeepers for which this holds handle what is theirs, and nothing else. */
  lemma HandlesItsOwn(g: GatekeeperId, c: Capability)
    ensures Handles(g, c) <==> g == GatekeeperOf(c) && g in {Google, GitHub}
  {}

  /** SHA-256 over the canonical JSON of a request, idealised as injective. */
  datatype Digest = Digest(request: string)

  datatype Decision = Approve | Reject
  datatype Status = Pending | Approved | Rejected
  datatype Execution = NoExecution | Running | Succeeded | Failed | Unknown

  datatype Approval = Approval(
    principal: string,
    capability: Capability,
    gatekeeper: GatekeeperId,
    request: string,
    digest: Digest,
    expiresAt: int,
    status: Status,
    key: Option<string>,
    execution: Execution)

  /** A signed lease, idealised as impossible to forge; `expiresAt` is in seconds. */
  datatype Lease = Lease(
    id: nat,
    principal: string,
    capability: Capability,
    gatekeeper: GatekeeperId,
    digest: Digest,
    approval: nat,
    expiresAt: int)

  const APPROVAL_TTL := 15 * 60000
  const LEASE_TTL_SECONDS := 300

  // ---- The statements of policy control ----

  function NewApproval(principal: string, capability: Capability, request: string, now: int): Approval {
    Approval(principal, capability, GatekeeperOf(capability), request, Digest(request), now + APPROVAL_TTL,
             Pending, None, NoExecution)
  }

  datatype Answer = NotFound | Replayed | NotPending | Proceed | AuditUnavailable

  function StatusOf(d: Decision): Status {
    if d == Approve then Approved else Rejected
  }

  /** What the row read by decideApproval leads to. */
  function AnswerFor(row: Option<Approval>, principal: string, decision: Decision, key: string, now: int): Answer {
    if row.None? || row.value.principal != principal then NotFound
    else if row.value.status == StatusOf(decision) && row.value.key == Some(key) then Replayed
    else if row.value.status != Pending || row.value.expiresAt <= now then NotPending
    else Proceed
  }

  /** The guarded UPDATE of a decision: it changes a pending row only. */
  function Decided(a: Approval, decision: Decision, key: string): Approval {
    if a.status == Pending then
      a.(status := StatusOf(decision), key := Some(key),
         execution := if decision == Approve then Running else NoExecution)
    else a
  }

  function LeaseFor(id: nat, a: Approval, lease: nat, now: int): Lease {
    Lease(lease, a.principal, a.capability, a.gatekeeper, Digest(a.request), id, now / 1000 + LEASE_TTL_SECONDS)
  }

  function Recorded(a: Approval, outcome: Execution): Approval {
    if a.status == Approved && a.execution == Running then a.(execution := outcome) else a
  }

  function Reconciled(a: Approval, outcome: Execution): Approval {
    if a.status == Approved && a.execution == Unknown then a.(execution := outcome) else a
  }

  class PolicyControl {
    var approvals: map<nat, Approval>

    constructor ()
      ensures approvals == map[]
    {
      approvals := map[];
    }

    /** The answer is the status of the HTTP response. */
    method CreateApproval(id: nat, principal: string, capability: Capability, gatekeeper: GatekeeperId,
                          request: string, digest: Digest, now: int) returns (response: int)
      requires id !in approvals
      modifies this
      ensures response == 201 <==>
                && digest == Digest(request)
                && gatekeeper == (if capability in {GmailDraft, GmailSend, CalendarEvent} then Google
                                  else if capability in {GithubIssue, GithubComment} then GitHub
                                  else if capability in {DiscordDestination, DiscordPolicy, DiscordDelivery}
                                  then Discord
                                  else if capability == ConnectorResults then ModelRouter
                                  else GatekeeperId.PluginControl)
      ensures response == 201 ==> gatekeeper == GatekeeperOf(capability)
      ensures response == 201 ==>
                approvals == old(approvals)[id := Approval(principal, capability, gatekeeper, request, digest,
                                                           now + 900000, Pending, None, NoExecution)]
      ensures response == 201 ==> approvals[id] == NewApproval(principal, capability, request, now)
      ensures response != 201 ==> approvals == old(approvals)
    {
      if gatekeeper != GatekeeperOf(capability) {
        return 403;
      }
      if Digest(request) != digest {
        return 409;
      }
      approvals := approvals[id := Approval(principal, capability, gatekeeper, request, digest,
                                            now + APPROVAL_TTL, Pending, None, NoExecution)];
      return 201;
    }

    /** Only the owner is answered, a request that made the decision before is answered alike,
        and otherwise the decision is made if and only if the row is pending and has not expired.
        A lease is only handed out by the request that approved the operation, and not even
        then if its audit event could not be sent: the decision stands, but nothing follows. */
    method DecideApproval(id: nat, principal: string, decision: Decision, key: string, now: int, leaseId: nat,
                          audited: bool) returns (answer: Answer, lease: Option<Lease>)
      modifies this
      ensures var read := AnswerFor(if id in old(approvals) then Some(old(approvals)[id]) else None,
                                    principal, decision, key, now);
              && answer == (if read == Proceed && !audited then AuditUnavailable else read)
              && (read == Proceed ==> id in old(approvals))
              && approvals == if read == Proceed
                              then old(approvals)[id := Decided(old(approvals)[id], decision, key)]
                              else old(approvals)
      ensures answer == NotFound <==> id !in old(approvals) || old(approvals)[id].principal != principal
      ensures answer == Replayed <==>
                && id in old(approvals) && old(approvals)[id].principal == principal
                && old(approvals)[id].status == (if decision == Approve then Approved else Rejected)
                && old(approvals)[id].key == Some(key)
      ensures answer in {Proceed, AuditUnavailable} <==>
                && id in old(approvals) && old(approvals)[id].principal == principal
                && old(approvals)[id].status == Pending && now < old(approvals)[id].expiresAt
      ensures answer == Proceed ==> audited
      ensures answer in {Proceed, AuditUnavailable} ==>
                approvals == old(approvals)[id := old(approvals)[id].(
                  status := if decision == Approve then Approved else Rejected, key := Some(key),
                  execution := if decision == Approve then Running else NoExecution)]
      ensures answer !in {Proceed, AuditUnavailable} ==> approvals == old(approvals)
      ensures lease.Some? <==> answer == Proceed && decision == Approve && approvals[id].capability != PluginGrant
      ensures lease.Some? ==>
                var a := old(approvals)[id];
                lease.value == Lease(leaseId, principal, a.capability, a.gatekeeper, Digest(a.request), id,
                                     now / 1000 + 300)
      ensures lease.Some? ==> lease.value == LeaseFor(id, approvals[id], leaseId, now)
    {
      lease := None;
      if id !in approvals || approvals[id].principal != principal {
        return NotFound, None;
      }
      var current := approvals[id];
      if current.status == StatusOf(decision) && current.key == Some(key) {
        return Replayed, None;
      }
      if current.status != Pending || current.expiresAt <= now {
        return NotPending, None;
      }
      approvals := approvals[id := current.(status := StatusOf(decision), key := Some(key),
                                            execution := if decision == Approve then Running else NoExecution)];
      if !audited {
        return AuditUnavailable, None;
      }
      if decision == Approve && current.capability != PluginGrant {
        lease := Some(Lease(leaseId, principal, current.capability, current.gatekeeper, Digest(current.request), id,
                            now / 1000 + LEASE_TTL_SECONDS));
      }
      return Proceed, lease;
    }

    method RecordApprovalExecution(id: nat, principal: string, outcome: Execution) returns (changed: bool)
      modifies this
      ensures changed <==> id in old(approvals) && old(approvals)[id].principal == principal
                           && old(approvals)[id].status == Approved && old(approvals)[id].execution == Running
      ensures approvals ==
              if changed then old(approvals)[id := old(approvals)[id].(execution := outcome)] else old(approvals)
      ensures changed ==> approvals[id] == Recorded(old(approvals)[id], outcome)
    {
      changed := false;
      if id in approvals && approvals[id].principal == principal {
        var a := approvals[id];
        if a.status == Approved && a.execution == Running {
          approvals := approvals[id := a.(execution := outcome)];
          changed := true;
        }
      }
    }

    method ReconcileApprovalExecution(id: nat, principal: string, outcome: Execution) returns (changed: bool)
      modifies this
      ensures changed <==> id in old(approvals) && old(approvals)[id].principal == principal
                           && old(approvals)[id].status == Approved && old(approvals)[id].execution == Unknown
      ensures approvals ==
              if changed then old(approvals)[id := old(approvals)[id].(execution := outcome)] else old(approvals)
      ensures changed ==> approvals[id] == Reconciled(old(approvals)[id], outcome)
    {
      changed := false;
      if id in approvals && approvals[id].principal == principal {
        var a := approvals[id];
        if a.status == Approved && a.execution == Unknown {
          approvals := approvals[id := a.(execution := outcome)];
          changed := true;
        }
      }
    }
  }

  // ---- The statements of a gatekeeper ----

  /** The checks on a lease; its signature is taken for granted. */
  predicate Verifies(l: Lease, g: GatekeeperId, principal: string, c: Capability, input: string, now: int) {
    && l.principal == principal && now / 1000 < l.expiresAt
    && l.capability == c && l.gatekeeper == g && l.digest == Digest(input)
  }

  /** How the provider takes a call: an accepted or a rejected request, or no answer. */
  datatype Outcome = Accepted | Refused | NoAnswer

  datatype Call = Call(lease: Lease, capability: Capability, input: string, outcome: Outcome)

  datatype RecordStatus = Claimed | RecordSucceeded | RecordFailed | RecordUnknown

  datatype Response = WriteSucceeded | WriteFailed | WriteUnknown | ConnectionNotFound | LeaseReplay | LeaseInvalid

  /** The provider's answer as the record and the response show it. When the write of the
      record fails after an accepted call, the outcome counts as unknown. */
  function RecordFor(o: Outcome, stored: bool): RecordStatus {
    if o == Accepted && stored then RecordSucceeded else if o == Refused then RecordFailed else RecordUnknown
  }

  function ResponseFor(r: RecordStatus): Response {
    match r
    case RecordSucceeded => WriteSucceeded
    case RecordFailed => WriteFailed
    case _ => WriteUnknown
  }

  class Gatekeeper {
    const id: GatekeeperId
    var nonces: set<nat>
    var records: map<nat, RecordStatus>
    var calls: seq<Call>

    constructor (id: GatekeeperId)
      ensures Valid() && this.id == id && nonces == {} && records == map[] && calls == []
    {
      this.id := id;
      nonces, records, calls := {}, map[], [];
    }

    /** Every call had a lease of its own, whose nonce is consumed. */
    ghost predicate Valid()
      reads this
    {
      && records.Keys <= nonces
      && (forall i :: 0 <= i < |calls| ==> calls[i].lease.id in nonces)
      && (forall i, j :: 0 <= i < j < |calls| ==> calls[i].lease.id != calls[j].lease.id)
    }

    /** The provider is called at most once, for a lease that covers exactly this input and was
        never seen before; the response tells the fate of the call. */
    method Write(principal: string, c: Capability, lease: Lease, input: string, now: int,
                 connected: bool, outcome: Outcome, stored: bool) returns (response: Response)
      requires Valid() && Handles(id, c)
      modifies this
      ensures Valid()
      ensures response == LeaseInvalid <==>
                !(&& lease.principal == principal && lease.capability == c && lease.gatekeeper == id
                  && lease.digest == Digest(input) && now / 1000 < lease.expiresAt)
      ensures response == LeaseInvalid <==> !Verifies(lease, id, principal, c, input, now)
      ensures response in {LeaseInvalid, LeaseReplay} || lease.id !in old(nonces)
      ensures response == LeaseReplay ==> lease.id in old(nonces)
      ensures nonces == if response == LeaseInvalid then old(nonces) else old(nonces) + {lease.id}
      ensures calls == if response in {LeaseInvalid, LeaseReplay, ConnectionNotFound} then old(calls)
                       else old(calls) + [Call(lease, c, input, outcome)]
      ensures response == WriteSucceeded ==> outcome == Accepted && stored
      ensures response == WriteFailed ==> outcome == Refused
      ensures response == WriteUnknown ==> outcome == NoAnswer || (outcome == Accepted && !stored)
      ensures records == if response in {LeaseInvalid, LeaseReplay} then old(records)
                         else if response == ConnectionNotFound then old(records)[lease.id := Claimed]
                         else old(records)[lease.id := match response
                                                       case WriteSucceeded => RecordSucceeded
                                                       case WriteFailed => RecordFailed
                                                       case _ => RecordUnknown]
      ensures response == ConnectionNotFound <==>
                response !in {LeaseInvalid, LeaseReplay} && !connected
      ensures response in {WriteSucceeded, WriteFailed, WriteUnknown} ==>
                records[lease.id] == RecordFor(outcome, stored) && response == ResponseFor(RecordFor(outcome, stored))
    {
      if !Verifies(lease, id, principal, c, input, now) {
        return LeaseInvalid;
      }
      if lease.id in nonces {
        assert nonces == nonces + {lease.id};
        return LeaseReplay;
      }
      nonces := nonces + {lease.id};
      records := records[lease.id := Claimed];
      if !connected {
        return ConnectionNotFound;
      }
      calls := calls + [Call(lease, c, input, outcome)];
      if outcome == Accepted && stored {
        records := records[lease.id := RecordSucceeded];
        return WriteSucceeded;
      }
      var status := if outcome == Refused then RecordFailed else RecordUnknown;
      records := records[lease.id := status];
      return if status == RecordUnknown then WriteUnknown else WriteFailed;
    }
  }

  /** The execution status that the assistant records for a gatekeeper's response. An invalid
      lease makes the gatekeeper throw, which reaches the assistant as an unavailable service. */
  function OutcomeOf(r: Response): Execution {
    match r
    case WriteSucceeded => Succeeded
    case WriteUnknown | LeaseInvalid => Unknown
    case _ => Failed
  }
}
