/** Enrolling a node, one statement at a time, against whatever else the control plane is doing. */
module Enrollment {
  import opened Base
  import opened Fleet
  import Pairing

  predicate KeyTaken(nodes: Nodes, key: Bytes) { exists n :: n in nodes && nodes[n].publicKey == key }

  function NodeName(asked: string, minted: string, hostname: string): string {
    if asked != "" then asked else if minted != "" then minted else if hostname != "" then hostname else "node"
  }

  function NewNode(input: EnrollInput, org: OrgId, minted: string): NodeRow {
    NodeRow(org, NodeName(input.nodeName, minted, input.host.hostname), Offline, input.host, input.publicKey, None)
  }

  /** The 32-byte test and the look-up of the key, before any code is spent. */
  function Precheck(nodes: Nodes, input: EnrollInput): EnrollPhase {
    if |input.publicKey| != 32 then Failed(BadPublicKey)
    else if KeyTaken(nodes, input.publicKey) then Failed(AlreadyEnrolled)
    else Prechecked
  }

  function MintStep(env: Env, s: State, org: OrgId, user: string, nodeName: string, code: string): (s': State)
    ensures s' == s.(codes := s'.codes)
  {
    var hash := Pairing.HashCode(env, code);
    if hash in s.codes then s
    else s.(codes := s.codes[hash := CodeRow(org, nodeName, user, s.clock + env.codeTtlMs, None)])
  }

  /** What one step of a call leaves behind: the two tables it works on, and the call. */
  datatype Advanced = Advanced(nodes: Nodes, codes: Codes, call: EnrollCall)

  function ClaimStep(nodes: Nodes, codes: Codes, call: EnrollCall, now: int): Advanced {
    if Pairing.Unused(codes, call.hash) then
      var claimed := Pairing.Claim(codes, call.hash, now);
      Advanced(nodes, claimed, call.(phase := Claimed(claimed[call.hash])))
    else Advanced(nodes, codes, call.(phase := Missed))
  }

  function ExpiryPhase(row: CodeRow, now: int): EnrollPhase {
    if row.expiresAt < now then Releasing else Redeemed(row.orgId, row.nodeName)
  }

  function InsertStep(nodes: Nodes, codes: Codes, call: EnrollCall, id: NodeId): Advanced
    requires call.phase.Redeemed?
  {
    if KeyTaken(nodes, call.input.publicKey) then Advanced(nodes, codes, call.(phase := Wasted(AlreadyEnrolled)))
    else if id in nodes then Advanced(nodes, codes, call.(phase := Wasted(InsertFailed)))
    else Advanced(nodes[id := NewNode(call.input, call.phase.orgId, call.phase.nodeName)], codes,
                  call.(phase := Enrolled(id)))
  }

  /** The next statement of a live call; one that does not follow its current phase changes nothing. */
  function Advance(nodes: Nodes, codes: Codes, call: EnrollCall, e: EnrollEvent, now: int): Advanced {
    match e
    case Claim => if call.phase.Prechecked? then ClaimStep(nodes, codes, call, now) else Advanced(nodes, codes, call)
    case Diagnose =>
      Advanced(nodes, codes, if !call.phase.Missed? then call
                             else call.(phase := Failed(if call.hash in codes then CodeAlreadyUsed else UnknownCode)))
    case CheckExpiry =>
      Advanced(nodes, codes, if call.phase.Claimed? then call.(phase := ExpiryPhase(call.phase.row, now)) else call)
    case Release =>
      if call.phase.Releasing?
      then Advanced(nodes, Pairing.Release(codes, call.hash), call.(phase := Failed(CodeExpired)))
      else Advanced(nodes, codes, call)
    case Insert(id) => if call.phase.Redeemed? then InsertStep(nodes, codes, call, id) else Advanced(nodes, codes, call)
    case InsertFails =>
      Advanced(nodes, codes, if call.phase.Redeemed? then call.(phase := Wasted(InsertFailed)) else call)
    case Crash => Advanced(nodes, codes, call.(alive := false))
    case Start(_) => Advanced(nodes, codes, call)
  }

  function StartCall(env: Env, nodes: Nodes, input: EnrollInput): EnrollCall {
    EnrollCall(input, Pairing.HashCode(env, input.pairingCode), true, Precheck(nodes, input))
  }

  function EnrollStep(env: Env, s: State, c: nat, e: EnrollEvent): (s': State)
    ensures s' == s.(nodes := s'.nodes, codes := s'.codes, enrolls := s'.enrolls)
  {
    if c !in s.enrolls then
      if e.Start? then s.(enrolls := s.enrolls[c := StartCall(env, s.nodes, e.input)]) else s
    else if !s.enrolls[c].alive then s
    else
      var next := Advance(s.nodes, s.codes, s.enrolls[c], e, s.clock);
      s.(nodes := next.nodes, codes := next.codes, enrolls := s.enrolls[c := next.call])
  }

  // ----- A whole enrollment with nothing else happening

  datatype Outcome = Outcome(result: Result<(NodeId, OrgId), EnrollError>, nodes: Nodes, codes: Codes)

  function EnrollAlone(env: Env, nodes: Nodes, codes: Codes, input: EnrollInput, id: NodeId, now: int): Outcome {
    if |input.publicKey| != 32 then Outcome(Err(BadPublicKey), nodes, codes)
    else if KeyTaken(nodes, input.publicKey) then Outcome(Err(AlreadyEnrolled), nodes, codes)
    else
      var (redeemed, after) := Pairing.Redeem(codes, Pairing.HashCode(env, input.pairingCode), now);
      match redeemed
      case Err(e) => Outcome(Err(e), nodes, after)
      case Ok((org, minted)) =>
        if id in nodes then Outcome(Err(InsertFailed), nodes, after)
        else Outcome(Ok((id, org)), nodes[id := NewNode(input, org, minted)], after)
  }
}
