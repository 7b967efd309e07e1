/** The server's operations, run alone, are runs of the system's steps. */
module Refinement {
  import opened Base
  import opened Fleet
  import opened DeviceTables
  import opened NodeAuth
  import opened System
  import opened Tenancy
  import opened ControlPlane
  import Pairing

  function Delivery(c: nat, a: Arrival): Event { Deliver(c, a.message, a.stamp, a.newId) }

  /** The messages of a stream, each after its wait. */
  function Serving(c: nat, arrivals: seq<Arrival>, waits: seq<nat>): seq<Event>
    requires |waits| == |arrivals|
    decreases |arrivals|
  {
    if arrivals == [] then []
    else
      var last := |arrivals| - 1;
      Serving(c, arrivals[..last], waits[..last]) + [Tick(waits[last])] + [Delivery(c, arrivals[last])]
  }

  function Total(waits: seq<nat>): nat {
    if waits == [] then 0 else Total(waits[..|waits| - 1]) + waits[|waits| - 1]
  }

  /** Each message is stamped no later than the moment it is written, on a clock that starts at `start`. */
  ghost predicate InTime(start: int, arrivals: seq<Arrival>, waits: seq<nat>)
    requires |waits| == |arrivals|
  {
    forall i :: 0 <= i < |arrivals| ==> arrivals[i].stamp <= start + Total(waits[..i + 1])
  }

  lemma InTimeFront(start: int, arrivals: seq<Arrival>, waits: seq<nat>)
    requires |waits| == |arrivals| > 0 && InTime(start, arrivals, waits)
    ensures InTime(start, arrivals[..|arrivals| - 1], waits[..|waits| - 1])
    ensures arrivals[|arrivals| - 1].stamp <= start + Total(waits)
  {
    var last := |arrivals| - 1;
    assert waits[..last + 1] == waits;
    forall i | 0 <= i < last ensures arrivals[..last][i].stamp <= start + Total(waits[..last][..i + 1]) {
      assert waits[..last][..i + 1] == waits[..i + 1];
    }
  }

  /** Whatever the stamps, waiting long enough before each message is in time. */
  lemma {:induction false} SomeWaitsAreInTime(start: int, arrivals: seq<Arrival>) returns (waits: seq<nat>)
    ensures |waits| == |arrivals| && InTime(start, arrivals, waits)
    decreases |arrivals|
  {
    waits := [];
    if |arrivals| > 0 {
      var front, a := Unsnoc(arrivals);
      var before := SomeWaitsAreInTime(start, front);
      waits := before + [Max(0, a.stamp - start)];
      assert waits[..|before|] == before;
      forall i | 0 <= i < |arrivals| ensures arrivals[i].stamp <= start + Total(waits[..i + 1]) {
        if i < |before| {
          assert waits[..i + 1] == before[..i + 1];
        } else {
          assert waits[..i + 1] == waits;
        }
      }
    }
  }

  /** One message on an open stream of a well-kept state is never refused. */
  lemma DeliveryApplies(s: State, c: nat, a: Arrival)
    requires Owned(s) && IsOpen(s, c) && a.stamp <= s.clock
    ensures var org, node := StreamOrg(s, c), StreamNode(s, c);
            var s' := DeliverStep(s, c, a.message, a.stamp, a.newId);
            && (a.message.Inventory? ==>
                  RecordInventory(s.nodes.Keys, s.devices, org, node, a.message.devices, a.newId).Ok?)
            && s'.nodes == NodesAfter(s.nodes, org, node, a.message, a.stamp)
            && s'.devices == DevicesAfter(s.nodes.Keys, s.devices, org, node, a.message, a.newId)
  {
    assert PhaseOwned(s.nodes, s.auths[c].phase);
    if a.message.Inventory? {
      OwnReportsAreStorable(s, StreamOrg(s, c), StreamNode(s, c), IdsOf(Known(a.message.devices)));
    }
  }

  /** One wait and one message: the tables move as `Served` says, and the clock by the wait. */
  lemma WaitAndDeliver(env: Env, s: State, c: nat, wait: nat, a: Arrival)
    requires Owned(s) && IsOpen(s, c) && a.stamp <= s.clock + wait
    ensures var org, node := StreamOrg(s, c), StreamNode(s, c);
            var s' := Step(env, Step(env, s, Tick(wait)), Delivery(c, a));
            && (a.message.Inventory? ==>
                  RecordInventory(s.nodes.Keys, s.devices, org, node, a.message.devices, a.newId).Ok?)
            && s'.nodes == NodesAfter(s.nodes, org, node, a.message, a.stamp)
            && s'.devices == DevicesAfter(s.nodes.Keys, s.devices, org, node, a.message, a.newId)
            && s'.auths == s.auths && s'.nonces == s.nonces && s'.clock == s.clock + wait
  {
    var later := s.(clock := s.clock + wait);
    FrameOwned(s, later);
    DeliveryApplies(later, c, a);
  }

  /**
   * What `Connect` does with a stream's messages, over however long the stream
   * lasts, is what their steps do with the waits between them, and the stream runs
   * to its end.
   */
  lemma {:induction false} ServingIsARun(env: Env, s: State, c: nat, arrivals: seq<Arrival>, waits: seq<nat>)
    requires Owned(s) && IsOpen(s, c) && |waits| == |arrivals| && InTime(s.clock, arrivals, waits)
    ensures var s' := Run(env, s, Serving(c, arrivals, waits));
            && Served(Tables(s.nodes, s.devices), StreamOrg(s, c), StreamNode(s, c), arrivals)
               == (Tables(s'.nodes, s'.devices), true)
            && s'.auths == s.auths && s'.nonces == s.nonces && s'.clock == s.clock + Total(waits)
    decreases |arrivals|
  {
    if |arrivals| > 0 {
      var last := |arrivals| - 1;
      var front, wait, a := Serving(c, arrivals[..last], waits[..last]), waits[last], arrivals[last];
      InTimeFront(s.clock, arrivals, waits);
      ServingIsARun(env, s, c, arrivals[..last], waits[..last]);
      RunKeepsOwned(env, s, front);
      RunLast(env, s, front, Tick(wait));
      RunLast(env, s, front + [Tick(wait)], Delivery(c, a));
      WaitAndDeliver(env, Run(env, s, front), c, wait, a);
    }
  }

  /** A sweep with nothing between its statements is its three steps. */
  lemma SweepingIsARun(env: Env, s: State, w: nat)
    requires w !in s.sweeps
    ensures Step(env, Step(env, Step(env, s, Sweep(w, Begin)), Sweep(w, MarkOffline)), Sweep(w, MarkDegraded)).nodes
         == MarkAllDegraded(env, MarkAllOffline(env, s.nodes, s.clock), s.clock)
  {
    var begun := Step(env, s, Sweep(w, Begin));
    assert w in begun.sweeps && begun.sweeps[w] == SweepCall(s.clock, Begun);
    var marked := Step(env, begun, Sweep(w, MarkOffline));
    assert w in marked.sweeps && marked.sweeps[w] == SweepCall(s.clock, OfflineMarked);
  }

  // ----- Minting

  lemma MintedRowIs(env: Env, codes: Codes, org: OrgId, user: string, nodeName: string, code: string, now: int,
                    after: Codes)
    requires Mints(env, codes, org, user, nodeName, code, now, true, after)
    ensures after == codes[Pairing.HashCode(env, code) := CodeRow(org, nodeName, user, now + env.codeTtlMs, None)]
  {
    var hash, last := Pairing.HashCode(env, code), now + env.codeTtlMs;
    assert Pairing.RetypeAll(code, []) == code;
    assert Pairing.Redeem(after, Pairing.HashCode(env, Pairing.RetypeAll(code, [])), last).0 == Ok((org, nodeName));
    assert Pairing.Redeem(after, Pairing.HashCode(env, Pairing.RetypeAll(code, [])), last + 1).0 == Err(CodeExpired);
    assert after[hash] == CodeRow(org, nodeName, user, last, None);
  }

  lemma MintsExactly(env: Env, codes: Codes, org: OrgId, user: string, nodeName: string, code: string, now: int,
                     stored: bool, after: Codes)
    ensures var hash, row := Pairing.HashCode(env, code), CodeRow(org, nodeName, user, now + env.codeTtlMs, None);
            Mints(env, codes, org, user, nodeName, code, now, stored, after)
            <==> (stored <==> hash !in codes) && after == if stored then codes[hash := row] else codes
  {
    if Pairing.HashCode(env, code) !in codes {
      MintedIsRedeemable(env, codes, org, user, nodeName, code, now);
      if Mints(env, codes, org, user, nodeName, code, now, true, after) {
        MintedRowIs(env, codes, org, user, nodeName, code, now, after);
      }
    } else if Mints(env, codes, org, user, nodeName, code, now, false, after) {
      assert after == codes;
    }
  }

  /** What minting promises pins down its one step, and the step keeps the promise. */
  lemma MintingIsARun(env: Env, s: State, org: OrgId, user: string, nodeName: string, code: string, stored: bool,
                      after: Codes)
    ensures Mints(env, s.codes, org, user, nodeName, code, s.clock, stored, after)
       <==> && (stored <==> Pairing.HashCode(env, code) !in s.codes)
            && after == Step(env, s, Mint(org, user, nodeName, code)).codes
  {
    MintsExactly(env, s.codes, org, user, nodeName, code, s.clock, stored, after);
  }

  // ----- Authenticating

  /** The statements of one authentication, its nonce recorded `delay` after its window check. */
  function AuthSteps(c: nat, header: Option<string>, delay: nat): seq<Event> {
    [Auth(c, Check(header)), Auth(c, Verify), Tick(delay), Auth(c, Record)]
  }

  /** What a settled call tells its caller. */
  function Answer(phase: AuthPhase): Result<(NodeId, OrgId), AuthError>
    requires phase.Accepted? || phase.Rejected?
  {
    match phase
    case Accepted(creds, _, org, _) => Ok((NodeIdOf(creds.nodeId), org))
    case Rejected(e) => Err(e)
  }

  function VerifiedPhase(env: Env, nodes: Nodes, header: Option<string>, checkedAt: int): AuthPhase {
    var checked := CheckAt(env, header, checkedAt);
    if checked.Checked? then VerifyAgainst(env, nodes, checked.creds, checked.at) else checked
  }

  function SettledPhase(nonces: Nonces, phase: AuthPhase, now: int): AuthPhase {
    if phase.Verified? then RecordPhase(nonces, phase, now) else phase
  }

  function NoncesAfter(env: Env, nonces: Nonces, phase: AuthPhase, now: int): Nonces {
    if phase.Verified? then RecordNonce(env, nonces, phase.creds, now) else nonces
  }

  lemma CheckAndVerify(env: Env, s: State, c: nat, header: Option<string>)
    requires c !in s.auths
    ensures Step(env, Step(env, s, Auth(c, Check(header))), Auth(c, Verify))
         == s.(auths := s.auths[c := AuthCall(header, s.clock, VerifiedPhase(env, s.nodes, header, s.clock))])
  {
    var checked := AuthCall(header, s.clock, CheckAt(env, header, s.clock));
    var verified := AuthCall(header, s.clock, VerifiedPhase(env, s.nodes, header, s.clock));
    assert s.auths[c := checked][c := verified] == s.auths[c := verified];
  }

  lemma Settle(env: Env, s: State, c: nat)
    requires c in s.auths
    ensures var phase := s.auths[c].phase;
            Step(env, s, Auth(c, Record)) ==
            s.(auths := s.auths[c := s.auths[c].(phase := SettledPhase(s.nonces, phase, s.clock))],
               nonces := NoncesAfter(env, s.nonces, phase, s.clock))
  {
  }

  /** The state once a lone authentication has settled. */
  function Settled(env: Env, s: State, c: nat, header: Option<string>, now: int): State {
    var phase := VerifiedPhase(env, s.nodes, header, s.clock);
    s.(clock := now, auths := s.auths[c := AuthCall(header, s.clock, SettledPhase(s.nonces, phase, now))],
       nonces := NoncesAfter(env, s.nonces, phase, now))
  }

  lemma {:induction false} AuthStepsSettle(env: Env, s: State, c: nat, header: Option<string>, delay: nat)
    requires c !in s.auths
    ensures Run(env, s, AuthSteps(c, header, delay)) == Settled(env, s, c, header, s.clock + delay)
  {
    AuthStepsRun(env, s, c, header, delay);
    SettleLate(env, s, c, AuthCall(header, s.clock, VerifiedPhase(env, s.nodes, header, s.clock)), s.clock + delay);
  }

  function Waiting(s: State, c: nat, call: AuthCall, now: int): State { s.(auths := s.auths[c := call], clock := now) }

  lemma AuthStepsRun(env: Env, s: State, c: nat, header: Option<string>, delay: nat)
    requires c !in s.auths
    ensures var call := AuthCall(header, s.clock, VerifiedPhase(env, s.nodes, header, s.clock));
            Run(env, s, AuthSteps(c, header, delay)) == Step(env, Waiting(s, c, call, s.clock + delay), Auth(c, Record))
  {
    RunFour(env, s, Auth(c, Check(header)), Auth(c, Verify), Tick(delay), Auth(c, Record));
    CheckAndVerify(env, s, c, header);
  }

  lemma SettleLate(env: Env, s: State, c: nat, call: AuthCall, now: int)
    ensures var settled := call.(phase := SettledPhase(s.nonces, call.phase, now));
            Step(env, Waiting(s, c, call, now), Auth(c, Record)) ==
            s.(clock := now, auths := s.auths[c := settled], nonces := NoncesAfter(env, s.nonces, call.phase, now))
  {
    Settle(env, Waiting(s, c, call, now), c);
    var settled := call.(phase := SettledPhase(s.nonces, call.phase, now));
    assert s.auths[c := call][c := settled] == s.auths[c := settled];
  }

  /** What authentication promises has one answer, and it is the one its statements come to. */
  lemma PromiseIsSettled(env: Env, nodes: Nodes, nonces: Nonces, header: Option<string>,
                         checkedAt: int, recordedAt: int, r: Result<(NodeId, OrgId), AuthError>, after: Nonces)
    ensures var phase := VerifiedPhase(env, nodes, header, checkedAt);
            var settled := SettledPhase(nonces, phase, recordedAt);
            && (settled.Accepted? || settled.Rejected?)
            && (Authenticates(env, nodes, nonces, header, checkedAt, recordedAt, r, after)
                <==> r == Answer(settled) && after == NoncesAfter(env, nonces, phase, recordedAt))
  {
    ChecksFailFirst(env, nodes, nonces, header, checkedAt, recordedAt);
    var phase := VerifiedPhase(env, nodes, header, checkedAt);
    if phase.Verified? && !Live(nonces, NonceKey(phase.creds), recordedAt) {
      var spent := nonces[NonceKey(phase.creds) := recordedAt + 2 * env.skewMs];
      if Authenticates(env, nodes, nonces, header, checkedAt, recordedAt, r, after) {
        assert after == spent;
      }
    }
  }

  /**
   * Check, verify, wait and record, run alone, settle the call: what the method
   * promises of its answer and of the nonces holds of exactly the answer and the
   * nonces these steps leave, and no table changes.
   */
  lemma {:induction false} AuthenticatingIsARun(env: Env, s: State, c: nat, header: Option<string>, delay: nat,
                                                r: Result<(NodeId, OrgId), AuthError>, after: Nonces)
    requires c !in s.auths
    ensures var s' := Run(env, s, AuthSteps(c, header, delay));
            && c in s'.auths && (s'.auths[c].phase.Accepted? || s'.auths[c].phase.Rejected?)
            && s' == s.(clock := s.clock + delay, auths := s.auths[c := s'.auths[c]], nonces := s'.nonces)
            && (Authenticates(env, s.nodes, s.nonces, header, s.clock, s.clock + delay, r, after)
                <==> r == Answer(s'.auths[c].phase) && after == s'.nonces)
  {
    AuthStepsSettle(env, s, c, header, delay);
    SettledAnswers(env, s, c, header, s.clock + delay, Run(env, s, AuthSteps(c, header, delay)), r, after);
  }

  lemma SettledAnswers(env: Env, s: State, c: nat, header: Option<string>, now: int, s': State,
                       r: Result<(NodeId, OrgId), AuthError>, after: Nonces)
    requires s' == Settled(env, s, c, header, now)
    ensures c in s'.auths && (s'.auths[c].phase.Accepted? || s'.auths[c].phase.Rejected?)
    ensures s' == s.(clock := now, auths := s.auths[c := s'.auths[c]], nonces := s'.nonces)
    ensures Authenticates(env, s.nodes, s.nonces, header, s.clock, now, r, after)
       <==> r == Answer(s'.auths[c].phase) && after == s'.nonces
  {
    PromiseIsSettled(env, s.nodes, s.nonces, header, s.clock, now, r, after);
  }

  // ----- A whole connection

  lemma {:induction false} ClosedStreamsAreIgnored(env: Env, s: State, c: nat, arrivals: seq<Arrival>,
                                                   waits: seq<nat>)
    requires !IsOpen(s, c) && |waits| == |arrivals|
    ensures Run(env, s, Serving(c, arrivals, waits)) == s.(clock := s.clock + Total(waits))
    decreases |arrivals|
  {
    if |arrivals| > 0 {
      var last := |arrivals| - 1;
      var front, wait, a := Serving(c, arrivals[..last], waits[..last]), waits[last], arrivals[last];
      ClosedStreamsAreIgnored(env, s, c, arrivals[..last], waits[..last]);
      RunLast(env, s, front, Tick(wait));
      RunLast(env, s, front + [Tick(wait)], Delivery(c, a));
    }
  }

  /**
   * A connection from its header to its last message, over however long it lasts,
   * is a run: the caller's answer, the nonces and the tables are what `Connect`
   * promises, and an accepted stream of a well-kept state is served to its end.
   */
  lemma {:induction false} ConnectingIsARun(env: Env, s: State, c: nat, header: Option<string>, delay: nat,
                                            arrivals: seq<Arrival>, waits: seq<nat>)
    requires Owned(s) && c !in s.auths
    requires |waits| == |arrivals| && InTime(s.clock + delay, arrivals, waits)
    ensures var s' := Run(env, s, AuthSteps(c, header, delay) + Serving(c, arrivals, waits));
            && c in s'.auths && (s'.auths[c].phase.Accepted? || s'.auths[c].phase.Rejected?)
            && s'.clock == s.clock + delay + Total(waits)
            && var who := Answer(s'.auths[c].phase);
            && Authenticates(env, s.nodes, s.nonces, header, s.clock, s.clock + delay, who, s'.nonces)
            && (who.Err? ==> s'.nodes == s.nodes && s'.devices == s.devices)
            && (who.Ok? ==> Served(Tables(s.nodes, s.devices), who.value.1, who.value.0, arrivals)
                            == (Tables(s'.nodes, s'.devices), true))
  {
    var mid := Run(env, s, AuthSteps(c, header, delay));
    AuthStepsSettle(env, s, c, header, delay);
    AuthenticatingIsARun(env, s, c, header, delay, Answer(mid.auths[c].phase), mid.nonces);
    RunConcat(env, s, AuthSteps(c, header, delay), Serving(c, arrivals, waits));
    if IsOpen(mid, c) {
      RunKeepsOwned(env, s, AuthSteps(c, header, delay));
      ServingIsARun(env, mid, c, arrivals, waits);
    } else {
      ClosedStreamsAreIgnored(env, mid, c, arrivals, waits);
    }
  }
}
