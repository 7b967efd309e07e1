/** Pairing codes over whole runs: who holds a code, what became of it, and what it bought. */
module Redemption {
  import opened Base
  import opened Fleet
  import opened Enrollment
  import opened NodeAuth
  import opened System
  import opened Tenancy
  import Pairing

  // ----- Holding a code

  /** The call's claim stands: it has set the code's used-at and not taken it back. */
  predicate Holds(call: EnrollCall) {
    call.phase.Claimed? || call.phase.Releasing? || HasRedeemed(call)
  }

  /** The call's redemption succeeded, whatever came of the insert after it. */
  predicate HasRedeemed(call: EnrollCall) { call.phase.Redeemed? || call.phase.Enrolled? || call.phase.Wasted? }

  predicate Used(codes: Codes, h: string) { h in codes && codes[h].usedAt.Some? }

  /** The first of these that is not empty. */
  ghost predicate FirstNonempty(name: string, choices: seq<string>) {
    exists i :: 0 <= i < |choices| && name == choices[i] && name != "" && forall j :: 0 <= j < i ==> choices[j] == ""
  }

  lemma NodeNameIsFirst(asked: string, minted: string, hostname: string)
    ensures FirstNonempty(NodeName(asked, minted, hostname), [asked, minted, hostname, "node"])
  {
    var choices := [asked, minted, hostname, "node"];
    var i := if asked != "" then 0 else if minted != "" then 1 else if hostname != "" then 2 else 3;
    assert NodeName(asked, minted, hostname) == choices[i];
  }

  /** A call never carries a code's row other than the stored one, nor a tenant other than the code's. */
  ghost predicate CallMatches(codes: Codes, nodes: Nodes, call: EnrollCall) {
    Holds(call) ==>
      && Used(codes, call.hash)
      && var row := codes[call.hash];
      && (call.phase.Claimed? ==> call.phase.row == row)
      && (call.phase.Redeemed? ==> call.phase.orgId == row.orgId && call.phase.nodeName == row.nodeName)
      && (call.phase.Enrolled? ==>
            && call.phase.nodeId in nodes
            && nodes[call.phase.nodeId].orgId == row.orgId
            && nodes[call.phase.nodeId].publicKey == call.input.publicKey
            && nodes[call.phase.nodeId].name == NodeName(call.input.nodeName, row.nodeName, call.input.host.hostname))
  }

  ghost predicate Matches(s: State) { forall c :: c in s.enrolls ==> CallMatches(s.codes, s.nodes, s.enrolls[c]) }

  /** Two calls never hold one code. */
  ghost predicate HoldersDistinct(enrolls: map<nat, EnrollCall>) {
    forall h, c, d :: HeldBy(enrolls, h, c) && HeldBy(enrolls, h, d) ==> c == d
  }

  ghost predicate HeldBy(enrolls: map<nat, EnrollCall>, h: string, c: nat) {
    c in enrolls && Holds(enrolls[c]) && enrolls[c].hash == h
  }

  /** A used code is always held. */
  ghost predicate UsedAreHeld(s: State) { forall h :: Used(s.codes, h) ==> exists c :: HeldBy(s.enrolls, h, c) }

  ghost predicate MadeBy(enrolls: map<nat, EnrollCall>, n: NodeId, c: nat) {
    c in enrolls && enrolls[c].phase == Enrolled(n)
  }

  /** A node came from exactly one enroll call. */
  ghost predicate NodesMade(s: State) {
    && (forall n :: n in s.nodes ==> exists c :: MadeBy(s.enrolls, n, c))
    && (forall n, c, d :: MadeBy(s.enrolls, n, c) && MadeBy(s.enrolls, n, d) ==> c == d)
  }

  ghost predicate KeysUnique(nodes: Nodes) {
    forall m, n :: m in nodes && n in nodes && nodes[m].publicKey == nodes[n].publicKey ==> m == n
  }

  ghost predicate Accounted(s: State) {
    Matches(s) && HoldersDistinct(s.enrolls) && UsedAreHeld(s) && NodesMade(s) && KeysUnique(s.nodes)
  }

  // ----- Every step keeps the accounts

  /** Heartbeats, sweeps, authentication and time leave codes, calls and node identities alone. */
  lemma FrameAccounted(s: State, s': State)
    requires Accounted(s) && s'.codes == s.codes && s'.enrolls == s.enrolls && SameIdentities(s.nodes, s'.nodes)
    ensures Accounted(s')
  {
    forall c | c in s'.enrolls ensures CallMatches(s'.codes, s'.nodes, s'.enrolls[c]) {
      assert CallMatches(s.codes, s.nodes, s.enrolls[c]);
    }
  }

  /** A code nobody has used is added. */
  lemma NewCodeKeepsAccounts(s: State, h: string, row: CodeRow)
    requires Accounted(s) && h !in s.codes && row.usedAt.None?
    ensures Accounted(s.(codes := s.codes[h := row]))
  {
    var s' := s.(codes := s.codes[h := row]);
    forall c | c in s'.enrolls ensures CallMatches(s'.codes, s'.nodes, s'.enrolls[c]) {
      assert CallMatches(s.codes, s.nodes, s.enrolls[c]);
    }
    forall g | Used(s'.codes, g) ensures exists c :: HeldBy(s'.enrolls, g, c) {
      assert Used(s.codes, g);
    }
  }

  lemma MintKeepsAccounted(env: Env, s: State, org: OrgId, user: string, nodeName: string, code: string)
    requires Accounted(s)
    ensures Accounted(MintStep(env, s, org, user, nodeName, code))
  {
    var h := Pairing.HashCode(env, code);
    if h !in s.codes {
      NewCodeKeepsAccounts(s, h, CodeRow(org, nodeName, user, s.clock + env.codeTtlMs, None));
    }
  }

  lemma StartKeepsAccounted(env: Env, s: State, c: nat, input: EnrollInput)
    requires Accounted(s) && c !in s.enrolls
    ensures Accounted(s.(enrolls := s.enrolls[c := StartCall(env, s.nodes, input)]))
  {
    var call := StartCall(env, s.nodes, input);
    NewCallKeepsAccounts(s, c, call);
  }

  lemma NewCallKeepsAccounts(s: State, c: nat, call: EnrollCall)
    requires Accounted(s) && c !in s.enrolls && !Holds(call)
    ensures Accounted(s.(enrolls := s.enrolls[c := call]))
  {
    var s' := s.(enrolls := s.enrolls[c := call]);
    assert forall h, d :: HeldBy(s'.enrolls, h, d) <==> HeldBy(s.enrolls, h, d);
    forall d | d in s'.enrolls ensures CallMatches(s'.codes, s'.nodes, s'.enrolls[d]) {
      if d != c { assert CallMatches(s.codes, s.nodes, s.enrolls[d]); }
    }
    forall h | Used(s'.codes, h) ensures exists d :: HeldBy(s'.enrolls, h, d) {
      var d :| HeldBy(s.enrolls, h, d);
      assert HeldBy(s'.enrolls, h, d);
    }
    forall n | n in s'.nodes ensures exists d :: MadeBy(s'.enrolls, n, d) {
      var d :| MadeBy(s.enrolls, n, d);
      assert MadeBy(s'.enrolls, n, d);
    }
    forall n, d, d' | MadeBy(s'.enrolls, n, d) && MadeBy(s'.enrolls, n, d') ensures d == d' {
      assert MadeBy(s.enrolls, n, d) && MadeBy(s.enrolls, n, d');
    }
  }

  /** A call moves on without taking or giving up a code, and without a node being made. */
  lemma MoveKeepsAccounts(s: State, c: nat, call: EnrollCall)
    requires Accounted(s) && c in s.enrolls && call.hash == s.enrolls[c].hash
    requires Holds(call) <==> Holds(s.enrolls[c])
    requires call.phase == s.enrolls[c].phase || (!call.phase.Enrolled? && !s.enrolls[c].phase.Enrolled?)
    requires CallMatches(s.codes, s.nodes, call)
    ensures Accounted(s.(enrolls := s.enrolls[c := call]))
  {
    var s' := s.(enrolls := s.enrolls[c := call]);
    assert forall h, d :: HeldBy(s'.enrolls, h, d) <==> HeldBy(s.enrolls, h, d);
    assert forall n, d :: MadeBy(s'.enrolls, n, d) <==> MadeBy(s.enrolls, n, d);
    forall d | d in s'.enrolls ensures CallMatches(s'.codes, s'.nodes, s'.enrolls[d]) {
      if d != c { assert CallMatches(s.codes, s.nodes, s.enrolls[d]); }
    }
  }

  /** A claim: one unused code and one call that held nothing come to belong together. */
  lemma ClaimKeepsAccounts(s: State, c: nat, now: int)
    requires Accounted(s) && c in s.enrolls && s.enrolls[c].phase.Prechecked?
    requires Pairing.Unused(s.codes, s.enrolls[c].hash)
    ensures var next := ClaimStep(s.nodes, s.codes, s.enrolls[c], now);
            Accounted(s.(codes := next.codes, enrolls := s.enrolls[c := next.call]))
  {
    var next := ClaimStep(s.nodes, s.codes, s.enrolls[c], now);
    var s' := s.(codes := next.codes, enrolls := s.enrolls[c := next.call]);
    var hash := next.call.hash;
    forall d | d in s.enrolls && Holds(s.enrolls[d]) ensures s.enrolls[d].hash != hash {
      assert CallMatches(s.codes, s.nodes, s.enrolls[d]);
    }
    assert HeldBy(s'.enrolls, hash, c);
    assert forall h, d :: HeldBy(s'.enrolls, h, d) <==> HeldBy(s.enrolls, h, d) || (h == hash && d == c);
    assert forall n, d :: MadeBy(s'.enrolls, n, d) <==> MadeBy(s.enrolls, n, d);
    forall d | d in s'.enrolls ensures CallMatches(s'.codes, s'.nodes, s'.enrolls[d]) {
      if d != c { assert CallMatches(s.codes, s.nodes, s.enrolls[d]); }
    }
    forall h | Used(s'.codes, h) ensures exists d :: HeldBy(s'.enrolls, h, d) {
      if h != hash {
        assert Used(s.codes, h);
        var d :| HeldBy(s.enrolls, h, d);
        assert HeldBy(s'.enrolls, h, d);
      }
    }
  }

  /** A release: the call that alone held the code lets it go. */
  lemma ReleaseKeepsAccounts(s: State, c: nat)
    requires Accounted(s) && c in s.enrolls && s.enrolls[c].phase.Releasing?
    ensures Accounted(s.(codes := Pairing.Release(s.codes, s.enrolls[c].hash),
                         enrolls := s.enrolls[c := s.enrolls[c].(phase := Failed(CodeExpired))]))
  {
    var hash := s.enrolls[c].hash;
    var s' := s.(codes := Pairing.Release(s.codes, hash),
                 enrolls := s.enrolls[c := s.enrolls[c].(phase := Failed(CodeExpired))]);
    assert HeldBy(s.enrolls, hash, c);
    assert forall h, d :: HeldBy(s'.enrolls, h, d) <==> HeldBy(s.enrolls, h, d) && d != c;
    assert forall n, d :: MadeBy(s'.enrolls, n, d) <==> MadeBy(s.enrolls, n, d);
    forall d | d in s'.enrolls ensures CallMatches(s'.codes, s'.nodes, s'.enrolls[d]) {
      if d != c {
        assert CallMatches(s.codes, s.nodes, s.enrolls[d]);
        assert Holds(s.enrolls[d]) ==> HeldBy(s.enrolls, s.enrolls[d].hash, d);
      }
    }
    forall h | Used(s'.codes, h) ensures exists d :: HeldBy(s'.enrolls, h, d) {
      assert h != hash && Used(s.codes, h);
      var d :| HeldBy(s.enrolls, h, d);
      assert HeldBy(s'.enrolls, h, d);
    }
  }

  /** An insert: a node with a new id and a new key appears, made by this call. */
  lemma InsertKeepsAccounts(s: State, c: nat, id: NodeId)
    requires Accounted(s) && c in s.enrolls && s.enrolls[c].phase.Redeemed?
    requires id !in s.nodes && !KeyTaken(s.nodes, s.enrolls[c].input.publicKey)
    ensures var next := InsertStep(s.nodes, s.codes, s.enrolls[c], id);
            Accounted(s.(nodes := next.nodes, enrolls := s.enrolls[c := next.call]))
  {
    var next := InsertStep(s.nodes, s.codes, s.enrolls[c], id);
    var s' := s.(nodes := next.nodes, enrolls := s.enrolls[c := next.call]);
    assert CallMatches(s.codes, s.nodes, s.enrolls[c]);
    assert forall h, d :: HeldBy(s'.enrolls, h, d) <==> HeldBy(s.enrolls, h, d);
    forall d | d in s'.enrolls ensures CallMatches(s'.codes, s'.nodes, s'.enrolls[d]) {
      if d != c { assert CallMatches(s.codes, s.nodes, s.enrolls[d]); }
    }
    InsertKeepsNodesMade(s, s', c, id);
    NewKeyStaysUnique(s.nodes, id, s'.nodes[id]);
  }

  lemma NewKeyStaysUnique(nodes: Nodes, id: NodeId, row: NodeRow)
    requires KeysUnique(nodes) && id !in nodes && !KeyTaken(nodes, row.publicKey)
    ensures KeysUnique(nodes[id := row])
  {
  }

  lemma InsertKeepsNodesMade(s: State, s': State, c: nat, id: NodeId)
    requires NodesMade(s) && Matches(s) && c in s.enrolls && !s.enrolls[c].phase.Enrolled? && id !in s.nodes
    requires s'.nodes.Keys == s.nodes.Keys + {id}
    requires s'.enrolls.Keys == s.enrolls.Keys && s'.enrolls[c].phase == Enrolled(id)
    requires forall d :: d in s.enrolls && d != c ==> s'.enrolls[d] == s.enrolls[d]
    ensures NodesMade(s')
  {
    forall d ensures !MadeBy(s.enrolls, id, d) {
      if d in s.enrolls { assert CallMatches(s.codes, s.nodes, s.enrolls[d]); }
    }
    assert MadeBy(s'.enrolls, id, c);
    forall n, d ensures MadeBy(s'.enrolls, n, d) <==> MadeBy(s.enrolls, n, d) || (n == id && d == c) {
    }
    forall n | n in s'.nodes ensures exists d :: MadeBy(s'.enrolls, n, d) {
      if n != id {
        var d :| MadeBy(s.enrolls, n, d);
        assert MadeBy(s'.enrolls, n, d);
      }
    }
  }

  /** A live call's next statement keeps the accounts, whichever it is. */
  lemma AdvanceKeepsAccounted(s: State, c: nat, e: EnrollEvent)
    requires Accounted(s) && c in s.enrolls
    ensures var next := Advance(s.nodes, s.codes, s.enrolls[c], e, s.clock);
            Accounted(s.(nodes := next.nodes, codes := next.codes, enrolls := s.enrolls[c := next.call]))
  {
    var call := s.enrolls[c];
    var next := Advance(s.nodes, s.codes, call, e, s.clock);
    assert CallMatches(s.codes, s.nodes, call);
    if e.Claim? && call.phase.Prechecked? && Pairing.Unused(s.codes, call.hash) {
      ClaimKeepsAccounts(s, c, s.clock);
    } else if e.Release? && call.phase.Releasing? {
      ReleaseKeepsAccounts(s, c);
    } else if e.Insert? && call.phase.Redeemed? && e.nodeId !in s.nodes && !KeyTaken(s.nodes, call.input.publicKey) {
      InsertKeepsAccounts(s, c, e.nodeId);
    } else {
      assert next.nodes == s.nodes && next.codes == s.codes;
      MoveKeepsAccounts(s, c, next.call);
    }
  }

  lemma EnrollKeepsAccounted(env: Env, s: State, c: nat, e: EnrollEvent)
    requires Accounted(s)
    ensures Accounted(EnrollStep(env, s, c, e))
  {
    if c in s.enrolls {
      AdvanceKeepsAccounted(s, c, e);
    } else if e.Start? {
      StartKeepsAccounted(env, s, c, e.input);
    }
  }

  lemma DeliverKeepsAccounted(s: State, c: nat, m: Message, stamp: int, newId: nat -> string)
    requires Accounted(s)
    ensures Accounted(DeliverStep(s, c, m, stamp, newId))
  {
    DeliverKeepsIdentities(s, c, m, stamp, newId);
    FrameAccounted(s, DeliverStep(s, c, m, stamp, newId));
  }

  lemma SweepKeepsAccounted(env: Env, s: State, w: nat, e: SweepEvent)
    requires Accounted(s)
    ensures Accounted(SweepStep(env, s, w, e))
  {
    SweepKeepsIdentities(env, s, w, e);
    FrameAccounted(s, SweepStep(env, s, w, e));
  }

  lemma AuthKeepsAccounted(env: Env, s: State, c: nat, e: AuthEvent)
    requires Accounted(s)
    ensures Accounted(AuthStep(env, s, c, e))
  {
    FrameAccounted(s, AuthStep(env, s, c, e));
  }

  lemma StepKeepsAccounted(env: Env, s: State, e: Event)
    requires Accounted(s)
    ensures Accounted(Step(env, s, e))
  {
    match e
    case Enroll(c, enroll) => EnrollKeepsAccounted(env, s, c, enroll);
    case Mint(org, user, nodeName, code) => MintKeepsAccounted(env, s, org, user, nodeName, code);
    case Deliver(c, m, stamp, newId) => DeliverKeepsAccounted(s, c, m, stamp, newId);
    case Sweep(w, statement) => SweepKeepsAccounted(env, s, w, statement);
    case Auth(c, auth) => AuthKeepsAccounted(env, s, c, auth);
    case Tick(ms) => FrameAccounted(s, s.(clock := s.clock + ms));
  }

  lemma {:induction false} RunKeepsAccounted(env: Env, s: State, events: seq<Event>)
    requires Accounted(s)
    ensures Accounted(Run(env, s, events))
  {
    if events != [] {
      RunKeepsAccounted(env, s, events[..|events| - 1]);
      StepKeepsAccounted(env, Run(env, s, events[..|events| - 1]), events[|events| - 1]);
    }
  }

  // ----- Conservation

  function UsedCodes(s: State): set<string> { set h | h in s.codes && s.codes[h].usedAt.Some? }

  function Holders(s: State): set<nat> { set c | c in s.enrolls && Holds(s.enrolls[c]) }

  function Makers(s: State): set<nat> { set c | c in s.enrolls && s.enrolls[c].phase.Enrolled? }

  /** Calls holding a code and still running. */
  function InFlight(s: State): set<nat> {
    set c | c in s.enrolls && s.enrolls[c].alive && Holds(s.enrolls[c])
            && !s.enrolls[c].phase.Enrolled? && !s.enrolls[c].phase.Wasted?
  }

  /** Calls whose insert failed, or whose process died while they held a code. */
  function Lost(s: State): set<nat> {
    set c | c in s.enrolls && Holds(s.enrolls[c]) && !s.enrolls[c].phase.Enrolled?
            && (s.enrolls[c].phase.Wasted? || !s.enrolls[c].alive)
  }

  lemma CodesHeldOneToOne(s: State)
    requires Accounted(s)
    ensures |Holders(s)| == |UsedCodes(s)|
  {
    var hashes := map c | c in s.enrolls :: s.enrolls[c].hash;
    forall h ensures h in UsedCodes(s) <==> exists c :: c in Holders(s) && hashes[c] == h {
      if h in UsedCodes(s) {
        assert Used(s.codes, h);
        var c: nat :| HeldBy(s.enrolls, h, c);
        assert c in Holders(s) && hashes[c] == h;
      }
      if c :| c in Holders(s) && hashes[c] == h {
        assert CallMatches(s.codes, s.nodes, s.enrolls[c]);
      }
    }
    forall c, d | c in Holders(s) && d in Holders(s) && hashes[c] == hashes[d] ensures c == d {
      assert HeldBy(s.enrolls, hashes[c], c) && HeldBy(s.enrolls, hashes[c], d);
    }
    InjectiveImageSize(Holders(s), hashes, UsedCodes(s));
  }

  lemma NodesMadeOneToOne(s: State)
    requires Accounted(s)
    ensures |Makers(s)| == |s.nodes|
  {
    var made := map c | c in Makers(s) :: s.enrolls[c].phase.nodeId;
    forall n ensures n in s.nodes.Keys <==> exists c :: c in Makers(s) && made[c] == n {
      if n in s.nodes {
        var c: nat :| MadeBy(s.enrolls, n, c);
        assert c in Makers(s) && made[c] == n;
      }
      if c :| c in Makers(s) && made[c] == n {
        assert CallMatches(s.codes, s.nodes, s.enrolls[c]);
      }
    }
    forall c, d | c in Makers(s) && d in Makers(s) && made[c] == made[d] ensures c == d {
      assert MadeBy(s.enrolls, made[c], c) && MadeBy(s.enrolls, made[c], d);
    }
    InjectiveImageSize(Makers(s), made, s.nodes.Keys);
  }

  /** Every code marked used is a node enrolled, a call still holding it, or a redemption lost. */
  lemma {:induction false} EnrollmentConservation(env: Env, events: seq<Event>)
    ensures var s := Run(env, INITIAL, events);
            |UsedCodes(s)| == |s.nodes| + |InFlight(s)| + |Lost(s)|
  {
    var s := Run(env, INITIAL, events);
    RunKeepsAccounted(env, INITIAL, events);
    CodesHeldOneToOne(s);
    NodesMadeOneToOne(s);
    HoldersPartition(s);
  }

  lemma HoldersPartition(s: State)
    ensures |Holders(s)| == |Makers(s)| + |InFlight(s)| + |Lost(s)|
  {
    var makers, inFlight, lost := Makers(s), InFlight(s), Lost(s);
    assert Holders(s) == makers + inFlight + lost;
    assert makers !! inFlight && (makers + inFlight) !! lost;
  }

  /** The node has the call's key, the code's tenant, and the first name that anyone gave it. */
  ghost predicate Backs(s: State, n: NodeId, c: nat) {
    && n in s.nodes && MadeBy(s.enrolls, n, c) && Used(s.codes, s.enrolls[c].hash)
    && var input, row := s.enrolls[c].input, s.codes[s.enrolls[c].hash];
    && s.nodes[n].orgId == row.orgId && s.nodes[n].publicKey == input.publicKey
    && FirstNonempty(s.nodes[n].name, [input.nodeName, row.nodeName, input.host.hostname, "node"])
  }

  /** Every node was bought with a code of its own tenant, and no two nodes with the same code or key. */
  lemma {:induction false} NodesAreBacked(env: Env, events: seq<Event>)
    ensures var s := Run(env, INITIAL, events);
            && (forall n :: n in s.nodes ==> exists c :: Backs(s, n, c))
            && (forall m, n, c, d :: MadeBy(s.enrolls, m, c) && MadeBy(s.enrolls, n, d) && m != n
                  ==> s.enrolls[c].hash != s.enrolls[d].hash)
            && KeysUnique(s.nodes)
  {
    var s := Run(env, INITIAL, events);
    RunKeepsAccounted(env, INITIAL, events);
    forall n | n in s.nodes ensures exists c :: Backs(s, n, c) {
      var c: nat :| MadeBy(s.enrolls, n, c);
      assert CallMatches(s.codes, s.nodes, s.enrolls[c]);
      var input := s.enrolls[c].input;
      NodeNameIsFirst(input.nodeName, s.codes[s.enrolls[c].hash].nodeName, input.host.hostname);
      assert Backs(s, n, c);
    }
    forall m, n, c, d | MadeBy(s.enrolls, m, c) && MadeBy(s.enrolls, n, d) && m != n
      ensures s.enrolls[c].hash != s.enrolls[d].hash
    {
      if s.enrolls[c].hash == s.enrolls[d].hash {
        assert HeldBy(s.enrolls, s.enrolls[c].hash, c) && HeldBy(s.enrolls, s.enrolls[c].hash, d);
      }
    }
  }

  /** How an insert ends, whatever happened since the redemption: the key decides first, then the id. */
  lemma InsertAnswers(nodes: Nodes, codes: Codes, call: EnrollCall, id: NodeId, now: int)
    requires call.phase.Redeemed?
    ensures var next := Advance(nodes, codes, call, Insert(id), now);
            var newKey := forall n :: n in nodes ==> nodes[n].publicKey != call.input.publicKey;
            && next.codes == codes
            && (next.call.phase == Enrolled(id) <==> newKey && id !in nodes)
            && (next.call.phase == Wasted(AlreadyEnrolled) <==> !newKey)
            && (next.call.phase == Wasted(InsertFailed) <==> newKey && id in nodes)
            && (next.call.phase.Wasted? ==> next.nodes == nodes)
            && (next.call.phase == Enrolled(id) ==>
                  && next.nodes.Keys == nodes.Keys + {id} && (forall n :: n in nodes ==> next.nodes[n] == nodes[n])
                  && next.nodes[id].host == call.input.host
                  && next.nodes[id].status == Offline && next.nodes[id].lastSeenAt == None)
  {
  }

  // ----- At most one redemption, ever

  ghost predicate RedeemedBy(s: State, h: string, c: nat) {
    c in s.enrolls && HasRedeemed(s.enrolls[c]) && s.enrolls[c].hash == h
  }

  lemma StepKeepsRedeemed(env: Env, s: State, e: Event, h: string, c: nat)
    requires RedeemedBy(s, h, c)
    ensures RedeemedBy(Step(env, s, e), h, c)
  {
    if e.Enroll? {
      if e.call == c {
        AdvanceKeepsRedeemed(s.nodes, s.codes, s.enrolls[c], e.enroll, s.clock);
      }
    } else {
      StepFrame(env, s, e);
    }
  }

  lemma AdvanceKeepsRedeemed(nodes: Nodes, codes: Codes, call: EnrollCall, e: EnrollEvent, now: int)
    requires HasRedeemed(call)
    ensures var next := Advance(nodes, codes, call, e, now).call; HasRedeemed(next) && next.hash == call.hash
  {
  }

  lemma {:induction false} RunKeepsRedeemed(env: Env, s: State, events: seq<Event>, h: string, c: nat)
    requires RedeemedBy(s, h, c)
    ensures RedeemedBy(Run(env, s, events), h, c)
  {
    if events != [] {
      RunKeepsRedeemed(env, s, events[..|events| - 1], h, c);
      StepKeepsRedeemed(env, Run(env, s, events[..|events| - 1]), events[|events| - 1], h, c);
    }
  }

  /** If one call has redeemed a code, no other call has, then or at any later time. */
  lemma {:induction false} AtMostOneRedemption(env: Env, events: seq<Event>, later: seq<Event>, h: string, c: nat,
                                               d: nat)
    requires RedeemedBy(Run(env, INITIAL, events), h, c)
    requires RedeemedBy(Run(env, INITIAL, events + later), h, d)
    ensures c == d
  {
    RunConcat(env, INITIAL, events, later);
    RunKeepsRedeemed(env, Run(env, INITIAL, events), later, h, c);
    RunKeepsAccounted(env, INITIAL, events + later);
    var s := Run(env, INITIAL, events + later);
    assert HeldBy(s.enrolls, h, c) && HeldBy(s.enrolls, h, d);
  }
}
