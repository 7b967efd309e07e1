/** The control plane's operations as it runs them: each call's statements in turn, on the shared tables. */
module ControlPlane {
  import opened Base
  import opened Fleet
  import opened DeviceTables
  import opened Enrollment
  import opened NodeAuth
  import opened System
  import Liveness
  import Pairing
  import Redemption
  import Replay

  /** One message as it arrives: when its write read the clock, and the ids its inserts would get. */
  datatype Arrival = Arrival(message: Message, stamp: int, newId: nat -> string)

  datatype Tables = Tables(nodes: Nodes, devices: Devices)

  /** A stream's messages applied in order; the first that the database refuses ends it. */
  function Served(t: Tables, org: OrgId, node: NodeId, arrivals: seq<Arrival>): (Tables, bool) {
    if arrivals == [] then (t, true)
    else
      var (mid, open) := Served(t, org, node, arrivals[..|arrivals| - 1]);
      var a := arrivals[|arrivals| - 1];
      if !open then (mid, false)
      else if a.message.Inventory?
              && RecordInventory(mid.nodes.Keys, mid.devices, org, node, a.message.devices, a.newId).Err?
      then (mid, false)
      else (Tables(NodesAfter(mid.nodes, org, node, a.message, a.stamp),
                   DevicesAfter(mid.nodes.Keys, mid.devices, org, node, a.message, a.newId)), true)
  }

  /** The rows each of the sweep's two statements matches. */
  function DueOffline(env: Env, nodes: Nodes, now: int): set<NodeId> {
    set n | n in nodes && nodes[n].status != Offline && SeenBefore(nodes[n], now - OfflineAfter(env))
  }

  function DueDegraded(env: Env, nodes: Nodes, now: int): set<NodeId> {
    set n | n in nodes && nodes[n].status == Online && SeenBefore(nodes[n], now - DegradedAfter(env))
  }

  function Changed(before: Nodes, after: Nodes): set<NodeId> {
    set n | n in before && n in after && after[n] != before[n]
  }

  lemma RowChanges(env: Env, n: NodeRow, now: int)
    ensures var mid := OfflineRow(env, n, now);
            var due := n.status != Offline && SeenBefore(n, now - OfflineAfter(env));
            var late := mid.status == Online && SeenBefore(mid, now - DegradedAfter(env));
            (DegradedRow(env, mid, now) != n <==> due || late) && !(due && late)
  {
  }

  /** The two statements never count a row twice, and between them count every row that changed. */
  lemma SweepChanges(env: Env, nodes: Nodes, now: int)
    ensures var mid := MarkAllOffline(env, nodes, now);
            |Changed(nodes, MarkAllDegraded(env, mid, now))|
            == |DueOffline(env, nodes, now)| + |DueDegraded(env, mid, now)|
  {
    var mid := MarkAllOffline(env, nodes, now);
    var offline, degraded := DueOffline(env, nodes, now), DueDegraded(env, mid, now);
    var changed := Changed(nodes, MarkAllDegraded(env, mid, now));
    forall n ensures (n in changed <==> n in offline || n in degraded) && !(n in offline && n in degraded) {
      NodeChanges(env, nodes, n, now);
    }
    assert changed == offline + degraded && offline !! degraded;
  }

  lemma NodeChanges(env: Env, nodes: Nodes, n: NodeId, now: int)
    ensures var mid := MarkAllOffline(env, nodes, now);
            var offline, degraded := n in DueOffline(env, nodes, now), n in DueDegraded(env, mid, now);
            (n in Changed(nodes, MarkAllDegraded(env, mid, now)) <==> offline || degraded) && !(offline && degraded)
  {
    if n in nodes {
      RowChanges(env, nodes[n], now);
    }
  }

  // ----- What the calls promise

  /**
   * Minting: if the code's hash is free, every retyping of the code will be
   * redeemed for this tenant and name up to one lifetime from now and called
   * expired after that; no other code is affected, and a taken hash changes
   * nothing.
   */
  ghost predicate Mints(env: Env, before: Codes, org: OrgId, user: string, nodeName: string, code: string, now: int,
                        stored: bool, after: Codes)
  {
    var hash := Pairing.HashCode(env, code);
    && (stored <==> hash !in before)
    && (forall h :: h != hash || !stored ==> (h in after <==> h in before) && (h in before ==> after[h] == before[h]))
    && (stored ==>
          && Pairing.Unused(after, hash) && after[hash].createdBy == user
          && forall edits, at :: Pairing.Redeem(after, Pairing.HashCode(env, Pairing.RetypeAll(code, edits)), at).0
                                 == if at <= now + env.codeTtlMs then Ok((org, nodeName)) else Err(CodeExpired))
  }

  lemma MintedIsRedeemable(env: Env, before: Codes, org: OrgId, user: string, nodeName: string, code: string, now: int)
    requires Pairing.HashCode(env, code) !in before
    ensures var row := CodeRow(org, nodeName, user, now + env.codeTtlMs, None);
            Mints(env, before, org, user, nodeName, code, now, true, before[Pairing.HashCode(env, code) := row])
  {
    forall edits ensures Pairing.HashCode(env, Pairing.RetypeAll(code, edits)) == Pairing.HashCode(env, code) {
      Pairing.VariantsShareNormalForm(env.upperOther, code, edits);
    }
  }

  lemma TakenHashIsKept(env: Env, before: Codes, org: OrgId, user: string, nodeName: string, code: string, now: int)
    requires Pairing.HashCode(env, code) in before
    ensures Mints(env, before, org, user, nodeName, code, now, false, before)
  {
  }

  /** A hello: the tenant's own node has the new host facts and is online as of `at`; nothing else changes. */
  ghost predicate Greets(before: Nodes, org: OrgId, node: NodeId, host: HostColumns, at: int, after: Nodes) {
    && after.Keys == before.Keys
    && forall n :: n in before ==>
         if n == node && before[n].orgId == org
         then && after[n].host == host && after[n].status == Online && after[n].lastSeenAt == Some(at)
              && after[n].orgId == org && after[n].name == before[n].name && after[n].publicKey == before[n].publicKey
         else after[n] == before[n]
  }

  /** What `Greets` promises is what the state machine's hello does. */
  lemma GreetingIsMarking(before: Nodes, org: OrgId, node: NodeId, host: HostColumns, at: int, after: Nodes)
    ensures Greets(before, org, node, host, at, after) <==> after == NodesAfter(before, org, node, Hello(host), at)
  {
    if Greets(before, org, node, host, at, after) {
      assert after == NodesAfter(before, org, node, Hello(host), at);
    }
  }

  /**
   * The first check that a header fails, if any: its scheme, its four fields, its
   * node id, its timestamp, the window, the node, the node's key, the signature
   * over the first three fields as received, and last the nonce.
   */
  ghost function FirstFailure(env: Env, nodes: Nodes, nonces: Nonces, header: Option<string>, checkedAt: int,
                              recordedAt: int): Option<AuthError>
  {
    if header.None? || !("ModelHubNode " <= header.value) then Some(MissingHeader)
    else
      var f := Split(header.value[|"ModelHubNode "|..]);
      if |f| != 4 || f[0] == "" || f[1] == "" || f[2] == "" || f[3] == "" then Some(MalformedHeader)
      else if !UuidText(f[0]) then Some(MalformedNodeId)
      else if Number(env, f[1]).None? then Some(MalformedTimestamp)
      else if !(-(env.skewMs as real) <= checkedAt as real - Number(env, f[1]).value <= env.skewMs as real)
      then Some(OutsideWindow)
      else if NodeIdOf(f[0]) !in nodes then Some(UnknownNode)
      else
        var key := nodes[NodeIdOf(f[0])].publicKey;
        if !env.keyParses(key) then Some(BadStoredKey)
        else if !env.verifies(key, f[0] + "." + f[1] + "." + f[2], f[3]) then Some(InvalidSignature)
        else if (f[0], f[2]) in nonces && recordedAt <= nonces[(f[0], f[2])] then Some(Replayed)
        else None
  }

  /** Authentication: exactly the headers that pass every check are accepted, and spend their nonce alone. */
  ghost predicate Authenticates(env: Env, nodes: Nodes, before: Nonces, header: Option<string>,
                                checkedAt: int, recordedAt: int, r: Result<(NodeId, OrgId), AuthError>,
                                after: Nonces)
  {
    match FirstFailure(env, nodes, before, header, checkedAt, recordedAt)
    case Some(e) => r == Err(e) && after == before
    case None =>
      var f := Split(header.value[|"ModelHubNode "|..]);
      var id, key := NodeIdOf(f[0]), (f[0], f[2]);
      && r == Ok((id, nodes[id].orgId))
      && after.Keys == before.Keys + {key} && after[key] == recordedAt + 2 * env.skewMs
      && forall k :: k in before && k != key ==> after[k] == before[k]
  }

  /** The checks the server makes are these. */
  lemma ChecksFailFirst(env: Env, nodes: Nodes, nonces: Nonces, header: Option<string>, checkedAt: int, recordedAt: int)
    ensures var failure := FirstFailure(env, nodes, nonces, header, checkedAt, recordedAt);
            match CheckAt(env, header, checkedAt)
            case Rejected(e) => failure == Some(e)
            case Checked(c, at) =>
              && ParseHeader(header) == Ok(c)
              && (match VerifyAgainst(env, nodes, c, at)
                  case Rejected(e) => failure == Some(e)
                  case Verified(_, _, _) =>
                    failure == if Live(nonces, NonceKey(c), recordedAt) then Some(Replayed) else None
                  case _ => false)
            case _ => false
  {
    if header.Some? && SCHEME <= header.value {
      var f := Split(header.value[|SCHEME|..]);
      if |f| == 4 && "" !in f {
        UuidsAreGrouped(f[0]);
      }
    }
  }

  /** A sweep: each row keeps everything but its status, which follows how long the node has been silent. */
  ghost predicate Sweeps(env: Env, before: Nodes, now: int, after: Nodes) {
    && after.Keys == before.Keys
    && forall n :: n in before ==>
         var row := before[n];
         after[n] == row.(status :=
           match row.lastSeenAt
           case None => row.status
           case Some(seen) =>
             if seen < now - 6 * env.intervalMs then Offline
             else if seen < now - 3 * env.intervalMs && row.status == Online then Degraded
             else row.status)
  }

  lemma MarksSweep(env: Env, nodes: Nodes, now: int)
    ensures Sweeps(env, nodes, now, MarkAllDegraded(env, MarkAllOffline(env, nodes, now), now))
  {
  }

  /** A heartbeat: the tenant's own node is online as of `at`; nothing else changes. */
  ghost predicate Beats(before: Nodes, org: OrgId, node: NodeId, at: int, after: Nodes) {
    && after.Keys == before.Keys
    && forall n :: n in before ==>
         after[n] == if n == node && before[n].orgId == org
                     then before[n].(status := Online, lastSeenAt := Some(at)) else before[n]
  }

  /**
   * Enrollment: accepted exactly with a 32-byte key no node has, a code that is
   * there, unused and not past its expiry, and a new id; otherwise it is told the
   * first of these that fails. Only an attempt that gets as far as the insert
   * spends the code, and only an accepted one adds a node.
   */
  ghost predicate Enrolls(env: Env, nodes: Nodes, codes: Codes, input: EnrollInput, id: NodeId, now: int,
                          r: Result<(NodeId, OrgId), EnrollError>, nodes': Nodes, codes': Codes)
  {
    var hash := Pairing.HashCode(env, input.pairingCode);
    var newKey := forall n :: n in nodes ==> nodes[n].publicKey != input.publicKey;
    if |input.publicKey| != 32 then r == Err(BadPublicKey) && nodes' == nodes && codes' == codes
    else if !newKey then r == Err(AlreadyEnrolled) && nodes' == nodes && codes' == codes
    else if hash !in codes then r == Err(UnknownCode) && nodes' == nodes && codes' == codes
    else
      var row := codes[hash];
      && (r == Err(CodeAlreadyUsed) <==> row.usedAt.Some?)
      && (r == Err(CodeExpired) <==> row.usedAt.None? && row.expiresAt < now)
      && (r == Err(InsertFailed) <==> row.usedAt.None? && now <= row.expiresAt && id in nodes)
      && (r.Ok? <==> row.usedAt.None? && now <= row.expiresAt && id !in nodes)
      && codes' == (if r.Ok? || r == Err(InsertFailed) then codes[hash := row.(usedAt := Some(now))] else codes)
      && (r.Err? ==> nodes' == nodes)
      && (r.Ok? ==>
            && r.value == (id, row.orgId) && nodes'.Keys == nodes.Keys + {id}
            && (forall n :: n in nodes ==> nodes'[n] == nodes[n])
            && nodes'[id].orgId == row.orgId && nodes'[id].publicKey == input.publicKey
            && nodes'[id].host == input.host && nodes'[id].status == Offline && nodes'[id].lastSeenAt == None
            && Redemption.FirstNonempty(nodes'[id].name,
                                        [input.nodeName, row.nodeName, input.host.hostname, "node"]))
  }

  lemma EnrollmentAnswers(env: Env, nodes: Nodes, codes: Codes, input: EnrollInput, id: NodeId, now: int)
    ensures var alone := EnrollAlone(env, nodes, codes, input, id, now);
            Enrolls(env, nodes, codes, input, id, now, alone.result, alone.nodes, alone.codes)
  {
    var hash := Pairing.HashCode(env, input.pairingCode);
    Pairing.RedeemAnswers(codes, hash, now);
    if hash in codes {
      Redemption.NodeNameIsFirst(input.nodeName, codes[hash].nodeName, input.host.hostname);
    }
  }

  class Server {
    const env: Env
    var organizations: map<OrgId, string>
    var nodes: Nodes
    var devices: Devices
    var codes: Codes
    var nonces: Nonces

    constructor (env: Env)
      ensures this.env == env && nodes == map[] && devices == map[] && codes == map[] && nonces == map[]
      ensures organizations == map[]
    {
      this.env := env;
      organizations := map[];
      nodes, devices, codes, nonces := map[], map[], map[], map[];
    }

    /** False when the generated code collides with one already stored. */
    method MintPairingCode(org: OrgId, user: string, nodeName: string, code: string, now: int) returns (stored: bool)
      modifies this`codes
      ensures Mints(env, old(codes), org, user, nodeName, code, now, stored, codes)
    {
      var hash := Pairing.HashCode(env, code);
      stored := hash !in codes;
      if !stored {
        TakenHashIsKept(env, codes, org, user, nodeName, code, now);
        return;
      }
      MintedIsRedeemable(env, codes, org, user, nodeName, code, now);
      codes := codes[hash := CodeRow(org, nodeName, user, now + env.codeTtlMs, None)];
    }

    /** Claim, then check the expiry, then keep the claim or release it. */
    method RedeemPairingCode(code: string, now: int) returns (r: Result<(OrgId, string), EnrollError>)
      modifies this`codes
      ensures (r, codes) == Pairing.Redeem(old(codes), Pairing.HashCode(env, code), now)
      ensures Pairing.Redeems(old(codes), Pairing.HashCode(env, code), now, r, codes)
    {
      Pairing.RedeemAnswers(codes, Pairing.HashCode(env, code), now);
      var hash := Pairing.HashCode(env, code);
      if !Pairing.Unused(codes, hash) {
        return Err(if hash in codes then CodeAlreadyUsed else UnknownCode);
      }
      codes := Pairing.Claim(codes, hash, now);
      var row := codes[hash];
      if row.expiresAt < now {
        codes := Pairing.Release(codes, hash);
        return Err(CodeExpired);
      }
      r := Ok((row.orgId, row.nodeName));
    }

    /** The answer also carries the organization's name, or nothing if there is no such organization. */
    method EnrollNode(input: EnrollInput, id: NodeId, now: int)
      returns (r: Result<(NodeId, OrgId), EnrollError>, orgName: string)
      modifies this`nodes, this`codes
      ensures Outcome(r, nodes, codes) == EnrollAlone(env, old(nodes), old(codes), input, id, now)
      ensures Enrolls(env, old(nodes), old(codes), input, id, now, r, nodes, codes)
      ensures orgName != "" ==> r.Ok? && r.value.1 in organizations && orgName == organizations[r.value.1]
      ensures r.Ok? && r.value.1 in organizations ==> orgName == organizations[r.value.1]
    {
      EnrollmentAnswers(env, nodes, codes, input, id, now);
      if |input.publicKey| != 32 {
        return Err(BadPublicKey), "";
      }
      if KeyTaken(nodes, input.publicKey) {
        return Err(AlreadyEnrolled), "";
      }
      var redeemed := RedeemPairingCode(input.pairingCode, now);
      if redeemed.Err? {
        return Err(redeemed.error), "";
      }
      var (org, minted) := redeemed.value;
      if id in nodes {
        return Err(InsertFailed), "";
      }
      nodes := nodes[id := NewNode(input, org, minted)];
      r, orgName := Ok((id, org)), "";
      if org in organizations {
        orgName := organizations[org];
      }
    }

    /** From then on every sweep sees a node last heard of at `at`, whatever its status was. */
    method MarkOnline(org: OrgId, node: NodeId, host: HostColumns, at: int)
      modifies this`nodes
      ensures Greets(old(nodes), org, node, host, at, nodes)
      ensures node in nodes && nodes[node].orgId == org ==>
                forall now :: DegradedRow(env, OfflineRow(env, nodes[node], now), now).status
                              == Liveness.Classify(env, now, Some(at))
    {
      if node in nodes && nodes[node].orgId == org {
        nodes := nodes[node := nodes[node].(host := host, status := Online, lastSeenAt := Some(at))];
      }
    }

    /**
     * One upsert per reported device of known kind, then one delete of the rest,
     * in a transaction: a refused statement leaves the table as it was.
     */
    method StoreInventory(org: OrgId, node: NodeId, reported: seq<WireDevice>, newId: nat -> string)
      returns (r: Result<(), TxError>)
      modifies this`devices
      ensures match RecordInventory(nodes.Keys, old(devices), org, node, reported, newId)
              case Ok(after) => r == Ok(()) && devices == after
              case Err(e) => r == Err(e) && devices == old(devices)
    {
      var known := Known(reported);
      var tx := devices;
      NothingStored(devices, org, node, newId);
      for i := 0 to |known|
        invariant devices == old(devices) && tx == Upserted(devices, org, node, known[..i], newId)
        invariant Storable(nodes.Keys, devices, org, node, IdsOf(known[..i]))
      {
        var d := known[i];
        var key := (node, d.localId);
        if node !in nodes {
          assert IdsOf(known)[i] == d.localId;
          return Err(NoSuchNode);
        }
        if key in tx && tx[key].orgId != org {
          ConflictStops(nodes.Keys, devices, org, node, known, i, newId);
          return Err(OtherTenantsRow);
        }
        OneMoreStored(nodes.Keys, devices, org, node, known, i, newId);
        tx := UpsertOne(tx, org, node, d, newId(i));
      }
      assert known[..|known|] == known;
      devices := Pruned(tx, org, node, IdsOf(known));
      r := Ok(());
    }

    /** One update per sample, then the heartbeat; an empty batch is still a heartbeat. */
    method StoreSamples(org: OrgId, node: NodeId, samples: seq<WireSample>, at: int)
      modifies this`devices, this`nodes
      ensures devices == WithSamples(old(devices), org, node, samples)
      ensures nodes == Touch(old(nodes), org, node, at) && Beats(old(nodes), org, node, at, nodes)
    {
      assert WithSamples(devices, org, node, []) == devices;
      for i := 0 to |samples|
        invariant devices == WithSamples(old(devices), org, node, samples[..i]) && nodes == old(nodes)
      {
        assert samples[..i + 1] == samples[..i] + [samples[i]];
        WithSamplesGrows(old(devices), org, node, samples[..i], samples[i]);
        devices := UpdateOne(devices, org, node, samples[i]);
      }
      assert samples[..|samples|] == samples;
      nodes := Touch(nodes, org, node, at);
    }

    /** Marks silent nodes offline, then those still online degraded; returns how many rows it changed. */
    method SweepOfflineNodes(now: int) returns (changed: nat)
      modifies this`nodes
      ensures nodes == MarkAllDegraded(env, MarkAllOffline(env, old(nodes), now), now)
      ensures Sweeps(env, old(nodes), now, nodes)
      ensures changed == |Changed(old(nodes), nodes)|
    {
      ghost var before := nodes;
      var offline := DueOffline(env, nodes, now);
      nodes := MarkAllOffline(env, nodes, now);
      var degraded := DueDegraded(env, nodes, now);
      nodes := MarkAllDegraded(env, nodes, now);
      SweepChanges(env, before, now);
      MarksSweep(env, before, now);
      changed := |offline| + |degraded|;
    }

    /** Checks before any query, then the node's row and the signature, and the nonce last. */
    method AuthenticateNode(header: Option<string>, checkedAt: int, recordedAt: int)
      returns (r: Result<(NodeId, OrgId), AuthError>)
      modifies this`nonces
      ensures Authenticates(env, nodes, old(nonces), header, checkedAt, recordedAt, r, nonces)
    {
      ChecksFailFirst(env, nodes, nonces, header, checkedAt, recordedAt);
      var checked := CheckAt(env, header, checkedAt);
      if checked.Rejected? {
        return Err(checked.error);
      }
      var verified := VerifyAgainst(env, nodes, checked.creds, checked.at);
      if verified.Rejected? {
        return Err(verified.error);
      }
      var key := NonceKey(checked.creds);
      if Live(nonces, key, recordedAt) {
        return Err(Replayed);
      }
      nonces := nonces[key := recordedAt + 2 * env.skewMs];
      r := Ok((NodeIdOf(checked.creds.nodeId), verified.orgId));
    }

    /** Nothing is read before the caller is known; then it is acknowledged, and its messages applied in order. */
    method Connect(header: Option<string>, checkedAt: int, recordedAt: int, arrivals: seq<Arrival>)
      returns (who: Result<(NodeId, OrgId), AuthError>, ack: Option<(string, nat)>, completed: bool)
      modifies this`nonces, this`nodes, this`devices
      ensures Authenticates(env, old(nodes), old(nonces), header, checkedAt, recordedAt, who, nonces)
      ensures who.Err? ==> nodes == old(nodes) && devices == old(devices) && ack == None && !completed
      ensures who.Ok? ==>
                && ack.Some? && ack.value.1 == env.intervalMs && NodeIdOf(ack.value.0) == who.value.0
                && header.Some? && "ModelHubNode " + ack.value.0 + "." <= header.value
                && (Tables(nodes, devices), completed)
                   == Served(Tables(old(nodes), old(devices)), who.value.1, who.value.0, arrivals)
    {
      completed, ack := false, None;
      who := AuthenticateNode(header, checkedAt, recordedAt);
      if who.Err? {
        return;
      }
      ChecksFailFirst(env, old(nodes), old(nonces), header, checkedAt, recordedAt);
      Replay.SignedTextIsAsReceived(header.value);
      ack := Some((ParseHeader(header).value.nodeId, env.intervalMs));
      completed := ServeMessages(who.value.1, who.value.0, arrivals);
    }

    /** The message loop of a stream; the first message the database refuses ends it. */
    method ServeMessages(org: OrgId, node: NodeId, arrivals: seq<Arrival>) returns (completed: bool)
      modifies this`nodes, this`devices
      ensures (Tables(nodes, devices), completed) == Served(Tables(old(nodes), old(devices)), org, node, arrivals)
    {
      ghost var start := Tables(nodes, devices);
      for i := 0 to |arrivals|
        invariant (Tables(nodes, devices), true) == Served(start, org, node, arrivals[..i])
      {
        assert arrivals[..i + 1][..i] == arrivals[..i];
        var a := arrivals[i];
        match a.message {
          case Hello(host) =>
            ghost var before := nodes;
            MarkOnline(org, node, host, a.stamp);
            GreetingIsMarking(before, org, node, host, a.stamp, nodes);
          case Inventory(reported) =>
            var stored := StoreInventory(org, node, reported, a.newId);
            if stored.Err? {
              ServedStops(start, org, node, arrivals, i + 1);
              return false;
            }
          case Samples(samples) => StoreSamples(org, node, samples, a.stamp);
          case Unset =>
        }
      }
      assert arrivals[..|arrivals|] == arrivals;
      completed := true;
    }
  }

  /** The report can still be stored with one more device on it. */
  lemma StorableGrows(nodeIds: set<NodeId>, devices: Devices, org: OrgId, node: NodeId, known: seq<KnownDevice>,
                      d: KnownDevice)
    requires Storable(nodeIds, devices, org, node, IdsOf(known)) && node in nodeIds
    requires (node, d.localId) in devices ==> devices[(node, d.localId)].orgId == org
    ensures Storable(nodeIds, devices, org, node, IdsOf(known + [d]))
  {
    forall id | id in IdsOf(known + [d]) && (node, id) in devices ensures devices[(node, id)].orgId == org {
      IdsGrow(known, d, id);
    }
  }

  lemma NothingStored(devices: Devices, org: OrgId, node: NodeId, newId: nat -> string)
    ensures Upserted(devices, org, node, [], newId) == devices
  {
  }

  /** One pass of the upsert loop that the database accepts. */
  lemma OneMoreStored(nodeIds: set<NodeId>, devices: Devices, org: OrgId, node: NodeId, known: seq<KnownDevice>, i: nat,
                      newId: nat -> string)
    requires i < |known| && node in nodeIds && Storable(nodeIds, devices, org, node, IdsOf(known[..i]))
    requires var tx, key := Upserted(devices, org, node, known[..i], newId), (node, known[i].localId);
             key in tx ==> tx[key].orgId == org
    ensures Upserted(devices, org, node, known[..i + 1], newId)
         == UpsertOne(Upserted(devices, org, node, known[..i], newId), org, node, known[i], newId(i))
    ensures Storable(nodeIds, devices, org, node, IdsOf(known[..i + 1]))
  {
    assert known[..i + 1] == known[..i] + [known[i]];
    UpsertedAt(devices, org, node, known[..i], newId, (node, known[i].localId));
    UpsertedGrows(devices, org, node, known[..i], known[i], newId);
    StorableGrows(nodeIds, devices, org, node, known[..i], known[i]);
  }

  /** A reported id whose row is another tenant's: the whole report cannot be stored. */
  lemma ConflictStops(nodeIds: set<NodeId>, devices: Devices, org: OrgId, node: NodeId, known: seq<KnownDevice>, i: nat,
                      newId: nat -> string)
    requires i < |known| && Storable(nodeIds, devices, org, node, IdsOf(known[..i]))
    requires var tx, key := Upserted(devices, org, node, known[..i], newId), (node, known[i].localId);
             key in tx && tx[key].orgId != org
    ensures !Storable(nodeIds, devices, org, node, IdsOf(known))
  {
    var key := (node, known[i].localId);
    UpsertedAt(devices, org, node, known[..i], newId, key);
    assert IdsOf(known)[i] == known[i].localId;
  }

  /** Once a stream has ended nothing more of it is applied. */
  lemma {:induction false} ServedStops(t: Tables, org: OrgId, node: NodeId, arrivals: seq<Arrival>, i: nat)
    requires i <= |arrivals| && !Served(t, org, node, arrivals[..i]).1
    ensures Served(t, org, node, arrivals) == Served(t, org, node, arrivals[..i])
    decreases |arrivals|
  {
    if i == |arrivals| {
      assert arrivals[..i] == arrivals;
    } else {
      var front := arrivals[..|arrivals| - 1];
      assert front[..i] == arrivals[..i];
      ServedStops(t, org, node, front, i);
    }
  }
}
