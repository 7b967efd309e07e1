/** Which rows belong to whom, in every reachable state, and what other tenants can and cannot affect. */
module Tenancy {
  import opened Base
  import opened Fleet
  import opened Memory
  import opened Wire
  import opened DeviceTables
  import opened Enrollment
  import opened NodeAuth
  import opened System
  import opened FleetService

  // ----- A node's tenant, key and name never change

  ghost predicate KeepsNodes(before: Nodes, after: Nodes) {
    forall n :: n in before ==>
      && n in after && after[n].orgId == before[n].orgId && after[n].publicKey == before[n].publicKey
      && after[n].name == before[n].name
  }

  /** Same nodes, same tenants, keys and names; only status, host facts and last-seen may differ. */
  ghost predicate SameIdentities(a: Nodes, b: Nodes) { a.Keys == b.Keys && KeepsNodes(a, b) }

  lemma DeliverKeepsIdentities(s: State, c: nat, m: Message, stamp: int, newId: nat -> string)
    ensures SameIdentities(s.nodes, DeliverStep(s, c, m, stamp, newId).nodes)
  {
  }

  lemma SweepKeepsIdentities(env: Env, s: State, w: nat, e: SweepEvent)
    ensures SameIdentities(s.nodes, SweepStep(env, s, w, e).nodes)
  {
  }

  lemma AdvanceKeepsNodes(nodes: Nodes, codes: Codes, call: EnrollCall, e: EnrollEvent, now: int)
    ensures KeepsNodes(nodes, Advance(nodes, codes, call, e, now).nodes)
  {
  }

  lemma EnrollKeepsNodes(env: Env, s: State, c: nat, e: EnrollEvent)
    ensures KeepsNodes(s.nodes, EnrollStep(env, s, c, e).nodes)
  {
    if c in s.enrolls {
      AdvanceKeepsNodes(s.nodes, s.codes, s.enrolls[c], e, s.clock);
    }
  }

  lemma StepKeepsNodes(env: Env, s: State, e: Event)
    ensures KeepsNodes(s.nodes, Step(env, s, e).nodes)
  {
    match e
    case Deliver(c, m, stamp, newId) => DeliverKeepsIdentities(s, c, m, stamp, newId);
    case Sweep(w, statement) => SweepKeepsIdentities(env, s, w, statement);
    case Enroll(c, enroll) => EnrollKeepsNodes(env, s, c, enroll);
    case _ => StepFrame(env, s, e);
  }

  // ----- What holds of every reachable state

  /** A verified call names a stored node and that node's tenant. */
  ghost predicate PhaseOwned(nodes: Nodes, phase: AuthPhase) {
    phase.Verified? || phase.Accepted? ==>
      var node := NodeIdOf(phase.creds.nodeId);
      node in nodes && nodes[node].orgId == phase.orgId
  }

  ghost predicate StreamsOwned(s: State) { forall c :: c in s.auths ==> PhaseOwned(s.nodes, s.auths[c].phase) }

  /** A device row belongs to a stored node, carries its tenant, and holds names the views know. */
  ghost predicate DeviceOwned(nodes: Nodes, k: DeviceKey, d: DeviceRow) {
    && k.0 in nodes && d.orgId == nodes[k.0].orgId
    && d.facts.kind in KIND_NAMES && d.sampled.pressure in PRESSURE_NAMES
  }

  ghost predicate DevicesOwned(s: State) { forall k :: k in s.devices ==> DeviceOwned(s.nodes, k, s.devices[k]) }

  ghost predicate Owned(s: State) { StreamsOwned(s) && DevicesOwned(s) }

  lemma OwnReportsAreStorable(s: State, org: OrgId, node: NodeId, ids: seq<LocalId>)
    requires DevicesOwned(s) && node in s.nodes && s.nodes[node].orgId == org
    ensures Storable(s.nodes.Keys, s.devices, org, node, ids)
  {
    forall id | id in ids && (node, id) in s.devices ensures s.devices[(node, id)].orgId == org {
      assert DeviceOwned(s.nodes, (node, id), s.devices[(node, id)]);
    }
  }

  lemma InventoryKeepsOwned(s: State, org: OrgId, node: NodeId, reported: seq<WireDevice>, newId: nat -> string)
    requires DevicesOwned(s) && node in s.nodes && s.nodes[node].orgId == org
    ensures RecordInventory(s.nodes.Keys, s.devices, org, node, reported, newId).Ok?
    ensures var after := RecordInventory(s.nodes.Keys, s.devices, org, node, reported, newId).value;
            forall k :: k in after ==> DeviceOwned(s.nodes, k, after[k])
  {
    var known := Known(reported);
    OwnReportsAreStorable(s, org, node, IdsOf(known));
    var after := Reconciled(s.devices, org, node, known, newId);
    forall k | k in after ensures DeviceOwned(s.nodes, k, after[k]) {
      ReconciledAt(s.devices, org, node, known, newId, k);
    }
  }

  lemma DeliverKeepsOwned(s: State, c: nat, m: Message, stamp: int, newId: nat -> string)
    requires Owned(s)
    ensures Owned(DeliverStep(s, c, m, stamp, newId))
  {
    DeliverKeepsIdentities(s, c, m, stamp, newId);
    if IsOpen(s, c) && m.Inventory? {
      InventoryKeepsOwned(s, StreamOrg(s, c), StreamNode(s, c), m.devices, newId);
    }
  }

  /** Nodes may be added or refreshed; nothing already owned is lost by it. */
  lemma FrameOwned(s: State, s': State)
    requires Owned(s) && KeepsNodes(s.nodes, s'.nodes) && s'.auths == s.auths && s'.devices == s.devices
    ensures Owned(s')
  {
  }

  lemma NextPhaseOwned(env: Env, s: State, phase: AuthPhase, e: AuthEvent)
    requires PhaseOwned(s.nodes, phase)
    ensures PhaseOwned(s.nodes, NextPhase(env, s, phase, e))
  {
  }

  lemma AuthKeepsOwned(env: Env, s: State, c: nat, e: AuthEvent)
    requires Owned(s)
    ensures Owned(AuthStep(env, s, c, e))
  {
    if c in s.auths {
      NextPhaseOwned(env, s, s.auths[c].phase, e);
    }
  }

  lemma EnrollKeepsOwned(env: Env, s: State, c: nat, e: EnrollEvent)
    requires Owned(s)
    ensures Owned(EnrollStep(env, s, c, e))
  {
    EnrollKeepsNodes(env, s, c, e);
    FrameOwned(s, EnrollStep(env, s, c, e));
  }

  lemma SweepKeepsOwned(env: Env, s: State, w: nat, e: SweepEvent)
    requires Owned(s)
    ensures Owned(SweepStep(env, s, w, e))
  {
    SweepKeepsIdentities(env, s, w, e);
    FrameOwned(s, SweepStep(env, s, w, e));
  }

  lemma MintKeepsOwned(env: Env, s: State, org: OrgId, user: string, nodeName: string, code: string)
    requires Owned(s)
    ensures Owned(MintStep(env, s, org, user, nodeName, code))
  {
    FrameOwned(s, MintStep(env, s, org, user, nodeName, code));
  }

  lemma StepKeepsOwned(env: Env, s: State, e: Event)
    requires Owned(s)
    ensures Owned(Step(env, s, e))
  {
    match e
    case Deliver(c, m, stamp, newId) => DeliverKeepsOwned(s, c, m, stamp, newId);
    case Auth(c, auth) => AuthKeepsOwned(env, s, c, auth);
    case Enroll(c, enroll) => EnrollKeepsOwned(env, s, c, enroll);
    case Sweep(w, statement) => SweepKeepsOwned(env, s, w, statement);
    case Mint(org, user, nodeName, code) => MintKeepsOwned(env, s, org, user, nodeName, code);
    case Tick(ms) => FrameOwned(s, s.(clock := s.clock + ms));
  }

  lemma {:induction false} RunKeepsOwned(env: Env, s: State, events: seq<Event>)
    requires Owned(s)
    ensures Owned(Run(env, s, events))
  {
    if events != [] {
      RunKeepsOwned(env, s, events[..|events| - 1]);
      StepKeepsOwned(env, Run(env, s, events[..|events| - 1]), events[|events| - 1]);
    }
  }

  // ----- Views are total

  /** No message on an open stream is ever refused by the database. */
  lemma {:induction false} StreamsNeverFail(env: Env, events: seq<Event>, c: nat, reported: seq<WireDevice>,
                                            newId: nat -> string)
    requires IsOpen(Run(env, INITIAL, events), c)
    ensures var s := Run(env, INITIAL, events);
            && StreamNode(s, c) in s.nodes && s.nodes[StreamNode(s, c)].orgId == StreamOrg(s, c)
            && RecordInventory(s.nodes.Keys, s.devices, StreamOrg(s, c), StreamNode(s, c), reported, newId).Ok?
  {
    var s := Run(env, INITIAL, events);
    RunKeepsOwned(env, INITIAL, events);
    InventoryKeepsOwned(s, StreamOrg(s, c), StreamNode(s, c), reported, newId);
  }

  /** A stored device can be shown: its budget is computed, its names survive the trip to the wire. */
  ghost predicate Shown(k: DeviceKey, d: DeviceRow) {
    && ViewDevice(k.1, d).Ok?
    && var view := ViewDevice(k.1, d).value;
    && KindName(view.kind) == Some(d.facts.kind)
    && PressureName(view.pressure) == Some(d.sampled.pressure)
    && 0 <= view.budget.availableBytes <= view.budget.totalBytes == d.facts.totalBytes
    && 0 <= view.budget.foreignBytes && 0 <= view.budget.headroomBytes && 0 <= view.budget.managedBytes
    && (if d.facts.totalBytes == 0 then view.budget == MemoryBudget(0, 0, 0, 0, 0, false)
        else BudgetIs(d.facts.kind, d.facts.totalBytes, d.sampled.usedBytes, d.sampled.managedBytes,
                      Some(d.facts.wiredLimitBytes), Some(d.sampled.pressure), d.interactive, view.budget))
    && view.id == d.id && view.localId == k.1 && view.name == d.facts.name && view.utilization == d.sampled.utilization
    && (view.budget.schedulable <==> d.facts.totalBytes > 0 && d.sampled.pressure == "normal")
  }

  lemma OwnedDeviceShown(nodes: Nodes, k: DeviceKey, d: DeviceRow)
    requires DeviceOwned(nodes, k, d)
    ensures Shown(k, d)
  {
    BudgetFailsExactlyOnUnknownKind(BudgetInput(d));
    BudgetFieldsInRange(BudgetInput(d));
    if d.facts.totalBytes > 0 {
      BudgetByKind(BudgetInput(d));
    }
    NamesRoundTrip(d.facts.kind, 0);
    NamesRoundTrip(d.sampled.pressure, 0);
  }

  /** The view says what the row says, and shows each of the node's devices as `ViewDevice` does. */
  ghost predicate ShowsNode(id: NodeId, n: NodeRow, devices: Devices, view: NodeView) {
    && view.name == n.name && view.status == n.status && view.host == n.host
    && view.lastSeenUnixMs == (match n.lastSeenAt case Some(at) => at case None => 0)
    && forall l :: (l in view.devices <==> (id, l) in devices)
                   && (l in view.devices ==> ViewDevice(l, devices[(id, l)]) == Ok(view.devices[l]))
  }

  lemma ViewNodeTotal(id: NodeId, n: NodeRow, visible: Devices, devices: Devices)
    requires forall k :: k in visible ==> Shown(k, visible[k])
    requires forall l :: ((id, l) in visible <==> (id, l) in devices)
                         && ((id, l) in visible ==> visible[(id, l)] == devices[(id, l)])
    ensures ViewNode(id, n, visible).Ok? && ShowsNode(id, n, devices, ViewNode(id, n, visible).value)
  {
    var view := ViewNode(id, n, visible).value;
    forall l ensures (l in view.devices <==> (id, l) in devices)
                     && (l in view.devices ==> ViewDevice(l, devices[(id, l)]) == Ok(view.devices[l]))
    {
      if (id, l) in visible {
        assert Shown((id, l), visible[(id, l)]);
      }
    }
  }

  /** A tenant sees all the devices of its own nodes. */
  lemma OwnDevicesVisible(s: State, org: OrgId, n: NodeId)
    requires DevicesOwned(s) && n in s.nodes && s.nodes[n].orgId == org
    ensures forall l :: ((n, l) in VisibleDevices(s, org) <==> (n, l) in s.devices)
                        && ((n, l) in s.devices ==> VisibleDevices(s, org)[(n, l)] == s.devices[(n, l)])
  {
    forall l | (n, l) in s.devices ensures (n, l) in VisibleDevices(s, org) {
      assert DeviceOwned(s.nodes, (n, l), s.devices[(n, l)]);
    }
  }

  /** One node, read by its own tenant. */
  lemma OwnNodeShown(s: State, org: OrgId, n: NodeId)
    requires DevicesOwned(s) && n in s.nodes && s.nodes[n].orgId == org
    ensures var view := ViewNode(n, s.nodes[n], VisibleDevices(s, org));
            view.Ok? && ShowsNode(n, s.nodes[n], s.devices, view.value)
  {
    forall k | k in VisibleDevices(s, org) ensures Shown(k, VisibleDevices(s, org)[k]) {
      OwnedDeviceShown(s.nodes, k, s.devices[k]);
    }
    OwnDevicesVisible(s, org, n);
    ViewNodeTotal(n, s.nodes[n], VisibleDevices(s, org), s.devices);
  }

  /** In every reachable state every stored device can be shown. */
  lemma {:induction false} DevicesAreShown(env: Env, events: seq<Event>)
    ensures forall k :: k in Run(env, INITIAL, events).devices ==> Shown(k, Run(env, INITIAL, events).devices[k])
  {
    var s := Run(env, INITIAL, events);
    RunKeepsOwned(env, INITIAL, events);
    forall k | k in s.devices ensures Shown(k, s.devices[k]) {
      OwnedDeviceShown(s.nodes, k, s.devices[k]);
    }
  }

  /** Nodes come sorted by name, each once; a node's devices come in the one order of their local ids. */
  ghost predicate RepliesInOrder(leq: Collation, s: State, org: OrgId, list: map<NodeId, NodeView>) {
    && (exists rows :: NodeOrder(leq, s, org, rows))
    && (forall rows :: NodeOrder(leq, s, org, rows) ==> ShowsInOrder(leq, list, rows))
    && (forall n :: n in list ==> exists ids :: OnlyDeviceOrder(leq, s, org, n, list[n], ids))
  }

  ghost predicate ShowsInOrder(leq: Collation, list: map<NodeId, NodeView>, rows: seq<NodeId>) {
    && (forall n :: n in rows <==> n in list)
    && (forall i, j :: 0 <= i < j < |rows| ==> rows[i] != rows[j] && leq(list[rows[i]].name, list[rows[j]].name))
  }

  ghost predicate OnlyDeviceOrder(leq: Collation, s: State, org: OrgId, n: NodeId, view: NodeView, ids: seq<LocalId>) {
    && DeviceOrder(leq, s, org, n, ids) && (forall l :: l in ids <==> l in view.devices)
    && (forall i, j :: 0 <= i < j < |ids| ==> ids[i] != ids[j] && leq(ids[i], ids[j]))
    && (forall other :: DeviceOrder(leq, s, org, n, other) ==> other == ids)
  }

  lemma DevicesHaveOneOrder(leq: Collation, s: State, org: OrgId, n: NodeId, view: NodeView)
    requires Collates(leq) && DevicesOwned(s) && n in s.nodes && s.nodes[n].orgId == org
    requires ShowsNode(n, s.nodes[n], s.devices, view)
    ensures exists ids :: OnlyDeviceOrder(leq, s, org, n, view, ids)
  {
    var texts := LocalIds(VisibleDevices(s, org), n);
    OwnDevicesVisible(s, org, n);
    forall l ensures l in texts <==> l in view.devices {
      assert l in texts <==> (n, l) in VisibleDevices(s, org);
    }
    var ids := OrderExists(leq, texts);
    forall other | DeviceOrder(leq, s, org, n, other) ensures other == ids {
      OrderUnique(leq, texts, other, ids);
    }
    assert OnlyDeviceOrder(leq, s, org, n, view, ids);
  }

  lemma NodesComeInOrder(leq: Collation, s: State, org: OrgId, list: map<NodeId, NodeView>)
    requires Collates(leq)
    requires forall n :: n in list <==> n in s.nodes && s.nodes[n].orgId == org
    requires forall n :: n in list ==> ShowsNode(n, s.nodes[n], s.devices, list[n])
    ensures exists rows :: NodeOrder(leq, s, org, rows)
    ensures forall rows :: NodeOrder(leq, s, org, rows) ==> ShowsInOrder(leq, list, rows)
  {
    var names := Names(VisibleNodes(s, org));
    var some := OrderExists(leq, names);
    assert NodeOrder(leq, s, org, some);
    forall n ensures (n in names <==> n in list) && (n in list ==> names[n] == list[n].name) {
      assert n in list ==> ShowsNode(n, s.nodes[n], s.devices, list[n]);
    }
    forall rows | NodeOrder(leq, s, org, rows) ensures ShowsInOrder(leq, list, rows) {
      OrderShows(leq, names, list, rows);
    }
  }

  lemma OrderShows(leq: Collation, names: map<NodeId, string>, list: map<NodeId, NodeView>, rows: seq<NodeId>)
    requires Ordered(leq, names, rows)
    requires forall n :: (n in names <==> n in list) && (n in list ==> names[n] == list[n].name)
    ensures ShowsInOrder(leq, list, rows)
  {
    forall i, j | 0 <= i < j < |rows| ensures rows[i] != rows[j] && leq(list[rows[i]].name, list[rows[j]].name) {
      assert rows[i] in rows && rows[j] in rows;
      assert leq(names[rows[i]], names[rows[j]]);
    }
  }

  /**
   * In every reachable state reads are total and exact: the list is the tenant's
   * nodes with all their devices, in order, and a single node is found exactly
   * when its id is well formed, in either case, and it is the tenant's own.
   */
  lemma {:induction false} ViewsAreTotal(env: Env, events: seq<Event>, org: OrgId, text: string, id: NodeId,
                                         leq: Collation)
    ensures var s := Run(env, INITIAL, events);
            var list, one := ListNodes(s, org), GetNode(s, org, text);
            && list.Ok?
            && (forall n :: n in list.value <==> n in s.nodes && s.nodes[n].orgId == org)
            && (forall n :: n in list.value ==> ShowsNode(n, s.nodes[n], s.devices, list.value[n]))
            && (UuidText(text) && Spells(text, id) ==>
                  && (one.Ok? <==> id in s.nodes && s.nodes[id].orgId == org)
                  && (one.Ok? ==> ShowsNode(id, s.nodes[id], s.devices, one.value)))
            && (!UuidText(text) ==> one.Err?)
            && (one.Err? ==> one.error == NotFound)
            && (Collates(leq) ==> RepliesInOrder(leq, s, org, list.value))
  {
    var s := Run(env, INITIAL, events);
    RunKeepsOwned(env, INITIAL, events);
    UuidsAreGrouped(text);
    if UuidText(text) {
      WellFormedIdsSpell(text, id);
    }
    forall n | n in VisibleNodes(s, org)
      ensures var view := ViewNode(n, s.nodes[n], VisibleDevices(s, org));
              view.Ok? && ShowsNode(n, s.nodes[n], s.devices, view.value)
    {
      OwnNodeShown(s, org, n);
    }
    if Collates(leq) {
      var list := ListNodes(s, org).value;
      NodesComeInOrder(leq, s, org, list);
      forall n | n in list ensures exists ids :: OnlyDeviceOrder(leq, s, org, n, list[n], ids) {
        DevicesHaveOneOrder(leq, s, org, n, list[n]);
      }
    }
  }

  /** A hello is what its tenant reads next: the node is online, last seen at the stamp, with those host facts. */
  lemma {:induction false} HelloIsVisible(env: Env, s: State, c: nat, host: HostColumns, stamp: int,
                                          newId: nat -> string, text: string)
    requires Owned(s) && IsOpen(s, c) && stamp <= s.clock && IsUuid(text) && NodeIdOf(text) == StreamNode(s, c)
    ensures var read := GetNode(Step(env, s, Deliver(c, Hello(host), stamp, newId)), StreamOrg(s, c), text);
            && read.Ok? && read.value.status == Online && read.value.lastSeenUnixMs == stamp && read.value.host == host
            && read.value.name == s.nodes[StreamNode(s, c)].name
  {
    var s' := Step(env, s, Deliver(c, Hello(host), stamp, newId));
    assert PhaseOwned(s.nodes, s.auths[c].phase);
    StepKeepsOwned(env, s, Deliver(c, Hello(host), stamp, newId));
    OwnNodeShown(s', StreamOrg(s, c), StreamNode(s, c));
  }

  // ----- Other tenants' streams

  /** A message on an open stream of some other tenant. */
  predicate Foreign(s: State, e: Event, org: OrgId) {
    e.Deliver? && IsOpen(s, e.conn) && StreamOrg(s, e.conn) != org
  }

  /** The run with every message of other tenants' streams taken out. */
  function Erase(env: Env, s: State, events: seq<Event>, org: OrgId): seq<Event> {
    if events == [] then []
    else
      var front, e := events[..|events| - 1], events[|events| - 1];
      Erase(env, s, front, org) + if Foreign(Run(env, s, front), e, org) then [] else [e]
  }

  /** Same nodes, and the same rows for `org`'s own. */
  ghost predicate NodesAgree(a: Nodes, b: Nodes, org: OrgId) {
    SameIdentities(a, b) && forall n :: n in a && a[n].orgId == org ==> a[n] == b[n]
  }

  ghost predicate DevicesAgree(nodes: Nodes, a: Devices, b: Devices, org: OrgId) {
    forall k: DeviceKey :: k.0 in nodes && nodes[k.0].orgId == org ==> (k in a <==> k in b) && (k in a ==> a[k] == b[k])
  }

  /** Two states `org` cannot tell apart: only other tenants' heartbeats and devices may differ. */
  ghost predicate Agree(s: State, t: State, org: OrgId) {
    && s.clock == t.clock && s.codes == t.codes && s.nonces == t.nonces
    && s.enrolls == t.enrolls && s.auths == t.auths && s.sweeps == t.sweeps
    && NodesAgree(s.nodes, t.nodes, org)
    && DevicesAgree(s.nodes, s.devices, t.devices, org)
  }

  lemma SameKeysTaken(a: Nodes, b: Nodes, key: Bytes)
    requires SameIdentities(a, b)
    ensures KeyTaken(a, key) <==> KeyTaken(b, key)
  {
    if KeyTaken(a, key) {
      var n :| n in a && a[n].publicKey == key;
      assert b[n].publicKey == key;
    }
    if KeyTaken(b, key) {
      var n :| n in b && b[n].publicKey == key;
      assert a[n].publicKey == key;
    }
  }

  lemma AdvanceAgrees(a: Nodes, b: Nodes, codes: Codes, call: EnrollCall, e: EnrollEvent, now: int, org: OrgId)
    requires NodesAgree(a, b, org)
    ensures var x, y := Advance(a, codes, call, e, now), Advance(b, codes, call, e, now);
            x.codes == y.codes && x.call == y.call && NodesAgree(x.nodes, y.nodes, org)
  {
    SameKeysTaken(a, b, call.input.publicKey);
    if e.Insert? && call.phase.Redeemed? {
      InsertAgrees(a, b, codes, call, e.nodeId, org);
    }
  }

  lemma InsertAgrees(a: Nodes, b: Nodes, codes: Codes, call: EnrollCall, id: NodeId, org: OrgId)
    requires NodesAgree(a, b, org) && call.phase.Redeemed?
    ensures var x, y := InsertStep(a, codes, call, id), InsertStep(b, codes, call, id);
            x.codes == y.codes && x.call == y.call && NodesAgree(x.nodes, y.nodes, org)
  {
    SameKeysTaken(a, b, call.input.publicKey);
  }

  /** A node that has just been added has no devices yet. */
  lemma DevicesAgreeOnMoreNodes(s: State, t: State, nodes: Nodes, org: OrgId)
    requires DevicesAgree(s.nodes, s.devices, t.devices, org) && SameIdentities(s.nodes, t.nodes)
    requires DevicesOwned(s) && DevicesOwned(t) && KeepsNodes(s.nodes, nodes)
    ensures DevicesAgree(nodes, s.devices, t.devices, org)
  {
    forall k: DeviceKey | k.0 in nodes && nodes[k.0].orgId == org
      ensures (k in s.devices <==> k in t.devices) && (k in s.devices ==> s.devices[k] == t.devices[k])
    {
      if k in s.devices { assert DeviceOwned(s.nodes, k, s.devices[k]); }
      if k in t.devices { assert DeviceOwned(t.nodes, k, t.devices[k]); }
    }
  }

  lemma EnrollAgrees(env: Env, s: State, t: State, c: nat, e: EnrollEvent, org: OrgId)
    requires Agree(s, t, org) && DevicesOwned(s) && DevicesOwned(t)
    ensures Agree(EnrollStep(env, s, c, e), EnrollStep(env, t, c, e), org)
  {
    if c in s.enrolls && s.enrolls[c].alive {
      var x := Advance(s.nodes, s.codes, s.enrolls[c], e, s.clock);
      var y := Advance(t.nodes, t.codes, t.enrolls[c], e, t.clock);
      AdvanceAgrees(s.nodes, t.nodes, s.codes, s.enrolls[c], e, s.clock, org);
      AdvanceKeepsNodes(s.nodes, s.codes, s.enrolls[c], e, s.clock);
      DevicesAgreeOnMoreNodes(s, t, x.nodes, org);
      AgreeAfterEnroll(s, t, x, y, c, org);
    } else if c !in s.enrolls && e.Start? {
      SameKeysTaken(s.nodes, t.nodes, e.input.publicKey);
    }
  }

  lemma AgreeAfterEnroll(s: State, t: State, x: Advanced, y: Advanced, c: nat, org: OrgId)
    requires Agree(s, t, org) && x.codes == y.codes && x.call == y.call && NodesAgree(x.nodes, y.nodes, org)
    requires DevicesAgree(x.nodes, s.devices, t.devices, org)
    ensures Agree(s.(nodes := x.nodes, codes := x.codes, enrolls := s.enrolls[c := x.call]),
                  t.(nodes := y.nodes, codes := y.codes, enrolls := t.enrolls[c := y.call]), org)
  {
  }

  lemma NextPhaseAgrees(env: Env, s: State, t: State, phase: AuthPhase, e: AuthEvent)
    requires s.nonces == t.nonces && s.clock == t.clock && SameIdentities(s.nodes, t.nodes)
    ensures NextPhase(env, s, phase, e) == NextPhase(env, t, phase, e)
  {
  }

  lemma AuthSame(env: Env, s: State, t: State, c: nat, e: AuthEvent)
    requires s.auths == t.auths && s.nonces == t.nonces && s.clock == t.clock && SameIdentities(s.nodes, t.nodes)
    ensures AuthStep(env, s, c, e).auths == AuthStep(env, t, c, e).auths
    ensures AuthStep(env, s, c, e).nonces == AuthStep(env, t, c, e).nonces
  {
    if c in s.auths {
      NextPhaseAgrees(env, s, t, s.auths[c].phase, e);
    }
  }

  lemma AgreeAfterAuth(s: State, t: State, auths: map<nat, AuthCall>, nonces: Nonces, org: OrgId)
    requires Agree(s, t, org)
    ensures Agree(s.(auths := auths, nonces := nonces), t.(auths := auths, nonces := nonces), org)
  {
  }

  lemma AuthAgrees(env: Env, s: State, t: State, c: nat, e: AuthEvent, org: OrgId)
    requires Agree(s, t, org)
    ensures Agree(AuthStep(env, s, c, e), AuthStep(env, t, c, e), org)
  {
    AuthSame(env, s, t, c, e);
    AgreeAfterAuth(s, t, AuthStep(env, s, c, e).auths, AuthStep(env, s, c, e).nonces, org);
  }

  lemma OfflineMarksAgree(env: Env, a: Nodes, b: Nodes, now: int, org: OrgId)
    requires NodesAgree(a, b, org)
    ensures NodesAgree(MarkAllOffline(env, a, now), MarkAllOffline(env, b, now), org)
  {
  }

  lemma DegradedMarksAgree(env: Env, a: Nodes, b: Nodes, now: int, org: OrgId)
    requires NodesAgree(a, b, org)
    ensures NodesAgree(MarkAllDegraded(env, a, now), MarkAllDegraded(env, b, now), org)
  {
  }

  /** Refreshing nodes does not change whose devices are whose. */
  lemma DevicesAgreeOnSameNodes(nodes: Nodes, nodes': Nodes, a: Devices, b: Devices, org: OrgId)
    requires DevicesAgree(nodes, a, b, org) && SameIdentities(nodes, nodes')
    ensures DevicesAgree(nodes', a, b, org)
  {
  }

  lemma SweepAgrees(env: Env, s: State, t: State, w: nat, e: SweepEvent, org: OrgId)
    requires Agree(s, t, org)
    ensures Agree(SweepStep(env, s, w, e), SweepStep(env, t, w, e), org)
  {
    if w in s.sweeps {
      OfflineMarksAgree(env, s.nodes, t.nodes, s.sweeps[w].now, org);
      DegradedMarksAgree(env, s.nodes, t.nodes, s.sweeps[w].now, org);
    }
    SweepKeepsIdentities(env, s, w, e);
    DevicesAgreeOnSameNodes(s.nodes, SweepStep(env, s, w, e).nodes, s.devices, t.devices, org);
  }

  /** The tenant's own report finds the same rows, so it can be stored in both or in neither. */
  lemma StorableAgrees(nodes: Nodes, a: Devices, b: Devices, org: OrgId, node: NodeId, ids: seq<LocalId>)
    requires DevicesAgree(nodes, a, b, org) && node in nodes && nodes[node].orgId == org
    ensures Storable(nodes.Keys, a, org, node, ids) <==> Storable(nodes.Keys, b, org, node, ids)
  {
    forall id | id in ids ensures (node, id) in a <==> (node, id) in b {
      var k: DeviceKey := (node, id);
      assert k.0 in nodes && nodes[k.0].orgId == org;
    }
    assert forall id :: id in ids && (node, id) in a ==> a[(node, id)] == b[(node, id)];
  }

  lemma ReconciledAgrees(nodes: Nodes, a: Devices, b: Devices, org: OrgId, node: NodeId, known: seq<KnownDevice>,
                         newId: nat -> string)
    requires DevicesAgree(nodes, a, b, org) && node in nodes && nodes[node].orgId == org
    ensures DevicesAgree(nodes, Reconciled(a, org, node, known, newId), Reconciled(b, org, node, known, newId), org)
  {
    var x, y := Reconciled(a, org, node, known, newId), Reconciled(b, org, node, known, newId);
    forall k: DeviceKey | k.0 in nodes && nodes[k.0].orgId == org
      ensures (k in x <==> k in y) && (k in x ==> x[k] == y[k])
    {
      ReconciledAt(a, org, node, known, newId, k);
      ReconciledAt(b, org, node, known, newId, k);
    }
  }

  lemma DevicesAfterAgree(nodes: Nodes, a: Devices, b: Devices, org: OrgId, node: NodeId, m: Message,
                          newId: nat -> string)
    requires DevicesAgree(nodes, a, b, org) && node in nodes && nodes[node].orgId == org
    ensures DevicesAgree(nodes, DevicesAfter(nodes.Keys, a, org, node, m, newId),
                         DevicesAfter(nodes.Keys, b, org, node, m, newId), org)
  {
    if m.Inventory? {
      StorableAgrees(nodes, a, b, org, node, IdsOf(Known(m.devices)));
      ReconciledAgrees(nodes, a, b, org, node, Known(m.devices), newId);
    }
  }

  lemma NodesAfterAgree(a: Nodes, b: Nodes, org: OrgId, node: NodeId, m: Message, stamp: int)
    requires NodesAgree(a, b, org)
    ensures NodesAgree(NodesAfter(a, org, node, m, stamp), NodesAfter(b, org, node, m, stamp), org)
  {
  }

  lemma DeliverAgrees(s: State, t: State, c: nat, m: Message, stamp: int, newId: nat -> string, org: OrgId)
    requires Agree(s, t, org) && StreamsOwned(s)
    requires !(IsOpen(s, c) && StreamOrg(s, c) != org)
    ensures Agree(DeliverStep(s, c, m, stamp, newId), DeliverStep(t, c, m, stamp, newId), org)
  {
    if IsOpen(s, c) && stamp <= s.clock {
      var node := StreamNode(s, c);
      NodesAfterAgree(s.nodes, t.nodes, org, node, m, stamp);
      DevicesAfterAgree(s.nodes, s.devices, t.devices, org, node, m, newId);
      DeliverKeepsIdentities(s, c, m, stamp, newId);
      var s' := DeliverStep(s, c, m, stamp, newId);
      DevicesAgreeOnSameNodes(s.nodes, s'.nodes, s'.devices, DeliverStep(t, c, m, stamp, newId).devices, org);
    }
  }

  /** A message for one node leaves the device rows of every other node alone. */
  lemma DevicesAfterElsewhere(nodeIds: set<NodeId>, devices: Devices, org: OrgId, node: NodeId, m: Message,
                              newId: nat -> string, k: DeviceKey)
    requires k.0 != node
    ensures var after := DevicesAfter(nodeIds, devices, org, node, m, newId);
            (k in after <==> k in devices) && (k in after ==> after[k] == devices[k])
  {
    if m.Inventory? {
      ReconciledAt(devices, org, node, Known(m.devices), newId, k);
    }
  }

  lemma ForeignDevicesAgree(nodes: Nodes, a: Devices, b: Devices, org: OrgId, other: OrgId, node: NodeId, m: Message,
                            newId: nat -> string)
    requires DevicesAgree(nodes, a, b, org) && node in nodes && nodes[node].orgId != org
    ensures DevicesAgree(nodes, DevicesAfter(nodes.Keys, a, other, node, m, newId), b, org)
  {
    var x := DevicesAfter(nodes.Keys, a, other, node, m, newId);
    forall k: DeviceKey | k.0 in nodes && nodes[k.0].orgId == org
      ensures (k in x <==> k in b) && (k in x ==> x[k] == b[k])
    {
      DevicesAfterElsewhere(nodes.Keys, a, other, node, m, newId, k);
    }
  }

  lemma ForeignNodesAgree(a: Nodes, b: Nodes, org: OrgId, other: OrgId, node: NodeId, m: Message, stamp: int)
    requires NodesAgree(a, b, org) && other != org
    ensures NodesAgree(NodesAfter(a, other, node, m, stamp), b, org)
  {
  }

  /** Another tenant's message leaves every row of `org`'s nodes alone. */
  lemma ForeignAgrees(s: State, t: State, c: nat, m: Message, stamp: int, newId: nat -> string, org: OrgId)
    requires Agree(s, t, org) && StreamsOwned(s)
    requires IsOpen(s, c) && StreamOrg(s, c) != org
    ensures Agree(DeliverStep(s, c, m, stamp, newId), t, org)
  {
    if stamp <= s.clock {
      var node, other := StreamNode(s, c), StreamOrg(s, c);
      ForeignNodesAgree(s.nodes, t.nodes, org, other, node, m, stamp);
      ForeignDevicesAgree(s.nodes, s.devices, t.devices, org, other, node, m, newId);
      DeliverKeepsIdentities(s, c, m, stamp, newId);
      var s' := DeliverStep(s, c, m, stamp, newId);
      DevicesAgreeOnSameNodes(s.nodes, s'.nodes, s'.devices, t.devices, org);
    }
  }

  lemma StepAgrees(env: Env, s: State, t: State, e: Event, org: OrgId)
    requires Agree(s, t, org) && Owned(s) && Owned(t) && !Foreign(s, e, org)
    ensures Agree(Step(env, s, e), Step(env, t, e), org)
  {
    match e
    case Deliver(c, m, stamp, newId) => DeliverAgrees(s, t, c, m, stamp, newId, org);
    case Auth(c, auth) => AuthAgrees(env, s, t, c, auth, org);
    case Enroll(c, enroll) => EnrollAgrees(env, s, t, c, enroll, org);
    case Sweep(w, statement) => SweepAgrees(env, s, t, w, statement, org);
    case Mint(o, user, nodeName, code) => MintAgrees(env, s, t, o, user, nodeName, code, org);
    case Tick(ms) => TickAgrees(s, t, ms, org);
  }

  lemma MintAgrees(env: Env, s: State, t: State, o: OrgId, user: string, nodeName: string, code: string, org: OrgId)
    requires Agree(s, t, org)
    ensures Agree(MintStep(env, s, o, user, nodeName, code), MintStep(env, t, o, user, nodeName, code), org)
  {
  }

  lemma TickAgrees(s: State, t: State, ms: nat, org: OrgId)
    requires Agree(s, t, org)
    ensures Agree(s.(clock := s.clock + ms), t.(clock := t.clock + ms), org)
  {
  }

  lemma {:induction false} ErasedRunAgrees(env: Env, s: State, events: seq<Event>, org: OrgId)
    requires Owned(s)
    ensures Agree(Run(env, s, events), Run(env, s, Erase(env, s, events, org)), org)
  {
    if events != [] {
      var front, e := events[..|events| - 1], events[|events| - 1];
      var erased := Erase(env, s, front, org);
      ErasedRunAgrees(env, s, front, org);
      RunKeepsOwned(env, s, front);
      RunKeepsOwned(env, s, erased);
      if Foreign(Run(env, s, front), e, org) {
        ForeignAgrees(Run(env, s, front), Run(env, s, erased), e.conn, e.message, e.stamp, e.newId, org);
        assert erased + [] == erased;
      } else {
        StepAgrees(env, Run(env, s, front), Run(env, s, erased), e, org);
        RunLast(env, s, erased, e);
      }
    }
  }

  lemma AgreeingReads(s: State, t: State, org: OrgId)
    requires Agree(s, t, org) && DevicesOwned(s) && DevicesOwned(t)
    ensures VisibleNodes(s, org) == VisibleNodes(t, org) && VisibleDevices(s, org) == VisibleDevices(t, org)
  {
    forall k ensures k in VisibleDevices(s, org) <==> k in VisibleDevices(t, org) {
      assert k in s.devices ==> DeviceOwned(s.nodes, k, s.devices[k]);
      assert k in t.devices ==> DeviceOwned(t.nodes, k, t.devices[k]);
    }
  }

  /**
   * Non-interference: taking every message of other tenants' streams out of a
   * run changes nothing a member of `org` can read.
   */
  lemma {:induction false} TenantsDoNotInterfere(env: Env, s: State, events: seq<Event>, org: OrgId, text: string,
                                                 leq: Collation, order: seq<string>)
    requires Owned(s)
    ensures var x, y := Run(env, s, events), Run(env, s, Erase(env, s, events, org));
            && ListNodes(x, org) == ListNodes(y, org) && GetNode(x, org, text) == GetNode(y, org, text)
            && (NodeOrder(leq, x, org, order) <==> NodeOrder(leq, y, org, order))
            && (DeviceOrder(leq, x, org, NodeIdOf(text), order) <==> DeviceOrder(leq, y, org, NodeIdOf(text), order))
  {
    var x, y := Run(env, s, events), Run(env, s, Erase(env, s, events, org));
    ErasedRunAgrees(env, s, events, org);
    RunKeepsOwned(env, s, events);
    RunKeepsOwned(env, s, Erase(env, s, events, org));
    AgreeingReads(x, y, org);
  }
}
