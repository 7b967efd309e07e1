/** From probe to table: what one connection's messages mean for the rows of its node. */
module Stream {
  import opened Base
  import opened Fleet
  import opened Memory
  import opened Wire
  import opened DeviceTables
  import opened NodeAuth
  import opened System
  import opened Tenancy
  import Agent

  // ----- The messages a node's streams deliver in a run

  predicate DeliveredTo(s: State, e: Event, n: NodeId) {
    e.Deliver? && IsOpen(s, e.conn) && e.stamp <= s.clock && StreamNode(s, e.conn) == n
  }

  function MessagesTo(env: Env, s: State, events: seq<Event>, n: NodeId): seq<Message> {
    if events == [] then []
    else
      var front, e := events[..|events| - 1], events[|events| - 1];
      MessagesTo(env, s, front, n) + if DeliveredTo(Run(env, s, front), e, n) then [e.message] else []
  }

  predicate OnlySamples(messages: seq<Message>) { forall i :: 0 <= i < |messages| ==> messages[i].Samples? }

  /** The last sample of a device in a list of sample messages. */
  function Latest(messages: seq<Message>, id: LocalId): Option<WireSample>
    requires OnlySamples(messages)
  {
    if messages == [] then None
    else
      var samples := messages[|messages| - 1].samples;
      if id in SampleIds(samples) then Some(samples[LastAt(SampleIds(samples), id)])
      else Latest(messages[..|messages| - 1], id)
  }

  function LatestColumns(messages: seq<Message>, id: LocalId, before: Sampled): Sampled
    requires OnlySamples(messages)
  {
    match Latest(messages, id)
    case Some(s) => Columns(s)
    case None => before
  }

  // ----- What a stretch of sample messages does to a node's devices

  /** The rows of `n` in `after` are those of `before`, with sample columns as the messages last had them. */
  ghost predicate WithLatest(before: Devices, messages: seq<Message>, n: NodeId, after: Devices)
    requires OnlySamples(messages)
  {
    forall id :: WithLatestAt(before, messages, (n, id), after)
  }

  ghost predicate WithLatestAt(before: Devices, messages: seq<Message>, k: DeviceKey, after: Devices)
    requires OnlySamples(messages)
  {
    && (k in after <==> k in before)
    && (k in after ==> after[k] == before[k].(sampled := LatestColumns(messages, k.1, before[k].sampled)))
  }

  lemma StepElsewhere(env: Env, s: State, e: Event, n: NodeId, id: LocalId)
    requires !DeliveredTo(s, e, n)
    ensures var after := Step(env, s, e).devices;
            ((n, id) in after <==> (n, id) in s.devices) && ((n, id) in after ==> after[(n, id)] == s.devices[(n, id)])
  {
    StepFrame(env, s, e);
    if e.Deliver? && IsOpen(s, e.conn) && e.stamp <= s.clock {
      var org, node := StreamOrg(s, e.conn), StreamNode(s, e.conn);
      DevicesAfterElsewhere(s.nodes.Keys, s.devices, org, node, e.message, e.newId, (n, id));
    }
  }

  lemma SamplesStep(env: Env, s: State, e: Event, n: NodeId, id: LocalId)
    requires Owned(s) && DeliveredTo(s, e, n) && e.message.Samples?
    ensures var after, samples := Step(env, s, e).devices, e.message.samples;
            && ((n, id) in after <==> (n, id) in s.devices)
            && ((n, id) in after && id in SampleIds(samples) ==>
                  after[(n, id)] == s.devices[(n, id)].(sampled := Columns(samples[LastAt(SampleIds(samples), id)])))
            && ((n, id) in after && id !in SampleIds(samples) ==> after[(n, id)] == s.devices[(n, id)])
  {
    assert PhaseOwned(s.nodes, s.auths[e.conn].phase);
    if (n, id) in s.devices {
      assert DeviceOwned(s.nodes, (n, id), s.devices[(n, id)]);
    }
  }

  lemma LatestGrows(messages: seq<Message>, m: Message, id: LocalId)
    requires OnlySamples(messages + [m])
    ensures OnlySamples(messages) && m.Samples?
    ensures Latest(messages + [m], id) ==
            if id in SampleIds(m.samples) then Some(m.samples[LastAt(SampleIds(m.samples), id)])
            else Latest(messages, id)
  {
    assert (messages + [m])[|messages|] == m && (messages + [m])[..|messages|] == messages;
    assert forall i :: 0 <= i < |messages| ==> messages[i] == (messages + [m])[i];
  }

  lemma {:induction false} StretchSamples(env: Env, s: State, events: seq<Event>, n: NodeId)
    requires Owned(s) && OnlySamples(MessagesTo(env, s, events, n))
    ensures WithLatest(s.devices, MessagesTo(env, s, events, n), n, Run(env, s, events).devices)
    decreases |events|
  {
    if events != [] {
      var front, e := events[..|events| - 1], events[|events| - 1];
      var mid, messages := Run(env, s, front), MessagesTo(env, s, front, n);
      RunKeepsOwned(env, s, front);
      if DeliveredTo(mid, e, n) {
        LatestGrows(messages, e.message, "");
        StretchSamples(env, s, front, n);
        OneMoreBatch(env, s.devices, mid, messages, e, n);
      } else {
        assert messages + [] == messages;
        StretchSamples(env, s, front, n);
        OneMoreElsewhere(env, s.devices, mid, messages, e, n);
      }
    }
  }

  lemma OneMoreBatch(env: Env, before: Devices, mid: State, messages: seq<Message>, e: Event, n: NodeId)
    requires Owned(mid) && DeliveredTo(mid, e, n) && OnlySamples(messages + [e.message]) && OnlySamples(messages)
    requires WithLatest(before, messages, n, mid.devices)
    ensures WithLatest(before, messages + [e.message], n, Step(env, mid, e).devices)
  {
    forall id ensures WithLatestAt(before, messages + [e.message], (n, id), Step(env, mid, e).devices) {
      assert WithLatestAt(before, messages, (n, id), mid.devices);
      LatestGrows(messages, e.message, id);
      SamplesStep(env, mid, e, n, id);
    }
  }

  lemma OneMoreElsewhere(env: Env, before: Devices, mid: State, messages: seq<Message>, e: Event, n: NodeId)
    requires !DeliveredTo(mid, e, n) && OnlySamples(messages) && WithLatest(before, messages, n, mid.devices)
    ensures WithLatest(before, messages, n, Step(env, mid, e).devices)
  {
    forall id ensures WithLatestAt(before, messages, (n, id), Step(env, mid, e).devices) {
      assert WithLatestAt(before, messages, (n, id), mid.devices);
      StepElsewhere(env, mid, e, n, id);
    }
  }

  // ----- What the agent's messages say

  /** Kinds the control plane knows travel unchanged; every other kind arrives as one it drops. */
  lemma KindTravels(kind: string)
    ensures KindName(Agent.KindProto(kind)) == if kind in KIND_NAMES then Some(kind) else None
  {
  }

  /** A pressure the agent cannot name is stored as normal, so "normal" on record may mean "unknown". */
  lemma PressureTravels(s: Agent.Sample)
    ensures Columns(Agent.SampleProto(s)).pressure == if s.pressure in PRESSURE_NAMES then s.pressure else "normal"
    ensures Columns(Agent.SampleProto(s)).pressure == "normal" <==> s.pressure !in {"warn", "critical"}
  {
  }

  /** The sample columns a successful sample should end up as. */
  function ColumnsOf(s: Agent.Sample): Sampled {
    Sampled(s.usedBytes, s.managedBytes, s.utilization,
            if s.pressure in PRESSURE_NAMES then s.pressure else "normal", Some(s.sampledAtMs))
  }

  lemma SampleTravels(s: Agent.Sample)
    ensures Columns(Agent.SampleProto(s)) == ColumnsOf(s)
  {
    PressureTravels(s);
  }

  function FactsOf(d: Agent.Device): Facts {
    Facts(d.kind, Agent.Uint32(d.index), d.name, d.totalBytes, d.wiredLimitBytes, d.driverVersion, d.computeCapability)
  }

  lemma KnownGrows(devices: seq<Agent.Device>, d: Agent.Device)
    ensures Known(Agent.DeviceProtos(devices + [d]))
         == Known(Agent.DeviceProtos(devices)) +
            if d.kind in KIND_NAMES then [KnownDevice(d.localId, FactsOf(d))] else []
  {
    var all := Agent.DeviceProtos(devices + [d]);
    assert all[..|devices|] == Agent.DeviceProtos(devices) && all[|devices|] == Agent.DeviceProto(d);
    KindTravels(d.kind);
  }

  /** The devices of known kind, and nothing else, are what a report of the inventory stores. */
  lemma {:induction false} ReportedDevices(devices: seq<Agent.Device>)
    ensures forall k :: k in Known(Agent.DeviceProtos(devices)) <==>
              exists i :: 0 <= i < |devices| && devices[i].kind in KIND_NAMES
                          && k == KnownDevice(devices[i].localId, FactsOf(devices[i]))
  {
    if |devices| == 0 {
      assert Agent.DeviceProtos(devices) == [];
    } else {
      var front, d := devices[..|devices| - 1], devices[|devices| - 1];
      assert devices == front + [d];
      ReportedDevices(front);
      KnownGrows(front, d);
    }
  }

  /** In an inventory without repeats, a stored id leads back to its one device. */
  lemma ReportedFacts(devices: seq<Agent.Device>, id: LocalId)
    requires Agent.Distinct(devices)
    ensures var known := Known(Agent.DeviceProtos(devices));
            && (id in IdsOf(known) <==>
                  exists i :: 0 <= i < |devices| && devices[i].localId == id && devices[i].kind in KIND_NAMES)
            && (forall i :: 0 <= i < |devices| && devices[i].localId == id && id in IdsOf(known)
                  ==> known[LastAt(IdsOf(known), id)].facts == FactsOf(devices[i]))
  {
    var known := Known(Agent.DeviceProtos(devices));
    ReportedDevices(devices);
    if id in IdsOf(known) {
      var at := LastAt(IdsOf(known), id);
      assert known[at] in known;
      var j :| 0 <= j < |devices| && devices[j].kind in KIND_NAMES
               && known[at] == KnownDevice(devices[j].localId, FactsOf(devices[j]));
      assert devices[j].localId == id;
    }
    if i :| 0 <= i < |devices| && devices[i].localId == id && devices[i].kind in KIND_NAMES {
      var k := KnownDevice(id, FactsOf(devices[i]));
      assert k in known;
      var j :| 0 <= j < |known| && known[j] == k;
      assert IdsOf(known)[j] == id;
    }
  }

  // ----- What the agent's batches say

  ghost predicate Listed(owner: map<LocalId, nat>, devices: seq<Agent.Device>) {
    forall i :: 0 <= i < |devices| ==> devices[i].localId in owner
  }

  lemma {:induction false} SuccessesAre(owner: map<LocalId, nat>, devices: seq<Agent.Device>, sampler: Agent.Sampler)
    requires Listed(owner, devices)
    ensures forall x :: x in Agent.Successes(owner, devices, sampler) <==>
              exists i :: 0 <= i < |devices| && sampler(owner[devices[i].localId], devices[i]) == Some(x)
  {
    if |devices| > 0 {
      var front, d := devices[..|devices| - 1], devices[|devices| - 1];
      SuccessesAre(owner, front, sampler);
      forall x
        ensures x in Agent.Successes(owner, devices, sampler) <==>
                  exists i :: 0 <= i < |devices| && sampler(owner[devices[i].localId], devices[i]) == Some(x)
      {
        assert x in Agent.Successes(owner, devices, sampler)
          <==> x in Agent.Successes(owner, front, sampler) || sampler(owner[d.localId], d) == Some(x);
        if x in Agent.Successes(owner, front, sampler) {
          var i :| 0 <= i < |front| && sampler(owner[front[i].localId], front[i]) == Some(x);
          assert devices[i] == front[i];
        }
        if i :| 0 <= i < |devices| && sampler(owner[devices[i].localId], devices[i]) == Some(x) {
          assert i < |front| ==> front[i] == devices[i];
        }
      }
    }
  }

  /** One tick's batch has a sample of a device exactly when its probe answered, and it is that answer. */
  lemma BatchAt(inv: Agent.Inventory, sampler: Agent.Sampler, d: Agent.Device)
    requires Agent.Distinct(inv.devices) && Agent.Complete(inv) && Agent.Echoes(sampler) && d in inv.devices
    ensures var wire := Agent.SampleProtos(Agent.Successes(inv.owner, inv.devices, sampler));
            var answer := sampler(inv.owner[d.localId], d);
            && (d.localId in SampleIds(wire) <==> answer.Some?)
            && (answer.Some? ==> wire[LastAt(SampleIds(wire), d.localId)] == Agent.SampleProto(answer.value))
  {
    var samples := Agent.Successes(inv.owner, inv.devices, sampler);
    var wire, answer := Agent.SampleProtos(samples), sampler(inv.owner[d.localId], d);
    SuccessesAre(inv.owner, inv.devices, sampler);
    if answer.Some? {
      assert answer.value in samples;
      var j :| 0 <= j < |samples| && samples[j] == answer.value;
      assert SampleIds(wire)[j] == d.localId;
    }
    if d.localId in SampleIds(wire) {
      var at := LastAt(SampleIds(wire), d.localId);
      assert samples[at] in samples;
      var i :| 0 <= i < |inv.devices|
               && sampler(inv.owner[inv.devices[i].localId], inv.devices[i]) == Some(samples[at]);
      assert inv.devices[i].localId == d.localId;
      assert inv.devices[i] == d;
    }
  }

  function ProtoOf(s: Option<Agent.Sample>): Option<WireSample> {
    match s
    case None => None
    case Some(x) => Some(Agent.SampleProto(x))
  }

  /** The latest sample of a device on the wire is its latest successful sample at the agent. */
  lemma {:induction false} BatchesLatest(inv: Agent.Inventory, ticks: seq<Agent.Sampler>, d: Agent.Device)
    requires Agent.Distinct(inv.devices) && Agent.Complete(inv) && d in inv.devices
    requires forall t :: 0 <= t < |ticks| ==> Agent.Echoes(ticks[t])
    ensures OnlySamples(Agent.Batches(inv, ticks))
    ensures Latest(Agent.Batches(inv, ticks), d.localId) == ProtoOf(Agent.LatestSuccess(inv.owner, ticks, d))
  {
    if |ticks| > 0 {
      var front, sampler := ticks[..|ticks| - 1], ticks[|ticks| - 1];
      BatchesLatest(inv, front, d);
      BatchAt(inv, sampler, d);
      var samples := Agent.Successes(inv.owner, inv.devices, sampler);
      var batches := Agent.Batches(inv, front);
      if samples == [] {
        assert Agent.SampleProtos(samples) == [];
        assert batches + [] == batches;
      } else {
        LatestGrows(batches, Samples(Agent.SampleProtos(samples)), d.localId);
      }
    }
  }

  // ----- End to end

  /** What a row should hold for a device the agent found: its facts, and its latest successful sample. */
  ghost predicate RowFor(before: Devices, n: NodeId, inv: Agent.Inventory, ticks: seq<Agent.Sampler>, d: Agent.Device,
                         row: DeviceRow)
    requires d.localId in inv.owner
  {
    && row.facts == FactsOf(d)
    && ((n, d.localId) in before ==>
          row.id == before[(n, d.localId)].id && row.interactive == before[(n, d.localId)].interactive)
    && row.sampled ==
       match Agent.LatestSuccess(inv.owner, ticks, d)
       case Some(s) => ColumnsOf(s)
       case None => if (n, d.localId) in before then before[(n, d.localId)].sampled else NEVER_SAMPLED
  }

  /** A row as the report of an inventory leaves it. */
  ghost predicate ReportedRow(before: Devices, k: DeviceKey, d: Agent.Device, row: DeviceRow) {
    && row.facts == FactsOf(d)
    && (k in before ==> row == before[k].(facts := FactsOf(d)))
    && (k !in before ==> row.sampled == NEVER_SAMPLED)
  }

  lemma ReportStores(devices: Devices, org: OrgId, k: DeviceKey, found: seq<Agent.Device>, newId: nat -> string)
    requires Agent.Distinct(found) && (k in devices ==> devices[k].orgId == org)
    ensures var after := Reconciled(devices, org, k.0, Known(Agent.DeviceProtos(found)), newId);
            && (k in after <==> exists i :: 0 <= i < |found| && found[i].localId == k.1 && found[i].kind in KIND_NAMES)
            && (k in after ==>
                  forall i :: 0 <= i < |found| && found[i].localId == k.1
                    ==> ReportedRow(devices, k, found[i], after[k]))
  {
    ReconciledAt(devices, org, k.0, Known(Agent.DeviceProtos(found)), newId, k);
    ReportedFacts(found, k.1);
  }

  lemma InventoryStep(env: Env, s: State, c: nat, reported: seq<WireDevice>, stamp: int, newId: nat -> string)
    requires Owned(s) && IsOpen(s, c) && stamp <= s.clock
    ensures Step(env, s, Deliver(c, Inventory(reported), stamp, newId)).devices
         == Reconciled(s.devices, StreamOrg(s, c), StreamNode(s, c), Known(reported), newId)
  {
    assert PhaseOwned(s.nodes, s.auths[c].phase);
    OwnReportsAreStorable(s, StreamOrg(s, c), StreamNode(s, c), IdsOf(Known(reported)));
    StorableIsStored(s.nodes.Keys, s.devices, StreamOrg(s, c), StreamNode(s, c), reported, newId);
  }

  lemma StorableIsStored(nodeIds: set<NodeId>, devices: Devices, org: OrgId, node: NodeId, reported: seq<WireDevice>,
                         newId: nat -> string)
    requires Storable(nodeIds, devices, org, node, IdsOf(Known(reported)))
    ensures DevicesAfter(nodeIds, devices, org, node, Inventory(reported), newId)
         == Reconciled(devices, org, node, Known(reported), newId)
  {
  }

  /** After the inventory message: one row per device of known kind, samples as they were. */
  lemma AfterInventory(env: Env, s: State, c: nat, inv: Agent.Inventory, stamp: int, newId: nat -> string, id: LocalId)
    requires Owned(s) && IsOpen(s, c) && stamp <= s.clock && Agent.Distinct(inv.devices)
    ensures var k := (StreamNode(s, c), id);
            var after := Step(env, s, Deliver(c, Inventory(Agent.DeviceProtos(inv.devices)), stamp, newId)).devices;
            && (k in after <==> exists i :: 0 <= i < |inv.devices| && inv.devices[i].localId == id
                                            && inv.devices[i].kind in KIND_NAMES)
            && (k in after ==> forall i :: 0 <= i < |inv.devices| && inv.devices[i].localId == id
                                           ==> ReportedRow(s.devices, k, inv.devices[i], after[k]))
  {
    var k := (StreamNode(s, c), id);
    assert PhaseOwned(s.nodes, s.auths[c].phase);
    assert k in s.devices ==> DeviceOwned(s.nodes, k, s.devices[k]);
    InventoryStep(env, s, c, Agent.DeviceProtos(inv.devices), stamp, newId);
    ReportStores(s.devices, StreamOrg(s, c), k, inv.devices, newId);
  }

  /** The node has one row per device of known kind that was found, each holding what it should, and no others. */
  ghost predicate RowsFor(before: Devices, n: NodeId, inv: Agent.Inventory, ticks: seq<Agent.Sampler>, after: Devices)
    requires Agent.Complete(inv)
  {
    && (forall id :: (n, id) in after ==> exists i :: 0 <= i < |inv.devices| && inv.devices[i].localId == id)
    && (forall i :: 0 <= i < |inv.devices| ==>
          var key := (n, inv.devices[i].localId);
          && (key in after <==> inv.devices[i].kind in KIND_NAMES)
          && (key in after ==> RowFor(before, n, inv, ticks, inv.devices[i], after[key])))
  }

  /** From the inventory message on, while the only messages the node gets are the batches of the ticks so far. */
  lemma {:induction false} ReportedStreamMeaning(env: Env, s: State, c: nat, inv: Agent.Inventory, stamp: int,
                                                 newId: nat -> string, rest: seq<Event>, ticks: seq<Agent.Sampler>)
    requires Owned(s) && IsOpen(s, c) && stamp <= s.clock
    requires Agent.Distinct(inv.devices) && Agent.Complete(inv)
    requires forall t :: 0 <= t < |ticks| ==> Agent.Echoes(ticks[t])
    requires var s1 := Step(env, s, Deliver(c, Inventory(Agent.DeviceProtos(inv.devices)), stamp, newId));
             MessagesTo(env, s1, rest, StreamNode(s, c)) == Agent.Batches(inv, ticks)
    ensures var s1 := Step(env, s, Deliver(c, Inventory(Agent.DeviceProtos(inv.devices)), stamp, newId));
            RowsFor(s.devices, StreamNode(s, c), inv, ticks, Run(env, s1, rest).devices)
  {
    var n := StreamNode(s, c);
    var inventory := Deliver(c, Inventory(Agent.DeviceProtos(inv.devices)), stamp, newId);
    var s1 := Step(env, s, inventory);
    var after := Run(env, s1, rest).devices;
    StepKeepsOwned(env, s, inventory);
    OnlyBatches(inv, ticks);
    StretchSamples(env, s1, rest, n);
    forall id | (n, id) in after ensures exists i :: 0 <= i < |inv.devices| && inv.devices[i].localId == id {
      AfterInventory(env, s, c, inv, stamp, newId, id);
      assert WithLatestAt(s1.devices, Agent.Batches(inv, ticks), (n, id), after);
    }
    forall i | 0 <= i < |inv.devices|
      ensures (n, inv.devices[i].localId) in after <==> inv.devices[i].kind in KIND_NAMES
      ensures (n, inv.devices[i].localId) in after ==>
                RowFor(s.devices, n, inv, ticks, inv.devices[i], after[(n, inv.devices[i].localId)])
    {
      RowMeaning(env, s, c, inv, stamp, newId, ticks, i, s1.devices, after);
    }
  }

  lemma {:induction false} OnlyBatches(inv: Agent.Inventory, ticks: seq<Agent.Sampler>)
    requires Agent.Complete(inv)
    ensures OnlySamples(Agent.Batches(inv, ticks))
  {
    if |ticks| > 0 {
      OnlyBatches(inv, ticks[..|ticks| - 1]);
    }
  }

  lemma RowMeaning(env: Env, s: State, c: nat, inv: Agent.Inventory, stamp: int, newId: nat -> string,
                   ticks: seq<Agent.Sampler>, i: nat, reported: Devices, after: Devices)
    requires Owned(s) && IsOpen(s, c) && stamp <= s.clock && i < |inv.devices|
    requires Agent.Distinct(inv.devices) && Agent.Complete(inv)
    requires forall t :: 0 <= t < |ticks| ==> Agent.Echoes(ticks[t])
    requires reported == Step(env, s, Deliver(c, Inventory(Agent.DeviceProtos(inv.devices)), stamp, newId)).devices
    requires OnlySamples(Agent.Batches(inv, ticks))
    requires WithLatest(reported, Agent.Batches(inv, ticks), StreamNode(s, c), after)
    ensures var k := (StreamNode(s, c), inv.devices[i].localId);
            && (k in after <==> inv.devices[i].kind in KIND_NAMES)
            && (k in after ==> RowFor(s.devices, k.0, inv, ticks, inv.devices[i], after[k]))
  {
    var d, n := inv.devices[i], StreamNode(s, c);
    AfterInventory(env, s, c, inv, stamp, newId, d.localId);
    BatchesLatest(inv, ticks, d);
    var latest := Agent.LatestSuccess(inv.owner, ticks, d);
    if latest.Some? {
      SampleTravels(latest.value);
    }
    assert WithLatestAt(reported, Agent.Batches(inv, ticks), (n, d.localId), after);
  }

  // ----- From the first message on

  lemma MessagesLast(env: Env, s: State, front: seq<Event>, e: Event, n: NodeId)
    ensures MessagesTo(env, s, front + [e], n)
         == MessagesTo(env, s, front, n) + if DeliveredTo(Run(env, s, front), e, n) then [e.message] else []
  {
    assert (front + [e])[..|front|] == front;
  }

  /** A run can be cut at the delivery of a node's k-th message. */
  lemma {:induction false} CutAtMessage(env: Env, s: State, events: seq<Event>, n: NodeId, k: nat)
    returns (before: seq<Event>, e: Event, rest: seq<Event>)
    requires k < |MessagesTo(env, s, events, n)|
    ensures events == before + [e] + rest && DeliveredTo(Run(env, s, before), e, n)
    ensures |MessagesTo(env, s, before, n)| == k
    ensures MessagesTo(env, s, events, n)
         == MessagesTo(env, s, before, n) + [e.message] + MessagesTo(env, Step(env, Run(env, s, before), e), rest, n)
    decreases |events|
  {
    var front, last := Unsnoc(events);
    MessagesLast(env, s, front, last, n);
    if |MessagesTo(env, s, front, n)| == k {
      before, e, rest := front, last, [];
    } else {
      before, e, rest := CutAtMessage(env, s, front, n, k);
      RunLast(env, s, before, e);
      RunConcat(env, s, before + [e], rest);
      MessagesLast(env, Step(env, Run(env, s, before), e), rest, last, n);
      rest := rest + [last];
    }
  }

  /** Hellos leave a node's device rows alone. */
  lemma {:induction false} HellosLeaveDevices(env: Env, s: State, events: seq<Event>, n: NodeId, id: LocalId)
    requires forall i :: 0 <= i < |MessagesTo(env, s, events, n)| ==> MessagesTo(env, s, events, n)[i].Hello?
    ensures var after := Run(env, s, events).devices;
            ((n, id) in after <==> (n, id) in s.devices) && ((n, id) in after ==> after[(n, id)] == s.devices[(n, id)])
    decreases |events|
  {
    if |events| > 0 {
      var front, e := Unsnoc(events);
      var mid := Run(env, s, front);
      MessagesLast(env, s, front, e, n);
      RunLast(env, s, front, e);
      assert forall i :: 0 <= i < |MessagesTo(env, s, front, n)| ==>
        MessagesTo(env, s, front, n)[i] == MessagesTo(env, s, events, n)[i];
      HellosLeaveDevices(env, s, front, n, id);
      if DeliveredTo(mid, e, n) {
        assert MessagesTo(env, s, events, n)[|MessagesTo(env, s, front, n)|] == e.message;
        HelloStep(env, mid, e);
      } else {
        StepElsewhere(env, mid, e, n, id);
      }
    }
  }

  lemma HelloStep(env: Env, s: State, e: Event)
    requires e.Deliver? && e.message.Hello?
    ensures Step(env, s, e).devices == s.devices
  {
  }

  /** Whatever part of an agent's batches has arrived is the batches of its first so many ticks. */
  lemma {:induction false} ArrivedBatches(inv: Agent.Inventory, ticks: seq<Agent.Sampler>, arrived: seq<Message>)
    returns (t: nat)
    requires Agent.Complete(inv) && arrived <= Agent.Batches(inv, ticks)
    ensures t <= |ticks| && arrived == Agent.Batches(inv, ticks[..t])
    decreases |ticks|
  {
    t := |ticks|;
    assert ticks[..t] == ticks;
    if arrived != Agent.Batches(inv, ticks) {
      var front := ticks[..|ticks| - 1];
      Agent.BatchesGrow(inv, ticks, |ticks| - 1);
      t := ArrivedBatches(inv, front, arrived);
      assert front[..t] == ticks[..t];
    }
  }

  /** Only the node's own rows matter. */
  lemma RowsForSame(before: Devices, before': Devices, n: NodeId, inv: Agent.Inventory, ticks: seq<Agent.Sampler>,
                    after: Devices)
    requires Agent.Complete(inv) && RowsFor(before, n, inv, ticks, after)
    requires forall id :: (n, id) in before <==> (n, id) in before'
    requires forall id :: (n, id) in before ==> before[(n, id)] == before'[(n, id)]
    ensures RowsFor(before', n, inv, ticks, after)
  {
    forall i | 0 <= i < |inv.devices| && (n, inv.devices[i].localId) in after
      ensures RowFor(before', n, inv, ticks, inv.devices[i], after[(n, inv.devices[i].localId)])
    {
      assert RowFor(before, n, inv, ticks, inv.devices[i], after[(n, inv.devices[i].localId)]);
    }
  }

  /** The messages have arrived up to some tick, and the rows are those of the ticks up to it. */
  ghost predicate ArrivedTo(before: Devices, n: NodeId, host: HostColumns, inv: Agent.Inventory,
                            ticks: seq<Agent.Sampler>, messages: seq<Message>, after: Devices, t: int)
    requires Agent.Complete(inv)
  {
    && 0 <= t <= |ticks| && messages == Agent.Script(host, inv, ticks[..t])
    && RowsFor(before, n, inv, ticks[..t], after)
  }

  /**
   * End to end, from probe to row. An agent finds its devices and sends what
   * `ConnectOnce` sends; whatever else happens in the control plane, the messages
   * its node has got are some first part of that, past the inventory. Then they
   * are the messages of some number of ticks, the node has exactly one row per
   * device of known kind that the probes found, and each row's sample columns are
   * the device's latest successful sample in those ticks, or what they were.
   */
  lemma {:induction false} StreamMeaning(env: Env, s: State, events: seq<Event>, n: NodeId, host: HostColumns,
                                         probes: seq<Agent.Discovery>, inv: Agent.Inventory,
                                         ticks: seq<Agent.Sampler>, sends: nat)
    requires Owned(s) && inv.devices == Agent.Found(probes) && Agent.Sound(inv, probes) && Agent.Complete(inv)
    requires forall t :: 0 <= t < |ticks| ==> Agent.Echoes(ticks[t])
    requires MessagesTo(env, s, events, n) <= Agent.FirstOf(Agent.Script(host, inv, ticks), sends)
    requires |MessagesTo(env, s, events, n)| >= 2
    ensures exists t :: ArrivedTo(s.devices, n, host, inv, ticks, MessagesTo(env, s, events, n),
                                  Run(env, s, events).devices, t)
  {
    var before, e, rest := CutAtMessage(env, s, events, n, 1);
    var mid, report := Run(env, s, before), Inventory(Agent.DeviceProtos(inv.devices));
    var messages, batches := MessagesTo(env, s, events, n), MessagesTo(env, Step(env, mid, e), rest, n);
    var hellos := MessagesTo(env, s, before, n);
    StartOfScript(messages, hellos, e.message, batches, host, inv, ticks);
    var t := ArrivedBatches(inv, ticks, batches);
    RunKeepsOwned(env, s, before);
    ReportedStreamMeaning(env, mid, e.conn, inv, e.stamp, e.newId, rest, ticks[..t]);
    RunLast(env, s, before, e);
    RunConcat(env, s, before + [e], rest);
    forall id {
      HellosLeaveDevices(env, s, before, n, id);
    }
    RowsForSame(mid.devices, s.devices, n, inv, ticks[..t], Run(env, s, events).devices);
    assert ArrivedTo(s.devices, n, host, inv, ticks, messages, Run(env, s, events).devices, t);
  }

  lemma StartOfScript(messages: seq<Message>, hellos: seq<Message>, second: Message, rest: seq<Message>,
                      host: HostColumns, inv: Agent.Inventory, ticks: seq<Agent.Sampler>)
    requires Agent.Complete(inv) && messages == hellos + [second] + rest && |hellos| == 1
    requires messages <= Agent.Script(host, inv, ticks)
    ensures hellos == [Message.Hello(host)] && second == Inventory(Agent.DeviceProtos(inv.devices))
    ensures rest <= Agent.Batches(inv, ticks)
  {
    var script := Agent.Script(host, inv, ticks);
    assert hellos[0] == messages[0] == script[0] && second == messages[1] == script[1];
    assert forall i :: 0 <= i < |rest| ==> rest[i] == messages[i + 2] == script[i + 2];
  }
}
