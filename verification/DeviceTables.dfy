/**
 * What an inventory report and a batch of samples mean for the device table,
 * said row by row. The loops that carry them out are in ControlPlane.
 */
module DeviceTables {
  import opened Base
  import opened Fleet
  import opened Memory
  import opened Wire

  // ----- Occurrences of an id in a list that may repeat it

  function FirstAt(ids: seq<LocalId>, id: LocalId): (i: nat)
    requires id in ids
    ensures i < |ids| && ids[i] == id && id !in ids[..i]
  {
    var front := ids[..|ids| - 1];
    if id in front then
      assert forall i | 0 <= i < |front| :: front[..i] == ids[..i];
      FirstAt(front, id)
    else |ids| - 1
  }

  function LastAt(ids: seq<LocalId>, id: LocalId): (i: nat)
    requires id in ids
    ensures i < |ids| && ids[i] == id && id !in ids[i + 1..]
  {
    if ids[|ids| - 1] == id then |ids| - 1 else LastAt(ids[..|ids| - 1], id)
  }

  // ----- Inventory

  datatype KnownDevice = KnownDevice(localId: LocalId, facts: Facts)

  /** The reported devices whose kind this build knows; the others are dropped. */
  function Known(reported: seq<WireDevice>): (known: seq<KnownDevice>)
    ensures forall k :: k in known ==> k.facts.kind in KIND_NAMES
  {
    if reported == [] then []
    else
      var d := reported[|reported| - 1];
      Known(reported[..|reported| - 1]) +
      match KindName(d.kind)
      case None => []
      case Some(kind) =>
        [KnownDevice(d.localId, Facts(kind, d.index, d.name, d.totalBytes, d.wiredLimitBytes,
                                      d.driverVersion, d.computeCapability))]
  }

  function IdsOf(known: seq<KnownDevice>): (ids: seq<LocalId>)
    ensures |ids| == |known| && forall i :: 0 <= i < |ids| ==> ids[i] == known[i].localId
  {
    seq(|known|, i requires 0 <= i < |known| => known[i].localId)
  }

  datatype TxError = NoSuchNode | OtherTenantsRow

  /** The report can be stored: the node exists, and no reported id is taken by another tenant's row. */
  predicate Storable(nodeIds: set<NodeId>, devices: Devices, org: OrgId, node: NodeId, ids: seq<LocalId>) {
    && (ids != [] ==> node in nodeIds)
    && forall id :: id in ids && (node, id) in devices ==> devices[(node, id)].orgId == org
  }

  /** The row a reported device ends up with: its last facts, on the row it already had or on a new one. */
  function StoredRow(devices: Devices, org: OrgId, node: NodeId, known: seq<KnownDevice>, newId: nat -> string,
                     id: LocalId): DeviceRow
    requires id in IdsOf(known)
  {
    var facts := known[LastAt(IdsOf(known), id)].facts;
    if (node, id) in devices then devices[(node, id)].(facts := facts)
    else DeviceRow(newId(FirstAt(IdsOf(known), id)), org, facts, false, NEVER_SAMPLED)
  }

  /** All reported devices stored, nothing deleted yet. */
  function Upserted(devices: Devices, org: OrgId, node: NodeId, known: seq<KnownDevice>,
                    newId: nat -> string): Devices
  {
    var reported := set id | id in IdsOf(known) :: (node, id);
    map k | k in devices.Keys + reported ::
      if k.0 == node && k.1 in IdsOf(known) then StoredRow(devices, org, node, known, newId, k.1) else devices[k]
  }

  /** DELETE of the node's rows, among those the tenant sees, that are not to be kept. */
  function Pruned(devices: Devices, org: OrgId, node: NodeId, keep: seq<LocalId>): Devices {
    map k | k in devices && !(k.0 == node && devices[k].orgId == org && k.1 !in keep) :: devices[k]
  }

  /** After a report, a node's visible rows are exactly the reported ids; every other row stays. */
  function Reconciled(devices: Devices, org: OrgId, node: NodeId, known: seq<KnownDevice>,
                      newId: nat -> string): Devices
  {
    Pruned(Upserted(devices, org, node, known, newId), org, node, IdsOf(known))
  }

  function RecordInventory(nodeIds: set<NodeId>, devices: Devices, org: OrgId, node: NodeId,
                           reported: seq<WireDevice>, newId: nat -> string): Result<Devices, TxError>
  {
    var known := Known(reported);
    if Storable(nodeIds, devices, org, node, IdsOf(known)) then Ok(Reconciled(devices, org, node, known, newId))
    else if IdsOf(known) != [] && node !in nodeIds then Err(NoSuchNode)
    else Err(OtherTenantsRow)
  }

  // ----- Samples

  function SampleIds(samples: seq<WireSample>): (ids: seq<LocalId>)
    ensures |ids| == |samples| && forall i :: 0 <= i < |ids| ==> ids[i] == samples[i].localId
  {
    seq(|samples|, i requires 0 <= i < |samples| => samples[i].localId)
  }

  /** The columns one sample fills in; a pressure this build does not know is recorded as normal. */
  function Columns(s: WireSample): (c: Sampled)
    ensures c.pressure in PRESSURE_NAMES
  {
    var pressure := PressureName(s.pressure);
    Sampled(s.usedBytes, s.managedBytes, s.utilization,
            if pressure.Some? then pressure.value else "normal", Some(s.sampledAtUnixMs))
  }

  /** A batch leaves each visible device of the node with its last sample in the batch. */
  function WithSamples(devices: Devices, org: OrgId, node: NodeId, samples: seq<WireSample>): Devices {
    map k | k in devices ::
      if k.0 == node && devices[k].orgId == org && k.1 in SampleIds(samples)
      then devices[k].(sampled := Columns(samples[LastAt(SampleIds(samples), k.1)]))
      else devices[k]
  }

  // ----- One statement of each loop

  /** INSERT ... ON CONFLICT DO UPDATE of one reported device. */
  function UpsertOne(devices: Devices, org: OrgId, node: NodeId, d: KnownDevice, id: string): Devices {
    var key := (node, d.localId);
    if key in devices then devices[key := devices[key].(facts := d.facts)]
    else devices[key := DeviceRow(id, org, d.facts, false, NEVER_SAMPLED)]
  }

  lemma OccurrencesGrow(ids: seq<LocalId>, more: LocalId, id: LocalId)
    requires id in ids + [more]
    ensures LastAt(ids + [more], id) == if id == more then |ids| else LastAt(ids, id)
    ensures FirstAt(ids + [more], id) == if id in ids then FirstAt(ids, id) else |ids|
  {
    assert (ids + [more])[..|ids|] == ids;
  }

  lemma IdsGrow(known: seq<KnownDevice>, d: KnownDevice, id: LocalId)
    ensures id in IdsOf(known + [d]) <==> id in IdsOf(known) || id == d.localId
  {
    assert IdsOf(known + [d]) == IdsOf(known) + [d.localId];
  }

  lemma UpsertedAt(devices: Devices, org: OrgId, node: NodeId, known: seq<KnownDevice>, newId: nat -> string,
                   k: DeviceKey)
    ensures k in Upserted(devices, org, node, known, newId) <==> k in devices || (k.0 == node && k.1 in IdsOf(known))
    ensures k.0 == node && k.1 in IdsOf(known)
        ==> Upserted(devices, org, node, known, newId)[k] == StoredRow(devices, org, node, known, newId, k.1)
    ensures !(k.0 == node && k.1 in IdsOf(known)) && k in devices
        ==> Upserted(devices, org, node, known, newId)[k] == devices[k]
  {
  }

  lemma ReconciledAt(devices: Devices, org: OrgId, node: NodeId, known: seq<KnownDevice>, newId: nat -> string,
                     k: DeviceKey)
    ensures var after := Reconciled(devices, org, node, known, newId);
            && (k.0 == node && k.1 in IdsOf(known)
                ==> k in after && after[k] == StoredRow(devices, org, node, known, newId, k.1))
            && (!(k.0 == node && k.1 in IdsOf(known))
                ==> && (k in after <==> k in devices && !(k.0 == node && devices[k].orgId == org))
                    && (k in after ==> after[k] == devices[k]))
  {
    UpsertedAt(devices, org, node, known, newId, k);
  }

  lemma StoredRowGrows(devices: Devices, org: OrgId, node: NodeId, known: seq<KnownDevice>, d: KnownDevice,
                       newId: nat -> string, id: LocalId)
    requires id in IdsOf(known + [d])
    ensures id in IdsOf(known) || id == d.localId
    ensures StoredRow(devices, org, node, known + [d], newId, id) ==
            if id != d.localId then StoredRow(devices, org, node, known, newId, id)
            else if id in IdsOf(known) then StoredRow(devices, org, node, known, newId, id).(facts := d.facts)
            else if (node, id) in devices then devices[(node, id)].(facts := d.facts)
            else DeviceRow(newId(|known|), org, d.facts, false, NEVER_SAMPLED)
  {
    assert IdsOf(known + [d]) == IdsOf(known) + [d.localId];
    OccurrencesGrow(IdsOf(known), d.localId, id);
  }

  lemma UpsertedGrowsAt(devices: Devices, org: OrgId, node: NodeId, known: seq<KnownDevice>, d: KnownDevice,
                        newId: nat -> string, k: DeviceKey)
    ensures var after := Upserted(devices, org, node, known + [d], newId);
            var step := UpsertOne(Upserted(devices, org, node, known, newId), org, node, d, newId(|known|));
            (k in after <==> k in step) && (k in after ==> after[k] == step[k])
  {
    IdsGrow(known, d, k.1);
    UpsertedAt(devices, org, node, known, newId, k);
    UpsertedAt(devices, org, node, known + [d], newId, k);
    if k == (node, d.localId) {
      StoredRowGrows(devices, org, node, known, d, newId, k.1);
    } else if k.0 == node && k.1 in IdsOf(known) {
      StoredRowGrows(devices, org, node, known, d, newId, k.1);
    }
  }

  /** Storing one more reported device is what one more statement of the loop does. */
  lemma UpsertedGrows(devices: Devices, org: OrgId, node: NodeId, known: seq<KnownDevice>, d: KnownDevice,
                      newId: nat -> string)
    ensures Upserted(devices, org, node, known + [d], newId)
         == UpsertOne(Upserted(devices, org, node, known, newId), org, node, d, newId(|known|))
  {
    var before, after := Upserted(devices, org, node, known, newId), Upserted(devices, org, node, known + [d], newId);
    var step := UpsertOne(before, org, node, d, newId(|known|));
    forall k: DeviceKey ensures (k in after <==> k in step) && (k in after ==> after[k] == step[k]) {
      UpsertedGrowsAt(devices, org, node, known, d, newId, k);
    }
  }

  /** UPDATE of one sample's device row, if the node has it and the tenant can see it. */
  function UpdateOne(devices: Devices, org: OrgId, node: NodeId, s: WireSample): Devices {
    var key := (node, s.localId);
    if key in devices && devices[key].orgId == org
    then devices[key := devices[key].(sampled := Columns(s))]
    else devices
  }

  lemma WithSamplesGrowsAt(devices: Devices, org: OrgId, node: NodeId, samples: seq<WireSample>, s: WireSample,
                           k: DeviceKey)
    requires k in devices
    ensures WithSamples(devices, org, node, samples + [s])[k]
         == UpdateOne(WithSamples(devices, org, node, samples), org, node, s)[k]
  {
    LastSampleGrows(samples, s, k.1);
  }

  lemma LastSampleGrows(samples: seq<WireSample>, s: WireSample, id: LocalId)
    ensures id in SampleIds(samples + [s]) <==> id in SampleIds(samples) || id == s.localId
    ensures id in SampleIds(samples + [s]) ==>
              (samples + [s])[LastAt(SampleIds(samples + [s]), id)]
              == if id == s.localId then s else samples[LastAt(SampleIds(samples), id)]
  {
    assert SampleIds(samples + [s]) == SampleIds(samples) + [s.localId];
    if id in SampleIds(samples + [s]) {
      OccurrencesGrow(SampleIds(samples), s.localId, id);
    }
  }

  lemma WithSamplesGrows(devices: Devices, org: OrgId, node: NodeId, samples: seq<WireSample>, s: WireSample)
    ensures WithSamples(devices, org, node, samples + [s])
         == UpdateOne(WithSamples(devices, org, node, samples), org, node, s)
  {
    forall k | k in devices
      ensures WithSamples(devices, org, node, samples + [s])[k]
           == UpdateOne(WithSamples(devices, org, node, samples), org, node, s)[k]
    {
      WithSamplesGrowsAt(devices, org, node, samples, s, k);
    }
  }

  // ----- What reports and samples promise

  /** The last time a report lists this id with a kind that is known. */
  ghost predicate LastReport(reported: seq<WireDevice>, id: LocalId, j: int) {
    && 0 <= j < |reported| && reported[j].localId == id && reported[j].kind in {1, 2, 3}
    && forall i :: j < i < |reported| && reported[i].localId == id ==> reported[i].kind !in {1, 2, 3}
  }

  /** A device's columns as reported, its kind by name. */
  ghost predicate FactsFrom(d: WireDevice, f: Facts) {
    && f.kind == (if d.kind == 1 then "cpu" else if d.kind == 2 then "cuda" else "metal")
    && f.index == d.index && f.name == d.name && f.totalBytes == d.totalBytes
    && f.wiredLimitBytes == d.wiredLimitBytes && f.driverVersion == d.driverVersion
    && f.computeCapability == d.computeCapability
  }

  lemma KnownLast(front: seq<WireDevice>, d: WireDevice)
    ensures d.kind !in {1, 2, 3} ==> Known(front + [d]) == Known(front)
    ensures d.kind in {1, 2, 3} ==> exists k: KnownDevice ::
              Known(front + [d]) == Known(front) + [k] && k.localId == d.localId && FactsFrom(d, k.facts)
  {
    assert (front + [d])[..|front|] == front;
    if d.kind in {1, 2, 3} {
      var facts := Facts(KindName(d.kind).value, d.index, d.name, d.totalBytes, d.wiredLimitBytes,
                         d.driverVersion, d.computeCapability);
      assert Known(front + [d]) == Known(front) + [KnownDevice(d.localId, facts)];
    } else {
      assert Known(front) + [] == Known(front);
    }
  }

  lemma LastReportGrows(front: seq<WireDevice>, d: WireDevice, id: LocalId, j: int)
    ensures LastReport(front + [d], id, j) <==>
            if d.localId == id && d.kind in {1, 2, 3} then j == |front| else LastReport(front, id, j)
  {
    var all := front + [d];
    if j != |front| && LastReport(all, id, j) {
      assert all[|front|] == d;
      assert forall i :: 0 <= i < |front| ==> all[i] == front[i];
    }
    if LastReport(front, id, j) {
      assert forall i :: 0 <= i < |front| ==> all[i] == front[i];
    }
  }

  /** What is known of a report is, for each id, its last device of known kind. */
  lemma {:induction false} KnownIsLastReport(reported: seq<WireDevice>, id: LocalId)
    ensures id in IdsOf(Known(reported)) <==> exists j :: LastReport(reported, id, j)
    ensures forall j :: LastReport(reported, id, j) ==>
              id in IdsOf(Known(reported))
              && FactsFrom(reported[j], Known(reported)[LastAt(IdsOf(Known(reported)), id)].facts)
    decreases |reported|
  {
    if |reported| > 0 {
      var front, d := Unsnoc(reported);
      KnownIsLastReport(front, id);
      KnownLast(front, d);
      forall j {
        LastReportGrows(front, d, id, j);
      }
      if d.kind in {1, 2, 3} {
        var k :| Known(reported) == Known(front) + [k] && k.localId == d.localId && FactsFrom(d, k.facts);
        assert IdsOf(Known(reported)) == IdsOf(Known(front)) + [d.localId];
        if id in IdsOf(Known(reported)) {
          OccurrencesGrow(IdsOf(Known(front)), d.localId, id);
        }
        if d.localId == id {
          assert LastReport(reported, id, |front|);
        } else if j :| LastReport(front, id, j) {
          assert LastReport(reported, id, j);
        }
      } else if j :| LastReport(front, id, j) {
        assert LastReport(reported, id, j);
      }
    }
  }

  /** A device the node did not have: the tenant's own, not interactive, never sampled, under one of the ids ready. */
  ghost predicate NewRow(org: OrgId, newId: nat -> string, row: DeviceRow) {
    && row.orgId == org && !row.interactive && row.sampled == Sampled(0, 0, 0.0, "normal", None)
    && exists i: nat :: row.id == newId(i)
  }

  /**
   * A stored report: the node's rows, as the tenant sees them, are the reported
   * ids of known kind, each with its last facts; a surviving row keeps its id,
   * samples and interactive flag; and no other row changes.
   */
  lemma {:induction false} InventoryMeaning(nodeIds: set<NodeId>, devices: Devices, org: OrgId, node: NodeId,
                                            reported: seq<WireDevice>, newId: nat -> string)
    requires RecordInventory(nodeIds, devices, org, node, reported, newId).Ok?
    ensures var after := RecordInventory(nodeIds, devices, org, node, reported, newId).value;
            && (forall id :: (node, id) in after && after[(node, id)].orgId == org
                  <==> exists j :: LastReport(reported, id, j))
            && (forall id, j :: LastReport(reported, id, j) ==>
                  && (node, id) in after && FactsFrom(reported[j], after[(node, id)].facts)
                  && ((node, id) in devices ==>
                        after[(node, id)] == devices[(node, id)].(facts := after[(node, id)].facts))
                  && ((node, id) !in devices ==> NewRow(org, newId, after[(node, id)])))
            && (forall k: DeviceKey :: k.0 != node || (k in devices && devices[k].orgId != org) ==>
                  (k in after <==> k in devices) && (k in devices ==> after[k] == devices[k]))
  {
    var after := RecordInventory(nodeIds, devices, org, node, reported, newId).value;
    forall k: DeviceKey {
      ReconciledAt(devices, org, node, Known(reported), newId, k);
    }
    forall id {
      KnownIsLastReport(reported, id);
    }
    forall id, j | LastReport(reported, id, j)
      ensures (node, id) in after && FactsFrom(reported[j], after[(node, id)].facts)
      ensures (node, id) in devices ==> after[(node, id)] == devices[(node, id)].(facts := after[(node, id)].facts)
      ensures (node, id) !in devices ==> NewRow(org, newId, after[(node, id)])
    {
      StoredRowIs(devices, org, node, reported, newId, id, j);
    }
  }

  lemma StoredRowIs(devices: Devices, org: OrgId, node: NodeId, reported: seq<WireDevice>, newId: nat -> string,
                    id: LocalId, j: int)
    requires LastReport(reported, id, j) && id in IdsOf(Known(reported))
    ensures var row := StoredRow(devices, org, node, Known(reported), newId, id);
            && FactsFrom(reported[j], row.facts)
            && ((node, id) in devices ==> row == devices[(node, id)].(facts := row.facts))
            && ((node, id) !in devices ==> NewRow(org, newId, row))
  {
    KnownIsLastReport(reported, id);
  }

  /** A report is refused exactly when a device on it has no such node, or a row that is another tenant's. */
  lemma InventoryRefused(nodeIds: set<NodeId>, devices: Devices, org: OrgId, node: NodeId,
                         reported: seq<WireDevice>, newId: nat -> string)
    ensures var r := RecordInventory(nodeIds, devices, org, node, reported, newId);
            && (r == Err(NoSuchNode) <==> node !in nodeIds && exists id, j :: LastReport(reported, id, j))
            && (r == Err(OtherTenantsRow) <==>
                  node in nodeIds && exists id, j :: LastReport(reported, id, j)
                                                     && (node, id) in devices && devices[(node, id)].orgId != org)
  {
    forall id {
      KnownIsLastReport(reported, id);
    }
    var ids := IdsOf(Known(reported));
    if ids != [] {
      KnownIsLastReport(reported, ids[0]);
    }
    if id, j :| LastReport(reported, id, j) {
      KnownIsLastReport(reported, id);
      assert id in ids;
    }
  }

  lemma ReconciledTwiceAt(devices: Devices, org: OrgId, node: NodeId, known: seq<KnownDevice>,
                          newId: nat -> string, newId': nat -> string, k: DeviceKey)
    ensures var once := Reconciled(devices, org, node, known, newId);
            var twice := Reconciled(once, org, node, known, newId');
            (k in twice <==> k in once) && (k in once ==> twice[k] == once[k])
  {
    var once := Reconciled(devices, org, node, known, newId);
    ReconciledAt(devices, org, node, known, newId, k);
    ReconciledAt(once, org, node, known, newId', k);
  }

  /** The same report twice is the same as once, whatever ids the second pass had ready. */
  lemma {:induction false} InventoryIdempotent(nodeIds: set<NodeId>, devices: Devices, org: OrgId, node: NodeId,
                                               reported: seq<WireDevice>, newId: nat -> string, newId': nat -> string)
    requires RecordInventory(nodeIds, devices, org, node, reported, newId).Ok?
    ensures var once := RecordInventory(nodeIds, devices, org, node, reported, newId);
            RecordInventory(nodeIds, once.value, org, node, reported, newId') == once
  {
    var known := Known(reported);
    var once := Reconciled(devices, org, node, known, newId);
    var twice := Reconciled(once, org, node, known, newId');
    forall k: DeviceKey ensures (k in twice <==> k in once) && (k in once ==> twice[k] == once[k]) {
      ReconciledTwiceAt(devices, org, node, known, newId, newId', k);
    }
    assert twice == once;
    forall id | id in IdsOf(known) && (node, id) in once ensures once[(node, id)].orgId == org {
      ReconciledAt(devices, org, node, known, newId, (node, id));
    }
  }

  /** The sample columns as a sample gives them; a pressure that is not known counts as normal. */
  ghost predicate ColumnsFrom(s: WireSample, c: Sampled) {
    && c.usedBytes == s.usedBytes && c.managedBytes == s.managedBytes && c.utilization == s.utilization
    && c.pressure == (if s.pressure == 2 then "warn" else if s.pressure == 3 then "critical" else "normal")
    && c.at == Some(s.sampledAtUnixMs)
  }

  /** A batch touches only sample columns: it never adds, removes or relabels a device. */
  lemma {:induction false} SamplesMeaning(devices: Devices, org: OrgId, node: NodeId, samples: seq<WireSample>,
                                          k: DeviceKey)
    ensures k in WithSamples(devices, org, node, samples) <==> k in devices
    ensures k in devices ==>
              var row := WithSamples(devices, org, node, samples)[k];
              && row.(sampled := devices[k].sampled) == devices[k]
              && (forall i :: k.0 == node && devices[k].orgId == org && LastSample(samples, k.1, i)
                    ==> ColumnsFrom(samples[i], row.sampled))
              && (k.0 != node || devices[k].orgId != org ==> row == devices[k])
              && ((forall i :: !LastSample(samples, k.1, i)) ==> row == devices[k])
  {
    if k in devices {
      forall i | k.0 == node && devices[k].orgId == org && LastSample(samples, k.1, i)
        ensures ColumnsFrom(samples[i], WithSamples(devices, org, node, samples)[k].sampled)
      {
        SampledRow(devices, org, node, samples, k, i);
        ColumnsAre(samples[i]);
      }
      if k.0 != node || devices[k].orgId != org || forall i :: !LastSample(samples, k.1, i) {
        UnsampledRow(devices, org, node, samples, k);
      }
    }
  }

  lemma SampledRow(devices: Devices, org: OrgId, node: NodeId, samples: seq<WireSample>, k: DeviceKey, i: int)
    requires k in devices && k.0 == node && devices[k].orgId == org && LastSample(samples, k.1, i)
    ensures WithSamples(devices, org, node, samples)[k] == devices[k].(sampled := Columns(samples[i]))
  {
    LastSampleIs(samples, k.1, i);
  }

  lemma UnsampledRow(devices: Devices, org: OrgId, node: NodeId, samples: seq<WireSample>, k: DeviceKey)
    requires k in devices
    requires k.0 != node || devices[k].orgId != org || forall i :: !LastSample(samples, k.1, i)
    ensures WithSamples(devices, org, node, samples)[k] == devices[k]
  {
    if k.1 in SampleIds(samples) {
      SampledHasLast(samples, k.1);
    }
  }

  lemma ColumnsAre(s: WireSample)
    ensures ColumnsFrom(s, Columns(s))
  {
  }

  /** The last sample of this id in a batch. */
  ghost predicate LastSample(samples: seq<WireSample>, id: LocalId, i: int) {
    && 0 <= i < |samples| && samples[i].localId == id
    && forall j :: i < j < |samples| ==> samples[j].localId != id
  }

  lemma SampledHasLast(samples: seq<WireSample>, id: LocalId)
    requires id in SampleIds(samples)
    ensures LastSample(samples, id, LastAt(SampleIds(samples), id))
  {
    var ids := SampleIds(samples);
    var i := LastAt(ids, id);
    forall j | i < j < |samples| ensures samples[j].localId != id {
      assert ids[i + 1..][j - (i + 1)] == ids[j];
    }
  }

  lemma LastSampleIs(samples: seq<WireSample>, id: LocalId, i: int)
    requires LastSample(samples, id, i)
    ensures id in SampleIds(samples) && LastAt(SampleIds(samples), id) == i
  {
    assert SampleIds(samples)[i] == id;
    SampledHasLast(samples, id);
  }

  /** A batch and a report commute on every device that was there before and is still reported. */
  lemma {:induction false} SamplesAndInventoryCommute(nodeIds: set<NodeId>, devices: Devices, org: OrgId,
                                                      node: NodeId, samples: seq<WireSample>,
                                                      reported: seq<WireDevice>, newId: nat -> string, id: LocalId)
    requires id in IdsOf(Known(reported)) && (node, id) in devices
    ensures var sampled := WithSamples(devices, org, node, samples);
            var sampledFirst := RecordInventory(nodeIds, sampled, org, node, reported, newId);
            var reportFirst := RecordInventory(nodeIds, devices, org, node, reported, newId);
            && (sampledFirst.Ok? <==> reportFirst.Ok?)
            && (reportFirst.Ok? ==>
                  var both := WithSamples(reportFirst.value, org, node, samples);
                  && (node, id) in sampledFirst.value && (node, id) in both
                  && sampledFirst.value[(node, id)] == both[(node, id)])
  {
    var known := Known(reported);
    var sampled := WithSamples(devices, org, node, samples);
    assert Storable(nodeIds, sampled, org, node, IdsOf(known)) <==> Storable(nodeIds, devices, org, node, IdsOf(known));
    assert Upserted(sampled, org, node, known, newId)[(node, id)] == StoredRow(sampled, org, node, known, newId, id);
    assert Upserted(devices, org, node, known, newId)[(node, id)] == StoredRow(devices, org, node, known, newId, id);
  }
}
