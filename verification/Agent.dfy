/** The agent's side of a connection: what it discovers, what it samples, and what it sends. */
module Agent {
  import opened Base
  import opened Fleet

  datatype Device = Device(
    localId: LocalId, kind: string, index: int, name: string, totalBytes: nat,
    wiredLimitBytes: nat, driverVersion: string, computeCapability: string)

  datatype Sample = Sample(
    localId: LocalId, usedBytes: nat, managedBytes: nat, utilization: real,
    temperatureC: real, powerWatts: real, pressure: string, sampledAtMs: int)

  /** What one probe's discovery returned: its devices, or None for an error. */
  type Discovery = Option<seq<Device>>

  /** One discovery pass: the devices, and which probe owns each id. */
  datatype Inventory = Discovered(devices: seq<Device>, owner: map<LocalId, nat>)

  datatype CollectError = ProbeFailed(probe: nat) | DuplicateId(probe: nat, id: LocalId)

  // ----- Discovery

  function Found(probes: seq<Discovery>): seq<Device> {
    if probes == [] then []
    else Found(probes[..|probes| - 1]) +
         match probes[|probes| - 1] { case Some(devices) => devices case None => [] }
  }

  ghost predicate Distinct(devices: seq<Device>) {
    forall i, j :: 0 <= i < j < |devices| ==> devices[i].localId != devices[j].localId
  }

  ghost predicate AllSucceeded(probes: seq<Discovery>) { forall p :: 0 <= p < |probes| ==> probes[p].Some? }

  /** Each device is listed under the probe that found it, and no other ids are listed. */
  ghost predicate OwnedByFinder(inv: Inventory, probes: seq<Discovery>) {
    && (forall id :: id in inv.owner <==> exists i :: 0 <= i < |inv.devices| && inv.devices[i].localId == id)
    && (forall id :: id in inv.owner ==> FoundBy(probes, inv.owner[id], id))
  }

  ghost predicate FoundBy(probes: seq<Discovery>, p: nat, id: LocalId) {
    p < |probes| && probes[p].Some? && exists d :: d in probes[p].value && d.localId == id
  }

  lemma FoundGrows(probes: seq<Discovery>, p: nat)
    requires p < |probes| && probes[p].Some?
    ensures Found(probes[..p + 1]) == Found(probes[..p]) + probes[p].value
  {
    assert probes[..p + 1][..p] == probes[..p];
  }

  lemma {:induction false} FoundPrefix(probes: seq<Discovery>, p: nat)
    requires p <= |probes|
    ensures Found(probes[..p]) <= Found(probes)
    decreases |probes| - p
  {
    if p < |probes| {
      FoundPrefix(probes, p + 1);
      assert probes[..p + 1][..p] == probes[..p];
    } else {
      assert probes[..p] == probes;
    }
  }

  ghost predicate Sound(inv: Inventory, probes: seq<Discovery>) { Distinct(inv.devices) && OwnedByFinder(inv, probes) }

  /** One more device of one probe joins the inventory. */
  lemma JoinKeepsSound(inv: Inventory, probes: seq<Discovery>, p: nat, d: Device)
    requires Sound(inv, probes) && p < |probes| && probes[p].Some? && d in probes[p].value
    requires d.localId !in inv.owner
    ensures Sound(Discovered(inv.devices + [d], inv.owner[d.localId := p]), probes)
  {
    var more := Discovered(inv.devices + [d], inv.owner[d.localId := p]);
    assert forall i :: 0 <= i < |inv.devices| ==> inv.devices[i].localId in inv.owner;
    assert more.devices[|inv.devices|] == d;
    forall id ensures id in more.owner <==> exists i :: 0 <= i < |more.devices| && more.devices[i].localId == id {
      if id in inv.owner {
        var i :| 0 <= i < |inv.devices| && inv.devices[i].localId == id;
        assert more.devices[i].localId == id;
      }
    }
    forall id | id in more.owner ensures FoundBy(probes, more.owner[id], id) {
      if id != d.localId { assert FoundBy(probes, inv.owner[id], id); }
    }
  }

  ghost predicate Repeats(devices: seq<Device>, id: LocalId) {
    exists i, j :: 0 <= i < j < |devices| && devices[i].localId == id && devices[j].localId == id
  }

  /** All that the probes find, under the probe that found it; or the first thing that stands in the way. */
  method Collect(probes: seq<Discovery>) returns (r: Result<Inventory, CollectError>)
    ensures r.Ok? <==> AllSucceeded(probes) && Distinct(Found(probes))
    ensures r.Ok? ==> r.value.devices == Found(probes) && OwnedByFinder(r.value, probes)
    ensures r.Err? && r.error.ProbeFailed? ==>
              r.error.probe < |probes| && probes[r.error.probe].None? && AllSucceeded(probes[..r.error.probe])
    ensures r.Err? && r.error.DuplicateId? ==>
              && FoundBy(probes, r.error.probe, r.error.id) && AllSucceeded(probes[..r.error.probe])
              && Repeats(Found(probes[..r.error.probe + 1]), r.error.id) && Distinct(Found(probes[..r.error.probe]))
  {
    var inv := Discovered([], map[]);
    for p := 0 to |probes|
      invariant AllSucceeded(probes[..p]) && inv.devices == Found(probes[..p]) && Sound(inv, probes)
    {
      if probes[p].None? {
        return Err(ProbeFailed(p));
      }
      var found := probes[p].value;
      for i := 0 to |found|
        invariant inv.devices == Found(probes[..p]) + found[..i] && Sound(inv, probes)
        invariant Distinct(Found(probes[..p]))
      {
        var d := found[i];
        if d.localId in inv.owner {
          RepeatSpoils(probes, p, i, inv);
          return Err(DuplicateId(p, d.localId));
        }
        JoinKeepsSound(inv, probes, p, d);
        assert found[..i + 1] == found[..i] + [d];
        inv := Discovered(inv.devices + [d], inv.owner[d.localId := p]);
      }
      assert found[..|found|] == found;
      FoundGrows(probes, p);
    }
    assert probes[..|probes|] == probes;
    r := Ok(inv);
  }

  /** An id met again: the list of everything found has it twice. */
  lemma RepeatSpoils(probes: seq<Discovery>, p: nat, i: nat, inv: Inventory)
    requires p < |probes| && probes[p].Some? && i < |probes[p].value|
    requires inv.devices == Found(probes[..p]) + probes[p].value[..i] && Sound(inv, probes)
    requires probes[p].value[i].localId in inv.owner
    ensures !Distinct(Found(probes)) && FoundBy(probes, p, probes[p].value[i].localId)
    ensures Repeats(Found(probes[..p + 1]), probes[p].value[i].localId)
  {
    var found, all := probes[p].value, Found(probes);
    FoundGrows(probes, p);
    FoundPrefix(probes, p + 1);
    var j :| 0 <= j < |inv.devices| && inv.devices[j].localId == found[i].localId;
    var upTo := Found(probes[..p]) + found;
    assert upTo[j] == inv.devices[j] && upTo[|inv.devices|] == found[i];
    assert all[j] == upTo[j] && all[|inv.devices|] == upTo[|inv.devices|];
  }

  // ----- Sampling

  /** What each probe answers for a device at one tick; None is a failed sample. */
  type Sampler = (nat, Device) -> Option<Sample>

  ghost predicate Complete(inv: Inventory) {
    forall i :: 0 <= i < |inv.devices| ==> inv.devices[i].localId in inv.owner
  }

  /** The samples that succeeded, in device order. */
  function Successes(owner: map<LocalId, nat>, devices: seq<Device>, sampler: Sampler): seq<Sample>
    requires forall i :: 0 <= i < |devices| ==> devices[i].localId in owner
  {
    if devices == [] then []
    else
      var d := devices[|devices| - 1];
      Successes(owner, devices[..|devices| - 1], sampler) +
      match sampler(owner[d.localId], d) { case Some(s) => [s] case None => [] }
  }

  /** `picks` are the positions, in order, of the devices that answered, and `samples` their answers. */
  ghost predicate AnswersInOrder(owner: map<LocalId, nat>, devices: seq<Device>, sampler: Sampler,
                                 picks: seq<nat>, samples: seq<Sample>)
    requires forall i :: 0 <= i < |devices| ==> devices[i].localId in owner
  {
    && |picks| == |samples|
    && (forall k :: 0 <= k < |picks| ==>
          picks[k] < |devices|
          && sampler(owner[devices[picks[k]].localId], devices[picks[k]]) == Some(samples[k]))
    && (forall k, l :: 0 <= k < l < |picks| ==> picks[k] < picks[l])
    && (forall i :: 0 <= i < |devices| && sampler(owner[devices[i].localId], devices[i]).Some? ==> i in picks)
  }

  lemma {:induction false} SuccessesInOrder(owner: map<LocalId, nat>, devices: seq<Device>, sampler: Sampler)
    returns (picks: seq<nat>)
    requires forall i :: 0 <= i < |devices| ==> devices[i].localId in owner
    ensures AnswersInOrder(owner, devices, sampler, picks, Successes(owner, devices, sampler))
    decreases |devices|
  {
    picks := [];
    if |devices| > 0 {
      var front := devices[..|devices| - 1];
      picks := SuccessesInOrder(owner, front, sampler);
      var d := devices[|front|];
      if sampler(owner[d.localId], d).Some? {
        var before := picks;
        picks := before + [|front|];
        assert picks[|before|] == |front|;
        forall i | 0 <= i < |devices| && sampler(owner[devices[i].localId], devices[i]).Some? ensures i in picks {
          if i < |front| {
            assert front[i] == devices[i] && i in before;
          }
        }
      } else {
        assert forall i :: 0 <= i < |front| ==> front[i] == devices[i];
      }
    }
  }

  /** Only the failed samples are missing from the result. */
  method SampleAll(inv: Inventory, sampler: Sampler) returns (samples: seq<Sample>)
    requires Complete(inv)
    ensures samples == Successes(inv.owner, inv.devices, sampler)
    ensures exists picks :: AnswersInOrder(inv.owner, inv.devices, sampler, picks, samples)
  {
    samples := [];
    for i := 0 to |inv.devices|
      invariant samples == Successes(inv.owner, inv.devices[..i], sampler)
    {
      var d := inv.devices[i];
      assert inv.devices[..i + 1][..i] == inv.devices[..i];
      match sampler(inv.owner[d.localId], d) {
        case Some(s) => samples := samples + [s];
        case None =>
      }
    }
    assert inv.devices[..|inv.devices|] == inv.devices;
    ghost var picks := SuccessesInOrder(inv.owner, inv.devices, sampler);
  }

  // ----- The wire contract

  /** Names missing from these tables become 0, "unspecified". */
  function KindProto(kind: string): int {
    if kind == "cpu" then 1 else if kind == "cuda" then 2 else if kind == "metal" then 3 else 0
  }

  function PressureProto(pressure: string): int {
    if pressure == "normal" then 1 else if pressure == "warn" then 2 else if pressure == "critical" then 3 else 0
  }

  /** A Go int becomes a uint32 by keeping its low 32 bits. */
  function Uint32(n: int): nat { n % 0x1_0000_0000 }

  function DeviceProto(d: Device): WireDevice {
    WireDevice(d.localId, KindProto(d.kind), Uint32(d.index), d.name, d.totalBytes, d.wiredLimitBytes,
               d.driverVersion, d.computeCapability)
  }

  function SampleProto(s: Sample): WireSample {
    WireSample(s.localId, s.usedBytes, s.managedBytes, s.utilization, s.temperatureC, s.powerWatts,
               PressureProto(s.pressure), s.sampledAtMs)
  }

  function DeviceProtos(devices: seq<Device>): seq<WireDevice> {
    seq(|devices|, i requires 0 <= i < |devices| => DeviceProto(devices[i]))
  }

  function SampleProtos(samples: seq<Sample>): seq<WireSample> {
    seq(|samples|, i requires 0 <= i < |samples| => SampleProto(samples[i]))
  }

  /** The device as it was found, its kind by number; an index is carried as far as 32 bits go. */
  ghost predicate CarriesDevice(d: Device, w: WireDevice) {
    && w.localId == d.localId && w.name == d.name && w.totalBytes == d.totalBytes
    && w.wiredLimitBytes == d.wiredLimitBytes && w.driverVersion == d.driverVersion
    && w.computeCapability == d.computeCapability
    && w.kind == (if d.kind == "cpu" then 1 else if d.kind == "cuda" then 2 else if d.kind == "metal" then 3 else 0)
    && 0 <= w.index < 0x1_0000_0000 && (d.index - w.index) % 0x1_0000_0000 == 0
    && (0 <= d.index < 0x1_0000_0000 ==> w.index == d.index)
  }

  /** The sample as it was taken, its pressure by number. */
  ghost predicate CarriesSample(s: Sample, w: WireSample) {
    && w.localId == s.localId && w.usedBytes == s.usedBytes && w.managedBytes == s.managedBytes
    && w.utilization == s.utilization && w.temperatureC == s.temperatureC && w.powerWatts == s.powerWatts
    && w.sampledAtUnixMs == s.sampledAtMs
    && w.pressure == (if s.pressure == "normal" then 1 else if s.pressure == "warn" then 2
                      else if s.pressure == "critical" then 3 else 0)
  }

  lemma DeviceProtoCarries(d: Device)
    ensures CarriesDevice(d, DeviceProto(d))
  {
  }

  lemma SampleProtoCarries(s: Sample)
    ensures CarriesSample(s, SampleProto(s))
  {
  }

  method DevicesProto(devices: seq<Device>) returns (out: array<WireDevice>)
    ensures fresh(out) && out[..] == DeviceProtos(devices)
    ensures out.Length == |devices| && forall i :: 0 <= i < |devices| ==> CarriesDevice(devices[i], out[i])
  {
    out := new WireDevice[|devices|];
    for i := 0 to |devices|
      invariant forall j :: 0 <= j < i ==> out[j] == DeviceProto(devices[j]) && CarriesDevice(devices[j], out[j])
    {
      DeviceProtoCarries(devices[i]);
      out[i] := DeviceProto(devices[i]);
    }
  }

  method SamplesProto(samples: seq<Sample>) returns (out: array<WireSample>)
    ensures fresh(out) && out[..] == SampleProtos(samples)
    ensures out.Length == |samples| && forall i :: 0 <= i < |samples| ==> CarriesSample(samples[i], out[i])
  {
    out := new WireSample[|samples|];
    for i := 0 to |samples|
      invariant forall j :: 0 <= j < i ==> out[j] == SampleProto(samples[j]) && CarriesSample(samples[j], out[j])
    {
      SampleProtoCarries(samples[i]);
      out[i] := SampleProto(samples[i]);
    }
  }

  // ----- One connection

  /** The sample messages of a run of ticks; a tick with nothing to report sends nothing. */
  function Batches(inv: Inventory, ticks: seq<Sampler>): seq<Message>
    requires Complete(inv)
  {
    if ticks == [] then []
    else
      var samples := Successes(inv.owner, inv.devices, ticks[|ticks| - 1]);
      Batches(inv, ticks[..|ticks| - 1]) + if samples == [] then [] else [Samples(SampleProtos(samples))]
  }

  lemma BatchesGrow(inv: Inventory, ticks: seq<Sampler>, t: nat)
    requires Complete(inv) && t < |ticks|
    ensures var samples := Successes(inv.owner, inv.devices, ticks[t]);
            Batches(inv, ticks[..t + 1])
            == Batches(inv, ticks[..t]) + if samples == [] then [] else [Samples(SampleProtos(samples))]
  {
    assert ticks[..t + 1][..t] == ticks[..t];
  }

  lemma {:induction false} BatchesPrefix(inv: Inventory, ticks: seq<Sampler>, t: nat)
    requires Complete(inv) && t <= |ticks|
    ensures Batches(inv, ticks[..t]) <= Batches(inv, ticks)
    decreases |ticks| - t
  {
    if t < |ticks| {
      BatchesPrefix(inv, ticks, t + 1);
      BatchesGrow(inv, ticks, t);
    } else {
      assert ticks[..t] == ticks;
    }
  }

  /** The messages of a connection on which nothing fails. */
  function Script(host: HostColumns, inv: Inventory, ticks: seq<Sampler>): seq<Message>
    requires Complete(inv)
  {
    [Message.Hello(host), Message.Inventory(DeviceProtos(inv.devices))] + Batches(inv, ticks)
  }

  function FirstOf(messages: seq<Message>, sends: nat): seq<Message> { messages[..Min(sends, |messages|)] }

  /** What gets out of a script when some sends succeed. */
  lemma FirstOfScript(host: HostColumns, inv: Inventory, ticks: seq<Sampler>, sends: nat)
    requires Complete(inv) && sends > 0
    ensures FirstOf(Script(host, inv, ticks), sends) ==
            if sends == 1 then [Message.Hello(host)]
            else [Message.Hello(host), Message.Inventory(DeviceProtos(inv.devices))]
                 + FirstOf(Batches(inv, ticks), sends - 2)
  {
  }

  /**
   * One connection: `host` is None when the host facts cannot be read, `acked`
   * says whether the server's acknowledgement arrived, and only the first `sends`
   * sends succeed. It ends at the first of these to fail; a discovery that fails
   * ends it after the hello.
   */
  method ConnectOnce(host: Option<HostColumns>, acked: bool, probes: seq<Discovery>, ticks: seq<Sampler>, sends: nat)
    returns (sent: seq<Message>, found: Option<Inventory>)
    ensures found.Some? <==>
              host.Some? && sends > 0 && acked && AllSucceeded(probes) && Distinct(Found(probes))
    ensures found.None? ==> sent == if host.Some? && sends > 0 then [Message.Hello(host.value)] else []
    ensures found.Some? ==>
              && found.value.devices == Found(probes) && Sound(found.value, probes) && Complete(found.value)
              && sent == FirstOf(Script(host.value, found.value, ticks), sends)
  {
    sent, found := [], None;
    if host.None? || sends == 0 {
      return;
    }
    sent := [Message.Hello(host.value)];
    if !acked {
      return;
    }
    var collected := Collect(probes);
    if collected.Err? {
      return;
    }
    OwnersAreComplete(collected.value, probes);
    found := Some(collected.value);
    sent := SendReports(host.value, collected.value, ticks, sends);
  }

  lemma OwnersAreComplete(inv: Inventory, probes: seq<Discovery>)
    requires OwnedByFinder(inv, probes)
    ensures Complete(inv)
  {
  }

  /** The rest of a connection, with the hello already out. */
  method SendReports(host: HostColumns, inv: Inventory, ticks: seq<Sampler>, sends: nat) returns (sent: seq<Message>)
    requires Complete(inv) && sends > 0
    ensures sent == FirstOf(Script(host, inv, ticks), sends)
  {
    sent := [Message.Hello(host)];
    FirstOfScript(host, inv, ticks, sends);
    if sends > 1 {
      var devices := DevicesProto(inv.devices);
      var batches := SendBatches(inv, ticks, sends - 2);
      sent := sent + [Message.Inventory(devices[..])] + batches;
    }
  }

  /** The ticker loop: sample, and send unless there is nothing to send, until a send fails. */
  method SendBatches(inv: Inventory, ticks: seq<Sampler>, sends: nat) returns (sent: seq<Message>)
    requires Complete(inv)
    ensures sent == FirstOf(Batches(inv, ticks), sends)
  {
    sent := [];
    for t := 0 to |ticks|
      invariant sent == Batches(inv, ticks[..t]) && |sent| <= sends
    {
      BatchesGrow(inv, ticks, t);
      var samples := SampleAll(inv, ticks[t]);
      if |samples| > 0 {
        if |sent| == sends {
          BatchesPrefix(inv, ticks, t + 1);
          return;
        }
        var out := SamplesProto(samples);
        sent := sent + [Samples(out[..])];
      }
    }
    assert ticks[..|ticks|] == ticks;
  }

  // ----- The latest sample of a device

  /** Probes answer about the device they were asked about. */
  ghost predicate Echoes(sampler: Sampler) {
    forall p: nat, d: Device :: sampler(p, d).Some? ==> sampler(p, d).value.localId == d.localId
  }

  function LatestSuccess(owner: map<LocalId, nat>, ticks: seq<Sampler>, d: Device): Option<Sample>
    requires d.localId in owner
  {
    if ticks == [] then None
    else
      var last := ticks[|ticks| - 1](owner[d.localId], d);
      if last.Some? then last else LatestSuccess(owner, ticks[..|ticks| - 1], d)
  }
}
