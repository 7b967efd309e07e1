/** Translation between wire enums and stored names, and the views built from rows. */
module Wire {
  import opened Base
  import opened Fleet
  import opened Memory

  const UNSPECIFIED := 0

  function KindName(kind: int): Option<string> {
    if kind == 1 then Some("cpu") else if kind == 2 then Some("cuda") else if kind == 3 then Some("metal") else None
  }

  function PressureName(pressure: int): Option<string> {
    if pressure == 1 then Some("normal") else if pressure == 2 then Some("warn")
    else if pressure == 3 then Some("critical") else None
  }

  function KindNumber(name: string): int {
    if name == "cpu" then 1 else if name == "cuda" then 2 else if name == "metal" then 3 else UNSPECIFIED
  }

  function PressureNumber(name: string): int {
    if name == "normal" then 1 else if name == "warn" then 2 else if name == "critical" then 3 else UNSPECIFIED
  }

  datatype DeviceView = DeviceView(
    id: string, localId: LocalId, kind: int, name: string, budget: MemoryBudget,
    utilization: real, pressure: int)

  function BudgetInput(d: DeviceRow): MemoryInput {
    MemoryInput(d.facts.kind, d.facts.totalBytes, d.sampled.usedBytes, d.sampled.managedBytes,
                Some(d.facts.wiredLimitBytes), Some(d.sampled.pressure), d.interactive)
  }

  function ViewDevice(localId: LocalId, d: DeviceRow): Result<DeviceView, string> {
    match ComputeBudget(BudgetInput(d))
    case Err(e) => Err(e)
    case Ok(budget) =>
      var pressure := PressureNumber(d.sampled.pressure);
      Ok(DeviceView(d.id, localId, KindNumber(d.facts.kind), d.facts.name, budget, d.sampled.utilization,
                    if pressure == UNSPECIFIED then 1 else pressure))
  }

  datatype NodeView = NodeView(
    name: string, status: Status, lastSeenUnixMs: int, host: HostColumns, devices: map<LocalId, DeviceView>)

  /** The node's view over the device rows given; one device that cannot be shown fails it whole. */
  function ViewNode(id: NodeId, n: NodeRow, devices: Devices): Result<NodeView, string> {
    if exists k: DeviceKey :: k in devices && k.0 == id && ViewDevice(k.1, devices[k]).Err?
    then Err("unknown device kind")
    else
      var ids := set k | k in devices && k.0 == id :: k.1;
      Ok(NodeView(n.name, n.status, if n.lastSeenAt.Some? then n.lastSeenAt.value else 0, n.host,
                  map l | l in ids && (id, l) in devices && ViewDevice(l, devices[(id, l)]).Ok?
                    :: ViewDevice(l, devices[(id, l)]).value))
  }

  /** Stored names and wire numbers are two spellings of the same three values. */
  lemma NamesRoundTrip(name: string, number: int)
    ensures name in KIND_NAMES <==> KindName(KindNumber(name)) == Some(name)
    ensures KindName(number).Some?
        ==> KindName(number).value in KIND_NAMES && KindNumber(KindName(number).value) == number
    ensures name in PRESSURE_NAMES <==> PressureName(PressureNumber(name)) == Some(name)
    ensures PressureName(number).Some?
        ==> PressureName(number).value in PRESSURE_NAMES && PressureNumber(PressureName(number).value) == number
    ensures KindName(1) == Some("cpu") && KindName(2) == Some("cuda") && KindName(3) == Some("metal")
    ensures PressureName(1) == Some("normal") && PressureName(2) == Some("warn") && PressureName(3) == Some("critical")
    ensures KIND_NAMES == {"cpu", "cuda", "metal"} && PRESSURE_NAMES == {"normal", "warn", "critical"}
  {
  }

  /** On any row, a name the view does not know reads as "unspecified" for a kind and as "normal" for a pressure. */
  lemma NamesAreShown(localId: LocalId, d: DeviceRow)
    requires ViewDevice(localId, d).Ok?
    ensures var view, kind, pressure := ViewDevice(localId, d).value, d.facts.kind, d.sampled.pressure;
            && view.kind == (if kind == "cpu" then 1 else if kind == "cuda" then 2
                             else if kind == "metal" then 3 else 0)
            && view.pressure == (if pressure == "warn" then 2 else if pressure == "critical" then 3 else 1)
  {
  }
}
