/**
 * The whole control plane as a state machine. Any sequence of events is a run:
 * a step whose moment has not come changes nothing, so theorems about `Run`
 * cover every interleaving of every number of callers.
 */
module System {
  import opened Base
  import opened Fleet
  import opened DeviceTables
  import opened Enrollment
  import opened NodeAuth

  // ----- Heartbeats

  /** UPDATE nodes ... WHERE id, as the tenant `org`. */
  function Touch(nodes: Nodes, org: OrgId, node: NodeId, at: int): Nodes {
    if node in nodes && nodes[node].orgId == org
    then nodes[node := nodes[node].(status := Online, lastSeenAt := Some(at))]
    else nodes
  }

  function MarkNodeOnline(nodes: Nodes, org: OrgId, node: NodeId, host: HostColumns, at: int): Nodes {
    if node in nodes && nodes[node].orgId == org
    then nodes[node := nodes[node].(host := host, status := Online, lastSeenAt := Some(at))]
    else nodes
  }

  /** What one message does to each table. Each message is one transaction, all or nothing. */
  function NodesAfter(nodes: Nodes, org: OrgId, node: NodeId, m: Message, stamp: int): Nodes {
    match m
    case Hello(host) => MarkNodeOnline(nodes, org, node, host, stamp)
    case Samples(_) => Touch(nodes, org, node, stamp)
    case _ => nodes
  }

  function DevicesAfter(nodeIds: set<NodeId>, devices: Devices, org: OrgId, node: NodeId, m: Message,
                        newId: nat -> string): Devices
  {
    match m
    case Inventory(reported) =>
      var after := RecordInventory(nodeIds, devices, org, node, reported, newId);
      if after.Ok? then after.value else devices
    case Samples(samples) => WithSamples(devices, org, node, samples)
    case _ => devices
  }

  /** A message counts only on an open stream, and its stamp was read from the clock no later than now. */
  function DeliverStep(s: State, c: nat, m: Message, stamp: int, newId: nat -> string): (s': State)
    ensures s' == s.(nodes := s'.nodes, devices := s'.devices)
  {
    if IsOpen(s, c) && stamp <= s.clock then
      var org, node := StreamOrg(s, c), StreamNode(s, c);
      s.(nodes := NodesAfter(s.nodes, org, node, m, stamp),
         devices := DevicesAfter(s.nodes.Keys, s.devices, org, node, m, newId))
    else s
  }

  // ----- The sweep

  function DegradedAfter(env: Env): int { env.intervalMs * 3 }

  function OfflineAfter(env: Env): int { env.intervalMs * 6 }

  predicate SeenBefore(n: NodeRow, t: int) { n.lastSeenAt.Some? && n.lastSeenAt.value < t }

  function OfflineRow(env: Env, n: NodeRow, now: int): NodeRow {
    if n.status != Offline && SeenBefore(n, now - OfflineAfter(env)) then n.(status := Offline) else n
  }

  function DegradedRow(env: Env, n: NodeRow, now: int): NodeRow {
    if n.status == Online && SeenBefore(n, now - DegradedAfter(env)) then n.(status := Degraded) else n
  }

  function MarkAllOffline(env: Env, nodes: Nodes, now: int): Nodes {
    map n | n in nodes :: OfflineRow(env, nodes[n], now)
  }

  function MarkAllDegraded(env: Env, nodes: Nodes, now: int): Nodes {
    map n | n in nodes :: DegradedRow(env, nodes[n], now)
  }

  function SweepStep(env: Env, s: State, w: nat, e: SweepEvent): (s': State)
    ensures s' == s.(nodes := s'.nodes, sweeps := s'.sweeps)
  {
    match e
    case Begin => if w in s.sweeps then s else s.(sweeps := s.sweeps[w := SweepCall(s.clock, Begun)])
    case MarkOffline =>
      if w in s.sweeps && s.sweeps[w].phase.Begun?
      then s.(nodes := MarkAllOffline(env, s.nodes, s.sweeps[w].now),
              sweeps := s.sweeps[w := s.sweeps[w].(phase := OfflineMarked)])
      else s
    case MarkDegraded =>
      if w in s.sweeps && s.sweeps[w].phase.OfflineMarked?
      then s.(nodes := MarkAllDegraded(env, s.nodes, s.sweeps[w].now),
              sweeps := s.sweeps[w := s.sweeps[w].(phase := Finished)])
      else s
  }

  // ----- Steps and runs

  function Step(env: Env, s: State, e: Event): State {
    match e
    case Tick(ms) => s.(clock := s.clock + ms)
    case Mint(org, user, nodeName, code) => MintStep(env, s, org, user, nodeName, code)
    case Enroll(c, enroll) => EnrollStep(env, s, c, enroll)
    case Auth(c, auth) => AuthStep(env, s, c, auth)
    case Deliver(c, m, stamp, newId) => DeliverStep(s, c, m, stamp, newId)
    case Sweep(w, statement) => SweepStep(env, s, w, statement)
  }

  function Run(env: Env, s: State, events: seq<Event>): State {
    if events == [] then s else Step(env, Run(env, s, events[..|events| - 1]), events[|events| - 1])
  }

  /** Which events can touch what, and that the clock never goes back. */
  lemma StepFrame(env: Env, s: State, e: Event)
    ensures var s' := Step(env, s, e);
            && s.clock <= s'.clock
            && (!e.Enroll? ==> s'.enrolls == s.enrolls)
            && (!e.Enroll? && !e.Mint? ==> s'.codes == s.codes)
            && (!e.Auth? ==> s'.auths == s.auths && s'.nonces == s.nonces)
            && (!e.Sweep? ==> s'.sweeps == s.sweeps)
            && (!e.Deliver? ==> s'.devices == s.devices)
            && (e.Tick? || e.Mint? || e.Auth? ==> s'.nodes == s.nodes)
  {
  }

  lemma RunLast(env: Env, s: State, events: seq<Event>, e: Event)
    ensures Run(env, s, events + [e]) == Step(env, Run(env, s, events), e)
  {
    assert (events + [e])[..|events|] == events;
  }

  lemma {:induction false} RunConcat(env: Env, s: State, first: seq<Event>, second: seq<Event>)
    ensures Run(env, s, first + second) == Run(env, Run(env, s, first), second)
    decreases |second|
  {
    if second == [] {
      assert first + second == first;
    } else {
      var front, e := second[..|second| - 1], second[|second| - 1];
      RunConcat(env, s, first, front);
      RunLast(env, s, first + front, e);
      assert first + second == (first + front) + [e];
    }
  }

  lemma RunFour(env: Env, s: State, a: Event, b: Event, c: Event, d: Event)
    ensures Run(env, s, [a, b, c, d]) == Step(env, Step(env, Step(env, Step(env, s, a), b), c), d)
  {
    assert [a] == [] + [a] && [a, b] == [a] + [b] && [a, b, c] == [a, b] + [c] && [a, b, c, d] == [a, b, c] + [d];
    RunLast(env, s, [], a);
    RunLast(env, s, [a], b);
    RunLast(env, s, [a, b], c);
    RunLast(env, s, [a, b, c], d);
  }

  lemma RunFive(env: Env, s: State, a: Event, b: Event, c: Event, d: Event, e: Event)
    ensures Run(env, s, [a, b, c, d, e]) == Step(env, Step(env, Step(env, Step(env, Step(env, s, a), b), c), d), e)
  {
    assert [a, b, c, d, e] == [a, b, c, d] + [e];
    RunFour(env, s, a, b, c, d);
    RunLast(env, s, [a, b, c, d], e);
  }
}
