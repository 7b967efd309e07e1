/** Heartbeats against the sweep: what a node's stored status says about how long it has been silent. */
module Liveness {
  import opened Base
  import opened Fleet
  import opened Enrollment
  import opened NodeAuth
  import opened System
  import opened Tenancy

  /** The status a silence deserves, as of the instant `now`. */
  function Classify(env: Env, now: int, lastSeenAt: Option<int>): Status {
    match lastSeenAt
    case None => Offline
    case Some(seen) =>
      if seen < now - 6 * env.intervalMs then Offline
      else if seen < now - 3 * env.intervalMs then Degraded
      else Online
  }

  // ----- Why a node may be marked: some sweep really did find it silent

  predicate Executed(sweeps: map<nat, SweepCall>, w: nat) { w in sweeps && !sweeps[w].phase.Begun? }

  ghost predicate FoundSilent(sweeps: map<nat, SweepCall>, w: nat, seen: int, allowance: int) {
    Executed(sweeps, w) && seen < sweeps[w].now - allowance
  }

  ghost predicate RowJustified(env: Env, clock: int, sweeps: map<nat, SweepCall>, n: NodeRow) {
    match n.lastSeenAt
    case None => n.status == Offline
    case Some(seen) =>
      && seen <= clock
      && (n.status == Offline ==> exists w :: FoundSilent(sweeps, w, seen, 6 * env.intervalMs))
      && (n.status == Degraded ==> exists w :: FoundSilent(sweeps, w, seen, 3 * env.intervalMs))
  }

  ghost predicate SweepsPast(s: State) { forall w :: w in s.sweeps ==> s.sweeps[w].now <= s.clock }

  ghost predicate Justified(env: Env, s: State) {
    SweepsPast(s) && forall n :: n in s.nodes ==> RowJustified(env, s.clock, s.sweeps, s.nodes[n])
  }

  /** Sweeps only move forward, and keep the instant they captured. */
  ghost predicate SweepsGrow(a: map<nat, SweepCall>, b: map<nat, SweepCall>) {
    forall w :: Executed(a, w) ==> Executed(b, w) && b[w].now == a[w].now
  }

  lemma JustifiedLater(env: Env, clock: int, clock': int, sweeps: map<nat, SweepCall>, sweeps': map<nat, SweepCall>,
                       n: NodeRow)
    requires RowJustified(env, clock, sweeps, n) && clock <= clock' && SweepsGrow(sweeps, sweeps')
    ensures RowJustified(env, clock', sweeps', n)
  {
    if n.lastSeenAt.Some? {
      var seen := n.lastSeenAt.value;
      if n.status == Offline {
        var w :| FoundSilent(sweeps, w, seen, 6 * env.intervalMs);
        assert FoundSilent(sweeps', w, seen, 6 * env.intervalMs);
      } else if n.status == Degraded {
        var w :| FoundSilent(sweeps, w, seen, 3 * env.intervalMs);
        assert FoundSilent(sweeps', w, seen, 3 * env.intervalMs);
      }
    }
  }

  /** A row whose status and last-seen did not change is as justified as before. */
  predicate SameBeat(a: NodeRow, b: NodeRow) { a.status == b.status && a.lastSeenAt == b.lastSeenAt }

  lemma AdvanceAddsSilentNodes(nodes: Nodes, codes: Codes, call: EnrollCall, e: EnrollEvent, now: int)
    ensures var after := Advance(nodes, codes, call, e, now).nodes;
            && (forall n :: n in nodes ==> n in after && after[n] == nodes[n])
            && (forall n :: n in after && n !in nodes ==> after[n].status == Offline && after[n].lastSeenAt == None)
  {
  }

  /** The step is a heartbeat for `n`: a hello or a batch of samples, on one of its streams. */
  predicate IsBeat(s: State, e: Event, n: NodeId) {
    && e.Deliver? && IsOpen(s, e.conn) && e.stamp <= s.clock
    && (e.message.Hello? || e.message.Samples?)
    && StreamNode(s, e.conn) == n && n in s.nodes && s.nodes[n].orgId == StreamOrg(s, e.conn)
  }

  predicate IsStatement(e: Event) { e.Sweep? && !e.statement.Begin? }

  /** What a step that is not a sweep statement does to a node's status and last-seen. */
  ghost predicate BeatEffect(s: State, e: Event, n: NodeId, after: NodeRow) {
    if IsBeat(s, e, n) then after.status == Online && after.lastSeenAt == Some(e.stamp)
    else if n in s.nodes then SameBeat(s.nodes[n], after)
    else after.status == Offline && after.lastSeenAt == None
  }

  lemma DeliverBeats(s: State, e: Event, n: NodeId)
    requires e.Deliver?
    ensures var after := DeliverStep(s, e.conn, e.message, e.stamp, e.newId).nodes;
            after.Keys == s.nodes.Keys && (n in after ==> BeatEffect(s, e, n, after[n]))
  {
    if IsOpen(s, e.conn) && e.stamp <= s.clock {
      NodesAfterBeat(s.nodes, StreamOrg(s, e.conn), StreamNode(s, e.conn), e.message, e.stamp, n);
    }
  }

  lemma NodesAfterBeat(nodes: Nodes, org: OrgId, node: NodeId, m: Message, stamp: int, n: NodeId)
    ensures var after := NodesAfter(nodes, org, node, m, stamp);
            && after.Keys == nodes.Keys
            && (n in nodes ==>
                  if n == node && nodes[n].orgId == org && (m.Hello? || m.Samples?)
                  then after[n].status == Online && after[n].lastSeenAt == Some(stamp)
                  else SameBeat(nodes[n], after[n]))
  {
  }

  lemma EnrollBeats(env: Env, s: State, e: Event, n: NodeId)
    requires e.Enroll?
    ensures var after := EnrollStep(env, s, e.call, e.enroll).nodes;
            (forall m :: m in s.nodes ==> m in after) && (n in after ==> BeatEffect(s, e, n, after[n]))
  {
    if e.call in s.enrolls {
      AdvanceAddsSilentNodes(s.nodes, s.codes, s.enrolls[e.call], e.enroll, s.clock);
    }
  }

  lemma StepBeats(env: Env, s: State, e: Event, n: NodeId)
    requires !IsStatement(e) && n in Step(env, s, e).nodes
    ensures BeatEffect(s, e, n, Step(env, s, e).nodes[n])
  {
    match e
    case Deliver(_, _, _, _) => DeliverBeats(s, e, n);
    case Enroll(_, _) => EnrollBeats(env, s, e, n);
    case _ => StepFrame(env, s, e);
  }

  // ----- Every reachable state is justified

  lemma StatementKeepsRow(env: Env, clock: int, sweeps: map<nat, SweepCall>, w: nat, n: NodeRow)
    requires RowJustified(env, clock, sweeps, n) && Executed(sweeps, w)
    ensures RowJustified(env, clock, sweeps, OfflineRow(env, n, sweeps[w].now))
    ensures RowJustified(env, clock, sweeps, DegradedRow(env, n, sweeps[w].now))
  {
    if n.lastSeenAt.Some? {
      var seen := n.lastSeenAt.value;
      assert FoundSilent(sweeps, w, seen, 6 * env.intervalMs) <==> seen < sweeps[w].now - 6 * env.intervalMs;
      assert FoundSilent(sweeps, w, seen, 3 * env.intervalMs) <==> seen < sweeps[w].now - 3 * env.intervalMs;
    }
  }

  /** A row after a sweep's statement: as it was, or as the statement marks it. */
  ghost predicate Marked(env: Env, sweeps: map<nat, SweepCall>, w: nat, before: NodeRow, after: NodeRow) {
    || after == before
    || (Executed(sweeps, w)
        && (after == OfflineRow(env, before, sweeps[w].now) || after == DegradedRow(env, before, sweeps[w].now)))
  }

  lemma StatementGrowsSweeps(env: Env, s: State, w: nat, e: SweepEvent)
    ensures SweepsGrow(s.sweeps, SweepStep(env, s, w, e).sweeps)
  {
    var sweeps := SweepStep(env, s, w, e).sweeps;
    forall v | Executed(s.sweeps, v) ensures Executed(sweeps, v) && sweeps[v].now == s.sweeps[v].now {
    }
  }

  lemma StatementKeepsPast(env: Env, s: State, w: nat, e: SweepEvent)
    requires SweepsPast(s)
    ensures SweepsPast(SweepStep(env, s, w, e)) && SweepStep(env, s, w, e).clock == s.clock
  {
  }

  lemma StatementMarks(env: Env, s: State, w: nat, e: SweepEvent)
    ensures var s' := SweepStep(env, s, w, e);
            && s'.nodes.Keys == s.nodes.Keys
            && forall n :: n in s.nodes ==> Marked(env, s'.sweeps, w, s.nodes[n], s'.nodes[n])
  {
    if e.MarkOffline? && w in s.sweeps && s.sweeps[w].phase.Begun? {
      assert Executed(SweepStep(env, s, w, e).sweeps, w);
    } else if e.MarkDegraded? && w in s.sweeps && s.sweeps[w].phase.OfflineMarked? {
      assert Executed(SweepStep(env, s, w, e).sweeps, w);
    } else {
      assert SweepStep(env, s, w, e).nodes == s.nodes;
    }
  }

  lemma StatementKeepsJustified(env: Env, s: State, w: nat, e: SweepEvent)
    requires Justified(env, s)
    ensures Justified(env, SweepStep(env, s, w, e))
  {
    StatementGrowsSweeps(env, s, w, e);
    StatementKeepsPast(env, s, w, e);
    StatementMarks(env, s, w, e);
    MarkedIsJustified(env, s, SweepStep(env, s, w, e), w);
  }

  lemma MarkedIsJustified(env: Env, s: State, s': State, w: nat)
    requires Justified(env, s) && SweepsPast(s') && SweepsGrow(s.sweeps, s'.sweeps) && s'.clock == s.clock
    requires s'.nodes.Keys == s.nodes.Keys
    requires forall n :: n in s.nodes ==> Marked(env, s'.sweeps, w, s.nodes[n], s'.nodes[n])
    ensures Justified(env, s')
  {
    forall n | n in s'.nodes ensures RowJustified(env, s'.clock, s'.sweeps, s'.nodes[n]) {
      JustifiedLater(env, s.clock, s'.clock, s.sweeps, s'.sweeps, s.nodes[n]);
      if s'.nodes[n] != s.nodes[n] {
        StatementKeepsRow(env, s'.clock, s'.sweeps, w, s.nodes[n]);
      }
    }
  }

  lemma StepKeepsJustified(env: Env, s: State, e: Event)
    requires Justified(env, s)
    ensures Justified(env, Step(env, s, e))
  {
    if e.Sweep? {
      StatementKeepsJustified(env, s, e.sweep, e.statement);
    } else {
      StepFrame(env, s, e);
      QuietStepKeepsJustified(env, s, e, Step(env, s, e));
    }
  }

  lemma QuietStepKeepsJustified(env: Env, s: State, e: Event, s': State)
    requires Justified(env, s) && !e.Sweep? && s' == Step(env, s, e) && s'.sweeps == s.sweeps && s.clock <= s'.clock
    ensures Justified(env, s')
  {
    forall n | n in s'.nodes ensures RowJustified(env, s'.clock, s'.sweeps, s'.nodes[n]) {
      StepBeats(env, s, e, n);
      BeatJustified(env, s, s', e, n);
    }
  }

  lemma BeatJustified(env: Env, s: State, s': State, e: Event, n: NodeId)
    requires Justified(env, s) && n in s'.nodes && BeatEffect(s, e, n, s'.nodes[n])
    requires s'.sweeps == s.sweeps && s.clock <= s'.clock
    ensures RowJustified(env, s'.clock, s'.sweeps, s'.nodes[n])
  {
    if !IsBeat(s, e, n) && n in s.nodes {
      JustifiedLater(env, s.clock, s'.clock, s.sweeps, s'.sweeps, s.nodes[n]);
    }
  }

  lemma {:induction false} RunKeepsJustified(env: Env, s: State, events: seq<Event>)
    requires Justified(env, s)
    ensures Justified(env, Run(env, s, events))
  {
    if events != [] {
      RunKeepsJustified(env, s, events[..|events| - 1]);
      StepKeepsJustified(env, Run(env, s, events[..|events| - 1]), events[|events| - 1]);
    }
  }

  /**
   * No false alarms, however sweeps overlap: an offline node that was ever seen
   * has been silent for more than six intervals, a degraded one for more than
   * three. So a node seen within the last three intervals is online.
   */
  lemma {:induction false} NoFalseAlarms(env: Env, events: seq<Event>, n: NodeId)
    requires n in Run(env, INITIAL, events).nodes
    ensures var s := Run(env, INITIAL, events);
            match s.nodes[n].lastSeenAt
            case None => s.nodes[n].status == Offline
            case Some(seen) =>
              && (s.nodes[n].status == Offline ==> seen < s.clock - 6 * env.intervalMs)
              && (s.nodes[n].status == Degraded ==> seen < s.clock - 3 * env.intervalMs)
              && (s.clock - seen <= 3 * env.intervalMs ==> s.nodes[n].status == Online)
  {
    var s := Run(env, INITIAL, events);
    RunKeepsJustified(env, INITIAL, events);
    assert RowJustified(env, s.clock, s.sweeps, s.nodes[n]);
  }

  // ----- A stretch of the run between two sweep statements

  predicate NoStatements(events: seq<Event>) { forall i :: 0 <= i < |events| ==> !IsStatement(events[i]) }

  /** The stamp of the last heartbeat `n` got in this stretch, if any. */
  function LastBeat(env: Env, s: State, events: seq<Event>, n: NodeId): Option<int> {
    if events == [] then None
    else
      var front, e := events[..|events| - 1], events[|events| - 1];
      if IsBeat(Run(env, s, front), e, n) then Some(e.stamp) else LastBeat(env, s, front, n)
  }

  /** Between statements a node's status and last-seen are those of its last heartbeat, or unchanged. */
  ghost predicate StretchEffect(before: Nodes, beat: Option<int>, n: NodeId, after: NodeRow) {
    match beat
    case Some(stamp) => after.status == Online && after.lastSeenAt == Some(stamp)
    case None =>
      if n in before then SameBeat(before[n], after) else after.status == Offline && after.lastSeenAt == None
  }

  lemma {:induction false} StretchBeats(env: Env, s: State, events: seq<Event>, n: NodeId)
    requires NoStatements(events) && n in Run(env, s, events).nodes
    ensures StretchEffect(s.nodes, LastBeat(env, s, events, n), n, Run(env, s, events).nodes[n])
    decreases |events|
  {
    if events != [] {
      var front, e := events[..|events| - 1], events[|events| - 1];
      var mid := Run(env, s, front);
      StepBeats(env, mid, e, n);
      if n in mid.nodes {
        StretchBeats(env, s, front, n);
      } else {
        NeverBeaten(env, s, front, n);
      }
    }
  }

  /** A node that does not exist yet has had no heartbeat, and did not exist before. */
  lemma {:induction false} NeverBeaten(env: Env, s: State, events: seq<Event>, n: NodeId)
    requires n !in Run(env, s, events).nodes
    ensures LastBeat(env, s, events, n).None? && n !in s.nodes
    decreases |events|
  {
    if events != [] {
      var front, e := events[..|events| - 1], events[|events| - 1];
      StepKeepsNodes(env, Run(env, s, front), e);
      NeverBeaten(env, s, front, n);
    }
  }

  /** No sweep executes a statement in the stretch, so none that had not is executed after it. */
  lemma {:induction false} StretchSweeps(env: Env, s: State, events: seq<Event>, w: nat)
    requires NoStatements(events)
    ensures var s' := Run(env, s, events);
            && (w in s.sweeps ==> w in s'.sweeps && s'.sweeps[w] == s.sweeps[w])
            && (Executed(s'.sweeps, w) ==> w in s.sweeps)
            && s.clock <= s'.clock
    decreases |events|
  {
    if events != [] {
      var front, e := events[..|events| - 1], events[|events| - 1];
      StretchSweeps(env, s, front, w);
      if !e.Sweep? {
        StepFrame(env, Run(env, s, front), e);
      }
    }
  }

  // ----- Exact status at the end of a sweep

  /** One sweep in a run: it begins, marks offline, marks degraded, with other events around its statements. */
  datatype Round = Round(sweep: nat, early: seq<Event>, mid: seq<Event>)

  function AtMarkOffline(before: seq<Event>, r: Round): seq<Event> {
    before + [Sweep(r.sweep, Begin)] + r.early + [Sweep(r.sweep, MarkOffline)]
  }

  function AtMarkDegraded(before: seq<Event>, r: Round): seq<Event> {
    AtMarkOffline(before, r) + r.mid + [Sweep(r.sweep, MarkDegraded)]
  }

  /** The sweep is new, and no other sweep executes a statement while it runs. */
  predicate Serial(env: Env, before: seq<Event>, r: Round) {
    r.sweep !in Run(env, INITIAL, before).sweeps && NoStatements(r.early) && NoStatements(r.mid)
  }

  /** What the first statement leaves: nobody it should have marked offline is still up. */
  ghost predicate Settled(env: Env, now: int, n: NodeRow) {
    match n.lastSeenAt
    case None => n.status == Offline
    case Some(seen) => if seen < now - 6 * env.intervalMs then n.status == Offline
                       else n.status == Online || (n.status == Degraded && seen < now - 3 * env.intervalMs)
  }

  lemma OfflineSettles(env: Env, clock: int, now: int, sweeps: map<nat, SweepCall>, n: NodeRow)
    requires RowJustified(env, clock, sweeps, n) && forall w :: Executed(sweeps, w) ==> sweeps[w].now <= now
    ensures Settled(env, now, OfflineRow(env, n, now))
  {
  }

  /** The state just before a sweep's first statement: every sweep executed so far captured no later an instant. */
  lemma {:induction false} BeforeMarkOffline(env: Env, before: seq<Event>, r: Round)
    requires Serial(env, before, r)
    ensures var s := Run(env, INITIAL, before + [Sweep(r.sweep, Begin)] + r.early);
            var now := Run(env, INITIAL, before).clock;
            && Justified(env, s)
            && r.sweep in s.sweeps && s.sweeps[r.sweep] == SweepCall(now, Begun)
            && forall w :: Executed(s.sweeps, w) ==> s.sweeps[w].now <= now
  {
    var begin := Sweep(r.sweep, Begin);
    RunKeepsJustified(env, INITIAL, before);
    RunKeepsJustified(env, INITIAL, before + [begin] + r.early);
    RunLast(env, INITIAL, before, begin);
    RunConcat(env, INITIAL, before + [begin], r.early);
    var started := Run(env, INITIAL, before + [begin]);
    var s := Run(env, INITIAL, before + [begin] + r.early);
    StretchSweeps(env, started, r.early, r.sweep);
    forall w | Executed(s.sweeps, w) ensures s.sweeps[w].now <= started.clock {
      StretchSweeps(env, started, r.early, w);
    }
  }

  lemma AfterMarkOffline(env: Env, before: seq<Event>, r: Round)
    requires Serial(env, before, r)
    ensures var s := Run(env, INITIAL, AtMarkOffline(before, r));
            var now := Run(env, INITIAL, before).clock;
            && r.sweep in s.sweeps && s.sweeps[r.sweep] == SweepCall(now, OfflineMarked)
            && forall n :: n in s.nodes ==> Settled(env, now, s.nodes[n])
  {
    var events := before + [Sweep(r.sweep, Begin)] + r.early;
    var s := Run(env, INITIAL, events);
    var now := Run(env, INITIAL, before).clock;
    BeforeMarkOffline(env, before, r);
    RunLast(env, INITIAL, events, Sweep(r.sweep, MarkOffline));
    forall n | n in s.nodes ensures Settled(env, now, OfflineRow(env, s.nodes[n], now)) {
      OfflineSettles(env, s.clock, now, s.sweeps, s.nodes[n]);
    }
  }

  /** A heartbeat landed between the two statements with a stamp already six intervals old. */
  predicate StaleBeat(env: Env, now: int, beat: Option<int>) { beat.Some? && beat.value < now - 6 * env.intervalMs }

  lemma DegradedIsExact(env: Env, now: int, before: Nodes, beat: Option<int>, n: NodeId, row: NodeRow)
    requires StretchEffect(before, beat, n, row) && (n in before ==> Settled(env, now, before[n]))
    ensures DegradedRow(env, row, now).status == Classify(env, now, row.lastSeenAt) <==> !StaleBeat(env, now, beat)
    ensures StaleBeat(env, now, beat) ==>
              DegradedRow(env, row, now).status == Degraded && Classify(env, now, row.lastSeenAt) == Offline
  {
  }

  /**
   * Exact liveness. Whatever happened before the sweep, and whatever lands around
   * its statements as long as no other sweep writes meanwhile: when it ends, a
   * node's status is what its silence deserves, unless and only unless its last
   * heartbeat between the two statements carried a stamp over six intervals old,
   * and then it reads degraded where it should read offline.
   */
  lemma {:induction false} SweepEndsExact(env: Env, before: seq<Event>, r: Round, n: NodeId)
    requires Serial(env, before, r) && n in Run(env, INITIAL, AtMarkDegraded(before, r)).nodes
    ensures var marked, s := Run(env, INITIAL, AtMarkOffline(before, r)), Run(env, INITIAL, AtMarkDegraded(before, r));
            var now := Run(env, INITIAL, before).clock;
            var exact := s.nodes[n].status == Classify(env, now, s.nodes[n].lastSeenAt);
            && (exact <==> !StaleBeat(env, now, LastBeat(env, marked, r.mid, n)))
            && (!exact ==> s.nodes[n].status == Degraded && Classify(env, now, s.nodes[n].lastSeenAt) == Offline)
  {
    var marked := Run(env, INITIAL, AtMarkOffline(before, r));
    var now := Run(env, INITIAL, before).clock;
    AfterMarkOffline(env, before, r);
    RunConcat(env, INITIAL, AtMarkOffline(before, r), r.mid);
    RunLast(env, INITIAL, AtMarkOffline(before, r) + r.mid, Sweep(r.sweep, MarkDegraded));
    var last := Run(env, marked, r.mid);
    StretchSweeps(env, marked, r.mid, r.sweep);
    StretchBeats(env, marked, r.mid, n);
    DegradedIsExact(env, now, marked.nodes, LastBeat(env, marked, r.mid, n), n, last.nodes[n]);
  }

  /**
   * Such a heartbeat can land. On any open stream, a hello that read the clock
   * over six intervals before it was written, arriving between the statements of
   * a lone sweep, leaves its node degraded where its silence deserves offline.
   */
  lemma {:induction false} StaleBeatMisleads(env: Env, before: seq<Event>, c: nat, w: nat, host: HostColumns,
                                             newId: nat -> string)
    requires var s := Run(env, INITIAL, before); IsOpen(s, c) && w !in s.sweeps
    ensures var start := Run(env, INITIAL, before);
            var r := Round(w, [], [StaleHello(env, start.clock, c, host, newId)]);
            var s, n := Run(env, INITIAL, AtMarkDegraded(before, r)), StreamNode(start, c);
            && Serial(env, before, r) && n in s.nodes
            && s.nodes[n].status == Degraded && Classify(env, start.clock, s.nodes[n].lastSeenAt) == Offline
  {
    var start := Run(env, INITIAL, before);
    var hello, n := StaleHello(env, start.clock, c, host, newId), StreamNode(start, c);
    var r := Round(w, [], [hello]);
    var marked := Run(env, INITIAL, AtMarkOffline(before, r));
    StreamOutlastsMarking(env, before, r, c);
    assert IsBeat(marked, hello, n);
    OneBeat(env, marked, hello, n);
    NodesOutlastRound(env, before, r, n);
    SweepEndsExact(env, before, r, n);
  }

  function StaleHello(env: Env, now: int, c: nat, host: HostColumns, newId: nat -> string): Event {
    Deliver(c, Hello(host), now - 6 * env.intervalMs - 1, newId)
  }

  lemma OneBeat(env: Env, s: State, e: Event, n: NodeId)
    requires IsBeat(s, e, n)
    ensures LastBeat(env, s, [e], n) == Some(e.stamp)
  {
    assert [e][..0] == [];
  }

  /** A stream open before a sweep is open after its first statement, for the same node of the same tenant. */
  lemma StreamOutlastsMarking(env: Env, before: seq<Event>, r: Round, c: nat)
    requires IsOpen(Run(env, INITIAL, before), c) && r.early == []
    ensures var start, s := Run(env, INITIAL, before), Run(env, INITIAL, AtMarkOffline(before, r));
            && IsOpen(s, c) && StreamNode(s, c) == StreamNode(start, c) && s.clock == start.clock
            && StreamNode(s, c) in s.nodes && s.nodes[StreamNode(s, c)].orgId == StreamOrg(s, c)
  {
    var begin, first := Sweep(r.sweep, Begin), Sweep(r.sweep, MarkOffline);
    assert AtMarkOffline(before, r) == before + [begin] + [first];
    RunKeepsOwned(env, INITIAL, AtMarkOffline(before, r));
    RunLast(env, INITIAL, before, begin);
    RunLast(env, INITIAL, before + [begin], first);
    SweepLeavesStreams(env, Run(env, INITIAL, before), r.sweep, Begin);
    SweepLeavesStreams(env, Run(env, INITIAL, before + [begin]), r.sweep, MarkOffline);
    var s := Run(env, INITIAL, AtMarkOffline(before, r));
    assert PhaseOwned(s.nodes, s.auths[c].phase);
  }

  lemma SweepLeavesStreams(env: Env, s: State, w: nat, e: SweepEvent)
    ensures var s' := Step(env, s, Sweep(w, e)); s'.auths == s.auths && s'.clock == s.clock
  {
  }

  lemma NodesOutlastRound(env: Env, before: seq<Event>, r: Round, n: NodeId)
    requires n in Run(env, INITIAL, AtMarkOffline(before, r)).nodes
    ensures n in Run(env, INITIAL, AtMarkDegraded(before, r)).nodes
  {
    var marked := AtMarkOffline(before, r);
    RunConcat(env, INITIAL, marked, r.mid + [Sweep(r.sweep, MarkDegraded)]);
    assert marked + (r.mid + [Sweep(r.sweep, MarkDegraded)]) == AtMarkDegraded(before, r);
    if n !in Run(env, INITIAL, AtMarkDegraded(before, r)).nodes {
      NeverBeaten(env, Run(env, INITIAL, marked), r.mid + [Sweep(r.sweep, MarkDegraded)], n);
    }
  }

  /** Heartbeats written within six intervals are never stale, so every node is then exact. */
  lemma {:induction false} PromptBeatsKeepSweepsExact(env: Env, before: seq<Event>, r: Round, n: NodeId)
    requires Serial(env, before, r) && n in Run(env, INITIAL, AtMarkDegraded(before, r)).nodes
    requires forall i :: 0 <= i < |r.mid| && r.mid[i].Deliver? ==>
               Run(env, INITIAL, before).clock - 6 * env.intervalMs <= r.mid[i].stamp
    ensures var s := Run(env, INITIAL, AtMarkDegraded(before, r));
            s.nodes[n].status == Classify(env, Run(env, INITIAL, before).clock, s.nodes[n].lastSeenAt)
  {
    var oldest := Run(env, INITIAL, before).clock - 6 * env.intervalMs;
    LastBeatRecent(env, Run(env, INITIAL, AtMarkOffline(before, r)), r.mid, n, oldest);
    SweepEndsExact(env, before, r, n);
  }

  lemma {:induction false} LastBeatRecent(env: Env, s: State, events: seq<Event>, n: NodeId, bound: int)
    requires forall i :: 0 <= i < |events| && events[i].Deliver? ==> bound <= events[i].stamp
    ensures LastBeat(env, s, events, n).Some? ==> bound <= LastBeat(env, s, events, n).value
    decreases |events|
  {
    if events != [] {
      LastBeatRecent(env, s, events[..|events| - 1], n, bound);
    }
  }

  // ----- Silence is noticed in time

  /** A sweep, and whatever follows it until the next one begins. */
  datatype Cycle = Cycle(round: Round, rest: seq<Event>)

  function AfterCycles(before: seq<Event>, cycles: seq<Cycle>): seq<Event> {
    if cycles == [] then before
    else
      var last := cycles[|cycles| - 1];
      AtMarkDegraded(AfterCycles(before, cycles[..|cycles| - 1]), last.round) + last.rest
  }

  /** No sweep overlaps another, and `n` sends nothing from the first sweep on. */
  ghost predicate SilentCycle(env: Env, before: seq<Event>, c: Cycle, n: NodeId) {
    && Serial(env, before, c.round) && NoStatements(c.rest)
    && LastBeat(env, Run(env, INITIAL, before + [Sweep(c.round.sweep, Begin)]), c.round.early, n).None?
    && LastBeat(env, Run(env, INITIAL, AtMarkOffline(before, c.round)), c.round.mid, n).None?
    && LastBeat(env, Run(env, INITIAL, AtMarkDegraded(before, c.round)), c.rest, n).None?
  }

  ghost predicate LastSeen(env: Env, events: seq<Event>, n: NodeId, seen: int) {
    n in Run(env, INITIAL, events).nodes && Run(env, INITIAL, events).nodes[n].lastSeenAt == Some(seen)
  }

  lemma SilentStretch(env: Env, before: seq<Event>, events: seq<Event>, n: NodeId, seen: int)
    requires LastSeen(env, before, n, seen) && NoStatements(events)
    requires LastBeat(env, Run(env, INITIAL, before), events, n).None?
    ensures LastSeen(env, before + events, n, seen)
    ensures Run(env, INITIAL, before + events).nodes[n].status == Run(env, INITIAL, before).nodes[n].status
  {
    var s := Run(env, INITIAL, before);
    RunConcat(env, INITIAL, before, events);
    if n !in Run(env, s, events).nodes {
      NeverBeaten(env, s, events, n);
    }
    StretchBeats(env, s, events, n);
  }

  lemma StatementKeepsSeen(env: Env, before: seq<Event>, w: nat, e: SweepEvent, n: NodeId, seen: int)
    requires LastSeen(env, before, n, seen)
    ensures LastSeen(env, before + [Sweep(w, e)], n, seen)
  {
    RunLast(env, INITIAL, before, Sweep(w, e));
  }

  /** Through one cycle of silence a node comes to exactly the status its silence deserved when the sweep began. */
  lemma SilentCycleClassifies(env: Env, before: seq<Event>, c: Cycle, n: NodeId, seen: int)
    requires SilentCycle(env, before, c, n) && LastSeen(env, before, n, seen)
    ensures var after := AtMarkDegraded(before, c.round) + c.rest;
            && LastSeen(env, after, n, seen)
            && Run(env, INITIAL, after).nodes[n].status == Classify(env, Run(env, INITIAL, before).clock, Some(seen))
  {
    var r := c.round;
    StatementKeepsSeen(env, before, r.sweep, Begin, n, seen);
    SilentStretch(env, before + [Sweep(r.sweep, Begin)], r.early, n, seen);
    StatementKeepsSeen(env, before + [Sweep(r.sweep, Begin)] + r.early, r.sweep, MarkOffline, n, seen);
    SilentStretch(env, AtMarkOffline(before, r), r.mid, n, seen);
    StatementKeepsSeen(env, AtMarkOffline(before, r) + r.mid, r.sweep, MarkDegraded, n, seen);
    SweepEndsExact(env, before, r, n);
    SilentStretch(env, AtMarkDegraded(before, r), c.rest, n, seen);
  }

  /** The instant the i-th sweep captures. */
  function SweepTime(env: Env, before: seq<Event>, cycles: seq<Cycle>, i: nat): int
    requires i <= |cycles|
  {
    Run(env, INITIAL, AfterCycles(before, cycles[..i])).clock
  }

  ghost predicate SilentCycles(env: Env, before: seq<Event>, cycles: seq<Cycle>, n: NodeId) {
    forall i :: 0 <= i < |cycles| ==> SilentCycle(env, AfterCycles(before, cycles[..i]), cycles[i], n)
  }

  lemma AfterOneMore(before: seq<Event>, cycles: seq<Cycle>, i: nat)
    requires i < |cycles|
    ensures AfterCycles(before, cycles[..i + 1])
         == AtMarkDegraded(AfterCycles(before, cycles[..i]), cycles[i].round) + cycles[i].rest
  {
    assert cycles[..i + 1][..i] == cycles[..i];
  }

  /** What the i-th cycle does to a node silent throughout. */
  lemma {:induction false} CycleClassifies(env: Env, before: seq<Event>, cycles: seq<Cycle>, n: NodeId, seen: int,
                                           i: nat)
    requires i < |cycles| && SilentCycles(env, before, cycles, n)
    requires LastSeen(env, AfterCycles(before, cycles[..i]), n, seen)
    ensures LastSeen(env, AfterCycles(before, cycles[..i + 1]), n, seen)
    ensures Run(env, INITIAL, AfterCycles(before, cycles[..i + 1])).nodes[n].status
         == Classify(env, SweepTime(env, before, cycles, i), Some(seen))
  {
    AfterOneMore(before, cycles, i);
    SilentCycleClassifies(env, AfterCycles(before, cycles[..i]), cycles[i], n, seen);
  }

  lemma {:induction false} SilenceLasts(env: Env, before: seq<Event>, cycles: seq<Cycle>, n: NodeId, seen: int, i: nat)
    requires SilentCycles(env, before, cycles, n) && LastSeen(env, before, n, seen) && i <= |cycles|
    ensures LastSeen(env, AfterCycles(before, cycles[..i]), n, seen)
  {
    if i > 0 {
      SilenceLasts(env, before, cycles, n, seen, i - 1);
      CycleClassifies(env, before, cycles, n, seen, i - 1);
    }
  }

  /** Times that start at or below a level, end above it and never jump by more than `gap` land just above it. */
  lemma {:induction false} Crossing(times: seq<int>, level: int, gap: nat) returns (i: nat)
    requires |times| > 0 && times[0] <= level < times[|times| - 1]
    requires forall j :: 0 < j < |times| ==> times[j] <= times[j - 1] + gap
    ensures i < |times| && level < times[i] <= level + gap
  {
    i := |times| - 1;
    if times[i - 1] > level {
      i := Crossing(times[..i], level, gap);
    }
  }

  lemma {:induction false} NoticedBy(env: Env, before: seq<Event>, cycles: seq<Cycle>, n: NodeId, seen: int,
                                     allowance: int, gap: nat)
    returns (i: nat)
    requires |cycles| > 0 && SilentCycles(env, before, cycles, n) && LastSeen(env, before, n, seen)
    requires SweepTime(env, before, cycles, 0) <= seen + allowance < SweepTime(env, before, cycles, |cycles| - 1)
    requires forall j :: 0 < j < |cycles| ==>
               SweepTime(env, before, cycles, j) <= SweepTime(env, before, cycles, j - 1) + gap
    ensures i < |cycles|
    ensures seen + allowance < SweepTime(env, before, cycles, i) <= seen + allowance + gap
    ensures LastSeen(env, AfterCycles(before, cycles[..i + 1]), n, seen)
    ensures Run(env, INITIAL, AfterCycles(before, cycles[..i + 1])).nodes[n].status
         == Classify(env, SweepTime(env, before, cycles, i), Some(seen))
  {
    var times := seq(|cycles|, j requires 0 <= j < |cycles| => SweepTime(env, before, cycles, j));
    i := Crossing(times, seen + allowance, gap);
    SilenceLasts(env, before, cycles, n, seen, i);
    CycleClassifies(env, before, cycles, n, seen, i);
  }

  /**
   * Bounded detection. With sweeps at most `gap` apart, a node silent since
   * `seen` is no longer online after a sweep at most three intervals and a gap
   * later.
   */
  lemma {:induction false} SilenceIsNoticed(env: Env, before: seq<Event>, cycles: seq<Cycle>, n: NodeId, seen: int,
                                            gap: nat)
    requires |cycles| > 0 && SilentCycles(env, before, cycles, n) && LastSeen(env, before, n, seen)
    requires SweepTime(env, before, cycles, 0) <= seen + 3 * env.intervalMs
    requires seen + 3 * env.intervalMs < SweepTime(env, before, cycles, |cycles| - 1)
    requires forall j :: 0 < j < |cycles| ==>
               SweepTime(env, before, cycles, j) <= SweepTime(env, before, cycles, j - 1) + gap
    ensures var deadline, down := seen + 3 * env.intervalMs + gap, {Degraded, Offline};
            exists i :: NoticedAt(env, before, cycles, n, i, deadline, down)
  {
    var i := NoticedBy(env, before, cycles, n, seen, 3 * env.intervalMs, gap);
    assert NoticedAt(env, before, cycles, n, i, seen + 3 * env.intervalMs + gap, {Degraded, Offline});
  }

  /** And it is offline after a sweep at most six intervals and a gap later. */
  lemma {:induction false} SilenceGoesOffline(env: Env, before: seq<Event>, cycles: seq<Cycle>, n: NodeId, seen: int,
                                              gap: nat)
    requires |cycles| > 0 && SilentCycles(env, before, cycles, n) && LastSeen(env, before, n, seen)
    requires SweepTime(env, before, cycles, 0) <= seen + 6 * env.intervalMs
    requires seen + 6 * env.intervalMs < SweepTime(env, before, cycles, |cycles| - 1)
    requires forall j :: 0 < j < |cycles| ==>
               SweepTime(env, before, cycles, j) <= SweepTime(env, before, cycles, j - 1) + gap
    ensures var deadline, down := seen + 6 * env.intervalMs + gap, {Offline};
            exists i :: NoticedAt(env, before, cycles, n, i, deadline, down)
  {
    var i := NoticedBy(env, before, cycles, n, seen, 6 * env.intervalMs, gap);
    assert NoticedAt(env, before, cycles, n, i, seen + 6 * env.intervalMs + gap, {Offline});
  }

  /** After the i-th sweep, which captured an instant no later than `deadline`, the node has one of `statuses`. */
  ghost predicate NoticedAt(env: Env, before: seq<Event>, cycles: seq<Cycle>, n: NodeId, i: int, deadline: int,
                            statuses: set<Status>)
  {
    && 0 <= i < |cycles| && SweepTime(env, before, cycles, i) <= deadline
    && var s := Run(env, INITIAL, AfterCycles(before, cycles[..i + 1]));
       n in s.nodes && s.nodes[n].status in statuses
  }
}
