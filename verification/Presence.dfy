/** When a connected agent stays online: what the sweep makes of an agent whose probes stop answering. */
module Presence {
  import opened Base
  import opened Fleet
  import opened Enrollment
  import opened NodeAuth
  import opened System
  import opened Tenancy
  import opened Liveness
  import opened Stream
  import Agent

  /** A tick of the agent's sampler, and the instant the server stamps what comes of it. */
  datatype TimedTick = TimedTick(sampler: Agent.Sampler, at: int)

  /** At least one device could be sampled. */
  ghost predicate Answers(inv: Agent.Inventory, sampler: Agent.Sampler)
    requires Agent.Complete(inv)
  {
    exists i :: 0 <= i < |inv.devices| && sampler(inv.owner[inv.devices[i].localId], inv.devices[i]).Some?
  }

  /** What the agent sends for a run of ticks, and when it is received; a tick nobody answers sends nothing. */
  function TimedBatches(inv: Agent.Inventory, ticks: seq<TimedTick>): seq<(Message, int)>
    requires Agent.Complete(inv)
  {
    if ticks == [] then []
    else
      var tick := ticks[|ticks| - 1];
      var samples := Agent.Successes(inv.owner, inv.devices, tick.sampler);
      TimedBatches(inv, ticks[..|ticks| - 1]) +
      if samples == [] then [] else [(Samples(Agent.SampleProtos(samples)), tick.at)]
  }

  function Samplers(ticks: seq<TimedTick>): (samplers: seq<Agent.Sampler>)
    ensures |samplers| == |ticks|
  {
    seq(|ticks|, i requires 0 <= i < |ticks| => ticks[i].sampler)
  }

  function Untimed(received: seq<(Message, int)>): (messages: seq<Message>)
    ensures |messages| == |received|
  {
    seq(|received|, i requires 0 <= i < |received| => received[i].0)
  }

  lemma BatchesLast(inv: Agent.Inventory, front: seq<TimedTick>, tick: TimedTick)
    requires Agent.Complete(inv)
    ensures var samples := Agent.Successes(inv.owner, inv.devices, tick.sampler);
            Agent.Batches(inv, Samplers(front + [tick])) == Agent.Batches(inv, Samplers(front)) +
            if samples == [] then [] else [Samples(Agent.SampleProtos(samples))]
  {
    var all := Samplers(front + [tick]);
    assert all[..|front|] == Samplers(front) && all[|front|] == tick.sampler;
  }

  lemma TimedBatchesLast(inv: Agent.Inventory, front: seq<TimedTick>, tick: TimedTick)
    requires Agent.Complete(inv)
    ensures var samples := Agent.Successes(inv.owner, inv.devices, tick.sampler);
            TimedBatches(inv, front + [tick]) == TimedBatches(inv, front) +
            if samples == [] then [] else [(Samples(Agent.SampleProtos(samples)), tick.at)]
  {
    assert (front + [tick])[..|front|] == front;
  }

  /** These are the messages of `Agent.Batches`, with instants. */
  lemma {:induction false} TimedBatchesAreBatches(inv: Agent.Inventory, ticks: seq<TimedTick>)
    requires Agent.Complete(inv)
    ensures Untimed(TimedBatches(inv, ticks)) == Agent.Batches(inv, Samplers(ticks))
    decreases |ticks|
  {
    if |ticks| == 0 {
      assert Samplers(ticks) == [];
    } else {
      var front, tick := Unsnoc(ticks);
      TimedBatchesAreBatches(inv, front);
      BatchesLast(inv, front, tick);
      TimedBatchesLast(inv, front, tick);
    }
  }

  /** The instant of the last tick that somebody answered. */
  ghost function LastAnswer(inv: Agent.Inventory, ticks: seq<TimedTick>, since: int): int
    requires Agent.Complete(inv)
  {
    if ticks == [] then since
    else if Answers(inv, ticks[|ticks| - 1].sampler) then ticks[|ticks| - 1].at
    else LastAnswer(inv, ticks[..|ticks| - 1], since)
  }

  // ----- What the server receives

  function Received(env: Env, s: State, events: seq<Event>, n: NodeId): seq<(Message, int)> {
    if events == [] then []
    else
      var front, e := events[..|events| - 1], events[|events| - 1];
      Received(env, s, front, n) + if DeliveredTo(Run(env, s, front), e, n) then [(e.message, e.stamp)] else []
  }

  lemma ReceivedLast(env: Env, s: State, front: seq<Event>, e: Event, n: NodeId)
    ensures Received(env, s, front + [e], n)
         == Received(env, s, front, n) + if DeliveredTo(Run(env, s, front), e, n) then [(e.message, e.stamp)] else []
  {
    assert (front + [e])[..|front|] == front;
  }

  /** These are the messages `MessagesTo` lists, with their stamps. */
  lemma {:induction false} ReceivedAreMessages(env: Env, s: State, events: seq<Event>, n: NodeId)
    ensures Untimed(Received(env, s, events, n)) == MessagesTo(env, s, events, n)
    decreases |events|
  {
    if |events| > 0 {
      var front, e := Unsnoc(events);
      ReceivedAreMessages(env, s, front, n);
      ReceivedLast(env, s, front, e, n);
      MessagesLast(env, s, front, e, n);
    }
  }

  predicate AllSamples(received: seq<(Message, int)>) { forall i :: 0 <= i < |received| ==> received[i].0.Samples? }

  function LastStamp(received: seq<(Message, int)>, since: int): int {
    if received == [] then since else received[|received| - 1].1
  }

  ghost predicate SeenAt(s: State, n: NodeId, seen: int) { n in s.nodes && s.nodes[n].lastSeenAt == Some(seen) }

  lemma SampleIsSeen(env: Env, s: State, e: Event, n: NodeId)
    requires Owned(s) && DeliveredTo(s, e, n) && e.message.Samples?
    ensures SeenAt(Step(env, s, e), n, e.stamp)
  {
    assert PhaseOwned(s.nodes, s.auths[e.conn].phase);
    DeliverBeats(s, e, n);
  }

  /** Nothing but its own messages changes when a node was last seen; sweeps in particular do not. */
  lemma OthersKeepSeen(env: Env, s: State, e: Event, n: NodeId, seen: int)
    requires SeenAt(s, n, seen) && !DeliveredTo(s, e, n)
    ensures SeenAt(Step(env, s, e), n, seen)
  {
    if IsStatement(e) {
      StatementSeen(env, s, e.sweep, e.statement, n, seen);
    } else {
      StepKeepsNodes(env, s, e);
      StepBeats(env, s, e, n);
    }
  }

  lemma StatementSeen(env: Env, s: State, w: nat, e: SweepEvent, n: NodeId, seen: int)
    requires SeenAt(s, n, seen)
    ensures SeenAt(SweepStep(env, s, w, e), n, seen)
  {
  }

  /** Over any run, sweeps included, a node was last seen at the stamp of the last batch received from it. */
  lemma {:induction false} LastReceivedIsLastSeen(env: Env, s: State, events: seq<Event>, n: NodeId, since: int)
    requires Owned(s) && SeenAt(s, n, since) && AllSamples(Received(env, s, events, n))
    ensures SeenAt(Run(env, s, events), n, LastStamp(Received(env, s, events, n), since))
    decreases |events|
  {
    if |events| > 0 {
      var front, e := Unsnoc(events);
      var mid, received := Run(env, s, front), Received(env, s, front, n);
      ReceivedLast(env, s, front, e, n);
      RunLast(env, s, front, e);
      assert forall i :: 0 <= i < |received| ==> received[i] == Received(env, s, events, n)[i];
      LastReceivedIsLastSeen(env, s, front, n, since);
      if DeliveredTo(mid, e, n) {
        RunKeepsOwned(env, s, front);
        assert Received(env, s, events, n)[|received|] == (e.message, e.stamp);
        SampleIsSeen(env, mid, e, n);
      } else {
        OthersKeepSeen(env, mid, e, n, LastStamp(received, since));
      }
    }
  }

  // ----- What the agent's ticks amount to

  lemma AnswersExactly(inv: Agent.Inventory, sampler: Agent.Sampler)
    requires Agent.Complete(inv)
    ensures Answers(inv, sampler) <==> Agent.Successes(inv.owner, inv.devices, sampler) != []
  {
    var samples := Agent.Successes(inv.owner, inv.devices, sampler);
    SuccessesAre(inv.owner, inv.devices, sampler);
    if samples != [] {
      assert samples[0] in samples;
    }
    if i :| 0 <= i < |inv.devices| && sampler(inv.owner[inv.devices[i].localId], inv.devices[i]).Some? {
      assert sampler(inv.owner[inv.devices[i].localId], inv.devices[i]).value in samples;
    }
  }

  lemma {:induction false} LastBatchIsLastAnswer(inv: Agent.Inventory, ticks: seq<TimedTick>, since: int)
    requires Agent.Complete(inv)
    ensures AllSamples(TimedBatches(inv, ticks))
    ensures LastStamp(TimedBatches(inv, ticks), since) == LastAnswer(inv, ticks, since)
  {
    if ticks != [] {
      LastBatchIsLastAnswer(inv, ticks[..|ticks| - 1], since);
      AnswersExactly(inv, ticks[|ticks| - 1].sampler);
    }
  }

  /** One stream is served in order on one clock. */
  ghost predicate InOrder(ticks: seq<TimedTick>, since: int) {
    && (forall t :: 0 <= t < |ticks| ==> since <= ticks[t].at)
    && (forall t, u :: 0 <= t < u < |ticks| ==> ticks[t].at <= ticks[u].at)
  }

  ghost predicate AnsweredSince(inv: Agent.Inventory, ticks: seq<TimedTick>, bound: int)
    requires Agent.Complete(inv)
  {
    exists t :: 0 <= t < |ticks| && bound <= ticks[t].at && Answers(inv, ticks[t].sampler)
  }

  lemma {:induction false} LastAnswerRecent(inv: Agent.Inventory, ticks: seq<TimedTick>, since: int, bound: int)
    requires Agent.Complete(inv) && InOrder(ticks, since)
    ensures bound <= LastAnswer(inv, ticks, since) <==> bound <= since || AnsweredSince(inv, ticks, bound)
  {
    if |ticks| > 0 {
      var front, last := ticks[..|ticks| - 1], ticks[|ticks| - 1];
      LastAnswerRecent(inv, front, since, bound);
      if Answers(inv, last.sampler) {
        assert bound <= last.at ==> AnsweredSince(inv, ticks, bound);
      } else if t :| 0 <= t < |ticks| && bound <= ticks[t].at && Answers(inv, ticks[t].sampler) {
        assert front[t] == ticks[t];
      }
      if t :| 0 <= t < |front| && bound <= front[t].at && Answers(inv, front[t].sampler) {
        assert ticks[t] == front[t];
      }
    }
  }

  // ----- The theorem

  /** The agent's connection as the server sees it: last seen at `since`, then only the batches of these ticks. */
  ghost predicate Talks(env: Env, before: seq<Event>, events: seq<Event>, n: NodeId, inv: Agent.Inventory,
                        ticks: seq<TimedTick>, since: int)
    requires Agent.Complete(inv)
  {
    && SeenAt(Run(env, INITIAL, before), n, since)
    && Received(env, Run(env, INITIAL, before), events, n) == TimedBatches(inv, ticks)
  }

  lemma {:induction false} LastHeard(env: Env, before: seq<Event>, events: seq<Event>, n: NodeId, inv: Agent.Inventory,
                                     ticks: seq<TimedTick>, since: int)
    requires Agent.Complete(inv) && Talks(env, before, events, n, inv, ticks, since)
    ensures SeenAt(Run(env, INITIAL, before + events), n, LastAnswer(inv, ticks, since))
  {
    RunKeepsOwned(env, INITIAL, before);
    LastBatchIsLastAnswer(inv, ticks, since);
    LastReceivedIsLastSeen(env, Run(env, INITIAL, before), events, n, since);
    RunConcat(env, INITIAL, before, events);
  }

  /** Even a stale heartbeat between the statements leaves no node online that should not be. */
  lemma {:induction false} OnlineWhenRecent(env: Env, before: seq<Event>, r: Round, n: NodeId, seen: int)
    requires Serial(env, before, r) && SeenAt(Run(env, INITIAL, AtMarkDegraded(before, r)), n, seen)
    ensures Run(env, INITIAL, AtMarkDegraded(before, r)).nodes[n].status == Online
       <==> Run(env, INITIAL, before).clock - 3 * env.intervalMs <= seen
  {
    SweepEndsExact(env, before, r, n);
  }

  /**
   * A connected agent is online at the end of a sweep if and only if, in the three
   * intervals before the sweep began, it was last seen before its ticks or some
   * device answered some tick. An open stream alone does not count, and nothing
   * else that happened matters.
   */
  lemma {:induction false} OnlineExactlyWhileAnswering(env: Env, before: seq<Event>, events: seq<Event>,
                                                       upTo: seq<Event>, r: Round, n: NodeId, inv: Agent.Inventory,
                                                       ticks: seq<TimedTick>, since: int)
    requires Serial(env, upTo, r) && AtMarkDegraded(upTo, r) == before + events
    requires Agent.Complete(inv) && InOrder(ticks, since) && Talks(env, before, events, n, inv, ticks, since)
    ensures var s, bound := Run(env, INITIAL, before + events), Run(env, INITIAL, upTo).clock - 3 * env.intervalMs;
            n in s.nodes && (s.nodes[n].status == Online <==> bound <= since || AnsweredSince(inv, ticks, bound))
    ensures MessagesTo(env, Run(env, INITIAL, before), events, n) == Agent.Batches(inv, Samplers(ticks))
  {
    ReceivedAreMessages(env, Run(env, INITIAL, before), events, n);
    TimedBatchesAreBatches(inv, ticks);
    LastHeard(env, before, events, n, inv, ticks, since);
    OnlineWhenAnswered(env, upTo, r, n, inv, ticks, since);
  }

  lemma {:induction false} OnlineWhenAnswered(env: Env, before: seq<Event>, r: Round, n: NodeId, inv: Agent.Inventory,
                                              ticks: seq<TimedTick>, since: int)
    requires Agent.Complete(inv) && InOrder(ticks, since) && Serial(env, before, r)
    requires SeenAt(Run(env, INITIAL, AtMarkDegraded(before, r)), n, LastAnswer(inv, ticks, since))
    ensures var bound := Run(env, INITIAL, before).clock - 3 * env.intervalMs;
            Run(env, INITIAL, AtMarkDegraded(before, r)).nodes[n].status == Online
            <==> bound <= since || AnsweredSince(inv, ticks, bound)
  {
    OnlineWhenRecent(env, before, r, n, LastAnswer(inv, ticks, since));
    LastAnswerRecent(inv, ticks, since, Run(env, INITIAL, before).clock - 3 * env.intervalMs);
  }

  /** And at every other moment, an agent with an answer in the last three intervals is online. */
  lemma {:induction false} AnsweringIsOnline(env: Env, before: seq<Event>, talk: seq<Event>, n: NodeId,
                                             inv: Agent.Inventory, ticks: seq<TimedTick>, since: int)
    requires Agent.Complete(inv) && InOrder(ticks, since) && Talks(env, before, talk, n, inv, ticks, since)
    requires AnsweredSince(inv, ticks, Run(env, INITIAL, before + talk).clock - 3 * env.intervalMs)
    ensures n in Run(env, INITIAL, before + talk).nodes
    ensures Run(env, INITIAL, before + talk).nodes[n].status == Online
  {
    LastHeard(env, before, talk, n, inv, ticks, since);
    LastAnswerRecent(inv, ticks, since, Run(env, INITIAL, before + talk).clock - 3 * env.intervalMs);
    NoFalseAlarms(env, before + talk, n);
  }

  // ----- An open stream is not enough

  lemma {:induction false} StreamsStayOpen(env: Env, s: State, events: seq<Event>, c: nat)
    requires IsOpen(s, c)
    ensures IsOpen(Run(env, s, events), c) && StreamNode(Run(env, s, events), c) == StreamNode(s, c)
    decreases |events|
  {
    if |events| > 0 {
      var front, e := Unsnoc(events);
      StreamsStayOpen(env, s, front, c);
      RunLast(env, s, front, e);
      StepKeepsOpen(env, Run(env, s, front), e, c);
    }
  }

  lemma StepKeepsOpen(env: Env, s: State, e: Event, c: nat)
    requires IsOpen(s, c)
    ensures IsOpen(Step(env, s, e), c) && StreamNode(Step(env, s, e), c) == StreamNode(s, c)
  {
    if !e.Auth? {
      StepFrame(env, s, e);
    }
  }

  /** From some moment on: the rest of the run up to the end of a sweep. */
  function UpToSweep(talk: seq<Event>, r: Round): seq<Event> {
    talk + [Sweep(r.sweep, Begin)] + r.early + [Sweep(r.sweep, MarkOffline)] + r.mid + [Sweep(r.sweep, MarkDegraded)]
  }

  lemma UpToSweepEnds(before: seq<Event>, talk: seq<Event>, r: Round)
    ensures AtMarkDegraded(before + talk, r) == before + UpToSweep(talk, r)
  {
  }

  lemma {:induction false} ReceivedConcat(env: Env, s: State, first: seq<Event>, second: seq<Event>, n: NodeId)
    ensures Received(env, s, first + second, n)
         == Received(env, s, first, n) + Received(env, Run(env, s, first), second, n)
    decreases |second|
  {
    if |second| == 0 {
      assert first + second == first;
    } else {
      var front, e := Unsnoc(second);
      ReceivedConcat(env, s, first, front, n);
      ReceivedLast(env, s, first + front, e, n);
      ReceivedLast(env, Run(env, s, first), front, e, n);
      RunConcat(env, s, first, front);
      assert first + second == (first + front) + [e];
    }
  }

  lemma {:induction false} NothingReceivedNoBeat(env: Env, s: State, events: seq<Event>, n: NodeId)
    requires Received(env, s, events, n) == []
    ensures LastBeat(env, s, events, n) == None
    decreases |events|
  {
    if events != [] {
      NothingReceivedNoBeat(env, s, events[..|events| - 1], n);
    }
  }

  lemma {:induction false} MuteTicksSendNothing(inv: Agent.Inventory, ticks: seq<TimedTick>)
    requires Agent.Complete(inv) && forall t :: 0 <= t < |ticks| ==> !Answers(inv, ticks[t].sampler)
    ensures TimedBatches(inv, ticks) == []
  {
    if ticks != [] {
      MuteTicksSendNothing(inv, ticks[..|ticks| - 1]);
      AnswersExactly(inv, ticks[|ticks| - 1].sampler);
    }
  }

  /** If nothing is received in a run, no heartbeat landed in the middle of it. */
  lemma {:induction false} QuietMiddle(env: Env, s: State, first: seq<Event>, mid: seq<Event>, last: seq<Event>,
                                       n: NodeId)
    requires Received(env, s, first + mid + last, n) == []
    ensures LastBeat(env, Run(env, s, first), mid, n) == None
  {
    ReceivedConcat(env, s, first + mid, last, n);
    ReceivedConcat(env, s, first, mid, n);
    NothingReceivedNoBeat(env, Run(env, s, first), mid, n);
  }

  function UpToMarking(talk: seq<Event>, r: Round): seq<Event> {
    talk + [Sweep(r.sweep, Begin)] + r.early + [Sweep(r.sweep, MarkOffline)]
  }

  lemma UpToMarkingEnds(before: seq<Event>, talk: seq<Event>, r: Round)
    ensures UpToSweep(talk, r) == UpToMarking(talk, r) + r.mid + [Sweep(r.sweep, MarkDegraded)]
    ensures AtMarkOffline(before + talk, r) == before + UpToMarking(talk, r)
  {
  }

  lemma {:induction false} QuietSweep(env: Env, before: seq<Event>, talk: seq<Event>, r: Round, n: NodeId)
    requires Received(env, Run(env, INITIAL, before), UpToSweep(talk, r), n) == []
    ensures LastBeat(env, Run(env, INITIAL, AtMarkOffline(before + talk, r)), r.mid, n) == None
  {
    UpToMarkingEnds(before, talk, r);
    RunConcat(env, INITIAL, before, UpToMarking(talk, r));
    QuietMiddle(env, Run(env, INITIAL, before), UpToMarking(talk, r), r.mid, [Sweep(r.sweep, MarkDegraded)], n);
  }

  /**
   * An agent that is connected and ticking, but none of whose devices can be
   * sampled, is swept like a dead one: degraded after three intervals, offline
   * after six, with its stream still open. The agent sends no empty batch, though
   * the server would have counted one as a heartbeat.
   */
  lemma {:induction false} MuteAgentDropsOff(env: Env, before: seq<Event>, talk: seq<Event>, r: Round, c: nat,
                                             inv: Agent.Inventory, ticks: seq<TimedTick>, since: int)
    requires Agent.Complete(inv) && Serial(env, before + talk, r) && IsOpen(Run(env, INITIAL, before), c)
    requires var n := StreamNode(Run(env, INITIAL, before), c);
             Talks(env, before, UpToSweep(talk, r), n, inv, ticks, since)
    requires forall t :: 0 <= t < |ticks| ==> !Answers(inv, ticks[t].sampler)
    ensures var s, n := Run(env, INITIAL, AtMarkDegraded(before + talk, r)), StreamNode(Run(env, INITIAL, before), c);
            && IsOpen(s, c) && StreamNode(s, c) == n && n in s.nodes
            && s.nodes[n].status == Classify(env, Run(env, INITIAL, before + talk).clock, Some(since))
  {
    var start := Run(env, INITIAL, before);
    MuteTicksSendNothing(inv, ticks);
    MuteNodeClassified(env, before, talk, r, StreamNode(start, c), since);
    UpToSweepEnds(before, talk, r);
    RunConcat(env, INITIAL, before, UpToSweep(talk, r));
    StreamsStayOpen(env, start, UpToSweep(talk, r), c);
  }

  lemma {:induction false} MuteNodeClassified(env: Env, before: seq<Event>, talk: seq<Event>, r: Round, n: NodeId,
                                              since: int)
    requires Serial(env, before + talk, r) && SeenAt(Run(env, INITIAL, before), n, since)
    requires Received(env, Run(env, INITIAL, before), UpToSweep(talk, r), n) == []
    ensures var s := Run(env, INITIAL, AtMarkDegraded(before + talk, r));
            n in s.nodes && s.nodes[n].status == Classify(env, Run(env, INITIAL, before + talk).clock, Some(since))
  {
    RunKeepsOwned(env, INITIAL, before);
    LastReceivedIsLastSeen(env, Run(env, INITIAL, before), UpToSweep(talk, r), n, since);
    UpToSweepEnds(before, talk, r);
    RunConcat(env, INITIAL, before, UpToSweep(talk, r));
    QuietSweep(env, before, talk, r, n);
    SweepEndsExact(env, before + talk, r, n);
  }

  /** The server's side: any batch, even an empty one, is a heartbeat. */
  lemma {:induction false} EmptyBatchIsABeat(env: Env, s: State, c: nat, stamp: int, newId: nat -> string)
    requires Owned(s) && IsOpen(s, c) && stamp <= s.clock
    ensures var s' := Step(env, s, Deliver(c, Samples([]), stamp, newId));
            SeenAt(s', StreamNode(s, c), stamp) && s'.nodes[StreamNode(s, c)].status == Online
  {
    assert PhaseOwned(s.nodes, s.auths[c].phase);
    DeliverBeats(s, Deliver(c, Samples([]), stamp, newId), StreamNode(s, c));
  }

  // ----- Host facts

  /** The host facts of the last hello among these messages, or the ones before. */
  function LastHost(messages: seq<Message>, before: HostColumns): HostColumns {
    if messages == [] then before
    else
      var last := messages[|messages| - 1];
      if last.Hello? then last.host else LastHost(messages[..|messages| - 1], before)
  }

  lemma LastHostGrows(messages: seq<Message>, m: Message, before: HostColumns)
    ensures LastHost(messages + [m], before) == if m.Hello? then m.host else LastHost(messages, before)
  {
    assert (messages + [m])[..|messages|] == messages;
  }

  lemma DeliverHost(s: State, e: Event, n: NodeId)
    requires Owned(s) && e.Deliver? && n in s.nodes
    ensures var after := DeliverStep(s, e.conn, e.message, e.stamp, e.newId).nodes;
            && n in after
            && after[n].host == if DeliveredTo(s, e, n) && e.message.Hello? then e.message.host else s.nodes[n].host
  {
    if IsOpen(s, e.conn) {
      assert PhaseOwned(s.nodes, s.auths[e.conn].phase);
    }
  }

  lemma SweepHost(env: Env, s: State, w: nat, e: SweepEvent, n: NodeId)
    requires n in s.nodes
    ensures var after := SweepStep(env, s, w, e).nodes; n in after && after[n].host == s.nodes[n].host
  {
  }

  lemma EnrollHost(env: Env, s: State, c: nat, e: EnrollEvent, n: NodeId)
    requires n in s.nodes
    ensures var after := EnrollStep(env, s, c, e).nodes; n in after && after[n] == s.nodes[n]
  {
    if c in s.enrolls {
      AdvanceAddsSilentNodes(s.nodes, s.codes, s.enrolls[c], e, s.clock);
    }
  }

  lemma StepHost(env: Env, s: State, e: Event, n: NodeId)
    requires Owned(s) && n in s.nodes
    ensures var after := Step(env, s, e).nodes;
            && n in after
            && after[n].host == if DeliveredTo(s, e, n) && e.message.Hello? then e.message.host else s.nodes[n].host
  {
    match e
    case Deliver(_, _, _, _) => DeliverHost(s, e, n);
    case Sweep(w, statement) => SweepHost(env, s, w, statement, n);
    case Enroll(c, enroll) => EnrollHost(env, s, c, enroll, n);
    case _ => StepFrame(env, s, e);
  }

  /** Over any run a node's host facts are those of its last hello; samples, sweeps and enrollments leave them alone. */
  lemma {:induction false} HostIsLastHello(env: Env, s: State, events: seq<Event>, n: NodeId)
    requires Owned(s) && n in s.nodes
    ensures var after := Run(env, s, events).nodes;
            n in after && after[n].host == LastHost(MessagesTo(env, s, events, n), s.nodes[n].host)
    decreases |events|
  {
    if |events| > 0 {
      var front, e := Unsnoc(events);
      var messages := MessagesTo(env, s, front, n);
      HostIsLastHello(env, s, front, n);
      RunKeepsOwned(env, s, front);
      RunLast(env, s, front, e);
      MessagesLast(env, s, front, e, n);
      StepHost(env, Run(env, s, front), e, n);
      if DeliveredTo(Run(env, s, front), e, n) {
        LastHostGrows(messages, e.message, s.nodes[n].host);
      } else {
        assert messages + [] == messages;
      }
    }
  }
}
