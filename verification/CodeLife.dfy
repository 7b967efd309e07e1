/** A code from minting to redemption: nothing short of a redemption or a crash can use it up. */
module CodeLife {
  import opened Base
  import opened Fleet
  import opened Enrollment
  import opened System
  import opened Redemption
  import Pairing

  // ----- A minted row keeps its tenant, name and expiry

  ghost predicate KeepsCodes(a: Codes, b: Codes) {
    forall h :: h in a ==> h in b && b[h].(usedAt := a[h].usedAt) == a[h]
  }

  lemma AdvanceKeepsCodes(nodes: Nodes, codes: Codes, call: EnrollCall, e: EnrollEvent, now: int)
    ensures KeepsCodes(codes, Advance(nodes, codes, call, e, now).codes)
  {
  }

  lemma OthersKeepCodes(env: Env, s: State, e: Event)
    requires !e.Enroll?
    ensures KeepsCodes(s.codes, Step(env, s, e).codes)
  {
    if !e.Mint? {
      StepFrame(env, s, e);
    }
  }

  lemma StepKeepsCodes(env: Env, s: State, e: Event)
    ensures KeepsCodes(s.codes, Step(env, s, e).codes)
  {
    if e.Enroll? {
      if e.call in s.enrolls {
        AdvanceKeepsCodes(s.nodes, s.codes, s.enrolls[e.call], e.enroll, s.clock);
      }
    } else {
      OthersKeepCodes(env, s, e);
    }
  }

  lemma {:induction false} RunKeepsCodes(env: Env, s: State, events: seq<Event>)
    ensures KeepsCodes(s.codes, Run(env, s, events).codes)
  {
    if events != [] {
      RunKeepsCodes(env, s, events[..|events| - 1]);
      StepKeepsCodes(env, Run(env, s, events[..|events| - 1]), events[|events| - 1]);
    }
  }

  // ----- Runs in which no process dies

  predicate CrashFree(events: seq<Event>) {
    forall i :: 0 <= i < |events| ==> !(events[i].Enroll? && events[i].enroll.Crash?)
  }

  ghost predicate AllAlive(s: State) { forall c :: c in s.enrolls ==> s.enrolls[c].alive }

  lemma AdvanceKeepsAlive(nodes: Nodes, codes: Codes, call: EnrollCall, e: EnrollEvent, now: int)
    requires call.alive && !e.Crash?
    ensures Advance(nodes, codes, call, e, now).call.alive
  {
  }

  lemma {:induction false} CrashFreeRunsStayAlive(env: Env, events: seq<Event>)
    requires CrashFree(events)
    ensures AllAlive(Run(env, INITIAL, events))
  {
    if events != [] {
      var front, e := events[..|events| - 1], events[|events| - 1];
      CrashFreeRunsStayAlive(env, front);
      var s := Run(env, INITIAL, front);
      if e.Enroll? {
        if e.call in s.enrolls {
          AdvanceKeepsAlive(s.nodes, s.codes, s.enrolls[e.call], e.enroll, s.clock);
        }
      } else {
        StepFrame(env, s, e);
      }
    }
  }

  /** Nobody has redeemed the code and no live call is between claiming and releasing it. */
  ghost predicate Untouched(s: State, h: string) {
    forall c :: c in s.enrolls && s.enrolls[c].hash == h ==>
      && !HasRedeemed(s.enrolls[c])
      && !(s.enrolls[c].alive && (s.enrolls[c].phase.Claimed? || s.enrolls[c].phase.Releasing?))
  }

  /** The process of this call died between claiming the code and settling what becomes of it. */
  ghost predicate DiedHolding(s: State, h: string, c: nat) {
    && c in s.enrolls && s.enrolls[c].hash == h && !s.enrolls[c].alive
    && (s.enrolls[c].phase.Claimed? || s.enrolls[c].phase.Releasing?)
  }

  ghost predicate Stranded(s: State, h: string) { exists c :: DiedHolding(s, h, c) }

  /**
   * In every run, an unredeemed code that nobody is working on is free, unless
   * and only unless a process died between claiming it and releasing or
   * redeeming it. Crashes elsewhere do not matter.
   */
  lemma {:induction false} UntouchedCodesAreFreeUnlessStranded(env: Env, events: seq<Event>, h: string)
    requires var s := Run(env, INITIAL, events); h in s.codes && Untouched(s, h)
    ensures var s := Run(env, INITIAL, events); Pairing.Unused(s.codes, h) <==> !Stranded(s, h)
  {
    var s := Run(env, INITIAL, events);
    RunKeepsAccounted(env, INITIAL, events);
    if Used(s.codes, h) {
      var c: nat :| HeldBy(s.enrolls, h, c);
      assert DiedHolding(s, h, c);
    }
    if c :| DiedHolding(s, h, c) {
      assert CallMatches(s.codes, s.nodes, s.enrolls[c]);
    }
  }

  /** With no crashes at all, every unredeemed code that nobody is working on is free. */
  lemma {:induction false} UntouchedCodesAreUnused(env: Env, events: seq<Event>, h: string)
    requires CrashFree(events)
    requires var s := Run(env, INITIAL, events); h in s.codes && Untouched(s, h)
    ensures Pairing.Unused(Run(env, INITIAL, events).codes, h)
  {
    CrashFreeRunsStayAlive(env, events);
    UntouchedCodesAreFreeUnlessStranded(env, events, h);
  }

  /** A call that died holding a code never moves again, so neither does the code. */
  lemma {:induction false} DeadHoldersKeepTheirCode(env: Env, s: State, later: seq<Event>, c: nat)
    requires Accounted(s) && c in s.enrolls && !s.enrolls[c].alive && Holds(s.enrolls[c])
    ensures var s' := Run(env, s, later);
            c in s'.enrolls && s'.enrolls[c] == s.enrolls[c] && Used(s'.codes, s.enrolls[c].hash)
  {
    RunKeepsAccounted(env, s, later);
    if later != [] {
      DeadHoldersKeepTheirCode(env, s, later[..|later| - 1], c);
      StepFrame(env, Run(env, s, later[..|later| - 1]), later[|later| - 1]);
    }
    assert CallMatches(Run(env, s, later).codes, Run(env, s, later).nodes, Run(env, s, later).enrolls[c]);
  }

  /** A stranded code is stranded for good: no later run frees it. */
  lemma {:induction false} StrandedForGood(env: Env, events: seq<Event>, later: seq<Event>, h: string)
    requires Stranded(Run(env, INITIAL, events), h)
    ensures var s := Run(env, INITIAL, events + later); Stranded(s, h) && !Pairing.Unused(s.codes, h)
  {
    var s := Run(env, INITIAL, events);
    var c: nat :| DiedHolding(s, h, c);
    RunKeepsAccounted(env, INITIAL, events);
    DeadHoldersKeepTheirCode(env, s, later, c);
    RunConcat(env, INITIAL, events, later);
    assert DiedHolding(Run(env, INITIAL, events + later), h, c);
  }

  /** It does happen: one crash between a claim and its expiry check strands a fresh code. */
  function Stranding(input: EnrollInput, minted: Event): seq<Event> {
    [minted, Enroll(0, Start(input)), Enroll(0, Claim), Enroll(0, Crash)]
  }

  lemma {:induction false} CrashStrandsCode(env: Env, org: OrgId, user: string, nodeName: string, input: EnrollInput)
    requires |input.publicKey| == 32
    ensures var events := Stranding(input, Mint(org, user, nodeName, input.pairingCode));
            var h := Pairing.HashCode(env, input.pairingCode);
            var s := Run(env, INITIAL, events);
            h in s.codes && Untouched(s, h) && Stranded(s, h)
  {
    var minted := Mint(org, user, nodeName, input.pairingCode);
    var h := Pairing.HashCode(env, input.pairingCode);
    var s1 := Step(env, INITIAL, minted);
    var s2 := Step(env, s1, Enroll(0, Start(input)));
    assert !KeyTaken(s1.nodes, input.publicKey);
    var s3 := Step(env, s2, Enroll(0, Claim));
    var s4 := Step(env, s3, Enroll(0, Crash));
    RunFour(env, INITIAL, minted, Enroll(0, Start(input)), Enroll(0, Claim), Enroll(0, Crash));
    assert s4.enrolls.Keys == {0};
    assert DiedHolding(s4, h, 0);
  }

  // ----- A redemption, step by step

  /** Every statement a redemption may issue; those its branch does not reach change nothing. */
  function RedemptionSteps(c: nat, input: EnrollInput): seq<Event> {
    [Enroll(c, Start(input)), Enroll(c, Claim), Enroll(c, CheckExpiry), Enroll(c, Release), Enroll(c, Diagnose)]
  }

  function PhaseOf(r: Result<(OrgId, string), EnrollError>): EnrollPhase {
    match r
    case Ok((org, name)) => Redeemed(org, name)
    case Err(e) => Failed(e)
  }

  lemma AdvanceThrough(nodes: Nodes, codes: Codes, call: EnrollCall, now: int)
    requires call.phase.Prechecked?
    ensures var a := Advance(nodes, codes, call, Claim, now);
            var b := Advance(a.nodes, a.codes, a.call, CheckExpiry, now);
            var c := Advance(b.nodes, b.codes, b.call, Release, now);
            var d := Advance(c.nodes, c.codes, c.call, Diagnose, now);
            var (result, after) := Pairing.Redeem(codes, call.hash, now);
            d == Advanced(nodes, after, call.(phase := PhaseOf(result)))
  {
  }

  /** The state `s`, but with what one call's steps left behind. */
  function With(s: State, c: nat, a: Advanced): State {
    s.(nodes := a.nodes, codes := a.codes, enrolls := s.enrolls[c := a.call])
  }

  lemma StepAdvances(env: Env, s: State, c: nat, a: Advanced, e: EnrollEvent)
    requires a.call.alive
    ensures Step(env, With(s, c, a), Enroll(c, e)) == With(s, c, Advance(a.nodes, a.codes, a.call, e, s.clock))
  {
    assert s.enrolls[c := a.call][c := Advance(a.nodes, a.codes, a.call, e, s.clock).call]
        == s.enrolls[c := Advance(a.nodes, a.codes, a.call, e, s.clock).call];
  }

  lemma RunRedemptionSteps(env: Env, s: State, c: nat, input: EnrollInput)
    ensures Run(env, s, RedemptionSteps(c, input)) ==
            Step(env, Step(env, Step(env, Step(env, Step(env, s, Enroll(c, Start(input))), Enroll(c, Claim)),
                                     Enroll(c, CheckExpiry)), Enroll(c, Release)), Enroll(c, Diagnose))
  {
    RunFive(env, s, Enroll(c, Start(input)), Enroll(c, Claim), Enroll(c, CheckExpiry), Enroll(c, Release),
            Enroll(c, Diagnose));
  }

  /** An enroll call left to run its redemption alone does exactly what `Redeem` says. */
  lemma RedemptionStepsRedeem(env: Env, s: State, c: nat, input: EnrollInput)
    requires c !in s.enrolls && |input.publicKey| == 32 && !KeyTaken(s.nodes, input.publicKey)
    ensures var (result, after) := Pairing.Redeem(s.codes, Pairing.HashCode(env, input.pairingCode), s.clock);
            Run(env, s, RedemptionSteps(c, input)) ==
            With(s, c, Advanced(s.nodes, after, StartCall(env, s.nodes, input).(phase := PhaseOf(result))))
  {
    var a0 := Advanced(s.nodes, s.codes, StartCall(env, s.nodes, input));
    assert Step(env, s, Enroll(c, Start(input))) == With(s, c, a0);
    var a1 := Advance(a0.nodes, a0.codes, a0.call, Claim, s.clock);
    var a2 := Advance(a1.nodes, a1.codes, a1.call, CheckExpiry, s.clock);
    var a3 := Advance(a2.nodes, a2.codes, a2.call, Release, s.clock);
    StepAdvances(env, s, c, a0, Claim);
    StepAdvances(env, s, c, a1, CheckExpiry);
    StepAdvances(env, s, c, a2, Release);
    StepAdvances(env, s, c, a3, Diagnose);
    AdvanceThrough(s.nodes, s.codes, a0.call, s.clock);
    RunRedemptionSteps(env, s, c, input);
  }

  ghost predicate EndsAs(s: State, c: nat, alone: Outcome) {
    && s.nodes == alone.nodes && s.codes == alone.codes && c in s.enrolls
    && match alone.result
       case Ok((node, _)) => s.enrolls[c].phase == Enrolled(node)
       case Err(e) => s.enrolls[c].phase == Failed(e) || s.enrolls[c].phase == Wasted(e)
  }

  lemma InsertEnds(env: Env, s: State, c: nat, input: EnrollInput, id: NodeId)
    requires |input.publicKey| == 32 && !KeyTaken(s.nodes, input.publicKey)
    ensures var (result, after) := Pairing.Redeem(s.codes, Pairing.HashCode(env, input.pairingCode), s.clock);
            var call := StartCall(env, s.nodes, input).(phase := PhaseOf(result));
            EndsAs(With(s, c, Advance(s.nodes, after, call, Insert(id), s.clock)), c,
                   EnrollAlone(env, s.nodes, s.codes, input, id, s.clock))
  {
  }

  /** And the insert after it completes what `EnrollAlone` says. */
  lemma EnrollmentStepsEnroll(env: Env, s: State, c: nat, input: EnrollInput, id: NodeId)
    requires c !in s.enrolls
    ensures EndsAs(Run(env, s, RedemptionSteps(c, input) + [Enroll(c, Insert(id))]), c,
                   EnrollAlone(env, s.nodes, s.codes, input, id, s.clock))
  {
    RunLast(env, s, RedemptionSteps(c, input), Enroll(c, Insert(id)));
    if |input.publicKey| == 32 && !KeyTaken(s.nodes, input.publicKey) {
      RedemptionStepsRedeem(env, s, c, input);
      var (result, after) := Pairing.Redeem(s.codes, Pairing.HashCode(env, input.pairingCode), s.clock);
      var call := StartCall(env, s.nodes, input).(phase := PhaseOf(result));
      StepAdvances(env, s, c, Advanced(s.nodes, after, call), Insert(id));
      InsertEnds(env, s, c, input, id);
    } else {
      RunRedemptionSteps(env, s, c, input);
      RefusedStaysRefused(env, s, c, input, id);
    }
  }

  /** A call that failed its first checks has nothing left to do. */
  lemma RefusedStaysRefused(env: Env, s: State, c: nat, input: EnrollInput, id: NodeId)
    requires c !in s.enrolls && StartCall(env, s.nodes, input).phase.Failed?
    ensures var a := Advanced(s.nodes, s.codes, StartCall(env, s.nodes, input));
            && Step(env, s, Enroll(c, Start(input))) == With(s, c, a)
            && (forall e: EnrollEvent :: e.Claim? || e.CheckExpiry? || e.Release? || e.Diagnose? || e == Insert(id)
                  ==> Step(env, With(s, c, a), Enroll(c, e)) == With(s, c, a))
  {
    var a := Advanced(s.nodes, s.codes, StartCall(env, s.nodes, input));
    forall e: EnrollEvent | e.Claim? || e.CheckExpiry? || e.Release? || e.Diagnose? || e == Insert(id)
      ensures Step(env, With(s, c, a), Enroll(c, e)) == With(s, c, a)
    {
      StepAdvances(env, s, c, a, e);
    }
  }

  /** The row a mint leaves, however the run goes on. */
  lemma {:induction false} MintedRow(env: Env, before: seq<Event>, mint: Event, after: seq<Event>)
    requires mint.Mint? && Pairing.HashCode(env, mint.code) !in Run(env, INITIAL, before).codes
    ensures var h, s := Pairing.HashCode(env, mint.code), Run(env, INITIAL, before + [mint] + after);
            && h in s.codes
            && s.codes[h].(usedAt := None)
               == CodeRow(mint.orgId, mint.nodeName, mint.userId, Run(env, INITIAL, before).clock + env.codeTtlMs, None)
  {
    RunLast(env, INITIAL, before, mint);
    RunConcat(env, INITIAL, before + [mint], after);
    RunKeepsCodes(env, Run(env, INITIAL, before + [mint]), after);
  }

  /**
   * A minted code is never stuck. However the run went on, as long as nobody has
   * redeemed it, nobody is working on it and no process died holding it, any
   * retyping of it is redeemed for the minted tenant and name up to its expiry,
   * and after that every retry in turn is told "expired".
   */
  lemma {:induction false} MintedCodesNeverStick(env: Env, before: seq<Event>, org: OrgId, user: string,
                                                 nodeName: string, code: string, after: seq<Event>,
                                                 edits: seq<Pairing.Edit>, retries: seq<int>)
    requires Pairing.HashCode(env, code) !in Run(env, INITIAL, before).codes
    requires var s := Run(env, INITIAL, before + [Mint(org, user, nodeName, code)] + after);
             Untouched(s, Pairing.HashCode(env, code)) && !Stranded(s, Pairing.HashCode(env, code))
    ensures var s := Run(env, INITIAL, before + [Mint(org, user, nodeName, code)] + after);
            var expiresAt := Run(env, INITIAL, before).clock + env.codeTtlMs;
            var hash := Pairing.HashCode(env, Pairing.RetypeAll(code, edits));
            Redeemable(s.codes, hash, org, nodeName, expiresAt, s.clock, retries)
  {
    var mint := Mint(org, user, nodeName, code);
    var h := Pairing.HashCode(env, code);
    MintedRow(env, before, mint, after);
    UntouchedCodesAreFreeUnlessStranded(env, before + [mint] + after, h);
    var s := Run(env, INITIAL, before + [mint] + after);
    UnusedCodesAreRedeemable(s.codes, h, s.clock, retries);
    Pairing.VariantsShareNormalForm(env.upperOther, code, edits);
  }

  /** Redeemed for `org` and `name` now if in time; "expired" to every retry that is not. */
  ghost predicate Redeemable(codes: Codes, h: string, org: OrgId, name: string, expiresAt: int, now: int,
                             retries: seq<int>)
  {
    && (now <= expiresAt ==> Pairing.Redeem(codes, h, now).0 == Ok((org, name)))
    && ((forall i :: 0 <= i < |retries| ==> expiresAt < retries[i]) ==>
          var (results, after) := Pairing.RedeemRepeatedly(codes, h, retries);
          && after == codes && |results| == |retries|
          && forall i :: 0 <= i < |results| ==> results[i] == Err(CodeExpired))
  }

  lemma UnusedCodesAreRedeemable(codes: Codes, h: string, now: int, retries: seq<int>)
    requires Pairing.Unused(codes, h)
    ensures Redeemable(codes, h, codes[h].orgId, codes[h].nodeName, codes[h].expiresAt, now, retries)
  {
    if forall i :: 0 <= i < |retries| ==> codes[h].expiresAt < retries[i] {
      Pairing.ExpiredStaysExpired(codes, h, retries);
    }
  }

  // ----- Every code in the table was minted, and every redeemer typed one

  /** The i-th event mints this code, and the row carries what it was minted with. */
  ghost predicate MintedAt(env: Env, events: seq<Event>, i: int, h: string, row: CodeRow) {
    && 0 <= i < |events| && events[i].Mint? && Pairing.HashCode(env, events[i].code) == h
    && row.orgId == events[i].orgId && row.nodeName == events[i].nodeName && row.createdBy == events[i].userId
  }

  ghost predicate RowsMinted(env: Env, events: seq<Event>, codes: Codes) {
    forall h :: h in codes ==> exists i :: MintedAt(env, events, i, h, codes[h])
  }

  ghost predicate MintsStored(env: Env, events: seq<Event>, codes: Codes) {
    forall i :: 0 <= i < |events| && events[i].Mint? ==> Pairing.HashCode(env, events[i].code) in codes
  }

  lemma EnrollAddsNoCodes(env: Env, s: State, c: nat, e: EnrollEvent)
    ensures EnrollStep(env, s, c, e).codes.Keys == s.codes.Keys
  {
  }

  /** A row already there stays minted, wherever its mint was. */
  lemma OldRowStaysMinted(env: Env, front: seq<Event>, e: Event, h: string, row: CodeRow, row': CodeRow)
    requires exists i :: MintedAt(env, front, i, h, row)
    requires row'.(usedAt := row.usedAt) == row
    ensures exists i :: MintedAt(env, front + [e], i, h, row')
  {
    var i :| MintedAt(env, front, i, h, row);
    assert MintedAt(env, front + [e], i, h, row');
  }

  lemma MintAddsItsCode(env: Env, s: State, front: seq<Event>, e: Event)
    requires e.Mint?
    ensures var codes, h := Step(env, s, e).codes, Pairing.HashCode(env, e.code);
            && codes.Keys == s.codes.Keys + {h}
            && (h !in s.codes ==> MintedAt(env, front + [e], |front|, h, codes[h]))
  {
  }

  lemma OthersAddNoCodes(env: Env, s: State, e: Event)
    requires !e.Mint?
    ensures Step(env, s, e).codes.Keys == s.codes.Keys
  {
    if e.Enroll? {
      EnrollAddsNoCodes(env, s, e.call, e.enroll);
    } else {
      StepFrame(env, s, e);
    }
  }

  lemma RowsStayMinted(env: Env, front: seq<Event>, e: Event, codes: Codes, codes': Codes)
    requires RowsMinted(env, front, codes) && KeepsCodes(codes, codes')
    requires forall h :: h in codes' && h !in codes ==> MintedAt(env, front + [e], |front|, h, codes'[h])
    ensures RowsMinted(env, front + [e], codes')
  {
    forall h | h in codes' ensures exists i :: MintedAt(env, front + [e], i, h, codes'[h]) {
      if h in codes {
        OldRowStaysMinted(env, front, e, h, codes[h], codes'[h]);
      }
    }
  }

  lemma MintsStayStored(env: Env, front: seq<Event>, e: Event, codes: Codes, codes': Codes)
    requires MintsStored(env, front, codes) && codes.Keys <= codes'.Keys
    requires e.Mint? ==> Pairing.HashCode(env, e.code) in codes'
    ensures MintsStored(env, front + [e], codes')
  {
    var all := front + [e];
    forall i | 0 <= i < |all| && all[i].Mint? ensures Pairing.HashCode(env, all[i].code) in codes' {
      if i < |front| {
        assert front[i] == all[i];
      }
    }
  }

  lemma StepMints(env: Env, s: State, front: seq<Event>, e: Event)
    requires RowsMinted(env, front, s.codes) && MintsStored(env, front, s.codes)
    ensures var codes := Step(env, s, e).codes;
            RowsMinted(env, front + [e], codes) && MintsStored(env, front + [e], codes)
  {
    var codes := Step(env, s, e).codes;
    StepKeepsCodes(env, s, e);
    if e.Mint? {
      MintAddsItsCode(env, s, front, e);
    } else {
      OthersAddNoCodes(env, s, e);
    }
    RowsStayMinted(env, front, e, s.codes, codes);
    MintsStayStored(env, front, e, s.codes, codes);
  }

  lemma {:induction false} CodesAreMinted(env: Env, events: seq<Event>)
    ensures RowsMinted(env, events, Run(env, INITIAL, events).codes)
    ensures MintsStored(env, events, Run(env, INITIAL, events).codes)
    decreases |events|
  {
    if |events| > 0 {
      var front, e := Unsnoc(events);
      CodesAreMinted(env, front);
      StepMints(env, Run(env, INITIAL, front), front, e);
      RunLast(env, INITIAL, front, e);
    }
  }

  /** A call carries the hash of what it typed. */
  ghost predicate HashesTyped(env: Env, s: State) {
    forall c :: c in s.enrolls ==> s.enrolls[c].hash == Pairing.HashCode(env, s.enrolls[c].input.pairingCode)
  }

  lemma AdvanceKeepsInput(nodes: Nodes, codes: Codes, call: EnrollCall, e: EnrollEvent, now: int)
    ensures var next := Advance(nodes, codes, call, e, now).call; next.hash == call.hash && next.input == call.input
  {
  }

  lemma {:induction false} RunHashesTyped(env: Env, events: seq<Event>)
    ensures HashesTyped(env, Run(env, INITIAL, events))
    decreases |events|
  {
    if |events| > 0 {
      var front, e := Unsnoc(events);
      var s := Run(env, INITIAL, front);
      RunHashesTyped(env, front);
      RunLast(env, INITIAL, front, e);
      if e.Enroll? {
        if e.call in s.enrolls {
          AdvanceKeepsInput(s.nodes, s.codes, s.enrolls[e.call], e.enroll, s.clock);
        }
      } else {
        StepFrame(env, s, e);
      }
    }
  }

  /** This event minted the code that was typed, under whatever spelling. */
  ghost predicate Mints(env: Env, e: Event, typed: string) {
    e.Mint? && Pairing.Normalize(env.upperOther, e.code) == Pairing.Normalize(env.upperOther, typed)
  }

  /**
   * In every run, whoever has redeemed a code typed one that had been minted, and
   * a node enrolled with it belongs to the tenant that minted it.
   */
  lemma {:induction false} RedeemersTypedAMintedCode(env: Env, events: seq<Event>, c: nat)
    requires Pairing.Injective(env.hmac)
    requires var s := Run(env, INITIAL, events); c in s.enrolls && HasRedeemed(s.enrolls[c])
    ensures var s := Run(env, INITIAL, events);
            exists i :: 0 <= i < |events| && Mints(env, events[i], s.enrolls[c].input.pairingCode)
                        && (s.enrolls[c].phase.Enrolled? ==>
                              && s.enrolls[c].phase.nodeId in s.nodes
                              && s.nodes[s.enrolls[c].phase.nodeId].orgId == events[i].orgId)
  {
    var s := Run(env, INITIAL, events);
    var call := s.enrolls[c];
    RunKeepsAccounted(env, INITIAL, events);
    RunHashesTyped(env, events);
    CodesAreMinted(env, events);
    assert CallMatches(s.codes, s.nodes, call);
    var i :| MintedAt(env, events, i, call.hash, s.codes[call.hash]);
    Pairing.SameCodeExactly(env, events[i].code, call.input.pairingCode);
    assert Mints(env, events[i], call.input.pairingCode);
  }

  /** And a code is unknown exactly when nobody minted it, under any spelling. */
  lemma {:induction false} UnknownExactlyWhenNeverMinted(env: Env, events: seq<Event>, code: string, now: int)
    requires Pairing.Injective(env.hmac)
    ensures var codes := Run(env, INITIAL, events).codes;
            Pairing.Redeem(codes, Pairing.HashCode(env, code), now) == (Err(UnknownCode), codes)
            <==> forall i :: 0 <= i < |events| ==> !Mints(env, events[i], code)
  {
    var s, h := Run(env, INITIAL, events), Pairing.HashCode(env, code);
    CodesAreMinted(env, events);
    Pairing.RedeemAnswers(s.codes, h, now);
    if h in s.codes {
      var i :| MintedAt(env, events, i, h, s.codes[h]);
      Pairing.SameCodeExactly(env, events[i].code, code);
      assert Mints(env, events[i], code);
    }
  }
}
