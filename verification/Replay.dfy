/** A node's authorization header: how it reads back, and how often it can be accepted. */
module Replay {
  import opened Base
  import opened Fleet
  import opened NodeAuth
  import opened System
  import opened Tenancy

  // ----- Splitting undoes joining

  predicate DotFree(s: string) { '.' !in s }

  lemma SplitLast(front: string, c: char)
    ensures Split(front + [c]) == if c == '.' then Split(front) + [""] else Lengthen(Split(front), [c])
  {
    assert (front + [c])[..|front|] == front;
  }

  lemma LengthenTwice(parts: seq<string>, a: string, b: string)
    requires |parts| >= 1
    ensures Lengthen(Lengthen(parts, a), b) == Lengthen(parts, a + b)
    ensures Lengthen(parts, "") == parts
  {
    var last := parts[|parts| - 1];
    assert last + "" == last;
    assert (last + a) + b == last + (a + b);
  }

  /** Text without dots only lengthens the last field. */
  lemma {:induction false} SplitDotFree(head: string, tail: string)
    requires DotFree(tail)
    ensures Split(head + tail) == Lengthen(Split(head), tail)
    decreases |tail|
  {
    if |tail| == 0 {
      assert head + tail == head && tail == "";
      LengthenTwice(Split(head), "", "");
    } else {
      var front, c := Unsnoc(tail);
      SplitDotFree(head, front);
      SplitLast(head + front, c);
      assert (head + front) + [c] == head + tail;
      LengthenTwice(Split(head), front, [c]);
    }
  }

  /** A dot and a dot-free field add one field. */
  lemma SplitField(head: string, field: string)
    requires DotFree(field)
    ensures Split(head + "." + field) == Split(head) + [field]
  {
    SplitLast(head, '.');
    SplitDotFree(head + ['.'], field);
    LengthenNew(Split(head), field);
    assert head + "." == head + ['.'];
  }

  lemma LengthenNew(parts: seq<string>, field: string)
    ensures Lengthen(parts + [""], field) == parts + [field]
  {
    assert "" + field == field;
  }

  lemma SplitOne(a: string)
    requires DotFree(a)
    ensures Split(a) == [a]
  {
    SplitDotFree("", a);
    LengthenNew([], a);
    assert "" + a == a && [] + [""] == [""];
  }

  lemma SplitFour(a: string, b: string, c: string, d: string)
    requires DotFree(a) && DotFree(b) && DotFree(c) && DotFree(d)
    ensures Split(a + "." + b + "." + c + "." + d) == [a, b, c, d]
  {
    SplitOne(a);
    SplitField(a, b);
    var two := a + "." + b;
    SplitField(two, c);
    var three := two + "." + c;
    SplitField(three, d);
  }

  lemma JoinLast(parts: seq<string>, last: string)
    requires |parts| >= 1
    ensures Join(parts + [last]) == Join(parts) + "." + last
  {
    assert (parts + [last])[..|parts|] == parts;
  }

  /** Lengthening the last field lengthens the joined text. */
  lemma JoinLonger(parts: seq<string>, c: char)
    requires |parts| >= 1
    ensures Join(Lengthen(parts, [c])) == Join(parts) + [c]
  {
    var front, last := parts[..|parts| - 1], parts[|parts| - 1];
    if |parts| > 1 {
      JoinLast(front, last + [c]);
    }
  }

  /** Joining the fields gives back exactly the text that was split. */
  lemma {:induction false} JoinSplit(s: string)
    ensures Join(Split(s)) == s
    decreases |s|
  {
    if |s| > 0 {
      var front, c := Unsnoc(s);
      JoinSplit(front);
      SplitLast(front, c);
      if c == '.' {
        JoinLast(Split(front), "");
      } else {
        JoinLonger(Split(front), c);
      }
    }
  }

  /** And the fields have no dots in them, so they are cut at every dot and nowhere else. */
  lemma {:induction false} FieldsAreDotFree(s: string)
    ensures forall i :: 0 <= i < |Split(s)| ==> DotFree(Split(s)[i])
    decreases |s|
  {
    if |s| > 0 {
      var front, c := Unsnoc(s);
      FieldsAreDotFree(front);
      SplitLast(front, c);
    }
  }

  // ----- Timestamps read back

  lemma DigitsLast(front: string, c: char)
    requires Digit(c) && forall i :: 0 <= i < |front| ==> Digit(front[i])
    ensures DigitsValue(front + [c]) == DigitsValue(front) * 10 + (c as int - '0' as int)
  {
    assert (front + [c])[..|front|] == front;
  }

  lemma {:induction false} NatTextReadsBack(n: nat)
    ensures DigitsValue(NatText(n)) == n
  {
    var last := ('0' as int + n % 10) as char;
    if n < 10 {
      DigitsLast("", last);
      assert "" + [last] == [last];
    } else {
      NatTextReadsBack(n / 10);
      DigitsLast(NatText(n / 10), last);
    }
  }

  /** A number is written without leading zeros. */
  lemma {:induction false} NatTextIsPlain(n: nat)
    ensures n == 0 ==> NatText(n) == "0"
    ensures n > 0 ==> '1' <= NatText(n)[0] <= '9'
  {
    if n >= 10 {
      NatTextIsPlain(n / 10);
    }
  }

  /** Any run of digits is read as the decimal it spells, leading zeros included, and a minus sign negates it. */
  lemma NumbersAreDecimal(env: Env, front: string, c: char)
    requires '0' <= c <= '9' && forall i :: 0 <= i < |front| ==> '0' <= front[i] <= '9'
    ensures Number(env, front + [c]).Some? && Number(env, "-" + (front + [c])).Some?
    ensures Number(env, front + [c]).value ==
            (if front == "" then 0.0 else Number(env, front).value) * 10.0 + (c as int - '0' as int) as real
    ensures Number(env, "-" + (front + [c])).value == -Number(env, front + [c]).value
  {
    var text := front + [c];
    assert forall i :: 0 <= i < |text| ==> Digit(text[i]);
    DigitsLast(front, c);
    assert ("-" + text)[1..] == text && !Digit(("-" + text)[0]);
  }

  lemma IntTextReadsBack(env: Env, n: int)
    ensures Number(env, IntText(n)) == Some(n as real)
    ensures IntText(n) != "" && DotFree(IntText(n))
  {
    var digits := NatText(if n < 0 then -n else n);
    NatTextReadsBack(if n < 0 then -n else n);
    assert forall i :: 0 <= i < |digits| ==> Digit(digits[i]);
    if n < 0 {
      assert IntText(n)[1..] == digits;
      assert !Digit(IntText(n)[0]);
    }
  }

  // ----- The header reads back

  /**
   * A header the agent built splits into what the agent put in, its timestamp
   * reads back as a number, and the text it signed is the text that is checked.
   * The server goes on with these fields exactly when the node id is a UUID.
   */
  lemma HeaderReadsBack(env: Env, nodeId: string, now: int, nonce: string, sign: string -> string)
    requires nodeId != "" && DotFree(nodeId) && nonce != "" && DotFree(nonce)
    requires var signature := sign(nodeId + "." + IntText(now) + "." + nonce); signature != "" && DotFree(signature)
    ensures var payload := nodeId + "." + IntText(now) + "." + nonce;
            var header := AuthHeader(nodeId, now, nonce, sign);
            var creds := Credentials(nodeId, IntText(now), nonce, sign(payload));
            && header == "ModelHubNode " + payload + "." + sign(payload)
            && Split(header[|SCHEME|..]) == [creds.nodeId, creds.millis, creds.nonce, creds.signature]
            && (now >= 0 ==> creds.millis == "0" || '1' <= creds.millis[0] <= '9')
            && (UuidText(nodeId) ==> ParseHeader(Some(header)) == Ok(creds))
            && (!UuidText(nodeId) ==> ParseHeader(Some(header)) == Err(MalformedNodeId))
            && Number(env, creds.millis) == Some(now as real)
            && SignedText(creds) == payload
  {
    var millis := IntText(now);
    var payload := nodeId + "." + millis + "." + nonce;
    var header := AuthHeader(nodeId, now, nonce, sign);
    UuidsAreGrouped(nodeId);
    NatTextIsPlain(if now < 0 then -now else now);
    IntTextReadsBack(env, now);
    SplitFour(nodeId, millis, nonce, sign(payload));
    HeaderBody(payload + "." + sign(payload));
    assert header == SCHEME + (payload + "." + sign(payload));
  }

  lemma HeaderBody(body: string)
    ensures SCHEME <= SCHEME + body && (SCHEME + body)[|SCHEME|..] == body
  {
  }

  lemma UuidDotFree(s: string)
    requires IsUuid(s)
    ensures DotFree(s) && s != ""
  {
    forall i | 0 <= i < |s| ensures s[i] != '.' {
      assert if i in {8, 13, 18, 23} then s[i] == '-' else Hex(s[i]);
    }
  }

  /** Any header that parses is its own four fields: the text the signature covers is the text as received. */
  lemma SignedTextIsAsReceived(header: string)
    requires ParseHeader(Some(header)).Ok?
    ensures var c := ParseHeader(Some(header)).value;
            header == "ModelHubNode " + c.nodeId + "." + c.millis + "." + c.nonce + "." + c.signature
    ensures var c := ParseHeader(Some(header)).value; header == "ModelHubNode " + SignedText(c) + "." + c.signature
  {
    var body := header[|SCHEME|..];
    var parts := Split(body);
    JoinSplit(body);
    JoinLast(parts[..3], parts[3]);
    JoinLast(parts[..2], parts[2]);
    JoinLast(parts[..1], parts[1]);
    assert parts == parts[..3] + [parts[3]];
    assert parts[..3] == parts[..2] + [parts[2]] && parts[..2] == parts[..1] + [parts[1]];
    assert header == SCHEME + body;
  }

  // ----- How often a header can be accepted

  /** The header parses to these fields and this timestamp. */
  ghost predicate Says(env: Env, header: Option<string>, creds: Credentials, at: real) {
    ParseHeader(header) == Ok(creds) && Number(env, creds.millis) == Some(at)
  }

  ghost predicate Standing(phase: AuthPhase) { !phase.Rejected? }

  /** What an unrejected call remembers is what its header says, and it was checked inside the window. */
  ghost predicate CallSound(env: Env, clock: int, call: AuthCall) {
    Standing(call.phase) ==>
      && Says(env, call.header, call.phase.creds, call.phase.at)
      && InWindow(env, call.phase.at, call.checkedAt)
      && call.checkedAt <= clock
  }

  /** An accepted call's nonce is remembered for at least twice the window from when it was recorded. */
  ghost predicate Remembered(env: Env, clock: int, nonces: Nonces, call: AuthCall) {
    call.phase.Accepted? ==>
      && call.checkedAt <= call.phase.recordedAt <= clock
      && NonceKey(call.phase.creds) in nonces
      && call.phase.recordedAt + 2 * env.skewMs <= nonces[NonceKey(call.phase.creds)]
  }

  /** Two acceptances of one nonce key lie more than twice the window apart. */
  ghost predicate Apart(env: Env, a: AuthCall, b: AuthCall) {
    a.phase.Accepted? && b.phase.Accepted? && NonceKey(a.phase.creds) == NonceKey(b.phase.creds) ==>
      || a.phase.recordedAt > b.phase.recordedAt + 2 * env.skewMs
      || b.phase.recordedAt > a.phase.recordedAt + 2 * env.skewMs
  }

  ghost predicate Guarded(env: Env, s: State) {
    && (forall c :: c in s.auths ==> CallSound(env, s.clock, s.auths[c]))
    && (forall c :: c in s.auths ==> Remembered(env, s.clock, s.nonces, s.auths[c]))
    && (forall c, d :: c in s.auths && d in s.auths && c != d ==> Apart(env, s.auths[c], s.auths[d]))
  }

  lemma CheckSound(env: Env, header: Option<string>, now: int)
    ensures CallSound(env, now, AuthCall(header, now, CheckAt(env, header, now)))
    ensures !CheckAt(env, header, now).Accepted?
  {
  }

  lemma NextPhaseSound(env: Env, s: State, call: AuthCall, e: AuthEvent)
    requires CallSound(env, s.clock, call)
    ensures CallSound(env, s.clock, call.(phase := NextPhase(env, s, call.phase, e)))
  {
  }

  lemma GuardedLater(env: Env, s: State, s': State)
    requires Guarded(env, s) && s'.auths == s.auths && s'.nonces == s.nonces && s.clock <= s'.clock
    ensures Guarded(env, s')
  {
  }

  /** Setting a key that is not live: everyone recorded under it before is long past. */
  lemma RecordKeepsRemembered(env: Env, s: State, creds: Credentials, call: AuthCall)
    requires Remembered(env, s.clock, s.nonces, call)
    ensures Remembered(env, s.clock, RecordNonce(env, s.nonces, creds, s.clock), call)
  {
  }

  lemma RecordApart(env: Env, s: State, call: AuthCall, other: AuthCall)
    requires call.phase.Verified? && call.checkedAt <= s.clock && Remembered(env, s.clock, s.nonces, other)
    ensures var next := call.(phase := RecordPhase(s.nonces, call.phase, s.clock));
            && Apart(env, next, other) && Apart(env, other, next)
            && Remembered(env, s.clock, RecordNonce(env, s.nonces, call.phase.creds, s.clock), next)
  {
  }

  lemma RecordKeepsGuarded(env: Env, s: State, c: nat)
    requires Guarded(env, s) && c in s.auths && s.auths[c].phase.Verified?
    ensures Guarded(env, AuthStep(env, s, c, Record))
  {
    var s' := AuthStep(env, s, c, Record);
    var call := s.auths[c];
    assert s'.nonces == RecordNonce(env, s.nonces, call.phase.creds, s.clock);
    assert s'.auths == s.auths[c := call.(phase := RecordPhase(s.nonces, call.phase, s.clock))];
    forall d | d in s'.auths ensures CallSound(env, s'.clock, s'.auths[d]) {
      NextPhaseSound(env, s, call, Record);
    }
    forall d | d in s'.auths ensures Remembered(env, s'.clock, s'.nonces, s'.auths[d]) {
      RecordApart(env, s, call, s.auths[d]);
      RecordKeepsRemembered(env, s, call.phase.creds, s.auths[d]);
    }
    forall d, e | d in s'.auths && e in s'.auths && d != e ensures Apart(env, s'.auths[d], s'.auths[e]) {
      if d == c {
        RecordApart(env, s, call, s.auths[e]);
      } else if e == c {
        RecordApart(env, s, call, s.auths[d]);
      }
    }
  }

  /** A call that is not accepted, replacing one that was not, keeps the guard. */
  lemma ReplaceKeepsGuarded(env: Env, s: State, c: nat, call: AuthCall)
    requires Guarded(env, s) && CallSound(env, s.clock, call) && !call.phase.Accepted?
    ensures Guarded(env, s.(auths := s.auths[c := call]))
  {
  }

  lemma AuthKeepsGuarded(env: Env, s: State, c: nat, e: AuthEvent)
    requires Guarded(env, s)
    ensures Guarded(env, AuthStep(env, s, c, e))
  {
    if c !in s.auths {
      if e.Check? {
        CheckSound(env, e.header, s.clock);
        ReplaceKeepsGuarded(env, s, c, AuthCall(e.header, s.clock, CheckAt(env, e.header, s.clock)));
      }
    } else if e.Record? && s.auths[c].phase.Verified? {
      RecordKeepsGuarded(env, s, c);
    } else if e.Verify? && s.auths[c].phase.Checked? {
      NextPhaseSound(env, s, s.auths[c], e);
      ReplaceKeepsGuarded(env, s, c, s.auths[c].(phase := NextPhase(env, s, s.auths[c].phase, e)));
    } else {
      assert AuthStep(env, s, c, e).auths == s.auths;
      GuardedLater(env, s, AuthStep(env, s, c, e));
    }
  }

  lemma StepKeepsGuarded(env: Env, s: State, e: Event)
    requires Guarded(env, s)
    ensures Guarded(env, Step(env, s, e))
  {
    if e.Auth? {
      AuthKeepsGuarded(env, s, e.call, e.auth);
    } else {
      StepFrame(env, s, e);
      GuardedLater(env, s, Step(env, s, e));
    }
  }

  lemma {:induction false} RunKeepsGuarded(env: Env, s: State, events: seq<Event>)
    requires Guarded(env, s)
    ensures Guarded(env, Run(env, s, events))
  {
    if events != [] {
      RunKeepsGuarded(env, s, events[..|events| - 1]);
      StepKeepsGuarded(env, Run(env, s, events[..|events| - 1]), events[|events| - 1]);
    }
  }

  /** How long after its window check a call's nonce was recorded. */
  function Delay(call: AuthCall): int
    requires call.phase.Accepted?
  {
    call.phase.recordedAt - call.checkedAt
  }

  /**
   * If one header is accepted by two calls, the later one dawdled: its nonce was
   * recorded so long after its window check that the delay exceeds how far into
   * the window the first acceptance already was.
   */
  lemma {:induction false} ReplayNeedsDelay(env: Env, events: seq<Event>, c: nat, d: nat)
    requires var s := Run(env, INITIAL, events);
             && c != d && c in s.auths && d in s.auths && s.auths[c].header == s.auths[d].header
             && s.auths[c].phase.Accepted? && s.auths[d].phase.Accepted?
             && s.auths[c].phase.recordedAt <= s.auths[d].phase.recordedAt
    ensures var first, second := Run(env, INITIAL, events).auths[c], Run(env, INITIAL, events).auths[d];
            Delay(second) as real > first.phase.recordedAt as real - (first.phase.at - env.skewMs as real)
  {
    var s := Run(env, INITIAL, events);
    RunKeepsGuarded(env, INITIAL, events);
    var first, second := s.auths[c], s.auths[d];
    assert CallSound(env, s.clock, first) && CallSound(env, s.clock, second);
    assert first.phase.creds == second.phase.creds && first.phase.at == second.phase.at;
    assert Apart(env, first, second);
  }

  /**
   * With no more than `delay` between the check and the record, a header first
   * recorded at least `delay` into its window is accepted only that once.
   */
  lemma {:induction false} HeaderAcceptedOnceWithin(env: Env, events: seq<Event>, c: nat, d: nat, delay: nat)
    requires var s := Run(env, INITIAL, events);
             && c in s.auths && d in s.auths && s.auths[c].header == s.auths[d].header
             && s.auths[c].phase.Accepted? && s.auths[d].phase.Accepted?
             && s.auths[c].phase.recordedAt <= s.auths[d].phase.recordedAt
             && Delay(s.auths[d]) <= delay
             && s.auths[c].phase.recordedAt as real >= s.auths[c].phase.at - env.skewMs as real + delay as real
    ensures c == d
  {
    if c != d {
      ReplayNeedsDelay(env, events, c, d);
    }
  }

  /** With the check and the record at one instant, no header is ever accepted twice. */
  lemma {:induction false} HeaderAcceptedOnce(env: Env, events: seq<Event>, c: nat, d: nat)
    requires var s := Run(env, INITIAL, events);
             && c in s.auths && d in s.auths && s.auths[c].header == s.auths[d].header
             && s.auths[c].phase.Accepted? && s.auths[d].phase.Accepted?
             && Delay(s.auths[c]) == 0 && Delay(s.auths[d]) == 0
    ensures c == d
  {
    var s := Run(env, INITIAL, events);
    RunKeepsGuarded(env, INITIAL, events);
    assert CallSound(env, s.clock, s.auths[c]) && CallSound(env, s.clock, s.auths[d]);
    if s.auths[c].phase.recordedAt <= s.auths[d].phase.recordedAt {
      HeaderAcceptedOnceWithin(env, events, c, d, 0);
    } else {
      HeaderAcceptedOnceWithin(env, events, d, c, 0);
    }
  }

  // ----- Exactly when a nonce is accepted

  /** This call set the nonce key to what it is now. */
  ghost predicate SetBy(env: Env, s: State, key: (string, string), c: nat) {
    && key in s.nonces && c in s.auths && s.auths[c].phase.Accepted? && NonceKey(s.auths[c].phase.creds) == key
    && s.nonces[key] == s.auths[c].phase.recordedAt + 2 * env.skewMs
  }

  /** Every remembered nonce was recorded by some accepted call. */
  ghost predicate NoncesSet(env: Env, s: State) { forall key :: key in s.nonces ==> exists c :: SetBy(env, s, key, c) }

  lemma SetStays(env: Env, s: State, s': State, key: (string, string), c: nat)
    requires SetBy(env, s, key, c) && c in s'.auths && s'.auths[c] == s.auths[c]
    requires key in s'.nonces && s'.nonces[key] == s.nonces[key]
    ensures SetBy(env, s', key, c)
  {
  }

  lemma RecordKeepsNoncesSet(env: Env, s: State, d: nat)
    requires NoncesSet(env, s) && d in s.auths && s.auths[d].phase.Verified?
    ensures NoncesSet(env, AuthStep(env, s, d, Record))
  {
    var s' := AuthStep(env, s, d, Record);
    var own := NonceKey(s.auths[d].phase.creds);
    var accepted := !Live(s.nonces, own, s.clock);
    assert accepted ==> SetBy(env, s', own, d);
    forall key | key in s'.nonces ensures exists c :: SetBy(env, s', key, c) {
      if !(accepted && key == own) {
        var c :| SetBy(env, s, key, c);
        SetStays(env, s, s', key, c);
      }
    }
  }

  lemma AuthKeepsNoncesSet(env: Env, s: State, d: nat, e: AuthEvent)
    requires NoncesSet(env, s)
    ensures NoncesSet(env, AuthStep(env, s, d, e))
  {
    if d in s.auths && s.auths[d].phase.Verified? && e.Record? {
      RecordKeepsNoncesSet(env, s, d);
    } else {
      var s' := AuthStep(env, s, d, e);
      forall key | key in s'.nonces ensures exists c :: SetBy(env, s', key, c) {
        var c :| SetBy(env, s, key, c);
        SetStays(env, s, s', key, c);
      }
    }
  }

  lemma {:induction false} RunKeepsNoncesSet(env: Env, events: seq<Event>)
    ensures NoncesSet(env, Run(env, INITIAL, events))
  {
    if events != [] {
      var s, e := Run(env, INITIAL, events[..|events| - 1]), events[|events| - 1];
      RunKeepsNoncesSet(env, events[..|events| - 1]);
      if e.Auth? {
        AuthKeepsNoncesSet(env, s, e.call, e.auth);
      } else {
        StepFrame(env, s, e);
        NoncesSetLater(env, s, Step(env, s, e));
      }
    }
  }

  lemma NoncesSetLater(env: Env, s: State, s': State)
    requires NoncesSet(env, s) && s'.auths == s.auths && s'.nonces == s.nonces
    ensures NoncesSet(env, s')
  {
    forall key | key in s'.nonces ensures exists c :: SetBy(env, s', key, c) {
      var c :| SetBy(env, s, key, c);
      SetStays(env, s, s', key, c);
    }
  }

  /** Every acceptance of this nonce so far lies more than twice the window back. */
  ghost predicate LongPast(env: Env, s: State, key: (string, string)) {
    forall c :: c in s.auths && s.auths[c].phase.Accepted? && NonceKey(s.auths[c].phase.creds) == key
      ==> s.auths[c].phase.recordedAt + 2 * env.skewMs < s.clock
  }

  lemma NotLiveIsLongPast(env: Env, s: State, key: (string, string))
    requires Guarded(env, s) && NoncesSet(env, s)
    ensures !Live(s.nonces, key, s.clock) <==> LongPast(env, s, key)
  {
    if Live(s.nonces, key, s.clock) {
      var c :| SetBy(env, s, key, c);
    } else {
      forall c | c in s.auths && s.auths[c].phase.Accepted? && NonceKey(s.auths[c].phase.creds) == key
        ensures s.auths[c].phase.recordedAt + 2 * env.skewMs < s.clock
      {
        assert Remembered(env, s.clock, s.nonces, s.auths[c]);
      }
    }
  }

  /**
   * Exactly when the last statement of an authentication accepts. In every run, a
   * verified call that records its nonce opens its stream if and only if every
   * call accepted under that nonce so far recorded it more than twice the window
   * ago; otherwise it is told "replayed". So a header is accepted again exactly
   * when it verifies and all its acceptances are that long past.
   */
  lemma {:induction false} RecordAcceptsExactly(env: Env, events: seq<Event>, d: nat)
    requires var s := Run(env, INITIAL, events); d in s.auths && s.auths[d].phase.Verified?
    ensures var s := Run(env, INITIAL, events);
            var s' := Run(env, INITIAL, events + [Auth(d, Record)]);
            && (IsOpen(s', d) <==> LongPast(env, s, NonceKey(s.auths[d].phase.creds)))
            && (!IsOpen(s', d) ==> d in s'.auths && s'.auths[d].phase == Rejected(Replayed))
  {
    var s := Run(env, INITIAL, events);
    RunKeepsGuarded(env, INITIAL, events);
    RunKeepsNoncesSet(env, events);
    NotLiveIsLongPast(env, s, NonceKey(s.auths[d].phase.creds));
    RunLast(env, INITIAL, events, Auth(d, Record));
    RecordSettles(env, s, d, s.auths[d]);
  }

  // ----- Only signed headers are accepted

  ghost predicate PhaseSigned(env: Env, nodes: Nodes, phase: AuthPhase) {
    phase.Verified? || phase.Accepted? ==>
      var node := NodeIdOf(phase.creds.nodeId);
      && node in nodes && env.keyParses(nodes[node].publicKey)
      && env.verifies(nodes[node].publicKey, SignedText(phase.creds), phase.creds.signature)
  }

  ghost predicate Signed(env: Env, s: State) {
    forall c :: c in s.auths ==> PhaseSigned(env, s.nodes, s.auths[c].phase)
  }

  lemma NextPhaseSigned(env: Env, s: State, phase: AuthPhase, e: AuthEvent)
    requires PhaseSigned(env, s.nodes, phase)
    ensures PhaseSigned(env, s.nodes, NextPhase(env, s, phase, e))
  {
  }

  lemma StepKeepsSigned(env: Env, s: State, e: Event)
    requires Signed(env, s)
    ensures Signed(env, Step(env, s, e))
  {
    StepFrame(env, s, e);
    StepKeepsNodes(env, s, e);
    if e.Auth? {
      if e.call in s.auths {
        NextPhaseSigned(env, s, s.auths[e.call].phase, e.auth);
      } else if e.auth.Check? {
        CheckSound(env, e.auth.header, s.clock);
      }
    }
  }

  lemma {:induction false} RunKeepsSigned(env: Env, s: State, events: seq<Event>)
    requires Signed(env, s)
    ensures Signed(env, Run(env, s, events))
  {
    if events != [] {
      RunKeepsSigned(env, s, events[..|events| - 1]);
      StepKeepsSigned(env, Run(env, s, events[..|events| - 1]), events[|events| - 1]);
    }
  }

  /**
   * Every open stream was opened by a header whose text, exactly as received, is
   * signed by the key on its node's record, and that was checked in its window.
   */
  lemma {:induction false} StreamsAreSigned(env: Env, events: seq<Event>, c: nat)
    requires IsOpen(Run(env, INITIAL, events), c)
    ensures var s := Run(env, INITIAL, events);
            var creds := s.auths[c].phase.creds;
            && s.auths[c].header == Some("ModelHubNode " + SignedText(creds) + "." + creds.signature)
            && Number(env, creds.millis) == Some(s.auths[c].phase.at)
            && -(env.skewMs as real) <= s.auths[c].checkedAt as real - s.auths[c].phase.at <= env.skewMs as real
            && StreamNode(s, c) in s.nodes
            && env.verifies(s.nodes[StreamNode(s, c)].publicKey, SignedText(creds), creds.signature)
            && StreamOrg(s, c) == s.nodes[StreamNode(s, c)].orgId
  {
    var s := Run(env, INITIAL, events);
    RunKeepsSigned(env, INITIAL, events);
    RunKeepsOwned(env, INITIAL, events);
    RunKeepsGuarded(env, INITIAL, events);
    assert PhaseSigned(env, s.nodes, s.auths[c].phase) && PhaseOwned(s.nodes, s.auths[c].phase);
    assert CallSound(env, s.clock, s.auths[c]);
    SignedTextIsAsReceived(s.auths[c].header.value);
  }

  // ----- The bound on the delay is tight

  /** Wait for the window's last instant, check and verify again, dawdle, and record. */
  function SecondTry(header: Option<string>, d: nat, wait: nat, dawdle: nat): seq<Event> {
    [Tick(wait), Auth(d, Check(header)), Auth(d, Verify), Tick(dawdle), Auth(d, Record)]
  }

  /** The check and the signature succeed at `now`. */
  ghost predicate Passes(env: Env, nodes: Nodes, header: Option<string>, creds: Credentials, at: int, org: OrgId,
                         now: int)
  {
    && CheckAt(env, header, now) == Checked(creds, at as real)
    && VerifyAgainst(env, nodes, creds, at as real) == Verified(creds, at as real, org)
  }

  lemma CheckThenVerify(env: Env, s: State, header: Option<string>, creds: Credentials, at: int, org: OrgId, d: nat)
    requires d !in s.auths && Passes(env, s.nodes, header, creds, at, org, s.clock)
    ensures Step(env, Step(env, s, Auth(d, Check(header))), Auth(d, Verify))
         == s.(auths := s.auths[d := AuthCall(header, s.clock, Verified(creds, at as real, org))])
  {
    var call := AuthCall(header, s.clock, Checked(creds, at as real));
    var checked := s.(auths := s.auths[d := call]);
    assert Step(env, s, Auth(d, Check(header))) == checked;
    assert s.auths[d := call][d := AuthCall(header, s.clock, Verified(creds, at as real, org))]
        == s.auths[d := AuthCall(header, s.clock, Verified(creds, at as real, org))];
  }

  /** The nonce decides: a verified call is accepted or told "replayed". */
  lemma RecordSettles(env: Env, s: State, d: nat, call: AuthCall)
    requires d in s.auths && s.auths[d] == call && call.phase.Verified?
    ensures var s' := Step(env, s, Auth(d, Record));
            && s'.auths == s.auths[d := call.(phase := RecordPhase(s.nonces, call.phase, s.clock))]
            && s'.nonces == RecordNonce(env, s.nonces, call.phase.creds, s.clock)
            && s'.nodes == s.nodes && s'.clock == s.clock
  {
  }

  lemma {:induction false} SecondTryRun(env: Env, s: State, header: Option<string>, creds: Credentials, at: int,
                                        org: OrgId, d: nat, wait: nat, dawdle: nat)
    requires d !in s.auths && Passes(env, s.nodes, header, creds, at, org, s.clock + wait)
    ensures var call := AuthCall(header, s.clock + wait, Verified(creds, at as real, org));
            Run(env, s, SecondTry(header, d, wait, dawdle)) == Step(env, Late(s, d, call, dawdle), Auth(d, Record))
  {
    LateVerified(env, s, header, creds, at, org, d, wait, dawdle);
    RunFive(env, s, Tick(wait), Auth(d, Check(header)), Auth(d, Verify), Tick(dawdle), Auth(d, Record));
  }

  lemma {:induction false} SecondTryEnds(env: Env, s: State, header: Option<string>, creds: Credentials, at: int,
                                         org: OrgId, d: nat, wait: nat, dawdle: nat)
    requires d !in s.auths && Passes(env, s.nodes, header, creds, at, org, s.clock + wait)
    ensures var verified := AuthCall(header, s.clock + wait, Verified(creds, at as real, org));
            Run(env, s, SecondTry(header, d, wait, dawdle)).auths
            == s.auths[d := verified.(phase := RecordPhase(s.nonces, verified.phase, s.clock + wait + dawdle))]
  {
    var call := AuthCall(header, s.clock + wait, Verified(creds, at as real, org));
    SecondTryRun(env, s, header, creds, at, org, d, wait, dawdle);
    RecordLate(env, s, d, call, dawdle);
  }

  lemma RecordLate(env: Env, s: State, d: nat, call: AuthCall, dawdle: nat)
    requires call.phase.Verified?
    ensures Step(env, Late(s, d, call, dawdle), Auth(d, Record)).auths
         == s.auths[d := call.(phase := RecordPhase(s.nonces, call.phase, call.checkedAt + dawdle))]
  {
    RecordSettles(env, Late(s, d, call, dawdle), d, call);
  }

  /** A call about to record its nonce, with a timestamp in whole milliseconds and a nonce not in use. */
  ghost predicate AboutToRecord(s: State, c: nat, at: int) {
    && c in s.auths && s.auths[c].phase.Verified? && s.auths[c].phase.at == at as real
    && !Live(s.nonces, NonceKey(s.auths[c].phase.creds), s.clock)
  }

  /** A header that once verified does so again whenever its window is open. */
  lemma {:induction false} VerifiedPasses(env: Env, events: seq<Event>, c: nat, at: int, now: int)
    requires AboutToRecord(Run(env, INITIAL, events), c, at) && at - env.skewMs <= now <= at + env.skewMs
    ensures var s := Run(env, INITIAL, events);
            Passes(env, s.nodes, s.auths[c].header, s.auths[c].phase.creds, at, s.auths[c].phase.orgId, now)
  {
    var s := Run(env, INITIAL, events);
    RunKeepsGuarded(env, INITIAL, events);
    RunKeepsSigned(env, INITIAL, events);
    RunKeepsOwned(env, INITIAL, events);
    var call := s.auths[c];
    assert CallSound(env, s.clock, call) && PhaseSigned(env, s.nodes, call.phase) && PhaseOwned(s.nodes, call.phase);
    HeaderPasses(env, s.nodes, call.header, call.phase.creds, at, call.phase.orgId, now);
  }

  /**
   * The plainest case, with nothing in between. A call records its nonce and is accepted; a second
   * call with its header checks the window `wait` later and records `dawdle` after
   * that. It is accepted too exactly when more than twice the window has passed
   * between the two records; otherwise it is told "replayed".
   */
  lemma {:induction false} SecondTryExact(env: Env, events: seq<Event>, c: nat, d: nat, at: int, wait: nat, dawdle: nat)
    requires var s := Run(env, INITIAL, events);
             && AboutToRecord(s, c, at) && d !in s.auths
             && at - env.skewMs <= s.clock + wait <= at + env.skewMs
    ensures var s := Run(env, INITIAL, events);
            var header := s.auths[c].header;
            var after := Run(env, Step(env, s, Auth(c, Record)), SecondTry(header, d, wait, dawdle)).auths;
            && c in after && after[c].header == header
            && after[c].phase.Accepted? && after[c].phase.recordedAt == s.clock
            && d in after && after[d].header == header && after[d].checkedAt == s.clock + wait
            && after[d].phase == if 2 * env.skewMs < wait + dawdle
                                 then after[c].phase.(recordedAt := s.clock + wait + dawdle) else Rejected(Replayed)
  {
    var s := Run(env, INITIAL, events);
    var call := s.auths[c];
    VerifiedPasses(env, events, c, at, s.clock + wait);
    RecordSettles(env, s, c, call);
    var first := Step(env, s, Auth(c, Record));
    SecondTryEnds(env, first, call.header, call.phase.creds, at, call.phase.orgId, d, wait, dawdle);
  }

  /**
   * One millisecond more than `ReplayNeedsDelay` demands is enough: one header is
   * accepted twice when the second call checks it at the window's last instant
   * and dawdles that long before it records the nonce.
   */
  lemma {:induction false} ReplaySucceedsWithDelay(env: Env, events: seq<Event>, c: nat, d: nat, at: int)
    requires var s := Run(env, INITIAL, events);
             AboutToRecord(s, c, at) && d !in s.auths && at - env.skewMs <= s.clock <= at + env.skewMs
    ensures var s := Run(env, INITIAL, events);
            var header, wait, dawdle := s.auths[c].header, at + env.skewMs - s.clock, s.clock - (at - env.skewMs) + 1;
            var after := Run(env, Step(env, s, Auth(c, Record)), SecondTry(header, d, wait, dawdle)).auths;
            && c in after && after[c].header == header && after[c].phase.Accepted?
            && d in after && after[d].header == header && after[d].phase.Accepted?
            && Delay(after[d]) == dawdle == after[c].phase.recordedAt - (at - env.skewMs) + 1
  {
    var s := Run(env, INITIAL, events);
    SecondTryExact(env, events, c, d, at, at + env.skewMs - s.clock, s.clock - (at - env.skewMs) + 1);
  }

  function Late(s: State, d: nat, call: AuthCall, dawdle: nat): State {
    s.(auths := s.auths[d := call], clock := call.checkedAt + dawdle)
  }

  lemma LateVerified(env: Env, s: State, header: Option<string>, creds: Credentials, at: int, org: OrgId, d: nat,
                     wait: nat, dawdle: nat)
    requires d !in s.auths && Passes(env, s.nodes, header, creds, at, org, s.clock + wait)
    ensures Step(env, Step(env, Step(env, Step(env, s, Tick(wait)), Auth(d, Check(header))), Auth(d, Verify)),
                 Tick(dawdle))
         == Late(s, d, AuthCall(header, s.clock + wait, Verified(creds, at as real, org)), dawdle)
  {
    CheckThenVerify(env, s.(clock := s.clock + wait), header, creds, at, org, d);
  }

  /**
   * A fresh header from a stored node, its id spelled in either case, checked in
   * its window under a new nonce, is accepted.
   */
  lemma {:induction false} FreshHeaderAccepted(env: Env, s: State, id: NodeId, nodeId: string, now: int,
                                               nonce: string, sign: string -> string, d: nat)
    requires id in s.nodes && UuidText(nodeId) && Spells(nodeId, id) && nonce != "" && DotFree(nonce)
    requires var payload := nodeId + "." + IntText(now) + "." + nonce;
             && sign(payload) != "" && DotFree(sign(payload))
             && env.keyParses(s.nodes[id].publicKey) && env.verifies(s.nodes[id].publicKey, payload, sign(payload))
    requires d !in s.auths && now - env.skewMs <= s.clock <= now + env.skewMs
    requires !Live(s.nonces, (nodeId, nonce), s.clock)
    ensures var payload := nodeId + "." + IntText(now) + "." + nonce;
            var header := Some("ModelHubNode " + payload + "." + sign(payload));
            var s' := Step(env, Step(env, Step(env, s, Auth(d, Check(header))), Auth(d, Verify)), Auth(d, Record));
            IsOpen(s', d) && StreamNode(s', d) == id && StreamOrg(s', d) == s.nodes[id].orgId
  {
    var payload := nodeId + "." + IntText(now) + "." + nonce;
    var creds := Credentials(nodeId, IntText(now), nonce, sign(payload));
    var header := Some(AuthHeader(nodeId, now, nonce, sign));
    var org := s.nodes[id].orgId;
    UuidsAreGrouped(nodeId);
    WellFormedIdsSpell(nodeId, id);
    UuidDotFree(nodeId);
    HeaderReadsBack(env, nodeId, now, nonce, sign);
    HeaderPasses(env, s.nodes, header, creds, now, org, s.clock);
    CheckThenVerify(env, s, header, creds, now, org, d);
    var call := AuthCall(header, s.clock, Verified(creds, now as real, org));
    RecordSettles(env, s.(auths := s.auths[d := call]), d, call);
  }

  lemma HeaderPasses(env: Env, nodes: Nodes, header: Option<string>, creds: Credentials, at: int, org: OrgId, now: int)
    requires Says(env, header, creds, at as real) && at - env.skewMs <= now <= at + env.skewMs
    requires NodeIdOf(creds.nodeId) in nodes && nodes[NodeIdOf(creds.nodeId)].orgId == org
    requires env.keyParses(nodes[NodeIdOf(creds.nodeId)].publicKey)
    requires env.verifies(nodes[NodeIdOf(creds.nodeId)].publicKey, SignedText(creds), creds.signature)
    ensures Passes(env, nodes, header, creds, at, org, now)
  {
  }
}
