/** The signed authorization header of a node, and the steps that check it. */
module NodeAuth {
  import opened Base
  import opened Fleet

  const SCHEME := "ModelHubNode "

  // ----- Splitting and joining on dots

  function Split(s: string): (parts: seq<string>)
    ensures |parts| >= 1
  {
    if s == "" then [""]
    else
      var front, c := Split(s[..|s| - 1]), s[|s| - 1];
      if c == '.' then front + [""] else Lengthen(front, [c])
  }

  /** More text on the last field. */
  function Lengthen(parts: seq<string>, more: string): seq<string>
    requires |parts| >= 1
  {
    parts[..|parts| - 1] + [parts[|parts| - 1] + more]
  }

  function Join(parts: seq<string>): string
    requires |parts| >= 1
  {
    if |parts| == 1 then parts[0] else Join(parts[..|parts| - 1]) + "." + parts[|parts| - 1]
  }

  // ----- Numbers in the header

  predicate Digit(c: char) { '0' <= c <= '9' }

  predicate Digits(s: string) { |s| > 0 && forall i :: 0 <= i < |s| ==> Digit(s[i]) }

  function DigitsValue(s: string): nat
    requires forall i :: 0 <= i < |s| ==> Digit(s[i])
  {
    if s == "" then 0
    else
      var last := s[|s| - 1];
      assert Digit(last);
      DigitsValue(s[..|s| - 1]) * 10 + (last as int - '0' as int)
  }

  /** What `Number(text)` yields; None where it is not finite. */
  function Number(env: Env, text: string): Option<real> {
    if Digits(text) then Some(DigitsValue(text) as real)
    else if |text| > 1 && text[0] == '-' && Digits(text[1..]) then Some(-(DigitsValue(text[1..]) as real))
    else env.otherNumber(text)
  }

  function NatText(n: nat): (s: string)
    ensures Digits(s)
  {
    var last := [('0' as int + n % 10) as char];
    if n < 10 then last else NatText(n / 10) + last
  }

  function IntText(n: int): string { if n < 0 then "-" + NatText(-n) else NatText(n) }

  // ----- Node ids

  predicate Hex(c: char) { '0' <= c <= '9' || 'a' <= c <= 'f' || 'A' <= c <= 'F' }

  predicate IsUuid(s: string) {
    && |s| == 36
    && forall i :: 0 <= i < 36 ==> if i in {8, 13, 18, 23} then s[i] == '-' else Hex(s[i])
  }

  /** The id a uuid column compares equal to: letters in lower case. */
  function NodeIdOf(text: string): NodeId {
    seq(|text|, i requires 0 <= i < |text| => if 'A' <= text[i] <= 'F' then (text[i] as int + 32) as char else text[i])
  }

  /** So many hexadecimal digits. */
  predicate HexDigits(s: string, n: nat) {
    |s| == n && forall i :: 0 <= i < n ==> '0' <= s[i] <= '9' || 'a' <= s[i] <= 'f' || 'A' <= s[i] <= 'F'
  }

  ghost predicate Grouped(s: string, a: string, b: string, c: string, d: string, e: string) {
    && HexDigits(a, 8) && HexDigits(b, 4) && HexDigits(c, 4) && HexDigits(d, 4) && HexDigits(e, 12)
    && s == a + "-" + b + "-" + c + "-" + d + "-" + e
  }

  /** Hexadecimal digits in groups of eight, four, four, four and twelve, with hyphens between. */
  ghost predicate UuidText(s: string) { exists a, b, c, d, e :: Grouped(s, a, b, c, d, e) }

  /** `id` is `text` with its capitals made small. */
  ghost predicate Spells(text: string, id: NodeId) {
    && |text| == |id|
    && forall i :: 0 <= i < |id| ==>
         if 'A' <= text[i] <= 'Z' then id[i] as int == text[i] as int + 32 else id[i] == text[i]
  }

  lemma UuidsAreGrouped(s: string)
    ensures IsUuid(s) <==> UuidText(s)
  {
    if IsUuid(s) {
      assert forall i :: 0 <= i < 36 && i !in {8, 13, 18, 23} ==> Hex(s[i]);
      assert Grouped(s, s[..8], s[9..13], s[14..18], s[19..23], s[24..]);
    }
    if UuidText(s) {
      var a, b, c, d, e :| Grouped(s, a, b, c, d, e);
      forall i | 0 <= i < 36 ensures if i in {8, 13, 18, 23} then s[i] == '-' else Hex(s[i]) {
        GroupedAt(s, a, b, c, d, e, i);
      }
    }
  }

  lemma GroupedAt(s: string, a: string, b: string, c: string, d: string, e: string, i: nat)
    requires Grouped(s, a, b, c, d, e) && i < 36
    ensures |s| == 36
    ensures i < 8 ==> s[i] == a[i]
    ensures i in {8, 13, 18, 23} ==> s[i] == '-'
    ensures 8 < i < 13 ==> s[i] == b[i - 9]
    ensures 13 < i < 18 ==> s[i] == c[i - 14]
    ensures 18 < i < 23 ==> s[i] == d[i - 19]
    ensures 23 < i ==> s[i] == e[i - 24]
  {
  }

  /** A well-formed id names exactly the stored id it spells; one already in small letters names itself. */
  lemma WellFormedIdsSpell(text: string, id: NodeId)
    requires UuidText(text)
    ensures NodeIdOf(text) == id <==> Spells(text, id)
    ensures (forall i :: 0 <= i < |text| ==> !('A' <= text[i] <= 'Z')) ==> NodeIdOf(text) == text
  {
    UuidsAreGrouped(text);
    forall i | 0 <= i < 36 ensures 'A' <= text[i] <= 'Z' ==> 'A' <= text[i] <= 'F' {
      assert if i in {8, 13, 18, 23} then text[i] == '-' else Hex(text[i]);
    }
    if Spells(text, id) {
      assert NodeIdOf(text) == id;
    }
  }

  // ----- The header

  /** What the agent sends: three fields, and a signature over exactly their text. */
  function AuthHeader(nodeId: string, now: int, nonce: string, sign: string -> string): string {
    var payload := nodeId + "." + IntText(now) + "." + nonce;
    SCHEME + payload + "." + sign(payload)
  }

  function ParseHeader(header: Option<string>): Result<Credentials, AuthError> {
    if header.None? || !(SCHEME <= header.value) then Err(MissingHeader)
    else
      var parts := Split(header.value[|SCHEME|..]);
      if |parts| != 4 || "" in parts then Err(MalformedHeader)
      else if !IsUuid(parts[0]) then Err(MalformedNodeId)
      else Ok(Credentials(parts[0], parts[1], parts[2], parts[3]))
  }

  function SignedText(c: Credentials): string { c.nodeId + "." + c.millis + "." + c.nonce }

  function NonceKey(c: Credentials): (string, string) { (c.nodeId, c.nonce) }

  predicate InWindow(env: Env, at: real, now: int) {
    -(env.skewMs as real) <= now as real - at <= env.skewMs as real
  }

  /** Everything decided before the first query. */
  function CheckAt(env: Env, header: Option<string>, now: int): AuthPhase {
    match ParseHeader(header)
    case Err(e) => Rejected(e)
    case Ok(c) =>
      match Number(env, c.millis)
      case None => Rejected(MalformedTimestamp)
      case Some(at) => if InWindow(env, at, now) then Checked(c, at) else Rejected(OutsideWindow)
  }

  /** The look-up of the node's row, and the signature. */
  function VerifyAgainst(env: Env, nodes: Nodes, c: Credentials, at: real): AuthPhase {
    var id := NodeIdOf(c.nodeId);
    if id !in nodes then Rejected(UnknownNode)
    else if !env.keyParses(nodes[id].publicKey) then Rejected(BadStoredKey)
    else if !env.verifies(nodes[id].publicKey, SignedText(c), c.signature) then Rejected(InvalidSignature)
    else Verified(c, at, nodes[id].orgId)
  }

  /** A nonce key is live through its expiry instant. */
  predicate Live(nonces: Nonces, key: (string, string), now: int) {
    key in nonces && now <= nonces[key]
  }

  /** SET key NX PX: the first to set a key that is not live is accepted. */
  function RecordPhase(nonces: Nonces, phase: AuthPhase, now: int): AuthPhase
    requires phase.Verified?
  {
    if Live(nonces, NonceKey(phase.creds), now) then Rejected(Replayed)
    else Accepted(phase.creds, phase.at, phase.orgId, now)
  }

  function RecordNonce(env: Env, nonces: Nonces, c: Credentials, now: int): Nonces {
    if Live(nonces, NonceKey(c), now) then nonces else nonces[NonceKey(c) := now + 2 * env.skewMs]
  }

  /** The next statement of a call; one that does not follow its current phase changes nothing. */
  function NextPhase(env: Env, s: State, phase: AuthPhase, e: AuthEvent): AuthPhase {
    if e.Verify? && phase.Checked? then VerifyAgainst(env, s.nodes, phase.creds, phase.at)
    else if e.Record? && phase.Verified? then RecordPhase(s.nonces, phase, s.clock)
    else phase
  }

  function AuthStep(env: Env, s: State, c: nat, e: AuthEvent): (s': State)
    ensures s' == s.(auths := s'.auths, nonces := s'.nonces)
  {
    if c !in s.auths then
      if e.Check? then s.(auths := s.auths[c := AuthCall(e.header, s.clock, CheckAt(env, e.header, s.clock))]) else s
    else
      var phase := s.auths[c].phase;
      s.(auths := s.auths[c := s.auths[c].(phase := NextPhase(env, s, phase, e))],
         nonces := if e.Record? && phase.Verified? then RecordNonce(env, s.nonces, phase.creds, s.clock) else s.nonces)
  }

  /** An accepted call is an open stream for this node of this tenant. */
  predicate IsOpen(s: State, c: nat) { c in s.auths && s.auths[c].phase.Accepted? }

  function StreamNode(s: State, c: nat): NodeId
    requires IsOpen(s, c)
  {
    NodeIdOf(s.auths[c].phase.creds.nodeId)
  }

  function StreamOrg(s: State, c: nat): OrgId
    requires IsOpen(s, c)
  {
    s.auths[c].phase.orgId
  }
}
