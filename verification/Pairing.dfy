/** Pairing codes: their spelling, and the statements that mint, claim and release them. */
module Pairing {
  import opened Base
  import opened Fleet

  // ----- Spelling

  const ALPHABET_SIZE := 32

  /** The code alphabet: A to H, J to N, P to Z, then 2 to 9. No I, O, 0 or 1. */
  function AlphabetAt(i: nat): (c: char)
    requires i < ALPHABET_SIZE
    ensures Kept(c) && c !in {'I', 'O', '0', '1'}
  {
    if i < 8 then 'A' + i as char else if i < 13 then 'J' + (i - 8) as char
    else if i < 24 then 'P' + (i - 13) as char else '2' + (i - 24) as char
  }

  predicate Kept(c: char) { 'A' <= c <= 'Z' || '0' <= c <= '9' }

  function Capital(c: char): (r: char)
    requires 'a' <= c <= 'z'
    ensures 'A' <= r <= 'Z'
  {
    (c as int - 32) as char
  }

  function Small(c: char): (r: char)
    requires 'A' <= c <= 'Z'
    ensures 'a' <= r <= 'z' && Capital(r) == c
  {
    (c as int + 32) as char
  }

  function UpperChar(other: char -> string, c: char): string {
    if 'a' <= c <= 'z' then [Capital(c)] else if c as int < 128 then [c] else other(c)
  }

  function Filter(code: string): string {
    if code == "" then "" else Filter(code[..|code| - 1]) + if Kept(code[|code| - 1]) then [code[|code| - 1]] else ""
  }

  /** Upper case, then only letters and digits: case-insensitive and blind to punctuation. */
  function Normalize(other: char -> string, code: string): string {
    if code == "" then "" else Normalize(other, code[..|code| - 1]) + Filter(UpperChar(other, code[|code| - 1]))
  }

  predicate Picks(picks: seq<nat>) { forall i :: 0 <= i < |picks| ==> picks[i] < ALPHABET_SIZE }

  /** The code drawn by eight random picks from the alphabet. */
  function GenerateCode(picks: seq<nat>): string
    requires |picks| == 8 && Picks(picks)
  {
    Spell(picks[..4]) + "-" + Spell(picks[4..])
  }

  function Spell(picks: seq<nat>): (s: string)
    requires Picks(picks)
    ensures |s| == |picks| && forall i :: 0 <= i < |s| ==> s[i] == AlphabetAt(picks[i])
  {
    seq(|picks|, i requires 0 <= i < |picks| => AlphabetAt(picks[i]))
  }

  /** The ways a person may retype a code. */
  datatype Edit = SwapCase(at: nat) | AddSeparator(at: nat, c: char) | DropSeparator(at: nat)

  predicate Letter(c: char) { 'a' <= c <= 'z' || 'A' <= c <= 'Z' }

  predicate Separator(c: char) { c as int < 128 && !Letter(c) && !('0' <= c <= '9') }

  function Swapped(c: char): char
    requires Letter(c)
  {
    if 'a' <= c <= 'z' then Capital(c) else Small(c)
  }

  function Retype(code: string, e: Edit): string {
    match e
    case SwapCase(i) => if i < |code| && Letter(code[i]) then code[i := Swapped(code[i])] else code
    case AddSeparator(i, c) => if i <= |code| && Separator(c) then code[..i] + [c] + code[i..] else code
    case DropSeparator(i) => if i < |code| && Separator(code[i]) then code[..i] + code[i + 1..] else code
  }

  function RetypeAll(code: string, edits: seq<Edit>): string {
    if edits == [] then code else Retype(RetypeAll(code, edits[..|edits| - 1]), edits[|edits| - 1])
  }

  lemma NormalizeLast(other: char -> string, front: string, c: char)
    ensures Normalize(other, front + [c]) == Normalize(other, front) + Filter(UpperChar(other, c))
  {
    assert (front + [c])[..|front|] == front;
  }

  lemma Assoc(a: string, b: string, c: string)
    ensures (a + b) + c == a + (b + c)
  {
  }

  lemma {:induction false} NormalizeConcat(other: char -> string, a: string, b: string)
    ensures Normalize(other, a + b) == Normalize(other, a) + Normalize(other, b)
    decreases |b|
  {
    if |b| == 0 {
      assert a + b == a;
    } else {
      var front, c := Unsnoc(b);
      NormalizeConcat(other, a, front);
      NormalizeLast(other, front, c);
      NormalizeLast(other, a + front, c);
      Assoc(a, front, [c]);
      Assoc(Normalize(other, a), Normalize(other, front), Filter(UpperChar(other, c)));
    }
  }

  /** What one ASCII character contributes to the normal form. */
  function Contribution(c: char): string {
    if Separator(c) then "" else if 'a' <= c <= 'z' then [Capital(c)] else [c]
  }

  lemma NormalizeChar(other: char -> string, c: char)
    requires c as int < 128
    ensures Normalize(other, [c]) == Contribution(c)
  {
    var u := UpperChar(other, c);
    assert [c][..0] == "" && u[..0] == "";
    assert Normalize(other, [c]) == Normalize(other, "") + Filter(u);
    assert Filter(u) == Filter("") + if Kept(u[0]) then [u[0]] else "";
  }

  lemma FilterLast(front: string, c: char)
    ensures Filter(front + [c]) ==
            Filter(front) + if 'A' <= c <= 'Z' || '0' <= c <= '9' then [c] else ""
  {
    assert (front + [c])[..|front|] == front;
  }

  /** What each character leaves: an ASCII letter its capital, a digit itself, another character what `other` says. */
  lemma NormalizeEach(other: char -> string, front: string, c: char)
    ensures Normalize(other, "") == "" && Filter("") == ""
    ensures Normalize(other, front + [c]) == Normalize(other, front) +
            if 'a' <= c <= 'z' then [(c as int - 32) as char]
            else if 'A' <= c <= 'Z' || '0' <= c <= '9' then [c]
            else if c as int < 128 then "" else Filter(other(c))
  {
    NormalizeLast(other, front, c);
    FilterLast("", c);
    if 'a' <= c <= 'z' {
      FilterLast("", (c as int - 32) as char);
      assert "" + [(c as int - 32) as char] == [(c as int - 32) as char];
    } else {
      assert "" + [c] == [c];
    }
  }

  lemma NormalizeAround(other: char -> string, left: string, c: char, right: string)
    requires c as int < 128
    ensures Normalize(other, left + [c] + right) == Normalize(other, left) + Contribution(c) + Normalize(other, right)
  {
    NormalizeConcat(other, left + [c], right);
    NormalizeConcat(other, left, [c]);
    NormalizeChar(other, c);
  }

  lemma SeparatorInvisible(other: char -> string, left: string, c: char, right: string)
    requires Separator(c)
    ensures Normalize(other, left + [c] + right) == Normalize(other, left + right)
  {
    NormalizeAround(other, left, c, right);
    NormalizeConcat(other, left, right);
  }

  lemma CaseInvisible(other: char -> string, left: string, c: char, right: string)
    requires Letter(c)
    ensures Normalize(other, left + [c] + right) == Normalize(other, left + [Swapped(c)] + right)
  {
    NormalizeAround(other, left, c, right);
    NormalizeAround(other, left, Swapped(c), right);
    assert Contribution(c) == Contribution(Swapped(c));
  }

  lemma CutAt(code: string, i: nat) returns (left: string, right: string)
    requires i <= |code|
    ensures code == left + right && left == code[..i] && right == code[i..]
  {
    left, right := code[..i], code[i..];
  }

  lemma PickAt(code: string, i: nat) returns (left: string, right: string)
    requires i < |code|
    ensures code == left + [code[i]] + right
    ensures code[..i] + code[i + 1..] == left + right
    ensures forall d :: code[i := d] == left + [d] + right
  {
    left, right := code[..i], code[i + 1..];
  }

  lemma RetypeKeepsNormalForm(other: char -> string, code: string, e: Edit)
    ensures Normalize(other, Retype(code, e)) == Normalize(other, code)
  {
    var i := e.at;
    match e
    case AddSeparator(_, c) =>
      if i <= |code| && Separator(c) {
        var left, right := CutAt(code, i);
        SeparatorInvisible(other, left, c, right);
      }
    case DropSeparator(_) =>
      if i < |code| && Separator(code[i]) {
        var left, right := PickAt(code, i);
        SeparatorInvisible(other, left, code[i], right);
      }
    case SwapCase(_) =>
      if i < |code| && Letter(code[i]) {
        var left, right := PickAt(code, i);
        CaseInvisible(other, left, code[i], right);
      }
  }

  /** However a code is retyped in case and punctuation, it is the same code. */
  lemma {:induction false} VariantsShareNormalForm(other: char -> string, code: string, edits: seq<Edit>)
    ensures Normalize(other, RetypeAll(code, edits)) == Normalize(other, code)
  {
    if edits != [] {
      VariantsShareNormalForm(other, code, edits[..|edits| - 1]);
      RetypeKeepsNormalForm(other, RetypeAll(code, edits[..|edits| - 1]), edits[|edits| - 1]);
    }
  }

  lemma NormalizeOwn(other: char -> string, c: char)
    requires Kept(c)
    ensures Filter(UpperChar(other, c)) == [c]
  {
    NormalizeChar(other, c);
    NormalizeLast(other, "", c);
    assert "" + [c] == [c];
  }

  /** Capital letters and digits are already in normal form, so nothing else is ever confused. */
  lemma {:induction false} CanonicalIsNormal(other: char -> string, code: string)
    requires forall i :: 0 <= i < |code| ==> Kept(code[i])
    ensures Normalize(other, code) == code
  {
    if |code| > 0 {
      var front, c := code[..|code| - 1], code[|code| - 1];
      assert code == front + [c];
      CanonicalIsNormal(other, front);
      NormalizeLast(other, front, c);
      NormalizeOwn(other, c);
    }
  }

  lemma AlphabetDistinct(i: nat, j: nat)
    requires i < ALPHABET_SIZE && j < ALPHABET_SIZE && AlphabetAt(i) == AlphabetAt(j)
    ensures i == j
  {
  }

  lemma AlphabetIs(i: nat)
    requires i < ALPHABET_SIZE
    ensures AlphabetAt(i) == "ABCDEFGHJKLMNPQRSTUVWXYZ23456789"[i]
  {
  }

  /** Two groups of four letters of the alphabet, a dash between them. */
  lemma GeneratedCodeAt(picks: seq<nat>, i: nat)
    requires |picks| == 8 && Picks(picks) && i < 8
    ensures |GenerateCode(picks)| == 9 && GenerateCode(picks)[4] == '-'
    ensures GenerateCode(picks)[if i < 4 then i else i + 1] == "ABCDEFGHJKLMNPQRSTUVWXYZ23456789"[picks[i]]
  {
    AlphabetIs(picks[i]);
    var left, right := Spell(picks[..4]), Spell(picks[4..]);
    assert if i < 4 then left[i] == AlphabetAt(picks[i]) else right[i - 4] == AlphabetAt(picks[i]);
  }

  /** What is drawn is what a code normalizes to, and no two draws share a normal form. */
  lemma GeneratedCodes(other: char -> string, picks: seq<nat>, picks': seq<nat>)
    requires |picks| == 8 && Picks(picks)
    requires |picks'| == 8 && Picks(picks')
    ensures Normalize(other, GenerateCode(picks)) == Spell(picks)
    ensures Normalize(other, GenerateCode(picks)) == Normalize(other, GenerateCode(picks')) ==> picks == picks'
  {
    GeneratedNormalForm(other, picks);
    GeneratedNormalForm(other, picks');
    if Spell(picks) == Spell(picks') {
      forall i | 0 <= i < 8 ensures picks[i] == picks'[i] {
        assert Spell(picks)[i] == Spell(picks')[i];
        AlphabetDistinct(picks[i], picks'[i]);
      }
    }
  }

  lemma DashedIsNormal(other: char -> string, left: string, right: string)
    requires forall i :: 0 <= i < |left| ==> Kept(left[i])
    requires forall i :: 0 <= i < |right| ==> Kept(right[i])
    ensures Normalize(other, left + "-" + right) == left + right
  {
    SeparatorInvisible(other, left, '-', right);
    NormalizeConcat(other, left, right);
    CanonicalIsNormal(other, left);
    CanonicalIsNormal(other, right);
  }

  lemma GeneratedNormalForm(other: char -> string, picks: seq<nat>)
    requires |picks| == 8 && Picks(picks)
    ensures Normalize(other, GenerateCode(picks)) == Spell(picks)
  {
    DashedIsNormal(other, Spell(picks[..4]), Spell(picks[4..]));
    assert Spell(picks) == Spell(picks[..4]) + Spell(picks[4..]);
  }

  // ----- Statements

  function HashCode(env: Env, code: string): string { env.hmac(Normalize(env.upperOther, code)) }

  /** The one thing assumed of the HMAC, and only where it is named: different texts have different hashes. */
  ghost predicate Injective(hash: string -> string) { forall a, b :: hash(a) == hash(b) ==> a == b }

  /** Two texts are the same code exactly when they share a normal form. */
  lemma SameCodeExactly(env: Env, a: string, b: string)
    requires Injective(env.hmac)
    ensures HashCode(env, a) == HashCode(env, b) <==> Normalize(env.upperOther, a) == Normalize(env.upperOther, b)
  {
  }

  predicate Unused(codes: Codes, hash: string) { hash in codes && codes[hash].usedAt.None? }

  /** UPDATE ... SET used_at WHERE code_hash AND used_at IS NULL. */
  function Claim(codes: Codes, hash: string, now: int): Codes {
    if Unused(codes, hash) then codes[hash := codes[hash].(usedAt := Some(now))] else codes
  }

  /** UPDATE ... SET used_at = NULL. */
  function Release(codes: Codes, hash: string): Codes {
    if hash in codes then codes[hash := codes[hash].(usedAt := None)] else codes
  }

  /** A redemption with nothing else happening between its statements. */
  function Redeem(codes: Codes, hash: string, now: int): (Result<(OrgId, string), EnrollError>, Codes) {
    if hash !in codes then (Err(UnknownCode), codes)
    else if codes[hash].usedAt.Some? then (Err(CodeAlreadyUsed), codes)
    else if codes[hash].expiresAt < now then (Err(CodeExpired), Release(Claim(codes, hash, now), hash))
    else (Ok((codes[hash].orgId, codes[hash].nodeName)), Claim(codes, hash, now))
  }

  /** A redemption: which of the four answers, and what it leaves of the table. */
  ghost predicate Redeems(codes: Codes, hash: string, now: int, r: Result<(OrgId, string), EnrollError>, after: Codes) {
    && (r == Err(UnknownCode) <==> hash !in codes)
    && (hash in codes ==>
          var row := codes[hash];
          && (r == Err(CodeAlreadyUsed) <==> row.usedAt.Some?)
          && (r == Err(CodeExpired) <==> row.usedAt.None? && row.expiresAt < now)
          && (r.Ok? <==> row.usedAt.None? && now <= row.expiresAt)
          && (r.Ok? ==> r.value == (row.orgId, row.nodeName)))
    && after == if r.Ok? then codes[hash := codes[hash].(usedAt := Some(now))] else codes
  }

  lemma RedeemAnswers(codes: Codes, hash: string, now: int)
    ensures Redeems(codes, hash, now, Redeem(codes, hash, now).0, Redeem(codes, hash, now).1)
  {
    if Unused(codes, hash) {
      assert Release(Claim(codes, hash, now), hash) == codes;
    }
  }

  function RedeemRepeatedly(codes: Codes, hash: string, times: seq<int>):
    (seq<Result<(OrgId, string), EnrollError>>, Codes)
    decreases times
  {
    if times == [] then ([], codes)
    else
      var (first, codes1) := Redeem(codes, hash, times[0]);
      var (rest, codes2) := RedeemRepeatedly(codes1, hash, times[1..]);
      ([first] + rest, codes2)
  }

  /** Past its expiry an unused code says "expired" to every retry, and stays as it was. */
  lemma {:induction false} ExpiredStaysExpired(codes: Codes, hash: string, times: seq<int>)
    requires Unused(codes, hash) && forall i :: 0 <= i < |times| ==> codes[hash].expiresAt < times[i]
    ensures var (results, after) := RedeemRepeatedly(codes, hash, times);
            after == codes && |results| == |times| && forall i :: 0 <= i < |results| ==> results[i] == Err(CodeExpired)
  {
    if times != [] {
      assert Release(Claim(codes, hash, times[0]), hash) == codes;
      ExpiredStaysExpired(codes, hash, times[1..]);
    }
  }

  lemma {:induction false} UsedStaysUsed(codes: Codes, hash: string, times: seq<int>)
    requires hash in codes && codes[hash].usedAt.Some?
    ensures var (results, after) := RedeemRepeatedly(codes, hash, times);
            && after == codes && |results| == |times|
            && forall i :: 0 <= i < |results| ==> results[i] == Err(CodeAlreadyUsed)
  {
    if times != [] {
      UsedStaysUsed(codes, hash, times[1..]);
    }
  }

  /** Of any attempts on an unused code, the first if in time wins, and all the others are told it is used. */
  lemma OneWinner(codes: Codes, hash: string, times: seq<int>)
    requires Unused(codes, hash) && times != [] && times[0] <= codes[hash].expiresAt
    ensures var (results, after) := RedeemRepeatedly(codes, hash, times);
            && |results| == |times|
            && results[0] == Ok((codes[hash].orgId, codes[hash].nodeName))
            && (forall i :: 0 < i < |results| ==> results[i] == Err(CodeAlreadyUsed))
            && after == Claim(codes, hash, times[0])
  {
    UsedStaysUsed(Claim(codes, hash, times[0]), hash, times[1..]);
  }
}
