/**
 * The agent's private key: kept in the OS keychain, or in a file when no keychain
 * is usable. Both backends may refuse any single call, at any moment.
 */
module Identity {
  import opened Base

  type Key = seq<bv8>

  const KEY_SIZE := 64

  /** Base64 and white-space trimming, which are library calls. */
  datatype Codec = Codec(encode: Key -> string, decode: string -> Option<Key>, trim: string -> string) {
    ghost predicate Faithful() {
      forall k: Key :: |k| == KEY_SIZE ==> decode(encode(k)) == Some(k) && trim(encode(k)) == encode(k)
    }
  }

  datatype Store = Store(keychain: Option<string>, file: Option<string>)

  const EMPTY := Store(None, None)

  /** Which backend calls go through, this time. */
  datatype Weather = Weather(getWorks: bool, setWorks: bool, readWorks: bool, writeWorks: bool, keyGenerates: bool)

  datatype Error = NoIdentity | Corrupt | KeychainUnavailable | FileUnreadable | FileUnwritable | NoKey

  function DecodeKey(codec: Codec, text: string): Result<Key, Error> {
    match codec.decode(text)
    case None => Err(Corrupt)
    case Some(k) => if |k| == KEY_SIZE then Ok(k) else Err(Corrupt)
  }

  function LoadFile(codec: Codec, s: Store, w: Weather): Result<Key, Error> {
    if !w.readWorks then Err(FileUnreadable)
    else if s.file.None? then Err(NoIdentity)
    else DecodeKey(codec, codec.trim(s.file.value))
  }

  /** Keychain before file; "no identity" is an answer only when both were looked into and had nothing. */
  function Load(codec: Codec, s: Store, w: Weather): Result<Key, Error> {
    if w.getWorks && s.keychain.Some? then DecodeKey(codec, s.keychain.value)
    else
      var fromFile := LoadFile(codec, s, w);
      if fromFile.Ok? || w.getWorks then fromFile else Err(KeychainUnavailable)
  }

  /** No entry to be had and plainly no file: the only case in which a new key is made. */
  predicate Mints(s: Store, w: Weather) { !(w.getWorks && s.keychain.Some?) && w.readWorks && s.file.None? }

  function LoadOrCreate(codec: Codec, s: Store, w: Weather, minted: Key): (Result<Key, Error>, Store) {
    if w.getWorks && s.keychain.Some? then (DecodeKey(codec, s.keychain.value), s)
    else if !Mints(s, w) then
      var fromFile := LoadFile(codec, s, w);
      (if fromFile.Ok? || w.getWorks then fromFile else Err(KeychainUnavailable), s)
    else if !w.keyGenerates then (Err(if w.getWorks then NoKey else KeychainUnavailable), s)
    else if w.getWorks && w.setWorks then (Ok(minted), s.(keychain := Some(codec.encode(minted))))
    else if w.writeWorks then (Ok(minted), s.(file := Some(codec.encode(minted))))
    else (Err(if w.getWorks then FileUnwritable else KeychainUnavailable), s)
  }

  /** Each backend is cleared on its own; what cannot be cleared is reported. */
  function Delete(s: Store, w: Weather): (seq<Error>, Store) {
    ((if w.setWorks then [] else [KeychainUnavailable]) +
     (if w.writeWorks || s.file.None? then [] else [FileUnwritable]),
     Store(if w.setWorks then None else s.keychain, if w.writeWorks then None else s.file))
  }

  // ----- The store as the agent updates it

  class KeyStore {
    var store: Store
    const codec: Codec

    constructor (codec: Codec, store: Store)
      ensures this.codec == codec && this.store == store
    {
      this.codec := codec;
      this.store := store;
    }

    method LoadKey(w: Weather) returns (r: Result<Key, Error>)
      ensures r == Load(codec, store, w)
    {
      if w.getWorks && store.keychain.Some? {
        return DecodeKey(codec, store.keychain.value);
      }
      r := LoadFile(codec, store, w);
      if r.Err? && !w.getWorks {
        r := Err(KeychainUnavailable);
      }
    }

    method LoadOrCreateKey(w: Weather, minted: Key) returns (r: Result<Key, Error>)
      modifies this`store
      ensures (r, store) == LoadOrCreate(codec, old(store), w, minted)
    {
      if w.getWorks && store.keychain.Some? {
        return DecodeKey(codec, store.keychain.value);
      }
      r := LoadOrCreateFallback(w, minted);
      if r.Err? && !w.getWorks {
        r := Err(KeychainUnavailable);
      }
    }

    /** Reached when the keychain gave no key: nothing is generated while the file can be read or is damaged. */
    method LoadOrCreateFallback(w: Weather, minted: Key) returns (r: Result<Key, Error>)
      requires !(w.getWorks && store.keychain.Some?)
      modifies this`store
      ensures store == LoadOrCreate(codec, old(store), w, minted).1
      ensures (if r.Err? && !w.getWorks then Err(KeychainUnavailable) else r)
           == LoadOrCreate(codec, old(store), w, minted).0
    {
      r := LoadFile(codec, store, w);
      if r != Err(NoIdentity) {
        return;
      }
      if !w.keyGenerates {
        return Err(NoKey);
      }
      if w.getWorks && w.setWorks {
        store := store.(keychain := Some(codec.encode(minted)));
        return Ok(minted);
      }
      if !w.writeWorks {
        return Err(FileUnwritable);
      }
      store := store.(file := Some(codec.encode(minted)));
      r := Ok(minted);
    }

    method DeleteKey(w: Weather) returns (errors: seq<Error>)
      modifies this`store
      ensures (errors, store) == Delete(old(store), w)
    {
      errors := [];
      if w.setWorks {
        store := store.(keychain := None);
      } else {
        errors := errors + [KeychainUnavailable];
      }
      if w.writeWorks {
        store := store.(file := None);
      } else if store.file.Some? {
        errors := errors + [FileUnwritable];
      }
      assert errors == Delete(old(store), w).0;
    }
  }

  // ----- Every answer, and what brings it

  /** The text is a key in base64, of the right length. */
  ghost predicate Spelled(codec: Codec, text: string, k: Key) { codec.decode(text) == Some(k) && |k| == 64 }

  /** What a readable file says, if anything does. */
  ghost predicate InFile(codec: Codec, s: Store, w: Weather, k: Key) {
    w.readWorks && s.file.Some? && Spelled(codec, codec.trim(s.file.value), k)
  }

  ghost predicate InKeychain(codec: Codec, s: Store, w: Weather, k: Key) {
    w.getWorks && s.keychain.Some? && Spelled(codec, s.keychain.value, k)
  }

  /** The keychain answered, and has no entry or cannot be asked. */
  predicate NoEntry(s: Store, w: Weather) { w.getWorks ==> s.keychain.None? }

  /**
   * Loading, answer by answer. A readable keychain entry decides; without one the
   * file does, except that with the keychain unreadable every failure is put down
   * to the keychain.
   */
  lemma LoadAnswers(codec: Codec, s: Store, w: Weather, k: Key)
    ensures Load(codec, s, w) == Ok(k) <==> InKeychain(codec, s, w, k) || (NoEntry(s, w) && InFile(codec, s, w, k))
    ensures Load(codec, s, w) == Err(NoIdentity)
       <==> w.getWorks && s.keychain.None? && w.readWorks && s.file.None?
    ensures Load(codec, s, w) == Err(FileUnreadable) <==> w.getWorks && s.keychain.None? && !w.readWorks
    ensures Load(codec, s, w) == Err(KeychainUnavailable)
       <==> !w.getWorks && forall j :: !InFile(codec, s, w, j)
    ensures Load(codec, s, w) == Err(Corrupt)
       <==> w.getWorks && if s.keychain.Some? then forall j :: !InKeychain(codec, s, w, j)
                          else w.readWorks && s.file.Some? && forall j :: !InFile(codec, s, w, j)
  {
    if w.getWorks && s.keychain.Some? {
      var decoded := codec.decode(s.keychain.value);
      assert decoded.Some? && |decoded.value| == 64 ==> InKeychain(codec, s, w, decoded.value);
    } else if w.readWorks && s.file.Some? {
      var decoded := codec.decode(codec.trim(s.file.value));
      assert decoded.Some? && |decoded.value| == 64 ==> InFile(codec, s, w, decoded.value);
    }
  }

  /**
   * Creating. A key is made exactly when no entry is to be had and there plainly
   * is no file; it goes to the keychain if that can be read and written, else to
   * the file. In every other case the answer is what loading says.
   */
  lemma CreateAnswers(codec: Codec, s: Store, w: Weather, minted: Key)
    ensures var (r, after) := LoadOrCreate(codec, s, w, minted);
            var making := NoEntry(s, w) && w.readWorks && s.file.None?;
            var toKeychain := w.getWorks && w.setWorks;
            && (!making ==> r == Load(codec, s, w) && after == s)
            && (making ==> (r == Ok(minted) <==> w.keyGenerates && (toKeychain || w.writeWorks)))
            && (making && r.Ok? ==>
                  r == Ok(minted)
                  && after == if toKeychain then Store(Some(codec.encode(minted)), s.file)
                              else Store(s.keychain, Some(codec.encode(minted))))
            && (making && r.Err? ==>
                  after == s && r.error == if !w.getWorks then KeychainUnavailable
                                           else if !w.keyGenerates then NoKey else FileUnwritable)
  {
  }

  /** Deleting clears what it can and reports exactly what it could not. */
  lemma DeleteAnswers(s: Store, w: Weather)
    ensures var (errors, after) := Delete(s, w);
            && after.keychain == (if w.setWorks then None else s.keychain)
            && after.file == (if w.writeWorks then None else s.file)
            && (KeychainUnavailable in errors <==> !w.setWorks)
            && (FileUnwritable in errors <==> !w.writeWorks && s.file.Some?)
            && (forall e :: e in errors ==> e == KeychainUnavailable || e == FileUnwritable)
  {
  }

  // ----- One identity, whatever the weather

  /** The store holds this key and no other, in one of its two places. */
  ghost predicate Holds(codec: Codec, s: Store, k: Key) {
    || s == Store(Some(codec.encode(k)), None)
    || s == Store(None, Some(codec.encode(k)))
  }

  lemma CreatedKeyIsHeld(codec: Codec, w: Weather, minted: Key)
    requires LoadOrCreate(codec, EMPTY, w, minted).0.Ok?
    ensures LoadOrCreate(codec, EMPTY, w, minted).0.value == minted
    ensures Holds(codec, LoadOrCreate(codec, EMPTY, w, minted).1, minted)
  {
  }

  datatype Op = DoLoad(weather: Weather) | DoLoadOrCreate(weather: Weather, minted: Key)

  function Perform(codec: Codec, s: Store, op: Op): (Result<Key, Error>, Store) {
    match op
    case DoLoad(w) => (Load(codec, s, w), s)
    case DoLoadOrCreate(w, minted) => LoadOrCreate(codec, s, w, minted)
  }

  function PerformAll(codec: Codec, s: Store, ops: seq<Op>): (seq<Result<Key, Error>>, Store) {
    if ops == [] then ([], s)
    else
      var (results, s1) := PerformAll(codec, s, ops[..|ops| - 1]);
      var (result, s2) := Perform(codec, s1, ops[|ops| - 1]);
      (results + [result], s2)
  }

  /** Enrolling again is safe unless the key is in a keychain that cannot be read and no file says otherwise. */
  predicate Safe(s: Store, op: Op) { op.DoLoadOrCreate? ==> !Mints(s, op.weather) }

  lemma SafeOpKeepsKey(codec: Codec, s: Store, k: Key, op: Op)
    requires codec.Faithful() && |k| == KEY_SIZE && Holds(codec, s, k) && Safe(s, op)
    ensures Perform(codec, s, op).1 == s
    ensures Perform(codec, s, op).0.Ok? ==> Perform(codec, s, op).0.value == k
    ensures Perform(codec, s, op).0 != Err(NoIdentity)
  {
    assert codec.decode(codec.encode(k)) == Some(k) && codec.trim(codec.encode(k)) == codec.encode(k);
  }

  /**
   * Stable identity: along any run of loads and safe re-enrollments, with the
   * keychain and the file coming and going as they please, every success returns
   * the one key, nobody is told there is none, and nothing is rewritten.
   */
  lemma {:induction false} IdentityIsStable(codec: Codec, s: Store, k: Key, ops: seq<Op>)
    requires codec.Faithful() && |k| == KEY_SIZE && Holds(codec, s, k)
    requires forall i :: 0 <= i < |ops| ==> Safe(s, ops[i])
    ensures var (results, after) := PerformAll(codec, s, ops);
            && after == s && |results| == |ops|
            && forall i :: 0 <= i < |results| ==>
                 (results[i].Ok? ==> results[i].value == k) && results[i] != Err(NoIdentity)
  {
    if ops != [] {
      IdentityIsStable(codec, s, k, ops[..|ops| - 1]);
      SafeOpKeepsKey(codec, s, k, ops[|ops| - 1]);
    }
  }

  /**
   * From an empty store: after the first success, loads are always safe, and a key
   * in the file never risks a second.
   */
  lemma {:induction false} FirstKeyStays(codec: Codec, w: Weather, minted: Key, ops: seq<Op>)
    requires codec.Faithful() && |minted| == KEY_SIZE && LoadOrCreate(codec, EMPTY, w, minted).0.Ok?
    requires LoadOrCreate(codec, EMPTY, w, minted).1.file.Some? || forall i :: 0 <= i < |ops| ==> ops[i].DoLoad?
    ensures var s := LoadOrCreate(codec, EMPTY, w, minted).1;
            var (results, after) := PerformAll(codec, s, ops);
            && after == s && |results| == |ops|
            && forall i :: 0 <= i < |results| ==>
                 (results[i].Ok? ==> results[i].value == minted) && results[i] != Err(NoIdentity)
  {
    var s := LoadOrCreate(codec, EMPTY, w, minted).1;
    CreatedKeyIsHeld(codec, w, minted);
    IdentityIsStable(codec, s, minted, ops);
  }

  // ----- Any run at all

  /** Entries are only ever added; once there is a file, nothing is. */
  ghost predicate Grows(s: Store, s': Store) {
    && (s.keychain.Some? ==> s'.keychain == s.keychain)
    && (s.file.Some? ==> s' == s)
  }

  lemma PerformGrows(codec: Codec, s: Store, op: Op)
    ensures Grows(s, Perform(codec, s, op).1)
  {
  }

  /** Every entry is some key, properly encoded. */
  ghost predicate WellKept(codec: Codec, s: Store) {
    && (s.keychain.Some? ==> exists k :: Entry(codec, s.keychain, k))
    && (s.file.Some? ==> exists k :: Entry(codec, s.file, k))
  }

  ghost predicate Entry(codec: Codec, stored: Option<string>, k: Key) {
    |k| == KEY_SIZE && stored == Some(codec.encode(k))
  }

  ghost predicate Stored(codec: Codec, s: Store, k: Key) { Entry(codec, s.keychain, k) || Entry(codec, s.file, k) }

  lemma EntryDecodes(codec: Codec, stored: Option<string>, k: Key)
    requires codec.Faithful() && Entry(codec, stored, k)
    ensures DecodeKey(codec, stored.value) == Ok(k) && DecodeKey(codec, codec.trim(stored.value)) == Ok(k)
  {
  }

  ghost predicate ProperKeys(ops: seq<Op>) {
    forall i :: 0 <= i < |ops| && ops[i].DoLoadOrCreate? ==> |ops[i].minted| == KEY_SIZE
  }

  lemma PerformReturnsStored(codec: Codec, s: Store, op: Op)
    requires codec.Faithful() && WellKept(codec, s) && (op.DoLoadOrCreate? ==> |op.minted| == KEY_SIZE)
    ensures var (result, after) := Perform(codec, s, op);
            WellKept(codec, after) && (result.Ok? ==> Stored(codec, after, result.value))
  {
    if s.keychain.Some? {
      var k :| Entry(codec, s.keychain, k);
      EntryDecodes(codec, s.keychain, k);
    }
    if s.file.Some? {
      var k :| Entry(codec, s.file, k);
      EntryDecodes(codec, s.file, k);
    }
    if op.DoLoadOrCreate? {
      assert Entry(codec, Some(codec.encode(op.minted)), op.minted);
    }
  }

  lemma PerformMore(codec: Codec, s: Store, front: seq<Op>, op: Op)
    ensures var (results, mid) := PerformAll(codec, s, front);
            var (result, after) := Perform(codec, mid, op);
            PerformAll(codec, s, front + [op]) == (results + [result], after)
  {
    assert (front + [op])[..|front|] == front;
  }

  /** Along any run each place is written at most once, and none after the file. */
  lemma {:induction false} PlacesAreWrittenOnce(codec: Codec, s: Store, first: seq<Op>, later: seq<Op>)
    ensures Grows(PerformAll(codec, s, first).1, PerformAll(codec, s, first + later).1)
    decreases |later|
  {
    if |later| == 0 {
      assert first + later == first;
    } else {
      var front, op := Unsnoc(later);
      PlacesAreWrittenOnce(codec, s, first, front);
      assert first + later == (first + front) + [op];
      PerformMore(codec, s, first + front, op);
      PerformGrows(codec, PerformAll(codec, s, first + front).1, op);
    }
  }

  /**
   * However often an agent loads and enrolls, and whatever its backends do, from
   * an empty store it uses at most two keys: every success returned the key that
   * is in the keychain at the end or the key that is in the file.
   */
  lemma {:induction false} AtMostTwoKeys(codec: Codec, ops: seq<Op>)
    requires codec.Faithful() && ProperKeys(ops)
    ensures var (results, after) := PerformAll(codec, EMPTY, ops);
            && WellKept(codec, after) && |results| == |ops|
            && forall i :: 0 <= i < |results| && results[i].Ok? ==> Stored(codec, after, results[i].value)
    decreases |ops|
  {
    if |ops| > 0 {
      var front, op := Unsnoc(ops);
      assert forall i :: 0 <= i < |front| ==> front[i] == ops[i];
      assert ops[|front|] == op;
      AtMostTwoKeys(codec, front);
      PerformMore(codec, EMPTY, front, op);
      PerformGrows(codec, PerformAll(codec, EMPTY, front).1, op);
      PerformReturnsStored(codec, PerformAll(codec, EMPTY, front).1, op);
    }
  }

  /**
   * Exactly when enrolling again replaces the identity: a locked keychain holds
   * the key, and a new one can be written.
   */
  lemma SecondKeyExactlyWhenLocked(codec: Codec, s: Store, k: Key, w: Weather, minted: Key)
    requires codec.Faithful() && |k| == KEY_SIZE && |minted| == KEY_SIZE && minted != k && Holds(codec, s, k)
    ensures LoadOrCreate(codec, s, w, minted).0 == Ok(minted)
        <==> s.keychain.Some? && !w.getWorks && w.readWorks && w.keyGenerates && w.writeWorks
    ensures LoadOrCreate(codec, s, w, minted).0 != Ok(minted) ==> LoadOrCreate(codec, s, w, minted).1 == s
  {
    assert codec.decode(codec.encode(k)) == Some(k) && codec.trim(codec.encode(k)) == codec.encode(k);
  }

  /** And then which key a load returns depends on whether the keychain happens to be unlocked. */
  lemma LockedReenrollmentSplitsIdentity(codec: Codec, k: Key, minted: Key, w: Weather, locked: Weather)
    requires codec.Faithful() && |k| == KEY_SIZE && |minted| == KEY_SIZE && minted != k
    requires !locked.getWorks && locked.readWorks && locked.keyGenerates && locked.writeWorks
    ensures var s := LoadOrCreate(codec, Store(Some(codec.encode(k)), None), locked, minted).1;
            && (w.getWorks ==> Load(codec, s, w) == Ok(k))
            && (!w.getWorks && w.readWorks ==> Load(codec, s, w) == Ok(minted))
  {
    assert codec.decode(codec.encode(k)) == Some(k) && codec.trim(codec.encode(k)) == codec.encode(k);
    assert codec.decode(codec.encode(minted)) == Some(minted);
    assert codec.trim(codec.encode(minted)) == codec.encode(minted);
  }

  /** Deleting twice is deleting once; when everything works nothing is left to load. */
  lemma DeleteForgets(codec: Codec, s: Store, w: Weather, later: Weather)
    ensures w.setWorks && w.writeWorks ==> Delete(s, w) == ([], EMPTY)
    ensures Delete(Delete(s, w).1, w).1 == Delete(s, w).1
    ensures w.writeWorks ==> Delete(s, w).1.file.None?
    ensures later.getWorks && later.readWorks ==> Load(codec, EMPTY, later) == Err(NoIdentity)
  {
  }
}
