/**
 * Encryption of content fields at rest: key rings with rotation, a fallback between purposes, a
 * process-wide key cache, a token wire format, and reading of plaintext and tokens alike.
 *
 * The cipher is ideal: a token decrypts under the key that made it and under no other.
 */
module ContentCipher {
  import opened Wrappers

  type Key = string

  datatype Purpose = Content | Memory | Checkpoints

  function PurposeName(p: Purpose): string {
    match p
    case Content => "content"
    case Memory => "memory"
    case Checkpoints => "checkpoints"
  }

  function Fallback(p: Purpose): Option<Purpose> {
    if p.Content? then None else Some(Content)
  }

  /** The purpose and its fallbacks, in the order in which they are tried. */
  function Chain(p: Purpose): seq<Purpose> {
    if p.Content? then [Content] else [p, Content]
  }

  /** `encrypt` takes the key, the text and a nonce; `keyId` is the shortened hash of a key. */
  datatype Cipher = Cipher(
    encrypt: (Key, string, nat) -> string,
    decrypt: (Key, string) -> Option<string>,
    keyId: Key -> string)

  ghost predicate Ideal(c: Cipher) {
    && (forall k, text, n :: c.decrypt(k, c.encrypt(k, text, n)) == Some(text))
    && (forall k, other, text, n | other != k :: c.decrypt(other, c.encrypt(k, text, n)) == None)
    && (forall k :: '.' !in c.keyId(k))
  }

  // ---------- The wire format ----------

  const TOKEN_START := "enc.v1."
  const FERNET_START := "gAAAA"

  predicate IsCipherToken(value: string) {
    TOKEN_START <= value || FERNET_START <= value
  }

  function IndexOf(s: string, c: char): (i: nat)
    ensures i <= |s| && c !in s[..i] && (i < |s| ==> s[i] == c)
  {
    if s == "" || s[0] == c then 0
    else
      var i := IndexOf(s[1..], c) + 1;
      assert s[..i] == [s[0]] + s[1..][..i - 1];
      i
  }

  /** `s.split(c, n)`: split at the first `n` occurrences. */
  function SplitAtMost(s: string, c: char, n: nat): (parts: seq<string>)
    ensures 1 <= |parts| <= n + 1
  {
    var i := IndexOf(s, c);
    if n == 0 || i == |s| then [s] else [s[..i]] + SplitAtMost(s[i + 1..], c, n - 1)
  }

  lemma {:induction false} IndexBehindHead(head: string, c: char, rest: string)
    requires c !in head
    ensures IndexOf(head + [c] + rest, c) == |head|
  {
    if head != "" {
      assert (head + [c] + rest)[1..] == head[1..] + [c] + rest;
      IndexBehindHead(head[1..], c, rest);
    }
  }

  lemma SplitHead(head: string, c: char, rest: string, n: nat)
    requires c !in head && n > 0
    ensures SplitAtMost(head + [c] + rest, c, n) == [head] + SplitAtMost(rest, c, n - 1)
  {
    IndexBehindHead(head, c, rest);
    var s := head + [c] + rest;
    assert s[..|head|] == head && s[|head| + 1..] == rest;
  }

  lemma SplitBehindTwo(h1: string, h2: string, rest: string, c: char, n: nat)
    requires c !in h1 && c !in h2 && n >= 2
    ensures SplitAtMost(h1 + [c] + (h2 + [c] + rest), c, n) == [h1, h2] + SplitAtMost(rest, c, n - 2)
  {
    SplitHead(h1, c, h2 + [c] + rest, n);
    SplitHead(h2, c, rest, n - 1);
  }

  lemma SplitBehindFour(h1: string, h2: string, h3: string, h4: string, payload: string, c: char, n: nat)
    requires c !in h1 && c !in h2 && c !in h3 && c !in h4 && n == 4
    ensures SplitAtMost(h1 + [c] + (h2 + [c] + (h3 + [c] + (h4 + [c] + payload))), c, n) == [h1, h2, h3, h4, payload]
  {
    SplitBehindTwo(h1, h2, h3 + [c] + (h4 + [c] + payload), c, n);
    SplitBehindTwo(h3, h4, payload, c, n - 2);
  }

  function Token(c: Cipher, effective: Purpose, key: Key, text: string, nonce: nat): string {
    TOKEN_START + (PurposeName(effective) + ['.'] + (c.keyId(key) + ['.'] + c.encrypt(key, text, nonce)))
  }

  function PayloadOf(token: string): string {
    if TOKEN_START <= token then
      var parts := SplitAtMost(token, '.', 4);
      if |parts| == 5 then parts[4] else token
    else token
  }

  /** The purposes and their fallbacks. */
  lemma PurposesWrittenOut()
    ensures PurposeName(Content) == "content" && Chain(Content) == [Content]
    ensures PurposeName(Memory) == "memory" && Chain(Memory) == [Memory, Content]
    ensures PurposeName(Checkpoints) == "checkpoints" && Chain(Checkpoints) == [Checkpoints, Content]
  {
  }

  lemma NameHasNoDot(p: Purpose)
    ensures '.' !in PurposeName(p)
  {
  }

  lemma StartInParts(rest: string)
    ensures TOKEN_START + rest == "enc" + ['.'] + ("v1" + ['.'] + rest)
    ensures IsCipherToken(TOKEN_START + rest)
  {
  }

  /** The first four dots of a token are the format's own, whatever the payload contains. */
  lemma PayloadRecovered(c: Cipher, effective: Purpose, key: Key, text: string, nonce: nat)
    requires Ideal(c)
    ensures PayloadOf(Token(c, effective, key, text, nonce)) == c.encrypt(key, text, nonce)
    ensures IsCipherToken(Token(c, effective, key, text, nonce))
    ensures SplitAtMost(Token(c, effective, key, text, nonce), '.', 4) ==
            ["enc", "v1", PurposeName(effective), c.keyId(key), c.encrypt(key, text, nonce)]
  {
    var payload := c.encrypt(key, text, nonce);
    var rest := PurposeName(effective) + ['.'] + (c.keyId(key) + ['.'] + payload);
    NameHasNoDot(effective);
    StartInParts(rest);
    hide SplitAtMost, PurposeName;
    SplitBehindFour("enc", "v1", PurposeName(effective), c.keyId(key), payload, '.', 4);
  }

  // ---------- Key rings ----------

  /** The keys in the environment, newest first, for each purpose that is set; separators alone set one without keys. */
  type Rings = map<Purpose, seq<Key>>

  function Ring(env: Rings, p: Purpose): seq<Key> {
    if p in env then env[p] else []
  }

  datatype Resolved = Resolved(effective: Purpose, keys: seq<Key>)

  /** The first purpose of the chain with a cached or configured ring. */
  function Resolve(env: Rings, cache: Rings, chain: seq<Purpose>): Option<Resolved> {
    if chain == [] then None
    else if chain[0] in cache then Some(Resolved(chain[0], cache[chain[0]]))
    else if chain[0] in env then Some(Resolved(chain[0], env[chain[0]]))
    else Resolve(env, cache, chain[1..])
  }

  /** The cache afterwards: a ring that was used stays in it. */
  function CacheAfter(env: Rings, cache: Rings, chain: seq<Purpose>): Rings {
    var r := Resolve(env, cache, chain);
    if r.Some? then cache[r.value.effective := r.value.keys] else cache
  }

  function AppendNew(out: seq<Key>, keys: seq<Key>): seq<Key>
    decreases keys
  {
    if keys == [] then out
    else AppendNew(if keys[0] in out then out else out + [keys[0]], keys[1..])
  }

  /** All keys to decrypt with, across the whole chain, without repetition. */
  function AllKeys(env: Rings, chain: seq<Purpose>): seq<Key> {
    if chain == [] then []
    else AppendNew(AllKeys(env, chain[..|chain| - 1]), Ring(env, chain[|chain| - 1]))
  }

  lemma {:induction false} InAppendNew(out: seq<Key>, keys: seq<Key>, k: Key)
    ensures k in AppendNew(out, keys) <==> k in out || k in keys
    decreases keys
  {
    if keys != [] {
      InAppendNew(if keys[0] in out then out else out + [keys[0]], keys[1..], k);
    }
  }

  lemma {:induction false} InAllKeys(env: Rings, chain: seq<Purpose>, k: Key)
    ensures k in AllKeys(env, chain) <==> exists p | p in chain :: k in Ring(env, p)
  {
    if chain != [] {
      var init, last := chain[..|chain| - 1], chain[|chain| - 1];
      InAllKeys(env, init, k);
      InAppendNew(AllKeys(env, init), Ring(env, last), k);
      assert forall p :: p in chain <==> p in init || p == last;
    }
  }

  /** The result of the first key that decrypts. */
  function FirstDecryption(c: Cipher, keys: seq<Key>, payload: string): Option<string> {
    if keys == [] then None
    else if c.decrypt(keys[0], payload).Some? then c.decrypt(keys[0], payload)
    else FirstDecryption(c, keys[1..], payload)
  }

  lemma {:induction false} OnlyTheRightKey(c: Cipher, keys: seq<Key>, key: Key, text: string, nonce: nat)
    requires Ideal(c)
    ensures FirstDecryption(c, keys, c.encrypt(key, text, nonce)) == if key in keys then Some(text) else None
  {
    if keys != [] {
      OnlyTheRightKey(c, keys[1..], key, text, nonce);
    }
  }

  function Decrypt(c: Cipher, env: Rings, token: string, p: Purpose): Option<string> {
    FirstDecryption(c, AllKeys(env, Chain(p)), PayloadOf(token))
  }

  /** `dec_field`: plaintext passes through, and so does a token that cannot be decrypted. */
  function DecField(c: Cipher, env: Rings, value: Option<string>, p: Purpose): Option<string> {
    if value.None? || !IsCipherToken(value.value) then value
    else
      var text := Decrypt(c, env, value.value, p);
      if text.Some? then text else value
  }

  /** A token reads back exactly while its key is in a ring of the reader's chain. */
  lemma ReadsBackIffKeyHeld(c: Cipher, env: Rings, p: Purpose, effective: Purpose, key: Key, text: string, nonce: nat)
    requires Ideal(c) && !IsCipherToken(text)
    ensures DecField(c, env, Some(Token(c, effective, key, text, nonce)), p) == Some(text) <==>
            exists q | q in Chain(p) :: key in Ring(env, q)
  {
    PayloadRecovered(c, effective, key, text, nonce);
    OnlyTheRightKey(c, AllKeys(env, Chain(p)), key, text, nonce);
    InAllKeys(env, Chain(p), key);
  }

  /** `enc_field`, when encryption needs the cache as it is. */
  function EncField(c: Cipher, env: Rings, cache: Rings, value: Option<string>, p: Purpose, enabled: bool, nonce: nat)
    : Result<Option<string>>
  {
    if value.None? || value.value == "" || !enabled || IsCipherToken(value.value) then Ok(value)
    else
      var r := Resolve(env, cache, Chain(p));
      if r.None? || r.value.keys == [] then Raised
      else Ok(Some(Token(c, r.value.effective, r.value.keys[0], value.value, nonce)))
  }

  function CacheAfterEnc(env: Rings, cache: Rings, value: Option<string>, p: Purpose, enabled: bool): Rings {
    if value.None? || value.value == "" || !enabled || IsCipherToken(value.value) then cache
    else CacheAfter(env, cache, Chain(p))
  }

  /** No purpose is set to an empty ring, neither in the environment nor in the cache. */
  // ---------- The module's functions on its state ----------

  class ContentCipher {
    const cipher: Cipher
    /** The key rings in the process environment. */
    var environ: Rings
    var keyCache: Rings

    constructor (cipher: Cipher, environ: Rings)
      ensures this.cipher == cipher && this.environ == environ && keyCache == map[]
    {
      this.cipher, this.environ, keyCache := cipher, environ, map[];
    }

    method ResetContentCipher()
      modifies this`keyCache
      ensures keyCache == map[]
    {
      keyCache := map[];
    }

    method ResolveKeys(purpose: Purpose) returns (r: Option<Resolved>)
      modifies this`keyCache
      ensures r == Resolve(environ, old(keyCache), Chain(purpose))
      ensures keyCache == CacheAfter(environ, old(keyCache), Chain(purpose))
    {
      var seen: set<Purpose> := {};
      var current := Some(purpose);
      ghost var chain, done := Chain(purpose), 0;
      while current.Some? && current.value !in seen
        invariant 0 <= done <= |chain|
        invariant current == if done < |chain| then Some(chain[done]) else None
        invariant forall p :: p in seen <==> p in chain[..done]
        invariant keyCache == old(keyCache)
        invariant Resolve(environ, keyCache, chain) == Resolve(environ, keyCache, chain[done..])
        decreases |chain| - done
      {
        seen := seen + {current.value};
        if current.value in keyCache {
          assert keyCache[current.value := keyCache[current.value]] == keyCache;
          return Some(Resolved(current.value, keyCache[current.value]));
        }
        if current.value in environ {
          var keys := environ[current.value];
          keyCache := keyCache[current.value := keys];
          return Some(Resolved(current.value, keys));
        }
        current := Fallback(current.value);
        done := done + 1;
      }
      return None;
    }

    method ResolveAllKeys(purpose: Purpose) returns (out: seq<Key>)
      ensures out == AllKeys(environ, Chain(purpose))
    {
      out := [];
      var seen: set<Purpose> := {};
      var current := Some(purpose);
      ghost var done: nat := 0;
      while current.Some? && current.value !in seen
        invariant done <= |Chain(purpose)|
        invariant current == if done < |Chain(purpose)| then Some(Chain(purpose)[done]) else None
        invariant forall p :: p in seen <==> p in Chain(purpose)[..done]
        invariant out == AllKeys(environ, Chain(purpose)[..done])
        decreases |Chain(purpose)| - done
      {
        seen := seen + {current.value};
        out := AddMissing(out, Ring(environ, current.value));
        assert Chain(purpose)[..done + 1][..done] == Chain(purpose)[..done];
        current := Fallback(current.value);
        done := done + 1;
      }
      assert Chain(purpose)[..|Chain(purpose)|] == Chain(purpose);
    }

    method AddMissing(out: seq<Key>, ring: seq<Key>) returns (more: seq<Key>)
      ensures more == AppendNew(out, ring)
    {
      more := out;
      for n := 0 to |ring|
        invariant AppendNew(more, ring[n..]) == AppendNew(out, ring)
      {
        assert ring[n..][0] == ring[n] && ring[n..][1..] == ring[n + 1..];
        if ring[n] !in more {
          more := more + [ring[n]];
        }
      }
    }

    method EncryptText(value: string, purpose: Purpose, nonce: nat) returns (token: Result<string>)
      modifies this`keyCache
      ensures keyCache == CacheAfter(environ, old(keyCache), Chain(purpose))
      ensures var r := Resolve(environ, old(keyCache), Chain(purpose));
        token == if r.None? || r.value.keys == [] then Raised
                 else Ok(Token(cipher, r.value.effective, r.value.keys[0], value, nonce))
    {
      var r := ResolveKeys(purpose);
      if r.None? {
        return Raised;
      }
      if r.value.keys == [] {
        return Raised;
      }
      return Ok(Token(cipher, r.value.effective, r.value.keys[0], value, nonce));
    }

    method DecryptText(token: string, purpose: Purpose) returns (text: Result<string>)
      ensures var r := Decrypt(cipher, environ, token, purpose); text == if r.Some? then Ok(r.value) else Raised
    {
      var payload := PayloadOf(token);
      var keys := ResolveAllKeys(purpose);
      if keys == [] {
        return Raised;
      }
      for n := 0 to |keys|
        invariant FirstDecryption(cipher, keys, payload) == FirstDecryption(cipher, keys[n..], payload)
      {
        assert keys[n..][0] == keys[n] && keys[n..][1..] == keys[n + 1..];
        var r := cipher.decrypt(keys[n], payload);
        if r.Some? {
          return Ok(r.value);
        }
      }
      return Raised;
    }

    method WriteField(value: Option<string>, purpose: Purpose, enabled: bool, nonce: nat)
      returns (stored: Result<Option<string>>)
      modifies this`keyCache
      ensures stored == EncField(cipher, environ, old(keyCache), value, purpose, enabled, nonce)
      ensures keyCache == CacheAfterEnc(environ, old(keyCache), value, purpose, enabled)
    {
      if value.None? || value.value == "" || !enabled {
        return Ok(value);
      }
      if IsCipherToken(value.value) {
        return Ok(value);
      }
      var token := EncryptText(value.value, purpose, nonce);
      return if token.Ok? then Ok(Some(token.value)) else Raised;
    }

    method ReadField(value: Option<string>, purpose: Purpose) returns (text: Option<string>)
      ensures text == DecField(cipher, environ, value, purpose)
    {
      if value.None? || !IsCipherToken(value.value) {
        return value;
      }
      var r := DecryptText(value.value, purpose);
      return if r.Ok? then Some(r.value) else value;
    }
  }

  // ---------- What is stored ----------

  /** The ring to encrypt with: the purpose's own if it is cached or set, else that of the content purpose. */
  function RingPurpose(env: Rings, cache: Rings, p: Purpose): Purpose {
    if p in cache || p in env then p else Content
  }

  /**
   * With writes enabled, a value that is not empty and no token is encrypted, for every purpose: under
   * the newest key of the purpose's own ring if it is cached or set, else of the content ring, a cached
   * ring going before the environment's. Only a reader with that key gets the value back. The write
   * fails if there is no such ring or it has no key.
   */
  lemma EnabledWritesAreEncrypted(c: Cipher, env: Rings, cache: Rings, value: string, p: Purpose, nonce: nat)
    requires Ideal(c) && value != "" && !IsCipherToken(value)
    ensures var q := if p in cache || p in env then p else Content;
      var ring := if q in cache then cache[q] else if q in env then env[q] else [];
      var stored := EncField(c, env, cache, Some(value), p, true, nonce);
      && (stored == Raised <==> ring == [])
      && (ring != [] ==>
            && stored == Ok(Some(Token(c, q, ring[0], value, nonce))) && IsCipherToken(Token(c, q, ring[0], value, nonce))
            && PayloadOf(Token(c, q, ring[0], value, nonce)) == c.encrypt(ring[0], value, nonce)
            && CacheAfterEnc(env, cache, Some(value), p, true) == cache[q := ring]
            && forall later: Rings, reader: Purpose ::
                 DecField(c, later, stored.value, reader) == Some(value) <==>
                 ring[0] in Ring(later, reader) || ring[0] in Ring(later, Content))
  {
    var q := RingPurpose(env, cache, p);
    ResolveOnRings(env, cache, p);
    var r := Resolve(env, cache, Chain(p));
    if r.Some? && r.value.keys != [] {
      var key := r.value.keys[0];
      PayloadRecovered(c, q, key, value, nonce);
      OnlyHoldersRead(c, q, key, value, nonce);
    }
  }

  lemma OnlyHoldersRead(c: Cipher, effective: Purpose, key: Key, value: string, nonce: nat)
    requires Ideal(c) && !IsCipherToken(value)
    ensures forall later: Rings, reader: Purpose ::
              DecField(c, later, Some(Token(c, effective, key, value, nonce)), reader) == Some(value) <==>
              key in Ring(later, reader) || key in Ring(later, Content)
  {
    forall later: Rings, reader: Purpose
      ensures DecField(c, later, Some(Token(c, effective, key, value, nonce)), reader) == Some(value) <==>
              key in Ring(later, reader) || key in Ring(later, Content)
    {
      ReadsBackIffKeyHeld(c, later, reader, effective, key, value, nonce);
      assert forall x :: x in Chain(reader) <==> x == reader || x == Content;
    }
  }

  lemma ResolveOnRings(env: Rings, cache: Rings, p: Purpose)
    ensures var q := RingPurpose(env, cache, p);
      Resolve(env, cache, Chain(p)) ==
      if q in cache then Some(Resolved(q, cache[q])) else if q in env then Some(Resolved(q, env[q])) else None
  {
    assert [p, Content][1..] == [Content] && [Content][1..] == [];
    assert Resolve(env, cache, [Content]) ==
      if Content in cache then Some(Resolved(Content, cache[Content]))
      else if Content in env then Some(Resolved(Content, env[Content])) else Resolve(env, cache, []);
    assert Chain(p) == if p.Content? then [Content] else [p, Content];
  }

  /** Nothing else is encrypted. */
  lemma OtherWritesAreStoredAsTheyAre(c: Cipher, env: Rings, cache: Rings, value: Option<string>, p: Purpose, enabled: bool, nonce: nat)
    requires value.None? || value.value == "" || !enabled || IsCipherToken(value.value)
    ensures EncField(c, env, cache, value, p, enabled, nonce) == Ok(value)
    ensures CacheAfterEnc(env, cache, value, p, enabled) == cache
  {
  }

  /** What is no token is read as it is. */
  lemma PlaintextReadsAsItIs(c: Cipher, env: Rings, value: Option<string>, p: Purpose)
    requires value.None? || !("enc.v1." <= value.value || "gAAAA" <= value.value)
    ensures DecField(c, env, value, p) == value
  {
  }

  /** A ring without keys still keeps its purpose from falling back. */
  lemma EmptyRingBlocksFallback(c: Cipher, key: Key, text: string)
    requires text != "" && !IsCipherToken(text)
    ensures EncField(c, map[Content := [key]], map[], Some(text), Memory, true, 0).Ok?
    ensures EncField(c, map[Content := [key], Memory := []], map[], Some(text), Memory, true, 0) == Raised
  {
    var env: Rings := map[Content := [key]];
    assert Chain(Memory)[1..] == [Content];
    assert Resolve(env, map[], [Content]) == Some(Resolved(Content, [key]));
    assert Resolve(env, map[], Chain(Memory)) == Some(Resolved(Content, [key]));
  }

  // ---------- Histories ----------

  /** A field that was written, and what was stored for it. */
  datatype Record = Record(purpose: Purpose, written: Option<string>, stored: Option<string>)

  datatype System = System(env: Rings, cache: Rings, records: seq<Record>)

  /** What can happen: writes with the flag on or off, and operations on the configuration. */
  datatype Event =
    | Write(purpose: Purpose, value: Option<string>, enabled: bool, nonce: nat)
    | ResetCache
    | Rotate(ring: Purpose, newKeys: seq<Key>)    // put new keys in front of a ring that is set
    | Configure(ring: Purpose, newKeys: seq<Key>) // set a ring that was not set

  predicate Allowed(s: System, e: Event) {
    match e
    case Rotate(ring, _) => ring in s.env
    case Configure(ring, _) => ring !in s.env
    case _ => true
  }

  function Next(c: Cipher, s: System, e: Event): System {
    match e
    case Write(p, value, enabled, nonce) =>
      var stored := EncField(c, s.env, s.cache, value, p, enabled, nonce);
      System(s.env, CacheAfterEnc(s.env, s.cache, value, p, enabled),
             if stored.Ok? then s.records + [Record(p, value, stored.value)] else s.records)
    case ResetCache => s.(cache := map[])
    case Rotate(ring, newKeys) => s.(env := s.env[ring := newKeys + Ring(s.env, ring)])
    case Configure(ring, newKeys) => s.(env := s.env[ring := newKeys])
  }

  /** A cached ring may be stale, but its keys are still in the environment. */
  ghost predicate CacheIsBehind(env: Rings, cache: Rings) {
    forall p | p in cache :: forall k | k in cache[p] :: k in Ring(env, p)
  }

  /** The record is its own plaintext, or a token under a key that is in a ring of its purpose's chain. */
  ghost predicate Recoverable(c: Cipher, env: Rings, r: Record) {
    || (r.written.Some? && IsCipherToken(r.written.value))
    || r.stored == r.written
    || exists effective, key, nonce :: IsTokenFor(c, env, r, effective, key, nonce)
  }

  ghost predicate IsTokenFor(c: Cipher, env: Rings, r: Record, effective: Purpose, key: Key, nonce: nat) {
    && r.written.Some? && r.stored == Some(Token(c, effective, key, r.written.value, nonce))
    && effective in Chain(r.purpose) && key in Ring(env, effective)
  }

  ghost predicate Inv(c: Cipher, s: System) {
    CacheIsBehind(s.env, s.cache) && forall r | r in s.records :: Recoverable(c, s.env, r)
  }

  /** Rings only ever gain keys. */
  ghost predicate RingsGrow(env: Rings, later: Rings) {
    forall p, k | k in Ring(env, p) :: k in Ring(later, p)
  }

  lemma RecoverableLater(c: Cipher, env: Rings, later: Rings, r: Record)
    requires Recoverable(c, env, r) && RingsGrow(env, later)
    ensures Recoverable(c, later, r)
  {
    if effective, key, nonce :| IsTokenFor(c, env, r, effective, key, nonce) {
      assert IsTokenFor(c, later, r, effective, key, nonce);
    }
  }

  lemma {:induction false} ResolvedFromEnvironment(env: Rings, cache: Rings, chain: seq<Purpose>)
    requires CacheIsBehind(env, cache)
    ensures var r := Resolve(env, cache, chain); r.Some? ==>
      && r.value.effective in chain
      && forall k | k in r.value.keys :: k in Ring(env, r.value.effective)
  {
    if chain != [] {
      ResolvedFromEnvironment(env, cache, chain[1..]);
    }
  }

  lemma WriteKeepsInv(c: Cipher, s: System, p: Purpose, value: Option<string>, enabled: bool, nonce: nat)
    requires Inv(c, s)
    ensures Inv(c, Next(c, s, Write(p, value, enabled, nonce)))
  {
    var s' := Next(c, s, Write(p, value, enabled, nonce));
    ResolvedFromEnvironment(s.env, s.cache, Chain(p));
    var resolved := Resolve(s.env, s.cache, Chain(p));
    forall r | r in s'.records ensures Recoverable(c, s'.env, r) {
      if r !in s.records && r.stored != r.written {
        assert IsTokenFor(c, s.env, r, resolved.value.effective, resolved.value.keys[0], nonce);
      }
    }
  }

  lemma StepKeepsInv(c: Cipher, s: System, e: Event)
    requires Inv(c, s) && Allowed(s, e)
    ensures Inv(c, Next(c, s, e))
    ensures s.records <= Next(c, s, e).records
  {
    var s' := Next(c, s, e);
    if e.Write? {
      WriteKeepsInv(c, s, e.purpose, e.value, e.enabled, e.nonce);
    } else {
      assert RingsGrow(s.env, s'.env);
      forall r | r in s.records ensures Recoverable(c, s'.env, r) {
        RecoverableLater(c, s.env, s'.env, r);
      }
    }
  }

  /** The states of a history that starts with nothing stored and nothing cached. */
  ghost predicate IsHistory(c: Cipher, states: seq<System>, events: seq<Event>) {
    && |states| == |events| + 1
    && states[0].cache == map[] && states[0].records == []
    && forall i | 0 <= i < |events| :: Allowed(states[i], events[i]) && states[i + 1] == Next(c, states[i], events[i])
  }

  lemma {:induction false} HistoryKeepsInv(c: Cipher, states: seq<System>, events: seq<Event>, n: nat)
    requires IsHistory(c, states, events) && n < |states|
    ensures Inv(c, states[n])
  {
    if n > 0 {
      HistoryKeepsInv(c, states, events, n - 1);
      StepKeepsInv(c, states[n - 1], events[n - 1]);
    }
  }

  /**
   * At every point of every history of writes, flag changes, rotations, added rings and cache resets,
   * each value that is not itself a token reads back as it was written.
   */
  lemma WrittenValuesReadBack(c: Cipher, states: seq<System>, events: seq<Event>, n: nat, r: Record)
    requires Ideal(c) && IsHistory(c, states, events)
    requires n < |states| && r in states[n].records
    requires r.written.Some? ==> !IsCipherToken(r.written.value)
    ensures DecField(c, states[n].env, r.stored, r.purpose) == r.written
  {
    HistoryKeepsInv(c, states, events, n);
    if r.stored != r.written {
      var effective, key, nonce :| IsTokenFor(c, states[n].env, r, effective, key, nonce);
      ReadsBackIffKeyHeld(c, states[n].env, r.purpose, effective, key, r.written.value, nonce);
    }
  }

  // ---------- Values that look like tokens ----------

  /** Nothing decrypts under a key but what was encrypted under it. */
  ghost predicate Authentic(c: Cipher) {
    forall k, payload | c.decrypt(k, payload).Some? :: exists n :: c.encrypt(k, c.decrypt(k, payload).value, n) == payload
  }

  /** The payload of `value` is an encryption of another text, under a key in a ring of the chain. */
  ghost predicate HidesAnotherText(c: Cipher, env: Rings, value: string, p: Purpose) {
    exists key, text, nonce ::
      PayloadOf(value) == c.encrypt(key, text, nonce) && text != value && exists q | q in Chain(p) :: key in Ring(env, q)
  }

  lemma {:induction false} DecryptedBySomeKey(c: Cipher, keys: seq<Key>, payload: string)
    ensures var r := FirstDecryption(c, keys, payload); r.Some? ==> exists k | k in keys :: c.decrypt(k, payload) == r
  {
    if keys != [] && c.decrypt(keys[0], payload).None? {
      DecryptedBySomeKey(c, keys[1..], payload);
    }
  }

  /**
   * A value that looks like a token is stored as it is, and it reads back if and only if it does not
   * hide another text under a key that the reader has.
   */
  lemma TokenLikeValuesReadBackIff(c: Cipher, env: Rings, cache: Rings, value: string, p: Purpose, enabled: bool, nonce: nat)
    requires Ideal(c) && Authentic(c) && IsCipherToken(value)
    ensures EncField(c, env, cache, Some(value), p, enabled, nonce) == Ok(Some(value))
    ensures DecField(c, env, Some(value), p) == Some(value) <==> !HidesAnotherText(c, env, value, p)
  {
    var keys, payload := AllKeys(env, Chain(p)), PayloadOf(value);
    if HidesAnotherText(c, env, value, p) {
      var key, text, n :| payload == c.encrypt(key, text, n) && text != value && exists q | q in Chain(p) :: key in Ring(env, q);
      OnlyTheRightKey(c, keys, key, text, n);
      InAllKeys(env, Chain(p), key);
    } else if FirstDecryption(c, keys, payload).Some? {
      DecryptedBySomeKey(c, keys, payload);
      var k :| k in keys && c.decrypt(k, payload) == FirstDecryption(c, keys, payload);
      InAllKeys(env, Chain(p), k);
    }
  }

  /** A token written as a value reads back if and only if none of the reader's rings has its key. */
  lemma PastedTokenReadsBackIff(c: Cipher, env: Rings, p: Purpose, effective: Purpose, key: Key, text: string, nonce: nat)
    requires Ideal(c)
    ensures var value := Token(c, effective, key, text, nonce);
      DecField(c, env, Some(value), p) == Some(value) <==> value == text || forall q | q in Chain(p) :: key !in Ring(env, q)
  {
    PayloadRecovered(c, effective, key, text, nonce);
    OnlyTheRightKey(c, AllKeys(env, Chain(p)), key, text, nonce);
    InAllKeys(env, Chain(p), key);
  }

  /** With one key configured, a token under it is read as its plaintext instead. */
  lemma PastedTokenIsDecrypted(c: Cipher, key: Key)
    requires Ideal(c)
    ensures var env, value := map[Content := [key]], Token(c, Content, key, "note", 0);
      && EncField(c, env, map[], Some(value), Content, true, 1) == Ok(Some(value))
      && DecField(c, env, Some(value), Content) == Some("note") != Some(value)
  {
    var env := map[Content := [key]];
    PayloadRecovered(c, Content, key, "note", 0);
    ReadsBackIffKeyHeld(c, env, Content, Content, key, "note", 0);
    assert Content in Chain(Content) && key in Ring(env, Content);
  }

  /** Why rotation must keep old keys: without its key a stored token stays unreadable. */
  lemma DroppedKeyIsFatal(c: Cipher, key: Key, other: Key, text: string)
    requires Ideal(c) && key != other && text != "" && !IsCipherToken(text)
    ensures var before, after := map[Content := [key]], map[Content := [other]];
      var stored := EncField(c, before, map[], Some(text), Content, true, 0);
      stored.Ok? && DecField(c, before, stored.value, Content) == Some(text)
      && DecField(c, after, stored.value, Content) != Some(text)
  {
    var before, after := map[Content := [key]], map[Content := [other]];
    ReadsBackIffKeyHeld(c, before, Content, Content, key, text, 0);
    ReadsBackIffKeyHeld(c, after, Content, Content, key, text, 0);
    assert Content in Chain(Content) && key in Ring(before, Content);
  }
}
