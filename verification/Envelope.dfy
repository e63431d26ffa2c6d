/**
 * Envelope encryption at rest: the stored envelope, the keyring, and Seal, Open,
 * Verify and Rewrap over them.
 *
 *   kek_id (4 bytes, big endian) || nonce (12) || wrapped DEK (40) || ciphertext || tag (16)
 *
 * AES-GCM is an arbitrary AEAD that opens what it sealed; random values (the DEK
 * and the nonce) are parameters.
 */
module Envelope {
  import opened Wrappers
  import opened Bytes
  import KeyWrap

  /** A uint32 key id. */
  datatype KeyId = KeyId(n: bv32)

  const KEK_ID_LEN := 4
  const NONCE_LEN := 12
  const DEK_LEN := 32
  const WRAPPED_DEK_LEN := 40
  const TAG_LEN := 16
  const WRAPPED_DEK_OFFSET := 16
  const PAYLOAD_OFFSET := 56
  const MIN_ENVELOPE_LEN := 72
  const DERIVED_KEY_LEN := 32

  /** seal(dek, nonce, plaintext, aad) and open(dek, nonce, payload, aad). */
  datatype Aead = Aead(
    seal: (Bytes, Bytes, Bytes, Bytes) -> Bytes,
    open: (Bytes, Bytes, Bytes, Bytes) -> Option<Bytes>)

  datatype Crypto = Crypto(cipher: KeyWrap.Cipher, aead: Aead)

  predicate OpensItsOwn(g: Aead, dek: Bytes, nonce: Bytes, plaintext: Bytes, aad: Bytes) {
    var payload := g.seal(dek, nonce, plaintext, aad);
    |payload| == |plaintext| + TAG_LEN && g.open(dek, nonce, payload, aad) == Some(plaintext)
  }

  ghost predicate Lawful(c: Crypto) {
    && KeyWrap.Permutation(c.cipher)
    && (forall dek, nonce, plaintext, aad :: OpensItsOwn(c.aead, dek, nonce, plaintext, aad))
  }

  /** The sentinels callers match on; ids and row locations appear only in the text. */
  datatype Error = Malformed | UnknownKEK | Decrypt | BadKeyLength | Conflict | DropPrimary | WrapFailed

  // ---- the stored bytes ----

  datatype Parsed = Parsed(kekId: KeyId, nonce: Bytes, wrapped: Bytes, payload: Bytes)

  function Parse(b: Bytes): (r: Result<Parsed, Error>)
    ensures r.Ok? <==> |b| >= MIN_ENVELOPE_LEN
    ensures r.Err? ==> r.error == Malformed
    ensures r.Ok? ==> Serialize(r.value) == b && |r.value.wrapped| == WRAPPED_DEK_LEN && |r.value.nonce| == NONCE_LEN
  {
    if |b| < MIN_ENVELOPE_LEN then Err(Malformed)
    else
      PutOfUint32(b[..KEK_ID_LEN]);
      Ok(Parsed(KeyId(Uint32(b[..KEK_ID_LEN])), b[KEK_ID_LEN..WRAPPED_DEK_OFFSET],
                b[WRAPPED_DEK_OFFSET..PAYLOAD_OFFSET], b[PAYLOAD_OFFSET..]))
  }

  function Serialize(p: Parsed): Bytes {
    PutUint32(p.kekId.n) + p.nonce + p.wrapped + p.payload
  }

  lemma ParseOfSerialize(p: Parsed)
    requires |p.nonce| == NONCE_LEN && |p.wrapped| == WRAPPED_DEK_LEN && |p.payload| >= TAG_LEN
    ensures Parse(Serialize(p)) == Ok(p)
  {
    var b := Serialize(p);
    Uint32OfPut(p.kekId.n);
    assert b[..KEK_ID_LEN] == PutUint32(p.kekId.n);
    assert b[KEK_ID_LEN..WRAPPED_DEK_OFFSET] == p.nonce;
    assert b[WRAPPED_DEK_OFFSET..PAYLOAD_OFFSET] == p.wrapped;
    assert b[PAYLOAD_OFFSET..] == p.payload;
  }

  /** KEKID: the id an envelope names, read without any key. */
  function KekId(envelope: Bytes): Result<KeyId, Error> {
    var p :- Parse(envelope);
    Ok(p.kekId)
  }

  // ---- the operations, over the registered keys ----

  type Keys = map<KeyId, Bytes>

  /** The DEK an envelope carries under the key its id names. */
  function Dek(c: Crypto, keys: Keys, envelope: Bytes): Result<Bytes, Error> {
    var p :- Parse(envelope);
    if p.kekId !in keys then Err(UnknownKEK)
    else match KeyWrap.Unwrapped(c.cipher, keys[p.kekId], p.wrapped)
      case Err(_) => Err(Decrypt)
      case Ok(dek) => Ok(dek)
  }

  function Open(c: Crypto, keys: Keys, envelope: Bytes, aad: Bytes): Result<Bytes, Error> {
    var dek :- Dek(c, keys, envelope);
    var p :- Parse(envelope);
    match c.aead.open(dek, p.nonce, p.payload, aad)
    case None => Err(Decrypt)
    case Some(plaintext) => Ok(plaintext)
  }

  function Verify(c: Crypto, keys: Keys, envelope: Bytes): Result<(), Error> {
    var _ :- Dek(c, keys, envelope);
    Ok(())
  }

  function Sealed(c: Crypto, keys: Keys, primary: KeyId, dek: Bytes, nonce: Bytes, plaintext: Bytes, aad: Bytes)
    : Result<Bytes, Error>
  {
    if primary !in keys then Err(UnknownKEK)
    else match KeyWrap.Wrapped(c.cipher, keys[primary], dek)
      case Err(_) => Err(WrapFailed)
      case Ok(wrapped) => Ok(Serialize(Parsed(primary, nonce, wrapped, c.aead.seal(dek, nonce, plaintext, aad))))
  }

  function Rewrapped(c: Crypto, keys: Keys, envelope: Bytes, newId: KeyId): Result<Bytes, Error> {
    var p :- Parse(envelope);
    if p.kekId !in keys || newId !in keys then Err(UnknownKEK)
    else if p.kekId == newId then Ok(envelope)
    else
      var dek :- Dek(c, keys, envelope);
      match KeyWrap.Wrapped(c.cipher, keys[newId], dek)
      case Err(_) => Err(WrapFailed)
      case Ok(wrapped) => Ok(Serialize(p.(kekId := newId, wrapped := wrapped)))
  }

  ghost predicate ValidKeys(keys: Keys) {
    forall id <- keys :: |keys[id]| == DERIVED_KEY_LEN
  }

  /** Two envelopes that differ at most in which key wraps the DEK. */
  ghost predicate SameSecret(a: Bytes, b: Bytes) {
    && Parse(a).Ok? && Parse(b).Ok?
    && Parse(a).value.nonce == Parse(b).value.nonce
    && Parse(a).value.payload == Parse(b).value.payload
  }

  /**
   * A successful Rewrap names the new id, keeps nonce and payload, keeps the DEK
   * (success or failure alike), and therefore opens exactly as before.
   */
  lemma RewrapPreservesMeaning(c: Crypto, keys: Keys, envelope: Bytes, newId: KeyId, aad: Bytes)
    requires Lawful(c) && ValidKeys(keys)
    requires Rewrapped(c, keys, envelope, newId).Ok?
    ensures var e' := Rewrapped(c, keys, envelope, newId).value;
            && KekId(e') == Ok(newId)
            && SameSecret(envelope, e') && |e'| == |envelope|
            && Dek(c, keys, e') == Dek(c, keys, envelope)
            && Open(c, keys, e', aad) == Open(c, keys, envelope, aad)
  {
    var p := Parse(envelope).value;
    if p.kekId != newId {
      var dek := Dek(c, keys, envelope).value;
      KeyWrap.WrapOfUnwrap(c.cipher, keys[p.kekId], p.wrapped);
      KeyWrap.UnwrapOfWrap(c.cipher, keys[newId], dek);
      var wrapped := KeyWrap.Wrapped(c.cipher, keys[newId], dek).value;
      ParseOfSerialize(p.(kekId := newId, wrapped := wrapped));
    }
  }

  /** When a Rewrap succeeds: both ids are held, and unless they are the same id the DEK unwraps. */
  lemma RewrapSucceedsExactlyWhen(c: Crypto, keys: Keys, envelope: Bytes, newId: KeyId)
    requires Lawful(c) && ValidKeys(keys)
    ensures Rewrapped(c, keys, envelope, newId).Ok? <==>
              && KekId(envelope).Ok? && KekId(envelope).value in keys && newId in keys
              && (KekId(envelope) == Ok(newId) || Verify(c, keys, envelope).Ok?)
  {
    if Parse(envelope).Ok? {
      var p := Parse(envelope).value;
      if p.kekId in keys && newId in keys && Dek(c, keys, envelope).Ok? {
        KeyWrap.WrapOfUnwrap(c.cipher, keys[p.kekId], p.wrapped);
        KeyWrap.UnwrapOfWrap(c.cipher, keys[newId], Dek(c, keys, envelope).value);
      }
    }
  }

  /**
   * "A re-wrapped envelope verifies" holds exactly when the envelope was not
   * already at the target id, or verified to begin with: an envelope that names
   * the target id is handed back unexamined.
   */
  lemma RewrapVerifiesExactlyWhen(c: Crypto, keys: Keys, envelope: Bytes, newId: KeyId)
    requires Lawful(c) && ValidKeys(keys)
    requires Rewrapped(c, keys, envelope, newId).Ok?
    ensures Verify(c, keys, Rewrapped(c, keys, envelope, newId).value).Ok? <==>
              KekId(envelope) != Ok(newId) || Verify(c, keys, envelope).Ok?
  {
    RewrapPreservesMeaning(c, keys, envelope, newId, []);
    RewrapSucceedsExactlyWhen(c, keys, envelope, newId);
  }

  /** A damaged envelope at the target id: the wrap of any DEK run from a wrong initial value. */
  function Damaged(c: Crypto, kek: Bytes, id: KeyId, dek: Bytes): Bytes
    requires |dek| == DEK_LEN
  {
    Serialize(Parsed(id, seq(NONCE_LEN, _ => 0), KeyWrap.RunFrom(c.cipher, kek, 0, dek), seq(TAG_LEN, _ => 0)))
  }

  /** Under every keyring there is an envelope Rewrap accepts and Verify refuses. */
  lemma RewrapNeedNotVerify(c: Crypto, keys: Keys, id: KeyId, dek: Bytes)
    requires Lawful(c) && ValidKeys(keys) && id in keys && |dek| == DEK_LEN
    ensures var e := Damaged(c, keys[id], id, dek);
            Rewrapped(c, keys, e, id) == Ok(e) && Verify(c, keys, e) == Err(Decrypt)
  {
    var p := Parsed(id, seq(NONCE_LEN, _ => 0), KeyWrap.RunFrom(c.cipher, keys[id], 0, dek), seq(TAG_LEN, _ => 0));
    ParseOfSerialize(p);
    KeyWrap.UnwrapOfRun(c.cipher, keys[id], 0, dek);
  }

  lemma OpenOfSeal(c: Crypto, keys: Keys, primary: KeyId, dek: Bytes, nonce: Bytes, plaintext: Bytes, aad: Bytes)
    requires Lawful(c) && ValidKeys(keys) && primary in keys
    requires |dek| == DEK_LEN && |nonce| == NONCE_LEN
    ensures var s := Sealed(c, keys, primary, dek, nonce, plaintext, aad);
            && s.Ok? && KekId(s.value) == Ok(primary)
            && Dek(c, keys, s.value) == Ok(dek)
            && Open(c, keys, s.value, aad) == Ok(plaintext)
  {
    KeyWrap.UnwrapOfWrap(c.cipher, keys[primary], dek);
    assert OpensItsOwn(c.aead, dek, nonce, plaintext, aad);
    var wrapped := KeyWrap.Wrapped(c.cipher, keys[primary], dek).value;
    ParseOfSerialize(Parsed(primary, nonce, wrapped, c.aead.seal(dek, nonce, plaintext, aad)));
  }

  /** Re-wrap under each id in turn, stopping at the first failure. */
  function RewrapChain(c: Crypto, keys: Keys, envelope: Bytes, ids: seq<KeyId>): Result<Bytes, Error>
    decreases ids
  {
    if ids == [] then Ok(envelope)
    else
      var e :- Rewrapped(c, keys, envelope, ids[0]);
      RewrapChain(c, keys, e, ids[1..])
  }

  lemma {:induction false} ChainPreservesMeaning(c: Crypto, keys: Keys, envelope: Bytes, ids: seq<KeyId>, aad: Bytes)
    requires Lawful(c) && ValidKeys(keys)
    requires Dek(c, keys, envelope).Ok?
    ensures RewrapChain(c, keys, envelope, ids).Ok? <==> forall id <- ids :: id in keys
    ensures RewrapChain(c, keys, envelope, ids).Ok? ==>
              Open(c, keys, RewrapChain(c, keys, envelope, ids).value, aad) == Open(c, keys, envelope, aad)
    decreases ids
  {
    if ids != [] {
      var r := Rewrapped(c, keys, envelope, ids[0]);
      assert r.Ok? <==> ids[0] in keys by {
        RewrapSucceedsExactlyWhen(c, keys, envelope, ids[0]);
      }
      assert forall id :: id in ids <==> id == ids[0] || id in ids[1..];
      if r.Ok? {
        RewrapPreservesMeaning(c, keys, envelope, ids[0], aad);
        ChainPreservesMeaning(c, keys, r.value, ids[1..], aad);
      }
    }
  }

  /** Seal, then any chain of re-wraps under held keys, then Open: the plaintext comes back. */
  lemma SealRewrapOpen(c: Crypto, keys: Keys, primary: KeyId, dek: Bytes, nonce: Bytes, plaintext: Bytes, aad: Bytes,
                       ids: seq<KeyId>)
    requires Lawful(c) && ValidKeys(keys) && primary in keys
    requires |dek| == DEK_LEN && |nonce| == NONCE_LEN
    requires forall id <- ids :: id in keys
    ensures var s := Sealed(c, keys, primary, dek, nonce, plaintext, aad);
            && s.Ok? && RewrapChain(c, keys, s.value, ids).Ok?
            && Open(c, keys, RewrapChain(c, keys, s.value, ids).value, aad) == Ok(plaintext)
  {
    OpenOfSeal(c, keys, primary, dek, nonce, plaintext, aad);
    ChainPreservesMeaning(c, keys, Sealed(c, keys, primary, dek, nonce, plaintext, aad).value, ids, aad);
  }

  /** Registering more keys never changes what an envelope whose key was already held carries. */
  lemma MoreKeysKeepMeaning(c: Crypto, keys: Keys, more: Keys, envelope: Bytes, aad: Bytes)
    requires KekId(envelope).Ok? && KekId(envelope).value in keys && KekId(envelope).value in more
    requires more[KekId(envelope).value] == keys[KekId(envelope).value]
    ensures Dek(c, more, envelope) == Dek(c, keys, envelope)
    ensures Open(c, more, envelope, aad) == Open(c, keys, envelope, aad)
  {
  }

  // ---- the bytes, spelled out ----

  /** The AEAD accepts nothing but what it sealed. */
  ghost predicate OpensOnlyItsOwn(g: Aead) {
    forall dek, nonce, payload, aad {:trigger g.open(dek, nonce, payload, aad)} ::
      g.open(dek, nonce, payload, aad).Some? ==> payload == g.seal(dek, nonce, g.open(dek, nonce, payload, aad).value, aad)
  }

  /** The id in the first four bytes of an envelope. */
  function NamedId(e: Bytes): KeyId
    requires |e| >= 72
  {
    KeyId(Uint32(e[..4]))
  }

  /** Bytes 16 to 56 are the RFC 3394 wrap of the DEK under the key that is named. */
  predicate Carries(c: Crypto, keys: Keys, e: Bytes, dek: Bytes) {
    |e| >= 72 && NamedId(e) in keys && |dek| == 32 && e[16..56] == KeyWrap.RfcWrap(c.cipher, keys[NamedId(e)], dek)
  }

  /** An envelope carries at most one DEK, and the key wrap finds it. */
  lemma DekExactlyWhen(c: Crypto, keys: Keys, e: Bytes, dek: Bytes)
    requires Lawful(c) && ValidKeys(keys)
    ensures Dek(c, keys, e) == Ok(dek) <==> Carries(c, keys, e, dek)
  {
    if |e| >= 72 && NamedId(e) in keys {
      var kek, wrapped := keys[NamedId(e)], e[16..56];
      if KeyWrap.Unwrapped(c.cipher, kek, wrapped).Ok? {
        KeyWrap.WrapOfUnwrap(c.cipher, kek, wrapped);
      }
      if |dek| == 32 {
        KeyWrap.UnwrapsExactlyRfc(c.cipher, kek, dek, wrapped);
      }
    }
  }

  /** Verify: exactly the envelopes that carry a DEK, and each refusal for its own reason. */
  lemma VerifyExactlyWhen(c: Crypto, keys: Keys, e: Bytes)
    requires Lawful(c) && ValidKeys(keys)
    ensures Verify(c, keys, e).Ok? <==> exists dek :: Carries(c, keys, e, dek)
    ensures Verify(c, keys, e) == Err(Malformed) <==> |e| < 72
    ensures Verify(c, keys, e) == Err(UnknownKEK) <==> |e| >= 72 && NamedId(e) !in keys
    ensures Verify(c, keys, e) in {Ok(()), Err(Malformed), Err(UnknownKEK), Err(Decrypt)}
  {
    if Dek(c, keys, e).Ok? {
      DekExactlyWhen(c, keys, e, Dek(c, keys, e).value);
    }
    forall dek ensures Carries(c, keys, e, dek) ==> Dek(c, keys, e) == Ok(dek) {
      DekExactlyWhen(c, keys, e, dek);
    }
  }

  /** The bytes of an envelope that was sealed with this DEK, associated data and plaintext. */
  predicate IsSealOf(c: Crypto, keys: Keys, e: Bytes, dek: Bytes, plaintext: Bytes, aad: Bytes) {
    Carries(c, keys, e, dek) && e[56..] == c.aead.seal(dek, e[4..16], plaintext, aad)
  }

  /**
   * Open returns exactly what was sealed: a plaintext comes out if and only if
   * the bytes are a seal of it under the same associated data. Whatever is wrong
   * behind a key that is held is Decrypt.
   */
  lemma OpenExactlyWhen(c: Crypto, keys: Keys, e: Bytes, aad: Bytes, plaintext: Bytes)
    requires Lawful(c) && ValidKeys(keys) && OpensOnlyItsOwn(c.aead)
    ensures Open(c, keys, e, aad) == Ok(plaintext) <==> exists dek :: IsSealOf(c, keys, e, dek, plaintext, aad)
  {
    if Dek(c, keys, e).Ok? {
      DekExactlyWhen(c, keys, e, Dek(c, keys, e).value);
    }
    if Open(c, keys, e, aad) == Ok(plaintext) {
      assert IsSealOf(c, keys, e, Dek(c, keys, e).value, plaintext, aad);
    }
    forall dek | IsSealOf(c, keys, e, dek, plaintext, aad) ensures Open(c, keys, e, aad) == Ok(plaintext) {
      DekExactlyWhen(c, keys, e, dek);
      assert OpensItsOwn(c.aead, dek, e[4..16], plaintext, aad);
    }
  }

  /** Each refusal of Open: Decrypt exactly when the key is held and the envelope carries no DEK or the AEAD refuses the payload. */
  lemma OpenRefusesExactlyWhen(c: Crypto, keys: Keys, e: Bytes, aad: Bytes)
    requires Lawful(c) && ValidKeys(keys)
    ensures Open(c, keys, e, aad) == Err(Malformed) <==> |e| < 72
    ensures Open(c, keys, e, aad) == Err(UnknownKEK) <==> |e| >= 72 && NamedId(e) !in keys
    ensures Open(c, keys, e, aad) == Err(Decrypt) <==>
              |e| >= 72 && NamedId(e) in keys
              && forall dek | Carries(c, keys, e, dek) :: c.aead.open(dek, e[4..16], e[56..], aad) == None
  {
    VerifyExactlyWhen(c, keys, e);
    if Dek(c, keys, e).Ok? {
      var d := Dek(c, keys, e).value;
      DekExactlyWhen(c, keys, e, d);
      forall dek | Carries(c, keys, e, dek) ensures dek == d {
        DekExactlyWhen(c, keys, e, dek);
      }
    }
  }

  /** Seal, byte for byte: the id, the nonce, the wrapped DEK and the payload, in that order. */
  lemma SealedBytes(c: Crypto, keys: Keys, primary: KeyId, dek: Bytes, nonce: Bytes, plaintext: Bytes, aad: Bytes)
    requires Lawful(c) && ValidKeys(keys) && primary in keys && |dek| == 32 && |nonce| == 12
    ensures Sealed(c, keys, primary, dek, nonce, plaintext, aad) ==
              Ok(PutUint32(primary.n) + nonce + KeyWrap.RfcWrap(c.cipher, keys[primary], dek)
                 + c.aead.seal(dek, nonce, plaintext, aad))
  {
    KeyWrap.WrappedIsRfc(c.cipher, keys[primary], dek);
  }

  /** Rewrap, byte for byte: only the id and the wrapped DEK are other bytes, and it is the same DEK. */
  lemma RewrappedBytes(c: Crypto, keys: Keys, e: Bytes, dek: Bytes, newId: KeyId)
    requires Lawful(c) && ValidKeys(keys) && Carries(c, keys, e, dek) && newId in keys
    ensures Rewrapped(c, keys, e, newId) ==
              Ok(if NamedId(e) == newId then e
                 else PutUint32(newId.n) + e[4..16] + KeyWrap.RfcWrap(c.cipher, keys[newId], dek) + e[56..])
  {
    DekExactlyWhen(c, keys, e, dek);
    KeyWrap.WrappedIsRfc(c.cipher, keys[newId], dek);
  }

  /** Where the AEAD refuses other associated data, so does Open, after any chain of re-wraps: a moved ciphertext is an error and not an empty secret. */
  lemma MovedSecretIsRefused(c: Crypto, keys: Keys, primary: KeyId, dek: Bytes, nonce: Bytes, plaintext: Bytes, aad: Bytes,
                             other: Bytes, ids: seq<KeyId>)
    requires Lawful(c) && ValidKeys(keys) && primary in keys && |dek| == DEK_LEN && |nonce| == NONCE_LEN
    requires forall id <- ids :: id in keys
    requires c.aead.open(dek, nonce, c.aead.seal(dek, nonce, plaintext, aad), other) == None
    ensures var s := Sealed(c, keys, primary, dek, nonce, plaintext, aad);
            && s.Ok? && RewrapChain(c, keys, s.value, ids).Ok?
            && Open(c, keys, RewrapChain(c, keys, s.value, ids).value, other) == Err(Decrypt)
  {
    OpenOfSeal(c, keys, primary, dek, nonce, plaintext, aad);
    var e := Sealed(c, keys, primary, dek, nonce, plaintext, aad).value;
    SealedParts(c, keys, primary, dek, nonce, plaintext, aad);
    OpenRefusesExactlyWhen(c, keys, e, other);
    DekExactlyWhen(c, keys, e, dek);
    forall d | Carries(c, keys, e, d) ensures d == dek {
      DekExactlyWhen(c, keys, e, d);
    }
    ChainPreservesMeaning(c, keys, e, ids, other);
  }

  lemma SealedParts(c: Crypto, keys: Keys, primary: KeyId, dek: Bytes, nonce: Bytes, plaintext: Bytes, aad: Bytes)
    requires Lawful(c) && ValidKeys(keys) && primary in keys && |dek| == 32 && |nonce| == 12
    ensures Sealed(c, keys, primary, dek, nonce, plaintext, aad).Ok?
    ensures var e := Sealed(c, keys, primary, dek, nonce, plaintext, aad).value;
            |e| >= 72 && NamedId(e) == primary && e[4..16] == nonce && e[56..] == c.aead.seal(dek, nonce, plaintext, aad)
  {
    SealedBytes(c, keys, primary, dek, nonce, plaintext, aad);
    assert OpensItsOwn(c.aead, dek, nonce, plaintext, aad);
    KeyWrap.UnwrapOfWrap(c.cipher, keys[primary], dek);
    KeyWrap.WrappedIsRfc(c.cipher, keys[primary], dek);
    PartsOf(primary.n, nonce, KeyWrap.RfcWrap(c.cipher, keys[primary], dek), c.aead.seal(dek, nonce, plaintext, aad));
  }

  lemma PartsOf(id: bv32, nonce: Bytes, wrapped: Bytes, payload: Bytes)
    requires |nonce| == 12 && |wrapped| == 40 && |payload| >= 16
    ensures var e := PutUint32(id) + nonce + wrapped + payload;
            NamedId(e) == KeyId(id) && e[4..16] == nonce && e[16..56] == wrapped && e[56..] == payload
  {
    var e := PutUint32(id) + nonce + wrapped + payload;
    Uint32OfPut(id);
    assert e[..4] == PutUint32(id);
  }

  // ---- in place ----

  /** A copy of the envelope with the id and the wrapped DEK overwritten in place. */
  method Overwrite(envelope: Bytes, id: KeyId, wrapped: Bytes) returns (out: Bytes)
    requires |envelope| >= MIN_ENVELOPE_LEN && |wrapped| == WRAPPED_DEK_LEN
    ensures out == Serialize(Parse(envelope).value.(kekId := id, wrapped := wrapped))
  {
    var buf := new bv8[|envelope|](i requires 0 <= i < |envelope| => envelope[i]);
    assert buf[..] == envelope;
    Copy(buf, 0, PutUint32(id.n));
    Copy(buf, WRAPPED_DEK_OFFSET, wrapped);
    out := buf[..];
  }

  /** Everything before the payload, filled in place. */
  method Header(id: KeyId, nonce: Bytes, wrapped: Bytes) returns (header: Bytes)
    requires |nonce| == NONCE_LEN && |wrapped| == WRAPPED_DEK_LEN
    ensures header == PutUint32(id.n) + nonce + wrapped
  {
    var out := new bv8[PAYLOAD_OFFSET](_ => 0);
    Copy(out, 0, PutUint32(id.n));
    Copy(out, KEK_ID_LEN, nonce);
    Copy(out, WRAPPED_DEK_OFFSET, wrapped);
    header := out[..];
  }

  // ---- the keyring object ----

  /** Add on values: the 2^-32 collision of two keys on one id is refused. */
  function Added(keys: Keys, id: KeyId, kek: Bytes): (r: Result<Keys, Error>)
    ensures r.Ok? <==> |kek| == DERIVED_KEY_LEN && (id in keys ==> keys[id] == kek)
    ensures r.Ok? && ValidKeys(keys) ==> ValidKeys(r.value)
    ensures r.Ok? ==> id in r.value && r.value[id] == kek && forall k <- keys :: k in r.value && r.value[k] == keys[k]
  {
    if |kek| != DERIVED_KEY_LEN then Err(BadKeyLength)
    else if id in keys && keys[id] != kek then Err(Conflict)
    else Ok(keys[id := kek])
  }

  class Keyring {
    var keys: Keys
    var primaryId: KeyId

    ghost predicate Valid()
      reads this
    {
      primaryId in keys && ValidKeys(keys)
    }

    constructor (primaryId: KeyId, kek: Bytes)
      requires |kek| == DERIVED_KEY_LEN
      ensures Valid() && keys == map[primaryId := kek] && this.primaryId == primaryId
    {
      this.keys := map[primaryId := kek];
      this.primaryId := primaryId;
    }

    method Add(id: KeyId, kek: Bytes) returns (r: Result<(), Error>)
      requires Valid()
      modifies this`keys
      ensures Valid()
      ensures r.Ok? <==> Added(old(keys), id, kek).Ok?
      ensures r.Err? ==> r.error == Added(old(keys), id, kek).error
      ensures keys == if r.Ok? then Added(old(keys), id, kek).value else old(keys)
    {
      if |kek| != DERIVED_KEY_LEN {
        return Err(BadKeyLength);
      }
      if id in keys && keys[id] != kek {
        return Err(Conflict);
      }
      keys := keys[id := kek];
      r := Ok(());
    }

    method SetPrimary(id: KeyId) returns (r: Result<(), Error>)
      requires Valid()
      modifies this`primaryId
      ensures Valid()
      ensures r == if id in keys then Ok(()) else Err(UnknownKEK)
      ensures primaryId == if id in keys then id else old(primaryId)
    {
      if id !in keys {
        return Err(UnknownKEK);
      }
      primaryId := id;
      r := Ok(());
    }

    /** The primary key is never dropped, so a keyring can always seal. */
    method Drop(id: KeyId) returns (r: Result<(), Error>)
      requires Valid()
      modifies this`keys
      ensures Valid()
      ensures r == if id == primaryId then Err(DropPrimary) else Ok(())
      ensures keys == if id == primaryId then old(keys) else old(keys) - {id}
    {
      if id == primaryId {
        return Err(DropPrimary);
      }
      keys := keys - {id};
      r := Ok(());
    }

    /** Seal, filling the header buffer in place; dek and nonce are the fresh random values. */
    method Seal(c: Crypto, dek: Bytes, nonce: Bytes, plaintext: Bytes, aad: Bytes) returns (r: Result<Bytes, Error>)
      requires Valid() && |dek| == DEK_LEN && |nonce| == NONCE_LEN && Lawful(c)
      ensures r == Sealed(c, keys, primaryId, dek, nonce, plaintext, aad)
      ensures r.Ok? && Open(c, keys, r.value, aad) == Ok(plaintext)
    {
      var wrapped := KeyWrap.WrapKey(c.cipher, keys[primaryId], dek);
      OpenOfSeal(c, keys, primaryId, dek, nonce, plaintext, aad);
      KeyWrap.UnwrapOfWrap(c.cipher, keys[primaryId], dek);
      var header := Header(primaryId, nonce, wrapped.value);
      r := Ok(header + c.aead.seal(dek, nonce, plaintext, aad));
    }

    /** Rewrap: a copy of the envelope with only the id and the wrapped DEK overwritten. */
    method Rewrap(c: Crypto, envelope: Bytes, newId: KeyId) returns (r: Result<Bytes, Error>)
      requires Valid() && Lawful(c)
      ensures r == Rewrapped(c, keys, envelope, newId)
    {
      var p := Parse(envelope);
      if p.Err? {
        return Err(p.error);
      }
      if p.value.kekId !in keys || newId !in keys {
        return Err(UnknownKEK);
      }
      if p.value.kekId == newId {
        return Ok(envelope);
      }
      var dek := KeyWrap.UnwrapKey(c.cipher, keys[p.value.kekId], p.value.wrapped);
      if dek.Err? {
        return Err(Decrypt);
      }
      var wrapped := KeyWrap.WrapKey(c.cipher, keys[newId], dek.value);
      if wrapped.Err? {
        return Err(WrapFailed);
      }
      KeyWrap.WrapOfUnwrap(c.cipher, keys[p.value.kekId], p.value.wrapped);
      KeyWrap.UnwrapOfWrap(c.cipher, keys[newId], dek.value);
      var out := Overwrite(envelope, newId, wrapped.value);
      r := Ok(out);
    }
  }

  /** NewKeyring: a primary key of the wrong length is refused. */
  method NewKeyring(primaryId: KeyId, kek: Bytes) returns (r: Result<Keyring, Error>)
    ensures r.Ok? <==> |kek| == DERIVED_KEY_LEN
    ensures r.Err? ==> r.error == BadKeyLength
    ensures r.Ok? ==> fresh(r.value) && r.value.Valid() && r.value.keys == map[primaryId := kek] && r.value.primaryId == primaryId
  {
    if |kek| != DERIVED_KEY_LEN {
      return Err(BadKeyLength);
    }
    var ring := new Keyring(primaryId, kek);
    r := Ok(ring);
  }
}
