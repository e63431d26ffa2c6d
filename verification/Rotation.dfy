/**
 * `usarr key rotate`: the files and the credential rows as a crash sees them, and
 * the steps a rotation and the servers beside it take over them.
 *
 * A World is what survives the process, and a trace is every one there has been.
 * Rotates and Serves are the steps, over traces because a batch may be made from
 * an earlier reading; the theorems are about all sequences of them.
 */
module Rotation {
  import opened Wrappers
  import opened Bytes
  import opened Base64
  import opened KeyFiles
  import opened Envelope

  /** Envelope crypto, DeriveKEK under the installed salt, and KeyID. */
  datatype Scheme = Scheme(crypto: Crypto, kek: Octets -> Bytes, keyId: Bytes -> KeyId)

  ghost predicate LawfulScheme(x: Scheme) {
    && Envelope.Lawful(x.crypto)
    && (forall m :: |x.kek(m)| == DERIVED_KEY_LEN)
  }

  /** The id every envelope sealed before key ids were content-derived carries. */
  const LEGACY_KEK_ID := KeyId(1)

  type RowId = x: int | 1 <= x < 0x8000_0000_0000_0000 witness 1

  datatype Row = Row(kekId: KeyId, envelope: Bytes, deleted: bool)

  type Table = map<RowId, Row>

  /** Shorter values are placeholders of an insert in progress, never credentials. */
  predicate IsCredential(row: Row) {
    |row.envelope| >= MIN_ENVELOPE_LEN
  }

  /** keys/secret.key and keys/secret.key.new. */
  datatype Disk = Disk(secret: Option<string>, pending: Option<string>)

  /** The key files and service_instance. */
  datatype World = World(disk: Disk, rows: Table)

  // ---- the keys a start derives from the files ----

  datatype RotateError =
    | NoKey | SecretUnreadable | PendingUnreadable | PendingCollides | NotManaged
    | SameKey | PendingExists | RewrapFailed | NotFound | StillOutside | VerifyFailed | Stranded | IOFailure

  function Master(file: Option<string>): Option<Octets> {
    match file
    case None => None
    case Some(c) => if Validated(c).Ok? then Some(Validated(c).value) else None
  }

  /** The live key under its own id and under the legacy id. */
  function LiveKeys(x: Scheme, m: Octets): Keys {
    map[x.keyId(x.kek(m)) := x.kek(m)][LEGACY_KEK_ID := x.kek(m)]
  }

  /** The ring buildKeyring ends with. */
  function Ring(x: Scheme, d: Disk): Result<Keys, RotateError> {
    if d.secret == None then Err(NoKey)
    else if Master(d.secret) == None then Err(SecretUnreadable)
    else
      var live := LiveKeys(x, Master(d.secret).value);
      if d.pending == None then Ok(live)
      else if Master(d.pending) == None then Err(PendingUnreadable)
      else
        var kek := x.kek(Master(d.pending).value);
        match Added(live, x.keyId(kek), kek)
        case Err(_) => Err(PendingCollides)
        case Ok(keys) => Ok(keys)
  }

  /** When a ring is built, and every key it holds: the live one under its own id and under id 1, and the pending one. */
  lemma RingHolds(x: Scheme, d: Disk)
    ensures Ring(x, d).Ok? ==> Master(d.secret).Some? && (d.pending.Some? ==> Master(d.pending).Some?)
    ensures Ring(x, d).Ok? && d.pending == None ==>
              var (keys, kek) := (Ring(x, d).value, x.kek(Master(d.secret).value));
              keys.Keys == {KeyId(1), x.keyId(kek)} && keys[KeyId(1)] == kek && keys[x.keyId(kek)] == kek
    ensures Ring(x, d).Ok? && d.pending.Some? ==>
              var (keys, kek, next) := (Ring(x, d).value, x.kek(Master(d.secret).value), x.kek(Master(d.pending).value));
              && keys.Keys == {KeyId(1), x.keyId(kek), x.keyId(next)}
              && keys[KeyId(1)] == kek && keys[x.keyId(kek)] == kek && keys[x.keyId(next)] == next
  {
  }

  /** What the files can open: the ring, or the live key alone when the pending file is refused. */
  function RecoveryKeys(x: Scheme, d: Disk): Keys {
    if Ring(x, d).Ok? then Ring(x, d).value
    else if Master(d.secret).Some? then LiveKeys(x, Master(d.secret).value)
    else map[]
  }

  predicate RowSafe(x: Scheme, keys: Keys, row: Row) {
    IsCredential(row) ==> Dek(x.crypto, keys, row.envelope).Ok?
  }

  /** The row is there, and if it is a credential its DEK unwraps under a key the files give. */
  predicate Safe(x: Scheme, w: World, id: RowId) {
    id in w.rows && RowSafe(x, RecoveryKeys(x, w.disk), w.rows[id])
  }

  /** What a process started on these files reads from the row. */
  function Reads(x: Scheme, w: World, id: RowId, aad: Bytes): Result<Bytes, Envelope.Error>
    requires id in w.rows
  {
    Open(x.crypto, RecoveryKeys(x, w.disk), w.rows[id].envelope, aad)
  }

  /**
   * Safe, spelled out: a complete secret.key or secret.key.new yields a key that
   * unwraps the row; a ring that builds maps the envelope's id to that key, and
   * one that does not build leaves the row to secret.key alone.
   */
  lemma SafeMeans(x: Scheme, w: World, id: RowId)
    requires LawfulScheme(x)
    requires Safe(x, w, id) && IsCredential(w.rows[id])
    ensures var p := Parse(w.rows[id].envelope).value;
            exists m: Octets ::
              && (Master(w.disk.secret) == Some(m) || (Ring(x, w.disk).Ok? && Master(w.disk.pending) == Some(m)))
              && KeyWrap.Unwrapped(x.crypto.cipher, x.kek(m), p.wrapped).Ok?
              && (Ring(x, w.disk).Ok? ==> p.kekId in Ring(x, w.disk).value && Ring(x, w.disk).value[p.kekId] == x.kek(m))
    ensures Ring(x, w.disk).Ok? ==>
              LEGACY_KEK_ID in Ring(x, w.disk).value && Ring(x, w.disk).value[LEGACY_KEK_ID] == x.kek(Master(w.disk.secret).value)
  {
    var keys := RecoveryKeys(x, w.disk);
    var p := Parse(w.rows[id].envelope).value;
    var live := Master(w.disk.secret).value;
    if keys[p.kekId] == x.kek(live) {
      assert Master(w.disk.secret) == Some(live);
    } else {
      assert keys[p.kekId] == x.kek(Master(w.disk.pending).value);
    }
  }

  // ---- the steps ----

  /** secret.key.new is created empty, or written on, by the one writer O_EXCL admits. */
  ghost predicate Writes(w: World, w': World) {
    && w'.disk.pending.Some?
    && w' == w.(disk := w.disk.(pending := w'.disk.pending))
    && (w.disk.pending.Some? ==> w.disk.pending.value <= w'.disk.pending.value)
    && (w.disk.pending == None ==> w'.disk.pending.value == "")
    && exists m: Octets :: |m| == MASTER_KEY_LEN && w'.disk.pending.value <= Content(m)
  }

  /** A pending key whose id collides was never used and may be discarded. */
  predicate Discards(x: Scheme, w: World, w': World) {
    Ring(x, w.disk) == Err(PendingCollides) && w' == w.(disk := w.disk.(pending := None))
  }

  function PendingId(x: Scheme, d: Disk): KeyId
    requires Master(d.pending).Some?
  {
    x.keyId(x.kek(Master(d.pending).value))
  }

  /** The re-wrap of what was read, put over whatever the row is by then. */
  predicate Rewrote(x: Scheme, keys: Keys, newId: KeyId, read: Row, row: Row, row': Row) {
    && IsCredential(read)
    && row' == Row(newId, row'.envelope, row.deleted)
    && Rewrapped(x.crypto, keys, read.envelope, newId) == Ok(row'.envelope)
  }

  /** The row that replaces trace[k].rows[id] re-wraps what the row was in some state up to then, under the same files. */
  ghost predicate RowRewrapped(x: Scheme, trace: seq<World>, k: nat, id: RowId, row': Row)
    requires k < |trace| && id in trace[k].rows
  {
    && trace[k].disk.pending.Some? && Ring(x, trace[k].disk).Ok?
    && exists p ::
         && 0 <= p <= k && trace[p].disk == trace[k].disk && id in trace[p].rows
         && Rewrote(x, Ring(x, trace[k].disk).value, PendingId(x, trace[k].disk), trace[p].rows[id], trace[k].rows[id], row')
  }

  /**
   * One transaction: any set of rows, each replaced by the re-wrap of an earlier
   * reading of it. Nothing compares the row with what was read.
   */
  ghost predicate Rewraps(x: Scheme, trace: seq<World>, k: nat)
    requires k + 1 < |trace|
  {
    var w, w' := trace[k], trace[k + 1];
    && w' == w.(rows := w'.rows) && w'.rows.Keys == w.rows.Keys
    && forall id <- w.rows :: w'.rows[id] == w.rows[id] || RowRewrapped(x, trace, k, id, w'.rows[id])
  }

  /** Column and envelope name the id, and the DEK unwraps under the ring. */
  predicate Proven(x: Scheme, keys: Keys, newId: KeyId, row: Row) {
    && row.kekId == newId
    && KekId(row.envelope) == Ok(newId)
    && Verify(x.crypto, keys, row.envelope).Ok?
  }

  /** rename(2) of a complete pending key: the only step that replaces a key file, whatever the rows are by then. */
  predicate Renames(x: Scheme, w: World, w': World) {
    && w.disk.pending.Some? && Ring(x, w.disk).Ok?
    && w' == World(Disk(w.disk.pending, None), w.rows)
  }

  /** The live key of some state so far: what a server that started then goes on sealing under. */
  ghost predicate WasLive(trace: seq<World>, k: nat, m: Octets)
    requires k < |trace|
  {
    exists p :: 0 <= p <= k && Master(trace[p].disk.secret) == Some(m)
  }

  predicate SealedLive(x: Scheme, m: Octets, row: Row) {
    && KekId(row.envelope) == Ok(x.keyId(x.kek(m))) && row.kekId == x.keyId(x.kek(m))
    && Dek(x.crypto, LiveKeys(x, m), row.envelope).Ok?
  }

  function RowAt(rows: Table, id: RowId): Option<Row> {
    if id in rows then Some(rows[id]) else None
  }

  predicate Untouched(row: Option<Row>, row': Option<Row>) {
    match row
    case None => row' == None
    case Some(r) => row'.Some? && row'.value.kekId == r.kekId && row'.value.envelope == r.envelope
  }

  /** A row as the servers leave it: untouched, tombstoned, or sealed under a key that is or was live. */
  ghost predicate RowServed(x: Scheme, trace: seq<World>, k: nat, row: Option<Row>, row': Option<Row>)
    requires k < |trace|
  {
    || Untouched(row, row')
    || (row'.Some? && IsCredential(row'.value) && exists m: Octets :: WasLive(trace, k, m) && SealedLive(x, m, row'.value))
  }

  /** Step k as far as the row is concerned is one of the servers'; the other rows may become anything. */
  ghost predicate Serves(x: Scheme, trace: seq<World>, k: nat, id: RowId)
    requires k + 1 < |trace|
  {
    && trace[k + 1].disk == trace[k].disk
    && RowServed(x, trace, k, RowAt(trace[k].rows, id), RowAt(trace[k + 1].rows, id))
  }

  /** Step k is one of a rotation's. */
  ghost predicate Rotates(x: Scheme, trace: seq<World>, k: nat)
    requires k + 1 < |trace|
  {
    var w, w' := trace[k], trace[k + 1];
    Writes(w, w') || Discards(x, w, w') || Rewraps(x, trace, k) || Renames(x, w, w')
  }

  ghost predicate StepFor(x: Scheme, trace: seq<World>, k: nat, id: RowId)
    requires k + 1 < |trace|
  {
    Rotates(x, trace, k) || Serves(x, trace, k, id)
  }

  /** Whatever Keyring.Seal produces under the live key is what a server step may store. */
  lemma SealsAreServed(x: Scheme, m: Octets, dek: Bytes, nonce: Bytes, plaintext: Bytes, aad: Bytes, deleted: bool)
    requires LawfulScheme(x) && |dek| == DEK_LEN && |nonce| == NONCE_LEN
    ensures var id := x.keyId(x.kek(m));
            var e := Sealed(x.crypto, LiveKeys(x, m), id, dek, nonce, plaintext, aad);
            e.Ok? && SealedLive(x, m, Row(id, e.value, deleted))
  {
    OpenOfSeal(x.crypto, LiveKeys(x, m), x.keyId(x.kek(m)), dek, nonce, plaintext, aad);
  }

  // ---- crash safety ----

  /** The pending file only ever gains the meaning it will end with. */
  lemma PendingKeepsMeaning(w: World, w': World)
    requires Writes(w, w') && w.disk.pending.Some? && Master(w.disk.pending).Some?
    ensures Master(w'.disk.pending) == Master(w.disk.pending)
  {
    var c, c' := w.disk.pending.value, w'.disk.pending.value;
    var m: Octets :| |m| == MASTER_KEY_LEN && c' <= Content(m);
    assert c == Content(m)[..|c|] && c' == Content(m)[..|c'|];
    PartialMasterKey(m, |c|);
    PartialMasterKey(m, |c'|);
  }

  /** A pending key adds at most itself to what the live key opens. */
  lemma PendingOnlyAdds(x: Scheme, d: Disk, d': Disk, id: KeyId)
    requires d'.secret == d.secret
    requires d.pending == None || Master(d.pending) == None || Master(d'.pending) == Master(d.pending)
    requires d'.pending.Some?
    requires id in RecoveryKeys(x, d)
    ensures id in RecoveryKeys(x, d') && RecoveryKeys(x, d')[id] == RecoveryKeys(x, d)[id]
  {
  }

  lemma WritingKeepsKeys(x: Scheme, w: World, w': World, id: KeyId)
    requires Writes(w, w')
    requires id in RecoveryKeys(x, w.disk)
    ensures id in RecoveryKeys(x, w'.disk) && RecoveryKeys(x, w'.disk)[id] == RecoveryKeys(x, w.disk)[id]
  {
    if w.disk.pending.Some? && Master(w.disk.pending).Some? {
      PendingKeepsMeaning(w, w');
    }
    PendingOnlyAdds(x, w.disk, w'.disk, id);
  }

  lemma WritingIsSafe(x: Scheme, w: World, w': World, id: RowId)
    requires LawfulScheme(x) && Writes(w, w') && Safe(x, w, id)
    ensures Safe(x, w', id)
    ensures forall aad :: Reads(x, w', id, aad) == Reads(x, w, id, aad)
  {
    if IsCredential(w.rows[id]) {
      WritingKeepsKeys(x, w, w', KekId(w.rows[id].envelope).value);
    }
  }

  /** A re-wrap of a safe reading is safe and reads as that reading did. */
  lemma RewroteIsSafe(x: Scheme, w: World, read: Row, row: Row, row': Row, aad: Bytes)
    requires LawfulScheme(x) && w.disk.pending.Some? && Ring(x, w.disk).Ok?
    requires Rewrote(x, Ring(x, w.disk).value, PendingId(x, w.disk), read, row, row')
    requires RowSafe(x, RecoveryKeys(x, w.disk), read)
    ensures IsCredential(row') && RowSafe(x, RecoveryKeys(x, w.disk), row')
    ensures Open(x.crypto, RecoveryKeys(x, w.disk), row'.envelope, aad) == Open(x.crypto, RecoveryKeys(x, w.disk), read.envelope, aad)
  {
    RingIsValid(x, w);
    RewrapPreservesMeaning(x.crypto, RecoveryKeys(x, w.disk), read.envelope, PendingId(x, w.disk), aad);
  }

  lemma RingIsValid(x: Scheme, w: World)
    requires LawfulScheme(x)
    ensures ValidKeys(RecoveryKeys(x, w.disk))
  {
  }

  lemma LiveKeysAreRecoveryKeys(x: Scheme, w: World, id: KeyId)
    requires Master(w.disk.secret).Some? && id in LiveKeys(x, Master(w.disk.secret).value)
    ensures id in RecoveryKeys(x, w.disk) && RecoveryKeys(x, w.disk)[id] == LiveKeys(x, Master(w.disk.secret).value)[id]
  {
  }

  lemma SealedLiveIsSafe(x: Scheme, w: World, row: Row)
    requires Master(w.disk.secret).Some? && SealedLive(x, Master(w.disk.secret).value, row)
    ensures Dek(x.crypto, RecoveryKeys(x, w.disk), row.envelope).Ok?
  {
    var live := LiveKeys(x, Master(w.disk.secret).value);
    LiveKeysAreRecoveryKeys(x, w, KekId(row.envelope).value);
    MoreKeysKeepMeaning(x.crypto, live, RecoveryKeys(x, w.disk), row.envelope, []);
  }

  /**
   * The promotion gate, row by row: a proven row opens from the promoted file
   * alone, whatever happened to the other rows meanwhile.
   */
  lemma ProvenRowSurvivesPromotion(x: Scheme, w: World, w': World, id: RowId, aad: Bytes)
    requires LawfulScheme(x) && w.disk.pending.Some? && Ring(x, w.disk).Ok?
    requires w' == World(Disk(w.disk.pending, None), w.rows)
    requires id in w.rows && Proven(x, Ring(x, w.disk).value, PendingId(x, w.disk), w.rows[id])
    ensures Ring(x, w'.disk).Ok? && Safe(x, w', id)
    ensures Reads(x, w', id, aad) == Reads(x, w, id, aad)
  {
    MoreKeysKeepMeaning(x.crypto, Ring(x, w.disk).value, Ring(x, w'.disk).value, w.rows[id].envelope, aad);
  }

  // ---- where a row can be lost ----

  /** The rename drops the only key that unwraps the row. */
  predicate RenameLoses(x: Scheme, w: World, w': World, id: RowId) {
    && Renames(x, w, w') && id in w.rows && IsCredential(w.rows[id])
    && Dek(x.crypto, LiveKeys(x, Master(w.disk.pending).value), w.rows[id].envelope).Err?
  }

  /** A server seals the row under a key that is no longer the live one, and the files give none that unwraps it. */
  ghost predicate SealLoses(x: Scheme, w: World, w': World, id: RowId) {
    && w'.disk == w.disk && id in w'.rows && IsCredential(w'.rows[id])
    && Dek(x.crypto, RecoveryKeys(x, w.disk), w'.rows[id].envelope).Err?
    && exists m: Octets :: SealedLive(x, m, w'.rows[id]) && Master(w.disk.secret) != Some(m)
  }

  ghost predicate Loses(x: Scheme, w: World, w': World, id: RowId) {
    RenameLoses(x, w, w', id) || SealLoses(x, w, w', id)
  }

  /** A row there at the rename is recoverable after it exactly when its DEK unwraps under the promoted key. */
  lemma RenameLosesExactlyWhen(x: Scheme, w: World, w': World, id: RowId)
    requires Renames(x, w, w') && id in w.rows
    ensures Safe(x, w', id) <==> !RenameLoses(x, w, w', id)
  {
    assert RecoveryKeys(x, w'.disk) == LiveKeys(x, Master(w.disk.pending).value);
  }

  ghost predicate SafeSoFar(x: Scheme, trace: seq<World>, k: nat, id: RowId)
    requires k < |trace|
  {
    forall q :: 0 <= q <= k && id in trace[q].rows ==> Safe(x, trace[q], id)
  }

  lemma RewrappedReading(x: Scheme, trace: seq<World>, k: nat, id: RowId, row': Row, aad: Bytes) returns (p: nat)
    requires LawfulScheme(x) && k < |trace| && id in trace[k].rows
    requires SafeSoFar(x, trace, k, id) && RowRewrapped(x, trace, k, id, row')
    ensures p <= k && id in trace[p].rows
    ensures IsCredential(row') && RowSafe(x, RecoveryKeys(x, trace[k].disk), row')
    ensures Open(x.crypto, RecoveryKeys(x, trace[k].disk), row'.envelope, aad) == Reads(x, trace[p], id, aad)
  {
    var w := trace[k];
    p :| && p <= k && trace[p].disk == w.disk && id in trace[p].rows
         && Rewrote(x, Ring(x, w.disk).value, PendingId(x, w.disk), trace[p].rows[id], w.rows[id], row');
    assert Safe(x, trace[p], id);
    RewroteIsSafe(x, w, trace[p].rows[id], w.rows[id], row', aad);
  }

  /** After a batch a safe row is safe, and reads as it did in some state up to then, p. */
  lemma RewrappedFrom(x: Scheme, trace: seq<World>, k: nat, id: RowId, aad: Bytes) returns (p: nat)
    requires LawfulScheme(x) && k + 1 < |trace| && Rewraps(x, trace, k)
    requires SafeSoFar(x, trace, k, id) && id in trace[k + 1].rows
    ensures Safe(x, trace[k + 1], id)
    ensures p <= k && id in trace[p].rows
    ensures IsCredential(trace[p].rows[id]) ==> IsCredential(trace[k + 1].rows[id])
    ensures Reads(x, trace[k + 1], id, aad) == Reads(x, trace[p], id, aad)
  {
    var w, w' := trace[k], trace[k + 1];
    p := k;
    assert RecoveryKeys(x, w'.disk) == RecoveryKeys(x, w.disk) && Safe(x, w, id);
    if w'.rows[id] != w.rows[id] {
      p := RewrappedReading(x, trace, k, id, w'.rows[id], aad);
    }
  }

  lemma ServingIsSafe(x: Scheme, trace: seq<World>, k: nat, id: RowId)
    requires LawfulScheme(x) && k + 1 < |trace| && Serves(x, trace, k, id)
    requires id in trace[k].rows ==> Safe(x, trace[k], id)
    requires id in trace[k + 1].rows && !SealLoses(x, trace[k], trace[k + 1], id)
    ensures Safe(x, trace[k + 1], id)
  {
    var w, w' := trace[k], trace[k + 1];
    if !Untouched(RowAt(w.rows, id), RowAt(w'.rows, id)) {
      var m: Octets :| WasLive(trace, k, m) && SealedLive(x, m, w'.rows[id]);
      if Master(w.disk.secret) == Some(m) {
        SealedLiveIsSafe(x, w', w'.rows[id]);
      }
    }
  }

  /** A step leaves a row that was never unsafe recoverable, unless it loses it in one of the two ways. */
  lemma StepIsSafe(x: Scheme, trace: seq<World>, k: nat, id: RowId)
    requires LawfulScheme(x) && k + 1 < |trace| && StepFor(x, trace, k, id)
    requires SafeSoFar(x, trace, k, id) && id in trace[k + 1].rows
    requires !Loses(x, trace[k], trace[k + 1], id)
    ensures Safe(x, trace[k + 1], id)
  {
    var w, w' := trace[k], trace[k + 1];
    if Writes(w, w') {
      WritingIsSafe(x, w, w', id);
    } else if Discards(x, w, w') {
      assert RecoveryKeys(x, w'.disk) == RecoveryKeys(x, w.disk);
    } else if Rewraps(x, trace, k) {
      var p := RewrappedFrom(x, trace, k, id, []);
    } else if Renames(x, w, w') {
      RenameLosesExactlyWhen(x, w, w', id);
    } else {
      ServingIsSafe(x, trace, k, id);
    }
  }

  // ---- crash safety ----

  /** What is safe up to state i and not in state k was lost in between. */
  lemma {:induction false} LostOnlyFrom(x: Scheme, trace: seq<World>, i: nat, k: nat, id: RowId)
    requires LawfulScheme(x) && i <= k < |trace|
    requires forall n :: i <= n < k ==> StepFor(x, trace, n, id)
    requires SafeSoFar(x, trace, i, id)
    ensures SafeSoFar(x, trace, k, id) || exists n :: i <= n < k && Loses(x, trace[n], trace[n + 1], id)
  {
    if i < k {
      LostOnlyFrom(x, trace, i, k - 1, id);
      if SafeSoFar(x, trace, k - 1, id) && !Loses(x, trace[k - 1], trace[k], id) && id in trace[k].rows {
        StepIsSafe(x, trace, k - 1, id);
      }
    }
  }

  /**
   * Crash safety. Over any number of rotation runs, each cut off anywhere, with
   * servers sealing under the live key or under one that was, batches landing on
   * rows that changed since they were read, and whatever happens to other rows:
   * a credential once recoverable is recoverable, or some step before lost it.
   */
  lemma CrashSafety(x: Scheme, trace: seq<World>, k: nat, id: RowId)
    requires LawfulScheme(x) && k < |trace|
    requires forall n :: 0 <= n < k ==> StepFor(x, trace, n, id)
    requires id in trace[0].rows ==> Safe(x, trace[0], id)
    ensures SafeSoFar(x, trace, k, id) || exists n :: 0 <= n < k && Loses(x, trace[n], trace[n + 1], id)
  {
    LostOnlyFrom(x, trace, 0, k, id);
  }

  /** secret.key has had one content up to state k. */
  ghost predicate OneSecret(trace: seq<World>, k: nat)
    requires k < |trace|
  {
    forall q :: 0 <= q <= k ==> trace[q].disk.secret == trace[0].disk.secret
  }

  /** No row is lost while secret.key is what it was: every key that was live still is. */
  lemma NothingIsLostBefore(x: Scheme, trace: seq<World>, k: nat, id: RowId)
    requires LawfulScheme(x) && k + 1 < |trace| && StepFor(x, trace, k, id)
    requires OneSecret(trace, k + 1)
    requires SafeSoFar(x, trace, k, id)
    ensures !Loses(x, trace[k], trace[k + 1], id)
  {
    var w, w' := trace[k], trace[k + 1];
    if RenameLoses(x, w, w', id) {
      assert Safe(x, w, id) && w.disk.pending == w.disk.secret;
      SamePendingAddsNothing(x, w.disk);
    }
    if id in w'.rows && w'.disk == w.disk {
      if Rewraps(x, trace, k) {
        var p := RewrappedFrom(x, trace, k, id, []);
      } else if Serves(x, trace, k, id) && !Untouched(RowAt(w.rows, id), RowAt(w'.rows, id)) {
        var m: Octets :| WasLive(trace, k, m) && SealedLive(x, m, w'.rows[id]);
        SealedLiveIsSafe(x, w', w'.rows[id]);
      }
      assert Safe(x, w', id);
    }
  }

  lemma SamePendingAddsNothing(x: Scheme, d: Disk)
    requires Ring(x, d).Ok? && d.pending == d.secret
    ensures Ring(x, d).value == LiveKeys(x, Master(d.secret).value)
  {
  }

  /** Up to the rename, and in a run that never gets there, everything stays recoverable. */
  lemma SafeUntilRename(x: Scheme, trace: seq<World>, k: nat, id: RowId)
    requires LawfulScheme(x) && k < |trace|
    requires forall n :: 0 <= n < k ==> StepFor(x, trace, n, id)
    requires OneSecret(trace, k)
    requires id in trace[0].rows ==> Safe(x, trace[0], id)
    ensures SafeSoFar(x, trace, k, id)
  {
    for i := 0 to k
      invariant SafeSoFar(x, trace, i, id)
    {
      assert StepFor(x, trace, i, id);
      NothingIsLostBefore(x, trace, i, id);
      if id in trace[i + 1].rows {
        StepIsSafe(x, trace, i, id);
      }
    }
  }

  /** From the rename on, a row the promoted key unwraps stays recoverable until a server seals it under the superseded one. */
  lemma {:induction false} SafeWhileServed(x: Scheme, trace: seq<World>, i: nat, j: nat, id: RowId)
    requires LawfulScheme(x) && i <= j < |trace|
    requires forall n :: i <= n < j ==> Serves(x, trace, n, id) && !SealLoses(x, trace[n], trace[n + 1], id)
    requires Safe(x, trace[i], id)
    ensures Safe(x, trace[j], id)
  {
    if i < j {
      SafeWhileServed(x, trace, i, j - 1, id);
      ServingIsSafe(x, trace, j - 1, id);
    }
  }

  // ---- readings ----

  /** Step k leaves the row to the rotation, and a rename finds it proven. */
  ghost predicate LeftToRotation(x: Scheme, trace: seq<World>, k: nat, id: RowId)
    requires k + 1 < |trace|
  {
    var w, w' := trace[k], trace[k + 1];
    || (w'.disk == w.disk && Untouched(RowAt(w.rows, id), RowAt(w'.rows, id)))
    || (Rotates(x, trace, k)
        && (Renames(x, w, w') ==> id in w.rows && Proven(x, Ring(x, w.disk).value, PendingId(x, w.disk), w.rows[id])))
  }

  ghost predicate ReadsAs(x: Scheme, trace: seq<World>, k: nat, id: RowId, aad: Bytes, reading: Result<Bytes, Envelope.Error>)
    requires k < |trace|
  {
    forall q :: 0 <= q <= k ==>
      id in trace[q].rows && IsCredential(trace[q].rows[id]) && Safe(x, trace[q], id) && Reads(x, trace[q], id, aad) == reading
  }

  lemma StepKeepsReading(x: Scheme, trace: seq<World>, k: nat, id: RowId, aad: Bytes, reading: Result<Bytes, Envelope.Error>)
    requires LawfulScheme(x) && k + 1 < |trace| && LeftToRotation(x, trace, k, id)
    requires ReadsAs(x, trace, k, id, aad, reading)
    ensures ReadsAs(x, trace, k + 1, id, aad, reading)
  {
    var w, w' := trace[k], trace[k + 1];
    assert Safe(x, w, id) && Reads(x, w, id, aad) == reading && IsCredential(w.rows[id]);
    if w'.disk == w.disk && Untouched(RowAt(w.rows, id), RowAt(w'.rows, id)) {
    } else if Writes(w, w') {
      WritingIsSafe(x, w, w', id);
    } else if Discards(x, w, w') {
      assert RecoveryKeys(x, w'.disk) == RecoveryKeys(x, w.disk);
    } else if Rewraps(x, trace, k) {
      var p := RewrappedFrom(x, trace, k, id, aad);
      assert Reads(x, trace[p], id, aad) == reading;
    } else {
      ProvenRowSurvivesPromotion(x, w, w', id, aad);
    }
  }

  /** Over any stretch in which nobody else writes the row, it reads as the same plaintext throughout, success or failure alike. */
  lemma ReadingSurvives(x: Scheme, trace: seq<World>, k: nat, id: RowId, aad: Bytes)
    requires LawfulScheme(x) && k < |trace|
    requires forall n :: 0 <= n < k ==> LeftToRotation(x, trace, n, id)
    requires Safe(x, trace[0], id) && IsCredential(trace[0].rows[id])
    ensures ReadsAs(x, trace, k, id, aad, Reads(x, trace[0], id, aad))
  {
    var reading := Reads(x, trace[0], id, aad);
    for i := 0 to k
      invariant ReadsAs(x, trace, i, id, aad, reading)
    {
      StepKeepsReading(x, trace, i, id, aad, reading);
    }
  }

  /** secret.key is replaced by a rename and by nothing else, and then by the complete pending key. */
  lemma OnlyRenameReplaces(x: Scheme, trace: seq<World>, k: nat, id: RowId)
    requires k + 1 < |trace| && StepFor(x, trace, k, id)
    requires trace[k + 1].disk.secret != trace[k].disk.secret
    ensures Renames(x, trace[k], trace[k + 1]) && Master(trace[k + 1].disk.secret).Some?
    ensures trace[k + 1].disk.secret == trace[k].disk.pending
  {
  }

  /** What the gate prevents: renaming past a credential still under the old key alone loses it. */
  lemma UnprovenRowIsStranded(x: Scheme, w: World, w': World, id: RowId)
    requires Renames(x, w, w') && id in w.rows && IsCredential(w.rows[id])
    requires KekId(w.rows[id].envelope).value !in {PendingId(x, w.disk), LEGACY_KEK_ID}
    ensures RenameLoses(x, w, w', id) && !Safe(x, w', id)
  {
  }

  /**
   * Two rotations that overlap: once the first has promoted its key and moved
   * every row to it, and a third has left another pending key, the second's
   * rename loses what the first one moved.
   */
  lemma OverlappingRenameLoses(x: Scheme, w: World, w': World, id: RowId)
    requires Renames(x, w, w') && id in w.rows && IsCredential(w.rows[id])
    requires SealedLive(x, Master(w.disk.secret).value, w.rows[id])
    requires x.keyId(x.kek(Master(w.disk.secret).value)) !in {PendingId(x, w.disk), LEGACY_KEK_ID}
    ensures Safe(x, w, id) && RenameLoses(x, w, w', id)
  {
    SealedLiveIsSafe(x, w, w.rows[id]);
    UnprovenRowIsStranded(x, w, w', id);
  }
}
