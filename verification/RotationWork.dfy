/**
 * The work of `key rotate` on tables, pages and rings: pure steps and the facts
 * the command's methods rest on.
 */
module RotationWork {
  import opened Wrappers
  import opened Bytes
  import opened Base64
  import opened KeyFiles
  import opened Envelope
  import opened Rotation

  const ROTATE_BATCH_SIZE := 500
  const ROTATE_EXTRA_PASSES := 3

  // ---- what a run leaves behind ----

  /** Who took a step: the command itself, or the other processes between two of its operations. */
  datatype Actor = Own | Others

  /** Step k was the actor's. */
  predicate Moved(moves: seq<Actor>, k: nat, actor: Actor) {
    k < |moves| && moves[k] == actor
  }

  /** Every step of the command's own is a rotation step. */
  ghost predicate OwnMoves(x: Scheme, trace: seq<World>, moves: seq<Actor>)
    requires |trace| == |moves| + 1
  {
    forall k: nat | Moved(moves, k, Own) :: Rotates(x, trace, k)
  }

  ghost predicate OthersKeepFiles(trace: seq<World>, moves: seq<Actor>)
    requires |trace| == |moves| + 1
  {
    forall k: nat | Moved(moves, k, Others) :: trace[k + 1].disk == trace[k].disk
  }

  /** The others only ever serve the row. */
  ghost predicate OthersServe(x: Scheme, trace: seq<World>, moves: seq<Actor>, id: RowId)
    requires |trace| == |moves| + 1
  {
    forall k: nat | Moved(moves, k, Others) :: Serves(x, trace, k, id)
  }

  /** The command has changed nothing since state `since`. */
  ghost predicate Waited(moves: seq<Actor>, since: nat) {
    since <= |moves| && forall k :: since <= k < |moves| ==> moves[k] == Others
  }

  /** The only step of this kind is the one at the gate. */
  ghost predicate OnlyAt<T>(kind: (T, T) -> bool, trace: seq<T>, gate: Option<nat>) {
    forall k {:trigger kind(trace[k], trace[k + 1])} ::
      0 <= k < |trace| - 1 && kind(trace[k], trace[k + 1]) ==> gate == Some(k)
  }

  lemma OnlyAtGrows<T>(kind: (T, T) -> bool, trace: seq<T>, gate: Option<nat>, w: T)
    requires trace != [] && OnlyAt(kind, trace, gate)
    requires kind(trace[|trace| - 1], w) ==> gate == None
    ensures OnlyAt(kind, trace + [w], if kind(trace[|trace| - 1], w) then Some(|trace| - 1) else gate)
  {
    var longer := trace + [w];
    forall k | 0 <= k < |longer| - 1 && kind(longer[k], longer[k + 1])
      ensures (if kind(trace[|trace| - 1], w) then Some(|trace| - 1) else gate) == Some(k)
    {
      if k < |trace| - 1 {
        assert longer[k] == trace[k] && longer[k + 1] == trace[k + 1];
      } else {
        assert longer[k] == trace[k] && longer[k + 1] == w;
      }
    }
  }

  function Renaming(x: Scheme): (World, World) -> bool {
    (w, w') => Renames(x, w, w')
  }

  ghost predicate OnlyRename(x: Scheme, trace: seq<World>, gate: Option<nat>) {
    OnlyAt(Renaming(x), trace, gate)
  }

  ghost predicate History(x: Scheme, home: Disk, trace: seq<World>, moves: seq<Actor>, lastOwn: nat, gate: Option<nat>) {
    && |trace| == |moves| + 1 && trace[0].disk == home
    && OwnMoves(x, trace, moves) && OthersKeepFiles(trace, moves)
    && Waited(moves, lastOwn) && OnlyRename(x, trace, gate)
  }

  lemma RowRewrappedLater(x: Scheme, trace: seq<World>, w: World, k: nat, id: RowId, row': Row)
    requires k < |trace| && id in trace[k].rows && RowRewrapped(x, trace, k, id, row')
    ensures RowRewrapped(x, trace + [w], k, id, row')
  {
    var longer := trace + [w];
    var p :| && 0 <= p <= k && trace[p].disk == trace[k].disk && id in trace[p].rows
             && Rewrote(x, Ring(x, trace[k].disk).value, PendingId(x, trace[k].disk), trace[p].rows[id], trace[k].rows[id], row');
    assert longer[p] == trace[p] && longer[k] == trace[k];
  }

  lemma RotatesLater(x: Scheme, trace: seq<World>, w: World, k: nat)
    requires k + 1 < |trace| && Rotates(x, trace, k)
    ensures Rotates(x, trace + [w], k)
  {
    var longer := trace + [w];
    assert longer[k] == trace[k] && longer[k + 1] == trace[k + 1];
    if Rewraps(x, trace, k) {
      forall id | id in trace[k].rows && trace[k + 1].rows[id] != trace[k].rows[id]
        ensures RowRewrapped(x, longer, k, id, trace[k + 1].rows[id])
      {
        RowRewrappedLater(x, trace, w, k, id, trace[k + 1].rows[id]);
      }
      assert Rewraps(x, longer, k);
    }
  }

  lemma ServesLater(x: Scheme, trace: seq<World>, w: World, k: nat, id: RowId)
    requires k + 1 < |trace| && Serves(x, trace, k, id)
    ensures Serves(x, trace + [w], k, id)
  {
    var longer := trace + [w];
    assert longer[k] == trace[k] && longer[k + 1] == trace[k + 1];
    if !Untouched(RowAt(trace[k].rows, id), RowAt(trace[k + 1].rows, id)) {
      var m: Octets :| WasLive(trace, k, m) && SealedLive(x, m, trace[k + 1].rows[id]);
      WasLiveLater(trace, w, k, m);
    }
  }

  lemma WasLiveLater(trace: seq<World>, w: World, k: nat, m: Octets)
    requires k < |trace| && WasLive(trace, k, m)
    ensures WasLive(trace + [w], k, m)
  {
    var p :| 0 <= p <= k && Master(trace[p].disk.secret) == Some(m);
    assert (trace + [w])[p] == trace[p];
  }

  lemma RenameIsStep(x: Scheme, trace: seq<World>, w: World, w': World)
    requires trace != [] && trace[|trace| - 1] == w && Renames(x, w, w')
    ensures Rotates(x, trace + [w'], |trace| - 1)
  {
  }

  lemma OwnMovesGrow(x: Scheme, trace: seq<World>, moves: seq<Actor>, w: World, actor: Actor)
    requires |trace| == |moves| + 1 && OwnMoves(x, trace, moves)
    requires actor == Own ==> Rotates(x, trace + [w], |trace| - 1)
    ensures OwnMoves(x, trace + [w], moves + [actor])
  {
    forall k: nat | Moved(moves + [actor], k, Own) ensures Rotates(x, trace + [w], k) {
      if k < |moves| {
        assert Moved(moves, k, Own);
        RotatesLater(x, trace, w, k);
      }
    }
  }

  lemma OthersServeGrows(x: Scheme, trace: seq<World>, moves: seq<Actor>, w: World, actor: Actor, id: RowId)
    requires |trace| == |moves| + 1 && OthersServe(x, trace, moves, id)
    requires actor == Others ==> Serves(x, trace + [w], |trace| - 1, id)
    ensures OthersServe(x, trace + [w], moves + [actor], id)
  {
    forall k: nat | Moved(moves + [actor], k, Others) ensures Serves(x, trace + [w], k, id) {
      if k < |moves| {
        assert Moved(moves, k, Others);
        ServesLater(x, trace, w, k, id);
      }
    }
  }

  lemma NoOtherRename(x: Scheme, trace: seq<World>, gate: Option<nat>, n: nat)
    requires OnlyRename(x, trace, gate) && n + 1 < |trace| && gate != Some(n)
    ensures !Renames(x, trace[n], trace[n + 1])
  {
    assert !Renaming(x)(trace[n], trace[n + 1]);
  }

  function GateAfter(x: Scheme, trace: seq<World>, gate: Option<nat>, w: World): Option<nat>
    requires trace != []
  {
    if Renames(x, trace[|trace| - 1], w) then Some(|trace| - 1) else gate
  }

  lemma OnlyRenameGrows(x: Scheme, trace: seq<World>, gate: Option<nat>, w: World)
    requires trace != [] && OnlyRename(x, trace, gate)
    requires Renames(x, trace[|trace| - 1], w) ==> gate == None
    ensures OnlyRename(x, trace + [w], GateAfter(x, trace, gate, w))
  {
    OnlyAtGrows(Renaming(x), trace, gate, w);
  }

  lemma HistoryAfterOthers(x: Scheme, home: Disk, trace: seq<World>, moves: seq<Actor>, lastOwn: nat, gate: Option<nat>, w: World)
    requires History(x, home, trace, moves, lastOwn, gate) && w.disk == trace[|trace| - 1].disk
    ensures History(x, home, trace + [w], moves + [Others], lastOwn, gate)
  {
    OwnMovesGrow(x, trace, moves, w, Others);
    OnlyRenameGrows(x, trace, gate, w);
  }

  lemma HistoryAfterOwn(x: Scheme, home: Disk, trace: seq<World>, moves: seq<Actor>, lastOwn: nat, gate: Option<nat>, w: World)
    requires History(x, home, trace, moves, lastOwn, gate) && Rotates(x, trace + [w], |trace| - 1)
    requires Renames(x, trace[|trace| - 1], w) ==> gate == None
    ensures History(x, home, trace + [w], moves + [Own], |trace|, GateAfter(x, trace, gate, w))
  {
    OwnMovesGrow(x, trace, moves, w, Own);
    OnlyRenameGrows(x, trace, gate, w);
  }

  predicate SealedUnder(x: Scheme, d: Disk, row: Row) {
    Master(d.secret).Some? && SealedLive(x, Master(d.secret).value, row)
  }

  /** A server leaves the row, or seals it under the key it started on: the one of `home`, or the one there now. */
  predicate PolitelyServed(x: Scheme, home: Disk, now: Disk, row: Option<Row>, row': Option<Row>) {
    || Untouched(row, row')
    || (row'.Some? && IsCredential(row'.value) && (SealedUnder(x, home, row'.value) || SealedUnder(x, now, row'.value)))
  }

  lemma PoliteIsServing(x: Scheme, trace: seq<World>, w: World, id: RowId)
    requires trace != [] && w.disk == trace[|trace| - 1].disk
    requires PolitelyServed(x, trace[0].disk, w.disk, RowAt(trace[|trace| - 1].rows, id), RowAt(w.rows, id))
    ensures Serves(x, trace + [w], |trace| - 1, id)
  {
    var k := |trace| - 1;
    var longer := trace + [w];
    assert longer[k] == trace[k] && longer[k + 1] == w && longer[0] == trace[0];
    if !Untouched(RowAt(trace[k].rows, id), RowAt(w.rows, id)) {
      if SealedUnder(x, trace[0].disk, w.rows[id]) {
        assert WasLive(longer, k, Master(longer[0].disk.secret).value);
      } else {
        assert WasLive(longer, k, Master(longer[k].disk.secret).value);
      }
    }
  }

  // ---- pages and batches ----

  /** A credential outside the given key id: rotation's remaining work. */
  predicate Outside(rows: Table, newId: KeyId, id: RowId) {
    id in rows && IsCredential(rows[id]) && rows[id].kekId != newId
  }

  ghost function OutsideSet(rows: Table, newId: KeyId): set<RowId> {
    set id | id in rows && Outside(rows, newId, id)
  }

  /** A credential in every state of the trace from `start` on. */
  ghost predicate Persistent(trace: seq<World>, start: nat, id: RowId) {
    forall k :: start <= k < |trace| ==> id in trace[k].rows && IsCredential(trace[k].rows[id])
  }

  ghost predicate Ascending(ids: seq<RowId>) {
    forall i, j :: 0 <= i < j < |ids| ==> ids[i] < ids[j]
  }

  /** One keyset page: the first credentials above `after`, in id order. */
  ghost predicate IsPage(rows: Table, after: int, page: seq<RowId>) {
    && |page| <= 500
    && Ascending(page)
    && (page != [] ==> page[|page| - 1] > after)
    && (forall id <- page :: id in rows && IsCredential(rows[id]) && id > after)
    && (forall id <- rows | IsCredential(rows[id]) && id > after ::
          id in page || (|page| == 500 && id > page[|page| - 1]))
  }

  method LowestAbove(rows: Table, after: int) returns (r: Option<RowId>)
    ensures r.Some? ==> r.value in rows && IsCredential(rows[r.value]) && r.value > after
    ensures forall id <- rows | IsCredential(rows[id]) && id > after :: r.Some? && r.value <= id
  {
    var s := set id | id in rows && IsCredential(rows[id]) && id > after;
    if s == {} {
      assert forall id <- rows | IsCredential(rows[id]) && id > after :: id in s;
      return None;
    }
    var best :| best in s;
    var rest := s - {best};
    while rest != {}
      invariant best in s && rest <= s
      invariant forall id | id in s && id !in rest :: best <= id
      decreases rest
    {
      var id :| id in rest;
      if id < best {
        best := id;
      }
      rest := rest - {id};
    }
    assert forall id <- rows | IsCredential(rows[id]) && id > after :: id in s;
    r := Some(best);
  }

  method FirstPage(rows: Table, after: int) returns (page: seq<RowId>)
    ensures IsPage(rows, after, page)
  {
    page := [];
    var last := after;
    var next := LowestAbove(rows, last);
    while |page| < ROTATE_BATCH_SIZE && next.Some?
      invariant |page| <= ROTATE_BATCH_SIZE && Ascending(page)
      invariant last == if page == [] then after else page[|page| - 1]
      invariant last >= after && (page != [] ==> last > after)
      invariant forall id <- page :: id in rows && IsCredential(rows[id]) && after < id <= last
      invariant forall id <- rows | IsCredential(rows[id]) && id > after :: id in page || id > last
      invariant next.Some? ==> next.value in rows && IsCredential(rows[next.value]) && next.value > last
      invariant forall id <- rows | IsCredential(rows[id]) && id > last :: next.Some? && next.value <= id
    {
      page := page + [next.value];
      last := next.value;
      next := LowestAbove(rows, last);
    }
  }

  /** Whether the row is on this page and still to do. */
  predicate ToMove(page: seq<RowId>, read: Table, newId: KeyId, id: RowId) {
    id in page && id in read && read[id].kekId != newId
  }

  /** The batch is for exactly the rows of the page that are still to do. */
  ghost predicate MovesPage(page: seq<RowId>, read: Table, newId: KeyId, batch: map<RowId, Bytes>) {
    forall id: RowId :: id in batch <==> ToMove(page, read, newId, id)
  }

  /** Every entry of the batch is the re-wrap of the row as it was read. */
  predicate IsBatch(x: Scheme, keys: Keys, newId: KeyId, read: Table, batch: map<RowId, Bytes>) {
    forall id <- batch ::
      id in read && IsCredential(read[id]) && Rewrapped(x.crypto, keys, read[id].envelope, newId) == Ok(batch[id])
  }

  function Applied(rows: Table, newId: KeyId, batch: map<RowId, Bytes>): Table {
    map id | id in rows :: if id in batch then Row(newId, batch[id], rows[id].deleted) else rows[id]
  }

  /**
   * The update carries no comparison with what was read, so a credential
   * re-entered between the page and the commit reads as the old one again.
   */
  lemma BatchRestoresWhatWasRead(x: Scheme, keys: Keys, newId: KeyId, read: Table, rows: Table, batch: map<RowId, Bytes>,
                                 id: RowId, aad: Bytes)
    requires LawfulScheme(x) && ValidKeys(keys) && IsBatch(x, keys, newId, read, batch)
    requires id in batch && id in rows
    ensures KekId(Applied(rows, newId, batch)[id].envelope) == Ok(newId)
    ensures Open(x.crypto, keys, Applied(rows, newId, batch)[id].envelope, aad) == Open(x.crypto, keys, read[id].envelope, aad)
  {
    RewrapPreservesMeaning(x.crypto, keys, read[id].envelope, newId, aad);
  }

  lemma EmptyBatch(rows: Table, newId: KeyId, batch: map<RowId, Bytes>)
    requires |batch| == 0
    ensures Applied(rows, newId, batch) == rows && InPlace(rows, newId, batch)
  {
  }

  /** The last state is the one before with the batch applied. */
  ghost predicate JustApplied(trace: seq<World>, newId: KeyId, batch: map<RowId, Bytes>) {
    |trace| >= 2 && trace[|trace| - 1].rows == Applied(trace[|trace| - 2].rows, newId, batch)
  }

  /** The batch was made from the rows of state p, under the files that are still there. */
  ghost predicate BatchFrom(x: Scheme, trace: seq<World>, p: nat, keys: Keys, newId: KeyId, batch: map<RowId, Bytes>) {
    && p < |trace| && trace[p].disk == trace[|trace| - 1].disk
    && trace[p].disk.pending.Some? && Ring(x, trace[p].disk) == Ok(keys) && PendingId(x, trace[p].disk) == newId
    && IsBatch(x, keys, newId, trace[p].rows, batch)
  }

  /** Each row of the table is as it was, or the re-wrap of its reading. */
  ghost predicate AllRewritten(x: Scheme, keys: Keys, newId: KeyId, read: Table, rows: Table, rows': Table) {
    && rows'.Keys == rows.Keys
    && forall id <- rows :: rows'[id] == rows[id] || (id in read && Rewrote(x, keys, newId, read[id], rows[id], rows'[id]))
  }

  lemma AppliedRewrites(x: Scheme, keys: Keys, newId: KeyId, read: Table, rows: Table, batch: map<RowId, Bytes>)
    requires IsBatch(x, keys, newId, read, batch)
    ensures AllRewritten(x, keys, newId, read, rows, Applied(rows, newId, batch))
  {
  }

  /** Every row of the batch is there, at the new id, with the envelope of the batch. */
  ghost predicate InPlace(rows: Table, newId: KeyId, batch: map<RowId, Bytes>) {
    forall id <- batch :: id in rows && rows[id].kekId == newId && rows[id].envelope == batch[id]
  }

  /** A batch is a rotation step, however stale the reading it was made from. */
  lemma BatchIsRewrap(x: Scheme, trace: seq<World>, p: nat, keys: Keys, newId: KeyId, batch: map<RowId, Bytes>, w: World, w': World)
    requires BatchFrom(x, trace, p, keys, newId, batch) && trace[|trace| - 1] == w
    requires w' == w.(rows := Applied(w.rows, newId, batch))
    ensures Rotates(x, trace + [w'], |trace| - 1)
  {
    AppliedRewrites(x, keys, newId, trace[p].rows, w.rows, batch);
    RewrittenIsStep(x, trace, p, trace[p], keys, newId, w, w');
  }

  lemma RewrittenIsStep(x: Scheme, trace: seq<World>, p: nat, read: World, keys: Keys, newId: KeyId, w: World, w': World)
    requires p < |trace| && trace[p] == read && trace[|trace| - 1] == w && w'.disk == w.disk == read.disk
    requires w.disk.pending.Some? && Ring(x, w.disk) == Ok(keys) && PendingId(x, w.disk) == newId
    requires AllRewritten(x, keys, newId, read.rows, w.rows, w'.rows)
    ensures Rotates(x, trace + [w'], |trace| - 1)
  {
    var k := |trace| - 1;
    var longer := trace + [w'];
    assert longer[k] == w && longer[k + 1] == w' && longer[p] == read;
    forall id | id in longer[k].rows && longer[k + 1].rows[id] != longer[k].rows[id]
      ensures RowRewrapped(x, longer, k, id, longer[k + 1].rows[id])
    {
      ReadingRewraps(x, longer, p, read, k, w, keys, newId, id, w'.rows[id]);
    }
    RewrapsRotates(x, longer, k);
  }

  lemma RewrapsRotates(x: Scheme, trace: seq<World>, k: nat)
    requires k + 1 < |trace| && Rewraps(x, trace, k)
    ensures Rotates(x, trace, k)
  {
  }

  lemma ReadingRewraps(x: Scheme, trace: seq<World>, p: nat, read: World, k: nat, w: World, keys: Keys, newId: KeyId, id: RowId, row': Row)
    requires p <= k < |trace| && trace[p] == read && trace[k] == w && w.disk == read.disk
    requires w.disk.pending.Some? && Ring(x, w.disk) == Ok(keys) && PendingId(x, w.disk) == newId
    requires id in read.rows && id in w.rows && Rewrote(x, keys, newId, read.rows[id], w.rows[id], row')
    ensures RowRewrapped(x, trace, k, id, row')
  {
  }

  /** No credential up to `after` is left outside. */
  ghost predicate DoneUpTo(rows: Table, newId: KeyId, after: int) {
    forall id <- rows | id <= after :: !Outside(rows, newId, id)
  }

  function LastOf(page: seq<RowId>): Option<RowId> {
    if page == [] then None else Some(page[|page| - 1])
  }

  /** Applying a page's batch finishes everything up to the page's last id, and everything after an empty page. */
  lemma PageDone(rows: Table, newId: KeyId, after: int, page: seq<RowId>, batch: map<RowId, Bytes>)
    requires IsPage(rows, after, page) && DoneUpTo(rows, newId, after) && page != []
    requires MovesPage(page, rows, newId, batch)
    ensures DoneUpTo(Applied(rows, newId, batch), newId, page[|page| - 1])
  {
    var rows' := Applied(rows, newId, batch);
    forall id | id in rows' && id <= page[|page| - 1] ensures !Outside(rows', newId, id) {
      assert id > after && IsCredential(rows[id]) ==> id in page;
    }
  }

  /** What one page does to the remaining work. */
  ghost predicate PageMoved(rows: Table, rows': Table, newId: KeyId, after: int, page: seq<RowId>, moved: nat) {
    && |OutsideSet(rows, newId)| == |OutsideSet(rows', newId)| + moved
    && (DoneUpTo(rows, newId, after) ==>
          if page == [] then OutsideSet(rows', newId) == {} else DoneUpTo(rows', newId, page[|page| - 1]))
  }

  lemma EmptyPageMoves(rows: Table, newId: KeyId, after: int)
    requires IsPage(rows, after, [])
    ensures PageMoved(rows, rows, newId, after, [], 0)
  {
  }

  lemma PageMoves(x: Scheme, keys: Keys, rows: Table, newId: KeyId, after: int, page: seq<RowId>, batch: map<RowId, Bytes>)
    requires IsPage(rows, after, page) && page != [] && IsBatch(x, keys, newId, rows, batch)
    requires MovesPage(page, rows, newId, batch)
    ensures PageMoved(rows, Applied(rows, newId, batch), newId, after, page, |batch|)
  {
    BatchCounts(x, keys, newId, rows, batch);
    if DoneUpTo(rows, newId, after) {
      PageDone(rows, newId, after, page, batch);
    }
  }

  /** A batch of rows that were outside takes exactly that many off the remaining work. */
  lemma BatchCounts(x: Scheme, keys: Keys, newId: KeyId, rows: Table, batch: map<RowId, Bytes>)
    requires IsBatch(x, keys, newId, rows, batch)
    requires forall id <- batch :: rows[id].kekId != newId
    ensures |OutsideSet(rows, newId)| == |OutsideSet(Applied(rows, newId, batch), newId)| + |batch|
  {
    var left := OutsideSet(Applied(rows, newId, batch), newId);
    forall id | id in batch ensures id in rows && Outside(rows, newId, id) {
    }
    assert OutsideSet(rows, newId) == left + batch.Keys;
    assert left !! batch.Keys;
  }

  // ---- disturbance ----

  /** Step k is the others' and changes the rows. */
  ghost predicate Stirred(trace: seq<World>, moves: seq<Actor>, k: nat) {
    Moved(moves, k, Others) && k + 1 < |trace| && trace[k + 1].rows != trace[k].rows
  }

  /** The others leave the rows alone from state n on. */
  ghost predicate StillFrom(trace: seq<World>, moves: seq<Actor>, n: nat) {
    forall k: nat :: Stirred(trace, moves, k) ==> k < n
  }

  ghost predicate LastStir(trace: seq<World>, moves: seq<Actor>, stir: nat) {
    StillFrom(trace, moves, stir) && forall n: nat :: StillFrom(trace, moves, n) ==> stir <= n
  }

  lemma StillExactlyFrom(trace: seq<World>, moves: seq<Actor>, stir: nat, n: nat)
    requires LastStir(trace, moves, stir)
    ensures StillFrom(trace, moves, n) <==> stir <= n
  {
  }

  function StirAfter(trace: seq<World>, stir: nat, w: World, actor: Actor): nat
    requires trace != []
  {
    if actor == Others && w.rows != trace[|trace| - 1].rows then |trace| else stir
  }

  lemma StirGrows(trace: seq<World>, moves: seq<Actor>, stir: nat, w: World, actor: Actor)
    requires |trace| == |moves| + 1 && LastStir(trace, moves, stir)
    ensures LastStir(trace + [w], moves + [actor], StirAfter(trace, stir, w, actor)) && stir <= StirAfter(trace, stir, w, actor)
  {
    assert StillFrom(trace, moves, |moves|);
    forall k: nat | Stirred(trace + [w], moves + [actor], k) ensures k < StirAfter(trace, stir, w, actor) {
      StirredLater(trace, moves, w, actor, k);
    }
    forall n: nat | StillFrom(trace + [w], moves + [actor], n) ensures StirAfter(trace, stir, w, actor) <= n {
      StirredLater(trace, moves, w, actor, |moves|);
      forall k: nat | Stirred(trace, moves, k) ensures k < n {
        StirredLater(trace, moves, w, actor, k);
      }
      assert StillFrom(trace, moves, n);
    }
  }

  lemma StirredLater(trace: seq<World>, moves: seq<Actor>, w: World, actor: Actor, k: nat)
    requires |trace| == |moves| + 1
    ensures Stirred(trace + [w], moves + [actor], k) <==>
              if k < |moves| then Stirred(trace, moves, k)
              else k == |moves| && actor == Others && w.rows != trace[|trace| - 1].rows
  {
    if k < |moves| {
      assert (trace + [w])[k] == trace[k] && (trace + [w])[k + 1] == trace[k + 1];
    }
  }

  /** Every credential of the state can be opened with what its files give, under the id its column names. */
  ghost predicate TidyWorld(x: Scheme, w: World) {
    Tidy(x, RecoveryKeys(x, w.disk), w.rows)
  }

  /** State k is not tidy, or a row has been removed on the way to it. */
  ghost predicate RoughAt(x: Scheme, trace: seq<World>, k: nat) {
    k < |trace| && (!TidyWorld(x, trace[k]) || (k > 0 && !(trace[k - 1].rows.Keys <= trace[k].rows.Keys)))
  }

  ghost predicate CalmFrom(x: Scheme, trace: seq<World>, n: nat) {
    forall k: nat :: RoughAt(x, trace, k) ==> k < n
  }

  ghost predicate LastRough(x: Scheme, trace: seq<World>, rough: nat) {
    CalmFrom(x, trace, rough) && forall n: nat :: CalmFrom(x, trace, n) ==> rough <= n
  }

  lemma CalmExactlyFrom(x: Scheme, trace: seq<World>, rough: nat, n: nat)
    requires LastRough(x, trace, rough)
    ensures CalmFrom(x, trace, n) <==> rough <= n
  {
  }

  ghost predicate RoughStep(x: Scheme, before: Table, w: World) {
    !TidyWorld(x, w) || !(before.Keys <= w.rows.Keys)
  }

  ghost function RoughAfter(x: Scheme, trace: seq<World>, rough: nat, w: World): nat
    requires trace != []
  {
    if RoughStep(x, trace[|trace| - 1].rows, w) then |trace| + 1 else rough
  }

  lemma RoughGrows(x: Scheme, trace: seq<World>, rough: nat, w: World)
    requires trace != [] && LastRough(x, trace, rough)
    ensures LastRough(x, trace + [w], RoughAfter(x, trace, rough, w)) && rough <= RoughAfter(x, trace, rough, w)
  {
    RoughIsPast(x, trace, rough);
    forall k: nat | RoughAt(x, trace + [w], k) ensures k < RoughAfter(x, trace, rough, w) {
      RoughLater(x, trace, w, k);
      if k < |trace| {
        assert RoughAt(x, trace, k) && k < rough;
      }
    }
    forall n: nat | CalmFrom(x, trace + [w], n) ensures RoughAfter(x, trace, rough, w) <= n {
      RoughLater(x, trace, w, |trace|);
      forall k: nat | RoughAt(x, trace, k) ensures k < n {
        RoughLater(x, trace, w, k);
      }
      assert CalmFrom(x, trace, n);
    }
  }

  lemma RoughStarts(x: Scheme, w: World)
    ensures LastRough(x, [w], if TidyWorld(x, w) then 0 else 1)
  {
    assert RoughAt(x, [w], 0) <==> !TidyWorld(x, w);
  }

  lemma RoughIsPast(x: Scheme, trace: seq<World>, rough: nat)
    requires LastRough(x, trace, rough)
    ensures rough <= |trace|
  {
    assert CalmFrom(x, trace, |trace|);
  }

  lemma RoughLater(x: Scheme, trace: seq<World>, w: World, k: nat)
    requires trace != []
    ensures RoughAt(x, trace + [w], k) <==>
              if k < |trace| then RoughAt(x, trace, k) else k == |trace| && RoughStep(x, trace[|trace| - 1].rows, w)
  {
    var longer := trace + [w];
    if k < |trace| {
      assert longer[k] == trace[k] && (k > 0 ==> longer[k - 1] == trace[k - 1]);
    } else if k == |trace| {
      assert longer[k] == w && longer[k - 1] == trace[|trace| - 1];
    }
  }

  /** Every credential unwraps under the keys, and its column names the id its envelope does. */
  ghost predicate Tidy(x: Scheme, keys: Keys, rows: Table) {
    forall id <- rows | IsCredential(rows[id]) ::
      Dek(x.crypto, keys, rows[id].envelope).Ok? && KekId(rows[id].envelope) == Ok(rows[id].kekId)
  }

  lemma BatchKeepsTidy(x: Scheme, keys: Keys, newId: KeyId, rows: Table, batch: map<RowId, Bytes>)
    requires LawfulScheme(x) && ValidKeys(keys)
    requires IsBatch(x, keys, newId, rows, batch) && Tidy(x, keys, rows)
    ensures Tidy(x, keys, Applied(rows, newId, batch))
  {
    forall id | id in batch ensures Dek(x.crypto, keys, batch[id]).Ok? && KekId(batch[id]) == Ok(newId) {
      RewrapPreservesMeaning(x.crypto, keys, rows[id].envelope, newId, []);
    }
  }

  lemma TidyRewraps(x: Scheme, keys: Keys, newId: KeyId, rows: Table, id: RowId)
    requires LawfulScheme(x) && ValidKeys(keys) && newId in keys && Tidy(x, keys, rows)
    requires id in rows && IsCredential(rows[id])
    ensures Rewrapped(x.crypto, keys, rows[id].envelope, newId).Ok?
  {
    RewrapSucceedsExactlyWhen(x.crypto, keys, rows[id].envelope, newId);
  }

  ghost predicate AllProven(x: Scheme, keys: Keys, newId: KeyId, rows: Table) {
    forall id <- rows | IsCredential(rows[id]) :: Proven(x, keys, newId, rows[id])
  }

  /** A finished re-wrap of a tidy table passes verification. */
  lemma TidyIsProven(x: Scheme, keys: Keys, newId: KeyId, rows: Table)
    requires Tidy(x, keys, rows) && OutsideSet(rows, newId) == {}
    ensures AllProven(x, keys, newId, rows)
  {
    forall id | id in rows && IsCredential(rows[id]) ensures Proven(x, keys, newId, rows[id]) {
      assert id !in OutsideSet(rows, newId);
    }
  }

  lemma ProvenIsInside(x: Scheme, keys: Keys, newId: KeyId, rows: Table)
    requires AllProven(x, keys, newId, rows)
    ensures OutsideSet(rows, newId) == {}
  {
  }

  lemma TidyExtends(x: Scheme, keys: Keys, more: Keys, rows: Table)
    requires Extends(keys, more)
    ensures Tidy(x, keys, rows) ==> Tidy(x, more, rows)
  {
    if Tidy(x, keys, rows) {
      forall id | id in rows && IsCredential(rows[id]) ensures Dek(x.crypto, more, rows[id].envelope).Ok? {
        MoreKeysKeepMeaning(x.crypto, keys, more, rows[id].envelope, []);
      }
    }
  }

  /** The checks of the verify pass on one page. */
  method VerifyPage(x: Scheme, ring: Keyring, newId: KeyId, page: seq<RowId>, read: Table) returns (ok: bool)
    requires forall id <- page :: id in read
    ensures ok <==> forall id <- page :: Proven(x, ring.keys, newId, read[id])
  {
    for i := 0 to |page|
      invariant forall id <- page[..i] :: Proven(x, ring.keys, newId, read[id])
    {
      var row := read[page[i]];
      assert page[i] in page && page[..i + 1] == page[..i] + [page[i]];
      if row.kekId != newId {
        return false;
      }
      var inEnvelope := KekId(row.envelope);
      if inEnvelope.Err? || inEnvelope.value != row.kekId {
        return false;
      }
      if Verify(x.crypto, ring.keys, row.envelope).Err? {
        return false;
      }
    }
    assert page[..|page|] == page;
    ok := true;
  }

  function Picked(read: Table, page: seq<RowId>): Table {
    map id | id in page && id in read :: read[id]
  }

  /** The row had this value in some state from `from` on. */
  ghost predicate ReadIn(trace: seq<World>, from: nat, id: RowId, row: Row) {
    exists k :: from <= k < |trace| && RowAt(trace[k].rows, id) == Some(row)
  }

  /** What the verify pass has read so far. */
  ghost predicate Recorded(x: Scheme, keys: Keys, newId: KeyId, trace: seq<World>, from: nat, visited: seq<RowId>, seen: Table) {
    && (forall id <- visited :: id in seen)
    && (forall id <- seen :: Proven(x, keys, newId, seen[id]) && ReadIn(trace, from, id, seen[id]))
  }

  /**
   * What a finished verify pass that began in state `from` has established: every
   * row in `seen` was read since and proven, and every row that stayed a
   * credential since is in it.
   */
  ghost predicate Checked(x: Scheme, keys: Keys, newId: KeyId, trace: seq<World>, from: nat, seen: Table) {
    && from < |trace|
    && (forall id <- seen :: Proven(x, keys, newId, seen[id]) && ReadIn(trace, from, id, seen[id]))
    && forall id: RowId :: Persistent(trace, from, id) ==> id in seen
  }

  lemma ReadLater(before: seq<World>, trace: seq<World>, from: nat, id: RowId, row: Row)
    requires ReadIn(before, from, id, row) && before <= trace
    ensures ReadIn(trace, from, id, row)
  {
    var k :| from <= k < |before| && RowAt(before[k].rows, id) == Some(row);
    assert trace[k] == before[k];
  }

  lemma RecordedLater(x: Scheme, keys: Keys, newId: KeyId, before: seq<World>, trace: seq<World>, from: nat,
                      visited: seq<RowId>, seen: Table)
    requires Recorded(x, keys, newId, before, from, visited, seen) && before <= trace
    ensures Recorded(x, keys, newId, trace, from, visited, seen)
  {
    forall id | id in seen ensures ReadIn(trace, from, id, seen[id]) {
      ReadLater(before, trace, from, id, seen[id]);
    }
  }

  lemma RecordedMore(x: Scheme, keys: Keys, newId: KeyId, before: seq<World>, trace: seq<World>, from: nat,
                     visited: seq<RowId>, seen: Table, page: seq<RowId>)
    requires Recorded(x, keys, newId, before, from, visited, seen) && before <= trace
    requires from <= |before| < |trace|
    requires var rows := trace[|before|].rows; forall id <- page :: id in rows && Proven(x, keys, newId, rows[id])
    ensures Recorded(x, keys, newId, trace, from, visited + page, seen + Picked(trace[|before|].rows, page))
    ensures page == [] ==> Recorded(x, keys, newId, trace, from, visited, seen)
  {
    RecordedLater(x, keys, newId, before, trace, from, visited, seen);
    var rows := trace[|before|].rows;
    forall id | id in page ensures ReadIn(trace, from, id, rows[id]) {
      assert RowAt(trace[|before|].rows, id) == Some(rows[id]);
    }
  }

  ghost predicate ProvenUpTo(x: Scheme, keys: Keys, newId: KeyId, rows: Table, after: int) {
    forall id <- rows | IsCredential(rows[id]) && id <= after :: Proven(x, keys, newId, rows[id])
  }

  lemma ProvenFurther(x: Scheme, keys: Keys, newId: KeyId, rows: Table, after: int, page: seq<RowId>)
    requires ProvenUpTo(x, keys, newId, rows, after) && IsPage(rows, after, page)
    requires forall id <- page :: Proven(x, keys, newId, rows[id])
    ensures if page == [] then AllProven(x, keys, newId, rows) else ProvenUpTo(x, keys, newId, rows, page[|page| - 1])
  {
  }

  function Pending(w: World, pending: Option<string>): World {
    w.(disk := w.disk.(pending := pending))
  }

  lemma WriteIsStep(x: Scheme, trace: seq<World>, c: string, random: Octets)
    requires trace != [] && |random| == MASTER_KEY_LEN && c <= Content(random)
    requires match trace[|trace| - 1].disk.pending case None => c == "" case Some(before) => before <= c
    ensures Rotates(x, trace + [Pending(trace[|trace| - 1], Some(c))], |trace| - 1)
  {
    assert Writes(trace[|trace| - 1], Pending(trace[|trace| - 1], Some(c)));
  }

  ghost predicate Extends(keys: Keys, more: Keys) {
    forall k <- keys :: k in more && more[k] == keys[k]
  }

  /** The pending key, or the random one about to be generated, differs from the live key and does not collide. */
  ghost predicate CanPrepare(x: Scheme, d: Disk, random: Octets) {
    && Ring(x, d).Ok?
    && var kek := x.kek(if d.pending.Some? then Master(d.pending).value else random);
       kek != x.kek(Master(d.secret).value) && Added(Ring(x, d).value, x.keyId(kek), kek).Ok?
  }

  /** Once the pending file is complete, the files give what Add makes of the ring they gave before. */
  lemma RingOfPending(x: Scheme, before: Disk, after: Disk, master: Octets)
    requires LawfulScheme(x) && Ring(x, before).Ok? && after.secret == before.secret
    requires Master(after.pending) == Some(master) && (before.pending.Some? ==> after == before)
    ensures var kek := x.kek(master);
            Ring(x, after) == match Added(Ring(x, before).value, x.keyId(kek), kek)
                              case Ok(keys) => Ok(keys)
                              case Err(_) => Err(PendingCollides)
  {
    if before.pending.Some? {
      var keys := Ring(x, before).value;
      var kek := x.kek(master);
      assert keys[x.keyId(kek) := kek] == keys;
    }
  }

  /** Every key but the primary leaves the ring. */
  method DropSuperseded(ring: Keyring, newId: KeyId) returns (dropped: set<KeyId>)
    requires ring.Valid() && ring.primaryId == newId
    modifies ring
    ensures ring.Valid() && ring.primaryId == newId
    ensures ring.keys == map[newId := old(ring.keys)[newId]] && dropped == old(ring.keys).Keys - {newId}
  {
    dropped := {};
    var ids := ring.keys.Keys;
    while ids != {}
      invariant ring.Valid() && ring.primaryId == newId
      invariant ids <= old(ring.keys).Keys && dropped == old(ring.keys).Keys - ids - {newId}
      invariant ring.keys == old(ring.keys) - dropped
      decreases ids
    {
      var id :| id in ids;
      ids := ids - {id};
      if id != newId {
        var r := ring.Drop(id);
        dropped := dropped + {id};
      }
    }
  }

  /** Credentials whose column names none of the held ids. */
  function StrandedRows(rows: Table, held: set<KeyId>): set<RowId> {
    set id | id in rows && IsCredential(rows[id]) && rows[id].kekId !in held
  }

  /** No other process writes the row before state n; tombstoning it is not a write of its credential. */
  ghost predicate LeftAlone(trace: seq<World>, moves: seq<Actor>, n: nat, id: RowId)
    requires |trace| == |moves| + 1 && n <= |moves|
  {
    forall k: nat | k < n && Moved(moves, k, Others) :: Untouched(RowAt(trace[k].rows, id), RowAt(trace[k + 1].rows, id))
  }

  predicate CredentialAt(w: World, id: RowId) {
    id in w.rows && IsCredential(w.rows[id])
  }

  /**
   * The promotion gate: secret.key was replaced by the complete pending key over
   * unchanged rows; every row in `seen` was read, between state `checked` and the
   * rename, and proven under it; every row that stayed a credential meanwhile is
   * in `seen`; and the command changed nothing meanwhile.
   */
  ghost predicate GatePassed(x: Scheme, trace: seq<World>, moves: seq<Actor>, checked: nat, gate: nat, seen: Table) {
    && |trace| == |moves| + 1 && checked <= gate < |moves|
    && Renames(x, trace[gate], trace[gate + 1])
    && Waited(moves[..gate], checked)
    && Checked(x, Ring(x, trace[gate].disk).value, PendingId(x, trace[gate].disk), trace[..gate + 1], checked, seen)
  }

  lemma CheckedLater(x: Scheme, keys: Keys, newId: KeyId, before: seq<World>, trace: seq<World>, from: nat, seen: Table)
    requires Checked(x, keys, newId, before, from, seen) && before <= trace
    ensures Checked(x, keys, newId, trace, from, seen)
  {
    forall id | id in seen ensures ReadIn(trace, from, id, seen[id]) {
      ReadLater(before, trace, from, id, seen[id]);
    }
    forall id: RowId | Persistent(trace, from, id) ensures id in seen {
      forall k | from <= k < |before| ensures CredentialAt(before[k], id) {
        assert before[k] == trace[k];
      }
      assert Persistent(before, from, id);
    }
  }

  /** The rename took place in state gate, over the files given, and the command had changed nothing since `own`. */
  ghost predicate PromotedAt(x: Scheme, disk: Disk, trace: seq<World>, moves: seq<Actor>, from: nat, own: nat, gate: nat) {
    && |trace| == |moves| + 1 && from <= gate < |moves|
    && Renames(x, trace[gate], trace[gate + 1]) && trace[gate].disk == disk
    && Waited(moves[..gate], own)
  }

  lemma GateHolds(x: Scheme, disk: Disk, before: seq<World>, trace: seq<World>, moves: seq<Actor>, own: nat, checked: nat, gate: nat,
                  seen: Table, keys: Keys, newId: KeyId)
    requires before <= trace && PromotedAt(x, disk, trace, moves, |before|, own, gate) && own <= checked
    requires Ring(x, disk) == Ok(keys) && disk.pending.Some? && PendingId(x, disk) == newId
    requires Checked(x, keys, newId, before, checked, seen)
    ensures GatePassed(x, trace, moves, checked, gate, seen)
  {
    CheckedLater(x, keys, newId, before, trace[..gate + 1], checked, seen);
  }

  lemma GateStays(x: Scheme, before: seq<World>, trace: seq<World>, earlier: seq<Actor>, moves: seq<Actor>, checked: nat,
                  gate: nat, seen: Table)
    requires before <= trace && earlier <= moves && |trace| == |moves| + 1
    requires GatePassed(x, before, earlier, checked, gate, seen)
    ensures GatePassed(x, trace, moves, checked, gate, seen)
  {
    assert trace[gate] == before[gate] && trace[gate + 1] == before[gate + 1];
    assert trace[..gate + 1] == before[..gate + 1] && moves[..gate] == earlier[..gate];
  }

  lemma {:induction false} LeftAloneStaysCredential(x: Scheme, trace: seq<World>, moves: seq<Actor>, n: nat, id: RowId)
    requires LawfulScheme(x) && |trace| == |moves| + 1 && OwnMoves(x, trace, moves) && n <= |moves|
    requires CredentialAt(trace[0], id) && LeftAlone(trace, moves, n, id)
    ensures forall q :: 0 <= q <= n ==> CredentialAt(trace[q], id)
  {
    if n > 0 {
      LeftAloneStaysCredential(x, trace, moves, n - 1, id);
      if Moved(moves, n - 1, Own) {
        RotationKeepsCredential(x, trace, n - 1, id);
      }
    }
  }

  lemma RotationKeepsCredential(x: Scheme, trace: seq<World>, k: nat, id: RowId)
    requires LawfulScheme(x) && k + 1 < |trace| && Rotates(x, trace, k) && CredentialAt(trace[k], id)
    ensures CredentialAt(trace[k + 1], id)
  {
    if Rewraps(x, trace, k) && trace[k + 1].rows[id] != trace[k].rows[id] {
      RewrappedIsCredential(x, trace, k, id, trace[k + 1].rows[id]);
    }
  }

  lemma RewrappedIsCredential(x: Scheme, trace: seq<World>, k: nat, id: RowId, row': Row)
    requires LawfulScheme(x) && k < |trace| && id in trace[k].rows && RowRewrapped(x, trace, k, id, row')
    ensures IsCredential(row')
  {
    var keys, newId := Ring(x, trace[k].disk).value, PendingId(x, trace[k].disk);
    var p :| && 0 <= p <= k && trace[p].disk == trace[k].disk && id in trace[p].rows
             && Rewrote(x, keys, newId, trace[p].rows[id], trace[k].rows[id], row');
    RingIsValid(x, trace[k]);
    RewrapPreservesMeaning(x.crypto, keys, trace[p].rows[id].envelope, newId, []);
  }

  lemma {:induction false} UntouchedThrough(trace: seq<World>, moves: seq<Actor>, i: nat, j: nat, id: RowId)
    requires |trace| == |moves| + 1 && i <= j <= |moves|
    requires forall k :: i <= k < j ==> moves[k] == Others
    requires LeftAlone(trace, moves, j, id)
    ensures Untouched(RowAt(trace[i].rows, id), RowAt(trace[j].rows, id))
  {
    if i < j {
      assert Moved(moves, j - 1, Others);
      UntouchedThrough(trace, moves, i, j - 1, id);
    }
  }

  lemma WaitedMeans(moves: seq<Actor>, n: nat, since: nat)
    requires n <= |moves| && Waited(moves[..n], since)
    ensures since <= n && forall k :: since <= k < n ==> moves[k] == Others
  {
    forall k | since <= k < n ensures moves[k] == Others {
      assert moves[..n][k] == moves[k];
    }
  }

  /** The gate, row by row: a credential nobody else wrote since the start is proven at the rename, whatever became of the others. */
  lemma GateProves(x: Scheme, trace: seq<World>, moves: seq<Actor>, checked: nat, gate: nat, seen: Table, id: RowId)
    requires LawfulScheme(x) && GatePassed(x, trace, moves, checked, gate, seen) && OwnMoves(x, trace, moves)
    requires CredentialAt(trace[0], id) && LeftAlone(trace, moves, gate, id)
    ensures id in trace[gate].rows
    ensures Proven(x, Ring(x, trace[gate].disk).value, PendingId(x, trace[gate].disk), trace[gate].rows[id])
  {
    LeftAloneStaysCredential(x, trace, moves, gate, id);
    assert Persistent(trace[..gate + 1], checked, id);
    var p :| checked <= p < |trace[..gate + 1]| && RowAt(trace[..gate + 1][p].rows, id) == Some(seen[id]);
    WaitedMeans(moves, gate, checked);
    UntouchedThrough(trace, moves, p, gate, id);
  }

  lemma OwnIsLeftToRotation(x: Scheme, trace: seq<World>, moves: seq<Actor>, gate: nat, n: nat, id: RowId)
    requires |trace| == |moves| + 1 && Moved(moves, n, Own) && n != gate
    requires OwnMoves(x, trace, moves) && OnlyRename(x, trace, Some(gate))
    ensures LeftToRotation(x, trace, n, id)
  {
    NoOtherRename(x, trace, Some(gate), n);
    OtherRotationIsLeftToRotation(x, trace, n, id);
  }

  lemma OthersLeaveToRotation(x: Scheme, trace: seq<World>, moves: seq<Actor>, gate: nat, n: nat, id: RowId)
    requires |trace| == |moves| + 1 && n < gate < |moves| && Moved(moves, n, Others)
    requires OthersKeepFiles(trace, moves) && LeftAlone(trace, moves, gate, id)
    ensures LeftToRotation(x, trace, n, id)
  {
    UntouchedIsLeftToRotation(x, trace, n, id);
  }

  lemma LeftAloneIsLeftToRotation(x: Scheme, trace: seq<World>, moves: seq<Actor>, gate: nat, n: nat, id: RowId)
    requires |trace| == |moves| + 1 && n < gate < |moves|
    requires OwnMoves(x, trace, moves) && OthersKeepFiles(trace, moves) && OnlyRename(x, trace, Some(gate))
    requires LeftAlone(trace, moves, gate, id)
    ensures LeftToRotation(x, trace, n, id)
  {
    if Moved(moves, n, Own) {
      OwnIsLeftToRotation(x, trace, moves, gate, n, id);
    } else {
      OthersLeaveToRotation(x, trace, moves, gate, n, id);
    }
  }

  lemma UntouchedIsLeftToRotation(x: Scheme, trace: seq<World>, n: nat, id: RowId)
    requires n + 1 < |trace| && trace[n + 1].disk == trace[n].disk
    requires Untouched(RowAt(trace[n].rows, id), RowAt(trace[n + 1].rows, id))
    ensures LeftToRotation(x, trace, n, id)
  {
  }

  /** The row is there at the rename, proven under the key it promotes. */
  ghost predicate ProvenAtGate(x: Scheme, trace: seq<World>, gate: nat, id: RowId) {
    && gate < |trace| && Ring(x, trace[gate].disk).Ok? && Master(trace[gate].disk.pending).Some?
    && id in trace[gate].rows
    && Proven(x, Ring(x, trace[gate].disk).value, PendingId(x, trace[gate].disk), trace[gate].rows[id])
  }

  lemma GateProvesAll(x: Scheme, trace: seq<World>, moves: seq<Actor>, checked: nat, gate: nat, seen: Table)
    requires LawfulScheme(x) && GatePassed(x, trace, moves, checked, gate, seen) && OwnMoves(x, trace, moves)
    ensures forall id: RowId | CredentialAt(trace[0], id) && LeftAlone(trace, moves, gate, id) :: ProvenAtGate(x, trace, gate, id)
  {
    forall id: RowId | CredentialAt(trace[0], id) && LeftAlone(trace, moves, gate, id) ensures ProvenAtGate(x, trace, gate, id) {
      GateProves(x, trace, moves, checked, gate, seen, id);
    }
  }

  lemma RenameIsLeftToRotation(x: Scheme, trace: seq<World>, n: nat, id: RowId)
    requires n + 1 < |trace| && Renames(x, trace[n], trace[n + 1]) && id in trace[n].rows
    requires Proven(x, Ring(x, trace[n].disk).value, PendingId(x, trace[n].disk), trace[n].rows[id])
    ensures LeftToRotation(x, trace, n, id)
  {
  }

  lemma OtherRotationIsLeftToRotation(x: Scheme, trace: seq<World>, n: nat, id: RowId)
    requires n + 1 < |trace| && Rotates(x, trace, n) && !Renames(x, trace[n], trace[n + 1])
    ensures LeftToRotation(x, trace, n, id)
  {
  }

  /** And it opens from the promoted file alone, as it did at the start. */
  lemma GateKeepsRowsLeftAlone(x: Scheme, trace: seq<World>, moves: seq<Actor>, checked: nat, gate: nat, seen: Table, id: RowId,
                               aad: Bytes)
    requires LawfulScheme(x) && GatePassed(x, trace, moves, checked, gate, seen)
    requires OwnMoves(x, trace, moves) && OthersKeepFiles(trace, moves) && OnlyRename(x, trace, Some(gate))
    requires Safe(x, trace[0], id) && IsCredential(trace[0].rows[id]) && LeftAlone(trace, moves, gate, id)
    ensures trace[gate + 1].disk.pending == None && Safe(x, trace[gate + 1], id)
    ensures Reads(x, trace[gate + 1], id, aad) == Reads(x, trace[0], id, aad)
  {
    GateProves(x, trace, moves, checked, gate, seen, id);
    forall n | 0 <= n < gate + 1 ensures LeftToRotation(x, trace, n, id) {
      if n == gate {
        RenameIsLeftToRotation(x, trace, n, id);
      } else {
        LeftAloneIsLeftToRotation(x, trace, moves, gate, n, id);
      }
    }
    ReadingSurvives(x, trace, gate + 1, id, aad);
  }

  lemma StepKeepsSecret(x: Scheme, trace: seq<World>, moves: seq<Actor>, gate: Option<nat>, n: nat)
    requires |trace| == |moves| + 1 && n < |moves| && gate != Some(n)
    requires OwnMoves(x, trace, moves) && OthersKeepFiles(trace, moves) && OnlyRename(x, trace, gate)
    ensures trace[n + 1].disk.secret == trace[n].disk.secret
  {
    if Moved(moves, n, Own) {
      NoOtherRename(x, trace, gate, n);
      OtherRotationKeepsSecret(x, trace, n);
    }
  }

  /** secret.key keeps its content up to the gate. */
  lemma {:induction false} OneSecretUntilGate(x: Scheme, trace: seq<World>, moves: seq<Actor>, gate: Option<nat>, k: nat)
    requires |trace| == |moves| + 1 && k < |trace|
    requires OwnMoves(x, trace, moves) && OthersKeepFiles(trace, moves) && OnlyRename(x, trace, gate)
    requires gate.Some? ==> k <= gate.value
    ensures OneSecret(trace, k)
  {
    if k > 0 {
      OneSecretUntilGate(x, trace, moves, gate, k - 1);
      StepKeepsSecret(x, trace, moves, gate, k - 1);
    }
  }

  lemma OtherRotationKeepsSecret(x: Scheme, trace: seq<World>, n: nat)
    requires n + 1 < |trace| && Rotates(x, trace, n) && !Renames(x, trace[n], trace[n + 1])
    ensures trace[n + 1].disk.secret == trace[n].disk.secret
  {
  }

  /** Where columns agree with envelopes, the stranded rows are exactly those no held key opens. */
  lemma StrandedMeansUnopenable(x: Scheme, keys: Keys, rows: Table, id: RowId)
    requires id in rows && IsCredential(rows[id]) && KekId(rows[id].envelope) == Ok(rows[id].kekId)
    ensures id in StrandedRows(rows, keys.Keys) <==> Dek(x.crypto, keys, rows[id].envelope) == Err(UnknownKEK)
  {
  }

  /** The re-wraps of one page, against the ring alone. */
  method RewrapPage(x: Scheme, ring: Keyring, newId: KeyId, page: seq<RowId>, read: Table)
    returns (r: Result<map<RowId, Bytes>, RotateError>)
    requires ring.Valid() && LawfulScheme(x)
    requires forall id <- page :: id in read && IsCredential(read[id])
    ensures r.Ok? ==> IsBatch(x, ring.keys, newId, read, r.value)
    ensures r.Ok? ==> MovesPage(page, read, newId, r.value)
    ensures r.Err? ==> r.error == RewrapFailed
    ensures r.Err? ==> exists id: RowId :: ToMove(page, read, newId, id) && Rewrapped(x.crypto, ring.keys, read[id].envelope, newId).Err?
  {
    var batch: map<RowId, Bytes> := map[];
    for i := 0 to |page|
      invariant IsBatch(x, ring.keys, newId, read, batch)
      invariant MovesPage(page[..i], read, newId, batch)
    {
      var id := page[i];
      assert page[..i + 1] == page[..i] + [id];
      if read[id].kekId != newId {
        var e := ring.Rewrap(x.crypto, read[id].envelope, newId);
        if e.Err? {
          assert ToMove(page, read, newId, id);
          return Err(RewrapFailed);
        }
        batch := batch[id := e.value];
      }
    }
    assert page[..|page|] == page;
    r := Ok(batch);
  }

  /** A walk that has come as far as `after`: ascending, and nothing that stayed was passed over. */
  ghost predicate Covered(trace: seq<World>, start: nat, after: int, visited: seq<RowId>) {
    && Ascending(visited) && (forall id <- visited :: id <= after)
    && forall id: RowId :: Persistent(trace, start, id) && id <= after ==> id in visited
  }

  /** One more page, listed at some state since, carries the walk to the page's end, or to the end of the table. */
  lemma CoveredGrows(before: seq<World>, trace: seq<World>, start: nat, after: int, visited: seq<RowId>, page: seq<RowId>)
    requires Covered(before, start, after, visited)
    requires before <= trace && start <= |before| < |trace| && IsPage(trace[|before|].rows, after, page)
    ensures page == [] ==> forall id: RowId :: Persistent(trace, start, id) ==> id in visited
    ensures page != [] ==> Covered(trace, start, page[|page| - 1], visited + page)
  {
    forall id: RowId | Persistent(trace, start, id)
      ensures id in visited + page || (page != [] && id > page[|page| - 1])
    {
      assert id in trace[|before|].rows;
      if id <= after {
        assert Persistent(before, start, id);
      }
    }
    if page != [] {
      AscendingExtends(visited, page, after);
    }
  }

  lemma AscendingExtends(visited: seq<RowId>, page: seq<RowId>, after: int)
    requires Ascending(visited) && Ascending(page) && page != []
    requires forall id <- visited :: id <= after
    requires forall id <- page :: id > after
    ensures Ascending(visited + page)
    ensures forall id <- visited + page :: id <= page[|page| - 1]
  {
    var all := visited + page;
    forall i, j | 0 <= i < j < |all| ensures all[i] < all[j] {
      if i < |visited| {
        assert all[i] in visited;
        if j >= |visited| {
          assert page[j - |visited|] in page;
        }
      } else {
        assert all[i] == page[i - |visited|] && all[j] == page[j - |visited|];
      }
    }
    assert page[|page| - 1] in page;
    assert all[|all| - 1] == page[|page| - 1];
  }

  /** The row was at the new id in some state from `from` on. */
  ghost predicate AtNewId(trace: seq<World>, from: nat, newId: KeyId, id: RowId) {
    exists k :: from <= k < |trace| && id in trace[k].rows && trace[k].rows[id].kekId == newId
  }

  lemma AtNewIdLater(before: seq<World>, trace: seq<World>, from: nat, newId: KeyId, ids: seq<RowId>)
    requires before <= trace && forall id <- ids :: AtNewId(before, from, newId, id)
    ensures forall id <- ids :: AtNewId(trace, from, newId, id)
  {
    forall id | id in ids ensures AtNewId(trace, from, newId, id) {
      var k :| from <= k < |before| && id in before[k].rows && before[k].rows[id].kekId == newId;
      assert trace[k] == before[k];
    }
  }

  lemma AtNewIdSince(trace: seq<World>, from: nat, later: nat, newId: KeyId, ids: seq<RowId>)
    requires from <= later && forall id <- ids :: AtNewId(trace, later, newId, id)
    ensures forall id <- ids :: AtNewId(trace, from, newId, id)
  {
    forall id | id in ids ensures AtNewId(trace, from, newId, id) {
      var k :| later <= k < |trace| && id in trace[k].rows && trace[k].rows[id].kekId == newId;
    }
  }

  lemma StateStays(before: seq<World>, trace: seq<World>, k: nat, w: World)
    requires before <= trace && k < |before| && before[k] == w
    ensures k < |trace| && trace[k] == w
  {
  }

  lemma RowReachesNewId(trace: seq<World>, from: nat, k: nat, w: World, newId: KeyId, id: RowId)
    requires from <= k < |trace| && trace[k] == w && id in w.rows && w.rows[id].kekId == newId
    ensures AtNewId(trace, from, newId, id)
  {
  }

  /** A page listed in state `at` whose batch is in place in state `end` is at the new id, row by row. */
  lemma PageReachesNewId(trace: seq<World>, at: nat, end: nat, listed: World, stored: World, after: int, newId: KeyId,
                         page: seq<RowId>, batch: map<RowId, Bytes>)
    requires at <= end < |trace| && trace[at] == listed && trace[end] == stored
    requires IsPage(listed.rows, after, page) && MovesPage(page, listed.rows, newId, batch) && InPlace(stored.rows, newId, batch)
    ensures forall id <- page :: AtNewId(trace, at, newId, id)
  {
    forall id | id in page ensures AtNewId(trace, at, newId, id) {
      if id in batch {
        RowReachesNewId(trace, at, end, stored, newId, id);
      } else {
        RowReachesNewId(trace, at, at, listed, newId, id);
      }
    }
  }

  /** What a stored page is good for when nobody else wrote. */
  lemma PageStored(x: Scheme, keys: Keys, read: Table, rows: Table, after: int, newId: KeyId, page: seq<RowId>,
                   batch: map<RowId, Bytes>)
    requires LawfulScheme(x) && ValidKeys(keys) && rows == Applied(read, newId, batch)
    requires IsPage(read, after, page) && page != [] && MovesPage(page, read, newId, batch)
    requires IsBatch(x, keys, newId, read, batch)
    ensures PageMoved(read, rows, newId, after, page, |batch|)
    ensures Tidy(x, keys, read) ==> Tidy(x, keys, rows)
  {
    PageMoves(x, keys, read, newId, after, page, batch);
    if Tidy(x, keys, read) {
      BatchKeepsTidy(x, keys, newId, read, batch);
    }
  }

  // ---- passes ----

  /** From a state on every row that stayed a credential was at the new id at some point. */
  ghost predicate PassOver(trace: seq<World>, from: nat, newId: KeyId) {
    forall id: RowId :: Persistent(trace, from, id) ==> AtNewId(trace, from, newId, id)
  }

  /** Pass i: a pass over the states between two bounds, and if not the first, then because something was still outside where it began. */
  ghost predicate PassAt(trace: seq<World>, bounds: seq<nat>, i: nat, newId: KeyId) {
    && i + 1 < |bounds| && bounds[i] < bounds[i + 1] < |trace|
    && PassOver(trace[..bounds[i + 1] + 1], bounds[i], newId)
    && (i > 0 ==> OutsideSet(trace[bounds[i]].rows, newId) != {})
  }

  /** The states at which the passes began and, at the end, that of the count after the last. */
  ghost predicate Passes(trace: seq<World>, bounds: seq<nat>, newId: KeyId) {
    && 1 <= |bounds| <= 5 && bounds[|bounds| - 1] < |trace|
    && forall i: nat | i + 1 < |bounds| :: PassAt(trace, bounds, i, newId)
  }

  /** The last count found nothing. */
  ghost predicate Finished(trace: seq<World>, bounds: seq<nat>, newId: KeyId) {
    |bounds| >= 2 && bounds[|bounds| - 1] < |trace| && OutsideSet(trace[bounds[|bounds| - 1]].rows, newId) == {}
  }

  /** Four passes, the last count found something, and the others changed rows after the fourth pass had begun. */
  ghost predicate GaveUp(trace: seq<World>, moves: seq<Actor>, bounds: seq<nat>, newId: KeyId) {
    && |bounds| == 5 && bounds[4] < |trace| && OutsideSet(trace[bounds[4]].rows, newId) != {}
    && !StillFrom(trace, moves, bounds[3])
  }

  function LastBound(bounds: seq<nat>): nat
    requires bounds != []
  {
    bounds[|bounds| - 1]
  }

  /** The others changed rows too late: in the fourth pass of four, or after the count that found nothing. */
  ghost predicate Overtaken(trace: seq<World>, moves: seq<Actor>, bounds: seq<nat>, newId: KeyId) {
    || GaveUp(trace, moves, bounds, newId)
    || (Finished(trace, bounds, newId) && !StillFrom(trace, moves, LastBound(bounds)))
  }

  lemma FinishesAt(trace: seq<World>, bounds: seq<nat>, newId: KeyId, end: nat, w: World)
    requires |bounds| >= 2 && bounds[|bounds| - 1] == end < |trace| && trace[end] == w && OutsideSet(w.rows, newId) == {}
    ensures Finished(trace, bounds, newId)
  {
  }

  lemma GivesUpAt(trace: seq<World>, moves: seq<Actor>, stir: nat, bounds: seq<nat>, newId: KeyId, end: nat, w: World)
    requires |bounds| == 5 && bounds[4] == end < |trace| && trace[end] == w && OutsideSet(w.rows, newId) != {}
    requires LastStir(trace, moves, stir) && stir > bounds[3]
    ensures GaveUp(trace, moves, bounds, newId)
  {
    StillExactlyFrom(trace, moves, stir, bounds[3]);
  }

  lemma {:induction false} BoundsClimb(trace: seq<World>, bounds: seq<nat>, newId: KeyId, i: nat)
    requires Passes(trace, bounds, newId) && i < |bounds|
    ensures bounds[0] <= bounds[i]
  {
    if i > 0 {
      BoundsClimb(trace, bounds, newId, i - 1);
      assert PassAt(trace, bounds, i - 1, newId);
    }
  }

  /** The passes of a run, under the key that was pending when they began. */
  ghost predicate RunPasses(x: Scheme, trace: seq<World>, bounds: seq<nat>) {
    && bounds != [] && bounds[0] < |trace| && Master(trace[bounds[0]].disk.pending).Some?
    && Passes(trace, bounds, RunId(x, trace, bounds))
  }

  function RunId(x: Scheme, trace: seq<World>, bounds: seq<nat>): KeyId
    requires bounds != [] && bounds[0] < |trace| && Master(trace[bounds[0]].disk.pending).Some?
  {
    PendingId(x, trace[bounds[0]].disk)
  }

  lemma RunStarts(x: Scheme, before: seq<World>, trace: seq<World>, bounds: seq<nat>, at: nat, w: World, newId: KeyId)
    requires before <= trace && at < |before| && before[at] == w && Master(w.disk.pending).Some? && PendingId(x, w.disk) == newId
    requires Passes(trace, bounds, newId) && bounds[0] == at
    ensures RunPasses(x, trace, bounds) && RunId(x, trace, bounds) == newId && LastBound(bounds) >= at
  {
    BoundsClimb(trace, bounds, newId, |bounds| - 1);
  }

  lemma RunLater(x: Scheme, before: seq<World>, trace: seq<World>, bounds: seq<nat>)
    requires before <= trace && RunPasses(x, before, bounds)
    ensures RunPasses(x, trace, bounds) && RunId(x, trace, bounds) == RunId(x, before, bounds)
    ensures Finished(before, bounds, RunId(x, before, bounds)) ==> Finished(trace, bounds, RunId(x, trace, bounds))
  {
    assert trace[bounds[0]] == before[bounds[0]];
    FinishedLater(before, trace, bounds, RunId(x, before, bounds));
  }

  lemma FinishedLater(before: seq<World>, trace: seq<World>, bounds: seq<nat>, newId: KeyId)
    requires before <= trace && Passes(before, bounds, newId)
    ensures Passes(trace, bounds, newId)
    ensures Finished(before, bounds, newId) ==> Finished(trace, bounds, newId)
  {
    PassesLater(before, trace, bounds, newId);
    assert trace[bounds[|bounds| - 1]] == before[bounds[|bounds| - 1]];
  }

  lemma PassLater(before: seq<World>, trace: seq<World>, bounds: seq<nat>, longer: seq<nat>, i: nat, newId: KeyId)
    requires before <= trace && bounds <= longer && PassAt(before, bounds, i, newId)
    ensures PassAt(trace, longer, i, newId)
  {
    assert trace[..bounds[i + 1] + 1] == before[..bounds[i + 1] + 1];
    assert trace[bounds[i]] == before[bounds[i]];
  }

  lemma PassesLater(before: seq<World>, trace: seq<World>, bounds: seq<nat>, newId: KeyId)
    requires before <= trace && Passes(before, bounds, newId)
    ensures Passes(trace, bounds, newId)
  {
    forall i: nat | i + 1 < |bounds| ensures PassAt(trace, bounds, i, newId) {
      assert PassAt(before, bounds, i, newId);
      PassLater(before, trace, bounds, bounds, i, newId);
    }
  }

  lemma OnePassMore(before: seq<World>, trace: seq<World>, bounds: seq<nat>, at: nat, w: World, end: nat, newId: KeyId)
    requires before <= trace && Passes(before, bounds, newId) && |bounds| <= ROTATE_EXTRA_PASSES + 1
    requires bounds[|bounds| - 1] == at < end == |trace| - 1 && PassOver(trace, at, newId)
    requires before[at] == w && (|bounds| > 1 ==> OutsideSet(w.rows, newId) != {})
    ensures Passes(trace, bounds + [end], newId)
  {
    var longer := bounds + [end];
    assert trace[..end + 1] == trace;
    forall i: nat | i + 1 < |longer| ensures PassAt(trace, longer, i, newId) {
      if i + 1 < |bounds| {
        assert PassAt(before, bounds, i, newId);
        PassLater(before, trace, bounds, longer, i, newId);
      } else {
        assert trace[longer[i]] == before[bounds[i]];
      }
    }
  }

  /** Visiting everything that stays, each row seen at the new id, is a pass up to any later state. */
  lemma VisitsMakePass(walked: seq<World>, trace: seq<World>, from: nat, newId: KeyId, visited: seq<RowId>)
    requires walked <= trace && from + 1 < |walked|
    requires forall id: RowId :: Persistent(walked, from, id) ==> id in visited
    requires forall id <- visited :: AtNewId(walked, from + 1, newId, id)
    ensures PassOver(trace, from, newId)
  {
    forall id: RowId | Persistent(trace, from, id) ensures AtNewId(trace, from, newId, id) {
      forall k | from <= k < |walked| ensures id in walked[k].rows && IsCredential(walked[k].rows[id]) {
        assert walked[k] == trace[k];
      }
      assert Persistent(walked, from, id) && AtNewId(walked, from + 1, newId, id);
      var k :| from + 1 <= k < |walked| && id in walked[k].rows && walked[k].rows[id].kekId == newId;
      assert trace[k] == walked[k];
    }
  }

  /** What prepare establishes: the pending file is complete, and the ring is the one the files give, primary on it. */
  ghost predicate Prepared(x: Scheme, disk: Disk, ring: Keyring, newId: KeyId)
    reads ring
  {
    && ring.Valid()
    && disk.pending.Some? && Ring(x, disk) == Ok(ring.keys)
    && PendingId(x, disk) == newId && ring.primaryId == newId
    && Master(disk.pending) != Master(disk.secret)
  }
}
