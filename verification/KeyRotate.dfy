/**
 * The `key rotate` command over an installation that other processes write to
 * and that can fail or die at every operation.
 *
 * `others` is what any other process does to the credential rows between two
 * operations; `fails` says which operations fail, which is also how a crash
 * looks: the command stops where it is and only the World is left.
 */
module KeyRotate {
  import opened Wrappers
  import opened Bytes
  import opened Base64
  import opened KeyFiles
  import opened Envelope
  import opened Rotation
  import opened RotationWork

  class Install {
    const x: Scheme
    const others: (nat, World) -> Table
    const fails: nat -> bool
    /** The key files at the start, which servers already running hold the key of. */
    const home: Disk

    var world: World
    var tick: nat
    /** Every state so far; the process may be cut off after any of them. */
    ghost var trace: seq<World>
    /** Who took each step of the trace. */
    ghost var moves: seq<Actor>
    /** The state the command's last own change led to. */
    ghost var lastOwn: nat
    /** The state the rename replaced secret.key in, once it has. */
    ghost var gate: Option<nat>

    /** How far into the trace the others last changed the rows: they have left them alone from this state on. */
    ghost var stir: nat
    /** From this state on every state is tidy and no row is removed. */
    ghost var rough: nat

    /** No other process writes. */
    ghost predicate Quiet() {
      forall n: nat, w: World :: others(n, w) == w.rows
    }

    /** The only other writers of the row are servers; the other rows may become anything. */
    ghost predicate Polite(id: RowId) {
      forall n: nat, w: World :: PolitelyServed(x, home, w.disk, RowAt(w.rows, id), RowAt(others(n, w), id))
    }

    /** Some operation fails, or the process dies. */
    ghost predicate Failing() {
      exists n: nat :: fails(n)
    }

    /** No other writer, and a table any rotation with these keys can finish. */
    ghost predicate Smooth(keys: Keys)
      reads this
    {
      Quiet() && Tidy(x, keys, world.rows)
    }

    ghost predicate Valid()
      reads this
    {
      && LawfulScheme(x)
      && trace != [] && trace[|trace| - 1] == world
      && History(x, home, trace, moves, lastOwn, gate)
      && LastStir(trace, moves, stir) && LastRough(x, trace, rough) && (Quiet() ==> stir == 0)
      && forall id: RowId {:trigger OthersServe(x, trace, moves, id)} :: Polite(id) ==> OthersServe(x, trace, moves, id)
    }

    constructor (x: Scheme, world: World, others: (nat, World) -> Table, fails: nat -> bool)
      requires LawfulScheme(x)
      ensures Valid() && this.world == world && trace == [world] && gate == None && moves == [] && stir == 0
      ensures this.x == x && this.others == others && this.fails == fails && home == world.disk
    {
      this.x, this.world, this.others, this.fails, this.home := x, world, others, fails, world.disk;
      tick, trace, moves, lastOwn, gate := 0, [world], [], 0, None;
      stir, rough := 0, if TidyWorld(x, world) then 0 else 1;
      RoughStarts(x, world);
    }

    twostate predicate Since()
      reads this
    {
      && old(Valid()) && Valid() && old(trace) <= trace && old(moves) <= moves
      && old(lastOwn) <= lastOwn && (old(gate).Some? ==> gate == old(gate))
      && old(stir) <= stir && old(rough) <= rough
    }

    /** The others have left the rows alone meanwhile. */
    twostate predicate Undisturbed()
      reads this
    {
      stir < |old(trace)|
    }

    /** Every state meanwhile, the first included, has been tidy, and no row has been removed. */
    twostate predicate Calm()
      reads this
    {
      rough < |old(trace)|
    }

    /** Since, with the key files as they were. */
    twostate predicate SinceOnRows()
      reads this
    {
      Since() && world.disk == old(world.disk) && gate == old(gate)
    }

    /** Since, with nothing done by the command itself. */
    twostate predicate SinceWaiting()
      reads this
    {
      SinceOnRows() && lastOwn == old(lastOwn)
    }

    /** What the others do is a step of theirs. */
    lemma OthersStep(w: World)
      requires Valid() && w == world.(rows := others(tick, world))
      ensures History(x, home, trace + [w], moves + [Others], lastOwn, gate)
      ensures LastStir(trace + [w], moves + [Others], StirAfter(trace, stir, w, Others)) && stir <= StirAfter(trace, stir, w, Others)
      ensures LastRough(x, trace + [w], RoughAfter(x, trace, rough, w)) && rough <= RoughAfter(x, trace, rough, w)
      ensures forall id: RowId :: Polite(id) ==> OthersServe(x, trace + [w], moves + [Others], id)
    {
      HistoryAfterOthers(x, home, trace, moves, lastOwn, gate, w);
      StirGrows(trace, moves, stir, w, Others);
      RoughGrows(x, trace, rough, w);
      forall id: RowId | Polite(id) ensures OthersServe(x, trace + [w], moves + [Others], id) {
        assert OthersServe(x, trace, moves, id);
        assert PolitelyServed(x, home, world.disk, RowAt(world.rows, id), RowAt(others(tick, world), id));
        PoliteIsServing(x, trace, w, id);
        OthersServeGrows(x, trace, moves, w, Others, id);
      }
    }

    lemma OwnStep(w: World)
      requires Valid() && Rotates(x, trace + [w], |trace| - 1)
      requires Renames(x, world, w) ==> gate == None
      ensures History(x, home, trace + [w], moves + [Own], |trace|, GateAfter(x, trace, gate, w))
      ensures LastStir(trace + [w], moves + [Own], stir)
      ensures LastRough(x, trace + [w], RoughAfter(x, trace, rough, w)) && rough <= RoughAfter(x, trace, rough, w)
      ensures forall id: RowId :: Polite(id) ==> OthersServe(x, trace + [w], moves + [Own], id)
    {
      HistoryAfterOwn(x, home, trace, moves, lastOwn, gate, w);
      StirGrows(trace, moves, stir, w, Own);
      RoughGrows(x, trace, rough, w);
      forall id: RowId | Polite(id) ensures OthersServe(x, trace + [w], moves + [Own], id) {
        assert OthersServe(x, trace, moves, id);
        OthersServeGrows(x, trace, moves, w, Own, id);
      }
    }

    lemma StepsForRow(id: RowId)
      requires Valid() && Polite(id)
      ensures forall n :: 0 <= n < |moves| ==> StepFor(x, trace, n, id)
    {
      assert OthersServe(x, trace, moves, id);
      forall n | 0 <= n < |moves| ensures StepFor(x, trace, n, id) {
        if Moved(moves, n, Own) {
          assert Rotates(x, trace, n);
        } else {
          assert Serves(x, trace, n, id);
        }
      }
    }

    /**
     * Cut off anywhere, whatever the servers seal meanwhile and whatever becomes
     * of other rows: up to the rename a credential recoverable at the start is
     * recoverable; after it, it is, or the rename or a later seal under the
     * superseded key has lost it.
     */
    lemma EveryCrashIsSafe(k: nat, id: RowId)
      requires Valid() && Polite(id) && k < |trace|
      requires id in trace[0].rows ==> Safe(x, trace[0], id)
      ensures id in trace[k].rows && (gate.Some? ==> k <= gate.value) ==> Safe(x, trace[k], id)
      ensures id in trace[k].rows && !Safe(x, trace[k], id) ==>
                exists n :: gate.value <= n < k && Loses(x, trace[n], trace[n + 1], id)
    {
      StepsForRow(id);
      if gate == None || k <= gate.value {
        OneSecretUntilGate(x, trace, moves, gate, k);
        SafeUntilRename(x, trace, k, id);
      } else {
        OneSecretUntilGate(x, trace, moves, gate, gate.value);
        SafeUntilRename(x, trace, gate.value, id);
        LostOnlyFrom(x, trace, gate.value, k, id);
      }
    }

    lemma LastState() returns (end: nat)
      requires Valid()
      ensures end < |trace| && trace[end] == world && end == |trace| - 1
    {
      end := |trace| - 1;
    }

    /** A state that is not tidy is counted as rough. */
    lemma UntidyIsRough()
      requires Valid() && !TidyWorld(x, world)
      ensures rough >= |trace|
    {
      assert RoughAt(x, trace, |trace| - 1);
    }

    method Await() returns (ok: bool)
      requires Valid()
      modifies this
      ensures SinceWaiting()
      ensures world == old(world).(rows := others(old(tick), old(world)))
      ensures trace == old(trace) + [world] && moves == old(moves) + [Others]
      ensures Undisturbed() ==> world == old(world)
      ensures !(old(world.rows).Keys <= world.rows.Keys) ==> rough > |old(trace)|
      ensures !ok ==> Failing()
    {
      var w := world.(rows := others(tick, world));
      OthersStep(w);
      stir := StirAfter(trace, stir, w, Others);
      rough := RoughAfter(x, trace, rough, w);
      world := w;
      trace := trace + [w];
      moves := moves + [Others];
      ok := !fails(tick);
      tick := tick + 1;
    }

    method Effect(w: World)
      requires Valid() && Rotates(x, trace + [w], |trace| - 1)
      requires Renames(x, world, w) ==> gate == None
      modifies this
      ensures Since() && world == w && trace == old(trace) + [w] && moves == old(moves) + [Own]
      ensures lastOwn == |old(trace)| && gate == GateAfter(x, old(trace), old(gate), w) && stir == old(stir)
    {
      OwnStep(w);
      rough := RoughAfter(x, trace, rough, w);
      gate := GateAfter(x, trace, gate, w);
      lastOwn := |trace|;
      world := w;
      trace := trace + [w];
      moves := moves + [Own];
    }

    /** ListCredentialEnvelopesIncludingDeleted; the page's rows are those of the returned table. */
    method ListPage(after: int) returns (r: Result<seq<RowId>, RotateError>, read: Table)
      requires Valid()
      modifies this
      ensures SinceWaiting()
      ensures read == world.rows && trace == old(trace) + [world]
      ensures r.Ok? ==> IsPage(read, after, r.value)
      ensures r.Err? ==> r.error == IOFailure && Failing()
      ensures Undisturbed() ==> world == old(world)
    {
      var ok := Await();
      read := world.rows;
      if !ok {
        return Err(IOFailure), read;
      }
      var page := FirstPage(read, after);
      r := Ok(page);
    }

    /** The committed transaction, made from the rows of state p. */
    method Commit(ghost p: nat, ghost keys: Keys, newId: KeyId, batch: map<RowId, Bytes>)
      requires Valid() && BatchFrom(x, trace, p, keys, newId, batch)
      modifies this
      ensures SinceOnRows() && world.rows == Applied(old(world.rows), newId, batch) && trace == old(trace) + [world]
    {
      var w := world.(rows := Applied(world.rows, newId, batch));
      BatchIsRewrap(x, trace, p, keys, newId, batch, world, w);
      Effect(w);
    }

    /** The transaction, over whatever the rows have become: all the rows of the batch, or none. */
    method Transact(ghost keys: Keys, newId: KeyId, batch: map<RowId, Bytes>) returns (r: Result<(), RotateError>)
      requires Valid() && BatchFrom(x, trace, |trace| - 1, keys, newId, batch)
      modifies this
      ensures SinceOnRows()
      ensures r.Ok? ==> InPlace(world.rows, newId, batch)
      ensures r.Ok? ==> |trace| > |old(trace)| + 1 && JustApplied(trace, newId, batch)
      ensures r.Err? ==> SinceWaiting()
      ensures Undisturbed() ==> world.rows == if r.Ok? then Applied(old(world.rows), newId, batch) else old(world.rows)
      ensures r.Err? ==> (r.error == IOFailure && Failing()) || (r.error == NotFound && !Undisturbed() && !Calm())
    {
      ghost var p := |trace| - 1;
      var ok := Await();
      if !ok {
        return Err(IOFailure);
      }
      if !(batch.Keys <= world.rows.Keys) {
        return Err(NotFound);
      }
      Commit(p, keys, newId, batch);
      r := Ok(());
    }

    /**
     * RewrapCredentialsIncludingDeleted. Either the command changed nothing, or
     * its last change put every row of the batch in place and left the others as
     * they were.
     */
    method StoreBatch(ghost keys: Keys, newId: KeyId, batch: map<RowId, Bytes>) returns (r: Result<(), RotateError>)
      requires Valid() && BatchFrom(x, trace, |trace| - 1, keys, newId, batch)
      modifies this
      ensures SinceOnRows()
      ensures r.Ok? ==> InPlace(world.rows, newId, batch)
      ensures r.Ok? && |batch| > 0 ==> |trace| > |old(trace)| + 1 && JustApplied(trace, newId, batch)
      ensures r.Err? || |batch| == 0 ==> SinceWaiting()
      ensures Undisturbed() ==> world.rows == if r.Ok? then Applied(old(world.rows), newId, batch) else old(world.rows)
      ensures r.Err? ==> (r.error == IOFailure && Failing()) || (r.error == NotFound && !Undisturbed() && !Calm())
    {
      if |batch| == 0 {
        EmptyBatch(world.rows, newId, batch);
        return Ok(());
      }
      r := Transact(keys, newId, batch);
    }

    /** CountCredentialsOutsideKEKIDIncludingDeleted. */
    method CountOutside(newId: KeyId) returns (r: Result<nat, RotateError>)
      requires Valid()
      modifies this
      ensures SinceWaiting()
      ensures r.Ok? ==> r.value == |OutsideSet(world.rows, newId)|
      ensures r.Err? ==> r.error == IOFailure && Failing()
      ensures Undisturbed() ==> world == old(world)
    {
      var ok := Await();
      if !ok {
        return Err(IOFailure);
      }
      var s := set id | id in world.rows && Outside(world.rows, newId, id);
      assert s == OutsideSet(world.rows, newId);
      r := Ok(|s|);
    }

    /** The re-wraps of a page: of a tidy table's, all succeed. */
    method RewrapListed(ring: Keyring, newId: KeyId, after: int, page: seq<RowId>, read: Table)
      returns (r: Result<map<RowId, Bytes>, RotateError>)
      requires LawfulScheme(x) && ring.Valid() && newId in ring.keys && IsPage(read, after, page)
      ensures r.Ok? ==> IsBatch(x, ring.keys, newId, read, r.value) && MovesPage(page, read, newId, r.value)
      ensures r.Err? ==> r.error == RewrapFailed && !Tidy(x, ring.keys, read)
    {
      r := RewrapPage(x, ring, newId, page, read);
      if r.Err? && Tidy(x, ring.keys, read) {
        var id: RowId :| ToMove(page, read, newId, id) && Rewrapped(x.crypto, ring.keys, read[id].envelope, newId).Err?;
        TidyRewraps(x, ring.keys, newId, read, id);
      }
    }

    /** Re-wrap the page just listed and store the batch. */
    method StoreRewraps(ring: Keyring, newId: KeyId, after: int, page: seq<RowId>, read: Table)
      returns (r: Result<nat, RotateError>, ghost batch: map<RowId, Bytes>)
      requires Valid() && Prepared(x, world.disk, ring, newId)
      requires read == world.rows && IsPage(read, after, page) && page != []
      modifies this
      ensures SinceOnRows()
      ensures r.Ok? ==> MovesPage(page, read, newId, batch) && InPlace(world.rows, newId, batch)
      ensures r.Ok? && Undisturbed() ==> PageMoved(read, world.rows, newId, after, page, r.value)
      ensures old(Smooth(ring.keys)) ==> Smooth(ring.keys)
      ensures r.Err? ==> r.error in {IOFailure, RewrapFailed, NotFound} && (Failing() || !(old(Smooth(ring.keys)) || Calm()))
    {
      var rewrapped := RewrapListed(ring, newId, after, page, read);
      if rewrapped.Err? {
        UntidyIsRough();
        return Err(rewrapped.error), map[];
      }
      batch := rewrapped.value;
      var stored := StoreBatch(ring.keys, newId, rewrapped.value);
      if stored.Err? {
        return Err(stored.error), batch;
      }
      if Undisturbed() {
        PageStored(x, ring.keys, read, world.rows, after, newId, page, batch);
      }
      r := Ok(|rewrapped.value|);
    }

    /** The same, with every row of the page seen at the new id. */
    method StorePage(ring: Keyring, newId: KeyId, after: int, page: seq<RowId>, read: Table) returns (r: Result<nat, RotateError>)
      requires Valid() && Prepared(x, world.disk, ring, newId)
      requires read == world.rows && IsPage(read, after, page) && page != []
      modifies this
      ensures SinceOnRows()
      ensures r.Ok? ==> forall id <- page :: AtNewId(trace, |old(trace)| - 1, newId, id)
      ensures r.Ok? && Undisturbed() ==> PageMoved(read, world.rows, newId, after, page, r.value)
      ensures old(Smooth(ring.keys)) ==> Smooth(ring.keys)
      ensures r.Err? ==> r.error in {IOFailure, RewrapFailed, NotFound} && (Failing() || !(old(Smooth(ring.keys)) || Calm()))
    {
      ghost var before, listed, batch := trace, world, map[];
      ghost var at := LastState();
      r, batch := StoreRewraps(ring, newId, after, page, read);
      if r.Ok? {
        ghost var end := LastState();
        StateStays(before, trace, at, listed);
        PageReachesNewId(trace, at, end, listed, world, after, newId, page, batch);
      }
    }

    /** One iteration of a re-wrap pass. */
    method RewrapNext(ring: Keyring, newId: KeyId, after: int)
      returns (r: Result<Option<RowId>, RotateError>, moved: nat, ghost page: seq<RowId>)
      requires Valid() && Prepared(x, world.disk, ring, newId)
      modifies this
      ensures SinceOnRows() && |trace| > |old(trace)|
      ensures r.Ok? ==> IsPage(trace[|old(trace)|].rows, after, page) && r.value == LastOf(page)
      ensures r.Ok? ==> forall id <- page :: AtNewId(trace, |old(trace)|, newId, id)
      ensures r.Ok? && Undisturbed() ==> PageMoved(old(world.rows), world.rows, newId, after, page, moved)
      ensures old(Smooth(ring.keys)) ==> Smooth(ring.keys)
      ensures r.Err? ==> r.error in {IOFailure, RewrapFailed, NotFound} && (Failing() || !(old(Smooth(ring.keys)) || Calm()))
    {
      moved := 0;
      var listed, read := ListPage(after);
      if listed.Err? {
        return Err(listed.error), 0, [];
      }
      page := listed.value;
      if |listed.value| == 0 {
        EmptyPageMoves(read, newId, after);
        return Ok(None), 0, page;
      }
      var stored := StorePage(ring, newId, after, listed.value, read);
      if stored.Err? {
        return Err(stored.error), 0, page;
      }
      return Ok(LastOf(listed.value)), stored.value, page;
    }

    /**
     * rewrapOnePass. The visited ids ascend, so none is visited twice; each was
     * at the new id in some state of the pass, found there or put there by its
     * page's batch; every row that stays a credential throughout is visited; and
     * with no other writer nothing is left outside the new id.
     */
    method RewrapOnePass(ring: Keyring, newId: KeyId)
      returns (r: Result<nat, RotateError>, ghost visited: seq<RowId>)
      requires Valid() && Prepared(x, world.disk, ring, newId)
      modifies this
      ensures SinceOnRows() && |trace| > |old(trace)|
      ensures Ascending(visited) && forall id <- visited :: AtNewId(trace, |old(trace)|, newId, id)
      ensures r.Ok? ==> forall id: RowId :: Persistent(trace, |old(trace)| - 1, id) ==> id in visited
      ensures r.Ok? && Undisturbed() ==>
                OutsideSet(world.rows, newId) == {} && r.value == |OutsideSet(old(world.rows), newId)|
      ensures old(Smooth(ring.keys)) ==> Smooth(ring.keys)
      ensures r.Err? ==> r.error in {IOFailure, RewrapFailed, NotFound} && (Failing() || !(old(Smooth(ring.keys)) || Calm()))
    {
      var after: int := 0;
      var moved: nat := 0;
      visited := [];
      while true
        invariant 0 <= after < 0x8000_0000_0000_0000
        invariant SinceOnRows() && Covered(trace, |old(trace)| - 1, after, visited)
        invariant forall id <- visited :: AtNewId(trace, |old(trace)|, newId, id)
        invariant Undisturbed() ==> DoneUpTo(world.rows, newId, after)
        invariant old(Smooth(ring.keys)) ==> Smooth(ring.keys)
        invariant Undisturbed() ==> moved + |OutsideSet(world.rows, newId)| == |OutsideSet(old(world.rows), newId)|
        decreases 0x8000_0000_0000_0000 - after
      {
        ghost var before := trace;
        var next, m, page := RewrapNext(ring, newId, after);
        AtNewIdLater(before, trace, |old(trace)|, newId, visited);
        if next.Err? {
          return Err(next.error), visited;
        }
        moved := moved + m;
        CoveredGrows(before, trace, |old(trace)| - 1, after, visited, page);
        AtNewIdSince(trace, |old(trace)|, |before|, newId, page);
        if next.value == None {
          return Ok(moved), visited;
        }
        visited := visited + page;
        after := next.value.value;
      }
    }

    /** One pass and the count after it: undisturbed, nothing is left. */
    method PassAndCount(ring: Keyring, newId: KeyId) returns (r: Result<(nat, nat), RotateError>)
      requires Valid() && Prepared(x, world.disk, ring, newId)
      modifies this
      ensures SinceOnRows() && |trace| > |old(trace)|
      ensures r.Ok? ==> PassOver(trace, |old(trace)| - 1, newId)
      ensures r.Ok? ==> r.value.1 == |OutsideSet(world.rows, newId)|
      ensures r.Ok? && Undisturbed() ==> r.value.0 == |OutsideSet(old(world.rows), newId)| && r.value.1 == 0
      ensures old(Smooth(ring.keys)) ==> Smooth(ring.keys)
      ensures r.Err? ==> r.error in {IOFailure, RewrapFailed, NotFound} && (Failing() || !(old(Smooth(ring.keys)) || Calm()))
    {
      var moved, visited := RewrapOnePass(ring, newId);
      if moved.Err? {
        return Err(moved.error);
      }
      ghost var walked := trace;
      var remaining := CountOutside(newId);
      if remaining.Err? {
        return Err(remaining.error);
      }
      VisitsMakePass(walked, trace, |old(trace)| - 1, newId, visited);
      r := Ok((moved.value, remaining.value));
    }

    /** The same as one more of several passes; what it leaves outside, the others put there meanwhile. */
    method NextPass(ring: Keyring, newId: KeyId, ghost bounds: seq<nat>)
      returns (r: Result<(nat, nat), RotateError>, ghost longer: seq<nat>)
      requires Valid() && Prepared(x, world.disk, ring, newId) && Bounded(bounds, newId) && |bounds| <= ROTATE_EXTRA_PASSES + 1
      requires |bounds| > 1 ==> OutsideSet(world.rows, newId) != {}
      modifies this
      ensures SinceOnRows() && Passes(trace, longer, newId)
      ensures longer == if r.Ok? then bounds + [|trace| - 1] else bounds
      ensures r.Ok? ==> r.value.1 == |OutsideSet(world.rows, newId)|
      ensures r.Ok? && Undisturbed() ==> r.value.0 == |OutsideSet(old(world.rows), newId)| && r.value.1 == 0
      ensures old(Smooth(ring.keys)) ==> Smooth(ring.keys)
      ensures r.Err? ==> r.error in {IOFailure, RewrapFailed, NotFound} && (Failing() || !(old(Smooth(ring.keys)) || Calm()))
    {
      ghost var before, w := trace, world;
      ghost var at := LastState();
      r := PassAndCount(ring, newId);
      longer := bounds;
      if r.Ok? {
        ghost var end := LastState();
        OnePassMore(before, trace, bounds, at, w, end, newId);
        longer := bounds + [end];
      } else {
        PassesLater(before, trace, bounds, newId);
      }
    }

    /** Passes up to the present state. */
    ghost predicate Bounded(bounds: seq<nat>, newId: KeyId)
      reads this
    {
      Passes(trace, bounds, newId) && bounds[|bounds| - 1] == |trace| - 1
    }

    /**
     * rewrapEverything: at most four passes whatever the others write. `bounds`
     * are the states the passes began in and that of the last count. Success means
     * that count found nothing outside the new id. It gives up only after four
     * passes that each left something, and only if the others changed rows during
     * the fourth; with no other writer the first pass is enough.
     */
    method RewrapEverything(ring: Keyring, newId: KeyId) returns (r: Result<nat, RotateError>, ghost bounds: seq<nat>)
      requires Valid() && Prepared(x, world.disk, ring, newId)
      modifies this
      ensures SinceOnRows() && Passes(trace, bounds, newId) && bounds[0] == |old(trace)| - 1
      ensures r.Ok? ==> Finished(trace, bounds, newId) && bounds[|bounds| - 1] == |trace| - 1
      ensures r.Ok? && Undisturbed() ==> |bounds| == 2 && r.value == |OutsideSet(old(world.rows), newId)|
      ensures r == Err(StillOutside) ==> GaveUp(trace, moves, bounds, newId) && !Undisturbed()
      ensures old(Smooth(ring.keys)) ==> Smooth(ring.keys)
      ensures r.Err? ==> r.error in {IOFailure, RewrapFailed, NotFound, StillOutside}
      ensures r.Err? && r.error != StillOutside ==> Failing() || !(old(Smooth(ring.keys)) || Calm())
    {
      var moved: nat := 0;
      var pass: nat := 0;
      bounds := [|trace| - 1];
      while true
        invariant SinceOnRows() && pass <= ROTATE_EXTRA_PASSES
        invariant Bounded(bounds, newId) && |bounds| == pass + 1 && bounds[0] == |old(trace)| - 1
        invariant pass > 0 ==> OutsideSet(world.rows, newId) != {}
        invariant Undisturbed() ==> pass == 0 && moved == 0 && world.rows == old(world.rows)
        invariant old(Smooth(ring.keys)) ==> Smooth(ring.keys)
        decreases ROTATE_EXTRA_PASSES - pass
      {
        var done;
        done, bounds := NextPass(ring, newId, bounds);
        if done.Err? {
          return Err(done.error), bounds;
        }
        moved := moved + done.value.0;
        ghost var end := LastState();
        if done.value.1 == 0 {
          FinishesAt(trace, bounds, newId, end, world);
          return Ok(moved), bounds;
        }
        if pass >= ROTATE_EXTRA_PASSES {
          GivesUpAt(trace, moves, stir, bounds, newId, end, world);
          return Err(StillOutside), bounds;
        }
        pass := pass + 1;
      }
    }

    /** One page of the verify pass. */
    method VerifyNext(ring: Keyring, newId: KeyId, after: int)
      returns (r: Result<Option<RowId>, RotateError>, ghost page: seq<RowId>)
      requires Valid() && Prepared(x, world.disk, ring, newId)
      modifies this
      ensures SinceWaiting() && |trace| > |old(trace)|
      ensures Undisturbed() ==> world == old(world)
      ensures world == trace[|old(trace)|]
      ensures r.Ok? ==> IsPage(world.rows, after, page) && r.value == LastOf(page)
      ensures r.Ok? ==> forall id <- page :: Proven(x, ring.keys, newId, world.rows[id])
      ensures r.Err? ==> r.error in {IOFailure, VerifyFailed}
      ensures r == Err(IOFailure) ==> Failing()
      ensures r == Err(VerifyFailed) ==> !AllProven(x, ring.keys, newId, world.rows)
    {
      var listed, read := ListPage(after);
      if listed.Err? {
        return Err(listed.error), [];
      }
      page := listed.value;
      if |listed.value| == 0 {
        return Ok(None), page;
      }
      var ok := VerifyPage(x, ring, newId, listed.value, read);
      if !ok {
        return Err(VerifyFailed), page;
      }
      r := Ok(LastOf(listed.value));
    }

    /**
     * verifyEverything. `seen` is the table as it was read, page by page: every
     * row in it is proven, and every row that stayed a credential is in it. With
     * no other writer the outcome is exactly whether the table is proven.
     */
    method VerifyEverything(ring: Keyring, newId: KeyId) returns (r: Result<(), RotateError>, ghost seen: Table)
      requires Valid() && Prepared(x, world.disk, ring, newId)
      modifies this
      ensures SinceWaiting()
      ensures r.Ok? ==> Checked(x, ring.keys, newId, trace, |old(trace)| - 1, seen)
      ensures Undisturbed() ==> world == old(world)
      ensures Undisturbed() && r != Err(IOFailure) ==> (r.Ok? <==> AllProven(x, ring.keys, newId, world.rows))
      ensures r.Err? ==> r.error in {IOFailure, VerifyFailed}
      ensures r == Err(IOFailure) ==> Failing()
    {
      var after: int := 0;
      ghost var visited: seq<RowId> := [];
      seen := map[];
      while true
        invariant 0 <= after < 0x8000_0000_0000_0000
        invariant SinceWaiting() && Covered(trace, |old(trace)| - 1, after, visited)
        invariant Recorded(x, ring.keys, newId, trace, |old(trace)| - 1, visited, seen)
        invariant Undisturbed() ==> world == old(world) && ProvenUpTo(x, ring.keys, newId, world.rows, after)
        decreases 0x8000_0000_0000_0000 - after
      {
        ghost var before := trace;
        var next, page := VerifyNext(ring, newId, after);
        if next.Err? {
          return Err(next.error), seen;
        }
        CoveredGrows(before, trace, |old(trace)| - 1, after, visited, page);
        RecordedMore(x, ring.keys, newId, before, trace, |old(trace)| - 1, visited, seen, page);
        if Undisturbed() {
          ProvenFurther(x, ring.keys, newId, world.rows, after, page);
        }
        if next.value == None {
          return Ok(()), seen;
        }
        seen := seen + Picked(world.rows, page);
        visited := visited + page;
        after := next.value.value;
      }
    }

    /** buildKeyring: the ring the files give, primary on secret.key whatever is pending. */
    method BuildKeyring(master: Octets) returns (r: Result<Keyring, RotateError>)
      requires Valid() && Master(world.disk.secret) == Some(master)
      modifies this
      ensures SinceWaiting()
      ensures Undisturbed() ==> world == old(world)
      ensures r.Ok? ==> fresh(r.value) && r.value.Valid()
      ensures r.Ok? ==> Ring(x, world.disk) == Ok(r.value.keys) && r.value.primaryId == x.keyId(x.kek(master))
      ensures r.Err? ==> (r.error == IOFailure && Failing()) || Ring(x, world.disk) == Err(r.error)
    {
      var kek := x.kek(master);
      var ring := new Keyring(x.keyId(kek), kek);
      var legacy := ring.Add(LEGACY_KEK_ID, kek);
      assert ring.keys == LiveKeys(x, master);
      var ok := Await();
      if !ok {
        return Err(IOFailure);
      }
      if world.disk.pending == None {
        return Ok(ring);
      }
      var pending := ValidateMasterKey(world.disk.pending.value);
      if pending.Err? {
        return Err(PendingUnreadable);
      }
      var pendingKek := x.kek(pending.value);
      var added := ring.Add(x.keyId(pendingKek), pendingKek);
      r := if added.Ok? then Ok(ring) else Err(PendingCollides);
    }

    /** One write to the file this process created. */
    method WritePending(c: string, ghost random: Octets)
      requires Valid() && |random| == MASTER_KEY_LEN && c <= Content(random)
      requires match world.disk.pending case None => c == "" case Some(before) => before <= c
      modifies this
      ensures Since() && gate == old(gate) && world == Pending(old(world), Some(c))
    {
      WriteIsStep(x, trace, c, random);
      Effect(Pending(world, Some(c)));
    }

    /** GenerateNewSecretKey: O_EXCL, then the content, one write at a time. */
    method GenerateNewSecretKey(random: Octets) returns (r: Result<(), RotateError>)
      requires Valid() && |random| == MASTER_KEY_LEN
      modifies this
      ensures Since() && gate == old(gate) && world.disk.secret == old(world.disk.secret)
      ensures Undisturbed() ==> world.rows == old(world.rows)
      ensures r.Ok? ==> world.disk.pending == Some(Content(random))
      ensures old(world.disk.pending).Some? ==> world.disk == old(world.disk) && r.Err?
      ensures r.Err? ==> (r.error == IOFailure && Failing()) || (r.error == PendingExists && old(world.disk.pending).Some?)
    {
      var ok := Await();
      if !ok {
        return Err(IOFailure);
      }
      if world.disk.pending.Some? {
        return Err(PendingExists);
      }
      var content := Content(random);
      WritePending("", random);
      for i := 0 to |content|
        invariant Since() && gate == old(gate) && world.disk == old(world.disk).(pending := Some(content[..i]))
        invariant Undisturbed() ==> world.rows == old(world.rows)
      {
        ok := Await();
        if !ok {
          return Err(IOFailure);
        }
        WritePending(content[..i + 1], random);
      }
      assert content[..|content|] == content;
      ok := Await();
      r := if ok then Ok(()) else Err(IOFailure);
    }

    /** os.Remove of a generated file whose key id collides; a failure to remove is ignored. */
    method DiscardPending()
      requires Valid() && Ring(x, world.disk) == Err(PendingCollides)
      modifies this
      ensures Since() && gate == old(gate) && world.disk.secret == old(world.disk.secret)
      ensures !Failing() ==> world.disk.pending == None
      ensures Undisturbed() ==> world.rows == old(world.rows)
    {
      var ok := Await();
      if ok {
        assert Discards(x, world, Pending(world, None));
        Effect(Pending(world, None));
      }
    }

    /** The key of secret.key.new: read from an interrupted rotation, or freshly generated and written. */
    method PendingMaster(random: Octets) returns (r: Result<Octets, RotateError>)
      requires Valid() && |random| == MASTER_KEY_LEN && NonZero(random)
      requires Ring(x, world.disk).Ok?
      modifies this
      ensures Since() && gate == old(gate) && world.disk.secret == old(world.disk.secret)
      ensures Undisturbed() ==> world.rows == old(world.rows)
      ensures old(world.disk.pending).Some? ==> world.disk == old(world.disk)
      ensures r.Ok? ==> Master(world.disk.pending) == Some(r.value)
      ensures r.Ok? && old(world.disk.pending) == None ==> r.value == random
      ensures r.Err? ==> r.error == IOFailure && Failing()
    {
      var ok := Await();
      if !ok {
        return Err(IOFailure);
      }
      if world.disk.pending.Some? {
        var key := ValidateMasterKey(world.disk.pending.value);
        return Ok(key.value);
      }
      var written := GenerateNewSecretKey(random);
      if written.Err? {
        return Err(written.error);
      }
      CompleteContent(random);
      r := Ok(random);
    }

    /** The key to rotate to, pending or fresh, is the one already in use. */
    ghost predicate SameKeyAgain(d: Disk, random: Octets)
      requires Ring(x, d).Ok?
    {
      x.kek(if d.pending.Some? then Master(d.pending).value else random) == x.kek(Master(d.secret).value)
    }

    /**
     * prepareRotation: resume from a pending key if there is one, and never touch
     * that file; otherwise write fresh material. Refuses the key already in use
     * and an id that collides, discarding only a file this run generated.
     */
    method PrepareRotation(ring: Keyring, random: Octets) returns (r: Result<KeyId, RotateError>)
      requires Valid() && ring.Valid() && Ring(x, world.disk) == Ok(ring.keys)
      requires |random| == MASTER_KEY_LEN && NonZero(random)
      modifies this, ring
      ensures Since() && gate == old(gate) && world.disk.secret == old(world.disk.secret) && ring.Valid()
      ensures Undisturbed() ==> world.rows == old(world.rows)
      ensures old(world.disk.pending).Some? ==> world.disk == old(world.disk)
      ensures r.Ok? ==> Prepared(x, world.disk, ring, r.value) && Extends(old(ring.keys), ring.keys)
      ensures r.Err? ==> (r.error == IOFailure && Failing()) || !CanPrepare(x, old(world.disk), random)
      ensures r != Err(StillOutside)
      ensures r.Err? && !Failing() ==> r == Err(if SameKeyAgain(old(world.disk), random) then SameKey else PendingCollides)
      ensures r == Err(PendingCollides) && !Failing() && old(world.disk.pending) == None ==> world.disk == old(world.disk)
    {
      ghost var before := world.disk;
      var resumed := world.disk.pending.Some?;
      var oldKek := x.kek(Master(world.disk.secret).value);
      var master := PendingMaster(random);
      if master.Err? {
        return Err(master.error);
      }
      var newKek := x.kek(master.value);
      if newKek == oldKek {
        return Err(SameKey);
      }
      var newId := x.keyId(newKek);
      RingOfPending(x, before, world.disk, master.value);
      var added := ring.Add(newId, newKek);
      if added.Err? {
        if !resumed {
          DiscardPending();
        }
        return Err(PendingCollides);
      }
      var primary := ring.SetPrimary(newId);
      r := Ok(newId);
    }

    /** rename(2), over whatever the rows have become. */
    method Rename()
      requires Valid() && gate == None && world.disk.pending.Some? && Ring(x, world.disk).Ok?
      modifies this
      ensures Since() && Renames(x, old(world), world)
      ensures trace == old(trace) + [world] && moves == old(moves) + [Own] && gate == Some(|old(trace)| - 1)
    {
      var w := World(Disk(world.disk.pending, None), world.rows);
      RenameIsStep(x, trace, world, w);
      Effect(w);
    }

    /**
     * PromoteNewSecretKey: fsync, rename, fsync the directory. It can fail on
     * either side of the rename, and changes nothing before it.
     */
    method PromoteNewSecretKey() returns (r: Result<(), RotateError>)
      requires Valid() && gate == None && world.disk.pending.Some? && Ring(x, world.disk).Ok?
      modifies this
      ensures Since()
      ensures Undisturbed() ==> world.rows == old(world.rows)
      ensures gate == None ==> world.disk == old(world.disk)
      ensures gate.Some? ==> PromotedAt(x, old(world.disk), trace, moves, |old(trace)|, old(lastOwn), gate.value)
      ensures gate.Some? ==> world.disk == Disk(old(world.disk.pending), None)
      ensures r.Ok? ==> gate.Some?
      ensures r.Err? ==> r.error == IOFailure && Failing()
    {
      var ok := Await();
      if !ok {
        return Err(IOFailure);
      }
      ok := Await();
      if !ok {
        return Err(IOFailure);
      }
      ghost var waited := moves;
      Rename();
      assert moves[..|waited|] == waited;
      ok := Await();
      assert moves[..|waited|] == waited;
      r := if ok then Ok(()) else Err(IOFailure);
    }

    /** promoteRotation: publish the pending key, then drop every other key from the ring. */
    method PromoteRotation(ring: Keyring, newId: KeyId) returns (r: Result<(), RotateError>)
      requires Valid() && gate == None && Prepared(x, world.disk, ring, newId)
      modifies this, ring
      ensures Since() && ring.Valid()
      ensures Undisturbed() ==> world.rows == old(world.rows)
      ensures gate == None ==> world.disk == old(world.disk)
      ensures gate.Some? ==> PromotedAt(x, old(world.disk), trace, moves, |old(trace)|, old(lastOwn), gate.value)
      ensures gate.Some? ==> world.disk == Disk(old(world.disk.pending), None)
      ensures r.Ok? ==> gate.Some? && ring.keys == map[newId := old(ring.keys)[newId]]
      ensures r.Err? ==> r.error == IOFailure && Failing()
    {
      r := PromoteNewSecretKey();
      if r.Ok? {
        var dropped := DropSuperseded(ring, newId);
      }
    }

    /** ListCredentialsOutsideKEKIDsIncludingDeleted. */
    method ListStranded(held: set<KeyId>) returns (r: Result<set<RowId>, RotateError>)
      requires Valid()
      modifies this
      ensures SinceWaiting()
      ensures Undisturbed() ==> world == old(world)
      ensures r.Ok? ==> r.value == StrandedRows(world.rows, held)
      ensures r.Err? ==> r.error == IOFailure && Failing()
    {
      var ok := Await();
      if !ok {
        return Err(IOFailure);
      }
      r := Ok(StrandedRows(world.rows, held));
    }

    /** The audit row between re-wrapping and verifying, and verifying: certain over a table that stays tidy and with nothing outside. */
    method AuditAndVerify(ring: Keyring, newId: KeyId) returns (r: Result<(), RotateError>, ghost checked: nat, ghost seen: Table)
      requires Valid() && Prepared(x, world.disk, ring, newId) && OutsideSet(world.rows, newId) == {}
      modifies this
      ensures SinceWaiting()
      ensures r.Ok? ==> Checked(x, ring.keys, newId, trace, checked, seen) && lastOwn <= checked
      ensures Undisturbed() ==> world == old(world)
      ensures r.Ok? && Undisturbed() ==> AllProven(x, ring.keys, newId, world.rows)
      ensures r.Err? ==> r.error in {IOFailure, VerifyFailed}
      ensures r.Err? ==> Failing() || !(old(Smooth(ring.keys)) || (Calm() && Undisturbed()))
    {
      if TidyWorld(x, world) {
        TidyIsProven(x, ring.keys, newId, world.rows);
      } else {
        UntidyIsRough();
      }
      var ok := Await();
      if !ok {
        return Err(IOFailure), 0, map[];
      }
      checked := |trace| - 1;
      r, seen := VerifyEverything(ring, newId);
    }

    /**
     * The middle of the command: re-wrap, audit, verify; nothing is changed from
     * state `checked` on. Where nothing fails, every state is tidy and no row is
     * removed, it gets through unless the others write during the fourth pass, or
     * after the count that found nothing.
     */
    method RewrapThenVerify(ring: Keyring, newId: KeyId)
      returns (r: Result<(), RotateError>, ghost checked: nat, ghost seen: Table, ghost bounds: seq<nat>)
      requires Valid() && Prepared(x, world.disk, ring, newId)
      modifies this
      ensures SinceOnRows() && Passes(trace, bounds, newId) && bounds[0] == |old(trace)| - 1
      ensures r.Ok? ==> Checked(x, ring.keys, newId, trace, checked, seen) && lastOwn <= checked
      ensures r.Ok? && Undisturbed() ==> AllProven(x, ring.keys, newId, world.rows)
      ensures r.Ok? ==> Finished(trace, bounds, newId) && (stir <= LastBound(bounds) ==> OutsideSet(world.rows, newId) == {})
      ensures r.Err? ==> Failing() || !old(Smooth(ring.keys))
      ensures r.Err? ==> Failing() || !Calm() || Overtaken(trace, moves, bounds, newId)
      ensures r == Err(StillOutside) ==> GaveUp(trace, moves, bounds, newId)
    {
      var moved;
      moved, bounds := RewrapEverything(ring, newId);
      if moved.Err? {
        return Err(moved.error), 0, map[], bounds;
      }
      r, checked, seen := VerifyAfterPasses(ring, newId, bounds);
    }

    /** The same, as the passes of a run. */
    method RewrapAndVerify(ring: Keyring, newId: KeyId)
      returns (r: Result<(), RotateError>, ghost checked: nat, ghost seen: Table, ghost bounds: seq<nat>)
      requires Valid() && Prepared(x, world.disk, ring, newId)
      modifies this
      ensures SinceOnRows() && RunPasses(x, trace, bounds) && RunId(x, trace, bounds) == newId && LastBound(bounds) >= |old(trace)| - 1
      ensures r.Ok? ==> Checked(x, ring.keys, newId, trace, checked, seen) && lastOwn <= checked
      ensures r.Ok? && Undisturbed() ==> AllProven(x, ring.keys, newId, world.rows)
      ensures r.Ok? ==> Finished(trace, bounds, newId) && (stir <= LastBound(bounds) ==> OutsideSet(world.rows, newId) == {})
      ensures r.Err? ==> Failing() || !old(Smooth(ring.keys))
      ensures r.Err? ==> Failing() || !Calm() || Overtaken(trace, moves, bounds, newId)
      ensures r == Err(StillOutside) ==> GaveUp(trace, moves, bounds, newId)
    {
      ghost var start, w := trace, world;
      ghost var at := LastState();
      r, checked, seen, bounds := RewrapThenVerify(ring, newId);
      RunStarts(x, start, trace, bounds, at, w, newId);
    }

    /** Audit and verify, as what follows the last of several passes. */
    method VerifyAfterPasses(ring: Keyring, newId: KeyId, ghost bounds: seq<nat>)
      returns (r: Result<(), RotateError>, ghost checked: nat, ghost seen: Table)
      requires Valid() && Prepared(x, world.disk, ring, newId) && Bounded(bounds, newId) && Finished(trace, bounds, newId)
      modifies this
      ensures SinceOnRows() && Passes(trace, bounds, newId) && Finished(trace, bounds, newId)
      ensures r.Ok? ==> Checked(x, ring.keys, newId, trace, checked, seen) && lastOwn <= checked
      ensures r.Ok? && Undisturbed() ==> AllProven(x, ring.keys, newId, world.rows) && OutsideSet(world.rows, newId) == {}
      ensures r.Err? ==> r.error in {IOFailure, VerifyFailed}
      ensures r.Err? ==> Failing() || !(old(Smooth(ring.keys)) || (Calm() && StillFrom(trace, moves, LastBound(bounds))))
    {
      ghost var before := trace;
      r, checked, seen := AuditAndVerify(ring, newId);
      FinishedLater(before, trace, bounds, newId);
      StillExactlyFrom(trace, moves, stir, LastBound(bounds));
    }

    /** The start every command makes: resolve the master key, build the ring, report what it cannot open. */
    method Start() returns (r: Result<Keyring, RotateError>)
      requires Valid() && world.disk.secret.Some?
      modifies this
      ensures SinceWaiting() && r != Err(StillOutside)
      ensures Undisturbed() ==> world == old(world)
      ensures r.Ok? ==> fresh(r.value) && r.value.Valid() && Ring(x, world.disk) == Ok(r.value.keys)
      ensures r.Err? ==> (r.error == IOFailure && Failing()) || Ring(x, world.disk) == Err(r.error)
    {
      var ok := Await();
      if !ok {
        return Err(IOFailure);
      }
      var master := ValidateMasterKey(world.disk.secret.value);
      if master.Err? {
        return Err(SecretUnreadable);
      }
      r := BuildKeyring(master.value);
      if r.Err? {
        return;
      }
      var stranded := ListStranded(r.value.keys.Keys);
      if stranded.Err? {
        return Err(IOFailure);
      }
    }

    /** Re-wrap, verify, and only then promote. */
    method RewrapThenPromote(ring: Keyring, newId: KeyId)
      returns (r: Result<(), RotateError>, ghost checked: nat, ghost seen: Table, ghost bounds: seq<nat>)
      requires Valid() && gate == None && Prepared(x, world.disk, ring, newId)
      modifies this, ring
      ensures Since() && RunPasses(x, trace, bounds) && RunId(x, trace, bounds) == newId && LastBound(bounds) >= |old(trace)| - 1
      ensures gate == None ==> world.disk == old(world.disk)
      ensures gate.Some? ==> GatePassed(x, trace, moves, checked, gate.value, seen)
      ensures gate.Some? ==> world.disk == Disk(old(world.disk.pending), None)
      ensures r.Ok? ==> gate.Some? && (Undisturbed() ==> OutsideSet(world.rows, newId) == {})
      ensures r.Ok? ==> Finished(trace, bounds, newId) && (stir <= LastBound(bounds) ==> OutsideSet(world.rows, newId) == {})
      ensures r.Err? ==> Failing() || !old(Smooth(ring.keys))
      ensures r.Err? ==> Failing() || !Calm() || Overtaken(trace, moves, bounds, newId)
      ensures r == Err(StillOutside) ==> GaveUp(trace, moves, bounds, newId)
    {
      r, checked, seen, bounds := RewrapAndVerify(ring, newId);
      if r.Err? {
        return;
      }
      ghost var disk, before, keys, own := world.disk, trace, ring.keys, lastOwn;
      if Undisturbed() {
        ProvenIsInside(x, ring.keys, newId, world.rows);
      }
      r := PromoteRotation(ring, newId);
      RunLater(x, before, trace, bounds);
      if gate.Some? {
        GateHolds(x, disk, before, trace, moves, own, checked, gate.value, seen, keys, newId);
      }
    }

    /** The audit row and the listing that closes the command. */
    method ReportStranded(newId: KeyId) returns (r: Result<(), RotateError>)
      requires Valid()
      modifies this
      ensures SinceWaiting()
      ensures r.Ok? ==> OutsideSet(world.rows, newId) == {}
      ensures r.Err? ==> r.error in {IOFailure, Stranded}
      ensures r.Err? ==> Failing() || !(Undisturbed() && OutsideSet(old(world.rows), newId) == {})
    {
      var ok := Await();
      if !ok {
        return Err(IOFailure);
      }
      var stranded := ListStranded({newId});
      if stranded.Err? {
        return Err(IOFailure);
      }
      assert StrandedRows(world.rows, {newId}) == OutsideSet(world.rows, newId);
      r := if stranded.value == {} then Ok(()) else Err(Stranded);
    }

    /** What makes a run certain to finish: a tidy table, no other writer, no failure, and a key that can be prepared. */
    ghost predicate Completable(random: Octets)
      reads this
    {
      && !Failing() && CanPrepare(x, world.disk, random)
      && Smooth(Ring(x, world.disk).value)
    }

    /** From a prepared ring on: the audit row, then re-wrap, verify and promote. */
    method RotatePrepared(ring: Keyring, newId: KeyId)
      returns (r: Result<(), RotateError>, ghost checked: nat, ghost seen: Table, ghost bounds: seq<nat>)
      requires Valid() && gate == None && Prepared(x, world.disk, ring, newId)
      modifies this, ring
      ensures Since()
      ensures gate == None ==> world.disk == old(world.disk)
      ensures gate.Some? ==> GatePassed(x, trace, moves, checked, gate.value, seen)
      ensures gate.Some? ==> world.disk == Disk(old(world.disk.pending), None)
      ensures r.Ok? ==> gate.Some? && (Undisturbed() ==> OutsideSet(world.rows, newId) == {})
      ensures r.Err? ==> Failing() || !old(Smooth(ring.keys))
      ensures bounds != [] ==> RunPasses(x, trace, bounds) && LastBound(bounds) >= |old(trace)| - 1
      ensures r.Ok? ==> bounds != [] && Finished(trace, bounds, RunId(x, trace, bounds))
      ensures r.Ok? && stir <= LastBound(bounds) ==> OutsideSet(world.rows, newId) == {}
      ensures r.Err? ==> Failing() || !Calm() || (bounds != [] && Overtaken(trace, moves, bounds, RunId(x, trace, bounds)))
      ensures r == Err(StillOutside) ==> bounds != [] && GaveUp(trace, moves, bounds, RunId(x, trace, bounds))
    {
      checked, seen, bounds := 0, map[], [];
      var ok := Await();
      if !ok {
        return Err(IOFailure), checked, seen, bounds;
      }
      r, checked, seen, bounds := RewrapThenPromote(ring, newId);
    }

    /** From a ring that is ready to seal under the live key to a finished rotation. */
    method Rotate(ring: Keyring, random: Octets)
      returns (r: Result<KeyId, RotateError>, ghost checked: nat, ghost seen: Table, ghost bounds: seq<nat>)
      requires Valid() && gate == None && ring.Valid() && Ring(x, world.disk) == Ok(ring.keys)
      requires |random| == MASTER_KEY_LEN && NonZero(random)
      modifies this, ring
      ensures Since()
      ensures gate == None ==> world.disk.secret == old(world.disk.secret)
      ensures old(world.disk.pending).Some? && gate == None ==> world.disk == old(world.disk)
      ensures gate.Some? ==> GatePassed(x, trace, moves, checked, gate.value, seen)
      ensures gate.Some? ==> world.disk.pending == None && Master(world.disk.secret).Some?
      ensures r.Ok? ==> gate.Some? && r.value == x.keyId(x.kek(Master(world.disk.secret).value))
      ensures r.Ok? && Undisturbed() ==> OutsideSet(world.rows, r.value) == {}
      ensures r.Err? ==> !old(Completable(random))
      ensures bounds != [] ==> RunPasses(x, trace, bounds) && LastBound(bounds) >= |old(trace)| - 1
      ensures r.Ok? ==> bounds != [] && Finished(trace, bounds, RunId(x, trace, bounds))
      ensures r.Ok? && stir <= LastBound(bounds) ==> OutsideSet(world.rows, r.value) == {}
      ensures r.Err? ==> Failing() || !CanPrepare(x, old(world.disk), random) || !Calm()
                         || (bounds != [] && Overtaken(trace, moves, bounds, RunId(x, trace, bounds)))
      ensures r == Err(StillOutside) ==> bounds != [] && GaveUp(trace, moves, bounds, RunId(x, trace, bounds))
    {
      checked, seen, bounds := 0, map[], [];
      var prepared := PrepareRotation(ring, random);
      if prepared.Err? {
        return Err(prepared.error), checked, seen, bounds;
      }
      TidyExtends(x, old(ring.keys), ring.keys, world.rows);
      var done;
      done, checked, seen, bounds := RotatePrepared(ring, prepared.value);
      r := if done.Ok? then Ok(prepared.value) else Err(done.error);
    }

    /** And the report that closes the command. */
    method RotateAndReport(ring: Keyring, random: Octets)
      returns (r: Result<(), RotateError>, ghost checked: nat, ghost seen: Table, ghost bounds: seq<nat>)
      requires Valid() && gate == None && ring.Valid() && Ring(x, world.disk) == Ok(ring.keys)
      requires |random| == MASTER_KEY_LEN && NonZero(random)
      modifies this, ring
      ensures Since()
      ensures gate == None ==> world.disk.secret == old(world.disk.secret)
      ensures old(world.disk.pending).Some? && gate == None ==> world.disk == old(world.disk)
      ensures gate.Some? ==> GatePassed(x, trace, moves, checked, gate.value, seen)
      ensures r.Ok? ==> gate.Some? && world.disk.pending == None && Master(world.disk.secret).Some?
      ensures r.Ok? ==> OutsideSet(world.rows, x.keyId(x.kek(Master(world.disk.secret).value))) == {}
      ensures r.Err? ==> !old(Completable(random))
      ensures bounds != [] ==> RunPasses(x, trace, bounds)
      ensures r.Err? ==> Failing() || !CanPrepare(x, old(world.disk), random) || !Calm()
                         || (bounds != [] && Overtaken(trace, moves, bounds, RunId(x, trace, bounds)))
      ensures r == Err(StillOutside) ==> bounds != [] && GaveUp(trace, moves, bounds, RunId(x, trace, bounds))
    {
      var newId;
      newId, checked, seen, bounds := Rotate(ring, random);
      if newId.Err? {
        return Err(newId.error), checked, seen, bounds;
      }
      ghost var before, earlier := trace, moves;
      r := ReportStranded(newId.value);
      RunLater(x, before, trace, bounds);
      StillExactlyFrom(trace, moves, stir, LastBound(bounds));
      GateStays(x, before, trace, earlier, moves, checked, gate.value, seen);
    }

    /**
     * `usarr key rotate`, from a process that has just started. A managed key and
     * a missing key are refused with the files untouched; secret.key is replaced
     * at most once and only through the gate, where every credential no other
     * process has written since the start is proven; success leaves one key file
     * and nothing outside its id. A run over a tidy table with no other writer and
     * no failure succeeds, whatever interrupted run it resumes; and with other
     * writers, where nothing fails, every state is tidy and no row is removed, it
     * succeeds unless they change rows during the fourth pass of four or after the
     * count that found nothing.
     */
    method RunKeyRotate(managed: bool, random: Octets)
      returns (r: Result<(), RotateError>, ghost checked: nat, ghost seen: Table, ghost bounds: seq<nat>)
      requires Valid() && trace == [world] && gate == None
      requires |random| == MASTER_KEY_LEN && NonZero(random)
      modifies this
      ensures Since()
      ensures managed ==> r == Err(NotManaged) && trace == old(trace)
      ensures !managed && old(world.disk.secret) == None ==> r == Err(NoKey) && world.disk == old(world.disk)
      ensures gate == None ==> world.disk.secret == old(world.disk.secret)
      ensures old(world.disk.pending).Some? && gate == None ==> world.disk == old(world.disk)
      ensures gate.Some? ==> GatePassed(x, trace, moves, checked, gate.value, seen)
      ensures gate.Some? ==> forall id: RowId | CredentialAt(old(world), id) && LeftAlone(trace, moves, gate.value, id) ::
                                ProvenAtGate(x, trace, gate.value, id)
      ensures r.Ok? ==> gate.Some? && world.disk.pending == None && Master(world.disk.secret).Some?
      ensures r.Ok? ==> OutsideSet(world.rows, x.keyId(x.kek(Master(world.disk.secret).value))) == {}
      ensures r.Err? && !managed ==> !old(Completable(random))
      ensures bounds != [] ==> RunPasses(x, trace, bounds)
      ensures r.Err? && !managed ==> Failing() || !CanPrepare(x, old(world.disk), random) || !CalmFrom(x, trace, 0)
                                     || (bounds != [] && Overtaken(trace, moves, bounds, RunId(x, trace, bounds)))
      ensures r == Err(StillOutside) ==> bounds != [] && GaveUp(trace, moves, bounds, RunId(x, trace, bounds))
    {
      checked, seen, bounds := 0, map[], [];
      if managed {
        return Err(NotManaged), checked, seen, bounds;
      }
      var ok := Await();
      if world.disk.secret == None {
        return Err(NoKey), checked, seen, bounds;
      }
      var ring := Start();
      if ring.Err? {
        return Err(ring.error), checked, seen, bounds;
      }
      r, checked, seen, bounds := RotateAndReport(ring.value, random);
      CalmExactlyFrom(x, trace, rough, 0);
      if gate.Some? {
        GateProvesAll(x, trace, moves, checked, gate.value, seen);
      }
    }
  }
}
