/**
 * The import guard: one in-process claim per service instance, taken by full
 * imports, deltas, the bootstrap and the scheduled sweep, on whatever goroutine.
 *
 * System is the guard and every run there ever was; an Act is one of the points
 * where a run touches the guard or ends a phase. The theorems are about every
 * interleaving of acts; the methods are proved to be sequences of them.
 */
module ImportGuard {
  import opened Wrappers

  type Instance = int
  type RunId = nat

  datatype Kind = FullImport | DeltaSync

  /** How far a run is. Importing and everything after it up to Over hold the claim. */
  datatype Phase =
    | Ready
    | Refused
    | Walking
    | Importing(escalated: bool)
    | Ending(stopped: bool)
    | Over(stopped: bool)

  /** A run, with how often it has taken and released the guard and how many stopped frames it has published. */
  datatype Run = Run(instance: Instance, kind: Kind, phase: Phase, claims: nat, releases: nat, frames: nat)

  datatype System = System(importing: set<Instance>, runs: map<RunId, Run>, hubWired: bool)

  predicate Holds(p: Phase) {
    p.Walking? || p.Importing? || p.Ending?
  }

  datatype Act =
    | Spawn(id: RunId, instance: Instance, kind: Kind)
    | Decline(id: RunId)
    | Begin(id: RunId)
    | DeltaEnds(id: RunId, escalates: bool)
    | ImportEnds(id: RunId, ok: bool)
    | Release(id: RunId)

  predicate Enabled(s: System, a: Act) {
    if a.Spawn? then a.id !in s.runs
    else
      a.id in s.runs &&
      match a
      case Decline(id) => s.runs[id].phase == Ready
      case Begin(id) => s.runs[id].phase == Ready
      case DeltaEnds(id, _) => s.runs[id].phase == Walking
      case ImportEnds(id, _) => s.runs[id].phase.Importing?
      case Release(id) => s.runs[id].phase.Ending?
  }

  function With(s: System, id: RunId, run: Run): System {
    s.(runs := s.runs[id := run])
  }

  function Next(s: System, a: Act): System
    requires Enabled(s, a)
  {
    match a
    case Spawn(id, instance, kind) => With(s, id, Run(instance, kind, Ready, 0, 0, 0))
    case Decline(id) => With(s, id, s.runs[id].(phase := Refused))
    case Begin(id) =>
      var run := s.runs[id];
      if run.instance in s.importing then With(s, id, run.(phase := Refused))
      else
        With(s.(importing := s.importing + {run.instance}), id,
             run.(phase := if run.kind == DeltaSync then Walking else Importing(false), claims := run.claims + 1))
    case DeltaEnds(id, escalates) =>
      With(s, id, s.runs[id].(phase := if escalates then Importing(true) else Ending(false)))
    case ImportEnds(id, ok) =>
      var run := s.runs[id];
      With(s, id, run.(phase := Ending(!ok), frames := run.frames + if !ok && s.hubWired then 1 else 0))
    case Release(id) =>
      var run := s.runs[id];
      With(s.(importing := s.importing - {run.instance}), id,
           run.(phase := Over(run.phase.stopped), releases := run.releases + 1))
  }

  predicate Enact(s: System, acts: seq<Act>)
    decreases |acts|
  {
    acts == [] || (Enabled(s, acts[0]) && Enact(Next(s, acts[0]), acts[1..]))
  }

  function Enacted(s: System, acts: seq<Act>): System
    requires Enact(s, acts)
    decreases |acts|
  {
    if acts == [] then s else Enacted(Next(s, acts[0]), acts[1..])
  }

  // ---- what every interleaving keeps ----

  /** The claim of a holder is in the guard, and no two holders share an instance. */
  ghost predicate Exclusive(s: System) {
    && (forall id <- s.runs | Holds(s.runs[id].phase) :: s.runs[id].instance in s.importing)
    && (forall i, j | i in s.runs && j in s.runs && Holds(s.runs[i].phase) && Holds(s.runs[j].phase) ::
          s.runs[i].instance == s.runs[j].instance ==> i == j)
    && forall instance <- s.importing :: Held(s, instance)
  }

  ghost predicate Held(s: System, instance: Instance) {
    exists id :: id in s.runs && Holds(s.runs[id].phase) && s.runs[id].instance == instance
  }

  /** One claim per run that got in, released exactly once, at its end; one stopped frame for a stopped import, none otherwise. */
  predicate Balanced(run: Run, hubWired: bool) {
    && run.claims == (if Holds(run.phase) || run.phase.Over? then 1 else 0)
    && run.releases == (if run.phase.Over? then 1 else 0)
    && run.frames == (if hubWired && (run.phase.Ending? || run.phase.Over?) && run.phase.stopped then 1 else 0)
  }

  ghost predicate Sound(s: System) {
    Exclusive(s) && forall id <- s.runs :: Balanced(s.runs[id], s.hubWired)
  }

  lemma ActKeepsBalance(s: System, a: Act)
    requires Sound(s) && Enabled(s, a)
    ensures forall id <- Next(s, a).runs :: Balanced(Next(s, a).runs[id], s.hubWired)
  {
  }

  lemma ActKeepsHeld(s: System, a: Act, instance: Instance)
    requires Sound(s) && Enabled(s, a) && instance in Next(s, a).importing
    ensures Held(Next(s, a), instance)
  {
    var s' := Next(s, a);
    if instance in s.importing {
      var id :| id in s.runs && Holds(s.runs[id].phase) && s.runs[id].instance == instance;
      assert s'.runs[id].instance == instance && Holds(s'.runs[id].phase);
    } else {
      assert s'.runs[a.id].instance == instance && Holds(s'.runs[a.id].phase);
    }
  }

  lemma ActKeepsExclusion(s: System, a: Act)
    requires Sound(s) && Enabled(s, a)
    ensures Exclusive(Next(s, a))
  {
    forall instance | instance in Next(s, a).importing ensures Held(Next(s, a), instance) {
      ActKeepsHeld(s, a, instance);
    }
  }

  /** A run keeps its instance and its kind, and one that was refused or is over never changes again. */
  predicate SameRun(run: Run, run': Run) {
    && run'.instance == run.instance && run'.kind == run.kind
    && (run.phase.Refused? || run.phase.Over? ==> run' == run)
  }

  ghost predicate Onward(runs: map<RunId, Run>, runs': map<RunId, Run>) {
    runs.Keys <= runs'.Keys && forall id <- runs :: SameRun(runs[id], runs'[id])
  }

  lemma OnwardAndOn(r: map<RunId, Run>, r': map<RunId, Run>, r'': map<RunId, Run>)
    requires Onward(r, r') && Onward(r', r'')
    ensures Onward(r, r'')
  {
    forall id | id in r ensures SameRun(r[id], r''[id]) {
      assert SameRun(r[id], r'[id]) && SameRun(r'[id], r''[id]);
    }
  }

  lemma ActGoesOnward(s: System, a: Act)
    requires Enabled(s, a)
    ensures Onward(s.runs, Next(s, a).runs)
  {
  }

  lemma ActIsSound(s: System, a: Act)
    requires Sound(s) && Enabled(s, a)
    ensures Sound(Next(s, a)) && Onward(s.runs, Next(s, a).runs)
  {
    ActKeepsBalance(s, a);
    ActKeepsExclusion(s, a);
    ActGoesOnward(s, a);
  }

  /** Over any interleaving of any number of runs. */
  lemma {:induction false} AlwaysSound(s: System, acts: seq<Act>)
    requires Sound(s) && Enact(s, acts)
    ensures Sound(Enacted(s, acts))
    decreases |acts|
  {
    if acts != [] {
      ActIsSound(s, acts[0]);
      AlwaysSound(Next(s, acts[0]), acts[1..]);
    }
  }

  lemma StartsSound(hubWired: bool)
    ensures Sound(System({}, map[], hubWired))
  {
  }

  /** From a process with no runs: exclusion and balance at every point of every interleaving. */
  lemma EveryInterleavingIsSound(hubWired: bool, acts: seq<Act>)
    requires Enact(System({}, map[], hubWired), acts)
    ensures Sound(Enacted(System({}, map[], hubWired), acts))
  {
    StartsSound(hubWired);
    AlwaysSound(System({}, map[], hubWired), acts);
  }

  /** A run that holds its claim is never refused, whatever it or any other run does next. */
  lemma HolderIsNeverRefused(s: System, a: Act, id: RunId)
    requires Sound(s) && Enabled(s, a) && id in s.runs && Holds(s.runs[id].phase)
    ensures id in Next(s, a).runs && Next(s, a).runs[id].phase != Refused
    ensures a == DeltaEnds(id, true) ==> Next(s, a).runs[id].phase == Importing(true) && Next(s, a).importing == s.importing
  {
  }

  /**
   * Why the escalation must not go back through the guard: a run for the walking
   * delta's instance, the delta itself included, is refused by it every time.
   */
  lemma EscalatingThroughTheGuardIsRefused(s: System, walking: RunId, again: RunId)
    requires Sound(s) && walking in s.runs && s.runs[walking].phase == Walking
    requires again in s.runs && s.runs[again].phase == Ready && s.runs[again].instance == s.runs[walking].instance
    ensures Next(s, Begin(again)).runs[again].phase == Refused
  {
  }

  /** A start is refused exactly when a run for the instance is holding the claim. */
  lemma RefusedExactlyWhenHeld(s: System, id: RunId)
    requires Sound(s) && id in s.runs && s.runs[id].phase == Ready
    ensures Next(s, Begin(id)).runs[id].phase == Refused <==> Held(s, s.runs[id].instance)
  {
  }

  /** What the acts of other runs leave alone. */
  ghost predicate Untouched(s: System, s': System, mine: RunId) {
    && Sound(s') && s'.hubWired == s.hubWired && Onward(s.runs, s'.runs)
    && (mine in s.runs ==> s'.runs[mine] == s.runs[mine])
  }

  lemma OtherLeavesMineAlone(s: System, a: Act, mine: RunId)
    requires Enabled(s, a) && mine in s.runs && a.id != mine
    ensures Onward(s.runs, Next(s, a).runs) && Next(s, a).runs[mine] == s.runs[mine] && Next(s, a).hubWired == s.hubWired
  {
    ActGoesOnward(s, a);
  }

  lemma {:induction false} OthersLeaveMineAlone(s: System, acts: seq<Act>, mine: RunId)
    requires Sound(s) && Enact(s, acts) && mine in s.runs
    requires forall a <- acts :: a.id != mine
    ensures Untouched(s, Enacted(s, acts), mine)
    decreases |acts|
  {
    if acts != [] {
      assert acts[0] in acts;
      ActIsSound(s, acts[0]);
      OtherLeavesMineAlone(s, acts[0], mine);
      OthersLeaveMineAlone(Next(s, acts[0]), acts[1..], mine);
      OnwardAndOn(s.runs, Next(s, acts[0]).runs, Enacted(s, acts).runs);
    }
  }

  // ---- the registry ----

  method UnusedId(used: set<RunId>) returns (id: RunId)
    ensures id !in used
  {
    id := 0;
    var todo := used;
    while todo != {}
      invariant forall k | k in used :: k in todo || k < id
      decreases todo
    {
      var k :| k in todo;
      todo := todo - {k};
      id := if k < id then id else k + 1;
    }
  }

  const RECONCILE_INTERVAL := 6 * 60 * 60

  /** An instance is due once its last completed sync is old enough; one that never synced is not. */
  predicate ReconcileDue(lastSync: Option<int>, now: int) {
    lastSync.Some? && now - lastSync.value >= RECONCILE_INTERVAL
  }

  /** A full import of the instance that has run its course, or was refused. */
  predicate Finished(run: Run, instance: Instance) {
    run.instance == instance && run.kind == FullImport && (run.phase.Refused? || run.phase.Over?)
  }

  /** One finished full import for each instance, in order, and no two the same. */
  ghost predicate RunsOf(runs: map<RunId, Run>, ids: seq<RunId>, due: seq<Instance>) {
    && |ids| == |due|
    && (forall i, j :: 0 <= i < j < |ids| ==> ids[i] != ids[j])
    && forall i :: 0 <= i < |ids| ==> ids[i] in runs && Finished(runs[ids[i]], due[i])
  }

  lemma RunsGoOn(runs: map<RunId, Run>, runs': map<RunId, Run>, ids: seq<RunId>, due: seq<Instance>, id: RunId, instance: Instance)
    requires RunsOf(runs, ids, due) && Onward(runs, runs')
    requires id !in runs && id in runs' && Finished(runs'[id], instance)
    ensures RunsOf(runs', ids + [id], due + [instance])
  {
    forall i | 0 <= i < |ids| ensures ids[i] in runs' && Finished(runs'[ids[i]], due[i]) {
      assert SameRun(runs[ids[i]], runs'[ids[i]]);
    }
  }

  /** The enabled instances due at their place in the listing, in order. */
  function Due(instances: seq<Instance>, enabled: Instance -> bool, lastSync: (nat, Instance) -> Option<int>, now: int): seq<Instance> {
    if instances == [] then []
    else
      var n := |instances| - 1;
      Due(instances[..n], enabled, lastSync, now) +
      if enabled(instances[n]) && ReconcileDue(lastSync(n, instances[n]), now) then [instances[n]] else []
  }

  /** What the sweep does with the k-th instance: it is taken if enabled and last synced six hours ago or longer, and not if it never was. */
  lemma DueMeans(instances: seq<Instance>, enabled: Instance -> bool, lastSync: (nat, Instance) -> Option<int>, now: int, k: nat)
    requires k < |instances|
    ensures Due(instances[..k + 1], enabled, lastSync, now) ==
              Due(instances[..k], enabled, lastSync, now)
              + if enabled(instances[k]) && exists t :: lastSync(k, instances[k]) == Some(t) && t + 21600 <= now
                then [instances[k]] else []
  {
    assert instances[..k + 1][..k] == instances[..k];
  }

  datatype Error = ImportInProgress | NotCatalogueSource | NotDeltaSource | NotArmed | Failed

  datatype DeltaEnd = Synced | DeltaFailed | Escalates

  type Others = (nat, RunId, map<Instance, bool>, map<RunId, Run>) -> (map<Instance, bool>, map<RunId, Run>)

  /** The other goroutines act by the same rules, and not on the run that asks. */
  ghost predicate Fair(others: Others, hubWired: bool) {
    forall n: nat, mine: RunId, g: map<Instance, bool>, r: map<RunId, Run> |
        Sound(System(g.Keys, r, hubWired)) && mine in r ::
      var after := others(n, mine, g, r);
      Untouched(System(g.Keys, r, hubWired), System(after.0.Keys, after.1, hubWired), mine)
  }

  class Registry {
    /** g.importing. */
    var importing: map<Instance, bool>
    var runs: map<RunId, Run>
    var tick: nat
    const hubWired: bool
    const armed: bool
    const importFails: nat -> bool
    const deltaEnds: nat -> DeltaEnd
    /** What the other goroutines have done to the guard by a given moment, given the run that asks. */
    const others: Others

    function Value(): System
      reads this
    {
      System(importing.Keys, runs, hubWired)
    }

    ghost predicate Valid()
      reads this
    {
      Sound(Value()) && Fair(others, hubWired)
    }

    constructor (hubWired: bool, armed: bool, importFails: nat -> bool, deltaEnds: nat -> DeltaEnd, others: Others)
      requires Fair(others, hubWired)
      ensures Valid() && importing == map[] && runs == map[]
    {
      this.hubWired, this.armed := hubWired, armed;
      this.importFails, this.deltaEnds, this.others := importFails, deltaEnds, others;
      importing, runs, tick := map[], map[], 0;
      new;
      assert Value() == System({}, map[], hubWired);
      StartsSound(hubWired);
    }

    /** The others run. */
    method Yield(mine: RunId)
      requires Valid() && mine in runs
      modifies this
      ensures Valid() && Onward(old(runs), runs) && runs[mine] == old(runs)[mine]
      ensures tick == old(tick) + 1
    {
      var (g, r) := others(tick, mine, importing, runs);
      assert Untouched(Value(), System(g.Keys, r, hubWired), mine);
      importing, runs := g, r;
      tick := tick + 1;
    }

    /** A run exists from the moment someone asks for it. */
    method Ask(instance: Instance, kind: Kind) returns (id: RunId)
      requires Valid()
      modifies this`runs
      ensures Valid() && id !in old(runs) && Value() == Next(old(Value()), Spawn(id, instance, kind)) && Onward(old(runs), runs)
    {
      id := UnusedId(runs.Keys);
      ActIsSound(Value(), Spawn(id, instance, kind));
      runs := runs[id := Run(instance, kind, Ready, 0, 0, 0)];
    }

    method BeginImport(id: RunId) returns (ok: bool)
      requires Valid() && id in runs && runs[id].phase == Ready
      modifies this`importing, this`runs
      ensures Valid() && Value() == Next(old(Value()), Begin(id)) && Onward(old(runs), runs)
      ensures ok <==> runs[id].phase != Refused
      ensures ok <==> old(runs[id].instance) !in old(importing)
      ensures !ok ==> importing == old(importing)
    {
      ActIsSound(Value(), Begin(id));
      var run := runs[id];
      if run.instance in importing {
        runs := runs[id := run.(phase := Refused)];
        return false;
      }
      importing := importing[run.instance := true];
      runs := runs[id := run.(phase := if run.kind == DeltaSync then Walking else Importing(false), claims := run.claims + 1)];
      assert Value() == Next(old(Value()), Begin(id));
      ok := true;
    }

    method EndImport(id: RunId)
      requires Valid() && id in runs && runs[id].phase.Ending?
      modifies this`importing, this`runs
      ensures Valid() && Value() == Next(old(Value()), Release(id)) && Onward(old(runs), runs)
    {
      ActIsSound(Value(), Release(id));
      var run := runs[id];
      var left := importing - {run.instance};
      assert left.Keys == importing.Keys - {run.instance};
      importing := left;
      runs := runs[id := run.(phase := Over(run.phase.stopped), releases := run.releases + 1)];
      assert Value() == Next(old(Value()), Release(id));
    }

    /** publishImportStopped, and only on a hub. */
    method PublishImportStopped(run: Run) returns (after: Run)
      ensures after == run.(frames := run.frames + if hubWired then 1 else 0)
    {
      after := if hubWired then run.(frames := run.frames + 1) else run;
    }

    /** The end of a full import under the claim, with its terminal frame. */
    method ImportDone(id: RunId, failed: bool)
      requires Valid() && id in runs && runs[id].phase.Importing?
      modifies this`runs
      ensures Valid() && Value() == Next(old(Value()), ImportEnds(id, !failed)) && Onward(old(runs), runs)
    {
      ActIsSound(Value(), ImportEnds(id, !failed));
      var run := runs[id];
      if failed {
        run := PublishImportStopped(run);
      }
      runs := runs[id := run.(phase := Ending(failed))];
    }

    method WalkDone(id: RunId, escalates: bool)
      requires Valid() && id in runs && runs[id].phase == Walking
      modifies this`runs
      ensures Valid() && Value() == Next(old(Value()), DeltaEnds(id, escalates)) && Onward(old(runs), runs)
    {
      ActIsSound(Value(), DeltaEnds(id, escalates));
      runs := runs[id := runs[id].(phase := if escalates then Importing(true) else Ending(false))];
    }

    /** fullImportLocked: the guard is already held, and stays held. */
    method FullImportLocked(id: RunId) returns (r: Result<(), Error>)
      requires Valid() && id in runs && runs[id].phase.Importing?
      modifies this
      ensures Valid() && Onward(old(runs), runs)
      ensures runs[id].phase == Ending(r.Err?) && (r.Err? ==> r.error == Failed)
      ensures tick == old(tick) + 1 && (r.Err? <==> importFails(tick))
    {
      Yield(id);
      var failed := importFails(tick);
      ImportDone(id, failed);
      r := if failed then Err(Failed) else Ok(());
    }

    /** A delta begun at `from` fails: it fails itself, or it escalates and the import fails. */
    predicate DeltaFails(from: nat) {
      match deltaEnds(from + 1)
      case Synced => false
      case DeltaFailed => true
      case Escalates => importFails(from + 2)
    }

    /** The walk itself. */
    method Walk(id: RunId) returns (end: DeltaEnd)
      requires Valid() && id in runs && runs[id].phase == Walking
      modifies this
      ensures Valid() && Onward(old(runs), runs) && tick == old(tick) + 1 && end == deltaEnds(tick)
      ensures runs[id].phase == if end == Escalates then Importing(true) else Ending(false)
    {
      Yield(id);
      end := deltaEnds(tick);
      WalkDone(id, end == Escalates);
    }

    /** deltaSyncLocked: an escalation continues under the claim already held. */
    method DeltaSyncLocked(id: RunId) returns (r: Result<(), Error>, escalated: bool)
      requires Valid() && id in runs && runs[id].phase == Walking
      modifies this
      ensures Valid() && Onward(old(runs), runs)
      ensures runs[id].phase == Ending(escalated && r.Err?) && (r.Err? ==> r.error == Failed)
      ensures escalated <==> deltaEnds(old(tick) + 1) == Escalates
      ensures r.Err? <==> DeltaFails(old(tick))
    {
      var end := Walk(id);
      escalated := end == Escalates;
      if escalated {
        r := FullImportLocked(id);
      } else {
        r := if end == DeltaFailed then Err(Failed) else Ok(());
      }
    }

    /** The deferred release, whenever it comes. */
    method Finish(id: RunId)
      requires Valid() && id in runs && runs[id].phase.Ending?
      modifies this
      ensures Valid() && Onward(old(runs), runs)
      ensures runs[id].phase == Over(old(runs)[id].phase.stopped)
      ensures runs[id].releases == 1 && runs[id].frames == if hubWired && old(runs)[id].phase.stopped then 1 else 0
    {
      Yield(id);
      EndImport(id);
      assert Balanced(runs[id], hubWired);
    }

    /**
     * Everything after the claim: the goroutines of StartImport and
     * StartDeltaSync, and the rest of the blocking calls. Whatever happens the
     * claim is released once, and a stopped import has published its one frame.
     */
    method RunClaimed(id: RunId) returns (r: Result<(), Error>, imported: bool)
      requires Valid() && id in runs && (runs[id].phase == Walking || runs[id].phase == Importing(false))
      modifies this
      ensures Valid() && Onward(old(runs), runs)
      ensures old(runs[id].phase).Importing? ==> imported
      ensures runs[id].phase == Over(imported && r.Err?) && (r.Err? ==> r.error == Failed)
      ensures imported <==> old(runs[id].phase).Importing? || deltaEnds(old(tick) + 1) == Escalates
      ensures r.Err? <==> if old(runs[id].phase).Importing? then importFails(old(tick) + 1) else DeltaFails(old(tick))
      ensures runs[id].releases == 1 && runs[id].frames == if hubWired && imported && r.Err? then 1 else 0
    {
      if runs[id].phase == Walking {
        r, imported := DeltaSyncLocked(id);
      } else {
        r := FullImportLocked(id);
        imported := true;
      }
      Finish(id);
    }

    method Claim(instance: Instance, kind: Kind) returns (id: RunId, ok: bool)
      requires Valid()
      modifies this`importing, this`runs
      ensures Valid() && id !in old(runs) && id in runs && Onward(old(runs), runs)
      ensures runs[id].instance == instance && runs[id].kind == kind
      ensures ok <==> instance !in old(importing)
      ensures runs[id].phase == if !ok then Refused else if kind == DeltaSync then Walking else Importing(false)
    {
      id := Ask(instance, kind);
      ok := BeginImport(id);
    }

    /** FullImport and DeltaSync: claim, run, release; the refusal is the only outcome that claims nothing. */
    method RunNow(instance: Instance, kind: Kind) returns (id: RunId, r: Result<(), Error>)
      requires Valid()
      modifies this
      ensures Valid() && id !in old(runs) && id in runs && Onward(old(runs), runs)
      ensures runs[id].instance == instance && runs[id].kind == kind
      ensures r == Err(ImportInProgress) <==> instance in old(importing)
      ensures r == Err(ImportInProgress) ==> runs[id].phase == Refused && runs[id].claims == runs[id].frames == 0
      ensures r != Err(ImportInProgress) ==> runs[id].phase.Over? && runs[id].claims == runs[id].releases == 1
      ensures kind == FullImport && hubWired ==> runs[id].frames == if r == Err(Failed) then 1 else 0
      ensures r.Err? ==> r.error in {ImportInProgress, Failed}
      ensures r == Err(Failed) <==>
                instance !in old(importing) && if kind == FullImport then importFails(old(tick) + 1) else DeltaFails(old(tick))
    {
      var ok;
      id, ok := Claim(instance, kind);
      if !ok {
        assert Balanced(runs[id], hubWired);
        return id, Err(ImportInProgress);
      }
      var imported;
      r, imported := RunClaimed(id);
    }

    /** StartImport and StartDeltaSync: every refusal before the claim, then the claim, synchronously. */
    method Start(instance: Instance, kind: Kind, catalogue: bool, delta: bool) returns (id: RunId, r: Result<(), Error>)
      requires Valid()
      modifies this`importing, this`runs
      ensures Valid() && id !in old(runs) && id in runs && Onward(old(runs), runs)
      ensures runs[id].instance == instance && runs[id].kind == kind
      ensures r.Ok? <==> catalogue && (kind == DeltaSync ==> delta) && armed && instance !in old(importing)
      ensures r == Err(NotCatalogueSource) <==> !catalogue
      ensures r == Err(NotDeltaSource) <==> catalogue && kind == DeltaSync && !delta
      ensures r == Err(NotArmed) <==> catalogue && (kind == DeltaSync ==> delta) && !armed
      ensures r == Err(ImportInProgress) <==> catalogue && (kind == DeltaSync ==> delta) && armed && instance in old(importing)
      ensures r.Ok? ==> runs[id].phase == (if kind == DeltaSync then Walking else Importing(false))
      ensures r.Err? ==> runs[id].phase == Refused && importing == old(importing)
    {
      id := Ask(instance, kind);
      if !catalogue {
        r := Refuse(id, NotCatalogueSource);
      } else if kind == DeltaSync && !delta {
        r := Refuse(id, NotDeltaSource);
      } else if !armed {
        r := Refuse(id, NotArmed);
      } else {
        var ok := BeginImport(id);
        r := if ok then Ok(()) else Err(ImportInProgress);
      }
    }

    method Refuse(id: RunId, why: Error) returns (r: Result<(), Error>)
      requires Valid() && id in runs && runs[id].phase == Ready
      modifies this`runs
      ensures Valid() && r == Err(why) && Value() == Next(old(Value()), Decline(id)) && Onward(old(runs), runs)
    {
      ActIsSound(Value(), Decline(id));
      runs := runs[id := runs[id].(phase := Refused)];
      r := Err(why);
    }

    /** bootstrapImport: only an instance never imported, and a run in progress makes it stand down. */
    method BootstrapImport(instance: Instance, neverImported: bool) returns (asked: Option<RunId>)
      requires Valid()
      modifies this
      ensures Valid() && Onward(old(runs), runs)
      ensures asked.Some? <==> neverImported
      ensures asked.Some? ==> asked.value in runs && asked.value !in old(runs) && Finished(runs[asked.value], instance)
      ensures asked.Some? ==> (runs[asked.value].phase.Over? <==> instance !in old(importing))
    {
      if !neverImported {
        return None;
      }
      var id, r := RunNow(instance, FullImport);
      asked := Some(id);
    }

    /**
     * reconcileOnce: the enabled instances that are due when their turn comes,
     * in the order of the listing, one at a time, until the context is done. Each
     * gets one full import of its own through the shared guard, which is over or
     * was refused before the next is asked for.
     */
    method ReconcileOnce(instances: seq<Instance>, enabled: Instance -> bool, lastSync: (nat, Instance) -> Option<int>,
                         cancelled: nat -> bool, now: int)
      returns (ids: seq<RunId>, stop: nat)
      requires Valid()
      modifies this
      ensures Valid() && Onward(old(runs), runs)
      ensures stop <= |instances| && (stop < |instances| ==> cancelled(stop)) && forall k :: 0 <= k < stop ==> !cancelled(k)
      ensures RunsOf(runs, ids, Due(instances[..stop], enabled, lastSync, now))
      ensures forall id <- ids :: id !in old(runs)
    {
      ids, stop := [], 0;
      while stop < |instances| && !cancelled(stop)
        invariant Valid() && Onward(old(runs), runs) && stop <= |instances|
        invariant forall k :: 0 <= k < stop ==> !cancelled(k)
        invariant RunsOf(runs, ids, Due(instances[..stop], enabled, lastSync, now))
        invariant forall id <- ids :: id !in old(runs)
      {
        assert instances[..stop + 1][..stop] == instances[..stop];
        if enabled(instances[stop]) && ReconcileDue(lastSync(stop, instances[stop]), now) {
          ghost var before := runs;
          var id, r := RunNow(instances[stop], FullImport);
          RunsGoOn(before, runs, ids, Due(instances[..stop], enabled, lastSync, now), id, instances[stop]);
          ids := ids + [id];
        }
        stop := stop + 1;
      }
    }
  }
}
