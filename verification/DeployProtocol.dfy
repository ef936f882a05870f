/** The deployment protocol of one managed application as a state machine: the release directories,
    the unit file, what systemd has loaded and started, the pending marker and the committed row.
    Every step is one effect the panel (or systemd) has on that state; a crash may come between any
    two of them. */
module DeployProtocol {
  import opened Wrappers
  import opened UnitFile

  datatype Phase =
    | Idle
      // A release directory exists; nothing refers to it yet.
    | Building(staged: string)
      // The marker is written; `healthy` once a health check passed on the new unit.
    | Switching(staged: string, was: Unit, healthy: bool)
      // The row names the new release.
    | Committed(staged: string, previous: string)
    | Restoring(staged: string, was: Unit)
      // The old unit is back and passed a health check.
    | Restored(staged: string, was: Unit)
    | Reconciling
      // The application's settings are being changed outside a deployment.
    | Putting(before: Option<Unit>, config: Config)

  datatype Host = Host(disk: set<string>, unit: Option<Unit>, loaded: Option<Unit>, running: Option<Unit>,
                       pending: Option<string>, row: Option<Config>, phase: Phase)

  datatype Action =
    | Stage(release: string)
    | Drop(gone: bool)
    | Mark
    | MarkFailed
    | WriteNew
    | Reload
    | Service(now: Option<Unit>)
    | Healthy
    | Abort
    | Commit
    | DiscardPrevious(gone: bool)
    | WriteOld
    | RestoreDone
    | RestoreFailed
    | DiscardStaged(gone: bool)
    | Finish(unmarked: bool)
    | BeginReconcile
    | WriteExpected
    | Settle
    | GiveUp
    | BeginPut(settings: Config)
    | PutWrite
    | PutCommit
    | PutUndo
    | PutAbandon
    | Crash

  predicate SiteOk(s: Site) {
    "" !in s.node && "" !in s.python
  }

  function BinaryFor(s: Site, c: Config): string {
    SelectedBinary(Candidates(s, c.runtime), c.interpreter)
  }

  /** The interpreter is recorded when none was asked for. */
  function Recorded(s: Site, c: Config): Config {
    c.(interpreter := if c.interpreter == "" then BinaryFor(s, c) else c.interpreter)
  }

  /** The settings ask a Git release to run something else. */
  predicate Moves(s: Site, row: Option<Config>, settings: Config) {
    var c := Recorded(s, settings);
    row.Some? && row.value.release != "" && (row.value.runtime != c.runtime || row.value.interpreter != c.interpreter
                                             || row.value.entrypoint != c.entrypoint)
  }

  /** The row that changed settings ask for: a release is kept as long as it runs the same thing. */
  function Accepted(s: Site, row: Option<Config>, settings: Config): Config {
    if row.Some? && row.value.release != "" && !Moves(s, row, settings)
    then Recorded(s, settings).(release := row.value.release)
    else Recorded(s, settings)
  }

  /** Put renders the unit with the interpreter it found before recording it: the same unit. */
  lemma AcceptedExpected(s: Site, row: Option<Config>, settings: Config)
    requires SiteOk(s) && BinaryFor(s, settings) != ""
    ensures var c := Accepted(s, row, settings);
            UnitFor(s, c, BinaryFor(s, settings)) == Expected(s, c) && BinaryFor(s, c) == BinaryFor(s, settings)
  {
    SelectedBinaryStable(Candidates(s, settings.runtime), settings.interpreter);
  }

  /** The unit a deployment of `release` switches to. */
  function Target(s: Site, c: Config, release: string): Unit {
    UnitFor(s, c.(release := release), BinaryFor(s, c))
  }

  /** A discard that reports an error may have removed the directory all the same. */
  function Without(disk: set<string>, release: string, gone: bool): set<string> {
    if gone then disk - {release} else disk
  }

  predicate Step(s: Site, h: Host, a: Action, h': Host) {
    match a
    case Stage(r) =>
      h.phase.Idle? && h.pending.None? && h.row.Some? && r != "" && r !in h.disk
      && h' == h.(disk := h.disk + {r}, phase := Building(r))
    case Drop(gone) =>
      h.phase.Building? && h' == h.(disk := Without(h.disk, h.phase.staged, gone), phase := Idle)
    case Mark =>
      h.phase.Building? && h.unit.Some? && h.row.Some? && BinaryFor(s, h.row.value) != ""
      && h' == h.(pending := Some(h.phase.staged), phase := Switching(h.phase.staged, h.unit.value, false))
    case MarkFailed =>
      h.phase.Building? && h.unit.Some? && h.row.Some? && BinaryFor(s, h.row.value) != ""
      && h' == h.(phase := Restoring(h.phase.staged, h.unit.value))
    case WriteNew =>
      h.phase.Switching? && h.row.Some? && h' == h.(unit := Some(Target(s, h.row.value, h.phase.staged)))
    case Reload => h' == h.(loaded := h.unit)
    case Service(now) => now in {None, h.loaded, h.running} && h' == h.(running := now)
    case Healthy =>
      h.phase.Switching? && h.row.Some?
      && h.unit == h.loaded == h.running == Some(Target(s, h.row.value, h.phase.staged))
      && h' == h.(phase := h.phase.(healthy := true))
    case Abort =>
      h.phase.Switching? && h' == h.(phase := Restoring(h.phase.staged, h.phase.was))
    case Commit =>
      h.phase.Switching? && h.phase.healthy && h.row.Some?
      && h' == h.(row := Some(Deployed(h.row.value, h.phase.staged, BinaryFor(s, h.row.value))),
                  phase := Committed(h.phase.staged, h.row.value.release))
    case DiscardPrevious(gone) =>
      h.phase.Committed? && h.phase.previous != "" && h.phase.previous != h.phase.staged
      && h' == h.(disk := Without(h.disk, h.phase.previous, gone))
    case WriteOld => h.phase.Restoring? && h' == h.(unit := Some(h.phase.was))
    case RestoreDone =>
      h.phase.Restoring? && h.unit == h.loaded == h.running == Some(h.phase.was)
      && h' == h.(phase := Restored(h.phase.staged, h.phase.was))
    case RestoreFailed => h.phase.Restoring? && h' == h.(phase := Idle)
    case DiscardStaged(gone) =>
      h.phase.Restored? && h' == h.(disk := Without(h.disk, h.phase.staged, gone))
    case Finish(unmarked) =>
      (h.phase.Committed? || h.phase.Restored?)
      && h' == h.(phase := Idle, pending := if unmarked then None else h.pending)
    case BeginReconcile => h.phase.Idle? && h.row.Some? && h' == h.(phase := Reconciling)
    case WriteExpected =>
      h.phase.Reconciling? && h.row.Some? && BinaryFor(s, h.row.value) != ""
      && h' == h.(unit := Some(Expected(s, h.row.value)))
    case Settle =>
      h.phase.Reconciling? && UnitAgrees(s, h) && h' == h.(phase := Idle, pending := None)
    case GiveUp => h.phase.Reconciling? && h' == h.(phase := Idle)
    case BeginPut(c) =>
      h.phase.Idle? && (c.release == "" || (h.row.Some? && c.release == h.row.value.release)) && BinaryFor(s, c) != ""
      && h' == h.(phase := Putting(h.unit, c))
    case PutWrite =>
      h.phase.Putting? && h' == h.(unit := Some(Expected(s, h.phase.config)))
    case PutCommit =>
      h.phase.Putting? && h.unit == Some(Expected(s, h.phase.config))
      && h' == h.(row := Some(h.phase.config), phase := Idle)
    case PutUndo =>
      h.phase.Putting? && h' == h.(unit := h.phase.before, phase := Idle)
    case PutAbandon => h.phase.Putting? && h' == h.(phase := Idle)
    case Crash => h' == h.(phase := Idle)
  }

  // ---- What every step keeps ----

  predicate OnDisk(h: Host, release: string) {
    release == "" || release in h.disk
  }

  predicate UnitOnDisk(h: Host, u: Option<Unit>) {
    u.Some? ==> OnDisk(h, u.value.release)
  }

  /** Everything that names a release (the committed row, the unit file, the definition systemd has
      loaded and the process it started) names one that exists. */
  predicate NothingDangles(h: Host) {
    (h.row.Some? ==> OnDisk(h, h.row.value.release))
    && UnitOnDisk(h, h.unit) && UnitOnDisk(h, h.loaded) && UnitOnDisk(h, h.running)
  }

  /** The unit file names the committed release and starts its command. */
  predicate UnitAgrees(s: Site, h: Host) {
    h.row.Some? ==> h.unit.Some? && Agrees(h.unit.value, Expected(s, h.row.value))
  }

  /** Nothing for the reconciler to do. */
  predicate Settled(s: Site, h: Host) {
    h.row.Some? && h.pending.None? && UnitAgrees(s, h)
  }

  predicate Names(u: Option<Unit>, release: string) {
    u.Some? && u.value.release == release
  }

  /** No reference to a freshly staged release. */
  predicate Unreferenced(h: Host, r: string) {
    !Names(h.unit, r) && !Names(h.loaded, r) && !Names(h.running, r) && h.row.Some? && h.row.value.release != r
  }

  /** The unit a rollback would put back is a sound one. */
  predicate OldOk(h: Host, r: string, was: Unit) {
    was.release != r && OnDisk(h, was.release) && h.row.Some? && h.row.value.release != r
  }

  predicate PhaseInv(s: Site, h: Host) {
    match h.phase
    case Idle => true
    case Building(r) =>
      r != "" && r in h.disk && Unreferenced(h, r) && h.pending.None?
    case Switching(r, was, healthy) =>
      r != "" && r in h.disk && OldOk(h, r, was) && h.pending == Some(r) && BinaryFor(s, h.row.value) != ""
      && h.unit in {Some(was), Some(Target(s, h.row.value, r))}
      && (healthy ==> h.unit == h.loaded == Some(Target(s, h.row.value, r)) && h.running in {None, h.loaded})
    case Committed(r, previous) =>
      r != "" && r in h.disk && h.row.Some? && h.row.value.release == r && UnitAgrees(s, h) && !Names(h.unit, previous)
      && h.loaded == h.unit && h.running in {None, h.loaded} && previous != r && h.pending == Some(r)
    case Restoring(r, was) =>
      r != "" && r in h.disk && OldOk(h, r, was) && h.pending in {None, Some(r)}
      && h.unit in {Some(was), Some(Target(s, h.row.value, r))} && (h.pending.None? ==> h.unit == Some(was))
    case Restored(r, was) =>
      r != "" && OldOk(h, r, was) && h.unit == h.loaded == Some(was) && h.running in {None, h.loaded}
      && h.pending in {None, Some(r)}
    case Reconciling => h.row.Some?
    case Putting(before, c) => UnitOnDisk(h, before) && OnDisk(h, c.release)
  }

  predicate Inv(s: Site, h: Host) {
    SiteOk(s) && NothingDangles(h) && PhaseInv(s, h)
  }

  lemma StepKeepsPhase(s: Site, h: Host, a: Action, h': Host)
    requires Inv(s, h) && Step(s, h, a, h')
    ensures PhaseInv(s, h')
  {
    if a.Commit? {
      DeployedUnitIsExpected(s, h.row.value, h.phase.staged);
    }
  }

  predicate OfDeployment(a: Action) {
    a.Stage? || a.Drop? || a.Mark? || a.MarkFailed? || a.WriteNew? || a.Commit? || a.WriteOld? || a.Finish?
  }

  lemma DeploymentKeepsReferences(s: Site, h: Host, a: Action, h': Host)
    requires Inv(s, h) && Step(s, h, a, h') && OfDeployment(a)
    ensures NothingDangles(h')
  {
  }

  lemma StepKeepsReferences(s: Site, h: Host, a: Action, h': Host)
    requires Inv(s, h) && Step(s, h, a, h')
    ensures NothingDangles(h')
  {
    if OfDeployment(a) {
      DeploymentKeepsReferences(s, h, a, h');
    }
  }

  lemma StepKeepsInv(s: Site, h: Host, a: Action, h': Host)
    requires Inv(s, h) && Step(s, h, a, h')
    ensures Inv(s, h')
  {
    StepKeepsReferences(s, h, a, h');
    StepKeepsPhase(s, h, a, h');
  }

  // ---- Over whole runs ----

  ghost predicate Next(s: Site, h: Host, h': Host) {
    exists a :: Step(s, h, a, h')
  }

  /** Consecutive states of the machine, with crashes, failures and restarts anywhere. */
  ghost predicate Run(s: Site, hs: seq<Host>) {
    |hs| > 0 && forall i: nat | i + 1 < |hs| :: Link(s, hs, i)
  }

  ghost predicate Link(s: Site, hs: seq<Host>, i: nat)
    requires i + 1 < |hs|
  {
    Next(s, hs[i], hs[i + 1])
  }

  lemma RunExtends(s: Site, hs: seq<Host>, a: Action, h': Host)
    requires Run(s, hs) && Step(s, hs[|hs| - 1], a, h')
    ensures Run(s, hs + [h'])
  {
    var more := hs + [h'];
    forall i: nat | i + 1 < |more| ensures Link(s, more, i) {
      if i + 1 < |hs| {
        assert Link(s, hs, i) && more[i] == hs[i] && more[i + 1] == hs[i + 1];
      }
    }
  }

  ghost predicate Reaches(s: Site, h: Host, h': Host) {
    exists hs: seq<Host> :: Run(s, hs) && hs[0] == h && hs[|hs| - 1] == h'
  }

  lemma ReachesSelf(s: Site, h: Host)
    ensures Reaches(s, h, h)
  {
    assert Run(s, [h]);
  }

  lemma ReachesStep(s: Site, h: Host, mid: Host, a: Action, h': Host)
    requires Reaches(s, h, mid) && Step(s, mid, a, h')
    ensures Reaches(s, h, h')
  {
    var hs: seq<Host> :| Run(s, hs) && hs[0] == h && hs[|hs| - 1] == mid;
    RunExtends(s, hs, a, h');
    var more := hs + [h'];
    assert more[0] == h && more[|more| - 1] == h';
  }

  /** A server on which the application has never been set up. */
  predicate Fresh(h: Host) {
    h.row.None? && h.unit.None? && h.loaded.None? && h.running.None? && h.pending.None? && h.phase.Idle?
  }

  lemma {:induction false} RunKeepsInv(s: Site, hs: seq<Host>, i: nat)
    requires Run(s, hs) && Inv(s, hs[0]) && i < |hs|
    ensures Inv(s, hs[i])
  {
    if i > 0 {
      RunKeepsInv(s, hs, i - 1);
      assert Link(s, hs, i - 1);
      var a :| Step(s, hs[i - 1], a, hs[i]);
      StepKeepsInv(s, hs[i - 1], a, hs[i]);
    }
  }

  /** In every state of every run, the committed row, the unit file, the loaded definition and the
      running process each name a release directory that exists. */
  lemma NothingEverDangles(s: Site, hs: seq<Host>, i: nat)
    requires SiteOk(s) && Run(s, hs) && Fresh(hs[0]) && i < |hs|
    ensures NothingDangles(hs[i])
  {
    RunKeepsInv(s, hs, i);
  }

  lemma StepDiscardsUnnamed(s: Site, h: Host, a: Action, h': Host, r: string)
    requires Inv(s, h) && Step(s, h, a, h') && r in h.disk && r !in h'.disk
    ensures Unreferenced(h, r) && Unreferenced(h', r)
  {
    assert a.Drop? || a.DiscardPrevious? || a.DiscardStaged?;
  }

  /** A directory that disappears in a step was named by none of the four, before or after. */
  lemma DiscardsOnlyUnnamed(s: Site, hs: seq<Host>, i: nat, r: string)
    requires SiteOk(s) && Run(s, hs) && Fresh(hs[0]) && 0 < i < |hs|
    requires r in hs[i - 1].disk && r !in hs[i].disk
    ensures Unreferenced(hs[i - 1], r) && Unreferenced(hs[i], r)
  {
    RunKeepsInv(s, hs, i - 1);
    assert Link(s, hs, i - 1);
    var a :| Step(s, hs[i - 1], a, hs[i]);
    StepDiscardsUnnamed(s, hs[i - 1], a, hs[i], r);
  }

  // ---- What a missing marker tells ----

  /** Without a marker, and outside a settings change, the unit agrees with the row. */
  predicate MarkerTells(s: Site, h: Host) {
    h.pending.None? && !h.phase.Putting? ==> UnitAgrees(s, h)
  }

  /** So it will if the step under way ends as it should: what it would put back agrees with the row. */
  predicate Telling(s: Site, h: Host) {
    MarkerTells(s, h)
    && match h.phase
       case Switching(_, was, _) => h.row.Some? && Agrees(was, Expected(s, h.row.value))
       case Restoring(_, was) => h.row.Some? && Agrees(was, Expected(s, h.row.value))
       case Restored(_, was) => h.row.Some? && Agrees(was, Expected(s, h.row.value))
       case Putting(before, c) =>
         h.unit in {before, Some(Expected(s, c))}
         && (h.pending.None? && h.row.Some? ==> before.Some? && Agrees(before.value, Expected(s, h.row.value)))
       case _ => true
  }

  /** A settings change ends with its unit in place and its row not written, without a marker, and the
      new settings ask for another directory or command than the row. */
  predicate CutShort(s: Site, h: Host, h': Host) {
    h.phase.Putting? && h'.phase.Idle? && h'.pending.None? && h'.row.Some?
    && h'.unit == Some(Expected(s, h.phase.config)) && !Agrees(Expected(s, h.phase.config), Expected(s, h'.row.value))
  }

  lemma DeploymentKeepsTelling(s: Site, h: Host, a: Action, h': Host)
    requires Inv(s, h) && Telling(s, h) && Step(s, h, a, h') && OfDeployment(a)
    ensures Telling(s, h')
  {
    if a.Commit? {
      DeployedUnitIsExpected(s, h.row.value, h.phase.staged);
    }
  }

  lemma StepKeepsTelling(s: Site, h: Host, a: Action, h': Host)
    requires Inv(s, h) && Telling(s, h) && Step(s, h, a, h') && !CutShort(s, h, h')
    ensures Telling(s, h')
  {
    if OfDeployment(a) {
      DeploymentKeepsTelling(s, h, a, h');
    }
  }

  predicate NoneCutShort(s: Site, hs: seq<Host>) {
    forall i: nat | i + 1 < |hs| :: !CutShort(s, hs[i], hs[i + 1])
  }

  lemma {:induction false} RunKeepsTelling(s: Site, hs: seq<Host>, i: nat)
    requires Run(s, hs) && Inv(s, hs[0]) && Telling(s, hs[0]) && NoneCutShort(s, hs) && i < |hs|
    ensures Telling(s, hs[i])
  {
    if i > 0 {
      RunKeepsTelling(s, hs, i - 1);
      RunKeepsInv(s, hs, i - 1);
      assert Link(s, hs, i - 1);
      var a :| Step(s, hs[i - 1], a, hs[i]);
      assert !CutShort(s, hs[i - 1], hs[i - 1 + 1]);
      StepKeepsTelling(s, hs[i - 1], a, hs[i]);
    }
  }

  /** Throughout a run a missing marker means, whenever no settings change is under way, that the unit
      file agrees with the committed row, if and only if no change that moves the application is cut
      short between its unit and its row. */
  lemma MarkerTellsExactly(s: Site, hs: seq<Host>)
    requires SiteOk(s) && Run(s, hs) && Fresh(hs[0])
    ensures (forall i: nat | i < |hs| :: MarkerTells(s, hs[i])) <==> NoneCutShort(s, hs)
  {
    if NoneCutShort(s, hs) {
      forall i: nat | i < |hs| ensures MarkerTells(s, hs[i]) {
        RunKeepsTelling(s, hs, i);
      }
    } else {
      var i: nat :| i + 1 < |hs| && CutShort(s, hs[i], hs[i + 1]);
      assert !MarkerTells(s, hs[i + 1]);
    }
  }

  /** Changing the settings writes the unit before the row and leaves no marker: cut short there, a
      missing marker no longer means agreement. The reconciler's own comparison is what repairs it. */
  lemma InterruptedPutDisagrees(s: Site, c: Config, d: Config)
    requires SiteOk(s) && c.release == d.release == "" && BinaryFor(s, c) != "" && BinaryFor(s, d) != ""
    requires !Agrees(Expected(s, d), Expected(s, c))
    ensures exists h, h' ::
      Fresh(h) && Reaches(s, h, h') && h'.phase.Idle? && h'.pending.None? && !UnitAgrees(s, h')
  {
    var h0 := Host({}, None, None, None, None, None, Idle);
    var h1 := h0.(phase := Putting(None, c));
    var h2 := h1.(unit := Some(Expected(s, c)));
    var h3 := h2.(row := Some(c), phase := Idle);
    var h4 := h3.(phase := Putting(h3.unit, d));
    var h5 := h4.(unit := Some(Expected(s, d)));
    var h6 := h5.(phase := Idle);
    ReachesSelf(s, h0);
    ReachesStep(s, h0, h0, BeginPut(c), h1);
    ReachesStep(s, h0, h1, PutWrite, h2);
    ReachesStep(s, h0, h2, PutCommit, h3);
    ReachesStep(s, h0, h3, BeginPut(d), h4);
    ReachesStep(s, h0, h4, PutWrite, h5);
    ReachesStep(s, h0, h5, Crash, h6);
  }

  /** A deployment that fails without a rollback need not leave a marker: when writing it is what failed
      and the restart of the old unit fails too, only the staged directory is left behind. */
  lemma FailureWithoutMarker(s: Site, h: Host, r: string)
    requires h.phase.Idle? && h.pending.None? && h.unit.Some? && h.row.Some? && BinaryFor(s, h.row.value) != ""
    requires r != "" && r !in h.disk
    ensures Reaches(s, h, h.(disk := h.disk + {r}))
  {
    var h1 := h.(disk := h.disk + {r}, phase := Building(r));
    var h2 := h1.(phase := Restoring(r, h.unit.value));
    ReachesSelf(s, h);
    ReachesStep(s, h, h, Stage(r), h1);
    ReachesStep(s, h, h1, MarkFailed, h2);
    ReachesStep(s, h, h2, RestoreFailed, h2.(phase := Idle));
  }

  /** The same server with the committed row's unit in place, loaded and started, and no marker. */
  function Repaired(s: Site, h: Host): Host
    requires h.row.Some?
  {
    var e := Some(Expected(s, h.row.value));
    h.(unit := e, loaded := e, running := e, pending := None, phase := Idle)
  }

  /** From any state of any run, a crash and an undisturbed reconciliation bring the committed
      release back, whatever the crash interrupted, as long as an interpreter is found for it. */
  lemma CrashCanBeRepaired(s: Site, h: Host)
    requires Inv(s, h) && h.row.Some? && BinaryFor(s, h.row.value) != ""
    ensures Reaches(s, h, Repaired(s, h)) && Inv(s, Repaired(s, h))
  {
    var e := Some(Expected(s, h.row.value));
    var h1 := h.(phase := Idle);
    var h2 := h1.(phase := Reconciling);
    var h3 := h2.(unit := e);
    var h4 := h3.(loaded := e);
    var h5 := h4.(running := e);
    ReachesSelf(s, h);
    ReachesStep(s, h, h, Crash, h1);
    ReachesStep(s, h, h1, BeginReconcile, h2);
    ReachesStep(s, h, h2, WriteExpected, h3);
    ReachesStep(s, h, h3, Reload, h4);
    ReachesStep(s, h, h4, Service(e), h5);
    ReachesStep(s, h, h5, Settle, Repaired(s, h));
  }
}
