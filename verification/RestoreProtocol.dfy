/** Restore jobs: a bounded queue, two run slots, cancellation, a recovery archive taken before any
    change, rollback, and recovery at start-up. A state machine over many jobs at once; a crash may
    come between any two steps. */
module RestoreProtocol {
  import opened Wrappers
  import opened TenantContent
  import opened Runs

  const QUEUE_SIZE := 16
  const SLOTS := 2

  datatype Status = Queued | Running | Success | Failed | Cancelled | RolledBack

  /** A row of backup_restore_jobs. `recovery` is what the named recovery file holds; `before` records
      the tenant as others left it before it was archived, `after` the tenant when the job ended. */
  datatype Job = Job(domain: nat, scope: Scope, backup: Content, status: Status, recovery: Option<Content>,
                     before: Content, after: Option<Content>)

  predicate Active(status: Status) {
    status.Queued? || status.Running?
  }

  /** Where the goroutine of a job stands; `Leaving` has written its last status. */
  datatype Stage = Waiting | Preparing | Archived(recovery: Content) | Applying | Undoing | Leaving(slot: bool)

  datatype Worker = Worker(stage: Stage, cancelled: bool)

  predicate HoldsSlot(stage: Stage) {
    if stage.Leaving? then stage.slot else !stage.Waiting?
  }

  datatype System = System(registered: map<nat, set<string>>, tenants: map<nat, Content>, jobs: map<nat, Job>,
                           workers: map<nat, Worker>, queue: nat, slots: nat, up: bool)

  datatype Action =
    | Enqueue(id: nat, domain: nat, scope: Scope, backup: Content)
    | Cancel(id: nat)
    | TakeSlot(id: nat)
    | GiveUp(id: nat, status: Status)
    | Archive(id: nat)
    | Record(id: nat)
    | Write(id: nat, content: Content)
    | Finish(id: nat)
    | BeginUndo(id: nat)
    | Undone(id: nat)
    | UndoFailed(id: nat)
    | FreeSlot(id: nat)
    | FreeToken(id: nat)
    | Edit(domain: nat, content: Content)
    | Crash
    | FailInterrupted(id: nat)
    | Serve

  // ---- The parts of a state ----

  predicate Known(s: System, id: nat) {
    id in s.jobs && s.jobs[id].domain in s.tenants && s.jobs[id].domain in s.registered
  }

  function Tenant(s: System, id: nat): Content
    requires Known(s, id)
  {
    s.tenants[s.jobs[id].domain]
  }

  function Registered(s: System, id: nat): set<string>
    requires Known(s, id)
  {
    s.registered[s.jobs[id].domain]
  }

  predicate At(s: System, id: nat, stage: Stage) {
    Known(s, id) && id in s.workers && s.workers[id].stage == stage
  }

  /** An interrupted job that start-up recovery is working on. */
  predicate Interrupted(s: System, id: nat) {
    !s.up && Known(s, id) && Active(s.jobs[id].status)
  }

  /** The job may be changing the tenant: its restore, its rollback, or the rollback at start-up. */
  predicate MayWrite(s: System, id: nat) {
    At(s, id, Applying) || At(s, id, Undoing) || (Interrupted(s, id) && s.jobs[id].recovery.Some?)
  }

  predicate Free(s: System, domain: nat) {
    forall id | id in s.jobs && s.jobs[id].domain == domain :: !Active(s.jobs[id].status)
  }

  /** The tenant has been archived for the job: from here on nobody else changes it. */
  predicate Secured(s: System, id: nat)
    requires id in s.jobs
  {
    s.jobs[id].recovery.Some? || (id in s.workers && s.workers[id].stage.Archived?)
  }

  predicate Editable(s: System, domain: nat) {
    forall id | id in s.jobs && s.jobs[id].domain == domain && Active(s.jobs[id].status) :: !Secured(s, id)
  }

  // ---- Steps ----

  /** The tenant's own changes before it is archived are not the job's. */
  function Followed(j: Job, domain: nat, content: Content): Job {
    if j.domain == domain && Active(j.status) then j.(before := content) else j
  }

  function Edited(s: System, domain: nat, content: Content): System {
    s.(tenants := s.tenants[domain := content],
       jobs := map id | id in s.jobs :: Followed(s.jobs[id], domain, content))
  }

  function Moved(s: System, id: nat, stage: Stage): System
    requires id in s.workers
  {
    s.(workers := s.workers[id := s.workers[id].(stage := stage)])
  }

  function Marked(s: System, id: nat, status: Status): System
    requires id in s.jobs
  {
    s.(jobs := s.jobs[id := s.jobs[id].(status := status)])
  }

  /** The last status of a job; its goroutine, if it has one, is on its way out. */
  function Closed(s: System, id: nat, status: Status): System
    requires Known(s, id)
  {
    var t := s.(jobs := s.jobs[id := s.jobs[id].(status := status, after := Some(Tenant(s, id)))]);
    if id in s.workers then Moved(t, id, Leaving(HoldsSlot(s.workers[id].stage))) else t
  }

  /** The tenant again holds what the recovery archive has for the scope. */
  predicate Reapplied(s: System, id: nat)
    requires Known(s, id)
  {
    var j := s.jobs[id];
    j.recovery.Some? && Offers(j.scope, Registered(s, id), j.recovery.value)
    && Carries(j.scope, Registered(s, id), j.recovery.value, Tenant(s, id))
  }

  predicate Enabled(s: System, a: Action) {
    match a
    case Enqueue(id, domain, _, _) =>
      s.up && id !in s.jobs && domain in s.tenants && Free(s, domain) && s.queue < QUEUE_SIZE
    case Cancel(id) => id in s.workers
    case TakeSlot(id) => At(s, id, Waiting) && s.slots < SLOTS
    case GiveUp(id, status) =>
      (At(s, id, Preparing) && status.Failed?)
      || ((At(s, id, Waiting) || At(s, id, Preparing)) && status.Cancelled? && s.workers[id].cancelled)
    case Archive(id) => At(s, id, Preparing) && Registered(s, id) <= Tenant(s, id).databases.Keys
    case Record(id) => Known(s, id) && id in s.workers && s.workers[id].stage.Archived?
    case Write(id, content) => MayWrite(s, id) && Within(s.jobs[id].scope, Registered(s, id), Tenant(s, id), content)
    case Finish(id) =>
      At(s, id, Applying) && Offers(s.jobs[id].scope, Registered(s, id), s.jobs[id].backup)
      && Carries(s.jobs[id].scope, Registered(s, id), s.jobs[id].backup, Tenant(s, id))
    case BeginUndo(id) => At(s, id, Applying)
    case Undone(id) => (At(s, id, Undoing) || Interrupted(s, id)) && Reapplied(s, id)
    case UndoFailed(id) => At(s, id, Undoing) || (Interrupted(s, id) && s.jobs[id].recovery.Some?)
    case FreeSlot(id) => At(s, id, Leaving(true)) && s.slots > 0
    case FreeToken(id) => At(s, id, Leaving(false)) && s.queue > 0
    case Edit(domain, _) => domain in s.tenants && Editable(s, domain)
    case Crash => true
    case FailInterrupted(id) => Interrupted(s, id) && s.jobs[id].recovery.None?
    case Serve => !s.up
  }

  function After(s: System, a: Action): System
    requires Enabled(s, a)
  {
    match a
    case Enqueue(id, domain, scope, backup) =>
      s.(jobs := s.jobs[id := Job(domain, scope, backup, Queued, None, s.tenants[domain], None)],
         workers := s.workers[id := Worker(Waiting, false)], queue := s.queue + 1)
    case Cancel(id) => s.(workers := s.workers[id := s.workers[id].(cancelled := true)])
    case TakeSlot(id) => Moved(Marked(s, id, Running), id, Preparing).(slots := s.slots + 1)
    case GiveUp(id, status) => Closed(s, id, status)
    case Archive(id) => Moved(s, id, Archived(Snapshot(Registered(s, id), Tenant(s, id))))
    case Record(id) =>
      Moved(s.(jobs := s.jobs[id := s.jobs[id].(recovery := Some(s.workers[id].stage.recovery))]), id, Applying)
    case Write(id, content) => s.(tenants := s.tenants[s.jobs[id].domain := content])
    case Finish(id) => Closed(s, id, Success)
    case BeginUndo(id) => Moved(Marked(s, id, Running), id, Undoing)
    case Undone(id) => Closed(s, id, RolledBack)
    case UndoFailed(id) => Closed(s, id, Failed)
    case FreeSlot(id) => Moved(s, id, Leaving(false)).(slots := s.slots - 1)
    case FreeToken(id) => s.(workers := s.workers - {id}, queue := s.queue - 1)
    case Edit(domain, content) => Edited(s, domain, content)
    case Crash => s.(workers := map[], queue := 0, slots := 0, up := false)
    case FailInterrupted(id) => Closed(s, id, Failed)
    case Serve => s.(up := true)
  }

  // ---- What every step keeps ----

  function Holders(workers: map<nat, Worker>): set<nat> {
    set id | id in workers && HoldsSlot(workers[id].stage)
  }

  /** Every token and every slot that is taken belongs to exactly one goroutine. */
  predicate Counted(s: System) {
    s.queue == |s.workers| <= QUEUE_SIZE && s.slots == |Holders(s.workers)| <= SLOTS
    && (!s.up ==> s.workers == map[])
  }

  predicate AllKnown(s: System) {
    s.workers.Keys <= s.jobs.Keys && s.tenants.Keys == s.registered.Keys
    && forall id | id in s.jobs :: Known(s, id)
  }

  predicate OneActive(s: System) {
    forall a, b | a in s.jobs && b in s.jobs && Active(s.jobs[a].status) && Active(s.jobs[b].status)
      :: s.jobs[a].domain == s.jobs[b].domain ==> a == b
  }

  /** How far a job that has not ended has come. */
  predicate Underway(j: Job, registered: set<string>, t: Content) {
    j.after.None?
    && (j.recovery.None? ==> t == j.before)
    && (j.recovery.Some? ==>
      j.recovery.value == Snapshot(registered, j.before) && Within(j.scope, registered, j.before, t))
  }

  predicate StageFits(j: Job, stage: Stage, registered: set<string>, t: Content) {
    match stage
    case Waiting => Active(j.status) && j.recovery.None?
    case Preparing => j.status.Running? && j.recovery.None?
    case Archived(r) => j.status.Running? && j.recovery.None? && r == Snapshot(registered, t)
    case Applying => j.status.Running? && j.recovery.Some?
    case Undoing => j.status.Running? && j.recovery.Some?
    case Leaving(_) => !Active(j.status)
  }

  /** What an ended job says about the tenant. */
  predicate Outcome(j: Job, registered: set<string>) {
    j.after.Some? && Within(j.scope, registered, j.before, j.after.value)
    && (j.recovery.None? ==> j.after.value == j.before && (j.status.Failed? || j.status.Cancelled?))
    && (j.status.Cancelled? ==> j.recovery.None?)
    && (j.status.Success? ==> Carries(j.scope, registered, j.backup, j.after.value))
    && (j.status.RolledBack? ==> Reverted(j.scope, registered, j.before, j.after.value))
  }

  predicate JobOk(j: Job, registered: set<string>, t: Content) {
    if Active(j.status) then Underway(j, registered, t) else Outcome(j, registered)
  }

  predicate RowOk(s: System, id: nat) {
    Known(s, id) && JobOk(s.jobs[id], Registered(s, id), Tenant(s, id))
    && (id in s.workers ==> StageFits(s.jobs[id], s.workers[id].stage, Registered(s, id), Tenant(s, id)))
  }

  predicate Rows(s: System) {
    forall id | id in s.jobs :: RowOk(s, id)
  }

  predicate Inv(s: System) {
    Counted(s) && AllKnown(s) && OneActive(s) && Rows(s)
  }

  // ---- Proofs ----

  /** Nothing but the job `id`, its goroutine and the tenant of its domain differs. */
  predicate SameBut(s: System, t: System, id: nat)
    requires id in s.jobs
  {
    t.registered == s.registered && t.tenants.Keys == s.tenants.Keys && t.jobs.Keys == s.jobs.Keys
    && (forall k | k in s.jobs && k != id :: t.jobs[k] == s.jobs[k])
    && (forall k | k in s.workers && k != id :: k in t.workers && t.workers[k] == s.workers[k])
    && (forall k | k in t.workers && k != id :: k in s.workers)
    && (forall d | d in s.tenants && d != s.jobs[id].domain :: t.tenants[d] == s.tenants[d])
  }

  /** The rows of the other jobs are not affected. */
  lemma OthersKeep(s: System, t: System, id: nat)
    requires AllKnown(s) && OneActive(s) && Rows(s) && id in s.jobs && SameBut(s, t, id) && RowOk(t, id)
    requires t.tenants == s.tenants || Active(s.jobs[id].status)
    requires t.jobs[id].domain == s.jobs[id].domain
    ensures AllKnown(t) && Rows(t)
  {
    forall k | k in t.jobs ensures RowOk(t, k) {
      if k != id {
        assert RowOk(s, k);
        assert Known(s, k);
      }
    }
    forall k | k in t.workers ensures k in t.jobs {
      if k != id {
        assert k in s.workers.Keys;
      }
    }
  }

  /** A step of the job's own goroutine that leaves the tenant alone. */
  predicate Moves(a: Action) {
    a.Cancel? || a.TakeSlot? || a.Archive? || a.Record? || a.BeginUndo? || a.FreeSlot?
  }

  lemma MoveIsOwn(s: System, a: Action)
    requires AllKnown(s) && Enabled(s, a) && Moves(a)
    ensures Known(s, a.id) && a.id in s.workers && SameBut(s, After(s, a), a.id) && After(s, a).tenants == s.tenants
  {
    assert a.id in s.workers.Keys;
  }

  /** Moves before the recovery archive is recorded. */
  lemma EarlyMoveFits(s: System, a: Action)
    requires Enabled(s, a) && (a.TakeSlot? || a.Archive?) && RowOk(s, a.id)
    ensures RowOk(After(s, a), a.id)
  {
  }

  lemma RecordFits(s: System, id: nat)
    requires Enabled(s, Record(id)) && RowOk(s, id)
    ensures RowOk(After(s, Record(id)), id)
  {
  }

  /** Moves after that. */
  lemma LateMoveFits(s: System, a: Action)
    requires Enabled(s, a) && (a.BeginUndo? || a.FreeSlot?) && RowOk(s, a.id)
    ensures RowOk(After(s, a), a.id)
  {
  }

  lemma MoveKeepsRow(s: System, a: Action)
    requires Rows(s) && AllKnown(s) && Enabled(s, a) && Moves(a)
    ensures a.id in s.jobs && RowOk(After(s, a), a.id)
  {
    MoveIsOwn(s, a);
    assert RowOk(s, a.id);
    if a.TakeSlot? || a.Archive? {
      EarlyMoveFits(s, a);
    } else if a.Record? {
      RecordFits(s, a.id);
    } else if !a.Cancel? {
      LateMoveFits(s, a);
    }
  }

  lemma WriteKeepsRow(s: System, id: nat, content: Content)
    requires Rows(s) && AllKnown(s) && Enabled(s, Write(id, content))
    ensures SameBut(s, After(s, Write(id, content)), id) && RowOk(After(s, Write(id, content)), id)
    ensures Active(s.jobs[id].status)
  {
    var j, registered := s.jobs[id], Registered(s, id);
    assert RowOk(s, id);
    WithinTransitive(j.scope, registered, j.before, Tenant(s, id), content);
  }

  predicate Ends(a: Action) {
    a.GiveUp? || a.Finish? || a.Undone? || a.UndoFailed? || a.FailInterrupted?
  }

  function LastStatus(a: Action): Status
    requires Ends(a)
  {
    match a
    case GiveUp(_, status) => status
    case Finish(_) => Success
    case Undone(_) => RolledBack
    case UndoFailed(_) => Failed
    case FailInterrupted(_) => Failed
  }

  lemma EndIsClosed(s: System, a: Action)
    requires Rows(s) && AllKnown(s) && Enabled(s, a) && Ends(a)
    ensures Known(s, a.id) && Active(s.jobs[a.id].status) && After(s, a) == Closed(s, a.id, LastStatus(a))
    ensures !Active(LastStatus(a)) && (s.jobs[a.id].recovery.None? ==> a.GiveUp? || a.FailInterrupted?)
    ensures a.GiveUp? ==> s.jobs[a.id].recovery.None?
  {
    if a.id in s.workers {
      assert a.id in s.workers.Keys;
    }
    assert RowOk(s, a.id);
  }

  /** The last status a job is given is true of the tenant at that moment. */
  lemma EndTellsTheTruth(s: System, a: Action)
    requires Rows(s) && AllKnown(s) && Enabled(s, a) && Ends(a)
    ensures Known(s, a.id) && Known(After(s, a), a.id)
    ensures Outcome(After(s, a).jobs[a.id], Registered(s, a.id))
  {
    EndIsClosed(s, a);
    var j, t, registered := s.jobs[a.id], Tenant(s, a.id), Registered(s, a.id);
    assert RowOk(s, a.id);
    if a.Undone? {
      CarryingReverts(j.scope, registered, j.before, t);
    }
  }

  lemma EndKeepsRow(s: System, a: Action)
    requires Rows(s) && AllKnown(s) && Enabled(s, a) && Ends(a)
    ensures a.id in s.jobs && SameBut(s, After(s, a), a.id) && RowOk(After(s, a), a.id)
  {
    EndIsClosed(s, a);
    EndTellsTheTruth(s, a);
  }

  lemma HoldersMoved(workers: map<nat, Worker>, id: nat, w: Worker)
    requires id in workers
    ensures Holders(workers[id := w]) == if HoldsSlot(w.stage) then Holders(workers) + {id} else Holders(workers) - {id}
    ensures |workers[id := w]| == |workers| && (id in Holders(workers) <==> HoldsSlot(workers[id].stage))
  {
    assert workers[id := w].Keys == workers.Keys;
  }

  lemma MoveKeepsCount(s: System, a: Action)
    requires Counted(s) && AllKnown(s) && Rows(s) && Enabled(s, a) && Moves(a)
    ensures Counted(After(s, a))
  {
    assert a.id in s.workers;
    HoldersMoved(s.workers, a.id, After(s, a).workers[a.id]);
  }

  lemma ClosedKeepsCount(s: System, id: nat, status: Status)
    requires Counted(s) && Known(s, id)
    ensures Counted(Closed(s, id, status))
  {
    if id in s.workers {
      HoldersMoved(s.workers, id, Closed(s, id, status).workers[id]);
      assert s.workers != map[] && s.up;
    }
  }

  lemma EndKeepsCount(s: System, a: Action)
    requires Counted(s) && AllKnown(s) && Rows(s) && Enabled(s, a) && Ends(a)
    ensures Counted(After(s, a))
  {
    EndIsClosed(s, a);
    ClosedKeepsCount(s, a.id, LastStatus(a));
  }

  lemma HoldersJoined(workers: map<nat, Worker>, id: nat, w: Worker)
    requires id !in workers && w.stage.Waiting?
    ensures Holders(workers[id := w]) == Holders(workers) && |workers[id := w]| == |workers| + 1
  {
    assert workers[id := w].Keys == workers.Keys + {id};
  }

  lemma EnqueueKeepsCount(s: System, a: Action)
    requires Counted(s) && AllKnown(s) && Enabled(s, a) && a.Enqueue?
    ensures Counted(After(s, a))
  {
    assert a.id !in s.workers.Keys;
    HoldersJoined(s.workers, a.id, Worker(Waiting, false));
  }

  lemma EnqueueKeepsKnown(s: System, a: Action)
    requires AllKnown(s) && Enabled(s, a) && a.Enqueue?
    ensures AllKnown(After(s, a))
  {
    var t := After(s, a);
    forall k | k in t.jobs ensures Known(t, k) {
      assert k != a.id ==> Known(s, k);
    }
  }

  lemma EnqueueKeepsOne(s: System, a: Action)
    requires OneActive(s) && Enabled(s, a) && a.Enqueue?
    ensures OneActive(After(s, a))
  {
  }

  lemma EnqueueKeepsRows(s: System, a: Action)
    requires AllKnown(s) && Rows(s) && Enabled(s, a) && a.Enqueue?
    ensures Rows(After(s, a))
  {
    var t := After(s, a);
    forall k | k in t.jobs ensures RowOk(t, k) {
      if k != a.id {
        assert RowOk(s, k);
      }
    }
  }

  lemma LeaveKeeps(s: System, id: nat)
    requires Inv(s) && Enabled(s, FreeToken(id))
    ensures Inv(After(s, FreeToken(id)))
  {
    var t := After(s, FreeToken(id));
    assert t.workers.Keys == s.workers.Keys - {id} && Holders(t.workers) == Holders(s.workers);
    forall k | k in t.jobs ensures RowOk(t, k) && Known(t, k) {
      assert RowOk(s, k);
    }
  }

  lemma EditKeeps(s: System, domain: nat, content: Content)
    requires Inv(s) && Enabled(s, Edit(domain, content))
    ensures Inv(After(s, Edit(domain, content)))
  {
    var t := Edited(s, domain, content);
    assert t.tenants.Keys == s.tenants.Keys && t.jobs.Keys == s.jobs.Keys;
    forall k | k in t.jobs ensures RowOk(t, k) && Known(t, k) {
      assert RowOk(s, k);
    }
  }

  lemma CrashKeeps(s: System)
    requires Inv(s)
    ensures Inv(After(s, Crash))
  {
    var t := After(s, Crash);
    assert t.workers == map[] && Holders(t.workers) == {};
    forall k | k in t.jobs ensures RowOk(t, k) && Known(t, k) {
      assert RowOk(s, k);
    }
  }

  lemma ServeKeeps(s: System)
    requires Inv(s) && Enabled(s, Serve)
    ensures Inv(After(s, Serve))
  {
    var t := After(s, Serve);
    forall k | k in t.jobs ensures RowOk(t, k) && Known(t, k) {
      assert RowOk(s, k);
    }
  }

  /** Steps after which no other job is active than before. */
  lemma KeepsOneActive(s: System, t: System, id: nat)
    requires OneActive(s) && id in s.jobs && SameBut(s, t, id) && t.jobs[id].domain == s.jobs[id].domain
    requires Active(t.jobs[id].status) ==> Active(s.jobs[id].status)
    ensures OneActive(t)
  {
  }

  lemma MoveKeepsInv(s: System, a: Action)
    requires Inv(s) && Enabled(s, a) && Moves(a)
    ensures Inv(After(s, a))
  {
    MoveIsOwn(s, a);
    MoveKeepsRow(s, a);
    MoveKeepsCount(s, a);
    MoveKeepsStatus(s, a);
    OthersKeep(s, After(s, a), a.id);
    KeepsOneActive(s, After(s, a), a.id);
  }

  lemma MoveKeepsStatus(s: System, a: Action)
    requires AllKnown(s) && Rows(s) && Enabled(s, a) && Moves(a)
    ensures a.id in s.jobs && a.id in After(s, a).jobs
    ensures After(s, a).jobs[a.id].domain == s.jobs[a.id].domain
    ensures Active(After(s, a).jobs[a.id].status) ==> Active(s.jobs[a.id].status)
  {
    assert a.id in s.workers.Keys && RowOk(s, a.id);
  }

  lemma EndKeepsInv(s: System, a: Action)
    requires Inv(s) && Enabled(s, a) && Ends(a)
    ensures Inv(After(s, a))
  {
    EndIsClosed(s, a);
    EndKeepsRow(s, a);
    EndKeepsCount(s, a);
    OthersKeep(s, After(s, a), a.id);
    KeepsOneActive(s, After(s, a), a.id);
  }

  lemma WriteKeepsInv(s: System, id: nat, content: Content)
    requires Inv(s) && Enabled(s, Write(id, content))
    ensures Inv(After(s, Write(id, content)))
  {
    WriteKeepsRow(s, id, content);
    OthersKeep(s, After(s, Write(id, content)), id);
    KeepsOneActive(s, After(s, Write(id, content)), id);
  }

  lemma StepKeepsInv(s: System, a: Action)
    requires Inv(s) && Enabled(s, a)
    ensures Inv(After(s, a))
  {
    if Moves(a) {
      MoveKeepsInv(s, a);
    } else if Ends(a) {
      EndKeepsInv(s, a);
    } else {
      match a
      case Enqueue(_, _, _, _) =>
        EnqueueKeepsCount(s, a);
        EnqueueKeepsKnown(s, a);
        EnqueueKeepsOne(s, a);
        EnqueueKeepsRows(s, a);
      case Write(id, content) => WriteKeepsInv(s, id, content);
      case FreeToken(id) => LeaveKeeps(s, id);
      case Edit(domain, content) => EditKeeps(s, domain, content);
      case Crash => CrashKeeps(s);
      case Serve => ServeKeeps(s);
    }
  }

  // ---- Runs ----

  ghost predicate Next(s: System, t: System) {
    exists a: Action :: Enabled(s, a) && t == After(s, a)
  }

  ghost predicate Link(ss: seq<System>, i: nat)
    requires i + 1 < |ss|
  {
    Next(ss[i], ss[i + 1])
  }

  ghost predicate Run(ss: seq<System>) {
    ss != [] && forall i | 0 <= i < |ss| - 1 :: Link(ss, i)
  }

  /** A server before its first restore job. */
  predicate Fresh(s: System) {
    s.jobs == map[] && s.workers == map[] && s.queue == 0 && s.slots == 0 && s.tenants.Keys == s.registered.Keys
  }

  lemma FreshInv(s: System)
    requires Fresh(s)
    ensures Inv(s)
  {
    assert Holders(s.workers) == {};
  }

  lemma NextKeepsInv(s: System, t: System)
    requires Inv(s) && Next(s, t)
    ensures Inv(t)
  {
    var a :| Enabled(s, a) && t == After(s, a);
    StepKeepsInv(s, a);
  }

  lemma LinkKeepsInv(ss: seq<System>, i: nat)
    requires Run(ss) && i + 1 < |ss| && Inv(ss[i])
    ensures Inv(ss[i + 1])
  {
    assert Link(ss, i);
    NextKeepsInv(ss[i], ss[i + 1]);
  }

  lemma RunKeepsInv(ss: seq<System>, i: nat)
    requires Run(ss) && Inv(ss[0]) && i < |ss|
    ensures Inv(ss[i])
  {
    forall n | 0 <= n < i && Inv(ss[n]) ensures Inv(ss[n + 1]) {
      LinkKeepsInv(ss, n);
    }
    Onwards(ss, Inv, 0, i);
  }

  /** At every moment: at most 16 jobs hold a token and at most 2 a slot, each token and slot belongs
      to one goroutine, and no domain has two jobs that are queued or running. */
  lemma AlwaysBounded(ss: seq<System>, i: nat)
    requires Run(ss) && Fresh(ss[0]) && i < |ss|
    ensures ss[i].queue == |ss[i].workers| <= 16 && ss[i].slots == |Holders(ss[i].workers)| <= 2
    ensures OneActive(ss[i])
  {
    FreshInv(ss[0]);
    RunKeepsInv(ss, i);
  }

  /** Whatever is cancelled, fails or crashes: without a recorded recovery archive a job has not
      touched the tenant, neither while it is under way nor when it has ended. */
  lemma UntouchedWithoutRecovery(ss: seq<System>, i: nat, id: nat)
    requires Run(ss) && Fresh(ss[0]) && i < |ss| && id in ss[i].jobs && ss[i].jobs[id].recovery.None?
    ensures Known(ss[i], id)
    ensures var j := ss[i].jobs[id];
      if Active(j.status) then Tenant(ss[i], id) == j.before
      else j.after == Some(j.before) && (j.status.Failed? || j.status.Cancelled?)
  {
    FreshInv(ss[0]);
    RunKeepsInv(ss, i);
    assert RowOk(ss[i], id);
  }

  /** What an ended job reports is what happened: a cancelled one changed nothing, a rolled back one
      put every file and table of its scope back, a successful one left what the backup has. No job
      ever changed anything outside its scope. */
  lemma OutcomesAreTrue(ss: seq<System>, i: nat, id: nat)
    requires Run(ss) && Fresh(ss[0]) && i < |ss| && id in ss[i].jobs && !Active(ss[i].jobs[id].status)
    ensures Known(ss[i], id) && ss[i].jobs[id].after.Some?
    ensures var j, registered := ss[i].jobs[id], Registered(ss[i], id);
      Within(j.scope, registered, j.before, j.after.value)
      && (j.status.Cancelled? ==> j.after.value == j.before)
      && (j.status.RolledBack? ==> Reverted(j.scope, registered, j.before, j.after.value))
      && (j.status.Success? ==> Carries(j.scope, registered, j.backup, j.after.value))
  {
    FreshInv(ss[0]);
    RunKeepsInv(ss, i);
    assert RowOk(ss[i], id);
  }

  lemma StepKeepsEnded(s: System, a: Action, id: nat)
    requires Inv(s) && Enabled(s, a) && id in s.jobs && !Active(s.jobs[id].status)
    ensures id in After(s, a).jobs && After(s, a).jobs[id] == s.jobs[id]
  {
    assert RowOk(s, id);
    if Moves(a) {
      MoveKeepsEnded(s, a, id);
    } else if Ends(a) {
      EndIsClosed(s, a);
    }
  }

  lemma MoveKeepsEnded(s: System, a: Action, id: nat)
    requires AllKnown(s) && RowOk(s, id) && Enabled(s, a) && Moves(a) && !Active(s.jobs[id].status)
    ensures id in After(s, a).jobs && After(s, a).jobs[id] == s.jobs[id]
  {
  }

  predicate EndedAs(s: System, id: nat, j: Job) {
    id in s.jobs && s.jobs[id] == j && !Active(j.status)
  }

  lemma NextKeepsEnded(s: System, t: System, id: nat, j: Job)
    requires Inv(s) && Next(s, t) && EndedAs(s, id, j)
    ensures EndedAs(t, id, j) && Inv(t)
  {
    var a :| Enabled(s, a) && t == After(s, a);
    StepKeepsEnded(s, a, id);
    StepKeepsInv(s, a);
  }

  lemma LinkKeepsEnded(ss: seq<System>, i: nat, id: nat, j: Job)
    requires Run(ss) && i + 1 < |ss| && Inv(ss[i]) && EndedAs(ss[i], id, j)
    ensures EndedAs(ss[i + 1], id, j) && Inv(ss[i + 1])
  {
    assert Link(ss, i);
    NextKeepsEnded(ss[i], ss[i + 1], id, j);
  }

  predicate SoundAndEnded(s: System, id: nat, j: Job) {
    EndedAs(s, id, j) && Inv(s)
  }

  /** A row that has its last status never changes again. */
  lemma EndedForGood(ss: seq<System>, i: nat, k: nat, id: nat, j: Job)
    requires Run(ss) && i <= k < |ss| && Inv(ss[i]) && EndedAs(ss[i], id, j)
    ensures EndedAs(ss[k], id, j)
  {
    forall n | i <= n < k && SoundAndEnded(ss[n], id, j) ensures SoundAndEnded(ss[n + 1], id, j) {
      LinkKeepsEnded(ss, n, id, j);
    }
    Onwards(ss, s => SoundAndEnded(s, id, j), i, k);
  }

  lemma OnlyWritesChange(s: System, a: Action, domain: nat)
    requires AllKnown(s) && Rows(s) && Enabled(s, a) && domain in s.tenants && domain in After(s, a).tenants
    requires After(s, a).tenants[domain] != s.tenants[domain]
    ensures (a.Write? && s.jobs[a.id].domain == domain) || (a.Edit? && a.domain == domain)
  {
    if Moves(a) {
      MoveIsOwn(s, a);
    } else if Ends(a) {
      EndIsClosed(s, a);
    }
  }

  lemma WriterIsCovered(s: System, id: nat, content: Content)
    requires RowOk(s, id) && Enabled(s, Write(id, content))
    ensures Active(s.jobs[id].status) && s.jobs[id].recovery == Some(Snapshot(Registered(s, id), s.jobs[id].before))
  {
  }

  /** A tenant with an active job changes only by that job, after it has recorded an archive of the
      tenant as it was, or by its owner, before the tenant is archived. */
  lemma ChangesAreCovered(s: System, a: Action, id: nat)
    requires Inv(s) && Enabled(s, a) && Known(s, id) && Active(s.jobs[id].status)
    requires Known(After(s, a), id) && Tenant(After(s, a), id) != Tenant(s, id)
    ensures a == Write(id, Tenant(After(s, a), id)) || a == Edit(s.jobs[id].domain, Tenant(After(s, a), id))
    ensures a.Write? ==> s.jobs[id].recovery == Some(Snapshot(Registered(s, id), s.jobs[id].before))
    ensures a.Edit? ==> !Secured(s, id)
  {
    StepKeepsDomain(s, a, id);
    OnlyWritesChange(s, a, s.jobs[id].domain);
    if a.Write? {
      assert RowOk(s, a.id);
      WriterIsCovered(s, a.id, a.content);
      assert a.id == id;
    }
  }

  /** What a job takes for the tenant before it follows the owner's changes until the archive, and is
      fixed from then on. */
  lemma BeforeIsTheOwners(s: System, a: Action, id: nat)
    requires Inv(s) && Enabled(s, a) && id in s.jobs
    ensures id in After(s, a).jobs
    ensures After(s, a).jobs[id].before == if a.Edit? && s.jobs[id].domain == a.domain && Active(s.jobs[id].status)
                                           then a.content else s.jobs[id].before
    ensures Active(s.jobs[id].status) && Secured(s, id) ==> After(s, a).jobs[id].before == s.jobs[id].before
  {
    if Moves(a) {
      MoveKeepsBefore(s, a, id);
    } else if Ends(a) {
      EndIsClosed(s, a);
    }
  }

  lemma MoveKeepsBefore(s: System, a: Action, id: nat)
    requires AllKnown(s) && Enabled(s, a) && Moves(a) && id in s.jobs
    ensures id in After(s, a).jobs && After(s, a).jobs[id].before == s.jobs[id].before
  {
    MoveIsOwn(s, a);
  }

  lemma StepKeepsDomain(s: System, a: Action, id: nat)
    requires AllKnown(s) && Rows(s) && Enabled(s, a) && id in s.jobs
    ensures id in After(s, a).jobs && After(s, a).jobs[id].domain == s.jobs[id].domain
  {
    if Moves(a) {
      MoveKeepsStatus(s, a);
      MoveIsOwn(s, a);
    } else if Ends(a) {
      EndIsClosed(s, a);
    }
  }

  /** A token or slot that is taken is given back once: with the last goroutine gone none is taken. */
  lemma NothingLeaks(ss: seq<System>, i: nat)
    requires Run(ss) && Fresh(ss[0]) && i < |ss|
    requires forall id | id in ss[i].workers :: ss[i].workers[id].stage.Waiting?
    ensures ss[i].slots == 0 && (ss[i].queue == 0 <==> ss[i].workers == map[])
  {
    FreshInv(ss[0]);
    RunKeepsInv(ss, i);
    assert Holders(ss[i].workers) == {};
  }

  // ---- Interleaving ----

  /** A step that is not one of the job's own goroutine; cancelling it is. */
  predicate Foreign(a: Action, id: nat) {
    a.Cancel? || a.Edit? || a.Crash? || a.Serve? || a.id != id
  }

  /** As far as the goroutine of `id` can tell nothing happened, unless it is gone: its row and its stage
      are as they were and, once the tenant is archived, so is the tenant. */
  predicate Kept(s: System, t: System, id: nat) {
    id in t.workers ==>
      (id in s.workers && Known(s, id) && Known(t, id) && t.jobs[id] == s.jobs[id].(before := t.jobs[id].before)
       && t.workers[id].stage == s.workers[id].stage
       && if Active(s.jobs[id].status) then KeptTenant(s, t, id) else t.jobs[id] == s.jobs[id])
  }

  predicate KeptTenant(s: System, t: System, id: nat)
    requires Known(s, id) && Known(t, id)
  {
    Secured(s, id) ==> Tenant(t, id) == Tenant(s, id) && t.jobs[id].before == s.jobs[id].before
  }

  lemma SameButKeeps(s: System, t: System, own: nat, id: nat)
    requires AllKnown(s) && OneActive(s) && own in s.jobs && SameBut(s, t, own) && id != own && id in s.jobs
    requires t.tenants == s.tenants || Active(s.jobs[own].status)
    ensures Kept(s, t, id) && id in t.jobs && t.registered == s.registered
  {
    assert Known(s, id) && Known(s, own);
  }

  lemma MoveKeepsOther(s: System, a: Action, id: nat)
    requires Inv(s) && Enabled(s, a) && Moves(a) && Foreign(a, id) && id in s.jobs
    ensures Kept(s, After(s, a), id) && id in After(s, a).jobs && After(s, a).registered == s.registered
  {
    MoveIsOwn(s, a);
    if a.id != id {
      SameButKeeps(s, After(s, a), a.id, id);
    }
  }

  lemma EndKeepsOther(s: System, a: Action, id: nat)
    requires Inv(s) && Enabled(s, a) && Ends(a) && Foreign(a, id) && id in s.jobs
    ensures Kept(s, After(s, a), id) && id in After(s, a).jobs && After(s, a).registered == s.registered
  {
    EndIsClosed(s, a);
    EndKeepsRow(s, a);
    SameButKeeps(s, After(s, a), a.id, id);
  }

  lemma WriteKeepsOther(s: System, own: nat, content: Content, id: nat)
    requires Inv(s) && Enabled(s, Write(own, content)) && own != id && id in s.jobs
    ensures var t := After(s, Write(own, content));
      Kept(s, t, id) && id in t.jobs && t.registered == s.registered
  {
    WriteKeepsRow(s, own, content);
    SameButKeeps(s, After(s, Write(own, content)), own, id);
  }

  lemma RestKeepsOther(s: System, a: Action, id: nat)
    requires AllKnown(s) && Enabled(s, a) && Foreign(a, id) && id in s.jobs
    requires a.Enqueue? || a.FreeToken? || a.Edit? || a.Crash? || a.Serve?
    ensures Kept(s, After(s, a), id) && id in After(s, a).jobs && After(s, a).registered == s.registered
  {
    assert Known(s, id);
  }

  lemma ForeignKeeps(s: System, a: Action, id: nat)
    requires Inv(s) && Enabled(s, a) && Foreign(a, id) && id in s.jobs
    ensures Kept(s, After(s, a), id) && id in After(s, a).jobs && After(s, a).registered == s.registered
  {
    if Moves(a) {
      MoveKeepsOther(s, a, id);
    } else if Ends(a) {
      EndKeepsOther(s, a, id);
    } else if a.Write? {
      WriteKeepsOther(s, a.id, a.content, id);
    } else {
      RestKeepsOther(s, a, id);
    }
  }

  lemma KeptSelf(s: System, id: nat)
    requires Inv(s) && id in s.jobs
    ensures Kept(s, s, id) && Known(s, id)
  {
  }

  lemma KeptTransitive(s: System, t: System, u: System, id: nat)
    requires Kept(s, t, id) && Kept(t, u, id)
    ensures Kept(s, u, id)
  {
  }

  lemma RunExtends(ss: seq<System>, a: Action)
    requires Run(ss) && Enabled(ss[|ss| - 1], a)
    ensures Run(ss + [After(ss[|ss| - 1], a)])
  {
    var more := ss + [After(ss[|ss| - 1], a)];
    forall i | 0 <= i < |more| - 1 ensures Link(more, i) {
      if i < |ss| - 1 {
        assert Link(ss, i);
      }
    }
  }
}
