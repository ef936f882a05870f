/** The panel's own code for restore jobs. The tables, the tenants and the channels are fields; other
    goroutines and requests get their turn where `Interference` is called; calls to the outside draw
    their fate from `fates`. The ghost trace is proved to be a run of RestoreProtocol. */
module RestoreServer {
  import opened Wrappers
  import opened TenantContent
  import opened RestoreProtocol

  /** What becomes of one call: it works, or it fails and leaves the tenant in some state. */
  datatype Fate = Works | Fails(left: Content)

  datatype Reply = Accepted(id: nat) | Conflict | QueueFull | Error

  class Server {
    const registered: map<nat, set<string>>
    var tenants: map<nat, Content>
    var jobs: map<nat, Job>
    var workers: map<nat, Worker>
    var queue: nat
    var slots: nat
    var up: bool
    var schedule: seq<Action>
    var fates: seq<Fate>
    ghost var trace: seq<System>

    function State(): System
      reads this
    {
      System(registered, tenants, jobs, workers, queue, slots, up)
    }

    ghost predicate Valid()
      reads this
    {
      Run(trace) && Fresh(trace[0]) && trace[|trace| - 1] == State()
    }

    /** What the protocol keeps holds of the present state. */
    lemma Sound()
      requires Valid()
      ensures Inv(State())
    {
      FreshInv(trace[0]);
      RunKeepsInv(trace, |trace| - 1);
    }

    constructor (registered: map<nat, set<string>>, tenants: map<nat, Content>, schedule: seq<Action>, fates: seq<Fate>)
      requires tenants.Keys == registered.Keys
      ensures Valid() && Fresh(State()) && up
    {
      this.registered, this.tenants, this.schedule, this.fates := registered, tenants, schedule, fates;
      jobs, workers, queue, slots, up := map[], map[], 0, 0, true;
      new;
      trace := [State()];
    }

    /** The present state follows the last one recorded. */
    ghost method Log(a: Action)
      requires Run(trace) && Fresh(trace[0]) && Enabled(trace[|trace| - 1], a)
      requires State() == After(trace[|trace| - 1], a)
      modifies this`trace
      ensures Valid() && trace == old(trace) + [State()]
    {
      RunExtends(trace, a);
      trace := trace + [State()];
    }

    method Draw() returns (fate: Fate)
      modifies this`fates
      ensures old(fates) == [] ==> fate.Works? && fates == []
    {
      fate := if fates == [] then Works else fates[0];
      fates := if fates == [] then [] else fates[1..];
    }

    lemma KeepsRegistered(a: Action)
      requires Enabled(State(), a)
      ensures After(State(), a).registered == registered
    {
    }

    method Perform(a: Action)
      requires Valid() && Enabled(State(), a)
      modifies this`tenants, this`jobs, this`workers, this`queue, this`slots, this`up, this`trace
      ensures Valid() && old(trace) <= trace && State() == After(old(State()), a)
    {
      var s := After(State(), a);
      KeepsRegistered(a);
      tenants, jobs, workers, queue, slots, up := s.tenants, s.jobs, s.workers, s.queue, s.slots, s.up;
      Log(a);
    }

    /** A step of somebody else. */
    method OthersTurn(id: nat, a: Action)
      requires Valid() && Enabled(State(), a) && Foreign(a, id) && id in jobs
      modifies this`tenants, this`jobs, this`workers, this`queue, this`slots, this`up, this`trace
      ensures Valid() && old(trace) <= trace && id in jobs && Kept(old(State()), State(), id)
    {
      Sound();
      ForeignKeeps(State(), a, id);
      Perform(a);
    }

    lemma SelfKept(id: nat)
      requires Valid() && id in jobs
      ensures Kept(State(), State(), id)
    {
      Sound();
      KeptSelf(State(), id);
    }

    /** Others get their turn; what they do next is given by `schedule`. */
    method Interference(id: nat)
      requires Valid() && id in jobs
      modifies this
      ensures Valid() && old(trace) <= trace && id in jobs && Kept(old(State()), State(), id)
      ensures |schedule| <= |old(schedule)| && (old(schedule) != [] ==> |schedule| < |old(schedule)|)
      ensures fates == old(fates)
      ensures old(schedule) == [] ==> schedule == [] && State() == old(State())
    {
      SelfKept(id);
      while schedule != []
        invariant Valid() && old(trace) <= trace && id in jobs && Kept(old(State()), State(), id)
        invariant schedule == old(schedule) || |schedule| < |old(schedule)|
        invariant fates == old(fates) && (old(schedule) == [] ==> State() == old(State()))
        decreases |schedule|
      {
        var a := schedule[0];
        schedule := schedule[1..];
        if !Foreign(a, id) || !Enabled(State(), a) {
          break;
        }
        ghost var before := State();
        OthersTurn(id, a);
        KeptTransitive(old(State()), before, State(), id);
      }
    }

    // ---- The request ----

    predicate Busy(domain: nat)
      reads this
    {
      !Free(State(), domain)
    }

    /** Restore, from the check for a running job on. */
    method Restore(domain: nat, scope: Scope, backup: Content, id: nat) returns (reply: Reply)
      requires Valid() && up && domain in tenants && id !in jobs
      modifies this
      ensures Valid() && old(trace) <= trace
      ensures reply.Accepted? || reply == Error <==> Free(old(State()), domain) && old(queue) < 16
      ensures reply.Accepted? ==> reply.id == id && State() == After(old(State()), Enqueue(id, domain, scope, backup))
      ensures !reply.Accepted? ==> State() == old(State())
      ensures reply == Conflict
        <==> exists other :: other in old(jobs) && old(jobs)[other].domain == domain
                             && (old(jobs)[other].status == Queued || old(jobs)[other].status == Running)
      ensures reply == QueueFull <==> Free(old(State()), domain) && old(queue) >= 16
      ensures old(fates) == [] ==> reply != Error
    {
      if Busy(domain) {
        return Conflict;
      }
      if queue >= QUEUE_SIZE {
        return QueueFull;
      }
      queue := queue + 1;
      var fate := Draw();
      if fate.Fails? {
        queue := queue - 1;
        return Error;
      }
      jobs := jobs[id := Job(domain, scope, backup, Queued, None, tenants[domain], None)];
      workers := workers[id := Worker(Waiting, false)];
      Log(Enqueue(id, domain, scope, backup));
      return Accepted(id);
    }

    /** CancelRestoreJob: refused once the row has its last status or the goroutine is gone. */
    method CancelRestoreJob(id: nat) returns (ok: bool)
      requires Valid()
      modifies this
      ensures Valid() && old(trace) <= trace
      ensures ok <==> id in old(workers) && id in old(jobs)
                      && (old(jobs)[id].status == Queued || old(jobs)[id].status == Running)
      ensures State() == if ok then After(old(State()), Cancel(id)) else old(State())
    {
      if id !in jobs || !Active(jobs[id].status) || id !in workers {
        return false;
      }
      workers := workers[id := workers[id].(cancelled := true)];
      Log(Cancel(id));
      return true;
    }

    // ---- The job ----

    /** restoreJobFinish, and the goroutine on its way out. */
    method Finish(id: nat, a: Action)
      requires Valid() && Ends(a) && Enabled(State(), a) && a.id == id && Known(State(), id)
      requires After(State(), a) == Closed(State(), id, LastStatus(a))
      modifies this
      ensures Valid() && old(trace) <= trace && State() == Closed(old(State()), id, LastStatus(a))
      ensures schedule == old(schedule)
      ensures fates == old(fates)
    {
      jobs := jobs[id := jobs[id].(status := LastStatus(a), after := Some(tenants[jobs[id].domain]))];
      if id in workers {
        workers := workers[id := workers[id].(stage := Leaving(HoldsSlot(workers[id].stage)))];
      }
      Log(a);
    }

    /** The goroutine is gone, or has written its last status and only has to let go. */
    predicate Over(id: nat)
      reads this
    {
      id in workers ==> id in jobs && workers[id].stage.Leaving? && !Active(jobs[id].status)
    }

    /** From now on every call to the outside works and nobody else does anything. */
    ghost predicate Quiet()
      reads this
    {
      fates == [] && schedule == []
    }

    /** What the job asks for, the content of the tenants and a cancellation are as they were. */
    ghost predicate SameJob(s: System, id: nat)
      requires id in s.jobs && id in s.workers
      reads this
    {
      tenants == s.tenants && id in jobs && id in workers && workers[id].cancelled == s.workers[id].cancelled
      && jobs[id] == s.jobs[id].(status := jobs[id].status, recovery := jobs[id].recovery, after := jobs[id].after)
    }

    /** The wait for a run slot. It ends with a slot, with a cancellation or with the process; when
        nothing more happens it goes on. */
    method WaitForSlot(id: nat) returns (started: bool)
      requires Valid() && At(State(), id, Waiting)
      modifies this
      ensures Valid() && old(trace) <= trace && id in jobs
      ensures started ==> At(State(), id, Preparing)
      ensures !started ==> Over(id) || (At(State(), id, Waiting) && schedule == [])
      ensures !started && id in workers && !At(State(), id, Waiting) ==> jobs[id].status.Cancelled?
      ensures old(Quiet()) ==> Quiet() && SameJob(old(State()), id) && (old(slots) < 2 ==> started)
    {
      started := false;
      while true
        invariant Valid() && old(trace) <= trace && At(State(), id, Waiting)
        invariant old(Quiet()) ==> Quiet() && State() == old(State())
        decreases |schedule|
      {
        var fate := Draw();
        if slots < SLOTS && (!workers[id].cancelled || fate.Works?) {
          Start(id);
          return true;
        }
        if workers[id].cancelled {
          Finish(id, GiveUp(id, Cancelled));
          return;
        }
        if schedule == [] {
          return;
        }
        ghost var before := |schedule|;
        Interference(id);
        if id !in workers {
          return;
        }
        assert |schedule| < before;
      }
    }

    /** A slot is taken and the row says so. */
    method Start(id: nat)
      requires Valid() && At(State(), id, Waiting) && slots < SLOTS
      modifies this
      ensures Valid() && old(trace) <= trace && At(State(), id, Preparing)
      ensures schedule == old(schedule)
      ensures fates == old(fates) && SameJob(old(State()), id)
    {
      slots := slots + 1;
      jobs := jobs[id := jobs[id].(status := Running)];
      workers := workers[id := workers[id].(stage := Preparing)];
      Log(TakeSlot(id));
    }

    /** CreateRecoveryArchive: it fails when a registered database cannot be dumped. */
    method CreateArchive(id: nat) returns (ok: bool)
      requires Valid() && At(State(), id, Preparing)
      modifies this
      ensures Valid() && old(trace) <= trace && id in jobs && id in workers
      ensures if ok then Known(State(), id) && workers[id].stage.Archived? else Over(id)
      ensures !(Registered(old(State()), id) <= Tenant(old(State()), id).databases.Keys) ==> !ok
      ensures !ok ==> jobs[id].status == if old(workers)[id].cancelled then Cancelled else Failed
      ensures schedule == old(schedule) && SameJob(old(State()), id)
      ensures old(fates) == []
        ==> fates == [] && (ok <==> Registered(State(), id) <= Tenant(State(), id).databases.Keys)
    {
      var fate := Draw();
      ok := fate.Works? && Registered(State(), id) <= Tenant(State(), id).databases.Keys;
      if ok {
        var snapshot := Snapshot(Registered(State(), id), Tenant(State(), id));
        workers := workers[id := workers[id].(stage := Archived(snapshot))];
        Log(Archive(id));
      } else {
        Finish(id, GiveUp(id, if workers[id].cancelled then Cancelled else Failed));
      }
    }

    /** The recovery archive, taken and recorded before anything is changed. */
    method TakeRecovery(id: nat) returns (ok: bool)
      requires Valid() && At(State(), id, Preparing)
      modifies this
      ensures Valid() && old(trace) <= trace && id in jobs
      ensures if ok then At(State(), id, Applying) && Active(jobs[id].status) && jobs[id].recovery.Some? else Over(id)
      ensures old(Quiet()) ==> Quiet() && id in workers && SameJob(old(State()), id)
      ensures old(Quiet()) ==> (ok <==> Registered(State(), id) <= Tenant(State(), id).databases.Keys)
      ensures old(Quiet()) && !ok ==> jobs[id].status == if old(workers)[id].cancelled then Cancelled else Failed
    {
      ok := false;
      var fate := Draw();
      if fate.Fails? {
        Finish(id, GiveUp(id, Failed));
        return;
      }
      Interference(id);
      if id in workers {
        ok := CreateArchive(id);
        if ok {
          Interference(id);
          ok := id in workers;
          if ok {
            RecordRecovery(id);
          }
        }
      }
    }

    lemma ArchivedIsActive(id: nat)
      requires Valid() && Known(State(), id) && id in workers && workers[id].stage.Archived?
      ensures Active(jobs[id].status)
    {
      Sound();
      assert RowOk(State(), id);
    }

    /** restoreJobRecovery. */
    method RecordRecovery(id: nat)
      requires Valid() && Known(State(), id) && id in workers && workers[id].stage.Archived?
      modifies this
      ensures Valid() && old(trace) <= trace
      ensures At(State(), id, Applying) && Active(jobs[id].status) && jobs[id].recovery.Some?
      ensures schedule == old(schedule) && fates == old(fates) && SameJob(old(State()), id)
    {
      ArchivedIsActive(id);
      jobs := jobs[id := jobs[id].(recovery := Some(workers[id].stage.recovery))];
      workers := workers[id := workers[id].(stage := Applying)];
      Log(Record(id));
    }

    // ---- Changing the tenant ----

    /** It still is so, and nothing but the content of the job's tenant has changed since `s`. */
    ghost predicate Undisturbed(s: System, id: nat)
      reads this
    {
      Quiet() && Known(s, id) && Wrote(s, id) && Tenant(State(), id).databases.Keys == Tenant(s, id).databases.Keys
    }

    lemma UndisturbedTransitive(s: System, t: System, id: nat)
      requires Known(s, id) && Known(t, id) && t == s.(tenants := s.tenants[s.jobs[id].domain := Tenant(t, id)])
      requires Tenant(t, id).databases.Keys == Tenant(s, id).databases.Keys && Undisturbed(t, id)
      ensures Undisturbed(s, id)
    {
      var d := s.jobs[id].domain;
      assert s.tenants[d := Tenant(t, id)][d := Tenant(State(), id)] == s.tenants[d := Tenant(State(), id)];
    }

    /** What a restore of this scope needs of an archive and of the databases there are: the one file, the
        directory or the one registered database asked for, or `wanted`. */
    ghost predicate Can(scope: Scope, registered: set<string>, archive: Content, now: set<string>,
                        wanted: set<string>)
    {
      match scope
      case Database(d) => d in registered && d in archive.databases && d in now
      case Full => wanted <= archive.databases.Keys && wanted <= now
      case _ => HasFiles(scope, archive)
    }

    /** Only the tenant of the job differs. */
    predicate Wrote(s: System, id: nat)
      requires Known(s, id)
      reads this
    {
      Known(State(), id) && State() == s.(tenants := s.tenants[s.jobs[id].domain := Tenant(State(), id)])
    }

    method WriteTenant(id: nat, content: Content)
      requires Valid() && MayWrite(State(), id)
      requires Within(jobs[id].scope, Registered(State(), id), Tenant(State(), id), content)
      modifies this`tenants, this`trace
      ensures Valid() && old(trace) <= trace && Wrote(old(State()), id) && Tenant(State(), id) == content
    {
      tenants := tenants[jobs[id].domain := content];
      Log(Write(id, content));
    }

    /** The archive has the one file, or the directory, that is to be copied. */
    ghost predicate HasFiles(scope: Scope, archive: Content) {
      match scope
      case File(p) => p in archive.files
      case Files => "public_html" in archive.dirs
      case Email => "mail" in archive.dirs
      case _ => true
    }

    /** restoreTree and restoreSingle: on failure anything may be left within the scope. */
    method RestoreFiles(id: nat, archive: Content) returns (ok: bool)
      requires Valid() && MayWrite(State(), id)
      modifies this`fates, this`tenants, this`trace
      ensures Valid() && old(trace) <= trace && Wrote(old(State()), id)
      ensures ok ==> CarriesFiles(jobs[id].scope, archive, Tenant(State(), id))
      ensures ok ==> HasFiles(jobs[id].scope, archive)
      ensures old(fates) == [] ==> fates == [] && (ok <==> HasFiles(jobs[id].scope, archive))
      ensures Tenant(State(), id).databases.Keys == old(Tenant(State(), id)).databases.Keys
    {
      var scope, registered, now := jobs[id].scope, Registered(State(), id), Tenant(State(), id);
      var fate := Draw();
      match fate
      case Works =>
        if (scope.File? && scope.path !in archive.files) || !(Needs(scope) <= archive.dirs) {
          return false;
        }
        var content := Content(AppliedFiles(scope, archive.files, now.files), now.databases,
                               AppliedDirs(scope, archive.dirs, now.dirs));
        FilesApplied(scope, registered, archive, now);
        WriteTenant(id, content);
        return true;
      case Fails(left) =>
        if Within(scope, registered, now, left) {
          WriteTenant(id, left);
        }
        return false;
    }

    /** importDatabase, with the search for the dump. */
    method ImportDatabase(id: nat, archive: Content, d: string) returns (ok: bool)
      requires Valid() && MayWrite(State(), id) && Imports(jobs[id].scope, Registered(State(), id), d)
      modifies this`fates, this`tenants, this`trace
      ensures Valid() && old(trace) <= trace && Wrote(old(State()), id)
      ensures ok ==> d in archive.databases && d in old(Tenant(State(), id)).databases
      ensures ok ==> Tenant(State(), id) == old(Tenant(State(), id)).(databases :=
        old(Tenant(State(), id)).databases[d := Import(old(Tenant(State(), id)).databases[d], archive.databases[d])])
      ensures old(fates) == []
        ==> fates == [] && (ok <==> d in archive.databases && d in old(Tenant(State(), id)).databases)
      ensures Tenant(State(), id).databases.Keys == old(Tenant(State(), id)).databases.Keys
    {
      var scope, registered, now := jobs[id].scope, Registered(State(), id), Tenant(State(), id);
      var fate := Draw();
      match fate
      case Works =>
        if d !in archive.databases || d !in now.databases {
          return false;
        }
        WriteTenant(id, now.(databases := now.databases[d := Import(now.databases[d], archive.databases[d])]));
        return true;
      case Fails(left) =>
        if Within(scope, registered, now, left) {
          WriteTenant(id, left);
        }
        return false;
    }

    /** The job is as it was, and still being worked on by whoever did. */
    predicate Ongoing(s: System, id: nat)
      reads this
    {
      id in s.jobs && id in jobs && jobs[id] == s.jobs[id] && Known(State(), id) && MayWrite(State(), id)
      && (id in workers <==> id in s.workers) && (id in workers ==> workers[id].stage == s.workers[id].stage)
      && (id !in workers ==> jobs == s.jobs && workers == s.workers && up == s.up)
    }

    /** The goroutine died with the process. */
    predicate Lost(s: System, id: nat)
      reads this
    {
      id in s.workers && id !in workers && id in jobs
    }

    lemma OnlyWhileUp(id: nat)
      requires Valid() && id in workers
      ensures up
    {
      Sound();
      assert workers != map[];
    }

    lemma WriterIsSecured(id: nat)
      requires Valid() && MayWrite(State(), id) && Active(jobs[id].status)
      ensures jobs[id].recovery.Some?
    {
      Sound();
      assert RowOk(State(), id);
    }

    /** Another turn for the others, in a goroutine; start-up recovery runs alone. */
    method Breathe(id: nat) returns (alive: bool)
      requires Valid() && MayWrite(State(), id) && Active(jobs[id].status)
      modifies this
      ensures Valid() && old(trace) <= trace
      ensures alive ==> Ongoing(old(State()), id) && Tenant(State(), id) == old(Tenant(State(), id))
      ensures !alive ==> Lost(old(State()), id)
      ensures fates == old(fates) && (old(schedule) == [] ==> alive && schedule == [] && State() == old(State()))
    {
      alive := true;
      if id in workers {
        OnlyWhileUp(id);
        WriterIsSecured(id);
        Interference(id);
        alive := id in workers;
      }
    }

    /** The databases one after another. */
    method ImportAll(id: nat, archive: Content, wanted: set<string>) returns (ok: bool)
      requires Valid() && MayWrite(State(), id) && Active(jobs[id].status) && jobs[id].scope.Full?
      requires wanted <= Registered(State(), id) && CarriesFiles(Full, archive, Tenant(State(), id))
      modifies this
      ensures Valid() && old(trace) <= trace
      ensures Lost(old(State()), id) || Ongoing(old(State()), id)
      ensures ok ==> Ongoing(old(State()), id) && CarriesFiles(Full, archive, Tenant(State(), id))
      ensures ok ==> forall d | d in wanted :: CarriesDatabase(archive, Tenant(State(), id), d)
      ensures ok ==> wanted <= archive.databases.Keys
      ensures old(Quiet()) ==> Undisturbed(old(State()), id)
      ensures old(Quiet())
        ==> (ok <==> wanted <= archive.databases.Keys && wanted <= old(Tenant(State(), id)).databases.Keys)
    {
      var todo := wanted;
      while todo != {}
        invariant Valid() && old(trace) <= trace && Ongoing(old(State()), id) && todo <= wanted
        invariant CarriesFiles(Full, archive, Tenant(State(), id)) && wanted - todo <= archive.databases.Keys
        invariant forall d | d in wanted - todo :: CarriesDatabase(archive, Tenant(State(), id), d)
        invariant old(Quiet()) ==> Undisturbed(old(State()), id)
        invariant old(Quiet()) ==> wanted - todo <= old(Tenant(State(), id)).databases.Keys
      {
        var d :| d in todo;
        ghost var before := State();
        ok := ImportOne(id, archive, d, wanted - todo);
        if old(Quiet()) {
          UndisturbedTransitive(old(State()), before, id);
        }
        if !ok {
          return;
        }
        todo := todo - {d};
      }
      return true;
    }

    method ImportOne(id: nat, archive: Content, d: string, ghost done: set<string>) returns (ok: bool)
      requires Valid() && MayWrite(State(), id) && Active(jobs[id].status) && jobs[id].scope.Full?
      requires d in Registered(State(), id) && CarriesFiles(Full, archive, Tenant(State(), id))
      requires forall other | other in done :: CarriesDatabase(archive, Tenant(State(), id), other)
      modifies this
      ensures Valid() && old(trace) <= trace
      ensures Lost(old(State()), id) || Ongoing(old(State()), id)
      ensures ok ==> Ongoing(old(State()), id) && CarriesFiles(Full, archive, Tenant(State(), id))
      ensures ok ==> forall other | other in done + {d} :: CarriesDatabase(archive, Tenant(State(), id), other)
      ensures ok ==> d in archive.databases
      ensures old(Quiet()) ==> Undisturbed(old(State()), id)
      ensures old(Quiet()) ==> (ok <==> d in archive.databases && d in old(Tenant(State(), id)).databases)
    {
      ok := Breathe(id);
      if !ok {
        return;
      }
      var now := Tenant(State(), id);
      ok := ImportDatabase(id, archive, d);
      if ok {
        forall other | other in done + {d} ensures CarriesDatabase(archive, Tenant(State(), id), other) {
          ImportCarries(archive, now, d, other);
        }
      }
    }

    /** The switch over the scope that restoreNow and rollbackRestoreJob share. A full restore imports
        every dump of the archive, a full rollback every registered database. */
    method ApplyArchive(id: nat, archive: Content, wanted: set<string>) returns (ok: bool)
      requires Valid() && MayWrite(State(), id) && Active(jobs[id].status)
      requires wanted <= Registered(State(), id)
      requires archive.databases.Keys * Registered(State(), id) <= wanted
      modifies this
      ensures Valid() && old(trace) <= trace
      ensures Lost(old(State()), id) || Ongoing(old(State()), id)
      ensures ok ==> Ongoing(old(State()), id) && Applied(id, archive)
      ensures old(Quiet()) ==> Undisturbed(old(State()), id)
      ensures old(Quiet()) ==> (ok <==> Can(jobs[id].scope, Registered(State(), id), archive,
                                            old(Tenant(State(), id)).databases.Keys, wanted))
    {
      match jobs[id].scope
      case Database(name) => ok := ApplyDatabase(id, archive);
      case Full => ok := ApplyFull(id, archive, wanted);
      case _ => ok := ApplyTree(id, archive);
    }

    /** The scopes that are only files. */
    method ApplyTree(id: nat, archive: Content) returns (ok: bool)
      requires Valid() && MayWrite(State(), id) && Active(jobs[id].status)
      requires !jobs[id].scope.Database? && !jobs[id].scope.Full?
      modifies this
      ensures Valid() && old(trace) <= trace && Ongoing(old(State()), id)
      ensures ok ==> Applied(id, archive)
      ensures old(Quiet()) ==> Undisturbed(old(State()), id)
      ensures old(Quiet()) ==> (ok <==> HasFiles(jobs[id].scope, archive))
    {
      ok := RestoreFiles(id, archive);
      if ok {
        CarriesByScope(jobs[id].scope, Registered(State(), id), archive, Tenant(State(), id));
      }
    }

    /** The tenant holds what the archive has, and the archive had what was asked for. */
    predicate Applied(id: nat, archive: Content)
      requires Known(State(), id)
      reads this
    {
      var j, registered := jobs[id], Registered(State(), id);
      Carries(j.scope, registered, archive, Tenant(State(), id))
      && (j.scope.File? ==> j.scope.path in archive.files) && Needs(j.scope) <= archive.dirs
      && (j.scope.Database? ==> j.scope.name in registered && j.scope.name in archive.databases)
    }

    method ApplyDatabase(id: nat, archive: Content) returns (ok: bool)
      requires Valid() && MayWrite(State(), id) && Active(jobs[id].status) && jobs[id].scope.Database?
      modifies this
      ensures Valid() && old(trace) <= trace && Ongoing(old(State()), id)
      ensures ok ==> Applied(id, archive)
      ensures old(Quiet()) ==> Undisturbed(old(State()), id)
      ensures old(Quiet()) ==> (ok <==> Can(jobs[id].scope, Registered(State(), id), archive,
                                            old(Tenant(State(), id)).databases.Keys, {}))
    {
      var name := jobs[id].scope.name;
      ok := name in Registered(State(), id);
      if ok {
        var now := Tenant(State(), id);
        ok := ImportDatabase(id, archive, name);
        if ok {
          ImportCarries(archive, now, name, name);
          CarriesByScope(jobs[id].scope, Registered(State(), id), archive, Tenant(State(), id));
        }
      }
    }

    method ApplyFull(id: nat, archive: Content, wanted: set<string>) returns (ok: bool)
      requires Valid() && MayWrite(State(), id) && Active(jobs[id].status) && jobs[id].scope.Full?
      requires wanted <= Registered(State(), id)
      requires archive.databases.Keys * Registered(State(), id) <= wanted
      modifies this
      ensures Valid() && old(trace) <= trace
      ensures Lost(old(State()), id) || Ongoing(old(State()), id)
      ensures ok ==> Ongoing(old(State()), id) && Applied(id, archive)
      ensures old(Quiet()) ==> Undisturbed(old(State()), id)
      ensures old(Quiet()) ==> (ok <==> Can(Full, Registered(State(), id), archive,
                                            old(Tenant(State(), id)).databases.Keys, wanted))
    {
      ok := RestoreFiles(id, archive);
      if ok {
        ghost var before := State();
        ok := ImportAll(id, archive, wanted);
        if old(Quiet()) {
          UndisturbedTransitive(old(State()), before, id);
        }
        if ok {
          CarriesByScope(Full, Registered(State(), id), archive, Tenant(State(), id));
        }
      }
    }

    /** The backup has what the scope asks for, the databases to import into exist, and a full backup holds
        registered databases only. */
    ghost predicate Feasible(id: nat)
      requires Known(State(), id)
      reads this
    {
      var j := jobs[id];
      Can(j.scope, Registered(State(), id), j.backup, Tenant(State(), id).databases.Keys, j.backup.databases.Keys)
      && (j.scope.Full? ==> j.backup.databases.Keys <= Registered(State(), id))
    }

    /** What the scope names existed when the recovery archive was taken: the one file, the directory, the one
        registered database, or every registered database. */
    ghost predicate HadIt(j: Job) {
      j.domain in registered && match j.scope
                                case File(p) => p in j.before.files
                                case Files => "public_html" in j.before.dirs
                                case Email => "mail" in j.before.dirs
                                case Database(d) => d in registered[j.domain] && d in j.before.databases
                                case Full => registered[j.domain] <= j.before.databases.Keys
    }

    /** How a restore ends that nothing disturbs: it counts exactly if it can be done and was not cancelled, and
        is otherwise undone exactly if what the scope names existed. */
    ghost function QuietSettlement(id: nat): Status
      requires Known(State(), id) && id in workers
      reads this
    {
      if Feasible(id) && !workers[id].cancelled then Success else if HadIt(jobs[id]) then RolledBack else Failed
    }

    /** How an undisturbed job ends: without a dump of every registered database nothing is changed. */
    ghost function QuietEnd(id: nat): Status
      requires Known(State(), id) && id in workers
      reads this
    {
      if Registered(State(), id) <= Tenant(State(), id).databases.Keys then QuietSettlement(id)
      else if workers[id].cancelled then Cancelled else Failed
    }

    /** The recovery archive offers exactly what existed when it was taken. */
    lemma CanUndo(id: nat)
      requires Valid() && Known(State(), id) && Active(jobs[id].status) && jobs[id].recovery.Some?
      ensures var j, registered := jobs[id], Registered(State(), id);
              Can(j.scope, registered, j.recovery.value, Tenant(State(), id).databases.Keys, registered) <==> HadIt(j)
    {
      Sound();
      assert RowOk(State(), id);
    }

    /** restoreNow, from the lookup of the backup on; `ok` is its 200. */
    method RestoreNow(id: nat) returns (ok: bool)
      requires Valid() && At(State(), id, Applying) && Active(jobs[id].status)
      modifies this
      ensures Valid() && old(trace) <= trace
      ensures Lost(old(State()), id) || Ongoing(old(State()), id)
      ensures ok ==> Ongoing(old(State()), id) && Enabled(State(), RestoreProtocol.Finish(id))
      ensures old(Quiet()) ==> Undisturbed(old(State()), id) && (ok <==> old(Feasible(id)))
    {
      var fate := Draw();
      if fate.Fails? {
        return false;
      }
      ok := Breathe(id);
      if ok {
        var backup, registered := jobs[id].backup, Registered(State(), id);
        ok := ApplyArchive(id, backup, backup.databases.Keys * registered);
        if ok && jobs[id].scope.Full? && !(backup.databases.Keys <= registered) {
          ok := false;
        }
      }
    }

    /** Who may roll the job back: its goroutine, or start-up recovery. */
    predicate Rolling(id: nat)
      reads this
    {
      Known(State(), id) && Active(jobs[id].status) && jobs[id].recovery.Some?
      && (if id in workers then workers[id].stage.Undoing? else !up)
    }

    /** rollbackRestoreJob, of a goroutine or at start-up, where the process may die before the end. */
    method Rollback(id: nat) returns (died: bool)
      requires Valid() && Rolling(id)
      modifies this
      ensures Valid() && old(trace) <= trace && id in jobs && Over(id)
      ensures !Lost(old(State()), id) && !died ==> jobs[id].status.RolledBack? || jobs[id].status.Failed?
      ensures id !in old(workers) ==> jobs == old(jobs)[id := jobs[id]] && workers == old(workers) && !up
      ensures died ==> id !in old(workers) && jobs == old(jobs)
      ensures old(Quiet()) ==> Quiet() && !died && (id in workers <==> id in old(workers))
      ensures old(Quiet()) ==> jobs[id].status == if HadIt(old(jobs)[id]) then RolledBack else Failed
    {
      died := false;
      var mine := id in workers;
      RecoveryIsSnapshot(id);
      CanUndo(id);
      var ok := ApplyArchive(id, jobs[id].recovery.value, Registered(State(), id));
      if mine && id !in workers {
        return;
      }
      if !mine {
        NoWorkers();
        died := DieIfTold();
        if died {
          return;
        }
      }
      Finish(id, if ok then Undone(id) else UndoFailed(id));
    }

    /** The process dies during start-up recovery, if that is what comes next. */
    method DieIfTold() returns (died: bool)
      requires Valid() && !up && workers == map[]
      modifies this
      ensures Valid() && old(trace) <= trace && State() == old(State())
      ensures old(schedule) == [] ==> !died && schedule == []
      ensures fates == old(fates)
    {
      died := schedule != [] && schedule[0].Crash?;
      if died {
        Sound();
        assert Counted(State());
        schedule := schedule[1..];
        Die();
      }
    }

    lemma RecoveryIsSnapshot(id: nat)
      requires Valid() && Known(State(), id) && Active(jobs[id].status) && jobs[id].recovery.Some?
      ensures jobs[id].recovery.value.databases.Keys <= Registered(State(), id)
    {
      Sound();
      assert RowOk(State(), id);
    }

    /** The restore itself and what follows from it: a cancelled one is undone even if it succeeded. */
    method RestoreAndSettle(id: nat)
      requires Valid() && At(State(), id, Applying) && Active(jobs[id].status) && jobs[id].recovery.Some?
      modifies this
      ensures Valid() && old(trace) <= trace && id in jobs && Over(id)
      ensures id in workers ==> jobs[id].status.Success? || jobs[id].status.RolledBack? || jobs[id].status.Failed?
      ensures id in workers && workers[id].cancelled ==> jobs[id].status.RolledBack? || jobs[id].status.Failed?
      ensures Known(State(), id) && (id in workers ==> Outcome(jobs[id], Registered(State(), id)))
      ensures old(Quiet()) ==> Quiet() && id in workers
      ensures old(Quiet()) ==> jobs[id].status == old(QuietSettlement(id))
    {
      var ok := RestoreNow(id);
      if id in workers {
        Settle(id, ok);
      }
      EndedRow(id);
    }

    /** The end of a restore that answered `ok`. */
    method Settle(id: nat, ok: bool)
      requires Valid() && At(State(), id, Applying) && Active(jobs[id].status) && jobs[id].recovery.Some?
      requires ok ==> Enabled(State(), RestoreProtocol.Finish(id))
      modifies this
      ensures Valid() && old(trace) <= trace && id in jobs && Over(id)
      ensures id in workers ==> jobs[id].status.RolledBack? || jobs[id].status.Failed?
                                || (jobs[id].status.Success? && ok && !workers[id].cancelled)
      ensures old(Quiet()) ==> Quiet() && id in workers
      ensures old(Quiet()) ==> jobs[id].status == if ok && !old(workers)[id].cancelled then Success
                                                  else if HadIt(old(jobs)[id]) then RolledBack else Failed
    {
      if workers[id].cancelled || !ok {
        jobs := jobs[id := jobs[id].(status := Running)];
        workers := workers[id := workers[id].(stage := Undoing)];
        Log(BeginUndo(id));
        var died := Rollback(id);
      } else {
        Finish(id, RestoreProtocol.Finish(id));
      }
    }

    lemma EndedRow(id: nat)
      requires Valid() && id in jobs && Over(id)
      ensures Known(State(), id) && (id in workers ==> Outcome(jobs[id], Registered(State(), id)))
    {
      Sound();
      assert RowOk(State(), id);
    }

    /** The deferred releases. */
    method Leave(id: nat)
      requires Valid() && id in workers && id in jobs && workers[id].stage.Leaving? && !Active(jobs[id].status)
      modifies this
      ensures Valid() && old(trace) <= trace && id in jobs && id !in workers
      ensures old(schedule) == [] ==> jobs == old(jobs)
    {
      AlwaysKnown(id);
      if workers[id].stage.slot {
        GiveSlotBack(id);
        Interference(id);
      }
      if id in workers {
        GiveTokenBack(id);
      }
    }

    method GiveSlotBack(id: nat)
      requires Valid() && At(State(), id, Leaving(true))
      modifies this
      ensures Valid() && old(trace) <= trace && At(State(), id, Leaving(false))
      ensures schedule == old(schedule) && jobs == old(jobs)
    {
      Sound();
      assert id in Holders(workers);
      slots := slots - 1;
      workers := workers[id := workers[id].(stage := Leaving(false))];
      Log(FreeSlot(id));
    }

    method GiveTokenBack(id: nat)
      requires Valid() && At(State(), id, Leaving(false))
      modifies this
      ensures Valid() && old(trace) <= trace && id in jobs && id !in workers && jobs == old(jobs)
    {
      Sound();
      assert id in workers.Keys;
      queue := queue - 1;
      workers := workers - {id};
      Log(FreeToken(id));
    }

    /** runRestoreJob. When it returns, its slot and its token are free again, unless it is still
        waiting for a slot and nothing else is going to happen. */
    method RunRestoreJob(id: nat)
      requires Valid() && At(State(), id, Waiting)
      modifies this
      ensures Valid() && old(trace) <= trace && id in jobs
      ensures id !in workers || (At(State(), id, Waiting) && schedule == [])
      ensures old(Quiet()) && old(slots) < 2 ==> id !in workers && jobs[id].status == old(QuietEnd(id))
    {
      var started := WaitForSlot(id);
      if started {
        var ok := TakeRecovery(id);
        if ok {
          RestoreAndSettle(id);
        }
      }
      if id in workers && workers[id].stage.Leaving? {
        Leave(id);
      }
    }

    // ---- Restarting ----

    /** The process dies: goroutines, tokens, slots and cancellations are gone. */
    method Die()
      requires Valid()
      modifies this
      ensures Valid() && old(trace) <= trace && State() == After(old(State()), Crash)
      ensures schedule == old(schedule) && fates == old(fates)
    {
      workers, queue, slots, up := map[], 0, 0, false;
      Log(Crash);
    }

    /** How start-up recovery ends a job when nothing goes wrong: undone if it had begun and can be undone. */
    ghost function InterruptedEnd(j: Job): Status {
      if j.recovery.Some? && HadIt(j) then RolledBack else Failed
    }

    /** Start-up recovery has ended the job, or it is still to come or was over before. */
    ghost predicate Ended(was: Job, now: Job, todo: bool, quiet: bool) {
      if todo || !Active(was.status) then now == was
      else !Active(now.status) && (quiet ==> now.status == InterruptedEnd(was))
    }

    /** RecoverRestoreJobs: unless the rows cannot be read or the process dies again, every interrupted
        job is ended. */
    method RecoverRestoreJobs() returns (ok: bool)
      requires Valid() && !up
      modifies this
      ensures Valid() && old(trace) <= trace && !up && jobs.Keys == old(jobs).Keys
      ensures ok ==> forall id | id in jobs :: !Active(jobs[id].status)
      ensures forall id | id in old(jobs) && !Active(old(jobs)[id].status) :: jobs[id] == old(jobs)[id]
      ensures old(Quiet())
        ==> ok && forall id | id in jobs && Active(old(jobs)[id].status) ::
                    jobs[id].status == InterruptedEnd(old(jobs)[id])
    {
      NoWorkers();
      var fate := Draw();
      ok := fate.Works?;
      if ok {
        var todo: set<nat> := set id | id in jobs && Active(jobs[id].status);
        while todo != {}
          invariant Valid() && old(trace) <= trace && !up && workers == map[] && jobs.Keys == old(jobs).Keys
          invariant forall id | id in todo :: id in jobs && Active(old(jobs)[id].status)
          invariant old(Quiet()) ==> Quiet()
          invariant forall id | id in jobs :: Ended(old(jobs)[id], jobs[id], id in todo, old(Quiet()))
          decreases |todo|
        {
          var id :| id in todo;
          var died := EndInterrupted(id);
          if died {
            return false;
          }
          todo := todo - {id};
        }
      }
    }

    lemma NoWorkers()
      requires Valid() && !up
      ensures workers == map[]
    {
      Sound();
      assert Counted(State());
    }

    lemma AlwaysKnown(id: nat)
      requires Valid() && id in jobs
      ensures Known(State(), id)
    {
      Sound();
    }

    /** One interrupted job, unless the process dies before it or during its rollback. */
    method EndInterrupted(id: nat) returns (died: bool)
      requires Valid() && !up && workers == map[] && id in jobs && Active(jobs[id].status)
      modifies this
      ensures Valid() && old(trace) <= trace && !up && workers == map[]
      ensures id in jobs && jobs == old(jobs)[id := jobs[id]] && (died || !Active(jobs[id].status))
      ensures old(Quiet()) ==> Quiet() && !died && jobs[id].status == InterruptedEnd(old(jobs)[id])
    {
      died := DieIfTold();
      if died { return; }
      AlwaysKnown(id);
      if jobs[id].recovery.None? {
        Finish(id, FailInterrupted(id));
      } else {
        died := Rollback(id);
      }
    }

    method StartServing()
      requires Valid() && !up
      modifies this
      ensures Valid() && old(trace) <= trace && State() == After(old(State()), Serve)
    {
      up := true;
      Log(Serve);
    }
  }
}
