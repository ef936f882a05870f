/** The panel's own code for deploying, reconciling and reconfiguring one managed application. The
    fields are what survives a crash of the panel; every call to the outside draws its fate from
    `fates`, and a crash freezes everything until `Boot`. The ghost trace is proved to be a run of
    DeployProtocol, so what holds of its runs holds at every point of these methods. */
module DeployPanel {
  import opened Wrappers
  import opened UnitFile
  import opened DeployProtocol

  /** What becomes of one call: it works, it fails (having done its work or not), or the panel dies. */
  datatype Fate = Works | Fails(partly: bool) | Dies

  datatype DeployResult = DeployResult(failed: bool, rolledBack: bool)

  class Panel {
    const site: Site
    const fates: nat -> Fate
    var clock: nat
    var down: bool
    var suspended: bool
    var disk: set<string>
    var unit: Option<Unit>
    var loaded: Option<Unit>
    var running: Option<Unit>
    var pending: Option<string>
    var row: Option<Config>
    ghost var phase: Phase
    ghost var trace: seq<Host>

    ghost function Now(): Host
      reads this
    {
      Host(disk, unit, loaded, running, pending, row, phase)
    }

    ghost predicate Valid()
      reads this
    {
      SiteOk(site) && Run(site, trace) && Fresh(trace[0]) && trace[|trace| - 1] == Now() && (down ==> phase.Idle?)
    }

    /** From now on every call to the outside works. */
    ghost predicate AllWork()
      reads this
    {
      !down && forall n | n >= clock :: fates(n).Works?
    }

    /** No state recorded from index `from` on has the marker of a deployment written. */
    ghost predicate NoneMarked(from: nat)
      reads this
    {
      forall i | from <= i < |trace| :: !trace[i].phase.Switching?
    }

    /** What the protocol keeps holds of the present state, and a missing marker tells what it should. */
    lemma Sound()
      requires Valid()
      ensures Inv(site, Now())
      ensures NoneCutShort(site, trace) ==> MarkerTells(site, Now())
    {
      RunKeepsInv(site, trace, |trace| - 1);
      MarkerTellsExactly(site, trace);
    }

    constructor (site: Site, fates: nat -> Fate, disk: set<string>)
      requires SiteOk(site)
      ensures Valid() && Fresh(Now()) && trace == [Now()] && !down && this.site == site
    {
      this.site, this.fates, this.disk := site, fates, disk;
      clock, down, suspended := 0, false, false;
      unit, loaded, running, pending, row := None, None, None, None, None;
      phase := Idle;
      new;
      trace := [Now()];
    }

    /** The present state follows the last one recorded. */
    ghost method Record(a: Action)
      requires SiteOk(site) && Run(site, trace) && Fresh(trace[0]) && Step(site, trace[|trace| - 1], a, Now())
      requires down ==> phase.Idle?
      modifies this`trace
      ensures Valid() && trace == old(trace) + [Now()]
    {
      RunExtends(site, trace, a, Now());
      trace := trace + [Now()];
    }

    /** One call to the outside that changes nothing itself; the panel may die at it. */
    method Try() returns (ok: bool, partly: bool)
      requires Valid()
      modifies this
      ensures Valid() && old(trace) <= trace && suspended == old(suspended)
      ensures down ==> !ok && !partly && Now() == old(Now()).(phase := Idle)
      ensures !down ==> !old(down) && Now() == old(Now()) && trace == old(trace)
      ensures !down ==> clock == old(clock) + 1 && (ok <==> fates(old(clock)).Works?)
      ensures NoneMarked(|old(trace)|) && old(clock) <= clock && (old(AllWork()) ==> ok && AllWork())
    {
      if down {
        return false, false;
      }
      var f := fates(clock);
      clock := clock + 1;
      match f
      case Works => return true, false;
      case Fails(p) => return false, p;
      case Dies =>
        down, phase := true, Idle;
        Record(Crash);
        return false, false;
    }

    /** atomicWrite of the pending marker. */
    method WriteMarker(staged: string, was: Unit) returns (ok: bool)
      requires Valid() && (!down ==> phase == Building(staged) && unit == Some(was))
      requires row.Some? && BinaryFor(site, row.value) != ""
      modifies this
      ensures Valid() && old(trace) <= trace && (down ==> !ok && Now() == old(Now()).(phase := Idle))
      ensures !down ==> !old(down)
      ensures ok ==> Now() == old(Now()).(pending := Some(staged), phase := Switching(staged, was, false))
      ensures !down && !ok ==> Now() == old(Now()) && trace == old(trace)
      ensures old(clock) <= clock && (old(AllWork()) ==> ok && AllWork())
    {
      var partly;
      ok, partly := Try();
      if ok {
        pending, phase := Some(staged), Switching(staged, was, false);
        Record(Mark);
      }
    }

    /** atomicWrite of the unit file: the rename is the last thing it does. */
    method WriteUnit(u: Unit, ghost a: Action) returns (ok: bool)
      requires Valid() && (a.WriteNew? || a.WriteOld? || a.WriteExpected?)
      requires !down ==> Step(site, Now(), a, Now().(unit := Some(u)))
      modifies this
      ensures Valid() && old(trace) <= trace && (down ==> !ok && Now() == old(Now()).(phase := Idle))
      ensures !down ==> !old(down) && suspended == old(suspended)
      ensures ok ==> Now() == old(Now()).(unit := Some(u))
      ensures !down && !ok ==> Now() == old(Now())
      ensures !old(phase).Switching? ==> NoneMarked(|old(trace)|)
      ensures old(clock) <= clock && (old(AllWork()) ==> ok && AllWork())
    {
      var partly;
      ok, partly := Try();
      if ok {
        RenameOver(u, a);
      }
    }

    method RenameOver(u: Unit, ghost a: Action)
      requires Valid() && !down && (a.WriteNew? || a.WriteOld? || a.WriteExpected?)
      requires Step(site, Now(), a, Now().(unit := Some(u)))
      modifies this`unit, this`trace
      ensures Valid() && trace == old(trace) + [Now()] && Now() == old(Now()).(unit := Some(u))
    {
      unit := Some(u);
      Record(a);
    }

    /** systemctl daemon-reload. */
    method DaemonReload() returns (ok: bool)
      requires Valid()
      modifies this
      ensures Valid() && old(trace) <= trace && (down ==> !ok && Now() == old(Now()).(phase := Idle))
      ensures !down ==> !old(down) && suspended == old(suspended)
      ensures !down ==> Now() in {old(Now()), old(Now()).(loaded := unit)}
      ensures ok ==> loaded == unit
      ensures !old(phase).Switching? ==> NoneMarked(|old(trace)|)
      ensures old(clock) <= clock && (old(AllWork()) ==> ok && AllWork())
    {
      var partly;
      ok, partly := Try();
      if ok || partly {
        loaded := unit;
        Record(Reload);
      }
    }

    /** systemctl start, restart or stop: a failed one leaves the service as it was, or stopped. */
    method Systemctl(start: bool) returns (ok: bool)
      requires Valid()
      modifies this
      ensures Valid() && old(trace) <= trace && (down ==> !ok && Now() == old(Now()).(phase := Idle))
      ensures !down ==> !old(down) && suspended == old(suspended)
      ensures !down ==> Now() in {old(Now()), old(Now()).(running := None), old(Now()).(running := loaded)}
      ensures ok ==> running == if start then loaded else None
      ensures !old(phase).Switching? ==> NoneMarked(|old(trace)|)
      ensures old(clock) <= clock && (old(AllWork()) ==> ok && AllWork())
    {
      var partly;
      ok, partly := Try();
      if ok || partly {
        running := if ok && start then loaded else None;
        Record(Service(running));
      }
    }

    /** waitHTTP: it passes only while the service runs. */
    method WaitHealthy() returns (ok: bool)
      requires Valid()
      modifies this
      ensures Valid() && old(trace) <= trace && (down ==> !ok && Now() == old(Now()).(phase := Idle))
      ensures !down ==> !old(down) && suspended == old(suspended) && Now() == old(Now())
      ensures ok ==> running.Some?
      ensures NoneMarked(|old(trace)|)
      ensures old(clock) <= clock && (old(AllWork()) && old(running).Some? ==> ok && AllWork())
    {
      var partly;
      ok, partly := Try();
      ok := ok && running.Some?;
    }

    /** `discard` of the release a failed build or a rollback leaves, or of the previous one: an error
        says nothing of whether the directory is gone. */
    method Discard(release: string, ghost kind: Action)
      requires Valid() && (kind.Drop? || kind.DiscardPrevious? || kind.DiscardStaged?)
      requires !down && kind.Drop? ==> phase == Building(release)
      requires !down && kind.DiscardStaged? ==> phase.Restored? && phase.staged == release
      requires !down && kind.DiscardPrevious?
        ==> phase.Committed? && phase.previous == release && release != "" && release != phase.staged
      modifies this
      ensures Valid() && old(trace) <= trace && (down ==> Now() == old(Now()).(phase := Idle))
      ensures !down ==> !old(down) && disk in {old(disk), old(disk) - {release}}
      ensures !down ==> phase == if kind.Drop? then Idle else old(phase)
      ensures Now() == old(Now()).(disk := disk, phase := phase)
      ensures !old(phase).Switching? ==> NoneMarked(|old(trace)|)
      ensures old(clock) <= clock && (old(AllWork()) ==> AllWork() && disk == old(disk) - {release})
    {
      var ok, partly := Try();
      if !down {
        var gone := ok || partly;
        disk := if gone then disk - {release} else disk;
        phase := if kind.Drop? then Idle else phase;
        Record(if kind.Drop? then Drop(gone)
               else if kind.DiscardStaged? then DiscardStaged(gone) else DiscardPrevious(gone));
      }
    }

    /** The switchTo hook. */
    method SwitchTo(staged: string, was: Unit, next: Unit) returns (ok: bool)
      requires Valid() && (!down ==> phase == Building(staged) && unit == Some(was))
      requires row.Some? && BinaryFor(site, row.value) != "" && next == Target(site, row.value, staged)
      modifies this
      ensures Valid() && old(trace) <= trace && row == old(row) && disk == old(disk)
      ensures down ==> !ok
      ensures !down ==> !old(down) && (phase == Building(staged) || phase == Switching(staged, was, false))
      ensures !down && phase.Building? ==> !ok && unit == Some(was) && pending == old(pending) && trace == old(trace)
      ensures !down && phase.Switching? ==> pending == Some(staged)
      ensures ok ==> unit == loaded == running == Some(next) && phase.Switching?
      ensures old(clock) <= clock && (old(AllWork()) ==> ok && AllWork())
    {
      ok := WriteMarker(staged, was);
      if !ok { return; }
      ok := WriteUnit(next, WriteNew);
      if !ok { return; }
      ok := DaemonReload();
      if !ok { return; }
      ok := Systemctl(true);
    }

    /** The restore hook. */
    method Restore(staged: string, was: Unit) returns (ok: bool)
      requires Valid() && (!down ==> phase == Restoring(staged, was))
      modifies this
      ensures Valid() && old(trace) <= trace && row == old(row) && disk == old(disk) && pending == old(pending)
      ensures down ==> !ok
      ensures !down ==> !old(down) && (unit == Some(was) || unit == old(unit))
      ensures ok ==> phase == Restored(staged, was) && unit == loaded == running == Some(was)
      ensures !down && !ok ==> phase == Restoring(staged, was)
      ensures !old(phase).Switching? ==> NoneMarked(|old(trace)|)
      ensures old(clock) <= clock
    {
      ok := WriteUnit(was, WriteOld);
      if ok {
        ok := RestartOld(staged, was);
      }
    }

    /** The restore hook once the old unit is written. */
    method RestartOld(staged: string, was: Unit) returns (ok: bool)
      requires Valid() && !down && phase == Restoring(staged, was) && unit == Some(was)
      modifies this
      ensures Valid() && old(trace) <= trace && (down ==> !ok)
      ensures Now() == old(Now()).(loaded := loaded, running := running, phase := phase)
      ensures ok ==> phase == Restored(staged, was) && loaded == running == Some(was)
      ensures !down && !ok ==> phase == Restoring(staged, was)
      ensures NoneMarked(|old(trace)|)
      ensures old(clock) <= clock
    {
      ok := DaemonReload();
      if !ok { return; }
      ok := Systemctl(true);
      if !ok { return; }
      ok := WaitHealthy();
      if ok {
        phase := Restored(staged, was);
        Record(RestoreDone);
      }
    }

    ghost method BeginRestore(staged: string, was: Unit)
      requires Valid() && !down
      requires (phase == Building(staged) && unit == Some(was) && row.Some? && BinaryFor(site, row.value) != "")
               || (phase.Switching? && phase.staged == staged && phase.was == was)
      modifies this`phase, this`trace
      ensures Valid() && trace == old(trace) + [Now()] && phase == Restoring(staged, was)
    {
      var marked := phase.Switching?;
      phase := Restoring(staged, was);
      Record(if marked then Abort else MarkFailed);
    }

    /** The rollback closure of runReleaseTransition. */
    method Rollback(staged: string, was: Unit) returns (r: DeployResult)
      requires Valid()
      requires !down ==> (phase == Building(staged) && unit == Some(was))
                         || (phase.Switching? && phase.staged == staged && phase.was == was)
      requires !down && phase.Building? ==> row.Some? && BinaryFor(site, row.value) != ""
      modifies this
      ensures Valid() && old(trace) <= trace && r.failed && row == old(row) && pending == old(pending)
      ensures !down ==> !old(down)
      ensures !down && r.rolledBack ==> phase == Restored(staged, was) && unit == loaded == running == Some(was)
      ensures !down && !r.rolledBack ==> phase.Idle? && disk == old(disk) && (unit == Some(was) || unit == old(unit))
      ensures !down ==> NoneMarked(|old(trace)|)
      ensures old(clock) <= clock
    {
      if !down {
        BeginRestore(staged, was);
      }
      var ok := Restore(staged, was);
      if !ok {
        if !down {
          phase := Idle;
          Record(RestoreFailed);
        }
        return DeployResult(true, false);
      }
      Discard(staged, DiscardStaged(true));
      return DeployResult(true, true);
    }

    ghost function CommittedFrom(h: Host, staged: string, binary: string): Host {
      if h.row.None? then h
      else h.(row := Some(Deployed(h.row.value, staged, binary)), phase := Committed(staged, h.row.value.release))
    }

    /** The persist hook: an error means that the row was not written. */
    method Persist(staged: string, binary: string) returns (ok: bool)
      requires Valid()
      requires !down ==> phase.Switching? && phase.healthy && phase.staged == staged && row.Some?
                         && binary == BinaryFor(site, row.value)
      modifies this
      ensures Valid() && old(trace) <= trace && (down ==> !ok && Now() == old(Now()).(phase := Idle))
      ensures !down ==> !old(down)
      ensures ok ==> Now() == CommittedFrom(old(Now()), staged, binary)
      ensures !down && !ok ==> Now() == old(Now())
      ensures old(clock) <= clock && (old(AllWork()) ==> ok && AllWork())
    {
      var partly;
      ok, partly := Try();
      if ok {
        ghost var previous := row.value.release;
        row := Some(Deployed(row.value, staged, binary));
        phase := Committed(staged, previous);
        Record(Commit);
      }
    }

    /** Switch, check and commit, in that order, up to the first failure. */
    method SwitchCheckPersist(staged: string, was: Unit, binary: string) returns (ok: bool)
      requires Valid() && (!down ==> phase == Building(staged) && unit == Some(was))
      requires row.Some? && binary == BinaryFor(site, row.value) && binary != ""
      modifies this
      ensures Valid() && old(trace) <= trace && disk == old(disk) && (down ==> !ok) && (!down ==> !old(down))
      ensures ok ==> SwitchedAndHealthy(old(|trace|), staged, Target(site, old(row).value, staged))
      ensures ok ==> row == Some(Deployed(old(row).value, staged, binary))
      ensures ok ==> phase == Committed(staged, old(row).value.release)
      ensures !ok ==> row == old(row)
      ensures !down && !ok ==> phase.Building? || phase.Switching?
      ensures !down && phase.Building?
        ==> phase == Building(staged) && unit == Some(was) && pending == old(pending) && trace == old(trace)
      ensures !down && phase.Switching? ==> phase.staged == staged && phase.was == was && pending == Some(staged)
      ensures old(clock) <= clock && (old(AllWork()) ==> ok && AllWork())
    {
      ghost var from, target := |trace|, Target(site, row.value, staged);
      ok := SwitchTo(staged, was, UnitFor(site, row.value.(release := staged), binary));
      if !ok { return; }
      ok := WaitHealthy();
      if !ok { return; }
      phase := Switching(staged, was, true);
      Record(Healthy);
      ghost var at := |trace| - 1;
      ok := Persist(staged, binary);
      if ok {
        assert HealthyIn(trace[at], staged, target);
      }
    }

    /** The releases a successful deployment of `release` removes: the one before it, unless there is none. */
    ghost function Obsolete(was: Config, release: string): set<string> {
      if was.release == "" || was.release == release then {} else {was.release}
    }

    /** runReleaseTransition: success, a rollback that put everything back, or neither. */
    method RunReleaseTransition(staged: string, was: Unit, binary: string) returns (r: DeployResult)
      requires Valid() && !down && phase == Building(staged) && unit == Some(was)
      requires row.Some? && binary == BinaryFor(site, row.value) && binary != ""
      modifies this
      ensures Valid() && old(trace) <= trace
      ensures !down && !r.failed ==> SwitchedAndHealthy(old(|trace|), staged, Target(site, old(row).value, staged))
      ensures !down && !r.failed ==> row == Some(Deployed(old(row).value, staged, binary)) && phase.Committed?
      ensures !down && r.rolledBack ==> r.failed && unit == Some(was) && row == old(row)
      ensures !down ==> pending in {old(pending), Some(staged)}
      ensures !down && r.rolledBack ==> phase == Restored(staged, was) || (phase.Idle? && pending == old(pending))
      ensures !down && r.failed && !r.rolledBack ==> phase.Idle? && row == old(row) && disk == old(disk)
      ensures !down && r.failed && !r.rolledBack ==> Left(old(|trace|), staged, was)
      ensures old(clock) <= clock && (old(AllWork()) ==> !r.failed && AllWork())
      ensures old(AllWork()) ==> disk == old(disk) - Obsolete(old(row).value, staged)
    {
      Sound();
      var previous := row.value.release;
      var ok, partly := Try(); // prepare
      if !ok {
        Discard(staged, Drop(true));
        return DeployResult(true, true);
      }
      ok := SwitchCheckPersist(staged, was, binary);
      if !ok {
        ghost var last, marked := |trace| - 1, phase.Switching?;
        assert !down && marked ==> last >= |old(trace)| && trace[last].phase.Switching?;
        r := Rollback(staged, was);
        return;
      }
      ghost var from, target := old(|trace|), Target(site, old(row).value, staged);
      ghost var at :| from <= at < |trace| && HealthyIn(trace[at], staged, target);
      if previous != "" && previous != staged {
        Discard(previous, DiscardPrevious(true));
      }
      assert HealthyIn(trace[at], staged, target);
      return DeployResult(false, false);
    }

    /** What a deployment leaves that failed without a rollback: the marker exactly if it was written,
        and otherwise the old unit. */
    ghost predicate Left(from: nat, staged: string, was: Unit)
      reads this
    {
      (pending == Some(staged) <==> !NoneMarked(from)) && (NoneMarked(from) ==> pending.None? && unit == Some(was))
    }

    /** The new unit is in place, loaded and running, the marker still there, and in some state recorded from
        index `from` on it was running and a health check had passed. */
    ghost predicate SwitchedAndHealthy(from: nat, staged: string, target: Unit)
      reads this
    {
      unit == loaded == running == Some(target) && pending == Some(staged)
      && exists i :: from <= i < |trace| && HealthyIn(trace[i], staged, target)
    }

    /** The new unit runs and a health check of it has passed. */
    ghost predicate HealthyIn(h: Host, staged: string, target: Unit) {
      h.phase.Switching? && h.phase.staged == staged && h.phase.healthy && h.running == Some(target)
    }

    /** The last of the calls made to the outside worked. */
    ghost predicate LastWorked()
      reads this
    {
      clock > 0 && fates(clock - 1).Works?
    }

    /** os.Remove of the marker after a deployment that ended one way or the other. */
    method Finish()
      requires Valid() && (!down ==> phase.Committed? || phase.Restored? || (phase.Idle? && pending.None?))
      modifies this
      ensures Valid() && old(trace) <= trace && phase.Idle? && (!down ==> !old(down))
      ensures Now() == old(Now()).(phase := Idle, pending := pending) && pending in {None, old(pending)}
      ensures !down ==> clock == old(clock) + 1
      ensures !down ==> (pending.None? <==> old(pending).None? || fates(old(clock)).Works?)
      ensures old(AllWork()) ==> AllWork()
    {
      var ok, partly := Try();
      if !down {
        pending := if ok then None else pending;
        if !phase.Idle? {
          phase := Idle;
          Record(Action.Finish(ok));
        }
      }
    }

    /** What is left of a deployment that failed without a rollback: the marker and the staged release
        exactly if the marker was written, and otherwise the unit as it was and no marker. */
    ghost predicate Abandoned(from: nat, release: string, was: Option<Unit>)
      reads this
    {
      (pending == Some(release) <==> !NoneMarked(from))
      && (if NoneMarked(from) then pending.None? && unit == was else release in disk)
    }

    /** DeployGitAtomic of an application that is managed; `release` is the directory `stage` makes and
        `sound` whether its commit and its path pass the checks. */
    method DeployGitAtomic(release: string, sound: bool) returns (r: DeployResult)
      requires Valid() && !down && phase.Idle? && row.Some? && release != "" && release !in disk
      modifies this
      ensures Valid() && old(trace) <= trace && phase.Idle?
      ensures old(pending).Some? ==> r.failed && !r.rolledBack && Now() == old(Now())
      ensures !down && !r.failed ==> Deployment(old(Now()), old(|trace|), release)
      ensures !down && r.rolledBack ==> unit == old(unit) && row == old(row) && pending in {None, Some(release)}
      ensures !down && r.failed && !r.rolledBack ==> row == old(row)
      ensures !down && r.failed && !r.rolledBack && old(pending).None?
        ==> Abandoned(old(|trace|), release, old(unit))
      ensures !down && (!r.failed || r.rolledBack) ==> old(clock) < clock
      ensures !down && !r.failed ==> (pending.None? <==> LastWorked())
      ensures !down && r.rolledBack && pending.Some? ==> !LastWorked()
      ensures !sound || old(unit).None? || BinaryFor(site, old(row).value) == "" ==> r.failed && !r.rolledBack
      ensures old(AllWork()) ==> !down && !r.rolledBack && (pending.None? <==> old(pending).None?)
      ensures old(AllWork()) ==> (!r.failed <==> old(pending).None? && sound && old(unit).Some?
                                                 && BinaryFor(site, old(row).value) != "")
      ensures old(AllWork())
        ==> disk == if r.failed then old(disk) else old(disk) + {release} - Obsolete(old(row).value, release)
    {
      if pending.Some? {
        return DeployResult(true, false);
      }
      var ok := StageRelease(release);
      if !ok {
        return DeployResult(true, false);
      }
      r := DeployStaged(release, sound);
      assert old(disk) + {release} - {release} == old(disk);
    }

    /** The checks before a deployment, and `stage`, which cleans up after itself when it fails. */
    method StageRelease(release: string) returns (ok: bool)
      requires Valid() && !down && phase.Idle? && pending.None? && row.Some? && release != "" && release !in disk
      modifies this
      ensures Valid() && old(trace) <= trace && (down ==> !ok)
      ensures Now() == if ok then old(Now()).(disk := disk, phase := phase) else old(Now())
      ensures ok ==> phase == Building(release) && disk == old(disk) + {release}
      ensures NoneMarked(|old(trace)|)
      ensures old(clock) <= clock && (old(AllWork()) ==> ok && AllWork())
    {
      var partly;
      ok, partly := Try(); // the site, the row, the service and its health
      if !ok { return; }
      ok, partly := Try();
      if ok {
        disk, phase := disk + {release}, Building(release);
        Record(Stage(release));
      }
    }

    /** DeployGitAtomic from the staged release on. */
    method DeployStaged(release: string, sound: bool) returns (r: DeployResult)
      requires Valid() && !down && phase == Building(release) && row.Some? && pending.None? && release in disk
      modifies this
      ensures Valid() && old(trace) <= trace && phase.Idle?
      ensures !down && !r.failed ==> Deployment(old(Now()), old(|trace|), release)
      ensures !down && r.rolledBack ==> unit == old(unit) && row == old(row) && pending in {None, Some(release)}
      ensures !down && r.failed && !r.rolledBack ==> row == old(row)
      ensures !down && r.failed && !r.rolledBack ==> Abandoned(old(|trace|), release, old(unit))
      ensures !down && (!r.failed || r.rolledBack) ==> old(clock) < clock
      ensures !down && !r.failed ==> (pending.None? <==> LastWorked())
      ensures !down && r.rolledBack && pending.Some? ==> !LastWorked()
      ensures !sound || old(unit).None? || BinaryFor(site, old(row).value) == "" ==> r.failed && !r.rolledBack
      ensures old(AllWork()) ==> !down && !r.rolledBack && pending.None?
      ensures old(AllWork()) ==> (!r.failed <==> sound && old(unit).Some? && BinaryFor(site, old(row).value) != "")
      ensures old(AllWork())
        ==> disk == old(disk) - (if r.failed then {release} else Obsolete(old(row).value, release))
    {
      var binary := BinaryFor(site, row.value);
      if !sound || unit.None? || binary == "" {
        Discard(release, Drop(true));
        return DeployResult(true, false);
      }
      r := RunReleaseTransition(release, unit.value, binary);
      if !down && (!r.failed || r.rolledBack) {
        ghost var before := trace;
        Finish();
        assert forall i | 0 <= i < |before| :: trace[i] == before[i];
        KeepsHealthy(before, old(|trace|), release, Target(site, old(row).value, release));
      }
    }

    /** What the trace records stays recorded. */
    lemma KeepsHealthy(before: seq<Host>, from: nat, release: string, target: Unit)
      requires before <= trace
      ensures (exists i :: from <= i < |before| && HealthyIn(before[i], release, target))
              ==> exists i :: from <= i < |trace| && HealthyIn(trace[i], release, target)
    {
      if i :| from <= i < |before| && HealthyIn(before[i], release, target) {
        assert HealthyIn(trace[i], release, target);
      }
    }

    /** What a successful deployment leaves. */
    ghost predicate Deployment(was: Host, from: nat, release: string)
      reads this
    {
      was.row.Some? && row == Some(Deployed(was.row.value, release, BinaryFor(site, was.row.value)))
      && unit == loaded == running == Some(Target(site, was.row.value, release)) && pending in {None, Some(release)}
      && exists i :: from <= i < |trace| && HealthyIn(trace[i], release, Target(site, was.row.value, release))
    }

    /** Ends a reconciliation that could not finish. */
    method Fail()
      requires Valid() && (!down ==> phase.Reconciling?)
      modifies this
      ensures Valid() && old(trace) <= trace && Now() == old(Now()).(phase := Idle) && down == old(down)
    {
      if !down {
        phase := Idle;
        Record(GiveUp);
      }
    }

    /** The last part of reconcileOne: start or stop the service under the expected unit. */
    method StartExpected() returns (ok: bool)
      requires Valid() && (!down ==> phase.Reconciling?)
      modifies this
      ensures Valid() && old(trace) <= trace && (down ==> !ok) && (!down ==> !old(down))
      ensures row == old(row) && disk == old(disk) && unit == old(unit) && pending == old(pending)
      ensures !down ==> phase.Reconciling? && suspended == old(suspended)
      ensures ok ==> loaded == unit && running == if suspended then None else unit
      ensures old(AllWork()) && old(unit).Some? ==> ok && AllWork()
    {
      ok := DaemonReload();
      if !ok { return; }
      if suspended {
        ok := Systemctl(false);
        return;
      }
      var partly;
      ok, partly := Try(); // systemctl enable
      if !ok { return; }
      ok := Systemctl(true);
      if !ok { return; }
      ok := WaitHealthy();
    }

    /** The part of reconcileOne that changes anything. */
    method Repair(expected: Unit) returns (ok: bool)
      requires Valid() && !down && phase.Idle? && row.Some? && expected == Expected(site, row.value)
      requires BinaryFor(site, row.value) != ""
      modifies this
      ensures Valid() && old(trace) <= trace && phase.Idle? && (down ==> !ok)
      ensures row == old(row) && disk == old(disk)
      ensures ok ==> unit == loaded == Some(expected) && pending.None? && running == if suspended then None else unit
      ensures old(AllWork()) ==> ok
    {
      phase := Reconciling;
      Record(BeginReconcile);
      ok := WriteUnit(expected, WriteExpected);
      if ok {
        ok := StartExpected();
      }
      if ok {
        ok := ClearMarker();
      }
      if !ok {
        Fail();
      }
    }

    /** os.Remove of the marker, if there was one, once the service is as it should be. */
    method ClearMarker() returns (ok: bool)
      requires Valid() && !down && phase.Reconciling? && UnitAgrees(site, Now())
      modifies this
      ensures Valid() && old(trace) <= trace && (down ==> !ok)
      ensures ok ==> Now() == old(Now()).(phase := Idle, pending := None)
      ensures !ok ==> Now() == old(Now()).(phase := phase) && (!down ==> phase.Reconciling?)
      ensures ok ==> suspended == old(suspended)
      ensures old(AllWork()) ==> ok
    {
      ok := true;
      if pending.Some? {
        var partly;
        ok, partly := Try();
      }
      if ok {
        phase, pending := Idle, None;
        Record(Settle);
      }
    }

    /** reconcileOne: the committed row is authoritative. A second call finds nothing to do. */
    method ReconcileOne() returns (ok: bool)
      requires Valid() && !down && phase.Idle?
      modifies this
      ensures Valid() && old(trace) <= trace && phase.Idle? && (down ==> !ok)
      ensures row == old(row) && disk == old(disk)
      ensures ok && row.Some? ==> Settled(site, Now())
      ensures ok && row.Some? && Now() != old(Now()) ==> unit == loaded == Some(Expected(site, row.value))
      ensures ok && row.Some? && Now() != old(Now()) ==> running == if suspended then None else unit
      ensures old(row.None? || Settled(site, Now())) ==> Now() == old(Now())
      ensures old(AllWork()) ==> (ok <==> row.None? || BinaryFor(site, row.value) != "")
    {
      var partly;
      ok, partly := Try(); // the site and the row
      if !ok || row.None? {
        return;
      }
      ok, partly := Try(); // the release directory, the paths and the files read
      if !ok || BinaryFor(site, row.value) == "" {
        return false;
      }
      var expected := Expected(site, row.value);
      if unit.Some? && Agrees(unit.value, expected) && pending.None? {
        return true;
      }
      ok := Repair(expected);
    }

    /** The old unit file is written back, or the new one removed; an error is ignored. */
    method PutBack(was: Option<Unit>)
      requires Valid() && (!down ==> phase.Putting? && phase.before == was)
      modifies this
      ensures Valid() && old(trace) <= trace && phase.Idle? && (!down ==> !old(down))
      ensures Now() == old(Now()).(unit := unit, phase := Idle) && unit in {was, old(unit)}
    {
      var ok, partly := Try();
      if !down {
        if ok {
          unit, phase := was, Idle;
          Record(PutUndo);
        } else {
          phase := Idle;
          Record(PutAbandon);
        }
      }
    }

    /** Put's rollback closure: every call's error is ignored. */
    method UndoPut(was: Option<Unit>, enabled: bool)
      requires Valid() && (!down ==> phase.Putting? && phase.before == was)
      modifies this
      ensures Valid() && old(trace) <= trace && phase.Idle? && row == old(row) && disk == old(disk)
      ensures !down ==> !old(down) && unit in {was, old(unit)}
    {
      var ok := Systemctl(false);
      PutBack(was);
      ok := DaemonReload();
      if was.Some? && enabled {
        ok := Systemctl(true);
      }
    }

    /** The part of Put that starts or stops the service under the new unit. */
    method StartOrStop(enable: bool, existed: bool) returns (ok: bool)
      requires Valid() && (!down ==> phase.Putting?)
      modifies this
      ensures Valid() && old(trace) <= trace && (down ==> !ok) && (!down ==> !old(down))
      ensures Now() == old(Now()).(loaded := loaded, running := running, phase := phase)
      ensures !down ==> phase == old(phase)
      ensures ok && enable ==> running.Some?
      ensures old(AllWork()) && old(unit).Some? ==> ok && AllWork()
      ensures ok && !enable ==> running.None?
    {
      ok := DaemonReload();
      if !ok { return; }
      ok := Systemctl(enable);
      if !ok || !enable { return; }
      if existed {
        ok := Systemctl(true);
        if !ok { return; }
      }
      ok := WaitHealthy();
    }

    /** The row runs a Git release with another runtime, entry file or interpreter than the settings ask for;
        without one asked for, the first installed counts. */
    ghost predicate OtherCommand(was: Option<Config>, settings: Config) {
      was.Some? && was.value.release != ""
      && (was.value.runtime != settings.runtime || was.value.entrypoint != settings.entrypoint
          || was.value.interpreter != (if settings.interpreter == "" then BinaryFor(site, settings)
                                       else settings.interpreter))
    }

    /** The new row runs the same release as the old one if it runs it with the same runtime, interpreter and
        entry file, and none otherwise, which cannot be while the application was running. */
    ghost predicate KeepsRelease(was: Option<Config>, now: Config, wasEnabled: bool) {
      if was.Some? && was.value.runtime == now.runtime && was.value.interpreter == now.interpreter
         && was.value.entrypoint == now.entrypoint
      then now.release == was.value.release
      else now.release == "" && (wasEnabled && was.Some? ==> was.value.release == "")
    }

    /** Put: it refuses to move a running Git release to another command, and otherwise leaves the row
        and the unit both new, or the row as it was. `settings` carries no release of its own. */
    method Put(settings: Config, enable: bool, wasEnabled: bool) returns (ok: bool)
      requires Valid() && !down && phase.Idle? && settings.release == ""
      modifies this
      ensures Valid() && old(trace) <= trace && phase.Idle? && disk == old(disk) && (down ==> !ok)
      ensures wasEnabled && OtherCommand(old(row), settings) ==> !ok && Now() == old(Now())
      ensures ok ==> row.Some? && row.value.(interpreter := "", release := "") == settings.(interpreter := "")
      ensures ok ==> row.value.interpreter == settings.interpreter
                     || (settings.interpreter == "" && row.value.interpreter == BinaryFor(site, settings))
      ensures ok ==> row.value.interpreter != "" && KeepsRelease(old(row), row.value, wasEnabled)
      ensures ok ==> if enable then running.Some? else running.None?
      ensures old(AllWork())
        ==> (ok <==> BinaryFor(site, settings) != "" && !(wasEnabled && OtherCommand(old(row), settings)))
      ensures ok ==> row == Some(Accepted(site, old(row), settings)) && unit == Some(Expected(site, row.value))
      ensures !ok ==> row == old(row)
    {
      var partly;
      ok, partly := Try(); // the site, the settings, the old row, the port and the virtual environment
      if !ok || BinaryFor(site, settings) == "" || (wasEnabled && Moves(site, row, settings)) {
        return false;
      }
      AcceptedExpected(site, row, settings);
      ok := ApplyPut(Accepted(site, row, settings), enable, wasEnabled);
    }

    /** Put from the first write on. */
    method ApplyPut(c: Config, enable: bool, wasEnabled: bool) returns (ok: bool)
      requires Valid() && !down && phase.Idle? && (c.release == "" || (row.Some? && c.release == row.value.release))
      requires BinaryFor(site, c) != ""
      modifies this
      ensures Valid() && old(trace) <= trace && phase.Idle? && disk == old(disk) && (down ==> !ok)
      ensures ok ==> row == Some(c) && unit == Some(Expected(site, c))
      ensures !ok ==> row == old(row)
      ensures old(AllWork()) ==> ok
      ensures ok ==> if enable then running.Some? else running.None?
    {
      var was, existed := unit, row.Some?;
      phase := Putting(unit, c);
      Record(BeginPut(c));
      ok := WritePut(c);
      if !ok { return; }
      ok := StartOrStop(enable, existed);
      if ok {
        ok := CommitPut(c);
      }
      if !ok {
        UndoPut(was, wasEnabled);
      }
    }

    /** atomicWrite of the unit for the new settings; a failure here ends the request at once. */
    method WritePut(c: Config) returns (ok: bool)
      requires Valid() && !down && phase.Putting? && phase.config == c
      modifies this
      ensures Valid() && old(trace) <= trace && (down ==> !ok)
      ensures ok ==> Now() == old(Now()).(unit := Some(Expected(site, c)))
      ensures !ok ==> Now() == old(Now()).(phase := Idle)
      ensures old(AllWork()) ==> ok && AllWork()
    {
      var partly;
      ok, partly := Try();
      if ok {
        PutInPlace(c);
      } else if !down {
        phase := Idle;
        Record(PutAbandon);
      }
    }

    method PutInPlace(c: Config)
      requires Valid() && !down && phase.Putting? && phase.config == c
      modifies this`unit, this`trace
      ensures Valid() && trace == old(trace) + [Now()] && Now() == old(Now()).(unit := Some(Expected(site, c)))
    {
      unit := Some(Expected(site, c));
      Record(PutWrite);
    }

    /** The row of the new settings. */
    method CommitPut(c: Config) returns (ok: bool)
      requires Valid() && (!down ==> phase.Putting? && phase.config == c && unit == Some(Expected(site, c)))
      modifies this
      ensures Valid() && old(trace) <= trace && (down ==> !ok) && (!down ==> !old(down))
      ensures ok ==> Now() == old(Now()).(row := Some(c), phase := Idle)
      ensures down ==> Now() == old(Now()).(phase := Idle)
      ensures !down && !ok ==> Now() == old(Now())
      ensures old(AllWork()) ==> ok
    {
      var partly;
      ok, partly := Try();
      if ok {
        row, phase := Some(c), Idle;
        Record(PutCommit);
      }
    }

    /** The panel comes back after a crash. */
    method Boot()
      requires Valid() && down
      modifies this`down
      ensures Valid() && !down && Now() == old(Now())
    {
      down := false;
    }
  }
}
