/** The start-up migrations: one transaction for every file that has not been applied yet. Only
    statements that a transaction can take back are modelled. */
module MigrationRunner {
  import SqlSplitter

  /** A migration file; the checksum is that of its body. */
  datatype Script = Script(name: string, body: string, checksum: string)

  /** schema_migrations (name to checksum), and the statements that have taken effect, in order. */
  datatype Database = Database(applied: map<string, string>, executed: seq<string>)

  predicate Changed(db: Database, s: Script) {
    s.name in db.applied && db.applied[s.name] != s.checksum
  }

  /** The committed transaction of one file. */
  function Commit(db: Database, s: Script): Database {
    Database(db.applied[s.name := s.checksum], db.executed + SqlSplitter.Statements(s.body))
  }

  function One(db: Database, s: Script): Database {
    if s.name in db.applied then db else Commit(db, s)
  }

  /** The work of a run over files none of which was edited after it was applied. */
  function Upgrade(db: Database, scripts: seq<Script>): Database {
    if scripts == [] then db else One(Upgrade(db, scripts[..|scripts| - 1]), scripts[|scripts| - 1])
  }

  /** The files of a directory have distinct names. */
  predicate Distinct(scripts: seq<Script>) {
    forall i, j | 0 <= i < j < |scripts| :: scripts[i].name != scripts[j].name
  }

  // ---- The run ----

  /** What a Commit call does: it may fail, and it may report a failure although it took effect. */
  datatype CommitFate = Committed | CommittedUnseen | NotCommitted

  class Runner {
    var db: Database
    /** Whether each of the coming reads and statements succeeds; all of them once the list is used up. */
    var fates: seq<bool>
    var commits: seq<CommitFate>

    method Try() returns (ok: bool)
      modifies this`fates
      ensures old(fates) == [] ==> ok && fates == []
    {
      ok := fates == [] || fates[0];
      fates := if fates == [] then [] else fates[1..];
    }

    method TryCommit() returns (fate: CommitFate)
      modifies this`commits
      ensures old(commits) == [] ==> fate == Committed && commits == []
    {
      fate := if commits == [] then Committed else commits[0];
      commits := if commits == [] then [] else commits[1..];
    }

    /** The statements of one file inside its transaction; they take effect at the commit. */
    method Execute(statements: seq<string>) returns (ok: bool, written: seq<string>)
      modifies this`fates
      ensures ok ==> written == statements
      ensures old(fates) == [] ==> ok && fates == []
    {
      written, ok := [], true;
      var i := 0;
      while i < |statements|
        invariant 0 <= i <= |statements| && written == statements[..i] && ok
        invariant old(fates) == [] ==> fates == []
      {
        ok := Try();
        if !ok {
          return;
        }
        written := written + [statements[i]];
        i := i + 1;
      }
    }

    /** The transaction of one file. */
    method Apply(s: Script) returns (ok: bool)
      modifies this
      ensures db == old(db) || db == Commit(old(db), s)
      ensures ok ==> db == Commit(old(db), s)
      ensures old(fates) == [] && old(commits) == [] ==> ok && fates == [] && commits == []
    {
      ok := Try();
      if ok {
        var statements := SqlSplitter.MigrationStatements(s.body);
        var written;
        ok, written := Execute(statements);
        if ok {
          ok := Try();
          if ok {
            ok := Finish(s, written);
          }
        }
      }
    }

    /** The row of the file and the commit. */
    method Finish(s: Script, written: seq<string>) returns (ok: bool)
      modifies this`db, this`commits
      ensures var done := Database(old(db).applied[s.name := s.checksum], old(db).executed + written);
        (db == old(db) || db == done) && (ok ==> db == done)
      ensures old(commits) == [] ==> ok && commits == []
    {
      var fate := TryCommit();
      if fate != NotCommitted {
        db := Database(db.applied[s.name := s.checksum], db.executed + written);
      }
      ok := fate == Committed;
    }

    /** One turn of the loop. */
    method RunOne(s: Script) returns (ok: bool)
      modifies this
      ensures db == old(db) || db == One(old(db), s)
      ensures ok ==> db == One(old(db), s) && !Changed(old(db), s)
      ensures Changed(old(db), s) ==> !ok && db == old(db)
      ensures old(fates) == [] && old(commits) == [] ==> fates == [] && commits == [] && ok == !Changed(old(db), s)
    {
      ok := Try();
      if ok {
        if s.name in db.applied {
          ok := db.applied[s.name] == s.checksum;
        } else {
          ok := Apply(s);
        }
      }
    }

    /** runMigrations. Wherever it stops, it has done the work of the first `reached` files, each
        completely or not at all; it succeeds, if nothing fails, exactly when no file was edited
        after it was applied. */
    method RunMigrations(scripts: seq<Script>) returns (ok: bool, ghost reached: nat)
      requires Distinct(scripts)
      modifies this
      ensures reached <= |scripts| && db == Upgrade(old(db), scripts[..reached])
      ensures forall k | 0 <= k < reached && scripts[k].name in old(db).applied ::
        old(db).applied[scripts[k].name] == scripts[k].checksum
      ensures forall k | 0 <= k < reached ::
        scripts[k].name in db.applied && db.applied[scripts[k].name] == scripts[k].checksum
      ensures ok ==> reached == |scripts|
      ensures old(fates) == [] && old(commits) == []
        ==> ok || (reached < |scripts| && scripts[reached].name in old(db).applied
                   && old(db).applied[scripts[reached].name] != scripts[reached].checksum)
    {
      ok, reached := true, 0;
      var i := 0;
      while i < |scripts|
        invariant 0 <= i <= |scripts| && reached == i && ok
        invariant db == Upgrade(old(db), scripts[..i])
        invariant forall k | 0 <= k < i :: !Changed(old(db), scripts[k])
        invariant old(fates) == [] && old(commits) == [] ==> fates == [] && commits == []
      {
        var s := scripts[i];
        UpgradeStep(old(db), scripts, i);
        ChangedStays(old(db), scripts, i);
        ghost var was := db;
        ok := RunOne(s);
        if !ok {
          reached := if db == was then i else i + 1;
          UpgradeRecorded(old(db), scripts, reached);
          return;
        }
        i := i + 1;
        reached := i;
      }
      assert scripts[..i] == scripts;
      UpgradeRecorded(old(db), scripts, i);
    }
  }

  // ---- What a run amounts to ----

  lemma ChangedStays(db: Database, scripts: seq<Script>, i: nat)
    requires i < |scripts| && Distinct(scripts)
    ensures Changed(Upgrade(db, scripts[..i]), scripts[i]) <==> Changed(db, scripts[i])
  {
    UpgradeKeeps(db, scripts, i);
  }

  lemma UpgradeStep(db: Database, scripts: seq<Script>, i: nat)
    requires i < |scripts|
    ensures Upgrade(db, scripts[..i + 1]) == One(Upgrade(db, scripts[..i]), scripts[i])
  {
    assert scripts[..i + 1][..i] == scripts[..i];
  }

  /** What a run has recorded of a file it has not reached yet is what was recorded before. */
  lemma {:induction false} UpgradeKeeps(db: Database, scripts: seq<Script>, i: nat)
    requires i < |scripts| && Distinct(scripts)
    ensures var s, applied := scripts[i], Upgrade(db, scripts[..i]).applied;
      (s.name in applied <==> s.name in db.applied) && (s.name in applied ==> applied[s.name] == db.applied[s.name])
  {
    UpgradeRecords(db, scripts[..i], scripts[i].name);
  }

  /** What a run leaves recorded under a name. */
  lemma {:induction false} UpgradeRecords(db: Database, scripts: seq<Script>, name: string)
    ensures var applied := Upgrade(db, scripts).applied;
      (name in db.applied ==> name in applied && applied[name] == db.applied[name])
      && (name !in db.applied ==> (name in applied <==> exists s :: s in scripts && s.name == name))
  {
    if scripts != [] {
      var front, last := scripts[..|scripts| - 1], scripts[|scripts| - 1];
      UpgradeRecords(db, front, name);
      assert forall s :: s in scripts <==> s in front || s == last;
    }
  }

  /** A run leaves every file it has come past recorded under the checksum of its present text, if none of
      them had been edited. */
  lemma {:induction false} UpgradeRecorded(db: Database, scripts: seq<Script>, n: nat)
    requires n <= |scripts| && Distinct(scripts) && forall k | 0 <= k < n :: !Changed(db, scripts[k])
    ensures var applied := Upgrade(db, scripts[..n]).applied;
      forall k | 0 <= k < n :: scripts[k].name in applied && applied[scripts[k].name] == scripts[k].checksum
  {
    if n > 0 {
      UpgradeStep(db, scripts, n - 1);
      UpgradeRecorded(db, scripts, n - 1);
      ChangedStays(db, scripts, n - 1);
    }
  }

  /** A run that stopped anywhere, followed by a full run, comes to one undisturbed run: no statement
      is lost and none takes effect twice. */
  lemma {:induction false} RunsResume(db: Database, scripts: seq<Script>, k: nat, n: nat)
    requires k <= |scripts| && n <= |scripts|
    ensures Upgrade(Upgrade(db, scripts[..k]), scripts[..n]) == Upgrade(db, scripts[..if n < k then k else n])
    decreases n
  {
    if n > 0 {
      var s, m := scripts[n - 1], if n - 1 < k then k else n - 1;
      assert scripts[..n][..n - 1] == scripts[..n - 1];
      RunsResume(db, scripts, k, n - 1);
      if n <= k {
        assert s in scripts[..k];
        UpgradeRecords(db, scripts[..k], s.name);
      }
    } else {
      assert scripts[..0] == [];
    }
  }

  /** The statements of the files that were not applied before, in the order of the files. */
  function Fresh(db: Database, scripts: seq<Script>): seq<string> {
    if scripts == [] then []
    else
      var s := scripts[|scripts| - 1];
      Fresh(db, scripts[..|scripts| - 1]) + if s.name in db.applied then [] else SqlSplitter.Statements(s.body)
  }

  lemma Associates(a: seq<string>, b: seq<string>, c: seq<string>)
    ensures a + (b + c) == (a + b) + c && a + (b + []) == a + b
  {
  }

  /** Exactly the statements of the new files take effect, once each and in order. */
  lemma {:induction false} ExecutesFresh(db: Database, scripts: seq<Script>)
    requires Distinct(scripts)
    ensures Upgrade(db, scripts).executed == db.executed + Fresh(db, scripts)
  {
    if scripts != [] {
      var front, s := scripts[..|scripts| - 1], scripts[|scripts| - 1];
      ExecutesFresh(db, front);
      UpgradeKeeps(db, scripts, |scripts| - 1);
      Associates(db.executed, Fresh(db, front), SqlSplitter.Statements(s.body));
    }
  }
}
