/** What a backup holds of a tenant, what each restore scope may overwrite, and what applying an
    archive leaves behind. */
module TenantContent {
  import opened Text

  type Tables = map<string, string>

  /** The files below the home directory, the databases with their tables, and which of the directories
      public_html and mail exist: a restore of the site or of the mail needs its directory in the archive. */
  datatype Content = Content(files: map<string, string>, databases: map<string, Tables>, dirs: set<string>)

  datatype Scope = Full | Files | Email | File(path: string) | Database(name: string)

  /** The files a restore of this scope may write or delete. */
  predicate Touches(scope: Scope, path: string) {
    match scope
    case Full => true
    case Files => HasPrefix(path, "public_html/")
    case Email => HasPrefix(path, "mail/")
    case File(p) => path == p
    case Database(_) => false
  }

  /** The directory it copies as a whole. */
  function Needs(scope: Scope): set<string> {
    match scope
    case Files => {"public_html"}
    case Email => {"mail"}
    case _ => {}
  }

  /** The directories it makes if they are missing: that one, or the one its file lies in. */
  function Makes(scope: Scope): set<string> {
    if scope.File? then set d | d in {"public_html", "mail"} && HasPrefix(scope.path, d + "/") else Needs(scope)
  }

  /** The databases it may import into: only registered ones, whose credentials it needs. */
  predicate Imports(scope: Scope, registered: set<string>, d: string) {
    d in registered && (scope.Full? || scope == Database(d))
  }

  /** Nothing outside the scope differs, and no database has disappeared; only a full restore removes one of
      the two directories. */
  predicate Within(scope: Scope, registered: set<string>, a: Content, b: Content) {
    (forall p | p in a.files.Keys + b.files.Keys && !Touches(scope, p) ::
      p in a.files && p in b.files && a.files[p] == b.files[p])
    && (scope.Full? || a.dirs <= b.dirs <= a.dirs + Makes(scope))
    && a.databases.Keys == b.databases.Keys
    && (forall d | d in a.databases && !Imports(scope, registered, d) :: a.databases[d] == b.databases[d])
  }

  lemma WithinTransitive(scope: Scope, registered: set<string>, a: Content, b: Content, c: Content)
    requires Within(scope, registered, a, b) && Within(scope, registered, b, c)
    ensures Within(scope, registered, a, c)
  {
  }

  /** The archive of a tenant: the home tree and a dump of every registered database. */
  function Snapshot(registered: set<string>, c: Content): Content {
    Content(c.files, map d | d in c.databases && d in registered :: c.databases[d], c.dirs)
  }

  /** What the import of a dump leaves: its tables are replaced, others stay. */
  function Import(was: Tables, dump: Tables): Tables {
    was + dump
  }

  function AppliedFiles(scope: Scope, archive: map<string, string>, files: map<string, string>): map<string, string> {
    map p | p in files.Keys + archive.Keys && (if Touches(scope, p) then p in archive else p in files)
      :: if Touches(scope, p) then archive[p] else files[p]
  }

  function AppliedDirs(scope: Scope, archive: set<string>, dirs: set<string>): set<string> {
    if scope.Full? then archive else dirs + Makes(scope)
  }

  function AppliedDatabase(importing: bool, archive: map<string, Tables>, d: string, tables: Tables): Tables {
    if importing && d in archive then Import(tables, archive[d]) else tables
  }

  /** The archive applied as a whole: rsync with --delete for a tree, one file, imports of dumps. */
  function Applied(scope: Scope, registered: set<string>, archive: Content, c: Content): Content {
    Content(AppliedFiles(scope, archive.files, c.files),
      map d | d in c.databases
        :: AppliedDatabase(Imports(scope, registered, d), archive.databases, d, c.databases[d]),
      AppliedDirs(scope, archive.dirs, c.dirs))
  }

  /** The archive has what the scope asks for, and nothing in it is refused: a full restore accepts
      dumps of registered databases only. */
  predicate Offers(scope: Scope, registered: set<string>, archive: Content) {
    (scope.File? ==> scope.path in archive.files) && Needs(scope) <= archive.dirs
    && (scope.Database? ==> scope.name in registered && scope.name in archive.databases)
    && (scope.Full? ==> archive.databases.Keys <= registered)
  }

  predicate CarriesFiles(scope: Scope, archive: Content, c: Content) {
    (scope.Full? ==> c.dirs == archive.dirs)
    && forall p | p in c.files.Keys + archive.files.Keys && Touches(scope, p) ::
         p in c.files && p in archive.files && c.files[p] == archive.files[p]
  }

  predicate CarriesDatabase(archive: Content, c: Content, d: string) {
    d in archive.databases && d in c.databases ==>
      forall t | t in archive.databases[d] :: t in c.databases[d] && c.databases[d][t] == archive.databases[d][t]
  }

  /** The tenant holds what the archive has for this scope. */
  predicate Carries(scope: Scope, registered: set<string>, archive: Content, c: Content) {
    CarriesFiles(scope, archive, c)
    && forall d | d in archive.databases && Imports(scope, registered, d) :: CarriesDatabase(archive, c, d)
  }

  /** Copying the files of the scope. */
  lemma FilesApplied(scope: Scope, registered: set<string>, archive: Content, c: Content)
    ensures var after := Content(AppliedFiles(scope, archive.files, c.files), c.databases,
                                 AppliedDirs(scope, archive.dirs, c.dirs));
      Within(scope, registered, c, after) && CarriesFiles(scope, archive, after)
  {
  }

  /** Importing one dump keeps what other databases carry. */
  lemma ImportCarries(archive: Content, c: Content, d: string, other: string)
    requires d in archive.databases && d in c.databases && (other == d || CarriesDatabase(archive, c, other))
    ensures var after := c.(databases := c.databases[d := Import(c.databases[d], archive.databases[d])]);
            CarriesDatabase(archive, after, other)
  {
  }

  /** What has to be carried, scope by scope. */
  lemma CarriesByScope(scope: Scope, registered: set<string>, archive: Content, c: Content)
    ensures scope.Database? && CarriesDatabase(archive, c, scope.name) ==> Carries(scope, registered, archive, c)
    ensures !scope.Database? && !scope.Full? && CarriesFiles(scope, archive, c)
            ==> Carries(scope, registered, archive, c)
    ensures scope.Full? && CarriesFiles(scope, archive, c)
      && (forall d | d in archive.databases.Keys * registered :: CarriesDatabase(archive, c, d))
      ==> Carries(scope, registered, archive, c)
  {
  }

  lemma AppliedCarries(scope: Scope, registered: set<string>, archive: Content, c: Content)
    ensures Within(scope, registered, c, Applied(scope, registered, archive, c))
    ensures Carries(scope, registered, archive, Applied(scope, registered, archive, c))
  {
  }

  predicate SameFile(a: Content, b: Content, path: string) {
    (path in a.files <==> path in b.files) && (path in a.files ==> a.files[path] == b.files[path])
  }

  lemma EqualMaps<T>(a: map<string, T>, b: map<string, T>)
    ensures a == b <==> a.Keys == b.Keys && forall k | k in a && k in b :: a[k] == b[k]
  {
  }

  /** What a restore of each scope leaves alone: one of the files all but the site, one of the mail all but the
      mailboxes, one of a file all other files, one of a database all others, and each of these all
      databases or all files; a full one the databases that are not registered. None drops a database. */
  ghost predicate Untouched(scope: Scope, registered: set<string>, a: Content, b: Content) {
    DirsUntouched(scope, a.dirs, b.dirs)
    && match scope
    case Files => a.databases == b.databases && forall p :: "public_html/" <= p || SameFile(a, b, p)
    case Email => a.databases == b.databases && forall p :: "mail/" <= p || SameFile(a, b, p)
    case File(path) => a.databases == b.databases && forall p :: p == path || SameFile(a, b, p)
    case Database(name) =>
      a.files == b.files && a.databases.Keys == b.databases.Keys
      && forall d | d in a.databases && !(d == name && name in registered) :: a.databases[d] == b.databases[d]
    case Full =>
      a.databases.Keys == b.databases.Keys
      && forall d | d in a.databases && d !in registered :: a.databases[d] == b.databases[d]
  }

  /** Of the two directories only the one copied, or the one the file lies in, may come into being. */
  ghost predicate DirsUntouched(scope: Scope, a: set<string>, b: set<string>) {
    match scope
    case Files => a <= b <= a + {"public_html"}
    case Email => a <= b <= a + {"mail"}
    case File(path) => a <= b && forall d | d in b - a :: d in {"public_html", "mail"} && d + "/" <= path
    case Database(_) => a == b
    case Full => true
  }

  lemma DirsWithin(scope: Scope, a: set<string>, b: set<string>)
    ensures (scope.Full? || a <= b <= a + Makes(scope)) <==> DirsUntouched(scope, a, b)
  {
    if DirsUntouched(scope, a, b) && !scope.Full? {
      forall d | d in b ensures d in a + Makes(scope) {
        assert d in a || d in b - a;
      }
    }
  }

  lemma FilesWithin(scope: Scope, a: Content, b: Content)
    ensures (forall p | p in a.files.Keys + b.files.Keys && !Touches(scope, p) ::
              p in a.files && p in b.files && a.files[p] == b.files[p])
      <==> forall p :: Touches(scope, p) || SameFile(a, b, p)
  {
    if forall p | p in a.files.Keys + b.files.Keys && !Touches(scope, p) ::
         p in a.files && p in b.files && a.files[p] == b.files[p]
    {
      forall p ensures Touches(scope, p) || SameFile(a, b, p) {
        assert p in a.files.Keys + b.files.Keys <==> p in a.files || p in b.files;
      }
    } else {
      var p :| p in a.files.Keys + b.files.Keys && !Touches(scope, p)
               && !(p in a.files && p in b.files && a.files[p] == b.files[p]);
      assert !SameFile(a, b, p);
    }
  }

  lemma WithinMeans(scope: Scope, registered: set<string>, a: Content, b: Content)
    ensures Within(scope, registered, a, b) <==> Untouched(scope, registered, a, b)
  {
    DirsWithin(scope, a.dirs, b.dirs);
    FilesWithin(scope, a, b);
    EqualMaps(a.databases, b.databases);
    EqualMaps(a.files, b.files);
    if scope.Database? {
      SameFilesEverywhere(a, b);
    }
  }

  lemma SameFilesEverywhere(a: Content, b: Content)
    ensures a.files == b.files <==> forall p :: SameFile(a, b, p)
  {
    if forall p :: SameFile(a, b, p) {
      forall p ensures p in a.files.Keys <==> p in b.files.Keys {
        assert SameFile(a, b, p);
      }
      forall p | p in a.files ensures a.files[p] == b.files[p] {
        assert SameFile(a, b, p);
      }
    }
  }

  /** What the tenant holds of the archive after a restore of each scope. */
  ghost predicate Holds(scope: Scope, registered: set<string>, archive: Content, c: Content) {
    match scope
    case Files => forall p :: "public_html/" <= p ==> SameFile(archive, c, p)
    case Email => forall p :: "mail/" <= p ==> SameFile(archive, c, p)
    case File(path) => SameFile(archive, c, path)
    case Database(name) => name in archive.databases && name in registered ==> CarriesDatabase(archive, c, name)
    case Full =>
      archive.files == c.files && archive.dirs == c.dirs
      && forall d | d in archive.databases && d in registered :: CarriesDatabase(archive, c, d)
  }

  lemma FilesCarried(scope: Scope, archive: Content, c: Content)
    ensures CarriesFiles(scope, archive, c)
      <==> (scope.Full? ==> c.dirs == archive.dirs) && forall p :: Touches(scope, p) ==> SameFile(archive, c, p)
  {
    if CarriesFiles(scope, archive, c) {
      forall p | Touches(scope, p) ensures SameFile(archive, c, p) {
        assert p in c.files.Keys + archive.files.Keys <==> p in c.files || p in archive.files;
      }
    } else if scope.Full? ==> c.dirs == archive.dirs {
      var p :| p in c.files.Keys + archive.files.Keys && Touches(scope, p)
               && !(p in c.files && p in archive.files && c.files[p] == archive.files[p]);
      assert !SameFile(archive, c, p);
    }
  }

  lemma CarriesMeans(scope: Scope, registered: set<string>, archive: Content, c: Content)
    ensures Carries(scope, registered, archive, c) <==> Holds(scope, registered, archive, c)
  {
    FilesCarried(scope, archive, c);
    SameFilesEverywhere(archive, c);
  }

  /** Back to what it was: every file, and every database except for tables it did not have; a directory
      that the restore had to make may stay. */
  predicate Reverted(scope: Scope, registered: set<string>, before: Content, after: Content) {
    after.files == before.files && after.databases.Keys == before.databases.Keys
    && (if scope.Full? then after.dirs == before.dirs else before.dirs <= after.dirs <= before.dirs + Makes(scope))
    && (forall d | d in before.databases && !Imports(scope, registered, d) :: after.databases[d] == before.databases[d])
    && (forall d, t | d in before.databases && t in before.databases[d] ::
      t in after.databases[d] && after.databases[d][t] == before.databases[d][t])
  }

  lemma FilesRevert(scope: Scope, registered: set<string>, before: Content, c: Content)
    requires Within(scope, registered, before, c)
    ensures AppliedFiles(scope, before.files, c.files) == before.files
  {
    var after := AppliedFiles(scope, before.files, c.files);
    forall p | p in before.files.Keys + after.Keys
      ensures p in before.files && p in after && before.files[p] == after[p]
    {
    }
  }

  lemma DirsRevert(scope: Scope, before: set<string>, dirs: set<string>)
    requires scope.Full? || before <= dirs <= before + Makes(scope)
    ensures AppliedDirs(scope, before, dirs) == before <==> scope.Full? || Makes(scope) <= before
  {
  }

  lemma ImportReverts(before: Tables, tables: Tables)
    ensures forall t | t in before :: t in Import(tables, before) && Import(tables, before)[t] == before[t]
    ensures Import(tables, before) == before <==> tables.Keys <= before.Keys
  {
    var after := Import(tables, before);
    assert after.Keys == tables.Keys + before.Keys;
    if tables.Keys <= before.Keys {
      assert after.Keys == before.Keys;
    }
  }

  lemma DatabaseReverts(scope: Scope, registered: set<string>, before: Content, c: Content, d: string)
    requires Within(scope, registered, before, c) && d in before.databases
    ensures var after := Applied(scope, registered, Snapshot(registered, before), c).databases[d];
      after == if Imports(scope, registered, d) then Import(c.databases[d], before.databases[d])
               else before.databases[d]
  {
  }

  /** A tenant changed only within the scope that again holds everything of its archive is back. */
  lemma CarryingReverts(scope: Scope, registered: set<string>, before: Content, c: Content)
    requires Within(scope, registered, before, c)
    ensures Carries(scope, registered, Snapshot(registered, before), c) <==> Reverted(scope, registered, before, c)
  {
    var archive := Snapshot(registered, before);
    if Carries(scope, registered, archive, c) {
      assert c.files == before.files;
      forall d, t | d in before.databases && t in before.databases[d]
        ensures t in c.databases[d] && c.databases[d][t] == before.databases[d][t]
      {
        if Imports(scope, registered, d) {
          assert d in archive.databases && t in archive.databases[d];
        } else {
          assert c.databases[d] == before.databases[d];
        }
      }
    }
  }

  /** Applying the archive taken before undoes whatever happened within the scope. */
  lemma ApplyingReverts(scope: Scope, registered: set<string>, before: Content, c: Content)
    requires Within(scope, registered, before, c)
    ensures Reverted(scope, registered, before, Applied(scope, registered, Snapshot(registered, before), c))
  {
    FilesRevert(scope, registered, before, c);
    forall d | d in before.databases
      ensures var after := Applied(scope, registered, Snapshot(registered, before), c).databases[d];
        (!Imports(scope, registered, d) ==> after == before.databases[d])
        && forall t | t in before.databases[d] :: t in after && after[t] == before.databases[d][t]
    {
      DatabaseReverts(scope, registered, before, c, d);
      ImportReverts(before.databases[d], c.databases[d]);
    }
  }

  /** A rollback brings the tenant back exactly if and only if the restore had created no table in a
      database it imported into, for the import of a dump drops no table that the dump does not have, and
      no directory. */
  lemma RollbackIsExact(scope: Scope, registered: set<string>, before: Content, c: Content)
    requires Within(scope, registered, before, c)
    ensures Applied(scope, registered, Snapshot(registered, before), c) == before
      <==> (scope.Full? || Makes(scope) <= before.dirs)
           && forall d | d in c.databases && Imports(scope, registered, d) ::
                c.databases[d].Keys <= before.databases[d].Keys
  {
    var after := Applied(scope, registered, Snapshot(registered, before), c);
    DirsRevert(scope, before.dirs, c.dirs);
    FilesRevert(scope, registered, before, c);
    assert after.databases.Keys == before.databases.Keys;
    forall d | d in before.databases
      ensures after.databases[d] == before.databases[d]
        <==> (Imports(scope, registered, d) ==> c.databases[d].Keys <= before.databases[d].Keys)
    {
      DatabaseReverts(scope, registered, before, c, d);
      ImportReverts(before.databases[d], c.databases[d]);
    }
    assert after == before <==> after.databases == before.databases && after.dirs == before.dirs;
  }
}
