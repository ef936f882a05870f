/** Backups of one domain over time: archives are published, recorded and verified while retention
    rules and bulk cleaning delete others, step by step. When does a domain keep a verified copy, that
    is, a verified row whose archive is there? */
module RetentionProtocol {
  import opened Runs
  import opened BackupPool

  /** The pool of recovery archives, which are verified before they are recorded. */
  const TAM := "tam"

  /** What a prune is called with: pruneOld and pruneManuel keep a number of rows, pruneEski days. */
  datatype Rule = ByNumber(pool: string, keep: nat) | ByAge(days: nat)

  predicate IsRule(rule: Rule) {
    match rule
    case ByNumber(pool, keep) => (pool == OTO || pool == MANUEL) && keep >= 1
    case ByAge(days) => 1 <= days <= MAX_DAYS
  }

  /** A prune deletes from one pool only. */
  function PoolOf(rule: Rule): string {
    if rule.ByNumber? then rule.pool else OTO
  }

  datatype Mode = BulkOto | BulkManuel | BulkGun(before: int)

  /** An archive in the directory; the name tells whether it is an automatic one. */
  datatype File = File(automatic: bool, modified: int)

  /** A deletion under way: a prune that has read the protected id but not yet its rows, bulk cleaning
      that has read the rows but not yet the directory, or one that knows the rows and archives it still
      has to delete. A prune deletes archive and row of one backup after another in the order of their
      ids, bulk cleaning first all archives and then all rows at once. */
  datatype Cleaning =
    | Reading(rule: Rule, protected: nat)
    | Listing(mode: Mode, known: Rows)
    | Deleting(rows: set<nat>, names: set<nat>, atOnce: bool)

  /** `archive` is the name of a row's archive, also of rows that are gone. `unrecorded` are the
      archives in the directory whose rows are still to be inserted, with their pools. */
  datatype Domain = Domain(rows: Rows, archive: map<nat, nat>, files: map<nat, File>, unrecorded: map<nat, string>,
                           next: nat, nextName: nat, now: int, cleanings: map<nat, Cleaning>)

  function Victims(rule: Rule, rows: Rows, now: int, protected: nat): set<nat> {
    match rule
    case ByNumber(pool, keep) => Surplus(rows, pool, keep, protected)
    case ByAge(days) => Aged(rows, now - days, protected)
  }

  predicate Selects(mode: Mode, b: Backup) {
    match mode
    case BulkOto => b.pool == OTO
    case BulkManuel => b.pool != OTO
    case BulkGun(before) => b.created < before
  }

  predicate SelectsFile(mode: Mode, f: File) {
    match mode
    case BulkOto => f.automatic
    case BulkManuel => !f.automatic
    case BulkGun(before) => f.modified < before
  }

  /** Bulk cleaning takes the protected id from the rows it selects from. */
  function BulkRows(mode: Mode, known: Rows): set<nat> {
    set id | id in known && Selects(mode, known[id]) && id != LatestVerified(known)
  }

  function Names(archive: map<nat, nat>, ids: set<nat>): set<nat> {
    set id | id in ids && id in archive :: archive[id]
  }

  /** Archives without a known row go by name or by date. */
  function Orphans(s: Domain, mode: Mode, known: Rows): set<nat> {
    set n | n in s.files && n !in Names(s.archive, known.Keys) && SelectsFile(mode, s.files[n])
  }

  datatype Action =
    | Tick(to: int)
    | Publish(pool: string)
    | Record(name: nat)
    | Abandon(name: nat, gone: bool)
    | BeginVerify(id: nat)
    | VerifyOk(id: nat)
    | VerifyFailed(id: nat)
    | Begin(cleaning: nat, rule: Rule)
    | List(cleaning: nat)
    | BeginBulk(cleaning: nat, mode: Mode)
    | ListFiles(cleaning: nat)
    | Unlink(cleaning: nat, name: nat, id: nat)
    | DeleteRow(cleaning: nat, id: nat)
    | DeleteRows(cleaning: nat)
    | End(cleaning: nat)

  predicate IsVerified(s: Domain, id: nat) {
    id in s.rows && s.rows[id].verification.Verified?
  }

  predicate HasArchive(s: Domain, id: nat) {
    id in s.archive && s.archive[id] in s.files
  }

  predicate IsCopy(s: Domain, id: nat) {
    IsVerified(s, id) && HasArchive(s, id)
  }

  predicate IsReading(s: Domain, c: nat) {
    c in s.cleanings && s.cleanings[c].Reading?
  }

  predicate IsListing(s: Domain, c: nat) {
    c in s.cleanings && s.cleanings[c].Listing?
  }

  predicate IsDeleting(s: Domain, c: nat) {
    c in s.cleanings && s.cleanings[c].Deleting?
  }

  predicate Targets(s: Domain, c: nat, id: nat) {
    IsDeleting(s, c) && id in s.cleanings[c].rows
  }

  /** The row is about to be deleted. */
  predicate Condemned(s: Domain, id: nat) {
    exists c | c in s.cleanings :: Targets(s, c, id)
  }

  predicate Least(ids: set<nat>, id: nat) {
    id in ids && forall other | other in ids :: id <= other
  }

  /** A verification that ends well has read the archive, which can only have gone since for a row that
      is about to be deleted. A failing recheck of a verified backup and an explicit deletion are not
      among the steps. */
  predicate Enabled(s: Domain, a: Action) {
    match a
    case Tick(to) => s.now <= to
    case Publish(pool) => pool == OTO || pool == MANUEL || pool == TAM
    case Record(n) => n in s.unrecorded
    case Abandon(n, _) => n in s.unrecorded
    case BeginVerify(id) => id in s.rows
    case VerifyOk(id) => id in s.rows && (HasArchive(s, id) || Condemned(s, id))
    case VerifyFailed(id) => id in s.rows && !IsVerified(s, id)
    case Begin(c, rule) => c !in s.cleanings && IsRule(rule)
    case List(c) => IsReading(s, c)
    case BeginBulk(c, mode) => c !in s.cleanings && (mode.BulkGun? ==> mode.before < s.now)
    case ListFiles(c) => IsListing(s, c)
    case Unlink(c, n, id) =>
      IsDeleting(s, c) && n in s.cleanings[c].names
      && (s.cleanings[c].atOnce || (Least(s.cleanings[c].rows, id) && id in s.archive && s.archive[id] == n))
    case DeleteRow(c, id) =>
      IsDeleting(s, c) && !s.cleanings[c].atOnce && Least(s.cleanings[c].rows, id)
      && (id in s.archive ==> s.archive[id] !in s.cleanings[c].names)
    case DeleteRows(c) => IsDeleting(s, c) && s.cleanings[c].atOnce && s.cleanings[c].names == {}
    case End(c) => c in s.cleanings
  }

  function Published(s: Domain, pool: string): Domain {
    s.(files := s.files[s.nextName := File(pool == OTO, s.now)], unrecorded := s.unrecorded[s.nextName := pool],
       nextName := s.nextName + 1)
  }

  function Recorded(s: Domain, n: nat): Domain
    requires n in s.unrecorded
  {
    var pool := s.unrecorded[n];
    s.(rows := s.rows[s.next := Backup(pool, s.now, if pool == TAM then Verified else Unverified)],
       archive := s.archive[s.next := n], unrecorded := s.unrecorded - {n}, next := s.next + 1)
  }

  function Reviewed(s: Domain, id: nat, v: Verification): Domain
    requires id in s.rows
  {
    s.(rows := s.rows[id := s.rows[id].(verification := v)])
  }

  function WithCleaning(s: Domain, c: nat, cleaning: Cleaning): Domain {
    s.(cleanings := s.cleanings[c := cleaning])
  }

  function Listed(s: Domain, c: nat): Domain
    requires IsReading(s, c)
  {
    var victims := Victims(s.cleanings[c].rule, s.rows, s.now, s.cleanings[c].protected);
    WithCleaning(s, c, Deleting(victims, Names(s.archive, victims), false))
  }

  function FilesListed(s: Domain, c: nat): Domain
    requires IsListing(s, c)
  {
    var (mode, known) := (s.cleanings[c].mode, s.cleanings[c].known);
    var victims := BulkRows(mode, known);
    WithCleaning(s, c, Deleting(victims, Names(s.archive, victims) + Orphans(s, mode, known), true))
  }

  function Unlinked(s: Domain, c: nat, n: nat): Domain
    requires IsDeleting(s, c)
  {
    WithCleaning(s, c, s.cleanings[c].(names := s.cleanings[c].names - {n})).(files := s.files - {n})
  }

  function RowsDeleted(s: Domain, c: nat, gone: set<nat>): Domain
    requires IsDeleting(s, c)
  {
    WithCleaning(s, c, s.cleanings[c].(rows := s.cleanings[c].rows - gone)).(rows := s.rows - gone)
  }

  function After(s: Domain, a: Action): Domain
    requires Enabled(s, a)
  {
    match a
    case Tick(to) => s.(now := to)
    case Publish(pool) => Published(s, pool)
    case Record(n) => Recorded(s, n)
    case Abandon(n, gone) => s.(unrecorded := s.unrecorded - {n}, files := if gone then s.files - {n} else s.files)
    case BeginVerify(id) => if IsVerified(s, id) then s else Reviewed(s, id, Verifying)
    case VerifyOk(id) => Reviewed(s, id, Verified)
    case VerifyFailed(id) => Reviewed(s, id, Broken)
    case Begin(c, rule) => WithCleaning(s, c, Reading(rule, LatestVerified(s.rows)))
    case List(c) => Listed(s, c)
    case BeginBulk(c, mode) => WithCleaning(s, c, Listing(mode, s.rows))
    case ListFiles(c) => FilesListed(s, c)
    case Unlink(c, n, _) => Unlinked(s, c, n)
    case DeleteRow(c, id) => RowsDeleted(s, c, {id})
    case DeleteRows(c) => RowsDeleted(s, c, s.cleanings[c].rows)
    case End(c) => s.(cleanings := s.cleanings - {c})
  }

  ghost predicate HasCopy(s: Domain) {
    exists id :: IsCopy(s, id)
  }

  // ---- Orderly runs ----

  /** Cleanings of a domain do not overlap. */
  predicate Serialised(s: Domain) {
    |s.cleanings| <= 1
  }

  /** While bulk cleaning is between its row read and its directory listing, no archive waits for its
      row, and no row is there that was not read. */
  predicate Undisturbed(s: Domain) {
    forall c | c in s.cleanings :: s.cleanings[c].Listing? ==>
      s.unrecorded == map[] && s.rows.Keys <= s.cleanings[c].known.Keys
  }

  /** Some row that is to be deleted has already lost its archive. */
  predicate HalfDone(s: Domain, c: nat) {
    IsDeleting(s, c) && exists id | id in s.cleanings[c].rows :: id in s.rows && !HasArchive(s, id)
  }

  /** A cleaning is given up between an archive and its row. */
  predicate Cut(s: Domain, t: Domain) {
    exists c | c in s.cleanings :: c !in t.cleanings && HalfDone(s, c)
  }

  // ---- What orderly steps keep ----

  /** Ids and names are counted up, and no row comes from the future. */
  predicate Numbered(s: Domain) {
    s.next > 0
    && (forall id | id in s.rows :: 0 < id < s.next && s.rows[id].created <= s.now && id in s.archive)
    && (forall id | id in s.archive :: id < s.next && s.archive[id] < s.nextName)
    && (forall n | n in s.files :: n < s.nextName)
    && (forall n | n in s.unrecorded :: n < s.nextName)
  }

  /** No two rows share an archive. */
  predicate Distinct(s: Domain) {
    (forall i, j | i in s.archive && j in s.archive :: s.archive[i] == s.archive[j] ==> i == j)
    && forall id | id in s.archive :: s.archive[id] !in s.unrecorded
  }

  /** Verified rows have their archives unless they are about to be deleted. */
  ghost predicate Present(s: Domain) {
    (forall n | n in s.unrecorded :: n in s.files)
    && forall id | IsVerified(s, id) :: HasArchive(s, id) || Condemned(s, id)
  }

  /** A cleaning deletes archives of the rows it deletes and orphans, nobody else's. */
  predicate Aimed(s: Domain, c: Cleaning) {
    match c
    case Reading(rule, _) => IsRule(rule)
    case Listing(_, known) => known.Keys <= s.archive.Keys
    case Deleting(rows, names, _) =>
      rows <= s.archive.Keys && (forall n | n in names :: n < s.nextName && n !in s.unrecorded)
      && forall id | id in s.rows && id in s.archive :: s.archive[id] in names ==> id in rows
  }

  predicate AllAimed(s: Domain) {
    forall c | c in s.cleanings :: Aimed(s, s.cleanings[c])
  }

  ghost predicate Inv(s: Domain) {
    Numbered(s) && Distinct(s) && Present(s) && AllAimed(s)
  }

  predicate OfCleaning(a: Action) {
    a.Begin? || a.List? || a.BeginBulk? || a.ListFiles? || a.Unlink? || a.DeleteRow? || a.DeleteRows? || a.End?
  }

  lemma StepKeepsNumbered(s: Domain, a: Action)
    requires Numbered(s) && Enabled(s, a)
    ensures Numbered(After(s, a))
  {
  }

  lemma StepKeepsDistinct(s: Domain, a: Action)
    requires Numbered(s) && Distinct(s) && Enabled(s, a)
    ensures Distinct(After(s, a))
  {
  }

  lemma CreationKeepsPresent(s: Domain, a: Action)
    requires Numbered(s) && Distinct(s) && Present(s) && Enabled(s, a) && !OfCleaning(a)
    ensures Present(After(s, a))
  {
    var t := After(s, a);
    forall id | IsVerified(t, id) ensures HasArchive(t, id) || Condemned(t, id) {
      if id in s.rows && !IsVerified(s, id) {
        assert a == VerifyOk(id);
      }
      if id in s.rows && Condemned(s, id) {
        var c :| c in s.cleanings && Targets(s, c, id);
        assert Targets(t, c, id);
      }
    }
  }

  lemma BeginningKeepsPresent(s: Domain, c: nat, cleaning: Cleaning)
    requires Present(s) && !IsDeleting(s, c)
    ensures Present(WithCleaning(s, c, cleaning))
  {
    var t := WithCleaning(s, c, cleaning);
    forall id | IsVerified(t, id) ensures HasArchive(t, id) || Condemned(t, id) {
      assert IsVerified(s, id);
      if Condemned(s, id) {
        var d :| d in s.cleanings && Targets(s, d, id);
        assert Targets(t, d, id);
      }
    }
  }

  lemma UnlinkKeepsPresent(s: Domain, c: nat, n: nat)
    requires Numbered(s) && Present(s) && IsDeleting(s, c) && Aimed(s, s.cleanings[c]) && n in s.cleanings[c].names
    ensures Present(Unlinked(s, c, n))
  {
    var t := Unlinked(s, c, n);
    forall id | IsVerified(t, id) ensures HasArchive(t, id) || Condemned(t, id) {
      assert IsVerified(s, id);
      if HasArchive(s, id) {
        if s.archive[id] == n {
          assert Targets(t, c, id);
        }
      } else {
        var d :| d in s.cleanings && Targets(s, d, id);
        assert Targets(t, d, id);
      }
    }
  }

  lemma DeletingKeepsPresent(s: Domain, c: nat, gone: set<nat>)
    requires Present(s) && IsDeleting(s, c)
    ensures Present(RowsDeleted(s, c, gone))
  {
    var t := RowsDeleted(s, c, gone);
    forall id | IsVerified(t, id) ensures HasArchive(t, id) || Condemned(t, id) {
      assert IsVerified(s, id) && id !in gone;
      if Condemned(s, id) {
        var d :| d in s.cleanings && Targets(s, d, id);
        assert Targets(t, d, id);
      }
    }
  }

  lemma EndKeepsPresent(s: Domain, c: nat)
    requires Present(s) && c in s.cleanings && !HalfDone(s, c)
    ensures Present(s.(cleanings := s.cleanings - {c}))
  {
    var t := s.(cleanings := s.cleanings - {c});
    forall id | IsVerified(t, id) ensures HasArchive(t, id) || Condemned(t, id) {
      assert IsVerified(s, id);
      if !HasArchive(s, id) {
        var d :| d in s.cleanings && Targets(s, d, id);
        assert Targets(t, d, id);
      }
    }
  }

  lemma CleaningKeepsPresent(s: Domain, a: Action)
    requires Inv(s) && Enabled(s, a) && OfCleaning(a) && !a.End?
    ensures Present(After(s, a))
  {
    var c := a.cleaning;
    if a.Unlink? {
      UnlinkKeepsPresent(s, c, a.name);
    } else if a.DeleteRow? {
      DeletingKeepsPresent(s, c, {a.id});
    } else if a.DeleteRows? {
      DeletingKeepsPresent(s, c, s.cleanings[c].rows);
    } else {
      BeginningKeepsPresent(s, c, After(s, a).cleanings[c]);
    }
  }

  lemma StepKeepsPresent(s: Domain, a: Action)
    requires Inv(s) && Enabled(s, a) && !Cut(s, After(s, a))
    ensures Present(After(s, a))
  {
    if a.End? {
      EndKeepsPresent(s, a.cleaning);
    } else if OfCleaning(a) {
      CleaningKeepsPresent(s, a);
    } else {
      CreationKeepsPresent(s, a);
    }
  }

  /** Names of rows are names of no other row. */
  lemma NamesAreOwn(s: Domain, ids: set<nat>, id: nat)
    requires Distinct(s) && id in s.archive
    ensures s.archive[id] in Names(s.archive, ids) <==> id in ids
  {
  }

  lemma ListedIsAimed(s: Domain, c: nat)
    requires Numbered(s) && Distinct(s) && IsReading(s, c)
    ensures Aimed(s, Listed(s, c).cleanings[c])
  {
    var r := s.cleanings[c];
    var victims := Victims(r.rule, s.rows, s.now, r.protected);
    forall id | id in s.rows && id in s.archive
      ensures s.archive[id] in Names(s.archive, victims) ==> id in victims
    {
      NamesAreOwn(s, victims, id);
    }
  }

  lemma FilesListedIsAimed(s: Domain, c: nat)
    requires Numbered(s) && Distinct(s) && IsListing(s, c) && Aimed(s, s.cleanings[c]) && Undisturbed(s)
    ensures Aimed(s, FilesListed(s, c).cleanings[c])
  {
    var (mode, known) := (s.cleanings[c].mode, s.cleanings[c].known);
    var victims := BulkRows(mode, known);
    forall id | id in s.rows && id in s.archive
      ensures s.archive[id] in Names(s.archive, victims) + Orphans(s, mode, known) ==> id in victims
    {
      NamesAreOwn(s, victims, id);
      NamesAreOwn(s, known.Keys, id);
    }
  }

  /** A cleaning's aim is not affected by what else happens. */
  lemma StaysAimed(s: Domain, t: Domain, c: Cleaning)
    requires Aimed(s, c) && s.archive.Keys <= t.archive.Keys && s.nextName <= t.nextName
    requires forall n | n in t.unrecorded :: n in s.unrecorded || n >= s.nextName
    requires forall id | id in t.rows && id in t.archive ::
      (id in s.rows && id in s.archive && t.archive[id] == s.archive[id]) || t.archive[id] in s.unrecorded
    ensures Aimed(t, c)
  {
  }

  lemma StepMovesLittle(s: Domain, a: Action)
    requires Numbered(s) && Enabled(s, a)
    ensures var t := After(s, a);
      s.archive.Keys <= t.archive.Keys && s.nextName <= t.nextName
      && (forall n | n in t.unrecorded :: n in s.unrecorded || n >= s.nextName)
      && forall id | id in t.rows && id in t.archive ::
        (id in s.rows && id in s.archive && t.archive[id] == s.archive[id]) || t.archive[id] in s.unrecorded
  {
  }

  lemma StepKeepsAimed(s: Domain, a: Action, c: nat)
    requires Inv(s) && Enabled(s, a) && Undisturbed(s) && c in After(s, a).cleanings
    ensures Aimed(After(s, a), After(s, a).cleanings[c])
  {
    var t := After(s, a);
    StepMovesLittle(s, a);
    if c in s.cleanings && t.cleanings[c] == s.cleanings[c] {
      StaysAimed(s, t, s.cleanings[c]);
    } else {
      NewAim(s, a, c);
    }
  }

  lemma NewAim(s: Domain, a: Action, c: nat)
    requires Inv(s) && Enabled(s, a) && Undisturbed(s) && c in After(s, a).cleanings
    requires c !in s.cleanings || After(s, a).cleanings[c] != s.cleanings[c]
    ensures Aimed(After(s, a), After(s, a).cleanings[c])
  {
    if a.List? {
      ListedIsAimed(s, c);
    } else if a.ListFiles? {
      FilesListedIsAimed(s, c);
    } else if c in s.cleanings {
      assert Aimed(s, s.cleanings[c]);
    }
  }

  lemma StepKeepsInv(s: Domain, a: Action)
    requires Inv(s) && Enabled(s, a) && Undisturbed(s) && !Cut(s, After(s, a))
    ensures Inv(After(s, a))
  {
    StepKeepsNumbered(s, a);
    StepKeepsDistinct(s, a);
    StepKeepsPresent(s, a);
    forall c | c in After(s, a).cleanings ensures Aimed(After(s, a), After(s, a).cleanings[c]) {
      StepKeepsAimed(s, a, c);
    }
  }

  // ---- Safety ----

  /** The cleaning cannot delete the row or its archive: it will not select it, or has not. */
  predicate OutOfReach(s: Domain, c: Cleaning, id: nat)
    requires id in s.rows && id in s.archive
  {
    match c
    case Reading(rule, protected) => protected == id || s.rows[id].pool != PoolOf(rule)
    case Listing(mode, known) => id !in BulkRows(mode, known)
    case Deleting(rows, names, _) => id !in rows && s.archive[id] !in names
  }

  predicate Spared(s: Domain, id: nat)
    requires id in s.rows && id in s.archive
  {
    forall c | c in s.cleanings :: OutOfReach(s, s.cleanings[c], id)
  }

  /** Some verified copy is out of reach of everything under way. */
  ghost predicate Safe(s: Domain) {
    exists id :: IsCopy(s, id) && Spared(s, id)
  }

  lemma PruneStaysInPool(rule: Rule, rows: Rows, now: int, protected: nat, id: nat)
    requires id in Victims(rule, rows, now, protected)
    ensures id in rows && rows[id].pool == PoolOf(rule) && id != protected
  {
  }

  lemma ListingSpares(s: Domain, c: nat, id: nat)
    requires Inv(s) && IsReading(s, c) && IsCopy(s, id) && OutOfReach(s, s.cleanings[c], id)
    ensures OutOfReach(s, Listed(s, c).cleanings[c], id)
  {
    var r := s.cleanings[c];
    var victims := Victims(r.rule, s.rows, s.now, r.protected);
    if id in victims {
      PruneStaysInPool(r.rule, s.rows, s.now, r.protected, id);
    }
    NamesAreOwn(s, victims, id);
  }

  lemma ListingFilesSpares(s: Domain, c: nat, id: nat)
    requires Inv(s) && Undisturbed(s) && IsListing(s, c) && IsCopy(s, id) && OutOfReach(s, s.cleanings[c], id)
    ensures OutOfReach(s, FilesListed(s, c).cleanings[c], id)
  {
    var (mode, known) := (s.cleanings[c].mode, s.cleanings[c].known);
    NamesAreOwn(s, BulkRows(mode, known), id);
    NamesAreOwn(s, known.Keys, id);
  }

  lemma CopyStays(s: Domain, a: Action, id: nat)
    requires Inv(s) && Enabled(s, a) && IsCopy(s, id) && Spared(s, id)
    ensures IsCopy(After(s, a), id) && After(s, a).rows[id] == s.rows[id] && After(s, a).archive[id] == s.archive[id]
  {
    if a.Unlink? || a.DeleteRow? || a.DeleteRows? {
      assert OutOfReach(s, s.cleanings[a.cleaning], id);
    }
  }

  lemma StillSpared(s: Domain, a: Action, id: nat)
    requires Inv(s) && Undisturbed(s) && Enabled(s, a) && IsCopy(s, id) && Spared(s, id) && !a.Begin? && !a.BeginBulk?
    ensures IsCopy(After(s, a), id) && Spared(After(s, a), id)
  {
    var t := After(s, a);
    CopyStays(s, a, id);
    if a.List? {
      ListingSpares(s, a.cleaning, id);
    } else if a.ListFiles? {
      ListingFilesSpares(s, a.cleaning, id);
    }
    forall c | c in t.cleanings ensures OutOfReach(t, t.cleanings[c], id) {
      assert OutOfReach(s, s.cleanings[c], id);
    }
  }

  /** A cleaning that begins alone spares the row that is then the newest verified one, which has its
      archive. */
  lemma BeginSpares(s: Domain, a: Action)
    requires Inv(s) && HasCopy(s) && Enabled(s, a) && (a.Begin? || a.BeginBulk?) && Serialised(After(s, a))
    ensures Safe(After(s, a))
  {
    var t := After(s, a);
    assert t.cleanings.Keys == s.cleanings.Keys + {a.cleaning};
    assert s.cleanings.Keys == {};
    var some :| IsCopy(s, some);
    assert some in VerifiedIds(s.rows);
    var id := LatestVerified(s.rows);
    assert id in VerifiedIds(s.rows) && IsVerified(s, id);
    assert !Condemned(s, id);
    assert IsCopy(t, id) && Spared(t, id);
  }

  lemma StepKeepsSafe(s: Domain, a: Action)
    requires Inv(s) && Safe(s) && Enabled(s, a) && Undisturbed(s) && Serialised(After(s, a))
    ensures Safe(After(s, a))
  {
    var id :| IsCopy(s, id) && Spared(s, id);
    if a.Begin? || a.BeginBulk? {
      BeginSpares(s, a);
    } else {
      StillSpared(s, a, id);
    }
  }

  // ---- Runs ----

  ghost predicate Next(s: Domain, t: Domain) {
    exists a: Action :: Enabled(s, a) && t == After(s, a)
  }

  ghost predicate Link(ss: seq<Domain>, i: nat)
    requires i + 1 < |ss|
  {
    Next(ss[i], ss[i + 1])
  }

  ghost predicate Run(ss: seq<Domain>) {
    ss != [] && forall i | 0 <= i < |ss| - 1 :: Link(ss, i)
  }

  /** Which of the three kinds of disorder a run is free of. */
  datatype Order = Order(serial: bool, undisturbed: bool, uncut: bool)

  const ORDERLY := Order(true, true, true)

  predicate Fits(o: Order, s: Domain) {
    (o.serial ==> Serialised(s)) && (o.undisturbed ==> Undisturbed(s))
  }

  predicate FitsLink(o: Order, s: Domain, t: Domain) {
    o.uncut ==> !Cut(s, t)
  }

  predicate Keeps(o: Order, ss: seq<Domain>) {
    (forall i | 0 <= i < |ss| :: Fits(o, ss[i])) && forall i | 0 <= i < |ss| - 1 :: FitsLink(o, ss[i], ss[i + 1])
  }

  ghost predicate SafeAndSound(s: Domain) {
    Safe(s) && Inv(s)
  }

  lemma LinkKeepsSafe(ss: seq<Domain>, i: nat)
    requires Run(ss) && Keeps(ORDERLY, ss) && i + 1 < |ss| && SafeAndSound(ss[i])
    ensures SafeAndSound(ss[i + 1])
  {
    assert Link(ss, i) && Fits(ORDERLY, ss[i]) && Fits(ORDERLY, ss[i + 1]) && FitsLink(ORDERLY, ss[i], ss[i + 1]);
    var a :| Enabled(ss[i], a) && ss[i + 1] == After(ss[i], a);
    StepKeepsSafe(ss[i], a);
    StepKeepsInv(ss[i], a);
  }

  /** From a moment on at which some verified copy is out of reach, the domain never loses its last
      verified copy, row and archive, in orderly runs: cleanings do not overlap, no backup is created
      while bulk cleaning is between its two reads, and no cleaning is given up between an archive and
      its row. */
  lemma SafeForever(ss: seq<Domain>, i: nat, k: nat)
    requires Run(ss) && Keeps(ORDERLY, ss) && i <= k < |ss| && Safe(ss[i]) && Inv(ss[i])
    ensures Safe(ss[k]) && HasCopy(ss[k])
  {
    forall n | i <= n < k && SafeAndSound(ss[n]) ensures SafeAndSound(ss[n + 1]) {
      LinkKeepsSafe(ss, n);
    }
    Onwards(ss, SafeAndSound, i, k);
  }

  /** With nothing under way any verified copy will do. */
  lemma QuietIsSafe(s: Domain)
    requires s.cleanings == map[]
    ensures Safe(s) <==> HasCopy(s)
  {
    if HasCopy(s) {
      var id :| IsCopy(s, id);
      assert Spared(s, id);
    }
  }

  /** While a single prune has not listed its rows, two verified copies in different pools suffice. */
  lemma TwoPoolsAreSafe(s: Domain, v: nat, w: nat)
    requires IsCopy(s, v) && IsCopy(s, w) && s.rows[v].pool != s.rows[w].pool
    requires Serialised(s) && forall c | c in s.cleanings :: s.cleanings[c].Reading?
    ensures Safe(s)
  {
    if c :| c in s.cleanings {
      var id := if s.rows[v].pool != PoolOf(s.cleanings[c].rule) then v else w;
      forall d | d in s.cleanings ensures OutOfReach(s, s.cleanings[d], id) {
        OnlyOne(s, c, d);
      }
      assert Spared(s, id);
    } else {
      assert Spared(s, v);
    }
  }

  lemma OnlyOne(s: Domain, c: nat, d: nat)
    requires Serialised(s) && c in s.cleanings && d in s.cleanings
    ensures c == d
  {
    if c != d {
      SubsetSize({c, d}, s.cleanings.Keys);
    }
  }
}
