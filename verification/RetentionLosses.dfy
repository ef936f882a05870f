/** The condition for keeping a verified copy is exact, and each kind of disorder loses every copy. */
module RetentionLosses {
  import opened BackupPool
  import opened RetentionProtocol

  // ---- Reaching a state ----

  /** A run of that order leads from `s` to `t`. */
  ghost predicate Reaches(s: Domain, t: Domain, o: Order) {
    exists ss: seq<Domain> :: Run(ss) && ss[0] == s && ss[|ss| - 1] == t && Keeps(o, ss)
  }

  lemma ReachesSelf(s: Domain, o: Order)
    requires Fits(o, s)
    ensures Reaches(s, s, o)
  {
    assert Run([s]) && [s][0] == s && Keeps(o, [s]);
  }

  lemma RunPrepends(s: Domain, ss: seq<Domain>, o: Order)
    requires Run(ss) && Keeps(o, ss) && Next(s, ss[0]) && Fits(o, s) && FitsLink(o, s, ss[0])
    ensures Run([s] + ss) && Keeps(o, [s] + ss)
  {
    var more := [s] + ss;
    forall i | 0 <= i < |more| - 1 ensures Link(more, i) && FitsLink(o, more[i], more[i + 1]) {
      if i > 0 {
        assert Link(ss, i - 1) && FitsLink(o, ss[i - 1], ss[i - 1 + 1]);
      }
    }
  }

  lemma ReachesStep(s: Domain, a: Action, t: Domain, o: Order)
    requires Enabled(s, a) && Reaches(After(s, a), t, o) && Fits(o, s) && FitsLink(o, s, After(s, a))
    ensures Reaches(s, t, o)
  {
    var m := After(s, a);
    var ss: seq<Domain> :| Run(ss) && ss[0] == m && ss[|ss| - 1] == t && Keeps(o, ss);
    assert Next(s, m);
    RunPrepends(s, ss, o);
    var more := [s] + ss;
    assert more[0] == s && more[|more| - 1] == t;
  }

  lemma ReachesJoin(s: Domain, m: Domain, t: Domain, o: Order)
    requires Reaches(s, m, o) && Reaches(m, t, o)
    ensures Reaches(s, t, o)
  {
    var ss: seq<Domain> :| Run(ss) && ss[0] == s && ss[|ss| - 1] == m && Keeps(o, ss);
    RunReaches(ss, t, o);
  }

  lemma {:induction false} RunReaches(ss: seq<Domain>, t: Domain, o: Order)
    requires Run(ss) && Keeps(o, ss) && Reaches(ss[|ss| - 1], t, o)
    ensures Reaches(ss[0], t, o)
  {
    if |ss| > 1 {
      var rest := ss[1..];
      RunRest(ss, o);
      RunReaches(rest, t, o);
      assert Link(ss, 0) && Fits(o, ss[0]) && FitsLink(o, ss[0], ss[0 + 1]);
      var a :| Enabled(ss[0], a) && ss[1] == After(ss[0], a);
      ReachesStep(ss[0], a, t, o);
    }
  }

  lemma RunRest(ss: seq<Domain>, o: Order)
    requires Run(ss) && Keeps(o, ss) && |ss| > 1
    ensures Run(ss[1..]) && Keeps(o, ss[1..])
  {
    var rest := ss[1..];
    forall i | 0 <= i < |rest| - 1 ensures Link(rest, i) && FitsLink(o, rest[i], rest[i + 1]) {
      assert Link(ss, i + 1) && FitsLink(o, ss[i + 1], ss[i + 1 + 1]);
    }
    forall i | 0 <= i < |rest| ensures Fits(o, rest[i]) {
      assert Fits(o, ss[i + 1]);
    }
  }

  /** Nothing that makes a difference to the order. */
  predicate Calmer(s: Domain, t: Domain) {
    t.cleanings.Keys == s.cleanings.Keys && t.unrecorded == s.unrecorded && t.rows.Keys <= s.rows.Keys
    && forall c | c in t.cleanings :: t.cleanings[c].Listing? ==> t.cleanings[c] == s.cleanings[c]
  }

  lemma StaysFit(s: Domain, t: Domain, o: Order)
    requires Fits(o, s) && Calmer(s, t)
    ensures Fits(o, t) && FitsLink(o, s, t)
  {
    assert |t.cleanings.Keys| == |t.cleanings| && |s.cleanings.Keys| == |s.cleanings|;
  }

  predicate NoListing(s: Domain) {
    forall c | c in s.cleanings :: !s.cleanings[c].Listing?
  }

  lemma SameCleanings(s: Domain, t: Domain, o: Order)
    requires Fits(o, s) && t.cleanings == s.cleanings && NoListing(s)
    ensures Fits(o, t) && FitsLink(o, s, t)
  {
  }

  // ---- A cleaning runs to its end ----

  lemma {:induction false} LeastExists(ids: set<nat>) returns (id: nat)
    requires ids != {}
    ensures Least(ids, id)
    decreases |ids|
  {
    id :| id in ids;
    var rest := ids - {id};
    if rest != {} {
      var other := LeastExists(rest);
      forall x | x in ids ensures (if other < id then other else id) <= x {
        assert x == id || x in rest;
      }
      id := if other < id then other else id;
    }
  }

  /** Bulk cleaning at its end. */
  function Emptied(s: Domain, c: nat): Domain
    requires IsDeleting(s, c)
  {
    var d := s.cleanings[c];
    WithCleaning(s, c, Deleting({}, {}, d.atOnce)).(rows := s.rows - d.rows, files := s.files - d.names)
  }

  lemma EmptiedAfterUnlink(s: Domain, c: nat, n: nat)
    requires IsDeleting(s, c) && n in s.cleanings[c].names
    ensures Emptied(Unlinked(s, c, n), c) == Emptied(s, c)
  {
    var names := s.cleanings[c].names;
    assert (s.files - {n}) - (names - {n}) == s.files - names;
  }

  lemma EmptyRows(s: Domain, c: nat, o: Order)
    requires Fits(o, s) && IsDeleting(s, c) && s.cleanings[c].atOnce && s.cleanings[c].names == {}
    ensures Reaches(s, Emptied(s, c), o)
  {
    var t, rows := Emptied(s, c), s.cleanings[c].rows;
    assert s.files - {} == s.files && rows - rows == {};
    assert t == RowsDeleted(s, c, rows);
    StaysFit(s, t, o);
    ReachesSelf(t, o);
    ReachesStep(s, DeleteRows(c), t, o);
  }

  lemma {:induction false} FinishBulk(s: Domain, c: nat, o: Order)
    requires Fits(o, s) && IsDeleting(s, c) && s.cleanings[c].atOnce
    ensures Reaches(s, Emptied(s, c), o)
    decreases |s.cleanings[c].names|
  {
    var names := s.cleanings[c].names;
    if names == {} {
      EmptyRows(s, c, o);
    } else {
      var n :| n in names;
      var u := Unlinked(s, c, n);
      StaysFit(s, u, o);
      EmptiedAfterUnlink(s, c, n);
      FinishBulk(u, c, o);
      ReachesStep(s, Unlink(c, n, 0), Emptied(s, c), o);
    }
  }

  /** `t` is `s` with those rows gone, some archives gone, and the cleaning further on. */
  predicate Fewer(s: Domain, t: Domain, c: nat, rows: set<nat>) {
    c in t.cleanings && t.rows == s.rows - rows && t.files.Keys <= s.files.Keys
    && t == s.(rows := t.rows, files := t.files, cleanings := s.cleanings[c := t.cleanings[c]])
  }

  predicate OfPrune(s: Domain, c: nat, a: Action) {
    IsDeleting(s, c) && !s.cleanings[c].atOnce && (a.Unlink? || a.DeleteRow?) && a.cleaning == c && Enabled(s, a)
  }

  lemma PruneGoesOn(s: Domain, c: nat) returns (a: Action)
    requires IsDeleting(s, c) && !s.cleanings[c].atOnce && s.cleanings[c].rows != {}
    requires s.cleanings[c].rows <= s.archive.Keys
    ensures OfPrune(s, c, a)
  {
    var id := LeastExists(s.cleanings[c].rows);
    a := if s.archive[id] in s.cleanings[c].names then Unlink(c, s.archive[id], id) else DeleteRow(c, id);
  }

  lemma PruneShrinks(s: Domain, c: nat, a: Action)
    requires OfPrune(s, c, a)
    ensures var t := After(s, a);
      IsDeleting(t, c) && !t.cleanings[c].atOnce && t.archive == s.archive && Calmer(s, t)
      && t.cleanings[c].rows <= s.cleanings[c].rows
      && if a.DeleteRow? then a.id in s.cleanings[c].rows && t.cleanings[c].rows == s.cleanings[c].rows - {a.id}
         else t.cleanings[c].rows == s.cleanings[c].rows && a.name in s.cleanings[c].names
              && t.cleanings[c].names == s.cleanings[c].names - {a.name}
  {
  }

  lemma FewerBefore(s: Domain, c: nat, a: Action, t: Domain)
    requires OfPrune(s, c, a) && IsDeleting(After(s, a), c) && Fewer(After(s, a), t, c, After(s, a).cleanings[c].rows)
    ensures Fewer(s, t, c, s.cleanings[c].rows)
  {
    var rows := s.cleanings[c].rows;
    if a.DeleteRow? {
      assert (s.rows - {a.id}) - (rows - {a.id}) == s.rows - rows;
    }
  }

  lemma {:induction false} FinishPrune(s: Domain, c: nat, o: Order) returns (t: Domain)
    requires Fits(o, s) && IsDeleting(s, c) && !s.cleanings[c].atOnce && s.cleanings[c].rows <= s.archive.Keys
    ensures Reaches(s, t, o) && Fewer(s, t, c, s.cleanings[c].rows) && IsDeleting(t, c)
    decreases |s.cleanings[c].rows|, |s.cleanings[c].names|
  {
    if s.cleanings[c].rows == {} {
      ReachesSelf(s, o);
      t := s;
      assert s.rows - {} == s.rows;
    } else {
      var a := PruneGoesOn(s, c);
      PruneShrinks(s, c, a);
      StaysFit(s, After(s, a), o);
      t := FinishPrune(After(s, a), c, o);
      FewerBefore(s, c, a, t);
      ReachesStep(s, a, t, o);
    }
  }

  /** A cleaning with all verified copies among its victims runs to its end. */
  lemma Finish(s: Domain, c: nat, o: Order) returns (t: Domain)
    requires Fits(o, s) && IsDeleting(s, c) && s.cleanings[c].rows <= s.archive.Keys
    requires forall id | IsCopy(s, id) :: id in s.cleanings[c].rows
    ensures Reaches(s, t, o) && !HasCopy(t)
  {
    if s.cleanings[c].atOnce {
      t := Emptied(s, c);
      FinishBulk(s, c, o);
    } else {
      t := FinishPrune(s, c, o);
    }
    forall id ensures !IsCopy(t, id) {
      assert IsCopy(t, id) ==> IsCopy(s, id);
    }
  }

  // ---- The condition is exact ----

  /** The prune reads its rows, all verified copies are among its victims, and it runs to its end. */
  lemma ListAndFinish(s: Domain, c: nat) returns (t: Domain)
    requires Numbered(s) && Fits(ORDERLY, s) && IsReading(s, c)
    requires forall id | IsCopy(s, id) ::
      id in Victims(s.cleanings[c].rule, s.rows, s.now, s.cleanings[c].protected)
    ensures Reaches(s, t, ORDERLY) && !HasCopy(t)
  {
    var listed := Listed(s, c);
    StaysFit(s, listed, ORDERLY);
    forall id | id in listed.cleanings[c].rows ensures id in s.archive {
      PruneStaysInPool(s.cleanings[c].rule, s.rows, s.now, s.cleanings[c].protected, id);
    }
    forall id | IsCopy(listed, id) ensures id in listed.cleanings[c].rows {
      assert IsCopy(s, id);
    }
    t := Finish(listed, c, ORDERLY);
    ReachesStep(s, List(c), t, ORDERLY);
  }

  /** All verified copies lie in the pool of the prune, and none is the one it protects. */
  ghost predicate Threatened(s: Domain, c: nat) {
    IsReading(s, c)
    && forall id | IsCopy(s, id) ::
      s.rows[id].pool == PoolOf(s.cleanings[c].rule) && id != s.cleanings[c].protected
  }

  /** A backup is created. */
  function Added(s: Domain, pool: string): Domain {
    Recorded(Published(s, pool), s.nextName)
  }

  lemma AddReaches(s: Domain, pool: string, t: Domain, o: Order)
    requires NoListing(s) && Fits(o, s) && (pool == OTO || pool == MANUEL) && Reaches(Added(s, pool), t, o)
    ensures Reaches(s, t, o)
  {
    var m := Published(s, pool);
    SameCleanings(s, m, o);
    SameCleanings(m, Added(s, pool), o);
    ReachesStep(m, Record(s.nextName), t, o);
    ReachesStep(s, Publish(pool), t, o);
  }

  lemma AddedCopies(s: Domain, pool: string, id: nat)
    requires Numbered(s) && (pool == OTO || pool == MANUEL)
    ensures IsCopy(Added(s, pool), id) <==> IsCopy(s, id)
    ensures id in s.rows ==> id in Added(s, pool).rows && Added(s, pool).rows[id] == s.rows[id]
  {
    assert s.next !in s.rows && s.next !in s.archive;
  }

  lemma AddedNumbered(s: Domain, pool: string)
    requires Numbered(s) && (pool == OTO || pool == MANUEL)
    ensures Numbered(Added(s, pool))
  {
    StepKeepsNumbered(s, Publish(pool));
    StepKeepsNumbered(Published(s, pool), Record(s.nextName));
  }

  lemma NewerGrows(s: Domain, pool: string, id: nat)
    requires Numbered(s) && id in s.rows && (pool == OTO || pool == MANUEL)
    ensures |Newer(Added(s, pool).rows, pool, id)| == |Newer(s.rows, pool, id)| + 1
  {
    var t := Added(s, pool);
    assert s.next !in s.rows;
    assert Newer(t.rows, pool, id) == Newer(s.rows, pool, id) + {s.next};
  }

  /** Enough backups are created before a prune by number reads its rows. */
  lemma {:induction false} Fill(s: Domain, c: nat, n: nat) returns (t: Domain)
    requires Numbered(s) && Fits(ORDERLY, s) && NoListing(s) && Threatened(s, c) && s.cleanings[c].rule.ByNumber?
    requires IsRule(s.cleanings[c].rule)
    requires forall id | IsCopy(s, id) ::
      |Newer(s.rows, s.cleanings[c].rule.pool, id)| + n >= s.cleanings[c].rule.keep
    ensures Reaches(s, t, ORDERLY) && !HasCopy(t)
    decreases n
  {
    if n == 0 {
      t := ListAndFinish(s, c);
    } else {
      var pool := s.cleanings[c].rule.pool;
      var more := Added(s, pool);
      forall id | IsCopy(more, id)
        ensures IsCopy(s, id) && more.rows[id] == s.rows[id]
        ensures |Newer(more.rows, pool, id)| == |Newer(s.rows, pool, id)| + 1
      {
        AddedCopies(s, pool, id);
        NewerGrows(s, pool, id);
      }
      AddedNumbered(s, pool);
      SameCleanings(s, more, ORDERLY);
      t := Fill(more, c, n - 1);
      AddReaches(s, pool, t, ORDERLY);
    }
  }

  lemma AgedAll(s: Domain, c: nat, waited: Domain, id: nat)
    requires Numbered(s) && Threatened(s, c) && s.cleanings[c].rule.ByAge?
    requires waited == s.(now := s.now + s.cleanings[c].rule.days + 1) && IsCopy(Added(waited, OTO), id)
    ensures var later := Added(waited, OTO);
      id in Victims(s.cleanings[c].rule, later.rows, later.now, s.cleanings[c].protected)
  {
    AddedCopies(waited, OTO, id);
    assert IsCopy(s, id);
    assert s.next in PoolIds(Added(waited, OTO).rows, OTO);
  }

  /** Time passes and one backup is created before a prune by age reads its rows. */
  lemma Age(s: Domain, c: nat) returns (t: Domain)
    requires Numbered(s) && Fits(ORDERLY, s) && NoListing(s) && Threatened(s, c) && s.cleanings[c].rule.ByAge?
    ensures Reaches(s, t, ORDERLY) && !HasCopy(t)
  {
    var waited := s.(now := s.now + s.cleanings[c].rule.days + 1);
    var later := Added(waited, OTO);
    SameCleanings(s, waited, ORDERLY);
    SameCleanings(waited, later, ORDERLY);
    AddedNumbered(waited, OTO);
    forall id | IsCopy(later, id)
      ensures id in Victims(s.cleanings[c].rule, later.rows, later.now, s.cleanings[c].protected)
    {
      AgedAll(s, c, waited, id);
    }
    t := ListAndFinish(later, c);
    AddReaches(waited, OTO, t, ORDERLY);
    ReachesStep(s, Tick(waited.now), t, ORDERLY);
  }

  /** Bulk cleaning lists the directory, selects all verified copies, and runs to its end. */
  lemma ListFilesAndFinish(s: Domain, c: nat) returns (t: Domain)
    requires Inv(s) && Fits(ORDERLY, s) && IsListing(s, c)
    requires forall id | IsCopy(s, id) :: id in BulkRows(s.cleanings[c].mode, s.cleanings[c].known)
    ensures Reaches(s, t, ORDERLY) && !HasCopy(t)
  {
    var listed := FilesListed(s, c);
    StaysFit(s, listed, ORDERLY);
    assert Aimed(s, s.cleanings[c]);
    forall id | IsCopy(listed, id) ensures id in listed.cleanings[c].rows {
      assert IsCopy(s, id);
    }
    t := Finish(listed, c, ORDERLY);
    ReachesStep(s, ListFiles(c), t, ORDERLY);
  }

  lemma WithinReach(s: Domain, c: nat, v: nat, id: nat)
    requires Serialised(s) && !Safe(s) && c in s.cleanings && IsCopy(s, v) && IsCopy(s, id)
    requires !OutOfReach(s, s.cleanings[c], v)
    ensures !OutOfReach(s, s.cleanings[c], id)
  {
    assert !Spared(s, id);
    var d :| d in s.cleanings && !OutOfReach(s, s.cleanings[d], id);
    OnlyOne(s, c, d);
  }

  lemma OnlyListing(s: Domain, c: nat)
    requires Serialised(s) && c in s.cleanings && !s.cleanings[c].Listing?
    ensures NoListing(s)
  {
    forall d | d in s.cleanings ensures !s.cleanings[d].Listing? {
      OnlyOne(s, c, d);
    }
  }

  lemma DoomedBy(s: Domain, c: nat) returns (t: Domain)
    requires Inv(s) && Fits(ORDERLY, s) && c in s.cleanings
    requires forall id | IsCopy(s, id) :: !OutOfReach(s, s.cleanings[c], id)
    ensures Reaches(s, t, ORDERLY) && !HasCopy(t)
  {
    assert Aimed(s, s.cleanings[c]);
    match s.cleanings[c]
    case Reading(rule, protected) =>
      OnlyListing(s, c);
      if rule.ByAge? {
        t := Age(s, c);
      } else {
        t := Fill(s, c, rule.keep);
      }
    case Listing(_, _) => t := ListFilesAndFinish(s, c);
    case Deleting(_, _, _) => t := Finish(s, c, ORDERLY);
  }

  /** When every verified copy is within reach of the cleaning under way, all of them can be lost. */
  lemma Doomed(s: Domain) returns (t: Domain)
    requires Inv(s) && Fits(ORDERLY, s) && !Safe(s)
    ensures Reaches(s, t, ORDERLY) && !HasCopy(t)
  {
    if !HasCopy(s) {
      ReachesSelf(s, ORDERLY);
      return s;
    }
    var v :| IsCopy(s, v);
    assert !Spared(s, v);
    var c :| c in s.cleanings && !OutOfReach(s, s.cleanings[c], v);
    forall id | IsCopy(s, id) ensures !OutOfReach(s, s.cleanings[c], id) {
      WithinReach(s, c, v, id);
    }
    t := DoomedBy(s, c);
  }

  /** A domain keeps a verified copy whatever comes in orderly runs if and only if some verified copy
      is out of reach of the cleaning under way: not among its victims or, as long as these have not
      been read, in another pool than a prune's or the one it protects. */
  lemma KeepsAVerifiedCopyExactly(s: Domain)
    requires Inv(s) && Fits(ORDERLY, s)
    ensures Safe(s) <==> forall t | Reaches(s, t, ORDERLY) :: HasCopy(t)
  {
    if Safe(s) {
      forall t | Reaches(s, t, ORDERLY) ensures HasCopy(t) {
        var ss: seq<Domain> :| Run(ss) && ss[0] == s && ss[|ss| - 1] == t && Keeps(ORDERLY, ss);
        SafeForever(ss, 0, |ss| - 1);
      }
    } else {
      var t := Doomed(s);
    }
  }

  // ---- Each kind of disorder loses everything ----

  /** No cleaning and no backup is under way. */
  predicate Quiet(s: Domain) {
    s.cleanings == map[] && s.unrecorded == map[]
  }

  /** The domain after undisturbed bulk cleaning. */
  function Swept(s: Domain, mode: Mode): Domain {
    var gone := BulkRows(mode, s.rows);
    s.(rows := s.rows - gone, files := s.files - (Names(s.archive, gone) + Orphans(s, mode, s.rows)))
  }

  /** The last cleaning ends, and the domain is quiet. */
  function Ended(s: Domain): Domain {
    s.(cleanings := map[])
  }

  lemma EndReaches(s: Domain, t: Domain, o: Order)
    requires s.cleanings.Keys == {0} && Fits(o, s) && Reaches(Ended(s), t, o) && (o.uncut ==> !HalfDone(s, 0))
    ensures Reaches(s, t, o)
  {
    assert s.cleanings - {0} == map[];
    ReachesStep(s, End(0), t, o);
  }

  lemma SweepReaches(s: Domain, mode: Mode, o: Order)
    requires Quiet(s) && !mode.BulkGun?
    ensures Reaches(s, Swept(s, mode), o)
  {
    var a := WithCleaning(s, 0, Listing(mode, s.rows));
    var b := FilesListed(a, 0);
    var d := Emptied(b, 0);
    assert Ended(d) == Swept(s, mode);
    assert Fits(o, a);
    StaysFit(a, b, o);
    StaysFit(b, d, o);
    ReachesSelf(Ended(d), o);
    EndReaches(d, Ended(d), o);
    FinishBulk(b, 0, o);
    ReachesJoin(b, d, Ended(d), o);
    ReachesStep(a, ListFiles(0), Ended(d), o);
    ReachesStep(s, BeginBulk(0, mode), Ended(d), o);
  }

  /** A verified row without its archive that is newer than all others is protected in their place. */
  lemma PhantomDooms(s: Domain, p: nat, o: Order) returns (t: Domain)
    requires Quiet(s) && IsVerified(s, p) && !HasArchive(s, p) && forall id: nat | IsVerified(s, id) :: id <= p
    ensures Reaches(s, t, o) && !HasCopy(t)
  {
    var u := Swept(s, BulkManuel);
    t := Swept(u, BulkOto);
    SweepSpares(s, BulkManuel, p);
    SweepSpares(u, BulkOto, p);
    SweepReaches(s, BulkManuel, o);
    SweepReaches(u, BulkOto, o);
    ReachesJoin(s, u, t, o);
    forall id ensures !IsCopy(t, id) {
      LatestIs(s, p);
      LatestIs(u, p);
    }
  }

  lemma SweepSpares(s: Domain, mode: Mode, p: nat)
    requires IsVerified(s, p) && forall id: nat | IsVerified(s, id) :: id <= p
    ensures IsVerified(Swept(s, mode), p) && forall id: nat | IsVerified(Swept(s, mode), id) :: id <= p
  {
    LatestIs(s, p);
    forall id: nat | IsVerified(Swept(s, mode), id) ensures id <= p {
      assert IsVerified(s, id);
    }
  }

  lemma LatestIs(s: Domain, p: nat)
    requires IsVerified(s, p) && forall id: nat | IsVerified(s, id) :: id <= p
    ensures LatestVerified(s.rows) == p
  {
    assert p in VerifiedIds(s.rows);
    assert IsVerified(s, LatestVerified(s.rows));
  }

  /** The row of an archive that bulk cleaning has taken for an orphan is recorded. */
  lemma RecordedLate(s: Domain, n: nat, o: Order) returns (t: Domain)
    requires s.cleanings.Keys == {0} && s.cleanings[0] == Deleting({}, {}, true) && !o.undisturbed && Fits(o, s)
    requires s.unrecorded == map[n := TAM] && n !in s.files && forall id | id in s.rows :: id < s.next
    ensures Reaches(s, t, o) && !HasCopy(t)
  {
    var f := Recorded(s, n);
    assert f.unrecorded == map[];
    t := PhantomDooms(Ended(f), s.next, o);
    EndReaches(f, t, o);
    ReachesStep(s, Record(n), t, o);
  }

  /** Bulk cleaning lists an archive whose row it could not know. */
  lemma ListedLate(s: Domain, n: nat, o: Order) returns (t: Domain)
    requires s.cleanings.Keys == {0} && s.cleanings[0] == Listing(BulkManuel, s.rows) && !o.undisturbed && Fits(o, s)
    requires s.unrecorded == map[n := TAM] && n in s.files && !s.files[n].automatic
    requires (forall id | id in s.archive :: s.archive[id] != n) && forall id | id in s.rows :: id < s.next
    ensures Reaches(s, t, o) && !HasCopy(t)
  {
    var d := FilesListed(s, 0);
    assert n in Orphans(s, BulkManuel, s.rows);
    StaysFit(s, d, o);
    StaysFit(d, Emptied(d, 0), o);
    t := RecordedLate(Emptied(d, 0), n, o);
    FinishBulk(d, 0, o);
    ReachesJoin(d, Emptied(d, 0), t, o);
    ReachesStep(s, ListFiles(0), t, o);
  }

  /** From any domain with nothing under way a serialised run in which an archive is published between
      the two reads of bulk cleaning, and its row recorded after that, loses every verified copy. */
  lemma PublishedTooLate(s: Domain) returns (t: Domain)
    requires Numbered(s) && Quiet(s)
    ensures Reaches(s, t, Order(true, false, true)) && !HasCopy(t)
  {
    var o := Order(true, false, true);
    var a := WithCleaning(s, 0, Listing(BulkManuel, s.rows));
    t := ListedLate(Published(a, TAM), s.nextName, o);
    ReachesStep(a, Publish(TAM), t, o);
    ReachesStep(s, BeginBulk(0, BulkManuel), t, o);
  }

  /** A verification ends after the archive is deleted, and bulk cleaning is given up before the row. */
  lemma VerifiedAndCut(s: Domain, v: nat, o: Order) returns (t: Domain)
    requires s.cleanings.Keys == {0} && Targets(s, 0, v) && s.unrecorded == map[] && !o.uncut && Fits(o, s)
    requires v in s.rows && !HasArchive(s, v) && forall id | id in s.rows :: id <= v
    ensures Reaches(s, t, o) && !HasCopy(t)
  {
    var f := Reviewed(s, v, Verified);
    t := PhantomDooms(Ended(f), v, o);
    StaysFit(s, f, o);
    EndReaches(f, t, o);
    ReachesStep(s, VerifyOk(v), t, o);
  }

  lemma CutAfterUnlink(s: Domain, n: nat, v: nat, o: Order) returns (t: Domain)
    requires s.cleanings.Keys == {0} && s.cleanings[0] == Listing(BulkManuel, s.rows) && Fits(o, s) && !o.uncut
    requires s.unrecorded == map[] && v in s.rows && s.rows[v].pool == MANUEL && !IsVerified(s, v) && v > 0
    requires v in s.archive && s.archive[v] == n && forall id | id in s.rows :: id <= v
    ensures Reaches(s, t, o) && !HasCopy(t)
  {
    var d := FilesListed(s, 0);
    assert LatestVerified(s.rows) != v;
    assert v in BulkRows(BulkManuel, s.rows);
    var e := Unlinked(d, 0, n);
    StaysFit(s, d, o);
    StaysFit(d, e, o);
    t := VerifiedAndCut(e, v, o);
    ReachesStep(d, Unlink(0, n, v), t, o);
    ReachesStep(s, ListFiles(0), t, o);
  }

  /** So does one in which bulk cleaning is given up after an archive and before its row, when a
      verification of that archive ends in between. */
  lemma CutShort(s: Domain) returns (t: Domain)
    requires Numbered(s) && Quiet(s)
    ensures Reaches(s, t, Order(true, true, false)) && !HasCopy(t)
  {
    var o, a := Order(true, true, false), Added(s, MANUEL);
    t := CutAfterUnlink(WithCleaning(a, 0, Listing(BulkManuel, a.rows)), s.nextName, s.next, o);
    ReachesStep(a, BeginBulk(0, BulkManuel), t, o);
    AddReaches(s, MANUEL, t, o);
  }

  // ---- Two ways of losing the last verified copy ----

  /** A domain without backups. */
  function Empty(): Domain {
    Domain(map[], map[], map[], map[], 1, 0, 0, map[])
  }

  lemma OlderIsSurplus(rows: Rows)
    requires rows.Keys == {1, 2} && rows[1].pool == rows[2].pool == OTO
    ensures Surplus(rows, OTO, 1, 0) == {1}
  {
    assert Newer(rows, OTO, 1) == {2} && Newer(rows, OTO, 2) == {};
  }

  lemma TwoAdded(s: Domain)
    requires s == Added(Added(Empty(), OTO), OTO)
    ensures s.rows.Keys == {1, 2} && s.rows[1] == s.rows[2] == Backup(OTO, 0, Unverified) && Numbered(s) && Quiet(s)
    ensures HasArchive(s, 1) && VerifiedIds(s.rows) == {}
  {
    var one := Added(Empty(), OTO);
    AddedNumbered(Empty(), OTO);
    AddedNumbered(one, OTO);
  }

  lemma TwoAddedReaches(t: Domain)
    requires Reaches(Added(Added(Empty(), OTO), OTO), t, ORDERLY)
    ensures Reaches(Empty(), t, ORDERLY)
  {
    AddReaches(Added(Empty(), OTO), OTO, t, ORDERLY);
    AddReaches(Empty(), OTO, t, ORDERLY);
  }

  lemma VerifiedLate(two: Domain) returns (s: Domain, t: Domain)
    requires two.rows.Keys == {1, 2} && two.rows[1] == two.rows[2] == Backup(OTO, 0, Unverified)
    requires Numbered(two) && Quiet(two) && HasArchive(two, 1) && VerifiedIds(two.rows) == {}
    ensures Reaches(two, s, ORDERLY) && HasCopy(s) && Reaches(s, t, ORDERLY) && !HasCopy(t)
  {
    var rule := ByNumber(OTO, 1);
    OlderIsSurplus(two.rows);
    var a := WithCleaning(two, 0, Reading(rule, 0));
    var b := Listed(a, 0);
    s := Reviewed(b, 1, Verified);
    assert IsCopy(s, 1);
    StaysFit(a, b, ORDERLY);
    StaysFit(b, s, ORDERLY);
    ReachesSelf(s, ORDERLY);
    ReachesStep(b, VerifyOk(1), s, ORDERLY);
    ReachesStep(a, List(0), s, ORDERLY);
    ReachesStep(two, Begin(0, rule), s, ORDERLY);
    t := Finish(s, 0, ORDERLY);
  }

  /** Having a verified copy is not enough: a row that is verified while a cleaning that found none is
      under way can be its victim. */
  lemma VerifiedTooLate() returns (s: Domain, t: Domain)
    ensures Reaches(Empty(), s, ORDERLY) && HasCopy(s) && Reaches(s, t, ORDERLY) && !HasCopy(t)
  {
    var two := Added(Added(Empty(), OTO), OTO);
    TwoAdded(two);
    s, t := VerifiedLate(two);
    TwoAddedReaches(s);
  }

  lemma EachSparesItsOwn(rows: Rows)
    requires rows.Keys == {1, 2, 3} && forall id | id in rows :: rows[id].pool == OTO
    ensures Surplus(rows, OTO, 1, 1) == {2} && Surplus(rows, OTO, 1, 2) == {1}
  {
    assert Newer(rows, OTO, 1) == {2, 3} && Newer(rows, OTO, 2) == {3} && Newer(rows, OTO, 3) == {};
  }

  /** Two prunes that have read different protected ids list their rows and delete. */
  lemma BothDelete(s: Domain, o: Order) returns (t: Domain)
    requires s.rows.Keys == {1, 2, 3} <= s.archive.Keys && forall id | id in s.rows :: s.rows[id].pool == OTO
    requires !IsVerified(s, 3) && NoListing(s) && Fits(o, s)
    requires 0 in s.cleanings && s.cleanings[0] == Reading(ByNumber(OTO, 1), 1)
    requires 1 in s.cleanings && s.cleanings[1] == Reading(ByNumber(OTO, 1), 2)
    ensures Reaches(s, t, o) && !HasCopy(t)
  {
    EachSparesItsOwn(s.rows);
    var a := Listed(s, 0);
    var b := Listed(a, 1);
    StaysFit(s, a, o);
    StaysFit(a, b, o);
    assert b.cleanings[0].rows == {2} && b.cleanings[1].rows == {1};
    t := DeleteEach(b, o);
    ReachesStep(a, List(1), t, o);
    ReachesStep(s, List(0), t, o);
  }

  lemma DeleteEach(s: Domain, o: Order) returns (t: Domain)
    requires s.rows.Keys == {1, 2, 3} <= s.archive.Keys && !IsVerified(s, 3) && NoListing(s) && Fits(o, s)
    requires IsDeleting(s, 0) && !s.cleanings[0].atOnce && s.cleanings[0].rows == {2}
    requires IsDeleting(s, 1) && !s.cleanings[1].atOnce && s.cleanings[1].rows == {1}
    ensures Reaches(s, t, o) && !HasCopy(t)
  {
    var u := FinishPrune(s, 0, o);
    StaysFit(s, u, o);
    t := FinishPrune(u, 1, o);
    ReachesJoin(s, u, t, o);
    assert t.rows.Keys <= {3};
  }

  /** A second backup is verified while the first prune is under way, the second prune protects it, and
      a third backup is newer than both. */
  lemma SecondBegins(s: Domain, rule: Rule, o: Order) returns (t: Domain)
    requires rule == ByNumber(OTO, 1) && s.rows.Keys == {1} && IsVerified(s, 1) && s.rows[1].pool == OTO
    requires s.next == 2 && Numbered(s) && s.cleanings.Keys == {0} && s.cleanings[0] == Reading(rule, 1)
    requires o == Order(false, true, true)
    ensures Reaches(s, t, o) && !HasCopy(t)
  {
    var a := Added(s, OTO);
    AddedNumbered(s, OTO);
    t := ThirdIsAdded(Reviewed(a, 2, Verified), rule, o);
    ReachesStep(a, VerifyOk(2), t, o);
    AddReaches(s, OTO, t, o);
  }

  lemma ThirdIsAdded(s: Domain, rule: Rule, o: Order) returns (t: Domain)
    requires rule == ByNumber(OTO, 1) && s.rows.Keys == {1, 2} && s.rows[1].pool == s.rows[2].pool == OTO
    requires IsVerified(s, 2) && s.next == 3 && Numbered(s) && o == Order(false, true, true)
    requires s.cleanings.Keys == {0} && s.cleanings[0] == Reading(rule, 1)
    ensures Reaches(s, t, o) && !HasCopy(t)
  {
    LatestIs(s, 2);
    var d := WithCleaning(s, 1, Reading(rule, 2));
    var e := Added(d, OTO);
    assert e.rows.Keys == {1, 2, 3};
    t := BothDelete(e, o);
    AddReaches(d, OTO, t, o);
    ReachesStep(s, Begin(1, rule), t, o);
  }

  /** Nor is it enough to have had one before: two prunes that overlap can each spare what the other
      deletes. */
  lemma OverlapLosesBoth() returns (s: Domain, t: Domain)
    ensures Inv(s) && Quiet(s) && HasCopy(s) && Reaches(s, t, Order(false, true, true)) && !HasCopy(t)
  {
    var rule, o := ByNumber(OTO, 1), Order(false, true, true);
    s := Domain(map[1 := Backup(OTO, 0, Verified)], map[1 := 0], map[0 := File(true, 0)], map[], 2, 1, 0, map[]);
    assert IsCopy(s, 1);
    LatestIs(s, 1);
    t := SecondBegins(WithCleaning(s, 0, Reading(rule, 1)), rule, o);
    ReachesStep(s, Begin(0, rule), t, o);
  }
}
