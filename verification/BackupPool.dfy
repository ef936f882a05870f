/** Which backups of a domain the retention rules delete. */
module BackupPool {

  const MAX_DAYS := 365

  datatype Verification = Unverified | Verifying | Verified | Broken

  /** The pools that have a limit of their own; recovery archives are in a third one, which has none. */
  const OTO := "oto"
  const MANUEL := "manuel"

  /** A row of `backups`; `created` is in days. */
  datatype Backup = Backup(pool: string, created: int, verification: Verification)

  /** The rows of one domain by id; ids are positive and grow with time. */
  type Rows = map<nat, Backup>

  predicate IsMax(ids: set<nat>, m: nat) {
    m in ids && forall id | id in ids :: id <= m
  }

  lemma MaxGrows(ids: set<nat>, x: nat, m: nat)
    requires x in ids && IsMax(ids - {x}, m)
    ensures IsMax(ids, if x <= m then m else x)
  {
    forall id | id in ids ensures id <= if x <= m then m else x {
      assert id == x || id in ids - {x};
    }
  }

  lemma {:induction false} MaxExists(ids: set<nat>) returns (m: nat)
    requires ids != {}
    ensures IsMax(ids, m)
  {
    var x: nat :| x in ids;
    if ids == {x} {
      m := x;
    } else {
      assert ids - {x} != {};
      m := MaxExists(ids - {x});
      MaxGrows(ids, x, m);
      m := if x <= m then m else x;
    }
  }

  lemma HasMax(ids: set<nat>)
    requires ids != {}
    ensures exists m :: IsMax(ids, m)
  {
    var m := MaxExists(ids);
  }

  /** SELECT MAX(id), 0 for none. */
  function MaxOf(ids: set<nat>): (m: nat)
    ensures if ids == {} then m == 0 else m in ids && forall id | id in ids :: id <= m
  {
    if ids == {} then 0
    else
      HasMax(ids);
      var m: nat :| IsMax(ids, m);
      m
  }

  function VerifiedIds(rows: Rows): set<nat> {
    set id | id in rows && rows[id].verification.Verified?
  }

  /** latestVerifiedBackup: the newest verified row of the domain, whatever its pool, or 0. */
  function LatestVerified(rows: Rows): nat {
    MaxOf(VerifiedIds(rows))
  }

  function PoolIds(rows: Rows, pool: string): set<nat> {
    set id | id in rows && rows[id].pool == pool
  }

  /** No verified row of the domain is newer. */
  ghost predicate NewestVerified(rows: Rows, id: nat) {
    id in rows && rows[id].verification.Verified?
    && forall other | other in rows && rows[other].verification.Verified? :: other <= id
  }

  lemma LatestIsNewest(rows: Rows, id: nat)
    requires id in rows && id > 0
    ensures id == LatestVerified(rows) <==> NewestVerified(rows, id)
  {
    if id == LatestVerified(rows) {
      assert id in VerifiedIds(rows);
      forall other | other in rows && rows[other].verification.Verified? ensures other <= id {
        assert other in VerifiedIds(rows);
      }
    }
    if NewestVerified(rows, id) {
      assert id in VerifiedIds(rows) && LatestVerified(rows) in VerifiedIds(rows);
    }
  }

  // ---- By number ----

  /** Rows of the pool that are newer. */
  function Newer(rows: Rows, pool: string, id: nat): set<nat> {
    set other | other in rows && rows[other].pool == pool && other > id
  }

  /** What a count limit deletes: all but the newest `keep` of the pool, and never the protected row. */
  function Surplus(rows: Rows, pool: string, keep: nat, protected: nat): set<nat> {
    set id | id in rows && rows[id].pool == pool && |Newer(rows, pool, id)| >= keep && id != protected
  }

  function Pruned(rows: Rows, pool: string, keep: nat): Rows {
    rows - Surplus(rows, pool, keep, LatestVerified(rows))
  }

  /** ORDER BY id DESC. */
  function Descending(ids: set<nat>): (all: seq<nat>)
    ensures forall id :: id in all <==> id in ids
    decreases |ids|
  {
    if ids == {} then []
    else
      var m := MaxOf(ids);
      [m] + Descending(ids - {m})
  }

  function Greater(ids: set<nat>, id: nat): set<nat> {
    set other | other in ids && other > id
  }

  lemma GreaterStep(ids: set<nat>, m: nat, id: nat)
    requires m in ids && id in ids && id < m
    ensures |Greater(ids, id)| == |Greater(ids - {m}, id)| + 1
  {
    assert Greater(ids, id) == Greater(ids - {m}, id) + {m};
  }

  lemma NoneGreater(ids: set<nat>, m: nat)
    requires forall id | id in ids :: id <= m
    ensures |Greater(ids, m)| == 0
  {
    assert Greater(ids, m) == {};
  }

  lemma {:induction false} PlaceIsRank(ids: set<nat>, k: nat, id: nat)
    requires k < |Descending(ids)| && Descending(ids)[k] == id
    ensures |Greater(ids, id)| == k
    decreases k
  {
    var m := MaxOf(ids);
    var rest := Descending(ids - {m});
    assert Descending(ids) == [m] + rest;
    if k == 0 {
      NoneGreater(ids, m);
    } else {
      assert rest[k - 1] == id && id in ids - {m};
      PlaceIsRank(ids - {m}, k - 1, id);
      GreaterStep(ids, m, id);
    }
  }

  lemma NewerIsGreater(rows: Rows, pool: string, id: nat)
    ensures Newer(rows, pool, id) == Greater(PoolIds(rows, pool), id)
  {
  }

  /** The rows at place `keep` and after it are the ones with `keep` newer ones. */
  lemma TailIsSurplus(rows: Rows, pool: string, keep: nat, protected: nat, id: nat)
    ensures var all := Descending(PoolIds(rows, pool));
      id in Surplus(rows, pool, keep, protected) <==> keep <= |all| && id in all[keep..] && id != protected
  {
    var all := Descending(PoolIds(rows, pool));
    if id in rows && rows[id].pool == pool {
      assert id in PoolIds(rows, pool);
      var k :| 0 <= k < |all| && all[k] == id;
      PlaceIsRank(PoolIds(rows, pool), k, id);
      NewerIsGreater(rows, pool, id);
      if keep <= k {
        assert all[keep..][k - keep] == id;
      } else if keep <= |all| && id in all[keep..] {
        var j :| 0 <= j < |all| - keep && all[keep..][j] == id;
        PlaceIsRank(PoolIds(rows, pool), keep + j, id);
      }
    } else {
      assert id !in PoolIds(rows, pool);
    }
  }

  lemma ProtectedStays(rows: Rows, pool: string, keep: nat)
    ensures LatestVerified(Pruned(rows, pool, keep)) == LatestVerified(rows)
  {
    var kept := Pruned(rows, pool, keep);
    assert VerifiedIds(kept) <= VerifiedIds(rows);
    if VerifiedIds(rows) != {} {
      assert LatestVerified(rows) in VerifiedIds(kept);
    }
  }

  lemma NewerShrinks(rows: Rows, kept: Rows, pool: string, id: nat)
    requires forall other | other in kept :: other in rows && rows[other] == kept[other]
    ensures |Newer(kept, pool, id)| <= |Newer(rows, pool, id)|
  {
    assert Newer(kept, pool, id) <= Newer(rows, pool, id);
    SubsetSize(Newer(kept, pool, id), Newer(rows, pool, id));
  }

  lemma {:induction false} SubsetSize(a: set<nat>, b: set<nat>)
    requires a <= b
    ensures |a| <= |b|
  {
    if a != {} {
      var x :| x in a;
      SubsetSize(a - {x}, b - {x});
    }
  }

  /** Row by row: a count limit deletes the rows of the pool that have as many newer ones in it as are to be
      kept, but not the newest verified one of the domain. */
  lemma PrunedMeans(rows: Rows, pool: string, keep: nat, id: nat)
    requires id in rows && id > 0
    ensures id !in Pruned(rows, pool, keep)
      <==> rows[id].pool == pool && !NewestVerified(rows, id)
           && |set other | other in rows && rows[other].pool == pool && other > id| >= keep
  {
    LatestIsNewest(rows, id);
    assert Newer(rows, pool, id) == set other | other in rows && rows[other].pool == pool && other > id;
  }

  /** Of the rows of the pool that a count limit may delete it never takes one and leaves an older one. */
  lemma OldestGoFirst(rows: Rows, pool: string, keep: nat, id: nat, older: nat)
    requires id in rows && older in rows && 0 < older < id && rows[id].pool == rows[older].pool == pool
    requires id !in Pruned(rows, pool, keep)
    ensures older !in Pruned(rows, pool, keep) || NewestVerified(rows, older)
  {
    LatestIsNewest(rows, older);
    assert Newer(rows, pool, id) <= Newer(rows, pool, older);
    SubsetSize(Newer(rows, pool, id), Newer(rows, pool, older));
  }

  /** Pruning a pool again deletes nothing more. */
  lemma PruningTwice(rows: Rows, pool: string, keep: nat)
    ensures Pruned(Pruned(rows, pool, keep), pool, keep) == Pruned(rows, pool, keep)
  {
    var kept := Pruned(rows, pool, keep);
    ProtectedStays(rows, pool, keep);
    forall id | id in kept ensures id !in Surplus(kept, pool, keep, LatestVerified(kept)) {
      NewerShrinks(rows, kept, pool, id);
    }
    assert kept - Surplus(kept, pool, keep, LatestVerified(kept)) == kept;
  }

  /** The newest `keep` of them. */
  function Newest(ids: set<nat>, keep: nat): set<nat> {
    set id | id in ids && |Greater(ids, id)| < keep
  }

  lemma NewestStep(ids: set<nat>, keep: nat)
    requires ids != {} && keep > 0
    ensures |Newest(ids, keep)| == 1 + |Newest(ids - {MaxOf(ids)}, keep - 1)| && |ids - {MaxOf(ids)}| == |ids| - 1
  {
    var m := MaxOf(ids);
    NoneGreater(ids, m);
    forall id | id in ids && id != m ensures |Greater(ids, id)| == |Greater(ids - {m}, id)| + 1 {
      GreaterStep(ids, m, id);
    }
    assert Newest(ids, keep) == {m} + Newest(ids - {m}, keep - 1);
  }

  lemma NewestNone(ids: set<nat>, keep: nat)
    requires ids == {} || keep == 0
    ensures |Newest(ids, keep)| == 0
  {
    assert Newest(ids, keep) == {};
  }

  lemma {:induction false} NewestSize(ids: set<nat>, keep: nat)
    ensures |Newest(ids, keep)| == if keep < |ids| then keep else |ids|
    decreases keep
  {
    if ids != {} && keep > 0 {
      NewestStep(ids, keep);
      NewestSize(ids - {MaxOf(ids)}, keep - 1);
    } else {
      NewestNone(ids, keep);
    }
  }

  /** What pruning leaves: of the pool its newest `keep` rows, as many as there are, and the domain's
      newest verified row if that lies in the pool; of every other pool everything. */
  lemma PruningLeaves(rows: Rows, pool: string, keep: nat)
    ensures var kept := Pruned(rows, pool, keep);
      PoolIds(kept, pool) == Newest(PoolIds(rows, pool), keep) + {LatestVerified(rows)} * PoolIds(rows, pool)
      && (forall id | id in rows && rows[id].pool != pool :: id in kept && kept[id] == rows[id])
      && |Newest(PoolIds(rows, pool), keep)| == if keep < |PoolIds(rows, pool)| then keep else |PoolIds(rows, pool)|
  {
    NewestSize(PoolIds(rows, pool), keep);
    forall id | id in PoolIds(rows, pool) ensures Newer(rows, pool, id) == Greater(PoolIds(rows, pool), id) {
      NewerIsGreater(rows, pool, id);
    }
  }

  // ---- By age ----

  /** What an age limit deletes: automatic rows older than the limit, but never the newest automatic
      one and never the protected row. */
  function Aged(rows: Rows, before: int, protected: nat): set<nat> {
    set id | id in rows && rows[id].pool == OTO && rows[id].created < before
      && id < MaxOf(PoolIds(rows, OTO)) && id != protected
  }

  /** However low the limit, the newest automatic row and the newest verified row survive it. */
  lemma AgeingKeeps(rows: Rows, before: int)
    ensures PoolIds(rows, OTO) != {} ==> MaxOf(PoolIds(rows, OTO)) in rows - Aged(rows, before, LatestVerified(rows))
    ensures VerifiedIds(rows) != {} ==> LatestVerified(rows) in rows - Aged(rows, before, LatestVerified(rows))
    ensures forall id | id in rows && rows[id].pool != OTO :: id in rows - Aged(rows, before, LatestVerified(rows))
  {
    if PoolIds(rows, OTO) != {} {
      assert MaxOf(PoolIds(rows, OTO)) in PoolIds(rows, OTO);
    }
    if VerifiedIds(rows) != {} {
      assert LatestVerified(rows) in VerifiedIds(rows);
    }
  }

  /** Row by row: an age limit deletes the automatic rows that are older than it, and older than a year
      whatever it is, unless there is no newer automatic row or no newer verified one. */
  lemma AgedMeans(rows: Rows, days: int, today: int, id: nat)
    requires id in rows && id > 0 && days >= 1
    ensures id in Aged(rows, today - (if days > MAX_DAYS then MAX_DAYS else days), LatestVerified(rows))
      <==> rows[id].pool == "oto" && today - rows[id].created > (if days < 365 then days else 365)
           && (exists newer :: newer in rows && rows[newer].pool == "oto" && newer > id) && !NewestVerified(rows, id)
  {
    LatestIsNewest(rows, id);
    var oto := PoolIds(rows, OTO);
    if newer :| newer in rows && rows[newer].pool == "oto" && newer > id {
      assert newer in oto;
    }
    if id < MaxOf(oto) {
      assert oto != {};
      assert MaxOf(oto) in oto;
    }
  }

  /** ORDER BY id of the rows an age limit deletes. */
  function AgedItems(rows: Rows, before: int, protected: nat): (items: seq<nat>)
    ensures Ids(items) == Aged(rows, before, protected)
  {
    Descending(Aged(rows, before, protected))
  }

  // ---- The code ----

  function Ids(items: seq<nat>): set<nat> {
    set id | id in items
  }

  lemma IdsGrow(items: seq<nat>, from: nat, i: nat)
    requires from <= i < |items|
    ensures Ids(items[from..i + 1]) == Ids(items[from..i]) + {items[i]}
  {
    assert items[from..i + 1] == items[from..i] + [items[i]];
  }

  lemma IdsAppend(items: seq<nat>, id: nat)
    ensures Ids(items + [id]) == Ids(items) + {id}
  {
  }

  lemma TailIds(rows: Rows, pool: string, keep: nat, protected: nat)
    ensures var all := Descending(PoolIds(rows, pool));
      Surplus(rows, pool, keep, protected) == if keep <= |all| then Ids(all[keep..]) - {protected} else {}
  {
    var all := Descending(PoolIds(rows, pool));
    forall id | id in Surplus(rows, pool, keep, protected)
      ensures keep <= |all| && id in Ids(all[keep..]) && id != protected
    {
      TailIsSurplus(rows, pool, keep, protected, id);
    }
    if keep <= |all| {
      forall id | id in Ids(all[keep..]) && id != protected ensures id in Surplus(rows, pool, keep, protected) {
        TailIsSurplus(rows, pool, keep, protected, id);
      }
    }
  }

  /** all[keep:] without the protected row. */
  method SurplusItems(all: seq<nat>, keep: nat, protected: nat) returns (surplus: seq<nat>)
    ensures Ids(surplus) == if keep <= |all| then Ids(all[keep..]) - {protected} else {}
  {
    surplus := [];
    if |all| > keep {
      var i := keep;
      while i < |all|
        invariant keep <= i <= |all|
        invariant Ids(surplus) == Ids(all[keep..i]) - {protected}
      {
        IdsGrow(all, keep, i);
        if all[i] != protected {
          IdsAppend(surplus, all[i]);
          surplus := surplus + [all[i]];
        }
        i := i + 1;
      }
      assert all[keep..i] == all[keep..];
    }
  }

  /** The rows and files of one domain. */
  class Store {
    var rows: Rows
    /** The ids whose archive is on the disk. */
    var files: set<nat>

    constructor (rows: Rows, files: set<nat>)
      ensures this.rows == rows && this.files == files
    {
      this.rows, this.files := rows, files;
    }

    /** silYedekler: archive and row, one backup after another. */
    method DeleteBackups(items: seq<nat>)
      modifies this
      ensures rows == old(rows) - Ids(items) && files == old(files) - Ids(items)
    {
      var i := 0;
      while i < |items|
        invariant 0 <= i <= |items|
        invariant rows == old(rows) - Ids(items[0..i]) && files == old(files) - Ids(items[0..i])
      {
        files := files - {items[i]};
        rows := rows - {items[i]};
        IdsGrow(items, 0, i);
        i := i + 1;
      }
      assert items[0..i] == items;
    }

    /** pruneTip. */
    method PrunePool(pool: string, keep: nat)
      modifies this
      ensures rows == Pruned(old(rows), pool, keep)
      ensures files == old(files) - Surplus(old(rows), pool, keep, LatestVerified(old(rows)))
    {
      var protected := LatestVerified(rows);
      var surplus := SurplusItems(Descending(PoolIds(rows, pool)), keep, protected);
      TailIds(rows, pool, keep, protected);
      DeleteBackups(surplus);
    }

    /** pruneOld: at least one automatic backup always stays. */
    method PruneOld(retention: int)
      modifies this
      ensures rows == Pruned(old(rows), OTO, if retention < 1 then 1 else retention)
      ensures var keep := if retention < 1 then 1 else retention;
        files == old(files) - Surplus(old(rows), OTO, keep, LatestVerified(old(rows)))
    {
      PrunePool(OTO, if retention < 1 then 1 else retention);
    }

    /** pruneManuel: without a limit nothing is deleted. */
    method PruneManuel(keep: int)
      modifies this
      ensures rows == if keep < 1 then old(rows) else Pruned(old(rows), MANUEL, keep)
      ensures files == if keep < 1 then old(files)
                       else old(files) - Surplus(old(rows), MANUEL, keep, LatestVerified(old(rows)))
    {
      if keep >= 1 {
        PrunePool(MANUEL, keep);
      }
    }

    /** pruneEski on the day `today`. */
    method PruneAged(days: int, today: int)
      modifies this
      ensures days < 1 ==> rows == old(rows) && files == old(files)
      ensures days >= 1 ==>
        var limit := if days > MAX_DAYS then MAX_DAYS else days;
        var gone := Aged(old(rows), today - limit, LatestVerified(old(rows)));
        rows == old(rows) - gone && files == old(files) - gone
      ensures days >= 1 ==> forall id | id in old(rows) && id > 0 ::
        id !in rows <==> old(rows)[id].pool == "oto"
                         && today - old(rows)[id].created > (if days < 365 then days else 365)
                         && (exists newer :: newer in old(rows) && old(rows)[newer].pool == "oto" && newer > id)
                         && !NewestVerified(old(rows), id)
    {
      if days < 1 {
        return;
      }
      var limit := if days > MAX_DAYS then MAX_DAYS else days;
      forall id | id in rows && id > 0 {
        AgedMeans(rows, days, today, id);
      }
      DeleteBackups(AgedItems(rows, today - limit, LatestVerified(rows)));
    }
  }
}
