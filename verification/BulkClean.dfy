/** Bulk cleaning of one domain: the candidates are the rows of the database and the files on the
    disk together, and a preview counts what the real run deletes. */
module BulkClean {
  import opened Text
  import BackupPool

  const SUFFIX := ".tar.gz"

  datatype Mode = Oto | Manuel | Gun(before: int)

  /** A row by its file name; `created` is 0 when it is not known. */
  datatype Record = Record(id: nat, pool: string, created: int, verified: bool, size: int)

  datatype FileInfo = FileInfo(size: int, modified: int)

  type Records = map<string, Record>
  type Files = map<string, FileInfo>

  /** otomatikDosya: how the automatic archives of a tenant are named. */
  predicate AutomaticName(sk: string, name: string) {
    HasPrefix(name, sk + "-auto-")
  }

  /** The newest verified row, 0 for none. */
  predicate IsProtectedId(known: Records, m: nat) {
    (forall name | name in known && known[name].verified :: known[name].id <= m)
    && (m == 0 || exists name :: name in known && known[name].verified && known[name].id == m)
  }

  predicate Protected(known: Records, name: string) {
    name in known && IsProtectedId(known, known[name].id)
  }

  /** Only archives count among what lies in the directory. */
  function Archives(directory: Files): Files {
    map name | name in directory && HasSuffix(name, SUFFIX) :: directory[name]
  }

  function Names(known: Records, directory: Files): set<string> {
    known.Keys + Archives(directory).Keys
  }

  /** The age of a candidate is that of its row, and only without one that of the file. */
  predicate Suits(sk: string, mode: Mode, known: Records, directory: Files, name: string) {
    match mode
    case Oto => if name in known then known[name].pool == BackupPool.OTO else AutomaticName(sk, name)
    case Manuel => if name in known then known[name].pool != BackupPool.OTO else !AutomaticName(sk, name)
    case Gun(before) =>
      if name in known && known[name].created > 0 then known[name].created < before
      else name in Archives(directory) && directory[name].modified < before
  }

  predicate Eligible(sk: string, mode: Mode, known: Records, directory: Files, name: string) {
    !Protected(known, name) && Suits(sk, mode, known, directory, name)
  }

  function Chosen(sk: string, mode: Mode, known: Records, directory: Files): set<string> {
    set name | name in Names(known, directory) && Eligible(sk, mode, known, directory, name)
  }

  /** There is one protected id. */
  lemma ProtectedIdIsUnique(known: Records, id: nat, name: string)
    requires IsProtectedId(known, id) && name in known && known[name].id > 0
    ensures known[name].id == id <==> Protected(known, name)
  {
  }

  lemma {:induction false} ProtectedIdExists(known: Records) returns (m: nat)
    ensures IsProtectedId(known, m)
    decreases |known|
  {
    if known == map[] {
      return 0;
    }
    var name :| name in known;
    var rest := known - {name};
    m := ProtectedIdExists(rest);
    assert forall n | n in known && n != name :: n in rest && rest[n] == known[n];
    if known[name].verified && known[name].id > m {
      m := known[name].id;
    }
  }

  /** No verified row is newer than the row with this name, and one has its id. */
  ghost predicate Newest(known: Records, name: string) {
    name in known && (exists n :: n in known && known[n].verified && known[n].id == known[name].id)
    && forall n | n in known && known[n].verified :: known[n].id <= known[name].id
  }

  lemma ProtectedIsNewest(known: Records, name: string)
    requires forall n | n in known :: known[n].id > 0
    ensures Protected(known, name) <==> Newest(known, name)
  {
  }

  /** Nothing has come, a row and its file have gone together, and what is left is as it was. */
  ghost predicate GoneTogether(known: Records, directory: Files, known': Records, directory': Files) {
    (forall name | name in known' :: name in known && known'[name] == known[name])
    && (forall name | name in directory' :: name in directory && directory'[name] == directory[name])
    && forall name | name in known && name in directory :: name in known' <==> name in directory'
  }

  /** What lies on the disk counts by its real size. */
  function SizeOf(known: Records, directory: Files, name: string): int {
    if name in Archives(directory) then directory[name].size else if name in known then known[name].size else 0
  }

  ghost function Total(known: Records, directory: Files, names: set<string>): int {
    if names == {} then 0
    else
      var name :| name in names;
      SizeOf(known, directory, name) + Total(known, directory, names - {name})
  }

  /** The order in which the sizes are added does not matter. */
  lemma {:induction false} TotalTakes(known: Records, directory: Files, names: set<string>, name: string)
    requires name in names
    ensures Total(known, directory, names) == SizeOf(known, directory, name) + Total(known, directory, names - {name})
    ensures SizeOf(known, directory, name)
      == if name in directory && HasSuffix(name, ".tar.gz") then directory[name].size
         else if name in known then known[name].size else 0
    decreases |names|
  {
    var first :| first in names
      && Total(known, directory, names) == SizeOf(known, directory, first) + Total(known, directory, names - {first});
    if first != name {
      TotalTakes(known, directory, names - {first}, name);
      TotalTakes(known, directory, names - {name}, first);
      assert names - {first} - {name} == names - {name} - {first};
    }
  }

  // ---- The code ----

  class Backups {
    const sk: string
    var known: Records
    var directory: Files

    constructor (sk: string, known: Records, directory: Files)
      ensures this.sk == sk && this.known == known && this.directory == directory
    {
      this.sk, this.known, this.directory := sk, known, directory;
    }

    method FindProtected() returns (id: nat)
      ensures IsProtectedId(known, id)
    {
      id := 0;
      var todo := known.Keys;
      while todo != {}
        invariant todo <= known.Keys
        invariant forall name | name in known.Keys - todo && known[name].verified :: known[name].id <= id
        invariant id == 0 || exists name :: name in known && known[name].verified && known[name].id == id
        decreases |todo|
      {
        var name :| name in todo;
        todo := todo - {name};
        if known[name].verified && known[name].id > id {
          id := known[name].id;
        }
      }
    }

    /** Whether one name is a candidate. */
    method Consider(mode: Mode, name: string, protected: nat, ghost wanted: set<string>) returns (yes: bool)
      requires IsProtectedId(known, protected) && (name in known ==> known[name].id > 0)
      requires name in wanted <==> Eligible(sk, mode, known, directory, name)
      ensures yes <==> name in wanted
    {
      if name in known {
        ProtectedIdIsUnique(known, protected, name);
        if known[name].id == protected {
          return false;
        }
      }
      return Suits(sk, mode, known, directory, name);
    }

    /** temizlikAdaylari. */
    method Candidates(mode: Mode) returns (chosen: set<string>)
      requires forall name | name in known :: known[name].id > 0
      ensures chosen == Chosen(sk, mode, known, directory)
      ensures mode.Oto? ==> forall name :: name in chosen <==>
        if name in known then known[name].pool == "oto" && !Newest(known, name)
        else name in directory && HasSuffix(name, ".tar.gz") && sk + "-auto-" <= name
      ensures mode.Manuel? ==> forall name :: name in chosen <==>
        if name in known then known[name].pool != "oto" && !Newest(known, name)
        else name in directory && HasSuffix(name, ".tar.gz") && !(sk + "-auto-" <= name)
      ensures mode.Gun? ==> forall name :: name in chosen <==>
        (name in known ==> !Newest(known, name))
        && if name in known && known[name].created > 0 then known[name].created < mode.before
           else name in directory && HasSuffix(name, ".tar.gz") && directory[name].modified < mode.before
    {
      forall name ensures Protected(known, name) <==> Newest(known, name) {
        ProtectedIsNewest(known, name);
      }
      var protected := FindProtected();
      var all := Names(known, directory);
      ghost var wanted := Chosen(sk, mode, known, directory);
      chosen := CandidatesAmong(mode, protected, all, wanted);
    }

    method CandidatesAmong(mode: Mode, protected: nat, all: set<string>, ghost wanted: set<string>)
      returns (chosen: set<string>)
      requires forall name | name in known :: known[name].id > 0
      requires IsProtectedId(known, protected)
      requires forall name | name in all :: name in wanted <==> Eligible(sk, mode, known, directory, name)
      ensures chosen == wanted * all
    {
      var todo := all;
      chosen := {};
      while todo != {}
        invariant todo <= all && chosen == wanted * (all - todo)
        decreases |todo|
      {
        var name :| name in todo;
        todo := todo - {name};
        var yes := Consider(mode, name, protected, wanted);
        if yes {
          chosen := chosen + {name};
        }
      }
    }

    /** The loop of Temizle over the candidates of one domain, and the deletion of their rows. */
    method Sweep(chosen: set<string>, preview: bool) returns (count: nat, bytes: int)
      modifies this
      ensures count == |chosen| && bytes == Total(old(known), old(directory), chosen)
      ensures known == if preview then old(known) else old(known) - chosen
      ensures directory == if preview then old(directory) else old(directory) - chosen
    {
      var todo, rows, files := chosen, known, directory;
      count, bytes := 0, 0;
      while todo != {}
        invariant todo <= chosen && count + |todo| == |chosen|
        invariant bytes + Total(rows, files, todo) == Total(rows, files, chosen)
        invariant known == rows && directory == if preview then files else files - (chosen - todo)
        decreases |todo|
      {
        var name :| name in todo;
        TotalTakes(rows, files, todo, name);
        todo := todo - {name};
        count := count + 1;
        bytes := bytes + SizeOf(rows, files, name);
        if !preview {
          directory := directory - {name};
        }
      }
      if !preview {
        known := known - chosen;
      }
    }

    /** Temizle, for one domain: a preview reports what the real run deletes, and changes nothing. */
    method Clean(mode: Mode, preview: bool) returns (count: nat, bytes: int)
      requires forall name | name in known :: known[name].id > 0
      modifies this
      ensures count == |old(Chosen(sk, mode, known, directory))|
      ensures bytes == old(Total(known, directory, Chosen(sk, mode, known, directory)))
      ensures known == if preview then old(known) else old(known) - old(Chosen(sk, mode, known, directory))
      ensures directory == if preview then old(directory) else old(directory) - old(Chosen(sk, mode, known, directory))
      ensures !preview ==> GoneTogether(old(known), old(directory), known, directory)
      ensures !preview && mode.Oto? ==> forall name ::
        (name in old(known) ==> (name !in known <==> old(known)[name].pool == "oto" && !Newest(old(known), name)))
        && (name in old(directory) && name !in old(known)
            ==> (name !in directory <==> HasSuffix(name, ".tar.gz") && sk + "-auto-" <= name))
      ensures !preview && mode.Manuel? ==> forall name ::
        (name in old(known) ==> (name !in known <==> old(known)[name].pool != "oto" && !Newest(old(known), name)))
        && (name in old(directory) && name !in old(known)
            ==> (name !in directory <==> HasSuffix(name, ".tar.gz") && !(sk + "-auto-" <= name)))
      ensures !preview && mode.Gun? ==> forall name ::
        (name in old(known) && old(known)[name].created > 0
         ==> (name !in known <==> old(known)[name].created < mode.before && !Newest(old(known), name)))
        && (name in old(known) && old(known)[name].created <= 0
            ==> (name !in known <==> name in old(directory) && HasSuffix(name, ".tar.gz")
                                     && old(directory)[name].modified < mode.before && !Newest(old(known), name)))
        && (name in old(directory) && name !in old(known)
            ==> (name !in directory <==> HasSuffix(name, ".tar.gz") && old(directory)[name].modified < mode.before))
    {
      var chosen := Candidates(mode);
      count, bytes := Sweep(chosen, preview);
    }
  }

  // ---- What the modes amount to ----

  /** The two bulk modes split everything but the protected copy between them. */
  lemma ModesPartition(sk: string, known: Records, directory: Files)
    ensures Chosen(sk, Oto, known, directory) !! Chosen(sk, Manuel, known, directory)
    ensures Chosen(sk, Oto, known, directory) + Chosen(sk, Manuel, known, directory)
      == set name | name in Names(known, directory) && !Protected(known, name)
  {
  }

  lemma NoOtherVerified(known: Records, gone: set<string>, m: nat)
    requires forall n | n in gone :: !Protected(known, n)
    requires forall n | n in known :: known[n].id > 0
    requires IsProtectedId(known - gone, m)
    ensures IsProtectedId(known, m)
  {
    var rest := known - gone;
    var top := ProtectedIdExists(known);
    if top != 0 {
      var best :| best in known && known[best].verified && known[best].id == top;
      assert Protected(known, best) && best in rest;
      assert top <= m;
    }
    if m != 0 {
      var n :| n in rest && rest[n].verified && rest[n].id == m;
      assert n in known;
    }
  }

  /** Cleaning never takes the protected copy, so it stays the protected one. */
  lemma ProtectedStays(known: Records, gone: set<string>, name: string)
    requires forall n | n in gone :: !Protected(known, n)
    requires forall n | n in known :: known[n].id > 0
    ensures Protected(known - gone, name) <==> Protected(known, name)
  {
    var rest := known - gone;
    if Protected(rest, name) {
      NoOtherVerified(known, gone, known[name].id);
    }
    if Protected(known, name) {
      assert name in rest;
      var best :| best in known && known[best].verified && known[best].id == known[name].id;
      assert Protected(known, best) && best in rest;
    }
  }

  /** What is left when both modes have run, in this order, is the protected copy and what is no
      archive at all. */
  lemma BothModesLeaveTheProtected(sk: string, known: Records, directory: Files, name: string)
    requires forall n | n in known :: known[n].id > 0
    ensures var first := Chosen(sk, Oto, known, directory);
      var second := Chosen(sk, Manuel, known - first, directory - first);
      name in Names(known - first - second, directory - first - second) <==> Protected(known, name)
  {
    var first := Chosen(sk, Oto, known, directory);
    var rows, files := known - first, directory - first;
    ProtectedStays(known, first, name);
    if name in Names(rows, files) && !Protected(known, name) {
      assert !Suits(sk, Oto, known, directory, name);
      assert Eligible(sk, Manuel, rows, files, name);
    }
  }
}
