/** The cache of database sizes: one loader at a time, stale answers while it works, and a pause after
    a failure. A state machine over any number of callers under a clock that does not run backwards. */
module SizeCacheProtocol {
  import opened Wrappers
  import opened Runs

  const FRESH_TTL := 60_000
  const MAX_STALE := 600_000
  const BACKOFF := 20_000

  type Sizes = map<string, int>

  /** What a caller is doing or got. `age` is that of the data at the clock reading of the caller. */
  datatype Phase =
    | Waiting(channel: nat)
    | Loading(channel: nat)
    | Got(sizes: Sizes, age: int)
    | Refused(error: string)
    | Nothing
    | Gone

  /** `loading` is the wait channel of the load under way; `loads` records what loads have returned. */
  datatype Cache = Cache(now: int, data: Option<Sizes>, loadedAt: int, lastErr: Option<string>, lastFailure: int,
                         loading: Option<nat>, channels: nat, closed: set<nat>, callers: map<nat, Phase>,
                         loads: set<Sizes>)

  datatype Action =
    | Tick(to: int)
    | Enter(caller: nat)
    | LoadEnds(caller: nat, outcome: Option<Sizes>, error: string, stamp: int, later: int)
    | GiveUp(caller: nat)

  predicate Usable(s: Cache) {
    s.data.Some? && s.now - s.loadedAt <= MAX_STALE
  }

  predicate BackingOff(s: Cache) {
    s.lastErr.Some? && s.now - s.lastFailure < BACKOFF
  }

  predicate Starts(s: Cache) {
    !(s.data.Some? && s.now - s.loadedAt < FRESH_TTL) && s.loading.None? && !BackingOff(s)
  }

  /** A caller that has just arrived, or whose wait is over. */
  predicate MayEnter(s: Cache, c: nat) {
    c in s.callers ==> s.callers[c].Waiting? && s.callers[c].channel in s.closed
  }

  predicate Enabled(s: Cache, a: Action) {
    match a
    case Tick(to) => s.now <= to
    case Enter(c) => MayEnter(s, c)
    case LoadEnds(c, _, _, stamp, later) => c in s.callers && s.callers[c].Loading? && s.now <= stamp <= later
    case GiveUp(c) => c in s.callers && s.callers[c].Waiting?
  }

  function Left(s: Cache, c: nat, phase: Phase): Cache {
    s.(callers := s.callers[c := phase])
  }

  /** The first critical section. */
  function Entered(s: Cache, c: nat): Cache {
    if Starts(s) then Left(s, c, Loading(s.channels)).(loading := Some(s.channels), channels := s.channels + 1)
    else if s.data.Some? && s.now - s.loadedAt < FRESH_TTL then Left(s, c, Got(s.data.value, s.now - s.loadedAt))
    else if Usable(s) then Left(s, c, Got(s.data.value, s.now - s.loadedAt))
    else if s.loading.Some? then Left(s, c, Waiting(s.loading.value))
    else Left(s, c, Refused(s.lastErr.value))
  }

  /** The second one, with its two readings of the clock. */
  function Stored(s: Cache, outcome: Option<Sizes>, error: string, stamp: int, later: int): Cache {
    if outcome.Some?
    then s.(now := later, data := outcome, loadedAt := stamp, lastErr := None, loads := s.loads + {outcome.value})
    else s.(now := later, lastErr := Some(error), lastFailure := stamp)
  }

  function Delivered(s: Cache, c: nat, channel: nat, error: Option<string>): Cache {
    Left(s, c, if Usable(s) then Got(s.data.value, s.now - s.loadedAt)
               else if error.Some? then Refused(error.value) else Nothing)
      .(loading := None, closed := s.closed + {channel})
  }

  function After(s: Cache, a: Action): Cache
    requires Enabled(s, a)
  {
    match a
    case Tick(to) => s.(now := to)
    case Enter(c) => Entered(s, c)
    case LoadEnds(c, outcome, error, stamp, later) =>
      Delivered(Stored(s, outcome, error, stamp, later), c, s.callers[c].channel,
                if outcome.Some? then None else Some(error))
    case GiveUp(c) => Left(s, c, Gone)
  }

  // ---- What every step keeps ----

  predicate PhaseOk(s: Cache, p: Phase) {
    match p
    case Waiting(w) => w in s.closed || s.loading == Some(w)
    case Loading(w) => s.loading == Some(w)
    case Got(sizes, age) => sizes in s.loads && 0 <= age <= MAX_STALE
    case _ => true
  }

  predicate IsLoading(s: Cache, c: nat) {
    c in s.callers && s.callers[c].Loading?
  }

  ghost predicate OneLoader(s: Cache) {
    (forall c, d | IsLoading(s, c) && IsLoading(s, d) :: c == d)
    && (s.loading.Some? ==> exists c :: IsLoading(s, c))
  }

  predicate Sound(s: Cache) {
    (s.data.Some? ==> s.data.value in s.loads && s.loadedAt <= s.now)
    && (s.lastErr.Some? ==> s.lastFailure <= s.now)
    && (s.loading.Some? ==> s.loading.value < s.channels && s.loading.value !in s.closed)
    && (forall w | w in s.closed :: w < s.channels)
  }

  ghost predicate Inv(s: Cache) {
    Sound(s) && OneLoader(s) && forall c | c in s.callers :: PhaseOk(s, s.callers[c])
  }

  lemma NobodyLoads(s: Cache)
    requires Inv(s) && s.loading.None?
    ensures forall c :: !IsLoading(s, c)
  {
    forall c ensures !IsLoading(s, c) {
      if c in s.callers {
        assert PhaseOk(s, s.callers[c]);
      }
    }
  }

  lemma SameLoader(s: Cache, t: Cache)
    requires OneLoader(s) && t.loading == s.loading
    requires forall c :: IsLoading(s, c) <==> IsLoading(t, c)
    ensures OneLoader(t)
  {
    if s.loading.Some? {
      var c :| IsLoading(s, c);
      assert IsLoading(t, c);
    }
  }

  lemma NewLoader(t: Cache, c: nat)
    requires IsLoading(t, c) && forall d :: d != c ==> !IsLoading(t, d)
    ensures OneLoader(t)
  {
  }

  lemma EnterKeepsPhases(s: Cache, c: nat)
    requires Inv(s) && MayEnter(s, c)
    ensures forall x | x in Entered(s, c).callers :: PhaseOk(Entered(s, c), Entered(s, c).callers[x])
  {
    var t := Entered(s, c);
    forall x | x in t.callers ensures PhaseOk(t, t.callers[x]) {
      if x != c {
        assert PhaseOk(s, s.callers[x]);
      }
    }
  }

  lemma EnterKeepsInv(s: Cache, c: nat)
    requires Inv(s) && MayEnter(s, c)
    ensures Inv(Entered(s, c))
  {
    var t := Entered(s, c);
    EnterKeepsPhases(s, c);
    if Starts(s) {
      NobodyLoads(s);
      forall d | d != c ensures !IsLoading(t, d) {
        assert !IsLoading(s, d);
      }
      NewLoader(t, c);
    } else {
      SameLoader(s, t);
    }
  }

  lemma LoadEndsKeepsInv(s: Cache, a: Action)
    requires Inv(s) && Enabled(s, a) && a.LoadEnds?
    ensures Inv(After(s, a))
  {
    var t := After(s, a);
    assert IsLoading(s, a.caller) && PhaseOk(s, s.callers[a.caller]);
    forall x | x in t.callers ensures PhaseOk(t, t.callers[x]) && !IsLoading(t, x) {
      if x != a.caller {
        assert PhaseOk(s, s.callers[x]) && !IsLoading(s, x);
      }
    }
    forall x ensures !IsLoading(t, x) {
    }
  }

  lemma StepKeepsInv(s: Cache, a: Action)
    requires Inv(s) && Enabled(s, a)
    ensures Inv(After(s, a))
  {
    var t := After(s, a);
    match a
    case Enter(c) => EnterKeepsInv(s, c);
    case LoadEnds(_, _, _, _, _) => LoadEndsKeepsInv(s, a);
    case _ =>
      forall x | x in t.callers ensures PhaseOk(t, t.callers[x]) {
        assert PhaseOk(s, s.callers[x]);
      }
      SameLoader(s, t);
  }

  // ---- Runs ----

  ghost predicate Next(s: Cache, t: Cache) {
    exists a: Action :: Enabled(s, a) && t == After(s, a)
  }

  ghost predicate Link(ss: seq<Cache>, i: nat)
    requires i + 1 < |ss|
  {
    Next(ss[i], ss[i + 1])
  }

  ghost predicate Run(ss: seq<Cache>) {
    ss != [] && forall i | 0 <= i < |ss| - 1 :: Link(ss, i)
  }

  /** newDBBoyutCache. */
  predicate Fresh(s: Cache) {
    s.data.None? && s.lastErr.None? && s.loading.None? && s.closed == {} && s.callers == map[] && s.loads == {}
  }

  lemma LinkKeepsInv(ss: seq<Cache>, i: nat)
    requires Run(ss) && i + 1 < |ss| && Inv(ss[i])
    ensures Inv(ss[i + 1])
  {
    assert Link(ss, i);
    var a :| Enabled(ss[i], a) && ss[i + 1] == After(ss[i], a);
    StepKeepsInv(ss[i], a);
  }

  lemma RunKeepsInv(ss: seq<Cache>, i: nat)
    requires Run(ss) && Fresh(ss[0]) && i < |ss|
    ensures Inv(ss[i])
  {
    forall n | 0 <= n < i && Inv(ss[n]) ensures Inv(ss[n + 1]) {
      LinkKeepsInv(ss, n);
    }
    Onwards(ss, s => Inv(s), 0, i);
  }

  /** There are never two loads at once, and when none is under way nobody waits on a channel that
      will not be closed. */
  lemma OneLoadAndNobodyForgotten(ss: seq<Cache>, i: nat, c: nat, d: nat)
    requires Run(ss) && Fresh(ss[0]) && i < |ss| && c in ss[i].callers
    ensures IsLoading(ss[i], c) && IsLoading(ss[i], d) ==> c == d
    ensures ss[i].callers[c].Waiting? && ss[i].callers[c].channel !in ss[i].closed ==>
      ss[i].loading == Some(ss[i].callers[c].channel) && exists l :: IsLoading(ss[i], l)
  {
    RunKeepsInv(ss, i);
    assert PhaseOk(ss[i], ss[i].callers[c]);
  }

  /** Whatever is handed out was returned by a load, and is not older than ten minutes. */
  lemma AnswersAreRecent(ss: seq<Cache>, i: nat, c: nat)
    requires Run(ss) && Fresh(ss[0]) && i < |ss| && c in ss[i].callers && ss[i].callers[c].Got?
    ensures ss[i].callers[c].sizes in ss[i].loads && 0 <= ss[i].callers[c].age <= 600_000
  {
    RunKeepsInv(ss, i);
    assert PhaseOk(ss[i], ss[i].callers[c]);
  }

  /** An error is handed out only when there is no data that is at most ten minutes old. */
  lemma ErrorsMeanNoData(s: Cache, a: Action, c: nat)
    requires Enabled(s, a) && c in After(s, a).callers && After(s, a).callers[c].Refused?
    requires c in s.callers ==> !s.callers[c].Refused?
    ensures !Usable(After(s, a)) && After(s, a).lastErr == Some(After(s, a).callers[c].error)
  {
  }

  /** Exactly when a caller gets neither data nor an error: its own load succeeded, but the clock moved
      by more than ten minutes between the two readings that follow it. */
  lemma NothingAfterAJump(s: Cache, a: Action, c: nat)
    requires Enabled(s, a) && (c in s.callers ==> !s.callers[c].Nothing?)
    ensures c in After(s, a).callers && After(s, a).callers[c].Nothing?
      <==> a.LoadEnds? && a.caller == c && a.outcome.Some? && a.later - a.stamp > MAX_STALE
  {
  }

  /** The record of loads grows only with the result of a load that was under way. */
  lemma LoadsAreReal(s: Cache, a: Action, sizes: Sizes)
    requires Enabled(s, a) && sizes in After(s, a).loads && sizes !in s.loads
    ensures a.LoadEnds? && a.outcome == Some(sizes) && IsLoading(s, a.caller)
  {
  }

  // ---- When data counts as fresh ----

  /** A caller that enters starts a load exactly if the data is a minute old or there is none, no load is
      under way and none failed in the last 20 seconds. It waits exactly if one is under way and the data
      is more than ten minutes old, and gets the last error exactly if there was a failure instead. */
  lemma EnteringMeans(s: Cache, c: nat)
    requires Enabled(s, Enter(c))
    ensures var p := After(s, Enter(c)).callers[c];
      var failed := s.lastErr.Some? && s.now - s.lastFailure < 20_000;
      (p.Loading? <==> (s.data.Some? ==> s.now - s.loadedAt >= 60_000) && s.loading.None? && !failed)
      && (p.Waiting? <==> (s.data.Some? ==> s.now - s.loadedAt > 600_000) && s.loading.Some?)
      && (p.Refused? <==> (s.data.Some? ==> s.now - s.loadedAt > 600_000) && s.loading.None? && failed)
      && (p.Got? || p.Loading? || p.Waiting? || p.Refused?)
  {
  }

  /** Between `j` and the next moment a load that returned `sizes` ended when the clock read `stamp`. */
  ghost predicate LoadedAt(ss: seq<Cache>, j: nat, sizes: Sizes, stamp: int)
    requires j + 1 < |ss|
  {
    exists c, error, later | Enabled(ss[j], LoadEnds(c, Some(sizes), error, stamp, later)) ::
      ss[j + 1] == After(ss[j], LoadEnds(c, Some(sizes), error, stamp, later))
  }

  lemma DataStep(s: Cache, a: Action)
    requires Enabled(s, a) && After(s, a).data.Some?
    ensures (After(s, a).data == s.data && After(s, a).loadedAt == s.loadedAt)
            || (a.LoadEnds? && a.outcome == After(s, a).data && a.stamp == After(s, a).loadedAt)
  {
  }

  lemma {:induction false} DataWasLoaded(ss: seq<Cache>, i: nat) returns (j: nat)
    requires Run(ss) && Fresh(ss[0]) && i < |ss| && ss[i].data.Some?
    ensures j < i && LoadedAt(ss, j, ss[i].data.value, ss[i].loadedAt)
  {
    assert Link(ss, i - 1);
    var a :| Enabled(ss[i - 1], a) && ss[i] == After(ss[i - 1], a);
    DataStep(ss[i - 1], a);
    if ss[i].data == ss[i - 1].data && ss[i].loadedAt == ss[i - 1].loadedAt {
      j := DataWasLoaded(ss, i - 1);
    } else {
      j := i - 1;
    }
  }

  /** Data handed out without a load of one's own was returned by a load that ended less than a minute
      before, or at most ten minutes before while another load is under way or one has just failed. */
  lemma AnswersAreTimely(ss: seq<Cache>, i: nat, c: nat) returns (j: nat)
    requires Run(ss) && Fresh(ss[0]) && i + 1 < |ss| && c in ss[i + 1].callers && ss[i + 1].callers[c].Got?
    requires c in ss[i].callers ==> !ss[i].callers[c].Got? && !ss[i].callers[c].Loading?
    ensures var p, s := ss[i + 1].callers[c], ss[i];
      j < i && LoadedAt(ss, j, p.sizes, s.now - p.age)
      && (p.age < 60_000
          || (p.age <= 600_000 && (s.loading.Some? || (s.lastErr.Some? && s.now - s.lastFailure < 20_000))))
  {
    assert Link(ss, i);
    var a :| Enabled(ss[i], a) && ss[i + 1] == After(ss[i], a);
    assert a == Enter(c);
    j := DataWasLoaded(ss, i);
  }

  // ---- The pause after a failure ----

  /** Since the failure at `stamp` no load has been started. */
  predicate Pausing(s: Cache, stamp: int) {
    s.loading.None? && s.lastErr.Some? && s.lastFailure == stamp
  }

  lemma LinkKeepsPausing(ss: seq<Cache>, i: nat, stamp: int)
    requires Run(ss) && i + 1 < |ss| && Inv(ss[i]) && Pausing(ss[i], stamp) && ss[i + 1].loading.None?
    ensures Pausing(ss[i + 1], stamp)
  {
    NobodyLoads(ss[i]);
    assert Link(ss, i);
    var a :| Enabled(ss[i], a) && ss[i + 1] == After(ss[i], a);
    assert a.LoadEnds? ==> IsLoading(ss[i], a.caller);
  }

  lemma StartIsLate(ss: seq<Cache>, i: nat, stamp: int)
    requires Run(ss) && i + 1 < |ss| && Pausing(ss[i], stamp) && ss[i + 1].loading.Some?
    ensures ss[i].now - stamp >= BACKOFF
  {
    assert Link(ss, i);
    var a :| Enabled(ss[i], a) && ss[i + 1] == After(ss[i], a);
    assert a.Enter? && Starts(ss[i]);
  }

  /** After a load that failed, the next one starts at least 20 seconds later. */
  lemma FailuresAreFollowedByAPause(ss: seq<Cache>, i: nat, k: nat)
    requires Run(ss) && Fresh(ss[0]) && i <= k && k + 1 < |ss|
    requires ss[i].loading.None? && ss[i].lastErr.Some?
    requires (forall n | i <= n <= k :: ss[n].loading.None?) && ss[k + 1].loading.Some?
    ensures ss[k].now - ss[i].lastFailure >= 20_000
  {
    var stamp := ss[i].lastFailure;
    var part := ss[..k + 1];
    forall n | i <= n < k && Pausing(part[n], stamp) ensures Pausing(part[n + 1], stamp) {
      RunKeepsInv(ss, n);
      LinkKeepsPausing(ss, n, stamp);
    }
    Onwards(part, s => Pausing(s, stamp), i, k);
    StartIsLate(ss, k, stamp);
  }
}
