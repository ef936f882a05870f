/** The disk meter: scans of directories shared between callers, bounded in every direction. A state
    machine over any number of callers and scans under a clock that does not run backwards. */
module MeterProtocol {
  import opened Wrappers
  import opened Runs

  const MAX_PENDING := 32
  const MAX_ACTIVE := 2
  const MAX_CACHE := 512
  const TTL := 60_000
  const FAILURE_TTL := 5_000

  datatype Key = Key(path: string, apparent: bool)

  datatype Error = Busy | CallerGone | TimedOut | ScanFailed(text: string)

  datatype Result = Result(bytes: nat, err: Option<Error>, expires: int)

  /** A goroutine that measures one key. `was` is what was cached when it was started. */
  datatype Flight = Flight(key: Key, was: nat, stage: Stage)

  datatype Stage = Queued | Scanning | Scanned(bytes: nat, err: Option<Error>) | Landed(result: Result)

  datatype Caller =
    | Waiting(key: Key, flight: nat, was: nat)
    | Got(key: Key, bytes: nat, err: Option<Error>, via: Option<nat>)

  /** `scans` records every successful scan that has ended. */
  datatype Meter = Meter(now: int, cache: map<Key, Result>, pending: map<Key, nat>, flights: map<nat, Flight>,
                         callers: map<nat, Caller>, active: nat, scans: set<(Key, nat)>)

  datatype Action =
    | Tick(to: int)
    | AskGone(caller: nat, key: Key)
    | Ask(caller: nat, key: Key, id: nat)
    | TakeSlot(flight: nat)
    | TimeOut(flight: nat)
    | ScanEnds(flight: nat, outcome: Option<nat>, text: string)
    | Publish(flight: nat, stamp: int, victim: Key)
    | Wake(caller: nat)
    | GiveUp(caller: nat)

  /** The zero value when nothing is cached. */
  function Cached(s: Meter, k: Key): nat {
    if k in s.cache then s.cache[k].bytes else 0
  }

  predicate IsFresh(s: Meter, k: Key) {
    k in s.cache && s.now < s.cache[k].expires
  }

  predicate InStage(s: Meter, f: nat, stage: Stage) {
    f in s.flights && s.flights[f].stage == stage
  }

  predicate HasScanned(s: Meter, f: nat) {
    f in s.flights && s.flights[f].stage.Scanned?
  }

  predicate LeastExpiry(cache: map<Key, Result>, victim: Key) {
    victim in cache && forall k | k in cache :: cache[victim].expires <= cache[k].expires
  }

  predicate IsWaiting(s: Meter, c: nat) {
    c in s.callers && s.callers[c].Waiting?
  }

  predicate Enabled(s: Meter, a: Action) {
    match a
    case Tick(to) => s.now <= to
    case AskGone(c, _) => c !in s.callers
    case Ask(c, _, f) => c !in s.callers && f !in s.flights
    case TakeSlot(f) => InStage(s, f, Queued) && s.active < MAX_ACTIVE
    case TimeOut(f) => InStage(s, f, Queued)
    case ScanEnds(f, _, _) => InStage(s, f, Scanning) && s.active > 0
    case Publish(f, stamp, victim) =>
      HasScanned(s, f) && stamp <= s.now && (|s.cache| >= MAX_CACHE ==> LeastExpiry(s.cache, victim))
    case Wake(c) =>
      IsWaiting(s, c) && s.callers[c].flight in s.flights && s.flights[s.callers[c].flight].stage.Landed?
    case GiveUp(c) => IsWaiting(s, c)
  }

  function Answered(s: Meter, c: nat, k: Key, bytes: nat, err: Option<Error>): Meter {
    s.(callers := s.callers[c := Got(k, bytes, err, None)])
  }

  function Launched(s: Meter, c: nat, k: Key, f: nat): Meter {
    s.(flights := s.flights[f := Flight(k, Cached(s, k), Queued)], pending := s.pending[k := f],
       callers := s.callers[c := Waiting(k, f, Cached(s, k))])
  }

  predicate Launches(s: Meter, k: Key) {
    !IsFresh(s, k) && k !in s.pending && |s.pending| < MAX_PENDING
  }

  /** measure up to the point where it returns or waits. */
  function Asked(s: Meter, c: nat, k: Key, f: nat): Meter {
    if IsFresh(s, k) then Answered(s, c, k, s.cache[k].bytes, s.cache[k].err)
    else if k in s.pending then s.(callers := s.callers[c := Waiting(k, s.pending[k], Cached(s, k))])
    else if |s.pending| >= MAX_PENDING then Answered(s, c, k, Cached(s, k), Some(Busy))
    else Launched(s, c, k, f)
  }

  function Staged(s: Meter, f: nat, stage: Stage): Meter
    requires f in s.flights
  {
    s.(flights := s.flights[f := s.flights[f].(stage := stage)])
  }

  function Final(s: Meter, f: nat, stamp: int): Result
    requires HasScanned(s, f)
  {
    var st := s.flights[f].stage;
    Result(st.bytes, st.err, stamp + if st.err.None? then TTL else FAILURE_TTL)
  }

  function Room(cache: map<Key, Result>, victim: Key): map<Key, Result> {
    if |cache| >= MAX_CACHE then cache - {victim} else cache
  }

  function Published(s: Meter, f: nat, r: Result, victim: Key): Meter
    requires f in s.flights
  {
    var k := s.flights[f].key;
    Staged(s, f, Landed(r)).(cache := Room(s.cache, victim)[k := r], pending := s.pending - {k})
  }

  function After(s: Meter, a: Action): Meter
    requires Enabled(s, a)
  {
    match a
    case Tick(to) => s.(now := to)
    case AskGone(c, k) => Answered(s, c, k, 0, Some(CallerGone))
    case Ask(c, k, f) => Asked(s, c, k, f)
    case TakeSlot(f) => Staged(s, f, Scanning).(active := s.active + 1)
    case TimeOut(f) => Staged(s, f, Scanned(s.flights[f].was, Some(TimedOut)))
    case ScanEnds(f, outcome, text) =>
      var k := s.flights[f].key;
      if outcome.Some?
      then Staged(s, f, Scanned(outcome.value, None)).(active := s.active - 1,
                                                       scans := s.scans + {(k, outcome.value)})
      else Staged(s, f, Scanned(s.flights[f].was, Some(ScanFailed(text)))).(active := s.active - 1)
    case Publish(f, stamp, victim) => Published(s, f, Final(s, f, stamp), victim)
    case Wake(c) =>
      var w := s.callers[c];
      var r := s.flights[w.flight].stage.result;
      s.(callers := s.callers[c := Got(w.key, r.bytes, r.err, Some(w.flight))])
    case GiveUp(c) => Answered(s, c, s.callers[c].key, s.callers[c].was, Some(CallerGone))
  }

  // ---- What every step keeps ----

  predicate Live(f: Flight) {
    !f.stage.Landed?
  }

  function Scanners(flights: map<nat, Flight>): set<nat> {
    set f | f in flights && flights[f].stage.Scanning?
  }

  predicate Bounded(s: Meter) {
    |s.pending| <= MAX_PENDING && |s.cache| <= MAX_CACHE && s.active == |Scanners(s.flights)| <= MAX_ACTIVE
  }

  /** Each key has at most one flight under way, and `pending` says which. */
  predicate Tracked(s: Meter) {
    (forall k | k in s.pending ::
      s.pending[k] in s.flights && s.flights[s.pending[k]].key == k && Live(s.flights[s.pending[k]]))
    && (forall f | f in s.flights && Live(s.flights[f]) ::
      s.flights[f].key in s.pending && s.pending[s.flights[f].key] == f)
  }

  /** A size that comes without an error was scanned; one that comes with an error was scanned before
      or is zero. */
  predicate Honest(scans: set<(Key, nat)>, k: Key, bytes: nat, err: Option<Error>) {
    (k, bytes) in scans || (err.Some? && bytes == 0)
  }

  predicate FlightOk(f: Flight, scans: set<(Key, nat)>) {
    Honest(scans, f.key, f.was, Some(Busy))
    && match f.stage
       case Scanned(bytes, err) => Honest(scans, f.key, bytes, err) && (err.Some? ==> bytes == f.was)
       case Landed(r) => Honest(scans, f.key, r.bytes, r.err) && (r.err.Some? ==> r.bytes == f.was)
       case _ => true
  }

  predicate CallerOk(s: Meter, c: Caller) {
    match c
    case Waiting(k, f, was) => f in s.flights && s.flights[f].key == k && Honest(s.scans, k, was, Some(Busy))
    case Got(k, bytes, err, flight) =>
      Honest(s.scans, k, bytes, err)
      && (flight.Some? ==>
        flight.value in s.flights && s.flights[flight.value].key == k && s.flights[flight.value].stage.Landed?
        && bytes == s.flights[flight.value].stage.result.bytes && err == s.flights[flight.value].stage.result.err)
  }

  predicate Truthful(s: Meter) {
    (forall k | k in s.cache :: Honest(s.scans, k, s.cache[k].bytes, s.cache[k].err))
    && (forall f | f in s.flights :: FlightOk(s.flights[f], s.scans))
    && (forall c | c in s.callers :: CallerOk(s, s.callers[c]))
  }

  predicate Inv(s: Meter) {
    Bounded(s) && Tracked(s) && Truthful(s)
  }

  // ---- Proofs ----

  lemma ScannersMoved(flights: map<nat, Flight>, f: nat, g: Flight)
    ensures Scanners(flights[f := g]) == if g.stage.Scanning? then Scanners(flights) + {f} else Scanners(flights) - {f}
    ensures f in Scanners(flights) <==> f in flights && flights[f].stage.Scanning?
  {
  }

  /** Nothing but callers and the clock differs. */
  lemma CallersOnly(s: Meter, t: Meter)
    requires Inv(s) && t == s.(now := t.now, callers := t.callers)
    requires forall c | c in t.callers :: CallerOk(t, t.callers[c])
    ensures Inv(t)
  {
  }

  lemma OneCaller(s: Meter, c: nat, w: Caller)
    requires Inv(s) && CallerOk(s, w)
    ensures Inv(s.(callers := s.callers[c := w]))
  {
    var t := s.(callers := s.callers[c := w]);
    forall x | x in t.callers ensures CallerOk(t, t.callers[x]) {
      if x != c {
        assert CallerOk(s, s.callers[x]);
      }
    }
    CallersOnly(s, t);
  }

  lemma CallerSteps(s: Meter, a: Action)
    requires Inv(s) && Enabled(s, a) && (a.AskGone? || a.Wake? || a.GiveUp?)
    ensures Inv(After(s, a))
  {
    if !a.AskGone? {
      assert CallerOk(s, s.callers[a.caller]);
    }
    if a.Wake? {
      assert FlightOk(s.flights[s.callers[a.caller].flight], s.scans);
    }
    OneCaller(s, a.caller, After(s, a).callers[a.caller]);
  }

  lemma AskWithoutLaunch(s: Meter, c: nat, k: Key, f: nat)
    requires Inv(s) && !Launches(s, k)
    ensures Inv(Asked(s, c, k, f))
  {
    OneCaller(s, c, Asked(s, c, k, f).callers[c]);
  }

  lemma ScannersJoined(flights: map<nat, Flight>, f: nat, g: Flight)
    requires f !in flights && !g.stage.Scanning?
    ensures Scanners(flights[f := g]) == Scanners(flights)
  {
  }

  lemma LaunchKeepsBounded(s: Meter, c: nat, k: Key, f: nat)
    requires Bounded(s) && Launches(s, k) && f !in s.flights
    ensures Bounded(Launched(s, c, k, f))
  {
    var t := Launched(s, c, k, f);
    assert t.pending.Keys == s.pending.Keys + {k};
    ScannersJoined(s.flights, f, Flight(k, Cached(s, k), Queued));
  }

  lemma LaunchKeepsTracked(s: Meter, c: nat, k: Key, f: nat)
    requires Tracked(s) && Launches(s, k) && f !in s.flights
    ensures Tracked(Launched(s, c, k, f))
  {
  }

  lemma CachedIsHonest(s: Meter, k: Key)
    requires Truthful(s)
    ensures Honest(s.scans, k, Cached(s, k), Some(Busy))
  {
  }

  lemma LaunchKeepsTruthful(s: Meter, c: nat, k: Key, f: nat)
    requires Truthful(s) && f !in s.flights
    ensures Truthful(Launched(s, c, k, f))
  {
    var t := Launched(s, c, k, f);
    CachedIsHonest(s, k);
    forall x | x in t.flights ensures FlightOk(t.flights[x], t.scans) {
      if x != f {
        assert FlightOk(s.flights[x], s.scans);
      }
    }
    forall x | x in t.callers ensures CallerOk(t, t.callers[x]) {
      if x != c {
        assert CallerOk(s, s.callers[x]);
      }
    }
  }

  lemma StageKeepsTracked(s: Meter, f: nat, stage: Stage)
    requires Tracked(s) && f in s.flights && Live(s.flights[f]) && !stage.Landed?
    ensures Tracked(Staged(s, f, stage))
  {
  }

  lemma CallerStillOk(s: Meter, t: Meter, c: Caller)
    requires CallerOk(s, c) && s.scans <= t.scans
    requires forall f | f in s.flights :: f in t.flights && t.flights[f].key == s.flights[f].key
    requires forall f | f in s.flights && !Live(s.flights[f]) :: t.flights[f] == s.flights[f]
    ensures CallerOk(t, c)
  {
  }

  /** A flight moves on, and perhaps a scan has succeeded. */
  lemma StageKeepsTruthful(s: Meter, f: nat, stage: Stage, scans: set<(Key, nat)>)
    requires Truthful(s) && f in s.flights && Live(s.flights[f]) && s.scans <= scans
    requires FlightOk(s.flights[f].(stage := stage), scans)
    ensures Truthful(Staged(s, f, stage).(scans := scans))
  {
    var t := Staged(s, f, stage).(scans := scans);
    forall x | x in t.flights ensures FlightOk(t.flights[x], scans) {
      if x != f {
        assert FlightOk(s.flights[x], s.scans);
      }
    }
    forall x | x in t.callers ensures CallerOk(t, t.callers[x]) {
      assert CallerOk(s, s.callers[x]);
      CallerStillOk(s, t, s.callers[x]);
    }
  }

  lemma TakeSlotKeepsBounded(s: Meter, f: nat)
    requires Bounded(s) && Enabled(s, TakeSlot(f))
    ensures Bounded(After(s, TakeSlot(f)))
  {
    ScannersMoved(s.flights, f, s.flights[f].(stage := Scanning));
  }

  lemma TakeSlotKeeps(s: Meter, f: nat)
    requires Inv(s) && Enabled(s, TakeSlot(f))
    ensures Inv(After(s, TakeSlot(f)))
  {
    TakeSlotKeepsBounded(s, f);
    StageKeepsTracked(s, f, Scanning);
    assert FlightOk(s.flights[f], s.scans);
    StageKeepsTruthful(s, f, Scanning, s.scans);
    SameButActive(Staged(s, f, Scanning), s.active + 1);
  }

  lemma SameButActive(s: Meter, active: nat)
    requires Tracked(s) && Truthful(s)
    ensures Tracked(s.(active := active)) && Truthful(s.(active := active))
  {
    var t := s.(active := active);
    forall x | x in t.callers ensures CallerOk(t, t.callers[x]) {
      assert CallerOk(s, s.callers[x]);
    }
  }

  lemma TimeOutKeeps(s: Meter, f: nat)
    requires Inv(s) && Enabled(s, TimeOut(f))
    ensures Inv(After(s, TimeOut(f)))
  {
    var stage := Scanned(s.flights[f].was, Some(TimedOut));
    ScannersMoved(s.flights, f, s.flights[f].(stage := stage));
    assert Scanners(s.flights) - {f} == Scanners(s.flights);
    StageKeepsTracked(s, f, stage);
    assert FlightOk(s.flights[f], s.scans);
    StageKeepsTruthful(s, f, stage, s.scans);
  }

  lemma ScannedKeepsBounded(s: Meter, f: nat, stage: Stage, scans: set<(Key, nat)>)
    requires Bounded(s) && InStage(s, f, Scanning) && s.active > 0 && stage.Scanned?
    ensures Bounded(Staged(s, f, stage).(active := s.active - 1, scans := scans))
  {
    ScannersMoved(s.flights, f, s.flights[f].(stage := stage));
  }

  lemma ScannedKeeps(s: Meter, f: nat, stage: Stage, scans: set<(Key, nat)>)
    requires Inv(s) && InStage(s, f, Scanning) && s.active > 0 && stage.Scanned? && s.scans <= scans
    requires FlightOk(s.flights[f].(stage := stage), scans)
    ensures Inv(Staged(s, f, stage).(active := s.active - 1, scans := scans))
  {
    ScannedKeepsBounded(s, f, stage, scans);
    StageKeepsTracked(s, f, stage);
    StageKeepsTruthful(s, f, stage, scans);
    SameButActive(Staged(s, f, stage).(scans := scans), s.active - 1);
  }

  lemma ScanEndsKeeps(s: Meter, f: nat, outcome: Option<nat>, text: string)
    requires Inv(s) && Enabled(s, ScanEnds(f, outcome, text))
    ensures Inv(After(s, ScanEnds(f, outcome, text)))
  {
    assert FlightOk(s.flights[f], s.scans);
    if outcome.Some? {
      ScannedKeeps(s, f, Scanned(outcome.value, None), s.scans + {(s.flights[f].key, outcome.value)});
    } else {
      ScannedKeeps(s, f, Scanned(s.flights[f].was, Some(ScanFailed(text))), s.scans);
    }
  }

  lemma RoomFor(cache: map<Key, Result>, victim: Key, k: Key, r: Result)
    requires |cache| <= MAX_CACHE && (|cache| >= MAX_CACHE ==> victim in cache)
    ensures |Room(cache, victim)[k := r]| <= MAX_CACHE
  {
    var room := Room(cache, victim);
    assert |cache| >= MAX_CACHE ==> room.Keys == cache.Keys - {victim};
    assert room[k := r].Keys == room.Keys + {k};
  }

  lemma PublishKeepsBounded(s: Meter, f: nat, r: Result, victim: Key)
    requires Bounded(s) && HasScanned(s, f) && (|s.cache| >= MAX_CACHE ==> victim in s.cache)
    ensures Bounded(Published(s, f, r, victim))
  {
    var t := Published(s, f, r, victim);
    RoomFor(s.cache, victim, s.flights[f].key, r);
    assert t.pending.Keys <= s.pending.Keys && |t.pending.Keys| <= |s.pending.Keys|;
    ScannersMoved(s.flights, f, t.flights[f]);
    assert Scanners(s.flights) - {f} == Scanners(s.flights);
  }

  lemma PublishKeepsTracked(s: Meter, f: nat, r: Result, victim: Key)
    requires Tracked(s) && HasScanned(s, f)
    ensures Tracked(Published(s, f, r, victim))
  {
    assert Live(s.flights[f]);
  }

  lemma PublishKeepsTruthful(s: Meter, f: nat, stamp: int, victim: Key)
    requires Truthful(s) && HasScanned(s, f)
    ensures Truthful(Published(s, f, Final(s, f, stamp), victim))
  {
    var r := Final(s, f, stamp);
    assert FlightOk(s.flights[f], s.scans);
    StageKeepsTruthful(s, f, Landed(r), s.scans);
    NewCache(Staged(s, f, Landed(r)), Published(s, f, r, victim));
  }

  lemma NewCache(s: Meter, t: Meter)
    requires Truthful(s) && t == s.(cache := t.cache, pending := t.pending)
    requires forall k | k in t.cache :: Honest(t.scans, k, t.cache[k].bytes, t.cache[k].err)
    ensures Truthful(t)
  {
    forall x | x in t.callers ensures CallerOk(t, t.callers[x]) {
      assert CallerOk(s, s.callers[x]);
    }
  }

  lemma StepKeepsInv(s: Meter, a: Action)
    requires Inv(s) && Enabled(s, a)
    ensures Inv(After(s, a))
  {
    match a
    case Tick(_) =>
      forall c | c in s.callers ensures CallerOk(After(s, a), s.callers[c]) {
        assert CallerOk(s, s.callers[c]);
      }
      CallersOnly(s, After(s, a));
    case AskGone(_, _) => CallerSteps(s, a);
    case Ask(c, k, f) =>
      if Launches(s, k) {
        LaunchKeepsBounded(s, c, k, f);
        LaunchKeepsTracked(s, c, k, f);
        LaunchKeepsTruthful(s, c, k, f);
      } else {
        AskWithoutLaunch(s, c, k, f);
      }
    case TakeSlot(f) => TakeSlotKeeps(s, f);
    case TimeOut(f) => TimeOutKeeps(s, f);
    case ScanEnds(f, outcome, text) => ScanEndsKeeps(s, f, outcome, text);
    case Publish(f, stamp, victim) =>
      PublishKeepsBounded(s, f, Final(s, f, stamp), victim);
      PublishKeepsTracked(s, f, Final(s, f, stamp), victim);
      PublishKeepsTruthful(s, f, stamp, victim);
    case Wake(_) => CallerSteps(s, a);
    case GiveUp(_) => CallerSteps(s, a);
  }

  // ---- Runs ----

  ghost predicate Next(s: Meter, t: Meter) {
    exists a: Action :: Enabled(s, a) && t == After(s, a)
  }

  ghost predicate Link(ss: seq<Meter>, i: nat)
    requires i + 1 < |ss|
  {
    Next(ss[i], ss[i + 1])
  }

  ghost predicate Run(ss: seq<Meter>) {
    ss != [] && forall i | 0 <= i < |ss| - 1 :: Link(ss, i)
  }

  /** newMeter. */
  predicate Fresh(s: Meter) {
    s.cache == map[] && s.pending == map[] && s.flights == map[] && s.callers == map[] && s.active == 0 && s.scans == {}
  }

  lemma FreshInv(s: Meter)
    requires Fresh(s)
    ensures Inv(s)
  {
    assert Scanners(s.flights) == {};
  }

  lemma LinkKeepsInv(ss: seq<Meter>, i: nat)
    requires Run(ss) && i + 1 < |ss| && Inv(ss[i])
    ensures Inv(ss[i + 1])
  {
    assert Link(ss, i);
    var a :| Enabled(ss[i], a) && ss[i + 1] == After(ss[i], a);
    StepKeepsInv(ss[i], a);
  }

  lemma RunKeepsInv(ss: seq<Meter>, i: nat)
    requires Run(ss) && Fresh(ss[0]) && i < |ss|
    ensures Inv(ss[i])
  {
    FreshInv(ss[0]);
    forall n | 0 <= n < i && Inv(ss[n]) ensures Inv(ss[n + 1]) {
      LinkKeepsInv(ss, n);
    }
    Onwards(ss, Inv, 0, i);
  }

  /** However callers and scans interleave: at most 32 flights are under way, never two for one key,
      at most 2 scan, and at most 512 results are kept. */
  lemma AlwaysBounded(ss: seq<Meter>, i: nat)
    requires Run(ss) && Fresh(ss[0]) && i < |ss|
    ensures |ss[i].pending| <= 32 && |Scanners(ss[i].flights)| == ss[i].active <= 2 && |ss[i].cache| <= 512
    ensures forall f | f in ss[i].flights && Live(ss[i].flights[f]) ::
      ss[i].flights[f].key in ss[i].pending && ss[i].pending[ss[i].flights[f].key] == f
    ensures forall f, g |
      f in ss[i].flights && g in ss[i].flights && Live(ss[i].flights[f]) && Live(ss[i].flights[g]) ::
      ss[i].flights[f].key == ss[i].flights[g].key ==> f == g
  {
    RunKeepsInv(ss, i);
  }

  /** A size handed out without an error is what a scan of that very key found; one handed out with an
      error was found by an earlier scan of the key, or is zero. */
  lemma SizesAreTrue(ss: seq<Meter>, i: nat, c: nat)
    requires Run(ss) && Fresh(ss[0]) && i < |ss| && c in ss[i].callers && ss[i].callers[c].Got?
    ensures var g := ss[i].callers[c];
      (g.err.None? ==> (g.key, g.bytes) in ss[i].scans) && (g.bytes != 0 ==> (g.key, g.bytes) in ss[i].scans)
  {
    RunKeepsInv(ss, i);
    assert CallerOk(ss[i], ss[i].callers[c]);
  }

  /** Everyone who waited for a flight got its one result, and with an error the size that was cached
      when the flight was started. */
  lemma WaitersAgree(ss: seq<Meter>, i: nat, c: nat, d: nat)
    requires Run(ss) && Fresh(ss[0]) && i < |ss| && c in ss[i].callers && d in ss[i].callers
    requires ss[i].callers[c].Got? && ss[i].callers[d].Got?
    requires ss[i].callers[c].via.Some? && ss[i].callers[c].via == ss[i].callers[d].via
    ensures ss[i].callers[c] == ss[i].callers[d]
    ensures ss[i].callers[c].via.value in ss[i].flights
    ensures ss[i].callers[c].err.Some? ==> ss[i].callers[c].bytes == ss[i].flights[ss[i].callers[c].via.value].was
  {
    RunKeepsInv(ss, i);
    assert CallerOk(ss[i], ss[i].callers[c]) && CallerOk(ss[i], ss[i].callers[d]);
    assert FlightOk(ss[i].flights[ss[i].callers[c].via.value], ss[i].scans);
  }

  /** The steps of a flight; the other steps are those of callers and of the clock. */
  predicate OfFlight(a: Action) {
    a.TakeSlot? || a.TimeOut? || a.ScanEnds? || a.Publish?
  }

  lemma FlightStepsKeepCallers(s: Meter, a: Action)
    requires Enabled(s, a) && OfFlight(a)
    ensures After(s, a).callers == s.callers
  {
  }

  /** `t` has flight `f` as `s` has it, save perhaps for its stage, which does not change after landing. */
  predicate Stays(s: Meter, t: Meter, f: nat) {
    f in s.flights && f in t.flights && t.flights[f].was == s.flights[f].was && t.flights[f].key == s.flights[f].key
    && (s.flights[f].stage.Landed? ==> t.flights[f] == s.flights[f])
  }

  lemma StagedStays(s: Meter, g: nat, stage: Stage, t: Meter, f: nat)
    requires f in s.flights && g in s.flights && Live(s.flights[g]) && t.flights == Staged(s, g, stage).flights
    ensures Stays(s, t, f)
  {
  }

  lemma FlightStepsStay(s: Meter, a: Action, f: nat)
    requires Enabled(s, a) && OfFlight(a) && f in s.flights
    ensures Stays(s, After(s, a), f)
  {
    var t := After(s, a);
    match a
    case TakeSlot(g) => StagedStays(s, g, Scanning, t, f);
    case TimeOut(g) => StagedStays(s, g, Scanned(s.flights[g].was, Some(TimedOut)), t, f);
    case ScanEnds(g, _, _) => StagedStays(s, g, t.flights[g].stage, t, f);
    case Publish(g, stamp, _) => StagedStays(s, g, Landed(Final(s, g, stamp)), t, f);
  }

  /** A flight remembers what was cached when it was started. */
  lemma FlightsRemember(s: Meter, a: Action, f: nat)
    requires Enabled(s, a) && f !in s.flights && f in After(s, a).flights
    ensures After(s, a).flights[f] == Flight(After(s, a).flights[f].key, Cached(s, After(s, a).flights[f].key), Queued)
  {
    assert a.Ask? && Launches(s, a.key);
  }

  /** It keeps that, its key and, once it has landed, its one result. */
  lemma FlightsStay(s: Meter, a: Action, f: nat)
    requires Enabled(s, a) && f in s.flights
    ensures Stays(s, After(s, a), f)
  {
    if OfFlight(a) {
      FlightStepsStay(s, a, f);
    } else if a.Ask? {
      assert a.id != f;
    }
  }

  lemma LinkFlight(ss: seq<Meter>, i: nat, f: nat)
    requires Run(ss) && i + 1 < |ss| && f in ss[i + 1].flights
    ensures var later := ss[i + 1].flights[f];
      if f in ss[i].flights then later.was == ss[i].flights[f].was && later.key == ss[i].flights[f].key
      else later.was == Cached(ss[i], later.key)
  {
    assert Link(ss, i);
    var a :| Enabled(ss[i], a) && ss[i + 1] == After(ss[i], a);
    if f in ss[i].flights {
      FlightsStay(ss[i], a, f);
    } else {
      FlightsRemember(ss[i], a, f);
    }
  }

  /** The moment a flight was started, and the size it falls back on. */
  lemma {:induction false} Started(ss: seq<Meter>, i: nat, f: nat) returns (m: nat)
    requires Run(ss) && Fresh(ss[0]) && i < |ss| && f in ss[i].flights
    ensures m < i && f !in ss[m].flights && f in ss[m + 1].flights
    ensures ss[i].flights[f].was == Cached(ss[m], ss[i].flights[f].key)
  {
    LinkFlight(ss, i - 1, f);
    if f in ss[i - 1].flights {
      m := Started(ss, i - 1, f);
    } else {
      m := i - 1;
    }
  }

  /** What the cache has for the key, and it has not expired. */
  predicate AnsweredFrom(s: Meter, k: Key, bytes: nat, err: Option<Error>) {
    k in s.cache && s.now < s.cache[k].expires && bytes == s.cache[k].bytes && err == s.cache[k].err
  }

  /** `w` is what caller `c`, who asked between `s` and `t`, waits with or was told: the size cached when
      it asked, or zero if it was gone by then. */
  predicate AsOf(s: Meter, t: Meter, c: nat, w: Caller) {
    match w
    case Waiting(k, _, was) => was == Cached(s, k)
    case Got(k, bytes, err, via) =>
      via.None? ==> (bytes == Cached(s, k)
                     || (w == Got(k, 0, Some(CallerGone), None) && c in t.callers && t.callers[c] == w))
                    && (err == Some(Busy) || err == Some(CallerGone) || AnsweredFrom(s, k, bytes, err))
  }

  lemma AsksAsOf(s: Meter, a: Action, c: nat)
    requires Enabled(s, a) && c !in s.callers && c in After(s, a).callers
    ensures AsOf(s, After(s, a), c, After(s, a).callers[c])
  {
    OnlyAskersArrive(s, a, c);
  }

  lemma OnlyAskersArrive(s: Meter, a: Action, c: nat)
    requires Enabled(s, a) && c !in s.callers && c in After(s, a).callers
    ensures (a.Ask? || a.AskGone?) && a.caller == c
  {
    if OfFlight(a) {
      FlightStepsKeepCallers(s, a);
      assert false;
    }
  }

  lemma StaysAsOf(s: Meter, t: Meter, c: nat, now: Meter, a: Action)
    requires Enabled(now, a) && c in now.callers && AsOf(s, t, c, now.callers[c])
    ensures c in After(now, a).callers && AsOf(s, t, c, After(now, a).callers[c])
  {
    if OfFlight(a) {
      FlightStepsKeepCallers(now, a);
    } else if a.Ask? {
      assert Asked(now, a.caller, a.key, a.id).callers == now.callers[a.caller := After(now, a).callers[a.caller]];
    }
  }

  /** The moment at which a caller asked. */
  lemma {:induction false} Arrived(ss: seq<Meter>, i: nat, c: nat) returns (m: nat)
    requires Run(ss) && Fresh(ss[0]) && i < |ss| && c in ss[i].callers
    ensures m < i && c !in ss[m].callers && c in ss[m + 1].callers && AsOf(ss[m], ss[m + 1], c, ss[i].callers[c])
  {
    assert Link(ss, i - 1);
    var a :| Enabled(ss[i - 1], a) && ss[i] == After(ss[i - 1], a);
    if c in ss[i - 1].callers {
      m := Arrived(ss, i - 1, c);
      StaysAsOf(ss[m], ss[m + 1], c, ss[i - 1], a);
    } else {
      m := i - 1;
      AsksAsOf(ss[m], a, c);
    }
  }

  /** The size was cached for the caller's key at index `m`, when the flight that answered was started
      or, without one, when the caller asked. */
  ghost predicate CachedAt(ss: seq<Meter>, m: nat, c: nat, g: Caller)
    requires g.Got? && m + 1 < |ss|
  {
    g.bytes == Cached(ss[m], g.key)
    && if g.via.Some? then g.via.value !in ss[m].flights && g.via.value in ss[m + 1].flights
       else c !in ss[m].callers && c in ss[m + 1].callers
  }

  /** Every size that comes with an error is one that was cached for the key: when the flight that
      delivered it was started, or else when the caller asked. Only a caller that was gone before it
      asked is told zero whatever was cached. */
  lemma ErrorsKeepTheCachedSize(ss: seq<Meter>, i: nat, c: nat)
    requires Run(ss) && Fresh(ss[0]) && i < |ss| && c in ss[i].callers && ss[i].callers[c].Got?
    requires ss[i].callers[c].err.Some?
    ensures (exists m | 0 <= m < i :: CachedAt(ss, m, c, ss[i].callers[c]))
            || (ss[i].callers[c] == Got(ss[i].callers[c].key, 0, Some(CallerGone), None)
                && exists m | 0 <= m < i :: c !in ss[m].callers && c in ss[m + 1].callers
                                            && ss[m + 1].callers[c] == ss[i].callers[c])
  {
    var g := ss[i].callers[c];
    if g.via.Some? {
      WaitersAgree(ss, i, c, c);
      RunKeepsInv(ss, i);
      assert CallerOk(ss[i], g);
      var m := Started(ss, i, g.via.value);
      assert CachedAt(ss, m, c, g);
    } else {
      var m := Arrived(ss, i, c);
      assert CachedAt(ss, m, c, g) || ss[m + 1].callers[c] == g;
    }
  }

  // ---- How old an answer may be ----

  /** How long after its stamp a result counts. */
  function Lifetime(err: Option<Error>): int {
    if err.None? then 60_000 else 5_000
  }

  /** Between `j` and the next moment a flight for the key published what it had found. */
  ghost predicate PublishedAt(ss: seq<Meter>, j: nat, k: Key, bytes: nat, err: Option<Error>, stamp: int)
    requires j + 1 < |ss|
  {
    exists f, victim | Enabled(ss[j], Publish(f, stamp, victim)) ::
      ss[j + 1] == After(ss[j], Publish(f, stamp, victim))
      && ss[j].flights[f].key == k && ss[j].flights[f].stage == Scanned(bytes, err)
  }

  lemma PublishedIsCached(ss: seq<Meter>, j: nat, k: Key, bytes: nat, err: Option<Error>, stamp: int)
    requires j + 1 < |ss| && PublishedAt(ss, j, k, bytes, err, stamp)
    ensures k in ss[j + 1].cache && ss[j + 1].cache[k] == Result(bytes, err, stamp + Lifetime(err))
  {
  }

  /** What is in the cache was published, and has not been evicted or replaced since. */
  ghost predicate KeptSince(ss: seq<Meter>, i: nat, k: Key, j: nat, bytes: nat, err: Option<Error>, stamp: int)
    requires i < |ss|
  {
    j < i && PublishedAt(ss, j, k, bytes, err, stamp)
    && forall n | j < n <= i :: k in ss[n].cache && ss[n].cache[k] == ss[j + 1].cache[k]
  }

  lemma CacheStep(s: Meter, a: Action, k: Key)
    requires Enabled(s, a) && k in After(s, a).cache
    ensures (k in s.cache && After(s, a).cache[k] == s.cache[k]) || (a.Publish? && s.flights[a.flight].key == k)
  {
  }

  lemma LinkCache(ss: seq<Meter>, i: nat, k: Key) returns (stamp: int)
    requires Run(ss) && i + 1 < |ss| && k in ss[i + 1].cache
    requires k in ss[i].cache ==> ss[i + 1].cache[k] != ss[i].cache[k]
    ensures PublishedAt(ss, i, k, ss[i + 1].cache[k].bytes, ss[i + 1].cache[k].err, stamp)
    ensures ss[i + 1].cache[k].expires == stamp + Lifetime(ss[i + 1].cache[k].err)
  {
    assert Link(ss, i);
    var a :| Enabled(ss[i], a) && ss[i + 1] == After(ss[i], a);
    CacheStep(ss[i], a, k);
    stamp := a.stamp;
  }

  lemma KeptLonger(ss: seq<Meter>, i: nat, k: Key, j: nat, bytes: nat, err: Option<Error>, stamp: int)
    requires i + 1 < |ss| && KeptSince(ss, i, k, j, bytes, err, stamp)
    requires k in ss[i + 1].cache && ss[i + 1].cache[k] == ss[i].cache[k]
    ensures KeptSince(ss, i + 1, k, j, bytes, err, stamp)
  {
  }

  lemma {:induction false} CacheWasPublished(ss: seq<Meter>, i: nat, k: Key) returns (j: nat, stamp: int)
    requires Run(ss) && Fresh(ss[0]) && i < |ss| && k in ss[i].cache
    ensures KeptSince(ss, i, k, j, ss[i].cache[k].bytes, ss[i].cache[k].err, stamp)
    ensures ss[i].cache[k].expires == stamp + Lifetime(ss[i].cache[k].err)
  {
    var r := ss[i].cache[k];
    if k in ss[i - 1].cache && ss[i - 1].cache[k] == r {
      j, stamp := CacheWasPublished(ss, i - 1, k);
      KeptLonger(ss, i - 1, k, j, r.bytes, r.err, stamp);
    } else {
      j := i - 1;
      stamp := LinkCache(ss, j, k);
    }
  }

  /** However callers and scans interleave, an answer given at once repeats a result that was published
      for the key less than a minute before the caller asked, or less than five seconds before if it is
      an error. */
  lemma AnswersAreFresh(ss: seq<Meter>, i: nat, c: nat) returns (m: nat, j: nat, stamp: int)
    requires Run(ss) && Fresh(ss[0]) && i < |ss| && c in ss[i].callers && ss[i].callers[c].Got?
    requires ss[i].callers[c].via.None? && ss[i].callers[c].err !in {Some(Busy), Some(CallerGone)}
    ensures j < m < i && c !in ss[m].callers && c in ss[m + 1].callers
    ensures var g := ss[i].callers[c];
      PublishedAt(ss, j, g.key, g.bytes, g.err, stamp)
      && ss[m].now - stamp < if g.err.None? then 60_000 else 5_000
  {
    m := Arrived(ss, i, c);
    j, stamp := CacheWasPublished(ss, m, ss[i].callers[c].key);
  }

  /** A caller that asks is answered at once from a result published less than a minute ago, five seconds
      if it is an error, and still cached, if there is one. */
  lemma FreshResultsAreReused(ss: seq<Meter>, i: nat, c: nat, f: nat, k: Key, j: nat, bytes: nat, err: Option<Error>,
                              stamp: int)
    requires Run(ss) && i + 1 < |ss| && Enabled(ss[i], Ask(c, k, f)) && ss[i + 1] == After(ss[i], Ask(c, k, f))
    requires KeptSince(ss, i, k, j, bytes, err, stamp) && ss[i].now - stamp < if err.None? then 60_000 else 5_000
    ensures ss[i + 1] == ss[i].(callers := ss[i].callers[c := Got(k, bytes, err, None)])
  {
    PublishedIsCached(ss, j, k, bytes, err, stamp);
  }

  /** And if there is none, it waits for a scan of the directory that is under way or was just started for
      it, unless 32 others are under way: then it is told so. */
  lemma OldResultsAreNot(ss: seq<Meter>, i: nat, c: nat, f: nat, k: Key)
    requires Run(ss) && Fresh(ss[0]) && i + 1 < |ss|
    requires Enabled(ss[i], Ask(c, k, f)) && ss[i + 1] == After(ss[i], Ask(c, k, f))
    requires forall j, bytes, err, stamp | KeptSince(ss, i, k, j, bytes, err, stamp) ::
      ss[i].now - stamp >= if err.None? then 60_000 else 5_000
    ensures var g := ss[i + 1].callers[c];
      if k in ss[i].pending || |ss[i].pending| < 32
      then g.Waiting? && g.key == k && g.flight == (if k in ss[i].pending then ss[i].pending[k] else f)
           && g.flight in ss[i + 1].flights && ss[i + 1].flights[g.flight].key == k
           && !ss[i + 1].flights[g.flight].stage.Landed?
      else g == Got(k, g.bytes, Some(Busy), None)
  {
    RunKeepsInv(ss, i);
    if k in ss[i].cache {
      var j, stamp := CacheWasPublished(ss, i, k);
    }
  }

  /** A new entry in the record of scans comes from a scan of that key which was running. */
  lemma ScansAreReal(s: Meter, a: Action, k: Key, n: nat)
    requires Enabled(s, a) && (k, n) in After(s, a).scans && (k, n) !in s.scans
    ensures a.ScanEnds? && a.outcome == Some(n) && InStage(s, a.flight, Scanning) && s.flights[a.flight].key == k
  {
  }

  /** A result is dropped only when the cache is full, and then one that expires first. */
  lemma EvictsLeastExpiry(s: Meter, a: Action, k: Key)
    requires Enabled(s, a) && k in s.cache && k !in After(s, a).cache
    ensures |s.cache| >= 512 && forall other | other in s.cache :: s.cache[k].expires <= s.cache[other].expires
  {
    assert a.Publish?;
    assert LeastExpiry(s.cache, a.victim);
  }

  /** Nobody waits in vain: as long as a caller waits, its answer is there or its flight can move. */
  lemma NobodyIsStuck(ss: seq<Meter>, i: nat, c: nat, victim: Key)
    requires Run(ss) && Fresh(ss[0]) && i < |ss| && IsWaiting(ss[i], c)
    requires |ss[i].cache| >= MAX_CACHE ==> LeastExpiry(ss[i].cache, victim)
    ensures var f := ss[i].callers[c].flight;
      Enabled(ss[i], Wake(c)) || Enabled(ss[i], TimeOut(f)) || Enabled(ss[i], ScanEnds(f, None, ""))
      || Enabled(ss[i], Publish(f, ss[i].now, victim))
  {
    RunKeepsInv(ss, i);
    assert CallerOk(ss[i], ss[i].callers[c]);
    var f := ss[i].callers[c].flight;
    if ss[i].flights[f].stage.Scanning? {
      assert f in Scanners(ss[i].flights);
    }
  }
}
