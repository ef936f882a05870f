/** The meter's own code: its critical sections, which the protocol's steps are. */
module DiskMeter {
  import opened Wrappers
  import opened MeterProtocol

  class SharedMeter {
    var now: int
    var cache: map<Key, Result>
    var pending: map<Key, nat>
    var flights: map<nat, Flight>
    var callers: map<nat, Caller>
    var active: nat
    ghost var scans: set<(Key, nat)>

    ghost function State(): Meter
      reads this
    {
      Meter(now, cache, pending, flights, callers, active, scans)
    }

    constructor (now: int)
      ensures Fresh(State()) && this.now == now
    {
      this.now, cache, pending, flights, callers, active, scans := now, map[], map[], map[], map[], 0, {};
    }

    /** measure: answered at once, or waiting for a flight that is under way or just started. */
    method Measure(c: nat, path: string, apparent: bool, gone: bool, id: nat)
      requires c !in callers && id !in flights
      modifies this
      ensures State() == After(old(State()),
        if gone then AskGone(c, Key(path, apparent)) else Ask(c, Key(path, apparent), id))
    {
      var k := Key(path, apparent);
      if gone {
        callers := callers[c := Got(k, 0, Some(CallerGone), None)];
        return;
      }
      var bytes := if k in cache then cache[k].bytes else 0;
      if k in cache && now < cache[k].expires {
        callers := callers[c := Got(k, bytes, cache[k].err, None)];
        return;
      }
      if k !in pending {
        if |pending| >= MAX_PENDING {
          callers := callers[c := Got(k, bytes, Some(Busy), None)];
          return;
        }
        flights := flights[id := Flight(k, bytes, Queued)];
        pending := pending[k := id];
      }
      callers := callers[c := Waiting(k, pending[k], bytes)];
    }

    /** The entry that expires first, found in one pass over the cache. */
    method Oldest() returns (oldest: Key)
      requires cache != map[]
      ensures LeastExpiry(cache, oldest)
    {
      var expiry: Option<int>, todo := None, cache.Keys;
      oldest := Key("", false);
      while todo != {}
        invariant todo <= cache.Keys
        invariant expiry.None? ==> todo == cache.Keys
        invariant expiry.Some? ==> oldest in cache && cache[oldest].expires == expiry.value
        invariant expiry.Some? ==> forall k | k in cache.Keys - todo :: expiry.value <= cache[k].expires
        decreases |todo|
      {
        var k :| k in todo;
        todo := todo - {k};
        if expiry.None? || cache[k].expires < expiry.value {
          oldest, expiry := k, Some(cache[k].expires);
        }
      }
    }

    /** measureOne, once its scan has ended or its time is up: room is made, the result is stored and
        everyone who waits can have it. */
    method Land(f: nat, stamp: int) returns (ghost victim: Key)
      requires HasScanned(State(), f) && stamp <= now
      modifies this
      ensures Enabled(old(State()), Publish(f, stamp, victim))
      ensures State() == After(old(State()), Publish(f, stamp, victim))
    {
      var k, st := flights[f].key, flights[f].stage;
      var r := Result(st.bytes, st.err, stamp + if st.err.None? then TTL else FAILURE_TTL);
      victim := k;
      if |cache| >= MAX_CACHE {
        var oldest := Oldest();
        victim := oldest;
        cache := cache - {oldest};
      }
      cache := cache[k := r];
      pending := pending - {k};
      flights := flights[f := flights[f].(stage := Landed(r))];
    }

    /** The select of measureOne: a slot and a scan, or the timeout. */
    method TakeOrTimeOut(f: nat, timedOut: bool) returns (scanning: bool)
      requires InStage(State(), f, Queued) && (active < 2 || timedOut)
      modifies this
      ensures scanning == !timedOut
      ensures State() == After(old(State()), if timedOut then TimeOut(f) else MeterProtocol.TakeSlot(f))
    {
      if timedOut {
        flights := flights[f := flights[f].(stage := Scanned(flights[f].was, Some(TimedOut)))];
        return false;
      }
      active := active + 1;
      flights := flights[f := flights[f].(stage := Scanning)];
      return true;
    }

    /** The scan returns and its slot is free again. */
    method EndScan(f: nat, outcome: Option<nat>, text: string)
      requires Bounded(State()) && InStage(State(), f, Scanning)
      modifies this
      ensures old(active) > 0 && State() == After(old(State()), ScanEnds(f, outcome, text))
    {
      assert f in Scanners(flights);
      active := active - 1;
      var bytes, err := flights[f].was, Some(ScanFailed(text));
      if outcome.Some? {
        bytes, err := outcome.value, None;
        scans := scans + {(flights[f].key, bytes)};
      }
      flights := flights[f := flights[f].(stage := Scanned(bytes, err))];
    }

    /** The second select of measure: the flight has landed, or the caller has gone. */
    method Collect(c: nat, gone: bool) returns (bytes: nat, err: Option<Error>)
      requires IsWaiting(State(), c) && callers[c].flight in flights
      requires !gone ==> flights[callers[c].flight].stage.Landed?
      modifies this
      ensures State() == After(old(State()), if gone then GiveUp(c) else Wake(c))
      ensures c in callers && callers[c].Got? && callers[c].bytes == bytes && callers[c].err == err
    {
      var w := callers[c];
      if gone {
        bytes, err := w.was, Some(CallerGone);
        callers := callers[c := Got(w.key, bytes, err, None)];
      } else {
        bytes, err := flights[w.flight].stage.result.bytes, flights[w.flight].stage.result.err;
        callers := callers[c := Got(w.key, bytes, err, Some(w.flight))];
      }
    }
  }
}
