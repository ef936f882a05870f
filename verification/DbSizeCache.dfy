/** The cache's own code: the two critical sections of `get`. */
module DbSizeCache {
  import opened Wrappers
  import opened SizeCacheProtocol

  class SharedCache {
    var now: int
    var data: Option<Sizes>
    var loadedAt: int
    var lastErr: Option<string>
    var lastFailure: int
    var loading: bool
    var wait: nat
    var channels: nat
    var closed: set<nat>
    var callers: map<nat, Phase>
    ghost var loads: set<Sizes>

    ghost function State(): Cache
      reads this
    {
      Cache(now, data, loadedAt, lastErr, lastFailure, if loading then Some(wait) else None,
            channels, closed, callers, loads)
    }

    constructor (now: int)
      ensures Fresh(State())
    {
      this.now, data, loadedAt, lastErr, lastFailure := now, None, 0, None, 0;
      loading, wait, channels, closed, callers, loads := false, 0, 0, {}, map[], {};
    }

    /** One turn of the loop: data, an error, a wait for the load under way, or a load of one's own. */
    method Enter(c: nat) returns (mustLoad: bool)
      requires MayEnter(State(), c)
      modifies this
      ensures State() == After(old(State()), SizeCacheProtocol.Enter(c))
      ensures mustLoad <==> Starts(old(State()))
    {
      var age := now - loadedAt;
      if data.Some? && age < FRESH_TTL {
        callers := callers[c := Got(data.value, age)];
        return false;
      }
      if loading {
        if data.Some? && age <= MAX_STALE {
          callers := callers[c := Got(data.value, age)];
        } else {
          callers := callers[c := Waiting(wait)];
        }
        return false;
      }
      if lastErr.Some? && now - lastFailure < BACKOFF {
        if data.Some? && age <= MAX_STALE {
          callers := callers[c := Got(data.value, age)];
        } else {
          callers := callers[c := Refused(lastErr.value)];
        }
        return false;
      }
      loading, wait := true, channels;
      channels := channels + 1;
      callers := callers[c := Loading(wait)];
      return true;
    }

    /** After the load: the clock reads `stamp` and then `later`. */
    method FinishLoad(c: nat, outcome: Option<Sizes>, error: string, stamp: int, later: int)
      requires c in callers && callers[c] == Loading(wait) && loading && now <= stamp <= later
      modifies this
      ensures State() == After(old(State()), LoadEnds(c, outcome, error, stamp, later))
      ensures wait in closed && !loading
    {
      if outcome.Some? {
        data, loadedAt, lastErr := outcome, stamp, None;
        loads := loads + {outcome.value};
      } else {
        lastErr, lastFailure := Some(error), stamp;
      }
      loading := false;
      closed := closed + {wait};
      now := later;
      var hasData := data.Some? && now - loadedAt <= MAX_STALE;
      if hasData {
        callers := callers[c := Got(data.value, now - loadedAt)];
      } else if outcome.None? {
        callers := callers[c := Refused(error)];
      } else {
        callers := callers[c := Nothing];
      }
    }
  }
}
