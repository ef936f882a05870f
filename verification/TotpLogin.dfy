/** Two-factor logins: the step search of section 5.2 of RFC 6238, and the conditional update of the
    account row that accepts a code. Any number of requests may be between their read and their
    update; the code of a step (HMAC) is a function given from outside. */
module TotpLogin {
  import opened Wrappers
  import opened Runs

  // ---- The step search ----

  predicate Window(t: int, step: int) {
    t - 1 <= step <= t + 1
  }

  /** gecerliAnahtarAdimi at time step `t`: the earliest step of the window that is later than `min`
      and has this code. */
  method FindStep(codeOf: int -> string, code: string, t: int, min: int) returns (found: Option<int>)
    ensures found.Some? ==> t - 1 <= found.value <= t + 1 && found.value > min
    ensures found.Some? ==> codeOf(found.value) == code && |code| == 6
    ensures found.Some? ==> forall c | t - 1 <= c < found.value && c > min :: codeOf(c) != code
    ensures found.None? && |code| == 6 ==> forall c | t - 1 <= c <= t + 1 && c > min :: codeOf(c) != code
    ensures found.None? && |code| == 6 ==> forall c | Window(t, c) && c > min :: codeOf(c) != code
  {
    if |code| != 6 {
      return None;
    }
    var c := t - 1;
    while c <= t + 1
      invariant t - 1 <= c <= t + 2
      invariant forall d | t - 1 <= d < c && d > min :: codeOf(d) != code
    {
      if c > min && codeOf(c) == code {
        return Some(c);
      }
      c := c + 1;
    }
    return None;
  }

  // ---- The account ----

  datatype User = User(enabled: bool, secret: string, last: int, version: nat)

  /** What a request carries from its read to its update. */
  datatype Pending = LoginWith(secret: string, version: nat, step: int) | DisableWith(secret: string, version: nat)

  /** A code that was accepted, and the version handed back. */
  datatype Login = Login(step: int, version: nat)

  /** `steps` lists the accepted steps since two-factor login was last switched on (with the one that
      switched it on), `enables` the session versions that ever switched it on, `logins` everyone let
      in with a code. */
  datatype State = State(user: User, pending: map<nat, Pending>, steps: seq<int>, enables: seq<nat>, logins: seq<Login>)

  datatype Action =
    | ReadForLogin(id: nat, step: int)
    | ReadForDisable(id: nat, version: nat)
    | Consume(id: nat)
    | Enable(version: nat, secret: string, step: int)
    | Disable(id: nat)
    | ChangePassword

  predicate LoginMatches(u: User, p: Pending) {
    p.LoginWith? && u.enabled && u.secret == p.secret && u.last < p.step && u.version == p.version
  }

  predicate DisableMatches(u: User, p: Pending) {
    p.DisableWith? && u.enabled && u.secret == p.secret && u.version == p.version
  }

  /** A read finds a step that is later than the last one; the step found when switching on is later
      than -1. */
  predicate Enabled(s: State, a: Action) {
    match a
    case ReadForLogin(id, step) => id !in s.pending && s.user.enabled && s.user.last < step
    case ReadForDisable(id, _) => id !in s.pending && s.user.enabled
    case Consume(id) => id in s.pending && s.pending[id].LoginWith?
    case Enable(_, _, step) => step > -1
    case Disable(id) => id in s.pending && s.pending[id].DisableWith?
    case ChangePassword => true
  }

  function Bumped(u: User): User {
    u.(version := u.version + 1)
  }

  /** The conditional updates: a condition that no longer holds updates nothing. */
  function After(s: State, a: Action): State
    requires Enabled(s, a)
  {
    match a
    case ReadForLogin(id, step) => s.(pending := s.pending[id := LoginWith(s.user.secret, s.user.version, step)])
    case ReadForDisable(id, version) => s.(pending := s.pending[id := DisableWith(s.user.secret, version)])
    case Consume(id) =>
      var p, t := s.pending[id], s.(pending := s.pending - {id});
      if LoginMatches(s.user, p)
      then t.(user := s.user.(last := p.step), steps := s.steps + [p.step],
              logins := s.logins + [Login(p.step, p.version)])
      else t
    case Enable(version, secret, step) =>
      if !s.user.enabled && s.user.version == version
      then s.(user := User(true, secret, step, version + 1), steps := [step], enables := s.enables + [version])
      else s
    case Disable(id) =>
      var p, t := s.pending[id], s.(pending := s.pending - {id});
      if DisableMatches(s.user, p) then t.(user := User(false, "", 0, s.user.version + 1)) else t
    case ChangePassword => s.(user := Bumped(s.user))
  }

  // ---- What every step keeps ----

  predicate Increasing(xs: seq<int>) {
    forall i, j | 0 <= i < j < |xs| :: xs[i] < xs[j]
  }

  predicate Inv(s: State) {
    Increasing(s.steps) && Increasing(s.enables)
    && (s.user.enabled ==> s.steps != [] && s.steps[|s.steps| - 1] == s.user.last && s.user.last > -1)
    && (s.enables != [] ==> s.enables[|s.enables| - 1] < s.user.version)
  }

  lemma IncreasingAppend(xs: seq<int>, x: int)
    requires Increasing(xs) && (xs != [] ==> xs[|xs| - 1] < x)
    ensures Increasing(xs + [x])
  {
    forall i, j | 0 <= i < j < |xs| + 1 ensures (xs + [x])[i] < (xs + [x])[j] {
      if j == |xs| && i < |xs| - 1 {
        assert xs[i] < xs[|xs| - 1];
      }
    }
  }

  lemma StepKeepsInv(s: State, a: Action)
    requires Inv(s) && Enabled(s, a)
    ensures Inv(After(s, a))
  {
    match a
    case Consume(id) =>
      if LoginMatches(s.user, s.pending[id]) {
        IncreasingAppend(s.steps, s.pending[id].step);
      }
    case Enable(version, _, _) =>
      if !s.user.enabled && s.user.version == version {
        IncreasingAppend(s.enables, version);
      }
    case _ =>
  }

  // ---- Runs ----

  ghost predicate Next(s: State, t: State) {
    exists a: Action :: Enabled(s, a) && t == After(s, a)
  }

  ghost predicate Link(ss: seq<State>, i: nat)
    requires i + 1 < |ss|
  {
    Next(ss[i], ss[i + 1])
  }

  ghost predicate Run(ss: seq<State>) {
    ss != [] && forall i | 0 <= i < |ss| - 1 :: Link(ss, i)
  }

  /** An account on which two-factor login has never been switched on. */
  predicate Fresh(s: State) {
    !s.user.enabled && s.pending == map[] && s.steps == [] && s.enables == [] && s.logins == []
  }

  lemma LinkKeepsInv(ss: seq<State>, i: nat)
    requires Run(ss) && i + 1 < |ss| && Inv(ss[i])
    ensures Inv(ss[i + 1])
  {
    assert Link(ss, i);
    var a :| Enabled(ss[i], a) && ss[i + 1] == After(ss[i], a);
    StepKeepsInv(ss[i], a);
  }

  lemma RunKeepsInv(ss: seq<State>, i: nat)
    requires Run(ss) && Fresh(ss[0]) && i < |ss|
    ensures Inv(ss[i])
  {
    forall n | 0 <= n < i && Inv(ss[n]) ensures Inv(ss[n + 1]) {
      LinkKeepsInv(ss, n);
    }
    Onwards(ss, Inv, 0, i);
  }

  /** However many logins race: the steps accepted since two-factor login was switched on increase
      strictly, so no step is accepted twice, and the step that switched it on is not accepted again. */
  lemma NoReplay(ss: seq<State>, i: nat, j: nat, k: nat)
    requires Run(ss) && Fresh(ss[0]) && i < |ss| && j < k < |ss[i].steps|
    ensures ss[i].steps[j] < ss[i].steps[k]
  {
    RunKeepsInv(ss, i);
  }

  /** Of all attempts to switch it on from one session version at most one ever wins. */
  lemma OneEnablePerVersion(ss: seq<State>, i: nat, j: nat, k: nat)
    requires Run(ss) && Fresh(ss[0]) && i < |ss| && j < |ss[i].enables| && k < |ss[i].enables|
    ensures ss[i].enables[j] == ss[i].enables[k] ==> j == k
    ensures ss[i].enables[j] < ss[i].user.version
  {
    RunKeepsInv(ss, i);
    assert ss[i].enables[j] <= ss[i].enables[|ss[i].enables| - 1];
  }

  /** A login that is let in carries the version of the account at that moment, and its step is later
      than every step accepted before. */
  lemma AcceptedIsCurrent(ss: seq<State>, i: nat)
    requires Run(ss) && Fresh(ss[0]) && i + 1 < |ss| && ss[i + 1].logins != ss[i].logins
    ensures exists p: Login ::
      ss[i + 1].logins == ss[i].logins + [p] && p.version == ss[i].user.version == ss[i + 1].user.version
      && ss[i].user.last < p.step == ss[i + 1].user.last && ss[i + 1].steps == ss[i].steps + [p.step]
  {
    assert Link(ss, i);
    var a :| Enabled(ss[i], a) && ss[i + 1] == After(ss[i], a);
    var p := Login(ss[i].pending[a.id].step, ss[i].pending[a.id].version);
  }

  /** The version never goes back, and every change of password, secret or switch moves it. */
  lemma VersionMoves(s: State, a: Action)
    requires Enabled(s, a)
    ensures After(s, a).user.version >= s.user.version
    ensures a.ChangePassword? || After(s, a).user.enabled != s.user.enabled || After(s, a).user.secret != s.user.secret
      ==> After(s, a).user.version > s.user.version
  {
  }

  /** The history is cut only by switching on, which is possible only after switching off. */
  lemma StepsGrowBetweenDisables(s: State, a: Action)
    requires Enabled(s, a) && s.user.enabled
    ensures s.steps <= After(s, a).steps
  {
  }

  // ---- The handlers ----

  /** The step has the code, lies in the window and is later than the last one. */
  predicate Searched(codeOf: (string, int) -> string, u: User, code: string, t: int, step: int) {
    Window(t, step) && codeOf(u.secret, step) == code && u.last < step
  }

  datatype Reply = Admitted(version: nat) | CodeWanted | Denied | Conflict | Continue

  /** The account row, and the requests that stand between their read and their update. */
  class Account {
    var user: User
    var pending: map<nat, Pending>
    ghost var steps: seq<int>
    ghost var enables: seq<nat>
    ghost var logins: seq<Login>

    ghost function Now(): State
      reads this
    {
      State(user, pending, steps, enables, logins)
    }

    constructor (version: nat)
      ensures Fresh(Now()) && user.version == version
    {
      user, pending, steps, enables, logins := User(false, "", 0, version), map[], [], [], [];
    }

    /** DogrulaGiris2FA up to the update: without two-factor login the version is handed back at once. */
    method BeginLogin(id: nat, codeOf: (string, int) -> string, code: string, t: int) returns (reply: Reply)
      requires id !in pending
      modifies this
      ensures reply.Admitted? <==> !old(user).enabled
      ensures reply.Admitted? ==> reply.version == user.version
      ensures reply.CodeWanted? <==> old(user).enabled && code == ""
      ensures reply.Continue? ==> exists step ::
        Searched(codeOf, old(user), code, t, step)
        && Enabled(old(Now()), ReadForLogin(id, step)) && Now() == After(old(Now()), ReadForLogin(id, step))
      ensures !reply.Continue? ==> Now() == old(Now())
      ensures reply.Denied?
        ==> |code| != 6 || forall c | Window(t, c) && c > user.last :: codeOf(user.secret, c) != code
      ensures !reply.Conflict?
    {
      if !user.enabled {
        return Admitted(user.version);
      }
      if code == "" {
        return CodeWanted;
      }
      var secret := user.secret;
      var found := FindStep(c => codeOf(secret, c), code, t, user.last);
      if found.None? {
        return Denied;
      }
      assert Searched(codeOf, user, code, t, found.value);
      pending := pending[id := LoginWith(secret, user.version, found.value)];
      return Continue;
    }

    /** Its update, and what the number of affected rows means. */
    method FinishLogin(id: nat) returns (reply: Reply)
      requires id in pending && pending[id].LoginWith?
      modifies this
      ensures Now() == After(old(Now()), Consume(id))
      ensures var p, u := old(pending)[id], old(user);
        if u.enabled && u.secret == p.secret && u.version == p.version && u.last < p.step
        then reply == Admitted(old(user).version) && user == old(user).(last := p.step)
        else reply == Denied && user == old(user)
    {
      var p := pending[id];
      pending := pending - {id};
      if user.enabled && user.secret == p.secret && user.last < p.step && user.version == p.version {
        user := user.(last := p.step);
        steps := steps + [p.step];
        logins := logins + [Login(p.step, p.version)];
        return Admitted(p.version);
      }
      return Denied;
    }

    /** TwoFAEnable from a session of the given version. */
    method SwitchOn(version: nat, secret: string, codeOf: (string, int) -> string, code: string, t: int)
      returns (reply: Reply)
      modifies this
      ensures reply.Admitted? ==> exists step ::
        step > -1 && Window(t, step) && codeOf(secret, step) == code
        && Now() == After(old(Now()), Enable(version, secret, step)) && user.enabled && user.last == step
      ensures reply.Denied? <==> |code| != 6 || forall c | Window(t, c) && c > -1 :: codeOf(secret, c) != code
      ensures reply.Conflict? <==> !reply.Denied? && (old(user).enabled || old(user).version != version)
      ensures reply.Admitted? || reply.Conflict? || reply.Denied?
      ensures !reply.Admitted? ==> Now() == old(Now())
    {
      var found := FindStep(c => codeOf(secret, c), code, t, -1);
      if found.None? {
        return Denied;
      }
      if !user.enabled && user.version == version {
        user := User(true, secret, found.value, version + 1);
        steps := [found.value];
        enables := enables + [version];
        return Admitted(version);
      }
      return Conflict;
    }

    /** TwoFADisable up to the update; the code may be one that was used before. */
    method BeginSwitchOff(id: nat, version: nat, codeOf: (string, int) -> string, code: string, t: int)
      returns (reply: Reply)
      requires id !in pending
      modifies this
      ensures reply.Continue? || reply.Denied?
      ensures reply.Continue? <==>
        old(user).enabled && |code| == 6 && exists c :: Window(t, c) && c > -1 && codeOf(old(user).secret, c) == code
      ensures Now() == if reply.Continue? then After(old(Now()), ReadForDisable(id, version)) else old(Now())
    {
      if !user.enabled {
        return Denied;
      }
      var secret := user.secret;
      var found := FindStep(c => codeOf(secret, c), code, t, -1);
      if found.None? {
        return Denied;
      }
      pending := pending[id := DisableWith(secret, version)];
      return Continue;
    }

    method FinishSwitchOff(id: nat) returns (reply: Reply)
      requires id in pending && pending[id].DisableWith?
      modifies this
      ensures Now() == After(old(Now()), Disable(id))
      ensures var p := old(pending)[id];
        if old(user).enabled && old(user).secret == p.secret && old(user).version == p.version
        then reply == Admitted(old(user).version) && !user.enabled && user.version == old(user).version + 1
        else reply == Conflict && user == old(user)
    {
      var p := pending[id];
      pending := pending - {id};
      if user.version == p.version && user.enabled && user.secret == p.secret {
        user := User(false, "", 0, user.version + 1);
        return Admitted(p.version);
      }
      return Conflict;
    }
  }
}
