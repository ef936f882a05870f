/** The systemd unit of one managed application: what it is rendered from, what the startup
    reconciler reads back from it, and when two units agree. */
module UnitFile {
  import opened Text

  datatype Runtime = Node | Python

  /** One row of app_runtimes; `release` is "" while the app runs from public_html. */
  datatype Config = Config(runtime: Runtime, interpreter: string, entrypoint: string, port: string, release: string)

  /** The site's number, name and system user, the interpreters installed for each runtime, and the
      digest that names a tenant's virtual environments. */
  datatype Site = Site(id: string, domain: string, user: string, node: seq<string>, python: seq<string>,
                       digest: string -> string)

  function Candidates(s: Site, r: Runtime): seq<string> {
    match r
    case Node => s.node
    case Python => s.python
  }

  /** selectedBinary: the first candidate when none is asked for, else the one asked for, else "". */
  function SelectedBinary(candidates: seq<string>, path: string): string {
    if candidates == [] then ""
    else if path == "" || path == candidates[0] then candidates[0]
    else SelectedBinary(candidates[1..], path)
  }

  function Home(s: Site): string {
    "/home/" + s.user
  }

  function WorkDir(s: Site, release: string): string {
    if release == "" then Home(s) + "/public_html" else Home(s) + "/" + release
  }

  function Entry(s: Site, c: Config): string {
    if c.release == "" then Home(s) + "/" + c.entrypoint
    else WorkDir(s, c.release) + "/" + TrimPrefix(c.entrypoint, "public_html/")
  }

  /** The interpreter the unit starts: a release's own virtual environment for Python, the tenant's
      one for a Python app with a recorded interpreter, and `binary` otherwise. */
  function Binary(s: Site, c: Config, binary: string, venv: string): string {
    if c.runtime.Python? && c.release != "" then WorkDir(s, c.release) + "/.venv/bin/python"
    else if c.runtime.Python? && c.interpreter != "" then venv
    else binary
  }

  /** What a unit file says that depends on the configuration. */
  datatype Unit = Unit(release: string, exec: string, port: string)

  /** venvPython's path for the recorded interpreter. */
  function Venv(s: Site, interpreter: string): string {
    Home(s) + "/.sanalcp/venv-" + s.id + "-" + s.digest(interpreter) + "/bin/python"
  }

  /** `unit` for a configuration, with `binary` the interpreter chosen for it. */
  function UnitFor(s: Site, c: Config, binary: string): Unit {
    Unit(c.release, Binary(s, c, binary, Venv(s, c.interpreter)) + " " + Entry(s, c), c.port)
  }

  /** The unit the reconciler expects for a committed row. */
  function Expected(s: Site, c: Config): Unit {
    UnitFor(s, c, SelectedBinary(Candidates(s, c.runtime), c.interpreter))
  }

  /** The row after a deployment of `release`: the release, and the interpreter if none was recorded. */
  function Deployed(c: Config, release: string, binary: string): Config {
    c.(release := release, interpreter := if c.interpreter == "" then binary else c.interpreter)
  }

  lemma {:induction false} SelectedBinaryStable(candidates: seq<string>, path: string)
    requires "" !in candidates
    requires SelectedBinary(candidates, path) != ""
    ensures SelectedBinary(candidates, path) in candidates
    ensures path != "" ==> SelectedBinary(candidates, path) == path
    ensures SelectedBinary(candidates, SelectedBinary(candidates, path)) == SelectedBinary(candidates, path)
  {
    if path != "" && path != candidates[0] {
      SelectedBinaryStable(candidates[1..], path);
    }
  }

  /** Recording the interpreter does not move the unit: the unit a deployment writes, rendered from
      the row as it was, is the one the reconciler expects of the row as committed. */
  lemma DeployedUnitIsExpected(s: Site, c: Config, release: string)
    requires release != "" && "" !in Candidates(s, c.runtime)
    requires SelectedBinary(Candidates(s, c.runtime), c.interpreter) != ""
    ensures var binary := SelectedBinary(Candidates(s, c.runtime), c.interpreter);
            UnitFor(s, c.(release := release), binary) == Expected(s, Deployed(c, release, binary))
  {
    SelectedBinaryStable(Candidates(s, c.runtime), c.interpreter);
  }

  /** The unit file's lines before, at and after the two directives that are read back. */
  function UnitHead(s: Site): (r: seq<string>)
    ensures forall l | l in r :: l == "" || (l[0] != 'W' && l[0] != 'E')
    ensures '\n' !in s.domain && '\n' !in s.user ==> forall l | l in r :: '\n' !in l
  {
    ["[Unit]", "Description=SanalCP app for " + s.domain, "After=network.target", "", "[Service]", "Type=simple",
     "User=" + s.user, "Group=" + s.user, "Slice=sanal-" + s.user + ".slice"]
  }

  function UnitEnvironment(u: Unit): (r: seq<string>)
    ensures '\n' !in u.port ==> forall l | l in r :: '\n' !in l
  {
    ["Environment=NODE_ENV=production", "Environment=PORT=" + u.port, "Environment=HOST=127.0.0.1"]
  }

  function UnitPolicy(): (r: seq<string>)
    ensures forall l | l in r :: '\n' !in l
  {
    ["Restart=on-failure", "RestartSec=5", "TimeoutStopSec=30", "NoNewPrivileges=true", "PrivateTmp=true"]
  }

  function UnitInstall(s: Site): (r: seq<string>)
    ensures '\n' !in s.user ==> forall l | l in r :: '\n' !in l
  {
    ["ProtectSystem=strict", "ProtectHome=read-only", "ReadWritePaths=" + Home(s), "", "[Install]",
     "WantedBy=multi-user.target"]
  }

  function UnitTail(s: Site, u: Unit): (r: seq<string>)
    ensures '\n' !in s.user && '\n' !in u.port ==> forall l | l in r :: '\n' !in l
  {
    UnitEnvironment(u) + UnitPolicy() + UnitInstall(s)
  }

  function UnitLines(s: Site, u: Unit): seq<string> {
    UnitHead(s) + (["WorkingDirectory" + "=" + WorkDir(s, u.release), "ExecStart" + "=" + u.exec] + UnitTail(s, u))
  }

  function Render(s: Site, u: Unit): string {
    Terminated(UnitLines(s, u))
  }

  /** The value of the first line that starts with `key=`, else "". */
  function FirstDirective(lines: seq<string>, key: string): string {
    if lines == [] then ""
    else if HasPrefix(lines[0], key + "=") then TrimPrefix(lines[0], key + "=")
    else FirstDirective(lines[1..], key)
  }

  /** unitDirective. */
  function UnitDirective(body: string, key: string): string {
    FirstDirective(Split(body, '\n'), key)
  }

  /** unitNeedsRecovery: it reads two directives of the text, not the whole text. */
  predicate UnitNeedsRecovery(current: string, expected: string, workDir: string, pending: bool) {
    pending || UnitDirective(current, "WorkingDirectory") != workDir
    || UnitDirective(current, "ExecStart") != UnitDirective(expected, "ExecStart")
  }

  /** No part of the unit can end a line early. */
  predicate OneLiners(s: Site, u: Unit) {
    '\n' !in s.domain && '\n' !in s.user && '\n' !in u.release && '\n' !in u.exec && '\n' !in u.port
  }

  /** Two units agree when they name the same release and start the same command. */
  predicate Agrees(u: Unit, v: Unit) {
    u.release == v.release && u.exec == v.exec
  }

  lemma {:induction false} SkipLines(head: seq<string>, rest: seq<string>, key: string)
    requires key != ""
    requires forall l | l in head :: l == "" || l[0] != key[0]
    ensures FirstDirective(head + rest, key) == FirstDirective(rest, key)
  {
    if head == [] {
      assert head + rest == rest;
    } else {
      assert head[0] in head && (key + "=")[0] == key[0];
      assert (head + rest)[1..] == head[1..] + rest;
      SkipLines(head[1..], rest, key);
    }
  }

  lemma FoundAtOnce(value: string, rest: seq<string>, key: string)
    ensures FirstDirective([key + "=" + value] + rest, key) == value
  {
    assert key + "=" + value == (key + "=") + value;
    assert ([key + "=" + value] + rest)[0] == key + "=" + value;
  }

  /** Two directives in any file of lines, with nothing above them that starts with their letters,
      are read back from the file's text. */
  lemma ReadBackBetween(head: seq<string>, k: string, v: string, m: string, w: string, tail: seq<string>)
    requires k != "" && m != "" && k[0] != m[0]
    requires forall l | l in head :: l == "" || (l[0] != k[0] && l[0] != m[0])
    requires (forall l | l in head :: '\n' !in l) && (forall l | l in tail :: '\n' !in l)
    requires '\n' !in k && '\n' !in m && '\n' !in v && '\n' !in w
    ensures var body := Terminated(head + ([k + "=" + v, m + "=" + w] + tail));
            UnitDirective(body, k) == v && UnitDirective(body, m) == w
  {
    var a, b, rest := k + "=" + v, m + "=" + w, tail + [""];
    var lines := head + ([a, b] + tail);
    assert forall l | l in lines :: l in head || l == a || l == b || l in tail;
    SplitTerminated(lines);
    assert lines + [""] == head + ([a] + ([b] + rest));
    assert lines + [""] == (head + [a]) + ([b] + rest);
    SkipLines(head, [a] + ([b] + rest), k);
    FoundAtOnce(v, [b] + rest, k);
    assert a[0] == k[0];
    SkipLines(head + [a], [b] + rest, m);
    FoundAtOnce(w, rest, m);
  }

  /** Each of the two directives is read back from the rendered text, whatever the site is called. */
  lemma DirectivesReadBack(s: Site, u: Unit)
    requires OneLiners(s, u)
    ensures UnitDirective(Render(s, u), "WorkingDirectory") == WorkDir(s, u.release)
    ensures UnitDirective(Render(s, u), "ExecStart") == u.exec
  {
    KeysReadBack(s, u, "WorkingDirectory", "ExecStart");
  }

  lemma KeysReadBack(s: Site, u: Unit, k: string, m: string)
    requires OneLiners(s, u) && |k| > 0 && |m| > 0 && k[0] == 'W' && m[0] == 'E' && '\n' !in k && '\n' !in m
    ensures var directives := [k + "=" + WorkDir(s, u.release), m + "=" + u.exec];
            var body := Terminated(UnitHead(s) + (directives + UnitTail(s, u)));
            UnitDirective(body, k) == WorkDir(s, u.release) && UnitDirective(body, m) == u.exec
  {
    ReadBackBetween(UnitHead(s), k, WorkDir(s, u.release), m, u.exec, UnitTail(s, u));
  }

  /** What the rendered text of a deployment starts, and where: the entry file of the release, in its
      directory, under the interpreter chosen or, for Python, that of the release itself. Without a release
      it is the one in the web root. */
  lemma TextStartsTheRelease(s: Site, c: Config, binary: string, rest: string)
    requires OneLiners(s, UnitFor(s, c, binary))
    requires c.entrypoint == "public_html/" + rest || (c.entrypoint == rest && !HasPrefix(rest, "public_html/"))
    ensures var body, home := Render(s, UnitFor(s, c, binary)), "/home/" + s.user;
      if c.release == "" then
        UnitDirective(body, "WorkingDirectory") == home + "/public_html"
        && (c.runtime.Node? ==> UnitDirective(body, "ExecStart") == binary + " " + (home + "/" + c.entrypoint))
      else
        var dir := home + "/" + c.release;
        UnitDirective(body, "WorkingDirectory") == dir
        && UnitDirective(body, "ExecStart")
           == (if c.runtime.Python? then dir + "/.venv/bin/python" else binary) + " " + (dir + "/" + rest)
  {
    DirectivesReadBack(s, UnitFor(s, c, binary));
    assert HasPrefix(c.entrypoint, "public_html/") ==> c.entrypoint[|"public_html/"|..] == rest;
  }

  /** A release directory name as releasePath accepts it: never the web root itself. */
  predicate ReleaseName(r: string) {
    r == "" || (r != "public_html" && '\n' !in r)
  }

  lemma SameAfter(h: string, a: string, b: string)
    requires h + a == h + b
    ensures a == b
  {
    assert a == (h + a)[|h|..] && b == (h + b)[|h|..];
  }

  lemma WorkDirNames(s: Site, r: string, q: string)
    requires ReleaseName(r) && ReleaseName(q)
    ensures WorkDir(s, r) == WorkDir(s, q) <==> r == q
  {
    if WorkDir(s, r) == WorkDir(s, q) {
      var h := Home(s) + "/";
      var a, b := if r == "" then "public_html" else r, if q == "" then "public_html" else q;
      assert WorkDir(s, r) == h + a && WorkDir(s, q) == h + b;
      SameAfter(h, a, b);
    }
  }

  /** The reconciler's test on the file's text decides, exactly, whether there is a marker or the
      unit and the committed row disagree on the release or the command. */
  lemma RecoveryTestIsExact(s: Site, current: Unit, expected: Unit, pending: bool)
    requires OneLiners(s, current) && OneLiners(s, expected)
    requires ReleaseName(current.release) && ReleaseName(expected.release)
    ensures UnitNeedsRecovery(Render(s, current), Render(s, expected), WorkDir(s, expected.release), pending)
            <==> pending || !Agrees(current, expected)
  {
    DirectivesReadBack(s, current);
    DirectivesReadBack(s, expected);
    WorkDirNames(s, current.release, expected.release);
  }

  /** What the test does not see: a unit left on another port agrees all the same. */
  lemma PortIsNotCompared(s: Site, u: Unit, port: string)
    requires OneLiners(s, u) && '\n' !in port && ReleaseName(u.release)
    ensures !UnitNeedsRecovery(Render(s, u), Render(s, u.(port := port)), WorkDir(s, u.release), false)
  {
    RecoveryTestIsExact(s, u, u.(port := port), false);
  }
}
