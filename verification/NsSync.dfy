/** Bringing the nameserver records of a zone in line with a pair of nameservers. */
module NsSync {
  import opened Wrappers
  import opened Text

  /** The records of one zone that matter: the values of its NS records at the apex, its A records by
      label, and its SOA row if it has one. */
  datatype Zone = Zone(ns: seq<string>, a: map<string, string>, soa: Option<string>)

  function LowerChar(c: char): char {
    if 'A' <= c <= 'Z' then (c as int + 32) as char else c
  }

  /** strings.ToLower for host names. */
  function Lower(s: string): (r: string)
    ensures |r| == |s|
  {
    if s == "" then "" else [LowerChar(s[0])] + Lower(s[1..])
  }

  /** strings.TrimSuffix(s, "."). */
  function WithoutDot(s: string): string {
    if HasSuffix(s, ".") then s[..|s| - 1] else s
  }

  function Normal(s: string): string {
    Lower(WithoutDot(s))
  }

  /** A host name as the settings store it. */
  predicate IsNormal(s: string) {
    s != "" && Normal(s) == s
  }

  // ---- Glue ----

  function LabelIn(n: string, z: string): Option<string> {
    if n == "" || z == "" then None
    else if n == z then Some("@")
    else if HasSuffix(n, "." + z) then Some(n[..|n| - |z| - 1])
    else None
  }

  /** icZoneEtiketi: the label of a nameserver that lies inside the zone, "@" for the apex. */
  function InZoneLabel(host: string, zone: string): Option<string> {
    LabelIn(Normal(TrimSpace(host)), Normal(TrimSpace(zone)))
  }

  /** Label, dot and zone make up the name of a host inside the zone, and of no other. */
  lemma LabelMeans(n: string, z: string, part: string)
    requires n != "" && z != "" && n != z
    ensures LabelIn(n, z) == Some(part) <==> n == part + "." + z
  {
    if LabelIn(n, z) == Some(part) {
      assert n == n[..|n| - |z| - 1] + n[|n| - |z| - 1..];
      assert part + ("." + z) == part + "." + z;
    }
    if n == part + "." + z {
      assert part + "." + z == part + ("." + z);
      assert n[|n| - |z| - 1..] == "." + z && n[..|n| - |z| - 1] == part;
    }
  }

  function GlueLabels(zone: string, ns1: string, ns2: string): set<string> {
    (if InZoneLabel(ns1, zone).Some? then {InZoneLabel(ns1, zone).value} else {})
    + (if InZoneLabel(ns2, zone).Some? then {InZoneLabel(ns2, zone).value} else {}) - {"@"}
  }

  /** The label makes up the name of one of the two nameservers when dot and zone are added to it. */
  ghost predicate IsGlue(zone: string, ns1: string, ns2: string, part: string) {
    var host := part + "." + Normal(TrimSpace(zone));
    part != "@" && Normal(TrimSpace(zone)) != "" && (host == Normal(TrimSpace(ns1)) || host == Normal(TrimSpace(ns2)))
  }

  lemma LabelIsGlue(host: string, zone: string, part: string)
    requires part != "@"
    ensures InZoneLabel(host, zone) == Some(part)
      <==> Normal(TrimSpace(zone)) != "" && part + "." + Normal(TrimSpace(zone)) == Normal(TrimSpace(host))
  {
    var n, z := Normal(TrimSpace(host)), Normal(TrimSpace(zone));
    if n != "" && z != "" && n != z {
      LabelMeans(n, z, part);
    } else {
      assert |part + "." + z| > |z|;
    }
  }

  lemma GlueLabelsMean(zone: string, ns1: string, ns2: string, part: string)
    ensures part in GlueLabels(zone, ns1, ns2) <==> IsGlue(zone, ns1, ns2, part)
  {
    if part != "@" {
      LabelIsGlue(ns1, zone, part);
      LabelIsGlue(ns2, zone, part);
    }
  }

  const OWN := {"ns1", "ns2"}

  function WithGlue(a: map<string, string>, labels: set<string>, ipv4: string): map<string, string> {
    if ipv4 == "" then a else a + map part | part in labels :: ipv4
  }

  /** GlueEsitle: addresses for the nameservers inside the zone, none for ns1 and ns2 otherwise. */
  function Glued(a: map<string, string>, labels: set<string>, ipv4: string): map<string, string> {
    WithGlue(a, labels, ipv4) - (OWN - labels)
  }

  /** Some label has not got the address. */
  predicate Lacks(a: map<string, string>, labels: set<string>, ipv4: string) {
    exists part | part in labels :: part !in a || a[part] != ipv4
  }

  lemma GluedMeans(a: map<string, string>, labels: set<string>, ipv4: string, t: map<string, string>)
    requires ipv4 != "" && forall part | part in labels :: part in t && t[part] == ipv4
    requires forall part | part !in labels :: (part in t <==> part in a) && (part in t ==> t[part] == a[part])
    ensures t == WithGlue(a, labels, ipv4) && (t != a <==> Lacks(a, labels, ipv4))
  {
    var w := WithGlue(a, labels, ipv4);
    assert w.Keys == a.Keys + labels;
    assert t.Keys == w.Keys by {
      forall part ensures part in t.Keys <==> part in w.Keys {
      }
    }
    if !Lacks(a, labels, ipv4) {
      assert t.Keys == a.Keys;
    }
  }

  // ---- The whole ----

  predicate RightNs(ns: seq<string>, ns1: string, ns2: string) {
    |ns| == 2 && forall d | d in ns :: Normal(d) == ns1 || Normal(d) == ns2
  }

  predicate RightSoa(soa: Option<string>, ns1: string) {
    soa.Some? && Lower(WithoutDot(soa.value)) == Lower(ns1)
  }

  function Synced(z: Zone, zone: string, ipv4: string, ns1: string, ns2: string): Zone {
    Zone(if RightNs(z.ns, ns1, ns2) then z.ns else [ns1, ns2],
         Glued(z.a, GlueLabels(zone, ns1, ns2), ipv4),
         if z.soa.None? || RightSoa(z.soa, ns1) then z.soa else Some(ns1))
  }

  class Records {
    const zone: string
    var ns: seq<string>
    var a: map<string, string>
    var soa: Option<string>

    function State(): Zone
      reads this
    {
      Zone(ns, a, soa)
    }

    constructor (zone: string, z: Zone)
      ensures this.zone == zone && State() == z
    {
      this.zone, ns, a, soa := zone, z.ns, z.a, z.soa;
    }

    method AddGlue(labels: set<string>, ipv4: string) returns (changed: bool)
      modifies this`a
      ensures a == WithGlue(old(a), labels, ipv4)
      ensures changed <==> a != old(a)
    {
      changed := false;
      if ipv4 != "" {
        var todo := labels;
        while todo != {}
          invariant todo <= labels
          invariant forall part | part in labels - todo :: part in a && a[part] == ipv4
          invariant forall part | part !in labels - todo ::
            (part in a <==> part in old(a)) && (part in a ==> a[part] == old(a)[part])
          invariant changed <==> Lacks(old(a), labels - todo, ipv4)
          decreases |todo|
        {
          var part :| part in todo;
          ghost var done := labels - todo;
          todo := todo - {part};
          assert labels - todo == done + {part};
          if part !in a || a[part] != ipv4 {
            a := a[part := ipv4];
            changed := true;
          }
        }
        assert labels - todo == labels;
        GluedMeans(old(a), labels, ipv4, a);
      }
    }

    method RemoveStale(labels: set<string>) returns (changed: bool)
      modifies this`a
      ensures a == old(a) - (OWN - labels)
      ensures changed <==> a != old(a)
    {
      var stale := set part | part in OWN && part in a && part !in labels;
      changed := stale != {};
      if changed {
        var part :| part in stale;
        assert part !in a - stale && part in a;
      }
      a := a - stale;
      assert a == old(a) - (OWN - labels);
    }

    /** GlueEsitle. */
    method SyncGlue(ipv4: string, ns1: string, ns2: string) returns (changed: bool)
      modifies this`a
      ensures a == Glued(old(a), GlueLabels(zone, ns1, ns2), ipv4)
      ensures changed <==> a != old(a)
    {
      var labels := GlueLabels(zone, ns1, ns2);
      changed := AddGlue(labels, ipv4);
      var removed := RemoveStale(labels);
      GlueChanges(old(a), labels, ipv4);
      changed := changed || removed;
    }

    method HasRightNs(ns1: string, ns2: string) returns (right: bool)
      ensures right <==> RightNs(ns, ns1, ns2)
    {
      var i := 0;
      right := |ns| == 2;
      while i < |ns|
        invariant 0 <= i <= |ns|
        invariant right <==> |ns| == 2 && forall k | 0 <= k < i :: Normal(ns[k]) == ns1 || Normal(ns[k]) == ns2
      {
        if Normal(ns[i]) != ns1 && Normal(ns[i]) != ns2 {
          right := false;
        }
        i := i + 1;
      }
    }

    method HasRightSoa(ns1: string) returns (right: bool)
      requires IsNormal(ns1)
      ensures right <==> RightSoa(soa, ns1)
    {
      var value := if soa.Some? then soa.value else "";
      NormalIsNotEmpty(ns1);
      right := Lower(WithoutDot(value)) == Lower(ns1);
    }

    /** nsKayitlariEsitle, with the result of its comparisons. */
    method SyncRows(ipv4: string, ns1: string, ns2: string) returns (right: bool, soaRight: bool, glueChanged: bool)
      requires IsNormal(ns1) && IsNormal(ns2)
      modifies this
      ensures (right <==> RightNs(old(ns), ns1, ns2)) && (soaRight <==> RightSoa(old(soa), ns1))
      ensures a == Glued(old(a), GlueLabels(zone, ns1, ns2), ipv4) && (glueChanged <==> a != old(a))
      ensures ns == if right then old(ns) else [ns1, ns2]
      ensures soa == if soaRight || old(soa).None? then old(soa) else Some(ns1)
      ensures (ns == old(ns) <==> right) && (soa.Some? ==> (soa == old(soa) <==> soaRight)) && (soaRight ==> soa.Some?)
    {
      WrongDiffers(ns, soa, ns1, ns2);
      right := HasRightNs(ns1, ns2);
      soaRight := HasRightSoa(ns1);
      glueChanged := SyncGlue(ipv4, ns1, ns2);
      if right && soaRight && !glueChanged {
        return;
      }
      WriteRows(right, soaRight, ns1, ns2);
    }

    method Sync(ipv4: string, ns1: string, ns2: string) returns (changed: bool)
      requires IsNormal(ns1) && IsNormal(ns2)
      modifies this
      ensures State() == Synced(old(State()), zone, ipv4, ns1, ns2)
      ensures changed <==> ns != old(ns) || a != old(a) || soa != old(soa) || soa.None?
      ensures forall part :: GlueRight(old(a), a, IsGlue(zone, ns1, ns2, part), ipv4, part)
      ensures soa.Some? ==> Normal(soa.value) == ns1
    {
      forall part {
        SoaAndGlueAreRight(State(), zone, ipv4, ns1, ns2, part);
      }
      var right, soaRight, glueChanged := SyncRows(ipv4, ns1, ns2);
      changed := !(right && soaRight && !glueChanged);
    }

    method WriteRows(right: bool, soaRight: bool, ns1: string, ns2: string)
      modifies this`ns, this`soa
      ensures ns == if right then old(ns) else [ns1, ns2]
      ensures soa == if soaRight || old(soa).None? then old(soa) else Some(ns1)
    {
      if !right {
        ns := [ns1, ns2];
      }
      if !soaRight && soa.Some? {
        soa := Some(ns1);
      }
    }
  }

  lemma GlueChanges(was: map<string, string>, labels: set<string>, ipv4: string)
    ensures var added := WithGlue(was, labels, ipv4);
      Glued(was, labels, ipv4) != was <==> added != was || added - (OWN - labels) != added
  {
    var added := WithGlue(was, labels, ipv4);
    if added - (OWN - labels) != added {
      var part :| part in added && part in OWN - labels;
      assert part in was && part !in Glued(was, labels, ipv4);
    }
  }

  lemma NormalIsNotEmpty(ns1: string)
    requires IsNormal(ns1)
    ensures Lower(WithoutDot("")) == "" && Lower(ns1) != "" && WithoutDot(ns1) == ns1
  {
  }

  /** What is written is what is wanted. */
  lemma WantedIsRight(ns1: string, ns2: string)
    requires IsNormal(ns1) && IsNormal(ns2)
    ensures RightNs([ns1, ns2], ns1, ns2) && RightSoa(Some(ns1), ns1)
  {
    NormalIsNotEmpty(ns1);
  }

  lemma WrongDiffers(ns: seq<string>, soa: Option<string>, ns1: string, ns2: string)
    requires IsNormal(ns1) && IsNormal(ns2)
    ensures !RightNs(ns, ns1, ns2) ==> ns != [ns1, ns2]
    ensures !RightSoa(soa, ns1) ==> soa != Some(ns1)
  {
    WantedIsRight(ns1, ns2);
  }

  // ---- What a run achieves ----

  function Apex(ns: seq<string>): set<string> {
    set d | d in ns :: Normal(d)
  }

  lemma ApexOfTwo(ns: seq<string>)
    requires |ns| == 2
    ensures Apex(ns) == {Normal(ns[0]), Normal(ns[1])}
  {
    assert ns[0] in ns && ns[1] in ns;
  }

  lemma TwoOf<T>(p: T, q: T, a: T, b: T)
    requires (p == a || p == b) && (q == a || q == b) && a != b
    ensures {p, q} == {a, b} <==> p != q
  {
    if p == q {
      assert a in {a, b} && b in {a, b};
    }
  }

  lemma DoubledPasses(ns: seq<string>, ns1: string, ns2: string)
    requires |ns| == 2 && Normal(ns[0]) == Normal(ns[1])
    ensures RightNs(ns, ns1, ns2) <==> Normal(ns[0]) == ns1 || Normal(ns[0]) == ns2
  {
    assert ns[0] in ns && ns[1] in ns;
  }

  lemma ApexUnlessDoubled(z: Zone, zone: string, ipv4: string, ns1: string, ns2: string)
    requires IsNormal(ns1) && IsNormal(ns2) && ns1 != ns2
    ensures Apex(Synced(z, zone, ipv4, ns1, ns2).ns) == {ns1, ns2}
      <==> !(RightNs(z.ns, ns1, ns2) && Normal(z.ns[0]) == Normal(z.ns[1]))
  {
    var ns := Synced(z, zone, ipv4, ns1, ns2).ns;
    WantedIsRight(ns1, ns2);
    assert RightNs(ns, ns1, ns2);
    ApexOfTwo(ns);
    TwoOf(Normal(ns[0]), Normal(ns[1]), ns1, ns2);
  }

  /** After a run the nameservers at the apex are exactly the wanted pair, unless the zone had one of
      them twice: two equal rows pass for the right pair. */
  lemma ApexIsThePair(z: Zone, zone: string, ipv4: string, ns1: string, ns2: string)
    requires IsNormal(ns1) && IsNormal(ns2) && ns1 != ns2
    ensures Apex(Synced(z, zone, ipv4, ns1, ns2).ns) == {ns1, ns2}
      <==> !(|z.ns| == 2 && Normal(z.ns[0]) == Normal(z.ns[1]) && (Normal(z.ns[0]) == ns1 || Normal(z.ns[0]) == ns2))
  {
    ApexUnlessDoubled(z, zone, ipv4, ns1, ns2);
    if |z.ns| == 2 && Normal(z.ns[0]) == Normal(z.ns[1]) {
      DoubledPasses(z.ns, ns1, ns2);
    }
  }

  /** What a run makes of the addresses: the nameservers inside the zone have the one of the panel, ns1 and
      ns2 have none if they are not nameservers of this zone, and all others are as they were. */
  ghost predicate GlueRight(a: map<string, string>, a': map<string, string>, glue: bool, ipv4: string, part: string) {
    if glue && ipv4 != "" then part in a' && a'[part] == ipv4
    else if !glue && part in {"ns1", "ns2"} then part !in a'
    else (part in a' <==> part in a) && (part in a ==> a'[part] == a[part])
  }

  lemma SoaIsRight(z: Zone, zone: string, ipv4: string, ns1: string, ns2: string)
    requires IsNormal(ns1) && IsNormal(ns2)
    ensures var soa := Synced(z, zone, ipv4, ns1, ns2).soa;
      (soa.Some? <==> z.soa.Some?) && (soa.Some? ==> Normal(soa.value) == ns1)
      && (z.soa.Some? && Normal(z.soa.value) == ns1 ==> soa == z.soa)
  {
    NormalIsNotEmpty(ns1);
  }

  /** After a run the SOA names the first nameserver, if the zone has an SOA row at all, and the addresses
      of the nameservers are right, label by label. */
  lemma SoaAndGlueAreRight(z: Zone, zone: string, ipv4: string, ns1: string, ns2: string, part: string)
    requires IsNormal(ns1) && IsNormal(ns2)
    ensures var soa := Synced(z, zone, ipv4, ns1, ns2).soa;
      (soa.Some? <==> z.soa.Some?) && (soa.Some? ==> Normal(soa.value) == ns1)
      && (z.soa.Some? && Normal(z.soa.value) == ns1 ==> soa == z.soa)
    ensures GlueRight(z.a, Synced(z, zone, ipv4, ns1, ns2).a, IsGlue(zone, ns1, ns2, part), ipv4, part)
  {
    SoaIsRight(z, zone, ipv4, ns1, ns2);
    GlueLabelsMean(zone, ns1, ns2, part);
    GluedRight(z.a, GlueLabels(zone, ns1, ns2), ipv4, part);
  }

  lemma GluedRight(a: map<string, string>, labels: set<string>, ipv4: string, part: string)
    ensures GlueRight(a, Glued(a, labels, ipv4), part in labels, ipv4, part)
  {
  }

  lemma GluedTwice(a: map<string, string>, labels: set<string>, ipv4: string)
    ensures Glued(Glued(a, labels, ipv4), labels, ipv4) == Glued(a, labels, ipv4)
  {
    var once := Glued(a, labels, ipv4);
    assert WithGlue(once, labels, ipv4) == once;
  }

  /** A second run changes nothing. So it reports no change, exactly when the zone has an SOA row. */
  lemma SecondRunIsIdle(z: Zone, zone: string, ipv4: string, ns1: string, ns2: string)
    requires IsNormal(ns1) && IsNormal(ns2)
    ensures Synced(Synced(z, zone, ipv4, ns1, ns2), zone, ipv4, ns1, ns2) == Synced(z, zone, ipv4, ns1, ns2)
  {
    WantedIsRight(ns1, ns2);
    GluedTwice(z.a, GlueLabels(zone, ns1, ns2), ipv4);
  }

  /** Both runs, as the code makes them. */
  method SyncTwice(r: Records, ipv4: string, ns1: string, ns2: string) returns (first: bool, second: bool)
    requires IsNormal(ns1) && IsNormal(ns2)
    modifies r
    ensures r.State() == Synced(old(r.State()), r.zone, ipv4, ns1, ns2)
    ensures second <==> old(r.State()).soa.None?
  {
    first := r.Sync(ipv4, ns1, ns2);
    SecondRunIsIdle(old(r.State()), r.zone, ipv4, ns1, ns2);
    second := r.Sync(ipv4, ns1, ns2);
  }
}
