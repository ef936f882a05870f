/** SOA serials: how the next one is chosen, and how the last one is found again in the zone file. */
module ZoneSerial {
  import opened Wrappers
  import opened Text

  const WORD := 0x1_0000_0000
  const HALF := 0x8000_0000

  type uint32 = n: nat | n < WORD

  // ---- The next serial ----

  datatype Date = Date(year: nat, month: nat, day: nat)

  predicate IsDate(d: Date) {
    1 <= d.month <= 12 && 1 <= d.day <= 31
  }

  /** yyyymmdd00, cut to 32 bits. */
  function Base(d: Date): uint32 {
    (d.year * 1_000_000 + d.month * 10_000 + d.day * 100) % WORD
  }

  /** nextSerial: counting on, or a new day. */
  function NextSerial(last: uint32, today: Date): uint32 {
    if last >= Base(today) then (last + 1) % WORD else Base(today)
  }

  /** Section 3.2 of RFC 1982 for 32 bits: `a` is greater than `b`. */
  predicate SerialGreater(a: uint32, b: uint32) {
    (a < b && b - a > HALF) || (a > b && a - b < HALF)
  }

  /** The new serial is greater than the old one exactly when the step to the day's base, if one is
      taken, is less than half the circle. */
  lemma NextIsGreaterExactly(last: uint32, today: Date)
    ensures SerialGreater(NextSerial(last, today), last) <==> last >= Base(today) || Base(today) - last < HALF
  {
    if last >= Base(today) && last + 1 < WORD {
      assert (last + 1) % WORD == last + 1;
    }
  }

  /** Through the year 2147 that is always so, whatever the clock did before; on no later date that 32
      bits can still hold does it work for a zone that has no serial yet. */
  lemma UntilTheYear2147(today: Date)
    requires IsDate(today) && today.year <= 4293
    ensures (forall last: uint32 :: SerialGreater(NextSerial(last, today), last)) <==> today.year <= 2147
  {
    assert Base(today) == today.year * 1_000_000 + today.month * 10_000 + today.day * 100;
    if today.year <= 2147 {
      forall last: uint32 ensures SerialGreater(NextSerial(last, today), last) {
        NextIsGreaterExactly(last, today);
      }
    } else {
      NextIsGreaterExactly(0, today);
    }
  }

  // ---- The zone file ----

  datatype Soa = Soa(primary: string, hostmaster: string, ttl: nat, refresh: nat, retry: nat, expire: nat, minimum: nat)

  function Dotted(s: string): string {
    if s == "" then "." else if HasSuffix(s, ".") then s else s + "."
  }

  function SoaHost(primary: string): string {
    Dotted(TrimSpace(primary))
  }

  /** The first @ becomes a dot. */
  function WithoutAt(s: string): string {
    if s == "" then "" else if s[0] == '@' then "." + s[1..] else [s[0]] + WithoutAt(s[1..])
  }

  function SoaMail(hostmaster: string): string {
    Dotted(WithoutAt(TrimSpace(hostmaster)))
  }

  const MARK := "; serial"

  function SoaLine(soa: Soa): string {
    "@   IN  SOA " + SoaHost(soa.primary) + " " + SoaMail(soa.hostmaster) + " ("
  }

  function SerialLine(serial: uint32): string {
    "    " + Decimal(serial) + "  " + MARK
  }

  /** The zone template; `rest` is what follows the serial. */
  function Rendered(soa: Soa, serial: uint32, rest: string): string {
    "$TTL " + Decimal(soa.ttl) + "\n" + (SoaLine(soa) + "\n" + (SerialLine(serial) + "\n" + rest))
  }

  /** strconv.ParseUint(s, 10, 32). */
  function ParseUint32(s: string): Option<uint32> {
    if s != "" && AllDigits(s) && Value(s) < WORD then Some(Value(s)) else None
  }

  function FirstNumber(words: seq<string>): Option<uint32> {
    if words == [] then None
    else if ParseUint32(words[0]).Some? then ParseUint32(words[0])
    else FirstNumber(words[1..])
  }

  function SerialIn(lines: seq<string>): uint32 {
    if lines == [] then 0
    else if Contains(lines[0], MARK) && FirstNumber(Fields(lines[0], 0)).Some?
    then FirstNumber(Fields(lines[0], 0)).value
    else SerialIn(lines[1..])
  }

  /** readZoneSerial. */
  function ReadSerial(file: string): uint32 {
    SerialIn(Split(file, '\n'))
  }

  /** The same with the source's loops. */
  method ReadZoneSerial(file: string) returns (serial: uint32)
    ensures serial == ReadSerial(file)
  {
    var lines, i := Split(file, '\n'), 0;
    while i < |lines|
      invariant 0 <= i <= |lines| && SerialIn(lines[i..]) == ReadSerial(file)
    {
      if Contains(lines[i], MARK) {
        var words, j := Fields(lines[i], 0), 0;
        while j < |words|
          invariant 0 <= j <= |words| && FirstNumber(words[j..]) == FirstNumber(words)
        {
          var n := ParseUint32(words[j]);
          if n.Some? {
            return n.value;
          }
          j := j + 1;
        }
      }
      i := i + 1;
    }
    return 0;
  }

  // ---- Reading back ----

  predicate Harmless(s: string) {
    ';' !in s && '\n' !in s
  }

  lemma {:induction false} HarmlessMail(s: string)
    requires Harmless(s)
    ensures Harmless(WithoutAt(s))
  {
    if s != "" && s[0] != '@' {
      HarmlessMail(s[1..]);
    }
  }

  lemma HarmlessSum(a: string, b: string)
    requires Harmless(a) && Harmless(b)
    ensures Harmless(a + b)
  {
  }

  lemma HarmlessDotted(s: string)
    requires Harmless(s)
    ensures Harmless(Dotted(s))
  {
    HarmlessSum(s, ".");
  }

  lemma HarmlessTrimmed(s: string)
    requires Harmless(s)
    ensures Harmless(TrimSpace(s))
  {
  }

  lemma HarmlessParts(head: string, host: string, mail: string)
    requires Harmless(head) && Harmless(host) && Harmless(mail)
    ensures Harmless(head + host + " " + mail + " (")
  {
    HarmlessSum(head, host);
    HarmlessSum(head + host, " ");
    HarmlessSum(head + host + " ", mail);
    HarmlessSum(head + host + " " + mail, " (");
  }

  lemma HarmlessLine(soa: Soa)
    requires Harmless(soa.primary) && Harmless(soa.hostmaster)
    ensures Harmless(SoaLine(soa))
  {
    HarmlessTrimmed(soa.primary);
    HarmlessDotted(TrimSpace(soa.primary));
    HarmlessTrimmed(soa.hostmaster);
    HarmlessMail(TrimSpace(soa.hostmaster));
    HarmlessDotted(WithoutAt(TrimSpace(soa.hostmaster)));
    HarmlessParts("@   IN  SOA ", SoaHost(soa.primary), SoaMail(soa.hostmaster));
  }

  lemma HarmlessNumber(n: nat)
    ensures Harmless(Decimal(n)) && IsWord(Decimal(n))
  {
    DecimalValue(n);
  }

  lemma NumberFirst(line: string, d: string, tail: string)
    requires IsWord(d) && line == "    " + d + " " + tail
    ensures Fields(line, 0) != [] && Fields(line, 0)[0] == d
  {
    assert line[4..4 + |d|] == d && line[4 + |d|] == ' ';
    forall k | 4 <= k < 4 + |d| ensures !IsSpace(line[k]) {
      assert line[k] == d[k - 4];
    }
    FieldsNext(line, 0, 4, 4 + |d|);
  }

  lemma MarkStands(line: string, d: string)
    requires line == "    " + d + "  " + MARK && Harmless(d)
    ensures Contains(line, MARK) && '\n' !in line
  {
    assert PartAt(line, 4 + |d| + 2, MARK);
  }

  /** The serial line carries the mark, and its first number is the serial. */
  lemma SerialLineReads(serial: uint32, line: string)
    requires line == SerialLine(serial)
    ensures Contains(line, MARK) && '\n' !in line && FirstNumber(Fields(line, 0)) == Some(serial)
  {
    var d := Decimal(serial);
    HarmlessNumber(serial);
    DecimalValue(serial);
    MarkStands(line, d);
    assert "    " + d + "  " + MARK == "    " + d + " " + (" " + MARK);
    NumberFirst(line, d, " " + MARK);
  }

  /** A line before the serial line is passed over. */
  lemma PassedOver(line: string, rest: string)
    requires Harmless(line)
    ensures ReadSerial(line + "\n" + rest) == ReadSerial(rest)
  {
    assert line + "\n" + rest == line + ['\n'] + rest;
    SplitFirst(line, '\n', rest);
    ContainsFirst(line, MARK);
  }

  /** Reading the zone that was just written gives the serial that was written. */
  lemma SerialReadsBack(soa: Soa, serial: uint32, rest: string)
    requires Harmless(soa.primary) && Harmless(soa.hostmaster)
    ensures ReadSerial(Rendered(soa, serial, rest)) == serial
  {
    var first, line := "$TTL " + Decimal(soa.ttl), SerialLine(serial);
    HarmlessNumber(soa.ttl);
    HarmlessLine(soa);
    PassedOver(first, SoaLine(soa) + "\n" + (line + "\n" + rest));
    PassedOver(SoaLine(soa), line + "\n" + rest);
    SerialLineReads(serial, line);
    assert line + "\n" + rest == line + ['\n'] + rest;
    SplitFirst(line, '\n', rest);
  }

  /** A zone written over an earlier one is newer to every secondary, whatever the clock shows. */
  lemma WritesAdvance(soa: Soa, serial: uint32, rest: string, today: Date, next: uint32)
    requires Harmless(soa.primary) && Harmless(soa.hostmaster) && IsDate(today) && today.year <= 2147
    requires next == NextSerial(ReadSerial(Rendered(soa, serial, rest)), today)
    ensures SerialGreater(next, serial)
  {
    SerialReadsBack(soa, serial, rest);
    UntilTheYear2147(today);
  }
}
