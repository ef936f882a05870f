/** TXT values in a zone file, and the DKIM key inside one. Strings are sequences of octets here. */
module TxtRecord {
  import opened Wrappers
  import opened Text

  const LIMIT := 255

  /** White space beyond ASCII, in UTF-8 (section 3 of RFC 3629). */
  predicate TwoOctetSpace(a: char, b: char) {
    a as int == 0xC2 && (b as int == 0x85 || b as int == 0xA0)
  }

  predicate ThreeOctetSpace(a: char, b: char, c: char) {
    var (x, y, z) := (a as int, b as int, c as int);
    (x == 0xE1 && y == 0x9A && z == 0x80) || (x == 0xE2 && y == 0x81 && z == 0x9F)
    || (x == 0xE2 && y == 0x80 && (0x80 <= z <= 0x8A || z == 0xA8 || z == 0xA9 || z == 0xAF))
    || (x == 0xE3 && y == 0x80 && z == 0x80)
  }

  predicate OneOctetSpace(a: char) {
    9 <= a as int <= 13 || a == ' '
  }

  /** The octets of the white space that begins the value, 0 for none. */
  function SpaceAhead(s: string): (n: nat)
    ensures n <= |s|
  {
    if |s| >= 1 && OneOctetSpace(s[0]) then 1
    else if |s| >= 2 && TwoOctetSpace(s[0], s[1]) then 2
    else if |s| >= 3 && ThreeOctetSpace(s[0], s[1], s[2]) then 3
    else 0
  }

  /** And of the one that ends it. */
  function SpaceBehind(s: string): (n: nat)
    ensures n <= |s|
  {
    var e := |s|;
    if e >= 1 && OneOctetSpace(s[e - 1]) then 1
    else if e >= 2 && TwoOctetSpace(s[e - 2], s[e - 1]) then 2
    else if e >= 3 && ThreeOctetSpace(s[e - 3], s[e - 2], s[e - 1]) then 3
    else 0
  }

  /** strings.TrimSpace, on octets. */
  function TrimOctets(s: string): (r: string)
    ensures SpaceAhead(r) == 0 && SpaceBehind(r) == 0
    decreases |s|
  {
    if SpaceAhead(s) > 0 then TrimOctets(s[SpaceAhead(s)..])
    else if SpaceBehind(s) > 0 then TrimOctets(s[..|s| - SpaceBehind(s)])
    else s
  }

  predicate IsInk(c: char) {
    '!' <= c <= '~'
  }

  lemma InkStays(x: string)
    requires x != "" && IsInk(x[0]) && IsInk(x[|x| - 1])
    ensures SpaceAhead(x) == 0 && SpaceBehind(x) == 0
  {
  }

  lemma BlankGoes(s: string, x: string)
    requires s == [' '] + x
    ensures TrimOctets(s) == TrimOctets(x)
  {
    assert s[0] == ' ' && SpaceAhead(s) == 1 && s[1..] == x;
  }

  /** A blank before a text with visible ASCII characters at both ends is all there is to trim. */
  lemma TrimsBlank(x: string)
    requires x != "" && IsInk(x[0]) && IsInk(x[|x| - 1])
    ensures TrimOctets(x) == x && TrimOctets(" " + x) == x
  {
    InkStays(x);
    BlankGoes(" " + x, x);
  }

  /** The value without quotes. */
  function Unquoted(s: string): (r: string)
    ensures '"' !in r && |r| <= |s|
    ensures forall c | c in r :: c in s
  {
    if s == "" then "" else (if s[0] == '"' then "" else [s[0]]) + Unquoted(s[1..])
  }

  function Chunks(t: string): (chunks: seq<string>)
    ensures chunks != []
  {
    if |t| <= LIMIT then [t] else [t[..LIMIT]] + Chunks(t[LIMIT..])
  }

  /** Character-strings in zone-file form. */
  function Presented(chunks: seq<string>): string {
    if chunks == [] then ""
    else "\"" + chunks[0] + "\"" + if |chunks| == 1 then "" else " " + Presented(chunks[1..])
  }

  /** txtQuote: a value that begins with a quote is left as it is. */
  function Quoted(s: string): string {
    var t := TrimOctets(s);
    if HasPrefix(t, "\"") then t else Presented(Chunks(Unquoted(t)))
  }

  method TxtQuote(s: string) returns (z: string)
    ensures z == Quoted(s)
  {
    var t := TrimOctets(s);
    if HasPrefix(t, "\"") {
      return t;
    }
    t := Unquoted(t);
    ghost var all := t;
    z := "";
    while |t| > LIMIT
      invariant z + Presented(Chunks(t)) == Presented(Chunks(all))
    {
      Leading(z, t);
      z := z + ("\"" + t[..LIMIT] + "\" ");
      t := t[LIMIT..];
    }
    z := z + ("\"" + t + "\"");
  }

  lemma Leading(z: string, t: string)
    requires |t| > LIMIT
    ensures z + Presented(Chunks(t)) == z + ("\"" + t[..LIMIT] + "\" ") + Presented(Chunks(t[LIMIT..]))
  {
    var rest := Chunks(t[LIMIT..]);
    assert ([t[..LIMIT]] + rest)[1..] == rest && |[t[..LIMIT]] + rest| > 1;
    Spaced(z, t[..LIMIT], Presented(rest));
  }

  lemma Spaced(z: string, c: string, more: string)
    ensures z + ("\"" + c + "\"" + (" " + more)) == z + ("\"" + c + "\" ") + more
  {
    assert "\" " == "\"" + " ";
  }

  // ---- A reader of that form ----

  function Concat(parts: seq<string>): string {
    if parts == [] then "" else parts[0] + Concat(parts[1..])
  }

  /** The position of the closing quote, or the end. */
  function Closing(z: string, i: nat): (e: nat)
    requires i <= |z|
    ensures i <= e <= |z|
    decreases |z| - i
  {
    if i == |z| || z[i] == '"' then i else Closing(z, i + 1)
  }

  /** A backslash would escape what follows it, and a newline ends the record. */
  predicate Readable(c: string) {
    '\\' !in c && '\n' !in c
  }

  /** Section 5.1 of RFC 1035 for quoted character-strings without escapes: from position `i` on, each
      between quotes, with a blank between them. */
  function ReadStrings(z: string, i: nat): Option<seq<string>>
    requires i <= |z|
    decreases |z| - i
  {
    if i == |z| || z[i] != '"' then None
    else
      var e := Closing(z, i + 1);
      if e == |z| || !Readable(z[i + 1..e]) then None
      else if e + 1 == |z| then Some([z[i + 1..e]])
      else if z[e + 1] != ' ' then None
      else
        var rest := ReadStrings(z, e + 2);
        if rest.None? then None else Some([z[i + 1..e]] + rest.value)
  }

  lemma {:induction false} ClosingFinds(z: string, i: nat, e: nat)
    requires i <= e < |z| && z[e] == '"' && forall k | i <= k < e :: z[k] != '"'
    ensures Closing(z, i) == e
    decreases e - i
  {
    if i < e {
      ClosingFinds(z, i + 1, e);
    }
  }

  predicate StringAt(z: string, i: nat, c: string) {
    i + |c| + 1 < |z| && z[i] == '"' && z[i + 1..i + 1 + |c|] == c && z[i + 1 + |c|] == '"'
  }

  /** From `i` on stand these strings between quotes, with a blank between them. */
  predicate StringsAt(z: string, i: nat, chunks: seq<string>)
    decreases |chunks|
  {
    chunks != [] && StringAt(z, i, chunks[0])
    && var e := i + 2 + |chunks[0]|;
       if |chunks| == 1 then e == |z| else e < |z| && z[e] == ' ' && StringsAt(z, e + 1, chunks[1..])
  }

  lemma StringParts(u: string, c: string, rest: string)
    requires u == "\"" + c + "\"" + rest
    ensures |u| == 2 + |c| + |rest| && u[0] == u[1 + |c|] == '"' && u[1..1 + |c|] == c && u[2 + |c|..] == rest
  {
  }

  lemma StringStands(z: string, i: nat, c: string, rest: string)
    requires i <= |z| && z[i..] == "\"" + c + "\"" + rest
    ensures StringAt(z, i, c) && z[i + 2 + |c|..] == rest
  {
    StringParts(z[i..], c, rest);
    TailSlice(z, i, 0, 0);
    TailSlice(z, i, 1, 1 + |c|);
    TailSlice(z, i, 1 + |c|, 1 + |c|);
    TailSlice(z, i, 2 + |c|, 2 + |c|);
  }

  /** What follows the first of the strings. */
  lemma FirstStringStands(z: string, i: nat, c: string, last: bool, more: string)
    requires i <= |z| && z[i..] == "\"" + c + "\"" + if last then "" else " " + more
    ensures StringAt(z, i, c)
    ensures var e := i + 2 + |c|;
      if last then e == |z| else e < |z| && z[e] == ' ' && z[e + 1..] == more
  {
    StringStands(z, i, c, if last then "" else " " + more);
    if !last {
      BlankStands(z, i + 2 + |c|, more);
    }
  }

  lemma {:induction false} PresentedStands(z: string, i: nat, chunks: seq<string>)
    requires i <= |z| && chunks != [] && z[i..] == Presented(chunks)
    ensures StringsAt(z, i, chunks)
    decreases |chunks|
  {
    FirstStringStands(z, i, chunks[0], |chunks| == 1, Presented(chunks[1..]));
    if |chunks| > 1 {
      PresentedStands(z, i + 3 + |chunks[0]|, chunks[1..]);
    }
  }

  lemma StringCloses(z: string, i: nat, c: string)
    requires StringAt(z, i, c) && '"' !in c
    ensures Closing(z, i + 1) == i + 1 + |c|
  {
    forall k | i + 1 <= k < i + 1 + |c| ensures z[k] != '"' {
      assert z[k] == z[i + 1..i + 1 + |c|][k - i - 1];
    }
    ClosingFinds(z, i + 1, i + 1 + |c|);
  }

  predicate AllReadable(chunks: seq<string>) {
    forall c | c in chunks :: Readable(c)
  }

  lemma ReadableRest(chunks: seq<string>)
    requires chunks != []
    ensures AllReadable(chunks) <==> Readable(chunks[0]) && AllReadable(chunks[1..])
  {
    assert forall c | c in chunks :: c == chunks[0] || c in chunks[1..];
  }

  lemma {:induction false} ReadsStrings(z: string, i: nat, chunks: seq<string>)
    requires i <= |z| && StringsAt(z, i, chunks) && forall c | c in chunks :: '"' !in c
    ensures ReadStrings(z, i) == if AllReadable(chunks) then Some(chunks) else None
    decreases |chunks|
  {
    StringCloses(z, i, chunks[0]);
    ReadableRest(chunks);
    assert [chunks[0]] + chunks[1..] == chunks;
    if |chunks| > 1 {
      ReadsStrings(z, i + 3 + |chunks[0]|, chunks[1..]);
    } else {
      assert [chunks[0]] == chunks;
    }
  }

  /** Chunks are short and together are the value. */
  lemma {:induction false} ChunksCut(t: string)
    ensures Concat(Chunks(t)) == t && forall c | c in Chunks(t) :: |c| <= LIMIT && forall x | x in c :: x in t
  {
    if |t| > LIMIT {
      var rest := Chunks(t[LIMIT..]);
      ChunksCut(t[LIMIT..]);
      assert ([t[..LIMIT]] + rest)[1..] == rest;
      assert t == t[..LIMIT] + t[LIMIT..];
      forall c | c in Chunks(t) ensures |c| <= LIMIT && forall x | x in c :: x in t {
        if c != t[..LIMIT] {
          assert c in rest;
        }
      }
    } else {
      assert Concat([t]) == t + Concat([t][1..]);
    }
  }

  lemma {:induction false} InSomeChunk(chunks: seq<string>)
    ensures AllReadable(chunks) <==> Readable(Concat(chunks))
  {
    if chunks != [] {
      InSomeChunk(chunks[1..]);
      ReadableRest(chunks);
    }
  }

  /** What a resolver gets from the written record: character-strings of at most 255 octets, and put
      together the trimmed value without quotes. Exactly a value with a backslash or a newline inside
      cannot be read. */
  lemma QuotedReadsBack(s: string)
    requires !HasPrefix(TrimOctets(s), "\"")
    ensures var parts, t := ReadStrings(Quoted(s), 0), Unquoted(TrimOctets(s));
      (parts.Some? <==> '\\' !in t && '\n' !in t)
      && (parts.Some? ==> Concat(parts.value) == t && forall p | p in parts.value :: |p| <= 255)
  {
    var t := Unquoted(TrimOctets(s));
    ChunksCut(t);
    InSomeChunk(Chunks(t));
    assert Quoted(s)[0..] == Quoted(s);
    forall c | c in Chunks(t) ensures '"' !in c {
      assert forall x | x in c :: x in t;
    }
    PresentedStands(Quoted(s), 0, Chunks(t));
    ReadsStrings(Quoted(s), 0, Chunks(t));
  }

  // ---- DKIM ----

  /** dkimTXT. */
  function DkimTxt(key: string): string {
    "v=DKIM1; k=rsa; p=" + key
  }

  predicate IsBlankChar(c: char) {
    c == ' ' || c == '\t' || c == '\n' || c == '\r'
  }

  function WithoutBlanks(s: string): string {
    if s == "" then "" else (if IsBlankChar(s[0]) then "" else [s[0]]) + WithoutBlanks(s[1..])
  }

  function KeyIn(parts: seq<string>): string {
    if parts == [] then ""
    else if HasPrefix(TrimOctets(parts[0]), "p=") then WithoutBlanks(TrimOctets(parts[0])[2..])
    else KeyIn(parts[1..])
  }

  /** txtdenP: the p= tag of a DKIM record. */
  function KeyOf(txt: string): string {
    KeyIn(Split(txt, ';'))
  }

  /** Base64 with its padding, section 4 of RFC 4648. */
  predicate IsBase64(c: char) {
    'A' <= c <= 'Z' || 'a' <= c <= 'z' || '0' <= c <= '9' || c == '+' || c == '/' || c == '='
  }

  lemma {:induction false} NoBlanks(s: string)
    requires forall c | c in s :: !IsBlankChar(c)
    ensures WithoutBlanks(s) == s
  {
    if s != "" {
      assert s[0] in s;
      assert forall c | c in s[1..] :: c in s;
      NoBlanks(s[1..]);
    }
  }

  lemma {:induction false} NoQuotes(s: string)
    requires '"' !in s
    ensures Unquoted(s) == s
  {
    if s != "" {
      assert s[0] in s;
      assert forall c | c in s[1..] :: c in s;
      NoQuotes(s[1..]);
    }
  }

  lemma DkimParts(key: string)
    requires ';' !in key
    ensures Split(DkimTxt(key), ';') == ["v=DKIM1", " k=rsa", " p=" + key]
  {
    var last := " p=" + key;
    SplitNoSep(last, ';');
    assert " k=rsa; p=" + key == " k=rsa" + [';'] + last;
    SplitFirst(" k=rsa", ';', last);
    assert DkimTxt(key) == "v=DKIM1" + [';'] + (" k=rsa; p=" + key);
    SplitFirst("v=DKIM1", ';', " k=rsa; p=" + key);
  }

  predicate IsKey(key: string) {
    forall c | c in key :: IsBase64(c)
  }

  lemma KeyIsPlain(key: string)
    requires IsKey(key)
    ensures ';' !in key && '"' !in key && Readable(key) && (forall c | c in key :: !IsBlankChar(c))
    ensures key != "" ==> IsInk(key[|key| - 1])
  {
    assert key != "" ==> key[|key| - 1] in key;
  }

  lemma TagTrims(key: string)
    requires IsKey(key)
    ensures TrimOctets(" p=" + key) == "p=" + key
  {
    KeyIsPlain(key);
    var tag := "p=" + key;
    assert tag[|tag| - 1] == if key == "" then '=' else key[|key| - 1];
    TrimsBlank(tag);
    assert " " + tag == " p=" + key;
  }

  /** The tags before the key are not p=. */
  lemma OtherTags(version: string, kind: string)
    requires version == "v=DKIM1" && kind == "k=rsa"
    ensures !HasPrefix(TrimOctets(version), "p=") && !HasPrefix(TrimOctets(" " + kind), "p=")
  {
    TrimsBlank(version);
    TrimsBlank(kind);
    assert version[0] == 'v' && kind[0] == 'k';
  }

  lemma ThirdPart(a: string, b: string, c: string, key: string)
    requires !HasPrefix(TrimOctets(a), "p=") && !HasPrefix(TrimOctets(b), "p=") && TrimOctets(c) == "p=" + key
    requires forall x | x in key :: !IsBlankChar(x)
    ensures KeyIn([a, b, c]) == key
  {
    NoBlanks(key);
    assert ("p=" + key)[2..] == key;
    assert [a, b, c][1..] == [b, c] && [b, c][1..] == [c];
    assert KeyIn([c]) == key;
    assert KeyIn([b, c]) == key;
  }

  /** The published record gives the key back. */
  lemma KeyReadsBack(key: string)
    requires IsKey(key)
    ensures KeyOf(DkimTxt(key)) == key
  {
    KeyIsPlain(key);
    DkimParts(key);
    TagTrims(key);
    OtherTags("v=DKIM1", "k=rsa");
    assert " " + "k=rsa" == " k=rsa";
    ThirdPart("v=DKIM1", " k=rsa", " p=" + key, key);
  }

  lemma TagsArePlain(tags: string)
    requires tags == "v=DKIM1; k=rsa; p="
    ensures Readable(tags) && '"' !in tags && tags != "" && tags[0] == 'v' && tags[|tags| - 1] == '='
  {
  }

  lemma DkimIsPlain(txt: string, tags: string, key: string)
    requires IsKey(key) && txt == tags + key && Readable(tags) && '"' !in tags
    requires tags != "" && tags[0] == 'v' && tags[|tags| - 1] == '='
    ensures TrimOctets(txt) == txt && Readable(txt) && '"' !in txt && !HasPrefix(txt, "\"")
  {
    KeyIsPlain(key);
    assert txt[0] == 'v' && txt[|txt| - 1] == if key == "" then '=' else key[|key| - 1];
    TrimsBlank(txt);
  }

  /** From the key to the zone file and back: quoting, cutting, joining and parsing lose nothing. */
  lemma KeySurvivesTheZone(key: string)
    requires IsKey(key)
    ensures var parts := ReadStrings(Quoted(DkimTxt(key)), 0);
      parts.Some? && KeyOf(Concat(parts.value)) == key
  {
    var txt := DkimTxt(key);
    var tags := "v=DKIM1; k=rsa; p=";
    TagsArePlain(tags);
    DkimIsPlain(txt, tags, key);
    QuotedReadsBack(txt);
    NoQuotes(txt);
    KeyReadsBack(key);
  }
}
