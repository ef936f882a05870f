/** The parts of Go's `strings` package that the modelled code relies on.
    A string is a sequence of code points. */
module Text {

  /** strings.HasPrefix. */
  predicate HasPrefix(s: string, p: string) {
    p <= s
  }

  /** strings.TrimPrefix. */
  function TrimPrefix(s: string, p: string): string {
    if p <= s then s[|p|..] else s
  }

  /** strings.HasSuffix. */
  predicate HasSuffix(s: string, p: string) {
    |p| <= |s| && s[|s| - |p|..] == p
  }

  /** strings.Split(s, sep) for a one-character separator. */
  function Split(s: string, sep: char): (parts: seq<string>)
    ensures |parts| >= 1
    ensures forall p | p in parts :: sep !in p
  {
    if s == "" then [""]
    else
      var rest := Split(s[1..], sep);
      if s[0] == sep then [""] + rest else [[s[0]] + rest[0]] + rest[1..]
  }

  lemma {:induction false} SplitNoSep(a: string, sep: char)
    requires sep !in a
    ensures Split(a, sep) == [a]
  {
    if a == "" {
    } else {
      SplitNoSep(a[1..], sep);
      assert [a[0]] + a[1..] == a;
    }
  }

  /** The first separator ends the first part. */
  lemma {:induction false} SplitFirst(a: string, sep: char, b: string)
    requires sep !in a
    ensures Split(a + [sep] + b, sep) == [a] + Split(b, sep)
  {
    var s := a + [sep] + b;
    if a == "" {
      assert s[1..] == b;
      assert Split(s, sep) == [""] + Split(b, sep);
    } else {
      assert s[1..] == a[1..] + [sep] + b;
      SplitFirst(a[1..], sep, b);
      assert [a[0]] + a[1..] == a;
    }
  }

  /** Every line followed by a newline: how the panel's writers lay a file out. */
  function Terminated(lines: seq<string>): string {
    if lines == [] then "" else lines[0] + "\n" + Terminated(lines[1..])
  }

  /** Splitting a newline-terminated file gives its lines back, and one empty tail. */
  lemma {:induction false} SplitTerminated(lines: seq<string>)
    requires forall l | l in lines :: '\n' !in l
    ensures Split(Terminated(lines), '\n') == lines + [""]
  {
    if lines == [] {
    } else {
      SplitTerminated(lines[1..]);
      SplitFirst(lines[0], '\n', Terminated(lines[1..]));
      assert lines[0] + "\n" + Terminated(lines[1..]) == lines[0] + ['\n'] + Terminated(lines[1..]);
      assert [lines[0]] + (lines[1..] + [""]) == lines + [""];
    }
  }

  /** unicode.IsSpace. */
  predicate IsSpace(c: char) {
    var n := c as int;
    (9 <= n <= 13) || n == 32 || n == 0x85 || n == 0xA0 || n == 0x1680 || (0x2000 <= n <= 0x200A)
    || n == 0x2028 || n == 0x2029 || n == 0x202F || n == 0x205F || n == 0x3000
  }

  predicate Blank(s: string) {
    forall c | c in s :: IsSpace(c)
  }

  /** The first character from `i` on that is not white space, or the end. */
  function SkipSpace(s: string, i: nat): (e: nat)
    requires i <= |s|
    ensures i <= e <= |s| && (e == |s| || !IsSpace(s[e]))
    decreases |s| - i
  {
    if i < |s| && IsSpace(s[i]) then SkipSpace(s, i + 1) else i
  }

  /** The end of what is left of `s[..i]` without the white space behind it. */
  function DropSpace(s: string, i: nat): (e: nat)
    requires i <= |s|
    ensures e <= i && (e == 0 || !IsSpace(s[e - 1]))
  {
    if 0 < i && IsSpace(s[i - 1]) then DropSpace(s, i - 1) else i
  }

  /** strings.TrimSpace. */
  function TrimSpace(s: string): string {
    var first, last := SkipSpace(s, 0), DropSpace(s, |s|);
    if first <= last then s[first..last] else ""
  }

  /** No white space at either end. */
  predicate Trimmed(s: string) {
    s == "" || (!IsSpace(s[0]) && !IsSpace(s[|s| - 1]))
  }

  lemma {:induction false} SkipsOnlySpace(s: string, i: nat, k: nat)
    requires i <= |s| && i <= k < SkipSpace(s, i)
    ensures IsSpace(s[k])
    decreases k - i
  {
    if i < k {
      SkipsOnlySpace(s, i + 1, k);
    }
  }

  lemma {:induction false} DropsOnlySpace(s: string, i: nat, k: nat)
    requires i <= |s| && DropSpace(s, i) <= k < i
    ensures IsSpace(s[k])
  {
    if k < i - 1 {
      DropsOnlySpace(s, i - 1, k);
    }
  }

  /** Trimming leaves a text with no white space at either end, and exactly the texts of that kind
      as they are. */
  lemma TrimSpaceTrims(s: string)
    ensures Trimmed(TrimSpace(s)) && |TrimSpace(s)| <= |s|
    ensures TrimSpace(s) == s <==> Trimmed(s)
  {
  }

  lemma TrimSpaceBlank(s: string)
    ensures TrimSpace(s) == "" <==> Blank(s)
  {
    var first, last := SkipSpace(s, 0), DropSpace(s, |s|);
    if TrimSpace(s) == "" {
      forall k | 0 <= k < |s| ensures IsSpace(s[k]) {
        if k < first { SkipsOnlySpace(s, 0, k); } else { DropsOnlySpace(s, |s|, k); }
      }
    } else {
      assert s[first] in s && first < last;
    }
  }

  lemma {:induction false} SkipFinds(s: string, i: nat, e: nat)
    requires i <= e < |s| && !IsSpace(s[e]) && forall k | i <= k < e :: IsSpace(s[k])
    ensures SkipSpace(s, i) == e
    decreases e - i
  {
    if i < e {
      SkipFinds(s, i + 1, e);
    }
  }

  lemma {:induction false} DropFinds(s: string, i: nat, e: nat)
    requires 0 < e <= i <= |s| && !IsSpace(s[e - 1]) && forall k | e <= k < i :: IsSpace(s[k])
    ensures DropSpace(s, i) == e
  {
    if e < i {
      DropFinds(s, i - 1, e);
    }
  }

  /** White space around a trimmed text is what trimming takes away. */
  lemma TrimPadded(gap: string, x: string, tail: string)
    requires Blank(gap) && Blank(tail) && x != "" && Trimmed(x)
    ensures TrimSpace(gap + x + tail) == x
  {
    var s, a, b := gap + x + tail, |gap|, |gap| + |x|;
    assert s[a] == x[0] && s[b - 1] == x[|x| - 1] && s[a..b] == x;
    forall k | 0 <= k < a ensures IsSpace(s[k]) {
      assert s[k] == gap[k] && gap[k] in gap;
    }
    forall k | b <= k < |s| ensures IsSpace(s[k]) {
      assert s[k] == tail[k - b] && tail[k - b] in tail;
    }
    SkipFinds(s, 0, a);
    DropFinds(s, |s|, b);
  }

  /** The end of the word that starts at `i`. */
  function WordEnd(s: string, i: nat): (e: nat)
    requires i <= |s|
    ensures i <= e <= |s| && (e == |s| || IsSpace(s[e]))
    decreases |s| - i
  {
    if i < |s| && !IsSpace(s[i]) then WordEnd(s, i + 1) else i
  }

  /** strings.Fields, from position `i` on. */
  function Fields(s: string, i: nat): (words: seq<string>)
    requires i <= |s|
    decreases |s| - i
  {
    var a := SkipSpace(s, i);
    if a == |s| then []
    else
      var b := WordEnd(s, a);
      [s[a..b]] + Fields(s, b)
  }

  predicate IsWord(w: string) {
    w != "" && forall c | c in w :: !IsSpace(c)
  }

  lemma {:induction false} WordFinds(s: string, i: nat, e: nat)
    requires i <= e <= |s| && (e == |s| || IsSpace(s[e])) && forall k | i <= k < e :: !IsSpace(s[k])
    ensures WordEnd(s, i) == e
    decreases e - i
  {
    if i < e {
      WordFinds(s, i + 1, e);
    }
  }

  lemma {:induction false} WordIsInk(s: string, i: nat, k: nat)
    requires i <= |s| && i <= k < WordEnd(s, i)
    ensures !IsSpace(s[k])
    decreases k - i
  {
    if i < k {
      WordIsInk(s, i + 1, k);
    }
  }

  /** What fields consist of. */
  lemma {:induction false} FieldsAreWords(s: string, i: nat)
    requires i <= |s|
    ensures forall w | w in Fields(s, i) :: IsWord(w)
    decreases |s| - i
  {
    var a := SkipSpace(s, i);
    if a < |s| {
      var b := WordEnd(s, a);
      forall c | c in s[a..b] ensures !IsSpace(c) {
        var k :| 0 <= k < b - a && s[a..b][k] == c;
        WordIsInk(s, a, a + k);
      }
      FieldsAreWords(s, b);
    }
  }

  /** The next word, with the white space before it. */
  lemma FieldsNext(s: string, i: nat, a: nat, b: nat)
    requires i <= a < b <= |s| && (b == |s| || IsSpace(s[b]))
    requires (forall k | i <= k < a :: IsSpace(s[k])) && forall k | a <= k < b :: !IsSpace(s[k])
    ensures Fields(s, i) == [s[a..b]] + Fields(s, b)
  {
    SkipFinds(s, i, a);
    WordFinds(s, a, b);
  }

  /** strings.Join(words, " "). */
  function Join(words: seq<string>): string {
    if words == [] then "" else if |words| == 1 then words[0] else words[0] + " " + Join(words[1..])
  }

  predicate WordAt(s: string, i: nat, w: string) {
    w != "" && i + |w| <= |s| && s[i..i + |w|] == w && forall k | i <= k < i + |w| :: !IsSpace(s[k])
  }

  /** From `i` on the text consists of these words with single blanks between them. */
  predicate WordsAt(s: string, i: nat, words: seq<string>)
    decreases |words|
  {
    if words == [] then i == |s|
    else
      var e := i + |words[0]|;
      WordAt(s, i, words[0])
      && (if |words| == 1 then e == |s| else e < |s| && s[e] == ' ' && WordsAt(s, e + 1, words[1..]))
  }

  /** Parts of what is left of a string. */
  lemma TailSlice(s: string, i: nat, a: nat, b: nat)
    requires a <= b && i + b <= |s|
    ensures s[i..][a..b] == s[i + a..i + b] && s[i..][a..] == s[i + a..]
    ensures i + a < |s| ==> s[i..][a] == s[i + a]
  {
  }

  lemma WordStands(s: string, i: nat, w: string, rest: string)
    requires i <= |s| && IsWord(w) && s[i..] == w + rest
    ensures WordAt(s, i, w) && s[i + |w|..] == rest
  {
    TailSlice(s, i, 0, |w|);
    TailSlice(s, i, |w|, |w|);
    assert (w + rest)[0..|w|] == w && (w + rest)[|w|..] == rest;
    forall k | i <= k < i + |w| ensures !IsSpace(s[k]) {
      assert s[k] == s[i..i + |w|][k - i];
    }
  }

  lemma BlankStands(s: string, e: nat, rest: string)
    requires e <= |s| && s[e..] == " " + rest
    ensures e < |s| && s[e] == ' ' && s[e + 1..] == rest
  {
    TailSlice(s, e, 0, 0);
    TailSlice(s, e, 1, 1);
    assert (" " + rest)[1..] == rest;
  }

  lemma JoinFirst(words: seq<string>)
    requires words != []
    ensures Join(words) == words[0] + if |words| == 1 then "" else " " + Join(words[1..])
  {
  }

  /** What follows the first of joined words. */
  lemma FirstWordStands(s: string, i: nat, w: string, last: bool, more: string)
    requires i <= |s| && IsWord(w) && s[i..] == w + if last then "" else " " + more
    ensures WordAt(s, i, w)
    ensures if last then i + |w| == |s| else i + |w| < |s| && s[i + |w|] == ' ' && s[i + |w| + 1..] == more
  {
    WordStands(s, i, w, if last then "" else " " + more);
    if !last {
      BlankStands(s, i + |w|, more);
    }
  }

  lemma {:induction false} JoinStands(s: string, i: nat, words: seq<string>)
    requires i <= |s| && s[i..] == Join(words) && forall w | w in words :: IsWord(w)
    ensures WordsAt(s, i, words)
    decreases |words|
  {
    if words != [] {
      JoinFirst(words);
      FirstWordStands(s, i, words[0], |words| == 1, Join(words[1..]));
      if |words| > 1 {
        JoinStands(s, i + |words[0]| + 1, words[1..]);
      }
    }
  }

  lemma OneWord(s: string, i: nat, w: string, e: nat)
    requires WordAt(s, i, w) && e == i + |w| && (e < |s| ==> s[e] == ' ')
    ensures e == |s| ==> Fields(s, i) == [w]
    ensures e < |s| ==> Fields(s, i) == [w] + Fields(s, e + 1)
  {
    FieldsNext(s, i, i, e);
    if e < |s| {
      SpaceSkipped(s, e);
    }
  }

  lemma {:induction false} FieldsOfWords(s: string, i: nat, words: seq<string>)
    requires i <= |s| && WordsAt(s, i, words)
    ensures Fields(s, i) == words
    decreases |words|
  {
    if words != [] {
      OneWord(s, i, words[0], i + |words[0]|);
      if |words| > 1 {
        FieldsOfWords(s, i + |words[0]| + 1, words[1..]);
      }
    }
  }

  /** Splitting joined words gives them back. */
  lemma FieldsOfJoin(words: seq<string>)
    requires forall w | w in words :: IsWord(w)
    ensures Fields(Join(words), 0) == words
  {
    var s := Join(words);
    assert s[0..] == s;
    JoinStands(s, 0, words);
    FieldsOfWords(s, 0, words);
  }

  lemma SpaceSkipped(s: string, b: nat)
    requires b < |s| && s[b] == ' '
    ensures Fields(s, b) == Fields(s, b + 1)
  {
  }

  predicate PartAt(s: string, i: int, part: string) {
    0 <= i && i + |part| <= |s| && s[i..i + |part|] == part
  }

  /** strings.Contains. */
  predicate Contains(s: string, part: string) {
    exists i | 0 <= i <= |s| :: PartAt(s, i, part)
  }

  lemma ContainsFirst(s: string, part: string)
    requires part != "" && part[0] !in s
    ensures !Contains(s, part)
  {
    forall i | 0 <= i <= |s| ensures !PartAt(s, i, part) {
    }
  }

  // ---- Decimal numbers ----

  function Digit(n: nat): char
    requires n < 10
  {
    ('0' as int + n) as char
  }

  /** strconv.FormatUint(n, 10). */
  function Decimal(n: nat): string {
    if n < 10 then [Digit(n)] else Decimal(n / 10) + [Digit(n % 10)]
  }

  predicate IsDigit(c: char) {
    '0' <= c <= '9'
  }

  predicate AllDigits(s: string) {
    forall k | 0 <= k < |s| :: IsDigit(s[k])
  }

  function Value(s: string): nat
    requires AllDigits(s)
  {
    if s == "" then 0 else Value(s[..|s| - 1]) * 10 + (s[|s| - 1] as int - '0' as int)
  }

  lemma {:induction false} DecimalValue(n: nat)
    ensures Decimal(n) != "" && AllDigits(Decimal(n)) && Value(Decimal(n)) == n
  {
    if n < 10 {
      assert Decimal(n)[..0] == "";
    } else {
      DecimalValue(n / 10);
      assert Decimal(n)[..|Decimal(n)| - 1] == Decimal(n / 10);
    }
  }
}
