/** What a comment is to the splitter, said of the text of a file alone: where one begins, where it ends,
    and what looks like one and is not. */
module SqlComments {
  import opened Text
  import opened SqlSplitter
  import opened SqlWriting

  // ---- A file that ends in another one is split there like the other one ----

  /** From position `p` on, `s` is `b`. */
  predicate EndsIn(s: string, p: nat, b: string) {
    |s| == p + |b| && forall k | 0 <= k < |b| :: s[p + k] == b[k]
  }

  lemma AppendedEnds(a: string, b: string)
    ensures EndsIn(a + b, |a|, b)
  {
  }

  lemma {:induction false} SameLineEnd(s: string, p: nat, b: string, i: nat)
    requires EndsIn(s, p, b) && i <= |b|
    ensures LineEnd(s, p + i) == p + LineEnd(b, i)
    decreases |b| - i
  {
    if i < |b| {
      assert s[p + i] == b[i];
      SameLineEnd(s, p, b, i + 1);
    }
  }

  lemma {:induction false} SameBlockEnd(s: string, p: nat, b: string, i: nat)
    requires EndsIn(s, p, b) && i <= |b|
    ensures BlockEnd(s, p + i) == p + BlockEnd(b, i)
    decreases |b| - i
  {
    if i < |b| {
      SameAt(s, p, b, i);
      SameAt(s, p, b, i + 1);
      SameBlockEnd(s, p, b, i + 1);
    }
  }

  lemma SameAt(s: string, p: nat, b: string, i: nat)
    requires EndsIn(s, p, b)
    ensures At(s, p + i) == At(b, i) && EndsDashes(s, p + i) == EndsDashes(b, i)
  {
    if i < |b| {
      assert s[p + i] == b[i];
    }
  }

  lemma {:induction false} SameLiteralEnd(s: string, p: nat, b: string, i: nat, q: char)
    requires EndsIn(s, p, b) && i <= |b| && IsQuote(q)
    ensures LiteralEnd(s, p + i, q) == p + LiteralEnd(b, i, q)
    decreases |b| - i
  {
    if i < |b| {
      SameAt(s, p, b, i);
      SameAt(s, p, b, i + 1);
      if i + 2 <= |b| {
        SameLiteralEnd(s, p, b, i + 2, q);
      }
      SameLiteralEnd(s, p, b, i + 1, q);
    }
  }

  lemma SameStart(s: string, p: nat, b: string, i: nat)
    requires EndsIn(s, p, b) && i < |b|
    ensures s[p + i] == b[i] && IsComment(s, p + i) == IsComment(b, i) && TokenEnd(s, p + i) == p + TokenEnd(b, i)
  {
    SameAt(s, p, b, i);
    SameAt(s, p, b, i + 1);
    SameAt(s, p, b, i + 2);
    if StartsLine(b, i) {
      SameLineEnd(s, p, b, i + 1);
    } else if StartsBlock(b, i) {
      SameBlockEnd(s, p, b, if At(b, i + 2) == '!' then i + 3 else i + 2);
    } else if IsQuote(b[i]) {
      SameLiteralEnd(s, p, b, i + 1, b[i]);
    }
  }

  lemma SameSlice(s: string, p: nat, b: string, i: nat, e: nat)
    requires EndsIn(s, p, b) && i <= e <= |b|
    ensures s[p + i..p + e] == b[i..e]
  {
    forall k | 0 <= k < e - i ensures s[p + i..p + e][k] == b[i..e][k] {
      assert s[p + (i + k)] == b[i + k];
    }
  }

  lemma {:induction false} SameRest(s: string, p: nat, b: string, i: nat, acc: string)
    requires EndsIn(s, p, b) && i <= |b|
    ensures Rest(s, p + i, acc) == Rest(b, i, acc)
    decreases |b| - i
  {
    if i < |b| {
      var e := TokenEnd(b, i);
      SameStart(s, p, b, i);
      Turn(s, p + i, acc);
      Turn(b, i, acc);
      if IsComment(b, i) {
        SameRest(s, p, b, e, TrimBlanks(acc));
      } else if b[i] == ';' {
        SameRest(s, p, b, i + 1, "");
      } else {
        SameSlice(s, p, b, i, e);
        SameRest(s, p, b, e, acc + b[i..e]);
      }
    }
  }

  // ---- Plain text ----

  predicate IsPlain(c: char) {
    c !in {'#', '-', '/', ';', '\'', '"', '`'}
  }

  /** Text in which nothing begins but words: no quote, no separator, nothing a comment begins with. */
  predicate Plain(u: string) {
    forall k | 0 <= k < |u| :: IsPlain(u[k])
  }

  lemma {:induction false} PlainKept(s: string, i: nat, n: nat, acc: string)
    requires i <= n <= |s| && forall k | i <= k < n :: IsPlain(s[k])
    ensures Rest(s, i, acc) == Rest(s, n, acc + s[i..n])
    decreases n - i
  {
    if i < n {
      assert IsPlain(s[i]) && TokenEnd(s, i) == i + 1 && s[i..i + 1] == [s[i]];
      PlainKept(s, i + 1, n, acc + [s[i]]);
      assert acc + [s[i]] + s[i + 1..n] == acc + s[i..n];
    } else {
      assert acc + s[i..n] == acc;
    }
  }

  lemma PlainFirst(u: string, b: string, acc: string)
    requires Plain(u)
    ensures Rest(u + b, 0, acc) == Rest(b, 0, acc + u)
  {
    var s := u + b;
    assert s[0..|u|] == u;
    PlainKept(s, 0, |u|, acc);
    AppendedEnds(u, b);
    SameRest(s, |u|, b, 0, acc + u);
  }

  // ---- White space in front ----

  /** `a` is `b` with white space in front of it. */
  predicate Led(a: string, b: string) {
    |b| <= |a| && a[|a| - |b|..] == b && forall k | 0 <= k < |a| - |b| :: IsSpace(a[k])
  }

  lemma LedAt(a: string, b: string, k: nat)
    requires Led(a, b) && k < |b|
    ensures a[|a| - |b| + k] == b[k]
  {
    assert a[|a| - |b|..][k] == b[k];
  }

  lemma LedTrims(a: string, b: string)
    requires Led(a, b)
    ensures TrimSpace(a) == TrimSpace(b)
  {
    if f :| 0 <= f < |b| && !IsSpace(b[f]) {
      LedInk(a, b, f);
    } else {
      LedBlank(a, b);
    }
  }

  /** Trimming leaves what lies between two known ends. */
  lemma TrimIs(s: string, first: nat, last: nat)
    requires first == SkipSpace(s, 0) <= last == DropSpace(s, |s|)
    ensures TrimSpace(s) == s[first..last]
  {
  }

  lemma LedInk(a: string, b: string, f: nat)
    requires Led(a, b) && f < |b| && !IsSpace(b[f])
    ensures TrimSpace(a) == TrimSpace(b)
  {
    InkBetween(b, f);
    var n, first, last := |a| - |b|, SkipSpace(b, 0), DropSpace(b, |b|);
    LedSkips(a, b);
    LedDrops(a, b);
    LedSlice(a, b, first, last);
    TrimIs(a, n + first, n + last);
    TrimIs(b, first, last);
  }

  lemma LedSlice(a: string, b: string, first: nat, last: nat)
    requires Led(a, b) && first <= last <= |b|
    ensures a[|a| - |b| + first..|a| - |b| + last] == b[first..last]
  {
    TailSlice(a, |a| - |b|, first, last);
  }

  lemma LedBlank(a: string, b: string)
    requires Led(a, b) && forall k | 0 <= k < |b| :: IsSpace(b[k])
    ensures TrimSpace(a) == TrimSpace(b)
  {
    forall k | 0 <= k < |a| ensures IsSpace(a[k]) {
      if k >= |a| - |b| {
        LedAt(a, b, k - (|a| - |b|));
      }
    }
    TrimSpaceBlank(a);
    TrimSpaceBlank(b);
  }

  lemma InkBetween(b: string, f: nat)
    requires f < |b| && !IsSpace(b[f])
    ensures SkipSpace(b, 0) <= f < DropSpace(b, |b|)
  {
    if f < SkipSpace(b, 0) {
      SkipsOnlySpace(b, 0, f);
    }
    if DropSpace(b, |b|) <= f {
      DropsOnlySpace(b, |b|, f);
    }
  }

  lemma LedSkips(a: string, b: string)
    requires Led(a, b) && SkipSpace(b, 0) < |b|
    ensures SkipSpace(a, 0) == |a| - |b| + SkipSpace(b, 0)
  {
    var n, first := |a| - |b|, SkipSpace(b, 0);
    LedAt(a, b, first);
    forall k | 0 <= k < n + first ensures IsSpace(a[k]) {
      if k >= n {
        SkipsOnlySpace(b, 0, k - n);
        LedAt(a, b, k - n);
      }
    }
    SkipFinds(a, 0, n + first);
  }

  lemma LedDrops(a: string, b: string)
    requires Led(a, b) && DropSpace(b, |b|) > 0
    ensures DropSpace(a, |a|) == |a| - |b| + DropSpace(b, |b|)
  {
    var n, last := |a| - |b|, DropSpace(b, |b|);
    LedAt(a, b, last - 1);
    forall k | n + last <= k < |a| ensures IsSpace(a[k]) {
      DropsOnlySpace(b, |b|, k - n);
      LedAt(a, b, k - n);
    }
    DropFinds(a, |a|, n + last);
  }

  lemma {:induction false} LedBlankEnd(a: string, b: string, i: nat)
    requires Led(a, b) && i <= |b|
    ensures var e, f := BlankEnd(a, |a| - |b| + i), BlankEnd(b, i);
      if f == 0 then e <= |a| - |b| else e == |a| - |b| + f
  {
    if i > 0 {
      LedAt(a, b, i - 1);
      LedBlankEnd(a, b, i - 1);
    }
  }

  lemma LedBlanks(a: string, b: string)
    requires Led(a, b)
    ensures Led(TrimBlanks(a), TrimBlanks(b))
  {
    LedBlankEnd(a, b, |b|);
    var n, f := |a| - |b|, BlankEnd(b, |b|);
    if f > 0 {
      assert a[..n + f][n..] == a[n..][..f];
    }
  }

  lemma LedLonger(a: string, b: string, t: string)
    requires Led(a, b)
    ensures Led(a + t, b + t)
  {
    assert (a + t)[|a| - |b|..] == a[|a| - |b|..] + t;
  }

  lemma LedFlushed(a: string, b: string, more: seq<string>)
    requires Led(a, b)
    ensures Cleaned([a] + more) == Cleaned([b] + more)
  {
    LedTrims(a, b);
    assert ([a] + more)[1..] == more && ([b] + more)[1..] == more;
  }

  /** White space in the builder before the first character of a statement is of no consequence. */
  lemma {:induction false} LedCleaned(s: string, i: nat, a: string, b: string)
    requires i <= |s| && Led(a, b)
    ensures Cleaned(Rest(s, i, a)) == Cleaned(Rest(s, i, b))
    decreases |s| - i
  {
    if i == |s| {
      LedFlushed(a, b, []);
    } else {
      var e := TokenEnd(s, i);
      Turn(s, i, a);
      Turn(s, i, b);
      if IsComment(s, i) {
        LedBlanks(a, b);
        LedCleaned(s, e, TrimBlanks(a), TrimBlanks(b));
      } else if s[i] == ';' {
        LedFlushed(a, b, Rest(s, i + 1, ""));
      } else {
        LedLonger(a, b, s[i..e]);
        LedCleaned(s, e, a + s[i..e], b + s[i..e]);
      }
    }
  }

  lemma InOnePass(s: string)
    ensures Statements(s) == Cleaned(Rest(s, 0, ""))
  {
    RestIsGroup(s, 0, "");
  }

  lemma BlankIsPlain(w: string)
    requires Blank(w)
    ensures Plain(w) && Led(w, "")
  {
    forall k | 0 <= k < |w| ensures IsPlain(w[k]) && IsSpace(w[k]) {
      assert w[k] in w;
    }
  }

  /** White space at the beginning of a file is of no consequence. */
  lemma BlankFirst(w: string, b: string)
    requires Blank(w)
    ensures Statements(w + b) == Statements(b)
  {
    InOnePass(w + b);
    InOnePass(b);
    BlankIsPlain(w);
    PlainFirst(w, b, "");
    assert "" + w == w;
    LedCleaned(b, 0, w, "");
  }

  // ---- Comments ----

  lemma {:induction false} LineEndIs(s: string, i: nat, e: nat)
    requires i <= e <= |s| && (e < |s| ==> s[e] == '\n') && forall k | i <= k < e :: s[k] != '\n'
    ensures LineEnd(s, i) == e
    decreases e - i
  {
    if i < e {
      LineEndIs(s, i + 1, e);
    }
  }

  /** Two characters that close a block comment stand at `k`. */
  predicate ClosesAt(s: string, k: nat) {
    k + 1 < |s| && s[k] == '*' && s[k + 1] == '/'
  }

  lemma {:induction false} BlockEndIs(s: string, i: nat, e: nat)
    requires i <= e && ClosesAt(s, e) && forall k | i <= k < e :: !ClosesAt(s, k)
    ensures BlockEnd(s, i) == e + 2
    decreases e - i
  {
    if i < e {
      assert !ClosesAt(s, i);
      BlockEndIs(s, i + 1, e);
    }
  }

  lemma {:induction false} BlockNeverEnds(s: string, i: nat)
    requires i <= |s| && forall k | i <= k < |s| :: !ClosesAt(s, k)
    ensures BlockEnd(s, i) == |s|
    decreases |s| - i
  {
    if i < |s| {
      assert !ClosesAt(s, i);
      BlockNeverEnds(s, i + 1);
    }
  }

  /** A line that is a comment: it begins with `#`, or with two dashes and a blank, a tab or a carriage return
      behind them, or it is two dashes. */
  predicate LineComment(m: string) {
    '\n' !in m && ("#" <= m || "-- " <= m || "--\t" <= m || "--\r" <= m || m == "--")
  }

  lemma LineDropped(m: string, b: string, acc: string)
    requires LineComment(m) && (b != "" ==> b[0] == '\n')
    ensures Rest(m + b, 0, acc) == Rest(b, 0, TrimBlanks(acc))
  {
    var s := m + b;
    assert StartsLine(s, 0) && IsComment(s, 0);
    forall k | 1 <= k < |m| ensures s[k] != '\n' {
      assert s[k] == m[k] && m[k] in m;
    }
    LineEndIs(s, 1, |m|);
    AppendedEnds(m, b);
    SameRest(s, |m|, b, 0, TrimBlanks(acc));
  }

  lemma {:induction false} BlankEndMeans(s: string, i: nat)
    requires i <= |s|
    ensures var e := BlankEnd(s, i);
      (forall k | e <= k < i :: s[k] in {' ', '\t'}) && (e > 0 ==> s[e - 1] !in {' ', '\t'})
  {
    if i > 0 && (s[i - 1] == ' ' || s[i - 1] == '\t') {
      BlankEndMeans(s, i - 1);
    }
  }

  /** What a comment takes away before it: the blanks and tabs, and nothing else. */
  lemma BlanksBefore(u: string)
    ensures var t := TrimBlanks(u);
      t <= u && (forall k | |t| <= k < |u| :: u[k] in {' ', '\t'}) && (t != "" ==> t[|t| - 1] !in {' ', '\t'})
  {
    BlankEndMeans(u, |u|);
  }

  lemma BlanksOff(u: string)
    requires Plain(u)
    ensures Plain(TrimBlanks(u))
  {
  }

  /** A file that begins with plain text. */
  lemma PlainStart(u: string, b: string)
    requires Plain(u)
    ensures Statements(u + b) == Cleaned(Rest(b, 0, u))
  {
    InOnePass(u + b);
    PlainFirst(u, b, "");
    assert "" + u == u;
  }

  lemma Grouped(u: string, m: string, b: string)
    ensures u + m + b == u + (m + b)
  {
  }

  /** What the text of a comment does to the rest of the file it also does behind plain text. */
  lemma DroppedBehind(u: string, m: string, b: string)
    requires Plain(u) && Rest(m + b, 0, u) == Rest(b, 0, TrimBlanks(u))
    ensures Statements(u + m + b) == Statements(TrimBlanks(u) + b)
  {
    Grouped(u, m, b);
    PlainStart(u, m + b);
    BlanksOff(u);
    PlainStart(TrimBlanks(u), b);
  }

  /** A line comment reaches to the end of its line whatever it contains: it disappears with the blanks
      before it, and the newline and all that follows it stay. */
  lemma LineCommentVanishes(u: string, m: string, b: string)
    requires Plain(u) && LineComment(m) && (b != "" ==> b[0] == '\n')
    ensures Statements(u + m + b) == Statements(TrimBlanks(u) + b)
  {
    LineDropped(m, b, u);
    DroppedBehind(u, m, b);
  }

  /** A line that is nothing but a comment might as well not be there. */
  lemma CommentLineVanishes(m: string, b: string)
    requires LineComment(m)
    ensures Statements(m + "\n" + b) == Statements(b)
  {
    LineCommentVanishes("", m, "\n" + b);
    Grouped(m, "\n", b);
    assert "" + m == m && TrimBlanks("") == "" && "" + ("\n" + b) == "\n" + b;
    BlankFirst("\n", b);
  }

  /** A block comment, up to and with its first close, and not an executable one. */
  predicate BlockComment(m: string) {
    |m| >= 4 && "/*" <= m && m[2] != '!' && ClosesAt(m, |m| - 2) && forall k | 2 <= k < |m| - 2 :: !ClosesAt(m, k)
  }

  /** An executable comment, up to and with its first close. */
  predicate ExecutableComment(m: string) {
    |m| >= 5 && "/*!" <= m && ClosesAt(m, |m| - 2) && forall k | 3 <= k < |m| - 2 :: !ClosesAt(m, k)
  }

  lemma FirstClose(m: string, b: string, from: nat)
    requires 2 <= from <= |m| - 2 && ClosesAt(m, |m| - 2) && forall k | from <= k < |m| - 2 :: !ClosesAt(m, k)
    ensures BlockEnd(m + b, from) == |m|
  {
    var s := m + b;
    forall k | from <= k < |m| - 2 ensures !ClosesAt(s, k) {
      assert !ClosesAt(m, k) && s[k] == m[k] && s[k + 1] == m[k + 1];
    }
    assert s[|m| - 2] == m[|m| - 2] && s[|m| - 1] == m[|m| - 1];
    BlockEndIs(s, from, |m| - 2);
  }

  lemma BlockDropped(m: string, b: string, acc: string)
    requires BlockComment(m)
    ensures Rest(m + b, 0, acc) == Rest(b, 0, TrimBlanks(acc))
  {
    var s := m + b;
    assert StartsBlock(s, 0) && At(s, 2) == m[2] && IsComment(s, 0);
    FirstClose(m, b, 2);
    AppendedEnds(m, b);
    SameRest(s, |m|, b, 0, TrimBlanks(acc));
  }

  /** A block comment disappears with the blanks before it, up to its first close and no further. */
  lemma BlockCommentVanishes(u: string, m: string, b: string)
    requires Plain(u) && BlockComment(m)
    ensures Statements(u + m + b) == Statements(TrimBlanks(u) + b)
  {
    BlockDropped(m, b, u);
    DroppedBehind(u, m, b);
  }

  /** One that is never closed takes the rest of the file with it. */
  lemma OpenBlockVanishes(u: string, m: string)
    requires Plain(u) && "/*" <= m && (|m| > 2 ==> m[2] != '!') && forall k | 2 <= k < |m| :: !ClosesAt(m, k)
    ensures Statements(u + m) == Statements(TrimBlanks(u))
  {
    var s := m + "";
    assert s == m && StartsBlock(s, 0) && IsComment(s, 0);
    BlockNeverEnds(s, 2);
    assert Rest("", 0, TrimBlanks(u)) == [TrimBlanks(u)];
    DroppedBehind(u, m, "");
    assert u + m + "" == u + m && TrimBlanks(u) + "" == TrimBlanks(u);
  }

  // ---- What only looks like a comment ----

  /** Text behind what the builder holds, up to the separator. */
  lemma EndOfStatement(v: string, b: string, acc: string)
    requires Plain(v)
    ensures Cleaned(Rest(v + ";" + b, 0, acc)) == Flushed(acc + v, Statements(b))
  {
    var rest := ";" + b;
    assert v + ";" + b == v + rest;
    PlainFirst(v, rest, acc);
    Turn(rest, 0, acc + v);
    AppendedEnds(";", b);
    SameRest(rest, 1, b, 0, "");
    InOnePass(b);
    assert ([acc + v] + Rest(b, 0, ""))[1..] == Rest(b, 0, "");
  }

  /** Text `m` that is kept as it stands, between plain texts: it is part of the statement. */
  lemma KeptBetween(u: string, m: string, v: string, b: string)
    requires Plain(u) && Plain(v) && m != "" && !Blank(m)
    requires Rest(m + (v + ";" + b), 0, u) == Rest(v + ";" + b, 0, u + m)
    ensures Statements(u + m + v + ";" + b) == [TrimSpace(u + m + v)] + Statements(b)
  {
    var rest := v + ";" + b;
    assert u + m + v + ";" + b == u + (m + rest);
    PlainStart(u, m + rest);
    EndOfStatement(v, b, u + m);
    var c :| c in m && !IsSpace(c);
    assert c in u + m + v;
    TrimSpaceBlank(u + m + v);
  }

  /** Two dashes with anything but white space behind them are no comment: they stay. */
  lemma DashesStay(u: string, v: string, b: string)
    requires Plain(u) && Plain(v) && v != "" && v[0] !in {' ', '\t', '\n', '\r'}
    ensures Statements(u + "--" + v + ";" + b) == [TrimSpace(u + "--" + v)] + Statements(b)
  {
    var rest := v + ";" + b;
    var s := "--" + rest;
    assert s[2] == v[0] && IsPlain(v[0]);
    assert !IsComment(s, 0) && TokenEnd(s, 0) == 1 && !IsComment(s, 1) && TokenEnd(s, 1) == 2;
    Turn(s, 0, u);
    Turn(s, 1, u + "-");
    assert u + s[0..1] == u + "-" && u + "-" + s[1..2] == u + "--";
    AppendedEnds("--", rest);
    SameRest(s, 2, rest, 0, u + "--");
    assert '-' in "--" && !IsSpace('-');
    KeptBetween(u, "--", v, b);
  }

  /** An executable comment stays as it stands, whatever it contains. */
  lemma ExecutableStays(u: string, m: string, v: string, b: string)
    requires Plain(u) && Plain(v) && ExecutableComment(m)
    ensures Statements(u + m + v + ";" + b) == [TrimSpace(u + m + v)] + Statements(b)
  {
    var rest := v + ";" + b;
    var s := m + rest;
    assert StartsBlock(s, 0) && At(s, 2) == '!' && !IsComment(s, 0);
    FirstClose(m, rest, 3);
    Turn(s, 0, u);
    assert s[0..|m|] == m;
    AppendedEnds(m, rest);
    SameRest(s, |m|, rest, 0, u + m);
    assert m[0] in m && !IsSpace(m[0]);
    KeptBetween(u, m, v, b);
  }

  // ---- Comments between statements ----

  lemma CleanFirst(x: string, b: string)
    requires Clean(x)
    ensures Statements(x + ";" + b) == [x] + Statements(b)
  {
    var s := x + ";" + b;
    assert s[0..|x|] == x && s[|x|] == ';' && x + ";" + b == (x + ";") + b;
    FirstIsFound(s, 0, 0, |x|);
    AppendedEnds(x + ";", b);
    SameRest(s, |x| + 1, b, 0, "");
    InOnePass(s);
    InOnePass(b);
  }

  lemma FileOfFirst(items: seq<Item>, b: string)
    requires items != []
    ensures File(items) + b == items[0].gap + (items[0].statement + ";" + (File(items[1..]) + b))
  {
    SqlWriting.FileFirst(items, b);
    Grouped(items[0].gap, items[0].statement + ";", File(items[1..]) + b);
  }

  lemma FirstOff(items: seq<Item>, b: string)
    requires items != [] && Blank(items[0].gap) && Clean(items[0].statement)
    ensures Statements(File(items) + b) == [items[0].statement] + Statements(File(items[1..]) + b)
  {
    var after := File(items[1..]) + b;
    FileOfFirst(items, b);
    BlankFirst(items[0].gap, items[0].statement + ";" + after);
    CleanFirst(items[0].statement, after);
  }

  lemma Rejoined(x: string, more: seq<string>, all: seq<string>)
    ensures [x] + (more + all) == ([x] + more) + all
  {
  }

  /** Written statements come back in front of whatever else a file holds. */
  lemma {:induction false} StatementsFirst(items: seq<Item>, b: string)
    requires Spaced(items) && AllClean(items)
    ensures Statements(File(items) + b) == Listed(items) + Statements(b)
  {
    if items == [] {
      assert File(items) + b == b;
    } else {
      assert items[0] in items;
      FirstOff(items, b);
      StatementsFirst(items[1..], b);
      Rejoined(items[0].statement, Listed(items[1..]), Statements(b));
    }
  }

  /** A comment behind statements, on their last line or on one of its own, changes nothing about them nor
      about the statements that follow, even if it contains a separator, a quote or the text of a
      statement. */
  lemma CommentsSeparateNothing(items: seq<Item>, gap: string, m: string, more: seq<Item>, tail: string)
    requires Spaced(items) && AllClean(items) && Spaced(more) && AllClean(more) && Blank(gap) && Blank(tail)
    requires LineComment(m)
    ensures Statements(File(items) + (gap + (m + "\n" + (File(more) + tail)))) == Listed(items) + Listed(more)
  {
    var b := File(more) + tail;
    StatementsFirst(items, gap + (m + "\n" + b));
    BlankFirst(gap, m + "\n" + b);
    CommentLineVanishes(m, b);
    SplittingUndoesWriting(more, tail);
  }
}
