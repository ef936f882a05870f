/** Writing statements to a migration file and splitting it again: which lists come back. */
module SqlWriting {
  import opened Text
  import opened SqlSplitter

  // ---- Round trip ----

  /** From `i`, the scan of `t` reaches `n` without a separator or a dropped comment, and with no
      literal or executable comment left open there. */
  predicate ScansTo(t: string, i: nat, n: nat)
    requires i <= n <= |t|
    decreases n - i
  {
    i == n || (!IsComment(t, i) && t[i] != ';' && TokenEnd(t, i) <= n && ScansTo(t, TokenEnd(t, i), n))
  }

  /** A statement that survives being written to a file with `;` behind it. */
  predicate Clean(x: string) {
    x != "" && Trimmed(x) && ScansTo(x + ";", 0, |x|)
  }

  /** `t` stands in `b` at position `p`. */
  predicate StandsAt(t: string, b: string, p: nat) {
    p + |t| <= |b| && forall k | 0 <= k < |t| :: b[p + k] == t[k]
  }

  lemma StandsSlice(t: string, b: string, p: nat, i: nat, e: nat)
    requires StandsAt(t, b, p) && i <= e <= |t|
    ensures b[p + i..p + e] == t[i..e]
  {
    forall k | 0 <= k < e - i ensures b[p + i..p + e][k] == t[i..e][k] {
      assert b[p + (i + k)] == t[i + k];
    }
  }

  lemma {:induction false} SameLiteral(t: string, b: string, p: nat, j: nat, q: char)
    requires StandsAt(t, b, p) && IsQuote(q) && j < |t| && t[|t| - 1] == ';' && LiteralEnd(t, j, q) < |t|
    ensures LiteralEnd(b, p + j, q) == p + LiteralEnd(t, j, q)
    decreases |t| - j
  {
    assert b[p + j] == t[j];
    if j + 1 < |t| {
      assert b[p + (j + 1)] == t[j + 1];
      if t[j] == '\\' && q != '`' {
        SameLiteral(t, b, p, j + 2, q);
      } else if t[j] == q {
        if t[j + 1] == q {
          SameLiteral(t, b, p, j + 2, q);
        }
      } else {
        SameLiteral(t, b, p, j + 1, q);
      }
    }
  }

  lemma {:induction false} SameBlock(t: string, b: string, p: nat, j: nat)
    requires StandsAt(t, b, p) && j < |t| && t[|t| - 1] == ';' && BlockEnd(t, j) < |t|
    ensures BlockEnd(b, p + j) == p + BlockEnd(t, j)
    decreases |t| - j
  {
    assert b[p + j] == t[j];
    if j + 1 < |t| {
      assert b[p + (j + 1)] == t[j + 1];
      if !(t[j] == '*' && t[j + 1] == '/') {
        SameBlock(t, b, p, j + 1);
      }
    }
  }

  /** What decides a kept token never lies beyond the `;` behind the statement. */
  lemma SameToken(t: string, b: string, p: nat, i: nat)
    requires StandsAt(t, b, p) && i + 1 < |t| && t[|t| - 1] == ';'
    requires !IsComment(t, i) && TokenEnd(t, i) < |t|
    ensures !IsComment(b, p + i) && TokenEnd(b, p + i) == p + TokenEnd(t, i)
  {
    assert b[p + i] == t[i] && b[p + (i + 1)] == t[i + 1];
    if i + 2 < |t| {
      assert b[p + (i + 2)] == t[i + 2];
    }
    if StartsBlock(t, i) {
      assert i + 3 < |t|;
      SameBlock(t, b, p, i + 3);
    } else if IsQuote(t[i]) {
      SameLiteral(t, b, p, i + 1, t[i]);
    }
  }

  /** The scan of a statement does not depend on what stands around it. */
  lemma {:induction false} SameScan(t: string, b: string, p: nat, i: nat, n: nat)
    requires StandsAt(t, b, p) && i <= n && |t| == n + 1 && t[n] == ';' && ScansTo(t, i, n)
    ensures p + n < |b| && ScansTo(b, p + i, p + n)
    decreases n - i
  {
    if i < n {
      assert b[p + i] == t[i];
      SameToken(t, b, p, i);
      SameScan(t, b, p, TokenEnd(t, i), n);
    }
  }

  lemma KeepsToken(b: string, a: nat, i: nat, e: nat)
    requires a <= i < |b| && !IsComment(b, i) && b[i] != ';' && TokenEnd(b, i) == e
    ensures Rest(b, i, b[a..i]) == Rest(b, e, b[a..e])
  {
    assert b[a..i] + b[i..e] == b[a..e];
  }

  /** Scanned text is kept as it stands. */
  lemma {:induction false} KeepsScanned(b: string, a: nat, i: nat, n: nat)
    requires a <= i <= n <= |b| && ScansTo(b, i, n)
    ensures Rest(b, i, b[a..i]) == Rest(b, n, b[a..n])
    decreases n - i
  {
    if i < n {
      KeepsToken(b, a, i, TokenEnd(b, i));
      KeepsScanned(b, a, TokenEnd(b, i), n);
    }
  }

  /** A statement and the white space in front of it. */
  datatype Item = Item(gap: string, statement: string)

  /** A file with each statement followed by `;`. */
  function File(items: seq<Item>): string {
    if items == [] then "" else items[0].gap + items[0].statement + ";" + File(items[1..])
  }

  function Listed(items: seq<Item>): seq<string> {
    if items == [] then [] else [items[0].statement] + Listed(items[1..])
  }

  predicate Spaced(items: seq<Item>) {
    forall x | x in items :: Blank(x.gap)
  }

  predicate AllClean(items: seq<Item>) {
    forall x | x in items :: Clean(x.statement)
  }

  lemma StandsWithout(x: string, t: string, b: string, q: nat)
    requires t == x + ";" && StandsAt(t, b, q)
    ensures StandsAt(x, b, q) && q + |x| < |b| && b[q + |x|] == ';'
  {
    assert b[q + |x|] == t[|x|];
    forall k | 0 <= k < |x| ensures b[q + k] == x[k] {
      assert b[q + k] == t[k];
    }
  }

  lemma StartsBlank(g: string, b: string, p: nat)
    requires StandsAt(g, b, p) && Blank(g)
    ensures forall k | p <= k < p + |g| :: IsSpace(b[k])
  {
    forall k | p <= k < p + |g| ensures IsSpace(b[k]) {
      assert b[p + (k - p)] == g[k - p] && g[k - p] in g;
    }
  }

  /** Where the first item of a file stands, and what follows it. */
  lemma FirstStands(b: string, p: nat, g: string, t: string, after: string)
    requires p <= |b| && b[p..] == g + t + after
    ensures StandsAt(g, b, p) && StandsAt(t, b, p + |g|) && b[p + |g| + |t|..] == after
  {
    var rest := g + t + after;
    forall k | 0 <= k < |rest| ensures b[p + k] == rest[k] {
      assert b[p + k] == b[p..][k];
    }
    forall k | 0 <= k < |t| ensures b[p + |g| + k] == t[k] {
      assert b[p + (|g| + k)] == rest[|g| + k];
    }
    assert b[p + |g| + |t|..] == b[p..][|g| + |t|..];
  }

  lemma Regroup(g: string, x: string, after: string, tail: string)
    ensures g + x + ";" + after + tail == g + (x + ";") + (after + tail)
  {
  }

  /** The first item stands in `b` from `p` on, with its `;` at `d`. */
  predicate FirstAt(b: string, p: nat, items: seq<Item>, d: nat) {
    items != [] && d < |b| && b[d] == ';' && d == p + |items[0].gap| + |items[0].statement|
    && b[d - |items[0].statement|..d] == items[0].statement
    && forall k | p <= k < d - |items[0].statement| :: IsSpace(b[k])
  }

  /** The items stand in `b` from position `p` on, and nothing but white space follows them. */
  predicate Written(b: string, p: nat, items: seq<Item>)
    decreases |items|
  {
    if items == [] then p <= |b| && forall k | p <= k < |b| :: IsSpace(b[k])
    else
      var d := p + |items[0].gap| + |items[0].statement|;
      FirstAt(b, p, items, d) && Written(b, d + 1, items[1..])
  }

  lemma ItemStands(b: string, p: nat, g: string, x: string, after: string)
    requires p <= |b| && b[p..] == g + (x + ";") + after && Blank(g)
    ensures var q, d := p + |g|, p + |g| + |x|;
            d < |b| && b[d] == ';' && b[q..d] == x && b[d + 1..] == after && forall k | p <= k < q :: IsSpace(b[k])
  {
    var q := p + |g|;
    FirstStands(b, p, g, x + ";", after);
    StandsWithout(x, x + ";", b, q);
    StartsBlank(g, b, p);
    StandsSlice(x, b, q, 0, |x|);
    assert b[q..q + |x|] == x[0..|x|] == x;
  }

  lemma TailStands(b: string, p: nat, tail: string)
    requires p <= |b| && b[p..] == "" + tail && Blank(tail)
    ensures forall k | p <= k < |b| :: IsSpace(b[k])
  {
    forall k | p <= k < |b| ensures IsSpace(b[k]) {
      assert b[k] == b[p..][k - p] && tail[k - p] in tail;
    }
  }

  lemma FileFirst(items: seq<Item>, tail: string)
    requires items != []
    ensures File(items) + tail == items[0].gap + (items[0].statement + ";") + (File(items[1..]) + tail)
  {
    Regroup(items[0].gap, items[0].statement, File(items[1..]), tail);
  }

  lemma FirstIsAt(b: string, p: nat, items: seq<Item>, tail: string) returns (d: nat)
    requires p <= |b| && b[p..] == File(items) + tail && Spaced(items) && items != []
    ensures FirstAt(b, p, items, d) && b[d + 1..] == File(items[1..]) + tail
  {
    assert items[0] in items;
    var g, x, after := items[0].gap, items[0].statement, File(items[1..]) + tail;
    assert b[p..] == g + (x + ";") + after by {
      FileFirst(items, tail);
    }
    ItemStands(b, p, g, x, after);
    d := p + |g| + |x|;
  }

  lemma SpacedRest(items: seq<Item>)
    requires Spaced(items) && items != []
    ensures Spaced(items[1..])
  {
  }

  lemma {:induction false} FileIsWritten(b: string, p: nat, items: seq<Item>, tail: string)
    requires p <= |b| && b[p..] == File(items) + tail && Spaced(items) && Blank(tail)
    ensures Written(b, p, items)
    decreases |items|
  {
    if items == [] {
      TailStands(b, p, tail);
    } else {
      var d := FirstIsAt(b, p, items, tail);
      SpacedRest(items);
      FileIsWritten(b, d + 1, items[1..], tail);
    }
  }

  lemma {:induction false} BlankScans(b: string, i: nat, m: nat, n: nat)
    requires i <= m <= n <= |b| && (forall k | i <= k < m :: IsSpace(b[k])) && ScansTo(b, m, n)
    ensures ScansTo(b, i, n)
    decreases m - i
  {
    if i < m {
      assert TokenEnd(b, i) == i + 1;
      BlankScans(b, i + 1, m, n);
    }
  }

  lemma CleanScans(b: string, q: nat, d: nat)
    requires q <= d < |b| && b[d] == ';' && Clean(b[q..d])
    ensures ScansTo(b, q, d)
  {
    var t := b[q..d + 1];
    assert t == b[q..d] + ";";
    SameScan(t, b, q, 0, d - q);
  }

  lemma TrimsTo(b: string, p: nat, q: nat, d: nat)
    requires p <= q < d <= |b| && (forall k | p <= k < q :: IsSpace(b[k])) && !IsSpace(b[q]) && !IsSpace(b[d - 1])
    ensures TrimSpace(b[p..d]) == b[q..d]
  {
    var s := b[p..d];
    assert s[q - p] == b[q] && s[|s| - 1] == b[d - 1];
    SkipFinds(s, 0, q - p);
    assert s[q - p..|s|] == b[q..d];
  }

  lemma LastPiece(b: string, p: nat)
    requires p <= |b| && ScansTo(b, p, |b|)
    ensures Cleaned(Rest(b, p, "")) == Flushed(b[p..|b|], [])
  {
    KeepsScanned(b, p, p, |b|);
    assert b[p..p] == "" && [b[p..|b|]][1..] == [];
  }

  lemma FirstPiece(b: string, p: nat, e: nat)
    requires p <= e < |b| && ScansTo(b, p, e) && b[e] == ';'
    ensures Cleaned(Rest(b, p, "")) == Flushed(b[p..e], Cleaned(Rest(b, e + 1, "")))
  {
    KeepsScanned(b, p, p, e);
    var more := Rest(b, e + 1, "");
    assert b[p..p] == "" && ([b[p..e]] + more)[1..] == more;
  }

  /** What splitting finds from position `n` on. */
  function Found(b: string, n: nat): seq<string> {
    if n <= |b| then Cleaned(Rest(b, n, "")) else []
  }

  /** The first item is the first statement found. */
  lemma FirstIsFound(b: string, p: nat, q: nat, d: nat)
    requires p <= q <= d < |b| && b[d] == ';' && (forall k | p <= k < q :: IsSpace(b[k])) && Clean(b[q..d])
    ensures Found(b, p) == [b[q..d]] + Found(b, d + 1)
  {
    CleanScans(b, q, d);
    BlankScans(b, p, q, d);
    assert b[q] == b[q..d][0] && b[d - 1] == b[q..d][d - q - 1];
    TrimsTo(b, p, q, d);
    FirstPiece(b, p, d);
  }

  /** The last part of a file is white space only. */
  lemma OnlyBlankLeft(b: string, p: nat)
    requires p <= |b| && forall k | p <= k < |b| :: IsSpace(b[k])
    ensures Found(b, p) == []
  {
    BlankScans(b, p, |b|, |b|);
    LastPiece(b, p);
    TrimSpaceBlank(b[p..]);
    assert b[p..|b|] == b[p..] && Blank(b[p..]);
  }

  lemma FirstFound(b: string, p: nat, items: seq<Item>) returns (n: nat)
    requires p <= |b| && Written(b, p, items) && AllClean(items) && items != []
    ensures n <= |b| && Written(b, n, items[1..]) && Found(b, p) == [items[0].statement] + Found(b, n)
  {
    assert items[0] in items;
    var d := p + |items[0].gap| + |items[0].statement|;
    FirstIsFound(b, p, p + |items[0].gap|, d);
    n := d + 1;
  }

  lemma CleanRest(items: seq<Item>)
    requires AllClean(items) && items != []
    ensures AllClean(items[1..])
  {
  }

  lemma {:induction false} WrittenIsFound(b: string, p: nat, items: seq<Item>)
    requires p <= |b| && Written(b, p, items) && AllClean(items)
    ensures Found(b, p) == Listed(items)
    decreases |items|
  {
    if items == [] {
      OnlyBlankLeft(b, p);
    } else {
      var n := FirstFound(b, p, items);
      CleanRest(items);
      WrittenIsFound(b, n, items[1..]);
    }
  }

  /** Writing statements to a file, each followed by `;` and with any white space between them, and
      splitting the file again gives exactly the same statements: a `;` inside a literal or an
      executable comment never splits. */
  lemma SplittingUndoesWriting(items: seq<Item>, tail: string)
    requires Spaced(items) && AllClean(items) && Blank(tail)
    ensures Statements(File(items) + tail) == Listed(items)
  {
    var b := File(items) + tail;
    assert b[0..] == b;
    FileIsWritten(b, 0, items, tail);
    WrittenIsFound(b, 0, items);
    RestIsGroup(b, 0, "");
  }

  // ---- Which statements survive ----

  function Num(s: string, c: char): nat {
    multiset(s)[c]
  }

  function Total(xs: seq<string>, c: char): nat {
    if xs == [] then 0 else Num(xs[0], c) + Total(xs[1..], c)
  }

  lemma NumCut(s: string, i: nat, j: nat, c: char)
    requires i <= j <= |s|
    ensures Num(s[..i], c) + Num(s[i..j], c) + Num(s[j..], c) == Num(s, c)
  {
    assert s == s[..i] + s[i..j] + s[j..];
  }

  lemma TotalFirst(x: string, more: seq<string>, c: char)
    ensures Total([x] + more, c) == Num(x, c) + Total(more, c)
  {
    assert ([x] + more)[1..] == more;
  }

  lemma NumTrimmed(acc: string, c: char)
    ensures Num(TrimSpace(acc), c) <= Num(acc, c)
  {
    var first, last := SkipSpace(acc, 0), DropSpace(acc, |acc|);
    if first <= last {
      NumCut(acc, first, last, c);
    }
  }

  lemma {:induction false} NumCleaned(chunks: seq<string>, c: char)
    ensures Total(Cleaned(chunks), c) <= Total(chunks, c)
  {
    if chunks != [] {
      NumTrimmed(chunks[0], c);
      NumCleaned(chunks[1..], c);
      TotalFirst(TrimSpace(chunks[0]), Cleaned(chunks[1..]), c);
    }
  }

  lemma NumToken(b: string, i: nat, e: nat, acc: string, c: char)
    requires i <= e <= |b|
    ensures Num(b[i..], c) == Num(b[i..e], c) + Num(b[e..], c)
    ensures Num(TrimBlanks(acc), c) <= Num(acc, c) && Num(acc + b[i..e], c) == Num(acc, c) + Num(b[i..e], c)
  {
    assert b[i..] == b[i..e] + b[e..];
    assert acc == TrimBlanks(acc) + acc[BlankEnd(acc, |acc|)..];
  }

  /** Splitting never adds a character. */
  lemma {:induction false} AddsNothing(b: string, i: nat, acc: string, c: char)
    requires i <= |b|
    ensures Total(Rest(b, i, acc), c) <= Num(acc, c) + Num(b[i..], c)
    decreases |b| - i
  {
    if i < |b| {
      var e := TokenEnd(b, i);
      NumToken(b, i, e, acc, c);
      Turn(b, i, acc);
      if IsComment(b, i) {
        AddsNothing(b, e, TrimBlanks(acc), c);
      } else if b[i] == ';' {
        AddsNothing(b, i + 1, "", c);
        assert ([acc] + Rest(b, i + 1, ""))[1..] == Rest(b, i + 1, "");
      } else {
        AddsNothing(b, e, acc + b[i..e], c);
      }
    }
  }

  /** What the builder holds does not begin with a separator. */
  predicate Fair(acc: string) {
    var f := SkipSpace(acc, 0);
    f == |acc| || acc[f] != ';'
  }

  lemma LeadingSpace(s: string)
    ensures forall k | 0 <= k < SkipSpace(s, 0) :: IsSpace(s[k])
  {
    forall k | 0 <= k < SkipSpace(s, 0) ensures IsSpace(s[k]) {
      SkipsOnlySpace(s, 0, k);
    }
  }

  lemma FairGrows(acc: string, raw: string)
    requires Fair(acc) && raw != "" && raw[0] != ';' && (|raw| == 1 || !IsSpace(raw[0]))
    ensures Fair(acc + raw)
  {
    var s, f := acc + raw, SkipSpace(acc, 0);
    LeadingSpace(acc);
    assert s[|acc|] == raw[0];
    if f < |acc| {
      SkipFinds(s, 0, f);
    } else if !IsSpace(raw[0]) {
      SkipFinds(s, 0, |acc|);
    }
  }

  lemma FairShrinks(acc: string)
    requires Fair(acc)
    ensures Fair(TrimBlanks(acc))
  {
    var s := TrimBlanks(acc);
    var e := SkipSpace(s, 0);
    LeadingSpace(s);
    if e < |s| {
      SkipFinds(acc, 0, e);
    }
  }

  /** No chunk begins with a separator. */
  lemma {:induction false} NoLeadingSeparator(b: string, i: nat, acc: string)
    requires i <= |b| && Fair(acc)
    ensures forall x | x in Rest(b, i, acc) :: Fair(x)
    decreases |b| - i
  {
    if i < |b| {
      var e := TokenEnd(b, i);
      Turn(b, i, acc);
      if IsComment(b, i) {
        FairShrinks(acc);
        NoLeadingSeparator(b, e, TrimBlanks(acc));
      } else if b[i] == ';' {
        NoLeadingSeparator(b, i + 1, "");
      } else {
        FairGrows(acc, b[i..e]);
        NoLeadingSeparator(b, e, acc + b[i..e]);
      }
    }
  }

  lemma {:induction false} CleanedFair(chunks: seq<string>)
    requires forall x | x in chunks :: Fair(x)
    ensures forall x | x in Cleaned(chunks) :: x != "" && x[0] != ';'
  {
    if chunks != [] {
      assert Fair(chunks[0]);
      CleanedFair(chunks[1..]);
    }
  }

  /** From `i` on, nothing is dropped as a comment. */
  predicate NoComments(b: string, i: nat)
    requires i <= |b|
    decreases |b| - i
  {
    i == |b| || (!IsComment(b, i) && NoComments(b, TokenEnd(b, i)))
  }

  /** A dropped comment costs a character that only a statement can hold. */
  lemma {:induction false} CommentCosts(b: string, i: nat, acc: string) returns (c: char)
    requires i <= |b| && !NoComments(b, i)
    ensures c in {'#', '-', '/'} && Total(Rest(b, i, acc), c) < Num(acc, c) + Num(b[i..], c)
    decreases |b| - i
  {
    var e := TokenEnd(b, i);
    Turn(b, i, acc);
    if IsComment(b, i) {
      c := b[i];
      assert c == b[i..e][0];
      NumToken(b, i, e, acc, c);
      AddsNothing(b, e, TrimBlanks(acc), c);
    } else if b[i] == ';' {
      c := CommentCosts(b, i + 1, "");
      NumToken(b, i, e, acc, c);
      assert ([acc] + Rest(b, i + 1, ""))[1..] == Rest(b, i + 1, "");
    } else {
      c := CommentCosts(b, e, acc + b[i..e]);
      NumToken(b, i, e, acc, c);
    }
  }

  lemma NumBlank(s: string, c: char)
    requires Blank(s) && !IsSpace(c)
    ensures Num(s, c) == 0
  {
    assert c !in s;
  }

  lemma NumItem(g: string, x: string, after: string, c: char)
    requires Blank(g) && c in {'#', '-', '/'}
    ensures Num(g + x + ";" + after, c) == Num(x, c) + Num(after, c)
  {
    NumBlank(g, c);
    assert Num(";", c) == 0;
  }

  /** All of it is in the statements of a file. */
  lemma {:induction false} NumFile(items: seq<Item>, c: char)
    requires Spaced(items) && c in {'#', '-', '/'}
    ensures Num(File(items), c) == Total(Listed(items), c)
  {
    if items != [] {
      var item, rest := items[0], items[1..];
      assert item in items;
      NumFile(rest, c);
      NumItem(item.gap, item.statement, File(rest), c);
      TotalFirst(item.statement, Listed(rest), c);
    }
  }

  lemma NothingDropped(items: seq<Item>, tail: string)
    requires Spaced(items) && Blank(tail) && Cleaned(Rest(File(items) + tail, 0, "")) == Listed(items)
    ensures NoComments(File(items) + tail, 0)
  {
    var b := File(items) + tail;
    if !NoComments(b, 0) {
      var c := CommentCosts(b, 0, "");
      NumCleaned(Rest(b, 0, ""), c);
      assert b[0..] == b;
      NumFile(items, c);
      NumBlank(tail, c);
      assert false;
    }
  }

  /** The first separator, or the end. */
  lemma {:induction false} FirstSeparator(b: string, i: nat) returns (e: nat)
    requires i <= |b| && NoComments(b, i)
    ensures i <= e <= |b| && ScansTo(b, i, e) && (e < |b| ==> b[e] == ';' && NoComments(b, e + 1))
    decreases |b| - i
  {
    if i == |b| || b[i] == ';' {
      e := i;
    } else {
      e := FirstSeparator(b, TokenEnd(b, i));
    }
  }

  lemma NotAllBlank(b: string, p: nat, q: nat, e: nat)
    requires p <= q < e <= |b| && !IsSpace(b[q])
    ensures TrimSpace(b[p..e]) != ""
  {
    assert b[p..e][q - p] == b[q] && b[q] in b[p..e];
    TrimSpaceBlank(b[p..e]);
  }

  /** From `p` on there is white space up to `q` and then a statement, with `;` behind it at `d`. */
  predicate ItemAt(b: string, p: nat, q: nat, d: nat) {
    p <= q < d < |b| && b[d] == ';' && !IsSpace(b[q]) && b[q] != ';' && forall k | p <= k < q :: IsSpace(b[k])
  }

  /** No piece ends before its statement begins. */
  lemma PieceReaches(b: string, p: nat, q: nat, d: nat, e: nat)
    requires ItemAt(b, p, q, d) && p <= e <= |b| && (e < |b| ==> b[e] == ';')
    ensures q < e
  {
    if e < q {
      assert false;
    }
  }

  /** The text from `p` to `e` trims to the statement from `q` to `d`: it ends there. */
  lemma EndsThere(b: string, p: nat, q: nat, d: nat, e: nat)
    requires ItemAt(b, p, q, d) && q < e <= |b| && TrimSpace(b[p..e]) == b[q..d]
    ensures e == d
  {
    var s := b[p..e];
    assert s[q - p] == b[q];
    SkipFinds(s, 0, q - p);
    var last := DropSpace(s, |s|);
    assert |TrimSpace(s)| == d - q && last == d - p;
    if last < |s| {
      DropsOnlySpace(s, |s|, last);
      assert false;
    }
  }

  /** The first piece of a file is its first statement only if its separator is the one behind it. */
  lemma FirstPieceEnds(b: string, p: nat, q: nat, d: nat, e: nat, xs: seq<string>, after: seq<string>,
                       more: seq<string>)
    requires ItemAt(b, p, q, d) && p <= e <= |b| && (e < |b| ==> b[e] == ';')
    requires xs == Flushed(b[p..e], after) && xs == [b[q..d]] + more
    ensures e == d && after == more
  {
    PieceReaches(b, p, q, d, e);
    NotAllBlank(b, p, q, e);
    SameFirst(TrimSpace(b[p..e]), after, b[q..d], more);
    EndsThere(b, p, q, d, e);
  }

  lemma SameFirst(y: string, after: seq<string>, x: string, more: seq<string>)
    requires [y] + after == [x] + more
    ensures y == x && after == more
  {
    assert ([y] + after)[0] == y && ([y] + after)[1..] == after && ([x] + more)[1..] == more;
  }

  // The scan of a statement within a file is the one it has by itself.

  lemma {:induction false} LiteralBack(t: string, b: string, p: nat, j: nat, q: char)
    requires StandsAt(t, b, p) && IsQuote(q) && p + j <= |b| && LiteralEnd(b, p + j, q) < p + |t|
    ensures j < |t| && LiteralEnd(t, j, q) == LiteralEnd(b, p + j, q) - p
    decreases |b| - j
  {
    assert b[p + j] == t[j];
    if j + 1 < |t| {
      assert b[p + (j + 1)] == t[j + 1];
    }
    if t[j] == '\\' && q != '`' && p + j + 1 < |b| {
      LiteralBack(t, b, p, j + 2, q);
    } else if t[j] == q {
      if At(b, p + j + 1) == q {
        LiteralBack(t, b, p, j + 2, q);
      }
    } else {
      LiteralBack(t, b, p, j + 1, q);
    }
  }

  lemma {:induction false} BlockBack(t: string, b: string, p: nat, j: nat)
    requires StandsAt(t, b, p) && p + j <= |b| && BlockEnd(b, p + j) < p + |t|
    ensures j < |t| && BlockEnd(t, j) == BlockEnd(b, p + j) - p
    decreases |b| - j
  {
    assert b[p + j] == t[j];
    if j + 1 < |t| {
      assert b[p + (j + 1)] == t[j + 1];
    }
    if !(b[p + j] == '*' && At(b, p + j + 1) == '/') {
      BlockBack(t, b, p, j + 1);
    }
  }

  lemma TokenBack(t: string, b: string, p: nat, i: nat)
    requires StandsAt(t, b, p) && i + 1 < |t| && t[|t| - 1] == ';'
    requires !IsComment(b, p + i) && TokenEnd(b, p + i) < p + |t|
    ensures !IsComment(t, i) && TokenEnd(t, i) == TokenEnd(b, p + i) - p
  {
    assert b[p + i] == t[i] && b[p + (i + 1)] == t[i + 1];
    if i + 2 < |t| {
      assert b[p + (i + 2)] == t[i + 2];
    }
    if StartsBlock(b, p + i) {
      BlockBack(t, b, p, i + 3);
    } else if IsQuote(b[p + i]) {
      LiteralBack(t, b, p, i + 1, b[p + i]);
    }
  }

  lemma {:induction false} ScanBack(t: string, b: string, p: nat, i: nat, n: nat)
    requires StandsAt(t, b, p) && i <= n && |t| == n + 1 && t[n] == ';' && ScansTo(b, p + i, p + n)
    ensures ScansTo(t, i, n)
    decreases n - i
  {
    if i < n {
      assert b[p + i] == t[i];
      TokenBack(t, b, p, i);
      ScanBack(t, b, p, TokenEnd(t, i), n);
    }
  }

  lemma {:induction false} BlankBack(b: string, i: nat, m: nat, n: nat)
    requires i <= m <= n <= |b| && (forall k | i <= k < m :: IsSpace(b[k])) && ScansTo(b, i, n)
    ensures ScansTo(b, m, n)
    decreases m - i
  {
    if i < m {
      assert TokenEnd(b, i) == i + 1;
      BlankBack(b, i + 1, m, n);
    }
  }

  /** What every statement found is like. */
  predicate Leads(x: string) {
    x != "" && Trimmed(x) && x[0] != ';'
  }

  lemma NoPieceLeads(b: string, p: nat, xs: seq<string>)
    requires p <= |b| && Cleaned(Rest(b, p, "")) == xs
    ensures xs != [] ==> Leads(xs[0])
  {
    CleanedTrims(Rest(b, p, ""));
    NoLeadingSeparator(b, p, "");
    CleanedFair(Rest(b, p, ""));
    assert xs != [] ==> xs[0] in xs;
  }

  lemma ScannedIsClean(b: string, p: nat, q: nat, d: nat)
    requires ItemAt(b, p, q, d) && ScansTo(b, p, d) && Trimmed(b[q..d])
    ensures Clean(b[q..d])
  {
    var t := b[q..d + 1];
    assert t == b[q..d] + ";";
    BlankBack(b, p, q, d);
    ScanBack(t, b, q, 0, d - q);
  }

  /** The first piece from `p` on is the text up to `e`. */
  predicate PieceAt(b: string, p: nat, e: nat, found: nat -> seq<string>) {
    p <= e <= |b| && ScansTo(b, p, e)
    && if e == |b| then found(p) == Flushed(b[p..e], [])
       else b[e] == ';' && NoComments(b, e + 1) && found(p) == Flushed(b[p..e], found(e + 1))
  }

  lemma PieceExists(b: string, p: nat, found: nat -> seq<string>) returns (e: nat)
    requires p <= |b| && NoComments(b, p) && forall n: nat :: found(n) == Found(b, n)
    ensures PieceAt(b, p, e, found)
  {
    e := FirstSeparator(b, p);
    if e == |b| {
      LastPiece(b, p);
    } else {
      FirstPiece(b, p, e);
    }
  }

  lemma FirstItemAt(b: string, p: nat, items: seq<Item>, q: nat, d: nat, x: string)
    requires items != [] && Written(b, p, items) && x == items[0].statement && q == p + |items[0].gap| && d == q + |x|
    requires Leads(x)
    ensures ItemAt(b, p, q, d) && b[q..d] == x && Written(b, d + 1, items[1..])
  {
    assert x[0] == b[q];
  }

  /** The items stand in `b` from `p` on, nothing there is dropped, and they are what is found. */
  predicate ReadsBack(b: string, p: nat, items: seq<Item>, found: nat -> seq<string>) {
    p <= |b| && Written(b, p, items) && NoComments(b, p) && found(p) == Listed(items)
  }

  lemma PieceMatches(b: string, p: nat, q: nat, d: nat, e: nat, found: nat -> seq<string>, more: seq<string>)
    requires ItemAt(b, p, q, d) && PieceAt(b, p, e, found) && found(p) == [b[q..d]] + more
    ensures e == d && found(d + 1) == more
  {
    if e == |b| {
      FirstPieceEnds(b, p, q, d, e, found(p), [], more);
    } else {
      FirstPieceEnds(b, p, q, d, e, found(p), found(e + 1), more);
    }
  }

  lemma PieceIsClean(b: string, p: nat, q: nat, d: nat, e: nat, found: nat -> seq<string>, more: seq<string>)
    requires ItemAt(b, p, q, d) && PieceAt(b, p, e, found) && found(p) == [b[q..d]] + more && Trimmed(b[q..d])
    ensures Clean(b[q..d]) && NoComments(b, d + 1) && found(d + 1) == more
  {
    PieceMatches(b, p, q, d, e, found, more);
    ScannedIsClean(b, p, q, d);
  }

  /** From `p` on, an item that is what is found first is clean, and the search goes on behind it. */
  predicate Cuts(b: string, p: nat, q: nat, d: nat, found: nat -> seq<string>) {
    ItemAt(b, p, q, d) && found(p) != [] && found(p)[0] == b[q..d]
    ==> Clean(b[q..d]) && NoComments(b, d + 1) && found(d + 1) == found(p)[1..]
  }

  lemma AlwaysCuts(b: string, p: nat, q: nat, d: nat, found: nat -> seq<string>)
    requires (forall n: nat :: found(n) == Found(b, n)) && p <= |b| && NoComments(b, p)
    ensures Cuts(b, p, q, d, found)
  {
    if ItemAt(b, p, q, d) && found(p) != [] && found(p)[0] == b[q..d] {
      NoPieceLeads(b, p, found(p));
      var e := PieceExists(b, p, found);
      var more := found(p)[1..];
      assert found(p) == [b[q..d]] + more;
      PieceIsClean(b, p, q, d, e, found, more);
    }
  }

  lemma FirstListed(items: seq<Item>)
    requires items != []
    ensures Listed(items) != [] && Listed(items)[0] == items[0].statement && Listed(items)[1..] == Listed(items[1..])
  {
  }

  lemma NextReadsBack(b: string, p: nat, items: seq<Item>, found: nat -> seq<string>)
    requires ReadsBack(b, p, items, found) && items != [] && (found(p) != [] ==> Leads(found(p)[0]))
    requires forall q, d :: Cuts(b, p, q, d, found)
    ensures Clean(items[0].statement) && exists n: nat :: ReadsBack(b, n, items[1..], found)
  {
    var x, q := items[0].statement, p + |items[0].gap|;
    FirstListed(items);
    FirstItemAt(b, p, items, q, q + |x|, x);
    assert Cuts(b, p, q, q + |x|, found);
    assert ReadsBack(b, q + |x| + 1, items[1..], found);
  }

  /** Whatever a step finds of the first item, and leaves fit for the next step, holds of all. */
  lemma {:induction false} AllAlong<T>(items: seq<T>, p: nat, fit: (nat, seq<T>) -> bool, fine: T -> bool)
    requires fit(p, items)
    requires forall n: nat, xs | fit(n, xs) && xs != [] :: fine(xs[0]) && exists m: nat :: fit(m, xs[1..])
    ensures forall x | x in items :: fine(x)
  {
    if items != [] {
      var m: nat :| fit(m, items[1..]);
      AllAlong(items[1..], m, fit, fine);
    }
  }

  /** A file that gives its statements back has only clean ones. */
  lemma OnlyClean(b: string, items: seq<Item>)
    requires Written(b, 0, items) && NoComments(b, 0) && Found(b, 0) == Listed(items)
    ensures AllClean(items)
  {
    var found := (n: nat) => Found(b, n);
    var fit := (n: nat, xs: seq<Item>) => ReadsBack(b, n, xs, found);
    var fine := (x: Item) => Clean(x.statement);
    forall n: nat, xs: seq<Item> | fit(n, xs) && xs != []
      ensures fine(xs[0]) && exists m: nat :: fit(m, xs[1..])
    {
      NoPieceLeads(b, n, found(n));
      forall q, d ensures Cuts(b, n, q, d, found) {
        AlwaysCuts(b, n, q, d, found);
      }
      NextReadsBack(b, n, xs, found);
      var m: nat :| ReadsBack(b, m, xs[1..], found);
      assert fit(m, xs[1..]);
    }
    AllAlong(items, 0, fit, fine);
  }

  /** A written list comes back from splitting exactly if all its statements are clean: one with a
      comment to drop, a separator outside its literals, an open literal at its end or white space
      around it never comes back, whatever stands around it. */
  lemma WritingIsExact(items: seq<Item>, tail: string)
    requires Spaced(items) && Blank(tail)
    ensures Statements(File(items) + tail) == Listed(items) <==> AllClean(items)
  {
    var b := File(items) + tail;
    if AllClean(items) {
      SplittingUndoesWriting(items, tail);
    } else if Statements(b) == Listed(items) {
      RestIsGroup(b, 0, "");
      NothingDropped(items, tail);
      assert b[0..] == b;
      FileIsWritten(b, 0, items, tail);
      OnlyClean(b, items);
    }
  }

  /** What a file was split into, written out and split again, stays the same exactly if every one of
      the statements is clean. */
  lemma SplittingAgainIsExact(b: string, items: seq<Item>, tail: string)
    requires Spaced(items) && Blank(tail) && Listed(items) == Statements(b)
    ensures Statements(File(items) + tail) == Statements(b) <==> forall x | x in Statements(b) :: Clean(x)
  {
    WritingIsExact(items, tail);
    ListedCover(items);
  }

  lemma ListedCover(items: seq<Item>)
    ensures AllClean(items) <==> forall x | x in Listed(items) :: Clean(x)
  {
    ListedAt(items);
    if AllClean(items) {
      forall x | x in Listed(items) ensures Clean(x) {
        var k :| 0 <= k < |Listed(items)| && Listed(items)[k] == x;
        assert items[k] in items;
      }
    } else {
      var item :| item in items && !Clean(item.statement);
      var k :| 0 <= k < |items| && items[k] == item;
      assert Listed(items)[k] in Listed(items);
    }
  }

  lemma {:induction false} ListedAt(items: seq<Item>)
    ensures |Listed(items)| == |items| && forall k | 0 <= k < |items| :: Listed(items)[k] == items[k].statement
  {
    if items != [] {
      ListedAt(items[1..]);
    }
  }

  /** In particular for a single statement. */
  lemma CleanIsExact(x: string)
    ensures Statements(x + ";") == [x] <==> Clean(x)
  {
    var items := [Item("", x)];
    assert File(items) + "" == "" + x + ";" + "" + "" == x + ";";
    assert Listed(items) == [x] && items[0] in items;
    WritingIsExact(items, "");
  }

  lemma GluedTokens(s: string)
    requires s == ['-', '/', '*', '*', '/', '-', ' ', 'b']
    ensures forall i | i in {0, 5, 6, 7} :: !IsComment(s, i) && TokenEnd(s, i) == i + 1
    ensures IsComment(s, 1) && TokenEnd(s, 1) == 5
  {
    assert s[3] == '*' && At(s, 4) == '/' && BlockEnd(s, 3) == 5;
    assert TokenEnd(s, 1) == 5;
  }

  lemma Glued(s: string)
    requires s == ['-', '/', '*', '*', '/', '-', ' ', 'b']
    ensures Rest(s, 0, "") == ["-- b"]
  {
    GluedTokens(s);
    assert Rest(s, 0, "") == Rest(s, 1, "-") by { assert "" + s[0..1] == "-"; }
    assert Rest(s, 1, "-") == Rest(s, 5, "-") by { assert BlankEnd("-", 1) == 1 && TrimBlanks("-") == "-"; }
    assert Rest(s, 5, "-") == Rest(s, 6, "--") by { assert "-" + s[5..6] == "--"; }
    assert Rest(s, 6, "--") == Rest(s, 7, "-- ") by { assert "--" + s[6..7] == "-- "; }
    assert Rest(s, 7, "-- ") == Rest(s, 8, "-- b") by { assert "-- " + s[7..8] == "-- b"; }
  }

  lemma CleanedOne(x: string)
    requires x != "" && Trimmed(x)
    ensures Cleaned([x]) == [x]
  {
    TrimSpaceTrims(x);
    assert [x][1..] == [];
  }

  /** Splitting its own output again is not the identity: dropping a comment can glue its neighbours
      into what is a comment the next time. */
  lemma SplittingIsNotIdempotent(s: string, x: string)
    requires s == ['-', '/', '*', '*', '/', '-', ' ', 'b'] && x == "-- b"
    ensures Statements(s) == [x] && Statements(x + ";") != [x]
  {
    assert Statements(s) == [x] by {
      Glued(s);
      RestIsGroup(s, 0, "");
      CleanedOne(x);
    }
    DashesAreNoStatement(x);
  }

  lemma DashesAreNoStatement(x: string)
    requires x == "-- b"
    ensures Statements(x + ";") != [x]
  {
    assert IsComment(x + ";", 0);
    CleanIsExact(x);
  }

  // ---- Literals ----

  /** A value inside a literal: the quote is doubled, and so is the backslash where it escapes. */
  function Escaped(v: string, q: char): string {
    if v == "" then ""
    else (if v[0] == q || (v[0] == '\\' && q != '`') then [v[0], v[0]] else [v[0]]) + Escaped(v[1..], q)
  }

  lemma {:induction false} EscapedEnds(t: string, i: nat, v: string, q: char)
    requires i <= |t| && IsQuote(q) && t[i..] == Escaped(v, q) + [q, ';']
    ensures LiteralEnd(t, i, q) == |t| - 1
    decreases |v|
  {
    assert t[i] == t[i..][0] && t[i + 1] == t[i..][1];
    if v != "" {
      var n := if v[0] == q || (v[0] == '\\' && q != '`') then 2 else 1;
      assert t[i + n..] == t[i..][n..] == Escaped(v[1..], q) + [q, ';'];
      EscapedEnds(t, i + n, v[1..], q);
    }
  }

  /** What the inside of a literal consists of: a character that is not its quote, a doubled quote, or a
      backslash and the character behind it, which between backticks is no escape. */
  predicate IsPiece(p: string, q: char) {
    (|p| == 1 && p[0] != q && (p[0] != '\\' || q == '`')) || p == [q, q] || (|p| == 2 && p[0] == '\\' && q != '`')
  }

  function Inside(pieces: seq<string>): string {
    if pieces == [] then "" else pieces[0] + Inside(pieces[1..])
  }

  lemma {:induction false} InsideEnds(t: string, i: nat, pieces: seq<string>, q: char)
    requires i <= |t| && IsQuote(q) && t[i..] == Inside(pieces) + [q, ';']
    requires forall k | 0 <= k < |pieces| :: IsPiece(pieces[k], q)
    ensures LiteralEnd(t, i, q) == |t| - 1
    decreases |pieces|
  {
    assert t[i] == t[i..][0] && t[i + 1] == t[i..][1];
    if pieces != [] {
      var p := pieces[0];
      assert IsPiece(p, q) && Inside(pieces) == p + Inside(pieces[1..]);
      assert t[i..][0] == p[0] && (|p| == 2 ==> t[i..][1] == p[1]);
      assert t[i + |p|..] == t[i..][|p|..] == Inside(pieces[1..]) + [q, ';'];
      InsideEnds(t, i + |p|, pieces[1..], q);
    }
  }

  lemma WholeLiteral(x: string, q: char)
    requires IsQuote(q) && |x| >= 2 && x[0] == q && x[|x| - 1] == q && LiteralEnd(x + ";", 1, q) == |x|
    ensures Clean(x)
  {
    var t := x + ";";
    assert t[0] == q;
    assert TokenEnd(t, 0) == |x| && ScansTo(t, |x|, |x|);
  }

  lemma InsideStands(inside: string, q: char)
    ensures ([q] + inside + [q] + ";")[1..] == inside + [q, ';']
  {
  }

  /** A literal is one piece whatever it contains, up to its first quote that is neither doubled nor, but
      between backticks, escaped. */
  lemma LiteralIsClean(pieces: seq<string>, q: char)
    requires IsQuote(q) && forall k | 0 <= k < |pieces| :: IsPiece(pieces[k], q)
    ensures Clean([q] + Inside(pieces) + [q])
  {
    var x := [q] + Inside(pieces) + [q];
    var t := x + ";";
    InsideStands(Inside(pieces), q);
    InsideEnds(t, 1, pieces, q);
    WholeLiteral(x, q);
  }

  /** Whatever a value contains, quoting it gives a literal that the splitter takes as one piece. */
  lemma QuotedValueIsClean(v: string, q: char)
    requires IsQuote(q)
    ensures Clean([q] + Escaped(v, q) + [q])
  {
    var x := [q] + Escaped(v, q) + [q];
    var t := x + ";";
    assert t[1..] == Escaped(v, q) + [q, ';'];
    EscapedEnds(t, 1, v, q);
    WholeLiteral(x, q);
  }
}
