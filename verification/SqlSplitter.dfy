/** The splitter that cuts a migration file into SQL statements: a one-pass lexer with three quote
    kinds, two ways of escaping, line, block and executable comments. */
module SqlSplitter {
  import opened Text

  // ---- What a file consists of ----

  /** A file is a sequence of tokens: comments that are dropped, text that is kept, separators. */
  datatype Token = Comment(raw: string) | Kept(raw: string) | Semicolon(raw: string)

  /** The byte at `i`, 0 past the end. */
  function At(s: string, i: nat): char {
    if i < |s| then s[i] else '\0'
  }

  predicate EndsDashes(s: string, i: nat) {
    i >= |s| || s[i] == ' ' || s[i] == '\t' || s[i] == '\n' || s[i] == '\r'
  }

  /** `#`, or `--` before white space or the end: MySQL does not take `--x` for a comment. */
  predicate StartsLine(s: string, i: nat) {
    At(s, i) == '#' || (At(s, i) == '-' && At(s, i + 1) == '-' && EndsDashes(s, i + 2))
  }

  predicate StartsBlock(s: string, i: nat) {
    At(s, i) == '/' && At(s, i + 1) == '*'
  }

  predicate IsQuote(c: char) {
    c == '\'' || c == '"' || c == '`'
  }

  /** The newline that ends a line comment, or the end. */
  function LineEnd(s: string, i: nat): (e: nat)
    requires i <= |s|
    ensures i <= e <= |s|
    decreases |s| - i
  {
    if i == |s| || s[i] == '\n' then i else LineEnd(s, i + 1)
  }

  /** Just after the first close of a comment, or the end. */
  function BlockEnd(s: string, i: nat): (e: nat)
    requires i <= |s|
    ensures i <= e <= |s|
    decreases |s| - i
  {
    if i == |s| then i else if s[i] == '*' && At(s, i + 1) == '/' then i + 2 else BlockEnd(s, i + 1)
  }

  /** From inside a literal, just after its closing quote, or the end. */
  function LiteralEnd(s: string, i: nat, q: char): (e: nat)
    requires i <= |s| && IsQuote(q)
    ensures i <= e <= |s|
    decreases |s| - i
  {
    if i == |s| then i
    else if s[i] == '\\' && q != '`' && i + 1 < |s| then LiteralEnd(s, i + 2, q)
    else if s[i] == q then (if At(s, i + 1) == q then LiteralEnd(s, i + 2, q) else i + 1)
    else LiteralEnd(s, i + 1, q)
  }

  /** The end of the token that starts at `i`. */
  function TokenEnd(s: string, i: nat): (e: nat)
    requires i < |s|
    ensures i < e <= |s|
  {
    if StartsLine(s, i) then LineEnd(s, i + 1)
    else if StartsBlock(s, i) then (if At(s, i + 2) == '!' then BlockEnd(s, i + 3) else BlockEnd(s, i + 2))
    else if IsQuote(s[i]) then LiteralEnd(s, i + 1, s[i])
    else i + 1
  }

  /** A comment that is dropped: every comment but the executable ones. */
  predicate IsComment(s: string, i: nat)
    requires i < |s|
  {
    StartsLine(s, i) || (StartsBlock(s, i) && At(s, i + 2) != '!')
  }

  function First(s: string, i: nat): (t: Token)
    requires i < |s|
    ensures t.raw == s[i..TokenEnd(s, i)]
  {
    var raw := s[i..TokenEnd(s, i)];
    if IsComment(s, i) then Comment(raw) else if s[i] == ';' then Semicolon(raw) else Kept(raw)
  }

  function Tokens(s: string, i: nat): seq<Token>
    requires i <= |s|
    decreases |s| - i
  {
    if i == |s| then [] else [First(s, i)] + Tokens(s, TokenEnd(s, i))
  }

  function Concat(ts: seq<Token>): string {
    if ts == [] then "" else ts[0].raw + Concat(ts[1..])
  }

  /** Every character of the file lies in exactly one token. */
  lemma {:induction false} TokensCover(s: string, i: nat)
    requires i <= |s|
    ensures Concat(Tokens(s, i)) == s[i..]
    decreases |s| - i
  {
    if i < |s| {
      TokensCover(s, TokenEnd(s, i));
      assert s[i..TokenEnd(s, i)] + s[TokenEnd(s, i)..] == s[i..];
    }
  }

  // ---- What the tokens mean ----

  /** The end of `s[..i]` without the blanks and tabs behind it. */
  function BlankEnd(s: string, i: nat): (e: nat)
    requires i <= |s|
    ensures e <= i
  {
    if 0 < i && (s[i - 1] == ' ' || s[i - 1] == '\t') then BlankEnd(s, i - 1) else i
  }

  /** strings.TrimRight(s, " \t"). */
  function TrimBlanks(s: string): string {
    s[..BlankEnd(s, |s|)]
  }

  /** The text between separators: comments vanish with the blanks before them. */
  function Group(ts: seq<Token>, acc: string): (chunks: seq<string>)
    ensures chunks != []
  {
    if ts == [] then [acc]
    else if ts[0].Comment? then Group(ts[1..], TrimBlanks(acc))
    else if ts[0].Kept? then Group(ts[1..], acc + ts[0].raw)
    else [acc] + Group(ts[1..], "")
  }

  /** A chunk in front of statements; one of white space only is no statement. */
  function Flushed(acc: string, more: seq<string>): seq<string> {
    if TrimSpace(acc) == "" then more else [TrimSpace(acc)] + more
  }

  function Cleaned(chunks: seq<string>): seq<string> {
    if chunks == [] then [] else Flushed(chunks[0], Cleaned(chunks[1..]))
  }

  /** What a file means: its tokens, grouped and trimmed. */
  function Statements(s: string): seq<string> {
    Cleaned(Group(Tokens(s, 0), ""))
  }

  lemma {:induction false} CleanedTrims(chunks: seq<string>)
    ensures forall x | x in Cleaned(chunks) :: x != "" && Trimmed(x)
  {
    if chunks != [] {
      TrimSpaceTrims(chunks[0]);
      CleanedTrims(chunks[1..]);
    }
  }

  /** No statement is empty or has white space around it. */
  lemma StatementsAreTrimmed(s: string)
    ensures forall x | x in Statements(s) :: x != "" && Trimmed(x)
  {
    CleanedTrims(Group(Tokens(s, 0), ""));
  }

  // ---- The loop ----

  /** What remains to be produced when the unread part starts at `i` and the builder holds `acc`. */
  function Rest(s: string, i: nat, acc: string): (chunks: seq<string>)
    requires i <= |s|
    decreases |s| - i
  {
    if i == |s| then [acc]
    else if IsComment(s, i) then Rest(s, TokenEnd(s, i), TrimBlanks(acc))
    else if s[i] == ';' then [acc] + Rest(s, i + 1, "")
    else Rest(s, TokenEnd(s, i), acc + s[i..TokenEnd(s, i)])
  }

  /** Lexing and grouping in one go comes to the same. */
  lemma {:induction false} RestIsGroup(s: string, i: nat, acc: string)
    requires i <= |s|
    ensures Rest(s, i, acc) == Group(Tokens(s, i), acc)
    decreases |s| - i
  {
    if i < |s| {
      var t, e := First(s, i), TokenEnd(s, i);
      assert ([t] + Tokens(s, e))[1..] == Tokens(s, e);
      RestIsGroup(s, e, if t.Comment? then TrimBlanks(acc) else if t.Kept? then acc + t.raw else "");
    }
  }

  /** What one token does to what remains. */
  lemma Turn(b: string, i: nat, acc: string)
    requires i < |b|
    ensures IsComment(b, i) ==> Rest(b, i, acc) == Rest(b, TokenEnd(b, i), TrimBlanks(acc))
    ensures !IsComment(b, i) && b[i] == ';' ==> Rest(b, i, acc) == [acc] + Rest(b, i + 1, "")
    ensures !IsComment(b, i) && b[i] != ';' ==> Rest(b, i, acc) == Rest(b, TokenEnd(b, i), acc + b[i..TokenEnd(b, i)])
  {
  }

  /** A chunk behind statements. */
  function Appended(statements: seq<string>, acc: string): seq<string> {
    if TrimSpace(acc) == "" then statements else statements + [TrimSpace(acc)]
  }

  /** Chunks behind statements, one after another. */
  function Collected(statements: seq<string>, chunks: seq<string>): seq<string>
    decreases |chunks|
  {
    if chunks == [] then statements else Collected(Appended(statements, chunks[0]), chunks[1..])
  }

  /** What the loop is going to return. */
  function Outcome(statements: seq<string>, b: string, i: nat, acc: string): seq<string>
    requires i <= |b|
  {
    Collected(statements, Rest(b, i, acc))
  }

  lemma PassComment(statements: seq<string>, b: string, i: nat, acc: string)
    requires i < |b| && IsComment(b, i)
    ensures Outcome(statements, b, i, acc) == Outcome(statements, b, TokenEnd(b, i), TrimBlanks(acc))
  {
  }

  lemma PassText(statements: seq<string>, b: string, i: nat, acc: string, text: string)
    requires i < |b| && !IsComment(b, i) && b[i] != ';' && text == b[i..TokenEnd(b, i)]
    ensures Outcome(statements, b, i, acc) == Outcome(statements, b, TokenEnd(b, i), acc + text)
  {
  }

  lemma PassSeparator(statements: seq<string>, b: string, i: nat, acc: string)
    requires i < |b| && !IsComment(b, i) && b[i] == ';'
    ensures Outcome(statements, b, i, acc) == Outcome(Appended(statements, acc), b, i + 1, "")
  {
    var rest := Rest(b, i + 1, "");
    assert ([acc] + rest)[1..] == rest;
  }

  lemma AtEnd(statements: seq<string>, b: string, acc: string)
    ensures Outcome(statements, b, |b|, acc) == Appended(statements, acc)
  {
    assert Rest(b, |b|, acc) == [acc] && [acc][1..] == [];
    assert Collected(Appended(statements, acc), []) == Appended(statements, acc);
  }

  lemma FlushedBehind(statements: seq<string>, acc: string, more: seq<string>)
    ensures Appended(statements, acc) + more == statements + Flushed(acc, more)
  {
  }

  lemma {:induction false} CollectedIsCleaned(statements: seq<string>, chunks: seq<string>)
    ensures Collected(statements, chunks) == statements + Cleaned(chunks)
    decreases |chunks|
  {
    if chunks != [] {
      CollectedIsCleaned(Appended(statements, chunks[0]), chunks[1..]);
      FlushedBehind(statements, chunks[0], Cleaned(chunks[1..]));
    }
  }

  lemma Longer(b: string, from: nat, i: nat)
    requires from <= i < |b|
    ensures b[from..i] + [b[i]] == b[from..i + 1]
    ensures i + 1 < |b| ==> b[from..i] + [b[i], b[i + 1]] == b[from..i + 2]
  {
  }

  /** Past the text of a line comment. */
  method SkipLine(b: string, from: nat) returns (i: nat)
    requires from <= |b|
    ensures i == LineEnd(b, from)
  {
    i := from;
    while i < |b| && b[i] != '\n'
      invariant from <= i <= |b| && LineEnd(b, i) == LineEnd(b, from)
    {
      i := i + 1;
    }
  }

  /** Past the text of a block comment. */
  method SkipBlock(b: string, from: nat) returns (i: nat)
    requires from <= |b|
    ensures i == BlockEnd(b, from)
  {
    i := from;
    while i < |b| && !(b[i] == '*' && At(b, i + 1) == '/')
      invariant from <= i <= |b| && BlockEnd(b, i) == BlockEnd(b, from)
    {
      i := i + 1;
    }
    if i < |b| {
      i := i + 2;
    }
  }

  /** An executable comment, copied whole. */
  method CopyExecutable(b: string, at: nat) returns (text: string, i: nat)
    requires at + 3 <= |b| && b[at..at + 3] == "/*!"
    ensures i == BlockEnd(b, at + 3) && text == b[at..i]
  {
    text, i := "/*!", at + 3;
    while i < |b| && !(b[i] == '*' && At(b, i + 1) == '/')
      invariant at + 3 <= i <= |b| && BlockEnd(b, i) == BlockEnd(b, at + 3)
      invariant text == b[at..i]
    {
      Longer(b, at, i);
      text := text + [b[i]];
      i := i + 1;
    }
    if i < |b| {
      Longer(b, at, i);
      text := text + "*/";
      i := i + 2;
    }
  }

  /** A literal, copied whole. */
  method CopyLiteral(b: string, at: nat) returns (text: string, i: nat)
    requires at < |b| && IsQuote(b[at])
    ensures i == LiteralEnd(b, at + 1, b[at]) && text == b[at..i]
  {
    var closing := b[at];
    text, i := [closing], at + 1;
    while i < |b|
      invariant at < i <= |b| && LiteralEnd(b, i, closing) == LiteralEnd(b, at + 1, closing)
      invariant text == b[at..i]
    {
      Longer(b, at, i);
      if b[i] == '\\' && closing != '`' && i + 1 < |b| {
        text := text + [b[i], b[i + 1]];
        i := i + 2;
        continue;
      }
      if b[i] == closing {
        if At(b, i + 1) == closing {
          text := text + [b[i], b[i + 1]];
          i := i + 2;
          continue;
        }
        text := text + [b[i]];
        i := i + 1;
        return;
      }
      text := text + [b[i]];
      i := i + 1;
    }
  }

  /** One turn of the loop: a comment, an executable comment, a literal, a separator or a character. */
  method TakeToken(b: string, at: nat, acc: string, found: seq<string>)
    returns (i: nat, sb: string, statements: seq<string>)
    requires at < |b|
    ensures at < i <= |b| && Outcome(statements, b, i, sb) == Outcome(found, b, at, acc)
  {
    i, sb, statements := at, acc, found;
    var c := b[i];
    if c == '#' || (c == '-' && At(b, i + 1) == '-' && EndsDashes(b, i + 2)) {
      sb := TrimBlanks(sb);
      i := SkipLine(b, i + 1);
      PassComment(found, b, at, acc);
    } else if c == '/' && At(b, i + 1) == '*' {
      if At(b, i + 2) == '!' {
        var text;
        text, i := CopyExecutable(b, i);
        sb := sb + text;
        PassText(found, b, at, acc, text);
      } else {
        sb := TrimBlanks(sb);
        i := SkipBlock(b, i + 2);
        PassComment(found, b, at, acc);
      }
    } else if c == '\'' || c == '"' || c == '`' {
      var text;
      text, i := CopyLiteral(b, i);
      sb := sb + text;
      PassText(found, b, at, acc, text);
    } else if c == ';' {
      statements, sb := Appended(statements, sb), "";
      i := i + 1;
      PassSeparator(found, b, at, acc);
    } else {
      sb := sb + [c];
      i := i + 1;
      PassText(found, b, at, acc, [c]);
    }
  }

  /** migrationIfadeleri: the loop computes what the grouped tokens say. */
  method MigrationStatements(b: string) returns (statements: seq<string>)
    ensures statements == Statements(b)
  {
    statements := [];
    var sb, i, n := "", 0, |b|;
    while i < n
      invariant 0 <= i <= n && Outcome(statements, b, i, sb) == Outcome([], b, 0, "")
    {
      i, sb, statements := TakeToken(b, i, sb, statements);
    }
    AtEnd(statements, b, sb);
    statements := Appended(statements, sb);
    CollectedIsCleaned([], Rest(b, 0, ""));
    RestIsGroup(b, 0, "");
  }
}
