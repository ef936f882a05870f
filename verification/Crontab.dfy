/** The crontab of a tenant: what is read from the file, what is written, and when the two agree. */
module Crontab {
  import opened Text

  const MAX_JOBS := 100
  const MAX_COMMAND := 1024
  const OWN := "sanalcp"

  /** An entry: five time fields, the command, and the comment above it. */
  datatype Job = Job(times: seq<string>, command: string, comment: string)

  // ---- Reading ----

  predicate IsComment(line: string) {
    line != "" && line[0] == '#'
  }

  /** The panel's own banner does not count as a comment. */
  function CommentAfter(line: string, comment: string): string
    requires line != ""
  {
    var c := TrimSpace(line[1..]);
    if HasPrefix(c, OWN) then comment else c
  }

  function Entry(words: seq<string>, comment: string): Job
    requires |words| >= 6
  {
    Job(words[..5], Join(words[5..]), comment)
  }

  /** `read`, on the lines of the file. */
  function ReadLines(lines: seq<string>, comment: string): seq<Job> {
    if lines == [] then []
    else
      var line := TrimSpace(lines[0]);
      if line == "" then ReadLines(lines[1..], "")
      else if IsComment(line) then ReadLines(lines[1..], CommentAfter(line, comment))
      else if |Fields(line, 0)| < 6 then ReadLines(lines[1..], comment)
      else [Entry(Fields(line, 0), comment)] + ReadLines(lines[1..], "")
  }

  function Read(file: string): seq<Job> {
    ReadLines(Split(file, '\n'), "")
  }

  // ---- Writing ----

  /** strings.ReplaceAll(s, "\n", " "). */
  function OneLine(s: string): string {
    if s == "" then "" else [if s[0] == '\n' then ' ' else s[0]] + OneLine(s[1..])
  }

  function JobLines(j: Job): seq<string> {
    (if j.comment != "" then ["# " + OneLine(j.comment)] else []) + [Join(j.times + [j.command])]
  }

  function ListLines(list: seq<Job>): seq<string> {
    if list == [] then [] else JobLines(list[0]) + ListLines(list[1..])
  }

  /** `write`: the banner, the stamp with the tenant, a blank line, and the entries. */
  function Written(banner: string, stamp: string, list: seq<Job>): string {
    Terminated([banner, stamp, ""] + ListLines(list))
  }

  // ---- Which entries survive ----

  /** An entry of the kind that reading produces. */
  predicate Readable(j: Job) {
    |j.times| == 5 && (forall w | w in j.times :: IsWord(w)) && !IsComment(j.times[0])
    && Fields(j.command, 0) != [] && j.command == Join(Fields(j.command, 0))
    && GoodComment(j.comment)
  }

  predicate GoodComment(c: string) {
    Trimmed(c) && '\n' !in c && !HasPrefix(c, OWN)
  }

  lemma SlicesOfWords(words: seq<string>)
    requires |words| >= 6 && forall w | w in words :: IsWord(w)
    ensures (forall w | w in words[..5] :: IsWord(w)) && forall w | w in words[5..] :: IsWord(w)
  {
  }

  lemma {:induction false} FirstWord(line: string)
    requires Trimmed(line) && line != "" && Fields(line, 0) != []
    ensures Fields(line, 0)[0] != "" && Fields(line, 0)[0][0] == line[0]
  {
  }

  lemma EntryIsReadable(line: string, comment: string)
    requires Trimmed(line) && line != "" && !IsComment(line) && |Fields(line, 0)| >= 6 && GoodComment(comment)
    ensures Readable(Entry(Fields(line, 0), comment))
  {
    var words := Fields(line, 0);
    FieldsAreWords(line, 0);
    FirstWord(line);
    SlicesOfWords(words);
    FieldsOfJoin(words[5..]);
  }

  lemma CommentIsGood(line: string, comment: string)
    requires line != "" && '\n' !in line && GoodComment(comment)
    ensures GoodComment(CommentAfter(line, comment))
  {
    TrimSpaceTrims(line[1..]);
  }

  /** Whatever the file holds, reading gives readable entries only. */
  lemma {:induction false} ReadingIsReadable(lines: seq<string>, comment: string)
    requires (forall l | l in lines :: '\n' !in l) && GoodComment(comment)
    ensures forall j | j in ReadLines(lines, comment) :: Readable(j)
  {
    if lines != [] {
      var line := TrimSpace(lines[0]);
      TrimSpaceTrims(lines[0]);
      assert lines[0] in lines;
      if line == "" {
        ReadingIsReadable(lines[1..], "");
      } else if IsComment(line) {
        CommentIsGood(line, comment);
        ReadingIsReadable(lines[1..], CommentAfter(line, comment));
      } else if |Fields(line, 0)| < 6 {
        ReadingIsReadable(lines[1..], comment);
      } else {
        EntryIsReadable(line, comment);
        ReadingIsReadable(lines[1..], "");
      }
    }
  }

  // ---- The lines of an entry ----

  lemma {:induction false} JoinNests(a: seq<string>, b: seq<string>)
    requires b != []
    ensures Join(a + [Join(b)]) == Join(a + b)
  {
    if a == [] {
      assert a + [Join(b)] == [Join(b)] && a + b == b;
    } else {
      assert (a + [Join(b)])[1..] == a[1..] + [Join(b)] && (a + b)[1..] == a[1..] + b;
      JoinNests(a[1..], b);
    }
  }

  lemma {:induction false} JoinEnds(words: seq<string>)
    requires words != [] && IsWord(words[0]) && forall w | w in words :: IsWord(w)
    ensures Join(words) != "" && Join(words)[0] == words[0][0] && !IsSpace(Join(words)[|Join(words)| - 1])
  {
    var w := words[0];
    assert w[|w| - 1] in w;
    if |words| > 1 {
      assert words[1..][0] in words;
      JoinEnds(words[1..]);
      var more := Join(words[1..]);
      assert Join(words) == w + " " + more;
      assert Join(words)[|Join(words)| - 1] == more[|more| - 1];
    }
  }

  lemma JobLineReads(j: Job, line: string)
    requires Readable(j) && line == Join(j.times + [j.command])
    ensures TrimSpace(line) == line != "" && !IsComment(line)
    ensures |Fields(line, 0)| >= 6 && Entry(Fields(line, 0), j.comment) == j
  {
    var rest := Fields(j.command, 0);
    var words := j.times + rest;
    FieldsAreWords(j.command, 0);
    JoinNests(j.times, rest);
    assert words[0] == j.times[0] && words[0] in j.times;
    JoinEnds(words);
    FieldsOfJoin(words);
    assert line[0] in words[0];
    TrimSpaceTrims(line);
    assert words[..5] == j.times && words[5..] == rest;
  }

  lemma {:induction false} OneLineKeeps(s: string)
    requires '\n' !in s
    ensures OneLine(s) == s
  {
    if s != "" {
      assert s[0] in s;
      assert forall c | c in s[1..] :: c in s;
      OneLineKeeps(s[1..]);
    }
  }

  lemma CommentLineReads(c: string, line: string, was: string)
    requires GoodComment(c) && c != "" && line == "# " + OneLine(c)
    ensures TrimSpace(line) == line != "" && IsComment(line) && CommentAfter(line, was) == c
  {
    OneLineKeeps(c);
    assert line[|line| - 1] == c[|c| - 1];
    TrimSpaceTrims(line);
    assert line[1..] == " " + c + "";
    TrimPadded(" ", c, "");
  }

  lemma ReadsJobLine(j: Job, line: string, rest: seq<string>)
    requires Readable(j) && line == Join(j.times + [j.command])
    ensures ReadLines([line] + rest, j.comment) == [j] + ReadLines(rest, "")
  {
    JobLineReads(j, line);
    assert ([line] + rest)[1..] == rest;
  }

  lemma ReadsNote(c: string, note: string, lines: seq<string>)
    requires GoodComment(c) && c != "" && note == "# " + OneLine(c)
    ensures ReadLines([note] + lines, "") == ReadLines(lines, c)
  {
    CommentLineReads(c, note, "");
    assert ([note] + lines)[1..] == lines;
  }

  lemma JobLinesSplit(j: Job, rest: seq<string>)
    ensures var lines := [Join(j.times + [j.command])] + rest;
      JobLines(j) + rest == if j.comment == "" then lines else ["# " + OneLine(j.comment)] + lines
  {
  }

  lemma ReadsOne(j: Job, rest: seq<string>)
    requires Readable(j)
    ensures ReadLines(JobLines(j) + rest, "") == [j] + ReadLines(rest, "")
  {
    var line := Join(j.times + [j.command]);
    JobLinesSplit(j, rest);
    ReadsJobLine(j, line, rest);
    if j.comment != "" {
      ReadsNote(j.comment, "# " + OneLine(j.comment), [line] + rest);
    }
  }

  lemma {:induction false} ReadsList(list: seq<Job>)
    requires forall j | j in list :: Readable(j)
    ensures ReadLines(ListLines(list), "") == list
  {
    if list != [] {
      ReadsList(list[1..]);
      ReadsOne(list[0], ListLines(list[1..]));
    }
  }

  // ---- The whole file ----

  predicate Header(banner: string, stamp: string) {
    '\n' !in banner && '\n' !in stamp && IsComment(TrimSpace(banner)) && IsComment(TrimSpace(stamp))
  }

  lemma PassesComment(line: string, more: seq<string>, comment: string)
    requires IsComment(TrimSpace(line))
    ensures ReadLines([line] + more, comment) == ReadLines(more, CommentAfter(TrimSpace(line), comment))
  {
    assert ([line] + more)[1..] == more;
  }

  lemma PassesBlank(more: seq<string>, comment: string)
    ensures ReadLines([""] + more, comment) == ReadLines(more, "")
  {
    assert TrimSpace("") == "";
    assert ([""] + more)[1..] == more;
  }

  lemma HeaderLines(banner: string, stamp: string, rest: seq<string>)
    ensures [banner, stamp, ""] + rest == [banner] + ([stamp] + ([""] + rest))
  {
  }

  /** The blank line after the header clears the comment it would leave. */
  lemma HeaderIsPassed(banner: string, stamp: string, rest: seq<string>)
    requires Header(banner, stamp)
    ensures ReadLines([banner, stamp, ""] + rest, "") == ReadLines(rest, "")
  {
    HeaderLines(banner, stamp, rest);
    var a := CommentAfter(TrimSpace(banner), "");
    PassesComment(banner, [stamp] + ([""] + rest), "");
    PassesComment(stamp, [""] + rest, a);
    PassesBlank(rest, CommentAfter(TrimSpace(stamp), a));
  }

  lemma JobLinesAreLines(j: Job)
    requires Readable(j)
    ensures forall l | l in JobLines(j) :: '\n' !in l
  {
    var line := Join(j.times + [j.command]);
    JobLineReads(j, line);
    NoNewlineInWords(j);
    OneLineKeeps(j.comment);
  }

  lemma NoNewlineInWords(j: Job)
    requires Readable(j)
    ensures '\n' !in Join(j.times + [j.command])
  {
    FieldsAreWords(j.command, 0);
    JoinNests(j.times, Fields(j.command, 0));
    JoinIsOneLine(j.times + Fields(j.command, 0));
  }

  lemma {:induction false} JoinIsOneLine(words: seq<string>)
    requires forall w | w in words :: IsWord(w)
    ensures '\n' !in Join(words)
  {
    if words != [] {
      assert IsWord(words[0]) && '\n' !in words[0];
      JoinIsOneLine(words[1..]);
    }
  }

  lemma {:induction false} LinesAreLines(list: seq<Job>)
    requires forall j | j in list :: Readable(j)
    ensures forall l | l in ListLines(list) :: '\n' !in l
  {
    if list != [] {
      JobLinesAreLines(list[0]);
      LinesAreLines(list[1..]);
    }
  }

  lemma {:induction false} TrailingBlank(lines: seq<string>, comment: string)
    ensures ReadLines(lines + [""], comment) == ReadLines(lines, comment)
  {
    assert TrimSpace("") == "";
    if lines == [] {
      assert lines + [""] == [""] && [""][1..] == [];
    } else {
      assert (lines + [""])[1..] == lines[1..] + [""];
      var line := TrimSpace(lines[0]);
      TrailingBlank(lines[1..], "");
      TrailingBlank(lines[1..], comment);
      if IsComment(line) {
        TrailingBlank(lines[1..], CommentAfter(line, comment));
      }
    }
  }

  lemma ReadableReadsBack(banner: string, stamp: string, list: seq<Job>)
    requires Header(banner, stamp) && forall j | j in list :: Readable(j)
    ensures Read(Written(banner, stamp, list)) == list
  {
    var lines := [banner, stamp, ""] + ListLines(list);
    LinesAreLines(list);
    SplitTerminated(lines);
    TrailingBlank(lines, "");
    HeaderIsPassed(banner, stamp, ListLines(list));
    ReadsList(list);
  }

  lemma ReadIsReadable(file: string)
    ensures forall j | j in Read(file) :: Readable(j)
  {
    ReadingIsReadable(Split(file, '\n'), "");
  }

  /** A written crontab reads back as the same list, comments and order included, exactly when every
      entry is of the kind that reading produces. */
  lemma ReadsBackExactly(banner: string, stamp: string, list: seq<Job>)
    requires Header(banner, stamp)
    ensures Read(Written(banner, stamp, list)) == list <==> forall j | j in list :: Readable(j)
  {
    ReadIsReadable(Written(banner, stamp, list));
    if forall j | j in list :: Readable(j) {
      ReadableReadsBack(banner, stamp, list);
    }
  }

  lemma {:induction false} TerminatedJoins(a: seq<string>, b: seq<string>)
    ensures Terminated(a + b) == Terminated(a) + Terminated(b)
  {
    if a == [] {
      assert a + b == b;
    } else {
      assert (a + b)[1..] == a[1..] + b;
      TerminatedJoins(a[1..], b);
    }
  }

  lemma {:induction false} ListLinesGrow(list: seq<Job>, j: Job)
    ensures ListLines(list + [j]) == ListLines(list) + JobLines(j)
  {
    if list == [] {
      assert list + [j] == [j] && [j][1..] == [];
    } else {
      assert (list + [j])[1..] == list[1..] + [j];
      ListLinesGrow(list[1..], j);
    }
  }

  lemma JoinOfSix(w: seq<string>)
    requires |w| == 6
    ensures Join(w) == w[0] + " " + (w[1] + " " + (w[2] + " " + (w[3] + " " + (w[4] + " " + w[5]))))
  {
    assert Join(w[4..]) == w[4] + " " + w[5] by { assert w[4..][1..] == [w[5]]; }
    assert w[3..][1..] == w[4..] && w[2..][1..] == w[3..] && w[1..][1..] == w[2..];
    assert Join(w[3..]) == w[3] + " " + Join(w[4..]);
    assert Join(w[2..]) == w[2] + " " + Join(w[3..]);
    assert Join(w[1..]) == w[1] + " " + Join(w[2..]);
  }

  /** An entry is one line of the file, its times and its command with blanks between them, below a line
      for its comment if it has one. */
  lemma EntryIsALine(banner: string, stamp: string, list: seq<Job>, j: Job)
    requires |j.times| == 5
    ensures Written(banner, stamp, list + [j]) == Written(banner, stamp, list)
      + Terminated((if j.comment == "" then [] else ["# " + OneLine(j.comment)])
                   + [j.times[0] + " " + (j.times[1] + " " + (j.times[2] + " " + (j.times[3] + " " + (j.times[4] + " "
                      + j.command))))])
  {
    ListLinesGrow(list, j);
    JoinOfSix(j.times + [j.command]);
    var head := [banner, stamp, ""];
    assert head + (ListLines(list) + JobLines(j)) == (head + ListLines(list)) + JobLines(j);
    TerminatedJoins(head + ListLines(list), JobLines(j));
  }

  // ---- Adding and deleting ----

  predicate HasAny(s: string, cs: set<char>) {
    exists c | c in s :: c in cs
  }

  /** validate. */
  predicate Validated(j: Job) {
    |j.times| == 5 && (forall f | f in j.times :: f != "" && !HasAny(f, {';', '|', '&', '`', '\n'}))
    && j.command != "" && |j.command| <= MAX_COMMAND && !HasAny(j.command, {'\n', '\r'})
  }

  lemma ValidatedMeans(j: Job)
    ensures Validated(j)
      <==> (|j.times| == 5 && 0 < |j.command| <= 1024 && '\n' !in j.command && '\r' !in j.command
            && forall k | 0 <= k < 5 :: j.times[k] != "" && ';' !in j.times[k] && '|' !in j.times[k]
                                        && '&' !in j.times[k] && '`' !in j.times[k] && '\n' !in j.times[k])
  {
    if Validated(j) {
      forall k | 0 <= k < 5
        ensures j.times[k] != "" && !HasAny(j.times[k], {';', '|', '&', '`', '\n'})
      {
        assert j.times[k] in j.times;
      }
    }
  }

  /** What validation accepts need not survive: here a time field holds a blank. */
  lemma ValidationIsNotEnough(j: Job)
    requires j == Job(["1 2", "*", "*", "*", "*"], "true", "")
    ensures Validated(j) && !Readable(j)
  {
    assert j.times[0][1] == ' ' && ' ' in j.times[0] && j.times[0] in j.times;
    assert !IsWord(j.times[0]);
  }

  datatype Outcome = Done | TooMany | Invalid | NotFound

  /** The file in the spool directory. */
  class Spool {
    const banner: string
    const stamp: string
    var file: string

    constructor (banner: string, stamp: string, file: string)
      ensures this.banner == banner && this.stamp == stamp && this.file == file
    {
      this.banner, this.stamp, this.file := banner, stamp, file;
    }

    method ReadFile() returns (list: seq<Job>)
      ensures list == Read(file)
    {
      var lines, comment, i := Split(file, '\n'), "", 0;
      list := [];
      while i < |lines|
        invariant 0 <= i <= |lines|
        invariant list + ReadLines(lines[i..], comment) == Read(file)
      {
        var line := TrimSpace(lines[i]);
        assert lines[i..][0] == lines[i] && lines[i..][1..] == lines[i + 1..];
        i := i + 1;
        if line == "" {
          comment := "";
          continue;
        }
        if IsComment(line) {
          var c := TrimSpace(line[1..]);
          if !HasPrefix(c, OWN) {
            comment := c;
          }
          continue;
        }
        var words := Fields(line, 0);
        if |words| < 6 {
          continue;
        }
        Extend(list, Entry(words, comment), ReadLines(lines[i..], ""));
        list := list + [Entry(words, comment)];
        comment := "";
      }
    }

    lemma Extend(list: seq<Job>, j: Job, rest: seq<Job>)
      ensures list + ([j] + rest) == (list + [j]) + rest
    {
    }

    method WriteFile(list: seq<Job>)
      modifies this
      ensures file == Written(banner, stamp, list)
    {
      var lines, i := [banner, stamp, ""], 0;
      while i < |list|
        invariant 0 <= i <= |list|
        invariant lines + ListLines(list[i..]) == [banner, stamp, ""] + ListLines(list)
      {
        assert list[i..][0] == list[i] && list[i..][1..] == list[i + 1..];
        lines := lines + JobLines(list[i]);
        i := i + 1;
      }
      assert lines + ListLines(list[i..]) == lines;
      file := Terminated(lines);
    }

    /** Create: the new list is written only if it is valid and not too long. */
    method Create(j: Job) returns (outcome: Outcome)
      requires Header(banner, stamp)
      modifies this
      ensures !outcome.Invalid?
        <==> (|j.times| == 5 && 0 < |j.command| <= 1024 && '\n' !in j.command && '\r' !in j.command
              && forall k | 0 <= k < 5 :: j.times[k] != "" && ';' !in j.times[k] && '|' !in j.times[k]
                                          && '&' !in j.times[k] && '`' !in j.times[k] && '\n' !in j.times[k])
      ensures outcome.TooMany? <==> !outcome.Invalid? && |Read(old(file))| >= 100
      ensures !outcome.Done? ==> file == old(file)
      ensures outcome.Done? ==> (Read(file) == Read(old(file)) + [j] <==> Readable(j))
      ensures !outcome.NotFound?
    {
      ValidatedMeans(j);
      if !Validated(j) {
        return Invalid;
      }
      var list := ReadFile();
      if |list| >= MAX_JOBS {
        return TooMany;
      }
      ReadIsReadable(file);
      WriteFile(list + [j]);
      ReadsBackExactly(banner, stamp, list + [j]);
      assert (list + [j])[|list|] == j;
      return Done;
    }

    /** Delete: reading again gives exactly the list without that entry. */
    method Delete(idx: int) returns (outcome: Outcome)
      requires Header(banner, stamp)
      modifies this
      ensures outcome.Done? <==> 0 <= idx < |Read(old(file))|
      ensures outcome.Done? ==> Read(file) == Read(old(file))[..idx] + Read(old(file))[idx + 1..]
      ensures !outcome.Done? ==> outcome.NotFound? && file == old(file)
    {
      var list := ReadFile();
      if idx < 0 || idx >= |list| {
        return NotFound;
      }
      ReadIsReadable(file);
      var rest := list[..idx] + list[idx + 1..];
      assert forall j | j in rest :: j in list;
      WriteFile(rest);
      ReadsBackExactly(banner, stamp, rest);
      return Done;
    }
  }
}
