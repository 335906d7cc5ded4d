/**
 * The parser of `git blame --line-porcelain` output in `process_file`: a line
 * by line state machine whose cursor is the current author, e-mail, date and
 * line counter, and which files every attributable content line under its
 * author.
 */
module Blame {
  import opened Options
  import opened Strings

  /** A line currently in the file, as blame attributes it. */
  datatype LineInfo = LineInfo(content: string, lineNumber: nat, lastModified: Option<string>)

  /**
   * What `process_file` returns for one author of one file: the lines blame
   * gives them, the lines the log says they added, the last date and e-mail seen.
   */
  datatype FileEntry = FileEntry(
    currentLines: seq<LineInfo>, historical: int, lastModified: Option<string>, email: Option<string>)

  /** The `defaultdict` default `([], 0, None, None)`. */
  const EmptyEntry := FileEntry([], 0, None, None)

  /** The per-file result, keyed by author name. */
  type FileResult = map<string, FileEntry>

  /** `result[author]` on the `defaultdict`: the stored entry, or the default. */
  function EntryOf(result: FileResult, author: string): FileEntry {
    if author in result then result[author] else EmptyEntry
  }

  const AuthorHeader := "author "
  const MailHeader := "author-mail "
  const TimeHeader := "author-time "

  predicate IsAngle(c: char) {
    c == '<' || c == '>'
  }

  /**
   * The date of an `author-time` value: `fromtimestamp(int(v))` formatted as
   * a day. `formatDate` stands for `datetime`; `None` where `int()` or
   * `datetime` raises.
   */
  function DateOf(v: string, formatDate: int -> Option<string>): Option<string> {
    match ParseInt(v)
    case None => None
    case Some(t) => formatDate(t)
  }

  /** A content line is recorded when its content is non-empty and the current author is. */
  predicate IsRecorded(line: string, author: Option<string>) {
    StartsWith(line, "\t") && |line| > 1 && Truthy(author)
  }

  /** The parser's cursor and the result built so far. */
  datatype BlameState = BlameState(
    author: Option<string>, email: Option<string>, date: Option<string>, lineNum: nat, result: FileResult)

  const StartState := BlameState(None, None, None, 0, map[])

  /** One iteration of the loop over the blame output; `None` where it raises. */
  function BlameStep(s: BlameState, line: string, formatDate: int -> Option<string>): Option<BlameState> {
    if StartsWith(line, AuthorHeader) then Some(s.(author := Some(line[7..])))
    else if StartsWith(line, MailHeader) then Some(s.(email := Some(StripChars(line[12..], IsAngle))))
    else if StartsWith(line, TimeHeader) then
      match DateOf(line[12..], formatDate)
      case None => None
      case Some(d) => Some(s.(date := Some(d)))
    else if IsRecorded(line, s.author) then
      var a := s.author.value;
      var e := EntryOf(s.result, a);
      var info := LineInfo(line[1..], s.lineNum, s.date);
      Some(s.(lineNum := s.lineNum + 1,
              result := s.result[a := FileEntry(e.currentLines + [info], e.historical, s.date, s.email)]))
    else Some(s)
  }

  /** The loop run over `lines` from the start state; `None` once a step has raised. */
  function BlameRun(lines: seq<string>, formatDate: int -> Option<string>): Option<BlameState>
    decreases |lines|
  {
    if lines == [] then Some(StartState)
    else
      match BlameRun(lines[..|lines| - 1], formatDate)
      case None => None
      case Some(s) => BlameStep(s, lines[|lines| - 1], formatDate)
  }

  /** The per-file result after the blame loop, `None` when the loop raised. */
  function BlameResult(lines: seq<string>, formatDate: int -> Option<string>): Option<FileResult> {
    match BlameRun(lines, formatDate)
    case None => None
    case Some(s) => Some(s.result)
  }

  /** Once the loop has raised, longer outputs raise too. */
  lemma {:induction false} BlameRunStaysFailed(lines: seq<string>, n: nat, formatDate: int -> Option<string>)
    requires n <= |lines| && BlameRun(lines[..n], formatDate).None?
    ensures BlameRun(lines, formatDate).None?
    decreases |lines| - n
  {
    if n < |lines| {
      assert lines[..n + 1][..n] == lines[..n];
      BlameRunStaysFailed(lines, n + 1, formatDate);
    } else {
      assert lines[..n] == lines;
    }
  }

  /** The blame loop, over the output split into lines. */
  method ParseBlame(blameLines: seq<string>, formatDate: int -> Option<string>) returns (result: Option<FileResult>)
    ensures result == BlameResult(blameLines, formatDate)
  {
    var currentAuthor: Option<string> := None;
    var currentLineNum: nat := 0;
    var currentDate: Option<string> := None;
    var currentEmail: Option<string> := None;
    var res: FileResult := map[];
    var i := 0;
    while i < |blameLines|
      invariant 0 <= i <= |blameLines|
      invariant BlameRun(blameLines[..i], formatDate)
             == Some(BlameState(currentAuthor, currentEmail, currentDate, currentLineNum, res))
    {
      assert blameLines[..i + 1][..i] == blameLines[..i];
      var ok;
      ok, currentAuthor, currentEmail, currentDate, currentLineNum, res :=
        ReadBlameLine(currentAuthor, currentEmail, currentDate, currentLineNum, res, blameLines[i], formatDate);
      if !ok {
        BlameRunStaysFailed(blameLines, i + 1, formatDate);
        return None;
      }
      i := i + 1;
    }
    assert blameLines[..i] == blameLines;
    result := Some(res);
  }

  /**
   * The body of the blame loop: one line read against the cursor; `ok` is
   * false where the date conversion raises.
   */
  method ReadBlameLine(
    author: Option<string>, email: Option<string>, date: Option<string>, lineNum: nat, res: FileResult,
    line: string, formatDate: int -> Option<string>)
    returns (ok: bool, author': Option<string>, email': Option<string>, date': Option<string>, lineNum': nat, res': FileResult)
    ensures var step := BlameStep(BlameState(author, email, date, lineNum, res), line, formatDate);
      if ok then step == Some(BlameState(author', email', date', lineNum', res')) else step.None?
  {
    ok, author', email', date', lineNum', res' := true, author, email, date, lineNum, res;
    ghost var s := BlameState(author, email, date, lineNum, res);
    if StartsWith(line, AuthorHeader) {
      author' := Some(line[7..]);
      assert BlameStep(s, line, formatDate) == Some(s.(author := author'));
    } else if StartsWith(line, MailHeader) {
      email' := Some(StripChars(line[12..], IsAngle));
      assert BlameStep(s, line, formatDate) == Some(s.(email := email'));
    } else if StartsWith(line, TimeHeader) {
      var stamp := ParseInt(line[12..]);
      var d := if stamp.Some? then formatDate(stamp.value) else None;
      assert d == DateOf(line[12..], formatDate);
      if d.None? {
        ok := false;
      } else {
        date' := d;
        assert BlameStep(s, line, formatDate) == Some(s.(date := d));
      }
    } else if StartsWith(line, "\t") {
      var content := line[1..];
      if Truthy(author) && content != "" {
        assert IsRecorded(line, author);
        var a := author.value;
        var entry := EntryOf(res, a);
        res' := res[a := FileEntry(entry.currentLines + [LineInfo(content, lineNum, date)], entry.historical, date, email)];
        lineNum' := lineNum + 1;
        assert BlameStep(s, line, formatDate) == Some(s.(lineNum := lineNum', result := res'));
      } else {
        assert !IsRecorded(line, author);
        assert BlameStep(s, line, formatDate) == Some(s);
      }
    } else {
      assert BlameStep(s, line, formatDate) == Some(s);
    }
  }

  // ---------------------------------------------------------------------------
  // A reference description of the loop, written without its state: which
  // header was seen last, and which content lines are recorded.

  /** The value of the last line of `lines` that starts with `prefix`. */
  function LastHeader(lines: seq<string>, prefix: string): Option<string>
    decreases |lines|
  {
    if lines == [] then None
    else if StartsWith(lines[|lines| - 1], prefix) then Some(lines[|lines| - 1][|prefix|..])
    else LastHeader(lines[..|lines| - 1], prefix)
  }

  /** The e-mail of the last `author-mail` header, with its angle brackets stripped. */
  function EmailAt(lines: seq<string>): Option<string> {
    match LastHeader(lines, MailHeader)
    case None => None
    case Some(v) => Some(StripChars(v, IsAngle))
  }

  /** The date of the last `author-time` header. */
  function DateAt(lines: seq<string>, formatDate: int -> Option<string>): Option<string> {
    match LastHeader(lines, TimeHeader)
    case None => None
    case Some(v) => DateOf(v, formatDate)
  }

  /** One recorded content line: its author, its content, and the date and e-mail then current. */
  datatype Record = Record(author: string, content: string, date: Option<string>, email: Option<string>)

  /** The content lines the loop records, in order, with what was current when each was read. */
  function Recorded(lines: seq<string>, formatDate: int -> Option<string>): seq<Record>
    decreases |lines|
  {
    if lines == [] then []
    else
      var init := lines[..|lines| - 1];
      var line := lines[|lines| - 1];
      var author := LastHeader(init, AuthorHeader);
      Recorded(init, formatDate)
        + if IsRecorded(line, author) then [Record(author.value, line[1..], DateAt(init, formatDate), EmailAt(init))]
          else []
  }

  /** The lines of `a` among the records, each numbered by its position among all records. */
  function Bucket(recs: seq<Record>, a: string): seq<LineInfo>
    decreases |recs|
  {
    if recs == [] then []
    else
      var n := |recs| - 1;
      Bucket(recs[..n], a) + if recs[n].author == a then [LineInfo(recs[n].content, n, recs[n].date)] else []
  }

  /** The authors of the records. */
  function AuthorsOf(recs: seq<Record>): set<string> {
    set i | 0 <= i < |recs| :: recs[i].author
  }

  /** The last record of `a`. */
  function LastOf(recs: seq<Record>, a: string): (r: Option<Record>)
    ensures r.Some? <==> a in AuthorsOf(recs)
    ensures r.Some? ==> r.value.author == a
    decreases |recs|
  {
    if recs == [] then None
    else if recs[|recs| - 1].author == a then Some(recs[|recs| - 1])
    else
      var r := LastOf(recs[..|recs| - 1], a);
      assert AuthorsOf(recs) == AuthorsOf(recs[..|recs| - 1]) + {recs[|recs| - 1].author};
      r
  }

  /** The per-file result the records describe: per author, its lines, no additions yet, and its last date and e-mail. */
  function Expected(recs: seq<Record>): FileResult {
    map a | a in AuthorsOf(recs) :: FileEntry(Bucket(recs, a), 0, LastOf(recs, a).value.date, LastOf(recs, a).value.email)
  }

  lemma {:induction false} BucketOfAbsent(recs: seq<Record>, a: string)
    requires a !in AuthorsOf(recs)
    ensures Bucket(recs, a) == []
    decreases |recs|
  {
    if recs != [] {
      var n := |recs| - 1;
      assert recs[n].author in AuthorsOf(recs);
      assert AuthorsOf(recs[..n]) <= AuthorsOf(recs) by {
        forall x | x in AuthorsOf(recs[..n]) ensures x in AuthorsOf(recs) {
          var i :| 0 <= i < n && recs[..n][i].author == x;
          assert recs[i].author == x;
        }
      }
      BucketOfAbsent(recs[..n], a);
    }
  }

  /** The authors of one more record. */
  lemma AuthorsOfSnoc(recs: seq<Record>, r: Record)
    ensures AuthorsOf(recs + [r]) == AuthorsOf(recs) + {r.author}
  {
    var recs' := recs + [r];
    forall x | x in AuthorsOf(recs') ensures x in AuthorsOf(recs) + {r.author} {
      var i :| 0 <= i < |recs'| && recs'[i].author == x;
      if i < |recs| {
        assert recs[i].author == x;
      }
    }
    forall x | x in AuthorsOf(recs) ensures x in AuthorsOf(recs') {
      var i :| 0 <= i < |recs| && recs[i].author == x;
      assert recs'[i].author == x;
    }
    assert recs'[|recs|].author == r.author;
  }

  /** Recording one more line changes only its author's entry, which grows by that line. */
  lemma ExpectedSnoc(recs: seq<Record>, r: Record)
    ensures Expected(recs + [r]) == Expected(recs)[r.author := FileEntry(
      EntryOf(Expected(recs), r.author).currentLines + [LineInfo(r.content, |recs|, r.date)], 0, r.date, r.email)]
  {
    var recs' := recs + [r];
    assert recs'[..|recs|] == recs;
    AuthorsOfSnoc(recs, r);
    if r.author !in AuthorsOf(recs) {
      BucketOfAbsent(recs, r.author);
    }
    var lhs := Expected(recs');
    var rhs := Expected(recs)[r.author := FileEntry(
      EntryOf(Expected(recs), r.author).currentLines + [LineInfo(r.content, |recs|, r.date)], 0, r.date, r.email)];
    assert lhs.Keys == rhs.Keys;
    forall b | b in lhs.Keys
      ensures lhs[b] == rhs[b]
    {
      assert Bucket(recs', b) == Bucket(recs, b) + if b == r.author then [LineInfo(r.content, |recs|, r.date)] else [];
      if b == r.author {
        assert LastOf(recs', b) == Some(r);
      } else {
        assert LastOf(recs', b) == LastOf(recs, b);
        assert b in AuthorsOf(recs);
      }
    }
  }

  lemma HeaderKinds(line: string)
    ensures StartsWith(line, AuthorHeader) ==> !StartsWith(line, MailHeader) && !StartsWith(line, TimeHeader)
    ensures StartsWith(line, MailHeader) ==> !StartsWith(line, TimeHeader)
    ensures StartsWith(line, AuthorHeader) || StartsWith(line, MailHeader) || StartsWith(line, TimeHeader)
            ==> !StartsWith(line, "\t")
  {
    if StartsWith(line, AuthorHeader) {
      assert line[6] == ' ';
    }
    if StartsWith(line, MailHeader) {
      assert line[6] == '-' && line[7] == 'm';
    }
    if StartsWith(line, TimeHeader) {
      assert line[7] == 't';
    }
    if StartsWith(line, "\t") {
      assert line[0] == '\t';
    }
  }

  /**
   * The loop's state after a run that did not raise: the cursor holds the
   * last author, e-mail (brackets stripped) and date headers, the counter is
   * the number of recorded lines, and the result is what the records describe.
   */
  lemma {:induction false} BlameRunMeaning(lines: seq<string>, formatDate: int -> Option<string>)
    requires BlameRun(lines, formatDate).Some?
    ensures var s := BlameRun(lines, formatDate).value;
      && s.author == LastHeader(lines, AuthorHeader)
      && s.email == EmailAt(lines)
      && s.date == DateAt(lines, formatDate)
      && s.lineNum == |Recorded(lines, formatDate)|
      && s.result == Expected(Recorded(lines, formatDate))
    decreases |lines|
  {
    if lines != [] {
      var init := lines[..|lines| - 1];
      var line := lines[|lines| - 1];
      assert BlameRun(init, formatDate).Some?;
      BlameRunMeaning(init, formatDate);
      HeaderKinds(line);
      var s0 := BlameRun(init, formatDate).value;
      var s := BlameRun(lines, formatDate).value;
      assert BlameStep(s0, line, formatDate) == Some(s);
      var recs := Recorded(init, formatDate);
      var author := LastHeader(init, AuthorHeader);
      if IsRecorded(line, author) {
        var r := Record(author.value, line[1..], DateAt(init, formatDate), EmailAt(init));
        assert Recorded(lines, formatDate) == recs + [r];
        assert s.author == s0.author;
        ExpectedSnoc(recs, r);
        assert s.result == Expected(recs + [r]);
      } else {
        assert Recorded(lines, formatDate) == recs;
      }
    }
  }

  /** The bucket of a longer record list: the old bucket, plus the last record when it is the author's. */
  lemma BucketSnoc(recs: seq<Record>, a: string)
    requires recs != []
    ensures var n := |recs| - 1;
      Bucket(recs, a) == Bucket(recs[..n], a) + if recs[n].author == a then [LineInfo(recs[n].content, n, recs[n].date)] else []
  {
  }

  /** Every line of an author's bucket is the record at its number, and that record is the author's. */
  lemma {:induction false} BucketEntries(recs: seq<Record>, a: string)
    ensures forall j :: 0 <= j < |Bucket(recs, a)| ==>
      var x := Bucket(recs, a)[j];
      x.lineNumber < |recs| && recs[x.lineNumber].author == a
      && x == LineInfo(recs[x.lineNumber].content, x.lineNumber, recs[x.lineNumber].date)
    decreases |recs|
  {
    if recs != [] {
      var n := |recs| - 1;
      var init := recs[..n];
      BucketEntries(init, a);
      BucketSnoc(recs, a);
      var b := Bucket(init, a);
      forall j | 0 <= j < |Bucket(recs, a)|
        ensures Bucket(recs, a)[j].lineNumber < |recs|
        ensures recs[Bucket(recs, a)[j].lineNumber].author == a
        ensures Bucket(recs, a)[j] == LineInfo(recs[Bucket(recs, a)[j].lineNumber].content, Bucket(recs, a)[j].lineNumber, recs[Bucket(recs, a)[j].lineNumber].date)
      {
        if j < |b| {
          var x := b[j];
          assert Bucket(recs, a)[j] == x;
          assert init[x.lineNumber] == recs[x.lineNumber];
        }
      }
    }
  }

  /** The numbers in an author's bucket are below the record count and strictly increasing. */
  lemma {:induction false} BucketAscending(recs: seq<Record>, a: string)
    ensures forall j :: 0 <= j < |Bucket(recs, a)| ==> Bucket(recs, a)[j].lineNumber < |recs|
    ensures forall i, j :: 0 <= i < j < |Bucket(recs, a)| ==> Bucket(recs, a)[i].lineNumber < Bucket(recs, a)[j].lineNumber
    decreases |recs|
  {
    if recs != [] {
      var n := |recs| - 1;
      BucketAscending(recs[..n], a);
      BucketSnoc(recs, a);
      var b := Bucket(recs[..n], a);
      assert forall j :: 0 <= j < |b| ==> Bucket(recs, a)[j] == b[j];
    }
  }

  /** Every record of an author appears in the author's bucket under its number. */
  lemma {:induction false} BucketComplete(recs: seq<Record>, a: string)
    ensures forall k :: 0 <= k < |recs| && recs[k].author == a ==>
      exists j :: 0 <= j < |Bucket(recs, a)| && Bucket(recs, a)[j].lineNumber == k
    decreases |recs|
  {
    if recs != [] {
      var n := |recs| - 1;
      var init := recs[..n];
      BucketComplete(init, a);
      BucketSnoc(recs, a);
      var b := Bucket(init, a);
      forall k | 0 <= k < |recs| && recs[k].author == a
        ensures exists j :: 0 <= j < |Bucket(recs, a)| && Bucket(recs, a)[j].lineNumber == k
      {
        if k < n {
          assert init[k].author == a;
          var j :| 0 <= j < |b| && b[j].lineNumber == k;
          assert Bucket(recs, a)[j] == b[j];
        } else {
          assert Bucket(recs, a)[|b|].lineNumber == k;
        }
      }
    }
  }

  /**
   * An author's bucket holds exactly the records of that author, in order,
   * each numbered by its position among the records of all authors.
   */
  lemma BucketNumbering(recs: seq<Record>, a: string)
    ensures forall j :: 0 <= j < |Bucket(recs, a)| ==>
      var x := Bucket(recs, a)[j];
      x.lineNumber < |recs| && recs[x.lineNumber].author == a
      && x == LineInfo(recs[x.lineNumber].content, x.lineNumber, recs[x.lineNumber].date)
    ensures forall i, j :: 0 <= i < j < |Bucket(recs, a)| ==> Bucket(recs, a)[i].lineNumber < Bucket(recs, a)[j].lineNumber
    ensures forall k :: 0 <= k < |recs| && recs[k].author == a ==>
      exists j :: 0 <= j < |Bucket(recs, a)| && Bucket(recs, a)[j].lineNumber == k
  {
    BucketEntries(recs, a);
    BucketAscending(recs, a);
    BucketComplete(recs, a);
  }
}
