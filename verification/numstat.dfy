/**
 * The parser of `git log --format=format:%aN%x00%aE --numstat` output in
 * `process_file`: header lines set the current author and e-mail, and each
 * stat line adds its additions to the current author's historical count in
 * the result the blame pass built.
 */
module Numstat {
  import opened Options
  import opened Strings
  import opened Blame

  /** The parser's cursor and the result built so far. */
  datatype NumstatState = NumstatState(author: Option<string>, email: Option<string>, result: FileResult)

  /** `not line.strip()`: the line is skipped. */
  predicate IsBlank(line: string) {
    Strip(line) == ""
  }

  /** A non-blank line that does not start with a digit: an author header. */
  predicate IsHeader(line: string) {
    !IsBlank(line) && line != "" && !IsDigit(line[0])
  }

  /** The author name of a header: the text before the first NUL. */
  function HeaderAuthor(line: string): string {
    Split(line, '\0')[0]
  }

  /** The e-mail of a header: the text after the first NUL, if there is one. */
  function HeaderEmail(line: string): Option<string> {
    var info := Split(line, '\0');
    if |info| > 1 then Some(info[1]) else None
  }

  /**
   * The additions field of a stat line that splits into exactly three
   * tab-separated fields and does not mark a binary file with `-`.
   */
  function AdditionsField(line: string): Option<string> {
    var fields := Split(line, '\t');
    if |fields| == 3 && fields[0] != "-" then Some(fields[0]) else None
  }

  /**
   * One iteration of the loop over the log output. A stat line reads the
   * author's entry (inserting the default) before `int()` is tried, so an
   * unparsable count leaves the entry in place, unchanged.
   */
  function NumstatStep(s: NumstatState, line: string): NumstatState {
    if IsBlank(line) then s
    else if IsHeader(line) then s.(author := Some(HeaderAuthor(line)), email := HeaderEmail(line))
    else
      match AdditionsField(line)
      case None => s
      case Some(additions) =>
        if s.author.None? then s else s.(result := CountStat(s.result, s.email, s.author.value, ParseInt(additions)))
  }

  /**
   * A stat line of author `a` whose additions field parsed to `count`, or
   * did not parse: the entry is read (storing the default) and, when the
   * count parsed, written back with the additions and the cursor's e-mail,
   * or its own when the cursor's is empty.
   */
  function CountStat(result: FileResult, email: Option<string>, a: string, count: Option<int>): FileResult {
    var e := EntryOf(result, a);
    match count
    case None => result[a := e]
    case Some(n) => result[a := FileEntry(e.currentLines, e.historical + n, e.lastModified, if Truthy(email) then email else e.email)]
  }

  /** The loop run over `lines`, starting with no author and the result of the blame pass. */
  function NumstatRun(lines: seq<string>, init: FileResult): NumstatState
    decreases |lines|
  {
    if lines == [] then NumstatState(None, None, init)
    else NumstatStep(NumstatRun(lines[..|lines| - 1], init), lines[|lines| - 1])
  }

  /** The numstat loop, over the log output split into lines. */
  method ParseNumstat(logLines: seq<string>, init: FileResult) returns (result: FileResult)
    ensures result == NumstatRun(logLines, init).result
  {
    var currentAuthor: Option<string> := None;
    var currentEmail: Option<string> := None;
    result := init;
    var i := 0;
    while i < |logLines|
      invariant 0 <= i <= |logLines|
      invariant NumstatRun(logLines[..i], init) == NumstatState(currentAuthor, currentEmail, result)
    {
      assert logLines[..i + 1][..i] == logLines[..i];
      currentAuthor, currentEmail, result := ReadLogLine(currentAuthor, currentEmail, result, logLines[i]);
      i := i + 1;
    }
    assert logLines[..i] == logLines;
  }

  /** The body of the numstat loop: one line of the log read against the cursor. */
  method ReadLogLine(currentAuthor: Option<string>, currentEmail: Option<string>, result: FileResult, line: string)
    returns (author: Option<string>, email: Option<string>, res: FileResult)
    ensures NumstatState(author, email, res) == NumstatStep(NumstatState(currentAuthor, currentEmail, result), line)
  {
    author, email, res := currentAuthor, currentEmail, result;
    if Strip(line) == "" {
      return;
    }
    if !IsDigit(line[0]) {
      assert IsHeader(line);
      var authorInfo := Split(line, '\0');
      author := Some(authorInfo[0]);
      email := if |authorInfo| > 1 then Some(authorInfo[1]) else None;
    } else {
      res := ReadStatLine(currentAuthor, currentEmail, result, line);
    }
  }

  /** A stat line `additions \t deletions \t path`: the current author's entry takes the additions. */
  method ReadStatLine(currentAuthor: Option<string>, currentEmail: Option<string>, result: FileResult, line: string)
    returns (res: FileResult)
    requires !IsBlank(line) && !IsHeader(line)
    ensures res == NumstatStep(NumstatState(currentAuthor, currentEmail, result), line).result
  {
    StepCases(NumstatState(currentAuthor, currentEmail, result), line);
    res := result;
    var field := AdditionsField(line);
    if field.Some? && currentAuthor.Some? {
      res := AddAdditions(result, currentEmail, currentAuthor.value, ParseInt(field.value));
    }
  }

  /** `result[a]` is read, then, when `int()` succeeded, written back with the additions counted. */
  method AddAdditions(result: FileResult, currentEmail: Option<string>, a: string, count: Option<int>)
    returns (res: FileResult)
    ensures res == CountStat(result, currentEmail, a, count)
  {
    // reading the entry stores the default even when `int()` then raises
    var entry := EntryOf(result, a);
    if count.Some? {
      entry := FileEntry(entry.currentLines, entry.historical + count.value,
        entry.lastModified, if Truthy(currentEmail) then currentEmail else entry.email);
    }
    res := result[a := entry];
  }

  /** `NumstatStep` by the kind of line. */
  lemma StepCases(s: NumstatState, line: string)
    ensures IsBlank(line) ==> NumstatStep(s, line) == s
    ensures IsHeader(line) ==> NumstatStep(s, line) == s.(author := Some(HeaderAuthor(line)), email := HeaderEmail(line))
    ensures !IsBlank(line) && !IsHeader(line) ==>
      NumstatStep(s, line) == match AdditionsField(line)
        case None => s
        case Some(additions) =>
        if s.author.None? then s else s.(result := CountStat(s.result, s.email, s.author.value, ParseInt(additions)))
  {
  }

  // ---------------------------------------------------------------------------
  // A reference description without the cursor: which header each line falls
  // under, and how many lines each stat line adds.

  /** The author of the last header among `lines`. */
  function AuthorAt(lines: seq<string>): Option<string>
    decreases |lines|
  {
    if lines == [] then None
    else if IsHeader(lines[|lines| - 1]) then Some(HeaderAuthor(lines[|lines| - 1]))
    else AuthorAt(lines[..|lines| - 1])
  }

  /** The e-mail of the last header among `lines`. */
  function HeaderEmailAt(lines: seq<string>): Option<string>
    decreases |lines|
  {
    if lines == [] then None
    else if IsHeader(lines[|lines| - 1]) then HeaderEmail(lines[|lines| - 1])
    else HeaderEmailAt(lines[..|lines| - 1])
  }

  /** The additions a stat line reports, and 0 for every other line. */
  function Added(line: string): (n: nat) {
    if IsBlank(line) || IsHeader(line) then 0
    else
      match AdditionsField(line)
      case None => 0
      case Some(additions) =>
        match ParseInt(additions)
        case None => 0
        case Some(k) =>
          assert line != [] && IsDigit(line[0]);
          SplitFirst(line, '\t');
          k
  }

  /** The additions of the stat lines that fall under a header of `a`. */
  function AddedBy(lines: seq<string>, a: string): nat
    decreases |lines|
  {
    if lines == [] then 0
    else
      var init := lines[..|lines| - 1];
      AddedBy(init, a) + if AuthorAt(init) == Some(a) then Added(lines[|lines| - 1]) else 0
  }

  /** A stat line the loop files under the current author: three tab fields, not a binary `-`. */
  predicate IsStatLine(line: string) {
    !IsBlank(line) && !IsHeader(line) && AdditionsField(line).Some?
  }

  /** A stat line whose additions field `int()` accepts: it is counted, and may set the e-mail. */
  predicate IsCounted(line: string) {
    IsStatLine(line) && ParseInt(AdditionsField(line).value).Some?
  }

  /** Some stat line of `lines` falls under a header of `a`. */
  predicate HasStatUnder(lines: seq<string>, a: string)
    decreases |lines|
  {
    if lines == [] then false
    else
      var init := lines[..|lines| - 1];
      HasStatUnder(init, a) || (AuthorAt(init) == Some(a) && IsStatLine(lines[|lines| - 1]))
  }

  /**
   * The e-mail the log leaves in `a`'s entry: the non-empty header e-mail
   * of the last counted stat line under a header of `a`, or `None` when no
   * such line has one, in which case the entry keeps its e-mail.
   */
  function LogEmail(lines: seq<string>, a: string): (r: Option<string>)
    ensures r.None? || Truthy(r)
    decreases |lines|
  {
    if lines == [] then None
    else
      var init := lines[..|lines| - 1];
      if AuthorAt(init) == Some(a) && IsCounted(lines[|lines| - 1]) && Truthy(HeaderEmailAt(init)) then HeaderEmailAt(init)
      else LogEmail(init, a)
  }

  /** One step, seen from the keys and the cursor. */
  lemma StepShape(s: NumstatState, line: string)
    ensures var t := NumstatStep(s, line);
      && s.result.Keys <= t.result.Keys
      && (forall a :: a in t.result && a !in s.result ==> s.author == Some(a))
      && (t.author, t.email) == (if IsHeader(line) then (Some(HeaderAuthor(line)), HeaderEmail(line)) else (s.author, s.email))
      && (s.author.Some? && Added(line) > 0 ==> s.author.value in t.result)
  {
    StepCases(s, line);
    if !IsBlank(line) && !IsHeader(line) && AdditionsField(line).Some? && s.author.Some? {
      StatStep(s, line);
    } else {
      assert NumstatStep(s, line).result == s.result;
      assert s.author.None? || Added(line) == 0;
    }
  }

  lemma StepEntry(s: NumstatState, line: string, a: string)
    ensures var before := EntryOf(s.result, a);
      var after := EntryOf(NumstatStep(s, line).result, a);
      && after.currentLines == before.currentLines
      && after.lastModified == before.lastModified
      && after.historical == before.historical + (if s.author == Some(a) then Added(line) else 0)
      && (Truthy(before.email) ==> Truthy(after.email))
      && after.email == (if s.author == Some(a) && IsCounted(line) && Truthy(s.email) then s.email else before.email)
      && (a in NumstatStep(s, line).result <==> a in s.result || (s.author == Some(a) && IsStatLine(line)))
  {
    if IsBlank(line) || IsHeader(line) || AdditionsField(line).None? || s.author.None? {
      assert NumstatStep(s, line).result == s.result;
      assert s.author.None? || Added(line) == 0;
    } else {
      StatLineEntry(s, line, a);
    }
  }

  /** `StepEntry` for a stat line under an author. */
  lemma StatLineEntry(s: NumstatState, line: string, a: string)
    requires !IsBlank(line) && !IsHeader(line) && AdditionsField(line).Some? && s.author.Some?
    ensures var before := EntryOf(s.result, a);
      var after := EntryOf(NumstatStep(s, line).result, a);
      && after.currentLines == before.currentLines
      && after.lastModified == before.lastModified
      && after.historical == before.historical + (if s.author == Some(a) then Added(line) else 0)
      && (Truthy(before.email) ==> Truthy(after.email))
      && after.email == (if s.author == Some(a) && IsCounted(line) && Truthy(s.email) then s.email else before.email)
      && (a in NumstatStep(s, line).result <==> a in s.result || s.author == Some(a))
  {
    var a0 := s.author.value;
    var count := ParseInt(AdditionsField(line).value);
    StatStep(s, line);
    StatAdded(line);
    CountStatEntry(s.result, s.email, a0, count, a);
  }

  /** A counted stat line changes only its author's entry, and that one only by the count. */
  lemma CountStatEntry(result: FileResult, email: Option<string>, a0: string, count: Option<int>, a: string)
    ensures var before := EntryOf(result, a);
      var after := EntryOf(CountStat(result, email, a0, count), a);
      && after.currentLines == before.currentLines
      && after.lastModified == before.lastModified
      && after.historical == before.historical + (if a == a0 && count.Some? then count.value else 0)
      && (Truthy(before.email) ==> Truthy(after.email))
      && after.email == (if a == a0 && count.Some? && Truthy(email) then email else before.email)
      && (a in CountStat(result, email, a0, count) <==> a in result || a == a0)
  {
  }

  /** A stat line under an author counts its additions field for that author. */
  lemma StatStep(s: NumstatState, line: string)
    requires !IsBlank(line) && !IsHeader(line) && AdditionsField(line).Some? && s.author.Some?
    ensures NumstatStep(s, line) == s.(result := CountStat(s.result, s.email, s.author.value, ParseInt(AdditionsField(line).value)))
  {
    var additions := AdditionsField(line).value;
    assert AdditionsField(line) == Some(additions);
    StepCases(s, line);
  }

  /** What a stat line adds: its parsed additions field, or nothing. */
  lemma StatAdded(line: string)
    requires !IsBlank(line) && !IsHeader(line) && AdditionsField(line).Some?
    ensures var count := ParseInt(AdditionsField(line).value);
      Added(line) == if count.Some? then count.value else 0
  {
  }

  /**
   * What the loop leaves for each author: the blame lines and date as they
   * were, the historical count grown by exactly the additions filed under
   * the author's headers, an e-mail that once set is never lost, and new
   * entries only for authors named in some header.
   */
  lemma NumstatRunMeaning(lines: seq<string>, init: FileResult)
    ensures var s := NumstatRun(lines, init);
      && s.author == AuthorAt(lines)
      && s.email == HeaderEmailAt(lines)
      && init.Keys <= s.result.Keys
      && (forall a :: a in s.result && a !in init ==> exists i :: 0 <= i < |lines| && IsHeader(lines[i]) && HeaderAuthor(lines[i]) == a)
      && (forall a :: AddedBy(lines, a) > 0 ==> a in s.result)
      && (forall a :: a in s.result <==> a in init || HasStatUnder(lines, a))
    ensures forall a ::
      var before := EntryOf(init, a);
      var after := EntryOf(NumstatRun(lines, init).result, a);
      && after.currentLines == before.currentLines
      && after.lastModified == before.lastModified
      && after.historical == before.historical + AddedBy(lines, a)
      && (Truthy(before.email) ==> Truthy(after.email))
      && after.email == (if LogEmail(lines, a).Some? then LogEmail(lines, a) else before.email)
  {
    NumstatRunCursor(lines, init);
    NumstatRunKeys(lines, init);
    forall a
      ensures a in NumstatRun(lines, init).result && a !in init ==>
        exists i :: 0 <= i < |lines| && IsHeader(lines[i]) && HeaderAuthor(lines[i]) == a
      ensures AddedBy(lines, a) > 0 ==> a in NumstatRun(lines, init).result
      ensures a in NumstatRun(lines, init).result <==> a in init || HasStatUnder(lines, a)
      ensures var before := EntryOf(init, a);
        var after := EntryOf(NumstatRun(lines, init).result, a);
        && after.currentLines == before.currentLines
        && after.lastModified == before.lastModified
        && after.historical == before.historical + AddedBy(lines, a)
        && (Truthy(before.email) ==> Truthy(after.email))
        && after.email == (if LogEmail(lines, a).Some? then LogEmail(lines, a) else before.email)
    {
      NumstatRunNewAuthor(lines, init, a);
      NumstatRunEntry(lines, init, a);
    }
  }

  /** After the loop the cursor holds the last header's author and e-mail. */
  lemma {:induction false} NumstatRunCursor(lines: seq<string>, init: FileResult)
    ensures NumstatRun(lines, init).author == AuthorAt(lines)
    ensures NumstatRun(lines, init).email == HeaderEmailAt(lines)
    decreases |lines|
  {
    if lines != [] {
      var init' := lines[..|lines| - 1];
      NumstatRunCursor(init', init);
      StepShape(NumstatRun(init', init), lines[|lines| - 1]);
    }
  }

  /** The loop keeps every entry it starts with. */
  lemma {:induction false} NumstatRunKeys(lines: seq<string>, init: FileResult)
    ensures init.Keys <= NumstatRun(lines, init).result.Keys
    decreases |lines|
  {
    if lines != [] {
      var init' := lines[..|lines| - 1];
      NumstatRunKeys(init', init);
      StepShape(NumstatRun(init', init), lines[|lines| - 1]);
    }
  }

  /** Some header among `lines` names `a`. */
  predicate NamedInHeader(lines: seq<string>, a: string) {
    exists i :: 0 <= i < |lines| && IsHeader(lines[i]) && HeaderAuthor(lines[i]) == a
  }

  /** A header of a prefix is a header of the whole. */
  lemma NamedInLonger(lines: seq<string>, a: string)
    requires lines != []
    ensures NamedInHeader(lines[..|lines| - 1], a) ==> NamedInHeader(lines, a)
  {
    if NamedInHeader(lines[..|lines| - 1], a) {
      var i :| 0 <= i < |lines| - 1 && IsHeader(lines[..|lines| - 1][i]) && HeaderAuthor(lines[..|lines| - 1][i]) == a;
      assert lines[i] == lines[..|lines| - 1][i];
    }
  }

  /** An entry the loop adds belongs to an author named in some header. */
  lemma {:induction false} NumstatRunNewAuthor(lines: seq<string>, init: FileResult, a: string)
    ensures a in NumstatRun(lines, init).result && a !in init ==> NamedInHeader(lines, a)
    decreases |lines|
  {
    if lines != [] {
      var init' := lines[..|lines| - 1];
      var s0 := NumstatRun(init', init);
      StepShape(s0, lines[|lines| - 1]);
      NumstatRunNewAuthor(init', init, a);
      NumstatRunCursor(init', init);
      AuthorAtIsHeader(init');
      NamedInLonger(lines, a);
    }
  }

  /** One author's entry after the loop. */
  lemma {:induction false} NumstatRunEntry(lines: seq<string>, init: FileResult, a: string)
    ensures AddedBy(lines, a) > 0 ==> a in NumstatRun(lines, init).result
    ensures a in NumstatRun(lines, init).result <==> a in init || HasStatUnder(lines, a)
    ensures var before := EntryOf(init, a);
      var after := EntryOf(NumstatRun(lines, init).result, a);
      && after.currentLines == before.currentLines
      && after.lastModified == before.lastModified
      && after.historical == before.historical + AddedBy(lines, a)
      && (Truthy(before.email) ==> Truthy(after.email))
      && after.email == (if LogEmail(lines, a).Some? then LogEmail(lines, a) else before.email)
    decreases |lines|
  {
    if lines != [] {
      var init' := lines[..|lines| - 1];
      var line := lines[|lines| - 1];
      NumstatRunEntry(init', init, a);
      NumstatRunCursor(init', init);
      var s0 := NumstatRun(init', init);
      assert NumstatRun(lines, init) == NumstatStep(s0, line);
      StepShape(s0, line);
      StepEntry(s0, line, a);
      assert AddedBy(lines, a) == AddedBy(init', a) + if s0.author == Some(a) then Added(line) else 0;
    }
  }

  /** The author at a point is named by some header before it. */
  lemma {:induction false} AuthorAtIsHeader(lines: seq<string>)
    ensures AuthorAt(lines).Some? ==>
      exists i :: 0 <= i < |lines| && IsHeader(lines[i]) && HeaderAuthor(lines[i]) == AuthorAt(lines).value
    decreases |lines|
  {
    if lines != [] && !IsHeader(lines[|lines| - 1]) {
      var init := lines[..|lines| - 1];
      AuthorAtIsHeader(init);
      if AuthorAt(init).Some? {
        var i :| 0 <= i < |init| && IsHeader(init[i]) && HeaderAuthor(init[i]) == AuthorAt(init).value;
        assert lines[i] == init[i];
      }
    }
  }

  /**
   * The `additions != '-'` test never decides anything: a binary file's stat
   * line `-\t-\tpath` starts with a non-digit and is read as a header, which
   * leaves the counts alone.
   */
  lemma BinaryStatIsHeader(s: NumstatState, rest: string)
    ensures IsHeader("-" + rest)
    ensures NumstatStep(s, "-" + rest).result == s.result
  {
    StripKeepsFirst("-" + rest);
  }

  /**
   * A header whose author name starts with a digit is not recognised as a
   * header: it splits into fewer than three tab fields and is skipped, so the
   * cursor keeps the previous commit's author and e-mail, and that author is
   * credited with the following stat lines.
   */
  lemma DigitNameHeaderSkipped(s: NumstatState, name: string, email: string)
    requires name != [] && IsDigit(name[0])
    requires '\t' !in name && '\t' !in email
    ensures NumstatStep(s, name + "\0" + email) == s
  {
    var line := name + "\0" + email;
    assert line[0] == name[0];
    DigitLineIsNoHeader(line);
    assert '\t' !in line;
    assert Split(line, '\t') == [line];
  }

  /** The deletions column of a stat line plays no part. */
  lemma DeletionsIgnored(s: NumstatState, additions: string, d1: string, d2: string, path: string)
    requires additions != [] && IsDigit(additions[0])
    requires '\t' !in additions && '\t' !in d1 && '\t' !in d2 && '\t' !in path
    ensures NumstatStep(s, additions + "\t" + d1 + "\t" + path) == NumstatStep(s, additions + "\t" + d2 + "\t" + path)
  {
    StatLineFields(additions, d1, path);
    StatLineFields(additions, d2, path);
  }

  /** A line `additions \t deletions \t path` is a stat line whose additions field is `additions`. */
  lemma StatLineFields(additions: string, deletions: string, path: string)
    requires additions != [] && IsDigit(additions[0])
    requires '\t' !in additions && '\t' !in deletions && '\t' !in path
    ensures var line := additions + "\t" + deletions + "\t" + path;
      !IsBlank(line) && !IsHeader(line) && AdditionsField(line) == Some(additions)
  {
    var line := additions + "\t" + deletions + "\t" + path;
    assert line[0] == additions[0];
    DigitLineIsNoHeader(line);
    assert line == additions + ['\t'] + deletions + ['\t'] + path;
    SplitThree(additions, deletions, path, '\t');
  }

  /** A line that starts with a digit is neither blank nor a header. */
  lemma DigitLineIsNoHeader(line: string)
    requires line != [] && IsDigit(line[0])
    ensures !IsBlank(line) && !IsHeader(line)
  {
    StripKeepsFirst(line);
  }
}
