/**
 * What the three report generators compute from the analyzer's dictionaries,
 * without the writing: per-author totals, the JSON document's contents, the
 * CSV rows, and the orderings, sample lines and truncation of the text report.
 */
module Reports {
  import opened Options
  import opened Strings
  import opened Blame
  import opened Aggregate
  import opened Ordering

  // ---------------------------------------------------------------------------
  // Totals over an author's files.

  /** The number of lines of a contribution still in the codebase. */
  function CurrentCount(c: FileContribution): int {
    |c.currentLines|
  }

  /** The number of lines of a contribution added over the history. */
  function HistoricalCount(c: FileContribution): int {
    c.historicalLines
  }

  /** `sum(weight(stats) for stats in files.values())`. */
  ghost function Sum(files: map<string, FileContribution>, weight: FileContribution -> int): int
    decreases |files|
  {
    if files == map[] then 0
    else
      var f :| f in files;
      weight(files[f]) + Sum(files - {f}, weight)
  }

  /** The sum does not depend on which file is taken first. */
  lemma {:induction false} SumRemove(files: map<string, FileContribution>, f: string, weight: FileContribution -> int)
    requires f in files
    ensures Sum(files, weight) == weight(files[f]) + Sum(files - {f}, weight)
    decreases |files|
  {
    var g :| g in files && Sum(files, weight) == weight(files[g]) + Sum(files - {g}, weight);
    if g != f {
      SumRemove(files - {g}, f, weight);
      SumRemove(files - {f}, g, weight);
      assert files - {g} - {f} == files - {f} - {g};
    }
  }

  /** Counting lines still present never gives a negative total. */
  lemma {:induction false} CurrentSumNonNegative(files: map<string, FileContribution>)
    ensures Sum(files, CurrentCount) >= 0
    decreases |files|
  {
    if files != map[] {
      var f :| f in files;
      SumRemove(files, f, CurrentCount);
      CurrentSumNonNegative(files - {f});
    }
  }

  /**
   * The loop of the CSV report over an author's files: both counters
   * accumulated in one pass, in whatever order the files come.
   */
  method FileTotals(files: map<string, FileContribution>) returns (current: nat, historical: int)
    ensures current == Sum(files, CurrentCount)
    ensures historical == Sum(files, HistoricalCount)
  {
    current, historical := 0, 0;
    var rest := files;
    while rest != map[]
      invariant current + Sum(rest, CurrentCount) == Sum(files, CurrentCount)
      invariant historical + Sum(rest, HistoricalCount) == Sum(files, HistoricalCount)
      decreases |rest|
    {
      var f :| f in rest;
      SumRemove(rest, f, CurrentCount);
      SumRemove(rest, f, HistoricalCount);
      current := current + |rest[f].currentLines|;
      historical := historical + rest[f].historicalLines;
      rest := rest - {f};
    }
  }

  // ---------------------------------------------------------------------------
  // The JSON report.

  /** One file of an author in the JSON report. */
  datatype FileSummary = FileSummary(currentLines: nat, historicalLines: int, lastModified: Option<string>)

  /** One author in the JSON report. */
  datatype ContributorSummary = ContributorSummary(
    emails: set<string>, companies: set<string>, totalCurrentLines: nat, totalHistoricalLines: int,
    files: map<string, FileSummary>)

  /** The JSON document; `generatedAt` is the clock reading it is stamped with. */
  datatype JsonReport = JsonReport(
    generatedAt: string, excludedCommits: seq<string>, excludedPaths: seq<string>, excludedPatterns: seq<string>,
    contributors: map<string, ContributorSummary>)

  function FileSummaryOf(c: FileContribution): FileSummary {
    FileSummary(|c.currentLines|, c.historicalLines, c.lastModified)
  }

  /** The JSON entry of an author with these files, e-mails and companies. */
  ghost function SummaryOf(files: map<string, FileContribution>, emails: set<string>, companies: set<string>)
    : (r: ContributorSummary)
    ensures r.files.Keys == files.Keys
  {
    CurrentSumNonNegative(files);
    ContributorSummary(
      emails, companies, Sum(files, CurrentCount), Sum(files, HistoricalCount),
      map f | f in files :: FileSummaryOf(files[f]))
  }

  /** The current lines of the entries of a JSON file map, added up. */
  ghost function SummedCurrent(files: map<string, FileSummary>): int
    decreases |files|
  {
    if files == map[] then 0
    else
      var f :| f in files;
      files[f].currentLines + SummedCurrent(files - {f})
  }

  /** The historical lines of the entries of a JSON file map, added up. */
  ghost function SummedHistorical(files: map<string, FileSummary>): int
    decreases |files|
  {
    if files == map[] then 0
    else
      var f :| f in files;
      files[f].historicalLines + SummedHistorical(files - {f})
  }

  /**
   * The JSON report is consistent with itself: an author's two totals are
   * the sums of the per-file counts listed under that author.
   */
  lemma {:induction false} SummaryTotalsAddUp(files: map<string, FileContribution>, emails: set<string>, companies: set<string>)
    ensures var r := SummaryOf(files, emails, companies);
      r.totalCurrentLines == SummedCurrent(r.files) && r.totalHistoricalLines == SummedHistorical(r.files)
    decreases |files|
  {
    var r := SummaryOf(files, emails, companies);
    if files != map[] {
      var f :| f in r.files && SummedCurrent(r.files) == r.files[f].currentLines + SummedCurrent(r.files - {f});
      var g :| g in r.files && SummedHistorical(r.files) == r.files[g].historicalLines + SummedHistorical(r.files - {g});
      SummaryTotalsAddUp(files - {f}, emails, companies);
      SummaryTotalsAddUp(files - {g}, emails, companies);
      SumRemove(files, f, CurrentCount);
      SumRemove(files, g, HistoricalCount);
      assert SummaryOf(files - {f}, emails, companies).files == r.files - {f};
      assert SummaryOf(files - {g}, emails, companies).files == r.files - {g};
    }
  }

  // ---------------------------------------------------------------------------
  // The CSV report.

  const CsvHeader: seq<string> := ["Contributor Name", "Email Addresses", "Total Lines Contributed", "Current Lines"]

  /** One CSV row: name, e-mail list, historical total, current total. */
  datatype CsvRow = CsvRow(name: string, emailList: string, totalLinesContributed: int, currentLines: nat)

  /** The e-mail column: the sorted e-mails joined with ';', empty when there are none. */
  ghost function EmailList(emails: set<string>): string {
    if emails == {} then "" else Join(Sorted(emails), ';')
  }

  /**
   * When no e-mail holds a ';', the e-mail column can be split back into
   * the author's e-mails, in sorted order.
   */
  lemma EmailListRoundTrip(emails: set<string>)
    requires emails != {}
    requires forall e :: e in emails ==> ';' !in e
    ensures Split(EmailList(emails), ';') == Sorted(emails)
  {
    var parts := Sorted(emails);
    assert forall i :: 0 <= i < |parts| ==> parts[i] in emails;
    SplitUnique(parts, ';');
  }

  /** The row of an author with these files and e-mails. */
  ghost function CsvRowOf(author: string, files: map<string, FileContribution>, emails: set<string>): CsvRow {
    CurrentSumNonNegative(files);
    CsvRow(author, EmailList(emails), Sum(files, HistoricalCount), Sum(files, CurrentCount))
  }

  // ---------------------------------------------------------------------------
  // The text report.

  /** Lines in non-decreasing line-number order. */
  predicate SortedByLine(s: seq<LineInfo>) {
    forall i, j :: 0 <= i < j < |s| ==> s[i].lineNumber <= s[j].lineNumber
  }

  /** `x` placed before the first line of `s` with a number not below its own. */
  function InsertLine(x: LineInfo, s: seq<LineInfo>): (r: seq<LineInfo>)
    requires SortedByLine(s)
    ensures SortedByLine(r)
    ensures multiset(r) == multiset(s) + multiset{x}
    ensures |r| == |s| + 1
  {
    if s == [] then [x]
    else if x.lineNumber <= s[0].lineNumber then [x] + s
    else
      var rest := InsertLine(x, s[1..]);
      assert s == [s[0]] + s[1..];
      NoneBelowHead(x, s, rest);
      ConsSorted(s[0], rest);
      [s[0]] + rest
  }

  /** The lines of a sorted list after its first, with a later line added, are all not below the first. */
  lemma NoneBelowHead(x: LineInfo, s: seq<LineInfo>, rest: seq<LineInfo>)
    requires SortedByLine(s) && s != [] && s[0].lineNumber < x.lineNumber
    requires multiset(rest) == multiset(s[1..]) + multiset{x}
    ensures forall k :: 0 <= k < |rest| ==> s[0].lineNumber <= rest[k].lineNumber
  {
    forall k | 0 <= k < |rest|
      ensures s[0].lineNumber <= rest[k].lineNumber
    {
      assert rest[k] in multiset(rest);
      if rest[k] != x {
        assert rest[k] in multiset(s[1..]);
        var j :| 0 <= j < |s[1..]| && s[1..][j] == rest[k];
        assert s[1..][j] == s[j + 1];
      }
    }
  }

  /** A line not above any of a sorted list may be put in front of it. */
  lemma ConsSorted(h: LineInfo, rest: seq<LineInfo>)
    requires SortedByLine(rest)
    requires forall k :: 0 <= k < |rest| ==> h.lineNumber <= rest[k].lineNumber
    ensures SortedByLine([h] + rest)
  {
    var r := [h] + rest;
    forall i, j | 0 <= i < j < |r| ensures r[i].lineNumber <= r[j].lineNumber {
      assert r[j] == rest[j - 1];
      if i > 0 {
        assert r[i] == rest[i - 1];
      }
    }
  }

  /** `sorted(lines, key=lambda x: x.line_number)`: an insertion sort, which keeps equal numbers in their order. */
  function SortLines(lines: seq<LineInfo>): (r: seq<LineInfo>)
    ensures SortedByLine(r)
    ensures multiset(r) == multiset(lines)
    ensures |r| == |lines|
  {
    if lines == [] then []
    else
      assert lines == [lines[0]] + lines[1..];
      InsertLine(lines[0], SortLines(lines[1..]))
  }

  /** Lines that are already in order are left as they are. */
  lemma {:induction false} SortLinesKeepsSorted(lines: seq<LineInfo>)
    requires SortedByLine(lines)
    ensures SortLines(lines) == lines
  {
    if lines != [] {
      assert SortedByLine(lines[1..]);
      SortLinesKeepsSorted(lines[1..]);
    }
  }

  const SampleLimit := 3
  const ContentLimit := 100

  /**
   * A sample line as printed: the 1-based line number, the date, the
   * content cut to 100 characters, and whether "..." follows.
   */
  datatype SampleLine = SampleLine(displayNumber: nat, lastModified: Option<string>, content: string, ellipsis: bool)

  function Sample(line: LineInfo): (r: SampleLine)
    ensures r.displayNumber == line.lineNumber + 1 && r.lastModified == line.lastModified
    ensures |r.content| <= ContentLimit && r.content <= line.content
    ensures r.ellipsis <==> |line.content| > ContentLimit
    ensures !r.ellipsis ==> r.content == line.content
    ensures r.ellipsis ==> |r.content| == ContentLimit
  {
    var shown := if |line.content| <= ContentLimit then line.content else line.content[..ContentLimit];
    SampleLine(line.lineNumber + 1, line.lastModified, shown, |line.content| > ContentLimit)
  }

  /** The first three lines by line number, as printed. */
  function Samples(lines: seq<LineInfo>): (r: seq<SampleLine>)
    ensures |r| == if |lines| < SampleLimit then |lines| else SampleLimit
    ensures forall i :: 0 <= i < |r| ==> r[i] == Sample(SortLines(lines)[i])
  {
    var sorted := SortLines(lines);
    var first := if |sorted| <= SampleLimit then sorted else sorted[..SampleLimit];
    seq(|first|, i requires 0 <= i < |first| => Sample(first[i]))
  }

  /** A file in the "currently present lines" list. */
  datatype CurrentFile = CurrentFile(path: string, lines: nat, lastModified: Option<string>, samples: seq<SampleLine>)

  /** A file in the "historical line contributions" list. */
  datatype HistoricalFile = HistoricalFile(path: string, lines: int)

  /** The per-file part of a section, present unless sample code is disabled. */
  datatype Details = Details(current: seq<CurrentFile>, historical: seq<HistoricalFile>)

  /**
   * One contributor's section: the sorted e-mails and companies (`None`
   * when the author has no entry in that dictionary), the two totals, and
   * the per-file details.
   */
  datatype TextSection = TextSection(
    author: string, emails: Option<seq<string>>, companies: Option<seq<string>>,
    currentTotal: nat, historicalTotal: int, details: Option<Details>)

  /** The printed line of a file with current lines: a date only when it is non-empty. */
  function CurrentFileOf(path: string, c: FileContribution): CurrentFile {
    CurrentFile(path, |c.currentLines|, if Truthy(c.lastModified) then c.lastModified else None, Samples(c.currentLines))
  }

  /**
   * `r` is the "currently present lines" list of `files`: every file with
   * current lines exactly once, printed from its contribution, with the
   * counts non-increasing.
   */
  predicate IsCurrentList(r: seq<CurrentFile>, files: map<string, FileContribution>) {
    && (forall i :: 0 <= i < |r| ==> r[i].path in files && r[i] == CurrentFileOf(r[i].path, files[r[i].path]))
    && (forall i :: 0 <= i < |r| ==> r[i].lines > 0)
    && (forall f :: f in files && files[f].currentLines != [] ==> exists i :: 0 <= i < |r| && r[i].path == f)
    && (forall i, j :: 0 <= i < j < |r| ==> r[i].path != r[j].path && r[i].lines >= r[j].lines)
  }

  /**
   * `r` is the "historical line contributions" list of `files`: every file
   * with a positive historical count exactly once, with that count, the
   * counts non-increasing.
   */
  predicate IsHistoricalList(r: seq<HistoricalFile>, files: map<string, FileContribution>) {
    && (forall i :: 0 <= i < |r| ==> r[i].path in files && r[i].lines == files[r[i].path].historicalLines)
    && (forall i :: 0 <= i < |r| ==> r[i].lines > 0)
    && (forall f :: f in files && files[f].historicalLines > 0 ==> exists i :: 0 <= i < |r| && r[i].path == f)
    && (forall i, j :: 0 <= i < j < |r| ==> r[i].path != r[j].path && r[i].lines >= r[j].lines)
  }

  /** The sorted members of a `defaultdict(set)` entry, when the key is present. */
  ghost function SortedEntry(m: map<string, set<string>>, a: string): Option<seq<string>> {
    if a in m then Some(Sorted(m[a])) else None
  }

  /** `s` is the text report's section for author `a`. */
  ghost predicate IsSection(
    s: TextSection, a: string, files: map<string, FileContribution>, emails: map<string, set<string>>,
    companies: map<string, set<string>>, noSampleCode: bool)
  {
    && s.author == a
    && s.emails == SortedEntry(emails, a)
    && s.companies == SortedEntry(companies, a)
    && s.currentTotal == Sum(files, CurrentCount)
    && s.historicalTotal == Sum(files, HistoricalCount)
    && (s.details.None? <==> noSampleCode)
    && (s.details.Some? ==> IsCurrentList(s.details.value.current, files) && IsHistoricalList(s.details.value.historical, files))
  }

  /** The keys of `order` with a positive weight, in the order of `order`. */
  function Positives(order: seq<string>, weight: map<string, int>): seq<string>
    requires forall i :: 0 <= i < |order| ==> order[i] in weight
  {
    if order == [] then []
    else
      var n := |order| - 1;
      var init := Positives(order[..n], weight);
      if weight[order[n]] > 0 then init + [order[n]] else init
  }

  /**
   * Filtering a ranking keeps it a ranking: from distinct keys with
   * non-increasing weights it keeps exactly those with a positive weight,
   * each once, their weights still non-increasing.
   */
  lemma {:induction false} PositivesRanked(order: seq<string>, weight: map<string, int>)
    requires forall i :: 0 <= i < |order| ==> order[i] in weight
    requires Distinct(order) && NonIncreasing(order, weight)
    ensures forall i :: 0 <= i < |Positives(order, weight)| ==> Positives(order, weight)[i] in weight
    ensures forall x :: x in Positives(order, weight) <==> x in order && weight[x] > 0
    ensures Distinct(Positives(order, weight)) && NonIncreasing(Positives(order, weight), weight)
  {
    if order != [] {
      var n := |order| - 1;
      var init := order[..n];
      var x := order[n];
      DistinctInit(order);
      assert forall i :: 0 <= i < n ==> init[i] == order[i];
      PositivesRanked(init, weight);
      var p := Positives(init, weight);
      assert forall y :: y in order <==> y in init || y == x;
      if weight[x] > 0 {
        forall i | 0 <= i < |p| ensures weight[p[i]] >= weight[x] && p[i] != x {
          assert p[i] in p;
          var j :| 0 <= j < n && init[j] == p[i];
        }
        AppendLightest(p, weight, x);
      }
    }
  }

  /**
   * The keys with a positive weight, heaviest first: a descending sort
   * followed by a filter that skips the others.
   */
  method RankPositive(weight: map<string, int>) returns (paths: seq<string>)
    ensures Distinct(paths)
    ensures forall p :: p in paths <==> p in weight && weight[p] > 0
    ensures forall i :: 0 <= i < |paths| ==> paths[i] in weight
    ensures NonIncreasing(paths, weight)
  {
    var order := RankDescending(weight);
    assert forall m :: 0 <= m < |order| ==> order[m] in weight;
    paths := [];
    var k := 0;
    while k < |order|
      invariant 0 <= k <= |order|
      invariant paths == Positives(order[..k], weight)
    {
      assert order[..k + 1][..k] == order[..k];
      if weight[order[k]] > 0 {
        paths := paths + [order[k]];
      }
      k := k + 1;
    }
    assert order[..k] == order;
    PositivesRanked(order, weight);
  }

  /**
   * The "currently present lines" list: the files ranked by their number of
   * current lines, most first, and those with none skipped.
   */
  method CurrentFiles(files: map<string, FileContribution>) returns (r: seq<CurrentFile>)
    ensures IsCurrentList(r, files)
  {
    var weight := map f | f in files :: |files[f].currentLines|;
    var paths := RankPositive(weight);
    r := seq(|paths|, i requires 0 <= i < |paths| => CurrentFileOf(paths[i], files[paths[i]]));
    forall i | 0 <= i < |r|
      ensures r[i].path == paths[i] && r[i].path in files && r[i] == CurrentFileOf(r[i].path, files[r[i].path])
      ensures r[i].lines == weight[paths[i]] > 0
    {
      assert paths[i] in paths;
    }
    forall f | f in files && files[f].currentLines != []
      ensures exists i :: 0 <= i < |r| && r[i].path == f
    {
      assert f in paths;
      var i :| 0 <= i < |paths| && paths[i] == f;
      assert r[i].path == f;
    }
    forall i, j | 0 <= i < j < |r|
      ensures r[i].path != r[j].path && r[i].lines >= r[j].lines
    {
    }
  }

  /**
   * The "historical line contributions" list: the files ranked by their
   * historical count, most first, and those without a positive count skipped.
   */
  method HistoricalFiles(files: map<string, FileContribution>) returns (r: seq<HistoricalFile>)
    ensures IsHistoricalList(r, files)
  {
    var weight := map f | f in files :: files[f].historicalLines;
    var paths := RankPositive(weight);
    r := seq(|paths|, i requires 0 <= i < |paths| => HistoricalFile(paths[i], files[paths[i]].historicalLines));
    forall i | 0 <= i < |r|
      ensures r[i].path == paths[i] && r[i].path in files && r[i].lines == files[r[i].path].historicalLines
      ensures r[i].lines == weight[paths[i]] > 0
    {
      assert paths[i] in paths;
    }
    forall f | f in files && files[f].historicalLines > 0
      ensures exists i :: 0 <= i < |r| && r[i].path == f
    {
      assert f in paths;
      var i :| 0 <= i < |paths| && paths[i] == f;
      assert r[i].path == f;
    }
    forall i, j | 0 <= i < j < |r|
      ensures r[i].path != r[j].path && r[i].lines >= r[j].lines
    {
    }
  }

  /** What `generate_report` produces, by output format. */
  datatype Report =
    | JsonOutput(json: JsonReport)
    | CsvOutput(header: seq<string>, rows: seq<CsvRow>)
    | TextOutput(sections: seq<TextSection>)

  // ---------------------------------------------------------------------------
  // Agreement between the formats.

  /**
   * The three formats agree on an author's totals: the CSV columns equal the
   * JSON totals, which are the sums of the per-file counts the JSON report
   * lists, and a text section of that author shows the same two numbers.
   */
  lemma TotalsAgree(
    author: string, files: map<string, FileContribution>, emails: map<string, set<string>>,
    companies: map<string, set<string>>, section: TextSection, noSampleCode: bool)
    ensures var row := CsvRowOf(author, files, SetOf(emails, author));
      var summary := SummaryOf(files, SetOf(emails, author), SetOf(companies, author));
      && row.currentLines == summary.totalCurrentLines == SummedCurrent(summary.files)
      && row.totalLinesContributed == summary.totalHistoricalLines == SummedHistorical(summary.files)
    ensures IsSection(section, author, files, emails, companies, noSampleCode) ==>
      var row := CsvRowOf(author, files, SetOf(emails, author));
      section.currentTotal == row.currentLines && section.historicalTotal == row.totalLinesContributed
  {
    SummaryTotalsAddUp(files, SetOf(emails, author), SetOf(companies, author));
  }
}
