/**
 * `GitContributorAnalyzer`: the object that holds the analysis settings and
 * the three dictionaries `analyze_repository` fills, file result by file
 * result.
 */
module Analyzer {
  import opened Options
  import opened Strings
  import opened Revision
  import opened PathFilter
  import opened Blame
  import opened ProcessFile
  import opened Aggregate
  import opened EmailDomain
  import opened Ordering
  import opened Reports

  /** The per-file worker as a function of the path, with the settings of one run fixed. */
  function ResultOf(
    repoPath: string, revisionArgs: seq<string>, git: (string, seq<string>, string) -> GitOutputs,
    formatDate: int -> Option<string>
  ): string -> FileResult {
    f => ProcessFileSpec(git(repoPath, revisionArgs, f), formatDate)
  }

  /**
   * What an analysis from empty dictionaries records, author by author and
   * file by file: an author has a contribution to a file exactly when the
   * file is among those analysed and its result names the author; with no
   * file listed twice that contribution is the author's entry as the worker
   * gave it; and the author's e-mails and companies are exactly those the
   * results give.
   */
  lemma FreshAnalysis(
    files: seq<string>, resultOf: string -> FileResult, parseAddr: string -> string, a: string, f: string, x: string)
    ensures var m := FoldFiles(EmptyAggregate, files, resultOf, parseAddr);
      f in FilesOf(m.stats, a) <==> f in files && a in resultOf(f)
    ensures var m := FoldFiles(EmptyAggregate, files, resultOf, parseAddr);
      Distinct(files) && f in files && a in resultOf(f) ==>
        var e := resultOf(f)[a];
        ContributionOf(m.stats, a, f) == FileContribution(e.currentLines, e.historical, e.lastModified, e.email)
    ensures var m := FoldFiles(EmptyAggregate, files, resultOf, parseAddr);
      x in SetOf(m.emails, a) <==> GivenBy(files, resultOf, EmailsFrom, a, x)
    ensures var m := FoldFiles(EmptyAggregate, files, resultOf, parseAddr);
      x in SetOf(m.companies, a) <==> GivenBy(files, resultOf, CompaniesPick(parseAddr), a, x)
  {
    FoldStatsAt(EmptyAggregate, files, resultOf, parseAddr, a, f);
    FoldFilesSets(EmptyAggregate, files, resultOf, parseAddr);
    FoldSetAt(map[], files, resultOf, EmailsFrom, a, x);
    FoldSetAt(map[], files, resultOf, CompaniesPick(parseAddr), a, x);
  }

  /**
   * After an analysis from empty dictionaries, every file an author is
   * credited with was listed by `git ls-files` and passes the filter.
   */
  lemma CreditedFilesPassFilter(
    lsFiles: string, excludePaths: seq<string>, excludePatterns: seq<string>, glob: (string, string) -> bool,
    fileExtensions: Option<set<string>>, resultOf: string -> FileResult, parseAddr: string -> string, a: string, f: string)
    ensures var files := FilterFiles(Split(lsFiles, '\n'), excludePaths, excludePatterns, glob, fileExtensions);
      var m := FoldFiles(EmptyAggregate, files, resultOf, parseAddr);
      f in FilesOf(m.stats, a) ==>
        && f in Split(lsFiles, '\n') && f != ""
        && !ShouldExcludeFile(excludePaths, excludePatterns, glob, f)
        && HasAllowedExtension(f, fileExtensions)
  {
    var files := FilterFiles(Split(lsFiles, '\n'), excludePaths, excludePatterns, glob, fileExtensions);
    FreshAnalysis(files, resultOf, parseAddr, a, f, "");
  }

  class GitContributorAnalyzer {
    const repoPath: string
    const excludeCommits: seq<string>
    const excludePaths: seq<string>
    const excludePatterns: seq<string>
    var contributorStats: Stats
    var contributorEmails: map<string, set<string>>
    var contributorCompanies: map<string, set<string>>

    /** The three dictionaries as one value. */
    function State(): Aggregate
      reads this
    {
      Aggregate(contributorStats, contributorEmails, contributorCompanies)
    }

    /**
     * `__init__`: a missing list is an empty one; commits are stripped,
     * blank exclude paths dropped and the others stripped of '/', and the
     * dictionaries start empty.
     */
    constructor(
      repoPath: string, excludeCommits: Option<seq<string>>, excludePaths: Option<seq<string>>,
      excludePatterns: Option<seq<string>>)
      ensures this.repoPath == repoPath
      ensures this.excludeCommits == CleanCommits(excludeCommits.GetOr([]))
      ensures this.excludePaths == CleanPaths(excludePaths.GetOr([]))
      ensures this.excludePatterns == excludePatterns.GetOr([])
      ensures State() == EmptyAggregate
    {
      this.repoPath := repoPath;
      this.excludeCommits := CleanCommits(excludeCommits.GetOr([]));
      this.excludePaths := CleanPaths(excludePaths.GetOr([]));
      this.excludePatterns := excludePatterns.GetOr([]);
      contributorStats := map[];
      contributorEmails := map[];
      contributorCompanies := map[];
    }

    /** The files `analyze_repository` hands to the workers, in listing order. */
    function FilesToAnalyze(lsFiles: string, fileExtensions: Option<set<string>>, glob: (string, string) -> bool)
      : seq<string>
    {
      FilterFiles(Split(lsFiles, '\n'), excludePaths, excludePatterns, glob, fileExtensions)
    }

    /**
     * The body of the loop over one file's authors: the contribution is
     * created when missing, its count, date and e-mail are overwritten and
     * its lines extended; a non-empty e-mail is added to the author's
     * e-mails and its non-empty domain to the author's companies.
     */
    method MergeAuthorEntry(path: string, a: string, e: FileEntry, parseAddr: string -> string)
      modifies this
      ensures State() == MergeAuthor(old(State()), path, a, e, parseAddr)
    {
      AddFileEntry(path, a, e);
      AddEmailAndCompany(a, e, parseAddr);
    }

    /** The statistics half of `MergeAuthorEntry`. */
    method AddFileEntry(path: string, a: string, e: FileEntry)
      modifies this
      ensures contributorStats == AddContribution(old(contributorStats), path, a, e)
      ensures contributorEmails == old(contributorEmails) && contributorCompanies == old(contributorCompanies)
    {
      ghost var before := contributorStats;
      if a !in contributorStats {
        contributorStats := contributorStats[a := map[]];
      }
      var authorFiles := contributorStats[a];
      assert authorFiles == FilesOf(before, a);
      if path !in authorFiles {
        authorFiles := authorFiles[path := NewContribution];
        contributorStats := contributorStats[a := authorFiles];
      }
      var contribution := authorFiles[path];
      assert contribution == ContributionOf(before, a, path);
      contribution := contribution.(historicalLines := e.historical, lastModified := e.lastModified, committerEmail := e.email);
      contribution := contribution.(currentLines := contribution.currentLines + e.currentLines);
      assert authorFiles[path := contribution] == FilesOf(before, a)[path := contribution];
      contributorStats := contributorStats[a := authorFiles[path := contribution]];
    }

    /** The e-mail and company half of `MergeAuthorEntry`. */
    method AddEmailAndCompany(a: string, e: FileEntry, parseAddr: string -> string)
      modifies this
      ensures contributorStats == old(contributorStats)
      ensures contributorEmails == AddTo(old(contributorEmails), a, EmailsFrom(e))
      ensures contributorCompanies == AddTo(old(contributorCompanies), a, CompaniesFrom(e, parseAddr))
    {
      if Truthy(e.email) {
        contributorEmails := contributorEmails[a := SetOf(contributorEmails, a) + {e.email.value}];
        var domain := ExtractEmailDomain(e.email.value, parseAddr);
        if Truthy(domain) {
          contributorCompanies := contributorCompanies[a := SetOf(contributorCompanies, a) + {domain.value}];
        }
      }
    }

    /**
     * One file's result merged in, its authors taken in whatever order the
     * dictionary yields them; the outcome is the order-free `MergeFile`.
     */
    method MergeFileResult(path: string, res: FileResult, parseAddr: string -> string)
      modifies this
      ensures State() == MergeFile(old(State()), path, res, parseAddr)
    {
      ghost var start := State();
      var todo := res.Keys;
      ghost var order: seq<string> := [];
      while todo != {}
        invariant todo <= res.Keys
        invariant forall b :: b in order <==> b in res && b !in todo
        invariant Distinct(order)
        invariant State() == MergeAuthors(start, path, res, order, parseAddr)
        decreases |todo|
      {
        var a :| a in todo;
        MergeAuthorEntry(path, a, res[a], parseAddr);
        assert (order + [a])[..|order|] == order;
        order := order + [a];
        todo := todo - {a};
      }
      MergeAuthorsMeaning(start, path, res, order, parseAddr);
      EntriesOfAll(res, order);
    }

    /**
     * `analyze_repository(file_extensions)`. `lsFiles` is the output of
     * `git ls-files`, `None` when the command fails, which leaves the state
     * unchanged. Otherwise the listed files that pass the filter are handed
     * to the workers and their results merged in the order the workers
     * finish, which is any order; the state is then the one obtained by
     * merging the results in listing order.
     */
    method AnalyzeRepository(
      lsFiles: Option<string>, fileExtensions: Option<set<string>>, glob: (string, string) -> bool,
      git: (string, seq<string>, string) -> GitOutputs, formatDate: int -> Option<string>, parseAddr: string -> string)
      modifies this
      ensures lsFiles.None? ==> State() == old(State())
      ensures lsFiles.Some? ==>
        State() == FoldFiles(
          old(State()), FilesToAnalyze(lsFiles.value, fileExtensions, glob),
          ResultOf(repoPath, RevisionRange(excludeCommits), git, formatDate), parseAddr)
    {
      if lsFiles.None? {
        return;
      }
      var files := FilterFiles(Split(lsFiles.value, '\n'), excludePaths, excludePatterns, glob, fileExtensions);
      var revisionArgs := RevisionRange(excludeCommits);
      ghost var start := State();
      ghost var resultOf := ResultOf(repoPath, revisionArgs, git, formatDate);
      var pending := files;
      ghost var finished: seq<string> := [];
      while pending != []
        invariant multiset(finished) + multiset(pending) == multiset(files)
        invariant State() == FoldFiles(start, finished, resultOf, parseAddr)
        decreases |pending|
      {
        var k :| 0 <= k < |pending|;
        var filePath, fileResults := ProcessFile.ProcessFile(repoPath, revisionArgs, pending[k], git, formatDate);
        assert filePath == pending[k] && fileResults == resultOf(filePath);
        MoveOne(finished, pending, k, files);
        FoldSnoc(start, finished, filePath, resultOf, parseAddr);
        MergeFileResult(filePath, fileResults, parseAddr);
        finished := finished + [filePath];
        pending := pending[..k] + pending[k + 1..];
      }
      FoldPermutation(start, finished, files, resultOf, parseAddr);
    }
  
    /** The JSON report of the current state: the settings, the clock reading, and `SummaryOf` for every author. */
    ghost predicate IsJsonReport(r: JsonReport, generatedAt: string)
      reads this
    {
      && r.generatedAt == generatedAt
      && r.excludedCommits == excludeCommits && r.excludedPaths == excludePaths
      && r.excludedPatterns == excludePatterns
      && r.contributors.Keys == contributorStats.Keys
      && forall a :: a in r.contributors ==>
        r.contributors[a] == SummaryOf(contributorStats[a], SetOf(contributorEmails, a), SetOf(contributorCompanies, a))
    }

    /**
     * `_generate_json_report`, without the serialisation: the settings are
     * copied, `generatedAt` is the clock reading, and every author of the
     * statistics gets the entry `SummaryOf` describes.
     */
    method GenerateJsonReport(generatedAt: string) returns (r: JsonReport)
      ensures IsJsonReport(r, generatedAt)
    {
      var contributors: map<string, ContributorSummary> := map[];
      var todo := contributorStats.Keys;
      while todo != {}
        invariant todo <= contributorStats.Keys
        invariant contributors.Keys == contributorStats.Keys - todo
        invariant forall a :: a in contributors ==>
          contributors[a] == SummaryOf(contributorStats[a], SetOf(contributorEmails, a), SetOf(contributorCompanies, a))
        decreases |todo|
      {
        var a :| a in todo;
        var fileStats := contributorStats[a];
        var current, historical := FileTotals(fileStats);
        var files := map f | f in fileStats :: FileSummaryOf(fileStats[f]);
        contributors := contributors[a := ContributorSummary(
          SetOf(contributorEmails, a), SetOf(contributorCompanies, a), current, historical, files)];
        todo := todo - {a};
      }
      r := JsonReport(generatedAt, excludeCommits, excludePaths, excludePatterns, contributors);
    }

    /** One author's CSV row: the sorted e-mails joined with ';' and the two totals. */
    method CsvRowFor(author: string) returns (row: CsvRow)
      requires author in contributorStats
      ensures row == CsvRowOf(author, contributorStats[author], SetOf(contributorEmails, author))
    {
      var emails := SetOf(contributorEmails, author);
      var emailList := "";
      if emails != {} {
        var sortedEmails := SortStrings(emails);
        emailList := Join(sortedEmails, ';');
      }
      var currentLines, historicalLines := FileTotals(contributorStats[author]);
      row := CsvRow(author, emailList, historicalLines, currentLines);
    }

    /** The rows of the given authors, in their order. */
    method CsvRowsFor(authors: seq<string>) returns (rows: seq<CsvRow>)
      requires forall i :: 0 <= i < |authors| ==> authors[i] in contributorStats
      ensures |rows| == |authors|
      ensures forall i :: 0 <= i < |rows| ==>
        rows[i] == CsvRowOf(authors[i], contributorStats[authors[i]], SetOf(contributorEmails, authors[i]))
    {
      rows := [];
      var k := 0;
      while k < |authors|
        invariant 0 <= k <= |authors| && |rows| == k
        invariant forall i :: 0 <= i < k ==>
          rows[i] == CsvRowOf(authors[i], contributorStats[authors[i]], SetOf(contributorEmails, authors[i]))
      {
        var row := CsvRowFor(authors[k]);
        rows := rows + [row];
        k := k + 1;
      }
    }

    /** The CSV report of the current state: the header, then each author's `CsvRowOf` row once, names ascending. */
    ghost predicate IsCsvReport(header: seq<string>, rows: seq<CsvRow>)
      reads this
    {
      && header == CsvHeader
      && |rows| == |contributorStats|
      && (forall i :: 0 <= i < |rows| ==>
        rows[i].name in contributorStats
        && rows[i] == CsvRowOf(rows[i].name, contributorStats[rows[i].name], SetOf(contributorEmails, rows[i].name)))
      && (forall a :: a in contributorStats ==> exists i :: 0 <= i < |rows| && rows[i].name == a)
      && (forall i, j :: 0 <= i < j < |rows| ==> Less(rows[i].name, rows[j].name))
    }

    /**
     * `_generate_csv_report`, without the writer: the header, then one row
     * per author in ascending name order, each as `CsvRowOf` describes it.
     */
    method GenerateCsvReport() returns (header: seq<string>, rows: seq<CsvRow>)
      ensures IsCsvReport(header, rows)
    {
      header := CsvHeader;
      var authors := SortStrings(contributorStats.Keys);
      assert StrictlyAscending(authors) && |authors| == |contributorStats.Keys|;
      assert forall x :: x in authors <==> x in contributorStats;
      rows := CsvRowsFor(authors);
      forall i | 0 <= i < |rows|
        ensures rows[i].name == authors[i] && rows[i].name in contributorStats
        ensures rows[i] == CsvRowOf(rows[i].name, contributorStats[rows[i].name], SetOf(contributorEmails, rows[i].name))
      {
        assert authors[i] in authors;
      }
      forall a | a in contributorStats
        ensures exists i :: 0 <= i < |rows| && rows[i].name == a
      {
        var i :| 0 <= i < |authors| && authors[i] == a;
        assert rows[i].name == a;
      }
      forall i, j | 0 <= i < j < |rows|
        ensures Less(rows[i].name, rows[j].name)
      {
        assert rows[i].name == authors[i] && rows[j].name == authors[j];
      }
    }

    /**
     * One contributor's section of the text report, given the two totals
     * already computed for the ranking.
     */
    method TextSectionOf(author: string, currentTotal: nat, historicalTotal: int, noSampleCode: bool)
      returns (s: TextSection)
      requires author in contributorStats
      requires currentTotal == Sum(contributorStats[author], CurrentCount)
      requires historicalTotal == Sum(contributorStats[author], HistoricalCount)
      ensures IsSection(s, author, contributorStats[author], contributorEmails, contributorCompanies, noSampleCode)
    {
      var emails: Option<seq<string>> := None;
      if author in contributorEmails {
        var sortedEmails := SortStrings(contributorEmails[author]);
        emails := Some(sortedEmails);
      }
      var companies: Option<seq<string>> := None;
      if author in contributorCompanies {
        var sortedCompanies := SortStrings(contributorCompanies[author]);
        companies := Some(sortedCompanies);
      }
      var details: Option<Details> := None;
      if !noSampleCode {
        var current := CurrentFiles(contributorStats[author]);
        var historical := HistoricalFiles(contributorStats[author]);
        details := Some(Details(current, historical));
      }
      s := TextSection(author, emails, companies, currentTotal, historicalTotal, details);
    }

    /** The first loop of `_generate_text_report`: both totals of every author. */
    method AuthorTotals() returns (currentTotals: map<string, int>, historicalTotals: map<string, int>)
      ensures currentTotals.Keys == contributorStats.Keys && historicalTotals.Keys == contributorStats.Keys
      ensures forall a :: a in currentTotals ==>
        0 <= currentTotals[a] == Sum(contributorStats[a], CurrentCount)
        && historicalTotals[a] == Sum(contributorStats[a], HistoricalCount)
    {
      currentTotals := map[];
      historicalTotals := map[];
      var todo := contributorStats.Keys;
      while todo != {}
        invariant todo <= contributorStats.Keys
        invariant currentTotals.Keys == contributorStats.Keys - todo
        invariant historicalTotals.Keys == currentTotals.Keys
        invariant forall a :: a in currentTotals ==>
          0 <= currentTotals[a] == Sum(contributorStats[a], CurrentCount)
          && historicalTotals[a] == Sum(contributorStats[a], HistoricalCount)
        decreases |todo|
      {
        var a :| a in todo;
        var current, historical := FileTotals(contributorStats[a]);
        currentTotals := currentTotals[a := current];
        historicalTotals := historicalTotals[a := historical];
        todo := todo - {a};
      }
    }

    /** The text report of the current state: each author's section once, current totals non-increasing. */
    ghost predicate IsTextReport(sections: seq<TextSection>, noSampleCode: bool)
      reads this
    {
      && (forall i :: 0 <= i < |sections| ==>
        sections[i].author in contributorStats
        && IsSection(sections[i], sections[i].author, contributorStats[sections[i].author],
                     contributorEmails, contributorCompanies, noSampleCode))
      && (forall a :: a in contributorStats ==> exists i :: 0 <= i < |sections| && sections[i].author == a)
      && (forall i, j :: 0 <= i < j < |sections| ==>
        sections[i].author != sections[j].author && sections[i].currentTotal >= sections[j].currentTotal)
    }

    /**
     * `_generate_text_report`, without the writing: one section per author,
     * each author once, ranked by current total, largest first.
     */
    method GenerateTextReport(noSampleCode: bool) returns (sections: seq<TextSection>)
      ensures IsTextReport(sections, noSampleCode)
    {
      var currentTotals, historicalTotals := AuthorTotals();
      var order := RankDescending(currentTotals);
      sections := [];
      var k := 0;
      while k < |order|
        invariant 0 <= k <= |order| && |sections| == k
        invariant forall i :: 0 <= i < k ==>
          sections[i].author == order[i]
          && IsSection(sections[i], order[i], contributorStats[order[i]], contributorEmails, contributorCompanies, noSampleCode)
      {
        var author := order[k];
        assert author in currentTotals;
        var s := TextSectionOf(author, currentTotals[author], historicalTotals[author], noSampleCode);
        sections := sections + [s];
        k := k + 1;
      }
      forall i | 0 <= i < |sections|
        ensures sections[i].author in contributorStats
        ensures IsSection(sections[i], sections[i].author, contributorStats[sections[i].author],
                          contributorEmails, contributorCompanies, noSampleCode)
      {
        assert sections[i].author == order[i];
      }
      forall a | a in contributorStats
        ensures exists i :: 0 <= i < |sections| && sections[i].author == a
      {
        assert a in currentTotals;
        var i :| 0 <= i < |order| && order[i] == a;
        assert sections[i].author == a;
      }
      forall i, j | 0 <= i < j < |sections|
        ensures sections[i].author != sections[j].author && sections[i].currentTotal >= sections[j].currentTotal
      {
        assert sections[i].currentTotal == currentTotals[order[i]];
        assert sections[j].currentTotal == currentTotals[order[j]];
      }
    }

    /**
     * `generate_report`: "json" and "csv" select those formats, any other
     * format name the text report, and the report chosen is the one its
     * generator promises.
     */
    method GenerateReport(outputFormat: string, noSampleCode: bool, generatedAt: string) returns (r: Report)
      ensures r.JsonOutput? <==> outputFormat == "json"
      ensures r.CsvOutput? <==> outputFormat == "csv"
      ensures r.JsonOutput? ==> IsJsonReport(r.json, generatedAt)
      ensures r.CsvOutput? ==> IsCsvReport(r.header, r.rows)
      ensures r.TextOutput? ==> IsTextReport(r.sections, noSampleCode)
    {
      if outputFormat == "json" {
        var json := GenerateJsonReport(generatedAt);
        r := JsonOutput(json);
      } else if outputFormat == "csv" {
        var header, rows := GenerateCsvReport();
        r := CsvOutput(header, rows);
      } else {
        var sections := GenerateTextReport(noSampleCode);
        r := TextOutput(sections);
      }
    }
  }
}
