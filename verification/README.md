# Git contributor analysis, modelled in Dafny

`analyze-repo.py` reports, for one git repository, how many lines of the
current code each author owns (from `git blame --line-porcelain`) and how
many lines each author added over the history (from `git log --numstat`),
optionally restricted to some extensions and with commits, paths and glob
patterns excluded. Its class `GitContributorAnalyzer` does the following:

1. It builds the revision arguments `HEAD ^c1 ^c2 ...`.
2. It filters the output of `git ls-files`.
3. A per-file worker (`process_file`) parses blame and log output into a
   per-author result.
4. It merges those results, in whatever order the worker pool returns them,
   into three dictionaries:
   - author → file → contribution;
   - author → e-mails;
   - author → e-mail domains ("companies").
5. It renders those dictionaries as a JSON, CSV or text report.

The model follows that structure, one module per part:

- `Options` and `Strings`: Python's `Optional`, truthiness, `strip`,
  `split`, `join` and `int()`.
- `Ordering`:
  - `sorted()` on strings, in code-point order;
  - a descending sort by an integer key.
- `Revision`: `get_revision_range` and the cleaning of the exclusion list.
- `PathFilter`:
  - `should_exclude_file`;
  - the cleaning of exclude paths;
  - the file filter of `analyze_repository`.
- `EmailDomain`: `extract_email_domain`. Address parsing is a parameter.
- `Blame`: the `--line-porcelain` loop of `process_file` is a `method` that
  steps the cursor variables. It is proved equal to a prefix-recursive step
  function, and that function is proved equal to a cursor-free description:
  - which content lines are recorded;
  - under which author;
  - with which number, date and e-mail.
- `Numstat`: the `--numstat` loop, with the same layering. The reference
  description is "the additions filed under the author's headers".
- `ProcessFile`: the whole worker. The git commands are an oracle parameter
  that returns each command's output, or `None` when it fails.
- `Aggregate`: the dictionaries as a value, and the merge of one file's
  result.
  - `MergeFile` states the merge without any order among the authors.
  - `FoldFiles` folds the merge over a list of files.
  - Lemmas show that merging is order-independent: two files commute, and
    any permutation of the file list gives the same state.
  - Lemmas also show what the fold records, author by author and file by
    file.
- `Analyzer`: the class `GitContributorAnalyzer`. Its fields are the three
  dictionaries, which `analyze_repository` updates in place.
  - The loop that merges one file's authors is proved equal to `MergeFile`.
  - The loop over the worker results picks any pending file as the next
    one to finish, which models `imap_unordered`. It is proved to end in
    the state obtained by merging the results in listing order.
  - The three report methods are proved against the reference
    functions in `Reports`.
- `Reports`:
  - per-author totals, as an order-free sum over a map;
  - the JSON, CSV and text report contents;
  - the sample-line truncation;
  - the agreement of the formats' totals.
- `OutputName`: the output file name. `main` appends the format's
  extension when the last path component has no '.'.

Two behaviours of the code worth naming:

- **Binary numstat lines.** A binary file's stat line `-\t-\tpath` starts
  with a non-digit, so it is read as an author header
  (`Numstat.BinaryStatIsHeader`). It adds nothing.
- **Failure to list the files.** If `git ls-files` fails,
  `analyze_repository` returns with the dictionaries unchanged, and a report
  is still produced (`AnalyzeRepository` with `lsFiles == None`).

One behaviour of the code is stated as written: an author name that starts
with a digit makes its header line look like a stat line, which is then
skipped. The cursor keeps the previous author, who is credited with the
following additions (`Numstat.DigitNameHeaderSkipped`).

## Model

| member | source | states |
|---|---|---|
| Revision.CleanCommits | analyze-repo.py:41 | the kept exclusion list has one entry per given commit, in order, each whitespace-stripped |
| Revision.RevisionRange | analyze-repo.py:49-58 | exactly `["HEAD"]` when no commit is excluded; otherwise 1 + n arguments, `HEAD` then `^c` for each excluded commit in order |
| Revision.RevisionRangeRoundTrip | analyze-repo.py:54-58 | every argument after `HEAD` is a negated revision, and dropping the `^` gives back the exclusion list |
| PathFilter.CleanPathsContents | analyze-repo.py:43 | a cleaned exclude path is present exactly when some non-blank entry, stripped of '/' at both ends, gives it |
| PathFilter.MatchIsSegmentMatch | analyze-repo.py:87-89 | the exact and directory-prefix matches are special cases of the `/path/` substring match, so a path matches iff it occurs as whole segments |
| PathFilter.ExcludedByPath | analyze-repo.py:81-92 | the loop over exclude paths says yes iff some exclude path matches the path, after '\' is replaced by '/' in both |
| PathFilter.ExcludedByPattern | analyze-repo.py:95-99 | the loop over patterns says yes iff some pattern matches |
| PathFilter.ShouldExcludeFile | analyze-repo.py:70-101 | excluded iff some exclude path matches the normalised path, or some glob pattern matches; the pattern sees '\' replaced only when there are exclude paths |
| PathFilter.FilterFiles | analyze-repo.py:209-214 | a listed file survives iff it is non-empty, not excluded, and the allow-list is absent, empty or has a suffix of it; every copy of a kept entry stays, and no other entry occurs |
| EmailDomain.DomainOf | analyze-repo.py:107-109 | `None` iff the address has no '@'; otherwise the text between the first '@' and the next '@' or the end |
| EmailDomain.ExtractEmailDomain | analyze-repo.py:103-109 | `None` iff the parsed address has no '@'; otherwise the text between its first '@' and the next '@' or the end, which never contains '@' |
| Strings.Split | analyze-repo.py:145 | `str.split` with one separator: the pieces are free of the separator and join back to the input |
| Strings.SplitUnique | analyze-repo.py:145 | splitting the join of separator-free pieces gives the pieces back |
| Strings.ParseInt | analyze-repo.py:183 | `int()` succeeds iff the stripped text is an optional sign followed by digits with single underscores between digits; blank text raises; text that starts with a digit and parses gives a non-negative number |
| Strings.ParseIntRejects | analyze-repo.py:180-185 | `int()` raises on text with a character that is not a digit, an underscore or a leading sign, so such a stat line is skipped |
| Strings.ParseShowNat | analyze-repo.py:183 | `int()` reads back every decimal numeral |
| Ordering.SortStrings | analyze-repo.py:308-311 | `sorted()` of a set: strictly ascending, and exactly the set's elements |
| Ordering.RankDescending | analyze-repo.py:347 | a sort by weight, descending: every key exactly once, weights non-increasing |
| Blame.ParseBlame | analyze-repo.py:139-158 | the blame loop ends in the state the step function gives for the whole output, or fails where `int()` or the date conversion raises |
| Blame.BlameRunStaysFailed | analyze-repo.py:151 | once a date conversion has raised, the file's blame fails whatever follows |
| Blame.BlameRunMeaning | analyze-repo.py:139-158 | after the loop, the cursor holds the last author, e-mail (angle brackets stripped) and date headers, the counter is the number of recorded lines, and the result is what the recorded lines describe |
| Blame.BucketNumbering | analyze-repo.py:152-158 | each author's lines are exactly that author's recorded lines, in order, numbered by their position among all recorded lines, so numbers are strictly increasing |
| Numstat.ParseNumstat | analyze-repo.py:168-185 | the numstat loop ends in the state the step function gives for the whole log |
| Numstat.NumstatRunMeaning | analyze-repo.py:168-185 | each author's historical count grows by exactly the additions filed under that author's headers; lines and date are untouched; the e-mail becomes that of the last counted stat line whose header has a non-empty one (`current_email or email`), else stays; entries exist for exactly the starting authors and those with a stat line under their header |
| Numstat.BinaryStatIsHeader | analyze-repo.py:174-181 | a binary file's stat line starts with '-' and is read as a header, so it never changes the counts |
| Numstat.DeletionsIgnored | analyze-repo.py:180-183 | the deletions field of a stat line has no effect |
| Numstat.DigitNameHeaderSkipped | analyze-repo.py:174-185 | a header whose author name starts with a digit leaves the cursor and the result unchanged |
| ProcessFile.ProcessFileSpec | analyze-repo.py:118-191 | the result is empty when `rev-list`, `blame` or `log` fails, or the blame output cannot be read because `int()` or the date conversion raises |
| ProcessFile.ProcessFile | analyze-repo.py:112-191 | the worker returns its own path and the result `ProcessFileSpec` gives for git's outputs |
| ProcessFile.ProcessFileMeaning | analyze-repo.py:139-185 | when every command succeeds, the authors are exactly those blame attributes a line to plus those with a stat line in the log; each entry has exactly the lines blame gives them, the date of the last of them, as historical count the additions the log files under them, and as e-mail the log's last non-empty one or else the one blame recorded with their last line |
| ProcessFile.HistoryOnlyAuthor | analyze-repo.py:139-185 | an author with additions in the log but no current line appears with no current lines and a positive historical count |
| Aggregate.MergeNothing | analyze-repo.py:237 | merging an empty result, which is what a failed file gives, changes nothing |
| Aggregate.MergeOneMore | analyze-repo.py:237-255 | merging a result with one more author is merging that author's entry into the merge of the rest |
| Aggregate.MergeAuthorsMeaning | analyze-repo.py:237-255 | merging the authors one by one, in any order without repeats, equals the order-free merge of those authors' entries |
| Aggregate.MergeFileEffect | analyze-repo.py:237-255 | after merging a file, exactly that file's authors gain it; their contribution has its count, date and e-mail overwritten and its lines extended; an author's e-mail set grows by a non-empty e-mail and the company set by a non-empty domain; nothing else changes |
| Aggregate.MergeFilesCommute | analyze-repo.py:234-255 | the results of two different files merged in either order give the same state |
| Aggregate.FoldPermutation | analyze-repo.py:229-255 | any reordering of the files, repeated entries included, gives the same final state |
| Aggregate.FoldStatsAt | analyze-repo.py:234-249 | an author has a file after the fold iff they had it before or the file was analysed and names them; with no repeated file, that contribution is the result's entry added to the previous one |
| Aggregate.FoldSetAt | analyze-repo.py:251-255 | an author's e-mail (company) set after the fold is the previous set plus exactly what the analysed files' results give them |
| Analyzer.FreshAnalysis | analyze-repo.py:193-255 | from empty dictionaries, an author has a file iff it was analysed and its result names the author, with the worker's entry as contribution; the e-mails and companies are exactly those the results give |
| Analyzer.CreditedFilesPassFilter | analyze-repo.py:209-255 | every file credited to an author was listed by `git ls-files`, is non-empty, is not excluded by path or pattern, and has an allowed extension |
| Analyzer.GitContributorAnalyzer.constructor | analyze-repo.py:38-47 | missing lists become empty; commits are stripped, blank paths dropped and the rest '/'-stripped; the dictionaries start empty |
| Analyzer.GitContributorAnalyzer.MergeAuthorEntry | analyze-repo.py:237-255 | the loop body over one author updates the three fields as the merge of that author's entry |
| Analyzer.GitContributorAnalyzer.AddFileEntry | analyze-repo.py:237-248 | the author's contribution to the file is created when missing, its count, date and e-mail replaced and its lines extended; the e-mail and company dictionaries are untouched |
| Analyzer.GitContributorAnalyzer.AddEmailAndCompany | analyze-repo.py:250-254 | a non-empty e-mail joins the author's e-mails and its non-empty domain the author's companies; the statistics are untouched |
| Analyzer.GitContributorAnalyzer.MergeFileResult | analyze-repo.py:237-255 | the loop over one file's authors, in any order, leaves the fields equal to the order-free merge of the file |
| Analyzer.GitContributorAnalyzer.AnalyzeRepository | analyze-repo.py:193-256 | a failed listing leaves the state unchanged; otherwise results merged in any completion order leave the state equal to merging the filtered files in listing order |
| Analyzer.GitContributorAnalyzer.GenerateJsonReport | analyze-repo.py:266-294 | the settings are copied, and every author of the statistics, and no other, gets their e-mails, companies, both totals and per-file counts |
| Analyzer.GitContributorAnalyzer.CsvRowFor | analyze-repo.py:308-326 | an author's row: name, sorted e-mails joined with ';' (empty when none), historical total, current total |
| Analyzer.GitContributorAnalyzer.GenerateCsvReport | analyze-repo.py:299-326 | the header, then one row per author, every author present, names strictly ascending |
| Analyzer.GitContributorAnalyzer.AuthorTotals | analyze-repo.py:341-344 | every author's current total (non-negative) and historical total |
| Analyzer.GitContributorAnalyzer.TextSectionOf | analyze-repo.py:349-401 | an author's section: sorted e-mails and companies only when the author has an entry, both totals, and the file lists unless sample code is off |
| Analyzer.GitContributorAnalyzer.GenerateTextReport | analyze-repo.py:340-404 | one section per author, each author exactly once, current totals non-increasing |
| Analyzer.GitContributorAnalyzer.GenerateReport | analyze-repo.py:260-265 | "json" gives the JSON report, "csv" the CSV report, and any other format the text report, each in full as `IsJsonReport`, `IsCsvReport` and `IsTextReport` state it (every author's summary; every author's row, names ascending; every author's section, totals non-increasing) |
| Reports.FileTotals | analyze-repo.py:314-319 | the two counters equal the sums of the files' current and historical line counts |
| Reports.SumRemove | analyze-repo.py:277-278 | a sum over an author's files does not depend on the order in which the files are taken |
| Reports.SummaryTotalsAddUp | analyze-repo.py:277-294 | a JSON author's two totals are the sums of the per-file counts listed under that author |
| Reports.EmailListRoundTrip | analyze-repo.py:308-311 | when no e-mail contains ';', splitting the CSV e-mail column on ';' gives back the sorted e-mails |
| Reports.TotalsAgree | analyze-repo.py:276-344 | the CSV columns equal the JSON totals and the sums of its per-file counts, and a text section of the author shows the same two totals |
| Reports.InsertLine | analyze-repo.py:385 | inserting a line into lines sorted by number keeps them sorted and adds exactly that line |
| Reports.SortLines | analyze-repo.py:385 | the lines in non-decreasing line-number order, a permutation of the input |
| Reports.SortLinesKeepsSorted | analyze-repo.py:385 | sorting lines already in order changes nothing |
| Reports.Sample | analyze-repo.py:386-390 | a sample shows number + 1 and the date, at most 100 characters, a prefix of the content, and exactly its first 100 characters when longer; "..." is appended iff the content is longer than 100 characters |
| Reports.Samples | analyze-repo.py:385-390 | the first min(3, n) lines in line-number order, each shown as a sample |
| Reports.PositivesRanked | analyze-repo.py:377-378 | skipping the files without lines in a ranking keeps exactly the files with lines, each once, their counts still non-increasing |
| Reports.RankPositive | analyze-repo.py:371-378 | the keys with a positive weight, each once, weights non-increasing |
| Reports.CurrentFiles | analyze-repo.py:366-390 | every file with current lines exactly once, with its count, non-empty date and samples, counts non-increasing |
| Reports.HistoricalFiles | analyze-repo.py:393-401 | every file with a positive historical count exactly once, with that count, counts non-increasing |
| OutputName.OutputFileName | analyze-repo.py:429-436 | the name is kept or has ".txt", ".json" or ".csv" appended |
| OutputName.OutputFileNameHasExtension | analyze-repo.py:429-436 | the last component of the name written always contains '.', and the name is unchanged iff its last component already did |
| OutputName.OutputFileNameIdempotent | analyze-repo.py:429-436 | defaulting the extension twice is the same as once |

## Left out

- **Git.** The git commands (`ls-files`, `rev-list`, `blame`, `log`) are not
  modelled. Their outputs are inputs: `lsFiles` is `None` when listing fails,
  and the per-file outputs come from an oracle `git(repoPath, revisionArgs,
  path)`. What git computes, such as which commits a revision range
  excludes, is outside the model.
- **Worker pool.** `multiprocessing.Pool` and `imap_unordered` are modelled
  as the results arriving in any order, one at a time. Process startup and
  pickling are not modelled.
- **Library calls as parameters.** `fnmatch.fnmatch` is a parameter `glob`.
  `email.utils.parseaddr` is a parameter `parseAddr`. `datetime.fromtimestamp`
  with `strftime` is a parameter `formatDate`, whose `None` stands for a
  raised exception. `datetime.now()` is the `generatedAt` argument.
- **Unicode in parsing.** `str.isdigit` is modelled on ASCII digits only, and
  `int()` on ASCII digits with optional underscores. A line that starts with
  another Unicode digit is therefore read as a header by the model.
- **Decoding.** `errors='replace'` decoding of git's bytes is not modelled;
  outputs are already strings, taken after the newline translation that
  `text=True` applies (`\r\n` and `\r` become `\n`), so no `\r` reaches the
  split on `'\n'`.
- Numstat.ParseNumstat: a stat line before any header is skipped. Python
  would file it under the key `None`. `git log` always starts with a header,
  unless that header is itself skipped (`DigitNameHeaderSkipped`).
- Ordering.RankDescending: the order among equal weights is left open.
  Python's stable sort keeps dictionary insertion order, which the model
  does not track (dictionaries are maps). The same applies to
  Reports.RankPositive and Analyzer.GitContributorAnalyzer.GenerateTextReport.
  The order of e-mails and companies in the JSON lists and the order of keys
  in the JSON objects follow set and dictionary order; the model gives
  them as sets and maps.
- Analyzer.GitContributorAnalyzer.GenerateJsonReport: `self.contributor_emails[author]`
  on a `defaultdict` inserts an empty entry for an author without e-mails.
  The CSV report does the same. The JSON and CSV report methods do not
  change the fields, because only one report is produced per run, so the
  insertion is never observed.
- **Report text and files.** The files are not written: `json.dump` and
  `csv.writer` serialisation are left out. So are the text report's banner,
  timestamp and "Excluded ..." header lines, the separator lines, and the
  number formatting with thousands separators.
- **Messages and options.** `DEBUG` environment prints, progress prints,
  error messages, and `argparse` with the rest of `main` are not modelled.
  The comma-splitting of the command-line lists is also left out; the
  analyzer takes the lists themselves.
- **Dead code.** The first definition of `analyze_repository`
  (analyze-repo.py:60-67) is shadowed by the second one, so it is not
  modelled.
- **Other script.** tripit-to-photos.py is a linear script over a photo
  library binding and a JSON file, with no logic of its own, so it is not
  modelled.
