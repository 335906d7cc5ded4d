/**
 * `process_file`: the per-file worker. It asks git three things about one
 * file at the analysed revisions (does the file have history there, who
 * owns each current line, who added how many lines), and gives back the
 * per-author result, or an empty result when any step fails.
 */
module ProcessFile {
  import opened Options
  import opened Strings
  import opened Blame
  import opened Numstat

  /**
   * What git answers for one file: whether `rev-list -1` succeeds, the
   * `blame --line-porcelain` output and the `log --numstat` output, each
   * `None` where the command fails.
   */
  datatype GitOutputs = GitOutputs(revListOk: bool, blame: Option<string>, log: Option<string>)

  /** The lines of a command's output: `output.split('\n')`. */
  function OutputLines(output: string): seq<string> {
    Split(output, '\n')
  }

  /**
   * The result for one file: empty when `rev-list` or `blame` fails, when
   * the blame output cannot be read, or when `log` fails; otherwise the
   * blame result with the log's additions counted in.
   */
  function ProcessFileSpec(out: GitOutputs, formatDate: int -> Option<string>): (r: FileResult)
    ensures !out.revListOk || out.blame.None? || out.log.None? ==> r == map[]
    ensures out.blame.Some? && BlameResult(OutputLines(out.blame.value), formatDate).None? ==> r == map[]
  {
    if !out.revListOk || out.blame.None? then map[]
    else
      match BlameResult(OutputLines(out.blame.value), formatDate)
      case None => map[]
      case Some(blamed) =>
        if out.log.None? then map[] else NumstatRun(OutputLines(out.log.value), blamed).result
  }

  /**
   * `process_file((repo_path, revision_args, file_path))`. The git commands
   * are the oracle `git(repoPath, revisionArgs, filePath)`.
   */
  method ProcessFile(
    repoPath: string, revisionArgs: seq<string>, filePath: string,
    git: (string, seq<string>, string) -> GitOutputs, formatDate: int -> Option<string>
  ) returns (path: string, result: FileResult)
    ensures path == filePath
    ensures result == ProcessFileSpec(git(repoPath, revisionArgs, filePath), formatDate)
  {
    path := filePath;
    var out := git(repoPath, revisionArgs, filePath);
    if !out.revListOk || out.blame.None? {
      return path, map[];
    }
    var blamed := ParseBlame(OutputLines(out.blame.value), formatDate);
    if blamed.None? || out.log.None? {
      return path, map[];
    }
    result := ParseNumstat(OutputLines(out.log.value), blamed.value);
  }

  /**
   * When every command succeeds, the result has an entry for exactly the
   * authors blame attributes a line to and those with a stat line in the
   * log. Each entry holds exactly the lines blame gives the author (numbered
   * in file order among the attributed lines), the date of the last of them,
   * as historical count exactly the additions the log files under their
   * name, and as e-mail the log's (`current_email or email`) or else the one
   * blame recorded with their last line.
   */
  lemma ProcessFileMeaning(out: GitOutputs, formatDate: int -> Option<string>)
    requires out.revListOk && out.blame.Some? && out.log.Some?
    requires BlameResult(OutputLines(out.blame.value), formatDate).Some?
    ensures var recs := Recorded(OutputLines(out.blame.value), formatDate);
      var r := ProcessFileSpec(out, formatDate);
      var logLines := OutputLines(out.log.value);
      forall a ::
        && (a in r <==> a in AuthorsOf(recs) || HasStatUnder(logLines, a))
        && EntryOf(r, a).currentLines == Bucket(recs, a)
        && EntryOf(r, a).historical == AddedBy(logLines, a)
        && EntryOf(r, a).lastModified == (if a in AuthorsOf(recs) then LastOf(recs, a).value.date else None)
        && EntryOf(r, a).email == (
          if LogEmail(logLines, a).Some? then LogEmail(logLines, a)
          else if a in AuthorsOf(recs) then LastOf(recs, a).value.email
          else None)
  {
    var blameLines := OutputLines(out.blame.value);
    var logLines := OutputLines(out.log.value);
    var recs := Recorded(blameLines, formatDate);
    BlameRunMeaning(blameLines, formatDate);
    var blamed := BlameRun(blameLines, formatDate).value.result;
    assert blamed == Expected(recs);
    assert ProcessFileSpec(out, formatDate) == NumstatRun(logLines, blamed).result;
    NumstatRunMeaning(logLines, blamed);
    forall a
      ensures EntryOf(blamed, a).currentLines == Bucket(recs, a)
      ensures EntryOf(blamed, a).historical == 0
      ensures EntryOf(blamed, a).lastModified == (if a in AuthorsOf(recs) then LastOf(recs, a).value.date else None)
      ensures EntryOf(blamed, a).email == (if a in AuthorsOf(recs) then LastOf(recs, a).value.email else None)
      ensures a in blamed <==> a in AuthorsOf(recs)
    {
      if a !in AuthorsOf(recs) {
        BucketOfAbsent(recs, a);
      }
    }
  }

  /**
   * An author who added lines to the file in its history but owns none of
   * its current lines still appears, with no current lines and a positive
   * historical count.
   */
  lemma HistoryOnlyAuthor(out: GitOutputs, formatDate: int -> Option<string>, a: string)
    requires out.revListOk && out.blame.Some? && out.log.Some?
    requires BlameResult(OutputLines(out.blame.value), formatDate).Some?
    requires a !in AuthorsOf(Recorded(OutputLines(out.blame.value), formatDate))
    requires AddedBy(OutputLines(out.log.value), a) > 0
    ensures var r := ProcessFileSpec(out, formatDate);
      a in r && r[a].currentLines == [] && r[a].historical > 0
  {
    var blameLines := OutputLines(out.blame.value);
    ProcessFileMeaning(out, formatDate);
    BlameRunMeaning(blameLines, formatDate);
    NumstatRunMeaning(OutputLines(out.log.value), BlameResult(blameLines, formatDate).value);
    BucketOfAbsent(Recorded(blameLines, formatDate), a);
  }
}
