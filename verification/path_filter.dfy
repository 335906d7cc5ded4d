/**
 * Which tracked files the analyzer looks at: exclusion by path, exclusion by
 * glob pattern, and the extension allow-list. The glob matcher (`fnmatch`) is a
 * parameter `glob(path, pattern)`.
 */
module PathFilter {
  import opened Options
  import opened Strings

  predicate IsSlash(c: char) {
    c == '/'
  }

  /** An exclude path entry is kept when it is not blank. */
  predicate IsKeptPath(p: string) {
    Strip(p) != ""
  }

  /** A kept exclude path loses its leading and trailing '/'. */
  function CleanPath(p: string): (r: string)
    ensures r == [] || (r[0] != '/' && r[|r| - 1] != '/')
  {
    StripChars(p, IsSlash)
  }

  /**
   * The exclude paths as the analyzer keeps them: blank entries dropped, the
   * others cleaned, in the given order.
   */
  function CleanPaths(paths: seq<string>): (r: seq<string>)
    ensures |r| <= |paths|
  {
    if paths == [] then []
    else (if IsKeptPath(paths[0]) then [CleanPath(paths[0])] else []) + CleanPaths(paths[1..])
  }

  /** A cleaned exclude path is present exactly when some non-blank entry cleans to it. */
  lemma {:induction false} CleanPathsContents(paths: seq<string>, x: string)
    ensures x in CleanPaths(paths) <==> exists p :: p in paths && IsKeptPath(p) && CleanPath(p) == x
  {
    if paths != [] {
      var head := if IsKeptPath(paths[0]) then [CleanPath(paths[0])] else [];
      var rest := CleanPaths(paths[1..]);
      CleanPathsContents(paths[1..], x);
      assert CleanPaths(paths) == head + rest;
      if x in head + rest {
        if x in head {
          assert paths[0] in paths;
        } else {
          var p :| p in paths[1..] && IsKeptPath(p) && CleanPath(p) == x;
          assert p in paths;
        }
      }
      if exists p :: p in paths && IsKeptPath(p) && CleanPath(p) == x {
        var p :| p in paths && IsKeptPath(p) && CleanPath(p) == x;
        if p == paths[0] {
          assert x in head;
        } else {
          assert p in paths[1..];
          assert x in rest;
        }
      }
    }
  }

  /** The path after '/' is stripped from both ends and '\' is turned into '/'. */
  function NormalizePath(filePath: string): string {
    ReplaceChar(CleanPath(filePath), '\\', '/')
  }

  /**
   * One exclude path matches a normalised file path: the same path, a path
   * below it, or a path containing it as a run of whole segments.
   */
  predicate MatchesExcludePath(normalized: string, excludePath: string) {
    || normalized == excludePath
    || StartsWith(normalized, excludePath + "/")
    || Contains("/" + normalized + "/", "/" + excludePath + "/")
  }

  /**
   * The first two ways to match are special cases of the third: an exclude
   * path matches exactly when it occurs as whole segments of the file path.
   */
  lemma MatchIsSegmentMatch(normalized: string, excludePath: string)
    ensures MatchesExcludePath(normalized, excludePath)
        <==> Contains("/" + normalized + "/", "/" + excludePath + "/")
  {
    var hay := "/" + normalized + "/";
    var needle := "/" + excludePath + "/";
    if normalized == excludePath {
      assert OccursAt(hay, needle, 0);
    } else if StartsWith(normalized, excludePath + "/") {
      assert normalized[..|excludePath| + 1] == excludePath + "/";
      assert hay[..|needle|] == "/" + normalized[..|excludePath| + 1];
      assert OccursAt(hay, needle, 0);
    }
  }

  /**
   * The loop over the exclude paths, each and the file path with '\' turned
   * into '/': true as soon as one matches.
   */
  function ExcludedByPath(stripped: string, excludePaths: seq<string>): (r: bool)
    ensures r <==> exists i :: 0 <= i < |excludePaths| && MatchesExcludePath(ReplaceChar(stripped, '\\', '/'), ReplaceChar(excludePaths[i], '\\', '/'))
  {
    if excludePaths == [] then false
    else
      var tail := ExcludedByPath(stripped, excludePaths[1..]);
      assert forall i :: 1 <= i < |excludePaths| ==> excludePaths[i] == excludePaths[1..][i - 1];
      MatchesExcludePath(ReplaceChar(stripped, '\\', '/'), ReplaceChar(excludePaths[0], '\\', '/')) || tail
  }

  /** The loop over the glob patterns: true as soon as one matches. */
  function ExcludedByPattern(path: string, patterns: seq<string>, glob: (string, string) -> bool): (r: bool)
    ensures r <==> exists j :: 0 <= j < |patterns| && glob(path, patterns[j])
  {
    if patterns == [] then false
    else
      var tail := ExcludedByPattern(path, patterns[1..], glob);
      assert forall j :: 1 <= j < |patterns| ==> patterns[j] == patterns[1..][j - 1];
      glob(path, patterns[0]) || tail
  }

  /**
   * The path the glob patterns are matched against. The '\' to '/'
   * replacement of the file path happens inside the exclude-path loop, so it
   * is in effect only when there is at least one exclude path.
   */
  function PatternSubject(filePath: string, excludePaths: seq<string>): string {
    var stripped := CleanPath(filePath);
    if excludePaths == [] then stripped else ReplaceChar(stripped, '\\', '/')
  }

  /**
   * `should_exclude_file`: excluded exactly when some exclude path matches
   * the normalised path, or some pattern matches.
   */
  function ShouldExcludeFile(
    excludePaths: seq<string>, excludePatterns: seq<string>, glob: (string, string) -> bool, filePath: string
  ): (r: bool)
    ensures r <==>
      || (exists i :: 0 <= i < |excludePaths|
            && MatchesExcludePath(NormalizePath(filePath), ReplaceChar(excludePaths[i], '\\', '/')))
      || (exists j :: 0 <= j < |excludePatterns| && glob(PatternSubject(filePath, excludePaths), excludePatterns[j]))
  {
    var stripped := CleanPath(filePath);
    ExcludedByPath(stripped, excludePaths)
      || ExcludedByPattern(PatternSubject(filePath, excludePaths), excludePatterns, glob)
  }

  /** No allow-list (`None` or empty) lets every file through; otherwise the file must end with one of them. */
  predicate HasAllowedExtension(filePath: string, extensions: Option<set<string>>) {
    || extensions.None?
    || extensions.value == {}
    || exists ext :: ext in extensions.value && EndsWith(filePath, ext)
  }

  /** The condition of the file filter in `analyze_repository`. */
  predicate KeepFile(
    filePath: string, excludePaths: seq<string>, excludePatterns: seq<string>,
    glob: (string, string) -> bool, extensions: Option<set<string>>
  ) {
    && filePath != ""
    && !ShouldExcludeFile(excludePaths, excludePatterns, glob, filePath)
    && HasAllowedExtension(filePath, extensions)
  }

  /**
   * The filtered file list, in the listing's order: a file survives exactly
   * when it is non-empty, not excluded and allowed by the extension list.
   */
  function FilterFiles(
    files: seq<string>, excludePaths: seq<string>, excludePatterns: seq<string>,
    glob: (string, string) -> bool, extensions: Option<set<string>>
  ): (r: seq<string>)
    ensures forall f :: f in r <==> f in files && KeepFile(f, excludePaths, excludePatterns, glob, extensions)
    ensures multiset(r) <= multiset(files)
    ensures forall f :: multiset(r)[f] == if KeepFile(f, excludePaths, excludePatterns, glob, extensions) then multiset(files)[f] else 0
  {
    if files == [] then []
    else
      var rest := FilterFiles(files[1..], excludePaths, excludePatterns, glob, extensions);
      assert files == [files[0]] + files[1..];
      if KeepFile(files[0], excludePaths, excludePatterns, glob, extensions) then [files[0]] + rest else rest
  }
}
