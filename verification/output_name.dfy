/**
 * The output file name `main` writes to: when the last path component has
 * no '.', the extension of the chosen format is appended.
 */
module OutputName {
  /** `os.path.basename`: the text after the last '/', all of it when there is none. */
  function BaseName(path: string): (r: string)
    ensures '/' !in r
  {
    if path == [] then []
    else if path[|path| - 1] == '/' then []
    else
      var init := path[..|path| - 1];
      assert path == init + [path[|path| - 1]];
      BaseName(init) + [path[|path| - 1]]
  }

  /** Appending text without a '/' extends the last component. */
  lemma {:induction false} BaseNameAppend(path: string, suffix: string)
    requires '/' !in suffix
    ensures BaseName(path + suffix) == BaseName(path) + suffix
    decreases |suffix|
  {
    if suffix == [] {
      assert path + suffix == path;
    } else {
      var whole := path + suffix;
      var init := suffix[..|suffix| - 1];
      var last := suffix[|suffix| - 1];
      assert suffix == init + [last];
      assert whole[..|whole| - 1] == path + init;
      assert last != '/' by {
        assert last in suffix;
      }
      assert '/' !in init by {
        assert forall x :: x in init ==> x in suffix;
      }
      BaseNameAppend(path, init);
      assert BaseName(whole) == BaseName(path + init) + [last];
      assert BaseName(path) + init + [last] == BaseName(path) + suffix;
    }
  }

  /** The format names the command line accepts. */
  predicate IsFormat(format: string) {
    format == "txt" || format == "json" || format == "csv"
  }

  /**
   * The name actually written: unchanged when its last component has a '.',
   * otherwise with ".txt", ".json" or ".csv" appended.
   */
  function OutputFileName(output: string, format: string): (r: string)
    requires IsFormat(format)
    ensures r == output || r == output + "." + format
  {
    if '.' in BaseName(output) then output else output + "." + format
  }

  /**
   * The last component of the name written always has a '.', and it is
   * the given name exactly when that name's last component already had one.
   */
  lemma OutputFileNameHasExtension(output: string, format: string)
    requires IsFormat(format)
    ensures '.' in BaseName(OutputFileName(output, format))
    ensures OutputFileName(output, format) == output <==> '.' in BaseName(output)
  {
    if '.' !in BaseName(output) {
      var ext := "." + format;
      BaseNameAppend(output, ext);
      assert output + "." + format == output + ext;
      assert (BaseName(output) + ext)[|BaseName(output)|] == '.';
    }
  }

  /** Defaulting the extension twice is the same as once. */
  lemma OutputFileNameIdempotent(output: string, format: string)
    requires IsFormat(format)
    ensures OutputFileName(OutputFileName(output, format), format) == OutputFileName(output, format)
  {
    OutputFileNameHasExtension(output, format);
  }
}
