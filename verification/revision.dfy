/** The git revision arguments built from the commits the user excludes. */
module Revision {
  import opened Strings

  /** The exclusion list as the analyzer keeps it: every commit id whitespace-stripped. */
  function CleanCommits(commits: seq<string>): (r: seq<string>)
    ensures |r| == |commits|
    ensures forall i :: 0 <= i < |r| ==> r[i] == Strip(commits[i])
  {
    seq(|commits|, i requires 0 <= i < |commits| => Strip(commits[i]))
  }

  /**
   * `get_revision_range`: `HEAD` alone when nothing is excluded, otherwise
   * `HEAD` followed by one negated revision `^c` per excluded commit, in order.
   */
  function RevisionRange(excludeCommits: seq<string>): (args: seq<string>)
    ensures |args| == 1 + |excludeCommits| && args[0] == "HEAD"
    ensures forall i :: 0 <= i < |excludeCommits| ==> args[i + 1] == "^" + excludeCommits[i]
    ensures args == ["HEAD"] <==> excludeCommits == []
  {
    if excludeCommits == [] then ["HEAD"]
    else ["HEAD"] + seq(|excludeCommits|, i requires 0 <= i < |excludeCommits| => "^" + excludeCommits[i])
  }

  /** Every argument after the first is a negated revision. */
  predicate IsNegatedRange(args: seq<string>) {
    args != [] && forall i :: 1 <= i < |args| ==> StartsWith(args[i], "^")
  }

  /** The commits a range of the form `HEAD ^c1 ^c2 ...` excludes. */
  function ExcludedBy(args: seq<string>): (commits: seq<string>)
    requires IsNegatedRange(args)
    ensures |commits| == |args| - 1
    decreases |args|
  {
    if |args| == 1 then []
    else
      assert IsNegatedRange(args[..|args| - 1]);
      ExcludedBy(args[..|args| - 1]) + [args[|args| - 1][1..]]
  }

  /** Reading the excluded commits back from the built range gives the exclusion list. */
  lemma {:induction false} RevisionRangeRoundTrip(excludeCommits: seq<string>)
    ensures IsNegatedRange(RevisionRange(excludeCommits))
    ensures ExcludedBy(RevisionRange(excludeCommits)) == excludeCommits
    decreases |excludeCommits|
  {
    var args := RevisionRange(excludeCommits);
    assert forall i :: 1 <= i < |args| ==> args[i][..1] == "^";
    if excludeCommits != [] {
      var init := excludeCommits[..|excludeCommits| - 1];
      RevisionRangeRoundTrip(init);
      assert args[..|args| - 1] == RevisionRange(init);
      assert args[|args| - 1][1..] == excludeCommits[|excludeCommits| - 1];
      assert excludeCommits == init + [excludeCommits[|excludeCommits| - 1]];
    }
  }
}
