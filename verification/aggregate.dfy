/**
 * The analyzer's accumulated state and how one file's result is merged into
 * it: per author and file a `FileContribution`, and per author the e-mails
 * and companies (e-mail domains) seen.
 */
module Aggregate {
  import opened Options
  import opened Blame
  import opened EmailDomain
  import opened Ordering

  /** `FileContribution`: one author's share of one file. */
  datatype FileContribution = FileContribution(
    currentLines: seq<LineInfo>, historicalLines: int, lastModified: Option<string>, committerEmail: Option<string>)

  /** `FileContribution()`: no lines, no count, no date, no e-mail. */
  const NewContribution := FileContribution([], 0, None, None)

  /** `contributor_stats`: author, then file path. */
  type Stats = map<string, map<string, FileContribution>>

  /** The three dictionaries the analyzer fills. */
  datatype Aggregate = Aggregate(stats: Stats, emails: map<string, set<string>>, companies: map<string, set<string>>)

  const EmptyAggregate := Aggregate(map[], map[], map[])

  /** The files of an author, none when the author is unknown. */
  function FilesOf(stats: Stats, a: string): map<string, FileContribution> {
    if a in stats then stats[a] else map[]
  }

  /** The contribution of `a` to `f`, a fresh one when there is none yet. */
  function ContributionOf(stats: Stats, a: string, f: string): FileContribution {
    if f in FilesOf(stats, a) then FilesOf(stats, a)[f] else NewContribution
  }

  /** A `defaultdict(set)` read: the stored set or the empty one. */
  function SetOf(m: map<string, set<string>>, a: string): set<string> {
    if a in m then m[a] else {}
  }

  /** A contribution after a file's entry is merged in: the count, date and e-mail replaced, the lines extended. */
  function Contributed(c: FileContribution, e: FileEntry): FileContribution {
    FileContribution(c.currentLines + e.currentLines, e.historical, e.lastModified, e.email)
  }

  /** The e-mail an entry adds to its author's set: its own, when non-empty. */
  function EmailsFrom(e: FileEntry): set<string> {
    if Truthy(e.email) then {e.email.value} else {}
  }

  /** The company an entry adds: the domain of its non-empty e-mail, when that is non-empty. */
  function CompaniesFrom(e: FileEntry, parseAddr: string -> string): set<string> {
    if Truthy(e.email) && Truthy(ExtractEmailDomain(e.email.value, parseAddr)) then
      {ExtractEmailDomain(e.email.value, parseAddr).value}
    else {}
  }

  /** `m[a] |= extra` on a `defaultdict(set)`, where the key is only created when something is added. */
  function AddTo(m: map<string, set<string>>, a: string, extra: set<string>): map<string, set<string>> {
    if extra == {} then m else m[a := SetOf(m, a) + extra]
  }

  /** The author's contribution to `path` after the entry `e` is merged in. */
  function AddContribution(stats: Stats, path: string, a: string, e: FileEntry): Stats {
    stats[a := FilesOf(stats, a)[path := Contributed(ContributionOf(stats, a, path), e)]]
  }

  /** `CompaniesFrom` as the pick of the companies dictionary. */
  function CompaniesPick(parseAddr: string -> string): FileEntry -> set<string> {
    e => CompaniesFrom(e, parseAddr)
  }

  /**
   * One iteration of the loop over a file's authors: the author's
   * contribution to the file is created if needed and updated, and the
   * e-mail and its domain are added to the author's sets.
   */
  function MergeAuthor(agg: Aggregate, path: string, a: string, e: FileEntry, parseAddr: string -> string): Aggregate {
    Aggregate(
      AddContribution(agg.stats, path, a, e),
      AddTo(agg.emails, a, EmailsFrom(e)),
      AddTo(agg.companies, a, CompaniesFrom(e, parseAddr)))
  }

  /** The authors of a result whose entries carry something for the set `pick` builds. */
  function Contributing(res: FileResult, pick: FileEntry -> set<string>): set<string> {
    set a | a in res && pick(res[a]) != {}
  }

  /** Every author of the result gets its contribution to `path`; other authors are left as they are. */
  function MergeStats(stats: Stats, path: string, res: FileResult): Stats {
    map a | a in stats.Keys + res.Keys ::
      if a in res then FilesOf(stats, a)[path := Contributed(ContributionOf(stats, a, path), res[a])]
      else stats[a]
  }

  /** Every author of the result gets what `pick` takes from its entry; other authors are left as they are. */
  function MergeSets(m: map<string, set<string>>, res: FileResult, pick: FileEntry -> set<string>): map<string, set<string>> {
    map a | a in m.Keys + Contributing(res, pick) :: SetOf(m, a) + (if a in res then pick(res[a]) else {})
  }

  /**
   * A whole file's result merged at once, written without any order among
   * its authors.
   */
  function MergeFile(agg: Aggregate, path: string, res: FileResult, parseAddr: string -> string): Aggregate {
    Aggregate(
      MergeStats(agg.stats, path, res),
      MergeSets(agg.emails, res, EmailsFrom),
      MergeSets(agg.companies, res, CompaniesPick(parseAddr)))
  }

  /**
   * An empty result, which is what a file whose git commands fail gives,
   * leaves the state as it was.
   */
  lemma MergeNothing(agg: Aggregate, path: string, parseAddr: string -> string)
    ensures MergeFile(agg, path, map[], parseAddr) == agg
  {
    MergeStatsNothing(agg.stats, path);
    MergeSetsNothing(agg.emails, EmailsFrom);
    MergeSetsNothing(agg.companies, CompaniesPick(parseAddr));
  }

  lemma MergeStatsNothing(stats: Stats, path: string)
    ensures MergeStats(stats, path, map[]) == stats
  {
    var none: FileResult := map[];
    var m := MergeStats(stats, path, none);
    forall a ensures a in m <==> a in stats {
      assert a in m <==> a in stats.Keys + none.Keys;
    }
    forall a, f
      ensures f in FilesOf(m, a) <==> f in FilesOf(stats, a)
      ensures ContributionOf(m, a, f) == ContributionOf(stats, a, f)
    {
      MergeStatsAt(stats, path, none, a, f);
    }
    StatsEqual(m, stats);
  }

  lemma MergeSetsNothing(m: map<string, set<string>>, pick: FileEntry -> set<string>)
    ensures MergeSets(m, map[], pick) == m
  {
    var none: FileResult := map[];
    forall a ensures (a in MergeSets(m, none, pick) <==> a in m) && SetOf(MergeSets(m, none, pick), a) == SetOf(m, a) {
      MergeSetsAt(m, none, pick, a);
    }
    SetsEqual(MergeSets(m, none, pick), m);
  }

  /** Two results with the same authors and the same entries are equal. */
  lemma SameEntries(r1: FileResult, r2: FileResult)
    requires r1.Keys == r2.Keys && forall b :: b in r1 ==> r1[b] == r2[b]
    ensures r1 == r2
  {
  }

  /**
   * Merging the authors one at a time, in any order, merges the whole
   * result: adding one more author's entry to a partial result is the same
   * as merging that author on top.
   */
  lemma MergeOneMore(agg: Aggregate, path: string, r0: FileResult, a: string, e: FileEntry, parseAddr: string -> string)
    requires a !in r0
    ensures MergeFile(agg, path, r0[a := e], parseAddr) == MergeAuthor(MergeFile(agg, path, r0, parseAddr), path, a, e, parseAddr)
  {
    MergeStatsOneMore(agg.stats, path, r0, a, e);
    MergeSetsOneMore(agg.emails, r0, a, e, EmailsFrom);
    MergeSetsOneMore(agg.companies, r0, a, e, CompaniesPick(parseAddr));
  }

  /** The authors of `order` merged one after the other, each with its entry in `res`. */
  function MergeAuthors(agg: Aggregate, path: string, res: FileResult, order: seq<string>, parseAddr: string -> string)
    : Aggregate
    requires forall b :: b in order ==> b in res
    decreases |order|
  {
    if order == [] then agg
    else
      var a := order[|order| - 1];
      MergeAuthor(MergeAuthors(agg, path, res, order[..|order| - 1], parseAddr), path, a, res[a], parseAddr)
  }

  /** The entries of the authors listed in `order`. */
  function EntriesOf(res: FileResult, order: seq<string>): (r: FileResult)
    requires forall b :: b in order ==> b in res
    ensures forall b :: b in r <==> b in order
  {
    map b | b in order :: res[b]
  }

  /**
   * Merging the authors of a result one at a time, each once and in any
   * order, merges the entries of the authors merged so far as `MergeFile`
   * does; once every author is listed, that is the whole result.
   */
  lemma {:induction false} MergeAuthorsMeaning(
    agg: Aggregate, path: string, res: FileResult, order: seq<string>, parseAddr: string -> string)
    requires forall b :: b in order ==> b in res
    requires Distinct(order)
    ensures MergeAuthors(agg, path, res, order, parseAddr) == MergeFile(agg, path, EntriesOf(res, order), parseAddr)
    decreases |order|
  {
    if order == [] {
      assert EntriesOf(res, order) == map[];
      MergeNothing(agg, path, parseAddr);
    } else {
      var n := |order| - 1;
      var init := order[..n];
      EntriesSnoc(res, order);
      MergeAuthorsMeaning(agg, path, res, init, parseAddr);
      MergeOneMore(agg, path, EntriesOf(res, init), order[n], res[order[n]], parseAddr);
    }
  }

  /** The entries of a list of distinct authors are those of all but the last, plus the last one's. */
  lemma EntriesSnoc(res: FileResult, order: seq<string>)
    requires forall b :: b in order ==> b in res
    requires Distinct(order) && order != []
    ensures var n := |order| - 1;
      && (forall b :: b in order[..n] ==> b in res)
      && Distinct(order[..n])
      && order[n] !in EntriesOf(res, order[..n])
      && EntriesOf(res, order) == EntriesOf(res, order[..n])[order[n] := res[order[n]]]
  {
    var n := |order| - 1;
    var a := order[n];
    var init := order[..n];
    assert forall b :: b in init ==> b in order;
    DistinctInit(order);
    assert forall b :: b in order <==> b in init || b == a;
    SameEntries(EntriesOf(res, order), EntriesOf(res, init)[a := res[a]]);
  }

  /** Once every author of the result is listed, the entries are the whole result. */
  lemma EntriesOfAll(res: FileResult, order: seq<string>)
    requires forall b :: b in order <==> b in res
    ensures EntriesOf(res, order) == res
  {
    SameEntries(EntriesOf(res, order), res);
  }

  lemma MergeStatsOneMore(stats: Stats, path: string, r0: FileResult, a: string, e: FileEntry)
    requires a !in r0
    ensures MergeStats(stats, path, r0[a := e]) == AddContribution(MergeStats(stats, path, r0), path, a, e)
  {
    var lhs := MergeStats(stats, path, r0[a := e]);
    var rhs := AddContribution(MergeStats(stats, path, r0), path, a, e);
    forall b ensures b in lhs <==> b in rhs {
      assert b in lhs <==> b in stats || b in r0 || b == a;
    }
    forall b, f
      ensures f in FilesOf(lhs, b) <==> f in FilesOf(rhs, b)
      ensures ContributionOf(lhs, b, f) == ContributionOf(rhs, b, f)
    {
      MergeStatsOneMoreAt(stats, path, r0, a, e, b, f);
    }
    StatsEqual(lhs, rhs);
  }

  lemma MergeStatsOneMoreAt(stats: Stats, path: string, r0: FileResult, a: string, e: FileEntry, b: string, f: string)
    requires a !in r0
    ensures var lhs := MergeStats(stats, path, r0[a := e]);
      var rhs := AddContribution(MergeStats(stats, path, r0), path, a, e);
      && (f in FilesOf(lhs, b) <==> f in FilesOf(rhs, b))
      && ContributionOf(lhs, b, f) == ContributionOf(rhs, b, f)
  {
    var before := MergeStats(stats, path, r0);
    MergeStatsAt(stats, path, r0[a := e], b, f);
    MergeStatsAt(stats, path, r0, b, f);
    MergeStatsAt(stats, path, r0, a, path);
  }

  lemma MergeSetsOneMore(m: map<string, set<string>>, r0: FileResult, a: string, e: FileEntry, pick: FileEntry -> set<string>)
    requires a !in r0
    ensures MergeSets(m, r0[a := e], pick) == AddTo(MergeSets(m, r0, pick), a, pick(e))
  {
    var lhs := MergeSets(m, r0[a := e], pick);
    var rhs := AddTo(MergeSets(m, r0, pick), a, pick(e));
    forall b ensures (b in lhs <==> b in rhs) && SetOf(lhs, b) == SetOf(rhs, b) {
      MergeSetsAt(m, r0[a := e], pick, b);
      MergeSetsAt(m, r0, pick, b);
    }
    SetsEqual(lhs, rhs);
  }

  /** The statistics after one file's result: only the pairs of an author of the result and `path` change. */
  lemma MergeStatsEffect(stats: Stats, path: string, res: FileResult)
    ensures var m := MergeStats(stats, path, res);
      && (forall a :: a in m <==> a in stats || a in res)
      && forall a, f ::
        && (f in FilesOf(m, a) <==> f in FilesOf(stats, a) || (f == path && a in res))
        && ContributionOf(m, a, f)
           == if f == path && a in res then Contributed(ContributionOf(stats, a, f), res[a]) else ContributionOf(stats, a, f)
  {
    var m := MergeStats(stats, path, res);
    forall a, f
      ensures f in FilesOf(m, a) <==> f in FilesOf(stats, a) || (f == path && a in res)
      ensures ContributionOf(m, a, f)
           == if f == path && a in res then Contributed(ContributionOf(stats, a, f), res[a]) else ContributionOf(stats, a, f)
    {
      if a in res {
        assert FilesOf(m, a) == FilesOf(stats, a)[path := Contributed(ContributionOf(stats, a, path), res[a])];
      } else {
        assert FilesOf(m, a) == FilesOf(stats, a);
      }
    }
  }

  /** `MergeStatsEffect` at one author and one file. */
  lemma MergeStatsAt(stats: Stats, path: string, res: FileResult, a: string, f: string)
    ensures f in FilesOf(MergeStats(stats, path, res), a) <==> f in FilesOf(stats, a) || (f == path && a in res)
    ensures ContributionOf(MergeStats(stats, path, res), a, f)
         == if f == path && a in res then Contributed(ContributionOf(stats, a, f), res[a]) else ContributionOf(stats, a, f)
  {
    var m := MergeStats(stats, path, res);
    if a in res {
      assert FilesOf(m, a) == FilesOf(stats, a)[path := Contributed(ContributionOf(stats, a, path), res[a])];
    } else {
      assert FilesOf(m, a) == FilesOf(stats, a);
    }
  }

  /** A set-valued dictionary after one file's result: each author of the result gains what `pick` takes. */
  lemma MergeSetsEffect(m: map<string, set<string>>, res: FileResult, pick: FileEntry -> set<string>)
    ensures forall a ::
      && SetOf(MergeSets(m, res, pick), a) == SetOf(m, a) + (if a in res then pick(res[a]) else {})
      && (a in MergeSets(m, res, pick) <==> a in m || (a in res && pick(res[a]) != {}))
  {
    forall a
      ensures SetOf(MergeSets(m, res, pick), a) == SetOf(m, a) + (if a in res then pick(res[a]) else {})
      ensures a in MergeSets(m, res, pick) <==> a in m || (a in res && pick(res[a]) != {})
    {
      MergeSetsAt(m, res, pick, a);
    }
  }

  lemma MergeSetsAt(m: map<string, set<string>>, res: FileResult, pick: FileEntry -> set<string>, a: string)
    ensures SetOf(MergeSets(m, res, pick), a) == SetOf(m, a) + (if a in res then pick(res[a]) else {})
    ensures a in MergeSets(m, res, pick) <==> a in m || (a in res && pick(res[a]) != {})
  {
    if a in res && pick(res[a]) != {} {
      assert a in Contributing(res, pick);
    }
  }

  /** Two statistics that agree on every author's files are equal. */
  lemma StatsEqual(s1: Stats, s2: Stats)
    requires forall a :: a in s1 <==> a in s2
    requires forall a, f :: (f in FilesOf(s1, a) <==> f in FilesOf(s2, a)) && ContributionOf(s1, a, f) == ContributionOf(s2, a, f)
    ensures s1 == s2
  {
    forall a | a in s1 ensures s1[a] == s2[a] {
      assert FilesOf(s1, a) == s1[a] && FilesOf(s2, a) == s2[a];
      forall f | f in s1[a] ensures s1[a][f] == s2[a][f] {
        assert ContributionOf(s1, a, f) == ContributionOf(s2, a, f);
      }
      assert s1[a].Keys == s2[a].Keys;
    }
    assert s1.Keys == s2.Keys;
  }

  /** Two set-valued dictionaries with the same keys and sets are equal. */
  lemma SetsEqual(m1: map<string, set<string>>, m2: map<string, set<string>>)
    requires forall a :: (a in m1 <==> a in m2) && SetOf(m1, a) == SetOf(m2, a)
    ensures m1 == m2
  {
    assert m1.Keys == m2.Keys;
    forall a | a in m1 ensures m1[a] == m2[a] {
      assert SetOf(m1, a) == SetOf(m2, a);
    }
  }

  /**
   * What merging one file's result does, author by author: each author of
   * the result has a contribution to `path` that extends what was there,
   * and gains the entry's e-mail and company; every other pair of author
   * and file, and every other author's sets, stay as they were.
   */
  lemma MergeFileEffect(agg: Aggregate, path: string, res: FileResult, parseAddr: string -> string)
    ensures var m := MergeFile(agg, path, res, parseAddr);
      forall a, f ::
        && (f in FilesOf(m.stats, a) <==> f in FilesOf(agg.stats, a) || (f == path && a in res))
        && ContributionOf(m.stats, a, f)
           == if f == path && a in res then Contributed(ContributionOf(agg.stats, a, f), res[a]) else ContributionOf(agg.stats, a, f)
    ensures var m := MergeFile(agg, path, res, parseAddr);
      forall a ::
        && SetOf(m.emails, a) == SetOf(agg.emails, a) + (if a in res then EmailsFrom(res[a]) else {})
        && SetOf(m.companies, a) == SetOf(agg.companies, a) + (if a in res then CompaniesFrom(res[a], parseAddr) else {})
        && (a in m.emails <==> a in agg.emails || (a in res && EmailsFrom(res[a]) != {}))
        && (a in m.companies <==> a in agg.companies || (a in res && CompaniesFrom(res[a], parseAddr) != {}))
  {
    MergeStatsEffect(agg.stats, path, res);
    MergeSetsEffect(agg.emails, res, EmailsFrom);
    MergeSetsEffect(agg.companies, res, CompaniesPick(parseAddr));
  }

  /**
   * Two files' results merged in either order give the same state: the
   * order in which the worker pool hands back results does not matter.
   */
  lemma MergeFilesCommute(agg: Aggregate, p1: string, r1: FileResult, p2: string, r2: FileResult, parseAddr: string -> string)
    requires p1 != p2
    ensures MergeFile(MergeFile(agg, p1, r1, parseAddr), p2, r2, parseAddr)
         == MergeFile(MergeFile(agg, p2, r2, parseAddr), p1, r1, parseAddr)
  {
    MergeStatsCommute(agg.stats, p1, r1, p2, r2);
    MergeSetsCommute(agg.emails, r1, r2, EmailsFrom);
    MergeSetsCommute(agg.companies, r1, r2, CompaniesPick(parseAddr));
  }

  lemma MergeStatsCommute(stats: Stats, p1: string, r1: FileResult, p2: string, r2: FileResult)
    requires p1 != p2
    ensures MergeStats(MergeStats(stats, p1, r1), p2, r2) == MergeStats(MergeStats(stats, p2, r2), p1, r1)
  {
    var s1 := MergeStats(stats, p1, r1);
    var s2 := MergeStats(stats, p2, r2);
    var lhs := MergeStats(s1, p2, r2);
    var rhs := MergeStats(s2, p1, r1);
    forall a ensures a in lhs <==> a in rhs {
      assert a in lhs <==> a in stats || a in r1 || a in r2;
    }
    forall a, f
      ensures f in FilesOf(lhs, a) <==> f in FilesOf(rhs, a)
      ensures ContributionOf(lhs, a, f) == ContributionOf(rhs, a, f)
    {
      MergeStatsCommuteAt(stats, p1, r1, p2, r2, a, f);
    }
    StatsEqual(lhs, rhs);
  }

  lemma MergeStatsCommuteAt(stats: Stats, p1: string, r1: FileResult, p2: string, r2: FileResult, a: string, f: string)
    requires p1 != p2
    ensures var lhs := MergeStats(MergeStats(stats, p1, r1), p2, r2);
      var rhs := MergeStats(MergeStats(stats, p2, r2), p1, r1);
      && (f in FilesOf(lhs, a) <==> f in FilesOf(rhs, a))
      && ContributionOf(lhs, a, f) == ContributionOf(rhs, a, f)
  {
    var s1 := MergeStats(stats, p1, r1);
    var s2 := MergeStats(stats, p2, r2);
    MergeStatsAt(stats, p1, r1, a, f);
    MergeStatsAt(stats, p2, r2, a, f);
    MergeStatsAt(s1, p2, r2, a, f);
    MergeStatsAt(s2, p1, r1, a, f);
  }

  lemma MergeSetsCommute(m: map<string, set<string>>, r1: FileResult, r2: FileResult, pick: FileEntry -> set<string>)
    ensures MergeSets(MergeSets(m, r1, pick), r2, pick) == MergeSets(MergeSets(m, r2, pick), r1, pick)
  {
    var lhs := MergeSets(MergeSets(m, r1, pick), r2, pick);
    var rhs := MergeSets(MergeSets(m, r2, pick), r1, pick);
    forall a ensures (a in lhs <==> a in rhs) && SetOf(lhs, a) == SetOf(rhs, a) {
      MergeSetsCommuteKey(m, r1, r2, pick, a);
      MergeSetsCommuteSet(m, r1, r2, pick, a);
    }
    SetsEqual(lhs, rhs);
  }

  lemma MergeSetsCommuteSet(m: map<string, set<string>>, r1: FileResult, r2: FileResult, pick: FileEntry -> set<string>, a: string)
    ensures SetOf(MergeSets(MergeSets(m, r1, pick), r2, pick), a) == SetOf(MergeSets(MergeSets(m, r2, pick), r1, pick), a)
  {
    var m1 := MergeSets(m, r1, pick);
    var m2 := MergeSets(m, r2, pick);
    var x1 := if a in r1 then pick(r1[a]) else {};
    var x2 := if a in r2 then pick(r2[a]) else {};
    assert SetOf(MergeSets(m1, r2, pick), a) == SetOf(m, a) + x1 + x2 by {
      MergeSetsAt(m, r1, pick, a);
      MergeSetsAt(m1, r2, pick, a);
    }
    assert SetOf(MergeSets(m2, r1, pick), a) == SetOf(m, a) + x2 + x1 by {
      MergeSetsAt(m, r2, pick, a);
      MergeSetsAt(m2, r1, pick, a);
    }
    UnionSwap(SetOf(m, a), x1, x2);
  }

  lemma UnionSwap(s: set<string>, x: set<string>, y: set<string>)
    ensures s + x + y == s + y + x
  {
  }

  lemma MergeSetsCommuteKey(m: map<string, set<string>>, r1: FileResult, r2: FileResult, pick: FileEntry -> set<string>, a: string)
    ensures a in MergeSets(MergeSets(m, r1, pick), r2, pick) <==> a in MergeSets(MergeSets(m, r2, pick), r1, pick)
  {
    MergeSetsAt(m, r1, pick, a);
    MergeSetsAt(m, r2, pick, a);
    MergeSetsAt(MergeSets(m, r1, pick), r2, pick, a);
    MergeSetsAt(MergeSets(m, r2, pick), r1, pick, a);
  }

  // ---------------------------------------------------------------------------
  // All files' results, merged one after the other.

  /** The state after the results of `files` are merged in that order; `resultOf` gives each file's result. */
  function FoldFiles(agg: Aggregate, files: seq<string>, resultOf: string -> FileResult, parseAddr: string -> string): Aggregate
    decreases |files|
  {
    if files == [] then agg
    else
      var f := files[|files| - 1];
      MergeFile(FoldFiles(agg, files[..|files| - 1], resultOf, parseAddr), f, resultOf(f), parseAddr)
  }

  /** Merging one more file after the others. */
  lemma FoldSnoc(agg: Aggregate, files: seq<string>, x: string, resultOf: string -> FileResult, parseAddr: string -> string)
    ensures FoldFiles(agg, files + [x], resultOf, parseAddr)
         == MergeFile(FoldFiles(agg, files, resultOf, parseAddr), x, resultOf(x), parseAddr)
  {
    assert (files + [x])[..|files|] == files;
  }

  /**
   * A file whose result is merged later than others may be moved past them.
   * A later copy of the same path merges the same result, so it may be
   * passed as well.
   */
  lemma {:induction false} FoldMoveToEnd(
    agg: Aggregate, front: seq<string>, x: string, back: seq<string>, resultOf: string -> FileResult, parseAddr: string -> string)
    ensures FoldFiles(agg, front + [x] + back, resultOf, parseAddr) == FoldFiles(agg, front + back + [x], resultOf, parseAddr)
    decreases |back|
  {
    if back == [] {
      assert front + [x] + back == front + back + [x];
    } else {
      var y := back[|back| - 1];
      var back' := back[..|back| - 1];
      assert front + [x] + back == (front + [x] + back') + [y];
      assert front + back' + [y] == front + back;
      FoldMoveToEnd(agg, front, x, back', resultOf, parseAddr);
      var base := FoldFiles(agg, front + back', resultOf, parseAddr);
      FoldSnoc(agg, front + [x] + back', y, resultOf, parseAddr);
      FoldSnoc(agg, front + back', x, resultOf, parseAddr);
      FoldSnoc(agg, front + back', y, resultOf, parseAddr);
      FoldSnoc(agg, front + back, x, resultOf, parseAddr);
      if x != y {
        MergeFilesCommute(base, x, resultOf(x), y, resultOf(y), parseAddr);
      }
    }
  }

  /** Taking out the element at `k` of a sequence. */
  lemma RemoveAt(files: seq<string>, k: int)
    requires 0 <= k < |files|
    ensures files == files[..k] + [files[k]] + files[k + 1..]
    ensures multiset(files[..k] + files[k + 1..]) == multiset(files) - multiset{files[k]}
  {
    assert files == files[..k] + [files[k]] + files[k + 1..];
  }

  /** Moving one pending file to the finished ones keeps the two together a rearrangement of `files`. */
  lemma MoveOne(finished: seq<string>, pending: seq<string>, k: int, files: seq<string>)
    requires 0 <= k < |pending|
    requires multiset(finished) + multiset(pending) == multiset(files)
    ensures multiset(finished + [pending[k]]) + multiset(pending[..k] + pending[k + 1..]) == multiset(files)
  {
    RemoveAt(pending, k);
  }

  /**
   * Any order of the same files gives the same state: the result does not
   * depend on which worker finishes first.
   */
  lemma {:induction false} FoldPermutation(
    agg: Aggregate, files1: seq<string>, files2: seq<string>, resultOf: string -> FileResult, parseAddr: string -> string)
    requires multiset(files1) == multiset(files2)
    ensures FoldFiles(agg, files1, resultOf, parseAddr) == FoldFiles(agg, files2, resultOf, parseAddr)
    decreases |files1|
  {
    if files1 == [] {
      assert |files2| == |multiset(files2)| == 0;
    } else {
      var n := |files1| - 1;
      var x := files1[n];
      assert x in multiset(files2);
      var k :| 0 <= k < |files2| && files2[k] == x;
      RemoveAt(files1, n);
      RemoveAt(files2, k);
      var rest1 := files1[..n];
      assert files1[..n] + files1[n + 1..] == rest1;
      var rest2 := files2[..k] + files2[k + 1..];
      FoldMoveToEnd(agg, files2[..k], x, files2[k + 1..], resultOf, parseAddr);
      assert (rest2 + [x])[..|rest2|] == rest2;
      FoldPermutation(agg, rest1, rest2, resultOf, parseAddr);
    }
  }

  lemma {:induction false} FoldStatsAt(
    agg: Aggregate, files: seq<string>, resultOf: string -> FileResult, parseAddr: string -> string, a: string, f: string)
    ensures var m := FoldFiles(agg, files, resultOf, parseAddr);
      f in FilesOf(m.stats, a) <==> f in FilesOf(agg.stats, a) || (f in files && a in resultOf(f))
    ensures Distinct(files) ==> var m := FoldFiles(agg, files, resultOf, parseAddr);
      ContributionOf(m.stats, a, f)
      == if f in files && a in resultOf(f) then Contributed(ContributionOf(agg.stats, a, f), resultOf(f)[a])
         else ContributionOf(agg.stats, a, f)
    decreases |files|
  {
    if files != [] {
      var n := |files| - 1;
      var init := files[..n];
      var last := files[n];
      FoldStatsAt(agg, init, resultOf, parseAddr, a, f);
      var before := FoldFiles(agg, init, resultOf, parseAddr);
      assert FoldFiles(agg, files, resultOf, parseAddr).stats == MergeStats(before.stats, last, resultOf(last));
      MergeStatsAt(before.stats, last, resultOf(last), a, f);
      assert f in files <==> f in init || f == last;
      if Distinct(files) {
        DistinctInit(files);
      }
    }
  }

  /** One set-valued dictionary of the fold on its own. */
  function FoldSets(m: map<string, set<string>>, files: seq<string>, resultOf: string -> FileResult, pick: FileEntry -> set<string>)
    : map<string, set<string>>
    decreases |files|
  {
    if files == [] then m
    else
      var f := files[|files| - 1];
      MergeSets(FoldSets(m, files[..|files| - 1], resultOf, pick), resultOf(f), pick)
  }

  lemma {:induction false} FoldFilesSets(agg: Aggregate, files: seq<string>, resultOf: string -> FileResult, parseAddr: string -> string)
    ensures FoldFiles(agg, files, resultOf, parseAddr).emails == FoldSets(agg.emails, files, resultOf, EmailsFrom)
    ensures FoldFiles(agg, files, resultOf, parseAddr).companies == FoldSets(agg.companies, files, resultOf, CompaniesPick(parseAddr))
    decreases |files|
  {
    if files != [] {
      FoldFilesSets(agg, files[..|files| - 1], resultOf, parseAddr);
    }
  }

  /** Some result among those of `files` gives `a` the value `e` through `pick`. */
  predicate GivenBy(files: seq<string>, resultOf: string -> FileResult, pick: FileEntry -> set<string>, a: string, e: string) {
    exists i :: 0 <= i < |files| && a in resultOf(files[i]) && e in pick(resultOf(files[i])[a])
  }

  /** Some result among those of `files` gives `a` a non-empty set through `pick`. */
  predicate GivesSome(files: seq<string>, resultOf: string -> FileResult, pick: FileEntry -> set<string>, a: string) {
    exists i :: 0 <= i < |files| && a in resultOf(files[i]) && pick(resultOf(files[i])[a]) != {}
  }

  lemma GivenBySnoc(files: seq<string>, resultOf: string -> FileResult, pick: FileEntry -> set<string>, a: string, e: string)
    requires files != []
    ensures var n := |files| - 1; var r := resultOf(files[n]);
      GivenBy(files, resultOf, pick, a, e) <==> GivenBy(files[..n], resultOf, pick, a, e) || (a in r && e in pick(r[a]))
    ensures var n := |files| - 1; var r := resultOf(files[n]);
      GivesSome(files, resultOf, pick, a) <==> GivesSome(files[..n], resultOf, pick, a) || (a in r && pick(r[a]) != {})
  {
    var n := |files| - 1;
    var init := files[..n];
    assert forall i :: 0 <= i < n ==> init[i] == files[i];
  }

  /**
   * After the fold, a set-valued dictionary holds for `a` what it held
   * plus everything the results of `files` give `a`, and has a key for `a`
   * exactly when it had one or some result gives `a` something.
   */
  lemma {:induction false} FoldSetAt(
    m: map<string, set<string>>, files: seq<string>, resultOf: string -> FileResult, pick: FileEntry -> set<string>, a: string, e: string)
    ensures e in SetOf(FoldSets(m, files, resultOf, pick), a) <==> e in SetOf(m, a) || GivenBy(files, resultOf, pick, a, e)
    ensures a in FoldSets(m, files, resultOf, pick) <==> a in m || GivesSome(files, resultOf, pick, a)
    decreases |files|
  {
    if files != [] {
      var n := |files| - 1;
      FoldSetAt(m, files[..n], resultOf, pick, a, e);
      MergeSetsAt(FoldSets(m, files[..n], resultOf, pick), resultOf(files[n]), pick, a);
      GivenBySnoc(files, resultOf, pick, a, e);
    }
  }
}
