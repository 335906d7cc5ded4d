/**
 * The orderings the reports use: Python's `sorted()` on strings (code point
 * order) and a descending sort by an integer key.
 */
module Ordering {

  /** Python's `a < b` on `str`: lexicographic comparison of code points. */
  predicate Less(a: string, b: string)
    decreases |a|
  {
    if a == [] then b != []
    else if b == [] then false
    else if a[0] != b[0] then a[0] < b[0]
    else Less(a[1..], b[1..])
  }

  lemma {:induction false} LessIrreflexive(a: string)
    ensures !Less(a, a)
    decreases |a|
  {
    if a != [] {
      LessIrreflexive(a[1..]);
    }
  }

  lemma {:induction false} LessTransitive(a: string, b: string, c: string)
    requires Less(a, b) && Less(b, c)
    ensures Less(a, c)
    decreases |a|
  {
    if a != [] && b != [] && c != [] && a[0] == b[0] && b[0] == c[0] {
      LessTransitive(a[1..], b[1..], c[1..]);
    }
  }

  lemma {:induction false} LessTotal(a: string, b: string)
    ensures a == b || Less(a, b) || Less(b, a)
    decreases |a|
  {
    if a != [] && b != [] && a[0] == b[0] {
      LessTotal(a[1..], b[1..]);
      if a[1..] == b[1..] {
        assert a == [a[0]] + a[1..] && b == [b[0]] + b[1..];
      }
    }
  }

  /** Every element is smaller than every later one. */
  predicate StrictlyAscending(s: seq<string>) {
    forall i, j :: 0 <= i < j < |s| ==> Less(s[i], s[j])
  }

  /** `m` is the smallest element of `xs`. */
  predicate IsMin(m: string, xs: set<string>) {
    m in xs && forall x :: x in xs ==> m == x || Less(m, x)
  }

  lemma {:induction false} MinExists(xs: set<string>)
    requires xs != {}
    ensures exists m :: IsMin(m, xs)
    decreases |xs|
  {
    var y :| y in xs;
    if xs - {y} == {} {
      assert xs == {y};
      assert IsMin(y, xs);
    } else {
      MinExists(xs - {y});
      var m :| IsMin(m, xs - {y});
      LessTotal(m, y);
      if Less(y, m) {
        forall x | x in xs
          ensures y == x || Less(y, x)
        {
          if x != y && x != m {
            LessTransitive(y, m, x);
          }
        }
        assert IsMin(y, xs);
      } else {
        assert IsMin(m, xs);
      }
    }
  }

  ghost function Min(xs: set<string>): (m: string)
    requires xs != {}
    ensures IsMin(m, xs)
  {
    MinExists(xs);
    var m :| IsMin(m, xs); m
  }

  /** Python's `sorted(xs)` for a set of strings. */
  ghost function Sorted(xs: set<string>): (r: seq<string>)
    ensures StrictlyAscending(r) && |r| == |xs|
    ensures forall x :: x in r <==> x in xs
    decreases |xs|
  {
    if xs == {} then []
    else
      var m := Min(xs);
      var rest := Sorted(xs - {m});
      assert forall j :: 0 <= j < |rest| ==> rest[j] in rest && Less(m, rest[j]);
      [m] + rest
  }

  /** Two strictly ascending sequences with the same elements are equal. */
  lemma {:induction false} AscendingUnique(r1: seq<string>, r2: seq<string>)
    requires StrictlyAscending(r1) && StrictlyAscending(r2)
    requires forall x :: x in r1 <==> x in r2
    ensures r1 == r2
    decreases |r1|
  {
    if r2 != [] {
      assert r2[0] in r2;
    }
    if r1 != [] {
      assert r1[0] in r2;
      assert r2 != [];
      assert r2[0] in r2;
      if r1[0] != r2[0] {
        var i :| 0 <= i < |r1| && r1[i] == r2[0];
        var j :| 0 <= j < |r2| && r2[j] == r1[0];
        assert Less(r1[0], r2[0]);
        assert Less(r2[0], r1[0]);
        LessTransitive(r1[0], r2[0], r1[0]);
        LessIrreflexive(r1[0]);
        assert false;
      }
      forall x
        ensures x in r1[1..] <==> x in r2[1..]
      {
        if x in r1[1..] {
          var i :| 0 <= i < |r1| - 1 && r1[1..][i] == x;
          assert Less(r1[0], r1[i + 1]);
          LessIrreflexive(x);
          assert x in r2;
          var k :| 0 <= k < |r2| && r2[k] == x;
          assert k != 0;
          assert r2[1..][k - 1] == x;
        }
        if x in r2[1..] {
          var j :| 0 <= j < |r2| - 1 && r2[1..][j] == x;
          assert Less(r2[0], r2[j + 1]);
          LessIrreflexive(x);
          assert x in r1;
          var k :| 0 <= k < |r1| && r1[k] == x;
          assert k != 0;
          assert r1[1..][k - 1] == x;
        }
      }
      AscendingUnique(r1[1..], r2[1..]);
      assert r1 == [r1[0]] + r1[1..] && r2 == [r2[0]] + r2[1..];
    }
  }

  /** The smallest element of a non-empty set, found by one pass over it. */
  method MinOf(xs: set<string>) returns (m: string)
    requires xs != {}
    ensures IsMin(m, xs)
  {
    m :| m in xs;
    var rest := xs - {m};
    while rest != {}
      invariant rest <= xs && m in xs
      invariant forall x :: x in xs && x !in rest ==> m == x || Less(m, x)
      decreases |rest|
    {
      var y :| y in rest;
      LessTotal(m, y);
      if Less(y, m) {
        forall x | x in xs && x !in rest && x != y
          ensures Less(y, x)
        {
          if x != m {
            LessTransitive(y, m, x);
          }
        }
        m := y;
      }
      rest := rest - {y};
    }
  }

  /** `sorted(xs)`: repeatedly takes the smallest element left. */
  method SortStrings(xs: set<string>) returns (r: seq<string>)
    ensures r == Sorted(xs)
  {
    r := [];
    var rest := xs;
    while rest != {}
      invariant rest <= xs
      invariant StrictlyAscending(r)
      invariant forall x :: x in r <==> x in xs && x !in rest
      invariant forall i, y :: 0 <= i < |r| && y in rest ==> Less(r[i], y)
      decreases |rest|
    {
      var m := MinOf(rest);
      forall i, y | 0 <= i < |r| && y in rest - {m}
        ensures Less(r[i], y)
      {
        LessTransitive(r[i], m, y);
      }
      r := r + [m];
      rest := rest - {m};
    }
    AscendingUnique(r, Sorted(xs));
  }

  /** No element occurs twice. */
  predicate Distinct<K(==)>(s: seq<K>) {
    forall i, j :: 0 <= i < j < |s| ==> s[i] != s[j]
  }

  /** The keys listed in `order` have non-increasing weights. */
  predicate NonIncreasing<K>(order: seq<K>, weight: map<K, int>)
    requires forall i :: 0 <= i < |order| ==> order[i] in weight
  {
    forall i, j :: 0 <= i < j < |order| ==> weight[order[i]] >= weight[order[j]]
  }

  /** Without its last element a list of distinct elements stays distinct, and no longer holds that element. */
  lemma DistinctInit<K>(s: seq<K>)
    requires Distinct(s) && s != []
    ensures Distinct(s[..|s| - 1]) && s[|s| - 1] !in s[..|s| - 1]
  {
    var init := s[..|s| - 1];
    forall i | 0 <= i < |init| ensures init[i] != s[|s| - 1] {
      assert init[i] == s[i];
    }
  }

  /** A key no heavier than, and different from, every key listed may follow them. */
  lemma AppendLightest<K>(order: seq<K>, weight: map<K, int>, x: K)
    requires forall i :: 0 <= i < |order| ==> order[i] in weight
    requires x in weight
    requires Distinct(order) && NonIncreasing(order, weight)
    requires forall i :: 0 <= i < |order| ==> weight[order[i]] >= weight[x] && order[i] != x
    ensures forall i :: 0 <= i < |order + [x]| ==> (order + [x])[i] in weight
    ensures Distinct(order + [x]) && NonIncreasing(order + [x], weight)
  {
    var s := order + [x];
    assert forall i :: 0 <= i < |order| ==> s[i] == order[i];
  }

  /**
   * Python's `sorted(keys, key=weight, reverse=True)`: every key once, the
   * heaviest first. The order among keys of equal weight is left open.
   */
  method RankDescending<K(==)>(weight: map<K, int>) returns (order: seq<K>)
    ensures Distinct(order)
    ensures forall k :: k in order <==> k in weight
    ensures NonIncreasing(order, weight)
  {
    order := [];
    var rest := weight.Keys;
    while rest != {}
      invariant rest <= weight.Keys
      invariant Distinct(order)
      invariant forall k :: k in order <==> k in weight && k !in rest
      invariant NonIncreasing(order, weight)
      invariant forall i, k :: 0 <= i < |order| && k in rest ==> weight[order[i]] >= weight[k]
      decreases |rest|
    {
      var top :| top in rest;
      var scan := rest - {top};
      while scan != {}
        invariant scan <= rest && top in rest
        invariant forall k :: k in rest && k !in scan ==> weight[top] >= weight[k]
        decreases |scan|
      {
        var k :| k in scan;
        if weight[k] > weight[top] {
          top := k;
        }
        scan := scan - {k};
      }
      AppendLightest(order, weight, top);
      order := order + [top];
      rest := rest - {top};
    }
  }
}
