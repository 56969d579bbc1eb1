/**
 * Column-level building blocks shared by every part of the engine: boolean
 * masks and their counts (`len(df[mask])`), selection of rows by a mask
 * (`df[mask]`), `Series.unique()` in first-seen order, dropping missing
 * values, `sorted` on integers, and the partition fact that splitting a
 * table by the distinct values of a column accounts for every non-null row.
 */
module Columns {
  import opened Wrappers

  /** No value occurs twice. */
  predicate Distinct<T(==)>(s: seq<T>) {
    forall i, j :: 0 <= i < j < |s| ==> s[i] != s[j]
  }

  /** `f` applied to every element, in order. */
  function Map<A, B>(f: A -> B, s: seq<A>): (r: seq<B>)
    ensures |r| == |s|
    ensures forall i :: 0 <= i < |s| ==> r[i] == f(s[i])
  {
    seq(|s|, i requires 0 <= i < |s| => f(s[i]))
  }

  lemma MapSnoc<A, B>(f: A -> B, s: seq<A>, x: A)
    ensures Map(f, s + [x]) == Map(f, s) + [f(x)]
  {
    var a := Map(f, s + [x]);
    forall i | 0 <= i < |s|
      ensures a[i] == Map(f, s)[i]
    {
      assert (s + [x])[i] == s[i];
    }
  }

  lemma MapCons<A, B>(f: A -> B, x: A, s: seq<A>)
    ensures Map(f, [x] + s) == [f(x)] + Map(f, s)
  {
    var a := Map(f, [x] + s);
    forall i | 1 <= i < |a|
      ensures a[i] == Map(f, s)[i - 1]
    {
      assert ([x] + s)[i] == s[i - 1];
    }
  }

  /** The blocks `f(x)` of the elements `x` of `xs`, concatenated in order. */
  function Blocks<A, B>(f: A -> seq<B>, xs: seq<A>): seq<B> {
    if |xs| == 0 then [] else Blocks(f, xs[..|xs| - 1]) + f(xs[|xs| - 1])
  }

  /** Number of `true` entries of a mask: `len(df[mask])`. */
  function CountTrue(mask: seq<bool>): (n: nat)
    ensures n <= |mask|
  {
    if |mask| == 0 then 0
    else
      var k := CountTrue(mask[..|mask| - 1]);
      if mask[|mask| - 1] then k + 1 else k
  }

  /** A mask counts nothing exactly when it selects nothing. */
  lemma {:induction false} CountTrueZero(mask: seq<bool>)
    ensures CountTrue(mask) == 0 <==> forall i :: 0 <= i < |mask| ==> !mask[i]
  {
    if |mask| > 0 {
      var n := |mask| - 1;
      CountTrueZero(mask[..n]);
      assert forall i :: 0 <= i < n ==> mask[..n][i] == mask[i];
    }
  }

  /** The rows where `mask` is true, in their original order: `df[mask]`. */
  function Select<R>(rows: seq<R>, mask: seq<bool>): (r: seq<R>)
    requires |mask| == |rows|
    ensures |r| == CountTrue(mask)
    ensures multiset(r) <= multiset(rows)
  {
    if |rows| == 0 then []
    else
      var n := |rows| - 1;
      var prefix := Select(rows[..n], mask[..n]);
      assert rows == rows[..n] + [rows[n]];
      if mask[n] then prefix + [rows[n]] else prefix
  }

  /** Mask `col == v`; a missing entry never equals a value. */
  function EqMask<K(==)>(col: seq<Option<K>>, v: K): (mask: seq<bool>)
    ensures |mask| == |col|
    ensures forall i :: 0 <= i < |col| ==> (mask[i] <==> col[i] == Some(v))
  {
    seq(|col|, i requires 0 <= i < |col| => col[i] == Some(v))
  }

  /** Mask `col.notna()`. */
  function NotNa<K>(col: seq<Option<K>>): (mask: seq<bool>)
    ensures |mask| == |col|
    ensures forall i :: 0 <= i < |col| ==> (mask[i] <==> col[i].Some?)
  {
    seq(|col|, i requires 0 <= i < |col| => col[i].Some?)
  }

  /** `df[df[col] == v]` where `col` is a column of `rows`. */
  function Where<R, K(==)>(rows: seq<R>, col: seq<Option<K>>, v: K): (r: seq<R>)
    requires |col| == |rows|
    ensures |r| == CountTrue(EqMask(col, v))
  {
    Select(rows, EqMask(col, v))
  }

  /** A row is selected exactly when it stands at a position the mask keeps. */
  lemma {:induction false} SelectMembers<R>(rows: seq<R>, mask: seq<bool>)
    requires |mask| == |rows|
    ensures forall x :: x in Select(rows, mask) <==>
      exists i :: 0 <= i < |rows| && mask[i] && rows[i] == x
  {
    if |rows| > 0 {
      var n := |rows| - 1;
      SelectMembers(rows[..n], mask[..n]);
      assert forall i :: 0 <= i < n ==> rows[..n][i] == rows[i] && mask[..n][i] == mask[i];
    }
  }

  /** `df[df[col] == v]` holds exactly the rows whose entry in `col` is `v`. */
  lemma WhereMembers<R, K>(rows: seq<R>, col: seq<Option<K>>, v: K)
    requires |col| == |rows|
    ensures forall x :: x in Where(rows, col, v) <==>
      exists i :: 0 <= i < |rows| && col[i] == Some(v) && rows[i] == x
  {
    SelectMembers(rows, EqMask(col, v));
  }

  /** `Series.unique()`: every value once, in order of first appearance. */
  function Unique<T(==,!new)>(s: seq<T>): (u: seq<T>)
    ensures Distinct(u)
    ensures forall x :: x in u <==> x in s
  {
    if |s| == 0 then []
    else
      var n := |s| - 1;
      var u := Unique(s[..n]);
      assert s == s[..n] + [s[n]];
      if s[n] in u then u else u + [s[n]]
  }

  /** The position of the first occurrence of `x` in `s`; `|s|` when there is none. */
  function FirstIndex<T(==)>(s: seq<T>, x: T): (k: nat)
    ensures k <= |s| && x !in s[..k]
    ensures k < |s| <==> x in s
    ensures k < |s| ==> s[k] == x
  {
    if |s| == 0 then 0
    else
      var n := |s| - 1;
      assert s == s[..n] + [s[n]];
      if x in s[..n] then
        var k := FirstIndex(s[..n], x);
        assert s[..k] == s[..n][..k];
        k
      else if s[n] == x then n
      else |s|
  }

  /** `unique()` lists the values in the order of their first appearance. */
  lemma {:induction false} UniqueFirstSeen<T(!new)>(s: seq<T>)
    ensures forall i, j :: 0 <= i < j < |Unique(s)| ==>
      FirstIndex(s, Unique(s)[i]) < FirstIndex(s, Unique(s)[j])
  {
    if |s| > 0 {
      var n := |s| - 1;
      var p := s[..n];
      UniqueFirstSeen(p);
      assert s == p + [s[n]];
      forall x | x in p
        ensures FirstIndex(s, x) == FirstIndex(p, x)
      {
      }
      if s[n] !in Unique(p) {
        assert FirstIndex(s, s[n]) == n;
      }
    }
  }

  /**
   * `unique()` followed by skipping the missing value lists the present
   * values in the order of their first appearance in the column.
   */
  lemma SomesFirstSeen<T(!new)>(col: seq<Option<T>>)
    ensures forall i, j :: 0 <= i < j < |Somes(Unique(col))| ==>
      FirstIndex(col, Some(Somes(Unique(col))[i])) < FirstIndex(col, Some(Somes(Unique(col))[j]))
  {
    UniqueFirstSeen(col);
    SomesOrdered(Unique(col), x => FirstIndex(col, x));
  }

  /** Skipping missing entries keeps the order of the present ones under any strictly increasing ranking. */
  lemma {:induction false} SomesOrdered<T(!new)>(u: seq<Option<T>>, rank: Option<T> -> int)
    requires forall a, b :: 0 <= a < b < |u| ==> rank(u[a]) < rank(u[b])
    ensures forall i, j :: 0 <= i < j < |Somes(u)| ==> rank(Some(Somes(u)[i])) < rank(Some(Somes(u)[j]))
  {
    if |u| > 0 {
      var n := |u| - 1;
      var p := u[..n];
      SomesOrdered(p, rank);
      SomesSnoc(p, u[n]);
      assert u == p + [u[n]];
      if u[n].Some? {
        var r := Somes(u);
        var q := Somes(p);
        forall a | 0 <= a < |p|
          ensures rank(p[a]) < rank(u[n])
        {
          assert u[a] == p[a];
        }
        forall i, j | 0 <= i < j < |r|
          ensures rank(Some(r[i])) < rank(Some(r[j]))
        {
          assert r[i] == q[i];
          if j < |q| {
            assert r[j] == q[j];
          } else {
            assert Some(r[j]) == u[n];
            RankedBefore(p, rank, q[i], rank(u[n]));
          }
        }
      }
    }
  }

  /** A present value of `p` ranks below any bound that every entry of `p` ranks below. */
  lemma RankedBefore<T(!new)>(p: seq<Option<T>>, rank: Option<T> -> int, x: T, bound: int)
    requires x in Somes(p)
    requires forall a :: 0 <= a < |p| ==> rank(p[a]) < bound
    ensures rank(Some(x)) < bound
  {
    var a :| 0 <= a < |p| && p[a] == Some(x);
  }

  /** The present values of a column, in order; missing entries are skipped. */
  function Somes<T(==,!new)>(s: seq<Option<T>>): (r: seq<T>)
    ensures forall x :: x in r <==> Some(x) in s
    ensures Distinct(s) ==> Distinct(r)
  {
    if |s| == 0 then []
    else
      var n := |s| - 1;
      var r := Somes(s[..n]);
      assert s == s[..n] + [s[n]];
      if s[n].Some? then r + [s[n].value] else r
  }

  /** Non-decreasing order. */
  predicate Ascending(s: seq<int>) {
    forall i, j :: 0 <= i < j < |s| ==> s[i] <= s[j]
  }

  /** Strictly increasing order. */
  predicate StrictlyAscending(s: seq<int>) {
    forall i, j :: 0 <= i < j < |s| ==> s[i] < s[j]
  }

  function Insert(x: int, s: seq<int>): (r: seq<int>)
    requires Ascending(s)
    ensures Ascending(r)
    ensures multiset(r) == multiset(s) + multiset{x}
  {
    if |s| == 0 || x <= s[0] then
      AscendingCons(x, s);
      [x] + s
    else
      assert Ascending(s[1..]);
      var rest := Insert(x, s[1..]);
      assert s == [s[0]] + s[1..];
      LowerBound(s[0], rest, s[1..], x);
      AscendingCons(s[0], rest);
      [s[0]] + rest
  }

  /** An ascending list stays ascending with a lower bound of its entries in front. */
  lemma AscendingCons(b: int, s: seq<int>)
    requires Ascending(s)
    requires forall i :: 0 <= i < |s| ==> b <= s[i]
    ensures Ascending([b] + s)
  {
  }

  /** Helper for Insert: a lower bound of `s` and `x` bounds any permutation of them. */
  lemma LowerBound(b: int, r: seq<int>, s: seq<int>, x: int)
    requires multiset(r) == multiset(s) + multiset{x}
    requires b <= x && forall y :: y in s ==> b <= y
    ensures forall i :: 0 <= i < |r| ==> b <= r[i]
  {
    forall i | 0 <= i < |r|
      ensures b <= r[i]
    {
      assert r[i] in multiset(r);
      assert r[i] in multiset(s) || r[i] == x;
      if r[i] != x {
        assert r[i] in s;
      }
    }
  }

  /** Python's `sorted` on integers: an ascending permutation of the input. */
  function Sort(xs: seq<int>): (r: seq<int>)
    ensures Ascending(r)
    ensures multiset(r) == multiset(xs)
  {
    if |xs| == 0 then []
    else
      assert xs == [xs[0]] + xs[1..];
      Insert(xs[0], Sort(xs[1..]))
  }

  /** The positions a mask selects. */
  ghost function TrueIndices(mask: seq<bool>): set<nat> {
    set i: nat | i < |mask| && mask[i]
  }

  /** Counting a mask counts the distinct positions it selects. */
  lemma {:induction false} CountTrueIsCardinality(mask: seq<bool>)
    ensures CountTrue(mask) == |TrueIndices(mask)|
  {
    if |mask| > 0 {
      var n := |mask| - 1;
      CountTrueIsCardinality(mask[..n]);
      assert TrueIndices(mask) == TrueIndices(mask[..n]) + (if mask[n] then {n} else {});
    }
  }

  /** A mask that is true wherever another one is counts at least as much. */
  lemma {:induction false} CountTrueMonotone(a: seq<bool>, b: seq<bool>)
    requires |a| == |b|
    requires forall i :: 0 <= i < |a| ==> a[i] ==> b[i]
    ensures CountTrue(a) <= CountTrue(b)
  {
    if |a| > 0 {
      var n := |a| - 1;
      CountTrueMonotone(a[..n], b[..n]);
    }
  }

  /** Deriving a column and then selecting rows is selecting rows and then deriving the column. */
  lemma {:induction false} MapSelect<A, B>(f: A -> B, rows: seq<A>, mask: seq<bool>)
    requires |mask| == |rows|
    ensures Map(f, Select(rows, mask)) == Select(Map(f, rows), mask)
  {
    if |rows| > 0 {
      var n := |rows| - 1;
      MapSelect(f, rows[..n], mask[..n]);
      assert Map(f, rows)[..n] == Map(f, rows[..n]);
      if mask[n] {
        MapSnoc(f, Select(rows[..n], mask[..n]), rows[n]);
      }
    }
  }

  /** Selecting with an all-true mask keeps the whole table. */
  lemma {:induction false} SelectAll<R>(rows: seq<R>, mask: seq<bool>)
    requires |mask| == |rows|
    requires forall i :: 0 <= i < |mask| ==> mask[i]
    ensures Select(rows, mask) == rows
  {
    if |rows| > 0 {
      var n := |rows| - 1;
      var prefix := rows[..n];
      assert rows == prefix + [rows[n]];
      var m := mask[..n];
      assert forall i :: 0 <= i < |m| ==> m[i];
      SelectAll(prefix, m);
    }
  }

  /** Total number of rows over the groups `col == v`, `v` ranging over `vals`. */
  function SumCounts<K(==)>(col: seq<Option<K>>, vals: seq<K>): nat {
    if |vals| == 0 then 0
    else SumCounts(col, vals[..|vals| - 1]) + CountTrue(EqMask(col, vals[|vals| - 1]))
  }

  /** One more row adds one to exactly the group of its (present) value. */
  lemma {:induction false} SumCountsSnoc<K>(col: seq<Option<K>>, c: Option<K>, vals: seq<K>)
    requires Distinct(vals)
    ensures SumCounts(col + [c], vals)
         == SumCounts(col, vals) + (if c.Some? && c.value in vals then 1 else 0)
  {
    if |vals| > 0 {
      var n := |vals| - 1;
      var w := vals[..n];
      assert vals == w + [vals[n]];
      SumCountsSnoc(col, c, w);
      var v := vals[n];
      assert EqMask(col + [c], v) == EqMask(col, v) + [c == Some(v)];
      assert EqMask(col + [c], v)[..|col|] == EqMask(col, v);
      assert c.Some? && c.value in vals ==> (c.value in w <==> c.value != v);
    }
  }

  /**
   * Partition: when `vals` lists every present value of `col` exactly once,
   * the groups `col == v` together hold exactly the rows whose value is present.
   */
  lemma {:induction false} Partition<K>(col: seq<Option<K>>, vals: seq<K>)
    requires Distinct(vals)
    requires forall x :: Some(x) in col ==> x in vals
    ensures SumCounts(col, vals) == CountTrue(NotNa(col))
  {
    if |col| == 0 {
      EmptyCounts(col, vals);
    } else {
      var n := |col| - 1;
      var prefix := col[..n];
      assert col == prefix + [col[n]];
      PrefixValues(col, vals);
      Partition(prefix, vals);
      SumCountsSnoc(prefix, col[n], vals);
      NotNaSnoc(col);
      assert col[n].Some? ==> col[n].value in vals;
    }
  }

  lemma PrefixValues<K>(col: seq<Option<K>>, vals: seq<K>)
    requires |col| > 0
    requires forall x :: Some(x) in col ==> x in vals
    ensures forall x :: Some(x) in col[..|col| - 1] ==> x in vals
  {
    forall x | Some(x) in col[..|col| - 1]
      ensures x in vals
    {
      var i :| 0 <= i < |col| - 1 && col[..|col| - 1][i] == Some(x);
      assert col[i] == Some(x);
    }
  }

  lemma NotNaSnoc<K>(col: seq<Option<K>>)
    requires |col| > 0
    ensures CountTrue(NotNa(col)) == CountTrue(NotNa(col[..|col| - 1])) + (if col[|col| - 1].Some? then 1 else 0)
  {
    assert NotNa(col)[..|col| - 1] == NotNa(col[..|col| - 1]);
  }

  lemma {:induction false} EmptyCounts<K>(col: seq<Option<K>>, vals: seq<K>)
    requires |col| == 0
    ensures SumCounts(col, vals) == 0
  {
    if |vals| > 0 {
      EmptyCounts(col, vals[..|vals| - 1]);
    }
  }

  /** Distinctness seen through multiplicities. */
  lemma {:induction false} DistinctIffSingles<T>(s: seq<T>)
    ensures Distinct(s) <==> forall x :: multiset(s)[x] <= 1
  {
    if |s| > 0 {
      var n := |s| - 1;
      var p := s[..n];
      assert s == p + [s[n]];
      DistinctIffSingles(p);
      if Distinct(s) {
        assert s[n] !in p;
      } else {
        var i, j :| 0 <= i < j < |s| && s[i] == s[j];
        if j < n {
          assert p[i] == p[j];
          assert !Distinct(p);
          var x :| multiset(p)[x] > 1;
          assert multiset(s)[x] >= multiset(p)[x];
        } else {
          assert s[i] in p;
          assert multiset(s)[s[n]] == multiset(p)[s[n]] + 1;
        }
      }
    }
  }

  /** Sorting values that are pairwise different gives a strictly increasing sequence. */
  lemma SortDistinct(xs: seq<int>)
    requires Distinct(xs)
    ensures Distinct(Sort(xs)) && StrictlyAscending(Sort(xs))
  {
    var r := Sort(xs);
    DistinctIffSingles(xs);
    DistinctIffSingles(r);
  }

  /** A column holding one value throughout has that value as its only unique value. */
  lemma {:induction false} UniqueOfConstant<T(!new)>(s: seq<T>, c: T)
    requires |s| > 0
    requires forall i :: 0 <= i < |s| ==> s[i] == c
    ensures Unique(s) == [c]
  {
    var n := |s| - 1;
    if n > 0 {
      UniqueOfConstant(s[..n], c);
    }
  }

  /** One more entry adds its value, if present, at the end. */
  lemma SomesSnoc<T(!new)>(s: seq<Option<T>>, x: Option<T>)
    ensures Somes(s + [x]) == Somes(s) + (if x.Some? then [x.value] else [])
  {
    assert (s + [x])[..|s|] == s;
  }

  /** A value that occurs in a column has a non-empty group. */
  lemma PresentValueCounted<K>(col: seq<Option<K>>, v: K)
    requires Some(v) in col
    ensures CountTrue(EqMask(col, v)) > 0
  {
    var i :| 0 <= i < |col| && col[i] == Some(v);
    CountTrueZero(EqMask(col, v));
  }
}
