/** Sequence helpers shared by the data-loading and the statistics models.
    A pandas missing value (NaN) is `None`; a data frame column is a sequence. */
module Common {

  datatype Option<+T> = None | Some(value: T) {
    /** pandas `fillna(default)` on one cell. */
    function GetOr(default: T): T {
      if Some? then value else default
    }
  }

  /** A column with its declared kind: categorical labels or numbers. */
  datatype Column = Categorical(labels: seq<Option<string>>) | Numeric(values: seq<Option<real>>) {
    function Length(): nat {
      if Categorical? then |labels| else |values|
    }
  }

  datatype NamedColumn = NamedColumn(name: string, column: Column)

  function Abs(x: real): (r: real)
    ensures r >= 0.0 && (r == x || r == -x)
  {
    if x < 0.0 then -x else x
  }

  function Max(x: real, y: real): real { if x < y then y else x }

  function Min(x: real, y: real): real { if x < y then x else y }

  function MinInt(x: int, y: int): int { if x < y then x else y }

  function Sum(xs: seq<real>): real {
    if xs == [] then 0.0 else xs[0] + Sum(xs[1..])
  }

  /** pandas `mean()`: the mean of the values, undefined (NaN) for no values. */
  function Mean(xs: seq<real>): (m: Option<real>)
    ensures m.Some? <==> |xs| > 0
  {
    if |xs| == 0 then None else Some(Sum(xs) / |xs| as real)
  }

  lemma {:induction false} SumNonNegative(xs: seq<real>)
    requires forall i :: 0 <= i < |xs| ==> xs[i] >= 0.0
    ensures Sum(xs) >= 0.0
  {
    if xs != [] {
      SumNonNegative(xs[1..]);
    }
  }

  function IntsToReals(xs: seq<int>): (r: seq<real>)
    ensures |r| == |xs| && forall i :: 0 <= i < |xs| ==> r[i] == xs[i] as real
  {
    if xs == [] then [] else [xs[0] as real] + IntsToReals(xs[1..])
  }

  /** pandas `dropna()`: the present values, in order. */
  function Present<T(==,!new)>(xs: seq<Option<T>>): (r: seq<T>)
    ensures |r| <= |xs|
    ensures forall x :: x in r <==> Some(x) in xs
  {
    if xs == [] then []
    else if xs[0].Some? then [xs[0].value] + Present(xs[1..])
    else Present(xs[1..])
  }

  function Lift<T>(xs: seq<T>): (r: seq<Option<T>>)
    ensures |r| == |xs| && forall i :: 0 <= i < |xs| ==> r[i] == Some(xs[i])
  {
    if xs == [] then [] else [Some(xs[0])] + Lift(xs[1..])
  }

  /** pandas `fillna(v)` on a column. */
  function FillNa<T>(xs: seq<Option<T>>, v: T): (r: seq<T>)
    ensures |r| == |xs| && forall i :: 0 <= i < |xs| ==> r[i] == xs[i].GetOr(v)
  {
    if xs == [] then [] else [xs[0].GetOr(v)] + FillNa(xs[1..], v)
  }

  /** Two columns of one frame, row by row. */
  function Zip<A, B>(xs: seq<A>, ys: seq<B>): (r: seq<(A, B)>)
    requires |xs| == |ys|
    ensures |r| == |xs| && forall i :: 0 <= i < |xs| ==> r[i] == (xs[i], ys[i])
  {
    if xs == [] then [] else [(xs[0], ys[0])] + Zip(xs[1..], ys[1..])
  }

  /** Boolean-mask selection `df[mask]`: the rows satisfying `p`, in order. */
  function Filter<T(==,!new)>(xs: seq<T>, p: T -> bool): (r: seq<T>)
    ensures |r| <= |xs|
    ensures forall x :: x in r <==> x in xs && p(x)
  {
    if xs == [] then []
    else if p(xs[0]) then [xs[0]] + Filter(xs[1..], p)
    else Filter(xs[1..], p)
  }

  /** The selection keeps every copy of a value the mask accepts and no copy of any other. */
  lemma {:induction false} FilterCounts<T(!new)>(xs: seq<T>, p: T -> bool)
    ensures forall x :: multiset(Filter(xs, p))[x] == if p(x) then multiset(xs)[x] else 0
  {
    if xs != [] {
      FilterCounts(xs[1..], p);
      assert xs == [xs[0]] + xs[1..];
    }
  }

  function Map<A, B>(f: A -> B, xs: seq<A>): (r: seq<B>)
    ensures |r| == |xs| && forall i :: 0 <= i < |xs| ==> r[i] == f(xs[i])
  {
    if xs == [] then [] else [f(xs[0])] + Map(f, xs[1..])
  }

  /** The values of a mapped sequence are the images of its elements. */
  lemma MapMembers<A, B>(f: A -> B, xs: seq<A>)
    ensures forall y :: y in Map(f, xs) <==> exists x :: x in xs && y == f(x)
  {
    forall y
      ensures y in Map(f, xs) <==> exists x :: x in xs && y == f(x)
    {
      if y in Map(f, xs) {
        var i :| 0 <= i < |xs| && Map(f, xs)[i] == y;
        assert xs[i] in xs;
      }
      if x :| x in xs && y == f(x) {
        var i :| 0 <= i < |xs| && xs[i] == x;
        assert Map(f, xs)[i] == y;
      }
    }
  }

  /** `[f(x) for x in xs]` for an `f` defined on every element, built from the back. */
  function MapDefined<A, B>(f: A --> B, xs: seq<A>): (r: seq<B>)
    requires forall i :: 0 <= i < |xs| ==> f.requires(xs[i])
    ensures |r| == |xs|
  {
    if xs == [] then [] else MapDefined(f, xs[..|xs| - 1]) + [f(xs[|xs| - 1])]
  }

  lemma {:induction false} MapDefinedAt<A, B>(f: A --> B, xs: seq<A>, j: nat)
    requires forall i :: 0 <= i < |xs| ==> f.requires(xs[i])
    requires j < |xs|
    ensures MapDefined(f, xs)[j] == f(xs[j])
  {
    var front := xs[..|xs| - 1];
    if j < |front| {
      assert front[j] == xs[j];
      MapDefinedAt(f, front, j);
    }
  }

  lemma MapDefinedSnoc<A, B>(f: A --> B, xs: seq<A>, i: nat)
    requires forall k :: 0 <= k < |xs| ==> f.requires(xs[k])
    requires i < |xs|
    ensures MapDefined(f, xs[..i + 1]) == MapDefined(f, xs[..i]) + [f(xs[i])]
  {
    assert xs[..i + 1][..i] == xs[..i];
  }

  /** A reordering of a mapped sequence holds exactly the images of the elements. */
  lemma MapDefinedMembers<A, B>(f: A --> B, xs: seq<A>, ys: seq<B>)
    requires forall i :: 0 <= i < |xs| ==> f.requires(xs[i])
    requires multiset(ys) == multiset(MapDefined(f, xs))
    ensures forall y :: y in ys <==> exists j :: 0 <= j < |xs| && y == f(xs[j])
  {
    var m := MapDefined(f, xs);
    forall y
      ensures y in ys <==> exists j :: 0 <= j < |xs| && y == f(xs[j])
    {
      assert y in ys <==> y in multiset(m);
      if y in m {
        var j :| 0 <= j < |m| && m[j] == y;
        MapDefinedAt(f, xs, j);
      }
      if exists j :: 0 <= j < |xs| && y == f(xs[j]) {
        var j :| 0 <= j < |xs| && y == f(xs[j]);
        MapDefinedAt(f, xs, j);
        assert m[j] in m;
      }
    }
  }

  ghost predicate NoDup<T>(xs: seq<T>) {
    forall i, j :: 0 <= i < j < |xs| ==> xs[i] != xs[j]
  }

  lemma NoDupTail<T>(xs: seq<T>)
    requires xs != [] && NoDup(xs)
    ensures NoDup(xs[1..]) && xs[0] !in xs[1..]
  {
    var tail := xs[1..];
    forall i, j | 0 <= i < j < |tail| ensures tail[i] != tail[j] {
      assert tail[i] == xs[i + 1] && tail[j] == xs[j + 1];
    }
    forall j | 0 <= j < |tail| ensures tail[j] != xs[0] {
      assert tail[j] == xs[j + 1];
    }
  }

  /** `a` is `b` with some elements removed, the rest kept in order. */
  predicate Subseq<T(==)>(a: seq<T>, b: seq<T>)
    decreases |b|
  {
    if a == [] then true
    else if b == [] then false
    else if a[0] == b[0] then Subseq(a[1..], b[1..])
    else Subseq(a, b[1..])
  }

  /** Index of the first occurrence of `x` in `xs`. */
  function FirstIndex<T(==)>(xs: seq<T>, x: T): (k: nat)
    requires x in xs
    ensures k < |xs| && xs[k] == x && x !in xs[..k]
  {
    if xs[0] == x then 0 else 1 + FirstIndex(xs[1..], x)
  }

  /** pandas `drop_duplicates()` / `unique()`: each value once, at its first occurrence. */
  function Distinct<T(==,!new)>(xs: seq<T>): (r: seq<T>)
    ensures NoDup(r)
    ensures forall x :: x in r <==> x in xs
    ensures |r| <= |xs|
  {
    if xs == [] then []
    else
      var r := Distinct(xs[..|xs| - 1]);
      var last := xs[|xs| - 1];
      assert forall x :: x in xs <==> x in xs[..|xs| - 1] || x == last by {
        assert xs == xs[..|xs| - 1] + [last];
      }
      if last in r then r else r + [last]
  }

  lemma {:induction false} SubseqExtendRight<T(!new)>(a: seq<T>, b: seq<T>, x: T)
    requires Subseq(a, b)
    ensures Subseq(a, b + [x])
    decreases |b|
  {
    if a != [] {
      assert (b + [x])[0] == b[0] && (b + [x])[1..] == b[1..] + [x];
      if a[0] == b[0] {
        SubseqExtendRight(a[1..], b[1..], x);
      } else {
        SubseqExtendRight(a, b[1..], x);
      }
    }
  }

  lemma {:induction false} SubseqExtendBoth<T(!new)>(a: seq<T>, b: seq<T>, x: T)
    requires Subseq(a, b)
    ensures Subseq(a + [x], b + [x])
    decreases |b|
  {
    if a == [] {
      assert [] + [x] == [x];
      if b != [] {
        assert Subseq([x], b[1..] + [x]) by { SubseqExtendBoth([], b[1..], x); }
        assert (b + [x])[1..] == b[1..] + [x];
      }
    } else {
      assert (a + [x])[0] == a[0] && (a + [x])[1..] == a[1..] + [x];
      assert (b + [x])[0] == b[0] && (b + [x])[1..] == b[1..] + [x];
      if a[0] == b[0] {
        SubseqExtendBoth(a[1..], b[1..], x);
      } else {
        SubseqExtendBoth(a, b[1..], x);
      }
    }
  }

  lemma {:induction false} SubseqTail<T(!new)>(a: seq<T>, b: seq<T>)
    requires a != [] && Subseq(a, b)
    ensures Subseq(a[1..], b)
    decreases |b|, 0
  {
    if a[0] == b[0] {
      SubseqDropFront(a[1..], b[1..], b[0]);
    } else {
      SubseqTail(a, b[1..]);
      SubseqDropFront(a[1..], b[1..], b[0]);
    }
    assert [b[0]] + b[1..] == b;
  }

  lemma {:induction false} SubseqDropFront<T(!new)>(a: seq<T>, b: seq<T>, x: T)
    requires Subseq(a, b)
    ensures Subseq(a, [x] + b)
    decreases |b|, 1
  {
    if a != [] {
      assert ([x] + b)[0] == x && ([x] + b)[1..] == b;
      if a[0] == x {
        SubseqTail(a, b);
      }
    }
  }

  lemma {:induction false} SubseqTransitive<T(!new)>(a: seq<T>, b: seq<T>, c: seq<T>)
    requires Subseq(a, b) && Subseq(b, c)
    ensures Subseq(a, c)
    decreases |c|
  {
    if a != [] {
      assert b != [] && c != [];
      if b[0] == c[0] {
        if a[0] == b[0] {
          SubseqTransitive(a[1..], b[1..], c[1..]);
        } else {
          SubseqTransitive(a, b[1..], c[1..]);
        }
      } else {
        SubseqTransitive(a, b, c[1..]);
        SubseqDropFront(a, c[1..], c[0]);
        assert [c[0]] + c[1..] == c;
      }
    }
  }

  lemma {:induction false} DistinctIsSubseq<T(!new)>(xs: seq<T>)
    ensures Subseq(Distinct(xs), xs)
  {
    if xs != [] {
      var init, last := xs[..|xs| - 1], xs[|xs| - 1];
      assert xs == init + [last];
      DistinctIsSubseq(init);
      if last in Distinct(init) {
        SubseqExtendRight(Distinct(init), init, last);
      } else {
        SubseqExtendBoth(Distinct(init), init, last);
      }
    }
  }

  /** The kept copy of every value is its first occurrence: the result is ordered by first index. */
  lemma {:induction false} DistinctKeepsFirstOccurrence<T(!new)>(xs: seq<T>)
    ensures forall i, j :: 0 <= i < j < |Distinct(xs)| ==>
      FirstIndex(xs, Distinct(xs)[i]) < FirstIndex(xs, Distinct(xs)[j])
  {
    if xs != [] {
      var init, last := xs[..|xs| - 1], xs[|xs| - 1];
      assert xs == init + [last];
      DistinctKeepsFirstOccurrence(init);
      var r := Distinct(init);
      forall x | x in init
        ensures FirstIndex(xs, x) == FirstIndex(init, x)
      {
        FirstIndexPrefix(init, [last], x);
      }
      if last !in r {
        assert last !in init;
        assert FirstIndex(xs, last) == |init| by {
          assert xs[..|init|] == init;
        }
      }
    }
  }

  lemma {:induction false} FirstIndexPrefix<T(!new)>(a: seq<T>, b: seq<T>, x: T)
    requires x in a
    ensures FirstIndex(a + b, x) == FirstIndex(a, x)
  {
    if a[0] != x {
      assert (a + b)[1..] == a[1..] + b;
      FirstIndexPrefix(a[1..], b, x);
    }
  }

  lemma {:induction false} FilterIsSubseq<T(!new)>(xs: seq<T>, p: T -> bool)
    ensures Subseq(Filter(xs, p), xs)
  {
    if xs != [] {
      FilterIsSubseq(xs[1..], p);
      if !p(xs[0]) {
        SubseqDropFront(Filter(xs[1..], p), xs[1..], xs[0]);
        assert [xs[0]] + xs[1..] == xs;
      }
    }
  }

  /** A sequence without repetitions has as many elements as the set of its values. */
  lemma {:induction false} NoDupCardinality<T(!new)>(xs: seq<T>)
    requires NoDup(xs)
    ensures |set x | x in xs| == |xs|
  {
    if xs != [] {
      NoDupCardinality(xs[1..]);
      assert (set x | x in xs) == (set x | x in xs[1..]) + {xs[0]};
      assert xs[0] !in xs[1..];
    }
  }

  /** `n_unique` / `len(groups)`: the number of distinct values. */
  lemma DistinctCardinality<T(!new)>(xs: seq<T>)
    ensures |Distinct(xs)| == |set x | x in xs|
  {
    NoDupCardinality(Distinct(xs));
    assert (set x | x in Distinct(xs)) == (set x | x in xs);
  }

  /** Ordered by non-increasing key (pandas `sort_values(..., ascending=False)`). */
  ghost predicate NonIncreasing<T>(xs: seq<T>, key: T -> real) {
    forall i, j :: 0 <= i < j < |xs| ==> key(xs[i]) >= key(xs[j])
  }

  function InsertDesc<T>(x: T, xs: seq<T>, key: T -> real): (r: seq<T>)
    requires NonIncreasing(xs, key)
    ensures multiset(r) == multiset(xs) + multiset{x}
    ensures NonIncreasing(r, key)
  {
    if xs == [] || key(x) >= key(xs[0]) then
      HeadIsMax(xs, key);
      ConsNonIncreasing(x, xs, key);
      [x] + xs
    else
      var h, tail := xs[0], xs[1..];
      HeadIsMax(xs, key);
      assert xs == [h] + tail;
      TailNonIncreasing(xs, key);
      var rest := InsertDesc(x, tail, key);
      HeadDominates(h, x, tail, rest, key);
      [h] + rest
  }

  lemma HeadIsMax<T>(xs: seq<T>, key: T -> real)
    requires NonIncreasing(xs, key)
    ensures forall j :: 0 <= j < |xs| ==> key(xs[0]) >= key(xs[j])
  {
    forall j | 0 < j < |xs| ensures key(xs[0]) >= key(xs[j]) {
    }
  }

  lemma TailNonIncreasing<T>(xs: seq<T>, key: T -> real)
    requires xs != [] && NonIncreasing(xs, key)
    ensures NonIncreasing(xs[1..], key)
  {
    var tail := xs[1..];
    forall i, j | 0 <= i < j < |tail| ensures key(tail[i]) >= key(tail[j]) {
      assert tail[i] == xs[i + 1] && tail[j] == xs[j + 1];
    }
  }

  lemma ConsNonIncreasing<T>(h: T, xs: seq<T>, key: T -> real)
    requires NonIncreasing(xs, key)
    requires forall j :: 0 <= j < |xs| ==> key(h) >= key(xs[j])
    ensures NonIncreasing([h] + xs, key)
  {
    var s := [h] + xs;
    forall i, j | 0 <= i < j < |s| ensures key(s[i]) >= key(s[j]) {
      assert s[j] == xs[j - 1];
      if i > 0 {
        assert s[i] == xs[i - 1];
      }
    }
  }

  lemma HeadDominates<T>(h: T, x: T, tail: seq<T>, rest: seq<T>, key: T -> real)
    requires key(h) >= key(x)
    requires forall j :: 0 <= j < |tail| ==> key(h) >= key(tail[j])
    requires NonIncreasing(rest, key) && multiset(rest) == multiset(tail) + multiset{x}
    ensures NonIncreasing([h] + rest, key)
  {
    forall j | 0 <= j < |rest|
      ensures key(h) >= key(rest[j])
    {
      assert rest[j] in multiset(rest);
      if rest[j] != x {
        assert rest[j] in multiset(tail);
        var k :| 0 <= k < |tail| && tail[k] == rest[j];
      }
    }
    ConsNonIncreasing(h, rest, key);
  }

  /** Sorting by descending key: a permutation of the input in non-increasing key order. */
  function SortByDesc<T>(xs: seq<T>, key: T -> real): (r: seq<T>)
    ensures multiset(r) == multiset(xs)
    ensures NonIncreasing(r, key)
  {
    if xs == [] then []
    else
      assert xs == [xs[0]] + xs[1..];
      InsertDesc(xs[0], SortByDesc(xs[1..], key), key)
  }
}
