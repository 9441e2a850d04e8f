/** Sequence helpers standing for the JavaScript idioms the bot uses on arrays:
    `[...new Set(xs)]` (Dedup), `xs.filter(p)` (Filter) and `xs.indexOf(x)` (FirstIndex). */
module Lists {

  predicate NoDuplicates<T(==)>(xs: seq<T>) {
    forall i, j :: 0 <= i < j < |xs| ==> xs[i] != xs[j]
  }

  /** Appending a new element to a repeat-free list keeps it repeat-free. */
  lemma SnocKeepsDistinct<T>(xs: seq<T>, x: T)
    requires NoDuplicates(xs) && x !in xs
    ensures NoDuplicates(xs + [x])
  {
    var r := xs + [x];
    forall i, j | 0 <= i < j < |r|
      ensures r[i] != r[j]
    {
      assert r[i] == xs[i];
      if j < |xs| {
        assert r[j] == xs[j];
      }
    }
  }

  /** Dropping the first element of a repeat-free list keeps it repeat-free. */
  lemma TailKeepsDistinct<T>(xs: seq<T>)
    requires xs != [] && NoDuplicates(xs)
    ensures NoDuplicates(xs[1..])
  {
    var r := xs[1..];
    forall i, j | 0 <= i < j < |r|
      ensures r[i] != r[j]
    {
      assert r[i] == xs[i + 1] && r[j] == xs[j + 1];
    }
  }

  /** Putting a new element in front of a repeat-free list keeps it repeat-free. */
  lemma ConsKeepsDistinct<T>(x: T, xs: seq<T>)
    requires NoDuplicates(xs) && x !in xs
    ensures NoDuplicates([x] + xs)
  {
    var r := [x] + xs;
    forall i, j | 0 <= i < j < |r|
      ensures r[i] != r[j]
    {
      assert r[j] == xs[j - 1];
      if i > 0 {
        assert r[i] == xs[i - 1];
      }
    }
  }

  /** Position of the first occurrence of `x`. */
  function FirstIndex<T(==)>(xs: seq<T>, x: T): (k: nat)
    requires x in xs
    ensures k < |xs| && xs[k] == x
    ensures x !in xs[..k]
  {
    if xs[0] == x then 0 else 1 + FirstIndex(xs[1..], x)
  }

  /** `[...new Set(xs)]`: the distinct elements of `xs`, each at its first position. */
  function Dedup<T(==,!new)>(xs: seq<T>): (r: seq<T>)
    ensures NoDuplicates(r)
    ensures forall x :: x in r <==> x in xs
    ensures |r| <= |xs|
    decreases |xs|
  {
    if xs == [] then []
    else
      var front := Dedup(xs[..|xs| - 1]);
      if xs[|xs| - 1] in front then front else front + [xs[|xs| - 1]]
  }

  /** `xs.filter(keep)`: the elements satisfying `keep`, in their original order. */
  function Filter<T(!new)>(xs: seq<T>, keep: T -> bool): (r: seq<T>)
    ensures |r| <= |xs|
    ensures forall x :: x in r <==> x in xs && keep(x)
    decreases |xs|
  {
    if xs == [] then []
    else if keep(xs[0]) then [xs[0]] + Filter(xs[1..], keep)
    else Filter(xs[1..], keep)
  }

  lemma {:induction false} FirstIndexOfPrefix<T>(xs: seq<T>, n: nat, x: T)
    requires n <= |xs| && x in xs[..n]
    ensures FirstIndex(xs, x) == FirstIndex(xs[..n], x) < n
  {
    if xs[0] != x {
      assert xs[1..][..n - 1] == xs[..n][1..];
      FirstIndexOfPrefix(xs[1..], n - 1, x);
    }
  }

  /** Dedup keeps first-seen order: earlier entries of the result first occur earlier in the input. */
  lemma {:induction false} DedupKeepsFirstSeenOrder<T(!new)>(xs: seq<T>, i: nat, j: nat)
    requires i < j < |Dedup(xs)|
    ensures FirstIndex(xs, Dedup(xs)[i]) < FirstIndex(xs, Dedup(xs)[j])
    decreases |xs|
  {
    var n := |xs| - 1;
    var front := Dedup(xs[..n]);
    var r := Dedup(xs);
    assert xs[..n] + [xs[n]] == xs;
    if j < |front| {
      assert r[i] == front[i] && r[j] == front[j];
      DedupKeepsFirstSeenOrder(xs[..n], i, j);
      FirstIndexOfPrefix(xs, n, front[i]);
      FirstIndexOfPrefix(xs, n, front[j]);
    } else {
      assert xs[n] !in front && r == front + [xs[n]] && r[j] == xs[n];
      assert xs[n] !in xs[..n];
      FirstIndexOfPrefix(xs, n, r[i]);
    }
  }

  /** Dedup leaves a list that already has no duplicates as it is. */
  lemma {:induction false} DedupOfDistinct<T(!new)>(xs: seq<T>)
    requires NoDuplicates(xs)
    ensures Dedup(xs) == xs
    decreases |xs|
  {
    if xs != [] {
      var n := |xs| - 1;
      DedupOfDistinct(xs[..n]);
      assert xs[n] !in xs[..n];
      assert xs[..n] + [xs[n]] == xs;
    }
  }

  /** Filtering by a predicate and by its negation splits the input: every element lands in exactly one part. */
  lemma {:induction false} FilterPartition<T(!new)>(xs: seq<T>, keep: T -> bool)
    ensures |Filter(xs, keep)| + |Filter(xs, x => !keep(x))| == |xs|
    decreases |xs|
  {
    if xs != [] {
      FilterPartition(xs[1..], keep);
    }
  }

  /** Filtering a list extended by one element extends the filtered list by that element when it is kept. */
  lemma {:induction false} FilterAppend<T(!new)>(xs: seq<T>, x: T, keep: T -> bool)
    ensures Filter(xs + [x], keep) == Filter(xs, keep) + (if keep(x) then [x] else [])
    decreases |xs|
  {
    if xs != [] {
      assert (xs + [x])[1..] == xs[1..] + [x];
      FilterAppend(xs[1..], x, keep);
    }
  }

  /** Filtering by a predicate every element satisfies changes nothing. */
  lemma {:induction false} FilterKeepsAll<T(!new)>(xs: seq<T>, keep: T -> bool)
    requires forall i :: 0 <= i < |xs| ==> keep(xs[i])
    ensures Filter(xs, keep) == xs
    decreases |xs|
  {
    if xs != [] {
      FilterKeepsAll(xs[1..], keep);
    }
  }

  /** Filtering keeps the relative order of the elements it keeps: it yields a subsequence. */
  lemma {:induction false} FilterIsSubsequence<T(!new)>(xs: seq<T>, keep: T -> bool, i: nat, j: nat)
    requires i < j < |Filter(xs, keep)|
    ensures exists a, b :: 0 <= a < b < |xs| && xs[a] == Filter(xs, keep)[i] && xs[b] == Filter(xs, keep)[j]
    decreases |xs|
  {
    var f := Filter(xs, keep);
    if keep(xs[0]) {
      if i == 0 {
        assert f[j] in Filter(xs[1..], keep) by { assert f[j] == Filter(xs[1..], keep)[j - 1]; }
        var b :| 0 <= b < |xs[1..]| && xs[1..][b] == f[j];
        assert xs[0] == f[0] && xs[b + 1] == f[j];
      } else {
        FilterIsSubsequence(xs[1..], keep, i - 1, j - 1);
        var a, b :| 0 <= a < b < |xs[1..]| && xs[1..][a] == Filter(xs[1..], keep)[i - 1] && xs[1..][b] == Filter(xs[1..], keep)[j - 1];
        assert xs[a + 1] == f[i] && xs[b + 1] == f[j];
      }
    } else {
      FilterIsSubsequence(xs[1..], keep, i, j);
      var a, b :| 0 <= a < b < |xs[1..]| && xs[1..][a] == f[i] && xs[1..][b] == f[j];
      assert xs[a + 1] == f[i] && xs[b + 1] == f[j];
    }
  }
}
