/**
 * Byte-wise lexicographic order on strings, the order `sort.Strings` uses,
 * and an insertion sort by it.
 */
module StringOrder {

  /** `a` sorts before or equal to `b`. */
  predicate Le(a: string, b: string)
  {
    if |a| == 0 then true
    else if |b| == 0 then false
    else if a[0] != b[0] then a[0] < b[0]
    else Le(a[1..], b[1..])
  }

  lemma {:induction false} LeTotal(a: string, b: string)
    ensures Le(a, b) || Le(b, a)
  {
    if |a| > 0 && |b| > 0 && a[0] == b[0] {
      LeTotal(a[1..], b[1..]);
    }
  }

  lemma {:induction false} LeAntisymmetric(a: string, b: string)
    requires Le(a, b) && Le(b, a)
    ensures a == b
  {
    if |a| > 0 && |b| > 0 {
      LeAntisymmetric(a[1..], b[1..]);
      assert a == [a[0]] + a[1..] && b == [b[0]] + b[1..];
    }
  }

  lemma {:induction false} LeTransitive(a: string, b: string, c: string)
    requires Le(a, b) && Le(b, c)
    ensures Le(a, c)
  {
    if |a| > 0 && |b| > 0 && |c| > 0 && a[0] == b[0] && b[0] == c[0] {
      LeTransitive(a[1..], b[1..], c[1..]);
    }
  }

  predicate Sorted(xs: seq<string>)
  {
    forall i, j :: 0 <= i < j < |xs| ==> Le(xs[i], xs[j])
  }

  /** A key no greater than the head of a sorted sequence may go in front. */
  lemma InsertFront(x: string, xs: seq<string>)
    requires Sorted(xs) && |xs| > 0 && Le(x, xs[0])
    ensures Sorted([x] + xs)
  {
    forall j | 0 < j < |xs| ensures Le(x, xs[j]) {
      LeTransitive(x, xs[0], xs[j]);
    }
  }

  /** A key greater than the head goes into the tail, behind the head. */
  lemma InsertBehind(x: string, xs: seq<string>, rest: seq<string>)
    requires Sorted(xs) && |xs| > 0 && !Le(x, xs[0])
    requires Sorted(rest) && multiset(rest) == multiset(xs[1..]) + multiset{x}
    ensures Sorted([xs[0]] + rest)
    ensures multiset([xs[0]] + rest) == multiset(xs) + multiset{x}
  {
    LeTotal(x, xs[0]);
    assert xs == [xs[0]] + xs[1..];
    forall j | 0 <= j < |rest| ensures Le(xs[0], rest[j]) {
      var y := rest[j];
      assert y in multiset(rest);
      assert y in multiset(xs[1..]) || y == x;
      if y != x {
        var k :| 0 <= k < |xs[1..]| && xs[1..][k] == y;
        assert xs[k + 1] == y;
      }
    }
  }

  /** No key occurs twice. */
  predicate Distinct(xs: seq<string>)
  {
    forall i, j :: 0 <= i < j < |xs| ==> xs[i] != xs[j]
  }

  /** A sequence without repeats holds every key at most once. */
  lemma {:induction false} DistinctMultiset(xs: seq<string>)
    requires Distinct(xs)
    ensures forall x :: multiset(xs)[x] <= 1
  {
    if |xs| > 0 {
      assert xs == [xs[0]] + xs[1..];
      assert Distinct(xs[1..]) by {
        forall i, j | 0 <= i < j < |xs[1..]| ensures xs[1..][i] != xs[1..][j] {
          assert xs[1..][i] == xs[i + 1] && xs[1..][j] == xs[j + 1];
        }
      }
      DistinctMultiset(xs[1..]);
      assert xs[0] !in xs[1..];
    }
  }

  /** A sequence holding every key at most once has no repeats. */
  lemma MultisetDistinct(xs: seq<string>)
    requires forall x :: multiset(xs)[x] <= 1
    ensures Distinct(xs)
  {
    forall i, j | 0 <= i < j < |xs| ensures xs[i] != xs[j] {
      var x := xs[j];
      assert xs == xs[..j] + xs[j..];
      assert multiset(xs)[x] == multiset(xs[..j])[x] + multiset(xs[j..])[x];
      assert xs[j..][0] == x;
      assert multiset(xs[..j])[x] == 0;
      assert xs[..j][i] == xs[i];
    }
  }

  /** Inserts `x` into a sorted sequence, keeping it sorted. */
  function Insert(x: string, xs: seq<string>): (r: seq<string>)
    requires Sorted(xs)
    ensures Sorted(r)
    ensures multiset(r) == multiset(xs) + multiset{x}
    ensures |r| == |xs| + 1
  {
    if |xs| == 0 then [x]
    else if Le(x, xs[0]) then
      InsertFront(x, xs);
      [x] + xs
    else
      var rest := Insert(x, xs[1..]);
      InsertBehind(x, xs, rest);
      [xs[0]] + rest
  }

  /** `sort.Strings`: a sorted permutation of its argument. */
  function Sort(xs: seq<string>): (r: seq<string>)
    ensures Sorted(r)
    ensures multiset(r) == multiset(xs)
    ensures |r| == |xs|
  {
    if |xs| == 0 then []
    else
      assert xs == [xs[0]] + xs[1..];
      Insert(xs[0], Sort(xs[1..]))
  }

  /** Sorting keys without repeats yields the same keys, each once. */
  lemma SortedKeys(xs: seq<string>)
    requires Distinct(xs)
    ensures |Sort(xs)| == |xs| && Distinct(Sort(xs))
    ensures forall k :: k in Sort(xs) <==> k in xs
  {
    var r := Sort(xs);
    DistinctMultiset(xs);
    MultisetDistinct(r);
    forall k ensures k in r <==> k in xs {
      assert k in r <==> k in multiset(r);
      assert k in xs <==> k in multiset(xs);
    }
  }
}
