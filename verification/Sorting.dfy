/** Stable sorting by a comparison, as the built-in sorts of the modelled programs do it. */
module Sorting {

  ghost predicate TotalPreorder<T(!new)>(le: (T, T) -> bool) {
    && (forall x, y :: le(x, y) || le(y, x))
    && (forall x, y, z :: le(x, y) && le(y, z) ==> le(x, z))
  }

  ghost predicate Sorted<T>(le: (T, T) -> bool, xs: seq<T>) {
    forall i, j :: 0 <= i < j < |xs| ==> le(xs[i], xs[j])
  }

  /** `x` goes after everything that is at most `x`. */
  function Put<T>(le: (T, T) -> bool, xs: seq<T>, x: T): seq<T> {
    if xs == [] || le(xs[|xs| - 1], x) then xs + [x]
    else Put(le, xs[..|xs| - 1], x) + [xs[|xs| - 1]]
  }

  function Sort<T>(le: (T, T) -> bool, xs: seq<T>): seq<T> {
    if xs == [] then [] else Put(le, Sort(le, xs[..|xs| - 1]), xs[|xs| - 1])
  }

  lemma {:induction false} PutSplits<T>(le: (T, T) -> bool, xs: seq<T>, x: T) returns (k: nat)
    ensures k <= |xs| && Put(le, xs, x) == xs[..k] + [x] + xs[k..]
    ensures 0 < k ==> le(xs[k - 1], x)
    ensures forall i :: k <= i < |xs| ==> !le(xs[i], x)
  {
    if xs == [] || le(xs[|xs| - 1], x) {
      k := |xs|;
    } else {
      var front := xs[..|xs| - 1];
      k := PutSplits(le, front, x);
      assert front[k..] + [xs[|xs| - 1]] == xs[k..] && front[..k] == xs[..k];
    }
  }

  lemma {:induction false} PutMultiset<T>(le: (T, T) -> bool, xs: seq<T>, x: T)
    ensures multiset(Put(le, xs, x)) == multiset(xs) + multiset{x}
  {
    if xs != [] && !le(xs[|xs| - 1], x) {
      PutMultiset(le, xs[..|xs| - 1], x);
      assert xs == xs[..|xs| - 1] + [xs[|xs| - 1]];
    }
  }

  lemma PutSorts<T(!new)>(le: (T, T) -> bool, xs: seq<T>, x: T)
    requires TotalPreorder(le) && Sorted(le, xs)
    ensures Sorted(le, Put(le, xs, x))
  {
    var k := PutSplits(le, xs, x);
    forall i | 0 <= i < k ensures le(xs[i], x) {
      assert i < k - 1 ==> le(xs[i], xs[k - 1]);
    }
    forall i | k <= i < |xs| ensures le(x, xs[i]) {
      assert le(xs[i], x) || le(x, xs[i]);
    }
  }

  lemma {:induction false} SortSorts<T(!new)>(le: (T, T) -> bool, xs: seq<T>)
    requires TotalPreorder(le)
    ensures Sorted(le, Sort(le, xs))
  {
    if xs != [] {
      SortSorts(le, xs[..|xs| - 1]);
      PutSorts(le, Sort(le, xs[..|xs| - 1]), xs[|xs| - 1]);
    }
  }

  lemma {:induction false} SortMultiset<T>(le: (T, T) -> bool, xs: seq<T>)
    ensures multiset(Sort(le, xs)) == multiset(xs)
  {
    if xs != [] {
      SortMultiset(le, xs[..|xs| - 1]);
      PutMultiset(le, Sort(le, xs[..|xs| - 1]), xs[|xs| - 1]);
      assert xs == xs[..|xs| - 1] + [xs[|xs| - 1]];
    }
  }

  /** A sorted sequence is its own sort. */
  lemma {:induction false} SortStable<T>(le: (T, T) -> bool, xs: seq<T>)
    requires Sorted(le, xs)
    ensures Sort(le, xs) == xs
  {
    if xs != [] {
      var front, last := xs[..|xs| - 1], xs[|xs| - 1];
      SortStable(le, front);
      assert Put(le, front, last) == front + [last] by { assert front != [] ==> le(front[|front| - 1], last); }
      assert xs == front + [last];
    }
  }

  lemma SortAppended<T>(le: (T, T) -> bool, xs: seq<T>, x: T)
    requires Sorted(le, xs)
    ensures Sort(le, xs + [x]) == Put(le, xs, x)
  {
    assert (xs + [x])[..|xs|] == xs;
    SortStable(le, xs);
  }

  lemma SortMembers<T>(le: (T, T) -> bool, xs: seq<T>)
    ensures |Sort(le, xs)| == |xs|
    ensures forall x :: x in Sort(le, xs) <==> x in xs
  {
    SortMultiset(le, xs);
    assert |multiset(Sort(le, xs))| == |multiset(xs)|;
    assert forall x :: x in Sort(le, xs) <==> x in multiset(Sort(le, xs));
    assert forall x :: x in xs <==> x in multiset(xs);
  }

  /**
   Two sorted sequences of the same elements are equal when equivalent elements
   are equal: sorting forgets the order it started from.
   */
  lemma {:induction false} SortedUnique<T(!new)>(le: (T, T) -> bool, xs: seq<T>, ys: seq<T>)
    requires TotalPreorder(le) && Sorted(le, xs) && Sorted(le, ys)
    requires multiset(xs) == multiset(ys)
    requires forall x, y :: x in xs && y in xs && le(x, y) && le(y, x) ==> x == y
    ensures xs == ys
  {
    assert |xs| == |multiset(xs)| == |ys|;
    if xs != [] {
      assert xs[0] in multiset(ys) && ys[0] in multiset(xs);
      FirstIsLeast(le, xs, ys[0]);
      FirstIsLeast(le, ys, xs[0]);
      RestSame(xs, ys);
      SortedUnique(le, xs[1..], ys[1..]);
    }
  }

  lemma FirstIsLeast<T(!new)>(le: (T, T) -> bool, xs: seq<T>, x: T)
    requires TotalPreorder(le) && Sorted(le, xs) && x in xs
    ensures le(xs[0], x)
  {
  }

  lemma RestSame<T>(xs: seq<T>, ys: seq<T>)
    requires xs != [] && ys != [] && xs[0] == ys[0] && multiset(xs) == multiset(ys)
    ensures multiset(xs[1..]) == multiset(ys[1..])
    ensures xs[1..] == ys[1..] ==> xs == ys
  {
    assert xs == [xs[0]] + xs[1..] && ys == [ys[0]] + ys[1..];
    assert multiset(xs[1..]) == multiset(xs) - multiset{xs[0]};
    assert multiset(ys[1..]) == multiset(ys) - multiset{ys[0]};
  }

  predicate Distinct<T(==)>(xs: seq<T>) { forall i, j :: 0 <= i < j < |xs| ==> xs[i] != xs[j] }

  function Elements<T(==)>(xs: seq<T>): set<T> { set x | x in xs }

  lemma {:induction false} DistinctSize<T>(xs: seq<T>)
    requires Distinct(xs)
    ensures |Elements(xs)| == |xs|
  {
    if xs != [] {
      DistinctSize(xs[1..]);
      assert Elements(xs) == {xs[0]} + Elements(xs[1..]);
      assert xs[0] !in xs[1..];
    }
  }

  lemma {:induction false} ElementsAtMost<T>(xs: seq<T>)
    ensures |Elements(xs)| <= |xs|
  {
    if xs != [] {
      ElementsAtMost(xs[1..]);
      assert Elements(xs) == {xs[0]} + Elements(xs[1..]);
    }
  }

  /** A list has no repetitions exactly if it has as many elements as places. */
  lemma {:induction false} DistinctBySize<T>(xs: seq<T>)
    ensures Distinct(xs) <==> |Elements(xs)| == |xs|
  {
    if xs != [] {
      DistinctBySize(xs[1..]);
      ElementsAtMost(xs[1..]);
      assert Elements(xs) == {xs[0]} + Elements(xs[1..]);
      if xs[0] in xs[1..] {
        var k :| 0 <= k < |xs[1..]| && xs[1..][k] == xs[0];
        assert xs[0] == xs[k + 1] && Elements(xs) == Elements(xs[1..]);
      } else {
        assert Distinct(xs) <==> Distinct(xs[1..]) by { DistinctFront(xs); }
      }
    }
  }

  lemma DistinctFront<T>(xs: seq<T>)
    requires xs != [] && xs[0] !in xs[1..]
    ensures Distinct(xs) <==> Distinct(xs[1..])
  {
    var rest := xs[1..];
    assert forall i :: 0 < i < |xs| ==> xs[i] == rest[i - 1] && rest[i - 1] in rest;
    assert forall i :: 0 <= i < |rest| ==> rest[i] == xs[i + 1];
  }

  lemma {:induction false} PutDistinct<T>(le: (T, T) -> bool, xs: seq<T>, x: T)
    requires Distinct(xs) && x !in xs
    ensures Distinct(Put(le, xs, x))
  {
    var k := PutSplits(le, xs, x);
  }

  lemma {:induction false} SortDistinct<T>(le: (T, T) -> bool, xs: seq<T>)
    requires Distinct(xs)
    ensures Distinct(Sort(le, xs))
  {
    if xs != [] {
      var front, last := xs[..|xs| - 1], xs[|xs| - 1];
      SortDistinct(le, front);
      SortMembers(le, front);
      assert last !in front;
      PutDistinct(le, Sort(le, front), last);
    }
  }

  // --------------------------------------------- distinct under any order

  predicate DistinctBy<T, U(==)>(f: T -> U, xs: seq<T>) { forall i, j :: 0 <= i < j < |xs| ==> f(xs[i]) != f(xs[j]) }

  lemma CountTwo<T>(xs: seq<T>, i: nat, j: nat)
    requires i < j < |xs| && xs[i] == xs[j]
    ensures multiset(xs)[xs[i]] >= 2
  {
    assert xs == xs[..j] + [xs[j]] + xs[j + 1..];
    assert xs[..j][i] == xs[i] && xs[i] in multiset(xs[..j]);
  }

  lemma Another<T>(xs: seq<T>, a: nat) returns (c: nat)
    requires a < |xs| && multiset(xs)[xs[a]] >= 2
    ensures c < |xs| && c != a && xs[c] == xs[a]
  {
    var front, back := xs[..a], xs[a + 1..];
    assert xs == front + [xs[a]] + back;
    if xs[a] in multiset(front) {
      c :| 0 <= c < |front| && front[c] == xs[a];
    } else {
      assert xs[a] in multiset(back);
      var d :| 0 <= d < |back| && back[d] == xs[a];
      c := a + 1 + d;
    }
  }

  /** Whether elements differ in some respect does not depend on their order. */
  lemma DistinctMoves<T, U>(f: T -> U, xs: seq<T>, ys: seq<T>)
    requires multiset(xs) == multiset(ys) && DistinctBy(f, xs)
    ensures DistinctBy(f, ys)
  {
    forall i, j | 0 <= i < j < |ys| ensures f(ys[i]) != f(ys[j]) {
      assert ys[i] in multiset(xs) && ys[j] in multiset(xs);
      var a :| 0 <= a < |xs| && xs[a] == ys[i];
      var b :| 0 <= b < |xs| && xs[b] == ys[j];
      if a == b {
        CountTwo(ys, i, j);
        var c := Another(xs, a);
      }
    }
  }
}
