/** Filtering sequences, summing over them and putting them together. */
module Sequences {
  import opened Wrappers

  /** The lesser of two lengths. */
  function Min(a: nat, b: nat): nat { if a <= b then a else b }

  /** What has been put out so far, followed by what is still to come, is the whole. */
  ghost predicate Continues<T>(whole: Option<seq<T>>, out: seq<T>, rest: Option<seq<T>>) {
    whole.Some? == rest.Some? && (rest.Some? ==> whole.value == out + rest.value)
  }

  lemma Regrouped<T>(a: seq<T>, b: seq<T>, c: seq<T>)
    ensures a + b + c == a + (b + c)
  {
  }

  function Filter<T>(p: T -> bool, s: seq<T>): (r: seq<T>)
    ensures |r| <= |s|
  {
    if s == [] then [] else if p(s[0]) then [s[0]] + Filter(p, s[1..]) else Filter(p, s[1..])
  }

  lemma {:induction false} FilterConcat<T>(p: T -> bool, a: seq<T>, b: seq<T>)
    ensures Filter(p, a + b) == Filter(p, a) + Filter(p, b)
  {
    if a == [] {
      assert a + b == b;
    } else {
      FilterConcat(p, a[1..], b);
      assert (a + b)[1..] == a[1..] + b && (a + b)[0] == a[0];
      Regrouped([a[0]], Filter(p, a[1..]), Filter(p, b));
    }
  }

  /** Filtering by `p` after `q` is filtering by `p`, where `p` holds only if `q` does. */
  lemma {:induction false} FilterWithin<T>(p: T -> bool, q: T -> bool, s: seq<T>)
    requires forall x :: x in s && p(x) ==> q(x)
    ensures Filter(p, Filter(q, s)) == Filter(p, s)
  {
    if s != [] { FilterWithin(p, q, s[1..]); }
  }

  lemma {:induction false} FilterNone<T>(p: T -> bool, q: T -> bool, s: seq<T>)
    requires forall x :: x in s && p(x) ==> !q(x)
    ensures Filter(p, Filter(q, s)) == []
  {
    if s != [] { FilterNone(p, q, s[1..]); }
  }

  lemma {:induction false} FilterMembers<T>(p: T -> bool, s: seq<T>)
    ensures forall x :: x in Filter(p, s) <==> x in s && p(x)
    ensures forall i :: 0 <= i < |Filter(p, s)| ==> Filter(p, s)[i] in s && p(Filter(p, s)[i])
  {
    if s != [] {
      FilterMembers(p, s[1..]);
      assert s == [s[0]] + s[1..];
    }
  }

  lemma FilterMiddle<T>(p: T -> bool, front: seq<T>, x: T, back: seq<T>)
    ensures multiset(Filter(p, front + [x] + back)) ==
            multiset(Filter(p, front + back)) + (if p(x) then multiset{x} else multiset{})
  {
    FilterConcat(p, front, back);
    FilterConcat(p, front + [x], back);
    FilterConcat(p, front, [x]);
    assert [x][1..] == [];
  }

  lemma WithoutOne<T>(s: seq<T>, i: nat)
    requires i < |s|
    ensures s == s[..i] + [s[i]] + s[i + 1..]
    ensures multiset(s[..i] + s[i + 1..]) == multiset(s) - multiset{s[i]}
  {
  }

  /** The filtered multiset depends on the multiset alone. */
  lemma {:induction false} FilterSameMultiset<T>(p: T -> bool, s: seq<T>, t: seq<T>)
    requires multiset(s) == multiset(t)
    ensures multiset(Filter(p, s)) == multiset(Filter(p, t))
    decreases |s|
  {
    if s == [] {
      assert |multiset(t)| == 0;
    } else {
      assert s[0] in multiset(t);
      var i :| 0 <= i < |t| && t[i] == s[0];
      WithoutOne(s, 0);
      WithoutOne(t, i);
      FilterSameMultiset(p, s[..0] + s[1..], t[..i] + t[i + 1..]);
      FilterMiddle(p, s[..0], s[0], s[1..]);
      FilterMiddle(p, t[..i], t[i], t[i + 1..]);
    }
  }

  // ---------------------------------------------------------------- sums

  function Sum<T>(weight: T -> int, s: seq<T>): int {
    if s == [] then 0 else weight(s[0]) + Sum(weight, s[1..])
  }

  lemma {:induction false} SumConcat<T>(weight: T -> int, a: seq<T>, b: seq<T>)
    ensures Sum(weight, a + b) == Sum(weight, a) + Sum(weight, b)
  {
    if a == [] {
      assert a + b == b;
    } else {
      SumConcat(weight, a[1..], b);
      assert (a + b)[1..] == a[1..] + b;
    }
  }

  lemma SumMiddle<T>(weight: T -> int, front: seq<T>, x: T, back: seq<T>)
    ensures Sum(weight, front + [x] + back) == Sum(weight, front + back) + weight(x)
  {
    SumConcat(weight, front, back);
    SumConcat(weight, front + [x], back);
    SumConcat(weight, front, [x]);
    assert [x][1..] == [];
  }

  /** A sum does not depend on the order of what is summed. */
  lemma {:induction false} SumSameMultiset<T>(weight: T -> int, s: seq<T>, t: seq<T>)
    requires multiset(s) == multiset(t)
    ensures Sum(weight, s) == Sum(weight, t)
    decreases |s|
  {
    if s == [] {
      assert |multiset(t)| == 0;
    } else {
      assert s[0] in multiset(t);
      var i :| 0 <= i < |t| && t[i] == s[0];
      WithoutOne(s, 0);
      WithoutOne(t, i);
      SumSameMultiset(weight, s[..0] + s[1..], t[..i] + t[i + 1..]);
      SumMiddle(weight, s[..0], s[0], s[1..]);
      SumMiddle(weight, t[..i], t[i], t[i + 1..]);
    }
  }
}
