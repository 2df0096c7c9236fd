/**
 The diff behind the mention draft: what the composer takes an edit of its text
 to have been, seen only as the text before and the text after.
 */
module TextDiff {
  import opened Sequences

  /** The replaced range: was[prefix..oldEnd] became now[prefix..newEnd]. */
  datatype Edit = Edit(prefix: nat, oldEnd: nat, newEnd: nat)

  function Shorter<T>(a: seq<T>, b: seq<T>): nat {
    if |a| <= |b| then |a| else |b|
  }

  /** How far the texts agree, given that they agree up to `k`. */
  function PrefixFrom<T(==)>(a: seq<T>, b: seq<T>, k: nat): (n: nat)
    requires k <= Shorter(a, b)
    ensures k <= n <= Shorter(a, b)
    decreases |a| - k
  {
    if k < |a| && k < |b| && a[k] == b[k] then PrefixFrom(a, b, k + 1) else k
  }

  /** How far the texts agree from their ends, looking at no more than `limit` elements. */
  function SuffixFrom<T(==)>(a: seq<T>, b: seq<T>, limit: nat, k: nat): (n: nat)
    requires k <= limit <= Shorter(a, b)
    ensures k <= n <= limit
    decreases limit - k
  {
    if k < limit && a[|a| - 1 - k] == b[|b| - 1 - k] then SuffixFrom(a, b, limit, k + 1) else k
  }

  function DiffOf<T(==)>(was: seq<T>, now: seq<T>): (e: Edit)
    ensures e.prefix <= e.oldEnd <= |was| && e.prefix <= e.newEnd <= |now|
    ensures |was| - e.oldEnd == |now| - e.newEnd
  {
    var p := PrefixFrom(was, now, 0);
    var s := SuffixFrom(was, now, Shorter(was, now) - p, 0);
    Edit(p, |was| - s, |now| - s)
  }

  lemma {:induction false} PrefixAgrees<T>(a: seq<T>, b: seq<T>, k: nat)
    requires k <= Shorter(a, b)
    ensures var n := PrefixFrom(a, b, k);
            && (forall i :: k <= i < n ==> a[i] == b[i])
            && (n < |a| && n < |b| ==> a[n] != b[n])
    decreases |a| - k
  {
    if k < |a| && k < |b| && a[k] == b[k] { PrefixAgrees(a, b, k + 1); }
  }

  lemma {:induction false} SuffixAgrees<T>(a: seq<T>, b: seq<T>, limit: nat, k: nat)
    requires k <= limit <= Shorter(a, b)
    ensures var n := SuffixFrom(a, b, limit, k);
            && (forall i :: |a| - n <= i < |a| - k ==> a[i] == b[i + |b| - |a|])
            && (n < limit ==> a[|a| - 1 - n] != b[|b| - 1 - n])
    decreases limit - k
  {
    if k < limit && a[|a| - 1 - k] == b[|b| - 1 - k] { SuffixAgrees(a, b, limit, k + 1); }
  }

  /** The two texts agree before and after the edit. */
  lemma DiffAgrees<T>(was: seq<T>, now: seq<T>)
    ensures var e := DiffOf(was, now); was[..e.prefix] == now[..e.prefix] && was[e.oldEnd..] == now[e.newEnd..]
  {
    var e := DiffOf(was, now);
    PrefixAgrees(was, now, 0);
    SuffixAgrees(was, now, Shorter(was, now) - e.prefix, 0);
  }

  /** A place where the texts differ, or one of them ends, is where the prefix stops. */
  lemma PrefixIs<T>(a: seq<T>, b: seq<T>, n: nat)
    requires n <= Shorter(a, b)
    requires a[..n] == b[..n]
    requires n == |a| || n == |b| || a[n] != b[n]
    ensures PrefixFrom(a, b, 0) == n
  {
    PrefixAgrees(a, b, 0);
    assert forall i :: 0 <= i < n ==> a[..n][i] == a[i] && b[..n][i] == b[i];
  }

  lemma SuffixAtLeast<T>(a: seq<T>, b: seq<T>, limit: nat, n: nat)
    requires n <= limit <= Shorter(a, b)
    requires a[|a| - n..] == b[|b| - n..]
    ensures n <= SuffixFrom(a, b, limit, 0)
  {
    SuffixAgrees(a, b, limit, 0);
    forall i | |a| - n <= i < |a| ensures a[i] == b[i + |b| - |a|] {
      assert a[|a| - n..][i - |a| + n] == b[|b| - n..][i - |a| + n];
    }
  }

  lemma SuffixIs<T>(a: seq<T>, b: seq<T>, limit: nat, n: nat)
    requires n < limit <= Shorter(a, b)
    requires a[|a| - n..] == b[|b| - n..] && a[|a| - 1 - n] != b[|b| - 1 - n]
    ensures SuffixFrom(a, b, limit, 0) == n
  {
    SuffixAtLeast(a, b, limit, n);
    SuffixAgrees(a, b, limit, 0);
  }

  /** What the texts begin with alike, the prefix goes past. */
  lemma PrefixPast<T>(a: seq<T>, x: seq<T>, y: seq<T>)
    ensures PrefixFrom(a + x, a + y, 0) == |a| + PrefixFrom(x, y, 0)
  {
    var n := PrefixFrom(x, y, 0);
    PrefixAgrees(x, y, 0);
    assert (a + x)[..|a| + n] == a + x[..n] && (a + y)[..|a| + n] == a + y[..n];
    PrefixIs(a + x, a + y, |a| + n);
  }

  lemma Tail<T>(c: seq<T>, b: seq<T>, n: nat)
    requires n <= |b|
    ensures (c + b)[|c + b| - n..] == b[|b| - n..]
  {
  }

  /** What the texts end with alike, the suffix reaches, as far as it may. */
  lemma SuffixReaches<T>(c: seq<T>, d: seq<T>, b: seq<T>, limit: nat)
    requires limit <= Shorter(c + b, d + b)
    ensures SuffixFrom(c + b, d + b, limit, 0) >= if |b| <= limit then |b| else limit
  {
    var n := if |b| <= limit then |b| else limit;
    Tail(c, b, n);
    Tail(d, b, n);
    SuffixAtLeast(c + b, d + b, limit, n);
  }

  /** Where the prefix reaches into what the texts end with alike, the change ends where the prefix does. */
  lemma DiffBefore<T>(c: seq<T>, d: seq<T>, b: seq<T>, p: nat)
    requires PrefixFrom(c + b, d + b, 0) == p && Shorter(c, d) <= p
    ensures DiffOf(c + b, d + b) == Edit(p, p + |c| - Shorter(c, d), p + |d| - Shorter(c, d))
  {
    var was, now := c + b, d + b;
    var n := Shorter(was, now) - p;
    assert n <= |b|;
    SuffixReaches(c, d, b, n);
    DiffFrom(was, now, p, n);
  }

  lemma DiffFrom<T>(was: seq<T>, now: seq<T>, p: nat, n: nat)
    requires PrefixFrom(was, now, 0) == p && n == Shorter(was, now) - p && SuffixFrom(was, now, n, 0) >= n
    ensures DiffOf(was, now) == Edit(p, |was| - n, |now| - n)
  {
  }

  lemma InsertionPrefix<T>(a: seq<T>, v: seq<T>, b: seq<T>)
    ensures PrefixFrom(a + b, a + v + b, 0) == |a| + PrefixFrom(b, v + b, 0)
  {
    Regrouped(a, v, b);
    PrefixPast(a, b, v + b);
  }

  lemma DeletionPrefix<T>(a: seq<T>, x: seq<T>, b: seq<T>)
    ensures PrefixFrom(a + x + b, a + b, 0) == |a| + PrefixFrom(x + b, b, 0)
  {
    Regrouped(a, x, b);
    PrefixPast(a, x + b, b);
  }

  /**
   Text inserted at one place is diffed as an insertion of the same length, but
   further right by as much as the text after that place already agrees with
   what now follows it.
   */
  lemma InsertionDiff<T>(a: seq<T>, v: seq<T>, b: seq<T>)
    ensures var at := |a| + PrefixFrom(b, v + b, 0); DiffOf(a + b, a + v + b) == Edit(at, at, at + |v|)
  {
    var k := PrefixFrom(b, v + b, 0);
    InsertionPrefix(a, v, b);
    DiffBefore(a, a + v, b, |a| + k);
  }

  /** Text deleted at one place is diffed as a deletion of the same length, shifted likewise. */
  lemma DeletionDiff<T>(a: seq<T>, x: seq<T>, b: seq<T>)
    ensures var at := |a| + PrefixFrom(x + b, b, 0); DiffOf(a + x + b, a + b) == Edit(at, at + |x|, at)
  {
    var k := PrefixFrom(x + b, b, 0);
    DeletionPrefix(a, x, b);
    DiffBefore(a + x, a, b, |a| + k);
  }

  /** A replacement that differs at both ends from what it replaces is diffed as itself. */
  lemma ReplacementDiff<T>(a: seq<T>, x: seq<T>, y: seq<T>, b: seq<T>)
    requires x != [] && y != [] && x[0] != y[0] && x[|x| - 1] != y[|y| - 1]
    ensures DiffOf(a + x + b, a + y + b) == Edit(|a|, |a| + |x|, |a| + |y|)
  {
    var was, now := a + x + b, a + y + b;
    PrefixIs(was, now, |a|);
    assert was[|a| + |x|..] == b == now[|a| + |y|..];
    assert was[|was| - 1 - |b|] == x[|x| - 1] && now[|now| - 1 - |b|] == y[|y| - 1];
    SuffixIs(was, now, Shorter(was, now) - |a|, |b|);
  }

  /**
   No other reading of the change is shorter: whenever the new text is the old
   one with `x` replaced by `y`, the diffed ranges are no longer than `x` and `y`.
   */
  lemma DiffIsShortest<T>(a: seq<T>, x: seq<T>, y: seq<T>, b: seq<T>)
    ensures var e := DiffOf(a + x + b, a + y + b);
            |a| <= e.prefix && e.oldEnd - e.prefix <= |x| && e.newEnd - e.prefix <= |y|
  {
    var was, now := a + x + b, a + y + b;
    Regrouped(a, x, b);
    Regrouped(a, y, b);
    PrefixPast(a, x + b, y + b);
    SuffixReaches(a + x, a + y, b, Shorter(was, now) - PrefixFrom(was, now, 0));
  }

  method Diff<T(==)>(was: seq<T>, now: seq<T>) returns (e: Edit)
    ensures e == DiffOf(was, now)
  {
    var prefix := 0;
    while prefix < |was| && prefix < |now| && was[prefix] == now[prefix]
      invariant prefix <= Shorter(was, now)
      invariant PrefixFrom(was, now, 0) == PrefixFrom(was, now, prefix)
    {
      prefix := prefix + 1;
    }
    var suffix := 0;
    ghost var limit := Shorter(was, now) - prefix;
    while suffix < |was| - prefix && suffix < |now| - prefix && was[|was| - 1 - suffix] == now[|now| - 1 - suffix]
      invariant suffix <= limit
      invariant SuffixFrom(was, now, limit, 0) == SuffixFrom(was, now, limit, suffix)
    {
      suffix := suffix + 1;
    }
    e := Edit(prefix, |was| - suffix, |now| - suffix);
  }
}
