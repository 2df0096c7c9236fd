/** Splitting, joining and comparing strings. */
module Strings {

  /** The parts between separators. */
  function Split(t: string, c: char): (r: seq<string>)
    ensures r != []
  {
    if t == [] then [[]]
    else
      var rest := Split(t[1..], c);
      if t[0] == c then [[]] + rest else [[t[0]] + rest[0]] + rest[1..]
  }

  lemma {:induction false} SplitAt(a: string, rest: string, c: char)
    requires c !in a
    ensures Split(a + [c] + rest, c) == [a] + Split(rest, c)
    ensures Split(a, c) == [a]
  {
    if a == [] {
      assert (a + [c] + rest)[1..] == rest;
    } else {
      SplitAt(a[1..], rest, c);
      assert (a + [c] + rest)[1..] == a[1..] + [c] + rest;
      assert a == [a[0]] + a[1..];
    }
  }

  function Join(parts: seq<string>, c: char): string {
    if parts == [] then [] else if |parts| == 1 then parts[0] else parts[0] + [c] + Join(parts[1..], c)
  }

  /** The parts of a string hold no separator, and joined they are the string. */
  lemma {:induction false} SplitJoins(t: string, c: char)
    ensures Join(Split(t, c), c) == t
    ensures forall i :: 0 <= i < |Split(t, c)| ==> c !in Split(t, c)[i]
  {
    if t != [] {
      var rest, all := Split(t[1..], c), Split(t, c);
      SplitJoins(t[1..], c);
      assert t == [t[0]] + t[1..];
      if t[0] == c {
        assert all[1..] == rest;
      } else {
        assert all[1..] == rest[1..];
        JoinGrows([t[0]], rest, c);
      }
    }
  }

  lemma JoinGrows(head: string, parts: seq<string>, c: char)
    requires parts != []
    ensures Join([head + parts[0]] + parts[1..], c) == head + Join(parts, c)
  {
    var all := [head + parts[0]] + parts[1..];
    assert all[1..] == parts[1..];
    if |parts| > 1 {
      assert head + parts[0] + [c] + Join(parts[1..], c) == head + (parts[0] + [c] + Join(parts[1..], c));
    }
  }

  lemma {:induction false} SplitConcat(a: string, b: string, c: char)
    ensures Split(a + [c] + b, c) == Split(a, c) + Split(b, c)
  {
    var whole := a + [c] + b;
    if a == [] {
      assert whole[1..] == b;
    } else {
      SplitConcat(a[1..], b, c);
      assert whole[0] == a[0] && whole[1..] == a[1..] + [c] + b;
      PartsGrow(a[0], Split(a[1..], c), Split(b, c));
    }
  }

  lemma PartsGrow(x: char, front: seq<string>, back: seq<string>)
    requires front != []
    ensures [[]] + (front + back) == [[]] + front + back
    ensures [[x] + (front + back)[0]] + (front + back)[1..] == [[x] + front[0]] + front[1..] + back
  {
    assert (front + back)[1..] == front[1..] + back;
  }

  lemma {:induction false} JoinConcat(a: seq<string>, b: seq<string>, c: char)
    requires a != [] && b != []
    ensures Join(a + b, c) == Join(a, c) + [c] + Join(b, c)
  {
    if |a| == 1 {
      assert (a + b)[1..] == b;
    } else {
      JoinConcat(a[1..], b, c);
      assert (a + b)[1..] == a[1..] + b;
    }
  }

  predicate EndsWith(t: string, suffix: string) {
    |suffix| <= |t| && t[|t| - |suffix|..] == suffix
  }

  /** Lexicographic order by code point. */
  predicate AtMost(a: string, b: string) {
    a == [] || (b != [] && (a[0] < b[0] || (a[0] == b[0] && AtMost(a[1..], b[1..]))))
  }

  lemma {:induction false} AtMostTotal(a: string, b: string)
    ensures AtMost(a, b) || AtMost(b, a)
  {
    if a != [] && b != [] { AtMostTotal(a[1..], b[1..]); }
  }

  lemma {:induction false} AtMostTransitive(a: string, b: string, c: string)
    requires AtMost(a, b) && AtMost(b, c)
    ensures AtMost(a, c)
  {
    if a != [] && a[0] == b[0] && b[0] == c[0] { AtMostTransitive(a[1..], b[1..], c[1..]); }
  }

  lemma {:induction false} AtMostAntisymmetric(a: string, b: string)
    requires AtMost(a, b) && AtMost(b, a)
    ensures a == b
  {
    if a != [] && b != [] {
      AtMostAntisymmetric(a[1..], b[1..]);
      assert a == [a[0]] + a[1..] && b == [b[0]] + b[1..];
    }
  }

  // --------------------------------------------------------------- paths

  /** A relative path in normal form, of at least two parts, the first being the root. */
  predicate Below(path: string, root: string) {
    var parts := Split(path, '/');
    |parts| >= 2 && parts[0] == root && forall i :: 0 <= i < |parts| ==> parts[i] !in {"", ".", ".."}
  }

  predicate PlainPart(part: string) { part !in {"", ".", ".."} && '/' !in part }

  /** A path lies below a root exactly if it is the root and then one or more plain parts, each behind a slash. */
  lemma BelowSpelled(path: string, root: string)
    requires PlainPart(root)
    ensures Below(path, root) <==> exists parts :: SpelledBelow(path, root, parts)
  {
    SplitJoins(path, '/');
    var all := Split(path, '/');
    if Below(path, root) {
      assert all == [root] + all[1..];
      assert SpelledBelow(path, root, all[1..]);
    }
    forall parts | SpelledBelow(path, root, parts) ensures Below(path, root) {
      var whole := [root] + parts;
      assert whole[1..] == parts && forall i :: 0 < i < |whole| ==> whole[i] in parts;
      JoinSplits(whole, '/');
    }
  }

  predicate SpelledBelow(path: string, root: string, parts: seq<string>) {
    parts != [] && (forall p :: p in parts ==> PlainPart(p)) && path == root + ['/'] + Join(parts, '/')
  }

  lemma {:induction false} JoinSplits(parts: seq<string>, c: char)
    requires parts != [] && forall p :: p in parts ==> c !in p
    ensures Split(Join(parts, c), c) == parts
  {
    if |parts| == 1 {
      SplitAt(parts[0], [], c);
    } else {
      JoinSplits(parts[1..], c);
      SplitAt(parts[0], Join(parts[1..], c), c);
      assert parts == [parts[0]] + parts[1..];
    }
  }

  // ------------------------------------------------------------- numbers

  predicate IsDigit(c: char) { '0' <= c <= '9' }

  predicate AllDigits(t: string) { forall i :: 0 <= i < |t| ==> IsDigit(t[i]) }

  function DigitValue(c: char): nat { if IsDigit(c) then c as int - '0' as int else 0 }

  /** The value of a string of decimal digits. */
  function Number(t: string): nat {
    if t == [] then 0 else 10 * Number(t[..|t| - 1]) + DigitValue(t[|t| - 1])
  }

  function Decimal(n: nat): (r: string)
    ensures r != [] && AllDigits(r)
  {
    if n < 10 then [(n + '0' as int) as char] else Decimal(n / 10) + [(n % 10 + '0' as int) as char]
  }

  lemma {:induction false} DecimalNumber(n: nat)
    ensures Number(Decimal(n)) == n
  {
    if n >= 10 {
      DecimalNumber(n / 10);
      assert Decimal(n)[..|Decimal(n)| - 1] == Decimal(n / 10);
    } else {
      assert Decimal(n)[..0] == [];
    }
  }

  /** Digits without a zero in front are the decimal form of their number. */
  lemma {:induction false} NumberDecimal(t: string)
    requires t != [] && AllDigits(t) && (t[0] != '0' || t == "0")
    ensures Decimal(Number(t)) == t && (t != "0" ==> Number(t) > 0)
  {
    var front := t[..|t| - 1];
    assert t == front + [t[|t| - 1]];
    if front != [] {
      NumberDecimal(front);
    } else {
      assert Number(front) == 0;
    }
  }

  /** The decimal form of a number has no zero in front, unless it is zero. */
  lemma {:induction false} DecimalFront(n: nat)
    ensures Decimal(n) != [] && (Decimal(n)[0] != '0' || Decimal(n) == "0")
    ensures n > 0 ==> Decimal(n)[0] != '0'
  {
    if n >= 10 { DecimalFront(n / 10); }
  }
}
