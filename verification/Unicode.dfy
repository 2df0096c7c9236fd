/**
 UTF-16 text as the composer holds it, the octets that TextEncoder gives for it,
 and the conversion of offsets between the two.
 */
module Unicode {
  import opened Bytes
  import opened Sequences
  import opened Wrappers

  /** One UTF-16 code unit. */
  type Unit = u: nat | u < 0x1_0000
  type Text = seq<Unit>

  /** A code point other than a surrogate. */
  type Scalar = c: nat | c < 0xD800 || 0xE000 <= c < 0x11_0000

  predicate High(u: Unit) { 0xD800 <= u <= 0xDBFF }
  predicate Low(u: Unit) { 0xDC00 <= u <= 0xDFFF }

  /** Offset `i` does not fall between the halves of a surrogate pair. */
  predicate Boundary(t: Text, i: nat)
    requires i <= |t|
  {
    !(0 < i < |t| && High(t[i - 1]) && Low(t[i]))
  }

  /** The unit at `i` is no surrogate, or stands beside its other half. */
  predicate Paired(t: Text, i: nat)
    requires i < |t|
  {
    && (High(t[i]) ==> i + 1 < |t| && Low(t[i + 1]))
    && (Low(t[i]) ==> 0 < i && High(t[i - 1]))
  }

  ghost predicate WellFormed(t: Text) {
    forall i: nat :: i < |t| ==> Paired(t, i)
  }

  // ------------------------------------------------------------ characters

  /** The number of units of the first character: a pair, or one unit. */
  function Width(t: Text): (n: nat)
    requires t != []
    ensures 1 <= n <= |t|
  {
    if |t| >= 2 && High(t[0]) && Low(t[1]) then 2 else 1
  }

  /** The first character; a surrogate without its other half reads as U+FFFD. */
  function First(t: Text): Scalar
    requires t != []
  {
    if Width(t) == 2 then
      var high: nat, low: nat := t[0], t[1];
      0x1_0000 + (high - 0xD800) * 0x400 + (low - 0xDC00)
    else if High(t[0]) || Low(t[0]) then 0xFFFD
    else t[0]
  }

  /** Section 3 of RFC 3629. */
  function Octets(c: Scalar): (r: seq<Byte>)
    ensures 1 <= |r| <= 4
  {
    if c < 0x80 then [c]
    else if c < 0x800 then [0xC0 + c / 0x40, 0x80 + c % 0x40]
    else if c < 0x1_0000 then [0xE0 + c / 0x1000, 0x80 + c / 0x40 % 0x40, 0x80 + c % 0x40]
    else [0xF0 + c / 0x4_0000, 0x80 + c / 0x1000 % 0x40, 0x80 + c / 0x40 % 0x40, 0x80 + c % 0x40]
  }

  function Encode(t: Text): seq<Byte> {
    if t == [] then [] else Octets(First(t)) + Encode(t[Width(t)..])
  }

  /** The low six bits of the octet at `i`. */
  function Tail(s: seq<Byte>, i: nat): nat
    requires i < |s|
  {
    s[i] % 0x40
  }

  /** Reads one character back from the front of a string of octets. */
  function ReadOctets(s: seq<Byte>): Option<(nat, nat)>
    requires s != []
  {
    var lead: nat := s[0];
    if lead < 0x80 then Some((lead, 1))
    else if |s| >= 2 && 0xC0 <= lead < 0xE0 then Some(((lead - 0xC0) * 0x40 + Tail(s, 1), 2))
    else if |s| >= 3 && 0xE0 <= lead < 0xF0 then Some(((lead - 0xE0) * 0x1000 + Tail(s, 1) * 0x40 + Tail(s, 2), 3))
    else if |s| >= 4 && 0xF0 <= lead then
      Some(((lead - 0xF0) * 0x4_0000 + Tail(s, 1) * 0x1000 + Tail(s, 2) * 0x40 + Tail(s, 3), 4))
    else None
  }

  lemma SixBits(x: nat)
    ensures x == x / 0x40 * 0x40 + x % 0x40
    ensures (0x80 + x % 0x40) % 0x40 == x % 0x40
    ensures x / 0x40 / 0x40 == x / 0x1000 && x / 0x1000 / 0x40 == x / 0x4_0000
  {
  }

  /** Octets are read back as the character they came from, whatever follows them. */
  lemma OctetsReadBack(c: Scalar, rest: seq<Byte>)
    ensures ReadOctets(Octets(c) + rest) == Some((c, |Octets(c)|))
  {
    var s := Octets(c) + rest;
    assert forall i :: 0 <= i < |Octets(c)| ==> s[i] == Octets(c)[i];
    SixBits(c);
    SixBits(c / 0x40);
    SixBits(c / 0x1000);
  }

  /** Section 2.1 of RFC 2781. */
  function Units(c: Scalar): (r: Text)
    ensures 1 <= |r| <= 2
  {
    if c < 0x1_0000 then [c] else [0xD800 + (c - 0x1_0000) / 0x400, 0xDC00 + (c - 0x1_0000) % 0x400]
  }

  function Utf16(cs: seq<Scalar>): Text {
    if cs == [] then [] else Units(cs[0]) + Utf16(cs[1..])
  }

  function Utf8(cs: seq<Scalar>): seq<Byte> {
    if cs == [] then [] else Octets(cs[0]) + Utf8(cs[1..])
  }

  // ---------------------------------------------------- Unicode strings

  /** The UTF-8 form of a string of characters. */
  function Utf8Of(t: string): seq<Byte> {
    if t == [] then [] else Octets(t[0] as int) + Utf8Of(t[1..])
  }

  lemma {:induction false} Utf8OfInjective(a: string, b: string)
    requires Utf8Of(a) == Utf8Of(b)
    ensures a == b
  {
    if a != [] && b != [] {
      OctetsReadBack(a[0] as int, Utf8Of(a[1..]));
      OctetsReadBack(b[0] as int, Utf8Of(b[1..]));
      SamePrefix(Octets(a[0] as int), Utf8Of(a[1..]), Octets(b[0] as int), Utf8Of(b[1..]));
      Utf8OfInjective(a[1..], b[1..]);
      assert a == [a[0]] + a[1..] && b == [b[0]] + b[1..];
    }
  }

  /** Only the null character is written with a zero octet. */
  lemma {:induction false} Utf8OfNonZero(t: string)
    requires forall i :: 0 <= i < |t| ==> t[i] as int != 0
    ensures forall i :: 0 <= i < |Utf8Of(t)| ==> Utf8Of(t)[i] != 0
  {
    if t != [] { Utf8OfNonZero(t[1..]); }
  }

  // ------------------------------------------------- well-formed text

  lemma PairUnits(high: Unit, low: Unit)
    requires High(high) && Low(low)
    ensures Units(First([high, low])) == [high, low]
  {
  }

  lemma WellFormedFront(t: Text)
    requires t != [] && WellFormed(t)
    ensures WellFormed(t[Width(t)..]) && Units(First(t)) == t[..Width(t)]
  {
    var w, rest := Width(t), t[Width(t)..];
    assert Paired(t, 0) && Paired(t, w - 1);
    forall i: nat | i < |rest| ensures Paired(rest, i) {
      assert Paired(t, i + w);
    }
    if w == 2 { PairUnits(t[0], t[1]); }
  }

  lemma FrontWritten(c: Scalar, cs: seq<Scalar>)
    ensures Utf16([c] + cs) == Units(c) + Utf16(cs) && Utf8([c] + cs) == Octets(c) + Utf8(cs)
  {
    assert ([c] + cs)[1..] == cs;
  }

  /** Some sequence of characters is written as `t` in UTF-16 and as `Encode(t)` in UTF-8. */
  lemma {:induction false} WellFormedDecodes(t: Text) returns (cs: seq<Scalar>)
    requires WellFormed(t)
    ensures Utf16(cs) == t && Utf8(cs) == Encode(t)
    decreases |t|
  {
    if t == [] {
      cs := [];
    } else {
      WellFormedFront(t);
      var tail := WellFormedDecodes(t[Width(t)..]);
      cs := [First(t)] + tail;
      FrontWritten(First(t), tail);
      assert t == t[..Width(t)] + t[Width(t)..];
    }
  }

  lemma {:induction false} Utf16WellFormed(cs: seq<Scalar>)
    ensures WellFormed(Utf16(cs))
  {
    if cs != [] {
      Utf16WellFormed(cs[1..]);
      var u, rest := Units(cs[0]), Utf16(cs[1..]);
      forall i: nat | i < |u + rest| ensures Paired(u + rest, i) {
        if i >= |u| { assert Paired(rest, i - |u|); }
      }
    }
  }

  /** Well-formed texts are exactly the UTF-16 forms of sequences of characters. */
  lemma WellFormedIsUtf16(t: Text)
    ensures WellFormed(t) <==> exists cs :: Utf16(cs) == t
  {
    if WellFormed(t) {
      var cs := WellFormedDecodes(t);
    }
    forall cs | Utf16(cs) == t ensures WellFormed(t) {
      Utf16WellFormed(cs);
    }
  }

  /** Different well-formed texts have different octets. */
  lemma {:induction false} EncodeInjective(a: Text, b: Text)
    requires WellFormed(a) && WellFormed(b) && Encode(a) == Encode(b)
    ensures a == b
    decreases |a|
  {
    if a != [] && b != [] {
      var v, w := Width(a), Width(b);
      OctetsReadBack(First(a), Encode(a[v..]));
      OctetsReadBack(First(b), Encode(b[w..]));
      SamePrefix(Octets(First(a)), Encode(a[v..]), Octets(First(b)), Encode(b[w..]));
      WellFormedFront(a);
      WellFormedFront(b);
      EncodeInjective(a[v..], b[w..]);
      assert a == a[..v] + a[v..] && b == b[..w] + b[w..];
    }
  }

  lemma WellFormedSlice(t: Text, i: nat, j: nat)
    requires WellFormed(t) && i <= j <= |t| && Boundary(t, i) && Boundary(t, j)
    ensures WellFormed(t[i..j])
  {
    forall k: nat | k < |t[i..j]| ensures Paired(t[i..j], k) {
      assert Paired(t, i + k);
    }
  }

  method HasUnpairedSurrogate(t: Text) returns (unpaired: bool)
    ensures unpaired <==> !WellFormed(t)
  {
    var index := 0;
    while index < |t|
      invariant 0 <= index <= |t|
      invariant 0 < index ==> !High(t[index - 1])
      invariant forall i: nat :: i < index ==> Paired(t, i)
    {
      var unit := t[index];
      if High(unit) {
        if !(index + 1 < |t| && Low(t[index + 1])) {
          assert !Paired(t, index);
          return true;
        }
        index := index + 1;
      } else if Low(unit) {
        assert !Paired(t, index);
        return true;
      }
      index := index + 1;
    }
    return false;
  }

  // ------------------------------------------------------------- offsets

  function Utf8Offset(t: Text, i: nat): nat
    requires i <= |t|
  {
    |Encode(t[..i])|
  }

  /** Encoding goes piece by piece, unless the cut separates the halves of a pair. */
  lemma {:induction false} EncodeConcat(a: Text, b: Text)
    requires Boundary(a + b, |a|)
    ensures Encode(a + b) == Encode(a) + Encode(b)
    decreases |a|
  {
    if a == [] {
      assert a + b == b;
    } else {
      var w := Width(a);
      FrontConcat(a, b);
      assert Boundary(a[w..] + b, |a[w..]|) by { assert (a + b)[w..] == a[w..] + b; }
      EncodeConcat(a[w..], b);
      Regrouped(Octets(First(a)), Encode(a[w..]), Encode(b));
    }
  }

  lemma FrontConcat(a: Text, b: Text)
    requires a != [] && Boundary(a + b, |a|)
    ensures Width(a + b) == Width(a) && First(a + b) == First(a) && (a + b)[Width(a)..] == a[Width(a)..] + b
  {
  }

  lemma SliceEncodes(t: Text, i: nat, j: nat)
    requires i <= j <= |t| && Boundary(t, i) && Boundary(t, j)
    ensures Utf8Offset(t, i) <= Utf8Offset(t, j) <= |Encode(t)|
    ensures Encode(t)[Utf8Offset(t, i)..Utf8Offset(t, j)] == Encode(t[i..j])
  {
    assert t == t[..j] + t[j..] && t[..j] == t[..i] + t[i..j];
    EncodeConcat(t[..j], t[j..]);
    EncodeConcat(t[..i], t[i..j]);
  }

  /** Later boundaries have greater offsets, so an offset names at most one boundary. */
  lemma OffsetsIncrease(t: Text, i: nat, j: nat)
    requires i < j <= |t| && Boundary(t, i) && Boundary(t, j)
    ensures Utf8Offset(t, i) < Utf8Offset(t, j)
  {
    OffsetAfter(t, i, j);
  }

  ghost predicate Names(t: Text, byteOffset: nat, i: nat) {
    i <= |t| && Boundary(t, i) && Utf8Offset(t, i) == byteOffset
  }

  lemma NamedOnce(t: Text, byteOffset: nat)
    ensures forall i: nat, j: nat :: Names(t, byteOffset, i) && Names(t, byteOffset, j) ==> i == j
  {
    forall i: nat, j: nat | Names(t, byteOffset, i) && Names(t, byteOffset, j) && i < j ensures false {
      OffsetsIncrease(t, i, j);
    }
  }

  lemma WidthAt(t: Text, i: nat) returns (w: nat)
    requires i < |t|
    ensures w == Width(t[i..]) == if i + 1 < |t| && High(t[i]) && Low(t[i + 1]) then 2 else 1
  {
    w := Width(t[i..]);
  }

  /** The next boundary after `i` is one character on. */
  lemma NextBoundary(t: Text, i: nat)
    requires i < |t| && Boundary(t, i)
    ensures var w := Width(t[i..]);
            && i + w <= |t| && Boundary(t, i + w)
            && Utf8Offset(t, i + w) == Utf8Offset(t, i) + |Encode(t[i..i + w])|
            && forall k :: i < k < i + w ==> !Boundary(t, k)
  {
    var w := WidthAt(t, i);
    OffsetAfter(t, i, i + w);
  }

  lemma OffsetAfter(t: Text, i: nat, j: nat)
    requires i <= j <= |t| && Boundary(t, i)
    ensures Utf8Offset(t, j) == Utf8Offset(t, i) + |Encode(t[i..j])|
  {
    assert t[..j] == t[..i] + t[i..j];
    EncodeConcat(t[..i], t[i..j]);
  }

  lemma NotBetween(t: Text, i: nat, next: nat, byteOffset: nat, k: nat)
    requires i < next <= |t| && Boundary(t, i) && Boundary(t, next) && k <= |t| && Boundary(t, k) && !(i < k < next)
    requires Utf8Offset(t, i) < byteOffset < Utf8Offset(t, next)
    ensures Utf8Offset(t, k) != byteOffset
  {
    if k < i { OffsetsIncrease(t, k, i); }
    if next < k { OffsetsIncrease(t, next, k); }
  }

  /** No boundary has an offset inside the octets of the character at `i`. */
  lemma InsideCharacter(t: Text, i: nat, byteOffset: nat)
    requires i < |t| && Boundary(t, i)
    requires var w := Width(t[i..]); Utf8Offset(t, i) < byteOffset < Utf8Offset(t, i) + |Encode(t[i..i + w])|
    ensures forall k: nat :: !Names(t, byteOffset, k)
  {
    NextBoundary(t, i);
    forall k: nat | Names(t, byteOffset, k) ensures false {
      NotBetween(t, i, i + Width(t[i..]), byteOffset, k);
    }
  }

  /** Cutting a pair in two gives an offset inside its octets, so only a boundary has the offset of a boundary. */
  lemma OffsetOfBoundary(t: Text, i: nat, k: nat)
    requires i <= |t| && Names(t, Utf8Offset(t, i), k)
    ensures k == i
  {
    if Boundary(t, i) {
      NamedOnce(t, Utf8Offset(t, i));
      assert Names(t, Utf8Offset(t, i), i);
    } else {
      CutPair(t, i);
      InsideCharacter(t, i - 1, Utf8Offset(t, i));
    }
  }

  lemma CutPair(t: Text, i: nat)
    requires i <= |t| && !Boundary(t, i)
    ensures 0 < i < |t| && Boundary(t, i - 1) && Width(t[i - 1..]) == 2
    ensures Utf8Offset(t, i) == Utf8Offset(t, i - 1) + 3 && |Encode(t[i - 1..i + 1])| == 4
  {
    OffsetAfter(t, i - 1, i);
    var high, pair := t[i - 1..i], t[i - 1..i + 1];
    assert high == [t[i - 1]] && high[1..] == [] && pair == [t[i - 1], t[i]] && pair[2..] == [];
    assert First(high) == 0xFFFD && First(pair) >= 0x1_0000;
  }

  lemma BeyondEnd(t: Text, byteOffset: nat)
    requires Utf8Offset(t, |t|) < byteOffset
    ensures forall k: nat :: !Names(t, byteOffset, k)
  {
    forall k: nat | Names(t, byteOffset, k) ensures false {
      if k < |t| { OffsetsIncrease(t, k, |t|); }
    }
  }

  /** The boundary with the given octet offset, if there is one. */
  method Utf16Offset(t: Text, byteOffset: nat) returns (r: Option<nat>)
    ensures forall i: nat :: Names(t, byteOffset, i) <==> r == Some(i)
  {
    NamedOnce(t, byteOffset);
    var bytes: nat, units: nat := 0, 0;
    while units < |t|
      invariant Names(t, bytes, units) && bytes <= byteOffset
    {
      if bytes == byteOffset { return Some(units); }
      var w := Width(t[units..]);
      var octets := |Encode(t[units..units + w])|;
      if bytes + octets > byteOffset { InsideCharacter(t, units, byteOffset); }
      NextBoundary(t, units);
      bytes, units := bytes + octets, units + w;
      if bytes > byteOffset { return None; }
    }
    if bytes == byteOffset { return Some(units); }
    BeyondEnd(t, byteOffset);
    return None;
  }
}
