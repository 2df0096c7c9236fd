/** Canonical hexadecimal: lowercase, two digits to the octet. */
module Hex {
  import opened Bytes
  import opened Sequences

  predicate IsHexDigit(c: char) { '0' <= c <= '9' || 'a' <= c <= 'f' }

  /** What the kit accepts as canonical hex. */
  predicate IsHex(t: string) {
    |t| % 2 == 0 && forall i :: 0 <= i < |t| ==> IsHexDigit(t[i])
  }

  function DigitOf(n: nat): (c: char)
    requires n < 16
    ensures IsHexDigit(c)
  {
    if n < 10 then (n + '0' as int) as char else (n - 10 + 'a' as int) as char
  }

  function ValueOf(c: char): (n: nat)
    requires IsHexDigit(c)
    ensures n < 16 && DigitOf(n) == c
  {
    if c <= '9' then c as int - '0' as int else c as int - 'a' as int + 10
  }

  function HexByte(b: Byte): string { [DigitOf(b / 16), DigitOf(b % 16)] }

  function ToHex(s: seq<Byte>): (r: string)
    ensures |r| == 2 * |s| && IsHex(r)
  {
    if s == [] then [] else HexByte(s[0]) + ToHex(s[1..])
  }

  function FromHex(t: string): (r: seq<Byte>)
    requires IsHex(t)
    ensures 2 * |r| == |t|
  {
    if t == [] then [] else [16 * ValueOf(t[0]) + ValueOf(t[1])] + FromHex(t[2..])
  }

  lemma {:induction false} FromToHex(s: seq<Byte>)
    ensures FromHex(ToHex(s)) == s
  {
    if s != [] {
      FromToHex(s[1..]);
      var t := ToHex(s);
      assert t[2..] == ToHex(s[1..]) && t[0] == DigitOf(s[0] / 16) && t[1] == DigitOf(s[0] % 16);
      DigitValue(s[0] / 16);
      DigitValue(s[0] % 16);
      assert s == [s[0]] + s[1..];
    }
  }

  lemma DigitValue(n: nat)
    requires n < 16
    ensures ValueOf(DigitOf(n)) == n
  {
  }

  lemma PairHex(high: char, low: char)
    requires IsHexDigit(high) && IsHexDigit(low)
    ensures HexByte(16 * ValueOf(high) + ValueOf(low)) == [high, low]
  {
    var x, y := ValueOf(high), ValueOf(low);
    assert (16 * x + y) / 16 == x && (16 * x + y) % 16 == y;
  }

  lemma ToHexFront(b: Byte, rest: seq<Byte>)
    ensures ToHex([b] + rest) == HexByte(b) + ToHex(rest)
  {
    assert ([b] + rest)[1..] == rest;
  }

  lemma ToFromPair(x: char, y: char, rest: string)
    requires IsHexDigit(x) && IsHexDigit(y) && IsHex(rest) && IsHex([x, y] + rest)
    ensures ToHex(FromHex([x, y] + rest)) == [x, y] + ToHex(FromHex(rest))
  {
    FromHexFront(x, y, rest);
    ToHexFront(16 * ValueOf(x) + ValueOf(y), FromHex(rest));
    PairHex(x, y);
  }

  lemma FromHexFront(x: char, y: char, rest: string)
    requires IsHexDigit(x) && IsHexDigit(y) && IsHex(rest) && IsHex([x, y] + rest)
    ensures FromHex([x, y] + rest) == [16 * ValueOf(x) + ValueOf(y)] + FromHex(rest)
  {
    assert ([x, y] + rest)[2..] == rest;
  }

  lemma {:induction false} ToHexConcat(a: seq<Byte>, b: seq<Byte>)
    ensures ToHex(a + b) == ToHex(a) + ToHex(b)
  {
    if a == [] {
      assert a + b == b;
    } else {
      var x, rest := a[0], a[1..];
      calc {
        ToHex(a + b);
        { assert a + b == [x] + (rest + b); }
        ToHex([x] + (rest + b));
        { ToHexFront(x, rest + b); }
        HexByte(x) + ToHex(rest + b);
        { ToHexConcat(rest, b); }
        HexByte(x) + (ToHex(rest) + ToHex(b));
        { Regrouped(HexByte(x), ToHex(rest), ToHex(b)); }
        HexByte(x) + ToHex(rest) + ToHex(b);
        { ToHexFront(x, rest); assert a == [x] + rest; }
        ToHex(a) + ToHex(b);
      }
    }
  }

  lemma {:induction false} ToFromHex(t: string)
    requires IsHex(t)
    ensures ToHex(FromHex(t)) == t
  {
    if t != [] {
      var x, y, rest := t[0], t[1], t[2..];
      assert t == [x, y] + rest;
      ToFromHex(rest);
      ToFromPair(x, y, rest);
    }
  }

  // ------------------------------------------------------------------ xor

  /** Bitwise exclusive or of the low `n` bits. */
  function XorBits(a: nat, b: nat, n: nat): (r: nat) {
    if n == 0 then 0 else (a % 2 + b % 2) % 2 + 2 * XorBits(a / 2, b / 2, n - 1)
  }

  function Power(n: nat): nat { if n == 0 then 1 else 2 * Power(n - 1) }

  lemma {:induction false} XorBounded(a: nat, b: nat, n: nat)
    ensures XorBits(a, b, n) < Power(n)
    decreases n
  {
    if n > 0 { XorBounded(a / 2, b / 2, n - 1); }
  }

  lemma LowBit(bit: nat, rest: nat)
    requires bit < 2
    ensures (bit + 2 * rest) % 2 == bit && (bit + 2 * rest) / 2 == rest
  {
  }

  lemma BitTwice(x: nat, y: nat)
    requires x < 2 && y < 2
    ensures ((x + y) % 2 + y) % 2 == x
  {
  }

  lemma {:induction false} XorTwice(a: nat, b: nat, n: nat)
    requires a < Power(n)
    ensures XorBits(XorBits(a, b, n), b, n) == a
    decreases n
  {
    if n > 0 {
      var rest := XorBits(a / 2, b / 2, n - 1);
      LowBit((a % 2 + b % 2) % 2, rest);
      XorTwice(a / 2, b / 2, n - 1);
      BitTwice(a % 2, b % 2);
    }
  }

  /** The bit of weight two to the `i`. */
  function Bit(a: nat, i: nat): nat { if i == 0 then a % 2 else Bit(a / 2, i - 1) }

  /** A bit of the result is set exactly where the two differ. */
  lemma {:induction false} XorBitAt(a: nat, b: nat, n: nat, i: nat)
    requires i < n
    ensures Bit(XorBits(a, b, n), i) == 1 <==> Bit(a, i) != Bit(b, i)
    decreases n
  {
    LowBit((a % 2 + b % 2) % 2, XorBits(a / 2, b / 2, n - 1));
    if i > 0 { XorBitAt(a / 2, b / 2, n - 1, i - 1); }
  }

  lemma ByteBits()
    ensures Power(8) == 0x100
  {
  }

  function XorByte(a: Byte, b: Byte): Byte {
    ByteBits();
    XorBounded(a, b, 8);
    XorBits(a, b, 8)
  }

  lemma XorByteTwice(a: Byte, b: Byte)
    ensures XorByte(XorByte(a, b), b) == a
  {
    ByteBits();
    XorTwice(a, b, 8);
  }

  // ------------------------------------------------------------- repeating

  function Repeat<T>(s: seq<T>, n: nat): (r: seq<T>)
    ensures |r| == |s| * n
  {
    if n == 0 then [] else s + Repeat(s, n - 1)
  }

  lemma {:induction false} RepeatHex(t: string, n: nat)
    requires IsHex(t) && |t| == 2
    ensures IsHex(Repeat(t, n)) && FromHex(Repeat(t, n)) == seq(n, _ => FromHex(t)[0])
  {
    if n > 0 {
      RepeatHex(t, n - 1);
      var r := Repeat(t, n);
      assert r[2..] == Repeat(t, n - 1);
      assert FromHex(r) == [FromHex(t)[0]] + FromHex(r[2..]);
    }
  }

  lemma HexConcat(a: string, b: string)
    requires IsHex(a) && IsHex(b)
    ensures IsHex(a + b)
  {
  }

  lemma {:induction false} FromHexConcat(a: string, b: string)
    requires IsHex(a) && IsHex(b)
    ensures IsHex(a + b) && FromHex(a + b) == FromHex(a) + FromHex(b)
  {
    HexConcat(a, b);
    if a == [] {
      assert a + b == b;
    } else {
      assert IsHex(a[2..]);
      FromHexConcat(a[2..], b);
      assert (a + b)[2..] == a[2..] + b;
      assert (a + b)[0] == a[0] && (a + b)[1] == a[1];
    }
  }
}
