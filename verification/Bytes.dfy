/** Octets, and the fixed-width integers that the formats below are built from. */
module Bytes {
  type Byte = b: nat | b < 0x100
  type U32 = x: nat | x < 0x1_0000_0000
  type U64 = x: nat | x < 0x1_0000_0000_0000_0000

  /** The `n` low octets of `x`, least significant first. */
  function LittleEndian(x: nat, n: nat): (r: seq<Byte>)
    ensures |r| == n
    decreases x, n
  {
    if n == 0 then [] else [x % 0x100] + LittleEndian(x / 0x100, n - 1)
  }

  function FromLittleEndian(s: seq<Byte>): nat {
    if s == [] then 0 else s[0] + 0x100 * FromLittleEndian(s[1..])
  }

  /** The same octets, most significant first. */
  function BigEndian(x: nat, n: nat): (r: seq<Byte>)
    ensures |r| == n
    decreases x, n
  {
    if n == 0 then [] else BigEndian(x / 0x100, n - 1) + [x % 0x100]
  }

  function FromBigEndian(s: seq<Byte>): nat {
    if s == [] then 0 else 0x100 * FromBigEndian(s[..|s| - 1]) + s[|s| - 1]
  }

  /** The number of values of `n` octets. */
  function Capacity(n: nat): (r: nat)
    ensures r > 0
  {
    if n == 0 then 1 else 0x100 * Capacity(n - 1)
  }

  lemma {:induction false} LittleEndianReads(x: nat, n: nat)
    requires x < Capacity(n)
    ensures FromLittleEndian(LittleEndian(x, n)) == x
    decreases n
  {
    if n > 0 {
      LittleEndianReads(x / 0x100, n - 1);
      assert LittleEndian(x, n)[1..] == LittleEndian(x / 0x100, n - 1);
    }
  }

  lemma {:induction false} BigEndianReads(x: nat, n: nat)
    requires x < Capacity(n)
    ensures FromBigEndian(BigEndian(x, n)) == x
    decreases n
  {
    if n > 0 {
      BigEndianReads(x / 0x100, n - 1);
      assert BigEndian(x, n)[..n - 1] == BigEndian(x / 0x100, n - 1);
    }
  }

  lemma Capacities()
    ensures Capacity(1) == 0x100 && Capacity(2) == 0x1_0000
    ensures Capacity(4) == 0x1_0000_0000 && Capacity(8) == 0x1_0000_0000_0000_0000
  {
  }

  /** Two equal concatenations whose first parts are equally long have equal parts. */
  lemma SamePrefix<T>(a: seq<T>, b: seq<T>, c: seq<T>, d: seq<T>)
    requires a + b == c + d && |a| == |c|
    ensures a == c && b == d
  {
    assert (a + b)[..|a|] == a && (c + d)[..|a|] == c;
    assert (a + b)[|a|..] == b && (c + d)[|a|..] == d;
  }

  lemma BigEndianInjective(x: nat, y: nat, n: nat)
    requires x < Capacity(n) && y < Capacity(n) && BigEndian(x, n) == BigEndian(y, n)
    ensures x == y
  {
    BigEndianReads(x, n);
    BigEndianReads(y, n);
  }

  lemma LittleEndianInjective(x: nat, y: nat, n: nat)
    requires x < Capacity(n) && y < Capacity(n) && LittleEndian(x, n) == LittleEndian(y, n)
    ensures x == y
  {
    LittleEndianReads(x, n);
    LittleEndianReads(y, n);
  }
}
