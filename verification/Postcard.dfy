/**
 The parts of the Postcard wire format that an admission descriptor uses:
 variable-length integers, tagged options, counted sequences and raw arrays.
 */
module Postcard {
  import opened Bytes
  import opened Wrappers

  /** Seven bits to an octet, least significant first; the top bit says that more follow. */
  function Varint(x: nat): (r: seq<Byte>)
    ensures r != []
  {
    if x < 0x80 then [x] else [0x80 + x % 0x80] + Varint(x / 0x80)
  }

  /** The values that fit in `n` octets of which the last is at most `last`. */
  function Limit(n: nat, last: nat): nat {
    if n == 0 then 0 else if n == 1 then last + 1 else 0x80 * Limit(n - 1, last)
  }

  /** Reads at most `n` octets, the `n`th being at most `last`. */
  function TakeVarint(s: seq<Byte>, n: nat, last: nat): (r: Option<(nat, seq<Byte>)>)
    requires last < 0x80
    ensures r.Some? ==> r.value.0 < Limit(n, last)
    decreases n
  {
    if s == [] || n == 0 then None
    else if s[0] < 0x80 then
      if n == 1 && s[0] > last then None else (LimitCovers(n, last); Some((s[0], s[1..])))
    else
      var (high, rest) :- TakeVarint(s[1..], n - 1, last);
      var low: nat := s[0] - 0x80;
      Some((low + 0x80 * high, rest))
  }

  lemma {:induction false} LimitCovers(n: nat, last: nat)
    requires n > 0
    ensures Limit(n, last) > 0 && (n > 1 ==> Limit(n, last) >= 0x80)
  {
    if n > 1 { LimitCovers(n - 1, last); }
  }

  lemma {:induction false} VarintReads(x: nat, n: nat, last: nat, rest: seq<Byte>)
    requires last < 0x80 && x < Limit(n, last)
    ensures TakeVarint(Varint(x) + rest, n, last) == Some((x, rest))
    ensures |Varint(x)| <= n
    decreases n
  {
    var s := Varint(x) + rest;
    if x < 0x80 {
      assert s[1..] == rest;
    } else {
      VarintReads(x / 0x80, n - 1, last, rest);
      assert s[1..] == Varint(x / 0x80) + rest;
    }
  }

  function TakeByte(s: seq<Byte>): Option<(Byte, seq<Byte>)> {
    if s == [] then None else Some((s[0], s[1..]))
  }

  function TakeArray(s: seq<Byte>, n: nat): (r: Option<(seq<Byte>, seq<Byte>)>)
    ensures r.Some? ==> |r.value.0| == n
  {
    if |s| < n then None else Some((s[..n], s[n..]))
  }

  lemma ArrayReads(a: seq<Byte>, rest: seq<Byte>)
    ensures TakeArray(a + rest, |a|) == Some((a, rest))
  {
  }

  function TakeU64(s: seq<Byte>): (r: Option<(U64, seq<Byte>)>) {
    var (x, rest) :- TakeVarint(s, 10, 1);
    WideLimits();
    Some((x, rest))
  }

  function TakeU32(s: seq<Byte>): (r: Option<(U32, seq<Byte>)>) {
    var (x, rest) :- TakeVarint(s, 5, 15);
    WideLimits();
    Some((x, rest))
  }

  lemma WideLimits()
    ensures Limit(10, 1) == 0x1_0000_0000_0000_0000 && Limit(5, 15) == 0x1_0000_0000
  {
  }

  lemma U64Reads(x: U64, rest: seq<Byte>)
    ensures TakeU64(Varint(x) + rest) == Some((x, rest)) && |Varint(x)| <= 10
  {
    WideLimits();
    VarintReads(x, 10, 1, rest);
  }

  lemma U32Reads(x: U32, rest: seq<Byte>)
    ensures TakeU32(Varint(x) + rest) == Some((x, rest)) && |Varint(x)| <= 5
  {
    WideLimits();
    VarintReads(x, 5, 15, rest);
  }
}
