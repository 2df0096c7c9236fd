/** The packet capture shipped with the conformance kit. */
module Pcapng {
  import opened Bytes
  import opened Wrappers

  const SECTION_HEADER: U32 := 0x0A0D_0D0A
  const INTERFACE_DESCRIPTION: U32 := 1
  const ENHANCED_PACKET: U32 := 6
  const TICKS: nat := 1_000_000

  // --------------------------------------------------------------- writing

  function Padding(n: nat): seq<Byte> { seq((4 - n % 4) % 4, _ => 0) }

  function BlockLength(body: seq<Byte>): nat { 12 + |body| + |Padding(|body|)| }

  function Frame(kind: U32, padded: seq<Byte>): seq<Byte> {
    LittleEndian(kind, 4) + (LittleEndian(12 + |padded|, 4) + (padded + LittleEndian(12 + |padded|, 4)))
  }

  function Padded(body: seq<Byte>): (r: seq<Byte>)
    ensures |r| % 4 == 0 && |r| == BlockLength(body) - 12 && body <= r
  {
    body + Padding(|body|)
  }

  /** The block with its length at both ends; none if the length needs more than four octets. */
  function BlockBytes(kind: U32, body: seq<Byte>): Option<seq<Byte>> {
    if BlockLength(body) >= 0x1_0000_0000 then None else Some(Frame(kind, Padded(body)))
  }

  const SECTION_BODY: seq<Byte> :=
    LittleEndian(0x1A2B_3C4D, 4) + LittleEndian(1, 2) + LittleEndian(0, 2)
      + [0xFF, 0xFF, 0xFF, 0xFF, 0xFF, 0xFF, 0xFF, 0xFF]

  const INTERFACE_BODY: seq<Byte> := LittleEndian(147, 2) + LittleEndian(0, 2) + LittleEndian(4 * 1024 * 1024, 4)

  function PacketBody(timestamp: nat, packet: seq<Byte>): seq<Byte> {
    LittleEndian(0, 4) + (LittleEndian(timestamp / 0x1_0000_0000, 4) + (LittleEndian(timestamp % 0x1_0000_0000, 4)
    + (LittleEndian(|packet|, 4) + (LittleEndian(|packet|, 4) + packet))))
  }

  function PacketBlock(index: nat, packet: seq<Byte>): Option<seq<Byte>> {
    if index * TICKS / 0x1_0000_0000 < 0x1_0000_0000 && |packet| < 0x1_0000_0000
    then BlockBytes(ENHANCED_PACKET, PacketBody(index * TICKS, packet)) else None
  }

  function PacketBlocks(packets: seq<seq<Byte>>, index: nat): Option<seq<Byte>> {
    if packets == [] then Some([])
    else
      var block :- PacketBlock(index, packets[0]);
      var rest :- PacketBlocks(packets[1..], index + 1);
      Some(block + rest)
  }

  function Capture(packets: seq<seq<Byte>>): Option<seq<Byte>> {
    var section :- BlockBytes(SECTION_HEADER, SECTION_BODY);
    var face :- BlockBytes(INTERFACE_DESCRIPTION, INTERFACE_BODY);
    var blocks :- PacketBlocks(packets, 1);
    Some(section + face + blocks)
  }

  method AppendPackets(head: seq<Byte>, packets: seq<seq<Byte>>) returns (r: Option<seq<Byte>>)
    ensures r.Some? == PacketBlocks(packets, 1).Some?
    ensures r.Some? ==> r.value == head + PacketBlocks(packets, 1).value
  {
    var output := head;
    for i := 0 to |packets|
      invariant PacketBlocks(packets, 1).Some? == PacketBlocks(packets[i..], i + 1).Some?
      invariant PacketBlocks(packets, 1).Some? ==>
                  head + PacketBlocks(packets, 1).value == output + PacketBlocks(packets[i..], i + 1).value
    {
      assert packets[i..][1..] == packets[i + 1..];
      var block := PacketBlock(i + 1, packets[i]);
      if block.None? { return None; }
      output := output + block.value;
    }
    return Some(output);
  }

  method BuildPcap(packets: seq<seq<Byte>>) returns (r: Option<seq<Byte>>)
    ensures r == Capture(packets)
  {
    var section := BlockBytes(SECTION_HEADER, SECTION_BODY);
    var face := BlockBytes(INTERFACE_DESCRIPTION, INTERFACE_BODY);
    if section.None? || face.None? { return None; }
    r := AppendPackets(section.value + face.value, packets);
  }

  // --------------------------------------------------------------- reading

  datatype Block = Block(kind: nat, body: seq<Byte>)

  /** Section 3.1 of draft-ietf-opsawg-pcapng: a block's length is a multiple of four and stands at both its ends. */
  function ReadBlock(s: seq<Byte>): (r: Option<(Block, seq<Byte>)>)
    ensures r.Some? ==> |r.value.1| < |s|
  {
    if |s| < 12 then None else
    var n := FromLittleEndian(s[4..8]);
    if n < 12 || n % 4 != 0 || n > |s| || FromLittleEndian(s[n - 4..n]) != n then None
    else Some((Block(FromLittleEndian(s[..4]), s[8..n - 4]), s[n..]))
  }

  function ReadBlocks(s: seq<Byte>): Option<seq<Block>>
    decreases |s|
  {
    if s == [] then Some([])
    else
      var (block, rest) :- ReadBlock(s);
      var blocks :- ReadBlocks(rest);
      Some([block] + blocks)
  }

  datatype Packet = Packet(timestamp: nat, data: seq<Byte>)

  /** An enhanced packet block: interface, timestamp in two halves, captured and original length, data. */
  function ReadPacket(b: Block): Option<Packet> {
    if b.kind != ENHANCED_PACKET || |b.body| < 20 then None else
    var high, low := FromLittleEndian(b.body[4..8]), FromLittleEndian(b.body[8..12]);
    var n := FromLittleEndian(b.body[12..16]);
    if 20 + n > |b.body| then None else Some(Packet(high * 0x1_0000_0000 + low, b.body[20..20 + n]))
  }

  lemma FrameReads(kind: U32, padded: seq<Byte>, rest: seq<Byte>)
    requires |padded| % 4 == 0 && 12 + |padded| < 0x1_0000_0000
    ensures ReadBlock(Frame(kind, padded) + rest) == Some((Block(kind, padded), rest))
  {
    Capacities();
    var n := 12 + |padded|;
    LittleEndianReads(kind, 4);
    LittleEndianReads(n, 4);
    FrameSlices(LittleEndian(kind, 4), LittleEndian(n, 4), padded, LittleEndian(n, 4), rest);
  }

  lemma FrameSlices(a: seq<Byte>, b: seq<Byte>, body: seq<Byte>, c: seq<Byte>, rest: seq<Byte>)
    requires |a| == |b| == |c| == 4
    ensures var s := a + (b + (body + c)) + rest;
            var n := 12 + |body|;
            && |s| == n + |rest| && s[..4] == a && s[4..8] == b && s[8..n - 4] == body && s[n - 4..n] == c
            && s[n..] == rest
  {
  }

  lemma BlockReads(kind: U32, body: seq<Byte>, rest: seq<Byte>)
    requires BlockBytes(kind, body).Some?
    ensures ReadBlocks(rest).Some? ==>
              ReadBlocks(BlockBytes(kind, body).value + rest) ==
                Some([Block(kind, Padded(body))] + ReadBlocks(rest).value)
  {
    FrameReads(kind, Padded(body), rest);
  }

  /** The number of four-octet words in a block. */
  function Words(body: seq<Byte>): nat { 3 + |Padded(body)| / 4 }

  lemma BlockWords(kind: U32, body: seq<Byte>)
    requires BlockBytes(kind, body).Some?
    ensures |BlockBytes(kind, body).value| == 4 * Words(body)
  {
  }

  lemma PacketReads(timestamp: nat, packet: seq<Byte>, padding: seq<Byte>)
    requires timestamp / 0x1_0000_0000 < 0x1_0000_0000 && |packet| < 0x1_0000_0000
    ensures ReadPacket(Block(ENHANCED_PACKET, PacketBody(timestamp, packet) + padding)) ==
            Some(Packet(timestamp, packet))
  {
    Capacities();
    LittleEndianReads(timestamp / 0x1_0000_0000, 4);
    LittleEndianReads(timestamp % 0x1_0000_0000, 4);
    LittleEndianReads(|packet|, 4);
    PacketSlices(LittleEndian(0, 4), LittleEndian(timestamp / 0x1_0000_0000, 4),
                 LittleEndian(timestamp % 0x1_0000_0000, 4), LittleEndian(|packet|, 4), LittleEndian(|packet|, 4),
                 packet, padding);
  }

  lemma PacketSlices(a: seq<Byte>, b: seq<Byte>, c: seq<Byte>, d: seq<Byte>, e: seq<Byte>, data: seq<Byte>,
      rest: seq<Byte>)
    requires |a| == |b| == |c| == |d| == |e| == 4
    ensures var s := a + (b + (c + (d + (e + data)))) + rest;
            && |s| == 20 + |data| + |rest| && s[4..8] == b && s[8..12] == c && s[12..16] == d
            && s[20..20 + |data|] == data
  {
  }

  function PacketAt(index: nat, packet: seq<Byte>): Block {
    Block(ENHANCED_PACKET, Padded(PacketBody(index * TICKS, packet)))
  }

  function PacketsFrom(packets: seq<seq<Byte>>, index: nat): seq<Block> {
    if packets == [] then [] else [PacketAt(index, packets[0])] + PacketsFrom(packets[1..], index + 1)
  }

  lemma PacketBlockReads(index: nat, packet: seq<Byte>, rest: seq<Byte>)
    requires PacketBlock(index, packet).Some?
    ensures ReadBlocks(rest).Some? ==>
              ReadBlocks(PacketBlock(index, packet).value + rest) ==
                Some([PacketAt(index, packet)] + ReadBlocks(rest).value)
  {
    BlockReads(ENHANCED_PACKET, PacketBody(index * TICKS, packet), rest);
  }

  lemma {:induction false} PacketBlocksRead(packets: seq<seq<Byte>>, index: nat)
    requires PacketBlocks(packets, index).Some?
    ensures ReadBlocks(PacketBlocks(packets, index).value) == Some(PacketsFrom(packets, index))
    decreases |packets|
  {
    if packets != [] {
      var block, rest := PacketBlock(index, packets[0]).value, PacketBlocks(packets[1..], index + 1).value;
      assert ReadBlocks(rest) == Some(PacketsFrom(packets[1..], index + 1)) by {
        PacketBlocksRead(packets[1..], index + 1);
      }
      assert ReadBlocks(block + rest) == Some([PacketAt(index, packets[0])] + ReadBlocks(rest).value) by {
        PacketBlockReads(index, packets[0], rest);
      }
      assert PacketBlocks(packets, index).value == block + rest;
    }
  }

  /** The number of four-octet words in all the packet blocks. */
  function PacketWords(packets: seq<seq<Byte>>, index: nat): nat {
    if packets == [] then 0 else Words(PacketBody(index * TICKS, packets[0])) + PacketWords(packets[1..], index + 1)
  }

  lemma {:induction false} PacketBlocksWords(packets: seq<seq<Byte>>, index: nat)
    requires PacketBlocks(packets, index).Some?
    ensures |PacketBlocks(packets, index).value| == 4 * PacketWords(packets, index)
    decreases |packets|
  {
    if packets != [] {
      PacketBlocksWords(packets[1..], index + 1);
      BlockWords(ENHANCED_PACKET, PacketBody(index * TICKS, packets[0]));
    }
  }

  /** What a reader makes of the packet blocks. */
  function ReadPackets(blocks: seq<Block>): Option<seq<Packet>> {
    if blocks == [] then Some([])
    else
      var first :- ReadPacket(blocks[0]);
      var rest :- ReadPackets(blocks[1..]);
      Some([first] + rest)
  }

  /** The packets with one tick of a second between them, the first at `index`. */
  function Stamped(packets: seq<seq<Byte>>, index: nat): seq<Packet> {
    if packets == [] then [] else [Packet(index * TICKS, packets[0])] + Stamped(packets[1..], index + 1)
  }

  lemma {:induction false} PacketsRead(packets: seq<seq<Byte>>, index: nat)
    requires PacketBlocks(packets, index).Some?
    ensures ReadPackets(PacketsFrom(packets, index)) == Some(Stamped(packets, index))
    decreases |packets|
  {
    if packets != [] {
      PacketsRead(packets[1..], index + 1);
      var body := PacketBody(index * TICKS, packets[0]);
      PacketReads(index * TICKS, packets[0], Padding(|body|));
      assert PacketsFrom(packets, index)[1..] == PacketsFrom(packets[1..], index + 1);
    }
  }

  lemma HeadBlocks()
    ensures Padded(SECTION_BODY) == SECTION_BODY && Padded(INTERFACE_BODY) == INTERFACE_BODY
  {
  }

  /**
   The capture is a whole number of four-octet words that a reader walks block by
   block to its exact end, finding one section, one interface and the packets in
   order, each with its data and its timestamp.
   */
  lemma CaptureReads(packets: seq<seq<Byte>>)
    requires Capture(packets).Some?
    ensures |Capture(packets).value| == 4 * (Words(SECTION_BODY) + Words(INTERFACE_BODY) + PacketWords(packets, 1))
    ensures var blocks := ReadBlocks(Capture(packets).value);
            && blocks.Some? && |blocks.value| >= 2
            && blocks.value[0] == Block(SECTION_HEADER, SECTION_BODY)
            && blocks.value[1] == Block(INTERFACE_DESCRIPTION, INTERFACE_BODY)
            && ReadPackets(blocks.value[2..]) == Some(Stamped(packets, 1))
  {
    var tail := PacketBlocks(packets, 1).value;
    PacketBlocksWords(packets, 1);
    PacketBlocksRead(packets, 1);
    PacketsRead(packets, 1);
    HeadBlocks();
    TwoBlocks(SECTION_HEADER, SECTION_BODY, INTERFACE_DESCRIPTION, INTERFACE_BODY, tail);
    BlockWords(SECTION_HEADER, SECTION_BODY);
    BlockWords(INTERFACE_DESCRIPTION, INTERFACE_BODY);
  }

  lemma TwoBlocks(k: U32, b: seq<Byte>, l: U32, c: seq<Byte>, tail: seq<Byte>)
    requires BlockBytes(k, b).Some? && BlockBytes(l, c).Some? && ReadBlocks(tail).Some?
    ensures var r := ReadBlocks(BlockBytes(k, b).value + BlockBytes(l, c).value + tail);
            && r.Some? && |r.value| >= 2 && r.value[0] == Block(k, Padded(b)) && r.value[1] == Block(l, Padded(c))
            && r.value[2..] == ReadBlocks(tail).value
  {
    var x, y := BlockBytes(k, b).value, BlockBytes(l, c).value;
    assert x + y + tail == x + (y + tail);
    assert ReadBlocks(y + tail) == Some([Block(l, Padded(c))] + ReadBlocks(tail).value) by { BlockReads(l, c, tail); }
    assert ReadBlocks(x + (y + tail)) ==
           Some([Block(k, Padded(b))] + ReadBlocks(y + tail).value) by { BlockReads(k, b, y + tail); }
    HeadAndPackets(Block(k, Padded(b)), Block(l, Padded(c)), ReadBlocks(tail).value);
  }

  lemma HeadAndPackets(a: Block, b: Block, rest: seq<Block>)
    ensures var all := [a] + ([b] + rest); |all| >= 2 && all[0] == a && all[1] == b && all[2..] == rest
  {
  }

  /** Packet number `index` can be framed: its block and its timestamp fit their fields. */
  predicate Fits(index: nat, packet: seq<Byte>) {
    |packet| <= 0xFFFF_FFDC && index * TICKS < 0x1_0000_0000_0000_0000
  }

  lemma PacketBlockExists(index: nat, packet: seq<Byte>)
    ensures PacketBlock(index, packet).Some? <==> Fits(index, packet)
  {
  }

  predicate AllFit(packets: seq<seq<Byte>>, index: nat) {
    forall i :: 0 <= i < |packets| ==> Fits(index + i, packets[i])
  }

  lemma AllFitRest(packets: seq<seq<Byte>>, index: nat)
    requires packets != []
    ensures AllFit(packets, index) <==> Fits(index, packets[0]) && AllFit(packets[1..], index + 1)
  {
  }

  lemma {:induction false} PacketBlocksExist(packets: seq<seq<Byte>>, index: nat)
    ensures PacketBlocks(packets, index).Some? <==> AllFit(packets, index)
    decreases |packets|
  {
    if packets != [] {
      PacketBlockExists(index, packets[0]);
      PacketBlocksExist(packets[1..], index + 1);
      AllFitRest(packets, index);
    }
  }

  /** A capture is built exactly when every packet can be framed. */
  lemma CaptureExists(packets: seq<seq<Byte>>)
    ensures Capture(packets).Some? <==> AllFit(packets, 1)
  {
    PacketBlocksExist(packets, 1);
  }
}
