/**
 * The RTCP packets of sections 6.4 to 6.7 of RFC 3550 as values, the octets the library writes for
 * them, and what its packet classes read back out of a framed packet.
 */
module RtcpFormat {
  import opened Bytes

  const TYPE_SR: byte := 200
  const TYPE_RR: byte := 201
  const TYPE_SDES: byte := 202
  const TYPE_BYE: byte := 203
  const TYPE_APP: byte := 204

  const VERSION := 2
  const HEADER_SIZE := 4
  const INFO_SIZE := 20
  const BLOCK_SIZE := 24
  const MAX_COUNT := 31

  // The length field counts words in sixteen bits, so this is the longest packet it can announce.
  const MAX_FRAME := 0x4_0000

  datatype SenderInfo = SenderInfo(ntpMsw: u32, ntpLsw: u32, rtpTimestamp: u32, packetCount: u32, octetCount: u32)

  datatype ReportBlock = ReportBlock(ssrc: u32, fractionLost: byte, packetsLost: i32, extHighSeq: u32,
                                     jitter: u32, lsr: u32, dlsr: u32)

  datatype Item = Item(id: byte, data: seq<byte>)

  datatype Chunk = Chunk(ssrc: u32, items: seq<Item>)

  datatype Packet =
    | SR(ssrc: u32, info: SenderInfo, blocks: seq<ReportBlock>)
    | RR(ssrc: u32, blocks: seq<ReportBlock>)
    | SDES(chunks: seq<Chunk>)
    | BYE(ssrcs: seq<u32>, reason: Option<seq<byte>>)
    | APP(subtype: byte, ssrc: u32, name: seq<byte>, data: seq<byte>)
    | UnknownType(raw: seq<byte>)
    | UnknownFormat(raw: seq<byte>)

  // ---------------------------------------------------------------- the 24-bit cumulative loss

  /** The low 24 bits of a two's complement count, most significant octet first. */
  function PutLost(lost: i32): (b: seq<byte>)
    ensures |b| == 3
  {
    var low := lost % 0x100_0000;
    [low / 0x1_0000] + Put16(low % 0x1_0000)
  }

  /** Bit 23 is the sign. */
  function GetLost(s: seq<byte>, i: nat): i32
    requires i + 3 <= |s|
  {
    var count := s[i] as int * 0x1_0000 + Get16(s, i + 1) as int;
    if count / 0x80_0000 % 2 != 0 then count - 0x100_0000 else count
  }

  /** What a reader of a 24-bit field makes of a 32-bit count. */
  function Wrap24(lost: i32): i32 {
    (lost + 0x80_0000) % 0x100_0000 - 0x80_0000
  }

  /** A cumulative loss count survives the 24-bit field exactly when it lies in [-2^23, 2^23). */
  lemma LostReadBack(lost: i32)
    ensures GetLost(PutLost(lost), 0) == Wrap24(lost)
    ensures GetLost(PutLost(lost), 0) == lost <==> -0x80_0000 <= lost < 0x80_0000
  {
    var low := lost % 0x100_0000;
    var b := PutLost(lost);
    assert b[1] == Put16(low % 0x1_0000)[0] && b[2] == Put16(low % 0x1_0000)[1];
    assert Get16(b, 1) == low % 0x1_0000;
    assert low / 0x80_0000 % 2 != 0 <==> low >= 0x80_0000;
  }

  // ---------------------------------------------------------------- writing

  function InfoBytes(i: SenderInfo): (b: seq<byte>)
    ensures |b| == INFO_SIZE
  {
    Put32(i.ntpMsw) + (Put32(i.ntpLsw) + (Put32(i.rtpTimestamp) + (Put32(i.packetCount) + Put32(i.octetCount))))
  }

  function BlockBytes(r: ReportBlock): (b: seq<byte>)
    ensures |b| == BLOCK_SIZE
  {
    Put32(r.ssrc) + ([r.fractionLost] + (PutLost(r.packetsLost) +
    (Put32(r.extHighSeq) + (Put32(r.jitter) + (Put32(r.lsr) + Put32(r.dlsr))))))
  }

  function ItemBytes(i: Item): seq<byte> {
    [i.id, |i.data| % 0x100] + i.data
  }

  function BlockParts(blocks: seq<ReportBlock>): (parts: seq<seq<byte>>)
    ensures |parts| == |blocks|
  {
    seq(|blocks|, i requires 0 <= i < |blocks| => BlockBytes(blocks[i]))
  }

  function ItemParts(items: seq<Item>): (parts: seq<seq<byte>>)
    ensures |parts| == |items|
  {
    seq(|items|, i requires 0 <= i < |items| => ItemBytes(items[i]))
  }

  /** A null octet ends the item list; more of them fill the chunk up to a 32-bit boundary. */
  function ChunkBytes(c: Chunk): (b: seq<byte>)
    ensures |b| % 4 == 0 && |b| >= 8
  {
    var items := Flatten(ItemParts(c.items));
    Put32(c.ssrc) + (items + Zeros(4 - |items| % 4))
  }

  function ChunkParts(chunks: seq<Chunk>): (parts: seq<seq<byte>>)
    ensures |parts| == |chunks|
  {
    seq(|chunks|, i requires 0 <= i < |chunks| => ChunkBytes(chunks[i]))
  }

  lemma ItemPartsCons(items: seq<Item>)
    requires items != []
    ensures ItemParts(items) == [ItemBytes(items[0])] + ItemParts(items[1..])
  {
  }

  lemma ChunkPartsCons(chunks: seq<Chunk>)
    requires chunks != []
    ensures ChunkParts(chunks) == [ChunkBytes(chunks[0])] + ChunkParts(chunks[1..])
  {
  }

  function ReasonBytes(reason: Option<seq<byte>>): (b: seq<byte>)
    ensures |b| % 4 == 0
  {
    match reason
    case None => []
    case Some(text) => [|text| % 0x100] + (text + Zeros(RoundUp4(|text| + 1) - (|text| + 1)))
  }

  function SsrcParts(ssrcs: seq<u32>): (parts: seq<seq<byte>>)
    ensures |parts| == |ssrcs|
  {
    seq(|ssrcs|, i requires 0 <= i < |ssrcs| => Put32(ssrcs[i]))
  }

  /** One more identifier behind those already written. */
  lemma SsrcsSnoc(ssrcs: seq<u32>, i: nat)
    requires i < |ssrcs|
    ensures Flatten(SsrcParts(ssrcs[..i + 1])) == Flatten(SsrcParts(ssrcs[..i])) + Put32(ssrcs[i])
  {
    hide Put32, Flatten;
    assert SsrcParts(ssrcs[..i + 1]) == SsrcParts(ssrcs[..i]) + [Put32(ssrcs[i])];
    FlattenSnoc(SsrcParts(ssrcs[..i]), Put32(ssrcs[i]));
  }

  /** The header of section 6.4.1: version 2, no padding; the length is in words, minus one. */
  function HeaderBytes(count: nat, ptype: byte, size: nat): (b: seq<byte>)
    requires count <= MAX_COUNT && size >= 4
    ensures |b| == HEADER_SIZE
  {
    [VERSION * 64 + count, ptype] + Put16((size / 4 - 1) % 0x1_0000)
  }

  predicate BlockShape(blocks: seq<ReportBlock>) {
    |blocks| <= MAX_COUNT
  }

  predicate ItemShape(i: Item) {
    i.id != 0 && |i.data| <= 255
  }

  predicate ItemShapes(items: seq<Item>) {
    forall k :: 0 <= k < |items| ==> ItemShape(items[k])
  }

  predicate ChunkShapes(chunks: seq<Chunk>) {
    forall k :: 0 <= k < |chunks| ==> ItemShapes(chunks[k].items)
  }

  /** The packets the builder can be asked for. */
  predicate Shape(p: Packet) {
    match p
    case SR(_, _, blocks) => BlockShape(blocks)
    case RR(_, blocks) => BlockShape(blocks)
    case SDES(chunks) => |chunks| <= MAX_COUNT && ChunkShapes(chunks)
    case BYE(ssrcs, reason) => |ssrcs| <= MAX_COUNT && (reason.Some? ==> |reason.value| <= 255)
    case APP(subtype, _, name, data) => subtype <= 31 && |name| == 4 && |data| % 4 == 0
    case UnknownType(_) => false
    case UnknownFormat(_) => false
  }

  function TypeOf(p: Packet): byte
    requires Shape(p)
  {
    match p
    case SR(_, _, _) => TYPE_SR
    case RR(_, _) => TYPE_RR
    case SDES(_) => TYPE_SDES
    case BYE(_, _) => TYPE_BYE
    case APP(_, _, _, _) => TYPE_APP
  }

  function CountOf(p: Packet): nat
    requires Shape(p)
    ensures CountOf(p) <= MAX_COUNT
  {
    match p
    case SR(_, _, blocks) => |blocks|
    case RR(_, blocks) => |blocks|
    case SDES(chunks) => |chunks|
    case BYE(ssrcs, _) => |ssrcs|
    case APP(subtype, _, _, _) => subtype
  }

  function BodyBytes(p: Packet): seq<byte>
    requires Shape(p)
  {
    match p
    case SR(ssrc, info, blocks) => Put32(ssrc) + (InfoBytes(info) + Flatten(BlockParts(blocks)))
    case RR(ssrc, blocks) => Put32(ssrc) + Flatten(BlockParts(blocks))
    case SDES(chunks) => Flatten(ChunkParts(chunks))
    case BYE(ssrcs, reason) => Flatten(SsrcParts(ssrcs)) + ReasonBytes(reason)
    case APP(_, ssrc, name, data) => Put32(ssrc) + (name + data)
  }

  function PacketBytes(p: Packet): (b: seq<byte>)
    requires Shape(p)
    ensures |b| >= HEADER_SIZE
  {
    var body := BodyBytes(p);
    HeaderBytes(CountOf(p), TypeOf(p), HEADER_SIZE + |body|) + body
  }

  lemma {:induction false} ChunksAligned(chunks: seq<Chunk>)
    ensures |Flatten(ChunkParts(chunks))| % 4 == 0
    ensures |Flatten(ChunkParts(chunks))| >= 8 * |chunks|
  {
    if chunks == [] {
      assert ChunkParts([]) == [] && Flatten([]) == [];
    } else {
      hide ChunkBytes, ChunkParts, Flatten;
      ChunkPartsCons(chunks);
      FlattenCons(ChunkBytes(chunks[0]), ChunkParts(chunks[1..]));
      ChunksAligned(chunks[1..]);
      SumAligned(|ChunkBytes(chunks[0])|, |Flatten(ChunkParts(chunks[1..]))|);
    }
  }

  lemma SumAligned(a: nat, b: nat)
    requires a % 4 == 0 && b % 4 == 0
    ensures (a + b) % 4 == 0
  {
  }

  lemma BlocksLength(blocks: seq<ReportBlock>)
    ensures |Flatten(BlockParts(blocks))| == 24 * |blocks|
  {
    FlattenWidth(BlockParts(blocks), 24);
  }

  lemma SsrcsLength(ssrcs: seq<u32>)
    ensures |Flatten(SsrcParts(ssrcs))| == 4 * |ssrcs|
  {
    FlattenWidth(SsrcParts(ssrcs), 4);
  }

  /** Every packet fills whole words. */
  lemma PacketAligned(p: Packet)
    requires Shape(p)
    ensures |BodyBytes(p)| % 4 == 0 && |PacketBytes(p)| == HEADER_SIZE + |BodyBytes(p)|
  {
    hide Flatten, BlockBytes, InfoBytes, ChunkBytes, ReasonBytes, HeaderBytes, Put32;
    match p
    case SR(_, _, blocks) => BlocksLength(blocks);
    case RR(_, blocks) => BlocksLength(blocks);
    case SDES(chunks) => ChunksAligned(chunks);
    case BYE(ssrcs, _) => SsrcsLength(ssrcs);
    case APP(_, _, _, _) =>
  }

  // ---------------------------------------------------------------- the octets of section 6.4 to 6.7, one by one

  lemma HeaderIs(count: nat, ptype: byte, size: nat)
    requires count <= MAX_COUNT && size >= 4
    ensures var b := HeaderBytes(count, ptype, size);
            b[0] == 128 + count && b[1] == ptype && b[2..4] == Put16((size / 4 - 1) % 0x1_0000)
  {
    hide Put16;
  }

  lemma KindOf(p: Packet)
    requires Shape(p)
    ensures CountOf(p) <= MAX_COUNT && HEADER_SIZE == 4
    ensures CountOf(p) == match p
                          case SR(_, _, blocks) => |blocks|
                          case RR(_, blocks) => |blocks|
                          case SDES(chunks) => |chunks|
                          case BYE(ssrcs, _) => |ssrcs|
                          case APP(subtype, _, _, _) => subtype as int
    ensures TypeOf(p) == match p
                         case SR(_, _, _) => 200
                         case RR(_, _) => 201
                         case SDES(_) => 202
                         case BYE(_, _) => 203
                         case APP(_, _, _, _) => 204
  {
  }

  lemma FrontOf(p: Packet)
    requires Shape(p)
    ensures |PacketBytes(p)| == HEADER_SIZE + |BodyBytes(p)|
    ensures PacketBytes(p)[..4] == HeaderBytes(CountOf(p), TypeOf(p), HEADER_SIZE + |BodyBytes(p)|)
  {
    hide BodyBytes, HeaderBytes;
  }

  /** The common header: version 2, a count or subtype, the packet type, and the words that follow. */
  lemma HeaderOctets(p: Packet)
    requires Shape(p)
    ensures var b := PacketBytes(p);
            && b[0] == 128 + (match p
                              case SR(_, _, blocks) => |blocks|
                              case RR(_, blocks) => |blocks|
                              case SDES(chunks) => |chunks|
                              case BYE(ssrcs, _) => |ssrcs|
                              case APP(subtype, _, _, _) => subtype as int)
            && b[1] == (match p
                        case SR(_, _, _) => 200
                        case RR(_, _) => 201
                        case SDES(_) => 202
                        case BYE(_, _) => 203
                        case APP(_, _, _, _) => 204)
            && b[2..4] == Put16((|b| / 4 - 1) % 0x1_0000) && |b| % 4 == 0
  {
    hide *;
    KindOf(p);
    PacketAligned(p);
    FrontOf(p);
    var b := PacketBytes(p);
    HeaderIs(CountOf(p), TypeOf(p), |b|);
    assert b[2..4] == b[..4][2..4];
  }

  /** A report block is six words; the second holds the fraction and the 24-bit count. */
  lemma BlockOctets(r: ReportBlock)
    ensures var b := BlockBytes(r);
            && b[0..4] == Put32(r.ssrc) && b[4] == r.fractionLost
            && b[5] as int * 0x1_0000 + b[6] as int * 0x100 + b[7] as int == r.packetsLost % 0x100_0000
            && b[8..12] == Put32(r.extHighSeq) && b[12..16] == Put32(r.jitter)
            && b[16..20] == Put32(r.lsr) && b[20..24] == Put32(r.dlsr)
  {
    hide Put32;
  }

  /** Sender information is five words. */
  lemma InfoOctets(i: SenderInfo)
    ensures var b := InfoBytes(i);
            && b[0..4] == Put32(i.ntpMsw) && b[4..8] == Put32(i.ntpLsw) && b[8..12] == Put32(i.rtpTimestamp)
            && b[12..16] == Put32(i.packetCount) && b[16..20] == Put32(i.octetCount)
  {
    hide Put32;
  }

  /** The reporter comes first, then sender information, then the blocks; a name comes before its data. */
  lemma BodyOctets(p: Packet)
    requires Shape(p) && (p.SR? || p.RR? || p.APP?)
    ensures var b := PacketBytes(p);
            && |b| >= 8 && b[4..8] == Put32(p.ssrc)
            && (p.SR? ==> |b| == 28 + 24 * |p.blocks| && b[8..28] == InfoBytes(p.info)
                          && b[28..] == Flatten(BlockParts(p.blocks)))
            && (p.RR? ==> |b| == 8 + 24 * |p.blocks| && b[8..] == Flatten(BlockParts(p.blocks)))
            && (p.APP? ==> |b| == 12 + |p.data| && b[8..12] == p.name && b[12..] == p.data)
  {
    hide Put32, InfoBytes, BlockBytes, Flatten, HeaderBytes;
    if p.SR? || p.RR? {
      BlocksLength(p.blocks);
    }
  }

  /** A chunk of one item, and a BYE with a reason: lengths in one octet, null octets up to a word. */
  lemma TextOctets(ssrc: u32, id: byte, text: seq<byte>)
    requires id != 0 && |text| == 5
    ensures ChunkBytes(Chunk(ssrc, [Item(id, text)])) == Put32(ssrc) + ([id, 5] + text + [0])
    ensures BodyBytes(BYE([ssrc], Some(text))) == Put32(ssrc) + ([5] + text + [0, 0])
  {
    hide Put32;
    assert ItemParts([Item(id, text)]) == [ItemBytes(Item(id, text))] + [];
    FlattenCons(ItemBytes(Item(id, text)), []);
    assert SsrcParts([ssrc]) == [Put32(ssrc)] + [];
    FlattenCons(Put32(ssrc), []);
    assert Zeros(1) == [0] && Zeros(2) == [0, 0];
  }
}
