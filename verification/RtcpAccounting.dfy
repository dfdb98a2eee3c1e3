/**
 * What RTCPCompoundPacketBuilder is asked for, the raw
 * buffers it keeps for it, and the sizes it predicts.
 */
module RtcpAccounting {
  import opened Bytes
  import opened RtcpFormat
  import opened RtcpCompound
  import opened RtcpWriter

  const MIN_PACKET_SIZE := 600
  const SIZE_T := 0x1_0000_0000_0000_0000

  datatype Status =
    | Success
    | AlreadyBuilding
    | AlreadyBuilt
    | SizeTooSmall
    | NotBuilding
    | AlreadyGotReport
    | ReportNotStarted
    | NoReportPresent
    | NoCurrentSource
    | InvalidItemType
    | TotalItemLengthTooBig
    | TooManySsrcs
    | IllegalSubtype
    | IllegalAppDataLength
    | AppDataLengthTooBig
    | NotEnoughBytesLeft

  datatype ItemType = NoItem | CNAME | NAME | EMAIL | PHONE | LOC | TOOL | NOTE | PRIV | UnknownItem

  const ID_PRIV: byte := 8

  /** The identifiers of section 6.5 of RFC 3550; None for the types AddSDESNormalItem refuses. */
  function ItemId(t: ItemType): (id: Option<byte>)
    ensures id.Some? ==> 0 < id.value < ID_PRIV
  {
    match t
    case CNAME => Some(1)
    case NAME => Some(2)
    case EMAIL => Some(3)
    case PHONE => Some(4)
    case LOC => Some(5)
    case TOOL => Some(6)
    case NOTE => Some(7)
    case NoItem => None
    case PRIV => None
    case UnknownItem => None
  }

  /** A PRIV item: the prefix with its length in front, then the value (section 6.5.8 of RFC 3550). */
  function PrivItem(prefix: seq<byte>, value: seq<byte>): Item
    requires |prefix| <= 255
  {
    Item(ID_PRIV, [|prefix|] + prefix + value)
  }

  /** The octets of section 6.5 of RFC 3550; PRIV carries its prefix behind the length of the prefix. */
  lemma ItemOctets(prefix: seq<byte>, value: seq<byte>)
    requires |prefix| <= 255
    ensures ItemId(CNAME) == Some(1) && ItemId(NAME) == Some(2) && ItemId(EMAIL) == Some(3) && ItemId(PHONE) == Some(4)
    ensures ItemId(LOC) == Some(5) && ItemId(TOOL) == Some(6) && ItemId(NOTE) == Some(7)
    ensures forall t :: t in {NoItem, PRIV, UnknownItem} ==> ItemId(t) == None
    ensures PrivItem(prefix, value).id == 8 && PrivItem(prefix, value).data == [|prefix|] + prefix + value
  {
  }

  /** The nested class Report: raw header and report block buffers. */
  datatype Report = Report(isSR: bool, header: seq<byte>, blocks: seq<seq<byte>>) {
    function NeededBytes(): nat {
      if blocks == [] then
        if header == [] then 0 else HEADER_SIZE + |header|
      else ReportSize(isSR, |blocks|)
    }

    function NeededBytesWithExtraReportBlock(): nat {
      ReportSize(isSR, |blocks| + 1)
    }
  }

  const NOTHING := Content(None, [], [], [], [])

  /** The number of octets a compound takes (0 for a list that is no compound). */
  ghost function Octets(ps: seq<Packet>): nat {
    if Shapes(ps) then |Wire(ps)| else 0
  }

  ghost function Size(c: Content): nat {
    Octets(Packets(c))
  }

  ghost function ReportOctets(c: Content): nat {
    Octets(HeaderPackets(c))
  }

  ghost function SdesOctets(chunks: seq<Chunk>): nat {
    Octets(SdesPackets(chunks))
  }

  lemma SizeSplit(c: Content)
    requires ContentShape(c)
    ensures Size(c) == ReportOctets(c) + SdesOctets(c.chunks) + Octets(c.apps) + Octets(c.byes)
  {
    hide PacketBytes, Wire;
    WireSplit(c);
  }

  // ---------------------------------------------------------------- raw buffers and what they stand for

  ghost predicate ReportMatches(r: Report, c: Content) {
    && r.blocks == BlockParts(c.blocks)
    && r.header == (match c.header
        case None => []
        case Some(SenderHeader(ssrc, info)) => Put32(ssrc) + InfoBytes(info)
        case Some(ReceiverHeader(ssrc)) => Put32(ssrc))
    && r.isSR == (c.header.Some? && c.header.value.SenderHeader?)
  }

  ghost predicate SourceMatches(s: SdesSource, c: Chunk) {
    s.ssrc == c.ssrc && s.items == ItemParts(c.items) && s.totalItemSize == |Flatten(s.items)|
  }

  ghost predicate SourcesMatch(ss: seq<SdesSource>, cs: seq<Chunk>) {
    |ss| == |cs| && forall i :: 0 <= i < |ss| ==> SourceMatches(ss[i], cs[i])
  }

  lemma ReportNeeded(r: Report, c: Content)
    requires ReportMatches(r, c) && ContentShape(c)
    ensures r.NeededBytes() == ReportOctets(c)
  {
    if c.header.Some? {
      ReportSizeExact(c.header.value, c.blocks);
    } else {
      WireNone();
    }
  }

  lemma ReportNeededWithExtra(r: Report, c: Content, b: ReportBlock)
    requires ReportMatches(r, c) && ContentShape(c) && c.header.Some?
    ensures r.NeededBytesWithExtraReportBlock() == ReportOctets(c.(blocks := c.blocks + [b]))
  {
    ReportSizeExact(c.header.value, c.blocks + [b]);
  }

  lemma SourceNeeded(s: SdesSource, c: Chunk)
    requires SourceMatches(s, c)
    ensures s.NeededBytes() == |ChunkBytes(c)|
  {
  }

  lemma ItemPartsSnoc(items: seq<Item>, i: Item)
    ensures ItemParts(items + [i]) == ItemParts(items) + [ItemBytes(i)]
  {
  }

  lemma SourceAddItem(s: SdesSource, c: Chunk, i: Item)
    requires SourceMatches(s, c)
    ensures SourceMatches(s.AddItem(ItemBytes(i)), c.(items := c.items + [i]))
    ensures s.NeededBytesWithExtraItem(|i.data|) == |ChunkBytes(c.(items := c.items + [i]))|
  {
    hide ItemBytes, ItemParts;
    ItemPartsSnoc(c.items, i);
    FlattenSnoc(s.items, ItemBytes(i));
    assert |ItemBytes(i)| == 2 + |i.data| by {
      ItemLength(i);
    }
    SourceNeeded(s.AddItem(ItemBytes(i)), c.(items := c.items + [i]));
  }

  lemma ItemLength(i: Item)
    ensures |ItemBytes(i)| == 2 + |i.data|
  {
  }

  /** Unsigned subtraction of sizes, which wraps around. */
  function SizeLeft(maximum: nat, total: nat): nat {
    (maximum - total) % SIZE_T
  }

  lemma NoPackets()
    ensures Octets([]) == 0 && PacketParts([]) == [] && Size(NOTHING) == 0
  {
    assert Packets(NOTHING) == [];
  }

  lemma NothingMatches()
    ensures ContentShape(NOTHING) && ReportMatches(Report(false, [], []), NOTHING) && SourcesMatch([], NOTHING.chunks)
  {
  }

  lemma SizeIsWire(c: Content)
    requires ContentShape(c)
    ensures Shapes(Packets(c)) && Size(c) == |Wire(Packets(c))|
  {
    PacketsShape(c);
  }

  /** `b` is `before` with `parts` written over its beginning, up to `cur`. */
  ghost predicate Written(b: seq<byte>, before: seq<byte>, parts: seq<seq<byte>>, cur: nat) {
    cur == |Flatten(parts)| <= |before| && b == Patch(before, 0, Flatten(parts))
  }

  lemma NothingWritten(b: seq<byte>)
    ensures Written(b, b, [], 0)
  {
    PatchNothing(b, 0);
  }

  lemma WrittenLength(b: seq<byte>, before: seq<byte>, parts: seq<seq<byte>>, cur: nat)
    requires Written(b, before, parts, cur)
    ensures cur == |Flatten(parts)| <= |before|
  {
  }

  lemma FrameWritten(b: seq<byte>, b': seq<byte>, before: seq<byte>, parts: seq<seq<byte>>, cur: nat, packet: seq<byte>)
    requires Written(b, before, parts, cur) && cur + |packet| <= |before|
    requires |b| == |before| && b' == Patch(b, cur, packet)
    ensures Written(b', before, parts + [packet], cur + |packet|)
    ensures b'[cur..cur + |packet|] == packet
  {
    FlattenSnoc(parts, packet);
    PatchPatch(before, 0, Flatten(parts), packet);
    PatchRead(b, cur, packet);
  }

  lemma PatchWhole(s: seq<byte>, part: seq<byte>)
    requires |part| <= |s|
    ensures Patch(s, 0, part)[..|part|] == part && Patch(s, 0, part)[|part|..] == s[|part|..]
  {
  }

  lemma NoParts()
    ensures PacketParts([]) == []
  {
  }

  lemma WireIsFlatten(ps: seq<Packet>)
    requires Shapes(ps)
    ensures Octets(ps) == |Flatten(PacketParts(ps))|
  {
  }

  lemma HeaderSlices(r: Report, c: Content)
    requires ReportMatches(r, c) && c.header.Some?
    ensures |r.header| >= 4 && r.header == HeaderData(c.header.value)
    ensures r.header[..4] == HeaderData(ReceiverHeader(c.header.value.ssrc))
  {
  }

  lemma RawReportBytes(h: Header, blocks: seq<ReportBlock>, it: nat, next: nat)
    requires it <= next <= |blocks| && next - it <= MAX_COUNT
    ensures RawReport(if h.SenderHeader? then TYPE_SR else TYPE_RR, HeaderData(h), BlockParts(blocks)[it..next])
         == PacketBytes(ReportPacket(h, blocks[it..next]))
  {
    hide HeaderBytes, Flatten, BlockBytes, InfoBytes, Put32;
    assert BlockParts(blocks)[it..next] == BlockParts(blocks[it..next]);
    var parts := Flatten(BlockParts(blocks[it..next]));
    assert HeaderData(h) + parts == BodyBytes(ReportPacket(h, blocks[it..next]));
  }

  lemma ShapesTail(p: Packet, rest: seq<Packet>)
    requires Shapes([p] + rest)
    ensures Shape(p) && Shapes([p]) && Shapes(rest)
  {
    hide Shape;
    assert Shape(([p] + rest)[0]);
    assert forall i :: 0 <= i < |rest| ==> rest[i] == ([p] + rest)[i + 1];
  }

  lemma NextPacket(p: Packet, rest: seq<Packet>, sofar: seq<seq<byte>>, target: seq<seq<byte>>)
    requires Shapes([p] + rest) && sofar + PacketParts([p] + rest) == target
    ensures Shape(p) && Shapes(rest)
    ensures sofar + [PacketBytes(p)] + PacketParts(rest) == target
    ensures |Flatten(sofar)| + |PacketBytes(p)| <= |Flatten(target)|
  {
    hide PacketBytes, Flatten, Shape;
    ShapesTail(p, rest);
    PartsAppend([p], rest);
    assert PacketParts([p]) == [PacketBytes(p)];
    assert sofar + ([PacketBytes(p)] + PacketParts(rest)) == sofar + [PacketBytes(p)] + PacketParts(rest);
    FlattenAppend(sofar + [PacketBytes(p)], PacketParts(rest));
    FlattenSnoc(sofar, PacketBytes(p));
  }

  /** `target` is what is there already and the report packets still to come, if any. */
  ghost predicate ReportsToWrite(h: Option<Header>, blocks: seq<ReportBlock>, sofar: seq<seq<byte>>,
                                 target: seq<seq<byte>>) {
    match h
    case None => sofar == target
    case Some(header) =>
      Shapes(ReportPackets(header, blocks)) && sofar + PacketParts(ReportPackets(header, blocks)) == target
  }

  lemma ReportsWritten(blocks: seq<ReportBlock>, sofar: seq<seq<byte>>, target: seq<seq<byte>>)
    requires ReportsToWrite(None, blocks, sofar, target)
    ensures sofar == target
  {
  }

  /** The header of the first report packet, and of the receiver reports that follow it. */
  ghost function PacketHeader(c: Content, first: bool): Header
    requires c.header.Some?
  {
    if first then c.header.value else ReceiverHeader(c.header.value.ssrc)
  }

  lemma ReportsTarget(c: Content)
    requires ContentShape(c) && c.header.Some?
    ensures Shapes(HeaderPackets(c)) && ReportsToWrite(c.header, c.blocks, [], PacketParts(HeaderPackets(c)))
    ensures |Flatten(PacketParts(HeaderPackets(c)))| == ReportOctets(c) && Flatten([]) == []
  {
    PacketsShape(c);
    assert [] + PacketParts(HeaderPackets(c)) == PacketParts(HeaderPackets(c));
  }

  /** The header of the report packet that takes the blocks from `it` on, if there is one. */
  ghost function NextHeader(c: Content, first: bool, it: nat): Option<Header>
    requires c.header.Some?
  {
    if !first && it == |c.blocks| then None else Some(PacketHeader(c, first))
  }

  lemma NextReport(c: Content, first: bool, it: nat, sofar: seq<seq<byte>>, target: seq<seq<byte>>)
    requires c.header.Some? && it <= |c.blocks|
    requires ReportsToWrite(Some(PacketHeader(c, first)), c.blocks[it..], sofar, target)
    ensures var stop := it + Share(|c.blocks| - it);
      var p := ReportPacket(PacketHeader(c, first), c.blocks[it..stop]);
      && Shape(p)
      && |Flatten(sofar)| + |PacketBytes(p)| <= |Flatten(target)|
      && ReportsToWrite(NextHeader(c, false, stop), c.blocks[stop..], sofar + [PacketBytes(p)], target)
  {
    hide PacketBytes, Flatten, PacketParts, Shape;
    var h, blocks, n := PacketHeader(c, first), c.blocks, Share(|c.blocks| - it);
    var p := ReportPacket(h, blocks[it..it + n]);
    assert blocks[it..][..n] == blocks[it..it + n] && blocks[it..][n..] == blocks[it + n..];
    var rest := if it + n == |blocks| then [] else ReportPackets(ReceiverHeader(h.ssrc), blocks[it + n..]);
    assert ReportPackets(h, blocks[it..]) == [p] + rest;
    NextPacket(p, rest, sofar, target);
    if it + n == |blocks| {
      NoParts();
      assert sofar + [PacketBytes(p)] + [] == sofar + [PacketBytes(p)];
    }
  }

  /** The octets of the report packet that takes the blocks from `it` on. */
  ghost function ReportOctetsFrom(c: Content, first: bool, it: nat): (b: seq<byte>)
    requires c.header.Some? && it <= |c.blocks|
  {
    PacketBytes(ReportPacket(PacketHeader(c, first), c.blocks[it..it + Share(|c.blocks| - it)]))
  }

  lemma NextRawReport(r: Report, c: Content, first: bool, it: nat, sofar: seq<seq<byte>>, target: seq<seq<byte>>)
    requires ReportMatches(r, c) && c.header.Some? && it <= |r.blocks|
    requires ReportsToWrite(NextHeader(c, first, it), c.blocks[it..], sofar, target) && NextHeader(c, first, it).Some?
    ensures |r.blocks| == |c.blocks|
    ensures var h := PacketHeader(c, first);
      ReportOctetsFrom(c, first, it)
        == RawReport(if h.SenderHeader? then TYPE_SR else TYPE_RR, HeaderData(h),
                     r.blocks[it..it + Share(|r.blocks| - it)])
    ensures var packet, stop := ReportOctetsFrom(c, first, it), it + Share(|c.blocks| - it);
      && |Flatten(sofar)| + |packet| <= |Flatten(target)|
      && ReportsToWrite(NextHeader(c, false, stop), c.blocks[stop..], sofar + [packet], target)
  {
    hide PacketBytes, Flatten, RawReport, ReportsToWrite, HeaderData;
    NextReport(c, first, it, sofar, target);
    RawReportBytes(PacketHeader(c, first), c.blocks, it, it + Share(|c.blocks| - it));
  }

  lemma NoSdesPackets()
    ensures SdesPackets([]) == []
  {
  }

  lemma PartsTogether(c: Content)
    requires ContentShape(c)
    requires Shapes(HeaderPackets(c)) && Shapes(SdesPackets(c.chunks)) && Shapes(c.apps) && Shapes(c.byes)
             && Shapes(Packets(c))
    ensures PacketParts(HeaderPackets(c)) + PacketParts(SdesPackets(c.chunks)) + PacketParts(c.apps)
            + PacketParts(c.byes)
         == PacketParts(Packets(c))
    ensures Wire(Packets(c)) == Flatten(PacketParts(Packets(c))) && Size(c) == |Wire(Packets(c))|
  {
    hide PacketBytes, Flatten, HeaderPackets, SdesPackets, Shape;
    PartsAppend(c.apps, c.byes);
    PartsAppend(SdesPackets(c.chunks), c.apps + c.byes);
    PartsAppend(HeaderPackets(c), SdesPackets(c.chunks) + (c.apps + c.byes));
  }

  lemma PartsAppend(a: seq<Packet>, b: seq<Packet>)
    requires Shapes(a) && Shapes(b)
    ensures Shapes(a + b) && PacketParts(a + b) == PacketParts(a) + PacketParts(b)
  {
    hide PacketBytes, Shape;
  }

  lemma RawSdesBytes(sources: seq<SdesSource>, chunks: seq<Chunk>, it: nat, next: nat)
    requires SourcesMatch(sources, chunks) && it <= next <= |chunks| && next - it <= MAX_COUNT && ChunkShapes(chunks)
    ensures RawSdes(sources[it..next]) == PacketBytes(SDES(chunks[it..next]))
  {
    hide HeaderBytes, Flatten, Put32, ItemShapes, ItemParts;
    assert RawChunks(sources[it..next]) == ChunkParts(chunks[it..next]);
  }

  /** `target` is what is there already and the packets of the remaining chunks. */
  ghost predicate SdesToWrite(chunks: seq<Chunk>, sofar: seq<seq<byte>>, target: seq<seq<byte>>) {
    Shapes(SdesPackets(chunks)) && sofar + PacketParts(SdesPackets(chunks)) == target
  }

  lemma SdesTarget(chunks: seq<Chunk>, done: seq<seq<byte>>)
    requires ChunkShapes(chunks)
    ensures Shapes(SdesPackets(chunks)) && SdesToWrite(chunks, done, done + PacketParts(SdesPackets(chunks)))
    ensures |Flatten(done + PacketParts(SdesPackets(chunks)))| == |Flatten(done)| + SdesOctets(chunks)
  {
    hide Flatten;
    SdesPacketsDivide(chunks);
    FlattenAppend(done, PacketParts(SdesPackets(chunks)));
  }

  lemma SdesWritten(chunks: seq<Chunk>, sofar: seq<seq<byte>>, target: seq<seq<byte>>)
    requires SdesToWrite(chunks, sofar, target) && chunks == []
    ensures sofar == target
  {
    NoSdesPackets();
    NoParts();
    assert sofar + [] == sofar;
  }

  lemma NextSdes(chunks: seq<Chunk>, it: nat, sofar: seq<seq<byte>>, target: seq<seq<byte>>)
    requires it < |chunks| && ChunkShapes(chunks) && SdesToWrite(chunks[it..], sofar, target)
    ensures var stop := it + Share(|chunks| - it);
      var p := SDES(chunks[it..stop]);
      && it < stop && Shape(p)
      && |Flatten(sofar)| + |PacketBytes(p)| <= |Flatten(target)|
      && SdesToWrite(chunks[stop..], sofar + [PacketBytes(p)], target)
  {
    hide PacketBytes, Flatten, PacketParts, ItemShapes;
    var n := Share(|chunks| - it);
    var p := SDES(chunks[it..it + n]);
    assert chunks[it..][..n] == chunks[it..it + n] && chunks[it..][n..] == chunks[it + n..];
    var rest := SdesPackets(chunks[it + n..]);
    assert SdesPackets(chunks[it..]) == [p] + rest;
    NextPacket(p, rest, sofar, target);
  }

  /** The octets of the SDES packet that takes the sources from `it` on. */
  ghost function SdesOctetsFrom(sources: seq<SdesSource>, it: nat): seq<byte>
    requires it <= |sources|
  {
    RawSdes(sources[it..it + Share(|sources| - it)])
  }

  lemma NextRawSdes(sources: seq<SdesSource>, chunks: seq<Chunk>, it: nat, sofar: seq<seq<byte>>,
                    target: seq<seq<byte>>)
    requires ChunkShapes(chunks) && SourcesMatch(sources, chunks)
    requires it < |sources| && SdesToWrite(chunks[it..], sofar, target)
    ensures it < it + Share(|sources| - it) <= |sources| == |chunks|
    ensures var packet, stop := SdesOctetsFrom(sources, it), it + Share(|sources| - it);
      |Flatten(sofar)| + |packet| <= |Flatten(target)| && SdesToWrite(chunks[stop..], sofar + [packet], target)
  {
    hide PacketBytes, Flatten, RawSdes, SdesToWrite, SourceMatches, ItemShapes;
    NextSdes(chunks, it, sofar, target);
    RawSdesBytes(sources, chunks, it, it + Share(|sources| - it));
  }

  /** The packet AddBYEPacket writes: an empty reason is left out. */
  function ByePacket(ssrcs: seq<u32>, reason: seq<byte>): Packet {
    BYE(ssrcs, if reason == [] then None else Some(reason))
  }

  function HeaderData(h: Header): seq<byte> {
    match h
    case SenderHeader(ssrc, info) => Put32(ssrc) + InfoBytes(info)
    case ReceiverHeader(ssrc) => Put32(ssrc)
  }

  /**
   * What a Start function answers: the unsigned subtraction
   * makes it accept any report once the maximum is overrun.
   */
  ghost function StartStatus(areBuilding: bool, c: Content, maximum: nat, neededSize: nat): Status
  {
    if !areBuilding then NotBuilding
    else if c.header.Some? then AlreadyGotReport
    else if Size(c) <= maximum < Size(c) + neededSize then NotEnoughBytesLeft
    else Success
  }

  ghost function WithHeader(c: Content, h: Header): Content {
    c.(header := Some(h))
  }

  ghost function WithBlock(c: Content, b: ReportBlock): Content {
    c.(blocks := c.blocks + [b])
  }

  ghost function WithBye(c: Content, p: Packet): Content {
    c.(byes := c.byes + [p])
  }

  ghost function WithApp(c: Content, p: Packet): Content {
    c.(apps := c.apps + [p])
  }

  lemma HeaderGrowth(c: Content, h: Header)
    requires ContentShape(c) && c.header.None?
    ensures Size(WithHeader(c, h)) == Size(c) + if h.SenderHeader? then 28 else 8
  {
    hide PacketBytes, Wire;
    SizeSplit(c);
    SizeSplit(WithHeader(c, h));
    ReportSizeExact(h, c.blocks);
    WireNone();
  }

  lemma AppLayout(p: Packet)
    requires p.APP? && Shape(p)
    ensures |PacketBytes(p)| == HEADER_SIZE + 8 + |p.data|
    ensures PacketBytes(p) == HeaderBytes(p.subtype, TYPE_APP, HEADER_SIZE + 8 + |p.data|)
            + (Put32(p.ssrc) + (p.name + p.data))
  {
  }

  lemma BlockPartsSnoc(blocks: seq<ReportBlock>, b: ReportBlock)
    ensures BlockParts(blocks + [b]) == BlockParts(blocks) + [BlockBytes(b)]
  {
  }

  lemma SameReport(c: Content, c': Content)
    requires ContentShape(c) && ContentShape(c') && c.header == c'.header && c.blocks == c'.blocks
    ensures ReportOctets(c) == ReportOctets(c')
  {
  }

  lemma FirstSource(c: Content, ssrc: u32)
    requires ContentShape(c) && ContentShape(WithSource(c, ssrc))
    ensures c.chunks == [] ==> SdesOctets(c.chunks) == 0 && Size(WithSource(c, ssrc)) == Size(c) + 12
  {
    hide PacketBytes, Wire;
    SizeSplit(c);
    SizeSplit(WithSource(c, ssrc));
    SameReport(c, WithSource(c, ssrc));
    if c.chunks == [] {
      ExtraSource(c.chunks, ssrc);
      WireNone();
      assert ChunkParts([]) == [];
    }
  }

  lemma SourceStarted(ssrc: u32)
    ensures SourceMatches(SdesSource(ssrc, [], 0), Chunk(ssrc, []))
  {
  }

  lemma ByeSize(ssrcs: seq<u32>, reason: seq<byte>)
    requires |ssrcs| <= MAX_COUNT && |reason| <= 255
    ensures |PacketBytes(ByePacket(ssrcs, reason))|
         == HEADER_SIZE + 4 * |ssrcs| + if reason == [] then 0 else RoundUp4(|reason| + 1)
  {
    SsrcsLength(ssrcs);
    PacketAligned(ByePacket(ssrcs, reason));
  }

  lemma PartsSnoc(ps: seq<Packet>, p: Packet)
    requires Shapes(ps) && Shape(p)
    ensures Shapes(ps + [p]) && PacketParts(ps + [p]) == PacketParts(ps) + [PacketBytes(p)]
    ensures Octets(ps + [p]) == Octets(ps) + |PacketBytes(p)|
  {
    hide PacketBytes, Flatten;
    assert PacketParts(ps + [p]) == PacketParts(ps) + [PacketBytes(p)];
    FlattenSnoc(PacketParts(ps), PacketBytes(p));
  }

  lemma ByeGrowth(c: Content, p: Packet)
    requires ContentShape(c) && p.BYE? && Shape(p)
    ensures ContentShape(WithBye(c, p)) && Size(WithBye(c, p)) == Size(c) + |PacketBytes(p)|
  {
    hide PacketBytes, Wire;
    SizeSplit(c);
    SizeSplit(WithBye(c, p));
    SameReport(c, WithBye(c, p));
    PartsSnoc(c.byes, p);
  }

  lemma AppGrowth(c: Content, p: Packet)
    requires ContentShape(c) && p.APP? && Shape(p)
    ensures ContentShape(WithApp(c, p)) && Size(WithApp(c, p)) == Size(c) + |PacketBytes(p)|
  {
    hide PacketBytes, Wire;
    SizeSplit(c);
    SizeSplit(WithApp(c, p));
    SameReport(c, WithApp(c, p));
    PartsSnoc(c.apps, p);
  }

  ghost function WithItem(c: Content, i: Item): Content
    requires c.chunks != []
  {
    var last := |c.chunks| - 1;
    c.(chunks := c.chunks[last := c.chunks[last].(items := c.chunks[last].items + [i])])
  }

  ghost function WithSource(c: Content, ssrc: u32): Content {
    c.(chunks := c.chunks + [Chunk(ssrc, [])])
  }

  lemma SumStep(chunks: seq<Chunk>, i: nat)
    requires i < |chunks|
    ensures |Flatten(ChunkParts(chunks[..i + 1]))| == |Flatten(ChunkParts(chunks[..i]))| + |ChunkBytes(chunks[i])|
  {
    hide ChunkBytes, Flatten;
    assert ChunkParts(chunks[..i + 1]) == ChunkParts(chunks[..i]) + [ChunkBytes(chunks[i])];
    FlattenSnoc(ChunkParts(chunks[..i]), ChunkBytes(chunks[i]));
  }

  lemma EmptyChunk(ssrc: u32)
    ensures |ChunkBytes(Chunk(ssrc, []))| == 8
  {
    assert ItemParts([]) == [];
  }

  lemma ExtraSource(chunks: seq<Chunk>, ssrc: u32)
    requires ChunkShapes(chunks)
    ensures ChunkShapes(chunks + [Chunk(ssrc, [])])
    ensures SdesOctets(chunks + [Chunk(ssrc, [])])
         == |Flatten(ChunkParts(chunks))| + 8 + HEADER_SIZE * PacketsFor(|chunks| + 1)
  {
    hide ChunkBytes, Flatten, Wire;
    var all := chunks + [Chunk(ssrc, [])];
    EmptyChunk(ssrc);
    SumStep(all, |chunks|);
    assert all[..|chunks|] == chunks && all[..|all|] == all;
    SdesSizeExact(all);
  }
}
