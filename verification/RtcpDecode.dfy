/**
 * What the packet classes (RTCPSRPacket, RTCPRRPacket, RTCPSDESPacket, RTCPBYEPacket, RTCPAPPPacket)
 * accept as a known format and what their accessors return, as functions of one frame.
 */
module RtcpDecode {
  import opened Bytes
  import opened RtcpFormat

  /** A frame is what the compound parser hands to a packet class: whole words, a header at least. */
  predicate Frame(d: seq<byte>) {
    |d| >= HEADER_SIZE
  }

  function Version(d: seq<byte>): nat
    requires Frame(d)
  {
    d[0] / 64
  }

  predicate Padded(d: seq<byte>)
    requires Frame(d)
  {
    d[0] / 32 % 2 == 1
  }

  function Count(d: seq<byte>): nat
    requires Frame(d)
    ensures Count(d) <= MAX_COUNT
  {
    d[0] % 32
  }

  /** The length without padding; None when the padding count is no multiple of four or too large. */
  function Unpadded(d: seq<byte>): (len: Option<nat>)
    requires Frame(d)
    ensures len.Some? ==> len.value <= |d|
  {
    if !Padded(d) then Some(|d|)
    else
      var padCount := d[|d| - 1];
      if padCount % 4 != 0 || padCount >= |d| then None else Some(|d| - padCount)
  }

  // ---------------------------------------------------------------- sender and receiver reports

  function InfoAt(d: seq<byte>, o: nat): SenderInfo
    requires o + INFO_SIZE <= |d|
  {
    SenderInfo(Get32(d, o), Get32(d, o + 4), Get32(d, o + 8), Get32(d, o + 12), Get32(d, o + 16))
  }

  function BlockAt(d: seq<byte>, o: nat): ReportBlock
    requires o + BLOCK_SIZE <= |d|
  {
    ReportBlock(Get32(d, o), d[o + 4], GetLost(d, o + 5), Get32(d, o + 8), Get32(d, o + 12), Get32(d, o + 16),
                Get32(d, o + 20))
  }

  function BlocksAt(d: seq<byte>, o: nat, n: nat): (blocks: seq<ReportBlock>)
    requires o + 24 * n <= |d|
    ensures |blocks| == n
  {
    seq(n, i requires 0 <= i < n => BlockAt(d, o + 24 * i))
  }

  function DecodeSR(d: seq<byte>): Packet
    requires Frame(d)
  {
    var first := HEADER_SIZE + 4 + INFO_SIZE;
    if Unpadded(d) == Some(first + 24 * Count(d))
    then SR(Get32(d, HEADER_SIZE), InfoAt(d, HEADER_SIZE + 4), BlocksAt(d, first, Count(d)))
    else UnknownFormat(d)
  }

  function DecodeRR(d: seq<byte>): Packet
    requires Frame(d)
  {
    var first := HEADER_SIZE + 4;
    if Unpadded(d) == Some(first + 24 * Count(d))
    then RR(Get32(d, HEADER_SIZE), BlocksAt(d, first, Count(d)))
    else UnknownFormat(d)
  }

  // ---------------------------------------------------------------- source descriptions

  /** The items from `pos` on, with the position of the null octet that ends them. */
  function ScanItems(d: seq<byte>, pos: nat, end: nat): (r: Option<(seq<Item>, nat)>)
    requires pos <= end <= |d|
    ensures r.Some? ==> pos <= r.value.1 < end && d[r.value.1] == 0
    decreases end - pos
  {
    if pos == end then None
    else if d[pos] == 0 then Some(([], pos))
    else if end - pos < 2 then None
    else
      var next := pos + 2 + d[pos + 1];
      if next > end then None
      else match ScanItems(d, next, end)
        case None => None
        case Some((items, z)) => Some(([Item(d[pos], d[pos + 2..next])] + items, z))
  }

  /** One chunk at `pos`, with the position after its padding. */
  function ScanChunk(d: seq<byte>, pos: nat, end: nat): (r: Option<(Chunk, nat)>)
    requires pos <= end <= |d|
    ensures r.Some? ==> pos + 8 <= r.value.1 <= end
  {
    if end - pos < 8 then None
    else match ScanItems(d, pos + 4, end)
      case None => None
      case Some((items, z)) =>
        var next := pos + RoundUp4(z + 1 - pos);
        if next > end then None else Some((Chunk(Get32(d, pos), items), next))
  }

  /** Exactly `count` chunks between `pos` and `end`. */
  function ScanChunks(d: seq<byte>, pos: nat, end: nat, count: nat): (r: Option<seq<Chunk>>)
    requires pos <= end <= |d|
    ensures r.Some? ==> |r.value| == count
    decreases count
  {
    if count == 0 || pos == end then
      if count == 0 && pos == end then Some([]) else None
    else match ScanChunk(d, pos, end)
      case None => None
      case Some((chunk, next)) =>
        match ScanChunks(d, next, end, count - 1)
        case None => None
        case Some(rest) => Some([chunk] + rest)
  }

  function SdesChunks(d: seq<byte>): (r: Option<seq<Chunk>>)
    requires Frame(d)
    ensures r.Some? ==> |r.value| == Count(d)
  {
    match Unpadded(d)
    case None => None
    case Some(end) => if end < HEADER_SIZE then None else ScanChunks(d, HEADER_SIZE, end, Count(d))
  }

  function DecodeSDES(d: seq<byte>): Packet
    requires Frame(d)
  {
    match SdesChunks(d)
    case None => UnknownFormat(d)
    case Some(chunks) => SDES(chunks)
  }

  // ---------------------------------------------------------------- goodbye

  function SsrcsAt(d: seq<byte>, o: nat, n: nat): (ssrcs: seq<u32>)
    requires o + 4 * n <= |d|
    ensures |ssrcs| == n
  {
    seq(n, i requires 0 <= i < n => Get32(d, o + 4 * i))
  }

  function DecodeBYE(d: seq<byte>): Packet
    requires Frame(d)
  {
    var o := HEADER_SIZE + 4 * Count(d);
    match Unpadded(d)
    case None => UnknownFormat(d)
    case Some(len) =>
      if o > len then UnknownFormat(d)
      else if o == len then BYE(SsrcsAt(d, HEADER_SIZE, Count(d)), None)
      else if d[o] > len - o - 1 then UnknownFormat(d)
      else BYE(SsrcsAt(d, HEADER_SIZE, Count(d)), Some(d[o + 1..o + 1 + d[o]]))
  }

  // ---------------------------------------------------------------- application-defined

  function DecodeAPP(d: seq<byte>): Packet
    requires Frame(d)
  {
    match Unpadded(d)
    case None => UnknownFormat(d)
    case Some(len) =>
      if len < HEADER_SIZE + 8 then UnknownFormat(d)
      else APP(Count(d), Get32(d, HEADER_SIZE), d[HEADER_SIZE + 4..HEADER_SIZE + 8], d[HEADER_SIZE + 8..len])
  }

  function Decode(d: seq<byte>): Packet
    requires Frame(d)
  {
    if d[1] == TYPE_SR then DecodeSR(d)
    else if d[1] == TYPE_RR then DecodeRR(d)
    else if d[1] == TYPE_SDES then DecodeSDES(d)
    else if d[1] == TYPE_BYE then DecodeBYE(d)
    else if d[1] == TYPE_APP then DecodeAPP(d)
    else UnknownType(d)
  }

  // ---------------------------------------------------------------- what is of known format

  /** Which frames of `n` unpadded octets are of known format; source descriptions are in SdesPacket. */
  lemma KnownExactly(d: seq<byte>)
    requires Frame(d)
    ensures var p, count := Decode(d), d[0] as int % 32;
      && (p.UnknownType? <==> d[1] !in {200, 201, 202, 203, 204})
      && (!p.UnknownType? && Unpadded(d) == None ==> p.UnknownFormat?)
      && forall n :: Unpadded(d) == Some(n) ==>
           && (d[1] == 200 ==> if n == 28 + 24 * count then p.SR? && |p.blocks| == count else p.UnknownFormat?)
           && (d[1] == 201 ==> if n == 8 + 24 * count then p.RR? && |p.blocks| == count else p.UnknownFormat?)
           && (d[1] == 202 ==> p.SDES? || p.UnknownFormat?)
           && (d[1] == 203 ==>
                 if n == 4 + 4 * count || (n > 4 + 4 * count && 5 + 4 * count + d[4 + 4 * count] as int <= n)
                 then p.BYE? && |p.ssrcs| == count && (p.reason == None <==> n == 4 + 4 * count)
                 else p.UnknownFormat?)
           && (d[1] == 204 ==> if n >= 12 then p.APP? && |p.data| == n - 12 else p.UnknownFormat?)
  {
    hide Unpadded, ScanChunks, SsrcsAt, BlocksAt;
  }

  // ---------------------------------------------------------------- reading back what was written

  function Received(r: ReportBlock): ReportBlock {
    r.(packetsLost := Wrap24(r.packetsLost))
  }

  function ReceivedBlocks(blocks: seq<ReportBlock>): (rs: seq<ReportBlock>)
    ensures |rs| == |blocks|
  {
    seq(|blocks|, i requires 0 <= i < |blocks| => Received(blocks[i]))
  }

  /** The packet a reader sees: the one that was written, with loss counts cut to 24 bits. */
  function ReceivedPacket(p: Packet): Packet {
    match p
    case SR(ssrc, info, blocks) => SR(ssrc, info, ReceivedBlocks(blocks))
    case RR(ssrc, blocks) => RR(ssrc, ReceivedBlocks(blocks))
    case _ => p
  }

  lemma InfoReadBack(d: seq<byte>, o: nat, i: SenderInfo)
    requires At(d, o, InfoBytes(i))
    ensures InfoAt(d, o) == i
  {
    var e := Put32(i.octetCount);
    var de := Put32(i.packetCount) + e;
    var cde := Put32(i.rtpTimestamp) + de;
    var bcde := Put32(i.ntpLsw) + cde;
    AtSplit(d, o, Put32(i.ntpMsw), bcde);
    AtSplit(d, o + 4, Put32(i.ntpLsw), cde);
    AtSplit(d, o + 8, Put32(i.rtpTimestamp), de);
    AtSplit(d, o + 12, Put32(i.packetCount), e);
    Get32At(d, o, i.ntpMsw);
    Get32At(d, o + 4, i.ntpLsw);
    Get32At(d, o + 8, i.rtpTimestamp);
    Get32At(d, o + 12, i.packetCount);
    Get32At(d, o + 16, i.octetCount);
  }

  lemma BlockReadBack(d: seq<byte>, o: nat, r: ReportBlock)
    requires At(d, o, BlockBytes(r))
    ensures BlockAt(d, o) == Received(r)
  {
    var g := Put32(r.dlsr);
    var fg := Put32(r.lsr) + g;
    var efg := Put32(r.jitter) + fg;
    var defg := Put32(r.extHighSeq) + efg;
    var cdefg := PutLost(r.packetsLost) + defg;
    var bcdefg := [r.fractionLost] + cdefg;
    AtSplit(d, o, Put32(r.ssrc), bcdefg);
    AtSplit(d, o + 4, [r.fractionLost], cdefg);
    AtSplit(d, o + 5, PutLost(r.packetsLost), defg);
    AtSplit(d, o + 8, Put32(r.extHighSeq), efg);
    AtSplit(d, o + 12, Put32(r.jitter), fg);
    AtSplit(d, o + 16, Put32(r.lsr), g);
    Get32At(d, o, r.ssrc);
    assert d[o + 4] == d[o + 4..o + 5][0];
    LostAt(d, o + 5, r.packetsLost);
    Get32At(d, o + 8, r.extHighSeq);
    Get32At(d, o + 12, r.jitter);
    Get32At(d, o + 16, r.lsr);
    Get32At(d, o + 20, r.dlsr);
  }

  lemma LostAt(d: seq<byte>, o: nat, lost: i32)
    requires At(d, o, PutLost(lost))
    ensures GetLost(d, o) == Wrap24(lost)
  {
    var t := d[o..o + 3];
    assert d[o] == t[0] && d[o + 1] == t[1] && d[o + 2] == t[2];
    assert GetLost(d, o) == GetLost(t, 0);
    LostReadBack(lost);
  }

  lemma BlocksReadBack(d: seq<byte>, o: nat, blocks: seq<ReportBlock>)
    requires At(d, o, Flatten(BlockParts(blocks)))
    ensures o + 24 * |blocks| <= |d|
    ensures BlocksAt(d, o, |blocks|) == ReceivedBlocks(blocks)
  {
    BlocksLength(blocks);
    forall i | 0 <= i < |blocks|
      ensures BlockAt(d, o + 24 * i) == Received(blocks[i])
    {
      BlockOfBlocks(d, o, blocks, i);
    }
  }

  lemma BlockOfBlocks(d: seq<byte>, o: nat, blocks: seq<ReportBlock>, i: nat)
    requires At(d, o, Flatten(BlockParts(blocks)))
    requires i < |blocks|
    ensures o + 24 * i + BLOCK_SIZE <= |d| && BlockAt(d, o + 24 * i) == Received(blocks[i])
  {
    hide BlockBytes, GetLost, Get16;
    hide Flatten, BlockBytes, BlockAt;
    FlattenAt(d, o, BlockParts(blocks), i);
    assert BlockParts(blocks)[..i] == BlockParts(blocks[..i]);
    BlocksLength(blocks[..i]);
    BlockReadBack(d, o + 24 * i, blocks[i]);
  }

  lemma SsrcsReadBack(d: seq<byte>, o: nat, ssrcs: seq<u32>)
    requires At(d, o, Flatten(SsrcParts(ssrcs)))
    ensures o + 4 * |ssrcs| <= |d|
    ensures SsrcsAt(d, o, |ssrcs|) == ssrcs
  {
    SsrcsLength(ssrcs);
    forall i | 0 <= i < |ssrcs|
      ensures Get32(d, o + 4 * i) == ssrcs[i]
    {
      SsrcOfSsrcs(d, o, ssrcs, i);
    }
  }

  lemma SsrcOfSsrcs(d: seq<byte>, o: nat, ssrcs: seq<u32>, i: nat)
    requires At(d, o, Flatten(SsrcParts(ssrcs)))
    requires i < |ssrcs|
    ensures o + 4 * i + 4 <= |d| && Get32(d, o + 4 * i) == ssrcs[i]
  {
    hide Flatten, Get16;
    FlattenAt(d, o, SsrcParts(ssrcs), i);
    assert SsrcParts(ssrcs)[..i] == SsrcParts(ssrcs[..i]);
    SsrcsLength(ssrcs[..i]);
    Get32At(d, o + 4 * i, ssrcs[i]);
  }

  lemma ItemReadBack(d: seq<byte>, pos: nat, i: Item)
    requires ItemShape(i) && At(d, pos, ItemBytes(i))
    ensures |ItemBytes(i)| == 2 + |i.data|
    ensures d[pos] == i.id && d[pos + 1] == |i.data| && d[pos + 2..pos + 2 + |i.data|] == i.data
  {
    var length: byte := |i.data|;
    AtSplit(d, pos, [i.id, length], i.data);
    assert d[pos] == d[pos..pos + 2][0] && d[pos + 1] == d[pos..pos + 2][1];
  }

  lemma PartsSplit(d: seq<byte>, pos: nat, x: seq<byte>, rest: seq<seq<byte>>)
    requires At(d, pos, Flatten([x] + rest))
    ensures At(d, pos, x) && At(d, pos + |x|, Flatten(rest))
    ensures |Flatten([x] + rest)| == |x| + |Flatten(rest)|
  {
    FlattenCons(x, rest);
    AtSplit(d, pos, x, Flatten(rest));
  }

  /** An item list that is followed by a null octet is scanned back item by item. */
  lemma {:induction false} ItemsReadBack(d: seq<byte>, pos: nat, end: nat, items: seq<Item>)
    requires pos <= end <= |d|
    requires ItemShapes(items)
    requires At(d, pos, Flatten(ItemParts(items)))
    requires pos + |Flatten(ItemParts(items))| < end && d[pos + |Flatten(ItemParts(items))|] == 0
    ensures ScanItems(d, pos, end) == Some((items, pos + |Flatten(ItemParts(items))|))
    decreases |items|
  {
    hide Flatten, At, ItemBytes, ItemParts, ScanItems;
    if items == [] {
      ItemsEnd(d, pos, end);
    } else {
      var i, rest := items[0], items[1..];
      ItemPartsCons(items);
      PartsSplit(d, pos, ItemBytes(i), ItemParts(rest));
      ItemReadBack(d, pos, i);
      ItemsReadBack(d, pos + |ItemBytes(i)|, end, rest);
      ScanItemsStep(d, pos, end, items, pos + |Flatten(ItemParts(items))|);
    }
  }

  lemma ItemsEnd(d: seq<byte>, pos: nat, end: nat)
    requires pos + |Flatten(ItemParts([]))| < end <= |d| && d[pos + |Flatten(ItemParts([]))|] == 0
    ensures |Flatten(ItemParts([]))| == 0 && ScanItems(d, pos, end) == Some(([], pos))
  {
    assert ItemParts([]) == [];
  }

  lemma ScanItemsStep(d: seq<byte>, pos: nat, end: nat, items: seq<Item>, z: nat)
    requires items != [] && items[0].id != 0 && pos + 2 + |items[0].data| <= end <= |d|
    requires d[pos] == items[0].id && d[pos + 1] == |items[0].data|
    requires d[pos + 2..pos + 2 + |items[0].data|] == items[0].data
    requires ScanItems(d, pos + 2 + |items[0].data|, end) == Some((items[1..], z))
    ensures ScanItems(d, pos, end) == Some((items, z))
  {
    assert items == [items[0]] + items[1..];
    assert Item(d[pos], items[0].data) == items[0];
  }

  lemma ChunkLength(c: Chunk)
    ensures |ChunkBytes(c)| == RoundUp4(5 + |Flatten(ItemParts(c.items))|) >= 8
  {
  }

  lemma ChunkReadBack(d: seq<byte>, pos: nat, end: nat, c: Chunk)
    requires end <= |d|
    requires ItemShapes(c.items)
    requires pos + |ChunkBytes(c)| <= end && At(d, pos, ChunkBytes(c))
    ensures ScanChunk(d, pos, end) == Some((c, pos + |ChunkBytes(c)|))
  {
    ChunkLength(c);
    ChunkPartsReadBack(d, pos, end, c);
    hide ChunkBytes, ScanItems, Get32, Flatten, ItemParts, ItemShapes, At;
  }

  lemma ChunkPartsReadBack(d: seq<byte>, pos: nat, end: nat, c: Chunk)
    requires end <= |d|
    requires ItemShapes(c.items)
    requires pos + |ChunkBytes(c)| <= end && At(d, pos, ChunkBytes(c))
    ensures Get32(d, pos) == c.ssrc
    ensures ScanItems(d, pos + 4, end) == Some((c.items, pos + 4 + |Flatten(ItemParts(c.items))|))
  {
    hide Flatten, ItemParts, ScanItems, Put32, Get32;
    var items := Flatten(ItemParts(c.items));
    var zeros := Zeros(4 - |items| % 4);
    AtSplit(d, pos, Put32(c.ssrc), items + zeros);
    AtSplit(d, pos + 4, items, zeros);
    Get32At(d, pos, c.ssrc);
    FirstOf(d, pos + 4 + |items|, zeros);
    ItemsReadBack(d, pos + 4, end, c.items);
  }

  lemma FirstOf(d: seq<byte>, o: nat, part: seq<byte>)
    requires At(d, o, part) && part != []
    ensures d[o] == part[0]
  {
    assert d[o] == d[o..o + |part|][0];
  }

  /** The chunks are stored between `pos` and `end` and fill that space. */
  ghost predicate ChunksStored(d: seq<byte>, pos: nat, end: nat, chunks: seq<Chunk>) {
    && end <= |d|
    && ChunkShapes(chunks)
    && pos + |Flatten(ChunkParts(chunks))| == end
    && At(d, pos, Flatten(ChunkParts(chunks)))
  }

  lemma ChunksStoredTail(d: seq<byte>, pos: nat, end: nat, chunks: seq<Chunk>)
    requires chunks != [] && ChunksStored(d, pos, end, chunks)
    ensures ScanChunk(d, pos, end) == Some((chunks[0], pos + |ChunkBytes(chunks[0])|))
    ensures ChunksStored(d, pos + |ChunkBytes(chunks[0])|, end, chunks[1..])
  {
    hide Flatten, ChunkBytes, ChunkParts, ScanChunk, ItemShapes, At;
    ChunkPartsCons(chunks);
    PartsSplit(d, pos, ChunkBytes(chunks[0]), ChunkParts(chunks[1..]));
    ChunkReadBack(d, pos, end, chunks[0]);
  }

  lemma ScanChunksStep(d: seq<byte>, pos: nat, end: nat, chunks: seq<Chunk>, next: nat)
    requires chunks != [] && pos < next <= end <= |d|
    requires ScanChunk(d, pos, end) == Some((chunks[0], next))
    requires ScanChunks(d, next, end, |chunks| - 1) == Some(chunks[1..])
    ensures ScanChunks(d, pos, end, |chunks|) == Some(chunks)
  {
    hide ScanChunk;
    assert chunks == [chunks[0]] + chunks[1..];
  }

  lemma ChunksEnd(d: seq<byte>, pos: nat, end: nat)
    requires ChunksStored(d, pos, end, [])
    ensures pos <= end <= |d| && ScanChunks(d, pos, end, 0) == Some([])
  {
    assert ChunkParts([]) == [];
  }

  lemma {:induction false} ChunksReadBack(d: seq<byte>, pos: nat, end: nat, chunks: seq<Chunk>)
    requires ChunksStored(d, pos, end, chunks)
    ensures pos <= end <= |d| && ScanChunks(d, pos, end, |chunks|) == Some(chunks)
    decreases |chunks|
  {
    hide *;
    if chunks == [] {
      ChunksEnd(d, pos, end);
    } else {
      ChunksStoredTail(d, pos, end, chunks);
      var next := pos + |ChunkBytes(chunks[0])|;
      ChunksReadBack(d, next, end, chunks[1..]);
      ScanChunksStep(d, pos, end, chunks, next);
    }
  }

  lemma ReasonReadBack(d: seq<byte>, o: nat, text: seq<byte>)
    requires |text| <= 255
    requires At(d, o, ReasonBytes(Some(text)))
    ensures o < o + 1 + |text| <= |d| && d[o] == |text| && d[o + 1..o + 1 + |text|] == text
  {
    var zeros := Zeros(RoundUp4(|text| + 1) - (|text| + 1));
    var length: byte := |text|;
    AtSplit(d, o, [length], text + zeros);
    AtSplit(d, o + 1, text, zeros);
    assert d[o] == d[o..o + 1][0];
  }

  lemma ByeReadBack(d: seq<byte>, ssrcs: seq<u32>, reason: Option<seq<byte>>)
    requires Frame(d) && Count(d) == |ssrcs|
    requires reason.Some? ==> |reason.value| <= 255
    requires At(d, HEADER_SIZE, Flatten(SsrcParts(ssrcs)) + ReasonBytes(reason))
    requires Unpadded(d) == Some(HEADER_SIZE + |Flatten(SsrcParts(ssrcs)) + ReasonBytes(reason)|)
    ensures DecodeBYE(d) == BYE(ssrcs, reason)
  {
    hide Flatten, SsrcParts, SsrcsAt, Unpadded, Count, Get32, At, ReasonBytes, RoundUp4, DecodeBYE, Padded;
    AtSplit(d, 4, Flatten(SsrcParts(ssrcs)), ReasonBytes(reason));
    SsrcsLength(ssrcs);
    SsrcsReadBack(d, 4, ssrcs);
    ReasonLength(reason);
    if reason.Some? {
      ReasonReadBack(d, 4 + 4 * |ssrcs|, reason.value);
    }
    ByeDecoded(d, ssrcs, reason);
  }

  lemma ReasonLength(reason: Option<seq<byte>>)
    requires reason.Some? ==> |reason.value| <= 255
    ensures |ReasonBytes(reason)| == if reason.None? then 0 else RoundUp4(|reason.value| + 1)
  {
  }

  lemma ByeDecoded(d: seq<byte>, ssrcs: seq<u32>, reason: Option<seq<byte>>)
    requires Frame(d) && Unpadded(d).Some? && Count(d) == |ssrcs|
    requires HEADER_SIZE + 4 * |ssrcs| <= |d| && SsrcsAt(d, HEADER_SIZE, |ssrcs|) == ssrcs
    requires reason.None? ==> Unpadded(d) == Some(HEADER_SIZE + 4 * |ssrcs|)
    requires reason.Some? ==>
               var o := HEADER_SIZE + 4 * |ssrcs|;
               o + 1 + |reason.value| <= Unpadded(d).value && d[o] == |reason.value|
                   && d[o + 1..o + 1 + |reason.value|] == reason.value
    ensures DecodeBYE(d) == BYE(ssrcs, reason)
  {
    hide SsrcsAt, Unpadded, Count;
  }

  lemma SenderReportReadBack(d: seq<byte>, p: Packet)
    requires p.SR? && Shape(p)
    requires Frame(d) && Unpadded(d) == Some(HEADER_SIZE + |BodyBytes(p)|) && Count(d) == |p.blocks|
    requires At(d, HEADER_SIZE, BodyBytes(p))
    ensures DecodeSR(d) == ReceivedPacket(p)
  {
    AtSplit(d, 4, Put32(p.ssrc), InfoBytes(p.info) + Flatten(BlockParts(p.blocks)));
    AtSplit(d, 8, InfoBytes(p.info), Flatten(BlockParts(p.blocks)));
    Get32At(d, 4, p.ssrc);
    InfoReadBack(d, 8, p.info);
    BlocksLength(p.blocks);
    BlocksReadBack(d, 28, p.blocks);
  }

  lemma ReceiverReportReadBack(d: seq<byte>, p: Packet)
    requires p.RR? && Shape(p)
    requires Frame(d) && Unpadded(d) == Some(HEADER_SIZE + |BodyBytes(p)|) && Count(d) == |p.blocks|
    requires At(d, HEADER_SIZE, BodyBytes(p))
    ensures DecodeRR(d) == ReceivedPacket(p)
  {
    AtSplit(d, 4, Put32(p.ssrc), Flatten(BlockParts(p.blocks)));
    Get32At(d, 4, p.ssrc);
    BlocksLength(p.blocks);
    BlocksReadBack(d, 8, p.blocks);
  }

  lemma AppReadBack(d: seq<byte>, p: Packet)
    requires p.APP? && Shape(p)
    requires Frame(d) && Unpadded(d) == Some(HEADER_SIZE + |BodyBytes(p)|) && Count(d) == p.subtype
    requires At(d, HEADER_SIZE, BodyBytes(p))
    ensures DecodeAPP(d) == p
  {
    AtSplit(d, 4, Put32(p.ssrc), p.name + p.data);
    AtSplit(d, 8, p.name, p.data);
    Get32At(d, 4, p.ssrc);
  }

  lemma HeaderFields(count: nat, ptype: byte, body: seq<byte>)
    requires count <= MAX_COUNT && |body| % 4 == 0 && HEADER_SIZE + |body| <= MAX_FRAME
    ensures var d := HeaderBytes(count, ptype, HEADER_SIZE + |body|) + body;
      Version(d) == VERSION && !Padded(d) && Count(d) == count && d[1] == ptype
      && (Get16(d, 2) + 1) * 4 == |d| && At(d, HEADER_SIZE, body)
  {
    var d := HeaderBytes(count, ptype, HEADER_SIZE + |body|) + body;
    var words := |d| / 4 - 1;
    assert words % 0x1_0000 == words;
    assert d[2] == Put16(words)[0] && d[3] == Put16(words)[1];
    Get16Put16(words);
  }

  lemma HeaderReadBack(p: Packet)
    requires Shape(p) && |PacketBytes(p)| <= MAX_FRAME
    ensures var d := PacketBytes(p);
      Version(d) == VERSION && !Padded(d) && Count(d) == CountOf(p) && d[1] == TypeOf(p)
      && (Get16(d, 2) + 1) * 4 == |d| == HEADER_SIZE + |BodyBytes(p)| && At(d, HEADER_SIZE, BodyBytes(p))
  {
    PacketAligned(p);
    HeaderFields(CountOf(p), TypeOf(p), BodyBytes(p));
  }

  /** With padding, the last octet counts the octets that are left out: a multiple of four, but not all. */
  lemma UnpaddedExact(d: seq<byte>, n: nat)
    requires Frame(d)
    ensures !Padded(d) ==> Unpadded(d) == Some(|d|)
    ensures Padded(d) ==> (Unpadded(d) == Some(n) <==> 0 < n <= |d| && (|d| - n) % 4 == 0 && d[|d| - 1] == |d| - n)
  {
  }

  /** A frame with the body of a packet, padded or not, reads as the packet. */
  lemma BodyReadBack(d: seq<byte>, p: Packet)
    requires Shape(p) && Frame(d) && Count(d) == CountOf(p) && d[1] == TypeOf(p)
    requires Unpadded(d) == Some(HEADER_SIZE + |BodyBytes(p)|) && At(d, HEADER_SIZE, BodyBytes(p))
    ensures Decode(d) == ReceivedPacket(p)
  {
    hide Unpadded, DecodeSR, DecodeRR, DecodeBYE, DecodeAPP, Flatten, Count;
    match p
    case SR(_, _, _) => SenderReportReadBack(d, p);
    case RR(_, _) => ReceiverReportReadBack(d, p);
    case SDES(chunks) => ChunksReadBack(d, 4, HEADER_SIZE + |BodyBytes(p)|, chunks);
    case BYE(ssrcs, reason) => ByeReadBack(d, ssrcs, reason);
    case APP(_, _, _, _) => AppReadBack(d, p);
  }

  /** A packet with the padding bit set, its body and padding behind it. */
  function PaddedBytes(p: Packet, padding: seq<byte>): seq<byte>
    requires Shape(p)
  {
    var words := (|BodyBytes(p)| + |padding|) / 4;
    [VERSION * 64 + 32 + CountOf(p), TypeOf(p)] + (Put16(words % 0x1_0000) + (BodyBytes(p) + padding))
  }

  /** Padding is ignored by every packet class. */
  lemma PaddedReadBack(p: Packet, padding: seq<byte>)
    requires Shape(p) && |padding| > 0 && |padding| % 4 == 0 && padding[|padding| - 1] == |padding|
    ensures Frame(PaddedBytes(p, padding)) && Decode(PaddedBytes(p, padding)) == ReceivedPacket(p)
  {
    hide BodyBytes, CountOf, TypeOf, Put16, Decode, ReceivedPacket;
    var d := PaddedBytes(p, padding);
    assert d[HEADER_SIZE..HEADER_SIZE + |BodyBytes(p)|] == BodyBytes(p);
    assert d[|d| - 1] == padding[|padding| - 1];
    assert d[0] == VERSION * 64 + 32 + CountOf(p) && d[1] == TypeOf(p);
    UnpaddedExact(d, HEADER_SIZE + |BodyBytes(p)|);
    hide Unpadded;
    BodyReadBack(d, p);
  }

  /** Any packet that fits the length field is read back with every value that was put in. */
  lemma PacketReadBack(p: Packet)
    requires Shape(p) && |PacketBytes(p)| <= MAX_FRAME
    ensures Decode(PacketBytes(p)) == ReceivedPacket(p)
  {
    hide BodyBytes, CountOf, TypeOf, Decode, ReceivedPacket, PacketBytes;
    HeaderReadBack(p);
    UnpaddedExact(PacketBytes(p), |PacketBytes(p)|);
    hide Unpadded;
    BodyReadBack(PacketBytes(p), p);
  }
}
