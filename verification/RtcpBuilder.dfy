/** RTCPCompoundPacketBuilder: byte accounting while a compound packet is put together, and its serializer. */
module RtcpBuilder {
  import opened Bytes
  import opened RtcpFormat
  import opened RtcpCompound
  import opened RtcpWriter
  import opened RtcpAccounting
  import RtcpDecode
  import RtcpRuns
  import opened RtcpSerializer

  class CompoundPacketBuilder {
    var maximumPacketSize: nat
    var buffer: array?<byte>
    var external: bool
    var areBuilding: bool

    var report: Report
    var sdes: seq<SdesSource>
    var appPackets: seq<seq<byte>>
    var appSize: nat
    var byePackets: seq<seq<byte>>
    var byeSize: nat

    // The compound packet once it is built: its octets and the frame of each packet in it.
    var compoundPacket: array?<byte>
    var compoundPacketLength: nat
    var packetList: seq<seq<byte>>

    // What has been asked for since InitBuild.
    ghost var content: Content

    /**
     * The raw buffers stand for `content`, the running totals are exact, and the maximum is overrun by
     * no more than the first SDES source (12 octets) and a sender report started after it (28 octets).
     */
    ghost predicate Valid()
      reads this
    {
      && ContentShape(content)
      && ReportMatches(report, content)
      && SourcesMatch(sdes, content.chunks)
      && Shapes(content.apps) && appPackets == PacketParts(content.apps) && appSize == Octets(content.apps)
      && Shapes(content.byes) && byePackets == PacketParts(content.byes) && byeSize == Octets(content.byes)
      && maximumPacketSize < SIZE_T / 2
      && Size(content) <= maximumPacketSize + (if content.header.Some? then 40 else 12)
      && (!areBuilding ==> content == NOTHING)
      && (external ==> buffer != null)
      && (areBuilding ==> compoundPacket == null)
    }

    constructor ()
      ensures Valid() && !areBuilding && compoundPacket == null && packetList == []
    {
      maximumPacketSize, buffer, external, areBuilding := 0, null, false, false;
      report := Report(false, [], []);
      sdes, appPackets, appSize, byePackets, byeSize := [], [], 0, [], 0;
      compoundPacket, compoundPacketLength, packetList := null, 0, [];
      content := NOTHING;
      NoPackets();
    }

    method InitBuild(maxPacketSize: nat) returns (status: Status)
      requires Valid() && maxPacketSize < SIZE_T / 2
      modifies `maximumPacketSize, `buffer, `external, `areBuilding
      ensures Valid()
      ensures status == if old(areBuilding) then AlreadyBuilding else if compoundPacket != null then AlreadyBuilt
                        else if maxPacketSize < 600 then SizeTooSmall else Success
      ensures status.Success? ==> areBuilding && !external && maximumPacketSize == maxPacketSize && content == NOTHING
      ensures !status.Success? ==> unchanged(this)
    {
      if areBuilding {
        return AlreadyBuilding;
      }
      if compoundPacket != null {
        return AlreadyBuilt;
      }
      if maxPacketSize < MIN_PACKET_SIZE {
        return SizeTooSmall;
      }
      NoPackets();
      maximumPacketSize, buffer, external, areBuilding := maxPacketSize, null, false, true;
      return Success;
    }

    method InitBuildExternal(externalBuffer: array<byte>) returns (status: Status)
      requires Valid() && externalBuffer.Length < SIZE_T / 2
      modifies `maximumPacketSize, `buffer, `external, `areBuilding
      ensures Valid()
      ensures status == if old(areBuilding) then AlreadyBuilding else if compoundPacket != null then AlreadyBuilt
                        else if externalBuffer.Length < 600 then SizeTooSmall else Success
      ensures status.Success? ==>
        areBuilding && external && buffer == externalBuffer && maximumPacketSize == externalBuffer.Length
            && content == NOTHING
      ensures !status.Success? ==> unchanged(this)
    {
      if areBuilding {
        return AlreadyBuilding;
      }
      if compoundPacket != null {
        return AlreadyBuilt;
      }
      if externalBuffer.Length < MIN_PACKET_SIZE {
        return SizeTooSmall;
      }
      NoPackets();
      maximumPacketSize, buffer, external, areBuilding := externalBuffer.Length, externalBuffer, true, true;
      return Success;
    }

    /** SDES::NeededBytes: exactly what the source descriptions will take. */
    method SdesNeededBytes() returns (x: nat)
      requires Valid()
      ensures x == SdesOctets(content.chunks)
    {
      SdesSizeExact(content.chunks);
      if sdes == [] {
        return 0;
      }
      x := SumOfSources(|sdes|);
      assert content.chunks[..|sdes|] == content.chunks;
      x := x + PacketsFor(|sdes|) * HEADER_SIZE;
    }

    method SumOfSources(n: nat) returns (x: nat)
      requires Valid() && n <= |sdes|
      ensures x == |Flatten(ChunkParts(content.chunks[..n]))|
    {
      x := 0;
      var i := 0;
      assert ChunkParts(content.chunks[..0]) == [];
      while i < n
        invariant i <= n
        invariant x == |Flatten(ChunkParts(content.chunks[..i]))|
      {
        SourceNeeded(sdes[i], content.chunks[i]);
        SumStep(content.chunks, i);
        x := x + sdes[i].NeededBytes();
        i := i + 1;
      }
    }

    /** SDES::NeededBytesWithExtraItem: what they will take once the current source has one more item. */
    method SdesNeededBytesWithExtraItem(i: Item) returns (x: nat)
      requires Valid() && sdes != [] && ItemShape(i)
      ensures var c' := WithItem(content, i);
        ContentShape(c') && x == SdesOctets(c'.chunks)
    {
      hide Flatten, ChunkBytes, ReportMatches, ChunkParts, SdesPackets, ItemParts, ItemBytes;
      var last := |sdes| - 1;
      var c' := WithItem(content, i);
      x := SumOfSources(last);
      x := x + sdes[last].NeededBytesWithExtraItem(|i.data|);
      x := x + PacketsFor(|sdes|) * HEADER_SIZE;
      SourceAddItem(sdes[last], content.chunks[last], i);
      assert c'.chunks[..last] == content.chunks[..last];
      SumStep(c'.chunks, last);
      assert c'.chunks[..|sdes|] == c'.chunks;
      SdesSizeExact(c'.chunks);
    }

    /**
     * SDES::NeededBytesWithExtraSource: what they will take with
     * one more source - but 0 while there is no source yet.
     */
    method SdesNeededBytesWithExtraSource(ssrc: u32) returns (x: nat)
      requires Valid()
      ensures var c' := WithSource(content, ssrc);
        ContentShape(c') && x == if content.chunks == [] then 0 else SdesOctets(c'.chunks)
    {
      hide Octets, Flatten, ChunkBytes, ReportMatches, SourceMatches, ChunkParts, SdesPackets;
      var c' := WithSource(content, ssrc);
      if sdes == [] {
        return 0;
      }
      x := SumOfSources(|sdes|);
      x := x + 8;
      x := x + PacketsFor(|sdes| + 1) * HEADER_SIZE;
      assert content.chunks[..|sdes|] == content.chunks;
      ExtraSource(content.chunks, ssrc);
    }

    /** What the running totals add up to. */
    lemma SizesKnown()
      requires Valid()
      ensures ContentShape(content) && (sdes == [] <==> content.chunks == [])
      ensures Size(content) == appSize + byeSize + SdesOctets(content.chunks) + report.NeededBytes()
    {
      SizeSplit(content);
      ReportNeeded(report, content);
      hide Octets, Size, ReportOctets, Flatten, ItemParts;
    }

    method StartSenderReport(ssrc: u32, info: SenderInfo) returns (status: Status)
      requires Valid()
      modifies `report, `content
      ensures status == if !areBuilding then NotBuilding
                        else RtcpRuns.Answer(old(content), RtcpRuns.StartReport(SenderHeader(ssrc, info)),
                                             maximumPacketSize)
      ensures content == if areBuilding
                         then RtcpRuns.Step(old(content), RtcpRuns.StartReport(SenderHeader(ssrc, info)),
                                            maximumPacketSize)
                         else old(content)
      ensures status.Success? ==> Size(content) == old(Size(content)) + 28
      ensures Valid()
    {
      status := StartReport(SenderHeader(ssrc, info), 28);
    }

    method StartReceiverReport(ssrc: u32) returns (status: Status)
      requires Valid()
      modifies `report, `content
      ensures status == if !areBuilding then NotBuilding
                        else RtcpRuns.Answer(old(content), RtcpRuns.StartReport(ReceiverHeader(ssrc)),
                                             maximumPacketSize)
      ensures content == if areBuilding
                         then RtcpRuns.Step(old(content), RtcpRuns.StartReport(ReceiverHeader(ssrc)),
                                            maximumPacketSize)
                         else old(content)
      ensures status.Success? ==> Size(content) == old(Size(content)) + 8
      ensures Valid()
    {
      status := StartReport(ReceiverHeader(ssrc), 8);
    }

    /** What the two Start functions have in common; `neededSize` is the header, the SSRC and the sender info. */
    method StartReport(h: Header, neededSize: nat) returns (status: Status)
      requires Valid() && neededSize == if h.SenderHeader? then 28 else 8
      modifies `report, `content
      ensures status == if !areBuilding then NotBuilding
                        else RtcpRuns.Answer(old(content), RtcpRuns.StartReport(h), maximumPacketSize)
      ensures content == if areBuilding
                         then RtcpRuns.Step(old(content), RtcpRuns.StartReport(h), maximumPacketSize)
                         else old(content)
      ensures status.Success? ==> Size(content) == old(Size(content)) + neededSize
      ensures Valid()
    {
      hide Octets, Size, ReportOctets, SdesOctets, Wire, PacketBytes, PacketParts, ItemParts, BlockParts,
           BlockBytes, InfoBytes, Flatten;
      if !areBuilding {
        return NotBuilding;
      }
      if |report.header| != 0 {
        return AlreadyGotReport;
      }
      SizeSplit(content);
      ReportNeeded(report, content);
      var totalSize := SdesNeededBytes();
      totalSize := byeSize + appSize + totalSize;
      if neededSize > SizeLeft(maximumPacketSize, totalSize) {
        return NotEnoughBytesLeft;
      }
      HeaderGrowth(content, h);
      report := Report(h.SenderHeader?, HeaderData(h), report.blocks);
      content := WithHeader(content, h);
      return Success;
    }

    method AddReportBlock(b: ReportBlock) returns (status: Status)
      requires Valid()
      modifies `report, `content
      ensures status == if !areBuilding then NotBuilding
                        else RtcpRuns.Answer(old(content), RtcpRuns.AddBlock(b), maximumPacketSize)
      ensures content == if areBuilding
                         then RtcpRuns.Step(old(content), RtcpRuns.AddBlock(b), maximumPacketSize)
                         else old(content)
      ensures Valid()
    {
      hide Octets, Size, ReportOctets, SdesOctets, Wire, PacketBytes, PacketParts, ItemParts, BlockParts,
           BlockBytes, InfoBytes, Flatten;
      if !areBuilding {
        return NotBuilding;
      }
      if |report.header| == 0 {
        return ReportNotStarted;
      }
      var c' := WithBlock(content, b);
      SizeSplit(c');
      ReportNeededWithExtra(report, content, b);
      var totalOtherSize := SdesNeededBytes();
      totalOtherSize := byeSize + appSize + totalOtherSize;
      if totalOtherSize + report.NeededBytesWithExtraReportBlock() > maximumPacketSize {
        return NotEnoughBytesLeft;
      }
      BlockPartsSnoc(content.blocks, b);
      report := report.(blocks := report.blocks + [BlockBytes(b)]);
      content := c';
      return Success;
    }

    /** The first source is accepted whenever the packets so far fit, even if it does not fit itself. */
    method AddSDESSource(ssrc: u32) returns (status: Status)
      requires Valid()
      modifies `sdes, `content
      ensures status == if !areBuilding then NotBuilding
                        else RtcpRuns.Answer(old(content), RtcpRuns.AddSource(ssrc), maximumPacketSize)
      ensures content == if areBuilding
                         then RtcpRuns.Step(old(content), RtcpRuns.AddSource(ssrc), maximumPacketSize)
                         else old(content)
      ensures status.Success? && old(content).chunks == [] ==> Size(content) == old(Size(content)) + 12
      ensures Valid()
    {
      hide Octets, Size, ReportOctets, SdesOctets, Wire, PacketBytes, PacketParts, ItemParts, BlockParts,
           BlockBytes, InfoBytes, Flatten;
      if !areBuilding {
        return NotBuilding;
      }
      var c' := WithSource(content, ssrc);
      var sdesSize := SdesNeededBytesWithExtraSource(ssrc);
      SizeSplit(content);
      SizeSplit(c');
      ReportNeeded(report, content);
      SameReport(content, c');
      FirstSource(content, ssrc);
      if byeSize + appSize + report.NeededBytes() + sdesSize > maximumPacketSize {
        return NotEnoughBytesLeft;
      }
      SourceStarted(ssrc);
      sdes := sdes + [SdesSource(ssrc, [], 0)];
      content := c';
      return Success;
    }

    method AddSDESNormalItem(t: ItemType, itemData: seq<byte>) returns (status: Status)
      requires Valid() && |itemData| <= 255
      modifies `sdes, `content
      ensures status == if !areBuilding then NotBuilding
                        else RtcpRuns.Answer(old(content), RtcpRuns.AddNormalItem(t, itemData), maximumPacketSize)
      ensures content == if areBuilding
                         then RtcpRuns.Step(old(content), RtcpRuns.AddNormalItem(t, itemData), maximumPacketSize)
                         else old(content)
      ensures Valid()
    {
      hide Valid, Size, ItemId, WithItem, ContentShape, SdesOctets;
      SizesKnown();
      if !areBuilding {
        return NotBuilding;
      }
      if sdes == [] {
        return NoCurrentSource;
      }
      if ItemId(t).None? {
        return InvalidItemType;
      }
      status := AddItem(Item(ItemId(t).value, itemData));
    }

    method AddSDESPrivateItem(prefix: seq<byte>, value: seq<byte>) returns (status: Status)
      requires Valid() && |prefix| <= 255 && |value| <= 255
      modifies `sdes, `content
      ensures status == if !areBuilding then NotBuilding
                        else RtcpRuns.Answer(old(content), RtcpRuns.AddPrivateItem(prefix, value), maximumPacketSize)
      ensures content == if areBuilding
                         then RtcpRuns.Step(old(content), RtcpRuns.AddPrivateItem(prefix, value), maximumPacketSize)
                         else old(content)
      ensures Valid()
    {
      hide Valid, Size, WithItem, ContentShape, SdesOctets;
      SizesKnown();
      if !areBuilding {
        return NotBuilding;
      }
      if sdes == [] {
        return NoCurrentSource;
      }
      if |prefix| + 1 + |value| > 255 {
        return TotalItemLengthTooBig;
      }
      status := AddItem(PrivItem(prefix, value));
    }

    method AddItem(i: Item) returns (status: Status)
      requires Valid() && areBuilding && sdes != [] && ItemShape(i)
      modifies `sdes, `content
      ensures Valid()
      ensures status == if Size(WithItem(old(content), i)) > maximumPacketSize then NotEnoughBytesLeft else Success
      ensures content == if status.Success? then WithItem(old(content), i) else old(content)
    {
      hide SourceMatches, ItemBytes, Octets, Size, ReportOctets, SdesOctets, Wire, PacketBytes, PacketParts,
           ItemParts, BlockParts, BlockBytes, InfoBytes, Flatten;
      var c' := WithItem(content, i);
      var sdesSize := SdesNeededBytesWithExtraItem(i);
      SizeSplit(c');
      ReportNeeded(report, content);
      SameReport(content, c');
      if sdesSize + (byeSize + appSize + report.NeededBytes()) > maximumPacketSize {
        return NotEnoughBytesLeft;
      }
      var last := |sdes| - 1;
      SourceAddItem(sdes[last], content.chunks[last], i);
      sdes := sdes[last := sdes[last].AddItem(ItemBytes(i))];
      content := c';
      return Success;
    }

    method AddBYEPacket(ssrcs: seq<u32>, reason: seq<byte>) returns (status: Status)
      requires Valid() && |ssrcs| <= 255 && |reason| <= 255
      modifies `byePackets, `byeSize, `content
      ensures status == if !areBuilding then NotBuilding
                        else RtcpRuns.Answer(old(content), RtcpRuns.AddBye(ssrcs, reason), maximumPacketSize)
      ensures content == if areBuilding
                         then RtcpRuns.Step(old(content), RtcpRuns.AddBye(ssrcs, reason), maximumPacketSize)
                         else old(content)
      ensures Valid()
    {
      hide Valid, ItemShapes, SsrcParts, RoundUp4, Octets, Size, SdesOctets, PacketBytes, ContentShape;
      if !areBuilding {
        return NotBuilding;
      }
      if |ssrcs| > MAX_COUNT {
        return TooManySsrcs;
      }
      var packSize, zeroBytes := ByeSizes(|ssrcs|, |reason|);
      ByeSize(ssrcs, reason);
      SizesKnown();
      ByeGrowth(content, ByePacket(ssrcs, reason));
      var sdesSize := SdesNeededBytes();
      if appSize + byeSize + sdesSize + report.NeededBytes() + packSize > maximumPacketSize {
        return NotEnoughBytesLeft;
      }
      var buf := ByeBuffer(ssrcs, reason, packSize, zeroBytes);
      TakeBye(buf, packSize, ByePacket(ssrcs, reason));
      return Success;
    }

    /** The end of AddBYEPacket: the octets go to those of the other BYE packets. */
    method TakeBye(buf: seq<byte>, packSize: nat, ghost p: Packet)
      requires Valid() && areBuilding && p.BYE? && Shape(p) && buf == PacketBytes(p) && packSize == |buf|
      requires Size(WithBye(content, p)) <= maximumPacketSize
      modifies `byePackets, `byeSize, `content
      ensures Valid() && content == WithBye(old(content), p)
    {
      hide Octets, Size, PacketBytes, Shape, PacketParts;
      PartsSnoc(content.byes, p);
      ByeGrowth(content, p);
      byePackets := byePackets + [buf];
      byeSize := byeSize + packSize;
      content := WithBye(content, p);
    }

    method AddAPPPacket(subtype: byte, ssrc: u32, name: seq<byte>, appData: seq<byte>) returns (status: Status)
      requires Valid() && |name| == 4
      modifies `appPackets, `appSize, `content
      ensures status == if !areBuilding then NotBuilding
                        else RtcpRuns.Answer(old(content), RtcpRuns.AddApp(subtype, ssrc, name, appData),
                                             maximumPacketSize)
      ensures content == if areBuilding
                         then RtcpRuns.Step(old(content), RtcpRuns.AddApp(subtype, ssrc, name, appData),
                                            maximumPacketSize)
                         else old(content)
      ensures Valid()
    {
      hide Valid, ItemShapes, HeaderBytes, Put32, Octets, Size, SdesOctets, PacketBytes, ContentShape;
      if !areBuilding {
        return NotBuilding;
      }
      if subtype > 31 {
        return IllegalSubtype;
      }
      if |appData| % 4 != 0 {
        return IllegalAppDataLength;
      }
      if |appData| / 4 + 2 > 65535 {
        return AppDataLengthTooBig;
      }
      ghost var p := APP(subtype, ssrc, name, appData);
      var packSize := HEADER_SIZE + 8 + |appData|;
      AppLayout(p);
      SizesKnown();
      AppGrowth(content, p);
      var sdesSize := SdesNeededBytes();
      if appSize + byeSize + sdesSize + report.NeededBytes() + packSize > maximumPacketSize {
        return NotEnoughBytesLeft;
      }
      var buf := HeaderBytes(subtype, TYPE_APP, packSize) + (Put32(ssrc) + (name + appData));
      TakeApp(buf, packSize, p);
      return Success;
    }

    /** The end of AddAPPPacket: the octets go to those of the other APP packets. */
    method TakeApp(buf: seq<byte>, packSize: nat, ghost p: Packet)
      requires Valid() && areBuilding && p.APP? && Shape(p) && buf == PacketBytes(p) && packSize == |buf|
      requires Size(WithApp(content, p)) <= maximumPacketSize
      modifies `appPackets, `appSize, `content
      ensures Valid() && content == WithApp(old(content), p)
    {
      hide Octets, Size, PacketBytes, Shape, PacketParts;
      PartsSnoc(content.apps, p);
      AppGrowth(content, p);
      appPackets := appPackets + [buf];
      appSize := appSize + packSize;
      content := WithApp(content, p);
    }

    /** The compound packet holds the octets of `c`, and the packet list has the frame of each packet in it. */
    ghost predicate Holds(c: Content)
      reads `compoundPacket, `compoundPacketLength, `packetList, compoundPacket
    {
      && compoundPacket != null && compoundPacketLength <= compoundPacket.Length
      && Shapes(Packets(c))
      && packetList == PacketParts(Packets(c))
      && compoundPacket[..compoundPacketLength] == Wire(Packets(c))
    }

    method EndBuild() returns (status: Status)
      requires Valid()
      requires external ==> Size(content) <= buffer.Length
      modifies this, Target()
      ensures Valid()
      ensures status == if !old(areBuilding) then NotBuilding
                        else if old(content).header.None? then NoReportPresent else Success
      ensures !status.Success? ==> unchanged(this)
      ensures status.Success? ==> !areBuilding && Holds(old(content)) && compoundPacketLength == old(Size(content))
      ensures status.Success? && old(external) ==>
        compoundPacket == old(buffer) && compoundPacket[compoundPacketLength..] == old(buffer[Size(content)..])
      ensures status.Success? && !old(external) ==>
        fresh(compoundPacket) && compoundPacket.Length == compoundPacketLength
    {
      if !areBuilding {
        return NotBuilding;
      }
      if |report.header| == 0 {
        return NoReportPresent;
      }
      hide Valid, Holds, Size;
      Serialize();
      return Success;
    }

    method Serialize()
      requires Valid() && areBuilding && content.header.Some?
      requires external ==> Size(content) <= buffer.Length
      modifies this, Target()
      ensures Valid() && !areBuilding && Holds(old(content)) && compoundPacketLength == old(Size(content))
      ensures old(external) ==>
        compoundPacket == old(buffer) && compoundPacket[compoundPacketLength..] == old(buffer[Size(content)..])
      ensures !old(external) ==> fresh(compoundPacket) && compoundPacket.Length == compoundPacketLength
    {
      hide Size, Packets, PacketParts, Wire, ReportMatches, SourcesMatch, ContentShape;
      var buf, len := ObtainBuffer();
      var list := WriteAll(buf, report, sdes, appPackets, byePackets, content);
      compoundPacket, compoundPacketLength, packetList := buf, len, list;
      areBuilding := false;
      ClearBuildBuffers();
    }

    /** The length of the compound, and the memory to write it to. */
    method ObtainBuffer() returns (buf: array<byte>, len: nat)
      requires Valid() && (external ==> Size(content) <= buffer.Length)
      ensures len == Size(content) <= buf.Length
      ensures if external then buf == buffer else fresh(buf) && buf.Length == len
    {
      hide Octets, Packets, PacketParts, Wire, SourcesMatch, Flatten, BlockParts, ItemShapes, PacketBytes;
      SizeSplit(content);
      ReportNeeded(report, content);
      var sdesSize := SdesNeededBytes();
      len := appSize + byeSize + report.NeededBytes() + sdesSize;
      if external {
        buf := buffer;
      } else {
        buf := new byte[len];
      }
    }

    /** The memory EndBuild writes to besides the builder itself. */
    ghost function Target(): set<object>
      reads this
    {
      if external && buffer != null then {buffer} else {}
    }

    method ClearBuildBuffers()
      requires maximumPacketSize < SIZE_T / 2 && (external ==> buffer != null) && !areBuilding
      modifies `report, `sdes, `appPackets, `appSize, `byePackets, `byeSize, `content
      ensures Valid() && content == NOTHING
    {
      report := Report(false, [], []);
      sdes, appPackets, appSize, byePackets, byeSize := [], [], 0, [], 0;
      content := NOTHING;
      hide Octets, Size, PacketParts, ReportMatches, SourcesMatch, ContentShape;
      NoPackets();
      NothingMatches();
    }
  }

  /**
   * What EndBuild has written after any run of calls parses into
   * the packet list it has kept, with every value put in.
   */
  lemma BuiltReadsBack(b: CompoundPacketBuilder, calls: seq<RtcpRuns.Call>, maximum: nat)
    requires RtcpRuns.AllLegal(calls) && maximum + 40 <= MAX_FRAME
    requires RtcpRuns.Run(calls, maximum).header.Some? && b.Holds(RtcpRuns.Run(calls, maximum))
    ensures var ps := Packets(RtcpRuns.Run(calls, maximum));
            && Frames(b.compoundPacket[..b.compoundPacketLength], true) == Some(b.packetList) && |b.packetList| == |ps|
            && forall i :: 0 <= i < |ps| ==> RtcpDecode.Decode(b.packetList[i]) == RtcpDecode.ReceivedPacket(ps[i])
  {
    hide Packets, Wire, Frames;
    RtcpRuns.RunRoundTrip(calls, maximum);
  }

  /** One call on a builder that is building. */
  method Perform(b: CompoundPacketBuilder, call: RtcpRuns.Call)
    requires b.Valid() && b.areBuilding && RtcpRuns.Legal(call)
    modifies b`report, b`sdes, b`appPackets, b`appSize, b`byePackets, b`byeSize, b`content
    ensures b.Valid() && b.content == RtcpRuns.Step(old(b.content), call, b.maximumPacketSize)
  {
    hide CompoundPacketBuilder.Valid, RtcpRuns.Step, RtcpRuns.Answer;
    var status;
    match call {
      case StartReport(h) =>
        match h {
          case SenderHeader(ssrc, info) => status := b.StartSenderReport(ssrc, info);
          case ReceiverHeader(ssrc) => status := b.StartReceiverReport(ssrc);
        }
      case AddBlock(block) => status := b.AddReportBlock(block);
      case AddSource(ssrc) => status := b.AddSDESSource(ssrc);
      case AddNormalItem(t, data) => status := b.AddSDESNormalItem(t, data);
      case AddPrivateItem(prefix, value) => status := b.AddSDESPrivateItem(prefix, value);
      case AddBye(ssrcs, reason) => status := b.AddBYEPacket(ssrcs, reason);
      case AddApp(subtype, ssrc, name, data) => status := b.AddAPPPacket(subtype, ssrc, name, data);
    }
  }

  /**
   * A whole run on an object: any calls between InitBuild and EndBuild. When a report was started, the octets parse
   * into the packet list the object has kept, which has all that was accepted with every value put in.
   */
  method BuildAll(calls: seq<RtcpRuns.Call>, maximum: nat) returns (b: CompoundPacketBuilder, status: Status)
    requires RtcpRuns.AllLegal(calls) && MIN_PACKET_SIZE <= maximum && maximum + 40 <= MAX_FRAME
    ensures status == if RtcpRuns.Run(calls, maximum).header.None? then NoReportPresent else Success
    ensures status.Success? ==> b.Holds(RtcpRuns.Run(calls, maximum))
    ensures status.Success? ==>
              var ps := Packets(RtcpRuns.Run(calls, maximum));
              && Frames(b.compoundPacket[..b.compoundPacketLength], true) == Some(b.packetList)
                  && |b.packetList| == |ps|
              && forall i :: 0 <= i < |ps| ==> RtcpDecode.Decode(b.packetList[i]) == RtcpDecode.ReceivedPacket(ps[i])
  {
    hide CompoundPacketBuilder.Valid, RtcpRuns.Step, CompoundPacketBuilder.Holds, Packets, Frames;
    b := new CompoundPacketBuilder();
    status := b.InitBuild(maximum);
    assert calls[..0] == [];
    for i := 0 to |calls|
      invariant b.Valid() && b.areBuilding && !b.external && b.maximumPacketSize == maximum
      invariant b.content == RtcpRuns.Run(calls[..i], maximum)
    {
      Perform(b, calls[i]);
      assert calls[..i + 1][..i] == calls[..i];
    }
    assert calls[..|calls|] == calls;
    status := b.EndBuild();
    if status.Success? {
      BuiltReadsBack(b, calls, maximum);
    }
  }

  /** The size of a BYE packet and of the padding after its reason. */
  method ByeSizes(numSsrcs: nat, reasonLength: nat) returns (packSize: nat, zeroBytes: nat)
    ensures packSize == HEADER_SIZE + 4 * numSsrcs + if reasonLength == 0 then 0 else RoundUp4(reasonLength + 1)
    ensures zeroBytes == if reasonLength == 0 then 0 else RoundUp4(reasonLength + 1) - (reasonLength + 1)
  {
    packSize, zeroBytes := HEADER_SIZE + 4 * numSsrcs, 0;
    if reasonLength > 0 {
      packSize := packSize + 1 + reasonLength;
      if packSize % 4 != 0 {
        zeroBytes := 4 - packSize % 4;
        packSize := packSize + zeroBytes;
      }
    }
  }

  lemma ByeLayout(ssrcs: seq<u32>, reason: seq<byte>)
    requires |ssrcs| <= MAX_COUNT && |reason| <= 255
    ensures var p := ByePacket(ssrcs, reason);
            var zeroBytes := RoundUp4(|reason| + 1) - (|reason| + 1);
            PacketBytes(p) == HeaderBytes(|ssrcs|, TYPE_BYE, |PacketBytes(p)|)
                              + (Flatten(SsrcParts(ssrcs)) + if reason == [] then []
                                                             else [|reason|] + (reason + Zeros(zeroBytes)))
  {
    hide SsrcParts, Flatten;
    PacketAligned(ByePacket(ssrcs, reason));
  }

  /** The octets of a BYE packet, filled in front to back. */
  method ByeBuffer(ssrcs: seq<u32>, reason: seq<byte>, packSize: nat, zeroBytes: nat) returns (buf: seq<byte>)
    requires |ssrcs| <= MAX_COUNT && |reason| <= 255
    requires packSize == |PacketBytes(ByePacket(ssrcs, reason))|
    requires zeroBytes == if reason == [] then 0 else RoundUp4(|reason| + 1) - (|reason| + 1)
    ensures buf == PacketBytes(ByePacket(ssrcs, reason))
  {
    hide PacketBytes, Put32;
    ByeLayout(ssrcs, reason);
    var sources, srcIndex := [], 0;
    assert SsrcParts(ssrcs[..0]) == [];
    while srcIndex < |ssrcs|
      invariant srcIndex <= |ssrcs|
      invariant sources == Flatten(SsrcParts(ssrcs[..srcIndex]))
    {
      SsrcsSnoc(ssrcs, srcIndex);
      sources := sources + Put32(ssrcs[srcIndex]);
      srcIndex := srcIndex + 1;
    }
    assert ssrcs[..|ssrcs|] == ssrcs;
    buf := HeaderBytes(|ssrcs|, TYPE_BYE, packSize)
        + (sources + if reason == [] then [] else [|reason|] + (reason + Zeros(zeroBytes)));
  }
}
