/** EndBuild's passes over the report, the sources, the APP packets and the BYE packets. */
module RtcpSerializer {
  import opened Bytes
  import opened RtcpFormat
  import opened RtcpCompound
  import opened RtcpWriter
  import opened RtcpAccounting

  /** The packet that was just written, as the frame its packet object refers to. */
  method ReadFrame(buf: array<byte>, cur: nat, offset: nat, ghost before: seq<byte>, ghost sofar: seq<seq<byte>>,
                   ghost packet: seq<byte>, ghost b: seq<byte>) returns (frame: seq<byte>)
    requires |before| == buf.Length && offset == |packet| && cur + offset <= buf.Length
    requires Written(b, before, sofar, cur) && |b| == |before| && buf[..] == Patch(b, cur, packet)
    ensures frame == packet
    ensures Written(buf[..], before, sofar + [packet], cur + offset)
  {
    FrameWritten(b, buf[..], before, sofar, cur, packet);
    frame := buf[cur..cur + offset];
    assert frame == buf[..][cur..cur + offset];
  }

  /** A report packet behind what is in the buffer, and its frame. */
  method EmitReport(buf: array<byte>, cur: nat, ptype: byte, headerData: seq<byte>, blocks: seq<seq<byte>>, it: nat,
                    ghost before: seq<byte>, ghost sofar: seq<seq<byte>>, ghost packet: seq<byte>)
    returns (frame: seq<byte>, next: nat)
    requires it <= |blocks| && packet == RawReport(ptype, headerData, blocks[it..it + Share(|blocks| - it)])
    requires |before| == buf.Length && Written(buf[..], before, sofar, cur) && cur + |packet| <= buf.Length
    modifies buf
    ensures next == it + Share(|blocks| - it) && frame == packet
    ensures Written(buf[..], before, sofar + [packet], cur + |packet|)
  {
    hide RawReport, Written, Patch;
    ghost var b := buf[..];
    var offset: nat;
    offset, next := WriteReport(buf, cur, ptype, headerData, blocks, it, packet);
    frame := ReadFrame(buf, cur, offset, before, sofar, packet, b);
  }

  /** An SDES packet behind what is in the buffer, and its frame. */
  method EmitSdes(buf: array<byte>, cur: nat, sdes: seq<SdesSource>, it: nat,
                  ghost before: seq<byte>, ghost sofar: seq<seq<byte>>, ghost packet: seq<byte>)
    returns (frame: seq<byte>, next: nat)
    requires it <= |sdes| && packet == SdesOctetsFrom(sdes, it)
    requires |before| == buf.Length && Written(buf[..], before, sofar, cur) && cur + |packet| <= buf.Length
    modifies buf
    ensures next == it + Share(|sdes| - it) && frame == packet
    ensures Written(buf[..], before, sofar + [packet], cur + |packet|)
  {
    hide RawSdes, Written, Patch;
    ghost var b := buf[..];
    var offset: nat;
    offset, next := WriteSdes(buf, cur, sdes, it, packet);
    frame := ReadFrame(buf, cur, offset, before, sofar, packet, b);
  }

  /** The next report packet; `sofar` is in the buffer, `target` is to be there in the end. */
  method WriteReportFrame(buf: array<byte>, cur: nat, report: Report, firstPacket: bool, it: nat, ghost c: Content,
                          ghost before: seq<byte>, ghost sofar: seq<seq<byte>>, ghost target: seq<seq<byte>>)
    returns (frame: seq<byte>, next: nat)
    requires ReportMatches(report, c) && c.header.Some? && it <= |report.blocks| && |before| == buf.Length
    requires |c.blocks| == |report.blocks| && NextHeader(c, firstPacket, it).Some?
    requires ReportsToWrite(NextHeader(c, firstPacket, it), c.blocks[it..], sofar, target)
    requires Written(buf[..], before, sofar, cur) && |Flatten(target)| <= buf.Length
    modifies buf
    ensures next == it + Share(|c.blocks| - it)
    ensures ReportsToWrite(NextHeader(c, false, next), c.blocks[next..], sofar + [frame], target)
    ensures Written(buf[..], before, sofar + [frame], cur + |frame|)
  {
    hide *;
    WrittenLength(buf[..], before, sofar, cur);
    ghost var packet := ReportOctetsFrom(c, firstPacket, it);
    NextRawReport(report, c, firstPacket, it, sofar, target);
    var ptype, headerData := ReportHeader(report, firstPacket, c);
    frame, next := EmitReport(buf, cur, ptype, headerData, report.blocks, it, before, sofar, packet);
  }

  /** Packet type and leading octets: the sender information goes into the first packet only. */
  method ReportHeader(report: Report, firstPacket: bool, ghost c: Content) returns (ptype: byte, headerData: seq<byte>)
    requires ReportMatches(report, c) && c.header.Some?
    ensures ptype == if PacketHeader(c, firstPacket).SenderHeader? then TYPE_SR else TYPE_RR
    ensures headerData == HeaderData(PacketHeader(c, firstPacket))
  {
    HeaderSlices(report, c);
    if firstPacket && report.isSR {
      return TYPE_SR, report.header;
    }
    return TYPE_RR, report.header[..4];
  }

  /** A packet for the header and the first blocks, more while blocks are left. */
  method WriteReports(buf: array<byte>, report: Report, ghost c: Content) returns (cur: nat, list: seq<seq<byte>>)
    requires ContentShape(c) && ReportMatches(report, c) && c.header.Some? && ReportOctets(c) <= buf.Length
    modifies buf
    ensures Shapes(HeaderPackets(c)) && list == PacketParts(HeaderPackets(c))
    ensures cur == ReportOctets(c)
    ensures Written(buf[..], old(buf[..]), list, cur)
  {
    ReportsTarget(c);
    hide Octets, PacketBytes, PacketParts, Flatten, Patch, BlockParts, ReportsToWrite, ContentShape;
    ghost var before, target := buf[..], PacketParts(HeaderPackets(c));
    cur, list := 0, [];
    var firstPacket, it, done := true, 0, false;
    NothingWritten(before);
    assert c.blocks[0..] == c.blocks;
    while !done
      invariant it <= |report.blocks| && (done <==> !firstPacket && it == |report.blocks|)
      invariant ReportsToWrite(NextHeader(c, firstPacket, it), c.blocks[it..], list, target)
      invariant Written(buf[..], before, list, cur)
      decreases |report.blocks| - it, !done
    {
      var frame, next := WriteReportFrame(buf, cur, report, firstPacket, it, c, before, list, target);
      list := list + [frame];
      firstPacket, it, cur := false, next, cur + |frame|;
      done := it == |report.blocks|;
    }
    ReportsWritten(c.blocks[it..], list, target);
  }

  /** The next SDES packet. */
  method WriteSdesFrame(buf: array<byte>, cur: nat, sdes: seq<SdesSource>, it: nat, ghost chunks: seq<Chunk>,
                        ghost before: seq<byte>, ghost sofar: seq<seq<byte>>, ghost target: seq<seq<byte>>)
    returns (frame: seq<byte>, next: nat)
    requires ChunkShapes(chunks) && SourcesMatch(sdes, chunks) && it < |sdes| && |before| == buf.Length
    requires SdesToWrite(chunks[it..], sofar, target)
    requires Written(buf[..], before, sofar, cur) && |Flatten(target)| <= buf.Length
    modifies buf
    ensures it < next <= |sdes| && SdesToWrite(chunks[next..], sofar + [frame], target)
    ensures Written(buf[..], before, sofar + [frame], cur + |frame|)
  {
    hide *;
    WrittenLength(buf[..], before, sofar, cur);
    ghost var packet := SdesOctetsFrom(sdes, it);
    NextRawSdes(sdes, chunks, it, sofar, target);
    frame, next := EmitSdes(buf, cur, sdes, it, before, sofar, packet);
  }

  /** The source descriptions, 31 chunks to a packet. */
  method WriteSources(buf: array<byte>, start: nat, sdes: seq<SdesSource>, ghost chunks: seq<Chunk>,
                      ghost before: seq<byte>, ghost done: seq<seq<byte>>)
    returns (cur: nat, list: seq<seq<byte>>)
    requires ChunkShapes(chunks) && SourcesMatch(sdes, chunks) && |before| == buf.Length
    requires Written(buf[..], before, done, start) && start + SdesOctets(chunks) <= buf.Length
    modifies buf
    ensures Shapes(SdesPackets(chunks)) && list == PacketParts(SdesPackets(chunks))
    ensures cur == start + SdesOctets(chunks)
    ensures Written(buf[..], before, done + list, cur)
  {
    SdesPacketsDivide(chunks);
    hide PacketBytes, PacketParts, Flatten, Patch, SdesPackets, SourceMatches, ItemShapes, Octets, SdesToWrite;
    ghost var target := done + PacketParts(SdesPackets(chunks));
    SdesTarget(chunks, done);
    cur, list := start, [];
    var it := 0;
    assert chunks[0..] == chunks && done + list == done;
    while it < |sdes|
      invariant it <= |sdes|
      invariant SdesToWrite(chunks[it..], done + list, target)
      invariant Written(buf[..], before, done + list, cur)
      decreases |sdes| - it
    {
      var frame, next := WriteSdesFrame(buf, cur, sdes, it, chunks, before, done + list, target);
      assert done + list + [frame] == done + (list + [frame]);
      list := list + [frame];
      it, cur := next, cur + |frame|;
    }
    SdesWritten(chunks[it..], done + list, target);
    assert list == target[|done|..];
  }

  /** The APP and BYE packets were written when they were added; EndBuild copies them. */
  method WriteRaw(buf: array<byte>, start: nat, packets: seq<seq<byte>>, ghost before: seq<byte>,
                  ghost done: seq<seq<byte>>)
    returns (cur: nat)
    requires |before| == buf.Length
    requires Written(buf[..], before, done, start) && start + |Flatten(packets)| <= buf.Length
    modifies buf
    ensures cur == start + |Flatten(packets)|
    ensures Written(buf[..], before, done + packets, cur)
  {
    cur := WriteItems(buf, start, packets, before, 0, Flatten(done));
    FlattenAppend(done, packets);
  }

  /** Reports, source descriptions, APP packets, BYE packets. */
  method WriteAll(buf: array<byte>, report: Report, sdes: seq<SdesSource>, appPackets: seq<seq<byte>>,
                  byePackets: seq<seq<byte>>, ghost c: Content)
    returns (list: seq<seq<byte>>)
    requires ContentShape(c) && c.header.Some? && Size(c) <= buf.Length
    requires ReportMatches(report, c) && SourcesMatch(sdes, c.chunks)
    requires Shapes(c.apps) && appPackets == PacketParts(c.apps)
    requires Shapes(c.byes) && byePackets == PacketParts(c.byes)
    modifies buf
    ensures Shapes(Packets(c)) && list == PacketParts(Packets(c))
    ensures buf[..Size(c)] == Wire(Packets(c))
    ensures buf[Size(c)..] == old(buf[Size(c)..])
  {
    hide Wire, PacketBytes, PacketParts, Flatten, Patch, Octets, ReportMatches, SourcesMatch, Packets,
         HeaderPackets, SdesPackets;
    ghost var before := buf[..];
    SizeSplit(c);
    PacketsShape(c);
    var cur, reports := WriteReports(buf, report, c);
    var sources: seq<seq<byte>>;
    cur, sources := WriteSources(buf, cur, sdes, c.chunks, before, reports);
    WireIsFlatten(c.apps);
    WireIsFlatten(c.byes);
    cur := WriteRaw(buf, cur, appPackets, before, reports + sources);
    cur := WriteRaw(buf, cur, byePackets, before, reports + sources + appPackets);
    list := reports + sources + appPackets + byePackets;
    PartsTogether(c);
    PatchWhole(before, Wire(Packets(c)));
    assert buf[..Size(c)] == buf[..][..Size(c)] && buf[Size(c)..] == buf[..][Size(c)..];
    assert old(buf[Size(c)..]) == before[Size(c)..];
  }
}
