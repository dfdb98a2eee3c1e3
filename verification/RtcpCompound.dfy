/** The framing of RTCP compound packets (section 6.1 of RFC 3550): RTCPCompoundPacket::ParseData. */
module RtcpCompound {
  import opened Bytes
  import opened RtcpFormat
  import opened RtcpDecode

  function FrameLength(d: seq<byte>): nat
    requires Frame(d)
  {
    (Get16(d, 2) + 1) * 4
  }

  predicate IsReport(d: seq<byte>)
    requires Frame(d)
  {
    d[1] == TYPE_SR || d[1] == TYPE_RR
  }

  /** The frames of `d`; `first` asks for a report in front and refuses the empty sequence. */
  function Frames(d: seq<byte>, first: bool): Option<seq<seq<byte>>>
    decreases |d|
  {
    if |d| < HEADER_SIZE then
      if first || |d| != 0 then None else Some([])
    else if Version(d) != VERSION then None
    else if first && !IsReport(d) then None
    else if FrameLength(d) > |d| then None
    else if Padded(d) && FrameLength(d) != |d| then None
    else Prepend([d[..FrameLength(d)]], Frames(d[FrameLength(d)..], false))
  }

  function Prepend<T>(xs: seq<T>, rest: Option<seq<T>>): Option<seq<T>> {
    match rest
    case None => None
    case Some(ys) => Some(xs + ys)
  }

  lemma PrependNothing<T>(rest: Option<seq<T>>)
    ensures Prepend([], rest) == rest
  {
    if rest.Some? {
      assert [] + rest.value == rest.value;
    }
  }

  lemma PrependAll<T>(xs: seq<T>)
    ensures Prepend(xs, Some([])) == Some(xs) && Prepend(xs, None) == None
  {
    assert xs + [] == xs;
  }

  lemma PrependAppend<T>(xs: seq<T>, ys: seq<T>, rest: Option<seq<T>>)
    ensures Prepend(xs, Prepend(ys, rest)) == Prepend(xs + ys, rest)
  {
    if rest.Some? {
      assert xs + (ys + rest.value) == xs + ys + rest.value;
    }
  }

  /** A frame whose header describes it. */
  predicate WellFramed(f: seq<byte>) {
    Frame(f) && Version(f) == VERSION && FrameLength(f) == |f|
  }

  /** A compound packet: frames that describe themselves, padding in the last one only, a report in front. */
  predicate Compound(frames: seq<seq<byte>>, first: bool) {
    && (first ==> frames != [])
    && (forall i :: 0 <= i < |frames| ==> WellFramed(frames[i]))
    && (forall i :: 0 <= i < |frames| - 1 ==> WellFramed(frames[i]) && !Padded(frames[i]))
    && (first && frames != [] ==> IsReport(frames[0]))
  }

  /** A compound packet is a frame in front of a compound packet. */
  lemma CompoundCons(f: seq<byte>, tail: seq<seq<byte>>, first: bool)
    ensures Compound([f] + tail, first) <==>
              && WellFramed(f) && (first ==> IsReport(f)) && (tail != [] ==> !Padded(f))
              && Compound(tail, false)
  {
    hide FrameLength, Version, IsReport, Padded;
    var frames := [f] + tail;
    assert frames[0] == f;
    assert forall i :: 0 <= i < |tail| ==> tail[i] == frames[i + 1];
    assert forall i :: 0 < i < |frames| ==> frames[i] == tail[i - 1];
  }

  /** What the header says is read from the first octets. */
  lemma SameHeader(d: seq<byte>, f: seq<byte>)
    requires Frame(f) && f <= d
    ensures Frame(d) && Version(f) == Version(d) && FrameLength(f) == FrameLength(d)
    ensures (Padded(f) <==> Padded(d)) && (IsReport(f) <==> IsReport(d))
  {
  }

  /** What is accepted is taken apart completely, into frames that form a compound packet. */
  lemma {:induction false} FramesSound(d: seq<byte>, first: bool)
    requires Frames(d, first).Some?
    ensures var frames := Frames(d, first).value;
      Flatten(frames) == d && Compound(frames, first)
    decreases |d|
  {
    if |d| >= HEADER_SIZE {
      hide FrameLength, Version, IsReport, Padded, Compound, Flatten;
      LengthPositive(d);
      var f, rest := d[..FrameLength(d)], d[FrameLength(d)..];
      FramesSound(rest, false);
      var tail := Frames(rest, false).value;
      SameHeader(d, f);
      CompoundCons(f, tail, first);
      FlattenCons(f, tail);
      assert d == f + rest;
      if tail != [] {
        NotEmpty(tail);
      }
    } else {
      assert d == [] && Flatten([]) == [];
    }
  }

  lemma LengthPositive(d: seq<byte>)
    requires Frame(d)
    ensures FrameLength(d) >= HEADER_SIZE
  {
  }

  /** Frames take octets. */
  lemma NotEmpty(frames: seq<seq<byte>>)
    requires Compound(frames, false) && frames != []
    ensures Flatten(frames) != []
  {
    assert WellFramed(frames[0]) && Flatten(frames) == frames[0] + Flatten(frames[1..]);
  }

  /** Every compound packet is accepted, and is taken apart into the frames it was made of. */
  lemma {:induction false} FramesComplete(frames: seq<seq<byte>>, first: bool)
    requires Compound(frames, first)
    ensures Frames(Flatten(frames), first) == Some(frames)
    decreases |frames|
  {
    if frames == [] {
      assert Flatten([]) == [];
    } else {
      var f, tail := frames[0], frames[1..];
      assert frames == [f] + tail;
      CompoundCons(f, tail, first);
      FramesComplete(tail, false);
      FlattenCons(f, tail);
      FrontFrame(f, Flatten(tail), tail, first);
    }
  }

  lemma FrontFrame(f: seq<byte>, rest: seq<byte>, tail: seq<seq<byte>>, first: bool)
    requires WellFramed(f) && (first ==> IsReport(f)) && (tail != [] ==> !Padded(f))
    requires Frames(rest, false) == Some(tail) && (tail == [] ==> rest == [])
    ensures Frames(f + rest, first) == Some([f] + tail)
  {
    var d := f + rest;
    SameHeader(d, f);
    assert d[..|f|] == f && d[|f|..] == rest;
    hide Version, IsReport, Padded, FrameLength;
  }

  /** The accepted byte strings are exactly the compound packets, and the parse is unique. */
  lemma FramesExact(d: seq<byte>, frames: seq<seq<byte>>, first: bool)
    ensures Frames(d, first) == Some(frames) <==> Flatten(frames) == d && Compound(frames, first)
  {
    if Frames(d, first) == Some(frames) {
      FramesSound(d, first);
    } else if Flatten(frames) == d && Compound(frames, first) {
      FramesComplete(frames, first);
    }
  }

  /** One turn of the parser's loop, at the buffer position where `data` is left. */
  lemma ParseStep(data: seq<byte>, packets: seq<seq<byte>>, first: bool)
    requires |data| >= HEADER_SIZE
    requires Version(data) == VERSION && (first ==> IsReport(data)) && FrameLength(data) <= |data|
    requires Padded(data) ==> FrameLength(data) == |data|
    ensures var length := FrameLength(data);
      Prepend(packets, Frames(data, first)) == Prepend(packets + [data[..length]], Frames(data[length..], false))
  {
    hide Version, Padded, FrameLength, IsReport, Prepend;
    PrependAppend(packets, [data[..FrameLength(data)]], Frames(data[FrameLength(data)..], false));
  }

  /** The parser's loop over the buffer: `pos` is its data pointer, `|d| - pos` its datalen. */
  method ParseData(d: seq<byte>) returns (list: Option<seq<seq<byte>>>)
    ensures list == Frames(d, true)
  {
    hide Prepend, Get16;
    if |d| < HEADER_SIZE {
      return None;
    }
    var first, pos, packets := true, 0, [];
    assert d[0..] == d;
    PrependNothing(Frames(d, true));
    PrependAll(packets);
    while true
      invariant Prepend(packets, None) == None
      invariant pos + HEADER_SIZE <= |d|
      invariant Frames(d, true) == Prepend(packets, Frames(d[pos..], first))
      decreases |d| - pos
    {
      var data := d[pos..];
      if Version(data) != VERSION {
        return None;
      }
      if first && !IsReport(data) {
        return None;
      }
      var length := FrameLength(data);
      if length > |data| {
        return None;
      }
      if Padded(data) && length != |data| {
        return None;
      }
      ParseStep(data, packets, first);
      assert d[pos + length..] == data[length..];
      first := false;
      packets := packets + [data[..length]];
      PrependAll(packets);
      pos := pos + length;
      if |d| - pos < HEADER_SIZE {
        break;
      }
    }
    PrependAll(packets);
    if pos != |d| {
      return None;
    }
    return Some(packets);
  }

  // ---------------------------------------------------------------- what the builder is asked for

  datatype Header = SenderHeader(ssrc: u32, info: SenderInfo) | ReceiverHeader(ssrc: u32)

  function ReportPacket(h: Header, blocks: seq<ReportBlock>): Packet {
    match h
    case SenderHeader(ssrc, info) => SR(ssrc, info, blocks)
    case ReceiverHeader(ssrc) => RR(ssrc, blocks)
  }

  /** How many of `left` blocks or chunks go into the next packet. */
  function Share(left: nat): (n: nat)
    ensures n <= left && n <= MAX_COUNT
    ensures n == left || n == MAX_COUNT
  {
    if left <= MAX_COUNT then left else MAX_COUNT
  }

  /** One report packet, then receiver reports for as long as report blocks are left. */
  function ReportPackets(h: Header, blocks: seq<ReportBlock>): seq<Packet>
    decreases |blocks|
  {
    var n := Share(|blocks|);
    [ReportPacket(h, blocks[..n])] + if n == |blocks| then [] else ReportPackets(ReceiverHeader(h.ssrc), blocks[n..])
  }

  function SdesPackets(chunks: seq<Chunk>): seq<Packet>
    decreases |chunks|
  {
    if chunks == [] then []
    else var n := Share(|chunks|); [SDES(chunks[..n])] + SdesPackets(chunks[n..])
  }

  datatype Content = Content(header: Option<Header>, blocks: seq<ReportBlock>, chunks: seq<Chunk>,
                             apps: seq<Packet>, byes: seq<Packet>)

  ghost predicate ContentShape(c: Content) {
    && (c.header.None? ==> c.blocks == [])
    && ChunkShapes(c.chunks)
    && (forall p :: p in c.apps ==> p.APP? && Shape(p))
    && (forall p :: p in c.byes ==> p.BYE? && Shape(p))
  }

  function HeaderPackets(c: Content): seq<Packet> {
    if c.header.None? then [] else ReportPackets(c.header.value, c.blocks)
  }

  /** The packets of the compound, in the order RFC 3550 asks for. */
  function Packets(c: Content): seq<Packet> {
    HeaderPackets(c) + (SdesPackets(c.chunks) + (c.apps + c.byes))
  }

  ghost predicate Shapes(ps: seq<Packet>) {
    forall i :: 0 <= i < |ps| ==> Shape(ps[i])
  }

  function PacketParts(ps: seq<Packet>): (parts: seq<seq<byte>>)
    requires forall i :: 0 <= i < |ps| ==> Shape(ps[i])
    ensures |parts| == |ps|
  {
    seq(|ps|, i requires 0 <= i < |ps| => PacketBytes(ps[i]))
  }

  function Wire(ps: seq<Packet>): seq<byte>
    requires forall i :: 0 <= i < |ps| ==> Shape(ps[i])
  {
    Flatten(PacketParts(ps))
  }

  lemma WireAppend(a: seq<Packet>, b: seq<Packet>)
    requires Shapes(a) && Shapes(b)
    ensures Shapes(a + b) && Wire(a + b) == Wire(a) + Wire(b)
  {
    hide PacketBytes, Flatten;
    assert PacketParts(a + b) == PacketParts(a) + PacketParts(b);
    FlattenAppend(PacketParts(a), PacketParts(b));
  }

  lemma WireCons(p: Packet, ps: seq<Packet>)
    requires Shape(p) && Shapes(ps)
    ensures Shapes([p] + ps) && Wire([p] + ps) == PacketBytes(p) + Wire(ps)
  {
    hide PacketBytes, Flatten;
    assert PacketParts([p] + ps) == [PacketBytes(p)] + PacketParts(ps);
    FlattenCons(PacketBytes(p), PacketParts(ps));
  }

  // ---------------------------------------------------------------- how reports and chunks are divided

  function BlocksOf(ps: seq<Packet>): seq<ReportBlock> {
    if ps == [] then []
    else (if ps[0].SR? || ps[0].RR? then ps[0].blocks else []) + BlocksOf(ps[1..])
  }

  function ChunksOf(ps: seq<Packet>): seq<Chunk> {
    if ps == [] then [] else (if ps[0].SDES? then ps[0].chunks else []) + ChunksOf(ps[1..])
  }

  lemma ChunksOfCons(p: Packet, ps: seq<Packet>)
    requires p.SDES?
    ensures ChunksOf([p] + ps) == p.chunks + ChunksOf(ps)
  {
    assert ([p] + ps)[1..] == ps;
  }

  lemma BlocksOfCons(p: Packet, ps: seq<Packet>)
    requires p.SR? || p.RR?
    ensures BlocksOf([p] + ps) == p.blocks + BlocksOf(ps)
  {
    assert ([p] + ps)[1..] == ps;
  }

  function PacketsFor(n: nat): nat {
    n / 31 + if n % 31 != 0 then 1 else 0
  }

  /**
   * The report blocks are divided without loss, in order, 31 to a packet; only the first packet can be
   * a sender report, and all of them carry the reporter's SSRC.
   */
  lemma {:induction false} ReportPacketsDivide(h: Header, blocks: seq<ReportBlock>)
    ensures var ps := ReportPackets(h, blocks);
      && Shapes(ps)
      && BlocksOf(ps) == blocks
      && |ps| == (if blocks == [] then 1 else PacketsFor(|blocks|))
      && (ps[0].SR? <==> h.SenderHeader?) && (h.SenderHeader? ==> ps[0].info == h.info)
      && (forall i :: 0 <= i < |ps| ==> (ps[i].SR? || ps[i].RR?) && ps[i].ssrc == h.ssrc)
      && (forall i :: 0 < i < |ps| ==> ps[i].RR?)
      && (forall i :: 0 <= i < |ps| - 1 ==> (ps[i].SR? || ps[i].RR?) && |ps[i].blocks| == 31)
    decreases |blocks|
  {
    var n := Share(|blocks|);
    var p := ReportPacket(h, blocks[..n]);
    if n < |blocks| {
      var rest := ReportPackets(ReceiverHeader(h.ssrc), blocks[n..]);
      ReportPacketsDivide(ReceiverHeader(h.ssrc), blocks[n..]);
      BlocksOfCons(p, rest);
      assert blocks == blocks[..n] + blocks[n..];
    } else {
      BlocksOfCons(p, []);
      assert blocks == blocks[..n] + [];
    }
  }

  /** The SDES chunks are divided without loss, in order, 31 to a packet, and no packet is empty. */
  lemma {:induction false} SdesPacketsDivide(chunks: seq<Chunk>)
    requires ChunkShapes(chunks)
    ensures var ps := SdesPackets(chunks);
      && Shapes(ps)
      && ChunksOf(ps) == chunks
      && |ps| == PacketsFor(|chunks|)
      && (forall i :: 0 <= i < |ps| ==> ps[i].SDES? && ps[i].chunks != [])
      && (forall i :: 0 <= i < |ps| - 1 ==> ps[i].SDES? && |ps[i].chunks| == 31)
    decreases |chunks|
  {
    if chunks != [] {
      hide ItemShapes;
      var n := Share(|chunks|);
      var p, rest := SDES(chunks[..n]), SdesPackets(chunks[n..]);
      SdesPacketsDivide(chunks[n..]);
      ChunksOfCons(p, rest);
      assert chunks == chunks[..n] + chunks[n..];
    }
  }

  lemma PacketsShape(c: Content)
    requires ContentShape(c)
    ensures Shapes(HeaderPackets(c)) && Shapes(SdesPackets(c.chunks)) && Shapes(Packets(c))
  {
    if c.header.Some? {
      ReportPacketsDivide(c.header.value, c.blocks);
    }
    SdesPacketsDivide(c.chunks);
  }

  // ---------------------------------------------------------------- sizes

  /** RTCPCompoundPacketBuilder::Report::NeededBytes for a started report of `n` blocks. */
  function ReportSize(isSR: bool, n: nat): nat {
    if n == 0 then HEADER_SIZE + 4 + (if isSR then INFO_SIZE else 0)
    else 24 * n + 8 * PacketsFor(n) + if isSR then INFO_SIZE else 0
  }

  lemma PacketsForStep(n: nat)
    requires n > 31
    ensures PacketsFor(n) == 1 + PacketsFor(n - 31)
  {
  }

  lemma ReportPacketSize(h: Header, blocks: seq<ReportBlock>)
    requires |blocks| <= MAX_COUNT
    ensures |PacketBytes(ReportPacket(h, blocks))|
            == HEADER_SIZE + 4 + (if h.SenderHeader? then INFO_SIZE else 0) + 24 * |blocks|
  {
    BlocksLength(blocks);
    PacketAligned(ReportPacket(h, blocks));
  }

  /** The predicted size of a report is the number of octets its packets take. */
  lemma {:induction false} ReportSizeExact(h: Header, blocks: seq<ReportBlock>)
    ensures Shapes(ReportPackets(h, blocks))
    ensures |Wire(ReportPackets(h, blocks))| == ReportSize(h.SenderHeader?, |blocks|)
    decreases |blocks|
  {
    hide PacketBytes, Wire, PacketsFor;
    var n := Share(|blocks|);
    var p := ReportPacket(h, blocks[..n]);
    ReportPacketSize(h, blocks[..n]);
    if n < |blocks| {
      PacketsForStep(|blocks|);
      ReportSizeExact(ReceiverHeader(h.ssrc), blocks[n..]);
      WireCons(p, ReportPackets(ReceiverHeader(h.ssrc), blocks[n..]));
    } else {
      assert ReportPackets(h, blocks) == [p] + [];
      WireCons(p, []);
      WireNone();
      OnePacket(n);
    }
  }

  lemma WireNone()
    ensures Wire([]) == []
  {
  }

  lemma OnePacket(n: nat)
    requires n <= 31
    ensures PacketsFor(n) == if n == 0 then 0 else 1
  {
  }

  /** The predicted size of the source descriptions is the number of octets their packets take. */
  lemma {:induction false} SdesSizeExact(chunks: seq<Chunk>)
    requires ChunkShapes(chunks)
    ensures Shapes(SdesPackets(chunks))
    ensures |Wire(SdesPackets(chunks))| == |Flatten(ChunkParts(chunks))| + HEADER_SIZE * PacketsFor(|chunks|)
    decreases |chunks|
  {
    if chunks == [] {
      WireNone();
    } else {
      hide PacketBytes, Wire, PacketsFor, Flatten, ChunkBytes, ItemShapes;
      var n := Share(|chunks|);
      var p := SDES(chunks[..n]);
      SdesSizeExact(chunks[n..]);
      WireCons(p, SdesPackets(chunks[n..]));
      PacketAligned(p);
      ChunkPartsAppend(chunks[..n], chunks[n..]);
      assert chunks == chunks[..n] + chunks[n..];
      if |chunks| > 31 {
        PacketsForStep(|chunks|);
      } else {
        OnePacket(|chunks|);
        OnePacket(0);
      }
    }
  }

  lemma ChunkPartsAppend(a: seq<Chunk>, b: seq<Chunk>)
    ensures |Flatten(ChunkParts(a + b))| == |Flatten(ChunkParts(a))| + |Flatten(ChunkParts(b))|
  {
    hide ChunkBytes, Flatten;
    assert ChunkParts(a + b) == ChunkParts(a) + ChunkParts(b);
    FlattenAppend(ChunkParts(a), ChunkParts(b));
  }

  lemma WireSplit(c: Content)
    requires ContentShape(c)
    ensures Shapes(HeaderPackets(c)) && Shapes(SdesPackets(c.chunks)) && Shapes(c.apps) && Shapes(c.byes)
            && Shapes(Packets(c))
    ensures Wire(Packets(c)) == Wire(HeaderPackets(c)) + (Wire(SdesPackets(c.chunks)) + (Wire(c.apps) + Wire(c.byes)))
  {
    PacketsShape(c);
    WireAppend(c.apps, c.byes);
    WireAppend(SdesPackets(c.chunks), c.apps + c.byes);
    WireAppend(HeaderPackets(c), SdesPackets(c.chunks) + (c.apps + c.byes));
  }

  lemma {:induction false} PacketWithinWire(ps: seq<Packet>, i: nat)
    requires Shapes(ps) && i < |ps|
    ensures |PacketBytes(ps[i])| <= |Wire(ps)|
    decreases |ps|
  {
    hide PacketBytes;
    assert ps == [ps[0]] + ps[1..];
    WireCons(ps[0], ps[1..]);
    if i > 0 {
      PacketWithinWire(ps[1..], i - 1);
    }
  }

  // ---------------------------------------------------------------- the round trip

  /** Every packet fits the sixteen-bit length field. */
  ghost predicate AllFit(ps: seq<Packet>)
    requires Shapes(ps)
  {
    forall i :: 0 <= i < |ps| ==> |PacketBytes(ps[i])| <= MAX_FRAME
  }

  /**
   * Main round trip. Whatever the builder was asked to put behind a report, the parser takes the octets
   * apart into exactly the packets that were written if and only if each of them fits the length field;
   * and then every packet is of known format and reads back as it was put in.
   */
  lemma CompoundRoundTrip(c: Content)
    requires ContentShape(c) && c.header.Some?
    ensures Shapes(Packets(c))
    ensures Frames(Wire(Packets(c)), true) == Some(PacketParts(Packets(c))) <==> AllFit(Packets(c))
    ensures AllFit(Packets(c)) ==>
      forall i :: 0 <= i < |Packets(c)| ==> Decode(PacketParts(Packets(c))[i]) == ReceivedPacket(Packets(c)[i])
  {
    PacketsShape(c);
    var ps := Packets(c);
    if AllFit(ps) {
      FittingPacketsReadBack(c);
    } else {
      OversizeBreaksFraming(ps);
    }
  }

  lemma FittingPacketsReadBack(c: Content)
    requires ContentShape(c) && c.header.Some? && Shapes(Packets(c)) && AllFit(Packets(c))
    ensures Frames(Wire(Packets(c)), true) == Some(PacketParts(Packets(c)))
    ensures forall i :: 0 <= i < |Packets(c)| ==> Decode(PacketParts(Packets(c))[i]) == ReceivedPacket(Packets(c)[i])
  {
    hide PacketBytes, Flatten, Decode;
    var ps := Packets(c);
    var frames := PacketParts(ps);
    forall i | 0 <= i < |ps|
      ensures WellFramed(frames[i]) && !Padded(frames[i]) && frames[i][1] == TypeOf(ps[i])
      ensures Decode(frames[i]) == ReceivedPacket(ps[i])
    {
      HeaderReadBack(ps[i]);
      PacketReadBack(ps[i]);
    }
    ReportPacketsDivide(c.header.value, c.blocks);
    assert ps[0] == HeaderPackets(c)[0];
    FramesComplete(frames, true);
  }

  lemma OversizeBreaksFraming(ps: seq<Packet>)
    requires Shapes(ps) && !AllFit(ps)
    ensures Frames(Wire(ps), true) != Some(PacketParts(ps))
  {
    hide PacketBytes, Flatten;
    var i :| 0 <= i < |ps| && |PacketBytes(ps[i])| > MAX_FRAME;
    var frames := PacketParts(ps);
    assert !WellFramed(frames[i]);
    FramesExact(Wire(ps), frames, true);
  }

  /** In particular nothing is lost when the compound is at most 2^18 octets long (the default maximum is 1400). */
  lemma SmallCompoundRoundTrip(c: Content)
    requires ContentShape(c) && c.header.Some?
    requires Shapes(Packets(c)) && |Wire(Packets(c))| <= MAX_FRAME
    ensures Frames(Wire(Packets(c)), true) == Some(PacketParts(Packets(c)))
    ensures forall i :: 0 <= i < |Packets(c)| ==> Decode(PacketParts(Packets(c))[i]) == ReceivedPacket(Packets(c)[i])
  {
    forall i | 0 <= i < |Packets(c)|
      ensures |PacketBytes(Packets(c)[i])| <= MAX_FRAME
    {
      PacketWithinWire(Packets(c), i);
    }
    CompoundRoundTrip(c);
  }
}
