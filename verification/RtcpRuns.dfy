/**
 * Whole runs of RTCPCompoundPacketBuilder: any sequence of calls between InitBuild and EndBuild, what it leaves to be
 * written, when that stays within the maximum size, and that the parser takes it apart again.
 */
module RtcpRuns {
  import opened Bytes
  import opened RtcpFormat
  import RtcpDecode
  import opened RtcpCompound
  import opened RtcpAccounting

  datatype Call =
    | StartReport(h: Header)
    | AddBlock(b: ReportBlock)
    | AddSource(ssrc: u32)
    | AddNormalItem(t: ItemType, data: seq<byte>)
    | AddPrivateItem(prefix: seq<byte>, value: seq<byte>)
    | AddBye(ssrcs: seq<u32>, reason: seq<byte>)
    | AddApp(subtype: byte, ssrc: u32, name: seq<byte>, data: seq<byte>)

  /** What the parameter types of the calls allow: lengths in an octet, a name of four octets. */
  predicate Legal(call: Call) {
    match call
    case AddNormalItem(_, data) => |data| <= 255
    case AddPrivateItem(prefix, value) => |prefix| <= 255 && |value| <= 255
    case AddBye(ssrcs, reason) => |ssrcs| <= 255 && |reason| <= 255
    case AddApp(_, _, name, _) => |name| == 4
    case _ => true
  }

  function StartSize(h: Header): nat {
    if h.SenderHeader? then 28 else 8
  }

  /** The answer of a call while the builder is building. */
  ghost function Answer(c: Content, call: Call, maximum: nat): Status
    requires Legal(call)
  {
    match call
    case StartReport(h) => StartStatus(true, c, maximum, StartSize(h))
    case AddBlock(b) =>
      if c.header.None? then ReportNotStarted
      else if Size(WithBlock(c, b)) > maximum then NotEnoughBytesLeft else Success
    case AddSource(ssrc) =>
      if (if c.chunks == [] then Size(c) else Size(WithSource(c, ssrc))) > maximum then NotEnoughBytesLeft else Success
    case AddNormalItem(t, data) =>
      if c.chunks == [] then NoCurrentSource
      else if ItemId(t).None? then InvalidItemType
      else if Size(WithItem(c, Item(ItemId(t).value, data))) > maximum then NotEnoughBytesLeft else Success
    case AddPrivateItem(prefix, value) =>
      if c.chunks == [] then NoCurrentSource
      else if |prefix| + 1 + |value| > 255 then TotalItemLengthTooBig
      else if Size(WithItem(c, PrivItem(prefix, value))) > maximum then NotEnoughBytesLeft else Success
    case AddBye(ssrcs, reason) =>
      if |ssrcs| > MAX_COUNT then TooManySsrcs
      else if Size(WithBye(c, ByePacket(ssrcs, reason))) > maximum then NotEnoughBytesLeft else Success
    case AddApp(subtype, ssrc, name, data) =>
      if subtype > 31 then IllegalSubtype
      else if |data| % 4 != 0 then IllegalAppDataLength
      else if |data| / 4 + 2 > 65535 then AppDataLengthTooBig
      else if Size(WithApp(c, APP(subtype, ssrc, name, data))) > maximum then NotEnoughBytesLeft else Success
  }

  ghost function Applied(c: Content, call: Call): Content
    requires call.AddNormalItem? ==> c.chunks != [] && ItemId(call.t).Some?
    requires call.AddPrivateItem? ==> c.chunks != [] && |call.prefix| <= 255
  {
    match call
    case StartReport(h) => WithHeader(c, h)
    case AddBlock(b) => WithBlock(c, b)
    case AddSource(ssrc) => WithSource(c, ssrc)
    case AddNormalItem(t, data) => WithItem(c, Item(ItemId(t).value, data))
    case AddPrivateItem(prefix, value) => WithItem(c, PrivItem(prefix, value))
    case AddBye(ssrcs, reason) => WithBye(c, ByePacket(ssrcs, reason))
    case AddApp(subtype, ssrc, name, data) => WithApp(c, APP(subtype, ssrc, name, data))
  }

  /** A call that is refused changes nothing. */
  ghost function Step(c: Content, call: Call, maximum: nat): Content
    requires Legal(call)
  {
    if Answer(c, call, maximum).Success? then Applied(c, call) else c
  }

  ghost predicate AllLegal(calls: seq<Call>) {
    forall k :: 0 <= k < |calls| ==> Legal(calls[k])
  }

  /** What the builder has been made to hold after all the calls. */
  ghost function Run(calls: seq<Call>, maximum: nat): Content
    requires AllLegal(calls)
  {
    if calls == [] then NOTHING
    else Step(Run(calls[..|calls| - 1], maximum), calls[|calls| - 1], maximum)
  }

  // ---------------------------------------------------------------- which calls are accepted, and what they leave

  /** Which calls are accepted, with all limits written out. */
  lemma AcceptedExactly(c: Content, call: Call, maximum: nat)
    requires Legal(call)
    ensures Answer(c, call, maximum).Success? <==>
      match call
      case StartReport(h) =>
        c.header.None? && (Size(c) > maximum || Size(c) + (if h.SenderHeader? then 28 else 8) <= maximum)
      case AddBlock(b) => c.header.Some? && Size(c.(blocks := c.blocks + [b])) <= maximum
      case AddSource(ssrc) =>
        if c.chunks == [] then Size(c) <= maximum else Size(c.(chunks := c.chunks + [Chunk(ssrc, [])])) <= maximum
      case AddNormalItem(t, data) =>
        c.chunks != [] && t in {CNAME, NAME, EMAIL, PHONE, LOC, TOOL, NOTE} && Size(Applied(c, call)) <= maximum
      case AddPrivateItem(prefix, value) =>
        c.chunks != [] && |prefix| + |value| <= 254 && Size(Applied(c, call)) <= maximum
      case AddBye(ssrcs, _) => |ssrcs| <= 31 && Size(Applied(c, call)) <= maximum
      case AddApp(subtype, _, _, data) =>
        subtype <= 31 && |data| % 4 == 0 && |data| <= 4 * 65533 && Size(Applied(c, call)) <= maximum
  {
    hide Size;
  }

  /** The first thing that is wrong with a call is what it is refused for. */
  lemma RefusedExactly(c: Content, call: Call, maximum: nat)
    requires Legal(call) && !Answer(c, call, maximum).Success?
    ensures Answer(c, call, maximum) ==
      match call
      case StartReport(_) => if c.header.Some? then AlreadyGotReport else NotEnoughBytesLeft
      case AddBlock(_) => if c.header.None? then ReportNotStarted else NotEnoughBytesLeft
      case AddSource(_) => NotEnoughBytesLeft
      case AddNormalItem(t, _) =>
        if c.chunks == [] then NoCurrentSource
        else if t in {NoItem, PRIV, UnknownItem} then InvalidItemType else NotEnoughBytesLeft
      case AddPrivateItem(prefix, value) =>
        if c.chunks == [] then NoCurrentSource
        else if |prefix| + |value| >= 255 then TotalItemLengthTooBig else NotEnoughBytesLeft
      case AddBye(ssrcs, _) => if |ssrcs| >= 32 then TooManySsrcs else NotEnoughBytesLeft
      case AddApp(subtype, _, _, data) =>
        if subtype >= 32 then IllegalSubtype else if |data| % 4 != 0 then IllegalAppDataLength
        else if |data| > 4 * 65533 then AppDataLengthTooBig else NotEnoughBytesLeft
  {
    hide Size;
  }

  /** The calls of a run that are accepted, in order. */
  ghost function Taken(calls: seq<Call>, maximum: nat): seq<Call>
    requires AllLegal(calls)
  {
    if calls == [] then []
    else
      var n := |calls| - 1;
      Taken(calls[..n], maximum)
      + if Answer(Run(calls[..n], maximum), calls[n], maximum).Success? then [calls[n]] else []
  }

  function HeaderOf(call: Call): seq<Header> {
    if call.StartReport? then [call.h] else []
  }

  function BlockOf(call: Call): seq<ReportBlock> {
    if call.AddBlock? then [call.b] else []
  }

  function ByeOf(call: Call): seq<Packet> {
    if call.AddBye? then [BYE(call.ssrcs, if |call.reason| == 0 then None else Some(call.reason))] else []
  }

  function AppOf(call: Call): seq<Packet> {
    if call.AddApp? then [APP(call.subtype, call.ssrc, call.name, call.data)] else []
  }

  function ItemOf(call: Call): seq<Item> {
    match call
    case AddNormalItem(t, data) => if ItemId(t).Some? then [Item(ItemId(t).value, data)] else []
    case AddPrivateItem(prefix, value) => if |prefix| <= 255 then [Item(8, [|prefix|] + prefix + value)] else []
    case _ => []
  }

  function Headers(calls: seq<Call>): seq<Header> {
    if calls == [] then [] else HeaderOf(calls[0]) + Headers(calls[1..])
  }

  function Blocks(calls: seq<Call>): seq<ReportBlock> {
    if calls == [] then [] else BlockOf(calls[0]) + Blocks(calls[1..])
  }

  function Byes(calls: seq<Call>): seq<Packet> {
    if calls == [] then [] else ByeOf(calls[0]) + Byes(calls[1..])
  }

  function Apps(calls: seq<Call>): seq<Packet> {
    if calls == [] then [] else AppOf(calls[0]) + Apps(calls[1..])
  }

  /** The items of the calls before the next source. */
  function ItemsUpToNext(calls: seq<Call>): seq<Item> {
    if calls == [] || calls[0].AddSource? then [] else ItemOf(calls[0]) + ItemsUpToNext(calls[1..])
  }

  function SourceOf(call: Call, items: seq<Item>): seq<Chunk> {
    if call.AddSource? then [Chunk(call.ssrc, items)] else []
  }

  /** Each source with the items behind it. */
  function Sources(calls: seq<Call>): seq<Chunk> {
    if calls == [] then [] else SourceOf(calls[0], ItemsUpToNext(calls[1..])) + Sources(calls[1..])
  }

  lemma {:induction false} HeadersSnoc(calls: seq<Call>, call: Call)
    ensures Headers(calls + [call]) == Headers(calls) + HeaderOf(call)
  {
    hide HeaderOf;
    if calls != [] {
      HeadersSnoc(calls[1..], call);
      assert (calls + [call])[1..] == calls[1..] + [call];
    }
  }

  lemma {:induction false} BlocksSnoc(calls: seq<Call>, call: Call)
    ensures Blocks(calls + [call]) == Blocks(calls) + BlockOf(call)
  {
    hide BlockOf;
    if calls != [] {
      BlocksSnoc(calls[1..], call);
      assert (calls + [call])[1..] == calls[1..] + [call];
    }
  }

  lemma {:induction false} ByesSnoc(calls: seq<Call>, call: Call)
    ensures Byes(calls + [call]) == Byes(calls) + ByeOf(call)
  {
    hide ByeOf;
    if calls != [] {
      ByesSnoc(calls[1..], call);
      assert (calls + [call])[1..] == calls[1..] + [call];
    }
  }

  lemma {:induction false} AppsSnoc(calls: seq<Call>, call: Call)
    ensures Apps(calls + [call]) == Apps(calls) + AppOf(call)
  {
    hide AppOf;
    if calls != [] {
      AppsSnoc(calls[1..], call);
      assert (calls + [call])[1..] == calls[1..] + [call];
    }
  }

  lemma ItemsCons(call: Call, rest: seq<Call>)
    ensures ItemsUpToNext([call] + rest) == if call.AddSource? then [] else ItemOf(call) + ItemsUpToNext(rest)
    ensures Sources([call] + rest) == [] <==> !call.AddSource? && Sources(rest) == []
  {
    assert ([call] + rest)[1..] == rest;
    hide ItemOf;
  }

  lemma SourcesOne(call: Call)
    ensures Sources([call]) == if call.AddSource? then [Chunk(call.ssrc, [])] else []
    ensures ItemsUpToNext([call]) == ItemOf(call) && (call.AddSource? ==> ItemOf(call) == [])
  {
    assert [call][1..] == [];
  }

  lemma SourcesNone()
    ensures Sources([]) == [] && ItemsUpToNext([]) == []
  {
  }

  lemma {:induction false} ItemsSnoc(calls: seq<Call>, call: Call)
    ensures ItemsUpToNext(calls + [call]) == ItemsUpToNext(calls) + if Sources(calls) == [] then ItemOf(call) else []
    decreases |calls|
  {
    hide *;
    SourcesNone();
    if calls == [] {
      assert calls + [call] == [call];
      SourcesOne(call);
    } else {
      var first, rest := calls[0], calls[1..];
      ItemsSnoc(rest, call);
      ItemsCons(first, rest);
      ItemsCons(first, rest + [call]);
      assert calls == [first] + rest && calls + [call] == [first] + (rest + [call]);
      var more := if Sources(rest) == [] then ItemOf(call) else [];
      assert ItemOf(first) + (ItemsUpToNext(rest) + more) == ItemOf(first) + ItemsUpToNext(rest) + more;
    }
  }

  /** The last source with more items. */
  function LastWith(chunks: seq<Chunk>, items: seq<Item>): seq<Chunk> {
    if chunks == [] then []
    else chunks[..|chunks| - 1] + [Chunk(chunks[|chunks| - 1].ssrc, chunks[|chunks| - 1].items + items)]
  }

  lemma LastWithCons(c: Chunk, chunks: seq<Chunk>, items: seq<Item>)
    ensures LastWith([c] + chunks, items)
         == if chunks == [] then [Chunk(c.ssrc, c.items + items)] else [c] + LastWith(chunks, items)
  {
    if chunks != [] {
      assert ([c] + chunks)[..|chunks|] == [c] + chunks[..|chunks| - 1];
    }
  }

  lemma LastWithNone(chunks: seq<Chunk>)
    ensures LastWith(chunks, []) == chunks
    ensures forall items :: LastWith([], items) == []
  {
    if chunks != [] {
      assert chunks[|chunks| - 1].items + [] == chunks[|chunks| - 1].items;
    }
  }

  lemma FirstWith(call: Call, items: seq<Item>, chunks: seq<Chunk>, more: seq<Item>)
    ensures LastWith(SourceOf(call, items) + chunks, more)
         == if chunks == [] then SourceOf(call, items + more) else SourceOf(call, items) + LastWith(chunks, more)
  {
    if call.AddSource? {
      LastWithCons(Chunk(call.ssrc, items), chunks, more);
    } else {
      assert [] + chunks == chunks && [] + LastWith(chunks, more) == LastWith(chunks, more);
    }
  }

  lemma SourcesCons(call: Call, rest: seq<Call>)
    ensures Sources([call] + rest) == SourceOf(call, ItemsUpToNext(rest)) + Sources(rest)
  {
    assert ([call] + rest)[1..] == rest;
  }

  /** One more call begins a source, or adds its item to the last one. */
  lemma {:induction false} SourcesSnoc(calls: seq<Call>, call: Call)
    ensures Sources(calls + [call])
         == if call.AddSource? then Sources(calls) + [Chunk(call.ssrc, [])] else LastWith(Sources(calls), ItemOf(call))
    decreases |calls|
  {
    hide *;
    SourcesOne(call);
    if calls == [] {
      assert calls + [call] == [call];
      SourcesNone();
      LastWithNone([]);
    } else {
      var first, rest := calls[0], calls[1..];
      var items, cs, more := ItemsUpToNext(rest), Sources(rest), ItemOf(call);
      SourcesSnoc(rest, call);
      ItemsSnoc(rest, call);
      SourcesCons(first, rest);
      SourcesCons(first, rest + [call]);
      assert calls == [first] + rest && calls + [call] == [first] + (rest + [call]);
      assert items + [] == items;
      if call.AddSource? {
        assert SourceOf(first, items) + (cs + [Chunk(call.ssrc, [])])
          == SourceOf(first, items) + cs + [Chunk(call.ssrc, [])];
      } else {
        FirstWith(first, items, cs, more);
        LastWithNone([]);
        assert SourceOf(first, items + more) + [] == SourceOf(first, items + more);
      }
    }
  }

  /** Exactly what the calls name, each kind in the order of the calls. */
  ghost predicate HoldsAll(c: Content, calls: seq<Call>) {
    && c.header == (if Headers(calls) == [] then None else Some(Headers(calls)[0])) && |Headers(calls)| <= 1
    && c.blocks == Blocks(calls) && c.chunks == Sources(calls) && c.apps == Apps(calls) && c.byes == Byes(calls)
  }

  /** After any run the builder holds exactly what the accepted calls named. */
  lemma {:induction false} RunHolds(calls: seq<Call>, maximum: nat)
    requires AllLegal(calls)
    ensures HoldsAll(Run(calls, maximum), Taken(calls, maximum))
  {
    if calls != [] {
      var n := |calls| - 1;
      hide HoldsAll, Answer;
      RunHolds(calls[..n], maximum);
      var c, ts := Run(calls[..n], maximum), Taken(calls[..n], maximum);
      if Answer(c, calls[n], maximum).Success? {
        AcceptedHolds(c, ts, calls[n], maximum);
      } else {
        assert ts + [] == ts;
      }
    } else {
      hide Answer;
    }
  }

  /** What an accepted call adds. */
  lemma AppliedExact(c: Content, call: Call)
    requires call.AddNormalItem? ==> c.chunks != [] && ItemId(call.t).Some?
    requires call.AddPrivateItem? ==> c.chunks != [] && |call.prefix| <= 255
    ensures var d := Applied(c, call);
      && d.header == (if call.StartReport? then Some(call.h) else c.header)
      && d.blocks == c.blocks + BlockOf(call) && d.apps == c.apps + AppOf(call) && d.byes == c.byes + ByeOf(call)
      && d.chunks
         == if call.AddSource? then c.chunks + [Chunk(call.ssrc, [])] else LastWith(c.chunks, ItemOf(call))
  {
    LastWithNone(c.chunks);
  }

  lemma AcceptedHolds(c: Content, calls: seq<Call>, call: Call, maximum: nat)
    requires Legal(call) && HoldsAll(c, calls) && Answer(c, call, maximum).Success?
    ensures HoldsAll(Step(c, call, maximum), calls + [call])
  {
    hide *;
    AcceptedApplied(c, call, maximum);
    AppliedExact(c, call);
    HeadersSnoc(calls, call);
    BlocksSnoc(calls, call);
    SourcesSnoc(calls, call);
    AppsSnoc(calls, call);
    ByesSnoc(calls, call);
    AllHeld(c, Step(c, call, maximum), calls, call);
  }

  lemma AcceptedApplied(c: Content, call: Call, maximum: nat)
    requires Legal(call) && Answer(c, call, maximum).Success?
    ensures call.StartReport? ==> c.header.None?
    ensures call.AddNormalItem? ==> c.chunks != [] && ItemId(call.t).Some?
    ensures call.AddPrivateItem? ==> c.chunks != [] && |call.prefix| <= 255
    ensures Step(c, call, maximum) == Applied(c, call)
  {
    hide Size;
  }

  lemma AllHeld(c: Content, d: Content, calls: seq<Call>, call: Call)
    requires HoldsAll(c, calls) && (call.StartReport? ==> c.header.None?)
    requires d.header == (if call.StartReport? then Some(call.h) else c.header)
    requires Headers(calls + [call]) == Headers(calls) + HeaderOf(call)
    requires d.blocks == c.blocks + BlockOf(call) && Blocks(calls + [call]) == Blocks(calls) + BlockOf(call)
    requires d.apps == c.apps + AppOf(call) && Apps(calls + [call]) == Apps(calls) + AppOf(call)
    requires d.byes == c.byes + ByeOf(call) && Byes(calls + [call]) == Byes(calls) + ByeOf(call)
    requires c.chunks == Sources(calls) ==> d.chunks == Sources(calls + [call])
    ensures HoldsAll(d, calls + [call])
  {
    hide Headers, Blocks, Apps, Byes, Sources, BlockOf, AppOf, ByeOf;
  }

  // ---------------------------------------------------------------- what every step keeps

  lemma BlockGrows(c: Content, b: ReportBlock)
    requires ContentShape(c) && c.header.Some?
    ensures ContentShape(WithBlock(c, b)) && Size(c) <= Size(WithBlock(c, b))
  {
    hide Octets, SdesOctets, Packets, PacketBytes, SdesPackets, ItemShapes;
    SizeSplit(c);
    SizeSplit(WithBlock(c, b));
    ReportSizeExact(c.header.value, c.blocks);
    ReportSizeExact(c.header.value, WithBlock(c, b).blocks);
    SizesOf(c);
    SizesOf(WithBlock(c, b));
  }

  lemma SizesOf(c: Content)
    requires ContentShape(c) && c.header.Some? && Shapes(ReportPackets(c.header.value, c.blocks))
    ensures ReportOctets(c) == |Wire(ReportPackets(c.header.value, c.blocks))|
  {
  }

  lemma SourceGrows(c: Content, ssrc: u32)
    requires ContentShape(c)
    ensures ContentShape(WithSource(c, ssrc)) && Size(c) <= Size(WithSource(c, ssrc))
    ensures c.chunks == [] ==> Size(WithSource(c, ssrc)) == Size(c) + 12
  {
    hide Octets, SdesOctets, Packets, PacketBytes, SdesPackets, Flatten, ItemShapes;
    ExtraSource(c.chunks, ssrc);
    SdesSizes(c.chunks);
    SizeSplit(c);
    SizeSplit(WithSource(c, ssrc));
    SameReport(c, WithSource(c, ssrc));
    FirstSource(c, ssrc);
  }

  lemma SdesSizes(chunks: seq<Chunk>)
    requires ChunkShapes(chunks)
    ensures SdesOctets(chunks) == |Flatten(ChunkParts(chunks))| + HEADER_SIZE * PacketsFor(|chunks|)
  {
    SdesSizeExact(chunks);
  }

  lemma ItemGrows(c: Content, i: Item)
    requires ContentShape(c) && c.chunks != [] && ItemShape(i)
    ensures ContentShape(WithItem(c, i)) && Size(c) <= Size(WithItem(c, i))
  {
    hide Octets, SdesOctets, Packets, PacketBytes, SdesPackets, Flatten, ChunkBytes;
    var c', last := WithItem(c, i), |c.chunks| - 1;
    SdesSizes(c.chunks);
    SdesSizes(c'.chunks);
    SizeSplit(c);
    SizeSplit(c');
    SameReport(c, c');
    SumStep(c.chunks, last);
    SumStep(c'.chunks, last);
    assert c.chunks[..last] == c'.chunks[..last] && c.chunks[..last + 1] == c.chunks
           && c'.chunks[..last + 1] == c'.chunks;
    ChunkGrows(c.chunks[last], i);
  }

  lemma ChunkGrows(c: Chunk, i: Item)
    ensures |ChunkBytes(c)| <= |ChunkBytes(c.(items := c.items + [i]))|
  {
    hide ItemBytes;
    ItemPartsSnoc(c.items, i);
    FlattenSnoc(ItemParts(c.items), ItemBytes(i));
  }

  /** No accepted call makes the compound smaller, and each leaves packets of the shapes the format has room for. */
  lemma StepGrows(c: Content, call: Call, maximum: nat)
    requires ContentShape(c) && Legal(call)
    ensures ContentShape(Step(c, call, maximum)) && Size(c) <= Size(Step(c, call, maximum))
  {
    hide Size, ContentShape, ItemShapes;
    if Answer(c, call, maximum).Success? {
      match call {
        case StartReport(h) => StartShape(c, h); HeaderGrowth(c, h);
        case AddBlock(b) => BlockGrows(c, b);
        case AddSource(ssrc) => SourceGrows(c, ssrc);
        case AddNormalItem(t, data) => ItemGrows(c, Item(ItemId(t).value, data));
        case AddPrivateItem(prefix, value) => ItemGrows(c, PrivItem(prefix, value));
        case AddBye(ssrcs, reason) => ByeGrowth(c, ByePacket(ssrcs, reason));
        case AddApp(subtype, ssrc, name, data) => AppGrowth(c, APP(subtype, ssrc, name, data));
      }
    }
  }

  lemma StartShape(c: Content, h: Header)
    requires ContentShape(c)
    ensures ContentShape(WithHeader(c, h))
  {
  }

  /** The call is a first source that is accepted although it does not fit. */
  ghost predicate Overruns(c: Content, call: Call, maximum: nat) {
    call.AddSource? && c.chunks == [] && Size(c) <= maximum < Size(c) + 12
  }

  /**
   * A single call takes the compound over the maximum exactly if
   * it is a first source with fewer than 12 octets left.
   */
  lemma StepBounded(c: Content, call: Call, maximum: nat)
    requires ContentShape(c) && Legal(call)
    ensures Size(Step(c, call, maximum)) <= maximum <==> Size(c) <= maximum && !Overruns(c, call, maximum)
  {
    hide Size, ContentShape, ItemShapes;
    StepGrows(c, call, maximum);
    match call {
      case StartReport(h) =>
        if c.header.None? {
          HeaderGrowth(c, h);
        }
      case AddSource(ssrc) => SourceGrows(c, ssrc);
      case _ =>
    }
  }

  // ---------------------------------------------------------------- whole runs

  lemma NothingShape()
    ensures ContentShape(NOTHING) && Size(NOTHING) == 0
  {
    NoPackets();
  }

  lemma {:induction false} RunShape(calls: seq<Call>, maximum: nat)
    requires AllLegal(calls)
    ensures ContentShape(Run(calls, maximum))
  {
    if calls == [] {
      NothingShape();
    } else {
      RunShape(calls[..|calls| - 1], maximum);
      StepGrows(Run(calls[..|calls| - 1], maximum), calls[|calls| - 1], maximum);
    }
  }

  ghost predicate OverrunAt(calls: seq<Call>, maximum: nat, n: nat)
    requires AllLegal(calls)
  {
    n < |calls| && Overruns(Run(calls[..n], maximum), calls[n], maximum)
  }

  /**
   * The size of the compound exceeds the maximum in exactly those runs in which the first source was added with
   * fewer than 12 octets left.
   */
  lemma {:induction false} RunBounded(calls: seq<Call>, maximum: nat)
    requires AllLegal(calls)
    ensures Size(Run(calls, maximum)) <= maximum <==> forall n: nat :: !OverrunAt(calls, maximum, n)
  {
    hide Size, ContentShape, Answer, Applied;
    if calls == [] {
      NothingShape();
    } else {
      var last := |calls| - 1;
      RunBounded(calls[..last], maximum);
      RunShape(calls[..last], maximum);
      StepBounded(Run(calls[..last], maximum), calls[last], maximum);
      forall n: nat | n < last
        ensures OverrunAt(calls, maximum, n) <==> OverrunAt(calls[..last], maximum, n)
      {
        assert calls[..last][..n] == calls[..n];
      }
      assert OverrunAt(calls, maximum, last) <==> Overruns(Run(calls[..last], maximum), calls[last], maximum);
      if forall n: nat :: !OverrunAt(calls, maximum, n) {
        forall n: nat
          ensures !OverrunAt(calls[..last], maximum, n)
        {
        }
      }
    }
  }

  /** Overrunning is limited: 12 octets for the source, and 28 more when a sender report is started after it. */
  lemma {:induction false} RunNearlyBounded(calls: seq<Call>, maximum: nat)
    requires AllLegal(calls)
    ensures Size(Run(calls, maximum)) <= maximum + if Run(calls, maximum).header.Some? then 40 else 12
  {
    hide Size, ContentShape;
    if calls == [] {
      NothingShape();
    } else {
      var last := |calls| - 1;
      RunNearlyBounded(calls[..last], maximum);
      RunShape(calls[..last], maximum);
      var c, call := Run(calls[..last], maximum), calls[last];
      match call {
        case StartReport(h) =>
          if c.header.None? {
            HeaderGrowth(c, h);
          }
        case AddSource(ssrc) => SourceGrows(c, ssrc);
        case _ =>
      }
    }
  }

  /** Every APP packet of a name and so many words of data takes that and 12 octets. */
  lemma OneApp(data: seq<byte>, name: seq<byte>, maximum: nat)
    requires |name| == 4 && |data| % 4 == 0 && |data| / 4 + 2 <= 65535 && 12 + |data| <= maximum
    ensures var c := Step(NOTHING, AddApp(0, 0, name, data), maximum);
            && c == WithApp(NOTHING, APP(0, 0, name, data)) && ContentShape(c) && Size(c) == 12 + |data|
  {
    var p := APP(0, 0, name, data);
    NothingShape();
    AppLayout(p);
    AppGrowth(NOTHING, p);
    hide Size, ContentShape;
  }

  /** A run that overruns: an APP packet fills the maximum of 600, and the first source goes over it. */
  lemma OverrunHappens(name: seq<byte>, data: seq<byte>, ssrc: u32)
    requires |name| == 4 && |data| == 588
    ensures var calls := [AddApp(0, 0, name, data), AddSource(ssrc)];
            AllLegal(calls) && OverrunAt(calls, 600, 1) && Size(Run(calls, 600)) == 612
  {
    var app, source := AddApp(0, 0, name, data), AddSource(ssrc);
    var calls := [app, source];
    assert calls[..1] == [app] && [app][..0] == [];
    OneApp(data, name, 600);
    assert Run([], 600) == NOTHING;
    assert Run([app], 600) == Step(NOTHING, app, 600);
    SourceGrows(Run([app], 600), ssrc);
    hide Size, ContentShape, Step;
    assert Run(calls, 600) == Step(Run(calls[..1], 600), source, 600);
    SourceAccepted(Run([app], 600), ssrc, 600);
  }

  lemma SourceAccepted(c: Content, ssrc: u32, maximum: nat)
    requires c.chunks == [] && Size(c) <= maximum
    ensures Step(c, AddSource(ssrc), maximum) == WithSource(c, ssrc)
  {
    hide Size;
  }

  /** And by all 40 octets: once the maximum is exceeded a sender report is still let through. */
  lemma OverrunBy40(name: seq<byte>, data: seq<byte>, ssrc: u32, info: SenderInfo)
    requires |name| == 4 && |data| == 588
    ensures var calls := [AddApp(0, 0, name, data), AddSource(ssrc), StartReport(SenderHeader(ssrc, info))];
            AllLegal(calls) && Size(Run(calls, 600)) == 640
  {
    var start := StartReport(SenderHeader(ssrc, info));
    var two := [AddApp(0, 0, name, data), AddSource(ssrc)];
    var calls := [AddApp(0, 0, name, data), AddSource(ssrc), start];
    assert calls[..2] == two;
    OverrunHappens(name, data, ssrc);
    RunShape(two, 600);
    RunWithoutReport(two, 600);
    HeaderGrowth(Run(two, 600), start.h);
    hide Size, ContentShape;
    assert Run(calls, 600) == Step(Run(calls[..2], 600), start, 600);
    ReportAccepted(Run(two, 600), start.h, 600);
  }

  lemma ReportAccepted(c: Content, h: Header, maximum: nat)
    requires c.header.None? && Size(c) > maximum
    ensures Step(c, StartReport(h), maximum) == WithHeader(c, h)
  {
    hide Size;
  }

  /** Only the Start functions put a report into the compound. */
  lemma {:induction false} RunWithoutReport(calls: seq<Call>, maximum: nat)
    requires AllLegal(calls) && forall k :: 0 <= k < |calls| ==> !calls[k].StartReport?
    ensures Run(calls, maximum).header.None?
  {
    hide Answer;
    if calls != [] {
      RunWithoutReport(calls[..|calls| - 1], maximum);
    }
  }

  /**
   * Whatever calls are made with a maximum that leaves every packet addressable (65535 does), the parser takes
   * the octets of the compound apart into the packets that were asked for, each of known format with the values
   * that were put in.
   */
  lemma RunRoundTrip(calls: seq<Call>, maximum: nat)
    requires AllLegal(calls) && maximum + 40 <= MAX_FRAME && Run(calls, maximum).header.Some?
    ensures var ps := Packets(Run(calls, maximum));
            && Shapes(ps) && Frames(Wire(ps), true) == Some(PacketParts(ps))
            && forall i :: 0 <= i < |ps| ==> RtcpDecode.Decode(PacketParts(ps)[i]) == RtcpDecode.ReceivedPacket(ps[i])
  {
    hide Run, Packets, Wire, Frames, ContentShape;
    var c := Run(calls, maximum);
    RunShape(calls, maximum);
    RunNearlyBounded(calls, maximum);
    SizeIsWire(c);
    SmallCompoundRoundTrip(c);
  }
}
