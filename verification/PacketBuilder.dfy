/**
 * RTCPPacketBuilder: report blocks for the sources heard of, own SDES items spread over several packets,
 * and the claim that 600 octets always let a packet make progress.
 */
module PacketBuilder {
  import opened Bytes
  import opened Prelude
  import opened RtpTime
  import opened RtcpFormat
  import opened RtcpCompound
  import Accounting = RtcpAccounting
  import Builder = RtcpBuilder
  import Runs = RtcpRuns
  import Stats = SourceStats

  // ---------------------------------------------------------------- the size of a packet under construction

  /** A report with one chunk for ourselves, as this class builds it. */
  ghost function Draft(h: Header, blocks: seq<ReportBlock>, ssrc: u32, items: seq<Item>, byes: seq<Packet>): Content {
    Content(Some(h), blocks, [Chunk(ssrc, items)], [], byes)
  }

  ghost function ItemOctets(items: seq<Item>): nat {
    |Flatten(ItemParts(items))|
  }

  ghost predicate ByeShapes(byes: seq<Packet>) {
    forall p :: p in byes ==> p.BYE? && Shape(p)
  }

  lemma DraftSize(h: Header, blocks: seq<ReportBlock>, ssrc: u32, items: seq<Item>, byes: seq<Packet>)
    requires ItemShapes(items) && ByeShapes(byes)
    ensures Accounting.Size(Draft(h, blocks, ssrc, items, byes))
      == ReportSize(h.SenderHeader?, |blocks|) + 4 + RoundUp4(5 + ItemOctets(items)) + Accounting.Octets(byes)
  {
    var c := Draft(h, blocks, ssrc, items, byes);
    var chunk := Chunk(ssrc, items);
    hide PacketBytes, Wire, Flatten;
    Accounting.SizeSplit(c);
    ReportSizeExact(h, blocks);
    SdesSizeExact([chunk]);
    OneChunk(chunk);
    WireNone();
  }

  lemma OneChunk(c: Chunk)
    ensures |Flatten(ChunkParts([c]))| == RoundUp4(5 + ItemOctets(c.items))
    ensures PacketsFor(1) == 1
  {
    assert ChunkParts([c]) == [ChunkBytes(c)] + [];
    FlattenCons(ChunkBytes(c), []);
  }

  lemma MoreItems(items: seq<Item>, i: Item)
    ensures ItemOctets(items + [i]) == ItemOctets(items) + 2 + |i.data|
  {
    Accounting.ItemPartsSnoc(items, i);
    FlattenSnoc(ItemParts(items), ItemBytes(i));
    hide Flatten, ItemParts;
  }

  lemma NoItems()
    ensures ItemOctets([]) == 0
  {
    assert ItemParts([]) == [];
  }

  lemma NoOctets()
    ensures Accounting.Octets([]) == 0
  {
    WireNone();
  }

  // ---------------------------------------------------------------- picking from a list

  /** The selected indices from `lo` up to `hi`, in order. */
  function Chosen(selected: seq<bool>, lo: nat, hi: nat): (ks: seq<nat>)
    requires lo <= hi <= |selected|
    ensures |ks| <= hi - lo
    ensures forall i :: 0 <= i < |ks| ==> lo <= ks[i] < hi
    decreases hi - lo
  {
    if lo == hi then []
    else
      var ks := Chosen(selected, lo, hi - 1);
      if selected[hi - 1] then ks + [hi - 1] else ks
  }

  lemma {:induction false} OnlySelected(selected: seq<bool>, lo: nat, hi: nat, i: nat)
    requires lo <= hi <= |selected| && i < |Chosen(selected, lo, hi)|
    ensures selected[Chosen(selected, lo, hi)[i]]
    decreases hi - lo
  {
    var rest := Chosen(selected, lo, hi - 1);
    if i < |rest| {
      OnlySelected(selected, lo, hi - 1, i);
    }
  }

  ghost predicate Lists(ks: seq<nat>, k: nat) {
    exists i :: 0 <= i < |ks| && ks[i] == k
  }

  lemma {:induction false} SelectedListed(selected: seq<bool>, lo: nat, hi: nat, k: nat)
    requires lo <= k < hi <= |selected| && selected[k]
    ensures Lists(Chosen(selected, lo, hi), k)
    decreases hi - lo
  {
    var rest, ks := Chosen(selected, lo, hi - 1), Chosen(selected, lo, hi);
    if k == hi - 1 {
      assert ks[|rest|] == k;
    } else {
      SelectedListed(selected, lo, hi - 1, k);
      var i :| 0 <= i < |rest| && rest[i] == k;
      assert ks[i] == k;
    }
  }

  predicate Ascending(ks: seq<nat>) {
    forall i, j :: 0 <= i < j < |ks| ==> ks[i] < ks[j]
  }

  lemma AscendingSnoc(ks: seq<nat>, x: nat)
    requires Ascending(ks) && forall i :: 0 <= i < |ks| ==> ks[i] < x
    ensures Ascending(ks + [x])
  {
    var r := ks + [x];
    forall i, j | 0 <= i < j < |r|
      ensures r[i] < r[j]
    {
      assert r[i] == ks[i];
    }
  }

  lemma {:induction false} ChosenOrdered(selected: seq<bool>, lo: nat, hi: nat)
    requires lo <= hi <= |selected|
    ensures Ascending(Chosen(selected, lo, hi))
    decreases hi - lo
  {
    if lo < hi {
      ChosenOrdered(selected, lo, hi - 1);
      AscendingSnoc(Chosen(selected, lo, hi - 1), hi - 1);
    }
  }

  /** Every selected index is among them, each once, in order. */
  lemma ChosenExact(selected: seq<bool>, lo: nat, hi: nat)
    requires lo <= hi <= |selected|
    ensures var ks := Chosen(selected, lo, hi);
      && (forall i :: 0 <= i < |ks| ==> lo <= ks[i] < hi && selected[ks[i]])
      && (forall k :: lo <= k < hi && selected[k] ==> Lists(ks, k))
      && Ascending(ks)
  {
    forall i | 0 <= i < |Chosen(selected, lo, hi)| ensures selected[Chosen(selected, lo, hi)[i]] {
      OnlySelected(selected, lo, hi, i);
    }
    forall k | lo <= k < hi && selected[k] ensures Lists(Chosen(selected, lo, hi), k) {
      SelectedListed(selected, lo, hi, k);
    }
    ChosenOrdered(selected, lo, hi);
  }

  lemma {:induction false} ChosenSplit(selected: seq<bool>, lo: nat, mid: nat, hi: nat)
    requires lo <= mid <= hi <= |selected|
    ensures Chosen(selected, lo, hi) == Chosen(selected, lo, mid) + Chosen(selected, mid, hi)
    decreases hi - mid
  {
    if mid < hi {
      ChosenSplit(selected, lo, mid, hi - 1);
    }
  }

  lemma {:induction false} NothingChosen(selected: seq<bool>, lo: nat, hi: nat)
    requires lo <= hi <= |selected|
    requires forall k :: lo <= k < hi ==> !selected[k]
    ensures Chosen(selected, lo, hi) == []
    decreases hi - lo
  {
    if lo < hi {
      NothingChosen(selected, lo, hi - 1);
    }
  }

  // ---------------------------------------------------------------- report blocks

  /** A source as the report builder sees it; `lsr` and `dlsr` are those of its last sender report. */
  datatype ReportSource = ReportSource(ssrc: u32, ownSsrc: bool, isCsrc: bool, seqs: Stats.SeqState,
                                       lastRtpTime: RTPTime, jitter: u32, lsr: u32, dlsr: u32, processed: bool)

  /** Total packets expected minus received, as a signed 32-bit number. */
  function CumulativeLost(s: Stats.SeqState): i32 {
    var d := (s.extHighSeq - s.baseSeq - s.packetsReceived) % 0x1_0000_0000;
    if d >= 0x8000_0000 then d - 0x1_0000_0000 else d
  }

  /** The block for a source; where the fraction is not defined its octet is taken to be zero. */
  function BlockFor(s: ReportSource): ReportBlock {
    var fraction: byte := match Stats.FractionLost(Stats.IntervalExpected(s.seqs), s.seqs.numNewPackets)
      case None => 0
      case Some(f) => f;
    ReportBlock(s.ssrc, fraction, CumulativeLost(s.seqs), s.seqs.extHighSeq, s.jitter, s.lsr, s.dlsr)
  }

  /** A block was sent: a new interval begins, and the source is marked. */
  function Reported(s: ReportSource): ReportSource {
    s.(seqs := Stats.NewInterval(s.seqs), processed := true)
  }

  /** Sources that are to be reported: heard of since the last packet, neither ourselves nor a contributor. */
  predicate Eligible(s: ReportSource, first: bool, since: RTPTime) {
    !s.ownSsrc && !s.isCsrc && s.seqs.sentData && (first || Less(since, s.lastRtpTime))
  }

  predicate Due(s: ReportSource, first: bool, since: RTPTime) {
    Eligible(s, first, since) && !s.processed
  }

  /** The table after the due sources among the first `n` have been reported. */
  function Marked(ss: seq<ReportSource>, n: nat, first: bool, since: RTPTime): (r: seq<ReportSource>)
    requires n <= |ss|
    ensures |r| == |ss|
  {
    seq(|ss|, i requires 0 <= i < |ss| => if i < n && Due(ss[i], first, since) then Reported(ss[i]) else ss[i])
  }

  function DueFlags(ss: seq<ReportSource>, first: bool, since: RTPTime): (flags: seq<bool>)
    ensures |flags| == |ss|
  {
    seq(|ss|, i requires 0 <= i < |ss| => Due(ss[i], first, since))
  }

  function BlocksFor(ss: seq<ReportSource>, ks: seq<nat>): (bs: seq<ReportBlock>)
    requires forall i :: 0 <= i < |ks| ==> ks[i] < |ss|
    ensures |bs| == |ks|
  {
    seq(|ks|, i requires 0 <= i < |ks| => BlockFor(ss[ks[i]]))
  }

  /** One block for each due source among the first `n`, in table order. */
  function DueBlocks(ss: seq<ReportSource>, n: nat, first: bool, since: RTPTime): (bs: seq<ReportBlock>)
    requires n <= |ss|
  {
    BlocksFor(ss, Chosen(DueFlags(ss, first, since), 0, n))
  }

  /** Looking at one more source. */
  lemma DueStep(ss: seq<ReportSource>, n: nat, first: bool, since: RTPTime)
    requires n < |ss|
    ensures Marked(ss, n, first, since)[n] == ss[n]
    ensures Marked(ss, n + 1, first, since)
      == if Due(ss[n], first, since) then Marked(ss, n, first, since)[n := Reported(ss[n])]
         else Marked(ss, n, first, since)
    ensures DueBlocks(ss, n + 1, first, since)
      == DueBlocks(ss, n, first, since) + if Due(ss[n], first, since) then [BlockFor(ss[n])] else []
  {
    hide Due, Reported, BlockFor;
    var flags := DueFlags(ss, first, since);
    assert Chosen(flags, 0, n + 1) == Chosen(flags, 0, n) + if flags[n] then [n] else [];
  }

  lemma DueNone(ss: seq<ReportSource>, first: bool, since: RTPTime)
    ensures Marked(ss, 0, first, since) == ss && DueBlocks(ss, 0, first, since) == []
  {
  }

  /** What has been reported is no longer due. */
  lemma MarkedNotDue(ss: seq<ReportSource>, n: nat, first: bool, since: RTPTime)
    requires n <= |ss|
    ensures forall i :: 0 <= i < n ==> !Due(Marked(ss, n, first, since)[i], first, since)
    ensures forall i :: n <= i < |ss| ==> Marked(ss, n, first, since)[i] == ss[i]
  {
  }

  // ---------------------------------------------------------------- what a block says

  /** Each field of a block is about the source, and the fraction is the lost share of its interval in 256ths. */
  lemma BlockFields(s: ReportSource)
    ensures var b := BlockFor(s);
      && b.ssrc == s.ssrc && b.extHighSeq == s.seqs.extHighSeq
      && b.jitter == s.jitter && b.lsr == s.lsr && b.dlsr == s.dlsr
      && var expected, num := (s.seqs.extHighSeq - s.seqs.savedExtSeq) % 0x1_0000_0000, s.seqs.numNewPackets;
         b.fractionLost == if num > 0 && expected >= num then 256 * (expected - num) / expected else 0
  {
    Stats.FractionLostExact(Stats.IntervalExpected(s.seqs), s.seqs.numNewPackets);
    hide Stats.FractionLost;
  }

  /** The loss is what all intervals, the current one included, expected and did not receive: a signed 32-bit word. */
  lemma LossReported(es: seq<Stats.Event>, s: ReportSource)
    requires s.seqs == Stats.Run(es).0
    ensures var r, lost := Stats.Run(es + [Stats.IntervalEnd]).1, BlockFor(s).packetsLost;
      -0x8000_0000 <= lost < 0x8000_0000 && (lost - (r.expected - r.received)) % 0x1_0000_0000 == 0
  {
    hide Stats.Run, BlockFor, CumulativeLost;
    Stats.LossConserved(es);
    Stats.RunSnoc(es, Stats.IntervalEnd);
    LossField(s);
    var r, t := Stats.Run(es + [Stats.IntervalEnd]).1, s.seqs;
    SameDifference(r.expected, r.received, t.extHighSeq - t.baseSeq, t.packetsReceived);
    SignedLoss(t, r.expected - r.received);
  }

  lemma LossField(s: ReportSource)
    ensures BlockFor(s).packetsLost == CumulativeLost(s.seqs)
  {
  }

  lemma SameDifference(e: int, g: int, x: int, y: int)
    requires e % 0x1_0000_0000 == x % 0x1_0000_0000 && g % 0x1_0000_0000 == y % 0x1_0000_0000
    ensures (e - g) % 0x1_0000_0000 == (x - y) % 0x1_0000_0000
  {
    Stats.DifferenceModulo(e, g);
    Stats.DifferenceModulo(x, y);
  }

  lemma SignedLoss(t: Stats.SeqState, y: int)
    requires (t.extHighSeq - t.baseSeq - t.packetsReceived) % 0x1_0000_0000 == y % 0x1_0000_0000
    ensures (CumulativeLost(t) - y) % 0x1_0000_0000 == 0
  {
    SignedWord(t.extHighSeq - t.baseSeq - t.packetsReceived, y);
  }

  lemma SignedWord(x: int, y: int)
    requires x % 0x1_0000_0000 == y % 0x1_0000_0000
    ensures var d := x % 0x1_0000_0000;
      ((if d >= 0x8000_0000 then d - 0x1_0000_0000 else d) - y) % 0x1_0000_0000 == 0
  {
    var d, k := x % 0x1_0000_0000, y / 0x1_0000_0000;
    assert y == k * 0x1_0000_0000 + d;
    Stats.ModShift(0, -k);
    Stats.ModShift(0, -k - 1);
  }

  lemma SignedUnique(x: int, y: int)
    requires (x - y) % 0x1_0000_0000 == 0 && -0x8000_0000 <= x < 0x8000_0000 && -0x8000_0000 <= y < 0x8000_0000
    ensures x == y
  {
  }

  /** Near its maximum, a stream is reported with as many packets lost as it is short of those from first to highest. */
  lemma LossCounted(pre: seq<Stats.Event>, f: nat, apply: bool, arrivals: seq<Stats.Arrival>, s: ReportSource)
    requires Stats.Opens(pre, f, apply) && Stats.StayNear(f, arrivals)
    requires s.seqs == Stats.Run(Stats.Heard(pre, f, apply, arrivals)).0
    requires -0x8000_0000 <= Stats.Highest(f, arrivals) - f - Stats.Arrived(arrivals) < 0x8000_0000
    ensures BlockFor(s).packetsLost == Stats.Highest(f, arrivals) - f - Stats.Arrived(arrivals)
  {
    hide Stats.Run, Stats.Heard, Stats.Opens, Stats.StayNear, BlockFor, Stats.Highest, Stats.Arrived;
    var es, n := Stats.Heard(pre, f, apply, arrivals), Stats.Highest(f, arrivals) - f;
    LossReported(es, s);
    Stats.ExpectedExact(pre, f, apply, arrivals);
    var r, lost := Stats.Run(es + [Stats.IntervalEnd]).1, BlockFor(s).packetsLost;
    SameDifference(r.expected, r.received, n + 1, 1 + Stats.Arrived(arrivals));
    SameLoss(lost, r.expected - r.received, n - Stats.Arrived(arrivals));
  }

  lemma SameLoss(lost: int, x: int, y: int)
    requires (lost - x) % 0x1_0000_0000 == 0 && x % 0x1_0000_0000 == y % 0x1_0000_0000
    requires -0x8000_0000 <= lost < 0x8000_0000 && -0x8000_0000 <= y < 0x8000_0000
    ensures lost == y
  {
    Stats.DifferenceModulo(x, y);
    Stats.ModAdd(lost - x, x - y);
    SignedUnique(lost, y);
  }

  /** When every packet arrives at most once, the loss is the number of packets that never arrived. */
  lemma LossExact(pre: seq<Stats.Event>, f: nat, apply: bool, arrivals: seq<Stats.Arrival>, s: ReportSource)
    requires Stats.Opens(pre, f, apply) && Stats.StayNear(f, arrivals) && Stats.Once(f, arrivals)
    requires s.seqs == Stats.Run(Stats.Heard(pre, f, apply, arrivals)).0
    requires Stats.Highest(f, arrivals) - f + 1 < 0x8000_0000
    ensures BlockFor(s).packetsLost == |Stats.Missing(f, arrivals)|
  {
    hide Stats.Run, Stats.Heard, Stats.Opens, Stats.StayNear, BlockFor, Stats.Highest, Stats.Arrived, Stats.Missing;
    Stats.MissingCounted(f, arrivals);
    LossCounted(pre, f, apply, arrivals, s);
  }

  // ---------------------------------------------------------------- own SDES items

  // The order in which FillInSDES takes the items.
  const ORDER: seq<Accounting.ItemType> :=
    [Accounting.NAME, Accounting.EMAIL, Accounting.LOC, Accounting.PHONE, Accounting.TOOL, Accounting.NOTE]

  predicate OwnItems(items: seq<seq<byte>>) {
    |items| == 6 && forall k :: 0 <= k < 6 ==> |items[k]| <= 255
  }

  function OwnItem(items: seq<seq<byte>>, k: nat): (i: Item)
    requires OwnItems(items) && k < 6
    ensures ItemShape(i)
  {
    Item(Accounting.ItemId(ORDER[k]).value, items[k])
  }

  lemma OwnItemIs(items: seq<seq<byte>>, k: nat)
    requires OwnItems(items) && k < 6
    ensures |items| == 6 && |items[k]| <= 255 && Accounting.ItemId(ORDER[k]).Some?
    ensures OwnItem(items, k) == Item(Accounting.ItemId(ORDER[k]).value, items[k])
  {
  }

  function ItemsFor(items: seq<seq<byte>>, ks: seq<nat>): (r: seq<Item>)
    requires OwnItems(items) && forall i :: 0 <= i < |ks| ==> ks[i] < 6
    ensures |r| == |ks| && ItemShapes(r)
  {
    seq(|ks|, i requires 0 <= i < |ks| => OwnItem(items, ks[i]))
  }

  lemma ItemsForSnoc(own: seq<seq<byte>>, ks: seq<nat>, k: nat, items: seq<Item>)
    requires OwnItems(own) && k < 6 && forall i :: 0 <= i < |ks| ==> ks[i] < 6
    ensures items + ItemsFor(own, ks + [k]) == items + ItemsFor(own, ks) + [OwnItem(own, k)]
  {
    hide OwnItem;
    assert ItemsFor(own, ks + [k]) == ItemsFor(own, ks) + [OwnItem(own, k)];
  }

  /** The next own item would make the packet too big. */
  ghost predicate TooBig(h: Header, blocks: seq<ReportBlock>, ssrc: u32, items: seq<Item>, own: seq<seq<byte>>, k: nat,
                         maximum: nat) {
    OwnItems(own) && k < 6 && Accounting.Size(Draft(h, blocks, ssrc, items + [OwnItem(own, k)], [])) > maximum
  }

  /** What the length octet has room for. */
  function AtMost255(text: seq<byte>): (cut: seq<byte>)
    ensures |cut| <= 255
  {
    if |text| > 255 then text[..255] else text
  }

  /** Long text is cut behind its first 255 octets, shorter text is left alone. */
  lemma AtMost255Exact(text: seq<byte>)
    ensures AtMost255(text) <= text && |AtMost255(text)| == if |text| < 255 then |text| else 255
  {
  }

  /** The items in their order: NAME, EMAIL, LOC, PHONE, TOOL and NOTE, by the octets of section 6.5 of RFC 3550. */
  lemma OwnItemOctets(items: seq<seq<byte>>, k: nat)
    requires OwnItems(items) && k < 6
    ensures OwnItem(items, k) == Item([2, 3, 5, 4, 6, 7][k], items[k])
  {
  }

  datatype Initialised = Done | AlreadyInit | NotInitialised | IllegalMaxPackSize | IllegalTimestampUnit

  datatype ItemStatus = ItemSet | ItemNotInit | ItemTooLong

  datatype Outcome = Built | NotInit | PacketFilledTooSoon | Failed(status: Accounting.Status)

  function OutcomeOf(status: Accounting.Status): Outcome {
    match status
    case Success => Built
    case NotEnoughBytesLeft => PacketFilledTooSoon
    case _ => Failed(status)
  }

  /** The builder is working on this packet, within this maximum. */
  ghost predicate Drafting(b: Builder.CompoundPacketBuilder, maximum: nat, c: Content)
    reads b
  {
    && b.Valid() && b.areBuilding && !b.external
    && b.maximumPacketSize == maximum && b.content == c && Accounting.Size(c) <= maximum
  }

  /** Sizes with at most one own item besides the CNAME: a sender report, blocks and chunk stay below 600. */
  lemma StartSizes(h: Header, ssrc: u32, cname: Item)
    requires ItemShape(cname)
    ensures Accounting.Size(Draft(h, [], ssrc, [cname], [])) <= 296
    ensures forall b :: Accounting.Size(Draft(h, [b], ssrc, [cname], [])) <= 320
    ensures forall i :: ItemShape(i) ==> Accounting.Size(Draft(h, [], ssrc, [cname, i], [])) <= 552
  {
    hide Accounting.Size, ItemOctets, Draft, Accounting.Octets;
    NoItems();
    NoOctets();
    MoreItems([], cname);
    assert [] + [cname] == [cname];
    OnePacket(1);
    DraftSize(h, [], ssrc, [cname], []);
    forall b ensures Accounting.Size(Draft(h, [b], ssrc, [cname], [])) <= 320 {
      DraftSize(h, [b], ssrc, [cname], []);
    }
    forall i | ItemShape(i) ensures Accounting.Size(Draft(h, [], ssrc, [cname, i], [])) <= 552 {
      MoreItems([cname], i);
      assert [cname] + [i] == [cname, i];
      DraftSize(h, [], ssrc, [cname, i], []);
    }
  }

  ghost function HeaderFor(ssrc: u32, info: Option<SenderInfo>): Header {
    if info.Some? then SenderHeader(ssrc, info.value) else ReceiverHeader(ssrc)
  }

  /** Every packet begins with a report, which always fits. */
  method StartReport(maximum: nat, ssrc: u32, info: Option<SenderInfo>)
    returns (b: Builder.CompoundPacketBuilder, status: Accounting.Status)
    requires Accounting.MIN_PACKET_SIZE <= maximum < Accounting.SIZE_T / 2
    ensures fresh(b) && status.Success?
    ensures Drafting(b, maximum, Accounting.WithHeader(Accounting.NOTHING, HeaderFor(ssrc, info)))
    ensures Accounting.Size(b.content) <= 28
  {
    Accounting.NoPackets();
    hide Accounting.Size, Builder.CompoundPacketBuilder.Valid, Accounting.WithHeader;
    b := new Builder.CompoundPacketBuilder();
    status := b.InitBuild(maximum);
    if status.Success? {
      if info.Some? {
        status := b.StartSenderReport(ssrc, info.value);
      } else {
        status := b.StartReceiverReport(ssrc);
      }
    }
  }

  /** An item for the current source, if it fits. */
  method AddOwnItem(b: Builder.CompoundPacketBuilder, t: Accounting.ItemType, data: seq<byte>, ghost maximum: nat,
                    ghost c: Content)
    returns (status: Accounting.Status)
    requires Drafting(b, maximum, c) && c.chunks != [] && Accounting.ItemId(t).Some? && |data| <= 255
    modifies b`sdes, b`content
    ensures var c' := Accounting.WithItem(c, Item(Accounting.ItemId(t).value, data));
      && status == (if Accounting.Size(c') > maximum then Accounting.NotEnoughBytesLeft else Accounting.Success)
      && Drafting(b, maximum, if status.Success? then c' else c)
  {
    hide Accounting.Size, Builder.CompoundPacketBuilder.Valid, Accounting.WithItem;
    status := b.AddSDESNormalItem(t, data);
  }

  /** The only source of these packets is our own. */
  method AddOwnSource(b: Builder.CompoundPacketBuilder, ssrc: u32, ghost maximum: nat, ghost c: Content)
    returns (status: Accounting.Status)
    requires Drafting(b, maximum, c) && c.chunks == [] && Accounting.Size(c) + 12 <= maximum
    modifies b`sdes, b`content
    ensures status.Success? && Drafting(b, maximum, Accounting.WithSource(c, ssrc))
  {
    hide Accounting.Size, Builder.CompoundPacketBuilder.Valid, Accounting.WithSource;
    status := b.AddSDESSource(ssrc);
  }

  lemma FirstSize(h: Header, ssrc: u32, cname: Item)
    requires ItemShape(cname)
    ensures Accounting.Size(Draft(h, [], ssrc, [cname], [])) <= 296
  {
    hide Accounting.Size, ItemOctets, Draft, Accounting.Octets;
    StartSizes(h, ssrc, cname);
  }

  /** A report and our CNAME: with 600 octets that always fits. */
  method StartPacket(maximum: nat, ssrc: u32, info: Option<SenderInfo>, cname: seq<byte>)
    returns (b: Builder.CompoundPacketBuilder, status: Accounting.Status)
    requires Accounting.MIN_PACKET_SIZE <= maximum < Accounting.SIZE_T / 2 && |cname| <= 255
    ensures fresh(b) && status.Success?
    ensures Drafting(b, maximum, Draft(HeaderFor(ssrc, info), [], ssrc, [Item(1, cname)], []))
  {
    FirstSize(HeaderFor(ssrc, info), ssrc, Item(1, cname));
    StartContents(HeaderFor(ssrc, info), ssrc, Item(1, cname));
    hide Accounting.Size, Builder.CompoundPacketBuilder.Valid, Draft, ItemShape, HeaderFor;
    hide Accounting.WithHeader, Accounting.WithSource, Accounting.WithItem;
    b, status := StartReport(maximum, ssrc, info);
    if status.Success? {
      status := AddOwnSource(b, ssrc, maximum, b.content);
    }
    if status.Success? {
      status := AddOwnItem(b, Accounting.CNAME, cname, maximum, b.content);
    }
  }

  /** The packet with the blocks of the due sources among the first `n` appended. */
  ghost function WithDue(c: Content, ss: seq<ReportSource>, n: nat, first: bool, since: RTPTime): Content
    requires n <= |ss|
  {
    c.(blocks := c.blocks + DueBlocks(ss, n, first, since))
  }

  lemma WithDueStep(c: Content, ss: seq<ReportSource>, n: nat, first: bool, since: RTPTime)
    requires n < |ss|
    ensures WithDue(c, ss, n + 1, first, since)
      == if Due(ss[n], first, since) then Accounting.WithBlock(WithDue(c, ss, n, first, since), BlockFor(ss[n]))
         else WithDue(c, ss, n, first, since)
    ensures WithDue(c, ss, n, first, since).header == c.header
  {
    DueStep(ss, n, first, since);
    hide DueBlocks, Due, BlockFor;
    assert forall bs: seq<ReportBlock> ::
      c.blocks + (DueBlocks(ss, n, first, since) + bs) == c.blocks + DueBlocks(ss, n, first, since) + bs;
  }

  /** Source `n` is due but its block does not fit. */
  ghost predicate Overflows(c: Content, ss: seq<ReportSource>, n: nat, first: bool, since: RTPTime, maximum: nat) {
    n < |ss| && Due(ss[n], first, since) && Accounting.Size(WithDue(c, ss, n + 1, first, since)) > maximum
  }

  /** Where the loop over the sources stops: at the end, at the quota, or at the first block that does not fit. */
  ghost function StopAt(c: Content, ss: seq<ReportSource>, n: nat, quota: nat, first: bool, since: RTPTime,
                        maximum: nat): (stop: nat)
    requires n <= |ss|
    ensures n <= stop <= |ss|
    decreases |ss| - n
  {
    if n == |ss| || |DueBlocks(ss, n, first, since)| == quota || Overflows(c, ss, n, first, since, maximum) then n
    else StopAt(c, ss, n + 1, quota, first, since, maximum)
  }

  lemma StopStep(c: Content, ss: seq<ReportSource>, n: nat, quota: nat, first: bool, since: RTPTime, maximum: nat)
    requires n < |ss| && |DueBlocks(ss, n, first, since)| < quota
    ensures StopAt(c, ss, n, quota, first, since, maximum)
      == if Overflows(c, ss, n, first, since, maximum) then n else StopAt(c, ss, n + 1, quota, first, since, maximum)
  {
  }

  lemma StopEnds(c: Content, ss: seq<ReportSource>, n: nat, quota: nat, first: bool, since: RTPTime, maximum: nat)
    requires n <= |ss| && (n == |ss| || |DueBlocks(ss, n, first, since)| == quota)
    ensures StopAt(c, ss, n, quota, first, since, maximum) == n
  {
  }

  /** The loop ends here: no source is left, the quota is reached, or the next block does not fit. */
  ghost predicate Ends(c: Content, ss: seq<ReportSource>, n: nat, quota: nat, first: bool, since: RTPTime, maximum: nat)
    requires n <= |ss|
  {
    n == |ss| || |DueBlocks(ss, n, first, since)| == quota || Overflows(c, ss, n, first, since, maximum)
  }

  /** The loop stops at the first place where it can end. */
  lemma {:induction false} StopsAt(c: Content, ss: seq<ReportSource>, n: nat, quota: nat, first: bool, since: RTPTime,
                                   maximum: nat)
    requires n <= |ss|
    ensures var stop := StopAt(c, ss, n, quota, first, since, maximum);
            && Ends(c, ss, stop, quota, first, since, maximum)
            && forall k :: n <= k < stop ==> !Ends(c, ss, k, quota, first, since, maximum)
    decreases |ss| - n
  {
    hide DueBlocks, Overflows;
    if !Ends(c, ss, n, quota, first, since, maximum) {
      StopsAt(c, ss, n + 1, quota, first, since, maximum);
    }
  }

  /** A due source overflows the packet exactly when its block is refused. */
  lemma OverflowsExactly(c: Content, ss: seq<ReportSource>, n: nat, first: bool, since: RTPTime, maximum: nat)
    requires n < |ss|
    ensures Overflows(c, ss, n, first, since, maximum)
      <==> Due(ss[n], first, since)
           && Accounting.Size(Accounting.WithBlock(WithDue(c, ss, n, first, since), BlockFor(ss[n]))) > maximum
  {
    WithDueStep(c, ss, n, first, since);
  }

  /** How many of the first `n` sources are passed over because they have been reported before. */
  function Skipped(ss: seq<ReportSource>, n: nat, first: bool, since: RTPTime): nat
    requires n <= |ss|
  {
    if n == 0 then 0
    else Skipped(ss, n - 1, first, since) + if Eligible(ss[n - 1], first, since) && ss[n - 1].processed then 1 else 0
  }

  lemma BoundedOverflow(c: Content, ss: seq<ReportSource>, n: nat, first: bool, since: RTPTime, maximum: nat)
    ensures Overflows(c, ss, n, first, since, maximum) ==> n < |ss|
  {
  }

  lemma SkippedStep(ss: seq<ReportSource>, n: nat, first: bool, since: RTPTime)
    requires n < |ss|
    ensures Skipped(ss, n + 1, first, since)
      == Skipped(ss, n, first, since) + if !Due(ss[n], first, since) && Eligible(ss[n], first, since) then 1 else 0
  {
  }

  lemma BlocksWithin(ss: seq<ReportSource>, n: nat, first: bool, since: RTPTime)
    requires n <= |ss|
    ensures |DueBlocks(ss, n, first, since)| <= n
  {
  }

  /**
   * Adds a block for each due source, in table order, until the packet is full or `maxCount` were added;
   * `seen` sources have been dealt with. The table is never empty: it has our own entry.
   */
  method FillInReportBlocks(b: Builder.CompoundPacketBuilder, sources: seq<ReportSource>, maxCount: nat, first: bool,
                            since: RTPTime, ghost maximum: nat, ghost c: Content)
    returns (status: Accounting.Status, r: seq<ReportSource>, full: bool, added: nat, skipped: nat, atEnd: bool,
             ghost seen: nat)
    requires Drafting(b, maximum, c) && c.header.Some? && sources != [] && maxCount > 0
    modifies b`report, b`content
    ensures status.Success? && seen <= |sources| && r == Marked(sources, seen, first, since)
    ensures Drafting(b, maximum, WithDue(c, sources, seen, first, since))
    ensures added == |DueBlocks(sources, seen, first, since)| <= maxCount
    ensures seen == StopAt(c, sources, 0, maxCount, first, since, maximum)
    ensures full <==> added < maxCount && Overflows(c, sources, seen, first, since, maximum)
    ensures !full ==> seen == |sources| || added == maxCount
    ensures skipped == Skipped(sources, seen, first, since)
    ensures atEnd <==> forall i :: 0 <= i < |r| ==> !Due(r[i], first, since)
  {
    hide Accounting.Size, Builder.CompoundPacketBuilder.Valid, WithDue, Marked, DueBlocks, BlockFor, Due,
         Overflows, StopAt;
    DueNone(sources, first, since);
    StartDue(c, sources, first, since);
    r, full, added, skipped, atEnd, seen := sources, false, 0, 0, false, 0;
    var i, done := 0, false;
    while !done
      invariant 0 <= i < |sources| == |r| && 0 <= seen <= |sources|
      invariant r == Marked(sources, seen, first, since)
      invariant Drafting(b, maximum, WithDue(c, sources, seen, first, since))
      invariant added == |DueBlocks(sources, seen, first, since)|
                && (if done then added <= maxCount else added < maxCount)
      invariant !done ==> i == seen && !full && !atEnd
      invariant full ==> done && added < maxCount && Overflows(c, sources, seen, first, since, maximum)
      invariant done && !full ==> seen == |sources| || added == maxCount
      invariant StopAt(c, sources, 0, maxCount, first, since, maximum)
        == if full then seen else StopAt(c, sources, seen, maxCount, first, since, maximum)
      invariant skipped == Skipped(sources, seen, first, since)
      invariant atEnd ==> seen == |sources|
      invariant !atEnd ==> i == seen
      decreases |sources| - seen, !done
    {
      DueStep(sources, seen, first, since);
      WithDueStep(c, sources, seen, first, since);
      OverflowsExactly(c, sources, seen, first, since, maximum);
      StopStep(c, sources, seen, maxCount, first, since, maximum);
      SkippedStep(sources, seen, first, since);
      var s := r[i];
      if IsDue(s, first, since) {
        var st := b.AddReportBlock(BlockFor(s));
        if st.NotEnoughBytesLeft? {
          done, full := true, true;
        } else {
          r := r[i := Reported(s)];
          added, seen := added + 1, seen + 1;
          if added >= maxCount {
            done := true;
          }
          if i + 1 == |sources| {
            atEnd, done := true, true;
          } else {
            i := i + 1;
          }
        }
      } else {
        if Eligible(s, first, since) {
          skipped := skipped + 1;
        }
        seen := seen + 1;
        if i + 1 == |sources| {
          atEnd, done := true, true;
        } else {
          i := i + 1;
        }
      }
    }
    status := Accounting.Success;
    if !full {
      StopEnds(c, sources, seen, maxCount, first, since, maximum);
      BoundedOverflow(c, sources, seen, first, since, maximum);
    }
    MarkedNotDue(sources, seen, first, since);
    if !atEnd {
      atEnd := NoneDueFrom(r, i, first, since);
    }
  }

  predicate IsDue(s: ReportSource, first: bool, since: RTPTime)
    ensures IsDue(s, first, since) == Due(s, first, since)
  {
    Due(s, first, since)
  }

  lemma StartDue(c: Content, ss: seq<ReportSource>, first: bool, since: RTPTime)
    ensures WithDue(c, ss, 0, first, since) == c
  {
    assert c.blocks + [] == c.blocks;
  }

  /** The search for sources that are left after the packet is done. */
  method NoneDueFrom(r: seq<ReportSource>, start: nat, first: bool, since: RTPTime) returns (atEnd: bool)
    requires start < |r|
    ensures atEnd <==> forall i :: start <= i < |r| ==> !Due(r[i], first, since)
  {
    var i := start;
    atEnd := false;
    while !atEnd && !Due(r[i], first, since)
      invariant start <= i < |r| && forall k :: start <= k < i ==> !Due(r[k], first, since)
      invariant atEnd ==> forall k :: start <= k < |r| ==> !Due(r[k], first, since)
      decreases |r| - i, !atEnd
    {
      if i + 1 == |r| {
        atEnd := true;
      } else {
        i := i + 1;
      }
    }
  }

  /**
   * What goes into a packet besides its header and CNAME: the due sources among the first `first`, own
   * items, and the due sources among the first `second` of the table as it is then (with its flags
   * `cleared` when a round of own items began). A source is due if it was heard of after `since`.
   */
  datatype Plan = Plan(all: bool, since: RTPTime, cleared: bool, first: nat, second: nat, part: seq<nat>)

  ghost predicate PlanOk(p: Plan, ss: seq<ReportSource>) {
    p.first <= |ss| && p.second <= |ss| && forall i :: 0 <= i < |p.part| ==> p.part[i] < 6
  }

  ghost function TableThen(p: Plan, ss: seq<ReportSource>): (r: seq<ReportSource>)
    requires PlanOk(p, ss)
    ensures |r| == |ss|
  {
    var r := Marked(ss, p.first, p.all, p.since);
    if p.cleared then Cleared(r) else r
  }

  ghost function PlannedBlocks(p: Plan, ss: seq<ReportSource>): seq<ReportBlock>
    requires PlanOk(p, ss)
  {
    DueBlocks(ss, p.first, p.all, p.since) + DueBlocks(TableThen(p, ss), p.second, p.all, p.since)
  }

  ghost function Planned(p: Plan, ss: seq<ReportSource>, h: Header, ssrc: u32, cname: Item,
                         own: seq<seq<byte>>): Content
    requires PlanOk(p, ss) && OwnItems(own)
  {
    Draft(h, PlannedBlocks(p, ss), ssrc, [cname] + ItemsFor(own, p.part), [])
  }

  /**
   * The table when the packet is done; after a round that began
   * in an earlier packet its flags may be cleared again.
   */
  ghost function TableAfter(p: Plan, ss: seq<ReportSource>, resumed: bool, finished: bool): seq<ReportSource>
    requires PlanOk(p, ss)
  {
    var t := Marked(TableThen(p, ss), p.second, p.all, p.since);
    if resumed && finished && (forall i :: 0 <= i < |t| ==> !Due(t[i], p.all, p.since)) then Cleared(t) else t
  }

  /** As many of the due sources as fit come first; when they all do, a round of own items begins. */
  ghost predicate FirstReports(p: Plan, ss: seq<ReportSource>, base: Content, maximum: nat) {
    && p.first == StopAt(base, ss, 0, |ss|, p.all, p.since, maximum)
    && (p.cleared <==> !Overflows(base, ss, p.first, p.all, p.since, maximum))
  }

  /**
   * Reports behind the own items, once these are all sent: no more than were passed over before when the round
   * began in this packet, and as many as fit.
   */
  ghost function SecondReports(p: Plan, ss: seq<ReportSource>, h: Header, ssrc: u32, cname: Item, own: seq<seq<byte>>,
                               maximum: nat, resumed: bool): nat
    requires PlanOk(p, ss) && OwnItems(own)
  {
    var quota := if resumed then |ss| else Skipped(ss, |ss|, p.all, p.since);
    if quota == 0 then 0
    else StopAt(Planned(p.(second := 0), ss, h, ssrc, cname, own), TableThen(p, ss), 0, quota, p.all, p.since, maximum)
  }

  /**
   * The plan is the one this class makes: `resumed` says that a round of own items goes on, `finished` that none
   * goes on after the packet, and `next` is the item that did not fit otherwise.
   */
  ghost predicate Complete(p: Plan, ss: seq<ReportSource>, h: Header, ssrc: u32, cname: Item, own: seq<seq<byte>>,
                           maximum: nat, resumed: bool, finished: bool, next: nat)
    requires PlanOk(p, ss) && OwnItems(own)
  {
    && (if resumed then p.first == 0 && !p.cleared else FirstReports(p, ss, Draft(h, [], ssrc, [cname], []), maximum))
    && (!finished ==> TooBig(h, DueBlocks(ss, p.first, p.all, p.since), ssrc, [cname] + ItemsFor(own, p.part), own,
                             next, maximum))
    && p.second == if finished && (resumed || p.cleared)
                     then SecondReports(p, ss, h, ssrc, cname, own, maximum, resumed) else 0
  }

  /** Reports first, none of the second kind yet. */
  lemma PlanReports(p: Plan, ss: seq<ReportSource>, h: Header, ssrc: u32, cname: Item, own: seq<seq<byte>>)
    requires PlanOk(p, ss) && OwnItems(own) && p.second == 0
    ensures Planned(p, ss, h, ssrc, cname, own)
      == Draft(h, DueBlocks(ss, p.first, p.all, p.since), ssrc, [cname] + ItemsFor(own, p.part), [])
  {
    DueNone(TableThen(p, ss), p.all, p.since);
    hide DueBlocks, TableThen, ItemsFor;
    assert PlannedBlocks(p, ss) == DueBlocks(ss, p.first, p.all, p.since);
  }

  /** A round of own items begins: the flags are cleared and items are added. */
  lemma PlanRound(p: Plan, ss: seq<ReportSource>, h: Header, ssrc: u32, cname: Item, own: seq<seq<byte>>,
                  part: seq<nat>)
    requires PlanOk(p, ss) && OwnItems(own) && p == Plan(p.all, p.since, false, p.first, 0, [])
    requires forall i :: 0 <= i < |part| ==> part[i] < 6
    ensures var q, blocks := p.(cleared := true, part := part), DueBlocks(ss, p.first, p.all, p.since);
      && PlanOk(q, ss) && TableThen(q, ss) == Cleared(TableThen(p, ss))
      && Planned(p, ss, h, ssrc, cname, own) == Draft(h, blocks, ssrc, [cname], [])
      && Planned(q, ss, h, ssrc, cname, own) == Draft(h, blocks, ssrc, [cname] + ItemsFor(own, part), [])
  {
    PlanReports(p, ss, h, ssrc, cname, own);
    PlanReports(p.(cleared := true, part := part), ss, h, ssrc, cname, own);
    assert [cname] + ItemsFor(own, []) == [cname];
  }

  /** Reports added after the own items. */
  lemma PlanMore(p: Plan, ss: seq<ReportSource>, h: Header, ssrc: u32, cname: Item, own: seq<seq<byte>>, n: nat)
    requires PlanOk(p, ss) && OwnItems(own) && p.second == 0 && n <= |ss|
    ensures WithDue(Planned(p, ss, h, ssrc, cname, own), TableThen(p, ss), n, p.all, p.since)
      == Planned(p.(second := n), ss, h, ssrc, cname, own)
    ensures TableThen(p.(second := n), ss) == TableThen(p, ss)
  {
    PlanReports(p, ss, h, ssrc, cname, own);
    hide DueBlocks, ItemsFor, TableThen;
  }

  /** The second helping of reports is taken from one table. */
  lemma PlanTable(p: Plan, ss: seq<ReportSource>, n: nat)
    requires PlanOk(p, ss) && p.second == 0 && n <= |ss|
    ensures p.(second := n).(second := 0) == p && TableThen(p.(second := n), ss) == TableThen(p, ss)
    ensures Marked(TableThen(p, ss), 0, p.all, p.since) == TableThen(p, ss)
  {
    DueNone(TableThen(p, ss), p.all, p.since);
  }

  lemma PlanFirst(all: bool, since: RTPTime, ss: seq<ReportSource>, h: Header, ssrc: u32, cname: Item,
                  own: seq<seq<byte>>, n: nat)
    requires OwnItems(own) && n <= |ss|
    ensures WithDue(Draft(h, [], ssrc, [cname], []), ss, n, all, since)
      == Planned(Plan(all, since, false, n, 0, []), ss, h, ssrc, cname, own)
    ensures TableThen(Plan(all, since, false, n, 0, []), ss) == Marked(ss, n, all, since)
  {
    PlanReports(Plan(all, since, false, n, 0, []), ss, h, ssrc, cname, own);
    hide DueBlocks;
    assert [] + DueBlocks(ss, n, all, since) == DueBlocks(ss, n, all, since);
    assert [cname] + ItemsFor(own, []) == [cname];
  }

  /** The first block of a packet always fits, so a full packet has one. */
  lemma FirstBlockFits(c: Content, h: Header, ssrc: u32, cname: Item, ss: seq<ReportSource>, n: nat, all: bool,
                       since: RTPTime)
    requires ItemShape(cname) && c == Draft(h, [], ssrc, [cname], [])
    requires n < |ss| && Due(ss[n], all, since)
    ensures DueBlocks(ss, n, all, since) == [] ==> Accounting.Size(WithDue(c, ss, n + 1, all, since)) <= 320
  {
    StartSizes(h, ssrc, cname);
    DueStep(ss, n, all, since);
    hide DueBlocks, Accounting.Size, BlockFor;
    assert [] + [BlockFor(ss[n])] == [BlockFor(ss[n])];
    assert WithDue(c, ss, n + 1, all, since) == Draft(h, DueBlocks(ss, n + 1, all, since), ssrc, [cname], []);
  }

  lemma OverflowsDue(c: Content, ss: seq<ReportSource>, n: nat, all: bool, since: RTPTime, maximum: nat)
    requires Overflows(c, ss, n, all, since, maximum)
    ensures n < |ss| && Due(ss[n], all, since) && Accounting.Size(WithDue(c, ss, n + 1, all, since)) > maximum
  {
  }

  lemma DraftHeader(h: Header, blocks: seq<ReportBlock>, ssrc: u32, items: seq<Item>)
    ensures Draft(h, blocks, ssrc, items, []).header == Some(h)
  {
  }

  lemma PlannedHeader(p: Plan, ss: seq<ReportSource>, h: Header, ssrc: u32, cname: Item, own: seq<seq<byte>>)
    requires PlanOk(p, ss) && OwnItems(own)
    ensures Planned(p, ss, h, ssrc, cname, own).header == Some(h)
  {
  }

  /** The reports of a fresh packet. */
  method FillReports(b: Builder.CompoundPacketBuilder, sources: seq<ReportSource>, all: bool, since: RTPTime,
                     ghost maximum: nat, ghost h: Header, ghost ssrc: u32, ghost cname: Item, ghost own: seq<seq<byte>>)
    returns (full: bool, outcome: Outcome, r: seq<ReportSource>, skipped: nat, ghost plan: Plan)
    requires sources != [] && maximum >= 600 && ItemShape(cname) && OwnItems(own)
    requires Drafting(b, maximum, Draft(h, [], ssrc, [cname], []))
    modifies b`report, b`content
    ensures outcome == Built && PlanOk(plan, sources) && plan == Plan(all, since, false, plan.first, 0, [])
    ensures Drafting(b, maximum, Planned(plan, sources, h, ssrc, cname, own)) && r == TableThen(plan, sources)
    ensures full ==> DueBlocks(sources, plan.first, all, since) != []
    ensures plan.first == StopAt(Draft(h, [], ssrc, [cname], []), sources, 0, |sources|, all, since, maximum)
    ensures full <==> Overflows(Draft(h, [], ssrc, [cname], []), sources, plan.first, all, since, maximum)
    ensures !full ==> skipped == Skipped(sources, |sources|, all, since)
  {
    hide Accounting.Size, Builder.CompoundPacketBuilder.Valid, Draft, DueBlocks, Marked, WithDue, Planned,
         Overflows, TableThen, StopAt;
    DraftHeader(h, [], ssrc, [cname]);
    var status, added, atEnd;
    ghost var n;
    ghost var c := Draft(h, [], ssrc, [cname], []);
    status, r, full, added, skipped, atEnd, n := FillInReportBlocks(b, sources, |sources|, all, since, maximum, c);
    if full {
      OverflowsDue(c, sources, n, all, since, maximum);
      FirstBlockFits(c, h, ssrc, cname, sources, n, all, since);
    }
    BoundedOverflow(c, sources, n, all, since, maximum);
    BlocksWithin(sources, n, all, since);
    PlanFirst(all, since, sources, h, ssrc, cname, own, n);
    outcome := if full && added == 0 then PacketFilledTooSoon else Built;
    plan := Plan(all, since, false, n, 0, []);
  }

  /** Room that is left behind the own items goes to further reports. */
  method FillMore(b: Builder.CompoundPacketBuilder, table: seq<ReportSource>, maxCount: nat, all: bool, since: RTPTime,
                  ghost sources: seq<ReportSource>, ghost maximum: nat, ghost h: Header, ghost ssrc: u32,
                      ghost cname: Item, ghost own: seq<seq<byte>>, ghost plan: Plan)
    returns (r: seq<ReportSource>, atEnd: bool, ghost plan': Plan)
    requires sources != [] && maxCount > 0 && OwnItems(own)
    requires PlanOk(plan, sources) && plan.second == 0 && plan.all == all && plan.since == since
    requires table == TableThen(plan, sources)
    requires Drafting(b, maximum, Planned(plan, sources, h, ssrc, cname, own))
    modifies b`report, b`content
    ensures PlanOk(plan', sources) && plan' == plan.(second := plan'.second)
    ensures Drafting(b, maximum, Planned(plan', sources, h, ssrc, cname, own))
    ensures r == Marked(table, plan'.second, all, since)
    ensures plan'.second == StopAt(Planned(plan, sources, h, ssrc, cname, own), table, 0, maxCount, all, since, maximum)
    ensures atEnd <==> forall i :: 0 <= i < |r| ==> !Due(r[i], all, since)
  {
    hide Accounting.Size, Builder.CompoundPacketBuilder.Valid, Draft, DueBlocks, Marked, WithDue, Planned,
         Overflows, TableThen, Due, StopAt;
    PlannedHeader(plan, sources, h, ssrc, cname, own);
    var status, full, added, skipped;
    ghost var n;
    status, r, full, added, skipped, atEnd, n :=
      FillInReportBlocks(b, table, maxCount, all, since, maximum, Planned(plan, sources, h, ssrc, cname, own));
    PlanMore(plan, sources, h, ssrc, cname, own, n);
    plan' := plan.(second := n);
  }

  lemma OneItemFits(h: Header, ssrc: u32, cname: Item, own: seq<seq<byte>>, k: nat)
    requires ItemShape(cname) && OwnItems(own) && k < 6
    ensures Accounting.Size(Draft(h, [], ssrc, [cname] + ItemsFor(own, []) + [OwnItem(own, k)], [])) <= 552
  {
    StartSizes(h, ssrc, cname);
    hide Accounting.Size, OwnItem;
    assert [cname] + ItemsFor(own, []) + [OwnItem(own, k)] == [cname, OwnItem(own, k)];
  }

  lemma PlanContinued(p: Plan, ss: seq<ReportSource>, h: Header, ssrc: u32, cname: Item, own: seq<seq<byte>>)
    requires OwnItems(own) && p == Plan(p.all, p.since, false, 0, 0, p.part)
    requires forall i :: 0 <= i < |p.part| ==> p.part[i] < 6
    ensures PlanOk(p, ss) && TableThen(p, ss) == ss
    ensures Planned(p, ss, h, ssrc, cname, own) == Draft(h, [], ssrc, [cname] + ItemsFor(own, p.part), [])
  {
    DueNone(ss, p.all, p.since);
    PlanReports(p, ss, h, ssrc, cname, own);
  }

  method Finish(b: Builder.CompoundPacketBuilder, ghost maximum: nat,
                ghost c: Content) returns (status: Accounting.Status)
    requires Drafting(b, maximum, c) && c.header.Some?
    modifies b
    ensures status.Success? && b.Holds(c) && b.compoundPacketLength <= maximum
  {
    hide Accounting.Size, Builder.CompoundPacketBuilder.Valid, Builder.CompoundPacketBuilder.Holds;
    status := b.EndBuild();
  }

  /** A BYE for our own SSRC, if it fits. */
  method AddBye(b: Builder.CompoundPacketBuilder, ssrc: u32, reason: seq<byte>, ghost maximum: nat, ghost c: Content)
    returns (status: Accounting.Status)
    requires Drafting(b, maximum, c) && |reason| <= 255
    modifies b`byePackets, b`byeSize, b`content
    ensures var c' := Accounting.WithBye(c, Accounting.ByePacket([ssrc], reason));
      && status == (if Accounting.Size(c') > maximum then Accounting.NotEnoughBytesLeft else Accounting.Success)
      && Drafting(b, maximum, if status.Success? then c' else c)
  {
    hide Accounting.Size, Builder.CompoundPacketBuilder.Valid, Accounting.WithBye, Accounting.ByePacket;
    status := b.AddBYEPacket([ssrc], reason);
  }

  method AddOwnBye(b: Builder.CompoundPacketBuilder, ghost h: Header, ssrc: u32, ghost cname: Item, reason: seq<byte>,
                   ghost maximum: nat)
    returns (status: Accounting.Status)
    requires |reason| <= 255 && maximum >= 600 && ItemShape(cname)
             && Drafting(b, maximum, Draft(h, [], ssrc, [cname], []))
    modifies b`byePackets, b`byeSize, b`content
    ensures status.Success?
    ensures Drafting(b, maximum, Draft(h, [], ssrc, [cname], [Accounting.ByePacket([ssrc], reason)]))
  {
    hide Accounting.Size, Drafting, Draft, Accounting.WithBye, Accounting.ByePacket, ItemShape;
    ByeFits(h, ssrc, cname, reason);
    status := AddBye(b, ssrc, reason, maximum, Draft(h, [], ssrc, [cname], []));
  }

  lemma ByeFits(h: Header, ssrc: u32, cname: Item, reason: seq<byte>)
    requires ItemShape(cname) && |reason| <= 255
    ensures var p := Accounting.ByePacket([ssrc], reason);
      && Accounting.WithBye(Draft(h, [], ssrc, [cname], []), p) == Draft(h, [], ssrc, [cname], [p])
      && Accounting.Size(Draft(h, [], ssrc, [cname], [p])) <= 560
  {
    hide Accounting.Size, ItemOctets, Accounting.Octets, PacketBytes;
    var p := Accounting.ByePacket([ssrc], reason);
    Accounting.ByeSize([ssrc], reason);
    OneOctets(p);
    NoItems();
    MoreItems([], cname);
    assert [] + [cname] == [cname];
    assert [] + [p] == [p];
    DraftSize(h, [], ssrc, [cname], [p]);
  }

  lemma OneOctets(p: Packet)
    requires Shape(p)
    ensures Accounting.Octets([p]) == |PacketBytes(p)|
  {
    hide PacketBytes;
    WireCons(p, []);
    assert [p] + [] == [p];
    WireNone();
  }

  lemma DraftByeHeader(h: Header, ssrc: u32, items: seq<Item>, bye: Packet)
    ensures Draft(h, [], ssrc, items, [bye]).header == Some(h)
  {
  }

  // ---------------------------------------------------------------- sources reported twice

  /** The sources the first reports of a packet are about, by their place in the table. */
  function Picks(ss: seq<ReportSource>, n: nat, first: bool, since: RTPTime): (ks: seq<nat>)
    requires n <= |ss|
    ensures forall i :: 0 <= i < |ks| ==> ks[i] < n
  {
    Chosen(DueFlags(ss, first, since), 0, n)
  }

  lemma PicksExact(ss: seq<ReportSource>, n: nat, first: bool, since: RTPTime)
    requires n <= |ss|
    ensures Ascending(Picks(ss, n, first, since))
    ensures forall i :: 0 <= i < |Picks(ss, n, first, since)| ==> Due(ss[Picks(ss, n, first, since)[i]], first, since)
    ensures forall k :: 0 <= k < n && Due(ss[k], first, since) ==> Lists(Picks(ss, n, first, since), k)
  {
    hide Due;
    ChosenExact(DueFlags(ss, first, since), 0, n);
  }

  ghost function EarlierPicks(p: Plan, ss: seq<ReportSource>): seq<nat>
    requires PlanOk(p, ss)
  {
    Picks(ss, p.first, p.all, p.since)
  }

  ghost function LaterPicks(p: Plan, ss: seq<ReportSource>): seq<nat>
    requires PlanOk(p, ss)
  {
    Picks(TableThen(p, ss), p.second, p.all, p.since)
  }

  /** The source block number `q` of the packet is about, and its state when the block is made. */
  ghost function SourceOf(p: Plan, ss: seq<ReportSource>, q: nat): (k: nat)
    requires PlanOk(p, ss) && q < |EarlierPicks(p, ss)| + |LaterPicks(p, ss)|
    ensures k < |ss|
  {
    if q < |EarlierPicks(p, ss)| then EarlierPicks(p, ss)[q] else LaterPicks(p, ss)[q - |EarlierPicks(p, ss)|]
  }

  ghost function StateOf(p: Plan, ss: seq<ReportSource>, q: nat): ReportSource
    requires PlanOk(p, ss) && q < |EarlierPicks(p, ss)| + |LaterPicks(p, ss)|
  {
    if q < |EarlierPicks(p, ss)| then ss[SourceOf(p, ss, q)] else TableThen(p, ss)[SourceOf(p, ss, q)]
  }

  /** The blocks of the packet are those of these states. */
  lemma BlocksOfStates(p: Plan, ss: seq<ReportSource>)
    requires PlanOk(p, ss)
    ensures |PlannedBlocks(p, ss)| == |EarlierPicks(p, ss)| + |LaterPicks(p, ss)|
    ensures forall q :: 0 <= q < |PlannedBlocks(p, ss)| ==> PlannedBlocks(p, ss)[q] == BlockFor(StateOf(p, ss, q))
  {
    hide BlockFor, TableThen, DueFlags, Chosen;
  }

  /** Reports from one SSRC: a sender report first if there is sender information, receiver reports otherwise. */
  ghost predicate ReportsFrom(rs: seq<Packet>, ssrc: u32, info: Option<SenderInfo>) {
    && rs != [] && (if info.Some? then rs[0].SR? && rs[0].info == info.value else rs[0].RR?)
    && (forall i :: 0 <= i < |rs| ==> (rs[i].SR? || rs[i].RR?) && rs[i].ssrc == ssrc)
    && (forall i :: 0 < i < |rs| ==> rs[i].RR?)
  }

  lemma HeaderSent(h: Header, blocks: seq<ReportBlock>)
    ensures ReportsFrom(ReportPackets(h, blocks), h.ssrc, if h.SenderHeader? then Some(h.info) else None)
    ensures BlocksOf(ReportPackets(h, blocks)) == blocks
  {
    ReportPacketsDivide(h, blocks);
    hide ReportPackets, BlocksOf;
  }

  /** NAME, EMAIL, LOC, PHONE, TOOL and NOTE are the own items 0 to 5, each sent with its text. */
  ghost predicate OwnItemsSent(items: seq<Item>, own: seq<seq<byte>>, ks: seq<nat>)
    requires |own| == 6 && forall i :: 0 <= i < |ks| ==> ks[i] < 6
  {
    && |items| == |ks|
    && forall i :: 0 <= i < |ks| ==> items[i].id == [2, 3, 5, 4, 6, 7][ks[i]] && items[i].data == own[ks[i]]
  }

  lemma ItemsSent(own: seq<seq<byte>>, ks: seq<nat>)
    requires OwnItems(own) && forall i :: 0 <= i < |ks| ==> ks[i] < 6
    ensures OwnItemsSent(ItemsFor(own, ks), own, ks)
  {
    hide OwnItem;
    forall i | 0 <= i < |ks| ensures ItemsFor(own, ks)[i] == Item([2, 3, 5, 4, 6, 7][ks[i]], own[ks[i]]) {
      OwnItemOctets(own, ks[i]);
    }
  }

  /** What is sent: the reports with the planned blocks, then one SDES packet, the CNAME first in it. */
  lemma PacketsSent(p: Plan, ss: seq<ReportSource>, info: Option<SenderInfo>, ssrc: u32, cname: Item,
                    own: seq<seq<byte>>)
    returns (rs: seq<Packet>, items: seq<Item>)
    requires PlanOk(p, ss) && OwnItems(own)
    ensures Packets(Planned(p, ss, HeaderFor(ssrc, info), ssrc, cname, own))
         == rs + [SDES([Chunk(ssrc, [cname] + items)])]
    ensures ReportsFrom(rs, ssrc, info) && BlocksOf(rs) == PlannedBlocks(p, ss) && OwnItemsSent(items, own, p.part)
  {
    var h := HeaderFor(ssrc, info);
    rs, items := ReportPackets(h, PlannedBlocks(p, ss)), ItemsFor(own, p.part);
    HeaderSent(h, PlannedBlocks(p, ss));
    ItemsSent(own, p.part);
    OneSdes(Chunk(ssrc, [cname] + items));
    hide ReportPackets, SdesPackets, PlannedBlocks, BlocksOf, ItemsFor, ReportsFrom, OwnItemsSent;
  }

  lemma OneSdes(chunk: Chunk)
    ensures SdesPackets([chunk]) == [SDES([chunk])]
  {
    assert [chunk][..1] == [chunk] && [chunk][1..] == [];
  }

  /** Two blocks of the packet are about one source. */
  ghost predicate Repeats(p: Plan, ss: seq<ReportSource>)
    requires PlanOk(p, ss)
  {
    exists q, q' :: 0 <= q < q' < |EarlierPicks(p, ss)| + |LaterPicks(p, ss)|
        && SourceOf(p, ss, q) == SourceOf(p, ss, q')
  }

  /** Source `i` was due when the packet was begun, and is looked at again after a round of own items began. */
  ghost predicate LookedAtAgain(p: Plan, ss: seq<ReportSource>, i: nat)
    requires PlanOk(p, ss)
  {
    i < p.second && p.cleared && Due(ss[i], p.all, p.since)
  }

  /**
   * The table after the first reports: what was due and is in the
   * packet is due again exactly if the flags were cleared.
   */
  lemma DueThen(p: Plan, ss: seq<ReportSource>, i: nat)
    requires PlanOk(p, ss) && i < |ss|
    ensures i < p.first && Due(ss[i], p.all, p.since) ==>
              && TableThen(p, ss)[i] == Reported(ss[i]).(processed := !p.cleared)
              && (Due(TableThen(p, ss)[i], p.all, p.since) <==> p.cleared)
    ensures !(i < p.first && Due(ss[i], p.all, p.since)) ==>
              TableThen(p, ss)[i] == if p.cleared then ss[i].(processed := false) else ss[i]
  {
  }

  /** A round of own items begins only when all due sources have been reported. */
  lemma ClearedReportsAll(p: Plan, ss: seq<ReportSource>, h: Header, ssrc: u32, cname: Item, own: seq<seq<byte>>,
                          maximum: nat, resumed: bool, finished: bool, next: nat)
    requires PlanOk(p, ss) && OwnItems(own) && Complete(p, ss, h, ssrc, cname, own, maximum, resumed, finished, next)
    ensures p.cleared ==> p.first == |ss|
  {
    hide TooBig, SecondReports, DueBlocks, Draft, Overflows;
    if p.cleared {
      StopsAt(Draft(h, [], ssrc, [cname], []), ss, 0, |ss|, p.all, p.since, maximum);
      BlocksWithin(ss, p.first, p.all, p.since);
    }
  }

  lemma RepeatLooksAgain(p: Plan, ss: seq<ReportSource>, q: nat, q': nat)
    requires PlanOk(p, ss) && q < q' < |EarlierPicks(p, ss)| + |LaterPicks(p, ss)|
    requires SourceOf(p, ss, q) == SourceOf(p, ss, q')
    ensures LookedAtAgain(p, ss, SourceOf(p, ss, q))
  {
    PicksExact(ss, p.first, p.all, p.since);
    PicksExact(TableThen(p, ss), p.second, p.all, p.since);
    DueThen(p, ss, SourceOf(p, ss, q));
    hide Due, TableThen, Picks;
  }

  lemma LookingAgainRepeats(p: Plan, ss: seq<ReportSource>, i: nat)
    requires PlanOk(p, ss) && p.first == |ss| && LookedAtAgain(p, ss, i)
    ensures Repeats(p, ss)
  {
    hide Due, TableThen, Picks;
    PicksExact(ss, p.first, p.all, p.since);
    PicksExact(TableThen(p, ss), p.second, p.all, p.since);
    DueThen(p, ss, i);
    var a :| 0 <= a < |EarlierPicks(p, ss)| && EarlierPicks(p, ss)[a] == i;
    var b :| 0 <= b < |LaterPicks(p, ss)| && LaterPicks(p, ss)[b] == i;
    assert SourceOf(p, ss, a) == SourceOf(p, ss, |EarlierPicks(p, ss)| + b);
  }

  /**
   * A packet reports a source twice exactly if its second helping
   * of reports looks at a source that was due at first.
   */
  lemma RepeatsByLooking(p: Plan, ss: seq<ReportSource>, h: Header, ssrc: u32, cname: Item, own: seq<seq<byte>>,
                         maximum: nat, resumed: bool, finished: bool, next: nat)
    requires PlanOk(p, ss) && OwnItems(own) && Complete(p, ss, h, ssrc, cname, own, maximum, resumed, finished, next)
    ensures Repeats(p, ss) <==> exists i: nat :: LookedAtAgain(p, ss, i)
  {
    ClearedReportsAll(p, ss, h, ssrc, cname, own, maximum, resumed, finished, next);
    hide Complete, Due, TableThen, EarlierPicks, LaterPicks, SourceOf;
    if Repeats(p, ss) {
      var q, q' :| 0 <= q < q' < |EarlierPicks(p, ss)| + |LaterPicks(p, ss)|
          && SourceOf(p, ss, q) == SourceOf(p, ss, q');
      RepeatLooksAgain(p, ss, q, q');
    }
    if i: nat :| LookedAtAgain(p, ss, i) {
      LookingAgainRepeats(p, ss, i);
    }
  }

  /**
   * Who is in a report: never ourselves, a contributing source, a source that has sent no data, one whose flag says
   * that it has been reported, or, after the first packet, one that has sent nothing since the packet before.
   */
  lemma OnlyHeard(p: Plan, ss: seq<ReportSource>, q: nat)
    requires PlanOk(p, ss) && q < |EarlierPicks(p, ss)| + |LaterPicks(p, ss)|
    requires Normal(p.since) && Normal(StateOf(p, ss, q).lastRtpTime)
    ensures var s := StateOf(p, ss, q);
      && !s.ownSsrc && !s.isCsrc && s.seqs.sentData && !s.processed
      && (p.all || Micros(s.lastRtpTime) > Micros(p.since))
  {
    PicksExact(ss, p.first, p.all, p.since);
    PicksExact(TableThen(p, ss), p.second, p.all, p.since);
    var s := StateOf(p, ss, q);
    assert Due(s, p.all, p.since);
    ComparisonExact(p.since, s.lastRtpTime);
    hide TableThen, Picks, Less, Micros;
  }

  /** And every such source that the reports have come to is in it. */
  lemma AllHeard(p: Plan, ss: seq<ReportSource>, i: nat)
    requires PlanOk(p, ss) && i < p.first && Normal(p.since) && Normal(ss[i].lastRtpTime)
    requires !ss[i].ownSsrc && !ss[i].isCsrc && ss[i].seqs.sentData && !ss[i].processed
    requires p.all || Micros(ss[i].lastRtpTime) > Micros(p.since)
    ensures exists q :: 0 <= q < |EarlierPicks(p, ss)| && SourceOf(p, ss, q) == i
  {
    ComparisonExact(p.since, ss[i].lastRtpTime);
    PicksExact(ss, p.first, p.all, p.since);
    assert Due(ss[i], p.all, p.since);
    hide Due, Picks, Less, Micros;
    var q :| 0 <= q < |EarlierPicks(p, ss)| && EarlierPicks(p, ss)[q] == i;
    assert SourceOf(p, ss, q) == i;
  }

  /** When the round that went on is over and no source is due any more, all flags are cleared; otherwise none is. */
  lemma ReportableAgain(p: Plan, ss: seq<ReportSource>, resumed: bool, finished: bool)
    requires PlanOk(p, ss)
    ensures var t := TableAfter(p, ss, resumed, finished);
      && |t| == |ss|
      && (forall i :: 0 <= i < |t| ==> t[i].ssrc == ss[i].ssrc && t[i].ownSsrc == ss[i].ownSsrc)
      && var marked := Marked(TableThen(p, ss), p.second, p.all, p.since);
         if !resumed || !finished || exists i :: 0 <= i < |marked| && Due(marked[i], p.all, p.since) then t == marked
         else forall i :: 0 <= i < |t| ==> t[i] == marked[i].(processed := false)
  {
    hide Due;
    var t := Marked(TableThen(p, ss), p.second, p.all, p.since);
    forall i | 0 <= i < |t| ensures t[i].ssrc == ss[i].ssrc && t[i].ownSsrc == ss[i].ownSsrc {
      DueThen(p, ss, i);
    }
    hide TableThen;
  }

  // ---------------------------------------------------------------- which tables make a packet repeat a source
  // ---------------------------------------------------------------- which tables make a packet repeat a source

  /** The packet with a block for every due source and with every selected own item. */
  ghost function Whole(ss: seq<ReportSource>, all: bool, since: RTPTime, h: Header, ssrc: u32, cname: Item,
                       own: seq<seq<byte>>, selected: seq<bool>): Content
    requires OwnItems(own) && |selected| == 6
  {
    Draft(h, DueBlocks(ss, |ss|, all, since), ssrc, [cname] + ItemsFor(own, Chosen(selected, 0, 6)), [])
  }

  predicate FirstDue(ss: seq<ReportSource>, i: nat, all: bool, since: RTPTime) {
    i < |ss| && Due(ss[i], all, since) && forall k :: 0 <= k < i ==> !Due(ss[k], all, since)
  }

  /** A source that could be reported but has been reported before. */
  predicate PassedOver(s: ReportSource, all: bool, since: RTPTime) {
    Eligible(s, all, since) && s.processed
  }

  /**
   * A source that has been reported before stands behind the first due one, and with all due sources and all
   * selected items in the packet there is room for blocks about the sources up to that first one once more.
   */
  ghost predicate WillRepeat(ss: seq<ReportSource>, all: bool, since: RTPTime, h: Header, ssrc: u32, cname: Item,
                             own: seq<seq<byte>>, selected: seq<bool>, maximum: nat)
    requires OwnItems(own) && |selected| == 6
  {
    exists i: nat :: FirstDue(ss, i, all, since) && ReportedBehind(ss, i, all, since)
      && RoomUpTo(ss, i, all, since, Whole(ss, all, since, h, ssrc, cname, own, selected), maximum)
  }

  predicate ReportedBehind(ss: seq<ReportSource>, i: nat, all: bool, since: RTPTime) {
    exists j :: i < j < |ss| && PassedOver(ss[j], all, since)
  }

  /** Behind `c` there is room for a block about each source up to number `i` that could be reported. */
  ghost predicate RoomUpTo(ss: seq<ReportSource>, i: nat, all: bool, since: RTPTime, c: Content, maximum: nat) {
    i < |ss|
    && Accounting.Size(WithDue(c, Cleared(Marked(ss, |ss|, all, since)), i + 1, all, since)) <= maximum
  }

  lemma DraftShape(h: Header, blocks: seq<ReportBlock>, ssrc: u32, items: seq<Item>)
    requires ItemShapes(items)
    ensures ContentShape(Draft(h, blocks, ssrc, items, []))
  {
  }

  /** More blocks make the packet no smaller. */
  lemma {:induction false} DueGrows(c: Content, ss: seq<ReportSource>, n: nat, first: bool, since: RTPTime)
    requires n <= |ss| && ContentShape(c) && c.header.Some?
    ensures ContentShape(WithDue(c, ss, n, first, since))
    ensures Accounting.Size(c) <= Accounting.Size(WithDue(c, ss, n, first, since))
    decreases n
  {
    if n == 0 {
      StartDue(c, ss, first, since);
    } else {
      hide Accounting.Size, ContentShape, WithDue, Due, BlockFor, Accounting.WithBlock;
      DueGrows(c, ss, n - 1, first, since);
      WithDueStep(c, ss, n - 1, first, since);
      Runs.BlockGrows(WithDue(c, ss, n - 1, first, since), BlockFor(ss[n - 1]));
    }
  }

  lemma FitsOne(c: Content, ss: seq<ReportSource>, n: nat, first: bool, since: RTPTime, maximum: nat)
    requires n < |ss| && ContentShape(c) && c.header.Some?
    ensures Accounting.Size(WithDue(c, ss, n + 1, first, since)) <= maximum
       <==> Accounting.Size(WithDue(c, ss, n, first, since)) <= maximum && !Overflows(c, ss, n, first, since, maximum)
  {
    hide Accounting.Size, ContentShape, WithDue, Due, BlockFor, Accounting.WithBlock;
    DueGrows(c, ss, n, first, since);
    WithDueStep(c, ss, n, first, since);
    Runs.BlockGrows(WithDue(c, ss, n, first, since), BlockFor(ss[n]));
  }

  /** The blocks up to source `n` fit exactly if none of them is refused. */
  lemma {:induction false} FitsUntil(c: Content, ss: seq<ReportSource>, n: nat, first: bool, since: RTPTime,
                                     maximum: nat)
    requires n <= |ss| && ContentShape(c) && c.header.Some? && Accounting.Size(c) <= maximum
    ensures Accounting.Size(WithDue(c, ss, n, first, since)) <= maximum
       <==> forall k :: 0 <= k < n ==> !Overflows(c, ss, k, first, since, maximum)
    decreases n
  {
    hide Accounting.Size, ContentShape, WithDue, Overflows;
    if n == 0 {
      StartDue(c, ss, first, since);
    } else {
      FitsUntil(c, ss, n - 1, first, since, maximum);
      FitsOne(c, ss, n - 1, first, since, maximum);
    }
  }

  lemma ItemGrows(h: Header, blocks: seq<ReportBlock>, ssrc: u32, items: seq<Item>, i: Item)
    requires ItemShapes(items) && ItemShape(i)
    ensures Accounting.Size(Draft(h, blocks, ssrc, items, []))
         <= Accounting.Size(Draft(h, blocks, ssrc, items + [i], []))
  {
    hide Accounting.Size, Draft, ItemOctets, Accounting.Octets, ReportSize;
    DraftSize(h, blocks, ssrc, items, []);
    DraftSize(h, blocks, ssrc, items + [i], []);
    MoreItems(items, i);
  }

  lemma {:induction false} ItemsGrow(h: Header, blocks: seq<ReportBlock>, ssrc: u32, items: seq<Item>, more: seq<Item>)
    requires ItemShapes(items) && ItemShapes(more)
    ensures Accounting.Size(Draft(h, blocks, ssrc, items, []))
         <= Accounting.Size(Draft(h, blocks, ssrc, items + more, []))
    decreases |more|
  {
    hide Accounting.Size, Draft;
    if more == [] {
      assert items + more == items;
    } else {
      var n := |more| - 1;
      ItemsGrow(h, blocks, ssrc, items, more[..n]);
      ItemGrows(h, blocks, ssrc, items + more[..n], more[n]);
      assert items + more == items + more[..n] + [more[n]];
    }
  }

  lemma AllDue(ss: seq<ReportSource>, all: bool, since: RTPTime, h: Header, ssrc: u32, cname: Item)
    ensures WithDue(Draft(h, [], ssrc, [cname], []), ss, |ss|, all, since)
         == Draft(h, DueBlocks(ss, |ss|, all, since), ssrc, [cname], [])
  {
    hide DueBlocks;
    assert [] + DueBlocks(ss, |ss|, all, since) == DueBlocks(ss, |ss|, all, since);
  }

  /** All due sources are in the packet exactly if their blocks fit. */
  lemma ClearedExactly(p: Plan, ss: seq<ReportSource>, h: Header, ssrc: u32, cname: Item, maximum: nat)
    requires ItemShape(cname) && maximum >= 600
    requires FirstReports(p, ss, Draft(h, [], ssrc, [cname], []), maximum)
    ensures p.cleared ==> p.first == |ss|
    ensures p.cleared
       <==> Accounting.Size(Draft(h, DueBlocks(ss, |ss|, p.all, p.since), ssrc, [cname], [])) <= maximum
  {
    hide Accounting.Size, ContentShape, Draft, WithDue, DueBlocks, StopAt, Overflows;
    var base := Draft(h, [], ssrc, [cname], []);
    FirstSize(h, ssrc, cname);
    DraftShape(h, [], ssrc, [cname]);
    DraftHeader(h, [], ssrc, [cname]);
    AllDue(ss, p.all, p.since, h, ssrc, cname);
    StopsAt(base, ss, 0, |ss|, p.all, p.since, maximum);
    FitsUntil(base, ss, |ss|, p.all, p.since, maximum);
    BlocksWithin(ss, p.first, p.all, p.since);
    BoundedOverflow(base, ss, p.first, p.all, p.since, maximum);
    forall k | 0 <= k < p.first ensures !Overflows(base, ss, k, p.all, p.since, maximum) {
      assert !Ends(base, ss, k, |ss|, p.all, p.since, maximum);
    }
  }

  lemma ItemsForAppend(own: seq<seq<byte>>, a: seq<nat>, b: seq<nat>, items: seq<Item>)
    requires OwnItems(own) && (forall i :: 0 <= i < |a| ==> a[i] < 6) && (forall i :: 0 <= i < |b| ==> b[i] < 6)
    ensures items + ItemsFor(own, a + b) == items + ItemsFor(own, a) + ItemsFor(own, b)
  {
    hide OwnItem;
    assert ItemsFor(own, a + b) == ItemsFor(own, a) + ItemsFor(own, b);
  }

  lemma ChosenAround(selected: seq<bool>, k: nat)
    requires |selected| == 6 && k < 6 && selected[k]
    ensures Chosen(selected, 0, 6) == Chosen(selected, 0, k) + [k] + Chosen(selected, k + 1, 6)
  {
    ChosenSplit(selected, 0, k + 1, 6);
  }

  /** If a selected item does not fit, all of them do not either. */
  lemma NotAllItems(h: Header, blocks: seq<ReportBlock>, ssrc: u32, cname: Item, own: seq<seq<byte>>,
                    selected: seq<bool>, next: nat, maximum: nat)
    requires ItemShape(cname) && OwnItems(own) && |selected| == 6 && next < 6 && selected[next]
    requires TooBig(h, blocks, ssrc, [cname] + ItemsFor(own, Chosen(selected, 0, next)), own, next, maximum)
    ensures Accounting.Size(Draft(h, blocks, ssrc, [cname] + ItemsFor(own, Chosen(selected, 0, 6)), [])) > maximum
  {
    hide Accounting.Size, Draft, Chosen, ItemsFor, OwnItem;
    var part, rest := Chosen(selected, 0, next), Chosen(selected, next + 1, 6);
    ChosenAround(selected, next);
    ItemsForAppend(own, part + [next], rest, [cname]);
    ItemsForSnoc(own, part, next, [cname]);
    ItemsGrow(h, blocks, ssrc, [cname] + ItemsFor(own, part + [next]), ItemsFor(own, rest));
  }

  /** The own items of the packet are the selected ones, up to the one that did not fit if the round goes on. */
  predicate Sends(part: seq<nat>, selected: seq<bool>, finished: bool, next: nat) {
    && |selected| == 6 && (!finished ==> next < 6 && selected[next])
    && part == Chosen(selected, 0, if finished then 6 else next)
  }

  /** All due sources and all selected items are in the packet exactly if they fit. */
  lemma WholeExactly(p: Plan, ss: seq<ReportSource>, h: Header, ssrc: u32, cname: Item, own: seq<seq<byte>>,
                     selected: seq<bool>, maximum: nat, finished: bool, next: nat)
    requires PlanOk(p, ss) && OwnItems(own) && ItemShape(cname) && maximum >= 600 && |selected| == 6
    requires Complete(p, ss, h, ssrc, cname, own, maximum, false, finished, next)
    requires Accounting.Size(Planned(p, ss, h, ssrc, cname, own)) <= maximum
    requires p.cleared ==> Sends(p.part, selected, finished, next)
    ensures p.cleared && finished
       <==> Accounting.Size(Whole(ss, p.all, p.since, h, ssrc, cname, own, selected)) <= maximum
    ensures p.cleared && finished ==>
              Planned(p.(second := 0), ss, h, ssrc, cname, own)
                  == Whole(ss, p.all, p.since, h, ssrc, cname, own, selected)
  {
    hide Accounting.Size, Draft, DueBlocks, SecondReports, FirstReports, ItemsFor, Chosen, Planned, TooBig, ItemShape;
    ClearedExactly(p, ss, h, ssrc, cname, maximum);
    var blocks := DueBlocks(ss, |ss|, p.all, p.since);
    if !p.cleared {
      ItemsGrow(h, blocks, ssrc, [cname], ItemsFor(own, Chosen(selected, 0, 6)));
    } else if !finished {
      NotAllItems(h, blocks, ssrc, cname, own, selected, next, maximum);
    } else {
      PlanReports(p.(second := 0), ss, h, ssrc, cname, own);
      SecondGrows(p, ss, h, ssrc, cname, own, maximum);
    }
  }

  /** Without its second reports the packet is no bigger. */
  lemma SecondGrows(p: Plan, ss: seq<ReportSource>, h: Header, ssrc: u32, cname: Item, own: seq<seq<byte>>,
                    maximum: nat)
    requires PlanOk(p, ss) && OwnItems(own) && ItemShape(cname)
    requires Accounting.Size(Planned(p, ss, h, ssrc, cname, own)) <= maximum
    ensures Accounting.Size(Planned(p.(second := 0), ss, h, ssrc, cname, own)) <= maximum
  {
    var q := p.(second := 0);
    var c := Planned(q, ss, h, ssrc, cname, own);
    DraftShape(h, PlannedBlocks(q, ss), ssrc, [cname] + ItemsFor(own, p.part));
    PlannedHeader(q, ss, h, ssrc, cname, own);
    PlanMore(q, ss, h, ssrc, cname, own, p.second);
    assert q.(second := p.second) == p;
    hide Accounting.Size, ContentShape, Planned, WithDue, Overflows, TableThen;
    DueGrows(c, TableThen(q, ss), p.second, p.all, p.since);
  }

  /** Up to the first due source, the sources that are due once the flags are cleared are those passed over before. */
  lemma {:induction false} DueAgain(ss: seq<ReportSource>, n: nat, all: bool, since: RTPTime)
    requires n <= |ss| && forall k :: 0 <= k < n ==> !Due(ss[k], all, since)
    ensures |DueBlocks(Cleared(Marked(ss, |ss|, all, since)), n, all, since)| == Skipped(ss, n, all, since)
    decreases n
  {
    var t := Cleared(Marked(ss, |ss|, all, since));
    if n == 0 {
      DueNone(t, all, since);
    } else {
      DueAgain(ss, n - 1, all, since);
      DueStep(t, n - 1, all, since);
      SkippedStep(ss, n - 1, all, since);
      assert t[n - 1] == ss[n - 1].(processed := false);
      hide DueBlocks, Marked, Cleared;
    }
  }

  lemma {:induction false} SkippedBetween(ss: seq<ReportSource>, i: nat, n: nat, all: bool, since: RTPTime)
    requires i <= n <= |ss|
    ensures Skipped(ss, i, all, since) <= Skipped(ss, n, all, since)
    ensures Skipped(ss, i, all, since) < Skipped(ss, n, all, since)
       <==> exists j :: i <= j < n && PassedOver(ss[j], all, since)
    decreases n - i
  {
    if i < n {
      SkippedBetween(ss, i, n - 1, all, since);
      hide Eligible;
      if PassedOver(ss[n - 1], all, since) {
        assert i <= n - 1 < n;
      }
    }
  }

  /** The second reports come to the first due source exactly if the quota and the room last until there. */
  lemma ComesTo(c: Content, ss: seq<ReportSource>, i: nat, all: bool, since: RTPTime, maximum: nat)
    requires FirstDue(ss, i, all, since) && ContentShape(c) && c.header.Some? && Accounting.Size(c) <= maximum
    ensures var t, quota := Cleared(Marked(ss, |ss|, all, since)), Skipped(ss, |ss|, all, since);
            i < StopAt(c, t, 0, quota, all, since, maximum)
            <==> Skipped(ss, i, all, since) < quota && RoomUpTo(ss, i, all, since, c, maximum)
  {
    hide Accounting.Size, ContentShape, StopAt, DueBlocks, WithDue, Overflows, Due, Skipped, Cleared, Marked;
    var t, quota := Cleared(Marked(ss, |ss|, all, since)), Skipped(ss, |ss|, all, since);
    var stop := StopAt(c, t, 0, quota, all, since, maximum);
    StopsAt(c, t, 0, quota, all, since, maximum);
    FitsUntil(c, t, i + 1, all, since, maximum);
    forall k | 0 <= k <= i
      ensures |DueBlocks(t, k, all, since)| == Skipped(ss, k, all, since) <= Skipped(ss, i, all, since) <= quota
    {
      DueAgain(ss, k, all, since);
      SkippedBetween(ss, k, i, all, since);
      SkippedBetween(ss, i, |ss|, all, since);
    }
    if i < stop {
      assert !Ends(c, t, i, quota, all, since, maximum);
      forall k | 0 <= k <= i ensures !Overflows(c, t, k, all, since, maximum) {
        assert !Ends(c, t, k, quota, all, since, maximum);
      }
    }
  }

  lemma {:induction false} FirstDueExists(ss: seq<ReportSource>, k: nat, all: bool, since: RTPTime) returns (i: nat)
    requires k < |ss| && Due(ss[k], all, since)
    ensures i <= k && FirstDue(ss, i, all, since)
    decreases k
  {
    hide Due;
    if FirstDue(ss, k, all, since) {
      i := k;
    } else {
      var m :| 0 <= m < k && Due(ss[m], all, since);
      i := FirstDueExists(ss, m, all, since);
    }
  }

  /** The table from which the second reports of a packet with all due sources are taken. */
  lemma TableOfAll(p: Plan, ss: seq<ReportSource>)
    requires PlanOk(p, ss) && p.cleared && p.first == |ss|
    ensures TableThen(p, ss) == Cleared(Marked(ss, |ss|, p.all, p.since))
  {
  }

  /** The number of sources passed over grows behind the first due source exactly if one of them stands there. */
  lemma QuotaLeft(ss: seq<ReportSource>, i: nat, all: bool, since: RTPTime)
    requires FirstDue(ss, i, all, since)
    ensures Skipped(ss, i, all, since) < Skipped(ss, |ss|, all, since) <==> ReportedBehind(ss, i, all, since)
  {
    SkippedBetween(ss, i, |ss|, all, since);
    hide Skipped, Eligible;
    if j :| i <= j < |ss| && PassedOver(ss[j], all, since) {
      assert i != j;
    }
  }

  /** The second reports of a finished packet come to the first due source. */
  lemma ComesBack(p: Plan, ss: seq<ReportSource>, i: nat, h: Header, ssrc: u32, cname: Item, own: seq<seq<byte>>,
                  c: Content, maximum: nat)
    requires PlanOk(p, ss) && OwnItems(own) && p.cleared && p.first == |ss| && FirstDue(ss, i, p.all, p.since)
    requires p.second == SecondReports(p, ss, h, ssrc, cname, own, maximum, false)
    requires Planned(p.(second := 0), ss, h, ssrc, cname, own) == c && ContentShape(c) && c.header.Some?
    requires Accounting.Size(c) <= maximum
    ensures i < p.second <==> ReportedBehind(ss, i, p.all, p.since) && RoomUpTo(ss, i, p.all, p.since, c, maximum)
  {
    TableOfAll(p, ss);
    hide Accounting.Size, ContentShape, StopAt, Skipped, Cleared, Marked, TableThen, Planned, RoomUpTo, FirstDue,
         ReportedBehind;
    ComesTo(c, ss, i, p.all, p.since, maximum);
    QuotaLeft(ss, i, p.all, p.since);
  }

  lemma FinishedRepeats(p: Plan, ss: seq<ReportSource>, h: Header, ssrc: u32, cname: Item, own: seq<seq<byte>>,
                        selected: seq<bool>, maximum: nat)
    requires PlanOk(p, ss) && OwnItems(own) && ItemShape(cname) && |selected| == 6 && p.cleared && p.first == |ss|
    requires p.second == SecondReports(p, ss, h, ssrc, cname, own, maximum, false)
    requires Planned(p.(second := 0), ss, h, ssrc, cname, own)
             == Whole(ss, p.all, p.since, h, ssrc, cname, own, selected)
    requires Accounting.Size(Whole(ss, p.all, p.since, h, ssrc, cname, own, selected)) <= maximum
    ensures (exists i: nat :: LookedAtAgain(p, ss, i))
       <==> WillRepeat(ss, p.all, p.since, h, ssrc, cname, own, selected, maximum)
  {
    hide Accounting.Size, ContentShape, Whole, Planned, Due, RoomUpTo, ReportedBehind, SecondReports, ItemShape;
    var c := Whole(ss, p.all, p.since, h, ssrc, cname, own, selected);
    WholeShape(ss, p.all, p.since, h, ssrc, cname, own, selected);
    if k: nat :| LookedAtAgain(p, ss, k) {
      var i := FirstDueExists(ss, k, p.all, p.since);
      ComesBack(p, ss, i, h, ssrc, cname, own, c, maximum);
    }
    if i: nat :| FirstDue(ss, i, p.all, p.since) && ReportedBehind(ss, i, p.all, p.since)
                 && RoomUpTo(ss, i, p.all, p.since, c, maximum) {
      ComesBack(p, ss, i, h, ssrc, cname, own, c, maximum);
      assert LookedAtAgain(p, ss, i);
    }
  }

  lemma WholeShape(ss: seq<ReportSource>, all: bool, since: RTPTime, h: Header, ssrc: u32, cname: Item,
                   own: seq<seq<byte>>, selected: seq<bool>)
    requires OwnItems(own) && |selected| == 6 && ItemShape(cname)
    ensures var c := Whole(ss, all, since, h, ssrc, cname, own, selected); ContentShape(c) && c.header.Some?
  {
    hide DueBlocks, Chosen, ItemsFor;
    DraftShape(h, DueBlocks(ss, |ss|, all, since), ssrc, [cname] + ItemsFor(own, Chosen(selected, 0, 6)));
  }

  /** Without room for all due sources and all selected items there is none for more. */
  lemma NoRoom(ss: seq<ReportSource>, all: bool, since: RTPTime, h: Header, ssrc: u32, cname: Item,
               own: seq<seq<byte>>, selected: seq<bool>, maximum: nat)
    requires OwnItems(own) && |selected| == 6 && ItemShape(cname)
    requires Accounting.Size(Whole(ss, all, since, h, ssrc, cname, own, selected)) > maximum
    ensures !WillRepeat(ss, all, since, h, ssrc, cname, own, selected, maximum)
  {
    WholeShape(ss, all, since, h, ssrc, cname, own, selected);
    hide Accounting.Size, ContentShape, Whole, FirstDue, ReportedBehind, RoomUpTo;
    var c := Whole(ss, all, since, h, ssrc, cname, own, selected);
    forall i: nat | FirstDue(ss, i, all, since)
      ensures !RoomUpTo(ss, i, all, since, c, maximum)
    {
      NoneUpTo(ss, i, all, since, c, maximum);
    }
  }

  lemma NoneUpTo(ss: seq<ReportSource>, i: nat, all: bool, since: RTPTime, c: Content, maximum: nat)
    requires ContentShape(c) && c.header.Some? && Accounting.Size(c) > maximum
    ensures !RoomUpTo(ss, i, all, since, c, maximum)
  {
    hide Accounting.Size, ContentShape, Cleared, Marked, WithDue;
    if i < |ss| {
      DueGrows(c, Cleared(Marked(ss, |ss|, all, since)), i + 1, all, since);
    }
  }

  /**
   * A packet reports a source twice exactly if it does not go on with a round of own items, an already reported
   * source stands behind the first due one, and there is room for the second blocks up to that one.
   */
  lemma RepeatsExactly(p: Plan, ss: seq<ReportSource>, h: Header, ssrc: u32, cname: Item, own: seq<seq<byte>>,
                       selected: seq<bool>, maximum: nat, resumed: bool, finished: bool, next: nat)
    requires PlanOk(p, ss) && OwnItems(own) && ItemShape(cname) && maximum >= 600 && |selected| == 6
    requires Complete(p, ss, h, ssrc, cname, own, maximum, resumed, finished, next)
    requires Accounting.Size(Planned(p, ss, h, ssrc, cname, own)) <= maximum
    requires p.cleared && !resumed ==> Sends(p.part, selected, finished, next)
    ensures Repeats(p, ss)
       <==> !resumed && WillRepeat(ss, p.all, p.since, h, ssrc, cname, own, selected, maximum)
  {
    hide Repeats, WillRepeat, SecondReports, FirstReports, TooBig, Planned, Whole, Accounting.Size, Sends, Due,
         DueBlocks;
    RepeatsByLooking(p, ss, h, ssrc, cname, own, maximum, resumed, finished, next);
    if !resumed {
      ClearedReportsAll(p, ss, h, ssrc, cname, own, maximum, resumed, finished, next);
      WholeExactly(p, ss, h, ssrc, cname, own, selected, maximum, finished, next);
      if p.cleared && finished {
        FinishedRepeats(p, ss, h, ssrc, cname, own, selected, maximum);
      } else {
        NoRoom(ss, p.all, p.since, h, ssrc, cname, own, selected, maximum);
      }
    }
  }

  /** In a table without two entries for one SSRC, repeated sources are blocks of the packet with the same SSRC. */
  lemma RepeatsSeen(p: Plan, ss: seq<ReportSource>)
    requires PlanOk(p, ss) && forall i, j :: 0 <= i < j < |ss| ==> ss[i].ssrc != ss[j].ssrc
    ensures Repeats(p, ss) <==> exists q, q' :: 0 <= q < q' < |PlannedBlocks(p, ss)|
                                  && PlannedBlocks(p, ss)[q].ssrc == PlannedBlocks(p, ss)[q'].ssrc
  {
    var bs, n := PlannedBlocks(p, ss), |EarlierPicks(p, ss)| + |LaterPicks(p, ss)|;
    BlocksOfStates(p, ss);
    forall q | 0 <= q < n
      ensures bs[q].ssrc == ss[SourceOf(p, ss, q)].ssrc
    {
      DueThen(p, ss, SourceOf(p, ss, q));
      SsrcOfBlock(StateOf(p, ss, q));
      hide TableThen, BlockFor, PlannedBlocks, Due;
    }
    hide PlannedBlocks, SourceOf, StateOf, BlockFor, EarlierPicks, LaterPicks;
    if q, q' :| 0 <= q < q' < n && SourceOf(p, ss, q) == SourceOf(p, ss, q') {
      assert bs[q].ssrc == bs[q'].ssrc;
    }
    if q, q' :| 0 <= q < q' < n && bs[q].ssrc == bs[q'].ssrc {
      assert SourceOf(p, ss, q) == SourceOf(p, ss, q');
    }
  }

  lemma SsrcOfBlock(s: ReportSource)
    ensures BlockFor(s).ssrc == s.ssrc
  {
  }

  /** The fraction lost of the block of a source in this state has a value. */
  predicate FractionDefined(s: ReportSource) {
    Stats.FractionLost(Stats.IntervalExpected(s.seqs), s.seqs.numNewPackets).Some?
  }

  /**
   * When every source that can be reported has a packet in its interval, the fraction lost of a block is not
   * defined exactly if the packet has reported its source before.
   */
  lemma UndefinedExactly(p: Plan, ss: seq<ReportSource>, h: Header, ssrc: u32, cname: Item, own: seq<seq<byte>>,
                         maximum: nat, resumed: bool, finished: bool, next: nat, q: nat)
    requires PlanOk(p, ss) && OwnItems(own) && Complete(p, ss, h, ssrc, cname, own, maximum, resumed, finished, next)
    requires forall s :: s in ss && Eligible(s, p.all, p.since) ==> s.seqs.numNewPackets > 0
    requires q < |EarlierPicks(p, ss)| + |LaterPicks(p, ss)|
    ensures !FractionDefined(StateOf(p, ss, q)) <==>
      q >= |EarlierPicks(p, ss)| && LookedAtAgain(p, ss, SourceOf(p, ss, q))
  {
    hide Complete, TableThen, Stats.FractionLost;
    var i := SourceOf(p, ss, q);
    ClearedReportsAll(p, ss, h, ssrc, cname, own, maximum, resumed, finished, next);
    PicksExact(ss, p.first, p.all, p.since);
    PicksExact(TableThen(p, ss), p.second, p.all, p.since);
    DueThen(p, ss, i);
    var s := StateOf(p, ss, q);
    Stats.FractionLostExact(Stats.IntervalExpected(s.seqs), s.seqs.numNewPackets);
    assert ss[i] in ss;
  }

  /** The sizes of a packet with two blocks and the CNAME stay below 600. */
  lemma TwoBlocksFit(h: Header, blocks: seq<ReportBlock>, ssrc: u32, cname: Item)
    requires ItemShape(cname) && |blocks| <= 2
    ensures Accounting.Size(Draft(h, blocks, ssrc, [cname], [])) <= 344
  {
    NoItems();
    NoOctets();
    MoreItems([], cname);
    assert [] + [cname] == [cname];
    OnePacket(|blocks|);
    DraftSize(h, blocks, ssrc, [cname], []);
  }

  /** The blocks of a table of two whose first source is due and whose second is not. */
  lemma FirstOfTwo(ss: seq<ReportSource>, first: bool, since: RTPTime)
    requires |ss| == 2 && Due(ss[0], first, since)
    ensures DueBlocks(ss, 0, first, since) == [] && DueBlocks(ss, 1, first, since) == [BlockFor(ss[0])]
    ensures !Due(ss[1], first, since) ==> DueBlocks(ss, 2, first, since) == [BlockFor(ss[0])]
  {
    hide BlockFor, Due, DueBlocks;
    DueNone(ss, first, since);
    DueStep(ss, 0, first, since);
    DueStep(ss, 1, first, since);
  }

  /** Where the loop stops for such a table. */
  lemma StopsForTwo(c: Content, h: Header, ssrc: u32, cname: Item, sofar: seq<ReportBlock>, ss: seq<ReportSource>,
                    quota: nat, first: bool, since: RTPTime, maximum: nat)
    requires ItemShape(cname) && c == Draft(h, sofar, ssrc, [cname], []) && |sofar| <= 1 && maximum >= 600
    requires |ss| == 2 && Due(ss[0], first, since) && 0 < quota <= 2 && (quota == 2 ==> !Due(ss[1], first, since))
    ensures StopAt(c, ss, 0, quota, first, since, maximum) == quota
  {
    FirstOfTwo(ss, first, since);
    TwoBlocksFit(h, sofar + [BlockFor(ss[0])], ssrc, cname);
    hide DueBlocks, Accounting.Size, BlockFor, Due, StopAt;
    assert WithDue(c, ss, 1, first, since) == Draft(h, sofar + [BlockFor(ss[0])], ssrc, [cname], []);
    assert !Overflows(c, ss, 0, first, since, maximum);
    StopStep(c, ss, 0, quota, first, since, maximum);
    if quota == 1 {
      StopEnds(c, ss, 1, 1, first, since, maximum);
    } else {
      StopStep(c, ss, 1, 2, first, since, maximum);
      StopEnds(c, ss, 2, 2, first, since, maximum);
    }
  }

  /** What this class decides for a table of a new source and one reported in the packet before. */
  lemma TwoPlanned(all: bool, since: RTPTime, a: ReportSource, b: ReportSource, h: Header, ssrc: u32, cname: Item,
                   own: seq<seq<byte>>, maximum: nat)
    requires ItemShape(cname) && OwnItems(own) && maximum >= 600
    requires Due(a, all, since) && Eligible(b, all, since) && b.processed
    ensures FirstReports(Plan(all, since, true, 2, 1, []), [a, b], Draft(h, [], ssrc, [cname], []), maximum)
    ensures forall second :: 0 <= second <= 2 ==>
              SecondReports(Plan(all, since, true, 2, second, []), [a, b], h, ssrc, cname, own, maximum, false) == 1
    ensures PlannedBlocks(Plan(all, since, true, 2, 1, []), [a, b])
            == [BlockFor(a), BlockFor(Reported(a).(processed := false))]
  {
    var ss, q := [a, b], Plan(all, since, true, 2, 0, []);
    StopsForTwo(Draft(h, [], ssrc, [cname], []), h, ssrc, cname, [], ss, 2, all, since, maximum);
    SkippedOne(a, b, all, since);
    TwoTables(all, since, a, b, 1);
    TwoTables(all, since, a, b, 0);
    FirstOfTwo(ss, all, since);
    FirstOfTwo(TableThen(q, ss), all, since);
    PlanReports(q, ss, h, ssrc, cname, own);
    hide BlockFor, StopAt, DueBlocks, Overflows, Due, Accounting.Size, Draft;
    assert [cname] + ItemsFor(own, []) == [cname];
    assert [BlockFor(a)] + [BlockFor(Reported(a).(processed := false))]
           == [BlockFor(a), BlockFor(Reported(a).(processed := false))];
    StopsForTwo(Planned(q, ss, h, ssrc, cname, own), h, ssrc, cname, [BlockFor(a)], TableThen(q, ss), 1, all, since,
                maximum);
    BoundedOverflow(Draft(h, [], ssrc, [cname], []), ss, 2, all, since, maximum);
    forall second | 0 <= second <= 2
      ensures SecondReports(Plan(all, since, true, 2, second, []), ss, h, ssrc, cname, own, maximum, false) == 1
    {
      var p := Plan(all, since, true, 2, second, []);
      assert p.(second := 0) == q;
      TwoTables(all, since, a, b, second);
    }
  }

  /**
   * It happens: with a new source `a` and a source `b` that the packet before reported, and no own items in the
   * round, the one plan this class makes looks at `a` twice, for every maximum.
   */
  lemma ReportedTwice(p: Plan, a: ReportSource, b: ReportSource, h: Header, ssrc: u32, cname: Item, own: seq<seq<byte>>,
                      maximum: nat, next: nat)
    requires PlanOk(p, [a, b]) && p.part == [] && ItemShape(cname) && OwnItems(own) && maximum >= 600
    requires Due(a, p.all, p.since) && Eligible(b, p.all, p.since) && b.processed
    ensures Complete(p, [a, b], h, ssrc, cname, own, maximum, false, true, next)
            <==> p == Plan(p.all, p.since, true, 2, 1, [])
    ensures p == Plan(p.all, p.since, true, 2, 1, []) ==>
              Repeats(p, [a, b]) && PlannedBlocks(p, [a, b])
                  == [BlockFor(a), BlockFor(Reported(a).(processed := false))]
              && !FractionDefined(Reported(a))
  {
    var ss, q := [a, b], Plan(p.all, p.since, true, 2, 1, []);
    hide BlockFor, StopAt, DueBlocks, Overflows, Reported, FractionDefined, SecondReports, FirstReports, Repeats,
         PlannedBlocks, Draft, TooBig, Due, Eligible;
    TwoPlanned(p.all, p.since, a, b, h, ssrc, cname, own, maximum);
    NewlyReported(a);
    FirstPlanIs(p, q, ss, Draft(h, [], ssrc, [cname], []), maximum);
    if p == q {
      LookingAgainRepeats(p, ss, 0);
    }
  }

  /** The first reports of a packet determine where they stop and whether a round of own items begins. */
  lemma FirstPlanIs(p: Plan, q: Plan, ss: seq<ReportSource>, base: Content, maximum: nat)
    requires p.all == q.all && p.since == q.since && FirstReports(q, ss, base, maximum)
    ensures FirstReports(p, ss, base, maximum) <==> p.first == q.first && p.cleared == q.cleared
  {
    hide StopAt, Overflows;
  }

  /** Right after a block was sent the interval of a source has no packet. */
  lemma NewlyReported(s: ReportSource)
    ensures !FractionDefined(Reported(s))
  {
  }

  lemma SkippedOne(a: ReportSource, b: ReportSource, first: bool, since: RTPTime)
    requires Due(a, first, since) && Eligible(b, first, since) && b.processed
    ensures Skipped([a, b], 2, first, since) == 1
  {
    var ss := [a, b];
    SkippedStep(ss, 0, first, since);
    SkippedStep(ss, 1, first, since);
  }

  lemma TwoTables(first: bool, since: RTPTime, a: ReportSource, b: ReportSource, second: nat)
    requires Due(a, first, since) && Eligible(b, first, since) && b.processed && second <= 2
    ensures TableThen(Plan(first, since, true, 2, second, []), [a, b])
         == [Reported(a).(processed := false), b.(processed := false)]
  {
  }

  class RTCPPacketBuilder {
    var init: bool
    var maxPacketSize: nat
    var timestampUnit: real
    var firstPacket: bool
    var prevBuildTime: RTPTime
    var ownCname: seq<byte>

    // Own items, their intervals and their flags do... and processed..., in FillInSDES order.
    var ownItems: seq<seq<byte>>
    var intervals: seq<int>
    var selected: seq<bool>
    var processed: seq<bool>

    var processingSdes: bool
    var sdesBuildCount: nat

    // Items before `pos` are done in the current round; it has emitted these, in this many packets.
    ghost var pos: nat
    ghost var emitted: seq<nat>
    ghost var roundPackets: nat

    ghost predicate Valid()
      reads `init, `maxPacketSize, `ownCname, `ownItems, `intervals, `selected, `processed, `processingSdes
      reads `pos, `emitted, `roundPackets
    {
      && OwnItems(ownItems) && |ownCname| <= 255
      && |intervals| == |selected| == |processed| == 6
      && (!init ==> !processingSdes)
      && (init ==> Accounting.MIN_PACKET_SIZE <= maxPacketSize < Accounting.SIZE_T / 2)
      && pos <= 6
      && (forall k :: 0 <= k < 6 ==> processed[k] == (processingSdes && selected[k] && k < pos))
      && emitted == Chosen(selected, 0, pos)
      && roundPackets <= 1 + |emitted|
      && (if processingSdes then pos < 6 && selected[pos] else pos == 6)
    }

    function Cname(): Item
      reads `ownCname
    {
      Item(1, ownCname)
    }

    constructor ()
      ensures Valid() && !init
    {
      init, maxPacketSize, timestampUnit, firstPacket, prevBuildTime, ownCname := false, 0, 0.0, true,
        RTPTime(0, 0), [];
      ownItems, intervals := [[], [], [], [], [], []], [-1, -1, -1, -1, -1, -1];
      selected, processed := [false, false, false, false, false, false], [false, false, false, false, false, false];
      processingSdes, sdesBuildCount, pos, emitted, roundPackets := false, 0, 6, [], 0;
      new;
      NothingChosen(selected, 0, 6);
    }

    /** Refusals, then a fresh start: no own items are due, and all sources can be reported. */
    method Init(maxPackSize: nat, tsUnit: real, cname: seq<byte>, sources: seq<ReportSource>)
      returns (outcome: Initialised, r: seq<ReportSource>)
      requires Valid() && maxPackSize < Accounting.SIZE_T / 2
      modifies `init, `maxPacketSize, `timestampUnit, `firstPacket, `ownCname, `intervals, `sdesBuildCount
      ensures Valid()
      ensures outcome == if old(init) then AlreadyInit
                         else if maxPackSize < 600 then IllegalMaxPackSize
                         else if tsUnit < 0.0 then IllegalTimestampUnit else Done
      ensures outcome.Done? ==> init && maxPacketSize == maxPackSize && timestampUnit == tsUnit && firstPacket
      ensures outcome.Done? ==> ownCname == AtMost255(cname)
      ensures outcome.Done? ==> intervals == [-1, -1, -1, -1, -1, -1] && sdesBuildCount == 0 && !processingSdes
      ensures !outcome.Done? ==> unchanged(this)
      ensures r == if outcome.Done? then Cleared(sources) else sources
    {
      hide Chosen, OwnItems, Cleared, AtMost255, Valid;
      r := sources;
      if init {
        return AlreadyInit, r;
      }
      if maxPackSize < Accounting.MIN_PACKET_SIZE {
        return IllegalMaxPackSize, r;
      }
      if tsUnit < 0.0 {
        return IllegalTimestampUnit, r;
      }
      SetUp(maxPackSize, tsUnit, cname);
      r := ClearAllSourceFlags(sources);
      outcome := Done;
    }

    /** The fields Init sets. */
    method SetUp(maxPackSize: nat, tsUnit: real, cname: seq<byte>)
      requires Valid() && !init && Accounting.MIN_PACKET_SIZE <= maxPackSize < Accounting.SIZE_T / 2
      modifies `init, `maxPacketSize, `timestampUnit, `firstPacket, `ownCname, `intervals, `sdesBuildCount
      ensures Valid() && init && !processingSdes && firstPacket && maxPacketSize == maxPackSize
              && timestampUnit == tsUnit
      ensures ownCname == AtMost255(cname) && intervals == [-1, -1, -1, -1, -1, -1] && sdesBuildCount == 0
    {
      hide Chosen, OwnItems, AtMost255;
      maxPacketSize, timestampUnit, ownCname := maxPackSize, tsUnit, AtMost255(cname);
      intervals, sdesBuildCount := [-1, -1, -1, -1, -1, -1], 0;
      firstPacket, init := true, true;
    }

    /** SetNameInterval and its five companions, for item `k` of the order; a round that goes on keeps its selection. */
    method SetInterval(k: nat, count: int)
      requires Valid() && k < 6
      modifies `intervals
      ensures Valid() && intervals == if init then old(intervals)[k := count] else old(intervals)
    {
      hide Chosen, OwnItems;
      if init {
        intervals := intervals[k := count];
      }
    }

    /** SetLocalName and its five companions, for item `k` of the order. */
    method SetLocalItem(k: nat, data: seq<byte>) returns (status: ItemStatus)
      requires Valid() && k < 6
      modifies `ownItems
      ensures Valid()
      ensures status == if !init then ItemNotInit else if |data| > 255 then ItemTooLong else ItemSet
      ensures ownItems == if status.ItemSet? then old(ownItems)[k := data] else old(ownItems)
    {
      hide Chosen;
      if !init {
        return ItemNotInit;
      }
      if |data| > 255 {
        return ItemTooLong;
      }
      ownItems := ownItems[k := data];
      return ItemSet;
    }

    /** SetMaximumPacketSize; a packet in a round may be smaller or bigger than the one before. */
    method SetMaximumPacketSize(maxPackSize: nat) returns (outcome: Initialised)
      requires Valid() && maxPackSize < Accounting.SIZE_T / 2
      modifies `maxPacketSize
      ensures Valid()
      ensures outcome == if !init then NotInitialised
                         else if maxPackSize < 600 then IllegalMaxPackSize else Done
      ensures maxPacketSize == if outcome.Done? then maxPackSize else old(maxPacketSize)
    {
      hide Chosen, OwnItems;
      if !init {
        return NotInitialised;
      }
      if maxPackSize < Accounting.MIN_PACKET_SIZE {
        return IllegalMaxPackSize;
      }
      maxPacketSize := maxPackSize;
      return Done;
    }

    /** The state of the flags between two items: everything before `pos` has been dealt with. */
    ghost predicate InRound()
      reads this
    {
      && OwnItems(ownItems) && |selected| == |processed| == 6 && pos <= 6
      && (forall k :: 0 <= k < 6 ==> processed[k] == (selected[k] && k < pos))
    }

    /** Adds the selected items that are still to be sent, until one does not fit. */
    method FillInSDES(b: Builder.CompoundPacketBuilder, ghost h: Header, ghost blocks: seq<ReportBlock>,
                      ghost ssrc: u32, ghost items: seq<Item>)
      returns (full: bool, processedAll: bool, added: nat, ghost part: seq<nat>)
      requires InRound() && Drafting(b, maxPacketSize, Draft(h, blocks, ssrc, items, []))
      modifies `processed, `pos, b`sdes, b`content
      ensures InRound() && old(pos) <= pos && part == Chosen(selected, old(pos), pos) && added == |part|
      ensures Drafting(b, maxPacketSize, Draft(h, blocks, ssrc, items + ItemsFor(ownItems, part), []))
      ensures full == !processedAll && (processedAll ==> pos == 6)
      ensures full ==> pos < 6 && selected[pos]
                       && TooBig(h, blocks, ssrc, items + ItemsFor(ownItems, part), ownItems, pos, maxPacketSize)
    {
      hide Accounting.Size, Builder.CompoundPacketBuilder.Valid, Draft, OwnItem;
      full, added, part := false, 0, [];
      assert items + ItemsFor(ownItems, part) == items;
      var k := 0;
      while k < 6 && !full
        invariant 0 <= k <= 6 && InRound() && old(pos) <= pos && part == Chosen(selected, old(pos), pos)
                  && added == |part|
        invariant Drafting(b, maxPacketSize, Draft(h, blocks, ssrc, items + ItemsFor(ownItems, part), []))
        invariant if full then pos < 6 && selected[pos] && Accounting.Size(
          Draft(h, blocks, ssrc, items + ItemsFor(ownItems, part) + [OwnItem(ownItems, pos)], [])) > maxPacketSize
          else pos == if k < old(pos) then old(pos) else k
        decreases 6 - k, !full
      {
        if selected[k] && !processed[k] {
          full := SendItem(b, k, h, blocks, ssrc, items + ItemsFor(ownItems, part));
          if !full {
            ItemsForSnoc(ownItems, part, k, items);
            part := part + [k];
            added, pos := added + 1, k + 1;
          }
        } else if k >= pos {
          pos := k + 1;
        }
        k := if full then k else k + 1;
      }
      processedAll := !full;
    }

    method SendItem(b: Builder.CompoundPacketBuilder, k: nat, ghost h: Header, ghost blocks: seq<ReportBlock>,
                    ghost ssrc: u32, ghost items: seq<Item>)
      returns (full: bool)
      requires k < 6 && OwnItems(ownItems) && |processed| == 6
               && Drafting(b, maxPacketSize, Draft(h, blocks, ssrc, items, []))
      modifies `processed, b`sdes, b`content
      ensures var i := OwnItem(ownItems, k);
        && full == (Accounting.Size(Draft(h, blocks, ssrc, items + [i], [])) > maxPacketSize)
        && Drafting(b, maxPacketSize, Draft(h, blocks, ssrc, if full then items else items + [i], []))
      ensures processed == if full then old(processed) else old(processed)[k := true]
    {
      hide Accounting.Size, Builder.CompoundPacketBuilder.Valid, Draft, Accounting.WithItem, OwnItem, OwnItems,
           Accounting.ItemId;
      OwnItemIs(ownItems, k);
      DraftWithItem(h, blocks, ssrc, items, OwnItem(ownItems, k));
      var st := AddOwnItem(b, ORDER[k], ownItems[k], maxPacketSize, b.content);
      if st.NotEnoughBytesLeft? {
        return true;
      }
      processed := processed[k := true];
      return false;
    }

    /** A round of own items begins: the intervals say which of them are due. */
    method StartRound()
      requires Valid() && !processingSdes && init
      modifies `processingSdes, `sdesBuildCount, `selected, `pos, `emitted, `roundPackets
      ensures InRound() && processingSdes && pos == 0 && emitted == [] && roundPackets == 1
      ensures sdesBuildCount == old(sdesBuildCount) + 1 && selected == Select(intervals, sdesBuildCount)
    {
      processingSdes := true;
      sdesBuildCount := sdesBuildCount + 1;
      selected := Select(intervals, sdesBuildCount);
      pos, emitted, roundPackets := 0, [], 1;
    }

    /** The own items of one packet, and what they mean for the round. */
    method SendItems(b: Builder.CompoundPacketBuilder, ghost h: Header, ghost blocks: seq<ReportBlock>, ghost ssrc: u32,
                     ghost items: seq<Item>)
      returns (full: bool, processedAll: bool, added: nat, ghost part: seq<nat>)
      requires InRound() && processingSdes && |intervals| == 6 && |ownCname| <= 255
      requires init && Accounting.MIN_PACKET_SIZE <= maxPacketSize < Accounting.SIZE_T / 2
      requires emitted == Chosen(selected, 0, pos)
      requires Drafting(b, maxPacketSize, Draft(h, blocks, ssrc, items, []))
      modifies `processingSdes, `processed, `pos, `emitted, b`sdes, b`content
      ensures roundPackets <= 1 + |emitted| ==> Valid()
      ensures InRoundOrDone(processedAll) && old(pos) <= pos && processingSdes == !processedAll && full == !processedAll
      ensures part == Chosen(selected, old(pos), pos) && emitted == old(emitted) + part && added == |part|
      ensures Drafting(b, maxPacketSize, Draft(h, blocks, ssrc, items + ItemsFor(ownItems, part), []))
      ensures full ==> pos < 6 && selected[pos]
                       && TooBig(h, blocks, ssrc, items + ItemsFor(ownItems, part), ownItems, pos, maxPacketSize)
    {
      hide Accounting.Size, Builder.CompoundPacketBuilder.Valid, Draft, OwnItem, Chosen, ItemsFor;
      full, processedAll, added, part := FillInSDES(b, h, blocks, ssrc, items);
      ChosenSplit(selected, 0, old(pos), pos);
      emitted := emitted + part;
      if processedAll {
        processingSdes := false;
        processed := [false, false, false, false, false, false];
      }
    }

    /** Reports first; when all due sources are in, a round of own items begins in the same packet. */
    method FillFresh(b: Builder.CompoundPacketBuilder, sources: seq<ReportSource>, ghost h: Header, ghost ssrc: u32)
      returns (outcome: Outcome, r: seq<ReportSource>, ghost plan: Plan)
      requires Valid() && init && !processingSdes && sources != []
      requires Drafting(b, maxPacketSize, Draft(h, [], ssrc, [Cname()], []))
      modifies `processingSdes, `sdesBuildCount, `selected, `processed, `pos, `emitted, `roundPackets
      modifies b`report, b`sdes, b`content
      ensures Valid() && outcome == Built
      ensures plan.all == firstPacket && plan.since == prevBuildTime && PlanOk(plan, sources)
      ensures Drafting(b, maxPacketSize, Planned(plan, sources, h, ssrc, Cname(), ownItems))
      ensures if plan.cleared then
          && sdesBuildCount == old(sdesBuildCount) + 1 && selected == Select(intervals, sdesBuildCount)
          && emitted == plan.part && roundPackets == 1
        else
          && plan.part == [] && DueBlocks(sources, plan.first, firstPacket, prevBuildTime) != [] && plan.second == 0
          && !processingSdes && emitted == old(emitted) && selected == old(selected)
              && roundPackets == old(roundPackets)
          && sdesBuildCount == old(sdesBuildCount)
      ensures Complete(plan, sources, h, ssrc, Cname(), ownItems, maxPacketSize, false, !processingSdes, pos)
      ensures r == TableAfter(plan, sources, false, !processingSdes)
    {
      hide Accounting.Size, Builder.CompoundPacketBuilder.Valid, Draft, DueBlocks, Marked, Chosen, ItemsFor,
           WithDue, Planned;
      hide StopAt, Skipped, TooBig, Overflows, TableThen;
      var full, skipped;
      full, outcome, r, skipped, plan :=
        FillReports(b, sources, firstPacket, prevBuildTime, maxPacketSize, h, ssrc, Cname(), ownItems);
      if !full {
        var processedAll;
        full, processedAll, r, plan := BeginRound(b, sources, r, h, ssrc, plan);
        PlanTable(plan, sources, 0);
        if processedAll && !full && skipped > 0 {
          var atEnd;
          ghost var before := plan;
          r, atEnd, plan :=
            FillMore(b, r, skipped, firstPacket, prevBuildTime, sources, maxPacketSize, h, ssrc, Cname(), ownItems,
                     plan);
          PlanTable(before, sources, plan.second);
        }
      } else {
        PlanTable(plan, sources, 0);
      }
    }

    /** A round of own items begins behind the reports, and all sources become reportable again. */
    method BeginRound(b: Builder.CompoundPacketBuilder, ghost sources: seq<ReportSource>, table: seq<ReportSource>,
                      ghost h: Header, ghost ssrc: u32, ghost plan: Plan)
      returns (full: bool, processedAll: bool, r: seq<ReportSource>, ghost plan': Plan)
      requires Valid() && init && !processingSdes && OwnItems(ownItems) && PlanOk(plan, sources)
               && table == TableThen(plan, sources)
      requires plan == Plan(plan.all, plan.since, false, plan.first, 0, [])
      requires Drafting(b, maxPacketSize, Planned(plan, sources, h, ssrc, Cname(), ownItems))
      modifies `processingSdes, `sdesBuildCount, `selected, `processed, `pos, `emitted, `roundPackets, b`sdes, b`content
      ensures Valid()
      ensures plan' == plan.(cleared := true, part := plan'.part) && PlanOk(plan', sources)
              && r == TableThen(plan', sources)
      ensures Drafting(b, maxPacketSize, Planned(plan', sources, h, ssrc, Cname(), ownItems))
      ensures sdesBuildCount == old(sdesBuildCount) + 1 && selected == Select(intervals, sdesBuildCount)
      ensures emitted == plan'.part && roundPackets == 1 && processingSdes == full == !processedAll
      ensures full ==> TooBig(h, DueBlocks(sources, plan.first, plan.all, plan.since), ssrc,
                              [Cname()] + ItemsFor(ownItems, plan'.part), ownItems, pos, maxPacketSize)
    {
      ghost var blocks := DueBlocks(sources, plan.first, plan.all, plan.since);
      PlanRound(plan, sources, h, ssrc, Cname(), ownItems, []);
      hide Accounting.Size, Builder.CompoundPacketBuilder.Valid, Draft, DueBlocks, Chosen, ItemsFor, Planned,
           Select, TableThen;
      hide Valid, OwnItems, TooBig;
      r := ClearAllSourceFlags(table);
      ghost var part;
      full, processedAll, part := RoundItems(b, h, blocks, ssrc);
      plan' := plan.(cleared := true, part := part);
      PlanRound(plan, sources, h, ssrc, Cname(), ownItems, part);
    }

    /** The first own items of a round. */
    method RoundItems(b: Builder.CompoundPacketBuilder, ghost h: Header, ghost blocks: seq<ReportBlock>,
                      ghost ssrc: u32)
      returns (full: bool, processedAll: bool, ghost part: seq<nat>)
      requires Valid() && init && !processingSdes && OwnItems(ownItems)
      requires Drafting(b, maxPacketSize, Draft(h, blocks, ssrc, [Cname()], []))
      modifies `processingSdes, `sdesBuildCount, `selected, `processed, `pos, `emitted, `roundPackets, b`sdes, b`content
      ensures Valid() && forall i :: 0 <= i < |part| ==> part[i] < 6
      ensures Drafting(b, maxPacketSize, Draft(h, blocks, ssrc, [Cname()] + ItemsFor(ownItems, part), []))
      ensures sdesBuildCount == old(sdesBuildCount) + 1 && selected == Select(intervals, sdesBuildCount)
      ensures emitted == part && roundPackets == 1 && processingSdes == full == !processedAll
      ensures full ==> TooBig(h, blocks, ssrc, [Cname()] + ItemsFor(ownItems, part), ownItems, pos, maxPacketSize)
    {
      hide Accounting.Size, Builder.CompoundPacketBuilder.Valid, Draft, ItemsFor, Select, OwnItems, TooBig;
      StartRound();
      var added;
      full, processedAll, added, part := SendItems(b, h, blocks, ssrc, [Cname()]);
      hide Chosen;
    }

    /** Own items that did not fit before go first; when they are all sent, room that is left goes to reports. */
    method FillContinued(b: Builder.CompoundPacketBuilder, sources: seq<ReportSource>, ghost h: Header, ghost ssrc: u32)
      returns (outcome: Outcome, r: seq<ReportSource>, ghost plan: Plan)
      requires Valid() && init && processingSdes && sources != []
      requires Drafting(b, maxPacketSize, Draft(h, [], ssrc, [Cname()], []))
      modifies `processingSdes, `processed, `pos, `emitted, `roundPackets, b`report, b`sdes, b`content
      ensures Valid() && outcome == Built
      ensures PlanOk(plan, sources) && plan == Plan(firstPacket, prevBuildTime, false, 0, plan.second, plan.part)
      ensures Drafting(b, maxPacketSize, Planned(plan, sources, h, ssrc, Cname(), ownItems))
      ensures plan.part != [] && emitted == old(emitted) + plan.part && roundPackets == old(roundPackets) + 1
      ensures Complete(plan, sources, h, ssrc, Cname(), ownItems, maxPacketSize, true, !processingSdes, pos)
      ensures r == TableAfter(plan, sources, true, !processingSdes)
    {
      hide Accounting.Size, Builder.CompoundPacketBuilder.Valid, Draft, ItemsFor, Planned, TableThen, PlannedBlocks;
      hide StopAt, TooBig, Due, DueBlocks, Marked;
      DueNone(sources, firstPacket, prevBuildTime);
      ghost var part;
      var processedAll;
      outcome, processedAll, part := NextItems(b, h, ssrc);
      plan := Plan(firstPacket, prevBuildTime, false, 0, 0, part);
      PlanContinued(plan, sources, h, ssrc, Cname(), ownItems);
      PlanTable(plan, sources, 0);
      r := sources;
      ghost var before := plan;
      hide Valid;
      if processedAll {
        var atEnd;
        r, atEnd, plan :=
          FillMore(b, sources, |sources|, firstPacket, prevBuildTime, sources, maxPacketSize, h, ssrc, Cname(),
                   ownItems, plan);
        PlanTable(before, sources, plan.second);
        if atEnd {
          r := ClearAllSourceFlags(r);
        }
      }
    }

    /** In a packet that has only the CNAME, at least one more own item fits. */
    method NextItems(b: Builder.CompoundPacketBuilder, ghost h: Header, ghost ssrc: u32)
      returns (outcome: Outcome, processedAll: bool, ghost part: seq<nat>)
      requires Valid() && init && processingSdes
      requires Drafting(b, maxPacketSize, Draft(h, [], ssrc, [Cname()], []))
      modifies `processingSdes, `processed, `pos, `emitted, `roundPackets, b`sdes, b`content
      ensures Valid() && outcome == Built && part != [] && (forall i :: 0 <= i < |part| ==> part[i] < 6)
      ensures Drafting(b, maxPacketSize, Draft(h, [], ssrc, [Cname()] + ItemsFor(ownItems, part), []))
      ensures emitted == old(emitted) + part && roundPackets == old(roundPackets) + 1 && processingSdes == !processedAll
      ensures !processedAll ==> TooBig(h, [], ssrc, [Cname()] + ItemsFor(ownItems, part), ownItems, pos, maxPacketSize)
    {
      hide Accounting.Size, Builder.CompoundPacketBuilder.Valid, Draft, OwnItem, Chosen, ItemsFor;
      SelectedListed(selected, pos, 6, pos);
      var full, added;
      full, processedAll, added, part := SendItems(b, h, [], ssrc, [Cname()]);
      if full {
        OneItemFits(h, ssrc, Cname(), ownItems, pos);
      }
      roundPackets := roundPackets + 1;
      outcome := if added == 0 then PacketFilledTooSoon else Built;
    }

    /**
     * The next compound packet. With a maximum of 600 octets or more it never fails for lack of space, and
     * it makes progress: a report block, or the beginning of a round of own items, or one of its items.
     */
    method BuildNextPacket(ssrc: u32, info: Option<SenderInfo>, curTime: RTPTime, sources: seq<ReportSource>)
      returns (outcome: Outcome, pack: Builder.CompoundPacketBuilder?, r: seq<ReportSource>, ghost plan: Plan)
      requires Valid() && sources != []
      modifies `firstPacket, `prevBuildTime
      modifies `processingSdes, `sdesBuildCount, `selected, `processed, `pos, `emitted, `roundPackets
      ensures Valid() && outcome == if init then Built else NotInit
      ensures init ==>
        pack != null && fresh(pack) && pack.compoundPacketLength <= maxPacketSize && PlanOk(plan, sources)
      ensures init ==> pack.Holds(Planned(plan, sources, HeaderFor(ssrc, info), ssrc, Cname(), ownItems))
      ensures init ==>
        plan.all == old(firstPacket) && plan.since == old(prevBuildTime) && !firstPacket && prevBuildTime == curTime
      ensures init && old(processingSdes) ==>
        plan.part != [] && emitted == old(emitted) + plan.part && roundPackets == old(roundPackets) + 1
            && selected == old(selected)
      ensures init && !old(processingSdes) && plan.cleared ==>
        emitted == plan.part && roundPackets == 1 && selected == Select(intervals, old(sdesBuildCount) + 1)
      ensures init && !old(processingSdes) && !plan.cleared ==>
        plan.part == [] && DueBlocks(sources, plan.first, plan.all, plan.since) != [] && !processingSdes
      ensures init ==> Complete(plan, sources, HeaderFor(ssrc, info), ssrc, Cname(), ownItems, maxPacketSize,
                                old(processingSdes), !processingSdes, pos)
      ensures init ==> sdesBuildCount == old(sdesBuildCount) + if !old(processingSdes) && plan.cleared then 1 else 0
      ensures r == if init then TableAfter(plan, sources, old(processingSdes), !processingSdes) else sources
      ensures init ==> (Repeats(plan, sources) <==> old(NextRepeats(ssrc, info, sources)))
    {
      hide Valid, Accounting.Size, Builder.CompoundPacketBuilder.Holds, Planned, PlanOk, DueBlocks, HeaderFor, Select;
      hide Complete, TableAfter, Repeats, WillRepeat, Sends, ItemShape;
      outcome, pack, r, plan := NotInit, null, sources, Plan(false, curTime, false, 0, 0, []);
      if init {
        BuilderFacts();
        outcome, pack, r, plan := Build(ssrc, info, sources);
        BuilderFacts();
        HeldSize(pack, Planned(plan, sources, HeaderFor(ssrc, info), ssrc, Cname(), ownItems));
        RepeatsExactly(plan, sources, HeaderFor(ssrc, info), ssrc, Cname(), ownItems,
                       Select(intervals, old(sdesBuildCount) + 1), maxPacketSize, old(processingSdes), !processingSdes,
                       pos);
        firstPacket, prevBuildTime := false, curTime;
      }
    }

    /** The next packet will report a source twice, as far as can be told before it is built. */
    ghost predicate NextRepeats(ssrc: u32, info: Option<SenderInfo>, sources: seq<ReportSource>)
      requires Valid()
      reads this
    {
      !processingSdes
      && WillRepeat(sources, firstPacket, prevBuildTime, HeaderFor(ssrc, info), ssrc, Cname(), ownItems,
                    Select(intervals, sdesBuildCount + 1), maxPacketSize)
    }

    lemma BuilderFacts()
      requires Valid()
      ensures OwnItems(ownItems) && ItemShape(Cname()) && |intervals| == 6 && (init ==> maxPacketSize >= 600)
      ensures Sends(emitted, selected, !processingSdes, pos)
    {
    }

    method Build(ssrc: u32, info: Option<SenderInfo>, sources: seq<ReportSource>)
      returns (outcome: Outcome, b: Builder.CompoundPacketBuilder, r: seq<ReportSource>, ghost plan: Plan)
      requires Valid() && init && sources != []
      modifies `processingSdes, `sdesBuildCount, `selected, `processed, `pos, `emitted, `roundPackets
      ensures Valid() && outcome == Built && fresh(b) && b.compoundPacketLength <= maxPacketSize
              && PlanOk(plan, sources)
      ensures b.Holds(Planned(plan, sources, HeaderFor(ssrc, info), ssrc, Cname(), ownItems))
      ensures plan.all == firstPacket && plan.since == prevBuildTime
      ensures old(processingSdes) ==>
        plan.part != [] && emitted == old(emitted) + plan.part && roundPackets == old(roundPackets) + 1
            && selected == old(selected)
      ensures !old(processingSdes) && plan.cleared ==>
        emitted == plan.part && roundPackets == 1 && selected == Select(intervals, old(sdesBuildCount) + 1)
      ensures !old(processingSdes) && !plan.cleared ==>
        plan.part == [] && DueBlocks(sources, plan.first, plan.all, plan.since) != [] && !processingSdes
      ensures Complete(plan, sources, HeaderFor(ssrc, info), ssrc, Cname(), ownItems, maxPacketSize,
                       old(processingSdes),
                       !processingSdes, pos)
      ensures sdesBuildCount == old(sdesBuildCount) + if !old(processingSdes) && plan.cleared then 1 else 0
      ensures r == TableAfter(plan, sources, old(processingSdes), !processingSdes)
    {
      hide Accounting.Size, Builder.CompoundPacketBuilder.Valid, Builder.CompoundPacketBuilder.Holds, Draft,
           Planned, DueBlocks;
      hide HeaderFor, Select, Chosen, Complete, TableAfter;
      ghost var h := HeaderFor(ssrc, info);
      var status;
      b, status := StartPacket(maxPacketSize, ssrc, info, ownCname);
      outcome, r, plan := Fill(b, sources, h, ssrc);
      hide Valid, PlanOk;
      PlannedHeader(plan, sources, h, ssrc, Cname(), ownItems);
      status := Finish(b, maxPacketSize, Planned(plan, sources, h, ssrc, Cname(), ownItems));
    }

    /** Either goes on with a round of own items, or starts with the reports. */
    method Fill(b: Builder.CompoundPacketBuilder, sources: seq<ReportSource>, ghost h: Header, ghost ssrc: u32)
      returns (outcome: Outcome, r: seq<ReportSource>, ghost plan: Plan)
      requires Valid() && init && sources != []
      requires Drafting(b, maxPacketSize, Draft(h, [], ssrc, [Cname()], []))
      modifies `processingSdes, `sdesBuildCount, `selected, `processed, `pos, `emitted, `roundPackets
      modifies b`report, b`sdes, b`content
      ensures Valid() && outcome == Built && PlanOk(plan, sources) && plan.all == firstPacket
              && plan.since == prevBuildTime
      ensures Drafting(b, maxPacketSize, Planned(plan, sources, h, ssrc, Cname(), ownItems))
      ensures old(processingSdes) ==>
        plan.part != [] && emitted == old(emitted) + plan.part && roundPackets == old(roundPackets) + 1
            && selected == old(selected)
      ensures !old(processingSdes) && plan.cleared ==>
        emitted == plan.part && roundPackets == 1 && selected == Select(intervals, old(sdesBuildCount) + 1)
      ensures !old(processingSdes) && !plan.cleared ==>
        plan.part == [] && DueBlocks(sources, plan.first, plan.all, plan.since) != [] && !processingSdes
      ensures Complete(plan, sources, h, ssrc, Cname(), ownItems, maxPacketSize, old(processingSdes), !processingSdes,
                       pos)
      ensures sdesBuildCount == old(sdesBuildCount) + if !old(processingSdes) && plan.cleared then 1 else 0
      ensures r == TableAfter(plan, sources, old(processingSdes), !processingSdes)
    {
      hide Accounting.Size, Builder.CompoundPacketBuilder.Valid, Draft, Planned, PlanOk, DueBlocks, Select,
           Chosen, Valid;
      hide Complete, TableAfter;
      if !processingSdes {
        outcome, r, plan := FillFresh(b, sources, h, ssrc);
      } else {
        outcome, r, plan := FillContinued(b, sources, h, ssrc);
      }
    }

    /** A finished round has emitted each selected item exactly once, in at most seven packets. */
    lemma RoundExact()
      requires Valid() && !processingSdes
      ensures roundPackets <= 7 && Ascending(emitted)
      ensures forall i :: 0 <= i < |emitted| ==> emitted[i] < 6 && selected[emitted[i]]
      ensures forall k :: 0 <= k < 6 && selected[k] ==> Lists(emitted, k)
    {
      ChosenExact(selected, 0, 6);
    }

    /** A round that goes on has sent fewer packets than items are selected, so it ends. */
    lemma RoundEnds()
      requires Valid() && processingSdes
      ensures roundPackets <= |Chosen(selected, 0, 6)| <= 6
    {
      ChosenSplit(selected, 0, pos, 6);
      SelectedListed(selected, pos, 6, pos);
    }

    /** A report, our CNAME and a BYE with a reason of at most 255 octets always fit. */
    method BuildBYEPacket(ssrc: u32, info: Option<SenderInfo>, reason: seq<byte>)
      returns (outcome: Outcome, pack: Builder.CompoundPacketBuilder?)
      requires Valid()
      ensures outcome == if init then Built else NotInit
      ensures init ==> pack != null && fresh(pack) && pack.compoundPacketLength <= maxPacketSize
      ensures init ==> pack.Holds(Draft(HeaderFor(ssrc, info), [], ssrc, [Cname()],
                                        [Accounting.ByePacket([ssrc], AtMost255(reason))]))
    {
      outcome, pack := NotInit, null;
      if init {
        hide Accounting.Size, Builder.CompoundPacketBuilder.Valid, Builder.CompoundPacketBuilder.Holds, Draft,
             HeaderFor;
        hide Accounting.ByePacket, Chosen;
        var cut := AtMost255(reason);
        var b, status := StartPacket(maxPacketSize, ssrc, info, ownCname);
        status := AddOwnBye(b, HeaderFor(ssrc, info), ssrc, Cname(), cut, maxPacketSize);
        DraftByeHeader(HeaderFor(ssrc, info), ssrc, [Cname()], Accounting.ByePacket([ssrc], cut));
        status := Finish(b, maxPacketSize,
                         Draft(HeaderFor(ssrc, info), [], ssrc, [Cname()], [Accounting.ByePacket([ssrc], cut)]));
        outcome, pack := OutcomeOf(status), b;
      }
    }

    ghost predicate InRoundOrDone(done: bool)
      reads this
    {
      OwnItems(ownItems) && |selected| == 6 && pos <= 6 && (done ==> pos == 6)
    }
  }

  lemma NothingDue(selected: seq<bool>, pos: nat)
    requires pos <= 6 && exists n :: selected == Select([-1, -1, -1, -1, -1, -1], n)
    ensures Chosen(selected, 0, pos) == [] && Chosen(selected, pos, 6) == []
  {
    NothingChosen(selected, 0, pos);
    NothingChosen(selected, pos, 6);
  }

  lemma PlannedIs(p: Plan, ss: seq<ReportSource>, h: Header, ssrc: u32, cname: Item, own: seq<seq<byte>>)
    requires PlanOk(p, ss) && OwnItems(own) && p.part == []
    ensures Planned(p, ss, h, ssrc, cname, own) == Draft(h, PlannedBlocks(p, ss), ssrc, [cname], [])
  {
    hide PlannedBlocks;
    assert [cname] + ItemsFor(own, []) == [cname];
  }

  lemma HeldSize(b: Builder.CompoundPacketBuilder, c: Content)
    requires b.Holds(c)
    ensures Accounting.Size(c) == b.compoundPacketLength
  {
    hide Wire, Packets;
  }

  /** While no own items are due, building a packet for such a table does report the new source twice. */
  method BuildRepeating(builder: RTCPPacketBuilder, ssrc: u32, info: Option<SenderInfo>, curTime: RTPTime,
                        a: ReportSource, b: ReportSource)
    returns (pack: Builder.CompoundPacketBuilder?, r: seq<ReportSource>)
    requires builder.Valid() && builder.init && !builder.processingSdes && builder.intervals == [-1, -1, -1, -1, -1, -1]
    requires Due(a, builder.firstPacket, builder.prevBuildTime) && b.processed
    requires Eligible(b, builder.firstPacket, builder.prevBuildTime)
    modifies builder
    ensures pack != null && pack.Holds(
      Draft(HeaderFor(ssrc, info), [BlockFor(a), BlockFor(Reported(a).(processed := false))], ssrc,
            [builder.Cname()], []))
  {
    hide Complete, BlockFor, Reported, Due, Eligible, TableAfter, HeaderFor, Planned,
         Builder.CompoundPacketBuilder.Holds;
    var outcome;
    ghost var plan;
    outcome, pack, r, plan := builder.BuildNextPacket(ssrc, info, curTime, [a, b]);
    if plan.cleared {
      NothingDue(builder.selected, builder.pos);
    }
    ReportedTwice(plan, a, b, HeaderFor(ssrc, info), ssrc, builder.Cname(), builder.ownItems, builder.maxPacketSize,
                  builder.pos);
    PlannedIs(plan, [a, b], HeaderFor(ssrc, info), ssrc, builder.Cname(), builder.ownItems);
  }

  /** Which items take part in round number `count`. */
  function Select(intervals: seq<int>, count: nat): (selected: seq<bool>)
    requires |intervals| == 6
    ensures |selected| == 6
  {
    seq(6, k requires 0 <= k < 6 => intervals[k] > 0 && count % intervals[k] == 0)
  }

  /** In how many of the first `n` rounds item `k` takes part. */
  function RoundsWith(intervals: seq<int>, k: nat, n: nat): nat
    requires |intervals| == 6 && k < 6
  {
    if n == 0 then 0 else RoundsWith(intervals, k, n - 1) + if Select(intervals, n)[k] then 1 else 0
  }

  /** An item with interval `d` takes part in every d-th round, and in none if its interval is not positive. */
  lemma {:induction false} RoundShare(intervals: seq<int>, k: nat, n: nat)
    requires |intervals| == 6 && k < 6
    ensures RoundsWith(intervals, k, n) == if intervals[k] > 0 then n / intervals[k] else 0
    decreases n
  {
    if n > 0 {
      RoundShare(intervals, k, n - 1);
      if intervals[k] > 0 {
        DivideStep(n, intervals[k]);
      }
    }
  }

  lemma DivideStep(n: nat, d: nat)
    requires n > 0 && d > 0
    ensures n / d == (n - 1) / d + if n % d == 0 then 1 else 0
  {
    DivideBounds(n, d);
    DivideBounds(n - 1, d);
    var q, q' := n / d, (n - 1) / d;
    if q < q' { MulMonotone(q + 1, q', d); }
    if q > q' + 1 { MulMonotone(q' + 2, q, d); }
    assert (q' + 1) * d == q' * d + d && (q' + 2) * d == q' * d + 2 * d;
  }

  function Cleared(ss: seq<ReportSource>): (r: seq<ReportSource>)
    ensures |r| == |ss|
  {
    seq(|ss|, i requires 0 <= i < |ss| => ss[i].(processed := false))
  }

  method ClearAllSourceFlags(ss: seq<ReportSource>) returns (r: seq<ReportSource>)
    ensures r == Cleared(ss)
  {
    r := ss;
    for i := 0 to |ss|
      invariant |r| == |ss|
      invariant forall k :: 0 <= k < |ss| ==> r[k] == if k < i then ss[k].(processed := false) else ss[k]
    {
      r := r[i := r[i].(processed := false)];
    }
  }

  lemma DraftWithItem(h: Header, blocks: seq<ReportBlock>, ssrc: u32, items: seq<Item>, i: Item)
    ensures var c := Draft(h, blocks, ssrc, items, []);
      c.chunks != [] && Accounting.WithItem(c, i) == Draft(h, blocks, ssrc, items + [i], [])
  {
    var c := Draft(h, blocks, ssrc, items, []);
    assert Accounting.WithItem(c, i).chunks == [Chunk(ssrc, items + [i])];
  }

  lemma StartContents(h: Header, ssrc: u32, cname: Item)
    ensures var c := Accounting.WithHeader(Accounting.NOTHING, h);
      var d := Accounting.WithSource(c, ssrc);
      c.chunks == [] && d.chunks != [] && Accounting.WithItem(d, cname) == Draft(h, [], ssrc, [cname], [])
  {
    var c := Accounting.WithHeader(Accounting.NOTHING, h);
    var d := Accounting.WithSource(c, ssrc);
    assert d.chunks == [Chunk(ssrc, [])] && |d.chunks| == 1;
    var items: seq<Item> := [];
    assert items + [cname] == [cname];
    var e := Accounting.WithItem(d, cname);
    assert e.chunks == [Chunk(ssrc, items + [cname])];
    assert e == Content(Some(h), [], e.chunks, [], []);
  }
}