/**
 * RTPPacket: building one RTP data packet (section 5.1 of RFC 3550) and taking a received one apart,
 * proved to undo each other.
 */
module RtpPacket {
  import opened Bytes
  import opened RtcpFormat
  import RtcpDecode
  import RtcpWriter

  const RTP_HEADER := 12
  const EXTENSION_HEADER := 4
  const MAX_CSRCS := 15
  const SR_LOW_BITS := 72
  const RR_LOW_BITS := 73
  const INT_LIMIT := 0x8000_0000

  datatype Extension = Extension(id: u16, data: seq<byte>)

  /** What a packet says, free of its layout. */
  datatype Content = Content(marker: bool, payloadType: byte, seqNr: u16, timestamp: u32, ssrc: u32,
                             csrcs: seq<u32>, extension: Option<Extension>, payload: seq<byte>)

  datatype Status = Okay | InvalidPacket | TooManyCsrcs | BadPayloadType | DataExceedsMaxSize
                  | ExternalBufferNull | IllegalBufferSize

  /** The contents the header fields have room for. */
  predicate Encodable(p: Content) {
    && |p.csrcs| <= MAX_CSRCS
    && p.payloadType < 128
    && (p.extension.Some? ==> |p.extension.value.data| % WORD == 0 && |p.extension.value.data| / WORD < 0x1_0000)
  }

  /** With the marker bit on top, these payload types read as the RTCP types 200 and 201. */
  predicate LooksLikeRtcp(marker: bool, payloadType: byte) {
    marker && (payloadType == SR_LOW_BITS || payloadType == RR_LOW_BITS)
  }

  /** No padding, or octets the last of which counts them. */
  predicate IsPadding(padding: seq<byte>) {
    padding == [] || padding[|padding| - 1] == |padding|
  }

  /** A size_t stored in an int. */
  function ToInt(x: int): (r: i32)
    ensures -INT_LIMIT <= x < INT_LIMIT ==> r == x
  {
    (x + INT_LIMIT) % 0x1_0000_0000 - INT_LIMIT
  }

  // ---------------------------------------------------------------- the layout

  function Bit(b: bool): (r: nat)
    ensures r <= 1
  {
    if b then 1 else 0
  }

  function FixedHeader(p: Content, padded: bool): (b: seq<byte>)
    requires Encodable(p)
    ensures |b| == RTP_HEADER
  {
    [VERSION * 64 + 32 * Bit(padded) + 16 * Bit(p.extension.Some?) + |p.csrcs|, 128 * Bit(p.marker) + p.payloadType] +
    (Put16(p.seqNr) + (Put32(p.timestamp) + Put32(p.ssrc)))
  }

  function ExtensionBytes(e: Option<Extension>): seq<byte>
    requires e.Some? ==> |e.value.data| / WORD < 0x1_0000
  {
    match e
    case None => []
    case Some(Extension(id, data)) => (Put16(id) + Put16(|data| / WORD)) + data
  }

  /** Everything before the payload. */
  function Front(p: Content, padded: bool): seq<byte>
    requires Encodable(p)
  {
    FixedHeader(p, padded) + (Flatten(SsrcParts(p.csrcs)) + ExtensionBytes(p.extension))
  }

  function Wire(p: Content, padding: seq<byte>): seq<byte>
    requires Encodable(p)
  {
    Front(p, padding != []) + (p.payload + padding)
  }

  // ---------------------------------------------------------------- the reader

  function PadCount(d: seq<byte>): byte
    requires |d| >= RTP_HEADER
  {
    if d[0] / 32 % 2 == 1 then d[|d| - 1] else 0
  }

  function ExtensionAt(d: seq<byte>): nat
    requires |d| >= RTP_HEADER
  {
    RTP_HEADER + 4 * (d[0] % 16)
  }

  predicate Extended(d: seq<byte>)
    requires |d| >= RTP_HEADER
  {
    d[0] / 16 % 2 == 1
  }

  /** Where the payload starts; None when the extension header itself does not fit. */
  function PayloadAt(d: seq<byte>): (at: Option<nat>)
    requires |d| >= RTP_HEADER
    ensures at.Some? ==> ExtensionAt(d) <= at.value <= 76 + 4 * 0xffff
  {
    var at := ExtensionAt(d);
    if !Extended(d) then Some(at)
    else if at + EXTENSION_HEADER > |d| then None
    else Some(at + EXTENSION_HEADER + WORD * Get16(d, at + 2))
  }

  /** A packet the reader does not turn away, and where it finds the payload. */
  predicate Accepted(d: seq<byte>) {
    && |d| >= RTP_HEADER
    && d[0] / 64 == VERSION
    && !LooksLikeRtcp(d[1] / 128 == 1, d[1] % 128)
    && (d[0] / 32 % 2 == 1 ==> d[|d| - 1] > 0)
    && PayloadAt(d).Some?
    && ToInt(|d| - PadCount(d) - PayloadAt(d).value) >= 0
  }

  function ExtensionRead(d: seq<byte>): Option<Extension>
    requires Accepted(d)
  {
    var at := ExtensionAt(d);
    if Extended(d) then Some(Extension(Get16(d, at), d[at + EXTENSION_HEADER..PayloadAt(d).value])) else None
  }

  function Read(d: seq<byte>): Content
    requires Accepted(d)
  {
    var at := PayloadAt(d).value;
    Content(d[1] / 128 == 1, d[1] % 128, Get16(d, 2), Get32(d, 4), Get32(d, 8),
            RtcpDecode.SsrcsAt(d, RTP_HEADER, d[0] % 16), ExtensionRead(d),
            d[at..at + ToInt(|d| - PadCount(d) - at)])
  }

  // ---------------------------------------------------------------- reading what was built

  lemma WireIs(p: Content, padding: seq<byte>)
    requires Encodable(p)
    ensures var front := FixedHeader(p, padding != []) + (Flatten(SsrcParts(p.csrcs)) + ExtensionBytes(p.extension));
            && Front(p, padding != []) == front
            && Wire(p, padding) == front + (p.payload + padding)
            && At(Wire(p, padding), 0, front + (p.payload + padding))
  {
    hide FixedHeader, ExtensionBytes, Flatten, SsrcParts;
  }

  lemma WireParts(p: Content, padding: seq<byte>)
    requires Encodable(p)
    ensures var d := Wire(p, padding);
            var e := ExtensionBytes(p.extension);
            var at := RTP_HEADER + 4 * |p.csrcs| + |e|;
            && |d| == at + |p.payload| + |padding| && |Front(p, padding != [])| == at
            && At(d, 0, FixedHeader(p, padding != [])) && At(d, RTP_HEADER, Flatten(SsrcParts(p.csrcs)))
            && At(d, RTP_HEADER + 4 * |p.csrcs|, e) && At(d, at, p.payload) && At(d, at + |p.payload|, padding)
  {
    hide Wire, Front, FixedHeader, ExtensionBytes, Flatten, SsrcParts, At;
    var d, h, c, e := Wire(p, padding), FixedHeader(p, padding != []), Flatten(SsrcParts(p.csrcs)),
        ExtensionBytes(p.extension);
    SsrcsLength(p.csrcs);
    WireIs(p, padding);
    AtSplit(d, 0, h + (c + e), p.payload + padding);
    AtSplit(d, 0, h, c + e);
    AtSplit(d, RTP_HEADER, c, e);
    AtSplit(d, |h + (c + e)|, p.payload, padding);
  }

  lemma FlagBits(padded: nat, extended: nat, count: nat)
    requires padded <= 1 && extended <= 1 && count < 16
    ensures var x := 128 + 32 * padded + 16 * extended + count;
            x / 64 == 2 && x / 32 % 2 == padded && x / 16 % 2 == extended && x % 16 == count
  {
    var x := 128 + 32 * padded + 16 * extended + count;
    assert x / 32 == 4 + padded && x / 16 == 8 + 2 * padded + extended;
  }

  lemma FixedReadBack(d: seq<byte>, p: Content, padded: bool)
    requires Encodable(p) && At(d, 0, FixedHeader(p, padded))
    ensures |d| >= RTP_HEADER && d[0] / 64 == VERSION
    ensures (d[0] / 32 % 2 == 1 <==> padded) && (Extended(d) <==> p.extension.Some?) && d[0] % 16 == |p.csrcs|
    ensures (d[1] / 128 == 1 <==> p.marker) && d[1] % 128 == p.payloadType
    ensures Get16(d, 2) == p.seqNr && Get32(d, 4) == p.timestamp && Get32(d, 8) == p.ssrc
  {
    hide Put32, Get32;
    var h := FixedHeader(p, padded);
    assert h == d[..12];
    FlagBits(Bit(padded), Bit(p.extension.Some?), |p.csrcs|);
    assert d[2..4] == h[2..4] == Put16(p.seqNr);
    assert Get16(d, 2) == Get16(d[2..4], 0);
    Get16Put16(p.seqNr);
    assert d[4..8] == h[4..8] == Put32(p.timestamp);
    Get32At(d, 4, p.timestamp);
    assert d[8..12] == h[8..12] == Put32(p.ssrc);
    Get32At(d, 8, p.ssrc);
  }

  lemma ExtensionReadBack(d: seq<byte>, at: nat, e: Extension)
    requires |e.data| % WORD == 0 && |e.data| / WORD < 0x1_0000
    requires At(d, at, ExtensionBytes(Some(e)))
    ensures at + EXTENSION_HEADER + |e.data| <= |d|
    ensures Get16(d, at) == e.id && WORD * Get16(d, at + 2) == |e.data|
    ensures d[at + EXTENSION_HEADER..at + EXTENSION_HEADER + |e.data|] == e.data
  {
    var words := |e.data| / WORD;
    AtSplit(d, at, Put16(e.id) + Put16(words), e.data);
    AtSplit(d, at, Put16(e.id), Put16(words));
    assert Get16(d, at) == Get16(d[at..at + 2], 0);
    assert Get16(d, at + 2) == Get16(d[at + 2..at + 4], 0);
    Get16Put16(e.id);
    Get16Put16(words);
  }

  /** The layout of section 5.1 of RFC 3550, octet by octet. */
  lemma WireOctets(p: Content, padding: seq<byte>)
    requires Encodable(p)
    ensures var d, n := Wire(p, padding), |p.csrcs|;
            var e := if p.extension.None? then 0 else 4 + |p.extension.value.data|;
            && |d| == 12 + 4 * n + e + |p.payload| + |padding|
            && d[0] == 128 + (if padding == [] then 0 else 32) + (if p.extension.None? then 0 else 16) + n
            && d[1] == (if p.marker then 128 else 0) + p.payloadType
            && d[2..4] == Put16(p.seqNr) && d[4..8] == Put32(p.timestamp) && d[8..12] == Put32(p.ssrc)
            && (forall i :: 0 <= i < n ==> d[12 + 4 * i..16 + 4 * i] == Put32(p.csrcs[i]))
            && (p.extension.Some? ==>
                  && d[12 + 4 * n..14 + 4 * n] == Put16(p.extension.value.id)
                  && d[14 + 4 * n..16 + 4 * n] == Put16(|p.extension.value.data| / 4)
                  && d[16 + 4 * n..12 + 4 * n + e] == p.extension.value.data)
            && d[12 + 4 * n + e..12 + 4 * n + e + |p.payload|] == p.payload
            && d[12 + 4 * n + e + |p.payload|..] == padding
  {
    hide FixedHeader, ExtensionBytes, Flatten, Wire, Put16, Put32, SsrcParts, At;
    WireParts(p, padding);
    var d, n := Wire(p, padding), |p.csrcs|;
    FixedOctets(d, p, padding != []);
    ExtensionLength(p.extension);
    if p.extension.Some? {
      ExtensionOctets(d, 12 + 4 * n, p.extension);
    }
    forall i | 0 <= i < n ensures d[12 + 4 * i..16 + 4 * i] == Put32(p.csrcs[i]) {
      CsrcOctets(d, p.csrcs, i);
    }
    AtSlice(d, 12 + 4 * n + |ExtensionBytes(p.extension)|, p.payload);
    AtSlice(d, 12 + 4 * n + |ExtensionBytes(p.extension)| + |p.payload|, padding);
  }

  lemma AtSlice(d: seq<byte>, i: nat, part: seq<byte>)
    requires At(d, i, part)
    ensures i + |part| <= |d| && d[i..i + |part|] == part
  {
  }

  lemma FixedOctets(d: seq<byte>, p: Content, padded: bool)
    requires Encodable(p) && At(d, 0, FixedHeader(p, padded))
    ensures |d| >= 12
    ensures d[0] == 128 + (if padded then 32 else 0) + (if p.extension.None? then 0 else 16) + |p.csrcs|
    ensures d[1] == (if p.marker then 128 else 0) + p.payloadType
    ensures d[2..4] == Put16(p.seqNr) && d[4..8] == Put32(p.timestamp) && d[8..12] == Put32(p.ssrc)
  {
    hide Put16, Put32;
    var h := FixedHeader(p, padded);
    assert d[0] == d[0..12][0] && d[1] == d[0..12][1];
    assert h[2..4] == Put16(p.seqNr) && h[4..8] == Put32(p.timestamp) && h[8..12] == Put32(p.ssrc);
    assert d[2..4] == d[0..12][2..4] && d[4..8] == d[0..12][4..8] && d[8..12] == d[0..12][8..12];
  }

  lemma CsrcOctets(d: seq<byte>, csrcs: seq<u32>, i: nat)
    requires i < |csrcs| && At(d, 12, Flatten(SsrcParts(csrcs)))
    ensures 16 + 4 * i <= |d| && d[12 + 4 * i..16 + 4 * i] == Put32(csrcs[i])
  {
    hide Put32;
    FlattenAt(d, 12, SsrcParts(csrcs), i);
    assert SsrcParts(csrcs)[..i] == SsrcParts(csrcs[..i]);
    SsrcsLength(csrcs[..i]);
  }

  lemma ExtensionOctets(d: seq<byte>, at: nat, e: Option<Extension>)
    requires e.Some? ==> |e.value.data| % WORD == 0 && |e.value.data| / WORD < 0x1_0000
    requires At(d, at, ExtensionBytes(e)) && e.Some?
    ensures at + 4 + |e.value.data| <= |d|
    ensures d[at..at + 2] == Put16(e.value.id) && d[at + 2..at + 4] == Put16(|e.value.data| / 4)
    ensures d[at + 4..at + 4 + |e.value.data|] == e.value.data
  {
    hide Put16;
    var words := |e.value.data| / WORD;
    AtSplit(d, at, Put16(e.value.id) + Put16(words), e.value.data);
    AtSplit(d, at, Put16(e.value.id), Put16(words));
  }

  lemma PaddingReadBack(d: seq<byte>, padding: seq<byte>)
    requires |d| >= RTP_HEADER + |padding| && (d[0] / 32 % 2 == 1 <==> padding != [])
    requires IsPadding(padding) && At(d, |d| - |padding|, padding)
    ensures PadCount(d) == |padding|
  {
    if padding != [] {
      assert d[|d| - |padding|..][|padding| - 1] == padding[|padding| - 1];
    }
  }

  lemma ExtensionLength(e: Option<Extension>)
    requires e.Some? ==> |e.value.data| / WORD < 0x1_0000
    ensures |ExtensionBytes(e)| == if e.None? then 0 else EXTENSION_HEADER + |e.value.data|
  {
  }

  lemma PlaceReadBack(d: seq<byte>, n: nat, e: Option<Extension>)
    requires |d| >= RTP_HEADER && d[0] % 16 == n && (Extended(d) <==> e.Some?)
    requires e.Some? ==> |e.value.data| % WORD == 0 && |e.value.data| / WORD < 0x1_0000
    requires At(d, RTP_HEADER + 4 * n, ExtensionBytes(e))
    ensures PayloadAt(d) == Some(RTP_HEADER + 4 * n + |ExtensionBytes(e)|)
    ensures e.Some? ==> var at := ExtensionAt(d);
                        && at + EXTENSION_HEADER + |e.value.data| <= |d| && Get16(d, at) == e.value.id
                        && d[at + EXTENSION_HEADER..at + EXTENSION_HEADER + |e.value.data|] == e.value.data
  {
    hide At, ExtensionBytes, Get16, Extended;
    ExtensionLength(e);
    if e.Some? {
      ExtensionReadBack(d, RTP_HEADER + 4 * n, e.value);
    }
  }

  /** Where the reader looks for the parts of a built packet. */
  lemma PayloadReadBack(p: Content, padding: seq<byte>)
    requires Encodable(p) && IsPadding(padding)
    ensures var d := Wire(p, padding);
            && |d| >= RTP_HEADER && PayloadAt(d) == Some(|Front(p, padding != [])|)
            && PadCount(d) == |padding| && |d| == |Front(p, padding != [])| + |p.payload| + |padding|
    ensures var d := Wire(p, padding);
            var at := RTP_HEADER + 4 * |p.csrcs|;
            && ExtensionAt(d) == at && (Extended(d) <==> p.extension.Some?)
            && (p.extension.Some? ==>
                  && at + EXTENSION_HEADER + |p.extension.value.data| == |Front(p, padding != [])|
                  && Get16(d, at) == p.extension.value.id
                  && d[at + EXTENSION_HEADER..|Front(p, padding != [])|] == p.extension.value.data)
  {
    hide FixedHeader, Flatten, Wire, Front, PayloadAt, PadCount, SsrcParts, ExtensionBytes, Get16, Get32, At, Extended,
         IsPadding;
    var d := Wire(p, padding);
    WireParts(p, padding);
    AtWithin(d, 0, FixedHeader(p, padding != []));
    FixedReadBack(d, p, padding != []);
    PaddingReadBack(d, padding);
    PlaceReadBack(d, |p.csrcs|, p.extension);
    ExtensionLength(p.extension);
  }

  lemma AtWithin(d: seq<byte>, i: nat, part: seq<byte>)
    requires At(d, i, part)
    ensures i + |part| <= |d|
  {
  }

  lemma PayloadAtFront(d: seq<byte>, at: nat, payload: seq<byte>)
    requires At(d, at, payload)
    ensures at + |payload| <= |d| && d[at..at + |payload|] == payload
  {
  }

  /** The payload has its length exactly if that fits an int. */
  lemma PayloadLength(d: seq<byte>, at: nat, length: nat, padding: nat)
    requires |d| == at + length + padding
    ensures ToInt(|d| - padding - at) == length <==> length < INT_LIMIT
  {
  }

  /**
   * Reading back what was built: a packet, padded or not, is accepted with all its fields unless it looks like
   * an RTCP report, as long as its payload length fits an int.
   */
  lemma ReadBack(p: Content, padding: seq<byte>)
    requires Encodable(p) && IsPadding(padding)
    ensures var d := Wire(p, padding);
            Accepted(d) && Read(d) == p <==> !LooksLikeRtcp(p.marker, p.payloadType) && |p.payload| < INT_LIMIT
  {
    hide FixedHeader, Flatten, Wire, Front, PayloadAt, SsrcParts, ToInt, RtcpDecode.SsrcsAt, Get16, Get32, Extended;
    hide ExtensionAt, ExtensionBytes, IsPadding, At;
    var d, front := Wire(p, padding), Front(p, padding != []);
    WireParts(p, padding);
    FixedReadBack(d, p, padding != []);
    PayloadReadBack(p, padding);
    RtcpDecode.SsrcsReadBack(d, RTP_HEADER, p.csrcs);
    PayloadAtFront(d, |front|, p.payload);
    PayloadLength(d, |front|, |p.payload|, |padding|);
  }

  // ---------------------------------------------------------------- building what was read

  lemma {:induction false} SsrcsRebuilt(d: seq<byte>, o: nat, n: nat)
    requires o + 4 * n <= |d|
    ensures Flatten(SsrcParts(RtcpDecode.SsrcsAt(d, o, n))) == d[o..o + 4 * n]
  {
    hide Put32, Get32;
    if n == 0 {
      assert SsrcParts(RtcpDecode.SsrcsAt(d, o, 0)) == [];
    } else {
      SsrcsRebuilt(d, o, n - 1);
      Put32Get32(d, o + 4 * (n - 1));
      var before := SsrcParts(RtcpDecode.SsrcsAt(d, o, n - 1));
      var word := d[o + 4 * (n - 1)..o + 4 * n];
      assert SsrcParts(RtcpDecode.SsrcsAt(d, o, n)) == before + [word];
      FlattenSnoc(before, word);
    }
  }

  /** The packet without its padding and with the padding bit cleared. */
  function Unpadded(d: seq<byte>): seq<byte>
    requires Accepted(d)
  {
    [d[0] - 32 * Bit(PadCount(d) > 0)] + d[1..|d| - PadCount(d)]
  }

  /** Every packet that is accepted carries contents the format has room for. */
  lemma ReadEncodable(d: seq<byte>)
    requires Accepted(d)
    ensures Encodable(Read(d)) && !LooksLikeRtcp(Read(d).marker, Read(d).payloadType)
  {
  }

  lemma FlagsRebuilt(x: byte)
    requires x / 64 == VERSION
    ensures x == VERSION * 64 + 32 * (x / 32 % 2) + 16 * (x / 16 % 2) + x % 16
  {
  }

  lemma TwelveOctets(d: seq<byte>)
    requires |d| >= RTP_HEADER
    ensures d[..RTP_HEADER] == [d[0], d[1]] + (d[2..4] + (d[4..8] + d[8..12]))
  {
  }

  lemma HeaderRebuilt(d: seq<byte>)
    requires Accepted(d)
    ensures Encodable(Read(d)) && FixedHeader(Read(d), PadCount(d) > 0) == d[..RTP_HEADER]
  {
    hide Put32, Get32, Put16, Get16, PayloadAt, ToInt;
    ReadEncodable(d);
    FlagsRebuilt(d[0]);
    Put16Get16(d, 2);
    Put32Get32(d, 4);
    Put32Get32(d, 8);
    TwelveOctets(d);
  }

  lemma ExtensionRebuilt(d: seq<byte>)
    requires Accepted(d)
    ensures Encodable(Read(d))
    ensures PayloadAt(d).value <= |d| && ExtensionBytes(Read(d).extension) == d[ExtensionAt(d)..PayloadAt(d).value]
  {
    ReadEncodable(d);
    if Extended(d) {
      Put16Get16(d, ExtensionAt(d));
      Put16Get16(d, ExtensionAt(d) + 2);
    }
  }

  lemma PayloadRead(d: seq<byte>)
    requires Accepted(d) && |d| < INT_LIMIT
    ensures var end := |d| - PadCount(d);
            && RTP_HEADER <= ExtensionAt(d) == RTP_HEADER + 4 * (d[0] % 16) && PayloadAt(d).Some?
            && ExtensionAt(d) <= PayloadAt(d).value <= end
            && Read(d).payload == d[PayloadAt(d).value..end]
            && Read(d).csrcs == RtcpDecode.SsrcsAt(d, RTP_HEADER, d[0] % 16)
            && (d[end..] != [] <==> PadCount(d) > 0) && IsPadding(d[end..])
  {
    hide ToInt, Get16, Get32, RtcpDecode.SsrcsAt, ExtensionRead;
  }

  lemma Cut(d: seq<byte>, a: nat, b: nat, c: nat)
    requires RTP_HEADER <= a <= b <= c <= |d|
    ensures d == d[..RTP_HEADER] + (d[RTP_HEADER..a] + d[a..b]) + (d[b..c] + d[c..])
  {
  }

  /** Building again what was read from a packet gives back all its octets, given the same padding. */
  lemma Rebuilt(d: seq<byte>)
    requires Accepted(d) && |d| < INT_LIMIT
    ensures var padding := d[|d| - PadCount(d)..];
            IsPadding(padding) && Encodable(Read(d)) && Wire(Read(d), padding) == d
  {
    hide FixedHeader, ExtensionBytes, Flatten, PayloadAt, Read, PadCount, ToInt, SsrcParts, RtcpDecode.SsrcsAt,
         Encodable;
    var end := |d| - PadCount(d);
    HeaderRebuilt(d);
    PayloadRead(d);
    SsrcsRebuilt(d, RTP_HEADER, d[0] % 16);
    ExtensionRebuilt(d);
    Cut(d, ExtensionAt(d), PayloadAt(d).value, end);
  }

  lemma UnpaddedWire(p: Content, padding: seq<byte>)
    requires Encodable(p) && IsPadding(padding) && padding != []
    ensures var d := Wire(p, padding);
            Wire(p, []) == [d[0] - 32] + d[1..|d| - |padding|]
  {
    hide ExtensionBytes, Flatten, Put16, Put32;
    var d, h, rest := Wire(p, padding), FixedHeader(p, true), Flatten(SsrcParts(p.csrcs)) + ExtensionBytes(p.extension);
    assert d == h + (rest + p.payload) + padding;
    assert d[..|d| - |padding|] == h + (rest + p.payload);
    assert d[1..|d| - |padding|] == d[..|d| - |padding|][1..] == h[1..] + (rest + p.payload);
    assert FixedHeader(p, false) == [h[0] - 32] + h[1..];
    assert Wire(p, []) == FixedHeader(p, false) + (rest + p.payload);
  }

  /** Rebuilding from an accepted packet loses its padding and nothing else. */
  lemma RebuiltUnpadded(d: seq<byte>)
    requires Accepted(d) && |d| < INT_LIMIT
    ensures Encodable(Read(d)) && Wire(Read(d), []) == Unpadded(d)
    ensures PadCount(d) == 0 ==> Wire(Read(d), []) == d
  {
    hide FixedHeader, Wire, Flatten;
    Rebuilt(d);
    var padding := d[|d| - PadCount(d)..];
    if PadCount(d) == 0 {
      assert padding == [];
    } else {
      UnpaddedWire(Read(d), padding);
    }
  }

  ghost predicate IsWireOf(d: seq<byte>, p: Content, padding: seq<byte>) {
    Encodable(p) && IsPadding(padding) && !LooksLikeRtcp(p.marker, p.payloadType) && d == Wire(p, padding)
  }

  /** The reader accepts exactly the octets the format describes, and reads them one way only. */
  lemma AcceptedExactly(d: seq<byte>)
    requires |d| < INT_LIMIT
    ensures Accepted(d) <==> exists p, padding :: IsWireOf(d, p, padding)
    ensures forall p, padding :: IsWireOf(d, p, padding) ==> Accepted(d) && Read(d) == p
  {
    hide Wire, Read;
    if Accepted(d) {
      Rebuilt(d);
      ReadEncodable(d);
      assert IsWireOf(d, Read(d), d[|d| - PadCount(d)..]);
    }
    forall p, padding | IsWireOf(d, p, padding)
      ensures Accepted(d) && Read(d) == p
    {
      WireParts(p, padding);
      ReadBack(p, padding);
    }
  }

  // ---------------------------------------------------------------- the class

  /** What the caller of BuildPacket hands over: `csrcs` and `extensionData` may hold more than is used. */
  datatype Request = Request(payloadType: byte, payload: seq<byte>, seqNr: u16, timestamp: u32, ssrc: u32, marker: bool,
                             numCsrcs: byte, csrcs: seq<u32>, extended: bool, extensionId: u16, extensionWords: u16,
                             extensionData: seq<byte>) {
    predicate Readable() {
      && (numCsrcs <= MAX_CSRCS ==> numCsrcs <= |csrcs|)
      && (extended ==> WORD * extensionWords <= |extensionData|)
    }

    function PacketLength(): nat {
      RTP_HEADER + WORD * numCsrcs + (if extended then EXTENSION_HEADER + WORD * extensionWords else 0) + |payload|
    }

    function Check(maxSize: nat): Status {
      if numCsrcs > MAX_CSRCS then TooManyCsrcs
      else if payloadType > 127 || payloadType == SR_LOW_BITS || payloadType == RR_LOW_BITS then BadPayloadType
      else if maxSize > 0 && PacketLength() > maxSize then DataExceedsMaxSize
      else Okay
    }

    /** The contents that are asked for. */
    function Asked(): Content
      requires Readable() && numCsrcs <= MAX_CSRCS
    {
      Content(marker, payloadType, seqNr, timestamp, ssrc, csrcs[..numCsrcs],
              if extended then Some(Extension(extensionId, extensionData[..WORD * extensionWords])) else None, payload)
    }
  }

  /** A request that is not refused names contents with one layout, and its predicted length is exact. */
  lemma AskedExact(r: Request, maxSize: nat)
    requires r.Readable() && r.Check(maxSize) == Okay
    ensures Encodable(r.Asked()) && !LooksLikeRtcp(r.marker, r.payloadType)
    ensures |Wire(r.Asked(), [])| == r.PacketLength()
  {
    WireParts(r.Asked(), []);
  }

  /** The request that asks for exactly these contents. */
  function RequestFor(p: Content): (r: Request)
    requires Encodable(p)
    ensures r.Readable() && r.numCsrcs <= MAX_CSRCS && r.Asked() == p
  {
    var e := match p.extension case None => Extension(0, []) case Some(x) => x;
    assert e.data == e.data[..WORD * (|e.data| / WORD)];
    assert p.csrcs == p.csrcs[..|p.csrcs|];
    Request(p.payloadType, p.payload, p.seqNr, p.timestamp, p.ssrc, p.marker, |p.csrcs|, p.csrcs,
            p.extension.Some?, e.id, |e.data| / WORD, e.data)
  }

  /**
   * What is refused, and for what: more than 15 identifiers, then a payload type that needs the marker bit or makes the
   * second octet that of a report once the marker is set, then more octets than the layout may have.
   */
  lemma RefusedExactly(r: Request, maxSize: nat)
    requires r.Readable()
    ensures r.Check(maxSize) == TooManyCsrcs <==> r.numCsrcs >= 16
    ensures r.Check(maxSize) == BadPayloadType
      <==> r.numCsrcs < 16 && (r.payloadType >= 128 || 128 + r.payloadType in {200, 201})
    ensures r.Check(maxSize) == DataExceedsMaxSize
      <==> r.numCsrcs < 16 && r.payloadType < 128 && 128 + r.payloadType !in {200, 201}
           && 0 < maxSize < |Wire(r.Asked(), [])|
    ensures r.Check(maxSize) in {TooManyCsrcs, BadPayloadType, DataExceedsMaxSize, Okay}
  {
    hide FixedHeader, Flatten, Wire;
    if r.numCsrcs < 16 && r.payloadType < 128 && 128 + r.payloadType !in {200, 201} {
      AskedExact(r, 0);
    }
  }

  /** A packet looks like an RTCP report exactly when its second octet is the type number of one. */
  lemma LooksExactly(p: Content, padding: seq<byte>)
    requires Encodable(p)
    ensures LooksLikeRtcp(p.marker, p.payloadType) <==> Wire(p, padding)[1] in {200, 201}
  {
    hide Wire;
    WireOctets(p, padding);
  }

  /** Asking for what was read is refused exactly for the payload types 72 and 73. */
  lemma AskAgain(d: seq<byte>)
    requires Accepted(d) && |d| < INT_LIMIT
    ensures Encodable(Read(d))
    ensures RequestFor(Read(d)).Check(0) == Okay <==> d[1] % 128 != SR_LOW_BITS && d[1] % 128 != RR_LOW_BITS
    ensures RequestFor(Read(d)).Check(0) == Okay ==> RequestFor(Read(d)).PacketLength() == |d| - PadCount(d)
  {
    hide FixedHeader, Flatten, Wire, PayloadAt;
    ReadEncodable(d);
    RebuiltUnpadded(d);
    if RequestFor(Read(d)).Check(0) == Okay {
      AskedExact(RequestFor(Read(d)), 0);
    }
  }

  /** The data members of RTPPacket; `payload` and `extension` are offsets into the packet buffer. */
  datatype Fields = Fields(hasExtension: bool, hasMarker: bool, numCsrcs: nat, payloadType: byte, extSeqNr: u32,
                           timestamp: u32, ssrc: u32, payload: nat, payloadLength: nat,
                           extId: u16, extension: Option<nat>, extensionLength: nat) {
    predicate Fit(d: seq<byte>) {
      && numCsrcs <= MAX_CSRCS && RTP_HEADER + 4 * numCsrcs <= |d|
      && (hasExtension && extension.Some? ==> extension.value + extensionLength <= |d|)
      && payload + payloadLength <= |d|
    }

    /**
     * The extension fields of a built packet: identifier and length
     * whether there is one or not, no pointer to its data.
     */
    predicate HoldsExtension(r: Request) {
      && hasExtension == r.extended && extId == r.extensionId && extensionLength == WORD * r.extensionWords
      && extension == None
    }

    /**
     * What the accessors report about the packet octets `d`; the extension is there when its data can be read,
     * that is, when the extension pointer is not null.
     */
    function View(d: seq<byte>): Content
      requires Fit(d)
    {
      Content(hasMarker, payloadType, extSeqNr % 0x1_0000, timestamp, ssrc, RtcpDecode.SsrcsAt(d, RTP_HEADER, numCsrcs),
              if hasExtension && extension.Some?
                then Some(Extension(extId, d[extension.value..extension.value + extensionLength]))
              else None,
              d[payload..payload + payloadLength])
    }
  }

  const CLEARED := Fields(false, false, 0, 0, 0, 0, 0, 0, 0, 0, None, 0)

  /** Fields that hold what the octets say give the view the reader describes. */
  lemma FieldsRead(d: seq<byte>, f: Fields)
    requires Accepted(d)
    requires f.hasMarker == (d[1] / 128 == 1) && f.payloadType == d[1] % 128 && f.numCsrcs == d[0] % 16
    requires f.extSeqNr == Get16(d, 2) && f.timestamp == Get32(d, 4) && f.ssrc == Get32(d, 8)
    requires f.payload == PayloadAt(d).value && f.payloadLength == ToInt(|d| - PadCount(d) - f.payload)
    requires f.hasExtension == Extended(d)
    requires Extended(d) ==>
      f.extId == Get16(d, ExtensionAt(d)) && f.extensionLength == WORD * Get16(d, ExtensionAt(d) + 2)
    requires Extended(d) ==> f.extension == Some(ExtensionAt(d) + EXTENSION_HEADER)
    ensures f.Fit(d) && f.View(d) == Read(d)
  {
    hide Get16, Get32;
  }

  /** The contents without their extension. */
  function Unextended(p: Content): Content {
    p.(extension := None)
  }

  /**
   * The accessors of a built packet report what was asked for if and only if no extension was: its data cannot be
   * read, since the extension pointer stays null.
   */
  lemma FieldsBuilt(r: Request, f: Fields)
    requires r.Readable() && r.Check(0) == Okay
    requires f.hasMarker == r.marker && f.payloadType == r.payloadType && f.numCsrcs == r.numCsrcs
    requires f.extSeqNr == r.seqNr && f.timestamp == r.timestamp && f.ssrc == r.ssrc
    requires f.hasExtension == r.extended && f.extension == None
    requires f.payload == r.PacketLength() - |r.payload| && f.payloadLength == |r.payload|
    ensures Encodable(r.Asked()) && f.Fit(Wire(r.Asked(), [])) && f.View(Wire(r.Asked(), [])) == Unextended(r.Asked())
    ensures f.View(Wire(r.Asked(), [])) == r.Asked() <==> !r.extended
  {
    hide FixedHeader, Flatten, Wire, SsrcParts, Front;
    var p := r.Asked();
    AskedExact(r, 0);
    WireParts(p, []);
    RtcpDecode.SsrcsReadBack(Wire(p, []), RTP_HEADER, p.csrcs);
  }

  lemma WireInOrder(p: Content)
    requires Encodable(p)
    ensures Wire(p, []) == FixedHeader(p, false) + Flatten(SsrcParts(p.csrcs)) + ExtensionBytes(p.extension) + p.payload
  {
    hide FixedHeader, Flatten, SsrcParts, ExtensionBytes;
  }

  method WriteFixed(r: Request, buf: array<byte>)
    requires r.Readable() && r.Check(0) == Okay && r.PacketLength() <= buf.Length
    modifies buf
    ensures Encodable(r.Asked()) && buf[..] == RtcpWriter.Patch(old(buf[..]), 0, FixedHeader(r.Asked(), false))
  {
    hide Put16, Put32, RtcpWriter.Patch;
    ghost var before := buf[..];
    var first := [VERSION * 64 + (if r.extended then 16 else 0) + r.numCsrcs,
                  (if r.marker then 128 else 0) + r.payloadType];
    RtcpWriter.Copy(buf, 0, first);
    RtcpWriter.Append(buf, 2, Put16(r.seqNr), before, 0, first);
    RtcpWriter.Append(buf, 4, Put32(r.timestamp), before, 0, first + Put16(r.seqNr));
    RtcpWriter.Append(buf, 8, Put32(r.ssrc), before, 0, first + Put16(r.seqNr) + Put32(r.timestamp));
    assert FixedHeader(r.Asked(), false) == first + Put16(r.seqNr) + Put32(r.timestamp) + Put32(r.ssrc);
  }

  method WriteCsrcs(r: Request, buf: array<byte>, ghost before: seq<byte>, ghost sofar: seq<byte>) returns (at: nat)
    requires r.Readable() && r.Check(0) == Okay && r.PacketLength() <= buf.Length == |before|
    requires |sofar| == RTP_HEADER && buf[..] == RtcpWriter.Patch(before, 0, sofar)
    modifies buf
    ensures at == RTP_HEADER + WORD * r.numCsrcs == |sofar + Flatten(SsrcParts(r.Asked().csrcs))|
    ensures buf[..] == RtcpWriter.Patch(before, 0, sofar + Flatten(SsrcParts(r.Asked().csrcs)))
  {
    hide Put32, RtcpWriter.Patch;
    at := RTP_HEADER;
    assert SsrcParts(r.csrcs[..0]) == [] && sofar + Flatten(SsrcParts(r.csrcs[..0])) == sofar;
    for i := 0 to r.numCsrcs
      invariant at == RTP_HEADER + WORD * i == |sofar + Flatten(SsrcParts(r.csrcs[..i]))|
      invariant buf[..] == RtcpWriter.Patch(before, 0, sofar + Flatten(SsrcParts(r.csrcs[..i])))
    {
      SsrcsSnoc(r.csrcs, i);
      RtcpWriter.Append(buf, at, Put32(r.csrcs[i]), before, 0, sofar + Flatten(SsrcParts(r.csrcs[..i])));
      assert sofar + Flatten(SsrcParts(r.csrcs[..i])) + Put32(r.csrcs[i])
             == sofar + Flatten(SsrcParts(r.csrcs[..i + 1]));
      at := at + WORD;
    }
  }

  method WriteExtension(r: Request, buf: array<byte>, cur: nat, ghost before: seq<byte>, ghost sofar: seq<byte>)
    returns (at: nat)
    requires r.Readable() && r.Check(0) == Okay && r.extended && |before| == buf.Length
    requires cur == |sofar| && cur + EXTENSION_HEADER + WORD * r.extensionWords <= buf.Length
    requires buf[..] == RtcpWriter.Patch(before, 0, sofar)
    modifies buf
    ensures at == cur + EXTENSION_HEADER + WORD * r.extensionWords == |sofar + ExtensionBytes(r.Asked().extension)|
    ensures buf[..] == RtcpWriter.Patch(before, 0, sofar + ExtensionBytes(r.Asked().extension))
  {
    hide Put16, RtcpWriter.Patch;
    var data := r.extensionData[..WORD * r.extensionWords];
    RtcpWriter.Append(buf, cur, Put16(r.extensionId), before, 0, sofar);
    RtcpWriter.Append(buf, cur + 2, Put16(r.extensionWords), before, 0, sofar + Put16(r.extensionId));
    at := cur + EXTENSION_HEADER;
    RtcpWriter.Append(buf, at, data, before, 0, sofar + Put16(r.extensionId) + Put16(r.extensionWords));
    at := at + |data|;
    assert |data| / WORD == r.extensionWords;
    assert sofar + ExtensionBytes(r.Asked().extension) == sofar + Put16(r.extensionId) + Put16(r.extensionWords) + data;
  }

  class RTPPacket {
    var error: Status
    var fields: Fields
    var packet: array?<byte>
    var packetLength: nat
    var externalBuffer: bool

    ghost predicate Valid()
      reads this, packet
    {
      packet != null && packetLength <= packet.Length && fields.Fit(packet[..packetLength])
    }

    /** What the accessors report. */
    ghost function View(): Content
      requires Valid()
      reads this, packet
    {
      fields.View(packet[..packetLength])
    }

    /** From a received raw packet; `isRtp` says whether it came in on the data port. */
    constructor Received(isRtp: bool, data: array<byte>)
      ensures error == (if isRtp && Accepted(data[..]) then Okay else InvalidPacket)
      ensures error == Okay ==> packet == data && packetLength == data.Length && Valid() && View() == Read(data[..])
      ensures error == Okay && fields.hasExtension ==> fields.extension == Some(fields.payload - fields.extensionLength)
      ensures error == Okay ==> fields.extSeqNr == Get16(data[..], 2) && !externalBuffer
      ensures error != Okay ==> fields == CLEARED && packet == null && packetLength == 0
    {
      fields, packet, packetLength, externalBuffer := CLEARED, null, 0, false;
      new;
      var status := ParseRawPacket(isRtp, data);
      error := status;
    }

    method ParseRawPacket(isRtp: bool, data: array<byte>) returns (status: Status)
      requires fields == CLEARED
      modifies this
      ensures status == (if isRtp && Accepted(data[..]) then Okay else InvalidPacket)
      ensures status != Okay ==> unchanged(this)
      ensures status == Okay ==> packet == data && packetLength == data.Length && Valid() && View() == Read(data[..])
      ensures status == Okay && fields.hasExtension ==>
              fields.extension == Some(fields.payload - fields.extensionLength)
      ensures status == Okay ==> fields.extSeqNr == Get16(data[..], 2)
      ensures externalBuffer == old(externalBuffer)
    {
      hide Get16, Get32, Fields.View, Fields.Fit, Read, ToInt;
      ghost var d := data[..];
      if !isRtp || data.Length < RTP_HEADER || data[0] / 64 != VERSION {
        return InvalidPacket;
      }
      var marker, ptype := data[1] / 128 != 0, data[1] % 128;
      if marker && (ptype == SR_LOW_BITS || ptype == RR_LOW_BITS) {
        return InvalidPacket;
      }
      var csrcCount := data[0] % 16;
      var offset := RTP_HEADER + WORD * csrcCount;
      var padBytes := 0;
      if data[0] / 32 % 2 == 1 {
        padBytes := data[data.Length - 1];
        if padBytes <= 0 {
          return InvalidPacket;
        }
      }
      var f := fields.(hasExtension := data[0] / 16 % 2 == 1);
      if f.hasExtension {
        if offset + EXTENSION_HEADER > data.Length {
          return InvalidPacket;
        }
        var length := WORD * Get16(data[..], offset + 2);
        f := f.(extId := Get16(data[..], offset), extensionLength := length,
                extension := Some(offset + EXTENSION_HEADER));
        offset := offset + EXTENSION_HEADER + length;
      }
      assert PayloadAt(d) == Some(offset);
      var payloadLength := ToInt(data.Length - padBytes - offset);
      if payloadLength < 0 {
        return InvalidPacket;
      }
      f := f.(hasMarker := marker, numCsrcs := csrcCount, payloadType := ptype, extSeqNr := Get16(data[..], 2),
              timestamp := Get32(data[..], 4), ssrc := Get32(data[..], 8), payload := offset,
                  payloadLength := payloadLength);
      FieldsRead(d, f);
      fields, packet, packetLength := f, data, data.Length;
      assert packet[..packetLength] == d;
      status := Okay;
    }

    /** A packet in a buffer of its own; `maxSize` zero means no limit. */
    constructor Built(r: Request, maxSize: nat)
      requires r.Readable()
      ensures error == r.Check(maxSize)
      ensures error == Okay ==> Valid() && View() == Unextended(r.Asked()) && Encodable(r.Asked())
      ensures error == Okay ==>
        packet[..packetLength] == Wire(r.Asked(), []) && packetLength == r.PacketLength() && fresh(packet)
      ensures error == Okay ==> fields.extSeqNr == r.seqNr && fields.HoldsExtension(r) && !externalBuffer
      ensures error != Okay ==> fields == CLEARED && packet == null && packetLength == 0
    {
      fields, packet, packetLength, externalBuffer := CLEARED, null, 0, false;
      new;
      var status := BuildPacket(r, null, maxSize);
      error := status;
    }

    /** A packet at the start of the caller's buffer. */
    constructor BuiltInto(r: Request, buffer: array?<byte>, bufferSize: nat)
      requires r.Readable() && (buffer != null ==> bufferSize <= buffer.Length)
      modifies buffer
      ensures error == if buffer == null then ExternalBufferNull
                       else if bufferSize == 0 then IllegalBufferSize else r.Check(bufferSize)
      ensures error == Okay ==> Valid() && View() == Unextended(r.Asked()) && Encodable(r.Asked())
      ensures error == Okay ==> fields.extSeqNr == r.seqNr && fields.HoldsExtension(r) && externalBuffer
      ensures error == Okay ==>
        packet == buffer && packetLength == r.PacketLength() == |Wire(r.Asked(), [])| <= buffer.Length
      ensures error == Okay ==> buffer[..] == RtcpWriter.Patch(old(buffer[..]), 0, Wire(r.Asked(), []))
      ensures error != Okay ==> fields == CLEARED && packet == null && packetLength == 0
      ensures error != Okay && buffer != null ==> buffer[..] == old(buffer[..])
    {
      fields, packet, packetLength, externalBuffer := CLEARED, null, 0, false;
      new;
      if buffer == null {
        error := ExternalBufferNull;
      } else if bufferSize == 0 {
        error := IllegalBufferSize;
      } else {
        var status := BuildPacket(r, buffer, bufferSize);
        error := status;
      }
    }

    method BuildPacket(r: Request, buffer: array?<byte>, maxSize: nat) returns (status: Status)
      requires r.Readable() && packetLength == 0 && fields.extension == None
      requires buffer != null ==> 0 < maxSize <= buffer.Length
      modifies this, buffer
      ensures status == r.Check(maxSize)
      ensures status != Okay ==> unchanged(this) && (buffer != null ==> buffer[..] == old(buffer[..]))
      ensures status == Okay ==> Valid() && View() == Unextended(r.Asked()) && Encodable(r.Asked())
      ensures status == Okay ==> packetLength == r.PacketLength() == |Wire(r.Asked(), [])|
      ensures status == Okay ==> packet[..packetLength] == Wire(r.Asked(), [])
      ensures status == Okay ==> fields.extSeqNr == r.seqNr && fields.HoldsExtension(r)
      ensures status == Okay ==> externalBuffer == (buffer != null)
      ensures status == Okay && buffer == null ==> fresh(packet)
      ensures status == Okay && buffer != null ==>
                packet == buffer && buffer[..] == RtcpWriter.Patch(old(buffer[..]), 0, Wire(r.Asked(), []))
    {
      hide Wire, Fields.View, Fields.Fit, RtcpWriter.Patch;
      if r.numCsrcs > MAX_CSRCS {
        return TooManyCsrcs;
      }
      if r.payloadType > 127 || r.payloadType == SR_LOW_BITS || r.payloadType == RR_LOW_BITS {
        return BadPayloadType;
      }
      var length := RTP_HEADER + WORD * r.numCsrcs;
      if r.extended {
        length := length + EXTENSION_HEADER + WORD * r.extensionWords;
      }
      length := length + |r.payload|;
      if maxSize > 0 && length > maxSize {
        return DataExceedsMaxSize;
      }
      var buf := buffer;
      if buf == null {
        buf := new byte[length];
      }
      ghost var before := buf[..];
      WriteOctets(r, buf);
      RtcpWriter.PatchRead(before, 0, Wire(r.Asked(), []));
      packet, packetLength, externalBuffer := buf, length, buffer != null;
      fields := Fields(r.extended, r.marker, r.numCsrcs, r.payloadType, r.seqNr, r.timestamp, r.ssrc,
                       length - |r.payload|, |r.payload|, r.extensionId, fields.extension, WORD * r.extensionWords);
      FieldsBuilt(r, fields);
      status := Okay;
    }

    /** The second half of BuildPacket: filling in the buffer. */
    static method WriteOctets(r: Request, buf: array<byte>)
      requires r.Readable() && r.Check(0) == Okay && r.PacketLength() <= buf.Length
      modifies buf
      ensures Encodable(r.Asked()) && |Wire(r.Asked(), [])| == r.PacketLength()
      ensures buf[..] == RtcpWriter.Patch(old(buf[..]), 0, Wire(r.Asked(), []))
    {
      hide RtcpWriter.Patch, FixedHeader, Flatten, SsrcParts, Wire, Put16;
      ghost var p, before := r.Asked(), buf[..];
      AskedExact(r, 0);
      WireInOrder(p);
      WriteFixed(r, buf);
      ghost var sofar := FixedHeader(p, false);
      var at := WriteCsrcs(r, buf, before, sofar);
      sofar := sofar + Flatten(SsrcParts(p.csrcs));
      if r.extended {
        at := WriteExtension(r, buf, at, before, sofar);
      }
      assert !r.extended ==> sofar + ExtensionBytes(p.extension) == sofar;
      sofar := sofar + ExtensionBytes(p.extension);
      RtcpWriter.Append(buf, at, r.payload, before, 0, sofar);
    }

    /** The identifier at index `num`; zero beyond the count. */
    method GetCSRC(num: nat) returns (csrc: u32)
      requires Valid()
      ensures csrc == if num < |View().csrcs| then View().csrcs[num] else 0
    {
      if num >= fields.numCsrcs {
        return 0;
      }
      csrc := Get32(packet[..packetLength], RTP_HEADER + num * WORD);
    }
  }
}
