/** The buffer writing of RTCPCompoundPacketBuilder::EndBuild: one packet at a time, through a moving offset. */
module RtcpWriter {
  import opened Bytes
  import opened RtcpFormat
  import opened RtcpCompound

  /** The nested class SDESSource: raw item buffers and the running total of their lengths. */
  datatype SdesSource = SdesSource(ssrc: u32, items: seq<seq<byte>>, totalItemSize: nat) {
    function NeededBytes(): nat {
      RoundUp4(totalItemSize + 1) + 4
    }

    function NeededBytesWithExtraItem(itemDataLength: nat): nat {
      RoundUp4(totalItemSize + 2 + itemDataLength + 1) + 4
    }

    function AddItem(buf: seq<byte>): SdesSource {
      SdesSource(ssrc, items + [buf], totalItemSize + |buf|)
    }
  }

  /** `s` with `part` written over it at position `at`. */
  ghost function Patch(s: seq<byte>, at: nat, part: seq<byte>): (t: seq<byte>)
    requires at + |part| <= |s|
    ensures |t| == |s|
  {
    s[..at] + part + s[at + |part|..]
  }

  lemma PatchPatch(s: seq<byte>, at: nat, a: seq<byte>, b: seq<byte>)
    requires at + |a| + |b| <= |s|
    ensures Patch(Patch(s, at, a), at + |a|, b) == Patch(s, at, a + b)
  {
  }

  lemma PatchHead(s: seq<byte>, at: nat, h: seq<byte>, h': seq<byte>, body: seq<byte>)
    requires |h| == |h'| && at + |h| + |body| <= |s|
    ensures Patch(Patch(s, at, h + body), at, h') == Patch(s, at, h' + body)
  {
  }

  lemma PatchFour(s: seq<byte>, t: seq<byte>, at: nat, part: seq<byte>)
    requires |part| == 4 && at + 4 <= |s| == |t|
    requires t == s[at := part[0]][at + 1 := part[1]][at + 2 := part[2]][at + 3 := part[3]]
    ensures t == Patch(s, at, part)
  {
  }

  lemma PatchNothing(s: seq<byte>, at: nat)
    requires at <= |s|
    ensures Patch(s, at, []) == s
  {
  }

  lemma PatchRead(s: seq<byte>, at: nat, part: seq<byte>)
    requires at + |part| <= |s|
    ensures Patch(s, at, part)[at..at + |part|] == part
  {
  }

  /** memcpy */
  method Copy(buf: array<byte>, at: nat, src: seq<byte>)
    requires at + |src| <= buf.Length
    modifies buf
    ensures buf[..] == Patch(old(buf[..]), at, src)
  {
    forall i | 0 <= i < |src| {
      buf[at + i] := src[i];
    }
  }

  /** memcpy behind what has been written of a packet that starts at `cur`. */
  method Append(buf: array<byte>, at: nat, src: seq<byte>, ghost before: seq<byte>, ghost cur: nat,
                ghost sofar: seq<byte>)
    requires |before| == buf.Length && at == cur + |sofar| && at + |src| <= buf.Length
    requires buf[..] == Patch(before, cur, sofar)
    modifies buf
    ensures buf[..] == Patch(before, cur, sofar + src)
  {
    Copy(buf, at, src);
    PatchPatch(before, cur, sofar, src);
  }

  /** The octets of a report packet, from the raw buffers of the builder. */
  ghost function RawReport(ptype: byte, headerData: seq<byte>, blocks: seq<seq<byte>>): seq<byte>
    requires |blocks| <= MAX_COUNT
  {
    var body := headerData + Flatten(blocks);
    HeaderBytes(|blocks|, ptype, HEADER_SIZE + |body|) + body
  }

  /** Version and packet type; the count and the length follow when they are known. */
  method BeginHeader(buf: array<byte>, cur: nat, ptype: byte) returns (ghost header: seq<byte>)
    requires cur + HEADER_SIZE <= buf.Length
    modifies buf
    ensures |header| == HEADER_SIZE && buf[..] == Patch(old(buf[..]), cur, header)
    ensures header[1] == ptype
  {
    buf[cur], buf[cur + 1] := VERSION * 64, ptype;
    header := buf[cur..cur + HEADER_SIZE];
  }

  /** Count and length of the packet that was written at `cur`. */
  method EndHeader(buf: array<byte>, cur: nat, count: nat, offset: nat,
                   ghost before: seq<byte>, ghost header: seq<byte>, ghost body: seq<byte>)
    requires count <= MAX_COUNT && |header| == HEADER_SIZE && offset == HEADER_SIZE + |body|
    requires |before| == buf.Length && cur + offset <= buf.Length
    requires buf[..] == Patch(before, cur, header + body)
    modifies buf
    ensures buf[..] == Patch(before, cur, HeaderBytes(count, header[1], offset) + body)
  {
    hide Patch;
    ghost var written := buf[..];
    PatchRead(before, cur, header + body);
    assert buf[cur + 1] == written[cur..cur + offset][1] == header[1];
    var length := Put16((offset / 4 - 1) % 0x1_0000);
    buf[cur] := VERSION * 64 + count;
    buf[cur + 2], buf[cur + 3] := length[0], length[1];
    PatchFour(written, buf[..], cur, HeaderBytes(count, header[1], offset));
    PatchHead(before, cur, header, HeaderBytes(count, header[1], offset), body);
  }

  method WriteReport(buf: array<byte>, cur: nat, ptype: byte, headerData: seq<byte>, blocks: seq<seq<byte>>, it: nat,
                     ghost packet: seq<byte>)
    returns (offset: nat, next: nat)
    requires it <= |blocks| && packet == RawReport(ptype, headerData, blocks[it..it + Share(|blocks| - it)])
    requires cur + |packet| <= buf.Length
    modifies buf
    ensures next == it + Share(|blocks| - it) && offset == |packet|
    ensures buf[..] == Patch(old(buf[..]), cur, packet)
  {
    hide HeaderBytes, Flatten, Patch;
    ghost var before, stop := buf[..], it + Share(|blocks| - it);
    ghost var header := BeginHeader(buf, cur, ptype);
    Append(buf, cur + HEADER_SIZE, headerData, before, cur, header);
    offset := HEADER_SIZE + |headerData|;
    var count := 0;
    next := it;
    ghost var written := [];
    FlattenPrefix(blocks, it, it, stop);
    assert header + headerData == header + (headerData + written);
    while next != |blocks| && count < MAX_COUNT
      invariant it <= next <= stop && count == next - it
      invariant written == Flatten(blocks[it..next]) && offset == HEADER_SIZE + |headerData| + |written|
      invariant |written| <= |Flatten(blocks[it..stop])|
      invariant buf[..] == Patch(before, cur, header + (headerData + written))
      decreases |blocks| - next
    {
      FlattenPrefix(blocks, it, next + 1, stop);
      FlattenNext(blocks, it, next);
      Append(buf, cur + offset, blocks[next], before, cur, header + (headerData + written));
      assert header + (headerData + written) + blocks[next] == header + (headerData + (written + blocks[next]));
      written := written + blocks[next];
      offset := offset + |blocks[next]|;
      count := count + 1;
      next := next + 1;
    }
    EndHeader(buf, cur, count, offset, before, header, headerData + written);
  }

  lemma FlattenNext(parts: seq<seq<byte>>, it: nat, next: nat)
    requires it <= next < |parts|
    ensures Flatten(parts[it..next + 1]) == Flatten(parts[it..next]) + parts[next]
  {
    assert parts[it..next + 1] == parts[it..next] + [parts[next]];
    FlattenSnoc(parts[it..next], parts[next]);
  }

  lemma FlattenPrefix(parts: seq<seq<byte>>, it: nat, next: nat, stop: nat)
    requires it <= next <= stop <= |parts|
    ensures |Flatten(parts[it..next])| <= |Flatten(parts[it..stop])|
    ensures next == it ==> Flatten(parts[it..next]) == []
  {
    assert parts[it..stop] == parts[it..next] + parts[next..stop];
    FlattenAppend(parts[it..next], parts[next..stop]);
  }

  // ---------------------------------------------------------------- source descriptions

  /** The octets of a chunk, from the raw item buffers of the builder. */
  ghost function RawChunk(s: SdesSource): (b: seq<byte>)
    ensures |b| % 4 == 0
  {
    var items := Flatten(s.items);
    Put32(s.ssrc) + (items + Zeros(4 - |items| % 4))
  }

  ghost function RawChunks(sources: seq<SdesSource>): (parts: seq<seq<byte>>)
    ensures |parts| == |sources|
    ensures forall i :: 0 <= i < |parts| ==> parts[i] == RawChunk(sources[i])
  {
    seq(|sources|, i requires 0 <= i < |sources| => RawChunk(sources[i]))
  }

  ghost function RawSdes(sources: seq<SdesSource>): seq<byte>
    requires |sources| <= MAX_COUNT
  {
    var body := Flatten(RawChunks(sources));
    HeaderBytes(|sources|, TYPE_SDES, HEADER_SIZE + |body|) + body
  }

  method WriteItems(buf: array<byte>, at: nat, items: seq<seq<byte>>, ghost before: seq<byte>, ghost cur: nat,
                    ghost sofar: seq<byte>)
    returns (end: nat)
    requires |before| == buf.Length && at == cur + |sofar| && at + |Flatten(items)| <= buf.Length
    requires buf[..] == Patch(before, cur, sofar)
    modifies buf
    ensures end == at + |Flatten(items)|
    ensures buf[..] == Patch(before, cur, sofar + Flatten(items))
  {
    hide Flatten, Patch;
    end := at;
    var itemIt := 0;
    ghost var written := [];
    FlattenPrefix(items, 0, 0, |items|);
    assert sofar + written == sofar;
    assert items[0..|items|] == items;
    while itemIt != |items|
      invariant itemIt <= |items|
      invariant written == Flatten(items[0..itemIt]) && end == at + |written|
      invariant |written| <= |Flatten(items)|
      invariant buf[..] == Patch(before, cur, sofar + written)
      decreases |items| - itemIt
    {
      FlattenPrefix(items, 0, itemIt + 1, |items|);
      FlattenNext(items, 0, itemIt);
      Append(buf, end, items[itemIt], before, cur, sofar + written);
      assert sofar + written + items[itemIt] == sofar + (written + items[itemIt]);
      written := written + items[itemIt];
      end := end + |items[itemIt]|;
      itemIt := itemIt + 1;
    }
  }

  /** The null octet that ends the item list, and the alignment behind it. */
  method WriteEnd(buf: array<byte>, cur: nat, at: nat, ghost before: seq<byte>,
                  ghost sofar: seq<byte>) returns (end: nat)
    requires |before| == buf.Length && at == cur + |sofar| && at + 4 - |sofar| % 4 <= buf.Length
    requires buf[..] == Patch(before, cur, sofar)
    modifies buf
    ensures end == at + 4 - |sofar| % 4
    ensures buf[..] == Patch(before, cur, sofar + Zeros(4 - |sofar| % 4))
  {
    hide Patch;
    Append(buf, at, [0], before, cur, sofar);
    end := at + 1;
    assert [0] == Zeros(1);
    var r := (end - cur) % 4;
    if r != 0 {
      var num, i := 4 - r, 0;
      while i < num
        invariant i <= num && end == at + 1 + i
        invariant buf[..] == Patch(before, cur, sofar + Zeros(1 + i))
      {
        Append(buf, end, [0], before, cur, sofar + Zeros(1 + i));
        assert sofar + Zeros(1 + i) + [0] == sofar + Zeros(2 + i);
        end := end + 1;
        i := i + 1;
      }
    }
  }

  method WriteChunk(buf: array<byte>, cur: nat, at: nat, s: SdesSource, ghost before: seq<byte>, ghost sofar: seq<byte>)
    returns (end: nat)
    requires |before| == buf.Length && at == cur + |sofar| && |sofar| % 4 == 0 && at + |RawChunk(s)| <= buf.Length
    requires buf[..] == Patch(before, cur, sofar)
    modifies buf
    ensures end == at + |RawChunk(s)|
    ensures buf[..] == Patch(before, cur, sofar + RawChunk(s))
  {
    hide Patch, Flatten, Put32;
    ghost var items := Flatten(s.items);
    Append(buf, at, Put32(s.ssrc), before, cur, sofar);
    end := WriteItems(buf, at + 4, s.items, before, cur, sofar + Put32(s.ssrc));
    end := WriteEnd(buf, cur, end, before, sofar + Put32(s.ssrc) + items);
    assert sofar + Put32(s.ssrc) + items + Zeros(4 - |items| % 4) == sofar + RawChunk(s);
  }

  method WriteSdes(buf: array<byte>, cur: nat, sources: seq<SdesSource>, it: nat, ghost packet: seq<byte>)
    returns (offset: nat, next: nat)
    requires it <= |sources| && packet == RawSdes(sources[it..it + Share(|sources| - it)])
    requires cur + |packet| <= buf.Length
    modifies buf
    ensures next == it + Share(|sources| - it) && offset == |packet|
    ensures buf[..] == Patch(old(buf[..]), cur, packet)
  {
    hide HeaderBytes, Flatten, Patch, RawChunk;
    ghost var before, stop := buf[..], it + Share(|sources| - it);
    ghost var parts := RawChunks(sources);
    ghost var header := BeginHeader(buf, cur, TYPE_SDES);
    offset := HEADER_SIZE;
    var sourceCount := 0;
    next := it;
    ghost var written := [];
    FlattenPrefix(parts, it, it, stop);
    assert RawChunks(sources[it..stop]) == parts[it..stop];
    assert header == header + written;
    while next != |sources| && sourceCount < MAX_COUNT
      invariant it <= next <= stop && sourceCount == next - it
      invariant written == Flatten(parts[it..next]) && offset == HEADER_SIZE + |written| && offset % 4 == 0
      invariant |written| <= |Flatten(parts[it..stop])|
      invariant buf[..] == Patch(before, cur, header + written)
      decreases |sources| - next
    {
      FlattenPrefix(parts, it, next + 1, stop);
      FlattenNext(parts, it, next);
      var end := WriteChunk(buf, cur, cur + offset, sources[next], before, header + written);
      assert header + written + RawChunk(sources[next]) == header + (written + RawChunk(sources[next]));
      written := written + RawChunk(sources[next]);
      offset := end - cur;
      sourceCount := sourceCount + 1;
      next := next + 1;
    }
    assert RawChunks(sources[it..next]) == parts[it..next];
    EndHeader(buf, cur, sourceCount, offset, before, header, written);
  }
}
