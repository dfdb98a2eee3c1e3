/** RTCPSDESPacket: the validating constructor and the chunk and item cursor. */
module SdesPacket {
  import opened Bytes
  import opened RtcpFormat
  import opened RtcpDecode
  import opened RtcpAccounting

  // ---------------------------------------------------------------- which octets are a chunk list

  /** `b` is chunk `c`: SSRC, items, a null octet, and octets of any value up to a 32-bit boundary. */
  ghost predicate IsChunk(b: seq<byte>, c: Chunk) {
    var n := 4 + |Flatten(ItemParts(c.items))|;
    && ItemShapes(c.items)
    && |b| == RoundUp4(n + 1)
    && At(b, 0, Put32(c.ssrc)) && At(b, 4, Flatten(ItemParts(c.items))) && b[n] == 0
  }

  /** `b` is these chunks one after the other. */
  ghost predicate IsChunkList(b: seq<byte>, chunks: seq<Chunk>)
    decreases |chunks|
  {
    if chunks == [] then b == []
    else exists n :: 0 <= n <= |b| && IsChunk(b[..n], chunks[0]) && IsChunkList(b[n..], chunks[1..])
  }

  /** Whatever the item scan returns is stored there, null octet included. */
  lemma {:induction false} ItemsSound(d: seq<byte>, pos: nat, end: nat)
    requires pos <= end <= |d| && ScanItems(d, pos, end).Some?
    ensures var (items, z) := ScanItems(d, pos, end).value;
      ItemShapes(items) && At(d, pos, Flatten(ItemParts(items))) && z == pos + |Flatten(ItemParts(items))|
    decreases end - pos
  {
    hide Flatten, ItemBytes, ItemParts;
    if d[pos] == 0 {
      NoItems();
    } else {
      var next := pos + 2 + d[pos + 1];
      ItemsSound(d, next, end);
      var (rest, z) := ScanItems(d, next, end).value;
      var i := Item(d[pos], d[pos + 2..next]);
      ItemStored(d, pos, i);
      ItemPartsCons([i] + rest);
      assert ([i] + rest)[1..] == rest;
      FlattenCons(ItemBytes(i), ItemParts(rest));
      AtJoin(d, pos, ItemBytes(i), Flatten(ItemParts(rest)));
    }
  }

  lemma NoItems()
    ensures ItemParts([]) == [] && Flatten([]) == []
  {
  }

  lemma ItemStored(d: seq<byte>, pos: nat, i: Item)
    requires pos + 2 + |i.data| <= |d| && |i.data| <= 255
    requires d[pos] == i.id && d[pos + 1] == |i.data| && d[pos + 2..pos + 2 + |i.data|] == i.data
    ensures At(d, pos, ItemBytes(i)) && |ItemBytes(i)| == 2 + |i.data|
  {
    assert d[pos..pos + 2 + |i.data|] == [d[pos], d[pos + 1]] + d[pos + 2..pos + 2 + |i.data|];
  }

  lemma AtSlice(d: seq<byte>, pos: nat, end: nat, o: nat, part: seq<byte>)
    requires pos <= end <= |d| && o + |part| <= end - pos
    ensures At(d, pos + o, part) <==> At(d[pos..end], o, part)
  {
    var t, u := d[pos + o..pos + o + |part|], d[pos..end][o..o + |part|];
    assert |t| == |u| && forall k :: 0 <= k < |t| ==> t[k] == d[pos + o + k] == u[k];
    assert t == u;
  }

  lemma ChunkSound(d: seq<byte>, pos: nat, end: nat)
    requires pos <= end <= |d| && ScanChunk(d, pos, end).Some?
    ensures var (c, next) := ScanChunk(d, pos, end).value; IsChunk(d[pos..next], c)
  {
    hide Flatten, ItemParts, Put32, ScanItems, ItemShapes;
    var (c, next) := ScanChunk(d, pos, end).value;
    ItemsSound(d, pos + 4, end);
    Put32Get32(d, pos);
    AtSlice(d, pos, next, 0, Put32(c.ssrc));
    AtSlice(d, pos, next, 4, Flatten(ItemParts(c.items)));
    assert d[pos..next][4 + |Flatten(ItemParts(c.items))|] == 0;
  }

  lemma ChunkComplete(d: seq<byte>, pos: nat, next: nat, end: nat, c: Chunk)
    requires pos <= next <= end <= |d| && IsChunk(d[pos..next], c)
    ensures ScanChunk(d, pos, end) == Some((c, next))
  {
    hide Flatten, ItemParts, Put32, ScanItems, ItemShapes;
    var items := Flatten(ItemParts(c.items));
    AtSlice(d, pos, next, 0, Put32(c.ssrc));
    AtSlice(d, pos, next, 4, items);
    Get32At(d, pos, c.ssrc);
    assert d[pos + 4 + |items|] == d[pos..next][4 + |items|] == 0;
    ItemsReadBack(d, pos + 4, end, c.items);
  }

  /** The scan accepts `chunks` exactly when the octets up to `end` are these chunks and nothing else. */
  lemma {:induction false} ChunksExact(d: seq<byte>, pos: nat, end: nat, chunks: seq<Chunk>)
    requires pos <= end <= |d|
    ensures ScanChunks(d, pos, end, |chunks|) == Some(chunks) <==> IsChunkList(d[pos..end], chunks)
    decreases |chunks|
  {
    hide ScanChunk, IsChunk;
    if chunks != [] {
      if ScanChunks(d, pos, end, |chunks|) == Some(chunks) {
        ChunkSound(d, pos, end);
        var (c, next) := ScanChunk(d, pos, end).value;
        ChunkListStep(d, pos, next, end, chunks);
        ChunksExact(d, next, end, chunks[1..]);
      }
      if IsChunkList(d[pos..end], chunks) {
        var n :| 0 <= n <= end - pos && IsChunk(d[pos..end][..n], chunks[0])
            && IsChunkList(d[pos..end][n..], chunks[1..]);
        var next := pos + n;
        assert d[pos..end][..n] == d[pos..next] && d[pos..end][n..] == d[next..end];
        ChunkComplete(d, pos, next, end, chunks[0]);
        ChunksExact(d, next, end, chunks[1..]);
        assert chunks == [chunks[0]] + chunks[1..];
      }
    }
  }

  lemma ChunkListStep(d: seq<byte>, pos: nat, next: nat, end: nat, chunks: seq<Chunk>)
    requires pos <= next <= end <= |d| && chunks != []
    requires IsChunk(d[pos..next], chunks[0])
    ensures IsChunkList(d[next..end], chunks[1..]) ==> IsChunkList(d[pos..end], chunks)
  {
    hide IsChunk;
    var b, n := d[pos..end], next - pos;
    assert b[..n] == d[pos..next] && b[n..] == d[next..end];
  }

  /** The constructor accepts exactly the frames whose unpadded body is as many chunks as the header counts. */
  lemma AcceptsExactly(d: seq<byte>, chunks: seq<Chunk>)
    requires Frame(d)
    ensures SdesChunks(d) == Some(chunks) <==>
      && Count(d) == |chunks|
      && Unpadded(d).Some? && Unpadded(d).value >= HEADER_SIZE
      && IsChunkList(d[HEADER_SIZE..Unpadded(d).value], chunks)
  {
    if Unpadded(d).Some? && Unpadded(d).value >= HEADER_SIZE {
      ChunksExact(d, HEADER_SIZE, Unpadded(d).value, chunks);
    }
  }

  // ---------------------------------------------------------------- the constructor's scan

  /** The items of one chunk: the offset behind its padding, or None when `len` octets do not hold them. */
  method ScanItemList(data: seq<byte>, chunk: nat, length: nat) returns (r: Option<(nat, nat)>)
    requires chunk + length <= |data| && length >= 8
    ensures match ScanChunk(data, chunk, chunk + length)
      case None => r.None?
      case Some((_, next)) => r == Some((next - chunk, chunk + length - next))
  {
    hide ScanItems, ScanChunk, Continues;
    var len, chunkOffset, done := length - 4, 4, false;
    ghost var end := chunk + length;
    ghost var items: seq<Item> := [];
    ScanBegins(data, chunk, end);
    while !done
      invariant 4 <= chunkOffset && 0 <= len && chunkOffset + len == length
      invariant !done ==> Continues(data, chunk, end, items, chunkOffset)
      invariant done ==> ScanChunk(data, chunk, end).Some? && ScanChunk(data, chunk, end).value.1 == chunk + chunkOffset
      decreases len, !done
    {
      ScanRunsOut(data, chunk, end, items, chunkOffset);
      if len < 1 {
        return None;
      }
      if data[chunk + chunkOffset] == 0 {
        ScanFinds(data, chunk, end, items, chunkOffset);
        len, chunkOffset := len - 1, chunkOffset + 1;
        var r := chunkOffset % 4;
        if r != 0 {
          var addOffset := 4 - r;
          if addOffset > len {
            return None;
          }
          len, chunkOffset := len - addOffset, chunkOffset + addOffset;
        }
        done := true;
      } else {
        if len < 2 {
          return None;
        }
        var itemLen := data[chunk + chunkOffset + 1];
        ItemScanned(data, chunk, end, items, chunkOffset);
        len := len - 2;
        if itemLen > len {
          return None;
        }
        items := items + [Item(data[chunk + chunkOffset],
                               data[chunk + chunkOffset + 2..chunk + chunkOffset + 2 + itemLen])];
        len, chunkOffset := len - itemLen, chunkOffset + 2 + itemLen;
      }
    }
    return Some((chunkOffset, len));
  }

  /** The scan of the chunk comes down to the scan of what follows `items`. */
  ghost predicate Continues(data: seq<byte>, chunk: nat, end: nat, items: seq<Item>, chunkOffset: nat)
    requires chunk + chunkOffset <= end <= |data| && 4 <= chunkOffset
  {
    ScanItems(data, chunk + 4, end) == match ScanItems(data, chunk + chunkOffset, end)
      case None => None
      case Some((rest, z)) => Some((items + rest, z))
  }

  lemma ScanBegins(data: seq<byte>, chunk: nat, end: nat)
    requires chunk + 4 <= end <= |data|
    ensures Continues(data, chunk, end, [], 4)
  {
    hide ScanItems;
    assert forall xs: seq<Item> :: [] + xs == xs;
  }

  /** Where no item header fits and none is needed the scan fails. */
  lemma ScanRunsOut(data: seq<byte>, chunk: nat, end: nat, items: seq<Item>, chunkOffset: nat)
    requires 4 <= chunkOffset && chunk + chunkOffset <= end <= |data| && Continues(data, chunk, end, items, chunkOffset)
    ensures var pos := chunk + chunkOffset;
            pos == end || (end - pos < 2 && data[pos] != 0) ==> ScanChunk(data, chunk, end).None?
  {
  }

  /** At the null octet the chunk ends behind its padding, if that is there. */
  lemma ScanFinds(data: seq<byte>, chunk: nat, end: nat, items: seq<Item>, chunkOffset: nat)
    requires 4 <= chunkOffset && chunk + 8 <= end <= |data| && chunk + chunkOffset < end
    requires data[chunk + chunkOffset] == 0 && Continues(data, chunk, end, items, chunkOffset)
    ensures var next := chunk + RoundUp4(chunkOffset + 1);
            if next > end then ScanChunk(data, chunk, end).None?
            else ScanChunk(data, chunk, end).Some? && ScanChunk(data, chunk, end).value.1 == next
  {
    assert items + [] == items;
    assert ScanItems(data, chunk + 4, end) == Some((items, chunk + chunkOffset));
    hide ScanItems;
  }

  lemma ItemScanned(data: seq<byte>, chunk: nat, end: nat, items: seq<Item>, chunkOffset: nat)
    requires 4 <= chunkOffset && chunk + chunkOffset + 2 <= end <= |data|
    requires data[chunk + chunkOffset] != 0 && Continues(data, chunk, end, items, chunkOffset)
    ensures var pos := chunk + chunkOffset;
      var next := pos + 2 + data[pos + 1];
      if next > end then ScanItems(data, chunk + 4, end).None? && ScanChunk(data, chunk, end).None?
      else Continues(data, chunk, end, items + [Item(data[pos], data[pos + 2..next])], next - chunk)
  {
    var pos := chunk + chunkOffset;
    var next := pos + 2 + data[pos + 1];
    if next <= end && ScanItems(data, next, end).Some? {
      var (rest, z) := ScanItems(data, next, end).value;
      var i := Item(data[pos], data[pos + 2..next]);
      assert items + ([i] + rest) == items + [i] + rest;
    }
  }

  /** One turn of the constructor's outer loop. */
  lemma ChunkScanned(d: seq<byte>, pos: nat, end: nat, count: nat)
    requires pos < end <= |d| && count > 0
    ensures match ScanChunk(d, pos, end)
      case None => ScanChunks(d, pos, end, count).None?
      case Some((_, next)) => ScanChunks(d, pos, end, count).Some? == ScanChunks(d, next, end, count - 1).Some?
  {
    hide ScanChunk;
  }

  lemma ScanEnded(d: seq<byte>, pos: nat, end: nat, count: nat)
    requires pos <= end <= |d| && (count == 0 || pos == end)
    ensures ScanChunks(d, pos, end, count).Some? <==> count == 0 && pos == end
  {
  }

  /** What the constructor reads before it looks at the chunks. */
  lemma ScanStarts(d: seq<byte>)
    requires Frame(d)
    ensures match Unpadded(d)
      case None => SdesChunks(d).None?
      case Some(end) =>
        SdesChunks(d).Some? == (end >= HEADER_SIZE && ScanChunks(d, HEADER_SIZE, end, Count(d)).Some?)
  {
    hide ScanChunks, Unpadded;
  }

  lemma ShortChunk(d: seq<byte>, pos: nat, end: nat)
    requires pos <= end <= |d| && end - pos < 8
    ensures ScanChunk(d, pos, end).None?
  {
  }

  /** The body of the constructor: is this frame in the known format? */
  method Validate(data: seq<byte>) returns (known: bool)
    requires Frame(data)
    ensures known == SdesChunks(data).Some?
  {
    ScanStarts(data);
    hide ScanChunks, SdesChunks;
    var len := |data|;
    if Padded(data) {
      var padCount := data[|data| - 1];
      if padCount % 4 != 0 {
        return false;
      }
      if padCount >= len {
        return false;
      }
      len := len - padCount;
    }
    if Count(data) == 0 {
      if len >= HEADER_SIZE {
        ScanEnded(data, HEADER_SIZE, len, 0);
      }
      return len == HEADER_SIZE;
    }
    if len < HEADER_SIZE {
      return false;
    }
    known := ValidateChunks(data, len, Count(data));
  }

  /** The loop over the chunks. */
  method ValidateChunks(data: seq<byte>, end: nat, count: nat) returns (known: bool)
    requires 4 <= end <= |data|
    ensures known == ScanChunks(data, 4, end, count).Some?
  {
    hide *;
    var ssrcCount, chunk, len := count, 4, end - 4;
    while ssrcCount > 0 && len > 0
      invariant 0 <= ssrcCount && 0 <= chunk && 0 <= len && chunk + len == end
      invariant ScanChunks(data, 4, end, count).Some? == ScanChunks(data, chunk, end, ssrcCount).Some?
    {
      ChunkScanned(data, chunk, end, ssrcCount);
      if len < 8 {
        ShortChunk(data, chunk, end);
        return false;
      }
      var scanned: Option<(nat, nat)> := ScanItemList(data, chunk, len);
      if scanned.None? {
        return false;
      }
      chunk, len, ssrcCount := chunk + scanned.value.0, scanned.value.1, ssrcCount - 1;
    }
    ScanEnded(data, chunk, end, ssrcCount);
    return len == 0 && ssrcCount == 0;
  }

  // ---------------------------------------------------------------- items

  /** GetItemType's switch. */
  function TypeOfId(id: byte): (t: ItemType)
    ensures t == NoItem <==> id == 0
    ensures t == PRIV <==> id == ID_PRIV
    ensures forall u: ItemType :: ItemId(u).Some? ==> (t == u <==> ItemId(u).value == id)
  {
    match id
    case 0 => NoItem
    case 1 => CNAME
    case 2 => NAME
    case 3 => EMAIL
    case 4 => PHONE
    case 5 => LOC
    case 6 => TOOL
    case 7 => NOTE
    case 8 => PRIV
    case _ => UnknownItem
  }

  /** Prefix and value of a PRIV item, as the four PRIV accessors agree on them. */
  function PrivParts(i: Item): Option<(seq<byte>, seq<byte>)> {
    if i.id != ID_PRIV || |i.data| == 0 then None
    else
      var prefixLength := i.data[0];
      if prefixLength > |i.data| - 1 then None else Some((i.data[1..1 + prefixLength], i.data[1 + prefixLength..]))
  }

  /** The PRIV accessors find exactly the prefix and the value that AddSDESPrivateItem put in. */
  lemma PrivReadBack(i: Item, prefix: seq<byte>, value: seq<byte>)
    requires |prefix| <= 255
    ensures PrivParts(i) == Some((prefix, value)) <==> i == PrivItem(prefix, value)
  {
    var p := PrivItem(prefix, value);
    assert p.data[1..1 + |prefix|] == prefix && p.data[1 + |prefix|..] == value;
    if PrivParts(i) == Some((prefix, value)) {
      assert i.data == [i.data[0]] + i.data[1..1 + |prefix|] + i.data[1 + |prefix|..];
    }
  }

  // ---------------------------------------------------------------- the cursor

  /** The chunks of a packet; none when its format is not known. */
  ghost function ChunksOf(d: seq<byte>): seq<Chunk>
    requires Frame(d)
  {
    if SdesChunks(d).Some? then SdesChunks(d).value else []
  }

  /** Chunk number `k` starts at `pos`, inside the octets the constructor validated. */
  ghost predicate OnChunk(d: seq<byte>, pos: nat, k: nat) {
    && Frame(d) && k < |ChunksOf(d)| && pos <= Unpadded(d).value
    && ScanChunks(d, pos, Unpadded(d).value, |ChunksOf(d)| - k) == Some(ChunksOf(d)[k..])
  }

  /** The item header at `offset` from `pos` is the first of `items`, which run up to the end of the chunk. */
  ghost predicate OnItems(d: seq<byte>, pos: nat, offset: nat, items: seq<Item>) {
    && Frame(d) && Unpadded(d).Some? && pos + 4 <= pos + offset < Unpadded(d).value
    && ScanItems(d, pos + 4, Unpadded(d).value).Some?
    && ScanItems(d, pos + offset, Unpadded(d).value) == Some((items, ScanItems(d, pos + 4, Unpadded(d).value).value.1))
  }

  lemma ChunkStarts(d: seq<byte>, pos: nat, k: nat)
    requires OnChunk(d, pos, k)
    ensures OnItems(d, pos, 4, ChunksOf(d)[k].items)
    ensures pos + 4 <= |d| && Get32(d, pos) == ChunksOf(d)[k].ssrc
  {
    hide ScanItems, ScanChunks, Get32;
    var end := Unpadded(d).value;
    ChunkBehind(d, pos, end, ChunksOf(d)[k..]);
    assert ChunksOf(d)[k..][0] == ChunksOf(d)[k];
  }

  lemma FirstChunk(d: seq<byte>)
    requires Frame(d) && ChunksOf(d) != []
    ensures OnChunk(d, HEADER_SIZE, 0)
  {
    hide ScanChunks;
    assert ChunksOf(d)[0..] == ChunksOf(d);
  }

  /** What the item header under the cursor says, and where the next one is. */
  lemma ItemAt(d: seq<byte>, pos: nat, offset: nat, items: seq<Item>)
    requires OnItems(d, pos, offset, items)
    ensures pos + offset < |d| && (d[pos + offset] == 0 <==> items == [])
    ensures items != [] ==> pos + offset + 1 < |d|
    ensures items != [] ==>
      var next := offset + 2 + d[pos + offset + 1];
      && pos + next < |d|
      && items[0] == Item(d[pos + offset], d[pos + offset + 2..pos + next])
      && OnItems(d, pos, next, items[1..])
  {
    hide Unpadded;
    var end := Unpadded(d).value;
    if items != [] {
      var next := pos + offset + 2 + d[pos + offset + 1];
      assert ScanItems(d, next, end) == Some((items[1..], ScanItems(d, pos + 4, end).value.1));
    }
  }

  /** Behind the null octet that ends the items, and its padding, the next chunk begins. */
  lemma ChunkEnds(d: seq<byte>, pos: nat, k: nat, offset: nat)
    requires OnChunk(d, pos, k) && OnItems(d, pos, offset, []) && k + 1 < |ChunksOf(d)|
    ensures OnChunk(d, pos + RoundUp4(offset + 1), k + 1)
  {
    hide ScanItems, ScanChunk, ScanChunks, Get32, ChunksOf, Unpadded, RoundUp4;
    var end := Unpadded(d).value;
    ChunkBehind(d, pos, end, ChunksOf(d)[k..]);
    EndOfItems(d, pos + offset, end);
    ChunkSpan(d, pos, end, offset);
    assert ChunksOf(d)[k..][1..] == ChunksOf(d)[k + 1..];
  }

  lemma ChunkBehind(d: seq<byte>, pos: nat, end: nat, chunks: seq<Chunk>)
    requires pos <= end <= |d| && chunks != [] && ScanChunks(d, pos, end, |chunks|) == Some(chunks)
    ensures ScanChunk(d, pos, end).Some?
    ensures var (c, next) := ScanChunk(d, pos, end).value;
      c == chunks[0] && ScanChunks(d, next, end, |chunks| - 1) == Some(chunks[1..])
  {
    hide ScanChunk;
  }

  lemma ChunkSpan(d: seq<byte>, pos: nat, end: nat, offset: nat)
    requires pos + 4 <= end <= |d| && ScanItems(d, pos + 4, end).Some? && ScanChunk(d, pos, end).Some?
    requires ScanItems(d, pos + 4, end).value.1 == pos + offset
    ensures ScanChunk(d, pos, end).value.1 == pos + RoundUp4(offset + 1)
  {
    hide ScanItems, Get32, RoundUp4;
  }

  lemma EndOfItems(d: seq<byte>, pos: nat, end: nat)
    requires pos <= end <= |d| && ScanItems(d, pos, end).Some? && ScanItems(d, pos, end).value.0 == []
    ensures ScanItems(d, pos, end).value.1 == pos
  {
  }

  /** The walk of GotoNextChunk over the item headers; every octet it reads was validated. */
  method SkipItems(data: seq<byte>, chunk: nat, ghost items: seq<Item>) returns (offset: nat)
    requires OnItems(data, chunk, 4, items)
    ensures OnItems(data, chunk, offset, [])
  {
    hide *;
    ghost var left := items;
    offset := 4;
    ItemAt(data, chunk, offset, left);
    while data[chunk + offset] != 0
      invariant OnItems(data, chunk, offset, left)
      invariant chunk + offset < |data| && (data[chunk + offset] == 0 <==> left == [])
      decreases |left|
    {
      ItemAt(data, chunk, offset, left);
      offset, left := offset + 2 + data[chunk + offset + 1], left[1..];
      ItemAt(data, chunk, offset, left);
    }
  }

  /** The items of chunk number `num`, counted from one as the cursor does. */
  ghost function ItemsOf(d: seq<byte>, num: nat): seq<Item>
    requires Frame(d)
  {
    if 0 < num <= |ChunksOf(d)| then ChunksOf(d)[num - 1].items else []
  }

  /** The cursor invariant: chunk `num` begins at `pos`, its item number `item` (if it has any) at `offset`. */
  ghost predicate Cursor(d: seq<byte>, pos: nat, num: nat, offset: nat, item: nat)
    requires Frame(d)
  {
    && 0 < num <= |ChunksOf(d)|
    && item <= |ItemsOf(d, num)| && (ItemsOf(d, num) != [] ==> item < |ItemsOf(d, num)|)
    && OnChunk(d, pos, num - 1)
    && OnItems(d, pos, offset, ItemsOf(d, num)[item..])
  }

  lemma CursorOnChunk(d: seq<byte>, pos: nat, num: nat)
    requires Frame(d) && 0 < num && OnChunk(d, pos, num - 1)
    ensures Cursor(d, pos, num, 4, 0)
  {
    ChunkStarts(d, pos, num - 1);
    hide ChunksOf, OnItems;
    assert ItemsOf(d, num)[0..] == ItemsOf(d, num);
  }

  lemma CursorStart(d: seq<byte>)
    requires Frame(d) && ChunksOf(d) != []
    ensures Cursor(d, HEADER_SIZE, 1, 4, 0)
  {
    hide ChunksOf, OnChunk;
    FirstChunk(d);
    CursorOnChunk(d, HEADER_SIZE, 1);
  }

  lemma CursorChunk(d: seq<byte>, pos: nat, num: nat, offset: nat, item: nat)
    requires Frame(d) && Cursor(d, pos, num, offset, item)
    ensures 0 < num <= |ChunksOf(d)|
    ensures pos + 4 <= |d| && Get32(d, pos) == ChunksOf(d)[num - 1].ssrc
    ensures OnItems(d, pos, 4, ItemsOf(d, num))
    ensures Cursor(d, pos, num, 4, 0)
  {
    hide ChunksOf, OnChunk, OnItems, Get32;
    ChunkStarts(d, pos, num - 1);
    CursorOnChunk(d, pos, num);
  }

  lemma CursorNextChunk(d: seq<byte>, pos: nat, num: nat, offset: nat, item: nat, last: nat)
    requires Frame(d) && Cursor(d, pos, num, offset, item)
    requires OnItems(d, pos, last, []) && num < |ChunksOf(d)|
    ensures Cursor(d, pos + RoundUp4(last + 1), num + 1, 4, 0)
  {
    hide ChunksOf, OnChunk, OnItems, RoundUp4;
    ChunkEnds(d, pos, num - 1, last);
    CursorOnChunk(d, pos + RoundUp4(last + 1), num + 1);
  }

  lemma CursorItem(d: seq<byte>, pos: nat, num: nat, offset: nat, item: nat)
    requires Frame(d) && Cursor(d, pos, num, offset, item)
    ensures pos + offset < |d| && (d[pos + offset] == 0 <==> ItemsOf(d, num) == [])
    ensures ItemsOf(d, num) != [] ==> item < |ItemsOf(d, num)| && pos + offset + 1 < |d|
    ensures ItemsOf(d, num) != [] ==>
      var next := offset + 2 + d[pos + offset + 1];
      && pos + next < |d| && (d[pos + next] == 0 <==> item + 1 == |ItemsOf(d, num)|)
      && ItemsOf(d, num)[item] == Item(d[pos + offset], d[pos + offset + 2..pos + next])
      && (item + 1 < |ItemsOf(d, num)| ==> Cursor(d, pos, num, next, item + 1))
  {
    hide ChunksOf, OnChunk, OnItems;
    var items := ItemsOf(d, num);
    ItemAt(d, pos, offset, items[item..]);
    if items != [] {
      var next := offset + 2 + d[pos + offset + 1];
      assert items[item..][1..] == items[item + 1..];
      ItemAt(d, pos, next, items[item + 1..]);
    }
  }

  class SDESPacket {
    const data: seq<byte>
    var knownFormat: bool
    // Offset of the current chunk in the packet; None is the null pointer.
    var currentChunk: Option<nat>
    var curChunkNum: nat
    var itemOffset: nat
    ghost var itemNum: nat

    /** The cursor is nowhere, or on a chunk and on an item of it (or on the end of an empty item list). */
    ghost predicate Valid()
      reads this
    {
      && Frame(data)
      && knownFormat == SdesChunks(data).Some?
      && (currentChunk.Some? ==> knownFormat && Cursor(data, currentChunk.value, curChunkNum, itemOffset, itemNum))
    }

    /** Chunk number, counted from one, and item number of the cursor. */
    ghost function Position(): Option<(nat, nat)>
      reads this
    {
      if currentChunk.None? then None else Some((curChunkNum, itemNum))
    }

    /** The items of the chunk under the cursor. */
    ghost function Items(): seq<Item>
      requires Frame(data)
      reads this
    {
      if currentChunk.None? then [] else ItemsOf(data, curChunkNum)
    }

    /** The item under the cursor, if its chunk has any. */
    ghost function CurrentItem(): Option<Item>
      requires Frame(data)
      reads this
    {
      if itemNum < |Items()| then Some(Items()[itemNum]) else None
    }

    constructor (d: seq<byte>)
      requires Frame(d)
      ensures Valid() && data == d && Position() == None
      ensures knownFormat <==> SdesChunks(d).Some?
    {
      data, knownFormat, currentChunk, curChunkNum, itemOffset, itemNum := d, false, None, 0, 0, 0;
      var known := Validate(d);
      knownFormat := known;
    }

    function GetChunkCount(): (n: nat)
      requires Valid()
      reads this
      ensures n == |ChunksOf(data)|
    {
      if !knownFormat then 0 else Count(data)
    }

    method GotoFirstChunk() returns (ok: bool)
      requires Valid()
      modifies this
      ensures Valid() && ok == (ChunksOf(data) != [])
      ensures Position() == if ok then Some((1, 0)) else None
    {
      hide Cursor, ChunksOf;
      if GetChunkCount() == 0 {
        currentChunk := None;
        return false;
      }
      currentChunk, curChunkNum, itemOffset, itemNum := Some(HEADER_SIZE), 1, 4, 0;
      CursorStart(data);
      assert knownFormat by { assert |ChunksOf(data)| == GetChunkCount() > 0; }
      return true;
    }

    method GotoNextChunk() returns (ok: bool)
      requires Valid()
      modifies this
      ensures Valid()
      ensures ok == (old(Position()).Some? && old(Position()).value.0 < |ChunksOf(data)|)
      ensures Position() == if ok then Some((old(Position()).value.0 + 1, 0)) else old(Position())
    {
      hide Cursor, ChunksOf, OnItems, SdesChunks;
      if !knownFormat {
        return false;
      }
      if currentChunk.None? {
        return false;
      }
      CursorChunk(data, currentChunk.value, curChunkNum, itemOffset, itemNum);
      if curChunkNum == GetChunkCount() {
        return false;
      }
      var offset := SkipItems(data, currentChunk.value, ItemsOf(data, curChunkNum));
      CursorNextChunk(data, currentChunk.value, curChunkNum, itemOffset, itemNum, offset);
      offset := offset + 1;
      if offset % 4 != 0 {
        offset := offset + (4 - offset % 4);
      }
      currentChunk, curChunkNum, itemOffset, itemNum := Some(currentChunk.value + offset), curChunkNum + 1, 4, 0;
      return true;
    }

    function GetChunkSSRC(): (ssrc: u32)
      requires Valid()
      reads this
      ensures currentChunk.Some? ==> 0 < curChunkNum <= |ChunksOf(data)| && ssrc == ChunksOf(data)[curChunkNum - 1].ssrc
    {
      if !knownFormat then 0
      else if currentChunk.None? then 0
      else
        CursorChunk(data, currentChunk.value, curChunkNum, itemOffset, itemNum);
        Get32(data, currentChunk.value)
    }

    method GotoFirstItem() returns (ok: bool)
      requires Valid()
      modifies this
      ensures Valid() && ok == (Items() != [])
      ensures Position() == if old(Position()).Some? then Some((old(Position()).value.0, 0)) else None
    {
      hide Cursor, ItemsOf, SdesChunks;
      if !knownFormat {
        return false;
      }
      if currentChunk.None? {
        return false;
      }
      CursorChunk(data, currentChunk.value, curChunkNum, itemOffset, itemNum);
      itemOffset, itemNum := 4, 0;
      CursorItem(data, currentChunk.value, curChunkNum, itemOffset, itemNum);
      return data[currentChunk.value + itemOffset] != 0;
    }

    method GotoNextItem() returns (ok: bool)
      requires Valid()
      modifies this
      ensures Valid() && Items() == old(Items())
      ensures ok == (old(Position()).Some? && old(Position()).value.1 + 1 < |Items()|)
      ensures Position() == if ok then Some((old(Position()).value.0, old(Position()).value.1 + 1)) else old(Position())
    {
      hide Cursor, ItemsOf, SdesChunks;
      if !knownFormat {
        return false;
      }
      if currentChunk.None? {
        return false;
      }
      CursorItem(data, currentChunk.value, curChunkNum, itemOffset, itemNum);
      if data[currentChunk.value + itemOffset] == 0 {
        return false;
      }
      var offset := itemOffset + 2 + data[currentChunk.value + itemOffset + 1];
      if data[currentChunk.value + offset] == 0 {
        return false;
      }
      itemOffset, itemNum := offset, itemNum + 1;
      return true;
    }

    /** The header octet under the cursor; zero when there is no item. */
    function ItemIdentifier(): (id: byte)
      requires Valid()
      reads this
      ensures id == if CurrentItem().None? then 0 else CurrentItem().value.id
    {
      if !knownFormat then 0
      else if currentChunk.None? then 0
      else
        CursorItem(data, currentChunk.value, curChunkNum, itemOffset, itemNum);
        data[currentChunk.value + itemOffset]
    }

    function GetItemType(): (t: ItemType)
      requires Valid()
      reads this
      ensures t == if CurrentItem().None? then NoItem else TypeOfId(CurrentItem().value.id)
    {
      TypeOfId(ItemIdentifier())
    }

    /** The GetItemLength octets at GetItemData. */
    function GetItemData(): (octets: seq<byte>)
      requires Valid()
      reads this
      ensures octets == if CurrentItem().None? then [] else CurrentItem().value.data
    {
      if ItemIdentifier() == 0 then []
      else
        CursorItem(data, currentChunk.value, curChunkNum, itemOffset, itemNum);
        var pos := currentChunk.value + itemOffset;
        data[pos + 2..pos + 2 + data[pos + 1]]
    }

    /** The octets the PRIV accessors return for the current item: its prefix and its value. */
    function GetPRIV(): (parts: Option<(seq<byte>, seq<byte>)>)
      requires Valid()
      reads this
      ensures parts == if CurrentItem().None? then None else PrivParts(CurrentItem().value)
    {
      hide Cursor, ItemsOf, SdesChunks;
      if ItemIdentifier() != ID_PRIV then None
      else
        var octets := GetItemData();
        if |octets| == 0 || octets[0] > |octets| - 1 then None
        else Some((octets[1..1 + octets[0]], octets[1 + octets[0]..]))
    }

    /**
     * RTPSources' walk over the packet: the cursor visits every chunk and every item, in order, exactly
     * once, and then stops. An item is given by the octet of its header and its data.
     */
    method Visit() returns (visited: seq<Chunk>)
      requires Valid()
      modifies this
      ensures Valid() && visited == ChunksOf(data)
    {
      hide Cursor, ChunksOf;
      visited := [];
      var more := GotoFirstChunk();
      while more
        invariant Valid()
        invariant more ==> Position().Some? && Position().value.0 == |visited| + 1 <= |ChunksOf(data)|
        invariant |visited| <= |ChunksOf(data)| && visited == ChunksOf(data)[..|visited|]
        invariant !more ==> |visited| == |ChunksOf(data)|
        decreases |ChunksOf(data)| - |visited|, more
      {
        var ssrc := GetChunkSSRC();
        var items := VisitItems();
        visited := visited + [Chunk(ssrc, items)];
        more := GotoNextChunk();
      }
    }

    method VisitItems() returns (items: seq<Item>)
      requires Valid() && Position().Some?
      modifies this
      ensures Valid() && Position().Some? && Position().value.0 == old(Position()).value.0
      ensures items == ItemsOf(data, Position().value.0)
    {
      hide Cursor, ItemsOf, SdesChunks, Frame;
      items := [];
      var more := GotoFirstItem();
      while more
        invariant Valid() && Position().Some? && Position().value.0 == old(Position()).value.0
        invariant |items| <= |Items()| && items == Items()[..|items|]
        invariant if more then Position().value.1 == |items| < |Items()| else |items| == |Items()|
        decreases |Items()| - |items|, more
      {
        items := items + [Item(ItemIdentifier(), GetItemData())];
        more := GotoNextItem();
      }
    }
  }
}
