/**
 * RTPSessionEx: video frames are cut into packets by SendMultiPacket and put together again by
 * ProcessRTPPacket, a reorder buffer that skips to the next marker when packets are missing.
 */
module Depacketizer {
  import opened Bytes
  import opened Prelude

  const PACKET_SEQUENCE_DIFF := 5
  const PACKET_BUFFER_SIZE := 25

  datatype Packet = Packet(seqNum: u16, marker: bool, payload: seq<byte>)

  // A frame as it is delivered, and the packets it was put together from.
  datatype Frame = Frame(data: seq<byte>, parts: seq<Packet>)

  /** The depacketizer: the next number (-1 before the first packet), and the packets of the frame so far. */
  datatype State = State(next: int, last: int, counter: nat, buffer: seq<Packet>, parts: seq<Packet>)

  const INITIAL := State(-1, 0, 0, [], [])

  function Payloads(ps: seq<Packet>): (parts: seq<seq<byte>>)
    ensures |parts| == |ps|
  {
    seq(|ps|, i requires 0 <= i < |ps| => ps[i].payload)
  }

  /** The octets the packets carry. */
  function Data(ps: seq<Packet>): seq<byte> {
    Flatten(Payloads(ps))
  }

  lemma DataSnoc(ps: seq<Packet>, p: Packet)
    ensures Data(ps + [p]) == Data(ps) + p.payload
  {
    assert Payloads(ps + [p]) == Payloads(ps) + [p.payload];
    FlattenSnoc(Payloads(ps), p.payload);
  }

  // ---------------------------------------------------------------- one packet arrives

  /** InsertPacketIntoFrame: the marker ends the frame. */
  function Insert(s: State, p: Packet): (State, seq<Frame>) {
    var parts := s.parts + [p];
    if p.marker then (s.(parts := []), [Frame(Data(parts), parts)]) else (s.(parts := parts), [])
  }

  /** The position of the first packet with this number; the length when there is none. */
  function First(buffer: seq<Packet>, n: int): (i: nat)
    ensures i <= |buffer|
    ensures i < |buffer| ==> buffer[i].seqNum == n
    ensures forall j :: 0 <= j < i ==> buffer[j].seqNum != n
  {
    if buffer == [] || buffer[0].seqNum == n then 0 else 1 + First(buffer[1..], n)
  }

  /** Takes the packet at the next number out of the buffer and into the frame. */
  function Take(s: State): (r: (State, seq<Frame>))
    requires First(s.buffer, s.next) < |s.buffer|
    ensures |r.0.buffer| == |s.buffer| - 1
  {
    var i := First(s.buffer, s.next);
    Insert(s.(buffer := Without(s.buffer, i), last := s.next, next := s.next + 1), s.buffer[i])
  }

  /** The rescan loop: packets are inserted for as long as the next one is in the buffer. */
  function Drain(s: State): (State, seq<Frame>)
    decreases |s.buffer|
  {
    if First(s.buffer, s.next) == |s.buffer| then (s, [])
    else
      var (t, fs) := Take(s);
      var (u, gs) := Drain(t);
      (u, fs + gs)
  }

  /** Nothing could be inserted: a marker packet far enough ahead, or after too long a wait, is where to go on. */
  function Skip(s: State, p: Packet): State {
    var counter := s.counter + 1;
    if (counter > PACKET_BUFFER_SIZE || p.seqNum - s.last >= PACKET_SEQUENCE_DIFF) && p.marker
    then s.(counter := 0, parts := [], next := p.seqNum + 1)
    else s.(counter := counter)
  }

  /** The packets that are still to come. */
  function Pending(buffer: seq<Packet>, next: int): seq<Packet> {
    if buffer == [] then []
    else
      var rest := Pending(buffer[1..], next);
      if buffer[0].seqNum < next then rest else [buffer[0]] + rest
  }

  function Arrive(s: State, p: Packet): (State, seq<Frame>) {
    var s1 := s.(next := if s.next == -1 then p.seqNum else s.next, buffer := s.buffer + [p]);
    var (s2, fs) := Drain(s1);
    (Clean(Settle(s1, s2, p)), fs)
  }

  /** After the rescan the wait counter starts again, or goes on. */
  function Settle(s1: State, s2: State, p: Packet): State {
    if s2.next != s1.next then s2.(counter := 0) else Skip(s2, p)
  }

  /** Packets that are no longer wanted leave the buffer. */
  function Clean(s: State): State {
    s.(buffer := Pending(s.buffer, s.next))
  }

  function Run(s: State, ps: seq<Packet>): (State, seq<Frame>)
    decreases |ps|
  {
    if ps == [] then (s, [])
    else
      var (t, fs) := Run(s, ps[..|ps| - 1]);
      var (u, gs) := Arrive(t, ps[|ps| - 1]);
      (u, fs + gs)
  }

  lemma {:induction false} DrainMovesOn(s: State)
    ensures Drain(s).0.next >= s.next
    ensures Drain(s).0.next == s.next <==> First(s.buffer, s.next) == |s.buffer|
    ensures Drain(s).0.next == s.next ==> Drain(s) == (s, [])
    ensures First(Drain(s).0.buffer, Drain(s).0.next) == |Drain(s).0.buffer|
    ensures Drain(s).0.counter == s.counter
    ensures Drain(s).0.next != s.next ==> Drain(s).0.last == Drain(s).0.next - 1
    decreases |s.buffer|
  {
    if First(s.buffer, s.next) < |s.buffer| {
      DrainMovesOn(Take(s).0);
    }
  }

  // ---------------------------------------------------------------- safety, for every arrival order

  ghost predicate From(p: Packet, ps: seq<Packet>) {
    exists i :: 0 <= i < |ps| && ps[i] == p
  }

  /** Where a frame may begin: at the first packet ever received, or right behind a received marker. */
  ghost predicate Start(n: int, ps: seq<Packet>) {
    || (ps != [] && n == ps[0].seqNum)
    || exists i :: 0 <= i < |ps| && ps[i].marker && n == ps[i].seqNum + 1
  }

  /** Received packets with consecutive numbers, no marker among them. */
  ghost predicate Piece(parts: seq<Packet>, ps: seq<Packet>) {
    && (forall i :: 0 <= i < |parts| ==> From(parts[i], ps) && !parts[i].marker)
    && (forall i :: 0 <= i < |parts| ==> parts[i].seqNum == parts[0].seqNum + i)
    && (parts != [] ==> Start(parts[0].seqNum, ps))
  }

  /** A frame is the payloads of a piece and of the marker packet that directly follows it. */
  ghost predicate FrameOk(f: Frame, ps: seq<Packet>) {
    && f.parts != [] && f.data == Data(f.parts)
    && var n := |f.parts| - 1;
       && f.parts[n].marker && From(f.parts[n], ps)
       && Piece(f.parts[..n], ps)
       && f.parts[n].seqNum == f.parts[0].seqNum + n
       && Start(f.parts[0].seqNum, ps)
  }

  /** The next number continues the frame so far, or is where a frame may begin. */
  ghost predicate Sound(s: State, ps: seq<Packet>) {
    && (forall i :: 0 <= i < |s.buffer| ==> From(s.buffer[i], ps))
    && Piece(s.parts, ps)
    && (s.parts != [] ==> s.next == s.parts[0].seqNum + |s.parts|)
    && (s.parts == [] && s.next != -1 ==> Start(s.next, ps))
    && (ps != [] ==> s.next >= 0)
  }

  ghost predicate AllOk(fs: seq<Frame>, ps: seq<Packet>) {
    forall i :: 0 <= i < |fs| ==> FrameOk(fs[i], ps)
  }

  lemma FromMore(p: Packet, ps: seq<Packet>, q: Packet)
    requires From(p, ps)
    ensures From(p, ps + [q])
  {
    var i :| 0 <= i < |ps| && ps[i] == p;
    assert (ps + [q])[i] == p;
  }

  lemma StartMore(n: int, ps: seq<Packet>, q: Packet)
    requires Start(n, ps)
    ensures Start(n, ps + [q])
  {
    if ps != [] && n == ps[0].seqNum {
      assert (ps + [q])[0] == ps[0];
    } else {
      var i :| 0 <= i < |ps| && ps[i].marker && n == ps[i].seqNum + 1;
      assert (ps + [q])[i] == ps[i];
    }
  }

  lemma PieceMore(parts: seq<Packet>, ps: seq<Packet>, q: Packet)
    requires Piece(parts, ps)
    ensures Piece(parts, ps + [q])
  {
    forall i | 0 <= i < |parts| ensures From(parts[i], ps + [q]) {
      FromMore(parts[i], ps, q);
    }
    if parts != [] {
      StartMore(parts[0].seqNum, ps, q);
    }
  }

  lemma FramesMore(fs: seq<Frame>, ps: seq<Packet>, q: Packet)
    requires AllOk(fs, ps)
    ensures AllOk(fs, ps + [q])
  {
    forall i | 0 <= i < |fs| ensures FrameOk(fs[i], ps + [q]) {
      var n := |fs[i].parts| - 1;
      FromMore(fs[i].parts[n], ps, q);
      PieceMore(fs[i].parts[..n], ps, q);
      StartMore(fs[i].parts[0].seqNum, ps, q);
    }
  }

  lemma TakeSound(s: State, ps: seq<Packet>)
    requires Sound(s, ps) && ps != [] && First(s.buffer, s.next) < |s.buffer|
    ensures Sound(Take(s).0, ps) && AllOk(Take(s).1, ps)
  {
    var i := First(s.buffer, s.next);
    var p, parts := s.buffer[i], s.parts + [s.buffer[i]];
    assert From(p, ps);
    assert parts[..|parts| - 1] == s.parts;
    assert s.parts != [] ==> parts[0] == s.parts[0];
    if p.marker {
      var j :| 0 <= j < |ps| && ps[j] == p;
      assert Start(s.next + 1, ps);
    }
  }

  lemma {:induction false} DrainSound(s: State, ps: seq<Packet>)
    requires Sound(s, ps) && ps != []
    ensures Sound(Drain(s).0, ps) && AllOk(Drain(s).1, ps)
    decreases |s.buffer|
  {
    if First(s.buffer, s.next) < |s.buffer| {
      TakeSound(s, ps);
      DrainSound(Take(s).0, ps);
    }
  }

  lemma {:induction false} PendingFrom(buffer: seq<Packet>, next: int, ps: seq<Packet>)
    requires forall i :: 0 <= i < |buffer| ==> From(buffer[i], ps)
    ensures forall i :: 0 <= i < |Pending(buffer, next)| ==> From(Pending(buffer, next)[i], ps)
  {
    if buffer != [] {
      PendingFrom(buffer[1..], next, ps);
    }
  }

  lemma ArriveSound(s: State, ps: seq<Packet>, p: Packet)
    requires Sound(s, ps) && (ps == [] ==> s.next == -1 && s.parts == [])
    ensures Sound(Arrive(s, p).0, ps + [p]) && AllOk(Arrive(s, p).1, ps + [p])
  {
    hide Data, Flatten;
    var qs := ps + [p];
    var s1 := s.(next := if s.next == -1 then p.seqNum else s.next, buffer := s.buffer + [p]);
    assert qs[|ps|] == p && From(p, qs);
    forall i | 0 <= i < |s1.buffer| ensures From(s1.buffer[i], qs) {
      if i < |s.buffer| {
        FromMore(s.buffer[i], ps, p);
      }
    }
    PieceMore(s.parts, ps, p);
    if s.parts == [] && s.next != -1 {
      StartMore(s.next, ps, p);
    }
    assert Sound(s1, qs);
    hide Sound, Drain, Settle, Clean, From, Start, Piece;
    DrainSound(s1, qs);
    DrainMovesOn(s1);
    SettleSound(s1, Drain(s1).0, qs, p);
    CleanSound(Settle(s1, Drain(s1).0, p), qs);
  }

  lemma SettleSound(s1: State, s2: State, ps: seq<Packet>, p: Packet)
    requires Sound(s2, ps) && From(p, ps)
    ensures Sound(Settle(s1, s2, p), ps)
  {
    var i :| 0 <= i < |ps| && ps[i] == p;
    assert p.marker ==> Start(p.seqNum + 1, ps);
  }

  lemma CleanSound(s: State, ps: seq<Packet>)
    requires Sound(s, ps)
    ensures Sound(Clean(s), ps)
  {
    PendingFrom(s.buffer, s.next, ps);
  }

  /**
   * Whatever is lost, duplicated or reordered: every delivered frame is the concatenation of payloads of
   * received packets with consecutive numbers, it ends in its only marker packet, and it begins at the
   * first packet ever received or right behind a received marker packet.
   */
  lemma {:induction false} FramesSound(ps: seq<Packet>)
    ensures Sound(Run(INITIAL, ps).0, ps) && AllOk(Run(INITIAL, ps).1, ps)
    ensures ps == [] ==> Run(INITIAL, ps).0 == INITIAL
    decreases |ps|
  {
    if ps == [] {
      NothingSound();
    } else {
      hide *;
      var rs, p := ps[..|ps| - 1], ps[|ps| - 1];
      assert ps == rs + [p];
      FramesSound(rs);
      RunSnoc(rs, p);
      var (s, fs) := Run(INITIAL, rs);
      ArriveSound(s, rs, p);
      FramesMore(fs, rs, p);
      AllOkAppend(fs, Arrive(s, p).1, ps);
    }
  }

  lemma NothingSound()
    ensures Run(INITIAL, []) == (INITIAL, []) && Sound(INITIAL, []) && AllOk([], [])
  {
  }

  lemma RunSnoc(ps: seq<Packet>, p: Packet)
    ensures var (s, fs) := Run(INITIAL, ps); Run(INITIAL, ps + [p]) == (Arrive(s, p).0, fs + Arrive(s, p).1)
  {
    hide Arrive;
    assert (ps + [p])[..|ps|] == ps;
  }

  lemma AllOkAppend(fs: seq<Frame>, gs: seq<Frame>, ps: seq<Packet>)
    requires AllOk(fs, ps) && AllOk(gs, ps)
    ensures AllOk(fs + gs, ps)
  {
    hide FrameOk;
  }

  // ---------------------------------------------------------------- bounded reordering loses nothing

  /** Packets in their order make these frames, and leave these packets over. */
  function Assemble(ps: seq<Packet>): (seq<Frame>, seq<Packet>) {
    if ps == [] then ([], [])
    else
      var (fs, parts) := Assemble(ps[..|ps| - 1]);
      var (t, gs) := Insert(INITIAL.(parts := parts), ps[|ps| - 1]);
      (fs + gs, t.parts)
  }

  /** The packets of one source, numbered from `base` without a 16-bit wrap. */
  predicate Numbered(stream: seq<Packet>, base: nat) {
    base + |stream| <= 0x1_0000 && forall k :: 0 <= k < |stream| ==> stream[k].seqNum == base + k
  }

  predicate Holds(buffer: seq<Packet>, n: int) {
    First(buffer, n) < |buffer|
  }

  predicate DistinctNumbers(buffer: seq<Packet>) {
    forall i, j :: 0 <= i < j < |buffer| ==> buffer[i].seqNum != buffer[j].seqNum
  }

  /** The first `m` packets are in frames, and the buffer has packets of the stream from `m` up to `m + 3`. */
  ghost predicate InStep(s: State, fs: seq<Frame>, stream: seq<Packet>, base: nat, m: nat) {
    && m <= |stream| && s.next == base + m
    && (fs, s.parts) == Assemble(stream[..m])
    && DistinctNumbers(s.buffer) && Ahead(s.buffer, stream, base, m)
  }

  /** The buffered packets are from the stream, at most three beyond packet `m`. */
  ghost predicate Ahead(buffer: seq<Packet>, stream: seq<Packet>, base: nat, m: nat) {
    forall i :: 0 <= i < |buffer| ==>
      var k := buffer[i].seqNum - base; m <= k < |stream| && k <= m + 3 && buffer[i] == stream[k]
  }

  lemma AheadWithout(buffer: seq<Packet>, i: nat, stream: seq<Packet>, base: nat, m: nat)
    requires Ahead(buffer, stream, base, m) && DistinctNumbers(buffer) && i < |buffer| && buffer[i].seqNum == base + m
    ensures m < |stream| && buffer[i] == stream[m] && Ahead(Without(buffer, i), stream, base, m + 1)
  {
    var t := Without(buffer, i);
    assert forall j :: 0 <= j < |t| ==> t[j] == buffer[if j < i then j else j + 1];
  }

  lemma FirstExactly(buffer: seq<Packet>, n: int)
    ensures Holds(buffer, n) <==> exists i :: 0 <= i < |buffer| && buffer[i].seqNum == n
  {
  }

  /** Taking packet `i` out of the buffer takes out its number only. */
  lemma WithoutHolds(buffer: seq<Packet>, i: nat, n: int)
    requires i < |buffer| && DistinctNumbers(buffer)
    ensures DistinctNumbers(Without(buffer, i))
    ensures Holds(Without(buffer, i), n) <==> Holds(buffer, n) && n != buffer[i].seqNum
  {
    hide Holds, First;
    var t := Without(buffer, i);
    assert forall j :: 0 <= j < |t| ==> t[j] == buffer[if j < i then j else j + 1];
    FirstExactly(buffer, n);
    FirstExactly(t, n);
    if Holds(buffer, n) && n != buffer[i].seqNum {
      var j :| 0 <= j < |buffer| && buffer[j].seqNum == n;
      assert t[if j < i then j else j - 1].seqNum == n;
    }
  }

  lemma AssembleNext(stream: seq<Packet>, m: nat)
    requires m < |stream|
    ensures var (fs, parts) := Assemble(stream[..m]);
      var (t, gs) := Insert(INITIAL.(parts := parts), stream[m]);
      Assemble(stream[..m + 1]) == (fs + gs, t.parts)
  {
    assert stream[..m + 1][..m] == stream[..m];
  }

  /** Packet number `n` is in a frame or in the buffer. */
  predicate Got(s: State, n: int) {
    n < s.next || Holds(s.buffer, n)
  }

  lemma TakeGot(s: State, n: int)
    requires DistinctNumbers(s.buffer) && Holds(s.buffer, s.next)
    ensures DistinctNumbers(Take(s).0.buffer) && Take(s).0.next == s.next + 1 && (Got(Take(s).0, n) <==> Got(s, n))
  {
    WithoutHolds(s.buffer, First(s.buffer, s.next), n);
  }

  lemma {:induction false} DrainGot(s: State, n: int)
    requires DistinctNumbers(s.buffer)
    ensures Got(Drain(s).0, n) <==> Got(s, n)
    decreases |s.buffer|
  {
    if Holds(s.buffer, s.next) {
      TakeGot(s, n);
      DrainGot(Take(s).0, n);
    }
  }

  lemma TakeInStep(s: State, fs: seq<Frame>, stream: seq<Packet>, base: nat, m: nat)
    requires InStep(s, fs, stream, base, m) && Holds(s.buffer, s.next)
    ensures var (t, gs) := Take(s);
      && m < |stream| && InStep(t, fs + gs, stream, base, m + 1) && t.next == s.next + 1
      && t.last == s.next && t.counter == s.counter
  {
    hide Assemble, Data, Without, DistinctNumbers, Ahead;
    var i := First(s.buffer, s.next);
    AheadWithout(s.buffer, i, stream, base, m);
    AssembleNext(stream, m);
    WithoutHolds(s.buffer, i, s.next);
  }

  /** Draining puts packets into frames in their order. */
  lemma {:induction false} DrainInStep(s: State, fs: seq<Frame>, stream: seq<Packet>, base: nat)
    requires s.next >= base && InStep(s, fs, stream, base, s.next - base)
    ensures Drain(s).0.next >= base && InStep(Drain(s).0, fs + Drain(s).1, stream, base, Drain(s).0.next - base)
    decreases |s.buffer|
  {
    hide InStep, Take, Assemble, Insert;
    DrainMovesOn(s);
    if Holds(s.buffer, s.next) {
      TakeInStep(s, fs, stream, base, s.next - base);
      DrainInStep(Take(s).0, fs + Take(s).1, stream, base);
      var gs, hs := Take(s).1, Drain(Take(s).0).1;
      assert fs + gs + hs == fs + (gs + hs);
    } else {
      assert fs + [] == fs;
    }
  }

  // ---------------------------------------------------------------- the arrival order

  /** Packet `k` arrives once, and only after all packets up to `k - 4`; the first packet arrives first. */
  ghost predicate NearlyOrdered(order: seq<nat>, n: nat) {
    && |order| == n
    && (order != [] ==> order[0] == 0)
    && (forall t :: 0 <= t < |order| ==> order[t] < n)
    && (forall t, u :: 0 <= t < u < |order| ==> order[t] != order[u])
    && (forall t :: 0 <= t < |order| ==> Ready(order, t))
  }

  ghost predicate Ready(order: seq<nat>, t: nat)
    requires t < |order|
  {
    forall j: nat :: j + 4 <= order[t] ==> Among(order[..t], j)
  }

  ghost predicate Among(order: seq<nat>, j: nat) {
    exists u :: 0 <= u < |order| && order[u] == j
  }

  function Arrivals(stream: seq<Packet>, order: seq<nat>): (ps: seq<Packet>)
    requires forall t :: 0 <= t < |order| ==> order[t] < |stream|
    ensures |ps| == |order|
  {
    seq(|order|, t requires 0 <= t < |order| => stream[order[t]])
  }

  /** The state after the packets `order`: exactly they are got, and the wait counter is no more than the buffer. */
  ghost predicate Reached(s: State, fs: seq<Frame>, stream: seq<Packet>, base: nat, order: seq<nat>) {
    && s.next >= base && InStep(s, fs, stream, base, s.next - base) && !Holds(s.buffer, s.next)
    && s.last == s.next - 1 && s.counter <= |s.buffer|
    && forall k: nat :: k < |stream| ==> (Got(s, base + k) <==> Among(order, k))
  }

  /** Four distinct numbers above `lo` cannot all be within three of it. */
  lemma FewDistinct(buffer: seq<Packet>, lo: int)
    requires DistinctNumbers(buffer) && forall i :: 0 <= i < |buffer| ==> buffer[i].seqNum > lo
    ensures |buffer| >= 4 ==> exists i :: 0 <= i < 4 && buffer[i].seqNum > lo + 3
  {
    if |buffer| >= 4 {
      var a, b, c, d := buffer[0].seqNum, buffer[1].seqNum, buffer[2].seqNum, buffer[3].seqNum;
      assert a != b && a != c && a != d && b != c && b != d && c != d;
      assert a > lo + 3 || b > lo + 3 || c > lo + 3 || d > lo + 3;
    }
  }

  lemma AmongSnoc(order: seq<nat>, k: nat, j: nat)
    ensures Among(order + [k], j) <==> Among(order, j) || j == k
  {
    if Among(order, j) {
      var u :| 0 <= u < |order| && order[u] == j;
      assert (order + [k])[u] == j;
    }
    assert (order + [k])[|order|] == k;
  }

  lemma HoldsSnoc(buffer: seq<Packet>, p: Packet, n: int)
    ensures Holds(buffer + [p], n) <==> Holds(buffer, n) || n == p.seqNum
  {
    FirstExactly(buffer, n);
    FirstExactly(buffer + [p], n);
    hide Holds;
    if Holds(buffer, n) {
      var i :| 0 <= i < |buffer| && buffer[i].seqNum == n;
      assert (buffer + [p])[i].seqNum == n;
    }
    assert (buffer + [p])[|buffer|] == p;
  }

  /** Packets that are still to come stay in the buffer. */
  lemma {:induction false} PendingAll(buffer: seq<Packet>, next: int)
    requires forall i :: 0 <= i < |buffer| ==> buffer[i].seqNum >= next
    ensures Pending(buffer, next) == buffer
  {
    if buffer != [] {
      PendingAll(buffer[1..], next);
    }
  }

  /** The buffer before the rescan, with the packet that has just arrived. */
  lemma PushInStep(s: State, fs: seq<Frame>, stream: seq<Packet>, base: nat, order: seq<nat>, k: nat)
    requires Numbered(stream, base) && k < |stream| && Reached(s, fs, stream, base, order)
    requires !Among(order, k) && (forall j: nat :: j + 4 <= k ==> Among(order, j))
    ensures InStep(s.(buffer := s.buffer + [stream[k]]), fs, stream, base, s.next - base)
    ensures s.next <= stream[k].seqNum <= s.next + 3
  {
    var m, p := s.next - base, stream[k];
    assert !Got(s, base + k);
    assert k >= m;
    assert !Got(s, base + m);
    assert !Among(order, m);
    var t := s.buffer + [p];
    FirstExactly(s.buffer, p.seqNum);
    assert DistinctNumbers(t) by {
      forall i, j | 0 <= i < j < |t| ensures t[i].seqNum != t[j].seqNum {
        assert t[i] == s.buffer[i];
        if j < |s.buffer| {
          assert t[j] == s.buffer[j];
        } else {
          assert t[j] == p && !Holds(s.buffer, p.seqNum);
        }
      }
    }
  }

  /** No packet that may arrive makes the depacketizer skip. */
  lemma NoSkip(s: State, p: Packet)
    requires DistinctNumbers(s.buffer) && s.last == s.next - 1 && s.counter + 1 <= |s.buffer| && p.seqNum <= s.next + 3
    requires forall i :: 0 <= i < |s.buffer| ==> s.next < s.buffer[i].seqNum <= s.next + 3
    ensures Skip(s, p) == s.(counter := s.counter + 1)
  {
    FewDistinct(s.buffer, s.next);
  }

  lemma ArriveIs(s: State, p: Packet)
    requires s.next != -1
    ensures var s1 := s.(buffer := s.buffer + [p]); Arrive(s, p) == (Clean(Settle(s1, Drain(s1).0, p)), Drain(s1).1)
  {
    hide Drain, Clean, Settle;
  }

  /** Arrival of the next packet of a nearly ordered stream. */
  lemma ArriveReached(s: State, fs: seq<Frame>, stream: seq<Packet>, base: nat, order: seq<nat>, k: nat)
    requires Numbered(stream, base) && k < |stream| && Reached(s, fs, stream, base, order)
    requires !Among(order, k) && (forall j: nat :: j + 4 <= k ==> Among(order, j))
    ensures var (u, gs) := Arrive(s, stream[k]); Reached(u, fs + gs, stream, base, order + [k])
  {
    hide Drain, InStep, Numbered, Arrive, Among, Got, Clean, Settle, Holds;
    var p := stream[k];
    var s1 := s.(buffer := s.buffer + [p]);
    PushInStep(s, fs, stream, base, order, k);
    ArriveGot(s, stream, base, order, k);
    ArriveIs(s, p);
    RescanKeeps(s1, Drain(s1).0, Drain(s1).1, fs, stream, base, p);
    SameGot(Drain(s1).0, Arrive(s, p).0);
  }

  /** Where the rescan ends. */
  lemma Drained(s: State)
    ensures var t := Drain(s).0;
            && !Holds(t.buffer, t.next) && (t.next == s.next ==> t == s)
            && (t.next != s.next ==> t.last == t.next - 1)
  {
    DrainMovesOn(s);
    FirstExactly(Drain(s).0.buffer, Drain(s).0.next);
    hide Drain;
  }

  /** What happens after the rescan takes nothing away. */
  lemma RescanKeeps(s1: State, s2: State, gs: seq<Frame>, fs: seq<Frame>, stream: seq<Packet>, base: nat, p: Packet)
    requires s1.next >= base && s1.last == s1.next - 1 && s1.counter + 1 <= |s1.buffer| && p.seqNum <= s1.next + 3
    requires InStep(s1, fs, stream, base, s1.next - base) && (s2, gs) == Drain(s1)
    ensures var u := Clean(Settle(s1, s2, p));
      && u == s2.(counter := u.counter) && u.last == u.next - 1 && u.counter <= |u.buffer|
      && u.next >= base && InStep(u, fs + gs, stream, base, u.next - base) && !Holds(u.buffer, u.next)
  {
    hide Drain, InStep, Settle, Clean, Holds;
    DrainInStep(s1, fs, stream, base);
    Drained(s1);
    SettleKeeps(s1, s2, fs, stream, base, p);
    StayInStep(s2, fs + gs, stream, base);
    CleanKeeps(Settle(s1, s2, p));
    SameStep(s2, Settle(s1, s2, p), fs + gs, stream, base);
  }

  lemma SettleKeeps(s1: State, s2: State, fs: seq<Frame>, stream: seq<Packet>, base: nat, p: Packet)
    requires s1.next >= base && InStep(s1, fs, stream, base, s1.next - base)
    requires s1.last == s1.next - 1 && s1.counter + 1 <= |s1.buffer| && p.seqNum <= s1.next + 3
    requires !Holds(s2.buffer, s2.next) && (s2.next == s1.next ==> s2 == s1)
             && (s2.next != s1.next ==> s2.last == s2.next - 1)
    ensures var s3 := Settle(s1, s2, p);
      s3 == s2.(counter := s3.counter) && s3.last == s3.next - 1 && s3.counter <= |s3.buffer|
  {
    if s2.next == s1.next {
      StayInStep(s1, fs, stream, base);
      hide InStep, Skip;
      NoSkip(s1, p);
    }
  }

  lemma CleanKeeps(s: State)
    requires forall i :: 0 <= i < |s.buffer| ==> s.buffer[i].seqNum >= s.next
    ensures Clean(s) == s
  {
    PendingAll(s.buffer, s.next);
  }

  lemma SameStep(s: State, t: State, fs: seq<Frame>, stream: seq<Packet>, base: nat)
    requires s.next >= base && InStep(s, fs, stream, base, s.next - base) && t == s.(counter := t.counter)
    ensures InStep(t, fs, stream, base, t.next - base)
  {
    hide Assemble;
  }

  lemma StayInStep(s: State, fs: seq<Frame>, stream: seq<Packet>, base: nat)
    requires s.next >= base && InStep(s, fs, stream, base, s.next - base) && !Holds(s.buffer, s.next)
    ensures DistinctNumbers(s.buffer)
    ensures forall i :: 0 <= i < |s.buffer| ==> s.next < s.buffer[i].seqNum <= s.next + 3
  {
    FirstExactly(s.buffer, s.next);
    hide Assemble, Holds;
  }

  lemma SameGot(s: State, t: State)
    requires s.next == t.next && s.buffer == t.buffer
    ensures forall n :: Got(s, n) <==> Got(t, n)
  {
  }

  lemma ArriveGot(s: State, stream: seq<Packet>, base: nat, order: seq<nat>, k: nat)
    requires Numbered(stream, base) && k < |stream| && DistinctNumbers(s.buffer + [stream[k]])
    requires forall j: nat :: j < |stream| ==> (Got(s, base + j) <==> Among(order, j))
    ensures var s2 := Drain(s.(buffer := s.buffer + [stream[k]])).0;
      forall j: nat :: j < |stream| ==> (Got(s2, base + j) <==> Among(order + [k], j))
  {
    var s1 := s.(buffer := s.buffer + [stream[k]]);
    forall j: nat | j < |stream|
      ensures Got(Drain(s1).0, base + j) <==> Among(order + [k], j)
    {
      DrainGot(s1, base + j);
      HoldsSnoc(s.buffer, stream[k], base + j);
      AmongSnoc(order, k, j);
    }
  }

  /** The first packet sets the next number. */
  lemma ArriveFirst(p: Packet)
    ensures Arrive(INITIAL, p) == Arrive(State(p.seqNum, p.seqNum - 1, 0, [], []), p)
  {
    assert [] + [p] == [p];
    assert First([p], p.seqNum) == 0;
  }

  lemma NothingReached(stream: seq<Packet>, base: nat)
    ensures Reached(State(base, base - 1, 0, [], []), [], stream, base, [])
  {
    assert stream[..0] == [];
  }

  /** The state after each prefix of a nearly ordered arrival. */
  lemma {:induction false} RunReached(stream: seq<Packet>, base: nat, order: seq<nat>, t: nat)
    requires Numbered(stream, base) && NearlyOrdered(order, |stream|) && 0 < t <= |order|
    ensures var (s, fs) := Run(INITIAL, Arrivals(stream, order[..t]));
      Reached(s, fs, stream, base, order[..t])
    decreases t
  {
    var ps := Arrivals(stream, order[..t]);
    assert order[..t] == order[..t - 1] + [order[t - 1]];
    assert ps[..t - 1] == Arrivals(stream, order[..t - 1]) && ps[t - 1] == stream[order[t - 1]];
    assert Ready(order, t - 1);
    assert !Among(order[..t - 1], order[t - 1]);
    hide Arrive, Reached;
    if t == 1 {
      NothingReached(stream, base);
      ArriveFirst(stream[0]);
      assert order[..0] == [] && ps[..0] == [];
      assert Run(INITIAL, ps[..0]) == (INITIAL, []);
      ArriveReached(State(base, base - 1, 0, [], []), [], stream, base, [], 0);
    } else {
      RunReached(stream, base, order, t - 1);
      var (s, fs) := Run(INITIAL, ps[..t - 1]);
      ArriveReached(s, fs, stream, base, order[..t - 1], order[t - 1]);
    }
  }

  /** When all packets have arrived, all are in frames: those the stream makes in its own order. */
  lemma AllReached(s: State, fs: seq<Frame>, stream: seq<Packet>, base: nat, order: seq<nat>)
    requires Numbered(stream, base) && Reached(s, fs, stream, base, order)
    requires forall k: nat :: k < |stream| ==> Among(order, k)
    ensures (fs, s.parts) == Assemble(stream) && s.buffer == [] && s.next == base + |stream|
  {
    var m: nat := s.next - base;
    assert !Got(s, base + m);
    assert m < |stream| ==> Among(order, m);
    assert m == |stream|;
    assert stream[..m] == stream;
    assert |s.buffer| == 0;
  }

  /** The numbers below n. */
  function Below(n: nat): (r: set<nat>)
    ensures |r| == n && forall k: nat :: k in r <==> k < n
  {
    if n == 0 then {} else Below(n - 1) + {n - 1}
  }

  function Elements(order: seq<nat>): (r: set<nat>)
    ensures forall k: nat :: k in r <==> k in order
  {
    if order == [] then {} else Elements(order[1..]) + {order[0]}
  }

  lemma {:induction false} ElementsDistinct(order: seq<nat>)
    requires forall t, u :: 0 <= t < u < |order| ==> order[t] != order[u]
    ensures |Elements(order)| == |order|
  {
    if order != [] {
      ElementsDistinct(order[1..]);
      assert order[0] !in order[1..];
    }
  }

  /** Every number below n is in a list of n distinct ones. */
  lemma Pigeonhole(order: seq<nat>, n: nat)
    requires |order| == n && (forall t :: 0 <= t < n ==> order[t] < n)
    requires forall t, u :: 0 <= t < u < n ==> order[t] != order[u]
    ensures forall k: nat :: k < n ==> Among(order, k)
  {
    ElementsDistinct(order);
    SubsetSameSize(Elements(order), Below(n));
    forall k: nat | k < n ensures Among(order, k) {
      assert k in Elements(order);
    }
  }

  lemma {:induction false} SubsetSameSize(a: set<nat>, b: set<nat>)
    requires a <= b && |a| == |b|
    ensures a == b
  {
    if a != b {
      var x :| x in b && x !in a;
      assert a <= b - {x};
      SubsetSize(a, b - {x});
    }
  }

  lemma {:induction false} SubsetSize(a: set<nat>, b: set<nat>)
    requires a <= b
    ensures |a| <= |b|
  {
    if a != {} {
      var x :| x in a;
      SubsetSize(a - {x}, b - {x});
    }
  }

  /**
   * Bounded reordering is undone: when the packets arrive lowest first, each no more than four ahead of
   * the last inserted number, exactly the frames of the stream are delivered, in order.
   */
  lemma ReorderingUndone(stream: seq<Packet>, base: nat, order: seq<nat>)
    requires stream != [] && Numbered(stream, base) && NearlyOrdered(order, |stream|)
    ensures var (s, fs) := Run(INITIAL, Arrivals(stream, order));
      (fs, s.parts) == Assemble(stream) && s.buffer == []
  {
    EndReached(stream, base, order);
  }

  // ---------------------------------------------------------------- markers are frames, or lost

  function Markers(ps: seq<Packet>): nat {
    if ps == [] then 0 else (if ps[0].marker then 1 else 0) + Markers(ps[1..])
  }

  lemma {:induction false} MarkersAppend(a: seq<Packet>, b: seq<Packet>)
    ensures Markers(a + b) == Markers(a) + Markers(b)
  {
    if a == [] {
      assert a + b == b;
    } else {
      assert (a + b)[1..] == a[1..] + b;
      MarkersAppend(a[1..], b);
    }
  }

  lemma MarkersSnoc(ps: seq<Packet>, p: Packet)
    ensures Markers(ps + [p]) == Markers(ps) + if p.marker then 1 else 0
  {
    MarkersAppend(ps, [p]);
    assert [p][1..] == [];
  }

  lemma MarkersWithout(ps: seq<Packet>, i: nat)
    requires i < |ps|
    ensures Markers(Without(ps, i)) == Markers(ps) - if ps[i].marker then 1 else 0
  {
    hide Markers, Without;
    var a, b := ps[..i], ps[i + 1..];
    Around(ps, i);
    MarkersAppend(a, [ps[i]] + b);
    MarkersAppend(a, b);
    MarkersCons(ps[i], b);
  }

  lemma MarkersCons(p: Packet, ps: seq<Packet>)
    ensures Markers([p] + ps) == Markers(ps) + if p.marker then 1 else 0
  {
    assert ([p] + ps)[1..] == ps;
  }

  /** A frame is delivered for each marker that leaves the buffer in the rescan. */
  lemma {:induction false} DrainMarkers(s: State)
    ensures |Drain(s).1| + Markers(Drain(s).0.buffer) == Markers(s.buffer)
    decreases |s.buffer|
  {
    if First(s.buffer, s.next) < |s.buffer| {
      MarkersWithout(s.buffer, First(s.buffer, s.next));
      DrainMarkers(Take(s).0);
    }
  }

  lemma {:induction false} PendingMarkers(buffer: seq<Packet>, next: int)
    ensures Markers(Pending(buffer, next)) <= Markers(buffer)
  {
    if buffer != [] {
      PendingMarkers(buffer[1..], next);
      MarkersCons(buffer[0], Pending(buffer[1..], next));
    }
  }

  /** Frames delivered and markers in the buffer are never more than the markers received. */
  lemma ArriveMarkers(s: State, p: Packet)
    ensures var (u, fs) := Arrive(s, p);
      |fs| + Markers(u.buffer) <= Markers(s.buffer) + if p.marker then 1 else 0
  {
    var s1 := s.(next := if s.next == -1 then p.seqNum else s.next, buffer := s.buffer + [p]);
    MarkersSnoc(s.buffer, p);
    DrainMarkers(s1);
    var s3 := Settle(s1, Drain(s1).0, p);
    PendingMarkers(s3.buffer, s3.next);
    hide Drain;
  }

  /** For every arrival order: what `ps` adds in frames and buffered markers is no more than its markers. */
  lemma {:induction false} RunMarkers(s: State, ps: seq<Packet>)
    ensures var (u, fs) := Run(s, ps); |fs| + Markers(u.buffer) <= Markers(s.buffer) + Markers(ps)
    decreases |ps|
  {
    if ps != [] {
      var rs, p := ps[..|ps| - 1], ps[|ps| - 1];
      assert ps == rs + [p];
      RunMarkers(s, rs);
      ArriveMarkers(Run(s, rs).0, p);
      MarkersSnoc(rs, p);
    }
  }

  lemma {:induction false} RunAppend(s: State, a: seq<Packet>, b: seq<Packet>)
    ensures var (t, fs) := Run(s, a); var (u, gs) := Run(t, b); Run(s, a + b) == (u, fs + gs)
    decreases |b|
  {
    hide Arrive;
    var (t, fs) := Run(s, a);
    if b == [] {
      assert a + b == a && fs + [] == fs;
    } else {
      var n := |b| - 1;
      RunAppend(s, a, b[..n]);
      assert (a + b)[..|a + b| - 1] == a + b[..n] && (a + b)[|a + b| - 1] == b[n];
      var (u, gs) := Run(t, b[..n]);
      var (v, hs) := Arrive(u, b[n]);
      assert fs + gs + hs == fs + (gs + hs);
    }
  }

  /** Each marker of a stream makes one frame. */
  lemma {:induction false} AssembleMarkers(ps: seq<Packet>)
    ensures |Assemble(ps).0| == Markers(ps)
    decreases |ps|
  {
    if ps != [] {
      var rs := ps[..|ps| - 1];
      assert ps == rs + [ps[|ps| - 1]];
      AssembleMarkers(rs);
      MarkersSnoc(rs, ps[|ps| - 1]);
    }
  }

  // ---------------------------------------------------------------- packets in order, across a wrap

  /** Packets of one source in order; the number goes back to zero after 65535. */
  predicate WrapNumbered(stream: seq<Packet>, base: nat) {
    base < 0x1_0000 && forall k :: 0 <= k < |stream| ==> stream[k].seqNum == (base + k) % 0x1_0000
  }

  function InOrder(n: nat): (order: seq<nat>)
    ensures |order| == n && forall t :: 0 <= t < n ==> order[t] == t
  {
    seq(n, t => t)
  }

  lemma InOrderNearly(n: nat)
    ensures NearlyOrdered(InOrder(n), n)
  {
    var order := InOrder(n);
    forall t | 0 <= t < n ensures Ready(order, t) {
      forall j: nat | j + 4 <= order[t] ensures Among(order[..t], j) {
        assert order[..t][j] == j;
      }
    }
  }

  /** No packet below the next number is inserted, and a marker with such a number is lost. */
  lemma OldMarkerLost(s: State, p: Packet)
    requires s.next != -1 && p.seqNum < s.next && p.marker && s.buffer == []
    ensures Arrive(s, p).1 == [] && Arrive(s, p).0.buffer == []
  {
    var s1 := s.(buffer := s.buffer + [p]);
    assert s1.buffer == [p];
    assert First(s1.buffer, s1.next) == 1 by { assert [p][1..] == []; }
    assert Drain(s1) == (s1, []);
    assert [p][1..] == [];
    var s3 := Settle(s1, s1, p);
    assert s3.buffer == [p] && p.seqNum < s3.next;
    assert Pending([], s3.next) == [];
  }

  lemma OldPacketLost(s: State, p: Packet)
    requires s.next != -1 && p.seqNum < s.next && !p.marker && s.buffer == []
    ensures var (u, fs) := Arrive(s, p); fs == [] && u.buffer == [] && u.next == s.next
  {
    var s1 := s.(buffer := s.buffer + [p]);
    assert s1.buffer == [p];
    assert First(s1.buffer, s1.next) == 1 by { assert [p][1..] == []; }
    assert Drain(s1) == (s1, []);
    assert [p][1..] == [];
    var s3 := Settle(s1, s1, p);
    assert s3.buffer == [p] && p.seqNum < s3.next;
    assert Pending([], s3.next) == [];
  }

  /** Packets from zero on, when number 65536 is waited for: the first marker among them is lost. */
  lemma {:induction false} AfterWrap(s: State, ps: seq<Packet>)
    requires s.next == 0x1_0000 && s.buffer == [] && Markers(ps) > 0
    ensures var (u, fs) := Run(s, ps); |fs| + Markers(u.buffer) < Markers(ps)
    decreases |ps|
  {
    assert ps != [];
    var p, rest := ps[0], ps[1..];
    assert ps == [p] + rest;
    assert [p][..0] == [];
    assert Run(s, []) == (s, []);
    assert Run(s, [p]) == (Arrive(s, p).0, [] + Arrive(s, p).1);
    RunAppend(s, [p], rest);
    if p.marker {
      OldMarkerLost(s, p);
      RunMarkers(Arrive(s, p).0, rest);
    } else {
      OldPacketLost(s, p);
      AfterWrap(Arrive(s, p).0, rest);
    }
  }

  /** A stream whose numbers wrap loses a frame, even in order. */
  lemma WrapLoses(stream: seq<Packet>, base: nat)
    requires stream != [] && WrapNumbered(stream, base) && stream[|stream| - 1].marker && base + |stream| > 0x1_0000
    ensures |Run(INITIAL, stream).1| < |Assemble(stream).0|
  {
    var a, b := stream[..0x1_0000 - base], stream[0x1_0000 - base..];
    assert stream == a + b;
    LastMarker(b);
    AssembleMarkers(stream);
    MarkersAppend(a, b);
    WholeInOrder(a, base);
    hide Run, Assemble, Markers;
    RunAppend(INITIAL, a, b);
    RunMarkers(INITIAL, a);
    NoMarkers();
    AfterWrap(Run(INITIAL, a).0, b);
  }

  lemma NoMarkers()
    ensures Markers([]) == 0
  {
  }

  /**
   * A stream that arrives in order is delivered exactly if and only if its numbers do not wrap: the next
   * number is not reduced modulo 65536, so that after 65535 the marker that comes next is lost.
   */
  lemma InOrderExact(stream: seq<Packet>, base: nat)
    requires stream != [] && WrapNumbered(stream, base) && stream[|stream| - 1].marker
    ensures Run(INITIAL, stream).1 == Assemble(stream).0 <==> base + |stream| <= 0x1_0000
  {
    hide Run, Assemble, WrapNumbered;
    if base + |stream| <= 0x1_0000 {
      WholeInOrder(stream, base);
    } else {
      WrapLoses(stream, base);
    }
  }

  lemma LastMarker(ps: seq<Packet>)
    requires ps != [] && ps[|ps| - 1].marker
    ensures Markers(ps) > 0
  {
    assert ps == ps[..|ps| - 1] + [ps[|ps| - 1]];
    MarkersSnoc(ps[..|ps| - 1], ps[|ps| - 1]);
  }

  lemma WholeInOrder(stream: seq<Packet>, base: nat)
    requires stream != [] && WrapNumbered(stream, base) && base + |stream| <= 0x1_0000
    ensures var (s, fs) := Run(INITIAL, stream);
      (fs, s.parts) == Assemble(stream) && s.buffer == [] && s.next == base + |stream|
  {
    var order := InOrder(|stream|);
    InOrderNearly(|stream|);
    assert Numbered(stream, base) && Arrivals(stream, order) == stream;
    hide Run, NearlyOrdered, Assemble, Arrivals;
    EndReached(stream, base, order);
  }

  /** The state at the end of a nearly ordered arrival. */
  lemma EndReached(stream: seq<Packet>, base: nat, order: seq<nat>)
    requires stream != [] && Numbered(stream, base) && NearlyOrdered(order, |stream|)
    ensures var (s, fs) := Run(INITIAL, Arrivals(stream, order));
      (fs, s.parts) == Assemble(stream) && s.buffer == [] && s.next == base + |stream|
  {
    Pigeonhole(order, |stream|);
    assert order[..|order|] == order;
    hide Run, Assemble, Ready;
    RunReached(stream, base, order, |order|);
    var (s, fs) := Run(INITIAL, Arrivals(stream, order));
    AllReached(s, fs, stream, base, order);
  }

  // ---------------------------------------------------------------- recovery after a loss

  /** The packet with the next number is neither this one nor in the buffer. */
  predicate InsertsNothing(s: State, p: Packet) {
    s.next != -1 && p.seqNum != s.next && forall i :: 0 <= i < |s.buffer| ==> s.buffer[i].seqNum != s.next
  }

  lemma PendingExact(buffer: seq<Packet>, next: int)
    ensures forall q: Packet ::
      multiset(Pending(buffer, next))[q] == if q.seqNum < next then 0 else multiset(buffer)[q]
  {
    if buffer != [] {
      PendingExact(buffer[1..], next);
      assert buffer == [buffer[0]] + buffer[1..];
    }
  }

  /** What the buffer holds after the cleanup. */
  lemma PendingHolds(buffer: seq<Packet>, next: int, q: Packet)
    ensures q in Pending(buffer, next) <==> q in buffer && q.seqNum >= next
  {
    PendingExact(buffer, next);
    hide Pending;
    assert q in Pending(buffer, next) <==> multiset(Pending(buffer, next))[q] > 0;
    assert q in buffer <==> multiset(buffer)[q] > 0;
  }

  lemma NothingDrained(s: State, p: Packet)
    requires InsertsNothing(s, p)
    ensures var t := s.(buffer := s.buffer + [p]); Drain(t) == (t, []) && Arrive(s, p) == (Clean(Skip(t, p)), [])
  {
    var t := s.(buffer := s.buffer + [p]);
    FirstExactly(t.buffer, t.next);
  }

  /**
   * A marker packet that inserts nothing is skipped to if it is at least 5 ahead of the last inserted number, or more
   * than 25 arrivals in a row have inserted nothing: the frame in progress is dropped.
   */
  lemma SkipsExactly(s: State, p: Packet)
    requires InsertsNothing(s, p)
    ensures var (u, fs) := Arrive(s, p);
      && fs == [] && u.last == s.last
      && (forall q :: q in u.buffer <==> (q in s.buffer || q == p) && q.seqNum >= u.next)
      && if p.marker && (p.seqNum - s.last >= 5 || s.counter >= 25)
         then u.next == p.seqNum + 1 && u.parts == [] && u.counter == 0
         else u.next == s.next && u.parts == s.parts && u.counter == s.counter + 1
  {
    NothingDrained(s, p);
    var t := Skip(s.(buffer := s.buffer + [p]), p);
    hide Drain, Arrive, Pending;
    forall q: Packet ensures q in Clean(t).buffer <==> (q in s.buffer || q == p) && q.seqNum >= t.next {
      PendingHolds(t.buffer, t.next, q);
    }
  }

  /** The packet that is waited for is inserted, with those that wait for it, and the counting starts again. */
  lemma InsertsExactly(s: State, p: Packet)
    requires p.seqNum == s.next || s.next == -1
    ensures var (u, fs) := Arrive(s, p);
      u.next > p.seqNum && u.last == u.next - 1 && u.counter == 0
      && forall q :: q in u.buffer ==> (q in s.buffer || q == p) && q.seqNum > u.next
  {
    var s1 := s.(next := p.seqNum, buffer := s.buffer + [p]);
    FirstExactly(s1.buffer, p.seqNum);
    assert s1.buffer[|s.buffer|] == p;
    DrainMovesOn(s1);
    DrainKeepsFrom(s1);
    var t := Drain(s1).0;
    hide Drain, Pending;
    assert Arrive(s, p).0 == Clean(t.(counter := 0));
    FirstExactly(t.buffer, t.next);
    assert forall q :: q in t.buffer ==> q.seqNum != t.next;
    forall q | q in Clean(t.(counter := 0)).buffer
      ensures (q in s.buffer || q == p) && q.seqNum > t.next
    {
      PendingHolds(t.buffer, t.next, q);
    }
  }

  lemma {:induction false} DrainKeepsFrom(s: State)
    ensures forall q :: q in Drain(s).0.buffer ==> q in s.buffer
    decreases |s.buffer|
  {
    if First(s.buffer, s.next) < |s.buffer| {
      var i := First(s.buffer, s.next);
      var t := Take(s).0;
      forall q | q in t.buffer ensures q in s.buffer {
        assert q in Without(s.buffer, i);
      }
      DrainKeepsFrom(t);
    }
  }

  /** Arrivals that insert nothing and are not skipped to are counted. */
  ghost predicate Waits(s: State, ps: seq<Packet>) {
    s.next != -1 && forall i :: 0 <= i < |ps| ==> ps[i].seqNum != s.next && !ps[i].marker
  }

  lemma {:induction false} StillWaits(s: State, ps: seq<Packet>)
    requires Waits(s, ps) && forall q :: q in s.buffer ==> q.seqNum != s.next
    ensures var (u, fs) := Run(s, ps);
      && fs == [] && u.next == s.next && u.last == s.last && u.parts == s.parts && u.counter == s.counter + |ps|
      && forall q :: q in u.buffer ==> (q in s.buffer || q in ps) && q.seqNum != s.next
    decreases |ps|
  {
    if ps != [] {
      var n := |ps| - 1;
      hide Arrive;
      StillWaits(s, ps[..n]);
      var t := Run(s, ps[..n]).0;
      assert InsertsNothing(t, ps[n]) by {
        forall i | 0 <= i < |t.buffer| ensures t.buffer[i].seqNum != t.next {
          assert t.buffer[i] in t.buffer;
        }
      }
      SkipsExactly(t, ps[n]);
    }
  }

  // The packets that are waiting belong to the stream that is to be received.

  ghost predicate OfStream(buffer: seq<Packet>, stream: seq<Packet>, base: nat) {
    forall q :: q in buffer ==> base <= q.seqNum < base + |stream| && q == stream[q.seqNum - base]
  }

  ghost predicate Waiting(buffer: seq<Packet>, n: int) {
    exists i :: 0 <= i < |buffer| && buffer[i].seqNum == n
  }

  /** The first `m` packets are in frames. */
  ghost predicate Assembled(s: State, fs: seq<Frame>, stream: seq<Packet>, base: nat, m: nat) {
    && m <= |stream| && s.next == base + m && (fs, s.parts) == Assemble(stream[..m]) && OfStream(s.buffer, stream, base)
  }

  lemma WaitingWithout(buffer: seq<Packet>, i: nat, n: int)
    requires i < |buffer| && buffer[i].seqNum != n
    ensures Waiting(Without(buffer, i), n) <==> Waiting(buffer, n)
  {
    var t := Without(buffer, i);
    if Waiting(buffer, n) {
      var j :| 0 <= j < |buffer| && buffer[j].seqNum == n;
      assert t[if j < i then j else j - 1].seqNum == n;
    }
  }

  lemma TakeAssembled(s: State, fs: seq<Frame>, stream: seq<Packet>, base: nat, m: nat)
    requires Assembled(s, fs, stream, base, m) && First(s.buffer, s.next) < |s.buffer|
    ensures m < |stream| && Assembled(Take(s).0, fs + Take(s).1, stream, base, m + 1)
    ensures Take(s).0.last == s.next
    ensures forall n :: n != base + m ==> (Waiting(Take(s).0.buffer, n) <==> Waiting(s.buffer, n))
  {
    var i := First(s.buffer, s.next);
    assert s.buffer[i] in s.buffer;
    AssembleNext(stream, m);
    forall n | n != base + m ensures Waiting(Without(s.buffer, i), n) <==> Waiting(s.buffer, n) {
      WaitingWithout(s.buffer, i, n);
    }
    hide Assemble, Data, Waiting;
    forall q | q in Without(s.buffer, i) ensures q in s.buffer {
    }
  }

  /** Nothing between two numbers is missing in the buffer. */
  ghost predicate AllWaiting(buffer: seq<Packet>, lo: int, hi: int) {
    forall n :: lo <= n < hi ==> Waiting(buffer, n)
  }

  lemma HeldWaits(buffer: seq<Packet>, n: int)
    ensures First(buffer, n) < |buffer| <==> Waiting(buffer, n)
  {
    FirstExactly(buffer, n);
  }

  /** The rescan goes on to the first packet that is not waiting. */
  lemma {:induction false} DrainAssembled(s: State, fs: seq<Frame>, stream: seq<Packet>, base: nat, m: nat)
    returns (m': nat)
    requires Assembled(s, fs, stream, base, m)
    ensures m <= m' && Assembled(Drain(s).0, fs + Drain(s).1, stream, base, m')
    ensures AllWaiting(s.buffer, base + m, base + m') && !Waiting(s.buffer, base + m')
    ensures forall n :: n >= base + m' ==> (Waiting(Drain(s).0.buffer, n) <==> Waiting(s.buffer, n))
    decreases |s.buffer|
  {
    hide Waiting, Take, Assemble, OfStream, First, Drain;
    HeldWaits(s.buffer, s.next);
    if First(s.buffer, s.next) < |s.buffer| {
      TakeAssembled(s, fs, stream, base, m);
      DrainTakes(s);
      var (t, gs) := Take(s);
      m' := DrainAssembled(t, fs + gs, stream, base, m + 1);
      AppendAssociates(fs, gs, Drain(t).1);
    } else {
      m' := m;
      DrainStops(s);
      assert fs + [] == fs;
    }
  }

  lemma DrainStops(s: State)
    requires First(s.buffer, s.next) == |s.buffer|
    ensures Drain(s) == (s, [])
  {
  }

  /** The packet at which the stream goes on arrives: no other one up to it is missing. */
  lemma ArriveAssembled(s: State, fs: seq<Frame>, stream: seq<Packet>, base: nat, m: nat, k: nat) returns (m': nat)
    requires Assembled(s, fs, stream, base, m) && Numbered(stream, base) && m <= k < |stream|
    requires AllWaiting(s.buffer, base + m, base + k)
    ensures var (u, gs) := Arrive(s, stream[k]);
      && k < m' && Assembled(u, fs + gs, stream, base, m')
      && AllWaiting(s.buffer, base + k + 1, base + m') && !Waiting(s.buffer, base + m')
      && forall n :: n >= base + m' ==> (Waiting(u.buffer, n) <==> Waiting(s.buffer, n))
  {
    hide Drain, Arrive, Waiting, Assemble, Clean;
    var p := stream[k];
    var s1 := s.(buffer := s.buffer + [p]);
    forall n ensures Waiting(s1.buffer, n) <==> Waiting(s.buffer, n) || n == base + k {
      WaitingSnoc(s.buffer, p, n);
    }
    m' := DrainAssembled(s1, fs, stream, base, m);
    assert m < m' by {
      assert Waiting(s1.buffer, base + m);
    }
    DrainMovesOn(s1);
    ArriveIs(s, p);
    var t := Drain(s1).0.(counter := 0);
    assert Settle(s1, Drain(s1).0, p) == t;
    CleanAssembled(t, fs + Drain(s1).1, stream, base, m');
  }

  lemma WaitingSnoc(buffer: seq<Packet>, p: Packet, n: int)
    ensures Waiting(buffer + [p], n) <==> Waiting(buffer, n) || n == p.seqNum
  {
    if Waiting(buffer, n) {
      var i :| 0 <= i < |buffer| && buffer[i].seqNum == n;
      assert (buffer + [p])[i].seqNum == n;
    }
    assert (buffer + [p])[|buffer|] == p;
  }

  lemma CleanAssembled(s: State, fs: seq<Frame>, stream: seq<Packet>, base: nat, m: nat)
    requires Assembled(s, fs, stream, base, m)
    ensures Assembled(Clean(s), fs, stream, base, m)
    ensures forall n :: n >= base + m ==> (Waiting(Clean(s).buffer, n) <==> Waiting(s.buffer, n))
  {
    hide Assemble;
    forall q: Packet ensures q in Pending(s.buffer, s.next) <==> q in s.buffer && q.seqNum >= s.next {
      PendingHolds(s.buffer, s.next, q);
    }
    hide Pending;
    forall n | n >= base + m ensures Waiting(Clean(s).buffer, n) <==> Waiting(s.buffer, n) {
      if Waiting(s.buffer, n) {
        var i :| 0 <= i < |s.buffer| && s.buffer[i].seqNum == n;
        assert s.buffer[i] in Pending(s.buffer, s.next);
      }
      if Waiting(Clean(s).buffer, n) {
        var i :| 0 <= i < |Clean(s).buffer| && Clean(s).buffer[i].seqNum == n;
        assert Clean(s).buffer[i] in s.buffer;
      }
    }
  }

  /** The packets from number `m` on that are not waiting, in order. */
  ghost predicate Missing(ks: seq<nat>, buffer: seq<Packet>, base: nat, m: nat, n: nat) {
    && (forall i :: 0 <= i < |ks| ==> m <= ks[i] < n)
    && (forall i, j :: 0 <= i < j < |ks| ==> ks[i] < ks[j])
    && forall k :: m <= k < n ==> (k in ks <==> !Waiting(buffer, base + k))
  }

  /** Up to the first missing packet all are waiting. */
  lemma FirstMissing(ks: seq<nat>, buffer: seq<Packet>, base: nat, m: nat, n: nat)
    requires Missing(ks, buffer, base, m, n) && ks != []
    ensures m <= ks[0] < n && AllWaiting(buffer, base + m, base + ks[0])
  {
    hide Waiting;
    forall w | base + m <= w < base + ks[0] ensures Waiting(buffer, w) {
      assert w - base !in ks;
    }
  }

  /** What is missing when the first missing packet, and those that waited for it, are in frames. */
  lemma MissingRest(ks: seq<nat>, before: seq<Packet>, after: seq<Packet>, base: nat, m: nat, m': nat, n: nat)
    requires Missing(ks, before, base, m, n) && ks != [] && ks[0] < m' <= n
    requires AllWaiting(before, base + ks[0] + 1, base + m') && !Waiting(before, base + m')
    requires forall w :: w >= base + m' ==> (Waiting(after, w) <==> Waiting(before, w))
    ensures Missing(ks[1..], after, base, m', n) && (ks[1..] == [] ==> m' == n)
  {
    hide Waiting;
    var k, rest := ks[0], ks[1..];
    assert ks == [k] + rest;
    forall i | 0 <= i < |rest| ensures m' <= rest[i] {
      assert rest[i] == ks[i + 1] && rest[i] in ks && !Waiting(before, base + rest[i]);
    }
    forall j | m' <= j < n ensures j in rest <==> !Waiting(after, base + j) {
      assert j in ks <==> !Waiting(before, base + j);
      assert j in ks <==> j == k || j in rest;
    }
    assert m' < n ==> m' in rest;
  }

  /** What is missing arrives in order: all frames of the stream are delivered. */
  lemma {:induction false} Completed(s: State, fs: seq<Frame>, stream: seq<Packet>, base: nat, m: nat, ks: seq<nat>)
    requires Assembled(s, fs, stream, base, m) && Numbered(stream, base) && ks != []
    requires Missing(ks, s.buffer, base, m, |stream|)
    ensures var (u, gs) := Run(s, Arrivals(stream, ks));
      (fs + gs, u.parts) == Assemble(stream) && u.next == base + |stream|
    decreases |ks|
  {
    FirstMissing(ks, s.buffer, base, m, |stream|);
    hide Arrive, Run, Waiting, Assemble, AllWaiting, OfStream, Numbered;
    var k, rest := ks[0], ks[1..];
    var m' := ArriveAssembled(s, fs, stream, base, m, k);
    var (t, gs) := Arrive(s, stream[k]);
    MissingRest(ks, s.buffer, t.buffer, base, m, m', |stream|);
    assert Arrivals(stream, ks) == [stream[k]] + Arrivals(stream, rest);
    RunAppend(s, [stream[k]], Arrivals(stream, rest));
    RunOne(s, stream[k]);
    if rest == [] {
      assert stream[..m'] == stream;
      assert Arrivals(stream, rest) == [];
      RunNone(t);
      assert gs + [] == gs;
    } else {
      Completed(t, fs + gs, stream, base, m', rest);
      AppendAssociates(fs, gs, Run(t, Arrivals(stream, rest)).1);
    }
  }

  lemma RunNone(s: State)
    ensures Run(s, []) == (s, [])
  {
  }

  lemma RunOne(s: State, p: Packet)
    ensures Run(s, [p]) == Arrive(s, p)
  {
    RunNone(s);
    hide Arrive;
    assert [p][..0] == [] && [] + Arrive(s, p).1 == Arrive(s, p).1;
  }

  /**
   * Recovery: a marker packet arrives that inserts nothing and is at least 5 ahead of the last inserted number, or the
   * last of more than 25 arrivals that inserted nothing. The frame in progress is dropped, and the frames of the
   * stream behind the marker are delivered exactly when its packets that are not waiting already arrive in order.
   */
  lemma LossRecovered(s: State, p: Packet, stream: seq<Packet>, ks: seq<nat>)
    requires InsertsNothing(s, p) && p.marker && (p.seqNum - s.last >= 5 || s.counter >= 25)
    requires Numbered(stream, p.seqNum + 1) && ks != []
    requires forall q :: q in s.buffer && q.seqNum > p.seqNum ==>
               q.seqNum - p.seqNum - 1 < |stream| && q == stream[q.seqNum - p.seqNum - 1]
    requires Missing(ks, s.buffer, p.seqNum + 1, 0, |stream|)
    ensures var (u, fs) := Run(s, [p] + Arrivals(stream, ks)); (fs, u.parts) == Assemble(stream)
  {
    hide Run, Arrive, Waiting, Assemble;
    var base: nat := p.seqNum + 1;
    var t := Arrive(s, p).0;
    SkipsExactly(s, p);
    RunOne(s, p);
    RunAppend(s, [p], Arrivals(stream, ks));
    AfterSkip(s.buffer, t.buffer, p, stream, ks);
    hide Missing, OfStream, InsertsNothing, Numbered;
    Skipped(t, stream, base);
    Completed(t, [], stream, base, 0, ks);
    var hs := Run(t, Arrivals(stream, ks)).1;
    assert [] + hs == hs;
  }

  /** What was waiting behind the marker is still waiting. */
  lemma AfterSkip(before: seq<Packet>, after: seq<Packet>, p: Packet, stream: seq<Packet>, ks: seq<nat>)
    requires p.seqNum >= 0 && Missing(ks, before, p.seqNum + 1, 0, |stream|)
    requires forall q :: q in before && q.seqNum > p.seqNum ==>
               q.seqNum - p.seqNum - 1 < |stream| && q == stream[q.seqNum - p.seqNum - 1]
    requires forall q :: q in after <==> (q in before || q == p) && q.seqNum >= p.seqNum + 1
    ensures OfStream(after, stream, p.seqNum + 1) && Missing(ks, after, p.seqNum + 1, 0, |stream|)
  {
    hide Waiting;
    var base := p.seqNum + 1;
    forall n | base <= n < base + |stream| ensures Waiting(after, n) <==> Waiting(before, n) {
      SameWaiting(before, after, p, n);
    }
  }

  lemma Skipped(t: State, stream: seq<Packet>, base: nat)
    requires t.next == base && t.parts == [] && OfStream(t.buffer, stream, base)
    ensures Assembled(t, [], stream, base, 0)
  {
    assert stream[..0] == [];
  }

  lemma SameWaiting(a: seq<Packet>, b: seq<Packet>, p: Packet, n: int)
    requires n > p.seqNum && forall q :: q in b <==> (q in a || q == p) && q.seqNum >= p.seqNum + 1
    ensures Waiting(a, n) <==> Waiting(b, n)
  {
    if Waiting(a, n) {
      var i :| 0 <= i < |a| && a[i].seqNum == n;
      assert a[i] in b;
    }
    if Waiting(b, n) {
      var i :| 0 <= i < |b| && b[i].seqNum == n;
      assert b[i] in a;
    }
  }

  /** In particular in order, when no packet beyond the marker is waiting. */
  lemma LossRecoveredInOrder(s: State, p: Packet, stream: seq<Packet>)
    requires InsertsNothing(s, p) && p.marker && (p.seqNum - s.last >= 5 || s.counter >= 25)
    requires Numbered(stream, p.seqNum + 1) && stream != []
    requires forall q :: q in s.buffer ==> q.seqNum <= p.seqNum
    ensures var (u, fs) := Run(s, [p] + stream); (fs, u.parts) == Assemble(stream)
  {
    hide Run, Assemble;
    var ks := InOrder(|stream|);
    forall i | 0 <= i < |s.buffer| ensures s.buffer[i].seqNum <= p.seqNum {
      assert s.buffer[i] in s.buffer;
    }
    forall k | 0 <= k < |stream| ensures k in ks {
      assert ks[k] == k;
    }
    assert Arrivals(stream, ks) == stream;
    LossRecovered(s, p, stream, ks);
  }

  /** And after a long wait: 25 packets that insert nothing, then a marker. */
  lemma LongWaitRecovered(s: State, ps: seq<Packet>, p: Packet, stream: seq<Packet>)
    requires Waits(s, ps) && |ps| >= 25 && p.marker && p.seqNum != s.next
    requires forall q :: q in s.buffer ==> q.seqNum != s.next
    requires forall q :: q in s.buffer || q in ps ==> q.seqNum <= p.seqNum
    requires Numbered(stream, p.seqNum + 1) && stream != []
    ensures var (u, fs) := Run(s, ps + ([p] + stream)); (fs, u.parts) == Assemble(stream)
  {
    hide Run, Assemble;
    StillWaits(s, ps);
    RunAppend(s, ps, [p] + stream);
    var t := Run(s, ps).0;
    assert InsertsNothing(t, p) by {
      forall i | 0 <= i < |t.buffer| ensures t.buffer[i].seqNum != t.next {
        assert t.buffer[i] in t.buffer;
      }
    }
    LossRecoveredInOrder(t, p, stream);
    var hs := Run(t, [p] + stream).1;
    assert [] + hs == hs;
  }

  // ---------------------------------------------------------------- the class

  /** The depacketizer half of RTPSessionEx. */
  class RTPSessionEx {
    var nextSequenceNum: int
    var lastInsertedSequenceNum: int
    var notInsertedCounter: nat
    var packets: seq<Packet>
    var currentFrame: seq<byte>
    // What the depacketizer callback was given.
    var delivered: seq<seq<byte>>
    // The packets in the current frame.
    ghost var parts: seq<Packet>

    ghost predicate Valid()
      reads this
    {
      currentFrame == Data(parts)
    }

    ghost function View(): State
      reads `nextSequenceNum, `lastInsertedSequenceNum, `notInsertedCounter, `packets, `parts
    {
      State(nextSequenceNum, lastInsertedSequenceNum, notInsertedCounter, packets, parts)
    }

    constructor ()
      ensures Valid() && View() == INITIAL && delivered == []
    {
      nextSequenceNum, lastInsertedSequenceNum, notInsertedCounter := -1, 0, 0;
      packets, currentFrame, delivered, parts := [], [], [], [];
    }

    method InsertPacketIntoFrame(p: Packet)
      requires Valid()
      modifies `currentFrame, `delivered, `parts
      ensures Valid()
      ensures View() == Insert(old(View()), p).0
      ensures delivered == old(delivered) + Datas(Insert(old(View()), p).1)
    {
      DataSnoc(parts, p);
      currentFrame := currentFrame + p.payload;
      parts := parts + [p];
      if p.marker {
        delivered := delivered + [currentFrame];
        currentFrame, parts := [], [];
      }
    }

    /** The rescan: starts over after each insertion, and ends because the buffer shrinks. */
    method InsertPackets() returns (insertedPacket: bool)
      requires Valid()
      modifies `packets, `nextSequenceNum, `lastInsertedSequenceNum, `currentFrame, `delivered, `parts
      ensures Valid() && View() == Drain(old(View())).0
      ensures delivered == old(delivered) + Datas(Drain(old(View())).1)
      ensures insertedPacket == (nextSequenceNum != old(nextSequenceNum))
    {
      hide Data, Insert, Take, Drain;
      insertedPacket := false;
      var it := 0;
      ghost var start, done := View(), [];
      DrainingStart(start);
      while it < |packets|
        invariant 0 <= it <= |packets| && Valid() && First(packets, nextSequenceNum) >= it
        invariant Draining(start, done, View()) && delivered == old(delivered) + Datas(done)
        invariant nextSequenceNum >= start.next && insertedPacket == (nextSequenceNum != start.next)
        decreases |packets|, |packets| - it
      {
        if packets[it].seqNum == nextSequenceNum {
          FirstHere(packets, nextSequenceNum, it);
          DrainingStep(start, done, View());
          DatasAppend(done, Take(View()).1);
          done := done + Take(View()).1;
          InsertAt(it);
          insertedPacket, it := true, 0;
        } else {
          FirstLater(packets, nextSequenceNum, it);
          it := it + 1;
        }
      }
      DrainingEnd(start, done, View());
    }

    /** The packet at `it` has the next number: it leaves the buffer for the frame. */
    method InsertAt(it: nat)
      requires Valid() && it == First(packets, nextSequenceNum) < |packets|
      modifies `packets, `nextSequenceNum, `lastInsertedSequenceNum, `currentFrame, `delivered, `parts
      ensures Valid() && View() == Take(old(View())).0 && nextSequenceNum == old(nextSequenceNum) + 1
      ensures delivered == old(delivered) + Datas(Take(old(View())).1)
      ensures |packets| == old(|packets|) - 1
    {
      TakeHere(View(), it);
      hide Data, Insert, Take, First;
      var packet := packets[it];
      packets, lastInsertedSequenceNum := Without(packets, it), nextSequenceNum;
      nextSequenceNum := nextSequenceNum + 1;
      InsertPacketIntoFrame(packet);
    }

    method ProcessRTPPacket(p: Packet)
      requires Valid()
      modifies this
      ensures Valid() && View() == Arrive(old(View()), p).0
      ensures delivered == old(delivered) + Datas(Arrive(old(View()), p).1)
    {
      hide Drain, Data;
      if nextSequenceNum == -1 {
        nextSequenceNum := p.seqNum;
      }
      packets := packets + [p];
      var insertedPacket := InsertPackets();
      if !insertedPacket {
        notInsertedCounter := notInsertedCounter + 1;
        if notInsertedCounter > PACKET_BUFFER_SIZE || p.seqNum - lastInsertedSequenceNum >= PACKET_SEQUENCE_DIFF {
          if p.marker {
            notInsertedCounter, nextSequenceNum := 0, p.seqNum + 1;
            currentFrame, parts := [], [];
            NoData();
          }
        }
      } else {
        notInsertedCounter := 0;
      }
      packets := Cleanup(packets, nextSequenceNum);
    }
  }

  function Datas(fs: seq<Frame>): (ds: seq<seq<byte>>)
    ensures |ds| == |fs|
  {
    seq(|fs|, i requires 0 <= i < |fs| => fs[i].data)
  }

  lemma DatasAppend(fs: seq<Frame>, gs: seq<Frame>)
    ensures Datas(fs + gs) == Datas(fs) + Datas(gs)
  {
  }

  lemma NoData()
    ensures Data([]) == []
  {
  }

  lemma FirstHere(buffer: seq<Packet>, n: int, i: nat)
    requires i < |buffer| && First(buffer, n) >= i && buffer[i].seqNum == n
    ensures First(buffer, n) == i
  {
  }

  lemma FirstLater(buffer: seq<Packet>, n: int, i: nat)
    requires i < |buffer| && First(buffer, n) >= i && buffer[i].seqNum != n
    ensures First(buffer, n) >= i + 1
  {
  }

  /** The rescan that began at `start` has delivered `done` and goes on at `s`. */
  ghost predicate Draining(start: State, done: seq<Frame>, s: State) {
    Drain(start) == (Drain(s).0, done + Drain(s).1)
  }

  lemma DrainingStart(s: State)
    ensures Draining(s, [], s)
  {
    hide Drain;
    assert [] + Drain(s).1 == Drain(s).1;
  }

  lemma DrainingStep(start: State, done: seq<Frame>, s: State)
    requires Draining(start, done, s) && First(s.buffer, s.next) < |s.buffer|
    ensures Draining(start, done + Take(s).1, Take(s).0)
  {
    hide Drain, Take, First;
    DrainTakes(s);
    AppendAssociates(done, Take(s).1, Drain(Take(s).0).1);
  }

  lemma DrainingEnd(start: State, done: seq<Frame>, s: State)
    requires Draining(start, done, s) && First(s.buffer, s.next) == |s.buffer|
    ensures Drain(start) == (s, done)
  {
    assert done + [] == done;
  }

  lemma DrainTakes(s: State)
    requires First(s.buffer, s.next) < |s.buffer|
    ensures Drain(s) == (Drain(Take(s).0).0, Take(s).1 + Drain(Take(s).0).1)
  {
  }

  lemma TakeHere(s: State, i: nat)
    requires i == First(s.buffer, s.next) < |s.buffer|
    ensures Take(s) == Insert(s.(buffer := Without(s.buffer, i), last := s.next, next := s.next + 1), s.buffer[i])
  {
  }

  /** The cleanup loop erases packets below the next number where they stand. */
  method Cleanup(buffer: seq<Packet>, next: int) returns (r: seq<Packet>)
    ensures r == Pending(buffer, next)
  {
    r := buffer;
    var it := 0;
    assert buffer[..0] == [];
    while it < |r|
      invariant 0 <= it <= |r|
      invariant r[..it] + Pending(r[it..], next) == Pending(buffer, next)
      decreases |r| - it
    {
      assert r[it..][1..] == r[it + 1..];
      if r[it].seqNum < next {
        var t := Without(r, it);
        assert t[..it] == r[..it] && t[it..] == r[it + 1..];
        r := t;
      } else {
        assert r[..it + 1] == r[..it] + [r[it]];
        it := it + 1;
      }
    }
    assert r[..it] == r;
  }

  // ---------------------------------------------------------------- cutting frames into packets

  /** What SendPacketEx is given for one packet. */
  datatype Fragment = Fragment(payload: seq<byte>, marker: bool, increment: nat)

  /** The fragments of a frame: as long as the maximum, a shorter last one, the marker on that. */
  function Fragments(data: seq<byte>, maxDataSize: nat): (fs: seq<seq<byte>>)
    requires maxDataSize > 0
    ensures |fs| > 0
    decreases |data|
  {
    if |data| <= maxDataSize then [data] else [data[..maxDataSize]] + Fragments(data[maxDataSize..], maxDataSize)
  }

  /** Put together the fragments are the frame; each fits, and all but the last are full. */
  lemma {:induction false} FragmentsExact(data: seq<byte>, maxDataSize: nat)
    requires maxDataSize > 0
    ensures var fs := Fragments(data, maxDataSize);
      && Flatten(fs) == data
      && (forall i :: 0 <= i < |fs| ==> |fs[i]| <= maxDataSize)
      && (forall i :: 0 <= i < |fs| - 1 ==> |fs[i]| == maxDataSize)
      && (data != [] ==> (|fs| - 1) * maxDataSize < |data| <= |fs| * maxDataSize)
    decreases |data|
  {
    if data != [] {
      FragmentsBound(data, maxDataSize);
    }
    if |data| <= maxDataSize {
      assert [data][1..] == [];
    } else {
      hide Flatten;
      var rest := data[maxDataSize..];
      FragmentsExact(rest, maxDataSize);
      FlattenCons(data[..maxDataSize], Fragments(rest, maxDataSize));
      assert data == data[..maxDataSize] + rest;
    }
  }

  lemma {:induction false} FragmentsBound(data: seq<byte>, maxDataSize: nat)
    requires maxDataSize > 0 && data != []
    ensures (|Fragments(data, maxDataSize)| - 1) * maxDataSize < |data| <= |Fragments(data, maxDataSize)| * maxDataSize
    decreases |data|
  {
    if |data| > maxDataSize {
      var rest := data[maxDataSize..];
      FragmentsBound(rest, maxDataSize);
      var n := |Fragments(rest, maxDataSize)|;
      assert (n + 1) * maxDataSize == n * maxDataSize + maxDataSize
             && n * maxDataSize == (n - 1) * maxDataSize + maxDataSize;
    }
  }

  /** The packet count SendMultiPacket computes is the number of fragments. */
  lemma CountExact(data: seq<byte>, maxDataSize: nat)
    requires maxDataSize > 0 && data != []
    ensures |Fragments(data, maxDataSize)| == (|data| - 1) / maxDataSize + 1
  {
    hide Fragments;
    FragmentsBound(data, maxDataSize);
    DivideBounds(|data| - 1, maxDataSize);
    CountBetween(|Fragments(data, maxDataSize)|, (|data| - 1) / maxDataSize, |data|, maxDataSize);
  }

  lemma CountBetween(n: int, q: int, length: nat, d: nat)
    requires (n - 1) * d < length <= n * d && q * d <= length - 1 < (q + 1) * d
    ensures n == q + 1
  {
    MulMonotone(n, q, d);
    MulMonotone(q + 1, n - 1, d);
  }

  /** `i` times `x`: where packet `i` begins, and what the packets before it took of the increment. */
  function Multiple(i: nat, x: nat): nat {
    i * x
  }

  lemma NoMultiple(x: nat)
    ensures Multiple(0, x) == 0
  {
  }

  lemma NextMultiple(i: nat, x: nat)
    ensures Multiple(i + 1, x) == Multiple(i, x) + x
  {
  }

  /** Fragment `i` starts behind `i` full ones. */
  lemma {:induction false} FragmentAt(data: seq<byte>, maxDataSize: nat, i: nat)
    requires maxDataSize > 0 && i < |Fragments(data, maxDataSize)|
    ensures var lo := Multiple(i, maxDataSize);
      && lo <= |data|
      && Fragments(data, maxDataSize)[i] == data[lo..if |data| - lo > maxDataSize then lo + maxDataSize else |data|]
      && (i + 1 == |Fragments(data, maxDataSize)| <==> |data| - lo <= maxDataSize)
    decreases i
  {
    hide Multiple;
    if i > 0 {
      var rest := data[maxDataSize..];
      FragmentAt(rest, maxDataSize, i - 1);
      NextMultiple(i - 1, maxDataSize);
      var lo := Multiple(i - 1, maxDataSize);
      var hi := if |rest| - lo > maxDataSize then lo + maxDataSize else |rest|;
      assert rest[lo..hi] == data[lo + maxDataSize..hi + maxDataSize];
    } else {
      NoMultiple(maxDataSize);
    }
  }

  /** The packets of a frame with their share of the timestamp increment. */
  function Cut(data: seq<byte>, maxDataSize: nat, increment: nat): (r: seq<Fragment>)
    requires maxDataSize > 0
    ensures |r| == |Fragments(data, maxDataSize)|
  {
    var fs := Fragments(data, maxDataSize);
    seq(|fs|, i requires 0 <= i < |fs| => Fragment(fs[i], i + 1 == |fs|, increment / |fs|))
  }

  function Increments(fs: seq<Fragment>): nat {
    if fs == [] then 0 else Increments(fs[..|fs| - 1]) + fs[|fs| - 1].increment
  }

  lemma {:induction false} EqualIncrements(fs: seq<Fragment>, x: nat)
    requires forall i :: 0 <= i < |fs| ==> fs[i].increment == x
    ensures Increments(fs) == |fs| * x
  {
    if fs != [] {
      EqualIncrements(fs[..|fs| - 1], x);
      assert |fs| * x == (|fs| - 1) * x + x;
    }
  }

  /** The increments of a frame add up to the whole exactly when the packets divide it evenly. */
  lemma IncrementsExact(data: seq<byte>, maxDataSize: nat, increment: nat)
    requires maxDataSize > 0
    ensures var n := |Fragments(data, maxDataSize)|;
      && Increments(Cut(data, maxDataSize, increment)) == increment - increment % n
      && (Increments(Cut(data, maxDataSize, increment)) == increment <==> increment % n == 0)
  {
    var n := |Fragments(data, maxDataSize)|;
    hide Fragments, Increments;
    EqualIncrements(Cut(data, maxDataSize, increment), increment / n);
    DivideBounds(increment, n);
  }

  lemma CutWhole(data: seq<byte>, maxDataSize: nat, increment: nat)
    requires |data| <= maxDataSize && maxDataSize > 0
    ensures Cut(data, maxDataSize, increment) == [Fragment(data, true, increment)]
  {
  }

  lemma CutNext(data: seq<byte>, maxDataSize: nat, increment: nat, i: nat)
    requires maxDataSize > 0 && i < |Fragments(data, maxDataSize)|
    ensures var lo := Multiple(i, maxDataSize);
      && lo <= |data| && Multiple(i + 1, maxDataSize) == lo + maxDataSize
      && var hi := if |data| - lo > maxDataSize then lo + maxDataSize else |data|;
         && Cut(data, maxDataSize, increment)[..i + 1]
            == Cut(data, maxDataSize, increment)[..i]
               + [Fragment(data[lo..hi], i + 1 == |Fragments(data, maxDataSize)|,
                           increment / |Fragments(data, maxDataSize)|)]
         && (i + 1 == |Fragments(data, maxDataSize)| <==> hi == |data|)
  {
    hide Multiple, Fragments;
    FragmentAt(data, maxDataSize, i);
    NextMultiple(i, maxDataSize);
  }

  /** Enough of the increment is left for packet `i`. */
  lemma IncrementLeft(increment: nat, n: nat, i: nat)
    requires i < n
    ensures increment - Multiple(i, increment / n) >= increment / n
    ensures Multiple(i + 1, increment / n) == Multiple(i, increment / n) + increment / n
  {
    var x := increment / n;
    DivideBounds(increment, n);
    MulMonotone(i + 1, n, x);
    NextMultiple(i, x);
  }

  /**
   * Sends a frame. `link(i)` is the status of sending packet number i; the first failure ends it. What was
   * sent until then is a beginning of the packets of the frame.
   */
  method SendMultiPacket(data: seq<byte>, maxDataSize: nat, timestampIncrement: nat, link: nat -> int)
    returns (status: int, sent: seq<Fragment>)
    requires maxDataSize > 0
    ensures |sent| <= |Cut(data, maxDataSize, timestampIncrement)|
    ensures sent == Cut(data, maxDataSize, timestampIncrement)[..|sent|]
    ensures forall i :: 0 <= i < |sent| ==> link(i) == 0
    ensures if status == 0 then sent == Cut(data, maxDataSize, timestampIncrement)
            else |sent| < |Cut(data, maxDataSize, timestampIncrement)| && link(|sent|) == status
  {
    hide Fragments, Cut, Multiple;
    sent := [];
    if |data| <= maxDataSize {
      CutWhole(data, maxDataSize, timestampIncrement);
      status := link(0);
      if status == 0 {
        sent := [Fragment(data, true, timestampIncrement)];
      }
    } else {
      var packetCount := (|data| - 1) / maxDataSize + 1;
      CountExact(data, maxDataSize);
      var incrementPerPacket := timestampIncrement / packetCount;
      var totalIncrement := timestampIncrement;
      var start, index := 0, 0;
      NoMultiple(maxDataSize);
      NoMultiple(incrementPerPacket);
      while start < |data|
        invariant 0 <= index <= packetCount && (start < |data| <==> index < packetCount)
        invariant start < |data| ==> start == Multiple(index, maxDataSize)
        invariant incrementPerPacket == timestampIncrement / packetCount
        invariant totalIncrement == timestampIncrement - Multiple(index, incrementPerPacket)
        invariant sent == Cut(data, maxDataSize, timestampIncrement)[..index]
        invariant forall i :: 0 <= i < index ==> link(i) == 0
        decreases |data| - start
      {
        CutNext(data, maxDataSize, timestampIncrement, index);
        IncrementLeft(timestampIncrement, packetCount, index);
        var newSize := |data| - start;
        if newSize > maxDataSize {
          newSize := maxDataSize;
        }
        incrementPerPacket := if totalIncrement < incrementPerPacket then totalIncrement else incrementPerPacket;
        var marker := index + 1 == packetCount;
        status := link(index);
        if status != 0 {
          return;
        }
        sent := sent + [Fragment(data[start..start + newSize], marker, incrementPerPacket)];
        totalIncrement := totalIncrement - incrementPerPacket;
        start, index := start + newSize, index + 1;
      }
      status := 0;
    }
  }

  // ---------------------------------------------------------------- sending and receiving together

  /** The fragments of one frame as packets, the first with number `base`. */
  function FramePackets(fs: seq<seq<byte>>, base: nat): (ps: seq<Packet>)
    ensures |ps| == |fs|
  {
    seq(|fs|, i requires 0 <= i < |fs| => Packet((base + i) % 0x1_0000, i + 1 == |fs|, fs[i]))
  }

  /** The packets of a list of frames. */
  function Stream(frames: seq<seq<byte>>, maxDataSize: nat, base: nat): seq<Packet>
    requires maxDataSize > 0
  {
    if frames == [] then []
    else
      var ps := FramePackets(Fragments(frames[0], maxDataSize), base);
      ps + Stream(frames[1..], maxDataSize, base + |ps|)
  }

  lemma {:induction false} StreamNumbered(frames: seq<seq<byte>>, maxDataSize: nat, base: nat, k: nat)
    requires maxDataSize > 0 && k < |Stream(frames, maxDataSize, base)|
    ensures Stream(frames, maxDataSize, base)[k].seqNum == (base + k) % 0x1_0000
    decreases |frames|
  {
    hide Fragments;
    var ps := FramePackets(Fragments(frames[0], maxDataSize), base);
    if k >= |ps| {
      StreamNumbered(frames[1..], maxDataSize, base + |ps|, k - |ps|);
    }
  }

  lemma {:induction false} AssembleAppend(a: seq<Packet>, b: seq<Packet>)
    requires Assemble(a).1 == []
    ensures Assemble(a + b) == (Assemble(a).0 + Assemble(b).0, Assemble(b).1)
    decreases |b|
  {
    hide Data;
    if b == [] {
      assert a + b == a && Assemble(a).0 + [] == Assemble(a).0;
    } else {
      var n := |b| - 1;
      AssembleAppend(a, b[..n]);
      assert (a + b)[..|a + b| - 1] == a + b[..n] && (a + b)[|a + b| - 1] == b[n];
      var gs := Insert(INITIAL.(parts := Assemble(b[..n]).1), b[n]).1;
      assert Assemble(a).0 + Assemble(b[..n]).0 + gs == Assemble(a).0 + (Assemble(b[..n]).0 + gs);
    }
  }

  lemma AssembleSnoc(ps: seq<Packet>, p: Packet)
    ensures var (fs, parts) := Assemble(ps);
      Assemble(ps + [p]) == if p.marker then (fs + [Frame(Data(parts + [p]), parts + [p])], []) else (fs, parts + [p])
  {
    hide Data;
    assert (ps + [p])[..|ps|] == ps;
    assert Assemble(ps).0 + [] == Assemble(ps).0;
  }

  /** Packets without a marker are all left over. */
  lemma {:induction false} AssemblePiece(ps: seq<Packet>)
    requires forall i :: 0 <= i < |ps| ==> !ps[i].marker
    ensures Assemble(ps) == ([], ps)
    decreases |ps|
  {
    if ps != [] {
      var rest, last := ps[..|ps| - 1], ps[|ps| - 1];
      AssemblePiece(rest);
      AssembleSnoc(rest, last);
      hide Assemble, Data;
      assert ps == rest + [last];
    }
  }

  /** The packets of one frame make that frame. */
  lemma AssembleFrame(fs: seq<seq<byte>>, base: nat)
    requires fs != []
    ensures var ps := FramePackets(fs, base);
      Assemble(ps) == ([Frame(Flatten(fs), ps)], [])
  {
    var ps := FramePackets(fs, base);
    var rest, last := ps[..|ps| - 1], ps[|ps| - 1];
    AssemblePiece(rest);
    AssembleSnoc(rest, last);
    assert Payloads(ps) == fs;
    hide Assemble, Flatten;
    assert ps == rest + [last];
    assert [] + [Frame(Flatten(fs), ps)] == [Frame(Flatten(fs), ps)];
  }

  lemma NothingSent(maxDataSize: nat, base: nat)
    requires maxDataSize > 0
    ensures Datas(Assemble(Stream([], maxDataSize, base)).0) == [] && Assemble(Stream([], maxDataSize, base)).1 == []
  {
  }

  lemma StreamCons(frames: seq<seq<byte>>, maxDataSize: nat, base: nat)
    requires maxDataSize > 0 && frames != []
    ensures var ps := FramePackets(Fragments(frames[0], maxDataSize), base);
            Stream(frames, maxDataSize, base) == ps + Stream(frames[1..], maxDataSize, base + |ps|)
  {
    hide FramePackets, Fragments;
  }

  /** Cutting and putting together in order give back the frames. */
  lemma {:induction false} AssembleStream(frames: seq<seq<byte>>, maxDataSize: nat, base: nat)
    requires maxDataSize > 0
    ensures Datas(Assemble(Stream(frames, maxDataSize, base)).0) == frames
    ensures Assemble(Stream(frames, maxDataSize, base)).1 == []
    decreases |frames|
  {
    hide Assemble, Fragments, Flatten, FramePackets, Stream, Datas;
    if frames == [] {
      NothingSent(maxDataSize, base);
    } else {
      var fragments := Fragments(frames[0], maxDataSize);
      var ps := FramePackets(fragments, base);
      var rest := Stream(frames[1..], maxDataSize, base + |ps|);
      StreamCons(frames, maxDataSize, base);
      FragmentsExact(frames[0], maxDataSize);
      AssembleFrame(fragments, base);
      AssembleStream(frames[1..], maxDataSize, base + |ps|);
      AssembleAppend(ps, rest);
      DatasCons(frames[0], ps, Assemble(rest).0);
      assert frames == [frames[0]] + frames[1..];
    }
  }

  lemma DatasCons(data: seq<byte>, ps: seq<Packet>, fs: seq<Frame>)
    ensures Datas([Frame(data, ps)] + fs) == [data] + Datas(fs)
  {
  }

  /** What SendMultiPacket sends for a frame, as packets the session numbers from `base`. */
  function SentPackets(sent: seq<Fragment>, base: nat): (ps: seq<Packet>)
    ensures |ps| == |sent|
  {
    seq(|sent|, i requires 0 <= i < |sent| => Packet((base + i) % 0x1_0000, sent[i].marker, sent[i].payload))
  }

  /** What it sends for a list of frames. */
  function SentStream(frames: seq<seq<byte>>, maxDataSize: nat, increment: nat, base: nat): seq<Packet>
    requires maxDataSize > 0
  {
    if frames == [] then []
    else
      var ps := SentPackets(Cut(frames[0], maxDataSize, increment), base);
      ps + SentStream(frames[1..], maxDataSize, increment, base + |ps|)
  }

  /** Payloads and markers of what is sent are those of the fragments. */
  lemma {:induction false} SentExact(frames: seq<seq<byte>>, maxDataSize: nat, increment: nat, base: nat)
    requires maxDataSize > 0
    ensures SentStream(frames, maxDataSize, increment, base) == Stream(frames, maxDataSize, base)
    decreases |frames|
  {
    hide Fragments, FramePackets, SentPackets, Cut;
    if frames != [] {
      CutPackets(frames[0], maxDataSize, increment, base);
      var ps := SentPackets(Cut(frames[0], maxDataSize, increment), base);
      SentExact(frames[1..], maxDataSize, increment, base + |ps|);
    }
  }

  lemma CutPackets(data: seq<byte>, maxDataSize: nat, increment: nat, base: nat)
    requires maxDataSize > 0
    ensures SentPackets(Cut(data, maxDataSize, increment), base) == FramePackets(Fragments(data, maxDataSize), base)
  {
    hide Fragments;
  }

  /**
   * Fragmentation and reassembly undo each other: frames sent by SendMultiPacket, whose packets arrive
   * lowest first and each at most four ahead of the last inserted one, without a 16-bit wrap, are
   * delivered exactly, in order, whatever the maximum packet size.
   */
  lemma FramesRoundTrip(frames: seq<seq<byte>>, maxDataSize: nat, increment: nat, base: nat, order: seq<nat>)
    requires maxDataSize > 0 && frames != []
    requires var stream := SentStream(frames, maxDataSize, increment, base);
             base + |stream| <= 0x1_0000 && NearlyOrdered(order, |stream|)
    ensures var (s, fs) := Run(INITIAL, Arrivals(SentStream(frames, maxDataSize, increment, base), order));
            Datas(fs) == frames && s.parts == [] && s.buffer == []
  {
    hide Run, NearlyOrdered, Assemble, Numbered, Stream, SentStream;
    SentExact(frames, maxDataSize, increment, base);
    StreamFits(frames, maxDataSize, base);
    ReorderingUndone(Stream(frames, maxDataSize, base), base, order);
    AssembleStream(frames, maxDataSize, base);
  }

  lemma StreamFits(frames: seq<seq<byte>>, maxDataSize: nat, base: nat)
    requires maxDataSize > 0 && frames != [] && base + |Stream(frames, maxDataSize, base)| <= 0x1_0000
    ensures Stream(frames, maxDataSize, base) != [] && Numbered(Stream(frames, maxDataSize, base), base)
  {
    hide Fragments, FramePackets;
    var stream := Stream(frames, maxDataSize, base);
    assert |FramePackets(Fragments(frames[0], maxDataSize), base)| > 0;
    hide Stream;
    forall k: nat | k < |stream| ensures stream[k].seqNum == base + k {
      StreamNumbered(frames, maxDataSize, base, k);
    }
  }
}
