/** RTPInternalSourceData: probation policy, the sorted packet queue, SDES items and BYE of one source. */
module SourceData {
  import opened Bytes
  import opened RtpTime
  import opened SourceStats

  const MAX_PROBATION_PACKETS := 32

  datatype ProbationType = NoProbation | ProbationDiscard | ProbationStore

  datatype QueuedPacket = QueuedPacket(extSeq: u32, timestamp: u32, payload: seq<byte>)

  // ---------------------------------------------------------------- the queue, on values

  predicate Increasing(q: seq<QueuedPacket>) {
    forall i, j :: 0 <= i < j < |q| ==> q[i].extSeq < q[j].extSeq
  }

  ghost predicate HasNumber(q: seq<QueuedPacket>, n: u32) {
    exists i :: 0 <= i < |q| && q[i].extSeq == n
  }

  /** How many packets at the front have a number below `n`. */
  function Rank(q: seq<QueuedPacket>, n: u32): (r: nat)
    ensures r <= |q|
  {
    if q == [] || q[0].extSeq >= n then 0 else 1 + Rank(q[1..], n)
  }

  function InsertAt(q: seq<QueuedPacket>, i: nat, p: QueuedPacket): seq<QueuedPacket>
    requires i <= |q|
  {
    q[..i] + [p] + q[i..]
  }

  /** Room is made on probation; an equal number is dropped; any other packet goes to its place. */
  function Room(q: seq<QueuedPacket>, validated: bool): seq<QueuedPacket> {
    if !validated && |q| == MAX_PROBATION_PACKETS then q[1..] else q
  }

  ghost function Enqueue(q: seq<QueuedPacket>, p: QueuedPacket, validated: bool): (r: (seq<QueuedPacket>, bool)) {
    var base := Room(q, validated);
    if HasNumber(base, p.extSeq) then (base, false) else (InsertAt(base, Rank(base, p.extSeq), p), true)
  }

  lemma {:induction false} RankSplits(q: seq<QueuedPacket>, n: u32)
    requires Increasing(q)
    ensures var r := Rank(q, n);
      && (forall i :: 0 <= i < r ==> q[i].extSeq < n)
      && (forall i :: r <= i < |q| ==> q[i].extSeq >= n)
  {
    if q != [] && q[0].extSeq < n {
      RankSplits(q[1..], n);
      forall i | 0 <= i < |q|
        ensures if i < Rank(q, n) then q[i].extSeq < n else q[i].extSeq >= n
      {
        if i > 0 {
          assert q[i] == q[1..][i - 1];
        }
      }
    }
  }

  /** A place with smaller numbers before it and none behind it is the only one. */
  lemma RankUnique(q: seq<QueuedPacket>, n: u32, i: nat)
    requires Increasing(q) && i <= |q|
    requires i > 0 ==> q[i - 1].extSeq < n
    requires i < |q| ==> q[i].extSeq >= n
    ensures Rank(q, n) == i
  {
    RankSplits(q, n);
  }

  /** The queue stays strictly increasing and bounded on probation; it loses only its minimum, if anything. */
  lemma EnqueueKeeps(q: seq<QueuedPacket>, p: QueuedPacket, validated: bool)
    requires Increasing(q) && (!validated ==> |q| <= MAX_PROBATION_PACKETS)
    ensures var (r, stored) := Enqueue(q, p, validated);
      && Increasing(r)
      && (!validated ==> |r| <= MAX_PROBATION_PACKETS)
      && multiset(r) == multiset(Room(q, validated)) + (if stored then multiset{p} else multiset{})
      && (stored <==> forall i :: 0 <= i < |Room(q, validated)| ==> Room(q, validated)[i].extSeq != p.extSeq)
  {
    RoomDropsMinimum(q, validated);
    var base := Room(q, validated);
    RankSplits(base, p.extSeq);
    if !HasNumber(base, p.extSeq) {
      var i := Rank(base, p.extSeq);
      InsertIncreasing(base, i, p);
      InsertMultiset(base, i, p);
    }
  }

  lemma InsertMultiset(q: seq<QueuedPacket>, i: nat, p: QueuedPacket)
    requires i <= |q|
    ensures multiset(InsertAt(q, i, p)) == multiset(q) + multiset{p}
  {
    assert q == q[..i] + q[i..];
  }

  lemma InsertIncreasing(q: seq<QueuedPacket>, i: nat, p: QueuedPacket)
    requires Increasing(q) && i <= |q|
    requires forall k :: 0 <= k < i ==> q[k].extSeq < p.extSeq
    requires forall k :: i <= k < |q| ==> q[k].extSeq > p.extSeq
    ensures Increasing(InsertAt(q, i, p))
  {
    var r := InsertAt(q, i, p);
    assert forall k :: 0 <= k < |r| ==> r[k] == if k < i then q[k] else if k == i then p else q[k - 1];
  }

  /** What makes room is the packet with the smallest number. */
  lemma RoomDropsMinimum(q: seq<QueuedPacket>, validated: bool)
    requires Increasing(q)
    ensures Increasing(Room(q, validated))
    ensures Room(q, validated) != q ==>
      q == [q[0]] + Room(q, validated) && forall i :: 0 < i < |q| ==> q[0].extSeq < q[i].extSeq
    ensures |q| != MAX_PROBATION_PACKETS || validated ==> Room(q, validated) == q
  {
  }

  lemma QueueStays(q: seq<QueuedPacket>, p: QueuedPacket, validated: bool)
    requires Increasing(q) && (!validated ==> |q| <= MAX_PROBATION_PACKETS)
    ensures var r := Enqueue(q, p, validated).0; Increasing(r) && (!validated ==> |r| <= MAX_PROBATION_PACKETS)
  {
    hide Increasing, Enqueue, Room;
    EnqueueKeeps(q, p, validated);
  }

  /** The packet that has to make room. */
  function Dropped(q: seq<QueuedPacket>, validated: bool): seq<QueuedPacket> {
    if !validated && |q| == MAX_PROBATION_PACKETS then [q[0]] else []
  }

  /** Nothing else disappears: the queue and the new packet are what is queued afterwards and what was dropped. */
  lemma Accounted(q: seq<QueuedPacket>, p: QueuedPacket, validated: bool)
    requires Increasing(q) && (!validated ==> |q| <= MAX_PROBATION_PACKETS)
    ensures var (r, stored) := Enqueue(q, p, validated);
      multiset(q) + (if stored then multiset{p} else multiset{}) == multiset(r) + multiset(Dropped(q, validated))
  {
    hide Enqueue, Increasing, Room, Dropped;
    EnqueueKeeps(q, p, validated);
    RoomAndDropped(q, validated);
    var (r, stored) := Enqueue(q, p, validated);
    Transfer(multiset(Room(q, validated)), multiset(Dropped(q, validated)), if stored then multiset{p} else multiset{});
  }

  lemma RoomAndDropped(q: seq<QueuedPacket>, validated: bool)
    ensures multiset(q) == multiset(Dropped(q, validated)) + multiset(Room(q, validated))
  {
    assert q == Dropped(q, validated) + Room(q, validated);
  }

  lemma Transfer<T>(a: multiset<T>, b: multiset<T>, c: multiset<T>)
    ensures (b + a) + c == (a + c) + b
  {
  }

  lemma Settle<T>(q: multiset<T>, d: multiset<T>, e: multiset<T>, x: multiset<T>, r: multiset<T>, o: multiset<T>)
    requires q + x == r + o
    ensures (q + d + e) + x == r + d + (e + o)
  {
    assert (q + d + e) + x == (q + x) + (d + e);
  }

  /**
   * The queue after a packet: sorted, without the smallest of 32 packets on probation, and with the new one unless its
   * number is there already.
   */
  lemma EnqueueExact(q: seq<QueuedPacket>, p: QueuedPacket, validated: bool)
    requires Increasing(q) && (!validated ==> |q| <= 32)
    ensures var (r, stored) := Enqueue(q, p, validated);
      var kept := if !validated && |q| == 32 then q[1..] else q;
      && (forall i, j :: 0 <= i < j < |r| ==> r[i].extSeq < r[j].extSeq)
      && (stored <==> forall i :: 0 <= i < |kept| ==> kept[i].extSeq != p.extSeq)
      && multiset(r) == multiset(kept) + (if stored then multiset{p} else multiset{})
      && Dropped(q, validated) + kept == q
  {
    hide Enqueue;
    EnqueueKeeps(q, p, validated);
  }

  /** Every packet that entered the queue is still in it, was delivered, or had to make room. */
  ghost predicate Ledger(q: seq<QueuedPacket>, entered: multiset<QueuedPacket>, delivered: seq<QueuedPacket>,
                         evicted: seq<QueuedPacket>) {
    entered == multiset(q) + multiset(delivered) + multiset(evicted)
  }

  lemma LedgerQueued(q: seq<QueuedPacket>, p: QueuedPacket, validated: bool, entered: multiset<QueuedPacket>,
                     delivered: seq<QueuedPacket>, evicted: seq<QueuedPacket>)
    requires Increasing(q) && (!validated ==> |q| <= MAX_PROBATION_PACKETS)
    requires Ledger(q, entered, delivered, evicted)
    ensures var (r, stored) := Enqueue(q, p, validated);
      Ledger(r, entered + (if stored then multiset{p} else multiset{}), delivered, evicted + Dropped(q, validated))
  {
    Accounted(q, p, validated);
    hide Enqueue, Increasing, Dropped;
    var (r, stored) := Enqueue(q, p, validated);
    var x, o := if stored then multiset{p} else multiset{}, Dropped(q, validated);
    assert multiset(evicted + o) == multiset(evicted) + multiset(o);
    Settle(multiset(q), multiset(delivered), multiset(evicted), x, multiset(r), multiset(o));
  }

  lemma LedgerDelivered(q: seq<QueuedPacket>, entered: multiset<QueuedPacket>, delivered: seq<QueuedPacket>,
                        evicted: seq<QueuedPacket>)
    requires q != [] && Ledger(q, entered, delivered, evicted)
    ensures Ledger(q[1..], entered, delivered + [q[0]], evicted)
  {
    assert q == [q[0]] + q[1..];
  }

  /** The second half of ProcessRTPPacket: the packet is put in the queue. */
  method Place(q: seq<QueuedPacket>, p: QueuedPacket, validated: bool) returns (r: seq<QueuedPacket>, stored: bool)
    requires Increasing(q)
    ensures (r, stored) == Enqueue(q, p, validated)
  {
    r := q;
    if r == [] {
      assert InsertAt([], 0, p) == [p];
      return [p], true;
    }
    RoomDropsMinimum(q, validated);
    if !validated {
      if |r| == MAX_PROBATION_PACKETS {
        r := r[1..];
      }
    }
    hide HasNumber, Rank, Increasing;
    var place, duplicate := FindPlace(r, p.extSeq);
    if !duplicate {
      r := r[..place] + [p] + r[place..];
    }
    return r, !duplicate;
  }

  // ---------------------------------------------------------------- the class

  class RTPInternalSourceData {
    const ssrc: u32
    const probationType: ProbationType
    const stats: RTPSourceStats
    var packetList: seq<QueuedPacket>
    var ownSsrc: bool
    var isCsrc: bool
    var validated: bool
    var isSender: bool
    var receivedBye: bool
    var byeTime: RTPTime
    var byeReason: seq<byte>
    var items: map<byte, seq<byte>>
    var lastNoteTime: RTPTime

    // The packets that entered the queue, and those that left it by delivery or for lack of room.
    ghost var entered: multiset<QueuedPacket>
    ghost var delivered: seq<QueuedPacket>
    ghost var evicted: seq<QueuedPacket>

    ghost predicate Valid()
      reads this, stats
    {
      && stats.Valid()
      && Increasing(packetList)
      && (!validated ==> |packetList| <= MAX_PROBATION_PACKETS && delivered == [])
      && Ledger(packetList, entered, delivered, evicted)
      && (ownSsrc ==> validated)
    }

    constructor (ssrc: u32, probationType: ProbationType)
      ensures Valid() && fresh(stats) && this.ssrc == ssrc && this.probationType == probationType
      ensures packetList == [] && !ownSsrc && !isCsrc && !validated && !isSender && !receivedBye
      ensures stats.State() == INITIAL
    {
      this.ssrc, this.probationType := ssrc, probationType;
      stats := new RTPSourceStats();
      packetList, ownSsrc, isCsrc, validated, isSender, receivedBye := [], false, false, false, false, false;
      byeTime, byeReason, items, lastNoteTime := RTPTime(0, 0), [], map[], RTPTime(0, 0);
      entered, delivered, evicted := multiset{}, [], [];
    }

    predicate IsActive()
      reads this
    {
      validated && !receivedBye
    }

    /** How the packet is judged, and the number it is queued under. */
    ghost function Judgement(q: u16): Outcome
      reads this, stats
    {
      Step(stats.State(), q, !validated && probationType != NoProbation).1
    }

    /** Is a packet with this judgement kept? On probation it is when probation packets are stored. */
    predicate Kept(o: Outcome) {
      o.accept || (probationType == ProbationStore && o.onProbation)
    }

    method ProcessRTPPacket(q: u16, timestamp: u32, payload: seq<byte>, receiveTime: RTPTime, tsUnit: real)
      returns (stored: bool)
      requires Valid() && Normal(receiveTime)
      modifies `packetList, `validated, `isSender, `entered, `evicted, stats
      ensures Valid()
      ensures stats.State() == Step(old(stats.State()), q, !old(validated) && probationType != NoProbation).0
      ensures validated == (old(validated) || old(Judgement(q)).accept)
      ensures isSender == (old(isSender) || (old(Judgement(q)).accept && !ownSsrc))
      ensures var o := old(Judgement(q));
        var p := QueuedPacket(o.extSeq, timestamp, payload);
        if Kept(o) then (packetList, stored) == Enqueue(old(packetList), p, validated)
                        && evicted == old(evicted) + Dropped(old(packetList), validated)
        else packetList == old(packetList) && !stored && evicted == old(evicted)
    {
      hide Valid, Judgement, Enqueue, Dropped, Step;
      var kept, extSeq := Judge(q, timestamp, receiveTime, tsUnit);
      if !kept {
        return false;
      }
      stored := Store(QueuedPacket(extSeq, timestamp, payload));
    }

    /** The second half: the queue takes the packet in. */
    method Store(p: QueuedPacket) returns (stored: bool)
      requires Valid()
      modifies `packetList, `entered, `evicted
      ensures Valid()
      ensures (packetList, stored) == Enqueue(old(packetList), p, validated)
      ensures evicted == old(evicted) + Dropped(old(packetList), validated)
    {
      hide Increasing, Ledger, Enqueue, Dropped, RTPSourceStats.Valid;
      QueueStays(packetList, p, validated);
      LedgerQueued(packetList, p, validated, entered, delivered, evicted);
      evicted := evicted + Dropped(packetList, validated);
      packetList, stored := Place(packetList, p, validated);
      entered := entered + (if stored then multiset{p} else multiset{});
    }

    /** The first half: the statistics judge the packet, and acceptance validates the source. */
    method Judge(q: u16, timestamp: u32, receiveTime: RTPTime, tsUnit: real) returns (kept: bool, extSeq: u32)
      requires Valid() && Normal(receiveTime)
      modifies `validated, `isSender, stats
      ensures Valid()
      ensures stats.State() == Step(old(stats.State()), q, !old(validated) && probationType != NoProbation).0
      ensures validated == (old(validated) || old(Judgement(q)).accept)
      ensures isSender == (old(isSender) || (old(Judgement(q)).accept && !ownSsrc))
      ensures kept == Kept(old(Judgement(q))) && extSeq == old(Judgement(q)).extSeq
    {
      JudgedExclusively(q);
      hide Step, Increasing, Ledger, Smoothed, TimestampDifference;
      var applyProbation := if validated then false else probationType != NoProbation;
      var accept, onProbation;
      accept, onProbation, extSeq := stats.ProcessPacket(q, timestamp, receiveTime, tsUnit, ownSsrc, applyProbation);
      kept := true;
      if probationType == ProbationStore {
        if !(onProbation || accept) {
          return false, extSeq;
        }
        if accept {
          validated := true;
        }
      } else {
        if !accept {
          return false, extSeq;
        }
        validated := true;
      }
      if validated && !ownSsrc {
        isSender := true;
      }
    }

    /** A validated source is never on probation: its packets are accepted. */
    lemma JudgedExclusively(q: u16)
      ensures Judgement(q).accept == !Judgement(q).onProbation
      ensures validated || probationType == NoProbation ==> Judgement(q).accept
    {
    }

    /** The queue is read only once the source is validated, smallest number first. */
    method GetNextPacket() returns (p: Option<QueuedPacket>)
      requires Valid()
      modifies `packetList, `delivered
      ensures Valid()
      ensures p.Some? <==> validated && old(packetList) != []
      ensures p.Some? ==> old(packetList) == [p.value] + packetList && delivered == old(delivered) + [p.value]
      ensures p.Some? ==> forall i :: 0 <= i < |packetList| ==> p.value.extSeq < packetList[i].extSeq
      ensures p.None? ==> packetList == old(packetList) && delivered == old(delivered)
    {
      if !validated {
        return None;
      }
      if packetList == [] {
        return None;
      }
      p := Some(packetList[0]);
      LedgerDelivered(packetList, entered, delivered, evicted);
      packetList := packetList[1..];
      delivered := delivered + [p.value];
    }

    /** A CNAME is taken once and validates the source; other items are replaced or kept, as listed below. */
    method ProcessSDESItem(sdesId: byte, data: seq<byte>, receiveTime: RTPTime) returns (cnameCollision: bool)
      requires Valid()
      modifies `items, `validated, `lastNoteTime, stats`lastMsgTime
      ensures Valid() && stats.lastMsgTime == receiveTime
      ensures items == ItemsAfter(old(items), sdesId, data)
      ensures cnameCollision <==>
        sdesId == ID_CNAME && Item(old(items), ID_CNAME) != [] && Item(old(items), ID_CNAME) != data
      ensures validated == (old(validated) || (sdesId == ID_CNAME && Item(old(items), ID_CNAME) == []))
      ensures lastNoteTime == if sdesId == ID_NOTE then receiveTime else old(lastNoteTime)
    {
      hide Increasing, Ledger;
      stats.SetLastMessageTime(receiveTime);
      if sdesId == ID_CNAME {
        var oldCname := Item(items, ID_CNAME);
        if |oldCname| == 0 {
          items := items[ID_CNAME := data];
          validated := true;
          return false;
        }
        return |oldCname| != |data| || data != oldCname;
      }
      if sdesId == ID_NAME || sdesId == ID_EMAIL || sdesId == ID_TOOL {
        if |Item(items, sdesId)| == 0 {
          items := items[sdesId := data];
        }
      } else if sdesId == ID_PHONE || sdesId == ID_LOC {
        items := items[sdesId := data];
      } else if sdesId == ID_NOTE {
        lastNoteTime := receiveTime;
        items := items[sdesId := data];
      }
      return false;
    }

    method ProcessBYEPacket(reason: seq<byte>, receiveTime: RTPTime)
      requires Valid()
      modifies `receivedBye, `byeTime, `byeReason, stats`lastMsgTime
      ensures Valid() && receivedBye && byeTime == receiveTime && byeReason == reason && !IsActive()
      ensures stats.lastMsgTime == receiveTime
    {
      byeTime, byeReason, receivedBye := receiveTime, reason, true;
      stats.SetLastMessageTime(receiveTime);
    }
  }

  /** Finds the place of a number from the end of the queue, or the packet that already has it. */
  method FindPlace(q: seq<QueuedPacket>, n: u32) returns (place: nat, duplicate: bool)
    requires Increasing(q) && q != []
    ensures place <= |q| && (duplicate <==> HasNumber(q, n))
    ensures !duplicate ==> place == Rank(q, n)
  {
    var it, done := |q| - 1, false;
    place, duplicate := 0, false;
    while !done
      invariant 0 <= it < |q|
      invariant forall i :: it < i < |q| ==> q[i].extSeq > n
      invariant place <= |q| && (done && duplicate ==> HasNumber(q, n))
      invariant done && !duplicate ==> !HasNumber(q, n) && place == Rank(q, n)
      invariant !done ==> !duplicate
      decreases it, !done
    {
      if q[it].extSeq > n {
        if it != 0 {
          it := it - 1;
        } else {
          place, done := 0, true;
          RankUnique(q, n, 0);
        }
      } else if q[it].extSeq < n {
        place, done := it + 1, true;
        RankUnique(q, n, it + 1);
        RankSplits(q, n);
      } else {
        done, duplicate := true, true;
      }
    }
  }

  const ID_CNAME: byte := 1
  const ID_NAME: byte := 2
  const ID_EMAIL: byte := 3
  const ID_PHONE: byte := 4
  const ID_LOC: byte := 5
  const ID_TOOL: byte := 6
  const ID_NOTE: byte := 7

  function Item(items: map<byte, seq<byte>>, id: byte): seq<byte> {
    if id in items then items[id] else []
  }

  /** CNAME, NAME, EMAIL and TOOL stay as they were first set; PHONE, LOC and NOTE follow the sender. */
  function ItemsAfter(items: map<byte, seq<byte>>, id: byte, data: seq<byte>): map<byte, seq<byte>> {
    if id in {ID_CNAME, ID_NAME, ID_EMAIL, ID_TOOL} then (if Item(items, id) == [] then items[id := data] else items)
    else if id in {ID_PHONE, ID_LOC, ID_NOTE} then items[id := data]
    else items
  }

  function ItemsAfterAll(items: map<byte, seq<byte>>, received: seq<(byte, seq<byte>)>): map<byte, seq<byte>> {
    if received == [] then items
    else
      var n := |received| - 1;
      ItemsAfter(ItemsAfterAll(items, received[..n]), received[n].0, received[n].1)
  }

  /** Whatever a source sends later, an item that is taken once keeps its first non-empty value. */
  lemma {:induction false} FirstValueStays(items: map<byte, seq<byte>>, id: byte, received: seq<(byte, seq<byte>)>)
    requires id in {ID_CNAME, ID_NAME, ID_EMAIL, ID_TOOL} && Item(items, id) != []
    ensures Item(ItemsAfterAll(items, received), id) == Item(items, id)
  {
    if received != [] {
      FirstValueStays(items, id, received[..|received| - 1]);
    }
  }

  /** The first text received for an item that is not empty, and the last text received for it. */
  function FirstText(received: seq<(byte, seq<byte>)>, id: byte): seq<byte> {
    if received == [] then []
    else if received[0].0 == id && received[0].1 != [] then received[0].1
    else FirstText(received[1..], id)
  }

  function LastText(before: seq<byte>, received: seq<(byte, seq<byte>)>, id: byte): seq<byte>
    decreases |received|
  {
    if received == [] then before
    else LastText(if received[0].0 == id then received[0].1 else before, received[1..], id)
  }

  lemma {:induction false} ItemsAfterFirst(items: map<byte, seq<byte>>, received: seq<(byte, seq<byte>)>)
    requires received != []
    ensures ItemsAfterAll(items, received)
         == ItemsAfterAll(ItemsAfter(items, received[0].0, received[0].1), received[1..])
    decreases |received|
  {
    hide ItemsAfter;
    var n := |received| - 1;
    if n > 0 {
      ItemsAfterFirst(items, received[..n]);
      assert received[..n][1..] == received[1..][..n - 1];
    } else {
      assert received[..0] == [] && received[1..] == [];
    }
  }

  /**
   * What a source has told about itself: CNAME (1), NAME (2), EMAIL (3) and TOOL (6) are what it said first, PHONE (4),
   * LOC (5) and NOTE (7) what it said last; nothing else is remembered.
   */
  lemma {:induction false} ItemsExact(items: map<byte, seq<byte>>, received: seq<(byte, seq<byte>)>, id: byte)
    ensures Item(ItemsAfterAll(items, received), id)
         == if id in {1, 2, 3, 6} then (if Item(items, id) != [] then Item(items, id) else FirstText(received, id))
            else if id in {4, 5, 7} then LastText(Item(items, id), received, id)
            else Item(items, id)
    decreases |received|
  {
    if received != [] {
      ItemsAfterFirst(items, received);
      ItemsExact(ItemsAfter(items, received[0].0, received[0].1), received[1..], id);
    }
  }

  lemma NextExtended(s: SeqState, q: u16)
    requires s.sentData && s.extHighSeq % 0x1_0000 <= q && s.numCycles <= 0x1_0000
    ensures var (t, o) := Step(s, q, false);
      && t.sentData && t.extHighSeq == o.extSeq == s.numCycles + q && t.numCycles == s.numCycles
      && o.accept && !o.onProbation
  {
  }

  lemma FirstAtOnce(q: u16)
    ensures var (t, o) := Step(INITIAL, q, false);
      && t.sentData && t.extHighSeq == o.extSeq == t.numCycles + q && t.numCycles <= 0x1_0000
      && t.numCycles % 0x1_0000 == 0 && o.accept && !o.onProbation
  {
  }

  lemma JudgedAtOnce(q: u16)
    requires q <= 65533
    ensures var (s1, o1) := Step(INITIAL, q, false);
      var (s2, o2) := Step(s1, q + 1, false);
      var o3 := Step(s2, q + 2, false).1;
      && o1.accept && o2.accept && o3.accept && !o1.onProbation && !o2.onProbation && !o3.onProbation
      && o1.extSeq < o2.extSeq < o3.extSeq
  {
    hide Step;
    FirstAtOnce(q);
    var s1 := Step(INITIAL, q, false).0;
    NextExtended(s1, q + 1);
    NextExtended(Step(s1, q + 1, false).0, q + 2);
  }

  lemma JudgedOnProbation(q: u16)
    requires q <= 65533
    ensures var (s1, o1) := Step(INITIAL, q, true);
      var (s2, o2) := Step(s1, q + 1, true);
      var o3 := Step(s2, q + 2, true).1;
      && !o1.accept && !o2.accept && o3.accept && o1.onProbation && o2.onProbation && !o3.onProbation
      && o1.extSeq < o2.extSeq < o3.extSeq
  {
    hide Extend;
  }

  /** How the statistics judge three packets in a row from an unknown source. */
  lemma JudgedThree(q: u16, apply: bool)
    requires q <= 65533
    ensures var (s1, o1) := Step(INITIAL, q, apply);
      var (s2, o2) := Step(s1, q + 1, apply);
      var o3 := Step(s2, q + 2, apply).1;
      && o1.accept == o2.accept == !apply && o1.onProbation == o2.onProbation == apply
      && o3.accept && !o3.onProbation
      && o1.extSeq < o2.extSeq < o3.extSeq
  {
    hide Step;
    JudgedAtOnce(q);
    JudgedOnProbation(q);
  }

  lemma StoredNew(q: seq<QueuedPacket>, p: QueuedPacket, validated: bool)
    requires Increasing(q) && |q| <= 2 && forall x :: x in multiset(q) ==> x.extSeq != p.extSeq
    ensures var (r, stored) := Enqueue(q, p, validated);
      stored && Increasing(r) && multiset(r) == multiset(q) + multiset{p} && |r| == |q| + 1
  {
    EnqueueExact(q, p, validated);
    hide Enqueue;
    forall i | 0 <= i < |q| ensures q[i].extSeq != p.extSeq {
      assert q[i] in multiset(q);
    }
    var r := Enqueue(q, p, validated).0;
    assert |multiset(r)| == |r| && |multiset(q)| == |q|;
  }

  /** The numbers in the queue are below this one. */
  ghost predicate Below(q: seq<QueuedPacket>, n: int) {
    forall x :: x in q ==> x.extSeq < n
  }

  lemma StoredAbove(q: seq<QueuedPacket>, p: QueuedPacket, validated: bool)
    requires Increasing(q) && |q| <= 2 && Below(q, p.extSeq)
    ensures var (r, stored) := Enqueue(q, p, validated); stored && |r| == |q| + 1 && Below(r, p.extSeq + 1)
  {
    hide Increasing, Enqueue;
    forall x | x in multiset(q) ensures x.extSeq != p.extSeq {
      assert x in q;
    }
    StoredNew(q, p, validated);
    var r := Enqueue(q, p, validated).0;
    forall x | x in r ensures x.extSeq < p.extSeq + 1 {
      assert x in multiset(q) + multiset{p};
    }
  }

  /** A packet with a number above those that are queued. */
  method Receive(source: RTPInternalSourceData, q: u16, time: RTPTime) returns (kept: bool)
    requires source.Valid() && Normal(time) && |source.packetList| <= 2
    requires Below(source.packetList, source.Judgement(q).extSeq)
    modifies source`packetList, source`validated, source`isSender, source`entered, source`evicted, source.stats
    ensures source.Valid() && kept == source.Kept(old(source.Judgement(q)))
    ensures source.stats.State()
      == Step(old(source.stats.State()), q, !old(source.validated) && source.probationType != NoProbation).0
    ensures source.validated == (old(source.validated) || old(source.Judgement(q)).accept)
    ensures source.isSender == (old(source.isSender) || (old(source.Judgement(q)).accept && !source.ownSsrc))
    ensures |source.packetList| <= old(|source.packetList|) + 1
    ensures Below(source.packetList, old(source.Judgement(q)).extSeq + 1)
  {
    hide Ledger, Increasing, Dropped, Enqueue, Step, RTPSourceStats.Valid, RTPInternalSourceData.Judgement;
    StoredAbove(source.packetList, QueuedPacket(source.Judgement(q).extSeq, 0, []), true);
    StoredAbove(source.packetList, QueuedPacket(source.Judgement(q).extSeq, 0, []), false);
    kept := source.ProcessRTPPacket(q, 0, [], time, 0.0);
  }

  /**
   * Three packets with consecutive numbers, the first ones from this source: without probation all are kept and handed
   * out, with stored probation packets all are kept but handed out only when the third has arrived, otherwise the
   * third is the first that is kept.
   */
  method FirstThree(probation: ProbationType, q: u16, times: seq<RTPTime>)
    returns (source: RTPInternalSourceData, kept: seq<bool>, readable: seq<bool>)
    requires q <= 65533 && |times| == 3 && forall i :: 0 <= i < 3 ==> Normal(times[i])
    ensures fresh(source) && fresh(source.stats) && source.Valid() && source.validated && source.isSender
    ensures kept == if probation == ProbationDiscard then [false, false, true] else [true, true, true]
    ensures readable == if probation == NoProbation then [true, true, true] else [false, false, true]
  {
    hide RTPInternalSourceData.Valid, Step, Below;
    JudgedThree(q, probation != NoProbation);
    source := new RTPInternalSourceData(1, probation);
    NoneBelow(source.Judgement(q).extSeq);
    var s1 := Receive(source, q, times[0]);
    var v1 := source.validated;
    BelowMore(source.packetList, source.Judgement(q + 1).extSeq);
    var s2 := Receive(source, q + 1, times[1]);
    var v2 := source.validated;
    BelowMore(source.packetList, source.Judgement(q + 2).extSeq);
    var s3 := Receive(source, q + 2, times[2]);
    kept, readable := [s1, s2, s3], [v1, v2, source.validated];
  }

  lemma NoneBelow(n: int)
    ensures Below([], n)
  {
  }

  lemma BelowMore(q: seq<QueuedPacket>, n: int)
    ensures forall m :: m <= n && Below(q, m) ==> Below(q, n)
  {
  }
}
