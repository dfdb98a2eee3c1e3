/**
 * RTPSourceStats: probation, sequence numbers extended over 16-bit wraparound, interarrival jitter, and
 * the counters loss is computed from (section 6.4.1 and appendices A.1 and A.3 of RFC 3550).
 */
module SourceStats {
  import opened Bytes
  import opened Prelude
  import opened RtpTime

  const SEQ_MOD := 0x1_0000
  const WORD_MOD := 0x1_0000_0000
  const PROBATION_COUNT := 2

  // ---------------------------------------------------------------- the sequence state, on values

  datatype SeqState = SeqState(sentData: bool, packetsReceived: u32, numCycles: u32, baseSeq: u32, extHighSeq: u32,
                               numNewPackets: u32, savedExtSeq: u32, prevSeq: u16, probation: nat)

  const INITIAL := SeqState(false, 0, 0, 0, 0, 0, 0, 0, 0)

  /** What ProcessPacket says about a packet, and the number it stores in it. */
  datatype Outcome = Outcome(accept: bool, onProbation: bool, extSeq: u32)

  function Inc(x: u32): u32 {
    (x + 1) % 0x1_0000_0000
  }

  /** The first packet that is accepted. */
  function Begin(s: SeqState, q: u16): SeqState {
    var (base: u32, cycles: u32) := if q == 0 then (0xFFFF, 0x1_0000) else (q - 1, s.numCycles);
    s.(sentData := true, packetsReceived := Inc(s.packetsReceived), numNewPackets := Inc(s.numNewPackets),
       baseSeq := base, numCycles := cycles, extHighSeq := Inc(base), savedExtSeq := base)
  }

  /** A packet before any was accepted, with probation: true when it ends the probation. */
  function Probe(s: SeqState, q: u16): (SeqState, bool) {
    if s.probation == 0 || (s.prevSeq + 1) % 0x1_0000 != q then (s.(probation := PROBATION_COUNT, prevSeq := q), false)
    else (s.(probation := s.probation - 1, prevSeq := q), s.probation == 1)
  }

  /** A packet after the first. */
  function Extend(s: SeqState, q: u16): (SeqState, u32) {
    var maxSeq16 := s.extHighSeq % 0x1_0000;
    var t := s.(packetsReceived := Inc(s.packetsReceived), numNewPackets := Inc(s.numNewPackets));
    if q >= maxSeq16 then
      var ext := (s.numCycles + q) % 0x1_0000_0000;
      (t.(extHighSeq := ext), ext)
    else if (q - maxSeq16) % 0x1_0000 < (maxSeq16 - q) % 0x1_0000 then
      var cycles := (s.numCycles + 0x1_0000) % 0x1_0000_0000;
      var ext := (cycles + q) % 0x1_0000_0000;
      (t.(numCycles := cycles, extHighSeq := ext), ext)
    else
      (t, (s.numCycles + q) % 0x1_0000_0000)
  }

  function Step(s: SeqState, q: u16, applyProbation: bool): (SeqState, Outcome) {
    if s.sentData then
      var (t, ext) := Extend(s, q);
      (t, Outcome(true, false, ext))
    else if !applyProbation then
      var t := Begin(s, q);
      (t, Outcome(true, false, t.extHighSeq))
    else
      var (p, over) := Probe(s, q);
      if over then
        var t := Begin(p, q);
        (t, Outcome(true, false, t.extHighSeq))
      else (p, Outcome(false, true, q))
  }

  // ---------------------------------------------------------------- jitter

  /** The difference of two timestamps; one of 2^28 or more is taken for a wraparound. */
  function TimestampDifference(cur: u32, prev: u32): int {
    var d := cur - prev;
    if -0x1000_0000 < d < 0x1000_0000 then d else if d > 0 then d - 0x1_0000_0000 else d + 0x1_0000_0000
  }

  /**
   * A true change of less than 2^32 ticks in either direction is found exactly when it is less than 2^28 and does not
   * wrap, or wraps and leaves the two timestamps at least 2^28 apart.
   */
  lemma TimestampDifferenceExact(prev: u32, change: int)
    requires -0x1_0000_0000 < change < 0x1_0000_0000
    ensures TimestampDifference((prev + change) % 0x1_0000_0000, prev) == change
      <==> if 0 <= prev + change < 0x1_0000_0000 then -0x1000_0000 < change < 0x1000_0000
           else -0xF000_0000 <= change <= 0xF000_0000
  {
  }

  function Abs(x: real): real {
    if x < 0.0 then -x else x
  }

  /** One sixteenth of the new deviation replaces one sixteenth of the old value. */
  function Smoothed(j: real, arrival: real, stamps: real): real {
    j + (Abs(arrival - stamps) - j) / 16.0
  }

  /** The new estimate is the old one to fifteen sixteenths and the deviation to one. */
  lemma SmoothedExact(j: real, arrival: real, stamps: real)
    ensures 16.0 * Smoothed(j, arrival, stamps)
         == 15.0 * j + if arrival >= stamps then arrival - stamps else stamps - arrival
  {
  }

  /** The estimate moves towards the deviation of the packet and never past it. */
  lemma SmoothedBounds(j: real, arrival: real, stamps: real)
    ensures var d, j' := Abs(arrival - stamps), Smoothed(j, arrival, stamps);
      if j <= d then j <= j' <= d else d <= j' <= j
    ensures j >= 0.0 ==> Smoothed(j, arrival, stamps) >= 0.0
  {
  }

  // ---------------------------------------------------------------- the class

  class RTPSourceStats {
    var sentData: bool
    var packetsReceived: u32
    var numCycles: u32
    var baseSeq: u32
    var extHighSeq: u32
    var prevExtHighSeq: u32
    var numNewPackets: u32
    var savedExtSeq: u32
    var prevSeq: u16
    var probation: nat

    var jitter: nat
    var dJitter: real
    var prevTimestamp: u32
    var prevPackTime: RTPTime
    var lastMsgTime: RTPTime
    var lastRtpTime: RTPTime

    ghost function State(): SeqState
      reads `sentData, `packetsReceived, `numCycles, `baseSeq, `extHighSeq, `numNewPackets, `savedExtSeq, `prevSeq
      reads `probation
    {
      SeqState(sentData, packetsReceived, numCycles, baseSeq, extHighSeq, numNewPackets, savedExtSeq, prevSeq,
               probation)
    }

    /** The reported jitter is the whole part of a smoothed deviation that is never negative. */
    ghost predicate Valid()
      reads `dJitter, `jitter, `prevPackTime
    {
      dJitter >= 0.0 && jitter == dJitter.Floor && Normal(prevPackTime)
    }

    constructor ()
      ensures Valid() && State() == INITIAL
    {
      sentData, packetsReceived, numCycles, baseSeq, extHighSeq := false, 0, 0, 0, 0;
      prevExtHighSeq, numNewPackets, savedExtSeq, prevSeq, probation := 0, 0, 0, 0, 0;
      jitter, dJitter, prevTimestamp := 0, 0.0, 0;
      prevPackTime, lastMsgTime, lastRtpTime := RTPTime(0, 0), RTPTime(0, 0), RTPTime(0, 0);
    }

    /** `q` is the 16-bit number of the packet; `extSeq` is the number that is stored in its place. */
    method ProcessPacket(q: u16, timestamp: u32, receiveTime: RTPTime, tsUnit: real, ownPacket: bool,
                         applyProbation: bool)
      returns (accept: bool, onProbation: bool, extSeq: u32)
      requires Valid() && Normal(receiveTime)
      modifies this
      ensures Valid()
      ensures (State(), Outcome(accept, onProbation, extSeq)) == Step(old(State()), q, applyProbation)
      ensures lastMsgTime == receiveTime
      ensures prevTimestamp == if accept then timestamp else old(prevTimestamp)
      ensures prevPackTime == if accept then receiveTime else old(prevPackTime)
      ensures lastRtpTime == if accept && !ownPacket then receiveTime else old(lastRtpTime)
      ensures dJitter == if !old(sentData) then old(dJitter) else if tsUnit <= 0.0 then 0.0
        else Smoothed(old(dJitter), GetDouble(Minus(receiveTime, old(prevPackTime))) / tsUnit,
                      TimestampDifference(timestamp, old(prevTimestamp)) as real)
    {
      hide Probe, Begin, Extend, Smoothed, TimestampDifference;
      onProbation, extSeq := false, q;
      if !sentData {
        var acceptPacket := true;
        if applyProbation {
          acceptPacket := CountDown(q);
          onProbation := !acceptPacket;
        }
        if acceptPacket {
          accept := true;
          extSeq := AcceptSequence(q);
          NoteArrival(timestamp, receiveTime, ownPacket);
        } else {
          accept := false;
          lastMsgTime := receiveTime;
        }
      } else {
        accept := true;
        extSeq := ExtendSequence(q);
        UpdateJitter(timestamp, receiveTime, tsUnit);
        NoteArrival(timestamp, receiveTime, ownPacket);
      }
    }

    /** The probation of a source that has sent no data yet: true when this packet ends it. */
    method CountDown(q: u16) returns (acceptPacket: bool)
      modifies `prevSeq, `probation
      ensures (State(), acceptPacket) == Probe(old(State()), q)
    {
      acceptPacket := false;
      if probation != 0 {
        var pseq: u16 := (prevSeq + 1) % 0x1_0000;
        if pseq == q {
          prevSeq, probation := q, probation - 1;
          if probation == 0 {
            acceptPacket := true;
          }
        } else {
          probation, prevSeq := PROBATION_COUNT, q;
        }
      } else {
        probation, prevSeq := PROBATION_COUNT, q;
      }
    }

    /** The sequence numbers of ACCEPTPACKETCODE. */
    method AcceptSequence(q: u16) returns (extSeq: u32)
      modifies `sentData, `packetsReceived, `numNewPackets, `baseSeq, `numCycles, `extHighSeq, `prevExtHighSeq
      modifies `savedExtSeq
      ensures State() == Begin(old(State()), q) && extSeq == extHighSeq
    {
      hide Inc;
      var base: u32, cycles: u32 := 0xFFFF, 0x1_0000;
      if q != 0 {
        base, cycles := q - 1, numCycles;
      }
      sentData, packetsReceived, numNewPackets := true, Inc(packetsReceived), Inc(numNewPackets);
      baseSeq, numCycles, extHighSeq, prevExtHighSeq, savedExtSeq := base, cycles, Inc(base), base, base;
      extSeq := extHighSeq;
    }

    /** What is remembered of every accepted packet. */
    method NoteArrival(timestamp: u32, receiveTime: RTPTime, ownPacket: bool)
      modifies `prevPackTime, `prevTimestamp, `lastMsgTime, `lastRtpTime
      ensures prevTimestamp == timestamp && prevPackTime == lastMsgTime == receiveTime
      ensures lastRtpTime == if ownPacket then old(lastRtpTime) else receiveTime
    {
      prevPackTime, prevTimestamp, lastMsgTime := receiveTime, timestamp, receiveTime;
      if !ownPacket {
        lastRtpTime := prevPackTime;
      }
    }

    method ExtendSequence(q: u16) returns (extSeq: u32)
      modifies `packetsReceived, `numNewPackets, `numCycles, `extHighSeq
      ensures (State(), extSeq) == Extend(old(State()), q)
    {
      packetsReceived, numNewPackets := Inc(packetsReceived), Inc(numNewPackets);
      var maxSeq16: u16 := extHighSeq % 0x1_0000;
      if q >= maxSeq16 {
        extSeq := (numCycles + q) % 0x1_0000_0000;
        extHighSeq := extSeq;
      } else {
        var dif1: u16 := (q - maxSeq16) % 0x1_0000;
        var dif2: u16 := (maxSeq16 - q) % 0x1_0000;
        if dif1 < dif2 {
          numCycles := (numCycles + 0x1_0000) % 0x1_0000_0000;
          extSeq := (numCycles + q) % 0x1_0000_0000;
          extHighSeq := extSeq;
        } else {
          extSeq := (numCycles + q) % 0x1_0000_0000;
        }
      }
    }

    method UpdateJitter(timestamp: u32, receiveTime: RTPTime, tsUnit: real)
      requires Valid()
      modifies `jitter, `dJitter
      ensures Valid()
      ensures dJitter == if tsUnit <= 0.0 then 0.0
        else Smoothed(old(dJitter), GetDouble(Minus(receiveTime, prevPackTime)) / tsUnit,
                      TimestampDifference(timestamp, prevTimestamp) as real)
    {
      if tsUnit > 0.0 {
        var diffts1 := GetDouble(Minus(receiveTime, prevPackTime)) / tsUnit;
        var diffts2: int := 0;
        if timestamp > prevTimestamp {
          var unsignedDiff: u32 := timestamp - prevTimestamp;
          if unsignedDiff < 0x1000_0000 {
            diffts2 := unsignedDiff;
          } else {
            unsignedDiff := 0x1_0000_0000 - unsignedDiff;
            diffts2 := -(unsignedDiff as int);
          }
        } else if timestamp < prevTimestamp {
          var unsignedDiff: u32 := prevTimestamp - timestamp;
          if unsignedDiff < 0x1000_0000 {
            diffts2 := -(unsignedDiff as int);
          } else {
            unsignedDiff := 0x1_0000_0000 - unsignedDiff;
            diffts2 := unsignedDiff;
          }
        }
        var diff := diffts1 - diffts2 as real;
        if diff < 0.0 {
          diff := -diff;
        }
        SmoothedBounds(dJitter, diffts1, diffts2 as real);
        diff := diff - dJitter;
        diff := diff / 16.0;
        dJitter := dJitter + diff;
        jitter := dJitter.Floor;
      } else {
        dJitter, jitter := 0.0, 0;
      }
    }

    method SetLastMessageTime(t: RTPTime)
      modifies `lastMsgTime
      ensures lastMsgTime == t
    {
      lastMsgTime := t;
    }

    method StartNewInterval()
      modifies `numNewPackets, `savedExtSeq
      ensures State() == NewInterval(old(State()))
    {
      numNewPackets, savedExtSeq := 0, extHighSeq;
    }
  }

  function NewInterval(s: SeqState): SeqState {
    s.(numNewPackets := 0, savedExtSeq := s.extHighSeq)
  }

  // ---------------------------------------------------------------- probation

  /** The state after packets that arrive one after the other. */
  function After(s: SeqState, qs: seq<u16>, applyProbation: bool): SeqState {
    if qs == [] then s else Step(After(s, qs[..|qs| - 1], applyProbation), qs[|qs| - 1], applyProbation).0
  }

  predicate Follows(qs: seq<u16>, i: int)
    requires i < |qs|
  {
    i > 0 && qs[i] == (qs[i - 1] + 1) % SEQ_MOD
  }

  /** Packet `i` completes three consecutive numbers modulo 65536. */
  predicate Completes(qs: seq<u16>, i: int)
    requires i < |qs|
  {
    i > 1 && Follows(qs, i) && Follows(qs, i - 1)
  }

  ghost predicate Completed(qs: seq<u16>) {
    exists i :: 0 <= i < |qs| && Completes(qs, i)
  }

  lemma CompletedStep(qs: seq<u16>)
    requires qs != []
    ensures Completed(qs) <==> Completed(qs[..|qs| - 1]) || Completes(qs, |qs| - 1)
  {
    var rs := qs[..|qs| - 1];
    forall i | 0 <= i < |rs|
      ensures Completes(rs, i) == Completes(qs, i)
    {
    }
    if Completed(rs) {
      var i :| 0 <= i < |rs| && Completes(rs, i);
      assert Completes(qs, i);
    }
  }

  /** While on probation the countdown tells how far the last packets follow one another. */
  lemma {:induction false} ProbationState(qs: seq<u16>)
    ensures var s := After(INITIAL, qs, true);
      && (s.sentData <==> Completed(qs))
      && (!s.sentData && qs != [] ==>
            s.prevSeq == qs[|qs| - 1] && s.probation == if Follows(qs, |qs| - 1) then 1 else 2)
      && (qs == [] ==> s == INITIAL)
    decreases |qs|
  {
    if qs != [] {
      var rs, n := qs[..|qs| - 1], |qs| - 1;
      ProbationState(rs);
      CompletedStep(qs);
      if n > 0 {
        assert Follows(rs, n - 1) == Follows(qs, n - 1);
      }
    }
  }

  /** With probation a packet is accepted exactly when it, or one before it, completes three in a row. */
  lemma AcceptedExactly(qs: seq<u16>, n: nat)
    requires n < |qs|
    ensures var o := Step(After(INITIAL, qs[..n], true), qs[n], true).1;
      (o.accept <==> Completed(qs[..n + 1])) && o.onProbation == !o.accept
  {
    ProbationState(qs[..n + 1]);
    assert qs[..n + 1][..n] == qs[..n];
    ProbationState(qs[..n]);
  }

  // ---------------------------------------------------------------- extended sequence numbers

  /** The maximum is the cycle count plus its low 16 bits. */
  predicate CyclesExact(s: SeqState) {
    s.sentData && s.numCycles % 0x1_0000 == 0 && s.extHighSeq == s.numCycles + s.extHighSeq % 0x1_0000
  }

  /** The extension in terms of block numbers. */
  lemma ExtendBlocks(s: SeqState, q: u16)
    requires CyclesExact(s)
    ensures var block, a := s.extHighSeq / 0x1_0000, s.extHighSeq % 0x1_0000;
      var ahead := q < a && a - q > 0x8000;
      var (t, ext) := Extend(s, q);
      && ext == (if ahead then (block + 1) % 0x1_0000 else block) * 0x1_0000 + q
      && t.extHighSeq == (if q >= a || ahead then ext else s.extHighSeq)
      && t.numCycles == (if ahead then (block + 1) % 0x1_0000 else block) * 0x1_0000
      && t.sentData
  {
    var block, a := s.extHighSeq / 0x1_0000, s.extHighSeq % 0x1_0000;
    assert s.numCycles == block * 0x1_0000 && block < 0x1_0000;
    NextCycle(block, q);
    if q < a {
      Behind(q, a);
    }
  }

  lemma Behind(q: u16, a: u16)
    requires q < a
    ensures (q - a) % 0x1_0000 < (a - q) % 0x1_0000 <==> a - q > 0x8000
  {
    assert (q - a) % 0x1_0000 == q - a + 0x1_0000 && (a - q) % 0x1_0000 == a - q;
  }

  lemma NextCycle(block: nat, q: u16)
    requires block < 0x1_0000
    ensures (block * 0x1_0000 + 0x1_0000) % 0x1_0000_0000 == (block + 1) % 0x1_0000 * 0x1_0000
    ensures (block * 0x1_0000 + q) % 0x1_0000_0000 == block * 0x1_0000 + q
    ensures ((block + 1) % 0x1_0000 * 0x1_0000 + q) % 0x1_0000_0000 == (block + 1) % 0x1_0000 * 0x1_0000 + q
  {
    if block == 0xFFFF {
      assert (block + 1) % 0x1_0000 == 0;
    } else {
      assert (block + 1) % 0x1_0000 == block + 1;
    }
  }

  lemma ExtendKeepsCycles(s: SeqState, q: u16)
    requires CyclesExact(s)
    ensures var t := Extend(s, q).0;
      CyclesExact(t) && (t.extHighSeq >= s.extHighSeq || (s.numCycles == 0xFFFF_0000 && t.numCycles == 0))
  {
    hide Extend;
    ExtendBlocks(s, q);
    var block := s.extHighSeq / 0x1_0000;
    var next := (block + 1) % 0x1_0000;
    assert (next * 0x1_0000 + q) % 0x1_0000 == q && (block * 0x1_0000 + q) % 0x1_0000 == q;
    assert next != block + 1 ==> block == 0xFFFF && next == 0;
  }

  /** Kept by every packet; the maximum decreases only where the 32-bit cycle count wraps around. */
  lemma CyclesKept(s: SeqState, q: u16, applyProbation: bool)
    requires if s.sentData then CyclesExact(s) else s.numCycles == 0
    ensures var t := Step(s, q, applyProbation).0;
      && (if t.sentData then CyclesExact(t) else t.numCycles == 0)
      && (s.sentData ==> t.extHighSeq >= s.extHighSeq || (s.numCycles == 0xFFFF_0000 && t.numCycles == 0))
  {
    hide Extend;
    if s.sentData {
      ExtendKeepsCycles(s, q);
    }
  }

  /** The state stands for a stream whose highest true index so far is `m`, numbered from an origin `c`. */
  predicate Tracks(s: SeqState, m: nat, c: int) {
    CyclesExact(s) && c % SEQ_MOD == 0 && s.extHighSeq == (m + c) % WORD_MOD
  }

  /** Where a packet must lie, seen from the maximum, for its number to be extended correctly. */
  predicate Near(m: nat, t: nat) {
    if t >= m then t / SEQ_MOD == m / SEQ_MOD || t - m < 0x8000
    else t / SEQ_MOD == m / SEQ_MOD && m - t <= 0x8000
  }

  /** Block and position of an index within a wrapped numbering. */
  lemma Blocks(t: nat, c: int)
    requires c % SEQ_MOD == 0
    ensures (t + c) % WORD_MOD == (t / 0x1_0000 + c / 0x1_0000) % 0x1_0000 * 0x1_0000 + t % 0x1_0000
  {
    var b := t / 0x1_0000 + c / 0x1_0000;
    assert t + c == b * 0x1_0000 + t % 0x1_0000;
    assert b == b / 0x1_0000 * 0x1_0000 + b % 0x1_0000;
    var r := b % 0x1_0000 * 0x1_0000 + t % 0x1_0000;
    assert t + c == b / 0x1_0000 * 0x1_0000_0000 + r;
  }

  lemma Word(b: nat, r: nat)
    requires r < 0x1_0000
    ensures (b * 0x1_0000 + r) / 0x1_0000 == b && (b * 0x1_0000 + r) % 0x1_0000 == r
  {
  }

  /** The index of `t` is right exactly when its block is the one the extension chose. */
  lemma ExtensionBlock(s: SeqState, m: nat, c: int, t: nat)
    requires Tracks(s, m, c)
    ensures var bm, bt, a, q := m / 0x1_0000 + c / 0x1_0000, t / 0x1_0000 + c / 0x1_0000, m % 0x1_0000, t % 0x1_0000;
      var ahead := q < a && a - q > 0x8000;
      var (u, ext) := Extend(s, q);
      && (ext == (t + c) % 0x1_0000_0000 <==> (bt - bm - if ahead then 1 else 0) % 0x1_0000 == 0)
      && (u.extHighSeq == if q >= a || ahead then ext else s.extHighSeq)
  {
    hide Extend;
    var bm, bt, a, q := m / 0x1_0000 + c / 0x1_0000, t / 0x1_0000 + c / 0x1_0000, m % 0x1_0000, t % 0x1_0000;
    Blocks(m, c);
    Blocks(t, c);
    Word(bm % 0x1_0000, a);
    ExtendBlocks(s, q);
    Residue(bt, bm);
    Residue(bt, bm + 1);
  }

  lemma Residue(x: int, y: int)
    ensures x % 0x1_0000 == y % 0x1_0000 <==> (x - y) % 0x1_0000 == 0
    ensures (y % 0x1_0000 + 1) % 0x1_0000 == (y + 1) % 0x1_0000
    ensures ((y - 1) % 0x1_0000 + 1) % 0x1_0000 == y % 0x1_0000
  {
  }

  /**
   * A packet gets its true extended index exactly when it is near the maximum. Indices count from an
   * arbitrary origin; the restriction keeps the distance below the 32-bit wrap of the result.
   */
  lemma ExtensionExact(s: SeqState, m: nat, c: int, t: nat)
    requires Tracks(s, m, c) && -0xFFFE_0000 < t - m < 0xFFFE_0000
    ensures Step(s, t % SEQ_MOD, true).1.extSeq == (t + c) % WORD_MOD <==> Near(m, t)
  {
    hide Extend;
    ExtensionBlock(s, m, c, t);
    NearBlocks(m, t);
  }

  /** Being near in terms of blocks. */
  lemma NearBlocks(m: nat, t: nat)
    ensures var a, q := m % 0x1_0000, t % 0x1_0000;
      var ahead := q < a && a - q > 0x8000;
      Near(m, t) <==> t / 0x1_0000 - m / 0x1_0000 == if ahead then 1 else 0
  {
    var bm, bt, a, q := m / 0x1_0000, t / 0x1_0000, m % 0x1_0000, t % 0x1_0000;
    assert m == bm * 0x1_0000 + a && t == bt * 0x1_0000 + q;
  }

  function Max(a: nat, b: nat): nat {
    if a < b then b else a
  }

  /** A near packet leaves the state tracking the new maximum. */
  lemma ExtensionTracks(s: SeqState, m: nat, c: int, t: nat)
    requires Tracks(s, m, c) && Near(m, t)
    ensures Tracks(Step(s, t % SEQ_MOD, true).0, Max(m, t), c)
    ensures Step(s, t % SEQ_MOD, true).1.extSeq == (t + c) % WORD_MOD
  {
    hide Extend;
    ExtensionBlock(s, m, c, t);
    NearBlocks(m, t);
    ExtendKeepsCycles(s, t % 0x1_0000);
    var bm, bt, a, q := m / 0x1_0000, t / 0x1_0000, m % 0x1_0000, t % 0x1_0000;
    assert m == bm * 0x1_0000 + a && t == bt * 0x1_0000 + q;
  }

  /** Every packet is near the highest index among those before it. */
  predicate AllNear(m: nat, ts: seq<nat>)
    decreases |ts|
  {
    ts == [] || (Near(m, ts[0]) && AllNear(Max(m, ts[0]), ts[1..]))
  }

  /** The extended numbers a run of packets gets. */
  function Extended(s: SeqState, ts: seq<nat>): (exts: seq<u32>)
    ensures |exts| == |ts|
    decreases |ts|
  {
    if ts == [] then []
    else
      var (t, o) := Step(s, ts[0] % SEQ_MOD, true);
      [o.extSeq] + Extended(t, ts[1..])
  }

  /** For any arrival order that stays near its maximum, every packet gets its true extended index. */
  lemma {:induction false} StreamExact(s: SeqState, m: nat, c: int, ts: seq<nat>)
    requires Tracks(s, m, c) && AllNear(m, ts)
    ensures forall i :: 0 <= i < |ts| ==> Extended(s, ts)[i] == (ts[i] + c) % WORD_MOD
    decreases |ts|
  {
    if ts != [] {
      hide Step, Near, Tracks;
      var t := Step(s, ts[0] % SEQ_MOD, true).0;
      ExtensionTracks(s, m, c, ts[0]);
      StreamExact(t, Max(m, ts[0]), c, ts[1..]);
      forall i | 0 <= i < |ts|
        ensures Extended(s, ts)[i] == (ts[i] + c) % WORD_MOD
      {
        if i > 0 {
          assert Extended(s, ts)[i] == Extended(t, ts[1..])[i - 1];
        }
      }
    }
  }

  /** The first accepted packet sets the origin of the numbering. */
  lemma StreamBegins(s: SeqState, t: nat)
    requires !s.sentData && s.numCycles == 0
    ensures var q := t % SEQ_MOD;
      var c := (if q == 0 then 0x1_0000 else q) - t;
      Tracks(Begin(s, q), t, c)
  {
    var q := t % SEQ_MOD;
    var c := (if q == 0 then 0x1_0000 else q) - t;
    assert c == -(t / 0x1_0000) * 0x1_0000 + if q == 0 then 0x1_0000 else 0;
  }

  // ---------------------------------------------------------------- loss

  datatype Event = Packet(q: u16, applyProbation: bool) | IntervalEnd

  // What the report blocks of all finished intervals said together.
  datatype Reported = Reported(expected: nat, received: nat)

  function IntervalExpected(s: SeqState): u32 {
    (s.extHighSeq - s.savedExtSeq) % 0x1_0000_0000
  }

  function Run(es: seq<Event>): (SeqState, Reported) {
    if es == [] then (INITIAL, Reported(0, 0))
    else
      var (s, r) := Run(es[..|es| - 1]);
      match es[|es| - 1]
      case Packet(q, apply) => (Step(s, q, apply).0, r)
      case IntervalEnd =>
        (NewInterval(s), Reported(r.expected + IntervalExpected(s), r.received + s.numNewPackets))
  }

  lemma ModAdd(a: int, b: int)
    ensures (a + b % WORD_MOD) % WORD_MOD == (a + b) % WORD_MOD
  {
    var k := b / WORD_MOD;
    assert a + b == a + b % WORD_MOD + k * WORD_MOD;
    ModShift(a + b % WORD_MOD, k);
  }

  lemma ModShift(x: int, k: int)
    ensures (x + k * WORD_MOD) % WORD_MOD == x % WORD_MOD
  {
    var q := x / WORD_MOD;
    assert x + k * WORD_MOD == (q + k) * WORD_MOD + x % WORD_MOD;
  }

  /** Up to multiples of 2^32 the finished intervals and the current one account for everything. */
  predicate Balanced(s: SeqState, r: Reported) {
    && r.expected % 0x1_0000_0000 == (s.savedExtSeq - s.baseSeq) % 0x1_0000_0000
    && (r.received + s.numNewPackets) % 0x1_0000_0000 == s.packetsReceived
    && (!s.sentData ==> r.expected == 0 && s.extHighSeq == s.savedExtSeq == s.baseSeq == 0)
  }

  lemma BalancedPacket(s: SeqState, r: Reported, q: u16, apply: bool)
    requires Balanced(s, r)
    ensures Balanced(Step(s, q, apply).0, r)
  {
    PacketKeepsBase(s, q, apply);
    ReceivedStep(r.received, s.numNewPackets, s.packetsReceived);
    hide Step, Inc;
  }

  lemma ReceivedStep(received: nat, new': u32, total: u32)
    requires (received + new') % 0x1_0000_0000 == total
    ensures (received + Inc(new')) % 0x1_0000_0000 == Inc(total)
  {
    ModAdd(received, new' + 1);
    ModAdd(1, received + new');
  }

  lemma BalancedInterval(s: SeqState, r: Reported)
    requires Balanced(s, r)
    ensures Balanced(NewInterval(s), Reported(r.expected + IntervalExpected(s), r.received + s.numNewPackets))
  {
    ModAdd(r.expected, s.extHighSeq - s.savedExtSeq);
    SumModulo(r.expected, s.savedExtSeq - s.baseSeq, s.extHighSeq - s.savedExtSeq);
  }

  lemma {:induction false} RunBalanced(es: seq<Event>)
    ensures Balanced(Run(es).0, Run(es).1)
    decreases |es|
  {
    if es != [] {
      hide Balanced, Step;
      RunBalanced(es[..|es| - 1]);
      var (s, r) := Run(es[..|es| - 1]);
      match es[|es| - 1]
      case Packet(q, apply) => BalancedPacket(s, r, q, apply);
      case IntervalEnd => BalancedInterval(s, r);
    } else {
      assert Balanced(INITIAL, Reported(0, 0));
    }
  }

  /**
   * Nothing is lost or counted twice between intervals: what they expected adds up to the distance from
   * the base to the highest number, what they received to the packets received (in 32-bit words).
   */
  lemma LossConserved(es: seq<Event>)
    ensures var (s, r) := Run(es);
      && (r.expected + IntervalExpected(s)) % WORD_MOD == (s.extHighSeq - s.baseSeq) % WORD_MOD
      && (r.received + s.numNewPackets) % WORD_MOD == s.packetsReceived
  {
    var (s, r) := Run(es);
    RunBalanced(es);
    hide Run;
    BalancedInterval(s, r);
  }

  // What a source sends, seen from outside: the packet with true index `t` arrives, or an interval ends.
  datatype Arrival = At(t: nat) | End

  function Events(arrivals: seq<Arrival>): (es: seq<Event>)
    ensures |es| == |arrivals|
  {
    seq(|arrivals|, i requires 0 <= i < |arrivals| =>
      if arrivals[i].End? then IntervalEnd else Packet(arrivals[i].t % 0x1_0000, true))
  }

  /** The highest index up to now, and how many packets have arrived. */
  function Highest(f: nat, arrivals: seq<Arrival>): (m: nat)
    ensures m >= f
    decreases |arrivals|
  {
    if arrivals == [] then f
    else
      var m := Highest(f, arrivals[..|arrivals| - 1]);
      var a := arrivals[|arrivals| - 1];
      if a.At? && a.t > m then a.t else m
  }

  function Arrived(arrivals: seq<Arrival>): nat {
    if arrivals == [] then 0
    else Arrived(arrivals[..|arrivals| - 1]) + if arrivals[|arrivals| - 1].At? then 1 else 0
  }

  /** Every packet is near the highest index among those before it. */
  predicate StayNear(f: nat, arrivals: seq<Arrival>) {
    forall i :: 0 <= i < |arrivals| && arrivals[i].At? ==> Near(Highest(f, arrivals[..i]), arrivals[i].t)
  }

  /** The events up to now: anything before the first accepted packet, that packet, and what follows. */
  function Heard(pre: seq<Event>, f: nat, apply: bool, arrivals: seq<Arrival>): seq<Event> {
    pre + [Packet(f % 0x1_0000, apply)] + Events(arrivals)
  }

  /** Packet `f` is the first that is accepted. */
  ghost predicate Opens(pre: seq<Event>, f: nat, apply: bool) {
    !Run(pre).0.sentData && Step(Run(pre).0, f % 0x1_0000, apply).1.accept
  }

  lemma RunSnoc(es: seq<Event>, e: Event)
    ensures var (s, r) := Run(es);
      Run(es + [e]) == match e
        case Packet(q, apply) => (Step(s, q, apply).0, r)
        case IntervalEnd => (NewInterval(s), Reported(r.expected + IntervalExpected(s), r.received + s.numNewPackets))
  {
    assert (es + [e])[..|es + [e]| - 1] == es;
  }

  /** The first accepted packet: the interval and the count of losses begin right before it. */
  lemma FirstAccepted(s: SeqState, q: u16, apply: bool)
    requires !s.sentData && Step(s, q, apply).1.accept
    ensures var t := Step(s, q, apply).0;
      && t.sentData && t.savedExtSeq == t.baseSeq && t.extHighSeq == (t.baseSeq + 1) % 0x1_0000_0000
      && t.extHighSeq % 0x1_0000 == q && Step(s, q, apply).1.extSeq == t.extHighSeq
      && t.packetsReceived == (s.packetsReceived + 1) % 0x1_0000_0000
  {
  }

  lemma {:induction false} NothingYet(es: seq<Event>)
    requires !Run(es).0.sentData
    ensures Run(es).0.numCycles == 0 && Run(es).0.packetsReceived == Run(es).0.numNewPackets == 0
    ensures Run(es).1 == Reported(0, 0)
    decreases |es|
  {
    if es != [] {
      var e := es[|es| - 1];
      assert es == es[..|es| - 1] + [e];
      RunSnoc(es[..|es| - 1], e);
      RunBalanced(es[..|es| - 1]);
      NothingYet(es[..|es| - 1]);
    }
  }

  lemma HeardSnoc(pre: seq<Event>, f: nat, apply: bool, arrivals: seq<Arrival>)
    requires arrivals != []
    ensures var n := |arrivals| - 1;
      Heard(pre, f, apply, arrivals) == Heard(pre, f, apply, arrivals[..n]) + [Events(arrivals)[n]]
  {
    var n := |arrivals| - 1;
    assert Events(arrivals) == Events(arrivals[..n]) + [Events(arrivals)[n]];
  }

  /** The state follows the stream: it tracks the highest index, and the base stays right before the first. */
  ghost predicate Following(s: SeqState, r: Reported, m: nat, f: nat, c: int, count: nat) {
    && Tracks(s, m, c) && s.baseSeq == (f + c - 1) % 0x1_0000_0000
    && (r.received + s.numNewPackets) % 0x1_0000_0000 == s.packetsReceived == count % 0x1_0000_0000
  }

  lemma AcceptedTracks(s: SeqState, f: nat, apply: bool)
    requires !s.sentData && s.numCycles == 0 && Step(s, f % 0x1_0000, apply).1.accept
    ensures Tracks(Step(s, f % 0x1_0000, apply).0, f, (if f % 0x1_0000 == 0 then 0x1_0000 else f % 0x1_0000) - f)
  {
    StreamBegins(s, f);
    StreamBegins(Probe(s, f % 0x1_0000).0, f);
    hide Begin, Tracks;
  }

  lemma BaseBefore(b: u32, x: int)
    requires (b + 1) % 0x1_0000_0000 == x % 0x1_0000_0000
    ensures b == (x - 1) % 0x1_0000_0000
  {
    SumModulo(b + 1, x, -1);
  }

  lemma FollowingBegins(pre: seq<Event>, f: nat, apply: bool) returns (c: int)
    requires Opens(pre, f, apply)
    ensures var (s, r) := Run(pre + [Packet(f % 0x1_0000, apply)]); Following(s, r, f, f, c, 1)
  {
    hide Run, Step, Tracks;
    var q := f % 0x1_0000;
    c := (if q == 0 then 0x1_0000 else q) - f;
    NothingYet(pre);
    RunSnoc(pre, Packet(q, apply));
    PacketKeepsBase(Run(pre).0, q, apply);
    FirstAccepted(Run(pre).0, q, apply);
    AcceptedTracks(Run(pre).0, f, apply);
    var s := Run(pre + [Packet(q, apply)]).0;
    assert s.extHighSeq == (f + c) % 0x1_0000_0000 by { TrackedHigh(s, f, c); }
    BaseBefore(s.baseSeq, f + c);
  }

  lemma TrackedHigh(s: SeqState, m: nat, c: int)
    requires Tracks(s, m, c)
    ensures s.extHighSeq == (m + c) % 0x1_0000_0000
  {
  }

  lemma FollowingStep(s: SeqState, r: Reported, m: nat, f: nat, c: int, count: nat, t: nat)
    requires Following(s, r, m, f, c, count) && Near(m, t)
    ensures Following(Step(s, t % 0x1_0000, true).0, r, Max(m, t), f, c, count + 1)
  {
    ExtensionTracks(s, m, c, t);
    PacketKeepsBase(s, t % 0x1_0000, true);
    hide Step, Tracks, Near;
    ReceivedStep(r.received, s.numNewPackets, s.packetsReceived);
    ModAdd(1, count);
  }

  lemma FollowingEnd(s: SeqState, r: Reported, m: nat, f: nat, c: int, count: nat)
    requires Following(s, r, m, f, c, count)
    ensures Following(NewInterval(s), Reported(r.expected + IntervalExpected(s), r.received + s.numNewPackets),
                      m, f, c, count)
  {
  }

  lemma StayedNear(f: nat, arrivals: seq<Arrival>)
    requires StayNear(f, arrivals) && arrivals != []
    ensures StayNear(f, arrivals[..|arrivals| - 1])
    ensures var a := arrivals[|arrivals| - 1]; a.At? ==> Near(Highest(f, arrivals[..|arrivals| - 1]), a.t)
  {
    hide Near, Highest;
    var before := arrivals[..|arrivals| - 1];
    assert forall i :: 0 <= i < |before| ==> before[i] == arrivals[i] && before[..i] == arrivals[..i];
  }

  /** One more event. */
  lemma FollowingMore(s: SeqState, r: Reported, f: nat, c: int, arrivals: seq<Arrival>)
    requires arrivals != [] && StayNear(f, arrivals)
    requires var before := arrivals[..|arrivals| - 1]; Following(s, r, Highest(f, before), f, c, 1 + Arrived(before))
    ensures var a, m, count := arrivals[|arrivals| - 1], Highest(f, arrivals), 1 + Arrived(arrivals);
      if a.At? then Following(Step(s, a.t % 0x1_0000, true).0, r, m, f, c, count)
      else Following(NewInterval(s), Reported(r.expected + IntervalExpected(s), r.received + s.numNewPackets),
                     m, f, c, count)
  {
    StayedNear(f, arrivals);
    hide Following, Step, Near;
    var before, a := arrivals[..|arrivals| - 1], arrivals[|arrivals| - 1];
    var m, count := Highest(f, before), 1 + Arrived(before);
    if a.At? {
      FollowingStep(s, r, m, f, c, count, a.t);
    } else {
      FollowingEnd(s, r, m, f, c, count);
    }
  }

  lemma {:induction false} FollowingAll(pre: seq<Event>, f: nat, apply: bool, arrivals: seq<Arrival>) returns (c: int)
    requires Opens(pre, f, apply) && StayNear(f, arrivals)
    ensures var (s, r) := Run(Heard(pre, f, apply, arrivals));
      Following(s, r, Highest(f, arrivals), f, c, 1 + Arrived(arrivals))
    decreases |arrivals|
  {
    hide Run, Following, Step, Heard, Near, StayNear, Opens, NewInterval, IntervalExpected;
    if arrivals == [] {
      NothingHeard(pre, f, apply);
      c := FollowingBegins(pre, f, apply);
    } else {
      var n := |arrivals| - 1;
      StayedNear(f, arrivals);
      c := FollowingAll(pre, f, apply, arrivals[..n]);
      HeardSnoc(pre, f, apply, arrivals);
      RunSnoc(Heard(pre, f, apply, arrivals[..n]), Events(arrivals)[n]);
      var (s, r) := Run(Heard(pre, f, apply, arrivals[..n]));
      FollowingMore(s, r, f, c, arrivals);
    }
  }

  lemma NothingHeard(pre: seq<Event>, f: nat, apply: bool)
    ensures Heard(pre, f, apply, []) == pre + [Packet(f % 0x1_0000, apply)]
  {
    assert Events([]) == [];
  }

  /**
   * For every run near its maximum: what all intervals, the current one included, expected is the number of indices
   * from the first accepted packet to the highest, and what they received is the number of packets that arrived.
   */
  lemma ExpectedExact(pre: seq<Event>, f: nat, apply: bool, arrivals: seq<Arrival>)
    requires Opens(pre, f, apply) && StayNear(f, arrivals)
    ensures var (s, r) := Run(Heard(pre, f, apply, arrivals) + [IntervalEnd]);
      && r.expected % 0x1_0000_0000 == (Highest(f, arrivals) - f + 1) % 0x1_0000_0000
      && r.received % 0x1_0000_0000 == (1 + Arrived(arrivals)) % 0x1_0000_0000 == s.packetsReceived
      && (s.extHighSeq - s.baseSeq) % 0x1_0000_0000 == (Highest(f, arrivals) - f + 1) % 0x1_0000_0000
  {
    hide Run, Heard, Opens, StayNear, Tracks, Highest, Arrived;
    var es := Heard(pre, f, apply, arrivals);
    var c := FollowingAll(pre, f, apply, arrivals);
    LossConserved(es);
    RunSnoc(es, IntervalEnd);
    var s, m := Run(es).0, Highest(f, arrivals);
    TrackedHigh(s, m, c);
    DifferenceModulo(m + c, f + c - 1);
  }

  // ---------------------------------------------------------------- which packets never arrived

  /** The indices that have arrived, each of them once and none before the first. */
  function Indices(f: nat, arrivals: seq<Arrival>): (r: set<nat>)
    ensures f in r
  {
    if arrivals == [] then {f}
    else
      var a := arrivals[|arrivals| - 1];
      Indices(f, arrivals[..|arrivals| - 1]) + if a.At? then {a.t} else {}
  }

  ghost predicate Once(f: nat, arrivals: seq<Arrival>) {
    forall i :: 0 <= i < |arrivals| && arrivals[i].At? ==>
      arrivals[i].t > f && arrivals[i].t !in Indices(f, arrivals[..i])
  }

  lemma {:induction false} IndicesCounted(f: nat, arrivals: seq<Arrival>)
    requires Once(f, arrivals)
    ensures |Indices(f, arrivals)| == 1 + Arrived(arrivals)
    ensures forall t :: t in Indices(f, arrivals) ==> f <= t <= Highest(f, arrivals)
    decreases |arrivals|
  {
    if arrivals != [] {
      var before, a := arrivals[..|arrivals| - 1], arrivals[|arrivals| - 1];
      assert forall i :: 0 <= i < |before| ==> before[i] == arrivals[i] && before[..i] == arrivals[..i];
      IndicesCounted(f, before);
    }
  }

  function Span(f: nat, m: nat): (r: set<nat>)
    requires f <= m
    ensures |r| == m - f + 1 && forall t: nat :: t in r <==> f <= t <= m
    decreases m
  {
    if m == f then {f} else Span(f, m - 1) + {m}
  }

  /** The indices from the first to the highest that have not arrived. */
  function Missing(f: nat, arrivals: seq<Arrival>): set<nat> {
    Span(f, Highest(f, arrivals)) - Indices(f, arrivals)
  }

  /** The indices expected are those that have arrived and those that have not. */
  lemma MissingCounted(f: nat, arrivals: seq<Arrival>)
    requires Once(f, arrivals)
    ensures |Missing(f, arrivals)| == Highest(f, arrivals) - f - Arrived(arrivals)
    ensures forall t: nat :: t in Missing(f, arrivals)
              <==> f <= t <= Highest(f, arrivals) && t !in Indices(f, arrivals)
  {
    IndicesCounted(f, arrivals);
    var all, seen := Span(f, Highest(f, arrivals)), Indices(f, arrivals);
    assert seen <= all;
    assert all == Missing(f, arrivals) + seen;
  }

  lemma DifferenceModulo(a: int, b: int)
    ensures (a % WORD_MOD - b % WORD_MOD) % WORD_MOD == (a - b) % WORD_MOD
  {
    ModAdd(-(b % WORD_MOD), a);
    ModAdd(a - b, b);
    var k := b / WORD_MOD;
    assert a - b % WORD_MOD == a - b + k * WORD_MOD;
    ModShift(a - b, k);
  }

  lemma SumModulo(a: int, b: int, x: int)
    requires a % WORD_MOD == b % WORD_MOD
    ensures (a + x) % WORD_MOD == (b + x) % WORD_MOD
  {
    ModAdd(x, a);
    ModAdd(x, b);
  }

  lemma PacketKeepsBase(s: SeqState, q: u16, apply: bool)
    ensures var t := Step(s, q, apply).0;
      && (s.sentData || !t.sentData ==> t.savedExtSeq == s.savedExtSeq && t.baseSeq == s.baseSeq)
      && (!s.sentData && t.sentData ==> t.savedExtSeq == t.baseSeq)
      && (!t.sentData ==> t.packetsReceived == s.packetsReceived && t.numNewPackets == s.numNewPackets
                          && t.extHighSeq == s.extHighSeq)
      && (t.sentData ==> t.packetsReceived == Inc(s.packetsReceived) && t.numNewPackets == Inc(s.numNewPackets))
  {
  }

  /** The fraction lost of a report block; None where the conversion to an octet is not defined. */
  function FractionLost(expected: u32, num: u32): Option<byte> {
    if expected < num then Some(0)
    else if expected == 0 then None
    else
      var scaled := ((expected - num) as real / expected as real * 256.0).Floor;
      if 0 <= scaled < 0x100 then Some(scaled) else None
  }

  /** The octet is defined exactly for intervals with a packet, and is the lost share in 256ths, rounded down. */
  lemma FractionLostExact(expected: u32, num: u32)
    ensures FractionLost(expected, num).Some? <==> num > 0
    ensures num > 0 && expected >= num ==>
      FractionLost(expected, num).value == 256 * (expected - num) / expected
    ensures expected < num ==> FractionLost(expected, num) == Some(0)
  {
    if expected >= num && expected > 0 {
      Scaled(expected - num, expected);
    }
  }

  lemma Scaled(lost: nat, expected: nat)
    requires lost <= expected && expected > 0
    ensures var f := (lost as real / expected as real * 256.0).Floor;
      f == 256 * lost / expected && 0 <= f <= 256 && (f == 256 <==> lost == expected)
  {
    var x := lost as real / expected as real * 256.0;
    ScaledBack(x, lost, expected);
    FloorWhole(x, expected, 256 * lost);
    QuotientBounds(lost, expected);
  }

  lemma ScaledBack(x: real, lost: nat, expected: nat)
    requires expected > 0 && x == lost as real / expected as real * 256.0
    ensures x * expected as real == (256 * lost) as real
  {
    var y := lost as real / expected as real;
    assert y * expected as real == lost as real;
    assert x * expected as real == y * expected as real * 256.0;
  }

  lemma QuotientBounds(lost: nat, expected: nat)
    requires lost <= expected && expected > 0
    ensures var f := 256 * lost / expected; 0 <= f <= 256 && (f == 256 <==> lost == expected)
  {
    DivideBounds(256 * lost, expected);
    ShareBounds(256 * lost / expected, lost, expected);
  }

  lemma ShareBounds(f: int, lost: nat, expected: nat)
    requires lost <= expected && expected > 0 && f * expected <= 256 * lost < (f + 1) * expected
    ensures 0 <= f <= 256 && (f == 256 <==> lost == expected)
  {
    MulMonotone(f + 1, 0, expected);
    MulMonotone(257, f, expected);
    MulMonotone(f + 1, 256, expected);
  }

  /** When x times e is the whole number n, the floor of x is n divided by e. */
  lemma FloorWhole(x: real, e: nat, n: int)
    requires e > 0 && x * e as real == n as real
    ensures x.Floor == n / e
  {
    var k, r := n / e, e as real;
    var y := x - k as real;
    assert y * r == x * r - k as real * r;
    Product(k, e);
    assert (k * e) as real + (n % e) as real == n as real;
    Between(y, r, (n % e) as real);
  }

  lemma Between(y: real, r: real, m: real)
    requires r > 0.0 && y * r == m && 0.0 <= m < r
    ensures 0.0 <= y < 1.0
  {
    if y < 0.0 {
      ScaleStrictly(y, 0.0, r);
    }
    if y >= 1.0 {
      ScaleUp(1.0, y, r);
    }
  }
}
