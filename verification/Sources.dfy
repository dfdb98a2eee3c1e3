/**
 * RTPSources: the source table, its three derived counters, SSRC collisions, and the timeouts that sweep
 * the table one by one or all at once.
 */
module Sources {
  import opened Bytes
  import opened Prelude
  import opened RtpTime
  import SourceStats
  import opened SourceData

  datatype Address = Address(host: nat, port: nat)

  // An address of a source: not set, our own session (the null address), or a remote address.
  datatype Slot = Unset | OwnSession | Remote(address: Address)

  /** One entry of the table, as far as the table itself depends on it. */
  datatype Source = Source(ssrc: u32, seqs: SourceStats.SeqState, validated: bool, isSender: bool, ownSsrc: bool,
                           isCsrc: bool, receivedBye: bool, byeTime: RTPTime, lastMsgTime: RTPTime,
                           lastRtpTime: RTPTime, items: map<byte, seq<byte>>, noteTime: RTPTime,
                           rtpAddress: Slot, rtcpAddress: Slot) {
    predicate IsActive() {
      validated && !receivedBye
    }
  }

  function NewSource(ssrc: u32): Source {
    var zero := RTPTime(0, 0);
    Source(ssrc, SourceStats.INITIAL, false, false, false, false, false, zero, zero, zero, map[], zero, Unset, Unset)
  }

  function SlotOf(sender: Option<Address>): Slot {
    match sender
    case None => OwnSession
    case Some(a) => Remote(a)
  }

  /**
   * CheckCollision: true when the sender contradicts the address the source is known under. A first
   * address is compared by host with the address of the other kind, and then stored.
   */
  function Collide(s: Source, sender: Option<Address>, isRtp: bool): (Source, bool) {
    var (addr, other) := if isRtp then (s.rtpAddress, s.rtcpAddress) else (s.rtcpAddress, s.rtpAddress);
    var stored := if isRtp then s.(rtpAddress := SlotOf(sender)) else s.(rtcpAddress := SlotOf(sender));
    match addr
    case Unset =>
      (match other
       case Unset => (stored, false)
       case OwnSession => if sender.Some? then (s, true) else (stored, false)
       case Remote(a) => if sender.None? || sender.value.host != a.host then (s, true) else (stored, false))
    case OwnSession => (s, sender.Some?)
    case Remote(a) => (s, sender != Some(a))
  }

  /** Settling an address changes nothing else. */
  lemma CollideKeeps(s: Source, sender: Option<Address>, isRtp: bool)
    ensures var t := Collide(s, sender, isRtp).0;
      t == s.(rtpAddress := t.rtpAddress, rtcpAddress := t.rtcpAddress)
  {
  }

  /** The sender is not at this address; a null address stands for our own session. */
  predicate Elsewhere(slot: Slot, sender: Option<Address>) {
    match sender
    case None => slot != OwnSession
    case Some(a) => slot != Remote(a)
  }

  /** Nor at the same host. */
  predicate OtherHost(slot: Slot, sender: Option<Address>) {
    match sender
    case None => slot != OwnSession
    case Some(a) => !slot.Remote? || slot.address.host != a.host
  }

  /**
   * An RTP or RTCP packet collides exactly if it comes from elsewhere than earlier packets of its kind, or, being the
   * first of its kind, from another host than packets of the other kind; otherwise its address is known from then on.
   */
  lemma CollideExact(s: Source, sender: Option<Address>, isRtp: bool)
    ensures var (t, collision) := Collide(s, sender, isRtp);
      var known, other := if isRtp then s.rtpAddress else s.rtcpAddress, if isRtp then s.rtcpAddress else s.rtpAddress;
      && (collision <==> if known != Unset then Elsewhere(known, sender)
                         else other != Unset && OtherHost(other, sender))
      && (collision ==> t == s)
      && (!collision ==> !Elsewhere(if isRtp then t.rtpAddress else t.rtcpAddress, sender)
                         && (if isRtp then t.rtcpAddress else t.rtpAddress) == other)
  {
  }

  /** A sender that was let through is let through again, and no other one is. */
  lemma CollideStays(s: Source, sender: Option<Address>, isRtp: bool, again: Option<Address>)
    requires !Collide(s, sender, isRtp).1
    ensures Collide(Collide(s, sender, isRtp).0, again, isRtp) == (Collide(s, sender, isRtp).0, again != sender)
  {
  }

  /** RTPInternalSourceData.ProcessRTPPacket, as far as the table depends on it. */
  function WithPacket(s: Source, q: u16, time: RTPTime, probation: ProbationType): Source {
    var (t, o) := SourceStats.Step(s.seqs, q, !s.validated && probation != NoProbation);
    s.(seqs := t, lastMsgTime := time, validated := s.validated || o.accept,
       isSender := s.isSender || (o.accept && !s.ownSsrc),
       lastRtpTime := if o.accept && !s.ownSsrc then time else s.lastRtpTime)
  }

  function WithItem(s: Source, id: byte, data: seq<byte>, time: RTPTime): Source {
    s.(lastMsgTime := time, items := ItemsAfter(s.items, id, data),
       validated := s.validated || (id == ID_CNAME && Item(s.items, ID_CNAME) == []),
       noteTime := if id == ID_NOTE then time else s.noteTime)
  }

  function WithBye(s: Source, time: RTPTime): Source {
    s.(receivedBye := true, byeTime := time, lastMsgTime := time)
  }

  function WithCsrc(s: Source): Source {
    s.(validated := true, isCsrc := true)
  }

  /** An unknown source: nothing has been heard of it, and it has no address. */
  lemma NewIsBlank(ssrc: u32)
    ensures var s := NewSource(ssrc);
      && s.ssrc == ssrc && !s.seqs.sentData && !s.validated && !s.isSender && !s.ownSsrc && !s.isCsrc && !s.receivedBye
      && (forall id: byte :: Item(s.items, id) == []) && s.rtpAddress == s.rtcpAddress == Unset
      && Micros(s.lastMsgTime) == Micros(s.lastRtpTime) == Micros(s.byeTime) == Micros(s.noteTime) == 0
  {
  }

  /**
   * What an RTP packet does to its entry: it has been heard of now; if the packet is accepted it is valid, and unless
   * it is our own it is a sender whose last data is from now. Nothing else changes but the sequence numbers.
   */
  lemma PacketEffect(s: Source, q: u16, time: RTPTime, probation: ProbationType)
    ensures var t := WithPacket(s, q, time, probation);
      var (seqs, o) := SourceStats.Step(s.seqs, q, !(s.validated || probation == NoProbation));
      && t == s.(seqs := seqs, lastMsgTime := time, validated := t.validated, isSender := t.isSender,
                 lastRtpTime := t.lastRtpTime)
      && (o.accept ==> t.validated && (s.ownSsrc || (t.isSender && t.lastRtpTime == time)))
      && (!o.accept || s.ownSsrc ==> t.isSender == s.isSender && t.lastRtpTime == s.lastRtpTime)
      && (!o.accept ==> t.validated == s.validated)
  {
  }

  /** An SDES item: heard of now; a first CNAME makes the source valid, a NOTE is from now. */
  lemma ItemEffect(s: Source, id: byte, data: seq<byte>, time: RTPTime)
    ensures var t := WithItem(s, id, data, time);
      && t == s.(lastMsgTime := time, items := t.items, validated := t.validated, noteTime := t.noteTime)
      && (t.validated <==> s.validated || (id == 1 && Item(s.items, 1) == []))
      && t.noteTime == (if id == 7 then time else s.noteTime)
      && (forall other: byte :: Item(t.items, other) == Item(ItemsAfterAll(s.items, [(id, data)]), other))
  {
    assert [(id, data)][..0] == [];
  }

  lemma ByeEffect(s: Source, time: RTPTime)
    ensures WithBye(s, time) == s.(receivedBye := true, byeTime := time, lastMsgTime := time)
    ensures !WithBye(s, time).IsActive()
  {
  }

  /** Being named as contributing source makes an entry valid and excludes it from reports; it is not heard of. */
  lemma CsrcEffect(s: Source)
    ensures WithCsrc(s).isCsrc && WithCsrc(s) == s.(validated := true, isCsrc := true)
    ensures WithCsrc(s).IsActive() <==> !s.receivedBye
  {
  }

  // ---------------------------------------------------------------- counting
  // ---------------------------------------------------------------- counting

  datatype Flag = Sender | Active

  predicate Has(s: Source, f: Flag) {
    match f
    case Sender => s.isSender
    case Active => s.IsActive()
  }

  function One(b: bool): nat {
    if b then 1 else 0
  }

  function Count(sources: seq<Source>, f: Flag): nat {
    if sources == [] then 0 else One(Has(sources[0], f)) + Count(sources[1..], f)
  }

  lemma {:induction false} CountAppend(a: seq<Source>, b: seq<Source>, f: Flag)
    ensures Count(a + b, f) == Count(a, f) + Count(b, f)
  {
    if a == [] {
      assert a + b == b;
    } else {
      assert (a + b)[1..] == a[1..] + b;
      CountAppend(a[1..], b, f);
    }
  }

  lemma CountOne(s: Source, f: Flag)
    ensures Count([s], f) == One(Has(s, f))
  {
    assert [s][1..] == [];
  }

  lemma CountReplace(sources: seq<Source>, i: nat, s: Source, f: Flag)
    requires i < |sources|
    ensures Count(sources[i := s], f) == Count(sources, f) - One(Has(sources[i], f)) + One(Has(s, f))
  {
    var a, b := sources[..i], sources[i + 1..];
    assert sources == a + ([sources[i]] + b) && sources[i := s] == a + ([s] + b);
    CountAppend(a, [sources[i]] + b, f);
    CountAppend(a, [s] + b, f);
    CountAppend([sources[i]], b, f);
    CountAppend([s], b, f);
    CountOne(sources[i], f);
    CountOne(s, f);
  }

  lemma CountRemove(sources: seq<Source>, i: nat, f: Flag)
    requires i < |sources|
    ensures Count(sources[..i] + sources[i + 1..], f) == Count(sources, f) - One(Has(sources[i], f))
  {
    var a, b := sources[..i], sources[i + 1..];
    assert sources == a + ([sources[i]] + b);
    CountAppend(a, [sources[i]] + b, f);
    CountAppend([sources[i]], b, f);
    CountAppend(a, b, f);
    CountOne(sources[i], f);
  }

  lemma CountGrow(sources: seq<Source>, s: Source, f: Flag)
    ensures Count(sources + [s], f) == Count(sources, f) + One(Has(s, f))
  {
    CountAppend(sources, [s], f);
    CountOne(s, f);
  }

  // ---------------------------------------------------------------- looking up and adding entries

  /** The position of an SSRC; the number of sources when it is not there. */
  function Locate(sources: seq<Source>, ssrc: u32): (i: nat)
    ensures i <= |sources|
    ensures i < |sources| ==> sources[i].ssrc == ssrc
    ensures forall j :: 0 <= j < i ==> sources[j].ssrc != ssrc
  {
    if sources == [] || sources[0].ssrc == ssrc then 0 else 1 + Locate(sources[1..], ssrc)
  }

  predicate Known(sources: seq<Source>, ssrc: u32) {
    Locate(sources, ssrc) < |sources|
  }

  /** The table with an entry for the SSRC (ObtainSourceDataInstance). */
  function Obtained(sources: seq<Source>, ssrc: u32): (r: seq<Source>) {
    if Known(sources, ssrc) then sources else sources + [NewSource(ssrc)]
  }

  lemma ObtainedAt(sources: seq<Source>, ssrc: u32)
    ensures var r := Obtained(sources, ssrc);
      Locate(sources, ssrc) < |r|
      && r[Locate(sources, ssrc)] == (if Known(sources, ssrc) then sources[Locate(sources, ssrc)] else NewSource(ssrc))
  {
  }

  predicate Unique(sources: seq<Source>) {
    forall i, j :: 0 <= i < j < |sources| ==> sources[i].ssrc != sources[j].ssrc
  }

  // ---------------------------------------------------------------- the effect of packets on the entries

  /** The entry the packet belongs to, with its address settled; None when the addresses collide. */
  function Admitted(sources: seq<Source>, ssrc: u32, sender: Option<Address>, isRtp: bool): Option<Source> {
    if !Known(sources, ssrc) then
      var s := NewSource(ssrc);
      Some(if isRtp then s.(rtpAddress := SlotOf(sender)) else s.(rtcpAddress := SlotOf(sender)))
    else
      var (s, collision) := Collide(sources[Locate(sources, ssrc)], sender, isRtp);
      if collision then None else Some(s)
  }

  /** A contributing source: a new entry, or an entry whose address agrees with the packet's. */
  function AfterCsrc(sources: seq<Source>, csrc: u32, sender: Option<Address>): seq<Source> {
    if !Known(sources, csrc) then sources + [WithCsrc(NewSource(csrc))]
    else
      var i := Locate(sources, csrc);
      var (s, collision) := Collide(sources[i], sender, true);
      if collision then sources else sources[i := WithCsrc(s)]
  }

  function AfterCsrcs(sources: seq<Source>, csrcs: seq<u32>, sender: Option<Address>): seq<Source>
    decreases |csrcs|
  {
    if csrcs == [] then sources else AfterCsrcs(AfterCsrc(sources, csrcs[0], sender), csrcs[1..], sender)
  }

  /** Known entries that are not active become so by being named as contributing source. */
  predicate Adopts(sources: seq<Source>, csrc: u32, sender: Option<Address>) {
    && Known(sources, csrc)
    && var s := sources[Locate(sources, csrc)];
       !Collide(s, sender, true).1 && !s.validated && !s.receivedBye
  }

  function Adoptions(sources: seq<Source>, csrcs: seq<u32>, sender: Option<Address>): nat
    decreases |csrcs|
  {
    if csrcs == [] then 0
    else One(Adopts(sources, csrcs[0], sender)) + Adoptions(AfterCsrc(sources, csrcs[0], sender), csrcs[1..], sender)
  }

  lemma NobodyNamed(sources: seq<Source>, sender: Option<Address>)
    ensures AfterCsrcs(sources, [], sender) == sources && Adoptions(sources, [], sender) == 0
  {
  }

  /** The table when the packet itself has been processed, before its contributing sources. */
  function AfterOwnPart(sources: seq<Source>, ssrc: u32, q: u16, time: RTPTime, sender: Option<Address>,
                        probation: ProbationType): Option<seq<Source>> {
    match Admitted(sources, ssrc, sender, true)
    case None => None
    case Some(s) => Some(Stored(sources, ssrc, WithPacket(s, q, time, probation)))
  }

  /** The entry for `ssrc` becomes `s`. */
  function Stored(sources: seq<Source>, ssrc: u32, s: Source): seq<Source> {
    ObtainedAt(sources, ssrc);
    Obtained(sources, ssrc)[Locate(sources, ssrc) := s]
  }

  /** A packet or item is let in exactly if its address does not collide; a new entry has its address only. */
  lemma AdmittedExact(sources: seq<Source>, ssrc: u32, sender: Option<Address>, isRtp: bool)
    ensures var r := Admitted(sources, ssrc, sender, isRtp);
      if !Known(sources, ssrc) then
        && r.Some? && !Elsewhere(if isRtp then r.value.rtpAddress else r.value.rtcpAddress, sender)
        && r.value == NewSource(ssrc).(rtpAddress := r.value.rtpAddress, rtcpAddress := r.value.rtcpAddress)
        && (if isRtp then r.value.rtcpAddress else r.value.rtpAddress) == Unset
      else
        var (s, collision) := Collide(sources[Locate(sources, ssrc)], sender, isRtp);
        (r == None <==> collision) && (r.Some? ==> r.value == s)
  {
  }

  /** Contributing sources are added without an address, and known ones only marked if theirs does not collide. */
  lemma CsrcExact(sources: seq<Source>, csrc: u32, sender: Option<Address>)
    ensures var r := AfterCsrc(sources, csrc, sender);
      if !Known(sources, csrc) then
        |r| == |sources| + 1 && r[..|sources|] == sources
        && r[|sources|] == NewSource(csrc).(validated := true, isCsrc := true)
      else
        var i := Locate(sources, csrc);
        var (s, collision) := Collide(sources[i], sender, true);
        |r| == |sources| && (forall j :: 0 <= j < |r| && j != i ==> r[j] == sources[j])
        && r[i] == (if collision then sources[i] else s.(validated := true, isCsrc := true))
  {
    hide Collide;
  }

  // ---------------------------------------------------------------- the timeouts on values
  // ---------------------------------------------------------------- the timeouts on values

  datatype Pass =
    | SenderPass(check: RTPTime)
    | ByePass(check: RTPTime)
    | GeneralPass(check: RTPTime)
    | NotePass(check: RTPTime)

  /** The entries a pass removes; never the own one. */
  predicate Removes(p: Pass, own: Option<u32>, s: Source) {
    match p
    case ByePass(check) => s.receivedBye && own != Some(s.ssrc) && Less(s.byeTime, check)
    case GeneralPass(check) => own != Some(s.ssrc) && Less(s.lastMsgTime, check)
    case _ => false
  }

  /** What a pass changes in the entries it leaves. */
  function Changed(p: Pass, s: Source): Source {
    match p
    case SenderPass(check) => if s.isSender && Less(s.lastRtpTime, check) then s.(isSender := false) else s
    case NotePass(check) =>
      if Item(s.items, ID_NOTE) != [] && Less(s.noteTime, check) then s.(items := s.items[ID_NOTE := []]) else s
    case _ => s
  }

  function Survivor(p: Pass, own: Option<u32>, s: Source): Option<Source> {
    if Removes(p, own, s) then None else Some(Changed(p, s))
  }

  function Listed(s: Option<Source>): seq<Source> {
    if s.None? then [] else [s.value]
  }

  function Sweep(p: Pass, own: Option<u32>, sources: seq<Source>): seq<Source> {
    if sources == [] then [] else Listed(Survivor(p, own, sources[0])) + Sweep(p, own, sources[1..])
  }

  /** Passes one after the other. */
  function Sweeps(ps: seq<Pass>, own: Option<u32>, sources: seq<Source>): seq<Source>
    decreases |ps|
  {
    if ps == [] then sources else Sweeps(ps[1..], own, Sweep(ps[0], own, sources))
  }

  lemma {:induction false} SweepAppend(p: Pass, own: Option<u32>, a: seq<Source>, b: seq<Source>)
    ensures Sweep(p, own, a + b) == Sweep(p, own, a) + Sweep(p, own, b)
  {
    if a == [] {
      assert a + b == b;
    } else {
      assert (a + b)[1..] == a[1..] + b;
      SweepAppend(p, own, a[1..], b);
    }
  }

  lemma SweepOne(p: Pass, own: Option<u32>, s: Source)
    ensures Sweep(p, own, [s]) == Listed(Survivor(p, own, s))
  {
    assert [s][1..] == [];
  }

  /** Two passes over one entry have the same result in either order. */
  lemma SurvivorsCommute(p: Pass, q: Pass, own: Option<u32>, s: Source)
    ensures Sweep(p, own, Listed(Survivor(q, own, s))) == Sweep(q, own, Listed(Survivor(p, own, s)))
  {
    var sp, sq := Survivor(p, own, s), Survivor(q, own, s);
    if sp.Some? {
      SweepOne(q, own, sp.value);
    }
    if sq.Some? {
      SweepOne(p, own, sq.value);
    }
    ChangesCommute(p, q, own, s);
    ChangesCommute(q, p, own, s);
    hide Removes, Changed;
  }

  /** No pass depends on what another one changes. */
  lemma ChangesCommute(p: Pass, q: Pass, own: Option<u32>, s: Source)
    ensures Removes(p, own, Changed(q, s)) == Removes(p, own, s)
    ensures Changed(p, Changed(q, s)) == Changed(q, Changed(p, s))
  {
    hide Less, Item;
    ChangedParts(p, s);
    ChangedParts(q, s);
    ChangedParts(p, Changed(q, s));
    ChangedParts(q, Changed(p, s));
    hide Changed;
  }

  /** A pass changes the sender flag or the note, and decides by what no pass changes or by what it changes itself. */
  lemma ChangedParts(p: Pass, s: Source)
    ensures Changed(p, s) == s.(isSender := s.isSender && !(p.SenderPass? && Less(s.lastRtpTime, p.check)),
                                items := if p.NotePass? then NoteDropped(p, s) else s.items)
  {
    hide Less, Item;
  }

  function NoteDropped(p: Pass, s: Source): map<byte, seq<byte>> {
    if Item(s.items, ID_NOTE) != [] && Less(s.noteTime, p.check) then s.items[ID_NOTE := []] else s.items
  }

  lemma {:induction false} SweepsCommute(p: Pass, q: Pass, own: Option<u32>, sources: seq<Source>)
    ensures Sweep(p, own, Sweep(q, own, sources)) == Sweep(q, own, Sweep(p, own, sources))
  {
    if sources != [] {
      var s, rest := sources[0], sources[1..];
      SweepAppend(p, own, Listed(Survivor(q, own, s)), Sweep(q, own, rest));
      SweepAppend(q, own, Listed(Survivor(p, own, s)), Sweep(p, own, rest));
      SurvivorsCommute(p, q, own, s);
      SweepsCommute(p, q, own, rest);
    }
  }

  /** A pass can be taken out of the middle and done first. */
  lemma {:induction false} SweepFirst(ps: seq<Pass>, i: nat, own: Option<u32>, sources: seq<Source>)
    requires i < |ps|
    ensures Sweeps(ps, own, sources) == Sweeps(ps[..i] + ps[i + 1..], own, Sweep(ps[i], own, sources))
    decreases i
  {
    if i == 0 {
      assert ps[..0] + ps[1..] == ps[1..];
    } else {
      var rest := ps[1..];
      SweepFirst(rest, i - 1, own, Sweep(ps[0], own, sources));
      SweepsCommute(rest[i - 1], ps[0], own, sources);
      assert (ps[..i] + ps[i + 1..])[1..] == rest[..i - 1] + rest[i..];
    }
  }

  lemma RestsAgree<T>(ps: seq<T>, qs: seq<T>, i: nat)
    requires ps != [] && i < |qs| && qs[i] == ps[0] && multiset(ps) == multiset(qs)
    ensures multiset(ps[1..]) == multiset(qs[..i] + qs[i + 1..])
  {
    assert ps == [ps[0]] + ps[1..] && qs == qs[..i] + ([qs[i]] + qs[i + 1..]);
    assert multiset(ps[1..]) == multiset(ps) - multiset{ps[0]};
    assert multiset(qs[..i] + qs[i + 1..]) == multiset(qs) - multiset{ps[0]};
  }

  /** The final table does not depend on the order of the timeouts. */
  lemma {:induction false} OrderIrrelevant(ps: seq<Pass>, qs: seq<Pass>, own: Option<u32>, sources: seq<Source>)
    requires multiset(ps) == multiset(qs)
    ensures Sweeps(ps, own, sources) == Sweeps(qs, own, sources)
    decreases |ps|
  {
    if ps == [] {
      assert |multiset(ps)| == |ps| && |multiset(qs)| == |qs|;
    } else {
      assert ps[0] in multiset(qs);
      var i :| 0 <= i < |qs| && qs[i] == ps[0];
      SweepFirst(qs, i, own, sources);
      RestsAgree(ps, qs, i);
      OrderIrrelevant(ps[1..], qs[..i] + qs[i + 1..], own, Sweep(ps[0], own, sources));
    }
  }

  lemma {:induction false} SweepsAppend(ps: seq<Pass>, own: Option<u32>, a: seq<Source>, b: seq<Source>)
    ensures Sweeps(ps, own, a + b) == Sweeps(ps, own, a) + Sweeps(ps, own, b)
    decreases |ps|
  {
    if ps != [] {
      SweepAppend(ps[0], own, a, b);
      SweepsAppend(ps[1..], own, Sweep(ps[0], own, a), Sweep(ps[0], own, b));
    }
  }

  /** Passes treat the entries one by one. */
  lemma SweepsStep(ps: seq<Pass>, own: Option<u32>, sources: seq<Source>, k: nat)
    requires k < |sources|
    ensures Sweeps(ps, own, sources[..k + 1]) == Sweeps(ps, own, sources[..k]) + Sweeps(ps, own, [sources[k]])
  {
    assert sources[..k + 1] == sources[..k] + [sources[k]];
    SweepsAppend(ps, own, sources[..k], [sources[k]]);
  }

  lemma SweepsOne(p: Pass, own: Option<u32>, sources: seq<Source>)
    ensures Sweeps([p], own, sources) == Sweep(p, own, sources)
  {
    assert [p][1..] == [];
  }

  lemma {:induction false} SweepsNothing(ps: seq<Pass>, own: Option<u32>)
    ensures Sweeps(ps, own, []) == []
  {
    if ps != [] {
      SweepsNothing(ps[1..], own);
    }
  }

  /** Entry `t` belongs to the same source as one of the entries. */
  ghost predicate Stems(t: Source, sources: seq<Source>) {
    exists i :: 0 <= i < |sources| && sources[i].ssrc == t.ssrc && sources[i].ownSsrc == t.ownSsrc
  }

  lemma KnownAppend(a: seq<Source>, b: seq<Source>, ssrc: u32)
    ensures Known(a + b, ssrc) <==> Known(a, ssrc) || Known(b, ssrc)
  {
    KnownExactly(a, ssrc);
    KnownExactly(b, ssrc);
    KnownExactly(a + b, ssrc);
    hide Known;
    if Known(a, ssrc) {
      var i :| 0 <= i < |a| && a[i].ssrc == ssrc;
      assert (a + b)[i] == a[i];
    }
    if Known(b, ssrc) {
      var i :| 0 <= i < |b| && b[i].ssrc == ssrc;
      assert (a + b)[|a| + i] == b[i];
    }
  }

  lemma KnownExactly(sources: seq<Source>, ssrc: u32)
    ensures Known(sources, ssrc) <==> exists i :: 0 <= i < |sources| && sources[i].ssrc == ssrc
  {
  }

  /** A pass invents no entries and duplicates none. */
  lemma {:induction false} SweepStems(p: Pass, own: Option<u32>, sources: seq<Source>)
    requires Unique(sources)
    ensures forall j :: 0 <= j < |Sweep(p, own, sources)| ==> Stems(Sweep(p, own, sources)[j], sources)
    ensures Unique(Sweep(p, own, sources))
  {
    if sources != [] {
      var s, rest := sources[0], sources[1..];
      var first, r := Listed(Survivor(p, own, s)), Sweep(p, own, rest);
      SweepStems(p, own, rest);
      assert forall x :: x in first ==> x.ssrc == s.ssrc && x.ownSsrc == s.ownSsrc;
      hide Survivor, Sweep, Listed;
      forall j | 0 <= j < |first + r|
        ensures Stems((first + r)[j], sources)
      {
        if j < |first| {
          assert first[j] in first;
        } else {
          assert Stems(r[j - |first|], rest);
          var i :| 0 <= i < |rest| && rest[i].ssrc == r[j - |first|].ssrc && rest[i].ownSsrc == r[j - |first|].ownSsrc;
          assert sources[i + 1] == rest[i];
        }
      }
      StemsDiffer(s, rest, first, r);
    }
  }

  lemma StemsDiffer(s: Source, rest: seq<Source>, first: seq<Source>, r: seq<Source>)
    requires Unique([s] + rest) && Unique(r) && |first| <= 1
    requires forall x :: x in first ==> x.ssrc == s.ssrc
    requires forall j :: 0 <= j < |r| ==> Stems(r[j], rest)
    ensures Unique(first + r)
  {
    forall i, j | 0 <= i < j < |first + r|
      ensures (first + r)[i].ssrc != (first + r)[j].ssrc
    {
      assert (first + r)[j] == r[j - |first|];
      if i < |first| {
        assert first[i] in first && Stems(r[j - |first|], rest);
        var k :| 0 <= k < |rest| && rest[k].ssrc == r[j - |first|].ssrc && rest[k].ownSsrc == r[j - |first|].ownSsrc;
        assert ([s] + rest)[k + 1] == rest[k] && ([s] + rest)[0] == s;
      } else {
        assert (first + r)[i] == r[i - |first|];
      }
    }
  }

  /** The own entry is never removed. */
  lemma {:induction false} SweepSparesOwn(p: Pass, ssrc: u32, sources: seq<Source>)
    requires Known(sources, ssrc)
    ensures Known(Sweep(p, Some(ssrc), sources), ssrc)
  {
    var s, rest := sources[0], sources[1..];
    var first := Listed(Survivor(p, Some(ssrc), s));
    if s.ssrc == ssrc {
      assert Known(first, ssrc);
    } else {
      SweepSparesOwn(p, ssrc, rest);
    }
    hide Survivor, Listed;
    KnownAppend(first, Sweep(p, Some(ssrc), rest), ssrc);
  }

  // ---------------------------------------------------------------- the table

  /** The counters count, except for the entries that contributing sources made active since a recount. */
  ghost predicate Counted(sources: seq<Source>, total: int, senders: int, active: int, adopted: nat) {
    && total == |sources|
    && senders == Count(sources, Sender)
    && active + adopted == Count(sources, Active)
  }

  /** At most one entry per SSRC, and the own entry is exactly the one `own` names. */
  ghost predicate Keyed(sources: seq<Source>, own: Option<u32>) {
    && Unique(sources)
    && (own.Some? ==> Known(sources, own.value))
    && (forall i :: 0 <= i < |sources| ==> sources[i].ownSsrc == (own == Some(sources[i].ssrc)))
  }

  /** Changing an entry without changing whose it is. */
  lemma ReplaceKept(sources: seq<Source>, own: Option<u32>, i: nat, s: Source)
    requires Keyed(sources, own) && i < |sources|
    requires s.ssrc == sources[i].ssrc && s.ownSsrc == sources[i].ownSsrc
    ensures Keyed(sources[i := s], own)
    ensures forall f :: Count(sources[i := s], f) == Count(sources, f) - One(Has(sources[i], f)) + One(Has(s, f))
  {
    forall f ensures Count(sources[i := s], f) == Count(sources, f) - One(Has(sources[i], f)) + One(Has(s, f)) {
      CountReplace(sources, i, s, f);
    }
    if own.Some? {
      KnownExactly(sources, own.value);
      KnownExactly(sources[i := s], own.value);
      var j := Locate(sources, own.value);
      assert sources[i := s][j].ssrc == own.value;
    }
  }

  lemma GrowKept(sources: seq<Source>, own: Option<u32>, s: Source)
    requires Keyed(sources, own) && !Known(sources, s.ssrc) && !s.ownSsrc
    ensures Keyed(sources + [s], own)
    ensures forall f :: Count(sources + [s], f) == Count(sources, f) + One(Has(s, f))
  {
    forall f ensures Count(sources + [s], f) == Count(sources, f) + One(Has(s, f)) {
      CountGrow(sources, s, f);
    }
    KnownExactly(sources, s.ssrc);
    if own.Some? {
      KnownExactly(sources, own.value);
      KnownExactly(sources + [s], own.value);
      var j := Locate(sources, own.value);
      assert (sources + [s])[j].ssrc == own.value;
    }
  }

  method FindSource(sources: seq<Source>, ssrc: u32) returns (i: nat)
    ensures i == Locate(sources, ssrc)
  {
    i := 0;
    assert sources[0..] == sources;
    while i < |sources| && sources[i].ssrc != ssrc
      invariant i <= |sources| && Locate(sources, ssrc) == i + Locate(sources[i..], ssrc)
    {
      assert sources[i..][1..] == sources[i + 1..];
      i := i + 1;
    }
  }

  lemma SweepKeyed(p: Pass, own: Option<u32>, sources: seq<Source>)
    requires Keyed(sources, own)
    ensures Keyed(Sweep(p, own, sources), own)
  {
    hide Sweep, Known;
    SweepStems(p, own, sources);
    if own.Some? {
      SweepSparesOwn(p, own.value, sources);
    }
    var r := Sweep(p, own, sources);
    forall j | 0 <= j < |r|
      ensures r[j].ownSsrc == (own == Some(r[j].ssrc))
    {
      assert Stems(r[j], sources);
    }
  }

  lemma {:induction false} SweepsKeyed(ps: seq<Pass>, own: Option<u32>, sources: seq<Source>)
    requires Keyed(sources, own)
    ensures Keyed(Sweeps(ps, own, sources), own)
    decreases |ps|
  {
    if ps != [] {
      SweepKeyed(ps[0], own, sources);
      SweepsKeyed(ps[1..], own, Sweep(ps[0], own, sources));
    }
  }

  /** How far a timeout has come: `done` entries are finished, those of `was` from `k` on are to be seen. */
  ghost predicate Swept(ps: seq<Pass>, own: Option<u32>, was: seq<Source>, k: nat, sources: seq<Source>, done: nat,
                        total: int, senders: int, active: int) {
    && k <= |was| && done <= |sources|
    && sources[..done] == Sweeps(ps, own, was[..k])
    && sources[done..] == was[k..]
    && total == done
    && senders == Count(sources[..done], Sender)
    && active == Count(sources[..done], Active)
  }

  lemma SweepBegins(ps: seq<Pass>, own: Option<u32>, was: seq<Source>)
    ensures Swept(ps, own, was, 0, was, 0, 0, 0, 0)
  {
    SweepsNothing(ps, own);
    assert was[..0] == [];
  }

  lemma SweepEnds(ps: seq<Pass>, own: Option<u32>, was: seq<Source>, k: nat, sources: seq<Source>, done: nat,
                  total: int, senders: int, active: int)
    requires Swept(ps, own, was, k, sources, done, total, senders, active) && done == |sources|
    requires Keyed(was, own)
    ensures sources == Sweeps(ps, own, was) && Counted(sources, total, senders, active, 0) && Keyed(sources, own)
  {
    assert sources[done..] == [];
    assert was[..k] == was && sources[..done] == sources;
    SweepsKeyed(ps, own, was);
  }

  /** The entry at the cursor survives as `s`. */
  lemma SweptKeep(ps: seq<Pass>, own: Option<u32>, was: seq<Source>, k: nat, sources: seq<Source>, done: nat,
                  total: int, senders: int, active: int, s: Source)
    requires Swept(ps, own, was, k, sources, done, total, senders, active) && done < |sources|
    requires Sweeps(ps, own, [sources[done]]) == [s]
    ensures Swept(ps, own, was, k + 1, sources[done := s], done + 1, total + 1,
                  senders + One(s.isSender), active + One(s.IsActive()))
  {
    assert sources[done] == sources[done..][0] == was[k];
    SweepsStep(ps, own, was, k);
    var t := sources[done := s];
    assert t[..done + 1] == sources[..done] + [s];
    assert t[done + 1..] == sources[done..][1..] == was[k + 1..];
    CountGrow(sources[..done], s, Sender);
    CountGrow(sources[..done], s, Active);
  }

  /** The entry at the cursor is deleted. */
  lemma SweptDelete(ps: seq<Pass>, own: Option<u32>, was: seq<Source>, k: nat, sources: seq<Source>, done: nat,
                    total: int, senders: int, active: int)
    requires Swept(ps, own, was, k, sources, done, total, senders, active) && done < |sources|
    requires Sweeps(ps, own, [sources[done]]) == []
    ensures Swept(ps, own, was, k + 1, Without(sources, done), done, total, senders, active)
  {
    assert sources[done] == sources[done..][0] == was[k];
    SweepsStep(ps, own, was, k);
    var t := Without(sources, done);
    assert t[..done] == sources[..done];
    assert t[done..] == sources[done..][1..] == was[k + 1..];
  }

  /** One pass over one entry. */
  lemma SweepsSingle(p: Pass, own: Option<u32>, s: Source)
    ensures Sweeps([p], own, [s]) == if Removes(p, own, s) then [] else [Changed(p, s)]
  {
    SweepsOne(p, own, [s]);
    SweepOne(p, own, s);
  }

  /** What MultipleTimeouts makes of one entry is what the four passes make of it. */
  lemma SweepsFour(note: Pass, bye: Pass, general: Pass, sender: Pass, own: Option<u32>, s: Source)
    requires note.NotePass? && bye.ByePass? && general.GeneralPass? && sender.SenderPass?
    ensures var n := Survivor(note, own, s).value;
      Sweeps([note, bye, general, sender], own, [s])
        == if Survivor(bye, own, s).None? || Survivor(general, own, s).None? then []
           else Listed(Survivor(sender, own, n))
  {
    var n := Changed(note, s);
    ChangesCommute(bye, note, own, s);
    ChangesCommute(general, note, own, s);
    SweepOne(note, own, s);
    SweepOne(bye, own, n);
    SweepOne(general, own, n);
    SweepOne(sender, own, n);
    assert !Removes(note, own, s) && Changed(bye, n) == n && Changed(general, n) == n;
    hide Removes, Changed, Sweep;
    var ps := [note, bye, general, sender];
    assert ps[1..] == [bye, general, sender] && ps[1..][1..] == [general, sender] && ps[1..][1..][1..] == [sender];
    SweepsNothing([general, sender], own);
    SweepsNothing([sender], own);
    SweepsOne(sender, own, [n]);
    assert Sweeps(ps, own, [s]) == Sweeps([bye, general, sender], own, [n]);
    if !Removes(bye, own, s) {
      assert Sweeps([bye, general, sender], own, [n]) == Sweeps([general, sender], own, [n]);
      if !Removes(general, own, s) {
        assert Sweeps([general, sender], own, [n]) == Sweeps([sender], own, [n]);
      }
    }
  }

  /** The fused timeouts leave the table that the four timeouts leave one after the other, in any order. */
  lemma FusionExact(ps: seq<Pass>, note: Pass, bye: Pass, general: Pass, sender: Pass, own: Option<u32>,
                    sources: seq<Source>)
    requires multiset(ps) == multiset{sender, bye, general, note}
    ensures Sweeps(ps, own, sources) == Sweeps([note, bye, general, sender], own, sources)
    ensures Sweeps(ps, own, sources)
      == Sweep(note, own, Sweep(general, own, Sweep(bye, own, Sweep(sender, own, sources))))
  {
    var qs := [sender, bye, general, note];
    assert multiset([note, bye, general, sender]) == multiset{sender, bye, general, note} == multiset(qs);
    OrderIrrelevant(ps, [note, bye, general, sender], own, sources);
    OrderIrrelevant(ps, qs, own, sources);
    var t := Sweep(bye, own, Sweep(sender, own, sources));
    assert qs[1..] == [bye, general, note] && qs[1..][1..] == [general, note] && qs[1..][1..][1..] == [note];
    SweepsOne(note, own, Sweep(general, own, t));
    assert Sweeps(qs, own, sources) == Sweeps([general, note], own, t);
  }

  // ---------------------------------------------------------------- whom the timeouts remove, and what they change

  /** The entries `ks` are left, in order, as `r`. */
  predicate Picked(ks: seq<nat>, sources: seq<Source>, r: seq<Source>) {
    && |ks| == |r|
    && (forall j :: 0 <= j < |ks| ==> ks[j] < |sources|)
    && (forall i, j :: 0 <= i < j < |ks| ==> ks[i] < ks[j])
  }

  lemma {:induction false} SweepsFew(ps: seq<Pass>, own: Option<u32>, sources: seq<Source>)
    requires |sources| <= 1
    ensures |Sweeps(ps, own, sources)| <= 1
    decreases |ps|
  {
    if ps != [] {
      if sources != [] {
        SweepOne(ps[0], own, sources[0]);
        assert sources == [sources[0]];
      }
      SweepsFew(ps[1..], own, Sweep(ps[0], own, sources));
    }
  }

  /** What the timeouts leave of each entry alone. */
  function LeftOf(ps: seq<Pass>, own: Option<u32>, sources: seq<Source>): (left: seq<seq<Source>>)
    ensures |left| == |sources|
    ensures forall i :: 0 <= i < |sources| ==> left[i] == Sweeps(ps, own, [sources[i]])
  {
    seq(|sources|, i requires 0 <= i < |sources| => Sweeps(ps, own, [sources[i]]))
  }

  /** The entries that leave something are those picked, and the result is what they leave. */
  predicate Leaves(ks: seq<nat>, left: seq<seq<Source>>, r: seq<Source>) {
    && |ks| == |r|
    && (forall j :: 0 <= j < |ks| ==> ks[j] < |left| && left[ks[j]] == [r[j]])
    && (forall i :: 0 <= i < |left| ==> (i in ks <==> left[i] != []))
  }

  lemma LeavesMore(ks: seq<nat>, left: seq<seq<Source>>, r: seq<Source>, last: seq<Source>)
    requires Leaves(ks, left, r) && |last| <= 1
    ensures Leaves(ks + if last == [] then [] else [|left|], left + [last], r + last)
  {
    var ks' := ks + if last == [] then [] else [|left|];
    forall i | 0 <= i < |left + [last]|
      ensures i in ks' <==> (left + [last])[i] != []
    {
      assert i < |left| ==> (i in ks' <==> i in ks);
    }
  }

  /** An entry is left exactly if the timeouts leave it alone in the table, and as they leave it there. */
  lemma {:induction false} SweepsPick(ps: seq<Pass>, own: Option<u32>, sources: seq<Source>) returns (ks: seq<nat>)
    ensures Picked(ks, sources, Sweeps(ps, own, sources))
    ensures Leaves(ks, LeftOf(ps, own, sources), Sweeps(ps, own, sources))
    decreases |sources|
  {
    hide Sweeps, Picked, Leaves;
    if sources == [] {
      SweepsNothing(ps, own);
      NothingPicked();
      ks := [];
    } else {
      var n := |sources| - 1;
      var rest, s := sources[..n], sources[n];
      var ks' := SweepsPick(ps, own, rest);
      assert sources[..n + 1] == sources == rest + [s];
      SweepsStep(ps, own, sources, n);
      SweepsFew(ps, own, [s]);
      var last := Sweeps(ps, own, [s]);
      ks := ks' + if last == [] then [] else [n];
      PickMore(ks', rest, Sweeps(ps, own, rest), s, last);
      LeavesMore(ks', LeftOf(ps, own, rest), Sweeps(ps, own, rest), last);
      assert LeftOf(ps, own, sources) == LeftOf(ps, own, rest) + [last];
    }
  }

  lemma NothingPicked()
    ensures Picked([], [], []) && Leaves([], [], [])
  {
  }

  lemma PickMore(ks: seq<nat>, sources: seq<Source>, r: seq<Source>, s: Source, last: seq<Source>)
    requires Picked(ks, sources, r) && |last| <= 1
    ensures Picked(ks + if last == [] then [] else [|sources|], sources + [s], r + last)
  {
  }

  /** A timeout leaves its own entry alone, and any other one whose time is not before the check time. */
  lemma PassExact(p: Pass, own: Option<u32>, sources: seq<Source>) returns (ks: seq<nat>)
    requires Normal(p.check) && Dated(sources)
    ensures var r := Sweeps([p], own, sources);
      && Picked(ks, sources, r)
      && (forall i :: 0 <= i < |sources| ==> var s := sources[i];
            (i in ks <==> match p
                          case ByePass(check) =>
                            own == Some(s.ssrc) || !s.receivedBye || Micros(s.byeTime) >= Micros(check)
                          case GeneralPass(check) => own == Some(s.ssrc) || Micros(s.lastMsgTime) >= Micros(check)
                          case _ => true))
      && (forall j :: 0 <= j < |r| ==>
            && (if p.SenderPass? then SenderAged(sources[ks[j]], r[j], p.check)
                else r[j].isSender == sources[ks[j]].isSender)
            && (if p.NotePass? then NoteAged(sources[ks[j]], r[j], p.check) else r[j].items == sources[ks[j]].items)
            && SameButAged(sources[ks[j]], r[j]))
  {
    ks := SweepsPick([p], own, sources);
    forall i | 0 <= i < |sources| ensures Sweeps([p], own, [sources[i]])
      == if Removes(p, own, sources[i]) then [] else [Changed(p, sources[i])] {
      SweepsSingle(p, own, sources[i]);
    }
    hide Sweeps;
    forall i | 0 <= i < |sources|
      ensures Normal(sources[i].lastMsgTime) && Normal(sources[i].byeTime)
      ensures Less(sources[i].byeTime, p.check) <==> Micros(sources[i].byeTime) < Micros(p.check)
      ensures Less(sources[i].lastMsgTime, p.check) <==> Micros(sources[i].lastMsgTime) < Micros(p.check)
    {
      ComparisonExact(sources[i].byeTime, p.check);
      ComparisonExact(sources[i].lastMsgTime, p.check);
    }
    var r := Sweeps([p], own, sources);
    forall j | 0 <= j < |r|
      ensures r[j] == Changed(p, sources[ks[j]])
      ensures p.SenderPass? ==> SenderAged(sources[ks[j]], r[j], p.check)
      ensures p.NotePass? ==> NoteAged(sources[ks[j]], r[j], p.check)
    {
      ChangedAged(p, sources[ks[j]]);
    }
  }

  /** All times an entry remembers are normal. */
  predicate Dated(sources: seq<Source>) {
    forall i :: 0 <= i < |sources| ==>
      && Normal(sources[i].lastMsgTime) && Normal(sources[i].byeTime)
      && Normal(sources[i].lastRtpTime) && Normal(sources[i].noteTime)
  }

  /** The sender flag is lost exactly if the last RTP packet is before the check time. */
  predicate SenderAged(s: Source, t: Source, check: RTPTime) {
    t.isSender <==> s.isSender && Micros(s.lastRtpTime) >= Micros(check)
  }

  /** The NOTE is lost exactly if it is from before the check time; no other item is. */
  predicate NoteAged(s: Source, t: Source, check: RTPTime) {
    && Item(t.items, 7) == (if Micros(s.noteTime) < Micros(check) then [] else Item(s.items, 7))
    && forall id: byte :: id != 7 ==> Item(t.items, id) == Item(s.items, id)
  }

  predicate SameButAged(s: Source, t: Source) {
    t == s.(isSender := t.isSender, items := t.items)
  }

  lemma ChangedAged(p: Pass, s: Source)
    requires Normal(p.check) && Normal(s.lastRtpTime) && Normal(s.noteTime)
    ensures p.SenderPass? ==> SenderAged(s, Changed(p, s), p.check)
    ensures p.NotePass? ==> NoteAged(s, Changed(p, s), p.check)
    ensures SameButAged(s, Changed(p, s))
  {
    ComparisonExact(s.lastRtpTime, p.check);
    ComparisonExact(s.noteTime, p.check);
    hide Less, Micros;
  }

  /**
   * MultipleTimeouts: an entry is left exactly if it is our own, or its last message is not before the general check
   * time and its BYE, if it sent one, not before the BYE check time. What is left keeps its order and changes
   * in its sender flag and its NOTE only.
   */
  lemma TimeoutsExact(note: RTPTime, bye: RTPTime, general: RTPTime, sender: RTPTime, own: Option<u32>,
                      sources: seq<Source>)
    returns (ks: seq<nat>)
    requires Normal(note) && Normal(bye) && Normal(general) && Normal(sender) && Dated(sources)
    ensures var r := Sweeps([NotePass(note), ByePass(bye), GeneralPass(general), SenderPass(sender)], own, sources);
      && Picked(ks, sources, r)
      && (forall i :: 0 <= i < |sources| ==> var s := sources[i];
            (i in ks <==> own == Some(s.ssrc) || (Micros(s.lastMsgTime) >= Micros(general)
                                                  && (s.receivedBye ==> Micros(s.byeTime) >= Micros(bye)))))
      && (forall j :: 0 <= j < |r| ==>
            && SenderAged(sources[ks[j]], r[j], sender) && NoteAged(sources[ks[j]], r[j], note)
            && SameButAged(sources[ks[j]], r[j]))
  {
    var ps := [NotePass(note), ByePass(bye), GeneralPass(general), SenderPass(sender)];
    ks := SweepsPick(ps, own, sources);
    forall i | 0 <= i < |sources|
      ensures TimedOut(note, bye, general, sender, own, sources[i], Sweeps(ps, own, [sources[i]]))
    {
      EntryExact(note, bye, general, sender, own, sources[i]);
    }
    hide Sweeps, SenderAged, NoteAged, SameButAged, Micros;
  }

  /** What is left of one entry. */
  predicate TimedOut(note: RTPTime, bye: RTPTime, general: RTPTime, sender: RTPTime, own: Option<u32>, s: Source,
                     left: seq<Source>) {
    && (left != [] <==> own == Some(s.ssrc) || (Micros(s.lastMsgTime) >= Micros(general)
                                                && (s.receivedBye ==> Micros(s.byeTime) >= Micros(bye))))
    && (left != [] ==> SenderAged(s, left[0], sender) && NoteAged(s, left[0], note) && SameButAged(s, left[0]))
  }

  lemma EntryExact(note: RTPTime, bye: RTPTime, general: RTPTime, sender: RTPTime, own: Option<u32>, s: Source)
    requires Normal(note) && Normal(bye) && Normal(general) && Normal(sender) && Dated([s])
    ensures TimedOut(note, bye, general, sender, own, s,
                     Sweeps([NotePass(note), ByePass(bye), GeneralPass(general), SenderPass(sender)], own, [s]))
  {
    assert Normal([s][0].lastMsgTime) && Normal([s][0].byeTime);
    SweepsFour(NotePass(note), ByePass(bye), GeneralPass(general), SenderPass(sender), own, s);
    ComparisonExact(s.lastMsgTime, general);
    ComparisonExact(s.byeTime, bye);
    var n := Changed(NotePass(note), s);
    ChangedAged(NotePass(note), s);
    NoteLeaves(note, s);
    ChangedAged(SenderPass(sender), n);
    SenderLeaves(sender, n);
    hide Sweeps, Changed, Less, Micros;
  }

  lemma NoteLeaves(check: RTPTime, s: Source)
    ensures var n := Changed(NotePass(check), s); n.isSender == s.isSender && n.lastRtpTime == s.lastRtpTime
  {
  }

  lemma SenderLeaves(check: RTPTime, s: Source)
    ensures Changed(SenderPass(check), s).items == s.items
  {
  }

  /**
   * The active counter can fall short: a source known from RTCP only is not counted when a packet names
   * it as contributing source, and a BYE later the counter is below zero.
   */
  lemma ShortfallExample(time: RTPTime, host: nat)
    ensures var known := NewSource(7).(rtcpAddress := Remote(Address(host, 1)));
      var sender := Some(Address(host, 0));
      && Adoptions([known], [7], sender) == 1
      && Count(AfterCsrcs([known], [7], sender), Active) == 1
      && Counted([known], 1, 0, 0, 0) && Counted(AfterCsrcs([known], [7], sender), 1, 0, 0, 1)
      && Counted([WithBye(AfterCsrcs([known], [7], sender)[0], time)], 1, 0, -1, 1)
  {
    var known := NewSource(7).(rtcpAddress := Remote(Address(host, 1)));
    var sender := Some(Address(host, 0));
    var t := AfterCsrc([known], 7, sender);
    assert Known([known], 7) && Locate([known], 7) == 0;
    assert t == [t[0]] && t[0].IsActive() && !t[0].isSender;
    assert [7][1..] == [];
    assert AfterCsrcs(t, [], sender) == t && AfterCsrcs([known], [7], sender) == t;
    CountOne(known, Active);
    CountOne(known, Sender);
    CountOne(t[0], Active);
    CountOne(t[0], Sender);
    CountOne(WithBye(t[0], time), Active);
    CountOne(WithBye(t[0], time), Sender);
  }

  lemma EmptyTable()
    ensures Counted([], 0, 0, 0, 0) && Keyed([], None)
  {
  }

  datatype Status = Success | AlreadyHaveOwnSsrc | SsrcExists | DontHaveOwnSsrc

  class RTPSources {
    const probation: ProbationType
    var sources: seq<Source>
    var totalCount: int
    var senderCount: int
    var activeCount: int
    // The entry `owndata` points to, by its SSRC.
    var own: Option<u32>

    // Inactive entries without BYE that were made active as contributing sources since the last recount.
    ghost var adopted: nat

    ghost predicate Valid()
      reads this
    {
      Counted(sources, totalCount, senderCount, activeCount, adopted) && Keyed(sources, own)
    }

    constructor (probation: ProbationType)
      ensures Valid() && sources == [] && own == None && adopted == 0 && this.probation == probation
    {
      EmptyTable();
      hide Counted, Keyed;
      this.probation := probation;
      sources, totalCount, senderCount, activeCount, own, adopted := [], 0, 0, 0, None, 0;
    }

    method Clear()
      modifies this
      ensures Valid() && sources == [] && own == None && adopted == 0
    {
      EmptyTable();
      hide Counted, Keyed;
      sources, totalCount, senderCount, activeCount, own, adopted := [], 0, 0, 0, None, 0;
    }

    /** ObtainSourceDataInstance. */
    method Obtain(ssrc: u32) returns (i: nat, created: bool)
      requires Valid()
      modifies `sources, `totalCount
      ensures Valid() && sources == Obtained(old(sources), ssrc)
      ensures i == Locate(old(sources), ssrc) < |sources| && created == !Known(old(sources), ssrc)
      ensures sources[i] == if created then NewSource(ssrc) else old(sources)[i]
    {
      i := FindSource(sources, ssrc);
      created := i == |sources|;
      if created {
        GrowKept(sources, own, NewSource(ssrc));
        sources := sources + [NewSource(ssrc)];
        totalCount := totalCount + 1;
      }
    }

    /** An entry changes; the counters follow the changes of its flags. */
    method Change(i: nat, s: Source)
      requires Valid() && i < |sources|
      requires s.ssrc == sources[i].ssrc && s.ownSsrc == sources[i].ownSsrc
      modifies `sources, `senderCount, `activeCount
      ensures Valid() && sources == old(sources)[i := s]
    {
      ReplaceKept(sources, own, i, s);
      var prevSender, prevActive := sources[i].isSender, sources[i].IsActive();
      sources := sources[i := s];
      if !prevSender && s.isSender {
        senderCount := senderCount + 1;
      } else if prevSender && !s.isSender {
        senderCount := senderCount - 1;
      }
      if !prevActive && s.IsActive() {
        activeCount := activeCount + 1;
      } else if prevActive && !s.IsActive() {
        activeCount := activeCount - 1;
      }
    }

    method CreateOwnSSRC(ssrc: u32) returns (status: Status)
      requires Valid()
      modifies this
      ensures Valid() && adopted == old(adopted)
      ensures status == if old(own).Some? then AlreadyHaveOwnSsrc
                        else if Known(old(sources), ssrc) then SsrcExists else Success
      ensures if status.Success? then
                && own == Some(ssrc)
                && sources == old(sources) + [NewSource(ssrc).(ownSsrc := true, validated := true,
                                                               rtpAddress := OwnSession, rtcpAddress := OwnSession)]
              else sources == old(sources) && own == old(own)
    {
      if own.Some? {
        return AlreadyHaveOwnSsrc;
      }
      var i := FindSource(sources, ssrc);
      if i < |sources| {
        return SsrcExists;
      }
      var s := NewSource(ssrc).(ownSsrc := true, validated := true, rtpAddress := OwnSession,
                                rtcpAddress := OwnSession);
      CountGrow(sources, s, Sender);
      CountGrow(sources, s, Active);
      KnownExactly(sources, ssrc);
      KnownExactly(sources + [s], ssrc);
      assert (sources + [s])[|sources|].ssrc == ssrc;
      sources, totalCount, own := sources + [s], totalCount + 1, Some(ssrc);
      activeCount := activeCount + 1;
      return Success;
    }

    method DeleteOwnSSRC() returns (status: Status)
      requires Valid()
      modifies this
      ensures Valid() && own == None && adopted == old(adopted)
      ensures status == if old(own).None? then DontHaveOwnSsrc else Success
      ensures match old(own)
        case None => sources == old(sources)
        case Some(ssrc) => sources == Without(old(sources), Locate(old(sources), ssrc))
    {
      if own.None? {
        return DontHaveOwnSsrc;
      }
      var i := FindSource(sources, own.value);
      RemoveKept(sources, own, i);
      if sources[i].isSender {
        senderCount := senderCount - 1;
      }
      if sources[i].IsActive() {
        activeCount := activeCount - 1;
      }
      sources, totalCount, own := Without(sources, i), totalCount - 1, None;
      return Success;
    }

    method SentRTPPacket(now: RTPTime)
      requires Valid()
      modifies `sources, `senderCount, `activeCount
      ensures Valid()
      ensures match own
        case None => sources == old(sources)
        case Some(ssrc) =>
          var i := Locate(old(sources), ssrc);
          i < |old(sources)|
          && sources == old(sources)[i := old(sources)[i].(isSender := true, lastRtpTime := now, lastMsgTime := now)]
    {
      if own.None? {
        return;
      }
      var i := FindSource(sources, own.value);
      Change(i, sources[i].(isSender := true, lastRtpTime := now, lastMsgTime := now));
    }

    /** Data and contributing sources of one RTP packet; None as sender is our own session. */
    method ProcessRTPPacket(ssrc: u32, q: u16, csrcs: seq<u32>, time: RTPTime, sender: Option<Address>)
      requires Valid()
      modifies this
      ensures Valid() && own == old(own)
      ensures match AfterOwnPart(old(sources), ssrc, q, time, sender, probation)
        case None => sources == old(sources) && adopted == old(adopted)
        case Some(t) =>
          var i := Locate(old(sources), ssrc);
          && i < |t|
          && var named := if t[i].validated then csrcs else [];
             sources == AfterCsrcs(t, named, sender) && adopted == old(adopted) + Adoptions(t, named, sender)
    {
      hide Counted, Keyed, Collide, AfterCsrcs, Adoptions;
      var i, created := Obtain(ssrc);
      var s := sources[i];
      if created {
        s := s.(rtpAddress := SlotOf(sender));
      } else {
        CollideKeeps(s, sender, true);
        var (settled, collision) := Collide(s, sender, true);
        if collision {
          return;
        }
        s := settled;
      }
      s := WithPacket(s, q, time, probation);
      Change(i, s);
      assert AfterOwnPart(old(sources), ssrc, q, time, sender, probation) == Some(sources);
      if s.validated {
        ProcessCSRCs(csrcs, sender);
      } else {
        NobodyNamed(sources, sender);
      }
    }

    method ProcessCSRCs(csrcs: seq<u32>, sender: Option<Address>)
      requires Valid()
      modifies this
      ensures Valid() && own == old(own)
      ensures sources == AfterCsrcs(old(sources), csrcs, sender)
      ensures adopted == old(adopted) + Adoptions(old(sources), csrcs, sender)
    {
      var k := 0;
      assert csrcs[0..] == csrcs;
      while k < |csrcs|
        invariant k <= |csrcs| && Valid() && own == old(own)
        invariant AfterCsrcs(sources, csrcs[k..], sender) == AfterCsrcs(old(sources), csrcs, sender)
        invariant adopted + Adoptions(sources, csrcs[k..], sender)
                  == old(adopted) + Adoptions(old(sources), csrcs, sender)
      {
        assert csrcs[k..][1..] == csrcs[k + 1..];
        ProcessCSRC(csrcs[k], sender);
        k := k + 1;
      }
    }

    /** A contributing source that was known and inactive becomes active without being counted. */
    method ProcessCSRC(csrc: u32, sender: Option<Address>)
      requires Valid()
      modifies this
      ensures Valid() && own == old(own)
      ensures sources == AfterCsrc(old(sources), csrc, sender)
      ensures adopted == old(adopted) + One(Adopts(old(sources), csrc, sender))
    {
      hide Counted, Keyed, Collide;
      var i, created := Obtain(csrc);
      if created {
        Change(i, WithCsrc(sources[i]));
        assert sources == old(sources) + [WithCsrc(NewSource(csrc))];
      } else {
        CollideKeeps(sources[i], sender, true);
        var (s, collision) := Collide(sources[i], sender, true);
        if !collision {
          Adopt(i, WithCsrc(s));
        }
      }
    }

    /** An entry is marked as contributing source; the counters are not told. */
    method Adopt(i: nat, s: Source)
      requires Valid() && i < |sources|
      requires s.ssrc == sources[i].ssrc && s.ownSsrc == sources[i].ownSsrc && s.isSender == sources[i].isSender
      requires s.validated && s.receivedBye == sources[i].receivedBye
      modifies `sources, `adopted
      ensures Valid() && sources == old(sources)[i := s]
      ensures adopted == old(adopted) + One(!old(sources)[i].validated && !old(sources)[i].receivedBye)
    {
      hide Keyed;
      ReplaceKept(sources, own, i, s);
      adopted := adopted + One(!sources[i].validated && !sources[i].receivedBye);
      sources := sources[i := s];
    }

    /** GetRTCPSourceData: the entry an RTCP item belongs to, unless the addresses collide. */
    method ObtainForRTCP(ssrc: u32, sender: Option<Address>) returns (found: Option<nat>)
      requires Valid()
      modifies `sources, `totalCount, `senderCount, `activeCount
      ensures Valid()
      ensures match Admitted(old(sources), ssrc, sender, false)
        case None => found == None && sources == old(sources)
        case Some(s) => found == Some(Locate(old(sources), ssrc)) && found.value < |sources|
                        && sources[found.value] == s && sources == Stored(old(sources), ssrc, s)
    {
      var i, created := Obtain(ssrc);
      if created {
        Change(i, sources[i].(rtcpAddress := SlotOf(sender)));
      } else {
        var (s, collision) := Collide(sources[i], sender, false);
        if collision {
          return None;
        }
        Change(i, s);
      }
      return Some(i);
    }

    method UpdateReceiveTime(ssrc: u32, time: RTPTime, sender: Option<Address>)
      requires Valid()
      modifies `sources, `totalCount, `senderCount, `activeCount
      ensures Valid()
      ensures sources == match Admitted(old(sources), ssrc, sender, false)
        case None => old(sources)
        case Some(s) => Stored(old(sources), ssrc, s.(lastMsgTime := time))
    {
      var found := ObtainForRTCP(ssrc, sender);
      if found.Some? {
        Change(found.value, sources[found.value].(lastMsgTime := time));
      }
    }

    method ProcessSDESNormalItem(ssrc: u32, id: byte, data: seq<byte>, time: RTPTime, sender: Option<Address>)
      requires Valid() && ID_CNAME <= id <= ID_NOTE
      modifies `sources, `totalCount, `senderCount, `activeCount
      ensures Valid()
      ensures sources == match Admitted(old(sources), ssrc, sender, false)
        case None => old(sources)
        case Some(s) => Stored(old(sources), ssrc, WithItem(s, id, data, time))
    {
      var found := ObtainForRTCP(ssrc, sender);
      if found.Some? {
        Change(found.value, WithItem(sources[found.value], id, data, time));
      }
    }

    /** A BYE for the own SSRC is ignored. */
    method ProcessBYE(ssrc: u32, time: RTPTime, sender: Option<Address>)
      requires Valid()
      modifies `sources, `totalCount, `senderCount, `activeCount
      ensures Valid()
      ensures sources == match Admitted(old(sources), ssrc, sender, false)
        case None => old(sources)
        case Some(s) => Stored(old(sources), ssrc, if own == Some(ssrc) then s else WithBye(s, time))
    {
      var found := ObtainForRTCP(ssrc, sender);
      if found.Some? && own != Some(ssrc) {
        Change(found.value, WithBye(sources[found.value], time));
      }
    }

    // ------------------------------------------------------------ timeouts

    method SenderTimeout(curTime: RTPTime, delay: RTPTime)
      requires Valid()
      modifies this
      ensures Valid() && adopted == 0 && own == old(own)
      ensures sources == Sweeps([SenderPass(Minus(curTime, delay))], own, old(sources))
    {
      hide Swept, Counted, Keyed, Sweeps, Count, Less;
      ghost var ps, was, k := [SenderPass(Minus(curTime, delay))], sources, 0;
      var newTotal, newSender, newActive, checkTime, i := 0, 0, 0, Minus(curTime, delay), 0;
      SweepBegins(ps, own, was);
      while i < |sources|
        invariant own == old(own) && 0 <= i <= |sources|
        invariant Swept(ps, own, was, k, sources, i, newTotal, newSender, newActive)
        decreases |sources| - i
      {
        var s := sources[i];
        ghost var before := sources;
        SweepsSingle(ps[0], own, s);
        SweptKeep(ps, own, was, k, sources, i, newTotal, newSender, newActive, Changed(ps[0], s));
        newTotal := newTotal + 1;
        if s.IsActive() {
          newActive := newActive + 1;
        }
        if s.isSender {
          if Less(s.lastRtpTime, checkTime) {
            sources, senderCount := sources[i := s.(isSender := false)], senderCount - 1;
          } else {
            newSender := newSender + 1;
          }
        }
        assert sources == before[i := Changed(ps[0], s)];
        i, k := i + 1, k + 1;
      }
      SweepEnds(ps, own, was, k, sources, i, newTotal, newSender, newActive);
      totalCount, senderCount, activeCount, adopted := newTotal, newSender, newActive, 0;
    }

    method BYETimeout(curTime: RTPTime, delay: RTPTime)
      requires Valid()
      modifies this
      ensures Valid() && adopted == 0 && own == old(own)
      ensures sources == Sweeps([ByePass(Minus(curTime, delay))], own, old(sources))
    {
      hide Swept, Counted, Keyed, Sweeps, Count, Less;
      ghost var ps, was, k := [ByePass(Minus(curTime, delay))], sources, 0;
      var newTotal, newSender, newActive, checkTime, i := 0, 0, 0, Minus(curTime, delay), 0;
      SweepBegins(ps, own, was);
      while i < |sources|
        invariant own == old(own) && 0 <= i <= |sources|
        invariant Swept(ps, own, was, k, sources, i, newTotal, newSender, newActive)
        decreases |sources| - i
      {
        var s := sources[i];
        ghost var before := sources;
        SweepsSingle(ps[0], own, s);
        if s.receivedBye && own != Some(s.ssrc) && Less(s.byeTime, checkTime) {
          SweptDelete(ps, own, was, k, sources, i, newTotal, newSender, newActive);
          totalCount := totalCount - 1;
          senderCount := senderCount - One(s.isSender);
          activeCount := activeCount - One(s.IsActive());
          sources := Without(sources, i);
        } else {
          SweptKeep(ps, own, was, k, sources, i, newTotal, newSender, newActive, s);
          assert sources == before[i := s];
          newTotal := newTotal + 1;
          if s.isSender {
            newSender := newSender + 1;
          }
          if s.IsActive() {
            newActive := newActive + 1;
          }
          i := i + 1;
        }
        k := k + 1;
      }
      SweepEnds(ps, own, was, k, sources, i, newTotal, newSender, newActive);
      totalCount, senderCount, activeCount, adopted := newTotal, newSender, newActive, 0;
    }

    method Timeout(curTime: RTPTime, delay: RTPTime)
      requires Valid()
      modifies this
      ensures Valid() && adopted == 0 && own == old(own)
      ensures sources == Sweeps([GeneralPass(Minus(curTime, delay))], own, old(sources))
    {
      hide Swept, Counted, Keyed, Sweeps, Count, Less;
      ghost var ps, was, k := [GeneralPass(Minus(curTime, delay))], sources, 0;
      var newTotal, newSender, newActive, checkTime, i := 0, 0, 0, Minus(curTime, delay), 0;
      SweepBegins(ps, own, was);
      while i < |sources|
        invariant own == old(own) && 0 <= i <= |sources|
        invariant Swept(ps, own, was, k, sources, i, newTotal, newSender, newActive)
        decreases |sources| - i
      {
        var s := sources[i];
        ghost var before := sources;
        SweepsSingle(ps[0], own, s);
        if own != Some(s.ssrc) && Less(s.lastMsgTime, checkTime) {
          SweptDelete(ps, own, was, k, sources, i, newTotal, newSender, newActive);
          totalCount := totalCount - 1;
          senderCount := senderCount - One(s.isSender);
          activeCount := activeCount - One(s.IsActive());
          sources := Without(sources, i);
        } else {
          SweptKeep(ps, own, was, k, sources, i, newTotal, newSender, newActive, s);
          assert sources == before[i := s];
          newTotal := newTotal + 1;
          if s.isSender {
            newSender := newSender + 1;
          }
          if s.IsActive() {
            newActive := newActive + 1;
          }
          i := i + 1;
        }
        k := k + 1;
      }
      SweepEnds(ps, own, was, k, sources, i, newTotal, newSender, newActive);
      totalCount, senderCount, activeCount, adopted := newTotal, newSender, newActive, 0;
    }

    method NoteTimeout(curTime: RTPTime, delay: RTPTime)
      requires Valid()
      modifies this
      ensures Valid() && adopted == 0 && own == old(own)
      ensures sources == Sweeps([NotePass(Minus(curTime, delay))], own, old(sources))
    {
      hide Swept, Counted, Keyed, Sweeps, Count, Less;
      ghost var ps, was, k := [NotePass(Minus(curTime, delay))], sources, 0;
      var newTotal, newSender, newActive, checkTime, i := 0, 0, 0, Minus(curTime, delay), 0;
      SweepBegins(ps, own, was);
      while i < |sources|
        invariant own == old(own) && 0 <= i <= |sources|
        invariant Swept(ps, own, was, k, sources, i, newTotal, newSender, newActive)
        decreases |sources| - i
      {
        var s := sources[i];
        ghost var before := sources;
        SweepsSingle(ps[0], own, s);
        SweptKeep(ps, own, was, k, sources, i, newTotal, newSender, newActive, Changed(ps[0], s));
        if |Item(s.items, ID_NOTE)| != 0 {
          if Less(s.noteTime, checkTime) {
            sources := sources[i := s.(items := s.items[ID_NOTE := []])];
          }
        }
        assert sources == before[i := Changed(ps[0], s)];
        newTotal := newTotal + 1;
        if s.isSender {
          newSender := newSender + 1;
        }
        if s.IsActive() {
          newActive := newActive + 1;
        }
        i := i + 1;
        k := k + 1;
      }
      SweepEnds(ps, own, was, k, sources, i, newTotal, newSender, newActive);
      totalCount, senderCount, activeCount, adopted := newTotal, newSender, newActive, 0;
    }

    /** All four timeouts in one sweep; no entry is looked at twice. */
    method MultipleTimeouts(curTime: RTPTime, senderDelay: RTPTime, byeDelay: RTPTime, generalDelay: RTPTime,
                            noteDelay: RTPTime)
      requires Valid()
      modifies this
      ensures Valid() && adopted == 0 && own == old(own)
      ensures sources == Sweeps([NotePass(Minus(curTime, noteDelay)), ByePass(Minus(curTime, byeDelay)),
                                 GeneralPass(Minus(curTime, generalDelay)), SenderPass(Minus(curTime, senderDelay))],
                                own, old(sources))
    {
      hide Swept, Counted, Keyed, Minus, Sweeps, Count, Less;
      var senderCheck, byeCheck := Minus(curTime, senderDelay), Minus(curTime, byeDelay);
      var generalCheck, noteCheck := Minus(curTime, generalDelay), Minus(curTime, noteDelay);
      ghost var ps := [NotePass(noteCheck), ByePass(byeCheck), GeneralPass(generalCheck), SenderPass(senderCheck)];
      ghost var was, k := sources, 0;
      var newTotal, newSender, newActive, i := 0, 0, 0, 0;
      SweepBegins(ps, own, was);
      while i < |sources|
        invariant own == old(own) && 0 <= i <= |sources|
        invariant Swept(ps, own, was, k, sources, i, newTotal, newSender, newActive)
        decreases |sources| - i
      {
        SweepsFour(ps[0], ps[1], ps[2], ps[3], own, sources[i]);
        var survivor := CheckEntry(i, senderCheck, byeCheck, generalCheck, noteCheck);
        if survivor.None? {
          SweptDelete(ps, own, was, k, sources, i, newTotal, newSender, newActive);
          sources := Without(sources, i);
        } else {
          var s := survivor.value;
          SweptKeep(ps, own, was, k, sources, i, newTotal, newSender, newActive, s);
          newTotal := newTotal + 1;
          newSender := newSender + One(s.isSender);
          newActive := newActive + One(s.IsActive());
          sources := sources[i := s];
          i := i + 1;
        }
        k := k + 1;
      }
      SweepEnds(ps, own, was, k, sources, i, newTotal, newSender, newActive);
      totalCount, senderCount, activeCount, adopted := newTotal, newSender, newActive, 0;
    }

    /** What the fused loop does with the entry at the cursor; None when it is deleted. */
    method CheckEntry(i: nat, senderCheck: RTPTime, byeCheck: RTPTime, generalCheck: RTPTime, noteCheck: RTPTime)
      returns (survivor: Option<Source>)
      requires i < |sources|
      modifies `totalCount, `senderCount, `activeCount
      ensures var s := sources[i];
        survivor == if Survivor(ByePass(byeCheck), own, s).None? || Survivor(GeneralPass(generalCheck), own, s).None?
                      then None
                    else Survivor(SenderPass(senderCheck), own, Survivor(NotePass(noteCheck), own, s).value)
    {
      var s := sources[i];
      var isSender, isActive, deleted := s.isSender, s.IsActive(), false;
      if |Item(s.items, ID_NOTE)| != 0 {
        if Less(s.noteTime, noteCheck) {
          s := s.(items := s.items[ID_NOTE := []]);
        }
      }
      if s.receivedBye {
        if own != Some(s.ssrc) && Less(s.byeTime, byeCheck) {
          deleted := true;
        }
      }
      if !deleted {
        if own != Some(s.ssrc) && Less(s.lastMsgTime, generalCheck) {
          deleted := true;
        }
      }
      if !deleted {
        if isSender {
          if Less(s.lastRtpTime, senderCheck) {
            s := s.(isSender := false);
            senderCount := senderCount - 1;
          }
        }
        return Some(s);
      }
      if isSender {
        senderCount := senderCount - 1;
      }
      if isActive {
        activeCount := activeCount - 1;
      }
      totalCount := totalCount - 1;
      return None;
    }
  }

  lemma RemoveKept(sources: seq<Source>, own: Option<u32>, i: nat)
    requires Keyed(sources, own) && i < |sources|
    ensures Keyed(Without(sources, i), if own == Some(sources[i].ssrc) then None else own)
    ensures forall f :: Count(Without(sources, i), f) == Count(sources, f) - One(Has(sources[i], f))
  {
    forall f ensures Count(Without(sources, i), f) == Count(sources, f) - One(Has(sources[i], f)) {
      CountRemove(sources, i, f);
    }
    RemoveKeyed(sources, own, i);
  }

  lemma RemoveKeyed(sources: seq<Source>, own: Option<u32>, i: nat)
    requires Keyed(sources, own) && i < |sources|
    ensures Keyed(Without(sources, i), if own == Some(sources[i].ssrc) then None else own)
  {
    hide Known;
    if own.Some? && own != Some(sources[i].ssrc) {
      StillKnown(sources, i, own.value);
    }
    RemovedUnique(sources, i);
    var r := Without(sources, i);
    forall j | 0 <= j < |r|
      ensures r[j].ssrc != sources[i].ssrc && r[j].ownSsrc == (own == Some(r[j].ssrc))
    {
      assert r[j] == sources[if j < i then j else j + 1];
    }
  }

  lemma StillKnown(sources: seq<Source>, i: nat, ssrc: u32)
    requires i < |sources| && sources[i].ssrc != ssrc && Known(sources, ssrc)
    ensures Known(Without(sources, i), ssrc)
  {
    var a, b := sources[..i], sources[i + 1..];
    assert sources == a + ([sources[i]] + b);
    KnownAppend(a, [sources[i]] + b, ssrc);
    KnownAppend([sources[i]], b, ssrc);
    KnownAppend(a, b, ssrc);
  }

  lemma RemovedUnique(sources: seq<Source>, i: nat)
    requires Unique(sources) && i < |sources|
    ensures Unique(Without(sources, i))
  {
    var r := Without(sources, i);
    assert forall j :: 0 <= j < |r| ==> r[j] == sources[if j < i then j else j + 1];
  }
}
