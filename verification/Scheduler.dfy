/**
 * RTCPScheduler: the transmission interval, timer reconsideration and reverse reconsideration (sections
 * 6.3.1, 6.3.4 and 6.3.6 and appendix A.7 of RFC 3550). Times are microseconds; doubles are reals.
 */
module Scheduler {
  import opened Bytes
  import opened Prelude
  import RtcpFormat

  datatype Params = Params(bandwidth: real, senderFraction: real, minInterval: nat,
                           useHalfAtStartup: bool, immediateBye: bool)

  /**
   * What the scheduler asks the source table: active members, senders, and whether we are a sender. The table
   * can count fewer than no active members.
   */
  datatype Members = Members(active: int, senders: nat, weSend: bool)

  datatype Timer = Timer(firstCall: bool, hasSentRtcp: bool, next: int, prev: int, pmembers: int, avgPackSize: nat,
                         byeScheduled: bool, sendByeNow: bool, byeMembers: nat, avgByePackSize: nat)

  /**
   * What SetRTCPBandwidth, SetSenderBandwidthFraction and
   * SetMinimumTransmissionInterval let through, without the ends.
   */
  predicate Sane(p: Params) {
    p.bandwidth > 0.0 && 0.0 < p.senderFraction < 1.0 && p.minInterval >= 1_000_000
  }

  predicate Draw(r: real) {
    0.0 <= r <= 1.0
  }

  function Seconds(t: nat): real {
    t as real / 1000000.0
  }

  /** RTPTime(double): whole microseconds. */
  function FromSeconds(x: real): nat
    requires x >= 0.0
  {
    (x * 1000000.0).Floor
  }

  // ---------------------------------------------------------------- the interval

  function MinSeconds(p: Params, halve: bool): real {
    if halve then Seconds(p.minInterval) / 2.0 else Seconds(p.minInterval)
  }

  /** Senders have a share of the bandwidth of their own as long as they are no more than that share of all. */
  predicate FewSenders(p: Params, active: int, senders: nat) {
    senders as real / (if active == 0 then 1 else active) as real <= p.senderFraction
  }

  function SenderRate(p: Params): (rate: real)
    requires Sane(p)
    ensures rate > 0.0
  {
    p.senderFraction * p.bandwidth
  }

  function ReceiverRate(p: Params): (rate: real)
    requires Sane(p)
    ensures rate > 0.0
  {
    ScaleStrictly(0.0, 1.0 - p.senderFraction, p.bandwidth);
    (1.0 - p.senderFraction) * p.bandwidth
  }

  function SharedRate(p: Params, few: bool, weSend: bool): (rate: real)
    requires Sane(p)
    ensures rate > 0.0
  {
    if !few then p.bandwidth else if weSend then SenderRate(p) else ReceiverRate(p)
  }

  function Sharers(few: bool, active: int, senders: nat, weSend: bool): int {
    var total := if active == 0 then 1 else active;
    if !few then total else if weSend then senders else total - senders
  }

  /** Td in seconds, before it is cut to microseconds. */
  function DeterministicSeconds(p: Params, avg: nat, halve: bool, active: int, senders: nat, weSend: bool): (td: real)
    requires Sane(p)
    ensures td >= MinSeconds(p, halve) > 0.0
  {
    var few := FewSenders(p, active, senders);
    var ntimesC := Span(Sharers(few, active, senders, weSend), avg, SharedRate(p, few, weSend));
    var tmin := MinSeconds(p, halve);
    if tmin > ntimesC then tmin else ntimesC
  }

  /** The seconds n packets of average size take at a rate: n times C. */
  function Span(n: int, avg: nat, rate: real): real
    requires rate > 0.0
  {
    n as real * (avg as real / rate)
  }

  function DeterministicInterval(p: Params, t: Timer, m: Members): nat
    requires Sane(p)
  {
    FromSeconds(DeterministicSeconds(p, t.avgPackSize, Halved(p, t), m.active, m.senders, m.weSend))
  }

  predicate Halved(p: Params, t: Timer) {
    !t.hasSentRtcp && p.useHalfAtStartup
  }

  /** An interval scaled by a random factor, and by the constant that makes up for reconsideration. */
  function Randomised(td: real, mul: real): nat
    requires td >= 0.0 && mul >= 0.0
  {
    FromSeconds(td * mul / 1.21828)
  }

  function TransmissionInterval(p: Params, t: Timer, m: Members, r: real): nat
    requires Sane(p) && Draw(r)
  {
    Randomised(Seconds(DeterministicInterval(p, t, m)), r + 0.5)
  }

  function ByeInterval(p: Params, t: Timer, r: real): nat
    requires Sane(p) && Draw(r)
  {
    if !t.byeScheduled || t.sendByeNow then 0 else Randomised(ByeSeconds(p, t), r + 0.5)
  }

  /** The least interval a draw can give: half the minimum, divided by 1.21828. */
  function Gap(p: Params, hasSent: bool): nat {
    Randomised(Seconds(FromSeconds(MinSeconds(p, !hasSent && p.useHalfAtStartup))), 0.5)
  }

  /** The same for a BYE that is held back. */
  function ByeGap(p: Params): nat {
    Randomised(MinSeconds(p, p.useHalfAtStartup), 0.5)
  }

  /** How long a timer in this state waits at least after its previous time. */
  function LeastWait(p: Params, t: Timer): nat {
    if !t.byeScheduled then Gap(p, t.hasSentRtcp) else if t.sendByeNow then 0 else ByeGap(p)
  }

  /** Td of the BYE backoff: it counts BYE packets, which share the rate of the receivers. */
  function ByeSeconds(p: Params, t: Timer): (td: real)
    requires Sane(p)
    ensures td >= MinSeconds(p, p.useHalfAtStartup) > 0.0
  {
    var tmin := MinSeconds(p, p.useHalfAtStartup);
    var ntimesC := Span(t.byeMembers, t.avgByePackSize, SharedRate(p, true, false));
    if tmin > ntimesC then tmin else ntimesC
  }

  lemma FloorMonotone(x: real, y: real)
    requires x <= y
    ensures x.Floor <= y.Floor
  {
  }

  lemma FromSecondsMonotone(x: real, y: real)
    requires 0.0 <= x <= y
    ensures FromSeconds(x) <= FromSeconds(y)
  {
    FloorMonotone(x * 1000000.0, y * 1000000.0);
  }

  lemma ProductMonotone(x: real, x': real, k: real, k': real)
    requires 0.0 <= x <= x' && 0.0 <= k <= k'
    ensures 0.0 <= x * k <= x' * k'
  {
    ScaleUp(x, x', k);
    ScaleUp(k, k', x');
    ScaleUp(0.0, x, k);
  }

  lemma RandomisedMonotone(td: real, td': real, mul: real, mul': real)
    requires 0.0 <= td <= td' && 0.0 <= mul <= mul'
    ensures Randomised(td, mul) <= Randomised(td', mul')
  {
    ProductMonotone(td, td', mul, mul');
    hide FromSeconds;
    FromSecondsMonotone(td * mul / 1.21828, td' * mul' / 1.21828);
  }

  /** No draw gives less than the gap or more than three times what the smallest draw gives. */
  lemma IntervalBounds(p: Params, t: Timer, m: Members, r: real)
    requires Sane(p) && Draw(r)
    ensures Gap(p, t.hasSentRtcp) <= TransmissionInterval(p, t, m, r)
      <= Randomised(Seconds(DeterministicInterval(p, t, m)), 1.5)
  {
    hide DeterministicSeconds, FromSeconds, Randomised;
    var tmin := MinSeconds(p, Halved(p, t));
    var td := DeterministicSeconds(p, t.avgPackSize, Halved(p, t), m.active, m.senders, m.weSend);
    FromSecondsMonotone(tmin, td);
    RandomisedMonotone(Seconds(FromSeconds(tmin)), Seconds(FromSeconds(td)), 0.5, r + 0.5);
    RandomisedMonotone(Seconds(FromSeconds(td)), Seconds(FromSeconds(td)), r + 0.5, 1.5);
  }

  /** A number of seconds within a microsecond, from below. */
  predicate CutOf(t: nat, x: real) {
    Seconds(t) <= x < Seconds(t) + 0.000001
  }

  lemma FromSecondsCut(x: real)
    requires x >= 0.0
    ensures CutOf(FromSeconds(x), x)
  {
    var y := x * 1000000.0;
    assert y.Floor as real <= y < y.Floor as real + 1.0;
  }

  /** The interval is the deterministic one times a factor between a half and one and a half, over 1.21828. */
  lemma DrawExact(p: Params, t: Timer, m: Members, r: real)
    requires Sane(p) && Draw(r)
    ensures CutOf(TransmissionInterval(p, t, m, r), Seconds(DeterministicInterval(p, t, m)) * (r + 0.5) / 1.21828)
  {
    hide DeterministicInterval, Randomised, Seconds;
    SecondsPositive(DeterministicInterval(p, t, m));
    RandomisedCut(Seconds(DeterministicInterval(p, t, m)), r + 0.5);
  }

  lemma RandomisedCut(td: real, mul: real)
    requires td >= 0.0 && mul >= 0.0
    ensures CutOf(Randomised(td, mul), td * mul / 1.21828)
  {
    ProductMonotone(0.0, td, 0.0, mul);
    hide FromSeconds, CutOf;
    var x := td * mul / 1.21828;
    FromSecondsCut(x);
  }

  lemma SecondsPositive(t: nat)
    ensures Seconds(t) >= 0.0
  {
  }

  /** A greater draw never gives a shorter interval, and the greatest gives three times the least, up to the cut. */
  lemma DrawSpreads(p: Params, t: Timer, m: Members, r: real, r': real)
    requires Sane(p) && Draw(r) && Draw(r') && r <= r'
    ensures TransmissionInterval(p, t, m, r) <= TransmissionInterval(p, t, m, r')
    ensures var least := TransmissionInterval(p, t, m, 0.0);
            3 * least <= TransmissionInterval(p, t, m, 1.0) <= 3 * least + 2
  {
    hide DeterministicInterval, FromSeconds;
    var td := Seconds(DeterministicInterval(p, t, m));
    RandomisedMonotone(td, td, r + 0.5, r' + 0.5);
    DrawExact(p, t, m, 0.0);
    DrawExact(p, t, m, 1.0);
    hide TransmissionInterval, Randomised;
    Threefold(TransmissionInterval(p, t, m, 0.0), TransmissionInterval(p, t, m, 1.0), td * 0.5 / 1.21828);
  }

  lemma Threefold(a: nat, b: nat, x: real)
    requires CutOf(a, x) && CutOf(b, 3.0 * x)
    ensures 3 * a <= b <= 3 * a + 2
  {
  }

  /** The seconds n packets of average size take at a share of the bandwidth. */
  function OctetsOver(n: int, avg: nat, share: real, bandwidth: real): real
    requires share > 0.0 && bandwidth > 0.0
  {
    n as real * avg as real / share / bandwidth
  }

  /**
   * The deterministic interval is what all packets of a kind take at its share, or the minimum if that is more, up to
   * the cut. Senders have a share of their own as long as they are no more than that share of the members. No members
   * count as one.
   */
  lemma DeterministicExact(p: Params, t: Timer, m: Members)
    requires Sane(p) && m.active >= 0
    ensures var members := if m.active == 0 then 1 else m.active;
            var few := m.senders as real <= p.senderFraction * members as real;
            var need := if !few then OctetsOver(members, t.avgPackSize, 1.0, p.bandwidth)
                        else if m.weSend then OctetsOver(m.senders, t.avgPackSize, p.senderFraction, p.bandwidth)
                        else OctetsOver(members - m.senders, t.avgPackSize, 1.0 - p.senderFraction, p.bandwidth);
            var half := !t.hasSentRtcp && p.useHalfAtStartup;
            var minimum := p.minInterval as real / if half then 2000000.0 else 1000000.0;
            CutOf(DeterministicInterval(p, t, m), if need > minimum then need else minimum)
  {
    hide FromSeconds, CutOf, Span, OctetsOver, FewSenders;
    ShareExact(m.senders, if m.active == 0 then 1 else m.active, p.senderFraction);
    FewExact(p, m);
    var few := FewSenders(p, m.active, m.senders);
    SpanIs(p, Sharers(few, m.active, m.senders, m.weSend), t.avgPackSize, few, m.weSend);
    hide SharedRate;
    MinimumIs(p, Halved(p, t));
    hide MinSeconds;
    FromSecondsCut(DeterministicSeconds(p, t.avgPackSize, Halved(p, t), m.active, m.senders, m.weSend));
  }

  function ShareOf(p: Params, few: bool, weSend: bool): real {
    if !few then 1.0 else if weSend then p.senderFraction else 1.0 - p.senderFraction
  }

  lemma SpanIs(p: Params, n: int, avg: nat, few: bool, weSend: bool)
    requires Sane(p)
    ensures Span(n, avg, SharedRate(p, few, weSend)) == OctetsOver(n, avg, ShareOf(p, few, weSend), p.bandwidth)
  {
    var c, x := SharedRate(p, few, weSend), OctetsOver(n, avg, ShareOf(p, few, weSend), p.bandwidth);
    SpanTimes(n, avg, c);
    OctetsTimes(n, avg, ShareOf(p, few, weSend), p.bandwidth);
    hide Span, OctetsOver;
    CancelFactor(Span(n, avg, c), x, c);
    CancelFactor(x, Span(n, avg, c), c);
  }

  lemma OctetsTimes(n: int, avg: nat, share: real, bandwidth: real)
    requires share > 0.0 && bandwidth > 0.0
    ensures OctetsOver(n, avg, share, bandwidth) * (share * bandwidth) == n as real * avg as real
  {
    var y := n as real * avg as real / share;
    Quotients(n as real * avg as real, share);
    Quotients(y, bandwidth);
    assert y / bandwidth * (share * bandwidth) == y / bandwidth * bandwidth * share;
  }

  lemma Quotients(x: real, t: real)
    requires t > 0.0
    ensures x / t * t == x
  {
  }

  lemma FewExact(p: Params, m: Members)
    ensures var members := if m.active == 0 then 1 else m.active;
            FewSenders(p, m.active, m.senders) <==> m.senders as real / members as real <= p.senderFraction
  {
  }

  lemma MinimumIs(p: Params, halve: bool)
    ensures MinSeconds(p, halve) == p.minInterval as real / if halve then 2000000.0 else 1000000.0
  {
  }

  lemma ShareExact(senders: nat, active: int, fraction: real)
    requires active > 0
    ensures senders as real / active as real <= fraction <==> senders as real <= fraction * active as real
  {
    var x, a := senders as real / active as real, active as real;
    assert x * a == senders as real;
    if x <= fraction {
      ScaleUp(x, fraction, a);
    } else {
      ScaleStrictly(fraction, x, a);
    }
  }

  /** Nor for a BYE: none at all when it may go out immediately, the gap of the backoff otherwise. */
  lemma ByeBounds(p: Params, t: Timer, r: real)
    requires Sane(p) && Draw(r) && t.byeScheduled
    ensures LeastWait(p, t) <= ByeInterval(p, t, r) <= Randomised(ByeSeconds(p, t), 1.5)
    ensures ByeInterval(p, t, r) == 0 <==> t.sendByeNow
  {
    hide ByeSeconds, Randomised;
    RandomisedMonotone(MinSeconds(p, p.useHalfAtStartup), ByeSeconds(p, t), 0.5, r + 0.5);
    RandomisedMonotone(ByeSeconds(p, t), ByeSeconds(p, t), r + 0.5, 1.5);
    ByeGapPositive(p);
  }

  /** The BYE backoff: what the BYE packets counted take at the share of the receivers, times the random factor. */
  lemma ByeExact(p: Params, t: Timer, r: real)
    requires Sane(p) && Draw(r) && t.byeScheduled && !t.sendByeNow
    ensures var minimum := p.minInterval as real / if p.useHalfAtStartup then 2000000.0 else 1000000.0;
            var need := OctetsOver(t.byeMembers, t.avgByePackSize, 1.0 - p.senderFraction, p.bandwidth);
            CutOf(ByeInterval(p, t, r), (if need > minimum then need else minimum) * (r + 0.5) / 1.21828)
  {
    hide Randomised, Span, OctetsOver;
    SpanIs(p, t.byeMembers, t.avgByePackSize, true, false);
    MinimumIs(p, p.useHalfAtStartup);
    RandomisedCut(ByeSeconds(p, t), r + 0.5);
    hide MinSeconds, SharedRate;
  }

  lemma ByeGapPositive(p: Params)
    requires Sane(p)
    ensures ByeGap(p) > 0
  {
    var x := MinSeconds(p, p.useHalfAtStartup);
    assert x >= 0.5;
    FromSecondsMonotone(0.2, x * 0.5 / 1.21828);
  }

  // ---------------------------------------------------------------- sharing the bandwidth

  lemma CancelFactor(x: real, y: real, k: real)
    requires k > 0.0 && x * k <= y * k
    ensures x <= y
  {
  }

  /** Octets per second sent by n members that send a packet of average size every t seconds. */
  function Rate(n: real, avg: real, t: real): real
    requires t > 0.0
  {
    n * avg / t
  }

  lemma RateTimes(n: real, avg: real, t: real)
    requires t > 0.0
    ensures Rate(n, avg, t) * t == n * avg
  {
  }

  lemma SpanTimes(n: int, avg: nat, c: real)
    requires c > 0.0
    ensures Span(n, avg, c) * c == n as real * avg as real
  {
    assert avg as real / c * c == avg as real;
  }

  /** The part of the rate c that an interval lacks when what takes the time `span` at that rate goes out in it. */
  function Beyond(c: real, span: real, t: real): real
    requires t > 0.0
  {
    (span - t) * c / t
  }

  lemma BeyondTimes(c: real, span: real, t: real)
    requires t > 0.0
    ensures Beyond(c, span, t) * t == (span - t) * c
  {
    Quotients((span - t) * c, t);
  }

  lemma SameSign(x: real, t: real, d: real, c: real)
    requires c > 0.0 && t > 0.0 && x * t == d * c
    ensures x <= 0.0 <==> d <= 0.0
  {
    if x <= 0.0 {
      ScaleUp(x, 0.0, t);
      CancelFactor(d, 0.0, c);
    } else {
      ScaleStrictly(0.0, x, t);
      if d <= 0.0 {
        ScaleUp(d, 0.0, c);
      }
    }
  }

  lemma ExcessSign(c: real, span: real, t: real)
    requires c > 0.0 && t > 0.0
    ensures Beyond(c, span, t) <= 0.0 <==> span <= t
  {
    BeyondTimes(c, span, t);
    hide Beyond;
    SameSign(Beyond(c, span, t), t, span - t, c);
  }

  /** What n members send beyond the rate c. */
  lemma RateExcess(n: int, avg: nat, c: real, t: real)
    requires c > 0.0 && t > 0.0
    ensures Rate(n as real, avg as real, t) == c + Beyond(c, Span(n, avg, c), t)
  {
    var rate, span := Rate(n as real, avg as real, t), Span(n, avg, c);
    RateTimes(n as real, avg as real, t);
    SpanTimes(n, avg, c);
    BeyondTimes(c, span, t);
    hide Rate, Span, Beyond;
    assert (rate - c) * t == Beyond(c, span, t) * t;
    CancelFactor(rate - c, Beyond(c, span, t), t);
    CancelFactor(Beyond(c, span, t), rate - c, t);
  }

  /** Cutting to whole microseconds takes less than one of them away. */
  lemma CutClose(x: real)
    requires x >= 0.0
    ensures x - Seconds(1) < Seconds(FromSeconds(x)) <= x
  {
    var y := x * 1000000.0;
    assert y - 1.0 < y.Floor as real <= y;
  }

  lemma CutProduct(x: real, y: real, tmin: real, eps: real)
    requires x >= tmin >= 0.0 && y >= x - eps && eps >= 0.0
    ensures x * (tmin - eps) <= y * tmin
  {
    ScaleUp(tmin, x, eps);
    ScaleUp(x - eps, y, tmin);
    assert x * (tmin - eps) == x * tmin - x * eps;
    assert (x - eps) * tmin == x * tmin - tmin * eps;
  }

  /** An interval that covers the span before it is cut exceeds the rate by no more than the cut. */
  lemma RateAfterCut(n: int, avg: nat, c: real, x: real, tmin: real)
    requires c > 0.0 && x >= tmin > Seconds(1) && x >= Span(n, avg, c) && Seconds(FromSeconds(x)) > 0.0
    ensures Rate(n as real, avg as real, Seconds(FromSeconds(x))) * (tmin - Seconds(1)) <= c * tmin
  {
    CutClose(x);
    hide Rate, Span, FromSeconds, Seconds;
    var eps, y := Seconds(1), Seconds(FromSeconds(x));
    var rate, span := Rate(n as real, avg as real, y), Span(n, avg, c);
    RateTimes(n as real, avg as real, y);
    SpanTimes(n, avg, c);
    ScaleUp(span, x, c);
    CutProduct(x, y, tmin, eps);
    RateCut(rate, c, x, y, tmin - eps, tmin);
  }

  lemma RateCut(rate: real, c: real, x: real, y: real, lower: real, upper: real)
    requires y > 0.0 && c > 0.0 && lower >= 0.0
    requires rate * y <= x * c && x * lower <= y * upper
    ensures rate * lower <= c * upper
  {
    ScaleUp(rate * y, x * c, lower);
    ScaleUp(x * lower, y * upper, c);
    assert rate * y * lower == rate * lower * y;
    assert x * c * lower == x * lower * c;
    assert y * upper * c == c * upper * y;
    CancelFactor(rate * lower, c * upper, y);
  }

  lemma SharedRates(p: Params)
    requires Sane(p)
    ensures SharedRate(p, true, true) + SharedRate(p, true, false) == p.bandwidth
    ensures SharedRate(p, false, true) == SharedRate(p, false, false) == p.bandwidth
  {
  }

  /** The interval in seconds that the members of one kind use. */
  function UsedSeconds(p: Params, t: Timer, active: int, senders: nat, weSend: bool): (x: real)
    requires Sane(p)
    ensures x > 0.0
  {
    UsedPositive(p, t, Members(active, senders, weSend));
    Seconds(DeterministicInterval(p, t, Members(active, senders, weSend)))
  }

  lemma UsedPositive(p: Params, t: Timer, m: Members)
    requires Sane(p)
    ensures DeterministicInterval(p, t, m) > 0
  {
    hide FromSeconds;
    FromSecondsMonotone(0.5, DeterministicSeconds(p, t.avgPackSize, Halved(p, t), m.active, m.senders, m.weSend));
    assert FromSeconds(0.5) == 500_000 by {
      HalfSecond();
    }
  }

  lemma HalfSecond()
    ensures FromSeconds(0.5) == 500_000
  {
  }

  /** What all members send together, each at the interval this class gives it. */
  function TotalRate(p: Params, t: Timer, active: int, senders: nat): real
    requires Sane(p)
  {
    Rate(senders as real, t.avgPackSize as real, UsedSeconds(p, t, active, senders, true))
    + Rate((active - senders) as real, t.avgPackSize as real, UsedSeconds(p, t, active, senders, false))
  }

  lemma Together(s: real, r: real, a: real, t: real)
    requires t > 0.0
    ensures Rate(s, a, t) + Rate(r, a, t) == Rate(s + r, a, t)
  {
    SumOver(s * a, r * a, t);
    assert s * a + r * a == (s + r) * a;
  }

  lemma SumOver(x: real, y: real, t: real)
    requires t > 0.0
    ensures x / t + y / t == (x + y) / t
  {
  }

  /** With many senders all members use one interval. */
  lemma ManySenders(p: Params, t: Timer, active: int, senders: nat)
    requires Sane(p) && active > 0 && !FewSenders(p, active, senders)
    ensures UsedSeconds(p, t, active, senders, true) == UsedSeconds(p, t, active, senders, false)
    ensures TotalRate(p, t, active, senders)
      == Rate(active as real, t.avgPackSize as real, UsedSeconds(p, t, active, senders, true))
  {
    hide Rate, Span, FromSeconds;
    Together(senders as real, (active - senders) as real, t.avgPackSize as real,
             UsedSeconds(p, t, active, senders, true));
    assert senders as real + (active - senders) as real == active as real;
  }

  /** The members of one kind exceed their share by no more than the cut to microseconds. */
  lemma KindBounded(p: Params, t: Timer, active: int, senders: nat, weSend: bool)
    requires Sane(p) && active > 0
    ensures var tmin := MinSeconds(p, Halved(p, t));
            var few := FewSenders(p, active, senders);
            Rate(Sharers(few, active, senders, weSend) as real, t.avgPackSize as real,
                 UsedSeconds(p, t, active, senders, weSend))
            * (tmin - Seconds(1)) <= SharedRate(p, few, weSend) * tmin
  {
    hide Rate, Span, FromSeconds, FewSenders, SharedRate;
    var few := FewSenders(p, active, senders);
    var td := DeterministicSeconds(p, t.avgPackSize, Halved(p, t), active, senders, weSend);
    UsedPositive(p, t, Members(active, senders, weSend));
    RateAfterCut(Sharers(few, active, senders, weSend), t.avgPackSize, SharedRate(p, few, weSend), td,
                 MinSeconds(p, Halved(p, t)));
  }

  /**
   * If all members use the interval with the same average packet size, their total RTCP rate exceeds the RTCP
   * bandwidth by no more than the factor tmin / (tmin - 1 microsecond), which is what cutting the interval to
   * whole microseconds costs: whatever the minimum interval, and whether senders are few or many.
   */
  lemma BandwidthShared(p: Params, t: Timer, active: int, senders: nat)
    requires Sane(p) && active > 0 && senders <= active
    ensures var tmin := MinSeconds(p, Halved(p, t));
            tmin >= 0.5 && TotalRate(p, t, active, senders) * (tmin - Seconds(1)) <= p.bandwidth * tmin
  {
    hide Rate, UsedSeconds, FewSenders, SharedRate;
    var tmin, few := MinSeconds(p, Halved(p, t)), FewSenders(p, active, senders);
    KindBounded(p, t, active, senders, true);
    KindBounded(p, t, active, senders, false);
    SharedRates(p);
    if !few {
      ManySenders(p, t, active, senders);
    } else {
      hide MinSeconds, Halved, Sane;
      var rs := Rate(senders as real, t.avgPackSize as real, UsedSeconds(p, t, active, senders, true));
      var rr := Rate((active - senders) as real, t.avgPackSize as real, UsedSeconds(p, t, active, senders, false));
      SumBounded(rs, rr, SharedRate(p, true, true), SharedRate(p, true, false), tmin - Seconds(1), tmin);
    }
  }

  lemma SumBounded(x: real, y: real, c: real, d: real, lower: real, upper: real)
    requires x * lower <= c * upper && y * lower <= d * upper
    ensures (x + y) * lower <= (c + d) * upper
  {
    assert (x + y) * lower == x * lower + y * lower;
    assert (c + d) * upper == c * upper + d * upper;
  }

  // The condition: what the packets take at their share of the bandwidth, and what is left of it after the cut.

  /** The time the packets of the members of one kind take at their share of the bandwidth. */
  function PacketsTime(p: Params, t: Timer, active: int, senders: nat, weSend: bool): real
    requires Sane(p)
  {
    var few := FewSenders(p, active, senders);
    Span(Sharers(few, active, senders, weSend), t.avgPackSize, SharedRate(p, few, weSend))
  }

  /** The minimum interval in whole microseconds: halving an odd minimum leaves half of one. */
  function CutMinimum(p: Params, t: Timer): real
    requires Sane(p)
  {
    Seconds(FromSeconds(MinSeconds(p, Halved(p, t))))
  }

  /** The time the packets take in whole microseconds, or the minimum if that is more. */
  function CutTime(p: Params, t: Timer, active: int, senders: nat, weSend: bool): real
    requires Sane(p)
  {
    var span := PacketsTime(p, t, active, senders, weSend);
    if span < MinSeconds(p, Halved(p, t)) then CutMinimum(p, t) else Seconds(FromSeconds(span))
  }

  predicate WholeMicroseconds(x: real) {
    (x * 1000000.0).Floor as real == x * 1000000.0
  }

  /** The packets take a whole number of microseconds, or no longer than the minimum. */
  predicate CutHarmless(p: Params, t: Timer, active: int, senders: nat, weSend: bool)
    requires Sane(p)
  {
    var span := PacketsTime(p, t, active, senders, weSend);
    WholeMicroseconds(span) || span <= CutMinimum(p, t)
  }

  /** The interval is the cut time, and is too short for the packets exactly when the cut is not harmless. */
  lemma CutExact(p: Params, t: Timer, active: int, senders: nat, weSend: bool)
    requires Sane(p)
    ensures UsedSeconds(p, t, active, senders, weSend) == CutTime(p, t, active, senders, weSend) > 0.0
    ensures PacketsTime(p, t, active, senders, weSend) <= CutTime(p, t, active, senders, weSend)
       <==> CutHarmless(p, t, active, senders, weSend)
  {
    hide Span, FewSenders, SharedRate, Sharers, Halved;
    var span, tmin := PacketsTime(p, t, active, senders, weSend), MinSeconds(p, Halved(p, t));
    assert UsedSeconds(p, t, active, senders, weSend) == CutTime(p, t, active, senders, weSend);
    if span < tmin {
      FloorMonotone(span * 1000000.0, tmin * 1000000.0);
    } else {
      CutClose(span);
    }
  }

  /** What the members of one kind send beyond their share; negative when they leave some of it. */
  function Excess(p: Params, t: Timer, active: int, senders: nat, weSend: bool): real
    requires Sane(p)
  {
    CutExact(p, t, active, senders, weSend);
    var cut := CutTime(p, t, active, senders, weSend);
    Beyond(SharedRate(p, FewSenders(p, active, senders), weSend), PacketsTime(p, t, active, senders, weSend), cut)
  }

  lemma ExcessExact(p: Params, t: Timer, active: int, senders: nat, weSend: bool)
    requires Sane(p)
    ensures Excess(p, t, active, senders, weSend) <= 0.0 <==> CutHarmless(p, t, active, senders, weSend)
  {
    hide SharedRate, FewSenders, PacketsTime, CutTime, CutHarmless, UsedSeconds, Beyond;
    CutExact(p, t, active, senders, weSend);
    ExcessSign(SharedRate(p, FewSenders(p, active, senders), weSend), PacketsTime(p, t, active, senders, weSend),
               CutTime(p, t, active, senders, weSend));
  }

  /** What the members of one kind send together. */
  function KindRate(p: Params, t: Timer, active: int, senders: nat, weSend: bool): real
    requires Sane(p)
  {
    Rate(Sharers(FewSenders(p, active, senders), active, senders, weSend) as real, t.avgPackSize as real,
         UsedSeconds(p, t, active, senders, weSend))
  }

  lemma KindExact(p: Params, t: Timer, active: int, senders: nat, weSend: bool)
    requires Sane(p)
    ensures KindRate(p, t, active, senders, weSend)
         == SharedRate(p, FewSenders(p, active, senders), weSend) + Excess(p, t, active, senders, weSend)
  {
    hide Rate, Span, UsedSeconds, SharedRate, FewSenders, Sharers, CutTime, CutHarmless, Beyond;
    CutExact(p, t, active, senders, weSend);
    var few := FewSenders(p, active, senders);
    RateExcess(Sharers(few, active, senders, weSend), t.avgPackSize, SharedRate(p, few, weSend),
               CutTime(p, t, active, senders, weSend));
  }

  /**
   * When the members keep within the bandwidth. Many senders do exactly when the cut is harmless. With few senders
   * the two kinds have shares of their own: together they keep within the bandwidth if the cut is harmless for both
   * kinds, they exceed it if it is for neither, and otherwise they keep within it exactly when what one kind sends
   * beyond its share is no more than what the other leaves of its own.
   */
  lemma BandwidthExact(p: Params, t: Timer, active: int, senders: nat)
    requires Sane(p) && active > 0 && senders <= active
    ensures !FewSenders(p, active, senders) ==>
              (TotalRate(p, t, active, senders) <= p.bandwidth <==> CutHarmless(p, t, active, senders, true))
    ensures FewSenders(p, active, senders) ==>
              (TotalRate(p, t, active, senders) <= p.bandwidth
               <==> Excess(p, t, active, senders, true) <= -Excess(p, t, active, senders, false))
    ensures CutHarmless(p, t, active, senders, true) && CutHarmless(p, t, active, senders, false) ==>
              TotalRate(p, t, active, senders) <= p.bandwidth
    ensures !CutHarmless(p, t, active, senders, true) && !CutHarmless(p, t, active, senders, false) ==>
              TotalRate(p, t, active, senders) > p.bandwidth
  {
    SharedRates(p);
    ExcessExact(p, t, active, senders, true);
    ExcessExact(p, t, active, senders, false);
    KindExact(p, t, active, senders, true);
    KindExact(p, t, active, senders, false);
    hide Rate, UsedSeconds, SharedRate, FewSenders, Excess, CutHarmless;
    if !FewSenders(p, active, senders) {
      ManySenders(p, t, active, senders);
      SameCut(p, t, active, senders);
    }
  }

  lemma SameCut(p: Params, t: Timer, active: int, senders: nat)
    requires Sane(p) && !FewSenders(p, active, senders)
    ensures CutHarmless(p, t, active, senders, true) == CutHarmless(p, t, active, senders, false)
  {
    hide Span, WholeMicroseconds;
  }

  /** The cut can cost the bandwidth: two members, one of them sending, at 6 octets a second. */
  lemma BandwidthExceeded(t: Timer)
    requires t.avgPackSize == 10
    ensures var p := Params(6.0, 0.5, 1_000_000, false, false);
            && UsedSeconds(p, t, 2, 1, true) == UsedSeconds(p, t, 2, 1, false) == Seconds(3_333_333)
            && TotalRate(p, t, 2, 1) > p.bandwidth
  {
    var p := Params(6.0, 0.5, 1_000_000, false, false);
    assert FewSenders(p, 2, 1);
    assert Span(1, 10, 3.0) == 10.0 / 3.0;
    assert DeterministicSeconds(p, 10, false, 2, 1, true) == DeterministicSeconds(p, 10, false, 2, 1, false)
           == 10.0 / 3.0;
    assert (10.0 / 3.0 * 1000000.0).Floor == 3_333_333;
  }

  // ---------------------------------------------------------------- the timer, on values

  function Advance(p: Params, t: Timer, m: Members, later: nat, r: real): Timer
    requires Sane(p) && Draw(r)
  {
    t.(next := later + TransmissionInterval(p, t, m, r))
  }

  /** The first call of IsTime or GetTransmissionDelay starts the timer. */
  function Start(p: Params, t: Timer, m: Members, now: nat, later: nat, r: real): Timer
    requires Sane(p) && Draw(r)
  {
    Advance(p, t.(firstCall := false, prev := now, pmembers := m.active), m, later, r)
  }

  /** IsTime; the clock is read again (`later`) when a new transmission time is set. */
  function Poll(p: Params, t: Timer, m: Members, now: nat, later: nat, r: real, r': real): (Timer, bool)
    requires Sane(p) && Draw(r) && Draw(r')
  {
    if t.firstCall then (Start(p, t, m, now, later, r), false)
    else if now < t.next then (t, false)
    else
      var check := t.prev + if t.byeScheduled then ByeInterval(p, t, r) else TransmissionInterval(p, t, m, r);
      if check <= now then
        (Advance(p, t.(byeScheduled := false, prev := now, pmembers := m.active), m, later, r'), true)
      else (t.(next := check, pmembers := m.active), false)
  }

  /**
   * RTPTime(double) for a value of any sign: what does not fit the unsigned words is not defined, and `wild` is
   * what the platform makes of it.
   */
  function ToTime(x: real, wild: int): int {
    if x * 1000000.0 <= -1.0 then wild else if x < 0.0 then 0 else FromSeconds(x)
  }

  /** A division by no members is avoided. */
  function Ratio(active: int, pmembers: int): real {
    active as real / (if pmembers == 0 then 1 else pmembers) as real
  }

  /** A span in seconds, in proportion to the members that are left. */
  function Stretched(span: nat, active: int, pmembers: int): real {
    Ratio(active, pmembers) * Seconds(span)
  }

  function Scaled(span: nat, active: int, pmembers: int, wild: int): int {
    ToTime(Stretched(span, active, pmembers), wild)
  }

  function UntilNext(t: Timer, now: nat): nat {
    if t.next > now then t.next - now else 0
  }

  function SincePrev(t: Timer, now: nat): nat {
    if now > t.prev then now - t.prev else 0
  }

  /**
   * ActiveMemberDecrease: reverse reconsideration when there are fewer members than last time; `wild` and `wild'`
   * are what becomes of the two spans where they cannot be represented.
   */
  function Reverse(t: Timer, active: int, now: nat, wild: int, wild': int): Timer {
    if active >= t.pmembers || t.firstCall then t
    else
      t.(next := now + Scaled(UntilNext(t, now), active, t.pmembers, wild),
         prev := now - Scaled(SincePrev(t, now), active, t.pmembers, wild'),
         pmembers := active)
  }

  /**
   * A span that reverse reconsideration does not stretch: the new count is not negative, or the span is so short
   * that the excess is less than a microsecond.
   */
  predicate Harmless(span: nat, active: int, pmembers: int) {
    active >= 0
    || if pmembers >= 0 then span * -active < (if pmembers == 0 then 1 else pmembers)
       else span * (pmembers - active) < -pmembers
  }

  /** The value that is cut to whole microseconds. */
  lemma RatioMicros(span: nat, active: int, pmembers: int)
    ensures var q := if pmembers == 0 then 1 else pmembers;
            Ratio(active, pmembers) * Seconds(span) * 1000000.0 * q as real == (active * span) as real
  {
    var q := if pmembers == 0 then 1 else pmembers;
    var k := Ratio(active, pmembers);
    assert k * q as real == active as real;
    assert Seconds(span) * 1000000.0 == span as real;
    Regroup(k, Seconds(span), q as real, active as real, span as real);
    Product(active, span);
  }

  lemma Regroup(k: real, x: real, q: real, a: real, n: real)
    requires k * q == a && x * 1000000.0 == n
    ensures k * x * 1000000.0 * q == a * n
  {
    assert k * x * 1000000.0 * q == (k * q) * (x * 1000000.0);
  }

  /** A quotient of whole numbers against a whole number. */
  lemma Quotient(x: real, n: int, q: int, bound: int)
    requires q != 0 && x * q as real == n as real
    ensures q > 0 ==> (x < bound as real <==> n < bound * q) && (x <= bound as real <==> n <= bound * q)
    ensures q < 0 ==> (x < bound as real <==> n > bound * q)
  {
    Product(bound, q);
    var y := bound as real;
    if q > 0 {
      if x < y { ScaleStrictly(x, y, q as real); }
      if x > y { ScaleStrictly(y, x, q as real); }
    } else {
      if x < y { ScaleStrictly(x, y, -(q as real)); }
      if x > y { ScaleStrictly(y, x, -(q as real)); }
    }
  }

  lemma SignOf(x: real, n: int, q: int)
    requires q != 0 && x * q as real == n as real
    ensures x < 0.0 <==> (n < 0 && q > 0) || (n > 0 && q < 0)
  {
    Quotient(x, n, q, 0);
  }

  /** Whatever becomes of values that cannot be represented, the scaled span is no longer exactly for harmless spans. */
  lemma ScaledExact(span: nat, active: int, pmembers: int)
    requires active < pmembers
    ensures (forall w: int :: 0 <= Scaled(span, active, pmembers, w) <= span) <==> Harmless(span, active, pmembers)
  {
    var q := if pmembers == 0 then 1 else pmembers;
    var x := Ratio(active, pmembers) * Seconds(span) * 1000000.0;
    RatioMicros(span, active, pmembers);
    Quotient(x, active * span, q, -1);
    SignOf(x, active * span, q);
    Quotient(x, active * span, q, span + 1);
    ScaledCases(span, active, pmembers, x);
    hide Ratio, Scaled, Seconds;
    if active >= 0 {
      WithinSpan(span, active, q);
    } else if pmembers >= 0 {
      if !Harmless(span, active, pmembers) {
        assert Scaled(span, active, pmembers, -1) == -1;
      }
    } else if Harmless(span, active, pmembers) {
      assert active * span > (span + 1) * q;
    } else {
      assert active * span <= (span + 1) * q;
      assert Scaled(span, active, pmembers, 0) > span;
    }
  }

  /** With counts that are not negative a span shrinks in proportion to the members left, in whole microseconds. */
  lemma ScaledShare(span: nat, active: nat, pmembers: nat, wild: int)
    requires active < pmembers
    ensures var x := Scaled(span, active, pmembers, wild); x * pmembers <= span * active < (x + 1) * pmembers
  {
    var x := Ratio(active, pmembers) * Seconds(span) * 1000000.0;
    RatioMicros(span, active, pmembers);
    ScaledCases(span, active, pmembers, x);
    SignOf(x, active * span, pmembers);
    Quotient(x, active * span, pmembers, x.Floor);
    Quotient(x, active * span, pmembers, x.Floor + 1);
    hide Ratio, Scaled, Seconds;
    ProductPositive(active, span);
  }

  lemma ProductPositive(a: nat, b: nat)
    ensures a * b >= 0
  {
  }

  lemma WithinSpan(span: nat, active: nat, q: nat)
    requires active < q
    ensures 0 <= active * span < (span + 1) * q
  {
    assert active * span <= q * span;
  }

  lemma ScaledCases(span: nat, active: int, pmembers: int, x: real)
    requires x == Ratio(active, pmembers) * Seconds(span) * 1000000.0
    ensures forall w :: Scaled(span, active, pmembers, w) == if x <= -1.0 then w else if x < 0.0 then 0 else x.Floor
    ensures x < (span + 1) as real ==> x.Floor <= span
    ensures x >= (span + 1) as real ==> x.Floor > span
  {
  }

  /** The current time stays between the timer values; neither prev nor next moves away from it. */
  predicate Keeps(t: Timer, u: Timer, now: nat) {
    t.prev <= u.prev <= now <= u.next <= now + UntilNext(t, now)
  }

  /**
   * Reverse reconsideration keeps the current time between the two timer values and moves neither away from it
   * if and only if both spans are harmless, in particular for every count that is not negative. It then moves the
   * next time forward exactly when that time has already passed.
   */
  lemma ReverseExact(t: Timer, active: int, now: nat)
    requires !t.firstCall && t.prev <= now && active < t.pmembers
    ensures (forall w, w' :: Keeps(t, Reverse(t, active, now, w, w'), now))
       <==> Harmless(UntilNext(t, now), active, t.pmembers) && Harmless(SincePrev(t, now), active, t.pmembers)
    ensures Harmless(UntilNext(t, now), active, t.pmembers) ==>
              forall w, w' :: Reverse(t, active, now, w, w').next <= t.next <==> now <= t.next
  {
    var un, sp := UntilNext(t, now), SincePrev(t, now);
    ScaledExact(un, active, t.pmembers);
    ScaledExact(sp, active, t.pmembers);
    hide Scaled, Harmless;
    if w: int :| !(0 <= Scaled(un, active, t.pmembers, w) <= un) {
      assert !Keeps(t, Reverse(t, active, now, w, 0), now);
    }
    if w': int :| !(0 <= Scaled(sp, active, t.pmembers, w') <= sp) {
      assert !Keeps(t, Reverse(t, active, now, 0, w'), now);
    }
  }

  /** The previous time alone: it stays between its old value and the clock exactly when its span is harmless. */
  lemma PrevExact(t: Timer, active: int, now: nat, w: int)
    requires !t.firstCall && t.prev <= now && active < t.pmembers
    ensures (forall w' :: t.prev <= Reverse(t, active, now, w, w').prev <= now)
       <==> Harmless(SincePrev(t, now), active, t.pmembers)
  {
    var sp := SincePrev(t, now);
    ScaledExact(sp, active, t.pmembers);
    hide Scaled, Harmless;
    if w': int :| !(0 <= Scaled(sp, active, t.pmembers, w') <= sp) {
      assert !(t.prev <= Reverse(t, active, now, w, w').prev <= now);
    }
  }

  lemma PrevKept(t: Timer, active: int, now: nat, w: int, w': int)
    requires !t.firstCall && t.prev <= now
    requires active < t.pmembers ==> Harmless(SincePrev(t, now), active, t.pmembers)
    ensures t.prev <= Reverse(t, active, now, w, w').prev <= now
  {
    hide Harmless, Reverse;
    if active < t.pmembers {
      PrevExact(t, active, now, w);
    } else {
      NotReversed(t, active, now, w, w');
    }
  }

  lemma NotReversed(t: Timer, active: int, now: nat, w: int, w': int)
    requires active >= t.pmembers
    ensures Reverse(t, active, now, w, w') == t
  {
  }

  /** With one member fewer than none, prev moves back and next moves on; below no members the result is not defined. */
  lemma ReverseFails(t: Timer, w: int, w': int)
    requires !t.firstCall && t.prev == 1_000_000 && t.next == 3_000_000
    ensures t.pmembers == -1 ==> var u := Reverse(t, -2, 2_000_000, w, w'); u.prev == 0 && u.next == 4_000_000
    ensures t.pmembers == 0 ==>
      var u := Reverse(t, -1, 2_000_000, w, w'); u.prev == 2_000_000 - w' && u.next == 2_000_000 + w
  {
    assert Ratio(-2, -1) == 2.0 && Ratio(-1, 0) == -1.0 && Seconds(1_000_000) == 1.0;
    assert FromSeconds(2.0) == 2_000_000;
  }

  // ---------------------------------------------------------------- runs

  datatype Event =
    | IsTime(m: Members, now: nat, later: nat, r: real, r': real)
    | GetDelay(m: Members, now: nat, later: nat, last: nat, r: real)
    | MemberDecrease(active: int, now: nat, wild: int, wild': int)
    | ScheduleBye(size: nat, active: int, now: nat, r: real)
    | Outgoing(size: nat, isBye: bool)
    | Incoming(size: nat, isBye: bool)

  /** The events happen in the order of the clock, and the random source keeps to its range. */
  predicate Timely(es: seq<Event>, clock: nat) {
    es == [] || (Ordered(es[0], clock) && Drawn(es[0]) && Timely(es[1..], Clock(es[0], clock)))
  }

  predicate Ordered(e: Event, clock: nat) {
    match e
    case IsTime(_, now, later, _, _) => clock <= now <= later
    case GetDelay(_, now, later, last, _) => clock <= now <= later <= last
    case MemberDecrease(_, now, _, _) => clock <= now
    case ScheduleBye(_, _, now, _) => clock <= now
    case _ => true
  }

  predicate Drawn(e: Event) {
    match e
    case IsTime(_, _, _, r, r') => Draw(r) && Draw(r')
    case GetDelay(_, _, _, _, r) => Draw(r)
    case ScheduleBye(_, _, _, r) => Draw(r)
    case _ => true
  }

  function Clock(e: Event, clock: nat): nat {
    match e
    case IsTime(_, _, later, _, _) => later
    case GetDelay(_, _, _, last, _) => last
    case MemberDecrease(_, now, _, _) => now
    case ScheduleBye(_, _, now, _) => now
    case _ => clock
  }

  /** One sixteenth of the new size replaces one sixteenth of the average. */
  function Average(avg: nat, size: nat): nat {
    (size as real / 16.0 + 15.0 / 16.0 * avg as real).Floor
  }

  function Sent(t: Timer, size: nat, isBye: bool): Timer {
    (if isBye then t else t.(avgPackSize := Average(t.avgPackSize, size))).(hasSentRtcp := true)
  }

  function Received(t: Timer, size: nat, isBye: bool): Timer {
    if !isBye then t.(avgPackSize := Average(t.avgPackSize, size))
    else if t.byeScheduled then t.(avgByePackSize := Average(t.avgByePackSize, size), byeMembers := t.byeMembers + 1)
    else t
  }

  function Delay(p: Params, t: Timer, m: Members, now: nat, later: nat, last: nat, r: real): (Timer, nat)
    requires Sane(p) && Draw(r)
  {
    var u := if t.firstCall then Start(p, t, m, now, later, r) else t;
    (u, if last > u.next then 0 else u.next - last)
  }

  function BeginBye(p: Params, t: Timer, size: nat, active: int, now: nat, r: real): Timer
    requires Sane(p) && Draw(r)
  {
    if t.byeScheduled then t
    else
      var u := t.(firstCall := false, pmembers := if t.firstCall then active else t.pmembers, byeScheduled := true,
                  avgByePackSize := size, byeMembers := 1, sendByeNow := p.immediateBye && active < 50, prev := now);
      u.(next := now + ByeInterval(p, u, r))
  }

  function Step(p: Params, t: Timer, e: Event): Timer
    requires Sane(p) && Drawn(e)
  {
    match e
    case IsTime(m, now, later, r, r') => Poll(p, t, m, now, later, r, r').0
    case GetDelay(m, now, later, last, r) => Delay(p, t, m, now, later, last, r).0
    case MemberDecrease(active, now, wild, wild') => Reverse(t, active, now, wild, wild')
    case ScheduleBye(size, active, now, r) => BeginBye(p, t, size, active, now, r)
    case Outgoing(size, isBye) => Sent(t, size, isBye)
    case Incoming(size, isBye) => Received(t, size, isBye)
  }

  /** The average moves by one sixteenth of the difference, rounded down. */
  lemma AverageExact(avg: nat, size: nat)
    ensures 16 * Average(avg, size) <= 15 * avg + size < 16 * Average(avg, size) + 16
  {
    var x := size as real / 16.0 + 15.0 / 16.0 * avg as real;
    assert 16.0 * x == (15 * avg + size) as real;
  }

  /** Outgoing packets count for the average unless they contain a BYE, and RTCP has been sent. */
  lemma SentExact(t: Timer, size: nat, isBye: bool)
    ensures var u := Sent(t, size, isBye);
            && u == t.(hasSentRtcp := true, avgPackSize := u.avgPackSize)
            && (isBye ==> u.avgPackSize == t.avgPackSize)
            && (!isBye ==> 16 * u.avgPackSize <= 15 * t.avgPackSize + size < 16 * u.avgPackSize + 16)
  {
    AverageExact(t.avgPackSize, size);
    hide Average;
  }

  /** Incoming packets count for the average; one with a BYE counts for the backoff instead, if a BYE is scheduled. */
  lemma ReceivedExact(t: Timer, size: nat, isBye: bool)
    ensures var u := Received(t, size, isBye);
            && u == t.(avgPackSize := u.avgPackSize, avgByePackSize := u.avgByePackSize, byeMembers := u.byeMembers)
            && (if isBye then u.avgPackSize == t.avgPackSize
                else 16 * u.avgPackSize <= 15 * t.avgPackSize + size < 16 * u.avgPackSize + 16)
            && (if isBye && t.byeScheduled then
                  u.byeMembers == t.byeMembers + 1
                  && 16 * u.avgByePackSize <= 15 * t.avgByePackSize + size < 16 * u.avgByePackSize + 16
                else u.byeMembers == t.byeMembers && u.avgByePackSize == t.avgByePackSize)
  {
    AverageExact(t.avgPackSize, size);
    AverageExact(t.avgByePackSize, size);
    hide Average;
  }

  /** The backoff counts our own BYE and every one heard while it lasts. */
  lemma ByesCounted(p: Params, t: Timer, size: nat, active: int, now: nat, r: real, sizes: seq<nat>)
    requires Sane(p) && Draw(r) && !t.byeScheduled
    ensures var u := ByesHeard(BeginBye(p, t, size, active, now, r), sizes);
            && u.byeScheduled && u.byeMembers == 1 + |sizes| && u.prev == now && !u.firstCall
            && u.sendByeNow == (p.immediateBye && active < 50)
            && u.pmembers == (if t.firstCall then active else t.pmembers)
            && (sizes == [] ==> u.avgByePackSize == size)
            && u.next == now + ByeInterval(p, BeginBye(p, t, size, active, now, r), r)
  {
    ByesMore(BeginBye(p, t, size, active, now, r), sizes);
    BackoffKept(p, BeginBye(p, t, size, active, now, r), r);
    hide ByeInterval, ByesHeard;
  }

  /** The backoff does not depend on the next time. */
  lemma BackoffKept(p: Params, t: Timer, r: real)
    requires Sane(p) && Draw(r)
    ensures forall n: int :: ByeInterval(p, t.(next := n), r) == ByeInterval(p, t, r)
  {
    hide Randomised, Span;
  }

  /** Compounds with a BYE come in, one after the other. */
  function ByesHeard(t: Timer, sizes: seq<nat>): Timer {
    if sizes == [] then t else Received(ByesHeard(t, sizes[..|sizes| - 1]), sizes[|sizes| - 1], true)
  }

  lemma {:induction false} ByesMore(t: Timer, sizes: seq<nat>)
    requires t.byeScheduled
    ensures var u := ByesHeard(t, sizes);
            u == t.(byeMembers := t.byeMembers + |sizes|, avgByePackSize := u.avgByePackSize)
    decreases |sizes|
  {
    if sizes != [] {
      ByesMore(t, sizes[..|sizes| - 1]);
      ReceivedExact(ByesHeard(t, sizes[..|sizes| - 1]), sizes[|sizes| - 1], true);
    }
  }

  /** The interval a poll adds to a time: the BYE backoff, or a transmission interval for the members of now. */
  function NextWait(p: Params, t: Timer, m: Members, r: real): nat
    requires Sane(p) && Draw(r)
  {
    if t.byeScheduled then ByeInterval(p, t, r) else TransmissionInterval(p, t, m, r)
  }

  /**
   * One call of IsTime. The first one starts the timer. Before the next time nothing happens. When it has come, an
   * interval is drawn for the members of now: if it is over since the previous time the answer is true, and the next
   * time is an interval drawn without backoff behind the second clock reading; otherwise it becomes the next time.
   */
  lemma PollExact(p: Params, t: Timer, m: Members, now: nat, later: nat, r: real, r': real)
    requires Sane(p) && Draw(r) && Draw(r')
    ensures var (u, yes) := Poll(p, t, m, now, later, r, r');
            && u == t.(firstCall := false, next := u.next, prev := u.prev, pmembers := u.pmembers,
                       byeScheduled := u.byeScheduled)
            && (yes <==> !t.firstCall && now >= t.next && t.prev + NextWait(p, t, m, r) <= now)
            && (!t.firstCall && now < t.next ==> u == t)
            && (t.firstCall || now >= t.next ==> u.pmembers == m.active)
            && (t.firstCall || yes ==>
                  && u.prev == now && u.next >= later
                  && CutOf(u.next - later, Seconds(DeterministicInterval(p, u, m)) * ((if yes then r' else r) + 0.5)
                                           / 1.21828))
            && (yes ==> !u.byeScheduled) && (!yes ==> u.byeScheduled == t.byeScheduled)
            && (!yes && !t.firstCall && now >= t.next ==> u.prev == t.prev && u.next == t.prev + NextWait(p, t, m, r))
  {
    hide TransmissionInterval, ByeInterval, DeterministicInterval;
    if t.firstCall {
      AdvanceExact(p, t.(firstCall := false, prev := now, pmembers := m.active), m, later, r);
    } else {
      AdvanceExact(p, t.(byeScheduled := false, prev := now, pmembers := m.active), m, later, r');
    }
  }

  lemma AdvanceExact(p: Params, t: Timer, m: Members, later: nat, r: real)
    requires Sane(p) && Draw(r)
    ensures var u := Advance(p, t, m, later, r);
            && u == t.(next := u.next) && u.next >= later
            && CutOf(u.next - later, Seconds(DeterministicInterval(p, u, m)) * (r + 0.5) / 1.21828)
  {
    DrawExact(p, t, m, r);
    SameDeterministic(p, t, m);
    hide TransmissionInterval, DeterministicInterval, CutOf;
  }

  /** The interval depends on the averages and on whether RTCP has been sent only. */
  lemma SameDeterministic(p: Params, t: Timer, m: Members)
    requires Sane(p)
    ensures forall u: Timer :: u.avgPackSize == t.avgPackSize && u.hasSentRtcp == t.hasSentRtcp ==>
              DeterministicInterval(p, u, m) == DeterministicInterval(p, t, m)
  {
    hide DeterministicSeconds, FromSeconds;
  }

  /** The delay reported is what is left until the next time. */
  lemma DelayExact(p: Params, t: Timer, m: Members, now: nat, later: nat, last: nat, r: real)
    requires Sane(p) && Draw(r)
    ensures var (u, delay) := Delay(p, t, m, now, later, last, r);
            && last + delay == (if u.next > last then u.next else last)
            && (!t.firstCall ==> u == t)
            && (t.firstCall ==> (u, false) == Poll(p, t, m, now, later, r, r))
  {
  }

  predicate Fires(p: Params, t: Timer, e: Event)
    requires Sane(p) && Drawn(e)
  {
    e.IsTime? && Poll(p, t, e.m, e.now, e.later, e.r, e.r').1
  }

  /** Reverse reconsideration, if this is one, does not stretch the time since the last transmission. */
  predicate Calm(t: Timer, e: Event) {
    e.MemberDecrease? && !t.firstCall && e.active < t.pmembers ==> Harmless(SincePrev(t, e.now), e.active, t.pmembers)
  }

  predicate Steady(p: Params, t: Timer, es: seq<Event>, clock: nat)
    requires Sane(p) && Timely(es, clock)
    decreases |es|
  {
    es == [] || (Calm(t, es[0]) && Steady(p, Step(p, t, es[0]), es[1..], Clock(es[0], clock)))
  }

  /** The times at which IsTime says true, each with the least wait of the timer at that time. */
  function Transmissions(p: Params, t: Timer, es: seq<Event>, clock: nat): seq<(nat, nat)>
    requires Sane(p) && Timely(es, clock)
    decreases |es|
  {
    if es == [] then []
    else
      var rest := Transmissions(p, Step(p, t, es[0]), es[1..], Clock(es[0], clock));
      if Fires(p, t, es[0]) then [(es[0].now, LeastWait(p, t))] + rest else rest
  }

  /** A started timer's previous time is neither before `last` nor in the future. */
  predicate Running(t: Timer, last: Option<nat>, clock: nat) {
    && (!t.firstCall ==> t.prev <= clock)
    && (last.Some? ==> !t.firstCall && last.value <= t.prev)
  }

  /** Each event keeps the timer running; a transmission comes at least the least wait after the last one. */
  lemma RunningKept(p: Params, t: Timer, e: Event, last: Option<nat>, clock: nat)
    requires Sane(p) && Running(t, last, clock) && Ordered(e, clock) && Drawn(e) && Calm(t, e)
    ensures var u := Step(p, t, e);
            Running(u, if Fires(p, t, e) then Some(e.now) else last, Clock(e, clock))
    ensures Fires(p, t, e) && last.Some? ==> e.now >= last.value + LeastWait(p, t)
  {
    hide TransmissionInterval, ByeInterval, LeastWait, Scaled, Harmless, Gap;
    match e
    case IsTime(m, now, later, r, r') => WaitBound(p, t, m, r);
    case MemberDecrease(active, now, w, w') =>
      if !t.firstCall {
        PrevKept(t, active, now, w, w');
      }
    case _ =>
  }

  /** The interval IsTime adds to the previous time is never below the least wait. */
  lemma WaitBound(p: Params, t: Timer, m: Members, r: real)
    requires Sane(p) && Draw(r)
    ensures (if t.byeScheduled then ByeInterval(p, t, r) else TransmissionInterval(p, t, m, r)) >= LeastWait(p, t)
  {
    hide TransmissionInterval, ByeInterval, Gap, ByeGap, ByeSeconds, Randomised;
    if t.byeScheduled {
      ByeBounds(p, t, r);
    } else {
      IntervalBounds(p, t, m, r);
    }
  }

  /** Every transmission comes at least its wait after time `last`. */
  predicate After(ts: seq<(nat, nat)>, last: nat) {
    forall j :: 0 <= j < |ts| ==> ts[j].0 >= last + ts[j].1
  }

  /** Any two transmissions are at least the wait of the later one apart. */
  predicate Spaced(ts: seq<(nat, nat)>) {
    forall i, j :: 0 <= i < j < |ts| ==> ts[j].0 >= ts[i].0 + ts[j].1
  }

  lemma SpacedCons(x: (nat, nat), tail: seq<(nat, nat)>)
    requires Spaced(tail) && After(tail, x.0)
    ensures Spaced([x] + tail)
    ensures forall last: nat :: x.0 >= last + x.1 ==> After([x] + tail, last)
  {
  }

  /**
   * In every run in which reverse reconsideration never stretches the time since the last transmission, any two
   * transmissions are at least half the minimum interval over 1.21828 apart, and a BYE that is held back keeps its
   * own distance.
   */
  lemma {:induction false} TransmissionsSpaced(p: Params, t: Timer, es: seq<Event>, clock: nat, last: Option<nat>)
    requires Sane(p) && Timely(es, clock) && Steady(p, t, es, clock) && Running(t, last, clock)
    ensures Spaced(Transmissions(p, t, es, clock))
    ensures last.Some? ==> After(Transmissions(p, t, es, clock), last.value)
    decreases |es|
  {
    if es != [] {
      var e, rest := es[0], es[1..];
      RunningKept(p, t, e, last, clock);
      hide Step, LeastWait, Running, Calm, After, Spaced;
      var fired, tail := Fires(p, t, e), Transmissions(p, Step(p, t, e), rest, Clock(e, clock));
      TransmissionsSpaced(p, Step(p, t, e), rest, Clock(e, clock), if fired then Some(e.now) else last);
      hide Fires;
      if fired {
        SpacedCons((e.now, LeastWait(p, t)), tail);
      }
    }
  }

  /** Counts that are not negative disturb no run. */
  lemma {:induction false} CountsSteady(p: Params, t: Timer, es: seq<Event>, clock: nat)
    requires Sane(p) && Timely(es, clock)
    requires forall e :: e in es && e.MemberDecrease? ==> e.active >= 0
    ensures Steady(p, t, es, clock)
    decreases |es|
  {
    if es != [] {
      assert es[0] in es;
      forall e | e in es[1..] && e.MemberDecrease?
        ensures e.active >= 0
      {
        assert e in es;
      }
      hide Step;
      CountsSteady(p, Step(p, t, es[0]), es[1..], Clock(es[0], clock));
    }
  }

  /**
   * A held-back BYE waits: the first true answer after
   * ScheduleBYEPacket comes at least the gap of the backoff later.
   */
  lemma ByeWaits(p: Params, t: Timer, size: nat, active: int, now: nat, r: real, es: seq<Event>)
    requires Sane(p) && Draw(r) && !t.byeScheduled && !(p.immediateBye && active < 50)
    requires Timely(es, now) && Steady(p, BeginBye(p, t, size, active, now, r), es, now)
    ensures var ts := Transmissions(p, BeginBye(p, t, size, active, now, r), es, now);
            ByeGap(p) > 0 && (ts != [] ==> ts[0].0 >= now + ByeGap(p))
  {
    hide ByeInterval, ByeGap, Steady, Timely;
    var u := BeginBye(p, t, size, active, now, r);
    ByeGapPositive(p);
    FirstIsBye(p, u, es, now);
    hide Transmissions;
    TransmissionsSpaced(p, u, es, now, Some(now));
  }

  /** Until it has been sent a BYE stays scheduled, and its wait is that of the backoff. */
  lemma {:induction false} FirstIsBye(p: Params, t: Timer, es: seq<Event>, clock: nat)
    requires Sane(p) && Timely(es, clock) && t.byeScheduled && !t.firstCall && !t.sendByeNow
    ensures var ts := Transmissions(p, t, es, clock); ts != [] ==> ts[0].1 == ByeGap(p)
    decreases |es|
  {
    hide TransmissionInterval, ByeInterval, ByeGap, Scaled;
    if es != [] && !Fires(p, t, es[0]) {
      FirstIsBye(p, Step(p, t, es[0]), es[1..], Clock(es[0], clock));
    }
  }

  /**
   * With some values for what cannot be represented, some clock and some draws, a call of IsTime after this decrease
   * says true before the least wait since the last transmission is over.
   */
  ghost predicate CanHurry(p: Params, t: Timer, active: int, now: nat)
    requires Sane(p)
  {
    exists w: int, w': int, e: Event :: Hurries(p, t, Reverse(t, active, now, w, w'), e, now)
  }

  /** After the timer `t` has become `u`, IsTime says true too early for `t`. */
  ghost predicate Hurries(p: Params, t: Timer, u: Timer, e: Event, now: nat)
    requires Sane(p)
  {
    e.IsTime? && Ordered(e, now) && Drawn(e) && Fires(p, u, e) && e.now < t.prev + Gap(p, t.hasSentRtcp)
  }

  /** A span that is not harmless becomes longer, if not on every platform then on one. */
  lemma Overshoots(span: nat, active: int, pmembers: int)
    requires active < pmembers && !Harmless(span, active, pmembers)
    ensures Scaled(span, active, pmembers, span + 1) > span
  {
    var x := Ratio(active, pmembers) * Seconds(span) * 1000000.0;
    ScaledExact(span, active, pmembers);
    ScaledCases(span, active, pmembers, x);
    hide Scaled, Ratio, Seconds, Harmless;
    var w: int :| !(0 <= Scaled(span, active, pmembers, w) <= span);
  }

  /** With fewer than no members the smallest draw gives the least interval. */
  lemma LeastInterval(p: Params, t: Timer, active: int)
    requires Sane(p) && active < 0
    ensures TransmissionInterval(p, t, Members(active, 0, false), 0.0) == Gap(p, t.hasSentRtcp)
  {
    hide Randomised, FromSeconds;
    assert FewSenders(p, active, 0);
    ScaleUp(active as real, 0.0, t.avgPackSize as real / ReceiverRate(p));
  }

  lemma Hurried(p: Params, t: Timer, active: int, now: nat)
    requires Sane(p) && !t.firstCall && !t.byeScheduled && active < t.pmembers
    requires t.next <= now && t.prev <= now < t.prev + Gap(p, t.hasSentRtcp)
    requires !Harmless(SincePrev(t, now), active, t.pmembers)
    ensures CanHurry(p, t, active, now)
  {
    assert active < 0;
    var span := SincePrev(t, now);
    var u, again := Reverse(t, active, now, 0, span + 1), t.prev + Gap(p, t.hasSentRtcp) - 1;
    Overshoots(span, active, t.pmembers);
    LeastInterval(p, u, active);
    NothingScaled(active, t.pmembers, 0);
    hide Harmless, Gap, TransmissionInterval, Scaled;
    var e := IsTime(Members(active, 0, false), again, again, 0.0, 0.0);
    assert Hurries(p, t, u, e, now);
  }

  lemma NothingScaled(active: int, pmembers: int, w: int)
    ensures Scaled(0, active, pmembers, w) == 0
  {
    assert Seconds(0) == 0.0;
    assert Ratio(active, pmembers) * 0.0 == 0.0;
  }

  /**
   * A decrease while the next time has come but the least wait is not over: the next transmission can be too early
   * exactly when the time since the last one is not harmless.
   */
  lemma HurryExactly(p: Params, t: Timer, active: int, now: nat)
    requires Sane(p) && !t.firstCall && !t.byeScheduled && active < t.pmembers
    requires t.next <= now && t.prev <= now < t.prev + Gap(p, t.hasSentRtcp)
    ensures CanHurry(p, t, active, now) <==> !Harmless(SincePrev(t, now), active, t.pmembers)
  {
    hide Harmless, Gap, TransmissionInterval, Reverse;
    if Harmless(SincePrev(t, now), active, t.pmembers) {
      forall w: int, w': int, e: Event
        ensures !Hurries(p, t, Reverse(t, active, now, w, w'), e, now)
      {
        PrevKept(t, active, now, w, w');
        ReversedFlags(t, active, now, w, w');
        if e.IsTime? && Drawn(e) {
          IntervalBounds(p, Reverse(t, active, now, w, w'), e.m, e.r);
        }
      }
    } else {
      Hurried(p, t, active, now);
    }
  }

  /** What a decrease leaves alone. */
  lemma ReversedFlags(t: Timer, active: int, now: nat, w: int, w': int)
    requires !t.firstCall
    ensures var u := Reverse(t, active, now, w, w');
            u.firstCall == t.firstCall && u.byeScheduled == t.byeScheduled && u.hasSentRtcp == t.hasSentRtcp
  {
  }

  /**
   * One member fewer than none can cost half the distance: the first report goes out after half the minimum, the
   * count falls from -1 to -2, and the second report follows half a second later although its wait is one second.
   */
  lemma DecreaseHurries(t: Timer, now: nat, w: int, w': int)
    requires t.prev == now && t.next == now + 500_000 && t.pmembers == -1
    requires !t.firstCall && t.hasSentRtcp && !t.byeScheduled
    ensures var p, m := Params(1.0, 0.5, 2_436_560, true, false), Members(-2, 0, false);
            var es := [MemberDecrease(-2, now + 500_000, w, w'), IsTime(m, now + 500_000, now + 500_000, 0.0, 0.0)];
            Timely(es, now) && Transmissions(p, t, es, now) == [(now + 500_000, 1_000_000)]
  {
    var p, m := Params(1.0, 0.5, 2_436_560, true, false), Members(-2, 0, false);
    var d, e := MemberDecrease(-2, now + 500_000, w, w'), IsTime(m, now + 500_000, now + 500_000, 0.0, 0.0);
    assert [d, e][1..] == [e] && [e][1..] == [];
    assert Ratio(-2, -1) == 2.0 && Seconds(500_000) == 0.5;
    assert FromSeconds(1.0) == 1_000_000 && FromSeconds(0.0) == 0;
    var u := Step(p, t, d);
    assert u == t.(prev := now - 500_000, next := now + 500_000, pmembers := -2);
    assert MinSeconds(p, false) == 2.43656;
    assert Span(2, t.avgPackSize, 0.5) >= 0.0;
    HurriedInterval(p, u, m);
    assert Step(p, t, d) == u && !Fires(p, t, d) && Fires(p, u, e);
    assert LeastWait(p, u) == 1_000_000;
    assert Transmissions(p, Step(p, u, e), [], now + 500_000) == [];
    assert Transmissions(p, u, [e], now + 500_000) == [(now + 500_000, 1_000_000)];
  }

  lemma HurriedInterval(p: Params, t: Timer, m: Members)
    requires p == Params(1.0, 0.5, 2_436_560, true, false) && m == Members(-2, 0, false) && t.hasSentRtcp
    ensures TransmissionInterval(p, t, m, 0.0) == Gap(p, true) == 1_000_000
  {
    var c := t.avgPackSize as real / 0.5;
    assert Span(-2, t.avgPackSize, 0.5) == -2.0 * c <= 0.0;
    assert FewSenders(p, -2, 0);
    assert DeterministicSeconds(p, t.avgPackSize, false, -2, 0, false) == 2.43656;
    assert (2.43656 * 1000000.0).Floor == 2_436_560;
    assert Seconds(2_436_560) * 0.5 / 1.21828 == 1.0;
    assert FromSeconds(1.0) == 1_000_000;
  }

  /** A call right after a transmission says false: the gap is never zero. */
  lemma AgainIsFalse(p: Params, t: Timer, m: Members, now: nat, later: nat, r: real, r': real,
                     m': Members, again: nat, last: nat, s: real, s': real)
    requires Sane(p) && Draw(r) && Draw(r') && Draw(s) && Draw(s') && now <= later <= again
    requires Poll(p, t, m, now, later, r, r').1
    ensures Gap(p, t.hasSentRtcp) > 0
    ensures again < later + Gap(p, t.hasSentRtcp) ==>
      Poll(p, Poll(p, t, m, now, later, r, r').0, m', again, last, s, s') == (Poll(p, t, m, now, later, r, r').0, false)
  {
    IntervalBounds(p, t.(byeScheduled := false, prev := now, pmembers := m.active), m, r');
    GapPositive(p, t.hasSentRtcp);
  }

  lemma GapPositive(p: Params, hasSent: bool)
    requires Sane(p)
    ensures Gap(p, hasSent) > 0
  {
    var x := MinSeconds(p, !hasSent && p.useHalfAtStartup);
    assert x >= 0.5;
    FromSecondsMonotone(0.5, x);
    HalfSecond();
    hide FromSeconds;
    assert Seconds(FromSeconds(x)) >= 0.5;
    FromSecondsMonotone(0.2, Seconds(FromSeconds(x)) * 0.5 / 1.21828);
    FifthOfSecond();
  }

  lemma FifthOfSecond()
    ensures FromSeconds(0.2) == 200_000
  {
  }

  /** Once the next time has come, a call no later than the longest interval after the previous one says true. */
  lemma EventuallyTrue(p: Params, t: Timer, m: Members, now: nat, later: nat, r: real, r': real)
    requires Sane(p) && Draw(r) && Draw(r') && !t.firstCall && !t.byeScheduled
    requires now >= t.next && now >= t.prev + Randomised(Seconds(DeterministicInterval(p, t, m)), 1.5)
    ensures Poll(p, t, m, now, later, r, r').1
  {
    IntervalBounds(p, t, m, r);
  }

  // ---------------------------------------------------------------- the class

  class RTCPScheduler {
    var params: Params
    var firstCall: bool
    var hasSentRtcp: bool
    var nextRtcpTime: int
    var prevRtcpTime: int
    var pmembers: int
    var avgRtcpPackSize: nat
    var byeScheduled: bool
    var sendByeNow: bool
    var byeMembers: nat
    var avgByePackSize: nat
    var headerOverhead: nat

    ghost function State(): Timer
      reads this
    {
      Timer(firstCall, hasSentRtcp, nextRtcpTime, prevRtcpTime, pmembers, avgRtcpPackSize,
            byeScheduled, sendByeNow, byeMembers, avgByePackSize)
    }

    ghost predicate Valid()
      reads this
    {
      Sane(params)
    }

    constructor (p: Params)
      requires Sane(p)
      ensures Valid() && params == p && firstCall && !byeScheduled && !hasSentRtcp
      ensures Running(State(), None, 0)
    {
      params, firstCall, hasSentRtcp, nextRtcpTime, prevRtcpTime, pmembers := p, true, false, 0, 0, 0;
      avgRtcpPackSize, byeScheduled, sendByeNow, byeMembers, avgByePackSize, headerOverhead := 1000, false, false,
        0, 0, 0;
    }

    method CalculateDeterministicInterval(m: Members) returns (td: nat)
      requires Valid()
      ensures td == DeterministicInterval(params, State(), m)
    {
      hide Span, SenderRate, ReceiverRate, FromSeconds;
      var numTotal := m.active;
      if numTotal == 0 {
        numTotal := numTotal + 1;
      }
      var sFraction := m.senders as real / numTotal as real;
      var rate, n: int := params.bandwidth, numTotal;
      if sFraction <= params.senderFraction {
        if m.weSend {
          rate, n := SenderRate(params), m.senders;
        } else {
          rate, n := ReceiverRate(params), numTotal - m.senders;
        }
      }
      var tmin := Seconds(params.minInterval);
      if !hasSentRtcp && params.useHalfAtStartup {
        tmin := tmin / 2.0;
      }
      var ntimesC := Span(n, avgRtcpPackSize, rate);
      return FromSeconds(if tmin > ntimesC then tmin else ntimesC);
    }

    method CalculateTransmissionInterval(m: Members, r: real) returns (t: nat)
      requires Valid() && Draw(r)
      ensures t == TransmissionInterval(params, State(), m, r)
    {
      hide DeterministicInterval, Randomised;
      var td := CalculateDeterministicInterval(m);
      var mul := r + 0.5;
      return Randomised(Seconds(td), mul);
    }

    method CalculateNextRTCPTime(m: Members, later: nat, r: real)
      requires Valid() && Draw(r)
      modifies `nextRtcpTime
      ensures State() == Advance(params, old(State()), m, later, r)
    {
      var interval := CalculateTransmissionInterval(m, r);
      nextRtcpTime := later + interval;
    }

    method IsTime(m: Members, now: nat, later: nat, r: real, r': real) returns (fire: bool)
      requires Valid() && Draw(r) && Draw(r')
      modifies `firstCall, `nextRtcpTime, `prevRtcpTime, `pmembers, `byeScheduled
      ensures (State(), fire) == Poll(params, old(State()), m, now, later, r, r')
    {
      hide TransmissionInterval, ByeInterval;
      if firstCall {
        firstCall, prevRtcpTime, pmembers := false, now, m.active;
        CalculateNextRTCPTime(m, later, r);
        return false;
      }
      if now < nextRtcpTime {
        return false;
      }
      var checkTime;
      if !byeScheduled {
        checkTime := CalculateTransmissionInterval(m, r);
      } else {
        checkTime := CalculateBYETransmissionInterval(r);
      }
      checkTime := checkTime + prevRtcpTime;
      if checkTime <= now {
        byeScheduled, prevRtcpTime, pmembers := false, now, m.active;
        CalculateNextRTCPTime(m, later, r');
        return true;
      }
      nextRtcpTime, pmembers := checkTime, m.active;
      return false;
    }

    method GetTransmissionDelay(m: Members, now: nat, later: nat, last: nat, r: real) returns (delay: nat)
      requires Valid() && Draw(r)
      modifies `firstCall, `nextRtcpTime, `prevRtcpTime, `pmembers
      ensures (State(), delay) == Delay(params, old(State()), m, now, later, last, r)
    {
      if firstCall {
        firstCall, prevRtcpTime, pmembers := false, now, m.active;
        CalculateNextRTCPTime(m, later, r);
      }
      if last > nextRtcpTime {
        return 0;
      }
      return nextRtcpTime - last;
    }

    method ActiveMemberDecrease(active: int, now: nat, wild: int, wild': int)
      modifies `nextRtcpTime, `prevRtcpTime, `pmembers
      ensures State() == Reverse(old(State()), active, now, wild, wild')
    {
      if active < pmembers {
        PerformReverseReconsideration(active, now, wild, wild');
      }
    }

    method PerformReverseReconsideration(active: int, now: nat, wild: int, wild': int)
      requires active < pmembers
      modifies `nextRtcpTime, `prevRtcpTime, `pmembers
      ensures State() == Reverse(old(State()), active, now, wild, wild')
    {
      hide ToTime, Stretched;
      if firstCall {
        return;
      }
      var untilNext := if nextRtcpTime > now then nextRtcpTime - now else 0;
      var sincePrev := if now > prevRtcpTime then now - prevRtcpTime else 0;
      var diff1, diff2 := Stretched(untilNext, active, pmembers), Stretched(sincePrev, active, pmembers);
      nextRtcpTime, prevRtcpTime := now, now;
      nextRtcpTime := nextRtcpTime + ToTime(diff1, wild);
      prevRtcpTime := prevRtcpTime - ToTime(diff2, wild');
      pmembers := active;
    }

    /** `types` are the packet types in the compound, `length` is its length. */
    method AnalyseIncoming(types: seq<byte>, length: nat)
      modifies `avgRtcpPackSize, `avgByePackSize, `byeMembers
      ensures State() == Received(old(State()), headerOverhead + length, RtcpFormat.TYPE_BYE in types)
    {
      hide Average;
      var isBye := ContainsBye(types);
      if !isBye {
        avgRtcpPackSize := Average(avgRtcpPackSize, headerOverhead + length);
      } else if byeScheduled {
        avgByePackSize := Average(avgByePackSize, headerOverhead + length);
        byeMembers := byeMembers + 1;
      }
    }

    method AnalyseOutgoing(types: seq<byte>, length: nat)
      modifies `avgRtcpPackSize, `hasSentRtcp
      ensures State() == Sent(old(State()), headerOverhead + length, RtcpFormat.TYPE_BYE in types)
    {
      hide Average;
      var isBye := ContainsBye(types);
      if !isBye {
        avgRtcpPackSize := Average(avgRtcpPackSize, headerOverhead + length);
      }
      hasSentRtcp := true;
    }

    method CalculateBYETransmissionInterval(r: real) returns (t: nat)
      requires Valid() && Draw(r)
      ensures t == ByeInterval(params, State(), r)
      ensures LeastWait(params, State()) <= t || !byeScheduled
    {
      if !byeScheduled {
        return 0;
      }
      if sendByeNow {
        return 0;
      }
      ByeBounds(params, State(), r);
      hide Span, Randomised, ReceiverRate, ByeGap;
      var tmin := Seconds(params.minInterval);
      if params.useHalfAtStartup {
        tmin := tmin / 2.0;
      }
      var ntimesC := Span(byeMembers, avgByePackSize, ReceiverRate(params));
      return Randomised(if tmin > ntimesC then tmin else ntimesC, r + 0.5);
    }

    /** The BYE backoff begins: the timer counts BYE packets instead of members. */
    method ScheduleBYEPacket(packetSize: nat, active: int, now: nat, r: real)
      requires Valid() && Draw(r)
      modifies `firstCall, `pmembers, `byeScheduled, `avgByePackSize, `byeMembers, `sendByeNow, `prevRtcpTime
      modifies `nextRtcpTime
      ensures State() == BeginBye(params, old(State()), packetSize + headerOverhead, active, now, r)
    {
      hide ByeInterval, LeastWait, Sane;
      if byeScheduled {
        return;
      }
      if firstCall {
        firstCall, pmembers := false, active;
      }
      byeScheduled, avgByePackSize, byeMembers := true, packetSize + headerOverhead, 1;
      sendByeNow := params.immediateBye && active < 50;
      prevRtcpTime := now;
      var interval := CalculateBYETransmissionInterval(r);
      nextRtcpTime := prevRtcpTime + interval;
    }
  }

  method ContainsBye(types: seq<byte>) returns (isBye: bool)
    ensures isBye <==> RtcpFormat.TYPE_BYE in types
  {
    isBye := false;
    var i := 0;
    while !isBye && i < |types|
      invariant i <= |types| && (isBye <==> RtcpFormat.TYPE_BYE in types[..i])
    {
      if types[i] == RtcpFormat.TYPE_BYE {
        isBye := true;
      }
      i := i + 1;
    }
  }

  /** A BYE that may be sent immediately goes out at the first call after it was scheduled. */
  lemma ImmediateBye(p: Params, t: Timer, size: nat, active: int, now: nat, r: real,
                     m: Members, then': nat, later: nat, s: real, s': real)
    requires Sane(p) && Draw(r) && Draw(s) && Draw(s') && now <= then'
    requires !t.byeScheduled && p.immediateBye && active < 50
    ensures Poll(p, BeginBye(p, t, size, active, now, r), m, then', later, s, s').1
  {
  }
}
