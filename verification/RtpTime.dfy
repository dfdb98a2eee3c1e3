/** RTPTime: seconds and microseconds in 32-bit words, as arithmetic on microseconds. */
module RtpTime {
  import opened Bytes

  const MILLION := 1_000_000

  // One more than the largest time that seconds in 32 bits can express, in microseconds.
  const WRAP := 0x1_0000_0000 * 1_000_000

  datatype RTPTime = RTPTime(sec: u32, microsec: u32)

  /** What every constructor and every operation leaves behind. */
  predicate Normal(t: RTPTime) {
    t.microsec < MILLION
  }

  function Micros(t: RTPTime): nat {
    t.sec * MILLION + t.microsec
  }

  function GetDouble(t: RTPTime): real {
    t.sec as real + t.microsec as real / 1000000.0
  }

  /** operator -= on 32-bit words. */
  function Minus(a: RTPTime, b: RTPTime): RTPTime {
    var sec := (a.sec - b.sec) % 0x1_0000_0000;
    if b.microsec > a.microsec then
      RTPTime((sec - 1) % 0x1_0000_0000, (a.microsec + 1000000 - b.microsec) % 0x1_0000_0000)
    else RTPTime(sec, a.microsec - b.microsec)
  }

  /** operator += on 32-bit words. */
  function Plus(a: RTPTime, b: RTPTime): RTPTime {
    var sec, microsec := (a.sec + b.sec) % 0x1_0000_0000, (a.microsec + b.microsec) % 0x1_0000_0000;
    if microsec >= 1000000 then RTPTime((sec + 1) % 0x1_0000_0000, microsec - 1000000) else RTPTime(sec, microsec)
  }

  predicate Less(a: RTPTime, b: RTPTime) {
    if a.sec < b.sec then true else if a.sec > b.sec then false else a.microsec < b.microsec
  }

  predicate AtMost(a: RTPTime, b: RTPTime) {
    if a.sec < b.sec then true else if a.sec > b.sec then false else a.microsec <= b.microsec
  }

  /** Subtraction and addition are exact modulo the wrap of the seconds, and keep times normalised. */
  lemma ArithmeticExact(a: RTPTime, b: RTPTime)
    requires Normal(a) && Normal(b)
    ensures Normal(Minus(a, b)) && Normal(Plus(a, b))
    ensures Micros(Minus(a, b)) == (Micros(a) - Micros(b)) % WRAP
    ensures Micros(Plus(a, b)) == (Micros(a) + Micros(b)) % WRAP
  {
    MinusExact(a, b);
    PlusExact(a, b);
  }

  lemma ModUnique(x: int, q: int, r: int)
    requires x == q * WRAP + r && 0 <= r < WRAP
    ensures x % WRAP == r
  {
  }

  lemma MinusExact(a: RTPTime, b: RTPTime)
    requires Normal(a) && Normal(b)
    ensures Normal(Minus(a, b)) && Micros(Minus(a, b)) == (Micros(a) - Micros(b)) % WRAP
  {
    var borrow := if b.microsec > a.microsec then 1 else 0;
    MinusWords(a, b, borrow);
    hide Minus;
    var q := if a.sec - b.sec - borrow < 0 then -1 else 0;
    ModUnique(Micros(a) - Micros(b), q, Micros(Minus(a, b)));
  }

  lemma MinusWords(a: RTPTime, b: RTPTime, borrow: int)
    requires Normal(a) && Normal(b) && borrow == if b.microsec > a.microsec then 1 else 0
    ensures Minus(a, b).microsec == a.microsec - b.microsec + borrow * 1_000_000 < 1_000_000
    ensures var d := a.sec - b.sec - borrow; Minus(a, b).sec == if d < 0 then d + 0x1_0000_0000 else d
  {
    var d := a.sec - b.sec;
    assert d % 0x1_0000_0000 == if d < 0 then d + 0x1_0000_0000 else d;
  }

  lemma PlusExact(a: RTPTime, b: RTPTime)
    requires Normal(a) && Normal(b)
    ensures Normal(Plus(a, b)) && Micros(Plus(a, b)) == (Micros(a) + Micros(b)) % WRAP
  {
    var carry := if a.microsec + b.microsec >= MILLION then 1 else 0;
    var q := if a.sec + b.sec + carry >= 0x1_0000_0000 then 1 else 0;
    assert Plus(a, b).sec == a.sec + b.sec + carry - q * 0x1_0000_0000;
    ModUnique(Micros(a) + Micros(b), q, Micros(Plus(a, b)));
  }

  /** The comparisons order times by their microseconds. */
  lemma ComparisonExact(a: RTPTime, b: RTPTime)
    requires Normal(a) && Normal(b)
    ensures Less(a, b) <==> Micros(a) < Micros(b)
    ensures AtMost(a, b) <==> Micros(a) <= Micros(b)
  {
  }

  /** RTPTime(double): whole seconds, then whole microseconds of the rest. */
  function FromDouble(t: real): RTPTime
    requires 0.0 <= t < 4294967296.0
  {
    var sec: u32 := t.Floor;
    var t2 := (t - sec as real) * 1000000.0;
    RTPTime(sec, t2.Floor)
  }

  /** A time made from a number of seconds has the whole microseconds of that number. */
  lemma FromDoubleExact(t: real)
    requires 0.0 <= t < 4294967296.0
    ensures Normal(FromDouble(t)) && Micros(FromDouble(t)) == (t * 1000000.0).Floor
  {
    var sec := t.Floor;
    var t2 := (t - sec as real) * 1000000.0;
    assert t * 1000000.0 == t2 + (sec * MILLION) as real;
    assert t2 < 1000000.0;
  }

  /** Converting to seconds and back loses nothing. */
  lemma DoubleReadBack(t: RTPTime)
    requires Normal(t)
    ensures GetDouble(t) < 4294967296.0 && FromDouble(GetDouble(t)) == t
  {
    assert t.microsec as real / 1000000.0 < 1.0;
    assert GetDouble(t).Floor == t.sec;
    assert (t.microsec as real / 1000000.0) * 1000000.0 == t.microsec as real;
  }
}
