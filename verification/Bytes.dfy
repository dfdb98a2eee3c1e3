/** Octets and the fixed-width integers the wire formats are made of, in network byte order. */
module Bytes {
  type byte = x: int | 0 <= x < 0x100
  type u16 = x: int | 0 <= x < 0x1_0000
  type u32 = x: int | 0 <= x < 0x1_0000_0000
  type i32 = x: int | -0x8000_0000 <= x < 0x8000_0000

  const WORD := 4

  datatype Option<+T> = None | Some(value: T)

  /** The 16-bit value stored most significant byte first (htons). */
  function Put16(x: u16): (b: seq<byte>)
    ensures |b| == 2
  {
    [x / 0x100, x % 0x100]
  }

  /** The value a reader finds at offset `i` (ntohs). */
  function Get16(s: seq<byte>, i: nat): u16
    requires i + 2 <= |s|
  {
    s[i] as int * 0x100 + s[i + 1] as int
  }

  /** The 32-bit value stored most significant byte first (htonl). */
  function Put32(x: u32): (b: seq<byte>)
    ensures |b| == 4
  {
    Put16(x / 0x1_0000) + Put16(x % 0x1_0000)
  }

  /** The value a reader finds at offset `i` (ntohl). */
  function Get32(s: seq<byte>, i: nat): u32
    requires i + 4 <= |s|
  {
    Get16(s, i) as int * 0x1_0000 + Get16(s, i + 2) as int
  }

  lemma Get16Put16(x: u16)
    ensures Get16(Put16(x), 0) == x
  {
  }

  /** The most significant octet comes first. */
  lemma NetworkOrder(a: byte, b: byte, c: byte, d: byte)
    ensures Put16(0x100 * a + b) == [a, b] && Get16([a, b], 0) == 0x100 * a + b
    ensures Put32(0x100_0000 * a + 0x1_0000 * b + 0x100 * c + d) == [a, b, c, d]
    ensures Get32([a, b, c, d], 0) == 0x100_0000 * a + 0x1_0000 * b + 0x100 * c + d
  {
    var x := 0x100_0000 * a + 0x1_0000 * b + 0x100 * c + d;
    assert x / 0x1_0000 == 0x100 * a + b && x % 0x1_0000 == 0x100 * c + d;
  }

  /** Reading a stored word gives it back, wherever in a buffer it was stored. */
  lemma Get32At(s: seq<byte>, i: nat, x: u32)
    requires i + 4 <= |s| && s[i..i + 4] == Put32(x)
    ensures Get32(s, i) == x
  {
    var t := s[i..i + 4];
    assert s[i] == t[0] && s[i + 1] == t[1] && s[i + 2] == t[2] && s[i + 3] == t[3];
    assert t[..2] == Put16(x / 0x1_0000) && t[2..] == Put16(x % 0x1_0000);
    assert t[0] == Put16(x / 0x1_0000)[0] && t[1] == Put16(x / 0x1_0000)[1];
    assert t[2] == Put16(x % 0x1_0000)[0] && t[3] == Put16(x % 0x1_0000)[1];
  }

  /** Storing what was read reproduces the bytes that were read. */
  lemma Put32Get32(s: seq<byte>, i: nat)
    requires i + 4 <= |s|
    ensures Put32(Get32(s, i)) == s[i..i + 4]
  {
    var x := Get32(s, i);
    assert x / 0x1_0000 == Get16(s, i) && x % 0x1_0000 == Get16(s, i + 2);
    assert Put16(Get16(s, i)) == s[i..i + 2];
    assert Put16(Get16(s, i + 2)) == s[i + 2..i + 4];
  }

  lemma Put16Get16(s: seq<byte>, i: nat)
    requires i + 2 <= |s|
    ensures Put16(Get16(s, i)) == s[i..i + 2]
  {
  }

  /** All the parts, one after the other. */
  function Flatten(parts: seq<seq<byte>>): seq<byte> {
    if parts == [] then [] else parts[0] + Flatten(parts[1..])
  }

  lemma FlattenCons(x: seq<byte>, rest: seq<seq<byte>>)
    ensures Flatten([x] + rest) == x + Flatten(rest)
  {
    assert ([x] + rest)[1..] == rest;
  }

  lemma {:induction false} FlattenAppend(a: seq<seq<byte>>, b: seq<seq<byte>>)
    ensures Flatten(a + b) == Flatten(a) + Flatten(b)
  {
    if a == [] {
      assert a + b == b;
    } else {
      FlattenAppend(a[1..], b);
      assert (a + b)[1..] == a[1..] + b;
      assert Flatten(a + b) == a[0] + (Flatten(a[1..]) + Flatten(b));
    }
  }

  lemma FlattenSnoc(a: seq<seq<byte>>, x: seq<byte>)
    ensures Flatten(a + [x]) == Flatten(a) + x
  {
    FlattenAppend(a, [x]);
    assert Flatten([x]) == x + Flatten([][..]) == x;
  }

  function Zeros(n: nat): (z: seq<byte>)
    ensures |z| == n && forall i :: 0 <= i < n ==> z[i] == 0
  {
    seq(n, i => 0)
  }

  /** The smallest multiple of four that is not less than `n`. */
  function RoundUp4(n: nat): (m: nat)
    ensures m % 4 == 0 && n <= m < n + 4
  {
    if n % 4 == 0 then n else n + (4 - n % 4)
  }

  /** `part` is stored in `s` at offset `i`. */
  ghost predicate At(s: seq<byte>, i: nat, part: seq<byte>) {
    i + |part| <= |s| && s[i..i + |part|] == part
  }

  lemma AtSplit(s: seq<byte>, i: nat, a: seq<byte>, b: seq<byte>)
    requires At(s, i, a + b)
    ensures At(s, i, a) && At(s, i + |a|, b)
  {
    assert s[i..i + |a|] == s[i..i + |a + b|][..|a|];
    assert s[i + |a|..i + |a| + |b|] == s[i..i + |a + b|][|a|..];
  }

  lemma AtJoin(s: seq<byte>, i: nat, a: seq<byte>, b: seq<byte>)
    requires At(s, i, a) && At(s, i + |a|, b)
    ensures At(s, i, a + b)
  {
    assert s[i..i + |a + b|] == s[i..i + |a|] + s[i + |a|..i + |a| + |b|];
  }

  /** Parts of one width fill a multiple of it. */
  lemma {:induction false} FlattenWidth(parts: seq<seq<byte>>, width: nat)
    requires forall i :: 0 <= i < |parts| ==> |parts[i]| == width
    ensures |Flatten(parts)| == |parts| * width
  {
    if parts != [] {
      FlattenWidth(parts[1..], width);
      assert |parts| * width == width + |parts[1..]| * width;
    }
  }

  /** A part is stored right after the parts before it. */
  lemma FlattenAt(d: seq<byte>, o: nat, parts: seq<seq<byte>>, k: nat)
    requires At(d, o, Flatten(parts))
    requires k < |parts|
    ensures At(d, o + |Flatten(parts[..k])|, parts[k])
  {
    var a, b := parts[..k], parts[k + 1..];
    assert parts == a + ([parts[k]] + b);
    FlattenAppend(a, [parts[k]] + b);
    assert ([parts[k]] + b)[1..] == b;
    AtSplit(d, o, Flatten(a), parts[k] + Flatten(b));
    AtSplit(d, o + |Flatten(a)|, parts[k], Flatten(b));
  }
}
