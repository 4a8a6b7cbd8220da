/** Machine integers, big-endian fields and byte strings shared by every component. */
module Bytes {

  type byte = x: int | 0 <= x < 0x100
  type uint16 = x: int | 0 <= x < 0x1_0000
  type uint32 = x: int | 0 <= x < 0x1_0000_0000
  type bytes = seq<byte>

  datatype Option<+T> = None | Some(value: T)

  /** Whether the flag bit worth `mask` (a power of two) is set. */
  predicate HasBit(flags: byte, mask: nat)
    requires mask in {1, 2, 4, 8}
  {
    (flags / mask) % 2 == 1
  }

  function Min(a: int, b: int): int {
    if a <= b then a else b
  }

  lemma MulMonotone(a: int, b: int, d: int)
    requires a <= b && 0 <= d
    ensures a * d <= b * d
  {
  }

  // ----- big-endian fields -----

  function BE16(x: uint16): (b: bytes)
    ensures |b| == 2
  {
    [x / 0x100, x % 0x100]
  }

  function BE32(x: uint32): (b: bytes)
    ensures |b| == 4
  {
    [x / 0x100_0000, x / 0x1_0000 % 0x100, x / 0x100 % 0x100, x % 0x100]
  }

  function FromBE16(b: bytes): uint16
    requires |b| == 2
  {
    (b[0] as int) * 0x100 + b[1]
  }

  function FromBE32(b: bytes): uint32
    requires |b| == 4
  {
    (b[0] as int) * 0x100_0000 + (b[1] as int) * 0x1_0000 + (b[2] as int) * 0x100 + b[3]
  }

  /** The most significant byte comes first. */
  lemma BigEndian(x: uint16, y: uint32)
    ensures (BE16(x)[0] as int) * 256 + BE16(x)[1] == x
    ensures (BE32(y)[0] as int) * 16777216 + (BE32(y)[1] as int) * 65536 + (BE32(y)[2] as int) * 256 + BE32(y)[3] == y
  {
  }

  lemma BE16RoundTrip(x: uint16)
    ensures FromBE16(BE16(x)) == x
  {
  }

  lemma BE32RoundTrip(x: uint32)
    ensures FromBE32(BE32(x)) == x
  {
    var a: int := x / 0x100;
    var b: int := a / 0x100;
    assert x / 0x1_0000 == b && x / 0x100_0000 == b / 0x100;
  }

  lemma FromBE16RoundTrip(b: bytes)
    requires |b| == 2
    ensures BE16(FromBE16(b)) == b
  {
  }

  lemma FromBE32RoundTrip(b: bytes)
    requires |b| == 4
    ensures BE32(FromBE32(b)) == b
  {
    var x: int := FromBE32(b);
    var b0: int, b1: int, b2: int := b[0], b[1], b[2];
    var hi: int := b0 * 0x1_0000 + b1 * 0x100 + b2;
    assert x == hi * 0x100 + b[3] && x / 0x100 == hi && x % 0x100 == b[3];
    assert hi / 0x100 == b0 * 0x100 + b1 && hi % 0x100 == b2;
    assert x / 0x1_0000 == hi / 0x100;
  }

  // ----- concatenation -----

  function Flatten(parts: seq<bytes>): bytes {
    if parts == [] then [] else parts[0] + Flatten(parts[1..])
  }

  lemma {:induction false} FlattenAppend(a: seq<bytes>, b: seq<bytes>)
    ensures Flatten(a + b) == Flatten(a) + Flatten(b)
  {
    if a == [] {
      assert a + b == b;
    } else {
      assert (a + b)[1..] == a[1..] + b;
      FlattenAppend(a[1..], b);
    }
  }

  lemma Associative(a: bytes, b: bytes, c: bytes)
    ensures (a + b) + c == a + (b + c)
  {
  }

  lemma AppendNothing(a: bytes)
    ensures a + [] == a
  {
  }

  /** A longer prefix of a + b is a with a prefix of b. */
  lemma CutSecond(a: bytes, b: bytes, q: bytes) returns (part: bytes)
    requires q <= a + b && |a| <= |q|
    ensures q == a + part && part <= b
  {
    part := q[|a|..];
    assert q[..|a|] == (a + b)[..|a|] == a;
    assert part == (a + b)[|a|..|q|];
  }

  lemma CutFirst(a: bytes, b: bytes, q: bytes)
    requires q <= a + b && |q| <= |a|
    ensures q <= a
  {
    assert q == (a + b)[..|q|] == a[..|q|];
  }

  lemma PrefixesAppend(start: bytes, a: bytes, b: bytes)
    requires a <= b
    ensures start + a <= start + b
  {
    assert b == a + b[|a|..];
    Associative(start, a, b[|a|..]);
  }

  lemma PrefixTrans(a: bytes, b: bytes, c: bytes)
    requires a <= b <= c
    ensures a <= c
  {
    assert a == b[..|a|] == c[..|b|][..|a|];
  }

  lemma FlattenSnoc(a: seq<bytes>, x: bytes)
    ensures Flatten(a + [x]) == Flatten(a) + x
  {
    FlattenAppend(a, [x]);
    assert Flatten([x]) == x + Flatten([]);
  }
}
