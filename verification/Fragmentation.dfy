/**
 * Which frames one UDP datagram becomes: nothing, one plain frame, or a train of fragments that
 * share a fragment id. `PlanWrite` is the specification of `writeDatagram`.
 */
module Fragmentation {
  import opened Bytes
  import opened FrameCodec

  const MAX_DATAGRAM := 65507
  const DEFAULT_MAX_PACKET := 1400
  const MAX_FRAGMENTS := 255

  /** The negotiated sizes a session runs with. */
  datatype Limits = Limits(fragEnabled: bool, maxPacketSize: int, fragPayloadMax: int)

  datatype Plan = Plan(frames: seq<Frame>, nextFragID: uint32)

  /** One call of `writeDatagram`. */
  datatype Write = Write(flowID: uint32, payload: bytes)

  function Wire(l: Limits): Version {
    if l.fragEnabled then V2 else V1
  }

  function EffectiveMaxPacketSize(l: Limits): int {
    if l.maxPacketSize > 0 then l.maxPacketSize else DEFAULT_MAX_PACKET
  }

  /** The payload cut into pieces of `max` bytes, the last one possibly shorter. */
  function Split(payload: bytes, max: int): (pieces: seq<bytes>)
    requires max > 0
    ensures pieces != []
    decreases |payload|
  {
    if |payload| <= max then [payload] else [payload[..max]] + Split(payload[max..], max)
  }

  predicate NeedsFragments(l: Limits, payload: bytes) {
    l.fragEnabled && 0 < l.fragPayloadMax < |payload| <= MAX_DATAGRAM
  }

  function FragmentFrame(flowID: uint32, fragID: uint16, pieces: seq<bytes>, i: nat): Frame
    requires i < |pieces| <= MAX_FRAGMENTS
  {
    Frame(FrameMeta(flowID, FLAG_FRAGMENT, fragID, i, |pieces|), pieces[i])
  }

  function FragmentFrames(flowID: uint32, fragID: uint16, pieces: seq<bytes>): seq<Frame>
    requires |pieces| <= MAX_FRAGMENTS
  {
    seq(|pieces|, i requires 0 <= i < |pieces| => FragmentFrame(flowID, fragID, pieces, i))
  }

  function Bump(counter: uint32): uint32 {
    (counter + 1) % 0x1_0000_0000
  }

  function PlanWrite(l: Limits, nextFragID: uint32, flowID: uint32, payload: bytes): Plan {
    var plain := [Frame(PlainMeta(flowID), payload)];
    if !l.fragEnabled then
      Plan(if |payload| > EffectiveMaxPacketSize(l) then [] else plain, nextFragID)
    else if |payload| > MAX_DATAGRAM || l.fragPayloadMax <= 0 then
      Plan([], nextFragID)
    else if |payload| <= l.fragPayloadMax then
      Plan(plain, nextFragID)
    else
      var pieces := Split(payload, l.fragPayloadMax);
      if |pieces| > MAX_FRAGMENTS then
        Plan([], nextFragID)
      else
        var next := Bump(nextFragID);
        Plan(FragmentFrames(flowID, next % 0x1_0000, pieces), next)
  }

  /** `flow_id % N`; a single channel takes everything. */
  function ShardIndex(flowID: uint32, n: nat): (c: nat)
    ensures n > 0 ==> c < n
  {
    if n <= 1 then 0 else flowID % n
  }

  /** Two flows share a channel exactly when their ids are congruent, and small ids have a channel each, in order. */
  lemma SharesChannelExactly(f: uint32, g: uint32, n: nat)
    requires n > 0
    ensures f < n ==> ShardIndex(f, n) == f
    ensures ShardIndex(f, n) == ShardIndex(g, n) <==> (f - g) % n == 0
  {
    if n == 1 {
      OneDivides(f - g);
    } else {
      SmallRemainder(f, n);
      SameRemainder(f, g, n);
    }
  }

  lemma OneDivides(x: int)
    ensures x % 1 == 0
  {
  }

  lemma SmallRemainder(f: nat, n: nat)
    requires n > 0
    ensures f < n ==> f % n == f
  {
  }

  lemma SameRemainder(f: nat, g: nat, n: nat)
    requires n > 0
    ensures f % n == g % n <==> (f - g) % n == 0
  {
    var p, q := f / n, g / n;
    var r, t := f % n, g % n;
    assert f == p * n + r && g == q * n + t;
    var k := p - q;
    assert p * n - q * n == k * n;
    if r >= t {
      RemainderOf(k, n, r - t);
    } else {
      assert (k - 1) * n == k * n - n;
      RemainderOf(k - 1, n, n + r - t);
    }
  }

  lemma RemainderOf(k: int, n: nat, r: nat)
    requires r < n
    ensures (k * n + r) % n == r
  {
    DivisionIsUnique(k, n, r);
    var x := k * n + r;
    assert x == (x / n) * n + x % n;
  }

  // ----- the arithmetic of the pieces -----

  lemma {:induction false} SplitCount(payload: bytes, max: int)
    requires 0 < max && payload != []
    ensures (|Split(payload, max)| - 1) * max < |payload| <= |Split(payload, max)| * max
    decreases |payload|
  {
    if |payload| > max {
      SplitCount(payload[max..], max);
      var n := |Split(payload[max..], max)|;
      assert |Split(payload, max)| == n + 1;
      assert (n - 1) * max + max == n * max && n * max + max == (n + 1) * max;
    }
  }

  /** The rounded-up division of the program counts the pieces. */
  lemma CeilDivCountsPieces(payload: bytes, max: int)
    requires 0 < max && payload != []
    ensures (|payload| + max - 1) / max == |Split(payload, max)|
  {
    SplitCount(payload, max);
    var n := |Split(payload, max)|;
    var rem := |payload| + max - 1 - n * max;
    assert (n - 1) * max == n * max - max;
    DivisionIsUnique(n, max, rem);
  }

  lemma DivisionIsUnique(q: int, d: int, r: int)
    requires 0 <= r < d
    ensures (q * d + r) / d == q
  {
    var x := q * d + r;
    var q' := x / d;
    assert 0 <= x - q' * d < d;
    assert (q' + 1) * d == q' * d + d && (q + 1) * d == q * d + d;
    if q' < q {
      MulMonotone(q' + 1, q, d);
    } else if q < q' {
      MulMonotone(q + 1, q', d);
    }
  }

  lemma {:induction false} PieceStart(payload: bytes, max: int, i: nat)
    requires 0 < max && payload != [] && i < |Split(payload, max)|
    ensures 0 <= i * max < |payload|
  {
    SplitCount(payload, max);
    MulMonotone(i, |Split(payload, max)| - 1, max);
    MulMonotone(0, i, max);
  }

  lemma SliceOfRest(payload: bytes, from: nat, start: nat, end: nat)
    requires from <= |payload| && start <= end <= |payload| - from
    ensures payload[from..][start..end] == payload[from + start..from + end]
  {
  }

  lemma {:induction false} SplitRest(payload: bytes, max: int, i: nat)
    requires 0 < max < |payload| && 0 < i < |Split(payload, max)|
    ensures i - 1 < |Split(payload[max..], max)| && Split(payload, max)[i] == Split(payload[max..], max)[i - 1]
  {
  }

  /** The i-th piece starts at `start == i * max` and is `max` bytes long or ends with the payload. */
  lemma {:induction false} PieceAt(payload: bytes, max: int, i: nat, start: nat)
    requires 0 < max && payload != [] && i < |Split(payload, max)| && start == i * max
    ensures start < |payload| && Split(payload, max)[i] == payload[start..Min(start + max, |payload|)]
    decreases i
  {
    PieceStart(payload, max, i);
    if i > 0 {
      assert (i - 1) * max == start - max;
      MulMonotone(1, i, max);
      SplitCount(payload, max);
      assert |payload| > max;
      var rest := payload[max..];
      SplitRest(payload, max, i);
      PieceAt(rest, max, i - 1, start - max);
      SliceOfRest(payload, max, start - max, Min(start, |rest|));
    }
  }

  /** The slice bounds of the program's loop select exactly the i-th piece. */
  lemma {:induction false} PieceIsSlice(payload: bytes, max: int, i: nat)
    requires 0 < max && payload != []
    requires i < |Split(payload, max)|
    ensures 0 <= i * max < |payload|
    ensures Split(payload, max)[i] == payload[i * max..Min(i * max + max, |payload|)]
  {
    PieceStart(payload, max, i);
    PieceAt(payload, max, i, i * max);
  }

  lemma {:induction false} SplitKeepsBytes(payload: bytes, max: int)
    requires max > 0
    ensures Flatten(Split(payload, max)) == payload
    decreases |payload|
  {
    if |payload| <= max {
      assert Flatten([payload]) == payload + Flatten([]);
    } else {
      var rest := Split(payload[max..], max);
      SplitKeepsBytes(payload[max..], max);
      assert ([payload[..max]] + rest)[1..] == rest;
      assert Flatten([payload[..max]] + rest) == payload[..max] + Flatten(rest);
    }
  }

  lemma {:induction false} SplitSizes(payload: bytes, max: int)
    requires 0 < max && payload != []
    ensures forall i :: 0 <= i < |Split(payload, max)| ==> 0 < |Split(payload, max)[i]| <= max
    decreases |payload|
  {
    if |payload| > max {
      SplitSizes(payload[max..], max);
    }
  }

  // ----- what a plan promises -----

  /**
   * All or nothing: a datagram becomes no frame, one plain frame holding it whole, or fragments with
   * indices 0..n-1, one shared id and count, every one non-empty and within the limit, which put
   * together in index order are the datagram.
   */
  lemma AllOrNothing(l: Limits, nextFragID: uint32, flowID: uint32, payload: bytes)
    ensures var fs := PlanWrite(l, nextFragID, flowID, payload).frames;
      || fs == []
      || fs == [Frame(FrameMeta(flowID, 0, 0, 0, 1), payload)]
      || (&& l.fragEnabled && 0 < l.fragPayloadMax < |payload| <= 65507
          && 2 <= |fs| <= 255
          && (forall i :: 0 <= i < |fs| ==> fs[i].meta == FrameMeta(flowID, 1, fs[0].meta.fragID, i, |fs|))
          && (forall i :: 0 <= i < |fs| ==> 0 < |fs[i].payload| <= l.fragPayloadMax)
          && Flatten(seq(|fs|, i requires 0 <= i < |fs| => fs[i].payload)) == payload)
  {
    if NeedsFragments(l, payload) {
      var pieces := Split(payload, l.fragPayloadMax);
      SplitCount(payload, l.fragPayloadMax);
      SplitSizes(payload, l.fragPayloadMax);
      SplitKeepsBytes(payload, l.fragPayloadMax);
      if |pieces| == 1 {
        assert false;
      }
      var fs := PlanWrite(l, nextFragID, flowID, payload).frames;
      if fs != [] {
        assert seq(|fs|, i requires 0 <= i < |fs| => fs[i].payload) == pieces;
      }
    }
  }

  /** A v1 session drops a datagram exactly when it is longer than the negotiated size, or 1400 bytes without one. */
  lemma V1DroppedExactly(l: Limits, nextFragID: uint32, flowID: uint32, payload: bytes)
    requires !l.fragEnabled
    ensures l.maxPacketSize > 0 ==>
      (PlanWrite(l, nextFragID, flowID, payload).frames == [] <==> |payload| > l.maxPacketSize)
    ensures l.maxPacketSize <= 0 ==> (PlanWrite(l, nextFragID, flowID, payload).frames == [] <==> |payload| > 1400)
    ensures PlanWrite(l, nextFragID, flowID, payload).nextFragID == nextFragID
  {
  }

  /** The fragment train drops a datagram exactly when it is longer than 255 full pieces. */
  lemma DroppedExactly(l: Limits, nextFragID: uint32, flowID: uint32, payload: bytes)
    requires l.fragEnabled
    ensures PlanWrite(l, nextFragID, flowID, payload).frames == []
       <==> l.fragPayloadMax <= 0 || |payload| > 65507 || |payload| > 255 * l.fragPayloadMax
  {
    if NeedsFragments(l, payload) {
      SplitFitsExactly(payload, l.fragPayloadMax, MAX_FRAGMENTS);
    }
  }

  lemma SplitFitsExactly(payload: bytes, max: int, n: nat)
    requires 0 < max && payload != []
    ensures |Split(payload, max)| <= n <==> |payload| <= n * max
  {
    var c := |Split(payload, max)|;
    SplitCount(payload, max);
    if c <= n {
      MulMonotone(c, n, max);
    } else {
      MulMonotone(n, c - 1, max);
    }
  }

  /**
   * The program calls its 255-fragment guard unreachable. That is true exactly for limits of at least
   * 257 bytes; negotiation accepts any limit from 1 up, and a limit of 256 loses a full-size datagram.
   */
  lemma CapUnreachableExactly(l: Limits)
    requires l.fragEnabled && 0 < l.fragPayloadMax
    ensures (forall id: uint32, flowID: uint32, payload: bytes | |payload| <= 65507 ::
               PlanWrite(l, id, flowID, payload).frames != [])
       <==> l.fragPayloadMax >= 257
  {
    if l.fragPayloadMax >= 257 {
      forall id: uint32, flowID: uint32, payload: bytes | |payload| <= MAX_DATAGRAM
        ensures PlanWrite(l, id, flowID, payload).frames != []
      {
        DroppedExactly(l, id, flowID, payload);
      }
    } else {
      var full: bytes := seq(MAX_DATAGRAM, _ => 0);
      assert |full| > MAX_FRAGMENTS * l.fragPayloadMax;
      DroppedExactly(l, 0, 0, full);
      assert PlanWrite(l, 0, 0, full).frames == [];
    }
  }

  /** No frame of a datagram the limits admit overflows the 16-bit length field. */
  lemma FramesExpressible(l: Limits, nextFragID: uint32, flowID: uint32, payload: bytes)
    requires |payload| <= 65507
    ensures AllExpressible(Wire(l), PlanWrite(l, nextFragID, flowID, payload).frames)
  {
    if NeedsFragments(l, payload) {
      SplitSizes(payload, l.fragPayloadMax);
    }
  }

  // ----- fragment ids -----

  /** The counter after k fragmentations that started from `n0`. */
  function CounterAfter(n0: uint32, k: nat): uint32 {
    if k == 0 then n0 else Bump(CounterAfter(n0, k - 1))
  }

  lemma {:induction false} CounterWraps(n0: uint32, k: nat)
    ensures CounterAfter(n0, k) == (n0 + k) % 0x1_0000_0000
  {
    if k > 0 {
      CounterWraps(n0, k - 1);
      WrapNext(n0 + (k - 1));
    }
  }

  lemma WrapNext(x: nat)
    ensures (x % 0x1_0000_0000 + 1) % 0x1_0000_0000 == (x + 1) % 0x1_0000_0000
  {
    var q, r := x / 0x1_0000_0000, x % 0x1_0000_0000;
    assert x + 1 == 0x1_0000_0000 * q + (r + 1);
  }

  function NthFragID(n0: uint32, k: nat): uint16 {
    CounterAfter(n0, k) % 0x1_0000
  }

  /** Fragment ids repeat only with period 65536, the wrap of the 32-bit counter included. */
  lemma FragIDsDiffer(n0: uint32, j: nat, k: nat)
    ensures NthFragID(n0, j) == NthFragID(n0, k) <==> (k - j) % 0x1_0000 == 0
  {
    CounterWraps(n0, j);
    CounterWraps(n0, k);
    ModModSmall(n0 + j);
    ModModSmall(n0 + k);
    CongruentExactly(n0 + j, n0 + k);
    assert (n0 + k) - (n0 + j) == k - j;
  }

  lemma CongruentExactly(a: nat, b: nat)
    ensures a % 0x1_0000 == b % 0x1_0000 <==> (b - a) % 0x1_0000 == 0
  {
  }

  lemma ModOfMultiple(k: nat, y: nat)
    ensures (0x1_0000 * k + y) % 0x1_0000 == y % 0x1_0000
  {
  }

  lemma ModModSmall(x: nat)
    ensures x % 0x1_0000_0000 % 0x1_0000 == x % 0x1_0000
  {
    var q, y := x / 0x1_0000_0000, x % 0x1_0000_0000;
    assert x == 0x1_0000 * (0x1_0000 * q) + y;
    ModOfMultiple(0x1_0000 * q, y);
  }
}
