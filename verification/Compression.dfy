/**
 * The compressing writer: it cuts what it is given into blocks, deflates each on its own, and falls back to raw
 * frames for good after two blocks in a row that do not shrink. A frame decoder undoes every sequence of writes.
 */
module Compression {
  import opened Bytes
  import FrameCodec

  const HEADER_LEN := 5
  const BLOCK_SIZE := 65536
  const MIN_BLOCK_SIZE := 256
  const BAD_BLOCK_LIMIT := 2
  const FLAG_COMPRESSED: byte := 1

  /** Raw deflate (RFC 1951) and its inverse, as far as the framing depends on them. */
  datatype Codec = Codec(deflate: bytes -> bytes, inflate: bytes -> Option<bytes>)

  ghost predicate Lawful(c: Codec) {
    forall b: bytes :: c.inflate(c.deflate(b)) == Some(b) && c.deflate(b) != []
  }

  // ----- the frames of a write -----

  datatype Latch = Latch(rawStreak: nat, rawOnly: bool)

  /** A piece of the framed stream, and the state of the writer after it. */
  datatype Framing = Framing(stream: bytes, latch: Latch)

  function FrameHeader(flag: byte, length: nat): (h: bytes)
    ensures |h| == HEADER_LEN
  {
    BE32(length % 0x1_0000_0000) + [flag]
  }

  function FrameOf(flag: byte, payload: bytes): bytes {
    FrameHeader(flag, |payload|) + payload
  }

  /** The block is long enough to try, and the writer still tries. */
  predicate Tried(l: Latch, block: bytes) {
    !l.rawOnly && |block| >= MIN_BLOCK_SIZE
  }

  predicate Shrinks(c: Codec, block: bytes) {
    |c.deflate(block)| < |block|
  }

  function FrameBlock(c: Codec, l: Latch, block: bytes): Framing {
    if !Tried(l, block) then Framing(FrameOf(0, block), l)
    else if Shrinks(c, block) then Framing(FrameOf(FLAG_COMPRESSED, c.deflate(block)), Latch(0, l.rawOnly))
    else Framing(FrameOf(0, block), Latch(l.rawStreak + 1, l.rawStreak + 1 >= BAD_BLOCK_LIMIT))
  }

  /** Frames of successive blocks. */
  function FrameBlocks(c: Codec, l: Latch, bs: seq<bytes>): Framing
    decreases |bs|
  {
    if bs == [] then Framing([], l)
    else
      var before := FrameBlocks(c, l, bs[..|bs| - 1]);
      var last := FrameBlock(c, before.latch, bs[|bs| - 1]);
      Framing(before.stream + last.stream, last.latch)
  }

  function FirstBlock(p: bytes): (b: bytes)
    ensures p != [] ==> b != []
    ensures |b| <= BLOCK_SIZE
  {
    if |p| <= BLOCK_SIZE then p else p[..BLOCK_SIZE]
  }

  /** The blocks of one `Write`. */
  function Blocks(p: bytes): (bs: seq<bytes>)
    ensures BlocksOk(bs)
    decreases |p|
  {
    if p == [] then [] else [FirstBlock(p)] + Blocks(p[|FirstBlock(p)|..])
  }

  ghost predicate BlocksOk(bs: seq<bytes>) {
    forall b :: b in bs ==> 0 < |b| <= BLOCK_SIZE
  }

  /** The blocks of a sequence of `Write` calls. */
  function AllBlocks(ps: seq<bytes>): (bs: seq<bytes>)
    ensures BlocksOk(bs)
  {
    if ps == [] then [] else Blocks(ps[0]) + AllBlocks(ps[1..])
  }

  lemma FrameOfLayout(flag: byte, payload: bytes, length: uint32)
    requires length == |payload|
    ensures FrameOf(flag, payload) == BE32(length) + [flag] + payload
  {
    LengthFits(length);
  }

  lemma LengthFits(length: nat)
    requires length < 0x1_0000_0000
    ensures length % 0x1_0000_0000 == length
  {
  }

  /**
   * The frame of a block, byte by byte: deflated with flag 1 exactly while the writer still tries, the block has at
   * least 256 bytes and deflate makes it shorter; otherwise as it is with flag 0.
   */
  lemma FrameLayout(c: Codec, l: Latch, block: bytes)
    requires |block| <= 65536
    ensures FrameBlock(c, l, block).stream
         == if !l.rawOnly && |block| >= 256 && |c.deflate(block)| < |block|
            then BE32(|c.deflate(block)|) + [1] + c.deflate(block) else BE32(|block|) + [0] + block
  {
    FrameOfLayout(0, block, |block|);
    if !l.rawOnly && |block| >= 256 && |c.deflate(block)| < |block| {
      FrameOfLayout(1, c.deflate(block), |c.deflate(block)|);
    }
  }

  // ----- the decoder -----

  /** The bytes of the complete frames, and the incomplete frame that is left. */
  datatype Unframed = Corrupt | Decoded(data: bytes, rest: bytes)

  function Payload(c: Codec, flag: byte, payload: bytes): Option<bytes> {
    if HasBit(flag, 1) then c.inflate(payload) else Some(payload)
  }

  function Unframe(c: Codec, s: bytes): Unframed
    decreases |s|
  {
    if |s| < HEADER_LEN || |s| < HEADER_LEN + FromBE32(s[..4]) then Decoded([], s)
    else
      var end := HEADER_LEN + FromBE32(s[..4]);
      match Payload(c, s[4], s[HEADER_LEN..end])
      case None => Corrupt
      case Some(data) =>
        match Unframe(c, s[end..])
        case Corrupt => Corrupt
        case Decoded(more, rest) => Decoded(data + more, rest)
  }

  // ----- decoding undoes framing -----

  /** A complete frame in front of anything. */
  lemma UnframeFrame(c: Codec, flag: byte, payload: bytes, data: bytes, tail: bytes, more: bytes, left: bytes)
    requires |payload| < 0x1_0000_0000 && Payload(c, flag, payload) == Some(data)
    requires Unframe(c, tail) == Decoded(more, left)
    ensures Unframe(c, FrameOf(flag, payload) + tail) == Decoded(data + more, left)
  {
    var s := FrameOf(flag, payload) + tail;
    assert s[..4] == BE32(|payload|);
    BE32RoundTrip(|payload|);
    assert s[HEADER_LEN..HEADER_LEN + |payload|] == payload;
    assert s[HEADER_LEN + |payload|..] == tail;
  }

  /** An incomplete frame decodes to nothing. */
  lemma UnframeCut(c: Codec, flag: byte, payload: bytes, q: bytes)
    requires |payload| < 0x1_0000_0000 && q < FrameOf(flag, payload)
    ensures Unframe(c, q) == Decoded([], q)
  {
    if |q| >= HEADER_LEN {
      assert q[..4] == FrameOf(flag, payload)[..4] == BE32(|payload|);
      BE32RoundTrip(|payload|);
    }
  }

  /** What a block's frame carries: its own bytes, in a payload that is not empty and at most 64 KiB long. */
  lemma BlockFrame(c: Codec, l: Latch, block: bytes) returns (flag: byte, payload: bytes)
    requires Lawful(c) && 0 < |block| <= BLOCK_SIZE
    ensures FrameBlock(c, l, block).stream == FrameOf(flag, payload)
    ensures 0 < |payload| <= |block| && Payload(c, flag, payload) == Some(block)
    ensures flag == FLAG_COMPRESSED <==> Tried(l, block) && Shrinks(c, block)
  {
    if Tried(l, block) && Shrinks(c, block) {
      flag, payload := FLAG_COMPRESSED, c.deflate(block);
    } else {
      flag, payload := 0, block;
    }
  }

  lemma UnframeBlock(c: Codec, l: Latch, block: bytes, tail: bytes, more: bytes, left: bytes)
    requires Lawful(c) && 0 < |block| <= BLOCK_SIZE && Unframe(c, tail) == Decoded(more, left)
    ensures Unframe(c, FrameBlock(c, l, block).stream + tail) == Decoded(block + more, left)
  {
    var flag, payload := BlockFrame(c, l, block);
    UnframeFrame(c, flag, payload, block, tail, more, left);
  }

  lemma Regroup(c: Codec, before: bytes, last: bytes, tail: bytes, data: bytes, block: bytes, more: bytes, left: bytes)
    requires Unframe(c, before + (last + tail)) == Decoded(data + (block + more), left)
    ensures Unframe(c, (before + last) + tail) == Decoded((data + block) + more, left)
  {
    assert (before + last) + tail == before + (last + tail);
    assert (data + block) + more == data + (block + more);
  }

  lemma FlattenLast(bs: seq<bytes>)
    requires bs != []
    ensures Flatten(bs) == Flatten(bs[..|bs| - 1]) + bs[|bs| - 1]
  {
    FlattenSnoc(bs[..|bs| - 1], bs[|bs| - 1]);
    assert bs[..|bs| - 1] + [bs[|bs| - 1]] == bs;
  }

  lemma {:induction false} UnframeBlocks(c: Codec, l: Latch, bs: seq<bytes>, tail: bytes, more: bytes, left: bytes)
    requires Lawful(c) && BlocksOk(bs) && Unframe(c, tail) == Decoded(more, left)
    ensures Unframe(c, FrameBlocks(c, l, bs).stream + tail) == Decoded(Flatten(bs) + more, left)
    decreases |bs|
  {
    if bs == [] {
      assert FrameBlocks(c, l, bs).stream + tail == tail;
    } else {
      var init, block := bs[..|bs| - 1], bs[|bs| - 1];
      var before := FrameBlocks(c, l, init);
      var last := FrameBlock(c, before.latch, block).stream;
      UnframeBlock(c, before.latch, block, tail, more, left);
      UnframeBlocks(c, l, init, last + tail, block + more, left);
      Regroup(c, before.stream, last, tail, Flatten(init), block, more, left);
      FlattenLast(bs);
    }
  }

  lemma {:induction false} BlocksFlatten(p: bytes)
    ensures Flatten(Blocks(p)) == p
    decreases |p|
  {
    if p != [] {
      BlocksFlatten(p[|FirstBlock(p)|..]);
      assert FirstBlock(p) + p[|FirstBlock(p)|..] == p;
    }
  }

  lemma {:induction false} AllBlocksFlatten(ps: seq<bytes>)
    ensures Flatten(AllBlocks(ps)) == Flatten(ps)
  {
    if ps != [] {
      AllBlocksFlatten(ps[1..]);
      BlocksFlatten(ps[0]);
      FlattenAppend(Blocks(ps[0]), AllBlocks(ps[1..]));
    }
  }

  /** Round trip: the decoder gives back the concatenation of everything written, and nothing is left over. */
  lemma RoundTrip(c: Codec, l: Latch, ps: seq<bytes>)
    requires Lawful(c)
    ensures Unframe(c, FrameBlocks(c, l, AllBlocks(ps)).stream) == Decoded(Flatten(ps), [])
  {
    var s := FrameBlocks(c, l, AllBlocks(ps)).stream;
    UnframeBlocks(c, l, AllBlocks(ps), [], [], []);
    AllBlocksFlatten(ps);
    assert s + [] == s && Flatten(ps) + [] == Flatten(ps);
  }

  lemma WholeStream(c: Codec, l: Latch, bs: seq<bytes>)
    requires Lawful(c) && BlocksOk(bs)
    ensures Unframe(c, FrameBlocks(c, l, bs).stream) == Decoded(Flatten(bs), [])
  {
    UnframeBlocks(c, l, bs, [], [], []);
    AppendNothing(FrameBlocks(c, l, bs).stream);
    AppendNothing(Flatten(bs));
  }

  /** The cut is inside the frame after these blocks. */
  lemma CutInFrame(c: Codec, l: Latch, init: seq<bytes>, block: bytes, part: bytes)
    requires Lawful(c) && BlocksOk(init) && 0 < |block| <= BLOCK_SIZE
    requires part < FrameBlock(c, FrameBlocks(c, l, init).latch, block).stream
    ensures Unframe(c, FrameBlocks(c, l, init).stream + part) == Decoded(Flatten(init), part)
  {
    var flag, payload := BlockFrame(c, FrameBlocks(c, l, init).latch, block);
    UnframeCut(c, flag, payload, part);
    UnframeBlocks(c, l, init, part, [], part);
    AppendNothing(Flatten(init));
  }

  lemma FrameBlocksLast(c: Codec, l: Latch, bs: seq<bytes>, init: seq<bytes>, block: bytes)
    requires bs != [] && init == bs[..|bs| - 1] && block == bs[|bs| - 1]
    ensures FrameBlocks(c, l, bs).stream
         == FrameBlocks(c, l, init).stream + FrameBlock(c, FrameBlocks(c, l, init).latch, block).stream
  {
  }

  /** A stream cut anywhere still decodes, to a prefix of what was written. */
  lemma {:induction false} CutStream(c: Codec, l: Latch, bs: seq<bytes>, q: bytes)
    requires Lawful(c) && BlocksOk(bs) && q <= FrameBlocks(c, l, bs).stream
    ensures Unframe(c, q).Decoded? && Unframe(c, q).data <= Flatten(bs)
    decreases |bs|
  {
    if q == FrameBlocks(c, l, bs).stream {
      WholeStream(c, l, bs);
    } else {
      var init, block := bs[..|bs| - 1], bs[|bs| - 1];
      var head, last := FrameBlocks(c, l, init).stream, FrameBlock(c, FrameBlocks(c, l, init).latch, block).stream;
      FrameBlocksLast(c, l, bs, init, block);
      FlattenLast(bs);
      if |q| <= |head| {
        CutFirst(head, last, q);
        CutStream(c, l, init, q);
        PrefixTrans(Unframe(c, q).data, Flatten(init), Flatten(bs));
      } else {
        var part := CutSecond(head, last, q);
        CutInFrame(c, l, init, block, part);
      }
    }
  }

  lemma {:induction false} FrameBlocksAppend(c: Codec, l: Latch, a: seq<bytes>, b: seq<bytes>)
    ensures var x := FrameBlocks(c, l, a);
      var y := FrameBlocks(c, x.latch, b);
      FrameBlocks(c, l, a + b) == Framing(x.stream + y.stream, y.latch)
    decreases |b|
  {
    var x := FrameBlocks(c, l, a);
    if b == [] {
      assert a + b == a && x.stream + [] == x.stream;
    } else {
      var init := b[..|b| - 1];
      assert (a + b)[..|a + b| - 1] == a + init;
      FrameBlocksAppend(c, l, a, init);
      var y := FrameBlocks(c, x.latch, init);
      var z := FrameBlock(c, y.latch, b[|b| - 1]);
      assert (x.stream + y.stream) + z.stream == x.stream + (y.stream + z.stream);
    }
  }

  lemma {:induction false} AllBlocksSnoc(ps: seq<bytes>, p: bytes)
    ensures AllBlocks(ps + [p]) == AllBlocks(ps) + Blocks(p)
  {
    if ps != [] {
      AllBlocksSnoc(ps[1..], p);
      assert (ps + [p])[1..] == ps[1..] + [p];
    }
  }

  /** Successive calls of `Write` put out the frames of the sequence of their data. */
  lemma NextWrite(c: Codec, l: Latch, ps: seq<bytes>, p: bytes)
    ensures var x := FrameBlocks(c, l, AllBlocks(ps));
      var y := FrameBlocks(c, x.latch, Blocks(p));
      FrameBlocks(c, l, AllBlocks(ps + [p])) == Framing(x.stream + y.stream, y.latch)
  {
    AllBlocksSnoc(ps, p);
    FrameBlocksAppend(c, l, AllBlocks(ps), Blocks(p));
  }

  lemma SplitStream(c: Codec, l: Latch, bs: seq<bytes>, k: nat, q: bytes) returns (part: bytes)
    requires k <= |bs|
    requires FrameBlocks(c, l, bs[..k]).stream <= q <= FrameBlocks(c, l, bs).stream
    ensures q == FrameBlocks(c, l, bs[..k]).stream + part
    ensures part <= FrameBlocks(c, FrameBlocks(c, l, bs[..k]).latch, bs[k..]).stream
  {
    var head := FrameBlocks(c, l, bs[..k]);
    assert bs[..k] + bs[k..] == bs;
    FrameBlocksAppend(c, l, bs[..k], bs[k..]);
    part := CutSecond(head.stream, FrameBlocks(c, head.latch, bs[k..]).stream, q);
  }

  /**
   * When the sink fails, everything counted as written can be decoded from what the sink holds, whatever part of
   * the rest it took; and it holds nothing but data that was given to the writer.
   */
  lemma CountedBytesDecode(c: Codec, l: Latch, bs: seq<bytes>, k: nat, q: bytes)
    requires Lawful(c) && BlocksOk(bs) && k <= |bs|
    requires FrameBlocks(c, l, bs[..k]).stream <= q <= FrameBlocks(c, l, bs).stream
    ensures Unframe(c, q).Decoded? && Flatten(bs[..k]) <= Unframe(c, q).data <= Flatten(bs)
  {
    var part := SplitStream(c, l, bs, k, q);
    CutStream(c, FrameBlocks(c, l, bs[..k]).latch, bs[k..], part);
    UnframeBlocks(c, l, bs[..k], part, Unframe(c, part).data, Unframe(c, part).rest);
    CutStream(c, l, bs, q);
  }

  // ----- the latch -----

  /** For each block long enough to try: whether it did not shrink. */
  function Verdicts(c: Codec, bs: seq<bytes>): seq<bool>
    decreases |bs|
  {
    if bs == [] then [] else
      var last := bs[|bs| - 1];
      Verdicts(c, bs[..|bs| - 1]) + if |last| < MIN_BLOCK_SIZE then [] else [!Shrinks(c, last)]
  }

  predicate TwoInARow(v: seq<bool>) {
    exists i :: 0 <= i < |v| - 1 && v[i] && v[i + 1]
  }

  /**
   * The latch of a fresh writer closes exactly when two long blocks in a row did not shrink. Until then the streak
   * says whether the last long block shrank, so it stays below two; short blocks do not count either way.
   */
  lemma {:induction false} LatchExactly(c: Codec, bs: seq<bytes>)
    ensures var v, l := Verdicts(c, bs), FrameBlocks(c, Latch(0, false), bs).latch;
      && (l.rawOnly <==> TwoInARow(v))
      && (!l.rawOnly ==> l.rawStreak == if v != [] && v[|v| - 1] then 1 else 0)
    decreases |bs|
  {
    if bs != [] {
      var init := bs[..|bs| - 1];
      LatchExactly(c, init);
      var v, w := Verdicts(c, init), Verdicts(c, bs);
      assert forall i :: 0 <= i < |v| ==> w[i] == v[i];
      assert TwoInARow(w) <==> TwoInARow(v) || (|v| < |w| && v != [] && v[|v| - 1] && w[|v|]);
    }
  }

  function RawStream(bs: seq<bytes>): bytes
    decreases |bs|
  {
    if bs == [] then [] else RawStream(bs[..|bs| - 1]) + FrameOf(0, bs[|bs| - 1])
  }

  /** Once closed the latch stays closed: every later frame is raw. */
  lemma {:induction false} RawForever(c: Codec, l: Latch, bs: seq<bytes>)
    requires l.rawOnly
    ensures FrameBlocks(c, l, bs) == Framing(RawStream(bs), l)
    decreases |bs|
  {
    if bs != [] {
      RawForever(c, l, bs[..|bs| - 1]);
    }
  }

  // ----- overhead -----

  /** Framing costs at most five bytes a block; raw frames cost exactly that. */
  lemma {:induction false} Overhead(c: Codec, l: Latch, bs: seq<bytes>)
    requires Lawful(c) && BlocksOk(bs)
    ensures HEADER_LEN * |bs| <= |FrameBlocks(c, l, bs).stream| <= |Flatten(bs)| + HEADER_LEN * |bs|
    ensures l.rawOnly ==> |FrameBlocks(c, l, bs).stream| == |Flatten(bs)| + HEADER_LEN * |bs|
    decreases |bs|
  {
    if bs != [] {
      Overhead(c, l, bs[..|bs| - 1]);
      FlattenLast(bs);
      var flag, payload := BlockFrame(c, FrameBlocks(c, l, bs[..|bs| - 1]).latch, bs[|bs| - 1]);
      if l.rawOnly {
        RawForever(c, l, bs[..|bs| - 1]);
      }
    }
  }

  lemma {:induction false} BlockCount(p: bytes)
    ensures |Blocks(p)| == (|p| + 65535) / 65536
    decreases |p|
  {
    if p != [] {
      BlockCount(p[|FirstBlock(p)|..]);
    }
  }

  /** A write of `L` bytes puts at most `L + 5 * ceil(L / 65536)` bytes on the wire. */
  lemma WriteOverhead(c: Codec, l: Latch, p: bytes)
    requires Lawful(c)
    ensures |FrameBlocks(c, l, Blocks(p)).stream| <= |p| + 5 * ((|p| + 65535) / 65536)
  {
    Overhead(c, l, Blocks(p));
    BlocksFlatten(p);
    BlockCount(p);
  }

  // ----- the writer -----

  /** The channel under the writer: each write takes any part of what it is given, and may fail. */
  class Sink {
    var got: bytes

    constructor ()
      ensures got == []
    {
      got := [];
    }

    method Write(b: bytes) returns (n: nat, err: bool)
      modifies this
      ensures n <= |b| && got == old(got) + b[..n]
    {
      n :| 0 <= n <= |b|;
      err := *;
      got := got + b[..n];
    }
  }

  /** Writes all of the slice, in as many writes as it takes; a failure leaves a part of it written. */
  method WriteFull(w: Sink, slice: bytes) returns (ok: bool)
    modifies w
    ensures ok ==> w.got == old(w.got) + slice
    ensures !ok ==> old(w.got) <= w.got <= old(w.got) + slice
  {
    var b := slice;
    while b != []
      invariant w.got + b == old(w.got) + slice && old(w.got) <= w.got
      decreases |b|
    {
      var n, err := w.Write(b);
      assert w.got + b[n..] == old(w.got) + slice;
      if err || n == 0 {
        return false;
      }
      b := b[n..];
    }
    return true;
  }

  class CompressWriter {
    const codec: Codec
    const dst: Sink
    var out: array<byte>
    var rawStreak: nat
    var rawOnly: bool

    /** Without a deflater the writer starts out raw. */
    constructor (codec: Codec, dst: Sink, hasDeflater: bool)
      ensures this.codec == codec && this.dst == dst && fresh(out) && State() == Latch(0, !hasDeflater)
    {
      this.codec, this.dst, this.out := codec, dst, new byte[0];
      this.rawStreak, this.rawOnly := 0, !hasDeflater;
    }

    function State(): Latch
      reads this
    {
      Latch(rawStreak, rawOnly)
    }

    /** Builds the frame in the reused buffer, which may be longer and hold an older frame. */
    method FillFrame(payload: bytes) returns (total: nat)
      requires |payload| < BLOCK_SIZE
      modifies this`out, out
      ensures out == old(out) || fresh(out)
      ensures total <= out.Length && out[..total] == FrameOf(FLAG_COMPRESSED, payload)
    {
      total := HEADER_LEN + |payload|;
      if out.Length < total {
        out := new byte[total];
      }
      FrameCodec.PutUint32(out, 0, |payload|);
      out[4] := FLAG_COMPRESSED;
      assert out[..HEADER_LEN] == out[0..4] + [out[4]] == FrameHeader(FLAG_COMPRESSED, |payload|);
      ghost var header := out[..HEADER_LEN];
      FrameCodec.CopyInto(out, HEADER_LEN, payload);
      assert out[..HEADER_LEN] == header;
      assert out[..total] == out[..HEADER_LEN] + out[HEADER_LEN..HEADER_LEN + |payload|];
    }

    method WriteCompressedFrame(payload: bytes) returns (ok: bool)
      requires |payload| < BLOCK_SIZE
      modifies this`out, out, dst
      ensures out == old(out) || fresh(out)
      ensures if ok then dst.got == old(dst.got) + FrameOf(FLAG_COMPRESSED, payload)
              else old(dst.got) <= dst.got <= old(dst.got) + FrameOf(FLAG_COMPRESSED, payload)
    {
      var total := FillFrame(payload);
      ok := WriteFull(dst, out[..total]);
    }

    method WriteRawFrame(payload: bytes) returns (ok: bool)
      requires |payload| <= BLOCK_SIZE
      modifies dst
      ensures if ok then dst.got == old(dst.got) + FrameOf(0, payload)
              else old(dst.got) <= dst.got <= old(dst.got) + FrameOf(0, payload)
    {
      var header := BE32(|payload|) + [0];
      ok := WriteFull(dst, header);
      if ok {
        ok := WriteFull(dst, payload);
      }
    }

    method WriteBlock(block: bytes) returns (ok: bool)
      requires |block| <= BLOCK_SIZE
      modifies this`out, this`rawStreak, this`rawOnly, out, dst
      ensures out == old(out) || fresh(out)
      ensures State() == FrameBlock(codec, old(State()), block).latch
      ensures var frame := FrameBlock(codec, old(State()), block).stream;
        if ok then dst.got == old(dst.got) + frame else old(dst.got) <= dst.got <= old(dst.got) + frame
    {
      if !rawOnly && |block| >= MIN_BLOCK_SIZE {
        var compressed := codec.deflate(block);
        if |compressed| < |block| {
          rawStreak := 0;
          ok := WriteCompressedFrame(compressed);
          return;
        }
        rawStreak := rawStreak + 1;
        if rawStreak >= BAD_BLOCK_LIMIT {
          rawOnly := true;
        }
      }
      ok := WriteRawFrame(block);
    }

    /** Writes the first block of the data. */
    method WriteFirst(p: bytes) returns (n: nat, ok: bool)
      requires p != []
      modifies this`out, this`rawStreak, this`rawOnly, out, dst
      ensures out == old(out) || fresh(out)
      ensures n == |FirstBlock(p)| && State() == FrameBlock(codec, old(State()), FirstBlock(p)).latch
      ensures var frame := FrameBlock(codec, old(State()), FirstBlock(p)).stream;
        if ok then dst.got == old(dst.got) + frame else old(dst.got) <= dst.got <= old(dst.got) + frame
    {
      n := |p|;
      if n > BLOCK_SIZE {
        n := BLOCK_SIZE;
      }
      assert p[..n] == FirstBlock(p);
      ok := WriteBlock(p[..n]);
    }

    /**
     * Writes everything as frames, or stops at the first failure: then `done` blocks are counted, their frames
     * are out, and the sink holds no more than a part of the frames that were to follow.
     */
    method Write(data: bytes) returns (total: nat, ok: bool, ghost done: nat)
      modifies this`out, this`rawStreak, this`rawOnly, out, dst
      ensures out == old(out) || fresh(out)
      ensures done <= |Blocks(data)| && total == |Flatten(Blocks(data)[..done])| <= |data|
      ensures var all := FrameBlocks(codec, old(State()), Blocks(data));
        if ok then total == |data| && dst.got == old(dst.got) + all.stream && State() == all.latch
        else old(dst.got) + FrameBlocks(codec, old(State()), Blocks(data)[..done]).stream <= dst.got <= old(dst.got) + all.stream
    {
      total, done := 0, 0;
      var p := data;
      ghost var bs, start, latch := Blocks(data), dst.got, State();
      BlocksFlatten(data);
      SentNone(codec, latch, bs, start);
      while p != []
        invariant done <= |bs| && Rest(bs, done, p) && Counted(bs, done, total) && total + |p| == |data|
        invariant Sent(codec, latch, bs, done, start, dst.got, State())
        invariant out == old(out) || fresh(out)
        decreases |p|
      {
        ghost var got, cur := dst.got, State();
        RestNext(bs, done, p);
        var n, fine := WriteFirst(p);
        if !fine {
          SentSome(codec, latch, bs, done, start, got, cur, dst.got);
          return total, false, done;
        }
        SentNext(codec, latch, bs, done, start, got, cur);
        CountedNext(bs, done, total);
        total, done := total + n, done + 1;
        p := p[n..];
      }
      assert done == |bs| && bs[..done] == bs;
      ok := true;
    }
  }

  /** What is left to write is the blocks from the k-th on. */
  ghost predicate Rest(bs: seq<bytes>, k: nat, p: bytes)
    requires k <= |bs|
  {
    bs[k..] == Blocks(p)
  }

  lemma RestNext(bs: seq<bytes>, k: nat, p: bytes)
    requires k <= |bs| && Rest(bs, k, p) && p != []
    ensures k < |bs| && bs[k] == FirstBlock(p) && Rest(bs, k + 1, p[|FirstBlock(p)|..])
  {
    assert bs[k..][1..] == bs[k + 1..];
  }

  ghost predicate Counted(bs: seq<bytes>, k: nat, total: nat)
    requires k <= |bs|
  {
    total == |Flatten(bs[..k])|
  }

  lemma CountedNext(bs: seq<bytes>, k: nat, total: nat)
    requires k < |bs| && Counted(bs, k, total)
    ensures Counted(bs, k + 1, total + |bs[k]|)
  {
    FlattenSnoc(bs[..k], bs[k]);
    assert bs[..k + 1] == bs[..k] + [bs[k]];
  }

  /** The first `k` blocks are out: what the sink holds, and the state of the writer. */
  ghost predicate Sent(c: Codec, l: Latch, bs: seq<bytes>, k: nat, start: bytes, got: bytes, now: Latch)
    requires k <= |bs|
  {
    got == start + FrameBlocks(c, l, bs[..k]).stream && now == FrameBlocks(c, l, bs[..k]).latch
  }

  lemma SentNone(c: Codec, l: Latch, bs: seq<bytes>, start: bytes)
    ensures Sent(c, l, bs, 0, start, start, l) && Counted(bs, 0, 0)
  {
    assert bs[..0] == [] && start + [] == start;
  }

  lemma SentNext(c: Codec, l: Latch, bs: seq<bytes>, k: nat, start: bytes, got: bytes, now: Latch)
    requires k < |bs| && Sent(c, l, bs, k, start, got, now)
    ensures var next := FrameBlock(c, now, bs[k]);
      Sent(c, l, bs, k + 1, start, got + next.stream, next.latch)
  {
    FrameBlocksStep(c, l, bs, k);
  }

  lemma SentSome(c: Codec, l: Latch, bs: seq<bytes>, k: nat, start: bytes, got: bytes, now: Latch, after: bytes)
    requires k < |bs| && Sent(c, l, bs, k, start, got, now)
    requires got <= after <= got + FrameBlock(c, now, bs[k]).stream
    ensures start + FrameBlocks(c, l, bs[..k]).stream <= after <= start + FrameBlocks(c, l, bs).stream
  {
    FrameBlocksStep(c, l, bs, k);
    var head, next, whole := FrameBlocks(c, l, bs[..k]).stream, FrameBlock(c, now, bs[k]).stream, FrameBlocks(c, l, bs).stream;
    Associative(start, head, next);
    PrefixesAppend(start, head + next, whole);
    PrefixTrans(after, got + next, start + whole);
  }

  /** One more block, and the frames after it are still those of the whole. */
  lemma FrameBlocksStep(c: Codec, l: Latch, bs: seq<bytes>, k: nat)
    requires k < |bs|
    ensures var x, y := FrameBlocks(c, l, bs[..k]), FrameBlocks(c, l, bs[..k + 1]);
      && y.latch == FrameBlock(c, x.latch, bs[k]).latch
      && y.stream == x.stream + FrameBlock(c, x.latch, bs[k]).stream
      && y.stream <= FrameBlocks(c, l, bs).stream
  {
    assert bs[..k + 1][..k] == bs[..k];
    assert bs[..k + 1] + bs[k + 1..] == bs;
    FrameBlocksAppend(c, l, bs[..k + 1], bs[k + 1..]);
  }
}
