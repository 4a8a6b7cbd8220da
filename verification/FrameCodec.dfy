/**
 * The v1 and v2 frame formats: byte-level encoders and readers (imperative, as in the program),
 * the format they implement, and the laws a stream of frames obeys.
 */
module FrameCodec {
  import opened Bytes

  const HEADER_LEN_V1 := 6
  const HEADER_LEN_V2 := 11
  const FLAG_FRAGMENT: byte := 1
  const FLAG_KEEPALIVE: byte := 2

  datatype Version = V1 | V2

  datatype FrameMeta = FrameMeta(flowID: uint32, flags: byte, fragID: uint16, fragIdx: byte, fragCnt: byte)

  datatype Frame = Frame(meta: FrameMeta, payload: bytes)

  /** The two ways `io.ReadFull` can come up short: nothing at all, or too little. */
  datatype ReadError = EOF | UnexpectedEOF

  datatype ReadResult = Read(frame: Frame, rest: bytes) | Failed(error: ReadError)

  /** Metadata of an unfragmented datagram; a v1 header carries nothing but its flow id. */
  function PlainMeta(flowID: uint32): FrameMeta {
    FrameMeta(flowID, 0, 0, 0, 1)
  }

  /** The frames a version can express without loss. */
  predicate Expressible(v: Version, f: Frame) {
    |f.payload| < 0x1_0000 && (v.V1? ==> f.meta == PlainMeta(f.meta.flowID))
  }

  // ----- the format -----

  function HeaderLen(v: Version): nat {
    if v.V1? then HEADER_LEN_V1 else HEADER_LEN_V2
  }

  function Header(v: Version, meta: FrameMeta, length: uint16): (h: bytes)
    ensures |h| == HeaderLen(v)
  {
    match v
    case V1 => BE32(meta.flowID) + BE16(length)
    case V2 => BE32(meta.flowID) + [meta.flags] + BE16(meta.fragID) + [meta.fragIdx, meta.fragCnt] + BE16(length)
  }

  /** The length field holds the payload length truncated to 16 bits, as the Go conversion does. */
  function Encode(v: Version, f: Frame): bytes {
    Header(v, f.meta, |f.payload| % 0x1_0000) + f.payload
  }

  function ParseMeta(v: Version, h: bytes): FrameMeta
    requires |h| == HeaderLen(v)
  {
    match v
    case V1 => PlainMeta(FromBE32(h[..4]))
    case V2 => FrameMeta(FromBE32(h[..4]), h[4], FromBE16(h[5..7]), h[7], h[8])
  }

  function ParseLength(v: Version, h: bytes): uint16
    requires |h| == HeaderLen(v)
  {
    FromBE16(h[HeaderLen(v) - 2..])
  }

  /** Reads one frame off the front of a byte stream. */
  function Parse(v: Version, b: bytes): ReadResult {
    var n := HeaderLen(v);
    if |b| < n then
      Failed(if b == [] then EOF else UnexpectedEOF)
    else
      var end := n + ParseLength(v, b[..n]);
      if |b| < end then
        Failed(if |b| == n then EOF else UnexpectedEOF)
      else
        Read(Frame(ParseMeta(v, b[..n]), b[n..end]), b[end..])
  }

  /** The v1 header on the wire: four bytes of flow id and two of length, the most significant first, then the payload. */
  lemma V1Layout(f: Frame, b: bytes)
    requires b == Encode(V1, f)
    ensures |b| == 6 + |f.payload| && b[6..] == f.payload
    ensures (b[0] as int) * 16777216 + (b[1] as int) * 65536 + (b[2] as int) * 256 + b[3] == f.meta.flowID
    ensures (b[4] as int) * 256 + b[5] == |f.payload| % 65536
  {
    BigEndian(|f.payload| % 0x1_0000, f.meta.flowID);
  }

  /** The v2 header: flow id, flags, fragment id, index, count and length, in eleven bytes. */
  lemma V2Layout(f: Frame, b: bytes)
    requires b == Encode(V2, f)
    ensures |b| == 11 + |f.payload| && b[11..] == f.payload
    ensures (b[0] as int) * 16777216 + (b[1] as int) * 65536 + (b[2] as int) * 256 + b[3] == f.meta.flowID
    ensures b[4] == f.meta.flags && (b[5] as int) * 256 + b[6] == f.meta.fragID
    ensures b[7] == f.meta.fragIdx && b[8] == f.meta.fragCnt && (b[9] as int) * 256 + b[10] == |f.payload| % 65536
  {
    BigEndian(|f.payload| % 0x1_0000, f.meta.flowID);
    BigEndian(f.meta.fragID, f.meta.flowID);
  }

  lemma HeaderRoundTrip(v: Version, meta: FrameMeta, length: uint16)
    requires v.V1? ==> meta == PlainMeta(meta.flowID)
    ensures ParseMeta(v, Header(v, meta, length)) == meta
    ensures ParseLength(v, Header(v, meta, length)) == length
  {
    var h := Header(v, meta, length);
    assert h[..4] == BE32(meta.flowID);
    assert h[HeaderLen(v) - 2..] == BE16(length);
    BE32RoundTrip(meta.flowID);
    BE16RoundTrip(length);
    if v.V2? {
      assert h[5..7] == BE16(meta.fragID);
      BE16RoundTrip(meta.fragID);
    }
  }

  /** A frame put on a stream is read back, and reading consumes exactly its bytes. */
  lemma ParseEncode(v: Version, f: Frame, rest: bytes)
    requires Expressible(v, f)
    ensures Parse(v, Encode(v, f) + rest) == Read(f, rest)
  {
    var b := Encode(v, f) + rest;
    var n := HeaderLen(v);
    var h := Header(v, f.meta, |f.payload|);
    HeaderRoundTrip(v, f.meta, |f.payload|);
    assert b[..n] == h;
    assert b[n..n + |f.payload|] == f.payload;
    assert b[n + |f.payload|..] == rest;
  }

  /** The 16-bit length field is the only obstacle: a v2 frame survives exactly when its payload fits it. */
  lemma RoundTripExactly(f: Frame)
    ensures Parse(V2, Encode(V2, f)) == Read(f, []) <==> |f.payload| < 0x1_0000
  {
    if |f.payload| < 0x1_0000 {
      ParseEncode(V2, f, []);
      assert Encode(V2, f) + [] == Encode(V2, f);
    } else {
      var b := Encode(V2, f);
      HeaderRoundTrip(V2, f.meta, |f.payload| % 0x1_0000);
      assert b[..HEADER_LEN_V2] == Header(V2, f.meta, |f.payload| % 0x1_0000);
    }
  }

  lemma SlicesOfV2(h: bytes)
    requires |h| == HEADER_LEN_V2
    ensures h == h[..4] + [h[4]] + h[5..7] + [h[7], h[8]] + h[9..]
  {
  }

  lemma HeaderOfParsed(v: Version, h: bytes)
    requires |h| == HeaderLen(v)
    ensures Header(v, ParseMeta(v, h), ParseLength(v, h)) == h
  {
    FromBE32RoundTrip(h[..4]);
    FromBE16RoundTrip(h[HeaderLen(v) - 2..]);
    if v.V1? {
      assert h == h[..4] + h[4..];
    } else {
      FromBE16RoundTrip(h[5..7]);
      SlicesOfV2(h);
    }
  }

  lemma ThreeParts(b: bytes, m: nat, n: nat)
    requires m <= n <= |b|
    ensures b == b[..m] + b[m..n] + b[n..] && |b[m..n]| == n - m
  {
  }

  lemma ParseRead(v: Version, b: bytes, h: bytes, length: uint16, end: nat)
    requires Parse(v, b).Read? && h == b[..HeaderLen(v)] && length == ParseLength(v, h) && end == HeaderLen(v) + length
    ensures end <= |b| && Parse(v, b) == Read(Frame(ParseMeta(v, h), b[HeaderLen(v)..end]), b[end..])
  {
  }

  lemma MetaExpressible(v: Version, h: bytes)
    requires |h| == HeaderLen(v)
    ensures v.V1? ==> ParseMeta(v, h) == PlainMeta(ParseMeta(v, h).flowID)
  {
  }

  lemma EncodeWhole(v: Version, f: Frame, h: bytes, length: uint16)
    requires |f.payload| == length && Header(v, f.meta, length) == h
    ensures Encode(v, f) == h + f.payload
  {
    ModSmall(length);
  }

  lemma ModSmall(n: nat)
    requires n < 0x1_0000
    ensures n % 0x1_0000 == n
  {
  }

  /** The reader inverts the encoder from the other side too: whatever it accepts is an encoding. */
  lemma EncodeParse(v: Version, b: bytes)
    requires Parse(v, b).Read?
    ensures Expressible(v, Parse(v, b).frame)
    ensures b == Encode(v, Parse(v, b).frame) + Parse(v, b).rest
  {
    var n := HeaderLen(v);
    var h := b[..n];
    var length := ParseLength(v, h);
    ParseRead(v, b, h, length, n + length);
    HeaderOfParsed(v, h);
    MetaExpressible(v, h);
    ThreeParts(b, n, n + length);
    EncodeWhole(v, Parse(v, b).frame, h, length);
  }

  // ----- streams of frames -----

  function EncodeAll(v: Version, fs: seq<Frame>): bytes {
    if fs == [] then [] else Encode(v, fs[0]) + EncodeAll(v, fs[1..])
  }

  datatype StreamResult = StreamResult(frames: seq<Frame>, error: ReadError)

  /** What a read loop sees: every frame up to the first error, and that error. */
  function ReadStream(v: Version, b: bytes): StreamResult
    decreases |b|
  {
    match Parse(v, b)
    case Failed(e) => StreamResult([], e)
    case Read(f, rest) =>
      var s := ReadStream(v, rest);
      StreamResult([f] + s.frames, s.error)
  }

  ghost predicate AllExpressible(v: Version, fs: seq<Frame>) {
    forall i :: 0 <= i < |fs| ==> Expressible(v, fs[i])
  }

  lemma ReadStreamOnce(v: Version, b: bytes, f: Frame, rest: bytes)
    requires Parse(v, b) == Read(f, rest)
    ensures ReadStream(v, b) == StreamResult([f] + ReadStream(v, rest).frames, ReadStream(v, rest).error)
  {
  }

  lemma ReadStreamFrame(v: Version, f: Frame, more: bytes, tail: bytes)
    requires Expressible(v, f)
    ensures ReadStream(v, (Encode(v, f) + more) + tail)
         == StreamResult([f] + ReadStream(v, more + tail).frames, ReadStream(v, more + tail).error)
  {
    Associative(Encode(v, f), more, tail);
    ParseEncode(v, f, more + tail);
    ReadStreamOnce(v, Encode(v, f) + (more + tail), f, more + tail);
  }

  lemma EncodeAllCons(v: Version, fs: seq<Frame>)
    requires fs != []
    ensures EncodeAll(v, fs) == Encode(v, fs[0]) + EncodeAll(v, fs[1..])
  {
  }

  lemma {:induction false} ReadStreamPrefix(v: Version, fs: seq<Frame>, tail: bytes)
    requires AllExpressible(v, fs)
    ensures ReadStream(v, EncodeAll(v, fs) + tail)
         == StreamResult(fs + ReadStream(v, tail).frames, ReadStream(v, tail).error)
  {
    var rest := ReadStream(v, tail);
    if fs == [] {
      assert EncodeAll(v, fs) + tail == tail;
      assert fs + rest.frames == rest.frames;
    } else {
      var more := EncodeAll(v, fs[1..]);
      calc {
        ReadStream(v, EncodeAll(v, fs) + tail);
        { EncodeAllCons(v, fs); }
        ReadStream(v, (Encode(v, fs[0]) + more) + tail);
        { ReadStreamFrame(v, fs[0], more, tail); }
        StreamResult([fs[0]] + ReadStream(v, more + tail).frames, ReadStream(v, more + tail).error);
        { ReadStreamPrefix(v, fs[1..], tail); }
        StreamResult([fs[0]] + (fs[1..] + rest.frames), rest.error);
        { assert [fs[0]] + (fs[1..] + rest.frames) == fs + rest.frames; }
        StreamResult(fs + rest.frames, rest.error);
      }
    }
  }

  /** Any list of frames written back to back is read back as exactly that list, then a clean end. */
  lemma StreamRoundTrip(v: Version, fs: seq<Frame>)
    requires AllExpressible(v, fs)
    ensures ReadStream(v, EncodeAll(v, fs)) == StreamResult(fs, EOF)
  {
    ReadStreamPrefix(v, fs, []);
    assert EncodeAll(v, fs) + [] == EncodeAll(v, fs);
    assert ReadStream(v, []) == StreamResult([], EOF);
  }

  lemma CutHeader(v: Version, f: Frame, cut: nat)
    requires |f.payload| < 0x1_0000 && HeaderLen(v) <= cut <= |Encode(v, f)|
    ensures Encode(v, f)[..cut][..HeaderLen(v)] == Header(v, f.meta, |f.payload|)
  {
    var h := Header(v, f.meta, |f.payload|);
    assert Encode(v, f) == h + f.payload && |h| == HeaderLen(v);
    assert (h + f.payload)[..cut][..|h|] == h;
  }

  /** A frame that is cut does not parse, and the error tells where it was cut. */
  lemma CutFrame(v: Version, f: Frame, cut: nat)
    requires Expressible(v, f) && cut < |Encode(v, f)|
    ensures Parse(v, Encode(v, f)[..cut]) == Failed(if cut == 0 || cut == HeaderLen(v) then EOF else UnexpectedEOF)
  {
    if HeaderLen(v) <= cut {
      HeaderRoundTrip(v, f.meta, |f.payload|);
      CutHeader(v, f, cut);
    }
  }

  /**
   * A stream cut inside a frame yields the complete frames and then an error. The error is the
   * clean-looking `EOF` exactly when the cut falls right after a header: there the reader cannot
   * tell a truncated frame from the end of the stream.
   */
  lemma CutStream(v: Version, fs: seq<Frame>, last: Frame, cut: nat)
    requires AllExpressible(v, fs) && Expressible(v, last)
    requires cut < |Encode(v, last)|
    ensures ReadStream(v, EncodeAll(v, fs) + Encode(v, last)[..cut])
         == StreamResult(fs, if cut == 0 || cut == HeaderLen(v) then EOF else UnexpectedEOF)
  {
    var tail := Encode(v, last)[..cut];
    CutFrame(v, last, cut);
    assert ReadStream(v, tail) == StreamResult([], if cut == 0 || cut == HeaderLen(v) then EOF else UnexpectedEOF);
    ReadStreamPrefix(v, fs, tail);
    assert fs + [] == fs;
  }

  // ----- encoders filling a buffer by index -----

  method PutUint32(buf: array<byte>, at: nat, x: uint32)
    requires at + 4 <= buf.Length
    modifies buf
    ensures buf[at..at + 4] == BE32(x)
    ensures forall i :: 0 <= i < buf.Length && !(at <= i < at + 4) ==> buf[i] == old(buf[i])
  {
    buf[at] := x / 0x100_0000;
    buf[at + 1] := x / 0x1_0000 % 0x100;
    buf[at + 2] := x / 0x100 % 0x100;
    buf[at + 3] := x % 0x100;
  }

  method PutUint16(buf: array<byte>, at: nat, x: uint16)
    requires at + 2 <= buf.Length
    modifies buf
    ensures buf[at..at + 2] == BE16(x)
    ensures forall i :: 0 <= i < buf.Length && !(at <= i < at + 2) ==> buf[i] == old(buf[i])
  {
    buf[at] := x / 0x100;
    buf[at + 1] := x % 0x100;
  }

  /** Go's `copy(buf[at:], src)` where the source fits. */
  method CopyInto(buf: array<byte>, at: nat, src: bytes)
    requires at + |src| <= buf.Length
    modifies buf
    ensures buf[at..at + |src|] == src
    ensures forall i :: 0 <= i < buf.Length && !(at <= i < at + |src|) ==> buf[i] == old(buf[i])
  {
    for k := 0 to |src|
      invariant buf[at..at + k] == src[..k]
      invariant forall i :: 0 <= i < buf.Length && !(at <= i < at + k) ==> buf[i] == old(buf[i])
    {
      buf[at + k] := src[k];
      assert buf[at..at + k + 1] == buf[at..at + k] + [src[k]];
    }
  }

  method EncodeUDPFrame(flowID: uint32, payload: bytes) returns (frame: array<byte>)
    ensures fresh(frame)
    ensures frame[..] == Encode(V1, Frame(PlainMeta(flowID), payload))
  {
    frame := new byte[HEADER_LEN_V1 + |payload|];
    PutUint32(frame, 0, flowID);
    PutUint16(frame, 4, |payload| % 0x1_0000);
    CopyInto(frame, HEADER_LEN_V1, payload);
    assert frame[..] == frame[0..4] + frame[4..6] + frame[6..6 + |payload|];
  }

  method EncodeUDPFrameV2(meta: FrameMeta, payload: bytes) returns (frame: array<byte>)
    ensures fresh(frame)
    ensures frame[..] == Encode(V2, Frame(meta, payload))
  {
    frame := new byte[HEADER_LEN_V2 + |payload|];
    PutUint32(frame, 0, meta.flowID);
    frame[4] := meta.flags;
    PutUint16(frame, 5, meta.fragID);
    frame[7] := meta.fragIdx;
    frame[8] := meta.fragCnt;
    PutUint16(frame, 9, |payload| % 0x1_0000);
    CopyInto(frame, HEADER_LEN_V2, payload);
    assert frame[..] == frame[0..4] + [frame[4]] + frame[5..7] + [frame[7], frame[8]] + frame[9..11] + frame[11..11 + |payload|];
  }

  // ----- readers -----

  /** An ordered byte stream (an SSH channel) with what is still to be read. */
  class ByteReader {
    var data: bytes

    constructor (data: bytes)
      ensures this.data == data
    {
      this.data := data;
    }

    /** `io.ReadFull` into a buffer of n bytes; a short stream is consumed to its end. */
    method ReadFull(n: nat) returns (buf: bytes, err: Option<ReadError>)
      modifies this
      ensures n <= |old(data)| ==> err == None && buf == old(data)[..n] && data == old(data)[n..]
      ensures n > |old(data)| ==> data == [] && err == Some(if old(data) == [] then EOF else UnexpectedEOF)
    {
      if n <= |data| {
        buf, err := data[..n], None;
        data := data[n..];
      } else {
        buf, err := data, Some(if data == [] then EOF else UnexpectedEOF);
        data := [];
      }
    }
  }

  method ReadUDPFrame(r: ByteReader) returns (flowID: uint32, payload: bytes, err: Option<ReadError>)
    modifies r
    ensures match Parse(V1, old(r.data))
            case Read(f, rest) => err == None && f.meta == PlainMeta(flowID) && payload == f.payload && r.data == rest
            case Failed(e) => err == Some(e) && r.data == []
  {
    flowID, payload := 0, [];
    var hdr;
    hdr, err := r.ReadFull(HEADER_LEN_V1);
    if err.Some? {
      return;
    }
    var length := FromBE16(hdr[4..6]);
    assert hdr[4..6] == hdr[4..];
    if length > 0 {
      payload, err := r.ReadFull(length);
      if err.Some? {
        payload := [];
        return;
      }
    }
    flowID := FromBE32(hdr[0..4]);
  }

  method ReadUDPFrameV2(r: ByteReader) returns (meta: FrameMeta, payload: bytes, err: Option<ReadError>)
    modifies r
    ensures match Parse(V2, old(r.data))
            case Read(f, rest) => err == None && f == Frame(meta, payload) && r.data == rest
            case Failed(e) => err == Some(e) && r.data == []
  {
    meta, payload := FrameMeta(0, 0, 0, 0, 0), [];
    var hdr;
    hdr, err := r.ReadFull(HEADER_LEN_V2);
    if err.Some? {
      return;
    }
    meta := FrameMeta(FromBE32(hdr[0..4]), hdr[4], FromBE16(hdr[5..7]), hdr[7], hdr[8]);
    var length := FromBE16(hdr[9..11]);
    assert hdr[9..11] == hdr[9..];
    if length > 0 {
      payload, err := r.ReadFull(length);
      if err.Some? {
        payload := [];
      }
    }
  }

  /** The slice parser of datagram mode, field by field; `None` for a slice too short for its fields. */
  method ParseUDPFrameV2Bytes(b: bytes) returns (r: Option<Frame>)
    ensures r == FrameOfSlice(b)
  {
    if |b| < HEADER_LEN_V2 {
      return None;
    }
    var meta := FrameMeta(FromBE32(b[0..4]), b[4], FromBE16(b[5..7]), b[7], b[8]);
    var length := FromBE16(b[9..11]);
    var h := b[..HEADER_LEN_V2];
    assert h[..4] == b[0..4] && h[5..7] == b[5..7] && h[9..] == b[9..11];
    if HEADER_LEN_V2 + length > |b| {
      return None;
    }
    var payload := new byte[length];
    CopyInto(payload, 0, b[HEADER_LEN_V2..HEADER_LEN_V2 + length]);
    assert payload[0..0 + length] == payload[..];
    r := Some(Frame(meta, payload[..]));
  }

  /** The slice parser succeeds exactly when the stream reader does, with the same frame. */
  function FrameOfSlice(b: bytes): Option<Frame> {
    match Parse(V2, b)
    case Read(f, _) => Some(f)
    case Failed(_) => None
  }

  /** A slice holds a frame exactly when it is long enough for its header and its payload; what follows is ignored. */
  lemma SliceParsesExactly(f: Frame, more: bytes, b: bytes)
    requires |f.payload| < 0x1_0000
    ensures FrameOfSlice(Encode(V2, f) + more) == Some(f)
    ensures FrameOfSlice(b).Some? <==> |b| >= 11 && |b| >= 11 + (b[9] as int) * 256 + b[10]
  {
    ParseEncode(V2, f, more);
    if |b| >= 11 {
      assert b[..11][9..] == [b[9], b[10]];
    }
  }
}
