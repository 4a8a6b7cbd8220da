/**
 * What one received v2 frame means to the client: a keepalive, a whole datagram, or a fragment for the
 * reassembler. The functions specify the receive side of the UDP proxy.
 */
module Decoding {
  import opened Bytes
  import opened FrameCodec
  import opened Reassembly

  datatype Packet = Packet(flowID: uint32, payload: bytes)

  datatype Decoded = Decoded(slots: Slots, packet: Option<Packet>)

  predicate IsKeepalive(f: Frame) {
    HasBit(f.meta.flags, 2)
  }

  function KeepaliveFrame(flowID: uint32): Frame {
    Frame(FrameMeta(flowID, FLAG_KEEPALIVE, 0, 0, 1), [])
  }

  predicate IsFragment(f: Frame) {
    HasBit(f.meta.flags, 1)
  }

  lemma PlainFlags(flowID: uint32, payload: bytes)
    ensures !IsKeepalive(Frame(PlainMeta(flowID), payload)) && !IsFragment(Frame(PlainMeta(flowID), payload))
  {
  }

  lemma FragmentFlags(f: Frame)
    requires f.meta.flags == FLAG_FRAGMENT
    ensures !IsKeepalive(f) && IsFragment(f)
  {
  }

  lemma KeepaliveFlags(flowID: uint32)
    ensures IsKeepalive(KeepaliveFrame(flowID))
  {
  }

  /** A fragment goes to the reassembler; the last one of a datagram brings the datagram out. */
  function AddFragment(slots: Slots, now: int, meta: FrameMeta, payload: bytes): (r: Decoded)
    requires SlotsOk(slots)
    ensures SlotsOk(r.slots)
  {
    AddKeepsInvariant(slots, now, meta.flowID, meta, payload);
    var r := AddStep(slots, now, meta.flowID, meta, payload);
    Decoded(r.slots, if r.datagram.Some? then Some(Packet(meta.flowID, r.datagram.value)) else None)
  }

  function DecodeFrame(slots: Slots, now: int, f: Frame): (r: Decoded)
    requires SlotsOk(slots)
    ensures SlotsOk(r.slots)
  {
    if IsKeepalive(f) then
      Decoded(slots, None)
    else if !IsFragment(f) then
      Decoded(slots, Some(Packet(f.meta.flowID, f.payload)))
    else
      AddFragment(slots, now, f.meta, f.payload)
  }

  /** A malformed slice is dropped. */
  function DecodeSlice(slots: Slots, now: int, b: bytes): (r: Decoded)
    requires SlotsOk(slots)
    ensures SlotsOk(r.slots)
  {
    match FrameOfSlice(b)
    case None => Decoded(slots, None)
    case Some(f) => DecodeFrame(slots, now, f)
  }

  lemma FlagBits(fragment: bool, keepalive: bool, high: nat, flags: byte)
    requires high < 64 && flags == (if fragment then 1 else 0) + (if keepalive then 2 else 0) + 4 * high
    ensures HasBit(flags, 1) == fragment && HasBit(flags, 2) == keepalive
  {
  }

  /**
   * What the flag bits of a frame mean: with the second set it is a keepalive and brings nothing, with neither it is a
   * whole datagram, with only the first a fragment; the other bits mean nothing.
   */
  lemma FlagsDecide(slots: Slots, now: int, fragment: bool, keepalive: bool, high: nat, f: Frame)
    requires SlotsOk(slots) && high < 64
    requires f.meta.flags == (if fragment then 1 else 0) + (if keepalive then 2 else 0) + 4 * high
    ensures var r := DecodeFrame(slots, now, f);
      if keepalive then r == Decoded(slots, None)
      else if !fragment then r == Decoded(slots, Some(Packet(f.meta.flowID, f.payload)))
      else r == AddFragment(slots, now, f.meta, f.payload)
  {
    FlagBits(fragment, keepalive, high, f.meta.flags);
  }

  /** A keepalive on the wire: eleven bytes with the second flag bit and nothing else but a count of one. */
  lemma KeepaliveLayout(flowID: uint32)
    ensures Encode(V2, KeepaliveFrame(flowID)) == BE32(flowID) + [2, 0, 0, 0, 1, 0, 0]
  {
  }

  /** Encoding then decoding a frame is decoding the frame. */
  lemma DecodeEncoded(slots: Slots, now: int, f: Frame)
    requires SlotsOk(slots) && |f.payload| < 0x1_0000
    ensures DecodeSlice(slots, now, Encode(V2, f)) == DecodeFrame(slots, now, f)
  {
    RoundTripExactly(f);
  }
}
