/**
 * The UDP proxy as an object: it writes datagrams as frames, reads frames as datagrams, and keeps its flow
 * table fresh. The methods follow the program's code; the functions of the other modules specify them.
 */
module UdpProxy {
  import opened Bytes
  import opened FrameCodec
  import opened Fragmentation
  import opened Reassembly
  import opened Decoding
  import opened FlowTimers
  import opened Relay

  /** A data channel or a QUIC datagram connection: each write is atomic and may fail. */
  class FrameSink {
    var sent: seq<bytes>
    var open: bool

    constructor ()
      ensures sent == [] && open
    {
      sent, open := [], true;
    }

    method Write(frame: bytes) returns (ok: bool)
      modifies `sent
      ensures sent == if ok then old(sent) + [frame] else old(sent)
    {
      ok := *;
      if ok {
        sent := sent + [frame];
      }
    }

    method Close()
      modifies `open
      ensures !open
    {
      open := false;
    }
  }

  /** The connected UDP socket dialled for one flow: the datagrams still to be read from it, and those sent on it. */
  class LocalSocket {
    ghost const owner: uint32
    var inbound: seq<bytes>
    var outbound: seq<bytes>
    var open: bool

    constructor (ghost owner: uint32, inbound: seq<bytes>)
      ensures this.owner == owner && this.inbound == inbound && outbound == [] && open
    {
      this.owner, this.inbound, outbound, open := owner, inbound, [], true;
    }

    method Write(d: bytes) returns (ok: bool)
      modifies `outbound
      ensures outbound == if ok then old(outbound) + [d] else old(outbound)
    {
      ok := *;
      if ok {
        outbound := outbound + [d];
      }
    }

    /** One datagram, cut to the size of the buffer as the operating system does; an error when none is left. */
    method Read(size: nat) returns (d: bytes, ok: bool)
      modifies `inbound
      ensures ok == (old(inbound) != [])
      ensures ok ==> d == CutTo(old(inbound)[0], size) && inbound == old(inbound)[1..]
      ensures !ok ==> inbound == old(inbound)
    {
      if inbound == [] {
        return [], false;
      }
      d, ok := CutTo(inbound[0], size), true;
      inbound := inbound[1..];
    }

    method Close()
      modifies `open
      ensures !open
    {
      open := false;
    }
  }

  function CutTo(d: bytes, size: nat): bytes {
    if |d| <= size then d else d[..size]
  }

  class ClientFlow {
    const flowID: uint32
    const uplink: LocalSocket
    var lastSeen: int
    var keepalives: nat
    var removed: bool

    constructor (flowID: uint32, uplink: LocalSocket, now: int)
      ensures this.flowID == flowID && this.uplink == uplink && !removed && State() == FlowState(now, 0)
    {
      this.flowID, this.uplink, this.lastSeen, this.keepalives, this.removed := flowID, uplink, now, 0, false;
    }

    function State(): FlowState
      reads this
    {
      FlowState(lastSeen, keepalives)
    }
  }

  // ----- the read buffer -----

  /** The pooled buffer is one byte longer than the largest datagram the session sends. */
  function ReadBufferSize(l: Limits): nat {
    if l.fragEnabled then MAX_DATAGRAM + 1 else EffectiveMaxPacketSize(l) + 1
  }

  /** A read buffer of this size never makes the proxy forward a datagram that was cut. */
  ghost predicate BufferNeverCuts(l: Limits, size: nat) {
    forall d: bytes, id: uint32, flowID: uint32 ::
      PlanWrite(l, id, flowID, CutTo(d, size)).frames == PlanWrite(l, id, flowID, d).frames
  }

  /** The spare byte is what it takes: a buffer is safe exactly when it is longer than every datagram sent. */
  lemma BufferNeverCutsExactly(l: Limits, size: nat)
    requires l.fragEnabled ==> l.fragPayloadMax > 0
    ensures BufferNeverCuts(l, size) <==> size > LongestSent(l)
  {
    if size > LongestSent(l) {
      forall d: bytes, id: uint32, flowID: uint32
        ensures PlanWrite(l, id, flowID, CutTo(d, size)).frames == PlanWrite(l, id, flowID, d).frames
      {
        SentExactly(l, id, flowID, d);
        SentExactly(l, id, flowID, CutTo(d, size));
      }
    } else {
      var longest := LongestSent(l);
      var d: bytes := seq(longest + 1, _ => 0);
      var cut: bytes := CutTo(d, size);
      SentExactly(l, 0, 0, d);
      SentExactly(l, 0, 0, cut);
      assert PlanWrite(l, 0, 0, cut).frames != PlanWrite(l, 0, 0, d).frames;
    }
  }

  /** Every negotiated session reads with a safe buffer, whatever the local service sends. */
  lemma PumpNeverCuts(l: Limits)
    requires l.fragEnabled ==> l.fragPayloadMax > 0
    ensures BufferNeverCuts(l, ReadBufferSize(l))
  {
    BufferNeverCutsExactly(l, ReadBufferSize(l));
  }

  lemma CutPlansTheSame(l: Limits, id: uint32, flowID: uint32, d: bytes)
    requires l.fragEnabled ==> l.fragPayloadMax > 0
    ensures PlanWrite(l, id, flowID, CutTo(d, ReadBufferSize(l))) == PlanWrite(l, id, flowID, d)
  {
    SentExactly(l, id, flowID, d);
    SentExactly(l, id, flowID, CutTo(d, ReadBufferSize(l)));
  }

  class Proxy {
    const ch: FrameSink
    const chs: seq<FrameSink>
    const datagram: FrameSink?
    const port: nat
    const limits: Limits
    const idleTimeout: int
    const reasm: Reassembler
    var nextFragID: uint32
    var flows: map<uint32, ClientFlow>

    constructor (ch: FrameSink, chs: seq<FrameSink>, datagram: FrameSink?, port: nat, limits: Limits, idleTimeout: int)
      requires datagram != null ==> limits.fragEnabled
      ensures Wired() && TableOk() && reasm.Valid() && fresh(reasm.Repr)
      ensures nextFragID == 0 && flows == map[] && reasm.View() == map[]
      ensures this.ch == ch && this.chs == chs && this.datagram == datagram
      ensures this.port == port && this.limits == limits && this.idleTimeout == idleTimeout
    {
      var r := new Reassembler();
      this.ch, this.chs, this.datagram, this.port := ch, chs, datagram, port;
      this.limits, this.idleTimeout, this.reasm := limits, idleTimeout, r;
      this.nextFragID, this.flows := 0, map[];
    }

    /** Datagram mode is only negotiated together with v2 frames. */
    predicate Wired() {
      datagram != null ==> limits.fragEnabled
    }

    // ----- where frames go -----

    function ChannelFor(flowID: uint32): FrameSink {
      if chs == [] then ch else chs[ShardIndex(flowID, |chs|)]
    }

    function Endpoint(flowID: uint32): FrameSink {
      if datagram != null then datagram else ChannelFor(flowID)
    }

    /** A frame as it goes out: bare on a channel, behind the 16-bit port in a QUIC datagram. */
    function Envelope(f: Frame): bytes {
      if datagram != null then DatagramOf(port % 0x1_0000, f) else Encode(Wire(limits), f)
    }

    function Envelopes(fs: seq<Frame>): seq<bytes> {
      seq(|fs|, i requires 0 <= i < |fs| => Envelope(fs[i]))
    }

    /** A failed write: only a strict prefix of the frames went out. */
    ghost predicate StoppedWithin(before: seq<bytes>, fs: seq<Frame>, after: seq<bytes>) {
      before <= after < before + Envelopes(fs)
    }

    // ----- what comes out at the other end -----

    /** What is decoded, all at one time and from an empty table, of what went out with nothing else on the way. */
    function Heard(out: seq<bytes>, now: int): seq<Packet> {
      if datagram != null then ReadDatagrams(map[], now, out).0
      else ReadAll(limits, map[], map[], now, Flatten(out)).packets
    }

    /** The local datagrams of a flow that are not too long, in order, come out; or the first few of them. */
    ghost predicate Brings(out: seq<bytes>, flowID: uint32, ds: seq<bytes>, all: bool) {
      forall now: int :: BringsAt(out, flowID, ds, all, now)
    }

    ghost predicate BringsAt(out: seq<bytes>, flowID: uint32, ds: seq<bytes>, all: bool, now: int) {
      var packets := Carried(Writes(flowID, ds), LongestSent(limits));
      if all then Heard(out, now) == packets else Heard(out, now) <= packets
    }

    lemma {:induction false} FlattenEnvelopes(fs: seq<Frame>)
      requires datagram == null
      ensures Flatten(Envelopes(fs)) == EncodeAll(Wire(limits), fs)
    {
      if fs != [] {
        assert Envelopes(fs)[1..] == Envelopes(fs[1..]);
        FlattenEnvelopes(fs[1..]);
      }
    }

    lemma HeardFrames(fs: seq<Frame>, now: int)
      requires Wired() && AllExpressible(Wire(limits), fs)
      ensures Heard(Envelopes(fs), now) == ReceiveAll(limits, map[], map[], now, fs).packets
    {
      if datagram != null {
        assert Envelopes(fs) == DatagramsOf(port % 0x1_0000, fs);
        ReadDatagramsIsReceiveAll(limits, map[], map[], now, port % 0x1_0000, fs);
      } else {
        FlattenEnvelopes(fs);
        ReadAllIsReceiveAll(limits, map[], map[], now, fs);
      }
    }

    lemma PrefixOfEnvelopes(before: seq<bytes>, fs: seq<Frame>, after: seq<bytes>) returns (k: nat)
      requires StoppedWithin(before, fs, after)
      ensures k < |fs| && after[|before|..] == Envelopes(fs[..k])
    {
      k := |after| - |before|;
    }

    /** What a pump put out, all of it or until a write failed. */
    lemma ForwardedBrings(id: uint32, flowID: uint32, ds: seq<bytes>, before: seq<bytes>, after: seq<bytes>, all: bool)
      requires Wired() && (limits.fragEnabled ==> limits.fragPayloadMax > 0)
      requires var fs := Forwarded(limits, id, flowID, ds).frames;
        if all then after == before + Envelopes(fs) else StoppedWithin(before, fs, after)
      ensures before <= after && (Fits(ds) ==> Brings(after[|before|..], flowID, ds, all))
    {
      if Fits(ds) {
        FitsBring(id, flowID, ds, before, after, all);
      }
    }

    /** No datagram overflows the length field of a v1 frame. */
    predicate Fits(ds: seq<bytes>) {
      !limits.fragEnabled ==> forall d :: d in ds ==> |d| < 0x1_0000
    }

    lemma FitsBring(id: uint32, flowID: uint32, ds: seq<bytes>, before: seq<bytes>, after: seq<bytes>, all: bool)
      requires Wired() && (limits.fragEnabled ==> limits.fragPayloadMax > 0) && Fits(ds)
      requires var fs := Forwarded(limits, id, flowID, ds).frames;
        if all then after == before + Envelopes(fs) else StoppedWithin(before, fs, after)
      ensures before <= after && Brings(after[|before|..], flowID, ds, all)
    {
      var ws, fs := Writes(flowID, ds), Forwarded(limits, id, flowID, ds).frames;
      ForwardedIsPlanAll(limits, id, flowID, ds);
      SessionExpressible(limits, id, ws);
      var k := |fs|;
      if all {
        assert after[|before|..] == Envelopes(fs) && fs[..k] == fs;
      } else {
        k := PrefixOfEnvelopes(before, fs, after);
      }
      forall now: int ensures BringsAt(after[|before|..], flowID, ds, all, now) {
        ReceiveWrites(limits, id, ws, map[], map[], now);
        PrefixReceived(limits, map[], map[], now, fs, k);
        HeardFrames(fs[..k], now);
      }
    }

    // ----- writing -----

    method WriteFrame(flowID: uint32, payload: bytes) returns (ok: bool)
      requires datagram == null && !limits.fragEnabled
      modifies Endpoint(flowID)`sent
      ensures Endpoint(flowID).sent
           == old(Endpoint(flowID).sent) + if ok then [Envelope(Frame(PlainMeta(flowID), payload))] else []
    {
      var frame := EncodeUDPFrame(flowID, payload);
      ok := ChannelFor(flowID).Write(frame[..]);
    }

    method WriteFrameV2(meta: FrameMeta, payload: bytes) returns (ok: bool)
      requires limits.fragEnabled
      modifies Endpoint(meta.flowID)`sent
      ensures Endpoint(meta.flowID).sent
           == old(Endpoint(meta.flowID).sent) + if ok then [Envelope(Frame(meta, payload))] else []
    {
      if datagram != null {
        ok := SendDatagramFrame(meta, payload);
        return;
      }
      var frame := EncodeUDPFrameV2(meta, payload);
      ok := ChannelFor(meta.flowID).Write(frame[..]);
    }

    method SendDatagramFrame(meta: FrameMeta, payload: bytes) returns (ok: bool)
      requires datagram != null
      modifies datagram`sent
      ensures datagram.sent == old(datagram.sent) + if ok then [Envelope(Frame(meta, payload))] else []
    {
      var frame := EncodeUDPFrameV2(meta, payload);
      var buf := new byte[2 + frame.Length];
      PutUint16(buf, 0, port % 0x1_0000);
      CopyInto(buf, 2, frame[..]);
      assert buf[0..2] == BE16(port % 0x1_0000);
      assert buf[..] == buf[0..2] + buf[2..2 + |frame[..]|];
      ok := datagram.Write(buf[..]);
    }

    /** Cuts out and writes one fragment. */
    method WriteFragment(flowID: uint32, payload: bytes, fragID: uint16, i: nat, fragCnt: nat) returns (ok: bool)
      requires NeedsFragments(limits, payload)
      requires i < fragCnt == |Split(payload, limits.fragPayloadMax)| <= MAX_FRAGMENTS
      modifies Endpoint(flowID)`sent
      ensures Endpoint(flowID).sent == old(Endpoint(flowID).sent)
           + if ok then [Envelope(FragmentFrame(flowID, fragID, Split(payload, limits.fragPayloadMax), i))] else []
    {
      PieceIsSlice(payload, limits.fragPayloadMax, i);
      var start := i * limits.fragPayloadMax;
      var end := start + limits.fragPayloadMax;
      if end > |payload| {
        end := |payload|;
      }
      ok := WriteFrameV2(FrameMeta(flowID, FLAG_FRAGMENT, fragID, i, fragCnt), payload[start..end]);
    }

    /** The loop over the fragments of a datagram too long for one frame. */
    method WriteFragments(flowID: uint32, payload: bytes, fragID: uint16) returns (ok: bool)
      requires NeedsFragments(limits, payload) && |Split(payload, limits.fragPayloadMax)| <= MAX_FRAGMENTS
      modifies Endpoint(flowID)`sent
      ensures var fs := FragmentFrames(flowID, fragID, Split(payload, limits.fragPayloadMax));
        if ok then Endpoint(flowID).sent == old(Endpoint(flowID).sent) + Envelopes(fs)
        else StoppedWithin(old(Endpoint(flowID).sent), fs, Endpoint(flowID).sent)
    {
      var sink := Endpoint(flowID);
      ghost var before := sink.sent;
      ghost var out := Envelopes(FragmentFrames(flowID, fragID, Split(payload, limits.fragPayloadMax)));
      CeilDivCountsPieces(payload, limits.fragPayloadMax);
      var fragCnt := (|payload| + limits.fragPayloadMax - 1) / limits.fragPayloadMax;
      for i := 0 to fragCnt
        invariant |out| == fragCnt && sink.sent == before + out[..i]
      {
        ok := WriteFragment(flowID, payload, fragID, i, fragCnt);
        if !ok {
          CutShort(before, out, i);
          return false;
        }
        OneMore(before, out, i);
      }
      assert out[..fragCnt] == out;
      ok := true;
    }

    /**
     * Writes one datagram as the frames of its plan. False means a write failed: then a strict prefix of
     * the frames is out. Only the flow's own channel is written.
     */
    method WriteDatagram(flowID: uint32, payload: bytes) returns (ok: bool)
      requires Wired()
      modifies this`nextFragID, Endpoint(flowID)`sent
      ensures nextFragID == PlanWrite(limits, old(nextFragID), flowID, payload).nextFragID
      ensures var fs := PlanWrite(limits, old(nextFragID), flowID, payload).frames;
        if ok then Endpoint(flowID).sent == old(Endpoint(flowID).sent) + Envelopes(fs)
        else StoppedWithin(old(Endpoint(flowID).sent), fs, Endpoint(flowID).sent)
    {
      ghost var before := Endpoint(flowID).sent;
      var plain := Frame(PlainMeta(flowID), payload);
      assert Envelopes([plain]) == [Envelope(plain)] && Envelopes([plain][..0]) == [] && Envelopes([]) == [];
      assert before + Envelopes([plain][..0]) == before;
      if !limits.fragEnabled {
        if |payload| > EffectiveMaxPacketSize(limits) {
          return true;
        }
        ok := WriteFrame(flowID, payload);
        return;
      }
      if |payload| > MAX_DATAGRAM || limits.fragPayloadMax <= 0 {
        return true;
      }
      if |payload| <= limits.fragPayloadMax {
        ok := WriteFrameV2(PlainMeta(flowID), payload);
        return;
      }
      CeilDivCountsPieces(payload, limits.fragPayloadMax);
      var fragCnt := (|payload| + limits.fragPayloadMax - 1) / limits.fragPayloadMax;
      if fragCnt > MAX_FRAGMENTS {
        return true;
      }
      nextFragID := Bump(nextFragID);
      ok := WriteFragments(flowID, payload, nextFragID % 0x1_0000);
    }

    // ----- reading -----

    /** Each flow is tabled under its own id, has its own socket, and is not part of the reassembler. */
    ghost predicate TableOk()
      reads this, reasm
    {
      && this !in reasm.Repr
      && (forall id :: id in flows ==> flows[id].flowID == flows[id].uplink.owner == id && flows[id] !in reasm.Repr)
    }

    ghost predicate Valid()
      reads this, reasm, reasm.Repr
    {
      Wired() && TableOk() && reasm.Valid()
    }

    ghost function FlowView(): Flows
      reads this, set id | id in flows :: flows[id]
    {
      map id | id in flows :: flows[id].State()
    }

    method Refresh(flowID: uint32, now: int)
      requires TableOk()
      modifies (set id | id in flows :: flows[id])`lastSeen
      ensures FlowView() == RefreshedFlow(old(FlowView()), flowID, now)
    {
      if flowID in flows {
        flows[flowID].lastSeen := now;
      }
    }

    /** Handles one v2 frame: a keepalive refreshes its flow, a fragment goes to the reassembler. */
    method HandleFrame(f: Frame, now: int) returns (packet: Option<Packet>)
      requires Valid()
      modifies reasm.Repr, (set id | id in flows :: flows[id])`lastSeen
      ensures Valid() && fresh(reasm.Repr - old(reasm.Repr))
      ensures flows == old(flows) && FlowView() == Refreshed(old(FlowView()), f, now)
      ensures Decoded(reasm.View(), packet) == DecodeFrame(old(reasm.View()), now, f)
    {
      packet := None;
      if HasBit(f.meta.flags, 2) {
        Refresh(f.meta.flowID, now);
        return;
      }
      if !HasBit(f.meta.flags, 1) {
        return Some(Packet(f.meta.flowID, f.payload));
      }
      var datagram := reasm.Add(now, f.meta.flowID, f.meta, f.payload);
      if datagram.Some? {
        packet := Some(Packet(f.meta.flowID, datagram.value));
      }
    }

    /** Reads one frame of the session's version off a channel. */
    method ReadFrame(r: ByteReader) returns (f: Frame, err: Option<ReadError>)
      modifies r
      ensures match Parse(Wire(limits), old(r.data))
              case Failed(e) => err == Some(e) && r.data == []
              case Read(g, rest) => err == None && f == g && r.data == rest
    {
      if limits.fragEnabled {
        var meta, payload;
        meta, payload, err := ReadUDPFrameV2(r);
        f := Frame(meta, payload);
      } else {
        var flowID, payload;
        flowID, payload, err := ReadUDPFrame(r);
        f := Frame(PlainMeta(flowID), payload);
      }
    }

    /** Reads one frame off a channel; `None` without an error is a frame that completes no datagram. */
    method ReadDatagramFrom(r: ByteReader, now: int) returns (packet: Option<Packet>, err: Option<ReadError>)
      requires Valid() && r !in reasm.Repr
      modifies r, reasm.Repr, (set id | id in flows :: flows[id])`lastSeen
      ensures Valid() && fresh(reasm.Repr - old(reasm.Repr)) && flows == old(flows)
      ensures match Parse(Wire(limits), old(r.data))
              case Failed(e) =>
                err == Some(e) && r.data == []
                && Reception(reasm.View(), packet, FlowView()) == Reception(old(reasm.View()), None, old(FlowView()))
              case Read(f, rest) =>
                err == None && r.data == rest
                && Reception(reasm.View(), packet, FlowView()) == Receive(limits, old(reasm.View()), old(FlowView()), f, now)
    {
      var f;
      f, err := ReadFrame(r);
      assert reasm.View() == old(reasm.View()) && FlowView() == old(FlowView());
      if err.Some? {
        packet := None;
      } else if !limits.fragEnabled {
        packet := Some(Packet(f.meta.flowID, f.payload));
      } else {
        packet := HandleFrame(f, now);
      }
    }

    /** Decodes one QUIC datagram, its port header already taken off. */
    method DecodeDatagramBytes(b: bytes, now: int) returns (packet: Option<Packet>)
      requires Valid()
      modifies reasm.Repr, (set id | id in flows :: flows[id])`lastSeen
      ensures Valid() && fresh(reasm.Repr - old(reasm.Repr)) && flows == old(flows)
      ensures Decoded(reasm.View(), packet) == DecodeSlice(old(reasm.View()), now, b)
      ensures FlowView() == match FrameOfSlice(b)
                            case None => old(FlowView())
                            case Some(f) => Refreshed(old(FlowView()), f, now)
    {
      var parsed := ParseUDPFrameV2Bytes(b);
      if parsed == None {
        return None;
      }
      packet := HandleFrame(parsed.value, now);
    }

    // ----- reclaiming flows -----

    /** Takes the flow out of the table and closes its socket, once. */
    method Remove(flow: ClientFlow)
      modifies this`flows, flow`removed, flow.uplink`open
      ensures flow.removed
      ensures old(flow.removed) ==> flows == old(flows) && flow.uplink.open == old(flow.uplink.open)
      ensures !old(flow.removed) ==> flows == old(flows) - {flow.flowID} && !flow.uplink.open
    {
      if flow.removed {
        return;
      }
      flow.removed := true;
      flows := flows - {flow.flowID};
      flow.uplink.Close();
    }

    /** A tabled flow has not been removed. */
    ghost predicate Tabled()
      reads this, reasm, set id | id in flows :: flows[id]
    {
      TableOk() && forall id :: id in flows ==> !flows[id].removed
    }

    function OwnFlow(flowID: uint32): set<ClientFlow>
      reads this
    {
      if flowID in flows then {flows[flowID]} else {}
    }

    function OwnSocket(flowID: uint32): set<LocalSocket>
      reads this
    {
      if flowID in flows then {flows[flowID].uplink} else {}
    }

    /** While a reader dials, another one may table a flow of the same id. */
    method Meanwhile(flowID: uint32)
      requires Tabled() && flowID !in flows
      modifies this`flows
      ensures Tabled() && (flows == old(flows) || (flowID in flows && flows == old(flows)[flowID := flows[flowID]]))
      ensures flowID in flows ==> fresh(flows[flowID]) && NewFlow(flows[flowID])
    {
      var beaten: bool := *;
      if beaten {
        var at: int := *;
        var uplink := new LocalSocket(flowID, []);
        var rival := new ClientFlow(flowID, uplink, at);
        flows := flows[flowID := rival];
      }
    }

    /** A flow as it is created: nothing sent on its open socket, no keepalive spent. */
    twostate predicate NewFlow(new flow: ClientFlow)
      reads flow, flow.uplink
    {
      fresh(flow.uplink) && flow.uplink.open && flow.uplink.outbound == [] && flow.keepalives == 0 && !flow.removed
    }

    /** The first flow stored under an id stays; a later one gets the first back. */
    method LoadOrStore(flow: ClientFlow) returns (actual: ClientFlow, loaded: bool)
      requires Tabled() && flow.flowID == flow.uplink.owner && !flow.removed && flow !in reasm.Repr
      modifies this`flows
      ensures Tabled() && loaded == (flow.flowID in old(flows))
      ensures if loaded then actual == old(flows)[flow.flowID] && flows == old(flows)
              else actual == flow && flows == old(flows)[flow.flowID := flow]
    {
      if flow.flowID in flows {
        return flows[flow.flowID], true;
      }
      flows := flows[flow.flowID := flow];
      return flow, false;
    }

    /**
     * The flow of an id, refreshed; or a new one, tabled with a socket of its own, if dialling succeeds. A reader that
     * loses the race for the id closes the socket it dialled, `mine`, and uses the winner's flow.
     */
    method GetOrCreateFlow(flowID: uint32, now: int) returns (flow: ClientFlow?, ghost mine: LocalSocket?)
      requires Tabled()
      modifies this`flows, OwnFlow(flowID)`lastSeen
      ensures Tabled()
      ensures flowID in old(flows) ==>
        flow == old(flows)[flowID] && flows == old(flows) && flow.State() == FlowState(now, old(flows[flowID].keepalives))
      ensures flowID !in old(flows) && flow == null ==> flows == old(flows)
      ensures flowID !in old(flows) && flow != null ==>
        && fresh(flow) && NewFlow(flow) && flows == old(flows)[flowID := flow]
        && mine != null && fresh(mine) && if flow.uplink == mine then flow.lastSeen == now else !mine.open
    {
      mine := null;
      if flowID in flows {
        flow := flows[flowID];
        flow.lastSeen := now;
        return;
      }
      var dialled: bool := *;
      if !dialled {
        return null, null;
      }
      var uplink := new LocalSocket(flowID, []);
      mine := uplink;
      var made := new ClientFlow(flowID, uplink, now);
      Meanwhile(flowID);
      var loaded;
      flow, loaded := LoadOrStore(made);
      if loaded {
        uplink.Close();
      }
    }

    /**
     * Hands a decoded packet to the local service of its flow, and touches no other flow. An empty packet only opens
     * or refreshes the flow; a failed write removes it.
     */
    method DeliverToLocal(p: Packet, now: int) returns (flow: ClientFlow?, ok: bool)
      requires Tabled()
      modifies this`flows, OwnFlow(p.flowID)`lastSeen, OwnFlow(p.flowID)`removed,
               OwnSocket(p.flowID)`open, OwnSocket(p.flowID)`outbound
      ensures flow == null ==> flows == old(flows) && p.flowID !in flows
      ensures flow != null ==> flow.flowID == p.flowID && (p.flowID in old(flows) ==> flow == old(flows)[p.flowID])
      ensures flow != null && ok ==>
        && flows == old(flows)[p.flowID := flow] && !flow.removed
        && flow.uplink.outbound
           == (if p.flowID in old(flows) then old(flows[p.flowID].uplink.outbound) else [])
              + if p.payload == [] then [] else [p.payload]
      ensures flow != null && !ok ==> flows == old(flows) - {p.flowID} && flow.removed && !flow.uplink.open
    {
      ok := true;
      ghost var mine;
      flow, mine := GetOrCreateFlow(p.flowID, now);
      if flow == null {
        return;
      }
      assert flows == old(flows)[p.flowID := flow] && p.flowID in flows && flow.flowID == p.flowID && !flow.removed;
      if p.payload != [] {
        ok := flow.uplink.Write(p.payload);
        if !ok {
          assert flows - {p.flowID} == old(flows) - {p.flowID};
          Remove(flow);
        }
      }
    }

    method ReapIfIdle(flow: ClientFlow, now: int)
      requires !flow.removed
      modifies this`flows, flow`removed, flow.uplink`open
      ensures if old(flow.lastSeen) < now - idleTimeout then
                flows == old(flows) - {flow.flowID} && !flow.uplink.open
              else
                flows == old(flows) && flow.removed == old(flow.removed) && flow.uplink.open == old(flow.uplink.open)
    {
      if flow.lastSeen < now - idleTimeout {
        Remove(flow);
      }
    }

    /** Reaps every flow that was idle too long, and no other. */
    method SweepIdleFlows(now: int)
      requires Tabled()
      modifies this`flows, (set id | id in flows :: flows[id])`removed, (set id | id in flows :: flows[id].uplink)`open
      ensures Tabled() && flows.Keys <= old(flows).Keys
      ensures forall id :: id in old(flows) ==> (id in flows <==> old(flows[id].lastSeen) >= now - idleTimeout)
      ensures forall id :: id in old(flows) && id !in flows ==> !old(flows)[id].uplink.open
      ensures forall id :: id in flows ==> flows[id] == old(flows)[id] && flows[id].uplink.open == old(flows[id].uplink.open)
    {
      var todo := flows.Keys;
      ghost var all := flows;
      while todo != {}
        invariant todo <= flows.Keys <= all.Keys
        invariant forall id :: id in flows ==> flows[id] == all[id]
        invariant forall id :: id in all ==> Visited(all[id], id in flows, id in todo, now, old(all[id].uplink.open))
        decreases todo
      {
        var id :| id in todo;
        assert Visited(all[id], true, true, now, old(all[id].uplink.open));
        ReapIfIdle(flows[id], now);
        todo := todo - {id};
      }
    }

    /** A flow during a sweep: pending, or kept because it is not expired, or removed and closed because it is. */
    ghost predicate Visited(flow: ClientFlow, kept: bool, pending: bool, now: int, open: bool)
      reads flow, flow.uplink
    {
      && (if kept then !flow.removed && flow.uplink.open == open else !flow.uplink.open)
      && (if pending then kept else kept <==> flow.lastSeen >= now - idleTimeout)
    }

    // ----- keeping flows alive -----

    /** Sends a keepalive for a quiet flow that has some left, and removes the flow when the write fails. */
    method KeepAlive(flow: ClientFlow, now: int) returns (nudged: bool)
      requires limits.fragEnabled && !flow.removed
      modifies this`flows, flow`lastSeen, flow`keepalives, flow`removed, flow.uplink`open, Endpoint(flow.flowID)`sent
      ensures nudged ==> KeepaliveDue(old(flow.State()), now)
      ensures flow.State() == if nudged then AfterKeepalive(old(flow.State()), now) else old(flow.State())
      ensures Endpoint(flow.flowID).sent
           == old(Endpoint(flow.flowID).sent) + if nudged then [Envelope(KeepaliveFrame(flow.flowID))] else []
      ensures if KeepaliveDue(old(flow.State()), now) && !nudged then
                flows == old(flows) - {flow.flowID} && !flow.uplink.open
              else
                flows == old(flows) && !flow.removed && flow.uplink.open == old(flow.uplink.open)
    {
      nudged := false;
      if now - flow.lastSeen < KEEPALIVE_IDLE {
        return;
      }
      if flow.keepalives >= KEEPALIVE_MAX {
        return;
      }
      nudged := WriteFrameV2(FrameMeta(flow.flowID, FLAG_KEEPALIVE, 0, 0, 1), []);
      if !nudged {
        Remove(flow);
        return;
      }
      flow.keepalives := flow.keepalives + 1;
      flow.lastSeen := now;
    }

    /** The keepalives of these flows that go out on this sink, in order. */
    function KeepalivesOn(order: seq<uint32>, sink: FrameSink): seq<bytes> {
      if order == [] then []
      else
        var id := order[|order| - 1];
        KeepalivesOn(order[..|order| - 1], sink) + if Endpoint(id) == sink then [Envelope(KeepaliveFrame(id))] else []
    }

    lemma OneMoreKeepalive(order: seq<uint32>, id: uint32, sink: FrameSink, before: seq<bytes>)
      ensures before + KeepalivesOn(order + [id], sink)
           == (before + KeepalivesOn(order, sink)) + if Endpoint(id) == sink then [Envelope(KeepaliveFrame(id))] else []
    {
      assert (order + [id])[..|order|] == order;
    }

    ghost predicate SinkHas(sink: FrameSink, before: seq<bytes>, order: seq<uint32>)
      reads sink
    {
      sink.sent == before + KeepalivesOn(order, sink)
    }

    /**
     * A flow during a round of keepalives: untouched while pending or if none is due; else `nudged`, that is sent one
     * and refreshed, or removed and closed because its write failed.
     */
    ghost predicate Tended(flow: ClientFlow, kept: bool, pending: bool, nudged: bool, now: int, was: FlowState, open: bool)
      reads flow, flow.uplink
    {
      && (if kept then !flow.removed && flow.uplink.open == open else !flow.uplink.open)
      && flow.State() == (if nudged then AfterKeepalive(was, now) else was)
      && (if pending then kept && !nudged else (KeepaliveDue(was, now) <==> nudged || !kept) && (nudged ==> kept))
    }

    /** Where a round of keepalives is: what it found, whom it has still to visit and whom it has nudged. */
    ghost predicate Round(all: map<uint32, ClientFlow>, was: map<uint32, (FlowState, bool)>, todo: set<uint32>,
                          order: seq<uint32>, now: int)
      requires was.Keys == all.Keys
      reads this, reasm, set id | id in all :: all[id], set id | id in all :: all[id].uplink
    {
      && todo <= flows.Keys <= all.Keys
      && (forall id :: id in flows ==> flows[id] == all[id])
      && (forall id :: id in all ==> all[id].flowID == all[id].uplink.owner == id && all[id] !in reasm.Repr)
      && (forall id :: id in all ==>
            Tended(all[id], id in flows, id in todo, id in order, now, was[id].0, was[id].1))
    }

    ghost predicate Sinks(all: map<uint32, ClientFlow>, sent: map<uint32, seq<bytes>>, order: seq<uint32>)
      requires sent.Keys == all.Keys
      reads set id | id in all :: Endpoint(id)
    {
      forall id {:trigger SinkHas(Endpoint(id), sent[id], order)} :: id in all ==> SinkHas(Endpoint(id), sent[id], order)
    }

    /** `KeepAlive`, with the keepalives that this round has put out so far. */
    method KeepAliveOn(flow: ClientFlow, now: int, ghost all: map<uint32, ClientFlow>,
                       ghost sent: map<uint32, seq<bytes>>, ghost order: seq<uint32>) returns (nudged: bool)
      requires limits.fragEnabled && !flow.removed && flow.flowID in all && sent.Keys == all.Keys
      requires Sinks(all, sent, order)
      modifies this`flows, flow`lastSeen, flow`keepalives, flow`removed, flow.uplink`open, Endpoint(flow.flowID)`sent
      ensures nudged ==> KeepaliveDue(old(flow.State()), now)
      ensures flow.State() == if nudged then AfterKeepalive(old(flow.State()), now) else old(flow.State())
      ensures if KeepaliveDue(old(flow.State()), now) && !nudged then
                flows == old(flows) - {flow.flowID} && !flow.uplink.open
              else
                flows == old(flows) && !flow.removed && flow.uplink.open == old(flow.uplink.open)
      ensures Sinks(all, sent, if nudged then order + [flow.flowID] else order)
    {
      assert SinkHas(Endpoint(flow.flowID), sent[flow.flowID], order);
      nudged := KeepAlive(flow, now);
      ghost var next := if nudged then order + [flow.flowID] else order;
      forall other | other in all ensures SinkHas(Endpoint(other), sent[other], next) {
        assert old(SinkHas(Endpoint(other), sent[other], order));
        OneMoreKeepalive(order, flow.flowID, Endpoint(other), sent[other]);
      }
    }

    /** One flow of a round. */
    method TendNext(id: uint32, flow: ClientFlow, now: int, ghost all: map<uint32, ClientFlow>,
                    ghost was: map<uint32, (FlowState, bool)>, ghost sent: map<uint32, seq<bytes>>,
                    ghost todo: set<uint32>, ghost order: seq<uint32>) returns (ghost next: seq<uint32>)
      requires limits.fragEnabled && was.Keys == sent.Keys == all.Keys
      requires Round(all, was, todo, order, now) && Sinks(all, sent, order) && id in todo && flow == flows[id]
      modifies this`flows, flow`lastSeen, flow`keepalives, flow`removed, flow.uplink`open, Endpoint(id)`sent
      ensures Round(all, was, todo - {id}, next, now) && Sinks(all, sent, next)
      ensures next == order || next == order + [id]
    {
      assert Tended(flow, true, true, id in order, now, was[id].0, was[id].1);
      var nudged := KeepAliveOn(flow, now, all, sent, order);
      next := if nudged then order + [id] else order;
      forall other: uint32 | other in all && other != id
        ensures Tended(all[other], other in flows, other in todo - {id}, other in next, now, was[other].0, was[other].1)
      {
        assert old(Tended(all[other], other in flows, other in todo, other in order, now, was[other].0, was[other].1));
      }
    }

    /** Nobody is nudged twice, or while still pending. */
    predicate InTurn(order: seq<uint32>, todo: set<uint32>) {
      && (forall i :: 0 <= i < |order| ==> order[i] !in todo)
      && (forall i, j :: 0 <= i < j < |order| ==> order[i] != order[j])
    }

    lemma NextInTurn(order: seq<uint32>, todo: set<uint32>, id: uint32, next: seq<uint32>)
      requires InTurn(order, todo) && id in todo && (next == order || next == order + [id])
      ensures InTurn(next, todo - {id})
    {
    }

    method TendAll(now: int, ghost was: map<uint32, (FlowState, bool)>, ghost sent: map<uint32, seq<bytes>>)
      returns (ghost order: seq<uint32>)
      requires limits.fragEnabled && was.Keys == sent.Keys == flows.Keys
      requires Round(flows, was, flows.Keys, [], now) && Sinks(flows, sent, [])
      modifies this`flows, (set id | id in flows :: flows[id])`lastSeen, (set id | id in flows :: flows[id])`keepalives,
               (set id | id in flows :: flows[id])`removed, (set id | id in flows :: flows[id].uplink)`open,
               (set id | id in flows :: Endpoint(id))`sent
      ensures Round(old(flows), was, {}, order, now) && Sinks(old(flows), sent, order) && InTurn(order, {})
    {
      order := [];
      var todo := flows.Keys;
      ghost var all := flows;
      while todo != {}
        invariant InTurn(order, todo) && Round(all, was, todo, order, now) && Sinks(all, sent, order)
        decreases todo
      {
        var id :| id in todo;
        ghost var before := order;
        order := TendNext(id, flows[id], now, all, was, sent, todo, before);
        NextInTurn(before, todo, id, order);
        todo := todo - {id};
      }
    }

    /** One round of keepalives: every tabled flow for which one is due, and no other, in some order. */
    method SendKeepalives(now: int) returns (ghost order: seq<uint32>)
      requires Tabled()
      modifies this`flows, (set id | id in flows :: flows[id])`lastSeen, (set id | id in flows :: flows[id])`keepalives,
               (set id | id in flows :: flows[id])`removed, (set id | id in flows :: flows[id].uplink)`open,
               (set id | id in flows :: Endpoint(id))`sent
      ensures Tabled() && flows.Keys <= old(flows).Keys && forall id :: id in flows ==> flows[id] == old(flows)[id]
      ensures !limits.fragEnabled ==> flows == old(flows) && order == []
      ensures limits.fragEnabled ==> forall id :: id in old(flows) ==>
        Tended(old(flows)[id], id in flows, false, id in order, now, old(flows[id].State()), old(flows[id].uplink.open))
      ensures forall i, j :: 0 <= i < j < |order| ==> order[i] != order[j]
      ensures forall id :: id in old(flows) ==> SinkHas(Endpoint(id), old(Endpoint(id).sent), order)
    {
      order := [];
      if limits.fragEnabled {
        ghost var was := map id | id in flows :: (flows[id].State(), flows[id].uplink.open);
        ghost var sent := map id | id in flows :: Endpoint(id).sent;
        order := TendAll(now, was, sent);
      }
    }

    /** Removes every flow; all their sockets are closed. */
    method CloseAll()
      requires Tabled()
      modifies this`flows, (set id | id in flows :: flows[id])`removed, (set id | id in flows :: flows[id].uplink)`open
      ensures flows == map[]
      ensures forall id :: id in old(flows) ==> !old(flows)[id].uplink.open
    {
      var todo := flows.Keys;
      ghost var all := flows;
      while todo != {}
        invariant todo == flows.Keys <= all.Keys
        invariant forall id :: id in flows ==> flows[id] == all[id] && !all[id].removed
        invariant forall id :: id in all && id !in flows ==> !all[id].uplink.open
        decreases todo
      {
        var id :| id in todo;
        Remove(flows[id]);
        todo := todo - {id};
      }
    }

    /** One turn of the read loop. Reading into the bounded buffer loses nothing that is sent. */
    method ForwardOne(flow: ClientFlow) returns (more: bool, ok: bool, ghost fs: seq<Frame>)
      requires Wired() && (limits.fragEnabled ==> limits.fragPayloadMax > 0)
      modifies this`nextFragID, Endpoint(flow.flowID)`sent, flow.uplink`inbound
      ensures more == (old(flow.uplink.inbound) != []) && (!more ==> ok && flow.uplink.inbound == [])
      ensures more ==> flow.uplink.inbound == old(flow.uplink.inbound)[1..]
      ensures Forwarded(limits, old(nextFragID), flow.flowID, old(flow.uplink.inbound)).frames
           == fs + Forwarded(limits, nextFragID, flow.flowID, flow.uplink.inbound).frames
      ensures if ok then Endpoint(flow.flowID).sent == old(Endpoint(flow.flowID).sent) + Envelopes(fs)
              else StoppedWithin(old(Endpoint(flow.flowID).sent), fs, Endpoint(flow.flowID).sent)
    {
      ghost var id, inbound := nextFragID, flow.uplink.inbound;
      var d;
      d, more := flow.uplink.Read(ReadBufferSize(limits));
      ok, fs := true, [];
      if more {
        fs := PlanWrite(limits, id, flow.flowID, inbound[0]).frames;
        CutPlansTheSame(limits, id, flow.flowID, inbound[0]);
        ok := WriteDatagram(flow.flowID, d);
      }
    }

    /** Writes every local datagram as frames until the socket or a write fails. */
    method Forward(flow: ClientFlow) returns (drained: bool)
      requires Wired() && (limits.fragEnabled ==> limits.fragPayloadMax > 0)
      modifies this`nextFragID, Endpoint(flow.flowID)`sent, flow.uplink`inbound
      ensures var fs := Forwarded(limits, old(nextFragID), flow.flowID, old(flow.uplink.inbound)).frames;
        if drained then Endpoint(flow.flowID).sent == old(Endpoint(flow.flowID).sent) + Envelopes(fs)
        else StoppedWithin(old(Endpoint(flow.flowID).sent), fs, Endpoint(flow.flowID).sent)
      ensures old(Endpoint(flow.flowID).sent) <= Endpoint(flow.flowID).sent
      ensures Fits(old(flow.uplink.inbound)) ==>
        Brings(Endpoint(flow.flowID).sent[|old(Endpoint(flow.flowID).sent)|..], flow.flowID, old(flow.uplink.inbound), drained)
    {
      var sink := Endpoint(flow.flowID);
      ghost var id, ds, before := nextFragID, flow.uplink.inbound, sink.sent;
      ghost var all := Forwarded(limits, nextFragID, flow.flowID, flow.uplink.inbound).frames;
      ghost var out: seq<Frame> := [];
      drained := false;
      while !drained
        invariant sink.sent == before + Envelopes(out)
        invariant all == out + Forwarded(limits, nextFragID, flow.flowID, flow.uplink.inbound).frames
        invariant drained ==> flow.uplink.inbound == []
        decreases |flow.uplink.inbound|, !drained
      {
        var more, ok;
        ghost var fs;
        more, ok, fs := ForwardOne(flow);
        Regroup(all, out, fs, Forwarded(limits, nextFragID, flow.flowID, flow.uplink.inbound).frames);
        if !ok {
          StoppedInside(before, out, fs, sink.sent, all);
          ForwardedBrings(id, flow.flowID, ds, before, sink.sent, false);
          return;
        }
        EnvelopesAppend(before, out, fs);
        out := out + fs;
        drained := !more;
      }
      assert out == all;
      ForwardedBrings(id, flow.flowID, ds, before, sink.sent, true);
    }

    /** The read loop of a flow; when it ends the flow is reclaimed. */
    method Pump(flow: ClientFlow) returns (drained: bool)
      requires Wired() && (limits.fragEnabled ==> limits.fragPayloadMax > 0)
      requires !flow.removed
      modifies this`nextFragID, this`flows, Endpoint(flow.flowID)`sent, flow`removed, flow.uplink
      ensures !flow.uplink.open && flows == old(flows) - {flow.flowID}
      ensures var fs := Forwarded(limits, old(nextFragID), flow.flowID, old(flow.uplink.inbound)).frames;
        if drained then Endpoint(flow.flowID).sent == old(Endpoint(flow.flowID).sent) + Envelopes(fs)
        else StoppedWithin(old(Endpoint(flow.flowID).sent), fs, Endpoint(flow.flowID).sent)
      ensures old(Endpoint(flow.flowID).sent) <= Endpoint(flow.flowID).sent
      ensures Fits(old(flow.uplink.inbound)) ==>
        Brings(Endpoint(flow.flowID).sent[|old(Endpoint(flow.flowID).sent)|..], flow.flowID, old(flow.uplink.inbound), drained)
    {
      drained := Forward(flow);
      Remove(flow);
    }

    lemma Regroup(all: seq<Frame>, out: seq<Frame>, fs: seq<Frame>, rest: seq<Frame>)
      requires all == out + (fs + rest)
      ensures all == (out + fs) + rest && out + fs <= all
    {
    }

    lemma OneMore(before: seq<bytes>, out: seq<bytes>, i: nat)
      requires i < |out|
      ensures (before + out[..i]) + [out[i]] == before + out[..i + 1]
    {
    }

    lemma CutShort(before: seq<bytes>, out: seq<bytes>, i: nat)
      requires i < |out|
      ensures before <= before + out[..i] < before + out
    {
    }

    lemma EnvelopesAppend(before: seq<bytes>, a: seq<Frame>, b: seq<Frame>)
      ensures (before + Envelopes(a)) + Envelopes(b) == before + Envelopes(a + b)
    {
    }

    lemma StoppedInside(before: seq<bytes>, out: seq<Frame>, fs: seq<Frame>, after: seq<bytes>, all: seq<Frame>)
      requires StoppedWithin(before + Envelopes(out), fs, after) && out + fs <= all
      ensures StoppedWithin(before, all, after)
    {
      EnvelopesAppend(before, out, fs);
      var rest := all[|out + fs|..];
      assert all == (out + fs) + rest;
      EnvelopesAppend(before, out + fs, rest);
    }
  }
}
