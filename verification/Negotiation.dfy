/**
 * Setting up UDP forwarding: the request, the server's reply, and the data channels opened for it. Whatever the
 * reply says, the session that comes out is one the data plane can run on.
 */
module Negotiation {
  import opened Bytes
  import opened FrameCodec
  import opened Fragmentation
  import opened Decoding
  import opened FlowTimers
  import opened UdpProxy

  const MODE_CHANNEL: byte := 1
  const CAP_CHANNEL: byte := 1
  const CAP_FRAG: byte := 2
  const CAP_DATAGRAM: byte := 4
  const CAP_SHARD: byte := 8
  const MAX_SHARDS := 32
  const DATAGRAM_PAYLOAD_MAX := 1136
  const BIND_ADDRESS: bytes := [48, 46, 48, 46, 48, 46, 48]

  datatype SetupError =
    | RequestFailed
    | Rejected
    | Malformed(length: nat)
    | UnsupportedMode(mode: byte)
    | OpenFailed(shard: nat)

  /** What a reply makes of a session. */
  datatype Terms = Terms(actualPort: uint32, shardCount: nat, limits: Limits, datagram: bool)

  datatype Agreement = Agreed(terms: Terms) | Refusal(error: SetupError)

  // ----- the reply -----

  predicate OffersV2(resp: bytes) {
    |resp| >= 10 && HasBit(resp[5], 2) && 0 < FromBE16(resp[8..10]) <= MAX_DATAGRAM
  }

  function AgreedMaxPacket(resp: bytes, configured: int): int {
    if |resp| >= 10 && FromBE16(resp[6..8]) > 0 then FromBE16(resp[6..8])
    else if configured > 0 then configured
    else DEFAULT_MAX_PACKET
  }

  function AgreedShards(resp: bytes): nat {
    if |resp| < 11 || resp[10] < 1 then 1 else Min(resp[10], MAX_SHARDS)
  }

  /** The terms of a reply, for a client that has a QUIC datagram connection or not. */
  function Agree(resp: bytes, configured: int, hasDatagram: bool): Agreement {
    if |resp| < 5 then Refusal(Malformed(|resp|))
    else if resp[4] != MODE_CHANNEL then Refusal(UnsupportedMode(resp[4]))
    else
      var v2 := OffersV2(resp);
      var datagram := hasDatagram && v2 && HasBit(resp[5], 4);
      var fragMax := if v2 then FromBE16(resp[8..10]) else 0;
      var max := if datagram then Min(fragMax, DATAGRAM_PAYLOAD_MAX) else fragMax;
      Agreed(Terms(FromBE32(resp[..4]), AgreedShards(resp), Limits(v2, AgreedMaxPacket(resp, configured), max), datagram))
  }

  predicate WellFormed(t: Terms) {
    && 1 <= t.shardCount <= MAX_SHARDS
    && t.limits.maxPacketSize > 0
    && (if t.limits.fragEnabled then 1 <= t.limits.fragPayloadMax <= MAX_DATAGRAM else t.limits.fragPayloadMax == 0)
    && (t.datagram ==> t.limits.fragEnabled && t.limits.fragPayloadMax <= DATAGRAM_PAYLOAD_MAX)
  }

  /** Every byte string is either refused, for exactly one reason, or gives a well-formed session. */
  lemma EveryReply(resp: bytes, configured: int, hasDatagram: bool)
    ensures match Agree(resp, configured, hasDatagram)
            case Agreed(t) => |resp| >= 5 && resp[4] == MODE_CHANNEL && WellFormed(t) && (t.datagram ==> hasDatagram)
            case Refusal(e) => |resp| < 5 || resp[4] != MODE_CHANNEL
  {
  }

  /** A complete reply, as the format lays it out. */
  function Reply(actualPort: uint32, mode: byte, caps: byte, maxPacket: uint16, fragMax: uint16, shards: byte): (resp: bytes)
    ensures |resp| == 11
  {
    BE32(actualPort) + [mode, caps] + BE16(maxPacket) + BE16(fragMax) + [shards]
  }

  /** The capability bits of a reply: channel, fragments, QUIC datagrams, and the higher ones. */
  function CapBits(channel: bool, frag: bool, dgram: bool, high: nat): byte
    requires high < 32
  {
    (if channel then 1 else 0) + (if frag then 2 else 0) + (if dgram then 4 else 0) + 8 * high
  }

  lemma CapBitsRead(channel: bool, frag: bool, dgram: bool, high: nat)
    requires high < 32
    ensures HasBit(CapBits(channel, frag, dgram, high), 2) == frag && HasBit(CapBits(channel, frag, dgram, high), 4) == dgram
  {
  }

  /** Where the fields of a reply are, in any reply long enough to hold them. */
  lemma ReplyFields(full: bytes, k: nat, actualPort: uint32, mode: byte, caps: byte, maxPacket: uint16, fragMax: uint16,
                    shards: byte, more: bytes)
    requires full == Reply(actualPort, mode, caps, maxPacket, fragMax, shards) + more && k <= |full|
    ensures var resp := full[..k];
      && (k >= 5 ==> FromBE32(resp[..4]) == actualPort && resp[4] == mode)
      && (k >= 6 ==> resp[5] == caps)
      && (k >= 10 ==> FromBE16(resp[6..8]) == maxPacket && FromBE16(resp[8..10]) == fragMax)
      && (k >= 11 ==> resp[10] == shards)
  {
    var resp := full[..k];
    BE32RoundTrip(actualPort);
    BE16RoundTrip(maxPacket);
    BE16RoundTrip(fragMax);
    if k >= 5 {
      assert resp[..4] == BE32(actualPort);
    }
    if k >= 10 {
      assert resp[6..8] == BE16(maxPacket) && resp[8..10] == BE16(fragMax);
    }
  }

  /**
   * Every reply, of any length and with any fields, read field by field: it is refused for its length or its mode, or
   * the session is v2 exactly when ten bytes are there, the fragment bit is set and the fragment limit is in range; it is
   * in datagram mode exactly when moreover both sides can; and each of its numbers is the one agreed on.
   */
  lemma ReplyRead(full: bytes, k: nat, actualPort: uint32, mode: byte, channel: bool, frag: bool, dgram: bool, high: nat,
                  maxPacket: uint16, fragMax: uint16, shards: byte, more: bytes, configured: int, hasDatagram: bool)
    requires high < 32 && k <= |full|
    requires full == Reply(actualPort, mode, CapBits(channel, frag, dgram, high), maxPacket, fragMax, shards) + more
    ensures var v2 := k >= 10 && frag && 0 < fragMax <= 65507;
      var datagram := v2 && dgram && hasDatagram;
      var packetMax := if k >= 10 && maxPacket > 0 then maxPacket as int else if configured > 0 then configured else 1400;
      var limit := if !v2 then 0 else if datagram && fragMax > 1136 then 1136 else fragMax as int;
      var channels := if k < 11 || shards == 0 then 1 else if shards > 32 then 32 else shards as int;
      Agree(full[..k], configured, hasDatagram)
      == if k < 5 then Refusal(Malformed(k))
         else if mode != 1 then Refusal(UnsupportedMode(mode))
         else Agreed(Terms(actualPort, channels, Limits(v2, packetMax, limit), datagram))
  {
    ReplyFields(full, k, actualPort, mode, CapBits(channel, frag, dgram, high), maxPacket, fragMax, shards, more);
    CapBitsRead(channel, frag, dgram, high);
  }

  /** A server that answers five bytes gets the v1 baseline on one channel; what follows byte eleven is ignored. */
  lemma OtherServers(resp: bytes, more: bytes, configured: int, hasDatagram: bool)
    requires |resp| >= 5 && resp[4] == MODE_CHANNEL
    ensures |resp| == 5 ==>
      var max := if configured > 0 then configured else DEFAULT_MAX_PACKET;
      Agree(resp, configured, hasDatagram) == Agreed(Terms(FromBE32(resp[..4]), 1, Limits(false, max, 0), false))
    ensures |resp| >= 11 ==> Agree(resp + more, configured, hasDatagram) == Agree(resp, configured, hasDatagram)
  {
    if |resp| >= 11 {
      var all := resp + more;
      assert all[..4] == resp[..4] && all[6..8] == resp[6..8] && all[8..10] == resp[8..10];
    }
  }

  // ----- what the terms mean for the data plane -----

  /** A frame behind its port header, as one QUIC datagram. */
  function DatagramBytes(port: uint32, f: Frame): bytes {
    BE16(port % 0x1_0000) + Encode(V2, f)
  }

  /**
   * On every session, every frame of a UDP datagram survives its 16-bit length field; in datagram mode
   * neither these frames nor a keepalive outgrow a QUIC datagram.
   */
  lemma SessionFramesFit(resp: bytes, configured: int, hasDatagram: bool, id: uint32, flowID: uint32, d: bytes)
    requires Agree(resp, configured, hasDatagram).Agreed? && |d| <= MAX_DATAGRAM
    ensures var t := Agree(resp, configured, hasDatagram).terms;
      && AllExpressible(Wire(t.limits), PlanWrite(t.limits, id, flowID, d).frames)
      && (t.datagram ==>
            (forall f :: f in PlanWrite(t.limits, id, flowID, d).frames + [KeepaliveFrame(flowID)] ==>
              |DatagramBytes(t.actualPort, f)| <= 1149))
  {
    var t := Agree(resp, configured, hasDatagram).terms;
    EveryReply(resp, configured, hasDatagram);
    FramesExpressible(t.limits, id, flowID, d);
    if NeedsFragments(t.limits, d) {
      SplitSizes(d, t.limits.fragPayloadMax);
    }
  }

  // ----- the set-up -----

  /** What the server makes of the global request. */
  datatype Outcome = NoReply | Refused | Replied(resp: bytes)

  /** The SSH connection: the requests sent on it, and the data channels opened with their extra data. */
  class Client {
    const outcome: Outcome
    var requests: seq<bytes>
    var channels: seq<FrameSink>
    var extraData: seq<bytes>

    constructor (outcome: Outcome)
      ensures this.outcome == outcome && requests == [] && channels == [] && extraData == []
    {
      this.outcome, requests, channels, extraData := outcome, [], [], [];
    }

    method SendRequest(payload: bytes) returns (o: Outcome)
      modifies `requests
      ensures requests == old(requests) + [payload] && o == outcome
    {
      requests := requests + [payload];
      o := outcome;
    }

    method OpenChannel(extra: bytes) returns (ch: FrameSink?)
      modifies `channels, `extraData
      ensures ch == null ==> channels == old(channels) && extraData == old(extraData)
      ensures ch != null ==> fresh(ch) && ch.open && channels == old(channels) + [ch] && extraData == old(extraData) + [extra]
    {
      var ok: bool := *;
      if !ok {
        return null;
      }
      ch := new FrameSink();
      channels, extraData := channels + [ch], extraData + [extra];
    }
  }

  datatype ForwardSession = ForwardSession(terms: Terms, chs: seq<FrameSink>, datagram: FrameSink?)

  datatype Setup = Up(session: ForwardSession) | Down(error: SetupError)

  function Capabilities(supportsDatagrams: bool): byte {
    if supportsDatagrams then CAP_CHANNEL + CAP_FRAG + CAP_SHARD + CAP_DATAGRAM else CAP_CHANNEL + CAP_FRAG + CAP_SHARD
  }

  function Request(remotePort: int, supportsDatagrams: bool): bytes {
    BE32(|BIND_ADDRESS|) + BIND_ADDRESS + BE32(remotePort % 0x1_0000_0000) + [Capabilities(supportsDatagrams)]
  }

  /** The request asks for all addresses and the low 32 bits of the port, and names the capabilities by their bits. */
  lemma RequestLayout(remotePort: int, supportsDatagrams: bool)
    ensures Request(remotePort, supportsDatagrams)
         == [0, 0, 0, 7] + [48, 46, 48, 46, 48, 46, 48] + BE32(remotePort % 0x1_0000_0000)
            + [if supportsDatagrams then 1 + 2 + 4 + 8 else 1 + 2 + 8]
  {
  }

  /** Channel i announces the port and, in its fifth byte, that it is number i. */
  lemma ShardDataLayout(port: uint32, shards: nat, i: nat)
    requires i < shards <= 32
    ensures |ShardData(port, shards)| == shards && ShardData(port, shards)[i] == BE32(port) + [i]
  {
    assert ShardData(port, shards)[i] == ExtraData(port, i);
  }

  /** The extra data of the first channels: the port, and the shard in one byte. */
  function ShardData(port: uint32, shards: nat): seq<bytes> {
    seq(shards, i requires 0 <= i < shards => ExtraData(port, i))
  }

  function ExtraData(port: uint32, shard: nat): bytes {
    BE32(port) + [shard % 0x100]
  }

  predicate AllOpen(chs: seq<FrameSink>)
    reads chs
  {
    forall ch :: ch in chs ==> ch.open
  }

  predicate AllClosed(chs: seq<FrameSink>)
    reads chs
  {
    forall ch :: ch in chs ==> !ch.open
  }

  ghost predicate Distinct(chs: seq<FrameSink>) {
    forall i, j :: 0 <= i < j < |chs| ==> chs[i] != chs[j]
  }

  method CloseChannels(chs: seq<FrameSink>)
    modifies (set ch | ch in chs)`open
    ensures AllClosed(chs)
  {
    for i := 0 to |chs|
      invariant AllClosed(chs[..i])
    {
      chs[i].Close();
    }
    assert chs[..|chs|] == chs;
  }

  /** Opens one channel per shard, or none: a failed open closes the channels opened before it. */
  method OpenShards(client: Client, port: uint32, shards: nat) returns (chs: seq<FrameSink>, failed: Option<nat>)
    requires shards <= MAX_SHARDS
    modifies client`channels, client`extraData
    ensures client.channels == old(client.channels) + chs && fresh(chs) && Distinct(chs)
    ensures client.extraData == old(client.extraData) + ShardData(port, |chs|)
    ensures failed == None ==> |chs| == shards && forall ch :: ch in chs ==> ch.open
    ensures failed.Some? ==> failed.value == |chs| < shards && forall ch :: ch in chs ==> !ch.open
  {
    chs := [];
    for i := 0 to shards
      invariant |chs| == i && client.channels == old(client.channels) + chs && fresh(chs) && Distinct(chs) && AllOpen(chs)
      invariant client.extraData == old(client.extraData) + ShardData(port, i)
    {
      var ch := client.OpenChannel(ExtraData(port, i));
      if ch == null {
        CloseChannels(chs);
        return chs, Some(i);
      }
      assert ShardData(port, i + 1) == ShardData(port, i) + [ExtraData(port, i)];
      chs := chs + [ch];
    }
    failed := None;
  }

  /**
   * The whole set-up. It succeeds with the agreed terms and exactly one open channel per shard (none in datagram
   * mode), or fails with the first reason that applies and no channel left open. `mine` are the channels it opened.
   */
  method SetupUDPForward(client: Client, remotePort: int, configured: int, dc: FrameSink?, supportsDatagrams: bool)
    returns (r: Setup, ghost mine: seq<FrameSink>)
    requires supportsDatagrams ==> dc != null
    modifies client
    ensures client.requests == old(client.requests) + [Request(remotePort, supportsDatagrams)]
    ensures client.channels == old(client.channels) + mine && fresh(mine) && Distinct(mine)
    ensures mine == [] ==> client.extraData == old(client.extraData)
    ensures match client.outcome
            case NoReply => r == Down(RequestFailed) && mine == []
            case Refused => r == Down(Rejected) && mine == []
            case Replied(resp) =>
              match Agree(resp, configured, dc != null)
              case Refusal(e) => r == Down(e) && mine == []
              case Agreed(t) =>
                if t.datagram then r == Up(ForwardSession(t, [], dc)) && mine == []
                else
                  && client.extraData == old(client.extraData) + ShardData(t.actualPort, |mine|)
                  && match r
                     case Up(sess) =>
                       sess == ForwardSession(t, mine, null) && |mine| == t.shardCount && forall ch :: ch in mine ==> ch.open
                     case Down(e) => e == OpenFailed(|mine|) && |mine| < t.shardCount && forall ch :: ch in mine ==> !ch.open
  {
    mine := [];
    var o := client.SendRequest(Request(remotePort, supportsDatagrams));
    match o {
      case NoReply => r := Down(RequestFailed);
      case Refused => r := Down(Rejected);
      case Replied(resp) =>
        var a := Agree(resp, configured, dc != null);
        EveryReply(resp, configured, dc != null);
        if a.Refusal? {
          r := Down(a.error);
        } else if a.terms.datagram {
          r := Up(ForwardSession(a.terms, [], dc));
        } else {
          var chs, failed := OpenShards(client, a.terms.actualPort, a.terms.shardCount);
          r := if failed.Some? then Down(OpenFailed(failed.value)) else Up(ForwardSession(a.terms, chs, null));
          mine := chs;
        }
    }
  }

  /** A session the data plane accepts: a way to send every frame, and sizes that make sense. */
  predicate Usable(sess: ForwardSession) {
    && WellFormed(sess.terms)
    && (sess.datagram != null <==> sess.terms.datagram)
    && |sess.chs| == if sess.terms.datagram then 0 else sess.terms.shardCount
  }

  /** Every set-up that succeeds starts a proxy in a valid state; `None` is a set-up that failed. */
  method Start(client: Client, remotePort: int, configured: int, dc: FrameSink?, supportsDatagrams: bool, idleSeconds: int)
    returns (p: Proxy?)
    requires supportsDatagrams ==> dc != null
    modifies client
    ensures p != null ==>
      && p.Valid() && p.Tabled() && p.flows == map[] && p.idleTimeout == EffectiveIdleTimeout(idleSeconds)
      && (p.limits.fragEnabled ==> p.limits.fragPayloadMax > 0)
      && (p.datagram == null ==> p.chs != [] && p.ch == p.chs[0])
      && forall id: uint32 :: p.Endpoint(id) == if p.datagram != null then dc else p.chs[id % |p.chs|]
  {
    var r;
    ghost var mine;
    r, mine := SetupUDPForward(client, remotePort, configured, dc, supportsDatagrams);
    if r.Down? {
      return null;
    }
    var sess := r.session;
    assert Usable(sess) by {
      EveryReply(client.outcome.resp, configured, dc != null);
    }
    var ch := if sess.chs == [] then sess.datagram else sess.chs[0];
    p := new Proxy(ch, sess.chs, sess.datagram, sess.terms.actualPort, sess.terms.limits, EffectiveIdleTimeout(idleSeconds));
  }
}
