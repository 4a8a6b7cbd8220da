/**
 * What a session carries from end to end: the frames of any writes, put on one channel or sent as QUIC datagrams, and
 * read again frame by frame, are the written datagrams that are not too long, in order and unchanged.
 */
module Relay {
  import opened Bytes
  import opened FrameCodec
  import opened Fragmentation
  import opened Reassembly
  import opened Decoding
  import opened Delivery
  import opened FlowTimers
  import WireDelivery

  /** The longest datagram a session does not drop. */
  function LongestSent(l: Limits): int {
    if l.fragEnabled then Min(MAX_DATAGRAM, MAX_FRAGMENTS * l.fragPayloadMax) else EffectiveMaxPacketSize(l)
  }

  lemma SentExactly(l: Limits, id: uint32, flowID: uint32, d: bytes)
    requires l.fragEnabled ==> l.fragPayloadMax > 0
    ensures PlanWrite(l, id, flowID, d).frames == [] <==> |d| > LongestSent(l)
  {
    if l.fragEnabled {
      DroppedExactly(l, id, flowID, d);
    }
  }

  // ----- what one received frame does -----

  type Flows = map<uint32, FlowState>

  /** An inbound keepalive frame refreshes its flow, if the flow exists. */
  function Refreshed(flows: Flows, f: Frame, now: int): Flows {
    if IsKeepalive(f) then RefreshedFlow(flows, f.meta.flowID, now) else flows
  }

  function RefreshedFlow(flows: Flows, flowID: uint32, now: int): Flows {
    if flowID in flows then flows[flowID := FlowState(now, flows[flowID].keepalives)] else flows
  }

  /** Everything one received frame changes. */
  datatype Reception = Reception(slots: Slots, packet: Option<Packet>, flows: Flows)

  /** A v1 frame is a datagram; a v2 frame is decoded. */
  function Receive(l: Limits, slots: Slots, flows: Flows, f: Frame, now: int): (x: Reception)
    requires SlotsOk(slots)
    ensures SlotsOk(x.slots)
  {
    if !l.fragEnabled then Reception(slots, Some(Packet(f.meta.flowID, f.payload)), flows)
    else
      var x := DecodeFrame(slots, now, f);
      Reception(x.slots, x.packet, Refreshed(flows, f, now))
  }

  /** On v2 a keepalive makes its own flow seen now, if it is tabled; no other frame changes a flow, and none on v1. */
  lemma KeepaliveRefreshes(l: Limits, slots: Slots, flows: Flows, f: Frame, now: int, fragment: bool, keepalive: bool,
                           high: nat, id: uint32)
    requires SlotsOk(slots) && high < 64
    requires f.meta.flags == (if fragment then 1 else 0) + (if keepalive then 2 else 0) + 4 * high
    ensures var after := Receive(l, slots, flows, f, now).flows;
      && (id in after <==> id in flows)
      && (id in flows ==>
            after[id] == if l.fragEnabled && keepalive && id == f.meta.flowID then FlowState(now, flows[id].keepalives)
                         else flows[id])
  {
    FlagBits(fragment, keepalive, high, f.meta.flags);
  }

  /** What reading a whole channel gives: the packets in order, and how it leaves the table, the flows and the stream. */
  datatype Reading = Reading(packets: seq<Packet>, slots: Slots, flows: Flows, error: ReadError)

  function Prepend(p: Option<Packet>, r: Reading): Reading {
    if p.Some? then r.(packets := [p.value] + r.packets) else r
  }

  /** Reads frame by frame until there is no whole one, all at one time. */
  function ReadAll(l: Limits, slots: Slots, flows: Flows, now: int, b: bytes): Reading
    requires SlotsOk(slots)
    decreases |b|
  {
    match Parse(Wire(l), b)
    case Failed(e) => Reading([], slots, flows, e)
    case Read(f, rest) =>
      var x := Receive(l, slots, flows, f, now);
      Prepend(x.packet, ReadAll(l, x.slots, x.flows, now, rest))
  }

  /** The same for QUIC datagrams, each a frame behind its two-byte port. */
  function ReadDatagrams(slots: Slots, now: int, ds: seq<bytes>): (seq<Packet>, Slots)
    requires SlotsOk(slots)
    decreases |ds|
  {
    if ds == [] then ([], slots)
    else
      var x := DecodeSlice(slots, now, if |ds[0]| < 2 then [] else ds[0][2..]);
      var (packets, after) := ReadDatagrams(x.slots, now, ds[1..]);
      ((if x.packet.Some? then [x.packet.value] else []) + packets, after)
  }

  // ----- what is written -----

  /** The frames of a list of writes, one after the other. */
  function PlanAll(l: Limits, id: uint32, ws: seq<Write>): Plan
    decreases |ws|
  {
    if ws == [] then Plan([], id)
    else
      var first := PlanWrite(l, id, ws[0].flowID, ws[0].payload);
      var rest := PlanAll(l, first.nextFragID, ws[1..]);
      Plan(first.frames + rest.frames, rest.nextFragID)
  }

  /** The frames of a list of datagrams of one flow, written one after the other. */
  function Forwarded(l: Limits, id: uint32, flowID: uint32, ds: seq<bytes>): Plan
    decreases |ds|
  {
    if ds == [] then Plan([], id)
    else
      var first := PlanWrite(l, id, flowID, ds[0]);
      var rest := Forwarded(l, first.nextFragID, flowID, ds[1..]);
      Plan(first.frames + rest.frames, rest.nextFragID)
  }

  function Writes(flowID: uint32, ds: seq<bytes>): seq<Write> {
    seq(|ds|, i requires 0 <= i < |ds| => Write(flowID, ds[i]))
  }

  lemma {:induction false} ForwardedIsPlanAll(l: Limits, id: uint32, flowID: uint32, ds: seq<bytes>)
    ensures Forwarded(l, id, flowID, ds) == PlanAll(l, id, Writes(flowID, ds))
    decreases |ds|
  {
    if ds != [] {
      assert Writes(flowID, ds)[1..] == Writes(flowID, ds[1..]);
      ForwardedIsPlanAll(l, PlanWrite(l, id, flowID, ds[0]).nextFragID, flowID, ds[1..]);
    }
  }

  /** The written datagrams of at most `max` bytes, in order. */
  function Carried(ws: seq<Write>, max: int): seq<Packet>
    decreases |ws|
  {
    if ws == [] then []
    else (if |ws[0].payload| <= max then [Packet(ws[0].flowID, ws[0].payload)] else []) + Carried(ws[1..], max)
  }

  // ----- a list of frames -----

  /** What the frames of a stream make, were it to end after them. */
  function ReceiveAll(l: Limits, slots: Slots, flows: Flows, now: int, fs: seq<Frame>): (r: Reading)
    requires SlotsOk(slots)
    ensures SlotsOk(r.slots)
    decreases |fs|
  {
    if fs == [] then Reading([], slots, flows, EOF)
    else
      var x := Receive(l, slots, flows, fs[0], now);
      Prepend(x.packet, ReceiveAll(l, x.slots, x.flows, now, fs[1..]))
  }

  lemma ReadAllFrame(l: Limits, slots: Slots, flows: Flows, now: int, f: Frame, rest: bytes)
    requires SlotsOk(slots) && Expressible(Wire(l), f)
    ensures var x := Receive(l, slots, flows, f, now);
      ReadAll(l, slots, flows, now, Encode(Wire(l), f) + rest) == Prepend(x.packet, ReadAll(l, x.slots, x.flows, now, rest))
  {
    ParseEncode(Wire(l), f, rest);
  }

  lemma {:induction false} ReadAllIsReceiveAll(l: Limits, slots: Slots, flows: Flows, now: int, fs: seq<Frame>)
    requires SlotsOk(slots) && AllExpressible(Wire(l), fs)
    ensures ReadAll(l, slots, flows, now, EncodeAll(Wire(l), fs)) == ReceiveAll(l, slots, flows, now, fs)
    decreases |fs|
  {
    if fs != [] {
      var x := Receive(l, slots, flows, fs[0], now);
      EncodeAllCons(Wire(l), fs);
      ReadAllFrame(l, slots, flows, now, fs[0], EncodeAll(Wire(l), fs[1..]));
      ReadAllIsReceiveAll(l, x.slots, x.flows, now, fs[1..]);
    }
  }

  lemma ReceiveCons(l: Limits, slots: Slots, flows: Flows, now: int, fs: seq<Frame>, x: Reception)
    requires SlotsOk(slots) && fs != [] && x == Receive(l, slots, flows, fs[0], now)
    ensures ReceiveAll(l, slots, flows, now, fs) == Prepend(x.packet, ReceiveAll(l, x.slots, x.flows, now, fs[1..]))
  {
  }

  function Continue(x: Reading, y: Reading): Reading {
    y.(packets := x.packets + y.packets)
  }

  lemma PrependContinue(p: Option<Packet>, x: Reading, y: Reading)
    ensures Continue(Prepend(p, x), y) == Prepend(p, Continue(x, y))
  {
    if p.Some? {
      assert ([p.value] + x.packets) + y.packets == [p.value] + (x.packets + y.packets);
    }
  }

  lemma {:induction false} ReceiveAllAppend(l: Limits, slots: Slots, flows: Flows, now: int, a: seq<Frame>, b: seq<Frame>)
    requires SlotsOk(slots)
    ensures var x := ReceiveAll(l, slots, flows, now, a);
      ReceiveAll(l, slots, flows, now, a + b) == Continue(x, ReceiveAll(l, x.slots, x.flows, now, b))
    decreases |a|
  {
    if a == [] {
      assert a + b == b;
    } else {
      var x := Receive(l, slots, flows, a[0], now);
      assert (a + b)[0] == a[0] && (a + b)[1..] == a[1..] + b;
      ReceiveCons(l, slots, flows, now, a, x);
      ReceiveCons(l, slots, flows, now, a + b, x);
      ReceiveAllAppend(l, x.slots, x.flows, now, a[1..], b);
      var y := ReceiveAll(l, x.slots, x.flows, now, a[1..]);
      PrependContinue(x.packet, y, ReceiveAll(l, y.slots, y.flows, now, b));
    }
  }

  // ----- the frames of one datagram -----

  function First(i: nat): (s: set<nat>)
    ensures forall k :: k in s <==> 0 <= k < i
  {
    if i == 0 then {} else First(i - 1) + {i - 1}
  }

  /** The table with the first i pieces of a train, all received now. */
  function Partly(t: Train, i: nat, now: int): Slots {
    if i == 0 then map[] else map[SlotKey(t) := PartSlot(t.pieces, First(i), now)]
  }

  lemma PartlyRetained(t: Train, i: nat, now: int)
    requires i < |t.pieces|
    ensures Retained(Partly(t, i, now), now, SlotKey(t), |t.pieces|) == Partly(t, i, now)
  {
  }

  lemma FirstNext(i: nat, next: nat, n: nat)
    requires next == i + 1 <= n
    ensures First(i) + {i} == First(next) && i !in First(i) && (AllIn(First(next), n) <==> next == n)
  {
    if next < n {
      assert next !in First(next);
    }
  }

  /** A table of one slot: what a step that removes or replaces the slot leaves. */
  lemma OneSlot(key: nat, slots: Slots, slot: Slot)
    requires slots.Keys <= {key}
    ensures slots - {key} == map[] && slots[key := slot] == map[key := slot]
  {
  }

  lemma TakeNext(t: Train, i: nat, next: nat, now: int)
    requires TrainOk(t) && 1 < |t.pieces| && next == i + 1 <= |t.pieces| && SlotsOk(Partly(t, i, now))
    ensures TakePiece(Partly(t, i, now), now, t, i)
         == if next == |t.pieces| then Decoded(map[], Some(Original(t))) else Decoded(Partly(t, next, now), None)
  {
    var slots := Partly(t, i, now);
    PartlyRetained(t, i, now);
    PartlyEntry(t, i, now);
    FirstNext(i, next, |t.pieces|);
    TakePart(slots, now, t, First(i), now, i);
    OneSlot(SlotKey(t), slots, PartSlot(t.pieces, First(next), now));
  }

  lemma PartlyEntry(t: Train, i: nat, now: int)
    ensures var slots := Partly(t, i, now);
      && slots.Keys <= {SlotKey(t)} && |slots.Keys| <= 1
      && (SlotKey(t) in slots ==> slots[SlotKey(t)] == PartSlot(t.pieces, First(i), now))
      && (SlotKey(t) !in slots ==> First(i) == {})
  {
  }

  function FrameOfPiece(t: Train, i: nat): Frame
    requires i < |t.pieces| <= MAX_FRAGMENTS
  {
    Frame(PieceMeta(t, i), t.pieces[i])
  }

  lemma ReceivePiece(l: Limits, t: Train, i: nat, next: nat, flows: Flows, now: int)
    requires l.fragEnabled && TrainOk(t) && 1 < |t.pieces| && next == i + 1 <= |t.pieces| && SlotsOk(Partly(t, i, now))
    ensures Receive(l, Partly(t, i, now), flows, FrameOfPiece(t, i), now)
         == if next == |t.pieces| then Reception(map[], Some(Original(t)), flows) else Reception(Partly(t, next, now), None, flows)
    ensures next < |t.pieces| ==> SlotsOk(Partly(t, next, now))
  {
    var f := FrameOfPiece(t, i);
    FragmentFlags(f);
    WireDelivery.DecodeIsTake(Partly(t, i, now), now, t, i, f);
    TakeNext(t, i, next, now);
  }

  /** These are the frames of the train's pieces from the i-th on. */
  ghost predicate PiecesFrom(t: Train, i: nat, fs: seq<Frame>)
    requires |t.pieces| <= MAX_FRAGMENTS
  {
    |fs| + i == |t.pieces| && forall k :: 0 <= k < |fs| ==> fs[k] == FrameOfPiece(t, i + k)
  }

  lemma PiecesFromNext(t: Train, i: nat, next: nat, fs: seq<Frame>)
    requires |t.pieces| <= MAX_FRAGMENTS && next == i + 1 <= |t.pieces| && PiecesFrom(t, i, fs)
    ensures fs != [] && fs[0] == FrameOfPiece(t, i) && PiecesFrom(t, next, fs[1..])
  {
    forall k | 0 <= k < |fs| - 1 ensures fs[1..][k] == FrameOfPiece(t, next + k) {
      assert fs[1..][k] == fs[k + 1];
    }
  }

  lemma {:induction false} ReceivePieces(l: Limits, t: Train, i: nat, flows: Flows, now: int, fs: seq<Frame>)
    requires l.fragEnabled && TrainOk(t) && 1 < |t.pieces| && i < |t.pieces| && SlotsOk(Partly(t, i, now))
    requires PiecesFrom(t, i, fs)
    ensures ReceiveAll(l, Partly(t, i, now), flows, now, fs) == Reading([Original(t)], map[], flows, EOF)
    decreases |fs|
  {
    var next := i + 1;
    PiecesFromNext(t, i, next, fs);
    ReceivePiece(l, t, i, next, flows, now);
    if next < |t.pieces| {
      ReceiveCons(l, Partly(t, i, now), flows, now, fs, Reception(Partly(t, next, now), None, flows));
      ReceivePieces(l, t, next, flows, now, fs[1..]);
    } else {
      ReceiveCons(l, Partly(t, i, now), flows, now, fs, Reception(map[], Some(Original(t)), flows));
      assert fs[1..] == [];
    }
  }

  lemma ReceivePlain(l: Limits, slots: Slots, flows: Flows, now: int, flowID: uint32, d: bytes)
    requires SlotsOk(slots)
    ensures ReceiveAll(l, slots, flows, now, [Frame(PlainMeta(flowID), d)]) == Reading([Packet(flowID, d)], slots, flows, EOF)
  {
    var fs := [Frame(PlainMeta(flowID), d)];
    PlainFlags(flowID, d);
    assert fs[1..] == [];
  }

  lemma ReceiveTrain(l: Limits, id: uint32, w: Write, flows: Flows, now: int)
    requires l.fragEnabled && NeedsFragments(l, w.payload) && PlanWrite(l, id, w.flowID, w.payload).frames != []
    ensures ReceiveAll(l, map[], flows, now, PlanWrite(l, id, w.flowID, w.payload).frames)
         == Reading([Packet(w.flowID, w.payload)], map[], flows, EOF)
  {
    var pieces := Split(w.payload, l.fragPayloadMax);
    var t := Train(w.flowID, Bump(id) % 0x1_0000, pieces);
    SplitKeepsBytes(w.payload, l.fragPayloadMax);
    SplitCount(w.payload, l.fragPayloadMax);
    ManyPieces(w.payload, l.fragPayloadMax);
    assert PiecesFrom(t, 0, FragmentFrames(t.flowID, t.fragID, pieces));
    ReceivePieces(l, t, 0, flows, now, FragmentFrames(t.flowID, t.fragID, pieces));
  }

  lemma ManyPieces(payload: bytes, max: int)
    requires 0 < max < |payload|
    ensures |Split(payload, max)| > 1
  {
  }

  /** The frames of one write bring out its datagram, if it is not too long, and leave nothing behind. */
  lemma ReceiveWrite(l: Limits, id: uint32, w: Write, slots: Slots, flows: Flows, now: int)
    requires SlotsOk(slots) && (l.fragEnabled ==> 0 < l.fragPayloadMax && slots == map[])
    ensures ReceiveAll(l, slots, flows, now, PlanWrite(l, id, w.flowID, w.payload).frames)
         == Reading(Carried([w], LongestSent(l)), slots, flows, EOF)
  {
    var fs := PlanWrite(l, id, w.flowID, w.payload).frames;
    SentExactly(l, id, w.flowID, w.payload);
    CarriedOne(w, LongestSent(l));
    if fs != [] {
      if NeedsFragments(l, w.payload) {
        ReceiveTrain(l, id, w, flows, now);
      } else {
        ReceivePlain(l, slots, flows, now, w.flowID, w.payload);
      }
    }
  }

  lemma CarriedOne(w: Write, max: int)
    ensures Carried([w], max) == if |w.payload| <= max then [Packet(w.flowID, w.payload)] else []
  {
    assert [w][1..] == [];
  }

  lemma CarriedCons(ws: seq<Write>, max: int)
    requires ws != []
    ensures Carried(ws, max) == Carried([ws[0]], max) + Carried(ws[1..], max)
  {
    CarriedOne(ws[0], max);
  }

  // ----- the frames of a session -----

  lemma {:induction false} ReceiveWrites(l: Limits, id: uint32, ws: seq<Write>, slots: Slots, flows: Flows, now: int)
    requires SlotsOk(slots) && (l.fragEnabled ==> 0 < l.fragPayloadMax && slots == map[])
    ensures ReceiveAll(l, slots, flows, now, PlanAll(l, id, ws).frames)
         == Reading(Carried(ws, LongestSent(l)), slots, flows, EOF)
    decreases |ws|
  {
    if ws != [] {
      var first := PlanWrite(l, id, ws[0].flowID, ws[0].payload);
      var rest := PlanAll(l, first.nextFragID, ws[1..]);
      ReceiveWrite(l, id, ws[0], slots, flows, now);
      ReceiveAllAppend(l, slots, flows, now, first.frames, rest.frames);
      ReceiveWrites(l, first.nextFragID, ws[1..], slots, flows, now);
      CarriedCons(ws, LongestSent(l));
    }
  }

  /** The frames of a v1 session overflow no length field as long as no written datagram does. */
  predicate Expressibles(l: Limits, ws: seq<Write>) {
    !l.fragEnabled ==> forall w :: w in ws ==> |w.payload| < 0x1_0000
  }

  lemma {:induction false} SessionExpressible(l: Limits, id: uint32, ws: seq<Write>)
    requires Expressibles(l, ws)
    ensures AllExpressible(Wire(l), PlanAll(l, id, ws).frames)
    decreases |ws|
  {
    if ws != [] {
      var first := PlanWrite(l, id, ws[0].flowID, ws[0].payload);
      if |ws[0].payload| <= MAX_DATAGRAM {
        FramesExpressible(l, id, ws[0].flowID, ws[0].payload);
      }
      SessionExpressible(l, first.nextFragID, ws[1..]);
    }
  }

  lemma SessionIsRead(l: Limits, id: uint32, ws: seq<Write>, slots: Slots, flows: Flows, now: int)
    requires SlotsOk(slots) && (l.fragEnabled ==> 0 < l.fragPayloadMax && slots == map[]) && Expressibles(l, ws)
    ensures ReadAll(l, slots, flows, now, EncodeAll(Wire(l), PlanAll(l, id, ws).frames))
         == Reading(Carried(ws, LongestSent(l)), slots, flows, EOF)
  {
    SessionExpressible(l, id, ws);
    ReadAllIsReceiveAll(l, slots, flows, now, PlanAll(l, id, ws).frames);
    ReceiveWrites(l, id, ws, slots, flows, now);
  }

  /** `order` numbers those of the first n writes that have at most `max` bytes; the packets are their datagrams. */
  ghost predicate InWriteOrder(ws: seq<Write>, n: nat, max: int, packets: seq<Packet>, order: seq<nat>) {
    && n <= |ws| && |packets| == |order|
    && (forall d :: 0 <= d < n && |ws[d].payload| <= max ==> d in order)
    && (forall k :: 0 <= k < |order| ==> order[k] < n && |ws[order[k]].payload| <= max)
    && (forall k :: 0 <= k < |order| ==> order[k] < n && packets[k] == Packet(ws[order[k]].flowID, ws[order[k]].payload))
    && (forall j, k :: 0 <= j < k < |order| ==> order[j] < order[k])
  }

  lemma PacketsAssociative(a: seq<Packet>, b: seq<Packet>, c: seq<Packet>)
    ensures (a + b) + c == a + (b + c)
  {
  }

  lemma {:induction false} CarriedAppend(a: seq<Write>, b: seq<Write>, max: int)
    ensures Carried(a + b, max) == Carried(a, max) + Carried(b, max)
    decreases |a|
  {
    if a == [] {
      assert a + b == b;
    } else {
      CarriedAppend(a[1..], b, max);
      assert (a + b)[0] == a[0] && (a + b)[1..] == a[1..] + b;
      CarriedCons(a, max);
      CarriedCons(a + b, max);
      PacketsAssociative(Carried([a[0]], max), Carried(a[1..], max), Carried(b, max));
    }
  }

  lemma CarriedTake(ws: seq<Write>, n: nat, next: nat, max: int)
    requires n < |ws| && next == n + 1
    ensures Carried(ws[..next], max)
         == Carried(ws[..n], max) + if |ws[n].payload| <= max then [Packet(ws[n].flowID, ws[n].payload)] else []
  {
    assert ws[..next] == ws[..n] + [ws[n]];
    CarriedAppend(ws[..n], [ws[n]], max);
    CarriedOne(ws[n], max);
  }

  lemma WriteOrderNext(ws: seq<Write>, n: nat, next: nat, max: int, packets: seq<Packet>, order: seq<nat>)
    requires n < |ws| && next == n + 1 && InWriteOrder(ws, n, max, packets, order)
    ensures if |ws[n].payload| <= max
            then InWriteOrder(ws, next, max, packets + [Packet(ws[n].flowID, ws[n].payload)], order + [n])
            else InWriteOrder(ws, next, max, packets, order)
  {
    var longer := order + [n];
    assert longer[|order|] == n && forall d :: d in order ==> d in longer;
  }

  lemma {:induction false} CarriedInWriteOrder(ws: seq<Write>, n: nat, max: int) returns (order: seq<nat>)
    requires n <= |ws|
    ensures InWriteOrder(ws, n, max, Carried(ws[..n], max), order)
  {
    if n == 0 {
      order := NoneInWriteOrder(ws, max);
    } else {
      var m := n - 1;
      var before := CarriedInWriteOrder(ws, m, max);
      order := CarriedNext(ws, m, n, max, before);
    }
  }

  lemma NoneInWriteOrder(ws: seq<Write>, max: int) returns (order: seq<nat>)
    ensures InWriteOrder(ws, 0, max, Carried(ws[..0], max), order)
  {
    order := [];
  }

  lemma CarriedNext(ws: seq<Write>, n: nat, next: nat, max: int, before: seq<nat>) returns (order: seq<nat>)
    requires n < |ws| && next == n + 1 && InWriteOrder(ws, n, max, Carried(ws[..n], max), before)
    ensures InWriteOrder(ws, next, max, Carried(ws[..next], max), order)
  {
    var packets := Carried(ws[..n], max);
    CarriedTake(ws, n, next, max);
    WriteOrderNext(ws, n, next, max, packets, before);
    if |ws[n].payload| <= max {
      order := before + [n];
    } else {
      order := before;
      assert packets + [] == packets;
    }
  }

  lemma AllCarried(ws: seq<Write>, max: int) returns (order: seq<nat>)
    ensures InWriteOrder(ws, |ws|, max, Carried(ws, max), order)
  {
    order := CarriedInWriteOrder(ws, |ws|, max);
    assert ws[..|ws|] == ws;
  }

  /**
   * A v1 session carries every datagram of at most the negotiated size, 1400 bytes if none was negotiated: the bytes of
   * any writes, read frame by frame, are exactly these datagrams, in order, then a clean end. Nothing else changes.
   */
  lemma V1Carries(m: int, x: int, id: uint32, ws: seq<Write>, slots: Slots, flows: Flows, now: int)
    returns (packets: seq<Packet>, order: seq<nat>)
    requires SlotsOk(slots) && forall w :: w in ws ==> |w.payload| < 0x1_0000
    ensures var l := Limits(false, m, x);
      ReadAll(l, slots, flows, now, EncodeAll(V1, PlanAll(l, id, ws).frames)) == Reading(packets, slots, flows, EOF)
    ensures InWriteOrder(ws, |ws|, if m > 0 then m else 1400, packets, order)
  {
    var l := Limits(false, m, x);
    SessionIsRead(l, id, ws, slots, flows, now);
    packets := Carried(ws, LongestSent(l));
    order := AllCarried(ws, LongestSent(l));
  }

  /**
   * A v2 session carries every datagram of at most 65507 bytes and 255 fragments: from an empty table, the bytes of any
   * writes, read frame by frame, are exactly these datagrams, in order, and leave the table empty.
   */
  lemma V2Carries(m: int, x: int, id: uint32, ws: seq<Write>, flows: Flows, now: int)
    returns (packets: seq<Packet>, order: seq<nat>)
    requires x > 0
    ensures var l := Limits(true, m, x);
      ReadAll(l, map[], flows, now, EncodeAll(V2, PlanAll(l, id, ws).frames)) == Reading(packets, map[], flows, EOF)
    ensures InWriteOrder(ws, |ws|, if 255 * x < 65507 then 255 * x else 65507, packets, order)
  {
    var l := Limits(true, m, x);
    SessionIsRead(l, id, ws, map[], flows, now);
    packets := Carried(ws, LongestSent(l));
    order := AllCarried(ws, LongestSent(l));
  }

  // ----- QUIC datagrams -----

  /** A frame behind its two-byte port, as one QUIC datagram. */
  function DatagramOf(port: uint16, f: Frame): bytes {
    BE16(port) + Encode(V2, f)
  }

  /** The port first, in two bytes, then the frame. */
  lemma DatagramLayout(port: uint16, f: Frame, b: bytes)
    requires b == DatagramOf(port, f)
    ensures |b| == 13 + |f.payload| && (b[0] as int) * 256 + b[1] == port && b[2..] == Encode(V2, f)
  {
    BigEndian(port, 0);
  }

  function DatagramsOf(port: uint16, fs: seq<Frame>): seq<bytes> {
    seq(|fs|, i requires 0 <= i < |fs| => DatagramOf(port, fs[i]))
  }

  lemma ReadOneDatagram(slots: Slots, now: int, port: uint16, f: Frame)
    requires SlotsOk(slots) && |f.payload| < 0x1_0000
    ensures |DatagramOf(port, f)| >= 2 && DatagramOf(port, f)[2..] == Encode(V2, f)
    ensures DecodeSlice(slots, now, DatagramOf(port, f)[2..]) == DecodeFrame(slots, now, f)
  {
    DecodeEncoded(slots, now, f);
  }

  lemma ReadDatagramsCons(slots: Slots, now: int, ds: seq<bytes>, x: Decoded)
    requires SlotsOk(slots) && ds != [] && |ds[0]| >= 2 && x == DecodeSlice(slots, now, ds[0][2..])
    ensures var (packets, after) := ReadDatagrams(x.slots, now, ds[1..]);
      ReadDatagrams(slots, now, ds) == ((if x.packet.Some? then [x.packet.value] else []) + packets, after)
  {
  }

  lemma DatagramsCons(port: uint16, fs: seq<Frame>)
    requires fs != []
    ensures DatagramsOf(port, fs)[0] == DatagramOf(port, fs[0]) && DatagramsOf(port, fs)[1..] == DatagramsOf(port, fs[1..])
  {
  }

  lemma PrependIs(p: Option<Packet>, r: Reading)
    ensures Prepend(p, r).packets == (if p.Some? then [p.value] else []) + r.packets && Prepend(p, r).slots == r.slots
  {
  }

  lemma {:induction false} ReadDatagramsIsReceiveAll(l: Limits, slots: Slots, flows: Flows, now: int, port: uint16, fs: seq<Frame>)
    requires SlotsOk(slots) && l.fragEnabled && AllExpressible(V2, fs)
    ensures var r := ReceiveAll(l, slots, flows, now, fs);
      ReadDatagrams(slots, now, DatagramsOf(port, fs)) == (r.packets, r.slots)
    decreases |fs|
  {
    if fs != [] {
      var x := Receive(l, slots, flows, fs[0], now);
      DatagramsCons(port, fs);
      ReadOneDatagram(slots, now, port, fs[0]);
      ReadDatagramsCons(slots, now, DatagramsOf(port, fs), DecodeFrame(slots, now, fs[0]));
      ReceiveCons(l, slots, flows, now, fs, x);
      PrependIs(x.packet, ReceiveAll(l, x.slots, x.flows, now, fs[1..]));
      ReadDatagramsIsReceiveAll(l, x.slots, x.flows, now, port, fs[1..]);
    }
  }

  /** In datagram mode the same writes, as QUIC datagrams in order, bring out the same packets. */
  lemma DatagramsCarry(m: int, x: int, id: uint32, ws: seq<Write>, now: int, port: uint16)
    returns (packets: seq<Packet>, order: seq<nat>)
    requires x > 0
    ensures ReadDatagrams(map[], now, DatagramsOf(port, PlanAll(Limits(true, m, x), id, ws).frames)) == (packets, map[])
    ensures InWriteOrder(ws, |ws|, if 255 * x < 65507 then 255 * x else 65507, packets, order)
  {
    var l := Limits(true, m, x);
    SessionExpressible(l, id, ws);
    ReadDatagramsIsReceiveAll(l, map[], map[], now, port, PlanAll(l, id, ws).frames);
    ReceiveWrites(l, id, ws, map[], map[], now);
    packets := Carried(ws, LongestSent(l));
    order := AllCarried(ws, LongestSent(l));
  }

  // ----- a write fails -----

  /** A strict prefix of the frames brings out a prefix of the packets. */
  lemma PrefixReceived(l: Limits, slots: Slots, flows: Flows, now: int, fs: seq<Frame>, k: nat)
    requires SlotsOk(slots) && k <= |fs|
    ensures ReceiveAll(l, slots, flows, now, fs[..k]).packets <= ReceiveAll(l, slots, flows, now, fs).packets
  {
    assert fs[..k] + fs[k..] == fs;
    ReceiveAllAppend(l, slots, flows, now, fs[..k], fs[k..]);
  }
}
