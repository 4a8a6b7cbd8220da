/**
 * From calls of `writeDatagram` to bytes on the wire to packets out of the decoder: the delivery theorems
 * stated for the real frames.
 */
module WireDelivery {
  import opened Bytes
  import opened FrameCodec
  import opened Fragmentation
  import opened Reassembly
  import opened Decoding
  import opened Delivery

  /** A session: its limits, the fragment counter at the start, the writes, and what the receiver sees. */
  datatype Transcript = Transcript(limits: Limits, counter: uint32, writes: seq<Write>, events: seq<Arrival>)

  function CounterBefore(s: Transcript, d: nat): uint32
    requires d <= |s.writes|
  {
    if d == 0 then s.counter
    else PlanWrite(s.limits, CounterBefore(s, d - 1), s.writes[d - 1].flowID, s.writes[d - 1].payload).nextFragID
  }

  /** The frames write d puts on the wire. */
  function FramesOf(s: Transcript, d: nat): seq<Frame>
    requires d < |s.writes|
  {
    PlanWrite(s.limits, CounterBefore(s, d), s.writes[d].flowID, s.writes[d].payload).frames
  }

  function TrainOf(s: Transcript, d: nat): Train
    requires d < |s.writes|
  {
    var fs := FramesOf(s, d);
    Train(s.writes[d].flowID, Bump(CounterBefore(s, d)) % 0x1_0000, seq(|fs|, i requires 0 <= i < |fs| => fs[i].payload))
  }

  function Abstract(s: Transcript): Run {
    Run(seq(|s.writes|, d requires 0 <= d < |s.writes| => TrainOf(s, d)), s.events)
  }

  /** The trains of a v2 session are exactly the frames of the writes. */
  lemma TrainShape(s: Transcript, d: nat)
    requires s.limits.fragEnabled && d < |s.writes|
    ensures var t, fs := TrainOf(s, d), FramesOf(s, d);
      && TrainOk(t) && |fs| == |t.pieces|
      && (fs != [] ==> Original(t) == Packet(s.writes[d].flowID, s.writes[d].payload))
      && (|fs| == 1 ==> fs[0] == Frame(PlainMeta(t.flowID), t.pieces[0]))
      && (|fs| > 1 ==> forall i :: 0 <= i < |fs| ==> fs[i] == Frame(PieceMeta(t, i), t.pieces[i]))
      && (forall i :: 0 <= i < |fs| ==> |fs[i].payload| < 0x1_0000)
  {
    var w := s.writes[d];
    var t, fs := TrainOf(s, d), FramesOf(s, d);
    AllOrNothing(s.limits, CounterBefore(s, d), w.flowID, w.payload);
    DroppedExactly(s.limits, CounterBefore(s, d), w.flowID, w.payload);
    if |fs| == 1 {
      assert t.pieces == [w.payload] && t.pieces[1..] == [];
      assert Flatten(t.pieces) == w.payload + Flatten(t.pieces[1..]);
    }
    if fs != [] {
      FramesExpressible(s.limits, CounterBefore(s, d), w.flowID, w.payload);
      assert forall i :: 0 <= i < |fs| ==> Expressible(V2, fs[i]);
    }
  }

  // ----- the receiver on bytes -----

  predicate OnWire(s: Transcript, e: Arrival) {
    e.Frag? ==> e.d < |s.writes| && e.i < |FramesOf(s, e.d)|
  }

  /** What is read off the wire at an event. */
  function WireBytes(s: Transcript, e: Arrival): bytes
    requires OnWire(s, e)
  {
    match e
    case Frag(_, d, i) => Encode(V2, FramesOf(s, d)[i])
    case Keepalive(_, flowID) => Encode(V2, KeepaliveFrame(flowID))
    case Tick(_) => []
  }

  function Receive(s: Transcript, slots: Slots, e: Arrival): (x: Decoded)
    requires SlotsOk(slots) && OnWire(s, e)
    ensures SlotsOk(x.slots)
  {
    if e.Tick? then
      SweepKeepsInvariant(slots, e.at);
      Decoded(SweepStep(slots, e.at), None)
    else
      DecodeSlice(slots, e.at, WireBytes(s, e))
  }

  lemma OnWireInRun(s: Transcript, e: Arrival)
    requires s.limits.fragEnabled && OnWire(s, e)
    ensures InRun(Abstract(s), e)
  {
    if e.Frag? {
      TrainShape(s, e.d);
    }
  }

  lemma DecodeIsTake(slots: Slots, at: int, t: Train, i: nat, f: Frame)
    requires SlotsOk(slots) && TrainOk(t) && i < |t.pieces|
    requires f == if |t.pieces| == 1 then Frame(PlainMeta(t.flowID), t.pieces[0]) else Frame(PieceMeta(t, i), t.pieces[i])
    ensures DecodeFrame(slots, at, f) == TakePiece(slots, at, t, i)
  {
    if |t.pieces| == 1 {
      PlainFlags(t.flowID, t.pieces[0]);
    } else {
      FragmentFlags(f);
    }
  }

  lemma ReceiveFrag(s: Transcript, slots: Slots, e: Arrival)
    requires s.limits.fragEnabled && SlotsOk(slots) && e.Frag? && OnWire(s, e)
    ensures Receive(s, slots, e) == TakePiece(slots, e.at, TrainOf(s, e.d), e.i)
  {
    TrainShape(s, e.d);
    var f := FramesOf(s, e.d)[e.i];
    DecodeEncoded(slots, e.at, f);
    DecodeIsTake(slots, e.at, TrainOf(s, e.d), e.i, f);
  }

  lemma ReceiveKeepalive(s: Transcript, slots: Slots, e: Arrival)
    requires SlotsOk(slots) && e.Keepalive?
    ensures Receive(s, slots, e) == Decoded(slots, None)
  {
    KeepaliveFlags(e.flowID);
    DecodeEncoded(slots, e.at, KeepaliveFrame(e.flowID));
  }

  /** Decoding the bytes of a frame is taking its piece. */
  lemma ReceiveIsTake(s: Transcript, slots: Slots, e: Arrival)
    requires s.limits.fragEnabled && SlotsOk(slots) && OnWire(s, e) && InRun(Abstract(s), e)
    ensures Receive(s, slots, e) == Take(Abstract(s), slots, e)
  {
    match e
    case Frag(_, _, _) =>
      ReceiveFrag(s, slots, e);
    case Keepalive(_, _) =>
      ReceiveKeepalive(s, slots, e);
    case Tick(_) =>
  }

  ghost predicate AllOnWire(s: Transcript) {
    s.limits.fragEnabled
    && forall k {:trigger OnWire(s, s.events[k])} :: 0 <= k < |s.events| ==> OnWire(s, s.events[k])
  }

  function TableAt(s: Transcript, n: nat): (slots: Slots)
    requires AllOnWire(s) && n <= |s.events|
    ensures SlotsOk(slots)
  {
    if n == 0 then map[] else
      assert OnWire(s, s.events[n - 1]);
      Receive(s, TableAt(s, n - 1), s.events[n - 1]).slots
  }

  /** The packet decoded from the bytes of event n, if any. */
  function DecodedAt(s: Transcript, n: nat): Option<Packet>
    requires AllOnWire(s) && n < |s.events|
  {
    assert OnWire(s, s.events[n]);
    Receive(s, TableAt(s, n), s.events[n]).packet
  }

  lemma AbstractWellFormed(s: Transcript)
    requires AllOnWire(s)
    ensures WellFormed(Abstract(s))
  {
    forall k {:trigger InRun(Abstract(s), s.events[k])} | 0 <= k < |s.events| ensures InRun(Abstract(s), s.events[k]) {
      assert OnWire(s, s.events[k]);
      OnWireInRun(s, s.events[k]);
    }
  }

  lemma TableNext(s: Transcript, n: nat, next: nat)
    requires AllOnWire(s) && n < |s.events| && next == n + 1 && OnWire(s, s.events[n])
    ensures TableAt(s, next) == Receive(s, TableAt(s, n), s.events[n]).slots
  {
  }

  lemma {:induction false} TableIsAbstract(s: Transcript, n: nat)
    requires AllOnWire(s) && WellFormed(Abstract(s)) && n <= |s.events|
    ensures TableAt(s, n) == SlotsAt(Abstract(s), n)
  {
    if n > 0 {
      var m := n - 1;
      TableIsAbstract(s, m);
      assert OnWire(s, s.events[m]);
      assert InRun(Abstract(s), Abstract(s).events[m]);
      ReceiveIsTake(s, TableAt(s, m), s.events[m]);
      TableNext(s, m, n);
      SlotsAtNext(Abstract(s), m, n);
    }
  }

  lemma DecodedIsAbstract(s: Transcript, n: nat)
    requires AllOnWire(s) && WellFormed(Abstract(s)) && n < |s.events|
    ensures DecodedAt(s, n) == PacketAt(Abstract(s), n)
  {
    TableIsAbstract(s, n);
    assert OnWire(s, s.events[n]);
    assert InRun(Abstract(s), Abstract(s).events[n]);
    ReceiveIsTake(s, TableAt(s, n), s.events[n]);
  }

  // ----- the theorems -----

  /**
   * End to end, on bytes. The frames of any writes, in any order and at any time the `Benign` conditions
   * allow, decode to the written datagram at the arrival of its last missing frame, and to nothing else.
   */
  lemma WireEndToEnd(s: Transcript, n: nat)
    requires AllOnWire(s) && Benign(Abstract(s)) && n < |s.events|
    ensures var e := s.events[n];
      DecodedAt(s, n) == if e.Frag? && e.d < |s.writes| && Complete(Abstract(s), n + 1, e.d)
                         then Some(Packet(s.writes[e.d].flowID, s.writes[e.d].payload)) else None
  {
    AbstractWellFormed(s);
    DecodedIsAbstract(s, n);
    EndToEnd(Abstract(s), n);
    assert OnWire(s, s.events[n]);
    assert InRun(Abstract(s), Abstract(s).events[n]);
    if s.events[n].Frag? {
      TrainShape(s, s.events[n].d);
    }
  }

  function DecodedSoFar(s: Transcript, n: nat): seq<Packet>
    requires AllOnWire(s) && n <= |s.events|
  {
    if n == 0 then [] else
      DecodedSoFar(s, n - 1) + if DecodedAt(s, n - 1).Some? then [DecodedAt(s, n - 1).value] else []
  }

  lemma DecodedSoFarNext(s: Transcript, n: nat, next: nat)
    requires AllOnWire(s) && n < |s.events| && next == n + 1
    ensures DecodedSoFar(s, next)
         == if DecodedAt(s, n).Some? then DecodedSoFar(s, n) + [DecodedAt(s, n).value] else DecodedSoFar(s, n)
  {
  }

  lemma {:induction false} DecodedSoFarIsAbstract(s: Transcript, n: nat)
    requires AllOnWire(s) && WellFormed(Abstract(s)) && n <= |s.events|
    ensures DecodedSoFar(s, n) == Outputs(Abstract(s), n)
  {
    if n > 0 {
      var m := n - 1;
      DecodedSoFarIsAbstract(s, m);
      DecodedIsAbstract(s, m);
      DecodedSoFarNext(s, m, n);
      OutputsNext(Abstract(s), m, n);
    }
  }

  /** Every written datagram that was not dropped is decoded exactly once, byte-identical, and nothing else is. */
  lemma WireExactlyOnce(s: Transcript) returns (order: seq<nat>)
    requires AllOnWire(s) && Benign(Abstract(s))
    ensures |DecodedSoFar(s, |s.events|)| == |order|
    ensures forall k :: 0 <= k < |order| ==> order[k] < |s.writes|
    ensures forall k :: 0 <= k < |order| ==>
      DecodedSoFar(s, |s.events|)[k] == Packet(s.writes[order[k]].flowID, s.writes[order[k]].payload)
    ensures forall j, k :: 0 <= j < k < |order| ==> order[j] != order[k]
    ensures forall d :: d in order <==> 0 <= d < |s.writes| && FramesOf(s, d) != []
  {
    AbstractWellFormed(s);
    order := ExactlyOnce(Abstract(s));
    DecodedSoFarIsAbstract(s, |s.events|);
    forall d: nat | d < |s.writes|
      ensures FramesOf(s, d) != [] <==> Abstract(s).trains[d].pieces != []
      ensures FramesOf(s, d) != [] ==> Original(Abstract(s).trains[d]) == Packet(s.writes[d].flowID, s.writes[d].payload)
    {
      TrainShape(s, d);
    }
    forall k | 0 <= k < |order|
      ensures order[k] < |s.writes|
      ensures DecodedSoFar(s, |s.events|)[k] == Packet(s.writes[order[k]].flowID, s.writes[order[k]].payload)
    {
      assert order[k] in order;
    }
  }

  // ----- fragment ids of a session -----

  predicate Splits(l: Limits, w: Write) {
    NeedsFragments(l, w.payload) && |Split(w.payload, l.fragPayloadMax)| <= MAX_FRAGMENTS
  }

  /** How many of the first d writes were fragmented. */
  function Fragmentations(s: Transcript, d: nat): nat
    requires d <= |s.writes|
  {
    if d == 0 then 0 else Fragmentations(s, d - 1) + if Splits(s.limits, s.writes[d - 1]) then 1 else 0
  }

  lemma {:induction false} CounterCountsFragmentations(s: Transcript, d: nat)
    requires d <= |s.writes|
    ensures CounterBefore(s, d) == CounterAfter(s.counter, Fragmentations(s, d))
  {
    if d > 0 {
      CounterCountsFragmentations(s, d - 1);
    }
  }

  lemma {:induction false} FragmentationsGrow(s: Transcript, c: nat, d: nat)
    requires c < d <= |s.writes| && Splits(s.limits, s.writes[c])
    ensures Fragmentations(s, c) < Fragmentations(s, d)
  {
    if c + 1 < d {
      FragmentationsGrow(s, c, d - 1);
    }
  }

  lemma SplitsExactly(s: Transcript, d: nat)
    requires s.limits.fragEnabled && d < |s.writes|
    ensures Splits(s.limits, s.writes[d]) <==> |TrainOf(s, d).pieces| > 1
  {
    AllOrNothing(s.limits, CounterBefore(s, d), s.writes[d].flowID, s.writes[d].payload);
  }

  /** A fragmented datagram has the fragment id of its place among the fragmentations. */
  lemma FragIDOfWrite(s: Transcript, d: nat)
    requires d < |s.writes|
    ensures TrainOf(s, d).fragID == NthFragID(s.counter, Fragmentations(s, d) + 1)
  {
    CounterCountsFragmentations(s, d);
  }

  lemma MultipleAhead(j: nat, k: nat)
    requires j < k && (k - j) % 0x1_0000 == 0
    ensures k - j >= 0x1_0000
  {
  }

  /** Two fragmented datagrams share a fragment id only if a multiple of 65536 fragmentations lies between them. */
  lemma IDsRepeatSlowly(s: Transcript, c: nat, d: nat)
    requires s.limits.fragEnabled && c < d < |s.writes|
    requires Splits(s.limits, s.writes[c]) && Splits(s.limits, s.writes[d])
    requires TrainOf(s, c).fragID == TrainOf(s, d).fragID
    ensures Fragmentations(s, d) - Fragmentations(s, c) >= 0x1_0000
  {
    FragIDOfWrite(s, c);
    FragIDOfWrite(s, d);
    FragmentationsGrow(s, c, d);
    FragIDsDiffer(s.counter, Fragmentations(s, c) + 1, Fragmentations(s, d) + 1);
    MultipleAhead(Fragmentations(s, c) + 1, Fragmentations(s, d) + 1);
  }
}
