/**
 * Several data channels, one reader each. Every frame of a flow goes to the channel chosen by its flow id,
 * so whatever order the readers run in, the frames of one writer are seen in the order they were written.
 */
module ShardOrder {
  import opened Bytes
  import opened Fragmentation
  import opened Reassembly
  import opened Decoding
  import opened Delivery
  import opened LossyDelivery
  import opened WireDelivery

  /** One atomic frame write: frame i of datagram d, or a keepalive. */
  datatype Written = Piece(d: nat, i: nat) | Alive(flowID: uint32)

  /** One step of the receiving side: the reader of channel c takes a frame, or the sweeper runs. */
  datatype Turn = Pop(at: int, c: nat) | Sweep(at: int)

  /** Everything written to n channels, and a schedule of the readers. */
  datatype Shards = Shards(trains: seq<Train>, n: nat, written: seq<Written>, schedule: seq<Turn>)

  predicate WrittenOk(s: Shards) {
    forall k :: 0 <= k < |s.written| && s.written[k].Piece? ==> s.written[k].d < |s.trains|
  }

  function FlowOf(s: Shards, w: Written): uint32
    requires w.Piece? ==> w.d < |s.trains|
  {
    match w
    case Piece(d, _) => s.trains[d].flowID
    case Alive(flowID) => flowID
  }

  /** The positions, among the first m writes, of the frames on channel c. */
  function Queue(s: Shards, c: nat, m: nat): seq<nat>
    requires WrittenOk(s) && m <= |s.written|
  {
    if m == 0 then []
    else Queue(s, c, m - 1) + if ShardIndex(FlowOf(s, s.written[m - 1]), s.n) == c then [m - 1] else []
  }

  /** How many frames the reader of channel c took in its first k turns. */
  function Taken(s: Shards, c: nat, k: nat): nat
    requires k <= |s.schedule|
  {
    if k == 0 then 0
    else Taken(s, c, k - 1) + if s.schedule[k - 1].Pop? && s.schedule[k - 1].c == c then 1 else 0
  }

  /** A reader only takes what its channel holds. */
  predicate CanTake(s: Shards, k: nat)
    requires WrittenOk(s) && k < |s.schedule|
  {
    s.schedule[k].Pop? ==> Taken(s, s.schedule[k].c, k) < |Queue(s, s.schedule[k].c, |s.written|)|
  }

  ghost predicate Feasible(s: Shards) {
    WrittenOk(s) && forall k {:trigger CanTake(s, k)} :: 0 <= k < |s.schedule| ==> CanTake(s, k)
  }

  /** Which write turn k takes off its channel. */
  function Position(s: Shards, k: nat): (p: nat)
    requires Feasible(s) && k < |s.schedule| && s.schedule[k].Pop?
    ensures p < |s.written| && ShardIndex(FlowOf(s, s.written[p]), s.n) == s.schedule[k].c
  {
    assert CanTake(s, k);
    QueueFacts(s, s.schedule[k].c, |s.written|);
    Queue(s, s.schedule[k].c, |s.written|)[Taken(s, s.schedule[k].c, k)]
  }

  lemma {:induction false} QueueFacts(s: Shards, c: nat, m: nat)
    requires WrittenOk(s) && m <= |s.written|
    ensures forall p :: 0 <= p < |Queue(s, c, m)| ==>
      Queue(s, c, m)[p] < m && ShardIndex(FlowOf(s, s.written[Queue(s, c, m)[p]]), s.n) == c
    ensures forall p, q :: 0 <= p < q < |Queue(s, c, m)| ==> Queue(s, c, m)[p] < Queue(s, c, m)[q]
  {
    if m > 0 {
      QueueFacts(s, c, m - 1);
    }
  }

  /** The arrivals the receiver sees under the schedule. */
  function Arrivals(s: Shards): seq<Arrival>
    requires Feasible(s)
  {
    seq(|s.schedule|, k requires 0 <= k < |s.schedule| => ArrivalAt(s, k))
  }

  function ArrivalAt(s: Shards, k: nat): Arrival
    requires Feasible(s) && k < |s.schedule|
  {
    match s.schedule[k]
    case Sweep(at) => Tick(at)
    case Pop(at, c) =>
      match s.written[Position(s, k)]
      case Piece(d, i) => Frag(at, d, i)
      case Alive(flowID) => Keepalive(at, flowID)
  }

  function RunOf(s: Shards): Run
    requires Feasible(s)
  {
    Run(s.trains, Arrivals(s))
  }

  predicate PiecesOfOneFlow(s: Shards, j: nat, k: nat)
    requires WrittenOk(s) && j < |s.written| && k < |s.written|
  {
    s.written[j].Piece? && s.written[k].Piece? && FlowOf(s, s.written[j]) == FlowOf(s, s.written[k])
  }

  /**
   * `pump` names the goroutine that writes each datagram. A pump serves one flow and writes datagram after datagram,
   * fragment after fragment; a flow id can have several pumps, one after a removal of the other's flow.
   */
  ghost predicate PumpsWrittenInOrder(s: Shards, pump: seq<nat>) {
    && WrittenOk(s) && |pump| == |s.trains|
    && (forall c, d :: 0 <= c < |pump| && 0 <= d < |pump| && pump[c] == pump[d] ==> s.trains[c].flowID == s.trains[d].flowID)
    && forall j, k :: 0 <= j < k < |s.written| && PiecesOfOnePump(s, pump, j, k) ==> WrittenBefore(s.written[j], s.written[k])
  }

  predicate PiecesOfOnePump(s: Shards, pump: seq<nat>, j: nat, k: nat)
    requires WrittenOk(s) && |pump| == |s.trains| && j < |s.written| && k < |s.written|
  {
    s.written[j].Piece? && s.written[k].Piece? && pump[s.written[j].d] == pump[s.written[k].d]
  }

  predicate WrittenBefore(v: Written, w: Written)
    requires v.Piece? && w.Piece?
  {
    v.d < w.d || (v.d == w.d && v.i < w.i)
  }

  /** The frames of each flow id are written in order, as when it never has two pumps at a time. */
  ghost predicate FlowsWrittenInOrder(s: Shards) {
    && WrittenOk(s)
    && forall j, k :: 0 <= j < k < |s.written| && PiecesOfOneFlow(s, j, k) ==> WrittenBefore(s.written[j], s.written[k])
  }

  lemma {:induction false} TakenGrows(s: Shards, j: nat, k: nat)
    requires j < k <= |s.schedule| && s.schedule[j].Pop?
    ensures Taken(s, s.schedule[j].c, j) < Taken(s, s.schedule[j].c, k)
  {
    if j + 1 < k {
      TakenGrows(s, j, k - 1);
    }
  }

  /** A channel is FIFO: of two frames of one flow, the one read first was written first. */
  lemma ReadInWriteOrder(s: Shards, j: nat, k: nat)
    requires Feasible(s) && j < k < |s.schedule| && s.schedule[j].Pop? && s.schedule[k].Pop?
    requires FlowOf(s, s.written[Position(s, j)]) == FlowOf(s, s.written[Position(s, k)])
    ensures Position(s, j) < Position(s, k)
  {
    QueueFacts(s, s.schedule[j].c, |s.written|);
    assert CanTake(s, j) && CanTake(s, k) && s.schedule[j].c == s.schedule[k].c;
    TakenGrows(s, j, k);
  }

  /** Any schedule of the readers keeps the frames of every pump in order. */
  lemma ShardsKeepPumpsFifo(s: Shards, pump: seq<nat>)
    requires Feasible(s) && PumpsWrittenInOrder(s, pump)
    ensures LanesAreFifo(RunOf(s), pump)
  {
    var r := RunOf(s);
    forall j, k | 0 <= j < k < |r.events| && SameLane(r, pump, j, k)
      ensures r.events[j].d < r.events[k].d || (r.events[j].d == r.events[k].d && r.events[j].i < r.events[k].i)
    {
      assert r.events[j] == ArrivalAt(s, j) && r.events[k] == ArrivalAt(s, k);
      assert pump[r.events[j].d] == pump[r.events[k].d];
      ReadInWriteOrder(s, j, k);
      assert PiecesOfOnePump(s, pump, Position(s, j), Position(s, k));
    }
  }

  /** A flow that is written in order is a lane of its own. */
  lemma FlowsAsPumps(s: Shards)
    requires Feasible(s) && FlowsWrittenInOrder(s)
    ensures PumpsWrittenInOrder(s, FlowLanes(RunOf(s)))
  {
    var lanes := FlowLanes(RunOf(s));
    forall j, k | 0 <= j < k < |s.written| && PiecesOfOnePump(s, lanes, j, k)
      ensures WrittenBefore(s.written[j], s.written[k])
    {
      assert PiecesOfOneFlow(s, j, k);
    }
  }

  /** Any schedule of the readers leaves every flow FIFO. */
  lemma ShardsKeepFlowsFifo(s: Shards)
    requires Feasible(s) && FlowsWrittenInOrder(s)
    ensures FlowsAreFifo(RunOf(s))
  {
    FlowsAsPumps(s);
    ShardsKeepPumpsFifo(s, FlowLanes(RunOf(s)));
  }

  lemma FifoMeansOnce(r: Run, lane: seq<nat>)
    requires LanesAreFifo(r, lane) && WellFormed(r)
    ensures EachFrameOnce(r)
  {
    forall k {:trigger Got(r, k, r.events[k].d)} | 0 <= k < |r.events| && r.events[k].Frag?
      ensures r.events[k].i !in Got(r, k, r.events[k].d)
    {
      assert InRun(r, r.events[k]);
      forall i | i in Got(r, k, r.events[k].d) ensures i != r.events[k].i {
        var j := GotWitness(r, k, r.events[k].d, i);
        assert SameLane(r, lane, j, k);
      }
    }
  }

  // ----- fragment ids over a session -----

  /**
   * Fewer than 65536 fragmentations fall inside one reassembly timeout: fragments of datagrams that many
   * fragmentations apart arrive more than the timeout apart.
   */
  ghost predicate FragmentationsAreSlow(s: Transcript) {
    forall j: nat, k: nat :: j < k < |s.events| && FarApart(s, j, k) ==> s.events[k].at - s.events[j].at > TIMEOUT
  }

  ghost predicate FarApart(s: Transcript, j: nat, k: nat)
    requires j < |s.events| && k < |s.events|
  {
    && s.events[j].Frag? && s.events[k].Frag? && s.events[j].d < |s.writes| && s.events[k].d < |s.writes|
    && Splits(s.limits, s.writes[s.events[j].d]) && Splits(s.limits, s.writes[s.events[k].d])
    && Apart(Fragmentations(s, s.events[j].d), Fragmentations(s, s.events[k].d)) >= 0x1_0000
  }

  function Apart(a: nat, b: nat): nat {
    if a <= b then b - a else a - b
  }

  lemma {:induction false} LastFrame(r: Run, n: nat, d: nat) returns (j: nat)
    requires n <= |r.events| && Got(r, n, d) != {}
    ensures j < n && r.events[j].Frag? && r.events[j].d == d && r.events[j].at == LastAt(r, n, d)
  {
    if r.events[n - 1].Frag? && r.events[n - 1].d == d {
      j := n - 1;
    } else {
      j := LastFrame(r, n - 1, d);
    }
  }

  /** The 16-bit fragment ids of a session are reused slowly enough if the session fragments slowly enough. */
  lemma SlowFragmentationsReuseSlowly(s: Transcript)
    requires AllOnWire(s) && FragmentationsAreSlow(s)
    ensures ReuseIsSlow(Abstract(s))
  {
    var r := Abstract(s);
    forall k: nat, c: nat {:trigger LastAt(r, k, c), r.events[k]} |
      k < |r.events| && r.events[k].Frag? && c < |r.trains| && r.events[k].d < |r.trains| && c != r.events[k].d
      && Fragmented(r, c) && Fragmented(r, r.events[k].d)
      && SlotKey(r.trains[c]) == SlotKey(r.trains[r.events[k].d]) && Got(r, k, c) != {}
      ensures r.events[k].at - LastAt(r, k, c) > TIMEOUT
    {
      var d := r.events[k].d;
      var j := LastFrame(r, k, c);
      KeyInjective(r.trains[c].flowID, r.trains[c].fragID, r.trains[d].flowID, r.trains[d].fragID);
      SplitsExactly(s, c);
      SplitsExactly(s, d);
      if c < d {
        IDsRepeatSlowly(s, c, d);
      } else {
        IDsRepeatSlowly(s, d, c);
      }
      assert FarApart(s, j, k);
    }
  }

  /**
   * Order over shards. With any number of channels, one reader each in any schedule, any number of pumps a flow,
   * keepalives between fragments and sweeps at any time, the packets decoded for a pump are a subsequence of the
   * datagrams it wrote, in order.
   */
  lemma OrderOverShards(w: Transcript, s: Shards, pump: seq<nat>, n: nat, p: nat)
    requires AllOnWire(w) && FragmentationsAreSlow(w)
    requires Feasible(s) && PumpsWrittenInOrder(s, pump) && RunOf(s) == Abstract(w) && n <= |w.events|
    ensures WellFormed(Abstract(w)) && LaneOrderedSoFar(Abstract(w), n, pump, p)
    ensures forall k :: 0 <= k < |w.events| ==> DecodedAt(w, k) == PacketAt(Abstract(w), k)
  {
    var r := Abstract(w);
    AbstractWellFormed(w);
    SlowFragmentationsReuseSlowly(w);
    ShardsKeepPumpsFifo(s, pump);
    FifoMeansOnce(r, pump);
    LaneSubsequence(r, n, pump, p);
    forall k | 0 <= k < |w.events| ensures DecodedAt(w, k) == PacketAt(r, k) {
      DecodedIsAbstract(w, k);
    }
  }

  // ----- when a flow is decoded in order -----

  predicate LastPiecesOfOneFlow(s: Shards, j: nat, k: nat)
    requires WrittenOk(s) && j < |s.written| && k < |s.written|
  {
    PiecesOfOneFlow(s, j, k) && IsLastPiece(s, s.written[j]) && IsLastPiece(s, s.written[k])
  }

  predicate IsLastPiece(s: Shards, w: Written)
    requires w.Piece? ==> w.d < |s.trains|
  {
    w.Piece? && w.i == |s.trains[w.d].pieces| - 1
  }

  /** The datagrams of each flow end in order: their last pieces are written in order, whatever lies between. */
  ghost predicate EndInOrder(s: Shards)
    requires WrittenOk(s)
  {
    forall j, k :: 0 <= j < k < |s.written| && LastPiecesOfOneFlow(s, j, k) ==> s.written[j].d < s.written[k].d
  }

  lemma ArrivalIsWritten(s: Shards, n: nat)
    requires Feasible(s) && n < |s.schedule| && RunOf(s).events[n].Frag?
    ensures s.schedule[n].Pop? && s.written[Position(s, n)] == Piece(RunOf(s).events[n].d, RunOf(s).events[n].i)
  {
    assert RunOf(s).events[n] == ArrivalAt(s, n);
  }

  lemma EndsMeanDecoded(s: Shards, pump: seq<nat>)
    requires Feasible(s) && PumpsWrittenInOrder(s, pump) && EndInOrder(s) && WellFormed(RunOf(s)) && AllRight(RunOf(s))
    ensures DecodedInOrder(RunOf(s))
  {
    var r := RunOf(s);
    ShardsKeepPumpsFifo(s, pump);
    forall m, n | 0 <= m < n < |r.events| && BothDeliver(r, m, n) ensures r.events[m].d < r.events[n].d {
      assert RightOrNothing(r, m) && RightOrNothing(r, n) && InRun(r, r.events[m]) && InRun(r, r.events[n]);
      LastPieceCompletes(r, pump, m);
      LastPieceCompletes(r, pump, n);
      ArrivalIsWritten(s, m);
      ArrivalIsWritten(s, n);
      ReadInWriteOrder(s, m, n);
      assert LastPiecesOfOneFlow(s, Position(s, m), Position(s, n));
    }
  }

  /** Where every frame arrives, the last piece written at j is read at some event, and completes its datagram. */
  lemma LastPieceDelivers(s: Shards, pump: seq<nat>, j: nat) returns (n: nat)
    requires Feasible(s) && PumpsWrittenInOrder(s, pump) && Benign(RunOf(s))
    requires j < |s.written| && IsLastPiece(s, s.written[j])
    ensures n < |s.schedule| && s.schedule[n].Pop? && Position(s, n) == j
    ensures RunOf(s).events[n].Frag? && RunOf(s).events[n].d == s.written[j].d
    ensures PacketAt(RunOf(s), n) == Some(Original(s.trains[s.written[j].d]))
  {
    var r, d, i := RunOf(s), s.written[j].d, s.written[j].i;
    ShardsKeepPumpsFifo(s, pump);
    assert Complete(r, |r.events|, d);
    n := GotWitness(r, |r.events|, d, i);
    ArrivalIsWritten(s, n);
    SamePosition(s, pump, Position(s, n), j);
    assert InRun(r, r.events[n]);
    CompleteAtLastPiece(r, pump, n);
    EndToEnd(r, n);
  }

  lemma SamePosition(s: Shards, pump: seq<nat>, j: nat, k: nat)
    requires PumpsWrittenInOrder(s, pump) && j < |s.written| && k < |s.written|
    requires s.written[j].Piece? && s.written[j] == s.written[k]
    ensures j == k
  {
    assert PiecesOfOnePump(s, pump, j, k) && PiecesOfOnePump(s, pump, k, j);
  }

  lemma EndsOfTwo(s: Shards, pump: seq<nat>, j: nat, k: nat)
    requires Feasible(s) && PumpsWrittenInOrder(s, pump) && Benign(RunOf(s)) && DecodedInOrder(RunOf(s))
    requires j < k < |s.written| && LastPiecesOfOneFlow(s, j, k)
    ensures s.written[j].d < s.written[k].d
  {
    var m := LastPieceDelivers(s, pump, j);
    var n := LastPieceDelivers(s, pump, k);
    ReadAsWritten(s, m, n, j, k);
    assert BothDeliver(RunOf(s), m, n);
  }

  lemma ReadAsWritten(s: Shards, m: nat, n: nat, j: nat, k: nat)
    requires Feasible(s) && m < |s.schedule| && n < |s.schedule| && s.schedule[m].Pop? && s.schedule[n].Pop?
    requires Position(s, m) == j < k == Position(s, n)
    requires FlowOf(s, s.written[j]) == FlowOf(s, s.written[k])
    ensures m < n
  {
    if n < m {
      ReadInWriteOrder(s, n, m);
    }
  }

  lemma DecodedMeansEnds(s: Shards, pump: seq<nat>)
    requires Feasible(s) && PumpsWrittenInOrder(s, pump) && Benign(RunOf(s)) && DecodedInOrder(RunOf(s))
    ensures EndInOrder(s)
  {
    forall j, k | 0 <= j < k < |s.written| && LastPiecesOfOneFlow(s, j, k) ensures s.written[j].d < s.written[k].d {
      EndsOfTwo(s, pump, j, k);
    }
  }

  lemma BenignIsRight(r: Run)
    requires Benign(r)
    ensures AllRight(r)
  {
    forall n | 0 <= n < |r.events| ensures RightOrNothing(r, n) {
      EndToEnd(r, n);
      assert InRun(r, r.events[n]);
    }
  }

  /**
   * The exact condition for the decoded order, whatever pumps a flow has and whatever the schedule: where every frame
   * arrives in time, the flows are decoded in order if and only if their datagrams end in order.
   */
  lemma DecodedInOrderExactly(s: Shards, pump: seq<nat>)
    requires Feasible(s) && PumpsWrittenInOrder(s, pump) && Benign(RunOf(s))
    ensures DecodedInOrder(RunOf(s)) <==> EndInOrder(s)
  {
    if EndInOrder(s) {
      BenignIsRight(RunOf(s));
      EndsMeanDecoded(s, pump);
    } else if DecodedInOrder(RunOf(s)) {
      DecodedMeansEnds(s, pump);
    }
  }

  /** With frames lost or late, ending in order is still enough for the order of a whole flow. */
  lemma FlowOrderOverShards(w: Transcript, s: Shards, pump: seq<nat>, n: nat, flowID: uint32)
    requires AllOnWire(w) && FragmentationsAreSlow(w)
    requires Feasible(s) && PumpsWrittenInOrder(s, pump) && EndInOrder(s) && RunOf(s) == Abstract(w) && n <= |w.events|
    ensures WellFormed(Abstract(w)) && OrderedSoFar(Abstract(w), n, flowID)
  {
    var r := Abstract(w);
    AbstractWellFormed(w);
    SlowFragmentationsReuseSlowly(w);
    forall k | 0 <= k < |r.events| ensures RightOrNothing(r, k) {
      NeverWrong(r, k);
    }
    EndsMeanDecoded(s, pump);
    InOrderMeansSubsequence(r, n, flowID);
  }

  /** A flow whose frames are written in order ends in order. */
  lemma WrittenInOrderEndsInOrder(s: Shards)
    requires FlowsWrittenInOrder(s)
    ensures EndInOrder(s)
  {
    forall j, k | 0 <= j < k < |s.written| && LastPiecesOfOneFlow(s, j, k) ensures s.written[j].d < s.written[k].d {
      assert WrittenBefore(s.written[j], s.written[k]);
    }
  }

  // ----- when a flow is written in order -----

  /** Datagrams are numbered as they are begun, and a datagram is begun with its first frame. */
  ghost predicate NumberedAsBegun(s: Shards) {
    && WrittenOk(s)
    && (forall j, k :: 0 <= j < k < |s.written| && FirstFramesOfOneFlow(s, j, k) ==> s.written[j].d < s.written[k].d)
    && (forall k {:trigger Begun(s, k, s.written[k].d)} :: 0 <= k < |s.written| && s.written[k].Piece? ==>
          Begun(s, k, s.written[k].d))
  }

  predicate FirstFramesOfOneFlow(s: Shards, j: nat, k: nat)
    requires WrittenOk(s) && j < |s.written| && k < |s.written|
  {
    PiecesOfOneFlow(s, j, k) && s.written[j].i == 0 && s.written[k].i == 0
  }

  ghost predicate Begun(s: Shards, k: nat, d: nat)
    requires k < |s.written|
  {
    exists j :: 0 <= j <= k && s.written[j] == Piece(d, 0)
  }

  /** No datagram of a flow is written into while another of that flow is under way. */
  ghost predicate Uninterrupted(s: Shards)
    requires WrittenOk(s)
  {
    forall j, k, l :: 0 <= j < k < l < |s.written| ==> !Interrupts(s, j, k, l)
  }

  /** Between two frames of one datagram there is a frame of another of the same flow. */
  predicate Interrupts(s: Shards, j: nat, k: nat, l: nat)
    requires WrittenOk(s) && j < k < l < |s.written|
  {
    PiecesOfOneFlow(s, j, k) && PiecesOfOneFlow(s, k, l) && s.written[j].d == s.written[l].d != s.written[k].d
  }

  /** Whatever pumps a flow has, its frames are in order exactly when none of them interrupts a datagram of another. */
  lemma FlowInOrderExactly(s: Shards, pump: seq<nat>)
    requires PumpsWrittenInOrder(s, pump) && NumberedAsBegun(s)
    ensures FlowsWrittenInOrder(s) <==> Uninterrupted(s)
  {
    if Uninterrupted(s) {
      forall j, k | 0 <= j < k < |s.written| && PiecesOfOneFlow(s, j, k) ensures WrittenBefore(s.written[j], s.written[k]) {
        if s.written[j].d == s.written[k].d {
          assert PiecesOfOnePump(s, pump, j, k);
        } else {
          BegunInOrder(s, j, k);
        }
      }
    }
  }

  /** A flow has one pump at a time: between two frames of one pump there is none of another of the same flow. */
  ghost predicate OnePumpAtATime(s: Shards, pump: seq<nat>)
    requires WrittenOk(s) && |pump| == |s.trains|
  {
    forall j, k, l :: 0 <= j < k < l < |s.written| && PiecesOfOnePump(s, pump, j, l) && PiecesOfOneFlow(s, j, k) ==>
      PiecesOfOnePump(s, pump, j, k)
  }

  /** So a flow whose pump has returned before the next flow of the id is tabled is written in order. */
  lemma OnePumpWritesInOrder(s: Shards, pump: seq<nat>)
    requires PumpsWrittenInOrder(s, pump) && NumberedAsBegun(s) && OnePumpAtATime(s, pump)
    ensures FlowsWrittenInOrder(s)
  {
    forall j, k, l | 0 <= j < k < l < |s.written| ensures !Interrupts(s, j, k, l) {
      if Interrupts(s, j, k, l) {
        assert PiecesOfOnePump(s, pump, j, l);
        assert PiecesOfOnePump(s, pump, j, k) && PiecesOfOnePump(s, pump, k, l);
      }
    }
    FlowInOrderExactly(s, pump);
  }

  lemma BegunInOrder(s: Shards, j: nat, k: nat)
    requires NumberedAsBegun(s) && Uninterrupted(s) && j < k < |s.written| && PiecesOfOneFlow(s, j, k)
    requires s.written[j].d != s.written[k].d
    ensures s.written[j].d < s.written[k].d
  {
    var j0 := FirstFrame(s, j);
    var k0 := FirstFrame(s, k);
    var late := k0 < j && Interrupts(s, k0, j, k);
    assert FirstFramesOfOneFlow(s, j0, k0);
  }

  lemma FirstFrame(s: Shards, k: nat) returns (j: nat)
    requires NumberedAsBegun(s) && k < |s.written| && s.written[k].Piece?
    ensures j <= k && s.written[j] == Piece(s.written[k].d, 0)
  {
    assert Begun(s, k, s.written[k].d);
    j :| 0 <= j <= k && s.written[j] == Piece(s.written[k].d, 0);
  }

  // ----- two pumps of one flow -----

  /** Two pumps of one flow write their fragments in turn. */
  predicate TakeTurns(s: Shards) {
    && s.trains == [Train(7, 1, [[1], [2]]), Train(7, 2, [[3], [4]])]
    && s.written == [Piece(0, 0), Piece(1, 0), Piece(0, 1), Piece(1, 1)]
  }

  lemma TurnsWrite(s: Shards)
    requires TakeTurns(s)
    ensures PumpsWrittenInOrder(s, [0, 1]) && !FlowsWrittenInOrder(s) && EndInOrder(s)
  {
    assert s.written[1] == Piece(1, 0) && s.written[2] == Piece(0, 1);
    assert PiecesOfOneFlow(s, 1, 2) && !WrittenBefore(s.written[1], s.written[2]);
  }

  lemma TurnsAreRight(s: Shards)
    requires TakeTurns(s) && Feasible(s)
    ensures WellFormed(RunOf(s)) && AllRight(RunOf(s))
  {
    var r := RunOf(s);
    var one: bytes, two: bytes, three: bytes, four: bytes := [1], [2], [3], [4];
    assert [one, two][1..] == [two] && [three, four][1..] == [four];
    FlattenOne(two);
    FlattenOne(four);
    forall k | 0 <= k < |r.events| ensures InRun(r, r.events[k]) {
      if r.events[k].Frag? {
        ArrivalIsWritten(s, k);
      }
    }
    assert !Confusable(s.trains[0], s.trains[1]) && !Confusable(s.trains[1], s.trains[0]);
    forall k | 0 <= k < |r.events| ensures RightOrNothing(r, k) {
      NeverWrong(r, k);
    }
  }

  /** Their frames are out of order, but they end in order, and every schedule decodes them in order. */
  lemma TurnsAreDecodedInOrder(s: Shards)
    requires TakeTurns(s) && Feasible(s)
    ensures PumpsWrittenInOrder(s, [0, 1]) && !FlowsWrittenInOrder(s)
    ensures WellFormed(RunOf(s)) && DecodedInOrder(RunOf(s))
  {
    TurnsWrite(s);
    TurnsAreRight(s);
    EndsMeanDecoded(s, [0, 1]);
  }

  /**
   * A flow whose reader removed it while its pump was between two fragments, and the next flow of the same id: the
   * old pump's last fragment follows a datagram of the new pump on the one channel.
   */
  function TwoPumps(): Shards {
    Shards([Train(7, 1, [[1], [2]]), Train(7, 2, [[3]])], 1, [Piece(0, 0), Piece(1, 0), Piece(0, 1)],
           [Pop(0, 0), Pop(0, 0), Pop(0, 0)])
  }

  lemma TwoPumpsQueue(s: Shards)
    requires s == TwoPumps()
    ensures Feasible(s) && Arrivals(s) == [Frag(0, 0, 0), Frag(0, 1, 0), Frag(0, 0, 1)]
  {
    assert Queue(s, 0, 1) == [0] && Queue(s, 0, 2) == [0, 1] && Queue(s, 0, 3) == [0, 1, 2];
    assert Taken(s, 0, 1) == 1 && Taken(s, 0, 2) == 2;
    assert ArrivalAt(s, 0) == Frag(0, 0, 0) && ArrivalAt(s, 1) == Frag(0, 1, 0) && ArrivalAt(s, 2) == Frag(0, 0, 1);
  }

  lemma TwoPumpsWrite(s: Shards)
    requires s == TwoPumps()
    ensures PumpsWrittenInOrder(s, [0, 1]) && NumberedAsBegun(s) && !Uninterrupted(s)
  {
    forall j, k | 0 <= j < k < |s.written| && PiecesOfOnePump(s, [0, 1], j, k) ensures WrittenBefore(s.written[j], s.written[k]) {
      assert s.written[j] == Piece(0, 0) && s.written[k] == Piece(0, 1);
    }
    assert s.written[0] == Piece(0, 0) && s.written[1] == Piece(1, 0);
    assert Begun(s, 0, 0) && Begun(s, 1, 1) && Begun(s, 2, 0);
    assert Interrupts(s, 0, 1, 2);
  }

  /** Each pump writes in order, and still the datagram begun second is decoded first. */
  lemma PumpsOvertake(s: Shards, r: Run)
    requires s == TwoPumps() && Feasible(s) && r == RunOf(s)
    ensures PumpsWrittenInOrder(s, [0, 1]) && NumberedAsBegun(s) && !Uninterrupted(s)
    ensures WellFormed(r) && FlowOutputs(r, 3, 7) == [Packet(7, [3]), Packet(7, [1, 2])]
  {
    TwoPumpsQueue(s);
    TwoPumpsWrite(s);
    TwoPumpsDecode(r);
  }

  lemma FlattenOne(b: bytes)
    ensures Flatten([b]) == b
  {
    assert [b][1..] == [] && b + [] == b;
  }

  lemma TwoPumpsSlots(r: Run)
    requires r == Run(TwoPumps().trains, [Frag(0, 0, 0), Frag(0, 1, 0), Frag(0, 0, 1)])
    ensures WellFormed(r) && PacketAt(r, 0) == None && PacketAt(r, 1) == Some(Packet(7, [3]))
    ensures SlotsAt(r, 2) == map[Key(7, 1) := Slot(2, [Some([1]), None], 1, 1, 0)]
  {
    var one: bytes, two: bytes, three: bytes := [1], [2], [3];
    assert [one, two][1..] == [two];
    FlattenOne(two);
    FlattenOne(three);
    assert InRun(r, r.events[0]) && InRun(r, r.events[1]) && InRun(r, r.events[2]);
    assert NoFragments(2) == [None, None];
    assert Store(Blank(2, 0), 0, one, 0) == Slot(2, [Some(one), None], 1, 1, 0);
    SlotsAtNext(r, 0, 1);
    SlotsAtNext(r, 1, 2);
  }

  lemma TwoPumpsDecode(r: Run)
    requires r == Run(TwoPumps().trains, [Frag(0, 0, 0), Frag(0, 1, 0), Frag(0, 0, 1)])
    ensures WellFormed(r) && FlowOutputs(r, 3, 7) == [Packet(7, [3]), Packet(7, [1, 2])]
  {
    TwoPumpsSlots(r);
    var one: bytes, two: bytes := [1], [2];
    var full := Store(Slot(2, [Some(one), None], 1, 1, 0), 1, two, 0);
    assert full.frags == [Some(one), Some(two)];
    assert Joined(full.frags) == [1, 2] by {
      assert full.frags[1..] == [Some(two)];
      assert Joined([Some(two)]) == two + Joined([]);
    }
    assert PacketAt(r, 2) == Some(Packet(7, [1, 2]));
    FlowOutputsNext(r, 0, 1, 7);
    FlowOutputsNext(r, 1, 2, 7);
    FlowOutputsNext(r, 2, 3, 7);
  }
}
