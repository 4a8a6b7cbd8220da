/**
 * What survives loss: when frames go missing, come late, or find the table full, datagrams are lost, but
 * nothing wrong is delivered, nothing is delivered twice, and a FIFO flow stays in order.
 */
module LossyDelivery {
  import opened Bytes
  import opened Reassembly
  import opened ReassemblyHistory
  import opened Decoding
  import opened Delivery

  /** The reassembler cannot tell fragments of one from fragments of the other. */
  predicate Confusable(s: Train, t: Train) {
    |s.pieces| > 1 && SlotKey(s) == SlotKey(t) && |s.pieces| == |t.pieces|
  }

  /** A slot key is reused by another datagram of as many fragments only after the reassembly timeout. */
  ghost predicate ReuseIsSlow(r: Run) {
    forall k: nat, c: nat {:trigger LastAt(r, k, c), r.events[k]} ::
      k < |r.events| && r.events[k].Frag? && c < |r.trains| && r.events[k].d < |r.trains| && c != r.events[k].d
      && Fragmented(r, c) && Fragmented(r, r.events[k].d)
      && Confusable(r.trains[c], r.trains[r.events[k].d]) && Got(r, k, c) != {}
      ==> r.events[k].at - LastAt(r, k, c) > TIMEOUT
  }

  /** Slot k holds received pieces of datagram d and nothing else. */
  ghost predicate PartOf(r: Run, n: nat, slot: Slot, key: nat, d: nat)
    requires n <= |r.events|
  {
    && d < |r.trains| && Fragmented(r, d) && SlotKey(r.trains[d]) == key
    && Got(r, n, d) != {}
    && slot.lastSeen <= LastAt(r, n, d)
    && PiecesOf(slot, r.trains[d].pieces, Got(r, n, d))
  }

  predicate PiecesOf(slot: Slot, pieces: seq<bytes>, got: set<nat>) {
    && |slot.frags| == slot.fragCnt == |pieces|
    && slot.count == Present(slot.frags)
    && forall i :: 0 <= i < |slot.frags| ==> slot.frags[i] == None || (slot.frags[i] == Some(pieces[i]) && i in got)
  }

  ghost predicate Genuine(r: Run, n: nat, slots: Slots, owner: map<nat, nat>)
    requires n <= |r.events|
  {
    forall k :: k in slots ==> k in owner && PartOf(r, n, slots[k], k, owner[k])
  }

  lemma StoreGenuine(slot: Slot, pieces: seq<bytes>, got: set<nat>, i: nat, at: int)
    requires i < |pieces| && PiecesOf(slot, pieces, got) && slot.frags[i] == None
    ensures PiecesOf(Store(slot, i, pieces[i], at), pieces, got + {i})
    ensures var filled := Store(slot, i, pieces[i], at);
      filled.count >= filled.fragCnt ==> AllIn(got + {i}, |pieces|) && Joined(filled.frags) == Flatten(pieces)
  {
    var filled := Store(slot, i, pieces[i], at);
    StoreCounts(slot.frags, i, pieces[i]);
    PresentExactly(filled.frags);
    if filled.count >= filled.fragCnt {
      JoinedIsFlatten(filled.frags, pieces);
    }
  }

  lemma FillGenuine(kept: Slots, key: nat, slot: Slot, pieces: seq<bytes>, got: set<nat>, i: nat, at: int)
    requires i < |pieces| && PiecesOf(slot, pieces, got)
    ensures var x := Fill(kept, key, slot, i, pieces[i], at);
      && (forall k :: k in x.slots && k != key ==> k in kept && x.slots[k] == kept[k])
      && (key in x.slots ==> PiecesOf(x.slots[key], pieces, got + {i}) && x.slots[key].lastSeen == at)
      && (x.datagram.Some? ==> AllIn(got + {i}, |pieces|) && x.datagram == Some(Flatten(pieces)))
  {
    if slot.frags[i] == None {
      StoreGenuine(slot, pieces, got, i, at);
    }
  }

  lemma TakeFills(slots: Slots, at: int, t: Train, i: nat, kept: Slots)
    requires SlotsOk(slots) && TrainOk(t) && i < |t.pieces| && |t.pieces| > 1
    requires kept == Retained(slots, at, SlotKey(t), |t.pieces|)
    ensures forall k :: k in kept ==> k in slots && kept[k] == slots[k]
    ensures i < |Target(kept, SlotKey(t), |t.pieces|, at).frags|
    ensures var x := Fill(kept, SlotKey(t), Target(kept, SlotKey(t), |t.pieces|, at), i, t.pieces[i], at);
      TakePiece(slots, at, t, i)
      == if SlotKey(t) !in kept && |kept.Keys| >= MAX_SLOTS then Decoded(kept, None)
         else Decoded(x.slots, if x.datagram.Some? then Some(Packet(t.flowID, x.datagram.value)) else None)
  {
    assert SlotKey(t) in slots ==> SlotOk(slots[SlotKey(t)]);
  }

  /** A piece entering a slot of its own datagram keeps the slot genuine, and a completed slot is the datagram. */
  lemma TakeGenuine(slots: Slots, at: int, t: Train, got: set<nat>, i: nat)
    requires SlotsOk(slots) && TrainOk(t) && i < |t.pieces| && |t.pieces| > 1
    requires SlotKey(t) in Retained(slots, at, SlotKey(t), |t.pieces|) ==> PiecesOf(slots[SlotKey(t)], t.pieces, got)
    ensures var x := TakePiece(slots, at, t, i);
      && (forall k :: k in x.slots && k != SlotKey(t) ==> k in slots && x.slots[k] == slots[k])
      && (SlotKey(t) in x.slots ==> PiecesOf(x.slots[SlotKey(t)], t.pieces, got + {i}) && x.slots[SlotKey(t)].lastSeen == at)
      && (x.packet.Some? ==> AllIn(got + {i}, |t.pieces|) && x.packet == Some(Original(t)))
  {
    var key := SlotKey(t);
    var kept := Retained(slots, at, key, |t.pieces|);
    EmptyFragments(|t.pieces|);
    TakeFills(slots, at, t, i, kept);
    if key in kept || |kept.Keys| < MAX_SLOTS {
      FillGenuine(kept, key, Target(kept, key, |t.pieces|, at), t.pieces, got, i, at);
    }
  }

  lemma SameDatagram(r: Run, n: nat, slots: Slots, owner: map<nat, nat>, d: nat)
    requires n < |r.events| && ReuseIsSlow(r) && Genuine(r, n, slots, owner)
    requires r.events[n].Frag? && r.events[n].d == d < |r.trains| && Fragmented(r, d)
    ensures var key := SlotKey(r.trains[d]);
      key in Retained(slots, r.events[n].at, key, |r.trains[d].pieces|) ==> owner[key] == d
  {
    var key := SlotKey(r.trains[d]);
    if key in Retained(slots, r.events[n].at, key, |r.trains[d].pieces|) {
      assert PartOf(r, n, slots[key], key, owner[key]);
      assert Confusable(r.trains[owner[key]], r.trains[d]);
      var at, last := r.events[n].at, LastAt(r, n, owner[key]);
      assert owner[key] == d || at - last > TIMEOUT;
    }
  }

  lemma PartStays(r: Run, n: nat, next: nat, slot: Slot, key: nat, c: nat)
    requires n < |r.events| && next == n + 1 && PartOf(r, n, slot, key, c)
    requires !(r.events[n].Frag? && Fragmented(r, c) && r.events[n].d == c)
    ensures PartOf(r, next, slot, key, c)
  {
    OthersUntouched(r, n, c);
  }

  lemma PartGrows(r: Run, n: nat, next: nat, slot: Slot, d: nat)
    requires n < |r.events| && next == n + 1 && d < |r.trains| && Fragmented(r, d)
    requires r.events[n].Frag? && r.events[n].d == d && slot.lastSeen == r.events[n].at
    requires PiecesOf(slot, r.trains[d].pieces, Got(r, n, d) + {r.events[n].i})
    ensures PartOf(r, next, slot, SlotKey(r.trains[d]), d)
  {
    assert r.events[n].i in Got(r, next, d);
  }

  lemma GenuineAfter(r: Run, n: nat, next: nat, slots: Slots, after: Slots, owner: map<nat, nat>, d: nat)
    requires n < |r.events| && next == n + 1 && Genuine(r, n, slots, owner)
    requires r.events[n].Frag? && r.events[n].d == d < |r.trains|
    requires forall k :: k in after && k != SlotKey(r.trains[d]) ==> k in slots && after[k] == slots[k]
    requires SlotKey(r.trains[d]) in after ==> PartOf(r, next, after[SlotKey(r.trains[d])], SlotKey(r.trains[d]), d)
    ensures Genuine(r, next, after, owner[SlotKey(r.trains[d]) := d])
  {
    forall k | k in after && k != SlotKey(r.trains[d]) ensures PartOf(r, next, after[k], k, owner[k]) {
      assert PartOf(r, n, slots[k], k, owner[k]);
      PartStays(r, n, next, slots[k], k, owner[k]);
    }
  }

  lemma GenuineFragment(r: Run, n: nat, slots: Slots, owner: map<nat, nat>, d: nat)
    requires SlotsOk(slots) && n < |r.events| && InRun(r, r.events[n]) && ReuseIsSlow(r) && Genuine(r, n, slots, owner)
    requires r.events[n].Frag? && r.events[n].d == d && Fragmented(r, d)
    ensures Genuine(r, n + 1, Take(r, slots, r.events[n]).slots, owner[SlotKey(r.trains[d]) := d])
    ensures Take(r, slots, r.events[n]).packet.Some? ==>
      Complete(r, n + 1, d) && Take(r, slots, r.events[n]).packet == Some(Original(r.trains[d]))
  {
    var e, key, next := r.events[n], SlotKey(r.trains[d]), n + 1;
    var after := TakePiece(slots, e.at, r.trains[d], e.i).slots;
    SameDatagram(r, n, slots, owner, d);
    assert key in slots ==> PartOf(r, n, slots[key], key, owner[key]);
    TakeGenuine(slots, e.at, r.trains[d], Got(r, n, d), e.i);
    CompletedNow(r, n, next, d);
    if key in after {
      PartGrows(r, n, next, after[key], d);
    }
    GenuineAfter(r, n, next, slots, after, owner, d);
  }

  lemma CompletedNow(r: Run, n: nat, next: nat, d: nat)
    requires n < |r.events| && next == n + 1 && d < |r.trains| && r.events[n].Frag? && r.events[n].d == d
    ensures AllIn(Got(r, n, d) + {r.events[n].i}, |r.trains[d].pieces|) ==> Complete(r, next, d)
  {
    assert Got(r, next, d) == Got(r, n, d) + {r.events[n].i};
  }

  lemma GenuineOther(r: Run, n: nat, slots: Slots, owner: map<nat, nat>)
    requires SlotsOk(slots) && n < |r.events| && InRun(r, r.events[n]) && Genuine(r, n, slots, owner)
    requires r.events[n].Frag? ==> !Fragmented(r, r.events[n].d)
    ensures Genuine(r, n + 1, Take(r, slots, r.events[n]).slots, owner)
  {
    var after, next := Take(r, slots, r.events[n]).slots, n + 1;
    forall k | k in after ensures PartOf(r, next, after[k], k, owner[k]) {
      assert PartOf(r, n, slots[k], k, owner[k]);
      PartStays(r, n, next, slots[k], k, owner[k]);
    }
  }

  ghost predicate TableGenuine(r: Run, n: nat)
    requires WellFormed(r) && n <= |r.events|
  {
    exists owner :: Genuine(r, n, SlotsAt(r, n), owner)
  }

  /** A packet handed out at event n, if any, is the datagram whose last missing frame arrived at event n. */
  ghost predicate RightOrNothing(r: Run, n: nat)
    requires n < |r.events| && WellFormed(r)
  {
    PacketAt(r, n).Some? ==>
      && r.events[n].Frag? && r.events[n].d < |r.trains|
      && Complete(r, n + 1, r.events[n].d)
      && PacketAt(r, n) == Some(Original(r.trains[r.events[n].d]))
  }

  lemma GenuineTake(r: Run, n: nat, slots: Slots, owner: map<nat, nat>) returns (owner': map<nat, nat>)
    requires SlotsOk(slots) && n < |r.events| && InRun(r, r.events[n]) && ReuseIsSlow(r) && Genuine(r, n, slots, owner)
    ensures Genuine(r, n + 1, Take(r, slots, r.events[n]).slots, owner')
    ensures Take(r, slots, r.events[n]).packet.Some? ==>
      && r.events[n].Frag? && Complete(r, n + 1, r.events[n].d)
      && Take(r, slots, r.events[n]).packet == Some(Original(r.trains[r.events[n].d]))
  {
    var e := r.events[n];
    if e.Frag? && Fragmented(r, e.d) {
      owner' := owner[SlotKey(r.trains[e.d]) := e.d];
      GenuineFragment(r, n, slots, owner, e.d);
    } else {
      owner' := owner;
      GenuineOther(r, n, slots, owner);
      if e.Frag? {
        PlainStep(r, n, slots, e);
      }
    }
  }

  lemma GenuineStep(r: Run, n: nat, next: nat)
    requires WellFormed(r) && ReuseIsSlow(r) && n < |r.events| && next == n + 1 && TableGenuine(r, n)
    ensures TableGenuine(r, next) && RightOrNothing(r, n)
  {
    assert InRun(r, r.events[n]);
    SlotsAtNext(r, n, next);
    var owner :| Genuine(r, n, SlotsAt(r, n), owner);
    var owner' := GenuineTake(r, n, SlotsAt(r, n), owner);
  }

  lemma {:induction false} AlwaysGenuine(r: Run, n: nat)
    requires WellFormed(r) && ReuseIsSlow(r) && n <= |r.events|
    ensures TableGenuine(r, n)
  {
    if n == 0 {
      var none: map<nat, nat> := map[];
      assert Genuine(r, 0, SlotsAt(r, 0), none);
    } else {
      AlwaysGenuine(r, n - 1);
      GenuineStep(r, n - 1, n);
    }
  }

  /**
   * Safety without any delivery assumption: frames may be lost, reordered or delayed, the table may be full,
   * and still every packet handed to the local service is a datagram that was written, complete and unchanged.
   */
  lemma NeverWrong(r: Run, n: nat)
    requires WellFormed(r) && ReuseIsSlow(r) && n < |r.events|
    ensures RightOrNothing(r, n)
  {
    AlwaysGenuine(r, n);
    GenuineStep(r, n, n + 1);
  }

  /** Each datagram is delivered at most once. */
  lemma NeverTwice(r: Run, m: nat, n: nat)
    requires WellFormed(r) && ReuseIsSlow(r) && EachFrameOnce(r) && m < n < |r.events|
    requires PacketAt(r, m).Some? && PacketAt(r, n).Some?
    ensures r.events[m].Frag? && r.events[n].Frag? && r.events[m].d != r.events[n].d
  {
    OutputIsComplete(r, m);
    OutputIsComplete(r, n);
    NothingAfterComplete(r, m + 1, n);
  }

  lemma OutputIsComplete(r: Run, n: nat)
    requires WellFormed(r) && ReuseIsSlow(r) && n < |r.events| && PacketAt(r, n).Some?
    ensures r.events[n].Frag? && r.events[n].d < |r.trains| && Complete(r, n + 1, r.events[n].d)
  {
    NeverWrong(r, n);
  }

  lemma NothingAfterComplete(r: Run, m: nat, n: nat)
    requires WellFormed(r) && EachFrameOnce(r) && m <= n < |r.events| && r.events[n].Frag?
    ensures r.events[n].d < |r.trains| && !Complete(r, m, r.events[n].d)
  {
    assert InRun(r, r.events[n]);
    GotGrows(r, m, n, r.events[n].d);
    assert r.events[n].i !in Got(r, n, r.events[n].d);
  }

  lemma {:induction false} GotGrows(r: Run, m: nat, n: nat, d: nat)
    requires m <= n <= |r.events|
    ensures Got(r, m, d) <= Got(r, n, d)
  {
    if m < n {
      GotGrows(r, m, n - 1, d);
    }
  }

  // ----- order -----

  /** `lane` assigns each datagram to a lane: to its flow, or to the goroutine that writes it. */
  predicate SameLane(r: Run, lane: seq<nat>, j: nat, k: nat)
    requires j < |r.events| && k < |r.events|
  {
    && r.events[j].Frag? && r.events[k].Frag? && r.events[j].d < |lane| && r.events[k].d < |lane|
    && lane[r.events[j].d] == lane[r.events[k].d]
  }

  /** The frames of one lane arrive in the order they were written. */
  ghost predicate LanesAreFifo(r: Run, lane: seq<nat>) {
    && |lane| == |r.trains|
    && forall j, k :: 0 <= j < k < |r.events| && SameLane(r, lane, j, k) ==>
         r.events[j].d < r.events[k].d || (r.events[j].d == r.events[k].d && r.events[j].i < r.events[k].i)
  }

  predicate InLane(e: Arrival, lane: seq<nat>, w: nat) {
    e.Frag? && e.d < |lane| && lane[e.d] == w
  }

  /** What is handed out before event n at arrivals of lane w. */
  function LaneOutputs(r: Run, n: nat, lane: seq<nat>, w: nat): seq<Packet>
    requires WellFormed(r) && n <= |r.events|
  {
    if n == 0 then []
    else
      var p := PacketAt(r, n - 1);
      LaneOutputs(r, n - 1, lane, w) + if p.Some? && InLane(r.events[n - 1], lane, w) then [p.value] else []
  }

  /** These packets are the datagrams `order`, all of lane w, in the order they were written. */
  ghost predicate InOrder(r: Run, packets: seq<Packet>, lane: seq<nat>, w: nat, order: seq<nat>) {
    && |packets| == |order|
    && (forall k :: 0 <= k < |order| ==> order[k] < |r.trains| && order[k] < |lane| && lane[order[k]] == w)
    && (forall k :: 0 <= k < |order| ==> packets[k] == Original(r.trains[order[k]]))
    && (forall j, k :: 0 <= j < k < |order| ==> order[j] < order[k])
  }

  /** Every datagram delivered so far was completed by an earlier arrival. */
  ghost predicate CompletedBy(r: Run, n: nat, order: seq<nat>)
    requires n <= |r.events|
  {
    forall k :: 0 <= k < |order| ==> order[k] < |r.trains| && Complete(r, n, order[k]) && Got(r, n, order[k]) != {}
  }

  lemma {:induction false} GotWitness(r: Run, n: nat, d: nat, i: nat) returns (k: nat)
    requires n <= |r.events| && i in Got(r, n, d)
    ensures k < n && r.events[k].Frag? && r.events[k].d == d && r.events[k].i == i
  {
    if r.events[n - 1].Frag? && r.events[n - 1].d == d && r.events[n - 1].i == i {
      k := n - 1;
    } else {
      k := GotWitness(r, n - 1, d, i);
    }
  }

  lemma LaterThanCompleted(r: Run, lane: seq<nat>, n: nat, c: nat)
    requires WellFormed(r) && EachFrameOnce(r) && LanesAreFifo(r, lane) && n < |r.events|
    requires InRun(r, r.events[n]) && r.events[n].Frag? && c < |r.trains| && Complete(r, n, c) && Got(r, n, c) != {}
    requires lane[c] == lane[r.events[n].d]
    ensures c < r.events[n].d
  {
    var i :| i in Got(r, n, c);
    var k := GotWitness(r, n, c, i);
    assert SameLane(r, lane, k, n);
    assert r.events[n].i !in Got(r, n, r.events[n].d);
  }

  ghost predicate LaneOrderedSoFar(r: Run, n: nat, lane: seq<nat>, w: nat)
    requires WellFormed(r) && n <= |r.events|
  {
    exists order :: InOrder(r, LaneOutputs(r, n, lane, w), lane, w, order) && CompletedBy(r, n, order)
  }

  lemma {:induction false} StillComplete(r: Run, n: nat, d: nat)
    requires n < |r.events| && d < |r.trains|
    ensures Got(r, n, d) <= Got(r, n + 1, d)
    ensures Complete(r, n, d) ==> Complete(r, n + 1, d)
  {
  }

  lemma LaneOutputsNext(r: Run, n: nat, next: nat, lane: seq<nat>, w: nat)
    requires WellFormed(r) && n < |r.events| && next == n + 1
    ensures LaneOutputs(r, next, lane, w)
         == if PacketAt(r, n).Some? && InLane(r.events[n], lane, w) then LaneOutputs(r, n, lane, w) + [PacketAt(r, n).value]
            else LaneOutputs(r, n, lane, w)
  {
  }

  lemma CompletedStays(r: Run, n: nat, next: nat, order: seq<nat>)
    requires n < |r.events| && next == n + 1 && CompletedBy(r, n, order)
    ensures CompletedBy(r, next, order)
  {
    forall k | 0 <= k < |order| ensures Complete(r, next, order[k]) && Got(r, next, order[k]) != {} {
      StillComplete(r, n, order[k]);
    }
  }

  lemma LaterThanAll(r: Run, lane: seq<nat>, n: nat, w: nat, order: seq<nat>)
    requires WellFormed(r) && EachFrameOnce(r) && LanesAreFifo(r, lane) && n < |r.events| && CompletedBy(r, n, order)
    requires InRun(r, r.events[n]) && InLane(r.events[n], lane, w)
    requires forall k :: 0 <= k < |order| ==> order[k] < |lane| && lane[order[k]] == w
    ensures forall k :: 0 <= k < |order| ==> order[k] < r.events[n].d
  {
    forall k | 0 <= k < |order| ensures order[k] < r.events[n].d {
      LaterThanCompleted(r, lane, n, order[k]);
    }
  }

  lemma CompletedToo(r: Run, n: nat, next: nat, order: seq<nat>, d: nat)
    requires n < |r.events| && next == n + 1 && CompletedBy(r, n, order)
    requires r.events[n].Frag? && r.events[n].d == d < |r.trains| && Complete(r, next, d)
    ensures CompletedBy(r, next, order + [d])
  {
    CompletedStays(r, n, next, order);
    assert r.events[n].i in Got(r, next, d);
  }

  lemma ExtendInOrder(r: Run, n: nat, next: nat, lane: seq<nat>, w: nat, before: seq<nat>, order: seq<nat>)
    requires WellFormed(r) && EachFrameOnce(r) && LanesAreFifo(r, lane) && n < |r.events| && next == n + 1
    requires RightOrNothing(r, n)
    requires InOrder(r, LaneOutputs(r, n, lane, w), lane, w, before) && CompletedBy(r, n, before)
    requires PacketAt(r, n).Some? && InLane(r.events[n], lane, w) && order == before + [r.events[n].d]
    ensures InOrder(r, LaneOutputs(r, next, lane, w), lane, w, order) && CompletedBy(r, next, order)
  {
    var d := r.events[n].d;
    assert InRun(r, r.events[n]);
    CompletedToo(r, n, next, before, d);
    LaterThanAll(r, lane, n, w, before);
    LaneOutputsNext(r, n, next, lane, w);
    InOrderSnoc(r, LaneOutputs(r, n, lane, w), lane, w, before, d);
  }

  lemma InOrderSnoc(r: Run, packets: seq<Packet>, lane: seq<nat>, w: nat, order: seq<nat>, d: nat)
    requires InOrder(r, packets, lane, w, order) && d < |r.trains| && d < |lane| && lane[d] == w
    requires forall k :: 0 <= k < |order| ==> order[k] < d
    ensures InOrder(r, packets + [Original(r.trains[d])], lane, w, order + [d])
  {
  }

  lemma OrderStep(r: Run, n: nat, next: nat, lane: seq<nat>, w: nat)
    requires WellFormed(r) && ReuseIsSlow(r) && EachFrameOnce(r) && LanesAreFifo(r, lane) && n < |r.events| && next == n + 1
    requires LaneOrderedSoFar(r, n, lane, w)
    ensures LaneOrderedSoFar(r, next, lane, w)
  {
    NeverWrong(r, n);
    var before :| InOrder(r, LaneOutputs(r, n, lane, w), lane, w, before) && CompletedBy(r, n, before);
    if PacketAt(r, n).Some? && InLane(r.events[n], lane, w) {
      ExtendInOrder(r, n, next, lane, w, before, before + [r.events[n].d]);
    } else {
      LaneOutputsNext(r, n, next, lane, w);
      CompletedStays(r, n, next, before);
      assert InOrder(r, LaneOutputs(r, next, lane, w), lane, w, before);
    }
  }

  lemma NothingYet(r: Run, lane: seq<nat>, w: nat)
    requires WellFormed(r)
    ensures LaneOrderedSoFar(r, 0, lane, w)
  {
    var none: seq<nat> := [];
    assert InOrder(r, LaneOutputs(r, 0, lane, w), lane, w, none) && CompletedBy(r, 0, none);
  }

  /** The datagrams decoded for one FIFO lane are a subsequence of those written in it, in order. */
  lemma {:induction false} LaneSubsequence(r: Run, n: nat, lane: seq<nat>, w: nat)
    requires WellFormed(r) && ReuseIsSlow(r) && EachFrameOnce(r) && LanesAreFifo(r, lane) && n <= |r.events|
    ensures LaneOrderedSoFar(r, n, lane, w)
  {
    if n == 0 {
      NothingYet(r, lane, w);
    } else {
      LaneSubsequence(r, n - 1, lane, w);
      OrderStep(r, n - 1, n, lane, w);
    }
  }

  // ----- order within a flow -----

  function FlowLanes(r: Run): seq<nat> {
    seq(|r.trains|, d requires 0 <= d < |r.trains| => r.trains[d].flowID)
  }

  /** The frames of one flow arrive in the order they were written. */
  ghost predicate FlowsAreFifo(r: Run) {
    LanesAreFifo(r, FlowLanes(r))
  }

  /** What a flow's local service has received before event n. */
  function FlowOutputs(r: Run, n: nat, flowID: uint32): seq<Packet>
    requires WellFormed(r) && n <= |r.events|
  {
    if n == 0 then []
    else
      var p := PacketAt(r, n - 1);
      FlowOutputs(r, n - 1, flowID) + if p.Some? && p.value.flowID == flowID then [p.value] else []
  }

  ghost predicate OrderedSoFar(r: Run, n: nat, flowID: uint32)
    requires WellFormed(r) && n <= |r.events|
  {
    exists order :: InOrder(r, FlowOutputs(r, n, flowID), FlowLanes(r), flowID, order) && CompletedBy(r, n, order)
  }

  lemma FlowOutputsNext(r: Run, n: nat, next: nat, flowID: uint32)
    requires WellFormed(r) && n < |r.events| && next == n + 1
    ensures var p := PacketAt(r, n);
      FlowOutputs(r, next, flowID)
      == if p.Some? && p.value.flowID == flowID then FlowOutputs(r, n, flowID) + [p.value] else FlowOutputs(r, n, flowID)
  {
  }

  lemma PacketInItsFlow(r: Run, n: nat, flowID: uint32)
    requires WellFormed(r) && ReuseIsSlow(r) && n < |r.events| && PacketAt(r, n).Some?
    ensures PacketAt(r, n).value.flowID == flowID <==> InLane(r.events[n], FlowLanes(r), flowID)
  {
    NeverWrong(r, n);
  }

  ghost predicate BothOutputs(r: Run, n: nat, flowID: uint32, packets: seq<Packet>)
    requires WellFormed(r) && n <= |r.events|
  {
    packets == FlowOutputs(r, n, flowID) && packets == LaneOutputs(r, n, FlowLanes(r), flowID)
  }

  ghost predicate FlowIsALane(r: Run, n: nat, flowID: uint32)
    requires WellFormed(r) && n <= |r.events|
  {
    exists packets :: BothOutputs(r, n, flowID, packets)
  }

  lemma FlowLaneStep(r: Run, n: nat, next: nat, flowID: uint32)
    requires WellFormed(r) && ReuseIsSlow(r) && n < |r.events| && next == n + 1 && FlowIsALane(r, n, flowID)
    ensures FlowIsALane(r, next, flowID)
  {
    var packets :| BothOutputs(r, n, flowID, packets);
    FlowOutputsNext(r, n, next, flowID);
    LaneOutputsNext(r, n, next, FlowLanes(r), flowID);
    if PacketAt(r, n).Some? {
      PacketInItsFlow(r, n, flowID);
    }
    assert BothOutputs(r, next, flowID, FlowOutputs(r, next, flowID));
  }

  lemma {:induction false} FlowsAreLanes(r: Run, n: nat, flowID: uint32)
    requires WellFormed(r) && ReuseIsSlow(r) && n <= |r.events|
    ensures FlowIsALane(r, n, flowID)
  {
    if n == 0 {
      assert BothOutputs(r, 0, flowID, []);
    } else {
      FlowsAreLanes(r, n - 1, flowID);
      FlowLaneStep(r, n - 1, n, flowID);
    }
  }

  /** The datagrams decoded for one FIFO flow are a subsequence of those written for it, in order. */
  lemma FlowSubsequence(r: Run, n: nat, flowID: uint32)
    requires WellFormed(r) && ReuseIsSlow(r) && EachFrameOnce(r) && FlowsAreFifo(r) && n <= |r.events|
    ensures OrderedSoFar(r, n, flowID)
  {
    LaneSubsequence(r, n, FlowLanes(r), flowID);
    FlowsAreLanes(r, n, flowID);
    var packets :| BothOutputs(r, n, flowID, packets);
    var order :| InOrder(r, LaneOutputs(r, n, FlowLanes(r), flowID), FlowLanes(r), flowID, order) && CompletedBy(r, n, order);
    assert InOrder(r, FlowOutputs(r, n, flowID), FlowLanes(r), flowID, order);
  }

  // ----- the order of what is decoded -----

  /** Events m and n each hand out a packet, and both packets are of one flow. */
  predicate BothDeliver(r: Run, m: nat, n: nat)
    requires WellFormed(r) && m < |r.events| && n < |r.events|
  {
    && r.events[m].Frag? && r.events[n].Frag? && PacketAt(r, m).Some? && PacketAt(r, n).Some?
    && PacketAt(r, m).value.flowID == PacketAt(r, n).value.flowID
  }

  /** Of two packets of a flow the one handed out first is the datagram with the smaller number. */
  ghost predicate DecodedInOrder(r: Run)
    requires WellFormed(r)
  {
    forall m, n :: 0 <= m < n < |r.events| && BothDeliver(r, m, n) ==> r.events[m].d < r.events[n].d
  }

  ghost predicate AllRight(r: Run)
    requires WellFormed(r)
  {
    forall n :: 0 <= n < |r.events| ==> RightOrNothing(r, n)
  }

  /** Event m handed out datagram d, of this flow. */
  predicate HandedOutAt(r: Run, m: nat, flowID: uint32, d: nat)
    requires WellFormed(r) && m < |r.events|
  {
    r.events[m].Frag? && r.events[m].d == d && HandsOut(r, m, flowID)
  }

  predicate HandsOut(r: Run, n: nat, flowID: uint32)
    requires WellFormed(r) && n < |r.events|
  {
    PacketAt(r, n).Some? && PacketAt(r, n).value.flowID == flowID
  }

  ghost predicate HandedOutBefore(r: Run, n: nat, flowID: uint32, d: nat)
    requires WellFormed(r) && n <= |r.events|
  {
    exists m :: 0 <= m < n && HandedOutAt(r, m, flowID, d)
  }

  ghost predicate AllHandedOut(r: Run, n: nat, flowID: uint32, order: seq<nat>)
    requires WellFormed(r) && n <= |r.events|
  {
    forall k :: 0 <= k < |order| ==> HandedOutBefore(r, n, flowID, order[k])
  }

  /** The flow's packets before event n are the datagrams `order`, in order, each handed out at some earlier event. */
  ghost predicate FlowOrderFits(r: Run, n: nat, flowID: uint32, order: seq<nat>)
    requires WellFormed(r) && n <= |r.events|
  {
    && InOrder(r, FlowOutputs(r, n, flowID), FlowLanes(r), flowID, order)
    && CompletedBy(r, n, order) && AllHandedOut(r, n, flowID, order)
  }

  ghost predicate FlowOrderedSoFar(r: Run, n: nat, flowID: uint32)
    requires WellFormed(r) && n <= |r.events|
  {
    exists order :: FlowOrderFits(r, n, flowID, order)
  }

  lemma HandedOutStays(r: Run, n: nat, next: nat, flowID: uint32, order: seq<nat>)
    requires WellFormed(r) && n < |r.events| && next == n + 1 && AllHandedOut(r, n, flowID, order)
    ensures AllHandedOut(r, next, flowID, order)
  {
    forall k | 0 <= k < |order| ensures HandedOutBefore(r, next, flowID, order[k]) {
      assert HandedOutBefore(r, n, flowID, order[k]);
    }
  }

  lemma HandedOutToo(r: Run, n: nat, next: nat, flowID: uint32, order: seq<nat>, d: nat)
    requires WellFormed(r) && n < |r.events| && next == n + 1 && AllHandedOut(r, n, flowID, order)
    requires HandedOutAt(r, n, flowID, d)
    ensures AllHandedOut(r, next, flowID, order + [d])
  {
    HandedOutStays(r, n, next, flowID, order);
    assert HandedOutBefore(r, next, flowID, d);
  }

  lemma LaterThanHandedOut(r: Run, n: nat, flowID: uint32, order: seq<nat>, d: nat)
    requires WellFormed(r) && n < |r.events| && DecodedInOrder(r)
    requires AllHandedOut(r, n, flowID, order) && HandedOutAt(r, n, flowID, d)
    ensures forall k :: 0 <= k < |order| ==> order[k] < d
  {
    forall k | 0 <= k < |order| ensures order[k] < d {
      assert HandedOutBefore(r, n, flowID, order[k]);
      var m :| 0 <= m < n && HandedOutAt(r, m, flowID, order[k]);
      assert BothDeliver(r, m, n);
    }
  }

  lemma AppendToOrder(r: Run, n: nat, next: nat, flowID: uint32, before: seq<nat>)
    requires WellFormed(r) && n < |r.events| && next == n + 1 && RightOrNothing(r, n) && DecodedInOrder(r)
    requires FlowOrderFits(r, n, flowID, before) && HandsOut(r, n, flowID)
    ensures r.events[n].Frag? && FlowOrderFits(r, next, flowID, before + [r.events[n].d])
  {
    var d := r.events[n].d;
    assert InRun(r, r.events[n]);
    FlowOutputsNext(r, n, next, flowID);
    CompletedToo(r, n, next, before, d);
    HandedOutToo(r, n, next, flowID, before, d);
    LaterThanHandedOut(r, n, flowID, before, d);
    InOrderSnoc(r, FlowOutputs(r, n, flowID), FlowLanes(r), flowID, before, d);
  }

  lemma KeepOrder(r: Run, n: nat, next: nat, flowID: uint32, before: seq<nat>)
    requires WellFormed(r) && n < |r.events| && next == n + 1
    requires FlowOrderFits(r, n, flowID, before) && !HandsOut(r, n, flowID)
    ensures FlowOrderFits(r, next, flowID, before)
  {
    FlowOutputsNext(r, n, next, flowID);
    CompletedStays(r, n, next, before);
    HandedOutStays(r, n, next, flowID, before);
  }

  lemma FlowOrderStep(r: Run, n: nat, next: nat, flowID: uint32)
    requires WellFormed(r) && n < |r.events| && next == n + 1 && AllRight(r) && DecodedInOrder(r)
    requires FlowOrderedSoFar(r, n, flowID)
    ensures FlowOrderedSoFar(r, next, flowID)
  {
    assert RightOrNothing(r, n);
    var before :| FlowOrderFits(r, n, flowID, before);
    if HandsOut(r, n, flowID) {
      AppendToOrder(r, n, next, flowID, before);
    } else {
      KeepOrder(r, n, next, flowID, before);
    }
  }

  lemma FlowOrderStarts(r: Run, flowID: uint32)
    requires WellFormed(r)
    ensures FlowOrderedSoFar(r, 0, flowID)
  {
    assert FlowOrderFits(r, 0, flowID, []);
  }

  lemma {:induction false} FlowOrderIsOrder(r: Run, n: nat, flowID: uint32)
    requires WellFormed(r) && AllRight(r) && DecodedInOrder(r) && n <= |r.events|
    ensures FlowOrderedSoFar(r, n, flowID)
  {
    if n == 0 {
      FlowOrderStarts(r, flowID);
    } else {
      FlowOrderIsOrder(r, n - 1, flowID);
      FlowOrderStep(r, n - 1, n, flowID);
    }
  }

  /** If a flow is decoded in order, its packets are a subsequence of its datagrams, in order. */
  lemma InOrderMeansSubsequence(r: Run, n: nat, flowID: uint32)
    requires WellFormed(r) && AllRight(r) && DecodedInOrder(r) && n <= |r.events|
    ensures OrderedSoFar(r, n, flowID)
  {
    FlowOrderIsOrder(r, n, flowID);
    var order :| FlowOrderFits(r, n, flowID, order);
  }

  /** In a FIFO lane it is the last piece of a datagram that completes it. */
  lemma LastPieceCompletes(r: Run, lane: seq<nat>, n: nat)
    requires WellFormed(r) && LanesAreFifo(r, lane) && n < |r.events| && InRun(r, r.events[n]) && r.events[n].Frag?
    requires Complete(r, n + 1, r.events[n].d)
    ensures r.events[n].i == |r.trains[r.events[n].d].pieces| - 1
  {
    var e, next := r.events[n], n + 1;
    var last := |r.trains[e.d].pieces| - 1;
    assert last in Got(r, next, e.d);
    if e.i != last {
      var k := GotWitness(r, n, e.d, last);
      assert SameLane(r, lane, k, n);
    }
  }

  /** And when the last piece arrives, everything that will ever arrive of the datagram has. */
  lemma CompleteAtLastPiece(r: Run, lane: seq<nat>, n: nat)
    requires WellFormed(r) && LanesAreFifo(r, lane) && n < |r.events| && InRun(r, r.events[n]) && r.events[n].Frag?
    requires r.events[n].i == |r.trains[r.events[n].d].pieces| - 1 && Complete(r, |r.events|, r.events[n].d)
    ensures Complete(r, n + 1, r.events[n].d)
  {
    var d, next := r.events[n].d, n + 1;
    forall i | 0 <= i < |r.trains[d].pieces| ensures i in Got(r, next, d) {
      var k := GotWitness(r, |r.events|, d, i);
      var later := n < k && SameLane(r, lane, n, k);
      GotHas(r, k, next, d);
    }
  }

  lemma {:induction false} GotHas(r: Run, k: nat, n: nat, d: nat)
    requires k < n <= |r.events| && r.events[k].Frag? && r.events[k].d == d
    ensures r.events[k].i in Got(r, n, d)
  {
    if k + 1 < n {
      GotHas(r, k, n - 1, d);
    }
  }

  // ----- the hypothesis is needed -----

  /** Two two-piece datagrams of one flow that were given the same fragment id. */
  function TwinRun(): Run {
    Run([Train(7, 1, [[1], [2]]), Train(7, 1, [[3], [4]])], [Frag(0, 0, 0), Frag(TIMEOUT, 1, 1)])
  }

  lemma TwinFacts(r: Run)
    requires r == TwinRun()
    ensures Original(r.trains[0]) == Packet(7, [1, 2]) && Original(r.trains[1]) == Packet(7, [3, 4])
    ensures WellFormed(r)
    ensures Got(r, 1, 0) == {0} && Got(r, 0, 0) == {} && Got(r, 1, 1) == {} && LastAt(r, 1, 0) == 0
  {
    var one: bytes, two: bytes, three: bytes, four: bytes := [1], [2], [3], [4];
    assert [one, two][1..] == [two] && [three, four][1..] == [four];
    assert Flatten([two]) == two + Flatten([]) && Flatten([four]) == four + Flatten([]);
    assert InRun(r, r.events[0]) && InRun(r, r.events[1]);
  }

  /** Reusing an id within the timeout mixes datagrams: a packet comes out that nobody wrote. */
  lemma FastReuseMixes(r: Run)
    requires r == TwinRun()
    ensures WellFormed(r) && EachFrameOnce(r) && FlowsAreFifo(r) && !ReuseIsSlow(r)
    ensures PacketAt(r, 1) == Some(Packet(7, [1, 4]))
    ensures Original(r.trains[0]).payload == [1, 2] && Original(r.trains[1]).payload == [3, 4]
  {
    TwinFacts(r);
    TwinHypotheses(r);
    TwinMix(r);
  }

  lemma TwinHypotheses(r: Run)
    requires r == TwinRun()
    ensures EachFrameOnce(r) && FlowsAreFifo(r) && !ReuseIsSlow(r)
  {
    TwinFacts(r);
    forall k {:trigger Got(r, k, r.events[k].d)} | 0 <= k < |r.events| && r.events[k].Frag?
      ensures r.events[k].i !in Got(r, k, r.events[k].d)
    {
      assert k == 0 || k == 1;
    }
    assert !(r.events[1].at - LastAt(r, 1, 0) > TIMEOUT);
  }

  lemma TwinMix(r: Run)
    requires r == TwinRun() && WellFormed(r)
    ensures PacketAt(r, 1) == Some(Packet(7, [1, 4]))
  {
    var key := Key(7, 1);
    var one: bytes, four: bytes := [1], [4];
    assert NoFragments(2) == [None, None];
    var half := Slot(2, [Some(one), None], 1, 1, 0);
    assert SlotsAt(r, 0) == map[];
    SlotsAtNext(r, 0, 1);
    assert SlotsAt(r, 1) == map[key := half] by {
      assert Store(Blank(2, 0), 0, one, 0) == half;
    }
    var full := Store(half, 1, four, TIMEOUT);
    assert full.frags == [Some(one), Some(four)];
    assert Joined(full.frags) == [1, 4] by {
      assert full.frags[1..] == [Some(four)];
      assert Joined([Some(four)]) == four + Joined([]);
    }
  }
}
