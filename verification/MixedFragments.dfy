/**
 * Which mixes of fragments can come out. The reassembler tells fragments apart by flow id, fragment id, count and
 * index alone; this says exactly, for a list of datagrams, when that is enough, whatever is lost and however late.
 */
module MixedFragments {
  import opened Bytes
  import opened FrameCodec
  import opened Fragmentation
  import opened Reassembly
  import opened ReassemblyHistory
  import opened Decoding
  import opened Delivery
  import opened LossyDelivery

  /** For each index a datagram to take that piece from, all of one slot key and one count. */
  ghost predicate Choice(trains: seq<Train>, choice: seq<nat>) {
    1 < |choice| && forall k :: 0 <= k < |choice| ==> Chosen(trains, choice, k)
  }

  predicate Chosen(trains: seq<Train>, choice: seq<nat>, k: nat)
    requires 0 < |choice| && k < |choice|
  {
    && choice[k] < |trains| && choice[0] < |trains|
    && |trains[choice[k]].pieces| == |choice| && SlotKey(trains[choice[k]]) == SlotKey(trains[choice[0]])
  }

  function Pieces(trains: seq<Train>, choice: seq<nat>): seq<bytes>
    requires Choice(trains, choice)
  {
    seq(|choice|, k requires 0 <= k < |choice| => assert Chosen(trains, choice, k); trains[choice[k]].pieces[k])
  }

  function Mixed(trains: seq<Train>, choice: seq<nat>): Train
    requires Choice(trains, choice)
  {
    assert Chosen(trains, choice, 0);
    Train(trains[choice[0]].flowID, trains[choice[0]].fragID, Pieces(trains, choice))
  }

  /** Exactly those pieces arrive, in index order. */
  function MixedRun(trains: seq<Train>, choice: seq<nat>): Run {
    Run(trains, seq(|choice|, k requires 0 <= k < |choice| => Frag(0, choice[k], k)))
  }

  // ----- a mix is delivered as if it were one datagram -----

  /** All pieces of one datagram, one after the other. */
  function InOrderRun(t: Train): Run {
    Run([t], seq(|t.pieces|, k requires 0 <= k < |t.pieces| => Frag(0, 0, k)))
  }

  lemma {:induction false} GotInOrder(t: Train, n: nat)
    requires n <= |t.pieces|
    ensures forall i :: i in Got(InOrderRun(t), n, 0) <==> 0 <= i < n
    ensures LastAt(InOrderRun(t), n, 0) == 0
  {
    if n > 0 {
      GotInOrder(t, n - 1);
    }
  }

  lemma InOrderRunIsBenign(t: Train)
    requires TrainOk(t)
    ensures Benign(InOrderRun(t)) && Complete(InOrderRun(t), |t.pieces|, 0)
  {
    var r := InOrderRun(t);
    forall n | 0 <= n <= |r.events|
      ensures (forall i :: i in Got(r, n, 0) <==> 0 <= i < n) && LastAt(r, n, 0) == 0
      ensures |OpenSet(r, n)| <= MAX_SLOTS && DistinctKeys(r, OpenSet(r, n))
    {
      GotInOrder(t, n);
      assert OpenSet(r, n) <= {0};
      SubsetOfOne(OpenSet(r, n));
    }
  }

  lemma SubsetOfOne(s: set<nat>)
    requires s <= {0}
    ensures |s| <= 1
  {
    if 0 in s {
      assert s == {0};
    } else {
      assert s == {};
    }
  }

  /** The receiver does the same at the n-th event of both runs. */
  ghost predicate SameStep(r: Run, x: Run, n: nat) {
    && n < |r.events| && n < |x.events| && InRun(r, r.events[n]) && InRun(x, x.events[n])
    && forall slots {:trigger SameTake(r, x, n, slots)} :: SlotsOk(slots) ==> SameTake(r, x, n, slots)
  }

  predicate SameTake(r: Run, x: Run, n: nat, slots: Slots)
    requires n < |r.events| && n < |x.events| && InRun(r, r.events[n]) && InRun(x, x.events[n]) && SlotsOk(slots)
  {
    Take(r, slots, r.events[n]) == Take(x, slots, x.events[n])
  }

  lemma SameSlotsNext(r: Run, x: Run, n: nat, next: nat)
    requires WellFormed(r) && WellFormed(x) && n < |r.events| && n < |x.events| && next == n + 1
    requires SameStep(r, x, n) && SlotsAt(r, n) == SlotsAt(x, n)
    ensures SlotsAt(r, next) == SlotsAt(x, next) && PacketAt(r, n) == PacketAt(x, n)
  {
    SlotsAtNext(r, n, next);
    SlotsAtNext(x, n, next);
    assert SameTake(r, x, n, SlotsAt(r, n));
  }

  lemma {:induction false} SameSlots(r: Run, x: Run, n: nat)
    requires WellFormed(r) && WellFormed(x) && n <= |r.events| && n <= |x.events|
    requires forall k :: 0 <= k < n ==> SameStep(r, x, k)
    ensures SlotsAt(r, n) == SlotsAt(x, n)
  {
    if n > 0 {
      SameSlots(r, x, n - 1);
      SameSlotsNext(r, x, n - 1, n);
    }
  }

  lemma SamePackets(r: Run, x: Run, n: nat)
    requires WellFormed(r) && WellFormed(x) && n < |r.events| && n < |x.events|
    requires forall k :: 0 <= k <= n ==> SameStep(r, x, k)
    ensures PacketAt(r, n) == PacketAt(x, n)
  {
    SameSlots(r, x, n);
    SameSlotsNext(r, x, n, n + 1);
  }

  ghost predicate AllOk(trains: seq<Train>) {
    forall d :: 0 <= d < |trains| ==> TrainOk(trains[d])
  }

  lemma SameFragment(s: Train, t: Train, i: nat, slots: Slots)
    requires SlotsOk(slots) && i < |s.pieces| == |t.pieces| <= MAX_FRAGMENTS
    requires SlotKey(s) == SlotKey(t) && s.pieces[i] == t.pieces[i]
    ensures TakePiece(slots, 0, s, i) == TakePiece(slots, 0, t, i)
  {
    KeyInjective(s.flowID, s.fragID, t.flowID, t.fragID);
  }

  lemma MixedStep(trains: seq<Train>, choice: seq<nat>, n: nat)
    requires AllOk(trains) && Choice(trains, choice) && TrainOk(Mixed(trains, choice)) && n < |choice|
    ensures SameStep(MixedRun(trains, choice), InOrderRun(Mixed(trains, choice)), n)
  {
    var r, x := MixedRun(trains, choice), InOrderRun(Mixed(trains, choice));
    assert Chosen(trains, choice, n) && Chosen(trains, choice, 0);
    forall slots | SlotsOk(slots) ensures SameTake(r, x, n, slots) {
      SameFragment(trains[choice[n]], Mixed(trains, choice), n, slots);
    }
  }

  /** To the receiver the pieces of a mix are those of one datagram, and that datagram comes out. */
  lemma MixComesOut(trains: seq<Train>, choice: seq<nat>)
    requires AllOk(trains) && Choice(trains, choice) && TrainOk(Mixed(trains, choice))
    ensures WellFormed(MixedRun(trains, choice))
    ensures PacketAt(MixedRun(trains, choice), |choice| - 1) == Some(Original(Mixed(trains, choice)))
  {
    var r, x, n := MixedRun(trains, choice), InOrderRun(Mixed(trains, choice)), |choice| - 1;
    forall k | 0 <= k <= n ensures SameStep(r, x, k) && InRun(r, r.events[k]) && InRun(x, x.events[k]) {
      MixedStep(trains, choice, k);
    }
    SamePackets(r, x, n);
    InOrderRunIsBenign(Mixed(trains, choice));
    EndToEnd(x, n);
  }

  // ----- what can be forged -----

  /** The packet is a datagram that was written and not dropped. */
  ghost predicate Sent(trains: seq<Train>, p: Packet) {
    exists d :: 0 <= d < |trains| && trains[d].pieces != [] && Original(trains[d]) == p
  }

  /** Whatever arrives, in whatever order and at whatever times, only written datagrams come out. */
  ghost predicate NothingForged(trains: seq<Train>) {
    forall r: Run, n: nat :: r.trains == trains && WellFormed(r) && n < |r.events| && PacketAt(r, n).Some? ==>
      Sent(trains, PacketAt(r, n).value)
  }

  /** Every mix that is no longer than a datagram may be is itself a written datagram. */
  ghost predicate MixesAreSent(trains: seq<Train>) {
    forall choice :: Choice(trains, choice) && TrainOk(Mixed(trains, choice)) ==>
      Sent(trains, Original(Mixed(trains, choice)))
  }

  /** Some datagram with this key and count has v as its i-th piece. */
  ghost predicate FromSome(trains: seq<Train>, key: nat, count: nat, i: nat, v: bytes) {
    exists c :: 0 <= c < |trains| && HasPiece(trains[c], key, count, i, v)
  }

  predicate HasPiece(t: Train, key: nat, count: nat, i: nat, v: bytes) {
    SlotKey(t) == key && |t.pieces| == count && i < count && t.pieces[i] == v
  }

  ghost predicate Mixture(trains: seq<Train>, key: nat, slot: Slot) {
    && 1 < slot.fragCnt == |slot.frags|
    && forall i :: 0 <= i < |slot.frags| && slot.frags[i].Some? ==>
         FromSome(trains, key, slot.fragCnt, i, slot.frags[i].value)
  }

  ghost predicate Mixtures(trains: seq<Train>, slots: Slots) {
    forall key :: key in slots ==> Mixture(trains, key, slots[key])
  }

  lemma StoreMixture(trains: seq<Train>, key: nat, slot: Slot, i: nat, payload: bytes, at: int)
    requires Mixture(trains, key, slot) && i < |slot.frags| && FromSome(trains, key, slot.fragCnt, i, payload)
    ensures Mixture(trains, key, Store(slot, i, payload, at))
  {
  }

  /** Every index of a full slot has a piece of some datagram: that is a choice. */
  lemma FullIsChoice(trains: seq<Train>, key: nat, slot: Slot) returns (choice: seq<nat>)
    requires Mixture(trains, key, slot) && forall i :: 0 <= i < |slot.frags| ==> slot.frags[i].Some?
    ensures Choice(trains, choice) && SlotKey(Mixed(trains, choice)) == key
    ensures |Pieces(trains, choice)| == |slot.frags|
    ensures forall i :: 0 <= i < |slot.frags| ==> slot.frags[i] == Some(Pieces(trains, choice)[i])
  {
    choice := seq(|slot.frags|, i requires 0 <= i < |slot.frags| =>
      assert FromSome(trains, key, slot.fragCnt, i, slot.frags[i].value);
      var c: nat :| c < |trains| && HasPiece(trains[c], key, slot.fragCnt, i, slot.frags[i].value); c);
    forall k | 0 <= k < |choice| ensures Chosen(trains, choice, k) {
    }
  }

  lemma FullIsMixed(trains: seq<Train>, key: nat, slot: Slot) returns (choice: seq<nat>)
    requires AllOk(trains) && Mixture(trains, key, slot) && |Joined(slot.frags)| <= MAX_DATAGRAM
    requires forall i :: 0 <= i < |slot.frags| ==> slot.frags[i].Some?
    ensures Choice(trains, choice) && SlotKey(Mixed(trains, choice)) == key && TrainOk(Mixed(trains, choice))
    ensures Joined(slot.frags) == Original(Mixed(trains, choice)).payload
  {
    choice := FullIsChoice(trains, key, slot);
    JoinedIsFlatten(slot.frags, Pieces(trains, choice));
    assert Chosen(trains, choice, 0);
  }

  lemma FilledSlot(slot: Slot, i: nat, payload: bytes, at: int)
    requires Fillable(slot) && i < |slot.frags| && slot.frags[i] == None
    ensures var filled := Store(slot, i, payload, at);
      && filled.size == |Joined(filled.frags)|
      && (filled.count >= filled.fragCnt ==> forall k :: 0 <= k < |filled.frags| ==> filled.frags[k].Some?)
  {
    StoreCounts(slot.frags, i, payload);
    PresentExactly(Store(slot, i, payload, at).frags);
  }

  /** What a fragment completes is a mix. */
  lemma FillMixture(trains: seq<Train>, kept: Slots, key: nat, slot: Slot, i: nat, payload: bytes, at: int)
    requires AllOk(trains) && Fillable(slot) && Mixture(trains, key, slot)
    requires i < |slot.frags| && FromSome(trains, key, slot.fragCnt, i, payload)
    ensures var x := Fill(kept, key, slot, i, payload, at);
      && (key in x.slots && key in kept ==> Mixture(trains, key, x.slots[key]) || x.slots[key] == kept[key])
      && (key in x.slots && key !in kept ==> Mixture(trains, key, x.slots[key]))
      && (forall k :: k in x.slots && k != key ==> k in kept && x.slots[k] == kept[k])
      && (x.datagram.Some? ==> MixedPayload(trains, key, x.datagram.value))
  {
    StoreMixture(trains, key, slot, i, payload, at);
    if slot.frags[i] == None {
      var filled := Store(slot, i, payload, at);
      FilledSlot(slot, i, payload, at);
      if filled.size <= MAX_DATAGRAM && filled.count >= filled.fragCnt {
        var choice := FullIsMixed(trains, key, filled);
      }
    }
  }

  ghost predicate MixedPayload(trains: seq<Train>, key: nat, payload: bytes) {
    exists choice :: Choice(trains, choice) && SlotKey(Mixed(trains, choice)) == key
      && TrainOk(Mixed(trains, choice)) && Original(Mixed(trains, choice)).payload == payload
  }

  lemma BlankMixture(trains: seq<Train>, key: nat, count: nat, at: int)
    requires 1 < count <= MAX_FRAGMENTS
    ensures Mixture(trains, key, Blank(count, at)) && Fillable(Blank(count, at))
  {
    EmptyFragments(count);
  }

  lemma PieceMixture(trains: seq<Train>, slots: Slots, at: int, d: nat, i: nat)
    requires AllOk(trains) && SlotsOk(slots) && Mixtures(trains, slots)
    requires d < |trains| && i < |trains[d].pieces| && |trains[d].pieces| > 1
    ensures var x := TakePiece(slots, at, trains[d], i);
      Mixtures(trains, x.slots)
      && (x.packet.Some? ==> x.packet.value.flowID == trains[d].flowID
                             && MixedPayload(trains, SlotKey(trains[d]), x.packet.value.payload))
  {
    var t := trains[d];
    var key := SlotKey(t);
    var kept := Retained(slots, at, key, |t.pieces|);
    TakeFills(slots, at, t, i, kept);
    BlankMixture(trains, key, |t.pieces|, at);
    assert HasPiece(trains[d], key, |t.pieces|, i, t.pieces[i]);
    assert key in slots ==> SlotOk(slots[key]);
    if key in kept || |kept.Keys| < MAX_SLOTS {
      FillMixture(trains, kept, key, Target(kept, key, |t.pieces|, at), i, t.pieces[i], at);
    }
  }

  lemma MixedPacketIsSent(trains: seq<Train>, t: Train, p: Packet)
    requires MixesAreSent(trains) && p.flowID == t.flowID && MixedPayload(trains, SlotKey(t), p.payload)
    ensures Sent(trains, p)
  {
    var choice :| Choice(trains, choice) && SlotKey(Mixed(trains, choice)) == SlotKey(t)
      && TrainOk(Mixed(trains, choice)) && Original(Mixed(trains, choice)).payload == p.payload;
    var m := Mixed(trains, choice);
    KeyInjective(m.flowID, m.fragID, t.flowID, t.fragID);
    assert Original(m) == p;
  }

  lemma TakeMixture(r: Run, slots: Slots, n: nat)
    requires AllOk(r.trains) && MixesAreSent(r.trains) && n < |r.events| && InRun(r, r.events[n])
    requires SlotsOk(slots) && Mixtures(r.trains, slots)
    ensures var x := Take(r, slots, r.events[n]);
      Mixtures(r.trains, x.slots) && (x.packet.Some? ==> Sent(r.trains, x.packet.value))
  {
    var e := r.events[n];
    if e.Frag? {
      if Fragmented(r, e.d) {
        PieceMixture(r.trains, slots, e.at, e.d, e.i);
        var x := TakePiece(slots, e.at, r.trains[e.d], e.i);
        if x.packet.Some? {
          MixedPacketIsSent(r.trains, r.trains[e.d], x.packet.value);
        }
      } else {
        PlainStep(r, n, slots, e);
      }
    }
  }

  ghost predicate TableMixtures(r: Run, n: nat)
    requires WellFormed(r) && n <= |r.events|
  {
    exists slots :: slots == SlotsAt(r, n) && Mixtures(r.trains, slots)
  }

  lemma MixturesNext(r: Run, n: nat, next: nat)
    requires AllOk(r.trains) && MixesAreSent(r.trains) && WellFormed(r) && n < |r.events| && next == n + 1
    requires TableMixtures(r, n)
    ensures TableMixtures(r, next) && (PacketAt(r, n).Some? ==> Sent(r.trains, PacketAt(r, n).value))
  {
    assert InRun(r, r.events[n]);
    SlotsAtNext(r, n, next);
    TakeMixture(r, SlotsAt(r, n), n);
  }

  lemma {:induction false} AlwaysMixtures(r: Run, n: nat)
    requires AllOk(r.trains) && MixesAreSent(r.trains) && WellFormed(r) && n <= |r.events|
    ensures TableMixtures(r, n)
  {
    if n == 0 {
      assert Mixtures(r.trains, SlotsAt(r, 0));
    } else {
      AlwaysMixtures(r, n - 1);
      MixturesNext(r, n - 1, n);
    }
  }

  /**
   * The exact condition, by contents: only written datagrams can come out of a list of datagrams, in any run at any
   * times, if and only if every mix of pieces with one flow id, fragment id and count that is no longer than a datagram
   * may be is itself one of them.
   */
  lemma NothingForgedExactly(trains: seq<Train>)
    requires AllOk(trains)
    ensures NothingForged(trains) <==> MixesAreSent(trains)
  {
    if MixesAreSent(trains) {
      forall r: Run, n: nat | r.trains == trains && WellFormed(r) && n < |r.events| && PacketAt(r, n).Some?
        ensures Sent(trains, PacketAt(r, n).value)
      {
        AlwaysMixtures(r, n);
        MixturesNext(r, n, n + 1);
      }
    }
    if NothingForged(trains) {
      forall choice | Choice(trains, choice) && TrainOk(Mixed(trains, choice))
        ensures Sent(trains, Original(Mixed(trains, choice)))
      {
        MixComesOut(trains, choice);
        assert PacketAt(MixedRun(trains, choice), |choice| - 1).Some?;
      }
    }
  }

  // ----- exactly when nothing incomplete can come out -----

  ghost predicate NoneConfusable(trains: seq<Train>) {
    forall c, d :: 0 <= c < |trains| && 0 <= d < |trains| && c != d ==> !Confusable(trains[c], trains[d])
  }

  /** Whatever arrives, what comes out at an event is the datagram that the event completes, or nothing. */
  ghost predicate NeverWrongFor(trains: seq<Train>) {
    forall r: Run, n: nat :: r.trains == trains && WellFormed(r) && n < |r.events| ==> RightOrNothing(r, n)
  }

  /** The first piece of one datagram with the rest of another. */
  function Pair(trains: seq<Train>, a: nat, b: nat): seq<nat>
    requires b < |trains|
  {
    seq(|trains[b].pieces|, k => if k == 0 then a else b)
  }

  lemma PairIsChoice(trains: seq<Train>, a: nat, b: nat)
    requires a < |trains| && b < |trains| && Confusable(trains[a], trains[b])
    ensures Choice(trains, Pair(trains, a, b))
    ensures Mixed(trains, Pair(trains, a, b)).pieces == [trains[a].pieces[0]] + trains[b].pieces[1..]
  {
    forall k | 0 <= k < |trains[b].pieces| ensures Chosen(trains, Pair(trains, a, b), k) {
    }
  }

  /** Of the two mixes of a pair one is no longer than the longer datagram. */
  lemma PairFits(s: Train, t: Train)
    requires TrainOk(s) && TrainOk(t) && 0 < |s.pieces| && 0 < |t.pieces|
    ensures |Flatten([s.pieces[0]] + t.pieces[1..])| <= MAX_DATAGRAM
         || |Flatten([t.pieces[0]] + s.pieces[1..])| <= MAX_DATAGRAM
  {
    assert ([s.pieces[0]] + t.pieces[1..])[1..] == t.pieces[1..] && ([t.pieces[0]] + s.pieces[1..])[1..] == s.pieces[1..];
  }

  lemma {:induction false} ChosenPieces(trains: seq<Train>, choice: seq<nat>, n: nat, d: nat)
    requires n <= |choice|
    ensures forall i :: i in Got(MixedRun(trains, choice), n, d) ==> i < n && choice[i] == d
  {
    if n > 0 {
      ChosenPieces(trains, choice, n - 1, d);
    }
  }

  lemma PairIsWrong(trains: seq<Train>, a: nat, b: nat)
    requires AllOk(trains) && a < |trains| && b < |trains| && a != b && Confusable(trains[a], trains[b])
    requires Choice(trains, Pair(trains, a, b)) && TrainOk(Mixed(trains, Pair(trains, a, b)))
    ensures !NeverWrongFor(trains)
  {
    var choice := Pair(trains, a, b);
    var r, n := MixedRun(trains, choice), |choice| - 1;
    MixComesOut(trains, choice);
    ChosenPieces(trains, choice, |choice|, b);
    assert r.events[n].d == b && 0 !in Got(r, |choice|, b);
    assert !RightOrNothing(r, n);
  }

  /**
   * The exact condition, by completeness, whatever the timing: no datagram list lets a packet out without all the
   * pieces of one datagram having arrived if and only if no two of its fragmented datagrams share flow id, fragment id
   * and fragment count. Identical twins count as sharing, although their mixes are written datagrams.
   */
  lemma NeverWrongExactly(trains: seq<Train>)
    requires AllOk(trains)
    ensures NeverWrongFor(trains) <==> NoneConfusable(trains)
  {
    if NoneConfusable(trains) {
      forall r: Run, n: nat | r.trains == trains && WellFormed(r) && n < |r.events| ensures RightOrNothing(r, n) {
        NeverWrong(r, n);
      }
    } else {
      var c, d :| 0 <= c < |trains| && 0 <= d < |trains| && c != d && Confusable(trains[c], trains[d]);
      PairIsChoice(trains, c, d);
      PairIsChoice(trains, d, c);
      PairFits(trains[c], trains[d]);
      if TrainOk(Mixed(trains, Pair(trains, c, d))) {
        PairIsWrong(trains, c, d);
      } else {
        PairIsWrong(trains, d, c);
      }
    }
  }

  /** Two identical datagrams under one key: a packet can come out incomplete, and never anything that was not sent. */
  lemma TwinsAreHarmless(t: Train)
    requires TrainOk(t) && |t.pieces| > 1
    ensures NothingForged([t, t]) && !NeverWrongFor([t, t])
  {
    var trains := [t, t];
    assert Confusable(trains[0], trains[1]);
    NeverWrongExactly(trains);
    forall choice | Choice(trains, choice) ensures Sent(trains, Original(Mixed(trains, choice))) {
      assert Chosen(trains, choice, 0);
      assert Pieces(trains, choice) == t.pieces by {
        forall k | 0 <= k < |choice| ensures Pieces(trains, choice)[k] == t.pieces[k] {
          assert Chosen(trains, choice, k);
        }
      }
      assert Original(trains[0]) == Original(Mixed(trains, choice));
    }
    NothingForgedExactly(trains);
  }
}
