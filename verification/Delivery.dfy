/**
 * Datagrams cut into trains of pieces, the pieces arriving in any order, and the reassembler putting them
 * back together: when it delivers everything exactly once, and what it never does even when it loses.
 */
module Delivery {
  import opened Bytes
  import opened FrameCodec
  import opened Fragmentation
  import opened Reassembly
  import opened ReassemblyHistory
  import opened Decoding

  /** One written datagram: no piece (dropped by the writer), one (sent whole) or a train of fragments. */
  datatype Train = Train(flowID: uint32, fragID: uint16, pieces: seq<bytes>)

  /** What the receiver sees: piece i of datagram d, somebody's keepalive, or its own sweep timer. */
  datatype Arrival =
    | Frag(at: int, d: nat, i: nat)
    | Keepalive(at: int, flowID: uint32)
    | Tick(at: int)

  datatype Run = Run(trains: seq<Train>, events: seq<Arrival>)

  predicate TrainOk(t: Train) {
    |t.pieces| <= MAX_FRAGMENTS && |Flatten(t.pieces)| <= MAX_DATAGRAM
  }

  function Original(t: Train): Packet {
    Packet(t.flowID, Flatten(t.pieces))
  }

  function PieceMeta(t: Train, i: nat): FrameMeta
    requires i < |t.pieces| <= MAX_FRAGMENTS
  {
    FrameMeta(t.flowID, FLAG_FRAGMENT, t.fragID, i, |t.pieces|)
  }

  ghost predicate WellFormed(r: Run) {
    forall k {:trigger InRun(r, r.events[k])} :: 0 <= k < |r.events| ==> InRun(r, r.events[k])
  }

  predicate InRun(r: Run, e: Arrival) {
    e.Frag? ==> e.d < |r.trains| && e.i < |r.trains[e.d].pieces| && TrainOk(r.trains[e.d])
  }

  /** The receiver's step on one piece. */
  function TakePiece(slots: Slots, at: int, t: Train, i: nat): (x: Decoded)
    requires SlotsOk(slots) && i < |t.pieces| <= MAX_FRAGMENTS
    ensures SlotsOk(x.slots)
  {
    if |t.pieces| == 1 then
      Decoded(slots, Some(Packet(t.flowID, t.pieces[i])))
    else
      AddFragment(slots, at, PieceMeta(t, i), t.pieces[i])
  }

  function Take(r: Run, slots: Slots, e: Arrival): (x: Decoded)
    requires SlotsOk(slots) && InRun(r, e)
    ensures SlotsOk(x.slots)
  {
    match e
    case Frag(at, d, i) => TakePiece(slots, at, r.trains[d], i)
    case Keepalive(_, _) => Decoded(slots, None)
    case Tick(at) => SweepKeepsInvariant(slots, at); Decoded(SweepStep(slots, at), None)
  }

  /** The reassembler's table before event n. */
  function SlotsAt(r: Run, n: nat): (slots: Slots)
    requires WellFormed(r) && n <= |r.events|
    ensures SlotsOk(slots)
  {
    if n == 0 then map[] else Take(r, SlotsAt(r, n - 1), r.events[n - 1]).slots
  }

  /** The datagram handed to the local service at event n, if any. */
  function PacketAt(r: Run, n: nat): Option<Packet>
    requires WellFormed(r) && n < |r.events|
  {
    Take(r, SlotsAt(r, n), r.events[n]).packet
  }

  // ----- bookkeeping over a run -----

  /** The piece indices of datagram d that arrived before event n. */
  function Got(r: Run, n: nat, d: nat): set<nat>
    requires n <= |r.events|
  {
    if n == 0 then {}
    else if r.events[n - 1].Frag? && r.events[n - 1].d == d then Got(r, n - 1, d) + {r.events[n - 1].i}
    else Got(r, n - 1, d)
  }

  /** When the latest piece of datagram d arrived. */
  function LastAt(r: Run, n: nat, d: nat): int
    requires n <= |r.events|
  {
    if n == 0 then 0
    else if r.events[n - 1].Frag? && r.events[n - 1].d == d then r.events[n - 1].at
    else LastAt(r, n - 1, d)
  }

  ghost predicate Complete(r: Run, n: nat, d: nat)
    requires n <= |r.events| && d < |r.trains|
  {
    forall i :: 0 <= i < |r.trains[d].pieces| ==> i in Got(r, n, d)
  }

  predicate Fragmented(r: Run, d: nat)
    requires d < |r.trains|
  {
    |r.trains[d].pieces| > 1
  }

  /** Some but not all fragments of datagram d have arrived. */
  ghost predicate Open(r: Run, n: nat, d: nat)
    requires n <= |r.events|
  {
    d < |r.trains| && Fragmented(r, d) && Got(r, n, d) != {} && !Complete(r, n, d)
  }

  ghost function OpenSet(r: Run, n: nat): set<nat>
    requires n <= |r.events|
  {
    set d | 0 <= d < |r.trains| && Open(r, n, d)
  }

  function SlotKey(t: Train): nat {
    Key(t.flowID, t.fragID)
  }

  // ----- the slot a partly received datagram should have -----

  function PartFrags(pieces: seq<bytes>, got: set<nat>): seq<Option<bytes>> {
    seq(|pieces|, i requires 0 <= i < |pieces| => if i in got then Some(pieces[i]) else None)
  }

  function PartSlot(pieces: seq<bytes>, got: set<nat>, last: int): Slot {
    var frags := PartFrags(pieces, got);
    Slot(|pieces|, frags, Present(frags), |Joined(frags)|, last)
  }

  lemma StorePart(pieces: seq<bytes>, got: set<nat>, last: int, i: nat, at: int)
    requires i < |pieces| && i !in got
    ensures Store(PartSlot(pieces, got, last), i, pieces[i], at) == PartSlot(pieces, got + {i}, at)
  {
    var frags := PartFrags(pieces, got);
    StoreCounts(frags, i, pieces[i]);
    assert PartFrags(pieces, got + {i}) == frags[i := Some(pieces[i])];
  }

  lemma BlankPart(pieces: seq<bytes>, now: int)
    ensures Blank(|pieces|, now) == PartSlot(pieces, {}, now)
  {
    EmptyFragments(|pieces|);
    assert PartFrags(pieces, {}) == NoFragments(|pieces|);
  }

  lemma {:induction false} PartSize(frags: seq<Option<bytes>>, pieces: seq<bytes>)
    requires |frags| == |pieces| && forall i :: 0 <= i < |frags| ==> frags[i] == None || frags[i] == Some(pieces[i])
    ensures |Joined(frags)| <= |Flatten(pieces)|
  {
    if frags != [] {
      PartSize(frags[1..], pieces[1..]);
    }
  }

  lemma PartSlotFacts(pieces: seq<bytes>, got: set<nat>, last: int)
    ensures PartSlot(pieces, got, last).size <= |Flatten(pieces)|
    ensures PartSlot(pieces, got, last).count >= |pieces| <==> AllIn(got, |pieces|)
    ensures AllIn(got, |pieces|) ==> Joined(PartSlot(pieces, got, last).frags) == Flatten(pieces)
  {
    var frags := PartFrags(pieces, got);
    PartSize(frags, pieces);
    PresentExactly(frags);
    if AllIn(got, |pieces|) {
      JoinedIsFlatten(frags, pieces);
    } else {
      var i :| 0 <= i < |pieces| && i !in got;
      assert frags[i] == None;
    }
  }

  // ----- the delivery theorem -----

  /** No piece is duplicated in transit. */
  ghost predicate EachFrameOnce(r: Run) {
    forall k {:trigger Got(r, k, r.events[k].d)} :: 0 <= k < |r.events| && r.events[k].Frag? ==>
      r.events[k].i !in Got(r, k, r.events[k].d)
  }

  ghost predicate EveryFrameArrives(r: Run) {
    forall d :: 0 <= d < |r.trains| ==> Complete(r, |r.events|, d)
  }

  ghost predicate ClockMonotone(r: Run) {
    forall j, k :: 0 <= j < k < |r.events| ==> r.events[j].at <= r.events[k].at
  }

  /** Successive fragments of one datagram arrive within the reassembly timeout. */
  ghost predicate GapsWithinTimeout(r: Run) {
    forall k {:trigger LastAt(r, k, r.events[k].d)} ::
      0 <= k < |r.events| && r.events[k].Frag? && Got(r, k, r.events[k].d) != {} ==>
      r.events[k].at - LastAt(r, k, r.events[k].d) <= TIMEOUT
  }

  /** At most 16 datagrams are ever partly received, and no two of those share a slot key. */
  ghost predicate FewOpen(r: Run) {
    && (forall n :: 0 <= n <= |r.events| ==> |OpenSet(r, n)| <= MAX_SLOTS)
    && (forall n :: 0 <= n <= |r.events| ==> DistinctKeys(r, OpenSet(r, n)))
  }

  ghost predicate DistinctKeys(r: Run, ds: set<nat>) {
    forall c, d :: c in ds && d in ds && c != d && c < |r.trains| && d < |r.trains| ==>
      SlotKey(r.trains[c]) != SlotKey(r.trains[d])
  }

  ghost predicate Benign(r: Run) {
    WellFormed(r) && EachFrameOnce(r) && EveryFrameArrives(r) && ClockMonotone(r) && GapsWithinTimeout(r) && FewOpen(r)
  }

  /** What `Benign` says about event n alone. */
  ghost predicate EventFine(r: Run, n: nat)
    requires n < |r.events|
  {
    var e := r.events[n];
    && InRun(r, e)
    && (e.Frag? ==> e.i !in Got(r, n, e.d) && (Got(r, n, e.d) != {} ==> e.at - LastAt(r, n, e.d) <= TIMEOUT))
    && (e.Tick? ==> forall d :: d in OpenSet(r, n) ==> e.at - LastAt(r, n, d) <= TIMEOUT)
    && |OpenSet(r, n + 1)| <= MAX_SLOTS
    && DistinctKeys(r, OpenSet(r, n + 1))
  }

  ghost predicate AllFine(r: Run) {
    WellFormed(r) && forall n :: 0 <= n < |r.events| ==> EventFine(r, n)
  }

  /**
   * The table holds exactly the open datagrams, each with exactly its received fragments; `owner` names
   * the datagram a slot belongs to.
   */
  ghost predicate Mirrors(r: Run, n: nat, slots: Slots, owner: map<nat, nat>)
    requires n <= |r.events|
  {
    && owner.Keys == slots.Keys
    && (forall k :: k in owner ==> Owns(r, n, slots, k, owner[k]))
    && (forall d :: d in OpenSet(r, n) ==> SlotKey(r.trains[d]) in owner && owner[SlotKey(r.trains[d])] == d)
  }

  ghost predicate Owns(r: Run, n: nat, slots: Slots, k: nat, d: nat)
    requires n <= |r.events|
  {
    && d in OpenSet(r, n)
    && SlotKey(r.trains[d]) == k && k in slots
    && slots[k] == PartSlot(r.trains[d].pieces, Got(r, n, d), LastAt(r, n, d))
  }

  /** What the ideal receiver outputs: a datagram at the arrival of its last missing frame. */
  ghost function Expected(r: Run, n: nat): Option<Packet>
    requires n < |r.events| && InRun(r, r.events[n])
  {
    if r.events[n].Frag? && Complete(r, n + 1, r.events[n].d) then Some(Original(r.trains[r.events[n].d])) else None
  }

  lemma OthersUntouched(r: Run, n: nat, d: nat)
    requires n < |r.events| && !(r.events[n].Frag? && r.events[n].d == d)
    ensures Got(r, n + 1, d) == Got(r, n, d) && LastAt(r, n + 1, d) == LastAt(r, n, d)
    ensures d < |r.trains| ==> (Complete(r, n + 1, d) <==> Complete(r, n, d))
    ensures Open(r, n + 1, d) <==> Open(r, n, d)
  {
  }

  /** Between two events nothing about a datagram changes unless one of its frames arrives. */
  lemma {:induction false} NextFrame(r: Run, n: nat, d: nat) returns (k: nat)
    requires n <= |r.events| && d < |r.trains| && !Complete(r, n, d) && Complete(r, |r.events|, d)
    ensures n <= k < |r.events| && r.events[k].Frag? && r.events[k].d == d
    ensures Got(r, k, d) == Got(r, n, d) && LastAt(r, k, d) == LastAt(r, n, d)
    decreases |r.events| - n
  {
    if r.events[n].Frag? && r.events[n].d == d {
      k := n;
    } else {
      OthersUntouched(r, n, d);
      k := NextFrame(r, n + 1, d);
    }
  }

  /** A sweep never hits a datagram that will still complete: its next fragment is not late. */
  lemma OpenIsNotStale(r: Run, n: nat, d: nat)
    requires ClockMonotone(r) && EveryFrameArrives(r) && GapsWithinTimeout(r)
    requires n < |r.events| && d in OpenSet(r, n)
    ensures r.events[n].at - LastAt(r, n, d) <= TIMEOUT
  {
    var k := NextFrame(r, n, d);
    assert r.events[k].at - LastAt(r, k, r.events[k].d) <= TIMEOUT;
  }

  lemma BenignIsFine(r: Run)
    requires Benign(r)
    ensures AllFine(r)
  {
    forall n | 0 <= n < |r.events| ensures EventFine(r, n) {
      var e := r.events[n];
      assert InRun(r, r.events[n]);
      if e.Frag? {
        assert r.events[n].i !in Got(r, n, r.events[n].d);
        assert Got(r, n, e.d) != {} ==> e.at - LastAt(r, n, r.events[n].d) <= TIMEOUT;
      } else if e.Tick? {
        forall d | d in OpenSet(r, n) ensures e.at - LastAt(r, n, d) <= TIMEOUT {
          OpenIsNotStale(r, n, d);
        }
      }
      var next := n + 1;
      assert |OpenSet(r, next)| <= MAX_SLOTS && DistinctKeys(r, OpenSet(r, next));
    }
  }

  lemma QuietStep(r: Run, n: nat, slots: Slots, owner: map<nat, nat>)
    requires n < |r.events| && Mirrors(r, n, slots, owner)
    requires r.events[n].Frag? ==> r.events[n].d < |r.trains| && !Fragmented(r, r.events[n].d)
    ensures Mirrors(r, n + 1, slots, owner)
  {
    var next := n + 1;
    forall d ensures Open(r, next, d) <==> Open(r, n, d) {
      if !(r.events[n].Frag? && r.events[n].d == d) {
        OthersUntouched(r, n, d);
      }
    }
    assert OpenSet(r, next) == OpenSet(r, n);
    forall k | k in owner ensures Owns(r, next, slots, k, owner[k]) {
      assert Owns(r, n, slots, k, owner[k]);
      OthersUntouched(r, n, owner[k]);
    }
  }

  lemma TickStep(r: Run, n: nat, slots: Slots, owner: map<nat, nat>)
    requires SlotsOk(slots) && n < |r.events| && EventFine(r, n) && r.events[n].Tick?
    requires Mirrors(r, n, slots, owner)
    ensures Take(r, slots, r.events[n]) == Decoded(slots, None)
  {
    forall k | k in slots ensures !Stale(slots[k], r.events[n].at) {
      assert Owns(r, n, slots, k, owner[k]);
    }
    assert SweepStep(slots, r.events[n].at) == slots;
  }

  lemma {:induction false} InjectiveSize(owner: map<nat, nat>, ds: set<nat>)
    requires forall k :: k in owner ==> owner[k] in ds
    requires forall j, k :: j in owner && k in owner && owner[j] == owner[k] ==> j == k
    ensures |owner.Keys| <= |ds|
    decreases |owner.Keys|
  {
    if owner != map[] {
      var k :| k in owner;
      var rest := owner - {k};
      assert rest.Keys == owner.Keys - {k};
      InjectiveSize(rest, ds - {owner[k]});
    }
  }

  lemma SlotsFitOpen(r: Run, n: nat, slots: Slots, owner: map<nat, nat>)
    requires n <= |r.events| && Mirrors(r, n, slots, owner)
    ensures |slots.Keys| <= |OpenSet(r, n)|
  {
    forall k | k in owner ensures owner[k] in OpenSet(r, n) && SlotKey(r.trains[owner[k]]) == k {
      assert Owns(r, n, slots, k, owner[k]);
    }
    InjectiveSize(owner, OpenSet(r, n));
    assert |owner.Keys| == |slots.Keys|;
  }

  lemma KnownTarget(r: Run, n: nat, slots: Slots, owner: map<nat, nat>, d: nat)
    requires n < |r.events| && EventFine(r, n) && r.events[n].Frag? && r.events[n].d == d && Fragmented(r, d)
    requires Mirrors(r, n, slots, owner) && Got(r, n, d) != {}
    ensures Owns(r, n, slots, SlotKey(r.trains[d]), d) && owner[SlotKey(r.trains[d])] == d
    ensures !Stale(slots[SlotKey(r.trains[d])], r.events[n].at)
  {
    assert r.events[n].i !in Got(r, n, d);
    assert d in OpenSet(r, n);
  }

  lemma FreshTarget(r: Run, n: nat, slots: Slots, owner: map<nat, nat>, d: nat)
    requires n < |r.events| && EventFine(r, n) && r.events[n].Frag? && r.events[n].d == d && Fragmented(r, d)
    requires Mirrors(r, n, slots, owner) && Got(r, n, d) == {}
    ensures SlotKey(r.trains[d]) !in slots
    ensures |slots.Keys| < MAX_SLOTS
  {
    var key := SlotKey(r.trains[d]);
    FirstFragmentOpens(r, n, d);
    forall k | k in owner ensures k != key {
      assert Owns(r, n, slots, k, owner[k]);
      assert owner[k] in OpenSet(r, n + 1) && d in OpenSet(r, n + 1);
    }
    SlotsFitOpen(r, n, slots, owner);
    InsertSize(OpenSet(r, n), d);
  }

  lemma InsertSize(s: set<nat>, d: nat)
    requires d !in s
    ensures |s + {d}| == |s| + 1
  {
  }

  /** The slot a benign fragment meets: its own, fresh or partly filled, and never a full table. */
  lemma FragmentTarget(r: Run, n: nat, slots: Slots, owner: map<nat, nat>, d: nat)
    requires n < |r.events| && EventFine(r, n) && r.events[n].Frag? && r.events[n].d == d && Fragmented(r, d)
    requires Mirrors(r, n, slots, owner)
    ensures var key := SlotKey(r.trains[d]);
      && Retained(slots, r.events[n].at, key, |r.trains[d].pieces|) == slots
      && (key in slots <==> Got(r, n, d) != {})
      && (key in slots ==> owner[key] == d && slots[key] == PartSlot(r.trains[d].pieces, Got(r, n, d), LastAt(r, n, d)))
      && (key !in slots ==> |slots.Keys| < MAX_SLOTS)
  {
    if Got(r, n, d) != {} {
      KnownTarget(r, n, slots, owner, d);
    } else {
      FreshTarget(r, n, slots, owner, d);
    }
  }

  lemma FirstFragmentOpens(r: Run, n: nat, d: nat)
    requires n < |r.events| && r.events[n].Frag? && r.events[n].d == d < |r.trains| && Fragmented(r, d)
    requires Got(r, n, d) == {}
    ensures d !in OpenSet(r, n) && OpenSet(r, n + 1) == OpenSet(r, n) + {d}
  {
    var i := r.events[n].i;
    assert Got(r, n + 1, d) == {i};
    var other := if i == 0 then 1 else 0;
    assert other !in Got(r, n + 1, d);
    forall c | c != d ensures Open(r, n + 1, c) <==> Open(r, n, c) {
      OthersUntouched(r, n, c);
    }
  }

  lemma FillPart(slots: Slots, key: nat, pieces: seq<bytes>, got: set<nat>, last: int, i: nat, at: int)
    requires i < |pieces| && i !in got && |Flatten(pieces)| <= MAX_DATAGRAM
    ensures Fill(slots, key, PartSlot(pieces, got, last), i, pieces[i], at)
      == if AllIn(got + {i}, |pieces|) then AddResult(slots - {key}, Some(Flatten(pieces)))
         else AddResult(slots[key := PartSlot(pieces, got + {i}, at)], None)
  {
    StorePart(pieces, got, last, i, at);
    PartSlotFacts(pieces, got + {i}, at);
  }

  predicate AllIn(got: set<nat>, n: nat) {
    forall j :: 0 <= j < n ==> j in got
  }

  /** A piece that meets its own slot, or room for a new one, in closed form. */
  lemma TakePart(slots: Slots, at: int, t: Train, got: set<nat>, last: int, i: nat)
    requires SlotsOk(slots) && TrainOk(t) && i < |t.pieces| && |t.pieces| > 1 && i !in got
    requires Retained(slots, at, SlotKey(t), |t.pieces|) == slots
    requires SlotKey(t) in slots ==> slots[SlotKey(t)] == PartSlot(t.pieces, got, last)
    requires SlotKey(t) !in slots ==> |slots.Keys| < MAX_SLOTS && got == {} && last == at
    ensures TakePiece(slots, at, t, i)
         == if AllIn(got + {i}, |t.pieces|) then Decoded(slots - {SlotKey(t)}, Some(Original(t)))
            else Decoded(slots[SlotKey(t) := PartSlot(t.pieces, got + {i}, at)], None)
  {
    BlankPart(t.pieces, at);
    FillPart(slots, SlotKey(t), t.pieces, got, last, i, at);
  }

  /** The reassembler's step on a benign fragment, in closed form. */
  lemma FragmentStep(r: Run, n: nat, slots: Slots, owner: map<nat, nat>, d: nat)
    requires SlotsOk(slots) && n < |r.events| && EventFine(r, n)
    requires r.events[n].Frag? && r.events[n].d == d && Fragmented(r, d)
    requires Mirrors(r, n, slots, owner)
    ensures var key := SlotKey(r.trains[d]);
      Take(r, slots, r.events[n])
      == if Complete(r, n + 1, d) then Decoded(slots - {key}, Some(Original(r.trains[d])))
         else Decoded(slots[key := PartSlot(r.trains[d].pieces, Got(r, n + 1, d), r.events[n].at)], None)
  {
    var e := r.events[n];
    var key := SlotKey(r.trains[d]);
    var pieces := r.trains[d].pieces;
    var got := Got(r, n, d);
    FragmentTarget(r, n, slots, owner, d);
    TakePart(slots, e.at, r.trains[d], got, if key in slots then LastAt(r, n, d) else e.at, e.i);
    assert Got(r, n + 1, d) == got + {e.i};
    assert Complete(r, n + 1, d) <==> AllIn(got + {e.i}, |pieces|);
  }

  lemma MirrorFragment(r: Run, n: nat, slots: Slots, owner: map<nat, nat>, d: nat) returns (owner': map<nat, nat>)
    requires SlotsOk(slots) && n < |r.events| && EventFine(r, n)
    requires r.events[n].Frag? && r.events[n].d == d && Fragmented(r, d)
    requires Mirrors(r, n, slots, owner)
    ensures Mirrors(r, n + 1, Take(r, slots, r.events[n]).slots, owner')
    ensures Take(r, slots, r.events[n]).packet == Expected(r, n)
  {
    var key := SlotKey(r.trains[d]);
    FragmentStep(r, n, slots, owner, d);
    FragmentTarget(r, n, slots, owner, d);
    forall c | c in OpenSet(r, n) && c != d ensures SlotKey(r.trains[c]) != key {
      OneOwnerPerKey(r, n, slots, owner, c, d);
    }
    if Complete(r, n + 1, d) {
      owner' := owner - {key};
      MirrorClosed(r, n, slots, owner, d);
    } else {
      owner' := owner[key := d];
      MirrorOpened(r, n, slots, owner, d);
    }
  }

  /** Only the slot key of the arriving datagram is touched. */
  ghost predicate KeyIsMine(r: Run, n: nat, owner: map<nat, nat>, d: nat)
    requires n <= |r.events| && d < |r.trains|
  {
    && (SlotKey(r.trains[d]) in owner ==> owner[SlotKey(r.trains[d])] == d)
    && (forall c :: c in OpenSet(r, n) && c != d ==> SlotKey(r.trains[c]) != SlotKey(r.trains[d]))
  }

  lemma MirrorClosed(r: Run, n: nat, slots: Slots, owner: map<nat, nat>, d: nat)
    requires n < |r.events| && r.events[n].Frag? && r.events[n].d == d < |r.trains|
    requires Mirrors(r, n, slots, owner) && KeyIsMine(r, n, owner, d) && Complete(r, n + 1, d)
    ensures Mirrors(r, n + 1, slots - {SlotKey(r.trains[d])}, owner - {SlotKey(r.trains[d])})
  {
    var key := SlotKey(r.trains[d]);
    var next := n + 1;
    var slots', owner' := slots - {key}, owner - {key};
    forall k | k in owner' ensures Owns(r, next, slots', k, owner'[k]) {
      assert Owns(r, n, slots, k, owner[k]);
      OthersUntouched(r, n, owner[k]);
    }
    forall c | c in OpenSet(r, next) ensures SlotKey(r.trains[c]) in owner' && owner'[SlotKey(r.trains[c])] == c {
      OthersUntouched(r, n, c);
    }
  }

  lemma MirrorOpened(r: Run, n: nat, slots: Slots, owner: map<nat, nat>, d: nat)
    requires n < |r.events| && r.events[n].Frag? && r.events[n].d == d < |r.trains| && Fragmented(r, d)
    requires Mirrors(r, n, slots, owner) && KeyIsMine(r, n, owner, d) && !Complete(r, n + 1, d)
    ensures Mirrors(r, n + 1, slots[SlotKey(r.trains[d]) := PartSlot(r.trains[d].pieces, Got(r, n + 1, d), r.events[n].at)],
                    owner[SlotKey(r.trains[d]) := d])
  {
    var key := SlotKey(r.trains[d]);
    var next := n + 1;
    var slots' := slots[key := PartSlot(r.trains[d].pieces, Got(r, next, d), r.events[n].at)];
    var owner' := owner[key := d];
    assert r.events[n].i in Got(r, next, d);
    forall k | k in owner' ensures Owns(r, next, slots', k, owner'[k]) {
      if k != key {
        assert Owns(r, n, slots, k, owner[k]);
        OthersUntouched(r, n, owner[k]);
      }
    }
    forall c | c in OpenSet(r, next) ensures SlotKey(r.trains[c]) in owner' && owner'[SlotKey(r.trains[c])] == c {
      if c != d {
        OthersUntouched(r, n, c);
      }
    }
  }

  lemma OneOwnerPerKey(r: Run, n: nat, slots: Slots, owner: map<nat, nat>, c: nat, d: nat)
    requires SlotsOk(slots) && n < |r.events| && EventFine(r, n)
    requires r.events[n].Frag? && r.events[n].d == d && Fragmented(r, d)
    requires Mirrors(r, n, slots, owner) && c in OpenSet(r, n) && c != d
    ensures SlotKey(r.trains[c]) != SlotKey(r.trains[d])
  {
    FragmentTarget(r, n, slots, owner, d);
  }

  lemma PlainStep(r: Run, n: nat, slots: Slots, e: Arrival)
    requires SlotsOk(slots) && n < |r.events| && e == r.events[n] && InRun(r, e)
    requires e.Frag? && |r.trains[e.d].pieces| == 1
    ensures Take(r, slots, e) == Decoded(slots, Some(Original(r.trains[e.d])))
    ensures Complete(r, n + 1, e.d)
  {
    var pieces := r.trains[e.d].pieces;
    assert Flatten(pieces) == pieces[0] + Flatten(pieces[1..]) == pieces[0];
    assert Got(r, n + 1, e.d) == Got(r, n, e.d) + {0};
  }

  lemma MirrorStep(r: Run, n: nat, slots: Slots, owner: map<nat, nat>) returns (owner': map<nat, nat>)
    requires SlotsOk(slots) && n < |r.events| && EventFine(r, n)
    requires Mirrors(r, n, slots, owner)
    ensures Mirrors(r, n + 1, Take(r, slots, r.events[n]).slots, owner')
    ensures Take(r, slots, r.events[n]).packet == Expected(r, n)
  {
    var e := r.events[n];
    if e.Frag? && Fragmented(r, e.d) {
      owner' := MirrorFragment(r, n, slots, owner, e.d);
    } else {
      owner' := owner;
      QuietStep(r, n, slots, owner);
      if e.Tick? {
        TickStep(r, n, slots, owner);
      } else if e.Frag? {
        PlainStep(r, n, slots, e);
      }
    }
  }

  lemma SlotsAtNext(r: Run, n: nat, next: nat)
    requires WellFormed(r) && n < |r.events| && next == n + 1 && InRun(r, r.events[n])
    ensures SlotsAt(r, next) == Take(r, SlotsAt(r, n), r.events[n]).slots
  {
  }

  ghost predicate TableMirrors(r: Run, n: nat)
    requires WellFormed(r) && n <= |r.events|
  {
    exists owner :: Mirrors(r, n, SlotsAt(r, n), owner)
  }

  lemma TableStep(r: Run, n: nat, next: nat)
    requires AllFine(r) && n < |r.events| && next == n + 1 && TableMirrors(r, n)
    ensures TableMirrors(r, next)
    ensures PacketAt(r, n) == Expected(r, n)
  {
    assert EventFine(r, n);
    SlotsAtNext(r, n, next);
    var owner :| Mirrors(r, n, SlotsAt(r, n), owner);
    var owner' := MirrorStep(r, n, SlotsAt(r, n), owner);
  }

  lemma EmptyTable(r: Run)
    requires WellFormed(r)
    ensures TableMirrors(r, 0)
  {
    var none: map<nat, nat> := map[];
    assert OpenSet(r, 0) == {};
    assert Mirrors(r, 0, SlotsAt(r, 0), none);
  }

  lemma {:induction false} TableMirrorsOpen(r: Run, n: nat)
    requires AllFine(r) && n <= |r.events|
    ensures TableMirrors(r, n)
  {
    if n == 0 {
      EmptyTable(r);
    } else {
      TableMirrorsOpen(r, n - 1);
      TableStep(r, n - 1, n);
    }
  }

  /**
   * End-to-end delivery. Over any interleaving, reordering and delay of the frames, with sweeps and
   * keepalives anywhere, the decoder's output at every event is that of the ideal receiver.
   */
  lemma EndToEnd(r: Run, n: nat)
    requires Benign(r) && n < |r.events|
    ensures PacketAt(r, n) == Expected(r, n)
  {
    BenignIsFine(r);
    TableMirrorsOpen(r, n);
    TableStep(r, n, n + 1);
  }

  // ----- exactly once -----

  /** Everything handed to the local service before event n, in order. */
  function Outputs(r: Run, n: nat): seq<Packet>
    requires WellFormed(r) && n <= |r.events|
  {
    if n == 0 then [] else
      Outputs(r, n - 1) + if PacketAt(r, n - 1).Some? then [PacketAt(r, n - 1).value] else []
  }

  ghost predicate Delivers(r: Run, n: nat, order: seq<nat>)
    requires WellFormed(r) && n <= |r.events|
  {
    && (forall k :: 0 <= k < |order| ==> order[k] < |r.trains|)
    && |Outputs(r, n)| == |order|
    && (forall k :: 0 <= k < |order| ==> Outputs(r, n)[k] == Original(r.trains[order[k]]))
    && (forall j, k :: 0 <= j < k < |order| ==> order[j] != order[k])
    && (forall d :: 0 <= d < |r.trains| ==> (d in order <==> r.trains[d].pieces != [] && Complete(r, n, d)))
  }

  /** One more event extends the delivery order by the datagram it completes, if any. */
  ghost predicate Delivered(r: Run, n: nat)
    requires WellFormed(r) && n <= |r.events|
  {
    exists order :: Delivers(r, n, order)
  }

  lemma DeliveryStep(r: Run, n: nat, next: nat)
    requires Benign(r) && n < |r.events| && next == n + 1
    requires Delivered(r, n)
    ensures Delivered(r, next)
  {
    EndToEnd(r, n);
    var before :| Delivers(r, n, before);
    var order := if Expected(r, n).Some? then before + [r.events[n].d] else before;
    ExtendOrder(r, n, next, before, order);
  }

  lemma ExtendOrder(r: Run, n: nat, next: nat, before: seq<nat>, order: seq<nat>)
    requires WellFormed(r) && EachFrameOnce(r) && n < |r.events| && next == n + 1
    requires Delivers(r, n, before)
    requires PacketAt(r, n) == Expected(r, n)
    requires order == if Expected(r, n).Some? then before + [r.events[n].d] else before
    ensures Delivers(r, next, order)
  {
    var e := r.events[n];
    assert InRun(r, r.events[n]);
    if e.Frag? {
      assert r.events[n].i !in Got(r, n, r.events[n].d);
      assert !Complete(r, n, e.d) && e.d !in before;
    }
    OutputsNext(r, n, next);
    forall d | 0 <= d < |r.trains|
      ensures d in order <==> r.trains[d].pieces != [] && Complete(r, next, d)
    {
      if !(e.Frag? && e.d == d) {
        OthersUntouched(r, n, d);
      }
    }
  }

  lemma OutputsNext(r: Run, n: nat, next: nat)
    requires WellFormed(r) && n < |r.events| && next == n + 1
    ensures Outputs(r, next) == if PacketAt(r, n).Some? then Outputs(r, n) + [PacketAt(r, n).value] else Outputs(r, n)
  {
  }

  lemma NothingDelivered(r: Run)
    requires WellFormed(r)
    ensures Delivered(r, 0)
  {
    forall d | 0 <= d < |r.trains| && r.trains[d].pieces != [] ensures !Complete(r, 0, d) {
      assert 0 !in Got(r, 0, d);
    }
    assert Delivers(r, 0, []);
  }

  lemma {:induction false} DeliveredSoFar(r: Run, n: nat)
    requires Benign(r) && n <= |r.events|
    ensures Delivered(r, n)
  {
    if n == 0 {
      NothingDelivered(r);
    } else {
      DeliveredSoFar(r, n - 1);
      DeliveryStep(r, n - 1, n);
    }
  }

  /**
   * Every datagram the writer did not drop comes out exactly once, byte for byte, and nothing else does:
   * the outputs are the written datagrams in the order `order`, a permutation of those that have frames.
   */
  lemma ExactlyOnce(r: Run) returns (order: seq<nat>)
    requires Benign(r)
    ensures Outputs(r, |r.events|) == seq(|order|, k requires 0 <= k < |order| =>
              if order[k] < |r.trains| then Original(r.trains[order[k]]) else Packet(0, []))
    ensures forall j, k :: 0 <= j < k < |order| ==> order[j] != order[k]
    ensures forall d :: d in order <==> 0 <= d < |r.trains| && r.trains[d].pieces != []
  {
    DeliveredSoFar(r, |r.events|);
    order :| Delivers(r, |r.events|, order);
  }
}
