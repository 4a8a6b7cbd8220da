/**
 * The fate of one datagram while anything else may be lost: if all its fragments arrive, it comes out exactly
 * when the reassembler's table had room at its first fragment.
 */
module SingleDelivery {
  import opened Bytes
  import opened Fragmentation
  import opened Reassembly
  import opened Decoding
  import opened Delivery
  import opened LossyDelivery

  predicate Mine(r: Run, k: nat, d: nat)
    requires k < |r.events|
  {
    r.events[k].Frag? && r.events[k].d == d
  }

  /** Event k is a fragment of another datagram with the slot key of datagram d. */
  predicate Rival(r: Run, k: nat, d: nat)
    requires k < |r.events| && d < |r.trains|
  {
    && r.events[k].Frag? && r.events[k].d != d && r.events[k].d < |r.trains|
    && Fragmented(r, r.events[k].d) && SlotKey(r.trains[r.events[k].d]) == SlotKey(r.trains[d])
  }

  /** No piece of d comes twice, and none later than the timeout after the one before it. */
  ghost predicate InTime(r: Run, k: nat, d: nat)
    requires k < |r.events|
  {
    Mine(r, k, d) ==>
      r.events[k].i !in Got(r, k, d) && (Got(r, k, d) != {} ==> r.events[k].at - LastAt(r, k, d) <= TIMEOUT)
  }

  /** Fragments with the key of d are of d, or more than the timeout older than its first one. */
  predicate NoRival(r: Run, k: nat, d: nat, first: nat)
    requires k < |r.events| && first < |r.events| && d < |r.trains|
  {
    Rival(r, k, d) ==> k < first && r.events[first].at - r.events[k].at > TIMEOUT
  }

  /** All fragments of d arrive, at events `first` to `last`, in any order; nothing is said of other datagrams. */
  ghost predicate Arrives(r: Run, d: nat, first: nat, last: nat) {
    && WellFormed(r) && ClockMonotone(r) && d < |r.trains| && Fragmented(r, d) && first <= last < |r.events|
    && Mine(r, first, d) && Got(r, first, d) == {}
    && Mine(r, last, d) && !Complete(r, last, d) && Complete(r, last + 1, d)
    && (forall k :: first <= k <= last ==> InTime(r, k, d))
    && (forall k :: 0 <= k <= last ==> NoRival(r, k, d, first))
  }

  /** The table has room for d: fewer than 16 slots, stale ones included, when its own leftover key is dropped. */
  predicate Room(slots: Slots, at: int, t: Train) {
    |Retained(slots, at, SlotKey(t), |t.pieces|).Keys| < MAX_SLOTS
  }

  /** The tables of a run: table n is the reassembler's before event n. */
  ghost predicate Tables(r: Run, tables: seq<Slots>) {
    && WellFormed(r) && |tables| == |r.events| + 1 && tables[0] == map[]
    && (forall k :: 0 <= k < |r.events| ==> Linked(r, tables, k))
  }

  ghost predicate Linked(r: Run, tables: seq<Slots>, k: nat)
    requires WellFormed(r) && k < |r.events| && |tables| == |r.events| + 1
  {
    && InRun(r, r.events[k]) && SlotsOk(tables[k]) && SlotsOk(tables[k + 1])
    && tables[k + 1] == Take(r, tables[k], r.events[k]).slots
  }

  function TablesOf(r: Run): seq<Slots>
    requires WellFormed(r)
  {
    seq(|r.events| + 1, n requires 0 <= n <= |r.events| => SlotsAt(r, n))
  }

  lemma TablesAreLinked(r: Run)
    requires WellFormed(r)
    ensures Tables(r, TablesOf(r))
  {
    var tables := TablesOf(r);
    forall k | 0 <= k < |r.events| ensures Linked(r, tables, k) {
      assert InRun(r, r.events[k]);
      SlotsAtNext(r, k, k + 1);
    }
  }

  /** What event n hands out, table by table. */
  function PacketFrom(r: Run, tables: seq<Slots>, n: nat): Option<Packet>
    requires n < |tables| && n < |r.events| && InRun(r, r.events[n]) && SlotsOk(tables[n])
  {
    Take(r, tables[n], r.events[n]).packet
  }

  // ----- what other events do to the slot -----

  /** The entry of a key, if any, is the same in both tables. */
  predicate SameEntry(a: Slots, b: Slots, key: nat) {
    (key in a <==> key in b) && (key in a ==> a[key] == b[key])
  }

  lemma FillElsewhere(kept: Slots, at: int, k: nat, slot: Slot, i: nat, payload: bytes, key: nat)
    requires i < |slot.frags| && k != key
    ensures SameEntry(Fill(kept, k, slot, i, payload, at).slots, kept, key)
  {
  }

  lemma OtherKeyStays(slots: Slots, at: int, t: Train, i: nat, key: nat)
    requires SlotsOk(slots) && TrainOk(t) && i < |t.pieces| && (|t.pieces| > 1 ==> SlotKey(t) != key)
    ensures SameEntry(TakePiece(slots, at, t, i).slots, slots, key)
  {
    if |t.pieces| > 1 {
      var kept := Retained(slots, at, SlotKey(t), |t.pieces|);
      TakeFills(slots, at, t, i, kept);
      FillElsewhere(kept, at, SlotKey(t), Target(kept, SlotKey(t), |t.pieces|, at), i, t.pieces[i], key);
    }
  }

  /** An event without a fragment of d's key leaves d's slot alone, unless it is a sweep that finds it stale. */
  lemma OtherEvent(r: Run, slots: Slots, n: nat, d: nat, first: nat)
    requires SlotsOk(slots) && d < |r.trains| && first <= n < |r.events| && InRun(r, r.events[n])
    requires NoRival(r, n, d, first) && !Mine(r, n, d)
    ensures var x, key := Take(r, slots, r.events[n]).slots, SlotKey(r.trains[d]);
      && (key in x ==> key in slots && x[key] == slots[key])
      && (key in slots && !(r.events[n].Tick? && Stale(slots[key], r.events[n].at)) ==> key in x)
  {
    var e := r.events[n];
    if e.Frag? {
      OtherKeyStays(slots, e.at, r.trains[e.d], e.i, SlotKey(r.trains[d]));
    }
  }

  // ----- the slot when the first fragment arrives -----

  /** The slot of the key was last touched by a fragment with that key. */
  ghost predicate Touched(r: Run, n: nat, key: nat, slot: Slot) {
    exists k :: 0 <= k < n && k < |r.events| && TouchedAt(r, k, key, slot)
  }

  predicate TouchedAt(r: Run, k: nat, key: nat, slot: Slot)
    requires k < |r.events|
  {
    && r.events[k].Frag? && r.events[k].d < |r.trains| && Fragmented(r, r.events[k].d)
    && SlotKey(r.trains[r.events[k].d]) == key && slot.lastSeen == r.events[k].at
  }

  lemma PieceTouches(slots: Slots, at: int, t: Train, i: nat)
    requires SlotsOk(slots) && i < |t.pieces| <= MAX_FRAGMENTS && |t.pieces| > 1
    ensures var x := TakePiece(slots, at, t, i).slots;
      SlotKey(t) in x ==> x[SlotKey(t)].lastSeen == at
  {
    assert SlotKey(t) in slots ==> SlotOk(slots[SlotKey(t)]);
  }

  lemma TouchStep(r: Run, slots: Slots, n: nat, next: nat, key: nat)
    requires SlotsOk(slots) && n < |r.events| && next == n + 1 && InRun(r, r.events[n])
    requires key in slots ==> Touched(r, n, key, slots[key])
    ensures var x := Take(r, slots, r.events[n]).slots; key in x ==> Touched(r, next, key, x[key])
  {
    var e, x := r.events[n], Take(r, slots, r.events[n]).slots;
    if key in x {
      if e.Frag? && Fragmented(r, e.d) && SlotKey(r.trains[e.d]) == key {
        PieceTouches(slots, e.at, r.trains[e.d], e.i);
        assert TouchedAt(r, n, key, x[key]);
      } else {
        if e.Frag? {
          OtherKeyStays(slots, e.at, r.trains[e.d], e.i, key);
        }
        var k :| 0 <= k < n && k < |r.events| && TouchedAt(r, k, key, slots[key]);
        assert TouchedAt(r, k, key, x[key]);
      }
    }
  }

  lemma {:induction false} SlotsAreTouched(r: Run, tables: seq<Slots>, n: nat, key: nat)
    requires Tables(r, tables) && n <= |r.events| && key in tables[n]
    ensures Touched(r, n, key, tables[n][key])
  {
    if n > 0 {
      assert Linked(r, tables, n - 1);
      if key in tables[n - 1] {
        SlotsAreTouched(r, tables, n - 1, key);
      }
      TouchStep(r, tables[n - 1], n - 1, n, key);
    }
  }

  /** A leftover slot of the key is stale when d begins, so it is dropped. */
  lemma KeyIsFree(r: Run, tables: seq<Slots>, d: nat, first: nat, last: nat)
    requires Tables(r, tables) && Arrives(r, d, first, last)
    ensures var t := r.trains[d];
      SlotKey(t) !in Retained(tables[first], r.events[first].at, SlotKey(t), |t.pieces|)
  {
    var key, slots := SlotKey(r.trains[d]), tables[first];
    if key in slots {
      SlotsAreTouched(r, tables, first, key);
      var k :| 0 <= k < first && k < |r.events| && TouchedAt(r, k, key, slots[key]);
      if Mine(r, k, d) {
        GotHas(r, k, first, d);
        assert false;
      }
      assert NoRival(r, k, d, first) && Rival(r, k, d);
    }
  }

  // ----- with room: the slot grows to the datagram -----

  /** The table has d's own slot with exactly the pieces received. */
  ghost predicate Growing(r: Run, n: nat, d: nat, slots: Slots)
    requires n <= |r.events| && d < |r.trains|
  {
    var key := SlotKey(r.trains[d]);
    Got(r, n, d) != {} && key in slots && slots[key] == PartSlot(r.trains[d].pieces, Got(r, n, d), LastAt(r, n, d))
  }

  /** Until the last fragment the next one is not late, so no sweep before it finds the slot stale. */
  lemma {:induction false} NotYetStale(r: Run, d: nat, first: nat, n: nat, last: nat)
    requires Arrives(r, d, first, last) && first < n <= last && Got(r, n, d) != {}
    ensures r.events[n].at - LastAt(r, n, d) <= TIMEOUT
    decreases last - n
  {
    assert InTime(r, n, d);
    if !Mine(r, n, d) {
      OthersUntouched(r, n, d);
      NotYetStale(r, d, first, n + 1, last);
    }
  }

  /** Dropping a slot that the fragment cannot continue is the first thing the step does. */
  lemma DropThenTake(slots: Slots, at: int, t: Train, i: nat, kept: Slots)
    requires SlotsOk(slots) && i < |t.pieces| <= MAX_FRAGMENTS && |t.pieces| > 1 && SlotKey(t) !in kept
    requires kept == Retained(slots, at, SlotKey(t), |t.pieces|)
    ensures SlotsOk(kept) && TakePiece(slots, at, t, i) == TakePiece(kept, at, t, i)
  {
    RemoveKeepsInvariant(slots, SlotKey(t));
    assert Retained(kept, at, SlotKey(t), |t.pieces|) == kept;
  }

  lemma OneOfMany(i: nat, n: nat)
    requires n > 1
    ensures !AllIn({} + {i}, n) && {} + {i} == {i}
  {
    var one := {} + {i};
    assert one == {i} && (0 !in one || 1 !in one);
  }

  lemma FirstPiece(slots: Slots, at: int, t: Train, i: nat)
    requires SlotsOk(slots) && TrainOk(t) && i < |t.pieces| && |t.pieces| > 1 && Room(slots, at, t)
    requires SlotKey(t) !in Retained(slots, at, SlotKey(t), |t.pieces|)
    ensures var x := TakePiece(slots, at, t, i);
      SlotKey(t) in x.slots && x.slots[SlotKey(t)] == PartSlot(t.pieces, {i}, at) && x.packet == None
  {
    var kept := Retained(slots, at, SlotKey(t), |t.pieces|);
    DropThenTake(slots, at, t, i, kept);
    TakePart(kept, at, t, {}, at, i);
    OneOfMany(i, |t.pieces|);
  }

  lemma NextPiece(slots: Slots, at: int, t: Train, got: set<nat>, seen: int, i: nat)
    requires SlotsOk(slots) && TrainOk(t) && i < |t.pieces| && |t.pieces| > 1 && i !in got && at - seen <= TIMEOUT
    requires SlotKey(t) in slots && slots[SlotKey(t)] == PartSlot(t.pieces, got, seen)
    ensures var x := TakePiece(slots, at, t, i);
      if AllIn(got + {i}, |t.pieces|) then x.packet == Some(Original(t))
      else x.packet == None && SlotKey(t) in x.slots && x.slots[SlotKey(t)] == PartSlot(t.pieces, got + {i}, at)
  {
    TakePart(slots, at, t, got, seen, i);
  }

  lemma GotNext(r: Run, n: nat, next: nat, d: nat)
    requires n < |r.events| && next == n + 1 && Mine(r, n, d) && d < |r.trains|
    ensures Got(r, next, d) == Got(r, n, d) + {r.events[n].i} && LastAt(r, next, d) == r.events[n].at
    ensures Complete(r, next, d) <==> AllIn(Got(r, n, d) + {r.events[n].i}, |r.trains[d].pieces|)
  {
  }

  lemma GrowStep(r: Run, d: nat, first: nat, n: nat, next: nat, last: nat, slots: Slots)
    requires Arrives(r, d, first, last) && first < n <= last && next == n + 1
    requires SlotsOk(slots) && Growing(r, n, d, slots) && InRun(r, r.events[n])
    ensures !Complete(r, next, d) ==> Growing(r, next, d, Take(r, slots, r.events[n]).slots)
    ensures Mine(r, n, d) ==>
      Take(r, slots, r.events[n]).packet == if Complete(r, next, d) then Some(Original(r.trains[d])) else None
  {
    var e, t := r.events[n], r.trains[d];
    NotYetStale(r, d, first, n, last);
    assert InTime(r, n, d) && NoRival(r, n, d, first);
    if Mine(r, n, d) {
      NextPiece(slots, e.at, t, Got(r, n, d), LastAt(r, n, d), e.i);
      GotNext(r, n, next, d);
    } else {
      OtherEvent(r, slots, n, d, first);
      OthersUntouched(r, n, d);
    }
  }

  lemma {:induction false} NotCompleteYet(r: Run, d: nat, n: nat, last: nat)
    requires n <= last <= |r.events| && d < |r.trains| && !Complete(r, last, d)
    ensures !Complete(r, n, d)
  {
    GotGrows(r, n, last, d);
  }

  lemma GrowStart(r: Run, tables: seq<Slots>, d: nat, first: nat, next: nat, last: nat)
    requires Tables(r, tables) && Arrives(r, d, first, last) && next == first + 1
    requires Linked(r, tables, first) && Room(tables[first], r.events[first].at, r.trains[d])
    ensures Growing(r, next, d, tables[next]) && PacketFrom(r, tables, first) == None
  {
    var e := r.events[first];
    KeyIsFree(r, tables, d, first, last);
    FirstPiece(tables[first], e.at, r.trains[d], e.i);
    GotNext(r, first, next, d);
    OneOfMany(e.i, |r.trains[d].pieces|);
  }

  lemma GrowNext(r: Run, tables: seq<Slots>, d: nat, first: nat, n: nat, next: nat, last: nat)
    requires Tables(r, tables) && Arrives(r, d, first, last) && first < n < last && next == n + 1
    requires Growing(r, n, d, tables[n])
    ensures Growing(r, next, d, tables[next])
  {
    assert Linked(r, tables, n);
    NotCompleteYet(r, d, next, last);
    GrowStep(r, d, first, n, next, last, tables[n]);
  }

  lemma {:induction false} AlwaysGrowing(r: Run, tables: seq<Slots>, d: nat, first: nat, n: nat, last: nat)
    requires Tables(r, tables) && Arrives(r, d, first, last) && first < n <= last
    requires Room(tables[first], r.events[first].at, r.trains[d])
    ensures Growing(r, n, d, tables[n])
  {
    if n == first + 1 {
      assert Linked(r, tables, first);
      GrowStart(r, tables, d, first, n, last);
    } else {
      AlwaysGrowing(r, tables, d, first, n - 1, last);
      GrowNext(r, tables, d, first, n - 1, n, last);
    }
  }

  // ----- without room: the first piece is missing for ever -----

  /** A slot of d's key, if there is one, lacks piece i. */
  predicate Lacks(slots: Slots, t: Train, i: nat) {
    SlotKey(t) in slots ==> var slot := slots[SlotKey(t)]; slot.fragCnt == |t.pieces| && i < |slot.frags| && slot.frags[i] == None
  }

  lemma RefusedPiece(slots: Slots, at: int, t: Train, i: nat)
    requires SlotsOk(slots) && i < |t.pieces| <= MAX_FRAGMENTS && |t.pieces| > 1 && !Room(slots, at, t)
    requires SlotKey(t) !in Retained(slots, at, SlotKey(t), |t.pieces|)
    ensures var x := TakePiece(slots, at, t, i);
      x.packet == None && x.slots == Retained(slots, at, SlotKey(t), |t.pieces|)
  {
  }

  lemma StoreLacks(slot: Slot, i: nat, missing: nat, payload: bytes, at: int)
    requires Fillable(slot) && i < |slot.frags| && missing < |slot.frags| && i != missing && slot.frags[missing] == None
    requires slot.frags[i] == None
    ensures Store(slot, i, payload, at).count < slot.fragCnt && Store(slot, i, payload, at).frags[missing] == None
  {
    var filled := Store(slot, i, payload, at);
    StoreCounts(slot.frags, i, payload);
    PresentExactly(filled.frags);
    assert filled.frags[missing] == None;
  }

  lemma FillLacks(kept: Slots, t: Train, slot: Slot, i: nat, missing: nat, at: int)
    requires i < |t.pieces| && missing < |t.pieces| && i != missing
    requires Fillable(slot) && slot.fragCnt == |t.pieces| && slot.frags[missing] == None
    ensures var x := Fill(kept, SlotKey(t), slot, i, t.pieces[i], at); Lacks(x.slots, t, missing) && x.datagram == None
  {
    if slot.frags[i] == None {
      StoreLacks(slot, i, missing, t.pieces[i], at);
    }
  }

  lemma PieceLacks(slots: Slots, at: int, t: Train, i: nat, missing: nat)
    requires SlotsOk(slots) && TrainOk(t) && i < |t.pieces| && |t.pieces| > 1
    requires missing < |t.pieces| && i != missing && Lacks(slots, t, missing)
    ensures var x := TakePiece(slots, at, t, i); Lacks(x.slots, t, missing) && x.packet == None
  {
    var key := SlotKey(t);
    var kept := Retained(slots, at, key, |t.pieces|);
    EmptyFragments(|t.pieces|);
    TakeFills(slots, at, t, i, kept);
    assert key in slots ==> SlotOk(slots[key]);
    if key in kept || |kept.Keys| < MAX_SLOTS {
      FillLacks(kept, t, Target(kept, key, |t.pieces|, at), i, missing, at);
    }
  }

  lemma LackStep(r: Run, d: nat, first: nat, n: nat, last: nat, slots: Slots)
    requires Arrives(r, d, first, last) && first < n <= last && SlotsOk(slots) && InRun(r, r.events[n])
    requires r.events[first].i < |r.trains[d].pieces| && Lacks(slots, r.trains[d], r.events[first].i)
    ensures Lacks(Take(r, slots, r.events[n]).slots, r.trains[d], r.events[first].i)
    ensures Mine(r, n, d) ==> Take(r, slots, r.events[n]).packet == None
  {
    var e, missing := r.events[n], r.events[first].i;
    assert InTime(r, n, d) && NoRival(r, n, d, first);
    if Mine(r, n, d) {
      GotHas(r, first, n, d);
      PieceLacks(slots, e.at, r.trains[d], e.i, missing);
    } else {
      OtherEvent(r, slots, n, d, first);
    }
  }

  lemma LackStart(r: Run, tables: seq<Slots>, d: nat, first: nat, next: nat, last: nat)
    requires Tables(r, tables) && Arrives(r, d, first, last) && next == first + 1
    requires Linked(r, tables, first) && !Room(tables[first], r.events[first].at, r.trains[d])
    ensures Lacks(tables[next], r.trains[d], r.events[first].i) && PacketFrom(r, tables, first) == None
  {
    KeyIsFree(r, tables, d, first, last);
    RefusedPiece(tables[first], r.events[first].at, r.trains[d], r.events[first].i);
  }

  lemma LackNext(r: Run, tables: seq<Slots>, d: nat, first: nat, n: nat, next: nat, last: nat)
    requires Tables(r, tables) && Arrives(r, d, first, last) && first < n < last && next == n + 1
    requires InRun(r, r.events[first]) && Lacks(tables[n], r.trains[d], r.events[first].i)
    ensures Lacks(tables[next], r.trains[d], r.events[first].i)
  {
    assert Linked(r, tables, n);
    LackStep(r, d, first, n, last, tables[n]);
  }

  lemma {:induction false} AlwaysLacking(r: Run, tables: seq<Slots>, d: nat, first: nat, n: nat, last: nat)
    requires Tables(r, tables) && Arrives(r, d, first, last) && first < n <= last
    requires InRun(r, r.events[first]) && !Room(tables[first], r.events[first].at, r.trains[d])
    ensures Lacks(tables[n], r.trains[d], r.events[first].i)
  {
    if n == first + 1 {
      assert Linked(r, tables, first);
      LackStart(r, tables, d, first, n, last);
    } else {
      AlwaysLacking(r, tables, d, first, n - 1, last);
      LackNext(r, tables, d, first, n - 1, n, last);
    }
  }

  // ----- the fate of the datagram -----

  lemma OneIsNotAll(r: Run, d: nat, first: nat, next: nat, last: nat)
    requires Arrives(r, d, first, last) && next == first + 1
    ensures !Complete(r, next, d) && first < last
  {
    GotNext(r, first, next, d);
    OneOfMany(r.events[first].i, |r.trains[d].pieces|);
  }

  lemma LaterFate(r: Run, tables: seq<Slots>, d: nat, first: nat, n: nat, next: nat, last: nat)
    requires Tables(r, tables) && Arrives(r, d, first, last) && first < n <= last && next == n + 1 && Mine(r, n, d)
    requires Linked(r, tables, n) && Growing(r, n, d, tables[n])
    ensures PacketFrom(r, tables, n) == if n == last then Some(Original(r.trains[d])) else None
  {
    GrowStep(r, d, first, n, next, last, tables[n]);
    if n < last {
      NotCompleteYet(r, d, next, last);
    }
  }

  lemma FateWithRoom(r: Run, tables: seq<Slots>, d: nat, first: nat, n: nat, last: nat)
    requires Tables(r, tables) && Arrives(r, d, first, last) && first <= n <= last && Mine(r, n, d)
    requires Linked(r, tables, n) && Room(tables[first], r.events[first].at, r.trains[d])
    ensures PacketFrom(r, tables, n) == if n == last then Some(Original(r.trains[d])) else None
  {
    if n == first {
      GrowStart(r, tables, d, first, first + 1, last);
      OneIsNotAll(r, d, first, first + 1, last);
    } else {
      AlwaysGrowing(r, tables, d, first, n, last);
      LaterFate(r, tables, d, first, n, n + 1, last);
    }
  }

  lemma FateWithoutRoom(r: Run, tables: seq<Slots>, d: nat, first: nat, n: nat, last: nat)
    requires Tables(r, tables) && Arrives(r, d, first, last) && first <= n <= last && Mine(r, n, d)
    requires Linked(r, tables, n) && !Room(tables[first], r.events[first].at, r.trains[d])
    ensures PacketFrom(r, tables, n) == None
  {
    assert InRun(r, r.events[first]);
    if n == first {
      LackStart(r, tables, d, first, first + 1, last);
    } else {
      AlwaysLacking(r, tables, d, first, n, last);
      LackStep(r, d, first, n, last, tables[n]);
    }
  }

  /**
   * Delivery under loss. Whatever becomes of every other datagram, one whose fragments all arrive in time comes out
   * at its last fragment, unchanged, if and only if the table had room at its first; and at no other fragment of it
   * does anything come out.
   */
  lemma DeliveredExactly(r: Run, d: nat, first: nat, n: nat, last: nat)
    requires Arrives(r, d, first, last) && first <= n <= last && Mine(r, n, d)
    ensures PacketAt(r, n)
         == if n == last && Room(SlotsAt(r, first), r.events[first].at, r.trains[d]) then Some(Original(r.trains[d]))
            else None
  {
    var tables := TablesOf(r);
    TablesAreLinked(r);
    assert Linked(r, tables, n);
    if Room(tables[first], r.events[first].at, r.trains[d]) {
      FateWithRoom(r, tables, d, first, n, last);
    } else {
      FateWithoutRoom(r, tables, d, first, n, last);
    }
  }

  // ----- the reassembly timeout -----

  /** Only the pieces of one datagram arrive, each once, in any order and at any times. */
  ghost predicate Lone(r: Run) {
    && WellFormed(r) && ClockMonotone(r) && |r.trains| == 1 && Fragmented(r, 0) && r.events != []
    && (forall k :: 0 <= k < |r.events| ==> Mine(r, k, 0))
    && (forall k :: 0 <= k < |r.events| ==> Fresh(r, k)) && Complete(r, |r.events|, 0)
  }

  ghost predicate Fresh(r: Run, k: nat)
    requires k < |r.events|
  {
    r.events[k].Frag? ==> r.events[k].i !in Got(r, k, r.events[k].d)
  }

  /** Event k comes at most 300 ms after the one before it. */
  predicate Prompt(r: Run, k: nat)
    requires 0 < k < |r.events|
  {
    r.events[k].at - r.events[k - 1].at <= 300_000_000
  }

  lemma LoneLast(r: Run, n: nat, next: nat)
    requires Lone(r) && n < |r.events| && next == n + 1 && r.events[n].Frag?
    ensures LastAt(r, next, 0) == r.events[n].at && Got(r, next, 0) == Got(r, n, 0) + {r.events[n].i}
  {
    assert Mine(r, n, 0);
  }

  lemma LoneArrives(r: Run)
    requires Lone(r) && forall k :: 0 < k < |r.events| ==> Prompt(r, k)
    ensures Arrives(r, 0, 0, |r.events| - 1)
  {
    var last := |r.events| - 1;
    forall k | 0 <= k <= last ensures InTime(r, k, 0) && NoRival(r, k, 0, 0) {
      assert Mine(r, k, 0) && Fresh(r, k);
      if k > 0 {
        assert Mine(r, k - 1, 0);
        LoneLast(r, k - 1, k);
        assert Prompt(r, k);
      }
    }
    assert Mine(r, 0, 0) && Mine(r, last, 0) && Fresh(r, last) && InRun(r, r.events[last]);
  }

  /** The slot at event n, if any, was last touched by the event before. */
  lemma LoneTouched(r: Run, tables: seq<Slots>, n: nat, next: nat)
    requires Lone(r) && Tables(r, tables) && n < |r.events| && next == n + 1
    ensures var key := SlotKey(r.trains[0]); key in tables[next] ==> tables[next][key].lastSeen == r.events[n].at
  {
    assert Linked(r, tables, n) && Mine(r, n, 0);
    PieceTouches(tables[n], r.events[n].at, r.trains[0], r.events[n].i);
  }

  /** A late piece starts anew, so what came before it is missing. */
  lemma LatePiece(slots: Slots, at: int, t: Train, i: nat, missing: nat, last: int)
    requires SlotsOk(slots) && TrainOk(t) && i < |t.pieces| && |t.pieces| > 1 && missing < |t.pieces| && i != missing
    requires SlotKey(t) in slots ==> slots[SlotKey(t)].lastSeen == last
    requires at - last > 300_000_000
    ensures var x := TakePiece(slots, at, t, i); Lacks(x.slots, t, missing) && x.packet == None
  {
    var kept := Retained(slots, at, SlotKey(t), |t.pieces|);
    assert SlotKey(t) !in kept;
    DropThenTake(slots, at, t, i, kept);
    PieceLacks(kept, at, t, i, missing);
  }

  lemma LateEvent(r: Run, tables: seq<Slots>, n: nat, next: nat)
    requires Lone(r) && Tables(r, tables) && 0 < n < |r.events| && next == n + 1 && !Prompt(r, n)
    requires InRun(r, r.events[0]) && Linked(r, tables, n) && r.events[0].Frag?
    ensures Lacks(tables[next], r.trains[0], r.events[0].i) && PacketFrom(r, tables, n) == None
  {
    LoneTouched(r, tables, n - 1, n);
    FirstMissing(r, n);
    LatePiece(tables[n], r.events[n].at, r.trains[0], r.events[n].i, r.events[0].i, r.events[n - 1].at);
  }

  lemma FirstMissing(r: Run, n: nat)
    requires Lone(r) && 0 < n < |r.events|
    ensures Mine(r, 0, 0) && Mine(r, n, 0) && r.events[n].i != r.events[0].i
  {
    assert Mine(r, 0, 0) && Mine(r, n, 0) && Fresh(r, n);
    GotHas(r, 0, n, 0);
  }

  lemma AfterLateNext(r: Run, tables: seq<Slots>, n: nat, next: nat)
    requires Lone(r) && Tables(r, tables) && 0 < n < |r.events| && next == n + 1
    requires InRun(r, r.events[0]) && r.events[0].Frag? && Linked(r, tables, n)
    requires Lacks(tables[n], r.trains[0], r.events[0].i)
    ensures Lacks(tables[next], r.trains[0], r.events[0].i) && PacketFrom(r, tables, n) == None
  {
    FirstMissing(r, n);
    PieceLacks(tables[n], r.events[n].at, r.trains[0], r.events[n].i, r.events[0].i);
  }

  lemma {:induction false} AfterLate(r: Run, tables: seq<Slots>, late: nat, n: nat, next: nat)
    requires Lone(r) && Tables(r, tables) && 0 < late <= n < |r.events| && !Prompt(r, late) && next == n + 1
    requires InRun(r, r.events[0]) && r.events[0].Frag? && Linked(r, tables, n)
    ensures Lacks(tables[next], r.trains[0], r.events[0].i) && PacketFrom(r, tables, n) == None
    decreases n
  {
    if n == late {
      LateEvent(r, tables, n, next);
    } else {
      assert Linked(r, tables, n - 1);
      AfterLate(r, tables, late, n - 1, n);
      AfterLateNext(r, tables, n, next);
    }
  }

  ghost predicate AllPrompt(r: Run) {
    forall k :: 0 < k < |r.events| ==> Prompt(r, k)
  }

  lemma PromptComesOut(r: Run, last: nat)
    requires Lone(r) && AllPrompt(r) && last == |r.events| - 1
    ensures PacketAt(r, last) == Some(Original(r.trains[0]))
  {
    LoneArrives(r);
    assert Mine(r, last, 0);
    DeliveredExactly(r, 0, 0, last, last);
  }

  lemma LateDoesNot(r: Run, late: nat, last: nat)
    requires Lone(r) && 0 < late < |r.events| && !Prompt(r, late) && last == |r.events| - 1
    ensures PacketAt(r, last) == None
  {
    var tables := TablesOf(r);
    TablesAreLinked(r);
    assert Linked(r, tables, last) && Mine(r, 0, 0) && InRun(r, r.events[0]);
    AfterLate(r, tables, late, last, last + 1);
  }

  /** A datagram alone comes out, at its last piece, if and only if no piece comes more than 300 ms after the one before. */
  lemma GapsDecide(r: Run)
    requires Lone(r)
    ensures PacketAt(r, |r.events| - 1) == if AllPrompt(r) then Some(Original(r.trains[0])) else None
  {
    if AllPrompt(r) {
      PromptComesOut(r, |r.events| - 1);
    } else {
      var late :| 0 < late < |r.events| && !Prompt(r, late);
      LateDoesNot(r, late, |r.events| - 1);
    }
  }

  // ----- a table full of leftovers -----

  /** The event is no sweep and brings no fragment of a slot in the table. */
  predicate Elsewhere(r: Run, k: nat, slots: Slots)
    requires k < |r.events| && InRun(r, r.events[k])
  {
    var e := r.events[k];
    !e.Tick? && (e.Frag? && Fragmented(r, e.d) ==> SlotKey(r.trains[e.d]) !in slots)
  }

  lemma FullTableStep(r: Run, slots: Slots, n: nat)
    requires SlotsOk(slots) && |slots.Keys| == MAX_SLOTS && n < |r.events| && InRun(r, r.events[n])
    requires Elsewhere(r, n, slots)
    ensures Take(r, slots, r.events[n]).slots == slots
    ensures r.events[n].Frag? && Fragmented(r, r.events[n].d) ==> Take(r, slots, r.events[n]).packet == None
  {
  }

  lemma {:induction false} FullTableStays(r: Run, tables: seq<Slots>, m: nat, n: nat)
    requires Tables(r, tables) && m <= n <= |r.events| && |tables[m].Keys| == MAX_SLOTS
    requires forall k :: m <= k < n ==> Linked(r, tables, k) && Elsewhere(r, k, tables[m])
    ensures tables[n] == tables[m]
    decreases n
  {
    if m < n {
      FullTableStays(r, tables, m, n - 1);
      assert Linked(r, tables, n - 1) && Elsewhere(r, n - 1, tables[m]);
      FullTableStep(r, tables[m], n - 1);
    }
  }

  /**
   * A full table refuses every new fragmented datagram, however old its slots are, until the next sweep or fragment of
   * one of the slots: staleness is looked at only in the slot of the arriving key.
   */
  lemma FullTableRefuses(r: Run, m: nat, n: nat)
    requires WellFormed(r) && m <= n < |r.events| && |SlotsAt(r, m).Keys| == MAX_SLOTS
    requires forall k :: m <= k <= n ==> InRun(r, r.events[k]) && Elsewhere(r, k, SlotsAt(r, m))
    requires r.events[n].Frag? && Fragmented(r, r.events[n].d)
    ensures PacketAt(r, n) == None && SlotsAt(r, n + 1) == SlotsAt(r, m)
  {
    var tables := TablesOf(r);
    TablesAreLinked(r);
    forall k | m <= k <= n ensures Linked(r, tables, k) && Elsewhere(r, k, tables[m]) {
      assert InRun(r, r.events[k]) && Elsewhere(r, k, SlotsAt(r, m));
    }
    FullTableStays(r, tables, m, n);
    FullTableStep(r, tables[m], n);
    FullTableStays(r, tables, m, n + 1);
  }

  /**
   * Sixteen two-piece datagrams each lose their second piece; at time t the sweeper may run, and a seventeenth
   * datagram arrives whole.
   */
  function LeftoverRun(t: int, swept: bool): Run {
    Run(seq(17, d requires 0 <= d < 17 => Train(7, d, [[0], [1]])),
        seq(16, d requires 0 <= d < 16 => Frag(0, d, 0))
        + [if swept then Tick(t) else Keepalive(t, 7), Frag(t, 16, 0), Frag(t, 16, 1)])
  }

  function Keys(n: nat): set<nat>
    requires n <= 0x1_0000
  {
    if n == 0 then {} else Keys(n - 1) + {Key(7, n - 1)}
  }

  lemma {:induction false} KeysCount(n: nat)
    requires n <= 0x1_0000
    ensures |Keys(n)| == n && forall d :: n <= d < 0x1_0000 ==> Key(7, d) !in Keys(n)
  {
    if n > 0 {
      KeysCount(n - 1);
    }
  }

  predicate HalfReceived(slots: Slots, n: nat)
    requires n <= 16
  {
    slots.Keys == Keys(n) && forall k :: k in slots ==> slots[k].lastSeen == 0
  }

  /** The first fragment of a datagram takes a new slot. */
  lemma NewSlot(slots: Slots, at: int, t: Train, i: nat)
    requires SlotsOk(slots) && TrainOk(t) && i < |t.pieces| && |t.pieces| > 1
    requires SlotKey(t) !in slots && |slots.Keys| < MAX_SLOTS
    ensures var x, slot := TakePiece(slots, at, t, i).slots, PartSlot(t.pieces, {i}, at);
      x == slots[SlotKey(t) := slot] && slot.lastSeen == at
  {
    TakePart(slots, at, t, {}, at, i);
    OneOfMany(i, |t.pieces|);
  }

  lemma HalfReceivedNext(slots: Slots, n: nat, next: nat, slot: Slot)
    requires n < 16 && next == n + 1 && HalfReceived(slots, n) && slot.lastSeen == 0
    ensures HalfReceived(slots[Key(7, n) := slot], next)
  {
  }

  lemma HalfReceivedStep(slots: Slots, n: nat, next: nat, t: Train)
    requires SlotsOk(slots) && n < 16 && next == n + 1 && HalfReceived(slots, n)
    requires TrainOk(t) && |t.pieces| > 1 && t.flowID == 7 && t.fragID == n
    ensures HalfReceived(TakePiece(slots, 0, t, 0).slots, next)
  {
    KeysCount(n);
    NewSlot(slots, 0, t, 0);
    HalfReceivedNext(slots, n, next, PartSlot(t.pieces, {0}, 0));
  }

  lemma LeftoverTrain(d: uint16)
    ensures TrainOk(Train(7, d, [[0], [1]])) && Original(Train(7, d, [[0], [1]])) == Packet(7, [0, 1])
  {
    var zero: bytes, one: bytes := [0], [1];
    assert [zero, one][1..] == [one];
    assert Flatten([one]) == one + Flatten([]);
  }

  lemma LeftoverFacts(r: Run, t: int, swept: bool)
    requires r == LeftoverRun(t, swept) && t >= 0
    ensures WellFormed(r) && ClockMonotone(r) && |r.events| == 19
    ensures forall d :: 0 <= d < 17 ==> r.trains[d] == Train(7, d, [[0], [1]])
    ensures forall d :: 0 <= d < 16 ==> r.events[d] == Frag(0, d, 0)
  {
    forall k | 0 <= k < |r.events| ensures InRun(r, r.events[k]) {
      LeftoverTrain(if k < 16 then k else 16);
    }
  }

  lemma {:induction false} LeftoverTable(r: Run, tables: seq<Slots>, t: int, swept: bool, n: nat)
    requires r == LeftoverRun(t, swept) && t >= 0 && Tables(r, tables) && n <= 16
    ensures HalfReceived(tables[n], n) && Got(r, n, 16) == {}
  {
    if n > 0 {
      LeftoverFacts(r, t, swept);
      LeftoverTable(r, tables, t, swept, n - 1);
      assert Linked(r, tables, n - 1) && r.events[n - 1] == Frag(0, n - 1, 0);
      HalfReceivedStep(tables[n - 1], n - 1, n, r.trains[n - 1]);
    }
  }

  lemma LeftoverRoom(r: Run, tables: seq<Slots>, t: int, swept: bool)
    requires r == LeftoverRun(t, swept) && t >= 0 && Tables(r, tables)
    ensures Room(tables[17], t, r.trains[16]) <==> swept && t > TIMEOUT
  {
    LeftoverFacts(r, t, swept);
    LeftoverTable(r, tables, t, swept, 16);
    KeysCount(16);
    assert Linked(r, tables, 16);
    if swept && t > TIMEOUT {
      assert tables[17] == map[];
    } else {
      assert tables[17] == tables[16];
    }
  }

  lemma TwoPieces(r: Run, d: nat, first: nat, last: nat, next: nat, at: int)
    requires d < |r.trains| && |r.trains[d].pieces| == 2 && last == first + 1 && next == last + 1 <= |r.events|
    requires r.events[first] == Frag(at, d, 0) && r.events[last] == Frag(at, d, 1) && Got(r, first, d) == {}
    ensures InTime(r, first, d) && InTime(r, last, d) && !Complete(r, last, d) && Complete(r, next, d)
  {
    GotNext(r, first, last, d);
    GotNext(r, last, next, d);
    assert 1 !in Got(r, last, d);
  }

  lemma LeftoverRivals(r: Run, t: int, swept: bool, k: nat)
    requires r == LeftoverRun(t, swept) && k < 19
    ensures NoRival(r, k, 16, 17)
  {
    if k < 16 {
      KeyInjective(7, k, 7, 16);
    }
  }

  lemma LeftoverArrives(r: Run, tables: seq<Slots>, t: int, swept: bool)
    requires r == LeftoverRun(t, swept) && t >= 0 && Tables(r, tables)
    ensures Arrives(r, 16, 17, 18)
  {
    LeftoverFacts(r, t, swept);
    LeftoverTable(r, tables, t, swept, 16);
    OthersUntouched(r, 16, 16);
    TwoPieces(r, 16, 17, 18, 19, t);
    forall k | 0 <= k <= 18 ensures NoRival(r, k, 16, 17) {
      LeftoverRivals(r, t, swept, k);
    }
  }

  /** After sixteen such losses a whole datagram comes out if and only if the sweeper ran, with the slots stale. */
  lemma LeftoversBlockUntilSwept(r: Run, t: int, swept: bool)
    requires r == LeftoverRun(t, swept) && t >= 0
    ensures WellFormed(r) && |r.events| == 19
    ensures PacketAt(r, 18) == if swept && t > TIMEOUT then Some(Packet(7, [0, 1])) else None
  {
    LeftoverFacts(r, t, swept);
    var tables := TablesOf(r);
    TablesAreLinked(r);
    LeftoverArrives(r, tables, t, swept);
    LeftoverRoom(r, tables, t, swept);
    LeftoverTrain(16);
    DeliveredExactly(r, 16, 17, 18, 18);
  }
}
