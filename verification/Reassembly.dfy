/**
 * The fragment reassembler: a table of slots keyed by (flow id, fragment id), with a timeout, a cap on
 * the number of slots and a cap on the bytes of a slot. `AddStep` and `SweepStep` specify the two
 * operations on values; the class is the program's in-place version.
 */
module Reassembly {
  import opened Bytes
  import opened FrameCodec
  import opened Fragmentation

  const TIMEOUT := 300_000_000  // 300 ms in nanoseconds
  const MAX_SLOTS := 16

  datatype Slot = Slot(fragCnt: nat, frags: seq<Option<bytes>>, count: nat, size: nat, lastSeen: int)

  type Slots = map<nat, Slot>

  datatype AddResult = AddResult(slots: Slots, datagram: Option<bytes>)

  /** The key packs a 32-bit flow id above a 16-bit fragment id. */
  function Key(flowID: uint32, fragID: uint16): nat {
    (flowID as int) * 0x1_0000 + fragID
  }

  lemma KeyInjective(f: uint32, i: uint16, g: uint32, j: uint16)
    ensures Key(f, i) == Key(g, j) <==> f == g && i == j
  {
    assert Key(f, i) % 0x1_0000 == i && Key(g, j) % 0x1_0000 == j;
  }

  predicate ValidMeta(meta: FrameMeta) {
    1 <= meta.fragCnt && meta.fragIdx < meta.fragCnt
  }

  /** The received fragments in index order, put together. */
  function Joined(frags: seq<Option<bytes>>): bytes {
    if frags == [] then []
    else (if frags[0].Some? then frags[0].value else []) + Joined(frags[1..])
  }

  function Present(frags: seq<Option<bytes>>): (n: nat)
    ensures n <= |frags|
  {
    if frags == [] then 0 else (if frags[0].Some? then 1 else 0) + Present(frags[1..])
  }

  predicate Stale(slot: Slot, now: int) {
    now - slot.lastSeen > TIMEOUT
  }

  function NoFragments(n: nat): seq<Option<bytes>> {
    seq(n, _ => None)
  }

  function Store(slot: Slot, i: nat, payload: bytes, now: int): Slot
    requires i < |slot.frags|
  {
    Slot(slot.fragCnt, slot.frags[i := Some(payload)], slot.count + 1, slot.size + |payload|, now)
  }

  /** The table after dropping a slot the new fragment cannot continue: another count, or timed out. */
  function Retained(slots: Slots, now: int, key: nat, fragCnt: nat): Slots {
    if key in slots && (slots[key].fragCnt != fragCnt || Stale(slots[key], now)) then slots - {key} else slots
  }

  function Blank(fragCnt: nat, now: int): Slot {
    Slot(fragCnt, NoFragments(fragCnt), 0, 0, now)
  }

  /** The slot a fragment goes into: the one in the table, or a fresh one. */
  function Target(kept: Slots, key: nat, fragCnt: nat, now: int): Slot {
    if key in kept then kept[key] else Blank(fragCnt, now)
  }

  /** A fragment enters its slot: a duplicate or an overflow drops the slot, the last one completes it. */
  function Fill(kept: Slots, key: nat, slot: Slot, i: nat, payload: bytes, now: int): AddResult
    requires i < |slot.frags|
  {
    var filled := Store(slot, i, payload, now);
    if slot.frags[i].Some? || filled.size > MAX_DATAGRAM then
      AddResult(kept - {key}, None)
    else if filled.count < filled.fragCnt then
      AddResult(kept[key := filled], None)
    else
      AddResult(kept - {key}, Some(Joined(filled.frags)))
  }

  function AddStep(slots: Slots, now: int, flowID: uint32, meta: FrameMeta, payload: bytes): AddResult
    requires SlotsOk(slots)
  {
    var key := Key(flowID, meta.fragID);
    var kept := Retained(slots, now, key, meta.fragCnt);
    if !ValidMeta(meta) then
      AddResult(slots, None)
    else if key !in kept && |kept.Keys| >= MAX_SLOTS then
      AddResult(kept, None)
    else
      assert key in kept ==> SlotOk(slots[key]);
      Fill(kept, key, Target(kept, key, meta.fragCnt, now), meta.fragIdx, payload, now)
  }

  /** A train of one fragment is complete at once, if there is room for it. */
  lemma OneFragment(slots: Slots, now: int, flowID: uint32, meta: FrameMeta, payload: bytes)
    requires SlotsOk(slots) && |slots.Keys| < 16 && Key(flowID, meta.fragID) !in slots
    requires meta.fragCnt == 1 && meta.fragIdx == 0 && |payload| <= 65507
    ensures AddStep(slots, now, flowID, meta, payload) == AddResult(slots, Some(payload))
  {
    var key, frags := Key(flowID, meta.fragID), [Some(payload)];
    assert Store(Blank(1, now), 0, payload, now).frags == frags && frags[1..] == [];
    assert Joined(frags) == payload + Joined(frags[1..]) == payload;
    assert slots - {key} == slots;
  }

  /** Without a count, or with an index beyond it, a fragment is refused and changes nothing. */
  lemma InvalidFragment(slots: Slots, now: int, flowID: uint32, meta: FrameMeta, payload: bytes)
    requires SlotsOk(slots) && (meta.fragCnt == 0 || meta.fragIdx >= meta.fragCnt)
    ensures AddStep(slots, now, flowID, meta, payload) == AddResult(slots, None)
  {
  }

  function SweepStep(slots: Slots, now: int): Slots {
    map k | k in slots && !Stale(slots[k], now) :: slots[k]
  }

  // ----- the invariant -----

  predicate Fillable(slot: Slot) {
    && slot.count < slot.fragCnt <= MAX_FRAGMENTS
    && |slot.frags| == slot.fragCnt
    && slot.count == Present(slot.frags)
    && slot.size == |Joined(slot.frags)| <= MAX_DATAGRAM
  }

  predicate SlotOk(slot: Slot) {
    1 <= slot.count && Fillable(slot)
  }

  predicate SlotsOk(slots: Slots) {
    |slots.Keys| <= MAX_SLOTS && forall k {:trigger SlotOk(slots[k])} :: k in slots ==> SlotOk(slots[k])
  }

  lemma {:induction false} StoreCounts(frags: seq<Option<bytes>>, i: nat, payload: bytes)
    requires i < |frags| && frags[i] == None
    ensures Present(frags[i := Some(payload)]) == Present(frags) + 1
    ensures |Joined(frags[i := Some(payload)])| == |Joined(frags)| + |payload|
  {
    var filled := frags[i := Some(payload)];
    if i == 0 {
      assert filled[1..] == frags[1..];
    } else {
      assert filled[1..] == frags[1..][i - 1 := Some(payload)];
      StoreCounts(frags[1..], i - 1, payload);
    }
  }

  lemma {:induction false} PresentExactly(frags: seq<Option<bytes>>)
    ensures Present(frags) == |frags| <==> forall i :: 0 <= i < |frags| ==> frags[i].Some?
    ensures Present(frags) == 0 <==> forall i :: 0 <= i < |frags| ==> frags[i] == None
  {
    if frags != [] {
      PresentExactly(frags[1..]);
      assert frags == [frags[0]] + frags[1..];
    }
  }

  lemma {:induction false} EmptyFragments(n: nat)
    ensures Present(NoFragments(n)) == 0 && Joined(NoFragments(n)) == []
  {
    if n > 0 {
      assert NoFragments(n)[1..] == NoFragments(n - 1);
      EmptyFragments(n - 1);
    }
  }

  lemma RemoveShrinks(slots: Slots, key: nat)
    ensures |(slots - {key}).Keys| == if key in slots then |slots.Keys| - 1 else |slots.Keys|
  {
    if key in slots {
      assert (slots - {key}).Keys == slots.Keys - {key};
    } else {
      assert slots - {key} == slots;
    }
  }

  lemma RemoveKeepsInvariant(slots: Slots, key: nat)
    requires SlotsOk(slots)
    ensures SlotsOk(slots - {key})
  {
    RemoveShrinks(slots, key);
  }

  lemma FillKeepsInvariant(kept: Slots, key: nat, slot: Slot, i: nat, payload: bytes, now: int)
    requires SlotsOk(kept) && Fillable(slot) && i < |slot.frags|
    requires key in kept || |kept.Keys| < MAX_SLOTS
    ensures SlotsOk(Fill(kept, key, slot, i, payload, now).slots)
  {
    RemoveKeepsInvariant(kept, key);
    if slot.frags[i] == None {
      StoreCounts(slot.frags, i, payload);
      var filled := Store(slot, i, payload, now);
      if filled.size <= MAX_DATAGRAM && filled.count < filled.fragCnt {
        assert SlotOk(filled);
        assert kept[key := filled].Keys == kept.Keys + {key};
      }
    }
  }

  /** Every `add` keeps the invariant, whatever frame arrives. */
  lemma AddKeepsInvariant(slots: Slots, now: int, flowID: uint32, meta: FrameMeta, payload: bytes)
    requires SlotsOk(slots)
    ensures SlotsOk(AddStep(slots, now, flowID, meta, payload).slots)
  {
    var key := Key(flowID, meta.fragID);
    var kept := Retained(slots, now, key, meta.fragCnt);
    RemoveKeepsInvariant(slots, key);
    assert SlotsOk(kept);
    if ValidMeta(meta) && (key in kept || |kept.Keys| < MAX_SLOTS) {
      EmptyFragments(meta.fragCnt);
      assert key in kept ==> SlotOk(kept[key]);
      FillKeepsInvariant(kept, key, Target(kept, key, meta.fragCnt, now), meta.fragIdx, payload, now);
    }
  }

  lemma SweepKeepsInvariant(slots: Slots, now: int)
    requires SlotsOk(slots)
    ensures SlotsOk(SweepStep(slots, now))
    ensures forall k :: k in SweepStep(slots, now) ==> now - SweepStep(slots, now)[k].lastSeen <= TIMEOUT
  {
    var after := SweepStep(slots, now);
    assert after.Keys <= slots.Keys;
    SubsetSize(after.Keys, slots.Keys);
  }

  lemma {:induction false} SubsetSize(a: set<nat>, b: set<nat>)
    requires a <= b
    ensures |a| <= |b|
  {
    if a != {} {
      var x :| x in a;
      SubsetSize(a - {x}, b - {x});
    }
  }

  // ----- the bytes held by the table -----

  ghost function BufferedBytes(slots: Slots): nat
    decreases |slots.Keys|
  {
    if slots == map[] then 0
    else
      var k :| k in slots;
      RemoveShrinks(slots, k);
      slots[k].size + BufferedBytes(slots - {k})
  }

  /** A reassembler never buffers more than 16 datagrams' worth of bytes. */
  lemma BufferedBytesBounded(slots: Slots)
    requires SlotsOk(slots)
    ensures BufferedBytes(slots) <= MAX_SLOTS * MAX_DATAGRAM
  {
    forall k | k in slots ensures slots[k].size <= MAX_DATAGRAM {
      assert SlotOk(slots[k]);
    }
    BufferedBytesPerSlot(slots);
  }

  lemma {:induction false} BufferedBytesPerSlot(slots: Slots)
    requires forall k :: k in slots ==> slots[k].size <= MAX_DATAGRAM
    ensures BufferedBytes(slots) <= |slots.Keys| * MAX_DATAGRAM
    decreases |slots.Keys|
  {
    if slots != map[] {
      var k :| k in slots && BufferedBytes(slots) == slots[k].size + BufferedBytes(slots - {k});
      RemoveShrinks(slots, k);
      BufferedBytesPerSlot(slots - {k});
    }
  }

  // ----- the in-place reassembler -----

  class ReassemblySlot {
    const fragCnt: nat
    const frags: array<Option<bytes>>
    var count: nat
    var size: nat
    var lastSeen: int

    constructor (fragCnt: nat, now: int)
      ensures this.fragCnt == fragCnt && fresh(frags)
      ensures State() == Blank(fragCnt, now)
    {
      this.fragCnt := fragCnt;
      this.frags := new Option<bytes>[fragCnt](_ => None);
      this.count, this.size, this.lastSeen := 0, 0, now;
    }

    function State(): Slot
      reads this, frags
    {
      Slot(fragCnt, frags[..], count, size, lastSeen)
    }

    method Put(i: nat, payload: bytes, now: int)
      requires i < frags.Length
      modifies this, frags
      ensures State() == Store(old(State()), i, payload, now)
    {
      frags[i] := Some(payload);
      count := count + 1;
      size := size + |payload|;
      lastSeen := now;
    }
  }

  class Reassembler {
    var slots: map<nat, ReassemblySlot>
    ghost var Repr: set<object>

    constructor ()
      ensures Valid() && View() == map[] && fresh(Repr)
    {
      slots := map[];
      Repr := {this};
    }

    /** No two keys share a slot or a fragment array. */
    ghost predicate Separate()
      reads this
    {
      && this in Repr
      && (forall k :: k in slots ==> slots[k] in Repr && slots[k].frags in Repr)
      && (forall j, k :: j in slots && k in slots && j != k ==> slots[j] != slots[k] && slots[j].frags != slots[k].frags)
    }

    ghost function View(): Slots
      requires Separate()
      reads this, Repr
    {
      map k | k in slots :: slots[k].State()
    }

    ghost predicate Valid()
      reads this, Repr
    {
      Separate() && SlotsOk(View())
    }

    /** `delete(r.slots, key)`. */
    method Delete(key: nat)
      requires Separate()
      modifies this
      ensures Separate() && Repr == old(Repr)
      ensures View() == old(View()) - {key}
      ensures slots == old(slots) - {key}
    {
      slots := slots - {key};
    }

    method Open(key: nat, fragCnt: nat, now: int)
      requires Separate() && key !in slots
      modifies this
      ensures Separate() && key in slots && fresh(Repr - old(Repr))
      ensures View() == old(View())[key := Blank(fragCnt, now)]
    {
      ghost var before := View();
      var slot := new ReassemblySlot(fragCnt, now);
      assert View() == before;
      slots := slots[key := slot];
      Repr := Repr + {slot, slot.frags};
    }

    /** A fragment enters the slot of its key; the other slots keep their state. */
    method PutFragment(key: nat, i: nat, payload: bytes, now: int)
      requires Separate() && key in slots && i < slots[key].frags.Length
      modifies slots[key], slots[key].frags
      ensures Separate()
      ensures View() == old(View())[key := Store(old(View())[key], i, payload, now)]
    {
      slots[key].Put(i, payload, now);
    }

    /** Drops the slot of the key if the fragment cannot continue it. */
    method Retain(key: nat, fragCnt: nat, now: int)
      requires Separate()
      modifies this
      ensures Separate() && Repr == old(Repr)
      ensures View() == Retained(old(View()), now, key, fragCnt)
    {
      if key in slots && (slots[key].fragCnt != fragCnt || now - slots[key].lastSeen > TIMEOUT) {
        Delete(key);
      }
    }

    /** Receives one fragment; a completed datagram is returned and its slot freed. */
    method Add(now: int, flowID: uint32, meta: FrameMeta, payload: bytes) returns (datagram: Option<bytes>)
      requires Valid()
      modifies Repr
      ensures Valid() && fresh(Repr - old(Repr))
      ensures View() == AddStep(old(View()), now, flowID, meta, payload).slots
      ensures datagram == AddStep(old(View()), now, flowID, meta, payload).datagram
    {
      ghost var before := View();
      ghost var want := AddStep(before, now, flowID, meta, payload);
      AddKeepsInvariant(View(), now, flowID, meta, payload);
      if meta.fragCnt < 1 || meta.fragIdx >= meta.fragCnt {
        assert want == AddResult(View(), None);
        return None;
      }
      var key := Key(flowID, meta.fragID);
      Retain(key, meta.fragCnt, now);
      ghost var kept := View();
      ghost var target := Target(kept, key, meta.fragCnt, now);
      assert kept.Keys == slots.Keys;
      assert key in kept ==> SlotOk(before[key]) && kept[key] == before[key];
      if key !in slots {
        if |slots.Keys| >= MAX_SLOTS {
          assert want == AddResult(kept, None);
          return None;
        }
        Open(key, meta.fragCnt, now);
      } else {
        UpdateWithSame(kept, key);
      }
      assert want == Fill(kept, key, target, meta.fragIdx, payload, now);
      datagram := FillOpen(key, kept, target, meta.fragIdx, payload, now);
      assert View() == want.slots;
    }

    /** Drops the slot just opened or filled: the table is what it was without it. */
    method Drop(key: nat, ghost kept: Slots, ghost slot: Slot)
      requires Separate() && View() == kept[key := slot]
      modifies this
      ensures Separate() && Repr == old(Repr) && View() == kept - {key}
    {
      UpdateThenRemove(kept, key, slot, slot);
      Delete(key);
    }

    /** The second half of `add`: the slot of the key is open, possibly just opened. */
    method FillOpen(key: nat, ghost kept: Slots, ghost target: Slot, i: nat, payload: bytes, now: int)
      returns (datagram: Option<bytes>)
      requires Separate() && key in slots && i < |target.frags|
      requires View() == kept[key := target]
      modifies Repr
      ensures Separate() && Repr == old(Repr)
      ensures View() == Fill(kept, key, target, i, payload, now).slots
      ensures datagram == Fill(kept, key, target, i, payload, now).datagram
    {
      datagram := None;
      var slot := slots[key];
      assert slot.State() == View()[key] == target;
      ghost var filled := Store(target, i, payload, now);
      ghost var want := Fill(kept, key, target, i, payload, now);
      UpdateThenRemove(kept, key, target, filled);
      if slot.frags[i].Some? {
        assert want == AddResult(kept - {key}, None);
        Drop(key, kept, target);
        return;
      }
      PutFragment(key, i, payload, now);
      assert slot.State() == View()[key] == filled;
      if slot.size > MAX_DATAGRAM {
        assert want == AddResult(kept - {key}, None);
        Drop(key, kept, filled);
        return;
      }
      if slot.count < slot.fragCnt {
        assert want == AddResult(kept[key := filled], None);
        return;
      }
      assert want == AddResult(kept - {key}, Some(Joined(filled.frags)));
      var buf := Join(slot.frags);
      Drop(key, kept, filled);
      datagram := Some(buf);
    }

    /** Drops the slot of the key if it has timed out. */
    method Expire(key: nat, now: int)
      requires Separate() && key in slots
      modifies this
      ensures Separate() && Repr == old(Repr)
      ensures slots.Keys == old(slots.Keys) || slots.Keys == old(slots.Keys) - {key}
      ensures View() == if Stale(old(View())[key], now) then old(View()) - {key} else old(View())
    {
      if now - slots[key].lastSeen > TIMEOUT {
        Delete(key);
      }
    }

    /** Drops every timed-out slot. */
    method Sweep(now: int)
      requires Valid()
      modifies this
      ensures Valid() && Repr == old(Repr)
      ensures View() == SweepStep(old(View()), now)
    {
      ghost var before := View();
      SweepKeepsInvariant(before, now);
      var todo := slots.Keys;
      assert todo == before.Keys;
      SweptNone(before, now);
      while todo != {}
        invariant Separate() && Repr == old(Repr)
        invariant todo <= slots.Keys
        invariant View() == SweptExcept(before, todo, now)
        decreases todo
      {
        var k :| k in todo;
        SweptOne(before, todo, k, now);
        todo := todo - {k};
        Expire(k, now);
      }
      SweptAll(before, now);
    }
  }

  /** The table when the sweep has yet to look at the keys of `todo`. */
  ghost function SweptExcept(slots: Slots, todo: set<nat>, now: int): Slots {
    map k | k in slots && (k in todo || !Stale(slots[k], now)) :: slots[k]
  }

  lemma SweptNone(slots: Slots, now: int)
    ensures SweptExcept(slots, slots.Keys, now) == slots
  {
  }

  lemma SweptAll(slots: Slots, now: int)
    ensures SweptExcept(slots, {}, now) == SweepStep(slots, now)
  {
  }

  lemma SweptOne(slots: Slots, todo: set<nat>, k: nat, now: int)
    requires k in todo && k in slots
    ensures SweptExcept(slots, todo, now)[k] == slots[k]
    ensures SweptExcept(slots, todo - {k}, now)
         == if Stale(slots[k], now) then SweptExcept(slots, todo, now) - {k} else SweptExcept(slots, todo, now)
  {
  }

  lemma UpdateWithSame(slots: Slots, key: nat)
    requires key in slots
    ensures slots[key := slots[key]] == slots
  {
  }

  lemma UpdateThenRemove(slots: Slots, key: nat, slot: Slot, other: Slot)
    ensures slots[key := slot] - {key} == slots - {key}
    ensures slots[key := slot][key := other] == slots[key := other]
  {
  }

  /** The append loop over the fragments of a complete slot. */
  method Join(frags: array<Option<bytes>>) returns (buf: bytes)
    ensures buf == Joined(frags[..])
  {
    buf := [];
    for i := 0 to frags.Length
      invariant buf == Joined(frags[..i])
    {
      JoinedSnoc(frags[..i], frags[i]);
      assert frags[..i + 1] == frags[..i] + [frags[i]];
      if frags[i].Some? {
        buf := buf + frags[i].value;
      }
    }
    assert frags[..frags.Length] == frags[..];
  }

  lemma {:induction false} JoinedSnoc(frags: seq<Option<bytes>>, last: Option<bytes>)
    ensures Joined(frags + [last]) == Joined(frags) + if last.Some? then last.value else []
  {
    var all := frags + [last];
    if frags == [] {
      assert all == [last] && all[1..] == [];
    } else {
      assert all[0] == frags[0] && all[1..] == frags[1..] + [last];
      JoinedSnoc(frags[1..], last);
      var head := if frags[0].Some? then frags[0].value else [];
      var tail := if last.Some? then last.value else [];
      assert head + (Joined(frags[1..]) + tail) == (head + Joined(frags[1..])) + tail;
    }
  }
}
