/**
 * Whole runs of the reassembler under arbitrary input: any frames, any sweeps, any clock. Nothing is
 * fabricated: what comes out is made of fragments that came in, each used once.
 */
module ReassemblyHistory {
  import opened Bytes
  import opened FrameCodec
  import opened Fragmentation
  import opened Reassembly

  datatype Event = Receive(at: int, flowID: uint32, meta: FrameMeta, payload: bytes) | Sweep(at: int)

  function Step(slots: Slots, e: Event): (r: AddResult)
    requires SlotsOk(slots)
    ensures SlotsOk(r.slots)
  {
    match e
    case Receive(at, flowID, meta, payload) =>
      AddKeepsInvariant(slots, at, flowID, meta, payload);
      AddStep(slots, at, flowID, meta, payload)
    case Sweep(at) =>
      SweepKeepsInvariant(slots, at);
      AddResult(SweepStep(slots, at), None)
  }

  /** The table before event n. In every reachable state it satisfies the reassembler's invariant. */
  function StateAt(events: seq<Event>, n: nat): (slots: Slots)
    requires n <= |events|
    ensures SlotsOk(slots)
  {
    if n == 0 then map[] else Step(StateAt(events, n - 1), events[n - 1]).slots
  }

  function OutputAt(events: seq<Event>, n: nat): Option<bytes>
    requires n < |events|
  {
    Step(StateAt(events, n), events[n]).datagram
  }

  /** In every reachable state at most 16 datagrams' worth of bytes are buffered. */
  lemma ReachableMemoryBound(events: seq<Event>, n: nat)
    requires n <= |events|
    ensures BufferedBytes(StateAt(events, n)) <= MAX_SLOTS * MAX_DATAGRAM
  {
    BufferedBytesBounded(StateAt(events, n));
  }

  /** The event carries an acceptable fragment for this slot key. */
  predicate Hits(e: Event, key: nat) {
    e.Receive? && ValidMeta(e.meta) && Key(e.flowID, e.meta.fragID) == key
  }

  // ----- provenance of a slot -----

  /** Event j carries fragment i of the slot, and the slot holds its payload. */
  ghost predicate Source(events: seq<Event>, from: nat, n: nat, key: nat, slot: Slot, i: nat, j: nat)
    requires n <= |events|
  {
    && from <= j < n
    && Hits(events[j], key)
    && events[j].meta.fragIdx == i < |slot.frags|
    && events[j].meta.fragCnt == slot.fragCnt
    && slot.frags[i] == Some(events[j].payload)
  }

  /**
   * The slot holds exactly the fragments received for its key in events[from..n], one per index;
   * `origin` says for each index which event it came from.
   */
  ghost predicate Backed(events: seq<Event>, from: nat, n: nat, key: nat, slot: Slot, origin: seq<Option<nat>>)
    requires n <= |events|
  {
    && from <= n
    && |origin| == |slot.frags| == slot.fragCnt
    && (forall i :: 0 <= i < |origin| ==>
          if origin[i].Some? then Source(events, from, n, key, slot, i, origin[i].value) else slot.frags[i] == None)
    && (forall j :: from <= j < n && Hits(events[j], key) ==>
          events[j].meta.fragIdx < |origin| && origin[events[j].meta.fragIdx] == Some(j))
  }

  ghost predicate Quiet(events: seq<Event>, from: nat, n: nat, key: nat)
    requires n <= |events|
  {
    forall j :: from <= j < n && Hits(events[j], key) ==> OutputAt(events, j) == None
  }

  lemma StoreBacked(events: seq<Event>, from: nat, n: nat, key: nat, slot: Slot, origin: seq<Option<nat>>)
    requires n < |events| && Hits(events[n], key)
    requires Backed(events, from, n, key, slot, origin)
    requires events[n].meta.fragCnt == slot.fragCnt && slot.frags[events[n].meta.fragIdx] == None
    ensures Backed(events, from, n + 1, key, Store(slot, events[n].meta.fragIdx, events[n].payload, events[n].at),
                   origin[events[n].meta.fragIdx := Some(n)])
  {
    var e := events[n];
    var filled := Store(slot, e.meta.fragIdx, e.payload, e.at);
    var origin' := origin[e.meta.fragIdx := Some(n)];
    var next := n + 1;
    assert Source(events, from, next, key, filled, e.meta.fragIdx, n);
    forall i | 0 <= i < |origin'|
      ensures if origin'[i].Some? then Source(events, from, next, key, filled, i, origin'[i].value) else filled.frags[i] == None
    {
      assert i != e.meta.fragIdx && origin[i].Some? ==> Source(events, from, n, key, slot, i, origin[i].value);
    }
  }

  lemma SkipBacked(events: seq<Event>, from: nat, n: nat, key: nat, slot: Slot, origin: seq<Option<nat>>)
    requires n < |events| && !Hits(events[n], key)
    requires Backed(events, from, n, key, slot, origin)
    ensures Backed(events, from, n + 1, key, slot, origin)
  {
    var next := n + 1;
    forall i | 0 <= i < |origin| && origin[i].Some?
      ensures Source(events, from, next, key, slot, i, origin[i].value)
    {
      assert Source(events, from, n, key, slot, i, origin[i].value);
    }
  }

  lemma FillTouchesOneKey(kept: Slots, key: nat, slot: Slot, i: nat, payload: bytes, now: int, other: nat)
    requires i < |slot.frags| && other != key
    ensures var after := Fill(kept, key, slot, i, payload, now).slots;
      && (other in after <==> other in kept)
      && (other in kept ==> after[other] == kept[other])
  {
  }

  lemma AddTouchesOneKey(slots: Slots, at: int, flowID: uint32, meta: FrameMeta, payload: bytes, other: nat)
    requires SlotsOk(slots) && (other != Key(flowID, meta.fragID) || !ValidMeta(meta))
    ensures var after := AddStep(slots, at, flowID, meta, payload).slots;
      && (other in after <==> other in slots)
      && (other in slots ==> after[other] == slots[other])
  {
    var key := Key(flowID, meta.fragID);
    var kept := Retained(slots, at, key, meta.fragCnt);
    if ValidMeta(meta) && (key in kept || |kept.Keys| < MAX_SLOTS) {
      assert key in kept ==> SlotOk(slots[key]);
      FillTouchesOneKey(kept, key, Target(kept, key, meta.fragCnt, at), meta.fragIdx, payload, at, other);
    }
  }

  /** A hit that ends in the table or in a delivery has stored its fragment in the slot, old or new. */
  lemma HitStores(slots: Slots, e: Event, key: nat, slot: Slot)
    requires SlotsOk(slots) && Hits(e, key)
    requires slot == Target(Retained(slots, e.at, key, e.meta.fragCnt), key, e.meta.fragCnt, e.at)
    requires key in Step(slots, e).slots || Step(slots, e).datagram.Some?
    ensures |slot.frags| == slot.fragCnt == e.meta.fragCnt && slot.frags[e.meta.fragIdx] == None
    ensures slot.count == Present(slot.frags)
    ensures var filled := Store(slot, e.meta.fragIdx, e.payload, e.at);
      && (key in Step(slots, e).slots ==> Step(slots, e).slots[key] == filled && Step(slots, e).datagram == None)
      && (Step(slots, e).datagram.Some? ==> Step(slots, e).datagram == Some(Joined(filled.frags)) && filled.count >= filled.fragCnt)
  {
    EmptyFragments(e.meta.fragCnt);
    assert key in slots ==> SlotOk(slots[key]);
  }

  /** Where the slot that event n hits was opened, and where its fragments came from. */
  lemma {:induction false} TargetIsBacked(events: seq<Event>, n: nat, key: nat, slot: Slot)
    returns (from: nat, origin: seq<Option<nat>>)
    requires n < |events| && Hits(events[n], key)
    requires slot == Target(Retained(StateAt(events, n), events[n].at, key, events[n].meta.fragCnt), key,
                            events[n].meta.fragCnt, events[n].at)
    ensures Backed(events, from, n, key, slot, origin)
    ensures Quiet(events, from, n, key)
    decreases n, 1
  {
    if key in Retained(StateAt(events, n), events[n].at, key, events[n].meta.fragCnt) {
      from, origin := SlotsAreBacked(events, n, key);
    } else {
      from, origin := n, seq(slot.fragCnt, _ => None);
    }
  }

  /** Every slot of a reachable table is backed since the event that opened it, with no delivery since. */
  lemma {:induction false} SlotsAreBacked(events: seq<Event>, n: nat, key: nat)
    returns (from: nat, origin: seq<Option<nat>>)
    requires n <= |events| && key in StateAt(events, n)
    ensures Backed(events, from, n, key, StateAt(events, n)[key], origin)
    ensures Quiet(events, from, n, key)
    decreases n, 0
  {
    var m := n - 1;
    var slots := StateAt(events, m);
    var e := events[m];
    if Hits(e, key) {
      var slot := Target(Retained(slots, e.at, key, e.meta.fragCnt), key, e.meta.fragCnt, e.at);
      HitStores(slots, e, key, slot);
      from, origin := TargetIsBacked(events, m, key, slot);
      StoreBacked(events, from, m, key, slot, origin);
      origin := origin[e.meta.fragIdx := Some(m)];
      assert OutputAt(events, m) == None;
    } else {
      if e.Receive? {
        AddTouchesOneKey(slots, e.at, e.flowID, e.meta, e.payload, key);
      }
      from, origin := SlotsAreBacked(events, m, key);
      SkipBacked(events, from, m, key, slots[key], origin);
    }
  }

  // ----- deliveries -----

  /**
   * Event n delivers the fragments received by the events `sources`: one source per index, all with the
   * flow id, fragment id and count of event n, and no other fragment for the key since `from`.
   */
  ghost predicate DeliveredFrom(events: seq<Event>, n: nat, from: nat, sources: seq<nat>)
    requires n < |events| && events[n].Receive?
  {
    var e := events[n];
    var key := Key(e.flowID, e.meta.fragID);
    && from <= n
    && |sources| == e.meta.fragCnt
    && (forall i :: 0 <= i < |sources| ==> from <= sources[i] <= n && Fragment(events[sources[i]], e, i))
    && (forall j {:trigger events[j]} :: from <= j <= n && Hits(events[j], key) ==>
          events[j].meta.fragIdx < |sources| && sources[events[j].meta.fragIdx] == j)
    && OutputAt(events, n) == Some(Flatten(Payloads(events, sources, n)))
    && Quiet(events, from, n, key)
  }

  /** `f` carries fragment i of the same fragmented datagram as `e`. */
  predicate Fragment(f: Event, e: Event, i: nat)
    requires e.Receive?
  {
    f.Receive? && f.flowID == e.flowID && f.meta.fragID == e.meta.fragID && f.meta.fragCnt == e.meta.fragCnt && f.meta.fragIdx == i
  }

  function Payloads(events: seq<Event>, sources: seq<nat>, n: nat): seq<bytes>
    requires n < |events| && forall i :: 0 <= i < |sources| ==> sources[i] <= n && events[sources[i]].Receive?
  {
    seq(|sources|, i requires 0 <= i < |sources| => events[sources[i]].payload)
  }

  lemma {:induction false} JoinedIsFlatten(frags: seq<Option<bytes>>, parts: seq<bytes>)
    requires |frags| == |parts| && forall i :: 0 <= i < |frags| ==> frags[i] == Some(parts[i])
    ensures Joined(frags) == Flatten(parts)
  {
    if frags != [] {
      JoinedIsFlatten(frags[1..], parts[1..]);
    }
  }

  /** No fabrication: every delivery, after any history, is made of genuine fragments, each used once. */
  lemma NoFabrication(events: seq<Event>, n: nat) returns (from: nat, sources: seq<nat>)
    requires n < |events| && OutputAt(events, n).Some?
    ensures events[n].Receive? && DeliveredFrom(events, n, from, sources)
  {
    var e := events[n];
    var key := Key(e.flowID, e.meta.fragID);
    var slots := StateAt(events, n);
    var slot := Target(Retained(slots, e.at, key, e.meta.fragCnt), key, e.meta.fragCnt, e.at);
    HitStores(slots, e, key, slot);
    var filled := Store(slot, e.meta.fragIdx, e.payload, e.at);
    var origin;
    from, origin := TargetIsBacked(events, n, key, slot);
    StoreBacked(events, from, n, key, slot, origin);
    origin := origin[e.meta.fragIdx := Some(n)];
    AllPresent(slot, e.meta.fragIdx, e.payload, e.at);
    assert forall i :: 0 <= i < |origin| ==> origin[i].Some?;
    sources := seq(|origin|, i requires 0 <= i < |origin| => origin[i].value);
    SourcesDeliver(events, n, from, key, filled, origin, sources);
  }

  lemma SourcesDeliver(events: seq<Event>, n: nat, from: nat, key: nat, filled: Slot, origin: seq<Option<nat>>, sources: seq<nat>)
    requires n < |events| && Hits(events[n], key) && filled.fragCnt == events[n].meta.fragCnt
    requires Backed(events, from, n + 1, key, filled, origin) && from <= n && Quiet(events, from, n, key)
    requires |sources| == |origin| && forall i :: 0 <= i < |origin| ==> origin[i] == Some(sources[i])
    requires OutputAt(events, n) == Some(Joined(filled.frags))
    ensures DeliveredFrom(events, n, from, sources)
  {
    var e := events[n];
    forall i | 0 <= i < |sources|
      ensures from <= sources[i] <= n && Fragment(events[sources[i]], e, i)
      ensures filled.frags[i] == Some(events[sources[i]].payload)
    {
      assert Source(events, from, n + 1, key, filled, i, origin[i].value);
      KeyInjective(events[sources[i]].flowID, events[sources[i]].meta.fragID, e.flowID, e.meta.fragID);
    }
    JoinedIsFlatten(filled.frags, Payloads(events, sources, n));
  }

  lemma AllPresent(slot: Slot, i: nat, payload: bytes, at: int)
    requires i < |slot.frags| == slot.fragCnt && slot.frags[i] == None && slot.count == Present(slot.frags)
    requires Store(slot, i, payload, at).count >= slot.fragCnt
    ensures forall k :: 0 <= k < slot.fragCnt ==> Store(slot, i, payload, at).frags[k].Some?
  {
    StoreCounts(slot.frags, i, payload);
    PresentExactly(Store(slot, i, payload, at).frags);
  }

  /** Two deliveries for one key never share a fragment: the later one starts after the earlier one. */
  lemma DeliveriesAreDisjoint(events: seq<Event>, m: nat, n: nat, from: nat, sources: seq<nat>)
    requires m < n < |events| && OutputAt(events, m).Some? && OutputAt(events, n).Some?
    requires events[m].Receive? && events[n].Receive?
    requires events[m].flowID == events[n].flowID && events[m].meta.fragID == events[n].meta.fragID
    requires DeliveredFrom(events, n, from, sources)
    ensures forall i :: 0 <= i < |sources| ==> m < sources[i]
  {
    assert Hits(events[m], Key(events[n].flowID, events[n].meta.fragID));
    assert !(from <= m);
  }
}
