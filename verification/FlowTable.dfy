/**
 * The flow table under every interleaving of its goroutines. Channel readers look flows up, dial and store
 * them; pumps, the sweeper, the keepalive sender and readers remove them; `closeAll` removes what is left.
 * A removal runs once per flow: it deletes the table entry by key, then closes the socket.
 */
module FlowTable {
  import opened Bytes

  /** How far the one removal of a flow is. */
  datatype Removal = NotStarted | Deleting | Closing | Done

  /** A flow and its socket; `pumping` until the goroutine that reads the socket has returned. */
  datatype Flow = Flow(id: uint32, stored: bool, open: bool, removal: Removal, pumping: bool)

  /** Where a channel reader is: the id of the packet it has, and the flows its goroutine refers to. */
  datatype Reader =
    | Reading
    | Missed(id: uint32)
    | Dialled(id: uint32, flow: nat)
    | Lost(id: uint32, flow: nat, winner: nat)
    | Holding(id: uint32, flow: nat)
    | Removing(flow: nat)
    | Exited

  /** `closeAll`; `quiet` records that every reader had exited when it began. */
  datatype Closer =
    | Idle
    | Ranging(todo: set<uint32>, quiet: bool)
    | Waiting(flow: nat, todo: set<uint32>, quiet: bool)
    | Finished(quiet: bool)

  datatype State = State(flows: seq<Flow>, table: map<uint32, nat>, readers: seq<Reader>, closer: Closer)

  /** One atomic step of some goroutine. */
  datatype Step =
    | Lookup(r: nat, id: uint32)
    | Dial(r: nat, ok: bool)
    | Store(r: nat)
    | CloseLoser(r: nat)
    | Deliver(r: nat, ok: bool)
    | Resume(r: nat)
    | Exit(r: nat)
    | CallRemove(f: nat)
    | Delete(f: nat)
    | Close(f: nat)
    | PumpReturns(f: nat)
    | BeginCloseAll
    | Visit(id: uint32)
    | Visited
    | EndCloseAll

  function Initial(readers: nat): State {
    State([], map[], seq(readers, _ => Reading), Idle)
  }

  predicate Enabled(s: State, e: Step) {
    match e
    case Lookup(r, _) => r < |s.readers| && s.readers[r].Reading?
    case Dial(r, _) => r < |s.readers| && s.readers[r].Missed?
    case Store(r) => r < |s.readers| && s.readers[r].Dialled? && s.readers[r].flow < |s.flows|
    case CloseLoser(r) => r < |s.readers| && s.readers[r].Lost? && s.readers[r].flow < |s.flows|
    case Deliver(r, _) => r < |s.readers| && s.readers[r].Holding? && s.readers[r].flow < |s.flows|
    case Resume(r) =>
      r < |s.readers| && s.readers[r].Removing? && s.readers[r].flow < |s.flows| && s.flows[s.readers[r].flow].removal.Done?
    case Exit(r) => r < |s.readers| && s.readers[r].Reading?
    case CallRemove(f) => f < |s.flows| && s.flows[f].stored
    case Delete(f) => f < |s.flows| && s.flows[f].removal.Deleting?
    case Close(f) => f < |s.flows| && s.flows[f].removal.Closing?
    case PumpReturns(f) => f < |s.flows| && s.flows[f].pumping && s.flows[f].removal.Done?
    case BeginCloseAll => s.closer.Idle?
    case Visit(id) => s.closer.Ranging? && (id in s.closer.todo || id in s.table) && (id in s.table ==> s.table[id] < |s.flows|)
    case Visited => s.closer.Waiting? && s.closer.flow < |s.flows| && s.flows[s.closer.flow].removal.Done?
    case EndCloseAll => s.closer.Ranging? && s.closer.todo == {}
  }

  /** The first call of a removal starts it; every later one finds it started. */
  function Call(flows: seq<Flow>, f: nat): seq<Flow>
    requires f < |flows|
  {
    if flows[f].removal.NotStarted? then flows[f := flows[f].(removal := Deleting)] else flows
  }

  function Apply(s: State, e: Step): State
    requires Enabled(s, e)
  {
    match e
    case Lookup(r, id) => s.(readers := s.readers[r := if id in s.table then Holding(id, s.table[id]) else Missed(id)])
    case Dial(r, ok) =>
      if ok then
        var id := s.readers[r].id;
        s.(flows := s.flows + [Flow(id, false, true, NotStarted, false)], readers := s.readers[r := Dialled(id, |s.flows|)])
      else
        s.(readers := s.readers[r := Reading])
    case Store(r) =>
      var Dialled(id, f) := s.readers[r];
      if id in s.table then
        s.(readers := s.readers[r := Lost(id, f, s.table[id])])
      else
        var stored := s.flows[f].(stored := true, pumping := true);
        State(s.flows[f := stored], s.table[id := f], s.readers[r := Holding(id, f)], s.closer)
    case CloseLoser(r) =>
      var Lost(id, f, w) := s.readers[r];
      s.(flows := s.flows[f := s.flows[f].(open := false)], readers := s.readers[r := Holding(id, w)])
    case Deliver(r, ok) =>
      if ok then s.(readers := s.readers[r := Reading])
      else s.(flows := Call(s.flows, s.readers[r].flow), readers := s.readers[r := Removing(s.readers[r].flow)])
    case Resume(r) => s.(readers := s.readers[r := Reading])
    case Exit(r) => s.(readers := s.readers[r := Exited])
    case CallRemove(f) => s.(flows := Call(s.flows, f))
    case Delete(f) => s.(flows := s.flows[f := s.flows[f].(removal := Closing)], table := s.table - {s.flows[f].id})
    case Close(f) => s.(flows := s.flows[f := s.flows[f].(open := false, removal := Done)])
    case PumpReturns(f) => s.(flows := s.flows[f := s.flows[f].(pumping := false)])
    case BeginCloseAll => s.(closer := Ranging(s.table.Keys, AllExited(s)))
    case Visit(id) =>
      if id in s.table then
        s.(flows := Call(s.flows, s.table[id]), closer := Waiting(s.table[id], s.closer.todo - {id}, s.closer.quiet))
      else
        s.(closer := Ranging(s.closer.todo - {id}, s.closer.quiet))
    case Visited => s.(closer := Ranging(s.closer.todo, s.closer.quiet))
    case EndCloseAll => s.(closer := Finished(s.closer.quiet))
  }

  predicate AllExited(s: State) {
    forall r :: 0 <= r < |s.readers| ==> s.readers[r] == Exited
  }

  /** A run of any length: the steps of the goroutines in some order, and the states between them. */
  datatype Run = Run(readers: nat, steps: seq<Step>, states: seq<State>)

  ghost predicate Possible(run: Run) {
    && |run.states| == |run.steps| + 1
    && run.states[0] == Initial(run.readers)
    && forall n {:trigger run.steps[n]} :: 0 <= n < |run.steps| ==>
         Enabled(run.states[n], run.steps[n]) && run.states[n + 1] == Apply(run.states[n], run.steps[n])
  }

  // ----- the invariant -----

  /** Stored, and not deleted from the table yet. */
  predicate Live(f: Flow) {
    f.stored && (f.removal.NotStarted? || f.removal.Deleting?)
  }

  /** The reader has dialled this flow and has neither stored it nor closed it. */
  predicate Holds(p: Reader, f: nat) {
    (p.Dialled? || p.Lost?) && p.flow == f
  }

  ghost predicate BeforeStore(s: State, f: nat) {
    exists r :: 0 <= r < |s.readers| && Holds(s.readers[r], f)
  }

  predicate Tabled(s: State, f: nat)
    requires f < |s.flows|
  {
    s.flows[f].id in s.table && s.table[s.flows[f].id] == f
  }

  ghost predicate FlowOk(s: State, f: nat)
    requires f < |s.flows|
  {
    var x := s.flows[f];
    if x.stored then x.open == !x.removal.Done? && (Live(x) ==> Tabled(s, f))
    else x.removal.NotStarted? && (x.open <==> BeforeStore(s, f))
  }

  predicate ReaderOk(s: State, p: Reader) {
    match p
    case Dialled(id, f) => f < |s.flows| && !s.flows[f].stored && s.flows[f].open && s.flows[f].id == id
    case Lost(id, f, w) =>
      && f < |s.flows| && !s.flows[f].stored && s.flows[f].open && s.flows[f].id == id
      && w < |s.flows| && s.flows[w].stored && s.flows[w].id == id
    case Holding(id, f) => f < |s.flows| && s.flows[f].stored && s.flows[f].id == id
    case Removing(f) => f < |s.flows| && s.flows[f].stored && !s.flows[f].removal.NotStarted?
    case _ => true
  }

  predicate EntryOk(s: State, id: uint32)
    requires id in s.table
  {
    var f := s.table[id];
    f < |s.flows| && Live(s.flows[f]) && s.flows[f].id == id
  }

  /** What is left to visit covers the table, once no reader can add to it. */
  predicate CloserOk(s: State) {
    match s.closer
    case Idle => true
    case Ranging(todo, quiet) => quiet ==> AllExited(s) && s.table.Keys <= todo
    case Waiting(f, todo, quiet) =>
      && f < |s.flows| && s.flows[f].stored && !s.flows[f].removal.NotStarted?
      && (quiet ==> AllExited(s) && s.table.Keys <= todo + {s.flows[f].id})
      && (quiet && s.flows[f].id in s.table && s.flows[f].id !in todo ==> s.table[s.flows[f].id] == f)
    case Finished(quiet) => quiet ==> AllExited(s) && s.table == map[]
  }

  ghost predicate Ok(s: State) {
    && (forall id :: id in s.table ==> EntryOk(s, id))
    && (forall f :: 0 <= f < |s.flows| ==> FlowOk(s, f))
    && (forall r :: 0 <= r < |s.readers| ==> ReaderOk(s, s.readers[r]))
    && (forall p, r, f :: 0 <= p < r < |s.readers| && Holds(s.readers[p], f) ==> !Holds(s.readers[r], f))
    && CloserOk(s)
  }

  /** The flow a step works on. */
  function Subject(s: State, e: Step): nat
    requires Enabled(s, e)
  {
    match e
    case Lookup(_, id) => if id in s.table then s.table[id] else 0
    case Visit(id) => if id in s.table then s.table[id] else 0
    case Dial(_, _) => |s.flows|
    case Store(r) => s.readers[r].flow
    case CloseLoser(r) => s.readers[r].flow
    case Deliver(r, _) => s.readers[r].flow
    case CallRemove(f) => f
    case Delete(f) => f
    case Close(f) => f
    case PumpReturns(f) => f
    case _ => 0
  }

  lemma StepKeepsEntries(s: State, e: Step, id: uint32)
    requires Ok(s) && Enabled(s, e) && id in Apply(s, e).table
    ensures EntryOk(Apply(s, e), id)
  {
    assert Subject(s, e) < |s.flows| ==> FlowOk(s, Subject(s, e));
    assert id in s.table ==> EntryOk(s, id);
  }

  /** A flow keeps its id, and being stored or in removal is for good. */
  predicate Onward(x: Flow, y: Flow) {
    y.id == x.id && (x.stored ==> y.stored) && (!x.removal.NotStarted? ==> !y.removal.NotStarted?)
  }

  lemma FlowMovesOn(s: State, e: Step, f: nat)
    requires Enabled(s, e) && f < |s.flows|
    ensures f < |Apply(s, e).flows| && Onward(s.flows[f], Apply(s, e).flows[f])
  {
  }

  /** A flow that a reader holds and no step of that reader touches stays unstored and open. */
  lemma HeldFlowStays(s: State, e: Step, r: nat, f: nat)
    requires Ok(s) && Enabled(s, e) && r < |s.readers| && Apply(s, e).readers[r] == s.readers[r] && Holds(s.readers[r], f)
    ensures f < |s.flows| && f < |Apply(s, e).flows|
    ensures !Apply(s, e).flows[f].stored && Apply(s, e).flows[f].open
  {
    assert ReaderOk(s, s.readers[r]) && FlowOk(s, f);
    if e.Store? || e.CloseLoser? {
      assert Holds(s.readers[e.r], Subject(s, e));
    }
  }

  /** A reader that does not step keeps its references: what it holds only moves forward. */
  lemma OthersKeepReader(s: State, e: Step, r: nat)
    requires Ok(s) && Enabled(s, e) && r < |s.readers| && Apply(s, e).readers[r] == s.readers[r]
    ensures ReaderOk(Apply(s, e), s.readers[r])
  {
    assert ReaderOk(s, s.readers[r]);
    match s.readers[r]
    case Dialled(_, f) =>
      FlowMovesOn(s, e, f);
      HeldFlowStays(s, e, r, f);
    case Lost(_, f, w) =>
      FlowMovesOn(s, e, f);
      FlowMovesOn(s, e, w);
      HeldFlowStays(s, e, r, f);
    case Holding(_, f) => FlowMovesOn(s, e, f);
    case Removing(f) => FlowMovesOn(s, e, f);
    case _ =>
  }

  lemma StepKeepsReader(s: State, e: Step, r: nat)
    requires Ok(s) && Enabled(s, e) && r < |s.readers|
    ensures ReaderOk(Apply(s, e), Apply(s, e).readers[r])
  {
    if Apply(s, e).readers[r] == s.readers[r] {
      OthersKeepReader(s, e, r);
    } else {
      assert ReaderOk(s, s.readers[r]);
      match e
      case Lookup(_, id) => assert id in s.table ==> EntryOk(s, id);
      case Store(_) => assert s.readers[r].id in s.table ==> EntryOk(s, s.readers[r].id);
      case _ =>
    }
  }

  lemma StepKeepsHolders(s: State, e: Step, p: nat, r: nat, f: nat)
    requires Ok(s) && Enabled(s, e) && p < r < |s.readers|
    requires Holds(Apply(s, e).readers[p], f)
    ensures !Holds(Apply(s, e).readers[r], f)
  {
    assert ReaderOk(s, s.readers[p]) && ReaderOk(s, s.readers[r]);
    assert Holds(s.readers[p], f) ==> !Holds(s.readers[r], f);
  }

  /** A step moves only its own flow into or out of the window between dial and store. */
  lemma WindowKept(s: State, e: Step, f: nat)
    requires Ok(s) && Enabled(s, e)
    requires f != Subject(s, e) || !(e.Dial? || e.Store? || e.CloseLoser?)
    ensures BeforeStore(Apply(s, e), f) <==> BeforeStore(s, f)
  {
    var t := Apply(s, e);
    if BeforeStore(s, f) {
      var r :| 0 <= r < |s.readers| && Holds(s.readers[r], f);
      HolderKept(s, e, f, r);
    }
    if BeforeStore(t, f) {
      var r :| 0 <= r < |t.readers| && Holds(t.readers[r], f);
      HolderKept(s, e, f, r);
    }
  }

  lemma HolderKept(s: State, e: Step, f: nat, r: nat)
    requires Enabled(s, e) && r < |s.readers|
    requires f != Subject(s, e) || !(e.Dial? || e.Store? || e.CloseLoser?)
    ensures |Apply(s, e).readers| == |s.readers| && (Holds(Apply(s, e).readers[r], f) <==> Holds(s.readers[r], f))
  {
  }

  lemma StepMovesWindow(s: State, e: Step)
    requires Ok(s) && Enabled(s, e) && (e.Dial? || e.Store? || e.CloseLoser?)
    ensures Subject(s, e) < |Apply(s, e).flows| ==> FlowOk(Apply(s, e), Subject(s, e))
  {
    var t, f := Apply(s, e), Subject(s, e);
    if f < |t.flows| {
      assert Holds(t.readers[e.r], f) ==> BeforeStore(t, f);
      assert Holds(s.readers[e.r], f) ==> BeforeStore(s, f);
      assert f < |s.flows| ==> FlowOk(s, f);
      assert forall r :: 0 <= r < |s.readers| && r != e.r && Holds(s.readers[e.r], f) ==> !Holds(s.readers[r], f);
    }
  }

  lemma StepKeepsFlow(s: State, e: Step, f: nat)
    requires Ok(s) && Enabled(s, e) && f < |Apply(s, e).flows|
    ensures FlowOk(Apply(s, e), f)
  {
    if f == Subject(s, e) && (e.Dial? || e.Store? || e.CloseLoser?) {
      StepMovesWindow(s, e);
    } else {
      WindowKept(s, e, f);
      assert FlowOk(s, f);
      assert Subject(s, e) < |s.flows| ==> FlowOk(s, Subject(s, e));
    }
  }

  predicate CloserSteps(e: Step) {
    e.BeginCloseAll? || e.Visit? || e.Visited? || e.EndCloseAll?
  }

  /** Once all readers have exited nothing enters the table. */
  lemma ExitedStays(s: State, e: Step)
    requires Enabled(s, e) && AllExited(s)
    ensures AllExited(Apply(s, e)) && Apply(s, e).table.Keys <= s.table.Keys
    ensures forall id :: id in Apply(s, e).table ==> Apply(s, e).table[id] == s.table[id]
  {
  }

  lemma OthersKeepCloser(s: State, e: Step)
    requires CloserOk(s) && Enabled(s, e) && !CloserSteps(e)
    ensures CloserOk(Apply(s, e))
  {
    var t := Apply(s, e);
    assert t.closer == s.closer;
    if AllExited(s) {
      ExitedStays(s, e);
    }
    if s.closer.Waiting? {
      FlowMovesOn(s, e, s.closer.flow);
    }
  }

  lemma VisitKeepsCloser(s: State, id: uint32)
    requires Ok(s) && Enabled(s, Visit(id))
    ensures CloserOk(Apply(s, Visit(id)))
  {
    assert id in s.table ==> EntryOk(s, id);
  }

  lemma VisitedKeepsCloser(s: State)
    requires Ok(s) && Enabled(s, Visited)
    ensures CloserOk(Apply(s, Visited))
  {
    var f := s.closer.flow;
    assert FlowOk(s, f);
    forall id | id in s.table ensures s.table[id] != f {
      assert EntryOk(s, id);
    }
  }

  lemma StepKeepsCloser(s: State, e: Step)
    requires Ok(s) && Enabled(s, e)
    ensures CloserOk(Apply(s, e))
  {
    match e
    case BeginCloseAll =>
    case Visit(id) => VisitKeepsCloser(s, id);
    case Visited => VisitedKeepsCloser(s);
    case EndCloseAll =>
    case _ => OthersKeepCloser(s, e);
  }

  lemma StepKeepsOk(s: State, e: Step)
    requires Ok(s) && Enabled(s, e)
    ensures Ok(Apply(s, e))
  {
    var t := Apply(s, e);
    forall id | id in t.table ensures EntryOk(t, id) {
      StepKeepsEntries(s, e, id);
    }
    forall f | 0 <= f < |t.flows| ensures FlowOk(t, f) {
      StepKeepsFlow(s, e, f);
    }
    forall r | 0 <= r < |t.readers| ensures ReaderOk(t, t.readers[r]) {
      StepKeepsReader(s, e, r);
    }
    forall p, r, f | 0 <= p < r < |t.readers| && Holds(t.readers[p], f) ensures !Holds(t.readers[r], f) {
      StepKeepsHolders(s, e, p, r, f);
    }
    StepKeepsCloser(s, e);
  }

  lemma {:induction false} AlwaysOk(run: Run, n: nat)
    requires Possible(run) && n < |run.states|
    ensures Ok(run.states[n])
  {
    if n > 0 {
      AlwaysOk(run, n - 1);
      StepKeepsOk(run.states[n - 1], run.steps[n - 1]);
    }
  }

  // ----- the theorems -----

  /** Deleting by key is deleting by identity: a removal takes its own flow out of the table and no other. */
  lemma DeleteEvictsOnlyItself(run: Run, n: nat)
    requires Possible(run) && n < |run.steps| && run.steps[n].Delete?
    ensures var s, t, f := run.states[n], run.states[n + 1], run.steps[n].f;
      && Tabled(s, f) && !Tabled(t, f)
      && forall g :: 0 <= g < |s.flows| && g != f ==> (Tabled(s, g) <==> Tabled(t, g))
  {
    AlwaysOk(run, n);
    assert FlowOk(run.states[n], run.steps[n].f);
  }

  /**
   * A socket is open exactly while its flow is tabled, or held by the reader that dialled it and has not stored
   * or dropped it, or between the delete and the close of its removal.
   */
  lemma SocketsAccountedFor(run: Run, n: nat, f: nat)
    requires Possible(run) && n < |run.states| && f < |run.states[n].flows|
    ensures var s := run.states[n];
      s.flows[f].open <==> Tabled(s, f) || BeforeStore(s, f) || s.flows[f].removal.Closing?
  {
    AlwaysOk(run, n);
    var s := run.states[n];
    assert FlowOk(s, f);
    if Tabled(s, f) {
      assert EntryOk(s, s.flows[f].id);
    }
    if BeforeStore(s, f) {
      var r :| 0 <= r < |s.readers| && Holds(s.readers[r], f);
      assert ReaderOk(s, s.readers[r]);
    }
  }

  /** The id of the packet a reader is busy with: that of its latest lookup. */
  function PacketId(run: Run, n: nat, r: nat): Option<uint32>
    requires n <= |run.steps|
  {
    if n == 0 then None
    else if run.steps[n - 1].Lookup? && run.steps[n - 1].r == r then Some(run.steps[n - 1].id)
    else PacketId(run, n - 1, r)
  }

  /** A reader keeps to its packet from the lookup to the delivery. */
  lemma {:induction false} ReaderKeepsItsPacket(run: Run, n: nat, r: nat)
    requires Possible(run) && n < |run.states| && r < |run.states[n].readers|
    ensures var p := run.states[n].readers[r];
      p.Missed? || p.Dialled? || p.Lost? || p.Holding? ==> PacketId(run, n, r) == Some(p.id)
  {
    if n > 0 {
      assert Enabled(run.states[n - 1], run.steps[n - 1]);
      ReaderKeepsItsPacket(run, n - 1, r);
    }
  }

  /**
   * In every interleaving a packet reaches a socket dialled for its own flow id: the reader that writes it holds a
   * flow that was tabled under that id, whether it found, stored or lost the race for it.
   */
  lemma PacketsReachTheirOwnFlow(run: Run, n: nat)
    requires Possible(run) && n < |run.steps| && run.steps[n].Deliver?
    ensures var s, r := run.states[n], run.steps[n].r;
      && r < |s.readers| && s.readers[r].Holding? && s.readers[r].flow < |s.flows|
      && s.flows[s.readers[r].flow].stored
      && PacketId(run, n, r) == Some(s.flows[s.readers[r].flow].id)
  {
    AlwaysOk(run, n);
    assert Enabled(run.states[n], run.steps[n]);
    ReaderKeepsItsPacket(run, n, run.steps[n].r);
    assert ReaderOk(run.states[n], run.states[n].readers[run.steps[n].r]);
  }

  /** Where the reader's latest lookup was. */
  predicate LatestLookup(run: Run, m: nat, n: nat, r: nat)
    requires n <= |run.steps|
    decreases n
  {
    n > 0 && if run.steps[n - 1].Lookup? && run.steps[n - 1].r == r then m == n - 1 else LatestLookup(run, m, n - 1, r)
  }

  lemma StillMissed(s: State, e: Step, r: nat)
    requires Enabled(s, e) && r < |Apply(s, e).readers| && Apply(s, e).readers[r].Missed?
    ensures r < |s.readers|
    ensures if e.Lookup? && e.r == r then e.id !in s.table && Apply(s, e).readers[r].id == e.id
            else s.readers[r] == Apply(s, e).readers[r]
  {
  }

  lemma {:induction false} MissedAtLookup(run: Run, n: nat, r: nat) returns (m: nat)
    requires Possible(run) && n < |run.states| && r < |run.states[n].readers| && run.states[n].readers[r].Missed?
    ensures m < n && LatestLookup(run, m, n, r)
    ensures run.steps[m] == Lookup(r, run.states[n].readers[r].id) && run.states[n].readers[r].id !in run.states[m].table
  {
    assert Enabled(run.states[n - 1], run.steps[n - 1]);
    StillMissed(run.states[n - 1], run.steps[n - 1], r);
    if run.steps[n - 1].Lookup? && run.steps[n - 1].r == r {
      m := n - 1;
    } else {
      m := MissedAtLookup(run, n - 1, r);
    }
  }

  /** A reader whose dial fails drops the packet and reads on; no flow and no entry comes of it. */
  lemma FailedDialReadsOn(s: State, r: nat)
    requires Enabled(s, Dial(r, false))
    ensures var t := Apply(s, Dial(r, false));
      r < |t.readers| && t.readers[r] == Reading && t.flows == s.flows && t.table == s.table
  {
  }

  /** A reader dials only for a packet whose flow was not in the table when the reader looked it up. */
  lemma DialsOnlyWhenMissed(run: Run, n: nat) returns (m: nat)
    requires Possible(run) && n < |run.steps| && run.steps[n].Dial?
    ensures m < n && LatestLookup(run, m, n, run.steps[n].r)
    ensures run.steps[m].Lookup? && run.steps[m].id !in run.states[m].table
  {
    assert Enabled(run.states[n], run.steps[n]);
    m := MissedAtLookup(run, n, run.steps[n].r);
  }

  /** The flow a reader will write its packet to, while nobody removes it. */
  predicate WillWriteTo(s: State, p: Reader, id: uint32, f: nat) {
    f < |s.flows| && Live(s.flows[f]) && (p == Holding(id, f) || (p.Lost? && p.id == id && p.winner == f))
  }

  /** Readers with packets of one id write to one flow unless it is being removed; losing a race makes no second. */
  lemma ReadersShareTheTabledFlow(run: Run, n: nat, p: nat, r: nat, id: uint32, f: nat, g: nat)
    requires Possible(run) && n < |run.states| && p < |run.states[n].readers| && r < |run.states[n].readers|
    requires WillWriteTo(run.states[n], run.states[n].readers[p], id, f)
    requires WillWriteTo(run.states[n], run.states[n].readers[r], id, g)
    ensures f == g && id in run.states[n].table && run.states[n].table[id] == f
  {
    AlwaysOk(run, n);
    var s := run.states[n];
    assert ReaderOk(s, s.readers[p]) && ReaderOk(s, s.readers[r]);
    assert FlowOk(s, f) && FlowOk(s, g);
  }

  predicate Quiet(c: Closer) {
    !c.Idle? && c.quiet
  }

  lemma {:induction false} QuietFromTheStart(run: Run, b: nat, n: nat)
    requires Possible(run) && b < n < |run.states| && run.steps[b].BeginCloseAll?
    ensures !run.states[n].closer.Idle? && Quiet(run.states[n].closer) == AllExited(run.states[b])
    decreases n
  {
    assert Enabled(run.states[n - 1], run.steps[n - 1]);
    assert Enabled(run.states[b], run.steps[b]);
    if n > b + 1 {
      QuietFromTheStart(run, b, n - 1);
    }
  }

  lemma {:induction false} FinishedStays(run: Run, e: nat, n: nat)
    requires Possible(run) && e < n < |run.states| && run.steps[e].EndCloseAll?
    ensures run.states[n].closer.Finished?
    decreases n
  {
    assert Enabled(run.states[n - 1], run.steps[n - 1]);
    assert Enabled(run.states[e], run.steps[e]);
    if n > e + 1 {
      FinishedStays(run, e, n - 1);
    }
  }

  /**
   * `closeAll`, begun after every reader has exited, leaves no flow for good, and no open socket but those that
   * some other goroutine has taken out of the table and not yet closed.
   */
  lemma CloseAllLeavesNothing(run: Run, b: nat, e: nat, n: nat)
    requires Possible(run) && b < e < n < |run.states|
    requires run.steps[b].BeginCloseAll? && run.steps[e].EndCloseAll? && AllExited(run.states[b])
    ensures run.states[n].table == map[]
    ensures forall f :: 0 <= f < |run.states[n].flows| ==>
      (run.states[n].flows[f].open <==> run.states[n].flows[f].removal.Closing?)
  {
    QuietFromTheStart(run, b, n);
    FinishedStays(run, e, n);
    AlwaysOk(run, n);
    var s := run.states[n];
    forall f | 0 <= f < |s.flows| ensures s.flows[f].open <==> s.flows[f].removal.Closing? {
      SocketsAccountedFor(run, n, f);
      assert !BeforeStore(s, f);
    }
  }

  lemma Extend(run: Run, e: Step) returns (longer: Run)
    requires Possible(run) && Enabled(run.states[|run.steps|], e)
    ensures Possible(longer) && longer.readers == run.readers && longer.steps == run.steps + [e]
    ensures longer.states == run.states + [Apply(run.states[|run.steps|], e)]
  {
    longer := Run(run.readers, run.steps + [e], run.states + [Apply(run.states[|run.steps|], e)]);
  }

  /** How many steps a removal that has started still takes. */
  function StepsLeft(x: Removal): nat {
    match x
    case NotStarted => 3
    case Deleting => 2
    case Closing => 1
    case Done => 0
  }

  /** No step of another goroutine stops a removal or sets it back: its own next step is enabled until it is taken. */
  lemma NothingBlocksARemoval(s: State, e: Step, f: nat)
    requires Enabled(s, e) && f < |s.flows| && !s.flows[f].removal.NotStarted?
    ensures var x, y := s.flows[f].removal, Apply(s, e).flows[f].removal;
      if e == Delete(f) || e == Close(f) then StepsLeft(y) == StepsLeft(x) - 1 else y == x
    ensures s.flows[f].removal.Done? || Enabled(s, Delete(f)) || Enabled(s, Close(f))
  {
  }

  lemma RemovalRuns(run: Run, f: nat) returns (longer: Run)
    requires Possible(run) && f < |run.states[|run.steps|].flows| && !run.states[|run.steps|].flows[f].removal.NotStarted?
    ensures Possible(longer) && run.steps <= longer.steps
    ensures |longer.steps| == |run.steps| + StepsLeft(run.states[|run.steps|].flows[f].removal)
    ensures var s, t := run.states[|run.steps|], longer.states[|longer.steps|];
      t.readers == s.readers && t.closer == s.closer && f < |t.flows| && t.flows[f].removal.Done?
  {
    longer := run;
    if longer.states[|longer.steps|].flows[f].removal.Deleting? {
      longer := Extend(longer, Delete(f));
    }
    if longer.states[|longer.steps|].flows[f].removal.Closing? {
      longer := Extend(longer, Close(f));
    }
  }

  /** A reader that waits for a removal can go on after at most two more steps, both the removal's own. */
  lemma ReadersGoOn(run: Run, r: nat) returns (longer: Run)
    requires Possible(run) && r < |run.states[|run.steps|].readers| && run.states[|run.steps|].readers[r].Removing?
    ensures Possible(longer) && run.steps <= longer.steps && |longer.steps| <= |run.steps| + 3
    ensures longer.steps[|longer.steps| - 1] == Resume(r)
  {
    var s := run.states[|run.steps|];
    AlwaysOk(run, |run.steps|);
    assert ReaderOk(s, s.readers[r]);
    longer := RemovalRuns(run, s.readers[r].flow);
    longer := Extend(longer, Resume(r));
  }

  /** And so can `closeAll`. */
  lemma CloseAllGoesOn(run: Run) returns (longer: Run)
    requires Possible(run) && run.states[|run.steps|].closer.Waiting?
    ensures Possible(longer) && run.steps <= longer.steps && |longer.steps| <= |run.steps| + 3
    ensures longer.steps[|longer.steps| - 1] == Visited
  {
    var s := run.states[|run.steps|];
    AlwaysOk(run, |run.steps|);
    longer := RemovalRuns(run, s.closer.flow);
    longer := Extend(longer, Visited);
  }

  /** One flow, tabled by the only reader, which is still delivering its packet. */
  const ONE_FLOW := State([Flow(7, true, true, NotStarted, true)], map[7 := 0], [Holding(7, 0)], Idle)

  lemma FirstFlow() returns (run: Run)
    ensures Possible(run) && run.readers == 1 && run.steps == [Lookup(0, 7), Dial(0, true), Store(0)]
    ensures run.states[3] == ONE_FLOW
  {
    run := Extend(Run(1, [], [Initial(1)]), Lookup(0, 7));
    run := Extend(run, Dial(0, true));
    run := Extend(run, Store(0));
  }

  lemma PumpBetweenDeleteAndClose() returns (run: Run)
    ensures Possible(run) && |run.steps| == 7
    ensures run.states[7] == State([Flow(7, true, true, Closing, true)], map[], [Exited], Idle)
  {
    run := FirstFlow();
    run := Extend(run, Deliver(0, true));
    run := Extend(run, CallRemove(0));
    run := Extend(run, Delete(0));
    run := Extend(run, Exit(0));
  }

  /** The exception is real: a pump that deletes its flow before `closeAll` may close the socket after it. */
  lemma CloseAllCanBeatAPump() returns (run: Run)
    ensures Possible(run) && |run.states| == 10 && run.steps[7..] == [BeginCloseAll, EndCloseAll]
    ensures AllExited(run.states[7]) && |run.states[9].flows| == 1 && run.states[9].flows[0].open
  {
    run := PumpBetweenDeleteAndClose();
    run := Extend(run, BeginCloseAll);
    run := Extend(run, EndCloseAll);
  }

  lemma ClosedWhileReading() returns (run: Run)
    ensures Possible(run) && run.steps == [Lookup(0, 7), BeginCloseAll, EndCloseAll]
    ensures run.states[1] == State([], map[], [Missed(7)], Idle)
    ensures run.states[3] == State([], map[], [Missed(7)], Finished(false))
  {
    run := Extend(Run(1, [], [Initial(1)]), Lookup(0, 7));
    assert run.states[1].readers[0] == Missed(7);
    run := Extend(run, BeginCloseAll);
    run := Extend(run, EndCloseAll);
  }

  /** So is the hypothesis: a reader that has not exited stores a flow after `closeAll`. */
  lemma CloseAllCanBeatAReader() returns (run: Run)
    ensures Possible(run) && |run.states| == 6 && run.steps[1..3] == [BeginCloseAll, EndCloseAll]
    ensures !AllExited(run.states[1]) && |run.states[5].flows| == 1 && Tabled(run.states[5], 0)
  {
    run := ClosedWhileReading();
    assert run.states[1].readers[0] == Missed(7);
    run := Extend(run, Dial(0, true));
    run := Extend(run, Store(0));
  }

  lemma RemovedByItsReader() returns (run: Run)
    ensures Possible(run) && |run.steps| == 7
    ensures run.states[7] == State([Flow(7, true, false, Done, true)], map[], [Reading], Idle)
  {
    run := FirstFlow();
    run := Extend(run, Deliver(0, false));
    run := Extend(run, Delete(0));
    run := Extend(run, Close(0));
    run := Extend(run, Resume(0));
  }

  /** A flow id can have two pumps: a removed flow's pump has not returned when the next packet tables a new flow. */
  lemma TwoPumpsOfOneId() returns (run: Run)
    ensures Possible(run) && |run.states| == 11 && |run.states[10].flows| == 2 && Tabled(run.states[10], 1)
    ensures run.states[10].flows[0].pumping && run.states[10].flows[1].pumping
    ensures run.states[10].flows[0].id == run.states[10].flows[1].id
  {
    run := RemovedByItsReader();
    run := Extend(run, Lookup(0, 7));
    run := Extend(run, Dial(0, true));
    run := Extend(run, Store(0));
  }
}
