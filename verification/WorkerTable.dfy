/**
 * The daemon's worker table. One goroutine applies commands to the table, each as one atomic step; starts, stops,
 * registrations, takeovers and the workers themselves interleave with it. A stop looks its workers up, cancels
 * them, waits for them, and deletes their entries, by key, in a later step.
 */
module WorkerTable {
  import opened WorkerIds

  /** A registered worker runs elsewhere: it was not started here and cannot be cancelled. */
  datatype Worker = Worker(id: string, fields: Fields, started: bool, cancelled: bool, done: bool)

  datatype Item = Item(worker: nat, key: string)

  /** A stop in progress: the workers it found, how many of them it has cancelled, and how far it is. */
  datatype Stop = Stop(items: seq<Item>, waits: bool, cancelled: nat, waited: bool, deleted: bool)

  datatype State = State(workers: seq<Worker>, table: map<string, nat>, stops: seq<Stop>)

  datatype Step =
    | Start(fields: Fields)
    | CancelOld(key: string)
    | Register(fields: Fields)
    | LookupOne(key: string)
    | LookupAll(keys: seq<string>)
    | CancelNext(stop: nat)
    | Wait(stop: nat)
    | Delete(stop: nat)
    | TakeOver
    | Finish(worker: nat)

  const INITIAL := State([], map[], [])

  predicate Live(w: Worker) {
    w.started && !w.cancelled
  }

  function Cancelled(w: Worker): Worker {
    if w.started then w.(cancelled := true) else w
  }

  /** The workers after the entry of a key, if there is one, was cancelled. */
  function CancelEntry(s: State, key: string): seq<Worker> {
    if key in s.table && s.table[key] < |s.workers| then s.workers[s.table[key] := Cancelled(s.workers[s.table[key]])]
    else s.workers
  }

  predicate InTable(s: State, w: nat) {
    exists k :: k in s.table && s.table[k] == w
  }

  predicate Gone(s: State, item: Item) {
    item.worker < |s.workers| && (s.workers[item.worker].started ==> s.workers[item.worker].done)
  }

  predicate Enabled(s: State, e: Step) {
    match e
    case LookupOne(key) => key in s.table
    case LookupAll(keys) => (forall k :: k in keys ==> k in s.table) && (forall k :: k in s.table ==> k in keys)
    case CancelNext(p) =>
      p < |s.stops| && s.stops[p].cancelled < |s.stops[p].items| && s.stops[p].items[s.stops[p].cancelled].worker < |s.workers|
    case Wait(p) =>
      && p < |s.stops| && s.stops[p].waits && s.stops[p].cancelled == |s.stops[p].items|
      && forall j :: 0 <= j < |s.stops[p].items| ==> Gone(s, s.stops[p].items[j])
    case Delete(p) =>
      && p < |s.stops| && s.stops[p].cancelled == |s.stops[p].items| && !s.stops[p].deleted
      && (s.stops[p].waits ==> s.stops[p].waited)
    case Finish(w) => w < |s.workers| && s.workers[w].started
    case _ => true
  }

  function ItemsFor(s: State, keys: seq<string>): seq<Item>
    requires forall k :: k in keys ==> k in s.table
  {
    seq(|keys|, i requires 0 <= i < |keys| => Item(s.table[keys[i]], keys[i]))
  }

  function ItemKeys(stop: Stop): set<string> {
    set j | 0 <= j < |stop.items| :: stop.items[j].key
  }

  function Apply(s: State, e: Step): State
    requires Enabled(s, e)
  {
    match e
    case Start(f) =>
      var id := ProcessKey(f);
      State(CancelEntry(s, id) + [Worker(id, f, true, false, false)], s.table[id := |s.workers|], s.stops)
    case CancelOld(key) => s.(workers := CancelEntry(s, key))
    case Register(f) =>
      var id := ProcessKey(f);
      if id in s.table then s
      else State(s.workers + [Worker(id, f, false, false, false)], s.table[id := |s.workers|], s.stops)
    case LookupOne(key) => s.(stops := s.stops + [Stop(ItemsFor(s, [key]), true, 0, false, false)])
    case LookupAll(keys) => s.(stops := s.stops + [Stop(ItemsFor(s, keys), false, 0, false, false)])
    case CancelNext(p) =>
      var stop := s.stops[p];
      var w := stop.items[stop.cancelled].worker;
      s.(workers := s.workers[w := Cancelled(s.workers[w])], stops := s.stops[p := stop.(cancelled := stop.cancelled + 1)])
    case Wait(p) => s.(stops := s.stops[p := s.stops[p].(waited := true)])
    case Delete(p) => s.(table := s.table - ItemKeys(s.stops[p]), stops := s.stops[p := s.stops[p].(deleted := true)])
    case TakeOver =>
      s.(workers := seq(|s.workers|, i requires 0 <= i < |s.workers| =>
           if InTable(s, i) then Cancelled(s.workers[i]) else s.workers[i]), table := map[])
    case Finish(w) => s.(workers := s.workers[w := s.workers[w].(done := true)])
  }

  datatype Run = Run(steps: seq<Step>, states: seq<State>)

  ghost predicate Possible(run: Run) {
    && |run.states| == |run.steps| + 1
    && run.states[0] == INITIAL
    && forall n {:trigger run.steps[n]} :: 0 <= n < |run.steps| ==>
         Enabled(run.states[n], run.steps[n]) && run.states[n + 1] == Apply(run.states[n], run.steps[n])
  }

  // ----- the invariants -----

  /** Each entry is under its worker's own id. */
  predicate EntryOk(s: State, key: string)
    requires key in s.table
  {
    s.table[key] < |s.workers| && s.workers[s.table[key]].id == key
  }

  ghost predicate KeysOk(s: State) {
    forall key :: key in s.table ==> EntryOk(s, key)
  }

  /** The worker is the entry under its id. */
  predicate Entered(s: State, w: nat)
    requires w < |s.workers|
  {
    s.workers[w].id in s.table && s.table[s.workers[w].id] == w
  }

  ghost predicate LiveOk(s: State) {
    forall w :: 0 <= w < |s.workers| && Live(s.workers[w]) ==> Entered(s, w)
  }

  /** What a stop holds: its worker's key, and until its delete no other started worker under that key. */
  predicate ItemOk(s: State, item: Item, cancelled: bool, deleted: bool) {
    && item.worker < |s.workers|
    && item.key == s.workers[item.worker].id
    && (cancelled ==> !Live(s.workers[item.worker]))
    && (!deleted && item.key in s.table ==>
          s.table[item.key] == item.worker || (s.table[item.key] < |s.workers| && !s.workers[s.table[item.key]].started))
  }

  ghost predicate StopOk(s: State, stop: Stop) {
    forall j :: 0 <= j < |stop.items| ==> ItemOk(s, stop.items[j], j < stop.cancelled, stop.deleted)
  }

  ghost predicate StopsOk(s: State) {
    forall p :: 0 <= p < |s.stops| ==> StopOk(s, s.stops[p])
  }

  /** The start of this key does not fall between the lookup and the delete of a stop of it. */
  predicate OutsideWindows(s: State, key: string) {
    forall p, j :: 0 <= p < |s.stops| && 0 <= j < |s.stops[p].items| && s.stops[p].items[j].key == key ==> s.stops[p].deleted
  }

  predicate Undisturbed(s: State, e: Step) {
    e.Start? ==> OutsideWindows(s, ProcessKey(e.fields))
  }

  lemma StepKeepsKeys(s: State, e: Step)
    requires KeysOk(s) && Enabled(s, e)
    ensures KeysOk(Apply(s, e))
  {
    var t := Apply(s, e);
    forall key | key in t.table ensures EntryOk(t, key) {
      assert key in s.table ==> EntryOk(s, key);
    }
  }

  lemma StepKeepsItem(s: State, e: Step, item: Item, cancelled: bool, deleted: bool)
    requires KeysOk(s) && Enabled(s, e) && ItemOk(s, item, cancelled, deleted)
    requires e.Start? && !deleted ==> item.key != ProcessKey(e.fields)
    ensures ItemOk(Apply(s, e), item, cancelled, deleted)
  {
    assert item.key in s.table ==> EntryOk(s, item.key);
  }

  lemma StepKeepsStop(s: State, e: Step, p: nat)
    requires KeysOk(s) && StopsOk(s) && Enabled(s, e) && Undisturbed(s, e) && p < |s.stops|
    ensures StopOk(Apply(s, e), Apply(s, e).stops[p])
  {
    var t := Apply(s, e);
    assert StopOk(s, s.stops[p]);
    forall j | 0 <= j < |s.stops[p].items|
      ensures ItemOk(t, t.stops[p].items[j], j < t.stops[p].cancelled, t.stops[p].deleted)
    {
      assert ItemOk(s, s.stops[p].items[j], j < s.stops[p].cancelled, s.stops[p].deleted);
      StepKeepsItem(s, e, s.stops[p].items[j], j < s.stops[p].cancelled, s.stops[p].deleted);
    }
  }

  lemma StepKeepsStops(s: State, e: Step)
    requires KeysOk(s) && StopsOk(s) && Enabled(s, e) && Undisturbed(s, e)
    ensures StopsOk(Apply(s, e))
  {
    var t := Apply(s, e);
    forall p | 0 <= p < |t.stops| ensures StopOk(t, t.stops[p]) {
      if p < |s.stops| {
        StepKeepsStop(s, e, p);
      } else {
        forall j | 0 <= j < |t.stops[p].items| ensures ItemOk(t, t.stops[p].items[j], false, false) {
          assert EntryOk(s, t.stops[p].items[j].key);
        }
      }
    }
  }

  /** The delete by itself: it keeps every live worker in the table when no entry it removes is a live worker. */
  lemma DeleteIsSafeExactly(s: State, p: nat)
    requires KeysOk(s) && LiveOk(s) && Enabled(s, Delete(p))
    ensures LiveOk(Apply(s, Delete(p))) <==>
      forall j :: 0 <= j < |s.stops[p].items| && s.stops[p].items[j].key in s.table ==>
        !Live(s.workers[s.table[s.stops[p].items[j].key]])
  {
    var t := Apply(s, Delete(p));
    forall j | 0 <= j < |s.stops[p].items| && s.stops[p].items[j].key in s.table && LiveOk(t)
      ensures !Live(s.workers[s.table[s.stops[p].items[j].key]])
    {
      var key := s.stops[p].items[j].key;
      assert EntryOk(s, key) && key in ItemKeys(s.stops[p]);
      var w := s.table[key];
      assert w < |t.workers| && !Entered(t, w);
    }
    forall w | 0 <= w < |t.workers| && Live(t.workers[w])
      && forall j :: 0 <= j < |s.stops[p].items| && s.stops[p].items[j].key in s.table ==>
           !Live(s.workers[s.table[s.stops[p].items[j].key]])
      ensures Entered(t, w)
    {
      assert Entered(s, w);
    }
  }

  lemma StepKeepsLive(s: State, e: Step)
    requires KeysOk(s) && LiveOk(s) && StopsOk(s) && Enabled(s, e)
    ensures LiveOk(Apply(s, e))
  {
    var t := Apply(s, e);
    if e.Delete? {
      forall j | 0 <= j < |s.stops[e.stop].items| && s.stops[e.stop].items[j].key in s.table
        ensures !Live(s.workers[s.table[s.stops[e.stop].items[j].key]])
      {
        assert StopOk(s, s.stops[e.stop]);
        assert ItemOk(s, s.stops[e.stop].items[j], true, false);
      }
      DeleteIsSafeExactly(s, e.stop);
    } else {
      forall w | 0 <= w < |t.workers| && Live(t.workers[w]) ensures Entered(t, w) {
        assert w < |s.workers| && Live(s.workers[w]) ==> Entered(s, w);
        if e.TakeOver? {
          assert InTable(s, w);
        }
      }
    }
  }

  ghost predicate UndisturbedUntil(run: Run, n: nat) {
    && Possible(run) && n < |run.states|
    && forall m {:trigger run.steps[m]} :: 0 <= m < n ==> Undisturbed(run.states[m], run.steps[m])
  }

  lemma {:induction false} AlwaysKeyed(run: Run, n: nat)
    requires Possible(run) && n < |run.states|
    ensures KeysOk(run.states[n])
  {
    if n > 0 {
      AlwaysKeyed(run, n - 1);
      StepKeepsKeys(run.states[n - 1], run.steps[n - 1]);
    }
  }

  lemma {:induction false} AlwaysLiveOk(run: Run, n: nat)
    requires UndisturbedUntil(run, n)
    ensures KeysOk(run.states[n]) && LiveOk(run.states[n]) && StopsOk(run.states[n])
  {
    AlwaysKeyed(run, n);
    if n > 0 {
      AlwaysKeyed(run, n - 1);
      AlwaysLiveOk(run, n - 1);
      StepKeepsStops(run.states[n - 1], run.steps[n - 1]);
      StepKeepsLive(run.states[n - 1], run.steps[n - 1]);
    }
  }

  lemma StepKeepsIdentity(s: State, e: Step, w: nat)
    requires Enabled(s, e) && w < |s.workers|
    ensures w < |Apply(s, e).workers|
    ensures Apply(s, e).workers[w].id == s.workers[w].id && Apply(s, e).workers[w].fields == s.workers[w].fields
  {
  }

  /** A worker's id is the key of its fields, from its creation on. */
  lemma {:induction false} IdsAreKeys(run: Run, n: nat, w: nat)
    requires Possible(run) && n < |run.states| && w < |run.states[n].workers|
    ensures run.states[n].workers[w].id == ProcessKey(run.states[n].workers[w].fields)
    decreases n
  {
    if n > 0 {
      var s, e := run.states[n - 1], run.steps[n - 1];
      assert Enabled(s, e);
      if w < |s.workers| {
        IdsAreKeys(run, n - 1, w);
        StepKeepsIdentity(s, e, w);
      } else {
        assert e.Start? || e.Register?;
      }
    }
  }

  // ----- the theorems -----

  /** In every run whatsoever, each entry's key is the key built from its worker's own fields. */
  lemma EntriesKeepTheirKeys(run: Run, n: nat, key: string)
    requires Possible(run) && n < |run.states| && key in run.states[n].table
    ensures var s := run.states[n];
      s.table[key] < |s.workers| && ProcessKey(s.workers[s.table[key]].fields) == key
  {
    AlwaysKeyed(run, n);
    assert EntryOk(run.states[n], key);
    IdsAreKeys(run, n, run.states[n].table[key]);
  }

  /**
   * In every run in which no start of a key falls between a stop's lookup of that key and its delete, a live worker
   * is the entry of its key: no live worker is out of the table, and no key has two.
   */
  lemma OneLiveWorkerPerKey(run: Run, n: nat, v: nat)
    requires UndisturbedUntil(run, n) && v < |run.states[n].workers| && Live(run.states[n].workers[v])
    ensures var s := run.states[n];
      var key := ProcessKey(s.workers[v].fields);
      && key in s.table && s.table[key] == v
      && forall w :: 0 <= w < |s.workers| && Live(s.workers[w]) && w != v ==> s.workers[w].id != key
  {
    AlwaysLiveOk(run, n);
    IdsAreKeys(run, n, v);
    var s := run.states[n];
    assert Entered(s, v);
    forall w | 0 <= w < |s.workers| && Live(s.workers[w]) && w != v ensures s.workers[w].id != s.workers[v].id {
      assert Entered(s, w);
    }
  }

  /** A stop that ends in such a run leaves no live worker under the keys it stopped, and no entry. */
  lemma StopLeavesNoWorker(run: Run, n: nat, j: nat, w: nat)
    requires n < |run.steps| && UndisturbedUntil(run, n + 1) && run.steps[n].Delete?
    requires run.steps[n].stop < |run.states[n].stops| && j < |run.states[n].stops[run.steps[n].stop].items|
    requires w < |run.states[n + 1].workers| && Live(run.states[n + 1].workers[w])
    ensures var key := run.states[n].stops[run.steps[n].stop].items[j].key;
      run.states[n + 1].workers[w].id != key && key !in run.states[n + 1].table
  {
    AlwaysLiveOk(run, n + 1);
    assert Entered(run.states[n + 1], w);
    assert run.states[n].stops[run.steps[n].stop].items[j].key in ItemKeys(run.states[n].stops[run.steps[n].stop]);
  }

  // ----- which start a delete harms -----

  /** Step l looks up the workers of the stop that is then the next one. */
  predicate LooksUp(run: Run, l: nat, p: nat) {
    l < |run.steps| && l < |run.states| && (run.steps[l].LookupOne? || run.steps[l].LookupAll?) && |run.states[l].stops| == p
  }

  /** The entry of the key at state n is the worker that step m started. */
  predicate StartedAt(run: Run, m: nat, n: nat, key: string) {
    && m < |run.steps| && m < |run.states| && n < |run.states|
    && run.steps[m].Start? && ProcessKey(run.steps[m].fields) == key
    && key in run.states[n].table && run.states[n].table[key] == |run.states[m].workers|
  }

  ghost predicate StartedInWindow(run: Run, l: nat, n: nat, key: string) {
    exists m :: l < m < n && StartedAt(run, m, n, key)
  }

  /** What a stop found at its lookup and did not start out with: a registered worker or one started since. */
  ghost predicate WindowOk(run: Run, l: nat, n: nat, item: Item)
    requires n < |run.states|
  {
    var s := run.states[n];
    item.key in s.table ==>
      || s.table[item.key] == item.worker
      || (s.table[item.key] < |s.workers| && !s.workers[s.table[item.key]].started)
      || StartedInWindow(run, l, n, item.key)
  }

  lemma StopStays(run: Run, l: nat, n: nat, p: nat)
    requires Possible(run) && l < n < |run.states| && LooksUp(run, l, p)
    ensures p < |run.states[n].stops| && p < |run.states[l + 1].stops|
    ensures run.states[n].stops[p].items == run.states[l + 1].stops[p].items
    decreases n
  {
    assert Enabled(run.states[n - 1], run.steps[n - 1]);
    assert Enabled(run.states[l], run.steps[l]);
    if l + 1 < n {
      StopStays(run, l, n - 1, p);
    }
  }

  lemma StepKeepsWindow(run: Run, l: nat, n: nat, item: Item)
    requires Possible(run) && l < n < |run.steps| && KeysOk(run.states[n]) && WindowOk(run, l, n, item)
    ensures WindowOk(run, l, n + 1, item)
  {
    var s, t, e := run.states[n], run.states[n + 1], run.steps[n];
    assert Enabled(s, e) && t == Apply(s, e);
    if item.key in t.table {
      if item.key in s.table && t.table[item.key] == s.table[item.key] {
        assert EntryOk(s, item.key);
        EntryStays(s, e, item.key);
        if StartedInWindow(run, l, n, item.key) {
          var m :| l < m < n && StartedAt(run, m, n, item.key);
          assert StartedAt(run, m, n + 1, item.key);
        }
      } else {
        NewEntry(s, e, item.key);
        if e.Start? {
          assert StartedAt(run, n, n + 1, item.key);
        }
      }
    }
  }

  lemma EntryStays(s: State, e: Step, key: string)
    requires Enabled(s, e) && key in s.table && s.table[key] < |s.workers|
    ensures s.table[key] < |Apply(s, e).workers|
    ensures Apply(s, e).workers[s.table[key]].started == s.workers[s.table[key]].started
  {
  }

  /** An entry comes about by a start of its key or a registration. */
  lemma NewEntry(s: State, e: Step, key: string)
    requires Enabled(s, e) && key in Apply(s, e).table
    requires key in s.table ==> Apply(s, e).table[key] != s.table[key]
    ensures (e.Start? || e.Register?) && key == ProcessKey(e.fields) && Apply(s, e).table[key] == |s.workers|
    ensures |Apply(s, e).workers| == |s.workers| + 1
    ensures e.Register? ==> !Apply(s, e).workers[|s.workers|].started
  {
  }

  lemma {:induction false} WindowAlwaysOk(run: Run, l: nat, n: nat, p: nat, j: nat)
    requires Possible(run) && l < n < |run.states| && LooksUp(run, l, p)
    requires p < |run.states[n].stops| && j < |run.states[n].stops[p].items|
    ensures WindowOk(run, l, n, run.states[n].stops[p].items[j])
    decreases n
  {
    assert Enabled(run.states[l], run.steps[l]);
    if l + 1 < n {
      StopStays(run, l, n, p);
      StopStays(run, l, n - 1, p);
      WindowAlwaysOk(run, l, n - 1, p, j);
      AlwaysKeyed(run, n - 1);
      StepKeepsWindow(run, l, n - 1, run.states[n - 1].stops[p].items[j]);
    }
  }

  /** A worker that a stop has cancelled stays cancelled. */
  lemma {:induction false} CancelledStays(run: Run, n: nat, p: nat, j: nat)
    requires Possible(run) && n < |run.states| && p < |run.states[n].stops|
    requires j < run.states[n].stops[p].cancelled && j < |run.states[n].stops[p].items|
    ensures var w := run.states[n].stops[p].items[j].worker;
      w < |run.states[n].workers| && !Live(run.states[n].workers[w])
    decreases n
  {
    if n > 0 {
      var s, e := run.states[n - 1], run.steps[n - 1];
      assert Enabled(s, e);
      if p < |s.stops| && j < s.stops[p].cancelled {
        CancelledStays(run, n - 1, p, j);
        CancelledWorkerStays(s, e, s.stops[p].items[j].worker);
      }
    }
  }

  lemma CancelledWorkerStays(s: State, e: Step, w: nat)
    requires Enabled(s, e) && w < |s.workers| && !Live(s.workers[w])
    ensures w < |Apply(s, e).workers| && !Live(Apply(s, e).workers[w])
  {
  }

  /** The key's entry is worker w, and it is live. */
  predicate Stands(s: State, key: string, w: nat) {
    key in s.table && s.table[key] == w && w < |s.workers| && Live(s.workers[w])
  }

  /** The step replaces, cancels or removes worker w, the entry of the key. */
  predicate Undoes(s: State, e: Step, key: string, w: nat) {
    match e
    case Start(f) => ProcessKey(f) == key
    case CancelOld(k) => k == key
    case CancelNext(p) =>
      p < |s.stops| && s.stops[p].cancelled < |s.stops[p].items| && s.stops[p].items[s.stops[p].cancelled].worker == w
    case Delete(p) => p < |s.stops| && key in ItemKeys(s.stops[p])
    case TakeOver => true
    case _ => false
  }

  lemma StandsUntilUndone(s: State, e: Step, key: string, w: nat)
    requires KeysOk(s) && Enabled(s, e) && w < |s.workers|
    ensures Stands(Apply(s, e), key, w) <==> Stands(s, key, w) && !Undoes(s, e, key, w)
  {
    forall k | k in s.table ensures EntryOk(s, k) {
    }
    if e.TakeOver? && Stands(s, key, w) {
      assert InTable(s, w);
    }
  }

  /** No step after m and before n undoes worker w of the key. */
  predicate LeftAlone(run: Run, m: nat, n: nat, key: string, w: nat)
    requires n <= |run.steps| && n < |run.states|
    decreases n
  {
    n <= m + 1 || (LeftAlone(run, m, n - 1, key, w) && !Undoes(run.states[n - 1], run.steps[n - 1], key, w))
  }

  /** Step m starts a worker of the key, and no step between m and n undoes that. */
  ghost predicate StandingStart(run: Run, m: nat, n: nat, key: string) {
    && m < n <= |run.steps| && n < |run.states|
    && run.steps[m].Start? && ProcessKey(run.steps[m].fields) == key
    && LeftAlone(run, m, n, key, |run.states[m].workers|)
  }

  lemma WorkersGrow(run: Run, m: nat, n: nat)
    requires Possible(run) && m <= n < |run.states|
    ensures |run.states[m].workers| <= |run.states[n].workers|
    decreases n
  {
    if m < n {
      assert Enabled(run.states[n - 1], run.steps[n - 1]);
      WorkersGrow(run, m, n - 1);
    }
  }

  lemma StartStands(run: Run, m: nat, key: string)
    requires Possible(run) && m < |run.steps| && run.steps[m].Start? && ProcessKey(run.steps[m].fields) == key
    ensures Stands(run.states[m + 1], key, |run.states[m].workers|) && |run.states[m].workers| < |run.states[m + 1].workers|
  {
    assert Enabled(run.states[m], run.steps[m]);
  }

  /** The worker a start made stands at n exactly when nothing undid it. */
  lemma {:induction false} StandsExactly(run: Run, m: nat, n: nat, key: string, w: nat)
    requires Possible(run) && m < n < |run.states| && w == |run.states[m].workers|
    requires run.steps[m].Start? && ProcessKey(run.steps[m].fields) == key
    ensures Stands(run.states[n], key, w) <==> LeftAlone(run, m, n, key, w)
    decreases n
  {
    StartStands(run, m, key);
    if m + 1 < n {
      StandsExactly(run, m, n - 1, key, w);
      WorkersGrow(run, m + 1, n - 1);
      StandsNext(run, m, n - 1, n, key, w);
    }
  }

  lemma StandsNext(run: Run, m: nat, n: nat, next: nat, key: string, w: nat)
    requires Possible(run) && m < n < |run.steps| && next == n + 1 && w < |run.states[n].workers|
    requires Stands(run.states[n], key, w) <==> LeftAlone(run, m, n, key, w)
    ensures Stands(run.states[next], key, w) <==> LeftAlone(run, m, next, key, w)
  {
    StandsStep(run, n, key, w);
    LeftAloneNext(run, m, n, next, key, w);
  }

  lemma LeftAloneNext(run: Run, m: nat, n: nat, next: nat, key: string, w: nat)
    requires m < n < |run.steps| && next == n + 1 && next < |run.states|
    ensures LeftAlone(run, m, next, key, w)
       <==> LeftAlone(run, m, n, key, w) && !Undoes(run.states[n], run.steps[n], key, w)
  {
  }

  lemma StandsStep(run: Run, n: nat, key: string, w: nat)
    requires Possible(run) && n < |run.steps| && w < |run.states[n].workers|
    ensures Stands(run.states[n + 1], key, w) <==> Stands(run.states[n], key, w) && !Undoes(run.states[n], run.steps[n], key, w)
  {
    AlwaysKeyed(run, n);
    StandsUntilUndone(run.states[n], run.steps[n], key, w);
  }

  /** A delete at step n would take the entry of a live worker away. */
  predicate Harms(s: State, key: string) {
    key in s.table && Stands(s, key, s.table[key])
  }

  lemma HarmedStart(run: Run, l: nat, n: nat, p: nat, j: nat) returns (m: nat)
    requires Possible(run) && l < n < |run.steps| && LooksUp(run, l, p) && run.steps[n] == Delete(p)
    requires p < |run.states[n].stops| && j < |run.states[n].stops[p].items|
    requires Harms(run.states[n], run.states[n].stops[p].items[j].key)
    ensures l < m < n && StartedAt(run, m, n, run.states[n].stops[p].items[j].key)
  {
    assert Enabled(run.states[n], run.steps[n]);
    WindowAlwaysOk(run, l, n, p, j);
    CancelledStays(run, n, p, j);
    m :| l < m < n && StartedAt(run, m, n, run.states[n].stops[p].items[j].key);
  }

  /**
   * In every run, the delete of a stop takes the entry of a live worker away exactly when some start of the key lies
   * between the stop's lookup and the delete, and nothing before the delete replaced, cancelled or removed its worker.
   */
  lemma DeleteHarmsExactly(run: Run, l: nat, n: nat, p: nat, j: nat)
    requires Possible(run) && l < n < |run.steps| && LooksUp(run, l, p) && run.steps[n] == Delete(p)
    requires p < |run.states[n].stops| && j < |run.states[n].stops[p].items|
    ensures var key := run.states[n].stops[p].items[j].key;
      Harms(run.states[n], key) <==> exists m :: l < m < n && StandingStart(run, m, n, key)
  {
    var key := run.states[n].stops[p].items[j].key;
    if Harms(run.states[n], key) {
      var m := HarmedStart(run, l, n, p, j);
      StandsExactly(run, m, n, key, |run.states[m].workers|);
      assert StandingStart(run, m, n, key);
    }
    forall m | l < m < n && StandingStart(run, m, n, key) ensures Harms(run.states[n], key) {
      StandsExactly(run, m, n, key, |run.states[m].workers|);
    }
  }

  /** Worker w is live and the entry of its key at s, and no longer its entry at t. */
  predicate Lost(s: State, t: State, w: nat) {
    w < |s.workers| && w < |t.workers| && Live(s.workers[w]) && Entered(s, w) && !Entered(t, w)
  }

  ghost predicate LosesSome(s: State, t: State) {
    exists w :: Lost(s, t, w)
  }

  lemma DeleteTakes(s: State, p: nat, w: nat)
    requires KeysOk(s) && Enabled(s, Delete(p)) && w < |s.workers|
    ensures Lost(s, Apply(s, Delete(p)), w) <==> Live(s.workers[w]) && Entered(s, w) && s.workers[w].id in ItemKeys(s.stops[p])
  {
  }

  lemma LostIsHarmed(s: State, p: nat, w: nat) returns (j: nat)
    requires KeysOk(s) && Enabled(s, Delete(p)) && Lost(s, Apply(s, Delete(p)), w)
    ensures j < |s.stops[p].items| && Harms(s, s.stops[p].items[j].key)
  {
    DeleteTakes(s, p, w);
    j :| 0 <= j < |s.stops[p].items| && s.stops[p].items[j].key == s.workers[w].id;
  }

  lemma HarmedIsLost(s: State, p: nat, j: nat)
    requires KeysOk(s) && Enabled(s, Delete(p)) && j < |s.stops[p].items| && Harms(s, s.stops[p].items[j].key)
    ensures Lost(s, Apply(s, Delete(p)), s.table[s.stops[p].items[j].key])
  {
    var key := s.stops[p].items[j].key;
    assert EntryOk(s, key) && key in ItemKeys(s.stops[p]);
    DeleteTakes(s, p, s.table[key]);
  }

  /**
   * So in every run a delete takes some live worker out of the table exactly when such a start lies in the window of
   * one of its keys; and if every live worker was in the table before, then exactly in that case one no longer is.
   */
  lemma DeleteLosesExactly(run: Run, l: nat, n: nat, p: nat)
    requires Possible(run) && l < n < |run.steps| && LooksUp(run, l, p) && run.steps[n] == Delete(p)
    ensures p < |run.states[n].stops|
    ensures var items := run.states[n].stops[p].items;
      LosesSome(run.states[n], run.states[n + 1]) <==>
        exists j, m :: l < m < n && 0 <= j < |items| && StandingStart(run, m, n, items[j].key)
    ensures LiveOk(run.states[n]) ==>
      (LiveOk(run.states[n + 1]) <==> !LosesSome(run.states[n], run.states[n + 1]))
  {
    var s, t := run.states[n], run.states[n + 1];
    assert Enabled(s, run.steps[n]);
    AlwaysKeyed(run, n);
    forall j | 0 <= j < |s.stops[p].items|
      ensures Harms(s, s.stops[p].items[j].key) <==> exists m :: l < m < n && StandingStart(run, m, n, s.stops[p].items[j].key)
    {
      DeleteHarmsExactly(run, l, n, p, j);
    }
    forall w | Lost(s, t, w) ensures exists j :: 0 <= j < |s.stops[p].items| && Harms(s, s.stops[p].items[j].key) {
      var j := LostIsHarmed(s, p, w);
    }
    forall j | 0 <= j < |s.stops[p].items| && Harms(s, s.stops[p].items[j].key) ensures LosesSome(s, t) {
      HarmedIsLost(s, p, j);
    }
    NothingLost(s, p);
  }

  lemma NothingLost(s: State, p: nat)
    requires KeysOk(s) && Enabled(s, Delete(p))
    ensures var t := Apply(s, Delete(p)); LiveOk(s) ==> (LiveOk(t) <==> !LosesSome(s, t))
  {
    var t := Apply(s, Delete(p));
    assert t.workers == s.workers;
    forall w | 0 <= w < |s.workers| && LiveOk(s) && Live(s.workers[w]) && !Lost(s, t, w) ensures Entered(t, w) {
      assert Entered(s, w);
    }
  }

  /** A takeover stops exactly the workers of the table and empties it; a worker outside goes on. */
  lemma TakeOverExactly(s: State, w: nat)
    requires KeysOk(s) && w < |s.workers|
    ensures var t := Apply(s, TakeOver);
      && t.table == map[] && |t.workers| == |s.workers| && t.stops == s.stops
      && (Live(t.workers[w]) <==> Live(s.workers[w]) && !Entered(s, w))
      && t.workers[w].id == s.workers[w].id && t.workers[w].done == s.workers[w].done
  {
    if InTable(s, w) {
      var k :| k in s.table && s.table[k] == w;
      assert EntryOk(s, k);
    }
  }

  /** A stop that waits deletes only after every worker it found has ended. */
  lemma {:induction false} WaitedMeansEnded(run: Run, n: nat, p: nat, j: nat)
    requires Possible(run) && n < |run.states| && p < |run.states[n].stops|
    requires run.states[n].stops[p].waited && j < |run.states[n].stops[p].items|
    ensures Gone(run.states[n], run.states[n].stops[p].items[j])
    decreases n
  {
    if n > 0 {
      var s, e := run.states[n - 1], run.steps[n - 1];
      assert Enabled(s, e);
      if p < |s.stops| && s.stops[p].waited {
        WaitedMeansEnded(run, n - 1, p, j);
      }
    }
  }

  /** So when it deletes, all of them have. */
  lemma WaitingStopDeletesLast(run: Run, n: nat, p: nat, j: nat)
    requires Possible(run) && n < |run.steps| && run.steps[n] == Delete(p) && p < |run.states[n].stops|
    requires run.states[n].stops[p].waits && j < |run.states[n].stops[p].items|
    ensures Gone(run.states[n], run.states[n].stops[p].items[j])
  {
    assert Enabled(run.states[n], run.steps[n]);
    WaitedMeansEnded(run, n, p, j);
  }

  lemma Extend(run: Run, e: Step) returns (longer: Run)
    requires Possible(run) && Enabled(run.states[|run.steps|], e)
    ensures Possible(longer) && longer.steps == run.steps + [e]
    ensures longer.states == run.states + [Apply(run.states[|run.steps|], e)]
  {
    longer := Run(run.steps + [e], run.states + [Apply(run.states[|run.steps|], e)]);
  }

  /** A worker is replaced while a stop of its key has cancelled it and not yet deleted the entry. */
  function Replaced(f: Fields): State {
    var id := ProcessKey(f);
    State([Worker(id, f, true, true, false), Worker(id, f, true, false, false)], map[id := 1],
          [Stop([Item(0, id)], true, 1, false, false)])
  }

  lemma StartAndLookup(f: Fields) returns (run: Run)
    ensures Possible(run) && run.steps == [Start(f), LookupOne(ProcessKey(f))]
    ensures var id := ProcessKey(f);
      run.states[2] == State([Worker(id, f, true, false, false)], map[id := 0], [Stop([Item(0, id)], true, 0, false, false)])
  {
    run := Extend(Run([], [INITIAL]), Start(f));
    assert ItemsFor(run.states[1], [ProcessKey(f)]) == [Item(0, ProcessKey(f))];
    run := Extend(run, LookupOne(ProcessKey(f)));
  }

  lemma StartInsideAStop(f: Fields) returns (run: Run)
    ensures Possible(run) && run.steps == [Start(f), LookupOne(ProcessKey(f)), CancelNext(0), Start(f)]
    ensures run.states[4] == Replaced(f)
  {
    run := StartAndLookup(f);
    run := Extend(run, CancelNext(0));
    run := Extend(run, Start(f));
  }

  /** The hypothesis is needed: a start between a stop's lookup and its delete leaves a live worker out of the table. */
  lemma StartInsideAStopOrphansAWorker(f: Fields) returns (run: Run)
    ensures Possible(run)
    ensures run.steps
         == [Start(f), LookupOne(ProcessKey(f)), CancelNext(0), Start(f)] + [Finish(0)] + [Wait(0)] + [Delete(0)]
    ensures run.states[7].table == map[] && |run.states[7].workers| == 2 && Live(run.states[7].workers[1])
  {
    run := StartInsideAStop(f);
    run := Extend(run, Finish(0));
    run := Extend(run, Wait(0));
    assert run.states[6].stops[0].items[0].key in ItemKeys(run.states[6].stops[0]);
    run := Extend(run, Delete(0));
  }
}
