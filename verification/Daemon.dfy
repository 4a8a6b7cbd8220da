/**
 * The daemon's commands on the worker map itself. Each method is one closure that the daemon's goroutine applies;
 * the steps of `WorkerTable` specify them.
 */
module Daemon {
  import opened WorkerIds
  import opened WorkerTable

  class WorkerInfo {
    const id: string
    const fields: Fields
    const started: bool
    ghost const index: nat
    var cancelled: bool
    var done: bool

    constructor (id: string, fields: Fields, started: bool, ghost index: nat)
      ensures this.index == index && Value() == Worker(id, fields, started, false, false)
    {
      this.id, this.fields, this.started, this.index := id, fields, started, index;
      cancelled, done := false, false;
    }

    function Value(): Worker
      reads this
    {
      Worker(id, fields, started, cancelled, done)
    }

    /** Calls the worker's cancel function, if it has one. */
    method Cancel()
      modifies `cancelled
      ensures Value() == Cancelled(old(Value()))
    {
      if started {
        cancelled := true;
      }
    }
  }

  class Daemon {
    var workers: map<string, WorkerInfo>
    /** Every worker ever created, in order. */
    ghost var all: seq<WorkerInfo>

    constructor ()
      ensures Valid() && View() == INITIAL
    {
      workers, all := map[], [];
    }

    ghost predicate Valid()
      reads this
    {
      && (forall i :: 0 <= i < |all| ==> all[i].index == i)
      && (forall k :: k in workers ==> workers[k].index < |all| && all[workers[k].index] == workers[k])
    }

    ghost function View(): State
      reads this, all
    {
      State(Values(all), map k | k in workers :: workers[k].index, [])
    }

    static ghost function Values(ws: seq<WorkerInfo>): (vs: seq<Worker>)
      reads ws
      ensures |vs| == |ws| && forall i :: 0 <= i < |ws| ==> vs[i] == ws[i].Value()
    {
      seq(|ws|, i requires 0 <= i < |ws| reads ws => ws[i].Value())
    }

    /** The first step of a start command: cancels the worker of the key, if there is one. */
    method CancelOldWorker(key: string)
      requires Valid()
      modifies (if key in workers then {workers[key]} else {})`cancelled
      ensures Valid() && View() == Apply(old(View()), CancelOld(key))
    {
      if key in workers {
        workers[key].Cancel();
      }
    }

    /** A new worker takes the entry of its id. */
    method Enter(id: string, f: Fields, started: bool)
      requires Valid()
      modifies this
      ensures Valid()
      ensures View().workers == old(View()).workers + [Worker(id, f, started, false, false)]
      ensures View().table == old(View()).table[id := |old(View()).workers|]
    {
      var w := new WorkerInfo(id, f, started, |all|);
      workers, all := workers[id := w], all + [w];
      assert View().table == old(View()).table[id := |old(all)|];
      assert View().workers == old(View()).workers + [w.Value()];
    }

    /** Replaces the worker of a key by a new one and cancels the old one. */
    method StartWorker(f: Fields)
      requires Valid()
      modifies this, (if ProcessKey(f) in workers then {workers[ProcessKey(f)]} else {})`cancelled
      ensures Valid() && View() == Apply(old(View()), Start(f))
    {
      var id := ProcessKey(f);
      CancelOldWorker(id);
      Enter(id, f, true);
    }

    /** A worker that runs elsewhere makes itself known; a known one only reports. */
    method RegisterWorker(f: Fields)
      requires Valid()
      modifies this
      ensures Valid() && View() == Apply(old(View()), Register(f))
    {
      var id := ProcessKey(f);
      if id !in workers {
        Enter(id, f, false);
      }
    }

    /** The last step of a stop: deletes the entries by key, whatever they hold by now. */
    method DeleteWorkers(keys: seq<string>)
      requires Valid()
      modifies `workers
      ensures Valid() && View() == old(View()).(table := old(View()).table - (set k | k in keys))
    {
      ghost var before := workers;
      for i := 0 to |keys|
        invariant workers == before - (set k | k in keys[..i])
      {
        workers := workers - {keys[i]};
      }
      assert keys[..|keys|] == keys;
    }

    /** Cancels every worker of the table; `seen` are the workers it reached. */
    method CancelAll() returns (ghost seen: set<nat>)
      requires Valid()
      modifies (set k | k in workers :: workers[k])`cancelled
      ensures forall k :: k in workers ==> workers[k].index in seen
      ensures forall i :: i in seen ==> HasIndex(i)
      ensures forall i :: 0 <= i < |all| ==>
        all[i].Value() == if i in seen then Cancelled(old(all[i].Value())) else old(all[i].Value())
    {
      var todo := workers.Keys;
      ghost var before := Values(all);
      seen := {};
      while todo != {}
        invariant todo <= workers.Keys
        invariant forall k :: k in workers && k !in todo ==> workers[k].index in seen
        invariant forall i :: i in seen ==> HasIndex(i)
        invariant forall i :: 0 <= i < |all| ==> Reached(all[i], before[i], i in seen)
        decreases todo
      {
        var k :| k in todo;
        var w := workers[k];
        assert all[w.index] == w && Reached(w, before[w.index], w.index in seen) && HasIndex(w.index);
        w.Cancel();
        todo, seen := todo - {k}, seen + {w.index};
      }
    }

    ghost predicate HasIndex(i: nat)
      reads this
    {
      exists k :: k in workers && workers[k].index == i
    }

    ghost predicate Reached(w: WorkerInfo, before: Worker, reached: bool)
      reads w
    {
      w.Value() == if reached then Cancelled(before) else before
    }

    lemma IndexInTable(i: nat)
      requires HasIndex(i)
      ensures InTable(View(), i)
    {
      var k :| k in workers && workers[k].index == i;
      assert View().table[k] == i;
    }

    /** Hands everything over to another daemon: cancels every worker of the table and empties it. */
    method TakeOverStop()
      requires Valid()
      modifies `workers, (set k | k in workers :: workers[k])`cancelled
      ensures Valid() && View() == Apply(old(View()), TakeOver)
    {
      ghost var before := View();
      ghost var seen := CancelAll();
      forall i | i in seen ensures InTable(before, i) {
        IndexInTable(i);
      }
      EveryEntrySeen(before, seen);
      workers := map[];
      assert View().workers == Apply(before, TakeOver).workers;
    }
  }

  lemma EveryEntrySeen(s: State, seen: set<nat>)
    requires forall k :: k in s.table ==> s.table[k] in seen
    requires forall i :: i in seen ==> InTable(s, i)
    ensures forall i :: InTable(s, i) <==> i in seen
  {
  }
}
