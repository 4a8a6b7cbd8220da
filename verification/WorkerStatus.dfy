/**
 * When a worker reads as online. Each running worker calls `ConnectAndTunnel` again and again; the hook in its
 * configuration marks a worker online when the call has established its tunnel. Configurations are shared by
 * reference, and so is the hook in them.
 */
module WorkerStatus {
  import opened Session

  datatype Status = Offline | Online | Crashed

  /** Where a worker's goroutine is: in a call, it has some forwards accepted and may have reported the tunnel. */
  datatype Phase =
    | Created
    | Idle
    | InCall(tcp: bool, udp: bool, reported: bool)
    | Back(tcp: bool, udp: bool, reported: bool)
    | Ended

  datatype Worker = Worker(config: nat, proto: Proto, status: Status, phase: Phase)

  /** The workers ever started, and for each configuration the worker its hook marks. */
  datatype State = State(workers: seq<Worker>, hook: map<nat, nat>)

  datatype Step =
    | Create(config: nat, proto: Proto)
    | Begin(w: nat)
    | Call(w: nat)
    | AcceptTcp(w: nat)
    | AcceptUdp(w: nat)
    | Report(w: nat)
    | Return(w: nat)
    | Handle(w: nat, cancelled: bool)
    | EndWaiting(w: nat)
    | Panic(w: nat)
    | MarkOffline(w: nat)

  const INITIAL := State([], map[])

  /** Every forward the protocol needs has been accepted in this call. */
  predicate AllAccepted(p: Proto, tcp: bool, udp: bool) {
    (NeedsTcp(p) ==> tcp) && (NeedsUdp(p) ==> udp)
  }

  /** What has to be accepted before a worker of each protocol may report. */
  lemma AllAcceptedExactly(p: Proto, tcp: bool, udp: bool)
    ensures AllAccepted(p, tcp, udp)
       <==> match p
            case Tcp => tcp
            case Udp => udp
            case Both => tcp && udp
  {
  }

  predicate Running(x: Worker) {
    !x.phase.Created? && !x.phase.Ended?
  }

  /** A worker runs from its start to its end. */
  lemma RunningExactly(x: Worker)
    ensures Running(x) <==> x.phase.Idle? || x.phase.InCall? || x.phase.Back?
  {
  }

  predicate Enabled(s: State, e: Step) {
    match e
    case Create(_, _) => true
    case Begin(w) => w < |s.workers| && s.workers[w].phase.Created?
    case Call(w) => w < |s.workers| && s.workers[w].phase.Idle?
    case AcceptTcp(w) => w < |s.workers| && s.workers[w].phase.InCall? && NeedsTcp(s.workers[w].proto)
    case AcceptUdp(w) =>
      w < |s.workers| && s.workers[w].phase.InCall? && NeedsUdp(s.workers[w].proto)
      && (NeedsTcp(s.workers[w].proto) ==> s.workers[w].phase.tcp)
    case Report(w) =>
      w < |s.workers| && s.workers[w].phase.InCall? && !s.workers[w].phase.reported
      && AllAccepted(s.workers[w].proto, s.workers[w].phase.tcp, s.workers[w].phase.udp)
      && s.workers[w].config in s.hook && s.hook[s.workers[w].config] < |s.workers|
    case Return(w) => w < |s.workers| && s.workers[w].phase.InCall?
    case Handle(w, _) => w < |s.workers| && s.workers[w].phase.Back?
    case EndWaiting(w) => w < |s.workers| && s.workers[w].phase.Idle?
    case Panic(w) => w < |s.workers| && Running(s.workers[w])
    case MarkOffline(w) => w < |s.workers|
  }

  function Set(s: State, w: nat, x: Worker): State
    requires w < |s.workers|
  {
    s.(workers := s.workers[w := x])
  }

  function Apply(s: State, e: Step): State
    requires Enabled(s, e)
  {
    match e
    case Create(c, p) => s.(workers := s.workers + [Worker(c, p, Offline, Created)])
    case Begin(w) =>
      Set(s, w, s.workers[w].(status := Offline, phase := Idle)).(hook := s.hook[s.workers[w].config := w])
    case Call(w) => Set(s, w, s.workers[w].(phase := InCall(false, false, false)))
    case AcceptTcp(w) => Set(s, w, s.workers[w].(phase := InCall(true, s.workers[w].phase.udp, s.workers[w].phase.reported)))
    case AcceptUdp(w) => Set(s, w, s.workers[w].(phase := InCall(s.workers[w].phase.tcp, true, s.workers[w].phase.reported)))
    case Report(w) =>
      var marked := Set(s, s.hook[s.workers[w].config], s.workers[s.hook[s.workers[w].config]].(status := Online));
      Set(marked, w, marked.workers[w].(phase := InCall(marked.workers[w].phase.tcp, marked.workers[w].phase.udp, true)))
    case Return(w) =>
      var ph := s.workers[w].phase;
      Set(s, w, s.workers[w].(phase := Back(ph.tcp, ph.udp, ph.reported)))
    case Handle(w, cancelled) => Set(s, w, s.workers[w].(status := Offline, phase := if cancelled then Ended else Idle))
    case EndWaiting(w) => Set(s, w, s.workers[w].(phase := Ended))
    case Panic(w) => Set(s, w, s.workers[w].(status := Crashed, phase := Ended))
    case MarkOffline(w) => Set(s, w, s.workers[w].(status := Offline))
  }

  datatype Run = Run(steps: seq<Step>, states: seq<State>)

  ghost predicate Possible(run: Run) {
    && |run.states| == |run.steps| + 1
    && run.states[0] == INITIAL
    && forall n {:trigger run.steps[n]} :: 0 <= n < |run.steps| ==>
         Enabled(run.states[n], run.steps[n]) && run.states[n + 1] == Apply(run.states[n], run.steps[n])
  }

  /** The worker's current call has had every forward accepted, and its return has not been handled. */
  predicate Up(x: Worker) {
    (x.phase.InCall? || x.phase.Back?) && x.phase.reported && AllAccepted(x.proto, x.phase.tcp, x.phase.udp)
  }

  /** Online is never claimed without a tunnel. */
  predicate Honest(s: State) {
    forall w :: 0 <= w < |s.workers| && s.workers[w].status.Online? ==> Up(s.workers[w])
  }

  /** No two running workers share a configuration. */
  predicate Unshared(s: State) {
    forall v, w :: 0 <= v < w < |s.workers| && Running(s.workers[v]) && Running(s.workers[w]) ==>
      s.workers[v].config != s.workers[w].config
  }

  /** A running worker's hook marks that worker. */
  predicate HooksOk(s: State) {
    forall w :: 0 <= w < |s.workers| && Running(s.workers[w]) ==>
      s.workers[w].config in s.hook && s.hook[s.workers[w].config] == w
  }

  lemma StepKeepsHooks(s: State, e: Step)
    requires HooksOk(s) && Enabled(s, e) && Unshared(Apply(s, e))
    ensures HooksOk(Apply(s, e))
  {
    var t := Apply(s, e);
    forall w | 0 <= w < |t.workers| && Running(t.workers[w])
      ensures t.workers[w].config in t.hook && t.hook[t.workers[w].config] == w
    {
      if e.Begin? && w != e.w {
        assert Running(t.workers[e.w]);
        assert t.workers[w].config != t.workers[e.w].config;
      }
    }
  }

  /** A worker reads as online from a report that marks it to its next start, return, panic or offline mark. */
  lemma OnlineStep(s: State, e: Step, v: nat)
    requires Enabled(s, e) && v < |s.workers|
    ensures v < |Apply(s, e).workers|
    ensures Apply(s, e).workers[v].status.Online?
       <==> || (e.Report? && s.hook[s.workers[e.w].config] == v)
            || (s.workers[v].status.Online? && !((e.Begin? || e.Handle? || e.Panic? || e.MarkOffline?) && e.w == v))
  {
  }

  /** It ends for good when its call returned with its context cancelled, while it waits, or in a panic. */
  lemma EndedStep(s: State, e: Step, v: nat)
    requires Enabled(s, e) && v < |s.workers|
    ensures v < |Apply(s, e).workers|
    ensures Apply(s, e).workers[v].phase.Ended?
       <==> s.workers[v].phase.Ended? || e == Handle(v, true) || e == EndWaiting(v) || e == Panic(v)
  {
  }

  /** Any step but a report keeps the statuses honest. */
  lemma StepKeepsHonest(s: State, e: Step)
    requires Honest(s) && Enabled(s, e) && !e.Report?
    ensures Honest(Apply(s, e))
  {
  }

  /** A report keeps them honest exactly when the worker that the hook marks is the one that reports, or is up itself. */
  lemma ReportIsHonestExactly(s: State, w: nat)
    requires Honest(s) && Enabled(s, Report(w))
    ensures var marked := s.hook[s.workers[w].config];
      Honest(Apply(s, Report(w))) <==> marked == w || Up(s.workers[marked])
  {
    var t, marked := Apply(s, Report(w)), s.hook[s.workers[w].config];
    assert t.workers[marked].status.Online?;
  }

  lemma {:induction false} HooksAlwaysOk(run: Run, n: nat)
    requires Possible(run) && n < |run.states| && forall m :: 0 <= m <= n ==> Unshared(run.states[m])
    ensures HooksOk(run.states[n])
  {
    if n > 0 {
      HooksAlwaysOk(run, n - 1);
      StepKeepsHooks(run.states[n - 1], run.steps[n - 1]);
    }
  }

  /**
   * In every run in which no two running workers share a configuration, a worker is online only between the
   * acceptance of every forward its protocol needs in its current call and the handling of that call's return.
   */
  lemma {:induction false} OnlineIsHonest(run: Run, n: nat)
    requires Possible(run) && n < |run.states| && forall m :: 0 <= m <= n ==> Unshared(run.states[m])
    ensures Honest(run.states[n])
  {
    if n > 0 {
      OnlineIsHonest(run, n - 1);
      HooksAlwaysOk(run, n - 1);
      if run.steps[n - 1].Report? {
        ReportIsHonestExactly(run.states[n - 1], run.steps[n - 1].w);
      } else {
        StepKeepsHonest(run.states[n - 1], run.steps[n - 1]);
      }
    }
  }

  // ----- which report lies -----

  /** Step m begins worker v, whose configuration is c. */
  predicate Begins(run: Run, m: nat, v: nat, c: nat) {
    && m < |run.steps| && m < |run.states|
    && run.steps[m] == Begin(v) && v < |run.states[m].workers| && run.states[m].workers[v].config == c
  }

  /** No worker with configuration c begins after step m and before state n. */
  predicate NoneBegins(run: Run, m: nat, n: nat, c: nat)
    requires n <= |run.steps| && n < |run.states|
    decreases n
  {
    n <= m + 1 || (NoneBegins(run, m, n - 1, c) && !Begins(run, n - 1, BeginsAt(run.steps[n - 1]), c))
  }

  function BeginsAt(e: Step): nat {
    if e.Begin? then e.w else 0
  }

  /** Of the workers with configuration c, the one that begins at step m is the last to have begun by state n. */
  predicate LastBegun(run: Run, m: nat, n: nat, v: nat, c: nat)
    requires n <= |run.steps| && n < |run.states|
  {
    m < n && Begins(run, m, v, c) && NoneBegins(run, m, n, c)
  }

  /** A worker that has begun never waits for its start again, and its configuration stays. */
  predicate Begun(s: State, v: nat, c: nat) {
    v < |s.workers| && !s.workers[v].phase.Created? && s.workers[v].config == c
  }

  lemma StepKeepsBegun(s: State, e: Step, v: nat, c: nat)
    requires Enabled(s, e)
    requires Begun(s, v, c) || (e == Begin(v) && v < |s.workers| && s.workers[v].config == c)
    ensures Begun(Apply(s, e), v, c)
  {
  }

  lemma {:induction false} BegunStays(run: Run, b: nat, n: nat, v: nat, c: nat)
    requires Possible(run) && b < n < |run.states| && Begins(run, b, v, c)
    ensures Begun(run.states[n], v, c)
    decreases n
  {
    assert Enabled(run.states[n - 1], run.steps[n - 1]);
    if b < n - 1 {
      BegunStays(run, b, n - 1, v, c);
    }
    StepKeepsBegun(run.states[n - 1], run.steps[n - 1], v, c);
  }

  /** So a worker begins once. */
  lemma BeginsOnce(run: Run, b: nat, m: nat, v: nat, c: nat)
    requires Possible(run) && b < m < |run.steps| && Begins(run, b, v, c)
    ensures run.steps[m] != Begin(v)
  {
    BegunStays(run, b, m, v, c);
    assert Enabled(run.states[m], run.steps[m]);
  }

  predicate Marks(s: State, c: nat, v: nat) {
    c in s.hook && s.hook[c] == v
  }

  lemma StepKeepsMark(s: State, e: Step, v: nat, c: nat)
    requires Enabled(s, e)
    requires if e.Begin? && s.workers[e.w].config == c then e.w == v else Marks(s, c, v)
    ensures Marks(Apply(s, e), c, v)
  {
  }

  /** The hook of a configuration marks the worker that began last with it. */
  lemma {:induction false} HookIsLastBegun(run: Run, m: nat, n: nat, v: nat, c: nat)
    requires Possible(run) && n < |run.states| && LastBegun(run, m, n, v, c)
    ensures Marks(run.states[n], c, v)
    decreases n
  {
    assert Enabled(run.states[n - 1], run.steps[n - 1]);
    if m < n - 1 {
      HookIsLastBegun(run, m, n - 1, v, c);
    }
    StepKeepsMark(run.states[n - 1], run.steps[n - 1], v, c);
  }

  /** Once some worker with configuration c has begun, one began last. */
  lemma {:induction false} SomeLastBegun(run: Run, b: nat, n: nat, w: nat, c: nat) returns (m: nat, v: nat)
    requires Possible(run) && b < n < |run.states| && Begins(run, b, w, c)
    ensures b <= m && LastBegun(run, m, n, v, c)
    decreases n
  {
    if Begins(run, n - 1, BeginsAt(run.steps[n - 1]), c) {
      m, v := n - 1, run.steps[n - 1].w;
    } else {
      m, v := SomeLastBegun(run, b, n - 1, w, c);
    }
  }

  lemma {:induction false} NoneBegan(run: Run, b: nat, m: nat, n: nat, v: nat, c: nat)
    requires Possible(run) && b < m < n < |run.states| && Begins(run, m, v, c)
    ensures !NoneBegins(run, b, n, c)
    decreases n
  {
    if m < n - 1 {
      NoneBegan(run, b, m, n - 1, v, c);
    }
  }

  /**
   * In every run, after a worker began its configuration's hook marks another worker exactly when another worker with
   * that configuration began since.
   */
  lemma HookMovesExactly(run: Run, b: nat, n: nat, w: nat, c: nat)
    requires Possible(run) && b < n < |run.states| && Begins(run, b, w, c)
    ensures c in run.states[n].hook
    ensures run.states[n].hook[c] != w <==> exists m, v :: b < m < n && v != w && Begins(run, m, v, c)
  {
    var last, marked := SomeLastBegun(run, b, n, w, c);
    HookIsLastBegun(run, last, n, marked, c);
    if b < last {
      BeginsOnce(run, b, last, w, c);
    } else {
      forall m, v | b < m < n && Begins(run, m, v, c) ensures false {
        NoneBegan(run, b, m, n, v, c);
      }
    }
  }

  /** Worker v has reported its tunnel, and the call it did that in has not been handled. */
  predicate ReportStands(run: Run, n: nat, v: nat)
    requires n <= |run.steps|
  {
    n > 0 && (run.steps[n - 1] == Report(v) || (ReportStands(run, n - 1, v) && !EndsCall(run.steps[n - 1], v)))
  }

  predicate EndsCall(e: Step, v: nat) {
    (e.Handle? || e.Panic?) && e.w == v
  }

  /** A worker reports only what has been accepted. */
  predicate ReportsOk(s: State) {
    forall w :: 0 <= w < |s.workers| ==> ReportOk(s.workers[w])
  }

  predicate ReportOk(x: Worker) {
    (x.phase.InCall? || x.phase.Back?) && x.phase.reported ==> AllAccepted(x.proto, x.phase.tcp, x.phase.udp)
  }

  predicate UpAt(s: State, v: nat) {
    v < |s.workers| && Up(s.workers[v])
  }

  lemma StepKeepsReports(s: State, e: Step)
    requires ReportsOk(s) && Enabled(s, e)
    ensures ReportsOk(Apply(s, e))
  {
  }

  lemma StepKeepsUp(s: State, e: Step, v: nat)
    requires ReportsOk(s) && Enabled(s, e)
    ensures UpAt(Apply(s, e), v) <==> e == Report(v) || (UpAt(s, v) && !EndsCall(e, v))
  {
    assert v < |s.workers| ==> ReportOk(s.workers[v]);
  }

  /** A worker is up exactly while a report of its own stands. */
  lemma {:induction false} UpExactly(run: Run, n: nat, v: nat)
    requires Possible(run) && n < |run.states|
    ensures ReportsOk(run.states[n]) && (UpAt(run.states[n], v) <==> ReportStands(run, n, v))
  {
    if n > 0 {
      UpExactly(run, n - 1, v);
      assert Enabled(run.states[n - 1], run.steps[n - 1]);
      StepKeepsReports(run.states[n - 1], run.steps[n - 1]);
      StepKeepsUp(run.states[n - 1], run.steps[n - 1], v);
    }
  }

  /**
   * In every run, a report is the step that makes a status dishonest exactly when another worker with the reporter's
   * configuration has begun since the reporter did, and the last of them to begin has no report of its own standing.
   */
  lemma ReportLiesExactly(run: Run, b: nat, n: nat, w: nat, c: nat)
    requires Possible(run) && b < n < |run.steps| && Begins(run, b, w, c) && run.steps[n] == Report(w)
    requires Honest(run.states[n])
    ensures !Honest(run.states[n + 1])
       <==> exists m, v :: b < m < n && v != w && LastBegun(run, m, n, v, c) && !ReportStands(run, n, v)
  {
    assert Enabled(run.states[n], run.steps[n]);
    BegunStays(run, b, n, w, c);
    var last, marked := SomeLastBegun(run, b, n, w, c);
    HookIsLastBegun(run, last, n, marked, c);
    UpExactly(run, n, marked);
    ReportIsHonestExactly(run.states[n], w);
    if b < last {
      BeginsOnce(run, b, last, w, c);
    }
    forall m, v | b < m < n && v != w && LastBegun(run, m, n, v, c) ensures v == marked {
      HookIsLastBegun(run, m, n, v, c);
    }
  }

  lemma {:induction false} BeganBefore(run: Run, n: nat, w: nat) returns (b: nat)
    requires Possible(run) && n < |run.states| && w < |run.states[n].workers| && !run.states[n].workers[w].phase.Created?
    ensures b < n && Begins(run, b, w, run.states[n].workers[w].config)
  {
    assert Enabled(run.states[n - 1], run.steps[n - 1]);
    if run.steps[n - 1] == Begin(w) {
      b := n - 1;
    } else {
      StillBegun(run.states[n - 1], run.steps[n - 1], w);
      b := BeganBefore(run, n - 1, w);
    }
  }

  lemma StillBegun(s: State, e: Step, w: nat)
    requires Enabled(s, e) && w < |Apply(s, e).workers| && !Apply(s, e).workers[w].phase.Created? && e != Begin(w)
    ensures Begun(s, w, Apply(s, e).workers[w].config)
  {
  }

  /** Step n is a report, and the last worker begun with the reporter's configuration is another one and not up. */
  ghost predicate Lies(run: Run, n: nat)
    requires n < |run.steps| && n < |run.states|
  {
    run.steps[n].Report? && exists b: nat, m: nat, v: nat, c: nat ::
      b < m < n && v != run.steps[n].w && Begins(run, b, run.steps[n].w, c)
      && LastBegun(run, m, n, v, c) && !ReportStands(run, n, v)
  }

  lemma LiesExactly(run: Run, n: nat)
    requires Possible(run) && n < |run.steps| && Honest(run.states[n])
    ensures Honest(run.states[n + 1]) <==> !Lies(run, n)
  {
    var e := run.steps[n];
    assert Enabled(run.states[n], e);
    if !e.Report? {
      StepKeepsHonest(run.states[n], e);
    } else {
      forall b: nat, c: nat | b < n && Begins(run, b, e.w, c)
        ensures !Honest(run.states[n + 1])
           <==> exists m, v :: b < m < n && v != e.w && LastBegun(run, m, n, v, c) && !ReportStands(run, n, v)
      {
        ReportLiesExactly(run, b, n, e.w, c);
      }
      var first := BeganBefore(run, n, e.w);
    }
  }

  /** A run never shows a worker online without a tunnel exactly when none of its reports lies. */
  lemma {:induction false} AlwaysHonestExactly(run: Run, n: nat)
    requires Possible(run) && n < |run.states|
    ensures (forall m :: 0 <= m <= n ==> Honest(run.states[m])) <==> forall k :: 0 <= k < n ==> !Lies(run, k)
  {
    if n > 0 {
      AlwaysHonestExactly(run, n - 1);
      if Honest(run.states[n - 1]) {
        LiesExactly(run, n - 1);
      }
    }
  }

  lemma Extend(run: Run, e: Step) returns (longer: Run)
    requires Possible(run) && Enabled(run.states[|run.steps|], e)
    ensures Possible(longer) && longer.steps == run.steps + [e]
    ensures longer.states == run.states + [Apply(run.states[|run.steps|], e)]
  {
    longer := Run(run.steps + [e], run.states + [Apply(run.states[|run.steps|], e)]);
  }

  lemma CallingWorker() returns (run: Run)
    ensures Possible(run) && run.steps == [Create(0, Tcp), Begin(0), Call(0)]
    ensures run.states[3] == State([Worker(0, Tcp, Offline, InCall(false, false, false))], map[0 := 0])
  {
    run := Extend(Run([], [INITIAL]), Create(0, Tcp));
    assert run.states[1].workers == [Worker(0, Tcp, Offline, Created)];
    run := Extend(run, Begin(0));
    run := Extend(run, Call(0));
  }

  lemma ConnectedWorker() returns (run: Run)
    ensures Possible(run) && run.steps == [Create(0, Tcp), Begin(0), Call(0), AcceptTcp(0)]
    ensures run.states[4] == State([Worker(0, Tcp, Offline, InCall(true, false, false))], map[0 := 0])
  {
    run := CallingWorker();
    run := Extend(run, AcceptTcp(0));
  }

  /** Restarted with the same configuration, the old worker's report marks the new one, which has no tunnel. */
  lemma SharedConfigurationsLie() returns (run: Run)
    ensures Possible(run) && |run.states| == 8 && !Honest(run.states[7])
    ensures run.states[7].workers
         == [Worker(0, Tcp, Offline, InCall(true, false, true)), Worker(0, Tcp, Online, Idle)]
  {
    run := ConnectedWorker();
    run := Extend(run, Create(0, Tcp));
    run := Extend(run, Begin(1));
    run := Extend(run, Report(0));
    assert run.states[7].workers[1].status.Online?;
  }
}
