/**
 * The two timers of a flow: the keepalive timer that refreshes a quiet flow a bounded number of times and the
 * cleanup timer that reaps an idle one. Both run in one goroutine, so their ticks form a sequence.
 */
module FlowTimers {
  import opened Bytes

  const SECOND := 1_000_000_000
  const KEEPALIVE_INTERVAL := 60 * SECOND
  const KEEPALIVE_IDLE := 90 * SECOND
  const KEEPALIVE_MAX := 30
  const CLEANUP_INTERVAL := 30 * SECOND
  const DEFAULT_IDLE_TIMEOUT := 330 * SECOND

  datatype FlowState = FlowState(lastSeen: int, keepalives: nat)

  /** The idle timeout of a configured number of seconds. */
  function EffectiveIdleTimeout(seconds: int): (t: int)
    ensures t > 0
  {
    if seconds > 0 then seconds * SECOND else DEFAULT_IDLE_TIMEOUT
  }

  /** The keepalive tick sends a frame for this flow. */
  predicate KeepaliveDue(f: FlowState, now: int) {
    now - f.lastSeen >= KEEPALIVE_IDLE && f.keepalives < KEEPALIVE_MAX
  }

  function AfterKeepalive(f: FlowState, now: int): FlowState {
    FlowState(now, f.keepalives + 1)
  }

  /** The cleanup tick reaps this flow. */
  predicate Expired(f: FlowState, now: int, idleTimeout: int) {
    f.lastSeen < now - idleTimeout
  }

  /** The timeouts in numbers: 330 s unless configured, a keepalive after 90 s of silence, thirty of them in all. */
  lemma TimeoutsExactly(seconds: int, f: FlowState, now: int, idleTimeout: int)
    ensures EffectiveIdleTimeout(seconds) == (if seconds > 0 then seconds else 330) * 1_000_000_000
    ensures KeepaliveDue(f, now) <==> now - f.lastSeen >= 90_000_000_000 && f.keepalives < 30
    ensures AfterKeepalive(f, now).lastSeen == now && AfterKeepalive(f, now).keepalives == f.keepalives + 1
    ensures Expired(f, now, idleTimeout) <==> now - f.lastSeen > idleTimeout
  {
  }

  // ----- the life of a quiet flow -----

  datatype Tick = KeepaliveTick(at: int) | CleanupTick(at: int)

  datatype Clock = Clock(now: int, lastKeepalive: int, lastCleanup: int)

  /** A tick that is not late: neither timer has missed its interval when it happens. */
  predicate OnTime(c: Clock, t: Tick) {
    c.now <= t.at <= c.lastKeepalive + KEEPALIVE_INTERVAL && t.at <= c.lastCleanup + CLEANUP_INTERVAL
  }

  function Advance(c: Clock, t: Tick): Clock {
    match t
    case KeepaliveTick(at) => Clock(at, at, c.lastCleanup)
    case CleanupTick(at) => Clock(at, c.lastKeepalive, at)
  }

  /** One tick for one flow whose writes succeed; `None` is a reaped flow. */
  function TickFlow(f: Option<FlowState>, t: Tick, idleTimeout: int): Option<FlowState> {
    if f == None then None else
      match t
      case KeepaliveTick(at) => if KeepaliveDue(f.value, at) then Some(AfterKeepalive(f.value, at)) else f
      case CleanupTick(at) => if Expired(f.value, at, idleTimeout) then None else f
  }

  /** A flow from its last inbound frame on: only the timers act on it. */
  datatype Quiet = Quiet(start: FlowState, clock: Clock, idleTimeout: int, ticks: seq<Tick>)

  function ClockAt(q: Quiet, n: nat): Clock
    requires n <= |q.ticks|
  {
    if n == 0 then q.clock else Advance(ClockAt(q, n - 1), q.ticks[n - 1])
  }

  function FlowAt(q: Quiet, n: nat): Option<FlowState>
    requires n <= |q.ticks|
  {
    if n == 0 then Some(q.start) else TickFlow(FlowAt(q, n - 1), q.ticks[n - 1], q.idleTimeout)
  }

  ghost predicate Timely(q: Quiet) {
    && q.start.keepalives <= KEEPALIVE_MAX
    && q.clock.now == q.start.lastSeen && q.clock.lastKeepalive <= q.clock.now && q.clock.lastCleanup <= q.clock.now
    && q.idleTimeout > 0
    && forall n :: 0 <= n < |q.ticks| ==> OnTime(ClockAt(q, n), q.ticks[n])
  }

  ghost predicate KeptFresh(q: Quiet, n: nat)
    requires n <= |q.ticks|
  {
    var c := ClockAt(q, n);
    && c.lastKeepalive <= c.now && c.lastCleanup <= c.now
    && match FlowAt(q, n)
       case None => true
       case Some(f) =>
         && q.start.keepalives <= f.keepalives <= KEEPALIVE_MAX
         && f.lastSeen <= c.now
         && f.lastSeen <= q.start.lastSeen + (f.keepalives - q.start.keepalives) * (KEEPALIVE_IDLE + KEEPALIVE_INTERVAL)
         && (f.keepalives < KEEPALIVE_MAX ==> c.lastKeepalive < f.lastSeen + KEEPALIVE_IDLE)
         && c.lastCleanup <= f.lastSeen + q.idleTimeout
  }

  lemma {:induction false} AlwaysKeptFresh(q: Quiet, n: nat)
    requires Timely(q) && n <= |q.ticks|
    ensures KeptFresh(q, n)
  {
    if n == 0 {
      StartsFresh(q);
    } else {
      AlwaysKeptFresh(q, n - 1);
      TickKeepsFresh(q, n - 1);
    }
  }

  lemma StartsFresh(q: Quiet)
    requires Timely(q)
    ensures KeptFresh(q, 0)
  {
  }

  lemma TickKeepsFresh(q: Quiet, n: nat)
    requires Timely(q) && n < |q.ticks| && KeptFresh(q, n)
    ensures KeptFresh(q, n + 1)
  {
    assert OnTime(ClockAt(q, n), q.ticks[n]);
    if FlowAt(q, n).Some? {
      var spent := FlowAt(q, n).value.keepalives - q.start.keepalives;
      var step := KEEPALIVE_IDLE + KEEPALIVE_INTERVAL;
      assert (spent + 1) * step == spent * step + step;
    }
  }

  // ----- the whole life of a flow -----

  /** Besides the timers, inbound frames refresh a flow at any time. */
  datatype LifeEvent = Inbound(at: int) | Timer(tick: Tick)

  function Live(f: Option<FlowState>, e: LifeEvent, idleTimeout: int): Option<FlowState> {
    match e
    case Inbound(at) => if f.Some? then Some(FlowState(at, f.value.keepalives)) else None
    case Timer(tick) => TickFlow(f, tick, idleTimeout)
  }

  function LifeAt(life: seq<LifeEvent>, idleTimeout: int, born: int, n: nat): Option<FlowState>
    requires n <= |life|
  {
    if n == 0 then Some(FlowState(born, 0)) else Live(LifeAt(life, idleTimeout, born, n - 1), life[n - 1], idleTimeout)
  }

  /** The keepalive frames sent for the flow by its first n events. */
  function KeepalivesSent(life: seq<LifeEvent>, idleTimeout: int, born: int, n: nat): nat
    requires n <= |life|
  {
    if n == 0 then 0
    else
      var e, f := life[n - 1], LifeAt(life, idleTimeout, born, n - 1);
      KeepalivesSent(life, idleTimeout, born, n - 1)
      + if e.Timer? && e.tick.KeepaliveTick? && f.Some? && KeepaliveDue(f.value, e.tick.at) then 1 else 0
  }

  /** A flow sends at most 30 keepalives in its whole life, however often traffic refreshes it. */
  lemma {:induction false} KeepalivesBounded(life: seq<LifeEvent>, idleTimeout: int, born: int, n: nat)
    requires n <= |life|
    ensures KeepalivesSent(life, idleTimeout, born, n) <= 30
    ensures LifeAt(life, idleTimeout, born, n).Some? ==>
      KeepalivesSent(life, idleTimeout, born, n) == LifeAt(life, idleTimeout, born, n).value.keepalives
  {
    if n > 0 {
      KeepalivesBounded(life, idleTimeout, born, n - 1);
    }
  }

  /** The events in order of time, and before every cleanup an inbound frame, or the birth, within the idle timeout. */
  ghost predicate Busy(life: seq<LifeEvent>, idleTimeout: int, born: int) {
    && (forall m, n :: 0 <= m < n < |life| ==> TimeOf(life[m]) <= TimeOf(life[n]))
    && (forall n :: 0 <= n < |life| ==> born <= TimeOf(life[n]))
    && (forall n :: 0 <= n < |life| && life[n].Timer? && life[n].tick.CleanupTick? ==>
          HeardSince(life, n, born, life[n].tick.at - idleTimeout))
  }

  function TimeOf(e: LifeEvent): int {
    if e.Inbound? then e.at else e.tick.at
  }

  ghost predicate HeardSince(life: seq<LifeEvent>, n: nat, born: int, since: int)
    requires n <= |life|
  {
    born >= since || exists m :: 0 <= m < n && life[m].Inbound? && life[m].at >= since
  }

  lemma {:induction false} SeenSinceHeard(life: seq<LifeEvent>, idleTimeout: int, born: int, n: nat)
    requires Busy(life, idleTimeout, born) && n <= |life| && LifeAt(life, idleTimeout, born, n).Some?
    ensures LifeAt(life, idleTimeout, born, n).value.lastSeen >= born
    ensures forall m :: 0 <= m < n && life[m].Inbound? ==> LifeAt(life, idleTimeout, born, n).value.lastSeen >= life[m].at
  {
    if n > 0 {
      SeenSinceHeard(life, idleTimeout, born, n - 1);
      assert forall m :: 0 <= m < n - 1 ==> TimeOf(life[m]) <= TimeOf(life[n - 1]);
    }
  }

  /** A flow with inbound frames often enough lives on, whatever its keepalives. */
  lemma {:induction false} BusyFlowLives(life: seq<LifeEvent>, idleTimeout: int, born: int, n: nat)
    requires Busy(life, idleTimeout, born) && n <= |life|
    ensures LifeAt(life, idleTimeout, born, n).Some?
  {
    if n > 0 {
      BusyFlowLives(life, idleTimeout, born, n - 1);
      SeenSinceHeard(life, idleTimeout, born, n - 1);
      if life[n - 1].Timer? && life[n - 1].tick.CleanupTick? {
        assert HeardSince(life, n - 1, born, life[n - 1].tick.at - idleTimeout);
      }
    }
  }

  // ----- how long a quiet flow lasts -----

  /** How late a tick can still find the flow. */
  function Deadline(q: Quiet): int {
    q.start.lastSeen + (KEEPALIVE_MAX - q.start.keepalives) * (KEEPALIVE_IDLE + KEEPALIVE_INTERVAL)
    + q.idleTimeout + CLEANUP_INTERVAL
  }

  lemma AliveBeforeDeadline(q: Quiet, n: nat)
    requires Timely(q) && n < |q.ticks| && FlowAt(q, n).Some?
    ensures q.ticks[n].at <= Deadline(q)
  {
    AlwaysKeptFresh(q, n);
    assert OnTime(ClockAt(q, n), q.ticks[n]);
    var f := FlowAt(q, n).value;
    var step := KEEPALIVE_IDLE + KEEPALIVE_INTERVAL;
    var spent, all := f.keepalives - q.start.keepalives, KEEPALIVE_MAX - q.start.keepalives;
    assert (spent + 1) * step == spent * step + step;
    MulMonotone(spent, all, step);
    if f.keepalives < KEEPALIVE_MAX {
      MulMonotone(spent + 1, all, step);
    }
  }

  /**
   * A quiet flow is gone within 150 s for every keepalive it has left, plus the idle timeout, plus one
   * cleanup interval: 4860 s for a flow with all 30 left at the default timeout.
   */
  lemma QuietFlowIsReaped(q: Quiet, n: nat)
    requires Timely(q) && n < |q.ticks| && q.ticks[n].at > Deadline(q)
    ensures FlowAt(q, n) == None
  {
    if FlowAt(q, n).Some? {
      AliveBeforeDeadline(q, n);
    }
  }

  /** At the default timeout a new flow that gets no more traffic is gone after 4860 s. */
  lemma DefaultBound(q: Quiet, n: nat)
    requires Timely(q) && q.start.keepalives == 0 && q.idleTimeout == EffectiveIdleTimeout(0)
    requires n < |q.ticks| && q.ticks[n].at > q.start.lastSeen + 4860_000_000_000
    ensures FlowAt(q, n) == None
  {
    QuietFlowIsReaped(q, n);
  }

  /** Tickers that tick exactly on their intervals, neither early nor late, whatever their phases. */
  ghost predicate OnGrid(q: Quiet) {
    && 0 <= q.clock.now - q.clock.lastKeepalive < KEEPALIVE_INTERVAL && 0 <= q.clock.now - q.clock.lastCleanup < CLEANUP_INTERVAL
    && forall n :: 0 <= n < |q.ticks| ==> Exact(ClockAt(q, n), q.ticks[n])
  }

  predicate Exact(c: Clock, t: Tick) {
    && c.now <= t.at
    && t.at <= c.lastKeepalive + KEEPALIVE_INTERVAL && t.at <= c.lastCleanup + CLEANUP_INTERVAL
    && match t
       case KeepaliveTick(at) => at == c.lastKeepalive + KEEPALIVE_INTERVAL
       case CleanupTick(at) => at == c.lastCleanup + CLEANUP_INTERVAL
  }

  /** The tick n reaps the flow while it still has keepalives to send. */
  predicate ReapedEarly(q: Quiet, n: nat)
    requires n < |q.ticks|
  {
    FlowAt(q, n).Some? && FlowAt(q, n).value.keepalives < 30 && FlowAt(q, n + 1) == None
  }

  ghost predicate NeverReapedEarly(idleTimeout: int) {
    forall q: Quiet, n: nat :: Timely(q) && q.idleTimeout == idleTimeout && n < |q.ticks| ==> !ReapedEarly(q, n)
  }

  lemma PatientTimeout(q: Quiet, n: nat)
    requires Timely(q) && n < |q.ticks| && q.idleTimeout >= KEEPALIVE_IDLE + KEEPALIVE_INTERVAL - 1
    ensures !ReapedEarly(q, n)
  {
    AlwaysKeptFresh(q, n);
    assert OnTime(ClockAt(q, n), q.ticks[n]);
  }

  /**
   * The worst phases: a cleanup two nanoseconds and a keepalive thirty seconds and one nanosecond before the flow was
   * last seen. Two keepalive ticks come too early to find the flow idle, the second by a nanosecond.
   */
  function Impatient(seconds: nat): Quiet {
    Quiet(FlowState(0, 0), Clock(0, -30 * SECOND - 1, -2), seconds * SECOND,
          [CleanupTick(30 * SECOND - 2), KeepaliveTick(30 * SECOND - 1), CleanupTick(60 * SECOND - 2),
           CleanupTick(90 * SECOND - 2), KeepaliveTick(90 * SECOND - 1), CleanupTick(120 * SECOND - 2),
           CleanupTick(150 * SECOND - 2)])
  }

  lemma ImpatientIsTimely(q: Quiet, seconds: nat)
    requires 0 < seconds < 150 && q == Impatient(seconds)
    ensures Timely(q) && OnGrid(q)
  {
    assert ClockAt(q, 1) == Clock(30 * SECOND - 2, -30 * SECOND - 1, 30 * SECOND - 2);
    assert ClockAt(q, 2) == Clock(30 * SECOND - 1, 30 * SECOND - 1, 30 * SECOND - 2);
    assert ClockAt(q, 3) == Clock(60 * SECOND - 2, 30 * SECOND - 1, 60 * SECOND - 2);
    assert ClockAt(q, 4) == Clock(90 * SECOND - 2, 30 * SECOND - 1, 90 * SECOND - 2);
    assert ClockAt(q, 5) == Clock(90 * SECOND - 1, 90 * SECOND - 1, 90 * SECOND - 2);
    assert ClockAt(q, 6) == Clock(120 * SECOND - 2, 90 * SECOND - 1, 120 * SECOND - 2);
  }

  /** The worst phases reap a flow with an impatient timeout at one of the cleanups. */
  lemma ImpatientTimeout(q: Quiet, seconds: nat) returns (n: nat)
    requires 0 < seconds < 150 && q == Impatient(seconds)
    ensures n < |q.ticks| && ReapedEarly(q, n)
  {
    n := 0;
    while n < |q.ticks| && FlowAt(q, n + 1) != None
      invariant n <= |q.ticks| && FlowAt(q, n) == Some(q.start)
    {
      assert FlowAt(q, n + 1) == TickFlow(Some(q.start), q.ticks[n], q.idleTimeout);
      n := n + 1;
    }
    assert FlowAt(q, 7) == TickFlow(FlowAt(q, 6), q.ticks[6], q.idleTimeout);
  }

  /** The same for tickers that tick exactly on their intervals. */
  ghost predicate NeverReapedEarlyOnGrid(idleTimeout: int) {
    forall q: Quiet, n: nat ::
      Timely(q) && OnGrid(q) && q.idleTimeout == idleTimeout && n < |q.ticks| ==> !ReapedEarly(q, n)
  }

  /**
   * For a configured timeout of whole seconds, a flow is never reaped before its remaining keepalives are sent exactly
   * when the timeout is at least 150 s: if ticks may come early and are never late, and also if they are exact.
   */
  lemma NeverReapedEarlyExactly(seconds: nat)
    requires seconds > 0
    ensures NeverReapedEarly(EffectiveIdleTimeout(seconds)) <==> seconds >= 150
    ensures NeverReapedEarlyOnGrid(EffectiveIdleTimeout(seconds)) <==> seconds >= 150
  {
    if seconds >= 150 {
      forall q: Quiet, n: nat | Timely(q) && q.idleTimeout == EffectiveIdleTimeout(seconds) && n < |q.ticks|
        ensures !ReapedEarly(q, n)
      {
        PatientTimeout(q, n);
      }
    } else {
      var q := Impatient(seconds);
      ImpatientIsTimely(q, seconds);
      var n := ImpatientTimeout(q, seconds);
    }
  }
}
