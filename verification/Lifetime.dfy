/**
 * Restarting an idle worker past its lifetime. Every supervisor tick checks each worker; the check remembers when it
 * last saw the byte counter move.
 */
module Lifetime {
  import opened Bytes

  const SECOND := 1_000_000_000
  const IDLE_INTERVAL := 30 * SECOND

  /** What a check finds: the clock, the worker's status and start, and its byte counter. */
  datatype Tick = Tick(now: int, online: bool, hasConfig: bool, startTime: int, bytes: int)

  /** When the counter was last recorded, if ever, and what it was. */
  datatype Memory = Memory(lastCheck: Option<int>, lastBytes: int)

  /** The check does not stop at the worker's status or age. */
  predicate Examined(maxLifetime: int, t: Tick) {
    maxLifetime > 0 && t.online && t.hasConfig && t.now - t.startTime >= maxLifetime * SECOND
  }

  function Remember(maxLifetime: int, m: Memory, t: Tick): Memory {
    if !Examined(maxLifetime, t) || (m.lastCheck.Some? && m.lastBytes == t.bytes) then m
    else Memory(Some(t.now), t.bytes)
  }

  predicate Restarts(maxLifetime: int, m: Memory, t: Tick) {
    Examined(maxLifetime, t) && m.lastCheck.Some? && m.lastBytes == t.bytes && t.now - m.lastCheck.value >= IDLE_INTERVAL
  }

  class WorkerInfo {
    const maxLifetime: int
    var online: bool
    var hasConfig: bool
    var startTime: int
    var lastCheckTime: Option<int>
    var lastBytesCheck: int

    constructor (maxLifetime: int, startTime: int)
      ensures this.maxLifetime == maxLifetime && this.startTime == startTime && !online && hasConfig
      ensures State() == Memory(None, 0)
    {
      this.maxLifetime, this.startTime, online, hasConfig := maxLifetime, startTime, false, true;
      lastCheckTime, lastBytesCheck := None, 0;
    }

    function State(): Memory
      reads this
    {
      Memory(lastCheckTime, lastBytesCheck)
    }

    method CheckWorkerLifetime(now: int, currentBytes: int) returns (restart: bool)
      modifies `lastCheckTime, `lastBytesCheck
      ensures restart == Restarts(maxLifetime, old(State()), Tick(now, online, hasConfig, startTime, currentBytes))
      ensures State() == Remember(maxLifetime, old(State()), Tick(now, online, hasConfig, startTime, currentBytes))
    {
      if maxLifetime <= 0 || !online || !hasConfig {
        return false;
      }
      var elapsed := now - startTime;
      if elapsed < maxLifetime * SECOND {
        return false;
      }
      if lastCheckTime == None || lastBytesCheck == currentBytes {
        if lastCheckTime != None && now - lastCheckTime.value >= IDLE_INTERVAL {
          return true;
        }
        if lastCheckTime == None {
          lastCheckTime, lastBytesCheck := Some(now), currentBytes;
        }
      } else {
        lastCheckTime, lastBytesCheck := Some(now), currentBytes;
      }
      return false;
    }
  }

  // ----- over a sequence of ticks -----

  function MemoryAfter(maxLifetime: int, ticks: seq<Tick>, n: nat): Memory
    requires n <= |ticks|
  {
    if n == 0 then Memory(None, 0) else Remember(maxLifetime, MemoryAfter(maxLifetime, ticks, n - 1), ticks[n - 1])
  }

  predicate Signalled(maxLifetime: int, ticks: seq<Tick>, n: nat)
    requires n < |ticks|
  {
    Restarts(maxLifetime, MemoryAfter(maxLifetime, ticks, n), ticks[n])
  }

  /** Time only moves forward. The byte counter may do anything: it starts anew with every connection's statistics. */
  ghost predicate Forward(ticks: seq<Tick>) {
    forall i, j :: 0 <= i < j < |ticks| ==> ticks[i].now <= ticks[j].now
  }

  /** No examined tick from i up to n found another byte count. */
  ghost predicate StandsStill(maxLifetime: int, ticks: seq<Tick>, i: nat, n: nat, bytes: int)
    requires n <= |ticks|
  {
    forall k :: i <= k < n && Examined(maxLifetime, ticks[k]) ==> ticks[k].bytes == bytes
  }

  /** What is remembered is the first check that found this counter since it last moved. */
  lemma {:induction false} MemoryIsACheck(maxLifetime: int, ticks: seq<Tick>, n: nat) returns (i: nat)
    requires n <= |ticks| && MemoryAfter(maxLifetime, ticks, n).lastCheck.Some?
    ensures i < n && Examined(maxLifetime, ticks[i])
    ensures MemoryAfter(maxLifetime, ticks, n) == Memory(Some(ticks[i].now), ticks[i].bytes)
    ensures StandsStill(maxLifetime, ticks, i, n, ticks[i].bytes)
  {
    if MemoryAfter(maxLifetime, ticks, n) == MemoryAfter(maxLifetime, ticks, n - 1) {
      i := MemoryIsACheck(maxLifetime, ticks, n - 1);
    } else {
      i := n - 1;
    }
  }

  /** While the counter stands still, the memory keeps a time no later than the first check that found it. */
  lemma {:induction false} MemoryStands(maxLifetime: int, ticks: seq<Tick>, i: nat, n: nat)
    requires Forward(ticks) && i < n <= |ticks| && Examined(maxLifetime, ticks[i])
    requires StandsStill(maxLifetime, ticks, i, n, ticks[i].bytes)
    ensures var m := MemoryAfter(maxLifetime, ticks, n);
      m.lastBytes == ticks[i].bytes && m.lastCheck.Some? && m.lastCheck.value <= ticks[i].now
    decreases n
  {
    if n == i + 1 {
      if MemoryAfter(maxLifetime, ticks, i).lastCheck.Some? {
        var k := MemoryIsACheck(maxLifetime, ticks, i);
      }
    } else {
      MemoryStands(maxLifetime, ticks, i, n - 1);
    }
  }

  /** The worker is online, has a configuration and is past its lifetime, which only a positive limit sets. */
  lemma ExaminedExactly(maxLifetime: int, now: int, online: bool, hasConfig: bool, startTime: int, bytes: int)
    ensures Examined(maxLifetime, Tick(now, online, hasConfig, startTime, bytes))
       <==> maxLifetime > 0 && online && hasConfig && now - startTime >= maxLifetime * 1_000_000_000
  {
  }

  /**
   * A tick signals a restart exactly when it finds the worker online and past its lifetime, an earlier such tick at
   * least thirty seconds before found the same byte count, and so did every such tick between the two.
   */
  lemma RestartExactly(maxLifetime: int, ticks: seq<Tick>, n: nat)
    requires Forward(ticks) && n < |ticks|
    ensures Signalled(maxLifetime, ticks, n)
       <==> && maxLifetime > 0 && ticks[n].online && ticks[n].hasConfig
            && ticks[n].now - ticks[n].startTime >= maxLifetime * 1_000_000_000
            && exists i :: 0 <= i < n && ticks[n].now - ticks[i].now >= 30_000_000_000
                           && ticks[i].bytes == ticks[n].bytes && Examined(maxLifetime, ticks[i])
                           && StandsStill(maxLifetime, ticks, i, n, ticks[n].bytes)
  {
    if Signalled(maxLifetime, ticks, n) {
      var i := MemoryIsACheck(maxLifetime, ticks, n);
    }
    forall i | 0 <= i < n && ticks[n].now - ticks[i].now >= 30_000_000_000 && ticks[i].bytes == ticks[n].bytes
      && Examined(maxLifetime, ticks[i]) && StandsStill(maxLifetime, ticks, i, n, ticks[n].bytes)
      ensures Examined(maxLifetime, ticks[n]) ==> Signalled(maxLifetime, ticks, n)
    {
      MemoryStands(maxLifetime, ticks, i, n);
    }
  }

  /** Where the counter never moves backwards, it did not move at all between the two ticks, examined or not. */
  lemma RestartedWorkersWereIdle(maxLifetime: int, ticks: seq<Tick>, n: nat) returns (i: nat)
    requires n < |ticks| && Signalled(maxLifetime, ticks, n)
    requires forall j, k :: 0 <= j < k < |ticks| ==> ticks[j].bytes <= ticks[k].bytes
    ensures i < n && ticks[n].now - ticks[i].now >= 30_000_000_000
    ensures forall k :: i <= k <= n ==> ticks[k].bytes == ticks[n].bytes
  {
    i := MemoryIsACheck(maxLifetime, ticks, n);
  }
}
