/**
 * One call of `ConnectAndTunnel`: connect, declare the forwards, then keep the session alive until something ends
 * it. What the network does is a script; the method follows it and keeps the statistics and the connection honest.
 */
module Session {
  import opened Bytes

  datatype Proto = Tcp | Udp | Both

  const NONCE_LEN := 16
  const PING_REPLY_LEN := 21
  const HEARTBEAT_RETRIES := 3
  const PING_FAILURE_LIMIT := 2

  // ----- the udp-ping reply -----

  /** Whether the reply passes: long enough, the nonce echoed, the data plane healthy, the configuration current. */
  function ParsePing(nonce: bytes, resp: bytes, proto: Proto): bool {
    if |resp| < PING_REPLY_LEN || resp[..NONCE_LEN] != nonce then false
    else
      var flags := resp[PING_REPLY_LEN - 1];
      if !HasBit(flags, 1) && !proto.Tcp? then false
      else if HasBit(flags, 4) then true
      else !HasBit(flags, 2)
  }

  /** A server's reply, as the format lays it out. */
  function PingReply(nonce: bytes, version: uint32, healthy: bool, changed: bool, unknown: bool): bytes {
    nonce + BE32(version) + [(if healthy then 1 else 0) + (if changed then 2 else 0) + (if unknown then 4 else 0)]
  }

  /**
   * A bad data plane fails udp and dual-stack sessions only; a changed configuration fails unless it is unknown. A reply
   * of fewer than 21 bytes fails, and what follows them is ignored.
   */
  lemma PingPassesExactly(nonce: bytes, echo: bytes, version: uint32, healthy: bool, changed: bool, unknown: bool,
                          more: bytes, k: nat, proto: Proto)
    requires |nonce| == |echo| == 16 && k <= 21 + |more|
    ensures ParsePing(nonce, (PingReply(echo, version, healthy, changed, unknown) + more)[..k], proto)
       <==> k >= 21 && echo == nonce && (healthy || proto == Tcp) && (unknown || !changed)
  {
    var resp := (PingReply(echo, version, healthy, changed, unknown) + more)[..k];
    if k >= 21 {
      assert resp[..16] == echo;
    }
  }

  // ----- the script -----

  datatype Compress = NotAsked | Answered | TimedOut

  datatype Forward = Accepted | Rejected | Failed

  /** The answer to a ping: none in time, an unknown request, or a reply to the nonce that was sent. */
  datatype Ping = NoAnswer | Unsupported | Reply(nonce: bytes, resp: bytes)

  /**
   * What the session loop wakes up for. A heartbeat is tried up to three times, then comes the ping. A user's stop
   * cancels the connection's context too, so the loop may find both ready; it then takes either at random, and
   * `seenAsLoss` is the case that it takes the connection's.
   */
  datatype Event = UserStop(seenAsLoss: bool) | ConnectionLost | Heartbeat(first: bool, second: bool, third: bool, ping: Ping)

  datatype Script = Script(keyLoads: bool, dials: bool, handshakes: bool, compress: Compress, tcp: Forward, udp: Forward,
                           events: seq<Event>)

  datatype TunnelError =
    | KeyError
    | DialError
    | HandshakeError
    | CompressTimeout
    | TcpForward(reason: Forward)
    | UdpForward(reason: Forward)
    | HeartbeatLost
    | PingLost
    | Closed

  /** How a call ends, `Returned(None)` being a nil error; `Running` has not ended within the script. */
  datatype Exit = Returned(error: Option<TunnelError>) | Running

  predicate NeedsTcp(p: Proto) {
    p.Tcp? || p.Both?
  }

  predicate NeedsUdp(p: Proto) {
    p.Udp? || p.Both?
  }

  predicate Connects(s: Script) {
    s.keyLoads && s.dials && s.handshakes
  }

  /** Every forward the protocol needs is accepted. */
  predicate Establishes(s: Script, p: Proto) {
    && Connects(s) && !s.compress.TimedOut?
    && (NeedsTcp(p) ==> s.tcp.Accepted?)
    && (NeedsUdp(p) ==> s.udp.Accepted?)
  }

  /** What each protocol needs: its own forward, or both. */
  lemma EstablishedExactly(s: Script, p: Proto)
    ensures Establishes(s, p)
       <==> && s.keyLoads && s.dials && s.handshakes && s.compress != TimedOut
            && (p != Udp ==> s.tcp == Accepted) && (p != Tcp ==> s.udp == Accepted)
  {
  }

  // ----- how long a session lives -----

  predicate Beats(e: Event) {
    e.Heartbeat? && (e.first || e.second || e.third)
  }

  predicate PingFails(e: Event, p: Proto) {
    e.Heartbeat? && (e.ping.NoAnswer? || (e.ping.Reply? && !ParsePing(e.ping.nonce, e.ping.resp, p)))
  }

  predicate PingRefused(e: Event) {
    e.Heartbeat? && e.ping.Unsupported?
  }

  /** This ping and the next fail, and the server never said before that it does not know the request. */
  predicate TwoFailFrom(events: seq<Event>, p: Proto, i: nat) {
    i + 1 < |events| && PingFails(events[i], p) && PingFails(events[i + 1], p) && NeverRefused(events[..i])
  }

  predicate TwoPingsFail(events: seq<Event>, p: Proto) {
    exists i :: 0 <= i < |events| && TwoFailFrom(events, p, i)
  }

  predicate NeverRefused(events: seq<Event>) {
    forall k :: 0 <= k < |events| ==> !PingRefused(events[k])
  }

  /** The session is still up: only heartbeats that were answered, and never two failed pings in a row. */
  predicate Survives(events: seq<Event>, p: Proto) {
    (forall i :: 0 <= i < |events| ==> Beats(events[i])) && !TwoPingsFail(events, p)
  }

  /** What a wake-up tells: any of three answers is enough; a ping fails without an answer or by its reply. */
  lemma EventsExactly(first: bool, second: bool, third: bool, nonce: bytes, resp: bytes, ping: Ping, p: Proto)
    ensures Beats(Heartbeat(first, second, third, ping)) <==> first || second || third
    ensures PingFails(Heartbeat(first, second, third, NoAnswer), p)
    ensures !PingFails(Heartbeat(first, second, third, Unsupported), p)
    ensures PingFails(Heartbeat(first, second, third, Reply(nonce, resp)), p) <==> !ParsePing(nonce, resp, p)
    ensures PingRefused(Heartbeat(first, second, third, ping)) <==> ping == Unsupported
  {
  }

  /**
   * The session is up exactly as long as every wake-up is a heartbeat that one of its tries answers, and no ping and
   * the next both fail before the server first says that it does not know the request.
   */
  lemma SurvivesExactly(events: seq<Event>, p: Proto)
    ensures Survives(events, p)
       <==> && (forall i :: 0 <= i < |events| ==> Beats(events[i]))
            && (forall i, j :: 0 <= i < j < |events| && j == i + 1 && PingFails(events[i], p) && PingFails(events[j], p) ==>
                  exists k :: 0 <= k < i && PingRefused(events[k]))
  {
    forall i, j | 0 <= i < j < |events| && j == i + 1
      ensures TwoFailFrom(events, p, i)
         <==> PingFails(events[i], p) && PingFails(events[j], p) && !exists k :: 0 <= k < i && PingRefused(events[k])
    {
      assert forall k :: 0 <= k < i ==> events[..i][k] == events[k];
    }
  }

  /** The loop's own bookkeeping. */
  datatype Watch = Up(disabled: bool, failures: nat) | Down(error: Option<TunnelError>)

  function Observe(w: Watch, e: Event, p: Proto): Watch {
    match w
    case Down(_) => w
    case Up(disabled, failures) =>
      if e.UserStop? then Down(if e.seenAsLoss then Some(Closed) else None)
      else if e.ConnectionLost? then Down(Some(Closed))
      else if !Beats(e) then Down(Some(HeartbeatLost))
      else if disabled then w
      else if PingRefused(e) then Up(true, failures)
      else if !PingFails(e, p) then Up(false, 0)
      else if failures + 1 >= PING_FAILURE_LIMIT then Down(Some(PingLost))
      else Up(false, failures + 1)
  }

  function ObserveAll(events: seq<Event>, p: Proto): Watch
    decreases |events|
  {
    if events == [] then Up(false, 0) else Observe(ObserveAll(events[..|events| - 1], p), events[|events| - 1], p)
  }

  ghost predicate WatchOk(events: seq<Event>, p: Proto) {
    match ObserveAll(events, p)
    case Down(_) => !Survives(events, p)
    case Up(disabled, failures) =>
      && Survives(events, p)
      && (disabled <==> !NeverRefused(events))
      && (!disabled ==> failures == if events != [] && PingFails(events[|events| - 1], p) then 1 else 0)
  }

  /** One more event can only add the pair that ends in it. */
  lemma TwoPingsSnoc(init: seq<Event>, e: Event, p: Proto)
    ensures TwoPingsFail(init + [e], p)
       <==> TwoPingsFail(init, p) || (init != [] && TwoFailFrom(init + [e], p, |init| - 1))
  {
    var events := init + [e];
    forall i | 0 <= i < |init| ensures TwoFailFrom(init, p, i) == (i + 1 < |init| && TwoFailFrom(events, p, i)) {
      assert init[..i] == events[..i];
    }
  }

  lemma {:induction false} WatchIsRight(events: seq<Event>, p: Proto)
    ensures WatchOk(events, p)
    decreases |events|
  {
    if events != [] {
      var init, e := events[..|events| - 1], events[|events| - 1];
      WatchIsRight(init, p);
      assert events == init + [e];
      TwoPingsSnoc(init, e, p);
      NeverRefusedSnoc(init, e);
    }
  }

  lemma NeverRefusedSnoc(init: seq<Event>, e: Event)
    ensures NeverRefused(init + [e]) <==> NeverRefused(init) && !PingRefused(e)
    ensures init != [] ==> (NeverRefused(init) <==> NeverRefused(init[..|init| - 1]) && !PingRefused(init[|init| - 1]))
  {
    assert forall k :: 0 <= k < |init| ==> (init + [e])[k] == init[k];
    assert (init + [e])[|init|] == e;
  }

  /** A user's stop comes while the session is up. */
  predicate StopAt(events: seq<Event>, p: Proto, k: nat) {
    k < |events| && events[k].UserStop? && Survives(events[..k], p)
  }

  predicate StoppedByUser(events: seq<Event>, p: Proto) {
    exists k :: 0 <= k < |events| && StopAt(events, p, k)
  }

  /** The stop is seen as what it is. */
  predicate StopSeenAt(events: seq<Event>, p: Proto, k: nat) {
    StopAt(events, p, k) && !events[k].seenAsLoss
  }

  predicate StopSeen(events: seq<Event>, p: Proto) {
    exists k :: 0 <= k < |events| && StopSeenAt(events, p, k)
  }

  lemma StopSeenSnoc(init: seq<Event>, e: Event, p: Proto)
    ensures StopSeen(init + [e], p) <==> StopSeen(init, p) || (e.UserStop? && !e.seenAsLoss && Survives(init, p))
    ensures StopSeen(init, p) ==> !Survives(init, p)
  {
    var events := init + [e];
    forall k | 0 <= k < |init| ensures StopSeenAt(init, p, k) == StopSeenAt(events, p, k) {
      assert init[..k] == events[..k];
    }
    assert events[..|init|] == init;
    assert StopSeenAt(events, p, |init|) == (e.UserStop? && !e.seenAsLoss && Survives(init, p));
  }

  /** The loop ends without an error exactly when a user's stop comes while the session is up and is seen as one. */
  lemma {:induction false} NilIsTheUsersStop(events: seq<Event>, p: Proto)
    ensures ObserveAll(events, p) == Down(None) <==> StopSeen(events, p)
    ensures StopSeen(events, p) ==> StoppedByUser(events, p)
    decreases |events|
  {
    if events != [] {
      var init, e := events[..|events| - 1], events[|events| - 1];
      assert events == init + [e];
      NilIsTheUsersStop(init, p);
      WatchIsRight(init, p);
      StopSeenSnoc(init, e, p);
    }
    if StopSeen(events, p) {
      var k :| 0 <= k < |events| && StopSeenAt(events, p, k);
      assert StopAt(events, p, k);
    }
  }

  /** A user's stop always ends the loop, but with a nil error exactly when it is not taken for a lost connection. */
  lemma StopEndsTheLoop(events: seq<Event>, p: Proto, k: nat)
    requires StopAt(events, p, k)
    ensures ObserveAll(events, p) == Down(if events[k].seenAsLoss then Some(Closed) else None)
  {
    WatchIsRight(events[..k], p);
    assert events[..k + 1][..k] == events[..k];
    DownStays(events, p, k + 1);
  }

  lemma {:induction false} DownStays(events: seq<Event>, p: Proto, k: nat)
    requires k <= |events| && ObserveAll(events[..k], p).Down?
    ensures ObserveAll(events, p) == ObserveAll(events[..k], p)
    decreases |events|
  {
    if k < |events| {
      var init := events[..|events| - 1];
      assert init[..k] == events[..k];
      DownStays(init, p, k);
    } else {
      assert events[..k] == events;
    }
  }

  /** The event that ends a session decides the error: the user, the connection, the heartbeat or the ping. */
  lemma EndsExactly(events: seq<Event>, p: Proto, k: nat)
    requires k < |events| && Survives(events[..k], p) && !Survives(events[..k + 1], p)
    ensures ObserveAll(events, p)
         == Down(match events[k]
                 case UserStop(seenAsLoss) => if seenAsLoss then Some(Closed) else None
                 case ConnectionLost => Some(Closed)
                 case Heartbeat(a, b, c, _) => if a || b || c then Some(PingLost) else Some(HeartbeatLost))
  {
    WatchIsRight(events[..k], p);
    WatchIsRight(events[..k + 1], p);
    assert events[..k + 1][..k] == events[..k];
    DownStays(events, p, k + 1);
  }

  // ----- the call -----

  class StatsManager {
    var online: bool
    var connections: nat
    var failures: nat

    constructor ()
      ensures !online && connections == failures == 0
    {
      online, connections, failures := false, 0, 0;
    }

    method RecordConnection()
      modifies this
      ensures online && connections == old(connections) + 1 && failures == old(failures)
    {
      connections := connections + 1;
      online := true;
    }

    method RecordFailure()
      modifies this
      ensures !online && failures == old(failures) + 1 && connections == old(connections)
    {
      failures := failures + 1;
      online := false;
    }

    method RecordDisconnection()
      modifies `online
      ensures !online
    {
      online := false;
    }
  }

  /** The transport connection; closing the SSH client on it closes it too. */
  class Transport {
    var open: bool

    constructor ()
      ensures open
    {
      open := true;
    }

    method Close()
      modifies this
      ensures !open
    {
      open := false;
    }
  }

  /** Tries the keepalive until it is answered, at most three times. */
  method TryHeartbeat(e: Event) returns (answered: bool)
    requires e.Heartbeat?
    ensures answered == Beats(e)
  {
    var answers := [e.first, e.second, e.third];
    for retry := 0 to HEARTBEAT_RETRIES
      invariant forall k :: 0 <= k < retry ==> !answers[k]
    {
      if answers[retry] {
        return true;
      }
    }
    assert !answers[0] && !answers[1] && !answers[2];
    return false;
  }

  /** One turn of the session loop; `Down` means that it ended, with the connection closed and recorded as lost. */
  method HandleEvent(conn: Transport, stats: StatsManager, proto: Proto, e: Event, udpPingDisabled: bool, udpPingFailures: nat)
    returns (w: Watch)
    requires conn.open && stats.online
    modifies conn, stats`online
    ensures w == Observe(Up(udpPingDisabled, udpPingFailures), e, proto)
    ensures conn.open == stats.online == w.Up?
  {
    match e {
      case UserStop(seenAsLoss) =>
        w := Down(if seenAsLoss then Some(Closed) else None);
      case ConnectionLost =>
        w := Down(Some(Closed));
      case Heartbeat(_, _, _, ping) =>
        var heartbeatSuccess := TryHeartbeat(e);
        if !heartbeatSuccess {
          w := Down(Some(HeartbeatLost));
        } else if udpPingDisabled {
          w := Up(udpPingDisabled, udpPingFailures);
        } else if ping.Unsupported? {
          w := Up(true, udpPingFailures);
        } else if ping.Reply? && ParsePing(ping.nonce, ping.resp, proto) {
          w := Up(false, 0);
        } else if udpPingFailures + 1 >= PING_FAILURE_LIMIT {
          w := Down(Some(PingLost));
        } else {
          w := Up(false, udpPingFailures + 1);
        }
    }
    if w.Down? {
      conn.Close();
      stats.RecordDisconnection();
    }
  }

  /** The session loop. However it ends, the connection is closed and the statistics say offline. */
  method KeepSession(conn: Transport, stats: StatsManager, proto: Proto, events: seq<Event>) returns (exit: Exit)
    requires conn.open && stats.online
    modifies conn, stats`online
    ensures exit.Running? <==> Survives(events, proto)
    ensures exit == Returned(None) <==> StopSeen(events, proto)
    ensures exit == match ObserveAll(events, proto) case Up(_, _) => Running case Down(error) => Returned(error)
    ensures exit.Returned? ==> exit.error in {None, Some(Closed), Some(HeartbeatLost), Some(PingLost)}
    ensures conn.open == stats.online == exit.Running?
  {
    WatchIsRight(events, proto);
    NilIsTheUsersStop(events, proto);
    ErrorsOfTheLoop(events, proto);
    var udpPingDisabled, udpPingFailures := false, 0;
    var i := 0;
    while i < |events|
      invariant i <= |events| && ObserveAll(events[..i], proto) == Up(udpPingDisabled, udpPingFailures)
      invariant conn.open && stats.online
    {
      var w := HandleEvent(conn, stats, proto, events[i], udpPingDisabled, udpPingFailures);
      ObserveNext(events, proto, i);
      if w.Down? {
        DownStays(events, proto, i + 1);
        return Returned(w.error);
      }
      udpPingDisabled, udpPingFailures := w.disabled, w.failures;
      i := i + 1;
    }
    assert events[..i] == events;
    return Running;
  }

  lemma ObserveNext(events: seq<Event>, p: Proto, i: nat)
    requires i < |events|
    ensures ObserveAll(events[..i + 1], p) == Observe(ObserveAll(events[..i], p), events[i], p)
  {
    assert events[..i + 1][..i] == events[..i];
  }

  lemma {:induction false} ErrorsOfTheLoop(events: seq<Event>, p: Proto)
    ensures var w := ObserveAll(events, p);
      w.Down? ==> w.error in {None, Some(Closed), Some(HeartbeatLost), Some(PingLost)}
    decreases |events|
  {
    if events != [] {
      ErrorsOfTheLoop(events[..|events| - 1], p);
    }
  }

  /** Which forward the call fails on, if any. */
  function ForwardError(s: Script, p: Proto): Option<TunnelError> {
    if NeedsTcp(p) && !s.tcp.Accepted? then Some(TcpForward(s.tcp))
    else if NeedsUdp(p) && !s.udp.Accepted? then Some(UdpForward(s.udp))
    else None
  }

  /** How the whole call ends. */
  function CallExit(s: Script, p: Proto): Exit {
    if !s.keyLoads then Returned(Some(KeyError))
    else if !s.dials then Returned(Some(DialError))
    else if !s.handshakes then Returned(Some(HandshakeError))
    else if s.compress.TimedOut? then Returned(Some(CompressTimeout))
    else if ForwardError(s, p).Some? then Returned(ForwardError(s, p))
    else
      match ObserveAll(s.events, p)
      case Up(_, _) => Running
      case Down(error) => Returned(error)
  }

  /** The first step that fails decides the error, whatever the later ones would have done. */
  lemma FailsExactly(s: Script, p: Proto)
    ensures !s.keyLoads ==> CallExit(s, p) == Returned(Some(KeyError))
    ensures s.keyLoads && !s.dials ==> CallExit(s, p) == Returned(Some(DialError))
    ensures s.keyLoads && s.dials && !s.handshakes ==> CallExit(s, p) == Returned(Some(HandshakeError))
    ensures s.keyLoads && s.dials && s.handshakes ==>
      && (s.compress == TimedOut ==> CallExit(s, p) == Returned(Some(CompressTimeout)))
      && (s.compress != TimedOut && p != Udp && s.tcp != Accepted ==> CallExit(s, p) == Returned(Some(TcpForward(s.tcp))))
      && (s.compress != TimedOut && (p == Udp || (p == Both && s.tcp == Accepted)) && s.udp != Accepted ==>
            CallExit(s, p) == Returned(Some(UdpForward(s.udp))))
  {
  }

  /**
   * The whole call. `conn` is the connection it opened, if it got that far, and `established` tells whether it
   * called the hook that reports the tunnel as up.
   */
  method ConnectAndTunnel(proto: Proto, s: Script, stats: StatsManager)
    returns (exit: Exit, conn: Transport?, established: bool)
    modifies stats
    ensures exit == CallExit(s, proto)
    ensures established <==> Establishes(s, proto)
    ensures established <==> s.keyLoads && s.dials && s.handshakes && s.compress != TimedOut
                             && (proto != Udp ==> s.tcp == Accepted) && (proto != Tcp ==> s.udp == Accepted)
    ensures exit.Running? <==> Establishes(s, proto) && Survives(s.events, proto)
    ensures exit == Returned(None) <==> Establishes(s, proto) && StopSeen(s.events, proto)
    ensures exit == Returned(None) ==> StoppedByUser(s.events, proto)
    ensures exit.Returned? ==> !stats.online && (conn != null ==> !conn.open)
    ensures exit.Running? ==> stats.online && conn != null && conn.open
    ensures stats.connections == old(stats.connections) + if Connects(s) then 1 else 0
    ensures stats.failures == old(stats.failures) + if Establishes(s, proto) then 0 else 1
    ensures Connects(s) && !s.compress.TimedOut? && !established ==> exit == Returned(ForwardError(s, proto))
  {
    conn, established := null, false;
    if !s.keyLoads {
      stats.RecordFailure();
      return Returned(Some(KeyError)), conn, established;
    }
    if !s.dials {
      stats.RecordFailure();
      return Returned(Some(DialError)), conn, established;
    }
    conn := new Transport();
    if !s.handshakes {
      stats.RecordFailure();
      conn.Close();
      return Returned(Some(HandshakeError)), conn, established;
    }
    stats.RecordConnection();
    if s.compress.TimedOut? {
      conn.Close();
      stats.RecordFailure();
      return Returned(Some(CompressTimeout)), conn, established;
    }
    var forwarded := DeclareForwards(proto, s);
    if forwarded.Some? {
      conn.Close();
      stats.RecordFailure();
      return Returned(forwarded), conn, established;
    }
    established := true;
    exit := KeepSession(conn, stats, proto, s.events);
    NilIsTheUsersStop(s.events, proto);
  }

  /** A stop that lands while the loop is busy can come back as an error: the caller cannot rely on nil. */
  lemma StopCanReturnAnError(s: Script, p: Proto)
    requires Establishes(s, p) && s.events == [UserStop(true)]
    ensures StoppedByUser(s.events, p) && CallExit(s, p) == Returned(Some(Closed))
  {
    assert s.events[..0] == [] && !TwoPingsFail([], p);
    assert StopAt(s.events, p, 0);
    StopEndsTheLoop(s.events, p, 0);
  }

  /** Declares the forwards of the protocol in order and stops at the first that is not accepted. */
  method DeclareForwards(proto: Proto, s: Script) returns (error: Option<TunnelError>)
    ensures error == ForwardError(s, proto)
    ensures error == None <==> (NeedsTcp(proto) ==> s.tcp.Accepted?) && (NeedsUdp(proto) ==> s.udp.Accepted?)
  {
    match proto
    case Udp =>
      error := if s.udp.Accepted? then None else Some(UdpForward(s.udp));
    case Both =>
      if !s.tcp.Accepted? {
        return Some(TcpForward(s.tcp));
      }
      error := if s.udp.Accepted? then None else Some(UdpForward(s.udp));
    case Tcp =>
      error := if s.tcp.Accepted? then None else Some(TcpForward(s.tcp));
  }

  // ----- the worker's retry loop -----

  /** One turn of the loop: a call, and a cancellation that may come between its return and the test for one. */
  datatype Turn = Turn(call: Script, cancelledAfter: bool)

  /** The worker's context is cancelled when the loop tests it. */
  predicate Cancelled(t: Turn) {
    t.cancelledAfter || exists k :: 0 <= k < |t.call.events| && t.call.events[k].UserStop?
  }

  predicate IsRejection(t: Turn, p: Proto) {
    CallExit(t.call, p) in {Returned(Some(TcpForward(Rejected))), Returned(Some(UdpForward(Rejected)))}
  }

  /** A turn is a rejection exactly when it got as far as the forwards and the first that failed was refused. */
  lemma RejectionExactly(s: Script, cancelledAfter: bool, p: Proto)
    ensures IsRejection(Turn(s, cancelledAfter), p)
       <==> && s.keyLoads && s.dials && s.handshakes && s.compress != TimedOut
            && if p == Udp then s.udp == Rejected
               else s.tcp == Rejected || (p == Both && s.tcp == Accepted && s.udp == Rejected)
  {
    ErrorsOfTheLoop(s.events, p);
  }

  /** A turn the loop counts as a rejection; a cancelled worker leaves the loop first. */
  predicate Counts(t: Turn, p: Proto) {
    !Cancelled(t) && IsRejection(t, p)
  }

  /** A nil error means that the worker is cancelled: the context of the call is the worker's. */
  lemma NilMeansCancelled(t: Turn, p: Proto)
    ensures CallExit(t.call, p) == Returned(None) ==> Cancelled(t)
  {
    NilIsTheUsersStop(t.call.events, p);
    if StoppedByUser(t.call.events, p) {
      var k :| 0 <= k < |t.call.events| && StopAt(t.call.events, p, k);
      assert t.call.events[k].UserStop?;
    }
  }

  /** The streak as the loop keeps it. */
  function BindRejectStreak(turns: seq<Turn>, p: Proto): nat
    decreases |turns|
  {
    if turns == [] then 0
    else
      var streak, last := BindRejectStreak(turns[..|turns| - 1], p), turns[|turns| - 1];
      if Cancelled(last) then streak
      else if IsRejection(last, p) then streak + 1
      else if CallExit(last.call, p) == Returned(None) then 0
      else streak
  }

  function Rejections(turns: seq<Turn>, p: Proto): nat
    decreases |turns|
  {
    if turns == [] then 0
    else Rejections(turns[..|turns| - 1], p) + if Counts(turns[|turns| - 1], p) then 1 else 0
  }

  /** The rejections in a row at the end, which the name of the field promises. */
  function TrailingRejections(turns: seq<Turn>, p: Proto): nat
    decreases |turns|
  {
    if turns == [] then 0
    else
      var init, last := turns[..|turns| - 1], turns[|turns| - 1];
      if Cancelled(last) then TrailingRejections(init, p)
      else if IsRejection(last, p) then TrailingRejections(init, p) + 1
      else 0
  }

  /** The reset on success is never reached: the streak counts every rejection of the worker's life. */
  lemma {:induction false} StreakIsNeverReset(turns: seq<Turn>, p: Proto)
    ensures BindRejectStreak(turns, p) == Rejections(turns, p)
    decreases |turns|
  {
    if turns != [] {
      StreakIsNeverReset(turns[..|turns| - 1], p);
      NilMeansCancelled(turns[|turns| - 1], p);
    }
  }

  /** A rejection, and after it a turn that the loop counts as something else. */
  predicate BrokenAt(turns: seq<Turn>, p: Proto, i: nat, j: nat) {
    i < j < |turns| && Counts(turns[i], p) && !Cancelled(turns[j]) && !IsRejection(turns[j], p)
  }

  predicate Broken(turns: seq<Turn>, p: Proto) {
    exists i, j :: 0 <= i < j < |turns| && BrokenAt(turns, p, i, j)
  }

  lemma BrokenSnoc(init: seq<Turn>, last: Turn, p: Proto)
    ensures Broken(init + [last], p)
       <==> Broken(init, p) || (Rejections(init, p) > 0 && !Cancelled(last) && !IsRejection(last, p))
  {
    var turns := init + [last];
    forall i, j | 0 <= i < j < |init| ensures BrokenAt(init, p, i, j) == BrokenAt(turns, p, i, j) {
    }
    if Rejections(init, p) > 0 {
      var i := SomeRejection(init, p);
      assert BrokenAt(turns, p, i, |init|) == (!Cancelled(last) && !IsRejection(last, p));
    }
    forall i | 0 <= i < |init| && Counts(init[i], p) ensures Rejections(init, p) > 0 {
      RejectionCounts(init, p, i);
    }
  }

  lemma {:induction false} SomeRejection(turns: seq<Turn>, p: Proto) returns (i: nat)
    requires Rejections(turns, p) > 0
    ensures i < |turns| && Counts(turns[i], p)
    decreases |turns|
  {
    if Counts(turns[|turns| - 1], p) {
      i := |turns| - 1;
    } else {
      i := SomeRejection(turns[..|turns| - 1], p);
    }
  }

  lemma {:induction false} RejectionCounts(turns: seq<Turn>, p: Proto, i: nat)
    requires i < |turns| && Counts(turns[i], p)
    ensures Rejections(turns, p) > 0
    decreases |turns|
  {
    if i < |turns| - 1 {
      RejectionCounts(turns[..|turns| - 1], p, i);
    }
  }

  /** So the streak is the rejections in a row exactly when none was ever followed by another kind of failure. */
  lemma {:induction false} StreakIsConsecutiveExactly(turns: seq<Turn>, p: Proto)
    ensures BindRejectStreak(turns, p) == TrailingRejections(turns, p) <==> !Broken(turns, p)
    ensures TrailingRejections(turns, p) <= Rejections(turns, p)
    decreases |turns|
  {
    StreakIsNeverReset(turns, p);
    if turns != [] {
      var init, last := turns[..|turns| - 1], turns[|turns| - 1];
      StreakIsConsecutiveExactly(init, p);
      StreakIsNeverReset(init, p);
      BrokenSnoc(init, last, p);
      assert init + [last] == turns;
    }
  }

  function Refused(): Script {
    Script(true, true, true, NotAsked, Rejected, Accepted, [])
  }

  function Unreachable(): Script {
    Script(true, false, false, NotAsked, Accepted, Accepted, [])
  }

  /** A rejection, a failed dial and a rejection make a streak of two. */
  lemma StreakOfTwo(turns: seq<Turn>)
    requires turns == [Turn(Refused(), false), Turn(Unreachable(), false), Turn(Refused(), false)]
    ensures BindRejectStreak(turns, Tcp) == 2 && TrailingRejections(turns, Tcp) == 1
  {
    assert turns[..2][..1] == turns[..1] && turns[..1][..0] == [];
    assert BindRejectStreak(turns[..1], Tcp) == 1 && BindRejectStreak(turns[..2], Tcp) == 1;
    assert TrailingRejections(turns[..2], Tcp) == 0;
  }

  /** The loop itself, from the start of a worker until it is cancelled or the turns at hand are used up. */
  method RunWorker(turns: seq<Turn>, proto: Proto, stats: StatsManager) returns (streak: int, ghost used: nat)
    requires forall i :: 0 <= i < |turns| ==> CallExit(turns[i].call, proto).Returned?
    modifies stats
    ensures used <= |turns| && (used == |turns| || Cancelled(turns[used]))
    ensures forall i :: 0 <= i < used ==> !Cancelled(turns[i])
    ensures streak == BindRejectStreak(turns[..used], proto)
    ensures turns != [] ==> !stats.online
  {
    streak, used := 0, 0;
    var i := 0;
    while i < |turns|
      invariant used == i <= |turns| && (forall k :: 0 <= k < i ==> !Cancelled(turns[k]))
      invariant streak == BindRejectStreak(turns[..i], proto)
      invariant i > 0 ==> !stats.online
    {
      var exit, conn, established := ConnectAndTunnel(proto, turns[i].call, stats);
      if Cancelled(turns[i]) {
        return;
      }
      assert turns[..i + 1][..i] == turns[..i];
      if exit == Returned(Some(TcpForward(Rejected))) || exit == Returned(Some(UdpForward(Rejected))) {
        streak := streak + 1;
      } else if exit == Returned(None) {
        streak := 0;
      }
      i, used := i + 1, used + 1;
    }
  }
}
