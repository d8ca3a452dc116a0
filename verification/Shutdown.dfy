/** The daemon's escalating shutdown, on a simulated clock. */
module Shutdown {
  import opened Common

  type Millis = nat

  datatype Profile = Profile(httpGrace: Millis, reqKillGrace: Millis, wsGrace: Millis)

  /** How the transports behave: when each would close by itself, counted from
      the stop signal, and how long it takes once it is cancelled. A cancelled
      request need not end; a cancelled websocket does. */
  datatype World = World(
    server: Option<Millis>, serverAfterKill: Option<Millis>,
    sockets: Option<Millis>, socketsAfterKill: Millis)

  datatype Event = Stopped | RequestsCancelled | ServerFinished | ServerAborted
                 | SocketsCancelled | SocketsDrained | EngineDown

  datatype Stamped = At(time: Millis, event: Event)

  function Earlier(a: Option<Millis>, b: Option<Millis>): Option<Millis> {
    if a.None? then b else if b.None? then a else if a.value <= b.value then a else b
  }

  function Min(a: nat, b: nat): nat {
    if a <= b then a else b
  }

  function Max(a: nat, b: nat): nat {
    if a <= b then b else a
  }

  /** When the server task ends, given when its requests were cancelled. */
  function ServerEnd(w: World, killed: Option<Millis>): Option<Millis> {
    if killed.None? || w.serverAfterKill.None? then w.server
    else Earlier(w.server, Some(killed.value + w.serverAfterKill.value))
  }

  function SocketsEnd(w: World, killed: Option<Millis>): Option<Millis> {
    if killed.None? then w.sockets else Earlier(w.sockets, Some(killed.value + w.socketsAfterKill))
  }

  /** `tokio::time::timeout`: the time it returns, and whether the future won. */
  function Timeout(now: Millis, grace: Millis, end: Option<Millis>): (Millis, bool) {
    if end.Some? && end.value <= now + grace then (if end.value < now then now else end.value, true)
    else (now + grace, false)
  }

  ghost predicate Ordered(log: seq<Stamped>) {
    forall i, j :: 0 <= i < j < |log| ==> log[i].time <= log[j].time
  }

  ghost predicate ServerGone(s: Stamped) { s.event == ServerFinished || s.event == ServerAborted }

  lemma Joined(a: seq<Stamped>, b: seq<Stamped>, t: Millis)
    requires Ordered(a) && Ordered(b)
    requires forall i :: 0 <= i < |a| ==> a[i].time <= t
    requires forall i :: 0 <= i < |b| ==> t <= b[i].time
    ensures Ordered(a + b)
  {}

  /** Waiting for the server, then cancelling its requests, then aborting it. */
  method StopServer(p: Profile, w: World) returns (log: seq<Stamped>, now: Millis)
    ensures Ordered(log) && |log| >= 2 && log[0] == At(0, Stopped)
    ensures ServerGone(log[|log| - 1]) && log[|log| - 1].time == now
    // requests are cancelled exactly when the server outlives its grace, at the end of it
    ensures if w.server.Some? && w.server.value <= p.httpGrace then |log| == 2
            else |log| == 3 && log[1] == At(p.httpGrace, RequestsCancelled)
    // and the server is aborted exactly when it outlives the second grace as well
    ensures
      var own := w.server.Some? && w.server.value <= p.httpGrace + p.reqKillGrace;
      var unblocked := w.serverAfterKill.Some? && w.serverAfterKill.value <= p.reqKillGrace;
      && log[|log| - 1].event == (if own || unblocked then ServerFinished else ServerAborted)
      && (!own && !unblocked ==> now == p.httpGrace + p.reqKillGrace)
      && (|log| == 2 ==> w.server == Some(now))
      && (|log| == 3 && own && unblocked ==> now == Min(w.server.value, p.httpGrace + w.serverAfterKill.value))
      && (|log| == 3 && own && !unblocked ==> now == w.server.value)
      && (|log| == 3 && !own && unblocked ==> now == p.httpGrace + w.serverAfterKill.value)
    ensures
      var end := ServerEnd(w, Some(p.httpGrace));
      if end.Some? && end.value <= p.httpGrace + p.reqKillGrace then log[|log| - 1] == At(end.value, ServerFinished)
      else log[|log| - 1] == At(p.httpGrace + p.reqKillGrace, ServerAborted)
  {
    log := [At(0, Stopped)];
    var (now0, closed) := Timeout(0, p.httpGrace, ServerEnd(w, None));
    now := now0;
    if !closed {
      log := log + [At(now, RequestsCancelled)];
      var (now1, closed1) := Timeout(now, p.reqKillGrace, ServerEnd(w, Some(now)));
      now, closed := now1, closed1;
    }
    log := log + [At(now, if closed then ServerFinished else ServerAborted)];
  }

  ghost predicate SocketsLate(p: Profile, w: World, gone: Millis) {
    w.sockets.None? || w.sockets.value > gone + p.wsGrace
  }

  /** At once if they had closed before, else when they close, by themselves or
      because they were cancelled. */
  ghost function DrainedAt(p: Profile, w: World, gone: Millis): Millis {
    if !SocketsLate(p, w, gone) then Max(gone, w.sockets.value)
    else if w.sockets.None? then gone + p.wsGrace + w.socketsAfterKill
    else Min(w.sockets.value, gone + p.wsGrace + w.socketsAfterKill)
  }

  /** Waiting for the sockets, then cancelling them and waiting again. */
  method StopSockets(p: Profile, w: World, gone: Millis) returns (log: seq<Stamped>, now: Millis)
    ensures Ordered(log) && gone <= now <= gone + p.wsGrace + w.socketsAfterKill
    ensures now == DrainedAt(p, w, gone)
    ensures log == if SocketsLate(p, w, gone)
                   then [At(gone + p.wsGrace, SocketsCancelled), At(now, SocketsDrained)]
                   else [At(now, SocketsDrained)]
  {
    log := [];
    var (now0, drained) := Timeout(gone, p.wsGrace, SocketsEnd(w, None));
    now := now0;
    if !drained {
      log := [At(now, SocketsCancelled)];
      now := SocketsEnd(w, Some(now)).value;
    }
    log := log + [At(now, SocketsDrained)];
  }

  /** Where the log says that the server is gone. */
  ghost function GoneIndex(p: Profile, w: World): nat {
    if w.server.Some? && w.server.value <= p.httpGrace then 1 else 2
  }

  /** The stages, read off the log: which event stands where, and no other time. */
  ghost predicate Staged(p: Profile, w: World, log: seq<Stamped>) {
    var k := GoneIndex(p, w);
    && |log| >= k + 3
    && (forall i :: 0 <= i < |log| ==> (log[i].event == Stopped <==> i == 0))
    && (forall i :: 0 <= i < |log| ==> (log[i].event == RequestsCancelled <==> i == 1 && k == 2))
    && (forall i :: 0 <= i < |log| ==> (ServerGone(log[i]) <==> i == k))
    && (forall i :: 0 <= i < |log| ==>
         (log[i].event == SocketsCancelled <==> i == k + 1 && SocketsLate(p, w, log[k].time)))
    && (forall i :: 0 <= i < |log| ==> (log[i].event == SocketsDrained <==> i == |log| - 2))
    && log[|log| - 2].time == DrainedAt(p, w, log[k].time)
    && (forall i :: 0 <= i < |log| ==> (log[i].event == EngineDown <==> i == |log| - 1))
  }

  /** No cancellation fires before its own grace has run out. */
  ghost predicate Patient(p: Profile, w: World, log: seq<Stamped>)
    requires |log| > GoneIndex(p, w)
  {
    forall s :: s in log ==> PatientStep(p, w, log[GoneIndex(p, w)].time, s)
  }

  /** `Daemon::stop_with`: each stage appends what it did, when it did it. The
      engine goes down once, last; before it the server is gone and the sockets
      are drained, once each, whatever the transports do. */
  method StopWith(p: Profile, w: World) returns (log: seq<Stamped>)
    ensures Ordered(log) && Staged(p, w, log) && Patient(p, w, log)
    ensures log[|log| - 1].time <= p.httpGrace + p.reqKillGrace + p.wsGrace + w.socketsAfterKill
  {
    var server, gone := StopServer(p, w);
    var sockets, now := StopSockets(p, w, gone);
    var rest := sockets + [At(now, EngineDown)];
    log := server + rest;
    Joined(server, rest, gone);
    StagedWhen(p, w, server, gone, rest, now);
    PatientWhen(p, w, server, rest, gone);
  }

  ghost predicate PatientStep(p: Profile, w: World, gone: Millis, s: Stamped) {
    match s.event
    case RequestsCancelled => s.time == p.httpGrace && (w.server.None? || w.server.value > s.time)
    case ServerAborted =>
      var end := ServerEnd(w, Some(p.httpGrace));
      s.time == p.httpGrace + p.reqKillGrace && (end.None? || end.value > s.time)
    case SocketsCancelled => s.time == gone + p.wsGrace && (w.sockets.None? || w.sockets.value > s.time)
    case _ => true
  }

  lemma PatientWhen(p: Profile, w: World, server: seq<Stamped>, rest: seq<Stamped>, gone: Millis)
    requires |server| == GoneIndex(p, w) + 1 && server[|server| - 1].time == gone
    requires forall i :: 0 <= i < |server| ==> PatientStep(p, w, gone, server[i])
    requires forall i :: 0 <= i < |rest| ==> PatientStep(p, w, gone, rest[i])
    ensures Patient(p, w, server + rest)
  {
    assert (server + rest)[GoneIndex(p, w)] == server[GoneIndex(p, w)];
  }

  lemma StagedWhen(p: Profile, w: World, server: seq<Stamped>, gone: Millis, rest: seq<Stamped>, now: Millis)
    requires |server| == GoneIndex(p, w) + 1
    requires server[0].event == Stopped && (|server| == 3 ==> server[1].event == RequestsCancelled)
    requires ServerGone(server[|server| - 1]) && server[|server| - 1].time == gone
    requires now == DrainedAt(p, w, gone)
    requires rest == (if SocketsLate(p, w, gone) then [At(gone + p.wsGrace, SocketsCancelled)] else [])
                     + [At(now, SocketsDrained), At(now, EngineDown)]
    ensures Staged(p, w, server + rest)
  {
    var log := server + rest;
    var k := |server| - 1;
    assert log[k] == server[k];
    forall i | 0 <= i < |log|
      ensures log[i] == if i <= k then server[i] else rest[i - k - 1]
    {}
  }
}
