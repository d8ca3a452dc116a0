/** Session-stats requests carry no token: the registry matches responses by
    position. These are the facts that make the match sound. */
module StatsOrder {
  import opened Common
  import opened Bitfields
  import opened Protocol

  function StatsIn(alerts: seq<Alert>): seq<nat> {
    if alerts == [] then []
    else if alerts[0].StatsAlert? then [alerts[0].request] + StatsIn(alerts[1..])
    else StatsIn(alerts[1..])
  }

  /** The stats responses libtorrent still owes, oldest first; those already
      dropped stay owed until their `alerts_dropped` alert is processed. */
  function Owed(lib: Lib): seq<nat> {
    StatsIn(lib.batch) + OwedLater(lib)
  }

  function OwedLater(lib: Lib): seq<nat> {
    lib.batchLost + (StatsIn(lib.queue) + (lib.lost + lib.posted))
  }

  function Range(lo: nat, hi: nat): (r: seq<nat>)
    requires lo <= hi
  {
    seq(hi - lo, i requires 0 <= i < hi - lo => lo + i)
  }

  ghost predicate IsSuffix(s: seq<nat>, t: seq<nat>) {
    |s| <= |t| && s == t[|t| - |s|..]
  }

  /** No processed alert reported a dropped stats response. */
  ghost predicate NoStatsOverflow(log: seq<Alert>) {
    forall i :: 0 <= i < |log| ==> !StatsDropped(log[i])
  }

  ghost predicate DropsAtEnd(lib: Lib) {
    && (forall t :: t in lib.droppedTypes ==> t < 128)
    && (lib.lost != [] ==> ALERT_SESSION_STATS in lib.droppedTypes)
    && (forall i :: 0 <= i < |lib.queue| ==> !lib.queue[i].DroppedAlert?)
    && (forall i :: 0 <= i < |lib.batch| - 1 ==> !lib.batch[i].DroppedAlert?)
    && (lib.batchLost != [] ==> lib.batch != [] && StatsDropped(lib.batch[|lib.batch| - 1]))
  }

  ghost predicate InOrder(s: State) {
    DropsAtEnd(s.lib) && PendingInOrder(s.reg, s.log, Owed(s.lib), s.lib.nextStats)
  }

  lemma {:induction false} StatsInConcat(a: seq<Alert>, b: seq<Alert>)
    ensures StatsIn(a + b) == StatsIn(a) + StatsIn(b)
  {
    if a == [] {
      assert a + b == b;
    } else {
      StatsInConcat(a[1..], b);
      assert (a + b)[1..] == a[1..] + b;
      if a[0].StatsAlert? {
        Assoc([a[0].request], StatsIn(a[1..]), StatsIn(b));
      }
    }
  }

  lemma OwedEmit(lib: Lib, a: Alert, ty: nat, drop: bool)
    requires !a.StatsAlert?
    ensures Owed(Emit(lib, a, ty, drop)) == Owed(lib)
  {
    StatsInConcat(lib.queue, [a]);
    assert StatsIn([a]) == [];
    assert StatsIn(lib.queue) + [] == StatsIn(lib.queue);
  }

  lemma OwedPop(lib: Lib)
    requires DropsAtEnd(lib) && lib.batch == []
    ensures Owed(Popped(lib)) == Owed(lib)
  {
    StatsInConcat(lib.queue, Closing(lib.droppedTypes));
    assert StatsIn(Closing(lib.droppedTypes)) == [];
    assert lib.batchLost == [];
    Assoc(StatsIn(lib.queue), lib.lost, lib.posted);
  }

  lemma OwedAnswered(lib: Lib, drop: bool)
    requires DropsAtEnd(lib) && lib.posted != []
    requires !drop ==> ALERT_SESSION_STATS !in lib.droppedTypes
    ensures Owed(StatsAnswered(lib, drop)) == Owed(lib)
  {
    var n := lib.posted[0];
    assert lib.posted == [n] + lib.posted[1..];
    if drop {
      Assoc(lib.lost, [n], lib.posted[1..]);
    } else {
      assert lib.lost == [];
      StatsInConcat(lib.queue, [StatsAlert(n)]);
      assert StatsIn([StatsAlert(n)]) == [n];
      Assoc(StatsIn(lib.queue), [n], lib.posted[1..]);
    }
  }

  lemma OwedPosted(lib: Lib, n: nat)
    ensures Owed(lib.(posted := lib.posted + [n], nextStats := n + 1)) == Owed(lib) + [n]
  {
    Assoc(lib.lost, lib.posted, [n]);
    Assoc(StatsIn(lib.queue), lib.lost + lib.posted, [n]);
    Assoc(lib.batchLost, StatsIn(lib.queue) + (lib.lost + lib.posted), [n]);
    Assoc(StatsIn(lib.batch), OwedLater(lib), [n]);
  }

  /** What is left owed once the head of the batch was processed. */
  lemma OwedProcessed(lib: Lib)
    requires lib.batch != [] && DropsAtEnd(lib)
    ensures var owed, owed' := Owed(lib), Owed(Advanced(lib));
      match lib.batch[0]
      case StatsAlert(m) => owed == [m] + owed'
      case DroppedAlert(_) => owed == lib.batchLost + owed'
      case _ => owed' == owed
  {
    if lib.batch[0].DroppedAlert? {
      assert |lib.batch| == 1;
    } else if lib.batch[0].StatsAlert? {
      Assoc([lib.batch[0].request], StatsIn(lib.batch[1..]), OwedLater(lib));
    }
  }

  /** Only posting and processing change what is owed. */
  lemma OwedStep(s: State, a: Action)
    requires Enabled(s, a) && DropsAtEnd(s.lib) && !a.ProcessNext?
    ensures Owed(Step(s, a).lib) ==
      if a.EnqueueStats? && a.postOk && !s.reg.closed then Owed(s.lib) + [s.lib.nextStats] else Owed(s.lib)
  {
    match a
    case EnqueueStats(_) => OwedPosted(s.lib, s.lib.nextStats);
    case Pop => OwedPop(s.lib);
    case LibStats(drop) => OwedAnswered(s.lib, drop);
    case LibAdd(t, result, drop) =>
      OwedEmit(s.lib.(stages := s.lib.stages[t := if Surviving(t, result) then Live else Rejected]),
               AddAlert(t, result), ALERT_ADD_TORRENT, drop);
    case LibRemoved(t, drop) =>
      OwedEmit(s.lib.(stages := s.lib.stages[t := Removed]), RemovedAlert(t), ALERT_TORRENT_REMOVED, drop);
    case LibOther(ty, drop) => OwedEmit(s.lib, OtherAlert, ty, drop);
    case _ =>
  }

  lemma DropsAtEndStep(s: State, a: Action)
    requires Enabled(s, a) && DropsAtEnd(s.lib)
    ensures DropsAtEnd(Step(s, a).lib)
  {
    if a.Pop? && s.lib.droppedTypes != {} {
      DroppedAgrees(s.lib.droppedTypes, ALERT_SESSION_STATS);
    }
  }

  /** The order facts, freed of how the lists are stored. */
  ghost predicate Ordered(pending: seq<nat>, owed: seq<nat>, next: nat) {
    |owed| <= next && owed == Range(next - |owed|, next) && IsSuffix(pending, owed)
  }

  lemma OrderedDrop(pending: seq<nat>, owed: seq<nat>, next: nat, gone: seq<nat>, rest: seq<nat>)
    requires Ordered(pending, owed, next) && owed == gone + rest
    ensures Ordered([], rest, next)
    ensures |pending| <= |rest| ==> Ordered(pending, rest, next)
    ensures |gone| == 1 && pending != [] ==> Ordered(pending[1..], rest, next)
    ensures pending == owed && |gone| == 1 ==> pending[1..] == rest
  {
    assert rest == owed[|gone|..];
  }

  ghost predicate PendingInOrder(r: Inner, log: seq<Alert>, owed: seq<nat>, next: nat) {
    && Ordered(r.stats, owed, next)
    && (r.closed ==> r.stats == [])
    && (!r.closed && NoStatsOverflow(log) ==> r.stats == owed)
  }

  lemma NoOverflowBefore(log: seq<Alert>, a: Alert)
    ensures NoStatsOverflow(log + [a]) <==> NoStatsOverflow(log) && !StatsDropped(a)
  {
    assert (log + [a])[|log|] == a;
    assert forall i :: 0 <= i < |log| ==> (log + [a])[i] == log[i];
  }

  lemma InOrderAnswered(r: Inner, log: seq<Alert>, m: nat, owed: seq<nat>, owed': seq<nat>, next: nat)
    requires PendingInOrder(r, log, owed, next) && owed == [m] + owed'
    ensures PendingInOrder(Resolve(r, StatsAlert(m)).0, log + [StatsAlert(m)], owed', next)
  {
    NoOverflowBefore(log, StatsAlert(m));
    OrderedDrop(r.stats, owed, next, [m], owed');
  }

  lemma InOrderDrained(r: Inner, log: seq<Alert>, alert: Alert, lost: seq<nat>,
                       owed: seq<nat>, owed': seq<nat>, next: nat)
    requires PendingInOrder(r, log, owed, next) && alert.DroppedAlert? && owed == lost + owed'
    requires !StatsDropped(alert) ==> lost == []
    ensures PendingInOrder(Resolve(r, alert).0, log + [alert], owed', next)
  {
    NoOverflowBefore(log, alert);
    if StatsDropped(alert) {
      OrderedDrop(r.stats, owed, next, lost, owed');
    } else {
      assert owed' == owed;
    }
  }

  lemma InOrderUnrelated(r: Inner, log: seq<Alert>, alert: Alert, owed: seq<nat>, next: nat)
    requires PendingInOrder(r, log, owed, next) && !alert.StatsAlert? && !alert.DroppedAlert?
    ensures PendingInOrder(Resolve(r, alert).0, log + [alert], owed, next)
  {
    NoOverflowBefore(log, alert);
  }

  lemma OrderedPost(pending: seq<nat>, owed: seq<nat>, next: nat)
    requires Ordered(pending, owed, next)
    ensures Ordered(pending + [next], owed + [next], next + 1)
  {
  }

  lemma StatsUntouched(s: State, a: Action)
    requires Enabled(s, a) && !a.ProcessNext? && !a.EnqueueStats? && !a.Close?
    ensures var s' := Step(s, a);
      && s'.reg.stats == s.reg.stats && s'.reg.closed == s.reg.closed
      && s'.log == s.log && s'.lib.nextStats == s.lib.nextStats
  {
  }

  lemma InOrderKept(r: Inner, r': Inner, log: seq<Alert>, owed: seq<nat>, next: nat)
    requires PendingInOrder(r, log, owed, next)
    requires r'.stats == r.stats && r'.closed == r.closed
    ensures PendingInOrder(r', log, owed, next)
  {
  }

  lemma InOrderPosted(s: State, ok: bool, owed: seq<nat>)
    requires PendingInOrder(s.reg, s.log, owed, s.lib.nextStats)
    ensures var s' := StatsEnqueued(s, ok);
      PendingInOrder(s'.reg, s'.log, if ok && !s.reg.closed then owed + [s.lib.nextStats] else owed, s'.lib.nextStats)
  {
    OrderedPost(s.reg.stats, owed, s.lib.nextStats);
  }

  lemma InOrderClosed(s: State, owed: seq<nat>)
    requires PendingInOrder(s.reg, s.log, owed, s.lib.nextStats)
    ensures PendingInOrder(RegistryClosed(s).reg, s.log, owed, s.lib.nextStats)
  {
    OrderedDrop(s.reg.stats, owed, s.lib.nextStats, [], owed);
  }

  lemma InOrderOther(s: State, a: Action, owed: seq<nat>)
    requires Enabled(s, a) && PendingInOrder(s.reg, s.log, owed, s.lib.nextStats) && !a.ProcessNext?
    ensures var s' := Step(s, a);
      PendingInOrder(s'.reg, s'.log,
        if a.EnqueueStats? && a.postOk && !s.reg.closed then owed + [s.lib.nextStats] else owed,
        s'.lib.nextStats)
  {
    if a.EnqueueStats? {
      InOrderPosted(s, a.postOk, owed);
    } else if a.Close? {
      InOrderClosed(s, owed);
    } else {
      StatsUntouched(s, a);
      InOrderKept(s.reg, Step(s, a).reg, s.log, owed, s.lib.nextStats);
    }
  }

  lemma InOrderStep(s: State, a: Action)
    requires Enabled(s, a) && InOrder(s)
    ensures InOrder(Step(s, a))
  {
    DropsAtEndStep(s, a);
    if a.ProcessNext? {
      OwedProcessed(s.lib);
      var owed, owed', next := Owed(s.lib), Owed(Advanced(s.lib)), s.lib.nextStats;
      match s.lib.batch[0]
      case StatsAlert(m) => InOrderAnswered(s.reg, s.log, m, owed, owed', next);
      case DroppedAlert(_) =>
        assert |s.lib.batch| == 1;
        InOrderDrained(s.reg, s.log, s.lib.batch[0], s.lib.batchLost, owed, owed', next);
      case _ => InOrderUnrelated(s.reg, s.log, Seen(s.lib.batch[0], a.expired), owed, next);
    } else {
      OwedStep(s, a);
      InOrderOther(s, a, Owed(s.lib));
    }
  }

  lemma {:induction false} InOrderTrace(trace: seq<State>, i: nat)
    requires IsTrace(trace) && i < |trace|
    ensures InOrder(trace[i])
  {
    if i > 0 {
      InOrderTrace(trace, i - 1);
      assert LinkedAt(trace, i);
      var a :| Follows(trace[i - 1], a, trace[i]);
      InOrderStep(trace[i - 1], a);
    }
  }

  lemma InOrderAlways(s: State)
    requires Reachable(s)
    ensures InOrder(s)
  {
    var trace :| IsTrace(trace) && trace[|trace| - 1] == s;
    InOrderTrace(trace, |trace| - 1);
  }

  // ---- the theorems ----------------------------------------------------------

  /** In every reachable state the pending requests are the newest of the
      responses still owed, so none is orphaned; without an overflow they are
      exactly the responses owed, dropped futures or not. */
  lemma PendingIsSuffixOfOwed(s: State)
    requires Reachable(s)
    ensures IsSuffix(s.reg.stats, Owed(s.lib))
    ensures forall n :: n in s.reg.stats ==> n in Owed(s.lib)
    ensures !s.reg.closed && NoStatsOverflow(s.log) ==> s.reg.stats == Owed(s.lib)
  {
    InOrderAlways(s);
  }

  /** The request a response is matched to, relative to its own: never an older
      one, and its own exactly when nothing owed was given up by an overflow. */
  lemma ResponseMatches(s: State)
    requires Reachable(s)
    requires s.lib.batch != [] && s.lib.batch[0].StatsAlert? && s.reg.stats != []
    ensures var m, n := s.lib.batch[0].request, s.reg.stats[0];
      && Resolve(s.reg, s.lib.batch[0]).1 == map[StatsRequest(n) := Counters(m)]
      && n - m == |Owed(s.lib)| - |s.reg.stats| >= 0
      && (n == m <==> |s.reg.stats| == |Owed(s.lib)|)
      && (NoStatsOverflow(s.log) ==> n == m)
  {
    InOrderAlways(s);
    var m := s.lib.batch[0].request;
    assert Owed(s.lib)[0] == m;
    assert Owed(s.lib)[|Owed(s.lib)| - |s.reg.stats|] == s.reg.stats[0];
  }

  lemma RangeSplits(owed: seq<nat>, front: seq<nat>, rest: seq<nat>, next: nat, n: nat)
    requires |owed| <= next && owed == Range(next - |owed|, next) && owed == front + rest
    requires n in front
    ensures n !in rest
  {
    var i :| 0 <= i < |front| && front[i] == n;
    assert owed[i] == n;
    forall j | 0 <= j < |rest|
      ensures rest[j] != n
    {
      assert owed[|front| + j] == rest[j];
    }
  }

  /** The `alerts_dropped` alert that closes a batch reports stats whenever a
      response was lost in it; no response lost is waited for afterwards. */
  lemma DrainIsSafe(s: State)
    requires Reachable(s)
    requires s.lib.batch != [] && s.lib.batch[0].DroppedAlert?
    ensures |s.lib.batch| == 1
    ensures s.lib.batchLost != [] ==> StatsDropped(s.lib.batch[0])
    ensures forall n :: n in s.lib.batchLost ==> n !in Step(s, ProcessNext(false)).reg.stats
  {
    InOrderAlways(s);
    OwedProcessed(s.lib);
    var rest := Owed(Step(s, ProcessNext(false)).lib);
    forall n | n in s.lib.batchLost
      ensures n !in Step(s, ProcessNext(false)).reg.stats
    {
      assert StatsDropped(s.lib.batch[0]);
    }
  }

  /** Not even a request posted later is matched with a lost response: what is
      still owed after the drain starts past everything that was lost. */
  lemma LostStaysLost(s: State, n: nat)
    requires Reachable(s)
    requires s.lib.batch != [] && s.lib.batch[0].DroppedAlert? && n in s.lib.batchLost
    ensures n !in Owed(Step(s, ProcessNext(false)).lib)
  {
    InOrderAlways(s);
    OwedProcessed(s.lib);
    var rest := Owed(Advanced(s.lib));
    assert Owed(s.lib) == s.lib.batchLost + rest;
    RangeSplits(Owed(s.lib), s.lib.batchLost, rest, s.lib.nextStats, n);
  }

  /** Responses that arrive after a drain need not find an empty queue. Here
      request 0 lost its response to an overflow, request 1 was failed by the
      drain, request 2 was enqueued before the response to request 1 arrived,
      and is matched with that response. */
  lemma LateResponseIsMisaligned() returns (s: State)
    ensures Reachable(s)
    ensures s.lib.batch == [StatsAlert(1)] && s.reg.stats == [2]
    ensures StatsRequest(2) in Step(s, ProcessNext(false)).inflight
    ensures Step(s, ProcessNext(false)).inflight[StatsRequest(2)] == Counters(1)
  {
    s := OverflowAndRetry();
    ReachableStep(s, ProcessNext(false));
    s := Step(s, ProcessNext(false));
    ReachableStep(s, EnqueueStats(true));
    s := Step(s, EnqueueStats(true));
    ReachableStep(s, Pop);
    s := Step(s, Pop);
  }

  lemma OverflowAndRetry() returns (s: State)
    ensures Reachable(s)
    ensures s.lib.batch == [DroppedAlert(DroppedView({ALERT_SESSION_STATS}))]
    ensures StatsDropped(s.lib.batch[0]) && !AddsDropped(s.lib.batch[0])
    ensures s.lib.queue == [StatsAlert(1)] && s.lib.nextStats == 2
    ensures s.lib.droppedTypes == {} && !s.reg.closed && s.inflight == map[]
  {
    s := Overflow();
    ReachableStep(s, EnqueueStats(true));
    s := Step(s, EnqueueStats(true));
    ReachableStep(s, LibStats(false));
    s := Step(s, LibStats(false));
    DroppedAgrees({ALERT_SESSION_STATS}, ALERT_SESSION_STATS);
    DroppedAgrees({ALERT_SESSION_STATS}, ALERT_ADD_TORRENT);
  }

  lemma Overflow() returns (s: State)
    ensures Reachable(s)
    ensures s.lib.batch == [DroppedAlert(DroppedView({ALERT_SESSION_STATS}))]
    ensures s.lib.queue == [] && s.lib.lost == [] && s.lib.posted == [] && s.lib.nextStats == 1
    ensures s.lib.droppedTypes == {} && !s.reg.closed && s.inflight == map[] && s.reg.stats == [0]
  {
    InitReachable();
    ReachableStep(INIT, EnqueueStats(true));
    s := StatsEnqueued(INIT, true);
    ReachableStep(s, LibStats(true));
    s := s.(lib := StatsAnswered(s.lib, true));
    assert s.lib.droppedTypes == {ALERT_SESSION_STATS};
    ReachableStep(s, Pop);
    s := s.(lib := Popped(s.lib));
  }
}
