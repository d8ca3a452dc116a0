/** The request/response protocol between the bindings and libtorrent, as a
    transition system. Each action is one critical section of the registry, one
    delivery made after its lock was released, or one step of libtorrent, so a
    run of actions is an interleaving of every thread and every re-entrant
    waker or `Drop`. */
module Protocol {
  import opened Bitfields

  const ALERT_TORRENT_REMOVED := 4
  const ALERT_ADD_TORRENT := 67
  const ALERT_SESSION_STATS := 70

  type Token = nat
  /** Identity of an `Arc<dyn ClientData>`. */
  type Data = int

  /** A torrent handle; `userdata` is what it reports when asked: the token its
      torrent attached under. */
  datatype Handle = Handle(torrent: int, userdata: Token)

  datatype AddResult = Failed(code: int) | NullHandle | Attached(handle: Handle)

  datatype Alert =
    | StatsAlert(request: nat)                    // the response to that posting
    | AddAlert(token: Token, result: AddResult)
    | RemovedAlert(token: Token)
    | DroppedAlert(view: seq<bv8>)
    | OtherAlert

  /** A request is also the identity of its oneshot sender. */
  datatype Request = StatsRequest(number: nat) | AddRequest(token: Token)

  /** How a sender was consumed. */
  datatype Outcome =
    | Counters(snapshot: nat)
    | Added(handle: Handle)
    | AddFailed(code: int)
    | NullHandleError
    | OverflowError      // sent by handle_alerts_dropped
    | Closed             // sender dropped by close()
    | Cancelled          // sender dropped by the future's own guard
    | Aborted            // sender dropped after a refused post

  // ---- the registry ----------------------------------------------------------

  datatype Inner = Inner(
    closed: bool,
    stats: seq<nat>,
    adds: map<Token, Request>,
    data: map<Token, Data>,
    handles: map<Token, Handle>,
    nextId: nat)

  type Taken = map<Request, Outcome>

  /** An alert as the registry finds it when it asks for the handle's userdata:
      a handle whose torrent is gone for good reports 0. */
  function Seen(a: Alert, expired: bool): (seen: Alert)
    ensures !a.AddAlert? || !a.result.Attached? || !expired ==> seen == a
    ensures a.AddAlert? && a.result.Attached? && expired ==>
      seen == AddAlert(a.token, Attached(Handle(a.result.handle.torrent, 0)))
  {
    if expired && a.AddAlert? && a.result.Attached?
    then AddAlert(a.token, Attached(a.result.handle.(userdata := 0)))
    else a
  }

  predicate IsAdd(a: Alert, t: Token) {
    a.AddAlert? && a.token == t
  }

  predicate Surviving(token: Token, result: AddResult) {
    result.Attached? && result.handle.userdata == token
  }

  function AddOutcome(result: AddResult): Outcome {
    match result
    case Failed(code) => AddFailed(code)
    case NullHandle => NullHandleError
    case Attached(handle) => Added(handle)
  }

  predicate StatsDropped(a: Alert) {
    a.DroppedAlert? && |a.view| == 16 && Dropped(a.view, ALERT_SESSION_STATS)
  }

  predicate AddsDropped(a: Alert) {
    a.DroppedAlert? && |a.view| == 16 && Dropped(a.view, ALERT_ADD_TORRENT)
  }

  /** The critical section that handles one alert: the new registry, and the
      senders moved out of it with what each is about to be sent. */
  function Resolve(r: Inner, a: Alert): (Inner, Taken) {
    match a
    case StatsAlert(m) =>
      if r.stats == [] then (r, map[])
      else (r.(stats := r.stats[1..]), map[StatsRequest(r.stats[0]) := Counters(m)])
    case AddAlert(t, result) =>
      var taken: Taken := if t in r.adds then map[AddRequest(t) := AddOutcome(result)] else map[];
      var r' := r.(adds := r.adds - {t});
      if Surviving(t, result) then (r'.(handles := r.handles[t := result.handle]), taken)
      else (r'.(data := r.data - {t}), taken)
    case RemovedAlert(t) =>
      if t == 0 then (r, map[])
      else (r.(data := r.data - {t}, handles := r.handles - {t}), map[])
    case DroppedAlert(_) =>
      var stats: Taken := if StatsDropped(a)
                          then map q | q in StatsRequests(r) :: OverflowError else map[];
      var adds: Taken := if AddsDropped(a)
                         then map q | q in AddRequests(r) :: OverflowError else map[];
      (r.(stats := if StatsDropped(a) then [] else r.stats,
          adds := if AddsDropped(a) then map[] else r.adds), stats + adds)
    case OtherAlert => (r, map[])
  }

  function StatsRequests(r: Inner): set<Request> {
    set n | n in r.stats :: StatsRequest(n)
  }

  function AddRequests(r: Inner): set<Request> {
    set t | t in r.adds :: AddRequest(t)
  }

  // ---- libtorrent ------------------------------------------------------------

  /** How far the torrent of a token got. `Expired`: it was removed and its
      handles have expired too. */
  datatype Stage = Minted | Refused | Posted | Live | Rejected | Removed | Expired

  /** What libtorrent owes: requests not yet handled, the alert queue of the
      current pop generation with the stats responses it dropped, and the
      popped batch the consumer is still walking through. */
  datatype Lib = Lib(
    nextStats: nat,
    posted: seq<nat>,
    queue: seq<Alert>,
    lost: seq<nat>,
    droppedTypes: set<nat>,
    batch: seq<Alert>,
    batchLost: seq<nat>,
    stages: map<Token, Stage>)

  datatype Write = Write(token: Token, data: Data)

  datatype State = State(
    reg: Inner,
    lib: Lib,
    inflight: Taken,          // taken out of the registry, not yet sent
    outcome: Taken,           // senders already consumed
    gone: set<Request>,       // receivers dropped by their futures
    log: seq<Alert>,          // alerts processed so far, as they were seen
    writes: seq<Write>)       // client data stored by callers, oldest first

  const INIT := State(
    Inner(false, [], map[], map[], map[], 0),
    Lib(0, [], [], [], {}, [], [], map[]),
    map[], map[], {}, [], [])

  datatype Action =
    // callers
    | EnqueueStats(postOk: bool)
    | EnqueueAdd(data: Data)
    | PostAdd(token: Token)
    | AbortAdd(token: Token)
    | DropFuture(request: Request)
    | CancelAdd(token: Token)
    | SetData(token: Token, data: Data)
    | Close
    // the consumer of the alert stream
    | Pop
    | ProcessNext(expired: bool)
    // a send, or a sender's drop, after the lock was released
    | Deliver(request: Request)
    // libtorrent
    | LibStats(drop: bool)
    | LibAdd(token: Token, result: AddResult, drop: bool)
    | LibRemoved(token: Token, drop: bool)
    | LibExpired(token: Token)
    | LibOther(ty: nat, drop: bool)

  /** Libtorrent's side of the contract is stated here: requests are answered in
      posting order, once each; within a pop generation the dropped responses of
      a type are the last ones; a token gets at most one add alert, after its
      post, and at most one removed alert, after a surviving add; the handles of
      a torrent expire only after its removal, and one that has expired may have
      been asked just before. */
  ghost predicate Enabled(s: State, a: Action) {
    match a
    case PostAdd(t) => t in s.lib.stages && s.lib.stages[t].Minted?
    case AbortAdd(t) => t in s.lib.stages && s.lib.stages[t].Minted?
    case DropFuture(q) => HandedOut(s, q)
    case CancelAdd(t) => AddRequest(t) in s.gone || t !in s.reg.adds
    case Pop => s.lib.batch == []
    case ProcessNext(expired) =>
      s.lib.batch != [] && (expired ==> HandleExpired(s.lib.stages, s.lib.batch[0]))
    case Deliver(q) => q in s.inflight
    case LibStats(drop) =>
      s.lib.posted != [] && (!drop ==> ALERT_SESSION_STATS !in s.lib.droppedTypes)
    case LibAdd(t, _, _) => t in s.lib.stages && s.lib.stages[t].Posted?
    case LibRemoved(t, _) => t in s.lib.stages && s.lib.stages[t].Live?
    case LibExpired(t) => t in s.lib.stages && s.lib.stages[t].Removed?
    case LibOther(ty, _) =>
      ty < 128 && ty != ALERT_ADD_TORRENT && ty != ALERT_SESSION_STATS
    case _ => true
  }

  /** A caller was given the future of this request. */
  predicate HandedOut(s: State, q: Request) {
    match q
    case StatsRequest(n) => n < s.lib.nextStats
    case AddRequest(t) => t in s.lib.stages && !s.lib.stages[t].Minted? && !s.lib.stages[t].Refused?
  }

  predicate HandleExpired(stages: map<Token, Stage>, a: Alert) {
    && a.AddAlert? && a.result.Attached?
    && a.result.handle.userdata in stages && stages[a.result.handle.userdata].Expired?
  }

  // ---- what each action does -------------------------------------------------

  ghost function StatsEnqueued(s: State, postOk: bool): State {
    if s.reg.closed || !postOk then s
    else var n := s.lib.nextStats;
      s.(reg := s.reg.(stats := s.reg.stats + [n]),
         lib := s.lib.(posted := s.lib.posted + [n], nextStats := n + 1))
  }

  ghost function AddEnqueued(s: State, data: Data): State {
    if s.reg.closed then s
    else var t := s.reg.nextId + 1;
      s.(reg := s.reg.(nextId := t, adds := s.reg.adds[t := AddRequest(t)], data := s.reg.data[t := data]),
         lib := s.lib.(stages := s.lib.stages[t := Minted]),
         writes := s.writes + [Write(t, data)])
  }

  ghost function AddPosted(s: State, t: Token): State {
    s.(lib := s.lib.(stages := s.lib.stages[t := Posted]))
  }

  /** The sender is dropped inside the critical section. */
  function Forget(outcome: Taken, r: Inner, t: Token, o: Outcome): Taken {
    if t in r.adds then outcome[AddRequest(t) := o] else outcome
  }

  ghost function AddAborted(s: State, t: Token): State {
    s.(reg := s.reg.(adds := s.reg.adds - {t}, data := s.reg.data - {t}),
       lib := s.lib.(stages := s.lib.stages[t := Refused]),
       outcome := Forget(s.outcome, s.reg, t, Aborted))
  }

  ghost function AddCancelled(s: State, t: Token): State {
    s.(reg := s.reg.(adds := s.reg.adds - {t}), outcome := Forget(s.outcome, s.reg, t, Cancelled))
  }

  ghost function DataSet(s: State, t: Token, data: Data): State {
    if t in s.reg.data
    then s.(reg := s.reg.(data := s.reg.data[t := data]), writes := s.writes + [Write(t, data)])
    else s
  }

  function AllClosed(r: Inner): Taken {
    map q | q in StatsRequests(r) + AddRequests(r) :: Closed
  }

  ghost function RegistryClosed(s: State): State {
    s.(reg := s.reg.(closed := true, stats := [], adds := map[]),
       inflight := s.inflight + AllClosed(s.reg))
  }

  function Popped(lib: Lib): Lib {
    lib.(batch := lib.queue + Closing(lib.droppedTypes),
         batchLost := lib.lost,
         queue := [], lost := [], droppedTypes := {})
  }

  /** After an overflow one more alert closes the batch. */
  function Closing(dropped: set<nat>): seq<Alert> {
    if dropped == {} then [] else [DroppedAlert(DroppedView(dropped))]
  }

  function Advanced(lib: Lib): Lib
    requires lib.batch != []
  {
    lib.(batch := lib.batch[1..],
         batchLost := if lib.batch[0].DroppedAlert? then [] else lib.batchLost)
  }

  ghost function AlertProcessed(s: State, expired: bool): State
    requires s.lib.batch != []
  {
    var alert := Seen(s.lib.batch[0], expired);
    var (reg, taken) := Resolve(s.reg, alert);
    s.(reg := reg, inflight := s.inflight + taken, lib := Advanced(s.lib), log := s.log + [alert])
  }

  ghost function Delivered(s: State, q: Request): State
    requires q in s.inflight
  {
    s.(inflight := s.inflight - {q}, outcome := s.outcome[q := s.inflight[q]])
  }

  /** Appends an alert to the current generation, or drops it. */
  function Emit(lib: Lib, a: Alert, ty: nat, drop: bool): Lib {
    if drop then lib.(droppedTypes := lib.droppedTypes + {ty})
    else lib.(queue := lib.queue + [a])
  }

  function StatsAnswered(lib: Lib, drop: bool): Lib
    requires lib.posted != []
  {
    var n := lib.posted[0];
    Emit(lib.(posted := lib.posted[1..], lost := if drop then lib.lost + [n] else lib.lost),
         StatsAlert(n), ALERT_SESSION_STATS, drop)
  }

  function AddAnswered(lib: Lib, t: Token, result: AddResult, drop: bool): Lib {
    Emit(lib.(stages := lib.stages[t := if result.Attached? && result.handle.userdata == t then Live else Rejected]),
         AddAlert(t, result), ALERT_ADD_TORRENT, drop)
  }

  function TorrentGone(lib: Lib, t: Token, drop: bool): Lib {
    Emit(lib.(stages := lib.stages[t := Removed]), RemovedAlert(t), ALERT_TORRENT_REMOVED, drop)
  }

  function HandlesExpired(lib: Lib, t: Token): Lib {
    lib.(stages := lib.stages[t := Expired])
  }

  ghost function Step(s: State, a: Action): State
    requires Enabled(s, a)
  {
    match a
    case EnqueueStats(postOk) => StatsEnqueued(s, postOk)
    case EnqueueAdd(data) => AddEnqueued(s, data)
    case PostAdd(t) => AddPosted(s, t)
    case AbortAdd(t) => AddAborted(s, t)
    case DropFuture(q) => s.(gone := s.gone + {q})
    case CancelAdd(t) => AddCancelled(s, t)
    case SetData(t, data) => DataSet(s, t, data)
    case Close => RegistryClosed(s)
    case Pop => s.(lib := Popped(s.lib))
    case ProcessNext(expired) => AlertProcessed(s, expired)
    case Deliver(q) => Delivered(s, q)
    case LibStats(drop) => s.(lib := StatsAnswered(s.lib, drop))
    case LibAdd(t, result, drop) => s.(lib := AddAnswered(s.lib, t, result, drop))
    case LibRemoved(t, drop) => s.(lib := TorrentGone(s.lib, t, drop))
    case LibExpired(t) => s.(lib := HandlesExpired(s.lib, t))
    case LibOther(ty, drop) => s.(lib := Emit(s.lib, OtherAlert, ty, drop))
  }

  // ---- runs ------------------------------------------------------------------

  ghost predicate Runs(s: State, actions: seq<Action>)
    decreases |actions|
  {
    actions == [] || (Enabled(s, actions[0]) && Runs(Step(s, actions[0]), actions[1..]))
  }

  ghost function After(s: State, actions: seq<Action>): State
    requires Runs(s, actions)
    decreases |actions|
  {
    if actions == [] then s else After(Step(s, actions[0]), actions[1..])
  }

  ghost predicate Follows(s: State, a: Action, s': State) {
    Enabled(s, a) && s' == Step(s, a)
  }

  ghost predicate Linked(s: State, s': State) {
    exists a :: Follows(s, a, s')
  }

  ghost predicate LinkedAt(trace: seq<State>, i: nat)
    requires 0 < i < |trace|
  {
    Linked(trace[i - 1], trace[i])
  }

  ghost predicate IsTrace(trace: seq<State>) {
    trace != [] && trace[0] == INIT && forall i :: 0 < i < |trace| ==> LinkedAt(trace, i)
  }

  /** Some finite run from the start leads here. */
  ghost predicate Reachable(s: State) {
    exists trace :: IsTrace(trace) && trace[|trace| - 1] == s
  }

  lemma InitReachable()
    ensures Reachable(INIT)
  {
    assert IsTrace([INIT]);
  }

  lemma ReachableStep(s: State, a: Action)
    requires Reachable(s) && Enabled(s, a)
    ensures Reachable(Step(s, a))
  {
    var trace :| IsTrace(trace) && trace[|trace| - 1] == s;
    var longer := trace + [Step(s, a)];
    assert Follows(longer[|trace| - 1], a, longer[|trace|]);
    forall i | 0 < i < |longer|
      ensures LinkedAt(longer, i)
    {
      if i < |trace| {
        assert LinkedAt(trace, i);
        assert longer[i - 1] == trace[i - 1] && longer[i] == trace[i];
      }
    }
  }

  lemma {:induction false} ReachableAfter(s: State, actions: seq<Action>)
    requires Reachable(s) && Runs(s, actions)
    ensures Reachable(After(s, actions))
    decreases |actions|
  {
    if actions != [] {
      ReachableStep(s, actions[0]);
      ReachableAfter(Step(s, actions[0]), actions[1..]);
    }
  }
}
