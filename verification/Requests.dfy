/** The pending-request registry as the bindings implement it: fields behind a
    mutex, changed in place. Its abstract state is a reachable state of the
    protocol at every point where anybody else can run, which includes the
    inside of every waker and every user `Drop` it triggers. */
module Requests {
  import opened Common
  import opened Protocol
  import opened StatsOrder
  import opened Accounting
  import opened Lifecycle
  import opened ClientData

  /** What a waker or a user `Drop` does: any finite list of calls to the public
      API, up to `Return`, while libtorrent makes steps of its own. Such a call
      may trigger further callbacks, which continue the same script. */
  datatype Op =
    | Return
    | SessionStats(postOk: bool)
    | AddTorrent(data: Data, postOk: bool)
    | DropStatsFuture(number: nat)
    | DropAddFuture(token: Token)
    | FindTorrent(token: Token)
    | GetData(token: Token)
    | ReplaceData(token: Token, data: Data)
    | CloseRegistry
    | Libtorrent(step: Action)

  function Get<K, V>(m: map<K, V>, k: K): Option<V> {
    if k in m then Some(m[k]) else None
  }

  predicate Listed(q: Request, stats: seq<nat>, adds: map<Token, Request>) {
    match q
    case StatsRequest(n) => n in stats
    case AddRequest(t) => t in adds
  }

  /** A callback that does nothing. */
  predicate Quiet(script: seq<Op>) {
    script == [] || script[0] == Return
  }

  /** What callers may rely on across a callback: nothing was processed, what
      was consumed stays consumed, handles stand still, client data that is gone
      stays gone, client data of a posted add stays, and what it holds changes
      only by being stored again. */
  ghost predicate Calm(w: State, w': State) {
    && w'.log == w.log && w'.lib.batch == w.lib.batch
    && (w.reg.closed ==> w'.reg.closed)
    && w.writes <= w'.writes
    && w'.reg.handles == w.reg.handles
    && (forall q :: q in w.outcome ==> q in w'.outcome && w'.outcome[q] == w.outcome[q])
    && (forall t: Token :: DataStays(w, w', t))
  }

  ghost predicate DataStays(w: State, w': State, t: Token) {
    && (t in w.lib.stages && t !in w.reg.data ==> t in w'.lib.stages && t !in w'.reg.data)
    && (AddIsOut(w, t) ==> AddIsOut(w', t) && (t in w.reg.data ==> t in w'.reg.data))
  }

  lemma CalmAgain(u: State, v: State, w: State)
    requires Calm(u, v) && Calm(v, w)
    ensures Calm(u, w)
  {
    forall t: Token
      ensures DataStays(u, w, t)
    {
      assert DataStays(u, v, t) && DataStays(v, w, t);
    }
  }

  /** The token was minted and its add was posted, or refused. */
  predicate AddIsOut(w: State, t: Token) {
    t in w.lib.stages && !w.lib.stages[t].Minted?
  }

  /** The same, across a whole call that sends everything it took. */
  ghost predicate Settled(w: State, w': State) {
    Calm(w, w') && w'.inflight == w.inflight
  }

  lemma CalmStep(s: State, a: Action)
    requires Reachable(s) && Enabled(s, a) && !a.Pop? && !a.ProcessNext?
    ensures Calm(s, Step(s, a))
  {
    SoundAlways(s);
    BatchStands(s, a);
    HandlesStand(s, a);
    WritesStep(s, a);
    forall q | q in s.outcome
      ensures q in Step(s, a).outcome && Step(s, a).outcome[q] == s.outcome[q]
    {
      assert Places(s, q) == One(Issued(s, q));
      ConsumedStep(s, a, q);
    }
    forall t: Token
      ensures DataStays(s, Step(s, a), t)
    {
      if t in s.lib.stages && t !in s.reg.data {
        DataGoneStep(s, a, t);
      }
      if AddIsOut(s, t) {
        DataStaysStep(s, a, t);
      }
    }
  }

  lemma HandlesStand(s: State, a: Action)
    requires Enabled(s, a) && !a.Pop? && !a.ProcessNext?
    ensures Step(s, a).reg.handles == s.reg.handles && (s.reg.closed ==> Step(s, a).reg.closed)
  {
  }

  lemma DataStaysStep(s: State, a: Action, t: Token)
    requires Enabled(s, a) && !a.ProcessNext? && AddIsOut(s, t)
    requires s.reg.nextId + 1 !in s.lib.stages
    ensures AddIsOut(Step(s, a), t) && (t in s.reg.data ==> t in Step(s, a).reg.data)
  {
  }

  /** What one processed alert leaves behind, as it was seen, callbacks included. */
  ghost predicate Processed(w: State, w': State) {
    && w.lib.batch != [] && |w'.log| > |w.log|
    && var a := w'.log[|w.log|];
    && Saw(a, w.lib.batch[0])
    && w'.log == w.log + [a] && w'.lib.batch == w.lib.batch[1..]
    && w'.inflight == w.inflight && w.writes <= w'.writes
    && w'.reg.handles == Resolve(w.reg, a).0.handles
    && (forall q :: q in w.outcome ==> q in w'.outcome && w'.outcome[q] == w.outcome[q])
    && (forall q :: q in Resolve(w.reg, a).1
                    ==> q in w'.outcome && w'.outcome[q] == Resolve(w.reg, a).1[q])
    && (forall t :: t in w.lib.stages && t !in Resolve(w.reg, a).0.data ==> t !in w'.reg.data)
    && (forall t :: AddIsOut(w, t) && t in Resolve(w.reg, a).0.data ==> t in w'.reg.data)
  }

  class Registry {
    var locked: bool
    var closed: bool
    var sessionStats: seq<nat>
    var addTorrent: map<Token, Request>
    var clientData: map<Token, Data>
    var handles: map<Token, Handle>
    var nextId: nat
    var sent: nat                // session-stats requests posted so far
    var stages: map<Token, Stage>  // how far libtorrent is with each token
    var script: seq<Op>          // what callbacks are going to do

    ghost var world: State

    ghost function Abs(): Inner
      reads this
    {
      Inner(closed, sessionStats, addTorrent, clientData, handles, nextId)
    }

    ghost predicate Valid()
      reads this
    {
      && Reachable(world)
      && Abs() == world.reg
      && sent == world.lib.nextStats
      && stages == world.lib.stages
    }

    constructor (script: seq<Op>)
      ensures Valid() && !locked && world == INIT && this.script == script
    {
      locked, closed := false, false;
      sessionStats, addTorrent, clientData, handles := [], map[], map[], map[];
      nextId, sent, stages := 0, 0, map[];
      this.script := script;
      world := INIT;
      new;
      InitReachable();
    }

    method Lock()
      requires !locked
      modifies this`locked
      ensures locked
    {
      locked := true;
    }

    /** Releases the mutex: the critical section was one action. */
    method Unlock(ghost a: Action)
      requires locked && Reachable(world) && Enabled(world, a)
      modifies this`locked, this`world
      ensures !locked && Reachable(world) && world == Step(old(world), a)
      ensures !a.Pop? && !a.ProcessNext? ==> Calm(old(world), world)
    {
      Note(a);
      locked := false;
    }

    /** Releases the mutex: what the critical section did was recorded before, or
        it only read. */
    method Release()
      requires locked
      modifies this`locked
      ensures !locked
    {
      locked := false;
    }

    /** Records an action made without the mutex. */
    ghost method Note(a: Action)
      requires Reachable(world) && Enabled(world, a)
      modifies this`world
      ensures Reachable(world) && world == Step(old(world), a)
      ensures !a.Pop? && !a.ProcessNext? ==> Calm(old(world), world)
    {
      ReachableStep(world, a);
      if !a.Pop? && !a.ProcessNext? {
        CalmStep(world, a);
      }
      world := Step(world, a);
    }

    ghost method NoteAdd(data: Data)
      requires Reachable(world)
      modifies this`world
      ensures Reachable(world) && world == AddEnqueued(old(world), data) && Settled(old(world), world)
    {
      Note(EnqueueAdd(data));
    }

    ghost method NoteProcessed(expired: bool)
      requires Reachable(world) && Enabled(world, ProcessNext(expired))
      modifies this`world
      ensures Reachable(world) && world == AlertProcessed(old(world), expired)
    {
      Note(ProcessNext(expired));
    }

    /** A waker, or the `Drop` of a user's client data: runs with the mutex
        free, and performs whatever the script says. */
    method Reenter()
      requires Valid() && !locked
      modifies this
      ensures Valid() && !locked && Settled(old(world), world)
      ensures |script| <= |old(script)|
      ensures Quiet(old(script)) ==> world == old(world)
      decreases |script|, 1
    {
      while script != [] && script[0] != Return
        invariant Valid() && !locked && Settled(old(world), world)
        invariant |script| <= |old(script)|
        invariant Quiet(old(script)) ==> world == old(world) && script == old(script)
        decreases |script|
      {
        var op := script[0];
        ghost var before := world;
        script := script[1..];
        Perform(op);
        CalmAgain(old(world), before, world);
      }
      if script != [] {
        script := script[1..];
      }
    }

    method Perform(op: Op)
      requires Valid() && !locked
      modifies this
      ensures Valid() && !locked && Settled(old(world), world)
      ensures |script| <= |old(script)|
      decreases |script|, 9
    {
      match op
      case Return =>
      case SessionStats(postOk) =>
        var _ := EnqueueSessionStats(postOk);
      case AddTorrent(data, postOk) =>
        var _ := AddTorrentCall(data, postOk);
      case DropStatsFuture(n) =>
        if n < sent {
          Note(DropFuture(StatsRequest(n)));
        }
      case DropAddFuture(token) =>
        DropAdd(token);
      case FindTorrent(token) =>
        var _ := TorrentHandle(token);
      case GetData(token) =>
        var _ := ClientDataOf(token);
      case ReplaceData(token, data) =>
        var _ := SetClientData(token, data);
      case CloseRegistry =>
        Close();
      case Libtorrent(step) =>
        Environment(step);
    }

    /** The future of an add is dropped, if there is one: its receiver goes first,
        then its guard. */
    method DropAdd(token: Token)
      requires Valid() && !locked
      modifies this
      ensures Valid() && !locked && Settled(old(world), world) && script == old(script)
    {
      if token in stages && !stages[token].Minted? && !stages[token].Refused? {
        Note(DropFuture(AddRequest(token)));
        ghost var dropped := world;
        CancelAddTorrent(token);
        CalmAgain(old(world), dropped, world);
      }
    }

    /** A step of libtorrent, if it is able to make it. */
    method Environment(step: Action)
      requires Valid() && !locked
      modifies this`world, this`stages
      ensures Valid() && Settled(old(world), world)
    {
      match step
      case LibAdd(t, result, drop) =>
        if t in stages && stages[t].Posted? {
          Note(step);
          stages := stages[t := if Surviving(t, result) then Live else Rejected];
        }
      case LibRemoved(t, drop) =>
        if t in stages && stages[t].Live? {
          Note(step);
          stages := stages[t := Removed];
        }
      case LibExpired(t) =>
        if t in stages && stages[t].Removed? {
          Note(step);
          stages := stages[t := Expired];
        }
      case LibStats(_) => QuietStep(step);
      case LibOther(_, _) => QuietStep(step);
      case _ =>
    }

    ghost method QuietStep(step: Action)
      requires Valid() && (step.LibStats? || step.LibOther?)
      modifies this`world
      ensures Valid() && Settled(old(world), world)
    {
      if Enabled(world, step) {
        Note(step);
      }
    }

    /** `ct_torrent_handle_userdata`: 0 once the handle has expired. */
    method Userdata(handle: Handle) returns (userdata: Token)
      requires Valid()
      ensures userdata == if handle.userdata in world.lib.stages && world.lib.stages[handle.userdata].Expired?
                          then 0 else handle.userdata
    {
      userdata := if handle.userdata in stages && stages[handle.userdata].Expired? then 0 else handle.userdata;
    }

    /** Sends on, or drops, a sender that was moved out of the lock: this wakes
        its future. */
    method Send(sender: Request, outcome: Outcome)
      requires Valid() && !locked
      requires sender in world.inflight && world.inflight[sender] == outcome
      modifies this
      ensures Valid() && !locked && Calm(old(world), world)
      ensures world.inflight == old(world.inflight) - {sender}
      ensures sender in world.outcome && world.outcome[sender] == outcome
      ensures |script| <= |old(script)|
      decreases |script|, 2
    {
      Note(Deliver(sender));
      ghost var delivered := world;
      Reenter();
      CalmAgain(old(world), delivered, world);
    }

    method SendQueue(senders: seq<nat>, outcome: Outcome)
      requires Valid() && !locked
      requires forall i, j :: 0 <= i < j < |senders| ==> senders[i] != senders[j]
      requires forall n :: n in senders ==> StatsRequest(n) in world.inflight && world.inflight[StatsRequest(n)] == outcome
      modifies this
      ensures Valid() && !locked && Calm(old(world), world)
      ensures world.inflight == old(world.inflight) - (set n | n in senders :: StatsRequest(n))
      ensures forall n :: n in senders ==> StatsRequest(n) in world.outcome && world.outcome[StatsRequest(n)] == outcome
      ensures |script| <= |old(script)|
      decreases |script|, 3
    {
      for i := 0 to |senders|
        invariant Valid() && !locked && Calm(old(world), world)
        invariant world.inflight == old(world.inflight) - (set n | n in senders[..i] :: StatsRequest(n))
        invariant forall n :: n in senders[..i]
                    ==> StatsRequest(n) in world.outcome && world.outcome[StatsRequest(n)] == outcome
        invariant |script| <= |old(script)|
      {
        assert senders[i] !in senders[..i];
        assert senders[..i + 1] == senders[..i] + [senders[i]];
        ghost var before := world;
        Send(StatsRequest(senders[i]), outcome);
        CalmAgain(old(world), before, world);
      }
      assert senders[..|senders|] == senders;
    }

    method SendMap(senders: map<Token, Request>, outcome: Outcome)
      requires Valid() && !locked
      requires forall t :: t in senders ==> senders[t] == AddRequest(t)
      requires forall t :: t in senders ==> AddRequest(t) in world.inflight && world.inflight[AddRequest(t)] == outcome
      modifies this
      ensures Valid() && !locked && Calm(old(world), world)
      ensures world.inflight == old(world.inflight) - (set t | t in senders :: AddRequest(t))
      ensures forall t :: t in senders ==> AddRequest(t) in world.outcome && world.outcome[AddRequest(t)] == outcome
      ensures |script| <= |old(script)|
      decreases |script|, 3
    {
      var rest := senders.Keys;
      while rest != {}
        invariant rest <= senders.Keys
        invariant Valid() && !locked && Calm(old(world), world)
        invariant world.inflight == old(world.inflight) - (set t | t in senders && t !in rest :: AddRequest(t))
        invariant forall t :: t in senders && t !in rest
                    ==> AddRequest(t) in world.outcome && world.outcome[AddRequest(t)] == outcome
        invariant |script| <= |old(script)|
        decreases |rest|
      {
        var t :| t in rest;
        rest := rest - {t};
        ghost var before := world;
        Send(senders[t], outcome);
        CalmAgain(old(world), before, world);
      }
    }

    /** First the queue, then the map. */
    method SendAll(stats: seq<nat>, adds: map<Token, Request>, outcome: Outcome)
      requires Valid() && !locked
      requires forall i, j :: 0 <= i < j < |stats| ==> stats[i] != stats[j]
      requires forall t :: t in adds ==> adds[t] == AddRequest(t)
      requires forall q :: Listed(q, stats, adds) ==> q in world.inflight && world.inflight[q] == outcome
      modifies this
      ensures Valid() && !locked && Calm(old(world), world)
      ensures forall q :: q in world.inflight <==> q in old(world.inflight) && !Listed(q, stats, adds)
      ensures forall q :: q in world.inflight ==> world.inflight[q] == old(world.inflight)[q]
      ensures forall q :: Listed(q, stats, adds) ==> q in world.outcome && world.outcome[q] == outcome
      ensures |script| <= |old(script)|
      decreases |script|, 4
    {
      assert forall n :: n in stats ==> Listed(StatsRequest(n), stats, adds);
      SendQueue(stats, outcome);
      ghost var queueSent := world;
      forall t | t in adds
        ensures AddRequest(t) in world.inflight && world.inflight[AddRequest(t)] == outcome
      {
        assert Listed(AddRequest(t), stats, adds);
      }
      SendMap(adds, outcome);
      CalmAgain(old(world), queueSent, world);
    }

    /** Dropping a sender while the lock is held is sound only if that wakes
        nobody. */
    method DropLocked(sender: Option<Request>)
      requires locked && (sender.Some? ==> !Wakeable(world, sender.value))
    {
    }

    /** Drops a value of a user's type, outside the lock. */
    method DropData(data: Option<Data>)
      requires Valid() && !locked
      modifies this
      ensures Valid() && !locked && Settled(old(world), world)
      ensures |script| <= |old(script)|
      ensures Quiet(old(script)) ==> world == old(world)
      decreases |script|, 2
    {
      if data.Some? {
        Reenter();
      }
    }

    // ---- requests ------------------------------------------------------------

    method EnqueueSessionStats(postOk: bool) returns (r: Option<Request>)
      requires Valid() && !locked
      modifies this
      ensures Valid() && !locked && Settled(old(world), world) && script == old(script)
      ensures r.None? <==> old(closed) || !postOk
      ensures r.None? ==> world == old(world)
      ensures r.Some? ==>
        && r.value.StatsRequest? && !Issued(old(world), r.value)
        && sessionStats == old(sessionStats) + [r.value.number]
        && world.lib.posted == old(world.lib.posted) + [r.value.number]
    {
      Lock();
      r := None;
      if !closed && postOk {
        r := Some(StatsRequest(sent));
        sessionStats := sessionStats + [sent];
        sent := sent + 1;
      }
      Unlock(EnqueueStats(postOk));
    }

    /** A refused value is dropped like any other, outside the lock. */
    method EnqueueAddTorrent(data: Data) returns (r: Option<Token>)
      requires Valid() && !locked
      modifies this
      ensures Valid() && !locked && Settled(old(world), world) && |script| <= |old(script)|
      ensures r == if old(closed) then None else Some(old(nextId) + 1)
      ensures r.Some? ==>
        && world == AddEnqueued(old(world), data) && script == old(script)
        && addTorrent == old(addTorrent)[r.value := AddRequest(r.value)]
        && clientData == old(clientData)[r.value := data]
      ensures r.None? && Quiet(old(script)) ==> world == old(world)
      decreases |script|, 4
    {
      r := EnterAdd(data);
      if r.None? {
        DropData(Some(data));
      }
    }

    /** The critical section of an add. */
    method EnterAdd(data: Data) returns (r: Option<Token>)
      requires Valid() && !locked
      modifies this
      ensures Valid() && !locked && Settled(old(world), world) && script == old(script)
      ensures world == AddEnqueued(old(world), data)
      ensures r == if old(closed) then None else Some(old(nextId) + 1)
      ensures r.Some? ==>
        && addTorrent == old(addTorrent)[r.value := AddRequest(r.value)]
        && clientData == old(clientData)[r.value := data]
    {
      Lock();
      r := None;
      if !closed {
        var token := Mint(data);
        r := Some(token);
      }
      Release();
    }

    /** The token, its sender and its data, in one critical section. */
    method Mint(data: Data) returns (token: Token)
      requires locked && Valid() && !closed
      modifies this`nextId, this`addTorrent, this`clientData, this`stages, this`world
      ensures Valid() && Settled(old(world), world) && world == AddEnqueued(old(world), data)
      ensures token == old(nextId) + 1
      ensures addTorrent == old(addTorrent)[token := AddRequest(token)]
      ensures clientData == old(clientData)[token := data]
    {
      nextId := nextId + 1;
      token := nextId;
      addTorrent := addTorrent[token := AddRequest(token)];
      clientData := clientData[token := data];
      stages := stages[token := Minted];
      NoteAdd(data);
    }

    /** Called by the future's guard only, so the receiver is already gone. */
    method CancelAddTorrent(token: Token)
      requires Valid() && !locked
      requires AddRequest(token) in world.gone || token !in addTorrent
      modifies this
      ensures Valid() && !locked && Settled(old(world), world) && script == old(script)
      ensures token !in addTorrent && clientData == old(clientData) && sessionStats == old(sessionStats)
      ensures token in old(addTorrent) ==> AddRequest(token) in world.outcome
    {
      SendersAreTheirOwn(world);
      Lock();
      DropLocked(Get(addTorrent, token));
      addTorrent := addTorrent - {token};
      Unlock(CancelAdd(token));
    }

    /** Rolls back a refused post; nobody polled the future yet. */
    method AbortAddTorrent(token: Token)
      requires Valid() && !locked
      requires token in world.lib.stages && world.lib.stages[token].Minted?
      modifies this
      ensures Valid() && !locked && Settled(old(world), world)
      ensures token !in clientData
      ensures token in old(addTorrent) ==> AddRequest(token) in world.outcome
      ensures |script| <= |old(script)|
      decreases |script|, 4
    {
      var data := TakeAborted(token);
      ghost var taken := world;
      DropData(data);
      CalmAgain(old(world), taken, world);
      assert DataStays(taken, world, token);
    }

    method TakeAborted(token: Token) returns (data: Option<Data>)
      requires Valid() && !locked
      requires token in world.lib.stages && world.lib.stages[token].Minted?
      modifies this
      ensures Valid() && !locked && Settled(old(world), world) && script == old(script)
      ensures token in world.lib.stages && token !in world.reg.data
      ensures token in old(addTorrent) ==> AddRequest(token) in world.outcome
      ensures data == Get(old(clientData), token)
    {
      SendersAreTheirOwn(world);
      Lock();
      DropLocked(Get(addTorrent, token));
      addTorrent := addTorrent - {token};
      data := Get(clientData, token);
      clientData := clientData - {token};
      stages := stages[token := Refused];
      Unlock(AbortAdd(token));
    }

    /** `Session::add_torrent`: enqueue, post, and roll back a refused post. */
    method AddTorrentCall(data: Data, postOk: bool) returns (r: Option<Token>)
      requires Valid() && !locked
      modifies this
      ensures Valid() && !locked && Settled(old(world), world)
      ensures r == if !old(closed) && postOk then Some(old(nextId) + 1) else None
      ensures r.Some? ==> world == AddPosted(AddEnqueued(old(world), data), r.value)
      ensures old(closed) && Quiet(old(script)) ==> world == old(world)
      ensures !old(closed) && !postOk ==>
        old(nextId) + 1 !in clientData && AddRequest(old(nextId) + 1) in world.outcome
      ensures |script| <= |old(script)|
      decreases |script|, 5
    {
      r := EnqueueAddTorrent(data);
      ghost var enqueued := world;
      if r.Some? {
        if postOk {
          Note(PostAdd(r.value));
          stages := stages[r.value := Posted];
        } else {
          AbortAddTorrent(r.value);
          r := None;
        }
        CalmAgain(old(world), enqueued, world);
      }
    }

    method ClientDataOf(token: Token) returns (r: Option<Data>)
      requires Valid() && !locked
      modifies this`locked
      ensures Valid() && !locked
      ensures r == Get(clientData, token)
      ensures r.Some? ==> r == LastFor(world.writes, token)
    {
      if token in clientData {
        DataIsLastWritten(world, token);
      }
      Lock();
      r := Get(clientData, token);
      Release();
    }

    /** Finds a torrent exactly from its surviving add to its removal. */
    method TorrentHandle(token: Token) returns (r: Option<Handle>)
      requires Valid() && !locked
      modifies this`locked
      ensures Valid() && !locked
      ensures r.Some? <==> SurvivingAddSeen(world, token) && RemovedAlert(token) !in world.log
      ensures r.Some? ==> AddAlert(token, Attached(r.value)) in world.log
      ensures r.Some? ==> r.value.userdata == token && token in clientData
    {
      LookupIsExact(world, token);
      HandlesHaveData(world);
      Lock();
      r := Get(handles, token);
      Release();
    }

    /** Replaces only: an unknown token stays unknown. The value replaced, or the
        one refused, is dropped outside the lock. */
    method SetClientData(token: Token, data: Data) returns (ok: bool)
      requires Valid() && !locked
      modifies this
      ensures Valid() && !locked && Settled(old(world), world)
      ensures ok <==> token in old(clientData)
      ensures Quiet(old(script)) ==> world == DataSet(old(world), token, data)
      ensures ok && AddIsOut(old(world), token) ==> token in clientData
      ensures ok ==> old(world.writes) + [Write(token, data)] <= world.writes
      ensures |script| <= |old(script)|
      decreases |script|, 4
    {
      var replaced := SwapData(token, data);
      ghost var swapped := world;
      ok := replaced.Some?;
      DropData(if ok then replaced else Some(data));
      CalmAgain(old(world), swapped, world);
      assert DataStays(swapped, world, token);
    }

    method SwapData(token: Token, data: Data) returns (replaced: Option<Data>)
      requires Valid() && !locked
      modifies this
      ensures Valid() && !locked && Calm(old(world), world) && script == old(script)
      ensures world == DataSet(old(world), token, data)
      ensures replaced == Get(old(clientData), token)
      ensures clientData == if replaced.Some? then old(clientData)[token := data] else old(clientData)
    {
      Lock();
      replaced := Get(clientData, token);
      if replaced.Some? {
        clientData := clientData[token := data];
      }
      Unlock(SetData(token, data));
    }

    // ---- the alert stream ----------------------------------------------------

    /** `Alerts::pop`: `batch` is what the shim popped. When this returns, the
        registry reflects the whole batch. */
    method Pop(batch: seq<Alert>) returns (len: nat)
      requires Valid() && !locked
      requires world.lib.batch == [] && batch == Popped(world.lib).batch
      modifies this
      ensures Valid() && !locked && len == |batch|
      ensures world.lib.batch == [] && world.inflight == old(world.inflight)
      ensures old(world.log) <= world.log && SawAll(world.log[|old(world.log)|..], batch)
      ensures forall t :: Visible(world, batch, world.log[|old(world.log)|..], t)
    {
      Note(Action.Pop);
      ghost var popped := world;
      len := |batch|;
      if len > 0 {
        Process(batch);
      }
      AllVisible(popped, world, batch, world.log[|old(world.log)|..]);
    }

    method Process(batch: seq<Alert>)
      requires Valid() && !locked && batch == world.lib.batch
      modifies this
      ensures Valid() && !locked
      ensures world.lib.batch == [] && world.inflight == old(world.inflight)
      ensures old(world.log) <= world.log && SawAll(world.log[|old(world.log)|..], batch)
      ensures forall q :: q in old(world.outcome) ==> q in world.outcome && world.outcome[q] == old(world.outcome)[q]
    {
      for i := 0 to |batch|
        invariant Valid() && !locked
        invariant world.lib.batch == batch[i..] && world.inflight == old(world.inflight)
        invariant old(world.log) <= world.log && SawAll(world.log[|old(world.log)|..], batch[..i])
        invariant forall q :: q in old(world.outcome) ==> q in world.outcome && world.outcome[q] == old(world.outcome)[q]
      {
        var alert := batch[i];
        ghost var before := world;
        ProcessAlert(alert);
        SawOneMore(before.log[|old(world.log)|..], batch[..i], world.log[|before.log|], alert);
        assert world.log[|old(world.log)|..] == before.log[|old(world.log)|..] + [world.log[|before.log|]];
        assert batch[..i + 1] == batch[..i] + [alert];
      }
      assert batch[..|batch|] == batch;
    }

    method ProcessAlert(alert: Alert)
      requires Valid() && !locked && world.lib.batch != [] && world.lib.batch[0] == alert
      modifies this
      ensures Valid() && !locked && Processed(old(world), world)
    {
      match alert
      case StatsAlert(_) => ResolveSessionStats(alert);
      case AddAlert(_, _) => ResolveAddTorrent(alert);
      case RemovedAlert(_) => ResolveTorrentRemoved(alert);
      case DroppedAlert(_) => HandleAlertsDropped(alert);
      case OtherAlert => ConsumeOnly();
    }

    /** An alert the registry does not look at. */
    method ConsumeOnly()
      requires Valid() && !locked && world.lib.batch != [] && world.lib.batch[0].OtherAlert?
      modifies this
      ensures Valid() && !locked && Processed(old(world), world)
    {
      Note(ProcessNext(false));
    }

    method HandleAlertsDropped(alert: Alert)
      requires Valid() && !locked && alert.DroppedAlert?
      requires world.lib.batch != [] && world.lib.batch[0] == alert
      modifies this
      ensures Valid() && !locked && Processed(old(world), world)
      ensures |script| <= |old(script)|
    {
      TakenIsNew(world, false);
      var stats, adds := TakeDropped(alert);
      ghost var taken := world;
      DroppedTakes(old(world).reg, alert, stats, adds);
      SendAll(stats, adds, OverflowError);
      ProcessedBy(old(world), false, taken, world);
    }

    method TakeDropped(alert: Alert) returns (stats: seq<nat>, adds: map<Token, Request>)
      requires Valid() && !locked && alert.DroppedAlert?
      requires world.lib.batch != [] && world.lib.batch[0] == alert
      modifies this
      ensures Valid() && !locked && script == old(script)
      ensures world == AlertProcessed(old(world), false)
      ensures stats == if StatsDropped(alert) then old(sessionStats) else []
      ensures adds == if AddsDropped(alert) then old(addTorrent) else map[]
    {
      stats, adds := [], map[];
      Lock();
      if StatsDropped(alert) {
        stats := sessionStats;
        sessionStats := [];
      }
      if AddsDropped(alert) {
        adds := addTorrent;
        addTorrent := map[];
      }
      NoteProcessed(false);
      Release();
    }

    method ResolveSessionStats(alert: Alert)
      requires Valid() && !locked && alert.StatsAlert?
      requires world.lib.batch != [] && world.lib.batch[0] == alert
      modifies this
      ensures Valid() && !locked && Processed(old(world), world)
      ensures |script| <= |old(script)|
    {
      TakenIsNew(world, false);
      var sender := TakeStats(alert);
      ghost var taken := world;
      if sender.Some? {
        Send(StatsRequest(sender.value), Counters(alert.request));
      }
      ProcessedBy(old(world), false, taken, world);
    }

    method TakeStats(alert: Alert) returns (sender: Option<nat>)
      requires Valid() && !locked && alert.StatsAlert?
      requires world.lib.batch != [] && world.lib.batch[0] == alert
      modifies this
      ensures Valid() && !locked && script == old(script)
      ensures world == AlertProcessed(old(world), false)
      ensures sender == if old(sessionStats) == [] then None else Some(old(sessionStats)[0])
    {
      Lock();
      sender := None;
      if sessionStats != [] {
        sender := Some(sessionStats[0]);
        sessionStats := sessionStats[1..];
      }
      NoteProcessed(false);
      Release();
    }

    /** Whether the handle of an attached torrent no longer names its token. */
    method AskHandle(alert: Alert) returns (expired: bool)
      requires Valid() && alert.AddAlert?
      ensures expired == HandleExpired(world.lib.stages, alert)
    {
      SoundAlways(world);
      expired := false;
      if alert.result.Attached? {
        var userdata := Userdata(alert.result.handle);
        expired := userdata != alert.result.handle.userdata;
      }
    }

    method ResolveAddTorrent(alert: Alert)
      requires Valid() && !locked && alert.AddAlert?
      requires world.lib.batch != [] && world.lib.batch[0] == alert
      modifies this
      ensures Valid() && !locked && Processed(old(world), world)
      ensures world.log == old(world.log) + [Seen(alert, HandleExpired(old(world).lib.stages, alert))]
      ensures |script| <= |old(script)|
    {
      var expired := AskHandle(alert);
      TakenIsNew(world, expired);
      var sender, staleData := TakeAdd(alert, expired);
      ghost var taken := world;
      Dispatch(staleData, sender, AddOutcome(Seen(alert, expired).result));
      ProcessedBy(old(world), expired, taken, world);
    }

    /** The data first, then the sender, both outside the lock. */
    method Dispatch(staleData: Option<Data>, sender: Option<Request>, outcome: Outcome)
      requires Valid() && !locked
      requires sender.Some? ==> sender.value in world.inflight && world.inflight[sender.value] == outcome
      modifies this
      ensures Valid() && !locked && Calm(old(world), world)
      ensures world.inflight == if sender.Some? then old(world.inflight) - {sender.value} else old(world.inflight)
      ensures sender.Some? ==> sender.value in world.outcome && world.outcome[sender.value] == outcome
      ensures |script| <= |old(script)|
    {
      DropData(staleData);
      ghost var dropped := world;
      if sender.Some? {
        Send(sender.value, outcome);
        CalmAgain(old(world), dropped, world);
      }
    }

    /** Regardless of the sender: the future may be long gone while the data
        entry still needs its cleanup. */
    method TakeAdd(alert: Alert, expired: bool) returns (sender: Option<Request>, staleData: Option<Data>)
      requires Valid() && !locked && alert.AddAlert?
      requires world.lib.batch != [] && world.lib.batch[0] == alert
      requires expired ==> HandleExpired(world.lib.stages, alert)
      modifies this
      ensures Valid() && !locked && script == old(script)
      ensures world == AlertProcessed(old(world), expired)
      ensures sender == Get(old(addTorrent), alert.token)
      ensures staleData == if !Surviving(alert.token, Seen(alert, expired).result) && alert.token in old(clientData)
                           then Some(old(clientData)[alert.token]) else None
    {
      var token, result := alert.token, Seen(alert, expired).result;
      Lock();
      staleData := None;
      if Surviving(token, result) {
        handles := handles[token := result.handle];
      } else {
        staleData := Get(clientData, token);
        clientData := clientData - {token};
      }
      sender := Get(addTorrent, token);
      addTorrent := addTorrent - {token};
      NoteProcessed(expired);
      Release();
    }

    method ResolveTorrentRemoved(alert: Alert)
      requires Valid() && !locked && alert.RemovedAlert?
      requires world.lib.batch != [] && world.lib.batch[0] == alert
      modifies this
      ensures Valid() && !locked && Processed(old(world), world)
      ensures |script| <= |old(script)|
    {
      var data := TakeRemoved(alert);
      ghost var taken := world;
      DropData(data);
      ProcessedBy(old(world), false, taken, world);
    }

    method TakeRemoved(alert: Alert) returns (data: Option<Data>)
      requires Valid() && !locked && alert.RemovedAlert?
      requires world.lib.batch != [] && world.lib.batch[0] == alert
      modifies this
      ensures Valid() && !locked && script == old(script)
      ensures world == AlertProcessed(old(world), false)
      ensures data == if alert.token != 0 && alert.token in old(clientData)
                      then Some(old(clientData)[alert.token]) else None
    {
      var token := alert.token;
      if token == 0 {
        NoteProcessed(false);
        return None;
      }
      Lock();
      data := Get(clientData, token);
      clientData := clientData - {token};
      handles := handles - {token};
      NoteProcessed(false);
      Release();
    }

    // ---- teardown ------------------------------------------------------------

    /** Fails every pending request; client data and handles are left alone. */
    method Close()
      requires Valid() && !locked
      modifies this
      ensures Valid() && !locked && Settled(old(world), world)
      ensures closed && sessionStats == [] && addTorrent == map[] && handles == old(handles)
      ensures forall t :: AddIsOut(old(world), t) && t in old(clientData) ==> t in clientData
      ensures forall q :: Pending(old(world).reg, q) ==> q in world.outcome && world.outcome[q] == Closed
      ensures |script| <= |old(script)|
      decreases |script|, 5
    {
      CloseTakes(world);
      SendersAreTheirOwn(world);
      var stats, adds := TakeAll();
      ghost var taken := world;
      SendAll(stats, adds, Closed);
      CalmAgain(old(world), taken, world);
      ClosedSettles(old(world), taken, world);
      forall t | AddIsOut(old(world), t) && t in old(clientData)
        ensures t in clientData
      {
        assert DataStays(old(world), world, t);
      }
      ClosedIsEmpty(world);
    }

    method TakeAll() returns (stats: seq<nat>, adds: map<Token, Request>)
      requires Valid() && !locked
      modifies this
      ensures Valid() && !locked && script == old(script)
      ensures world == RegistryClosed(old(world)) && Calm(old(world), world)
      ensures stats == old(sessionStats) && adds == old(addTorrent)
      ensures forall q :: Listed(q, stats, adds) <==> Pending(old(world).reg, q)
    {
      Lock();
      closed := true;
      stats, adds := sessionStats, addTorrent;
      sessionStats, addTorrent := [], map[];
      Unlock(Action.Close);
    }
  }

  lemma DroppedTakes(r: Inner, alert: Alert, stats: seq<nat>, adds: map<Token, Request>)
    requires alert.DroppedAlert?
    requires stats == if StatsDropped(alert) then r.stats else []
    requires adds == if AddsDropped(alert) then r.adds else map[]
    ensures forall q :: Listed(q, stats, adds) <==> q in Resolve(r, alert).1
    ensures forall q :: q in Resolve(r, alert).1 ==> Resolve(r, alert).1[q] == OverflowError
  {
  }

  lemma ClosedIsEmpty(s: State)
    requires Reachable(s) && s.reg.closed
    ensures s.reg.stats == [] && s.reg.adds == map[]
  {
    SoundAlways(s);
  }

  lemma SendersAreTheirOwn(s: State)
    requires Reachable(s)
    ensures forall t :: t in s.reg.adds ==> s.reg.adds[t] == AddRequest(t)
    ensures forall i, j :: 0 <= i < j < |s.reg.stats| ==> s.reg.stats[i] != s.reg.stats[j]
  {
    SoundAlways(s);
  }

  lemma CloseTakes(s: State)
    requires Reachable(s)
    ensures forall q :: Pending(s.reg, q) ==> q !in s.inflight
    ensures forall q :: q in Step(s, Close).inflight <==> q in s.inflight || Pending(s.reg, q)
    ensures forall q :: Pending(s.reg, q) ==> Step(s, Close).inflight[q] == Closed
    ensures forall q :: q in s.inflight ==> Step(s, Close).inflight[q] == s.inflight[q]
  {
    forall q
      ensures Pending(s.reg, q) ==> q !in s.inflight
    {
      EverySenderOnce(s, q);
    }
  }

  lemma ClosedSettles(w: State, taken: State, w': State)
    requires Reachable(w) && taken == RegistryClosed(w)
    requires forall q :: q in w'.inflight <==> q in taken.inflight && !Pending(w.reg, q)
    requires forall q :: q in w'.inflight ==> w'.inflight[q] == taken.inflight[q]
    ensures w'.inflight == w.inflight
  {
    CloseTakes(w);
  }

  /** Taking under the lock, then sending everything taken, processes the alert. */
  lemma ProcessedBy(w: State, expired: bool, taken: State, w': State)
    requires Reachable(w) && w.lib.batch != []
    requires taken == AlertProcessed(w, expired) && Calm(taken, w')
    requires forall q :: q in w'.inflight <==> q in taken.inflight && q !in Sent(w, expired)
    requires forall q :: q in w'.inflight ==> w'.inflight[q] == taken.inflight[q]
    requires forall q :: q in Sent(w, expired) ==> q in w'.outcome && w'.outcome[q] == Sent(w, expired)[q]
    ensures Processed(w, w')
  {
    TakenIsNew(w, expired);
    assert Saw(Seen(w.lib.batch[0], expired), w.lib.batch[0]);
    assert w'.inflight == w.inflight;
    forall t | t in w.lib.stages && t !in taken.reg.data
      ensures t !in w'.reg.data
    {
      assert DataStays(taken, w', t);
    }
    forall t | AddIsOut(w, t) && t in taken.reg.data
      ensures t in w'.reg.data
    {
      assert DataStays(taken, w', t);
    }
  }

  lemma AllVisible(popped: State, s: State, batch: seq<Alert>, seen: seq<Alert>)
    requires Reachable(popped) && Reachable(s)
    requires s.log == popped.log + seen && SawAll(seen, batch)
    ensures forall t: Token :: Visible(s, batch, seen, t)
  {
    AllTrackedAlways(popped);
    AllTrackedAlways(s);
    forall t: Token
      ensures Visible(s, batch, seen, t)
    {
      assert Tracked(popped, t) && Tracked(s, t);
      BatchStory(popped, s, batch, seen, t);
    }
  }

  lemma SawOneMore(seen: seq<Alert>, alerts: seq<Alert>, s: Alert, a: Alert)
    requires SawAll(seen, alerts) && Saw(s, a)
    ensures SawAll(seen + [s], alerts + [a])
  {
  }

  /** Senders taken for an alert were not on their way already. */
  lemma TakenIsNew(s: State, expired: bool)
    requires Reachable(s) && s.lib.batch != []
    ensures forall q :: q in Sent(s, expired) ==> q !in s.inflight && q !in s.outcome
    ensures forall i, j :: 0 <= i < j < |s.reg.stats| ==> s.reg.stats[i] != s.reg.stats[j]
    ensures forall t :: t in s.reg.adds ==> s.reg.adds[t] == AddRequest(t)
  {
    SoundAlways(s);
    forall q | q in Sent(s, expired)
      ensures q !in s.inflight && q !in s.outcome
    {
      ResolveMoves(s.reg, Seen(s.lib.batch[0], expired), q);
      assert Places(s, q) == One(Issued(s, q));
    }
  }
}
