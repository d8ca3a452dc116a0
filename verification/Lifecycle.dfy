/** A torrent's client data and live handle, from the mint of its token to its
    removal alert, over whole runs. */
module Lifecycle {
  import opened Common
  import opened Protocol

  predicate Concerns(a: Alert, t: Token) {
    (a.AddAlert? || a.RemovedAlert?) && a.token == t
  }

  /** The alerts about one token, in order. */
  function About(alerts: seq<Alert>, t: Token): seq<Alert> {
    if alerts == [] then []
    else if Concerns(alerts[0], t) then [alerts[0]] + About(alerts[1..], t)
    else About(alerts[1..], t)
  }

  predicate IsSurvivingAdd(a: Alert, t: Token) {
    a.AddAlert? && a.token == t && Surviving(t, a.result)
  }

  /** Every alert about the token that was not dropped: processed ones as they
      were seen, then those still to come. */
  function Story(s: State, t: Token): seq<Alert> {
    About(s.log, t) + (About(s.lib.batch, t) + About(s.lib.queue, t))
  }

  /** The whole story a token can have, by what libtorrent did with it. An
      overflow can drop either alert, and an add processed after the handles
      expired was not seen as surviving. */
  predicate StoryFits(stages: map<Token, Stage>, t: Token, story: seq<Alert>) {
    story == [] ||
    (t in stages &&
     match stages[t]
     case Live => |story| == 1 && IsSurvivingAdd(story[0], t)
     case Rejected => |story| == 1 && story[0].AddAlert? && story[0].token == t
                      && !Surviving(t, story[0].result)
     case Removed =>
       || (|story| == 1 && (IsSurvivingAdd(story[0], t) || story[0] == RemovedAlert(t)))
       || (|story| == 2 && IsSurvivingAdd(story[0], t) && story[1] == RemovedAlert(t))
     case Expired =>
       || (|story| == 1 && (IsAdd(story[0], t) || story[0] == RemovedAlert(t)))
       || (|story| == 2 && IsAdd(story[0], t) && story[1] == RemovedAlert(t))
     case _ => false)
  }

  /** The token's torrent was added for good, as far as processed alerts say. */
  predicate KnownLive(seen: seq<Alert>, t: Token) {
    |seen| == 1 && IsSurvivingAdd(seen[0], t)
  }

  ghost predicate Tracked(s: State, t: Token) {
    && (t in s.lib.stages <==> 1 <= t <= s.reg.nextId)
    && StoryFits(s.lib.stages, t, Story(s, t))
    && (t in s.reg.handles <==> KnownLive(About(s.log, t), t))
    && (t in s.reg.handles ==> s.reg.handles[t] == About(s.log, t)[0].result.handle)
    && (t in s.reg.data <==>
          && t in s.lib.stages && !s.lib.stages[t].Refused?
          && (About(s.log, t) == [] || KnownLive(About(s.log, t), t)))
  }

  ghost predicate AllTracked(s: State) {
    forall t: Token :: Tracked(s, t)
  }

  lemma {:induction false} AboutConcat(a: seq<Alert>, b: seq<Alert>, t: Token)
    ensures About(a + b, t) == About(a, t) + About(b, t)
  {
    if a == [] {
      assert a + b == b;
    } else {
      AboutConcat(a[1..], b, t);
      assert (a + b)[1..] == a[1..] + b;
      if Concerns(a[0], t) {
        Assoc([a[0]], About(a[1..], t), About(b, t));
      }
    }
  }

  lemma {:induction false} AboutContains(alerts: seq<Alert>, a: Alert, t: Token)
    requires Concerns(a, t)
    ensures a in alerts <==> a in About(alerts, t)
  {
    if alerts != [] {
      AboutContains(alerts[1..], a, t);
    }
  }

  lemma StoryEmitted(s: State, t: Token, lib: Lib, a: Alert, ty: nat, drop: bool)
    requires lib.batch == s.lib.batch && lib.queue == s.lib.queue
    ensures Story(s.(lib := Emit(lib, a, ty, drop)), t) ==
            Story(s, t) + (if !drop && Concerns(a, t) then [a] else [])
  {
    AboutConcat(s.lib.queue, [a], t);
  }

  lemma StoryKept(s: State, t: Token)
    requires s.lib.batch == []
    ensures Story(s.(lib := Popped(s.lib)), t) == Story(s, t)
  {
    var tail := Popped(s.lib).batch[|s.lib.queue|..];
    assert Popped(s.lib).batch == s.lib.queue + tail;
    AboutConcat(s.lib.queue, tail, t);
    assert About(tail, t) == [];
  }

  lemma TrackedExpired(s: State, u: Token, t: Token)
    requires u in s.lib.stages && s.lib.stages[u].Removed? && Tracked(s, t)
    ensures Tracked(s.(lib := HandlesExpired(s.lib, u)), t)
  {
    assert Story(s.(lib := HandlesExpired(s.lib, u)), t) == Story(s, t);
  }

  lemma TrackedAdd(s: State, u: Token, result: AddResult, drop: bool, t: Token)
    requires u in s.lib.stages && s.lib.stages[u].Posted? && Tracked(s, t)
    ensures Tracked(s.(lib := AddAnswered(s.lib, u, result, drop)), t)
  {
    var lib := s.lib.(stages := s.lib.stages[u := if Surviving(u, result) then Live else Rejected]);
    StoryEmitted(s, t, lib, AddAlert(u, result), ALERT_ADD_TORRENT, drop);
  }

  lemma TrackedRemoved(s: State, u: Token, drop: bool, t: Token)
    requires u in s.lib.stages && s.lib.stages[u].Live? && Tracked(s, t)
    ensures Tracked(s.(lib := TorrentGone(s.lib, u, drop)), t)
  {
    var lib := s.lib.(stages := s.lib.stages[u := Removed]);
    StoryEmitted(s, t, lib, RemovedAlert(u), ALERT_TORRENT_REMOVED, drop);
  }

  lemma TrackedUnrelated(s: State, lib: Lib, a: Alert, ty: nat, drop: bool, t: Token)
    requires Tracked(s, t) && !Concerns(a, t)
    requires lib.batch == s.lib.batch && lib.queue == s.lib.queue && lib.stages == s.lib.stages
    ensures Tracked(s.(lib := Emit(lib, a, ty, drop)), t)
  {
    StoryEmitted(s, t, lib, a, ty, drop);
  }

  lemma TrackedLib(s: State, a: Action, t: Token)
    requires Enabled(s, a) && Tracked(s, t)
    requires a.LibStats? || a.LibAdd? || a.LibRemoved? || a.LibExpired? || a.LibOther?
    ensures Tracked(Step(s, a), t)
  {
    match a
    case LibStats(drop) =>
      var n := s.lib.posted[0];
      var lib := s.lib.(posted := s.lib.posted[1..], lost := if drop then s.lib.lost + [n] else s.lib.lost);
      TrackedUnrelated(s, lib, StatsAlert(n), ALERT_SESSION_STATS, drop, t);
    case LibAdd(u, result, drop) => TrackedAdd(s, u, result, drop, t);
    case LibRemoved(u, drop) => TrackedRemoved(s, u, drop, t);
    case LibExpired(u) => TrackedExpired(s, u, t);
    case LibOther(ty, drop) => TrackedUnrelated(s, s.lib, OtherAlert, ty, drop, t);
  }

  /** Processing moves the next alert of the story into the log, as it is seen. */
  lemma StoryGoesOn(s: State, expired: bool, t: Token)
    requires s.lib.batch != [] && Concerns(s.lib.batch[0], t)
    ensures var seen, story, alert := About(s.log, t), Story(s, t), Seen(s.lib.batch[0], expired);
      && |seen| < |story| && seen == story[..|seen|] && story[|seen|] == s.lib.batch[0]
      && About(s.log + [alert], t) == seen + [alert]
      && Story(AlertProcessed(s, expired), t) == story[|seen| := alert]
  {
    var alert := Seen(s.lib.batch[0], expired);
    var later, queued := About(s.lib.batch[1..], t), About(s.lib.queue, t);
    SeenConcerns(s.log, alert, t);
    Assoc([s.lib.batch[0]], later, queued);
    Substituted(About(s.log, t), s.lib.batch[0], alert, later + queued);
  }

  lemma Substituted(a: seq<Alert>, x: Alert, y: Alert, c: seq<Alert>)
    ensures var s := a + ([x] + c);
      |a| < |s| && a == s[..|a|] && s[|a|] == x && (a + [y]) + c == s[|a| := y]
  {
  }

  lemma SeenConcerns(log: seq<Alert>, a: Alert, t: Token)
    requires Concerns(a, t)
    ensures About(log + [a], t) == About(log, t) + [a]
  {
    AboutConcat(log, [a], t);
    assert About([a], t) == [a];
  }

  lemma SeenUnrelated(log: seq<Alert>, a: Alert, t: Token)
    requires !Concerns(a, t)
    ensures About(log + [a], t) == About(log, t)
  {
    AboutConcat(log, [a], t);
    assert About([a], t) == [];
    assert About(log, t) + [] == About(log, t);
  }

  lemma TrackedProcessed(s: State, a: Action, t: Token)
    requires a.ProcessNext? && Enabled(s, a) && Tracked(s, t)
    ensures Tracked(Step(s, a), t)
  {
    var alert := Seen(s.lib.batch[0], a.expired);
    if Concerns(alert, t) {
      StoryGoesOn(s, a.expired, t);
      ProcessedFits(s.reg, s.lib.stages, t, About(s.log, t), s.lib.batch[0], a.expired, Story(s, t));
    } else {
      SeenUnrelated(s.log, alert, t);
      UnrelatedResolve(s.reg, alert, t);
    }
  }

  lemma UnrelatedResolve(r: Inner, a: Alert, t: Token)
    requires !Concerns(a, t)
    ensures var r' := Resolve(r, a).0;
      && r'.nextId == r.nextId
      && (t in r'.data <==> t in r.data) && (t in r'.handles <==> t in r.handles)
      && (t in r.data ==> r'.data[t] == r.data[t])
      && (t in r.handles ==> r'.handles[t] == r.handles[t])
  {
  }

  /** The registry's maps after an alert about the token, given what preceded
      it in the token's story. */
  lemma ProcessedFits(r: Inner, stages: map<Token, Stage>, t: Token,
                      seen: seq<Alert>, next: Alert, expired: bool, story: seq<Alert>)
    requires Concerns(next, t) && StoryFits(stages, t, story)
    requires |seen| < |story| && seen == story[..|seen|] && story[|seen|] == next
    requires expired ==> HandleExpired(stages, next)
    requires t in stages ==> t != 0
    requires t in r.handles <==> KnownLive(seen, t)
    requires t in r.data <==> t in stages && !stages[t].Refused? && (seen == [] || KnownLive(seen, t))
    ensures var alert := Seen(next, expired);
      var r' := Resolve(r, alert).0;
      && StoryFits(stages, t, story[|seen| := alert])
      && (t in r'.handles <==> KnownLive(seen + [alert], t))
      && (t in r'.handles ==> r'.handles[t] == (seen + [alert])[0].result.handle)
      && (t in r'.data <==> t in stages && !stages[t].Refused? && KnownLive(seen + [alert], t))
  {
  }

  lemma TrackedCaller(s: State, a: Action, t: Token)
    requires Enabled(s, a) && Tracked(s, t)
    requires !a.LibStats? && !a.LibAdd? && !a.LibRemoved? && !a.LibExpired? && !a.LibOther? && !a.ProcessNext?
    requires a.EnqueueAdd? ==> (s.reg.nextId + 1 !in s.lib.stages)
    ensures Tracked(Step(s, a), t)
  {
    if a.Pop? {
      StoryKept(s, t);
    } else {
      assert Story(Step(s, a), t) == Story(s, t);
    }
  }

  lemma AllTrackedStep(s: State, a: Action)
    requires Enabled(s, a) && AllTracked(s)
    ensures AllTracked(Step(s, a))
  {
    assert Tracked(s, s.reg.nextId + 1);
    forall t: Token
      ensures Tracked(Step(s, a), t)
    {
      assert Tracked(s, t);
      if a.ProcessNext? {
        TrackedProcessed(s, a, t);
      } else if a.LibStats? || a.LibAdd? || a.LibRemoved? || a.LibExpired? || a.LibOther? {
        TrackedLib(s, a, t);
      } else {
        TrackedCaller(s, a, t);
      }
    }
  }

  lemma {:induction false} AllTrackedTrace(trace: seq<State>, i: nat)
    requires IsTrace(trace) && i < |trace|
    ensures AllTracked(trace[i])
  {
    if i > 0 {
      AllTrackedTrace(trace, i - 1);
      assert LinkedAt(trace, i);
      var a :| Follows(trace[i - 1], a, trace[i]);
      AllTrackedStep(trace[i - 1], a);
    }
  }

  lemma AllTrackedAlways(s: State)
    requires Reachable(s)
    ensures AllTracked(s)
  {
    var trace :| IsTrace(trace) && trace[|trace| - 1] == s;
    AllTrackedTrace(trace, |trace| - 1);
  }

  // ---- the theorems ----------------------------------------------------------

  /** An add alert for the token was processed, and its handle, asked then,
      named the token. */
  ghost predicate SurvivingAddSeen(s: State, t: Token) {
    exists h :: AddAlert(t, Attached(h)) in s.log && h.userdata == t
  }

  ghost predicate AddProcessed(s: State, t: Token) {
    exists a :: a in s.log && IsAdd(a, t)
  }

  /** Lookup by token succeeds exactly when an add alert for it was seen as
      surviving and no removed alert for it was processed; it yields that
      alert's handle. */
  lemma LookupIsExact(s: State, t: Token)
    requires Reachable(s)
    ensures t in s.reg.handles <==> SurvivingAddSeen(s, t) && RemovedAlert(t) !in s.log
    ensures t in s.reg.handles ==> AddAlert(t, Attached(s.reg.handles[t])) in s.log
  {
    AllTrackedAlways(s);
    assert Tracked(s, t);
    LookupByLog(s, t);
  }

  lemma LookupByLog(s: State, t: Token)
    requires Tracked(s, t)
    ensures t in s.reg.handles <==> SurvivingAddSeen(s, t) && RemovedAlert(t) !in s.log
    ensures t in s.reg.handles ==> AddAlert(t, Attached(s.reg.handles[t])) in s.log
  {
    var seen := About(s.log, t);
    assert seen == Story(s, t)[..|seen|];
    AboutContains(s.log, RemovedAlert(t), t);
    if t in s.reg.handles {
      AboutContains(s.log, seen[0], t);
      assert seen[0] in seen;
    }
    if SurvivingAddSeen(s, t) && RemovedAlert(t) !in s.log {
      var h :| AddAlert(t, Attached(h)) in s.log && h.userdata == t;
      AboutContains(s.log, AddAlert(t, Attached(h)), t);
      assert forall i :: 0 <= i < |seen| ==> seen[i] in seen;
    }
  }

  /** While its torrent lives, a token is found exactly from the moment its add
      alert was processed: no handle of a live torrent is ever seen expired. */
  lemma LiveIsFound(s: State, t: Token)
    requires Reachable(s) && t in s.lib.stages && s.lib.stages[t].Live?
    ensures t in s.reg.handles <==> AddProcessed(s, t)
  {
    AllTrackedAlways(s);
    assert Tracked(s, t);
    var seen := About(s.log, t);
    assert seen == Story(s, t)[..|seen|];
    if AddProcessed(s, t) {
      var a :| a in s.log && IsAdd(a, t);
      AboutContains(s.log, a, t);
    }
    if t in s.reg.handles {
      AboutContains(s.log, seen[0], t);
      assert seen[0] in seen;
    }
  }

  /** A token that can be looked up has client data, and its handle is the one
      libtorrent attached under that very token. */
  lemma HandlesHaveData(s: State)
    requires Reachable(s)
    ensures s.reg.handles.Keys <= s.reg.data.Keys
    ensures forall t :: t in s.reg.handles ==> s.reg.handles[t].userdata == t
  {
    AllTrackedAlways(s);
    forall t | t in s.reg.handles
      ensures t in s.reg.data && s.reg.handles[t].userdata == t
    {
      assert Tracked(s, t);
    }
  }

  lemma DataGoneStep(s: State, a: Action, t: Token)
    requires Enabled(s, a) && t in s.lib.stages && t !in s.reg.data
    requires t in s.lib.stages <==> 1 <= t <= s.reg.nextId
    ensures t in Step(s, a).lib.stages && t !in Step(s, a).reg.data
  {
  }

  /** Client data lives over one interval: once a minted token has lost its
      entry, nothing brings it back. */
  lemma {:induction false} DataNeverRestarts(s: State, actions: seq<Action>, t: Token)
    requires Reachable(s) && Runs(s, actions)
    requires t in s.lib.stages && t !in s.reg.data
    ensures t !in After(s, actions).reg.data
    decreases |actions|
  {
    if actions != [] {
      AllTrackedAlways(s);
      assert Tracked(s, t);
      DataGoneStep(s, actions[0], t);
      ReachableStep(s, actions[0]);
      DataNeverRestarts(Step(s, actions[0]), actions[1..], t);
    }
  }

  /** An add whose handle names another token, or none, reaches its own future
      with that torrent's handle, loses its own data, and leaves every other
      entry findable and as it was. */
  lemma DuplicateAddSparesOriginal(s: State, expired: bool, t: Token, h: Handle)
    requires Reachable(s) && Enabled(s, ProcessNext(expired))
    requires Seen(s.lib.batch[0], expired) == AddAlert(t, Attached(h)) && h.userdata != t
    ensures var s' := Step(s, ProcessNext(expired));
      && t !in s'.reg.data && t !in s'.reg.handles
      && (forall u :: u != t ==>
            && (u in s'.reg.data <==> u in s.reg.data)
            && (u in s.reg.data ==> s'.reg.data[u] == s.reg.data[u]))
      && s'.reg.handles == s.reg.handles
      && (t in s.reg.adds ==> AddRequest(t) in s'.inflight && s'.inflight[AddRequest(t)] == Added(h))
  {
    AllTrackedAlways(s);
    assert Tracked(s, t);
    StoryGoesOn(s, expired, t);
  }

  // ---- a batch handed to the caller ------------------------------------------

  /** What processing saw of these alerts, one by one. */
  ghost predicate SawAll(seen: seq<Alert>, alerts: seq<Alert>) {
    |seen| == |alerts| && forall i :: 0 <= i < |seen| ==> Saw(seen[i], alerts[i])
  }

  ghost predicate Saw(seen: Alert, a: Alert) {
    seen == Seen(a, false) || seen == Seen(a, true)
  }

  lemma BatchStands(s: State, a: Action)
    requires Enabled(s, a) && !a.Pop? && !a.ProcessNext?
    ensures Step(s, a).log == s.log && Step(s, a).lib.batch == s.lib.batch
  {
  }

  lemma SawNext(log: seq<Alert>, a: Alert, batch: seq<Alert>, log': seq<Alert>, rest: seq<Alert>)
    requires batch != [] && Saw(a, batch[0]) && log + [a] <= log'
    requires SawAll(log'[|log| + 1..] + rest, batch[1..])
    ensures SawAll(log'[|log|..] + rest, batch)
  {
    var later := log'[|log| + 1..] + rest;
    assert log'[|log|] == a;
    assert log'[|log|..] + rest == [a] + later;
    forall i | 0 < i < |batch|
      ensures Saw(([a] + later)[i], batch[i])
    {
      assert Saw(later[i - 1], batch[1..][i - 1]);
    }
  }

  lemma {:induction false} BatchIsLogged(s: State, actions: seq<Action>)
    requires Runs(s, actions)
    requires forall i :: 0 <= i < |actions| ==> !actions[i].Pop?
    ensures s.log <= After(s, actions).log
    ensures SawAll(After(s, actions).log[|s.log|..] + After(s, actions).lib.batch, s.lib.batch)
    decreases |actions|
  {
    if actions == [] {
      assert s.log[|s.log|..] + s.lib.batch == s.lib.batch;
    } else {
      var s' := After(s, actions);
      BatchIsLogged(Step(s, actions[0]), actions[1..]);
      if actions[0].ProcessNext? {
        SawNext(s.log, Seen(s.lib.batch[0], actions[0].expired), s.lib.batch, s'.log, s'.lib.batch);
      } else {
        BatchStands(s, actions[0]);
      }
    }
  }

  /** The token's torrent was added, and its handles have not expired. */
  predicate StillAttached(stages: map<Token, Stage>, t: Token) {
    t in stages && (stages[t].Live? || stages[t].Removed?)
  }

  /** What must hold of a token once a batch was walked: `seen` is the batch as
      it was seen. */
  ghost predicate Visible(s: State, batch: seq<Alert>, seen: seq<Alert>, t: Token) {
    && (RemovedAlert(t) in batch ==> t !in s.reg.handles && t !in s.reg.data)
    && ((exists h :: AddAlert(t, Attached(h)) in seen && h.userdata == t) && RemovedAlert(t) !in batch
        ==> t in s.reg.handles && t in s.reg.data)
    && ((exists a :: a in batch && IsAdd(a, t)) && RemovedAlert(t) !in batch && StillAttached(s.lib.stages, t)
        ==> t in s.reg.handles && t in s.reg.data)
  }

  /** When the batch popped in `s` has been walked to its end, whatever anybody
      else did meanwhile, the registry reflects all of it: a token it removed is
      not found; a token it added for good, as the handle said when asked, is
      found unless it also removed it, and so is any token it added whose
      handles have not expired by now. */
  lemma BatchIsVisible(s: State, actions: seq<Action>, t: Token)
    requires Reachable(s) && Runs(s, actions)
    requires forall i :: 0 <= i < |actions| ==> !actions[i].Pop?
    requires After(s, actions).lib.batch == []
    ensures var s' := After(s, actions);
      s.log <= s'.log && Visible(s', s.lib.batch, s'.log[|s.log|..], t)
  {
    var s' := After(s, actions);
    ReachableAfter(s, actions);
    AllTrackedAlways(s);
    AllTrackedAlways(s');
    BatchIsLogged(s, actions);
    assert s'.log[|s.log|..] + [] == s'.log[|s.log|..];
    BatchStory(s, s', s.lib.batch, s'.log[|s.log|..], t);
  }

  lemma SawRemoved(seen: seq<Alert>, batch: seq<Alert>, t: Token)
    requires SawAll(seen, batch)
    ensures RemovedAlert(t) in seen <==> RemovedAlert(t) in batch
  {
    if RemovedAlert(t) in batch {
      var i :| 0 <= i < |batch| && batch[i] == RemovedAlert(t);
      assert Saw(seen[i], batch[i]);
    }
    if RemovedAlert(t) in seen {
      var i :| 0 <= i < |seen| && seen[i] == RemovedAlert(t);
      assert Saw(seen[i], batch[i]);
    }
  }

  lemma SawAdd(seen: seq<Alert>, batch: seq<Alert>, a: Alert, t: Token)
    requires SawAll(seen, batch) && a in batch && IsAdd(a, t)
    ensures exists b :: b in seen && IsAdd(b, t)
  {
    var i :| 0 <= i < |batch| && batch[i] == a;
    assert Saw(seen[i], batch[i]);
    assert seen[i] in seen && IsAdd(seen[i], t);
  }

  lemma BatchStory(s: State, s': State, batch: seq<Alert>, seen: seq<Alert>, t: Token)
    requires Tracked(s, t) && Tracked(s', t)
    requires s'.log == s.log + seen && SawAll(seen, batch)
    ensures Visible(s', batch, seen, t)
  {
    AboutConcat(s.log, seen, t);
    SawRemoved(seen, batch, t);
    AboutContains(seen, RemovedAlert(t), t);
    if RemovedAlert(t) in batch {
      RemovedIsGone(s', About(s.log, t), About(seen, t), t);
    } else {
      if a :| StillAttached(s'.lib.stages, t) && a in batch && IsAdd(a, t) {
        SawAdd(seen, batch, a, t);
        var b :| b in seen && IsAdd(b, t);
        AboutContains(seen, b, t);
        AddedIsFound(s', About(s.log, t), About(seen, t), b, t);
      }
      if h :| AddAlert(t, Attached(h)) in seen && h.userdata == t {
        AboutContains(seen, AddAlert(t, Attached(h)), t);
        AddedIsFound(s', About(s.log, t), About(seen, t), AddAlert(t, Attached(h)), t);
      }
    }
  }

  lemma RemovedIsGone(s: State, before: seq<Alert>, here: seq<Alert>, t: Token)
    requires Tracked(s, t) && About(s.log, t) == before + here && RemovedAlert(t) in here
    ensures t !in s.reg.handles && t !in s.reg.data
  {
    var i :| 0 <= i < |here| && here[i] == RemovedAlert(t);
    assert (before + here)[|before| + i] == RemovedAlert(t);
    assert before + here == Story(s, t)[..|before + here|];
  }

  lemma AddedIsFound(s: State, before: seq<Alert>, here: seq<Alert>, a: Alert, t: Token)
    requires Tracked(s, t) && About(s.log, t) == before + here
    requires a in here && IsAdd(a, t) && RemovedAlert(t) !in here
    requires IsSurvivingAdd(a, t) || StillAttached(s.lib.stages, t)
    ensures t in s.reg.handles && t in s.reg.data
  {
    var i :| 0 <= i < |here| && here[i] == a;
    assert (before + here)[|before| + i] == a;
    assert before + here == Story(s, t)[..|before + here|];
    assert before == [] && i == 0;
    assert forall j :: 0 <= j < |here| ==> here[j] in here;
  }
}
