/** Every sender is in exactly one place, is consumed once, and is consumed by
    what its future is owed. */
module Accounting {
  import opened Bitfields
  import opened Protocol
  import opened StatsOrder

  predicate Issued(s: State, q: Request) {
    match q
    case StatsRequest(n) => n < s.lib.nextStats
    case AddRequest(t) => 1 <= t <= s.reg.nextId
  }

  predicate Pending(r: Inner, q: Request) {
    match q
    case StatsRequest(n) => n in r.stats
    case AddRequest(t) => t in r.adds
  }

  function One(b: bool): nat {
    if b then 1 else 0
  }

  /** How many of the three places a sender can be in hold it. */
  function Places(s: State, q: Request): nat {
    One(Pending(s.reg, q)) + One(q in s.inflight) + One(q in s.outcome)
  }

  /** Each issued sender is waiting, or on its way, or consumed: never two of
      these and never lost. No sender appears that was not issued. */
  ghost predicate Accounted(s: State) {
    (forall q :: Places(s, q) == One(Issued(s, q))) && Tidy(s)
  }

  /** The senders taken for the head of the batch, with what each is sent. */
  function Sent(s: State, expired: bool): Taken
    requires s.lib.batch != []
  {
    Resolve(s.reg, Seen(s.lib.batch[0], expired)).1
  }

  /** Resolving an alert moves senders out of the registry, and only that. */
  lemma ResolveMoves(r: Inner, a: Alert, q: Request)
    requires forall i, j :: 0 <= i < j < |r.stats| ==> r.stats[i] != r.stats[j]
    ensures var (r', taken) := Resolve(r, a);
      One(Pending(r', q)) + One(q in taken) == One(Pending(r, q))
  {
    if a.StatsAlert? && r.stats != [] {
      assert r.stats == [r.stats[0]] + r.stats[1..];
    }
  }

  lemma PlacesProcessed(s: State, expired: bool, q: Request)
    requires s.lib.batch != [] && Accounted(s)
    ensures Places(AlertProcessed(s, expired), q) == One(Issued(s, q))
  {
    var taken := Sent(s, expired);
    ResolveMoves(s.reg, Seen(s.lib.batch[0], expired), q);
    assert Places(s, q) == One(Issued(s, q));
    assert q in AlertProcessed(s, expired).inflight <==> q in s.inflight || q in taken;
  }

  lemma PlacesIssued(s: State, a: Action, q: Request)
    requires (a.EnqueueStats? || a.EnqueueAdd?) && Places(s, q) == One(Issued(s, q))
    ensures Places(Step(s, a), q) == One(Issued(Step(s, a), q))
  {
  }

  lemma PlacesClosed(s: State, q: Request)
    requires Places(s, q) == One(Issued(s, q))
    ensures Places(RegistryClosed(s), q) == One(Issued(s, q))
  {
    assert q in RegistryClosed(s).inflight <==> q in s.inflight || Pending(s.reg, q);
  }

  lemma PlacesOther(s: State, a: Action, q: Request)
    requires Enabled(s, a) && !a.ProcessNext?
    requires Places(s, q) == One(Issued(s, q))
    ensures Places(Step(s, a), q) == One(Issued(Step(s, a), q))
  {
    if a.EnqueueStats? || a.EnqueueAdd? {
      PlacesIssued(s, a, q);
    } else if a.Close? {
      PlacesClosed(s, q);
    }
  }

  lemma AccountedStep(s: State, a: Action)
    requires Enabled(s, a) && Accounted(s) && InOrder(s)
    ensures Accounted(Step(s, a))
  {
    var s' := Step(s, a);
    forall q
      ensures Places(s', q) == One(Issued(s', q))
    {
      if a.ProcessNext? {
        PlacesProcessed(s, a.expired, q);
        assert Issued(s', q) == Issued(s, q);
      } else {
        assert Places(s, q) == One(Issued(s, q));
        PlacesOther(s, a, q);
      }
    }
    TidyStep(s, a);
  }

  ghost predicate Tidy(s: State) {
    && (forall i, j :: 0 <= i < j < |s.reg.stats| ==> s.reg.stats[i] != s.reg.stats[j])
    && (forall t :: t in s.lib.stages <==> 1 <= t <= s.reg.nextId)
    && (forall t :: t in s.reg.adds ==> s.reg.adds[t] == AddRequest(t))
    && (s.reg.closed ==> s.reg.adds == map[] && s.reg.stats == [])
    && GoneWereHandedOut(s)
  }

  ghost predicate GoneWereHandedOut(s: State) {
    forall q :: q in s.gone ==> HandedOut(s, q)
  }

  lemma GoneStep(s: State, a: Action)
    requires Enabled(s, a) && GoneWereHandedOut(s) && s.reg.nextId + 1 !in s.lib.stages
    ensures GoneWereHandedOut(Step(s, a))
  {
    forall q | q in Step(s, a).gone
      ensures HandedOut(Step(s, a), q)
    {
      assert HandedOut(s, q);
      HandedOutStays(s, a, q);
    }
  }

  lemma HandedOutStays(s: State, a: Action, q: Request)
    requires Enabled(s, a) && s.reg.nextId + 1 !in s.lib.stages
    requires HandedOut(s, q)
    ensures HandedOut(Step(s, a), q)
  {
  }

  lemma TidyProcessed(s: State, expired: bool)
    requires s.lib.batch != [] && Tidy(s)
    ensures Tidy(AlertProcessed(s, expired))
  {
  }

  lemma TidyPosted(s: State, ok: bool)
    requires Tidy(s) && Places(s, StatsRequest(s.lib.nextStats)) == 0
    ensures Tidy(StatsEnqueued(s, ok))
  {
  }

  lemma TidyOther(s: State, a: Action)
    requires Enabled(s, a) && Tidy(s) && !a.ProcessNext? && !a.EnqueueStats?
    ensures Tidy(Step(s, a))
  {
    GoneStep(s, a);
  }

  lemma TidyStep(s: State, a: Action)
    requires Enabled(s, a) && Accounted(s)
    ensures Tidy(Step(s, a))
  {
    if a.EnqueueStats? {
      assert Places(s, StatsRequest(s.lib.nextStats)) == 0;
      TidyPosted(s, a.postOk);
    } else if a.ProcessNext? {
      TidyProcessed(s, a.expired);
    } else {
      TidyOther(s, a);
    }
  }

  // ---- what each sender is consumed with -------------------------------------

  ghost predicate Justified(s: State, q: Request, o: Outcome) {
    match q
    case StatsRequest(n) =>
      (match o
       case Counters(m) =>
         && m <= n
         && m + |Owed(s.lib)| < s.lib.nextStats
         && StatsAlert(m) in s.log
         && (NoStatsOverflow(s.log) ==> m == n)
       case OverflowError => exists a :: a in s.log && StatsDropped(a)
       case Closed => s.reg.closed
       case _ => false)
    case AddRequest(t) =>
      (match o
       case Added(h) => AddAlert(t, Attached(h)) in s.log
       case AddFailed(code) => AddAlert(t, Failed(code)) in s.log
       case NullHandleError => AddAlert(t, NullHandle) in s.log
       case OverflowError => exists a :: a in s.log && AddsDropped(a)
       case Closed => s.reg.closed
       case Cancelled => q in s.gone
       case Aborted => t in s.lib.stages && s.lib.stages[t].Refused?
       case Counters(_) => false)
  }

  ghost predicate Fates(s: State, taken: Taken) {
    forall q :: q in taken ==> Justified(s, q, taken[q])
  }

  /** No two requests are answered with the same snapshot. */
  ghost predicate Distinct(s: State) {
    forall p, q :: p in Fated(s) && q in Fated(s) && p != q
      && Fated(s)[p].Counters? && Fated(s)[q].Counters?
      ==> Fated(s)[p].snapshot != Fated(s)[q].snapshot
  }

  function Fated(s: State): Taken {
    s.outcome + s.inflight
  }

  ghost predicate Fair(s: State) {
    Fates(s, s.inflight) && Fates(s, s.outcome) && Distinct(s)
  }

  /** The facts a fate rests on only ever become truer. */
  ghost predicate Grows(s: State, s': State) {
    && s.log <= s'.log
    && s.gone <= s'.gone
    && s.lib.nextStats - |Owed(s.lib)| <= s'.lib.nextStats - |Owed(s'.lib)|
    && (s.reg.closed ==> s'.reg.closed)
    && (forall t :: t in s.lib.stages && s.lib.stages[t].Refused?
                    ==> t in s'.lib.stages && s'.lib.stages[t].Refused?)
  }

  lemma NoOverflowPrefix(log: seq<Alert>, log': seq<Alert>)
    requires log <= log'
    ensures NoStatsOverflow(log') ==> NoStatsOverflow(log)
  {
    assert forall i :: 0 <= i < |log| ==> log[i] == log'[i];
  }

  lemma JustifiedGrows(s: State, s': State, q: Request, o: Outcome)
    requires Grows(s, s') && Justified(s, q, o)
    ensures Justified(s', q, o)
  {
    NoOverflowPrefix(s.log, s'.log);
    assert forall a :: a in s.log ==> a in s'.log;
  }

  lemma GrowsStep(s: State, a: Action)
    requires Enabled(s, a) && InOrder(s) && Accounted(s)
    ensures Grows(s, Step(s, a))
  {
    if a.ProcessNext? {
      OwedProcessed(s.lib);
    } else {
      OwedStep(s, a);
    }
  }

  /** A snapshot sent is the oldest one owed, and is sent to one request. */
  ghost predicate SentOk(s: State, expired: bool, q: Request)
    requires s.lib.batch != [] && q in Sent(s, expired)
  {
    var taken := Sent(s, expired);
    && Justified(AlertProcessed(s, expired), q, taken[q])
    && (taken[q].Counters? ==> taken[q].snapshot + |Owed(s.lib)| == s.lib.nextStats && taken == map[q := taken[q]])
  }

  lemma AddJustified(s: State, expired: bool, q: Request)
    requires s.lib.batch != [] && s.lib.batch[0].AddAlert? && q in Sent(s, expired)
    ensures SentOk(s, expired, q)
  {
    assert AlertProcessed(s, expired).log[|s.log|] == Seen(s.lib.batch[0], expired);
  }

  lemma OverflowJustified(s: State, expired: bool, q: Request)
    requires s.lib.batch != [] && s.lib.batch[0].DroppedAlert? && q in Sent(s, expired)
    ensures SentOk(s, expired, q)
  {
    assert AlertProcessed(s, expired).log[|s.log|] == s.lib.batch[0];
  }

  lemma StatsJustified(s: State, expired: bool, q: Request)
    requires s.lib.batch != [] && InOrder(s) && s.lib.batch[0].StatsAlert? && q in Sent(s, expired)
    ensures SentOk(s, expired, q)
  {
    var m := s.lib.batch[0].request;
    OwedProcessed(s.lib);
    NoOverflowBefore(s.log, StatsAlert(m));
    assert AlertProcessed(s, expired).log[|s.log|] == StatsAlert(m);
    assert Owed(s.lib)[0] == m;
    assert Owed(s.lib)[|Owed(s.lib)| - |s.reg.stats|] == s.reg.stats[0];
  }

  /** What processing an alert sends is justified by that alert. */
  lemma ResolveJustified(s: State, expired: bool, q: Request)
    requires s.lib.batch != [] && InOrder(s) && q in Sent(s, expired)
    ensures SentOk(s, expired, q)
  {
    match s.lib.batch[0]
    case StatsAlert(_) => StatsJustified(s, expired, q);
    case AddAlert(_, _) => AddJustified(s, expired, q);
    case DroppedAlert(_) => OverflowJustified(s, expired, q);
    case _ =>
  }

  /** A fate after processing is an old one, or comes from the alert. */
  lemma FateProcessed(s: State, a: Action, q: Request)
    requires a.ProcessNext? && Enabled(s, a) && InOrder(s) && Accounted(s) && Fair(s)
    requires q in Fated(Step(s, a))
    ensures var taken := Sent(s, a.expired);
      var o := Fated(Step(s, a))[q];
      && Justified(Step(s, a), q, o)
      && (q in taken ==> q !in Fated(s) && o == taken[q])
      && (q !in taken ==> q in Fated(s) && o == Fated(s)[q])
      && (q in Fated(s) && o.Counters? ==> o.snapshot + |Owed(s.lib)| < s.lib.nextStats)
      && (q in taken && o.Counters? ==> o.snapshot + |Owed(s.lib)| == s.lib.nextStats && taken == map[q := o])
  {
    ResolveMoves(s.reg, Seen(s.lib.batch[0], a.expired), q);
    assert Places(s, q) == One(Issued(s, q));
    if q in Sent(s, a.expired) {
      ResolveJustified(s, a.expired, q);
    } else {
      OldFate(s, a, q);
    }
  }

  lemma OldFate(s: State, a: Action, q: Request)
    requires Enabled(s, a) && InOrder(s) && Accounted(s) && Fair(s) && q in Fated(s)
    ensures Justified(Step(s, a), q, Fated(s)[q])
    ensures Fated(s)[q].Counters? ==> Fated(s)[q].snapshot + |Owed(s.lib)| < s.lib.nextStats
  {
    assert Justified(s, q, Fated(s)[q]);
    GrowsStep(s, a);
    JustifiedGrows(s, Step(s, a), q, Fated(s)[q]);
  }

  lemma FairProcessed(s: State, a: Action)
    requires a.ProcessNext? && Enabled(s, a) && InOrder(s) && Accounted(s) && Fair(s)
    ensures Fair(Step(s, a))
  {
    var s' := Step(s, a);
    AccountedStep(s, a);
    forall q | q in Fated(s')
      ensures Justified(s', q, Fated(s')[q])
      ensures q in s'.inflight ==> s'.inflight[q] == Fated(s')[q]
      ensures q in s'.outcome ==> s'.outcome[q] == Fated(s')[q]
    {
      FateProcessed(s, a, q);
      assert Places(s', q) <= 1;
    }
    DistinctProcessed(s, a);
  }

  lemma DistinctProcessed(s: State, a: Action)
    requires a.ProcessNext? && Enabled(s, a) && InOrder(s) && Accounted(s) && Fair(s)
    ensures Distinct(Step(s, a))
  {
    var s' := Step(s, a);
    forall p, q | p in Fated(s') && q in Fated(s') && p != q
        && Fated(s')[p].Counters? && Fated(s')[q].Counters?
      ensures Fated(s')[p].snapshot != Fated(s')[q].snapshot
    {
      FateProcessed(s, a, p);
      FateProcessed(s, a, q);
    }
  }

  /** Outside processing, a fate is an old one or comes from close, cancel or
      abort. */
  lemma FateOther(s: State, a: Action, q: Request)
    requires Enabled(s, a) && !a.ProcessNext? && InOrder(s) && Accounted(s) && Fair(s)
    requires q in Fated(Step(s, a))
    ensures Justified(Step(s, a), q, Fated(Step(s, a))[q])
    ensures q in Fated(s) ==> Fated(Step(s, a))[q] == Fated(s)[q]
    ensures q !in Fated(s) ==> !Fated(Step(s, a))[q].Counters?
  {
    assert Places(s, q) == One(Issued(s, q));
    if q in Fated(s) {
      OldFate(s, a, q);
      OldFateKept(s, a, q);
    } else {
      NewFate(s, a, q);
    }
  }

  lemma OldFateKept(s: State, a: Action, q: Request)
    requires Enabled(s, a) && !a.ProcessNext? && q in Fated(s) && Places(s, q) <= 1
    ensures q in Fated(Step(s, a)) && Fated(Step(s, a))[q] == Fated(s)[q]
  {
  }

  lemma NewFate(s: State, a: Action, q: Request)
    requires Enabled(s, a) && !a.ProcessNext? && q !in Fated(s) && q in Fated(Step(s, a))
    ensures Justified(Step(s, a), q, Fated(Step(s, a))[q])
    ensures !Fated(Step(s, a))[q].Counters?
  {
  }

  lemma FairOther(s: State, a: Action)
    requires Enabled(s, a) && !a.ProcessNext? && InOrder(s) && Accounted(s) && Fair(s)
    ensures Fair(Step(s, a))
  {
    var s' := Step(s, a);
    AccountedStep(s, a);
    forall q | q in Fated(s')
      ensures Justified(s', q, Fated(s')[q])
      ensures q in s'.inflight ==> s'.inflight[q] == Fated(s')[q]
      ensures q in s'.outcome ==> s'.outcome[q] == Fated(s')[q]
    {
      FateOther(s, a, q);
      assert Places(s', q) <= 1;
    }
    forall p, q | p in Fated(s') && q in Fated(s') && p != q
        && Fated(s')[p].Counters? && Fated(s')[q].Counters?
      ensures Fated(s')[p].snapshot != Fated(s')[q].snapshot
    {
      FateOther(s, a, p);
      FateOther(s, a, q);
    }
  }

  ghost predicate Sound(s: State) {
    InOrder(s) && Accounted(s) && Fair(s)
  }

  lemma SoundStep(s: State, a: Action)
    requires Enabled(s, a) && Sound(s)
    ensures Sound(Step(s, a))
  {
    InOrderStep(s, a);
    AccountedStep(s, a);
    if a.ProcessNext? {
      FairProcessed(s, a);
    } else {
      FairOther(s, a);
    }
  }

  lemma {:induction false} SoundTrace(trace: seq<State>, i: nat)
    requires IsTrace(trace) && i < |trace|
    ensures Sound(trace[i])
  {
    if i == 0 {
      assert forall q :: Places(INIT, q) == One(Issued(INIT, q));
    } else {
      SoundTrace(trace, i - 1);
      assert LinkedAt(trace, i);
      var a :| Follows(trace[i - 1], a, trace[i]);
      SoundStep(trace[i - 1], a);
    }
  }

  lemma SoundAlways(s: State)
    requires Reachable(s)
    ensures Sound(s)
  {
    var trace :| IsTrace(trace) && trace[|trace| - 1] == s;
    SoundTrace(trace, |trace| - 1);
  }

  // ---- the theorems ----------------------------------------------------------

  /** Exactly-once accounting, in every reachable state. */
  lemma EverySenderOnce(s: State, q: Request)
    requires Reachable(s)
    ensures Places(s, q) == One(Issued(s, q))
  {
    SoundAlways(s);
  }

  /** A stats future is never given the snapshot of a later request, nor one
      given to another future; with no overflow it is given its own. An add
      future is only ever given what the alert for its own token says. */
  lemma FatesAreOwn(s: State, q: Request)
    requires Reachable(s) && q in s.outcome
    ensures Justified(s, q, s.outcome[q])
    ensures q.StatsRequest? && s.outcome[q].Counters? ==>
      && s.outcome[q].snapshot <= q.number
      && (NoStatsOverflow(s.log) ==> s.outcome[q].snapshot == q.number)
      && (forall p :: p in s.outcome && p != q && s.outcome[p].Counters?
                      ==> s.outcome[p].snapshot != s.outcome[q].snapshot)
    ensures s.outcome[q].Cancelled? ==> HandedOut(s, q)
    ensures s.outcome[q].OverflowError? ==>
      exists a :: a in s.log && a.DroppedAlert? && |a.view| == 16
        && Dropped(a.view, if q.StatsRequest? then 70 else 67)
    ensures q.AddRequest? && s.outcome[q].Added? ==>
      AddAlert(q.token, Attached(s.outcome[q].handle)) in s.log
  {
    SoundAlways(s);
    forall p | p in s.outcome && p != q && s.outcome[p].Counters? && s.outcome[q].Counters?
      ensures s.outcome[p].snapshot != s.outcome[q].snapshot
    {
      assert Places(s, p) <= 1 && Places(s, q) <= 1;
      assert p in Fated(s) && q in Fated(s);
    }
  }

  lemma ConsumedStep(s: State, a: Action, q: Request)
    requires Enabled(s, a) && Places(s, q) <= 1 && q in s.outcome
    ensures q in Step(s, a).outcome && Step(s, a).outcome[q] == s.outcome[q]
  {
  }

  /** A consumed sender stays consumed, with the same result, for ever. */
  lemma {:induction false} ConsumedForEver(s: State, actions: seq<Action>, q: Request)
    requires Reachable(s) && Runs(s, actions) && q in s.outcome
    ensures q in After(s, actions).outcome && After(s, actions).outcome[q] == s.outcome[q]
    decreases |actions|
  {
    if actions != [] {
      EverySenderOnce(s, q);
      ConsumedStep(s, actions[0], q);
      ReachableStep(s, actions[0]);
      ConsumedForEver(Step(s, actions[0]), actions[1..], q);
    }
  }

  lemma ClosedStep(s: State, a: Action)
    requires Enabled(s, a) && s.reg.closed
    ensures var s' := Step(s, a);
      s'.reg.closed && s'.lib.nextStats == s.lib.nextStats && s'.reg.nextId == s.reg.nextId
  {
  }

  /** Once closed, the registry never holds a pending request again, and never
      issues another sender. */
  lemma {:induction false} ClosedForEver(s: State, actions: seq<Action>)
    requires Reachable(s) && Runs(s, actions) && s.reg.closed
    ensures var s' := After(s, actions);
      && s'.reg.closed && s'.reg.stats == [] && s'.reg.adds == map[]
      && s'.lib.nextStats == s.lib.nextStats && s'.reg.nextId == s.reg.nextId
    decreases |actions|
  {
    if actions == [] {
      SoundAlways(s);
    } else {
      ClosedStep(s, actions[0]);
      ReachableStep(s, actions[0]);
      ClosedForEver(Step(s, actions[0]), actions[1..]);
    }
  }

  // ---- what a statistics request will be answered with -----------------------

  /** How many of the responses owed no pending request waits for. */
  function Backlog(s: State): int {
    |Owed(s.lib)| - |s.reg.stats|
  }

  /** As long as a request stays pending, nothing changes the backlog. */
  lemma BacklogStands(s: State, a: Action, n: nat)
    requires Enabled(s, a) && InOrder(s)
    requires n in s.reg.stats && n in Step(s, a).reg.stats
    ensures Backlog(Step(s, a)) == Backlog(s)
  {
    if a.ProcessNext? {
      BacklogProcessed(s, a.expired, n);
    } else if a.EnqueueStats? {
      OwedPosted(s.lib, s.lib.nextStats);
    } else {
      OwedStep(s, a);
      NotClosedBy(s, a, n);
      StatsUntouched(s, a);
    }
  }

  lemma NotClosedBy(s: State, a: Action, n: nat)
    requires Enabled(s, a) && n in Step(s, a).reg.stats
    ensures !a.Close?
  {
  }

  lemma BacklogProcessed(s: State, expired: bool, n: nat)
    requires InOrder(s) && s.lib.batch != []
    requires n in s.reg.stats && n in Resolve(s.reg, Seen(s.lib.batch[0], expired)).0.stats
    ensures |Owed(Advanced(s.lib))| - |Resolve(s.reg, Seen(s.lib.batch[0], expired)).0.stats| == Backlog(s)
  {
    var alert := Seen(s.lib.batch[0], expired);
    OwedProcessed(s.lib);
    ResolveKeeps(s.reg, alert, n);
    if alert.DroppedAlert? {
      assert |s.lib.batch| == 1 && s.lib.batchLost == [];
    }
  }

  lemma ResolveKeeps(r: Inner, a: Alert, n: nat)
    requires n in r.stats && n in Resolve(r, a).0.stats
    ensures |Resolve(r, a).0.stats| == |r.stats| - One(a.StatsAlert?)
    ensures !StatsDropped(a)
  {
  }

  /** What request `n` is given, if it is given a snapshot at all. */
  ghost predicate Foretold(s: State, n: nat, backlog: int) {
    && n < s.lib.nextStats
    && (n in s.reg.stats ==> Backlog(s) == backlog)
    && (StatsRequest(n) in Fated(s) && Fated(s)[StatsRequest(n)].Counters?
        ==> n - Fated(s)[StatsRequest(n)].snapshot == backlog)
  }

  lemma OldestPending(pending: seq<nat>, owed: seq<nat>, next: nat)
    requires Ordered(pending, owed, next) && pending != []
    ensures pending[0] == next - |pending|
  {
    assert owed[|owed| - |pending|] == pending[0];
  }

  lemma AnsweredAsForetold(s: State, a: Action, n: nat, backlog: int)
    requires a.ProcessNext? && Enabled(s, a) && Sound(s) && Foretold(s, n, backlog)
    requires StatsRequest(n) in Sent(s, a.expired) && Sent(s, a.expired)[StatsRequest(n)].Counters?
    ensures n - Sent(s, a.expired)[StatsRequest(n)].snapshot == backlog
  {
    var m := Sent(s, a.expired)[StatsRequest(n)].snapshot;
    ResolveAnswers(s.reg, Seen(s.lib.batch[0], a.expired), n);
    OldestPending(s.reg.stats, Owed(s.lib), s.lib.nextStats);
    assert m + |Owed(s.lib)| == s.lib.nextStats by {
      ResolveJustified(s, a.expired, StatsRequest(n));
    }
    assert n in s.reg.stats;
  }

  lemma ResolveAnswers(r: Inner, a: Alert, n: nat)
    requires StatsRequest(n) in Resolve(r, a).1 && Resolve(r, a).1[StatsRequest(n)].Counters?
    ensures r.stats != [] && n == r.stats[0]
  {
  }

  lemma PendingAsForetold(s: State, a: Action, n: nat, backlog: int)
    requires Enabled(s, a) && InOrder(s) && Foretold(s, n, backlog)
    ensures n in Step(s, a).reg.stats ==> Backlog(Step(s, a)) == backlog
    ensures n < Step(s, a).lib.nextStats
  {
    if n in Step(s, a).reg.stats {
      assert n in s.reg.stats;
      BacklogStands(s, a, n);
    }
  }

  lemma ForetoldStep(s: State, a: Action, n: nat, backlog: int)
    requires Enabled(s, a) && Sound(s) && Foretold(s, n, backlog)
    ensures Foretold(Step(s, a), n, backlog)
  {
    var s', q := Step(s, a), StatsRequest(n);
    PendingAsForetold(s, a, n, backlog);
    if q in Fated(s') && Fated(s')[q].Counters? {
      if a.ProcessNext? {
        FateProcessed(s, a, q);
        if q in Sent(s, a.expired) {
          AnsweredAsForetold(s, a, n, backlog);
        }
      } else {
        FateOther(s, a, q);
      }
    }
  }

  lemma {:induction false} ForetoldRuns(s: State, actions: seq<Action>, n: nat, backlog: int)
    requires Reachable(s) && Runs(s, actions) && Foretold(s, n, backlog)
    ensures Foretold(After(s, actions), n, backlog)
    decreases |actions|
  {
    if actions != [] {
      SoundAlways(s);
      ForetoldStep(s, actions[0], n, backlog);
      ReachableStep(s, actions[0]);
      ForetoldRuns(Step(s, actions[0]), actions[1..], n, backlog);
    }
  }

  /** Which snapshot a request gets is settled when it is enqueued, whatever
      happens afterwards: its own exactly if every response owed then had its
      request still pending, else one that is older by the number that had not. */
  lemma AnswerIsSettled(s: State, actions: seq<Action>, m: nat)
    requires Reachable(s) && !s.reg.closed
    requires Runs(s, [EnqueueStats(true)] + actions)
    requires var s' := After(s, [EnqueueStats(true)] + actions);
      var q := StatsRequest(s.lib.nextStats);
      q in s'.outcome && s'.outcome[q] == Counters(m)
    ensures m == s.lib.nextStats - (|Owed(s.lib)| - |s.reg.stats|)
    ensures m == s.lib.nextStats <==> s.reg.stats == Owed(s.lib)
  {
    var n, run := s.lib.nextStats, [EnqueueStats(true)] + actions;
    var u := Step(s, EnqueueStats(true));
    assert run[1..] == actions;
    SoundAlways(s);
    assert !Issued(s, StatsRequest(n)) && Places(s, StatsRequest(n)) == 0;
    OwedStep(s, EnqueueStats(true));
    ReachableStep(s, EnqueueStats(true));
    ForetoldRuns(u, actions, n, Backlog(s));
    ReachableAfter(u, actions);
    EverySenderOnce(After(u, actions), StatsRequest(n));
  }

  /** A sender that is dropped while the lock is held must have nobody to wake:
      its receiver is gone, or its future was never handed to a caller. */
  predicate Wakeable(s: State, q: Request) {
    q !in s.gone && HandedOut(s, q)
  }

  // ---- no add is waited for in vain -------------------------------------------

  predicate HasAdd(alerts: seq<Alert>, t: Token) {
    exists i :: 0 <= i < |alerts| && IsAdd(alerts[i], t)
  }

  predicate EndsInDrain(batch: seq<Alert>) {
    batch != [] && AddsDropped(batch[|batch| - 1])
  }

  /** Its response or an overflow that fails it is still to come. */
  predicate AddIsComing(lib: Lib, t: Token) {
    || (t in lib.stages && (lib.stages[t].Minted? || lib.stages[t].Posted?))
    || HasAdd(lib.queue, t) || ALERT_ADD_TORRENT in lib.droppedTypes
    || HasAdd(lib.batch, t) || EndsInDrain(lib.batch)
  }

  ghost predicate AddsAreComing(s: State) {
    forall t :: t in s.reg.adds ==> AddIsComing(s.lib, t)
  }

  lemma ComingEmitted(lib: Lib, lib': Lib, a: Alert, ty: nat, drop: bool, t: Token)
    requires lib' == Emit(lib, a, ty, drop)
    requires AddIsComing(lib, t) || (IsAdd(a, t) && ty == ALERT_ADD_TORRENT)
    ensures AddIsComing(lib', t)
  {
    if !drop {
      assert lib'.queue[|lib.queue|] == a;
      assert forall i :: 0 <= i < |lib.queue| ==> lib'.queue[i] == lib.queue[i];
    }
  }

  lemma ComingPopped(lib: Lib, t: Token)
    requires DropsAtEnd(lib) && lib.batch == [] && AddIsComing(lib, t)
    ensures AddIsComing(Popped(lib), t)
  {
    var lib' := Popped(lib);
    if HasAdd(lib.queue, t) {
      var i :| 0 <= i < |lib.queue| && IsAdd(lib.queue[i], t);
      assert lib'.batch[i] == lib.queue[i];
    }
    if ALERT_ADD_TORRENT in lib.droppedTypes {
      DroppedAgrees(lib.droppedTypes, ALERT_ADD_TORRENT);
      assert lib'.batch[|lib.queue|] == DroppedAlert(DroppedView(lib.droppedTypes));
    }
  }

  lemma ComingProcessed(s: State, expired: bool, t: Token)
    requires s.lib.batch != [] && AddIsComing(s.lib, t)
    requires t in AlertProcessed(s, expired).reg.adds
    ensures AddIsComing(Advanced(s.lib), t)
  {
    var batch := s.lib.batch;
    assert !IsAdd(batch[0], t) && !AddsDropped(batch[0]);
    if HasAdd(batch, t) {
      var i :| 0 <= i < |batch| && IsAdd(batch[i], t);
      assert batch[1..][i - 1] == batch[i];
    }
  }

  lemma ComingLib(s: State, a: Action, t: Token)
    requires Enabled(s, a) && AddIsComing(s.lib, t)
    requires a.LibStats? || a.LibAdd? || a.LibRemoved? || a.LibExpired? || a.LibOther?
    ensures AddIsComing(Step(s, a).lib, t)
  {
    match a
    case LibStats(drop) =>
      var n := s.lib.posted[0];
      var lib := s.lib.(posted := s.lib.posted[1..], lost := if drop then s.lib.lost + [n] else s.lib.lost);
      ComingEmitted(lib, Step(s, a).lib, StatsAlert(n), ALERT_SESSION_STATS, drop, t);
    case LibAdd(u, result, drop) =>
      var lib := s.lib.(stages := s.lib.stages[u := if Surviving(u, result) then Live else Rejected]);
      ComingEmitted(lib, Step(s, a).lib, AddAlert(u, result), ALERT_ADD_TORRENT, drop, t);
    case LibRemoved(u, drop) =>
      var lib := s.lib.(stages := s.lib.stages[u := Removed]);
      ComingEmitted(lib, Step(s, a).lib, RemovedAlert(u), ALERT_TORRENT_REMOVED, drop, t);
    case LibOther(ty, drop) => ComingEmitted(s.lib, Step(s, a).lib, OtherAlert, ty, drop, t);
    case LibExpired(_) =>
  }

  lemma ComingCaller(s: State, a: Action, t: Token)
    requires Enabled(s, a) && (t in s.reg.adds ==> AddIsComing(s.lib, t))
    requires !a.LibStats? && !a.LibAdd? && !a.LibRemoved? && !a.LibExpired? && !a.LibOther?
    requires !a.Pop? && !a.ProcessNext? && t in Step(s, a).reg.adds
    ensures AddIsComing(Step(s, a).lib, t)
  {
  }

  lemma AddsAreComingStep(s: State, a: Action)
    requires Enabled(s, a) && InOrder(s) && AddsAreComing(s)
    ensures AddsAreComing(Step(s, a))
  {
    forall t | t in Step(s, a).reg.adds
      ensures AddIsComing(Step(s, a).lib, t)
    {
      ComingStep(s, a, t);
    }
  }

  lemma ComingStep(s: State, a: Action, t: Token)
    requires Enabled(s, a) && DropsAtEnd(s.lib) && t in Step(s, a).reg.adds
    requires t in s.reg.adds ==> AddIsComing(s.lib, t)
    ensures AddIsComing(Step(s, a).lib, t)
  {
    if a.ProcessNext? {
      ComingProcessed(s, a.expired, t);
    } else if a.Pop? {
      ComingPopped(s.lib, t);
    } else if a.LibStats? || a.LibAdd? || a.LibRemoved? || a.LibExpired? || a.LibOther? {
      ComingLib(s, a, t);
    } else {
      ComingCaller(s, a, t);
    }
  }

  lemma AddsAreComingLink(s: State, s': State)
    requires Linked(s, s') && InOrder(s) && AddsAreComing(s)
    ensures AddsAreComing(s')
  {
    var a :| Follows(s, a, s');
    AddsAreComingStep(s, a);
  }

  lemma {:induction false} AddsAreComingTrace(trace: seq<State>, i: nat)
    requires IsTrace(trace) && i < |trace|
    ensures AddsAreComing(trace[i])
  {
    if i > 0 {
      AddsAreComingTrace(trace, i - 1);
      InOrderTrace(trace, i - 1);
      assert LinkedAt(trace, i);
      AddsAreComingLink(trace[i - 1], trace[i]);
    }
  }

  /** In every reachable state each pending add is yet to be posted, or to be
      answered, or its add alert is on its way to the registry, or that alert was
      dropped and the overflow that fails the request is. */
  lemma NoAddIsOrphaned(s: State, t: Token)
    requires Reachable(s) && t in s.reg.adds
    ensures AddIsComing(s.lib, t)
  {
    var trace :| IsTrace(trace) && trace[|trace| - 1] == s;
    AddsAreComingTrace(trace, |trace| - 1);
  }
}
