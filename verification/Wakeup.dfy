/** `Alerts::next_batch` against the alert queue: pop, and if nothing was there
    wait for a notification. Every interleaving of posting, the notify callback,
    popping, waiting and cancelling is a run of these actions. */
module Wakeup {

  datatype Consumer =
    | Running                  // not waiting; its next step is a pop
    | Checked                  // popped nothing, about to wait
    | Waiting(notified: bool)

  /** `permit` is the one notification `Notify` stores when nobody waits. */
  datatype State = State(queued: nat, callbacks: nat, permit: bool, consumer: Consumer)

  const INIT := State(0, 0, false, Running)

  datatype Action =
    | Post              // libtorrent queues an alert
    | Callback          // a notify callback runs on libtorrent's thread
    | Pop               // inside next_batch
    | TryPop            // try_next_batch
    | Await             // first poll of notified()
    | Wake
    | Cancel            // the next_batch future is dropped while waiting

  predicate Enabled(s: State, a: Action) {
    match a
    case Post => true
    case Callback => s.callbacks > 0
    case Pop => s.consumer.Running?
    case TryPop => s.consumer.Running?
    case Await => s.consumer.Checked?
    case Wake => s.consumer == Waiting(true)
    case Cancel => s.consumer.Waiting?
  }

  function NotifyOne(s: State): State {
    if s.consumer == Waiting(false) then s.(consumer := Waiting(true)) else s.(permit := true)
  }

  function Step(s: State, a: Action): State
    requires Enabled(s, a)
  {
    match a
    case Post =>
      s.(queued := s.queued + 1, callbacks := if s.queued == 0 then s.callbacks + 1 else s.callbacks)
    case Callback => NotifyOne(s.(callbacks := s.callbacks - 1))
    case Pop => if s.queued > 0 then s.(queued := 0) else s.(consumer := Checked)
    case TryPop => s.(queued := 0)
    case Await => if s.permit then s.(permit := false, consumer := Running) else s.(consumer := Waiting(false))
    case Wake => s.(consumer := Running)
    case Cancel =>
      // a notification already received is passed on
      var gone := s.(consumer := Running);
      if s.consumer.notified then NotifyOne(gone) else gone
  }

  predicate Runs(s: State, actions: seq<Action>)
    decreases |actions|
  {
    actions == [] || (Enabled(s, actions[0]) && Runs(Step(s, actions[0]), actions[1..]))
  }

  function After(s: State, actions: seq<Action>): State
    requires Runs(s, actions)
    decreases |actions|
  {
    if actions == [] then s else After(Step(s, actions[0]), actions[1..])
  }

  predicate Parked(s: State) {
    s.consumer.Checked? || s.consumer == Waiting(false)
  }

  /** Alerts never sit behind a parked consumer without a notification stored,
      or about to be. */
  predicate Awake(s: State) {
    && (Parked(s) && s.queued > 0 ==> s.permit || s.callbacks > 0)
    && (s.consumer == Waiting(false) ==> !s.permit)
  }

  lemma {:induction false} AlwaysAwake(s: State, actions: seq<Action>)
    requires Awake(s) && Runs(s, actions)
    ensures Awake(After(s, actions))
    decreases |actions|
  {
    if actions != [] {
      AlwaysAwake(Step(s, actions[0]), actions[1..]);
    }
  }

  /** No lost wake-up: in every run, once the callbacks that libtorrent started
      have returned, a parked consumer with alerts queued has a permit waiting,
      and a waiting one has been notified. */
  lemma NoLostWakeup(actions: seq<Action>)
    requires Runs(INIT, actions)
    ensures var s := After(INIT, actions);
      && (s.consumer.Checked? && s.queued > 0 && s.callbacks == 0 ==> s.permit)
      && (s.consumer.Waiting? && s.queued > 0 && s.callbacks == 0 ==> s.consumer.notified)
  {
    AlwaysAwake(INIT, actions);
  }

  /** How the consumer resumes: let the callbacks finish, then poll. */
  function Resume(s: State): seq<Action>
    decreases s.callbacks
  {
    if s.callbacks > 0 then [Callback] + Resume(Step(s, Callback))
    else if s.consumer.Checked? then [Await]
    else if s.consumer.Waiting? then [Wake]
    else []
  }

  /** From every reachable state with alerts queued the consumer gets to run
      again without another alert being posted, and finds them all. */
  lemma {:induction false} QueuedIsFound(s: State)
    requires Awake(s) && s.queued > 0
    ensures Runs(s, Resume(s))
    ensures After(s, Resume(s)).consumer.Running? && After(s, Resume(s)).queued == s.queued
    ensures Step(After(s, Resume(s)), Pop) == After(s, Resume(s)).(queued := 0)
    decreases s.callbacks
  {
    if s.callbacks > 0 {
      QueuedIsFound(Step(s, Callback));
      assert Resume(s)[1..] == Resume(Step(s, Callback));
    } else {
      assert |Resume(s)| <= 1;
    }
  }
}
