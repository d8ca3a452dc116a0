/** What value a torrent's client data has: the last one a caller stored under
    its token, whatever alerts were processed in between. */
module ClientData {
  import opened Common
  import opened Protocol
  import opened Lifecycle

  // ---- over actions -----------------------------------------------------------

  /** An entry's value changes only by being set, and an entry appears only with
      the value given to the add that minted its token. */
  lemma DataChangesByStoring(s: State, a: Action, t: Token)
    requires Reachable(s) && Enabled(s, a) && t in Step(s, a).reg.data
    ensures t in s.reg.data ==>
      Step(s, a).reg.data[t] == if a.SetData? && a.token == t then a.data else s.reg.data[t]
    ensures t !in s.reg.data ==>
      a.EnqueueAdd? && t == s.reg.nextId + 1 && Step(s, a).reg.data[t] == a.data
  {
    NotMintedYet(s);
    DataStep(s, a, t);
  }

  lemma DataStep(s: State, a: Action, t: Token)
    requires Enabled(s, a) && s.reg.nextId + 1 !in s.reg.data && t in Step(s, a).reg.data
    ensures t in s.reg.data ==>
      Step(s, a).reg.data[t] == if a.SetData? && a.token == t then a.data else s.reg.data[t]
    ensures t !in s.reg.data ==>
      a.EnqueueAdd? && t == s.reg.nextId + 1 && Step(s, a).reg.data[t] == a.data
  {
  }

  /** The value an action stores under a token, if it stores one. */
  ghost function StoredBy(s: State, a: Action, t: Token): Option<Data> {
    if a.SetData? && a.token == t then Some(a.data)
    else if a.EnqueueAdd? && t == s.reg.nextId + 1 then Some(a.data)
    else None
  }

  ghost function LastStored(s: State, actions: seq<Action>, t: Token): Option<Data>
    requires Runs(s, actions)
    decreases |actions|
  {
    if actions == [] then None
    else
      var later := LastStored(Step(s, actions[0]), actions[1..], t);
      if later.Some? then later else StoredBy(s, actions[0], t)
  }

  /** Over every run, an entry holds what was stored under its token last, or
      what it held before if nothing was. */
  lemma {:induction false} DataIsLastStored(s: State, actions: seq<Action>, t: Token)
    requires Reachable(s) && Runs(s, actions) && t in After(s, actions).reg.data
    ensures match LastStored(s, actions, t)
            case Some(d) => After(s, actions).reg.data[t] == d
            case None => t in s.reg.data && After(s, actions).reg.data[t] == s.reg.data[t]
    decreases |actions|
  {
    if actions != [] {
      var a, u := actions[0], Step(s, actions[0]);
      ReachableStep(s, a);
      DataIsLastStored(u, actions[1..], t);
      if LastStored(u, actions[1..], t).None? {
        DataChangesByStoring(s, a, t);
        NotMintedYet(s);
      }
    }
  }

  lemma NotMintedYet(s: State)
    requires Reachable(s)
    ensures s.reg.nextId + 1 !in s.reg.data
  {
    AllTrackedAlways(s);
    assert Tracked(s, s.reg.nextId + 1);
  }

  // ---- over states ------------------------------------------------------------

  function LastFor(writes: seq<Write>, t: Token): Option<Data> {
    if writes == [] then None
    else if writes[|writes| - 1].token == t then Some(writes[|writes| - 1].data)
    else LastFor(writes[..|writes| - 1], t)
  }

  ghost predicate IsLast(writes: seq<Write>, i: nat, w: Write) {
    && i < |writes| && writes[i] == w
    && forall k :: i < k < |writes| ==> writes[k].token != w.token
  }

  lemma {:induction false} LastForIs(writes: seq<Write>, t: Token, d: Data)
    ensures LastFor(writes, t) == Some(d) <==> exists i: nat :: IsLast(writes, i, Write(t, d))
  {
    if writes != [] {
      var n := |writes| - 1;
      var front := writes[..n];
      LastForIs(front, t, d);
      if writes[n].token == t {
        assert writes[n].data == d ==> IsLast(writes, n, Write(t, d));
      } else {
        if i: nat :| IsLast(front, i, Write(t, d)) {
          assert IsLast(writes, i, Write(t, d));
        }
        if i: nat :| IsLast(writes, i, Write(t, d)) {
          assert IsLast(front, i, Write(t, d));
        }
      }
    }
  }

  ghost predicate UpToDate(s: State) {
    forall t :: t in s.reg.data ==> LastFor(s.writes, t) == Some(s.reg.data[t])
  }

  lemma LastAppended(writes: seq<Write>, w: Write, t: Token)
    ensures LastFor(writes + [w], t) == if w.token == t then Some(w.data) else LastFor(writes, t)
  {
    assert (writes + [w])[..|writes|] == writes;
  }

  lemma WritesStep(s: State, a: Action)
    requires Enabled(s, a)
    ensures Step(s, a).writes ==
      if a.EnqueueAdd? && !s.reg.closed then s.writes + [Write(s.reg.nextId + 1, a.data)]
      else if a.SetData? && a.token in s.reg.data then s.writes + [Write(a.token, a.data)]
      else s.writes
  {
  }

  lemma UpToDateStep(s: State, a: Action)
    requires Enabled(s, a) && UpToDate(s) && s.reg.nextId + 1 !in s.reg.data
    ensures UpToDate(Step(s, a))
  {
    WritesStep(s, a);
    forall t | t in Step(s, a).reg.data
      ensures LastFor(Step(s, a).writes, t) == Some(Step(s, a).reg.data[t])
    {
      DataStep(s, a, t);
      if a.EnqueueAdd? {
        LastAppended(s.writes, Write(s.reg.nextId + 1, a.data), t);
      } else if a.SetData? {
        LastAppended(s.writes, Write(a.token, a.data), t);
      }
    }
  }

  lemma UpToDateLink(s: State, s': State)
    requires Linked(s, s') && UpToDate(s) && s.reg.nextId + 1 !in s.reg.data
    ensures UpToDate(s')
  {
    var a :| Follows(s, a, s');
    UpToDateStep(s, a);
  }

  lemma {:induction false} UpToDateTrace(trace: seq<State>, i: nat)
    requires IsTrace(trace) && i < |trace|
    ensures UpToDate(trace[i])
  {
    if i > 0 {
      UpToDateTrace(trace, i - 1);
      AllTrackedTrace(trace, i - 1);
      assert Tracked(trace[i - 1], trace[i - 1].reg.nextId + 1);
      assert LinkedAt(trace, i);
      UpToDateLink(trace[i - 1], trace[i]);
    }
  }

  /** In every reachable state each entry holds the last value stored under its
      token; alerts only ever remove entries. */
  lemma DataIsLastWritten(s: State, t: Token)
    requires Reachable(s) && t in s.reg.data
    ensures LastFor(s.writes, t) == Some(s.reg.data[t])
    ensures exists i: nat :: IsLast(s.writes, i, Write(t, s.reg.data[t]))
  {
    var trace :| IsTrace(trace) && trace[|trace| - 1] == s;
    UpToDateTrace(trace, |trace| - 1);
    LastForIs(s.writes, t, s.reg.data[t]);
  }
}
