/** Which lines of a C++ header the generators look at, given its preprocessor
    guards. Directives are abstracted to what the regular expressions decide. */
module Guards {
  import opened Common
  import P = Preprocessor

  // ---- gen_alerts: two counters -------------------------------------------------

  datatype Line =
    | If(abi: bool)                                 // does it match the ABI guard?
    | Else
    | Endif
    | Struct(name: string, base: string)
    | Define(name: string, id: nat)
    | Other

  datatype AlertDef = AlertDef(name: string, id: nat, base: string)

  predicate IsDirective(l: Line) {
    l.If? || l.Else? || l.Endif?
  }

  /** The full stack of open guards, innermost last. */
  function Open(lines: seq<Line>): seq<bool> {
    if lines == [] then []
    else
      var before := Open(lines[..|lines| - 1]);
      match lines[|lines| - 1]
      case If(abi) => before + [abi]
      case Endif => if before == [] then [] else before[..|before| - 1]
      case _ => before
  }

  /** Some enclosing guard is an ABI guard. */
  ghost predicate Skipped(open: seq<bool>) {
    exists i :: 0 <= i < |open| && open[i]
  }

  /** The lines the header really offers, in order. */
  ghost function Visible(lines: seq<Line>): seq<Line> {
    if lines == [] then []
    else
      var n := |lines| - 1;
      if IsDirective(lines[n]) || Skipped(Open(lines[..n])) then Visible(lines[..n])
      else Visible(lines[..n]) + [lines[n]]
  }

  datatype Collected = Mismatch | Collected(current: Option<Line>, alerts: seq<AlertDef>)

  /** Each macro names the struct declared last. */
  function Collect(visible: seq<Line>): Collected {
    if visible == [] then Collected(None, [])
    else
      match Collect(visible[..|visible| - 1])
      case Mismatch => Mismatch
      case Collected(current, alerts) =>
        var l := visible[|visible| - 1];
        if l.Struct? then Collected(Some(l), alerts)
        else if l.Define? then
          if current.Some? && current.value.Struct? && current.value.name == l.name
          then Collected(current, alerts + [AlertDef(l.name, l.id, current.value.base)])
          else Mismatch
        else Collected(current, alerts)
  }

  /** The counters stand for the stack: `skipDepth` is the depth at which its
      outermost ABI guard was opened. Stray `#endif`s only shift `depth`. */
  ghost predicate Simulates(depth: int, skipDepth: Option<int>, open: seq<bool>) {
    match skipDepth
    case None => !Skipped(open)
    case Some(d) =>
      var j := d - (depth - |open|) - 1;
      0 <= j < |open| && open[j] && forall i :: 0 <= i < j ==> !open[i]
  }

  method ParseAlerts(lines: seq<Line>) returns (r: Option<seq<AlertDef>>)
    ensures var c := Collect(Visible(lines));
      r == if c.Mismatch? then None else Some(c.alerts)
    ensures r.None? <==> exists j: nat :: Mismatched(lines, j)
    ensures r.Some? ==> exists places: seq<nat> :: AlertsAt(lines, places, r.value)
  {
    var depth := 0;
    var skipDepth: Option<int> := None;
    var current: Option<Line> := None;
    var alerts: seq<AlertDef> := [];
    for i := 0 to |lines|
      invariant Simulates(depth, skipDepth, Open(lines[..i]))
      invariant Collect(Visible(lines[..i])) == Collected(current, alerts)
      invariant current.Some? ==> current.value.Struct?
    {
      var line := lines[i];
      ghost var open := Open(lines[..i]);
      assert lines[..i + 1][..i] == lines[..i];
      assert Skipped(open) <==> skipDepth.Some?;
      if line.If? {
        depth := depth + 1;
        PushGuard(open, line.abi);
        if skipDepth.None? && line.abi {
          skipDepth := Some(depth);
        }
      } else if line.Endif? {
        if open != [] {
          PopGuard(open);
        }
        if skipDepth == Some(depth) {
          skipDepth := None;
        }
        depth := depth - 1;
      } else if line.Else? {
      } else if skipDepth.Some? {
      } else {
        ghost var seen := Visible(lines[..i]);
        assert Visible(lines[..i + 1]) == seen + [line];
        assert (seen + [line])[..|seen|] == seen;
        if line.Struct? {
          current := Some(line);
        } else if line.Define? {
          if current.None? || current.value.name != line.name {
            MismatchStays(lines, i + 1);
            CollectedAlerts(lines);
            return None;
          }
          alerts := alerts + [AlertDef(line.name, line.id, current.value.base)];
        }
      }
    }
    assert lines[..|lines|] == lines;
    CollectedAlerts(lines);
    return Some(alerts);
  }

  lemma PushGuard(open: seq<bool>, abi: bool)
    ensures Skipped(open + [abi]) <==> Skipped(open) || abi
  {
    assert (open + [abi])[|open|] == abi;
    assert forall i :: 0 <= i < |open| ==> (open + [abi])[i] == open[i];
  }

  lemma PopGuard(open: seq<bool>)
    requires open != []
    ensures Skipped(open) <==> Skipped(open[..|open| - 1]) || open[|open| - 1]
  {
    PushGuard(open[..|open| - 1], open[|open| - 1]);
    assert open[..|open| - 1] + [open[|open| - 1]] == open;
  }

  lemma {:induction false} MismatchStays(lines: seq<Line>, n: nat)
    requires n <= |lines| && Collect(Visible(lines[..n])).Mismatch?
    ensures Collect(Visible(lines)).Mismatch?
    decreases |lines|
  {
    if n == |lines| {
      assert lines[..n] == lines;
    } else {
      var front := lines[..|lines| - 1];
      assert front[..n] == lines[..n];
      MismatchStays(front, n);
      if Visible(lines) != Visible(front) {
        assert Visible(lines)[..|Visible(front)|] == Visible(front);
      }
    }
  }

  // ---- the same, on the lines alone ----------------------------------------------

  function DirectiveOf(l: Line): P.Directive {
    match l
    case If(_) => P.If
    case Else => P.Else
    case Endif => P.Endif
    case _ => P.NoDirective
  }

  function Directives(lines: seq<Line>): (ds: seq<P.Directive>)
    ensures |ds| == |lines|
  {
    seq(|lines|, i requires 0 <= i < |lines| => DirectiveOf(lines[i]))
  }

  /** An ABI guard opened before line `j` is open there. */
  ghost predicate Covered(lines: seq<Line>, j: nat)
    requires j <= |lines|
  {
    exists i: nat :: i < j && lines[i] == If(true) && P.OpenAt(Directives(lines)[..j], i)
  }

  lemma {:induction false} OpenIsOpeners(lines: seq<Line>)
    ensures var at := P.Openers(Directives(lines));
      |Open(lines)| == |at| && forall m :: 0 <= m < |at| ==> lines[at[m]] == If(Open(lines)[m])
  {
    if lines != [] {
      var n := |lines| - 1;
      var front := lines[..n];
      OpenIsOpeners(front);
      assert Directives(lines)[..n] == Directives(front);
      assert Directives(lines)[n] == DirectiveOf(lines[n]);
      NextStacks(lines, Open(front), P.Openers(Directives(front)), Open(lines), P.Openers(Directives(lines)));
    }
  }

  /** One line more does the same to the stack of guards and to the stack of the
      lines that opened them. */
  lemma NextStacks(lines: seq<Line>, open: seq<bool>, at: seq<nat>, open': seq<bool>, at': seq<nat>)
    requires lines != []
    requires |open| == |at| && forall m :: 0 <= m < |at| ==> at[m] < |lines| - 1 && lines[at[m]] == If(open[m])
    requires match lines[|lines| - 1]
             case If(abi) => open' == open + [abi] && at' == at + [|lines| - 1]
             case Endif => if open == [] then open' == [] && at' == []
                           else open' == open[..|open| - 1] && at' == at[..|at| - 1]
             case _ => open' == open && at' == at
    ensures |open'| == |at'|
    ensures forall m :: 0 <= m < |at'| ==> at'[m] < |lines| && lines[at'[m]] == If(open'[m])
  {
  }

  lemma CoveredIff(lines: seq<Line>, j: nat)
    requires j <= |lines|
    ensures Covered(lines, j) <==> Skipped(Open(lines[..j]))
  {
    var front := lines[..j];
    var ds := Directives(front);
    assert Directives(lines)[..j] == ds;
    OpenIsOpeners(front);
    P.OpenersAre(ds);
    var at := P.Openers(ds);
    if Skipped(Open(front)) {
      var m :| 0 <= m < |Open(front)| && Open(front)[m];
      assert at[m] in at && lines[at[m]] == If(true);
    }
    if i: nat :| i < j && lines[i] == If(true) && P.OpenAt(ds, i) {
      var m :| 0 <= m < |at| && at[m] == i;
      assert Open(front)[m];
    }
  }

  lemma CoveredBefore(lines: seq<Line>, n: nat, j: nat)
    requires j <= n <= |lines|
    ensures Covered(lines[..n], j) <==> Covered(lines, j)
  {
    CoveredIff(lines, j);
    CoveredIff(lines[..n], j);
    assert lines[..n][..j] == lines[..j];
  }

  /** The struct at `i` is the last one shown before line `j`. */
  ghost predicate StructFor(lines: seq<Line>, i: nat, j: nat)
    requires j <= |lines|
  {
    && i < j && lines[i].Struct? && !Covered(lines, i)
    && forall k :: i < k < j && lines[k].Struct? ==> Covered(lines, k)
  }

  ghost predicate ShownDefine(lines: seq<Line>, j: nat) {
    j < |lines| && lines[j].Define? && !Covered(lines, j)
  }

  ghost predicate Matched(lines: seq<Line>, i: nat, j: nat)
    requires j < |lines|
  {
    lines[j].Define? && StructFor(lines, i, j) && lines[i].name == lines[j].name
  }

  /** The macro shown at `j` does not name the struct shown last. */
  ghost predicate Mismatched(lines: seq<Line>, j: nat) {
    ShownDefine(lines, j) && forall i: nat :: !Matched(lines, i, j)
  }

  ghost predicate AlertAt(lines: seq<Line>, j: nat, a: AlertDef) {
    && ShownDefine(lines, j)
    && exists i: nat :: Matched(lines, i, j) && a == AlertDef(lines[j].name, lines[j].id, lines[i].base)
  }

  /** One alert for each macro shown, in order, with the base of its struct. */
  ghost predicate AlertsAt(lines: seq<Line>, places: seq<nat>, alerts: seq<AlertDef>) {
    && |places| == |alerts|
    && (forall m, p :: 0 <= m < p < |places| ==> places[m] < places[p])
    && (forall j: nat :: j in places <==> ShownDefine(lines, j))
    && (forall m :: 0 <= m < |places| ==> AlertAt(lines, places[m], alerts[m]))
  }

  // The step from a header to one with a line more.

  lemma StructBefore(lines: seq<Line>, i: nat, j: nat)
    requires lines != [] && j < |lines|
    ensures StructFor(lines[..|lines| - 1], i, j) <==> StructFor(lines, i, j)
  {
    var n := |lines| - 1;
    forall k | 0 <= k <= n
      ensures Covered(lines[..n], k) <==> Covered(lines, k)
    {
      CoveredBefore(lines, n, k);
    }
  }

  lemma MatchedBefore(lines: seq<Line>, i: nat, j: nat)
    requires lines != [] && j < |lines| - 1
    ensures Matched(lines[..|lines| - 1], i, j) <==> Matched(lines, i, j)
  {
    StructBefore(lines, i, j);
  }

  lemma MismatchedBefore(lines: seq<Line>, j: nat)
    requires lines != [] && j < |lines| - 1
    ensures ShownDefine(lines[..|lines| - 1], j) <==> ShownDefine(lines, j)
    ensures Mismatched(lines[..|lines| - 1], j) <==> Mismatched(lines, j)
  {
    var front := lines[..|lines| - 1];
    CoveredBefore(lines, |lines| - 1, j);
    if Mismatched(front, j) {
      forall i: nat
        ensures !Matched(lines, i, j)
      {
        MatchedBefore(lines, i, j);
      }
    }
    if Mismatched(lines, j) {
      forall i: nat
        ensures !Matched(front, i, j)
      {
        MatchedBefore(lines, i, j);
      }
    }
  }

  lemma AlertBefore(lines: seq<Line>, j: nat, a: AlertDef)
    requires lines != [] && AlertAt(lines[..|lines| - 1], j, a)
    ensures AlertAt(lines, j, a)
  {
    var front := lines[..|lines| - 1];
    MismatchedBefore(lines, j);
    var i: nat :| Matched(front, i, j) && a == AlertDef(front[j].name, front[j].id, front[i].base);
    MatchedBefore(lines, i, j);
  }

  /** What the collector remembers: the struct shown last. */
  ghost predicate Remembers(lines: seq<Line>, current: Option<Line>) {
    match current
    case None => forall i: nat :: !StructFor(lines, i, |lines|)
    case Some(s) => exists i: nat :: StructFor(lines, i, |lines|) && lines[i] == s
  }

  lemma OneStruct(lines: seq<Line>, i: nat, k: nat, j: nat)
    requires j <= |lines| && StructFor(lines, i, j) && StructFor(lines, k, j)
    ensures i == k
  {
  }

  lemma StructGoesOn(lines: seq<Line>, i: nat)
    requires lines != []
    ensures var n := |lines| - 1;
      var shown := lines[n].Struct? && !Covered(lines, n);
      StructFor(lines, i, n + 1) <==> if shown then i == n else StructFor(lines, i, n)
  {
  }

  lemma RemembersNext(lines: seq<Line>, before: Option<Line>, after: Option<Line>)
    requires lines != [] && Remembers(lines[..|lines| - 1], before)
    requires var n := |lines| - 1;
      after == if lines[n].Struct? && !Covered(lines, n) then Some(lines[n]) else before
    ensures Remembers(lines, after)
  {
    var n := |lines| - 1;
    if lines[n].Struct? && !Covered(lines, n) {
      assert StructFor(lines, n, n + 1);
    } else if before.Some? {
      var i: nat :| StructFor(lines[..n], i, n) && lines[..n][i] == before.value;
      StructBefore(lines, i, n);
      StructGoesOn(lines, i);
      assert StructFor(lines, i, n + 1);
    } else {
      forall i: nat
        ensures !StructFor(lines, i, |lines|)
      {
        StructBefore(lines, i, n);
        StructGoesOn(lines, i);
      }
    }
  }

  ghost predicate SomeMismatched(lines: seq<Line>) {
    exists j: nat :: Mismatched(lines, j)
  }

  ghost predicate HasAlerts(lines: seq<Line>, alerts: seq<AlertDef>) {
    exists places: seq<nat> :: AlertsAt(lines, places, alerts)
  }

  ghost predicate NothingMismatched(lines: seq<Line>) {
    forall j: nat :: !Mismatched(lines, j)
  }

  /** The collector on a header, all of it. */
  ghost predicate CollectsRight(lines: seq<Line>, c: Collected) {
    match c
    case Mismatch => SomeMismatched(lines)
    case Collected(current, alerts) =>
      && NothingMismatched(lines) && Remembers(lines, current)
      && (current.Some? ==> current.value.Struct?)
      && HasAlerts(lines, alerts)
  }

  lemma {:induction false} CollectIs(lines: seq<Line>)
    ensures CollectsRight(lines, Collect(Visible(lines)))
  {
    if lines == [] {
      var none: seq<nat> := [];
      assert AlertsAt(lines, none, []);
    } else {
      var n := |lines| - 1;
      var front := lines[..n];
      CollectIs(front);
      CoveredIff(lines, n);
      var seen := Visible(front);
      if Visible(lines) == seen {
        NextHidden(lines, Collect(seen));
      } else {
        assert Visible(lines)[..|seen|] == seen;
        NextShown(lines, Collect(seen), Collect(Visible(lines)));
      }
    }
  }

  lemma NextHidden(lines: seq<Line>, c: Collected)
    requires lines != [] && CollectsRight(lines[..|lines| - 1], c)
    requires var n := |lines| - 1; IsDirective(lines[n]) || Covered(lines, n)
    ensures CollectsRight(lines, c)
  {
    if c.Mismatch? {
      MismatchKept(lines);
    } else {
      RemembersNext(lines, c.current, c.current);
      NoneMismatched(lines);
      AlertsKept(lines, c.alerts);
    }
  }

  lemma MismatchKept(lines: seq<Line>)
    requires lines != [] && SomeMismatched(lines[..|lines| - 1])
    ensures SomeMismatched(lines)
  {
    var j: nat :| Mismatched(lines[..|lines| - 1], j);
    MismatchedBefore(lines, j);
  }

  lemma NoneMismatched(lines: seq<Line>)
    requires lines != [] && NothingMismatched(lines[..|lines| - 1]) && !Mismatched(lines, |lines| - 1)
    ensures NothingMismatched(lines)
  {
    forall j: nat
      ensures !Mismatched(lines, j)
    {
      if j < |lines| - 1 {
        MismatchedBefore(lines, j);
      }
    }
  }

  lemma AlertsKept(lines: seq<Line>, alerts: seq<AlertDef>)
    requires lines != [] && !ShownDefine(lines, |lines| - 1)
    requires HasAlerts(lines[..|lines| - 1], alerts)
    ensures HasAlerts(lines, alerts)
  {
    var places: seq<nat> :| AlertsAt(lines[..|lines| - 1], places, alerts);
    AlertsFrom(lines, places, alerts);
    assert AlertsAt(lines, places, alerts);
  }

  lemma AlertsFrom(lines: seq<Line>, places: seq<nat>, alerts: seq<AlertDef>)
    requires lines != [] && AlertsAt(lines[..|lines| - 1], places, alerts)
    ensures forall m :: 0 <= m < |places| ==> AlertAt(lines, places[m], alerts[m])
    ensures forall j: nat :: j in places <==> j < |lines| - 1 && ShownDefine(lines, j)
  {
    forall m | 0 <= m < |places|
      ensures AlertAt(lines, places[m], alerts[m])
    {
      AlertBefore(lines, places[m], alerts[m]);
    }
    forall j: nat
      ensures j in places <==> j < |lines| - 1 && ShownDefine(lines, j)
    {
      if j < |lines| - 1 {
        MismatchedBefore(lines, j);
      }
    }
  }

  lemma OneMoreAlert(lines: seq<Line>, alerts: seq<AlertDef>, a: AlertDef)
    requires lines != [] && AlertAt(lines, |lines| - 1, a)
    requires HasAlerts(lines[..|lines| - 1], alerts)
    ensures HasAlerts(lines, alerts + [a])
  {
    var places: seq<nat> :| AlertsAt(lines[..|lines| - 1], places, alerts);
    AlertsFrom(lines, places, alerts);
    OnePlaceMore(lines, places, alerts, a);
    assert AlertsAt(lines, places + [|lines| - 1], alerts + [a]);
  }

  lemma OnePlaceMore(lines: seq<Line>, places: seq<nat>, alerts: seq<AlertDef>, a: AlertDef)
    requires lines != [] && AlertAt(lines, |lines| - 1, a) && |places| == |alerts|
    requires forall m, p :: 0 <= m < p < |places| ==> places[m] < places[p]
    requires forall m :: 0 <= m < |places| ==> AlertAt(lines, places[m], alerts[m])
    requires forall j: nat :: j in places <==> j < |lines| - 1 && ShownDefine(lines, j)
    ensures AlertsAt(lines, places + [|lines| - 1], alerts + [a])
  {
    var more := places + [|lines| - 1];
    forall m, p | 0 <= m < p < |more|
      ensures more[m] < more[p]
    {
      assert places[m] in places;
    }
    forall j: nat
      ensures j in more <==> ShownDefine(lines, j)
    {
      assert j in more <==> j in places || j == |lines| - 1;
    }
  }

  lemma NextShown(lines: seq<Line>, before: Collected, after: Collected)
    requires lines != [] && CollectsRight(lines[..|lines| - 1], before)
    requires var n := |lines| - 1;
      var l := lines[n];
      && !IsDirective(l) && !Covered(lines, n)
      && after == (match before
                   case Mismatch => Mismatch
                   case Collected(current, alerts) =>
                     if l.Struct? then Collected(Some(l), alerts)
                     else if l.Define? then
                       if current.Some? && current.value.Struct? && current.value.name == l.name
                       then Collected(current, alerts + [AlertDef(l.name, l.id, current.value.base)])
                       else Mismatch
                     else Collected(current, alerts))
    ensures CollectsRight(lines, after)
  {
    var n := |lines| - 1;
    if before.Mismatch? {
      MismatchKept(lines);
    } else if lines[n].Define? {
      NextDefine(lines, before, after);
    } else {
      RemembersNext(lines, before.current, after.current);
      NoneMismatched(lines);
      AlertsKept(lines, before.alerts);
    }
  }

  lemma NextDefine(lines: seq<Line>, before: Collected, after: Collected)
    requires lines != [] && CollectsRight(lines[..|lines| - 1], before) && before.Collected?
    requires var n := |lines| - 1;
      && lines[n].Define? && !Covered(lines, n)
      && after == (if before.current.Some? && before.current.value.Struct? && before.current.value.name == lines[n].name
                   then Collected(before.current, before.alerts + [AlertDef(lines[n].name, lines[n].id, before.current.value.base)])
                   else Mismatch)
    ensures CollectsRight(lines, after)
  {
    var n := |lines| - 1;
    if before.current.Some? {
      var i: nat :| StructFor(lines[..n], i, n) && lines[..n][i] == before.current.value;
      StructBefore(lines, i, n);
      if after.Collected? {
        assert Matched(lines, i, n);
        OneMoreAlert(lines, before.alerts, AlertDef(lines[n].name, lines[n].id, lines[i].base));
        NoneMismatched(lines);
        RemembersNext(lines, before.current, after.current);
      } else {
        forall k: nat
          ensures !Matched(lines, k, n)
        {
          if StructFor(lines, k, n) {
            OneStruct(lines, i, k, n);
          }
        }
        assert Mismatched(lines, n);
      }
    } else {
      forall k: nat
        ensures !Matched(lines, k, n)
      {
        StructBefore(lines, k, n);
      }
      assert Mismatched(lines, n);
    }
  }

  lemma CollectedAlerts(lines: seq<Line>)
    ensures Collect(Visible(lines)).Mismatch? <==> exists j: nat :: Mismatched(lines, j)
    ensures Collect(Visible(lines)).Collected? ==>
      exists places: seq<nat> :: AlertsAt(lines, places, Collect(Visible(lines)).alerts)
  {
    CollectIs(lines);
  }
}
