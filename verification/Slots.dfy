/** Numbering of libtorrent's settings: the generator walks an enum under
    preprocessor guards and gives every declaration that occupies a slot its
    index; the shim checks the resulting keys. */
module Slots {
  import opened Common
  import P = Preprocessor

  datatype Line =
    | If(abi: bool)
    | Else
    | Endif
    | Blank                                            // also comments and the opening brace
    | Closing                                          // "};"
    | Decl(name: string, rhs: Option<string>)

  datatype Setting = Setting(name: string, value: nat)

  datatype Result = Failed | Parsed(settings: seq<Setting>, next: nat)

  const BASE_NAMES: set<string> := {"string_type_base", "int_type_base", "bool_type_base"}

  predicate IsSentinel(name: string) {
    var suffix := "_internal";
    |suffix| <= |name| && name[|name| - |suffix|..] == suffix
  }

  predicate IsDeprecated(name: string) {
    "deprecated_" <= name
  }

  /** The open guards, innermost last; true once their `#else` was reached. */
  function Branches(lines: seq<Line>): seq<bool> {
    if lines == [] then [] else Next(Branches(lines[..|lines| - 1]), lines[|lines| - 1])
  }

  function Next(pp: seq<bool>, l: Line): seq<bool> {
    match l
    case If(_) => pp + [false]
    case Else => if pp == [] then pp else pp[|pp| - 1 := true]
    case Endif => if pp == [] then pp else pp[..|pp| - 1]
    case _ => pp
  }

  predicate Active(pp: seq<bool>) {
    pp == [] || pp[|pp| - 1]
  }

  /** Occupies a slot: active, not the end marker, not an alias of a name that
      already has one. */
  predicate Consumes(before: seq<Line>, l: Line)
    decreases |before|, 1
  {
    && l.Decl? && Active(Branches(before)) && !IsSentinel(l.name)
    && (l.rhs.Some? ==> l.rhs.value !in Names(before))
  }

  function Names(lines: seq<Line>): set<string>
    decreases |lines|, 0
  {
    if lines == [] then {}
    else
      var n := |lines| - 1;
      if Consumes(lines[..n], lines[n]) then Names(lines[..n]) + {lines[n].name} else Names(lines[..n])
  }

  function Count(lines: seq<Line>): nat {
    if lines == [] then 0
    else
      var n := |lines| - 1;
      Count(lines[..n]) + (if Consumes(lines[..n], lines[n]) then 1 else 0)
  }

  predicate Emits(before: seq<Line>, l: Line) {
    Consumes(before, l) && !IsDeprecated(l.name)
  }

  function Emitted(lines: seq<Line>, base: nat): seq<Setting> {
    if lines == [] then []
    else
      var n := |lines| - 1;
      if Emits(lines[..n], lines[n])
      then Emitted(lines[..n], base) + [Setting(lines[n].name, base + Count(lines[..n]))]
      else Emitted(lines[..n], base)
  }

  /** The generator's variables after these lines. */
  ghost predicate At(before: seq<Line>, base: nat, pp: seq<bool>, seen: set<string>, idx: nat, settings: seq<Setting>) {
    pp == Branches(before) && seen == Names(before) && idx == Count(before) && settings == Emitted(before, base)
  }

  lemma OneMore(before: seq<Line>, l: Line, base: nat, pp: seq<bool>, seen: set<string>, idx: nat, settings: seq<Setting>)
    requires At(before, base, pp, seen, idx, settings)
    ensures Consumes(before, l) <==>
      l.Decl? && Active(pp) && !IsSentinel(l.name) && (l.rhs.Some? ==> l.rhs.value !in seen)
    ensures if Consumes(before, l)
      then At(before + [l], base, pp, seen + {l.name}, idx + 1,
              if IsDeprecated(l.name) then settings else settings + [Setting(l.name, base + idx)])
      else At(before + [l], base, Next(pp, l), seen, idx, settings)
  {
    assert (before + [l])[..|before|] == before;
  }

  /** The generator gives up on this line. */
  predicate Fails(before: seq<Line>, l: Line) {
    var pp := Branches(before);
    match l
    case If(abi) => !abi
    case Else => pp == []
    case Endif => pp == []
    case Closing => Active(pp)
    case Decl(name, rhs) =>
      Consumes(before, l) && rhs.Some? && ((rhs.value != "string_type_base" && rhs.value != "int_type_base" && rhs.value != "bool_type_base")
          || Count(before) != 0)
    case Blank => false
  }

  predicate Ends(before: seq<Line>, l: Line) {
    l.Decl? && Active(Branches(before)) && IsSentinel(l.name)
  }

  lemma FailsHere(before: seq<Line>, l: Line, base: nat, pp: seq<bool>, seen: set<string>, idx: nat, settings: seq<Setting>)
    requires At(before, base, pp, seen, idx, settings)
    ensures Ends(before, l) <==> l.Decl? && Active(pp) && IsSentinel(l.name)
    ensures Fails(before, l) <==>
      match l
      case If(abi) => !abi
      case Else => pp == []
      case Endif => pp == []
      case Closing => Active(pp)
      case Decl(name, rhs) =>
        && Active(pp) && !IsSentinel(name) && rhs.Some? && rhs.value !in seen
        && (rhs.value !in BASE_NAMES || idx != 0)
      case Blank => false
  {
  }

  /** Nothing before line `n` ends the enum or is rejected. */
  ghost predicate Clean(lines: seq<Line>, n: nat)
    requires n <= |lines|
  {
    forall i :: 0 <= i < n ==> !Ends(lines[..i], lines[i]) && !Fails(lines[..i], lines[i])
  }

  ghost predicate FailsFirst(lines: seq<Line>, i: nat) {
    i < |lines| && Clean(lines, i) && Fails(lines[..i], lines[i])
  }

  lemma CleanNext(lines: seq<Line>, i: nat)
    requires i < |lines| && Clean(lines, i)
    ensures Fails(lines[..i], lines[i]) ==> FailsFirst(lines, i)
    ensures !Fails(lines[..i], lines[i]) && !Ends(lines[..i], lines[i]) ==> Clean(lines, i + 1)
  {
  }

  method ParseSettingsEnum(lines: seq<Line>, base: nat) returns (r: Result)
    ensures r.Parsed? ==>
      && 0 < r.next <= |lines| && Clean(lines, r.next - 1)
      && Ends(lines[..r.next - 1], lines[r.next - 1])
      && r.settings == Emitted(lines[..r.next - 1], base)
    ensures r.Failed? ==>
      || Clean(lines, |lines|)
      || exists i: nat :: FailsFirst(lines, i)
  {
    var idx := 0;
    var seen: set<string> := {};
    var pp: seq<bool> := [];
    var settings: seq<Setting> := [];
    var j := 0;
    while j < |lines|
      invariant 0 <= j <= |lines| && Clean(lines, j)
      invariant At(lines[..j], base, pp, seen, idx, settings)
    {
      var line := lines[j];
      assert lines[..j + 1] == lines[..j] + [line];
      OneMore(lines[..j], line, base, pp, seen, idx, settings);
      FailsHere(lines[..j], line, base, pp, seen, idx, settings);
      CleanNext(lines, j);
      j := j + 1;
      if line.If? {
        if !line.abi {
          return Failed;
        }
        pp := pp + [false];
      } else if line.Else? {
        if pp == [] {
          return Failed;
        }
        pp := pp[|pp| - 1 := true];
      } else if line.Endif? {
        if pp == [] {
          return Failed;
        }
        pp := pp[..|pp| - 1];
      } else if pp != [] && !pp[|pp| - 1] {
      } else if line.Blank? {
      } else if line.Closing? {
        return Failed;
      } else if IsSentinel(line.name) {
        return Parsed(settings, j);
      } else if line.rhs.Some? && line.rhs.value in seen {
      } else {
        if line.rhs.Some? && line.rhs.value !in BASE_NAMES {
          return Failed;
        }
        if line.rhs.Some? && idx != 0 {
          return Failed;
        }
        seen := seen + {line.name};
        if !IsDeprecated(line.name) {
          settings := settings + [Setting(line.name, base + idx)];
        }
        idx := idx + 1;
      }
    }
    return Failed;
  }

  // ---- what the keys are ----------------------------------------------------------

  ghost predicate IsSlot(lines: seq<Line>, j: nat, base: nat, s: Setting) {
    && j < |lines| && Emits(lines[..j], lines[j])
    && s == Setting(lines[j].name, base + Count(lines[..j]))
  }

  /** A setting is emitted exactly for each declaration that has a slot and is
      not deprecated, and its key is the base plus the slots before it. */
  lemma {:induction false} EmittedIff(lines: seq<Line>, base: nat, s: Setting)
    ensures s in Emitted(lines, base) <==> exists j: nat :: IsSlot(lines, j, base, s)
  {
    if lines != [] {
      var n := |lines| - 1;
      var front := lines[..n];
      EmittedIff(front, base, s);
      forall j: nat | j < n
        ensures IsSlot(lines, j, base, s) <==> IsSlot(front, j, base, s)
      {
        assert front[..j] == lines[..j] && front[j] == lines[j];
      }
      assert IsSlot(lines, n, base, s) <==> Emits(front, lines[n]) && s == Setting(lines[n].name, base + Count(front));
      if j: nat :| IsSlot(front, j, base, s) {
        assert IsSlot(lines, j, base, s);
      }
    }
  }

  ghost predicate Ascending(e: seq<Setting>, lo: nat, hi: nat) {
    && (forall a, b :: 0 <= a < b < |e| ==> e[a].value < e[b].value)
    && (forall a :: 0 <= a < |e| ==> lo <= e[a].value < hi)
  }

  lemma AscendingGrows(e: seq<Setting>, lo: nat, hi: nat, s: Setting)
    requires Ascending(e, lo, hi) && s.value == hi >= lo
    ensures Ascending(e, lo, hi + 1) && Ascending(e + [s], lo, hi + 1)
  {
  }

  /** Keys strictly ascend, all below base plus the slots counted. */
  lemma {:induction false} KeysAscend(lines: seq<Line>, base: nat)
    ensures Ascending(Emitted(lines, base), base, base + Count(lines))
  {
    if lines != [] {
      var n := |lines| - 1;
      var front := lines[..n];
      KeysAscend(front, base);
      var key := base + Count(front);
      if Consumes(front, lines[n]) {
        AscendingGrows(Emitted(front, base), base, key, Setting(lines[n].name, key));
      }
    }
  }

  /** No enclosing guard is still in its skipped branch: what the preprocessor
      means by an active line, where the generator asks the innermost only. */
  ghost predicate Offered(pp: seq<bool>) {
    forall k :: 0 <= k < |pp| ==> pp[k]
  }

  ghost predicate AgreesAt(lines: seq<Line>, i: nat)
    requires i <= |lines|
  {
    Active(Branches(lines[..i])) <==> Offered(Branches(lines[..i]))
  }

  /** If this is an `#else`, the guards around its own are all active. */
  ghost predicate ElseIsOffered(lines: seq<Line>, i: nat)
    requires i < |lines|
  {
    var pp := Branches(lines[..i]);
    lines[i].Else? && pp != [] ==> Offered(pp[..|pp| - 1])
  }

  /** Active guards come first, skipped ones after them. */
  ghost predicate Layered(pp: seq<bool>) {
    forall j, k :: 0 <= j < k < |pp| && pp[k] ==> pp[j]
  }

  lemma {:induction false} StaysLayered(lines: seq<Line>)
    requires forall i :: 0 <= i < |lines| ==> ElseIsOffered(lines, i)
    ensures Layered(Branches(lines))
  {
    if lines != [] {
      var n := |lines| - 1;
      var front := lines[..n];
      forall i | 0 <= i < n
        ensures ElseIsOffered(front, i)
      {
        assert front[..i] == lines[..i];
        assert ElseIsOffered(lines, i);
      }
      StaysLayered(front);
      assert ElseIsOffered(lines, n);
    }
  }

  /** The generator agrees with the preprocessor at every line exactly for the
      headers in which no `#else` stands inside a skipped branch. */
  lemma GuardsAgreeIff(lines: seq<Line>)
    ensures (forall i :: 0 <= i <= |lines| ==> AgreesAt(lines, i)) <==>
            (forall i :: 0 <= i < |lines| ==> ElseIsOffered(lines, i))
  {
    if forall i :: 0 <= i < |lines| ==> ElseIsOffered(lines, i) {
      forall n | 0 <= n <= |lines|
        ensures AgreesAt(lines, n)
      {
        forall i | 0 <= i < n
          ensures ElseIsOffered(lines[..n], i)
        {
          assert lines[..n][..i] == lines[..i];
          assert ElseIsOffered(lines, i);
        }
        StaysLayered(lines[..n]);
      }
    } else {
      var i :| 0 <= i < |lines| && !ElseIsOffered(lines, i);
      var pp := Branches(lines[..i]);
      assert lines[..i + 1][..i] == lines[..i];
      assert Branches(lines[..i + 1]) == pp[|pp| - 1 := true];
      assert pp[|pp| - 1 := true][..|pp| - 1] == pp[..|pp| - 1];
      assert !Offered(pp[..|pp| - 1]);
      assert !AgreesAt(lines, i + 1);
    }
  }

  /** An `#else` nested inside a skipped branch switches lines back on, though an
      enclosing guard is still skipped. */
  lemma NestedElseLeaks()
    ensures Branches([If(true), If(true), Else]) == [false, true]
    ensures Active(Branches([If(true), If(true), Else]))
  {
    var one: seq<Line> := [If(true)];
    var two := one + [If(true)];
    var three := two + [Else];
    assert one[..0] == [] && two[..1] == one && three[..2] == two;
    assert Branches(one) == Next([], If(true)) == [false];
    assert Branches(two) == Next([false], If(true)) == [false, false];
    assert Branches(three) == Next([false, false], Else) == [false, true];
    assert three == [If(true), If(true), Else];
  }

  // ---- the consumer ---------------------------------------------------------------

  const STR_BASE: nat := 0x0000
  const INT_BASE: nat := 0x4000
  const BOOL_BASE: nat := 0x8000

  function TypeBits(key: nat): nat {
    ((key / 0x4000) % 4) * 0x4000
  }

  function IndexBits(key: nat): nat {
    key % 0x4000
  }

  datatype Tables = Tables(strings: nat, ints: nat, bools: nat)

  predicate ValidKey(key: int, tables: Tables) {
    0 <= key <= 0xffff &&
    if TypeBits(key) == STR_BASE then IndexBits(key) < tables.strings
    else if TypeBits(key) == INT_BASE then IndexBits(key) < tables.ints
    else TypeBits(key) == BOOL_BASE && IndexBits(key) < tables.bools
  }

  predicate ValidKeyOf(key: int, base: nat, tables: Tables) {
    0 <= key && TypeBits(key) == base && ValidKey(key, tables)
  }

  function TableOf(base: nat, tables: Tables): nat {
    if base == STR_BASE then tables.strings else if base == INT_BASE then tables.ints else tables.bools
  }

  /** `count_by_kind` for the settings of one kind. */
  method CountByKind(settings: seq<Setting>) returns (count: nat)
    ensures forall i :: 0 <= i < |settings| ==> IndexBits(settings[i].value) < count
    ensures count == 0 <==> settings == []
    ensures count > 0 ==> exists i :: 0 <= i < |settings| && IndexBits(settings[i].value) + 1 == count
  {
    count := 0;
    for i := 0 to |settings|
      invariant forall k :: 0 <= k < i ==> IndexBits(settings[k].value) < count
      invariant count == 0 <==> i == 0
      invariant count > 0 ==> exists k :: 0 <= k < i && IndexBits(settings[k].value) + 1 == count
    {
      if IndexBits(settings[i].value) + 1 > count {
        count := IndexBits(settings[i].value) + 1;
      }
    }
  }

  lemma KeyBits(base: nat, idx: nat)
    requires base == STR_BASE || base == INT_BASE || base == BOOL_BASE
    ensures base + idx <= 0xffff && TypeBits(base + idx) == base <==> idx < 0x4000
    ensures idx < 0x4000 ==> IndexBits(base + idx) == idx
  {
  }

  /** Every emitted key is accepted by the shim, for any table at least as long
      as the generated count, exactly as long as its index fits 14 bits. */
  lemma EmittedKeysAreValid(lines: seq<Line>, base: nat, tables: Tables, count: nat, a: nat)
    requires base == STR_BASE || base == INT_BASE || base == BOOL_BASE
    requires a < |Emitted(lines, base)|
    requires forall i :: 0 <= i < |Emitted(lines, base)| ==> IndexBits(Emitted(lines, base)[i].value) < count
    requires count <= TableOf(base, tables)
    ensures base <= Emitted(lines, base)[a].value
    ensures ValidKeyOf(Emitted(lines, base)[a].value, base, tables) <==>
            Emitted(lines, base)[a].value - base < 0x4000
  {
    KeysAscend(lines, base);
    KeyBits(base, Emitted(lines, base)[a].value - base);
  }

  function Declarations(n: nat): (lines: seq<Line>)
    ensures |lines| == n
  {
    seq(n, _ => Decl("s", None))
  }

  lemma {:induction false} EachTakesASlot(n: nat, base: nat)
    ensures Branches(Declarations(n)) == [] && Count(Declarations(n)) == n
    ensures |Emitted(Declarations(n), base)| == n
    ensures forall k :: 0 <= k < n ==> Emitted(Declarations(n), base)[k].value == base + k
  {
    if n > 0 {
      EachTakesASlot(n - 1, base);
      assert Declarations(n)[..n - 1] == Declarations(n - 1);
      assert Consumes(Declarations(n - 1), Declarations(n)[n - 1]);
    }
  }

  /** With an end marker before any rejected line the parser cannot fail. */
  lemma EndIsReached(lines: seq<Line>, n: nat)
    requires n < |lines| && Clean(lines, n) && Ends(lines[..n], lines[n])
    ensures !Clean(lines, |lines|) && forall i: nat :: !FailsFirst(lines, i)
  {
    forall i: nat
      ensures !FailsFirst(lines, i)
    {
      if i == n {
        assert !Fails(lines[..n], lines[n]);
      }
    }
  }

  /** A header the generator accepts, whose last key no table makes valid: one
      declaration more than an index can count, then the end marker. */
  lemma TooManySlots() returns (lines: seq<Line>, n: nat)
    ensures n < |lines| && Clean(lines, n) && Ends(lines[..n], lines[n])
    ensures forall i: nat :: !FailsFirst(lines, i)
    ensures |Emitted(lines[..n], STR_BASE)| == 0x4001
    ensures forall tables :: !ValidKeyOf(Emitted(lines[..n], STR_BASE)[0x4000].value, STR_BASE, tables)
  {
    n := 0x4001;
    lines := Declarations(n) + [Decl("s_internal", None)];
    assert lines[..n] == Declarations(n);
    EachTakesASlot(n, STR_BASE);
    KeyBits(STR_BASE, 0x4000);
    assert IsSentinel(lines[n].name);
    forall i | 0 <= i < n
      ensures !Ends(lines[..i], lines[i]) && !Fails(lines[..i], lines[i])
    {
      assert lines[i] == Decl("s", None);
    }
    EndIsReached(lines, n);
  }

  // ---- the same, on the lines alone ----------------------------------------------

  function DirectiveOf(l: Line): P.Directive {
    match l
    case If(_) => P.If
    case Else => P.Else
    case Endif => P.Endif
    case _ => P.NoDirective
  }

  function Directives(lines: seq<Line>): (ds: seq<P.Directive>)
    ensures |ds| == |lines|
  {
    seq(|lines|, i requires 0 <= i < |lines| => DirectiveOf(lines[i]))
  }

  /** The guard opened at `i` has had an `#else` of its own. */
  ghost predicate ElseSeen(lines: seq<Line>, i: nat) {
    exists k: nat :: ElseAt(lines, i, k)
  }

  ghost predicate ElseAt(lines: seq<Line>, i: nat, k: nat) {
    i < k < |lines| && lines[k].Else? && P.Balance(Directives(lines)[i..k]) == 1
  }

  lemma ElseSeenNext(lines: seq<Line>, i: nat)
    requires lines != [] && i < |lines| - 1
    ensures var n := |lines| - 1;
      ElseSeen(lines, i) <==>
        ElseSeen(lines[..n], i) || (lines[n].Else? && P.Balance(Directives(lines[..n])[i..]) == 1)
  {
    var n := |lines| - 1;
    var front := lines[..n];
    assert Directives(lines)[..n] == Directives(front);
    forall k: nat | k < n
      ensures ElseAt(front, i, k) <==> ElseAt(lines, i, k)
    {
      if i < k {
        assert Directives(front)[i..k] == Directives(lines)[i..k];
      }
    }
    assert Directives(lines)[i..n] == Directives(front)[i..];
    if k: nat :| ElseAt(lines, i, k) {
      assert k < n ==> ElseAt(front, i, k);
    }
    if k: nat :| ElseAt(front, i, k) {
      assert ElseAt(lines, i, k);
    }
    if lines[n].Else? && P.Balance(Directives(front)[i..]) == 1 {
      assert ElseAt(lines, i, n);
    }
  }

  /** The generator's stack, entry by entry. */
  ghost predicate StackIs(lines: seq<Line>, pp: seq<bool>, at: seq<nat>) {
    |pp| == |at| && forall m :: 0 <= m < |pp| ==> (pp[m] <==> ElseSeen(lines, at[m]))
  }

  lemma {:induction false} BranchesAre(lines: seq<Line>)
    ensures StackIs(lines, Branches(lines), P.Openers(Directives(lines)))
  {
    if lines != [] {
      var n := |lines| - 1;
      var front := lines[..n];
      var at := P.Openers(Directives(front));
      BranchesAre(front);
      P.OpenersAre(Directives(front));
      assert Directives(lines)[..n] == Directives(front);
      StackNext(lines, Branches(front), at, Branches(lines), P.Openers(Directives(lines)));
    }
  }

  lemma StackNext(lines: seq<Line>, pp: seq<bool>, at: seq<nat>, pp': seq<bool>, at': seq<nat>)
    requires lines != [] && StackIs(lines[..|lines| - 1], pp, at)
    requires forall m :: 0 <= m < |at| ==>
      at[m] < |lines| - 1 && P.Balance(Directives(lines[..|lines| - 1])[at[m]..]) == |at| - m
    requires pp' == Next(pp, lines[|lines| - 1])
    requires match lines[|lines| - 1]
             case If(_) => at' == at + [|lines| - 1]
             case Endif => at' == if at == [] then [] else at[..|at| - 1]
             case _ => at' == at
    ensures StackIs(lines, pp', at')
  {
    forall m | 0 <= m < |pp'|
      ensures pp'[m] <==> ElseSeen(lines, at'[m])
    {
      if m < |at| {
        ElseSeenNext(lines, at[m]);
      }
    }
  }

  /** The guard opened at `i` is the innermost one open at line `j`. */
  ghost predicate Innermost(lines: seq<Line>, i: nat, j: nat)
    requires j <= |lines|
  {
    && P.OpenAt(Directives(lines[..j]), i)
    && forall k: nat :: i < k < j ==> !P.OpenAt(Directives(lines[..j]), k)
  }

  /** The line is under no guard, or past the `#else` of the innermost one. */
  ghost predicate ActiveAt(lines: seq<Line>, j: nat)
    requires j <= |lines|
  {
    forall i: nat :: Innermost(lines, i, j) ==> ElseSeen(lines[..j], i)
  }

  lemma ActiveIff(lines: seq<Line>, j: nat)
    requires j <= |lines|
    ensures Active(Branches(lines[..j])) <==> ActiveAt(lines, j)
  {
    var front := lines[..j];
    var at := P.Openers(Directives(front));
    BranchesAre(front);
    P.OpenersAre(Directives(front));
    if at != [] {
      var i := at[|at| - 1];
      assert i in at;
      forall k: nat | i < k < j
        ensures !P.OpenAt(Directives(front), k)
      {
        if k in at {
          var m :| 0 <= m < |at| && at[m] == k;
          assert false;
        }
      }
      assert Innermost(lines, i, j);
      forall k: nat | Innermost(lines, k, j)
        ensures k == i
      {
        var m :| 0 <= m < |at| && at[m] == k;
      }
    }
  }

  ghost predicate EndsWith(name: string, suffix: string) {
    exists front: string :: name == front + suffix
  }

  ghost predicate StartsWith(name: string, prefix: string) {
    exists rest: string :: name == prefix + rest
  }

  lemma NamesSpelledOut(name: string)
    ensures IsSentinel(name) <==> EndsWith(name, "_internal")
    ensures IsDeprecated(name) <==> StartsWith(name, "deprecated_")
  {
    if IsSentinel(name) {
      assert name == name[..|name| - |"_internal"|] + "_internal";
    }
    if IsDeprecated(name) {
      assert name == "deprecated_" + name[|"deprecated_"|..];
    }
  }

  /** An active declaration that is not an end marker, and not an alias of an
      earlier one of this kind. */
  ghost predicate TakesSlot(lines: seq<Line>, j: nat)
    decreases j
  {
    && j < |lines| && lines[j].Decl? && ActiveAt(lines, j) && !EndsWith(lines[j].name, "_internal")
    && (lines[j].rhs.Some? ==> forall i: nat :: i < j && TakesSlot(lines, i) ==> lines[i].name != lines[j].rhs.value)
  }

  lemma {:induction false} TakesSlotIff(lines: seq<Line>, j: nat)
    requires j < |lines|
    ensures TakesSlot(lines, j) <==> Consumes(lines[..j], lines[j])
    decreases j
  {
    ActiveIff(lines, j);
    if lines[j].Decl? {
      NamesSpelledOut(lines[j].name);
      if lines[j].rhs.Some? {
        NamesAre(lines, j, lines[j].rhs.value);
      }
    }
  }

  lemma {:induction false} NamesAre(lines: seq<Line>, n: nat, name: string)
    requires n <= |lines|
    ensures name in Names(lines[..n]) <==> exists i: nat :: i < n && TakesSlot(lines, i) && lines[i].name == name
    decreases n, 0
  {
    if n > 0 {
      assert lines[..n][..n - 1] == lines[..n - 1];
      NamesAre(lines, n - 1, name);
      TakesSlotIff(lines, n - 1);
    }
  }

  ghost function SlotsBefore(lines: seq<Line>, n: nat): set<nat> {
    set i: nat | i < n && TakesSlot(lines, i)
  }

  lemma {:induction false} CountIs(lines: seq<Line>, n: nat)
    requires n <= |lines|
    ensures Count(lines[..n]) == |SlotsBefore(lines, n)|
  {
    if n > 0 {
      CountIs(lines, n - 1);
      TakesSlotIff(lines, n - 1);
      assert lines[..n][..n - 1] == lines[..n - 1];
      assert SlotsBefore(lines, n) ==
             SlotsBefore(lines, n - 1) + (if TakesSlot(lines, n - 1) then {n - 1} else {});
    }
  }

  ghost predicate EmittedFor(lines: seq<Line>, j: nat, base: nat, s: Setting) {
    && TakesSlot(lines, j) && !StartsWith(lines[j].name, "deprecated_")
    && s == Setting(lines[j].name, base + |SlotsBefore(lines, j)|)
  }

  /** What is emitted, on the lines alone. */
  lemma EmittedAre(lines: seq<Line>, base: nat, s: Setting)
    ensures s in Emitted(lines, base) <==> exists j: nat :: EmittedFor(lines, j, base, s)
  {
    EmittedIff(lines, base, s);
    forall j: nat
      ensures IsSlot(lines, j, base, s) <==> EmittedFor(lines, j, base, s)
    {
      if j < |lines| {
        TakesSlotIff(lines, j);
        CountIs(lines, j);
        if lines[j].Decl? {
          NamesSpelledOut(lines[j].name);
        }
      }
    }
    if j: nat :| IsSlot(lines, j, base, s) {
      assert EmittedFor(lines, j, base, s);
    }
    if j: nat :| EmittedFor(lines, j, base, s) {
      assert IsSlot(lines, j, base, s);
    }
  }

  /** Where the enum ends. */
  lemma EndsIff(lines: seq<Line>, j: nat)
    requires j < |lines|
    ensures Ends(lines[..j], lines[j]) <==>
      lines[j].Decl? && ActiveAt(lines, j) && EndsWith(lines[j].name, "_internal")
  {
    ActiveIff(lines, j);
    if lines[j].Decl? {
      NamesSpelledOut(lines[j].name);
    }
  }

  ghost predicate NoneOpen(lines: seq<Line>, j: nat)
    requires j <= |lines|
  {
    forall i: nat :: !P.OpenAt(Directives(lines[..j]), i)
  }

  lemma NoneOpenIff(lines: seq<Line>, j: nat)
    requires j <= |lines|
    ensures Branches(lines[..j]) == [] <==> NoneOpen(lines, j)
  {
    var at := P.Openers(Directives(lines[..j]));
    BranchesAre(lines[..j]);
    P.OpenersAre(Directives(lines[..j]));
    if at != [] {
      assert at[0] in at;
    }
  }

  /** What the generator rejects: a guard of another kind, a stray `#else` or
      `#endif`, the end of the enum before its marker, and a value that is not a
      type base in the first slot. */
  lemma FailsIff(lines: seq<Line>, j: nat)
    requires j < |lines|
    ensures Fails(lines[..j], lines[j]) <==>
      match lines[j]
      case If(abi) => !abi
      case Else => NoneOpen(lines, j)
      case Endif => NoneOpen(lines, j)
      case Closing => ActiveAt(lines, j)
      case Decl(_, rhs) =>
        && TakesSlot(lines, j) && rhs.Some?
        && (rhs.value !in {"string_type_base", "int_type_base", "bool_type_base"} || SlotsBefore(lines, j) != {})
      case Blank => false
  {
    NoneOpenIff(lines, j);
    ActiveIff(lines, j);
    TakesSlotIff(lines, j);
    CountIs(lines, j);
  }

  /** The keys the shim accepts, range by range. */
  lemma ValidKeyIff(key: int, tables: Tables)
    ensures ValidKey(key, tables) <==>
      || (0 <= key < 0x4000 && key < tables.strings)
      || (0x4000 <= key < 0x8000 && key - 0x4000 < tables.ints)
      || (0x8000 <= key < 0xC000 && key - 0x8000 < tables.bools)
  {
  }
}
