/** Preprocessor guards as they nest in a header: which of them are open at a
    line, told by counting and told by a stack. */
module Preprocessor {

  datatype Directive = If | Else | Endif | NoDirective

  /** Guards opened less guards closed. */
  function Balance(ds: seq<Directive>): int {
    if ds == [] then 0
    else
      var n := |ds| - 1;
      Balance(ds[..n]) + (if ds[n].If? then 1 else if ds[n].Endif? then -1 else 0)
  }

  /** The guard opened at `i` is still open at the end: it was never closed. */
  ghost predicate OpenAt(ds: seq<Directive>, i: nat) {
    i < |ds| && ds[i].If? && forall k :: i < k <= |ds| ==> Balance(ds[i..k]) >= 1
  }

  /** Where the open guards were opened, innermost last. A stray `#endif` closes
      nothing. */
  function Openers(ds: seq<Directive>): (open: seq<nat>)
    ensures forall m :: 0 <= m < |open| ==> open[m] < |ds| && ds[open[m]].If?
  {
    if ds == [] then []
    else
      var n := |ds| - 1;
      var open := Openers(ds[..n]);
      match ds[n]
      case If => open + [n]
      case Endif => if open == [] then [] else open[..|open| - 1]
      case _ => open
  }

  lemma BalanceGrows(ds: seq<Directive>, i: nat)
    requires i < |ds|
    ensures var n := |ds| - 1;
      Balance(ds[i..]) == Balance(ds[..n][i..]) + (if ds[n].If? then 1 else if ds[n].Endif? then -1 else 0)
  {
    var n := |ds| - 1;
    assert ds[i..][..n - i] == ds[..n][i..];
  }

  lemma OpenGrows(ds: seq<Directive>, i: nat)
    requires i < |ds| - 1
    ensures OpenAt(ds, i) <==> OpenAt(ds[..|ds| - 1], i) && Balance(ds[i..]) >= 1
  {
    var n := |ds| - 1;
    assert forall k :: i < k <= n ==> ds[i..k] == ds[..n][i..k];
    assert ds[i..n + 1] == ds[i..];
  }

  /** The stack holds exactly the open guards, in order; the balance since one of
      them counts the guards from it on. */
  lemma {:induction false} OpenersAre(ds: seq<Directive>)
    ensures forall i: nat :: i in Openers(ds) <==> OpenAt(ds, i)
    ensures forall m :: 0 <= m < |Openers(ds)| ==> Balance(ds[Openers(ds)[m]..]) == |Openers(ds)| - m
    ensures forall m, p :: 0 <= m < p < |Openers(ds)| ==> Openers(ds)[m] < Openers(ds)[p]
  {
    if ds != [] {
      var n := |ds| - 1;
      var front := ds[..n];
      var before, after := Openers(front), Openers(ds);
      OpenersAre(front);
      BalanceGrows(ds, n);
      assert front[n..] == [] && ds[n..n + 1] == ds[n..];
      forall m | 0 <= m < |after|
        ensures Balance(ds[after[m]..]) == |after| - m
      {
        BalanceGrows(ds, after[m]);
        assert after[m] < n ==> m < |before| && after[m] == before[m];
      }
      forall i: nat
        ensures i in after <==> OpenAt(ds, i)
      {
        if i < n {
          OpenGrows(ds, i);
          BalanceGrows(ds, i);
          StillOpen(ds, i);
        }
      }
    }
  }

  lemma StillOpen(ds: seq<Directive>, i: nat)
    requires ds != [] && i < |ds| - 1
    requires var before := Openers(ds[..|ds| - 1]);
      && (forall m :: 0 <= m < |before| ==> Balance(ds[..|ds| - 1][before[m]..]) == |before| - m)
      && (forall m, p :: 0 <= m < p < |before| ==> before[m] < before[p])
    ensures i in Openers(ds) <==> i in Openers(ds[..|ds| - 1]) && Balance(ds[i..]) >= 1
  {
    var n := |ds| - 1;
    var before, after := Openers(ds[..n]), Openers(ds);
    BalanceGrows(ds, i);
    if i in before {
      var m :| 0 <= m < |before| && before[m] == i;
      assert Balance(ds[..n][i..]) == |before| - m;
      if ds[n].Endif? {
        LastGone(before, m);
      }
    } else {
      assert i !in after;
    }
  }

  lemma LastGone(open: seq<nat>, m: nat)
    requires m < |open| && forall j, k :: 0 <= j < k < |open| ==> open[j] < open[k]
    ensures open[m] in open[..|open| - 1] <==> m < |open| - 1
  {
    if m < |open| - 1 {
      assert open[..|open| - 1][m] == open[m];
    }
  }
}
