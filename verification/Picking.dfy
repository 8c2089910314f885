/** Ascending lists of positions, for saying which elements a loop picks out of a sequence. */
module Picking {

  import opened Prelude

  ghost predicate Ascending(ps: seq<nat>) {
    forall i, j :: 0 <= i < j < |ps| ==> ps[i] < ps[j]
  }

  /** The positions at which `keep` holds. */
  function Positions(keep: seq<bool>): seq<nat> {
    if keep == [] then [] else Positions(Front(keep)) + if Last(keep) then [|keep| - 1] else []
  }

  ghost predicate AreAt(ps: seq<nat>, keep: seq<bool>) {
    Ascending(ps) && forall i: nat :: i in ps <==> i < |keep| && keep[i]
  }

  lemma {:induction false} PositionsAreExact(keep: seq<bool>)
    ensures AreAt(Positions(keep), keep)
  {
    if keep != [] {
      var f := Front(keep);
      PositionsAreExact(f);
      assert forall i: nat :: i < |f| ==> f[i] == keep[i];
      AppendPosition(Positions(f), |f|);
    }
  }

  lemma {:induction false} AppendPosition(ps: seq<nat>, n: nat)
    requires Ascending(ps) && forall p :: p in ps ==> p < n
    ensures Ascending(ps + [n])
  {
    assert forall i :: 0 <= i < |ps| ==> ps[i] in ps;
  }
}
