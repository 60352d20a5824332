/**
 Two places where `parsa.cc` as written departs from what its comments and
 its own data flow evidently intend, each modelled as written and shown
 wrong on a concrete block. The rest of the model uses the corrected
 behaviour (`ParsaEngine.Parsa.InitCost` and
 `ParsaEngine.Parsa.UpdateCostAndNeighborSet`).
 */
module AsWritten {
  import opened Graph
  import opened Greedy
  import opened CostTracking
  import opened Scenario

  /**
   The costs that `initCost` as written loads into table `s`: its one cost
   vector is declared before the partition loop and never cleared, so each
   table receives the counts of all partitions up to and including its own.
   */
  function CumulativeCosts(g: Csr, covers: seq<seq<bool>>, s: nat): (r: seq<int>)
    requires ValidOffsets(g) && s < |covers|
    ensures |r| == Rows(g)
    ensures forall u :: 0 <= u < Rows(g) ==> r[u] >= UncoveredCosts(g, covers[s])[u]
    decreases s
  {
    var own := UncoveredCosts(g, covers[s]);
    if s == 0 then own
    else
      var prev := CumulativeCosts(g, covers, s - 1);
      seq(Rows(g), u requires 0 <= u < Rows(g) => prev[u] + own[u])
  }

  /** One U vertex with the single neighbour V0, and two partitions that cover nothing. */
  function SmallBlock(): (g: Csr)
    ensures ValidOffsets(g) && Rows(g) == 1 && Neighbours(g, 0) == [0]
  {
    Csr([0, 1], [0])
  }

  /**
   On that block the second table receives cost 2 for a vertex with one
   uncovered neighbour: table 1 holds the sum over both partitions, not
   partition 1's own count.
   */
  lemma CumulativeCostsOverCount()
    ensures CumulativeCosts(SmallBlock(), [[false], [false]], 1) == [2]
    ensures UncoveredCosts(SmallBlock(), [[false], [false]][1]) == [1]
  {
    var g, covers := SmallBlock(), [[false], [false]];
    assert Uncovered([0], [false]) == 1 by {
      assert [0][..0] == [];
    }
    assert UncoveredCosts(g, covers[0]) == [1];
    assert UncoveredCosts(g, covers[1]) == [1];
  }

  /**
   The tables after `updateCostAndNeighborSet` as written: the decrements
   for the newly covered neighbours of `ui` go to table `ui` instead of the
   table of the partition whose coverage grew.
   */
  function UpdateAsWritten(costs: seq<seq<int>>, g: Csr, before: seq<bool>, after: seq<bool>,
                           placed: seq<bool>, ui: nat): (r: seq<seq<int>>)
    requires ValidOffsets(g) && ui < |costs| && |costs[ui]| == Rows(g) && |placed| == Rows(g)
    ensures |r| == |costs|
    ensures forall s :: 0 <= s < |costs| && s != ui ==> r[s] == costs[s]
  {
    costs[ui := Lowered(costs[ui], g, before, after, placed)]
  }

  /**
   On the example block with two partitions and nothing covered, position 0
   places U1 in partition 0, which then covers V1. The code as written
   lowers table 1 and leaves table 0 as it was, so table 0 still charges U0
   for V1 and no longer tracks partition 0's coverage.
   */
  lemma UpdateAsWrittenLosesTrack()
    ensures var g, none := FourBlock(), NoCoverage()[0];
            var costs := [UncoveredCosts(g, none), UncoveredCosts(g, none)];
            var placed := [false, true, false, false];
            var after := Absorb(g, NoCoverage(), 0, 1)[0];
            && Tracks(costs[0], g, none, placed)
            && !Tracks(UpdateAsWritten(costs, g, none, after, placed, 1)[0], g, after, placed)
  {
    var g, none := FourBlock(), NoCoverage()[0];
    var costs := [UncoveredCosts(g, none), UncoveredCosts(g, none)];
    var placed := [false, true, false, false];
    var after := Absorb(g, NoCoverage(), 0, 1)[0];
    assert Neighbours(g, 0) == [0, 1] && Neighbours(g, 1) == [1];
    assert after == [false, true, false];
    assert [0, 1][..1] == [0] && [0][..0] == [];
    assert Uncovered([0, 1], none) == 2;
    assert Uncovered([0, 1], after) == 1;
    assert UpdateAsWritten(costs, g, none, after, placed, 1)[0][0] == 2;
  }
}
