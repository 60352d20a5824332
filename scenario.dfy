/**
 The four-vertex block used as the running example of the partitioner: U
 vertices 0..3 with the neighbour lists {V0, V1}, {V1}, {V0, V2}, {V1, V2}
 over a V universe of three vertices, and two partitions.
 */
module Scenario {
  import opened Graph
  import opened CostTables
  import opened Greedy

  /** The row-major view of the example block. */
  function FourBlock(): (g: Csr)
    ensures ValidOffsets(g) && Rows(g) == 4
  {
    Csr([0, 2, 3, 5, 7], [0, 1, 1, 0, 2, 1, 2])
  }

  /** Nothing covered yet in either of the two partitions. */
  function NoCoverage(): (r: seq<seq<bool>>)
    ensures |r| == 2
  {
    [[false, false, false], [false, false, false]]
  }

  /**
   With nothing covered, the costs are the neighbour counts 2, 1, 2, 2, so
   position 0 (partition 0) picks U1, the only vertex with a single
   neighbour, not U0.
   */
  lemma FirstPickIsOne()
    ensures UncoveredCosts(FourBlock(), NoCoverage()[0]) == [2, 1, 2, 2]
    ensures Pick(FourBlock(), NoCoverage(), NonePlaced(4), 0) == 1
  {
    var g, none := FourBlock(), NoCoverage()[0];
    assert Neighbours(g, 0) == [0, 1] && Neighbours(g, 1) == [1];
    assert Neighbours(g, 2) == [0, 2] && Neighbours(g, 3) == [1, 2];
    assert [0, 1][..1] == [0] && [0, 2][..1] == [0] && [1, 2][..1] == [1] && [0][..0] == [] && [1][..0] == [];
    assert Uncovered([0, 1], none) == 2 && Uncovered([1], none) == 1;
    assert Uncovered([0, 2], none) == 2 && Uncovered([1, 2], none) == 2;
    var c := UncoveredCosts(g, none);
    assert c == [2, 1, 2, 2];
    var e := Unassigned(NonePlaced(4));
    assert e == [true, true, true, true];
    assert MinEligibleUpTo(c, e, 1) == 0;
    assert MinEligibleUpTo(c, e, 2) == 1;
    assert MinEligibleUpTo(c, e, 3) == 1;
    assert MinEligibleUpTo(c, e, 4) == 1;
  }
}
