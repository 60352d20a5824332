/**
 The partitioner's state and its per-block greedy pass.

 A `Parsa` object holds one cost table per partition, a coverage bitmap
 over the V universe per partition (row `s` of a two-dimensional array), and
 the bitmap of U vertices of the current block that are already placed. The
 coverage bitmaps live across blocks: a block starts from what earlier
 blocks covered.
 */
module ParsaEngine {
  import opened Graph
  import opened CostTables
  import opened Greedy
  import opened CostTracking
  import opened Balance

  /** Row `s` of a two-dimensional bitmap, as a value. */
  ghost function Row(a: array2<bool>, s: nat): (r: seq<bool>)
    requires s < a.Length0
    reads a
    ensures |r| == a.Length1 && forall v :: 0 <= v < a.Length1 ==> r[v] == a[s, v]
  {
    seq(a.Length1, v requires 0 <= v < a.Length1 reads a => a[s, v])
  }

  class Parsa {
    /** The number of partitions. */
    const k: nat
    /** The size of the V universe that column ids are reduced into. */
    const vSize: nat
    /** One cost table per partition. */
    var cost: seq<CostTable>
    /** Row `s` is the coverage bitmap of partition `s` over `[0, vSize)`. */
    var neighborSet: array2<bool>
    /** The U vertices of the current block that are placed already. */
    var assignedU: array<bool>

    /** One table and one bitmap row per partition, and no two partitions share a table. */
    ghost predicate Valid()
      reads this, cost
    {
      && k > 0
      && |cost| == k && neighborSet.Length0 == k && neighborSet.Length1 == vSize
      && (forall s :: 0 <= s < k ==> cost[s].Valid())
      && (forall s, t :: 0 <= s < t < k ==> cost[s] != cost[t])
    }

    /** The placed bitmap and every cost table have one entry per U vertex of a block of `n` rows. */
    ghost predicate Sized(n: nat)
      reads this, cost
    {
      assignedU.Length == n && forall s :: 0 <= s < |cost| ==> |cost[s].cost| == n
    }

    /** The coverage bitmaps, as values. */
    ghost function Covers(): (r: seq<seq<bool>>)
      reads this, neighborSet
      ensures |r| == neighborSet.Length0
      ensures forall s :: 0 <= s < |r| ==> r[s] == Row(neighborSet, s)
    {
      seq(neighborSet.Length0, s requires 0 <= s < neighborSet.Length0 reads this, neighborSet => Row(neighborSet, s))
    }

    /** A partitioner with `k` partitions over a V universe of size `vSize`; nothing is covered yet. */
    constructor (k: nat, vSize: nat)
      requires k > 0
      ensures Valid() && fresh(cost) && fresh(neighborSet)
      ensures this.k == k && this.vSize == vSize
      ensures forall s, v :: 0 <= s < k && 0 <= v < vSize ==> !neighborSet[s, v]
    {
      this.k := k;
      this.vSize := vSize;
      var tables: seq<CostTable> := [];
      var s := 0;
      while s < k
        invariant 0 <= s <= k
        invariant |tables| == s && fresh(tables)
        invariant forall t :: 0 <= t < s ==> tables[t].Valid()
        invariant forall t, w :: 0 <= t < w < s ==> tables[t] != tables[w]
      {
        var table := new CostTable();
        tables := tables + [table];
        s := s + 1;
      }
      cost := tables;
      neighborSet := new bool[k, vSize]((_, _) => false);
      assignedU := new bool[0];
    }

    /**
     Loads every cost table with the replication costs of the block's U
     vertices against that partition's current coverage, all eligible.
     */
    method InitCost(g: Csr)
      requires Valid() && ValidOffsets(g) && IndicesBelow(g, vSize)
      modifies cost
      ensures Valid()
      ensures forall s :: 0 <= s < k ==> cost[s].cost == UncoveredCosts(g, Covers()[s])
      ensures forall s :: 0 <= s < k ==> cost[s].eligible == Unassigned(NonePlaced(Rows(g)))
    {
      var s := 0;
      while s < k
        invariant 0 <= s <= k
        invariant Valid()
        invariant forall t :: 0 <= t < s ==> cost[t].cost == UncoveredCosts(g, Covers()[t])
        invariant forall t :: 0 <= t < s ==> cost[t].eligible == Unassigned(NonePlaced(Rows(g)))
      {
        var c := RowCosts(g, neighborSet, s);
        cost[s].Init(c[..]);
        s := s + 1;
      }
    }

    /** The replication cost of every U vertex of the block against row `s` of `neighbor`. */
    static method RowCosts(g: Csr, neighbor: array2<bool>, s: nat) returns (c: array<int>)
      requires ValidOffsets(g) && s < neighbor.Length0 && IndicesBelow(g, neighbor.Length1)
      ensures fresh(c) && c[..] == UncoveredCosts(g, Row(neighbor, s))
    {
      var n := Rows(g);
      c := new int[n](_ => 0);
      var i := 0;
      while i < n
        modifies c
        invariant 0 <= i <= n
        invariant forall u :: 0 <= u < i ==> c[u] == Uncovered(Neighbours(g, u), Row(neighbor, s))
      {
        c[i] := RowCost(g, neighbor, s, i);
        i := i + 1;
      }
    }

    /** The number of neighbours of U vertex `u` that row `s` of `neighbor` does not cover. */
    static method RowCost(g: Csr, neighbor: array2<bool>, s: nat, u: nat) returns (cnt: int)
      requires ValidOffsets(g) && u < Rows(g) && s < neighbor.Length0 && IndicesBelow(g, neighbor.Length1)
      ensures cnt == Uncovered(Neighbours(g, u), Row(neighbor, s))
    {
      ghost var cover := Row(neighbor, s);
      var first := g.offset[u];
      var j := first;
      cnt := 0;
      while j < g.offset[u + 1]
        invariant first <= j <= g.offset[u + 1]
        invariant cnt == Uncovered(g.index[first .. j], cover)
      {
        assert g.index[first .. j + 1][.. j - first] == g.index[first .. j];
        cnt := cnt + (if !neighbor[s, g.index[j]] then 1 else 0);
        j := j + 1;
      }
    }

    /**
     After `ui` is placed in `partition`: `ui` leaves every table, the
     partition covers `ui`'s neighbours, and each unplaced U vertex loses
     one unit of cost in that partition's table per edge to a newly covered
     V vertex.
     */
    method UpdateCostAndNeighborSet(g: Csr, h: Csr, ui: nat, partition: nat)
      requires Valid() && BlockPair(g, h, vSize) && Sized(Rows(g))
      requires ui < Rows(g) && partition < k && assignedU[ui]
      modifies neighborSet, cost
      ensures Valid() && Sized(Rows(g))
      ensures Covers() == Absorb(g, old(Covers()), partition, ui)
      ensures forall s :: 0 <= s < k ==> cost[s].eligible == old(cost[s].eligible)[ui := false]
      ensures cost[partition].cost ==
                Lowered(old(cost[partition].cost), g, old(Covers()[partition]), Covers()[partition], assignedU[..])
      ensures forall s :: 0 <= s < k && s != partition ==> cost[s].cost == old(cost[s].cost)
    {
      RemoveEverywhere(g, ui);
      ghost var covers := Covers();
      CoverRow(g, h, vSize, ui, neighborSet, partition, cost[partition], assignedU);
      assert Covers() == Absorb(g, covers, partition, ui);
    }

    /** Takes `ui` out of the minimum query of every table; no cost changes. */
    method RemoveEverywhere(g: Csr, ui: nat)
      requires Valid() && ValidOffsets(g) && Sized(Rows(g)) && ui < Rows(g)
      modifies cost
      ensures Valid() && Sized(Rows(g))
      ensures forall s :: 0 <= s < k ==> cost[s].cost == old(cost[s].cost)
      ensures forall s :: 0 <= s < k ==> cost[s].eligible == old(cost[s].eligible)[ui := false]
    {
      var s := 0;
      while s < k
        modifies cost
        invariant 0 <= s <= k
        invariant Valid() && Sized(Rows(g))
        invariant forall t :: 0 <= t < k ==> cost[t].cost == old(cost[t].cost)
        invariant forall t :: 0 <= t < k ==>
                    cost[t].eligible == if t < s then old(cost[t].eligible)[ui := false] else old(cost[t].eligible)
      {
        cost[s].Remove(ui);
        s := s + 1;
      }
    }

    /**
     The coverage loop of the update: row `partition` of `neighbor` takes the
     neighbours of `ui`, and every newly covered V vertex lowers the costs of
     its unplaced U neighbours in `table`.
     */
    static method CoverRow(g: Csr, h: Csr, vSize: nat, ui: nat, neighbor: array2<bool>, partition: nat,
                           table: CostTable, placed: array<bool>)
      requires BlockPair(g, h, vSize) && ui < Rows(g)
      requires partition < neighbor.Length0 && neighbor.Length1 == vSize && placed.Length == Rows(g)
      requires table.Valid() && |table.cost| == Rows(g)
      modifies neighbor, table
      ensures Row(neighbor, partition) == CoverWith(old(Row(neighbor, partition)), Neighbours(g, ui))
      ensures forall t :: 0 <= t < neighbor.Length0 && t != partition ==> Row(neighbor, t) == old(Row(neighbor, t))
      ensures table.Valid() && table.eligible == old(table.eligible)
      ensures table.cost == Lowered(old(table.cost), g, old(Row(neighbor, partition)), Row(neighbor, partition), placed[..])
    {
      ghost var cov0 := Row(neighbor, partition);
      ghost var c0 := table.cost;
      var first := g.offset[ui];
      var i := first;
      while i < g.offset[ui + 1]
        invariant first <= i <= g.offset[ui + 1]
        invariant table.Valid() && table.eligible == old(table.eligible) && |table.cost| == Rows(g)
        invariant Row(neighbor, partition) == CoverWith(cov0, g.index[first .. i])
        invariant forall t, v :: 0 <= t < neighbor.Length0 && t != partition && 0 <= v < vSize ==>
                    neighbor[t, v] == old(neighbor[t, v])
        invariant table.cost == Lowered(c0, g, cov0, Row(neighbor, partition), placed[..])
      {
        var vj := g.index[i];
        assert g.index[first .. i + 1] == g.index[first .. i] + [vj];
        CoverWithSnoc(cov0, g.index[first .. i], vj);
        CoverVertex(g, h, vSize, vj, neighbor, partition, table, placed, c0, cov0);
        i := i + 1;
      }
      assert g.index[first .. g.offset[ui + 1]] == Neighbours(g, ui);
    }

    /**
     One V vertex `vj` of the row: unless row `partition` of `neighbor` covers
     it already, it is marked there and every unplaced U vertex of its
     column list loses one unit of cost per edge, which keeps `table` at the
     lowering of `c0` from `cov0` to the row.
     */
    static method CoverVertex(g: Csr, h: Csr, vSize: nat, vj: nat, neighbor: array2<bool>, partition: nat,
                              table: CostTable, placed: array<bool>, ghost c0: seq<int>, ghost cov0: seq<bool>)
      requires BlockPair(g, h, vSize) && vj < vSize
      requires partition < neighbor.Length0 && neighbor.Length1 == vSize && placed.Length == Rows(g)
      requires table.Valid() && |c0| == Rows(g)
      requires table.cost == Lowered(c0, g, cov0, Row(neighbor, partition), placed[..])
      modifies neighbor, table
      ensures Row(neighbor, partition) == old(Row(neighbor, partition))[vj := true]
      ensures forall t, v :: 0 <= t < neighbor.Length0 && t != partition && 0 <= v < vSize ==>
                neighbor[t, v] == old(neighbor[t, v])
      ensures table.Valid() && table.eligible == old(table.eligible)
      ensures table.cost == Lowered(c0, g, cov0, Row(neighbor, partition), placed[..])
    {
      ghost var covB := Row(neighbor, partition);
      if neighbor[partition, vj] {
        assert covB[vj := true] == covB;
      } else {
        ghost var cb := table.cost;
        neighbor[partition, vj] := true;
        assert Row(neighbor, partition) == covB[vj := true];
        DecrementColumn(h, vj, table, placed);
        LoweredStep(g, h, vSize, c0, cov0, cb, covB, vj, placed[..], table.cost);
      }
    }

    /** Takes one off the cost of every unplaced U vertex once per time it is listed in `v`'s column. */
    static method DecrementColumn(h: Csr, v: nat, table: CostTable, placed: array<bool>)
      requires ValidOffsets(h) && v < Rows(h) && IndicesBelow(h, placed.Length)
      requires table.Valid() && |table.cost| == placed.Length
      modifies table
      ensures table.Valid() && table.eligible == old(table.eligible) && |table.cost| == placed.Length
      ensures forall u :: 0 <= u < placed.Length ==>
                table.cost[u] == if placed[u] then old(table.cost[u]) else old(table.cost[u]) - multiset(Neighbours(h, v))[u]
    {
      var first := h.offset[v];
      var q := first;
      while q < h.offset[v + 1]
        invariant first <= q <= h.offset[v + 1]
        invariant table.Valid() && table.eligible == old(table.eligible) && |table.cost| == placed.Length
        invariant forall u :: 0 <= u < placed.Length ==>
                    table.cost[u] == if placed[u] then old(table.cost[u]) else old(table.cost[u]) - multiset(h.index[first .. q])[u]
      {
        var uk := h.index[q];
        assert h.index[first .. q + 1] == h.index[first .. q] + [uk];
        if !placed[uk] {
          table.DecrAndSort(uk);
        }
        q := q + 1;
      }
    }

    /**
     One step of the pass after the pick: `ui` is marked placed, mapped to
     `partition`, and the tables and the coverage are updated.
     */
    method Place(g: Csr, h: Csr, ui: nat, partition: nat, mapU: array<int>)
      requires Valid() && BlockPair(g, h, vSize) && Sized(Rows(g)) && mapU.Length == Rows(g)
      requires ui < Rows(g) && partition < k
      modifies assignedU, mapU, neighborSet, cost
      ensures Valid() && Sized(Rows(g))
      ensures assignedU[..] == old(assignedU[..])[ui := true]
      ensures mapU[..] == old(mapU[..])[ui := partition as int]
      ensures Covers() == Absorb(g, old(Covers()), partition, ui)
      ensures forall s :: 0 <= s < k ==> cost[s].eligible == old(cost[s].eligible)[ui := false]
      ensures cost[partition].cost ==
                Lowered(old(cost[partition].cost), g, old(Covers()[partition]), Covers()[partition], assignedU[..])
      ensures forall s :: 0 <= s < k && s != partition ==> cost[s].cost == old(cost[s].cost)
    {
      assignedU[ui] := true;
      mapU[ui] := partition;
      UpdateCostAndNeighborSet(g, h, ui, partition);
    }

    /** The costs of every table, as values. */
    ghost function Costs(): (r: seq<seq<int>>)
      reads this, cost
      ensures |r| == |cost| && forall s :: 0 <= s < |cost| ==> r[s] == cost[s].cost
    {
      seq(|cost|, s requires 0 <= s < |cost| reads this, cost => cost[s].cost)
    }

    /** The eligibility marks of every table, as values. */
    ghost function Eligibles(): (r: seq<seq<bool>>)
      reads this, cost
      ensures |r| == |cost| && forall s :: 0 <= s < |cost| ==> r[s] == cost[s].eligible
    {
      seq(|cost|, s requires 0 <= s < |cost| reads this, cost => cost[s].eligible)
    }

    /** The object's state after `i` positions of the pass over block `g` is the run's state `PassState`. */
    ghost predicate InPass(g: Csr, start: Pass, order: seq<nat>, mapU: array<int>, i: nat)
      requires Valid() && ValidOffsets(g)
      reads this, cost, neighborSet, assignedU, mapU
    {
      && Sized(Rows(g)) && mapU.Length == Rows(g)
      && PassState(g, k, start, order, i, Covers(), assignedU[..], mapU[..], Costs(), Eligibles())
    }

    /**
     The start of a block: an unset placement map, no U vertex placed, and
     every table loaded and all eligible; the reference pass is the one
     from the current coverage.
     */
    method StartBlock(g: Csr) returns (mapU: array<int>, ghost start: Pass)
      requires Valid() && ValidOffsets(g) && IndicesBelow(g, vSize)
      modifies this, cost
      ensures Valid() && fresh(mapU) && fresh(assignedU)
      ensures cost == old(cost) && neighborSet == old(neighborSet) && Covers() == old(Covers())
      ensures start == GreedyPass(g, Covers(), NonePlaced(Rows(g)), 0)
      ensures InPass(g, start, [], mapU, 0)
    {
      var n := Rows(g);
      mapU := new int[n](_ => 0);
      assignedU := new bool[n](_ => false);
      InitCost(g);
      start := GreedyPass(g, Covers(), NonePlaced(n), 0);
      assert assignedU[..] == NonePlaced(n);
      PassStateStart(g, k, Covers(), mapU[..], Costs(), Eligibles());
    }

    /**
     The greedy pass over one block: position `i` places the cheapest
     unplaced U vertex of partition `i % k`'s table in that partition and
     updates the tables and the coverage.
     */
    method PartitionU(g: Csr, h: Csr) returns (mapU: array<int>)
      requires Valid() && BlockPair(g, h, vSize)
      modifies this, cost, neighborSet
      ensures Valid() && fresh(mapU)
      ensures cost == old(cost) && neighborSet == old(neighborSet)
      ensures mapU.Length == Rows(g) && Sized(Rows(g))
      ensures forall u :: 0 <= u < Rows(g) ==> assignedU[u] && 0 <= mapU[u] < k
      ensures FairShare(mapU[..], k)
      ensures FollowsPass(mapU[..], GreedyPass(g, old(Covers()), NonePlaced(Rows(g)), 0), k)
      ensures Covers() == GreedyPass(g, old(Covers()), NonePlaced(Rows(g)), 0).covers
    {
      ghost var start;
      mapU, start := StartBlock(g);
      RunPass(g, h, start, mapU);
    }

    /** The positions of the pass, one after the other, from the start of the block to its end. */
    method RunPass(g: Csr, h: Csr, ghost start: Pass, mapU: array<int>)
      requires Valid() && BlockPair(g, h, vSize) && InPass(g, start, [], mapU, 0)
      modifies assignedU, mapU, neighborSet, cost
      ensures Valid()
      ensures mapU.Length == Rows(g) && Sized(Rows(g))
      ensures forall u :: 0 <= u < Rows(g) ==> assignedU[u] && 0 <= mapU[u] < k
      ensures FairShare(mapU[..], k)
      ensures FollowsPass(mapU[..], start, k) && Covers() == start.covers
    {
      var n := Rows(g);
      ghost var order: seq<nat> := [];
      var i := 0;
      while i < n
        invariant Valid()
        invariant InPass(g, start, order, mapU, i)
      {
        var ui := Step(g, h, start, order, mapU, i);
        order := order + [ui];
        i := i + 1;
      }
      PassDone(g, start, order, mapU);
    }

    /** The object's view of `PassStateDone`: the placed bitmap and the placement map are arrays. */
    lemma PassDone(g: Csr, start: Pass, order: seq<nat>, mapU: array<int>)
      requires Valid() && ValidOffsets(g) && InPass(g, start, order, mapU, Rows(g))
      ensures forall u :: 0 <= u < Rows(g) ==> assignedU[u] && 0 <= mapU[u] < k
      ensures FairShare(mapU[..], k)
      ensures FollowsPass(mapU[..], start, k) && Covers() == start.covers
    {
      PassStateDone(g, k, start, order, Covers(), assignedU[..], mapU[..], Costs(), Eligibles());
      forall u | 0 <= u < Rows(g)
        ensures assignedU[u] && 0 <= mapU[u] < k
      {
        assert assignedU[..][u] && mapU[..][u] == mapU[u];
      }
    }

    /**
     Position `i` of the pass: the cheapest eligible vertex `ui` of partition
     `i % k`'s table, which is the reference pass's pick, is placed there.
     */
    method Step(g: Csr, h: Csr, ghost start: Pass, ghost order: seq<nat>, mapU: array<int>, i: nat) returns (ui: nat)
      requires Valid() && BlockPair(g, h, vSize) && i < Rows(g)
      requires InPass(g, start, order, mapU, i)
      modifies assignedU, mapU, neighborSet, cost
      ensures Valid() && InPass(g, start, order + [ui], mapU, i + 1)
    {
      var part := i % k;
      ghost var covers, placed, maps, costs, eligs := Covers(), assignedU[..], mapU[..], Costs(), Eligibles();
      PassStateEligible(g, k, start, order, i, covers, placed, maps, costs, eligs, part);
      ui := cost[part].MinIdx();
      Place(g, h, ui, part, mapU);
      PassStateStep(g, k, start, order, i, covers, placed, maps, costs, eligs, ui, Covers(), Costs(), Eligibles());
    }

    /**
     Reduces every column id of a block into the V universe, in place:
     entry `i` becomes its old value modulo `vSize`. The block must not be
     empty.
     */
    method ReduceColumnIds(idx: array<nat>)
      requires vSize > 0 && idx.Length > 0
      modifies idx
      ensures idx[..] == Reduced(old(idx[..]), vSize)
    {
      var i := 0;
      while i < idx.Length
        invariant 0 <= i <= idx.Length
        invariant forall j :: 0 <= j < i ==> idx[j] == old(idx[j]) % vSize
        invariant forall j :: i <= j < idx.Length ==> idx[j] == old(idx[j])
      {
        idx[i] := idx[i] % vSize;
        i := i + 1;
      }
    }
  }

  /** The column ids `ids` reduced into a V universe of size `v`. */
  function Reduced(ids: seq<nat>, v: nat): (r: seq<nat>)
    requires v > 0
    ensures |r| == |ids| && forall j :: 0 <= j < |r| ==> r[j] < v
  {
    seq(|ids|, j requires 0 <= j < |ids| => ids[j] % v)
  }

  /** After the reduction the row-major view of a block has all its ids inside the V universe. */
  lemma ReducedInRange(g: Csr, v: nat)
    requires v > 0
    ensures IndicesBelow(Csr(g.offset, Reduced(g.index, v)), v)
  {
  }

  /** Ids already inside the universe are kept, so reducing twice is reducing once. */
  lemma ReducedIdempotent(ids: seq<nat>, v: nat)
    requires v > 0
    ensures (forall j :: 0 <= j < |ids| && ids[j] < v ==> Reduced(ids, v)[j] == ids[j])
    ensures Reduced(Reduced(ids, v), v) == Reduced(ids, v)
  {
    var once := Reduced(ids, v);
    forall j | 0 <= j < |ids| && ids[j] < v
      ensures once[j] == ids[j]
    {
      DivModUnique(ids[j], v, 0, ids[j]);
    }
    forall j | 0 <= j < |ids|
      ensures Reduced(once, v)[j] == once[j]
    {
      DivModUnique(once[j], v, 0, once[j]);
    }
  }
}
