/**
 The two views of one block of the bipartite graph, and the replication
 cost of a U vertex with respect to a partition's coverage bitmap.

 A view is a compressed sparse layout: the neighbours of vertex `i` are
 `index[offset[i] .. offset[i + 1]]`. The row-major view lists the V
 neighbours of every U vertex, the column-major view the U neighbours of
 every V vertex. The partitioner only reads the views, so they are values.
 */
module Graph {

  datatype Csr = Csr(offset: seq<nat>, index: seq<nat>)

  /** Offsets are non-decreasing and stay inside the index sequence. */
  predicate ValidOffsets(g: Csr)
  {
    && |g.offset| > 0
    && (forall i, j :: 0 <= i <= j < |g.offset| ==> g.offset[i] <= g.offset[j])
    && g.offset[|g.offset| - 1] <= |g.index|
  }

  /** The number of vertices the view has adjacency lists for. */
  function Rows(g: Csr): (r: nat)
    requires ValidOffsets(g)
    ensures r + 1 == |g.offset|
  {
    |g.offset| - 1
  }

  /** Every neighbour id in the view lies in `[0, bound)`. */
  predicate IndicesBelow(g: Csr, bound: nat)
  {
    forall j :: 0 <= j < |g.index| ==> g.index[j] < bound
  }

  function Neighbours(g: Csr, i: nat): (r: seq<nat>)
    requires ValidOffsets(g) && i < Rows(g)
    ensures |r| == g.offset[i + 1] - g.offset[i]
  {
    g.index[g.offset[i] .. g.offset[i + 1]]
  }

  /**
   The row-major view `g` and the column-major view `h` of one block:
   `h` has one list per V vertex of the universe `[0, vSize)`, all ids are in
   range, and both encode the same edges with the same multiplicities
   (the modulo reduction of column ids can make a row list a V vertex twice).
   */
  predicate BlockPair(g: Csr, h: Csr, vSize: nat)
  {
    && ValidOffsets(g) && ValidOffsets(h)
    && Rows(h) == vSize
    && IndicesBelow(g, vSize)
    && IndicesBelow(h, Rows(g))
    && (forall u, v :: 0 <= u < Rows(g) && 0 <= v < vSize ==>
          multiset(Neighbours(g, u))[v] == multiset(Neighbours(h, v))[u])
  }

  /** `v` is marked in the coverage bitmap `cover`. */
  predicate Covered(cover: seq<bool>, v: nat)
  {
    v < |cover| && cover[v]
  }

  /**
   The replication cost of a U vertex whose neighbour list is `row`: the
   number of its entries not yet covered (counted with multiplicity).
   */
  function Uncovered(row: seq<nat>, cover: seq<bool>): (r: nat)
    ensures r <= |row|
  {
    if row == [] then 0
    else Uncovered(row[..|row| - 1], cover) + (if Covered(cover, row[|row| - 1]) then 0 else 1)
  }

  /** A row whose entries are all covered costs nothing, and only such a row does. */
  lemma {:induction false} UncoveredZero(row: seq<nat>, cover: seq<bool>)
    ensures Uncovered(row, cover) == 0 <==> forall j :: 0 <= j < |row| ==> Covered(cover, row[j])
  {
    if row != [] {
      UncoveredZero(row[..|row| - 1], cover);
    }
  }

  /** The coverage bitmap `cover` with every vertex listed in `row` marked. */
  function CoverWith(cover: seq<bool>, row: seq<nat>): (r: seq<bool>)
    ensures |r| == |cover|
  {
    seq(|cover|, v requires 0 <= v < |cover| => cover[v] || v in row)
  }

  /**
   Marking one uncovered vertex `v` lowers the cost of a row by exactly the
   number of times the row lists `v`.
   */
  lemma {:induction false} UncoveredSetBit(row: seq<nat>, cover: seq<bool>, v: nat)
    requires v < |cover| && !cover[v]
    ensures Uncovered(row, cover) == Uncovered(row, cover[v := true]) + multiset(row)[v]
  {
    if row != [] {
      var init, last := row[..|row| - 1], row[|row| - 1];
      assert row == init + [last];
      UncoveredSetBit(init, cover, v);
    }
  }

  /** Growing the coverage never raises a cost. */
  lemma {:induction false} UncoveredAntitone(row: seq<nat>, c1: seq<bool>, c2: seq<bool>)
    requires |c1| == |c2|
    requires forall v :: 0 <= v < |c1| && c1[v] ==> c2[v]
    ensures Uncovered(row, c2) <= Uncovered(row, c1)
  {
    if row != [] {
      UncoveredAntitone(row[..|row| - 1], c1, c2);
    }
  }

  /** Marking one more listed vertex `x` sets exactly its mark. */
  lemma CoverWithSnoc(cover: seq<bool>, row: seq<nat>, x: nat)
    requires x < |cover|
    ensures CoverWith(cover, row + [x]) == CoverWith(cover, row)[x := true]
  {
  }

  /** Marking the vertices of a row covers them all and keeps every old mark. */
  lemma CoverWithGrows(cover: seq<bool>, row: seq<nat>)
    ensures forall v :: 0 <= v < |cover| && cover[v] ==> CoverWith(cover, row)[v]
    ensures forall j :: 0 <= j < |row| && row[j] < |cover| ==> CoverWith(cover, row)[row[j]]
  {
  }

  /** After its own neighbours are covered, a vertex costs nothing any more. */
  lemma CoverWithClearsRow(cover: seq<bool>, row: seq<nat>)
    requires forall j :: 0 <= j < |row| ==> row[j] < |cover|
    ensures Uncovered(row, CoverWith(cover, row)) == 0
  {
    CoverWithGrows(cover, row);
    UncoveredZero(row, CoverWith(cover, row));
  }
}
