/**
 The greedy pass over one block, stated as a function: the reference that
 the partitioner's incremental cost tables are proved to follow, together
 with the counting facts behind its balance guarantee.

 Position `i` of the pass serves partition `i % K`; it picks, among the U
 vertices not yet placed, the one with the fewest neighbours that the
 partition does not cover yet (smallest index on a tie), and then marks all of
 that vertex's neighbours as covered by the partition.
 */
module Greedy {
  import opened Graph
  import opened CostTables

  /** The replication cost of every U vertex of the block for one partition. */
  function UncoveredCosts(g: Csr, cover: seq<bool>): seq<int>
    requires ValidOffsets(g)
  {
    seq(Rows(g), u requires 0 <= u < Rows(g) => Uncovered(Neighbours(g, u), cover))
  }

  /** The eligibility marks that correspond to a placed-vertex bitmap. */
  function Unassigned(placed: seq<bool>): seq<bool>
  {
    seq(|placed|, u requires 0 <= u < |placed| => !placed[u])
  }

  /** The placed-vertex bitmap of a block in which nothing is placed yet. */
  function NonePlaced(n: nat): (r: seq<bool>)
    ensures |r| == n && forall u :: 0 <= u < n ==> !r[u]
  {
    seq(n, _ => false)
  }

  /** The outcome of a pass: the vertices in the order they were picked, and the final coverage. */
  datatype Pass = Pass(order: seq<nat>, covers: seq<seq<bool>>)

  /** The vertex that position `i` picks: the cheapest unplaced one for partition `i % |covers|`. */
  function Pick(g: Csr, covers: seq<seq<bool>>, placed: seq<bool>, i: nat): nat
    requires ValidOffsets(g) && |placed| == Rows(g) && |covers| > 0
  {
    MinEligible(UncoveredCosts(g, covers[i % |covers|]), Unassigned(placed))
  }

  /** The coverage after partition `part` takes the neighbours of vertex `u`. */
  function Absorb(g: Csr, covers: seq<seq<bool>>, part: nat, u: nat): seq<seq<bool>>
    requires ValidOffsets(g) && u < Rows(g) && part < |covers|
  {
    covers[part := CoverWith(covers[part], Neighbours(g, u))]
  }

  /**
   The pass from position `i` on, with coverage bitmaps `covers` (one per
   partition) and the vertices marked in `placed` already placed.
   */
  function GreedyPass(g: Csr, covers: seq<seq<bool>>, placed: seq<bool>, i: nat): Pass
    requires ValidOffsets(g) && |placed| == Rows(g) && |covers| > 0
    decreases |placed| - i
  {
    if i >= |placed| then Pass([], covers)
    else
      var u := Pick(g, covers, placed, i);
      if u >= |placed| then Pass([], covers)
      else
        var rest := GreedyPass(g, Absorb(g, covers, i % |covers|, u), placed[u := true], i + 1);
        Pass([u] + rest.order, rest.covers)
  }

  /** The number of set marks. */
  function CountTrue(a: seq<bool>): (r: nat)
    ensures r <= |a|
  {
    CountTrueUpTo(a, |a|)
  }

  /** The number of set marks among the first `n`. */
  function CountTrueUpTo(a: seq<bool>, n: nat): (r: nat)
    requires n <= |a|
    ensures r <= n
  {
    if n == 0 then 0 else CountTrueUpTo(a, n - 1) + (if a[n - 1] then 1 else 0)
  }

  /** The count reaches the length exactly when every mark is set. */
  lemma CountTrueAll(a: seq<bool>)
    ensures CountTrue(a) == |a| <==> forall j :: 0 <= j < |a| ==> a[j]
  {
    CountTrueUpToAll(a, |a|);
  }

  lemma {:induction false} CountTrueUpToAll(a: seq<bool>, n: nat)
    requires n <= |a|
    ensures CountTrueUpTo(a, n) == n <==> forall j :: 0 <= j < n ==> a[j]
  {
    if n > 0 {
      CountTrueUpToAll(a, n - 1);
    }
  }

  /** No set mark, no count. */
  lemma CountTrueNone(a: seq<bool>)
    requires forall j :: 0 <= j < |a| ==> !a[j]
    ensures CountTrue(a) == 0
  {
    CountTrueUpToNone(a, |a|);
  }

  lemma {:induction false} CountTrueUpToNone(a: seq<bool>, n: nat)
    requires n <= |a| && forall j :: 0 <= j < n ==> !a[j]
    ensures CountTrueUpTo(a, n) == 0
  {
    if n > 0 {
      CountTrueUpToNone(a, n - 1);
    }
  }

  /** Setting a clear mark adds one to the count. */
  lemma CountTrueSet(a: seq<bool>, p: nat)
    requires p < |a| && !a[p]
    ensures CountTrue(a[p := true]) == CountTrue(a) + 1
  {
    CountTrueUpToSet(a, p, |a|);
  }

  lemma {:induction false} CountTrueUpToSet(a: seq<bool>, p: nat, n: nat)
    requires p < |a| && !a[p] && n <= |a|
    ensures CountTrueUpTo(a[p := true], n) == CountTrueUpTo(a, n) + (if p < n then 1 else 0)
  {
    if n > 0 {
      CountTrueUpToSet(a, p, n - 1);
    }
  }

  /** Fewer marks than positions leaves some vertex unassigned. */
  lemma SomeUnassigned(a: seq<bool>)
    requires CountTrue(a) < |a|
    ensures AnyEligible(Unassigned(a))
  {
    CountTrueAll(a);
    var j :| 0 <= j < |a| && !a[j];
    assert Unassigned(a)[j];
  }

  /** A pick that lies inside the block is an unplaced vertex. */
  lemma PickIsUnplaced(g: Csr, covers: seq<seq<bool>>, placed: seq<bool>, i: nat)
    requires ValidOffsets(g) && |placed| == Rows(g) && |covers| > 0
    requires Pick(g, covers, placed, i) < |placed|
    ensures !placed[Pick(g, covers, placed, i)]
  {
    var c := UncoveredCosts(g, covers[i % |covers|]);
    var e := Unassigned(placed);
    MinEligibleSpec(c, e);
    assert e[MinEligible(c, e)];
  }

  /** While some vertex is unplaced, the pick is one of them. */
  lemma PickUnplaced(g: Csr, covers: seq<seq<bool>>, placed: seq<bool>, i: nat)
    requires ValidOffsets(g) && |placed| == Rows(g) && |covers| > 0
    requires AnyEligible(Unassigned(placed))
    ensures Pick(g, covers, placed, i) < |placed| && !placed[Pick(g, covers, placed, i)]
  {
    var c := UncoveredCosts(g, covers[i % |covers|]);
    var e := Unassigned(placed);
    MinEligibleSpec(c, e);
    var u := MinEligible(c, e);
    assert u < |e| && e[u];
  }

  /** When exactly `i` vertices are placed, the pass from position `i` makes one pick per remaining position. */
  lemma {:induction false} GreedyPassLength(g: Csr, covers: seq<seq<bool>>, placed: seq<bool>, i: nat)
    requires ValidOffsets(g) && |placed| == Rows(g) && |covers| > 0
    requires CountTrue(placed) == i
    ensures |GreedyPass(g, covers, placed, i).order| == |placed| - i
    decreases |placed| - i
  {
    if i < |placed| {
      SomeUnassigned(placed);
      PickUnplaced(g, covers, placed, i);
      var u := Pick(g, covers, placed, i);
      CountTrueSet(placed, u);
      GreedyPassLength(g, Absorb(g, covers, i % |covers|, u), placed[u := true], i + 1);
    }
  }

  /** Every vertex of `order` is a vertex of the block that `placed` leaves unmarked. */
  predicate PicksUnplaced(order: seq<nat>, placed: seq<bool>)
  {
    forall j :: 0 <= j < |order| ==> order[j] < |placed| && !placed[order[j]]
  }

  /** No vertex appears twice in `order`. */
  predicate Distinct(order: seq<nat>)
  {
    forall j1, j2 :: 0 <= j1 < j2 < |order| ==> order[j1] != order[j2]
  }

  /** Prepending a fresh pick to an order of picks fresh after it keeps the picks fresh. */
  lemma PicksUnplacedCons(u: nat, rest: seq<nat>, placed: seq<bool>)
    requires u < |placed| && !placed[u]
    requires PicksUnplaced(rest, placed[u := true])
    ensures PicksUnplaced([u] + rest, placed)
  {
    var order := [u] + rest;
    forall j | 0 <= j < |order|
      ensures order[j] < |placed| && !placed[order[j]]
    {
      if j > 0 {
        assert order[j] == rest[j - 1];
      }
    }
  }

  /** A vertex not among `rest`'s picks keeps `[u] + rest` free of repeats. */
  lemma DistinctCons(u: nat, rest: seq<nat>, placed: seq<bool>)
    requires u < |placed| && Distinct(rest)
    requires PicksUnplaced(rest, placed[u := true])
    ensures Distinct([u] + rest)
  {
    var order := [u] + rest;
    forall j1, j2 | 0 <= j1 < j2 < |order|
      ensures order[j1] != order[j2]
    {
      assert order[j2] == rest[j2 - 1] && !placed[u := true][rest[j2 - 1]];
      if j1 > 0 {
        assert order[j1] == rest[j1 - 1];
      }
    }
  }

  /** The pass picks only vertices that were not placed before it. */
  lemma {:induction false} GreedyPassPicksFresh(g: Csr, covers: seq<seq<bool>>, placed: seq<bool>, i: nat)
    requires ValidOffsets(g) && |placed| == Rows(g) && |covers| > 0
    ensures PicksUnplaced(GreedyPass(g, covers, placed, i).order, placed)
    decreases |placed| - i
  {
    var u := Pick(g, covers, placed, i);
    if i < |placed| && u < |placed| {
      PickIsUnplaced(g, covers, placed, i);
      var covers', placed' := Absorb(g, covers, i % |covers|, u), placed[u := true];
      GreedyPassPicksFresh(g, covers', placed', i + 1);
      PicksUnplacedCons(u, GreedyPass(g, covers', placed', i + 1).order, placed);
    }
  }

  /** The pass picks no vertex twice. */
  lemma {:induction false} GreedyPassPicksOnce(g: Csr, covers: seq<seq<bool>>, placed: seq<bool>, i: nat)
    requires ValidOffsets(g) && |placed| == Rows(g) && |covers| > 0
    ensures Distinct(GreedyPass(g, covers, placed, i).order)
    decreases |placed| - i
  {
    var u := Pick(g, covers, placed, i);
    if i < |placed| && u < |placed| {
      var covers', placed' := Absorb(g, covers, i % |covers|, u), placed[u := true];
      GreedyPassPicksOnce(g, covers', placed', i + 1);
      GreedyPassPicksFresh(g, covers', placed', i + 1);
      DistinctCons(u, GreedyPass(g, covers', placed', i + 1).order, placed);
    }
  }

  /** Every vertex of the block that `placed` leaves unmarked appears in `order`. */
  predicate PicksAll(order: seq<nat>, placed: seq<bool>)
  {
    forall u :: 0 <= u < |placed| && !placed[u] ==> u in order
  }

  /** When exactly `i` vertices are placed, the pass from position `i` picks every unplaced vertex. */
  lemma {:induction false} GreedyPassPicksAll(g: Csr, covers: seq<seq<bool>>, placed: seq<bool>, i: nat)
    requires ValidOffsets(g) && |placed| == Rows(g) && |covers| > 0
    requires CountTrue(placed) == i
    ensures PicksAll(GreedyPass(g, covers, placed, i).order, placed)
    decreases |placed| - i
  {
    if i < |placed| {
      SomeUnassigned(placed);
      PickUnplaced(g, covers, placed, i);
      var u := Pick(g, covers, placed, i);
      var placed' := placed[u := true];
      CountTrueSet(placed, u);
      GreedyPassPicksAll(g, Absorb(g, covers, i % |covers|, u), placed', i + 1);
      var rest := GreedyPass(g, Absorb(g, covers, i % |covers|, u), placed', i + 1).order;
      assert GreedyPass(g, covers, placed, i).order == [u] + rest;
      forall v | 0 <= v < |placed| && !placed[v]
        ensures v in [u] + rest
      {
        if v != u {
          assert !placed'[v];
        }
      }
    } else {
      CountTrueAll(placed);
    }
  }

  /** Every coverage bitmap of the pass keeps its size. */
  predicate CoverSizes(covers: seq<seq<bool>>, vSize: nat)
  {
    forall s :: 0 <= s < |covers| ==> |covers[s]| == vSize
  }

  /** Some vertex of `order`, placed from position `i` on, lands in partition `s` and neighbours `v`. */
  predicate ReachedBy(g: Csr, order: seq<nat>, i: nat, k: nat, s: nat, v: nat)
    requires ValidOffsets(g) && k > 0
    decreases |order|
  {
    && order != []
    && ((i % k == s && order[0] < Rows(g) && v in Neighbours(g, order[0]))
        || ReachedBy(g, order[1..], i + 1, k, s, v))
  }

  /**
   A V vertex is covered by partition `s` in `after` exactly when it was
   covered in `before`, or it neighbours a vertex that `order`, started at
   position `i`, places in `s`.
   */
  predicate CoverageExplained(g: Csr, before: seq<seq<bool>>, after: seq<seq<bool>>, order: seq<nat>, i: nat, vSize: nat)
    requires ValidOffsets(g) && |before| > 0
  {
    && |after| == |before| && CoverSizes(after, vSize)
    && CoverSizes(before, vSize)
    && forall s, v :: 0 <= s < |before| && 0 <= v < vSize ==>
         (after[s][v] <==> before[s][v] || ReachedBy(g, order, i, |before|, s, v))
  }

  /** One placement step: partition `i % k` absorbing `u`'s neighbours is explained by `[u] + rest`. */
  lemma CoverageCons(g: Csr, covers: seq<seq<bool>>, after: seq<seq<bool>>, u: nat, rest: seq<nat>, i: nat, vSize: nat)
    requires ValidOffsets(g) && |covers| > 0 && u < Rows(g)
    requires CoverSizes(covers, vSize)
    requires CoverageExplained(g, Absorb(g, covers, i % |covers|, u), after, rest, i + 1, vSize)
    ensures CoverageExplained(g, covers, after, [u] + rest, i, vSize)
  {
    var k := |covers|;
    var covers' := Absorb(g, covers, i % k, u);
    forall s, v | 0 <= s < k && 0 <= v < vSize
      ensures after[s][v] <==> covers[s][v] || ReachedBy(g, [u] + rest, i, k, s, v)
    {
      assert ([u] + rest)[1..] == rest;
      assert covers'[s][v] <==> covers[s][v] || (s == i % k && v in Neighbours(g, u));
    }
  }

  /**
   The coverage after the pass is what the coverage before it and the
   placements explain; in particular coverage only grows.
   */
  lemma {:induction false} GreedyPassCoverage(g: Csr, covers: seq<seq<bool>>, placed: seq<bool>, i: nat, vSize: nat)
    requires ValidOffsets(g) && |placed| == Rows(g) && |covers| > 0
    requires CoverSizes(covers, vSize)
    ensures CoverageExplained(g, covers, GreedyPass(g, covers, placed, i).covers, GreedyPass(g, covers, placed, i).order, i, vSize)
    decreases |placed| - i
  {
    var u := Pick(g, covers, placed, i);
    if i < |placed| && u < |placed| {
      var covers', placed' := Absorb(g, covers, i % |covers|, u), placed[u := true];
      GreedyPassCoverage(g, covers', placed', i + 1, vSize);
      var rest := GreedyPass(g, covers', placed', i + 1);
      CoverageCons(g, covers, rest.covers, u, rest.order, i, vSize);
    }
  }

  /**
   Absorbing the neighbours of `u` into partition `part` only sets marks:
   every old mark stays, `u`'s neighbours become covered there, and every
   other partition's bitmap is unchanged.
   */
  lemma AbsorbOnlyGrows(g: Csr, covers: seq<seq<bool>>, part: nat, u: nat)
    requires ValidOffsets(g) && u < Rows(g) && part < |covers|
    ensures |Absorb(g, covers, part, u)| == |covers|
    ensures forall s, v :: 0 <= s < |covers| && 0 <= v < |covers[s]| && covers[s][v] ==> Absorb(g, covers, part, u)[s][v]
    ensures forall v :: v in Neighbours(g, u) && v < |covers[part]| ==> Absorb(g, covers, part, u)[part][v]
    ensures forall s :: 0 <= s < |covers| && s != part ==> Absorb(g, covers, part, u)[s] == covers[s]
  {
    CoverWithGrows(covers[part], Neighbours(g, u));
  }

  /**
   A pass over a block with nothing placed yet orders all of its vertices:
   one pick per vertex, every vertex picked, none twice.
   */
  lemma FullPassPermutes(g: Csr, covers: seq<seq<bool>>)
    requires ValidOffsets(g) && |covers| > 0
    ensures var order := GreedyPass(g, covers, NonePlaced(Rows(g)), 0).order;
            && |order| == Rows(g)
            && (forall j :: 0 <= j < |order| ==> order[j] < Rows(g))
            && (forall u :: 0 <= u < Rows(g) ==> u in order)
            && Distinct(order)
  {
    var none := NonePlaced(Rows(g));
    CountTrueNone(none);
    GreedyPassLength(g, covers, none, 0);
    GreedyPassPicksFresh(g, covers, none, 0);
    GreedyPassPicksAll(g, covers, none, 0);
    GreedyPassPicksOnce(g, covers, none, 0);
  }
}
