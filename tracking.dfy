/**
 What the partitioner's cost tables hold between two placements, stated on
 values: for every partition, the cost of every unplaced U vertex is its
 number of neighbours that the partition does not cover yet. The update after
 a placement lowers those costs by exactly what the new coverage removes, and
 a table that tracks the coverage answers the minimum query as the reference
 pass picks.
 */
module CostTracking {
  import opened Graph
  import opened CostTables
  import opened Greedy
  import opened Balance

  /** `c` holds, for every unplaced vertex, its replication cost against `cover`. */
  predicate Tracks(c: seq<int>, g: Csr, cover: seq<bool>, placed: seq<bool>)
    requires ValidOffsets(g)
  {
    && |c| == Rows(g) && |placed| == Rows(g)
    && forall u :: 0 <= u < |c| && !placed[u] ==> c[u] == Uncovered(Neighbours(g, u), cover)
  }

  /**
   The costs `c` after the coverage grows from `before` to `after`: every
   unplaced vertex loses the number of its neighbours that became covered,
   a placed vertex keeps its entry.
   */
  function Lowered(c: seq<int>, g: Csr, before: seq<bool>, after: seq<bool>, placed: seq<bool>): (r: seq<int>)
    requires ValidOffsets(g) && |c| == Rows(g) && |placed| == Rows(g)
    ensures |r| == |c|
  {
    seq(|c|, u requires 0 <= u < |c| =>
      if placed[u] then c[u]
      else c[u] - (Uncovered(Neighbours(g, u), before) - Uncovered(Neighbours(g, u), after)))
  }

  /** Lowering tracked costs by what the new coverage removes leaves them tracking the new coverage. */
  lemma LoweredTracks(c: seq<int>, g: Csr, before: seq<bool>, after: seq<bool>, placed: seq<bool>)
    requires ValidOffsets(g) && Tracks(c, g, before, placed)
    ensures Tracks(Lowered(c, g, before, after, placed), g, after, placed)
    ensures forall u :: 0 <= u < |c| && !placed[u] ==> Lowered(c, g, before, after, placed)[u] >= 0
  {
  }

  /** Tracked costs stay non-negative for every unplaced vertex. */
  lemma TrackedNonNegative(c: seq<int>, g: Csr, cover: seq<bool>, placed: seq<bool>)
    requires ValidOffsets(g) && Tracks(c, g, cover, placed)
    ensures forall u :: 0 <= u < |c| && !placed[u] ==> c[u] >= 0
  {
  }

  /**
   Marking one uncovered V vertex `v` and taking one off the cost of every
   unplaced U vertex once per edge of `v`'s column list is the lowering from
   the old coverage to the new one.
   */
  lemma LoweredStep(g: Csr, h: Csr, vSize: nat, c0: seq<int>, cov0: seq<bool>, cb: seq<int>, covB: seq<bool>,
                    v: nat, placed: seq<bool>, cn: seq<int>)
    requires BlockPair(g, h, vSize) && |c0| == Rows(g) && |placed| == Rows(g)
    requires v < vSize && v < |covB| && !covB[v]
    requires cb == Lowered(c0, g, cov0, covB, placed)
    requires |cn| == Rows(g)
    requires forall u :: 0 <= u < |cn| ==>
               cn[u] == if placed[u] then cb[u] else cb[u] - multiset(Neighbours(h, v))[u]
    ensures cn == Lowered(c0, g, cov0, covB[v := true], placed)
  {
    forall u | 0 <= u < |cn|
      ensures cn[u] == Lowered(c0, g, cov0, covB[v := true], placed)[u]
    {
      if !placed[u] {
        UncoveredSetBit(Neighbours(g, u), covB, v);
      }
    }
  }

  /** A table tracking the coverage of partition `i % k` answers with the pass's pick at position `i`. */
  lemma TrackedPick(g: Csr, c: seq<int>, covers: seq<seq<bool>>, placed: seq<bool>, i: nat)
    requires ValidOffsets(g) && |placed| == Rows(g) && |covers| > 0
    requires Tracks(c, g, covers[i % |covers|], placed)
    ensures MinEligible(c, Unassigned(placed)) == Pick(g, covers, placed, i)
  {
    var e := Unassigned(placed);
    var ref := UncoveredCosts(g, covers[i % |covers|]);
    forall j | 0 <= j < |e| && e[j]
      ensures c[j] == ref[j]
    {
    }
    MinEligibleAgrees(c, ref, e);
  }

  /** Placing vertex `p` clears exactly its eligibility mark. */
  lemma UnassignedPlace(placed: seq<bool>, p: nat)
    requires p < |placed|
    ensures Unassigned(placed[p := true]) == Unassigned(placed)[p := false]
  {
  }

  /** One position of the pass, unfolded: its pick, then the rest of the pass from the next position. */
  lemma GreedyPassStep(g: Csr, covers: seq<seq<bool>>, placed: seq<bool>, i: nat)
    requires ValidOffsets(g) && |placed| == Rows(g) && |covers| > 0
    requires i < |placed| && Pick(g, covers, placed, i) < |placed|
    ensures GreedyPass(g, covers, placed, i).order ==
              [Pick(g, covers, placed, i)] +
              GreedyPass(g, Absorb(g, covers, i % |covers|, Pick(g, covers, placed, i)),
                         placed[Pick(g, covers, placed, i) := true], i + 1).order
    ensures GreedyPass(g, covers, placed, i).covers ==
              GreedyPass(g, Absorb(g, covers, i % |covers|, Pick(g, covers, placed, i)),
                         placed[Pick(g, covers, placed, i) := true], i + 1).covers
  {
  }

  /**
   A run that has made the picks `order` and reached position `i` with
   coverage `covers` and placed marks `placed` is on its way to the pass
   `start`: what remains of `start` is the pass from this state.
   */
  predicate OnPass(g: Csr, start: Pass, order: seq<nat>, covers: seq<seq<bool>>, placed: seq<bool>, i: nat)
    requires ValidOffsets(g) && |placed| == Rows(g) && |covers| > 0
  {
    && order + GreedyPass(g, covers, placed, i).order == start.order
    && GreedyPass(g, covers, placed, i).covers == start.covers
  }

  /** Every pass starts on its own way. */
  lemma OnPassStart(g: Csr, covers: seq<seq<bool>>, placed: seq<bool>)
    requires ValidOffsets(g) && |placed| == Rows(g) && |covers| > 0
    ensures OnPass(g, GreedyPass(g, covers, placed, 0), [], covers, placed, 0)
  {
    assert [] + GreedyPass(g, covers, placed, 0).order == GreedyPass(g, covers, placed, 0).order;
  }

  /** Making the pass's own pick at position `i`, and absorbing its neighbours, stays on the way. */
  lemma OnPassAdvance(g: Csr, start: Pass, order: seq<nat>, covers: seq<seq<bool>>, placed: seq<bool>, i: nat, u: nat)
    requires ValidOffsets(g) && |placed| == Rows(g) && |covers| > 0
    requires OnPass(g, start, order, covers, placed, i)
    requires i < |placed| && u < |placed| && u == Pick(g, covers, placed, i)
    ensures OnPass(g, start, order + [u], Absorb(g, covers, i % |covers|, u), placed[u := true], i + 1)
  {
    GreedyPassStep(g, covers, placed, i);
    var rest := GreedyPass(g, Absorb(g, covers, i % |covers|, u), placed[u := true], i + 1).order;
    assert order + ([u] + rest) == (order + [u]) + rest;
  }

  /** At the last position the run has made exactly the pass's picks and reached its coverage. */
  lemma OnPassDone(g: Csr, start: Pass, order: seq<nat>, covers: seq<seq<bool>>, placed: seq<bool>, i: nat)
    requires ValidOffsets(g) && |placed| == Rows(g) && |covers| > 0
    requires OnPass(g, start, order, covers, placed, i) && i >= |placed|
    ensures order == start.order && covers == start.covers
  {
    assert order + [] == order;
  }

  /**
   The first `|order|` positions are made: the vertex picked at position `j`
   is placed and mapped to partition `j % k`.
   */
  predicate MadeInOrder(m: seq<int>, placed: seq<bool>, order: seq<nat>, k: nat)
    requires k > 0
  {
    && |m| == |placed|
    && forall j :: 0 <= j < |order| ==> order[j] < |m| && placed[order[j]] && m[order[j]] == j % k
  }

  /** Every placed vertex is mapped to one of the `k` partitions. */
  predicate MappedInRange(m: seq<int>, placed: seq<bool>, k: nat)
  {
    && |m| == |placed|
    && forall u :: 0 <= u < |m| && placed[u] ==> 0 <= m[u] < k
  }

  /** `m` places the vertex picked at position `j` of pass `p` in partition `j % k`. */
  predicate FollowsPass(m: seq<int>, p: Pass, k: nat)
    requires k > 0
  {
    && |p.order| == |m|
    && forall j :: 0 <= j < |p.order| ==> p.order[j] < |m| && m[p.order[j]] == j % k
  }

  /**
   The state of a run of the pass over block `g` with `k` partitions after
   `i` positions, on its way to the reference pass `start`: it has made the
   picks `order`; the coverage is `covers`, the placed marks `placed` and the
   placement map `maps`; table `s` holds the costs `costs[s]`, which track
   the coverage of partition `s`, and the eligibility marks `eligs[s]`, which
   are exactly the unplaced vertices; every partition has received its
   round-robin share of `i` vertices.
   */
  predicate PassState(g: Csr, k: nat, start: Pass, order: seq<nat>, i: nat, covers: seq<seq<bool>>,
                      placed: seq<bool>, maps: seq<int>, costs: seq<seq<int>>, eligs: seq<seq<bool>>)
    requires ValidOffsets(g) && k > 0
  {
    && |covers| == k && |costs| == k && |eligs| == k
    && |placed| == Rows(g) && |maps| == Rows(g) && i <= Rows(g)
    && CountTrue(placed) == i
    && (forall s :: 0 <= s < k ==> eligs[s] == Unassigned(placed))
    && (forall s :: 0 <= s < k ==> Tracks(costs[s], g, covers[s], placed))
    && OnPass(g, start, order, covers, placed, i)
    && |order| == i
    && MadeInOrder(maps, placed, order, k)
    && MappedInRange(maps, placed, k)
    && (forall s :: 0 <= s < k ==> Tally(maps, placed, s) == RoundRobin(i, k, s))
  }

  /** At the start of a block, with freshly loaded tables and nothing placed, the run is on its way to the pass from there. */
  lemma PassStateStart(g: Csr, k: nat, covers: seq<seq<bool>>, maps: seq<int>, costs: seq<seq<int>>, eligs: seq<seq<bool>>)
    requires ValidOffsets(g) && k > 0 && |covers| == k && |costs| == k && |eligs| == k && |maps| == Rows(g)
    requires forall s :: 0 <= s < k ==> costs[s] == UncoveredCosts(g, covers[s])
    requires forall s :: 0 <= s < k ==> eligs[s] == Unassigned(NonePlaced(Rows(g)))
    ensures PassState(g, k, GreedyPass(g, covers, NonePlaced(Rows(g)), 0), [], 0, covers,
                      NonePlaced(Rows(g)), maps, costs, eligs)
  {
    var none := NonePlaced(Rows(g));
    OnPassStart(g, covers, none);
    CountTrueNone(none);
    forall s | 0 <= s < k
      ensures Tally(maps, none, s) == 0
    {
      TallyNone(maps, none, s);
    }
  }

  /** While positions remain, every table has an eligible vertex. */
  lemma PassStateEligible(g: Csr, k: nat, start: Pass, order: seq<nat>, i: nat, covers: seq<seq<bool>>,
                          placed: seq<bool>, maps: seq<int>, costs: seq<seq<int>>, eligs: seq<seq<bool>>, s: nat)
    requires ValidOffsets(g) && k > 0 && PassState(g, k, start, order, i, covers, placed, maps, costs, eligs)
    requires i < Rows(g) && s < k
    ensures AnyEligible(eligs[s])
  {
    SomeUnassigned(placed);
  }

  /**
   One position of the run: the cheapest eligible vertex `ui` of the table
   of partition `i % k` is the pass's pick; placing it there, absorbing its
   neighbours into that partition's coverage, lowering that table by what
   the new coverage removes and clearing `ui` from every table moves the run
   on to position `i + 1`.
   */
  lemma PassStateStep(g: Csr, k: nat, start: Pass, order: seq<nat>, i: nat, covers: seq<seq<bool>>,
                      placed: seq<bool>, maps: seq<int>, costs: seq<seq<int>>, eligs: seq<seq<bool>>,
                      ui: nat, covers': seq<seq<bool>>, costs': seq<seq<int>>, eligs': seq<seq<bool>>)
    requires ValidOffsets(g) && k > 0 && PassState(g, k, start, order, i, covers, placed, maps, costs, eligs)
    requires i < Rows(g) && ui == MinEligible(costs[i % k], eligs[i % k])
    requires ui < Rows(g) && covers' == Absorb(g, covers, i % k, ui)
    requires |costs'| == k && costs'[i % k] == Lowered(costs[i % k], g, covers[i % k], covers'[i % k], placed[ui := true])
    requires forall s :: 0 <= s < k && s != i % k ==> costs'[s] == costs[s]
    requires |eligs'| == k && forall s :: 0 <= s < k ==> eligs'[s] == eligs[s][ui := false]
    ensures !placed[ui]
    ensures PassState(g, k, start, order + [ui], i + 1, covers', placed[ui := true], maps[ui := i % k], costs', eligs')
  {
    var part := i % k;
    var placed' := placed[ui := true];
    TrackedPick(g, costs[part], covers, placed, i);
    SomeUnassigned(placed);
    PickUnplaced(g, covers, placed, i);
    OnPassAdvance(g, start, order, covers, placed, i, ui);
    CountTrueSet(placed, ui);
    UnassignedPlace(placed, ui);
    forall s | 0 <= s < k
      ensures Tracks(costs'[s], g, covers'[s], placed')
    {
      if s == part {
        LoweredTracks(costs[s], g, covers[s], covers'[s], placed');
      }
    }
    MadeInOrderStep(maps, placed, order, k, ui, part);
    var maps' := maps[ui := part];
    forall s | 0 <= s < k
      ensures Tally(maps', placed', s) == RoundRobin(i + 1, k, s)
    {
      TallyAssign(maps, placed, ui, part, s);
    }
  }

  /** Placing an unplaced vertex at the next position in partition `part` extends both placement facts. */
  lemma MadeInOrderStep(m: seq<int>, placed: seq<bool>, order: seq<nat>, k: nat, u: nat, part: nat)
    requires k > 0 && MadeInOrder(m, placed, order, k) && MappedInRange(m, placed, k)
    requires u < |m| && !placed[u] && part == |order| % k
    ensures MadeInOrder(m[u := part], placed[u := true], order + [u], k)
    ensures MappedInRange(m[u := part], placed[u := true], k)
  {
    var order' := order + [u];
    forall j | 0 <= j < |order'|
      ensures order'[j] < |m| && placed[u := true][order'[j]] && m[u := part][order'[j]] == j % k
    {
      if j < |order| {
        assert order'[j] == order[j] && order[j] != u;
      }
    }
  }

  /**
   A run that has made all positions has placed every vertex in range, made
   exactly the pass's picks in the pass's partitions, reached the pass's
   coverage and given every partition `s` its share: `n / k` vertices, one
   more for the first `n % k` partitions.
   */
  lemma PassStateDone(g: Csr, k: nat, start: Pass, order: seq<nat>, covers: seq<seq<bool>>,
                      placed: seq<bool>, maps: seq<int>, costs: seq<seq<int>>, eligs: seq<seq<bool>>)
    requires ValidOffsets(g) && k > 0 && PassState(g, k, start, order, Rows(g), covers, placed, maps, costs, eligs)
    ensures forall u :: 0 <= u < Rows(g) ==> placed[u] && 0 <= maps[u] < k
    ensures FairShare(maps, k)
    ensures FollowsPass(maps, start, k) && covers == start.covers
  {
    var n := Rows(g);
    OnPassDone(g, start, order, covers, placed, n);
    CountTrueAll(placed);
    forall s | 0 <= s < k
      ensures multiset(maps)[s] == n / k + (if s < n % k then 1 else 0)
    {
      TallyAll(maps, placed, s);
      RoundRobinClosedForm(n, k, s);
    }
  }
}
