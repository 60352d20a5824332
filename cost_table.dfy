/**
 The per-partition cost table: a cost for every U vertex of the current
 block, of which the still-eligible ones take part in the minimum query.
 The table's own implementation is not part of the repository's core; this
 model keeps the costs and the eligibility marks as two sequences and answers
 the minimum query by a scan, with the contract the partitioner relies on:
 the eligible index of least cost, the smallest such index on a tie.
 */
module CostTables {

  /** `r` is eligible, no eligible cost is below `c[r]`, and every eligible index before `r` costs more. */
  predicate IsMinIdx(c: seq<int>, e: seq<bool>, r: nat)
  {
    && r < |c| && r < |e| && e[r]
    && (forall j :: 0 <= j < |c| && j < |e| && e[j] ==> c[r] <= c[j])
    && (forall j :: 0 <= j < r && e[j] ==> c[r] < c[j])
  }

  predicate AnyEligible(e: seq<bool>)
  {
    exists j :: 0 <= j < |e| && e[j]
  }

  /** The answer of the minimum query over the first `len` indices; `|c|` when none of them is eligible. */
  function MinEligibleUpTo(c: seq<int>, e: seq<bool>, len: nat): (r: nat)
    requires |c| == |e| && len <= |c|
    ensures r == |c| || r < len
  {
    if len == 0 then |c|
    else
      var b := MinEligibleUpTo(c, e, len - 1);
      if e[len - 1] && (b == |c| || c[len - 1] < c[b]) then len - 1 else b
  }

  /** The scan over a prefix answers with the prefix's eligible minimum, or `|c|` when it has none. */
  lemma {:induction false} MinEligibleUpToSpec(c: seq<int>, e: seq<bool>, len: nat)
    requires |c| == |e| && len <= |c|
    ensures MinEligibleUpTo(c, e, len) == |c| <==> !(exists j :: 0 <= j < len && e[j])
    ensures MinEligibleUpTo(c, e, len) < |c| ==> IsMinIdx(c[..len], e[..len], MinEligibleUpTo(c, e, len))
  {
    if len > 0 {
      MinEligibleUpToSpec(c, e, len - 1);
    }
  }

  /** The answer of the minimum query over the whole table; `|c|` when nothing is eligible. */
  function MinEligible(c: seq<int>, e: seq<bool>): nat
    requires |c| == |e|
  {
    MinEligibleUpTo(c, e, |c|)
  }

  /** The minimum query answers with the eligible index of least cost, smallest first; `|c|` when nothing is eligible. */
  lemma MinEligibleSpec(c: seq<int>, e: seq<bool>)
    requires |c| == |e|
    ensures MinEligible(c, e) <= |c|
    ensures MinEligible(c, e) == |c| <==> !AnyEligible(e)
    ensures MinEligible(c, e) < |c| ==> IsMinIdx(c, e, MinEligible(c, e))
  {
    MinEligibleUpToSpec(c, e, |c|);
  }

  /** The minimum query has one answer: the tie-break makes it deterministic. */
  lemma MinIdxUnique(c: seq<int>, e: seq<bool>, r1: nat, r2: nat)
    requires IsMinIdx(c, e, r1) && IsMinIdx(c, e, r2)
    ensures r1 == r2
  {
  }

  /** The answer depends only on the costs of eligible indices. */
  lemma MinEligibleAgrees(c1: seq<int>, c2: seq<int>, e: seq<bool>)
    requires |c1| == |c2| == |e|
    requires forall j :: 0 <= j < |e| && e[j] ==> c1[j] == c2[j]
    ensures MinEligible(c1, e) == MinEligible(c2, e)
  {
    var r1, r2 := MinEligible(c1, e), MinEligible(c2, e);
    MinEligibleSpec(c1, e);
    MinEligibleSpec(c2, e);
    if r1 < |e| {
      assert IsMinIdx(c1, e, r2);
      MinIdxUnique(c1, e, r1, r2);
    }
  }

  class CostTable {
    /** The cost of every index of the table. */
    var cost: seq<int>
    /** Which indices still take part in the minimum query. */
    var eligible: seq<bool>

    ghost predicate Valid()
      reads this
    {
      |cost| == |eligible|
    }

    constructor ()
      ensures Valid() && cost == []
    {
      cost := [];
      eligible := [];
    }

    /** Bulk load: the table holds `c`, and every index is eligible. */
    method Init(c: seq<int>)
      modifies this
      ensures Valid() && cost == c
      ensures forall i :: 0 <= i < |eligible| ==> eligible[i]
    {
      cost := c;
      eligible := seq(|c|, _ => true);
    }

    /** The eligible index of least cost, the smallest one on a tie. */
    method MinIdx() returns (r: nat)
      requires Valid() && AnyEligible(eligible)
      ensures IsMinIdx(cost, eligible, r)
      ensures r == MinEligible(cost, eligible)
    {
      var best := |cost|;
      var i := 0;
      while i < |cost|
        invariant 0 <= i <= |cost|
        invariant best == MinEligibleUpTo(cost, eligible, i)
      {
        if eligible[i] && (best == |cost| || cost[i] < cost[best]) {
          best := i;
        }
        i := i + 1;
      }
      MinEligibleSpec(cost, eligible);
      r := best;
    }

    /** Makes index `i` permanently ineligible. */
    method Remove(i: nat)
      requires Valid() && i < |eligible|
      modifies this
      ensures Valid() && cost == old(cost) && eligible == old(eligible)[i := false]
    {
      eligible := eligible[i := false];
    }

    /** Lowers the cost of index `i` by one (the re-sort of the source's table is not modelled). */
    method DecrAndSort(i: nat)
      requires Valid() && i < |cost|
      modifies this
      ensures Valid() && eligible == old(eligible) && cost == old(cost)[i := old(cost[i]) - 1]
    {
      cost := cost[i := cost[i] - 1];
    }
  }
}
