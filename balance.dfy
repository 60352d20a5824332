/**
 Counting facts behind the balance of the round-robin assignment: position
 `j` of a pass serves partition `j % k`, so each of the `k` partitions
 receives the floor or the ceiling of `n / k` of the `n` vertices.
 */
module Balance {

  /** A positive multiple of `k` is at least `k`. */
  lemma {:induction false} MulGap(d: int, k: int)
    requires k > 0 && d >= 1
    ensures d * k >= k
    decreases d
  {
    if d > 1 {
      MulGap(d - 1, k);
      assert d * k == (d - 1) * k + k;
    }
  }

  /** `x / k` and `x % k` are fixed by any quotient-remainder split of `x`. */
  lemma DivModUnique(x: nat, k: nat, q: nat, r: nat)
    requires k > 0 && r < k && x == q * k + r
    ensures x / k == q && x % k == r
  {
    var q', r' := x / k, x % k;
    assert x == q' * k + r';
    if q' < q {
      MulGap(q - q', k);
    } else if q' > q {
      MulGap(q' - q, k);
    }
  }

  /** How quotient and remainder move from `x` to `x + 1`. */
  lemma ModNext(x: nat, k: nat)
    requires k > 0
    ensures x % k + 1 < k ==> (x + 1) / k == x / k && (x + 1) % k == x % k + 1
    ensures x % k + 1 == k ==> (x + 1) / k == x / k + 1 && (x + 1) % k == 0
  {
    var q, r := x / k, x % k;
    assert x == q * k + r;
    if r + 1 < k {
      DivModUnique(x + 1, k, q, r + 1);
    } else {
      assert x + 1 == (q + 1) * k + 0;
      DivModUnique(x + 1, k, q + 1, 0);
    }
  }

  /** The number of positions `j < n` with `j % k == s`. */
  function RoundRobin(n: nat, k: nat, s: nat): (r: nat)
    requires k > 0
    ensures r <= n
  {
    if n == 0 then 0 else RoundRobin(n - 1, k, s) + (if (n - 1) % k == s then 1 else 0)
  }

  /** Taking turns gives partition `s` the quotient, plus one when `s` falls inside the remainder. */
  lemma {:induction false} RoundRobinClosedForm(n: nat, k: nat, s: nat)
    requires k > 0 && s < k
    ensures RoundRobin(n, k, s) == n / k + (if s < n % k then 1 else 0)
  {
    if n > 0 {
      RoundRobinClosedForm(n - 1, k, s);
      ModNext(n - 1, k);
    }
  }

  /** Rounding `n / k` up adds one exactly when `k` does not divide `n`. */
  lemma CeilDiv(n: nat, k: nat)
    requires k > 0
    ensures (n + k - 1) / k == n / k + (if n % k == 0 then 0 else 1)
  {
    var q, r := n / k, n % k;
    assert n == q * k + r;
    if r == 0 {
      DivModUnique(n + k - 1, k, q, k - 1);
    } else {
      assert n + k - 1 == (q + 1) * k + (r - 1);
      DivModUnique(n + k - 1, k, q + 1, r - 1);
    }
  }

  /** Every partition receives the floor or the ceiling of `n / k` positions. */
  lemma RoundRobinBalanced(n: nat, k: nat, s: nat)
    requires k > 0 && s < k
    ensures RoundRobin(n, k, s) == n / k || RoundRobin(n, k, s) == (n + k - 1) / k
  {
    RoundRobinClosedForm(n, k, s);
    CeilDiv(n, k);
  }

  /**
   The placement `m` shares the partitions `0 .. k-1` out as taking turns
   does: every partition gets `|m| / k` entries, the first `|m| % k` one more.
   */
  predicate FairShare(m: seq<int>, k: nat)
    requires k > 0
  {
    forall s :: 0 <= s < k ==> multiset(m)[s] == |m| / k + (if s < |m| % k then 1 else 0)
  }

  /** Under a fair share every partition holds the floor or the ceiling of `|m| / k` entries. */
  lemma FairShareBounds(m: seq<int>, k: nat, s: nat)
    requires k > 0 && s < k && FairShare(m, k)
    ensures multiset(m)[s] == |m| / k || multiset(m)[s] == (|m| + k - 1) / k
  {
    CeilDiv(|m|, k);
  }

  /** The number of placed vertices with map entry `s`. */
  function Tally(m: seq<int>, a: seq<bool>, s: int): (r: nat)
    requires |m| == |a|
    ensures r <= |m|
  {
    if m == [] then 0
    else Tally(m[..|m| - 1], a[..|a| - 1], s) + (if a[|a| - 1] && m[|m| - 1] == s then 1 else 0)
  }

  /** Assigning an unassigned vertex `p` to partition `t` adds it to `t`'s tally and to no other. */
  lemma {:induction false} TallyAssign(m: seq<int>, a: seq<bool>, p: nat, t: int, s: int)
    requires |m| == |a| && p < |a| && !a[p]
    ensures Tally(m[p := t], a[p := true], s) == Tally(m, a, s) + (if s == t then 1 else 0)
  {
    var m', a' := m[p := t], a[p := true];
    var n := |m|;
    if p < n - 1 {
      assert m'[..n - 1] == m[..n - 1][p := t];
      assert a'[..n - 1] == a[..n - 1][p := true];
      TallyAssign(m[..n - 1], a[..n - 1], p, t, s);
    } else {
      assert m'[..n - 1] == m[..n - 1];
      assert a'[..n - 1] == a[..n - 1];
    }
  }

  /** Once every vertex is placed, the tally of `s` is the number of map entries equal to `s`. */
  lemma {:induction false} TallyAll(m: seq<int>, a: seq<bool>, s: int)
    requires |m| == |a|
    requires forall j :: 0 <= j < |a| ==> a[j]
    ensures Tally(m, a, s) == multiset(m)[s]
  {
    if m != [] {
      var n := |m|;
      assert m == m[..n - 1] + [m[n - 1]];
      TallyAll(m[..n - 1], a[..n - 1], s);
    }
  }

  /** Before anything is placed, every tally is zero. */
  lemma {:induction false} TallyNone(m: seq<int>, a: seq<bool>, s: int)
    requires |m| == |a|
    requires forall j :: 0 <= j < |a| ==> !a[j]
    ensures Tally(m, a, s) == 0
  {
    if m != [] {
      TallyNone(m[..|m| - 1], a[..|a| - 1], s);
    }
  }
}
