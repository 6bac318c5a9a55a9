// Largest-remainder apportionment, as used twice: by the settler's payout split
// (payout-split.ts) and by the ledger's own field payout (State.ts). Both are
// refinements of LargestRemainder over exact quotas.
module Apportion {
  import opened Events
  import opened Order

  function SumNat(s: seq<nat>): nat {
    if s == [] then 0 else SumNat(s[..|s| - 1]) + s[|s| - 1]
  }

  function SumReal(s: seq<real>): real {
    if s == [] then 0.0 else SumReal(s[..|s| - 1]) + s[|s| - 1]
  }

  function Indices(n: nat): (r: seq<nat>)
    ensures |r| == n && forall i :: 0 <= i < n ==> r[i] == i
  {
    seq(n, i => i)
  }

  // ---- the specification ----

  function Frac(x: real): real { x - x.Floor as real }

  function FracAt(q: seq<real>, i: nat): real { if i < |q| then Frac(q[i]) else 0.0 }

  // Larger fractional part first, ties by position.
  function RemainderOrder(q: seq<real>): (nat, nat) -> bool {
    (i: nat, j: nat) => FracAt(q, i) > FracAt(q, j) || (FracAt(q, i) == FracAt(q, j) && i < j)
  }

  function Ranking(q: seq<real>): seq<nat> { Sort(RemainderOrder(q), Indices(|q|)) }

  function GiveOut(base: seq<nat>, winners: seq<nat>): (r: seq<nat>)
    requires forall k :: 0 <= k < |winners| ==> winners[k] < |base|
    ensures |r| == |base|
  {
    if winners == [] then base
    else
      var m := |winners| - 1;
      var g := GiveOut(base, winners[..m]);
      g[winners[m] := g[winners[m]] + 1]
  }

  function Floors(q: seq<real>): (r: seq<nat>)
    requires forall i :: 0 <= i < |q| ==> q[i] >= 0.0
    ensures |r| == |q|
  {
    seq(|q|, i requires 0 <= i < |q| => FloorNat(q[i]))
  }

  function FloorNat(x: real): nat
    requires x >= 0.0
  {
    x.Floor
  }

  // Exact shares of a pool of `total` units.
  ghost predicate Quotas(q: seq<real>, total: nat) {
    |q| > 0 && (forall i :: 0 <= i < |q| ==> q[i] >= 0.0) && SumReal(q) == total as real
  }

  function Leftover(q: seq<real>, total: nat): (k: int)
    requires forall i :: 0 <= i < |q| ==> q[i] >= 0.0
  {
    total - SumNat(Floors(q))
  }

  function LargestRemainder(q: seq<real>, total: nat): (r: seq<nat>)
    requires forall i :: 0 <= i < |q| ==> q[i] >= 0.0
    requires 0 <= Leftover(q, total) <= |q|
    ensures |r| == |q|
  {
    RankingFits(q);
    GiveOut(Floors(q), Ranking(q)[..Leftover(q, total)])
  }

  lemma RankingFits(q: seq<real>)
    ensures |Ranking(q)| == |q|
    ensures forall k :: 0 <= k < |q| ==> Ranking(q)[k] < |q|
  {
    forall k | 0 <= k < |q| ensures Ranking(q)[k] < |q| {
      assert Ranking(q)[k] in Indices(|q|);
    }
  }

  lemma RankingAscends(q: seq<real>)
    ensures Strict(RemainderOrder(q))
    ensures Ascending(RemainderOrder(q), Ranking(q))
  {
    SortAscends(RemainderOrder(q), Indices(|q|));
  }

  // ---- sums ----

  lemma {:induction false} FracsSum(q: seq<real>)
    requires forall i :: 0 <= i < |q| ==> q[i] >= 0.0
    ensures SumNat(Floors(q)) as real <= SumReal(q)
    ensures q != [] ==> SumReal(q) < (SumNat(Floors(q)) + |q|) as real
  {
    if q != [] {
      var n := |q| - 1;
      FracsSum(q[..n]);
      assert Floors(q)[..n] == Floors(q[..n]);
    }
  }

  // The units left after flooring are fewer than the payees.
  lemma LeftoverFits(q: seq<real>, total: nat)
    requires Quotas(q, total)
    ensures 0 <= Leftover(q, total) < |q|
  {
    FracsSum(q);
  }

  lemma {:induction false} SumAfterBump(s: seq<nat>, i: nat)
    requires i < |s|
    ensures SumNat(s[i := s[i] + 1]) == SumNat(s) + 1
  {
    var n := |s| - 1;
    if i == n {
      assert s[i := s[i] + 1][..n] == s[..n];
    } else {
      SumAfterBump(s[..n], i);
      assert s[i := s[i] + 1][..n] == s[..n][i := s[i] + 1];
    }
  }

  lemma {:induction false} GiveOutSum(base: seq<nat>, winners: seq<nat>)
    requires forall k :: 0 <= k < |winners| ==> winners[k] < |base|
    ensures SumNat(GiveOut(base, winners)) == SumNat(base) + |winners|
  {
    if winners != [] {
      var m := |winners| - 1;
      GiveOutSum(base, winners[..m]);
      SumAfterBump(GiveOut(base, winners[..m]), winners[m]);
    }
  }

  lemma {:induction false} GiveOutAt(base: seq<nat>, winners: seq<nat>, i: nat)
    requires forall k :: 0 <= k < |winners| ==> winners[k] < |base|
    requires forall j, k :: 0 <= j < k < |winners| ==> winners[j] != winners[k]
    requires i < |base|
    ensures GiveOut(base, winners)[i] == base[i] + (if i in winners then 1 else 0)
  {
    if winners != [] {
      var m := |winners| - 1;
      GiveOutAt(base, winners[..m], i);
      assert i in winners <==> i in winners[..m] || i == winners[m];
    }
  }

  // ---- who wins a leftover unit ----

  ghost function Fractional(q: seq<real>): set<nat> {
    set i: nat | i < |q| && Frac(q[i]) > 0.0
  }

  lemma {:induction false} FracsBelowCount(q: seq<real>)
    requires forall i :: 0 <= i < |q| ==> q[i] >= 0.0
    ensures SumReal(q) - SumNat(Floors(q)) as real <= |Fractional(q)| as real
  {
    if q != [] {
      var n := |q| - 1;
      FracsBelowCount(q[..n]);
      assert Floors(q)[..n] == Floors(q[..n]);
      var before := Fractional(q[..n]);
      if Frac(q[n]) > 0.0 {
        assert Fractional(q) == before + {n};
      } else {
        assert Fractional(q) == before;
      }
    } else {
      assert Fractional(q) == {};
    }
  }

  ghost function Elements(s: seq<nat>): set<nat> { set x | x in s }

  lemma {:induction false} ElementsAtMost(s: seq<nat>)
    ensures |Elements(s)| <= |s|
  {
    if s != [] {
      var n := |s| - 1;
      ElementsAtMost(s[..n]);
      var before := Elements(s[..n]);
      assert Elements(s) == before + {s[n]};
      assert s[n] in before ==> before + {s[n]} == before;
    } else {
      assert Elements(s) == {};
    }
  }

  // A whole share is ranked behind all the leftover units.
  lemma WholeSharesRankLast(q: seq<real>, total: nat, k: nat)
    requires Quotas(q, total) && k < |q|
    ensures |Ranking(q)| == |q|
    ensures FracAt(q, Ranking(q)[k]) <= 0.0 ==> Leftover(q, total) <= k
  {
    RankingFits(q);
    RankingAscends(q);
    var order := Ranking(q);
    if FracAt(q, order[k]) <= 0.0 {
      forall i | i in Fractional(q) ensures i in order[..k] {
        assert i in Indices(|q|) by { assert Indices(|q|)[i] == i; }
        var j :| 0 <= j < |order| && order[j] == i;
        assert !RemainderOrder(q)(order[k], order[j]);
        assert j != k;
        assert order[..k][j] == i;
      }
      SubsetCount(Fractional(q), Elements(order[..k]));
      ElementsAtMost(order[..k]);
      FracsBelowCount(q);
    }
  }

  // The three laws of an apportionment: it distributes exactly the pool, gives everyone the
  // floor or the ceiling of the exact share, and never gives less to a larger share.
  ghost predicate Fair(q: seq<real>, total: nat, r: seq<nat>) {
    && |r| == |q|
    && SumNat(r) == total
    && (forall i :: 0 <= i < |q| ==> r[i] as real > q[i] - 1.0 && (r[i] as real) < q[i] + 1.0)
    && (forall i, j :: 0 <= i < |q| && 0 <= j < |q| && q[i] > q[j] ==> r[i] >= r[j])
  }

  lemma LargestRemainderAt(q: seq<real>, total: nat, i: nat)
    requires Quotas(q, total) && i < |q|
    ensures 0 <= Leftover(q, total) < |q| && |Ranking(q)| == |q|
    ensures LargestRemainder(q, total)[i]
         == FloorNat(q[i]) + (if i in Ranking(q)[..Leftover(q, total)] then 1 else 0)
    ensures i in Ranking(q)[..Leftover(q, total)] ==> Frac(q[i]) > 0.0
  {
    LeftoverFits(q, total);
    RankingFits(q);
    RankingAscends(q);
    var w := Ranking(q)[..Leftover(q, total)];
    forall j, k | 0 <= j < k < |w| ensures w[j] != w[k] {
      assert RemainderOrder(q)(Ranking(q)[j], Ranking(q)[k]);
    }
    GiveOutAt(Floors(q), w, i);
    if i in w {
      var k :| 0 <= k < |w| && w[k] == i;
      WholeSharesRankLast(q, total, k);
    }
  }

  lemma LargerShareNoLess(q: seq<real>, total: nat, i: nat, j: nat)
    requires Quotas(q, total) && i < |q| && j < |q| && q[i] > q[j]
    requires 0 <= Leftover(q, total) <= |q|
    ensures LargestRemainder(q, total)[i] >= LargestRemainder(q, total)[j]
  {
    LargestRemainderAt(q, total, i);
    LargestRemainderAt(q, total, j);
    var left := Leftover(q, total);
    var order := Ranking(q);
    if FloorNat(q[i]) == FloorNat(q[j]) && j in order[..left] {
      RankingAscends(q);
      var k :| 0 <= k < left && order[..left][k] == j;
      assert i in Indices(|q|) by { assert Indices(|q|)[i] == i; }
      var m :| 0 <= m < |order| && order[m] == i;
      assert !RemainderOrder(q)(order[k], order[m]);
      assert m != k;
      assert order[..left][m] == i;
    }
  }

  lemma LargestRemainderIsFair(q: seq<real>, total: nat)
    requires Quotas(q, total)
    ensures 0 <= Leftover(q, total) < |q|
    ensures Fair(q, total, LargestRemainder(q, total))
  {
    LeftoverFits(q, total);
    RankingFits(q);
    var r := LargestRemainder(q, total);
    GiveOutSum(Floors(q), Ranking(q)[..Leftover(q, total)]);
    forall i | 0 <= i < |q| ensures r[i] as real > q[i] - 1.0 && (r[i] as real) < q[i] + 1.0 {
      LargestRemainderAt(q, total, i);
    }
    forall i, j | 0 <= i < |q| && 0 <= j < |q| && q[i] > q[j] ensures r[i] >= r[j] {
      LargerShareNoLess(q, total, i, j);
    }
  }
}
