// weightedOutputs (payout-split.ts): the settler's split of a fixed pool among weighted
// payees, with at least one uZIR for everybody it pays.
module PayoutSplit {
  import opened Events
  import opened Order
  import opened Apportion

  // ---- weights and quotas ----

  // The exact share of a weight.
  function Share(pool: nat, weight: real, total: real): real
    requires total > 0.0
  {
    pool as real * weight / total
  }

  lemma ShareAdds(pool: nat, a: real, b: real, total: real)
    requires total > 0.0
    ensures Share(pool, a + b, total) == Share(pool, a, total) + Share(pool, b, total)
  { }

  lemma ShareEnds(pool: nat, total: real)
    requires total > 0.0
    ensures Share(pool, 0.0, total) == 0.0
    ensures Share(pool, total, total) == pool as real
  { }

  lemma ShareGrows(pool: nat, a: real, b: real, total: real)
    requires total > 0.0 && a >= 0.0
    ensures Share(pool, a, total) >= 0.0
    ensures pool > 0 && a > b ==> Share(pool, a, total) > Share(pool, b, total)
    ensures pool == 0 ==> Share(pool, a, total) == 0.0
  {
    var p := pool as real;
    assert p * a >= 0.0;
    if pool > 0 && a > b { assert p * a > p * b; QuotientGrows(p * a, p * b, total); }
  }

  lemma QuotientGrows(a: real, b: real, c: real)
    requires a > b && c > 0.0
    ensures a / c > b / c
  { }

  function Shares(w: seq<real>, total: real, pool: nat): (q: seq<real>)
    requires total > 0.0
    ensures |q| == |w|
  {
    seq(|w|, i requires 0 <= i < |w| => Share(pool, w[i], total))
  }

  lemma {:induction false} SharesSum(w: seq<real>, total: real, pool: nat)
    requires total > 0.0
    ensures SumReal(Shares(w, total, pool)) == Share(pool, SumReal(w), total)
  {
    if w == [] {
      ShareEnds(pool, total);
    } else {
      var n := |w| - 1;
      SharesSum(w[..n], total, pool);
      assert Shares(w, total, pool)[..n] == Shares(w[..n], total, pool);
      ShareAdds(pool, SumReal(w[..n]), w[n], total);
    }
  }

  lemma SharesAreQuotas(w: seq<real>, pool: nat)
    requires w != [] && SumReal(w) > 0.0 && forall i :: 0 <= i < |w| ==> w[i] >= 0.0
    ensures Quotas(Shares(w, SumReal(w), pool), pool)
  {
    var t := SumReal(w);
    SharesSum(w, t, pool);
    ShareEnds(pool, t);
    forall i | 0 <= i < |w| ensures Shares(w, t, pool)[i] >= 0.0 { ShareGrows(pool, w[i], 0.0, t); }
  }

  // Non-finite and non-positive weights count as zero; all-zero weights count as equal.
  function Clip(weights: seq<Option<real>>): (w: seq<real>)
    ensures |w| == |weights| && forall i :: 0 <= i < |w| ==> w[i] >= 0.0
  {
    seq(|weights|, i requires 0 <= i < |weights| =>
      if weights[i].Some? && weights[i].value > 0.0 then weights[i].value else 0.0)
  }

  function Effective(weights: seq<Option<real>>): (w: seq<real>)
    ensures |w| == |weights| && forall i :: 0 <= i < |w| ==> w[i] >= 0.0
  {
    if SumReal(Clip(weights)) > 0.0 then Clip(weights) else seq(|weights|, i => 1.0)
  }

  lemma {:induction false} OnesSum(n: nat)
    ensures SumReal(seq(n, i => 1.0)) == n as real
  {
    if n > 0 {
      OnesSum(n - 1);
      assert seq(n, i => 1.0)[..n - 1] == seq(n - 1, i => 1.0);
    }
  }

  lemma EffectiveIsPositive(weights: seq<Option<real>>)
    requires weights != []
    ensures SumReal(Effective(weights)) > 0.0
  {
    OnesSum(|weights|);
  }

  // ---- the scarce branch: fewer units than payees ----

  function HeavierFirst(w: seq<real>): (nat, nat) -> bool {
    (i: nat, j: nat) => WeightAt(w, i) > WeightAt(w, j) || (WeightAt(w, i) == WeightAt(w, j) && i < j)
  }

  function WeightAt(w: seq<real>, i: nat): real { if i < |w| then w[i] else 0.0 }

  function ByPosition(): (nat, nat) -> bool { (i: nat, j: nat) => i < j }

  // The positions of the `pool` heaviest payees, in input order.
  function Chosen(w: seq<real>, pool: nat): seq<nat>
    requires pool <= |w|
  {
    Sort(ByPosition(), Sort(HeavierFirst(w), Indices(|w|))[..pool])
  }

  lemma ChosenAreHeaviest(w: seq<real>, pool: nat)
    requires pool <= |w|
    ensures |Chosen(w, pool)| == pool
    ensures Ascending(ByPosition(), Chosen(w, pool))
    ensures forall i :: i in Chosen(w, pool) ==> i < |w|
    ensures forall i, j :: i in Chosen(w, pool) && 0 <= j < |w| && j !in Chosen(w, pool) ==> w[i] >= w[j]
  {
    var order := Sort(HeavierFirst(w), Indices(|w|));
    SortAscends(HeavierFirst(w), Indices(|w|));
    var top := order[..pool];
    forall i, j | 0 <= i < j < |top| ensures ByPosition()(top[i], top[j]) || ByPosition()(top[j], top[i]) {
      assert HeavierFirst(w)(order[i], order[j]);
    }
    SortAscends(ByPosition(), top);
    forall i, j | i in Chosen(w, pool) && 0 <= j < |w| && j !in Chosen(w, pool) ensures i < |w| && w[i] >= w[j] {
      assert i in Indices(|w|);
      assert j in Indices(|w|) by { assert Indices(|w|)[j] == j; }
      var a :| 0 <= a < pool && top[a] == i;
      var b :| 0 <= b < |order| && order[b] == j;
      assert j !in top;
      assert HeavierFirst(w)(order[a], order[b]);
    }
    forall i | i in Chosen(w, pool) ensures i < |w| { assert i in Indices(|w|); }
  }

  // ---- the specification ----

  // One unit each, and the rest by largest remainder.
  function Amounts(w: seq<real>, pool: nat): (r: seq<nat>)
    requires w != [] && pool >= |w| && SumReal(w) > 0.0 && forall i :: 0 <= i < |w| ==> w[i] >= 0.0
    ensures |r| == |w|
  {
    SharesAreQuotas(w, pool - |w|);
    var q := Shares(w, SumReal(w), pool - |w|);
    LeftoverFits(q, pool - |w|);
    seq(|w|, i requires 0 <= i < |w| => 1 + LargestRemainder(q, pool - |w|)[i])
  }

  function Weighted(payees: seq<Address>, weights: seq<Option<real>>, pool: int): seq<Output>
    requires |payees| == |weights|
  {
    if payees == [] || pool <= 0 then []
    else
      var w := Effective(weights);
      if pool < |payees| then
        ChosenAreHeaviest(w, pool);
        var c := Chosen(w, pool);
        seq(|c|, k requires 0 <= k < |c| => assert c[k] in c; Output(payees[c[k]], 1))
      else
        EffectiveIsPositive(weights);
        var a := Amounts(w, pool);
        seq(|payees|, i requires 0 <= i < |payees| => Output(payees[i], a[i]))
  }

  lemma {:induction false} OutputSumIsSum(outs: seq<Output>, amounts: seq<nat>)
    requires |outs| == |amounts| && forall i :: 0 <= i < |outs| ==> outs[i].amount == amounts[i]
    ensures OutputSum(outs) == SumNat(amounts)
  {
    if outs != [] {
      var n := |outs| - 1;
      OutputSumIsSum(outs[..n], amounts[..n]);
      OutputSumLast(outs);
    }
  }

  lemma {:induction false} OutputSumLast(outs: seq<Output>)
    requires outs != []
    ensures OutputSum(outs) == OutputSum(outs[..|outs| - 1]) + outs[|outs| - 1].amount
  {
    if |outs| > 1 {
      OutputSumLast(outs[1..]);
      assert outs[..|outs| - 1][1..] == outs[1..][..|outs| - 2];
    }
  }

  lemma {:induction false} SumOfOnes(s: seq<nat>)
    requires forall i :: 0 <= i < |s| ==> s[i] == 1
    ensures SumNat(s) == |s|
  {
    if s != [] { SumOfOnes(s[..|s| - 1]); }
  }

  lemma {:induction false} SumPlusOne(s: seq<nat>, t: seq<nat>)
    requires |s| == |t| && forall i :: 0 <= i < |s| ==> t[i] == 1 + s[i]
    ensures SumNat(t) == SumNat(s) + |s|
  {
    if s != [] { SumPlusOne(s[..|s| - 1], t[..|t| - 1]); }
  }

  // Whatever the weights: the outputs add up to exactly the pool and none is zero.
  lemma WeightedIsExact(payees: seq<Address>, weights: seq<Option<real>>, pool: int)
    requires |payees| == |weights| && payees != [] && pool > 0
    ensures var outs := Weighted(payees, weights, pool);
            && OutputSum(outs) == pool
            && (forall k :: 0 <= k < |outs| ==> outs[k].amount > 0)
            && |outs| == (if pool < |payees| then pool else |payees|)
  {
    var w := Effective(weights);
    var outs := Weighted(payees, weights, pool);
    if pool < |payees| {
      ChosenAreHeaviest(w, pool);
      var ones := seq(pool, i => 1);
      OutputSumIsSum(outs, ones);
      SumOfOnes(ones);
    } else {
      EffectiveIsPositive(weights);
      OutputSumIsSum(outs, Amounts(w, pool));
      AmountsSum(w, pool);
      assert forall k :: 0 <= k < |outs| ==> outs[k].amount == Amounts(w, pool)[k];
    }
  }

  // When there is a unit for everybody: each payee gets its base unit plus the floor or
  // ceiling of its exact share of the rest, and a larger weight never gets less.
  ghost predicate FairSplit(w: seq<real>, pool: nat, amounts: seq<nat>)
    requires SumReal(w) > 0.0 && |amounts| == |w| <= pool
  {
    && (forall i :: 0 <= i < |w| ==>
          var share := 1.0 + Share(pool - |w|, w[i], SumReal(w));
          share - 1.0 < amounts[i] as real < share + 1.0)
    && (forall i, j :: 0 <= i < |w| && 0 <= j < |w| && w[i] > w[j] ==> amounts[i] >= amounts[j])
  }

  lemma AmountsAreFair(w: seq<real>, pool: nat)
    requires w != [] && pool >= |w| && SumReal(w) > 0.0 && forall i :: 0 <= i < |w| ==> w[i] >= 0.0
    ensures FairSplit(w, pool, Amounts(w, pool))
  {
    hide LargestRemainder, SumReal, Share, SumNat;
    var rest := pool - |w|;
    SharesAreQuotas(w, rest);
    var q := Shares(w, SumReal(w), rest);
    LargestRemainderIsFair(q, rest);
    var r := LargestRemainder(q, rest);
    forall i, j | 0 <= i < |w| && 0 <= j < |w| && w[i] > w[j] ensures r[i] >= r[j] {
      LargerWeightNoLess(w, rest, q, r, i, j);
    }
  }

  lemma LargerWeightNoLess(w: seq<real>, rest: nat, q: seq<real>, r: seq<nat>, i: nat, j: nat)
    requires SumReal(w) > 0.0 && q == Shares(w, SumReal(w), rest) && Fair(q, rest, r)
    requires i < |w| && j < |w| && w[i] > w[j] >= 0.0
    ensures r[i] >= r[j]
  {
    hide SumReal, Share, SumNat;
    ShareGrows(rest, w[i], w[j], SumReal(w));
    ShareGrows(rest, w[j], w[i], SumReal(w));
    if rest == 0 { assert q[j] == 0.0 && r[j] as real < q[j] + 1.0; }
  }

  lemma WeightedIsFair(payees: seq<Address>, weights: seq<Option<real>>, pool: int)
    requires |payees| == |weights| && pool >= |payees| > 0
    ensures var outs := Weighted(payees, weights, pool);
            && |outs| == |payees|
            && (forall i :: 0 <= i < |outs| ==> outs[i].to == payees[i])
            && SumReal(Effective(weights)) > 0.0
            && FairSplit(Effective(weights), pool, seq(|outs|, i requires 0 <= i < |outs| => outs[i].amount))
  {
    var outs := Weighted(payees, weights, pool);
    EffectiveIsPositive(weights);
    AmountsAreFair(Effective(weights), pool);
    assert seq(|outs|, i requires 0 <= i < |outs| => outs[i].amount) == Amounts(Effective(weights), pool);
  }

  // ---- the code ----

  method WeightedOutputs(payees: seq<Address>, weights: seq<Option<real>>, pool: int) returns (outs: seq<Output>)
    requires |payees| == |weights|
    ensures outs == Weighted(payees, weights, pool)
    ensures payees != [] && pool > 0 ==> OutputSum(outs) == pool
  {
    if payees == [] || pool <= 0 { return []; }
    WeightedIsExact(payees, weights, pool);
    var n := |payees|;
    var w := Clip(weights);
    var total := SumReal(w);
    if total <= 0.0 {
      total := n as real;
      w := seq(n, i => 1.0);
      OnesSum(n);
    }
    if pool < n {
      ChosenAreHeaviest(w, pool);
      var c := Sort(ByPosition(), Sort(HeavierFirst(w), Indices(n))[..pool]);
      outs := seq(|c|, k requires 0 <= k < |c| => assert c[k] in c; Output(payees[c[k]], 1));
      return;
    }
    var a := Apportioned(w, total, pool);
    outs := seq(n, i requires 0 <= i < n => Output(payees[i], a[i]));
  }

  // The base unit and the floored share, then the units left.
  method Apportioned(w: seq<real>, total: real, pool: nat) returns (amounts: seq<nat>)
    requires w != [] && |w| <= pool && total == SumReal(w) > 0.0 && forall i :: 0 <= i < |w| ==> w[i] >= 0.0
    ensures amounts == Amounts(w, pool)
    ensures SumNat(amounts) == pool && FairSplit(w, pool, amounts)
  {
    var raw := Shares(w, total, pool - |w|);
    SharesAreQuotas(w, pool - |w|);
    LeftoverFits(raw, pool - |w|);
    RankingFits(raw);
    var out := new nat[|w|](i requires 0 <= i < |w| => 1 + FloorNat(raw[i]));
    ghost var base := out[..];
    HandOut(out, Ranking(raw), |w| + SumNat(Floors(raw)), pool);
    amounts := out[..];
    HandedOutAreAmounts(w, pool, base, amounts);
    AmountsSum(w, pool);
    AmountsAreFair(w, pool);
  }

  lemma HandedOutAreAmounts(w: seq<real>, pool: nat, base: seq<nat>, amounts: seq<nat>)
    requires w != [] && |w| <= pool && SumReal(w) > 0.0 && forall i :: 0 <= i < |w| ==> w[i] >= 0.0
    requires var q := Shares(w, SumReal(w), pool - |w|);
             && |base| == |w| && (forall i :: 0 <= i < |w| ==> q[i] >= 0.0 && base[i] == 1 + FloorNat(q[i]))
             && 0 <= Leftover(q, pool - |w|) <= |Ranking(q)| &&
               (forall k :: 0 <= k < |Ranking(q)| ==> Ranking(q)[k] < |w|)
             && amounts == GiveOut(base, Ranking(q)[..Leftover(q, pool - |w|)])
    ensures amounts == Amounts(w, pool)
  {
    SharesAreQuotas(w, pool - |w|);
    BaseUnitsCarry(Shares(w, SumReal(w), pool - |w|), pool - |w|, base);
  }

  lemma AmountsSum(w: seq<real>, pool: nat)
    requires w != [] && |w| <= pool && SumReal(w) > 0.0 && forall i :: 0 <= i < |w| ==> w[i] >= 0.0
    ensures SumNat(Amounts(w, pool)) == pool
    ensures forall i :: 0 <= i < |w| ==> Amounts(w, pool)[i] >= 1
  {
    SharesAreQuotas(w, pool - |w|);
    LargestRemainderIsFair(Shares(w, SumReal(w), pool - |w|), pool - |w|);
    SumPlusOne(LargestRemainder(Shares(w, SumReal(w), pool - |w|), pool - |w|), Amounts(w, pool));
  }

  // The loop over the units left: one each, in ranking order.
  method HandOut(out: array<nat>, order: seq<nat>, distributed: nat, pool: nat)
    requires distributed <= pool < distributed + |order|
    requires forall k :: 0 <= k < |order| ==> order[k] < out.Length
    modifies out
    ensures out[..] == GiveOut(old(out[..]), order[..pool - distributed])
  {
    ghost var base := out[..];
    var k := 0;
    while distributed + k < pool
      invariant 0 <= k <= pool - distributed
      invariant out[..] == GiveOut(base, order[..k])
    {
      var slot := order[k % |order|];
      assert slot == order[k] by { InRange(k, |order|); }
      assert order[..k + 1][..k] == order[..k];
      out[slot] := out[slot] + 1;
      k := k + 1;
    }
  }

  lemma InRange(k: nat, n: nat)
    requires k < n
    ensures k % n == k
  { }

  // Handing the leftover units out on top of the base units changes nothing else.
  lemma BaseUnitsCarry(q: seq<real>, rest: nat, base: seq<nat>)
    requires Quotas(q, rest) && |base| == |q| && forall i :: 0 <= i < |q| ==> base[i] == 1 + FloorNat(q[i])
    ensures 0 <= Leftover(q, rest) < |q| && |Ranking(q)| == |q|
    ensures forall k :: 0 <= k < |q| ==> Ranking(q)[k] < |q|
    ensures forall i :: 0 <= i < |q| ==>
              GiveOut(base, Ranking(q)[..Leftover(q, rest)])[i] == 1 + LargestRemainder(q, rest)[i]
  {
    LeftoverFits(q, rest);
    RankingFits(q);
    RankingAscends(q);
    var w := Ranking(q)[..Leftover(q, rest)];
    forall j, k | 0 <= j < k < |w| ensures w[j] != w[k] {
      assert RemainderOrder(q)(Ranking(q)[j], Ranking(q)[k]);
    }
    forall i | 0 <= i < |q| ensures GiveOut(base, w)[i] == 1 + LargestRemainder(q, rest)[i] {
      GiveOutAt(base, w, i);
      GiveOutAt(Floors(q), w, i);
    }
  }
}
