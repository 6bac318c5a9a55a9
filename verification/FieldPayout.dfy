// The pure-epoch field payout (distributeFieldParticipation in State.ts): once per
// bucket, the fixed pool goes from the settler to the sealed payees.
module FieldPayout {
  import opened Events
  import opened Order
  import opened Apportion
  import opened PayoutSplit
  import opened Heartbeats
  import opened WorkWeights
  import opened Seats
  import opened Ledger

  const MAX_PAYEES: nat := 64
  const BUCKET_EPOCHS: int := 60
  const POOL: nat := 5_000_000_000
  const LIVENESS_WEIGHT: nat := 10
  const WEIGHT_SCALE: nat := 10000
  const ANCHOR_BONUS: nat := 10000

  // ---- payees ----

  predicate MayBePaid(cfg: Config, a: Address) {
    IsMinerAddress(a) && a != cfg.Settler() && !cfg.IsGenesisMaster(a)
  }

  function VouchedBy(cfg: Config, latest: seq<Obs>): (r: seq<Address>)
    ensures forall a :: a in r <==> MayBePaid(cfg, a) && exists o :: o in latest && a in o.vouched
  {
    if latest == [] then []
    else
      var n := |latest| - 1;
      assert forall o :: o in latest <==> o in latest[..n] || o == latest[n];
      VouchedBy(cfg, latest[..n]) + Filter((a: Address) => MayBePaid(cfg, a), latest[n].vouched)
  }

  function Payees(cfg: Config, latest: seq<Obs>): seq<Address> {
    var s := SortedNames(VouchedBy(cfg, latest));
    if |s| > MAX_PAYEES then s[..MAX_PAYEES] else s
  }

  lemma PayeesAreProper(cfg: Config, latest: seq<Obs>)
    ensures var p := Payees(cfg, latest);
            && Ascending(ByName(), p) && |p| <= MAX_PAYEES
            && (forall a :: a in p ==> MayBePaid(cfg, a) && exists o :: o in latest && a in o.vouched)
            && (forall a, o :: o in latest && a in o.vouched && MayBePaid(cfg, a) ==> a in p || |p| == MAX_PAYEES)
  {
    SortedNamesAscend(VouchedBy(cfg, latest));
    var s := SortedNames(VouchedBy(cfg, latest));
    assert forall a :: a in Payees(cfg, latest) ==> a in s;
    assert forall a :: a in VouchedBy(cfg, latest) ==> a in s;
  }

  // ---- amounts ----

  function BestOver(seats: SeatMap, ids: seq<string>, a: Address): real {
    if ids == [] then 0.0
    else
      var n := |ids| - 1;
      var best := BestOver(seats, ids[..n], a);
      if OwnedBy(seats, ids[n], a) && seats[ids[n]].zti > best then seats[ids[n]].zti else best
  }

  // bestAnchorZti: over every seat there is.
  ghost function BestOwned(seats: SeatMap, a: Address): real { BestOver(seats, Ascend(seats.Keys), a) }

  // Math.round
  function Round(x: real): int { (x + 0.5).Floor }

  function AnchorScaled(w: nat, best: real): nat {
    if best <= 0.0 then w
    else
      var scaled := w * (WEIGHT_SCALE + Round(best * ANCHOR_BONUS as real)) / WEIGHT_SCALE;
      if scaled > 1 then scaled else 1
  }

  // The best class standing among all the seats an account owns; zero for none.
  lemma BestIsBest(seats: SeatMap, a: Address, best: real)
    ensures best == BestOwned(seats, a)
       <==> && best >= 0.0
            && (forall id :: OwnedBy(seats, id, a) ==> seats[id].zti <= best)
            && (best > 0.0 ==> exists id :: OwnedBy(seats, id, a) && seats[id].zti == best)
  {
    BestOverIsBest(seats, Ascend(seats.Keys), a);
  }

  lemma {:induction false} BestOverIsBest(seats: SeatMap, ids: seq<string>, a: Address)
    ensures var best := BestOver(seats, ids, a);
            && best >= 0.0
            && (forall id :: id in ids && OwnedBy(seats, id, a) ==> seats[id].zti <= best)
            && (best > 0.0 ==> exists id :: id in ids && OwnedBy(seats, id, a) && seats[id].zti == best)
  {
    if ids != [] {
      var n := |ids| - 1;
      var before := BestOver(seats, ids[..n], a);
      BestOverIsBest(seats, ids[..n], a);
      assert forall id :: id in ids <==> id in ids[..n] || id == ids[n];
      if before > 0.0 && BestOver(seats, ids, a) == before {
        var id :| id in ids[..n] && OwnedBy(seats, id, a) && seats[id].zti == before;
        assert id in ids;
      }
    }
  }

  // An anchor never lowers a weight, and a better one never gives less than a lesser one.
  lemma AnchorsOnlyRaise(w: nat, best: real, better: real)
    requires best <= better
    ensures AnchorScaled(w, best) >= w
    ensures AnchorScaled(w, best) <= AnchorScaled(w, better)
  {
    var k, m := Round(best * ANCHOR_BONUS as real), Round(better * ANCHOR_BONUS as real);
    if best > 0.0 {
      assert k >= 0;
      RoundGrows(best * ANCHOR_BONUS as real, better * ANCHOR_BONUS as real);
      ScaleGrows(w, k, m);
    } else if better > 0.0 {
      assert m >= 0;
      ScaleGrows(w, 0, m);
    }
  }

  lemma RoundGrows(x: real, y: real)
    requires x <= y
    ensures Round(x) <= Round(y)
  { }

  lemma ScaleGrows(w: nat, k: nat, m: nat)
    requires k <= m
    ensures w <= w * (WEIGHT_SCALE + k) / WEIGHT_SCALE <= w * (WEIGHT_SCALE + m) / WEIGHT_SCALE
  {
    Distributes(w, WEIGHT_SCALE, k);
    Distributes(w, WEIGHT_SCALE + k, m - k);
    ScaledDown(w * WEIGHT_SCALE, w * (WEIGHT_SCALE + k));
    ScaledDown(w * (WEIGHT_SCALE + k), w * (WEIGHT_SCALE + m));
  }

  lemma Distributes(w: nat, a: nat, b: nat)
    ensures w * (a + b) == w * a + w * b && w * b >= 0
  { }

  lemma ScaledDown(a: nat, b: nat)
    requires a <= b
    ensures a / WEIGHT_SCALE <= b / WEIGHT_SCALE
  { }

  ghost function WeightOf(cfg: Config, l: Ledger, latest: seq<Obs>, payee: Address, epoch: int): nat {
    var sealed_ := WorkWeight(latest, payee);
    var w := if sealed_.Some? then sealed_.value else LIVENESS_WEIGHT;
    if Armed(cfg.anchorWeight, epoch) then AnchorScaled(w, BestOwned(l.seats, payee)) else w
  }

  ghost function Weights(cfg: Config, l: Ledger, latest: seq<Obs>, payees: seq<Address>, epoch: int): (w: seq<nat>)
    ensures |w| == |payees| && forall i :: 0 <= i < |w| ==> w[i] >= 1
  {
    seq(|payees|, i requires 0 <= i < |payees| => WeightOf(cfg, l, latest, payees[i], epoch))
  }

  function AsReals(w: seq<nat>): (r: seq<real>)
    ensures |r| == |w| && forall i :: 0 <= i < |w| ==> r[i] == w[i] as real >= 0.0
  {
    seq(|w|, i requires 0 <= i < |w| => w[i] as real)
  }

  lemma {:induction false} AsRealsSum(w: seq<nat>)
    ensures SumReal(AsReals(w)) == SumNat(w) as real
  {
    if w != [] {
      AsRealsSum(w[..|w| - 1]);
      assert AsReals(w)[..|w| - 1] == AsReals(w[..|w| - 1]);
    }
  }

  // The work-weighted split of the pool: largest remainder over pool * w[i] / total.
  function WorkSplit(w: seq<nat>, pool: nat): (r: seq<nat>)
    requires w != [] && SumNat(w) > 0
    ensures |r| == |w|
  {
    AsRealsSum(w);
    var q := Shares(AsReals(w), SumNat(w) as real, pool);
    SharesAreQuotas(AsReals(w), pool);
    LeftoverFits(q, pool);
    LargestRemainder(q, pool)
  }

  // The flat split: everyone the same, the first few one unit more.
  function FlatSplit(n: nat, pool: nat): (r: seq<nat>)
    requires n > 0
    ensures |r| == n
  {
    seq(n, i => pool / n + (if i < pool - pool / n * n then 1 else 0))
  }

  lemma WorkSplitIsFair(w: seq<nat>, pool: nat)
    requires w != [] && SumNat(w) > 0
    ensures SumNat(WorkSplit(w, pool)) == pool
    ensures forall i :: 0 <= i < |w| ==>
              var share := Share(pool, w[i] as real, SumNat(w) as real);
              share - 1.0 < WorkSplit(w, pool)[i] as real < share + 1.0
    ensures forall i, j :: 0 <= i < |w| && 0 <= j < |w| && w[i] > w[j] ==>
              WorkSplit(w, pool)[i] >= WorkSplit(w, pool)[j]
  {
    AsRealsSum(w);
    var total := SumNat(w) as real;
    var q := Shares(AsReals(w), total, pool);
    SharesAreQuotas(AsReals(w), pool);
    LargestRemainderIsFair(q, pool);
    var r := WorkSplit(w, pool);
    forall i, j | 0 <= i < |w| && 0 <= j < |w| && w[i] > w[j] ensures r[i] >= r[j] {
      ShareGrows(pool, w[i] as real, w[j] as real, total);
      ShareGrows(pool, w[j] as real, w[i] as real, total);
      assert pool == 0 ==> r[j] as real < q[j] + 1.0;
    }
  }

  // ---- equal weights: the weighted split is the flat split ----

  lemma {:induction false} EqualSum(w: seq<nat>, c: nat)
    requires forall i :: 0 <= i < |w| ==> w[i] == c
    ensures SumNat(w) == |w| * c
  {
    if w != [] { EqualSum(w[..|w| - 1], c); }
  }

  lemma EvenShare(pool: nat, c: nat, n: nat)
    requires c > 0 && n > 0
    ensures n * c > 0
    ensures Share(pool, c as real, (n * c) as real) == pool as real / n as real
  {
    assert n * c > 0;
    assert (n * c) as real == n as real * c as real;
    CancelFactor(pool as real, c as real, n as real);
  }

  lemma CancelFactor(a: real, c: real, n: real)
    requires c > 0.0 && n > 0.0
    ensures n * c > 0.0
    ensures a * c / (n * c) == a / n
  {
    assert a / n * (n * c) == a * c;
  }

  lemma FloorOfRatio(a: nat, n: nat)
    requires n > 0
    ensures (a as real / n as real).Floor == a / n
  {
    var k := a / n;
    DivMod(a, n);
    CastProduct(k, n);
    RatioBounds(a as real, n as real, k as real);
  }

  lemma RatioBounds(a: real, n: real, k: real)
    requires n > 0.0 && k * n <= a < k * n + n
    ensures k <= a / n < k + 1.0
  {
    var x := a / n;
    assert x * n == a;
    assert (k + 1.0) * n == k * n + n;
    ProductsOrder(x, k, n);
    ProductsOrder(x, k + 1.0, n);
  }

  lemma ProductsOrder(x: real, y: real, n: real)
    requires n > 0.0
    ensures x < y <==> x * n < y * n
  {
    assert x * n - y * n == (x - y) * n;
    if x < y { assert (y - x) * n > 0.0; } else { assert (x - y) * n >= 0.0; }
  }

  lemma {:induction false} EqualFloors(q: seq<real>, x: real)
    requires x >= 0.0 && forall i :: 0 <= i < |q| ==> q[i] == x
    ensures SumNat(Floors(q)) == |q| * FloorNat(x)
  {
    EqualSum(Floors(q), FloorNat(x));
  }

  lemma EqualRanking(q: seq<real>, x: real)
    requires forall i :: 0 <= i < |q| ==> q[i] == x
    ensures Ranking(q) == Indices(|q|)
  {
    RankingAscends(q);
    forall i, j | 0 <= i < j < |q| ensures RemainderOrder(q)(Indices(|q|)[i], Indices(|q|)[j]) { }
    AscendingIsUnique(RemainderOrder(q), Ranking(q), Indices(|q|));
  }

  // Equal weights give everyone the same exact share.
  lemma EqualShares(w: seq<nat>, c: nat, pool: nat)
    requires w != [] && c > 0 && forall i :: 0 <= i < |w| ==> w[i] == c
    ensures SumNat(w) > 0
    ensures var q := Shares(AsReals(w), SumNat(w) as real, pool);
            Quotas(q, pool) && forall i :: 0 <= i < |w| ==> q[i] == pool as real / |w| as real
  {
    hide SumNat, SumReal, Share;
    EqualSum(w, c);
    EvenShare(pool, c, |w|);
    AsRealsSum(w);
    SharesAreQuotas(AsReals(w), pool);
  }

  lemma EqualQuotasSplitFlat(q: seq<real>, x: real, pool: nat)
    requires Quotas(q, pool) && x == pool as real / |q| as real && forall i :: 0 <= i < |q| ==> q[i] == x
    ensures 0 <= Leftover(q, pool) <= |q|
    ensures LargestRemainder(q, pool) == FlatSplit(|q|, pool)
  {
    hide LargestRemainder, FlatSplit, Ranking, SumNat, SumReal;
    FloorOfRatio(pool, |q|);
    EqualFloors(q, x);
    EqualRanking(q, x);
    LeftoverFits(q, pool);
    FlatLeftover(q, x, pool);
  }

  lemma EqualWeightsSplitFlat(w: seq<nat>, c: nat, pool: nat)
    requires w != [] && c > 0 && forall i :: 0 <= i < |w| ==> w[i] == c
    ensures SumNat(w) > 0
    ensures WorkSplit(w, pool) == FlatSplit(|w|, pool)
  {
    hide LargestRemainder, FlatSplit, SumNat, SumReal, Share;
    EqualShares(w, c, pool);
    EqualQuotasSplitFlat(Shares(AsReals(w), SumNat(w) as real, pool), pool as real / |w| as real, pool);
  }

  lemma FlatLeftover(q: seq<real>, x: real, pool: nat)
    requires Quotas(q, pool) && 0 <= Leftover(q, pool) < |q|
    requires (forall i :: 0 <= i < |q| ==> q[i] == x) && FloorNat(x) == pool / |q|
    requires Ranking(q) == Indices(|q|) && SumNat(Floors(q)) == |q| * (pool / |q|)
    ensures LargestRemainder(q, pool) == FlatSplit(|q|, pool)
  {
    hide LargestRemainder, FlatSplit, Ranking, SumNat, SumReal, Floors, FloorNat, Frac;
    var r, f := LargestRemainder(q, pool), FlatSplit(|q|, pool);
    var left := Leftover(q, pool);
    Commutes(|q|, pool / |q|);
    forall i | 0 <= i < |q| ensures r[i] == f[i] {
      LargestRemainderAt(q, pool, i);
      FlatSplitAt(|q|, pool, i);
      FirstIndices(|q|, left, i);
    }
  }

  lemma Commutes(a: nat, b: nat)
    ensures a * b == b * a
  { }

  lemma FlatSplitAt(n: nat, pool: nat, i: nat)
    requires i < n
    ensures FlatSplit(n, pool)[i] == pool / n + (if i < pool - pool / n * n then 1 else 0)
  { }

  lemma FirstIndices(n: nat, k: nat, i: nat)
    requires k <= n
    ensures i in Indices(n)[..k] <==> i < k
  {
    if i < k { assert Indices(n)[..k][i] == i; }
  }

  // ---- the integer code refines the exact split ----

  function ModAt(w: seq<nat>, pool: nat, total: nat, i: nat): nat
    requires total > 0
  {
    if i < |w| then pool * w[i] % total else 0
  }

  function ModOrder(w: seq<nat>, pool: nat, total: nat): (nat, nat) -> bool
    requires total > 0
  {
    (i: nat, j: nat) => ModAt(w, pool, total, i) > ModAt(w, pool, total, j)
                     || (ModAt(w, pool, total, i) == ModAt(w, pool, total, j) && i < j)
  }

  lemma ShareParts(pool: nat, weight: nat, total: nat)
    requires total > 0
    ensures Share(pool, weight as real, total as real) >= 0.0
    ensures FloorNat(Share(pool, weight as real, total as real)) == pool * weight / total
    ensures Frac(Share(pool, weight as real, total as real)) == (pool * weight % total) as real / total as real
  {
    hide Share, FloorNat, Frac;
    ShareIsRatio(pool, weight, total);
    PartsOfRatio(Share(pool, weight as real, total as real), pool * weight, total);
  }

  lemma ShareIsRatio(pool: nat, weight: nat, total: nat)
    requires total > 0
    ensures Share(pool, weight as real, total as real) == (pool * weight) as real / total as real
  {
    CastProduct(pool, weight);
  }

  lemma PartsOfRatio(x: real, a: nat, n: nat)
    requires n > 0 && x == a as real / n as real
    ensures x >= 0.0 && FloorNat(x) == a / n && Frac(x) == (a % n) as real / n as real
  {
    RatioParts(a, n);
  }

  lemma RatioParts(a: nat, n: nat)
    requires n > 0
    ensures a as real / n as real >= 0.0
    ensures (a as real / n as real).Floor == a / n
    ensures a as real / n as real - (a / n) as real == (a % n) as real / n as real
  {
    FloorOfRatio(a, n);
    DivMod(a, n);
    CastProduct(a / n, n);
    SplitQuotient((a / n) as real, n as real, (a % n) as real, a as real);
  }

  lemma CastProduct(a: nat, b: nat)
    ensures (a * b) as real == a as real * b as real
  { }

  lemma DivMod(a: nat, n: nat)
    requires n > 0
    ensures a == a / n * n + a % n && a / n >= 0 && a % n >= 0
  { }

  lemma SplitQuotient(k: real, n: real, r: real, a: real)
    requires n > 0.0 && a == k * n + r
    ensures a / n - k == r / n
  {
    assert (a / n - k) * n == r;
  }

  lemma QuotientOrder(a: nat, b: nat, n: nat)
    requires n > 0
    ensures a > b <==> a as real / n as real > b as real / n as real
    ensures a == b <==> a as real / n as real == b as real / n as real
  {
    var x, y := a as real / n as real, b as real / n as real;
    assert x * n as real == a as real && y * n as real == b as real;
    ProductsOrder(y, x, n as real);
    ProductsOrder(x, y, n as real);
  }

  lemma ModPair(w: seq<nat>, pool: nat, i: nat, j: nat)
    requires SumNat(w) > 0 && i < |w| && j < |w|
    requires ModOrder(w, pool, SumNat(w))(i, j)
    ensures RemainderOrder(Shares(AsReals(w), SumNat(w) as real, pool))(i, j)
  {
    ShareParts(pool, w[i], SumNat(w));
    ShareParts(pool, w[j], SumNat(w));
    QuotientOrder(ModAt(w, pool, SumNat(w), i), ModAt(w, pool, SumNat(w), j), SumNat(w));
  }

  lemma ModSortAscends(w: seq<nat>, pool: nat)
    requires SumNat(w) > 0
    ensures var less := ModOrder(w, pool, SumNat(w));
            Ascending(less, Sort(less, Indices(|w|))) && |Sort(less, Indices(|w|))| == |w|
  {
    hide ModAt, SumNat;
    var less := ModOrder(w, pool, SumNat(w));
    SortAscends(less, Indices(|w|));
  }

  lemma ModRankingIsRanking(w: seq<nat>, pool: nat)
    requires w != [] && SumNat(w) > 0
    ensures Sort(ModOrder(w, pool, SumNat(w)), Indices(|w|)) == Ranking(Shares(AsReals(w), SumNat(w) as real, pool))
  {
    hide ModOrder, RemainderOrder, SumNat, Share;
    var q := Shares(AsReals(w), SumNat(w) as real, pool);
    var less := ModOrder(w, pool, SumNat(w));
    ModSortAscends(w, pool);
    RankingAscends(q);
    var s := Sort(less, Indices(|w|));
    forall i, j | 0 <= i < j < |s| ensures RemainderOrder(q)(s[i], s[j]) {
      assert s[i] in Indices(|w|) && s[j] in Indices(|w|);
      ModPair(w, pool, s[i], s[j]);
    }
    AscendingIsUnique(RemainderOrder(q), s, Ranking(q));
  }

  function Divisions(w: seq<nat>, pool: nat): (r: seq<nat>)
    requires SumNat(w) > 0
    ensures |r| == |w|
  {
    seq(|w|, i requires 0 <= i < |w| => Quotient(pool * w[i], SumNat(w)))
  }

  function Quotient(a: nat, n: nat): nat
    requires n > 0
  {
    a / n
  }

  lemma DivisionsAreFloors(w: seq<nat>, pool: nat)
    requires w != [] && SumNat(w) > 0
    ensures var q := Shares(AsReals(w), SumNat(w) as real, pool);
            Quotas(q, pool) && Divisions(w, pool) == Floors(q)
  {
    var q := Shares(AsReals(w), SumNat(w) as real, pool);
    AsRealsSum(w);
    SharesAreQuotas(AsReals(w), pool);
    hide Share, SumNat, SumReal, FloorNat;
    forall i | 0 <= i < |w| ensures Divisions(w, pool)[i] == Floors(q)[i] { ShareParts(pool, w[i], SumNat(w)); }
  }

  function ModRanking(w: seq<nat>, pool: nat): (r: seq<nat>)
    requires SumNat(w) > 0
    ensures |r| == |w| && forall k :: 0 <= k < |r| ==> r[k] < |w|
  {
    var r := Sort<nat>(ModOrder(w, pool, SumNat(w)), Indices(|w|));
    assert forall k :: 0 <= k < |r| ==> r[k] in Indices(|w|);
    r
  }

  lemma DivideThenGive(w: seq<nat>, pool: nat)
    requires w != [] && SumNat(w) > 0
    ensures var left := pool - SumNat(Divisions(w, pool));
            0 <= left <= |w| && WorkSplit(w, pool) == GiveOut(Divisions(w, pool), ModRanking(w, pool)[..left])
  {
    DivisionsAreFloors(w, pool);
    ModRankingIsRanking(w, pool);
    LeftoverFits(Shares(AsReals(w), SumNat(w) as real, pool), pool);
  }

  method SplitByWork(w: seq<nat>, pool: nat) returns (amounts: seq<nat>)
    requires w != [] && SumNat(w) > 0
    ensures amounts == WorkSplit(w, pool)
    ensures SumNat(amounts) == pool
  {
    var floors := Divisions(w, pool);
    var out := new nat[|w|](i requires 0 <= i < |w| => floors[i]);
    assert out[..] == floors;
    DivideThenGive(w, pool);
    GiveRemainder(out, ModRanking(w, pool), pool - SumNat(floors));
    amounts := out[..];
    WorkSplitSum(w, pool);
  }

  lemma WorkSplitSum(w: seq<nat>, pool: nat)
    requires w != [] && SumNat(w) > 0
    ensures SumNat(WorkSplit(w, pool)) == pool
  {
    WorkSplitIsFair(w, pool);
  }

  // The remainder goes to the largest fractional parts, one unit each.
  method GiveRemainder(out: array<nat>, frac: seq<nat>, remainder: int)
    requires 0 <= remainder <= |frac|
    requires forall k :: 0 <= k < |frac| ==> frac[k] < out.Length
    modifies out
    ensures out[..] == GiveOut(old(out[..]), frac[..remainder])
  {
    ghost var base := out[..];
    var k, rem := 0, remainder;
    while k < |frac| && rem > 0
      invariant 0 <= k <= remainder && rem == remainder - k
      invariant out[..] == GiveOut(base, frac[..k])
    {
      assert frac[..k + 1][..k] == frac[..k];
      out[frac[k]] := out[frac[k]] + 1;
      k, rem := k + 1, rem - 1;
    }
  }

  // ---- paying a bucket ----

  ghost function Amounts(cfg: Config, l: Ledger, latest: seq<Obs>, payees: seq<Address>, epoch: int): (r: seq<nat>)
    requires payees != []
    ensures |r| == |payees|
  {
    if Armed(cfg.workWeighted, epoch) then
      var w := Weights(cfg, l, latest, payees, epoch);
      SumAtLeast(w);
      WorkSplit(w, POOL)
    else FlatSplit(|payees|, POOL)
  }

  lemma {:induction false} SumAtLeast(w: seq<nat>)
    requires forall i :: 0 <= i < |w| ==> w[i] >= 1
    ensures SumNat(w) >= |w|
  {
    if w != [] { SumAtLeast(w[..|w| - 1]); }
  }

  lemma {:induction false} FlatSum(n: nat, m: nat, pool: nat)
    requires m <= n && n > 0
    ensures var r := pool - pool / n * n;
            SumNat(FlatSplit(n, pool)[..m]) == m * (pool / n) + (if m < r then m else r)
  {
    if m > 0 {
      FlatSum(n, m - 1, pool);
      assert FlatSplit(n, pool)[..m][..m - 1] == FlatSplit(n, pool)[..m - 1];
      OneMore(m, pool / n);
    }
  }

  lemma OneMore(m: nat, x: nat)
    requires m > 0
    ensures m * x == (m - 1) * x + x
  { }

  lemma AmountsSum(cfg: Config, l: Ledger, latest: seq<Obs>, payees: seq<Address>, epoch: int)
    requires payees != []
    ensures SumNat(Amounts(cfg, l, latest, payees, epoch)) == POOL
  {
    var n := |payees|;
    if Armed(cfg.workWeighted, epoch) {
      var w := Weights(cfg, l, latest, payees, epoch);
      SumAtLeast(w);
      WorkSplitIsFair(w, POOL);
    } else {
      FlatSum(n, n, POOL);
      assert FlatSplit(n, POOL)[..n] == FlatSplit(n, POOL);
      assert POOL / n * n <= POOL < POOL / n * n + n;
      assert n * (POOL / n) == POOL / n * n;
    }
  }

  // beneficiaryOf
  function BeneficiaryOf(cfg: Config, l: Ledger, miner: Address, epoch: int): Address {
    if Armed(cfg.poolBeneficiary, epoch) && miner in l.beneficiaries then l.beneficiaries[miner] else miner
  }

  function CreditPayees(cfg: Config, l: Ledger, payees: seq<Address>, amounts: seq<nat>, epoch: int): Ledger
    requires |payees| == |amounts|
  {
    if payees == [] then l
    else
      var n := |payees| - 1;
      var m := CreditPayees(cfg, l, payees[..n], amounts[..n], epoch);
      if amounts[n] > 0 then m.Credit(BeneficiaryOf(cfg, m, payees[n], epoch), amounts[n]) else m
  }

  function Bucket(epoch: int): int { epoch / BUCKET_EPOCHS }

  // Armed, not paid yet, somebody to pay, and the pool has accrued.
  predicate PaysNow(cfg: Config, l: Ledger, obs: seq<Obs>, epoch: int) {
    && Armed(cfg.fieldPayout, epoch)
    && Bucket(epoch) > l.paidBucket
    && Payees(cfg, LatestHeartbeats(cfg, obs, epoch)) != []
    && l.Balance(cfg.Settler()) >= POOL
  }

  ghost function Distribute(cfg: Config, l: Ledger, obs: seq<Obs>, epoch: int): Ledger {
    if !PaysNow(cfg, l, obs, epoch) then l
    else
      var latest := LatestHeartbeats(cfg, obs, epoch);
      var payees := Payees(cfg, latest);
      var amounts := Amounts(cfg, l, latest, payees, epoch);
      CreditPayees(cfg, l.Debit(cfg.Settler(), POOL), payees, amounts, epoch).(paidBucket := Bucket(epoch))
  }
}
