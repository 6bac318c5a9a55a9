// What the field payout pays, said without its own functions: by the masters' reports, the
// anchors and the routes that are set (distributeFieldParticipation, sealedFieldWorkWeights,
// bestAnchorZti and beneficiaryOf in State.ts), and when an epoch pays it.
module Payouts {
  import opened Events
  import opened Order
  import opened Apportion
  import opened Heartbeats
  import opened WorkWeights
  import opened Seats
  import opened Ledger
  import Emission
  import opened FieldPayout
  import opened Drain
  import opened Money
  import opened Laws
  import opened Trust
  import opened Tenure
  import opened Node
  import opened Clock

  // ---- the middle of the reports ----

  // What the masters' newest heartbeats report of a miner: floors of finite positive numbers.
  ghost function ReportSet(latest: seq<Obs>, x: Address): set<Report> {
    set o | o in latest && x in o.minerWork && o.minerWork[x] > 0.0 :: Report(o.minerWork[x].Floor, o.observer)
  }

  ghost function Lighter(s: set<Report>, w: int): set<Report> { set r | r in s && r.weight < w }
  ghost function Heavier(s: set<Report>, w: int): set<Report> { set r | r in s && r.weight > w }

  // Fewer than half are lighter, and at least half are no heavier; and the other way round.
  ghost predicate LowerMiddle(s: set<Report>, w: int) { 2 * |Lighter(s, w)| < |s| <= 2 * (|s| - |Heavier(s, w)|) }
  ghost predicate UpperMiddle(s: set<Report>, w: int) { 2 * |Heavier(s, w)| < |s| <= 2 * (|s| - |Lighter(s, w)|) }

  // The mean of the two middle reports rounded down, at least 1; without reports, 10.
  ghost predicate MiddleWeight(latest: seq<Obs>, x: Address, w: nat) {
    var s := ReportSet(latest, x);
    if s == {} then w == 10
    else
      exists lo, hi ::
        LowerMiddle(s, lo) && UpperMiddle(s, hi) && w == (if (lo + hi) / 2 > 1 then (lo + hi) / 2 else 1)
  }

  ghost predicate MostLieIn(s: set<Report>, lo: int, hi: int) { 2 * |set r | r in s && lo <= r.weight <= hi| > |s| }

  // A majority of the reports that lie in an interval of positive integers decides.
  ghost predicate HeedsMajorities(latest: seq<Obs>, x: Address, w: nat) {
    forall lo, hi :: 1 <= lo && MostLieIn(ReportSet(latest, x), lo, hi) ==> lo <= w <= hi
  }

  lemma ReportsAreTheSet(latest: seq<Obs>, x: Address)
    ensures forall r :: r in ReportsAbout(latest, x) <==> r in ReportSet(latest, x)
  {
    forall r | r in ReportsAbout(latest, x) ensures r in ReportSet(latest, x) {
      var o :| o in latest && Reports(o, x) && r == ReportOf(o, x);
    }
    forall r | r in ReportSet(latest, x) ensures r in ReportsAbout(latest, x) {
      var o :| o in latest && x in o.minerWork && o.minerWork[x] > 0.0 && r == Report(o.minerWork[x].Floor, o.observer);
      assert Reports(o, x) && r == ReportOf(o, x);
    }
  }

  ghost function Elems(s: seq<Report>): set<Report> { set r | r in s }

  lemma {:induction false} ElemsCount(s: seq<Report>)
    requires Ascending(ReportOrder(), s)
    ensures |Elems(s)| == |s|
  {
    if s == [] {
      assert Elems(s) == {};
    } else {
      var n := |s| - 1;
      ElemsCount(s[..n]);
      assert Elems(s) == Elems(s[..n]) + {s[n]};
      forall i | 0 <= i < n ensures s[i] != s[n] {
        assert ReportOrder()(s[i], s[n]);
        ReportOrderIsStrict();
      }
    }
  }

  lemma SortedCounts(s: seq<Report>, k: nat)
    requires Ascending(ReportOrder(), s) && k < |s|
    ensures |Lighter(Elems(s), s[k].weight)| <= k && |Heavier(Elems(s), s[k].weight)| <= |s| - 1 - k
    ensures |Elems(s)| == |s|
  {
    ElemsCount(s);
    forall i | 0 <= i < |s| ensures (i <= k ==> s[i].weight <= s[k].weight) && (i >= k ==> s[i].weight >= s[k].weight) {
      if i < k { assert ReportOrder()(s[i], s[k]); } else if i > k { assert ReportOrder()(s[k], s[i]); }
    }
    assert Lighter(Elems(s), s[k].weight) <= Elems(s[..k]) by {
      forall r | r in Lighter(Elems(s), s[k].weight) ensures r in Elems(s[..k]) {
        var i :| 0 <= i < |s| && s[i] == r;
        assert s[..k][i] == r;
      }
    }
    assert Heavier(Elems(s), s[k].weight) <= Elems(s[k + 1..]) by {
      forall r | r in Heavier(Elems(s), s[k].weight) ensures r in Elems(s[k + 1..]) {
        var i :| 0 <= i < |s| && s[i] == r;
        assert s[k + 1..][i - k - 1] == r;
      }
    }
    ElemsCount(s[..k]);
    ElemsCount(s[k + 1..]);
    SubsetCount(Lighter(Elems(s), s[k].weight), Elems(s[..k]));
    SubsetCount(Heavier(Elems(s), s[k].weight), Elems(s[k + 1..]));
  }

  lemma MedianIsMiddle(s: seq<Report>)
    requires Ascending(ReportOrder(), s) && s != []
    ensures LowerMiddle(Elems(s), s[(|s| - 1) / 2].weight) && UpperMiddle(Elems(s), s[|s| / 2].weight)
    ensures Median(s) == (s[(|s| - 1) / 2].weight + s[|s| / 2].weight) / 2
  {
    hide Elems, Lighter, Heavier;
    SortedCounts(s, |s| / 2);
    SortedCounts(s, (|s| - 1) / 2);
  }

  // The sealed work weight, or 10 without one, is the middle of the reports and heeds
  // majorities.
  lemma WorkWeightIsMiddle(latest: seq<Obs>, x: Address)
    requires OneEach(latest)
    ensures var sealed_ := WorkWeight(latest, x);
            var w := if sealed_.Some? then sealed_.value else LIVENESS_WEIGHT;
            w >= 1 && MiddleWeight(latest, x, w) && HeedsMajorities(latest, x, w)
  {
    hide ReportSet, LowerMiddle, UpperMiddle, Median, MostLieIn;
    var reports := ReportsAbout(latest, x);
    var s := Sort(ReportOrder(), reports);
    ReportsAreTheSet(latest, x);
    ReportOrderIsStrict();
    ReportsAreComparable(latest, x);
    SortAscends(ReportOrder(), reports);
    assert Elems(s) == ReportSet(latest, x);
    if s != [] {
      assert s[0] in ReportSet(latest, x);
      MedianIsMiddle(s);
    } else {
      assert ReportSet(latest, x) == {};
    }
    forall lo, hi | 1 <= lo && MostLieIn(ReportSet(latest, x), lo, hi)
      ensures WorkWeight(latest, x).Some? && lo <= WorkWeight(latest, x).value <= hi
    {
      MostDecide(latest, x, lo, hi);
    }
  }

  lemma MostDecide(latest: seq<Obs>, x: Address, lo: int, hi: int)
    requires OneEach(latest) && 1 <= lo && MostLieIn(ReportSet(latest, x), lo, hi)
    ensures WorkWeight(latest, x).Some? && lo <= WorkWeight(latest, x).value <= hi
  {
    hide ReportSet, WorkWeight;
    var reports := ReportsAbout(latest, x);
    var s := Sort(ReportOrder(), reports);
    ReportsAreTheSet(latest, x);
    ReportOrderIsStrict();
    ReportsAreComparable(latest, x);
    SortAscends(ReportOrder(), reports);
    ElemsCount(s);
    assert Elems(s) == ReportSet(latest, x);
    assert Within(reports, lo, hi) == set r | r in ReportSet(latest, x) && lo <= r.weight <= hi;
    MajorityDecides(latest, x, lo, hi);
  }

  // ---- what an anchor makes of it ----

  ghost predicate IsBest(seats: SeatMap, a: Address, best: real) {
    && best >= 0.0
    && (forall id :: OwnedBy(seats, id, a) ==> seats[id].zti <= best)
    && (best > 0.0 ==> exists id :: OwnedBy(seats, id, a) && seats[id].zti == best)
  }

  // Times one plus the standing, with the standing rounded to four digits and the product
  // rounded down, but at least 1.
  ghost predicate ScaledBy(w: nat, best: real, r: nat) {
    if best <= 0.0 then r == w
    else
      && r >= 1
      && w as real * (1.0 + best - 0.00005) - 1.0 < r as real
      && (r == 1 || r as real <= w as real * (1.0 + best + 0.00005))
  }

  lemma AnchorScalesBy(w: nat, best: real)
    ensures ScaledBy(w, best, AnchorScaled(w, best))
  {
    if best > 0.0 {
      var k := Round(best * ANCHOR_BONUS as real);
      assert best * 10000.0 - 0.5 <= k as real <= best * 10000.0 + 0.5;
      assert k >= 0;
      ScaleBracket(w, k, best);
    }
  }

  lemma ScaleBracket(w: nat, k: nat, best: real)
    requires best * 10000.0 - 0.5 <= k as real <= best * 10000.0 + 0.5
    ensures w * (WEIGHT_SCALE + k) >= 0
    ensures var q := w * (WEIGHT_SCALE + k) / WEIGHT_SCALE;
            w as real * (1.0 + best - 0.00005) - 1.0 < q as real <= w as real * (1.0 + best + 0.00005)
  {
    var product := w * (WEIGHT_SCALE + k);
    var c := 1.0 + k as real / 10000.0;
    assert 10000.0 + k as real == c * 10000.0;
    assert product as real == w as real * (10000.0 + k as real);
    Regroup(w as real, c);
    FloorBracket(product, w as real * c);
    Bracket(w as real, 1.0 + best - 0.00005, c, 1.0 + best + 0.00005, (product / WEIGHT_SCALE) as real);
  }

  lemma Bracket(w: real, low: real, c: real, high: real, q: real)
    requires w >= 0.0 && low <= c <= high && w * c - 1.0 < q <= w * c
    ensures w * low - 1.0 < q <= w * high
  {
    Product(w, low, c);
    Product(w, c, high);
  }

  lemma Regroup(w: real, c: real)
    ensures w * (c * 10000.0) == w * c * 10000.0
  { }

  lemma FloorBracket(product: nat, x: real)
    requires product as real == x * 10000.0
    ensures x - 1.0 < (product / WEIGHT_SCALE) as real <= x
  {
    var q := product / WEIGHT_SCALE;
    assert q * 10000 <= product < q * 10000 + 10000;
  }

  lemma Product(w: real, a: real, b: real)
    requires w >= 0.0 && a <= b
    ensures w * a <= w * b
  { }

  // The weight a payee is paid by.
  ghost predicate IsWeight(cfg: Config, l: Ledger, latest: seq<Obs>, x: Address, epoch: int, w: nat) {
    exists base: nat ::
      && MiddleWeight(latest, x, base) && HeedsMajorities(latest, x, base)
      && if Armed(cfg.anchorWeight, epoch) then (exists best :: IsBest(l.seats, x, best) && ScaledBy(base, best, w))
         else w == base
  }

  lemma WeightOfIsWeight(cfg: Config, l: Ledger, latest: seq<Obs>, x: Address, epoch: int)
    requires OneEach(latest)
    ensures IsWeight(cfg, l, latest, x, epoch, WeightOf(cfg, l, latest, x, epoch))
  {
    hide MiddleWeight, HeedsMajorities, IsBest, ScaledBy, AnchorScaled;
    WorkWeightIsMiddle(latest, x);
    var sealed_ := WorkWeight(latest, x);
    var base := if sealed_.Some? then sealed_.value else LIVENESS_WEIGHT;
    var best := BestOwned(l.seats, x);
    assert IsBest(l.seats, x, best) by { BestOwnedIsBest(l.seats, x); }
    AnchorScalesBy(base, best);
  }

  lemma BestOwnedIsBest(seats: SeatMap, a: Address)
    ensures IsBest(seats, a, BestOwned(seats, a))
  {
    BestIsBest(seats, a, BestOwned(seats, a));
  }

  // ---- where the money goes ----

  // The account a miner's pay is routed to: the one it has named, once that is armed.
  predicate RoutedTo(cfg: Config, l: Ledger, x: Address, epoch: int, a: Address) {
    if Armed(cfg.poolBeneficiary, epoch) && x in l.beneficiaries then a == l.beneficiaries[x] else a == x
  }

  function CreditsFor(cfg: Config, l: Ledger, payees: seq<Address>, amounts: seq<nat>, epoch: int, a: Address): nat
    requires |payees| == |amounts|
  {
    if payees == [] then 0
    else
      var n := |payees| - 1;
      CreditsFor(cfg, l, payees[..n], amounts[..n], epoch, a)
        + (if RoutedTo(cfg, l, payees[n], epoch, a) then amounts[n] else 0)
  }

  lemma {:induction false} OwedIsCredits(cfg: Config, l: Ledger, payees: seq<Address>, amounts: seq<nat>, epoch: int,
                                         a: Address)
    requires |payees| == |amounts|
    ensures OwedTo(cfg, l, payees, amounts, epoch, a) == CreditsFor(cfg, l, payees, amounts, epoch, a)
  {
    if payees != [] { OwedIsCredits(cfg, l, payees[..|payees| - 1], amounts[..|payees| - 1], epoch, a); }
  }

  // ---- a paid bucket ----

  // One heartbeat a master, each its newest of those 24 to 29 epochs old, and none missing.
  ghost predicate SpeakFor(cfg: Config, obs: seq<Obs>, epoch: int, latest: seq<Obs>) {
    && (forall o :: Heartbeats.Counts(cfg, o, epoch)
               <==> o.subject == HEARTBEAT && epoch - 29 <= o.timestamp / 5000 <= epoch - 24
                    && cfg.addressOf(o.observer) in cfg.masters)
    && OneEach(latest)
    && (forall o :: o in latest ==> IsLatest(cfg, obs, epoch, o))
    && (forall o :: o in obs && Heartbeats.Counts(cfg, o, epoch) ==> HasObserver(latest, o.observer))
  }

  ghost predicate Eligible(cfg: Config, latest: seq<Obs>, a: Address) {
    MayBePaid(cfg, a) && exists o :: o in latest && a in o.vouched
  }

  // Who is paid how much and by what weight.
  datatype Payment = Payment(payees: seq<Address>, weights: seq<nat>, amounts: seq<nat>)

  ghost predicate Lists(cfg: Config, latest: seq<Obs>, p: Payment) {
    && Ascending(ByName(), p.payees) && 0 < |p.payees| <= MAX_PAYEES
    && (forall a :: a in p.payees ==> Eligible(cfg, latest, a))
    && (forall a :: Eligible(cfg, latest, a) ==> a in p.payees || |p.payees| == MAX_PAYEES)
  }

  // By weight when that is armed: the pool exactly, within one unit of each share, never less
  // for a larger weight. Otherwise all alike up to one unit.
  ghost predicate IsFair(cfg: Config, epoch: int, p: Payment) {
    && |p.weights| == |p.amounts| == |p.payees| && SumNat(p.amounts) == POOL
    && if Armed(cfg.workWeighted, epoch) then
         && SumNat(p.weights) > 0
         && (forall i :: 0 <= i < |p.amounts| ==>
               var share := POOL as real * p.weights[i] as real / SumNat(p.weights) as real;
               share - 1.0 < p.amounts[i] as real < share + 1.0)
         && (forall i, j :: 0 <= i < |p.amounts| && 0 <= j < |p.amounts| && p.weights[i] > p.weights[j] ==>
               p.amounts[i] >= p.amounts[j])
       else forall i, j :: 0 <= i < |p.amounts| && 0 <= j < |p.amounts| ==> p.amounts[i] <= p.amounts[j] + 1
  }

  ghost predicate Paid(cfg: Config, l: Ledger, m: Ledger, latest: seq<Obs>, epoch: int, p: Payment) {
    && Lists(cfg, latest, p) && IsFair(cfg, epoch, p)
    && (forall i :: 0 <= i < |p.payees| ==> IsWeight(cfg, l, latest, p.payees[i], epoch, p.weights[i]))
    && m.paidBucket == epoch / BUCKET_EPOCHS
    && (forall a :: m.Balance(a) == l.Balance(a) - (if a == cfg.Settler() then POOL else 0)
                                    + CreditsFor(cfg, l, p.payees, p.amounts, epoch, a))
  }

  // A bucket is paid: it is armed, the bucket is new, the pool has accrued, and there is
  // somebody to pay.
  ghost predicate MustPay(cfg: Config, l: Ledger, latest: seq<Obs>, epoch: int) {
    && Armed(cfg.fieldPayout, epoch) && epoch / BUCKET_EPOCHS > l.paidBucket
    && l.Balance(cfg.Settler()) >= POOL && exists a :: Eligible(cfg, latest, a)
  }

  lemma LatestSpeak(cfg: Config, obs: seq<Obs>, epoch: int)
    ensures SpeakFor(cfg, obs, epoch, LatestHeartbeats(cfg, obs, epoch))
  {
    LatestAreLatest(cfg, obs, epoch);
  }

  lemma PaysNowIff(cfg: Config, l: Ledger, obs: seq<Obs>, epoch: int)
    ensures PaysNow(cfg, l, obs, epoch) <==> MustPay(cfg, l, LatestHeartbeats(cfg, obs, epoch), epoch)
  {
    hide LatestHeartbeats, Payees;
    var latest := LatestHeartbeats(cfg, obs, epoch);
    PayeesAreProper(cfg, latest);
    HasElement(Payees(cfg, latest));
    if a :| Eligible(cfg, latest, a) {
      var o :| o in latest && a in o.vouched;
      assert a in Payees(cfg, latest) || |Payees(cfg, latest)| == MAX_PAYEES;
    }
    if a :| a in Payees(cfg, latest) { assert Eligible(cfg, latest, a); }
  }

  lemma AmountsAreFair(cfg: Config, l: Ledger, latest: seq<Obs>, payees: seq<Address>, epoch: int)
    requires payees != []
    ensures IsFair(cfg, epoch,
                   Payment(payees, Weights(cfg, l, latest, payees, epoch), Amounts(cfg, l, latest, payees, epoch)))
  {
    hide WorkSplit, WeightOf;
    var w, amounts := Weights(cfg, l, latest, payees, epoch), Amounts(cfg, l, latest, payees, epoch);
    AmountsSum(cfg, l, latest, payees, epoch);
    if Armed(cfg.workWeighted, epoch) {
      SumAtLeast(w);
      WorkSplitIsFair(w, POOL);
    }
  }

  // What the payout does: when it must, it pays every eligible miner - or the first 64 - its
  // share by the middle of its reports and its anchor, to the account it has named; and when
  // it need not, it changes nothing.
  lemma DistributePays(cfg: Config, l: Ledger, obs: seq<Obs>, epoch: int)
    ensures exists latest :: SpeakFor(cfg, obs, epoch, latest)
              && if MustPay(cfg, l, latest, epoch)
                 then exists p :: Paid(cfg, l, Distribute(cfg, l, obs, epoch), latest, epoch, p)
                 else Distribute(cfg, l, obs, epoch) == l
  {
    hide LatestHeartbeats, Payees, Weights, Amounts, IsWeight, IsFair, MustPay, SpeakFor, CreditsFor, OwedTo;
    var latest := LatestHeartbeats(cfg, obs, epoch);
    LatestSpeak(cfg, obs, epoch);
    PaysNowIff(cfg, l, obs, epoch);
    if PaysNow(cfg, l, obs, epoch) {
      var payees := Payees(cfg, latest);
      var p := Payment(payees, Weights(cfg, l, latest, payees, epoch), Amounts(cfg, l, latest, payees, epoch));
      AmountsAreFair(cfg, l, latest, payees, epoch);
      PaidParts(cfg, l, obs, epoch, p);
      assert Paid(cfg, l, Distribute(cfg, l, obs, epoch), latest, epoch, p);
    } else {
      assert Distribute(cfg, l, obs, epoch) == l;
    }
  }

  lemma PaidParts(cfg: Config, l: Ledger, obs: seq<Obs>, epoch: int, p: Payment)
    requires PaysNow(cfg, l, obs, epoch) && p.payees == Payees(cfg, LatestHeartbeats(cfg, obs, epoch))
    requires p.weights == Weights(cfg, l, LatestHeartbeats(cfg, obs, epoch), p.payees, epoch)
    requires p.amounts == Amounts(cfg, l, LatestHeartbeats(cfg, obs, epoch), p.payees, epoch)
    ensures var latest, m := LatestHeartbeats(cfg, obs, epoch), Distribute(cfg, l, obs, epoch);
            && Lists(cfg, latest, p) && m.paidBucket == epoch / BUCKET_EPOCHS
            && (forall i :: 0 <= i < |p.payees| ==> IsWeight(cfg, l, latest, p.payees[i], epoch, p.weights[i]))
            && (forall a :: m.Balance(a) == l.Balance(a) - (if a == cfg.Settler() then POOL else 0)
                                            + CreditsFor(cfg, l, p.payees, p.amounts, epoch, a))
  {
    hide LatestHeartbeats, Payees, Amounts, WeightOf, IsWeight, CreditPayees, CreditsFor, OwedTo;
    var latest, m := LatestHeartbeats(cfg, obs, epoch), Distribute(cfg, l, obs, epoch);
    PayeesAreProper(cfg, latest);
    assert OneEach(latest) by { LatestAreLatest(cfg, obs, epoch); }
    forall i | 0 <= i < |p.payees| ensures IsWeight(cfg, l, latest, p.payees[i], epoch, p.weights[i]) {
      WeightOfIsWeight(cfg, l, latest, p.payees[i], epoch);
    }
    forall a
      ensures m.Balance(a) == l.Balance(a) - (if a == cfg.Settler() then POOL else 0)
                              + CreditsFor(cfg, l, p.payees, p.amounts, epoch, a)
    {
      PayoutGivesEachItsAmount(cfg, l, obs, epoch, a);
      OwedIsCredits(cfg, l, p.payees, p.amounts, epoch, a);
    }
  }

  // Two payees whose reports lie, by majority, in intervals one above the other are paid in
  // that order, while anchors do not count.
  lemma PaidInOrder(cfg: Config, l: Ledger, m: Ledger, latest: seq<Obs>, epoch: int, p: Payment, i: nat, j: nat,
                    lo: int,
                    mid: int, hi: int, top: int)
    requires Paid(cfg, l, m, latest, epoch, p) && Armed(cfg.workWeighted, epoch) && !Armed(cfg.anchorWeight, epoch)
    requires i < |p.payees| && j < |p.payees| && 1 <= lo && mid < hi && 1 <= hi
    requires MostLieIn(ReportSet(latest, p.payees[i]), lo, mid) && MostLieIn(ReportSet(latest, p.payees[j]), hi, top)
    ensures p.amounts[i] <= p.amounts[j]
  {
    hide ReportSet, MiddleWeight, MostLieIn;
    assert IsWeight(cfg, l, latest, p.payees[i], epoch, p.weights[i]);
    assert IsWeight(cfg, l, latest, p.payees[j], epoch, p.weights[j]);
    assert lo <= p.weights[i] <= mid && hi <= p.weights[j] <= top;
  }

  // ---- an epoch ----

  // What an epoch does to balances after its drain: first all that it emits goes to the
  // settler, then the payout, if one must be made, is paid from there.
  lemma EpochPays(cfg: Config, n: Node, epoch: int)
    ensures var d, m := DrainAll(cfg, n.ledger, Due(n.txPool, epoch), epoch).ledger, Process(cfg, n, epoch).ledger;
            exists l: Ledger, latest ::
              && SpeakFor(cfg, n.obsPool, epoch, latest)
              && d.supply.emitted <= l.supply.emitted == m.supply.emitted
              && (forall a :: l.Balance(a) == d.Balance(a)
                                + (if a == cfg.Settler() then l.supply.emitted - d.supply.emitted else 0))
              && l.seats == d.seats && l.beneficiaries == d.beneficiaries && l.paidBucket == d.paidBucket
              && if MustPay(cfg, l, latest, epoch) then exists p :: Paid(cfg, l, m, latest, epoch, p) else m == l
  {
    hide DrainAll, TrustStep, Distribute, Emission.EmitRounds, KeysStep, StillPooled, StillYoung, Due, Registry,
      MustPay,
      SpeakFor, Paid;
    var due := Due(n.txPool, epoch);
    var d := DrainAll(cfg, n.ledger, due, epoch);
    var e := Emission.Emit(cfg, d.ledger, epoch);
    var t := TrustStep(cfg, n.trust, d.applied, n.obsPool, epoch);
    var l := SealRegistry(cfg, e, t, epoch);
    var m := Process(cfg, n, epoch).ledger;
    assert m == Distribute(cfg, l, n.obsPool, epoch);
    Emission.EmitKeeps(cfg, d.ledger, epoch);
    forall a
      ensures l.Balance(a) == d.ledger.Balance(a)
                              + (if a == cfg.Settler() then l.supply.emitted - d.ledger.supply.emitted else 0)
    {
      Emission.EmitPaysSettler(cfg, d.ledger, epoch, a);
      assert l.Balance(a) == e.Balance(a);
    }
    Emission.EmitPaysSettler(cfg, d.ledger, epoch, cfg.Settler());
    DistributeKeepsEmission(cfg, l, n.obsPool, epoch);
    DistributePays(cfg, l, n.obsPool, epoch);
  }
}
