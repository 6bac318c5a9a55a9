// The sealed work weight of a miner: the median of the masters' latest reports
// (sealedFieldWorkWeights in State.ts).
module WorkWeights {
  import opened Events
  import opened Order
  import opened Heartbeats

  datatype Report = Report(weight: int, observer: string)

  // One master's usable report about a miner: finite and positive, rounded down.
  predicate Reports(o: Obs, miner: Address) { miner in o.minerWork && o.minerWork[miner] > 0.0 }

  function ReportOf(o: Obs, miner: Address): Report
    requires Reports(o, miner)
  {
    Report(o.minerWork[miner].Floor, o.observer)
  }

  function ReportsAbout(latest: seq<Obs>, miner: Address): (r: seq<Report>)
    ensures forall x :: x in r <==> exists o :: o in latest && Reports(o, miner) && x == ReportOf(o, miner)
  {
    if latest == [] then []
    else
      var n := |latest| - 1;
      var before := ReportsAbout(latest[..n], miner);
      assert forall o :: o in latest <==> o in latest[..n] || o == latest[n];
      if Reports(latest[n], miner) then before + [ReportOf(latest[n], miner)] else before
  }

  // By weight; the observer only separates equal weights, which the median cannot see.
  function ReportOrder(): (Report, Report) -> bool {
    (a: Report, b: Report) => a.weight < b.weight || (a.weight == b.weight && Before(a.observer, b.observer))
  }

  lemma ReportOrderIsStrict()
    ensures Strict(ReportOrder())
  {
    forall a: Report ensures !ReportOrder()(a, a) { BeforeIsStrict(a.observer, a.observer); }
    forall a: Report, b: Report, c: Report | ReportOrder()(a, b) && ReportOrder()(b, c) ensures ReportOrder()(a, c) {
      if a.weight == b.weight == c.weight { BeforeIsTransitive(a.observer, b.observer, c.observer); }
    }
  }

  // Integer median: the middle entry, or the rounded mean of the two middle ones.
  function Median(sorted: seq<Report>): int
    requires sorted != []
  {
    var mid := |sorted| / 2;
    if |sorted| % 2 == 1 then sorted[mid].weight
    else (sorted[mid - 1].weight + sorted[mid].weight) / 2
  }

  function WorkWeight(latest: seq<Obs>, miner: Address): Option<nat> {
    var sorted := Sort(ReportOrder(), ReportsAbout(latest, miner));
    if sorted == [] then None
    else Some(if Median(sorted) > 1 then Median(sorted) else 1)
  }

  lemma {:induction false} ReportsAreComparable(latest: seq<Obs>, miner: Address)
    requires OneEach(latest)
    ensures Comparable(ReportOrder(), ReportsAbout(latest, miner))
    ensures forall x :: x in ReportsAbout(latest, miner) ==> exists o :: o in latest && o.observer == x.observer
    ensures forall i, j :: 0 <= i < j < |ReportsAbout(latest, miner)| ==>
              ReportsAbout(latest, miner)[i].observer != ReportsAbout(latest, miner)[j].observer
  {
    if latest != [] {
      var n := |latest| - 1;
      ReportsAreComparable(latest[..n], miner);
      var before := ReportsAbout(latest[..n], miner);
      var r := ReportsAbout(latest, miner);
      forall i, j | 0 <= i < j < |r| ensures r[i].observer != r[j].observer {
        if j == |before| {
          assert before[i] in before;
          var o :| o in latest[..n] && o.observer == before[i].observer;
        }
      }
      forall i, j | 0 <= i < j < |r| ensures ReportOrder()(r[i], r[j]) || ReportOrder()(r[j], r[i]) {
        BeforeIsStrict(r[i].observer, r[j].observer);
      }
    }
  }

  // The weight is a function of which heartbeats are the latest, not of their order in the pool.
  lemma WorkWeightIgnoresOrder(latest: seq<Obs>, other: seq<Obs>, miner: Address)
    requires OneEach(latest) && OneEach(other)
    requires forall o :: o in latest <==> o in other
    ensures WorkWeight(latest, miner) == WorkWeight(other, miner)
  {
    ReportOrderIsStrict();
    ReportsAreComparable(latest, miner);
    ReportsAreComparable(other, miner);
    SortIsCanonical(ReportOrder(), ReportsAbout(latest, miner), ReportsAbout(other, miner));
  }

  // ---- a majority cannot be outvoted ----

  ghost function Within(s: seq<Report>, lo: int, hi: int): set<Report> {
    set r | r in s && lo <= r.weight <= hi
  }

  lemma {:induction false} WithinAtMost(s: seq<Report>, lo: int, hi: int)
    ensures |Within(s, lo, hi)| <= |s|
  {
    if s == [] {
      assert Within(s, lo, hi) == {};
    } else {
      var n := |s| - 1;
      WithinAtMost(s[..n], lo, hi);
      var w := Within(s[..n], lo, hi);
      if lo <= s[n].weight <= hi {
        assert Within(s, lo, hi) == w + {s[n]};
      } else {
        assert Within(s, lo, hi) == w;
      }
    }
  }

  lemma WithinSuffix(s: seq<Report>, k: nat, lo: int, hi: int)
    requires k <= |s| && forall i :: 0 <= i < k ==> s[i].weight < lo || s[i].weight > hi
    ensures |Within(s, lo, hi)| <= |s| - k
  {
    assert Within(s, lo, hi) == Within(s[k..], lo, hi) by {
      forall r | r in Within(s, lo, hi) ensures r in s[k..] {
        var i :| 0 <= i < |s| && s[i] == r;
        assert s[k..][i - k] == r;
      }
    }
    WithinAtMost(s[k..], lo, hi);
  }

  lemma WithinPrefix(s: seq<Report>, k: nat, lo: int, hi: int)
    requires k <= |s| && forall i :: k <= i < |s| ==> s[i].weight < lo || s[i].weight > hi
    ensures |Within(s, lo, hi)| <= k
  {
    assert Within(s, lo, hi) == Within(s[..k], lo, hi) by {
      forall r | r in Within(s, lo, hi) ensures r in s[..k] {
        var i :| 0 <= i < |s| && s[i] == r;
        assert s[..k][i] == r;
      }
    }
    WithinAtMost(s[..k], lo, hi);
  }

  // If more than half of a miner's reports lie in an interval of positive integers, so does its weight.
  lemma MajorityDecides(latest: seq<Obs>, miner: Address, lo: int, hi: int)
    requires OneEach(latest) && 1 <= lo
    requires 2 * |Within(ReportsAbout(latest, miner), lo, hi)| > |ReportsAbout(latest, miner)|
    ensures WorkWeight(latest, miner).Some? && lo <= WorkWeight(latest, miner).value <= hi
  {
    var reports := ReportsAbout(latest, miner);
    var s := Sort(ReportOrder(), reports);
    ReportOrderIsStrict();
    ReportsAreComparable(latest, miner);
    SortAscends(ReportOrder(), reports);
    assert Within(s, lo, hi) == Within(reports, lo, hi);
    MedianIsWithin(s, lo, hi);
  }

  lemma MedianIsWithin(s: seq<Report>, lo: int, hi: int)
    requires Ascending(ReportOrder(), s)
    requires 2 * |Within(s, lo, hi)| > |s|
    ensures s != [] && lo <= Median(s) <= hi
  {
    WithinAtMost(s, lo, hi);
    var mid := |s| / 2;
    MiddleIsWithin(s, mid, lo, hi);
    if |s| % 2 == 0 { MiddleIsWithin(s, mid - 1, lo, hi); }
  }

  lemma MiddleIsWithin(s: seq<Report>, k: nat, lo: int, hi: int)
    requires Ascending(ReportOrder(), s) && k < |s|
    requires 2 * k == |s| || 2 * k == |s| - 1 || 2 * k == |s| - 2
    requires 2 * |Within(s, lo, hi)| > |s|
    ensures lo <= s[k].weight <= hi
  {
    if s[k].weight < lo {
      forall i | 0 <= i < k + 1 ensures s[i].weight < lo { assert i < k ==> ReportOrder()(s[i], s[k]); }
      WithinSuffix(s, k + 1, lo, hi);
    }
    if s[k].weight > hi {
      forall i | k <= i < |s| ensures s[i].weight > hi { assert k < i ==> ReportOrder()(s[k], s[i]); }
      WithinPrefix(s, k, lo, hi);
    }
  }
}
