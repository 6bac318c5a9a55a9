// The gate a subject's claims must pass to be sealed (trustWeightedMedian and cv in field.ts,
// the loop over subjects in runField): the trust-weighted median, the variation, and the
// trust that stands behind the median. The rest of the model takes the gate as a parameter;
// this is the one the program has. Square roots are avoided by comparing squares.
module Gate {
  import opened Events
  import opened Order
  import opened Trust

  const CV_THRESHOLD: real := 0.02
  const TOLERANCE: real := 0.05
  const SUPPORT_THRESHOLD: real := 0.67

  // ---- the trust-weighted median ----

  function Weight(c: Claim): real { c.zti * c.confidence }

  function WeightIf(counts: Claim -> bool, s: seq<Claim>): real {
    if s == [] then 0.0 else (if counts(s[0]) then Weight(s[0]) else 0.0) + WeightIf(counts, s[1..])
  }

  function Everyone(): Claim -> bool { (c: Claim) => true }
  function HasWeight(): Claim -> bool { (c: Claim) => Weight(c) > 0.0 }
  function ByValue(): (Claim, Claim) -> bool { (a: Claim, b: Claim) => a.value < b.value }

  // The value at which the weight first reaches half.
  function Pick(s: seq<Claim>, half: real, before: real): real
    requires s != []
  {
    if before + Weight(s[0]) >= half || |s| == 1 then s[0].value else Pick(s[1..], half, before + Weight(s[0]))
  }

  function WeightedMedian(claims: seq<Claim>): Option<real> {
    var weighted := Filter(HasWeight(), claims);
    if weighted == [] then None else Some(Pick(Sort(ByValue(), weighted), WeightIf(Everyone(), weighted) / 2.0, 0.0))
  }

  ghost predicate ValuesAscend(s: seq<Claim>) { forall i, j :: 0 <= i < j < |s| ==> s[i].value <= s[j].value }

  lemma {:induction false} InsertKeepsWeight(counts: Claim -> bool, x: Claim, s: seq<Claim>)
    ensures WeightIf(counts, Insert(ByValue(), x, s)) == (if counts(x) then Weight(x) else 0.0) + WeightIf(counts, s)
    ensures ValuesAscend(s) ==> ValuesAscend(Insert(ByValue(), x, s))
  {
    hide Weight;
    var r := Insert(ByValue(), x, s);
    if s == [] || x.value < s[0].value {
      assert r[1..] == s;
    } else {
      InsertKeepsWeight(counts, x, s[1..]);
      assert r[1..] == Insert(ByValue(), x, s[1..]);
      if ValuesAscend(s) { AscendFrom(s, x, r); }
    }
  }

  lemma AscendFrom(s: seq<Claim>, x: Claim, r: seq<Claim>)
    requires s != [] && ValuesAscend(s) && s[0].value <= x.value
    requires r != [] && r[0] == s[0] && ValuesAscend(r[1..]) && forall y :: y in r[1..] ==> y == x || y in s[1..]
    ensures ValuesAscend(r)
  {
    forall j | 0 < j < |r| ensures s[0].value <= r[j].value {
      assert r[1..][j - 1] == r[j] && r[j] in r[1..];
      if r[j] != x { var i :| 0 <= i < |s[1..]| && s[1..][i] == r[j]; assert s[i + 1] == r[j]; }
    }
    forall i, j | 0 <= i < j < |r| ensures r[i].value <= r[j].value {
      if i > 0 { assert r[1..][i - 1] == r[i] && r[1..][j - 1] == r[j]; }
    }
  }

  lemma {:induction false} SortKeepsWeight(counts: Claim -> bool, s: seq<Claim>)
    ensures WeightIf(counts, Sort(ByValue(), s)) == WeightIf(counts, s)
    ensures ValuesAscend(Sort(ByValue(), s))
  {
    if s != [] {
      SortKeepsWeight(counts, s[1..]);
      InsertKeepsWeight(counts, s[0], Sort(ByValue(), s[1..]));
    }
  }

  ghost predicate AllWeigh(s: seq<Claim>) { forall c :: c in s ==> Weight(c) > 0.0 }

  lemma {:induction false} WeightIsMonotone(counts: Claim -> bool, s: seq<Claim>)
    requires AllWeigh(s)
    ensures 0.0 <= WeightIf(counts, s) <= WeightIf(Everyone(), s)
    ensures s != [] ==> WeightIf(Everyone(), s) > 0.0
  {
    if s != [] {
      assert s[0] in s;
      WeightIsMonotone(counts, s[1..]);
    }
  }

  lemma {:induction false} NoneCounts(counts: Claim -> bool, s: seq<Claim>)
    requires forall c :: c in s ==> !counts(c)
    ensures WeightIf(counts, s) == 0.0
  {
    if s != [] {
      assert s[0] in s;
      NoneCounts(counts, s[1..]);
    }
  }

  lemma {:induction false} PickIsOne(s: seq<Claim>, half: real, before: real)
    requires s != []
    ensures exists c :: c in s && c.value == Pick(s, half, before)
  {
    if before + Weight(s[0]) >= half || |s| == 1 {
      assert s[0] in s;
    } else {
      PickIsOne(s[1..], half, before + Weight(s[0]));
    }
  }

  function Between(lo: real, hi: real): Claim -> bool { (c: Claim) => lo <= c.value <= hi }

  // What was passed over is not enough to carry the pick beyond hi.
  lemma {:induction false} PickIsAtMost(s: seq<Claim>, half: real, before: real, inside: real, lo: real, hi: real)
    requires s != [] && AllWeigh(s) && ValuesAscend(s) && inside <= before < half
    requires inside + WeightIf(Between(lo, hi), s) > half
    ensures Pick(s, half, before) <= hi
  {
    if s[0].value > hi {
      forall c | c in s ensures !Between(lo, hi)(c) { var i :| 0 <= i < |s| && s[i] == c; }
      NoneCounts(Between(lo, hi), s);
      assert false;
    } else if !(before + Weight(s[0]) >= half || |s| == 1) {
      assert s[0] in s;
      PickIsAtMost(s[1..], half, before + Weight(s[0]), inside + (if Between(lo, hi)(s[0]) then Weight(s[0]) else 0.0),
                   lo, hi);
    }
  }

  // And what is still to come is too much for it to stop below lo.
  lemma {:induction false} PickIsAtLeast(s: seq<Claim>, half: real, before: real, lo: real, hi: real)
    requires s != [] && AllWeigh(s) && ValuesAscend(s) && 0.0 <= before &&
               before + WeightIf(Everyone(), s) == 2.0 * half
    requires s[0].value < lo ==> WeightIf(Between(lo, hi), s) > half
    ensures Pick(s, half, before) >= lo
  {
    if s[0].value >= lo {
      PickIsOne(s, half, before);
      var c :| c in s && c.value == Pick(s, half, before);
      var i :| 0 <= i < |s| && s[i] == c;
    } else {
      assert s[0] in s;
      WeightIsMonotone(Between(lo, hi), s[1..]);
      assert WeightIf(Between(lo, hi), s) == WeightIf(Between(lo, hi), s[1..]);
      assert |s| > 1 && before + Weight(s[0]) < half;
      if |s| > 1 {
        PickIsAtLeast(s[1..], half, before + Weight(s[0]), lo, hi);
      }
    }
  }

  // The median moves only for a majority: if the claims in an interval carry more than half
  // of the weight, then the agreed value lies in that interval, whatever the others say.
  lemma MajorityHoldsTheMedian(claims: seq<Claim>, lo: real, hi: real)
    requires var weighted := Filter(HasWeight(), claims);
             WeightIf(Between(lo, hi), weighted) > WeightIf(Everyone(), weighted) / 2.0
    ensures WeightedMedian(claims).Some? && lo <= WeightedMedian(claims).value <= hi
  {
    hide Pick, Sort;
    var weighted := Filter(HasWeight(), claims);
    var s := Sort(ByValue(), weighted);
    var half := WeightIf(Everyone(), weighted) / 2.0;
    SortKeepsWeight(Between(lo, hi), weighted);
    SortKeepsWeight(Everyone(), weighted);
    assert weighted != [] by { assert WeightIf(Between(lo, hi), []) == 0.0 && WeightIf(Everyone(), []) == 0.0; }
    WeightIsMonotone(Between(lo, hi), s);
    PickIsAtMost(s, half, 0.0, 0.0, lo, hi);
    PickIsAtLeast(s, half, 0.0, lo, hi);
  }

  // ---- the variation ----

  function SumValues(s: seq<Claim>): real { if s == [] then 0.0 else s[0].value + SumValues(s[1..]) }

  function SumSquares(s: seq<Claim>, mean: real): real {
    if s == [] then 0.0 else (s[0].value - mean) * (s[0].value - mean) + SumSquares(s[1..], mean)
  }

  // sqrt(variance) / |mean| < CV_THRESHOLD, and not when the mean is zero.
  predicate Converged(s: seq<Claim>) {
    |s| >= 2 &&
    var mean := SumValues(s) / |s| as real;
    mean != 0.0 && SumSquares(s, mean) / |s| as real < CV_THRESHOLD * CV_THRESHOLD * mean * mean
  }

  // ---- the gate ----

  function Backs(median: real): Claim -> bool {
    (c: Claim) => median == 0.0 || Abs(c.value - median) / Abs(median) <= TOLERANCE
  }

  function ProgramGate(claims: seq<Claim>): Option<Resonance> {
    var median := WeightedMedian(claims);
    if median.None? || !Converged(claims) then None
    else
      var total, support := WeightIf(Everyone(), claims), WeightIf(Backs(median.value), claims);
      if (if total > 0.0 then support / total else 0.0) < SUPPORT_THRESHOLD then None
      else Some(Resonance(median.value, |Filter(Backs(median.value), claims)|))
  }

  // ---- unanimity passes ----

  ghost predicate AllOnes(s: seq<Claim>) {
    forall i :: 0 <= i < |s| ==> s[i].value == 1.0 && s[i].confidence == 1.0 && s[i].zti >= 0.05
  }

  lemma {:induction false} OnesAddUp(s: seq<Claim>)
    requires AllOnes(s)
    ensures SumValues(s) == |s| as real && SumSquares(s, 1.0) == 0.0
    ensures WeightIf(Backs(1.0), s) == WeightIf(Everyone(), s)
    ensures AllWeigh(s)
  {
    if s != [] {
      assert Backs(1.0)(s[0]);
      OnesAddUp(s[1..]);
    }
  }

  lemma {:induction false} OnesAllWeigh(s: seq<Claim>)
    requires AllWeigh(s)
    ensures Filter(HasWeight(), s) == s
  {
    FilterKeepsAll(HasWeight(), s);
  }

  // Three or more readings of 1 with full confidence are sealed, with 1 as the agreed value.
  lemma UnanimityPasses(claims: seq<Claim>)
    requires AllOnes(claims) && |claims| >= MIN_OBSERVATIONS
    ensures ProgramGate(claims).Some? && ProgramGate(claims).value.median == 1.0
  {
    hide WeightedMedian, Converged, WeightIf, Weight;
    OnesMedian(claims);
    OnesConverge(claims);
    OnesAddUp(claims);
    WeightIsMonotone(Everyone(), claims);
  }

  lemma OnesMedian(claims: seq<Claim>)
    requires AllOnes(claims) && claims != []
    ensures WeightedMedian(claims) == Some(1.0)
  {
    hide WeightedMedian, Weight;
    OnesAddUp(claims);
    OnesAllWeigh(claims);
    WeightIsMonotone(Everyone(), claims);
    forall c | c in claims ensures Between(1.0, 1.0)(c) { var i :| 0 <= i < |claims| && claims[i] == c; }
    AllCount(Between(1.0, 1.0), claims);
    MajorityHoldsTheMedian(claims, 1.0, 1.0);
  }

  lemma OnesConverge(claims: seq<Claim>)
    requires AllOnes(claims) && |claims| >= 2
    ensures Converged(claims)
  {
    OnesAddUp(claims);
    assert SumValues(claims) / |claims| as real == 1.0;
    assert SumSquares(claims, 1.0) / |claims| as real == 0.0;
  }

  lemma {:induction false} AllCount(counts: Claim -> bool, s: seq<Claim>)
    requires forall c :: c in s ==> counts(c)
    ensures WeightIf(counts, s) == WeightIf(Everyone(), s)
  {
    if s != [] {
      assert s[0] in s;
      AllCount(counts, s[1..]);
    }
  }

  // ---- exactly what is sealed ----

  function Below(m: real): Claim -> bool { (c: Claim) => c.value < m }
  function UpTo(m: real): Claim -> bool { (c: Claim) => c.value <= m }

  // Of the claims that weigh anything, those below m have less than half of the weight, and
  // those up to m at least half.
  ghost predicate IsMedian(claims: seq<Claim>, m: real) {
    var w := Filter(HasWeight(), claims);
    w != [] && 2.0 * WeightIf(Below(m), w) < WeightIf(Everyone(), w) <= 2.0 * WeightIf(UpTo(m), w)
  }

  lemma {:induction false} PickHalves(s: seq<Claim>, half: real, before: real)
    requires s != [] && AllWeigh(s) && ValuesAscend(s) && before < half <= before + WeightIf(Everyone(), s)
    ensures var m := Pick(s, half, before);
            && m >= s[0].value && before + WeightIf(Below(m), s) < half <= before + WeightIf(UpTo(m), s)
  {
    hide Weight;
    assert s[0] in s;
    var m := Pick(s, half, before);
    if before + Weight(s[0]) >= half || |s| == 1 {
      forall c | c in s ensures !Below(m)(c) { var i :| 0 <= i < |s| && s[i] == c; }
      NoneCounts(Below(m), s);
      WeightIsMonotone(UpTo(m), s[1..]);
      if |s| == 1 { assert s[1..] == []; }
    } else {
      PickHalves(s[1..], half, before + Weight(s[0]));
      assert s[1..][0].value >= s[0].value;
      WeightIsMonotone(Below(m), s[1..]);
    }
  }

  // More claims count, more weight.
  lemma {:induction false} WiderWeighsMore(f: Claim -> bool, g: Claim -> bool, s: seq<Claim>)
    requires AllWeigh(s) && forall c :: f(c) ==> g(c)
    ensures WeightIf(f, s) <= WeightIf(g, s)
  {
    if s != [] {
      assert s[0] in s;
      WiderWeighsMore(f, g, s[1..]);
    }
  }

  lemma MedianIff(claims: seq<Claim>, m: real)
    ensures WeightedMedian(claims) == Some(m) <==> IsMedian(claims, m)
  {
    hide WeightIf, Pick;
    var w := Filter(HasWeight(), claims);
    if w != [] {
      var half := WeightIf(Everyone(), w) / 2.0;
      var s := Sort(ByValue(), w);
      var p := Pick(s, half, 0.0);
      WeightIsMonotone(Everyone(), w);
      SortKeepsWeight(Everyone(), w);
      SortKeepsWeight(Below(p), w);
      SortKeepsWeight(UpTo(p), w);
      PickHalves(s, half, 0.0);
      if m < p { WiderWeighsMore(UpTo(m), Below(p), w); }
      if p < m { WiderWeighsMore(UpTo(p), Below(m), w); }
    }
  }

  // There is a mean other than zero from which the values deviate, in the square mean, by less
  // than two percent of it.
  ghost predicate Agree(s: seq<Claim>) {
    |s| >= 2 && exists mean ::
                  && mean * |s| as real == SumValues(s) && mean != 0.0
                  && SumSquares(s, mean) < 0.0004 * mean * mean * |s| as real
  }

  lemma ConvergedIff(s: seq<Claim>)
    ensures Converged(s) <==> Agree(s)
  {
    if |s| >= 2 {
      var n := |s| as real;
      var mean := SumValues(s) / n;
      assert mean * n == SumValues(s);
      Ratio(SumSquares(s, mean), n, 0.0004 * mean * mean);
      if m :| m * n == SumValues(s) && m != 0.0 && SumSquares(s, m) < 0.0004 * m * m * n { SameMean(m, mean, n); }
    }
  }

  lemma Ratio(a: real, n: real, b: real)
    requires n > 0.0
    ensures a / n < b <==> a < b * n
  { }

  lemma SameMean(a: real, b: real, n: real)
    requires n > 0.0 && a * n == b * n
    ensures a == b
  { }

  // Within five percent of the agreed value; everybody, if that is zero.
  predicate Near(m: real, c: Claim) { m == 0.0 || m - 0.05 * Abs(m) <= c.value <= m + 0.05 * Abs(m) }

  lemma BacksIff(m: real, c: Claim)
    ensures Backs(m)(c) <==> Near(m, c)
  {
    if m != 0.0 { AtMostShare(Abs(c.value - m), Abs(m)); }
  }

  lemma AtMostShare(a: real, b: real)
    requires b > 0.0
    ensures a / b <= 0.05 <==> a <= 0.05 * b
  { }

  // The gate seals exactly the weighted median, when the claims agree to two percent and those
  // within five percent of it carry 67% of the weight; and these are the supporters.
  lemma GateIff(claims: seq<Claim>, r: Resonance)
    ensures ProgramGate(claims) == Some(r)
       <==> && IsMedian(claims, r.median) && Agree(claims) && WeightIf(Everyone(), claims) > 0.0
            && WeightIf(Backs(r.median), claims) >= 0.67 * WeightIf(Everyone(), claims)
            && r.supporters == |Filter(Backs(r.median), claims)|
    ensures forall c :: Backs(r.median)(c) <==> Near(r.median, c)
  {
    hide WeightedMedian, Converged, WeightIf, IsMedian, Agree;
    MedianIff(claims, r.median);
    ConvergedIff(claims);
    var total := WeightIf(Everyone(), claims);
    if total > 0.0 { ShareReaches(WeightIf(Backs(r.median), claims), total); }
    forall c ensures Backs(r.median)(c) <==> Near(r.median, c) { BacksIff(r.median, c); }
  }

  lemma ShareReaches(a: real, b: real)
    requires b > 0.0
    ensures a / b >= 0.67 <==> a >= 0.67 * b
  { }
}
