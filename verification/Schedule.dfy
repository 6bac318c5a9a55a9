// The emission curve: what perRoundReward in por/rewards.ts promises of it, and the half-life
// of about ten years that constants.ts states for it.
module Schedule {
  import opened Events
  import opened Ledger
  import opened Emission

  // At five seconds a round.
  const TEN_YEARS: nat := 63_072_000

  function Remaining(emitted: nat, rounds: nat): int { EARNED_CAP - EmittedAfter(emitted, rounds) }

  // 1.1e-8 of what remains, rounded down, but at least the floor and at most all of it.
  lemma RewardIsExact(emitted: nat)
    requires emitted <= EARNED_CAP
    ensures var left, r := EARNED_CAP - emitted, PerRound(emitted);
            && (left <= 1000 ==> r == left)
            && (left > 1000 ==> r >= 1000 && (r == 1000 || 1_000_000_000 * r <= 11 * left))
            && 11 * left < 1_000_000_000 * (r + 1)
  { }

  lemma RewardsNeverRise(emitted: nat, later: nat)
    requires emitted <= later <= EARNED_CAP
    ensures PerRound(later) <= PerRound(emitted)
  { }

  // Emission goes on until the cap is reached exactly, which takes no longer than the floor
  // alone would.
  lemma {:induction false} CapIsReached(emitted: nat, rounds: nat)
    requires emitted <= EARNED_CAP && 1000 * rounds >= EARNED_CAP - emitted
    ensures EmittedAfter(emitted, rounds) == EARNED_CAP
    decreases rounds
  {
    RewardIsExact(emitted);
    if emitted < EARNED_CAP { CapIsReached(emitted + PerRound(emitted), rounds - 1); }
  }

  // ---- how fast it falls ----

  const PLENTY: real := 1_000_000_000_000.0

  function Left(emitted: nat): real { (EARNED_CAP - emitted) as real }

  // Of what is left, at least the share a remains after n rounds; as long as that is plenty,
  // so that the floor does not come in.
  ghost predicate AtLeast(e: nat, n: nat, a: real) {
    a * Left(e) >= PLENTY ==> Remaining(e, n) as real >= a * Left(e)
  }

  // At most the share a remains, but for what rounding down leaves.
  ghost predicate AtMost(e: nat, n: nat, a: real) { Remaining(e, n) as real <= a * Left(e) + n as real }

  // However much has been emitted.
  ghost predicate KeepsBetween(n: nat, a: real, b: real) {
    0.0 <= a <= 1.0 && 0.0 <= b <= 1.0 && forall e: nat :: e <= EARNED_CAP ==> AtLeast(e, n, a) && AtMost(e, n, b)
  }

  lemma RoundByRound(e: nat, n: nat)
    requires e <= EARNED_CAP && n > 0
    ensures Remaining(e, n) == Remaining(e + PerRound(e), n - 1)
  {
    if e == EARNED_CAP { assert PerRound(e) == 0; }
  }

  lemma {:induction false} FallsByAtMost(e: nat, n: nat, low: real, rate: real)
    requires e <= EARNED_CAP && rate >= 0.000_000_011 * Left(e) && low >= PLENTY
    requires Left(e) - n as real * rate >= low
    ensures Remaining(e, n) as real >= Left(e) - n as real * rate
    decreases n
  {
    hide PerRound;
    if n > 0 {
      RewardIsExact(e);
      RoundByRound(e, n);
      var r := PerRound(e);
      OneRate(n as real, rate);
      assert Left(e) >= PLENTY;
      assert r > 1000 && r as real <= rate;
      FallsByAtMost(e + r, n - 1, low, rate);
    }
  }

  lemma OneRate(n: real, rate: real)
    requires n >= 0.0 && rate >= 0.0
    ensures n * rate >= 0.0 && (n - 1.0) * rate == n * rate - rate
  { }

  // One and n times the fraction of x.
  function Grown(x: real, n: real): real { x * (1.0 + n * 0.000_000_011) }

  lemma {:induction false} FallsByAtLeast(e: nat, n: nat)
    requires e <= EARNED_CAP
    ensures Grown(Remaining(e, n) as real, n as real) <= Left(e) + n as real
    ensures EmittedAfter(e, n) <= EARNED_CAP
    decreases n
  {
    hide PerRound, Grown;
    if n > 0 {
      hide EmittedAfter;
      RewardIsExact(e);
      RoundByRound(e, n);
      var r := PerRound(e);
      FallsByAtLeast(e + r, n - 1);
      FallStep(Remaining(e, n) as real, Left(e), r as real, (n - 1) as real);
    } else {
      NothingGrown(Left(e));
    }
  }

  lemma NothingGrown(x: real)
    ensures Grown(x, 0.0) == x
  { }

  lemma FallStep(x: real, left: real, r: real, n: real)
    requires Grown(x, n) <= left - r + n && r > 0.000_000_011 * left - 1.0 && x <= left
    ensures Grown(x, n + 1.0) <= left + (n + 1.0)
  {
    assert x * (1.0 + (n + 1.0) * 0.000_000_011) == x * (1.0 + n * 0.000_000_011) + x * 0.000_000_011;
  }

  lemma Base(n: nat, a: real, b: real)
    requires 0.0 <= a <= 1.0 - n as real * 0.000_000_011 && 1.0 <= b * (1.0 + n as real * 0.000_000_011) &&
               0.0 <= b <= 1.0
    ensures KeepsBetween(n, a, b)
  {
    hide AtLeast, AtMost, EmittedAfter;
    forall e: nat | e <= EARNED_CAP ensures AtLeast(e, n, a) && AtMost(e, n, b) {
      BaseAtLeast(e, n, a);
      BaseAtMost(e, n, b);
    }
  }

  lemma BaseAtLeast(e: nat, n: nat, a: real)
    requires e <= EARNED_CAP && 0.0 <= a <= 1.0 - n as real * 0.000_000_011
    ensures AtLeast(e, n, a)
  {
    hide EmittedAfter, PerRound;
    var rate := 0.000_000_011 * Left(e);
    assert Left(e) - n as real * rate == Left(e) * (1.0 - n as real * 0.000_000_011);
    Product(Left(e), a, 1.0 - n as real * 0.000_000_011);
    if a * Left(e) >= PLENTY {
      assert Left(e) * a == a * Left(e);
      FallsByAtMost(e, n, PLENTY, rate);
      assert Remaining(e, n) as real >= a * Left(e);
    }
  }

  lemma BaseAtMost(e: nat, n: nat, b: real)
    requires e <= EARNED_CAP && 1.0 <= b * (1.0 + n as real * 0.000_000_011) && 0.0 <= b <= 1.0
    ensures AtMost(e, n, b)
  {
    hide EmittedAfter, PerRound;
    FallsByAtLeast(e, n);
    Divided(Remaining(e, n) as real, Left(e), n as real, 1.0 + n as real * 0.000_000_011, b);
  }

  lemma Divided(x: real, left: real, n: real, d: real, b: real)
    requires x >= 0.0 && n >= 0.0 && x * d <= left + n && 1.0 <= b * d && 0.0 <= b <= 1.0
    ensures x <= b * left + n
  {
    Product(x, 1.0, b * d);
    Product(b, x * d, left + n);
    Product(n, b, 1.0);
    calc {
      x;
    <=
      x * (b * d);
    ==
      b * (x * d);
    <=
      b * (left + n);
    ==
      b * left + n * b;
    }
  }

  lemma Product(w: real, a: real, b: real)
    requires w >= 0.0 && a <= b
    ensures w * a <= w * b
  { }

  // What holds of n rounds holds twice over of 2 n; the shares may be rounded outwards.
  lemma Twice(n: nat, a: real, b: real, low: real, high: real)
    requires KeepsBetween(n, a, b) && low <= a * a && b * b <= high && 0.0 <= low <= 1.0 && 0.0 <= high <= 1.0
    ensures KeepsBetween(2 * n, low, high)
  {
    hide AtLeast, AtMost, EmittedAfter;
    forall e: nat | e <= EARNED_CAP ensures AtLeast(e, 2 * n, low) && AtMost(e, 2 * n, high) {
      FallsByAtLeast(e, n);
      var m := EmittedAfter(e, n);
      assert AtLeast(e, n, a) && AtLeast(m, n, a) && AtMost(e, n, b) && AtMost(m, n, b);
      TwiceAtLeast(e, n, a, low);
      TwiceAtMost(e, n, b, high);
    }
  }

  lemma Halfway(e: nat, n: nat)
    requires e <= EARNED_CAP
    ensures var m := EmittedAfter(e, n);
            && Left(e) >= 0.0 && Left(m) >= 0.0
            && Remaining(e, n) as real == Left(m) && Remaining(e, 2 * n) == Remaining(m, n)
  {
    EmittedAfterSplits(e, n, n);
  }

  lemma TwiceAtLeast(e: nat, n: nat, a: real, low: real)
    requires e <= EARNED_CAP && 0.0 <= a <= 1.0 && 0.0 <= low <= a * a
    requires AtLeast(e, n, a) && AtLeast(EmittedAfter(e, n), n, a)
    ensures AtLeast(e, 2 * n, low)
  {
    hide EmittedAfter, PerRound, Left, Remaining;
    Halfway(e, n);
    if low * Left(e) >= PLENTY {
      SharedTwice(Left(e), Left(EmittedAfter(e, n)), Remaining(EmittedAfter(e, n), n) as real, a, low);
    }
  }

  lemma SharedTwice(left: real, mid: real, end: real, a: real, low: real)
    requires left >= 0.0 && 0.0 <= a <= 1.0 && 0.0 <= low <= a * a && low * left >= PLENTY
    requires (a * left >= PLENTY ==> mid >= a * left) && (a * mid >= PLENTY ==> end >= a * mid)
    ensures end >= low * left
  {
    Squared(left, a, low);
    Product(a, a * left, mid);
  }

  lemma Squared(left: real, a: real, low: real)
    requires left >= 0.0 && 0.0 <= a <= 1.0 && 0.0 <= low <= a * a
    ensures low * left <= a * (a * left)
    ensures low * left <= a * left
  {
    Product(left, low, a * a);
    Product(left, 0.0, a);
    Product(left * a, a, 1.0);
    calc {
      low * left;
    <=
      left * (a * a);
    ==
      left * a * a;
    <=
      left * a;
    ==
      a * left;
    }
    assert left * a * a == a * (a * left);
  }

  lemma TwiceAtMost(e: nat, n: nat, b: real, high: real)
    requires e <= EARNED_CAP && 0.0 <= b <= 1.0 && b * b <= high
    requires AtMost(e, n, b) && AtMost(EmittedAfter(e, n), n, b)
    ensures AtMost(e, 2 * n, high)
  {
    hide EmittedAfter, PerRound, Left, Remaining;
    Halfway(e, n);
    SquaredUp(Left(EmittedAfter(e, n)), Left(e), n as real, b, high);
  }

  lemma SquaredUp(mid: real, left: real, n: real, b: real, high: real)
    requires left >= 0.0 && n >= 0.0 && 0.0 <= b <= 1.0 && b * b <= high && mid <= b * left + n
    ensures b * mid + n <= high * left + 2.0 * n
  {
    Product(b, mid, b * left + n);
    Product(left, b * b, high);
    Product(n, b, 1.0);
    calc {
      b * mid;
    <=
      b * (b * left + n);
    ==
      left * (b * b) + n * b;
    <=
      left * high + n;
    }
  }

  // After ten years of rounds half of the pool is left, within half a percent of the whole.
  lemma TenYearsHalve()
    ensures KeepsBetween(TEN_YEARS, 0.495, 0.505)
  {
    hide KeepsBetween;
    var n := 246_375;
    Base(n, 0.99728, 0.9973);
    Twice(n, 0.99728, 0.9973, 0.99456, 0.99461);
    Twice(2 * n, 0.99456, 0.99461, 0.98914, 0.98926);
    Twice(4 * n, 0.98914, 0.98926, 0.97839, 0.97864);
    Twice(8 * n, 0.97839, 0.97864, 0.95724, 0.95774);
    Twice(16 * n, 0.95724, 0.95774, 0.9163, 0.91727);
    Twice(32 * n, 0.9163, 0.91727, 0.8396, 0.84139);
    Twice(64 * n, 0.8396, 0.84139, 0.70492, 0.70794);
    Twice(128 * n, 0.70492, 0.70794, 0.495, 0.505);
  }

  // A network that starts with nothing emitted has paid its settler half of the earned pool
  // ten years later, within one percent of the whole, however its epochs were batched.
  lemma HalfLifeIsTenYears(cfg: Config, l: Ledger)
    requires cfg.masters != [] && l.supply.emitted == 0
    ensures var m := Emit(cfg, l, l.emittedThrough + TEN_YEARS);
            && 0.49 * EARNED_CAP as real < m.supply.emitted as real < 0.51 * EARNED_CAP as real
            && m.Balance(cfg.Settler()) == l.Balance(cfg.Settler()) + m.supply.emitted
  {
    hide EmittedAfter, Emit, PerRound;
    TenYearsHalve();
    EmitKeeps(cfg, l, l.emittedThrough + TEN_YEARS);
    EmitPaysSettler(cfg, l, l.emittedThrough + TEN_YEARS, cfg.Settler());
    assert AtLeast(0, TEN_YEARS, 0.495) && AtMost(0, TEN_YEARS, 0.505);
  }
}
