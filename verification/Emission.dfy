// Base emission (emitBaseThrough in State.ts, perRoundReward in por/rewards.ts).
module Emission {
  import opened Events
  import opened Ledger

  // MAX_SUPPLY_UZIR * EARNED_SHARE: 59% of 28.7 billion ZIR.
  const EARNED_CAP: nat := 16_933_000_000_000_000
  const MIN_ROUND_REWARD: nat := 1000

  // max(floor, 1.1e-8 of what remains), never more than what remains.
  function PerRound(emitted: nat): (r: nat)
    ensures emitted <= EARNED_CAP ==> emitted + r <= EARNED_CAP
    ensures r == 0 <==> emitted >= EARNED_CAP
  {
    if emitted >= EARNED_CAP then 0
    else
      var remaining := EARNED_CAP - emitted;
      var taper := remaining * 11 / 1_000_000_000;
      var reward := if taper > MIN_ROUND_REWARD then taper else MIN_ROUND_REWARD;
      if reward < remaining then reward else remaining
  }

  // The loop over rounds; it stops for good once the schedule is exhausted.
  function EmitRounds(cfg: Config, l: Ledger, rounds: nat): Ledger
    decreases rounds
  {
    if rounds == 0 then l
    else
      var per := PerRound(l.supply.emitted);
      if per == 0 || l.supply.emitted + per > EARNED_CAP then l
      else EmitRounds(cfg, Mint(cfg, l, per), rounds - 1)
  }

  function Mint(cfg: Config, l: Ledger, per: nat): Ledger {
    l.Credit(cfg.Settler(), per).(supply := l.supply.(emitted := l.supply.emitted + per))
  }

  function Emit(cfg: Config, l: Ledger, epoch: int): Ledger {
    if epoch <= l.emittedThrough then l
    else
      var m := if cfg.masters == [] then l else EmitRounds(cfg, l, epoch - l.emittedThrough);
      m.(emittedThrough := epoch)
  }

  // The emitted total after some rounds, as a function of nothing else.
  function EmittedAfter(emitted: nat, rounds: nat): (r: nat)
    ensures emitted <= r && (emitted <= EARNED_CAP ==> r <= EARNED_CAP)
    decreases rounds
  {
    if rounds == 0 || PerRound(emitted) == 0 || emitted + PerRound(emitted) > EARNED_CAP then emitted
    else EmittedAfter(emitted + PerRound(emitted), rounds - 1)
  }

  lemma {:induction false} EmittedAfterSplits(emitted: nat, a: nat, b: nat)
    ensures EmittedAfter(EmittedAfter(emitted, a), b) == EmittedAfter(emitted, a + b)
    decreases a
  {
    if a != 0 && PerRound(emitted) != 0 && emitted + PerRound(emitted) <= EARNED_CAP {
      EmittedAfterSplits(emitted + PerRound(emitted), a - 1, b);
    }
  }

  lemma {:induction false} EmitRoundsSplit(cfg: Config, l: Ledger, a: nat, b: nat)
    ensures EmitRounds(cfg, EmitRounds(cfg, l, a), b) == EmitRounds(cfg, l, a + b)
    decreases a
  {
    var per := PerRound(l.supply.emitted);
    hide Mint, PerRound;
    if a != 0 && per != 0 && l.supply.emitted + per <= EARNED_CAP {
      EmitRoundsSplit(cfg, Mint(cfg, l, per), a - 1, b);
    }
  }

  lemma {:induction false} EmitRoundsKeepCursor(cfg: Config, l: Ledger, rounds: nat, e: int)
    ensures EmitRounds(cfg, l.(emittedThrough := e), rounds) == EmitRounds(cfg, l, rounds).(emittedThrough := e)
    decreases rounds
  {
    var per := PerRound(l.supply.emitted);
    if rounds != 0 && per != 0 && l.supply.emitted + per <= EARNED_CAP {
      assert Mint(cfg, l.(emittedThrough := e), per) == Mint(cfg, l, per).(emittedThrough := e);
      EmitRoundsKeepCursor(cfg, Mint(cfg, l, per), rounds - 1, e);
    }
  }

  // Emitting in two batches is emitting in one: the emission is a pure function of the
  // epoch reached, however the epochs were batched or skipped.
  lemma EmitBatchesAgree(cfg: Config, l: Ledger, mid: int, epoch: int)
    requires mid <= epoch
    ensures Emit(cfg, Emit(cfg, l, mid), epoch) == Emit(cfg, l, epoch)
  {
    hide EmitRounds;
    if mid > l.emittedThrough && cfg.masters != [] {
      var a, b := mid - l.emittedThrough, epoch - mid;
      EmitRoundsSplit(cfg, l, a, b);
      EmitRoundsKeepCursor(cfg, EmitRounds(cfg, l, a), b, mid);
    }
  }

  lemma {:induction false} EmitRoundsKeep(cfg: Config, l: Ledger, rounds: nat)
    ensures var m := EmitRounds(cfg, l, rounds);
            && m == l.(accounts := m.accounts, supply := l.supply.(emitted := EmittedAfter(l.supply.emitted, rounds)))
            && (forall a :: m.Nonce(a) == l.Nonce(a))
    decreases rounds
  {
    var per := PerRound(l.supply.emitted);
    if rounds != 0 && per != 0 && l.supply.emitted + per <= EARNED_CAP {
      EmitRoundsKeep(cfg, Mint(cfg, l, per), rounds - 1);
      assert forall a :: Mint(cfg, l, per).Nonce(a) == l.Nonce(a);
    }
  }

  // Emission touches balances, the emitted total and the cursor, and nothing else.
  lemma EmitKeeps(cfg: Config, l: Ledger, epoch: int)
    ensures var m := Emit(cfg, l, epoch);
            && m == l.(accounts := m.accounts, supply := l.supply.(emitted := m.supply.emitted),
                       emittedThrough := m.emittedThrough)
            && (forall a :: m.Nonce(a) == l.Nonce(a))
            && m.supply.emitted == (if cfg.masters == [] || epoch <= l.emittedThrough then l.supply.emitted
                                    else EmittedAfter(l.supply.emitted, epoch - l.emittedThrough))
  {
    hide EmitRounds, EmittedAfter;
    if epoch > l.emittedThrough { EmitRoundsKeep(cfg, l, epoch - l.emittedThrough); }
  }

  lemma {:induction false} EmitRoundsPaySettler(cfg: Config, l: Ledger, rounds: nat, a: Address)
    ensures var m := EmitRounds(cfg, l, rounds);
            && l.supply.emitted <= m.supply.emitted
            && m.Balance(a) == l.Balance(a) + (if a == cfg.Settler() then m.supply.emitted - l.supply.emitted else 0)
    decreases rounds
  {
    hide PerRound;
    var per := PerRound(l.supply.emitted);
    if rounds != 0 && per != 0 && l.supply.emitted + per <= EARNED_CAP {
      EmitRoundsPaySettler(cfg, Mint(cfg, l, per), rounds - 1, a);
    }
  }

  // All that is emitted goes to the settler, and nothing to anybody else.
  lemma EmitPaysSettler(cfg: Config, l: Ledger, epoch: int, a: Address)
    ensures var m := Emit(cfg, l, epoch);
            && l.supply.emitted <= m.supply.emitted
            && m.Balance(a) == l.Balance(a) + (if a == cfg.Settler() then m.supply.emitted - l.supply.emitted else 0)
  {
    hide EmitRounds;
    if epoch > l.emittedThrough { EmitRoundsPaySettler(cfg, l, epoch - l.emittedThrough, a); }
  }

  // And as long as the cap is not reached, every epoch emits.
  lemma EveryEpochEmits(cfg: Config, l: Ledger, epoch: int)
    requires cfg.masters != [] && l.emittedThrough < epoch && l.supply.emitted < EARNED_CAP
    ensures Emit(cfg, l, epoch).Balance(cfg.Settler()) > l.Balance(cfg.Settler())
  {
    EmitPaysSettler(cfg, l, epoch, cfg.Settler());
    EmitKeeps(cfg, l, epoch);
  }
}
