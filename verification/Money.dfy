// Where the money goes. One law covers every kind of transaction: who pays, who receives,
// how much is burned, and exactly when anything moves at all.
module Money {
  import opened Events
  import opened Order
  import opened Seats
  import opened Ledger
  import opened Conservation
  import opened Apportion
  import opened Heartbeats
  import opened FieldPayout

  // ---- what a transaction asks for ----

  // Grants are paid by the genesis founder and pool payouts by the settler, not by the sender.
  function Payer(cfg: Config, tx: Tx): Address {
    if tx.kind.ReserveGrant? then cfg.founder else if tx.kind.PoolPayout? then cfg.Settler() else tx.from
  }

  // Attestations, founder changes and beneficiary changes are free.
  predicate IsFree(tx: Tx) { tx.kind in {StorageAttest, FounderDelegate, FounderRevoke, SetBeneficiary} }

  function Cost(tx: Tx): nat { if IsFree(tx) then 0 else if tx.kind.Anchor? then tx.fee else tx.Need() }

  function Recipients(tx: Tx): seq<Output> {
    if IsFree(tx) || tx.kind.Anchor? || tx.kind.BondBurn? then []
    else if tx.kind.BatchTransfer? then (if tx.memo.batch.Some? then tx.memo.batch.value else [])
    else if tx.kind.PoolPayout? then (if tx.memo.payout.Some? then tx.memo.payout.value.outputs else [])
    else [Output(tx.to, tx.amount)]
  }

  // What one account gets out of a list of outputs; it may be named more than once.
  function Received(outs: seq<Output>, a: Address): nat {
    if outs == [] then 0
    else Received(outs[..|outs| - 1], a) + (if outs[|outs| - 1].to == a then outs[|outs| - 1].amount else 0)
  }

  // Whether money moves: it is the sender's next transaction, it is well-formed and
  // authorized, and the payer can afford it.
  predicate MovesMoney(cfg: Config, l: Ledger, tx: Tx, epoch: int) {
    && tx.nonce == l.Nonce(tx.from) && !IsFree(tx)
    && l.Balance(Payer(cfg, tx)) >= Cost(tx)
    && (tx.kind.Anchor? ==> tx.memo.anchor.Some? && tx.amount == 0
                            && SeatEffect(cfg, l.founders, l.seats, tx, tx.kind.op, tx.memo.anchor.value).Some?)
    && (tx.kind.ReserveGrant? ==> tx.from in l.founders)
    && (tx.kind.BatchTransfer? ==> tx.memo.batch.Some? && OutputSum(tx.memo.batch.value) == tx.amount)
    && (tx.kind.PoolPayout? ==> !PayoutRefused(cfg, l, tx, epoch))
  }

  ghost predicate Moves(cfg: Config, l: Ledger, m: Ledger, tx: Tx) {
    && (forall a ::
          m.Balance(a) == l.Balance(a) - (if a == Payer(cfg, tx) then Cost(tx) else 0) + Received(Recipients(tx), a))
    && m.supply.burned == l.supply.burned + Cost(tx) - OutputSum(Recipients(tx))
  }

  ghost predicate Still(l: Ledger, m: Ledger) {
    (forall a :: m.Balance(a) == l.Balance(a)) && m.supply.burned == l.supply.burned
  }

  lemma {:induction false} CreditAllAt(l: Ledger, outs: seq<Output>, a: Address)
    ensures CreditAll(l, outs).Balance(a) == l.Balance(a) + Received(outs, a)
  {
    if outs != [] { CreditAllAt(l, outs[..|outs| - 1], a); }
  }

  lemma OneRecipient(o: Output)
    ensures OutputSum([o]) == o.amount && forall a :: Received([o], a) == if a == o.to then o.amount else 0
  {
    assert [o][..0] == [];
  }

  lemma FreeIsStill(cfg: Config, l: Ledger, tx: Tx, epoch: int)
    requires IsFree(tx)
    ensures Still(l, ApplyTx(cfg, l, tx, epoch))
  { }

  lemma TransferMoves(cfg: Config, l: Ledger, tx: Tx, epoch: int)
    requires tx.nonce == l.Nonce(tx.from) && !IsFree(tx) && !tx.kind.Anchor? &&
               tx.kind !in {ReserveGrant, BatchTransfer, PoolPayout}
    ensures var m := ApplyTx(cfg, l, tx, epoch); if MovesMoney(cfg, l, tx, epoch) then Moves(cfg, l, m, tx) else m == l
  {
    hide ApplyTx;
    OneRecipient(Output(tx.to, tx.amount));
    ApplyIsTransfer(cfg, l, tx, epoch);
  }

  lemma ApplyIsTransfer(cfg: Config, l: Ledger, tx: Tx, epoch: int)
    requires tx.nonce == l.Nonce(tx.from) && !IsFree(tx) && !tx.kind.Anchor? &&
               tx.kind !in {ReserveGrant, BatchTransfer, PoolPayout}
    ensures ApplyTx(cfg, l, tx, epoch) == ApplyTransfer(l, tx)
  {
    hide ApplyTransfer;
  }

  lemma GrantMoves(cfg: Config, l: Ledger, tx: Tx, epoch: int)
    requires tx.nonce == l.Nonce(tx.from) && tx.kind.ReserveGrant?
    ensures var m := ApplyTx(cfg, l, tx, epoch); if MovesMoney(cfg, l, tx, epoch) then Moves(cfg, l, m, tx) else m == l
  {
    OneRecipient(Output(tx.to, tx.amount));
  }

  lemma AnchorMoves(cfg: Config, l: Ledger, tx: Tx, epoch: int)
    requires tx.nonce == l.Nonce(tx.from) && tx.kind.Anchor?
    ensures var m := ApplyTx(cfg, l, tx, epoch); if MovesMoney(cfg, l, tx, epoch) then Moves(cfg, l, m, tx) else m == l
  {
    hide SeatEffect;
  }

  // The common part of batch transfers and pool payouts.
  lemma OutputsMove(l: Ledger, payer: Address, sender: Address, cost: nat, outs: seq<Output>, a: Address)
    ensures CreditAll(l.Debit(payer, cost).Spend(sender), outs).Balance(a)
         == l.Balance(a) - (if a == payer then cost else 0) + Received(outs, a)
  {
    CreditAllAt(l.Debit(payer, cost).Spend(sender), outs, a);
  }

  lemma BatchMoves(cfg: Config, l: Ledger, tx: Tx, epoch: int)
    requires tx.nonce == l.Nonce(tx.from) && tx.kind.BatchTransfer?
    ensures var m := ApplyTx(cfg, l, tx, epoch);
            if MovesMoney(cfg, l, tx, epoch) then Moves(cfg, l, m, tx) else Still(l, m)
  {
    hide Received, CreditAll;
    var m := ApplyTx(cfg, l, tx, epoch);
    if MovesMoney(cfg, l, tx, epoch) {
      var outs := Recipients(tx);
      forall a ensures m.Balance(a) == l.Balance(a) - (if a == tx.from then tx.Need() else 0) + Received(outs, a) {
        OutputsMove(l, tx.from, tx.from, tx.Need(), outs, a);
      }
      CreditAllKeeps(l.Debit(tx.from, tx.Need()).Spend(tx.from), outs);
    }
  }

  lemma PayoutMoves(cfg: Config, l: Ledger, tx: Tx, epoch: int)
    requires tx.nonce == l.Nonce(tx.from) && tx.kind.PoolPayout?
    ensures var m := ApplyTx(cfg, l, tx, epoch);
            if MovesMoney(cfg, l, tx, epoch) then Moves(cfg, l, m, tx) else Still(l, m)
  {
    hide Received, CreditAll;
    var m := ApplyTx(cfg, l, tx, epoch);
    if MovesMoney(cfg, l, tx, epoch) {
      var outs := Recipients(tx);
      forall a
        ensures m.Balance(a) == l.Balance(a) - (if a == cfg.Settler() then tx.Need() else 0) + Received(outs, a)
      {
        OutputsMove(l, cfg.Settler(), tx.from, tx.Need(), outs, a);
      }
      CreditAllKeeps(l.Debit(cfg.Settler(), tx.Need()).Spend(tx.from), outs);
    }
  }

  // Exactly when it is the sender's next, valid, authorized and affordable transaction does
  // it move money: then the payer pays amount and fee, each recipient gets what the
  // transaction gives it, and the difference - the fee, or a burned bond - is burned.
  // Otherwise no balance changes at all. Self-payments, pool-funded payouts and repeated
  // recipients are no exceptions.
  lemma MoneyMovesAsSigned(cfg: Config, l: Ledger, tx: Tx, epoch: int)
    ensures var m := ApplyTx(cfg, l, tx, epoch);
            if MovesMoney(cfg, l, tx, epoch) then Moves(cfg, l, m, tx) else Still(l, m)
  {
    hide ApplyTransfer, ApplyGrant, ApplyAnchor, ApplyBatch, ApplyPayout, Moves, SeatEffect, PayoutRefused, OutputSum;
    if tx.nonce == l.Nonce(tx.from) {
      if IsFree(tx) { FreeIsStill(cfg, l, tx, epoch); }
      else if tx.kind.ReserveGrant? { GrantMoves(cfg, l, tx, epoch); }
      else if tx.kind.BatchTransfer? { BatchMoves(cfg, l, tx, epoch); }
      else if tx.kind.PoolPayout? { PayoutMoves(cfg, l, tx, epoch); }
      else if tx.kind.Anchor? { AnchorMoves(cfg, l, tx, epoch); }
      else { TransferMoves(cfg, l, tx, epoch); }
    }
  }

  // ---- the field payout ----

  // What an account is owed by a payout: the amounts of the payees routed to it.
  function OwedTo(cfg: Config, l: Ledger, payees: seq<Address>, amounts: seq<nat>, epoch: int, a: Address): nat
    requires |payees| == |amounts|
  {
    if payees == [] then 0
    else
      var n := |payees| - 1;
      OwedTo(cfg, l, payees[..n], amounts[..n], epoch, a)
        + (if BeneficiaryOf(cfg, l, payees[n], epoch) == a then amounts[n] else 0)
  }

  lemma {:induction false} CreditPayeesAt(cfg: Config, l: Ledger, payees: seq<Address>, amounts: seq<nat>, epoch: int,
                                          a: Address)
    requires |payees| == |amounts|
    ensures var m := CreditPayees(cfg, l, payees, amounts, epoch);
            m.beneficiaries == l.beneficiaries &&
              m.Balance(a) == l.Balance(a) + OwedTo(cfg, l, payees, amounts, epoch, a)
  {
    if payees != [] {
      var n := |payees| - 1;
      CreditPayeesAt(cfg, l, payees[..n], amounts[..n], epoch, a);
    }
  }

  // A paid bucket takes exactly the pool from the settler and gives every payee, or the pool
  // it mines for, exactly its amount.
  lemma PayoutGivesEachItsAmount(cfg: Config, l: Ledger, obs: seq<Obs>, epoch: int, a: Address)
    requires PaysNow(cfg, l, obs, epoch)
    ensures var latest := LatestHeartbeats(cfg, obs, epoch);
            var payees := Payees(cfg, latest);
            var amounts := Amounts(cfg, l, latest, payees, epoch);
            Distribute(cfg, l, obs, epoch).Balance(a)
              == l.Balance(a) - (if a == cfg.Settler() then POOL else 0) + OwedTo(cfg, l, payees, amounts, epoch, a)
  {
    var latest := LatestHeartbeats(cfg, obs, epoch);
    var payees := Payees(cfg, latest);
    var amounts := Amounts(cfg, l, latest, payees, epoch);
    var d := l.Debit(cfg.Settler(), POOL);
    CreditPayeesAt(cfg, d, payees, amounts, epoch, a);
    OwedIgnoresAccounts(cfg, l, d, payees, amounts, epoch, a);
  }

  lemma OnePayee(cfg: Config, o: Obs, x: Address)
    requires o.vouched == [x] && MayBePaid(cfg, x)
    ensures Payees(cfg, [o]) == [x]
  {
    PayeesAreProper(cfg, [o]);
    var p := Payees(cfg, [o]);
    assert o in [o] && x in o.vouched;
    if |p| > 1 {
      assert ByName()(p[0], p[1]) && p[0] in p && p[1] in p;
      BeforeIsStrict(p[0], p[1]);
    }
    HasElement(p);
  }

  lemma TieIsFirst(cfg: Config, o: Obs, p: Obs, epoch: int)
    requires Counts(cfg, o, epoch) && Counts(cfg, p, epoch) && o.observer == p.observer && o.timestamp == p.timestamp
    ensures LatestHeartbeats(cfg, [o, p], epoch) == [o]
  {
    assert [o, p][..1] == [o] && [o][..0] == [];
    assert LatestHeartbeats(cfg, [o], epoch) == [o];
  }

  // Two tied heartbeats of one master that vouch for different miners: which miner the pool
  // goes to, and so the ledger, depends on which of them arrived first.
  lemma TieChangesThePayout(cfg: Config, l: Ledger, o: Obs, p: Obs, x: Address, y: Address, epoch: int)
    requires Counts(cfg, o, epoch) && Counts(cfg, p, epoch) && o.observer == p.observer && o.timestamp == p.timestamp
    requires o.vouched == [x] && p.vouched == [y] && x != y && MayBePaid(cfg, x) && MayBePaid(cfg, y)
    requires Armed(cfg.fieldPayout, epoch) && Bucket(epoch) > l.paidBucket && l.Balance(cfg.Settler()) >= POOL
    requires !Armed(cfg.poolBeneficiary, epoch)
    ensures Distribute(cfg, l, [o, p], epoch).Balance(x) == l.Balance(x) + POOL
    ensures Distribute(cfg, l, [p, o], epoch).Balance(x) == l.Balance(x)
  {
    FirstOfTiePays(cfg, l, o, p, x, epoch, x);
    FirstOfTiePays(cfg, l, p, o, y, epoch, x);
  }

  lemma FirstOfTiePays(cfg: Config, l: Ledger, a: Obs, b: Obs, z: Address, epoch: int, x: Address)
    requires Counts(cfg, a, epoch) && Counts(cfg, b, epoch) && a.observer == b.observer && a.timestamp == b.timestamp
    requires a.vouched == [z] && MayBePaid(cfg, z) && x != cfg.Settler()
    requires Armed(cfg.fieldPayout, epoch) && Bucket(epoch) > l.paidBucket && l.Balance(cfg.Settler()) >= POOL
    requires !Armed(cfg.poolBeneficiary, epoch)
    ensures Distribute(cfg, l, [a, b], epoch).Balance(x) == l.Balance(x) + (if z == x then POOL else 0)
  {
    hide LatestHeartbeats, Payees, Distribute, Amounts, Counts, MayBePaid;
    TieIsFirst(cfg, a, b, epoch);
    OnePayee(cfg, a, z);
    PayoutGivesEachItsAmount(cfg, l, [a, b], epoch, x);
    var amounts := Amounts(cfg, l, [a], [z], epoch);
    AmountsSum(cfg, l, [a], [z], epoch);
    assert amounts[..0] == [] && SumNat(amounts[..0]) == 0;
    assert amounts[0] == POOL;
    assert [z][..0] == [] && OwedTo(cfg, l, [], [], epoch, x) == 0;
  }

  lemma {:induction false} OwedIgnoresAccounts(cfg: Config, l: Ledger, m: Ledger, payees: seq<Address>,
                                               amounts: seq<nat>, epoch: int, a: Address)
    requires |payees| == |amounts| && l.beneficiaries == m.beneficiaries
    ensures OwedTo(cfg, l, payees, amounts, epoch, a) == OwedTo(cfg, m, payees, amounts, epoch, a)
  {
    if payees != [] { OwedIgnoresAccounts(cfg, l, m, payees[..|payees| - 1], amounts[..|payees| - 1], epoch, a); }
  }
}
