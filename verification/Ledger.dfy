// The committed ledger and what one transaction does to it (applyTx in State.ts).
// It holds everything the state root commits to - accounts, supply, founders, seats,
// validators, payout watermark and beneficiaries - and the emission cursor.
//
// A blank account (balance 0, nonce 0) is the same as an absent one, as in the state
// root; so creating one has no effect here.
module Ledger {
  import opened Events
  import opened Seats

  datatype Account = Account(balance: int, nonce: nat)
  datatype Supply = Supply(emitted: nat, burned: nat, reserve: nat)

  datatype Ledger = Ledger(
    accounts: map<Address, Account>,
    supply: Supply,
    founders: set<Address>,
    seats: SeatMap,
    beneficiaries: map<Address, Address>,
    paidBucket: int,
    validators: seq<Address>,
    emittedThrough: int)
  {
    function Acct(a: Address): Account { if a in accounts then accounts[a] else Account(0, 0) }
    function Balance(a: Address): int { Acct(a).balance }
    function Nonce(a: Address): nat { Acct(a).nonce }

    function Credit(a: Address, v: int): Ledger {
      this.(accounts := accounts[a := Acct(a).(balance := Balance(a) + v)])
    }
    function Debit(a: Address, v: int): Ledger { Credit(a, 0 - v) }
    function SetNonce(a: Address, n: nat): Ledger {
      this.(accounts := accounts[a := Acct(a).(nonce := n)])
    }
    function Spend(a: Address): Ledger { SetNonce(a, Nonce(a) + 1) }
    function Burn(v: nat): Ledger { this.(supply := supply.(burned := supply.burned + v)) }
  }

  function CreditAll(l: Ledger, outs: seq<Output>): Ledger {
    if outs == [] then l else CreditAll(l, outs[..|outs| - 1]).Credit(outs[|outs| - 1].to, outs[|outs| - 1].amount)
  }

  function ApplyFounder(cfg: Config, l: Ledger, tx: Tx): Ledger {
    if tx.from !in l.founders || tx.amount != 0 || !IsZir(tx.to) then l
    else if tx.kind.FounderDelegate? then l.(founders := l.founders + {tx.to}).Spend(tx.from)
    else if tx.to == cfg.founder then l
    else l.(founders := l.founders - {tx.to} + {cfg.founder}).Spend(tx.from)
  }

  function ApplyBeneficiary(cfg: Config, l: Ledger, tx: Tx, epoch: int): Ledger {
    if !Armed(cfg.poolBeneficiary, epoch) || tx.amount != 0 || !IsZir(tx.to) then l
    else
      var b := if tx.to == tx.from then l.beneficiaries - {tx.from} else l.beneficiaries[tx.from := tx.to];
      l.(beneficiaries := b).Spend(tx.from)
  }

  function ApplyAnchor(cfg: Config, l: Ledger, tx: Tx): Ledger
    requires tx.kind.Anchor?
  {
    if tx.memo.anchor.None? || tx.amount != 0 || l.Balance(tx.from) < tx.fee then l
    else
      var r := SeatEffect(cfg, l.founders, l.seats, tx, tx.kind.op, tx.memo.anchor.value);
      if r.None? then l
      else l.(seats := r.value).Debit(tx.from, tx.fee).Spend(tx.from).Burn(tx.fee)
  }

  function ApplyGrant(cfg: Config, l: Ledger, tx: Tx): Ledger {
    if tx.from !in l.founders || l.Balance(cfg.founder) < tx.Need() then l
    else
      var m := l.Debit(cfg.founder, tx.Need()).Spend(tx.from).Credit(tx.to, tx.amount).Burn(tx.fee);
      var left := if tx.amount <= m.supply.reserve then m.supply.reserve - tx.amount else 0;
      m.(supply := m.supply.(reserve := left))
  }

  function ApplyBatch(l: Ledger, tx: Tx): Ledger {
    if tx.memo.batch.None? || OutputSum(tx.memo.batch.value) != tx.amount then l.Spend(tx.from)
    else if l.Balance(tx.from) < tx.Need() then l
    else CreditAll(l.Debit(tx.from, tx.Need()).Spend(tx.from), tx.memo.batch.value).Burn(tx.fee)
  }

  // isAuthorizedSettler
  predicate MaySettle(cfg: Config, l: Ledger, a: Address) { cfg.IsGenesisMaster(a) || a in l.validators }

  // Every refusal of a pool payout except an underfunded pool consumes the nonce and moves no money.
  predicate PayoutRefused(cfg: Config, l: Ledger, tx: Tx, epoch: int) {
    || !Armed(cfg.decentralization, epoch)
    || tx.memo.payout.None?
    || tx.to != cfg.Settler()
    || !MaySettle(cfg, l, tx.from)
    || tx.memo.payout.value.bucket <= l.paidBucket
    || OutputSum(tx.memo.payout.value.outputs) != tx.amount
  }

  function ApplyPayout(cfg: Config, l: Ledger, tx: Tx, epoch: int): Ledger {
    if PayoutRefused(cfg, l, tx, epoch) then l.Spend(tx.from)
    else if l.Balance(cfg.Settler()) < tx.Need() then l
    else
      CreditAll(l.Debit(cfg.Settler(), tx.Need()).Spend(tx.from), tx.memo.payout.value.outputs)
        .Burn(tx.fee).(paidBucket := tx.memo.payout.value.bucket)
  }

  function ApplyTransfer(l: Ledger, tx: Tx): Ledger {
    if l.Balance(tx.from) < tx.Need() then l
    else
      var m := l.Debit(tx.from, tx.Need()).Spend(tx.from);
      (if tx.kind.BondBurn? then m.Burn(tx.amount) else m.Credit(tx.to, tx.amount)).Burn(tx.fee)
  }

  function ApplyTx(cfg: Config, l: Ledger, tx: Tx, epoch: int): Ledger {
    if tx.nonce != l.Nonce(tx.from) then l
    else match tx.kind
      case StorageAttest => l.Spend(tx.from)
      case FounderDelegate => ApplyFounder(cfg, l, tx)
      case FounderRevoke => ApplyFounder(cfg, l, tx)
      case SetBeneficiary => ApplyBeneficiary(cfg, l, tx, epoch)
      case Anchor(_) => ApplyAnchor(cfg, l, tx)
      case ReserveGrant => ApplyGrant(cfg, l, tx)
      case BatchTransfer => ApplyBatch(l, tx)
      case PoolPayout => ApplyPayout(cfg, l, tx, epoch)
      case _ => ApplyTransfer(l, tx)
  }

  // ---- nonces ----

  lemma {:induction false} CreditAllKeeps(l: Ledger, outs: seq<Output>)
    ensures CreditAll(l, outs) == l.(accounts := CreditAll(l, outs).accounts)
    ensures forall a :: CreditAll(l, outs).Nonce(a) == l.Nonce(a)
  {
    if outs != [] { CreditAllKeeps(l, outs[..|outs| - 1]); }
  }

  // l and m differ in nobody's nonce but a's, which m has raised by one.
  ghost predicate OneSpent(l: Ledger, m: Ledger, a: Address) {
    m.Nonce(a) == l.Nonce(a) + 1 && forall b :: b != a ==> m.Nonce(b) == l.Nonce(b)
  }

  lemma PayoutSpendsOne(l: Ledger, funder: Address, sender: Address, v: nat, outs: seq<Output>)
    ensures OneSpent(l, CreditAll(l.Debit(funder, v).Spend(sender), outs), sender)
  {
    var m := l.Debit(funder, v).Spend(sender);
    assert OneSpent(l, m, sender);
    CreditAllKeeps(m, outs);
  }

  lemma SameAccountsSpent(l: Ledger, m: Ledger, r: Ledger, a: Address)
    requires OneSpent(l, m, a) && r.accounts == m.accounts
    ensures OneSpent(l, r, a)
  { }

  lemma BatchSpends(l: Ledger, tx: Tx)
    ensures ApplyBatch(l, tx) == l || OneSpent(l, ApplyBatch(l, tx), tx.from)
  {
    if tx.memo.batch.Some? {
      var outs := tx.memo.batch.value;
      PayoutSpendsOne(l, tx.from, tx.from, tx.Need(), outs);
      var c := CreditAll(l.Debit(tx.from, tx.Need()).Spend(tx.from), outs);
      SameAccountsSpent(l, c, c.Burn(tx.fee), tx.from);
    }
  }

  lemma PoolSpends(cfg: Config, l: Ledger, tx: Tx, epoch: int)
    ensures ApplyPayout(cfg, l, tx, epoch) == l || OneSpent(l, ApplyPayout(cfg, l, tx, epoch), tx.from)
  {
    if tx.memo.payout.Some? {
      var outs := tx.memo.payout.value.outputs;
      PayoutSpendsOne(l, cfg.Settler(), tx.from, tx.Need(), outs);
      var c := CreditAll(l.Debit(cfg.Settler(), tx.Need()).Spend(tx.from), outs);
      SameAccountsSpent(l, c, c.Burn(tx.fee).(paidBucket := tx.memo.payout.value.bucket), tx.from);
    }
  }

  lemma TransferSpends(l: Ledger, tx: Tx)
    ensures ApplyTransfer(l, tx) == l || OneSpent(l, ApplyTransfer(l, tx), tx.from)
  { }

  lemma GrantSpends(cfg: Config, l: Ledger, tx: Tx)
    ensures ApplyGrant(cfg, l, tx) == l || OneSpent(l, ApplyGrant(cfg, l, tx), tx.from)
  { }

  lemma AnchorSpends(cfg: Config, l: Ledger, tx: Tx)
    requires tx.kind.Anchor?
    ensures ApplyAnchor(cfg, l, tx) == l || OneSpent(l, ApplyAnchor(cfg, l, tx), tx.from)
  { }

  // A transaction either has no effect at all, or raises its sender's nonce by exactly one;
  // nobody else's nonce ever moves.
  lemma ApplyTxSpendsOneNonce(cfg: Config, l: Ledger, tx: Tx, epoch: int)
    ensures var m := ApplyTx(cfg, l, tx, epoch);
            m == l || (tx.nonce == l.Nonce(tx.from) && OneSpent(l, m, tx.from))
  {
    match tx.kind
    case StorageAttest =>
    case FounderDelegate =>
    case FounderRevoke =>
    case SetBeneficiary =>
    case Anchor(_) => AnchorSpends(cfg, l, tx);
    case ReserveGrant => GrantSpends(cfg, l, tx);
    case BatchTransfer => BatchSpends(l, tx);
    case PoolPayout => PoolSpends(cfg, l, tx, epoch);
    case _ => TransferSpends(l, tx);
  }
}
