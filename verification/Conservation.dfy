// Conservation of the supply: every uZIR that exists is held in some account, so
// the balances always add up to the genesis total plus what was emitted minus what was burned.
module Conservation {
  import opened Events
  import opened Ledger

  ghost function Total(m: map<Address, Account>): int {
    if m == map[] then 0
    else var a :| a in m; m[a].balance + Total(m - {a})
  }

  lemma {:induction false} TotalWithout(m: map<Address, Account>, a: Address)
    requires a in m
    ensures Total(m) == m[a].balance + Total(m - {a})
    decreases |m|
  {
    var b :| b in m && Total(m) == m[b].balance + Total(m - {b});
    if a != b {
      TotalWithout(m - {b}, a);
      TotalWithout(m - {a}, b);
      assert m - {b} - {a} == m - {a} - {b};
    }
  }

  lemma TotalAfterUpdate(m: map<Address, Account>, a: Address, acc: Account)
    ensures Total(m[a := acc]) == Total(m) - (if a in m then m[a].balance else 0) + acc.balance
  {
    TotalWithout(m[a := acc], a);
    assert m[a := acc] - {a} == m - {a};
    if a in m { TotalWithout(m, a); } else { assert m - {a} == m; }
  }

  // What must never change: the uZIR of genesis.
  ghost function Origin(l: Ledger): int {
    Total(l.accounts) - l.supply.emitted + l.supply.burned
  }

  ghost predicate Solvent(l: Ledger) {
    forall a :: l.Balance(a) >= 0
  }

  lemma CreditMoves(l: Ledger, a: Address, v: int)
    ensures Total(l.Credit(a, v).accounts) == Total(l.accounts) + v
  {
    TotalAfterUpdate(l.accounts, a, l.Acct(a).(balance := l.Balance(a) + v));
  }

  lemma SpendMoves(l: Ledger, a: Address)
    ensures Total(l.Spend(a).accounts) == Total(l.accounts)
  {
    TotalAfterUpdate(l.accounts, a, l.Acct(a).(nonce := l.Nonce(a) + 1));
  }

  lemma {:induction false} CreditAllMoves(l: Ledger, outs: seq<Output>)
    ensures Total(CreditAll(l, outs).accounts) == Total(l.accounts) + OutputSum(outs)
  {
    if outs != [] {
      var n := |outs| - 1;
      CreditAllMoves(l, outs[..n]);
      CreditMoves(CreditAll(l, outs[..n]), outs[n].to, outs[n].amount);
      OutputSumSplits(outs, n);
    }
  }

  lemma {:induction false} CreditAllGrows(l: Ledger, outs: seq<Output>, b: Address)
    ensures CreditAll(l, outs).Balance(b) >= l.Balance(b)
  {
    if outs != [] { CreditAllGrows(l, outs[..|outs| - 1], b); }
  }

  lemma {:induction false} OutputSumSplits(outs: seq<Output>, n: nat)
    requires n <= |outs|
    ensures OutputSum(outs) == OutputSum(outs[..n]) + OutputSum(outs[n..])
  {
    if n > 0 {
      OutputSumSplits(outs[1..], n - 1);
      assert outs[..n][1..] == outs[1..][..n - 1];
    }
  }

  ghost predicate Conserves(l: Ledger, m: Ledger) {
    Origin(m) == Origin(l) && m.supply.emitted == l.supply.emitted && (Solvent(l) ==> Solvent(m))
  }

  lemma SpendConserves(l: Ledger, a: Address)
    ensures Conserves(l, l.Spend(a))
  {
    SpendMoves(l, a);
    forall b | Solvent(l) ensures l.Spend(a).Balance(b) >= 0 { assert l.Balance(b) >= 0; }
  }

  // A covered debit of some account, consuming the sender's nonce.
  lemma DebitMoves(l: Ledger, payer: Address, sender: Address, v: nat)
    requires l.Balance(payer) >= v
    ensures var m := l.Debit(payer, v).Spend(sender);
            && m == l.(accounts := m.accounts)
            && Total(m.accounts) == Total(l.accounts) - v
            && (Solvent(l) ==> Solvent(m))
  {
    var d := l.Debit(payer, v);
    CreditMoves(l, payer, 0 - v);
    SpendMoves(d, sender);
    forall b | Solvent(l) ensures d.Spend(sender).Balance(b) >= 0 { assert l.Balance(b) >= 0; }
  }

  lemma CreditKeepsSolvent(l: Ledger, a: Address, v: nat)
    requires Solvent(l)
    ensures Solvent(l.Credit(a, v))
  {
    forall b ensures l.Credit(a, v).Balance(b) >= 0 { assert l.Balance(b) >= 0; }
  }

  lemma SameAccountsSolvent(l: Ledger, m: Ledger)
    requires l.accounts == m.accounts && Solvent(l)
    ensures Solvent(m)
  {
    forall b ensures m.Balance(b) >= 0 { assert l.Balance(b) >= 0; }
  }

  lemma FeeConserves(l: Ledger, tx: Tx)
    requires l.Balance(tx.from) >= tx.fee
    ensures Conserves(l, l.Debit(tx.from, tx.fee).Spend(tx.from).Burn(tx.fee))
  {
    var m := l.Debit(tx.from, tx.fee).Spend(tx.from);
    DebitMoves(l, tx.from, tx.from, tx.fee);
    if Solvent(l) { SameAccountsSolvent(m, m.Burn(tx.fee)); }
  }

  lemma TransferConserves(l: Ledger, tx: Tx)
    ensures Conserves(l, ApplyTransfer(l, tx))
  {
    if l.Balance(tx.from) >= tx.Need() {
      var m := l.Debit(tx.from, tx.Need()).Spend(tx.from);
      DebitMoves(l, tx.from, tx.from, tx.Need());
      CreditMoves(m, tx.to, tx.amount);
      if Solvent(l) {
        CreditKeepsSolvent(m, tx.to, tx.amount);
        SameAccountsSolvent(if tx.kind.BondBurn? then m else m.Credit(tx.to, tx.amount), ApplyTransfer(l, tx));
      }
    }
  }

  lemma GrantConserves(cfg: Config, l: Ledger, tx: Tx)
    ensures Conserves(l, ApplyGrant(cfg, l, tx))
  {
    var r := ApplyGrant(cfg, l, tx);
    if r != l {
      var m := l.Debit(cfg.founder, tx.Need()).Spend(tx.from);
      DebitMoves(l, cfg.founder, tx.from, tx.Need());
      CreditMoves(m, tx.to, tx.amount);
      if Solvent(l) {
        CreditKeepsSolvent(m, tx.to, tx.amount);
        SameAccountsSolvent(m.Credit(tx.to, tx.amount), r);
      }
    }
  }

  // The common part of a batch transfer and a pool payout: one debit, many credits.
  lemma PayoutConserves(l: Ledger, funder: Address, sender: Address, outs: seq<Output>, fee: nat)
    requires l.Balance(funder) >= OutputSum(outs) + fee
    ensures Conserves(l, CreditAll(l.Debit(funder, OutputSum(outs) + fee).Spend(sender), outs).Burn(fee))
  {
    var m := l.Debit(funder, OutputSum(outs) + fee).Spend(sender);
    DebitMoves(l, funder, sender, OutputSum(outs) + fee);
    CreditAllMoves(m, outs);
    CreditAllKeeps(m, outs);
    if Solvent(l) {
      var c := CreditAll(m, outs);
      forall b ensures c.Balance(b) >= 0 { CreditAllGrows(m, outs, b); assert m.Balance(b) >= 0; }
      SameAccountsSolvent(c, c.Burn(fee));
    }
  }

  lemma FounderConserves(cfg: Config, l: Ledger, tx: Tx)
    ensures Conserves(l, ApplyFounder(cfg, l, tx))
  {
    SpendConserves(l.(founders := l.founders + {tx.to}), tx.from);
    SpendConserves(l.(founders := l.founders - {tx.to} + {cfg.founder}), tx.from);
    SameAccountsConserve(l, l.(founders := l.founders + {tx.to}));
    SameAccountsConserve(l, l.(founders := l.founders - {tx.to} + {cfg.founder}));
  }

  lemma SameAccountsConserve(l: Ledger, m: Ledger)
    requires m.accounts == l.accounts && m.supply.emitted == l.supply.emitted && m.supply.burned == l.supply.burned
    ensures Conserves(l, m)
  {
    if Solvent(l) { SameAccountsSolvent(l, m); }
  }

  lemma BeneficiaryConserves(cfg: Config, l: Ledger, tx: Tx, epoch: int)
    ensures Conserves(l, ApplyBeneficiary(cfg, l, tx, epoch))
  {
    var b := if tx.to == tx.from then l.beneficiaries - {tx.from} else l.beneficiaries[tx.from := tx.to];
    var m := l.(beneficiaries := b);
    SameAccountsConserve(l, m);
    SpendConserves(m, tx.from);
  }

  lemma AnchorConserves(cfg: Config, l: Ledger, tx: Tx)
    requires tx.kind.Anchor?
    ensures Conserves(l, ApplyAnchor(cfg, l, tx))
  {
    var m := ApplyAnchor(cfg, l, tx);
    if m != l {
      SameAccountsConserve(l, l.(seats := m.seats));
      FeeConserves(l.(seats := m.seats), tx);
    }
  }

  lemma BatchConserves(l: Ledger, tx: Tx)
    ensures Conserves(l, ApplyBatch(l, tx))
  {
    SpendConserves(l, tx.from);
    if tx.memo.batch.Some? && OutputSum(tx.memo.batch.value) == tx.amount && l.Balance(tx.from) >= tx.Need() {
      PayoutConserves(l, tx.from, tx.from, tx.memo.batch.value, tx.fee);
    }
  }

  lemma PoolConserves(cfg: Config, l: Ledger, tx: Tx, epoch: int)
    ensures Conserves(l, ApplyPayout(cfg, l, tx, epoch))
  {
    SpendConserves(l, tx.from);
    if !PayoutRefused(cfg, l, tx, epoch) && l.Balance(cfg.Settler()) >= tx.Need() {
      var outs := tx.memo.payout.value.outputs;
      var p := CreditAll(l.Debit(cfg.Settler(), OutputSum(outs) + tx.fee).Spend(tx.from), outs).Burn(tx.fee);
      PayoutConserves(l, cfg.Settler(), tx.from, outs, tx.fee);
      SameAccountsConserve(p, p.(paidBucket := tx.memo.payout.value.bucket));
    }
  }

  // Across every kind of transaction, including self-payments, pool-funded payouts and
  // repeated recipients: nothing is minted, only fees and bonds are burned, and no
  // account is overdrawn.
  lemma ApplyTxConserves(cfg: Config, l: Ledger, tx: Tx, epoch: int)
    ensures Conserves(l, ApplyTx(cfg, l, tx, epoch))
  {
    match tx.kind
    case StorageAttest => SpendConserves(l, tx.from);
    case FounderDelegate => FounderConserves(cfg, l, tx);
    case FounderRevoke => FounderConserves(cfg, l, tx);
    case SetBeneficiary => BeneficiaryConserves(cfg, l, tx, epoch);
    case Anchor(_) => AnchorConserves(cfg, l, tx);
    case ReserveGrant => GrantConserves(cfg, l, tx);
    case BatchTransfer => BatchConserves(l, tx);
    case PoolPayout => PoolConserves(cfg, l, tx, epoch);
    case _ => TransferConserves(l, tx);
  }
}
