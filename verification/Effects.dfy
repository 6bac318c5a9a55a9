// What one transaction does to the whole ledger, and which transactions an epoch settles, said
// without the functions that compute it (applyTx and step 1 of processEpoch in State.ts).
module Effects {
  import opened Events
  import opened Order
  import opened Seats
  import opened Ledger
  import opened Money
  import opened Heartbeats
  import opened Drain
  import opened Node

  // ---- exactly when a transaction takes effect ----

  predicate SignedByFounder(l: Ledger, tx: Tx) { tx.from in l.founders && tx.amount == 0 && "zir1" <= tx.to }

  // The bucket it names is paid: payouts are armed, and an authorized settler names the pool,
  // a bucket after the last one paid, and outputs that add up.
  predicate MayPayBucket(cfg: Config, l: Ledger, tx: Tx, epoch: int) {
    && 0 < cfg.decentralization <= epoch && tx.memo.payout.Some?
    && tx.to == (if cfg.masters == [] then cfg.founder else cfg.masters[0])
    && (tx.from in cfg.masters || tx.from in l.validators)
    && l.paidBucket < tx.memo.payout.value.bucket
    && OutputSum(tx.memo.payout.value.outputs) == tx.amount
  }

  // Whether the sender's next transaction is taken: its nonce is spent. A malformed batch and
  // a refused payout are taken without moving anything; whatever the payer cannot afford, and
  // whatever is not allowed otherwise, is not.
  predicate IsTaken(cfg: Config, l: Ledger, tx: Tx, epoch: int) {
    match tx.kind
    case StorageAttest => true
    case FounderDelegate => SignedByFounder(l, tx)
    case FounderRevoke => SignedByFounder(l, tx) && tx.to != cfg.founder
    case SetBeneficiary => 0 < cfg.poolBeneficiary <= epoch && tx.amount == 0 && "zir1" <= tx.to
    case Anchor(op) =>
      && tx.memo.anchor.Some? && tx.amount == 0 && l.Balance(tx.from) >= tx.fee
      && SeatEffect(cfg, l.founders, l.seats, tx, op, tx.memo.anchor.value).Some?
    case ReserveGrant => tx.from in l.founders && l.Balance(cfg.founder) >= tx.amount + tx.fee
    case BatchTransfer =>
      || tx.memo.batch.None? || OutputSum(tx.memo.batch.value) != tx.amount
      || l.Balance(tx.from) >= tx.amount + tx.fee
    case PoolPayout =>
      MayPayBucket(cfg, l, tx, epoch) ==>
        l.Balance(if cfg.masters == [] then cfg.founder else cfg.masters[0]) >= tx.amount + tx.fee
    case _ => l.Balance(tx.from) >= tx.amount + tx.fee
  }

  // ---- and exactly what it changes besides balances and the burned total ----

  // The founders after a change: one more, or one less; the genesis founder always stays.
  ghost predicate FoundersAfter(cfg: Config, l: Ledger, m: Ledger, tx: Tx, taken: bool) {
    forall a :: a in m.founders <==>
                  if taken && tx.kind.FounderDelegate? then a in l.founders || a == tx.to
                  else if taken && tx.kind.FounderRevoke? then (a in l.founders || a == cfg.founder) && a != tx.to
                  else a in l.founders
  }

  // A sender names who gets its pay; naming itself ends that.
  ghost predicate BeneficiariesAfter(l: Ledger, m: Ledger, tx: Tx, taken: bool) {
    if taken && tx.kind.SetBeneficiary? then
      && (tx.from in m.beneficiaries <==> tx.to != tx.from)
      && (tx.from in m.beneficiaries ==> m.beneficiaries[tx.from] == tx.to)
      && (forall a :: a != tx.from ==> (a in m.beneficiaries <==> a in l.beneficiaries))
      && (forall a :: a in m.beneficiaries && a != tx.from ==> m.beneficiaries[a] == l.beneficiaries[a])
    else m.beneficiaries == l.beneficiaries
  }

  // The reserve falls by what is granted, but not below zero.
  ghost predicate ReserveAfter(l: Ledger, m: Ledger, tx: Tx, taken: bool) {
    if taken && tx.kind.ReserveGrant? then
      m.supply.reserve + tx.amount == l.supply.reserve || (m.supply.reserve == 0 && tx.amount > l.supply.reserve)
    else m.supply.reserve == l.supply.reserve
  }

  ghost predicate SeatsAfter(cfg: Config, l: Ledger, m: Ledger, tx: Tx, taken: bool) {
    if taken && tx.kind.Anchor? then
      && tx.memo.anchor.Some?
      && SeatEffect(cfg, l.founders, l.seats, tx, tx.kind.op, tx.memo.anchor.value) == Some(m.seats)
    else m.seats == l.seats
  }

  ghost predicate BucketAfter(cfg: Config, l: Ledger, m: Ledger, tx: Tx, epoch: int, taken: bool) {
    if taken && tx.kind.PoolPayout? && MayPayBucket(cfg, l, tx, epoch)
    then tx.memo.payout.Some? && m.paidBucket == tx.memo.payout.value.bucket
    else m.paidBucket == l.paidBucket
  }

  ghost predicate NoncesAfter(l: Ledger, m: Ledger, tx: Tx, taken: bool) {
    forall a :: m.Nonce(a) == l.Nonce(a) + (if taken && a == tx.from then 1 else 0)
  }

  // Nothing else is ever touched.
  ghost predicate RestAfter(l: Ledger, m: Ledger) {
    && m.supply.emitted == l.supply.emitted && m.validators == l.validators && m.emittedThrough == l.emittedThrough
  }

  // The ledger m after tx, in all its parts but the money.
  ghost predicate Changed(cfg: Config, l: Ledger, m: Ledger, tx: Tx, epoch: int, taken: bool) {
    && NoncesAfter(l, m, tx, taken) && FoundersAfter(cfg, l, m, tx, taken) && BeneficiariesAfter(l, m, tx, taken)
    && ReserveAfter(l, m, tx, taken) && SeatsAfter(cfg, l, m, tx, taken)
    && BucketAfter(cfg, l, m, tx, epoch, taken) && RestAfter(l, m)
  }

  lemma PayoutRefusedIff(cfg: Config, l: Ledger, tx: Tx, epoch: int)
    ensures PayoutRefused(cfg, l, tx, epoch) <==> !MayPayBucket(cfg, l, tx, epoch)
  {
    hide OutputSum;
  }

  lemma UntakenChanges(cfg: Config, l: Ledger, tx: Tx, epoch: int)
    ensures Changed(cfg, l, l, tx, epoch, false)
  {
    hide SeatEffect, OutputSum;
  }

  lemma FreeChanges(cfg: Config, l: Ledger, tx: Tx, epoch: int)
    requires tx.nonce == l.Nonce(tx.from) && IsFree(tx)
    ensures Changed(cfg, l, ApplyTx(cfg, l, tx, epoch), tx, epoch, IsTaken(cfg, l, tx, epoch))
  {
    hide SeatEffect, OutputSum;
  }

  lemma AnchorChanges(cfg: Config, l: Ledger, tx: Tx, epoch: int)
    requires tx.nonce == l.Nonce(tx.from) && tx.kind.Anchor?
    ensures Changed(cfg, l, ApplyTx(cfg, l, tx, epoch), tx, epoch, IsTaken(cfg, l, tx, epoch))
  {
    hide SeatEffect, OutputSum;
  }

  // Paying outputs touches balances and the sender's nonce alone.
  lemma CreditsTouchLittle(l: Ledger, payer: Address, sender: Address, cost: nat, outs: seq<Output>)
    ensures var m := CreditAll(l.Debit(payer, cost).Spend(sender), outs);
            && m == l.(accounts := m.accounts)
            && forall a :: m.Nonce(a) == l.Nonce(a) + (if a == sender then 1 else 0)
  {
    hide CreditAll;
    var d := l.Debit(payer, cost).Spend(sender);
    assert forall a :: d.Nonce(a) == l.Nonce(a) + (if a == sender then 1 else 0);
    CreditAllKeeps(d, outs);
  }

  lemma BatchChanges(cfg: Config, l: Ledger, tx: Tx, epoch: int)
    requires tx.nonce == l.Nonce(tx.from) && tx.kind.BatchTransfer?
    ensures Changed(cfg, l, ApplyTx(cfg, l, tx, epoch), tx, epoch, IsTaken(cfg, l, tx, epoch))
  {
    hide SeatEffect, OutputSum, CreditAll;
    if tx.memo.batch.Some? { CreditsTouchLittle(l, tx.from, tx.from, tx.Need(), tx.memo.batch.value); }
  }

  lemma PayoutChanges(cfg: Config, l: Ledger, tx: Tx, epoch: int)
    requires tx.nonce == l.Nonce(tx.from) && tx.kind.PoolPayout?
    ensures Changed(cfg, l, ApplyTx(cfg, l, tx, epoch), tx, epoch, IsTaken(cfg, l, tx, epoch))
  {
    hide SeatEffect, OutputSum, CreditAll, PayoutRefused;
    PayoutRefusedIff(cfg, l, tx, epoch);
    if tx.memo.payout.Some? {
      CreditsTouchLittle(l, cfg.Settler(), tx.from, tx.Need(), tx.memo.payout.value.outputs);
    }
  }

  lemma GrantChanges(cfg: Config, l: Ledger, tx: Tx, epoch: int)
    requires tx.nonce == l.Nonce(tx.from) && tx.kind.ReserveGrant?
    ensures Changed(cfg, l, ApplyTx(cfg, l, tx, epoch), tx, epoch, IsTaken(cfg, l, tx, epoch))
  {
    hide SeatEffect, OutputSum, MayPayBucket;
  }

  lemma TransferChanges(cfg: Config, l: Ledger, tx: Tx, epoch: int)
    requires tx.nonce == l.Nonce(tx.from) && !IsFree(tx) && !tx.kind.Anchor?
    requires tx.kind !in {ReserveGrant, BatchTransfer, PoolPayout}
    ensures ApplyTx(cfg, l, tx, epoch) == ApplyTransfer(l, tx)
    ensures Changed(cfg, l, ApplyTx(cfg, l, tx, epoch), tx, epoch, IsTaken(cfg, l, tx, epoch))
    ensures !IsTaken(cfg, l, tx, epoch) ==> ApplyTransfer(l, tx) == l
  {
    hide SeatEffect, OutputSum, MayPayBucket, ApplyTx;
    ApplyIsTransfer(cfg, l, tx, epoch);
  }

  // A transaction changes exactly this, besides the money: with another nonce than the
  // sender's next, or not taken, nothing at all.
  lemma TransactionIsExact(cfg: Config, l: Ledger, tx: Tx, epoch: int)
    ensures var m, next := ApplyTx(cfg, l, tx, epoch), tx.nonce == l.Nonce(tx.from);
            && Changed(cfg, l, m, tx, epoch, next && IsTaken(cfg, l, tx, epoch))
            && (!(next && IsTaken(cfg, l, tx, epoch)) ==> m == l)
  {
    hide Changed, SeatEffect, OutputSum, ApplyBatch, ApplyPayout;
    if tx.nonce != l.Nonce(tx.from) {
      UntakenChanges(cfg, l, tx, epoch);
    } else if IsFree(tx) {
      FreeChanges(cfg, l, tx, epoch);
    } else if tx.kind.Anchor? {
      AnchorChanges(cfg, l, tx, epoch);
    } else if tx.kind.BatchTransfer? {
      BatchChanges(cfg, l, tx, epoch);
      if !IsTaken(cfg, l, tx, epoch) { UntakenBatch(cfg, l, tx, epoch); }
    } else if tx.kind.PoolPayout? {
      PayoutChanges(cfg, l, tx, epoch);
      if !IsTaken(cfg, l, tx, epoch) { UntakenPayout(cfg, l, tx, epoch); }
    } else if tx.kind.ReserveGrant? {
      GrantChanges(cfg, l, tx, epoch);
    } else {
      TransferChanges(cfg, l, tx, epoch);
    }
  }

  lemma UntakenBatch(cfg: Config, l: Ledger, tx: Tx, epoch: int)
    requires tx.kind.BatchTransfer? && !IsTaken(cfg, l, tx, epoch)
    ensures ApplyBatch(l, tx) == l
  {
    hide OutputSum;
  }

  lemma UntakenPayout(cfg: Config, l: Ledger, tx: Tx, epoch: int)
    requires tx.kind.PoolPayout? && !IsTaken(cfg, l, tx, epoch)
    ensures ApplyPayout(cfg, l, tx, epoch) == l
  {
    hide OutputSum, PayoutRefused;
    PayoutRefusedIff(cfg, l, tx, epoch);
  }

  // Delegating to someone new and then revoking that gives back the founders there were.
  lemma RevokeUndoesDelegate(cfg: Config, l: Ledger, tx: Tx, later: Tx, epoch: int, then_: int)
    requires tx.kind.FounderDelegate? && later.kind.FounderRevoke? && tx.to == later.to
    requires cfg.founder in l.founders && tx.to !in l.founders && tx.to != tx.from
    requires tx.nonce == l.Nonce(tx.from) && later.nonce == ApplyTx(cfg, l, tx, epoch).Nonce(later.from)
    requires SignedByFounder(l, tx) && later.from in l.founders && later.amount == 0
    ensures ApplyTx(cfg, ApplyTx(cfg, l, tx, epoch), later, then_).founders == l.founders
  {
    hide ApplyTx, SeatEffect;
    var m := ApplyTx(cfg, l, tx, epoch);
    TransactionIsExact(cfg, l, tx, epoch);
    TransactionIsExact(cfg, m, later, then_);
  }

  // ---- what a drain does with one transaction ----

  // It is the sender's next, or the gap before it has lasted longer than allowed; and it is taken.
  predicate TakesTurn(cfg: Config, l: Ledger, tx: Tx, epoch: int) {
    && (tx.nonce == l.Nonce(tx.from) || (tx.nonce > l.Nonce(tx.from) && tx.timestamp / 5000 + cfg.gapTtl < epoch))
    && IsTaken(cfg, l, tx, epoch)
  }

  // It stays pooled: not committed yet, not taken now, and not too old.
  predicate Waits(cfg: Config, l: Ledger, tx: Tx, epoch: int) {
    tx.nonce >= l.Nonce(tx.from) && !TakesTurn(cfg, l, tx, epoch) && tx.timestamp / 5000 + cfg.gapTtl >= epoch
  }

  // What is taken was not affected by closing the gap before it.
  lemma TakenAfterGap(cfg: Config, l: Ledger, tx: Tx, epoch: int, n: nat)
    ensures IsTaken(cfg, l.SetNonce(tx.from, n), tx, epoch) <==> IsTaken(cfg, l, tx, epoch)
  {
    hide SeatEffect, OutputSum;
    var m := l.SetNonce(tx.from, n);
    assert forall a :: m.Balance(a) == l.Balance(a);
  }

  // A transaction whose turn it is takes effect, from a ledger with its nonce reached. One
  // that waits leaves the ledger as it is. Any other is dropped: of all the ledger only its
  // sender's nonce moves, past it.
  lemma TurnIsExact(cfg: Config, l: Ledger, tx: Tx, epoch: int)
    ensures var o := DrainOne(cfg, l, tx, epoch);
            && (o.applied <==> TakesTurn(cfg, l, tx, epoch))
            && (o.kept <==> Waits(cfg, l, tx, epoch))
            && (o.applied ==>
                  exists r: Ledger :: o.ledger == ApplyTx(cfg, r, tx, epoch) && OnlyNonce(l, r, tx.from, tx.nonce))
            && (o.kept ==> o.ledger == l)
            && (!o.applied && !o.kept ==>
                  OnlyNonce(l, o.ledger, tx.from,
                            if tx.nonce < l.Nonce(tx.from) then l.Nonce(tx.from) else tx.nonce + 1))
  {
    hide ApplyTx, IsTaken, Changed;
    var r := CloseGap(l, tx);
    if !Stale(l, tx) {
      TakenAfterGap(cfg, l, tx, epoch, tx.nonce);
      TransactionIsExact(cfg, r, tx, epoch);
      assert Changed(cfg, r, ApplyTx(cfg, r, tx, epoch), tx, epoch, IsTaken(cfg, l, tx, epoch));
      ChangedNonce(cfg, r, ApplyTx(cfg, r, tx, epoch), tx, epoch, IsTaken(cfg, l, tx, epoch));
      assert OnlyNonce(l, r, tx.from, tx.nonce);
    }
  }

  lemma ChangedNonce(cfg: Config, l: Ledger, m: Ledger, tx: Tx, epoch: int, taken: bool)
    requires Changed(cfg, l, m, tx, epoch, taken)
    ensures m.Nonce(tx.from) == l.Nonce(tx.from) + (if taken then 1 else 0)
  { }

  // m is l but for the nonce of a, which is n.
  ghost predicate OnlyNonce(l: Ledger, m: Ledger, a: Address, n: nat) {
    && m == l.(accounts := m.accounts)
    && forall b :: m.Balance(b) == l.Balance(b) && m.Nonce(b) == if b == a then n else l.Nonce(b)
  }

  // ---- and an epoch with its pools ----

  // The ledger that t meets when its turn comes in the drain of this epoch.
  ghost predicate MeetsAt(cfg: Config, n: Node, epoch: int, t: Tx, l: Ledger) {
    var due := Due(n.txPool, epoch);
    exists i :: 0 <= i < |due| && due[i] == t && l == DrainAll(cfg, n.ledger, due[..i], epoch).ledger
  }

  lemma {:induction false} DrainSorts(cfg: Config, l: Ledger, txs: seq<Tx>, epoch: int, i: nat)
    requires Distinct(TxKey(), txs) && i < |txs|
    ensures var d, o := DrainAll(cfg, l, txs, epoch),
              DrainOne(cfg, DrainAll(cfg, l, txs[..i], epoch).ledger, txs[i], epoch);
            (txs[i] in d.kept <==> o.kept) && (txs[i] in d.applied <==> o.applied)
  {
    hide DrainOne;
    var n := |txs| - 1;
    DrainNeverWedges(cfg, l, txs[..n], epoch);
    if i < n {
      assert Distinct(TxKey(), txs[..n]);
      assert txs[..n][..i] == txs[..i] && txs[..n][i] == txs[i];
      DrainSorts(cfg, l, txs[..n], epoch, i);
      assert TxKey()(txs[i]) != TxKey()(txs[n]);
    } else {
      forall k | 0 <= k < n ensures txs[k] != txs[n] { assert TxKey()(txs[k]) != TxKey()(txs[n]); }
    }
  }

  // A pooled transaction is left alone until eight epochs after its own; then it takes effect
  // if it is its turn, and stays in the pool exactly if it must wait.
  lemma EpochSettles(cfg: Config, n: Node, epoch: int, t: Tx)
    requires Distinct(TxKey(), n.txPool) && t in n.txPool
    ensures var d, after := DrainAll(cfg, n.ledger, Due(n.txPool, epoch), epoch), Process(cfg, n, epoch).txPool;
            if t.timestamp / 5000 + 8 > epoch then t in after && t !in d.applied
            else exists l :: MeetsAt(cfg, n, epoch, t, l)
                             && (t in d.applied <==> TakesTurn(cfg, l, t, epoch))
                             && (t in after <==> Waits(cfg, l, t, epoch))
  {
    hide DrainAll, TakesTurn, Waits, Step, KeysStep, StillYoung;
    var due := Due(n.txPool, epoch);
    var d := DrainAll(cfg, n.ledger, due, epoch);
    DrainNeverWedges(cfg, n.ledger, due, epoch);
    assert Process(cfg, n, epoch).txPool == StillPooled(n.txPool, d.kept, epoch);
    if t.timestamp / 5000 + 8 <= epoch {
      assert IsDue(t, epoch) && t in due;
      var i :| 0 <= i < |due| && due[i] == t;
      var l := DrainAll(cfg, n.ledger, due[..i], epoch).ledger;
      DueIsDistinct(n.txPool, epoch);
      DrainSorts(cfg, n.ledger, due, epoch, i);
      TurnIsExact(cfg, l, t, epoch);
      assert MeetsAt(cfg, n, epoch, t, l);
    }
  }

  lemma DueIsDistinct(pool: seq<Tx>, epoch: int)
    requires Distinct(TxKey(), pool)
    ensures Distinct(TxKey(), Due(pool, epoch))
  {
    var due := (t: Tx) => IsDue(t, epoch);
    var s := Filter(due, pool);
    FilterIsDistinct(TxKey(), due, pool);
    SortIsDistinct(s);
  }

  lemma SortIsDistinct(s: seq<Tx>)
    requires Distinct(TxKey(), s)
    ensures Distinct(TxKey(), Sort(TxOrder(), s))
  {
    var r := Sort(TxOrder(), s);
    TxOrderIsStrict();
    PoolIsComparable(s);
    SortAscends(TxOrder(), s);
    forall i, j | 0 <= i < j < |r| ensures r[i].id != r[j].id {
      assert TxOrder()(r[i], r[j]) && r[i] in s && r[j] in s;
      var k, m :| 0 <= k < |s| && 0 <= m < |s| && s[k] == r[i] && s[m] == r[j];
      assert k != m;
      assert TxKey()(s[k]) != TxKey()(s[m]);
    }
  }

  // Turns come sender by sender, each sender's by nonce, and those of one nonce by id.
  lemma TurnsAreInOrder(pool: seq<Tx>, epoch: int)
    requires Distinct(TxKey(), pool)
    ensures var due := Due(pool, epoch);
            forall i, j :: 0 <= i < j < |due| ==>
              if due[i].from != due[j].from then Before(due[i].from, due[j].from)
              else due[i].nonce < due[j].nonce || (due[i].nonce == due[j].nonce && Before(due[i].id, due[j].id))
  {
    var due := (t: Tx) => IsDue(t, epoch);
    FilterIsDistinct(TxKey(), due, pool);
    TxOrderIsStrict();
    PoolIsComparable(Filter(due, pool));
    SortAscends(TxOrder(), Filter(due, pool));
    var s := Due(pool, epoch);
    forall i, j | 0 <= i < j < |s| ensures TxBefore(s[i], s[j]) { assert TxOrder()(s[i], s[j]); }
  }

  // An observation leaves the pool exactly when no window will read it again: 14 epochs after
  // its own, or 30 for a heartbeat.
  lemma EpochAgesOut(cfg: Config, n: Node, epoch: int, o: Obs)
    ensures o in Process(cfg, n, epoch).obsPool
       <==> o in n.obsPool && o.timestamp / 5000 + (if o.subject == HEARTBEAT then 30 else 14) > epoch
  {
    hide DrainAll, Step, KeysStep, StillPooled;
    assert Process(cfg, n, epoch).obsPool == StillYoung(n.obsPool, epoch);
  }

  // An epoch can be closed exactly when it has ended and 20 seconds have passed since.
  lemma ClosableIff(now: int, epoch: int)
    ensures ClosableEpoch(now) >= epoch <==> (epoch + 1) * 5000 + 20000 <= now
  { }
}
