// What every step of the committed ledger keeps, and hence every run.
//
// Everything processEpoch does to the ledger is a sequence of acts: applying one
// transaction, closing a nonce gap, skipping an expired transaction, emitting, sealing
// validators, paying a bucket. The laws hold of any sequence of acts whatever.
module Laws {
  import opened Events
  import opened Order
  import opened Seats
  import opened Ledger
  import opened Conservation
  import opened Emission
  import opened Apportion
  import opened Heartbeats
  import opened FieldPayout
  import opened Drain

  datatype Act =
    | Apply(tx: Tx, epoch: int)
    | Close(tx: Tx)
    | Skip(tx: Tx)
    | EmitThrough(epoch: int)
    | Seal(members: seq<Address>)
    | Pay(obs: seq<Obs>, epoch: int)

  ghost function Do(cfg: Config, l: Ledger, a: Act): Ledger {
    match a
    case Apply(tx, epoch) => ApplyTx(cfg, l, tx, epoch)
    case Close(tx) => CloseGap(l, tx)
    case Skip(tx) => l.Spend(tx.from)
    case EmitThrough(epoch) => Emit(cfg, l, epoch)
    case Seal(members) => l.(validators := members)
    case Pay(obs, epoch) => Distribute(cfg, l, obs, epoch)
  }

  ghost function DoAll(cfg: Config, l: Ledger, acts: seq<Act>): Ledger {
    if acts == [] then l else Do(cfg, DoAll(cfg, l, acts[..|acts| - 1]), acts[|acts| - 1])
  }

  lemma {:induction false} DoAllAppends(cfg: Config, l: Ledger, a: seq<Act>, b: seq<Act>)
    ensures DoAll(cfg, l, a + b) == DoAll(cfg, DoAll(cfg, l, a), b)
  {
    if b == [] {
      assert a + b == a;
    } else {
      var n := |b| - 1;
      DoAllAppends(cfg, l, a, b[..n]);
      assert (a + b)[..|a + b| - 1] == a + b[..n];
    }
  }

  // The laws, as a relation between an earlier and a later ledger.
  ghost predicate Lawful(cfg: Config, l: Ledger, m: Ledger) {
    // conservation: genesis total == balances - emitted + burned, no overdraft, capped issuance
    && Origin(m) == Origin(l)
    && (Solvent(l) ==> Solvent(m))
    && l.supply.emitted <= m.supply.emitted && (l.supply.emitted <= EARNED_CAP ==> m.supply.emitted <= EARNED_CAP)
    && l.supply.burned <= m.supply.burned
    // committed nonces never fall
    && NoncesGrow(l, m)
    // seats only evolve
    && (GoodSeats(l.seats) ==> GoodSeats(m.seats) && Evolves(l.seats, m.seats))
    // the payout watermark never falls, the genesis founder is never revoked
    && l.paidBucket <= m.paidBucket
    && (cfg.founder in l.founders ==> cfg.founder in m.founders)
  }

  lemma LawfulIsTransitive(cfg: Config, a: Ledger, b: Ledger, c: Ledger)
    requires Lawful(cfg, a, b) && Lawful(cfg, b, c)
    ensures Lawful(cfg, a, c)
  {
    NoncesGrowTransitively(a, b, c);
    if GoodSeats(a.seats) { EvolvesIsTransitive(a.seats, b.seats, c.seats); }
  }

  // Everything but accounts, seats and the fee burnt, as far as the laws look at it.
  ghost predicate SideEffects(cfg: Config, l: Ledger, m: Ledger) {
    && m.supply.emitted == l.supply.emitted && l.supply.burned <= m.supply.burned
    && (cfg.founder in l.founders ==> cfg.founder in m.founders)
    && l.paidBucket <= m.paidBucket && l.emittedThrough == m.emittedThrough && l.validators == m.validators
  }

  lemma BatchFrame(cfg: Config, l: Ledger, tx: Tx)
    ensures var m := ApplyBatch(l, tx); SideEffects(cfg, l, m) && m.seats == l.seats
  {
    if tx.memo.batch.Some? {
      CreditAllKeeps(l.Debit(tx.from, tx.Need()).Spend(tx.from), tx.memo.batch.value);
    }
  }

  lemma PayoutFrame(cfg: Config, l: Ledger, tx: Tx, epoch: int)
    ensures var m := ApplyPayout(cfg, l, tx, epoch); SideEffects(cfg, l, m) && m.seats == l.seats
  {
    if tx.memo.payout.Some? {
      CreditAllKeeps(l.Debit(cfg.Settler(), tx.Need()).Spend(tx.from), tx.memo.payout.value.outputs);
    }
  }

  lemma FounderFrame(cfg: Config, l: Ledger, tx: Tx)
    ensures var m := ApplyFounder(cfg, l, tx); SideEffects(cfg, l, m) && m.seats == l.seats
  { }

  lemma BeneficiaryFrame(cfg: Config, l: Ledger, tx: Tx, epoch: int)
    ensures var m := ApplyBeneficiary(cfg, l, tx, epoch); SideEffects(cfg, l, m) && m.seats == l.seats
  { }

  lemma AnchorFrame(cfg: Config, l: Ledger, tx: Tx)
    requires tx.kind.Anchor?
    ensures SideEffects(cfg, l, ApplyAnchor(cfg, l, tx))
  { }

  lemma GrantFrame(cfg: Config, l: Ledger, tx: Tx)
    ensures var m := ApplyGrant(cfg, l, tx); SideEffects(cfg, l, m) && m.seats == l.seats
  { }

  lemma TransferFrame(cfg: Config, l: Ledger, tx: Tx)
    ensures var m := ApplyTransfer(l, tx); SideEffects(cfg, l, m) && m.seats == l.seats
  { }

  lemma ApplyFrame(cfg: Config, l: Ledger, tx: Tx, epoch: int)
    ensures var m := ApplyTx(cfg, l, tx, epoch);
            SideEffects(cfg, l, m) && (!tx.kind.Anchor? ==> m.seats == l.seats)
  {
    hide ApplyFounder, ApplyBeneficiary, ApplyAnchor, ApplyGrant, ApplyBatch, ApplyPayout, ApplyTransfer;
    match tx.kind
    case StorageAttest =>
    case FounderDelegate => FounderFrame(cfg, l, tx);
    case FounderRevoke => FounderFrame(cfg, l, tx);
    case SetBeneficiary => BeneficiaryFrame(cfg, l, tx, epoch);
    case Anchor(_) => AnchorFrame(cfg, l, tx);
    case ReserveGrant => GrantFrame(cfg, l, tx);
    case BatchTransfer => BatchFrame(cfg, l, tx);
    case PoolPayout => PayoutFrame(cfg, l, tx, epoch);
    case _ => TransferFrame(cfg, l, tx);
  }

  // Seats change only by an accepted anchor transaction, and then as SeatEffectIsSound says.
  lemma ApplySeats(cfg: Config, l: Ledger, tx: Tx, epoch: int)
    requires GoodSeats(l.seats)
    ensures var m := ApplyTx(cfg, l, tx, epoch); GoodSeats(m.seats) && Evolves(l.seats, m.seats)
  {
    if tx.kind.Anchor? && tx.nonce == l.Nonce(tx.from) && tx.memo.anchor.Some? {
      var r := SeatEffect(cfg, l.founders, l.seats, tx, tx.kind.op, tx.memo.anchor.value);
      if r.Some? { SeatEffectIsSound(cfg, l.founders, l.seats, tx, tx.kind.op, tx.memo.anchor.value); }
    } else {
      ApplyFrame(cfg, l, tx, epoch);
    }
  }

  lemma ApplyIsLawful(cfg: Config, l: Ledger, tx: Tx, epoch: int)
    ensures Lawful(cfg, l, ApplyTx(cfg, l, tx, epoch))
  {
    ApplyTxConserves(cfg, l, tx, epoch);
    ApplyTxSpendsOneNonce(cfg, l, tx, epoch);
    ApplyFrame(cfg, l, tx, epoch);
    if GoodSeats(l.seats) { ApplySeats(cfg, l, tx, epoch); }
  }

  lemma SetNonceIsLawful(cfg: Config, l: Ledger, a: Address, n: nat)
    requires n >= l.Nonce(a)
    ensures Lawful(cfg, l, l.SetNonce(a, n))
  {
    TotalAfterUpdate(l.accounts, a, l.Acct(a).(nonce := n));
    forall b | Solvent(l) ensures l.SetNonce(a, n).Balance(b) >= 0 { assert l.Balance(b) >= 0; }
    assert GoodSeats(l.seats) ==> Evolves(l.seats, l.seats);
  }

  lemma {:induction false} EmitRoundsIsLawful(cfg: Config, l: Ledger, rounds: nat)
    ensures Lawful(cfg, l, EmitRounds(cfg, l, rounds))
    decreases rounds
  {
    var per := PerRound(l.supply.emitted);
    assert Evolves(l.seats, l.seats);
    if rounds != 0 && per != 0 && l.supply.emitted + per <= EARNED_CAP {
      var m := Mint(cfg, l, per);
      MintIsLawful(cfg, l, per);
      EmitRoundsIsLawful(cfg, m, rounds - 1);
      LawfulIsTransitive(cfg, l, m, EmitRounds(cfg, m, rounds - 1));
    }
  }

  lemma MintIsLawful(cfg: Config, l: Ledger, per: nat)
    requires l.supply.emitted + per <= EARNED_CAP
    ensures Lawful(cfg, l, Mint(cfg, l, per))
  {
    var c := l.Credit(cfg.Settler(), per);
    CreditMoves(l, cfg.Settler(), per);
    if Solvent(l) {
      CreditKeepsSolvent(l, cfg.Settler(), per);
      SameAccountsSolvent(c, Mint(cfg, l, per));
    }
    assert Evolves(l.seats, l.seats);
  }

  lemma EmitIsLawful(cfg: Config, l: Ledger, epoch: int)
    ensures Lawful(cfg, l, Emit(cfg, l, epoch))
  {
    assert Evolves(l.seats, l.seats);
    if epoch > l.emittedThrough && cfg.masters != [] {
      var m := EmitRounds(cfg, l, epoch - l.emittedThrough);
      EmitRoundsIsLawful(cfg, l, epoch - l.emittedThrough);
      if Solvent(m) { SameAccountsSolvent(m, Emit(cfg, l, epoch)); }
    } else if Solvent(l) {
      SameAccountsSolvent(l, Emit(cfg, l, epoch));
    }
  }

  // ---- the field payout ----

  lemma {:induction false} CreditPayeesMoves(cfg: Config, l: Ledger, payees: seq<Address>, amounts: seq<nat>,
                                             epoch: int)
    requires |payees| == |amounts|
    ensures var m := CreditPayees(cfg, l, payees, amounts, epoch);
            && Total(m.accounts) == Total(l.accounts) + SumNat(amounts)
            && m == l.(accounts := m.accounts)
            && (forall a :: m.Nonce(a) == l.Nonce(a))
            && (Solvent(l) ==> Solvent(m))
  {
    if payees != [] {
      var n := |payees| - 1;
      var p := CreditPayees(cfg, l, payees[..n], amounts[..n], epoch);
      CreditPayeesMoves(cfg, l, payees[..n], amounts[..n], epoch);
      var to := BeneficiaryOf(cfg, p, payees[n], epoch);
      CreditMoves(p, to, amounts[n]);
      if Solvent(l) { CreditKeepsSolvent(p, to, amounts[n]); }
      assert forall a :: p.Credit(to, amounts[n]).Nonce(a) == p.Nonce(a);
    }
  }

  // A paid bucket moves exactly the pool, from the settler to payees that are strictly
  // sorted, at most 64, and neither the settler nor a master; an unfunded or payee-less
  // bucket is left untouched and stays payable.
  lemma DistributeMovesThePool(cfg: Config, l: Ledger, obs: seq<Obs>, epoch: int)
    ensures var m := Distribute(cfg, l, obs, epoch);
            && (!PaysNow(cfg, l, obs, epoch) ==> m == l)
            && (PaysNow(cfg, l, obs, epoch) ==>
                  var payees := Payees(cfg, LatestHeartbeats(cfg, obs, epoch));
                  && m.paidBucket == Bucket(epoch) > l.paidBucket
                  && Total(m.accounts) == Total(l.accounts)
                  && SumNat(Amounts(cfg, l, LatestHeartbeats(cfg, obs, epoch), payees, epoch)) == POOL
                  && Ascending(ByName(), payees) && |payees| <= MAX_PAYEES
                  && (forall a :: a in payees ==> MayBePaid(cfg, a)))
  {
    if PaysNow(cfg, l, obs, epoch) {
      var latest := LatestHeartbeats(cfg, obs, epoch);
      var payees := Payees(cfg, latest);
      PayeesAreProper(cfg, latest);
      AmountsSum(cfg, l, latest, payees, epoch);
      CreditMoves(l, cfg.Settler(), 0 - POOL);
      CreditPayeesMoves(cfg, l.Debit(cfg.Settler(), POOL), payees, Amounts(cfg, l, latest, payees, epoch), epoch);
    }
  }

  lemma DistributeIsLawful(cfg: Config, l: Ledger, obs: seq<Obs>, epoch: int)
    ensures Lawful(cfg, l, Distribute(cfg, l, obs, epoch))
  {
    assert Evolves(l.seats, l.seats);
    DistributeMovesThePool(cfg, l, obs, epoch);
    if PaysNow(cfg, l, obs, epoch) {
      var latest := LatestHeartbeats(cfg, obs, epoch);
      var payees := Payees(cfg, latest);
      var d := l.Debit(cfg.Settler(), POOL);
      var c := CreditPayees(cfg, d, payees, Amounts(cfg, l, latest, payees, epoch), epoch);
      CreditPayeesMoves(cfg, d, payees, Amounts(cfg, l, latest, payees, epoch), epoch);
      assert forall a :: d.Nonce(a) == l.Nonce(a);
      if Solvent(l) {
        forall b ensures d.Balance(b) >= 0 { assert l.Balance(b) >= 0; }
        SameAccountsSolvent(c, Distribute(cfg, l, obs, epoch));
      }
    }
  }

  lemma DoIsLawful(cfg: Config, l: Ledger, a: Act)
    ensures Lawful(cfg, l, Do(cfg, l, a))
  {
    assert Evolves(l.seats, l.seats);
    match a
    case Apply(tx, epoch) => ApplyIsLawful(cfg, l, tx, epoch);
    case Close(tx) =>
      LawfulIsReflexive(cfg, l);
      if tx.nonce > l.Nonce(tx.from) { SetNonceIsLawful(cfg, l, tx.from, tx.nonce); }
    case Skip(tx) => SetNonceIsLawful(cfg, l, tx.from, l.Nonce(tx.from) + 1);
    case EmitThrough(epoch) => EmitIsLawful(cfg, l, epoch);
    case Seal(members) => if Solvent(l) { SameAccountsSolvent(l, l.(validators := members)); }
    case Pay(obs, epoch) => DistributeIsLawful(cfg, l, obs, epoch);
  }

  lemma LawfulIsReflexive(cfg: Config, l: Ledger)
    ensures Lawful(cfg, l, l)
  {
    assert Evolves(l.seats, l.seats);
  }

  // Conservation, replay safety and the seat laws over any run.
  lemma {:induction false} EveryRunIsLawful(cfg: Config, l: Ledger, acts: seq<Act>)
    ensures Lawful(cfg, l, DoAll(cfg, l, acts))
  {
    if acts == [] {
      LawfulIsReflexive(cfg, l);
    } else {
      var n := |acts| - 1;
      EveryRunIsLawful(cfg, l, acts[..n]);
      DoIsLawful(cfg, DoAll(cfg, l, acts[..n]), acts[n]);
      LawfulIsTransitive(cfg, l, DoAll(cfg, l, acts[..n]), DoAll(cfg, l, acts));
    }
  }

  // ---- who may change what ----

  // A seat changes hands only by an anchor transaction of its owner, or by a claim with the
  // matching code while nobody owns it.
  lemma OwnerChangesOnlyByRight(cfg: Config, l: Ledger, a: Act, id: string)
    requires GoodSeats(l.seats) && id in l.seats
    ensures var m := Do(cfg, l, a);
            && id in m.seats
            && (m.seats[id].owner != l.seats[id].owner ==>
                  a.Apply? && a.tx.memo.anchor.Some? &&
                    MayReassign(cfg, l.seats[id], m.seats[id], a.tx, a.tx.memo.anchor.value))
  {
    hide ApplyTx;
    match a
    case Apply(tx, epoch) => AppliedOwnerChange(cfg, l, tx, epoch, id);
    case Close(tx) =>
    case Skip(tx) =>
    case EmitThrough(epoch) => EmitKeeps(cfg, l, epoch);
    case Seal(members) =>
    case Pay(obs, epoch) => DistributeKeepsSeats(cfg, l, obs, epoch);
  }

  lemma AppliedOwnerChange(cfg: Config, l: Ledger, tx: Tx, epoch: int, id: string)
    requires GoodSeats(l.seats) && id in l.seats
    ensures var m := ApplyTx(cfg, l, tx, epoch);
            && id in m.seats
            && (m.seats[id].owner != l.seats[id].owner ==>
                  tx.memo.anchor.Some? && MayReassign(cfg, l.seats[id], m.seats[id], tx, tx.memo.anchor.value))
  {
    hide SeatEffect;
    ApplySeats(cfg, l, tx, epoch);
    if tx.kind.Anchor? && tx.nonce == l.Nonce(tx.from) && tx.memo.anchor.Some? {
      var r := SeatEffect(cfg, l.founders, l.seats, tx, tx.kind.op, tx.memo.anchor.value);
      if r.Some? { SeatEffectIsSound(cfg, l.founders, l.seats, tx, tx.kind.op, tx.memo.anchor.value); }
    } else {
      ApplyFrame(cfg, l, tx, epoch);
    }
  }

  lemma DistributeKeepsSeats(cfg: Config, l: Ledger, obs: seq<Obs>, epoch: int)
    ensures Distribute(cfg, l, obs, epoch).seats == l.seats
  {
    if PaysNow(cfg, l, obs, epoch) {
      var latest := LatestHeartbeats(cfg, obs, epoch);
      var payees := Payees(cfg, latest);
      CreditPayeesMoves(cfg, l.Debit(cfg.Settler(), POOL), payees, Amounts(cfg, l, latest, payees, epoch), epoch);
    }
  }

  // ---- at most once ----

  // The transactions of a run that took effect, in order.
  ghost function Effective(cfg: Config, l: Ledger, acts: seq<Act>): seq<Tx> {
    if acts == [] then []
    else
      var n := |acts| - 1;
      var before := DoAll(cfg, l, acts[..n]);
      var a := acts[n];
      Effective(cfg, l, acts[..n]) + (if a.Apply? && Do(cfg, before, a) != before then [a.tx] else [])
  }

  // The buckets paid in a run, in order, whichever route paid them.
  ghost function PaidBuckets(cfg: Config, l: Ledger, acts: seq<Act>): seq<int> {
    if acts == [] then []
    else
      var n := |acts| - 1;
      PaidBuckets(cfg, l, acts[..n]) + PaidBy(cfg, DoAll(cfg, l, acts[..n]), acts[n])
  }

  function PaidBy(cfg: Config, l: Ledger, a: Act): seq<int> {
    match a
    case Apply(tx, epoch) =>
      if tx.kind.PoolPayout? && tx.nonce == l.Nonce(tx.from) && !PayoutRefused(cfg, l, tx, epoch) &&
        l.Balance(cfg.Settler()) >= tx.Need()
      then [tx.memo.payout.value.bucket] else []
    case Pay(obs, epoch) => if PaysNow(cfg, l, obs, epoch) then [Bucket(epoch)] else []
    case _ => []
  }

  // The nonces of each sender rise along the sequence, from l's and below m's.
  ghost predicate RisingNonces(l: Ledger, e: seq<Tx>, m: Ledger) {
    && (forall i, j :: 0 <= i < j < |e| && e[i].from == e[j].from ==> e[i].nonce < e[j].nonce)
    && (forall i :: 0 <= i < |e| ==> l.Nonce(e[i].from) <= e[i].nonce < m.Nonce(e[i].from))
  }

  lemma RisingNoncesExtend(l: Ledger, e: seq<Tx>, m: Ledger, r: Ledger, last: seq<Tx>)
    requires RisingNonces(l, e, m) && NoncesGrow(l, m) && NoncesGrow(m, r)
    requires |last| <= 1 && forall i :: 0 <= i < |last| ==>
               last[i].nonce == m.Nonce(last[i].from) < r.Nonce(last[i].from)
    ensures RisingNonces(l, e + last, r)
  {
    var f := e + last;
    forall i | 0 <= i < |f| ensures l.Nonce(f[i].from) <= f[i].nonce < r.Nonce(f[i].from) {
      assert l.Nonce(f[i].from) <= m.Nonce(f[i].from) <= r.Nonce(f[i].from);
    }
  }

  // Over any run, the nonces a sender's transactions take effect with strictly increase:
  // each (sender, nonce) takes effect at most once.
  lemma {:induction false} NothingTakesEffectTwice(cfg: Config, l: Ledger, acts: seq<Act>)
    ensures RisingNonces(l, Effective(cfg, l, acts), DoAll(cfg, l, acts))
  {
    if acts != [] {
      var n := |acts| - 1;
      var before, after := DoAll(cfg, l, acts[..n]), DoAll(cfg, l, acts);
      NothingTakesEffectTwice(cfg, l, acts[..n]);
      EveryRunIsLawful(cfg, l, acts[..n]);
      DoIsLawful(cfg, before, acts[n]);
      if acts[n].Apply? { ApplyTxSpendsOneNonce(cfg, before, acts[n].tx, acts[n].epoch); }
      RisingNoncesExtend(l, Effective(cfg, l, acts[..n]), before, after,
                         if acts[n].Apply? && after != before then [acts[n].tx] else []);
    }
  }

  // Whatever pays from the pool is counted: an act that PaidBy does not list moves no pool money.
  lemma PaymentsAreCounted(cfg: Config, l: Ledger, a: Act)
    requires PaidBy(cfg, l, a) == []
    ensures a.Pay? ==> Do(cfg, l, a) == l
    ensures a.Apply? && a.tx.kind.PoolPayout? ==> Do(cfg, l, a) == l || Do(cfg, l, a) == l.Spend(a.tx.from)
  { }

  lemma PaidByRaisesWatermark(cfg: Config, l: Ledger, a: Act)
    ensures PaidBy(cfg, l, a) == [] ||
              (PaidBy(cfg, l, a) == [Do(cfg, l, a).paidBucket] && l.paidBucket < Do(cfg, l, a).paidBucket)
  {
    if a.Pay? { DistributeMovesThePool(cfg, l, a.obs, a.epoch); }
  }

  ghost predicate RisingBuckets(lo: int, p: seq<int>, hi: int) {
    && (forall i, j :: 0 <= i < j < |p| ==> p[i] < p[j])
    && (forall i :: 0 <= i < |p| ==> lo < p[i] <= hi)
  }

  lemma RisingBucketsExtend(lo: int, p: seq<int>, mid: int, q: seq<int>, hi: int)
    requires RisingBuckets(lo, p, mid) && lo <= mid <= hi
    requires q == [] || (q == [hi] && mid < hi)
    ensures RisingBuckets(lo, p + q, hi)
  { }

  // Over any run, counting both routes, each bucket is paid at most once, and never one at
  // or below the watermark the run started from.
  lemma {:induction false} EachBucketPaidOnce(cfg: Config, l: Ledger, acts: seq<Act>)
    ensures RisingBuckets(l.paidBucket, PaidBuckets(cfg, l, acts), DoAll(cfg, l, acts).paidBucket)
  {
    if acts != [] {
      var n := |acts| - 1;
      var before := DoAll(cfg, l, acts[..n]);
      EachBucketPaidOnce(cfg, l, acts[..n]);
      EveryRunIsLawful(cfg, l, acts[..n]);
      DoIsLawful(cfg, before, acts[n]);
      PaidByRaisesWatermark(cfg, before, acts[n]);
      RisingBucketsExtend(l.paidBucket, PaidBuckets(cfg, l, acts[..n]), before.paidBucket,
                          PaidBy(cfg, before, acts[n]), DoAll(cfg, l, acts).paidBucket);
    }
  }
}
