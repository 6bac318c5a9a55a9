// The state machine as the program runs it: one object whose maps, pools and cursors are
// updated in place (class State in State.ts). Every method is proved to compute the
// corresponding function of Node, so what is proved of those functions holds of the object.
module StateMachine {
  import opened Events
  import opened Order
  import opened Apportion
  import opened Heartbeats
  import opened WorkWeights
  import opened Seats
  import L = Ledger
  import opened Emission
  import opened FieldPayout
  import opened Drain
  import opened Trust
  import opened Tenure
  import N = Node
  import opened Clock
  import Cluster
  import Conservation
  import FastSync

  type Account = L.Account
  type Supply = L.Supply

  class State {
    const cfg: Config

    var accounts: map<Address, Account>
    var supply: Supply
    var founders: set<Address>
    var seats: SeatMap
    var beneficiaries: map<Address, Address>
    var paidBucket: int
    var validators: seq<Address>
    var emittedThrough: int

    var trust: TrustMap
    var keys: Keys
    var locks: map<string, int>
    var txPool: seq<Tx>
    var obsPool: seq<Obs>
    var known: seq<string>
    var epoch: int
    var floor: int

    ghost function Ledger(): L.Ledger
      reads this
    {
      L.Ledger(accounts, supply, founders, seats, beneficiaries, paidBucket, validators, emittedThrough)
    }

    ghost function View(): N.Node
      reads this
    {
      N.Node(Ledger(), trust, keys, txPool, obsPool, known, epoch, floor)
    }

    // No lock is newer than this epoch.
    ghost predicate LocksThrough(e: int)
      reads this
    {
      forall subject :: subject in locks ==> locks[subject] <= e
    }

    ghost predicate ValidThrough(e: int)
      reads this
    {
      PoolsDistinct(View()) && ActiveHaveKeys(trust, keys) && LocksThrough(e)
    }

    ghost predicate Valid()
      reads this
    {
      ValidThrough(epoch)
    }

    // ---- accounts ----

    function Acct(a: Address): Account
      reads this
    {
      if a in accounts then accounts[a] else L.Account(0, 0)
    }

    method Credit(a: Address, v: int)
      modifies `accounts
      ensures Ledger() == old(Ledger()).Credit(a, v)
    {
      accounts := accounts[a := Acct(a).(balance := Acct(a).balance + v)];
    }

    method Spend(a: Address)
      modifies `accounts
      ensures Ledger() == old(Ledger()).Spend(a)
    {
      accounts := accounts[a := Acct(a).(nonce := Acct(a).nonce + 1)];
    }

    method Burn(v: nat)
      modifies `supply
      ensures Ledger() == old(Ledger()).Burn(v)
    {
      supply := supply.(burned := supply.burned + v);
    }

    method CreditOutputs(outs: seq<Output>)
      modifies `accounts
      ensures Ledger() == L.CreditAll(old(Ledger()), outs)
    {
      ghost var start := Ledger();
      for i := 0 to |outs|
        invariant Ledger() == L.CreditAll(start, outs[..i])
      {
        assert outs[..i + 1][..i] == outs[..i];
        Credit(outs[i].to, outs[i].amount);
      }
      assert outs[..|outs|] == outs;
    }

    // ---- applying one transaction ----

    method ApplyTransfer(tx: Tx)
      modifies `accounts, `supply
      ensures Ledger() == L.ApplyTransfer(old(Ledger()), tx)
    {
      if Acct(tx.from).balance < tx.Need() { return; }
      Credit(tx.from, 0 - tx.Need());
      Spend(tx.from);
      if tx.kind.BondBurn? { Burn(tx.amount); } else { Credit(tx.to, tx.amount); }
      Burn(tx.fee);
    }

    method ApplyGrant(tx: Tx)
      modifies `accounts, `supply
      ensures Ledger() == L.ApplyGrant(cfg, old(Ledger()), tx)
    {
      if tx.from !in founders || Acct(cfg.founder).balance < tx.Need() { return; }
      Credit(cfg.founder, 0 - tx.Need());
      Spend(tx.from);
      Credit(tx.to, tx.amount);
      Burn(tx.fee);
      assert Ledger()
          == old(Ledger()).Debit(cfg.founder, tx.Need()).Spend(tx.from).Credit(tx.to, tx.amount).Burn(tx.fee);
      supply := supply.(reserve := if tx.amount <= supply.reserve then supply.reserve - tx.amount else 0);
    }

    method ApplyBatch(tx: Tx)
      modifies `accounts, `supply
      ensures Ledger() == L.ApplyBatch(old(Ledger()), tx)
    {
      if tx.memo.batch.None? || OutputSum(tx.memo.batch.value) != tx.amount {
        Spend(tx.from);
        return;
      }
      if Acct(tx.from).balance < tx.Need() { return; }
      Credit(tx.from, 0 - tx.Need());
      Spend(tx.from);
      CreditOutputs(tx.memo.batch.value);
      Burn(tx.fee);
    }

    method ApplyPayout(tx: Tx, e: int)
      modifies `accounts, `supply, `paidBucket
      ensures Ledger() == L.ApplyPayout(cfg, old(Ledger()), tx, e)
    {
      if !Armed(cfg.decentralization, e) || tx.memo.payout.None? || tx.to != cfg.Settler() {
        Spend(tx.from);
        return;
      }
      var meta := tx.memo.payout.value;
      if !(cfg.IsGenesisMaster(tx.from) || tx.from in validators) || meta.bucket <= paidBucket ||
        OutputSum(meta.outputs) != tx.amount {
        Spend(tx.from);
        return;
      }
      if Acct(cfg.Settler()).balance < tx.Need() { return; }
      Credit(cfg.Settler(), 0 - tx.Need());
      Spend(tx.from);
      CreditOutputs(meta.outputs);
      Burn(tx.fee);
      paidBucket := meta.bucket;
    }

    method ApplyFounder(tx: Tx)
      modifies `accounts, `founders
      ensures Ledger() == L.ApplyFounder(cfg, old(Ledger()), tx)
    {
      if tx.from !in founders || tx.amount != 0 || !IsZir(tx.to) { return; }
      if tx.kind.FounderDelegate? {
        founders := founders + {tx.to};
      } else {
        if tx.to == cfg.founder { return; }
        founders := founders - {tx.to} + {cfg.founder};
      }
      Spend(tx.from);
    }

    method ApplyBeneficiary(tx: Tx, e: int)
      modifies `accounts, `beneficiaries
      ensures Ledger() == L.ApplyBeneficiary(cfg, old(Ledger()), tx, e)
    {
      if !Armed(cfg.poolBeneficiary, e) || tx.amount != 0 || !IsZir(tx.to) { return; }
      if tx.to == tx.from {
        beneficiaries := beneficiaries - {tx.from};
      } else {
        beneficiaries := beneficiaries[tx.from := tx.to];
      }
      Spend(tx.from);
    }

    method ApplyAnchor(tx: Tx)
      requires tx.kind.Anchor?
      modifies `accounts, `supply, `seats
      ensures Ledger() == L.ApplyAnchor(cfg, old(Ledger()), tx)
    {
      if tx.memo.anchor.None? || tx.amount != 0 || Acct(tx.from).balance < tx.fee { return; }
      var r := SeatEffect(cfg, founders, seats, tx, tx.kind.op, tx.memo.anchor.value);
      if r.None? { return; }
      seats := r.value;
      Credit(tx.from, 0 - tx.fee);
      Spend(tx.from);
      Burn(tx.fee);
    }

    method ApplyTx(tx: Tx, e: int)
      modifies `accounts, `supply, `founders, `seats, `beneficiaries, `paidBucket
      ensures Ledger() == L.ApplyTx(cfg, old(Ledger()), tx, e)
    {
      if tx.nonce != Acct(tx.from).nonce { return; }
      match tx.kind {
        case StorageAttest => Spend(tx.from);
        case FounderDelegate => ApplyFounder(tx);
        case FounderRevoke => ApplyFounder(tx);
        case SetBeneficiary => ApplyBeneficiary(tx, e);
        case Anchor(_) => ApplyAnchor(tx);
        case ReserveGrant => ApplyGrant(tx);
        case BatchTransfer => ApplyBatch(tx);
        case PoolPayout => ApplyPayout(tx, e);
        case _ => ApplyTransfer(tx);
      }
    }

    // ---- the drain ----

    method Mark(miners: seq<Address>, e: int)
      modifies `trust
      ensures trust == MarkAll(old(trust), miners, e)
    {
      ghost var start := trust;
      for i := 0 to |miners|
        invariant trust == MarkAll(start, miners[..i], e)
      {
        assert miners[..i + 1][..i] == miners[..i];
        trust := trust[miners[i] := Of(trust, miners[i]).(lastWork := e)];
      }
      assert miners[..|miners|] == miners;
    }

    // The work an applied transaction proves.
    method CreditWork(tx: Tx, e: int)
      modifies `trust
      ensures trust == TrustAfter(cfg, old(trust), tx, e)
    {
      if tx.kind.StorageAttest? {
        if cfg.IsGenesisMaster(tx.from) || Of(trust, tx.from).isMaster { Mark(Attested(tx), e); }
      } else if tx.kind.AgentSpend? {
        if tx.from != tx.to && tx.amount > 0 && tx.fee >= BASE_FEE && tx.memo.coordination {
          trust := trust[tx.to := Of(trust, tx.to).(lastWork := e)];
        }
      }
    }

    // One iteration of the drain loop: is the transaction still pooled afterwards?
    method Settle(tx: Tx, e: int) returns (kept: bool)
      modifies `accounts, `supply, `founders, `seats, `beneficiaries, `paidBucket, `trust, `keys
      ensures var o := DrainOne(cfg, old(Ledger()), tx, e);
              && Ledger() == o.ledger && kept == o.kept
              && trust == (if o.applied then TrustAfter(cfg, old(trust), tx, e) else old(trust))
              && keys == (if o.applied then Learn(old(keys), tx.from, tx.fromPubKey) else old(keys))
    {
      if tx.nonce < Acct(tx.from).nonce { return false; }
      if tx.nonce > Acct(tx.from).nonce {
        if tx.Epoch() >= e - cfg.gapTtl { return true; }
        accounts := accounts[tx.from := Acct(tx.from).(nonce := tx.nonce)];
      }
      var nonceBefore := Acct(tx.from).nonce;
      ApplyTx(tx, e);
      if Acct(tx.from).nonce > nonceBefore {
        CreditWork(tx, e);
        if tx.from !in keys { keys := keys[tx.from := tx.fromPubKey]; }
        return false;
      }
      if tx.Epoch() < e - cfg.gapTtl {
        Spend(tx.from);
        return false;
      }
      return true;
    }

    method DrainDue(e: int) returns (ghost applied: seq<Tx>)
      requires Distinct(TxKey(), txPool)
      modifies `accounts, `supply, `founders, `seats, `beneficiaries, `paidBucket, `trust, `keys, `txPool
      ensures var d := DrainAll(cfg, old(Ledger()), N.Due(old(txPool), e), e);
              && applied == d.applied
              && Ledger() == d.ledger
              && trust == TrustAfterAll(cfg, old(trust), d.applied, e)
              && keys == N.LearnSenders(old(keys), d.applied)
              && txPool == N.StillPooled(old(txPool), d.kept, e)
    {
      hide DrainOne, L.ApplyTx, TrustAfter, DrainAll, TrustAfterAll, N.LearnSenders, Gone, N.StillPooled, N.Due,
        Outside, NotId;
      var txs := N.Due(txPool, e);
      ghost var l0, t0, k0, pool := Ledger(), trust, keys, txPool;
      ghost var d := DrainAll(cfg, l0, txs[..0], e);
      DueIsDistinct(pool, e);
      DrainStarts(cfg, l0, t0, k0, pool, txs, e);
      for i := 0 to |txs|
        invariant d == DrainAll(cfg, l0, txs[..i], e) && Ledger() == d.ledger
        invariant trust == TrustAfterAll(cfg, t0, d.applied, e) && keys == N.LearnSenders(k0, d.applied)
        invariant txPool == Filter(Outside(Gone(txs[..i], d.kept)), pool)
      {
        DrainSteps(cfg, l0, t0, k0, txs, i, e);
        PoolSteps(cfg, l0, pool, txs, i, e);
        var kept := Settle(txs[i], e);
        if !kept { txPool := Filter(NotId(txs[i].id), txPool); }
        d := DrainAll(cfg, l0, txs[..i + 1], e);
      }
      assert txs[..|txs|] == txs;
      applied := d.applied;
      PoolAfterDrain(pool, d.kept, e);
    }

    // ---- emission ----

    method MintRound(per: nat)
      modifies `accounts, `supply
      ensures Ledger() == Mint(cfg, old(Ledger()), per)
    {
      Credit(cfg.Settler(), per);
      supply := supply.(emitted := supply.emitted + per);
    }

    method EmitBaseThrough(e: int)
      modifies `accounts, `supply, `emittedThrough
      ensures Ledger() == Emit(cfg, old(Ledger()), e)
    {
      if cfg.masters == [] {
        emittedThrough := if emittedThrough >= e then emittedThrough else e;
        return;
      }
      if e <= emittedThrough { return; }
      hide PerRound, Emit, EmitRounds, Mint;
      ghost var start := Ledger();
      EmitUnfolds(cfg, start, e);
      var left: nat := e - emittedThrough;
      while left > 0
        invariant emittedThrough == start.emittedThrough
        invariant EmitRounds(cfg, Ledger(), left) == EmitRounds(cfg, start, e - start.emittedThrough)
      {
        var per := PerRound(supply.emitted);
        EmitRoundsUnfolds(cfg, Ledger(), left);
        if per == 0 || supply.emitted + per > EARNED_CAP { break; }
        MintRound(per);
        left := left - 1;
      }
      EmitRoundsStops(cfg, Ledger(), left);
      emittedThrough := e;
    }

    // ---- the field ----

    // One observation per observer, its last.
    method LatestPerObserver(group: seq<Obs>) returns (latest: seq<Obs>)
      ensures latest == LastEach(group)
    {
      latest := [];
      for i := 0 to |group|
        invariant latest == LastEach(group[..i])
      {
        assert group[..i + 1][..i] == group[..i];
        var k := PlaceOf(ObserverKey(), latest, group[i].observer);
        latest := if k == |latest| then latest + [group[i]] else latest[k := group[i]];
      }
      assert group[..|group|] == group;
    }

    // One lock a subject and epoch: a second one is not sealed.
    method SealOne(window: seq<Obs>, subject: string, e: int)
      requires forall o :: o in window ==> o.value.Some?
      modifies `trust, `keys, `locks
      ensures subject in old(locks) && old(locks)[subject] == e ==>
                trust == old(trust) && keys == old(keys) && locks == old(locks)
      ensures !(subject in old(locks) && old(locks)[subject] == e) ==>
                var lock := Sealed(cfg, old(trust), Group(window, subject));
                && trust == SealSubject(cfg, old(trust), window, subject, e)
                && keys == (if lock.None? then old(keys)
                            else LearnAll(cfg, old(keys), LastEach(Group(window, subject))))
                && locks == (if lock.None? then old(locks) else old(locks)[subject := e])
    {
      hide ContributeAll, LearnAll, LastEach;
      var group := Group(window, subject);
      var lock := Sealed(cfg, trust, group);
      if lock.None? { return; }
      if subject in locks && locks[subject] == e { return; }
      locks := locks[subject := e];
      var obs := LatestPerObserver(group);
      assert forall i :: 0 <= i < |obs| ==> obs[i] in group;
      if subject == HEARTBEAT {
        Mark(Filter((m: Address) => IsMinerAddress(m) && |Vouchers(cfg, obs, m)| >= MIN_VOUCHERS, AllVouched(obs)), e);
      }
      UpdateContributors(group, obs, obs[0].domain, lock.value, e);
    }

    method UpdateContributors(group: seq<Obs>, obs: seq<Obs>, domain: string, lock: Resonance, e: int)
      requires forall i :: 0 <= i < |obs| ==> obs[i].value.Some?
      modifies `trust, `keys
      ensures trust == ContributeAll(cfg, old(trust), group, obs, domain, lock, e)
      ensures keys == LearnAll(cfg, old(keys), obs)
    {
      hide Contribute;
      ghost var t0, k0 := trust, keys;
      for i := 0 to |obs|
        invariant trust == ContributeAll(cfg, t0, group, obs[..i], domain, lock, e)
        invariant keys == LearnAll(cfg, k0, obs[..i])
      {
        assert obs[..i + 1][..i] == obs[..i];
        trust := Contribute(cfg, trust, group, obs[i], domain, lock, e);
        keys := Learn(keys, cfg.addressOf(obs[i].observer), obs[i].observer);
      }
      assert obs[..|obs|] == obs;
    }

    // Emission first, whatever the window holds; then the window.
    method RunField(e: int)
      requires ActiveHaveKeys(trust, keys) && LocksThrough(e - 1)
      modifies `accounts, `supply, `emittedThrough, `trust, `keys, `locks
      ensures Ledger() == Emit(cfg, old(Ledger()), e)
      ensures trust == Trust.RunField(cfg, old(trust), obsPool, e)
      ensures var w := Window(obsPool, e);
              keys == KeysAfterField(cfg, old(trust), old(keys), w, SortedNames(SubjectsOf(w)), e)
      ensures ActiveHaveKeys(trust, keys) && LocksThrough(e)
    {
      hide Emit, Trust.RunField, KeysAfterField, ActiveHaveKeys, Window, SortedNames, SubjectsOf;
      EmitBaseThrough(e);
      RunFieldKeepsKeys(cfg, trust, keys, obsPool, e);
      SealWindow(e);
    }

    // While no lock is of this epoch yet, the check for a second one stops nothing.
    method SealWindow(e: int)
      requires LocksThrough(e - 1)
      modifies `trust, `keys, `locks
      ensures LocksThrough(e)
      ensures trust == Trust.RunField(cfg, old(trust), obsPool, e)
      ensures var w := Window(obsPool, e);
              keys == KeysAfterField(cfg, old(trust), old(keys), w, SortedNames(SubjectsOf(w)), e)
    {
      hide SealSubject, SealSubjects, KeysAfterField, Sealed, LearnAll, Group, LastEach, SortedNames;
      var window := Window(obsPool, e);
      var subjects := SortedNames(SubjectsOf(window));
      ghost var t0, k0 := trust, keys;
      FieldStarts(cfg, t0, k0, window, e);
      SortedNamesDiffer(SubjectsOf(window));
      for i := 0 to |subjects|
        invariant trust == SealSubjects(cfg, t0, window, subjects[..i], e)
        invariant keys == KeysAfterField(cfg, t0, k0, window, subjects[..i], e)
        invariant forall x :: x in locks ==> locks[x] < e || (locks[x] == e && x in subjects[..i])
      {
        assert subjects[i] !in subjects[..i];
        FieldStep(cfg, t0, k0, window, subjects, i, e);
        SealOne(window, subjects[i], e);
      }
      assert subjects[..|subjects|] == subjects;
    }

    // ---- the validator registry ----

    method SealValidators(e: int)
      requires ActiveHaveKeys(trust, keys)
      modifies `validators
      ensures Ledger() == N.SealRegistry(cfg, old(Ledger()), trust, e)
    {
      if !Armed(cfg.decentralization, e) { return; }
      var anchorOwners := set id | id in seats && seats[id].owner.Some? :: seats[id].owner.value;
      var eligible: seq<Address> := [];
      var left := trust.Keys;
      while left != {}
        invariant left <= trust.Keys
        invariant forall a :: a in eligible <==> a in trust.Keys - left && Qualifies(cfg, trust, seats, a, e)
        decreases |left|
      {
        var a :| a in left;
        left := left - {a};
        if !cfg.IsGenesisMaster(a) && trust[a].activeEpochs > 0 && a in keys && RecentWork(trust[a], e)
          && (trust[a].isMaster || a in anchorOwners)
        {
          assert trust[a].isMaster || exists id :: OwnedBy(seats, id, a) by {
            if !trust[a].isMaster { var id :| id in seats && seats[id].owner == Some(a); assert OwnedBy(seats, id, a); }
          }
          eligible := eligible + [a];
        } else {
          assert forall id :: OwnedBy(seats, id, a) ==> a in anchorOwners;
        }
      }
      AscendIsSortedNames((set a | a in trust && Qualifies(cfg, trust, seats, a, e)), eligible);
      eligible := SortedNames(eligible);
      validators := if |eligible| > MAX_VALIDATORS then eligible[..MAX_VALIDATORS] else eligible;
    }

    // ---- the field payout ----

    method SettledHeartbeats(e: int) returns (latest: seq<Obs>)
      ensures latest == LatestHeartbeats(cfg, obsPool, e)
    {
      latest := [];
      for i := 0 to |obsPool|
        invariant latest == LatestHeartbeats(cfg, obsPool[..i], e)
      {
        assert obsPool[..i + 1][..i] == obsPool[..i];
        if Counts(cfg, obsPool[i], e) { latest := PutLatest(latest, obsPool[i]); }
      }
      assert obsPool[..|obsPool|] == obsPool;
    }

    method PayeeAmounts(latest: seq<Obs>, payees: seq<Address>, e: int) returns (amounts: seq<nat>)
      requires payees != []
      ensures amounts == Amounts(cfg, Ledger(), latest, payees, e)
      ensures SumNat(amounts) == POOL
    {
      hide WorkSplit, WeightOf, SumNat;
      AmountsSum(cfg, Ledger(), latest, payees, e);
      if Armed(cfg.workWeighted, e) {
        var weights: seq<nat> := [];
        for i := 0 to |payees|
          invariant weights == Weights(cfg, Ledger(), latest, payees, e)[..i]
        {
          var w := WeightFor(latest, payees[i], e);
          weights := weights + [w];
        }
        assert weights == Weights(cfg, Ledger(), latest, payees, e);
        SumAtLeast(weights);
        amounts := SplitByWork(weights, POOL);
      } else {
        var base := POOL / |payees|;
        var remainder := POOL - base * |payees|;
        amounts := seq(|payees|, i => base + (if i < remainder then 1 else 0));
        assert amounts == FlatSplit(|payees|, POOL);
      }
    }

    method WeightFor(latest: seq<Obs>, payee: Address, e: int) returns (w: nat)
      ensures w == WeightOf(cfg, Ledger(), latest, payee, e)
    {
      var reported := WorkWeight(latest, payee);
      w := if reported.Some? then reported.value else LIVENESS_WEIGHT;
      if Armed(cfg.anchorWeight, e) {
        var best := BestAnchorZti(payee);
        w := AnchorScaled(w, best);
      }
    }

    method BestAnchorZti(a: Address) returns (best: real)
      ensures best == BestOwned(seats, a)
    {
      best := 0.0;
      var left := seats.Keys;
      while left != {}
        invariant left <= seats.Keys && best >= 0.0
        invariant forall id :: id in seats.Keys - left && OwnedBy(seats, id, a) ==> seats[id].zti <= best
        invariant best > 0.0 ==> exists id :: OwnedBy(seats, id, a) && seats[id].zti == best
        decreases |left|
      {
        var id :| id in left;
        left := left - {id};
        if OwnedBy(seats, id, a) && seats[id].zti > best { best := seats[id].zti; }
      }
      BestIsBest(seats, a, best);
    }

    method Distribute(e: int)
      modifies `accounts, `paidBucket
      ensures Ledger() == FieldPayout.Distribute(cfg, old(Ledger()), obsPool, e)
    {
      hide CreditPayees, LatestHeartbeats, Payees, Amounts;
      if !Armed(cfg.fieldPayout, e) { return; }
      var bucket := e / BUCKET_EPOCHS;
      if bucket <= paidBucket { return; }
      var latest := SettledHeartbeats(e);
      var payees := Payees(cfg, latest);
      if payees == [] || Acct(cfg.Settler()).balance < POOL { return; }
      var amounts := PayeeAmounts(latest, payees, e);
      Credit(cfg.Settler(), 0 - POOL);
      CreditEach(payees, amounts, e);
      paidBucket := bucket;
    }

    method CreditEach(payees: seq<Address>, amounts: seq<nat>, e: int)
      requires |payees| == |amounts|
      modifies `accounts
      ensures Ledger() == CreditPayees(cfg, old(Ledger()), payees, amounts, e)
    {
      ghost var debited := Ledger();
      for i := 0 to |payees|
        invariant Ledger() == CreditPayees(cfg, debited, payees[..i], amounts[..i], e)
      {
        assert payees[..i + 1][..i] == payees[..i] && amounts[..i + 1][..i] == amounts[..i];
        if amounts[i] > 0 {
          var payTo := if Armed(cfg.poolBeneficiary, e) && payees[i] in beneficiaries then beneficiaries[payees[i]]
                       else payees[i];
          Credit(payTo, amounts[i]);
        }
      }
      assert payees[..|payees|] == payees && amounts[..|amounts|] == amounts;
    }

    // ---- an epoch, and the clock ----

    method ProcessEpoch(e: int)
      requires ValidThrough(e - 1)
      modifies this
      ensures ValidThrough(e) && View() == N.Process(cfg, old(View()), e).(epoch := old(epoch))
    {
      hide N.Process, N.Step, N.KeysStep, TrustStep, DrainAll, SealSubjects, TrustAfterAll, N.LearnSenders, Emit,
        Trust.RunField, KeysAfterField, FieldPayout.Distribute,
        N.StillPooled, N.StillYoung, N.SealRegistry, N.Due, ActiveHaveKeys, Distinct, Window, SortedNames, SubjectsOf;
      ghost var n := View();
      var _ := DrainDue(e);
      ghost var d := DrainAll(cfg, n.ledger, N.Due(n.txPool, e), e);
      AppliedKeepKeys(cfg, n.trust, n.keys, d.applied, e);
      RunField(e);
      SealValidators(e);
      Distribute(e);
      AgeOutObservations(e);
      ProcessIs(cfg, n, e);
      ProcessKeepsDistinct(cfg, n, e);
    }

    method AgeOutObservations(e: int)
      modifies `obsPool
      ensures obsPool == N.StillYoung(old(obsPool), e)
    {
      var minEpoch := e - SETTLE_ROUNDS - WINDOW_ROUNDS + 1;
      var minEpochHeartbeat := e - OBS_LAG - WINDOW_ROUNDS + 1;
      AgingIsAged(obsPool, e);
      obsPool := Filter((o: Obs) => o.Epoch() >= if o.IsHeartbeat() then minEpochHeartbeat else minEpoch, obsPool);
    }

    method EarliestPooledEpoch() returns (earliest: Option<int>)
      ensures earliest == N.Earliest(View())
    {
      earliest := None;
      for i := 0 to |txPool|
        invariant earliest == N.EarliestTx(txPool[..i])
      {
        assert txPool[..i + 1][..i] == txPool[..i];
        if earliest.None? || txPool[i].Epoch() < earliest.value { earliest := Some(txPool[i].Epoch()); }
      }
      assert txPool[..|txPool|] == txPool;
      ghost var start := earliest;
      for i := 0 to |obsPool|
        invariant earliest == N.EarliestObs(obsPool[..i], start)
      {
        assert obsPool[..i + 1][..i] == obsPool[..i];
        if earliest.None? || obsPool[i].Epoch() < earliest.value { earliest := Some(obsPool[i].Epoch()); }
      }
      assert obsPool[..|obsPool|] == obsPool;
    }

    // Process every closable epoch in order, skipping ahead to the first one with work. The
    // node ends where processing every epoch one by one would have ended.
    method Advance(now: int) returns (count: nat)
      requires Valid()
      modifies this
      ensures Valid() && View() == N.Advance(cfg, old(View()), ClosableEpoch(now))
      ensures View() == N.ProcessThrough(cfg, old(View()), ClosableEpoch(now))
    {
      hide N.Process, N.Advance, N.ProcessThrough, ActiveHaveKeys, Distinct, N.Earliest;
      ghost var start := View();
      var target := ClosableEpoch(now);
      AdvanceRefinesSimpleClock(cfg, start, target);
      count := 0;
      if target <= epoch {
        ThroughStarts(cfg, start, target);
        return;
      }
      var earliest := EarliestPooledEpoch();
      var work := if earliest.None? then target
                  else if epoch + 1 >= earliest.value - WINDOW_ROUNDS then epoch + 1
                  else earliest.value - WINDOW_ROUNDS;
      var firstWork := if work < target then work else target;
      AdvanceUnfolds(cfg, start, target);
      if firstWork > epoch + 1 { epoch := firstWork - 1; }
      ghost var m := View();
      ThroughStarts(cfg, m, m.epoch);
      while epoch < target
        invariant Valid() && m.epoch <= epoch <= target && View() == N.ProcessThrough(cfg, m, epoch)
      {
        N.ProcessMovesClock(cfg, View(), epoch + 1);
        ThroughOne(cfg, m, epoch);
        ProcessEpoch(epoch + 1);
        epoch := epoch + 1;
        count := count + 1;
      }
    }

    // ---- ingest ----

    method RememberId(key: string)
      modifies `known
      ensures known == N.Remember(old(known), key)
    {
      if key !in known { known := known + [key]; }
      if |known| > N.KNOWN_CAP {
        ghost var full := known;
        var i := 0;
        while i < N.EVICTED
          invariant 0 <= i <= N.EVICTED && known == full[i..] && |full| > N.KNOWN_CAP
        {
          known := known[1..];
          i := i + 1;
        }
      }
    }

    method IngestTx(tx: Tx) returns (ok: bool, isNew: bool)
      requires Valid()
      modifies `known, `txPool
      ensures Valid() && View() == N.IngestTx(cfg, old(View()), tx)
      ensures isNew == Cluster.IsNew(cfg, old(View()), Cluster.TxEvent(tx))
    {
      hide N.Remember, N.TxCacheKey, N.Put, OutputSum, IsZir, Distinct, ActiveHaveKeys;
      var key := N.TxCacheKey(tx);
      if key in known { return true, false; }
      if tx.kind == Reward || !cfg.verifyTx(tx) { return false, false; }
      if tx.kind == ReserveGrant && tx.from !in founders { return false, false; }
      if tx.kind == Anchor(Activate) { return false, false; }
      if tx.kind == FounderDelegate {
        if tx.from !in founders || !IsZir(tx.to) || tx.amount != 0 { return false, false; }
      }
      if tx.kind == FounderRevoke {
        if tx.from !in founders || !IsZir(tx.to) || tx.to == cfg.founder || tx.amount != 0 { return false, false; }
      }
      if tx.kind == BatchTransfer {
        if tx.memo.batch.None? || OutputSum(tx.memo.batch.value) != tx.amount { return false, false; }
      }
      if tx.kind == PoolPayout {
        if tx.memo.payout.None? || OutputSum(tx.memo.payout.value.outputs) != tx.amount { return false, false; }
      }
      if tx.kind == SetBeneficiary {
        if !Armed(cfg.poolBeneficiary, epoch) || tx.amount != 0 || !IsZir(tx.to) { return false, false; }
      }
      if floor >= 0 && tx.Epoch() <= floor - SETTLE_ROUNDS {
        RememberId(key);
        return true, false;
      }
      RememberId(key);
      txPool := N.Put(TxKey(), txPool, tx);
      return true, true;
    }

    method IngestObservation(o: Obs) returns (ok: bool, isNew: bool)
      requires Valid()
      modifies `known, `obsPool, `keys
      ensures Valid() && View() == N.IngestObs(cfg, old(View()), o)
      ensures isNew == Cluster.IsNew(cfg, old(View()), Cluster.ObsEvent(o))
    {
      hide N.Remember, N.ObsCacheKey, N.Put, Distinct, ActiveHaveKeys;
      var key := N.ObsCacheKey(o);
      if key in known { return true, false; }
      if !cfg.verifyObs(o) { return false, false; }
      var ageCut := if o.IsHeartbeat() then epoch - OBS_LAG - WINDOW_ROUNDS else epoch - SETTLE_ROUNDS - WINDOW_ROUNDS;
      if o.Epoch() <= ageCut { return false, false; }
      if floor >= 0 && o.Epoch() <= floor - SETTLE_ROUNDS {
        RememberId(key);
        return true, false;
      }
      RememberId(key);
      obsPool := N.Put(ObsKey(), obsPool, o);
      ghost var k0 := keys;
      if cfg.addressOf(o.observer) !in keys { keys := keys[cfg.addressOf(o.observer) := o.observer]; }
      MoreKeys(trust, k0, keys);
      return true, true;
    }

    // ---- genesis and snapshots ----

    // A network starts solvent, with nothing emitted or burned, with trust in its genesis
    // masters only, and with the seats of the genesis document, which are good.
    constructor (c: Config, balances: map<Address, nat>, genesisFounders: set<Address>, anchors: seq<GenesisAnchor>,
                 anchorOwnership: seq<(string, Address)>, timestamp: int, reserve: nat, masterKeys: Keys)
      requires c.genesisEpoch >= 0
      ensures seats == GenesisSeats(anchors, anchorOwnership, timestamp) && GoodSeats(seats)
      ensures cfg == c && Valid()
      ensures Conservation.Solvent(Ledger()) && supply == L.Supply(0, 0, reserve)
      ensures forall a :: Acct(a) == L.Account(if a in balances then balances[a] else 0, 0)
      ensures c.founder in founders && founders >= genesisFounders
      ensures Earned(c, trust, epoch)
      ensures epoch == emittedThrough == c.genesisEpoch && floor < 0
      ensures txPool == [] && obsPool == [] && known == [] && validators == []
    {
      cfg := c;
      accounts := map a | a in balances :: L.Account(balances[a], 0);
      supply := L.Supply(0, 0, reserve);
      founders := genesisFounders + {c.founder};
      var genesisSeats := LoadGenesisAnchors(anchors, anchorOwnership, timestamp);
      GenesisSeatsAreGood(anchors, anchorOwnership, timestamp);
      seats := genesisSeats;
      beneficiaries := map[];
      paidBucket := 0;
      validators := [];
      emittedThrough := c.genesisEpoch;
      trust := SeedMasters(map[], c.masters);
      keys := masterKeys;
      locks := map[];
      txPool, obsPool, known := [], [], [];
      epoch := c.genesisEpoch;
      floor := -1;
      new;
      SeedingIsEarned(c, c.masters, c.genesisEpoch);
      SeedingKeepsActivity(map[], c.masters);
      assert forall a :: a in trust ==>
        trust[a].activeEpochs == Of(trust, a).activeEpochs == Of(map[], a).activeEpochs == 0;
    }

    method Snapshot() returns (s: Cluster.Saved)
      ensures s == Cluster.Saved(View().State(), keys, epoch)
    {
      s := Cluster.Saved(
        N.Committed(L.Ledger(accounts, supply, founders, seats, beneficiaries, paidBucket, validators, emittedThrough),
                    trust), keys, epoch);
    }

    method LoadLedger(l: L.Ledger)
      modifies `accounts, `supply, `founders, `seats, `beneficiaries, `paidBucket, `validators, `emittedThrough
      ensures Ledger() == l
    {
      accounts, supply, founders, seats := l.accounts, l.supply, l.founders, l.seats;
      beneficiaries, paidBucket, validators, emittedThrough := l.beneficiaries, l.paidBucket, l.validators,
        l.emittedThrough;
    }

    // Loading replaces the committed state and asserts the genesis masters' trust again. A
    // snapshot of this network has it already and changes in nothing by that. The snapshot's
    // locks are put over the node's own, which stay: if one of those is newer than the
    // snapshot, the node will not seal that subject in that epoch again.
    method LoadSnapshot(s: Cluster.Saved, sealed_: map<string, int>)
      requires PoolsDistinct(View())
      modifies `accounts, `supply, `founders, `seats, `beneficiaries, `paidBucket, `validators, `emittedThrough, `trust,
        `keys, `locks, `epoch
      ensures PoolsDistinct(View()) && locks == old(locks) + sealed_
      ensures ActiveHaveKeys(s.state.trust, s.keys) && LocksThrough(s.epoch) ==> Valid()
      ensures View() == old(View()).(ledger := s.state.ledger, trust := SeedMasters(s.state.trust, cfg.masters),
                                     keys := s.keys, epoch := s.epoch)
      ensures Earned(cfg, s.state.trust, s.epoch) ==> trust == s.state.trust
    {
      hide FullTrust, SeedMasters, Earned, Distinct, ActiveHaveKeys;
      SeedingASnapshot(cfg, s);
      LoadLedger(s.state.ledger);
      locks := locks + sealed_;
      trust, keys, epoch := SeedMasters(s.state.trust, cfg.masters), s.keys, s.epoch;
    }

    method AdoptFastSyncSnapshot(s: Cluster.Saved, sealed_: map<string, int>)
      requires PoolsDistinct(View())
      modifies this
      ensures PoolsDistinct(View()) && locks == old(locks) + sealed_
      ensures ActiveHaveKeys(s.state.trust, s.keys) && LocksThrough(s.epoch) ==> Valid()
      ensures View() == FastSync.Adopt(cfg, old(View()), s)
    {
      hide FullTrust, SeedMasters, Earned, Distinct, ActiveHaveKeys, FastSync.Adopt;
      AdoptUnfolds(cfg, View(), s);
      LoadSnapshot(s, sealed_);
      floor := if floor > epoch then floor else epoch;
      DropPooledThrough(floor);
    }

    method DropPooledThrough(e: int)
      requires PoolsDistinct(View())
      modifies `txPool, `obsPool
      ensures PoolsDistinct(View())
      ensures txPool == Filter((t: Tx) => t.Epoch() > e, old(txPool)) &&
                obsPool == Filter((o: Obs) => o.Epoch() > e, old(obsPool))
    {
      FilterIsDistinct(TxKey(), (t: Tx) => t.Epoch() > e, txPool);
      FilterIsDistinct(ObsKey(), (o: Obs) => o.Epoch() > e, obsPool);
      txPool := Filter((t: Tx) => t.Epoch() > e, txPool);
      obsPool := Filter((o: Obs) => o.Epoch() > e, obsPool);
    }
  }

  lemma ThroughStarts(cfg: Config, n: N.Node, target: int)
    requires target <= n.epoch
    ensures N.ProcessThrough(cfg, n, target) == n
  { }

  lemma ThroughOne(cfg: Config, n: N.Node, e: int)
    requires n.epoch <= e
    ensures N.ProcessThrough(cfg, n, e + 1) == N.Process(cfg, N.ProcessThrough(cfg, n, e), e + 1)
  {
    hide N.Process;
  }

  lemma AdvanceUnfolds(cfg: Config, n: N.Node, target: int)
    requires target > n.epoch
    ensures var first := N.FirstWork(n, target);
            N.Advance(cfg, n, target)
              == N.ProcessThrough(cfg, if first > n.epoch + 1 then n.(epoch := first - 1) else n, target)
  {
    hide N.Process, N.ProcessThrough;
  }

  lemma {:induction false} SeedingKeepsActivity(t: TrustMap, masters: seq<Address>)
    ensures forall a :: Of(SeedMasters(t, masters), a).activeEpochs == Of(t, a).activeEpochs
  {
    if masters != [] { SeedingKeepsActivity(t, masters[..|masters| - 1]); }
  }

  lemma AdoptUnfolds(cfg: Config, n: N.Node, s: Cluster.Saved)
    requires PoolsDistinct(n)
    ensures var floor := if n.floor > s.epoch then n.floor else s.epoch;
            FastSync.Adopt(cfg, n, s)
              == N.Node(s.state.ledger, SeedMasters(s.state.trust, cfg.masters), s.keys,
                        Filter((t: Tx) => t.Epoch() > floor, n.txPool),
                          Filter((o: Obs) => o.Epoch() > floor, n.obsPool),
                        n.known, s.epoch, floor)
  { }

  lemma SeedingASnapshot(cfg: Config, s: Cluster.Saved)
    ensures ActiveHaveKeys(s.state.trust, s.keys) ==> ActiveHaveKeys(SeedMasters(s.state.trust, cfg.masters), s.keys)
    ensures Earned(cfg, s.state.trust, s.epoch) ==> SeedMasters(s.state.trust, cfg.masters) == s.state.trust
  {
    hide Earned;
    var t := SeedMasters(s.state.trust, cfg.masters);
    SeedingKeepsActivity(s.state.trust, cfg.masters);
    assert forall a :: a in t && t[a].activeEpochs > 0 ==> Of(s.state.trust, a).activeEpochs > 0;
    if Earned(cfg, s.state.trust, s.epoch) { SeedingIsIdempotent(cfg, s.state.trust, s.epoch, cfg.masters); }
  }

  // ---- the field, subject by subject ----

  lemma FieldStarts(cfg: Config, t: TrustMap, k: Keys, window: seq<Obs>, e: int)
    requires forall o :: o in window ==> o.value.Some?
    ensures SealSubjects(cfg, t, window, [], e) == t && KeysAfterField(cfg, t, k, window, [], e) == k
  { }

  lemma FieldStep(cfg: Config, t: TrustMap, k: Keys, window: seq<Obs>, subjects: seq<string>, i: nat, e: int)
    requires i < |subjects| && forall o :: o in window ==> o.value.Some?
    ensures var before := SealSubjects(cfg, t, window, subjects[..i], e);
            var known := KeysAfterField(cfg, t, k, window, subjects[..i], e);
            var group := Group(window, subjects[i]);
            && SealSubjects(cfg, t, window, subjects[..i + 1], e) == SealSubject(cfg, before, window, subjects[i], e)
            && KeysAfterField(cfg, t, k, window, subjects[..i + 1], e)
               == (if Sealed(cfg, before, group).None? then known else LearnAll(cfg, known, LastEach(group)))
  {
    hide SealSubject, Sealed, LearnAll, Group, LastEach;
    assert subjects[..i + 1][..i] == subjects[..i];
  }

  // ---- keys ----

  lemma MoreKeys(t: TrustMap, keys: Keys, more: Keys)
    requires ActiveHaveKeys(t, keys) && forall a :: a in keys ==> a in more
    ensures ActiveHaveKeys(t, more)
  { }

  lemma RunFieldKeepsKeys(cfg: Config, t: TrustMap, keys: Keys, pool: seq<Obs>, e: int)
    requires ActiveHaveKeys(t, keys)
    ensures var w := Window(pool, e);
            ActiveHaveKeys(Trust.RunField(cfg, t, pool, e),
                           KeysAfterField(cfg, t, keys, w, SortedNames(SubjectsOf(w)), e))
  {
    var w := Window(pool, e);
    FieldKeepsKeys(cfg, t, keys, w, SortedNames(SubjectsOf(w)), e);
  }

  lemma {:induction false} LearnSendersGrows(keys: Keys, applied: seq<Tx>)
    ensures forall a :: a in keys ==> a in N.LearnSenders(keys, applied)
  {
    if applied != [] { LearnSendersGrows(keys, applied[..|applied| - 1]); }
  }

  lemma {:induction false} AppliedKeepActivity(cfg: Config, t: TrustMap, applied: seq<Tx>, e: int, a: Address)
    ensures Of(TrustAfterAll(cfg, t, applied, e), a).activeEpochs == Of(t, a).activeEpochs
  {
    if applied != [] {
      var n := |applied| - 1;
      AppliedKeepActivity(cfg, t, applied[..n], e, a);
      MarkAllKeepsActivity(TrustAfterAll(cfg, t, applied[..n], e), Attested(applied[n]), e, a);
    }
  }

  lemma AppliedKeepKeys(cfg: Config, t: TrustMap, keys: Keys, applied: seq<Tx>, e: int)
    requires ActiveHaveKeys(t, keys)
    ensures ActiveHaveKeys(TrustAfterAll(cfg, t, applied, e), N.LearnSenders(keys, applied))
  {
    LearnSendersGrows(keys, applied);
    var r := TrustAfterAll(cfg, t, applied, e);
    forall a | a in r && r[a].activeEpochs > 0 ensures a in keys { AppliedKeepActivity(cfg, t, applied, e, a); }
  }

  // ---- an epoch, unfolded ----

  lemma ProcessIs(cfg: Config, n: N.Node, e: int)
    ensures var d := DrainAll(cfg, n.ledger, N.Due(n.txPool, e), e);
            var t := TrustAfterAll(cfg, n.trust, d.applied, e);
            var field := Trust.RunField(cfg, t, n.obsPool, e);
            var w := Window(n.obsPool, e);
            var keys := KeysAfterField(cfg, t, N.LearnSenders(n.keys, d.applied), w, SortedNames(SubjectsOf(w)), e);
            var ledger := FieldPayout.Distribute(cfg, N.SealRegistry(cfg, Emit(cfg, d.ledger, e), field, e), n.obsPool,
                                                 e);
            N.Process(cfg, n, e)
              == N.Node(ledger, field, keys, N.StillPooled(n.txPool, d.kept, e), N.StillYoung(n.obsPool, e), n.known, e,
                        n.floor)
  {
    hide DrainAll, TrustAfterAll, N.LearnSenders, Emit, Trust.RunField, KeysAfterField, FieldPayout.Distribute,
      N.StillPooled, N.StillYoung, N.SealRegistry, N.Due, Window, SortedNames, SubjectsOf;
  }

  // ---- emission, unfolded ----

  lemma EmitUnfolds(cfg: Config, l: L.Ledger, e: int)
    requires cfg.masters != [] && e > l.emittedThrough
    ensures Emit(cfg, l, e) == EmitRounds(cfg, l, e - l.emittedThrough).(emittedThrough := e)
  { }

  lemma EmitRoundsUnfolds(cfg: Config, l: L.Ledger, rounds: nat)
    requires rounds > 0
    ensures var per := PerRound(l.supply.emitted);
            EmitRounds(cfg, l, rounds)
              == if per == 0 || l.supply.emitted + per > EARNED_CAP then l
                else EmitRounds(cfg, Mint(cfg, l, per), rounds - 1)
  { }

  lemma EmitRoundsStops(cfg: Config, l: L.Ledger, rounds: nat)
    requires rounds == 0 || PerRound(l.supply.emitted) == 0 ||
               l.supply.emitted + PerRound(l.supply.emitted) > EARNED_CAP
    ensures EmitRounds(cfg, l, rounds) == l
  { }

  // ---- the pool during a drain ----

  function NotId(id: string): Tx -> bool { (t: Tx) => t.id != id }

  lemma DrainStarts(cfg: Config, l: L.Ledger, t: TrustMap, k: Keys, pool: seq<Tx>, txs: seq<Tx>, e: int)
    ensures var d := DrainAll(cfg, l, txs[..0], e);
            && d.ledger == l && TrustAfterAll(cfg, t, d.applied, e) == t && N.LearnSenders(k, d.applied) == k
            && Filter(Outside(Gone(txs[..0], d.kept)), pool) == pool
  {
    FilterKeepsAll(Outside(Gone(txs[..0], [])), pool);
  }

  // Deleting one drained transaction from the pool.
  lemma PoolSteps(cfg: Config, l: L.Ledger, pool: seq<Tx>, txs: seq<Tx>, i: nat, e: int)
    requires i < |txs| && forall j, k :: 0 <= j < k < |txs| ==> txs[j] != txs[k]
    ensures var d, r := DrainAll(cfg, l, txs[..i], e), DrainAll(cfg, l, txs[..i + 1], e);
            var before := Filter(Outside(Gone(txs[..i], d.kept)), pool);
            Filter(Outside(Gone(txs[..i + 1], r.kept)), pool)
              == if DrainOne(cfg, d.ledger, txs[i], e).kept then before else Filter(NotId(txs[i].id), before)
  {
    hide DrainOne;
    var d := DrainAll(cfg, l, txs[..i], e);
    assert txs[..i + 1][..i] == txs[..i] && txs[..i + 1][i] == txs[i];
    DrainNeverWedges(cfg, l, txs[..i], e);
    GoneGrows(txs, i, d.kept);
    var gone := Gone(txs[..i], d.kept);
    FilterTwice(NotId(txs[i].id), Outside(gone), Outside(gone + {txs[i].id}), pool);
  }

  // The ids the drain has deleted so far.
  ghost function Gone(done: seq<Tx>, kept: seq<Tx>): set<string> { set t | t in done && t !in kept :: t.id }

  ghost function Outside(ids: set<string>): Tx -> bool { (t: Tx) => t.id !in ids }

  lemma {:induction false} FilterTwice<T(!new)>(p: T -> bool, q: T -> bool, both: T -> bool, s: seq<T>)
    requires forall x :: both(x) == (p(x) && q(x))
    ensures Filter(p, Filter(q, s)) == Filter(both, s)
  {
    if s != [] {
      var n := |s| - 1;
      var f := Filter(q, s[..n]);
      FilterTwice(p, q, both, s[..n]);
      assert both(s[n]) == (p(s[n]) && q(s[n]));
      assert (f + [s[n]])[..|f|] == f && (f + [s[n]])[|f|] == s[n];
      assert Filter(q, s) == if q(s[n]) then f + [s[n]] else f;
    }
  }

  lemma {:induction false} SameFilter<T(!new)>(p: T -> bool, q: T -> bool, s: seq<T>)
    requires forall x :: x in s ==> p(x) == q(x)
    ensures Filter(p, s) == Filter(q, s)
  {
    if s != [] {
      var n := |s| - 1;
      SameFilter(p, q, s[..n]);
      assert p(s[n]) == q(s[n]);
    }
  }

  // The aging cut is the complement of the ingest cut.
  lemma AgingIsAged(pool: seq<Obs>, e: int)
    ensures Filter((o: Obs) => o.Epoch() >= if o.IsHeartbeat() then e - OBS_LAG - WINDOW_ROUNDS + 1
                   else e - SETTLE_ROUNDS - WINDOW_ROUNDS + 1, pool)
         == N.StillYoung(pool, e)
  {
    SameFilter((o: Obs) => o.Epoch() >= if o.IsHeartbeat() then e - OBS_LAG - WINDOW_ROUNDS + 1
               else e - SETTLE_ROUNDS - WINDOW_ROUNDS + 1,
               (o: Obs) => !N.Aged(o, e), pool);
  }

  lemma DrainSteps(cfg: Config, l: L.Ledger, t: TrustMap, k: Keys, txs: seq<Tx>, i: nat, e: int)
    requires i < |txs|
    ensures var d, r := DrainAll(cfg, l, txs[..i], e), DrainAll(cfg, l, txs[..i + 1], e);
            var o := DrainOne(cfg, d.ledger, txs[i], e);
            && r.ledger == o.ledger
            && r.kept == (if o.kept then d.kept + [txs[i]] else d.kept)
            && TrustAfterAll(cfg, t, r.applied, e)
            == (if o.applied then TrustAfter(cfg, TrustAfterAll(cfg, t, d.applied, e), txs[i], e)
                else TrustAfterAll(cfg, t, d.applied, e))
            && N.LearnSenders(k, r.applied)
            == (if o.applied then Learn(N.LearnSenders(k, d.applied), txs[i].from, txs[i].fromPubKey)
                else N.LearnSenders(k, d.applied))
  {
    hide DrainOne, TrustAfter;
    var d := DrainAll(cfg, l, txs[..i], e);
    assert txs[..i + 1][..i] == txs[..i] && txs[..i + 1][i] == txs[i];
    assert (d.applied + [txs[i]])[..|d.applied|] == d.applied;
  }

  lemma GoneGrows(txs: seq<Tx>, i: nat, kept: seq<Tx>)
    requires i < |txs| && forall j, k :: 0 <= j < k < |txs| ==> txs[j] != txs[k]
    requires forall t :: t in kept ==> t in txs[..i]
    ensures Gone(txs[..i + 1], kept + [txs[i]]) == Gone(txs[..i], kept)
    ensures Gone(txs[..i + 1], kept) == Gone(txs[..i], kept) + {txs[i].id}
  {
    assert forall t :: t in txs[..i + 1] <==> t in txs[..i] || t == txs[i];
    assert txs[i] !in txs[..i];
  }

  lemma PoolAfterDrain(pool: seq<Tx>, kept: seq<Tx>, e: int)
    requires Distinct(TxKey(), pool)
    ensures Filter(Outside(Gone(N.Due(pool, e), kept)), pool) == N.StillPooled(pool, kept, e)
  {
    var stays := (t: Tx) => !N.IsDue(t, e) || t in kept;
    var gone := Gone(N.Due(pool, e), kept);
    forall t | t in pool ensures Outside(gone)(t) == stays(t) {
      if t.id in gone {
        var u :| u in N.Due(pool, e) && u !in kept && u.id == t.id;
        OnlyThatId(pool, t, u);
      }
    }
    SameFilter(Outside(gone), stays, pool);
  }

  lemma DueIsDistinct(pool: seq<Tx>, e: int)
    requires Distinct(TxKey(), pool)
    ensures forall i, j :: 0 <= i < j < |N.Due(pool, e)| ==> N.Due(pool, e)[i] != N.Due(pool, e)[j]
  {
    var keep := (t: Tx) => N.IsDue(t, e);
    FilterIsDistinct(TxKey(), keep, pool);
    SortKeepsDistinct(TxKey(), TxOrder(), Filter(keep, pool));
    assert Distinct(TxKey(), N.Due(pool, e));
    forall i, j | 0 <= i < j < |N.Due(pool, e)| ensures N.Due(pool, e)[i] != N.Due(pool, e)[j] {
      assert TxKey()(N.Due(pool, e)[i]) != TxKey()(N.Due(pool, e)[j]);
    }
  }

  lemma {:induction false} InsertKeepsDistinct<T(!new)>(key: T -> string, less: (T, T) -> bool, x: T, s: seq<T>)
    requires Distinct(key, s) && forall y :: y in s ==> key(y) != key(x)
    ensures Distinct(key, Insert(less, x, s))
  {
    if s != [] && !less(x, s[0]) {
      var t := Insert(less, x, s[1..]);
      InsertKeepsDistinct(key, less, x, s[1..]);
      forall k | 0 <= k < |t| ensures key(s[0]) != key(t[k]) {
        assert t[k] in t;
        if t[k] != x { var m :| 0 <= m < |s[1..]| && s[1..][m] == t[k]; assert key(s[0]) != key(s[m + 1]); }
      }
    }
  }

  lemma {:induction false} SortKeepsDistinct<T(!new)>(key: T -> string, less: (T, T) -> bool, s: seq<T>)
    requires Distinct(key, s)
    ensures Distinct(key, Sort(less, s))
  {
    if s != [] {
      SortKeepsDistinct(key, less, s[1..]);
      forall y | y in Sort(less, s[1..]) ensures key(y) != key(s[0]) {
        var m :| 0 <= m < |s[1..]| && s[1..][m] == y;
        assert key(s[0]) != key(s[m + 1]);
      }
      InsertKeepsDistinct(key, less, s[0], Sort(less, s[1..]));
    }
  }

  lemma OnlyThatId(pool: seq<Tx>, t: Tx, u: Tx)
    requires Distinct(TxKey(), pool) && t in pool && u in pool
    ensures t.id == u.id ==> t == u
  {
    var i :| 0 <= i < |pool| && pool[i] == t;
    var j :| 0 <= j < |pool| && pool[j] == u;
    assert i != j ==> TxKey()(pool[i]) != TxKey()(pool[j]);
  }
}
