// The fast-forward of `advance` refines the simple clock that processes every epoch, and
// what a node's whole run does to its ledger obeys the laws.
module Clock {
  import opened Events
  import opened Order
  import opened Seats
  import opened Ledger
  import opened Emission
  import opened Heartbeats
  import opened WorkWeights
  import opened FieldPayout
  import opened Drain
  import opened Laws
  import opened Trust
  import opened Tenure
  import opened Node

  // ---- quiet epochs ----

  // Nothing pooled is due at this epoch, or in any of its windows.
  ghost predicate Quiet(n: Node, epoch: int) {
    && (forall t :: t in n.txPool ==> t.Epoch() > epoch - SETTLE_ROUNDS)
    && (forall o :: o in n.obsPool ==> o.Epoch() > epoch - SETTLE_ROUNDS)
  }

  lemma QuietTrust(cfg: Config, n: Node, epoch: int)
    requires Quiet(n, epoch)
    ensures Window(n.obsPool, epoch) == [] && SortedNames(SubjectsOf([])) == []
    ensures TrustStep(cfg, n.trust, [], n.obsPool, epoch) == n.trust
    ensures KeysStep(cfg, n.trust, n.keys, [], n.obsPool, epoch) == n.keys
  {
    FilterKeepsNone((o: Obs) => InWindow(o, epoch), n.obsPool);
    assert SubjectsOf([]) == [];
  }

  lemma {:induction false} NothingCounts(cfg: Config, pool: seq<Obs>, epoch: int)
    requires forall o :: o in pool ==> !Counts(cfg, o, epoch)
    ensures LatestHeartbeats(cfg, pool, epoch) == []
  {
    if pool != [] { NothingCounts(cfg, pool[..|pool| - 1], epoch); }
  }

  // Without a counted heartbeat there is nobody to pay.
  lemma NothingPaid(cfg: Config, l: Ledger, obs: seq<Obs>, epoch: int)
    requires forall o :: o in obs ==> !Counts(cfg, o, epoch)
    ensures Distribute(cfg, l, obs, epoch) == l
  {
    NothingCounts(cfg, obs, epoch);
    assert VouchedBy(cfg, []) == [];
  }

  ghost function QuietLedger(cfg: Config, l: Ledger, t: TrustMap, epoch: int): Ledger {
    SealRegistry(cfg, Emit(cfg, l, epoch), t, epoch)
  }

  // A quiet epoch only emits and seals.
  lemma QuietProcess(cfg: Config, n: Node, epoch: int)
    requires Quiet(n, epoch)
    ensures Process(cfg, n, epoch) == n.(ledger := QuietLedger(cfg, n.ledger, n.trust, epoch), epoch := epoch)
  {
    FilterKeepsNone((t: Tx) => IsDue(t, epoch), n.txPool);
    assert Due(n.txPool, epoch) == [];
    assert DrainAll(cfg, n.ledger, [], epoch) == Drained(n.ledger, [], []);
    QuietTrust(cfg, n, epoch);
    NothingPaid(cfg, QuietLedger(cfg, n.ledger, n.trust, epoch), n.obsPool, epoch);
    FilterKeepsAll((t: Tx) => !IsDue(t, epoch) || t in [], n.txPool);
    FilterKeepsAll((o: Obs) => !Aged(o, epoch), n.obsPool);
  }

  lemma {:induction false} EmitRoundsIgnoreValidators(cfg: Config, l: Ledger, v: seq<Address>, rounds: nat)
    ensures EmitRounds(cfg, l.(validators := v), rounds) == EmitRounds(cfg, l, rounds).(validators := v)
    decreases rounds
  {
    var per := PerRound(l.supply.emitted);
    if rounds != 0 && per != 0 && l.supply.emitted + per <= EARNED_CAP {
      assert Mint(cfg, l.(validators := v), per) == Mint(cfg, l, per).(validators := v);
      EmitRoundsIgnoreValidators(cfg, Mint(cfg, l, per), v, rounds - 1);
    }
  }

  lemma EmitIgnoresValidators(cfg: Config, l: Ledger, v: seq<Address>, epoch: int)
    ensures Emit(cfg, l.(validators := v), epoch) == Emit(cfg, l, epoch).(validators := v)
  {
    if epoch > l.emittedThrough { EmitRoundsIgnoreValidators(cfg, l, v, epoch - l.emittedThrough); }
  }

  // Two quiet epochs amount to the later one.
  lemma QuietEpochsMerge(cfg: Config, l: Ledger, t: TrustMap, epoch: int, later: int)
    requires epoch <= later
    ensures QuietLedger(cfg, QuietLedger(cfg, l, t, epoch), t, later) == QuietLedger(cfg, l, t, later)
  {
    var m := Emit(cfg, l, epoch);
    var s := SealRegistry(cfg, m, t, epoch);
    EmitIgnoresValidators(cfg, m, s.validators, later);
    assert s == m.(validators := s.validators);
    EmitBatchesAgree(cfg, l, epoch, later);
    EmitKeeps(cfg, l, later);
  }

  // ---- the refinement ----

  lemma {:induction false} QuietSpan(cfg: Config, n: Node, target: int)
    requires n.epoch < target
    requires Quiet(n, target)
    ensures ProcessThrough(cfg, n, target) == n.(ledger := QuietLedger(cfg, n.ledger, n.trust, target), epoch := target)
    decreases target - n.epoch
  {
    if target == n.epoch + 1 {
      assert ProcessThrough(cfg, n, n.epoch) == n;
      QuietProcess(cfg, n, target);
    } else {
      QuietSpan(cfg, n, target - 1);
      var m := ProcessThrough(cfg, n, target - 1);
      QuietProcess(cfg, m, target);
      QuietEpochsMerge(cfg, n.ledger, n.trust, target - 1, target);
    }
  }

  lemma {:induction false} EarliestTxIsLeast(pool: seq<Tx>)
    ensures EarliestTx(pool).None? <==> pool == []
    ensures forall t :: t in pool ==> EarliestTx(pool).value <= t.Epoch()
  {
    if pool != [] { EarliestTxIsLeast(pool[..|pool| - 1]); }
  }

  lemma {:induction false} EarliestObsIsLeast(pool: seq<Obs>, start: Option<int>)
    ensures EarliestObs(pool, start).None? <==> pool == [] && start.None?
    ensures start.Some? ==> EarliestObs(pool, start).value <= start.value
    ensures forall o :: o in pool ==> EarliestObs(pool, start).value <= o.Epoch()
  {
    if pool != [] { EarliestObsIsLeast(pool[..|pool| - 1], start); }
  }

  // Up to the first epoch with work, everything is quiet.
  lemma FirstWorkIsQuiet(n: Node, target: int)
    requires n.epoch < target
    ensures n.epoch < FirstWork(n, target) <= target
    ensures FirstWork(n, target) > n.epoch + 1 ==> Quiet(n, FirstWork(n, target))
  {
    EarliestTxIsLeast(n.txPool);
    EarliestObsIsLeast(n.obsPool, EarliestTx(n.txPool));
  }

  // Skipping to just before a quiet epoch changes nothing once that epoch is processed.
  lemma SkipAgrees(cfg: Config, n: Node, first: int, target: int)
    requires n.epoch + 1 < first <= target && Quiet(n, first)
    ensures ProcessThrough(cfg, n.(epoch := first - 1), target) == ProcessThrough(cfg, n, target)
  {
    var m := n.(epoch := first - 1);
    assert Quiet(m, first);
    QuietSpan(cfg, n, first);
    QuietSpan(cfg, m, first);
    ProcessThroughSplits(cfg, n, first, target);
    ProcessThroughSplits(cfg, m, first, target);
  }

  // advance ends in the very state the simple clock reaches, at max(old epoch, target).
  lemma AdvanceRefinesSimpleClock(cfg: Config, n: Node, target: int)
    ensures Advance(cfg, n, target) == ProcessThrough(cfg, n, target)
    ensures Advance(cfg, n, target).epoch == (if target <= n.epoch then n.epoch else target)
  {
    hide Process;
    ProcessThroughEpoch(cfg, n, target);
    if target > n.epoch {
      var first := FirstWork(n, target);
      FirstWorkIsQuiet(n, target);
      if first > n.epoch + 1 { SkipAgrees(cfg, n, first, target); }
    }
  }

  // ---- a node's run obeys the laws ----

  // The drain as a sequence of acts.
  function DrainActs(cfg: Config, l: Ledger, txs: seq<Tx>, epoch: int): seq<Act> {
    if txs == [] then []
    else
      var n := |txs| - 1;
      DrainActs(cfg, l, txs[..n], epoch) + ActsFor(cfg, DrainAll(cfg, l, txs[..n], epoch).ledger, txs[n], epoch)
  }

  function ActsFor(cfg: Config, l: Ledger, tx: Tx, epoch: int): seq<Act> {
    if Stale(l, tx) || (tx.nonce > l.Nonce(tx.from) && !Expired(cfg, tx, epoch)) then []
    else
      var o := DrainOne(cfg, l, tx, epoch);
      if o.applied || o.kept then [Close(tx), Act.Apply(tx, epoch)] else [Close(tx), Act.Apply(tx, epoch), Skip(tx)]
  }

  lemma ActsForDo(cfg: Config, l: Ledger, tx: Tx, epoch: int)
    ensures DoAll(cfg, l, ActsFor(cfg, l, tx, epoch)) == DrainOne(cfg, l, tx, epoch).ledger
  {
    var r := CloseGap(l, tx);
    var m := ApplyTx(cfg, r, tx, epoch);
    DoTwo(cfg, l, Close(tx), Act.Apply(tx, epoch));
    DoThree(cfg, l, Close(tx), Act.Apply(tx, epoch), Skip(tx));
    assert DoAll(cfg, l, []) == l;
  }

  lemma DoTwo(cfg: Config, l: Ledger, a: Act, b: Act)
    ensures DoAll(cfg, l, [a, b]) == Do(cfg, Do(cfg, l, a), b)
  {
    assert [a, b][..1] == [a] && [a][..0] == [];
    assert DoAll(cfg, l, [a]) == Do(cfg, l, a);
  }

  lemma DoThree(cfg: Config, l: Ledger, a: Act, b: Act, c: Act)
    ensures DoAll(cfg, l, [a, b, c]) == Do(cfg, Do(cfg, Do(cfg, l, a), b), c)
  {
    assert [a, b, c][..2] == [a, b];
    DoTwo(cfg, l, a, b);
  }

  lemma {:induction false} DrainIsActs(cfg: Config, l: Ledger, txs: seq<Tx>, epoch: int)
    ensures DoAll(cfg, l, DrainActs(cfg, l, txs, epoch)) == DrainAll(cfg, l, txs, epoch).ledger
  {
    if txs != [] {
      var n := |txs| - 1;
      DrainIsActs(cfg, l, txs[..n], epoch);
      var m := DrainAll(cfg, l, txs[..n], epoch).ledger;
      ActsForDo(cfg, m, txs[n], epoch);
      DoAllAppends(cfg, l, DrainActs(cfg, l, txs[..n], epoch), ActsFor(cfg, m, txs[n], epoch));
    }
  }

  ghost function StepActs(cfg: Config, c: Committed, due: seq<Tx>, obs: seq<Obs>, epoch: int): seq<Act> {
    var d := DrainAll(cfg, c.ledger, due, epoch);
    var m := Emit(cfg, d.ledger, epoch);
    DrainActs(cfg, c.ledger, due, epoch)
      + [EmitThrough(epoch),
         Seal(SealRegistry(cfg, m, TrustStep(cfg, c.trust, d.applied, obs, epoch), epoch).validators), Pay(obs, epoch)]
  }

  lemma StepIsActs(cfg: Config, c: Committed, due: seq<Tx>, obs: seq<Obs>, epoch: int)
    ensures Step(cfg, c, due, obs, epoch).ledger == DoAll(cfg, c.ledger, StepActs(cfg, c, due, obs, epoch))
  {
    var d := DrainAll(cfg, c.ledger, due, epoch);
    var m := Emit(cfg, d.ledger, epoch);
    var t := TrustStep(cfg, c.trust, d.applied, obs, epoch);
    var v := SealRegistry(cfg, m, t, epoch).validators;
    DrainIsActs(cfg, c.ledger, due, epoch);
    DoAllAppends(cfg, c.ledger, DrainActs(cfg, c.ledger, due, epoch), [EmitThrough(epoch), Seal(v), Pay(obs, epoch)]);
    DoThree(cfg, d.ledger, EmitThrough(epoch), Seal(v), Pay(obs, epoch));
    assert SealRegistry(cfg, m, t, epoch) == m.(validators := v);
  }

  // ---- whole runs of one node ----

  datatype Input = ReceiveTx(tx: Tx) | ReceiveObs(obs: Obs) | Tick(target: int)

  ghost predicate PoolsDistinct(n: Node) { Distinct(TxKey(), n.txPool) && Distinct(ObsKey(), n.obsPool) }

  ghost function Take(cfg: Config, n: Node, i: Input): Node
    requires PoolsDistinct(n)
  {
    match i
    case ReceiveTx(t) => IngestTx(cfg, n, t)
    case ReceiveObs(o) => IngestObs(cfg, n, o)
    case Tick(target) => Advance(cfg, n, target)
  }

  lemma ProcessKeepsDistinct(cfg: Config, n: Node, epoch: int)
    requires PoolsDistinct(n)
    ensures PoolsDistinct(Process(cfg, n, epoch))
  {
    var due := Due(n.txPool, epoch);
    var d := DrainAll(cfg, n.ledger, due, epoch);
    FilterIsDistinct(TxKey(), (t: Tx) => !IsDue(t, epoch) || t in d.kept, n.txPool);
    FilterIsDistinct(ObsKey(), (o: Obs) => !Aged(o, epoch), n.obsPool);
  }

  lemma {:induction false} ProcessThroughKeepsDistinct(cfg: Config, n: Node, target: int)
    requires PoolsDistinct(n)
    ensures PoolsDistinct(ProcessThrough(cfg, n, target))
    decreases target - n.epoch
  {
    hide Process;
    if target > n.epoch {
      ProcessThroughKeepsDistinct(cfg, n, target - 1);
      ProcessKeepsDistinct(cfg, ProcessThrough(cfg, n, target - 1), target);
    }
  }

  lemma TakeKeepsDistinct(cfg: Config, n: Node, i: Input)
    requires PoolsDistinct(n)
    ensures PoolsDistinct(Take(cfg, n, i))
  {
    hide Advance, ProcessThrough;
    if i.Tick? {
      AdvanceRefinesSimpleClock(cfg, n, i.target);
      ProcessThroughKeepsDistinct(cfg, n, i.target);
    }
  }

  ghost function RunNode(cfg: Config, n: Node, inputs: seq<Input>): (r: Node)
    requires PoolsDistinct(n)
    ensures PoolsDistinct(r)
  {
    if inputs == [] then n
    else
      var m := RunNode(cfg, n, inputs[..|inputs| - 1]);
      TakeKeepsDistinct(cfg, m, inputs[|inputs| - 1]);
      Take(cfg, m, inputs[|inputs| - 1])
  }

  // The acts of a run.
  ghost function ThroughActs(cfg: Config, n: Node, target: int): seq<Act>
    decreases target - n.epoch
  {
    if target <= n.epoch then []
    else
      var m := ProcessThrough(cfg, n, target - 1);
      ThroughActs(cfg, n, target - 1) + StepActs(cfg, m.State(), Due(m.txPool, target), m.obsPool, target)
  }

  lemma {:induction false} ThroughIsActs(cfg: Config, n: Node, target: int)
    ensures ProcessThrough(cfg, n, target).ledger == DoAll(cfg, n.ledger, ThroughActs(cfg, n, target))
    decreases target - n.epoch
  {
    hide Step, StepActs, KeysStep, StillPooled, StillYoung, Due;
    if target > n.epoch {
      var m := ProcessThrough(cfg, n, target - 1);
      ThroughIsActs(cfg, n, target - 1);
      StepIsActs(cfg, m.State(), Due(m.txPool, target), m.obsPool, target);
      DoAllAppends(cfg, n.ledger, ThroughActs(cfg, n, target - 1),
                   StepActs(cfg, m.State(), Due(m.txPool, target), m.obsPool, target));
    } else {
      assert DoAll(cfg, n.ledger, []) == n.ledger;
    }
  }

  ghost function RunActs(cfg: Config, n: Node, inputs: seq<Input>): seq<Act>
    requires PoolsDistinct(n)
  {
    if inputs == [] then []
    else
      var k := |inputs| - 1;
      RunActs(cfg, n, inputs[..k])
        + (if inputs[k].Tick? then ThroughActs(cfg, RunNode(cfg, n, inputs[..k]), inputs[k].target) else [])
  }

  lemma {:induction false} RunIsActs(cfg: Config, n: Node, inputs: seq<Input>)
    requires PoolsDistinct(n)
    ensures RunNode(cfg, n, inputs).ledger == DoAll(cfg, n.ledger, RunActs(cfg, n, inputs))
  {
    hide Advance, ProcessThrough, ThroughActs;
    if inputs != [] {
      var k := |inputs| - 1;
      var m := RunNode(cfg, n, inputs[..k]);
      RunIsActs(cfg, n, inputs[..k]);
      if inputs[k].Tick? {
        AdvanceRefinesSimpleClock(cfg, m, inputs[k].target);
        ThroughIsActs(cfg, m, inputs[k].target);
        DoAllAppends(cfg, n.ledger, RunActs(cfg, n, inputs[..k]), ThroughActs(cfg, m, inputs[k].target));
      } else {
        assert RunActs(cfg, n, inputs) == RunActs(cfg, n, inputs[..k]);
      }
    } else {
      assert DoAll(cfg, n.ledger, []) == n.ledger;
    }
  }

  // In every run of a node, whatever arrives in whatever order and however the clock ticks:
  // the supply is conserved, nobody is overdrawn, nonces and watermarks only rise, seats
  // only evolve, each (sender, nonce) takes effect at most once and each bucket is paid at
  // most once.
  lemma EveryNodeRunIsLawful(cfg: Config, n: Node, inputs: seq<Input>)
    requires PoolsDistinct(n)
    ensures var m := RunNode(cfg, n, inputs);
            var acts := RunActs(cfg, n, inputs);
            && Lawful(cfg, n.ledger, m.ledger)
            && RisingNonces(n.ledger, Effective(cfg, n.ledger, acts), m.ledger)
            && RisingBuckets(n.ledger.paidBucket, PaidBuckets(cfg, n.ledger, acts), m.ledger.paidBucket)
  {
    var acts := RunActs(cfg, n, inputs);
    RunIsActs(cfg, n, inputs);
    EveryRunIsLawful(cfg, n.ledger, acts);
    NothingTakesEffectTwice(cfg, n.ledger, acts);
    EachBucketPaidOnce(cfg, n.ledger, acts);
  }

  // From the seats of a genesis document, the seats stay good in every run, and only evolve.
  lemma SeatsStayGood(cfg: Config, n: Node, inputs: seq<Input>, anchors: seq<GenesisAnchor>,
                      owners: seq<(string, Address)>,
                      timestamp: int)
    requires PoolsDistinct(n) && n.ledger.seats == GenesisSeats(anchors, owners, timestamp)
    ensures var m := RunNode(cfg, n, inputs);
            && GoodSeats(m.ledger.seats) && Evolves(n.ledger.seats, m.ledger.seats)
            && (forall id :: id in m.ledger.seats <==> exists c :: c in anchors && c.seatId == id)
  {
    hide RunNode, RunActs, GoodSeats, SeatEvolves, GenesisSeats;
    GenesisSeatsAreGood(anchors, owners, timestamp);
    EveryNodeRunIsLawful(cfg, n, inputs);
  }

  // ---- emission depends on the epoch alone ----

  ghost predicate SameEmission(l: Ledger, m: Ledger) {
    l.supply.emitted == m.supply.emitted && l.emittedThrough == m.emittedThrough
  }

  lemma {:induction false} DrainKeepsEmission(cfg: Config, l: Ledger, txs: seq<Tx>, epoch: int)
    ensures SameEmission(l, DrainAll(cfg, l, txs, epoch).ledger)
  {
    if txs != [] {
      var n := |txs| - 1;
      DrainKeepsEmission(cfg, l, txs[..n], epoch);
      ApplyFrame(cfg, CloseGap(DrainAll(cfg, l, txs[..n], epoch).ledger, txs[n]), txs[n], epoch);
    }
  }

  lemma DistributeKeepsEmission(cfg: Config, l: Ledger, obs: seq<Obs>, epoch: int)
    ensures SameEmission(l, Distribute(cfg, l, obs, epoch))
  {
    if PaysNow(cfg, l, obs, epoch) {
      var latest := LatestHeartbeats(cfg, obs, epoch);
      var payees := Payees(cfg, latest);
      CreditPayeesMoves(cfg, l.Debit(cfg.Settler(), POOL), payees, Amounts(cfg, l, latest, payees, epoch), epoch);
    }
  }

  // The emitted total a network starting from `emitted` has at `epoch`.
  function ScheduledBy(cfg: Config, emitted: nat, start: int, epoch: int): nat {
    if cfg.masters == [] || epoch <= start then emitted else EmittedAfter(emitted, epoch - start)
  }

  lemma StepEmission(cfg: Config, c: Committed, due: seq<Tx>, obs: seq<Obs>, epoch: int)
    requires c.ledger.emittedThrough <= epoch
    ensures var l := Step(cfg, c, due, obs, epoch).ledger;
            && l.emittedThrough == epoch
            && l.supply.emitted == ScheduledBy(cfg, c.ledger.supply.emitted, c.ledger.emittedThrough, epoch)
  {
    hide DrainAll, TrustStep, Distribute, Registry, EmitRounds;
    var d := DrainAll(cfg, c.ledger, due, epoch);
    var t := TrustStep(cfg, c.trust, d.applied, obs, epoch);
    DrainKeepsEmission(cfg, c.ledger, due, epoch);
    EmitKeeps(cfg, d.ledger, epoch);
    DistributeKeepsEmission(cfg, SealRegistry(cfg, Emit(cfg, d.ledger, epoch), t, epoch), obs, epoch);
  }

  lemma {:induction false} ThroughEmission(cfg: Config, n: Node, target: int)
    requires n.ledger.emittedThrough == n.epoch
    ensures var m := ProcessThrough(cfg, n, target);
            && m.ledger.emittedThrough == m.epoch
            && m.ledger.supply.emitted == ScheduledBy(cfg, n.ledger.supply.emitted, n.epoch, m.epoch)
    decreases target - n.epoch
  {
    hide Step, KeysStep, StillPooled, StillYoung, Due;
    ProcessThroughEpoch(cfg, n, target);
    if target > n.epoch {
      var m := ProcessThrough(cfg, n, target - 1);
      ProcessThroughEpoch(cfg, n, target - 1);
      ThroughEmission(cfg, n, target - 1);
      StepEmission(cfg, m.State(), Due(m.txPool, target), m.obsPool, target);
      EmittedAfterSplits(n.ledger.supply.emitted, target - 1 - n.epoch, 1);
    }
  }

  // From n, emission has reached exactly what the schedule says for m's epoch.
  ghost predicate OnSchedule(cfg: Config, n: Node, m: Node) {
    && n.epoch <= m.epoch == m.ledger.emittedThrough
    && m.ledger.supply.emitted == ScheduledBy(cfg, n.ledger.supply.emitted, n.epoch, m.epoch)
  }

  lemma OnScheduleComposes(cfg: Config, a: Node, b: Node, c: Node)
    requires OnSchedule(cfg, a, b) && OnSchedule(cfg, b, c)
    ensures OnSchedule(cfg, a, c)
  {
    EmittedAfterSplits(a.ledger.supply.emitted, b.epoch - a.epoch, c.epoch - b.epoch);
  }

  lemma TakeStaysOnSchedule(cfg: Config, n: Node, i: Input)
    requires PoolsDistinct(n) && n.ledger.emittedThrough == n.epoch
    ensures OnSchedule(cfg, n, Take(cfg, n, i))
  {
    if i.Tick? {
      AdvanceRefinesSimpleClock(cfg, n, i.target);
      ThroughEmission(cfg, n, i.target);
    }
  }

  // supply.emitted is a pure function of the epoch reached: whatever was received, and
  // however the epochs were batched or skipped on the way.
  lemma {:induction false} EmittedDependsOnEpochOnly(cfg: Config, n: Node, inputs: seq<Input>)
    requires PoolsDistinct(n) && n.ledger.emittedThrough == n.epoch
    ensures OnSchedule(cfg, n, RunNode(cfg, n, inputs))
  {
    if inputs != [] {
      var k := |inputs| - 1;
      var m := RunNode(cfg, n, inputs[..k]);
      EmittedDependsOnEpochOnly(cfg, n, inputs[..k]);
      TakeStaysOnSchedule(cfg, m, inputs[k]);
      OnScheduleComposes(cfg, n, m, RunNode(cfg, n, inputs));
    }
  }

  // ---- mastership over whole runs ----

  lemma {:induction false} ThroughKeepsEarned(cfg: Config, n: Node, target: int)
    requires Earned(cfg, n.trust, n.epoch) && n.epoch >= 0
    ensures Earned(cfg, ProcessThrough(cfg, n, target).trust, ProcessThrough(cfg, n, target).epoch)
    decreases target - n.epoch
  {
    hide TrustStep, DrainAll, Distribute, Registry, KeysStep, StillPooled, StillYoung, Due, Earned;
    if target > n.epoch {
      var m := ProcessThrough(cfg, n, target - 1);
      ThroughKeepsEarned(cfg, n, target - 1);
      ProcessThroughEpoch(cfg, n, target - 1);
      EpochKeepsEarned(cfg, m.trust, DrainAll(cfg, m.ledger, Due(m.txPool, target), target).applied, m.obsPool, target);
    }
  }

  // In every run, whatever is received: genesis masters keep full trust, and anyone else who
  // is a master was active in at least MIN_TENURE distinct epochs within its lifetime.
  lemma {:induction false} EveryRunEarnsMastership(cfg: Config, n: Node, inputs: seq<Input>)
    requires PoolsDistinct(n) && Earned(cfg, n.trust, n.epoch) && n.epoch >= 0
    ensures var m := RunNode(cfg, n, inputs);
            && n.epoch <= m.epoch && Earned(cfg, m.trust, m.epoch)
            && (forall a :: a in cfg.masters ==> a in m.trust && m.trust[a].isMaster && m.trust[a].zti >= 1.0)
            && (forall a :: a in m.trust && m.trust[a].isMaster && !cfg.IsGenesisMaster(a) ==>
                  && MIN_TENURE <= m.trust[a].activeEpochs <= m.trust[a].lastActive - m.trust[a].firstSeen + 1
                  && MIN_TENURE <= m.epoch - m.trust[a].firstSeen + 1 && m.trust[a].zti >= MASTER_ZTI)
  {
    RunKeepsEarned(cfg, n, inputs);
    var m := RunNode(cfg, n, inputs);
    forall a | a in m.trust && m.trust[a].isMaster && !cfg.IsGenesisMaster(a)
      ensures MIN_TENURE <= m.trust[a].activeEpochs <= m.trust[a].lastActive - m.trust[a].firstSeen + 1
      ensures MIN_TENURE <= m.epoch - m.trust[a].firstSeen + 1 && m.trust[a].zti >= MASTER_ZTI
    {
      MastershipTakesTime(cfg, m.trust, m.epoch, a);
    }
    forall a | a in cfg.masters ensures m.trust[a].isMaster && m.trust[a].zti >= 1.0 {
      assert EarnedStanding(cfg, a, m.trust[a], m.epoch);
    }
  }

  lemma {:induction false} RunKeepsEarned(cfg: Config, n: Node, inputs: seq<Input>)
    requires PoolsDistinct(n) && Earned(cfg, n.trust, n.epoch) && n.epoch >= 0
    ensures n.epoch <= RunNode(cfg, n, inputs).epoch
    ensures Earned(cfg, RunNode(cfg, n, inputs).trust, RunNode(cfg, n, inputs).epoch)
  {
    hide Advance, ProcessThrough, Earned;
    if inputs != [] {
      var k := |inputs| - 1;
      var m := RunNode(cfg, n, inputs[..k]);
      RunKeepsEarned(cfg, n, inputs[..k]);
      if inputs[k].Tick? {
        AdvanceRefinesSimpleClock(cfg, m, inputs[k].target);
        ThroughKeepsEarned(cfg, m, inputs[k].target);
      }
    }
  }

  // ---- the pool never clogs ----

  // After an epoch, whatever is still pooled is not due yet or within its time-to-live, and
  // whatever left the pool had its nonce committed.
  lemma ProcessNeverClogs(cfg: Config, n: Node, epoch: int)
    ensures var m := Process(cfg, n, epoch);
            && (forall t :: t in m.txPool ==> t in n.txPool && (!IsDue(t, epoch) || !Expired(cfg, t, epoch)))
            && (forall t :: t in n.txPool && t !in m.txPool ==> Stale(m.ledger, t))
            && NoncesGrow(n.ledger, m.ledger)
  {
    var due := Due(n.txPool, epoch);
    var d := DrainAll(cfg, n.ledger, due, epoch);
    var m := Process(cfg, n, epoch);
    DrainNeverWedges(cfg, n.ledger, due, epoch);
    StepAfterDrain(cfg, n.State(), due, n.obsPool, epoch);
    forall t | t in n.txPool && t !in m.txPool ensures Stale(m.ledger, t) {
      assert t in due && t !in d.kept;
      assert d.ledger.Nonce(t.from) == m.ledger.Nonce(t.from);
    }
    forall a ensures n.ledger.Nonce(a) <= m.ledger.Nonce(a) { assert n.ledger.Nonce(a) <= d.ledger.Nonce(a); }
  }

  // After the drain, an epoch moves no nonce.
  lemma StepAfterDrain(cfg: Config, c: Committed, due: seq<Tx>, obs: seq<Obs>, epoch: int)
    ensures var d := DrainAll(cfg, c.ledger, due, epoch);
            forall a :: Step(cfg, c, due, obs, epoch).ledger.Nonce(a) == d.ledger.Nonce(a)
  {
    var d := DrainAll(cfg, c.ledger, due, epoch);
    var t := TrustStep(cfg, c.trust, d.applied, obs, epoch);
    var s := SealRegistry(cfg, Emit(cfg, d.ledger, epoch), t, epoch);
    EmitKeeps(cfg, d.ledger, epoch);
    DistributeKeepsNonces(cfg, s, obs, epoch);
    forall a ensures Distribute(cfg, s, obs, epoch).Nonce(a) == d.ledger.Nonce(a) {
      assert Emit(cfg, d.ledger, epoch).Nonce(a) == d.ledger.Nonce(a);
      assert s.Nonce(a) == Emit(cfg, d.ledger, epoch).Nonce(a);
    }
  }

  // ---- the registry an epoch seals ----

  lemma {:induction false} DrainKeepsValidators(cfg: Config, l: Ledger, txs: seq<Tx>, epoch: int)
    ensures DrainAll(cfg, l, txs, epoch).ledger.validators == l.validators
  {
    hide ApplyTx;
    if txs != [] {
      var n := |txs| - 1;
      DrainKeepsValidators(cfg, l, txs[..n], epoch);
      ApplyFrame(cfg, CloseGap(DrainAll(cfg, l, txs[..n], epoch).ledger, txs[n]), txs[n], epoch);
    }
  }

  lemma DistributeKeepsRegistry(cfg: Config, l: Ledger, obs: seq<Obs>, epoch: int)
    ensures var m := Distribute(cfg, l, obs, epoch); m.validators == l.validators && m.seats == l.seats
  {
    if PaysNow(cfg, l, obs, epoch) {
      var latest := LatestHeartbeats(cfg, obs, epoch);
      var payees := Payees(cfg, latest);
      CreditPayeesMoves(cfg, l.Debit(cfg.Settler(), POOL), payees, Amounts(cfg, l, latest, payees, epoch), epoch);
    }
  }

  // Once decentralization is active, every epoch seals its registry: afterwards the ledger's
  // validators are in strict order, at most 128, all qualified by the trust and the seats
  // after the epoch, and nobody who qualifies is missing unless it is full. Until then the
  // validators stay as they are.
  lemma EpochSealsRegistry(cfg: Config, n: Node, epoch: int)
    ensures var m := Process(cfg, n, epoch);
            && (Armed(cfg.decentralization, epoch) ==>
                  && Ascending(ByName(), m.ledger.validators) && |m.ledger.validators| <= MAX_VALIDATORS
                  && (forall a :: a in m.ledger.validators ==> Qualifies(cfg, m.trust, m.ledger.seats, a, epoch))
                  && (forall a :: Qualifies(cfg, m.trust, m.ledger.seats, a, epoch) ==>
                        a in m.ledger.validators || |m.ledger.validators| == MAX_VALIDATORS))
            && (!Armed(cfg.decentralization, epoch) ==> m.ledger.validators == n.ledger.validators)
  {
    hide DrainAll, TrustStep, Distribute, EmitRounds, KeysStep, StillPooled, StillYoung, Due, Registry, Qualifies;
    var due := Due(n.txPool, epoch);
    var d := DrainAll(cfg, n.ledger, due, epoch);
    var e := Emit(cfg, d.ledger, epoch);
    var t := TrustStep(cfg, n.trust, d.applied, n.obsPool, epoch);
    DrainKeepsValidators(cfg, n.ledger, due, epoch);
    EmitKeeps(cfg, d.ledger, epoch);
    DistributeKeepsRegistry(cfg, SealRegistry(cfg, e, t, epoch), n.obsPool, epoch);
    RegistryIsProper(cfg, t, e.seats, epoch);
    assert forall a :: Qualifies(cfg, t, e.seats, a, epoch) ==> a in t by {
      QualifiedHasStanding(cfg, t, e.seats, epoch);
    }
  }

  lemma QualifiedHasStanding(cfg: Config, t: TrustMap, seats: SeatMap, epoch: int)
    ensures forall a :: Qualifies(cfg, t, seats, a, epoch) ==> a in t
  { }

  lemma DistributeKeepsNonces(cfg: Config, l: Ledger, obs: seq<Obs>, epoch: int)
    ensures forall a :: Distribute(cfg, l, obs, epoch).Nonce(a) == l.Nonce(a)
  {
    if PaysNow(cfg, l, obs, epoch) {
      var latest := LatestHeartbeats(cfg, obs, epoch);
      var payees := Payees(cfg, latest);
      var d := l.Debit(cfg.Settler(), POOL);
      CreditPayeesMoves(cfg, d, payees, Amounts(cfg, l, latest, payees, epoch), epoch);
      assert forall a :: d.Nonce(a) == l.Nonce(a);
    }
  }
}
