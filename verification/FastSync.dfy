// Fast sync (adoptFastSyncSnapshot and the convergence floor in State.ts): a node joins by
// adopting a peer's snapshot and then forward-applies only later events.
module FastSync {
  import opened Events
  import opened Order
  import opened Ledger
  import Emission
  import opened Heartbeats
  import opened FieldPayout
  import opened Drain
  import opened Trust
  import opened Tenure
  import opened Node
  import opened Clock
  import opened Convergence
  import opened Cluster

  // loadSnapshot, which asserts the genesis masters' trust again; raise the floor;
  // dropPooledThrough. Remembered ids stay remembered.
  function Adopt(cfg: Config, n: Node, s: Saved): (r: Node)
    requires PoolsDistinct(n)
    ensures PoolsDistinct(r)
  {
    var floor := if n.floor > s.epoch then n.floor else s.epoch;
    FilterIsDistinct(TxKey(), (t: Tx) => t.Epoch() > floor, n.txPool);
    FilterIsDistinct(ObsKey(), (o: Obs) => o.Epoch() > floor, n.obsPool);
    n.(ledger := s.state.ledger, trust := SeedMasters(s.state.trust, cfg.masters), keys := s.keys, epoch := s.epoch,
       floor := floor,
       txPool := Filter((t: Tx) => t.Epoch() > floor, n.txPool),
       obsPool := Filter((o: Obs) => o.Epoch() > floor, n.obsPool))
  }

  // ---- while payouts and decentralization are dormant ----

  // Then the ledger does not depend on observations at all.
  predicate Dormant(cfg: Config, epoch: int) { !Armed(cfg.fieldPayout, epoch) && !Armed(cfg.decentralization, epoch) }

  lemma DormantStep(cfg: Config, c: Committed, due: seq<Tx>, obs: seq<Obs>, epoch: int)
    requires Dormant(cfg, epoch)
    ensures Step(cfg, c, due, obs, epoch).ledger
              == Emission.Emit(cfg, DrainAll(cfg, c.ledger, due, epoch).ledger, epoch)
  { }

  ghost predicate LedgerAgrees(cfg: Config, o: Origin, g: Gossip, n: Node) {
    && o.epoch <= n.epoch && n.ledger == Ref(cfg, o, g, n.epoch).ledger && Within(g, n)
  }

  ghost predicate InformedOfTxs(g: Gossip, n: Node, epoch: int) {
    forall t :: t in g.txs && IsDue(t, epoch) ==> HoldsTx(n, t)
  }

  lemma DormantProcess(cfg: Config, o: Origin, g: Gossip, n: Node)
    requires Proper(cfg, g) && LedgerAgrees(cfg, o, g, n) && InformedOfTxs(g, n, n.epoch + 1)
    requires Dormant(cfg, n.epoch + 1)
    ensures LedgerAgrees(cfg, o, g, Process(cfg, n, n.epoch + 1))
  {
    hide DrainAll, Distribute, Registry, RunField, KeysStep, Emission.Emit, Due, Outstanding;
    var e := n.epoch + 1;
    var c := Ref(cfg, o, g, n.epoch);
    DueIsOutstanding(cfg, g, n, e);
    DormantStep(cfg, n.State(), Due(n.txPool, e), n.obsPool, e);
    DormantStep(cfg, c, Outstanding(c.ledger, g.txs, e), g.obs, e);
    ProcessKeepsDistinct(cfg, n, e);
  }

  lemma {:induction false} DormantThrough(cfg: Config, o: Origin, g: Gossip, n: Node, target: int)
    requires Proper(cfg, g) && LedgerAgrees(cfg, o, g, n) && InformedOfTxs(g, n, target)
    requires Dormant(cfg, target)
    ensures LedgerAgrees(cfg, o, g, ProcessThrough(cfg, n, target))
    ensures forall t :: t in g.txs && HoldsTx(n, t) ==> HoldsTx(ProcessThrough(cfg, n, target), t)
    decreases target - n.epoch
  {
    hide Process, Ref;
    if target > n.epoch {
      var m := ProcessThrough(cfg, n, target - 1);
      assert InformedOfTxs(g, n, target - 1);
      DormantThrough(cfg, o, g, n, target - 1);
      ProcessThroughEpoch(cfg, n, target - 1);
      assert InformedOfTxs(g, m, target);
      DormantProcess(cfg, o, g, m);
      forall t | t in g.txs && HoldsTx(n, t) ensures HoldsTx(Process(cfg, m, target), t) {
        HoldsAfterProcess(cfg, m, target, t);
      }
    }
  }

  // ---- the joiner's run ----

  // The transactions among some inputs.
  function TxsIn(inputs: seq<Input>): (s: set<Tx>)
    ensures forall t :: t in s <==> ReceiveTx(t) in inputs
  {
    if inputs == [] then {}
    else
      var n := |inputs| - 1;
      assert forall i :: i in inputs <==> i in inputs[..n] || i == inputs[n];
      TxsIn(inputs[..n]) + (if inputs[n].ReceiveTx? then {inputs[n].tx} else {})
  }

  ghost predicate FromGossip(g: Gossip, i: Input) {
    match i
    case ReceiveTx(t) => t in g.txs
    case ReceiveObs(x) => x in g.obs
    case Tick(_) => true
  }

  // Whenever the clock ticks, the node holds the transactions it settles that the snapshot
  // had not settled yet. Of whatever kind, and however they got there.
  ghost predicate HeldAtTicks(cfg: Config, g: Gossip, n: Node, floor: int, inputs: seq<Input>)
    requires PoolsDistinct(n)
  {
    forall k :: 0 <= k < |inputs| && inputs[k].Tick? ==>
      forall t :: t in g.txs && !IsDue(t, floor) && IsDue(t, inputs[k].target) ==>
        HoldsTx(RunNode(cfg, n, inputs[..k]), t)
  }

  ghost predicate Joined(cfg: Config, o: Origin, g: Gossip, n: Node, floor: int) {
    LedgerAgrees(cfg, o, g, n) && forall t :: t in g.txs && IsDue(t, floor) ==> HoldsTx(n, t)
  }

  lemma JoinerTakes(cfg: Config, o: Origin, g: Gossip, n: Node, floor: int, i: Input)
    requires Proper(cfg, g) && Joined(cfg, o, g, n, floor) && FromGossip(g, i)
    requires i.Tick? ==> forall t :: t in g.txs && !IsDue(t, floor) && IsDue(t, i.target) ==> HoldsTx(n, t)
    requires i.Tick? && i.target > n.epoch ==> Dormant(cfg, i.target)
    ensures Joined(cfg, o, g, Take(cfg, n, i), floor)
  {
    hide Advance, Process, Ref;
    match i
    case ReceiveTx(t) =>
      forall u | u in g.txs && IsDue(u, floor) ensures HoldsTx(IngestTx(cfg, n, t), u) {
        IngestTxHolds(cfg, g, n, t, u);
      }
    case ReceiveObs(x) =>
    case Tick(target) =>
      AdvanceRefinesSimpleClock(cfg, n, target);
      if target > n.epoch {
        ProcessThroughEpoch(cfg, n, target);
        DormantThrough(cfg, o, g, n, target);
      }
  }

  lemma EpochGrows(cfg: Config, n: Node, i: Input)
    requires PoolsDistinct(n)
    ensures n.epoch <= Take(cfg, n, i).epoch
    ensures i.Tick? && i.target > n.epoch ==> Take(cfg, n, i).epoch == i.target
  {
    if i.Tick? { AdvanceRefinesSimpleClock(cfg, n, i.target); }
  }

  lemma {:induction false} JoinerRun(cfg: Config, o: Origin, g: Gossip, n: Node, floor: int, inputs: seq<Input>)
    requires Proper(cfg, g) && Joined(cfg, o, g, n, floor) && HeldAtTicks(cfg, g, n, floor, inputs)
    requires forall k :: 0 <= k < |inputs| ==> FromGossip(g, inputs[k])
    requires Dormant(cfg, RunNode(cfg, n, inputs).epoch)
    ensures Joined(cfg, o, g, RunNode(cfg, n, inputs), floor)
  {
    hide Take, Ref;
    if inputs != [] {
      var k := |inputs| - 1;
      var m := RunNode(cfg, n, inputs[..k]);
      assert forall j :: 0 <= j < k ==> inputs[..k][..j] == inputs[..j];
      EpochGrows(cfg, m, inputs[k]);
      JoinerRun(cfg, o, g, n, floor, inputs[..k]);
      JoinerTakes(cfg, o, g, m, floor, inputs[k]);
    }
  }

  // The serving node's pool holds nothing live that was due and could not be applied.
  predicate RetainsNothing(server: Node) {
    forall t :: t in server.txPool && IsDue(t, server.epoch) ==> Stale(server.ledger, t)
  }

  function SnapshotOf(server: Node): Saved { Saved(server.State(), server.keys, server.epoch) }

  lemma AdoptedIsJoined(cfg: Config, o: Origin, g: Gossip, server: Node, joiner: Node)
    requires Agrees(cfg, o, g, server) && Informed(g, server, server.epoch) && RetainsNothing(server) &&
               Within(g, joiner)
    ensures Joined(cfg, o, g, Adopt(cfg, joiner, SnapshotOf(server)), server.epoch)
  {
    hide Ref, SeedMasters;
    var n := Adopt(cfg, joiner, SnapshotOf(server));
    forall t | t in g.txs && IsDue(t, server.epoch) ensures HoldsTx(n, t) { assert HoldsTx(server, t); }
  }

  // A node that adopts a peer's snapshot and then, at each tick, holds the later transactions
  // that the tick settles has the reference ledger at every later epoch, hence its server's:
  // provided the server retained nothing live that was due, and payouts and decentralization
  // stay dormant.
  lemma FastSyncConverges(cfg: Config, o: Origin, g: Gossip, server: Node, joiner: Node, inputs: seq<Input>)
    requires Proper(cfg, g) && Agrees(cfg, o, g, server) && Informed(g, server, server.epoch)
    requires RetainsNothing(server) && Within(g, joiner)
    requires forall k :: 0 <= k < |inputs| ==> FromGossip(g, inputs[k])
    requires HeldAtTicks(cfg, g, Adopt(cfg, joiner, SnapshotOf(server)), server.epoch, inputs)
    requires Dormant(cfg, RunNode(cfg, Adopt(cfg, joiner, SnapshotOf(server)), inputs).epoch)
    ensures LedgerAgrees(cfg, o, g, RunNode(cfg, Adopt(cfg, joiner, SnapshotOf(server)), inputs))
  {
    hide Ref;
    AdoptedIsJoined(cfg, o, g, server, joiner);
    JoinerRun(cfg, o, g, Adopt(cfg, joiner, SnapshotOf(server)), server.epoch, inputs);
  }

  // ---- holding what arrives ----

  // Whenever the clock ticks, the transactions it settles that the snapshot had not settled
  // yet have been received.
  ghost predicate OnTime(g: Gossip, floor: int, inputs: seq<Input>) {
    forall k, t :: 0 <= k < |inputs| && inputs[k].Tick? && t in g.txs ==>
      !IsDue(t, floor) && IsDue(t, inputs[k].target) ==> t in TxsIn(inputs[..k])
  }

  // What a node held or received of the state-independent kinds above ingest's floor.
  ghost predicate Expected(cfg: Config, g: Gossip, n: Node, inputs: seq<Input>, t: Tx) {
    t in g.txs && (HoldsTx(n, t) || (t in TxsIn(inputs) && Acceptable(cfg, TxEvent(t)) && !UnderFloor(n, t.Epoch())))
  }

  lemma {:induction false} ReceivedIsHeld(cfg: Config, g: Gossip, n: Node, inputs: seq<Input>)
    requires Proper(cfg, g) && Within(g, n) && CacheIsHonest(g, n)
    requires forall k :: 0 <= k < |inputs| ==> FromGossip(g, inputs[k])
    ensures var m := RunNode(cfg, n, inputs);
            && Within(g, m) && CacheIsHonest(g, m) && m.floor == n.floor
            && (forall t :: Expected(cfg, g, n, inputs, t) ==> HoldsTx(m, t))
  {
    hide Take, CacheIsHonest, Proper;
    if inputs != [] {
      var k := |inputs| - 1;
      var m := RunNode(cfg, n, inputs[..k]);
      ReceivedIsHeld(cfg, g, n, inputs[..k]);
      TakeKeepsCache(cfg, g, m, inputs[k]);
      assert TxsIn(inputs) == if inputs[k].ReceiveTx? then TxsIn(inputs[..k]) + {inputs[k].tx} else TxsIn(inputs[..k]);
      forall t | Expected(cfg, g, n, inputs, t) ensures HoldsTx(RunNode(cfg, n, inputs), t) {
        TakeHolds(cfg, g, m, inputs[k], t);
      }
    }
  }

  lemma TakeKeepsCache(cfg: Config, g: Gossip, n: Node, i: Input)
    requires Proper(cfg, g) && Within(g, n) && CacheIsHonest(g, n) && FromGossip(g, i)
    ensures var m := Take(cfg, n, i); Within(g, m) && CacheIsHonest(g, m) && m.floor == n.floor
  {
    hide Advance, ProcessThrough;
    match i
    case ReceiveTx(t) => IngestTxKeepsCache(cfg, g, n, t);
    case ReceiveObs(x) => IngestObsKeepsCache(cfg, g, n, x);
    case Tick(target) =>
      AdvanceRefinesSimpleClock(cfg, n, target);
      ProcessThroughEpoch(cfg, n, target);
      ThroughKeepsCache(cfg, g, n, target);
      ThroughStaysWithin(cfg, g, n, target);
  }

  lemma {:induction false} ThroughStaysWithin(cfg: Config, g: Gossip, n: Node, target: int)
    requires Within(g, n)
    ensures Within(g, ProcessThrough(cfg, n, target))
    decreases target - n.epoch
  {
    hide Step, KeysStep, DrainAll;
    if target > n.epoch {
      ThroughStaysWithin(cfg, g, n, target - 1);
      ProcessKeepsDistinct(cfg, ProcessThrough(cfg, n, target - 1), target);
    }
  }

  lemma TakeHolds(cfg: Config, g: Gossip, n: Node, i: Input, t: Tx)
    requires Proper(cfg, g) && Within(g, n) && CacheIsHonest(g, n) && FromGossip(g, i) && t in g.txs
    requires HoldsTx(n, t) || (i == ReceiveTx(t) && Acceptable(cfg, TxEvent(t)) && !UnderFloor(n, t.Epoch()))
    ensures HoldsTx(Take(cfg, n, i), t)
  {
    hide Advance, ProcessThrough;
    match i
    case ReceiveTx(u) => if HoldsTx(n, t) { IngestTxHolds(cfg, g, n, u, t); } else { IngestTxTakes(cfg, g, n, t); }
    case ReceiveObs(x) =>
    case Tick(target) =>
      AdvanceRefinesSimpleClock(cfg, n, target);
      ThroughHolds(cfg, n, target, TxEvent(t));
  }

  // For a fresh joiner and the kinds whose ingest checks read no state, receiving on time is
  // holding at the ticks.
  lemma OnTimeIsHeld(cfg: Config, g: Gossip, server: Node, joiner: Node, inputs: seq<Input>)
    requires Proper(cfg, g) && server.epoch >= 0 && OnTime(g, server.epoch, inputs)
    requires joiner.txPool == [] && joiner.obsPool == [] && joiner.known == [] && joiner.floor < 0
    requires forall k :: 0 <= k < |inputs| ==> FromGossip(g, inputs[k])
    requires forall t :: t in g.txs && !IsDue(t, server.epoch) ==> Acceptable(cfg, TxEvent(t))
    ensures HeldAtTicks(cfg, g, Adopt(cfg, joiner, SnapshotOf(server)), server.epoch, inputs)
  {
    hide Take, Proper;
    var n := Adopt(cfg, joiner, SnapshotOf(server));
    assert n.txPool == [] && n.obsPool == [] && n.known == [] && n.floor == server.epoch;
    forall k, t | 0 <= k < |inputs| && inputs[k].Tick? && t in g.txs && !IsDue(t, server.epoch) &&
      IsDue(t, inputs[k].target)
      ensures HoldsTx(RunNode(cfg, n, inputs[..k]), t)
    {
      ReceivedIsHeld(cfg, g, n, inputs[..k]);
      assert Expected(cfg, g, n, inputs[..k], t);
    }
  }

  // ---- and exactly when it does not ----

  // A retained transaction is lost to the joiner: ingest takes it for already applied.
  lemma RetainedIsLost(cfg: Config, n: Node, t: Tx)
    requires PoolsDistinct(n) && n.floor >= 0 && t !in n.txPool
    ensures t in IngestTx(cfg, n, t).txPool <==> TxCacheKey(t) !in n.known && AcceptsTx(cfg, n, t) && !IsDue(t, n.floor)
  { }

  // So right after adoption a fresh joiner can come to hold every transaction that it would
  // accept if and only if the server retained none of those.
  lemma JoinerCanHoldAllIff(cfg: Config, o: Origin, g: Gossip, server: Node, joiner: Node)
    requires Agrees(cfg, o, g, server) && Informed(g, server, server.epoch) && server.epoch >= 0
    requires joiner.txPool == [] && joiner.obsPool == [] && joiner.known == [] && joiner.floor < 0
    ensures var n := Adopt(cfg, joiner, SnapshotOf(server));
            (forall t :: t in g.txs && AcceptsTx(cfg, n, t) ==> HoldsTx(IngestTx(cfg, n, t), t)) <==>
              forall t :: t in server.txPool && IsDue(t, server.epoch) && AcceptsTx(cfg, n, t) ==>
                Stale(server.ledger, t)
  {
    hide AcceptsTx, SeedMasters, Ref;
    var n := Adopt(cfg, joiner, SnapshotOf(server));
    assert n.txPool == [] && n.obsPool == [] && n.known == [];
    forall t | t in g.txs && AcceptsTx(cfg, n, t)
      ensures HoldsTx(IngestTx(cfg, n, t), t) <==>
                (t in server.txPool && IsDue(t, server.epoch) ==> Stale(server.ledger, t))
    {
      RetainedIsLost(cfg, n, t);
      assert IngestTx(cfg, n, t).ledger == server.ledger;
      if IsDue(t, server.epoch) { assert HoldsTx(server, t); }
    }
  }

  // ---- what a retained transaction does to the ledgers ----

  lemma {:induction false} EmptyPoolKeepsNonces(cfg: Config, n: Node, target: int)
    requires n.txPool == []
    ensures var m := ProcessThrough(cfg, n, target);
            m.txPool == [] && forall a :: m.ledger.Nonce(a) == n.ledger.Nonce(a)
    decreases target - n.epoch
  {
    hide Process;
    if target > n.epoch {
      EmptyPoolKeepsNonces(cfg, n, target - 1);
      EmptyPoolKeepsNoncesOnce(cfg, ProcessThrough(cfg, n, target - 1), target);
    }
  }

  lemma EmptyPoolKeepsNoncesOnce(cfg: Config, n: Node, epoch: int)
    requires n.txPool == []
    ensures Process(cfg, n, epoch).txPool == []
    ensures forall a :: Process(cfg, n, epoch).ledger.Nonce(a) == n.ledger.Nonce(a)
  {
    hide Step, KeysStep;
    assert Due([], epoch) == [];
    assert DrainAll(cfg, n.ledger, [], epoch) == Drained(n.ledger, [], []);
    StepAfterDrain(cfg, n.State(), [], n.obsPool, epoch);
  }

  // Once it has outlived its time-to-live, whatever was pooled and due is consumed.
  lemma OutlivedIsConsumed(cfg: Config, n: Node, t: Tx, target: int)
    requires t in n.txPool && IsDue(t, n.epoch) && n.epoch < target && t.Epoch() < target - cfg.gapTtl
    ensures Stale(ProcessThrough(cfg, n, target).ledger, t)
  {
    hide Process;
    var m := ProcessThrough(cfg, n, target - 1);
    ThroughHolds(cfg, n, target - 1, TxEvent(t));
    ProcessNeverClogs(cfg, m, target);
    HoldsAfterProcess(cfg, m, target, t);
  }

  // With nothing gossiped after the snapshot, the joiner and its server have one ledger ever
  // after if and only if the server retained nothing live that was due: a retained
  // transaction takes effect, or its nonce is skipped, at the server only.
  lemma FastSyncConvergesIff(cfg: Config, o: Origin, g: Gossip, server: Node, joiner: Node)
    requires Proper(cfg, g) && Agrees(cfg, o, g, server) && Informed(g, server, server.epoch) && Within(g, joiner)
    requires forall t :: t in g.txs ==> IsDue(t, server.epoch)
    requires forall epoch :: Dormant(cfg, epoch)
    ensures var n := Adopt(cfg, joiner, SnapshotOf(server));
            (forall target :: ProcessThrough(cfg, n, target).ledger == ProcessThrough(cfg, server, target).ledger) <==>
              RetainsNothing(server)
  {
    hide Process, Ref, SeedMasters, Proper, Dormant;
    var n := Adopt(cfg, joiner, SnapshotOf(server));
    if RetainsNothing(server) {
      AdoptedIsJoined(cfg, o, g, server, joiner);
      forall target ensures ProcessThrough(cfg, n, target).ledger == ProcessThrough(cfg, server, target).ledger {
        assert Dormant(cfg, target);
        assert InformedOfTxs(g, n, target) && InformedOfTxs(g, server, target);
        DormantThrough(cfg, o, g, n, target);
        DormantThrough(cfg, o, g, server, target);
        ProcessThroughEpoch(cfg, n, target);
        ProcessThroughEpoch(cfg, server, target);
      }
    } else {
      var t :| t in server.txPool && IsDue(t, server.epoch) && !Stale(server.ledger, t);
      var target := if t.Epoch() + cfg.gapTtl < server.epoch then server.epoch + 1 else t.Epoch() + cfg.gapTtl + 1;
      RetainedPartsLedgers(cfg, g, server, joiner, t, target);
    }
  }

  lemma RetainedPartsLedgers(cfg: Config, g: Gossip, server: Node, joiner: Node, t: Tx, target: int)
    requires Within(g, joiner) && forall u :: u in g.txs ==> IsDue(u, server.epoch)
    requires t in server.txPool && IsDue(t, server.epoch) && !Stale(server.ledger, t)
    requires server.epoch < target && t.Epoch() < target - cfg.gapTtl
    ensures var n := Adopt(cfg, joiner, SnapshotOf(server));
            ProcessThrough(cfg, n, target).ledger.Nonce(t.from) <= t.nonce
            < ProcessThrough(cfg, server, target).ledger.Nonce(t.from)
  {
    hide Process, ProcessThrough, SeedMasters;
    var n := Adopt(cfg, joiner, SnapshotOf(server));
    assert forall u :: u in n.txPool ==> u in g.txs && !IsDue(u, server.epoch);
    HasElement(n.txPool);
    EmptyPoolKeepsNonces(cfg, n, target);
    OutlivedIsConsumed(cfg, server, t, target);
  }

  // Ingest refuses the transaction in the adopted state: its kind asks something that the
  // snapshot does not grant.
  predicate Refused(cfg: Config, s: Saved, t: Tx) { !WellFormed(cfg, t) || !Admits(cfg, s.state.ledger, s.epoch, t) }

  // After the adoption, it is neither pooled nor can be pooled again.
  ghost predicate LosesTx(cfg: Config, n: Node, s: Saved, t: Tx)
    requires PoolsDistinct(n)
  {
    t !in Adopt(cfg, n, s).txPool && t !in IngestTx(cfg, Adopt(cfg, n, s), t).txPool
  }

  ghost predicate LosesObs(cfg: Config, n: Node, s: Saved, x: Obs)
    requires PoolsDistinct(n)
  {
    x !in Adopt(cfg, n, s).obsPool && x !in IngestObs(cfg, Adopt(cfg, n, s), x).obsPool
  }

  // dropPooledThrough drops up to the floor, but ingest only up to the floor minus the settle
  // window: so of what was pooled before the adoption, exactly this is lost for now - at or
  // below the floor, and remembered, or under ingest's floor, or refused by the snapshot. It
  // may come back when the cache has forgotten it or a later state admits it.
  lemma AdoptionLosesTxIff(cfg: Config, n: Node, s: Saved, t: Tx)
    requires PoolsDistinct(n) && t in n.txPool
    ensures var floor := if n.floor > s.epoch then n.floor else s.epoch;
            var under := floor >= 0 && t.Epoch() <= floor - SETTLE_ROUNDS;
            LosesTx(cfg, n, s, t) <==> t.Epoch() <= floor && (TxCacheKey(t) in n.known || under || Refused(cfg, s, t))
  { }

  lemma AdoptionLosesObsIff(cfg: Config, n: Node, s: Saved, x: Obs)
    requires PoolsDistinct(n) && x in n.obsPool
    ensures var floor := if n.floor > s.epoch then n.floor else s.epoch;
            var under := floor >= 0 && x.Epoch() <= floor - SETTLE_ROUNDS;
            var refused := !cfg.verifyObs(x) || Aged(x, s.epoch);
            LosesObs(cfg, n, s, x) <==> x.Epoch() <= floor && (ObsCacheKey(x) in n.known || under || refused)
  { }

  // One that is lost although the adopted ledger has not consumed it: due only after the
  // adoption, pooled in time, and dropped.
  lemma AdoptionLosesLiveTx(cfg: Config, n: Node, s: Saved, t: Tx)
    requires PoolsDistinct(n) && n.floor <= s.epoch && t in n.txPool && TxCacheKey(t) in n.known
    requires t.Epoch() == s.epoch && s.state.ledger.Nonce(t.from) == t.nonce
    ensures var m := Adopt(cfg, n, s);
            !IsDue(t, s.epoch) && !UnderFloor(m, t.Epoch()) && IngestTx(cfg, m, t) == m && !HoldsTx(m, t)
  {
    AdoptionLosesTxIff(cfg, n, s, t);
  }

  // With the payout armed, a joiner pays nothing in its first epochs, because the heartbeats
  // that would decide it lie below its floor: so it matches the reference in such an epoch
  // exactly if the reference pays nothing either.
  lemma JoinerSkipsPayouts(cfg: Config, l: Ledger, pool: seq<Obs>, all: seq<Obs>, floor: int, epoch: int)
    requires forall o :: o in pool ==> o.Epoch() > floor - SETTLE_ROUNDS
    requires epoch <= floor + OBS_LAG - SETTLE_ROUNDS
    ensures Distribute(cfg, l, pool, epoch) == l
    ensures Distribute(cfg, l, pool, epoch) == Distribute(cfg, l, all, epoch) <==> !PaysNow(cfg, l, all, epoch)
  {
    NothingPaid(cfg, l, pool, epoch);
  }
}
