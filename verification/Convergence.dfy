// Convergence: the committed state of a node is a function of the set of gossiped events
// and the epoch, and of nothing else. Ref is that function: it has no pools, no dedup
// cache, no aging and no arrival order. A node refines it as long as every event reaches
// it before the epoch that settles the event.
module Convergence {
  import opened Events
  import opened Order
  import opened Apportion
  import opened PayoutSplit
  import opened Heartbeats
  import opened WorkWeights
  import opened Seats
  import opened Ledger
  import Emission
  import opened FieldPayout
  import opened Drain
  import opened Trust
  import opened Tenure
  import opened Node
  import opened Clock

  // ---- the reference ----

  // Everything that was ever gossiped.
  datatype Gossip = Gossip(txs: seq<Tx>, obs: seq<Obs>)

  // Ids are hashes of content, and no master's newest heartbeat of any window is tied.
  ghost predicate Proper(cfg: Config, g: Gossip) {
    && Distinct(TxKey(), g.txs) && Distinct(ObsKey(), g.obs)
    && forall epoch :: NoTies(cfg, g.obs, epoch)
  }

  predicate Unconsumed(l: Ledger, t: Tx, epoch: int) { IsDue(t, epoch) && !Stale(l, t) }

  // What is due by this epoch and not consumed yet, in canonical order.
  function Outstanding(l: Ledger, txs: seq<Tx>, epoch: int): (r: seq<Tx>)
    ensures forall t :: t in r <==> t in txs && Unconsumed(l, t, epoch)
  {
    Sort(TxOrder(), Filter((t: Tx) => Unconsumed(l, t, epoch), txs))
  }

  datatype Origin = Origin(state: Committed, epoch: int)

  ghost function Ref(cfg: Config, o: Origin, g: Gossip, epoch: int): Committed
    decreases epoch - o.epoch
  {
    if epoch <= o.epoch then o.state
    else
      var c := Ref(cfg, o, g, epoch - 1);
      Step(cfg, c, Outstanding(c.ledger, g.txs, epoch), g.obs, epoch)
  }

  // ---- what a node must hold ----

  predicate HoldsTx(n: Node, t: Tx) { t in n.txPool || Stale(n.ledger, t) }
  predicate HoldsObs(n: Node, o: Obs) { o in n.obsPool || Aged(o, n.epoch) }

  // Every event that the given epoch settles has reached the node.
  ghost predicate Informed(g: Gossip, n: Node, epoch: int) {
    && (forall t :: t in g.txs && IsDue(t, epoch) ==> HoldsTx(n, t))
    && (forall o :: o in g.obs && o.Epoch() <= epoch - SETTLE_ROUNDS ==> HoldsObs(n, o))
  }

  // The pools hold nothing but gossip.
  ghost predicate Within(g: Gossip, n: Node) {
    && PoolsDistinct(n)
    && (forall t :: t in n.txPool ==> t in g.txs)
    && (forall o :: o in n.obsPool ==> o in g.obs)
  }

  ghost predicate Agrees(cfg: Config, o: Origin, g: Gossip, n: Node) {
    && o.epoch <= n.epoch
    && n.State() == Ref(cfg, o, g, n.epoch)
    && Within(g, n)
  }

  // ---- one epoch ----

  lemma DueIsOutstanding(cfg: Config, g: Gossip, n: Node, epoch: int)
    requires Distinct(TxKey(), g.txs) && Within(g, n)
    requires forall t :: t in g.txs && IsDue(t, epoch) ==> HoldsTx(n, t)
    ensures DrainAll(cfg, n.ledger, Due(n.txPool, epoch), epoch)
              == DrainAll(cfg, n.ledger, Outstanding(n.ledger, g.txs, epoch), epoch)
  {
    var due := Due(n.txPool, epoch);
    DrainIgnoresStale(cfg, n.ledger, due, epoch);
    TxOrderIsStrict();
    DueAscends(n.txPool, (t: Tx) => IsDue(t, epoch));
    DueAscends(g.txs, (t: Tx) => Unconsumed(n.ledger, t, epoch));
    FilterAscends(TxOrder(), Live(n.ledger), due);
    AscendingIsUnique(TxOrder(), Filter(Live(n.ledger), due), Outstanding(n.ledger, g.txs, epoch));
  }

  lemma DueAscends(pool: seq<Tx>, keep: Tx -> bool)
    requires Distinct(TxKey(), pool)
    ensures Ascending(TxOrder(), Sort(TxOrder(), Filter(keep, pool)))
  {
    TxOrderIsStrict();
    FilterIsDistinct(TxKey(), keep, pool);
    PoolIsComparable(Filter(keep, pool));
    SortAscends(TxOrder(), Filter(keep, pool));
  }

  // ---- gaps in a pool ----

  // What an epoch passes over among the pooled transactions, due or not: the live ones whose
  // slot nothing due takes, with a due successor that has outlived the time-to-live. Each
  // is dead afterwards, and still pooled.
  lemma PoolGapIff(cfg: Config, n: Node, epoch: int, t: Tx)
    requires PoolsDistinct(n) && t in n.txPool
    ensures var due := Due(n.txPool, epoch);
            PassedOver(cfg, n.ledger, due, epoch, t) <==>
              !Stale(n.ledger, t) && SlotKept(cfg, n.ledger, due, epoch, t) && OldSuccessor(cfg, due, epoch, t)
    ensures PassedOver(cfg, n.ledger, Due(n.txPool, epoch), epoch, t) ==>
              t in Process(cfg, n, epoch).txPool && Stale(Process(cfg, n, epoch).ledger, t)
  {
    hide DrainAll, Step, Expired, KeysStep, StillYoung;
    var due := Due(n.txPool, epoch);
    DueAscends(n.txPool, (u: Tx) => IsDue(u, epoch));
    PassedOverIff(cfg, n.ledger, due, epoch, t);
    if PassedOver(cfg, n.ledger, due, epoch, t) {
      PassedOverIsDead(cfg, n.ledger, due, epoch, t);
      StepAfterDrain(cfg, n.State(), due, n.obsPool, epoch);
      assert IsDue(t, epoch) ==> t in due && SameSlot(t, t);
    }
  }

  // With timestamps that do not decrease with the nonce, that is none of them.
  lemma TimedPoolLosesNothing(cfg: Config, n: Node, epoch: int, t: Tx)
    requires PoolsDistinct(n) && TimedByNonce(n.txPool) && t in n.txPool
    ensures !PassedOver(cfg, n.ledger, Due(n.txPool, epoch), epoch, t)
  {
    hide DrainAll;
    var due := Due(n.txPool, epoch);
    DueAscends(n.txPool, (u: Tx) => IsDue(u, epoch));
    TimedByNonceInside(n.txPool, due);
    if t in due {
      TimedAreNotPassedOver(cfg, n.ledger, due, epoch, t);
    } else {
      PassedOverIff(cfg, n.ledger, due, epoch, t);
      forall u | u in due && u.from == t.from ensures u.nonce <= t.nonce {
        if t.nonce < u.nonce { TimedApart(n.txPool, t, u); }
      }
    }
  }

  lemma TimedByNonceInside(pool: seq<Tx>, some: seq<Tx>)
    requires TimedByNonce(pool) && forall t :: t in some ==> t in pool
    ensures TimedByNonce(some)
  {
    forall i, j | 0 <= i < |some| && 0 <= j < |some| && some[i].from == some[j].from && some[i].nonce < some[j].nonce
      ensures some[i].timestamp <= some[j].timestamp
    {
      assert some[i] in pool && some[j] in pool;
      var k, m :| 0 <= k < |pool| && 0 <= m < |pool| && pool[k] == some[i] && pool[m] == some[j];
      assert pool[k].timestamp <= pool[m].timestamp;
    }
  }

  // The payout depends on which heartbeats count, not on their order in the pool.
  lemma DistributeIgnoresOrder(cfg: Config, l: Ledger, pool: seq<Obs>, other: seq<Obs>, epoch: int)
    requires NoTies(cfg, pool, epoch)
    requires forall o :: Counts(cfg, o, epoch) ==> (o in pool <==> o in other)
    ensures Distribute(cfg, l, pool, epoch) == Distribute(cfg, l, other, epoch)
  {
    var a, b := LatestHeartbeats(cfg, pool, epoch), LatestHeartbeats(cfg, other, epoch);
    LatestIsCanonical(cfg, pool, other, epoch);
    LatestAreLatest(cfg, pool, epoch);
    LatestAreLatest(cfg, other, epoch);
    SortedNamesIgnoreOrder(VouchedBy(cfg, a), VouchedBy(cfg, b));
    var payees := Payees(cfg, a);
    assert Payees(cfg, b) == payees;
    if payees != [] { AmountsIgnoreOrder(cfg, l, a, b, payees, epoch); }
  }

  lemma AmountsIgnoreOrder(cfg: Config, l: Ledger, a: seq<Obs>, b: seq<Obs>, payees: seq<Address>, epoch: int)
    requires OneEach(a) && OneEach(b) && payees != []
    requires forall o :: o in a <==> o in b
    ensures FieldPayout.Amounts(cfg, l, a, payees, epoch) == FieldPayout.Amounts(cfg, l, b, payees, epoch)
  {
    forall i | 0 <= i < |payees| ensures Weights(cfg, l, a, payees, epoch)[i] == Weights(cfg, l, b, payees, epoch)[i] {
      WorkWeightIgnoresOrder(a, b, payees[i]);
    }
    assert Weights(cfg, l, a, payees, epoch) == Weights(cfg, l, b, payees, epoch);
  }

  lemma WindowsAgree(g: Gossip, n: Node, epoch: int, o: Obs)
    requires Within(g, n) && n.epoch == epoch - 1
    requires forall x :: x in g.obs && x.Epoch() <= epoch - SETTLE_ROUNDS ==> HoldsObs(n, x)
    requires AgeCut(o, epoch) < o.Epoch() <= epoch - SETTLE_ROUNDS
    ensures o in n.obsPool <==> o in g.obs
  {
    if o in g.obs { assert HoldsObs(n, o); }
  }

  // The step a node takes is the step of the reference.
  lemma StepAgrees(cfg: Config, g: Gossip, n: Node, epoch: int)
    requires Proper(cfg, g) && Within(g, n) && n.epoch == epoch - 1 && Informed(g, n, epoch)
    ensures Step(cfg, n.State(), Due(n.txPool, epoch), n.obsPool, epoch)
         == Step(cfg, n.State(), Outstanding(n.ledger, g.txs, epoch), g.obs, epoch)
  {
    DueIsOutstanding(cfg, g, n, epoch);
    forall o | InWindow(o, epoch) ensures o in n.obsPool <==> o in g.obs { WindowsAgree(g, n, epoch, o); }
    forall o | Counts(cfg, o, epoch) ensures o in n.obsPool <==> o in g.obs { WindowsAgree(g, n, epoch, o); }
    var d := DrainAll(cfg, n.ledger, Due(n.txPool, epoch), epoch);
    RunFieldIgnoresOrder(cfg, TrustAfterAll(cfg, n.trust, d.applied, epoch), n.obsPool, g.obs, epoch);
    assert NoTies(cfg, g.obs, epoch);
    var t := TrustStep(cfg, n.trust, d.applied, g.obs, epoch);
    DistributeIgnoresOrder(cfg, SealRegistry(cfg, Emission.Emit(cfg, d.ledger, epoch), t, epoch), g.obs, n.obsPool,
                           epoch);
  }

  // ---- epochs keep the agreement ----

  lemma HoldsAfterProcess(cfg: Config, n: Node, epoch: int, t: Tx)
    requires HoldsTx(n, t)
    ensures HoldsTx(Process(cfg, n, epoch), t)
  {
    ProcessNeverClogs(cfg, n, epoch);
    assert n.ledger.Nonce(t.from) <= Process(cfg, n, epoch).ledger.Nonce(t.from);
  }

  lemma HoldsObsAfterProcess(cfg: Config, n: Node, epoch: int, o: Obs)
    requires HoldsObs(n, o) && n.epoch <= epoch
    ensures HoldsObs(Process(cfg, n, epoch), o)
  { }

  lemma InformedAfterProcess(cfg: Config, g: Gossip, n: Node, epoch: int, horizon: int)
    requires Informed(g, n, horizon) && n.epoch <= epoch
    ensures Informed(g, Process(cfg, n, epoch), horizon)
  {
    var m := Process(cfg, n, epoch);
    forall t | t in g.txs && IsDue(t, horizon) ensures HoldsTx(m, t) { HoldsAfterProcess(cfg, n, epoch, t); }
    forall o | o in g.obs && o.Epoch() <= horizon - SETTLE_ROUNDS ensures HoldsObs(m, o) {
      HoldsObsAfterProcess(cfg, n, epoch, o);
    }
  }

  lemma ProcessAgrees(cfg: Config, o: Origin, g: Gossip, n: Node)
    requires Proper(cfg, g) && Agrees(cfg, o, g, n) && Informed(g, n, n.epoch + 1)
    ensures Agrees(cfg, o, g, Process(cfg, n, n.epoch + 1))
  {
    StepAgrees(cfg, g, n, n.epoch + 1);
    ProcessKeepsDistinct(cfg, n, n.epoch + 1);
  }

  lemma {:induction false} ThroughAgrees(cfg: Config, o: Origin, g: Gossip, n: Node, target: int)
    requires Proper(cfg, g) && Agrees(cfg, o, g, n) && Informed(g, n, target)
    ensures Agrees(cfg, o, g, ProcessThrough(cfg, n, target))
    decreases target - n.epoch
  {
    hide Process, Step;
    if target > n.epoch {
      InformedEarlier(g, n, target - 1, target);
      ThroughAgrees(cfg, o, g, n, target - 1);
      ThroughInforms(cfg, g, n, target - 1, target);
      ProcessThroughEpoch(cfg, n, target - 1);
      ProcessAgrees(cfg, o, g, ProcessThrough(cfg, n, target - 1));
    }
  }

  lemma InformedEarlier(g: Gossip, n: Node, earlier: int, epoch: int)
    requires Informed(g, n, epoch) && earlier <= epoch
    ensures Informed(g, n, earlier)
  { }

  lemma {:induction false} ThroughInforms(cfg: Config, g: Gossip, n: Node, target: int, horizon: int)
    requires Informed(g, n, horizon)
    ensures Informed(g, ProcessThrough(cfg, n, target), horizon)
    decreases target - n.epoch
  {
    hide Process, Step;
    if target > n.epoch {
      ThroughInforms(cfg, g, n, target - 1, horizon);
      ProcessThroughEpoch(cfg, n, target - 1);
      InformedAfterProcess(cfg, g, ProcessThrough(cfg, n, target - 1), target, horizon);
    }
  }

  // ---- receiving keeps the agreement ----

  // The dedup cache never hides an event the node still needs.
  ghost predicate CacheIsHonest(g: Gossip, n: Node) {
    && (forall t :: t in g.txs && TxCacheKey(t) in n.known ==> HoldsTx(n, t) || UnderFloor(n, t.Epoch()))
    && (forall o :: o in g.obs && ObsCacheKey(o) in n.known ==> HoldsObs(n, o) || UnderFloor(n, o.Epoch()))
  }

  predicate AcceptsTx(cfg: Config, n: Node, t: Tx) { WellFormed(cfg, t) && Admits(cfg, n.ledger, n.epoch, t) }

  lemma CacheKeysDiffer(t: Tx, u: Tx, o: Obs, p: Obs)
    ensures TxCacheKey(t) != ObsCacheKey(o)
    ensures TxCacheKey(t) == TxCacheKey(u) ==> t.id == u.id
    ensures ObsCacheKey(o) == ObsCacheKey(p) ==> o.id == p.id
  {
    assert TxCacheKey(t)[0] == 't' && ObsCacheKey(o)[0] == 'o';
    assert TxCacheKey(t)[3..] == t.id && TxCacheKey(u)[3..] == u.id;
    assert ObsCacheKey(o)[3..] == o.id && ObsCacheKey(p)[3..] == p.id;
  }

  lemma SameId<T(!new)>(key: T -> string, s: seq<T>, x: T, y: T)
    requires Distinct(key, s) && x in s && y in s && key(x) == key(y)
    ensures x == y
  {
    var i :| 0 <= i < |s| && s[i] == x;
    var j :| 0 <= j < |s| && s[j] == y;
  }

  // Receiving only ever adds to what a node holds.
  lemma IngestTxHolds(cfg: Config, g: Gossip, n: Node, t: Tx, u: Tx)
    requires Distinct(TxKey(), g.txs) && Within(g, n) && t in g.txs && u in g.txs && HoldsTx(n, u)
    ensures HoldsTx(IngestTx(cfg, n, t), u)
  {
    if u in n.txPool && t.id == u.id { SameId(TxKey(), g.txs, t, u); }
  }

  lemma IngestObsHolds(cfg: Config, g: Gossip, n: Node, o: Obs, p: Obs)
    requires Distinct(ObsKey(), g.obs) && Within(g, n) && o in g.obs && p in g.obs && HoldsObs(n, p)
    ensures HoldsObs(IngestObs(cfg, n, o), p)
  {
    if p in n.obsPool && o.id == p.id { SameId(ObsKey(), g.obs, o, p); }
  }

  // An accepted event is held from then on.
  lemma IngestTxTakes(cfg: Config, g: Gossip, n: Node, t: Tx)
    requires Within(g, n) && CacheIsHonest(g, n) && t in g.txs && AcceptsTx(cfg, n, t)
    ensures HoldsTx(IngestTx(cfg, n, t), t) || UnderFloor(n, t.Epoch())
  { }

  lemma IngestObsTakes(cfg: Config, g: Gossip, n: Node, o: Obs)
    requires Within(g, n) && CacheIsHonest(g, n) && o in g.obs && cfg.verifyObs(o)
    ensures HoldsObs(IngestObs(cfg, n, o), o) || UnderFloor(n, o.Epoch())
  { }

  lemma RememberAdds(known: seq<string>, key: string, x: string)
    requires x in Remember(known, key)
    ensures x in known || x == key
  { }

  lemma IngestTxKeepsCache(cfg: Config, g: Gossip, n: Node, t: Tx)
    requires Distinct(TxKey(), g.txs) && Within(g, n) && CacheIsHonest(g, n) && t in g.txs
    ensures Within(g, IngestTx(cfg, n, t)) && CacheIsHonest(g, IngestTx(cfg, n, t))
  {
    var m := IngestTx(cfg, n, t);
    if m != n {
      IngestTxTakes(cfg, g, n, t);
      forall u | u in g.txs && TxCacheKey(u) in m.known ensures HoldsTx(m, u) || UnderFloor(m, u.Epoch()) {
        RememberAdds(n.known, TxCacheKey(t), TxCacheKey(u));
        if TxCacheKey(u) in n.known {
          if HoldsTx(n, u) { IngestTxHolds(cfg, g, n, t, u); }
        } else {
          assert TxCacheKey(u)[3..] == u.id && TxCacheKey(t)[3..] == t.id;
          SameId(TxKey(), g.txs, t, u);
        }
      }
      forall o | o in g.obs && ObsCacheKey(o) in m.known ensures HoldsObs(m, o) || UnderFloor(m, o.Epoch()) {
        RememberAdds(n.known, TxCacheKey(t), ObsCacheKey(o));
        CacheKeysDiffer(t, t, o, o);
      }
    }
  }

  lemma IngestObsKeepsCache(cfg: Config, g: Gossip, n: Node, o: Obs)
    requires Distinct(ObsKey(), g.obs) && Within(g, n) && CacheIsHonest(g, n) && o in g.obs
    ensures Within(g, IngestObs(cfg, n, o)) && CacheIsHonest(g, IngestObs(cfg, n, o))
  {
    var m := IngestObs(cfg, n, o);
    if m != n {
      IngestObsTakes(cfg, g, n, o);
      forall p | p in g.obs && ObsCacheKey(p) in m.known ensures HoldsObs(m, p) || UnderFloor(m, p.Epoch()) {
        RememberAdds(n.known, ObsCacheKey(o), ObsCacheKey(p));
        if ObsCacheKey(p) in n.known {
          if HoldsObs(n, p) { IngestObsHolds(cfg, g, n, o, p); }
        } else {
          assert ObsCacheKey(p)[3..] == p.id && ObsCacheKey(o)[3..] == o.id;
          SameId(ObsKey(), g.obs, o, p);
        }
      }
      forall t | t in g.txs && TxCacheKey(t) in m.known ensures HoldsTx(m, t) || UnderFloor(m, t.Epoch()) {
        RememberAdds(n.known, ObsCacheKey(o), TxCacheKey(t));
        CacheKeysDiffer(t, t, o, o);
      }
    }
  }

  lemma ProcessKeepsCache(cfg: Config, g: Gossip, n: Node, epoch: int)
    requires CacheIsHonest(g, n) && n.epoch <= epoch
    ensures CacheIsHonest(g, Process(cfg, n, epoch))
  {
    var m := Process(cfg, n, epoch);
    forall t | t in g.txs && TxCacheKey(t) in m.known ensures HoldsTx(m, t) || UnderFloor(m, t.Epoch()) {
      if HoldsTx(n, t) { HoldsAfterProcess(cfg, n, epoch, t); }
    }
    forall o | o in g.obs && ObsCacheKey(o) in m.known ensures HoldsObs(m, o) || UnderFloor(m, o.Epoch()) {
      if HoldsObs(n, o) { HoldsObsAfterProcess(cfg, n, epoch, o); }
    }
  }

  lemma {:induction false} ThroughKeepsCache(cfg: Config, g: Gossip, n: Node, target: int)
    requires CacheIsHonest(g, n)
    ensures CacheIsHonest(g, ProcessThrough(cfg, n, target))
    decreases target - n.epoch
  {
    hide Process, Step;
    if target > n.epoch {
      ThroughKeepsCache(cfg, g, n, target - 1);
      ProcessThroughEpoch(cfg, n, target - 1);
      ProcessKeepsCache(cfg, g, ProcessThrough(cfg, n, target - 1), target);
    }
  }

  // ---- confluence of whole runs ----

  // Along the run, only gossip is received, and at every tick each event that the target
  // settles is pooled or already consumed. Whatever its kind, and however it got there.
  ghost predicate PooledInTime(cfg: Config, g: Gossip, n: Node, inputs: seq<Input>)
    requires PoolsDistinct(n)
  {
    forall k :: 0 <= k < |inputs| ==>
      match inputs[k]
      case ReceiveTx(t) => t in g.txs
      case ReceiveObs(x) => x in g.obs
      case Tick(target) => Informed(g, RunNode(cfg, n, inputs[..k]), target)
  }

  lemma {:induction false} RunAgrees(cfg: Config, o: Origin, g: Gossip, n: Node, inputs: seq<Input>)
    requires Proper(cfg, g) && Agrees(cfg, o, g, n) && PooledInTime(cfg, g, n, inputs)
    ensures Agrees(cfg, o, g, RunNode(cfg, n, inputs))
  {
    hide Take, Ref;
    if inputs != [] {
      var k := |inputs| - 1;
      var m := RunNode(cfg, n, inputs[..k]);
      assert forall j :: 0 <= j < k ==> inputs[..k][..j] == inputs[..j];
      RunAgrees(cfg, o, g, n, inputs[..k]);
      TakeAgrees(cfg, o, g, m, inputs[k]);
    }
  }

  lemma TakeAgrees(cfg: Config, o: Origin, g: Gossip, n: Node, i: Input)
    requires Proper(cfg, g) && Agrees(cfg, o, g, n)
    requires i.ReceiveTx? ==> i.tx in g.txs
    requires i.ReceiveObs? ==> i.obs in g.obs
    requires i.Tick? ==> Informed(g, n, i.target)
    ensures Agrees(cfg, o, g, Take(cfg, n, i))
  {
    hide Advance, ProcessThrough, Ref;
    if i.Tick? {
      AdvanceRefinesSimpleClock(cfg, n, i.target);
      ThroughAgrees(cfg, o, g, n, i.target);
    }
  }

  // Two nodes that pool the same events in time, in any order, with any duplicates and any
  // interleaving with their clocks, hold the same ledger and trust at every common epoch.
  lemma NodesConverge(cfg: Config, o: Origin, g: Gossip, n: Node, inputs: seq<Input>, m: Node, others: seq<Input>)
    requires Proper(cfg, g) && Agrees(cfg, o, g, n) && Agrees(cfg, o, g, m)
    requires PooledInTime(cfg, g, n, inputs) && PooledInTime(cfg, g, m, others)
    requires RunNode(cfg, n, inputs).epoch == RunNode(cfg, m, others).epoch
    ensures RunNode(cfg, n, inputs).ledger == RunNode(cfg, m, others).ledger
    ensures RunNode(cfg, n, inputs).trust == RunNode(cfg, m, others).trust
  {
    hide RunNode, Ref;
    RunAgrees(cfg, o, g, n, inputs);
    RunAgrees(cfg, o, g, m, others);
    assert RunNode(cfg, n, inputs).State() == RunNode(cfg, m, others).State();
  }
}
