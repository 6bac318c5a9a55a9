// What a node takes in, said without the functions that take it in, and what follows for its
// whole run: nothing takes effect that was not received and genuine (ingestTx and
// ingestObservation in State.ts; start in ZiraNode.ts).
module Intake {
  import opened Events
  import opened Order
  import opened Ledger
  import opened Drain
  import opened Laws
  import opened Trust
  import opened Tenure
  import opened Node
  import opened Clock
  import opened Convergence
  import opened Cluster

  // ---- transactions ----

  // Signed, of a kind that is gossiped, and of the shape that its kind asks for.
  ghost predicate Genuine(cfg: Config, t: Tx) {
    && cfg.verifyTx(t) && t.kind != Reward && t.kind != Kind.Anchor(Activate)
    && (t.kind in {FounderDelegate, FounderRevoke, SetBeneficiary} ==> t.amount == 0 && "zir1" <= t.to)
    && (t.kind == FounderRevoke ==> t.to != cfg.founder)
    && (t.kind == BatchTransfer ==> exists outs: Outputs :: t.memo.batch == Some(outs) && OutputSum(outs) == t.amount)
    && (t.kind == PoolPayout ==> exists p :: t.memo.payout == Some(p) && OutputSum(p.outputs) == t.amount)
  }

  // A new transaction passes the gates that read the node's state.
  ghost predicate LetIn(cfg: Config, n: Node, t: Tx) {
    && Genuine(cfg, t) && "tx:" + t.id !in n.known
    && (t.kind in {ReserveGrant, FounderDelegate, FounderRevoke} ==> t.from in n.ledger.founders)
    && (t.kind == SetBeneficiary ==> 0 < cfg.poolBeneficiary <= n.epoch)
  }

  // An adopted snapshot covers what is at least eight epochs older than it.
  predicate Covered(n: Node, timestamp: int) { n.floor >= 0 && timestamp / 5000 + 8 <= n.floor }

  // The cache has the new key at its end; only when it would exceed its cap of 500000 does it
  // lose its oldest 50000.
  ghost predicate RemembersAlso(before: seq<string>, after: seq<string>, key: string) {
    after == if |before| + 1 > 500_000 then (before + [key])[50_000..] else before + [key]
  }

  lemma GenuineIff(cfg: Config, t: Tx)
    ensures WellFormed(cfg, t) <==> Genuine(cfg, t)
  {
    hide OutputSum;
  }

  // A transaction enters the pool exactly when it is let in and not covered, and then replaces
  // no other one; it is remembered exactly when it is let in; and nothing else of the node
  // changes.
  lemma IntakeIsExact(cfg: Config, n: Node, t: Tx)
    requires Distinct(TxKey(), n.txPool)
    ensures var m, enters := IngestTx(cfg, n, t), LetIn(cfg, n, t) && !Covered(n, t.timestamp);
            && m == n.(txPool := m.txPool, known := m.known)
            && (if LetIn(cfg, n, t) then RemembersAlso(n.known, m.known, "tx:" + t.id) else m.known == n.known)
            && (t in m.txPool <==> t in n.txPool || enters)
            && (forall u :: u != t ==> (u in m.txPool <==> u in n.txPool && !(enters && u.id == t.id)))
  {
    hide WellFormed, Genuine;
    GenuineIff(cfg, t);
    if LetIn(cfg, n, t) && !Covered(n, t.timestamp) {
      PutIs(TxKey(), n.txPool, t);
    }
  }

  lemma PutIs<T(!new)>(key: T -> string, s: seq<T>, x: T)
    requires Distinct(key, s)
    ensures forall y :: y in Put(key, s, x) <==> y == x || (y in s && key(y) != key(x))
  {
    var r := Put(key, s, x);
    forall y | y in r ensures y == x || (y in s && key(y) != key(x)) {
      var i :| 0 <= i < |r| && r[i] == y;
      var j :| 0 <= j < |r| && r[j] == x;
      if i != j { assert key(r[i]) != key(r[j]); }
    }
  }

  // ---- observations ----

  // Verified, new, and not yet 14 epochs old, or 30 for a heartbeat.
  predicate Heeded(cfg: Config, n: Node, o: Obs) {
    && cfg.verifyObs(o) && "ob:" + o.id !in n.known
    && n.epoch < o.timestamp / 5000 + (if o.subject == HEARTBEAT then 30 else 14)
  }

  lemma ObservationIntakeIsExact(cfg: Config, n: Node, o: Obs)
    requires Distinct(ObsKey(), n.obsPool)
    ensures var m, enters := IngestObs(cfg, n, o), Heeded(cfg, n, o) && !Covered(n, o.timestamp);
            && m == n.(obsPool := m.obsPool, known := m.known, keys := m.keys)
            && (if Heeded(cfg, n, o) then RemembersAlso(n.known, m.known, "ob:" + o.id) else m.known == n.known)
            && (o in m.obsPool <==> o in n.obsPool || enters)
            && (forall p :: p != o ==> (p in m.obsPool <==> p in n.obsPool && !(enters && p.id == o.id)))
            && (enters ==> cfg.addressOf(o.observer) in m.keys)
            && (forall a :: a in n.keys ==> a in m.keys && m.keys[a] == n.keys[a])
            && (forall a :: a in m.keys && a !in n.keys ==>
                  enters && a == cfg.addressOf(o.observer) && m.keys[a] == o.observer)
  {
    if Heeded(cfg, n, o) && !Covered(n, o.timestamp) {
      PutIs(ObsKey(), n.obsPool, o);
    }
  }

  // ---- whole runs ----

  ghost predicate ComesFrom(cfg: Config, n: Node, inputs: seq<Input>, t: Tx) {
    t in n.txPool || (Genuine(cfg, t) && ReceiveTx(t) in inputs)
  }

  lemma {:induction false} ThroughPoolShrinks(cfg: Config, n: Node, target: int)
    ensures forall t :: t in ProcessThrough(cfg, n, target).txPool ==> t in n.txPool
    decreases target - n.epoch
  {
    hide Step, KeysStep, StillYoung, Due;
    if target > n.epoch { ThroughPoolShrinks(cfg, n, target - 1); }
  }

  lemma {:induction false} PoolComesFrom(cfg: Config, n: Node, inputs: seq<Input>)
    requires PoolsDistinct(n)
    ensures forall t :: t in RunNode(cfg, n, inputs).txPool ==> ComesFrom(cfg, n, inputs, t)
  {
    hide IngestTx, IngestObs, Advance, ProcessThrough, Genuine;
    if inputs != [] {
      var k := |inputs| - 1;
      var m, i := RunNode(cfg, n, inputs[..k]), inputs[k];
      PoolComesFrom(cfg, n, inputs[..k]);
      assert forall j :: j in inputs <==> j in inputs[..k] || j == i;
      match i
      case ReceiveTx(t) => IntakeIsExact(cfg, m, t);
      case ReceiveObs(o) => ObservationIntakeIsExact(cfg, m, o);
      case Tick(target) =>
        AdvanceRefinesSimpleClock(cfg, m, target);
        ThroughPoolShrinks(cfg, m, target);
    }
  }

  // The transactions that some acts are about.
  ghost predicate ActsOn(acts: seq<Act>, t: Tx) {
    exists a :: a in acts && (a.Apply? || a.Close? || a.Skip?) && a.tx == t
  }

  lemma ActsOnJoined(a: seq<Act>, b: seq<Act>, t: Tx)
    ensures ActsOn(a + b, t) <==> ActsOn(a, t) || ActsOn(b, t)
  {
    if ActsOn(a, t) {
      var x :| x in a && (x.Apply? || x.Close? || x.Skip?) && x.tx == t;
      assert x in a + b;
    }
    if ActsOn(b, t) {
      var x :| x in b && (x.Apply? || x.Close? || x.Skip?) && x.tx == t;
      assert x in a + b;
    }
  }

  lemma {:induction false} DrainActsOn(cfg: Config, l: Ledger, txs: seq<Tx>, epoch: int, t: Tx)
    requires ActsOn(DrainActs(cfg, l, txs, epoch), t)
    ensures t in txs
  {
    hide DrainOne;
    if txs != [] {
      var n := |txs| - 1;
      var d := DrainAll(cfg, l, txs[..n], epoch).ledger;
      ActsOnJoined(DrainActs(cfg, l, txs[..n], epoch), ActsFor(cfg, d, txs[n], epoch), t);
      if ActsOn(DrainActs(cfg, l, txs[..n], epoch), t) { DrainActsOn(cfg, l, txs[..n], epoch, t); }
    }
  }

  lemma {:induction false} ThroughActsOn(cfg: Config, n: Node, target: int, t: Tx)
    requires ActsOn(ThroughActs(cfg, n, target), t)
    ensures t in n.txPool
    decreases target - n.epoch
  {
    hide DrainActs, DrainAll, TrustStep, ProcessThrough, Due;
    if target > n.epoch {
      var m := ProcessThrough(cfg, n, target - 1);
      var due := Due(m.txPool, target);
      var step := StepActs(cfg, m.State(), due, m.obsPool, target);
      ActsOnJoined(ThroughActs(cfg, n, target - 1), step, t);
      if ActsOn(ThroughActs(cfg, n, target - 1), t) {
        ThroughActsOn(cfg, n, target - 1, t);
      } else {
        ActsOnJoined(DrainActs(cfg, m.ledger, due, target), step[|DrainActs(cfg, m.ledger, due, target)|..], t);
        assert step == DrainActs(cfg, m.ledger, due, target) + step[|DrainActs(cfg, m.ledger, due, target)|..];
        DrainActsOn(cfg, m.ledger, due, target, t);
        ThroughPoolShrinks(cfg, n, target - 1);
      }
    }
  }

  lemma {:induction false} RunActsComeFrom(cfg: Config, n: Node, inputs: seq<Input>, t: Tx)
    requires PoolsDistinct(n) && ActsOn(RunActs(cfg, n, inputs), t)
    ensures ComesFrom(cfg, n, inputs, t)
  {
    hide ThroughActs, RunNode, Genuine;
    if inputs != [] {
      var k := |inputs| - 1;
      var m := RunNode(cfg, n, inputs[..k]);
      var more := if inputs[k].Tick? then ThroughActs(cfg, m, inputs[k].target) else [];
      ActsOnJoined(RunActs(cfg, n, inputs[..k]), more, t);
      assert forall j :: j in inputs[..k] ==> j in inputs;
      if ActsOn(RunActs(cfg, n, inputs[..k]), t) {
        RunActsComeFrom(cfg, n, inputs[..k], t);
      } else {
        ThroughActsOn(cfg, m, inputs[k].target, t);
        PoolComesFrom(cfg, n, inputs[..k]);
      }
    }
  }

  lemma ActsOnOne(a: Act)
    ensures a.Apply? ==> ActsOn([a], a.tx)
  {
    assert a in [a];
  }

  lemma {:induction false} EffectiveActsOn(cfg: Config, l: Ledger, acts: seq<Act>, t: Tx)
    requires t in Effective(cfg, l, acts)
    ensures ActsOn(acts, t)
  {
    hide Do, DoAll, ActsOn;
    if acts != [] {
      var n := |acts| - 1;
      assert acts == acts[..n] + [acts[n]];
      ActsOnJoined(acts[..n], [acts[n]], t);
      ActsOnOne(acts[n]);
      if t in Effective(cfg, l, acts[..n]) { EffectiveActsOn(cfg, l, acts[..n], t); }
    }
  }

  // In every run of a node, whatever arrives: a transaction takes effect, and even moves its
  // sender's nonce, only if it was pooled at the start or has been received and is genuine.
  lemma OnlyGenuineTakesEffect(cfg: Config, n: Node, inputs: seq<Input>, t: Tx)
    requires PoolsDistinct(n)
    requires t in Effective(cfg, n.ledger, RunActs(cfg, n, inputs)) || ActsOn(RunActs(cfg, n, inputs), t)
    ensures t in n.txPool || (cfg.verifyTx(t) && Genuine(cfg, t) && ReceiveTx(t) in inputs)
  {
    hide RunActs, Effective, ActsOn;
    var acts := RunActs(cfg, n, inputs);
    if t in Effective(cfg, n.ledger, acts) { EffectiveActsOn(cfg, n.ledger, acts, t); }
    RunActsComeFrom(cfg, n, inputs, t);
  }

  // ---- coming back ----

  lemma {:induction false} ReplayKeepsState(cfg: Config, p: Peer, events: seq<Event>)
    requires PoolsDistinct(p.node)
    ensures var q := Replay(cfg, p, events);
            q.node.State() == p.node.State() && q.node.epoch == p.node.epoch && q.node.floor == p.node.floor
  {
    hide WellFormed;
    if events != [] { ReplayKeepsState(cfg, p, events[..|events| - 1]); }
  }

  // A peer that comes back right after saving stands where it stood: the same committed state
  // at the same epoch. One that comes back later stands where it last saved.
  lemma RestartResumes(cfg: Config, o: Origin, p: Peer, cushion: nat, large: bool)
    ensures var q := Restart(cfg, o, Save(p, cushion, large), cushion);
            q.node.State() == p.node.State() && q.node.epoch == p.node.epoch
    ensures var r := Restart(cfg, o, p, cushion);
            if p.saved.Some? then r.node.State() == p.saved.value.state && r.node.epoch == p.saved.value.epoch
            else r.node.State() == o.state && r.node.epoch == o.epoch
  {
    hide Replay;
    var s := Save(p, cushion, large);
    ResumesAt(cfg, o, p, cushion);
    ResumesAt(cfg, o, s, cushion);
  }

  lemma ResumesAt(cfg: Config, o: Origin, p: Peer, cushion: nat)
    ensures var r := Restart(cfg, o, p, cushion); r.node.State() == Base(o, p).state && r.node.epoch == Base(o, p).epoch
  {
    hide Replay;
    var base := Base(o, p);
    var log := if p.saved.Some? then Filter(Recent(base.epoch, cushion), p.log) else p.log;
    ReplayKeepsState(cfg, p.(node := Loaded(base), log := log), log);
  }
}
