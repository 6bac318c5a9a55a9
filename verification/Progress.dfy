// The network never wedges: whatever has happened so far - messages lost, nodes stopped,
// logs compacted - the run can go on until every node is at any epoch ahead, and then they
// all hold the one ledger of that epoch.
module Progress {
  import opened Order
  import opened Events
  import Emission
  import opened Heartbeats
  import opened Ledger
  import opened FieldPayout
  import opened Drain
  import opened Laws
  import opened Trust
  import opened Tenure
  import opened Node
  import opened Clock
  import opened Convergence
  import opened Cluster

  lemma Extend(cfg: Config, o: Origin, cushion: nat, size: nat, moves: seq<Move>, m: Move)
    requires Reached(cfg, o, cushion, size, moves).Some?
    requires Allowed(cfg, o, Reached(cfg, o, cushion, size, moves).value, m)
    ensures Reached(cfg, o, cushion, size, moves + [m])
            == Some(Moved(cfg, o, cushion, Reached(cfg, o, cushion, size, moves).value, m))
  {
    hide Allowed, Moved;
    assert (moves + [m])[..|moves|] == moves;
  }

  // Everything sent, as events.
  function SentEvents(g: Gossip): (r: seq<Event>)
    ensures forall x :: In(g, x) <==> x in r
  {
    var txs := seq(|g.txs|, i requires 0 <= i < |g.txs| => TxEvent(g.txs[i]));
    var obs := seq(|g.obs|, i requires 0 <= i < |g.obs| => ObsEvent(g.obs[i]));
    assert forall t :: t in g.txs ==> TxEvent(t) in txs by {
      forall t | t in g.txs ensures TxEvent(t) in txs {
        var i :| 0 <= i < |g.txs| && g.txs[i] == t;
        assert txs[i] == TxEvent(t);
      }
    }
    assert forall x :: x in g.obs ==> ObsEvent(x) in obs by {
      forall x | x in g.obs ensures ObsEvent(x) in obs {
        var i :| 0 <= i < |g.obs| && g.obs[i] == x;
        assert obs[i] == ObsEvent(x);
      }
    }
    txs + obs
  }

  // From s to t nothing was published, and only peer i may have changed.
  ghost predicate OnlyPeer(s: Net, t: Net, i: nat) {
    && t.sent == s.sent && |t.peers| == |s.peers|
    && (forall j :: 0 <= j < |s.peers| && j != i ==> t.peers[j] == s.peers[j])
  }

  // The peer holds the event, or accepts it when it comes.
  predicate IsOpenTo(cfg: Config, n: Node, x: Event) {
    Holds(n, x) || Acceptable(cfg, x) || (x.TxEvent? && AcceptsTx(cfg, n, x.tx))
  }

  // No event sent that the target settles is refused by the peer. For the state-independent
  // kinds this is so anyway.
  ghost predicate RefusesNothing(cfg: Config, g: Gossip, n: Node, target: int) {
    forall x :: In(g, x) && Settled(x, target) ==> IsOpenTo(cfg, n, x)
  }

  // What a peer did not lose by the deliveries of some events.
  ghost predicate HasHeard(cfg: Config, g: Gossip, p: Peer, q: Peer, events: seq<Event>) {
    && q.node.State() == p.node.State() && q.node.epoch == p.node.epoch && q.node.floor == p.node.floor
    && (forall x :: x in events ==> x in q.got)
    && (forall x :: In(g, x) && Holds(p.node, x) ==> Holds(q.node, x))
    && (forall x :: x in events && x.TxEvent? && AcceptsTx(cfg, p.node, x.tx) ==> Holds(q.node, x))
  }

  lemma DeliverIsHeard(cfg: Config, o: Origin, g: Gossip, p: Peer, q: Peer, events: seq<Event>, x: Event)
    requires Proper(cfg, g) && Sound(cfg, o, g, q) && In(g, x) && HasHeard(cfg, g, p, q, events)
    ensures HasHeard(cfg, g, p, Deliver(cfg, q, x), events + [x])
  {
    hide Ref, Agrees, CacheIsHonest, DiskCovers;
    SoundIsWithin(cfg, o, g, q);
    var r := Deliver(cfg, q, x);
    ReceiveKeeps(cfg, g, q.node, x);
    forall y | In(g, y) && Holds(p.node, y) ensures Holds(r.node, y) { ReceiveHolds(cfg, g, q.node, x, y); }
    forall y | y in events + [x] && y.TxEvent? && AcceptsTx(cfg, p.node, y.tx) ensures Holds(r.node, y) {
      if y in events {
        assert y in q.got && In(g, y);
        ReceiveHolds(cfg, g, q.node, x, y);
      } else {
        IngestTxTakes(cfg, g, q.node, y.tx);
      }
    }
  }

  lemma SoundIsWithin(cfg: Config, o: Origin, g: Gossip, p: Peer)
    requires Sound(cfg, o, g, p)
    ensures Within(g, p.node) && PoolsDistinct(p.node)
  { }

  // A lost event can always be delivered again, at any time and in any order.
  lemma {:induction false} CanHear(cfg: Config, o: Origin, cushion: nat, size: nat, moves: seq<Move>, i: nat,
                                   events: seq<Event>)
      returns (more: seq<Move>)
    requires Cushioned(cfg, cushion)
    requires var s := Reached(cfg, o, cushion, size, moves);
             s.Some? && i < |s.value.peers| && (forall x :: x in events ==> In(s.value.sent, x))
    ensures var s, t := Reached(cfg, o, cushion, size, moves), Reached(cfg, o, cushion, size, moves + more);
            && t.Some? && OnlyPeer(s.value, t.value, i)
            && HasHeard(cfg, s.value.sent, s.value.peers[i], t.value.peers[i], events)
  {
    hide Reached, HasHeard, Sound;
    var s := Reached(cfg, o, cushion, size, moves).value;
    if events == [] {
      more := [];
      assert moves + more == moves;
      HearsNothing(cfg, s.sent, s.peers[i]);
    } else {
      var n := |events| - 1;
      var first := CanHear(cfg, o, cushion, size, moves, i, events[..n]);
      var q := Reached(cfg, o, cushion, size, moves + first).value;
      more := first + [DeliverTo(i, events[n])];
      assert moves + more == (moves + first) + [DeliverTo(i, events[n])];
      RunsStayConsistent(cfg, o, cushion, size, moves + first);
      Extend(cfg, o, cushion, size, moves + first, DeliverTo(i, events[n]));
      DeliverIsHeard(cfg, o, s.sent, s.peers[i], q.peers[i], events[..n], events[n]);
      assert events == events[..n] + [events[n]];
    }
  }

  lemma HearsNothing(cfg: Config, g: Gossip, p: Peer)
    ensures HasHeard(cfg, g, p, p, [])
  { }

  lemma HeardInTime(cfg: Config, o: Origin, g: Gossip, p: Peer, q: Peer, target: int)
    requires HasHeard(cfg, g, p, q, SentEvents(g)) && RefusesNothing(cfg, g, p.node, target)
    ensures Timely(cfg, g, q, target)
  {
    forall x | In(g, x) && Settled(x, target) && !Acceptable(cfg, x) ensures Holds(q.node, x) {
      assert IsOpenTo(cfg, p.node, x);
    }
  }

  // Any node that refuses nothing can be brought to any epoch ahead of it.
  lemma CanCatchUp(cfg: Config, o: Origin, cushion: nat, size: nat, moves: seq<Move>, i: nat, target: int)
      returns (more: seq<Move>)
    requires Cushioned(cfg, cushion)
    requires var s := Reached(cfg, o, cushion, size, moves);
             && s.Some? && i < |s.value.peers| && s.value.peers[i].node.epoch <= target
             && RefusesNothing(cfg, s.value.sent, s.value.peers[i].node, target)
    ensures var s, t := Reached(cfg, o, cushion, size, moves), Reached(cfg, o, cushion, size, moves + more);
            && t.Some? && OnlyPeer(s.value, t.value, i)
            && t.value.peers[i].node.epoch == target
  {
    hide Reached, Advance, Timely, RefusesNothing;
    var s := Reached(cfg, o, cushion, size, moves).value;
    var hear := CanHear(cfg, o, cushion, size, moves, i, SentEvents(s.sent));
    var t := Reached(cfg, o, cushion, size, moves + hear).value;
    more := hear + [TickAt(i, target)];
    assert moves + more == (moves + hear) + [TickAt(i, target)];
    HeardInTime(cfg, o, s.sent, s.peers[i], t.peers[i], target);
    Extend(cfg, o, cushion, size, moves + hear, TickAt(i, target));
    AdvanceRefinesSimpleClock(cfg, t.peers[i].node, target);
  }

  lemma {:induction false} FirstCatchUp(cfg: Config, o: Origin, cushion: nat, size: nat, moves: seq<Move>, k: nat,
                                        target: int)
      returns (more: seq<Move>)
    requires Cushioned(cfg, cushion)
    requires var s := Reached(cfg, o, cushion, size, moves);
             && s.Some? && k <= |s.value.peers|
             && (forall j :: 0 <= j < |s.value.peers| ==>
                   s.value.peers[j].node.epoch <= target &&
                     RefusesNothing(cfg, s.value.sent, s.value.peers[j].node, target))
    ensures var s, t := Reached(cfg, o, cushion, size, moves), Reached(cfg, o, cushion, size, moves + more);
            && t.Some? && t.value.sent == s.value.sent && |t.value.peers| == |s.value.peers|
            && (forall j :: 0 <= j < k ==> t.value.peers[j].node.epoch == target)
            && (forall j :: k <= j < |s.value.peers| ==> t.value.peers[j] == s.value.peers[j])
  {
    hide Reached, RefusesNothing;
    if k == 0 {
      more := [];
      assert moves + more == moves;
    } else {
      var first := FirstCatchUp(cfg, o, cushion, size, moves, k - 1, target);
      var last := CanCatchUp(cfg, o, cushion, size, moves + first, k - 1, target);
      more := first + last;
      assert moves + more == (moves + first) + last;
    }
  }

  // From every reachable state, with nothing further published, the run can be continued
  // until every node is at the target, unless one refuses something that the target settles;
  // then each holds the target's reference state.
  lemma NetworkCanSettle(cfg: Config, o: Origin, cushion: nat, size: nat, moves: seq<Move>, target: int)
      returns (more: seq<Move>)
    requires Cushioned(cfg, cushion)
    requires var s := Reached(cfg, o, cushion, size, moves);
             && s.Some? && s.value.horizon <= target
             && (forall j :: 0 <= j < |s.value.peers| ==>
                 RefusesNothing(cfg, s.value.sent, s.value.peers[j].node, target))
    ensures var s, t := Reached(cfg, o, cushion, size, moves), Reached(cfg, o, cushion, size, moves + more);
            && t.Some? && t.value.sent == s.value.sent && |t.value.peers| == |s.value.peers|
            && (forall j :: 0 <= j < |t.value.peers| ==>
                  && t.value.peers[j].node.epoch == target
                  && t.value.peers[j].node.State() == Ref(cfg, o, s.value.sent, target))
  {
    hide Reached, Ref, RefusesNothing;
    var s := Reached(cfg, o, cushion, size, moves).value;
    RunsStayConsistent(cfg, o, cushion, size, moves);
    more := FirstCatchUp(cfg, o, cushion, size, moves, |s.peers|, target);
    var t := Reached(cfg, o, cushion, size, moves + more).value;
    forall j | 0 <= j < |t.peers| ensures t.peers[j].node.State() == Ref(cfg, o, s.sent, target) {
      NodesAgree(cfg, o, cushion, size, moves + more, j, j);
    }
  }

  // ---- what a restart can lose ----

  lemma StepKeepsFounders(cfg: Config, c: Committed, due: seq<Tx>, obs: seq<Obs>, epoch: int)
    ensures Step(cfg, c, due, obs, epoch).ledger.founders == DrainAll(cfg, c.ledger, due, epoch).ledger.founders
  {
    hide DrainAll, TrustStep, Registry, Emission.EmitRounds;
    var d := DrainAll(cfg, c.ledger, due, epoch);
    var l := SealRegistry(cfg, Emission.Emit(cfg, d.ledger, epoch), TrustStep(cfg, c.trust, d.applied, obs, epoch),
                          epoch);
    Emission.EmitKeeps(cfg, d.ledger, epoch);
    if PaysNow(cfg, l, obs, epoch) {
      var latest := LatestHeartbeats(cfg, obs, epoch);
      var payees := Payees(cfg, latest);
      CreditPayeesMoves(cfg, l.Debit(cfg.Settler(), POOL), payees, Amounts(cfg, l, latest, payees, epoch), epoch);
    }
  }

  // A founder's appointment that is due alone, or one by the appointed founder: it is applied.
  lemma OneDueAppointment(cfg: Config, n: Node, t: Tx)
    requires n.txPool == [t] && IsDue(t, n.epoch + 1) && t.kind.FounderDelegate? && t.amount == 0 && IsZir(t.to)
    requires t.from in n.ledger.founders && t.nonce == n.ledger.Nonce(t.from)
    ensures var m := Process(cfg, n, n.epoch + 1);
            && m.txPool == [] && t.to in m.ledger.founders && t.from in m.ledger.founders
            && m.ledger.Nonce(t.from) == t.nonce + 1
            && (forall a :: a != t.from ==> m.ledger.Nonce(a) == n.ledger.Nonce(a))
  {
    hide Step, KeysStep;
    var e := n.epoch + 1;
    assert [t][..0] == [];
    assert Filter((u: Tx) => IsDue(u, e), [t]) == [t];
    assert Due(n.txPool, e) == [t];
    assert DrainAll(cfg, n.ledger, [], e) == Drained(n.ledger, [], []);
    var d := DrainAll(cfg, n.ledger, [t], e);
    assert d.kept == [] && d.ledger == n.ledger.(founders := n.ledger.founders + {t.to}).Spend(t.from);
    StepAfterDrain(cfg, n.State(), [t], n.obsPool, e);
    StepKeepsFounders(cfg, n.State(), [t], n.obsPool, e);
    assert StillPooled([t], [], e) == [];
  }

  lemma {:induction false} OthersKeepNonce(cfg: Config, n: Node, target: int, a: Address)
    requires forall t :: t in n.txPool ==> t.from != a
    ensures var m := ProcessThrough(cfg, n, target);
            m.ledger.Nonce(a) == n.ledger.Nonce(a) && forall t :: t in m.txPool ==> t.from != a
    decreases target - n.epoch
  {
    hide Step, KeysStep, DrainAll;
    if target > n.epoch {
      var m := ProcessThrough(cfg, n, target - 1);
      OthersKeepNonce(cfg, n, target - 1, a);
      GapStays(cfg, m.ledger, Due(m.txPool, target), target, a);
      StepAfterDrain(cfg, m.State(), Due(m.txPool, target), m.obsPool, target);
    }
  }

  // A founder appoints another, and that one signs an appointment of its own, both after the
  // snapshot. The peer takes both; after a restart the replay refuses the second, because
  // the snapshot does not know the new founder yet, and at the same epoch the ledgers part.
  lemma RestartLosesAnAppointment(cfg: Config, o: Origin, base: Saved, cushion: nat, d: Tx, t: Tx)
    requires d.kind.FounderDelegate? && WellFormed(cfg, d) && d.from in base.state.ledger.founders
    requires t.kind.FounderDelegate? && WellFormed(cfg, t) && t.from == d.to && t.from !in base.state.ledger.founders
    requires d.id != t.id
    requires d.nonce == base.state.ledger.Nonce(d.from) && t.nonce == base.state.ledger.Nonce(t.from)
    requires d.Epoch() == base.epoch + 1 - SETTLE_ROUNDS && t.Epoch() == base.epoch + 2 - SETTLE_ROUNDS
    ensures var p := Deliver(cfg, Peer(Loaded(base), Some(base), [], {}), TxEvent(d));
            var n := Advance(cfg, p.node, base.epoch + 1);
            PoolsDistinct(n) && (
              var q := Deliver(cfg, p.(node := n), TxEvent(t));
              var r := Restart(cfg, o, q, cushion);
              && q.log == [TxEvent(d), TxEvent(t)]
              && Advance(cfg, q.node, base.epoch + 2).ledger.Nonce(t.from) == t.nonce + 1
              && Advance(cfg, r.node, base.epoch + 2).ledger.Nonce(t.from) == t.nonce)
  {
    hide Advance, Process, Deliver, Restart, WellFormed, EpochOf, Distinct;
    var start := Peer(Loaded(base), Some(base), [], {});
    var p := Deliver(cfg, start, TxEvent(d));
    TakesAppointment(cfg, start, d);
    var n := Advance(cfg, p.node, base.epoch + 1);
    OneEpoch(cfg, p.node);
    OneDueAppointment(cfg, p.node, d);
    ProcessMovesClock(cfg, p.node, base.epoch + 1);
    ProcessKeepsDistinct(cfg, p.node, base.epoch + 1);
    var q := Deliver(cfg, p.(node := n), TxEvent(t));
    CacheKeysDiffer(d, t, SomeObs(), SomeObs());
    TakesAppointment(cfg, p.(node := n), t);
    OneEpoch(cfg, q.node);
    OneDueAppointment(cfg, q.node, t);
    ReplayRefuses(cfg, o, base, q, cushion, d, t);
    var r := Restart(cfg, o, q, cushion);
    AdvanceRefinesSimpleClock(cfg, r.node, base.epoch + 2);
    OthersKeepNonce(cfg, r.node, base.epoch + 2, t.from);
  }

  function SomeObs(): Obs { Obs("", "", "", "", 0, None, 0.0, [], map[]) }

  lemma TakesAppointment(cfg: Config, p: Peer, t: Tx)
    requires PoolsDistinct(p.node) && p.node.txPool == [] && p.node.floor < 0 && TxCacheKey(t) !in p.node.known
    requires t.kind.FounderDelegate? && WellFormed(cfg, t) && t.from in p.node.ledger.founders && |p.node.known| < 2
    ensures var q := Deliver(cfg, p, TxEvent(t));
            && q.node == p.node.(txPool := [t], known := p.node.known + [TxCacheKey(t)])
            && q.log == p.log + [TxEvent(t)] && q.saved == p.saved && PoolsDistinct(q.node)
    ensures t.amount == 0 && IsZir(t.to)
  { }

  lemma OneEpoch(cfg: Config, n: Node)
    ensures Advance(cfg, n, n.epoch + 1) == Process(cfg, n, n.epoch + 1)
  {
    hide Advance, Process;
    AdvanceRefinesSimpleClock(cfg, n, n.epoch + 1);
    assert ProcessThrough(cfg, n, n.epoch) == n;
  }

  lemma ReplayRefuses(cfg: Config, o: Origin, base: Saved, q: Peer, cushion: nat, d: Tx, t: Tx)
    requires d.kind.FounderDelegate? && WellFormed(cfg, d) && d.from in base.state.ledger.founders
    requires t.kind.FounderDelegate? && t.from !in base.state.ledger.founders
    requires q.saved == Some(base) && q.log == [TxEvent(d), TxEvent(t)]
    requires d.Epoch() >= base.epoch - SETTLE_ROUNDS && t.Epoch() >= base.epoch - SETTLE_ROUNDS
    ensures var r := Restart(cfg, o, q, cushion).node;
            r.ledger == base.state.ledger && r.epoch == base.epoch && r.txPool == [d]
  {
    var events := [TxEvent(d), TxEvent(t)];
    assert events[..1] == [TxEvent(d)] && events[..1][..0] == [];
    assert Filter(Recent(base.epoch, cushion), events) == events by {
      assert Filter(Recent(base.epoch, cushion), []) == [];
      assert Filter(Recent(base.epoch, cushion), events[..1]) == [TxEvent(d)];
    }
    var start := q.(node := Loaded(base), log := events);
    assert Replay(cfg, start, []) == start;
    assert Replay(cfg, start, events[..1]) == Deliver(cfg, start, TxEvent(d));
    assert Replay(cfg, start, events) == Deliver(cfg, Deliver(cfg, start, TxEvent(d)), TxEvent(t));
  }
}
