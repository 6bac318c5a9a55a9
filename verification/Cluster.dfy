// A network of nodes that gossip: messages may be lost, duplicated and reordered, nodes
// may stop at any point and come back from their snapshot and their compacted event log
// (start, persistSnapshot and compactEventLog in ZiraNode.ts). In every reachable state,
// any two nodes at the same epoch hold the same committed state.
module Cluster {
  import opened Events
  import opened Order
  import opened Heartbeats
  import opened Ledger
  import opened Laws
  import opened Drain
  import opened Trust
  import opened Tenure
  import opened Node
  import opened Clock
  import opened Convergence

  datatype Event = TxEvent(tx: Tx) | ObsEvent(obs: Obs)
  {
    function Epoch(): int { if TxEvent? then tx.Epoch() else obs.Epoch() }
    function CacheKey(): string { if TxEvent? then TxCacheKey(tx) else ObsCacheKey(obs) }
  }

  predicate In(g: Gossip, x: Event) { if x.TxEvent? then x.tx in g.txs else x.obs in g.obs }
  predicate Settled(x: Event, epoch: int) { x.Epoch() <= epoch - SETTLE_ROUNDS }
  predicate Holds(n: Node, x: Event) { if x.TxEvent? then HoldsTx(n, x.tx) else HoldsObs(n, x.obs) }

  // It passes the checks that look at the event alone.
  predicate IsValid(cfg: Config, x: Event) {
    if x.TxEvent? then WellFormed(cfg, x.tx) else cfg.verifyObs(x.obs)
  }

  // Whoever receives it accepts it: a valid event of a kind whose ingest checks read no state.
  predicate Acceptable(cfg: Config, x: Event) {
    if x.TxEvent? then WellFormed(cfg, x.tx) && !StateChecked(x.tx) else cfg.verifyObs(x.obs)
  }

  // ---- receiving ----

  function Receive(cfg: Config, n: Node, x: Event): (r: Node)
    requires PoolsDistinct(n)
    ensures PoolsDistinct(r)
  {
    if x.TxEvent? then IngestTx(cfg, n, x.tx) else IngestObs(cfg, n, x.obs)
  }

  // isNew: the event is pooled now.
  predicate IsNew(cfg: Config, n: Node, x: Event) {
    && x.CacheKey() !in n.known
    && (if x.TxEvent? then AcceptsTx(cfg, n, x.tx) else cfg.verifyObs(x.obs) && !Aged(x.obs, n.epoch))
    && !UnderFloor(n, x.Epoch())
  }

  lemma ReceiveKeeps(cfg: Config, g: Gossip, n: Node, x: Event)
    requires Proper(cfg, g) && Within(g, n) && CacheIsHonest(g, n) && In(g, x)
    ensures var r := Receive(cfg, n, x);
            && Within(g, r) && CacheIsHonest(g, r)
            && r.State() == n.State() && r.epoch == n.epoch && r.floor == n.floor
            && (Acceptable(cfg, x) ==> Holds(r, x) || UnderFloor(n, x.Epoch()))
  {
    if x.TxEvent? {
      IngestTxKeepsCache(cfg, g, n, x.tx);
      if Acceptable(cfg, x) { IngestTxTakes(cfg, g, n, x.tx); }
    } else {
      IngestObsKeepsCache(cfg, g, n, x.obs);
      if Acceptable(cfg, x) { IngestObsTakes(cfg, g, n, x.obs); }
    }
  }

  lemma ReceiveHolds(cfg: Config, g: Gossip, n: Node, x: Event, y: Event)
    requires Proper(cfg, g) && Within(g, n) && In(g, x) && In(g, y) && Holds(n, y)
    ensures Holds(Receive(cfg, n, x), y)
  {
    if x.TxEvent? && y.TxEvent? { IngestTxHolds(cfg, g, n, x.tx, y.tx); }
    if x.ObsEvent? && y.ObsEvent? { IngestObsHolds(cfg, g, n, x.obs, y.obs); }
  }

  lemma SameCacheKey(cfg: Config, g: Gossip, x: Event, y: Event)
    requires Proper(cfg, g) && In(g, x) && In(g, y) && x.CacheKey() == y.CacheKey()
    ensures x == y
  {
    CacheKeyParts(x);
    CacheKeyParts(y);
    if x.TxEvent? && y.TxEvent? { SameId(TxKey(), g.txs, x.tx, y.tx); }
    if x.ObsEvent? && y.ObsEvent? { SameId(ObsKey(), g.obs, x.obs, y.obs); }
  }

  lemma CacheKeyParts(x: Event)
    ensures |x.CacheKey()| >= 3
    ensures x.CacheKey()[0] == 't' <==> x.TxEvent?
    ensures x.CacheKey()[3..] == if x.TxEvent? then x.tx.id else x.obs.id
  { }

  // ---- one peer: a node, its disk, and what has reached it ----

  datatype Saved = Saved(state: Committed, keys: Keys, epoch: int)
  datatype Peer = Peer(node: Node, saved: Option<Saved>, log: seq<Event>, got: set<Event>)

  // Where a restart would begin: the snapshot, or genesis.
  function Base(o: Origin, p: Peer): Saved {
    if p.saved.Some? then p.saved.value else Saved(o.state, map[], o.epoch)
  }

  // The log entries a compaction at this epoch keeps.
  function Recent(epoch: int, cushion: nat): Event -> bool {
    (x: Event) => x.Epoch() >= epoch - SETTLE_ROUNDS - cushion
  }

  function Deliver(cfg: Config, p: Peer, x: Event): Peer
    requires PoolsDistinct(p.node)
  {
    p.(node := Receive(cfg, p.node, x), log := if IsNew(cfg, p.node, x) then p.log + [x] else p.log, got := p.got + {x})
  }

  // persistSnapshot; the log is rewritten only when it has grown large.
  function Save(p: Peer, cushion: nat, large: bool): Peer {
    p.(saved := Some(Saved(p.node.State(), p.node.keys, p.node.epoch)),
       log := if large then Filter(Recent(p.node.epoch, cushion), p.log) else p.log)
  }

  // loadSnapshot also asserts the genesis masters' trust again; LoadingSeedsNothing shows
  // that this changes nothing here.
  function Loaded(s: Saved): (n: Node)
    ensures PoolsDistinct(n)
  {
    Node(s.state.ledger, s.state.trust, s.keys, [], [], [], s.epoch, -1)
  }

  // Re-ingest a log; entries that are new to the fresh node are appended to the file again.
  function Replay(cfg: Config, p: Peer, events: seq<Event>): (r: Peer)
    requires PoolsDistinct(p.node)
    ensures PoolsDistinct(r.node)
  {
    if events == [] then p
    else
      var q := Replay(cfg, p, events[..|events| - 1]);
      Deliver(cfg, q, events[|events| - 1])
  }

  // start: load the snapshot, compact on top of it, replay what is left. Everything in memory is lost.
  function Restart(cfg: Config, o: Origin, p: Peer, cushion: nat): Peer {
    var base := Base(o, p);
    var log := if p.saved.Some? then Filter(Recent(base.epoch, cushion), p.log) else p.log;
    Replay(cfg, p.(node := Loaded(base), log := log), log)
  }

  // ---- what a peer keeps ----

  // The disk covers all that reached the peer and that a replay is sure to accept.
  ghost predicate DiskCovers(cfg: Config, p: Peer, base: Saved) {
    && (forall x :: x in p.log ==> x in p.got)
    && (forall x :: x in p.got && Acceptable(cfg, x) ==> x in p.log || Holds(Loaded(base), x))
  }

  // The dedup cache remembers only what was received.
  ghost predicate KnownFrom(n: Node, s: set<Event>) {
    forall k :: k in n.known ==> exists x :: x in s && x.CacheKey() == k
  }

  lemma KnownWasGot(cfg: Config, g: Gossip, n: Node, s: set<Event>, x: Event)
    requires Proper(cfg, g) && KnownFrom(n, s) && (forall y :: y in s ==> In(g, y))
    requires In(g, x) && x.CacheKey() in n.known
    ensures x in s
  {
    var y :| y in s && y.CacheKey() == x.CacheKey();
    SameCacheKey(cfg, g, x, y);
  }

  // The peer's node and its snapshot are points of the reference run; it holds what reached
  // it and is of the state-independent kinds; its dedup cache hides nothing it needs.
  ghost predicate Sound(cfg: Config, o: Origin, g: Gossip, p: Peer) {
    var n, base := p.node, Base(o, p);
    && n.floor < 0 && Agrees(cfg, o, g, n) && CacheIsHonest(g, n)
    && (forall x :: x in p.got ==> In(g, x) && (Acceptable(cfg, x) ==> Holds(n, x)))
    && KnownFrom(n, p.got)
    && (forall x :: In(g, x) && Acceptable(cfg, x) && Settled(x, n.epoch) ==> x in p.got)
    && o.epoch <= base.epoch <= n.epoch && base.state == Ref(cfg, o, g, base.epoch)
    && DiskCovers(cfg, p, base)
  }

  lemma {:induction false} ReferenceIsEarned(cfg: Config, o: Origin, g: Gossip, epoch: int)
    requires Earned(cfg, o.state.trust, o.epoch) && 0 <= o.epoch <= epoch
    ensures Earned(cfg, Ref(cfg, o, g, epoch).trust, epoch)
    decreases epoch
  {
    hide Earned, TrustStep, DrainAll, SealRegistry, Outstanding;
    if epoch > o.epoch {
      var c := Ref(cfg, o, g, epoch - 1);
      ReferenceIsEarned(cfg, o, g, epoch - 1);
      EpochKeepsEarned(cfg, c.trust, DrainAll(cfg, c.ledger, Outstanding(c.ledger, g.txs, epoch), epoch).applied, g.obs,
                       epoch);
    }
  }

  // On a network that started with trust in its genesis masters, a peer's snapshot has it.
  lemma LoadingSeedsNothing(cfg: Config, o: Origin, g: Gossip, p: Peer)
    requires Sound(cfg, o, g, p) && Earned(cfg, o.state.trust, o.epoch) && o.epoch >= 0
    ensures SeedMasters(Base(o, p).state.trust, cfg.masters) == Base(o, p).state.trust
  {
    hide Earned, SeedMasters;
    var base := Base(o, p);
    ReferenceIsEarned(cfg, o, g, base.epoch);
    SeedingIsIdempotent(cfg, base.state.trust, base.epoch, cfg.masters);
  }

  // A first delivery is accepted and logged; a repeated one changes nothing that matters.
  lemma DeliverKeepsSound(cfg: Config, o: Origin, g: Gossip, p: Peer, x: Event)
    requires Proper(cfg, g) && Sound(cfg, o, g, p) && In(g, x)
    ensures Sound(cfg, o, g, Deliver(cfg, p, x))
  {
    hide Ref;
    var q := Deliver(cfg, p, x);
    ReceiveKeeps(cfg, g, p.node, x);
    forall y | y in q.got ensures In(g, y) && (Acceptable(cfg, y) ==> Holds(q.node, y)) {
      if y in p.got && Acceptable(cfg, y) { ReceiveHolds(cfg, g, p.node, x, y); }
    }
    forall k | k in q.node.known ensures exists y :: y in q.got && y.CacheKey() == k {
      KnownGrows(cfg, p.node, x, k);
      if k in p.node.known {
        var y :| y in p.got && y.CacheKey() == k;
        assert y in q.got;
      } else {
        assert x in q.got;
      }
    }
    if x !in p.got && Acceptable(cfg, x) {
      if x.CacheKey() in p.node.known { KnownWasGot(cfg, g, p.node, p.got, x); }
      assert !Settled(x, p.node.epoch);
      assert IsNew(cfg, p.node, x);
    }
  }

  lemma KnownGrows(cfg: Config, n: Node, x: Event, key: string)
    requires PoolsDistinct(n) && key in Receive(cfg, n, x).known
    ensures key in n.known || key == x.CacheKey()
  {
    if key !in n.known { RememberAdds(n.known, x.CacheKey(), key); }
  }

  // ---- the clock ----

  lemma ThroughHolds(cfg: Config, n: Node, target: int, x: Event)
    requires Holds(n, x)
    ensures Holds(ProcessThrough(cfg, n, target), x)
    decreases target - n.epoch
  {
    hide Process;
    if target > n.epoch {
      ThroughHolds(cfg, n, target - 1, x);
      ProcessThroughEpoch(cfg, n, target - 1);
      var m := ProcessThrough(cfg, n, target - 1);
      if x.TxEvent? { HoldsAfterProcess(cfg, m, target, x.tx); } else { HoldsObsAfterProcess(cfg, m, target, x.obs); }
    }
  }

  // Everything sent that the target epoch settles has reached the peer; and where a kind's
  // ingest check reads the state, the peer has accepted it or has no use for it any more.
  ghost predicate Timely(cfg: Config, g: Gossip, p: Peer, target: int) {
    forall x :: In(g, x) && Settled(x, target) ==> if Acceptable(cfg, x) then x in p.got else Holds(p.node, x)
  }

  lemma TimelyInforms(cfg: Config, o: Origin, g: Gossip, p: Peer, target: int)
    requires Sound(cfg, o, g, p) && Timely(cfg, g, p, target)
    ensures Informed(g, p.node, target)
  {
    forall t | t in g.txs && IsDue(t, target) ensures HoldsTx(p.node, t) {
      assert In(g, TxEvent(t)) && Settled(TxEvent(t), target);
      assert Holds(p.node, TxEvent(t));
    }
    forall x | x in g.obs && x.Epoch() <= target - SETTLE_ROUNDS ensures HoldsObs(p.node, x) {
      assert In(g, ObsEvent(x)) && Settled(ObsEvent(x), target);
      assert Holds(p.node, ObsEvent(x));
    }
  }

  lemma TickKeepsSound(cfg: Config, o: Origin, g: Gossip, p: Peer, target: int)
    requires Proper(cfg, g) && Sound(cfg, o, g, p) && Timely(cfg, g, p, target)
    ensures Sound(cfg, o, g, p.(node := Advance(cfg, p.node, target)))
  {
    hide Advance, ProcessThrough, Ref;
    var n := p.node;
    AdvanceRefinesSimpleClock(cfg, n, target);
    ProcessThroughEpoch(cfg, n, target);
    TimelyInforms(cfg, o, g, p, target);
    ThroughAgrees(cfg, o, g, n, target);
    ThroughKeepsCache(cfg, g, n, target);
    forall x | x in p.got && Acceptable(cfg, x) ensures Holds(Advance(cfg, n, target), x) {
      ThroughHolds(cfg, n, target, x);
    }
  }

  // ---- snapshots ----

  // At a point of the reference run, whatever is due and not consumed is within its time-to-live.
  ghost predicate NoneForgotten(cfg: Config, g: Gossip, l: Ledger, epoch: int) {
    forall t :: t in g.txs && IsDue(t, epoch) && !Stale(l, t) ==> !Expired(cfg, t, epoch)
  }

  // Nothing gossiped is older than the network.
  ghost predicate After(g: Gossip, epoch: int) { forall x :: In(g, x) ==> !Settled(x, epoch) }

  lemma ReferenceForgetsNothing(cfg: Config, o: Origin, g: Gossip, epoch: int)
    requires After(g, o.epoch) && o.epoch <= epoch
    ensures NoneForgotten(cfg, g, Ref(cfg, o, g, epoch).ledger, epoch)
  {
    if epoch == o.epoch {
      forall t | t in g.txs ensures !IsDue(t, epoch) { assert In(g, TxEvent(t)); }
    } else {
      var c := Ref(cfg, o, g, epoch - 1);
      var due := Outstanding(c.ledger, g.txs, epoch);
      var d := DrainAll(cfg, c.ledger, due, epoch);
      var l := Ref(cfg, o, g, epoch).ledger;
      DrainNeverWedges(cfg, c.ledger, due, epoch);
      StepAfterDrain(cfg, c, due, g.obs, epoch);
      forall t | t in g.txs && IsDue(t, epoch) && !Stale(l, t) ensures !Expired(cfg, t, epoch) {
        assert c.ledger.Nonce(t.from) <= d.ledger.Nonce(t.from) == l.Nonce(t.from);
        assert t in due;
      }
    }
  }

  lemma {:induction false} ReferenceNoncesGrow(cfg: Config, o: Origin, g: Gossip, epoch: int, later: int)
    requires o.epoch <= epoch <= later
    ensures NoncesGrow(Ref(cfg, o, g, epoch).ledger, Ref(cfg, o, g, later).ledger)
    decreases later - epoch
  {
    hide Step, Outstanding;
    if epoch < later {
      var c := Ref(cfg, o, g, later - 1);
      var due := Outstanding(c.ledger, g.txs, later);
      ReferenceNoncesGrow(cfg, o, g, epoch, later - 1);
      StepNoncesGrow(cfg, c, due, g.obs, later);
      NoncesGrowTransitively(Ref(cfg, o, g, epoch).ledger, c.ledger, Step(cfg, c, due, g.obs, later).ledger);
    }
  }

  lemma StepNoncesGrow(cfg: Config, c: Committed, due: seq<Tx>, obs: seq<Obs>, epoch: int)
    ensures NoncesGrow(c.ledger, Step(cfg, c, due, obs, epoch).ledger)
  {
    hide Step, DrainAll;
    var d := DrainAll(cfg, c.ledger, due, epoch);
    DrainNeverWedges(cfg, c.ledger, due, epoch);
    StepAfterDrain(cfg, c, due, obs, epoch);
    forall a ensures c.ledger.Nonce(a) <= Step(cfg, c, due, obs, epoch).ledger.Nonce(a) {
      assert c.ledger.Nonce(a) <= d.ledger.Nonce(a);
    }
  }

  // The cushion of the log covers the nonce-gap time-to-live and the heartbeat window.
  predicate Cushioned(cfg: Config, cushion: nat) {
    cushion + SETTLE_ROUNDS >= cfg.gapTtl && cushion + SETTLE_ROUNDS >= OBS_LAG + WINDOW_ROUNDS
  }

  // A compaction drops nothing that its snapshot has not accounted for.
  lemma CompactionIsSafe(cfg: Config, o: Origin, g: Gossip, base: Saved, cushion: nat, x: Event)
    requires Cushioned(cfg, cushion) && After(g, o.epoch) && In(g, x)
    requires o.epoch <= base.epoch && base.state == Ref(cfg, o, g, base.epoch)
    requires !Recent(base.epoch, cushion)(x)
    ensures Holds(Loaded(base), x)
  {
    ReferenceForgetsNothing(cfg, o, g, base.epoch);
  }

  lemma SaveKeepsSound(cfg: Config, o: Origin, g: Gossip, p: Peer, cushion: nat, large: bool)
    requires Proper(cfg, g) && Sound(cfg, o, g, p) && After(g, o.epoch) && Cushioned(cfg, cushion)
    ensures Sound(cfg, o, g, Save(p, cushion, large))
  {
    var q := Save(p, cushion, large);
    var base, next := Base(o, p), Base(o, q);
    forall x | x in p.got && Acceptable(cfg, x) ensures x in q.log || Holds(Loaded(next), x) {
      if x in p.log {
        if !Recent(next.epoch, cushion)(x) { CompactionIsSafe(cfg, o, g, next, cushion, x); }
      } else {
        StillHeld(cfg, o, g, base, next, x);
      }
    }
  }

  // What an earlier snapshot accounts for, a later one does too.
  lemma StillHeld(cfg: Config, o: Origin, g: Gossip, base: Saved, next: Saved, x: Event)
    requires o.epoch <= base.epoch <= next.epoch
    requires base.state == Ref(cfg, o, g, base.epoch) && next.state == Ref(cfg, o, g, next.epoch)
    requires Holds(Loaded(base), x)
    ensures Holds(Loaded(next), x)
  {
    ReferenceNoncesGrow(cfg, o, g, base.epoch, next.epoch);
    if x.TxEvent? { assert base.state.ledger.Nonce(x.tx.from) <= next.state.ledger.Nonce(x.tx.from); }
  }

  // ---- restart ----

  // Replaying a log onto a loaded snapshot: the state stays the snapshot's, and everything
  // in the log of the state-independent kinds is held again.
  ghost predicate Replayed(cfg: Config, g: Gossip, p: Peer, q: Peer, events: seq<Event>) {
    && q.node.State() == p.node.State() && q.node.epoch == p.node.epoch && q.node.floor == p.node.floor
    && q.saved == p.saved && q.got == p.got
    && Within(g, q.node) && CacheIsHonest(g, q.node)
    && (forall x :: (x in events && Acceptable(cfg, x)) || (In(g, x) && Holds(p.node, x)) ==> Holds(q.node, x))
    && KnownFrom(q.node, set x | x in events)
    && (forall x :: x in q.log ==> x in p.log || x in events)
    && (forall x :: x in p.log ==> x in q.log)
  }

  lemma {:induction false} ReplayHolds(cfg: Config, g: Gossip, p: Peer, events: seq<Event>)
    requires Proper(cfg, g) && PoolsDistinct(p.node) && p.node.floor < 0
    requires p.node.txPool == [] && p.node.obsPool == [] && p.node.known == []
    requires forall x :: x in events ==> In(g, x) && x in p.got
    ensures Replayed(cfg, g, p, Replay(cfg, p, events), events)
  {
    if events != [] {
      var n := |events| - 1;
      var x := events[n];
      var q, r := Replay(cfg, p, events[..n]), Replay(cfg, p, events);
      ReplayHolds(cfg, g, p, events[..n]);
      assert forall y :: y in events <==> y in events[..n] || y == x;
      ReceiveKeeps(cfg, g, q.node, x);
      forall y | (y in events && Acceptable(cfg, y)) || (In(g, y) && Holds(p.node, y)) ensures Holds(r.node, y) {
        if y != x || Holds(q.node, y) { ReceiveHolds(cfg, g, q.node, x, y); }
      }
      forall k | k in r.node.known ensures exists y :: y in events && y.CacheKey() == k {
        KnownGrows(cfg, q.node, x, k);
        if k in q.node.known { var y :| y in events[..n] && y.CacheKey() == k; assert y in events; }
      }
      assert r.got == q.got;
    }
  }

  // A peer that comes back from its disk is as good as one that never stopped.
  lemma RestartKeepsSound(cfg: Config, o: Origin, g: Gossip, p: Peer, cushion: nat)
    requires Proper(cfg, g) && Sound(cfg, o, g, p) && After(g, o.epoch) && Cushioned(cfg, cushion)
    ensures Sound(cfg, o, g, Restart(cfg, o, p, cushion))
  {
    hide Ref, Replay;
    var base := Base(o, p);
    var log := if p.saved.Some? then Filter(Recent(base.epoch, cushion), p.log) else p.log;
    var q := p.(node := Loaded(base), log := log);
    var r := Restart(cfg, o, p, cushion);
    ReplayHolds(cfg, g, q, log);
    forall x | x in p.got && Acceptable(cfg, x) ensures x in log || Holds(q.node, x) {
      if x in p.log && x !in log { CompactionIsSafe(cfg, o, g, base, cushion, x); }
    }
  }

  // Of the other kinds, a replayed transaction is pooled again exactly if the snapshot it is
  // replayed on admits it. A grant by a founder who was appointed after the snapshot is
  // not, and is lost unless it is gossiped once more.
  lemma ReplayTakesIff(cfg: Config, base: Saved, t: Tx)
    ensures HoldsTx(IngestTx(cfg, Loaded(base), t), t)
       <==> Stale(base.state.ledger, t) || (WellFormed(cfg, t) && Admits(cfg, base.state.ledger, base.epoch, t))
    ensures !Admits(cfg, base.state.ledger, base.epoch, t) ==> IngestTx(cfg, Loaded(base), t) == Loaded(base)
  { }

  // ---- the network ----

  // horizon: the latest epoch any node has ever reached.
  datatype Net = Net(peers: seq<Peer>, sent: Gossip, horizon: int)

  datatype Move =
    | Publish(x: Event)
    | DeliverTo(i: nat, x: Event)
    | TickAt(i: nat, target: int)
    | SaveAt(i: nat, large: bool)
    | RestartAt(i: nat)

  function Add(g: Gossip, x: Event): Gossip {
    if x.TxEvent? then g.(txs := g.txs + [x.tx]) else g.(obs := g.obs + [x.obs])
  }

  // What the network guarantees: a valid event, of whatever kind, is published before any
  // node has settled its epoch, and a node settles an epoch only after the events of that
  // epoch have reached it and, where a kind's ingest check reads the state, been accepted.
  // Deliveries happen in any order, any number of times, or never.
  ghost predicate Allowed(cfg: Config, o: Origin, s: Net, m: Move) {
    match m
    case Publish(x) =>
      IsValid(cfg, x) && Proper(cfg, Add(s.sent, x)) && !Settled(x, s.horizon)
    case DeliverTo(i, x) => i < |s.peers| && In(s.sent, x)
    case TickAt(i, target) => i < |s.peers| && Timely(cfg, s.sent, s.peers[i], target)
    case SaveAt(i, large) => i < |s.peers|
    case RestartAt(i) => i < |s.peers|
  }

  ghost predicate Consistent(cfg: Config, o: Origin, s: Net) {
    && Proper(cfg, s.sent) && After(s.sent, o.epoch)
    && (forall x :: In(s.sent, x) ==> IsValid(cfg, x))
    && o.epoch <= s.horizon
    && (forall i :: 0 <= i < |s.peers| ==> Sound(cfg, o, s.sent, s.peers[i]) && s.peers[i].node.epoch <= s.horizon)
  }

  ghost predicate PoolsAreMaps(s: Net) {
    forall i :: 0 <= i < |s.peers| ==> PoolsDistinct(s.peers[i].node)
  }

  // What a move does to the peer it concerns.
  ghost function PeerAfter(cfg: Config, o: Origin, cushion: nat, p: Peer, m: Move): (r: Peer)
    requires PoolsDistinct(p.node)
    ensures PoolsDistinct(r.node)
  {
    match m
    case Publish(x) => p
    case DeliverTo(i, x) => Deliver(cfg, p, x)
    case TickAt(i, target) =>
      TakeKeepsDistinct(cfg, p.node, Tick(target));
      p.(node := Advance(cfg, p.node, target))
    case SaveAt(i, large) => Save(p, cushion, large)
    case RestartAt(i) => Restart(cfg, o, p, cushion)
  }

  ghost function Moved(cfg: Config, o: Origin, cushion: nat, s: Net, m: Move): (r: Net)
    requires PoolsAreMaps(s) && Allowed(cfg, o, s, m)
    ensures PoolsAreMaps(r)
  {
    if m.Publish? then s.(sent := Add(s.sent, m.x))
    else
      var p := PeerAfter(cfg, o, cushion, s.peers[m.i], m);
      s.(peers := s.peers[m.i := p], horizon := if p.node.epoch > s.horizon then p.node.epoch else s.horizon)
  }

  lemma OutstandingIgnoresFuture(l: Ledger, txs: seq<Tx>, t: Tx, epoch: int)
    requires !IsDue(t, epoch)
    ensures Outstanding(l, txs + [t], epoch) == Outstanding(l, txs, epoch)
  {
    FilterSkipsLast((x: Tx) => Unconsumed(l, x, epoch), txs, t);
  }

  lemma StepIgnoresFuture(cfg: Config, c: Committed, due: seq<Tx>, obs: seq<Obs>, x: Obs, epoch: int)
    requires x.Epoch() > epoch - SETTLE_ROUNDS
    ensures Step(cfg, c, due, obs + [x], epoch) == Step(cfg, c, due, obs, epoch)
  {
    hide Step;
    assert (obs + [x])[..|obs|] == obs;
    FilterSkipsLast((p: Obs) => InWindow(p, epoch), obs, x);
    assert Window(obs + [x], epoch) == Window(obs, epoch);
    assert LatestHeartbeats(cfg, obs + [x], epoch) == LatestHeartbeats(cfg, obs, epoch);
    StepReadsWindows(cfg, c, due, obs + [x], obs, epoch);
  }

  // An event that no epoch so far settles has not mattered so far.
  lemma {:induction false} ReferenceIgnoresFuture(cfg: Config, o: Origin, g: Gossip, x: Event, epoch: int)
    requires !Settled(x, epoch)
    ensures Ref(cfg, o, Add(g, x), epoch) == Ref(cfg, o, g, epoch)
    decreases epoch - o.epoch
  {
    hide Step, Outstanding;
    if epoch > o.epoch {
      ReferenceIgnoresFuture(cfg, o, g, x, epoch - 1);
      var c := Ref(cfg, o, g, epoch - 1);
      if x.TxEvent? {
        OutstandingIgnoresFuture(c.ledger, g.txs, x.tx, epoch);
      } else {
        StepIgnoresFuture(cfg, c, Outstanding(c.ledger, g.txs, epoch), g.obs, x.obs, epoch);
      }
    }
  }

  lemma StepReadsWindows(cfg: Config, c: Committed, due: seq<Tx>, obs: seq<Obs>, other: seq<Obs>, epoch: int)
    requires Window(obs, epoch) == Window(other, epoch)
    requires LatestHeartbeats(cfg, obs, epoch) == LatestHeartbeats(cfg, other, epoch)
    ensures Step(cfg, c, due, obs, epoch) == Step(cfg, c, due, other, epoch)
  { }

  lemma PublishKeepsCache(cfg: Config, g: Gossip, p: Peer, x: Event)
    requires Proper(cfg, Add(g, x)) && CacheIsHonest(g, p.node) && KnownFrom(p.node, p.got)
    requires forall y :: y in p.got ==> In(g, y)
    ensures CacheIsHonest(Add(g, x), p.node)
  {
    hide Proper;
    var n, more := p.node, Add(g, x);
    AddGrows(g, x);
    forall t | t in more.txs && TxCacheKey(t) in n.known ensures HoldsTx(n, t) || UnderFloor(n, t.Epoch()) {
      assert In(more, TxEvent(t));
      KnownWasGot(cfg, more, n, p.got, TxEvent(t));
      assert In(g, TxEvent(t));
    }
    forall y | y in more.obs && ObsCacheKey(y) in n.known ensures HoldsObs(n, y) || UnderFloor(n, y.Epoch()) {
      assert In(more, ObsEvent(y));
      KnownWasGot(cfg, more, n, p.got, ObsEvent(y));
      assert In(g, ObsEvent(y));
    }
  }

  lemma PublishKeepsSound(cfg: Config, o: Origin, g: Gossip, p: Peer, x: Event)
    requires Sound(cfg, o, g, p) && Proper(cfg, Add(g, x)) && !Settled(x, p.node.epoch)
    ensures Sound(cfg, o, Add(g, x), p)
  {
    hide Ref, Proper, CacheIsHonest, KnownFrom;
    ReferenceIgnoresFuture(cfg, o, g, x, p.node.epoch);
    ReferenceIgnoresFuture(cfg, o, g, x, Base(o, p).epoch);
    AddGrows(g, x);
    PublishKeepsCache(cfg, g, p, x);
  }

  lemma AddGrows(g: Gossip, x: Event)
    ensures forall y :: In(Add(g, x), y) <==> In(g, y) || y == x
  { }

  lemma PeerStaysSound(cfg: Config, o: Origin, cushion: nat, s: Net, m: Move)
    requires Consistent(cfg, o, s) && Allowed(cfg, o, s, m) && Cushioned(cfg, cushion) && !m.Publish?
    ensures Sound(cfg, o, s.sent, PeerAfter(cfg, o, cushion, s.peers[m.i], m))
  {
    hide Sound, Deliver, Advance, Save, Restart, Ref;
    var p := s.peers[m.i];
    assert Sound(cfg, o, s.sent, p);
    match m
    case DeliverTo(i, x) => DeliverKeepsSound(cfg, o, s.sent, p, x);
    case TickAt(i, target) => TickKeepsSound(cfg, o, s.sent, p, target);
    case SaveAt(i, large) => SaveKeepsSound(cfg, o, s.sent, p, cushion, large);
    case RestartAt(i) => RestartKeepsSound(cfg, o, s.sent, p, cushion);
  }

  lemma MoveKeepsConsistent(cfg: Config, o: Origin, cushion: nat, s: Net, m: Move)
    requires PoolsAreMaps(s) && Consistent(cfg, o, s) && Allowed(cfg, o, s, m) && Cushioned(cfg, cushion)
    ensures Consistent(cfg, o, Moved(cfg, o, cushion, s, m))
  {
    hide Sound, Proper, PeerAfter;
    if m.Publish? {
      AddGrows(s.sent, m.x);
      forall i | 0 <= i < |s.peers| ensures Sound(cfg, o, Add(s.sent, m.x), s.peers[i]) {
        PublishKeepsSound(cfg, o, s.sent, s.peers[i], m.x);
      }
    } else {
      PeerStaysSound(cfg, o, cushion, s, m);
    }
  }

  // ---- every run ----

  function Fresh(o: Origin): Peer { Peer(Loaded(Saved(o.state, map[], o.epoch)), None, [], {}) }

  function Start(o: Origin, size: nat): Net { Net(seq(size, i => Fresh(o)), Gossip([], []), o.epoch) }

  lemma StartIsConsistent(cfg: Config, o: Origin, size: nat)
    ensures Consistent(cfg, o, Start(o, size))
  { }

  // The network after some moves, and whether each of them was allowed when it was made.
  ghost function Reached(cfg: Config, o: Origin, cushion: nat, size: nat, moves: seq<Move>): (r: Option<Net>)
    ensures r.Some? ==> PoolsAreMaps(r.value)
  {
    if moves == [] then Some(Start(o, size))
    else
      var before := Reached(cfg, o, cushion, size, moves[..|moves| - 1]);
      var m := moves[|moves| - 1];
      if before.None? || !Allowed(cfg, o, before.value, m) then None else Some(Moved(cfg, o, cushion, before.value, m))
  }

  lemma {:induction false} RunsStayConsistent(cfg: Config, o: Origin, cushion: nat, size: nat, moves: seq<Move>)
    requires Cushioned(cfg, cushion) && Reached(cfg, o, cushion, size, moves).Some?
    ensures Consistent(cfg, o, Reached(cfg, o, cushion, size, moves).value)
  {
    if moves == [] {
      StartIsConsistent(cfg, o, size);
    } else {
      var n := |moves| - 1;
      RunsStayConsistent(cfg, o, cushion, size, moves[..n]);
      MoveKeepsConsistent(cfg, o, cushion, Reached(cfg, o, cushion, size, moves[..n]).value, moves[n]);
    }
  }

  // In every run, at every moment, any two nodes at the same epoch hold the same ledger and
  // the same trust: those of the reference. It makes no difference in which order, how often
  // and along which path events arrived, how each clock batched or skipped its epochs, or
  // who stopped, lost its memory and came back from a compacted log.
  lemma NodesAgree(cfg: Config, o: Origin, cushion: nat, size: nat, moves: seq<Move>, i: nat, j: nat)
    requires Cushioned(cfg, cushion) && Reached(cfg, o, cushion, size, moves).Some?
    requires var s := Reached(cfg, o, cushion, size, moves).value;
             i < |s.peers| && j < |s.peers| && s.peers[i].node.epoch == s.peers[j].node.epoch
    ensures var s := Reached(cfg, o, cushion, size, moves).value;
            && s.peers[i].node.ledger == s.peers[j].node.ledger
            && s.peers[i].node.trust == s.peers[j].node.trust
            && s.peers[i].node.State() == Ref(cfg, o, s.sent, s.peers[i].node.epoch)
  {
    RunsStayConsistent(cfg, o, cushion, size, moves);
    var s := Reached(cfg, o, cushion, size, moves).value;
    assert Sound(cfg, o, s.sent, s.peers[i]) && Sound(cfg, o, s.sent, s.peers[j]);
    assert s.peers[i].node.State() == s.peers[j].node.State();
  }

  // ---- across time ----

  lemma ReferenceKept(cfg: Config, o: Origin, cushion: nat, s: Net, m: Move, epoch: int)
    requires PoolsAreMaps(s) && Allowed(cfg, o, s, m) && epoch <= s.horizon
    ensures var t := Moved(cfg, o, cushion, s, m);
            s.horizon <= t.horizon && Ref(cfg, o, t.sent, epoch) == Ref(cfg, o, s.sent, epoch)
  {
    hide Ref, PeerAfter;
    if m.Publish? { ReferenceIgnoresFuture(cfg, o, s.sent, m.x, epoch); }
  }

  // The committed state of an epoch, once some node has reached it, never changes again.
  lemma {:induction false} ReferenceIsFixed(cfg: Config, o: Origin, cushion: nat, size: nat, moves: seq<Move>, k: nat,
                                            epoch: int)
    requires k <= |moves| && Reached(cfg, o, cushion, size, moves).Some?
    requires Reached(cfg, o, cushion, size, moves[..k]).Some?
    requires epoch <= Reached(cfg, o, cushion, size, moves[..k]).value.horizon
    ensures var s, t := Reached(cfg, o, cushion, size, moves[..k]).value, Reached(cfg, o, cushion, size, moves).value;
            s.horizon <= t.horizon && Ref(cfg, o, t.sent, epoch) == Ref(cfg, o, s.sent, epoch)
  {
    hide Ref, Moved, Allowed;
    if k == |moves| {
      assert moves[..k] == moves;
    } else {
      var n := |moves| - 1;
      assert moves[..n][..k] == moves[..k];
      ReferenceIsFixed(cfg, o, cushion, size, moves[..n], k, epoch);
      ReferenceKept(cfg, o, cushion, Reached(cfg, o, cushion, size, moves[..n]).value, moves[n], epoch);
    }
  }

  // A node that was at an epoch at some moment and any node that is at that epoch later, be
  // it another or the same one come back from its disk, hold the same ledger: so whatever
  // root a master signs for an epoch, it is the one root of that epoch.
  lemma NodesAgreeAcrossTime(cfg: Config, o: Origin, cushion: nat, size: nat, moves: seq<Move>, k: nat, i: nat, j: nat)
    requires Cushioned(cfg, cushion) && k <= |moves|
    requires Reached(cfg, o, cushion, size, moves).Some? && Reached(cfg, o, cushion, size, moves[..k]).Some?
    requires var s, t := Reached(cfg, o, cushion, size, moves[..k]).value, Reached(cfg, o, cushion, size, moves).value;
             i < |s.peers| && j < |t.peers| && s.peers[i].node.epoch == t.peers[j].node.epoch
    ensures var s, t := Reached(cfg, o, cushion, size, moves[..k]).value, Reached(cfg, o, cushion, size, moves).value;
            s.peers[i].node.State() == t.peers[j].node.State()
  {
    hide Reached, Ref;
    var s, t := Reached(cfg, o, cushion, size, moves[..k]).value, Reached(cfg, o, cushion, size, moves).value;
    RunsStayConsistent(cfg, o, cushion, size, moves[..k]);
    RunsStayConsistent(cfg, o, cushion, size, moves);
    assert Sound(cfg, o, s.sent, s.peers[i]) && Sound(cfg, o, t.sent, t.peers[j]);
    ReferenceIsFixed(cfg, o, cushion, size, moves, k, s.peers[i].node.epoch);
  }

  // ---- the laws hold across the network ----

  lemma {:induction false} ReferenceIsLawful(cfg: Config, o: Origin, g: Gossip, epoch: int)
    ensures Lawful(cfg, o.state.ledger, Ref(cfg, o, g, epoch).ledger)
    decreases epoch - o.epoch
  {
    hide Lawful, Step, Outstanding, StepActs;
    if epoch <= o.epoch {
      LawfulIsReflexive(cfg, o.state.ledger);
    } else {
      var c := Ref(cfg, o, g, epoch - 1);
      var due := Outstanding(c.ledger, g.txs, epoch);
      ReferenceIsLawful(cfg, o, g, epoch - 1);
      StepIsActs(cfg, c, due, g.obs, epoch);
      EveryRunIsLawful(cfg, c.ledger, StepActs(cfg, c, due, g.obs, epoch));
      LawfulIsTransitive(cfg, o.state.ledger, c.ledger, Ref(cfg, o, g, epoch).ledger);
    }
  }

  // Whatever the network does, every node's ledger conserves the supply of genesis, has no
  // overdraft, and obeys all the other laws - restarts and replays included.
  lemma EveryPeerIsLawful(cfg: Config, o: Origin, cushion: nat, size: nat, moves: seq<Move>, i: nat)
    requires Cushioned(cfg, cushion) && Reached(cfg, o, cushion, size, moves).Some?
    requires i < |Reached(cfg, o, cushion, size, moves).value.peers|
    ensures Lawful(cfg, o.state.ledger, Reached(cfg, o, cushion, size, moves).value.peers[i].node.ledger)
  {
    hide Reached, Ref, Lawful;
    var s := Reached(cfg, o, cushion, size, moves).value;
    RunsStayConsistent(cfg, o, cushion, size, moves);
    assert Sound(cfg, o, s.sent, s.peers[i]);
    ReferenceIsLawful(cfg, o, s.sent, s.peers[i].node.epoch);
  }
}
