// One node: the committed state, the pools of gossiped events, and the epoch clock
// (ingestTx, ingestObservation, processEpoch and advance in State.ts).
module Node {
  import opened Events
  import opened Order
  import opened Seats
  import opened Ledger
  import opened Emission
  import opened Heartbeats
  import opened FieldPayout
  import opened Drain
  import opened Trust
  import opened Tenure

  // ---- what an epoch does to the committed state ----

  datatype Committed = Committed(ledger: Ledger, trust: TrustMap)

  ghost function SealRegistry(cfg: Config, l: Ledger, t: TrustMap, epoch: int): Ledger {
    if Armed(cfg.decentralization, epoch) then l.(validators := Registry(cfg, t, l.seats, epoch)) else l
  }

  // One epoch, given its due transactions in canonical order and the observations at hand.
  ghost function Step(cfg: Config, c: Committed, due: seq<Tx>, obs: seq<Obs>, epoch: int): Committed {
    var d := DrainAll(cfg, c.ledger, due, epoch);
    var t := TrustStep(cfg, c.trust, d.applied, obs, epoch);
    var sealed_ := SealRegistry(cfg, Emit(cfg, d.ledger, epoch), t, epoch);
    Committed(Distribute(cfg, sealed_, obs, epoch), t)
  }

  // ---- a node ----

  // Pools and the dedup cache are sequences because a JavaScript Map or Set keeps insertion order.
  datatype Node = Node(
    ledger: Ledger, trust: TrustMap, keys: Keys,
    txPool: seq<Tx>, obsPool: seq<Obs>, known: seq<string>,
    epoch: int, floor: int)
  {
    function State(): Committed { Committed(ledger, trust) }
  }

  const KNOWN_CAP: nat := 500_000
  const EVICTED: nat := 50_000

  function TxCacheKey(t: Tx): string { "tx:" + t.id }
  function ObsCacheKey(o: Obs): string { "ob:" + o.id }

  // The dedup cache, trimmed of its oldest tenth when it grows over the cap.
  function Remember(known: seq<string>, key: string): seq<string> {
    var k := if key in known then known else known + [key];
    if |k| > KNOWN_CAP then k[EVICTED..] else k
  }

  // Map.set under the event's id.
  function Put<T(!new)>(key: T -> string, s: seq<T>, x: T): (r: seq<T>)
    requires Distinct(key, s)
    ensures Distinct(key, r) && x in r
    ensures forall y :: y in r ==> y == x || y in s
    ensures forall y :: y in s && key(y) != key(x) ==> y in r
  {
    var k := PlaceOf(key, s, key(x));
    var r := if k == |s| then s + [x] else s[k := x];
    assert r[k] == x;
    assert forall y :: y in s && key(y) != key(x) ==> y in r by {
      forall y | y in s && key(y) != key(x) ensures y in r {
        var i :| 0 <= i < |s| && s[i] == y;
        assert r[i] == y;
      }
    }
    r
  }

  // ---- ingest ----

  // The checks of ingestTx that look at the transaction alone.
  predicate WellFormed(cfg: Config, t: Tx) {
    && t.kind != Reward && cfg.verifyTx(t)
    && (t.kind.Anchor? ==> t.kind.op != Activate)
    && (t.kind in {FounderDelegate, FounderRevoke, SetBeneficiary} ==> t.amount == 0 && IsZir(t.to))
    && (t.kind.FounderRevoke? ==> t.to != cfg.founder)
    && (t.kind.BatchTransfer? ==> t.memo.batch.Some? && OutputSum(t.memo.batch.value) == t.amount)
    && (t.kind.PoolPayout? ==> t.memo.payout.Some? && OutputSum(t.memo.payout.value.outputs) == t.amount)
  }

  // The kinds whose acceptance depends on the committed state at ingest.
  predicate StateChecked(t: Tx) { t.kind in {ReserveGrant, FounderDelegate, FounderRevoke, SetBeneficiary} }

  predicate Admits(cfg: Config, l: Ledger, epoch: int, t: Tx) {
    && (t.kind in {ReserveGrant, FounderDelegate, FounderRevoke} ==> t.from in l.founders)
    && (t.kind.SetBeneficiary? ==> Armed(cfg.poolBeneficiary, epoch))
  }

  predicate UnderFloor(n: Node, epoch: int) { n.floor >= 0 && epoch <= n.floor - SETTLE_ROUNDS }

  function IngestTx(cfg: Config, n: Node, t: Tx): Node
    requires Distinct(TxKey(), n.txPool)
  {
    if TxCacheKey(t) in n.known then n
    else if !WellFormed(cfg, t) || !Admits(cfg, n.ledger, n.epoch, t) then n
    else if UnderFloor(n, t.Epoch()) then n.(known := Remember(n.known, TxCacheKey(t)))
    else n.(known := Remember(n.known, TxCacheKey(t)), txPool := Put(TxKey(), n.txPool, t))
  }

  // The newest epoch an observation may have and still be dropped for its age.
  function AgeCut(o: Obs, epoch: int): int {
    epoch - (if o.IsHeartbeat() then OBS_LAG else SETTLE_ROUNDS) - WINDOW_ROUNDS
  }

  predicate Aged(o: Obs, epoch: int) { o.Epoch() <= AgeCut(o, epoch) }

  function IngestObs(cfg: Config, n: Node, o: Obs): Node
    requires Distinct(ObsKey(), n.obsPool)
  {
    if ObsCacheKey(o) in n.known then n
    else if !cfg.verifyObs(o) || Aged(o, n.epoch) then n
    else if UnderFloor(n, o.Epoch()) then n.(known := Remember(n.known, ObsCacheKey(o)))
    else n.(known := Remember(n.known, ObsCacheKey(o)), obsPool := Put(ObsKey(), n.obsPool, o),
            keys := Learn(n.keys, cfg.addressOf(o.observer), o.observer))
  }

  // ---- processing an epoch ----

  predicate IsDue(t: Tx, epoch: int) { t.Epoch() <= epoch - SETTLE_ROUNDS }

  function Due(pool: seq<Tx>, epoch: int): (r: seq<Tx>)
    ensures forall t :: t in r <==> t in pool && IsDue(t, epoch)
  {
    Sort(TxOrder(), Filter((t: Tx) => IsDue(t, epoch), pool))
  }

  function LearnSenders(keys: Keys, applied: seq<Tx>): Keys {
    if applied == [] then keys
    else Learn(LearnSenders(keys, applied[..|applied| - 1]), applied[|applied| - 1].from,
               applied[|applied| - 1].fromPubKey)
  }

  function KeysStep(cfg: Config, t: TrustMap, keys: Keys, applied: seq<Tx>, obs: seq<Obs>, epoch: int): Keys {
    var w := Window(obs, epoch);
    KeysAfterField(cfg, TrustAfterAll(cfg, t, applied, epoch), LearnSenders(keys, applied), w,
                   SortedNames(SubjectsOf(w)), epoch)
  }

  // What the drain leaves in the pool, and what aging leaves in the window.
  function StillPooled(pool: seq<Tx>, kept: seq<Tx>, epoch: int): seq<Tx> {
    Filter((t: Tx) => !IsDue(t, epoch) || t in kept, pool)
  }

  function StillYoung(pool: seq<Obs>, epoch: int): seq<Obs> {
    Filter((o: Obs) => !Aged(o, epoch), pool)
  }

  ghost function Process(cfg: Config, n: Node, epoch: int): Node {
    var due := Due(n.txPool, epoch);
    var d := DrainAll(cfg, n.ledger, due, epoch);
    var c := Step(cfg, n.State(), due, n.obsPool, epoch);
    n.(ledger := c.ledger, trust := c.trust,
       keys := KeysStep(cfg, n.trust, n.keys, d.applied, n.obsPool, epoch),
       txPool := StillPooled(n.txPool, d.kept, epoch),
       obsPool := StillYoung(n.obsPool, epoch),
       epoch := epoch)
  }

  // The simple clock: every epoch up to the target, one by one.
  ghost function ProcessThrough(cfg: Config, n: Node, target: int): Node
    decreases target - n.epoch
  {
    if target <= n.epoch then n else Process(cfg, ProcessThrough(cfg, n, target - 1), target)
  }

  lemma ProcessMovesClock(cfg: Config, n: Node, epoch: int)
    ensures Process(cfg, n, epoch).epoch == epoch
    ensures Process(cfg, n, epoch).floor == n.floor && Process(cfg, n, epoch).known == n.known
  { }

  lemma {:induction false} ProcessThroughEpoch(cfg: Config, n: Node, target: int)
    ensures ProcessThrough(cfg, n, target).epoch == (if target <= n.epoch then n.epoch else target)
    ensures ProcessThrough(cfg, n, target).floor == n.floor && ProcessThrough(cfg, n, target).known == n.known
    decreases target - n.epoch
  {
    hide Process;
    if target > n.epoch {
      ProcessThroughEpoch(cfg, n, target - 1);
      ProcessMovesClock(cfg, ProcessThrough(cfg, n, target - 1), target);
    }
  }

  lemma {:induction false} ProcessThroughSplits(cfg: Config, n: Node, mid: int, target: int)
    requires n.epoch <= mid <= target
    ensures ProcessThrough(cfg, n, target) == ProcessThrough(cfg, ProcessThrough(cfg, n, mid), target)
    decreases target - mid
  {
    hide Process;
    ProcessThroughEpoch(cfg, n, mid);
    if mid < target { ProcessThroughSplits(cfg, n, mid, target - 1); }
  }

  // ---- the clock with its fast-forward ----

  function EarliestTx(pool: seq<Tx>): Option<int> {
    if pool == [] then None
    else
      var before := EarliestTx(pool[..|pool| - 1]);
      var e := pool[|pool| - 1].Epoch();
      if before.None? || e < before.value then Some(e) else before
  }

  function EarliestObs(pool: seq<Obs>, start: Option<int>): Option<int> {
    if pool == [] then start
    else
      var before := EarliestObs(pool[..|pool| - 1], start);
      var e := pool[|pool| - 1].Epoch();
      if before.None? || e < before.value then Some(e) else before
  }

  // earliestPooledEpoch
  function Earliest(n: Node): Option<int> { EarliestObs(n.obsPool, EarliestTx(n.txPool)) }

  function FirstWork(n: Node, target: int): int {
    var earliest := Earliest(n);
    var work := if earliest.None? then target
                else if n.epoch + 1 >= earliest.value - WINDOW_ROUNDS then n.epoch + 1
                else earliest.value - WINDOW_ROUNDS;
    if work < target then work else target
  }

  ghost function Advance(cfg: Config, n: Node, target: int): Node {
    if target <= n.epoch then n
    else
      var first := FirstWork(n, target);
      ProcessThrough(cfg, if first > n.epoch + 1 then n.(epoch := first - 1) else n, target)
  }
}
