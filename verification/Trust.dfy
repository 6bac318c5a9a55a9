// Trust (runField and sealValidators in State.ts): Proof of Resonance over the settled
// window updates the standing of each observer, from which masters and validators are made.
// Standing is not part of the state root, but the validator registry sealed from it is.
module Trust {
  import opened Events
  import opened Order
  import opened Seats

  const MIN_OBSERVATIONS: nat := 3
  const MIN_SUPPORTERS: nat := 3
  const MIN_VOUCHERS: nat := 1
  const MASTER_ZTI: real := 0.70
  const MIN_TENURE: nat := 720
  const WORK_VALIDITY: int := 720
  const MAX_ASCENT: real := 0.02
  const MAX_VALIDATORS: nat := 128
  const MAX_ATTESTED: nat := 64

  datatype Standing = Standing(
    zti: real, byDomain: map<string, real>, accuracy: real, consistency: real, uptime: real,
    isMaster: bool, firstSeen: int, activeEpochs: nat, lastActive: int, lastWork: int)

  type TrustMap = map<Address, Standing>

  const BLANK: Standing := Standing(0.0, map[], 0.0, 1.0, 0.0, false, -1, 0, -1, -1)

  function Of(t: TrustMap, a: Address): Standing { if a in t then t[a] else BLANK }

  function Max(a: real, b: real): real { if a >= b then a else b }
  function Min(a: real, b: real): real { if a <= b then a else b }
  function Abs(a: real): real { if a < 0.0 then 0.0 - a else a }

  // seedGenesisMasters: full trust for the bootstrap quorum, asserted at genesis and again
  // whenever a snapshot is loaded.
  function FullTrust(s: Standing): Standing {
    s.(isMaster := true, zti := Max(s.zti, 1.0), accuracy := Max(s.accuracy, 1.0), uptime := Max(s.uptime, 1.0),
       byDomain := s.byDomain["general" := 1.0])
  }

  function SeedMasters(t: TrustMap, masters: seq<Address>): TrustMap {
    if masters == [] then t
    else
      var a := masters[|masters| - 1];
      var before := SeedMasters(t, masters[..|masters| - 1]);
      before[a := FullTrust(Of(before, a))]
  }

  // ---- work credited by applied transactions ----

  function MarkWork(t: TrustMap, a: Address, epoch: int): TrustMap { t[a := Of(t, a).(lastWork := epoch)] }

  function MarkAll(t: TrustMap, miners: seq<Address>, epoch: int): TrustMap {
    if miners == [] then t else MarkWork(MarkAll(t, miners[..|miners| - 1], epoch), miners[|miners| - 1], epoch)
  }

  function Attested(tx: Tx): seq<Address> {
    var listed := if |tx.memo.attested| > MAX_ATTESTED then tx.memo.attested[..MAX_ATTESTED] else tx.memo.attested;
    Filter((m: Address) => IsMinerAddress(m) && m != tx.from, listed)
  }

  function TrustAfter(cfg: Config, t: TrustMap, tx: Tx, epoch: int): TrustMap {
    match tx.kind
    case StorageAttest =>
      if cfg.IsGenesisMaster(tx.from) || Of(t, tx.from).isMaster then MarkAll(t, Attested(tx), epoch) else t
    case AgentSpend =>
      if tx.from != tx.to && tx.amount > 0 && tx.fee >= BASE_FEE &&
        tx.memo.coordination then MarkWork(t, tx.to, epoch) else t
    case _ => t
  }

  function TrustAfterAll(cfg: Config, t: TrustMap, applied: seq<Tx>, epoch: int): TrustMap {
    if applied == [] then t
    else TrustAfter(cfg, TrustAfterAll(cfg, t, applied[..|applied| - 1], epoch), applied[|applied| - 1], epoch)
  }

  // ---- one subject of the settled window ----

  predicate InWindow(o: Obs, epoch: int) {
    epoch - SETTLE_ROUNDS - WINDOW_ROUNDS + 1 <= o.Epoch() <= epoch - SETTLE_ROUNDS && o.value.Some?
  }

  predicate Earlier(a: Obs, b: Obs) { a.timestamp < b.timestamp || (a.timestamp == b.timestamp && Before(a.id, b.id)) }

  function ByTime(): (Obs, Obs) -> bool { (a: Obs, b: Obs) => Earlier(a, b) }

  // The observations of one subject, oldest first.
  function Group(window: seq<Obs>, subject: string): (r: seq<Obs>)
    ensures forall o :: o in r <==> o in window && o.subject == subject
  {
    Sort(ByTime(), Filter((o: Obs) => o.subject == subject, window))
  }

  // One observation per observer, its last; an observer keeps the place of its first.
  function LastEach(s: seq<Obs>): (r: seq<Obs>)
    ensures forall o :: o in r ==> o in s
    ensures forall i, j :: 0 <= i < j < |r| ==> r[i].observer != r[j].observer
  {
    if s == [] then []
    else
      var n := |s| - 1;
      var before := LastEach(s[..n]);
      var k := PlaceOf(ObserverKey(), before, s[n].observer);
      assert forall o :: o in s <==> o in s[..n] || o == s[n];
      if k == |before| then before + [s[n]]
      else
        assert forall o :: o in before[k := s[n]] ==> o in before || o == s[n];
        before[k := s[n]]
  }

  function TrustIn(t: TrustMap, a: Address, domain: string): real {
    Max(0.05, if a in t then (if domain in t[a].byDomain then t[a].byDomain[domain] else t[a].zti) else 0.0)
  }

  function Claims(cfg: Config, t: TrustMap, obs: seq<Obs>): (r: seq<Claim>)
    requires forall i :: 0 <= i < |obs| ==> obs[i].value.Some?
    ensures |r| == |obs|
  {
    seq(|obs|, i requires 0 <= i < |obs| =>
      Reading(obs[i].value.value, TrustIn(t, cfg.addressOf(obs[i].observer), obs[0].domain), obs[i].confidence,
              obs[i].observer))
  }

  // The lock sealed for a group, if there is one.
  function Sealed(cfg: Config, t: TrustMap, group: seq<Obs>): Option<Resonance>
    requires forall o :: o in group ==> o.value.Some?
  {
    var obs := LastEach(group);
    assert forall i :: 0 <= i < |obs| ==> obs[i] in group;
    if |obs| < MIN_OBSERVATIONS then None else cfg.resonate(Claims(cfg, t, obs))
  }

  // Distinct genesis masters whose latest heartbeat vouches for a miner other than themselves.
  function Vouchers(cfg: Config, obs: seq<Obs>, miner: Address): set<Address> {
    set o | o in obs && cfg.IsGenesisMaster(cfg.addressOf(o.observer)) && miner in o.vouched &&
      miner != cfg.addressOf(o.observer)
          :: cfg.addressOf(o.observer)
  }

  function AllVouched(obs: seq<Obs>): seq<Address> {
    if obs == [] then [] else AllVouched(obs[..|obs| - 1]) + obs[|obs| - 1].vouched
  }

  function MarkVouched(cfg: Config, t: TrustMap, obs: seq<Obs>, epoch: int): TrustMap {
    MarkAll(t, Filter((m: Address) => IsMinerAddress(m) && |Vouchers(cfg, obs, m)| >= MIN_VOUCHERS, AllVouched(obs)),
            epoch)
  }

  // ---- one contributor ----

  function AccuracyScore(value: real, agreed: real): real {
    if agreed == 0.0 then (if value == 0.0 then 1.0 else 0.0)
    else
      var miss := 2.0 * (Abs(value - agreed) / Abs(agreed));
      Max(0.0, 1.0 - miss * miss)
  }

  function Compose(accuracy: real, consistency: real, uptime: real): real {
    Max(0.0, Min(1.0, 0.55 * accuracy + 0.25 * consistency + 0.20 * uptime))
  }

  predicate RecentWork(s: Standing, epoch: int) { s.lastWork >= 0 && epoch - s.lastWork <= WORK_VALIDITY }

  function CountEpoch(s: Standing, eligible: bool, epoch: int): Standing {
    if eligible && s.lastActive != epoch then
      s.(activeEpochs := s.activeEpochs + 1, lastActive := epoch, firstSeen := if s.firstSeen < 0 then epoch
         else s.firstSeen)
    else s
  }

  function Rerated(cfg: Config, s: Standing, o: Obs, domain: string, own: seq<real>, lock: Resonance): Standing
    requires o.value.Some?
  {
    var accuracy := 0.08 * AccuracyScore(o.value.value, lock.median) + 0.92 * s.accuracy;
    var consistency := cfg.consistency(own);
    var uptime := Min(1.0, s.uptime * 0.95 + 0.05);
    var zti := Min(Compose(accuracy, consistency, uptime), s.zti + MAX_ASCENT);
    s.(accuracy := accuracy, consistency := consistency, uptime := uptime, zti := zti,
       byDomain := s.byDomain[domain := zti],
       isMaster := zti >= MASTER_ZTI && s.activeEpochs >= MIN_TENURE && lock.supporters >= MIN_SUPPORTERS)
  }

  function Trusted(s: Standing, domain: string): Standing {
    s.(isMaster := true, zti := Max(s.zti, 1.0),
       byDomain := s.byDomain[domain := Max(if domain in s.byDomain then s.byDomain[domain] else 0.0, 1.0)])
  }

  function Values(s: seq<Obs>): seq<real> {
    if s == [] then []
    else Values(s[..|s| - 1]) + (if s[|s| - 1].value.Some? then [s[|s| - 1].value.value] else [])
  }

  // What an observer reported on a subject in the window, all of it.
  function OwnValues(group: seq<Obs>, observer: string): seq<real> {
    Values(Filter((p: Obs) => p.observer == observer, group))
  }

  function Contribute(cfg: Config, t: TrustMap, group: seq<Obs>, o: Obs, domain: string, lock: Resonance,
                      epoch: int): TrustMap
    requires o.value.Some?
  {
    var a := cfg.addressOf(o.observer);
    var s := Of(t, a);
    var eligible := !o.IsHeartbeat() || cfg.IsGenesisMaster(a) || RecentWork(s, epoch);
    var counted := CountEpoch(s, eligible, epoch);
    t[a := if cfg.IsGenesisMaster(a) then Trusted(counted, domain)
           else Rerated(cfg, counted, o, domain, OwnValues(group, o.observer), lock)]
  }

  function ContributeAll(cfg: Config, t: TrustMap, group: seq<Obs>, obs: seq<Obs>, domain: string, lock: Resonance,
                         epoch: int): TrustMap
    requires forall i :: 0 <= i < |obs| ==> obs[i].value.Some?
  {
    if obs == [] then t
    else
      var n := |obs| - 1;
      Contribute(cfg, ContributeAll(cfg, t, group, obs[..n], domain, lock, epoch), group, obs[n], domain, lock, epoch)
  }

  function SealSubject(cfg: Config, t: TrustMap, window: seq<Obs>, subject: string, epoch: int): TrustMap
    requires forall o :: o in window ==> o.value.Some?
  {
    var group := Group(window, subject);
    var lock := Sealed(cfg, t, group);
    if lock.None? then t
    else
      var obs := LastEach(group);
      assert forall i :: 0 <= i < |obs| ==> obs[i] in group;
      var marked := if subject == HEARTBEAT then MarkVouched(cfg, t, obs, epoch) else t;
      ContributeAll(cfg, marked, group, obs, obs[0].domain, lock.value, epoch)
  }

  // ---- the whole field ----

  function Window(pool: seq<Obs>, epoch: int): (r: seq<Obs>)
    ensures forall o :: o in r <==> o in pool && InWindow(o, epoch)
  {
    Filter((o: Obs) => InWindow(o, epoch), pool)
  }

  function SubjectsOf(window: seq<Obs>): (r: seq<string>)
    ensures |r| == |window| && forall i :: 0 <= i < |r| ==> r[i] == window[i].subject
  {
    seq(|window|, i requires 0 <= i < |window| => window[i].subject)
  }

  function SealSubjects(cfg: Config, t: TrustMap, window: seq<Obs>, subjects: seq<string>, epoch: int): TrustMap
    requires forall o :: o in window ==> o.value.Some?
  {
    if subjects == [] then t
    else
      var n := |subjects| - 1;
      SealSubject(cfg, SealSubjects(cfg, t, window, subjects[..n], epoch), window, subjects[n], epoch)
  }

  function RunField(cfg: Config, t: TrustMap, pool: seq<Obs>, epoch: int): TrustMap {
    var w := Window(pool, epoch);
    SealSubjects(cfg, t, w, SortedNames(SubjectsOf(w)), epoch)
  }

  // ---- trust does not depend on arrival order ----

  lemma ByTimeIsStrict()
    ensures Strict(ByTime())
  {
    forall a: Obs ensures !Earlier(a, a) { BeforeIsStrict(a.id, a.id); }
    forall a: Obs, b: Obs, c: Obs | Earlier(a, b) && Earlier(b, c) ensures Earlier(a, c) {
      if a.timestamp == b.timestamp == c.timestamp { BeforeIsTransitive(a.id, b.id, c.id); }
    }
  }

  lemma GroupIgnoresOrder(window: seq<Obs>, other: seq<Obs>, subject: string)
    requires Distinct(ObsKey(), window) && Distinct(ObsKey(), other)
    requires forall o :: o in window <==> o in other
    ensures Group(window, subject) == Group(other, subject)
  {
    ByTimeIsStrict();
    var about := (o: Obs) => o.subject == subject;
    GroupIsComparable(window, about);
    GroupIsComparable(other, about);
    SortIsCanonical(ByTime(), Filter(about, window), Filter(about, other));
  }

  lemma GroupIsComparable(window: seq<Obs>, keep: Obs -> bool)
    requires Distinct(ObsKey(), window)
    ensures Comparable(ByTime(), Filter(keep, window))
  {
    FilterIsDistinct(ObsKey(), keep, window);
    var g := Filter(keep, window);
    forall i, j | 0 <= i < j < |g| ensures Earlier(g[i], g[j]) || Earlier(g[j], g[i]) {
      assert ObsKey()(g[i]) != ObsKey()(g[j]);
      BeforeIsStrict(g[i].id, g[j].id);
    }
  }

  lemma {:induction false} SealSubjectsIgnoreOrder(cfg: Config, t: TrustMap, window: seq<Obs>, other: seq<Obs>,
                                                   subjects: seq<string>, epoch: int)
    requires Distinct(ObsKey(), window) && Distinct(ObsKey(), other)
    requires forall o :: o in window <==> o in other
    requires forall o :: o in window ==> o.value.Some?
    ensures SealSubjects(cfg, t, window, subjects, epoch) == SealSubjects(cfg, t, other, subjects, epoch)
  {
    hide ContributeAll, MarkVouched, Sealed, LastEach;
    if subjects != [] {
      var n := |subjects| - 1;
      SealSubjectsIgnoreOrder(cfg, t, window, other, subjects[..n], epoch);
      GroupIgnoresOrder(window, other, subjects[n]);
    }
  }

  lemma SubjectsAgree(window: seq<Obs>, other: seq<Obs>)
    requires forall o :: o in window ==> o in other
    ensures forall x :: x in SubjectsOf(window) ==> x in SubjectsOf(other)
  {
    forall x | x in SubjectsOf(window) ensures x in SubjectsOf(other) {
      var i :| 0 <= i < |window| && window[i].subject == x;
      assert window[i] in other;
      var j :| 0 <= j < |other| && other[j] == window[i];
      assert SubjectsOf(other)[j] == x;
    }
  }

  // Trust after an epoch is a function of which observations lie in the settled window.
  lemma RunFieldIgnoresOrder(cfg: Config, t: TrustMap, pool: seq<Obs>, other: seq<Obs>, epoch: int)
    requires Distinct(ObsKey(), pool) && Distinct(ObsKey(), other)
    requires forall o :: InWindow(o, epoch) ==> (o in pool <==> o in other)
    ensures RunField(cfg, t, pool, epoch) == RunField(cfg, t, other, epoch)
  {
    var inside := (o: Obs) => InWindow(o, epoch);
    var w, v := Window(pool, epoch), Window(other, epoch);
    FilterIsDistinct(ObsKey(), inside, pool);
    FilterIsDistinct(ObsKey(), inside, other);
    SubjectsAgree(w, v);
    SubjectsAgree(v, w);
    SortedNamesIgnoreOrder(SubjectsOf(w), SubjectsOf(v));
    SealSubjectsIgnoreOrder(cfg, t, w, v, SortedNames(SubjectsOf(w)), epoch);
  }
}
