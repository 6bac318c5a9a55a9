// What an epoch does to the standing of each account, said without the functions that compute
// it: who is credited with work, which readings count with what trust, and how a contributor
// is rated (applyTx's work marks, runField and awardContributors in State.ts).
module Contributions {
  import opened Events
  import opened Order
  import opened Heartbeats
  import opened Trust
  import opened Tenure

  // ---- work ----

  // A miner is credited by a fee-paying coordination payout of somebody else, or among the
  // first 64 that a master attests other than itself.
  ghost predicate EarnsWork(cfg: Config, t: TrustMap, tx: Tx, a: Address) {
    if tx.kind.AgentSpend? then
      tx.to == a && tx.from != a && tx.amount > 0 && tx.fee >= 1000 && tx.memo.coordination
    else
      && tx.kind.StorageAttest? && (tx.from in cfg.masters || (tx.from in t && t[tx.from].isMaster))
      && a != tx.from && IsMinerAddress(a)
      && exists i :: 0 <= i < |tx.memo.attested| && i < 64 && tx.memo.attested[i] == a
  }

  ghost function Credited(s: Standing, credited: bool, epoch: int): Standing {
    if credited then s.(lastWork := epoch) else s
  }

  lemma AttestedIff(tx: Tx, a: Address)
    ensures a in Attested(tx) <==> a != tx.from && IsMinerAddress(a)
                                   && exists i :: 0 <= i < |tx.memo.attested| && i < 64 && tx.memo.attested[i] == a
  {
    var listed := if |tx.memo.attested| > MAX_ATTESTED then tx.memo.attested[..MAX_ATTESTED] else tx.memo.attested;
    if a in listed {
      var i :| 0 <= i < |listed| && listed[i] == a;
      assert tx.memo.attested[i] == a;
    }
    if i :| 0 <= i < |tx.memo.attested| && i < 64 && tx.memo.attested[i] == a { assert listed[i] == a; }
  }

  // An applied transaction credits exactly those with work, and changes nobody otherwise.
  lemma WorkIsCredited(cfg: Config, t: TrustMap, tx: Tx, epoch: int, a: Address)
    ensures Of(TrustAfter(cfg, t, tx, epoch), a) == Credited(Of(t, a), EarnsWork(cfg, t, tx, a), epoch)
  {
    AttestedIff(tx, a);
    MarkAllAt(t, Attested(tx), epoch, a);
  }

  ghost predicate EarnedAmong(cfg: Config, t: TrustMap, applied: seq<Tx>, a: Address) {
    exists tx :: tx in applied && EarnsWork(cfg, t, tx, a)
  }

  lemma {:induction false} AppliedAreCredited(cfg: Config, t: TrustMap, applied: seq<Tx>, epoch: int, a: Address)
    ensures Of(TrustAfterAll(cfg, t, applied, epoch), a)
         == Credited(Of(t, a), EarnedAmong(cfg, t, applied, a), epoch)
  {
    hide TrustAfter;
    if applied != [] {
      var n := |applied| - 1;
      var before := TrustAfterAll(cfg, t, applied[..n], epoch);
      AppliedAreCredited(cfg, t, applied[..n], epoch, a);
      AppliedAreCredited(cfg, t, applied[..n], epoch, applied[n].from);
      WorkIsCredited(cfg, before, applied[n], epoch, a);
      assert EarnsWork(cfg, before, applied[n], a) <==> EarnsWork(cfg, t, applied[n], a);
      assert forall tx :: tx in applied <==> tx in applied[..n] || tx == applied[n];
    }
  }

  // ---- which readings count ----

  // o is the last word of its observer on a subject within the settled window.
  ghost predicate LastWord(window: seq<Obs>, subject: string, o: Obs) {
    && o in window && o.subject == subject
    && forall p :: p in window && p.subject == subject && p.observer == o.observer && p != o ==>
         p.timestamp < o.timestamp || (p.timestamp == o.timestamp && Before(p.id, o.id))
  }

  ghost predicate IsLastIn(s: seq<Obs>, o: Obs) {
    o in s && forall p :: p in s && p.observer == o.observer && p != o ==> Earlier(p, o)
  }

  lemma {:induction false} LastEachIsLast(s: seq<Obs>)
    requires Ascending(ByTime(), s)
    ensures forall o :: o in LastEach(s) ==> IsLastIn(s, o)
    ensures forall p :: p in s ==> HasObserver(LastEach(s), p.observer)
  {
    hide LastEach;
    if s != [] {
      var n := |s| - 1;
      var b := s[..n];
      LastEachIsLast(b);
      LastEachParts(s);
      forall p | p in b ensures Earlier(p, s[n]) {
        var i :| 0 <= i < n && s[i] == p;
        assert ByTime()(s[i], s[n]);
      }
      assert forall p :: p in s <==> p in b || p == s[n];
      forall p | p in s ensures HasObserver(LastEach(s), p.observer) {
        if p.observer != s[n].observer { var o :| o in LastEach(b) && o.observer == p.observer; }
      }
    } else {
      assert LastEach(s) == [] by { LastEachOfNothing(); }
    }
  }

  lemma LastEachOfNothing()
    ensures LastEach([]) == []
  { }

  // The last reading takes its observer's place, and nobody else's.
  lemma LastEachParts(s: seq<Obs>)
    requires s != []
    ensures var before, r, x := LastEach(s[..|s| - 1]), LastEach(s), s[|s| - 1];
            && x in r && (forall o :: o in r ==> o == x || (o in before && o.observer != x.observer))
            && (forall o :: o in before && o.observer != x.observer ==> o in r)
  {
    var before, r, x := LastEach(s[..|s| - 1]), LastEach(s), s[|s| - 1];
    var k := PlaceOf(ObserverKey(), before, x.observer);
    assert r == if k == |before| then before + [x] else before[k := x];
    hide LastEach;
    assert r[k] == x;
    forall o | o in r ensures o == x || (o in before && o.observer != x.observer) {
      var i :| 0 <= i < |r| && r[i] == o;
      if i != k { assert before[i] == o; }
    }
    forall o | o in before && o.observer != x.observer ensures o in r {
      var i :| 0 <= i < |before| && before[i] == o;
      assert r[i] == o;
    }
  }

  // Exactly the last words of a subject count, one for each observer.
  lemma LastWordsCount(window: seq<Obs>, subject: string)
    requires Distinct(ObsKey(), window)
    ensures forall o :: o in LastEach(Group(window, subject)) <==> LastWord(window, subject, o)
  {
    hide LastEach, Group;
    var g := Group(window, subject);
    GroupAscends(window, subject);
    LastEachIsLast(g);
    assert forall o :: o in g <==> o in window && o.subject == subject;
    forall o | o in LastEach(g) ensures LastWord(window, subject, o) { assert IsLastIn(g, o); }
    forall o | LastWord(window, subject, o) ensures o in LastEach(g) {
      assert HasObserver(LastEach(g), o.observer);
      var q :| q in LastEach(g) && q.observer == o.observer;
      assert IsLastIn(g, q);
      if q != o { BeforeIsStrict(o.id, q.id); }
    }
  }

  lemma GroupAscends(window: seq<Obs>, subject: string)
    requires Distinct(ObsKey(), window)
    ensures Ascending(ByTime(), Group(window, subject))
  {
    var about := (o: Obs) => o.subject == subject;
    ByTimeIsStrict();
    GroupIsComparable(window, about);
    SortAscends(ByTime(), Filter(about, window));
  }

  // A reading carries its observer's trust in the domain, or else its trust at large, but
  // never less than 0.05.
  lemma ReadingsCarryTrust(cfg: Config, t: TrustMap, obs: seq<Obs>, i: nat)
    requires (forall k :: 0 <= k < |obs| ==> obs[k].value.Some?) && i < |obs|
    ensures var c, a, d := Claims(cfg, t, obs)[i], cfg.addressOf(obs[i].observer), obs[0].domain;
            && Some(c.value) == obs[i].value && c.confidence == obs[i].confidence && c.observer == obs[i].observer
            && c.zti >= 0.05
            && (a !in t ==> c.zti == 0.05)
            && (a in t && d in t[a].byDomain && t[a].byDomain[d] > 0.05 ==> c.zti == t[a].byDomain[d])
            && (a in t && d !in t[a].byDomain && t[a].zti > 0.05 ==> c.zti == t[a].zti)
            && (c.zti > 0.05 ==> a in t && c.zti == (if d in t[a].byDomain then t[a].byDomain[d] else t[a].zti))
  { }

  // ---- work credited by heartbeats ----

  ghost predicate VouchedAmong(cfg: Config, obs: seq<Obs>, a: Address) {
    IsMinerAddress(a) && exists o :: o in obs && cfg.addressOf(o.observer) in cfg.masters
                                     && cfg.addressOf(o.observer) != a && a in o.vouched
  }

  lemma {:induction false} AllVouchedHas(obs: seq<Obs>, o: Obs, a: Address)
    requires o in obs && a in o.vouched
    ensures a in AllVouched(obs)
  {
    var n := |obs| - 1;
    if o in obs[..n] { AllVouchedHas(obs[..n], o, a); }
  }

  lemma HeartbeatsCredit(cfg: Config, t: TrustMap, obs: seq<Obs>, epoch: int, a: Address)
    ensures Of(MarkVouched(cfg, t, obs, epoch), a) == Credited(Of(t, a), VouchedAmong(cfg, obs, a), epoch)
  {
    var keep := (m: Address) => IsMinerAddress(m) && |Vouchers(cfg, obs, m)| >= MIN_VOUCHERS;
    MarkAllAt(t, Filter(keep, AllVouched(obs)), epoch, a);
    if VouchedAmong(cfg, obs, a) {
      var o :| o in obs && cfg.addressOf(o.observer) in cfg.masters && cfg.addressOf(o.observer) != a && a in o.vouched;
      AllVouchedHas(obs, o, a);
      assert cfg.addressOf(o.observer) in Vouchers(cfg, obs, a);
    }
    if a in AllVouched(obs) && keep(a) {
      assert Vouchers(cfg, obs, a) != {};
      var v :| v in Vouchers(cfg, obs, a);
    }
  }

  // ---- how one contributor is rated ----

  // A heartbeat counts for tenure only from a genesis master, or from one credited with work
  // in the last 720 epochs; any other contribution always does. Once an epoch.
  ghost predicate Tenured(cfg: Config, s: Standing, r: Standing, a: Address, o: Obs, epoch: int) {
    var counts := o.subject != HEARTBEAT || a in cfg.masters || (s.lastWork >= 0 && epoch <= s.lastWork + 720);
    if counts && s.lastActive != epoch then
      && r.activeEpochs == s.activeEpochs + 1 && r.lastActive == epoch
      && r.firstSeen == (if s.firstSeen < 0 then epoch else s.firstSeen)
    else r.activeEpochs == s.activeEpochs && r.lastActive == s.lastActive && r.firstSeen == s.firstSeen
  }

  // How far v is off the agreed value, relative to it: the score is one less four times its
  // square, at least zero. If zero was agreed, only zero is right.
  ghost predicate ScoresAs(v: real, agreed: real, score: real) {
    if agreed == 0.0 then score == (if v == 0.0 then 1.0 else 0.0)
    else
      var off := (v - agreed) / agreed;
      (score == 1.0 - 4.0 * off * off && score >= 0.0) || (score == 0.0 && 4.0 * off * off >= 1.0)
  }

  // Accuracy and uptime move a little toward the new evidence.
  ghost predicate Averaged(cfg: Config, s: Standing, r: Standing, o: Obs, own: seq<real>, agreed: real) {
    && o.value.Some?
    && (exists score ::
          ScoresAs(o.value.value, agreed, score) && r.accuracy == s.accuracy + 0.08 * (score - s.accuracy))
    && r.consistency == cfg.consistency(own)
    && (r.uptime == 1.0 || r.uptime == s.uptime + 0.05 * (1.0 - s.uptime)) && r.uptime <= 1.0
    && (r.uptime < s.uptime ==> s.uptime > 1.0)
  }

  // The composite, within 0 and 1, and at most 0.02 above what it was.
  ghost predicate Composed(s: Standing, r: Standing) {
    var x := 0.55 * r.accuracy + 0.25 * r.consistency + 0.2 * r.uptime;
    && r.zti <= s.zti + 0.02
    && (r.zti == s.zti + 0.02 ==> x >= r.zti || r.zti <= 0.0)
    && (r.zti != s.zti + 0.02 ==> r.zti == (if x < 0.0 then 0.0 else if x > 1.0 then 1.0 else x))
  }

  // A genesis master keeps full trust and mastery. Anybody else is rated, and is a master
  // while its rating is at least 0.7, after 720 active epochs, on a lock of three supporters.
  ghost predicate Rated(cfg: Config, s: Standing, r: Standing, a: Address, o: Obs, domain: string, own: seq<real>,
                        lock: Resonance, epoch: int) {
    && Tenured(cfg, s, r, a, o, epoch) && r.lastWork == s.lastWork
    && (forall d :: d != domain ==> (d in r.byDomain <==> d in s.byDomain))
    && (forall d :: d in r.byDomain && d != domain ==> r.byDomain[d] == s.byDomain[d])
    && domain in r.byDomain
    && if a in cfg.masters then
         && r.isMaster && r.zti >= 1.0 && r.zti >= s.zti && (r.zti == s.zti || r.zti == 1.0)
         && r.byDomain[domain] >= 1.0
         && r.accuracy == s.accuracy && r.consistency == s.consistency && r.uptime == s.uptime
       else
         && Averaged(cfg, s, r, o, own, lock.median) && Composed(s, r) && r.byDomain[domain] == r.zti
         && (r.isMaster <==> r.zti >= 0.7 && r.activeEpochs >= 720 && lock.supporters >= 3)
  }

  lemma ScoreIsExact(v: real, agreed: real)
    ensures ScoresAs(v, agreed, AccuracyScore(v, agreed))
  {
    if agreed != 0.0 {
      var off := (v - agreed) / agreed;
      var miss := 2.0 * (Abs(v - agreed) / Abs(agreed));
      AbsQuotient(v - agreed, agreed);
      if off < 0.0 { assert miss == -2.0 * off; } else { assert miss == 2.0 * off; }
      SquareOfTwice(off, miss);
    }
  }

  lemma AbsQuotient(x: real, y: real)
    requires y != 0.0
    ensures Abs(x) / Abs(y) == Abs(x / y)
  { }

  lemma SquareOfTwice(off: real, miss: real)
    requires miss == 2.0 * off || miss == -2.0 * off
    ensures miss * miss == 4.0 * off * off
  { }

  lemma ContributorIsRated(cfg: Config, t: TrustMap, group: seq<Obs>, o: Obs, domain: string, lock: Resonance,
                           epoch: int)
    requires o.value.Some?
    ensures var a, r := cfg.addressOf(o.observer), Contribute(cfg, t, group, o, domain, lock, epoch);
            && Rated(cfg, Of(t, a), Of(r, a), a, o, domain, OwnValues(group, o.observer), lock, epoch)
            && forall b :: b != a ==> Of(r, b) == Of(t, b)
  {
    ScoreIsExact(o.value.value, lock.median);
  }

  ghost predicate OneAddressEach(cfg: Config, obs: seq<Obs>) {
    forall i, j :: 0 <= i < j < |obs| ==> cfg.addressOf(obs[i].observer) != cfg.addressOf(obs[j].observer)
  }

  lemma {:induction false} ContributorsAreRated(cfg: Config, t: TrustMap, group: seq<Obs>, obs: seq<Obs>,
                                                domain: string,
                                                lock: Resonance, epoch: int)
    requires (forall i :: 0 <= i < |obs| ==> obs[i].value.Some?) && OneAddressEach(cfg, obs)
    ensures var r := ContributeAll(cfg, t, group, obs, domain, lock, epoch);
            && (forall o :: o in obs ==> var a := cfg.addressOf(o.observer);
                  Rated(cfg, Of(t, a), Of(r, a), a, o, domain, OwnValues(group, o.observer), lock, epoch))
            && (forall a :: (forall o :: o in obs ==> cfg.addressOf(o.observer) != a) ==> Of(r, a) == Of(t, a))
  {
    hide Contribute, Rated, OwnValues;
    if obs != [] {
      var n := |obs| - 1;
      var before := ContributeAll(cfg, t, group, obs[..n], domain, lock, epoch);
      ContributorsAreRated(cfg, t, group, obs[..n], domain, lock, epoch);
      ContributorIsRated(cfg, before, group, obs[n], domain, lock, epoch);
      forall o | o in obs[..n] ensures cfg.addressOf(o.observer) != cfg.addressOf(obs[n].observer) {
        var i :| 0 <= i < n && obs[i] == o;
      }
      assert forall o :: o in obs <==> o in obs[..n] || o == obs[n];
    }
  }

  // ---- one sealed subject ----

  // The standing of an account once the heartbeats that count have credited it with work.
  ghost function WithWork(cfg: Config, t: TrustMap, window: seq<Obs>, subject: string, a: Address,
                          epoch: int): Standing {
    Credited(Of(t, a), subject == HEARTBEAT && HeartbeatVouches(cfg, window, a), epoch)
  }

  ghost predicate HeartbeatVouches(cfg: Config, window: seq<Obs>, a: Address) {
    IsMinerAddress(a) && exists o :: LastWord(window, HEARTBEAT, o) && cfg.addressOf(o.observer) in cfg.masters
                                     && cfg.addressOf(o.observer) != a && a in o.vouched
  }

  ghost predicate OldestReading(window: seq<Obs>, subject: string, o: Obs) {
    && o in window && o.subject == subject
    && forall p :: p in window && p.subject == subject && p != o ==> Earlier(o, p)
  }

  lemma {:induction false} FirstObserverLeads(s: seq<Obs>)
    requires s != []
    ensures LastEach(s) != [] && LastEach(s)[0].observer == s[0].observer
  {
    if |s| == 1 {
      LastEachOfNothing();
      assert LastEach(s[..0]) == [];
    } else {
      FirstObserverLeads(s[..|s| - 1]);
    }
  }

  // The lock that the last words of a subject make, in the domain of whoever spoke first:
  // whoever has one of them is rated by it, and nobody else changes but for work.
  ghost predicate RatesAll(cfg: Config, t: TrustMap, r: TrustMap, window: seq<Obs>, subject: string, lock: Resonance,
                           epoch: int, domain: string) {
    && (exists o, first :: LastWord(window, subject, o) && o.domain == domain && OldestReading(window, subject, first)
                           && first.observer == o.observer)
    && (forall o :: LastWord(window, subject, o) && o.value.Some? ==> var a := cfg.addressOf(o.observer);
          Rated(cfg, WithWork(cfg, t, window, subject, a, epoch), Of(r, a), a, o, domain,
                OwnValues(Group(window, subject), o.observer), lock, epoch))
    && (forall a :: (forall o :: LastWord(window, subject, o) ==> cfg.addressOf(o.observer) != a) ==>
          Of(r, a) == WithWork(cfg, t, window, subject, a, epoch))
  }

  // What a subject does: without a lock, nothing. With one, the miners vouched for by the
  // heartbeats that count are credited with work, every observer whose last word it was is
  // rated against the agreed value, and nobody else changes.
  lemma SubjectRates(cfg: Config, t: TrustMap, window: seq<Obs>, subject: string, epoch: int)
    requires Distinct(ObsKey(), window) && forall o :: o in window ==> o.value.Some?
    requires OneAddressEach(cfg, LastEach(Group(window, subject)))
    ensures var r, lock := SealSubject(cfg, t, window, subject, epoch), Sealed(cfg, t, Group(window, subject));
            if lock.None? then r == t
            else exists domain :: RatesAll(cfg, t, r, window, subject, lock.value, epoch, domain)
  {
    hide LastEach, ContributeAll, MarkVouched, Rated, OwnValues, LastWord, Claims, Group, WithWork;
    var g := Group(window, subject);
    var lock := Sealed(cfg, t, g);
    LastWordsCount(window, subject);
    if lock.Some? {
      var obs := LastEach(g);
      assert forall i :: 0 <= i < |obs| ==> obs[i] in g;
      var marked := if subject == HEARTBEAT then MarkVouched(cfg, t, obs, epoch) else t;
      ContributorsAreRated(cfg, marked, g, obs, obs[0].domain, lock.value, epoch);
      forall a ensures Of(marked, a) == WithWork(cfg, t, window, subject, a, epoch) {
        MarkedHasWork(cfg, t, window, subject, epoch, a);
      }
      GroupAscends(window, subject);
      FirstObserverLeads(g);
      assert obs[0] in obs && LastWord(window, subject, obs[0]);
      assert OldestReading(window, subject, g[0]) by {
        forall p | p in g && p != g[0] ensures Earlier(g[0], p) {
          var i :| 0 <= i < |g| && g[i] == p;
          assert ByTime()(g[0], g[i]);
        }
        assert g[0] in g;
      }
      assert RatesAll(cfg, t, SealSubject(cfg, t, window, subject, epoch), window, subject, lock.value, epoch,
                      obs[0].domain);
    }
  }

  // ---- work over a whole epoch ----

  // The field agreed on a heartbeat this epoch.
  ghost predicate LocksHeartbeat(cfg: Config, t: TrustMap, window: seq<Obs>, subjects: seq<string>, epoch: int)
    requires forall o :: o in window ==> o.value.Some?
  {
    exists k :: 0 <= k < |subjects| && subjects[k] == HEARTBEAT
                && Sealed(cfg, SealSubjects(cfg, t, window, subjects[..k], epoch), Group(window, HEARTBEAT)).Some?
  }

  lemma SubjectCreditsWork(cfg: Config, t: TrustMap, window: seq<Obs>, subject: string, epoch: int, a: Address)
    requires Distinct(ObsKey(), window) && forall o :: o in window ==> o.value.Some?
    ensures Of(SealSubject(cfg, t, window, subject, epoch), a).lastWork
         == if subject == HEARTBEAT && Sealed(cfg, t, Group(window, subject)).Some? && HeartbeatVouches(cfg, window, a)
            then epoch else Of(t, a).lastWork
  {
    hide LastEach, ContributeAll, MarkVouched, LastWord, Claims, Group, HeartbeatVouches;
    var g := Group(window, subject);
    var lock := Sealed(cfg, t, g);
    if lock.Some? {
      var obs := LastEach(g);
      assert forall i :: 0 <= i < |obs| ==> obs[i] in g;
      var marked := if subject == HEARTBEAT then MarkVouched(cfg, t, obs, epoch) else t;
      MarkedHasWork(cfg, t, window, subject, epoch, a);
      ContributionsKeepWork(cfg, marked, g, obs, obs[0].domain, lock.value, epoch, a);
    }
  }

  lemma {:induction false} SubjectsCreditWork(cfg: Config, t: TrustMap, window: seq<Obs>, subjects: seq<string>,
                                              epoch: int,
                                              a: Address)
    requires Distinct(ObsKey(), window) && forall o :: o in window ==> o.value.Some?
    ensures Of(SealSubjects(cfg, t, window, subjects, epoch), a).lastWork
         == if LocksHeartbeat(cfg, t, window, subjects, epoch) && HeartbeatVouches(cfg, window, a) then epoch
            else Of(t, a).lastWork
  {
    hide SealSubject, Sealed, HeartbeatVouches, Group;
    if subjects != [] {
      var n := |subjects| - 1;
      SubjectsCreditWork(cfg, t, window, subjects[..n], epoch, a);
      SubjectCreditsWork(cfg, SealSubjects(cfg, t, window, subjects[..n], epoch), window, subjects[n], epoch, a);
      forall k | 0 <= k < n ensures subjects[..n][..k] == subjects[..k] && subjects[..n][k] == subjects[k] { }
      assert LocksHeartbeat(cfg, t, window, subjects, epoch)
        <==> LocksHeartbeat(cfg, t, window, subjects[..n], epoch)
             || (subjects[n] == HEARTBEAT
                 && Sealed(cfg, SealSubjects(cfg, t, window, subjects[..n], epoch), Group(window, HEARTBEAT)).Some?);
    }
  }

  // Work is granted by an epoch exactly this way: to whom an applied payout or attestation
  // credits it, and to whom the last heartbeat of a genesis master vouches for, once the
  // field agrees on a heartbeat.
  lemma EpochCreditsWork(cfg: Config, t: TrustMap, applied: seq<Tx>, pool: seq<Obs>, epoch: int, a: Address)
    requires Distinct(ObsKey(), pool)
    ensures var w, s := Window(pool, epoch), TrustAfterAll(cfg, t, applied, epoch);
            Of(TrustStep(cfg, t, applied, pool, epoch), a).lastWork
              == if EarnedAmong(cfg, t, applied, a)
                   || (LocksHeartbeat(cfg, s, w, SortedNames(SubjectsOf(w)), epoch) && HeartbeatVouches(cfg, w, a))
                 then epoch else Of(t, a).lastWork
    ensures forall o :: o in Window(pool, epoch)
                   <==> o in pool && o.value.Some? && epoch - 13 <= o.timestamp / 5000 <= epoch - 8
  {
    hide SealSubjects, EarnedAmong, HeartbeatVouches, LocksHeartbeat;
    var w := Window(pool, epoch);
    FilterIsDistinct(ObsKey(), (o: Obs) => InWindow(o, epoch), pool);
    AppliedAreCredited(cfg, t, applied, epoch, a);
    SubjectsCreditWork(cfg, TrustAfterAll(cfg, t, applied, epoch), w, SortedNames(SubjectsOf(w)), epoch, a);
  }

  lemma MarkedHasWork(cfg: Config, t: TrustMap, window: seq<Obs>, subject: string, epoch: int, a: Address)
    requires Distinct(ObsKey(), window)
    ensures var obs := LastEach(Group(window, subject));
            Of(if subject == HEARTBEAT then MarkVouched(cfg, t, obs, epoch) else t, a)
              == WithWork(cfg, t, window, subject, a, epoch)
  {
    hide LastEach, MarkVouched, LastWord, Group;
    LastWordsCount(window, subject);
    HeartbeatsCredit(cfg, t, LastEach(Group(window, subject)), epoch, a);
  }
}
