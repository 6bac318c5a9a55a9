// What every epoch keeps of trust: mastership takes time and genesis masters stay trusted.
// And the registry that sealValidators makes of it.
module Tenure {
  import opened Events
  import opened Order
  import opened Seats
  import opened Trust

  // ---- earned mastership ----

  // A standing's activity record: how many distinct epochs, between which two.
  ghost predicate Recorded(s: Standing, epoch: int) {
    && s.lastActive <= epoch
    && (s.activeEpochs == 0 ==> s.firstSeen < 0)
    && (s.activeEpochs > 0 ==> 0 <= s.firstSeen <= s.lastActive && s.activeEpochs <= s.lastActive - s.firstSeen + 1)
  }

  ghost predicate EarnedStanding(cfg: Config, a: Address, s: Standing, epoch: int) {
    && Recorded(s, epoch) && 0.0 <= s.zti <= 1.0
    && (cfg.IsGenesisMaster(a) ==> s == FullTrust(s))
    && (!cfg.IsGenesisMaster(a) && s.isMaster ==> s.activeEpochs >= MIN_TENURE && s.zti >= MASTER_ZTI)
  }

  // The trust map of a network with a genesis master set, after processing this epoch.
  ghost predicate Earned(cfg: Config, t: TrustMap, epoch: int) {
    && (forall a :: a in t ==> EarnedStanding(cfg, a, t[a], epoch))
    && (forall a :: a in cfg.masters ==> a in t)
  }

  lemma EarnedAt(cfg: Config, t: TrustMap, epoch: int, a: Address)
    requires Earned(cfg, t, epoch) && epoch >= 0
    ensures EarnedStanding(cfg, a, Of(t, a), epoch)
  {
    if a in t { assert EarnedStanding(cfg, a, t[a], epoch); }
  }

  lemma EarnedPut(cfg: Config, t: TrustMap, epoch: int, a: Address, s: Standing)
    requires Earned(cfg, t, epoch) && EarnedStanding(cfg, a, s, epoch)
    ensures Earned(cfg, t[a := s], epoch)
  { }

  lemma EarnedLater(cfg: Config, t: TrustMap, epoch: int, later: int)
    requires Earned(cfg, t, epoch) && epoch <= later
    ensures Earned(cfg, t, later)
  {
    forall a | a in t ensures EarnedStanding(cfg, a, t[a], later) { assert EarnedStanding(cfg, a, t[a], epoch); }
  }

  // Loading a snapshot re-asserts the genesis masters' trust; that never changes anything.
  lemma {:induction false} SeedingIsIdempotent(cfg: Config, t: TrustMap, epoch: int, masters: seq<Address>)
    requires Earned(cfg, t, epoch) && forall a :: a in masters ==> cfg.IsGenesisMaster(a)
    ensures SeedMasters(t, masters) == t
  {
    if masters != [] {
      var n := |masters| - 1;
      SeedingIsIdempotent(cfg, t, epoch, masters[..n]);
      assert cfg.IsGenesisMaster(masters[n]) && masters[n] in t;
      assert EarnedStanding(cfg, masters[n], t[masters[n]], epoch);
    }
  }

  // At genesis only the genesis masters have any standing, and they have full trust.
  lemma {:induction false} SeedingIsEarned(cfg: Config, masters: seq<Address>, epoch: int)
    requires epoch >= 0 && forall a :: a in masters ==> cfg.IsGenesisMaster(a)
    ensures forall a :: a in SeedMasters(map[], masters) <==> a in masters
    ensures forall a :: a in masters ==> EarnedStanding(cfg, a, SeedMasters(map[], masters)[a], epoch)
  {
    if masters != [] {
      var n := |masters| - 1;
      var before := SeedMasters(map[], masters[..n]);
      SeedingIsEarned(cfg, masters[..n], epoch);
      assert forall a :: a in masters <==> a in masters[..n] || a == masters[n];
    }
  }

  // A master that is not a genesis master has taken part in at least MIN_TENURE distinct
  // epochs, all within its recorded lifetime: there is no shortcut to mastership.
  lemma MastershipTakesTime(cfg: Config, t: TrustMap, epoch: int, a: Address)
    requires Earned(cfg, t, epoch) && epoch >= 0 && !cfg.IsGenesisMaster(a) && Of(t, a).isMaster
    ensures MIN_TENURE <= Of(t, a).activeEpochs <= Of(t, a).lastActive - Of(t, a).firstSeen + 1
    ensures MIN_TENURE <= epoch - Of(t, a).firstSeen + 1 && Of(t, a).zti >= MASTER_ZTI
  {
    EarnedAt(cfg, t, epoch, a);
  }

  lemma {:induction false} MarkAllKeepsEarned(cfg: Config, t: TrustMap, miners: seq<Address>, mark: int, epoch: int)
    requires Earned(cfg, t, epoch) && epoch >= 0
    ensures Earned(cfg, MarkAll(t, miners, mark), epoch)
  {
    if miners != [] {
      var n := |miners| - 1;
      var before := MarkAll(t, miners[..n], mark);
      MarkAllKeepsEarned(cfg, t, miners[..n], mark, epoch);
      EarnedAt(cfg, before, epoch, miners[n]);
      EarnedPut(cfg, before, epoch, miners[n], Of(before, miners[n]).(lastWork := mark));
    }
  }

  lemma TrustAfterKeepsEarned(cfg: Config, t: TrustMap, tx: Tx, mark: int, epoch: int)
    requires Earned(cfg, t, epoch) && epoch >= 0
    ensures Earned(cfg, TrustAfter(cfg, t, tx, mark), epoch)
  {
    MarkAllKeepsEarned(cfg, t, Attested(tx), mark, epoch);
    EarnedAt(cfg, t, epoch, tx.to);
    EarnedPut(cfg, t, epoch, tx.to, Of(t, tx.to).(lastWork := mark));
  }

  lemma {:induction false} AppliedKeepEarned(cfg: Config, t: TrustMap, applied: seq<Tx>, mark: int, epoch: int)
    requires Earned(cfg, t, epoch) && epoch >= 0
    ensures Earned(cfg, TrustAfterAll(cfg, t, applied, mark), epoch)
  {
    if applied != [] {
      var n := |applied| - 1;
      AppliedKeepEarned(cfg, t, applied[..n], mark, epoch);
      TrustAfterKeepsEarned(cfg, TrustAfterAll(cfg, t, applied[..n], mark), applied[n], mark, epoch);
    }
  }

  lemma CountKeepsRecorded(s: Standing, eligible: bool, epoch: int)
    requires Recorded(s, epoch) && epoch >= 0
    ensures Recorded(CountEpoch(s, eligible, epoch), epoch)
  { }

  lemma ContributeKeepsEarned(cfg: Config, t: TrustMap, group: seq<Obs>, o: Obs, domain: string, lock: Resonance,
                              epoch: int)
    requires Earned(cfg, t, epoch) && epoch >= 0 && o.value.Some?
    ensures Earned(cfg, Contribute(cfg, t, group, o, domain, lock, epoch), epoch)
  {
    var a := cfg.addressOf(o.observer);
    EarnedAt(cfg, t, epoch, a);
    var r := Contribute(cfg, t, group, o, domain, lock, epoch);
    CountKeepsRecorded(Of(t, a), !o.IsHeartbeat() || cfg.IsGenesisMaster(a) || RecentWork(Of(t, a), epoch), epoch);
    EarnedPut(cfg, t, epoch, a, r[a]);
  }

  lemma {:induction false} ContributeAllKeepsEarned(cfg: Config, t: TrustMap, group: seq<Obs>, obs: seq<Obs>,
                                                    domain: string, lock: Resonance, epoch: int)
    requires Earned(cfg, t, epoch) && epoch >= 0 && forall i :: 0 <= i < |obs| ==> obs[i].value.Some?
    ensures Earned(cfg, ContributeAll(cfg, t, group, obs, domain, lock, epoch), epoch)
  {
    if obs != [] {
      var n := |obs| - 1;
      ContributeAllKeepsEarned(cfg, t, group, obs[..n], domain, lock, epoch);
      ContributeKeepsEarned(cfg, ContributeAll(cfg, t, group, obs[..n], domain, lock, epoch), group, obs[n], domain,
                            lock, epoch);
    }
  }

  lemma SealSubjectKeepsEarned(cfg: Config, t: TrustMap, window: seq<Obs>, subject: string, epoch: int)
    requires Earned(cfg, t, epoch) && epoch >= 0 && forall o :: o in window ==> o.value.Some?
    ensures Earned(cfg, SealSubject(cfg, t, window, subject, epoch), epoch)
  {
    var group := Group(window, subject);
    var lock := Sealed(cfg, t, group);
    if lock.Some? {
      var obs := LastEach(group);
      assert forall i :: 0 <= i < |obs| ==> obs[i] in group;
      var marked := if subject == HEARTBEAT then MarkVouched(cfg, t, obs, epoch) else t;
      MarkAllKeepsEarned(cfg, t,
                         Filter((m: Address) => IsMinerAddress(m) &&
                                |Vouchers(cfg, obs, m)| >= MIN_VOUCHERS, AllVouched(obs)), epoch, epoch);
      ContributeAllKeepsEarned(cfg, marked, group, obs, obs[0].domain, lock.value, epoch);
    }
  }

  lemma {:induction false} SealSubjectsKeepEarned(cfg: Config, t: TrustMap, window: seq<Obs>, subjects: seq<string>,
                                                  epoch: int)
    requires Earned(cfg, t, epoch) && epoch >= 0 && forall o :: o in window ==> o.value.Some?
    ensures Earned(cfg, SealSubjects(cfg, t, window, subjects, epoch), epoch)
  {
    if subjects != [] {
      var n := |subjects| - 1;
      SealSubjectsKeepEarned(cfg, t, window, subjects[..n], epoch);
      SealSubjectKeepsEarned(cfg, SealSubjects(cfg, t, window, subjects[..n], epoch), window, subjects[n], epoch);
    }
  }

  // Everything an epoch does to trust: the applied transactions' marks, then the field.
  function TrustStep(cfg: Config, t: TrustMap, applied: seq<Tx>, pool: seq<Obs>, epoch: int): TrustMap {
    RunField(cfg, TrustAfterAll(cfg, t, applied, epoch), pool, epoch)
  }

  lemma EpochKeepsEarned(cfg: Config, t: TrustMap, applied: seq<Tx>, pool: seq<Obs>, epoch: int)
    requires Earned(cfg, t, epoch - 1) && epoch >= 0
    ensures Earned(cfg, TrustStep(cfg, t, applied, pool, epoch), epoch)
  {
    EarnedLater(cfg, t, epoch - 1, epoch);
    AppliedKeepEarned(cfg, t, applied, epoch, epoch);
    var w := Window(pool, epoch);
    SealSubjectsKeepEarned(cfg, TrustAfterAll(cfg, t, applied, epoch), w, SortedNames(SubjectsOf(w)), epoch);
  }

  // ---- whom contributions touch ----

  ghost predicate HasKeyOf(cfg: Config, obs: seq<Obs>, a: Address) {
    exists o :: o in obs && cfg.addressOf(o.observer) == a
  }

  lemma {:induction false} ContributeAllActivity(cfg: Config, t: TrustMap, group: seq<Obs>, obs: seq<Obs>,
                                                 domain: string, lock: Resonance, epoch: int, a: Address)
    requires forall i :: 0 <= i < |obs| ==> obs[i].value.Some?
    ensures HasKeyOf(cfg, obs, a) || Of(ContributeAll(cfg, t, group, obs, domain, lock, epoch), a) == Of(t, a)
  {
    if obs != [] {
      var n := |obs| - 1;
      ContributeAllActivity(cfg, t, group, obs[..n], domain, lock, epoch, a);
      assert obs[n] in obs;
      assert HasKeyOf(cfg, obs[..n], a) ==> HasKeyOf(cfg, obs, a);
    }
  }

  // ---- work cannot be granted to oneself ----

  // A third party's fee-paying coordination payout, or a master's attestation.
  ghost predicate GrantsWork(cfg: Config, t: TrustMap, tx: Tx, a: Address) {
    && tx.from != a
    && ((tx.kind.AgentSpend? && tx.to == a && tx.amount > 0 && tx.fee >= BASE_FEE && tx.memo.coordination)
        || (tx.kind.StorageAttest? && (cfg.IsGenesisMaster(tx.from) || Of(t, tx.from).isMaster) &&
            a in tx.memo.attested))
  }

  // A genesis master's heartbeat that vouches for somebody else.
  ghost predicate VouchesFor(cfg: Config, o: Obs, a: Address) {
    o.IsHeartbeat() && cfg.IsGenesisMaster(cfg.addressOf(o.observer)) && cfg.addressOf(o.observer) != a &&
      a in o.vouched
  }

  lemma {:induction false} MarkAllAt(t: TrustMap, miners: seq<Address>, mark: int, a: Address)
    ensures Of(MarkAll(t, miners, mark), a) == if a in miners then Of(t, a).(lastWork := mark) else Of(t, a)
  {
    if miners != [] {
      var n := |miners| - 1;
      MarkAllAt(t, miners[..n], mark, a);
      assert a in miners <==> a in miners[..n] || a == miners[n];
    }
  }

  lemma AttestedAreListed(tx: Tx)
    ensures forall m :: m in Attested(tx) ==> m in tx.memo.attested && m != tx.from
  { }

  lemma {:induction false} AppliedWork(cfg: Config, t: TrustMap, applied: seq<Tx>, epoch: int, a: Address)
    ensures var r := Of(TrustAfterAll(cfg, t, applied, epoch), a);
            && r.isMaster == Of(t, a).isMaster
            && (r.lastWork != Of(t, a).lastWork ==> exists tx :: tx in applied && GrantsWork(cfg, t, tx, a))
  {
    if applied != [] {
      var n := |applied| - 1;
      var before := TrustAfterAll(cfg, t, applied[..n], epoch);
      var tx := applied[n];
      AppliedWork(cfg, t, applied[..n], epoch, a);
      AppliedWork(cfg, t, applied[..n], epoch, tx.from);
      AttestedAreListed(tx);
      MarkAllAt(before, Attested(tx), epoch, a);
      if Of(before, a).lastWork != Of(t, a).lastWork {
        var u :| u in applied[..n] && GrantsWork(cfg, t, u, a);
        assert u in applied;
      } else if Of(TrustAfterAll(cfg, t, applied, epoch), a).lastWork != Of(t, a).lastWork {
        assert tx in applied && GrantsWork(cfg, t, tx, a);
      }
    }
  }

  lemma {:induction false} AllVouchedFrom(obs: seq<Obs>, a: Address)
    requires a in AllVouched(obs)
    ensures exists o :: o in obs && a in o.vouched
  {
    var n := |obs| - 1;
    if a in AllVouched(obs[..n]) {
      AllVouchedFrom(obs[..n], a);
      var o :| o in obs[..n] && a in o.vouched;
      assert o in obs;
    } else {
      assert obs[n] in obs;
    }
  }

  lemma VouchedWork(cfg: Config, t: TrustMap, obs: seq<Obs>, epoch: int, a: Address)
    requires forall o :: o in obs ==> o.IsHeartbeat()
    ensures Of(MarkVouched(cfg, t, obs, epoch), a).lastWork != Of(t, a).lastWork ==>
              exists o :: o in obs && VouchesFor(cfg, o, a)
  {
    var vouched := Filter((m: Address) => IsMinerAddress(m) &&
                          |Vouchers(cfg, obs, m)| >= MIN_VOUCHERS, AllVouched(obs));
    MarkAllAt(t, vouched, epoch, a);
    if a in vouched {
      var v :| v in Vouchers(cfg, obs, a);
      var o :| o in obs && cfg.IsGenesisMaster(cfg.addressOf(o.observer)) && a in o.vouched &&
        a != cfg.addressOf(o.observer);
      assert VouchesFor(cfg, o, a);
    }
  }

  lemma {:induction false} ContributionsKeepWork(cfg: Config, t: TrustMap, group: seq<Obs>, obs: seq<Obs>,
                                                 domain: string, lock: Resonance, epoch: int, a: Address)
    requires forall i :: 0 <= i < |obs| ==> obs[i].value.Some?
    ensures Of(ContributeAll(cfg, t, group, obs, domain, lock, epoch), a).lastWork == Of(t, a).lastWork
  {
    if obs != [] { ContributionsKeepWork(cfg, t, group, obs[..|obs| - 1], domain, lock, epoch, a); }
  }

  lemma SealSubjectWork(cfg: Config, t: TrustMap, window: seq<Obs>, subject: string, epoch: int, a: Address)
    requires forall o :: o in window ==> o.value.Some?
    ensures Of(SealSubject(cfg, t, window, subject, epoch), a).lastWork != Of(t, a).lastWork ==>
              exists o :: o in window && VouchesFor(cfg, o, a)
  {
    hide Contribute, MarkVouched;
    var group := Group(window, subject);
    var lock := Sealed(cfg, t, group);
    if lock.Some? {
      var obs := LastEach(group);
      assert forall i :: 0 <= i < |obs| ==> obs[i] in group;
      var marked := if subject == HEARTBEAT then MarkVouched(cfg, t, obs, epoch) else t;
      ContributionsKeepWork(cfg, marked, group, obs, obs[0].domain, lock.value, epoch, a);
      if subject == HEARTBEAT && Of(marked, a).lastWork != Of(t, a).lastWork {
        VouchedWork(cfg, t, obs, epoch, a);
        var o :| o in obs && VouchesFor(cfg, o, a);
        assert o in window;
      }
    }
  }

  lemma {:induction false} SealSubjectsWork(cfg: Config, t: TrustMap, window: seq<Obs>, subjects: seq<string>,
                                            epoch: int, a: Address)
    requires forall o :: o in window ==> o.value.Some?
    ensures Of(SealSubjects(cfg, t, window, subjects, epoch), a).lastWork != Of(t, a).lastWork ==>
              exists o :: o in window && VouchesFor(cfg, o, a)
  {
    hide SealSubject;
    if subjects != [] {
      var n := |subjects| - 1;
      SealSubjectsWork(cfg, t, window, subjects[..n], epoch, a);
      SealSubjectWork(cfg, SealSubjects(cfg, t, window, subjects[..n], epoch), window, subjects[n], epoch, a);
    }
  }

  // The work marker that unlocks mastership and the registry cannot be granted to oneself:
  // it moves only by another's fee-paying payout, a master's attestation, or the heartbeat
  // of a genesis master that vouches for somebody else.
  lemma WorkIsNeverSelfGranted(cfg: Config, t: TrustMap, applied: seq<Tx>, pool: seq<Obs>, epoch: int, a: Address)
    requires Of(TrustStep(cfg, t, applied, pool, epoch), a).lastWork != Of(t, a).lastWork
    ensures (exists tx :: tx in applied && GrantsWork(cfg, t, tx, a)) ||
              (exists o :: o in pool && VouchesFor(cfg, o, a))
  {
    var w := Window(pool, epoch);
    AppliedWork(cfg, t, applied, epoch, a);
    SealSubjectsWork(cfg, TrustAfterAll(cfg, t, applied, epoch), w, SortedNames(SubjectsOf(w)), epoch, a);
    if exists o :: o in w && VouchesFor(cfg, o, a) {
      var o :| o in w && VouchesFor(cfg, o, a);
      assert o in pool;
    }
  }

  // ---- the validator registry ----

  // A contributing account outside the genesis quorum: active, recently at work, and
  // either a master by work or the holder of a seat.
  ghost predicate Qualifies(cfg: Config, t: TrustMap, seats: SeatMap, a: Address, epoch: int) {
    && a in t && !cfg.IsGenesisMaster(a) && t[a].activeEpochs > 0 && RecentWork(t[a], epoch)
    && (t[a].isMaster || exists id :: OwnedBy(seats, id, a))
  }

  ghost function Registry(cfg: Config, t: TrustMap, seats: SeatMap, epoch: int): seq<Address> {
    var names := Ascend(set a | a in t && Qualifies(cfg, t, seats, a, epoch));
    if |names| > MAX_VALIDATORS then names[..MAX_VALIDATORS] else names
  }

  lemma RegistryIsProper(cfg: Config, t: TrustMap, seats: SeatMap, epoch: int)
    ensures var r := Registry(cfg, t, seats, epoch);
            && Ascending(ByName(), r) && |r| <= MAX_VALIDATORS
            && (forall a :: a in r ==> Qualifies(cfg, t, seats, a, epoch))
            && (forall a :: a in t && Qualifies(cfg, t, seats, a, epoch) ==> a in r || |r| == MAX_VALIDATORS)
  {
    var names := Ascend(set a | a in t && Qualifies(cfg, t, seats, a, epoch));
    assert forall a :: a in Registry(cfg, t, seats, epoch) ==> a in names;
  }

  // ---- signing keys ----

  // Addresses whose signing key a node knows. A key is learnt when an observation is
  // ingested, when a transaction is applied, and when an observer contributes to a lock.
  type Keys = map<Address, string>

  function Learn(keys: Keys, a: Address, key: string): Keys { if a in keys then keys else keys[a := key] }

  function LearnAll(cfg: Config, keys: Keys, obs: seq<Obs>): Keys {
    if obs == [] then keys
    else Learn(LearnAll(cfg, keys, obs[..|obs| - 1]), cfg.addressOf(obs[|obs| - 1].observer), obs[|obs| - 1].observer)
  }

  function KeysAfterField(cfg: Config, t: TrustMap, keys: Keys, window: seq<Obs>, subjects: seq<string>,
                          epoch: int): Keys
    requires forall o :: o in window ==> o.value.Some?
  {
    if subjects == [] then keys
    else
      var n := |subjects| - 1;
      var group := Group(window, subjects[n]);
      var before := KeysAfterField(cfg, t, keys, window, subjects[..n], epoch);
      if Sealed(cfg, SealSubjects(cfg, t, window, subjects[..n], epoch), group).None? then before
      else LearnAll(cfg, before, LastEach(group))
  }

  // Whoever has been active has a known key: so the registry, which also asks for a key,
  // does not depend on which keys a node happens to have learnt.
  ghost predicate ActiveHaveKeys(t: TrustMap, keys: Keys) {
    forall a :: a in t && t[a].activeEpochs > 0 ==> a in keys
  }

  lemma {:induction false} LearnAllGrows(cfg: Config, keys: Keys, obs: seq<Obs>)
    ensures forall a :: a in keys ==> a in LearnAll(cfg, keys, obs)
    ensures forall o :: o in obs ==> cfg.addressOf(o.observer) in LearnAll(cfg, keys, obs)
  {
    if obs != [] {
      var n := |obs| - 1;
      LearnAllGrows(cfg, keys, obs[..n]);
      assert forall o :: o in obs <==> o in obs[..n] || o == obs[n];
    }
  }

  lemma {:induction false} MarkAllKeepsActivity(t: TrustMap, miners: seq<Address>, mark: int, a: Address)
    ensures Of(MarkAll(t, miners, mark), a).activeEpochs == Of(t, a).activeEpochs
  {
    if miners != [] { MarkAllKeepsActivity(t, miners[..|miners| - 1], mark, a); }
  }

  lemma SealSubjectKeepsKeys(cfg: Config, t: TrustMap, keys: Keys, window: seq<Obs>, subject: string, epoch: int)
    requires forall o :: o in window ==> o.value.Some?
    requires ActiveHaveKeys(t, keys)
    ensures var group := Group(window, subject);
            ActiveHaveKeys(SealSubject(cfg, t, window, subject, epoch),
                           if Sealed(cfg, t, group).None? then keys else LearnAll(cfg, keys, LastEach(group)))
  {
    var group := Group(window, subject);
    var lock := Sealed(cfg, t, group);
    if lock.Some? {
      var obs := LastEach(group);
      LearnAllGrows(cfg, keys, obs);
      assert forall i :: 0 <= i < |obs| ==> obs[i] in group;
      var vouched := Filter((m: Address) => IsMinerAddress(m) &&
                            |Vouchers(cfg, obs, m)| >= MIN_VOUCHERS, AllVouched(obs));
      var marked := if subject == HEARTBEAT then MarkVouched(cfg, t, obs, epoch) else t;
      var r := SealSubject(cfg, t, window, subject, epoch);
      forall a | a in r && r[a].activeEpochs > 0 ensures a in LearnAll(cfg, keys, obs) {
        MarkAllKeepsActivity(t, vouched, epoch, a);
        ContributeAllActivity(cfg, marked, group, obs, obs[0].domain, lock.value, epoch, a);
      }
    }
  }

  lemma {:induction false} FieldKeepsKeys(cfg: Config, t: TrustMap, keys: Keys, window: seq<Obs>, subjects: seq<string>,
                                          epoch: int)
    requires forall o :: o in window ==> o.value.Some?
    requires ActiveHaveKeys(t, keys)
    ensures ActiveHaveKeys(SealSubjects(cfg, t, window, subjects, epoch),
                           KeysAfterField(cfg, t, keys, window, subjects, epoch))
  {
    if subjects != [] {
      var n := |subjects| - 1;
      FieldKeepsKeys(cfg, t, keys, window, subjects[..n], epoch);
      SealSubjectKeepsKeys(cfg, SealSubjects(cfg, t, window, subjects[..n], epoch),
                           KeysAfterField(cfg, t, keys, window, subjects[..n], epoch), window, subjects[n], epoch);
    }
  }
}
