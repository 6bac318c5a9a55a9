// How fast trust climbs (the cap on a rise in runField in State.ts): the cap binds each
// sealed subject, so it binds an epoch exactly if at most one subject can be sealed with
// the account among its observers.
module Ascent {
  import opened Events
  import opened Order
  import opened Trust
  import opened Tenure
  import opened Gate

  // Different keys are different accounts (addresses are hashes of keys).
  ghost predicate OneKeyEach(cfg: Config, s: seq<Obs>) {
    forall o, p :: o in s && p in s && cfg.addressOf(o.observer) == cfg.addressOf(p.observer) ==>
      o.observer == p.observer
  }

  // ---- at most the cap a subject ----

  lemma LastKeyIsNew(cfg: Config, obs: seq<Obs>)
    requires obs != [] && OneKeyEach(cfg, obs)
    requires forall i, j :: 0 <= i < j < |obs| ==> obs[i].observer != obs[j].observer
    ensures !HasKeyOf(cfg, obs[..|obs| - 1], cfg.addressOf(obs[|obs| - 1].observer))
  {
    var n := |obs| - 1;
    forall o | o in obs[..n] ensures cfg.addressOf(o.observer) != cfg.addressOf(obs[n].observer) {
      var i :| 0 <= i < n && obs[i] == o;
      assert o in obs;
    }
  }

  lemma ContributeAscent(cfg: Config, t: TrustMap, group: seq<Obs>, o: Obs, domain: string, lock: Resonance, epoch: int,
                         a: Address)
    requires o.value.Some? && !cfg.IsGenesisMaster(a)
    ensures Of(Contribute(cfg, t, group, o, domain, lock, epoch), a).zti <= Of(t, a).zti + MAX_ASCENT
  { }

  lemma ContributeElsewhere(cfg: Config, t: TrustMap, group: seq<Obs>, o: Obs, domain: string, lock: Resonance,
                            epoch: int, a: Address)
    requires o.value.Some? && cfg.addressOf(o.observer) != a
    ensures Of(Contribute(cfg, t, group, o, domain, lock, epoch), a) == Of(t, a)
  { }

  lemma {:induction false} ContributeAllAscent(cfg: Config, t: TrustMap, group: seq<Obs>, obs: seq<Obs>, domain: string,
                                               lock: Resonance, epoch: int, a: Address)
    requires forall i :: 0 <= i < |obs| ==> obs[i].value.Some?
    requires OneKeyEach(cfg, obs) && forall i, j :: 0 <= i < j < |obs| ==> obs[i].observer != obs[j].observer
    requires !cfg.IsGenesisMaster(a)
    ensures Of(ContributeAll(cfg, t, group, obs, domain, lock, epoch), a).zti <= Of(t, a).zti + MAX_ASCENT
  {
    if obs != [] {
      var n := |obs| - 1;
      var before := ContributeAll(cfg, t, group, obs[..n], domain, lock, epoch);
      assert forall o :: o in obs[..n] ==> o in obs;
      if cfg.addressOf(obs[n].observer) == a {
        LastKeyIsNew(cfg, obs);
        ContributeAllActivity(cfg, t, group, obs[..n], domain, lock, epoch, a);
        ContributeAscent(cfg, before, group, obs[n], domain, lock, epoch, a);
      } else {
        ContributeAllAscent(cfg, t, group, obs[..n], domain, lock, epoch, a);
        ContributeElsewhere(cfg, before, group, obs[n], domain, lock, epoch, a);
      }
    }
  }

  // The subject is sealed with the account among its observers.
  ghost predicate SealedWith(cfg: Config, t: TrustMap, window: seq<Obs>, subject: string, a: Address)
    requires forall o :: o in window ==> o.value.Some?
  {
    Sealed(cfg, t, Group(window, subject)).Some? && HasKeyOf(cfg, LastEach(Group(window, subject)), a)
  }

  lemma MarkVouchedKeepsRating(cfg: Config, t: TrustMap, obs: seq<Obs>, epoch: int, a: Address)
    ensures var m := Of(MarkVouched(cfg, t, obs, epoch), a);
            m == Of(t, a).(lastWork := m.lastWork)
  {
    MarkAllAt(t, Filter((m: Address) => IsMinerAddress(m) && |Vouchers(cfg, obs, m)| >= MIN_VOUCHERS, AllVouched(obs)),
              epoch, a);
  }

  lemma SealSubjectAscent(cfg: Config, t: TrustMap, window: seq<Obs>, subject: string, epoch: int, a: Address)
    requires forall o :: o in window ==> o.value.Some?
    requires OneKeyEach(cfg, window) && !cfg.IsGenesisMaster(a)
    ensures Of(SealSubject(cfg, t, window, subject, epoch), a).zti
         <= Of(t, a).zti + (if SealedWith(cfg, t, window, subject, a) then MAX_ASCENT else 0.0)
  {
    hide Contribute, MarkVouched;
    var group := Group(window, subject);
    var lock := Sealed(cfg, t, group);
    if lock.Some? {
      var obs := LastEach(group);
      assert forall o :: o in obs ==> o in window;
      assert forall i :: 0 <= i < |obs| ==> obs[i] in group;
      var marked := if subject == HEARTBEAT then MarkVouched(cfg, t, obs, epoch) else t;
      MarkVouchedKeepsRating(cfg, t, obs, epoch, a);
      ContributeAllAscent(cfg, marked, group, obs, obs[0].domain, lock.value, epoch, a);
      ContributeAllActivity(cfg, marked, group, obs, obs[0].domain, lock.value, epoch, a);
    }
  }

  // How many locks the epoch seals with the account among the observers.
  ghost function SealedCount(cfg: Config, t: TrustMap, window: seq<Obs>, subjects: seq<string>, epoch: int,
                             a: Address): nat
    requires forall o :: o in window ==> o.value.Some?
  {
    if subjects == [] then 0
    else
      var n := |subjects| - 1;
      var before := SealSubjects(cfg, t, window, subjects[..n], epoch);
      SealedCount(cfg, t, window, subjects[..n], epoch, a)
        + (if SealedWith(cfg, before, window, subjects[n], a) then 1 else 0)
  }

  lemma {:induction false} SubjectsAscent(cfg: Config, t: TrustMap, window: seq<Obs>, subjects: seq<string>, epoch: int,
                                          a: Address)
    requires forall o :: o in window ==> o.value.Some?
    requires OneKeyEach(cfg, window) && !cfg.IsGenesisMaster(a)
    ensures Of(SealSubjects(cfg, t, window, subjects, epoch), a).zti
         <= Of(t, a).zti + MAX_ASCENT * SealedCount(cfg, t, window, subjects, epoch, a) as real
  {
    hide SealSubject, SealedWith;
    if subjects != [] {
      var n := |subjects| - 1;
      SubjectsAscent(cfg, t, window, subjects[..n], epoch, a);
      SealSubjectAscent(cfg, SealSubjects(cfg, t, window, subjects[..n], epoch), window, subjects[n], epoch, a);
    }
  }

  lemma {:induction false} AppliedKeepRating(cfg: Config, t: TrustMap, applied: seq<Tx>, epoch: int, a: Address)
    ensures var m := Of(TrustAfterAll(cfg, t, applied, epoch), a);
            m == Of(t, a).(lastWork := m.lastWork)
  {
    if applied != [] {
      var n := |applied| - 1;
      AppliedKeepRating(cfg, t, applied[..n], epoch, a);
      MarkAllAt(TrustAfterAll(cfg, t, applied[..n], epoch), Attested(applied[n]), epoch, a);
    }
  }

  // In one epoch, the trust of anyone but a genesis master rises by at most the cap times
  // the number of subjects that are sealed with that account among the observers.
  lemma AscentIsCapped(cfg: Config, t: TrustMap, applied: seq<Tx>, pool: seq<Obs>, epoch: int, a: Address)
    requires OneKeyEach(cfg, pool) && !cfg.IsGenesisMaster(a)
    ensures var w := Window(pool, epoch);
            var locks := SealedCount(cfg, TrustAfterAll(cfg, t, applied, epoch), w, SortedNames(SubjectsOf(w)), epoch,
                                     a);
            Of(TrustStep(cfg, t, applied, pool, epoch), a).zti <= Of(t, a).zti + MAX_ASCENT * locks as real
  {
    var w := Window(pool, epoch);
    AppliedKeepRating(cfg, t, applied, epoch, a);
    SubjectsAscent(cfg, TrustAfterAll(cfg, t, applied, epoch), w, SortedNames(SubjectsOf(w)), epoch, a);
  }

  // ---- which subjects can be sealed ----

  function Observers(s: seq<Obs>): set<string> { set o | o in s :: o.observer }

  function ObserversOf(window: seq<Obs>, subject: string): set<string> {
    set o | o in window && o.subject == subject :: o.observer
  }

  // Enough distinct observers in the window, the account among them.
  ghost predicate Sealable(cfg: Config, window: seq<Obs>, subject: string, a: Address) {
    && |ObserversOf(window, subject)| >= MIN_OBSERVATIONS
    && exists k :: k in ObserversOf(window, subject) && cfg.addressOf(k) == a
  }

  lemma {:induction false} LastEachHasAll(s: seq<Obs>)
    ensures Observers(LastEach(s)) == Observers(s) && |LastEach(s)| == |Observers(s)|
  {
    hide Observers;
    if s != [] {
      var n := |s| - 1;
      var before := LastEach(s[..n]);
      var k := PlaceOf(ObserverKey(), before, s[n].observer);
      LastEachHasAll(s[..n]);
      assert s == s[..n] + [s[n]];
      OneMore(s[..n], s[n]);
      if k == |before| {
        OneMore(before, s[n]);
        NotAmong(before, s[n].observer);
      } else {
        Replaced(before, k, s[n]);
        assert s[n].observer in Observers(before) by { IsAmong(before, k); }
        assert Observers(before) + {s[n].observer} == Observers(before);
      }
    } else {
      assert Observers(s) == {} by { NoneAmong(); }
    }
  }

  lemma NoneAmong()
    ensures Observers([]) == {}
  { }

  lemma OneMore(s: seq<Obs>, o: Obs)
    ensures Observers(s + [o]) == Observers(s) + {o.observer}
  {
    assert forall x :: x in s + [o] <==> x in s || x == o;
  }

  lemma NotAmong(s: seq<Obs>, observer: string)
    requires forall i :: 0 <= i < |s| ==> s[i].observer != observer
    ensures observer !in Observers(s)
  { }

  lemma IsAmong(s: seq<Obs>, k: nat)
    requires k < |s|
    ensures s[k].observer in Observers(s)
  {
    assert s[k] in s;
  }

  lemma Replaced(s: seq<Obs>, k: nat, o: Obs)
    requires k < |s| && s[k].observer == o.observer
    ensures Observers(s[k := o]) == Observers(s)
  {
    forall x | x in Observers(s) ensures x in Observers(s[k := o]) {
      var i :| 0 <= i < |s| && s[i].observer == x;
      assert s[k := o][i].observer == x && s[k := o][i] in s[k := o];
    }
    forall x | x in Observers(s[k := o]) ensures x in Observers(s) {
      var i :| 0 <= i < |s| && s[k := o][i].observer == x;
      assert s[i].observer == x && s[i] in s;
    }
  }

  lemma GroupObservers(cfg: Config, window: seq<Obs>, subject: string, a: Address)
    ensures var obs := LastEach(Group(window, subject));
            Sealable(cfg, window, subject, a) <==> |obs| >= MIN_OBSERVATIONS && HasKeyOf(cfg, obs, a)
  {
    hide LastEach;
    var group := Group(window, subject);
    LastEachHasAll(group);
    assert Observers(group) == ObserversOf(window, subject);
    if k :| k in Observers(LastEach(group)) && cfg.addressOf(k) == a {
      var o :| o in LastEach(group) && o.observer == k;
    }
    if HasKeyOf(cfg, LastEach(group), a) {
      var o :| o in LastEach(group) && cfg.addressOf(o.observer) == a;
      assert o.observer in Observers(LastEach(group));
    }
  }

  // At most one subject of the window can be sealed with the account among its observers.
  ghost predicate OneSubject(cfg: Config, window: seq<Obs>, a: Address) {
    forall x, y :: Sealable(cfg, window, x, a) && Sealable(cfg, window, y, a) ==> x == y
  }

  lemma {:induction false} OneSubjectOneLock(cfg: Config, t: TrustMap, window: seq<Obs>, subjects: seq<string>,
                                             epoch: int, a: Address)
    requires forall o :: o in window ==> o.value.Some?
    requires OneSubject(cfg, window, a) && forall i, j :: 0 <= i < j < |subjects| ==> subjects[i] != subjects[j]
    ensures SealedCount(cfg, t, window, subjects, epoch, a) <= 1
    ensures SealedCount(cfg, t, window, subjects, epoch, a) == 1 ==>
              exists x :: x in subjects && Sealable(cfg, window, x, a)
  {
    hide SealSubjects, LastEach, Group, Sealable;
    if subjects != [] {
      var n := |subjects| - 1;
      OneSubjectOneLock(cfg, t, window, subjects[..n], epoch, a);
      GroupObservers(cfg, window, subjects[n], a);
      if SealedCount(cfg, t, window, subjects[..n], epoch, a) == 1 {
        var x :| x in subjects[..n] && Sealable(cfg, window, x, a);
        assert x in subjects && x != subjects[n];
      } else {
        assert subjects[n] in subjects;
      }
    }
  }

  // ---- two subjects break the cap ----

  // Nothing in the window keeps a lock or a good score from an account: the gate seals every
  // subject that can be sealed, and nobody's consistency is very low.
  ghost predicate Unhindered(cfg: Config, window: seq<Obs>)
    requires forall o :: o in window ==> o.value.Some?
  {
    && (forall t, x :: |LastEach(Group(window, x))| >= MIN_OBSERVATIONS ==> Sealed(cfg, t, Group(window, x)).Some?)
    && (forall x :: Steady(cfg, Group(window, x)))
  }

  ghost predicate Steady(cfg: Config, group: seq<Obs>) { forall k :: cfg.consistency(OwnValues(group, k)) >= 0.2 }

  ghost predicate Climbs(s: Standing, low: real) { s.accuracy >= 0.0 && s.uptime >= 0.0 && s.zti >= low }

  function Up(low: real): real { Min(0.04, low + MAX_ASCENT) }

  lemma ContributeClimbs(cfg: Config, t: TrustMap, group: seq<Obs>, o: Obs, domain: string, lock: Resonance, epoch: int,
                         a: Address, low: real)
    requires o.value.Some? && cfg.addressOf(o.observer) == a && !cfg.IsGenesisMaster(a)
    requires low <= 0.04 && Climbs(Of(t, a), low) && cfg.consistency(OwnValues(group, o.observer)) >= 0.2
    ensures Climbs(Of(Contribute(cfg, t, group, o, domain, lock, epoch), a), Up(low))
  {
    hide AccuracyScore, OwnValues;
    assert AccuracyScore(o.value.value, lock.median) >= 0.0 by { ScoreIsNotNegative(o.value.value, lock.median); }
  }

  lemma ScoreIsNotNegative(value: real, agreed: real)
    ensures AccuracyScore(value, agreed) >= 0.0
  { }

  lemma {:induction false} ContributeAllClimbs(cfg: Config, t: TrustMap, group: seq<Obs>, obs: seq<Obs>, domain: string,
                                               lock: Resonance, epoch: int, a: Address, low: real)
    requires forall i :: 0 <= i < |obs| ==> obs[i].value.Some?
    requires !cfg.IsGenesisMaster(a) && low <= 0.04 && Climbs(Of(t, a), low) && Steady(cfg, group)
    ensures Climbs(Of(ContributeAll(cfg, t, group, obs, domain, lock, epoch), a),
                   if HasKeyOf(cfg, obs, a) then Up(low) else low)
  {
    hide Contribute;
    if obs != [] {
      var n := |obs| - 1;
      var before := ContributeAll(cfg, t, group, obs[..n], domain, lock, epoch);
      ContributeAllClimbs(cfg, t, group, obs[..n], domain, lock, epoch, a, low);
      assert obs == obs[..n] + [obs[n]];
      if cfg.addressOf(obs[n].observer) == a {
        ContributeClimbs(cfg, before, group, obs[n], domain, lock, epoch, a, low);
      } else {
        ContributeElsewhere(cfg, before, group, obs[n], domain, lock, epoch, a);
      }
    }
  }

  lemma SealSubjectClimbs(cfg: Config, t: TrustMap, window: seq<Obs>, subject: string, epoch: int, a: Address,
                          low: real)
    requires forall o :: o in window ==> o.value.Some?
    requires !cfg.IsGenesisMaster(a) && low <= 0.04 && Climbs(Of(t, a), low) && Unhindered(cfg, window)
    ensures Climbs(Of(SealSubject(cfg, t, window, subject, epoch), a),
                   if Sealable(cfg, window, subject, a) then Up(low) else low)
  {
    hide Contribute, MarkVouched, LastEach, ContributeAll, Climbs, Sealable, Steady, Claims;
    var group := Group(window, subject);
    GroupObservers(cfg, window, subject, a);
    var obs := LastEach(group);
    assert forall i :: 0 <= i < |obs| ==> obs[i] in group;
    if |obs| >= MIN_OBSERVATIONS {
      var marked := if subject == HEARTBEAT then MarkVouched(cfg, t, obs, epoch) else t;
      MarkVouchedKeepsRating(cfg, t, obs, epoch, a);
      assert Climbs(Of(marked, a), low) by { SameRating(Of(marked, a), Of(t, a), low); }
      ContributeAllClimbs(cfg, marked, group, obs, obs[0].domain, Sealed(cfg, t, group).value, epoch, a, low);
    }
  }

  lemma SameRating(s: Standing, t: Standing, low: real)
    requires Climbs(t, low) && s == t.(lastWork := s.lastWork)
    ensures Climbs(s, low)
  { }

  // How many of the subjects can be sealed with the account.
  ghost function SealableCount(cfg: Config, window: seq<Obs>, subjects: seq<string>, a: Address): nat {
    if subjects == [] then 0
    else
      var n := |subjects| - 1;
      SealableCount(cfg, window, subjects[..n], a) + (if Sealable(cfg, window, subjects[n], a) then 1 else 0)
  }

  lemma {:induction false} SubjectsClimb(cfg: Config, t: TrustMap, window: seq<Obs>, subjects: seq<string>, epoch: int,
                                         a: Address)
    requires forall o :: o in window ==> o.value.Some?
    requires !cfg.IsGenesisMaster(a) && Climbs(Of(t, a), 0.0) && Unhindered(cfg, window)
    ensures Climbs(Of(SealSubjects(cfg, t, window, subjects, epoch), a),
                   Min(0.04, MAX_ASCENT * SealableCount(cfg, window, subjects, a) as real))
  {
    hide SealSubject, Sealable, Unhindered;
    if subjects != [] {
      var n := |subjects| - 1;
      SubjectsClimb(cfg, t, window, subjects[..n], epoch, a);
      SealSubjectClimbs(cfg, SealSubjects(cfg, t, window, subjects[..n], epoch), window, subjects[n], epoch, a,
                        Min(0.04, MAX_ASCENT * SealableCount(cfg, window, subjects[..n], a) as real));
    }
  }

  lemma {:induction false} CountsOne(cfg: Config, window: seq<Obs>, subjects: seq<string>, a: Address, x: string)
    requires x in subjects && Sealable(cfg, window, x, a)
    ensures SealableCount(cfg, window, subjects, a) >= 1
  {
    hide Sealable;
    var n := |subjects| - 1;
    if x != subjects[n] { CountsOne(cfg, window, subjects[..n], a, x); }
  }

  lemma {:induction false} CountsTwo(cfg: Config, window: seq<Obs>, subjects: seq<string>, a: Address, x: string,
                                     y: string)
    requires x in subjects && y in subjects && x != y && Sealable(cfg, window, x, a) && Sealable(cfg, window, y, a)
    ensures SealableCount(cfg, window, subjects, a) >= 2
  {
    hide Sealable;
    var n := |subjects| - 1;
    if x == subjects[n] {
      CountsOne(cfg, window, subjects[..n], a, y);
    } else if y == subjects[n] {
      CountsOne(cfg, window, subjects[..n], a, x);
    } else {
      CountsTwo(cfg, window, subjects[..n], a, x, y);
    }
  }

  lemma SealableIsASubject(cfg: Config, window: seq<Obs>, x: string, a: Address)
    requires Sealable(cfg, window, x, a)
    ensures x in SortedNames(SubjectsOf(window))
  {
    var k :| k in ObserversOf(window, x) && cfg.addressOf(k) == a;
    var o :| o in window && o.subject == x && o.observer == k;
    var i :| 0 <= i < |window| && window[i] == o;
    assert SubjectsOf(window)[i] == x;
  }

  // With two such subjects, an account that nobody knew gains more than the cap in an epoch,
  // on a network fresh from genesis.
  lemma TwoSubjectsBreakTheCap(cfg: Config, applied: seq<Tx>, pool: seq<Obs>, epoch: int, a: Address, x: string,
                               y: string)
    requires !cfg.IsGenesisMaster(a) && epoch >= 1 && x != y
    requires Sealable(cfg, Window(pool, epoch), x, a) && Sealable(cfg, Window(pool, epoch), y, a)
    requires Unhindered(cfg, Window(pool, epoch))
    ensures var t := SeedMasters(map[], cfg.masters);
            && Earned(cfg, t, epoch - 1) && Of(t, a) == BLANK
            && Of(TrustStep(cfg, t, applied, pool, epoch), a).zti > Of(t, a).zti + MAX_ASCENT
  {
    hide Sealable, SealSubjects, EarnedStanding, Unhindered;
    var t := SeedMasters(map[], cfg.masters);
    var w := Window(pool, epoch);
    var subjects := SortedNames(SubjectsOf(w));
    SeedingIsEarned(cfg, cfg.masters, epoch - 1);
    assert a !in t;
    var u := TrustAfterAll(cfg, t, applied, epoch);
    AppliedKeepRating(cfg, t, applied, epoch, a);
    SealableIsASubject(cfg, w, x, a);
    SealableIsASubject(cfg, w, y, a);
    CountsTwo(cfg, w, subjects, a, x, y);
    SubjectsClimb(cfg, u, w, subjects, epoch, a);
  }

  // ---- exactly when the cap holds for an epoch ----

  // A network whose gate seals every subject and whose consistency is always full.
  function Generous(cfg: Config): Config {
    cfg.(resonate := (claims: seq<Claim>) => Some(Resonance(0.0, 0)), consistency := (own: seq<real>) => 1.0)
  }

  // Under some gate and some measure of consistency, from some trust, the account rises by
  // more than the cap.
  ghost predicate Overshoots(cfg: Config, resonate: seq<Claim> -> Option<Resonance>, consistency: seq<real> -> real,
                             t: TrustMap, applied: seq<Tx>, pool: seq<Obs>, epoch: int, a: Address) {
    var c := cfg.(resonate := resonate, consistency := consistency);
    Of(TrustStep(c, t, applied, pool, epoch), a).zti > Of(t, a).zti + MAX_ASCENT
  }

  // No account of a network rises by more than the cap in an epoch, whatever its standing
  // and however locks are gated, exactly if at most one subject of the settled window can be
  // sealed with it among the observers.
  lemma CapHoldsForEpochIff(cfg: Config, applied: seq<Tx>, pool: seq<Obs>, epoch: int, a: Address)
    requires OneKeyEach(cfg, pool) && !cfg.IsGenesisMaster(a) && epoch >= 1
    ensures OneSubject(cfg, Window(pool, epoch), a)
       <==> forall resonate, consistency, t :: Earned(cfg, t, epoch - 1) ==>
              !Overshoots(cfg, resonate, consistency, t, applied, pool, epoch, a)
  {
    hide Sealable, Earned, TrustStep;
    var w := Window(pool, epoch);
    if OneSubject(cfg, w, a) {
      forall resonate, consistency, t ensures !Overshoots(cfg, resonate, consistency, t, applied, pool, epoch, a) {
        OneSubjectKeepsTheCap(cfg, resonate, consistency, t, applied, pool, epoch, a);
      }
    } else {
      var x, y :| Sealable(cfg, w, x, a) && Sealable(cfg, w, y, a) && x != y;
      var t := SeedMasters(map[], cfg.masters);
      SealableIgnoresFormulas(cfg, Generous(cfg), w, a);
      TwoSubjectsBreakTheCap(Generous(cfg), applied, pool, epoch, a, x, y);
      EarnedIgnoresFormulas(cfg, Generous(cfg), t, epoch - 1);
      assert Overshoots(cfg, Generous(cfg).resonate, Generous(cfg).consistency, t, applied, pool, epoch, a);
    }
  }

  lemma EarnedIgnoresFormulas(cfg: Config, other: Config, t: TrustMap, epoch: int)
    requires cfg.masters == other.masters
    ensures Earned(cfg, t, epoch) <==> Earned(other, t, epoch)
  { }

  lemma OneSubjectKeepsTheCap(cfg: Config, resonate: seq<Claim> -> Option<Resonance>, consistency: seq<real> -> real,
                              t: TrustMap, applied: seq<Tx>, pool: seq<Obs>, epoch: int, a: Address)
    requires OneKeyEach(cfg, pool) && !cfg.IsGenesisMaster(a) && OneSubject(cfg, Window(pool, epoch), a)
    ensures !Overshoots(cfg, resonate, consistency, t, applied, pool, epoch, a)
  {
    hide TrustStep, TrustAfterAll, SealedCount, Sealable;
    var c := cfg.(resonate := resonate, consistency := consistency);
    var w := Window(pool, epoch);
    assert forall x :: Sealable(c, w, x, a) == Sealable(cfg, w, x, a) by { SealableIgnoresFormulas(cfg, c, w, a); }
    AscentIsCapped(c, t, applied, pool, epoch, a);
    SortedNamesDiffer(SubjectsOf(w));
    OneSubjectOneLock(c, TrustAfterAll(c, t, applied, epoch), w, SortedNames(SubjectsOf(w)), epoch, a);
  }

  lemma SealableIgnoresFormulas(cfg: Config, other: Config, window: seq<Obs>, a: Address)
    requires cfg.addressOf == other.addressOf
    ensures forall x :: Sealable(other, window, x, a) == Sealable(cfg, window, x, a)
  { }

  // ---- a pool that breaks it ----

  function Report(key: string, subject: string, epoch: int): Obs {
    Obs(key + subject, key, subject, "general", (epoch - SETTLE_ROUNDS) * EPOCH_MS, Some(1.0), 1.0, [], map[])
  }

  // The gate seals three or more full-confidence readings that are all 1, and an observer
  // that always read 1 is scored as consistent.
  ghost predicate SealsUnanimity(cfg: Config) {
    && (forall s: seq<Claim> :: |s| >= MIN_OBSERVATIONS && AllOnes(s) ==> cfg.resonate(s).Some?)
    && (forall s: seq<real> :: (forall i :: 0 <= i < |s| ==> s[i] == 1.0) ==> cfg.consistency(s) == 1.0)
  }

  ghost predicate Unanimous(s: seq<Obs>) { forall o :: o in s ==> o.value == Some(1.0) && o.confidence == 1.0 }

  lemma {:induction false} OwnAreOnes(s: seq<Obs>)
    requires Unanimous(s)
    ensures forall i :: 0 <= i < |Values(s)| ==> Values(s)[i] == 1.0
  {
    if s != [] {
      var n := |s| - 1;
      assert s[n] in s;
      OwnAreOnes(s[..n]);
    }
  }

  lemma UnanimityIsUnhindered(cfg: Config, window: seq<Obs>)
    requires SealsUnanimity(cfg) && Unanimous(window)
    ensures Unhindered(cfg, window)
  {
    hide LastEach, Sealed, Steady, SealsUnanimity;
    forall t, x | |LastEach(Group(window, x))| >= MIN_OBSERVATIONS ensures Sealed(cfg, t, Group(window, x)).Some? {
      UnanimousIsSealed(cfg, t, window, x);
    }
    forall x ensures Steady(cfg, Group(window, x)) { UnanimousIsSteady(cfg, window, x); }
  }

  lemma UnanimousIsSealed(cfg: Config, t: TrustMap, window: seq<Obs>, x: string)
    requires SealsUnanimity(cfg) && Unanimous(window) && |LastEach(Group(window, x))| >= MIN_OBSERVATIONS
    ensures Sealed(cfg, t, Group(window, x)).Some?
  {
    hide Group, LastEach, Claims;
    var obs := LastEach(Group(window, x));
    assert forall i :: 0 <= i < |obs| ==> obs[i] in Group(window, x) && obs[i] in window;
    assert forall i :: 0 <= i < |obs| ==> obs[i].value == Some(1.0) && obs[i].confidence == 1.0;
    ClaimsAreOnes(cfg, t, obs);
  }

  lemma ClaimsAreOnes(cfg: Config, t: TrustMap, obs: seq<Obs>)
    requires forall i :: 0 <= i < |obs| ==> obs[i].value == Some(1.0) && obs[i].confidence == 1.0
    ensures AllOnes(Claims(cfg, t, obs))
  {
    hide TrustIn;
    forall i | 0 <= i < |obs| ensures Claims(cfg, t, obs)[i].zti >= 0.05 {
      TrustIsPositive(t, cfg.addressOf(obs[i].observer), obs[0].domain);
    }
  }

  lemma TrustIsPositive(t: TrustMap, a: Address, domain: string)
    ensures TrustIn(t, a, domain) >= 0.05
  { }

  lemma UnanimousIsSteady(cfg: Config, window: seq<Obs>, x: string)
    requires SealsUnanimity(cfg) && Unanimous(window)
    ensures Steady(cfg, Group(window, x))
  {
    hide Group;
    forall k ensures cfg.consistency(OwnValues(Group(window, x), k)) >= 0.2 {
      OwnAreOnes(Filter((p: Obs) => p.observer == k, Group(window, x)));
    }
  }

  // The program's gate does the first, and its score, whatever it is otherwise, the second.
  lemma ProgramSealsUnanimity(cfg: Config)
    requires forall s :: cfg.resonate(s) == ProgramGate(s)
    requires forall s: seq<real> :: (forall i :: 0 <= i < |s| ==> s[i] == 1.0) ==> cfg.consistency(s) == 1.0
    ensures SealsUnanimity(cfg)
  {
    hide ProgramGate;
    forall s: seq<Claim> | |s| >= MIN_OBSERVATIONS && AllOnes(s) ensures cfg.resonate(s).Some? { UnanimityPasses(s); }
  }

  // So for a unanimous window the condition is exact for the program's own gate too.
  lemma CapHoldsForProgramIff(cfg: Config, applied: seq<Tx>, pool: seq<Obs>, epoch: int, a: Address)
    requires OneKeyEach(cfg, pool) && !cfg.IsGenesisMaster(a) && epoch >= 1
    requires SealsUnanimity(cfg) && Unanimous(Window(pool, epoch))
    ensures OneSubject(cfg, Window(pool, epoch), a)
       <==> forall t :: Earned(cfg, t, epoch - 1) ==>
         !Overshoots(cfg, cfg.resonate, cfg.consistency, t, applied, pool, epoch, a)
  {
    hide Sealable, Earned, TrustStep, SealsUnanimity, Unhindered;
    var w := Window(pool, epoch);
    if OneSubject(cfg, w, a) {
      forall t ensures !Overshoots(cfg, cfg.resonate, cfg.consistency, t, applied, pool, epoch, a) {
        OneSubjectKeepsTheCap(cfg, cfg.resonate, cfg.consistency, t, applied, pool, epoch, a);
      }
    } else {
      var x, y :| Sealable(cfg, w, x, a) && Sealable(cfg, w, y, a) && x != y;
      UnanimityIsUnhindered(cfg, w);
      TwoSubjectsBreakTheCap(cfg, applied, pool, epoch, a, x, y);
      assert cfg.(resonate := cfg.resonate, consistency := cfg.consistency) == cfg;
      assert Overshoots(cfg, cfg.resonate, cfg.consistency, SeedMasters(map[], cfg.masters), applied, pool, epoch, a);
    }
  }

  // Three keys that each report on two subjects in one epoch: trust leaps from nothing past
  // the cap.
  lemma SixReadingsBreakTheCap(cfg: Config, epoch: int, k: string, l: string, m: string)
    requires k != l && l != m && k != m && !cfg.IsGenesisMaster(cfg.addressOf(k)) && epoch >= 1 && SealsUnanimity(cfg)
    ensures var pool := [Report(k, "x", epoch), Report(l, "x", epoch), Report(m, "x", epoch),
                         Report(k, "y", epoch), Report(l, "y", epoch), Report(m, "y", epoch)];
            var t := SeedMasters(map[], cfg.masters);
            && Of(t, cfg.addressOf(k)) == BLANK
            && Of(TrustStep(cfg, t, [], pool, epoch), cfg.addressOf(k)).zti > MAX_ASCENT
  {
    hide TrustStep, Earned, SealsUnanimity, Unhindered, Sealable, Report, Unanimous, SeedMasters;
    var pool := [Report(k, "x", epoch), Report(l, "x", epoch), Report(m, "x", epoch),
                 Report(k, "y", epoch), Report(l, "y", epoch), Report(m, "y", epoch)];
    var w := Window(pool, epoch);
    ThreeReports(cfg, pool, "x", epoch, k, l, m);
    ThreeReports(cfg, pool, "y", epoch, k, l, m);
    assert Unanimous(w) by { ReportsAreUnanimous(w, pool, epoch); }
    assert "x"[0] != "y"[0];
    UnanimityIsUnhindered(cfg, w);
    TwoSubjectsBreakTheCap(cfg, [], pool, epoch, cfg.addressOf(k), "x", "y");
  }

  lemma ReportsAreUnanimous(window: seq<Obs>, pool: seq<Obs>, epoch: int)
    requires forall o :: o in window ==> o in pool
    requires forall o :: o in pool ==> exists key, subject :: o == Report(key, subject, epoch)
    ensures Unanimous(window)
  { }

  lemma ThreeReports(cfg: Config, pool: seq<Obs>, subject: string, epoch: int, k: string, l: string, m: string)
    requires Report(k, subject, epoch) in pool && Report(l, subject, epoch) in pool && Report(m, subject, epoch) in pool
    requires k != l && l != m && k != m
    ensures Sealable(cfg, Window(pool, epoch), subject, cfg.addressOf(k))
  {
    hide Sealable;
    var a, b, c := Report(k, subject, epoch), Report(l, subject, epoch), Report(m, subject, epoch);
    assert InWindow(a, epoch) && InWindow(b, epoch) && InWindow(c, epoch);
    ThreeObservers(cfg, Window(pool, epoch), subject, a, b, c);
  }

  lemma ThreeObservers(cfg: Config, window: seq<Obs>, subject: string, a: Obs, b: Obs, c: Obs)
    requires a in window && b in window && c in window && a.subject == b.subject == c.subject == subject
    requires a.observer != b.observer && b.observer != c.observer && a.observer != c.observer
    ensures Sealable(cfg, window, subject, cfg.addressOf(a.observer))
  {
    var s := ObserversOf(window, subject);
    var three := {a.observer, b.observer, c.observer};
    assert three <= s && |three| == 3;
    SubsetCount(three, s);
    assert a.observer in s;
  }
}
