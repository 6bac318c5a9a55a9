// Who may finalize and with how much trust (totalMasterTrust, masterZtiMap and
// validatorWeightMap in State.ts), and the proof a fast-sync snapshot must carry
// (verifyFastSyncSnapshot in ZiraNode.ts).
module Electorates {
  import opened Events
  import opened Seats
  import L = Ledger
  import opened FieldPayout
  import opened Trust
  import opened Tenure
  import opened Votes
  import opened Finality

  // What the electorate is computed from. Accounts are listed in the order of the account map.
  datatype Roster = Roster(
    cfg: Config, accounts: seq<Address>, trust: TrustMap, keys: Keys,
    validators: seq<Address>, seats: SeatMap, epoch: int,
    singleFinalizer: int, leaderIndex: nat)
  {
    predicate SingleFinalizer() { Armed(singleFinalizer, epoch) }

    // finalityLeaderAddress
    function Leader(): Address {
      if cfg.masters == [] then cfg.Settler()
      else cfg.masters[if leaderIndex < |cfg.masters| then leaderIndex else |cfg.masters| - 1]
    }

    function LeaderTrust(): real {
      if Of(trust, Leader()).isMaster then Of(trust, Leader()).zti else MASTER_ZTI
    }

    // A committed validator votes at its best seat's class trust, or at the master baseline.
    ghost function ValidatorTrust(a: Address): real {
      if exists id :: OwnedBy(seats, id, a) then BestOwned(seats, a) else MASTER_ZTI
    }

    // The trust an account brings to the electorate, if it counts at all.
    ghost function Counts(a: Address): Option<real> {
      if cfg.masters != [] && !cfg.IsGenesisMaster(a) then
        if Armed(cfg.decentralization, epoch) && a in validators then Some(ValidatorTrust(a)) else None
      else if Of(trust, a).isMaster then Some(Of(trust, a).zti) else None
    }

    // The signing key of an account; "" when it is not known.
    function KeyOf(a: Address): string { if a in keys then keys[a] else "" }
  }

  ghost function SumTrust(r: Roster, accounts: seq<Address>): real {
    if accounts == [] then 0.0
    else
      var c := r.Counts(accounts[|accounts| - 1]);
      SumTrust(r, accounts[..|accounts| - 1]) + (if c.Some? then c.value else 0.0)
  }

  ghost function CollectKeys(r: Roster, accounts: seq<Address>): map<string, real> {
    if accounts == [] then map[]
    else
      var a := accounts[|accounts| - 1];
      var before := CollectKeys(r, accounts[..|accounts| - 1]);
      if r.KeyOf(a) != "" && r.Counts(a).Some? then before[r.KeyOf(a) := r.Counts(a).value] else before
  }

  // masterZtiMap and totalMasterTrust together.
  ghost function ElectorateOf(r: Roster): Electorate {
    if r.SingleFinalizer() then
      Electorate(if r.KeyOf(r.Leader()) == "" then map[]
                 else map[r.KeyOf(r.Leader()) := r.LeaderTrust()], r.LeaderTrust())
    else Electorate(CollectKeys(r, r.accounts), SumTrust(r, r.accounts))
  }

  // validatorWeightMap
  method ValidatorWeightMap(r: Roster) returns (m: map<Address, real>)
    ensures forall a :: a in m <==> a in r.validators
    ensures forall a :: a in m ==> m[a] == r.ValidatorTrust(a)
  {
    m := map[];
    var left := r.seats.Keys;
    while left != {}
      invariant left <= r.seats.Keys && WeightsSoFar(r, r.seats.Keys - left, m)
      decreases |left|
    {
      var id :| id in left;
      ghost var seen := r.seats.Keys - left;
      left := left - {id};
      assert r.seats.Keys - left == seen + {id};
      OneSeatMore(r, seen, id, m);
      if r.seats[id].owner.Some? && r.seats[id].owner.value in r.validators {
        var a := r.seats[id].owner.value;
        m := m[a := Max(if a in m then m[a] else 0.0, r.seats[id].zti)];
      }
    }
    assert r.seats.Keys - left == r.seats.Keys;
    AllSeatsSeen(r, m);
    ghost var owners := m.Keys;
    for i := 0 to |r.validators|
      invariant forall a :: a in m <==> a in owners || a in r.validators[..i]
      invariant forall a :: a in m ==> m[a] == r.ValidatorTrust(a)
    {
      if r.validators[i] !in m { m := m[r.validators[i] := MASTER_ZTI]; }
    }
  }

  // After some seats: the validators that own one of them, each with its best.
  ghost predicate WeightsSoFar(r: Roster, seen: set<string>, m: map<Address, real>) {
    && (forall a :: a in m <==> a in r.validators && OwnsOne(r.seats, seen, a))
    && (forall a :: a in m ==> BestSoFar(r.seats, seen, a, m[a]))
  }

  ghost predicate OwnsOne(seats: SeatMap, ids: set<string>, a: Address) {
    exists id :: id in ids && OwnedBy(seats, id, a)
  }

  lemma OneSeatMore(r: Roster, seen: set<string>, id: string, m: map<Address, real>)
    requires WeightsSoFar(r, seen, m) && id in r.seats
    ensures var seat := r.seats[id];
            WeightsSoFar(r, seen + {id},
              if seat.owner.Some? && seat.owner.value in r.validators
              then m[seat.owner.value := Max(if seat.owner.value in m then m[seat.owner.value] else 0.0, seat.zti)]
              else m)
  {
    forall a
      ensures OwnsOne(r.seats, seen + {id}, a) <==> OwnsOne(r.seats, seen, a) || r.seats[id].owner == Some(a)
    {
      if r.seats[id].owner == Some(a) { assert id in seen + {id} && OwnedBy(r.seats, id, a); }
      if OwnsOne(r.seats, seen, a) {
        var i :| i in seen && OwnedBy(r.seats, i, a);
        assert i in seen + {id};
      }
    }
    forall a | a in m ensures OwnsOne(r.seats, seen, a) && BestSoFar(r.seats, seen, a, m[a]) { }
    forall a, best | BestSoFar(r.seats, seen, a, best)
      ensures BestSoFar(r.seats, seen + {id}, a,
                        if r.seats[id].owner == Some(a) then Max(best, r.seats[id].zti) else best)
    {
      BestWithOneMore(r.seats, seen, a, best, id);
    }
    forall a ensures !OwnsOne(r.seats, seen, a) ==> BestSoFar(r.seats, seen, a, 0.0) { }
  }

  lemma BestWithOneMore(seats: SeatMap, seen: set<string>, a: Address, best: real, id: string)
    requires BestSoFar(seats, seen, a, best) && id in seats
    ensures BestSoFar(seats, seen + {id}, a, if seats[id].owner == Some(a) then Max(best, seats[id].zti) else best)
  {
    if best > 0.0 {
      var i :| i in seen && OwnedBy(seats, i, a) && seats[i].zti == best;
      assert i in seen + {id};
    }
    assert id in seen + {id};
  }

  lemma AllSeatsSeen(r: Roster, m: map<Address, real>)
    requires WeightsSoFar(r, r.seats.Keys, m)
    ensures forall a :: a in m ==> a in r.validators && m[a] == r.ValidatorTrust(a)
    ensures forall a :: a in r.validators && a !in m ==> r.ValidatorTrust(a) == MASTER_ZTI
  {
    forall a | a in m ensures m[a] == r.ValidatorTrust(a) {
      BestIsBest(r.seats, a, m[a]);
    }
    forall a | a in r.validators && a !in m ensures r.ValidatorTrust(a) == MASTER_ZTI {
      assert forall id :: OwnedBy(r.seats, id, a) ==> id in r.seats.Keys;
      assert !OwnsOne(r.seats, r.seats.Keys, a);
    }
  }

  // The best class trust among some seats.
  ghost predicate BestSoFar(seats: SeatMap, ids: set<string>, a: Address, best: real) {
    && best >= 0.0
    && (forall id :: id in ids && OwnedBy(seats, id, a) ==> seats[id].zti <= best)
    && (best > 0.0 ==> exists id :: id in ids && OwnedBy(seats, id, a) && seats[id].zti == best)
  }

  // What one account adds, given the weights of the validators.
  method Counted(r: Roster, w: map<Address, real>, a: Address) returns (c: Option<real>)
    requires forall v :: v in w <==> v in r.validators
    requires forall v :: v in w ==> w[v] == r.ValidatorTrust(v)
    ensures c == r.Counts(a)
  {
    if r.cfg.masters != [] && !r.cfg.IsGenesisMaster(a) {
      if Armed(r.cfg.decentralization, r.epoch) && a in r.validators { return Some(w[a]); }
      return None;
    }
    c := if Of(r.trust, a).isMaster then Some(Of(r.trust, a).zti) else None;
  }

  method TotalMasterTrust(r: Roster) returns (t: real)
    ensures t == ElectorateOf(r).total
  {
    if r.SingleFinalizer() { return r.LeaderTrust(); }
    var w := ValidatorWeightMap(r);
    t := 0.0;
    for i := 0 to |r.accounts|
      invariant t == SumTrust(r, r.accounts[..i])
    {
      assert r.accounts[..i + 1][..i] == r.accounts[..i];
      var c := Counted(r, w, r.accounts[i]);
      if c.Some? { t := t + c.value; }
    }
    assert r.accounts[..|r.accounts|] == r.accounts;
  }

  method MasterZtiMap(r: Roster) returns (m: map<string, real>)
    ensures m == ElectorateOf(r).weights
  {
    m := map[];
    if r.SingleFinalizer() {
      if r.KeyOf(r.Leader()) != "" { m := m[r.KeyOf(r.Leader()) := r.LeaderTrust()]; }
      return;
    }
    var w := ValidatorWeightMap(r);
    for i := 0 to |r.accounts|
      invariant m == CollectKeys(r, r.accounts[..i])
    {
      assert r.accounts[..i + 1][..i] == r.accounts[..i];
      var a := r.accounts[i];
      var c := Counted(r, w, a);
      if r.KeyOf(a) != "" && c.Some? { m := m[r.KeyOf(a) := c.value]; }
    }
    assert r.accounts[..|r.accounts|] == r.accounts;
  }

  // ---- no vote set exceeds the whole ----

  lemma CountsIsNotNegative(r: Roster, a: Address)
    requires Earned(r.cfg, r.trust, r.epoch) && r.epoch >= 0
    ensures r.Counts(a).Some? ==> r.Counts(a).value >= 0.0
  {
    EarnedAt(r.cfg, r.trust, r.epoch, a);
    BestIsBest(r.seats, a, BestOwned(r.seats, a));
  }

  lemma TrustAfterPut(m: map<string, real>, total: real, x: string, w: real)
    ensures var e, f := Electorate(m, total), Electorate(m[x := w], total);
            TrustOf(f, f.weights.Keys) == TrustOf(e, m.Keys) - (if x in m then m[x] else 0.0) + w
  {
    var e, f := Electorate(m, total), Electorate(m[x := w], total);
    TrustWithout(f, f.weights.Keys, x);
    if x in m { TrustWithout(e, m.Keys, x); }
    assert f.weights.Keys - {x} == m.Keys - {x};
    TrustElsewhere(e, f, m.Keys - {x});
    if x !in m { assert m.Keys - {x} == m.Keys; }
  }

  lemma {:induction false} TrustElsewhere(e: Electorate, f: Electorate, s: set<string>)
    requires forall x :: x in s ==> WeightIn(e, x) == WeightIn(f, x)
    ensures TrustOf(e, s) == TrustOf(f, s)
  {
    if s != {} {
      var x :| x in s;
      TrustElsewhere(e, f, s - {x});
      TrustWithout(e, s, x);
      TrustWithout(f, s, x);
    }
  }

  // The total is only a parameter here: TrustOf looks at the weights alone.
  ghost function Mass(m: map<string, real>): real { TrustOf(Electorate(m, 1.0), m.Keys) }

  lemma MassIsTrust(e: Electorate)
    ensures TrustOf(e, e.weights.Keys) == Mass(e.weights)
  {
    TrustElsewhere(e, Electorate(e.weights, 1.0), e.weights.Keys);
  }

  lemma {:induction false} KeysAreNotNegative(r: Roster, accounts: seq<Address>)
    requires Earned(r.cfg, r.trust, r.epoch) && r.epoch >= 0
    ensures forall x :: x in CollectKeys(r, accounts) ==> CollectKeys(r, accounts)[x] >= 0.0
  {
    if accounts != [] {
      KeysAreNotNegative(r, accounts[..|accounts| - 1]);
      CountsIsNotNegative(r, accounts[|accounts| - 1]);
    }
  }

  lemma {:induction false} MassIsAtMostSum(r: Roster, accounts: seq<Address>)
    requires Earned(r.cfg, r.trust, r.epoch) && r.epoch >= 0
    ensures Mass(CollectKeys(r, accounts)) <= SumTrust(r, accounts)
  {
    if accounts != [] {
      var n := |accounts| - 1;
      var before := CollectKeys(r, accounts[..n]);
      MassIsAtMostSum(r, accounts[..n]);
      KeysAreNotNegative(r, accounts[..n]);
      CountsIsNotNegative(r, accounts[n]);
      if r.Counts(accounts[n]).Some? { TrustAfterPut(before, 1.0, r.KeyOf(accounts[n]), r.Counts(accounts[n]).value); }
    } else {
      assert CollectKeys(r, accounts) == map[];
    }
  }

  // Counted accounts have known keys, and different accounts different ones.
  ghost predicate DistinctKeys(r: Roster, accounts: seq<Address>) {
    && (forall i :: 0 <= i < |accounts| && r.Counts(accounts[i]).Some? ==> r.KeyOf(accounts[i]) != "")
    && (forall i, j :: 0 <= i < j < |accounts| && r.Counts(accounts[i]).Some? && r.Counts(accounts[j]).Some? ==>
          r.KeyOf(accounts[i]) != r.KeyOf(accounts[j]))
  }

  lemma {:induction false} CollectedFrom(r: Roster, accounts: seq<Address>, x: string)
    requires x in CollectKeys(r, accounts)
    ensures exists i :: 0 <= i < |accounts| && r.Counts(accounts[i]).Some? && r.KeyOf(accounts[i]) == x
  {
    var n := |accounts| - 1;
    if !(r.Counts(accounts[n]).Some? && r.KeyOf(accounts[n]) == x) {
      CollectedFrom(r, accounts[..n], x);
      var i :| 0 <= i < n && r.Counts(accounts[..n][i]).Some? && r.KeyOf(accounts[..n][i]) == x;
      assert accounts[i] == accounts[..n][i];
    }
  }

  lemma {:induction false} MassIsSum(r: Roster, accounts: seq<Address>)
    requires DistinctKeys(r, accounts)
    ensures Mass(CollectKeys(r, accounts)) == SumTrust(r, accounts)
  {
    if accounts != [] {
      var n := |accounts| - 1;
      var before := CollectKeys(r, accounts[..n]);
      MassIsSum(r, accounts[..n]);
      if r.Counts(accounts[n]).Some? {
        var key := r.KeyOf(accounts[n]);
        if key in before { CollectedFrom(r, accounts[..n], key); }
        TrustAfterPut(before, 1.0, key, r.Counts(accounts[n]).value);
      }
    } else {
      assert CollectKeys(r, accounts) == map[];
    }
  }

  // ---- who votes, and with how much ----

  // A genesis master - anybody on a network without a master set - votes while it is a master,
  // with its trust. A sealed validator votes once decentralization is armed, with the best of
  // its seats, or with 0.7 if it has none.
  ghost predicate VotesWith(r: Roster, a: Address, w: real) {
    if r.cfg.masters == [] || a in r.cfg.masters then a in r.trust && r.trust[a].isMaster && w == r.trust[a].zti
    else
      && 0 < r.cfg.decentralization <= r.epoch && a in r.validators
      && if exists id :: id in r.seats && r.seats[id].owner == Some(a) then BestSoFar(r.seats, r.seats.Keys, a, w)
         else w == 0.7
  }

  lemma CountsIff(r: Roster, a: Address, w: real)
    ensures r.Counts(a) == Some(w) <==> VotesWith(r, a, w)
  {
    hide BestOwned, BestOver;
    BestIsBest(r.seats, a, w);
    assert (exists id :: id in r.seats && r.seats[id].owner == Some(a)) <==> (exists id :: OwnedBy(r.seats, id, a)) by {
      if id :| id in r.seats && r.seats[id].owner == Some(a) { assert OwnedBy(r.seats, id, a); }
    }
  }

  lemma {:induction false} CollectedIff(r: Roster, accounts: seq<Address>, key: string, w: real)
    requires DistinctKeys(r, accounts)
    ensures (key in CollectKeys(r, accounts) && CollectKeys(r, accounts)[key] == w)
       <==> key != "" && exists i ::
                           0 <= i < |accounts| && r.Counts(accounts[i]) == Some(w) && r.KeyOf(accounts[i]) == key
  {
    if accounts != [] {
      var n := |accounts| - 1;
      var before := CollectKeys(r, accounts[..n]);
      CollectedIff(r, accounts[..n], key, w);
      assert forall i :: 0 <= i < n ==> accounts[..n][i] == accounts[i];
      if key in before {
        CollectedFrom(r, accounts[..n], key);
        var i :| 0 <= i < n && r.Counts(accounts[..n][i]).Some? && r.KeyOf(accounts[..n][i]) == key;
        assert accounts[i] == accounts[..n][i];
      }
    }
  }

  // A key votes with a weight exactly if it is the known key of an account that does; under a
  // single finalizer, exactly if it is the leader's.
  lemma ElectorateIsWho(r: Roster, key: string, w: real)
    requires DistinctKeys(r, r.accounts)
    ensures var e := ElectorateOf(r);
            (key in e.weights && e.weights[key] == w)
              <==> if 0 < r.singleFinalizer <= r.epoch then LeadsWith(r, key, w)
                   else key != "" && exists a ::
                                       a in r.accounts && a in r.keys && r.keys[a] == key && VotesWith(r, a, w)
  {
    hide CollectKeys, SumTrust, VotesWith;
    CollectedIff(r, r.accounts, key, w);
    forall a ensures r.Counts(a) == Some(w) <==> VotesWith(r, a, w) { CountsIff(r, a, w); }
    if !r.SingleFinalizer() && key != "" {
      if i :| 0 <= i < |r.accounts| && r.Counts(r.accounts[i]) == Some(w) && r.KeyOf(r.accounts[i]) == key {
        assert r.accounts[i] in r.accounts;
      }
      if a :| a in r.accounts && a in r.keys && r.keys[a] == key && VotesWith(r, a, w) {
        var i :| 0 <= i < |r.accounts| && r.accounts[i] == a;
      }
    }
  }

  // The appointed genesis master, or the last one if there are not so many; with its trust
  // while it is a master, and with 0.7 otherwise.
  ghost predicate LeadsWith(r: Roster, key: string, w: real) {
    var a := if r.cfg.masters == [] then r.cfg.founder
             else if r.leaderIndex < |r.cfg.masters| then r.cfg.masters[r.leaderIndex]
             else r.cfg.masters[|r.cfg.masters| - 1];
    && key != "" && a in r.keys && r.keys[a] == key
    && w == if a in r.trust && r.trust[a].isMaster then r.trust[a].zti else 0.7
  }

  // In every mode - single finalizer, gated and dormant, gated and decentralized, ungated -
  // the weights in the vote map add up to at most the total they are measured against, so no
  // set of votes reaches more than 100%.
  lemma ElectorateIsConsistent(r: Roster)
    requires Earned(r.cfg, r.trust, r.epoch) && r.epoch >= 0
    ensures var e := ElectorateOf(r);
            && (forall x :: x in e.weights ==> e.weights[x] >= 0.0)
            && TrustOf(e, e.weights.Keys) <= e.total
  {
    var e := ElectorateOf(r);
    MassIsTrust(e);
    if r.SingleFinalizer() {
      EarnedAt(r.cfg, r.trust, r.epoch, r.Leader());
      SingleMass(r);
    } else {
      MassIsAtMostSum(r, r.accounts);
      KeysAreNotNegative(r, r.accounts);
    }
  }

  lemma SingleMass(r: Roster)
    requires r.SingleFinalizer() && Earned(r.cfg, r.trust, r.epoch) && r.epoch >= 0
    ensures r.LeaderTrust() >= MASTER_ZTI
    ensures Mass(ElectorateOf(r).weights) == if r.KeyOf(r.Leader()) == "" then 0.0 else r.LeaderTrust()
  {
    EarnedAt(r.cfg, r.trust, r.epoch, r.Leader());
    TrustAfterPut(map[], 1.0, r.KeyOf(r.Leader()), r.LeaderTrust());
    var none: map<string, real> := map[];
    assert none[r.KeyOf(r.Leader()) := r.LeaderTrust()] == map[r.KeyOf(r.Leader()) := r.LeaderTrust()];
    assert Mass(none) == 0.0;
  }

  // With distinct known keys the votes can reach exactly 100%.
  lemma ElectorateIsExact(r: Roster)
    requires Earned(r.cfg, r.trust, r.epoch) && r.epoch >= 0
    requires if r.SingleFinalizer() then r.KeyOf(r.Leader()) != "" else DistinctKeys(r, r.accounts)
    ensures TrustOf(ElectorateOf(r), ElectorateOf(r).weights.Keys) == ElectorateOf(r).total
  {
    MassIsTrust(ElectorateOf(r));
    if r.SingleFinalizer() { SingleMass(r); } else { MassIsSum(r, r.accounts); }
  }
}
