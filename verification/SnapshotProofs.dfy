// What the state root commits to (computeStateRoot in consensus.ts), and the check a joining
// node makes before it adopts a peer's snapshot (verifyFastSyncSnapshot in ZiraNode.ts).
module SnapshotProofs {
  import opened Events
  import opened Seats
  import L = Ledger
  import opened Trust
  import opened Votes
  import opened Finality
  import opened Electorates

  // ---- the state root ----

  // No owner reads as the empty one, no price as 0.
  datatype SeatLeaf = SeatLeaf(codeHash: string, owner: Address, price: int, status: Status, zti: real,
                               contributionsOpen: bool)

  // The inputs of the root's hash. Vesting schedules are not among them.
  datatype RootInputs = RootInputs(
    accounts: map<Address, L.Account>, supply: L.Supply, founders: set<Address>, seats: map<string, SeatLeaf>,
    validators: set<Address>, poolBucket: Option<int>, beneficiaries: map<Address, Address>)

  function LeafOf(s: Seat): SeatLeaf {
    SeatLeaf(s.codeHash, if s.owner.None? then "" else s.owner.value, if s.price.None? then 0 else s.price.value,
             s.status, s.zti, s.contributionsOpen)
  }

  function RootInputsOf(l: L.Ledger): RootInputs {
    RootInputs(
      map a | a in l.accounts && l.accounts[a] != L.Account(0, 0) :: l.accounts[a],
      l.supply, l.founders,
      map id | id in l.seats :: LeafOf(l.seats[id]),
      set a | a in l.validators,
      if l.paidBucket > 0 then Some(l.paidBucket) else None,
      l.beneficiaries)
  }

  // What two ledgers with one root have in common.
  ghost predicate SameToTheRoot(l: L.Ledger, m: L.Ledger) {
    && (forall a :: l.Acct(a) == m.Acct(a))
    && l.supply == m.supply && l.founders == m.founders && l.beneficiaries == m.beneficiaries
    && (forall a :: a in l.validators <==> a in m.validators)
    && (l.paidBucket == m.paidBucket || (l.paidBucket <= 0 && m.paidBucket <= 0))
    && (forall id :: id in l.seats <==> id in m.seats)
    && (forall id :: id in l.seats && id in m.seats ==> LeafOf(l.seats[id]) == LeafOf(m.seats[id]))
  }

  lemma AccountLeavesAgreeIff(l: L.Ledger, m: L.Ledger)
    ensures RootInputsOf(l).accounts == RootInputsOf(m).accounts <==> forall a :: l.Acct(a) == m.Acct(a)
  {
    var x, y := RootInputsOf(l).accounts, RootInputsOf(m).accounts;
    assert forall a :: l.Acct(a) == if a in x then x[a] else L.Account(0, 0);
    assert forall a :: m.Acct(a) == if a in y then y[a] else L.Account(0, 0);
    if forall a :: l.Acct(a) == m.Acct(a) {
      forall a ensures a in x <==> a in y { assert l.Acct(a) == m.Acct(a); }
      forall a | a in x ensures x[a] == y[a] { assert l.Acct(a) == m.Acct(a); }
    }
  }

  lemma SeatLeavesAgreeIff(l: L.Ledger, m: L.Ledger)
    ensures RootInputsOf(l).seats == RootInputsOf(m).seats
       <==> && (forall id :: id in l.seats <==> id in m.seats)
            && (forall id :: id in l.seats && id in m.seats ==> LeafOf(l.seats[id]) == LeafOf(m.seats[id]))
  {
    hide LeafOf;
    var x, y := RootInputsOf(l).seats, RootInputsOf(m).seats;
    assert forall id :: id in x <==> id in l.seats;
    assert forall id :: id in y <==> id in m.seats;
    assert forall id :: id in x ==> x[id] == LeafOf(l.seats[id]);
    assert forall id :: id in y ==> y[id] == LeafOf(m.seats[id]);
    if (forall id :: id in l.seats <==> id in m.seats)
      && (forall id :: id in l.seats && id in m.seats ==> LeafOf(l.seats[id]) == LeafOf(m.seats[id])) {
      assert forall id :: id in x ==> x[id] == y[id];
    }
  }

  // The root sees exactly this much of a ledger: every account, committed or blank, the
  // supply, founders and beneficiaries, who validates, a positive watermark, and of each
  // seat its leaf.
  lemma RootSeesIff(l: L.Ledger, m: L.Ledger)
    ensures RootInputsOf(l) == RootInputsOf(m) <==> SameToTheRoot(l, m)
  {
    hide LeafOf;
    AccountLeavesAgreeIff(l, m);
    SeatLeavesAgreeIff(l, m);
    var x, y := RootInputsOf(l).validators, RootInputsOf(m).validators;
    assert forall a :: a in x <==> a in l.validators;
    assert forall a :: a in y <==> a in m.validators;
    assert x == y <==> forall a :: a in l.validators <==> a in m.validators;
  }

  // The seat t with the vesting schedule of s.
  function Revested(t: Seat, s: Seat): Seat {
    t.(vestTotal := s.vestTotal, vested := s.vested, vestStart := s.vestStart, vestDuration := s.vestDuration,
       vestBeneficiary := s.vestBeneficiary, vestFunder := s.vestFunder)
  }

  // So a vesting schedule may be anything: two ledgers that disagree on how much of a seat
  // vests, from when and to whom, have one root.
  lemma RootMissesVesting(l: L.Ledger, id: string, s: Seat)
    requires id in l.seats
    ensures var t := l.seats[id];
            var m := l.(seats := l.seats[id := Revested(t, s)]);
            RootInputsOf(m) == RootInputsOf(l) && (s.vestTotal != t.vestTotal ==> m != l)
  {
    var t := l.seats[id];
    var m := l.(seats := l.seats[id := Revested(t, s)]);
    assert forall a :: l.Acct(a) == m.Acct(a);
    assert m.seats[id].vestTotal == s.vestTotal;
    RootSeesIff(m, l);
  }

  // ---- the check ----

  datatype SnapAccount = SnapAccount(address: Address, key: string, zti: real, isMaster: bool)
  datatype Snap = Snap(ledger: L.Ledger, accounts: seq<SnapAccount>, finalizedEpoch: int, finalizedRoot: string,
                       votes: seq<Vote>)

  // The node's genesis, its finality switches, the root's hash and the signature check.
  datatype Checker = Checker(cfg: Config, singleFinalizer: int, leaderIndex: nat, rootOf: RootInputs -> string,
                             verify: Vote -> bool)
  {
    function Anchors(): seq<Address> { if cfg.masters == [] then [cfg.founder] else cfg.masters }
    function Leader(): Address { Anchors()[if leaderIndex < |Anchors()| then leaderIndex else |Anchors()| - 1] }

    predicate Lists(s: Snap, a: SnapAccount) {
      && a.isMaster && a.key != ""
      && (cfg.masters == [] || a.address in cfg.masters)
      && (Armed(singleFinalizer, s.finalizedEpoch) ==> a.address == Leader())
    }

    // The root as the check recomputes it: it leaves the beneficiaries out.
    function Recomputed(s: Snap): string { rootOf(RootInputsOf(s.ledger).(beneficiaries := map[])) }
  }

  function MastersByKey(c: Checker, s: Snap, accounts: seq<SnapAccount>): map<string, SnapAccount> {
    if accounts == [] then map[]
    else
      var a := accounts[|accounts| - 1];
      var before := MastersByKey(c, s, accounts[..|accounts| - 1]);
      if c.Lists(s, a) then before[a.key := a] else before
  }

  function MasterTotal(c: Checker, s: Snap, accounts: seq<SnapAccount>): real {
    if accounts == [] then 0.0
    else
      var a := accounts[|accounts| - 1];
      MasterTotal(c, s, accounts[..|accounts| - 1]) + (if c.Lists(s, a) then a.zti else 0.0)
  }

  function SnapElectorate(c: Checker, s: Snap): Electorate {
    var m := MastersByKey(c, s, s.accounts);
    Electorate(map k | k in m :: m[k].zti, MasterTotal(c, s, s.accounts))
  }

  predicate Backs(c: Checker, s: Snap, v: Vote) {
    && v.body.epoch == s.finalizedEpoch && v.body.root == s.finalizedRoot && c.verify(v)
    && v.voter in MastersByKey(c, s, s.accounts)
  }

  // The distinct listed masters among the voters.
  function Backers(c: Checker, s: Snap, votes: seq<Vote>): set<string> {
    set v | v in votes && Backs(c, s, v) :: v.voter
  }

  // A genesis master is among them.
  ghost predicate HasAnchor(c: Checker, s: Snap, backers: set<string>) {
    exists k :: k in backers && k in MastersByKey(c, s, s.accounts) &&
      MastersByKey(c, s, s.accounts)[k].address in c.Anchors()
  }

  ghost predicate Accepts(c: Checker, s: Snap) {
    c.Recomputed(s) == s.finalizedRoot && VotesSuffice(c, s)
  }

  // Everything the check asks but that the content hashes to the finalized root.
  ghost predicate VotesSuffice(c: Checker, s: Snap) {
    && s.finalizedEpoch >= 0 && s.finalizedRoot != "" && s.finalizedRoot != "00" && s.votes != []
    && SnapElectorate(c, s).total > 0.0
    && HasAnchor(c, s, Backers(c, s, s.votes))
    && TrustOf(SnapElectorate(c, s), Backers(c, s, s.votes)) / SnapElectorate(c, s).total >= FINALITY_THRESHOLD
  }

  method VerifyFastSyncSnapshot(c: Checker, s: Snap) returns (ok: bool)
    ensures ok == Accepts(c, s)
  {
    hide Backers, TrustOf, HasAnchor, MastersByKey, MasterTotal, RootInputsOf;
    if s.finalizedEpoch < 0 || s.finalizedRoot == "" || s.finalizedRoot == "00" { return false; }
    if s.votes == [] { return false; }
    if c.Recomputed(s) != s.finalizedRoot { return false; }
    var masterByPub, totalMaster := Collect(c, s);
    if totalMaster <= 0.0 { return false; }
    var counted: set<string>, supporting, anchoredToGenesis := {}, 0.0, false;
    ghost var e := SnapElectorate(c, s);
    CountStarts(c, s);
    for i := 0 to |s.votes|
      invariant counted == Backers(c, s, s.votes[..i]) && supporting == TrustOf(e, counted)
      invariant anchoredToGenesis <==> HasAnchor(c, s, counted)
    {
      var v := s.votes[i];
      CountStep(c, s, i);
      if v.body.epoch != s.finalizedEpoch || v.body.root != s.finalizedRoot || !c.verify(v) { continue; }
      if v.voter !in masterByPub || v.voter in counted { continue; }
      counted := counted + {v.voter};
      supporting := supporting + masterByPub[v.voter].zti;
      if masterByPub[v.voter].address in c.Anchors() { anchoredToGenesis := true; }
    }
    assert s.votes[..|s.votes|] == s.votes;
    ok := anchoredToGenesis && supporting / totalMaster >= FINALITY_THRESHOLD;
  }

  lemma CountStarts(c: Checker, s: Snap)
    ensures Backers(c, s, s.votes[..0]) == {} && TrustOf(SnapElectorate(c, s), {}) == 0.0 && !HasAnchor(c, s, {})
  { }

  // One vote more.
  lemma CountStep(c: Checker, s: Snap, i: nat)
    requires i < |s.votes|
    ensures var e, masters, v := SnapElectorate(c, s), MastersByKey(c, s, s.accounts), s.votes[i];
            var before, after := Backers(c, s, s.votes[..i]), Backers(c, s, s.votes[..i + 1]);
            if Backs(c, s, v) && v.voter !in before then
              && after == before + {v.voter} && TrustOf(e, after) == TrustOf(e, before) + masters[v.voter].zti
              && (HasAnchor(c, s, after) <==> HasAnchor(c, s, before) || masters[v.voter].address in c.Anchors())
            else after == before
  {
    hide MastersByKey, MasterTotal, TrustOf;
    var v := s.votes[i];
    BackersGrow(c, s, i);
    var before, after := Backers(c, s, s.votes[..i]), Backers(c, s, s.votes[..i + 1]);
    if Backs(c, s, v) && v.voter !in before {
      TrustWithout(SnapElectorate(c, s), after, v.voter);
      assert after - {v.voter} == before;
    }
  }

  method Collect(c: Checker, s: Snap) returns (m: map<string, SnapAccount>, total: real)
    ensures m == MastersByKey(c, s, s.accounts) && total == SnapElectorate(c, s).total
  {
    m, total := map[], 0.0;
    for i := 0 to |s.accounts|
      invariant m == MastersByKey(c, s, s.accounts[..i]) && total == MasterTotal(c, s, s.accounts[..i])
    {
      assert s.accounts[..i + 1][..i] == s.accounts[..i];
      var a := s.accounts[i];
      if c.Lists(s, a) {
        m := m[a.key := a];
        total := total + a.zti;
      }
    }
    assert s.accounts[..|s.accounts|] == s.accounts;
  }

  lemma BackersGrow(c: Checker, s: Snap, i: nat)
    requires i < |s.votes|
    ensures Backers(c, s, s.votes[..i + 1])
         == if Backs(c, s, s.votes[i]) then Backers(c, s, s.votes[..i]) + {s.votes[i].voter}
           else Backers(c, s, s.votes[..i])
  {
    assert forall v :: v in s.votes[..i + 1] <==> v in s.votes[..i] || v == s.votes[i];
  }

  // ---- what acceptance proves ----

  // An accepted snapshot hashes to a root that really has a quorum of the electorate it
  // lists, one of whose signers is a genesis master.
  lemma AcceptedIsFinal(c: Checker, s: Snap, cast: set<Vote>)
    requires Accepts(c, s) && forall v :: c.verify(v) && v in s.votes ==> v in cast
    ensures HasQuorum(SnapElectorate(c, s), cast, s.finalizedEpoch, s.finalizedRoot)
    ensures c.Recomputed(s) == s.finalizedRoot
    ensures exists k :: k in MastersByKey(c, s, s.accounts) && Signed(cast, k, s.finalizedEpoch, s.finalizedRoot)
                        && MastersByKey(c, s, s.accounts)[k].address in c.Anchors()
  {
    var e := SnapElectorate(c, s);
    var b := Backers(c, s, s.votes);
    forall k | k in b ensures Signed(cast, k, s.finalizedEpoch, s.finalizedRoot) && k in e.weights {
      var v :| v in s.votes && Backs(c, s, v) && v.voter == k;
      assert v in cast;
    }
    QuotientAtLeast(TrustOf(e, b), e.total, FINALITY_THRESHOLD);
    assert IsQuorum(e, cast, s.finalizedEpoch, s.finalizedRoot, b);
  }

  // So a node of the vote network may adopt it, if the electorate it lists is the network's
  // own, and from then on counts its root as final.
  lemma AcceptedMayBeAdopted(c: Checker, s: Snap, p: Protocol, net: VoteNet, i: nat, epoch: int, marks: bool)
    requires Accepts(c, s) && c.verify == p.verify && SnapElectorate(c, s) == p.electorate
    requires Sized(p, net) && i < |p.keys| && forall v :: v in s.votes && p.verify(v) ==> v in net.cast
    ensures var m := Adopt(i, epoch, (s.finalizedEpoch, s.finalizedRoot), marks);
            MayHappen(p, net, m) && (s.finalizedEpoch, c.Recomputed(s)) in Happened(p, net, m).decided[i]
  {
    hide HasQuorum;
    AcceptedIsFinal(c, s, net.cast);
  }

  // A joiner that accepts a snapshot whose listed electorate is the network's own adopts the
  // very root that the network finalized for that epoch.
  lemma AdoptedRootIsTheFinalizedOne(c: Checker, s: Snap, cast: set<Vote>, root: string)
    requires Accepts(c, s) && forall v :: c.verify(v) && v in s.votes ==> v in cast
    requires ProperWeights(SnapElectorate(c, s))
    requires TrustOf(SnapElectorate(c, s),
                     Equivocators(SnapElectorate(c, s), cast, s.finalizedEpoch)) < 0.34 * SnapElectorate(c, s).total
    requires HasQuorum(SnapElectorate(c, s), cast, s.finalizedEpoch, root)
    ensures c.Recomputed(s) == root
  {
    AcceptedIsFinal(c, s, cast);
    QuorumsAgree(SnapElectorate(c, s), cast, s.finalizedEpoch, s.finalizedRoot, root);
  }

  // The snapshot's root does not happen to be that of the same ledger without beneficiaries.
  predicate NoCollision(c: Checker, s: Snap) {
    var inputs := RootInputsOf(s.ledger);
    c.rootOf(inputs) == c.rootOf(inputs.(beneficiaries := map[])) ==> inputs == inputs.(beneficiaries := map[])
  }

  // Because the check leaves the beneficiaries out, an honest snapshot with sufficient votes
  // is accepted exactly if no miner has set a beneficiary.
  lemma HonestSnapshotPassesIff(c: Checker, s: Snap)
    requires s.finalizedRoot == c.rootOf(RootInputsOf(s.ledger)) && NoCollision(c, s)
    ensures Accepts(c, s) <==> VotesSuffice(c, s) && s.ledger.beneficiaries == map[]
  {
    hide VotesSuffice;
    var inputs := RootInputsOf(s.ledger);
    assert inputs.(beneficiaries := map[]) == inputs <==> s.ledger.beneficiaries == map[];
  }

  // One that is refused: a beneficiary is set, the root is the ledger's own, no hashes
  // collide, and the leader's vote is all the trust there is.
  lemma HonestSnapshotIsRefused(cfg: Config, l: L.Ledger, body: Body)
    requires l.beneficiaries != map[]
    requires body.root == "b" && body.epoch == 0
    ensures var rootOf := (x: RootInputs) => if x.beneficiaries == map[] then "a" else "b";
            var c := Checker(cfg, 0, 0, rootOf, v => true);
            var s := Snap(l, [SnapAccount(c.Leader(), "key", 1.0, true)], 0, "b", [Vote(body, "id", "key")]);
            s.finalizedRoot == c.rootOf(RootInputsOf(l)) && NoCollision(c, s) && VotesSuffice(c, s) && !Accepts(c, s)
  {
    var rootOf := (x: RootInputs) => if x.beneficiaries == map[] then "a" else "b";
    var c := Checker(cfg, 0, 0, rootOf, v => true);
    var a := SnapAccount(c.Leader(), "key", 1.0, true);
    var s := Snap(l, [a], 0, "b", [Vote(body, "id", "key")]);
    assert c.Lists(s, a) && s.accounts[..0] == [];
    assert MastersByKey(c, s, []) == map[] && MasterTotal(c, s, []) == 0.0;
    assert MastersByKey(c, s, s.accounts) == map["key" := a];
    assert SnapElectorate(c, s).weights == map["key" := 1.0] && SnapElectorate(c, s).total == 1.0;
    assert Backs(c, s, s.votes[0]);
    assert Backers(c, s, s.votes) == {"key"};
    TrustWithout(SnapElectorate(c, s), {"key"}, "key");
    assert {"key"} - {"key"} == {};
  }
}
