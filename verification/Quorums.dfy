// That finality comes: a root is finalized exactly when voters of the electorate that hold
// the threshold stand behind it, and whenever enough votes have reached a node.
module Quorums {
  import opened Events
  import opened Order
  import opened Votes
  import opened Finality

  // The electorate's members among the voters.
  ghost function Members(e: Electorate, votes: seq<Vote>): set<string> {
    set v | v in votes && v.voter in e.weights :: v.voter
  }

  ghost predicate Suffices(e: Electorate, s: set<string>) {
    e.total > 0.0 && s != {} && TrustOf(e, s) >= FINALITY_THRESHOLD * e.total
  }

  // A checkpoint that says what a bucket's votes say: signed by exactly its members, each
  // once, with their share of the trust.
  ghost predicate Certifies(e: Electorate, b: Bucket, f: Final) {
    && (exists v :: v in b.votes && v.voter in e.weights && v.body == f.body)
    && (forall x :: x in f.voters <==> x in Members(e, b.votes)) && |f.voters| == |Members(e, b.votes)|
    && f.support * e.total == TrustOf(e, Members(e, b.votes))
  }

  lemma OneVoteMore(e: Electorate, votes: seq<Vote>, v: Vote)
    ensures Members(e, votes + [v]) == if v.voter in e.weights then Members(e, votes) + {v.voter} else Members(e, votes)
    ensures Voters(votes + [v]) == Voters(votes) + {v.voter}
    ensures Members(e, votes) <= Voters(votes)
    ensures Eligible(e, votes + [v]) == if v.voter in e.weights then Eligible(e, votes) + [v] else Eligible(e, votes)
  {
    assert forall u :: u in votes + [v] <==> u in votes || u == v;
    assert (votes + [v])[..|votes|] == votes;
  }

  lemma OnceBefore(votes: seq<Vote>, v: Vote)
    requires OncePerVoter(votes + [v])
    ensures OncePerVoter(votes) && v.voter !in Voters(votes)
  {
    var all := votes + [v];
    forall i, j | 0 <= i < j < |votes| ensures votes[i].voter != votes[j].voter {
      assert all[i] == votes[i] && all[j] == votes[j];
    }
    forall u | u in votes ensures u.voter != v.voter {
      var i :| 0 <= i < |votes| && votes[i] == u;
      assert all[i] == u && all[|votes|] == v;
    }
  }

  lemma {:induction false} EligibleAreMembers(e: Electorate, votes: seq<Vote>)
    requires OncePerVoter(votes)
    ensures Voters(Eligible(e, votes)) == Members(e, votes) && |Eligible(e, votes)| == |Members(e, votes)|
  {
    hide Members, Voters, Eligible, OncePerVoter;
    if votes == [] {
      NoVotes(e);
    } else {
      assert votes == votes[..|votes| - 1] + [votes[|votes| - 1]];
      OnceBefore(votes[..|votes| - 1], votes[|votes| - 1]);
      EligibleAreMembers(e, votes[..|votes| - 1]);
      MembersGrow(e, votes[..|votes| - 1], votes[|votes| - 1]);
    }
  }

  lemma NoVotes(e: Electorate)
    ensures Eligible(e, []) == [] && Voters([]) == {} && Members(e, []) == {}
  { }

  lemma MembersGrow(e: Electorate, votes: seq<Vote>, v: Vote)
    requires v.voter !in Voters(votes)
    requires Voters(Eligible(e, votes)) == Members(e, votes) && |Eligible(e, votes)| == |Members(e, votes)|
    ensures Voters(Eligible(e, votes + [v])) == Members(e, votes + [v])
    ensures |Eligible(e, votes + [v])| == |Members(e, votes + [v])|
  {
    hide Members, Voters, Eligible;
    OneVoteMore(e, votes, v);
    OneVoteMore(e, Eligible(e, votes), v);
  }

  lemma RatioReaches(a: real, b: real, c: real)
    requires b > 0.0
    ensures a / b >= c <==> a >= c * b
    ensures a / b * b == a
  { }

  // The first bucket passes the test exactly if its members suffice, and then its result
  // certifies it.
  lemma FirstBucketIff(e: Electorate, b: Bucket)
    requires OncePerVoter(b.votes) && e.total > 0.0
    ensures var group := Eligible(e, b.votes);
            && (group != [] && Support(e, group) / e.total >= FINALITY_THRESHOLD <==> Suffices(e, Members(e, b.votes)))
            && (group != [] ==> Certifies(e, b, Final(group[0].body, Support(e, group) / e.total, VotersOf(group))))
  {
    hide Eligible, Support, TrustOf, Members, Voters, VotersOf, Certifies;
    var group := Eligible(e, b.votes);
    EligibleAreMembers(e, b.votes);
    EligibleOncePerVoter(e, b.votes);
    SupportIsTrust(e, group);
    RatioReaches(TrustOf(e, Members(e, b.votes)), e.total, FINALITY_THRESHOLD);
    if group == [] { NoVotes(e); } else { CertifiesGroup(e, b, group); }
  }

  lemma CertifiesGroup(e: Electorate, b: Bucket, group: seq<Vote>)
    requires group == Eligible(e, b.votes) && group != [] && e.total > 0.0
    requires Voters(group) == Members(e, b.votes) && |group| == |Members(e, b.votes)|
    requires Support(e, group) == TrustOf(e, Members(e, b.votes))
    ensures Members(e, b.votes) != {}
    ensures Certifies(e, b, Final(group[0].body, Support(e, group) / e.total, VotersOf(group)))
  {
    hide Support, Eligible, TrustOf, Members, Voters, VotersOf;
    RatioReaches(Support(e, group), e.total, 0.0);
    VotersOfAre(group);
    assert group[0] in b.votes && group[0].voter in e.weights;
    assert group[0].voter in Voters(group) by { VoterIsAmong(group, 0); }
  }

  lemma VoterIsAmong(group: seq<Vote>, i: nat)
    requires i < |group|
    ensures group[i].voter in Voters(group)
  {
    assert group[i] in group;
  }

  lemma VotersOfAre(group: seq<Vote>)
    ensures forall x :: x in VotersOf(group) <==> x in Voters(group)
  {
    var voters := VotersOf(group);
    forall x | x in voters ensures x in Voters(group) {
      var i :| 0 <= i < |voters| && voters[i] == x;
      assert group[i] in group;
    }
    forall x | x in Voters(group) ensures x in voters {
      var v :| v in group && v.voter == x;
      var i :| 0 <= i < |group| && group[i] == v;
      assert voters[i] == x;
    }
  }

  // tryFinalize finds a root exactly if some bucket's members suffice; it takes the first
  // such bucket and certifies it.
  lemma {:induction false} FinalizesIff(e: Electorate, buckets: seq<Bucket>)
    requires forall k :: 0 <= k < |buckets| ==> OncePerVoter(buckets[k].votes)
    ensures TryFinalize(e, buckets).Some? <==>
              exists k :: 0 <= k < |buckets| && Suffices(e, Members(e, buckets[k].votes))
    ensures TryFinalize(e, buckets).Some? ==>
              exists k :: 0 <= k < |buckets| && Suffices(e, Members(e, buckets[k].votes))
                          && Certifies(e, buckets[k], TryFinalize(e, buckets).value)
                          && forall j :: 0 <= j < k ==> !Suffices(e, Members(e, buckets[j].votes))
    decreases |buckets|
  {
    hide Certifies, Members, Support, Eligible;
    if buckets != [] && e.total > 0.0 {
      FirstBucketIff(e, buckets[0]);
      FinalizesIff(e, buckets[1..]);
      if Suffices(e, Members(e, buckets[0].votes)) {
      } else {
        assert forall k :: 0 <= k < |buckets| - 1 ==> buckets[1..][k] == buckets[k + 1];
        if TryFinalize(e, buckets).Some? {
          var k :| 0 <= k < |buckets| - 1 && Suffices(e, Members(e, buckets[1..][k].votes))
                   && Certifies(e, buckets[1..][k], TryFinalize(e, buckets).value)
                   && forall j :: 0 <= j < k ==> !Suffices(e, Members(e, buckets[1..][j].votes));
          forall j | 0 <= j < k + 1 ensures !Suffices(e, Members(e, buckets[j].votes)) {
            assert j > 0 ==> buckets[j] == buckets[1..][j - 1];
          }
          assert buckets[k + 1] == buckets[1..][k];
        }
      }
    }
  }

  // ---- what a node has stored ----

  // The voters whose votes for a root a node has stored.
  ghost function VotersFor(buckets: seq<Bucket>, root: string): set<string> {
    set k, v | 0 <= k < |buckets| && buckets[k].root == root && v in buckets[k].votes :: v.voter
  }

  ghost function StoredFor(b: Book, epoch: int, root: string): set<string> {
    VotersFor(if epoch in b.votes then b.votes[epoch] else [], root)
  }

  // Storing a vote adds its voter to those of its root, and nothing else.
  lemma StoreAdds(buckets: seq<Bucket>, v: Vote, root: string)
    ensures VotersFor(Store(buckets, v), root)
         == VotersFor(buckets, root) + (if root == v.body.root then {v.voter} else {})
  {
    var k := PlaceOf(RootKey(), buckets, v.body.root);
    var after := Store(buckets, v);
    if k < |buckets| && HasVoted(buckets[k].votes, v.voter) {
      var i :| 0 <= i < |buckets[k].votes| && buckets[k].votes[i].voter == v.voter;
      assert buckets[k].root == v.body.root && buckets[k].votes[i] in buckets[k].votes;
      assert v.voter in VotersFor(buckets, v.body.root);
    } else {
      assert after[k].root == v.body.root && v in after[k].votes;
    }
    StoreKeepsVoters(buckets, v, root);
    StoreAddsNoOther(buckets, v, root);
  }

  lemma StoreKeepsVoters(buckets: seq<Bucket>, v: Vote, root: string)
    ensures VotersFor(buckets, root) <= VotersFor(Store(buckets, v), root)
  {
    var after := Store(buckets, v);
    forall x | x in VotersFor(buckets, root) ensures x in VotersFor(after, root) {
      var i, u :| 0 <= i < |buckets| && buckets[i].root == root && u in buckets[i].votes && u.voter == x;
      assert after[i].root == root && u in after[i].votes;
    }
  }

  lemma StoreAddsNoOther(buckets: seq<Bucket>, v: Vote, root: string)
    ensures VotersFor(Store(buckets, v), root)
         <= VotersFor(buckets, root) + (if root == v.body.root then {v.voter} else {})
  {
    var after := Store(buckets, v);
    forall x | x in VotersFor(after, root)
      ensures x in VotersFor(buckets, root) || (root == v.body.root && x == v.voter)
    {
      var i, u :| 0 <= i < |after| && after[i].root == root && u in after[i].votes && u.voter == x;
      if i < |buckets| { assert buckets[i].root == root; }
    }
  }

  lemma OneBucketEach(e: Electorate, cast: set<Vote>, epoch: int, buckets: seq<Bucket>, k: nat)
    requires GoodBuckets(cast, epoch, buckets) && k < |buckets|
    ensures Members(e, buckets[k].votes) == VotersFor(buckets, buckets[k].root) * e.weights.Keys
  {
    var all := VotersFor(buckets, buckets[k].root);
    forall x | x in all * e.weights.Keys ensures x in Members(e, buckets[k].votes) {
      var i, u :| 0 <= i < |buckets| && buckets[i].root == buckets[k].root && u in buckets[i].votes && u.voter == x;
      assert i == k;
    }
  }

  // Who stands behind a root once the vote is counted too.
  ghost function Backing(e: Electorate, b: Book, v: Vote, root: string): set<string> {
    (StoredFor(b, v.body.epoch, root) + (if root == v.body.root then {v.voter} else {})) * e.weights.Keys
  }

  ghost predicate FinalFor(e: Electorate, f: Final, epoch: int, root: string, backing: set<string>) {
    && f.body.epoch == epoch && f.body.root == root
    && (forall x :: x in f.voters <==> x in backing) && |f.voters| == |backing|
    && f.support * e.total == TrustOf(e, backing)
  }

  // A vote finalizes something exactly if its id is new, it is genuine and of the network and
  // the electorate, its epoch is undecided, and with it the backing of some root suffices.
  // The result is a checkpoint of such a root, by exactly its backers.
  lemma DecisionIff(network: string, verify: Vote -> bool, e: Electorate, cast: set<Vote>, b: Book, v: Vote)
    requires GoodBook(cast, b) && (verify(v) ==> v in cast)
    ensures Decision(network, verify, e, b, v).Some? <==>
              && v.id !in b.seen && v.body.network == network && v.voter in e.weights && verify(v)
              && v.body.epoch !in b.finalized
              && exists root :: Suffices(e, Backing(e, b, v, root))
    ensures Decision(network, verify, e, b, v).Some? ==>
              exists root :: Suffices(e, Backing(e, b, v, root))
                             && FinalFor(e, Decision(network, verify, e, b, v).value, v.body.epoch, root,
                                         Backing(e, b, v, root))
  {
    hide TryFinalize, Certifies, GoodBuckets, Members, Store, VotersFor, OncePerVoter;
    if Takes(network, verify, e, b, v) && v.body.epoch !in b.finalized {
      CountedKeepsGood(cast, b, v);
      var epoch := v.body.epoch;
      var before := if epoch in b.votes then b.votes[epoch] else [];
      var buckets := Counted(b, v).votes[epoch];
      assert GoodBuckets(cast, epoch, buckets);
      BucketsOnce(cast, epoch, buckets);
      FinalizesIff(e, buckets);
      forall root ensures Backing(e, b, v, root) == VotersFor(buckets, root) * e.weights.Keys {
        StoreAdds(before, v, root);
      }
      forall k | 0 <= k < |buckets| ensures Members(e, buckets[k].votes) == Backing(e, b, v, buckets[k].root) {
        OneBucketEach(e, cast, epoch, buckets, k);
      }
      if root :| Suffices(e, Backing(e, b, v, root)) {
        var k := BucketOf(buckets, root);
        assert Suffices(e, Members(e, buckets[k].votes));
      }
      if TryFinalize(e, buckets).Some? {
        var k :| 0 <= k < |buckets| && Suffices(e, Members(e, buckets[k].votes)) &&
          Certifies(e, buckets[k], TryFinalize(e, buckets).value);
        CertificateNames(e, cast, epoch, buckets, k, TryFinalize(e, buckets).value);
        assert FinalFor(e, TryFinalize(e, buckets).value, epoch, buckets[k].root, Backing(e, b, v, buckets[k].root));
      }
    }
  }

  lemma BucketsOnce(cast: set<Vote>, epoch: int, buckets: seq<Bucket>)
    requires GoodBuckets(cast, epoch, buckets)
    ensures forall k :: 0 <= k < |buckets| ==> OncePerVoter(buckets[k].votes)
  { }

  lemma BucketOf(buckets: seq<Bucket>, root: string) returns (k: nat)
    requires VotersFor(buckets, root) != {}
    ensures k < |buckets| && buckets[k].root == root
  {
    var x :| x in VotersFor(buckets, root);
    var i, u :| 0 <= i < |buckets| && buckets[i].root == root && u in buckets[i].votes && u.voter == x;
    k := i;
  }

  lemma CertificateNames(e: Electorate, cast: set<Vote>, epoch: int, buckets: seq<Bucket>, k: nat, f: Final)
    requires GoodBuckets(cast, epoch, buckets) && k < |buckets| && Certifies(e, buckets[k], f)
    ensures FinalFor(e, f, epoch, buckets[k].root, Members(e, buckets[k].votes))
  {
    assert GoodBucket(cast, epoch, buckets[k]);
  }

  // ---- in the network ----

  // The vote will be counted by node i: its id is new there, it is genuine, of the network
  // and of the electorate, and its epoch is undecided.
  ghost predicate Counts(p: Protocol, s: VoteNet, i: nat, v: Vote)
    requires Sized(p, s) && i < |p.keys|
  {
    && v.id !in s.books[i].seen && v.body.network == p.network && v.voter in p.electorate.weights && p.verify(v)
    && v.body.epoch !in s.books[i].finalized
  }

  lemma HeardDecides(p: Protocol, s: VoteNet, i: nat, v: Vote, root: string)
    requires Honoured(p, s) && i < |p.keys| && v in s.cast && Counts(p, s, i, v)
    requires Suffices(p.electorate, Backing(p.electorate, s.books[i], v, root))
    ensures exists r :: (v.body.epoch, r) in Heard(p, s, i, v).decided[i]
                        && Suffices(p.electorate, Backing(p.electorate, s.books[i], v, r))
    ensures ProperWeights(p.electorate)
            && TrustOf(p.electorate, Equivocators(p.electorate, s.cast, v.body.epoch)) < 0.34 * p.electorate.total ==>
              (v.body.epoch, root) in Heard(p, s, i, v).decided[i]
  {
    hide Decision, Suffices, Backing, GoodBook, ReceiveVote, Equivocators, HasQuorum;
    var e, b := p.electorate, s.books[i];
    assert GoodBook(s.cast, b) by { BooksAreGood(p, s, i); }
    DecisionIff(p.network, p.verify, e, s.cast, b, v);
    var f := Decision(p.network, p.verify, e, b, v).value;
    var r :| Suffices(e, Backing(e, b, v, r)) && FinalFor(e, f, v.body.epoch, r, Backing(e, b, v, r));
    assert (v.body.epoch, r) in Heard(p, s, i, v).decided[i];
    if ProperWeights(e) && TrustOf(e, Equivocators(e, s.cast, v.body.epoch)) < 0.34 * e.total {
      BackingIsQuorum(e, s.cast, b, v, root);
      BackingIsQuorum(e, s.cast, b, v, r);
      QuorumsAgree(e, s.cast, v.body.epoch, root, r);
    }
  }

  // When node i hears a vote that it counts and with it enough votes for a root have reached
  // it, it decides the epoch then and there: for a root that suffices, and for that very root
  // while those who sign two roots hold under 34%.
  lemma QuorumIsDecided(p: Protocol, s: VoteNet, i: nat, v: Vote, root: string)
    requires Honoured(p, s) && MayHappen(p, s, Hear(i, v)) && Counts(p, s, i, v)
    requires Suffices(p.electorate, Backing(p.electorate, s.books[i], v, root))
    ensures exists r :: (v.body.epoch, r) in Happened(p, s, Hear(i, v)).decided[i]
                        && Suffices(p.electorate, Backing(p.electorate, s.books[i], v, r))
    ensures ProperWeights(p.electorate)
            && TrustOf(p.electorate, Equivocators(p.electorate, s.cast, v.body.epoch)) < 0.34 * p.electorate.total ==>
              (v.body.epoch, root) in Happened(p, s, Hear(i, v)).decided[i]
  {
    hide Heard, Suffices, Backing, GoodBook, PostAfter, Equivocators, HasQuorum;
    MovedKeepsHonoured(p, s, Hear(i, v));
    HeardDecides(p, Moved(s, Hear(i, v)), i, v, root);
  }

  // A node counts its own vote at the tick that casts it, in the same way.
  lemma OwnVoteDecides(p: Protocol, s: VoteNet, i: nat, now: int, v: Vote, root: string)
    requires Honoured(p, s) && MayHappen(p, s, Tick(i, now, Some(v))) && Counts(p, s, i, v)
    requires Passes(s.posts[i], ClosableEpoch(now)) &&
               Suffices(p.electorate, Backing(p.electorate, s.books[i], v, root))
    ensures exists r :: (v.body.epoch, r) in Happened(p, s, Tick(i, now, Some(v))).decided[i]
                        && Suffices(p.electorate, Backing(p.electorate, s.books[i], v, r))
  {
    hide Heard, Suffices, Backing, GoodBook, PostAfter, HasQuorum;
    var m := Tick(i, now, Some(v));
    MovedKeepsHonoured(p, s, m);
    CastKeepsHonoured(p, Moved(s, m), v);
    var t := Moved(s, m);
    HeardDecides(p, t.(cast := t.cast + {v}), i, v, root);
  }

  lemma BooksAreGood(p: Protocol, s: VoteNet, i: nat)
    requires Honoured(p, s) && i < |p.keys|
    ensures GoodBook(s.cast, s.books[i])
  { }

  lemma BackingIsQuorum(e: Electorate, cast: set<Vote>, b: Book, v: Vote, root: string)
    requires GoodBook(cast, b) && v in cast && Suffices(e, Backing(e, b, v, root))
    ensures HasQuorum(e, cast, v.body.epoch, root)
  {
    var s := Backing(e, b, v, root);
    var epoch := v.body.epoch;
    forall x | x in s ensures Signed(cast, x, epoch, root) {
      if !(root == v.body.root && x == v.voter) {
        var buckets := b.votes[epoch];
        var k, u :| 0 <= k < |buckets| && buckets[k].root == root && u in buckets[k].votes && u.voter == x;
        assert GoodBucket(cast, epoch, buckets[k]);
      }
    }
    assert IsQuorum(e, cast, epoch, root, s);
  }

  // ---- and over a run ----

  function HearAll(i: nat, votes: seq<Vote>): seq<VoteMove> {
    seq(|votes|, k requires 0 <= k < |votes| => Hear(i, votes[k]))
  }

  // Votes of different members for one root of an undecided epoch, none of which the node
  // has in its dedup cache, and not so old that it would forget them again.
  ghost predicate NewsFor(p: Protocol, s: VoteNet, i: nat, votes: seq<Vote>, epoch: int, root: string)
    requires Sized(p, s) && i < |p.keys|
  {
    var b := s.books[i];
    && (forall k :: 0 <= k < |votes| ==>
          && votes[k] in s.cast && votes[k].body.network == p.network && votes[k].voter in p.electorate.weights
          && p.verify(votes[k]) && votes[k].body.epoch == epoch && votes[k].body.root == root && votes[k].id !in b.seen)
    && (forall j, k :: 0 <= j < k < |votes| ==> votes[j].id != votes[k].id)
    && epoch !in b.finalized && (b.lastEpoch - RETAIN_VOTE_EPOCHS > 0 ==> epoch >= b.lastEpoch - RETAIN_VOTE_EPOCHS)
  }

  // The node has either decided the epoch or stored the votes so far and nothing decisive.
  ghost predicate HeardSoFar(p: Protocol, s: VoteNet, t: VoteNet, i: nat, votes: seq<Vote>, epoch: int, root: string)
    requires Sized(p, s) && Sized(p, t) && i < |p.keys|
  {
    || (exists r :: (epoch, r) in t.decided[i])
    || (&& t.cast == s.cast && epoch !in t.books[i].finalized && t.books[i].lastEpoch == s.books[i].lastEpoch
        && (forall x :: x in Voters(votes) ==> x in StoredFor(t.books[i], epoch, root))
        && (forall id :: id in t.books[i].seen ==>
            id in s.books[i].seen || exists k :: 0 <= k < |votes| && votes[k].id == id))
  }

  lemma DecisionsStay(p: Protocol, s: VoteNet, i: nat, v: Vote)
    requires Sized(p, s) && i < |p.keys|
    ensures s.decided[i] <= Heard(p, s, i, v).decided[i]
  {
    hide Decision, ReceiveVote;
  }

  // A vote that is counted without deciding anything is stored, and stays.
  lemma StoresUndecided(network: string, verify: Vote -> bool, e: Electorate, b: Book, v: Vote)
    requires Takes(network, verify, e, b, v) && Decision(network, verify, e, b, v).None? && v.body.epoch !in b.finalized
    requires b.lastEpoch - RETAIN_VOTE_EPOCHS > 0 ==> v.body.epoch >= b.lastEpoch - RETAIN_VOTE_EPOCHS
    ensures var c := ReceiveVote(network, verify, e, b, v);
            && v.body.epoch !in c.finalized && c.lastEpoch == b.lastEpoch
            && StoredFor(c, v.body.epoch, v.body.root) == StoredFor(b, v.body.epoch, v.body.root) + {v.voter}
            && (forall id :: id in c.seen ==> id in b.seen || id == v.id)
  {
    hide TryFinalize, Store, VotersFor;
    var m := Counted(b, v);
    NewestIsNewest(m.finalized, FINALIZED_CAP);
    StoreAdds(if v.body.epoch in b.votes then b.votes[v.body.epoch] else [], v, v.body.root);
  }

  lemma HearOne(p: Protocol, s: VoteNet, t: VoteNet, i: nat, votes: seq<Vote>, v: Vote, epoch: int, root: string)
    requires Sized(p, s) && Honoured(p, t) && i < |p.keys| && NewsFor(p, s, i, votes + [v], epoch, root)
    requires HeardSoFar(p, s, t, i, votes, epoch, root) && t.cast == s.cast
    ensures HeardSoFar(p, s, Heard(p, t, i, v), i, votes + [v], epoch, root) && Heard(p, t, i, v).cast == s.cast
  {
    hide Decision, ReceiveVote, StoredFor, GoodBook, HasQuorum;
    var all := votes + [v];
    var e, b := p.electorate, t.books[i];
    assert all[|votes|] == v && forall k :: 0 <= k < |votes| ==> all[k] == votes[k];
    DecisionsStay(p, t, i, v);
    if !(exists r :: (epoch, r) in t.decided[i]) {
      assert Takes(p.network, p.verify, e, b, v);
      var d := Decision(p.network, p.verify, e, b, v);
      if d.Some? {
        BooksAreGood(p, t, i);
        DecisionHasQuorum(p.network, p.verify, e, t.cast, b, v);
        assert (epoch, d.value.body.root) in Heard(p, t, i, v).decided[i];
      } else {
        StoresUndecided(p.network, p.verify, e, b, v);
        forall x | x in Voters(all) ensures x in Voters(votes) || x == v.voter {
          var u :| u in all && u.voter == x;
          assert u in votes || u == v;
        }
      }
    }
  }

  lemma {:induction false} HearPrefix(p: Protocol, moves: seq<VoteMove>, i: nat, votes: seq<Vote>, epoch: int,
                                      root: string)
    requires ReachedNet(p, moves).Some? && i < |p.keys| && NewsFor(p, ReachedNet(p, moves).value, i, votes, epoch, root)
    ensures var s, t := ReachedNet(p, moves).value, ReachedNet(p, moves + HearAll(i, votes));
            t.Some? && t.value.cast == s.cast && HeardSoFar(p, s, t.value, i, votes, epoch, root)
  {
    hide Heard, ReachedNet, NewsFor, HeardSoFar, Honoured, PostAfter;
    var s := ReachedNet(p, moves).value;
    if votes == [] {
      assert moves + HearAll(i, votes) == moves;
      HearsNothingYet(p, s, i, epoch, root, votes);
    } else {
      var n := |votes| - 1;
      var before := moves + HearAll(i, votes[..n]);
      assert votes == votes[..n] + [votes[n]];
      FewerNews(p, s, i, votes, epoch, root);
      HearPrefix(p, moves, i, votes[..n], epoch, root);
      assert moves + HearAll(i, votes) == before + [Hear(i, votes[n])];
      var t := ReachedNet(p, before).value;
      ReachedIsHonoured(p, before);
      MovedKeepsHonoured(p, t, Hear(i, votes[n]));
      OneMove(p, before, Hear(i, votes[n]));
      SameBooks(p, s, t, Moved(t, Hear(i, votes[n])), i, votes[..n], epoch, root);
      HearOne(p, s, Moved(t, Hear(i, votes[n])), i, votes[..n], votes[n], epoch, root);
    }
  }

  lemma HearsNothingYet(p: Protocol, s: VoteNet, i: nat, epoch: int, root: string, votes: seq<Vote>)
    requires Sized(p, s) && i < |p.keys| && votes == [] && NewsFor(p, s, i, votes, epoch, root)
    ensures HeardSoFar(p, s, s, i, votes, epoch, root)
  {
    hide StoredFor;
  }

  lemma FewerNews(p: Protocol, s: VoteNet, i: nat, votes: seq<Vote>, epoch: int, root: string)
    requires Sized(p, s) && i < |p.keys| && votes != [] && NewsFor(p, s, i, votes, epoch, root)
    ensures NewsFor(p, s, i, votes[..|votes| - 1], epoch, root)
    ensures votes[|votes| - 1] in s.cast
  { }

  lemma SameBooks(p: Protocol, s: VoteNet, t: VoteNet, u: VoteNet, i: nat, votes: seq<Vote>, epoch: int, root: string)
    requires Sized(p, s) && Sized(p, t) && Sized(p, u) && i < |p.keys| && HeardSoFar(p, s, t, i, votes, epoch, root)
    requires u.books == t.books && u.decided == t.decided && u.cast == t.cast
    ensures HeardSoFar(p, s, u, i, votes, epoch, root)
  {
    hide StoredFor;
  }

  // Finality comes: after any run, once members that hold the threshold have voted for a
  // root of an epoch that a node has not decided, hearing their votes, in any order, makes
  // it decide that epoch; and for that root, while those who sign two hold under 34%.
  lemma QuorumFinalizes(p: Protocol, moves: seq<VoteMove>, i: nat, votes: seq<Vote>, epoch: int, root: string)
    requires ReachedNet(p, moves).Some? && ProperWeights(p.electorate) && i < |p.keys| && votes != []
    requires NewsFor(p, ReachedNet(p, moves).value, i, votes, epoch, root)
    requires TrustOf(p.electorate, Voters(votes)) >= FINALITY_THRESHOLD * p.electorate.total
    ensures var t := ReachedNet(p, moves + HearAll(i, votes));
            && t.Some? && (exists r :: (epoch, r) in t.value.decided[i])
            && (TrustOf(p.electorate, Equivocators(p.electorate, t.value.cast, epoch)) < 0.34 * p.electorate.total ==>
                (epoch, root) in t.value.decided[i])
  {
    hide ReachedNet, NewsFor, HeardSoFar, HasQuorum, Equivocators, Happened;
    var s := ReachedNet(p, moves).value;
    var n := |votes| - 1;
    var before := moves + HearAll(i, votes[..n]);
    var more := moves + HearAll(i, votes);
    FewerNews(p, s, i, votes, epoch, root);
    HearPrefix(p, moves, i, votes[..n], epoch, root);
    HearPrefix(p, moves, i, votes, epoch, root);
    assert more == before + [Hear(i, votes[n])];
    var t := ReachedNet(p, before).value;
    ReachedIsHonoured(p, before);
    OneMove(p, before, Hear(i, votes[n]));
    LastVoteDecides(p, s, t, i, votes, epoch, root);
    var r :| (epoch, r) in ReachedNet(p, more).value.decided[i];
    ReachedIsHonoured(p, more);
    VotesAreQuorum(p, s, i, votes, epoch, root);
    assert HasQuorum(p.electorate, s.cast, (epoch, r).0, (epoch, r).1);
    if TrustOf(p.electorate, Equivocators(p.electorate, s.cast, epoch)) < 0.34 * p.electorate.total {
      QuorumsAgree(p.electorate, s.cast, epoch, r, root);
    }
  }

  lemma VotesAreQuorum(p: Protocol, s: VoteNet, i: nat, votes: seq<Vote>, epoch: int, root: string)
    requires Sized(p, s) && i < |p.keys| && NewsFor(p, s, i, votes, epoch, root)
    requires TrustOf(p.electorate, Voters(votes)) >= FINALITY_THRESHOLD * p.electorate.total
    ensures HasQuorum(p.electorate, s.cast, epoch, root)
  {
    forall x | x in Voters(votes) ensures x in p.electorate.weights.Keys && Signed(s.cast, x, epoch, root) {
      var v :| v in votes && v.voter == x;
      var k :| 0 <= k < |votes| && votes[k] == v;
      assert votes[k] in s.cast;
    }
    assert IsQuorum(p.electorate, s.cast, epoch, root, Voters(votes));
  }

  lemma LastVoteDecides(p: Protocol, s: VoteNet, t: VoteNet, i: nat, votes: seq<Vote>, epoch: int, root: string)
    requires Sized(p, s) && Honoured(p, t) && ProperWeights(p.electorate) && i < |p.keys| && votes != []
    requires NewsFor(p, s, i, votes, epoch, root) && HeardSoFar(p, s, t, i, votes[..|votes| - 1], epoch, root) &&
               t.cast == s.cast
    requires TrustOf(p.electorate, Voters(votes)) >= FINALITY_THRESHOLD * p.electorate.total
    ensures MayHappen(p, t, Hear(i, votes[|votes| - 1]))
    ensures exists r :: (epoch, r) in Happened(p, t, Hear(i, votes[|votes| - 1])).decided[i]
  {
    hide Heard, StoredFor, GoodBook, HasQuorum, PostAfter, TrustOf;
    var n := |votes| - 1;
    var v, e, b := votes[n], p.electorate, t.books[i];
    assert MayHappen(p, t, Hear(i, v));
    if r :| (epoch, r) in t.decided[i] {
      DecisionsStay(p, Moved(t, Hear(i, v)), i, v);
      assert (epoch, r) in Happened(p, t, Hear(i, v)).decided[i];
    } else {
      BackersInclude(p, s, i, votes, b, epoch, root);
      var backing := Backing(e, b, v, root);
      TrustIsMonotone(e, Voters(votes), backing);
      assert v.voter in Voters(votes);
      assert Suffices(e, backing);
      QuorumIsDecided(p, t, i, v, root);
    }
  }

  lemma BackersInclude(p: Protocol, s: VoteNet, i: nat, votes: seq<Vote>, b: Book, epoch: int, root: string)
    requires Sized(p, s) && i < |p.keys| && votes != [] && NewsFor(p, s, i, votes, epoch, root)
    requires forall x :: x in Voters(votes[..|votes| - 1]) ==> x in StoredFor(b, epoch, root)
    ensures Voters(votes) <= Backing(p.electorate, b, votes[|votes| - 1], root)
  {
    hide StoredFor;
    var n := |votes| - 1;
    forall x | x in Voters(votes) ensures x in Backing(p.electorate, b, votes[n], root) {
      var u :| u in votes && u.voter == x;
      var k :| 0 <= k < |votes| && votes[k] == u;
      if k < n { assert votes[..n][k] == u && u in votes[..n]; }
    }
  }

  // ---- the marker ----

  // A decision moves the last-finalized marker to its epoch and root if that is newer, and
  // nothing else does; the checkpoint is kept unless the book is full of newer ones.
  lemma DecisionMovesMarker(network: string, verify: Vote -> bool, e: Electorate, b: Book, v: Vote)
    ensures var d, c := Decision(network, verify, e, b, v), ReceiveVote(network, verify, e, b, v);
            && (d.None? ==> c.lastEpoch == b.lastEpoch && c.lastRoot == b.lastRoot)
            && (d.Some? && d.value.body.epoch <= b.lastEpoch ==> c.lastEpoch == b.lastEpoch && c.lastRoot == b.lastRoot)
            && (d.Some? && d.value.body.epoch > b.lastEpoch ==>
                  c.lastEpoch == d.value.body.epoch && c.lastRoot == d.value.body.root)
            && (d.Some? ==>
                  if d.value.body.epoch in c.finalized then c.finalized[d.value.body.epoch] == d.value
                  else |c.finalized| == FINALIZED_CAP && forall x :: x in c.finalized ==> d.value.body.epoch < x)
  {
    hide TryFinalize, Store;
    NewestIsNewest(ApplyVote(network, verify, e, b, v).finalized, FINALIZED_CAP);
  }

  // ---- memory stays bounded ----

  // What a node keeps of votes: at most 200000 ids and 4096 checkpoints.
  ghost predicate Bounded(b: Book) { |b.seen| <= 200_000 && |b.finalized| <= 4096 }

  // And once a vote is taken, no votes more than 256 epochs behind its last finalized epoch.

  lemma ReceiveStaysBounded(network: string, verify: Vote -> bool, e: Electorate, b: Book, v: Vote)
    requires Bounded(b)
    ensures var c := ReceiveVote(network, verify, e, b, v);
            && Bounded(c)
            && forall epoch :: epoch in c.votes && c.lastEpoch > 256 ==> epoch >= c.lastEpoch - 256
  {
    hide ApplyVote, Prune;
    OneIdMore(network, verify, e, b, v);
    PruneBounds(ApplyVote(network, verify, e, b, v));
  }

  lemma OneIdMore(network: string, verify: Vote -> bool, e: Electorate, b: Book, v: Vote)
    ensures |ApplyVote(network, verify, e, b, v).seen| <= |b.seen| + 1
  {
    hide TryFinalize, Store;
  }

  lemma PruneBounds(b: Book)
    requires |b.seen| <= SEEN_CAP + 1
    ensures Bounded(Prune(b))
    ensures forall epoch :: epoch in Prune(b).votes && b.lastEpoch > 256 ==> epoch >= b.lastEpoch - 256
    ensures Prune(b).lastEpoch == b.lastEpoch
  {
    NewestIsNewest(b.finalized, FINALIZED_CAP);
  }

  // In every run, whatever is voted and heard, no node's bookkeeping grows beyond that.
  lemma {:induction false} BooksStayBounded(p: Protocol, moves: seq<VoteMove>, i: nat)
    requires ReachedNet(p, moves).Some? && i < |p.keys|
    ensures Bounded(ReachedNet(p, moves).value.books[i])
  {
    hide MayHappen, Bounded, PostAfter;
    if moves == [] {
      assert Bounded(EMPTY) by { EmptyIsBounded(); }
    } else {
      var n := |moves| - 1;
      var s := ReachedNet(p, moves[..n]).value;
      BooksStayBounded(p, moves[..n], i);
      HappenedStaysBounded(p, s, moves[n], i);
    }
  }

  lemma EmptyIsBounded()
    ensures Bounded(EMPTY)
  { }

  lemma HappenedStaysBounded(p: Protocol, s: VoteNet, m: VoteMove, i: nat)
    requires Sized(p, s) && MayHappen(p, s, m) && i < |p.keys| && Bounded(s.books[i])
    ensures Bounded(Happened(p, s, m).books[i])
  {
    hide ReceiveVote, Decision, PostAfter, Bounded;
    EmptyIsBounded();
    match m
    case Tick(j, now, ballot) =>
      if ballot.Some? { ReceiveStaysBounded(p.network, p.verify, p.electorate, s.books[i], ballot.value); }
    case Restart(j, now) =>
    case Persist(j) =>
    case Adopt(j, epoch, final, marks) =>
      assert Bounded(s.books[i].(lastEpoch := final.0, lastRoot := final.1)) by {
        OnlyMarked(s.books[i], final.0, final.1);
      }
    case Foreign(v) =>
    case Hear(j, v) => ReceiveStaysBounded(p.network, p.verify, p.electorate, s.books[i], v);
  }

  lemma OnlyMarked(b: Book, epoch: int, root: string)
    requires Bounded(b)
    ensures Bounded(b.(lastEpoch := epoch, lastRoot := root))
  { }
}
