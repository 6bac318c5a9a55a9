// Agreement of Proof-of-Resonance finality: in any run of any number of nodes over a
// network that loses, reorders and duplicates votes, with restarts, pruning and eviction,
// with adopted snapshots, no two nodes ever finalize different roots for one epoch, as long
// as all others than the nodes that run the program with a clock that keeps time hold less
// than 34% of the trust.
module Finality {
  import opened Events
  import opened Order
  import opened Votes

  // ---- the trust of a set of voters ----

  ghost function TrustOf(e: Electorate, s: set<string>): real {
    if s == {} then 0.0
    else var x :| x in s; TrustOf(e, s - {x}) + (if x in e.weights then e.weights[x] else 0.0)
  }

  function WeightIn(e: Electorate, x: string): real { if x in e.weights then e.weights[x] else 0.0 }

  lemma {:induction false} TrustWithout(e: Electorate, s: set<string>, x: string)
    requires x in s
    ensures TrustOf(e, s) == TrustOf(e, s - {x}) + WeightIn(e, x)
  {
    var y :| y in s && TrustOf(e, s) == TrustOf(e, s - {y}) + WeightIn(e, y);
    if x != y {
      TrustWithout(e, s - {y}, x);
      TrustWithout(e, s - {x}, y);
      assert s - {y} - {x} == s - {x} - {y};
    }
  }

  ghost predicate ProperWeights(e: Electorate) {
    && (forall x :: x in e.weights ==> e.weights[x] >= 0.0)
    && TrustOf(e, e.weights.Keys) <= e.total && e.total > 0.0
  }

  lemma {:induction false} TrustIsMonotone(e: Electorate, s: set<string>, t: set<string>)
    requires s <= t && forall x :: x in e.weights ==> e.weights[x] >= 0.0
    ensures 0.0 <= TrustOf(e, s) <= TrustOf(e, t)
    decreases |t|
  {
    if t != {} {
      var x :| x in t;
      TrustWithout(e, t, x);
      if x in s { TrustWithout(e, s, x); }
      TrustIsMonotone(e, s - {x}, t - {x});
      if x !in s { assert s - {x} == s; }
    }
  }

  lemma {:induction false} TrustOverlap(e: Electorate, s: set<string>, t: set<string>)
    ensures TrustOf(e, s) + TrustOf(e, t) == TrustOf(e, s + t) + TrustOf(e, s * t)
    decreases |t|
  {
    if t == {} {
      assert s + t == s && s * t == {};
    } else {
      var x :| x in t;
      TrustOverlap(e, s, t - {x});
      TrustWithout(e, t, x);
      if x in s {
        TrustWithout(e, s * t, x);
        assert s + (t - {x}) == s + t && s * (t - {x}) == s * t - {x};
      } else {
        TrustWithout(e, s + t, x);
        assert s + (t - {x}) == s + t - {x} && s * (t - {x}) == s * t;
      }
    }
  }

  // ---- what a book of votes holds ----

  ghost function Voters(votes: seq<Vote>): set<string> { set v | v in votes :: v.voter }

  ghost predicate OncePerVoter(votes: seq<Vote>) {
    forall i, j :: 0 <= i < j < |votes| ==> votes[i].voter != votes[j].voter
  }

  // Every stored vote was really cast, for this epoch and this root, and nobody is in a
  // bucket twice.
  ghost predicate GoodBucket(cast: set<Vote>, epoch: int, b: Bucket) {
    && OncePerVoter(b.votes)
    && (forall v :: v in b.votes ==> v in cast && v.body.epoch == epoch && v.body.root == b.root)
  }

  ghost predicate GoodBuckets(cast: set<Vote>, epoch: int, buckets: seq<Bucket>) {
    && (forall k :: 0 <= k < |buckets| ==> GoodBucket(cast, epoch, buckets[k]))
    && (forall i, j :: 0 <= i < j < |buckets| ==> buckets[i].root != buckets[j].root)
  }

  ghost predicate GoodBook(cast: set<Vote>, b: Book) {
    forall e :: e in b.votes ==> GoodBuckets(cast, e, b.votes[e])
  }

  lemma {:induction false} SupportIsTrust(e: Electorate, votes: seq<Vote>)
    requires OncePerVoter(votes) && forall v :: v in votes ==> v.voter in e.weights
    ensures Support(e, votes) == TrustOf(e, Voters(votes))
  {
    if votes == [] {
      assert Voters(votes) == {};
    } else {
      var n := |votes| - 1;
      SupportIsTrust(e, votes[..n]);
      assert votes[n] in votes;
      assert Voters(votes) - {votes[n].voter} == Voters(votes[..n]) by {
        forall v | v in votes[..n] ensures v.voter != votes[n].voter { var i :| 0 <= i < n && votes[i] == v; }
        assert forall v :: v in votes <==> v in votes[..n] || v == votes[n];
      }
      TrustWithout(e, Voters(votes), votes[n].voter);
    }
  }

  lemma {:induction false} EligibleOncePerVoter(e: Electorate, votes: seq<Vote>)
    requires OncePerVoter(votes)
    ensures OncePerVoter(Eligible(e, votes))
  {
    if votes != [] {
      var n := |votes| - 1;
      var r := Eligible(e, votes[..n]);
      EligibleOncePerVoter(e, votes[..n]);
      forall i | 0 <= i < |r| ensures r[i].voter != votes[n].voter {
        assert r[i] in votes[..n];
        var k :| 0 <= k < n && votes[k] == r[i];
      }
    }
  }

  // A root has a quorum: distinct electorate members, each of whom really cast a vote for
  // it, hold at least the threshold of the trust.
  ghost predicate IsQuorum(e: Electorate, cast: set<Vote>, epoch: int, root: string, s: set<string>) {
    && s <= e.weights.Keys && TrustOf(e, s) >= FINALITY_THRESHOLD * e.total
    && (forall x :: x in s ==> Signed(cast, x, epoch, root))
  }

  ghost predicate HasQuorum(e: Electorate, cast: set<Vote>, epoch: int, root: string) {
    exists s :: IsQuorum(e, cast, epoch, root, s)
  }

  ghost predicate Signed(cast: set<Vote>, voter: string, epoch: int, root: string) {
    exists v :: v in cast && v.voter == voter && v.body.epoch == epoch && v.body.root == root
  }

  lemma QuotientAtLeast(a: real, b: real, c: real)
    requires b > 0.0 && a / b >= c
    ensures a >= c * b
  {
    assert a / b * b == a;
  }

  lemma GroupIsQuorum(e: Electorate, cast: set<Vote>, epoch: int, b: Bucket)
    requires e.total > 0.0 && GoodBucket(cast, epoch, b)
    requires Support(e, Eligible(e, b.votes)) / e.total >= FINALITY_THRESHOLD
    ensures HasQuorum(e, cast, epoch, b.root)
  {
    var group := Eligible(e, b.votes);
    EligibleOncePerVoter(e, b.votes);
    SupportIsTrust(e, group);
    var s := Voters(group);
    forall x | x in s ensures Signed(cast, x, epoch, b.root) {
      var v :| v in group && v.voter == x;
      assert v in cast;
    }
    QuotientAtLeast(TrustOf(e, s), e.total, FINALITY_THRESHOLD);
    assert IsQuorum(e, cast, epoch, b.root, s);
  }

  // Whatever a node finalizes has a quorum.
  lemma {:induction false} FinalizedHasQuorum(e: Electorate, cast: set<Vote>, epoch: int, buckets: seq<Bucket>)
    requires GoodBuckets(cast, epoch, buckets)
    ensures var d := TryFinalize(e, buckets);
            d.Some? ==> d.value.body.epoch == epoch && HasQuorum(e, cast, epoch, d.value.body.root)
  {
    if buckets != [] && e.total > 0.0 {
      var group := Eligible(e, buckets[0].votes);
      if group != [] && Support(e, group) / e.total >= FINALITY_THRESHOLD {
        GroupIsQuorum(e, cast, epoch, buckets[0]);
        assert group[0] in buckets[0].votes;
      } else {
        FinalizedHasQuorum(e, cast, epoch, buckets[1..]);
      }
    }
  }

  // ---- two quorums overlap ----

  // The voters who signed two different roots for an epoch.
  ghost predicate Equivocates(cast: set<Vote>, voter: string, epoch: int) {
    exists v, w :: v in cast && w in cast && v.voter == w.voter == voter && v.body.epoch == w.body.epoch == epoch &&
      v.body.root != w.body.root
  }

  ghost function Equivocators(e: Electorate, cast: set<Vote>, epoch: int): set<string> {
    set x | x in e.weights.Keys && Equivocates(cast, x, epoch)
  }

  lemma QuorumsAgree(e: Electorate, cast: set<Vote>, epoch: int, root: string, other: string)
    requires ProperWeights(e)
    requires TrustOf(e, Equivocators(e, cast, epoch)) < 0.34 * e.total
    requires HasQuorum(e, cast, epoch, root) && HasQuorum(e, cast, epoch, other)
    ensures root == other
  {
    if root != other {
      var s :| IsQuorum(e, cast, epoch, root, s);
      var t :| IsQuorum(e, cast, epoch, other, t);
      TrustOverlap(e, s, t);
      TrustIsMonotone(e, s + t, e.weights.Keys);
      forall x | x in s * t ensures x in Equivocators(e, cast, epoch) {
        assert Signed(cast, x, epoch, root) && Signed(cast, x, epoch, other);
      }
      TrustIsMonotone(e, s * t, Equivocators(e, cast, epoch));
    }
  }

  // ---- receiving keeps the book good ----

  lemma StoreKeepsGood(cast: set<Vote>, epoch: int, buckets: seq<Bucket>, v: Vote)
    requires GoodBuckets(cast, epoch, buckets) && v in cast && v.body.epoch == epoch
    ensures GoodBuckets(cast, epoch, Store(buckets, v))
  {
    var k := PlaceOf(RootKey(), buckets, v.body.root);
    if k < |buckets| && !HasVoted(buckets[k].votes, v.voter) {
      assert GoodBucket(cast, epoch, buckets[k]);
      assert GoodBucket(cast, epoch, buckets[k].(votes := buckets[k].votes + [v]));
    }
  }

  lemma CountedKeepsGood(cast: set<Vote>, b: Book, v: Vote)
    requires GoodBook(cast, b) && v in cast
    ensures GoodBook(cast, Counted(b, v))
  {
    StoreKeepsGood(cast, v.body.epoch, if v.body.epoch in b.votes then b.votes[v.body.epoch] else [], v);
  }

  lemma PruneKeepsGood(cast: set<Vote>, b: Book)
    requires GoodBook(cast, b)
    ensures GoodBook(cast, Prune(b))
  {
    hide GoodBuckets, Newest;
  }

  lemma SameVotesGood(cast: set<Vote>, b: Book, c: Book)
    requires GoodBook(cast, b) && c.votes == b.votes
    ensures GoodBook(cast, c)
  { }

  // A voter is never counted twice for a root: not by duplicates, not after eviction of the
  // dedup cache, not after pruning.
  lemma ReceiveKeepsGood(network: string, verify: Vote -> bool, e: Electorate, cast: set<Vote>, b: Book, v: Vote)
    requires GoodBook(cast, b) && (verify(v) ==> v in cast)
    ensures GoodBook(cast, ReceiveVote(network, verify, e, b, v))
  {
    hide GoodBook, Counted, Prune, TryFinalize;
    var r := ApplyVote(network, verify, e, b, v);
    if Takes(network, verify, e, b, v) {
      CountedKeepsGood(cast, b, v);
      SameVotesGood(cast, Counted(b, v), r);
    }
    PruneKeepsGood(cast, r);
  }

  lemma DecisionHasQuorum(network: string, verify: Vote -> bool, e: Electorate, cast: set<Vote>, b: Book, v: Vote)
    requires GoodBook(cast, b) && (verify(v) ==> v in cast)
    requires Decision(network, verify, e, b, v).Some?
    ensures var f := Decision(network, verify, e, b, v).value;
            f.body.epoch == v.body.epoch && HasQuorum(e, cast, f.body.epoch, f.body.root)
  {
    CountedKeepsGood(cast, b, v);
    FinalizedHasQuorum(e, cast, v.body.epoch, Counted(b, v).votes[v.body.epoch]);
  }

  // ---- the network ----

  // The rules all nodes share, the epoch they start from, and the key each node signs with.
  datatype Protocol = Protocol(
    network: string, verify: Vote -> bool, electorate: Electorate, genesisEpoch: int, keys: seq<string>)

  // Where a node stands: the last epoch it processed, the epoch of the snapshot on its disk,
  // and the last epoch it voted at. A restart forgets the last of these.
  datatype Post = Post(processed: int, saved: int, lastVoted: int)

  // decided[i] holds every (epoch, root) that node i ever finalized or took for final from a
  // snapshot, also before a restart; cast holds every vote that was ever signed.
  datatype VoteNet = VoteNet(books: seq<Book>, posts: seq<Post>, decided: seq<set<(int, string)>>, cast: set<Vote>)

  datatype VoteMove =
    | Tick(i: nat, now: int, ballot: Option<Vote>)
    | Restart(i: nat, now: int)
    | Persist(i: nat)
    | Adopt(i: nat, epoch: int, final: (int, string), marks: bool)
    | Foreign(v: Vote)
    | Hear(i: nat, v: Vote)

  const EMPTY: Book := Book(map[], [], map[], -1, "00")

  ghost predicate Sized(p: Protocol, s: VoteNet) {
    |s.books| == |s.posts| == |s.decided| == |p.keys|
  }

  // At a tick, a node whose account is a master has a ballot for the epoch that its clock
  // closes, signed with its key. Whoever does not run the program signs what it likes, but
  // not with a node's key: signatures cannot be forged, so whatever verifies was cast. Votes
  // are heard in any order, any number of times, or never; anything that does not verify may
  // be heard too. An adopted snapshot, of whatever epoch, carries a root with a quorum.
  ghost predicate MayHappen(p: Protocol, s: VoteNet, m: VoteMove) {
    match m
    case Tick(i, now, ballot) =>
      i < |p.keys| && (ballot.Some? ==>
        p.verify(ballot.value) && ballot.value.voter == p.keys[i] && ballot.value.body.epoch == ClosableEpoch(now))
    case Restart(i, now) => i < |p.keys|
    case Persist(i) => i < |p.keys|
    case Adopt(i, epoch, final, marks) => i < |p.keys| && HasQuorum(p.electorate, s.cast, final.0, final.1)
    case Foreign(v) => p.verify(v) && v.voter !in p.keys
    case Hear(i, v) => i < |p.keys| && (p.verify(v) ==> v in s.cast)
  }

  function Later(a: int, b: int): int { if a < b then b else a }

  // The guards in advance and voteCheckpoints: the epoch is new to the state, and not voted
  // at yet since the start.
  predicate Passes(post: Post, epoch: int) { post.processed < epoch && post.lastVoted < epoch }

  // What a move does to where node i stands. A tick processes up to the epoch that the clock
  // closes and notes it; a restart loads the snapshot and catches up with the clock without
  // voting; an adoption takes over the snapshot's epoch.
  function PostAfter(post: Post, m: VoteMove, i: nat): Post {
    match m
    case Tick(k, now, _) =>
      if k != i || ClosableEpoch(now) <= post.processed then post
      else post.(processed := ClosableEpoch(now), lastVoted := Later(post.lastVoted, ClosableEpoch(now)))
    case Restart(k, now) =>
      if k != i then post else post.(processed := Later(post.saved, ClosableEpoch(now)), lastVoted := -1)
    case Persist(k) => if k != i then post else post.(saved := post.processed)
    case Adopt(k, epoch, _, _) => if k != i then post else post.(processed := epoch)
    case _ => post
  }

  ghost function Heard(p: Protocol, s: VoteNet, i: nat, v: Vote): VoteNet
    requires Sized(p, s) && i < |p.keys|
  {
    var d := Decision(p.network, p.verify, p.electorate, s.books[i], v);
    s.(books := s.books[i := ReceiveVote(p.network, p.verify, p.electorate, s.books[i], v)],
       decided := if d.Some? then s.decided[i := s.decided[i] + {(d.value.body.epoch, d.value.body.root)}]
                  else s.decided)
  }

  // voteCheckpoints: a master's ballot is cast, and counted at home.
  ghost function Voted(p: Protocol, s: VoteNet, i: nat, v: Vote): VoteNet
    requires Sized(p, s) && i < |p.keys|
  {
    Heard(p, s.(cast := s.cast + {v}), i, v)
  }

  ghost function Moved(s: VoteNet, m: VoteMove): VoteNet {
    s.(posts := seq(|s.posts|, i requires 0 <= i < |s.posts| => PostAfter(s.posts[i], m, i)))
  }

  ghost function Happened(p: Protocol, s: VoteNet, m: VoteMove): (r: VoteNet)
    requires MayHappen(p, s, m) && Sized(p, s)
    ensures Sized(p, r) && r.posts == Moved(s, m).posts
  {
    var t := Moved(s, m);
    match m
    case Tick(i, now, ballot) =>
      if ballot.Some? && Passes(s.posts[i], ClosableEpoch(now)) then Voted(p, t, i, ballot.value) else t
    case Restart(i, now) => t.(books := t.books[i := EMPTY])
    case Persist(i) => t
    case Adopt(i, epoch, final, marks) =>
      var b := if marks then t.books[i].(lastEpoch := final.0, lastRoot := final.1) else t.books[i];
      t.(books := t.books[i := b], decided := t.decided[i := t.decided[i] + {final}])
    case Foreign(v) => t.(cast := t.cast + {v})
    case Hear(i, v) => Heard(p, t, i, v)
  }

  ghost predicate Honoured(p: Protocol, s: VoteNet) {
    && Sized(p, s)
    && (forall i :: 0 <= i < |s.books| ==> GoodBook(s.cast, s.books[i]))
    && (forall i, d :: 0 <= i < |s.decided| && d in s.decided[i] ==> HasQuorum(p.electorate, s.cast, d.0, d.1))
  }

  lemma QuorumsStay(e: Electorate, cast: set<Vote>, more: set<Vote>, epoch: int, root: string)
    requires HasQuorum(e, cast, epoch, root) && cast <= more
    ensures HasQuorum(e, more, epoch, root)
  {
    var s :| IsQuorum(e, cast, epoch, root, s);
    forall x | x in s ensures Signed(more, x, epoch, root) { assert Signed(cast, x, epoch, root); }
    assert IsQuorum(e, more, epoch, root, s);
  }

  lemma GoodBookStays(cast: set<Vote>, more: set<Vote>, b: Book)
    requires GoodBook(cast, b) && cast <= more
    ensures GoodBook(more, b)
  {
    forall e, k | e in b.votes && 0 <= k < |b.votes[e]| ensures GoodBucket(more, e, b.votes[e][k]) {
      assert GoodBucket(cast, e, b.votes[e][k]);
    }
  }

  lemma CastKeepsHonoured(p: Protocol, s: VoteNet, v: Vote)
    requires Honoured(p, s)
    ensures Honoured(p, s.(cast := s.cast + {v}))
  {
    hide HasQuorum, GoodBook;
    var cast := s.cast + {v};
    forall i | 0 <= i < |s.books| ensures GoodBook(cast, s.books[i]) { GoodBookStays(s.cast, cast, s.books[i]); }
    forall i, d | 0 <= i < |s.decided| && d in s.decided[i] ensures HasQuorum(p.electorate, cast, d.0, d.1) {
      QuorumsStay(p.electorate, s.cast, cast, d.0, d.1);
    }
  }

  lemma HeardKeepsHonoured(p: Protocol, s: VoteNet, i: nat, v: Vote)
    requires Honoured(p, s) && i < |p.keys| && (p.verify(v) ==> v in s.cast)
    ensures Honoured(p, Heard(p, s, i, v))
  {
    hide HasQuorum, GoodBook, ReceiveVote, Decision;
    ReceiveKeepsGood(p.network, p.verify, p.electorate, s.cast, s.books[i], v);
    if Decision(p.network, p.verify, p.electorate, s.books[i], v).Some? {
      DecisionHasQuorum(p.network, p.verify, p.electorate, s.cast, s.books[i], v);
    }
  }

  lemma MovedKeepsHonoured(p: Protocol, s: VoteNet, m: VoteMove)
    requires Honoured(p, s)
    ensures Honoured(p, Moved(s, m))
  {
    hide PostAfter, GoodBook, HasQuorum;
  }

  lemma AdoptKeepsHonoured(p: Protocol, s: VoteNet, m: VoteMove)
    requires Honoured(p, s) && MayHappen(p, s, m) && m.Adopt?
    ensures Honoured(p, Happened(p, s, m))
  {
    hide HasQuorum, PostAfter;
    MovedKeepsHonoured(p, s, m);
    var t := Moved(s, m);
    var b := if m.marks then t.books[m.i].(lastEpoch := m.final.0, lastRoot := m.final.1) else t.books[m.i];
    SameVotesGood(s.cast, t.books[m.i], b);
  }

  lemma HappenedKeepsHonoured(p: Protocol, s: VoteNet, m: VoteMove)
    requires Honoured(p, s) && MayHappen(p, s, m)
    ensures Honoured(p, Happened(p, s, m))
  {
    hide HasQuorum, GoodBook, Heard, PostAfter;
    MovedKeepsHonoured(p, s, m);
    var t := Moved(s, m);
    match m
    case Tick(i, now, ballot) =>
      if ballot.Some? && Passes(s.posts[i], ClosableEpoch(now)) {
        CastKeepsHonoured(p, t, ballot.value);
        HeardKeepsHonoured(p, t.(cast := t.cast + {ballot.value}), i, ballot.value);
      }
    case Restart(i, now) => EmptyIsGood(s.cast);
    case Persist(i) =>
    case Adopt(i, epoch, final, marks) => AdoptKeepsHonoured(p, s, m);
    case Foreign(v) => CastKeepsHonoured(p, t, v);
    case Hear(i, v) => HeardKeepsHonoured(p, t, i, v);
  }

  lemma EmptyIsGood(cast: set<Vote>)
    ensures GoodBook(cast, EMPTY)
  { }

  ghost function FreshNet(p: Protocol): (r: VoteNet)
    ensures Sized(p, r)
  {
    var post := Post(p.genesisEpoch, p.genesisEpoch, -1);
    VoteNet(seq(|p.keys|, i => EMPTY), seq(|p.keys|, i => post), seq(|p.keys|, i => {}), {})
  }

  ghost function ReachedNet(p: Protocol, moves: seq<VoteMove>): (r: Option<VoteNet>)
    ensures r.Some? ==> Sized(p, r.value)
  {
    if moves == [] then Some(FreshNet(p))
    else
      var before := ReachedNet(p, moves[..|moves| - 1]);
      var m := moves[|moves| - 1];
      if before.None? || !MayHappen(p, before.value, m) then None else Some(Happened(p, before.value, m))
  }

  lemma {:induction false} ReachedIsHonoured(p: Protocol, moves: seq<VoteMove>)
    requires ReachedNet(p, moves).Some?
    ensures Honoured(p, ReachedNet(p, moves).value)
  {
    hide Honoured, MayHappen, Happened;
    if moves == [] {
      FreshIsHonoured(p);
    } else {
      var n := |moves| - 1;
      ReachedIsHonoured(p, moves[..n]);
      HappenedKeepsHonoured(p, ReachedNet(p, moves[..n]).value, moves[n]);
    }
  }

  lemma FreshIsHonoured(p: Protocol)
    ensures Honoured(p, FreshNet(p))
  { }

  // ---- who can sign two roots ----

  // Each node signs with a key of its own.
  ghost predicate OwnKeys(p: Protocol) { forall i, j :: 0 <= i < j < |p.keys| ==> p.keys[i] != p.keys[j] }

  // Node i's post before move k.
  ghost function PostAt(p: Protocol, moves: seq<VoteMove>, k: nat, i: nat): Post
    requires k <= |moves| && i < |p.keys| && ReachedNet(p, moves[..k]).Some?
  {
    ReachedNet(p, moves[..k]).value.posts[i]
  }

  // Move k is a tick at which the clock of node i closes the epoch of v, its ballot.
  ghost predicate OffersAt(p: Protocol, moves: seq<VoteMove>, k: nat, i: nat, v: Vote) {
    && k < |moves| && i < |p.keys| && ReachedNet(p, moves[..k]).Some?
    && moves[k].Tick? && moves[k].i == i && moves[k].ballot == Some(v) && v.body.epoch == ClosableEpoch(moves[k].now)
  }

  // And it is cast: it gets past the guards.
  ghost predicate VotesAt(p: Protocol, moves: seq<VoteMove>, k: nat, i: nat, v: Vote) {
    OffersAt(p, moves, k, i, v) && Passes(PostAt(p, moves, k, i), v.body.epoch)
  }

  lemma Unfold(p: Protocol, moves: seq<VoteMove>)
    requires moves != [] && ReachedNet(p, moves).Some?
    ensures var s := ReachedNet(p, moves[..|moves| - 1]);
            s.Some? && MayHappen(p, s.value, moves[|moves| - 1])
            && ReachedNet(p, moves).value == Happened(p, s.value, moves[|moves| - 1])
  { }

  lemma CastGrows(p: Protocol, s: VoteNet, m: VoteMove)
    requires Sized(p, s) && MayHappen(p, s, m)
    ensures s.cast <= Happened(p, s, m).cast
    ensures forall v :: v in Happened(p, s, m).cast && v !in s.cast ==>
              m == Foreign(v) || (m.Tick? && m.ballot == Some(v) && Passes(s.posts[m.i], ClosableEpoch(m.now)))
    ensures m.Tick? && m.ballot.Some? && Passes(s.posts[m.i], ClosableEpoch(m.now)) ==>
              m.ballot.value in Happened(p, s, m).cast
  {
    hide PostAfter;
  }

  // Every vote under a node's key was cast by that node at some tick.
  lemma {:induction false} NodeCastIt(p: Protocol, moves: seq<VoteMove>, i: nat, v: Vote) returns (k: nat)
    requires ReachedNet(p, moves).Some? && OwnKeys(p) && i < |p.keys|
    requires v in ReachedNet(p, moves).value.cast && v.voter == p.keys[i]
    ensures VotesAt(p, moves, k, i, v)
  {
    hide MayHappen, Happened;
    k := 0;
    if moves != [] {
      var n := |moves| - 1;
      Unfold(p, moves);
      var s := ReachedNet(p, moves[..n]).value;
      CastGrows(p, s, moves[n]);
      if v in s.cast {
        k := NodeCastIt(p, moves[..n], i, v);
        assert moves[..n][..k] == moves[..k];
      } else {
        k := n;
        TickerIsVoter(p, s, moves[n], i, v);
      }
    }
  }

  lemma TickerIsVoter(p: Protocol, s: VoteNet, m: VoteMove, i: nat, v: Vote)
    requires MayHappen(p, s, m) && OwnKeys(p) && i < |p.keys| && v.voter == p.keys[i]
    requires m == Foreign(v) || (m.Tick? && m.ballot == Some(v))
    ensures m.Tick? && m.i == i && m.ballot == Some(v) && v.body.epoch == ClosableEpoch(m.now)
  { }

  lemma {:induction false} VoteStaysCast(p: Protocol, moves: seq<VoteMove>, k: nat, i: nat, v: Vote)
    requires ReachedNet(p, moves).Some? && VotesAt(p, moves, k, i, v)
    ensures v in ReachedNet(p, moves).value.cast
  {
    hide MayHappen, Happened;
    var n := |moves| - 1;
    Unfold(p, moves);
    CastGrows(p, ReachedNet(p, moves[..n]).value, moves[n]);
    if k < n {
      assert moves[..n][..k] == moves[..k];
      VoteStaysCast(p, moves[..n], k, i, v);
    }
  }

  lemma {:induction false} ReachedBefore(p: Protocol, moves: seq<VoteMove>, k: nat)
    requires ReachedNet(p, moves).Some? && k <= |moves|
    ensures ReachedNet(p, moves[..k]).Some?
  {
    if k < |moves| {
      assert moves[..|moves| - 1][..k] == moves[..k];
      ReachedBefore(p, moves[..|moves| - 1], k);
    } else {
      assert moves[..k] == moves;
    }
  }

  lemma PostMoves(p: Protocol, moves: seq<VoteMove>, k: nat, i: nat)
    requires k < |moves| && i < |p.keys| && ReachedNet(p, moves[..k + 1]).Some?
    ensures ReachedNet(p, moves[..k]).Some?
    ensures PostAt(p, moves, k + 1, i) == PostAfter(PostAt(p, moves, k, i), moves[k], i)
  {
    hide MayHappen, PostAfter;
    assert moves[..k + 1][..k] == moves[..k];
    Unfold(p, moves[..k + 1]);
  }

  lemma VoterIsNode(p: Protocol, moves: seq<VoteMove>, k: nat, i: nat, v: Vote)
    requires ReachedNet(p, moves).Some? && VotesAt(p, moves, k, i, v)
    ensures v.voter == p.keys[i]
  {
    ReachedBefore(p, moves, k + 1);
    assert moves[..k + 1][..k] == moves[..k];
    Unfold(p, moves[..k + 1]);
  }

  // ---- when the guards let a second vote through ----

  predicate Restarts(m: VoteMove, i: nat) { m.Restart? && m.i == i }
  predicate Adopts(m: VoteMove, i: nat) { m.Adopt? && m.i == i }

  // The clock of node i closes at least this epoch at the tick.
  predicate ReadsUpTo(m: VoteMove, i: nat, epoch: int) { m.Tick? && m.i == i && epoch <= ClosableEpoch(m.now) }

  // Node i notes this epoch or a later one as voted at.
  ghost predicate NotesAt(p: Protocol, moves: seq<VoteMove>, k: nat, i: nat, epoch: int) {
    && k < |moves| && i < |p.keys| && ReachedNet(p, moves[..k]).Some?
    && ReadsUpTo(moves[k], i, epoch) && PostAt(p, moves, k, i).processed < ClosableEpoch(moves[k].now)
  }

  // Between j and k the node restarts, and notes neither this epoch nor a later one since.
  ghost predicate Forgets(p: Protocol, moves: seq<VoteMove>, i: nat, epoch: int, j: nat, k: nat) {
    exists r: nat :: j < r < k && ForgetsAt(p, moves, i, epoch, r, k)
  }

  ghost predicate ForgetsAt(p: Protocol, moves: seq<VoteMove>, i: nat, epoch: int, r: nat, k: nat) {
    r < k <= |moves| && Restarts(moves[r], i) && forall t: nat :: r < t < k ==> !NotesAt(p, moves, t, i, epoch)
  }

  // A restart with clock and disk below the epoch, or the adoption of a snapshot below it.
  ghost predicate SetsBack(p: Protocol, moves: seq<VoteMove>, k: nat, i: nat, epoch: int) {
    && k < |moves| && i < |p.keys| && ReachedNet(p, moves[..k]).Some?
    && ((Restarts(moves[k], i) && ClosableEpoch(moves[k].now) < epoch && PostAt(p, moves, k, i).saved < epoch)
        || (Adopts(moves[k], i) && moves[k].epoch < epoch))
  }

  // Between j and k the node is set back below the epoch, and since then it neither restarts
  // nor adopts, nor does its clock close the epoch.
  ghost predicate FallsBehind(p: Protocol, moves: seq<VoteMove>, i: nat, epoch: int, j: nat, k: nat) {
    exists q: nat :: j < q < k && SetsBack(p, moves, q, i, epoch) && StaysBehind(moves, i, epoch, q, k)
  }

  ghost predicate StaysBehind(moves: seq<VoteMove>, i: nat, epoch: int, q: nat, k: nat) {
    k <= |moves| && forall t: nat :: q < t < k ==>
      !Restarts(moves[t], i) && !Adopts(moves[t], i) && !ReadsUpTo(moves[t], i, epoch)
  }

  lemma StepOfLastVoted(post: Post, m: VoteMove, i: nat, epoch: int)
    requires epoch >= 0
    ensures PostAfter(post, m, i).lastVoted < epoch <==>
              Restarts(m, i)
              || (post.lastVoted < epoch && !(ReadsUpTo(m, i, epoch) && post.processed < ClosableEpoch(m.now)))
  { }

  lemma StepOfProcessed(post: Post, m: VoteMove, i: nat, epoch: int)
    ensures PostAfter(post, m, i).processed < epoch <==>
              if Restarts(m, i) then ClosableEpoch(m.now) < epoch && post.saved < epoch
              else if Adopts(m, i) then m.epoch < epoch
              else post.processed < epoch && !ReadsUpTo(m, i, epoch)
  { }

  lemma ForgetsStep(p: Protocol, moves: seq<VoteMove>, i: nat, epoch: int, j: nat, k: nat)
    requires j < k < |moves|
    ensures Forgets(p, moves, i, epoch, j, k + 1) <==>
              Restarts(moves[k], i) || (Forgets(p, moves, i, epoch, j, k) && !NotesAt(p, moves, k, i, epoch))
  {
    hide NotesAt;
    if Restarts(moves[k], i) {
      assert ForgetsAt(p, moves, i, epoch, k, k + 1);
    } else {
      var n := k + 1;
      if r: nat :| j < r < n && ForgetsAt(p, moves, i, epoch, r, n) {
        assert ForgetsAt(p, moves, i, epoch, r, k);
      }
      if r: nat :| j < r < k && ForgetsAt(p, moves, i, epoch, r, k) && !NotesAt(p, moves, k, i, epoch) {
        assert ForgetsAt(p, moves, i, epoch, r, k + 1);
      }
    }
  }

  lemma FallsBehindStep(p: Protocol, moves: seq<VoteMove>, i: nat, epoch: int, j: nat, k: nat)
    requires j < k < |moves|
    ensures FallsBehind(p, moves, i, epoch, j, k + 1) <==>
              if Restarts(moves[k], i) || Adopts(moves[k], i) then SetsBack(p, moves, k, i, epoch)
              else FallsBehind(p, moves, i, epoch, j, k) && !ReadsUpTo(moves[k], i, epoch)
  {
    assert StaysBehind(moves, i, epoch, k, k + 1);
    forall q: nat | j < q < k
      ensures StaysBehind(moves, i, epoch, q, k + 1) <==>
                && StaysBehind(moves, i, epoch, q, k) && !ReadsUpTo(moves[k], i, epoch)
                && !Restarts(moves[k], i) && !Adopts(moves[k], i)
    { }
  }

  lemma {:induction false} ForgetsIff(p: Protocol, moves: seq<VoteMove>, i: nat, epoch: int, j: nat, k: nat)
    requires j < k <= |moves| && i < |p.keys| && epoch >= 0
    requires ReachedNet(p, moves[..j + 1]).Some? && ReachedNet(p, moves[..k]).Some?
    requires PostAt(p, moves, j + 1, i).lastVoted >= epoch
    ensures PostAt(p, moves, k, i).lastVoted < epoch <==> Forgets(p, moves, i, epoch, j, k)
    decreases k
  {
    hide ReachedNet, PostAt, PostAfter, ForgetsAt, ClosableEpoch;
    if k > j + 1 {
      PostMoves(p, moves, k - 1, i);
      ForgetsIff(p, moves, i, epoch, j, k - 1);
      StepOfLastVoted(PostAt(p, moves, k - 1, i), moves[k - 1], i, epoch);
      ForgetsStep(p, moves, i, epoch, j, k - 1);
    }
  }

  lemma {:induction false} FallsBehindIff(p: Protocol, moves: seq<VoteMove>, i: nat, epoch: int, j: nat, k: nat)
    requires j < k <= |moves| && i < |p.keys|
    requires ReachedNet(p, moves[..j + 1]).Some? && ReachedNet(p, moves[..k]).Some?
    requires PostAt(p, moves, j + 1, i).processed >= epoch
    ensures PostAt(p, moves, k, i).processed < epoch <==> FallsBehind(p, moves, i, epoch, j, k)
    decreases k
  {
    hide ReachedNet, PostAt, PostAfter, StaysBehind, ClosableEpoch;
    if k > j + 1 {
      PostMoves(p, moves, k - 1, i);
      FallsBehindIff(p, moves, i, epoch, j, k - 1);
      StepOfProcessed(PostAt(p, moves, k - 1, i), moves[k - 1], i, epoch);
      FallsBehindStep(p, moves, i, epoch, j, k - 1);
    }
  }

  lemma {:induction false} LastVotedBounded(p: Protocol, moves: seq<VoteMove>, i: nat)
    requires ReachedNet(p, moves).Some? && i < |p.keys|
    ensures ReachedNet(p, moves).value.posts[i].lastVoted >= -1
  {
    hide MayHappen;
    if moves != [] {
      Unfold(p, moves);
      LastVotedBounded(p, moves[..|moves| - 1], i);
    }
  }

  // After a vote for an epoch, the node votes for it again, when its clock closes it again,
  // exactly if it has forgotten the vote in a restart and stands behind the epoch: because
  // the restart found the clock and the disk behind it, or a snapshot behind it was adopted.
  lemma SecondVoteIff(p: Protocol, moves: seq<VoteMove>, j: nat, k: nat, i: nat, v: Vote, w: Vote)
    requires VotesAt(p, moves, j, i, v) && j < k && OffersAt(p, moves, k, i, w) && v.body.epoch == w.body.epoch
    ensures VotesAt(p, moves, k, i, w) <==>
              Forgets(p, moves, i, v.body.epoch, j, k) && FallsBehind(p, moves, i, v.body.epoch, j, k)
  {
    hide Forgets, FallsBehind, ReachedNet;
    var e := v.body.epoch;
    LastVotedBounded(p, moves[..j], i);
    assert moves[..k][..j + 1] == moves[..j + 1];
    ReachedBefore(p, moves[..k], j + 1);
    PostMoves(p, moves, j, i);
    ForgetsIff(p, moves, i, e, j, k);
    FallsBehindIff(p, moves, i, e, j, k);
  }

  // Node i votes for the epoch, and offers another root for it when the guards let it.
  ghost predicate ChangesItsMind(p: Protocol, moves: seq<VoteMove>, i: nat, epoch: int, j: nat, k: nat, v: Vote,
                                 w: Vote) {
    && VotesAt(p, moves, j, i, v) && OffersAt(p, moves, k, i, w) && j < k
    && v.body.epoch == w.body.epoch == epoch && v.body.root != w.body.root
    && Forgets(p, moves, i, epoch, j, k) && FallsBehind(p, moves, i, epoch, j, k)
  }

  // A node signs two roots for an epoch exactly if, after a vote for it, it forgets the vote,
  // falls behind the epoch, and has come to another root when its clock closes it again.
  lemma EquivocatesIff(p: Protocol, moves: seq<VoteMove>, i: nat, epoch: int)
    requires ReachedNet(p, moves).Some? && OwnKeys(p) && i < |p.keys|
    ensures Equivocates(ReachedNet(p, moves).value.cast, p.keys[i], epoch)
       <==> exists j: nat, k: nat, v, w :: ChangesItsMind(p, moves, i, epoch, j, k, v, w)
  {
    hide ReachedNet, OwnKeys, Forgets, FallsBehind, Passes;
    var cast := ReachedNet(p, moves).value.cast;
    if Equivocates(cast, p.keys[i], epoch) {
      var v, w :| v in cast && w in cast && v.voter == w.voter == p.keys[i] && v.body.epoch == w.body.epoch == epoch
                  && v.body.root != w.body.root;
      var j := NodeCastIt(p, moves, i, v);
      var k := NodeCastIt(p, moves, i, w);
      if j < k {
        SecondVoteIff(p, moves, j, k, i, v, w);
        assert ChangesItsMind(p, moves, i, epoch, j, k, v, w);
      } else {
        SecondVoteIff(p, moves, k, j, i, w, v);
        assert ChangesItsMind(p, moves, i, epoch, k, j, w, v);
      }
    }
    if j: nat, k: nat, v, w :| ChangesItsMind(p, moves, i, epoch, j, k, v, w) {
      SecondVoteIff(p, moves, j, k, i, v, w);
      VoteStaysCast(p, moves, j, i, v);
      VoteStaysCast(p, moves, k, i, w);
      VoterIsNode(p, moves, j, i, v);
      VoterIsNode(p, moves, k, i, w);
    }
  }

  // ---- clocks that keep time ----

  predicate Closes(m: VoteMove, i: nat, epoch: int) { m.Tick? && m.i == i && ClosableEpoch(m.now) == epoch }

  // Whenever the node's clock closes the epoch both before and after a restart, the restart
  // does not find the clock behind it, and no snapshot behind it is adopted in between.
  ghost predicate KeepsTime(moves: seq<VoteMove>, i: nat, epoch: int) {
    forall j: nat, r: nat, k: nat :: RestartsWithin(moves, i, epoch, j, r, k) ==>
      && epoch <= ClosableEpoch(moves[r].now)
      && (forall a: nat :: r < a < k && Adopts(moves[a], i) ==> epoch <= moves[a].epoch)
  }

  // The clock closes the epoch at j and again at k, with a restart in between.
  ghost predicate RestartsWithin(moves: seq<VoteMove>, i: nat, epoch: int, j: nat, r: nat, k: nat) {
    && j < r < k < |moves|
    && Closes(moves[j], i, epoch) && Restarts(moves[r], i) && Closes(moves[k], i, epoch)
  }

  // Such a node never signs two roots for the epoch, whatever it computes after a restart.
  lemma KeepingTimeIsSteady(p: Protocol, moves: seq<VoteMove>, i: nat, epoch: int)
    requires ReachedNet(p, moves).Some? && OwnKeys(p) && i < |p.keys| && KeepsTime(moves, i, epoch)
    ensures !Equivocates(ReachedNet(p, moves).value.cast, p.keys[i], epoch)
  {
    hide ReachedNet, OwnKeys, KeepsTime, Forgets, FallsBehind, VotesAt;
    EquivocatesIff(p, moves, i, epoch);
    if j: nat, k: nat, v, w :| ChangesItsMind(p, moves, i, epoch, j, k, v, w) {
      VoteCloses(p, moves, j, i, v);
      NeverSetBack(p, moves, i, epoch, j, k);
    }
  }

  lemma VoteCloses(p: Protocol, moves: seq<VoteMove>, k: nat, i: nat, v: Vote)
    requires VotesAt(p, moves, k, i, v)
    ensures k < |moves| && Closes(moves[k], i, v.body.epoch)
  {
    hide ReachedNet;
  }

  lemma NeverSetBack(p: Protocol, moves: seq<VoteMove>, i: nat, epoch: int, j: nat, k: nat)
    requires j < k < |moves| && Closes(moves[j], i, epoch) && Closes(moves[k], i, epoch) && KeepsTime(moves, i, epoch)
    ensures !(Forgets(p, moves, i, epoch, j, k) && FallsBehind(p, moves, i, epoch, j, k))
  {
    hide ReachedNet, NotesAt, PostAt;
    forall r: nat | j < r < k && Restarts(moves[r], i) ensures epoch <= ClosableEpoch(moves[r].now) {
      assert RestartsWithin(moves, i, epoch, j, r, k);
    }
    forall r: nat, a: nat | j < r < a < k && Restarts(moves[r], i) && Adopts(moves[a], i)
      ensures epoch <= moves[a].epoch
    {
      assert RestartsWithin(moves, i, epoch, j, r, k);
    }
  }

  predicate Reads(m: VoteMove, i: nat) { (m.Tick? || m.Restart?) && m.i == i }

  ghost predicate RisingClock(moves: seq<VoteMove>, i: nat) {
    forall j, k :: 0 <= j < k < |moves| && Reads(moves[j], i) && Reads(moves[k], i) ==> moves[j].now <= moves[k].now
  }

  // Within an epoch that the clock closed before a restart and closes again after it, a
  // snapshot behind that epoch is adopted.
  ghost predicate AdoptsWithin(moves: seq<VoteMove>, i: nat, epoch: int) {
    exists j: nat, r: nat, a: nat, k: nat ::
      RestartsWithin(moves, i, epoch, j, r, k) && r < a < k && Adopts(moves[a], i) && moves[a].epoch < epoch
  }

  // A clock that never falls keeps time, through any restarts, but for such an adoption.
  lemma RisingClockKeepsTimeIff(moves: seq<VoteMove>, i: nat, epoch: int)
    requires RisingClock(moves, i)
    ensures KeepsTime(moves, i, epoch) <==> !AdoptsWithin(moves, i, epoch)
  { }

  // ---- and clocks that do not ----

  lemma OneMove(p: Protocol, moves: seq<VoteMove>, m: VoteMove)
    requires ReachedNet(p, moves).Some? && MayHappen(p, ReachedNet(p, moves).value, m)
    ensures ReachedNet(p, moves + [m]) == Some(Happened(p, ReachedNet(p, moves).value, m))
  {
    hide MayHappen, Happened;
    assert (moves + [m])[..|moves|] == moves;
  }

  // After any run, a vote and a restart, the ballot of a tick that closes the voted epoch
  // again is cast exactly if the restart found clock and disk behind that epoch.
  lemma RestartVotesAgainIff(p: Protocol, moves: seq<VoteMove>, i: nat, now: int, back: int, v: Vote, w: Vote)
    requires ReachedNet(p, moves).Some? && i < |p.keys|
    requires p.verify(v) && p.verify(w) && v.voter == w.voter == p.keys[i]
    requires v.body.epoch == w.body.epoch == ClosableEpoch(now) >= 0
    requires Passes(ReachedNet(p, moves).value.posts[i], ClosableEpoch(now))
    ensures var more := moves + [Tick(i, now, Some(v)), Restart(i, back), Tick(i, now, Some(w))];
            && ReachedNet(p, more).Some? && VotesAt(p, more, |moves|, i, v)
            && (VotesAt(p, more, |moves| + 2, i, w) <==>
                ClosableEpoch(back) < ClosableEpoch(now) &&
                  ReachedNet(p, moves).value.posts[i].saved < ClosableEpoch(now))
  {
    hide ReachedNet, Heard;
    var a := moves + [Tick(i, now, Some(v))];
    var b := a + [Restart(i, back)];
    var c := b + [Tick(i, now, Some(w))];
    assert c == moves + [Tick(i, now, Some(v)), Restart(i, back), Tick(i, now, Some(w))];
    OneMove(p, moves, Tick(i, now, Some(v)));
    OneMove(p, a, Restart(i, back));
    OneMove(p, b, Tick(i, now, Some(w)));
    assert c[..|moves|] == moves && c[..|moves| + 2] == b;
  }

  // And with a snapshot adopted after the restart, exactly if the snapshot is behind it.
  lemma AdoptionVotesAgainIff(p: Protocol, moves: seq<VoteMove>, i: nat, now: int, v: Vote, w: Vote, epoch: int,
                              final: (int, string))
    requires ReachedNet(p, moves).Some? && i < |p.keys|
    requires p.verify(v) && p.verify(w) && v.voter == w.voter == p.keys[i]
    requires v.body.epoch == w.body.epoch == ClosableEpoch(now) >= 0
    requires Passes(ReachedNet(p, moves).value.posts[i], ClosableEpoch(now))
    requires HasQuorum(p.electorate, ReachedNet(p, moves).value.cast, final.0, final.1)
    ensures var more := moves
              + [Tick(i, now, Some(v)), Restart(i, now), Adopt(i, epoch, final, false), Tick(i, now, Some(w))];
            && ReachedNet(p, more).Some? && VotesAt(p, more, |moves|, i, v)
            && (VotesAt(p, more, |moves| + 3, i, w) <==> epoch < ClosableEpoch(now))
  {
    hide ReachedNet, Heard, HasQuorum;
    var a := moves + [Tick(i, now, Some(v))];
    var b := a + [Restart(i, now)];
    var c := b + [Adopt(i, epoch, final, false)];
    var d := c + [Tick(i, now, Some(w))];
    assert d == moves + [Tick(i, now, Some(v)), Restart(i, now), Adopt(i, epoch, final, false), Tick(i, now, Some(w))];
    OneMove(p, moves, Tick(i, now, Some(v)));
    OneMove(p, a, Restart(i, now));
    CastGrows(p, ReachedNet(p, moves).value, Tick(i, now, Some(v)));
    CastGrows(p, ReachedNet(p, a).value, Restart(i, now));
    QuorumsStay(p.electorate, ReachedNet(p, moves).value.cast, ReachedNet(p, b).value.cast, final.0, final.1);
    OneMove(p, b, Adopt(i, epoch, final, false));
    OneMove(p, c, Tick(i, now, Some(w)));
    assert d[..|moves|] == moves && d[..|moves| + 3] == c;
  }

  // ---- agreement ----

  // No two nodes ever finalize different roots for one epoch, in any run, while those who
  // sign two roots for that epoch hold less than 34% of the trust.
  lemma AgreementUnderBound(p: Protocol, moves: seq<VoteMove>, i: nat, j: nat, epoch: int, root: string, other: string)
    requires ProperWeights(p.electorate) && ReachedNet(p, moves).Some?
    requires var s := ReachedNet(p, moves).value;
             && i < |s.decided| && j < |s.decided|
             && (epoch, root) in s.decided[i] && (epoch, other) in s.decided[j]
             && TrustOf(p.electorate, Equivocators(p.electorate, s.cast, epoch)) < 0.34 * p.electorate.total
    ensures root == other
  {
    hide ReachedNet, HasQuorum, Equivocators;
    ReachedIsHonoured(p, moves);
    var s := ReachedNet(p, moves).value;
    assert HasQuorum(p.electorate, s.cast, (epoch, root).0, (epoch, root).1);
    assert HasQuorum(p.electorate, s.cast, (epoch, other).0, (epoch, other).1);
    QuorumsAgree(p.electorate, s.cast, epoch, root, other);
  }

  ghost function TimelyKeys(p: Protocol, moves: seq<VoteMove>, epoch: int): set<string> {
    set i | 0 <= i < |p.keys| && KeepsTime(moves, i, epoch) :: p.keys[i]
  }

  // The guards and the catch-up give that bound: no two nodes ever finalize different roots
  // for one epoch while all others than the nodes that run the program with a clock that
  // keeps time hold less than 34% of the trust - however often those restart.
  lemma FinalityAgrees(p: Protocol, moves: seq<VoteMove>, i: nat, j: nat, epoch: int, root: string, other: string)
    requires ProperWeights(p.electorate) && OwnKeys(p) && ReachedNet(p, moves).Some?
    requires var s := ReachedNet(p, moves).value;
             && i < |s.decided| && j < |s.decided|
             && (epoch, root) in s.decided[i] && (epoch, other) in s.decided[j]
    requires TrustOf(p.electorate,
                     p.electorate.weights.Keys - TimelyKeys(p, moves, epoch)) < 0.34 * p.electorate.total
    ensures root == other
  {
    hide ReachedNet, KeepsTime, OwnKeys;
    var s := ReachedNet(p, moves).value;
    var e := p.electorate;
    var others := e.weights.Keys - TimelyKeys(p, moves, epoch);
    forall x | x in Equivocators(e, s.cast, epoch) ensures x in others {
      if k :| 0 <= k < |p.keys| && KeepsTime(moves, k, epoch) && p.keys[k] == x {
        KeepingTimeIsSteady(p, moves, k, epoch);
      }
    }
    TrustIsMonotone(e, Equivocators(e, s.cast, epoch), others);
    AgreementUnderBound(p, moves, i, j, epoch, root, other);
  }

  // If the voters who only ever sign the true root of an epoch hold more than 33% of the
  // trust, then nothing but the true root is ever finalized for it.
  lemma OnlyTrueRootsFinalize(p: Protocol, moves: seq<VoteMove>, honest: set<string>, i: nat, epoch: int, root: string,
                              truth: string)
    requires ProperWeights(p.electorate) && ReachedNet(p, moves).Some?
    requires var s := ReachedNet(p, moves).value;
             && i < |s.decided| && (epoch, root) in s.decided[i]
             && (forall v :: v in s.cast && v.voter in honest && v.body.epoch == epoch ==> v.body.root == truth)
    requires honest <= p.electorate.weights.Keys && TrustOf(p.electorate, honest) > 0.33 * p.electorate.total
    ensures root == truth
  {
    hide ReachedNet, HasQuorum;
    ReachedIsHonoured(p, moves);
    var s := ReachedNet(p, moves).value;
    assert HasQuorum(p.electorate, s.cast, (epoch, root).0, (epoch, root).1);
    QuorumMeetsHonest(p.electorate, s.cast, epoch, root, honest);
    var x :| x in honest && Signed(s.cast, x, epoch, root);
  }

  lemma QuorumMeetsHonest(e: Electorate, cast: set<Vote>, epoch: int, root: string, honest: set<string>)
    requires ProperWeights(e) && HasQuorum(e, cast, epoch, root)
    requires honest <= e.weights.Keys && TrustOf(e, honest) > 0.33 * e.total
    ensures exists x :: x in honest && Signed(cast, x, epoch, root)
  {
    var s :| IsQuorum(e, cast, epoch, root, s);
    TrustOverlap(e, s, honest);
    TrustIsMonotone(e, s + honest, e.weights.Keys);
    assert s * honest != {};
    var x :| x in s * honest;
  }

  // ---- a quirk: ids do not name the voter ----

  // The voter has a vote for the root already.
  predicate VotedFor(buckets: seq<Bucket>, root: string, voter: string) {
    var k := PlaceOf(RootKey(), buckets, root);
    k < |buckets| && HasVoted(buckets[k].votes, voter)
  }

  // Two masters that sign identical bodies produce votes with one id, and a node that has
  // one of them in its dedup cache never counts the other: a verified vote from the
  // electorate is stored exactly if its id is unknown and its voter has no vote for the root.
  lemma StoredIff(network: string, verify: Vote -> bool, e: Electorate, cast: set<Vote>, b: Book, v: Vote)
    requires GoodBook(cast, b) && v.body.network == network && v.voter in e.weights && verify(v)
    ensures var before := if v.body.epoch in b.votes then b.votes[v.body.epoch] else [];
            var after := ApplyVote(network, verify, e, b, v);
            (v.body.epoch in after.votes && after.votes[v.body.epoch] != before)
              <==> v.id !in b.seen && !VotedFor(before, v.body.root, v.voter)
  {
    hide TryFinalize, HasVoted;
    var before := if v.body.epoch in b.votes then b.votes[v.body.epoch] else [];
    StoreChangesIff(before, v);
    if Takes(network, verify, e, b, v) { assert ApplyVote(network, verify, e, b, v).votes == Counted(b, v).votes; }
  }

  lemma StoreChangesIff(before: seq<Bucket>, v: Vote)
    ensures Store(before, v) != before
       <==> !VotedFor(before, v.body.root, v.voter)
  {
    var k := PlaceOf(RootKey(), before, v.body.root);
    if k < |before| && !HasVoted(before[k].votes, v.voter) {
      assert |Store(before, v)[k].votes| == |before[k].votes| + 1;
    }
  }
}
