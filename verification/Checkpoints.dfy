// The checkpoint bookkeeping as the program runs it (class Checkpoints in Checkpoints.ts),
// proved to compute the functions of Votes, about which Finality is proved.
module Checkpoints {
  import opened Events
  import opened Order
  import opened Votes

  class Checkpoints {
    const network: string
    const verify: Vote -> bool

    var votes: map<int, seq<Bucket>>
    var seen: seq<string>
    var finalized: map<int, Final>
    var lastFinalizedEpoch: int
    var lastFinalizedRoot: string

    ghost function View(): Book
      reads this
    {
      Book(votes, seen, finalized, lastFinalizedEpoch, lastFinalizedRoot)
    }

    constructor (n: string, v: Vote -> bool)
      ensures network == n && verify == v && View() == Book(map[], [], map[], -1, "00")
    {
      network, verify := n, v;
      votes, seen, finalized, lastFinalizedEpoch, lastFinalizedRoot := map[], [], map[], -1, "00";
    }

    // Receive a gossiped vote; reports a checkpoint that this vote finalizes.
    method ReceiveVote(vote: Vote, e: Electorate) returns (fin: Option<Final>)
      modifies this
      ensures View() == Votes.ReceiveVote(network, verify, e, old(View()), vote)
      ensures fin == Decision(network, verify, e, old(View()), vote)
    {
      fin := ApplyVote(vote, e);
      PruneAll();
    }

    method ApplyVote(vote: Vote, e: Electorate) returns (fin: Option<Final>)
      modifies this
      ensures View() == Votes.ApplyVote(network, verify, e, old(View()), vote)
      ensures fin == Decision(network, verify, e, old(View()), vote)
    {
      if vote.id in seen || vote.body.network != network { return None; }
      if vote.voter !in e.weights { return None; }
      if !verify(vote) { return None; }
      ghost var before := View();
      seen := seen + [vote.id];
      var byRoot := if vote.body.epoch in votes then votes[vote.body.epoch] else [];
      var k := PlaceOf(RootKey(), byRoot, vote.body.root);
      if k == |byRoot| {
        byRoot := byRoot + [Bucket(vote.body.root, [vote])];
      } else if !HasVoted(byRoot[k].votes, vote.voter) {
        byRoot := byRoot[k := byRoot[k].(votes := byRoot[k].votes + [vote])];
      }
      votes := votes[vote.body.epoch := byRoot];
      assert View() == Counted(before, vote);
      if vote.body.epoch in finalized { return None; }
      fin := FirstFinal(e, byRoot);
      if fin.Some? {
        finalized := finalized[fin.value.body.epoch := fin.value];
        if fin.value.body.epoch > lastFinalizedEpoch {
          lastFinalizedEpoch, lastFinalizedRoot := fin.value.body.epoch, fin.value.body.root;
        }
      }
    }

    method PruneAll()
      modifies this
      ensures View() == Prune(old(View()))
    {
      var voteCutoff := lastFinalizedEpoch - RETAIN_VOTE_EPOCHS;
      if voteCutoff > 0 {
        votes := map epoch | epoch in votes && epoch >= voteCutoff :: votes[epoch];
      }
      PruneFinalized();
      PruneSeen();
    }

    method PruneFinalized()
      modifies `finalized
      ensures finalized == Newest(old(finalized), FINALIZED_CAP)
    {
      while |finalized| > FINALIZED_CAP
        invariant Newest(finalized, FINALIZED_CAP) == Newest(old(finalized), FINALIZED_CAP)
        decreases |finalized|
      {
        var oldest := Oldest(finalized.Keys);
        NewestDropsOldest(finalized, FINALIZED_CAP, oldest);
        finalized := finalized - {oldest};
      }
    }

    method PruneSeen()
      modifies `seen
      ensures seen == if |old(seen)| > SEEN_CAP then old(seen)[SEEN_DROP..] else old(seen)
    {
      if |seen| > SEEN_CAP {
        ghost var full := seen;
        var i := 0;
        while i < SEEN_DROP
          invariant 0 <= i <= SEEN_DROP && |full| > SEEN_CAP && seen == full[i..]
        {
          seen := seen[1..];
          i := i + 1;
        }
      }
    }

    // The stored votes for an epoch and root: what fast sync serves as proof.
    function FinalizingVotes(epoch: int, root: string): seq<Vote>
      reads this
    {
      var byRoot := if epoch in votes then votes[epoch] else [];
      var k := PlaceOf(RootKey(), byRoot, root);
      if k < |byRoot| then byRoot[k].votes else []
    }
  }

  // tryFinalize: the first root whose voters hold enough of the trust.
  method FirstFinal(e: Electorate, buckets: seq<Bucket>) returns (fin: Option<Final>)
    ensures fin == TryFinalize(e, buckets)
  {
    if e.total <= 0.0 { return None; }
    var k := 0;
    while k < |buckets|
      invariant 0 <= k <= |buckets| && TryFinalize(e, buckets) == TryFinalize(e, buckets[k..])
    {
      assert buckets[k..][1..] == buckets[k + 1..];
      var group := Eligible(e, buckets[k].votes);
      if group != [] {
        var sum := SumSupport(e, group);
        var support := sum / e.total;
        if support >= FINALITY_THRESHOLD { return Some(Final(group[0].body, support, VotersOf(group))); }
      }
      k := k + 1;
    }
    return None;
  }

  method SumSupport(e: Electorate, group: seq<Vote>) returns (support: real)
    requires forall v :: v in group ==> v.voter in e.weights
    ensures support == Support(e, group)
  {
    support := 0.0;
    for i := 0 to |group|
      invariant support == Support(e, group[..i])
    {
      assert group[..i + 1][..i] == group[..i] && group[i] in group;
      support := support + e.weights[group[i].voter];
    }
    assert group[..|group|] == group;
  }

  method Oldest(epochs: set<int>) returns (oldest: int)
    requires epochs != {}
    ensures IsOldest(epochs, oldest)
  {
    ghost var _ := Pick(epochs);
    oldest :| oldest in epochs;
    var left := epochs;
    while left != {}
      invariant left <= epochs && oldest in epochs
      invariant forall y :: y in epochs ==> y in left || oldest <= y
      decreases |left|
    {
      ghost var _ := Pick(left);
      var x :| x in left;
      left := left - {x};
      if x < oldest { oldest := x; }
    }
  }

  lemma Pick(s: set<int>) returns (x: int)
    requires s != {}
    ensures x in s
  {
    x := OldestExists(s);
  }

  lemma OnlyOneOldest(s: set<int>, x: int, y: int)
    requires IsOldest(s, x) && IsOldest(s, y)
    ensures x == y
  { }

  lemma NewestDropsOldest(m: map<int, Final>, cap: nat, x: int)
    requires |m| > cap && IsOldest(m.Keys, x)
    ensures Newest(m, cap) == Newest(m - {x}, cap)
  {
    var y :| IsOldest(m.Keys, y) && Newest(m, cap) == Newest(m - {y}, cap);
    OnlyOneOldest(m.Keys, x, y);
  }
}
