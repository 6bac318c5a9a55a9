// Checkpoint votes and when they finalize (tryFinalize in consensus.ts, Checkpoints.ts).
module Votes {
  import opened Events
  import opened Order

  const FINALITY_THRESHOLD: real := 0.67
  const RETAIN_VOTE_EPOCHS: int := 256
  const FINALIZED_CAP: nat := 4096
  const SEEN_CAP: nat := 200_000
  const SEEN_DROP: nat := 20_000

  // What a voter signs. The id is a hash of this body and so does not name the voter.
  datatype Body = Body(
    network: string, epoch: int, root: string, prevRoot: string,
    emitted: nat, burned: nat, reserve: nat, timestamp: int)

  datatype Vote = Vote(body: Body, id: string, voter: string)

  datatype Final = Final(body: Body, support: real, voters: seq<string>)

  // The votes for one root, in order of arrival; the buckets of an epoch in order of first arrival.
  datatype Bucket = Bucket(root: string, votes: seq<Vote>)

  datatype Book = Book(
    votes: map<int, seq<Bucket>>, seen: seq<string>, finalized: map<int, Final>,
    lastEpoch: int, lastRoot: string)

  // Signing key -> real on-ledger trust, and the trust a quorum is measured against.
  datatype Electorate = Electorate(weights: map<string, real>, total: real)

  // ---- counting ----

  function RootKey(): Bucket -> string { (b: Bucket) => b.root }

  predicate HasVoted(votes: seq<Vote>, voter: string) { exists i :: 0 <= i < |votes| && votes[i].voter == voter }

  function Store(buckets: seq<Bucket>, v: Vote): seq<Bucket> {
    var k := PlaceOf(RootKey(), buckets, v.body.root);
    if k == |buckets| then buckets + [Bucket(v.body.root, [v])]
    else if HasVoted(buckets[k].votes, v.voter) then buckets
    else buckets[k := buckets[k].(votes := buckets[k].votes + [v])]
  }

  // The votes of voters in the electorate.
  function Eligible(e: Electorate, votes: seq<Vote>): (r: seq<Vote>)
    ensures forall v :: v in r ==> v in votes && v.voter in e.weights
  {
    if votes == [] then []
    else
      var n := |votes| - 1;
      Eligible(e, votes[..n]) + (if votes[n].voter in e.weights then [votes[n]] else [])
  }

  function Support(e: Electorate, votes: seq<Vote>): real
    requires forall v :: v in votes ==> v.voter in e.weights
  {
    if votes == [] then 0.0
    else
      var n := |votes| - 1;
      Support(e, votes[..n]) + e.weights[votes[n].voter]
  }

  function VotersOf(votes: seq<Vote>): (r: seq<string>)
    ensures |r| == |votes|
  {
    seq(|votes|, i requires 0 <= i < |votes| => votes[i].voter)
  }

  // tryFinalize over the buckets of one epoch: the first root with enough trust behind it.
  function TryFinalize(e: Electorate, buckets: seq<Bucket>): Option<Final> {
    if buckets == [] || e.total <= 0.0 then None
    else
      var group := Eligible(e, buckets[0].votes);
      if group != [] && Support(e, group) / e.total >= FINALITY_THRESHOLD
      then Some(Final(group[0].body, Support(e, group) / e.total, VotersOf(group)))
      else TryFinalize(e, buckets[1..])
  }

  // ---- receiving a vote ----

  predicate Takes(network: string, verify: Vote -> bool, e: Electorate, b: Book, v: Vote) {
    v.id !in b.seen && v.body.network == network && v.voter in e.weights && verify(v)
  }

  function Counted(b: Book, v: Vote): Book {
    var buckets := if v.body.epoch in b.votes then b.votes[v.body.epoch] else [];
    b.(seen := b.seen + [v.id], votes := b.votes[v.body.epoch := Store(buckets, v)])
  }

  function Finalize(b: Book, f: Final): Book {
    var c := b.(finalized := b.finalized[f.body.epoch := f]);
    if f.body.epoch > b.lastEpoch then c.(lastEpoch := f.body.epoch, lastRoot := f.body.root) else c
  }

  // The finalization that applying a vote brings about, if any.
  function Decision(network: string, verify: Vote -> bool, e: Electorate, b: Book, v: Vote): Option<Final> {
    if !Takes(network, verify, e, b, v) || v.body.epoch in b.finalized then None
    else TryFinalize(e, Counted(b, v).votes[v.body.epoch])
  }

  function ApplyVote(network: string, verify: Vote -> bool, e: Electorate, b: Book, v: Vote): Book {
    if !Takes(network, verify, e, b, v) then b
    else
      var d := Decision(network, verify, e, b, v);
      if d.Some? then Finalize(Counted(b, v), d.value) else Counted(b, v)
  }

  // ---- pruning ----

  ghost predicate IsOldest(s: set<int>, x: int) { x in s && forall y :: y in s ==> x <= y }

  lemma {:induction false} OldestExists(s: set<int>) returns (x: int)
    requires s != {}
    ensures IsOldest(s, x)
  {
    assert exists a :: a in s by { assert (forall a :: a !in s) ==> s == {}; }
    var a :| a in s;
    x := a;
    if s != {a} {
      assert s == {a} + (s - {a});
      var b := OldestExists(s - {a});
      if b < a { x := b; }
    }
  }

  // The newest `cap` finalized checkpoints.
  ghost function Newest(m: map<int, Final>, cap: nat): map<int, Final>
    decreases |m|
  {
    if |m| <= cap then m
    else
      assert exists x :: IsOldest(m.Keys, x) by { var x := OldestExists(m.Keys); }
      var x :| IsOldest(m.Keys, x);
      Newest(m - {x}, cap)
  }

  function KeptVotes(votes: map<int, seq<Bucket>>, cutoff: int): map<int, seq<Bucket>> {
    if cutoff > 0 then map e | e in votes && e >= cutoff :: votes[e] else votes
  }

  ghost function Prune(b: Book): Book {
    b.(votes := KeptVotes(b.votes, b.lastEpoch - RETAIN_VOTE_EPOCHS),
       finalized := Newest(b.finalized, FINALIZED_CAP),
       seen := if |b.seen| > SEEN_CAP then b.seen[SEEN_DROP..] else b.seen)
  }

  ghost function ReceiveVote(network: string, verify: Vote -> bool, e: Electorate, b: Book, v: Vote): Book {
    Prune(ApplyVote(network, verify, e, b, v))
  }

  // ---- what pruning keeps ----

  // Pruning keeps the newest checkpoints, never more than the cap, and forgets only older ones.
  lemma {:induction false} NewestIsNewest(m: map<int, Final>, cap: nat)
    ensures var r := Newest(m, cap);
            && r.Keys <= m.Keys && (forall x :: x in r ==> r[x] == m[x])
            && |r| == (if |m| <= cap then |m| else cap)
            && (forall x, y :: x in r && y in m && y !in r ==> y < x)
    decreases |m|
  {
    if |m| > cap {
      assert exists x :: IsOldest(m.Keys, x) by { var x := OldestExists(m.Keys); }
      var x :| IsOldest(m.Keys, x) && Newest(m, cap) == Newest(m - {x}, cap);
      DroppedOneLess(m, x);
      NewestIsNewest(m - {x}, cap);
      NewestAfterDrop(m, x, Newest(m - {x}, cap), cap);
    }
  }

  lemma NewestAfterDrop(m: map<int, Final>, x: int, r: map<int, Final>, cap: nat)
    requires IsOldest(m.Keys, x) && r.Keys <= (m - {x}).Keys && (forall k :: k in r ==> r[k] == (m - {x})[k])
    requires forall k, y :: k in r && y in m - {x} && y !in r ==> y < k
    ensures r.Keys <= m.Keys && (forall k :: k in r ==> r[k] == m[k])
    ensures forall k, y :: k in r && y in m && y !in r ==> y < k
  { }

  lemma DroppedOneLess(m: map<int, Final>, x: int)
    requires x in m
    ensures |m - {x}| == |m| - 1 && (m - {x}).Keys == m.Keys - {x}
  {
    assert m.Keys == (m - {x}).Keys + {x};
  }
}
