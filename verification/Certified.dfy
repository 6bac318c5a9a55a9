// Finality over the ledger: what masters sign is the root of their own ledger, all nodes of
// the network hold one ledger an epoch, and so what is finalized is the root of that ledger.
module Certified {
  import opened Events
  import opened Votes
  import L = Ledger
  import opened Finality
  import opened SnapshotProofs
  import opened Convergence
  import opened Cluster

  // Some peer, at some moment of the run, stood at that epoch with a ledger of that root.
  ghost predicate StoodAt(cfg: Config, o: Origin, cushion: nat, size: nat, moves: seq<Move>,
                          rootOf: RootInputs -> string, k: nat, i: nat, epoch: int, root: string) {
    && k <= |moves| && Reached(cfg, o, cushion, size, moves[..k]).Some?
    && var peers := Reached(cfg, o, cushion, size, moves[..k]).value.peers;
       i < |peers| && peers[i].node.epoch == epoch && rootOf(RootInputsOf(peers[i].node.ledger)) == root
  }

  // The voter only ever signs the root of its own ledger, whichever peer it is, before and
  // after restarts.
  ghost predicate SignsOwnRoots(cfg: Config, o: Origin, cushion: nat, size: nat, moves: seq<Move>,
                                rootOf: RootInputs -> string, cast: set<Vote>, voter: string) {
    forall v :: v in cast && v.voter == voter ==>
      exists k: nat, i: nat :: StoodAt(cfg, o, cushion, size, moves, rootOf, k, i, v.body.epoch, v.body.root)
  }

  // The root of the one ledger that the network has at an epoch.
  ghost function TrueRoot(cfg: Config, o: Origin, cushion: nat, size: nat, moves: seq<Move>,
                          rootOf: RootInputs -> string, epoch: int): string
    requires Reached(cfg, o, cushion, size, moves).Some?
  {
    rootOf(RootInputsOf(Ref(cfg, o, Reached(cfg, o, cushion, size, moves).value.sent, epoch).ledger))
  }

  lemma StandsOnTrueRoot(cfg: Config, o: Origin, cushion: nat, size: nat, moves: seq<Move>,
                         rootOf: RootInputs -> string, k: nat, i: nat, epoch: int, root: string)
    requires Cushioned(cfg, cushion) && Reached(cfg, o, cushion, size, moves).Some?
    requires StoodAt(cfg, o, cushion, size, moves, rootOf, k, i, epoch, root)
    ensures root == TrueRoot(cfg, o, cushion, size, moves, rootOf, epoch)
  {
    hide Reached, Ref, RootInputsOf;
    var s := Reached(cfg, o, cushion, size, moves[..k]).value;
    RunsStayConsistent(cfg, o, cushion, size, moves[..k]);
    assert Sound(cfg, o, s.sent, s.peers[i]);
    ReferenceIsFixed(cfg, o, cushion, size, moves, k, epoch);
  }

  // Such a voter never signs two roots for an epoch, however often it restarts: replay
  // brings it back to the ledger it had.
  lemma OwnRootsAreSteady(cfg: Config, o: Origin, cushion: nat, size: nat, moves: seq<Move>,
                          rootOf: RootInputs -> string, cast: set<Vote>, voter: string, epoch: int)
    requires Cushioned(cfg, cushion) && Reached(cfg, o, cushion, size, moves).Some?
    requires SignsOwnRoots(cfg, o, cushion, size, moves, rootOf, cast, voter)
    ensures forall v :: v in cast && v.voter == voter ==>
              v.body.root == TrueRoot(cfg, o, cushion, size, moves, rootOf, v.body.epoch)
    ensures !Equivocates(cast, voter, epoch)
  {
    hide Reached, StoodAt, TrueRoot;
    forall v | v in cast && v.voter == voter
      ensures v.body.root == TrueRoot(cfg, o, cushion, size, moves, rootOf, v.body.epoch)
    {
      var k: nat, i: nat :| StoodAt(cfg, o, cushion, size, moves, rootOf, k, i, v.body.epoch, v.body.root);
      StandsOnTrueRoot(cfg, o, cushion, size, moves, rootOf, k, i, v.body.epoch, v.body.root);
    }
  }

  // Whatever any node finalizes, in any run of the votes over any run of the network, is the
  // root of the reference ledger at that epoch: provided voters that only sign the root of
  // their own ledger hold over 33% of the trust.
  lemma FinalizedIsTheLedger(cfg: Config, o: Origin, cushion: nat, size: nat, moves: seq<Move>,
                             rootOf: RootInputs -> string,
                             p: Protocol, votes: seq<VoteMove>, honest: set<string>, i: nat, epoch: int, root: string)
    requires Cushioned(cfg, cushion) && Reached(cfg, o, cushion, size, moves).Some?
    requires ProperWeights(p.electorate) && ReachedNet(p, votes).Some?
    requires var s := ReachedNet(p, votes).value;
             && i < |s.decided| && (epoch, root) in s.decided[i]
             && (forall x :: x in honest ==> SignsOwnRoots(cfg, o, cushion, size, moves, rootOf, s.cast, x))
    requires honest <= p.electorate.weights.Keys && TrustOf(p.electorate, honest) > 0.33 * p.electorate.total
    ensures root == TrueRoot(cfg, o, cushion, size, moves, rootOf, epoch)
  {
    hide Reached, ReachedNet, SignsOwnRoots, TrueRoot;
    var s := ReachedNet(p, votes).value;
    var truth := TrueRoot(cfg, o, cushion, size, moves, rootOf, epoch);
    forall v | v in s.cast && v.voter in honest && v.body.epoch == epoch ensures v.body.root == truth {
      OwnRootsAreSteady(cfg, o, cushion, size, moves, rootOf, s.cast, v.voter, epoch);
    }
    OnlyTrueRootsFinalize(p, votes, honest, i, epoch, root, truth);
  }
}
