# ZIRA node: verified model

ZIRA nodes agree on a ledger without blocks. Signed transactions and observations are
gossiped into unordered pools; wall-clock epochs close; and when a node processes an epoch it
drains the transactions that are due in a canonical order, emits, updates trust from a settled
window of observations, seals the validator registry, pays the field pool and ages its
observations. Masters then sign the resulting state root, and a root that 67% of the trust has
signed is final.

This project models that state machine, the finality protocol over it and the data paths
beside it, and proves what the design rests on:

- **The ledger is a function of the events and the epoch.** `Convergence.Ref` computes an
  epoch's committed state from the set of gossiped events alone, with no pools, no dedup
  cache, no aging and no arrival order. `Cluster.NodesAgree` and
  `Cluster.NodesAgreeAcrossTime` show that in every run of any number of nodes, over a network
  that loses, duplicates and reorders messages, with nodes that stop and come back from their
  snapshot and compacted log, every node at an epoch holds exactly that state, and
  `Progress.NetworkCanSettle` that such a run never wedges as long as no node refuses an event.
- **The fast clock refines the simple one** (`Clock.AdvanceRefinesSimpleClock`), so emission
  depends on the epoch only (`Clock.EmittedDependsOnEpochOnly`).
- **Every run obeys the ledger's laws**: conservation, no overdraft, no replay, one payment a
  bucket, lawful seats, earned mastership (`Clock.EveryNodeRunIsLawful`,
  `Cluster.EveryPeerIsLawful`, `Clock.EveryRunEarnsMastership`); nothing takes effect that was
  not received and genuine (`Intake.OnlyGenuineTakesEffect`).
- **Each step has exactly its effect**, said without the function that computes it: a
  transaction (`Money.MoneyMovesAsSigned`, `Effects.TransactionIsExact`, the lemmas of
  `SeatOps`), a drain (`Effects.EpochSettles`), emission (`Emission.EmitPaysSettler`), a sealed
  subject (`Contributions.SubjectRates`), the registry (`Clock.EpochSealsRegistry`) and the
  payout (`Payouts.DistributePays`). Half of the earned pool is emitted in ten years
  (`Schedule.HalfLifeIsTenYears`).
- **Finality comes** once members that hold 67% of the trust have voted for a root and their
  votes are heard (`Quorums.QuorumFinalizes`).
- **Finality agrees** while all but the nodes that run the program with a clock that keeps time
  hold under 34% of the trust, however often those restart (`Finality.FinalityAgrees`); a
  second vote for an epoch is possible exactly when `Finality.SecondVoteIff` says; what is
  finalized is the root of the one ledger (`Certified.FinalizedIsTheLedger`); and the
  electorate never exceeds 100% (`Electorates.ElectorateIsConsistent`).
- **Fast sync converges** whatever is gossiped later, if the server retained nothing live that
  was due (`FastSync.FastSyncConverges`), and with nothing gossiped later exactly then
  (`FastSync.FastSyncConvergesIff`).
- Splits are exact and fair, PNG un-filtering inverts filtering, the event log reads back what
  was appended, archive pages make up the archive, and a swarm download that records every
  chunk is the source file.

## Files

| file | about |
|---|---|
| Order.dfy, Bytes.dfy | bytes; string order, canonical sorting, filters, sorted names |
| Events.dfy | transactions, observations, and the parameters every node shares |
| Seats.dfy, SeatOps.dfy, Ledger.dfy, Conservation.dfy, Money.dfy, Effects.dfy | seats, accounts, one transaction's exact effect, where money goes |
| Emission.dfy, Schedule.dfy, Apportion.dfy, PayoutSplit.dfy | emission and its curve, largest remainder, the settler's split |
| Heartbeats.dfy, WorkWeights.dfy, FieldPayout.dfy, Payouts.dfy | who is paid by the pure-epoch payout and how much |
| Drain.dfy, Laws.dfy | draining an epoch's transactions; what every act and every run keeps |
| Trust.dfy, Gate.dfy, Tenure.dfy, Contributions.dfy, Ascent.dfy | the observation field, the program's lock gate, trust, mastership, the validator registry, how contributors are rated, how fast trust climbs |
| Node.dfy, Clock.dfy, Intake.dfy | one node as a value: ingest, epochs, the fast-forward, what it takes in |
| Convergence.dfy, Cluster.dfy, Progress.dfy, FastSync.dfy | the reference, the network with restarts, that it never wedges, joining |
| StateMachine.dfy | the node as an object updated in place, proved against Node.dfy |
| Votes.dfy, Finality.dfy, Quorums.dfy, Checkpoints.dfy, Electorate.dfy, SnapshotProofs.dfy, Certified.dfy | votes, quorums and that they finalize, the checkpoint object, who votes, what a snapshot must prove, finality over the ledger |
| EventLog.dfy, HistoryArchive.dfy, ModelTransfer.dfy, PngLuma.dfy, PngFile.dfy | the data paths |

The pure modules say what each step computes; the classes `State`, `Checkpoints`, `Log`,
`ArchiveFile` and `Store` and the methods with loops compute it in place as the program does,
and their contracts tie them to the pure modules. Signatures, hashes, JSON and inflation are
opaque function values. A blank account (no balance, no nonce) is the same as an absent one,
as in the state root, so creating one has no effect here. Soft trust and signing keys, which
the program keeps in the account records, are separate maps because the state root does not
commit to them.

## Model

| member | source | states |
|---|---|---|
| Order.SortIsCanonical | node/src/core/State.ts:720-722 | sorting by a strict order gives one result for all arrival orders of the same distinct events |
| Seats.SeatEffectIsSound | node/src/core/State.ts:378-549 | every accepted anchor transaction keeps listed-iff-priced, vested within the schedule and a funder for each; once owned stays owned, vesting totals and funders never change, vested only rises; an owner changes only for that owner or by a matching code on a free seat |
| Seats.SeatChangesAreByRight | node/src/core/State.ts:394-549 | nothing about a seat changes but by its owner, by a claim with the matching code while it is free, its code by a founder while it is free, or its released amount by whoever funds its vesting |
| Seats.PositionBatchIsAtomic | node/src/core/State.ts:417-458 | a position batch is accepted exactly if every named seat belongs to the sender, and then moves all of them and nothing else |
| Seats.GenesisSeatsAreGood | node/src/core/State.ts:322-350 | genesis gives exactly the listed seats, owned as the document says, none for sale or vesting, and all of them good |
| SeatOps.GenesisSeatIsListed | node/src/core/State.ts:322-350 | each has the code, allocation and standing of the last entry for it, and the owner of its last ownership entry; without one, or with an empty one, it is free |
| Seats.LoadGenesisAnchors | node/src/core/State.ts:322-350 | the loop over the document's anchors builds those seats |
| SeatOps.ClaimIsExact | node/src/core/State.ts:393-404 | a claim is accepted exactly if the seat is free and the code matches; then that seat alone belongs to the sender, is not for sale, and has the time of the claim |
| SeatOps.TransferIsExact | node/src/core/State.ts:406-416 | a transfer is accepted exactly if the sender owns the seat and names an address; then that seat alone belongs to the one named and is not for sale, with all else about it unchanged |
| SeatOps.BatchIsExact | node/src/core/State.ts:428-459 | a batch moves every named seat of its sender to the one named or none; a seat without a schedule gets one for its whole reserve, funded by the sender, a running one is carried on for the new owner |
| SeatOps.ListIsExact | node/src/core/State.ts:461-470 | a listing is accepted exactly from the owner with a positive price, and puts that seat alone up at that price and time |
| SeatOps.DelistIsExact | node/src/core/State.ts:472-481 | a delisting is accepted exactly from the owner, and takes that seat alone down |
| SeatOps.DelistUndoesList | node/src/core/State.ts:461-481 | listing an owned seat and delisting it gives back the seats as they were |
| SeatOps.ContributionsAreExact | node/src/core/State.ts:483-497 | with 1 to 64 seats named, one of them the sender's, the flag is set on exactly the named seats the sender owns; otherwise nothing is accepted |
| SeatOps.CodeEditIsExact | node/src/core/State.ts:499-505 | a code is replaced exactly on a free seat by a founder with 64 hexadecimal digits, by those digits in lower case, and nothing else changes |
| SeatOps.VestStartIsExact | node/src/core/State.ts:511-530 | a schedule is opened exactly by the owner of a seat that has none, with a positive total, a start and an address; it has that total, start, duration and beneficiary, the sender as funder and nothing released |
| SeatOps.VestReleaseIsExact | node/src/core/State.ts:535-549 | a release is accepted exactly from the funder with an amount not below zero; the released amount becomes the larger of the old one and the smaller of the request and the total |
| SeatOps.NothingElseIsAccepted | node/src/core/State.ts:378-392 | an operation is accepted only with its own payload, and activation never |
| Ledger.ApplyTxSpendsOneNonce | node/src/core/State.ts:955-1117 | a transaction leaves the ledger unchanged or raises its sender's nonce by exactly one and nobody else's |
| Conservation.ApplyTxConserves | node/src/core/State.ts:955-1117 | across all kinds, balances minus emitted plus burned stays constant, emission is untouched and no account is overdrawn |
| Money.MoneyMovesAsSigned | node/src/core/State.ts:955-1117 | money moves exactly if the transaction is the sender's next, valid, authorized and affordable; then the payer pays, each recipient gets what it is given, repeated or not, and the rest is burned; otherwise no balance changes |
| Effects.TransactionIsExact | node/src/core/State.ts:955-1117 | besides money, a transaction changes exactly this: if it is the sender's next and taken, the sender's nonce, and by its kind the founders, the beneficiaries, the reserve, the seats or the paid bucket; if not, nothing at all. When each kind is taken is said by what the sender, the roles, the gates and the payer's balance are |
| Effects.RevokeUndoesDelegate | node/src/core/State.ts:981-999 | appointing a new founder and revoking it gives back the founders there were |
| Money.PayoutGivesEachItsAmount | node/src/core/State.ts:936-947 | a paid bucket takes the pool from the settler and gives each account exactly the amounts of the payees routed to it |
| Money.TieChangesThePayout | node/src/core/State.ts:834-836 | two tied heartbeats that vouch for different miners: which miner gets the pool depends on which arrived first |
| Emission.PerRound | packages/protocol/src/por/rewards.ts:26-32 | the round reward never crosses the earned cap and is zero exactly once the cap is reached |
| Emission.EmitBatchesAgree | node/src/core/State.ts:1290-1304 | emitting through an intermediate epoch first makes no difference |
| Emission.EmitKeeps | node/src/core/State.ts:1290-1304 | emission changes balances, the emitted total and the cursor only, and the total by the schedule for the epochs covered |
| Emission.EmitPaysSettler | node/src/core/State.ts:1290-1304 | every account has after emission what it had before, but the settler, who has all that was emitted on top |
| Emission.EveryEpochEmits | node/src/core/State.ts:1290-1304 | with masters and below the cap, reaching a new epoch pays the settler something |
| Schedule.RewardIsExact | packages/protocol/src/por/rewards.ts:26-32 | the reward is 1.1e-8 of what remains, rounded down, but at least the floor of 1000 and at most all of it |
| Schedule.RewardsNeverRise | packages/protocol/src/por/rewards.ts:21-32 | the more is emitted the less a round pays |
| Schedule.CapIsReached | packages/protocol/src/por/rewards.ts:21-32 | the cap is reached exactly, after no more rounds than the floor alone would take |
| Schedule.HalfLifeIsTenYears | packages/protocol/src/constants.ts:364-370 | a network that starts with nothing emitted has paid its settler half of the earned pool after ten years of rounds, within one percent of the whole, however its epochs were batched |
| Apportion.LargestRemainderIsFair | node/src/core/payout-split.ts:36-45 | largest remainder distributes exactly the pool, gives each less than one unit off its exact share, and never less to a larger share |
| PayoutSplit.WeightedIsExact | node/src/core/payout-split.ts:10-46 | for all weights, finite or not, outputs sum to the pool, none is zero, and the number paid is the smaller of pool and payees |
| PayoutSplit.ChosenAreHeaviest | node/src/core/payout-split.ts:22-30 | with fewer units than payees, exactly as many distinct payees as units are chosen, in input order, none lighter than one left out |
| PayoutSplit.WeightedIsFair | node/src/core/payout-split.ts:32-46 | otherwise every payee is paid in order, one unit plus the floor or ceiling of its share of the rest, monotone in weight |
| PayoutSplit.WeightedOutputs | node/src/core/payout-split.ts:10-46 | the program's function computes the specified split and its outputs sum to the pool |
| PayoutSplit.Apportioned | node/src/core/payout-split.ts:36-45 | flooring, ranking and handing out in place sums to the pool and is fair |
| PayoutSplit.HandOut | node/src/core/payout-split.ts:44-44 | the in-place leftover loop gives one unit to each of the first leftover entries of the ranking |
| Heartbeats.LatestIsCanonical | node/src/core/State.ts:828-836 | if no master's newest heartbeat of the window is tied, which heartbeats are the latest does not depend on pool order |
| Heartbeats.TieBreaksByArrival | node/src/core/State.ts:834-836 | in any pool with two different newest heartbeats of one master, whichever of them arrives first is the latest and the other is not |
| Heartbeats.ArrivalIsHarmlessIff | node/src/core/State.ts:828-836 | all arrival orders of a pool give the same latest heartbeats exactly if no master's newest one is tied; ties below it are harmless |
| WorkWeights.WorkWeightIgnoresOrder | node/src/core/State.ts:850-881 | the sealed work weight of a miner does not depend on the order of the masters' reports |
| WorkWeights.MajorityDecides | node/src/core/State.ts:874-879 | if more than half of a miner's reports lie in an interval of positive integers, so does its weight |
| FieldPayout.PayeesAreProper | node/src/core/State.ts:838-843 | payees are strictly sorted, at most 64, vouched for, and neither settler nor genesis master; nobody eligible is missing unless the list is full |
| FieldPayout.BestIsBest | node/src/core/State.ts:886-890 | the best class standing is exactly the bound of all seats an account owns that one of them attains, and zero for none |
| FieldPayout.AnchorsOnlyRaise | node/src/core/State.ts:916-922 | an anchor never lowers a work weight, and a better class never gives less |
| FieldPayout.WorkSplitIsFair | node/src/core/State.ts:925-931 | the work-weighted split sums to the pool, is within one unit of each exact share, and is monotone in weight |
| FieldPayout.EqualWeightsSplitFlat | node/src/core/State.ts:925-935 | with equal weights the weighted split is the flat split |
| FieldPayout.SplitByWork | node/src/core/State.ts:925-931 | the integer code - floors by division, remainders by modulus, one unit each - computes the largest-remainder split |
| FieldPayout.GiveRemainder | node/src/core/State.ts:931-931 | the in-place remainder loop gives one unit to each of the largest fractions |
| FieldPayout.AmountsSum | node/src/core/State.ts:911-935 | weighted or flat, the amounts add up to exactly the pool |
| Payouts.WorkWeightIsMiddle | node/src/core/State.ts:850-881 | a miner's weight is the mean, rounded down, of its two middle reports - those with fewer than half on one side and at least half not beyond - but at least 1, and 10 without reports; where most reports lie in an interval of positive integers, it lies there too |
| Payouts.AnchorScalesBy | node/src/core/State.ts:886-922 | an anchor multiplies a weight by one plus its standing, rounded to four digits, rounded down but at least 1 |
| Payouts.DistributePays | node/src/core/State.ts:825-953 | the payout pays exactly when it is armed, the bucket is new, the pool has accrued and a miner is vouched for; then every such miner, or the first 64, has its fair share by the middle of its reports and its best seat, credited to the account it has named, and the settler pays exactly the pool; otherwise nothing changes |
| Payouts.PaidInOrder | node/src/core/State.ts:911-935 | of two payees whose reports lie by majority in intervals one above the other, the higher is paid no less |
| Payouts.EpochPays | node/src/core/State.ts:714-798 | over a whole epoch balances change, after its drain, by what is emitted to the settler and then by that payout alone |
| Drain.DrainNeverWedges | node/src/core/State.ts:729-773 | what a drain keeps is within its time-to-live, what it removes has its nonce committed, committed nonces never fall |
| Drain.DrainOneEffect | node/src/core/State.ts:729-773 | one iteration either keeps the transaction and changes nothing, or commits its nonce; if it took effect it was applied at that very nonce |
| Effects.TurnIsExact | node/src/core/State.ts:729-773 | one iteration: the transaction takes effect exactly if it is the sender's next, or the gap before it has outlived the time-to-live, and it is taken; it stays pooled exactly if it is live, does not take effect and is not too old; otherwise only the sender's nonce moves, past it |
| Effects.TurnsAreInOrder | node/src/core/State.ts:720-722 | the due transactions have their turns sender by sender, by nonce, then by id |
| Effects.EpochSettles | node/src/core/State.ts:714-773 | an epoch leaves a pooled transaction alone until eight epochs after its own; then it takes effect, or stays pooled, exactly as its turn has it |
| Effects.EpochAgesOut | node/src/core/State.ts:788-797 | an observation leaves the pool exactly 14 epochs after its own, a heartbeat 30 |
| Effects.ClosableIff | node/src/core/State.ts:676-678 | an epoch can be closed exactly once it is over and 20 seconds have passed since |
| Drain.DrainIgnoresStale | node/src/core/State.ts:106-117 | superseded transactions, such as those pooled again after the dedup cache forgot them, do not change a drain's outcome at all |
| Drain.PassedOverIff | node/src/core/State.ts:736-751 | closing a gap passes over a transaction exactly if it is live, nothing due takes its slot, and a due successor of its sender has outlived the time-to-live |
| Drain.PassedOverIsDead | node/src/core/State.ts:736-773 | of the live transactions whose slot nothing takes, those passed over are exactly those whose nonce is gone after the drain |
| Drain.LowestIsPassedOverIff | node/src/core/State.ts:747-751 | a sender's lowest due transaction behind a gap is passed over exactly if it is young and a due successor is old: the gap is not always closed at the lowest |
| Drain.SomeLedgerPassesOverIff | node/src/core/State.ts:736-751 | whatever the ledger, behind a missing predecessor a transaction can be passed over exactly if nothing due for its slot is old and a due successor is |
| Drain.TimedAreNotPassedOver | node/src/core/State.ts:736-751 | with timestamps that do not decrease with the nonce, nothing due is passed over |
| Drain.DisorderAloneIsHarmless | node/src/core/State.ts:736-773 | disorder alone does not suffice: an old successor right behind a young first transaction passes over it on no ledger |
| Drain.GapClosingCanSkip | node/src/core/State.ts:747-751 | a two-transaction drain in which the young predecessor is passed over, stays pooled and is dead |
| Laws.EveryRunIsLawful | node/src/core/State.ts:714-798 | over any sequence of ledger acts: genesis total conserved, no overdraft, emission capped, nonces, burned total and watermark only rise, seats only evolve, the founder stays |
| Laws.NothingTakesEffectTwice | node/src/core/State.ts:955-957 | over any run the nonces with which a sender's transactions take effect strictly increase |
| Laws.EachBucketPaidOnce | node/src/core/State.ts:1056-1089 | over any run, counting both payout routes on one watermark, paid buckets strictly increase |
| Laws.PaymentsAreCounted | node/src/core/State.ts:1067-1079 | an act not counted as a payment moves no pool money |
| Laws.DistributeMovesThePool | node/src/core/State.ts:897-953 | a paid bucket raises the watermark to it, keeps the total and splits exactly the pool among proper payees; an unfunded or payee-less bucket leaves the ledger as it was, so it stays payable |
| Laws.OwnerChangesOnlyByRight | node/src/core/State.ts:378-549 | no act changes a seat's owner but an anchor transaction of the owner or a claim with the matching code |
| Trust.RunFieldIgnoresOrder | node/src/core/State.ts:1129-1160 | trust after an epoch depends only on which observations lie in the settled window |
| Tenure.EpochKeepsEarned | node/src/core/State.ts:1222-1268 | an epoch keeps earned mastership, activity records, trust between 0 and 1, and the genesis masters' full trust |
| Ascent.AscentIsCapped | node/src/core/State.ts:1253-1260 | in one epoch an account's trust rises by at most the cap times the number of subjects sealed with it among the observers |
| Ascent.CapHoldsForEpochIff | node/src/core/State.ts:1253-1260 | the cap bounds the rise of a whole epoch, from any earned trust and under any lock gate, exactly if at most one subject of the window has enough observers with the account among them |
| Ascent.CapHoldsForProgramIff | node/src/core/State.ts:1163-1185 | for a unanimous window that is exact for the program's own lock gate too |
| Ascent.TwoSubjectsBreakTheCap | node/src/core/State.ts:1150-1160 | with two such subjects that nothing hinders, an account unknown at genesis gains more than the cap in one epoch |
| Ascent.SixReadingsBreakTheCap | node/src/core/State.ts:1253-1260 | six unanimous readings of three keys on two subjects do it, with any gate that seals unanimity |
| Ascent.ProgramSealsUnanimity | node/src/core/State.ts:1163-1185 | as the program's gate does |
| Gate.MajorityHoldsTheMedian | packages/protocol/src/por/field.ts:16-32 | if the claims in an interval carry more than half of the weight, the agreed value lies in that interval, whatever the others say |
| Gate.MedianIff | packages/protocol/src/por/field.ts:16-32 | the agreed value is exactly the one below which the weighing claims have less than half of their weight and up to which they have at least half |
| Gate.GateIff | node/src/core/State.ts:1168-1181 | a lock is sealed exactly at that median, when the values deviate by less than two percent of a mean that is not zero and the claims within five percent of the median - its supporters - carry 67% of a positive weight |
| Gate.UnanimityPasses | node/src/core/State.ts:1163-1185 | three or more unanimous full-confidence claims pass median, variation and support, with their value as the agreed one |
| Tenure.SeedingIsIdempotent | node/src/core/State.ts:226-239 | asserting the genesis masters' trust again on a loaded snapshot changes nothing |
| Tenure.WorkIsNeverSelfGranted | node/src/core/State.ts:1096-1112 | a work marker moves only by another's fee-paying coordination payout, a master's attestation, or a genesis master's heartbeat vouching for somebody else |
| Contributions.WorkIsCredited | node/src/core/State.ts:960-976 | an applied transaction credits with work exactly the other party of a fee-paying coordination payout, or the well-formed addresses other than its own among the first 64 that a master attests, and changes no standing otherwise |
| Contributions.EpochCreditsWork | node/src/core/State.ts:1196-1221 | after an epoch an account has that epoch as its work marker exactly if an applied transaction credits it, or the last settled heartbeat of a genesis master other than itself vouches for it and the field agreed on a heartbeat; otherwise its marker is the old one |
| Contributions.LastWordsCount | node/src/core/State.ts:1153-1160 | exactly the last reading of each observer on a subject within the settled window counts |
| Contributions.ReadingsCarryTrust | node/src/core/State.ts:1161-1167 | a reading carries its observer's trust in the domain, else its trust at large, and never less than 0.05 |
| Contributions.SubjectRates | node/src/core/State.ts:1153-1269 | a subject without a lock changes nobody; one with a lock credits the vouched-for miners and rates each observer whose last reading counted: tenure once an epoch and only for eligible work, accuracy and uptime averaged, trust the composite but at most 0.02 above before, mastery at 0.7 after 720 epochs with three supporters, genesis masters fixed at full trust; nobody else changes |
| Tenure.RegistryIsProper | node/src/core/State.ts:1461-1484 | the registry is strictly sorted, capped, holds only qualifying accounts, and misses none unless it is full |
| Tenure.FieldKeepsKeys | node/src/core/State.ts:1216-1236 | whoever has an active epoch has a known signing key, so sealing never depends on keys learnt at ingest |
| Node.ProcessThroughSplits | node/src/core/State.ts:706-710 | processing epochs one by one to a target passes through every epoch in between |
| Clock.AdvanceRefinesSimpleClock | node/src/core/State.ts:681-712 | advance with its fast-forward ends in the same state as processing every epoch one by one, at the later of the old epoch and the target |
| Clock.EveryNodeRunIsLawful | node/src/core/State.ts:557-798 | whatever a node receives and however its clock ticks: the ledger laws, at most one effect a nonce, at most one payment a bucket |
| Clock.SeatsStayGood | node/src/core/State.ts:322-350 | from genesis seats, in every run: listed exactly if priced, vested within the schedule, no seat appears or vanishes, each only evolves |
| Clock.EmittedDependsOnEpochOnly | node/src/core/State.ts:1290-1304 | the emitted total after any run is a function of the starting total and the epoch reached |
| Clock.ProcessNeverClogs | node/src/core/State.ts:714-773 | after an epoch every pooled transaction is not due yet or within its time-to-live, and every removed one has its nonce committed |
| Clock.EpochSealsRegistry | node/src/core/State.ts:1461-1484 | after an epoch with decentralization armed the validators are strictly sorted, at most 128, all qualified by the trust and seats after it, and nobody who qualifies is missing unless there are 128; otherwise they are those from before |
| Intake.IntakeIsExact | node/src/core/State.ts:557-629 | a transaction enters the pool exactly if it is new, signed, of a gossiped kind and shape, passes the gates of its kind and is not covered by an adopted snapshot; it is remembered exactly if it passes, replaces only its own id, and nothing else of the node changes |
| Intake.ObservationIntakeIsExact | node/src/core/State.ts:632-671 | likewise for an observation, 14 epochs long or 30 for a heartbeat, with the key it teaches |
| Intake.OnlyGenuineTakesEffect | node/src/core/State.ts:557-798 | in every run of a node, whatever takes effect, or moves a nonce at all, was pooled at the start or was received, signed and well-formed |
| Clock.EveryRunEarnsMastership | node/src/core/State.ts:1222-1271 | in every run genesis masters keep full trust, and every other master has the tenure's distinct active epochs within its recorded lifetime, was first seen at least as many epochs ago, and has the threshold trust |
| Convergence.StepAgrees | node/src/core/State.ts:714-798 | a node that holds every event the next epoch settles takes the reference's step, whatever else its pools hold and in whatever order |
| Convergence.NodesConverge | node/src/core/State.ts:557-798 | two nodes that pool the same events of any kind in time, in any order, with duplicates, interleaved with their clocks, hold the same ledger and trust at every common epoch |
| Convergence.PoolGapIff | node/src/core/State.ts:720-773 | what an epoch passes over among a node's pooled transactions, due or not, is exactly that, and each is dead and still pooled afterwards |
| Convergence.TimedPoolLosesNothing | node/src/core/State.ts:720-773 | with timestamps that follow the nonces in the pool, it is none of them |
| Cluster.NodesAgree | node/src/core/State.ts:557-798 | in every reachable state of a network that loses, duplicates and reorders events of all kinds, with restarts and compactions, nodes at one epoch hold one ledger and trust: the reference's |
| Cluster.NodesAgreeAcrossTime | node/src/core/State.ts:557-798 | also between different moments: an epoch's state never changes once any node has reached it |
| Cluster.RestartKeepsSound | node/src/core/ZiraNode.ts:854-874 | a node that loads its snapshot, compacts its log and ingests what is left is at a point of the reference run and holds everything of the state-independent kinds it held before that still matters |
| Intake.RestartResumes | node/src/core/ZiraNode.ts:854-874 | a peer that restarts has the committed state and epoch it last saved, so right after a save it stands where it stood |
| Cluster.LoadingSeedsNothing | node/src/core/State.ts:1686-1688 | asserting the genesis masters' trust when a peer loads its own snapshot changes nothing, in any run from genesis |
| Cluster.CompactionIsSafe | node/src/core/ZiraNode.ts:3608-3623 | with a cushion that covers the time-to-live and the heartbeat window, compaction drops only what the snapshot accounts for |
| Cluster.ReplayTakesIff | node/src/core/State.ts:557-614 | a replayed transaction is held again exactly if it is consumed already or the snapshot admits it |
| Cluster.ReferenceIgnoresFuture | node/src/core/State.ts:720-722 | events that no epoch so far settles have not influenced the state so far |
| Cluster.EveryPeerIsLawful | node/src/core/State.ts:714-798 | conservation and the other laws hold of every node in every reachable network state |
| Progress.CanCatchUp | node/src/core/ZiraNode.ts:1532-1545 | whatever was lost so far, any node can be brought to any later epoch by gossiping again, without touching the others, unless it refuses something that epoch settles |
| Progress.NetworkCanSettle | node/src/core/State.ts:676-712 | unless a node refuses something, no reachable state is stuck: the run can go on until every node is at a common epoch, and there all hold the reference's ledger and trust |
| Progress.RestartLosesAnAppointment | node/src/core/State.ts:574-578 | a founder's appointment by one appointed after the snapshot is refused by the replay, and at the same epoch the restarted node's ledger differs from that of the node that never stopped |
| FastSync.FastSyncConverges | node/src/core/State.ts:1633-1637 | a node that adopts a snapshot and then holds, at each tick, the transactions of any kind that the tick settles has the reference ledger at every later epoch, if the server retained nothing live that was due and payout and decentralization are dormant |
| FastSync.OnTimeIsHeld | node/src/core/State.ts:616-625 | for a fresh joiner and the kinds whose ingest checks read no state, receiving on time is holding at the ticks |
| FastSync.FastSyncConvergesIff | node/src/core/State.ts:1633-1637 | with nothing gossiped after the snapshot, joiner and server have one ledger ever after exactly if the server retained nothing live that was due |
| FastSync.RetainedPartsLedgers | node/src/core/State.ts:747-773 | a retained transaction moves its sender's nonce at the server and never at the joiner |
| FastSync.JoinerCanHoldAllIff | node/src/core/State.ts:616-625 | right after adoption a fresh joiner can come to hold every transaction it would accept exactly if the server retained none of those |
| FastSync.AdoptionLosesTxIff | node/src/core/State.ts:1619-1637 | a transaction pooled before the adoption is neither pooled nor can be pooled again exactly if it is at or below the new floor, and remembered, under ingest's floor or refused by the snapshot |
| FastSync.AdoptionLosesObsIff | node/src/core/State.ts:1619-1637 | likewise for a pooled observation, with the age cut |
| FastSync.AdoptionLosesLiveTx | node/src/core/State.ts:616-625 | so one pooled in time, due only after the adoption and not consumed by the snapshot is lost |
| FastSync.JoinerSkipsPayouts | node/src/core/State.ts:825-836 | in its first epochs a joiner pays nothing, so it agrees with the reference in such an epoch exactly if nothing is paid there |
| StateMachine.State.constructor | node/src/core/State.ts:174-216 | a network starts solvent with nothing emitted, the genesis seats, which are good, trust in its genesis masters only, and empty pools |
| StateMachine.State.IngestTx | node/src/core/State.ts:557-629 | the checks in the program's order accept, remember and pool as specified, and report newness exactly |
| StateMachine.State.IngestObservation | node/src/core/State.ts:632-671 | likewise for observations, with the age cut by subject and the floor |
| StateMachine.State.RememberId | node/src/core/State.ts:110-117 | the dedup cache keeps insertion order and drops its oldest tenth beyond the cap |
| StateMachine.State.ApplyTx | node/src/core/State.ts:955-1117 | in-place application, kind by kind, yields the specified ledger |
| StateMachine.State.Settle | node/src/core/State.ts:729-773 | one iteration of the drain loop yields the specified ledger, trust and keys, and tells whether the transaction stays pooled |
| StateMachine.State.DrainDue | node/src/core/State.ts:720-773 | the drain loop with its deletions yields the specified ledger, trust, keys and pool |
| StateMachine.State.EmitBaseThrough | node/src/core/State.ts:1290-1304 | the emission loop with its early exits yields the specified ledger |
| StateMachine.State.RunField | node/src/core/State.ts:1121-1271 | emission, then sealing in place, yields the specified ledger, trust and keys while no lock is of this epoch or later |
| StateMachine.State.SealOne | node/src/core/State.ts:1163-1197 | one subject: nothing changes if it has a lock of this epoch already, otherwise sealing in place is as specified and the lock is kept |
| StateMachine.State.SealWindow | node/src/core/State.ts:1129-1271 | sealing subject by subject in place yields the specified trust and keys |
| StateMachine.State.SealValidators | node/src/core/State.ts:1461-1484 | scanning the accounts in any order, asking also for a known key, seals the specified registry |
| StateMachine.State.Distribute | node/src/core/State.ts:897-953 | the payout in place yields the specified ledger |
| StateMachine.State.BestAnchorZti | node/src/core/State.ts:886-890 | the loop over all seats finds the best standing |
| StateMachine.State.AgeOutObservations | node/src/core/State.ts:788-797 | the aging cut drops exactly what ingest would refuse for its age |
| StateMachine.State.ProcessEpoch | node/src/core/State.ts:714-798 | drain, emit, field, seal, pay and age in place amount to the specified epoch |
| StateMachine.State.EarliestPooledEpoch | node/src/core/State.ts:681-686 | the scan of both pools finds the earliest pooled epoch |
| StateMachine.State.Advance | node/src/core/State.ts:693-712 | the clock loop with its fast-forward ends where processing every epoch one by one would end |
| StateMachine.State.LoadSnapshot | node/src/core/State.ts:1654-1690 | loading any snapshot replaces the committed state, seeds the genesis masters' trust, puts its locks over the own ones and touches nothing else; a snapshot with earned trust is taken as it is |
| StateMachine.State.AdoptFastSyncSnapshot | node/src/core/State.ts:1619-1637 | loads the snapshot, raises the floor and drops what the floor covers |
| Votes.NewestIsNewest | node/src/core/Checkpoints.ts:105-108 | pruning keeps the newest finalized checkpoints up to the cap and forgets only older ones |
| Finality.ReceiveKeepsGood | node/src/core/Checkpoints.ts:58-114 | stored votes were really cast for their epoch and root and nobody is in a bucket twice, whatever is received, evicted or pruned |
| Finality.FinalizedHasQuorum | packages/protocol/src/consensus.ts:119-168 | whatever is finalized was signed by distinct electorate members holding at least 67% of the trust |
| Quorums.FinalizesIff | packages/protocol/src/consensus.ts:119-168 | a result exists exactly if some root's voters inside the electorate are not none and hold 67% of the total; it names such a root, exactly its voters and their share |
| Quorums.DecisionIff | node/src/core/Checkpoints.ts:58-96 | taking a vote decides its epoch exactly if the vote counts, the epoch is undecided and the stored votes with it reach the threshold for a root |
| Quorums.QuorumIsDecided | node/src/core/Checkpoints.ts:52-96 | in every reachable state, a node that counts a vote with which a root reaches the threshold has decided the epoch, and for that root while those who sign two roots hold under 34% |
| Quorums.OwnVoteDecides | node/src/core/ZiraNode.ts:2560-2600 | a node counts its own vote in the same way |
| Quorums.QuorumFinalizes | node/src/core/Checkpoints.ts:52-114 | finality comes: after any run, members holding the threshold have voted for a root and a node hears those votes, in any order: it has decided the epoch, for that root while those who sign two hold under 34% |
| Quorums.StoreAdds | node/src/core/Checkpoints.ts:72-77 | storing a vote adds its voter to those of its root and to no others |
| Quorums.DecisionMovesMarker | node/src/core/Checkpoints.ts:86-114 | a decision, and nothing else, moves the last-finalized marker, and only forward |
| Quorums.BooksStayBounded | node/src/core/Checkpoints.ts:102-114 | in every run, whatever is heard, a node keeps at most 200000 vote ids and 4096 checkpoints |
| Quorums.ReceiveStaysBounded | node/src/core/Checkpoints.ts:102-114 | and once a vote is taken, no votes more than 256 epochs behind its last finalized epoch |
| Finality.QuorumsAgree | packages/protocol/src/consensus.ts:157-168 | two quorums for one epoch are for one root if those who sign two roots hold under 34% |
| Finality.AgreementUnderBound | node/src/core/Checkpoints.ts:52-114 | the same whatever the clocks do, while those who sign two roots for the epoch hold under 34% |
| Finality.SecondVoteIff | node/src/core/ZiraNode.ts:2560-2563 | after a vote for an epoch, a node whose clock closes it again votes again exactly if it forgot the vote in a restart and stands behind the epoch: the restart found clock and disk behind it, or a snapshot behind it was adopted, and the clock has not closed it since |
| Finality.EquivocatesIff | node/src/core/ZiraNode.ts:2560-2600 | a node signs two roots for an epoch exactly if that happens and it has come to another root |
| Finality.KeepingTimeIsSteady | node/src/core/ZiraNode.ts:1523-1526 | a node whose restarts find the clock no further back, and that adopts nothing behind an epoch within it, never signs two roots for it, whatever it computes |
| Finality.RisingClockKeepsTimeIff | node/src/core/ZiraNode.ts:854-874 | a clock that never falls keeps time through any restarts exactly if no snapshot behind an epoch is adopted within that epoch after a restart |
| Finality.RestartVotesAgainIff | node/src/core/ZiraNode.ts:854-874 | after any run, a vote and a restart, the ballot of a tick that closes the voted epoch again is cast exactly if the restart found clock and disk behind that epoch |
| Finality.AdoptionVotesAgainIff | node/src/core/ZiraNode.ts:2994-2999 | and after the adoption of a snapshot, exactly if the snapshot is behind it |
| Finality.FinalityAgrees | node/src/core/ZiraNode.ts:2560-2600 | in any run with restarts and adopted snapshots, no two nodes ever hold different roots of an epoch for final while all others than the nodes that run the program with a clock that keeps time hold under 34% |
| Finality.OnlyTrueRootsFinalize | node/src/core/Checkpoints.ts:52-114 | if masters that sign only the true root hold over 33%, nothing else is ever finalized |
| Finality.StoredIff | node/src/core/Checkpoints.ts:58-78 | a verified vote of the electorate is stored exactly if its id is unknown and its voter has none for the root; ids do not name the voter, so equal bodies count once |
| Certified.OwnRootsAreSteady | node/src/core/ZiraNode.ts:2560-2600 | a voter that signs the root of its own ledger signs one root an epoch, the reference's, however often it restarts |
| Certified.FinalizedIsTheLedger | node/src/core/ZiraNode.ts:2560-2600 | if such voters hold over 33%, whatever any node finalizes is the root of the network's one ledger at that epoch |
| Checkpoints.Checkpoints.ReceiveVote | node/src/core/Checkpoints.ts:52-56 | applying and pruning in place yields the specified bookkeeping and reports the finalization |
| Checkpoints.Checkpoints.ApplyVote | node/src/core/Checkpoints.ts:58-96 | the guards, the bucket update and the finalization in place are as specified |
| Checkpoints.Checkpoints.PruneAll | node/src/core/Checkpoints.ts:102-114 | the three trims in place are as specified |
| Checkpoints.FirstFinal | packages/protocol/src/consensus.ts:144-168 | the loop over roots returns the first with enough support |
| Electorates.ElectorateIsConsistent | node/src/core/State.ts:1362-1440 | in all modes the vote weights are non-negative and sum to at most the total trust |
| Electorates.ElectorateIsExact | node/src/core/State.ts:1362-1440 | and to exactly the total when the counted accounts have distinct known keys |
| Electorates.ElectorateIsWho | node/src/core/State.ts:1356-1440 | a key votes with a weight exactly if it is that of a genesis master - anybody without a master set - who is a master, with its trust, or, once armed, of a sealed validator, with the best of its seats or 0.7; under a single finalizer exactly the leader's |
| Electorates.TotalMasterTrust | node/src/core/State.ts:1362-1384 | the accumulating loop yields the total of the counted accounts |
| Electorates.ValidatorWeightMap | node/src/core/State.ts:1432-1440 | the loops over seats and validators give every validator its best seat's class trust, or the baseline |
| Electorates.MasterZtiMap | node/src/core/State.ts:1394-1421 | the map-building loop yields the weights by signing key |
| SnapshotProofs.RootSeesIff | packages/protocol/src/consensus.ts:29-60 | two ledgers have the same root inputs exactly if they agree on every account, blank or not, supply, founders, beneficiaries, the set of validators, the positive watermark and the leaf of each seat |
| SnapshotProofs.RootMissesVesting | packages/protocol/src/consensus.ts:35-40 | two ledgers that differ in a seat's vesting schedule only, however much, have the same root inputs |
| SnapshotProofs.VerifyFastSyncSnapshot | node/src/core/ZiraNode.ts:340-407 | the accumulating loops accept exactly the snapshots that satisfy the stated conditions |
| SnapshotProofs.AcceptedIsFinal | node/src/core/ZiraNode.ts:340-407 | an accepted snapshot hashes to a root with a quorum of its listed electorate, a genesis master among the signers |
| SnapshotProofs.AdoptedRootIsTheFinalizedOne | node/src/core/ZiraNode.ts:340-407 | if that electorate is the network's, the adopted root is the one the network finalized |
| SnapshotProofs.AcceptedMayBeAdopted | node/src/core/ZiraNode.ts:3141-3150 | so a node of the vote network may adopt an accepted snapshot, and its root is among those that finality agrees on |
| SnapshotProofs.HonestSnapshotPassesIff | node/src/core/ZiraNode.ts:348-354 | leaving the beneficiaries out, the check accepts an honest snapshot with sufficient votes exactly if no beneficiary is set, unless the two roots collide |
| SnapshotProofs.HonestSnapshotIsRefused | node/src/core/ZiraNode.ts:348-354 | with any ledger that has a beneficiary, an honest snapshot with all the trust behind it is refused |
| EventLog.ReadEvents | node/src/core/Store.ts:80-96 | the byte scan returns the envelopes of the lines that parse, in order |
| EventLog.AppendReadsBack | node/src/core/Store.ts:67-74 | an appended envelope reads back after all earlier ones if the file ended at a line end |
| EventLog.AppendAfterTornTail | node/src/core/Store.ts:67-96 | after a torn write the envelope is glued to the torn tail, and only what the glued line says is read |
| EventLog.AppendReadsBackIff | node/src/core/Store.ts:67-96 | an appended envelope reads back after all earlier ones exactly if there is no torn tail, or the tail decodes to nothing and the glued line to the envelope |
| EventLog.TornTailLosesEnvelopes | node/src/core/Store.ts:67-96 | with a faithful codec and a torn tail the appended envelope is lost, or an earlier one with it |
| EventLog.Rewrite | node/src/core/Store.ts:111-121 | the chunked rewrite writes exactly the kept lines |
| EventLog.Log.AppendEvent | node/src/core/Store.ts:67-74 | appends durable kinds only |
| EventLog.Log.CompactEvents | node/src/core/Store.ts:107-125 | afterwards the log reads as the chosen envelopes in order; with nothing dropped the file is untouched |
| EventLog.LogRefinesList | node/src/core/Store.ts:67-125 | any sequence of appends and compactions reads back as the same sequence on a list |
| HistoryArchive.AppendKeepsGood | node/src/core/HistoryArchive.ts:100-133 | the file stays chronological, no (timestamp, id) is written twice, the marker is the last timestamp and its ids, and the file only grows |
| HistoryArchive.ArchivedIff | node/src/core/HistoryArchive.ts:105-112 | a row of a window is archived afterwards if it is at or above the marker, and below it exactly if it was before |
| HistoryArchive.ArchiveStaysGood | node/src/core/HistoryArchive.ts:100-133 | all of it over any sequence of overlapping windows in any order |
| HistoryArchive.OnceArchivedStays | node/src/core/HistoryArchive.ts:100-133 | a row that was at or above the marker when its window came is in the file ever after |
| HistoryArchive.ArchiveFile.Append | node/src/core/HistoryArchive.ts:100-133 | filtering, sorting, appending and advancing the marker in place are as specified; disabled it does nothing |
| HistoryArchive.ArchiveFile.Read | node/src/core/HistoryArchive.ts:141-174 | the streaming loop returns the requested page of the matching rows and their number |
| HistoryArchive.ReadsMakeTheWholeIff | node/src/core/HistoryArchive.ts:141-174 | consecutive reads of one size make up exactly the matching rows if and only if the size, or the number of rows, is within the cap of 500 |
| HistoryArchive.ReadsFindTheWanted | node/src/core/HistoryArchive.ts:141-174 | reading on in pages of at most 500 finds exactly the rows sent or received by the address within the span of time, in the order of the file |
| ModelTransfer.ChunksPartition | node/src/models/ModelStore.ts:292-302 | every byte lies in exactly one chunk, and that chunk exists |
| ModelTransfer.WriteUndoesRead | node/src/models/ModelStore.ts:292-328 | writing a chunk read from the source makes the part agree with the source there and spoils no recorded chunk |
| ModelTransfer.CompletePartIsSource | node/src/models/ModelStore.ts:330-334 | once all chunks are recorded, in any order and from any peers, the part is the source |
| ModelTransfer.Store.Finalize | node/src/models/ModelStore.ts:337-344 | a part is promoted exactly if it is complete, hashes to the id and is a model file |
| ModelTransfer.Store.FetchMissing | node/src/models/ModelService.ts:354-365 | one peer's turn keeps earlier progress, completes if the peer answers within three attempts each, and stops at the first chunk that does not come |
| ModelTransfer.Store.FetchFromPeers | node/src/models/ModelService.ts:346-369 | whatever stalls: only a file that hashes to the id is promoted, from honest peers only the source, and one fully responsive honest peer suffices |
| ModelTransfer.Store.Fetch | node/src/models/ModelService.ts:321-375 | link, peers, link again: a file that was absent is only ever one that hashes to the id and is a model; a good link, or a fully responsive honest peer among honest ones, suffices |
| PngLuma.Paeth | node/src/image/pngLuma.ts:12-15 | the predictor is one of its three neighbours and none is nearer to a + b - c |
| PngLuma.UnfilterInvertsFilter | node/src/image/pngLuma.ts:42-62 | for every image, choice of filters per row and pixel width, un-filtering the filtered stream gives back the pixels |
| PngLuma.ImageIsRestored | node/src/image/pngLuma.ts:42-62 | a stream is refused exactly if a row names no filter of sections 6.2 to 6.6 of RFC 2083; otherwise every byte is what its row's filter makes of the bytes to the left, above and above left |
| PngLuma.Unfilter | node/src/image/pngLuma.ts:42-62 | the nested loops over the output array compute the un-filtered image or fail on an unknown filter |
| PngFile.Scan | node/src/image/pngLuma.ts:20-35 | the chunk loop gathers header and stream as specified |
| PngFile.SplitDoesNotMatter | node/src/image/pngLuma.ts:22-40 | however the stream is split into IDAT chunks, the scan gathers the header and the whole stream |
| PngFile.DecodePngToLuma | node/src/image/pngLuma.ts:18-72 | the whole decode is as specified, unsupported forms refused |
| PngFile.DecodeInvertsEncode | node/src/image/pngLuma.ts:18-72 | decoding any encoding of an image, with any filters and any split, gives the luma of its pixels |
| PngFile.DecodedIsLuma | node/src/image/pngLuma.ts:64-72 | every point of the decoded image is the nearest integer to 0.299 red + 0.587 green + 0.114 blue of its own pixel, or its grey |

## Where the program is narrower than its comments

- `Heartbeats.TieBreaksByArrival`, `Heartbeats.ArrivalIsHarmlessIff`: two newest heartbeats of
  one master with one timestamp are told apart by arrival, so convergence assumes there are
  none (`Convergence.Proper`). That is exactly when arrival cannot matter to which heartbeats
  are the latest; whether it matters to the ledger depends on what they vouch for
  (`Money.TieChangesThePayout`).
- `Drain.LowestIsPassedOverIff`, `Drain.PassedOverIff`: a gap is not always closed at the
  sender's lowest pooled nonce; a younger one with a lower nonce is passed over and lost.
  Timestamps that follow the nonces rule it out (`Convergence.TimedPoolLosesNothing`), but
  disorder alone does no harm (`Drain.DisorderAloneIsHarmless`).
- `Ascent.CapHoldsForEpochIff`, `Ascent.SixReadingsBreakTheCap`: the ascent cap is per sealed
  subject, not per epoch.
- `FastSync.FastSyncConvergesIff`: what the server retained is lost to the joiner.
- `FastSync.AdoptionLosesTxIff`, `FastSync.AdoptionLosesLiveTx`, `FastSync.JoinerSkipsPayouts`:
  dropping through the floor and ingesting above the floor minus the settle window leave a
  gap, and the payout's window lies below the floor at first.
- `SnapshotProofs.HonestSnapshotPassesIff`, `SnapshotProofs.HonestSnapshotIsRefused`: the
  snapshot check omits the beneficiaries.
- `SnapshotProofs.RootMissesVesting`: the state root does not commit to vesting schedules,
  which the convergence theorems nevertheless cover.
- `Finality.RestartVotesAgainIff`, `Finality.AdoptionVotesAgainIff`: the last-voted guard is
  forgotten over a restart. Catching up with the clock before the first vote makes up for it
  (`Finality.KeepingTimeIsSteady`), unless the clock went back or a snapshot is adopted within
  the epoch; even then an honest master signs the same root, because replay brings it back to
  the same ledger (`Certified.OwnRootsAreSteady`).
- `Finality.StoredIff`: a vote's id does not name its voter.
- `EventLog.AppendReadsBackIff`, `EventLog.TornTailLosesEnvelopes`: an append does not repair a
  torn last line.
- `HistoryArchive.ReadsMakeTheWholeIff`: pages of more than 500 rows skip rows.
- `Cluster.ReplayTakesIff`, `Progress.RestartLosesAnAppointment`: replay refuses a founder's transaction that the snapshot does not
  admit yet.

## Left out

- Schedule.HalfLifeIsTenYears: ten years are 63072000 rounds of five seconds; the half-life is computed from exact integer rewards.
- Contributions.SubjectRates: takes distinct keys of one subject's observers to have distinct addresses, as key hashes do.
- Quorums.QuorumFinalizes: takes the votes to be new to the node and within the retained epochs; that they are heard is the network's part.
- Cluster.NodesAgree: assumes that a valid event is published before any node has settled its epoch and reaches each node before that node settles it (the settle delay's purpose), and that a node has accepted what it settles of the four kinds whose ingest checks read the state; Cluster.ReplayTakesIff says exactly when a replay does.
- Cluster.RestartKeepsSound: promises to hold again only what replay is sure to accept, because of the others replay can lose some (Progress.RestartLosesAnAppointment).
- Progress.NetworkCanSettle: says the run can continue, with any sent event delivered again; it does not model which events are gossiped again (the caps of 200 pooled and 150 recent transactions in ZiraNode.ts) nor that the network is fair.
- FastSync.FastSyncConverges: stated for the ledger, with payout and decentralization dormant; Trust after joining is not claimed, because the joiner lacks the last settled window.
- Trust.RunField: the lock gate of one subject and the consistency score are function parameters; Gate.ProgramGate is the program's gate. The trust arithmetic is over exact reals.
- Ascent.CapHoldsForEpochIff: ranges over all lock gates and consistency scores because those are parameters; Ascent.CapHoldsForProgramIff is about the program's gate, for unanimous windows.
- StateMachine.State.RunField: requires that no lock is of this epoch or later; a node that loads a snapshot older than its own locks is outside until it has passed them, and StateMachine.State.SealOne says what happens to each subject meanwhile.
- Certified.FinalizedIsTheLedger: takes as given that a master's ballot carries the root of the ledger it holds at its last processed epoch, as voteCheckpoints computes it.
- Emission.PerRound: amounts are unbounded exact integers; rounding of doubles beyond 2^53 and the safe-integer exceptions of addUZIR and subUZIR are not modelled.
- PayoutSplit.WeightedOutputs: weights and quotas are exact reals, non-finite weights are None.
- SnapshotProofs.AdoptedRootIsTheFinalizedOne: takes as given that the electorate listed in the snapshot is the network's own.
- Finality.FinalityAgrees: the electorate and its weights are fixed for the run; that all nodes derive the same one is what convergence gives.
- HistoryArchive.ArchiveFile.Append: rows rather than bytes; a crash between the append and the marker write is not modelled.
- ModelTransfer.Store.Fetch: the link's range requests, storage cap and temporary file are taken as one download that yields a file or nothing.
- Transport, peer discovery, relay, RPC, rate limits, console, telemetry, engines and subprocesses: I/O without a checkable rule; of the network only loss, duplication and reordering remain.
- Ledger history, reward history, lock log, provisional balances and statistics: display only, outside the committed state.
- The marketplace and resonator soft state, answer scoring and wall-clock settler selection: never part of the committed ledger.
- The watchdogs that adopt a verified snapshot on a stall or divergence: they reuse the check and the adoption modelled here.
- Persisted payout progress, airdrop guards and anchor event state: local files with no rule beyond read and write.
- The defensive branch for a zero total weight in the field payout cannot be reached, since every weight is at least one.
