# Mysticeti consensus: a model and its proofs

This project models the consensus core under `consensus/` and proves what the protocol is
for. Validators build a DAG of blocks round by round; each elects leaders, decides leader
slots from its own partial DAG, and expands the committed leaders into a total order of
blocks.

The main results, from the bottom up:

- **Quorums** (`Committee.dfy`): thresholds of both committee constructors and the
  intersections they guarantee, with truncating scaling.
- **Commit rule** (`CommitRule.dfy`, `BaseCommitter.dfy`, `Support.dfy`): the algorithms of
  the committer compute the votes, certificates, blame and decisions that the rule defines.
- **Safety** (`Safety.dfy`, `Agreement.dfy`, `UniversalCommitter.dfy`): with faulty stake
  below a third, two validators with different DAGs never decide a slot differently, decisions
  are final, and decided sequences extend one another.
- **Liveness** (`Liveness.dfy`): which slots are decided, by links and stake, in both
  directions, and that the committer decides every slot whose outcome its blocks show.
- **Total order** (`Linearizer.dfy`, `Look.dfy`, `TotalOrder.dfy`, `Recovery.dfy`,
  `Validator.dfy`, `Core.dfy`): over any sequences of commit attempts, restarts and certified
  commits, with leader schedules that follow from what is committed, what two validators output,
  block by block, extends one another, and no block is output twice.
- **Block verification** (`BlockVerifier.dfy`): a block passes if and only if it has the shape
  the above relies on.
- **Block manager** (`Suspension.dfy`, `BlockManager.dfy`, `DeliveryOrder.dfy`): the invariant
  of its three maps over every run, causal closure, and independence of delivery order.
- **Ancestor exclusion** (`AncestorState.dfy`): accounting, cap, greedy choice and locks over
  every run.
- **Replay** (`CommitReplay.dfy`): recovery against every interleaving with its consumer.
- **Block sync** (`BlockSync.dfy`): what a response holds.

## Assumptions

- A reference identifies one block.
- Agreement is stated for a wave of three rounds, the length in use, for any two causally
  closed parts of one network whose faulty authorities weigh less than a third of the stake;
  the others make at most one block per round. Validators that have committed the same use the
  same leader schedule.
- The schedule changes after a fixed number of commits, and the new one is any function of the
  number of commits and of the sub-dags scored. It changes only with one leader per round: with
  more, the committer may look at the round of the last decided leader again, under the new
  schedule, which its source rules out for one leader only.
- The committer's DAG leaves out genesis blocks: they have no ancestors and are never a vote,
  a certificate or a candidate.
- Clock, scores, quorum rounds, the verdict on a signature and the choice of the random
  generator are arbitrary inputs.

## Where comments and code differ

The model follows the code.

- The comment on `new_v3` calls the scaled budgets the largest possible: not always
  (`ScaledBudgetsNotAlwaysLargest`, `ScaledBudgetsLargestIff`).
- The comment on `find_supported_block` promises that support is inherited by every later
  block of the same author: not across forks (`InheritanceFailsAcrossForks`,
  `InheritedIffSameLink`, `InheritanceWithoutForks`).
- The comment on how far `try_decide` looks says that a direct decision takes blocks two rounds
  above the leader; a direct skip takes blocks one round above (`SkippableIsNotLookedAt`).
- Comments describe blame as a non-vote; the code asks for no ancestor by the leader in any
  round (`BlameIsNoVote`, `NonVoteNeedNotBlame`, `NonVoteBlamesIff`).

## Model

| member | source | states |
|---|---|---|
| `Committees.New` | consensus/config/src/committee.rs:41-71 | Succeeds exactly for a non-empty committee of fewer than 2^32 - 1 authorities with positive total stake; the intersection assertion never fires; f is the largest with 3f < total, a quorum is total - f, validity f + 1. |
| `Committees.QuorumsShareHonest` | consensus/config/src/committee.rs:52-59 | Any two sets of quorum stake share an authority outside every faulty set weighing less than a third. |
| `Committees.FaultyNeitherBlockNorValidate` | consensus/config/src/committee.rs:203-210 | A faulty set within the bound never reaches validity, and the others always hold a quorum. |
| `Committees.NewV3` | consensus/config/src/committee.rs:88-152 | Succeeds exactly when the checked multiplications do not overflow (and the committee is non-empty with stake), with the given stakes; both safety assertions hold for all budgets and totals, and the quorum subtraction cannot underflow. |
| `Committees.BudgetsAreShares` | consensus/config/src/committee.rs:101-120 | Each scaled budget is its share of the nominal base times total - 1, rounded down; without a base both are zero. |
| `Committees.ScaledBudgetsBound` | consensus/config/src/committee.rs:101-142 | Without overflow 5f + 3c <= T - 1, and T - 8 <= 5f + 3c when the nominal base is positive; raising both budgets by one breaks the second safety assertion. |
| `Committees.ScaledBudgetsNotAlwaysLargest` | consensus/config/src/committee.rs:83-87 | The comment calls the scaled budgets the largest possible; for budgets (1, 1) and total 8 they are (0, 0) although (0, 1) and (1, 0) also pass. |
| `Committees.ScaledBudgetsLargestIff` | consensus/config/src/committee.rs:101-120 | They are the largest (neither budget can grow by one) if and only if the two division remainders, weighted 5 and 3, stay below three nominal bases. |
| `Committees.V3Intersections` | consensus/config/src/committee.rs:121-142 | At set level: a certification set and a quorum overlap in at least f + 1 stake, two quorums in at least certification + f. |
| `StakeAggregators.StakeAggregator.constructor` | consensus/core/src/stake_aggregator.rs:60-66 | Starts with no voter and no stake. |
| `StakeAggregators.StakeAggregator.Add` | consensus/core/src/stake_aggregator.rs:71-76 | The stake is always that of the distinct voters; the answer is whether they form a quorum, however often one votes. |
| `Support.SearchIsSoundAndComplete` | consensus/core/src/base_committer.rs:189-216 | The depth-first search ends, and returns a block of the slot in the history of the given block if there is any, otherwise nothing. |
| `Support.SupportIsInherited` | consensus/core/src/base_committer.rs:189-216 | If A supports B at a slot, every block reaching A through own ancestors supports B; uses that the own ancestor comes first. |
| `Support.InheritanceFailsAcrossForks` | consensus/core/src/base_committer.rs:189-193 | The comment promises this for every block of the same author that includes A. A sound network of four authorities with one faulty, all blocks verifiable and causally complete, in which it fails. |
| `Support.InheritedIffSameLink` | consensus/core/src/base_committer.rs:189-216 | The exact condition: if the own chains of C and A pass the round above the slot in blocks that name x and y of the slot, C supports what A supports if and only if x and y are the same block. |
| `Support.InheritanceWithoutForks` | consensus/core/src/base_committer.rs:189-216 | The guard under which the comment is right: of any two blocks of the author above the slot, one lies on the own chain of the other. |
| `Support.BlameIsNoVote` | consensus/core/src/base_committer.rs:338-367 | A block that blames the leader votes for no block of the slot. |
| `Support.NonVoteBlamesIff` | consensus/core/src/base_committer.rs:338-367 | Comments describe blame as a non-vote; of the blocks that vote for no block of the slot, those counted as blame are exactly those without any older ancestor by the leader. |
| `Support.NonVoteNeedNotBlame` | consensus/core/src/base_committer.rs:338-367 | A verified block that votes for no block of the slot and is not counted as blame: it names an older block of the leader. |
| `BaseCommitters.BaseCommitter.UncommittedBlocksAtRound` | consensus/core/src/dag_state.rs:547-564 | Every block of the round, and no other. |
| `BaseCommitters.BaseCommitter.UncommittedBlocksAtSlot` | consensus/core/src/dag_state.rs:531-543 | Every block of the slot once, and no other. |
| `BaseCommitters.BaseCommitter.AncestorsAtRound` | consensus/core/src/dag_state.rs:603-637 | The descending walk ends and returns exactly the blocks of the round in the history of the anchor, without reading a block that was collected. |
| `BaseCommitters.BaseCommitter.EnoughLeaderBlame` | consensus/core/src/base_committer.rs:338-367 | With its early return, true if and only if the distinct authors of blaming blocks in the voting round hold a quorum. |
| `BaseCommitters.BaseCommitter.IsCertificate` | consensus/core/src/base_committer.rs:220-280 | With the shared vote cache and early return, true if and only if the distinct authors of voting ancestors hold a quorum; every cached vote equals a fresh one, before and after. |
| `BaseCommitters.DistinctStakeAtMostSum` | consensus/core/src/base_committer.rs:371-386 | The quick reject is sound: summing stake with repetitions never gives less than distinct stake. |
| `BaseCommitters.BaseCommitter.EnoughLeaderSupport` | consensus/core/src/base_committer.rs:371-402 | With the cache, the quick reject and the early return, true if and only if distinct authors of decision-round certificates hold a quorum. |
| `BaseCommitters.BaseCommitter.DecisionRoundAt` | consensus/core/src/base_committer.rs:171-187 | For a round the committer leads, wave arithmetic gives leader round + wave length - 1. |
| `BaseCommitters.BaseCommitter.TryDirectDecide` | consensus/core/src/base_committer.rs:87-118 | Skips if and only if distinct authors of next-round blocks without an ancestor by the leader hold a quorum; undecided if and only if they do not and no block of the slot is supported; else commits the one supported block. The panic is unreachable when at most one block is supported. |
| `BaseCommitters.BaseCommitter.AnyCertifies` | consensus/core/src/base_committer.rs:311-320 | Whether one of the given blocks certifies the leader, with one cache for all of them. |
| `BaseCommitters.BaseCommitter.CertifiedAmong` | consensus/core/src/base_committer.rs:285-320 | Exactly the leader blocks of the slot that have a certificate in the history of the anchor. |
| `BaseCommitters.BaseCommitter.DecideLeaderFromAnchor` | consensus/core/src/base_committer.rs:285-335 | Skips if and only if no block of the decision round in the history of the anchor certifies a block of the slot; else commits the one that is certified. The panic is unreachable when at most one is. |
| `BaseCommitters.BaseCommitter.TryIndirectDecide` | consensus/core/src/base_committer.rs:123-146 | The first status past the wave that is not a skip decides: through it if committed, undecided otherwise. |
| `Liveness.SkipsIff` | consensus/core/src/base_committer.rs:87-93 | For views of a sound network: the direct rule skips a slot if and only if authors of next-round blocks that name nothing of the leader hold a quorum. |
| `Liveness.CommitsIff` | consensus/core/src/base_committer.rs:95-118 | It commits a block if and only if authors of blocks two rounds above, each with ancestors of a quorum that link to the block, hold a quorum. |
| `Liveness.UndecidedIff` | consensus/core/src/base_committer.rs:87-118 | It leaves a slot open if and only if neither holds. |
| `Liveness.SilentLeaderIsSkipped` | consensus/core/src/base_committer.rs:88-93 | A leader that a quorum of the next round names nothing of is skipped in every view that holds their blocks. |
| `Liveness.CertifiedLeaderIsCommitted` | consensus/core/src/base_committer.rs:95-118 | A leader that a quorum certifies is committed in every view that holds their certificates. |
| `Liveness.AnchoredCommitsIff` | consensus/core/src/base_committer.rs:285-335 | Through an anchor a block is committed if and only if the history of the anchor holds a certificate for it. |
| `Liveness.AnchoredSkipsIff` | consensus/core/src/base_committer.rs:285-335 | Through an anchor a slot is skipped if and only if its history holds no certificate for any block of the slot. |
| `Liveness.DecidedThrough` | consensus/core/src/base_committer.rs:130-146 | A slot left open by the direct rule is decided through the first slot three or more rounds above that is not skipped, if that one is committed. |
| `Liveness.DecidedOnlyThrough` | consensus/core/src/base_committer.rs:130-146 | Nothing else decides such a slot. |
| `Safety.VoteIsLink` | consensus/core/src/base_committer.rs:194-224 | For a wave of three rounds a vote is a direct link to the leader, the same in every view. |
| `Safety.CertificateInAnyView` | consensus/core/src/base_committer.rs:232-280 | Whether a block is a certificate for a leader does not depend on the view that holds it. |
| `Safety.CertificatesAgree` | consensus/core/src/base_committer.rs:232-280 | Two certificates for blocks of one slot certify the same block, whatever faulty authorities do. |
| `Safety.BlameExcludesCertificate` | consensus/core/src/base_committer.rs:338-367 | A quorum of blame in any view excludes every certificate for the slot in the network. |
| `Safety.HistoryHoldsQuorum` | consensus/core/src/block_verifier.rs:113-169 | Every verified block reaches, in every lower round above the collection round, blocks by distinct authors with quorum stake. |
| `Safety.ReachesCertificate` | consensus/core/src/base_committer.rs:285-335 | If certificates for a leader come from a quorum, every block three or more rounds above the leader has one of them in its history, in every view. |
| `Safety.LeadersAreUnique` | consensus/core/src/base_committer.rs:101-113 | In every view at most one block of a slot is supported, and at most one is certified through any anchor: both panics about more than one leader are unreachable. |
| `Safety.AnchorDecisionsAgree` | consensus/core/src/base_committer.rs:285-335 | The decision through one anchor is the same in every view that holds it. |
| `Safety.DirectCommitBinds` | consensus/core/src/base_committer.rs:87-118 | A direct commit in one view makes every anchor at round + 3 or later, in every view, commit the same block. |
| `Safety.DirectSkipBinds` | consensus/core/src/base_committer.rs:87-118 | A direct skip in one view makes every anchor in every view skip. |
| `Safety.CommittedIsNotBlamed` | consensus/core/src/base_committer.rs:87-118 | A slot committed directly in one view is blamed by a quorum in none. |
| `Safety.DirectDecisionsAgree` | consensus/core/src/base_committer.rs:87-118 | Two views that decide a slot directly decide it alike. |
| `Safety.DirectDecisionStable` | consensus/core/src/base_committer.rs:87-118 | A direct decision stays the same as the view grows, although blame is tested before support. |
| `Agreement.DirectAgreesWithAny` | consensus/core/src/base_committer.rs:87-146 | A direct decision in one view equals any decision, direct or indirect, in another. |
| `Agreement.SlotAgreement` | consensus/core/src/base_committer.rs:87-146 | Two views of one network that both decide a slot, each directly or indirectly over its own later statuses, both skip it or both commit the same block. |
| `Agreement.DecisionsAreFinal` | consensus/core/src/base_committer.rs:87-146 | No growth of the view, and no additional later slot, loses or changes a decision. |
| `Agreement.StatusesAreStatusAt` | consensus/core/src/universal_committer.rs:64-95 | The status list is consistent: its k-th entry is what the rules give for that slot over the entries after it. |
| `Agreement.DecidedSequencesAgree` | consensus/core/src/universal_committer.rs:97-112 | From the same slot on, the decided sequence of one view is a prefix of that of the other. |
| `Agreement.CommittedLeadersAgree` | consensus/core/src/universal_committer.rs:97-112 | So are the sequences of committed leader blocks. |
| `UniversalCommitters.Build` | consensus/core/src/universal_committer.rs:196-221 | One stage per round of a wave with pipelining, a single one without, times the number of leaders, stage by stage. |
| `UniversalCommitters.PipelineElects` | consensus/core/src/base_committer.rs:148-187 | With offsets 0, 1 and 2 every round is led by exactly one stage. |
| `UniversalCommitters.CommitterAt` | consensus/core/src/base_committer.rs:148-166 | Which committer of the pipeline leads a round, and at which offset. |
| `UniversalCommitters.UniversalCommitter.CommitterCanDecide` | consensus/core/src/universal_committer.rs:64-95 | On every slot the loop looks at, the decision rules find the blocks they ask for and their panics are unreachable. |
| `UniversalCommitters.UniversalCommitter.DecideSlot` | consensus/core/src/universal_committer.rs:79-93 | One slot: direct rule first, indirect rule over the later statuses otherwise. |
| `UniversalCommitters.UniversalCommitter.DecideRound` | consensus/core/src/universal_committer.rs:64-94 | One round: extends the status list by the slots of the round, last leader first, and stops at the last decided slot. |
| `UniversalCommitters.UniversalCommitter.SlotsOfRound` | consensus/core/src/base_committer.rs:148-166 | Each offset of a round is the slot of whoever is elected for it; unless more leaders are set a round has one. |
| `UniversalCommitters.UniversalCommitter.LooksAtIff` | consensus/core/src/universal_committer.rs:48-64 | A slot is before the end of the search if and only if it is two rounds below the highest accepted round, or of the genesis round. |
| `UniversalCommitters.UniversalCommitter.AllStatuses` | consensus/core/src/universal_committer.rs:43-95 | The two loops compute the statuses of every slot after the last decided one up to that end, whatever round they stop in. |
| `Agreement.TakesDecided` | consensus/core/src/universal_committer.rs:97-112 | A status is returned if and only if it and all statuses before it are decided. |
| `UniversalCommitters.UniversalCommitter.TryDecide` | consensus/core/src/universal_committer.rs:43-112 | Returns the longest run of decided leaders after the last decided slot, genesis left out. |
| `Liveness.CommittableIsLookedAt` | consensus/core/src/universal_committer.rs:60-64 | If no block held is above the highest accepted round, every slot that the direct rule could commit is looked at. |
| `Liveness.SkippableIsNotLookedAt` | consensus/core/src/universal_committer.rs:60-64 | The comment says that a direct decision takes blocks two rounds above; a skip takes blocks one round above, and such a slot is left for later. |
| `Liveness.LooksAtEverySlot` | consensus/core/src/universal_committer.rs:48-77 | Every slot after the last decided one that is two rounds below the highest accepted round is looked at. |
| `Liveness.DecidesIff` | consensus/core/src/universal_committer.rs:64-112 | Such a slot is among the decisions if and only if it and all slots between are decided, and with its own status. |
| `Liveness.DecidesWhatIsShown` | consensus/core/src/universal_committer.rs:43-112 | Progress: if the blocks held show, by silence or by certificates of a quorum, what comes of every slot up to one two rounds below the highest, the committer decides all of them, and so. |
| `UniversalCommitters.SameStart` | consensus/core/src/universal_committer.rs:48-77 | Two validators look for leaders from the same slot on, however far their DAGs reach. |
| `UniversalCommitters.DecidedExtend` | consensus/core/src/universal_committer.rs:43-112 | What two validators decide after the same slot: one sequence is a prefix of the other. |
| `UniversalCommitters.DecisionsExtendEachOther` | consensus/core/src/universal_committer.rs:43-112 | Two calls of the committer return what each of them decides after the same slot, and these, as well as the leaders committed, extend one another. |
| `Blocks.AboveGcIff` | consensus/core/src/dag_state.rs:1222-1230 | A round is above the collection round if and only if it is no genesis round and less than the depth behind the last committed leader. |
| `Linearizers.SubDagIsHistory` | consensus/core/src/linearizer.rs:159-221 | A leader commits exactly itself and its history above the collection round, less what is committed already, each block once; what is committed stays closed under history. |
| `Linearizers.SubDagIsSorted` | consensus/core/src/commit.rs:404-410 | A sub-dag is ordered by round, then author, and holds the blocks of the walk. |
| `Linearizers.Linearizer.CommitAll` | consensus/core/src/linearizer.rs:199-206 | Marks each ancestor for the first time: the assertion against committing twice cannot fail. |
| `Linearizers.Linearizer.LinearizeSubDag` | consensus/core/src/linearizer.rs:159-221 | The walk ends, none of its assertions and lookups fails, and it returns, in order and with the leader at the end, the leader and of its history exactly what is uncommitted, not genesis, and of a round that plus the depth exceeds the last commit round. |
| `Linearizers.Linearizer.HandleCommit` | consensus/core/src/linearizer.rs:226-246 | One such sub-dag per leader, each less what the ones before committed and with the collection round of the leader before; no block appears twice, now or from before. |
| `Linearizers.SubDagsAreHistories` | consensus/core/src/linearizer.rs:226-246 | The same of the sub-dags that any two validators agree on. |
| `Linearizers.NothingTwice` | consensus/core/src/linearizer.rs:159-246 | All sub-dags together list what is newly committed, each block once. |
| `Linearizers.WalkSameInBothViews` | consensus/core/src/linearizer.rs:159-221 | The walk, with its order, is the same in any two views: it reads nothing but the history of the leader. |
| `Linearizers.SubDagsAgree` | consensus/core/src/linearizer.rs:226-246 | A prefix of the leaders, in another view, gives a prefix of the sub-dags. |
| `Linearizers.LeadersInSlotOrder` | consensus/core/src/universal_committer.rs:97-112 | Committed leaders come in slot order, each of them held and none repeated. |
| `Linearizers.LaterSlotsStayOpen` | consensus/core/src/linearizer.rs:174-178 | Committing leaders never commits a block of a slot that is still to be decided, so no leader is committed twice. |
| `Linearizers.DecidedMayCommit` | consensus/core/src/linearizer.rs:226-246 | What the committer decides meets what the linearizer demands. |
| `Linearizers.DecideAndCommit` | consensus/core/src/core.rs:700-720 | One validator decides, takes the first decisions, all of them or as many as the limit, and commits exactly those; afterwards it is ready for the next decisions. |
| `Linearizers.CommitInTotalOrder` | consensus/core/src/commit_observer.rs:105-142 | Two validators that have committed the same so far: the blocks each commits next, in order, extend those of the other, and none is committed twice. |
| `Looks.CallIsLook` | consensus/core/src/universal_committer.rs:43-112 | What one call of the committer decides, cut off at any limit, is one step of the runs below, from the slot the call started at. |
| `Looks.LookIsDue` | consensus/core/src/universal_committer.rs:97-112 | What is decided in one step may be committed: held, in slot order, none repeated. |
| `Looks.CommitInTwo` | consensus/core/src/linearizer.rs:226-246 | Committing leaders in two goes gives what committing them in one gives. |
| `Looks.CutLook` | consensus/core/src/universal_committer.rs:43-112 | Stopping partway through what was decided and deciding again gives the same sub-dags and the same final state. |
| `TotalOrders.RunsExtendEachOther` | consensus/core/src/commit_observer.rs:105-142 | Total order: for any two runs from the same point, each with any number of steps on any growing or differing views of the network, under a schedule of leaders that is any function of the sub-dags committed and changes only where steps end, one output is a prefix of the other, block by block. |
| `Validators.SlotsAreDistinctIff` | consensus/core/src/base_committer.rs:148-166 | The schedule elects no slot twice, as the results below ask, if and only if no round elects an authority twice; with one leader per round it never does. |
| `Validators.LooksOnIff` | consensus/core/src/universal_committer.rs:48-77 | Once a slot is decided the committer looks on from the next one, under whatever schedule it has by then, if and only if it is configured with one leader per round or the schedule still has that slot: the guard that the source adds for schedule boundaries is needed. |
| `Validators.NextStart` | consensus/core/src/universal_committer.rs:48-77 | Wherever its search starts, the committer looks from the slot right after the last decided one; with one leader per round, even if the schedule changed since and another authority leads that round now. |
| `Validators.CallsAreRun` | consensus/core/src/core.rs:646-773 | Any sequence of calls, each after the slot the one before decided last, on whatever DAGs, is a run with the same output. |
| `Validators.ElectedAfter` | consensus/core/src/leader_schedule.rs:77-130 | After each full interval the election is that for the number of commits and the sub-dags of the interval just full; before the first it is that of genesis. |
| `Validators.RemainingKeeps` | consensus/core/src/leader_schedule.rs:77-90 | Until as many more sub-dags are committed as the schedule has left, the schedule stays as it is. |
| `Validators.CallsExtendEachOther` | consensus/core/src/core.rs:646-773 | Total order for calls: however often two validators call their committers, whatever they hold each time, and however what they commit changes the schedule, one output is a prefix of the other. |
| `Validators.CallsCommitOnce` | consensus/core/src/core.rs:646-773 | Integrity for calls: no block is output twice, nor one committed before, across changes of the schedule too. |
| `Validators.GenesisIsBetween` | consensus/core/src/dag_state.rs:1188-1207 | A new validator is where such sequences may start, whichever genesis block counts as decided. |
| `Recoveries.DecidedInTurn` | consensus/core/src/universal_committer.rs:43-112 | Slots decided one after the other, in whatever views, are decided alike in one view of the network. |
| `Recoveries.BehindTakes` | consensus/core/src/universal_committer.rs:43-112 | A validator that decides skipped slots again commits what a run that does not would commit, whatever view it decides on. |
| `Recoveries.OnlySkipsAfterLeader` | consensus/core/src/core.rs:700-735 | After the last leader that a step commits it has only skips, under a schedule that has not changed: going back there loses nothing. |
| `Recoveries.StandsAgain` | consensus/core/src/dag_state.rs:1188-1199 | Going back to the slot after the last leader keeps a validator on the run it stands on. |
| `Recoveries.StandsFurther` | consensus/core/src/core.rs:646-773 | So does deciding and committing more, on any view. |
| `Recoveries.StandingsExtendEachOther` | consensus/core/src/core.rs:646-773 | Total order with restarts: two validators on runs from the same start have output what extends one another. |
| `Recoveries.NextOutput` | consensus/core/src/core.rs:1058-1093 | The next sub-dag that a run outputs is that of the next leader in a single view of the network, whichever views the run decided on. |
| `Cores.Core.constructor` | consensus/core/src/core.rs:106-106 | A new validator satisfies the invariant of its commit loop and has output nothing. |
| `Cores.ElectedNow` | consensus/core/src/leader_schedule.rs:77-90 | The table in force, renewed only when due, is the one that what is committed so far determines, and its count of commits left is right. |
| `Cores.Core.UpdateSchedule` | consensus/core/src/core.rs:651-676 | Renews the table exactly when as many sub-dags are scored as it is meant for; afterwards at least one commit is left. |
| `Cores.Core.AddScoringSubDags` | consensus/core/src/dag_state.rs:1341-1343 | Counting what is committed keeps the table in force the one that the commits determine. |
| `Cores.Core.Turn` | consensus/core/src/core.rs:646-773 | One turn of the commit loop is one call, with the schedule and the limit that what was committed before determines; it takes the first decisions, all or as many as the limit, and keeps the invariant of the loop. |
| `Cores.CallTakesWhatIsShown` | consensus/core/src/core.rs:700-708 | Progress: what the blocks held show of the next slots, up to one two rounds below the highest, a turn decides and takes, as far as its limit goes. |
| `Cores.Core.TryCommit` | consensus/core/src/core.rs:644-800 | The loop ends; its output is that of the sequence of calls it makes, across changes of the schedule; when it ends, none of the decisions its last turn could take is a commit. |
| `Cores.Core.Recover` | consensus/core/src/dag_state.rs:1188-1199 | A restart, which moves the last decided slot back to the last committed leader, keeps the invariant. |
| `Cores.Core.CommitCertified` | consensus/core/src/core.rs:678-767 | Taking the leader of a certified commit, on whatever part of the network holds it, never fails to linearize, outputs the sub-dag of that leader in the view that has it next, and keeps the invariant. |
| `Cores.OthersLead` | consensus/core/src/core.rs:1058-1093 | A validator can always catch up: if another has output more, the next sub-dag of the other is what this one outputs when it takes the next leader. |
| `Cores.CoresExtendEachOther` | consensus/core/src/core.rs:644-800 | Total order for validators as objects: at any time, what one has output since genesis is a prefix of what the other has, whatever they received, however often they tried, were restarted or took certified commits, and however that changed the schedule. |
| `Cores.CoreCommitsOnce` | consensus/core/src/core.rs:644-800 | Integrity: at any time a validator has output each block once, and those are the blocks it has marked as committed. |
| `Looks.LookCommitsOnce` | consensus/core/src/linearizer.rs:159-246 | One step commits each block once, none above the round of its last leader, and keeps what the next step needs. |
| `TotalOrders.RunCommitsOnce` | consensus/core/src/linearizer.rs:174-206 | Integrity: over a whole run no block is output twice, nor one committed before. |
| `BlockVerifiers.CheckAncestors` | consensus/core/src/block_verifier.rs:113-169 | Passes if and only if ancestors are valid, own first, of lower rounds, known if genesis, by distinct authors and with a quorum of parents; each error names a fault the block has. |
| `BlockVerifiers.DistinctAuthorsFit` | consensus/core/src/block_verifier.rs:113-117 | The length check rejects nothing that the other checks would admit. |
| `BlockVerifiers.CheckRejects` | consensus/core/src/block_verifier.rs:243-275 | Comparing neighbours and the last entry settles strict order and bound of all rejected indices. |
| `BlockVerifiers.CheckTransactionVotes` | consensus/core/src/block_verifier.rs:186-277 | Passes if and only if votes are within the limit, have distinct targets between cutoff and block round, valid authors and increasing indices below the limit. |
| `BlockVerifiers.CheckTransactions` | consensus/core/src/block_verifier.rs:279-313 | Passes if and only if size, count and total bytes are within limits, zero meaning none; the error names the limit that is exceeded. |
| `BlockVerifiers.VerifyBlock` | consensus/core/src/block_verifier.rs:70-184 | Passes if and only if the block is valid; every error is justified. |
| `BlockVerifiers.VerifiedIsWellFormed` | consensus/core/src/block_verifier.rs:70-184 | A verified block has what the committer and the block manager rely on. |
| `BlockVerifiers.ValidIff` | consensus/core/src/block_verifier.rs:70-313 | What verification comes to, with its limits in numbers: at most max(gc depth, 1) vote targets per authority, rejected indices below the transaction limit and below 65527, and zero for no limit. |
| `BlockVerifiers.SumAppend` | consensus/core/src/block_verifier.rs:300-313 | Transaction bytes add up. |
| `Sorting.SortIsSortedAndStable` | consensus/core/src/block_manager.rs:117-117 | Sorting by a key gives a sorted sequence in which equal keys keep their order. |
| `Suspension.ResolveKeepsInv` | consensus/core/src/block_manager.rs:384-456 | Resolving a dependency and accepting what it frees keeps the invariant of the three maps. |
| `Suspension.ResolveKeepsHeld` | consensus/core/src/block_manager.rs:384-456 | Unsuspending moves blocks from suspended to accepted: none is lost, none appears. |
| `Suspension.FreedCausally` | consensus/core/src/block_manager.rs:384-430 | Every unsuspended block comes after all its newly accepted ancestors. |
| `Suspension.CausalOrderKeepsClosed` | consensus/core/src/block_manager.rs:110-182 | Accepting a causally ordered batch keeps every accepted block with its ancestors accepted or collected. |
| `BlockManagers.BlockManager.constructor` | consensus/core/src/block_manager.rs:66-76 | Starts with the genesis blocks accepted and nothing missing. |
| `BlockManagers.BlockManager.AcceptBlocks` | consensus/core/src/dag_state.rs:441-449 | The DAG grows by exactly the given blocks; what it held stays. |
| `BlockManagers.BlockManager.AdvanceGcRound` | consensus/core/src/dag_state.rs:1222-1230 | Moving the collection round up keeps the invariant and the closure. |
| `BlockManagers.BlockManager.TryUnsuspendBlock` | consensus/core/src/block_manager.rs:434-456 | Removes the dependency; the block is freed exactly if it waited for nothing else. Neither panic can happen where it is called. |
| `BlockManagers.BlockManager.ResolveDependency` | consensus/core/src/block_manager.rs:390-420 | Every waiting block loses the dependency, exactly those that waited for it alone are freed, each once, and the maps keep mirroring each other. |
| `BlockManagers.BlockManager.TryUnsuspendChildrenBlocks` | consensus/core/src/block_manager.rs:384-430 | The worklist ends having freed everything that waits for nothing but what was accepted or freed, each block after what it waited for. |
| `BlockManagers.BlockManager.RecordMissing` | consensus/core/src/block_manager.rs:306-355 | Records exactly the needed ancestors that are not accepted, and asks to fetch those that are not suspended. |
| `BlockManagers.BlockManager.TryAcceptOneBlock` | consensus/core/src/block_manager.rs:280-380 | The exact condition of each of the four results, and the whole new state for each. |
| `BlockManagers.BlockManager.TryAcceptOneCommittedBlock` | consensus/core/src/block_manager.rs:184-210 | Accepted at once unless present; if it was suspended it leaves all three maps consistently. |
| `BlockManagers.BlockManager.ProcessBlock` | consensus/core/src/block_manager.rs:118-172 | One block and all it frees: accepted once each, in causal order, with the invariant kept and nothing held lost. |
| `BlockManagers.BlockManager.ProcessCommittedBlock` | consensus/core/src/block_manager.rs:118-172 | The same for a committed block, in causal order if its needed ancestors are there. |
| `BlockManagers.BlockManager.TryAcceptBlocksInternal` | consensus/core/src/block_manager.rs:110-182 | A batch in round order on either path; the missing references reported are still missing, are ancestors of the batch, and include all that is newly waited for and not suspended. |
| `BlockManagers.BlockManager.TryAcceptBlocks` | consensus/core/src/block_manager.rs:82-88 | Accepts each block at most once, in causal order, holds exactly what arrived above the collection round, reports what is newly missing, keeps the invariant and the closure. |
| `BlockManagers.BlockManager.TryAcceptCommittedBlocks` | consensus/core/src/block_manager.rs:93-106 | Accepts every block of the batch, nothing is missing (the assertion holds), loses nothing held, and keeps the closure if the batch brings its history. |
| `BlockManagers.BlockManager.TryFindBlocks` | consensus/core/src/block_manager.rs:214-275 | Returns and notes exactly the references above the collection round that are neither accepted nor suspended; existing entries stay. |
| `BlockManagers.BlockManager.TryUnsuspendBlocksForLatestGcRound` | consensus/core/src/block_manager.rs:460-530 | The sweep ends; no missing reference at or below the collection round and no suspended block below that round + 2 is left; accepted in causal order; nothing held is lost. |
| `BlockManagers.LeastIsFree` | consensus/core/src/block_manager.rs:493-496 | The least missing reference is never suspended, so the assertion of the sweep never fires. |
| `BlockManagers.SuspendKeepsInv` | consensus/core/src/block_manager.rs:306-375 | Suspending a block keeps the invariant of the three maps. |
| `BlockManagers.ReleaseKeepsInv` | consensus/core/src/block_manager.rs:190-206 | Taking a committed block out of suspension keeps it. |
| `BlockManagers.NoteKeepsInv` | consensus/core/src/block_manager.rs:236-262 | Noting a reference nobody waits for keeps it. |
| `DeliveryOrder.AcceptedIffComplete` | consensus/core/src/block_manager.rs:280-456 | The DAG holds exactly the blocks whose whole history above the collection round arrived. |
| `Suspension.UnmetIff` | consensus/core/src/block_manager.rs:306-330 | A block lacks exactly the ancestors that are not accepted and of the genesis round or above the collection round. |
| `DeliveryOrder.AcceptedIffAncestors` | consensus/core/src/block_manager.rs:306-355 | A held block is accepted if and only if all those ancestors of it are. |
| `DeliveryOrder.WaitsExactly` | consensus/core/src/block_manager.rs:306-355 | A suspended block waits for exactly the needed ancestors that are not accepted. |
| `DeliveryOrder.StateIsDetermined` | consensus/core/src/block_manager.rs:49-59 | DAG, suspended blocks and both missing maps are determined by where the manager started and the blocks that arrived. |
| `DeliveryOrder.CompleteLeavesNothing` | consensus/core/src/block_manager.rs:280-456 | If everything that arrived is causally complete, all of it is accepted, nothing is suspended, and what is missing is exactly what was noted before and has not arrived: nothing, if nothing was noted. |
| `DeliveryOrder.Deliver` | consensus/core/src/block_manager.rs:82-182 | Any number of batches: outputs together are causally ordered and name each accepted block once. |
| `DeliveryOrder.DeliverInAnyOrder` | consensus/core/src/block_manager.rs:82-182 | Two managers that start alike, noted references included, and receive the same blocks in any order and batching end in the same state, which holds exactly what was delivered above the collection round and accepts exactly what is complete. |
| `DeliveryOrder.Step` | consensus/core/src/block_manager.rs:82-530 | Every operation has its effect on what is held, noted and collected, keeps the invariant of the three maps, grows the DAG by new blocks only and keeps the closure, on the committed path if the batch brings its history. |
| `DeliveryOrder.Run` | consensus/core/src/block_manager.rs:82-530 | So does every sequence of operations: each state on the way satisfies the invariant, each is causally closed if the committed batches bring their history, and no block is accepted twice. |
| `DeliveryOrder.AcceptedIsView` | consensus/core/src/base_committer.rs:206-210 | A closed DAG of network blocks is a view, so walks that stay above the collection round find every block: the storage panics of the committer are unreachable. |
| `AncestorStates.CalculateNetworkHighQuorumRound` | consensus/core/src/ancestor.rs:284-306 | The lowest round at or above the high rounds of authorities with quorum stake; zero if there is no such round. |
| `AncestorStates.MovesIff` | consensus/core/src/ancestor.rs:137-187 | Who may leave: unlocked and included with a score of which five times as much is not above the highest; who may return: unlocked and excluded with a better score, or with a high quorum round at the level of the network. |
| `AncestorStates.AncestorStateManager.constructor` | consensus/core/src/ancestor.rs:85-106 | Everyone included, nothing excluded, and the cap two thirds of the configured percentage of the stake, rounded down. |
| `AncestorStates.AncestorStateManager.ApplyStateChange` | consensus/core/src/ancestor.rs:224-275 | Flips and locks one authority and keeps the total equal to the stake of the excluded ones; the subtraction cannot underflow. |
| `AncestorStates.AncestorStateManager.CollectTransitions` | consensus/core/src/ancestor.rs:137-187 | Exactly the unlocked excluded authorities that recovered, and exactly the unlocked included ones with a low score, in index order. |
| `AncestorStates.SortInScoreOrder` | consensus/core/src/ancestor.rs:195-197 | The stable sort orders candidates by score, then by index. |
| `AncestorStates.PickIsGreedy` | consensus/core/src/ancestor.rs:199-221 | A candidate is excluded if and only if it fits under the cap after the excluded ones before it. |
| `AncestorStates.GreedyIsUnique` | consensus/core/src/ancestor.rs:199-221 | That rule determines who is excluded. |
| `AncestorStates.AncestorStateManager.UpdateAllAncestorsState` | consensus/core/src/ancestor.rs:117-222 | Recovered authorities return, the greedy choice of low ones leaves, nobody else moves, the total is the excluded stake and within the cap; no panic is reached. |
| `AncestorStates.ExclusionIsMaximal` | consensus/core/src/ancestor.rs:199-221 | Whoever is unlocked, low and still included would push the excluded stake past the cap. |
| `AncestorStates.WorstScoresFirst` | consensus/core/src/ancestor.rs:195-208 | A candidate with a worse score is excluded whenever a better one of at least its stake is. |
| `AncestorStates.UpdatedRespectsLocks` | consensus/core/src/ancestor.rs:158-161 | An update moves only unlocked authorities, and locks each that moves. |
| `AncestorStates.MovesAreFarApart` | consensus/core/src/ancestor.rs:74-80 | In every run, two moves of one authority are more than 450 clock rounds apart. |
| `AncestorStates.Run` | consensus/core/src/ancestor.rs:117-222 | In every run of updates with any scores, quorum rounds and clocks, each state follows from the one before by an update, and the excluded stake is within the cap throughout. |
| `AncestorStates.CapIsSafeIff` | consensus/core/src/ancestor.rs:88-95 | The cap stays within the tolerated faults of every committee if and only if the configured threshold is at most 50 percent. |
| `AncestorStates.IncludedHoldQuorum` | consensus/core/src/ancestor.rs:85-106 | For such thresholds, 33 among them, the included authorities always hold quorum stake. |
| `CommitReplay.StepKeepsInv` | consensus/core/src/commit_observer.rs:224-323 | Every step of recovery or consumer, in any interleaving, keeps the protocol invariant. |
| `CommitReplay.PacingBoundsQueue` | consensus/core/src/commit_observer.rs:310-322 | At every point of every interleaving the log is the history in order; in full-replay mode at most one batch of commits up to the target is sent and not handled. |
| `CommitReplay.WaitsOnlyForSent` | consensus/core/src/commit_observer.rs:313-317 | Recovery only ever waits for commits that were sent and are at or below the target. |
| `CommitReplay.RecoveryIsNotStuck` | consensus/core/src/commit_consumer.rs:209-217 | Once the consumer handled what it was sent, recovery can go on. |
| `CommitReplay.RunsAreBounded` | consensus/core/src/commit_observer.rs:224-323 | Every interleaving is finite, with an explicit bound. |
| `CommitReplay.MaximalRunsFinish` | consensus/core/src/commit_observer.rs:325-329 | An interleaving that cannot go on has sent everything once in order, and the paced part is handled. |
| `CommitReplay.CommitConsumerMonitor.SetReplayTarget` | consensus/core/src/commit_consumer.rs:177-181 | The target is set at most once. |
| `CommitReplay.CommitConsumerMonitor.ReportCommitted` | consensus/core/src/commit_consumer.rs:183-192 | The committed head only moves up, with its round. |
| `CommitReplay.CommitObserver.ScanCommits` | consensus/core/src/commit_observer.rs:231-240 | The length check detects every gap, and without one the indices are consecutive. |
| `CommitReplay.CommitObserver.Interfere` | consensus/core/src/commit_observer.rs:308-308 | Between sends the consumer may acknowledge any part of what it was sent. |
| `CommitReplay.CommitObserver.WaitForHandled` | consensus/core/src/commit_consumer.rs:209-217 | Returns once the consumer acknowledged the awaited commit. |
| `CommitReplay.CommitObserver.SendCommit` | consensus/core/src/commit_observer.rs:255-309 | Sent unless the finalized commits do not come first or the paced part lacks metadata; exactly unfinalized commits are voted on again. |
| `CommitReplay.CommitObserver.SendBatch` | consensus/core/src/commit_observer.rs:255-309 | One batch, in order; the index assertion cannot fail. |
| `CommitReplay.CommitObserver.FinishBatch` | consensus/core/src/commit_observer.rs:310-322 | In full-replay mode waits for the paced part of the batch, otherwise goes on. |
| `CommitReplay.CommitObserver.SendHistory` | consensus/core/src/commit_observer.rs:218-329 | All batches: succeeds if and only if the stored history is good; everything is sent once in order. |
| `CommitReplay.ReplayableIff` | consensus/core/src/commit_observer.rs:152-337 | When recovery does not panic, by the fields of request and store. |
| `CommitReplay.CommitObserver.ReplayHistory` | consensus/core/src/commit_observer.rs:152-337 | The replay is a run of the protocol for the request. |
| `CommitReplay.CommitObserver.RecoverAndSendCommits` | consensus/core/src/commit_observer.rs:152-337 | From a watermark it completes if and only if the head is not below the replay index and no later commit is missing or finalized after an unfinalized one; then exactly the commits after the replay index are sent, once and in order. A full replay also asks that no target was set and, with voting, that all up to the finalized head are finalized; it sends all commits, none up to the target (the finalized head with voting, else the head) more than 250 ahead of what the consumer had acknowledged, and waits for that part. The commits voted on again are exactly the unfinalized ones. |
| `BlockSync.ScanFirst` | consensus/core/src/block_sync_service.rs:200-205 | The lowest stored block of an author in a half-open range of rounds. |
| `BlockSync.PopLeast` | consensus/core/src/block_sync_service.rs:199-199 | Removes the least entry of the heap. |
| `BlockSync.StartHeap` | consensus/core/src/block_sync_service.rs:189-197 | One entry per authority with something to fetch. |
| `BlockSync.MergeByRound` | consensus/core/src/block_sync_service.rs:189-217 | Each pop takes the least entry pushed and not yet popped, in order of round and authority, and adds the blocks it stands for; it ends exactly when the room is full or nothing is left. Below the cap it leaves out no stored round, at the cap none below the entry it had come to. |
| `BlockSync.MergeIsDetermined` | consensus/core/src/block_sync_service.rs:189-217 | What is added, and in which order, is determined by the store, the rounds asked for and the room left. |
| `BlockSync.MergedIsNew` | consensus/core/src/block_sync_service.rs:180-187 | The merge never repeats a block that was asked for by reference. |
| `BlockSync.BlockSyncService.ReadBlocks` | consensus/core/src/block_sync_service.rs:237-259 | Reading the store first and filling the gaps from the cache gives what the cache alone would, in request order. |
| `BlockSync.BlockSyncService.PickMissingAncestors` | consensus/core/src/block_sync_service.rs:136-169 | Distinct missing ancestors of the requested blocks, all of them if there is room. |
| `BlockSync.BlockSyncService.LimitRounds` | consensus/core/src/block_sync_service.rs:173-187 | The last round of every authority, or the lowest requested round of each requested one. |
| `BlockSync.PresentInOrder` | consensus/core/src/block_sync_service.rs:237-259 | Blocks come in the order asked for, as often as asked for. |
| `BlockSync.BlockSyncService.AskedIs` | consensus/core/src/block_sync_service.rs:91-99 | The first references are kept, up to the sync cap if both references and rounds are given and the fetch cap otherwise. |
| `BlockSync.BlockSyncService.FaultIsFirst` | consensus/core/src/block_sync_service.rs:101-113 | The fault named is that of the first reference that may not be fetched. |
| `BlockSync.BlockSyncService.SyncIsComplete` | consensus/core/src/block_sync_service.rs:171-217 | A sync that is not full leaves out no stored round between what the peer has and the lowest round asked for. |
| `BlockSync.BlockSyncService.AncestorsFollow` | consensus/core/src/block_sync_service.rs:134-169 | With missing ancestors asked for, what follows are ancestors above what the peer has; all of them, if they are held and the response is not full. |
| `BlockSync.BlockSyncService.FetchBlocks` | consensus/core/src/block_sync_service.rs:67-227 | Answers exactly the well-formed requests and names the first fault of others; never more blocks than the cap, the requested ones first, then missing ancestors or the merge in its order. |
| `BlockSync.IsCertifiedBy` | consensus/core/src/block_sync_service.rs:284-288 | Whether the distinct authors of the votes hold a quorum. |
| `BlockSync.FetchCommits` | consensus/core/src/block_sync_service.rs:265-316 | The longest scanned prefix whose last commit is certified, with the blocks that certify it; no longer prefix would be certified. |
| `BlockSync.ScanIsExact` | consensus/core/src/block_sync_service.rs:270-276 | A scan lists exactly the stored indices of the range, increasing. |

## Left out

- Machine overflow of plain additions and multiplications (rounds, indices, stakes); only the checked ones of `new_v3` are modelled.
- Signatures, hashing, serialization, timestamps and the commit digest chain.
- Networking, streams, metrics and logging, node wiring.
- `DagState` beyond what is used here: accepted blocks, collection round, committed marks. Eviction and flushing are not modelled.
- How scores become a leader schedule, wave lengths other than three in the agreement theorems, and the committer for the third block version.
- `Linearizers.CommitInTotalOrder`: compares one step of two validators that have committed the same so far, and asks for a schedule that elects no slot twice; whole runs are `TotalOrders.RunsExtendEachOther`, `Validators.CallsExtendEachOther` and `Cores.CoresExtendEachOther`.
- `Validators.CallsAreRun`: restarts and certified commits are not calls; they are methods of `Cores.Core`.
- `Cores.Core.CommitCertified`: that a commit was certified is the assumption that some view of the network has its leader next; counting the votes of its certificate and fetching its blocks are not modelled.
- `Cores.Core.Recover`: what the store gives back is taken to be what was committed and scored.
- `Validators.CallsExtendEachOther`: a schedule that changes needs exactly one leader per round, configured as such.
- `Cores.Core.TryCommit`: the DAG stays the same over the turns of one attempt; blocks that a commit unsuspends are seen by the next attempt.
- `Support.InheritedIffSameLink`: own chains that skip the round just above the slot have the guard of `Support.InheritanceWithoutForks` only.
- `Committees.NewV3`: overflow of the plain sums for base and total stake is not modelled, only that of the multiplications that the source checks.
- `BlockManagers.BlockManager.AcceptBlocks`: the panic of the DAG state on a second own block in one slot is not modelled.
- `BlockManagers.BlockManager.TryUnsuspendBlocksForLatestGcRound`: the source returns nothing; the accepted blocks are named by a ghost result.
- `BlockManagers.BlockManager.TryFindBlocks`: the source sorts the references first, which does not show in a set.
- `CommitReplay.CommitObserver.WaitForHandled`: a consumer that closes its channel or never acknowledges is not modelled; the source panics or waits.
- `CommitReplay.CommitObserver.RecoverAndSendCommits`: the store holds at most one commit per index, and loading the blocks of a commit does not fail.
- `BlockManagers.BlockManager.TryAcceptBlocks`: its comment promises round ascending order, but what an input block frees comes right after it and can precede inputs of lower rounds; causal order is proved instead.
- `BlockSync.MergeByRound`: rounds of returned blocks need not increase, since an authority may have gaps; only the popped start rounds do.
- `fetch_latest_blocks`, `CommitRange`, configuration getters and parameter defaults: one-branch facts.
- The commit finalizer and transaction voting beyond which commits are voted on again.
