# loragonBFT in Dafny

A model of the consensus engine of loragonBFT, a HotStuff-2 style protocol, and of the block store it commits into, with
proofs about it. Four linked parts:

- **Certificates** (`Quorum`, `Words`, `BitArray`, `VoteTable`, `VoteManager`): the two-thirds rule, the packed bit array of
  signers, and vote collection with sealing.
- **Store and drafts** (`Blocks`, `Chain`, `BlockReader`, `Drafts`, `CertLookup`): block ids and ancestry, `AddBlock`,
  `buildFork`, the number index, the block reader, the proposal map with pruning.
- **Pacemaker** (`Rounds`, `Epochs`, `Pacemaker`, `PacemakerRuns`, `PacemakerEffects`, `PacemakerPool`, `PacemakerNaming`,
  `PacemakerRounds`, `PacemakerObject`, `Agreement`, `MisnamedProposal`, `RefusedDraft`): the handlers as a state machine, what
  each of them does, what every run keeps and collects, the same handlers as an object whose methods are proved to do what the
  machine does, and agreement across any number of replicas.
- **Self-contained algorithms** (`CommonAncestor`, `PrioCache`, `RandCache`, `Announcement`).

`dafny verify dfyconfig.toml` checks everything.

## How it is modelled

A block id is a value that carries the header it was computed from (an injective hash) and the number that overwrites its
first four bytes. So an id determines its ancestry; `Lineage(h)` is all ancestors of a header, oldest first. 32-bit numbers
wrap explicitly. Signatures are facts "member i signed block x". What the source asks of libraries or of the application
(signature checks, `ApplyBlock`, `ProcessProposal`, `PrepareProposal`, the set of the next epoch) is an input of the step.

Drafts are values that carry the identity of the object they stand for, so comparing two drafts compares pointers; the one
field that is set later, `Committed`, is a set of identities.

Premises, each stated where it is used:

- Steps are taken one at a time, and heights stay below 2^32 - 1.
- A certificate in a timeout message, or formed from its last vote, that would replace `QCHigh` has a known node (`Safe`).
  The second test at consensus/pacemaker.go:462 does not ask for one; `QCHighRises` gives the exact condition under which the
  node is lost and `TimeoutLosesNode` an input.
- Where bestQC must name best (`CommitsNameBest`, `RegulateNeverFails`) a proposal's certificate names its parent, and a
  synced block comes with a certificate that names it and carries one that names its parent. `buildBlock` builds proposals so
  (consensus/pacemaker_propose.go:27-51), and validateBlock compares the certificate a synced block carries with its parent
  (consensus/reactor.go:143). Nothing compares a proposal's certificate with its parent in OnReceiveProposal, or the
  certificate that comes with a synced block with that block. The one-chain invariant, the growth of the chain and the order
  of QCHigh do not use this premise.
- Agreement (`CommittedChainsAgree`) is for a fixed committee, and its events are `Truthful`:
  - a proposal's certificate names its parent, unless that parent is certified anyway or is block 0 or 1;
  - the certificate of a proposal that ProcessProposal accepts has one bit per member, since chain/chain.go:1019 panics
    otherwise (a child of genesis whose certificate names genesis is not asked this);
  - a synced block has a certified descendant, unless it is recent, above height 1 and comes with a certificate that
    `Escorts` it; for those the check of node/node.go:572-577 shows it. `SyncCheckSoundExactlyWhen` proves that this is
    exactly where that check is sound: older blocks are not checked at all, block 1 is exempt, and VerifyQC neither compares
    ids above height 1 nor ignores bits outside the committee.

A nil dereference in Regulate (consensus/pacemaker.go:609-614) would end the process; the machine then stands still, and
`RegulateNeverFails` shows when that cannot happen.

Where a promise does not hold for all inputs, the code is kept as it is; the exact condition is proved, and a lemma or method
gives an input on which it fails:

| promise | exact condition | failing input |
|---|---|---|
| Sub is the difference | `SubCorrectExactlyWhen` | `SubDropsABit` |
| Or pads the shorter array with zeros | `OrCorrectExactlyWhen` | `OrShowsStrayBit` |
| the number index follows best | `IndexSurvivesExactlyWhen` | `LosingBlockTakesIndex` |
| one vote per height | `SingleVoteExactlyWhen` | `TwoVotesAtOneHeight` |
| QCHigh keeps its node | `QCHighRises` | `TimeoutLosesNode` |
| a voted block extends lastCommitted | `VoteExtendsCommitted` | `MisnamedVoteLeavesChain` |
| a verified certificate is signed by a quorum | `VerifyQCSoundExactlyWhen` | `LongBitArrayPasses` |
| a checked synced block is certified | `SyncCheckSoundExactlyWhen` | `OtherCertificatePasses` |
| Regulate finds its node | `RegulateFindsExactlyWhen` | `SyncedStopsRegulate` |
| a block that left the pool is found at its round | `GuessedRoundRight` | `RestartMisguessed` |
| a draft marked as committed is in the store | `MarksTrueExactlyWhen` | `RefusedIsMarked` |
| GetQCForBlock names the block | `GetQCForBlock` | `WrongCertificate` |
| the common-ancestor seek ends | `SeekEndsExactlyWhen` | `SeekNeedNotEnd` |
| the current round does not drop | `RoundDropsExactlyWhen` | `LastRoundDrops` |
| the scheduled beat is accepted | `RegulatedBeatAccepted` | round 2^31, in its own statement |

## Model

| member | source | states |
|---|---|---|
| Agreement.CommittedChainsAgree | consensus/pacemaker.go:168-267 | with fewer than a third faulty, no correct member signing two blocks of one height, and events that are `Truthful` as above, no two certificates of one height differ, and the committed chains of any two correct replicas, at any two moments of any run, are one a prefix of the other |
| Agreement.NoConflictingCertificates | block/block.go:57-70 | two quorum certificates of one height certify the same block |
| Agreement.VerifiedMeansCertified | block/block.go:72-113 | a certificate that passes VerifyQC for a block above height 1 is signed by a quorum if its bits within the committee are two thirds |
| Agreement.VerifyQCSoundExactlyWhen | block/block.go:85-112 | whatever was signed, VerifyQC is sound for a certificate exactly when it has too few bits to pass or two thirds of them within the committee; it counts every set bit but gathers keys of members only |
| Agreement.LongBitArrayPasses | block/block.go:85-112 | a concrete certificate with bits outside a committee of four that passes without a quorum |
| Agreement.SyncCheckSoundExactlyWhen | node/node.go:572-577 | for a synced block above height 1, passing VerifyQC means being certified, whatever was signed, exactly when the certificate that came with it has too few bits to pass, or names the block with two thirds of its bits within the committee |
| Agreement.OtherCertificatePasses | block/block.go:80-112 | with three of four members having signed one block, any other block above height 1 passes VerifyQC with that block's certificate, and is not certified |
| Agreement.SyncedBacked | node/node.go:572-577 | a synced block above height 1 is certified when the certificate that came with it passes VerifyQC and escorts it, that is, names it with two thirds of its bits within the committee |
| Agreement.VotedIsJustified | consensus/pacemaker.go:284-381 | a correct replica votes only for a block of the tree whose parent is certified or is block 0 or 1, when the certificate names the parent or the parent is certified anyway |
| Agreement.CheckedIsCertified | block/block.go:80-112 | a certificate that passes VerifyQC with one bit per member is signed by a quorum, or is one that names block 0 or 1 |
| Agreement.AncestorsCertified | consensus/pacemaker.go:312-323 | every ancestor above height 1 of a certified block is certified |
| Agreement.CertifiedOnOneLine | consensus/pacemaker.go:312-323 | certified blocks above height 1 descend from one another |
| Agreement.AddVoteOk | consensus/epoch_state.go:121-140 | a certificate formed from collected votes is signed by a quorum, since only verified votes enter the table |
| Agreement.UpdateBacked | consensus/pacemaker.go:168-211 | what Update commits always has a certified descendant above height 1 |
| Agreement.StepIsSound | consensus/pacemaker.go:269-637 | every step of a correct replica keeps its chain backed by certificates and its signatures justified |
| PacemakerMachine.CommitBlockExact | consensus/pacemaker_commit.go:18-72 | whatever certificate comes with it, CommitBlock commits exactly an accepted child of best, never takes the fork branch, otherwise changes nothing, and says which test failed |
| PacemakerMachine.CommitsKeepOneChain | consensus/pacemaker_commit.go:18-72 | after any sequence of CommitBlock calls, with whatever certificates, the store is one gap-free parent-linked chain extending the earlier one, with the number index equal to best's ancestor line |
| PacemakerMachine.CommitNeverForks | consensus/pacemaker_commit.go:55-65 | no call of any such sequence takes the fork branch, and exactly accepted children of the then best commit |
| PacemakerMachine.CommitsNameBest | chain/chain.go:364-389 | when every block comes with its own certificate, bestQC names best after any sequence of calls |
| PacemakerMachine.CommitOneKeeps | consensus/pacemaker.go:219-265 | one turn of OnCommit commits exactly a validated, accepted child of best and prunes without damaging the drafts |
| PacemakerMachine.CommitAllExact | consensus/pacemaker.go:213-267 | OnCommit commits exactly the accepted prefix of a line of drafts, in order, each with the certificate listed for it |
| PacemakerMachine.OnCommitReturns | consensus/pacemaker.go:213-267 | OnCommit returns a block exactly when there is a draft to commit: the new head if any was committed, and otherwise the first draft of the line, which was not |
| PacemakerMachine.CommitAllPrunes | consensus/pacemaker.go:219-265 | whether or not they are accepted, the pool is pruned up to the last validated draft of the line, and the drafts of all validated ones are marked |
| PacemakerMachine.CommitAllKeepsAbove | consensus/pacemaker.go:259-265 | committing and pruning a line leaves every draft above it untouched |
| PacemakerMachine.UpdateLine | consensus/pacemaker.go:205-209 | the list Update builds is a parent-linked line that starts one above best |
| PacemakerMachine.UpdateExact | consensus/pacemaker.go:168-211 | Update keeps the invariant, never lowers QCHigh, leaves votes and rounds alone, and commits the accepted prefix of the certified draft's strict ancestors above lastCommitted |
| PacemakerMachine.UpdateTakesHigher | consensus/pacemaker.go:168-198 | Update takes over its certificate exactly when an uncommitted draft is found for it and it is above QCHigh; QCHigh is then that certificate with that draft |
| PacemakerMachine.UpdateReturns | consensus/pacemaker.go:168-267 | exactly the accepted prefix of the line is committed; Update returns nothing exactly when the line is empty, the new head when something was committed, and otherwise the first draft of the line |
| PacemakerMachine.UpdatePrunes | consensus/pacemaker.go:205-265 | the pool and the marks after Update are those of the line it tried, whatever was accepted |
| PacemakerMachine.UpdateKeepsHigh | consensus/pacemaker.go:259-265 | Update never prunes a draft as high as QCHigh |
| PacemakerMachine.UpdateCommitsUpToParent | consensus/pacemaker.go:168-267 | for a certified draft that descends from lastCommitted and whose ancestors above it were all validated and are accepted by the application, Update commits all its strict ancestors up to its parent, and bestQC becomes the certificate the draft carries |
| PacemakerMachine.QCHighRises | consensus/pacemaker.go:456-469 | UpdateQCHigh never lowers (height, round), and QCHigh keeps a matching node exactly when a nodeless certificate of equal height and higher round is not offered |
| PacemakerMachine.QCHighStaysKnown | consensus/pacemaker.go:456-469 | after UpdateQCHigh the block QCHigh certifies can still be found by its certificate |
| PacemakerMachine.NewDraftGood | consensus/pacemaker.go:345-364 | the draft of any proposal with a known parent hangs off that parent and keeps the pool in order |
| PacemakerMachine.VoteExtendsCommitted | consensus/pacemaker.go:366-381 | a step that records a vote, at a height no lower than the last, ends with the voted block descending from lastCommitted exactly when what the certificate commits stays below the fork of proposal and certified block; a certificate that names the parent always does |
| PacemakerMachine.CommittedStaysBelow | consensus/pacemaker.go:373 | what Update commits is an ancestor of the proposal, for a certificate that names any ancestor of it |
| PacemakerRuns.RunKept | consensus/pacemaker.go:668-735 | every state of every run of the main loop satisfies the invariant, whatever the proposals and synced blocks carry |
| PacemakerRuns.RunsOnlyAdvance | consensus/pacemaker.go:456-637 | over any stretch of a run the committed chain only grows and QCHigh's height never decreases, even across Regulate; between Regulates (height, round) of QCHigh and the height voted for never decrease |
| PacemakerRuns.ReachableStates | consensus/pacemaker.go:592-637 | in every reachable state QCHigh's node is the block its certificate names at its height and round, that block can be found, and the store is one chain over genesis headed by lastCommitted |
| PacemakerRuns.StartInv | consensus/pacemaker.go:592-637 | the state after the first Regulate on genesis satisfies the invariant |
| PacemakerRuns.StartIsRegulated | consensus/pacemaker.go:592-637 | the start state is what the first Regulate makes of a pacemaker on genesis |
| PacemakerRuns.StepKept | consensus/pacemaker.go:269-637 | every single step keeps the invariant, grows the chain, never lowers QCHigh's height, and records a vote only as told |
| PacemakerRuns.TimeoutFirstKeeps | consensus/pacemaker.go:529-535 | collecting the last vote of a timeout, and the Update it may cause, keep the invariant and never lower QCHigh |
| PacemakerEffects.AcceptsExactlyWhen | consensus/pacemaker.go:269-359 | a proposal is accepted exactly when it is not below lastCommitted, its parent is known, its certificate is valid, its round is the next one, or has a timeout certificate and is higher or follows a KBlock, or is 0 without a known grandparent other than a KBlock, it shares no transaction with an uncommitted draft below it, and the application accepts it |
| PacemakerEffects.VotesExactlyWhen | consensus/pacemaker.go:366 | an accepted proposal is voted for exactly when it is as high as the last vote and descends from lastCommitted by fewer than ten blocks |
| PacemakerEffects.AcceptedIsPlaced | consensus/pacemaker.go:345-364 | the draft of an accepted proposal hangs off its parent and is in the pool afterwards, unless its id was taken, always when it is not voted for or its certificate names its parent; nothing else is added, and without a vote nothing else changes |
| PacemakerEffects.VotingRound | consensus/pacemaker.go:366-381 | a voter that commits stays in its round exactly when the last block committed is a KBlock and otherwise enters the next round; with nothing to commit it enters the next round; with drafts to commit of which none is accepted, the first of them decides |
| PacemakerEffects.ProposedIsVoted | consensus/pacemaker.go:125-165 | what one replica proposes above round 0, another one that holds the certified parent votes for, when the round is the next one or has a timeout certificate, no transaction repeats and the block is within reach of its lastCommitted |
| PacemakerEffects.TablesFollow | consensus/pacemaker.go:269-637 | no step but a counted vote or wish, or a new epoch, changes a vote table, whatever else it does |
| PacemakerEffects.VotesAreCollected | consensus/pacemaker.go:388-535 | over any stretch of a run in one epoch, a key of the vote table is sealed exactly when the distinct signers of the verified votes counted for it, in votes and in timeouts, are two thirds, and otherwise holds exactly them |
| PacemakerEffects.WishesAreCollected | consensus/pacemaker.go:541-546 | the same for the wishes for a round |
| PacemakerEffects.VoteCertifies | consensus/pacemaker.go:388-429 | in any run, a counted vote changes QCHigh exactly when it takes the signers counted so far across two thirds and the block is above QCHigh; QCHigh is then the certificate of exactly those signers and the round moves past it |
| PacemakerEffects.LastVoteCertifies | consensus/pacemaker.go:529-530 | in any run, the last vote of a timeout completes a certificate exactly when it takes the signers counted so far across two thirds, and it is of exactly those signers |
| PacemakerEffects.WishFormsTC | consensus/pacemaker.go:541-546 | in any run, a timeout that reaches its proposer makes a new TCHigh exactly when it takes the signers counted for that round across two thirds; TCHigh then holds exactly them |
| PacemakerEffects.LastVoteActs | consensus/pacemaker.go:529-535 | a certificate completed by a last vote is taken over if it is above QCHigh and its block is known, and what Update commits for it is committed; without one nothing but the table changes |
| PacemakerEffects.TimeoutTakesHighest | consensus/pacemaker.go:519-547 | after a timeout that reaches its proposer, QCHigh is the highest of what it was, of the certificate in the message and of the one its last vote completed, as far as their blocks are known, and what Update commits for the latter is committed |
| PacemakerEffects.BeatAddsLeaf | consensus/pacemaker.go:471-517 | a beat is let through exactly when it is not of an earlier epoch, its round is new in this one and it is this node's turn; it adds a leaf exactly when one was prepared and its round is above QCHigh's, or is 0 or in epoch 0: on the block QCHigh certifies, with the prepared transactions, that certificate and the registry's set; TCHigh is then spent, and nothing else changes |
| PacemakerEffects.RegulateRestarts | consensus/pacemaker.go:599-637 | a Regulate that finds its node adopts the given epoch with empty tables, starts from the higher of QCHigh and bestQC, forgets the last vote, expects the beat of the restart round, which is 0 after a KBlock and else the one after the certificate, and puts a committee member in that round with a fresh timer |
| PacemakerEffects.RegulateThenPropose | consensus/pacemaker.go:599-637 | the beat that Regulate schedules makes its proposer propose on the certified block whenever a proposal is prepared, exactly unless the round is 2^31 |
| PacemakerPool.RunFresh | chain/proposal_map.go:24-26 | in every run the drafts in the pool are different objects and were all validated |
| PacemakerPool.UpdateLeavesPool | chain/proposal_map.go:131-154 | whether or not the application accepts what there is to commit, the pool then holds exactly the drafts above the parent of the certified draft and that parent, unchanged, and of these exactly that parent is newly marked as committed |
| PacemakerPool.MarksTrueExactlyWhen | consensus/pacemaker.go:232-264 | marked drafts stay stored ones exactly when all there is to commit is accepted, or the last of it is not in the pool |
| RefusedDrafts.RefusedIsMarked | consensus/pacemaker.go:232-264 | from every start there is a run of four well-named proposals after which a refused draft is marked as committed and is not in the store |
| PacemakerRounds.RoundNeverDecreases | consensus/pacemaker.go:737-774 | between Regulates the current round never decreases while no step wraps it |
| PacemakerRounds.RoundDropsExactlyWhen | consensus/pacemaker.go:754-774 | short of a Regulate, a step lowers the round exactly when it enters round 0, the round after the last representable one, in a committee member above round 0 |
| PacemakerRounds.LastRoundDrops | consensus/pacemaker.go:737-756 | a timeout of the last representable round sends a committee member above round 0 back to round 0 |
| PacemakerRounds.AcceptedBeatsIncrease | consensus/pacemaker.go:471-486 | over any run, between Regulates and without beats of a later epoch, the accepted beats of the local epoch have strictly increasing rounds in signed 32-bit order, and so in plain order below 2^31 |
| PacemakerRounds.AtMostOneProposalPerRound | consensus/pacemaker.go:471-486 | over any runs of the members of one committee, between Regulates and without beats of a later epoch, two accepted beats for one round are the same beat of the same member |
| PacemakerRounds.TimeoutsAreCounted | consensus/pacemaker.go:737-820 | over any run, from a fresh timer to the next Regulate, the timeout counter is the number k of accepted round timeouts since the last accepted regular entry, whichever handlers made them, and the interval is base * 2^(max(k,1)-1) whenever that fits in 63 bits |
| PacemakerRounds.RegulateFreshens | consensus/pacemaker.go:616-636 | a Regulate of a committee member that finds its node leaves a fresh timer |
| PacemakerNaming.RegulateNeverFails | consensus/pacemaker.go:599-614 | in every run with certificates that name what they came with, bestQC names best, stored blocks carry their parents' certificates, and Regulate finds its node |
| PacemakerNaming.RegulateFindsExactlyWhen | consensus/pacemaker.go:599-614 | in every state of any run, the certificate Regulate starts from finds a draft exactly when QCHigh is above bestQC or the block that bestQC names is found; so whenever bestQC names best |
| PacemakerNaming.SyncedStopsRegulate | node/node.go:565-605 | from every start, a synced first block, too old to be checked, is committed with a certificate for an unknown block, and Regulate then finds no node |
| PacemakerNaming.StepKeepsNamed | consensus/pacemaker.go:269-637 | every step with such certificates keeps bestQC naming best and the certificates of drafts and stored blocks naming their parents |
| PacemakerNaming.StartNamed | consensus/pacemaker.go:592-637 | the start state has such certificates |
| PacemakerNaming.TimeoutLosesNode | consensus/pacemaker.go:524-539 | from every start, a timeout that reaches the proposer of the round it wishes for, with a last vote that does not verify and a nodeless certificate of equal height and higher round, leaves QCHigh without a node |
| MisnamedProposals.MisnamedVoteLeavesChain | consensus/pacemaker.go:312-381 | from every start there is a run of four proposals, all with certificates that pass VerifyQC against their parents, the last with one bit per member but naming a block of the other branch, that ends with a vote for a block off the committed chain |
| PacemakerRuns.SingleVoteExactlyWhen | consensus/pacemaker.go:366-375 | between Regulates a node votes for one block per height exactly when no proposal at the height voted for last is another block |
| PacemakerRuns.TwoVotesAtOneHeight | consensus/pacemaker.go:366-375 | from every start there is a run with two recorded votes at one height |
| PacemakerRuns.VoteRaisesQCHigh | consensus/pacemaker.go:388-429 | a vote raises QCHigh exactly when it completes a certificate above it, and then to the voted block with exactly the collected signers, moving the round past it |
| PacemakerRuns.TimeoutFormsTC | consensus/pacemaker.go:541-546 | a wish makes a new TCHigh exactly when it takes the distinct signers of its epoch and round across two thirds, and TCHigh then holds exactly those |
| PacemakerRuns.BeatProposes | consensus/pacemaker.go:431-517 | a beat changes at most one draft: a block one above the one QCHigh certifies, carrying that certificate |
| PacemakerRuns.RegulateTakesHigher | consensus/pacemaker.go:599-631 | Regulate, when it finds its node, restarts from the higher of QCHigh and bestQC with a matching node |
| PacemakerRuns.RegulatedBeatAccepted | consensus/pacemaker.go:616-636 | the beat Regulate schedules is accepted by its proposer exactly when its round is not 2^31 |
| PacemakerRuns.CurrentVotes | consensus/pacemaker.go:394-414 | a vote is counted exactly by the next round's proposer, for a block known at the vote's round, when that round is at most one behind; in round 0 only for round 0 or the last representable round |
| PacemakerRuns.AcceptedRoundsIncrease | consensus/pacemaker.go:324-343 | above round 0 an accepted proposal has a higher round than its parent, unless that is a KBlock or the last representable round, and skips rounds only with a timeout certificate |
| PacemakerRuns.NoTransactionTwice | consensus/pacemaker_assist.go:76-93 | an accepted proposal shares no transaction with any uncommitted draft below it |
| Pacemakers.Pacemaker.constructor | consensus/pacemaker.go:92-123 | a new pacemaker on genesis is in the start state and satisfies the invariant |
| Pacemakers.Pacemaker.CommitBlock | consensus/pacemaker_commit.go:18-72 | does what the machine's CommitBlock does to chain and lastCommitted |
| Pacemakers.Pacemaker.OnCommit | consensus/pacemaker.go:213-267 | its loop does what the machine's OnCommit does, block by block, pruning included |
| Pacemakers.Pacemaker.Update | consensus/pacemaker.go:168-211 | refines the machine's Update and keeps the invariant |
| Pacemakers.Pacemaker.CommitReady | consensus/pacemaker.go:205-209 | the downward walk terminates, never meets a missing parent, and gathers exactly the strict ancestors above lastCommitted, oldest first |
| Pacemakers.Pacemaker.UpdateQCHigh | consensus/pacemaker.go:456-469 | replaces QCHigh and reports it exactly when the certificate is above |
| Pacemakers.Pacemaker.ExtendedFromLastCommitted | consensus/pacemaker_assist.go:28-42 | meets the last committed block within ten hops |
| Pacemakers.Pacemaker.RepeatsTx | consensus/pacemaker_assist.go:76-93 | finds a transaction that is also in an uncommitted ancestor, exactly when there is one |
| Pacemakers.Pacemaker.Admits | consensus/pacemaker.go:274-359 | the checks of a proposal, in order |
| Pacemakers.Pacemaker.OnReceiveProposal | consensus/pacemaker.go:269-386 | refines the machine's handling of a proposal |
| Pacemakers.Pacemaker.OnReceiveVote | consensus/pacemaker.go:388-429 | refines the machine's handling of a vote |
| Pacemakers.Pacemaker.AddQCVote | consensus/epoch_state.go:121-140 | drops a vote whose signature does not verify, else records it and returns the certificate it completes |
| Pacemakers.Pacemaker.AddTCVote | consensus/epoch_state.go:142-160 | drops a wish whose signature does not verify, else records it and keeps the timeout certificate it completes |
| Pacemakers.Pacemaker.OnReceiveTimeout | consensus/pacemaker.go:519-547 | refines the machine's handling of a timeout, last vote, certificate and wish |
| Pacemakers.Pacemaker.OnBeat | consensus/pacemaker.go:471-517 | refines the machine's handling of a beat |
| Pacemakers.Pacemaker.Propose | consensus/pacemaker.go:125-165 | puts a leaf on the parent exactly when it was prepared, its round is above the certificate's and the parent's (outside epoch 0 and round 0) and it is higher than the certificate |
| Pacemakers.Pacemaker.OnRoundTimeout | consensus/pacemaker.go:737-743 | enters the round after the one that timed out |
| Pacemakers.Pacemaker.Regulate | consensus/pacemaker.go:599-637 | refines the machine's Regulate |
| Pacemakers.Pacemaker.EnterRound | consensus/pacemaker.go:754-786 | enters a round that is not behind, and reports whether it did |
| Pacemakers.Pacemaker.ResetRoundTimer | consensus/pacemaker.go:788-820 | sets the timeout counter and the interval it arms |
| Rounds.CounterCountsTimeouts | consensus/pacemaker.go:788-820 | after any round entries the counter is the number k of timeout entries since the last regular one, and the interval is base * 2^(max(k,1)-1) whenever that fits in 63 bits |
| Rounds.ArmedInterval | consensus/pacemaker.go:806-810 | the wrapped 64-bit product is the intended interval when that fits in 63 bits |
| Rounds.EnterRoundExact | consensus/pacemaker.go:754-786 | a committee member enters round 0, its present round or a later one, with its timer armed anew; everybody else, and a member asked for an earlier round, stays |
| Rounds.RoundsNeverDecrease | consensus/pacemaker.go:754-774 | entries to rounds above 0 never lower the current round |
| Rounds.OneProposerPerRound | consensus/epoch_state.go:209-217 | each round has exactly one eligible member |
| Rounds.OneTurnInNRounds | consensus/epoch_state.go:209-217 | any n consecutive rounds give each of n members exactly one turn |
| Epochs.BuildKeepsBuilt | consensus/pacemaker_propose.go:25-71 | buildBlock extends a chain of built blocks by one, and makes a KBlock exactly when the registry supplies another set |
| Epochs.LastKBlockIsGreatest | consensus/pacemaker_propose.go:31-36 | on every built chain LastKBlock is the greatest earlier KBlock number, 0 if there is none |
| Epochs.NextSetComesFromEpochBlock | consensus/pacemaker_propose.go:38-51 | a block's next set is the one named by the block that opened its epoch |
| Epochs.CommitteeIsNamedByLeaf | consensus/epoch_state.go:34-55 | the set found by jumping to the opening block is the one named by the leaf, and it is found exactly when that block is committed and the set was saved |
| Epochs.FindIndex | consensus/epoch_state.go:60-69 | finds this node's last committee position, and -1 exactly when it is not a member |
| Quorum.MajorityInIntegers | block/block.go:57-70 | the floating-point rule is 3 * voters >= 2 * size, that is voters >= (2 * size + 2) / 3, for a committee that is not empty |
| Quorum.QuorumsShareCorrectMember | block/block.go:57-70 | with fewer than a third faulty, two quorums share a correct member |
| Votes.OneOperation | consensus/tc_vote_manager.go:38-116 | one operation keeps the table equal to the history, and returns a certificate exactly when it takes the distinct signers across two thirds |
| Votes.TableAgreesWithHistory | consensus/qc_vote_manager.go:43-122 | after any history a key is sealed exactly when its distinct signers since its last clean-up reach two thirds; an unsealed key holds exactly those signers |
| Votes.CertificateExactlyAtTwoThirds | consensus/qc_vote_manager.go:43-105 | a certificate appears exactly when distinct signers first reach ceil(2n/3), and holds exactly them, so its count passes a receiver's check |
| Votes.TableHoldsLastVotes | consensus/qc_vote_manager.go:43-74 | after any history an unsealed key holds, for each signer, what its last vote since the last clean-up carried |
| Votes.CertificateHoldsLastVotes | consensus/qc_vote_manager.go:86-105 | a certificate carries what each of its signers voted last |
| Votes.OneCertificateBetweenCleanUps | consensus/qc_vote_manager.go:43-122 | between two certificates for one key there is a clean-up of that key |
| VoteManagers.VoteManager.AddVote | consensus/qc_vote_manager.go:43-74 | refines the table; the bits of a certificate are exactly the signers and their count passes the two-thirds check |
| VoteManagers.VoteManager.Aggregate | consensus/qc_vote_manager.go:86-105 | the bit array of a key has exactly the bits of its signers |
| VoteManagers.VoteManager.CleanUpTo | consensus/qc_vote_manager.go:107-122 | forgets the votes and seals of exactly the stale keys |
| VoteManagers.CleanUpQCVotes | consensus/qc_vote_manager.go:107-122 | exactly the votes and seals for blocks of the given number and above stay |
| VoteManagers.CleanUpTCVotes | consensus/tc_vote_manager.go:102-116 | exactly the votes and seals of the given epoch and later ones stay |
| BitArrays.BitArray.constructor | libs/common/bit_array.go:28-37 | a new array is all false |
| BitArrays.BitArray.GetIndex | libs/common/bit_array.go:48-64 | reads the boolean at an index, false out of range |
| BitArrays.BitArray.SetIndex | libs/common/bit_array.go:66-86 | changes exactly one boolean, and nothing out of range |
| BitArrays.BitArray.CopyBits | libs/common/bit_array.go:106-116 | a fresh copy cut to n bits, or extended by zero words |
| BitArrays.BitArray.AndWith | libs/common/bit_array.go:144-163 | pointwise and, cut to the shorter |
| BitArrays.BitArray.OrWith | libs/common/bit_array.go:118-142 | computes OrSpec for any other array with at least as many words; pointwise or for arrays of one size |
| BitArrays.OrCorrectExactlyWhen | libs/common/bit_array.go:115-142 | Or is the promised padded or exactly when every stray bit of one array that the result covers is set by the other too |
| BitArrays.OrShowsStrayBit | libs/common/bit_array.go:135-141 | a concrete pair on which a stray bit shows |
| BitArrays.BitArray.Negate | libs/common/bit_array.go:166-181 | pointwise complement |
| BitArrays.BitArray.Sub | libs/common/bit_array.go:208-232 | computes SubSpec, both loops included |
| BitArrays.SubCorrectExactlyWhen | libs/common/bit_array.go:204-232 | Sub is the promised difference exactly when the receiver is no longer, or all its bits below the other's last word are in the other |
| BitArrays.SubDropsABit | libs/common/bit_array.go:219-229 | a concrete longer receiver that loses a bit |
| BitArrays.ViewUpdate | libs/common/bit_array.go:75-86 | setting or clearing one bit of one word changes one boolean of the whole |
| BitArrays.ViewFull | libs/common/bit_array.go:251-269 | all n bits are set exactly when all words but the last are full and the carry test clears the last, stray high bits or not |
| BitArrays.BitArray.IsFull | libs/common/bit_array.go:251-269 | true exactly when every bit is set, for at least one bit |
| BitArrays.BitArray.Count | libs/common/bit_array.go:475-483 | the number of true bits |
| BitArrays.CountIsCardinality | libs/common/bit_array.go:475-483 | the count is the size of the set of true positions |
| BitArrays.BitArray.Bytes | libs/common/bit_array.go:364-376 | bit i is bit i % 8 of byte i / 8 |
| BitArrays.BitArray.MarshalJSON | libs/common/bit_array.go:396-413 | writes the quoted string of x and _ |
| BitArrays.BitArray.UnmarshalJSON | libs/common/bit_array.go:420-447 | reads null and exactly those strings, and leaves the array alone on others |
| BitArrays.JsonRoundTrip | libs/common/bit_array.go:396-447 | writing and reading undo each other on all bits and all accepted texts |
| Words.FullTest | libs/common/bit_array.go:265-269 | (w + 1) & mask is zero exactly when the k low bits are set |
| Words.LittleEndianBit | libs/common/bit_array.go:368-375 | the little-endian bytes of a word hold bit i at byte i / 8, bit i % 8 |
| Blocks.LineageAt | block/header.go:46-71 | the ancestor at height k has number k and the prefix up to k as its own ancestry |
| Blocks.AncestorAtItsNumber | block/header.go:46-71 | an ancestor sits at the height of its number |
| ChainStore.ForkMeaning | chain/chain.go:569-623 | a fork is the highest common ancestor and the two exact parent-linked ascending lines above it, sharing no block |
| ChainStore.Chain.BuildFork | chain/chain.go:578-623 | the two downward walks terminate, find every parent, and return the fork |
| ChainStore.Chain.AddBlock | chain/chain.go:286-404 | refines AddBlockSpec, error cases included, and keeps the tree |
| ChainStore.AddBlockKeepsTree | chain/chain.go:286-404 | AddBlock keeps a block tree with one genesis, closed under parents, with nothing above best |
| ChainStore.StoredBlockExists | chain/chain.go:292-315 | a stored block is always refused |
| ChainStore.AddBlockExact | chain/chain.go:286-404 | a block is stored exactly when it is new and its parent is stored; other blocks and index entries stay, a refused block changes nothing, and the fork is that of the new and the old head, or the block alone on its parent when it does not become best |
| ChainStore.BestAlwaysWins | chain/chain.go:550-567 | for any total order of ids, after any sequence of AddBlocks best is above every other stored block, or as high with the smaller id |
| ChainStore.SameBlocksSameBest | chain/chain.go:560-566 | best depends on the stored blocks only, not on the order in which they came |
| ChainStore.IndexSurvivesExactlyWhen | chain/chain.go:340-344 | AddBlock leaves the number index equal to best's line exactly when the block becomes best on the indexed parent |
| ChainStore.LosingBlockTakesIndex | chain/chain.go:340-344 | over every genesis, a second child that loses the trunk test takes the index entry of the first |
| ChainStore.AddBlockAboveBest | chain/chain.go:364-404 | on a single chain a block above best is stored exactly when its parent is best, and the chain then grows by it with an empty branch |
| ChainStore.AncestorsStored | chain/chain.go:318-324 | every ancestor of a stored block is stored |
| Reader.BlockReader.Read | chain/chain.go:728-770 | a read terminates, delivers stored blocks, and takes the consumer from the path to the old position to the path to the new one, ending with exactly one new trunk block; at best it delivers nothing |
| Reader.StepBack | chain/chain.go:765-767 | stepping back over an obsolete block keeps what is still to deliver |
| Reader.NextBlock | chain/chain.go:772-779 | delivering the next trunk block leaves one less to deliver |
| Reader.CommitBetweenReads | chain/chain.go:728-779 | a commit that extends best leaves the position readable and adds exactly one block to deliver |
| Reader.ReadsConserveBlocks | chain/chain.go:728-779 | over any interleaving of reads and commits, deliveries plus backlog equal the first backlog plus commits |
| Reader.ReadsReachBest | chain/chain.go:728-779 | after any interleaving with commits, reads in a row reach best exactly when they are as many as the blocks to deliver, at most the first backlog plus the commits; the view is then the path to best |
| Reader.CaughtUpReaderIsAtBest | chain/chain.go:728-779 | a reader has caught up exactly when it is at best, and then its view is the path to best |
| CertLookup.GetDraftByNum | chain/chain.go:815-829 | the draft of a height with the highest round, None exactly when there is none |
| CertLookup.GetQCFromDraft | chain/chain.go:968-979 | above the head, the certificate carried by a child draft of the highest round when it names the block, a mismatch otherwise, and a missing draft exactly when there is none of that height |
| CertLookup.GetQCForBlock | chain/chain.go:968-992 | below the head, the certificate of the indexed child, found exactly when it names the block asked for, and so, where stored blocks carry their parents' certificates, exactly for the chain's blocks; at the head's height bestQC; a returned one names the block asked for exactly unless that has the head's height and is not what bestQC names |
| CertLookup.WrongCertificate | chain/chain.go:980-981 | over every genesis, asking for another block of the head's height returns a certificate that does not name it |
| CertLookup.TrunkChild | chain/chain.go:982-991 | the indexed block above a height is best's ancestor there and is stored; where stored blocks carry their parents' certificates, its certificate names the ancestor at that height |
| Drafts.GoodLinked | block/draft_block.go:7-22 | a draft in order sits on the store's tree one above its parent draft; one without a parent draft is not above best |
| Drafts.LookupByQCMatches | chain/proposal_map.go:94-119 | the draft found for a certificate is its block at its height and round |
| Drafts.LookupGood | chain/proposal_map.go:57-77 | the draft found for an id has that id and is in order |
| Drafts.GuessedRoundRight | chain/proposal_map.go:57-77 | a draft that left the pool is found as the stored block, at its own round exactly when it was proposed in the round after its parent's, for a draft on the draft its certificate names |
| Drafts.RestartMisguessed | chain/proposal_map.go:67-69 | over every genesis, a first block proposed in round 0, as after a KBlock, is found at another round |
| Drafts.AncestorsAboveExact | consensus/pacemaker.go:205-209 | on any fork the list is exactly the strict ancestors above the height, in consecutive ascending heights, each with the certificate its child carries |
| Drafts.AncestorsNamed | consensus/pacemaker.go:205-209 | where certificates name parents, each listed certificate names its draft |
| Drafts.MeetsWithinExact | consensus/pacemaker_assist.go:28-42 | the hop-bounded test holds exactly for drafts that extend best and are fewer than that many blocks above it |
| Drafts.PruneExact | chain/proposal_map.go:131-154 | pruning leaves exactly the drafts above the committed height and the committed draft, unchanged |
| Drafts.PrunedPathStaysWhole | chain/proposal_map.go:131-154 | for a surviving descendant of the committed block the whole path between them stays in the map |
| Drafts.AddedIsFound | chain/proposal_map.go:24-26 | an added draft is what its id finds, and what a certificate of its round finds; no other id is affected |
| Drafts.ProposalMap.GetOneByEscortQC | chain/proposal_map.go:94-119 | the scan finds the draft of the certificate's block and round, else the stored block |
| Drafts.ProposalMap.PruneUpTo | chain/proposal_map.go:131-154 | deleting while scanning leaves the pruned map and marks the committed draft |
| CommonAncestors.AgreementDownwardClosed | libs/comm/sync.go:113-123 | parent-linked chains that agree at a height agree at every lower height |
| CommonAncestors.FindExact | libs/comm/sync.go:125-150 | the bisection terminates without overflow, returns the greatest agreeing height, and fails only on a failed lookup |
| CommonAncestors.FastSeek | libs/comm/sync.go:152-172 | the doubling back-off ends at an agreeing height or 0 |
| CommonAncestors.BackoffEscapesExactlyWhen | libs/comm/sync.go:153-171 | the 32-bit doubling passes the head exactly for heads up to 2^31 |
| CommonAncestors.SeekEndsExactlyWhen | libs/comm/sync.go:152-172 | the seek ends exactly when one of its first 33 probes stops it |
| CommonAncestors.SeekNeedNotEnd | libs/comm/sync.go:152-172 | for every head above 2^31 there are sides on which the seek never ends |
| CommonAncestors.FindCommonAncestor | libs/comm/sync.go:108-182 | for heads up to 2^31, the greatest height at or below the head where the sides agree |
| CommonAncestors.SyncFrom | libs/comm/sync.go:21-26 | for two chains over one genesis, the height of their last common ancestor at or below the head |
| PrioCaches.PrioCache.constructor | libs/cache/prio_cache.go:23-31 | a new cache is empty |
| PrioCaches.PrioCache.Swap | libs/cache/prio_cache.go:133-137 | swaps two entries and keeps every back index right |
| PrioCaches.PrioCache.PopLast | libs/cache/prio_cache.go:145-151 | drops the last entry and keeps the rest in order |
| PrioCaches.PrioCache.Push | libs/cache/prio_cache.go:139-143 | adds an entry and restores heap order |
| PrioCaches.PrioCache.Fix | libs/cache/prio_cache.go:44-48 | after one priority changed, restores heap order with the same entries |
| PrioCaches.PrioCache.RemoveAt | libs/cache/prio_cache.go:86-95 | takes exactly one entry out and keeps heap order and back indices |
| PrioCaches.PrioCache.PopLowest | libs/cache/prio_cache.go:110-116 | evicts an entry of minimum priority from map and heap |
| PrioCaches.PrioCache.Set | libs/cache/prio_cache.go:41-65 | sets the key; an overflow evicts a minimum among all, the new one included; map, heap, indices and limit stay in agreement |
| PrioCaches.PrioCache.Get | libs/cache/prio_cache.go:68-75 | the value and priority of a key, if present |
| PrioCaches.PrioCache.Remove | libs/cache/prio_cache.go:86-95 | removes exactly the key and returns its entry |
| PrioCaches.PrioCache.SameSize | libs/cache/prio_cache.go:15-20 | the map has as many keys as the heap has entries |
| PrioCaches.RootIsMin | libs/cache/prio_cache.go:131-137 | the root of a heap is a minimum |
| RandCaches.RandCache.Set | libs/cache/rnd_cache.go:52-73 | sets the key; an overflow drops the entry at the random position, the new one included, and map, slice, indices and limit stay in agreement |
| RandCaches.RandCache.Remove | libs/cache/rnd_cache.go:128-138 | swap-with-last removes exactly the key and keeps every index right |
| RandCaches.RandCache.RandDrop | libs/cache/rnd_cache.go:140-146 | drops the entry at the random position, if there is any |
| RandCaches.RandCache.Pick | libs/cache/rnd_cache.go:102-112 | the entry at the random position, None exactly when the cache is empty |
| RandCaches.EntryRemoved | libs/cache/rnd_cache.go:128-138 | after swap-with-last map and slice hold the same entries |
| Announcements.AlwaysExact | libs/rpc/announcement.go:13-51 | in every run each peer has at most one fetch in flight, the peer map is exactly those peers, and each counter is its number of fetches, between 1 and 3 |
| Announcements.StartsExactlyWhen | libs/rpc/announcement.go:32-48 | in every run an announcement starts a fetch exactly when none from its peer is in flight and fewer than three of its block are |
| Announcements.AnnouncementLoop.Announce | libs/rpc/announcement.go:32-48 | starts a fetch exactly when the peer is idle and the block has fewer than three |
| Announcements.AnnouncementLoop.FetchDone | libs/rpc/announcement.go:25-31 | frees the peer and takes one off the counter, removing it at zero |

## Left out

- Cryptography and encodings (BLS, blake2b, sha256, RLP, amino, SSZ): signatures are facts, ids are injective, encoding is lossless.
- ABCI calls, replay and the handshake (consensus/executor.go, consensus/handshaker.go): their answers are inputs of the steps.
- Validator-set construction and SortWithNonce: the next set is an arbitrary input.
- The cache of validated certificates in ValidateQC (consensus/pacemaker_validate.go:15-20): its key holds neither the block nor the committee, so it changes no answer only while the committee is fixed and certificates name the block they are checked with.
- verifyTC: whether the timeout certificate of a proposal is valid is an input.
- OnReceiveQuery and GetProposalsUpTo, which only resend proposals; broadcasting, message queues, timers, channels and goroutine races.
- AddBlock's error exits after the in-memory best is set (chain/chain.go:377-397), the transaction index and the raw-block cache: only successful writes over a plain map.
- Chain.Initialize's restart and roll-back.
- Pacemakers.Pacemaker.CommitBlock: leaves out the pending epoch state and the registration of a new validator set (consensus/pacemaker_commit.go:34-43), which take part in no property stated here.
- Pacemakers.Pacemaker.OnBeat: leaves out the scheduling of the broadcast.
- BitArrays.BitArray.OrWith: the other array has at least as many words; otherwise the source indexes past its end. CountNo, IsEmpty and PickRandom are not modelled.
- BitArrays.BitArray.IsFull: for at least one bit; on an empty array the source reads a word that is not there.
- BitArrays.BitArray.UnmarshalJSON: texts shorter than 2^32 characters.
- CommonAncestors.FindCommonAncestor: heads up to 2^31; above, the seek need not end (`SeekNeedNotEnd`) and the bisection's sum wraps.
- PrioCaches.PrioCache.Set: priorities are real numbers; NaN and rounding are not modelled.
- RandCaches.RandCache.Set: the random position is a parameter.
- PacemakerRuns.StepKept: a timeout whose certificate would leave QCHigh without a node is excluded (`Safe`), here and in what is built on it; the next UpdateQCHigh could then dereference nil.
- PacemakerRuns.RunKept: as for StepKept, runs without such a timeout.
- PacemakerRuns.TimeoutFirstKeeps: as for StepKept, for the certificate formed from the last vote.
- Agreement.CommittedChainsAgree: for the events named above (`Truthful`); what a replica commits from a synced block outside `Escorts`, or votes for under a certificate that names another branch, is not covered.
- Pacemakers.Pacemaker.AddQCVote: votes are a value of type Table rather than a manager object; `VoteManagers` proves that the manager does what the table does.
- The peer-to-peer, RPC, API, node, storage, logging, metrics and transaction-pool packages, other than the announcement loop.
