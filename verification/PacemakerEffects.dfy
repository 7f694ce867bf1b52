/** What each handler of the pacemaker does (consensus/pacemaker.go), stated from its inputs: which proposals are
    accepted and voted for, what a vote, a timeout, a beat and a Regulate lead to, and what a whole run collects. */
module PacemakerEffects {
  import opened Blocks
  import opened ChainStore
  import opened Drafts
  import opened Rounds
  import opened Votes
  import opened Quorum
  import opened PacemakerMachine
  import opened PacemakerRuns
  import Epochs

  // ---------------------------------------------------------------- which proposals are accepted

  /** The round of a proposal fits its parent: round 0 has no known grandparent that is not a KBlock; a later round is
      the next one, or comes with a timeout certificate and is higher than the parent's or starts from a KBlock. */
  predicate RoundFits(parent: Draft, grandparent: Option<Draft>, round: Uint32, tcValid: bool) {
    if round == 0 then grandparent.Some? ==> grandparent.value.block.IsKBlock()
    else round == (parent.round + 1) % U32 || (tcValid && (parent.block.IsKBlock() || parent.round < round))
  }

  /** The proposal shares no transaction with an uncommitted draft below it. */
  ghost predicate FreshTxs(s: Pm, blk: Block)
    requires PoolOk(s)
  {
    forall a | OnUncommittedPath(s, blk.header.parentId, a) ::
      a in s.pool && forall tx | tx in s.pool[a].block.txs :: tx !in blk.txs
  }

  lemma {:induction false} CollectedOnPath(s: Pm, from: Id, tx: Tx) returns (a: Id)
    requires PoolOk(s) && tx in UncommittedTxs(s, from)
    ensures OnUncommittedPath(s, from, a) && a in s.pool && tx in s.pool[a].block.txs
    decreases from
  {
    var d := s.pool[from];
    assert d.block.ID() == from;
    if tx in d.block.txs {
      a := from;
    } else {
      a := CollectedOnPath(s, d.block.header.parentId, tx);
    }
  }

  lemma FreshExactlyWhen(s: Pm, blk: Block)
    requires PoolOk(s)
    ensures FreshTxs(s, blk) <==> !exists tx | tx in blk.txs :: tx in UncommittedTxs(s, blk.header.parentId)
  {
    hide GoodPool, UncommittedTxs, OnUncommittedPath;
    if tx :| tx in blk.txs && tx in UncommittedTxs(s, blk.header.parentId) {
      var a := CollectedOnPath(s, blk.header.parentId, tx);
    }
    forall a | OnUncommittedPath(s, blk.header.parentId, a)
      ensures a in s.pool && forall tx | tx in s.pool[a].block.txs :: tx in UncommittedTxs(s, blk.header.parentId)
    {
      PathTxsCollected(s, blk.header.parentId, a);
    }
  }

  /** A proposal is accepted exactly when it is not below lastCommitted, its parent is known, its certificate is valid,
      its round fits, it repeats no uncommitted transaction, and the application accepts it. */
  lemma AcceptsExactlyWhen(s: Pm, m: ProposalMsg, qcValid: bool, tcValid: bool, accepted: bool)
    requires PoolOk(s)
    ensures var parent := Lookup(s.store, s.pool, m.block.header.parentId, s.nextRef);
            AcceptsProposal(s, m, qcValid, tcValid, accepted) <==>
              && m.block.Number() >= s.lastCommitted.Number() && qcValid && accepted
              && parent.Some?
              && RoundFits(parent.value, Lookup(s.store, s.pool, parent.value.block.header.parentId, s.nextRef),
                           m.round, tcValid)
              && FreshTxs(s, m.block)
  {
    hide GoodPool, UncommittedTxs, OnUncommittedPath, FreshTxs;
    FreshExactlyWhen(s, m.block);
  }

  /** A proposal is voted for exactly when it is accepted, is as high as the last vote, and descends from lastCommitted
      by fewer than ten blocks. */
  lemma VotesExactlyWhen(s: Pm, m: ProposalMsg, qcValid: bool, tcValid: bool, accepted: bool)
    requires Inv(s) && HeightFits(m)
    ensures RecordsVote(s, m, qcValid, tcValid, accepted) <==>
              && AcceptsProposal(s, m, qcValid, tcValid, accepted)
              && m.block.Number() >= s.lastVotingHeight
              && Extends(m.block.header, s.lastCommitted.header)
              && m.block.Number() < s.lastCommitted.Number() + 10
  {
    hide Good, GoodPool, SingleChain, Tree, Lookup, AcceptsProposal, MeetsWithin, Extends, Found;
    if AcceptsProposal(s, m, qcValid, tcValid, accepted) {
      ProposalDraft(s, m, qcValid, tcValid, accepted);
      MeetsWithinExact(s.store, NewDraft(s, m), 10);
    }
  }

  // ---------------------------------------------------------------- what a proposal leads to

  /** An accepted proposal that is not voted for changes nothing but the pool. */
  lemma UnvotedStep(cfg: Config, s: Pm, e: Event)
    requires Inv(s) && e.Proposal? && HeightFits(e.proposal)
    requires AcceptsProposal(s, e.proposal, e.qcValid, e.tcValid, e.accepted)
    requires !RecordsVote(s, e.proposal, e.qcValid, e.tcValid, e.accepted)
    ensures var s' := OnReceiveProposal(cfg, s, e.proposal, e.qcValid, e.tcValid, e.accepted, e.apply);
            s' == Placed(s, NewDraft(s, e.proposal))
  {
    hide Good, GoodPool, SingleChain, Tree, Lookup, AcceptsProposal, MeetsWithin, Found, Update, EnterRound, HighOk,
         UncommittedTxs;
  }

  /** What the pool holds after an accepted proposal: its own draft, unless another of that id was there first, and of
      the other drafts those of before that were not pruned. */
  ghost predicate PlacedIn(s: Pm, m: ProposalMsg, pool: Pool) {
    var parent := Lookup(s.store, s.pool, m.block.header.parentId, s.nextRef);
    && (forall id | id in pool :: id == m.block.ID() || (id in s.pool && pool[id] == s.pool[id]))
    && (m.block.ID() in pool ==>
        var d := pool[m.block.ID()];
        if m.block.ID() in s.pool then d == s.pool[m.block.ID()]
        else && d.block == m.block && d.round == m.round && d.processed
             && parent.Some? && d.parent == parent && d.justify == Some(DraftQC(m.block.qc, parent)))
  }

  lemma PlacedShrinks(s: Pm, m: ProposalMsg, pool: Pool)
    requires Lookup(s.store, s.pool, m.block.header.parentId, s.nextRef).Some?
    requires Shrinks(Placed(s, NewDraft(s, m)).pool, pool)
    ensures PlacedIn(s, m, pool)
  {
    hide Lookup;
  }

  /** The draft of an accepted proposal is in the pool afterwards, always if the proposal is not voted for or its
      certificate names its parent, and no other draft is added or changed. */
  lemma AcceptedIsPlaced(cfg: Config, s: Pm, e: Event)
    requires Inv(s) && e.Proposal? && HeightFits(e.proposal)
    requires AcceptsProposal(s, e.proposal, e.qcValid, e.tcValid, e.accepted)
    ensures var m := e.proposal;
            var s' := OnReceiveProposal(cfg, s, m, e.qcValid, e.tcValid, e.accepted, e.apply);
            && PlacedIn(s, m, s'.pool)
            && (NamesItsParent(m) || !RecordsVote(s, m, e.qcValid, e.tcValid, e.accepted) ==> m.block.ID() in s'.pool)
            && (!RecordsVote(s, m, e.qcValid, e.tcValid, e.accepted) ==>
                s' == s.(pool := s'.pool, nextRef := s'.nextRef) && forall id | id in s.pool :: id in s'.pool)
  {
    hide Good, GoodPool, SingleChain, Tree, Lookup, AcceptsProposal, MayVote, Found, Update, EnterRound, UncommittedTxs,
         PlacedIn, Below, OnReceiveProposal;
    var m := e.proposal;
    ProposalDraft(s, m, e.qcValid, e.tcValid, e.accepted);
    var s1 := Placed(s, NewDraft(s, m));
    if RecordsVote(s, m, e.qcValid, e.tcValid, e.accepted) {
      VotingStep(cfg, s, e);
      UpdateExact(cfg, s1, m.block.qc, e.apply);
      PlacedShrinks(s, m, Update(cfg, s1, m.block.qc, e.apply).0.pool);
      if NamesItsParent(m) {
        UpdateKeepsChildren(cfg, s1, m.block.qc, e.apply, m.block.ID());
      }
    } else {
      UnvotedStep(cfg, s, e);
      PlacedShrinks(s, m, s1.pool);
    }
  }

  /** Drafts above the certified block are not pruned. */
  lemma UpdateKeepsChildren(cfg: Config, s: Pm, qc: QuorumCert, apply: Executor, id: Id)
    requires Inv(s) && id in s.pool && id.number > qc.Number()
    ensures var s' := Update(cfg, s, qc, apply).0; id in s'.pool
  {
    hide Good, Tree, SingleChain, GoodPool, Lineage, Linked, Grows, LookupByQC, AncestorsAbove, Update, Found, Prune,
         MarkedAlong;
    UpdatePrunes(cfg, s, qc, apply);
    var cs := Committing(s, qc);
    if Tried(cs) > 0 {
      var d := LookupByQC(s.store, s.pool, qc, s.nextRef).value;
      FoundForUpdate(s, qc);
      AncestorsBelow(s, d);
      PoolKeyed(s);
      assert cs[Tried(cs) - 1] in cs;
      PruneKeepsAbove(s.pool, cs[Tried(cs) - 1].draft, id.number);
    }
  }

  /** A voter that commits stays in its round exactly when the last block it committed is a KBlock; with nothing to
      commit it enters the next round; and when there are drafts to commit but none is accepted, the first of them
      decides.  Entering the next round starts a fresh timer. */
  lemma VotingRound(cfg: Config, s: Pm, e: Event)
    requires Inv(s) && e.Proposal? && HeightFits(e.proposal)
    requires RecordsVote(s, e.proposal, e.qcValid, e.tcValid, e.accepted)
    ensures Lookup(s.store, s.pool, e.proposal.block.header.parentId, s.nextRef).Some?
    ensures var m := e.proposal;
            var cs := Committing(Placed(s, NewDraft(s, m)), m.block.qc);
            var j := Accepted(cs, s.store.best.ID(), e.apply);
            var s' := OnReceiveProposal(cfg, s, m, e.qcValid, e.tcValid, e.accepted, e.apply);
            var next := EnterRound(cfg.base, s.rounds, s.epoch.inCommittee, (m.round + 1) % U32, RegularRound);
            && (j > 0 ==>
                && s'.store.best == cs[j - 1].draft.block
                && s'.rounds == if s'.lastCommitted.IsKBlock() then s.rounds else next)
            && (cs == [] ==> s'.rounds == next)
            && (cs != [] && j == 0 ==> s'.rounds == if cs[0].draft.block.IsKBlock() then s.rounds else next)
  {
    hide Good, Tree, SingleChain, GoodPool, Lookup, AcceptsProposal, MeetsWithin, Found, Update, EnterRound, HighOk,
         UncommittedTxs, OnReceiveProposal, Committing, Grows, Below;
    var m := e.proposal;
    ProposalDraft(s, m, e.qcValid, e.tcValid, e.accepted);
    VotingStep(cfg, s, e);
    UpdateReturns(cfg, Placed(s, NewDraft(s, m)), m.block.qc, e.apply);
  }

  // ---------------------------------------------------------------- votes collected over a run

  /** The vote that a step counts, with its signer: verified, of the local epoch, and let through by the handler. */
  ghost function CountedVote(cfg: Config, s: Pm, e: Event): Option<(QCKey, nat)> {
    match e
    case Vote(epoch, signer, round, blockId, sigOk) =>
      if epoch == s.epoch.epoch && sigOk && CountsVote(cfg, s, round, blockId)
      then Some((QCKey(round, blockId), signer)) else None
    case Timeout(epoch, m, sigOk, _, _) =>
      if epoch == s.epoch.epoch && sigOk && AmIRoundProposer(s.epoch.committee, cfg.me, m.wishRound)
      then Some((QCKey(m.lastVote.round, m.lastVote.blockId), m.signer)) else None
    case _ => None
  }

  /** The wish for a round that a step counts, with its signer. */
  ghost function CountedWish(cfg: Config, s: Pm, e: Event): Option<(TCKey, nat)> {
    match e
    case Timeout(epoch, m, _, wishOk, _) =>
      if epoch == s.epoch.epoch && wishOk && AmIRoundProposer(s.epoch.committee, cfg.me, m.wishRound)
      then Some((TCKey(epoch, m.wishRound), m.signer)) else None
    case _ => None
  }

  /** A set of signers with one more, if the vote is for the key. */
  ghost function With<K>(signers: set<nat>, vote: Option<(K, nat)>, k: K): set<nat> {
    if vote.Some? && vote.value.0 == k then signers + {vote.value.1} else signers
  }

  /** The signers whose votes for a key were counted from i up to j. */
  ghost function VotesFrom(cfg: Config, states: seq<Pm>, events: seq<Event>, i: nat, j: nat, k: QCKey): set<nat>
    requires i <= j <= |events| < |states|
  {
    if i == j then {} else With(VotesFrom(cfg, states, events, i, j - 1, k),
                                CountedVote(cfg, states[j - 1], events[j - 1]), k)
  }

  /** The signers whose wishes for a round were counted from i up to j. */
  ghost function WishesFrom(cfg: Config, states: seq<Pm>, events: seq<Event>, i: nat, j: nat, k: TCKey): set<nat>
    requires i <= j <= |events| < |states|
  {
    if i == j then {} else With(WishesFrom(cfg, states, events, i, j - 1, k),
                                CountedWish(cfg, states[j - 1], events[j - 1]), k)
  }

  /** The event does not replace the epoch. */
  predicate Stays(e: Event) {
    e.RegulateNow? ==> e.next.None?
  }

  lemma Cast<K>(t: Table<K, ()>, signers: set<nat>, key: K, signer: nat, verified: bool, k: K)
    requires Agrees(t, signers, k)
    ensures var (t', cert) := CastVerified(t, key, signer, verified);
            var now := if verified && key == k then signers + {signer} else signers;
            && Agrees(t', now, k) && t'.committeeSize == t.committeeSize
            && (key == k ==>
                && (cert.Some? <==>
                    MajorityTwoThird(|now|, t.committeeSize) && !MajorityTwoThird(|signers|, t.committeeSize))
                && (cert.Some? ==> cert.value.Keys == now))
  {
    hide MajorityTwoThird, AddVote, Agrees;
    if verified {
      OneOperation(t, signers, Add(key, signer, (), true), k);
    }
  }

  /** The tables that a step leaves: those of before with the counted vote and the counted wish cast, whatever else the
      step does. */
  lemma TablesFollow(cfg: Config, s: Pm, e: Event)
    requires Inv(s) && StepOk(cfg, s, e) && Stays(e)
    ensures var s' := Step(cfg, s, e);
            var v, w := CountedVote(cfg, s, e), CountedWish(cfg, s, e);
            && s'.epoch == s.epoch
            && s'.qcVotes == (if v.Some? then CastVerified(s.qcVotes, v.value.0, v.value.1, true).0 else s.qcVotes)
            && s'.tcVotes == (if w.Some? then CastVerified(s.tcVotes, w.value.0, w.value.1, true).0 else s.tcVotes)
  {
    hide Good, Tree, SingleChain, GoodPool, Lookup, LookupByQC, AcceptsProposal, Found, Update, EnterRound, AddVote,
         TimeoutFirst, TimeoutSafe, OnReceiveProposal, RegulateRounds, CommitBlock, Beat, AcceptsBeat, HighOk,
         HighKnown;
    match e
    case Proposal(_, m, qcValid, tcValid, accepted, _) =>
      if e.epoch == s.epoch.epoch {
        if RecordsVote(s, m, qcValid, tcValid, accepted) {
          VotingStep(cfg, s, e);
        } else {
          QuietProposal(cfg, s, e);
        }
      }
    case Vote(_, _, _, _, _) => VoteTables(cfg, s, e);
    case Timeout(_, _, _, _, _) => TimeoutTables(cfg, s, e);
    case BeatAt(_, _, _, _) =>
    case RoundTimeout(_) =>
    case RegulateNow(_) =>
    case Synced(_, _, _, _, _) => ImportTables(cfg, s, e);
  }

  lemma VoteTables(cfg: Config, s: Pm, e: Event)
    requires Inv(s) && e.Vote?
    ensures var s', v := OnReceiveVote(cfg, s, e.signer, e.round, e.blockId, e.sigOk), CountedVote(cfg, s, e);
            && s'.epoch == s.epoch && s'.tcVotes == s.tcVotes
            && (e.epoch == s.epoch.epoch ==>
                s'.qcVotes == if v.Some? then CastVerified(s.qcVotes, v.value.0, v.value.1, true).0 else s.qcVotes)
  {
    hide StoreOk, PoolOk, Good, HighKnown, Lookup, EnterRound, AddVote;
  }

  lemma TimeoutTables(cfg: Config, s: Pm, e: Event)
    requires Inv(s) && e.Timeout? && StepOk(cfg, s, e)
    ensures var s' := Step(cfg, s, e);
            var v, w := CountedVote(cfg, s, e), CountedWish(cfg, s, e);
            && s'.epoch == s.epoch
            && s'.qcVotes == (if v.Some? then CastVerified(s.qcVotes, v.value.0, v.value.1, true).0 else s.qcVotes)
            && s'.tcVotes == (if w.Some? then CastVerified(s.tcVotes, w.value.0, w.value.1, true).0 else s.tcVotes)
  {
    hide Good, Tree, SingleChain, GoodPool, LookupByQC, Found, TimeoutFirst, TimeoutSafe, AddVote, HighKnown, StoreOk;
    if e.epoch == s.epoch.epoch && AmIRoundProposer(s.epoch.committee, cfg.me, e.timeout.wishRound) {
      TimeoutStaysSafe(cfg, s, e);
      TimeoutFirstKeeps(cfg, s, e.timeout, e.sigOk, e.apply);
    }
  }

  lemma TimeoutStaysSafe(cfg: Config, s: Pm, e: Event)
    requires Inv(s) && e.Timeout? && TimeoutSafe(cfg, s, e.timeout, e.sigOk, e.apply)
    ensures var qc := TimeoutVote(s, e.timeout, e.sigOk).1; qc.Some? ==> Safe(s, WithNode(s, qc.value))
    ensures var s1 := TimeoutFirst(cfg, s, e.timeout, e.sigOk, e.apply); Safe(s1, WithNode(s1, e.timeout.qcHigh))
  {
  }

  lemma ImportTables(cfg: Config, s: Pm, e: Event)
    requires Tree(s.store) && e.Synced?
    ensures var s' := Import(cfg, s, e.block, e.escortQC, e.valid, e.apply);
            s'.epoch == s.epoch && s'.qcVotes == s.qcVotes && s'.tcVotes == s.tcVotes && s'.tcHigh == s.tcHigh
  {
    hide Tree, AddBlockSpec;
  }

  /** Over any stretch of a run in one epoch, the table of votes agrees with the signers whose votes were counted, by
      whichever handler: a key is sealed exactly when they are two thirds, and otherwise holds exactly them. */
  lemma {:induction false} VotesAreCollected(cfg: Config, states: seq<Pm>, events: seq<Event>, i: nat, j: nat, k: QCKey,
                                             signers: set<nat>)
    requires Run(cfg, states, events) && i <= j <= |events| && forall c | i <= c < j :: Stays(events[c])
    requires Agrees(states[i].qcVotes, signers, k)
    ensures Agrees(states[j].qcVotes, signers + VotesFrom(cfg, states, events, i, j, k), k)
    ensures states[j].qcVotes.committeeSize == states[i].qcVotes.committeeSize && states[j].epoch == states[i].epoch
    decreases j
  {
    hide Inv, Step, StepOk, Advances, PoolOk, CountedVote, Agrees, CastVerified;
    if i == j {
      assert signers + VotesFrom(cfg, states, events, i, j, k) == signers;
    } else {
      VotesAreCollected(cfg, states, events, i, j - 1, k, signers);
      RunKept(cfg, states, events, j - 1);
      var s, e, before := states[j - 1], events[j - 1], VotesFrom(cfg, states, events, i, j - 1, k);
      assert Next(cfg, s, e, states[j]);
      TablesFollow(cfg, s, e);
      var v := CountedVote(cfg, s, e);
      if v.Some? {
        Cast(s.qcVotes, signers + before, v.value.0, v.value.1, true, k);
      }
      assert signers + With(before, v, k) == With(signers + before, v, k);
    }
  }

  /** The same for the wishes for a round. */
  lemma {:induction false} WishesAreCollected(cfg: Config, states: seq<Pm>, events: seq<Event>, i: nat, j: nat,
                                              k: TCKey, signers: set<nat>)
    requires Run(cfg, states, events) && i <= j <= |events| && forall c | i <= c < j :: Stays(events[c])
    requires Agrees(states[i].tcVotes, signers, k)
    ensures Agrees(states[j].tcVotes, signers + WishesFrom(cfg, states, events, i, j, k), k)
    ensures states[j].tcVotes.committeeSize == states[i].tcVotes.committeeSize && states[j].epoch == states[i].epoch
    decreases j
  {
    hide Inv, Step, StepOk, Advances, PoolOk, CountedWish, Agrees, CastVerified;
    if i == j {
      assert signers + WishesFrom(cfg, states, events, i, j, k) == signers;
    } else {
      WishesAreCollected(cfg, states, events, i, j - 1, k, signers);
      RunKept(cfg, states, events, j - 1);
      var s, e, before := states[j - 1], events[j - 1], WishesFrom(cfg, states, events, i, j - 1, k);
      assert Next(cfg, s, e, states[j]);
      TablesFollow(cfg, s, e);
      var w := CountedWish(cfg, s, e);
      if w.Some? {
        Cast(s.tcVotes, signers + before, w.value.0, w.value.1, true, k);
      }
      assert signers + With(before, w, k) == With(signers + before, w, k);
    }
  }

  /** The signers of before, and of now, take the key across two thirds of the committee. */
  ghost predicate Crosses(before: set<nat>, now: set<nat>, committeeSize: nat) {
    MajorityTwoThird(|now|, committeeSize) && !MajorityTwoThird(|before|, committeeSize)
  }

  /** In any run, a counted vote changes QCHigh exactly when it takes the signers counted for its block and round since
      i across two thirds, and the block is above QCHigh.  QCHigh is then the certificate of exactly those signers, its
      node is the block, and the round moves past it. */
  lemma VoteCertifies(cfg: Config, states: seq<Pm>, events: seq<Event>, i: nat, j: nat, signers: set<nat>)
    requires Run(cfg, states, events) && i <= j < |events| && forall c | i <= c < j :: Stays(events[c])
    requires events[j].Vote? && CountedVote(cfg, states[j], events[j]).Some?
    requires Agrees(states[i].qcVotes, signers, QCKey(events[j].round, events[j].blockId))
    ensures var s, e, s' := states[j], events[j], states[j + 1];
            var before := signers + VotesFrom(cfg, states, events, i, j, QCKey(e.round, e.blockId));
            var now := before + {e.signer};
            var cert := QuorumCert(states[i].epoch.epoch, e.round, e.blockId, now);
            if Crosses(before, now, states[i].qcVotes.committeeSize) && !Below(cert, s.qcHigh.qc) then
              && s'.qcHigh.qc == cert && s'.qcHigh.node.Some? && s'.qcHigh.node.value.block.ID() == e.blockId
              && (s.epoch.inCommittee && e.round + 1 < U32 ==> s'.rounds.currentRound > e.round)
            else s'.qcHigh == s.qcHigh && s'.rounds == s.rounds
  {
    hide Inv, OnReceiveVote, Advances, PoolOk, Agrees, CastVerified, VotesFrom, CountsVote, MajorityTwoThird;
    var s, e := states[j], events[j];
    var k := QCKey(e.round, e.blockId);
    VotesAreCollected(cfg, states, events, i, j, k, signers);
    RunKept(cfg, states, events, j);
    assert Next(cfg, s, e, states[j + 1]);
    Cast(s.qcVotes, signers + VotesFrom(cfg, states, events, i, j, k), k, e.signer, true, k);
    VoteRaisesQCHigh(cfg, s, e.signer, e.round, e.blockId, true);
  }

  /** In any run, the last vote of a timeout completes a certificate exactly when it takes the signers counted since i
      across two thirds, and the certificate is of exactly those signers. */
  lemma LastVoteCertifies(cfg: Config, states: seq<Pm>, events: seq<Event>, i: nat, j: nat, signers: set<nat>)
    requires Run(cfg, states, events) && i <= j < |events| && forall c | i <= c < j :: Stays(events[c])
    requires events[j].Timeout?
    requires var v := events[j].timeout.lastVote; Agrees(states[i].qcVotes, signers, QCKey(v.round, v.blockId))
    ensures var m := events[j].timeout;
            var before := signers + VotesFrom(cfg, states, events, i, j, QCKey(m.lastVote.round, m.lastVote.blockId));
            var now := if events[j].sigOk then before + {m.signer} else before;
            TimeoutVote(states[j], m, events[j].sigOk).1 ==
              if Crosses(before, now, states[i].qcVotes.committeeSize)
              then Some(QuorumCert(states[i].epoch.epoch, m.lastVote.round, m.lastVote.blockId, now)) else None
  {
    hide Inv, Next, PoolOk, Agrees, CastVerified, VotesFrom, MajorityTwoThird;
    var m := events[j].timeout;
    var k := QCKey(m.lastVote.round, m.lastVote.blockId);
    VotesAreCollected(cfg, states, events, i, j, k, signers);
    Cast(states[j].qcVotes, signers + VotesFrom(cfg, states, events, i, j, k), k, m.signer, events[j].sigOk, k);
    var qc := TimeoutVote(states[j], m, events[j].sigOk).1;
    var cert := CastVerified(states[j].qcVotes, k, m.signer, events[j].sigOk).1;
    assert qc == if cert.None? then None else Some(CertOf(states[j], k.round, k.blockId, cert.value));
  }

  /** In any run, a timeout that reaches the proposer of the round it wishes for makes a new TCHigh exactly when it
      takes the signers counted for that round since i across two thirds; TCHigh then holds exactly those signers. */
  lemma WishFormsTC(cfg: Config, states: seq<Pm>, events: seq<Event>, i: nat, j: nat, signers: set<nat>)
    requires Run(cfg, states, events) && i <= j < |events| && forall c | i <= c < j :: Stays(events[c])
    requires events[j].Timeout? && events[j].epoch == states[i].epoch.epoch
    requires AmIRoundProposer(states[i].epoch.committee, cfg.me, events[j].timeout.wishRound)
    requires Agrees(states[i].tcVotes, signers, TCKey(events[j].epoch, events[j].timeout.wishRound))
    ensures var m := events[j].timeout;
            var before := signers + WishesFrom(cfg, states, events, i, j, TCKey(events[j].epoch, m.wishRound));
            var now := if events[j].wishOk then before + {m.signer} else before;
            states[j + 1].tcHigh ==
              if Crosses(before, now, states[i].tcVotes.committeeSize)
              then Some(TimeoutCert(events[j].epoch, m.wishRound, now)) else states[j].tcHigh
  {
    hide Inv, Advances, PoolOk, Agrees, TimeoutFirst, TimeoutSafe, WithNode, CastVerified, WishesFrom, MajorityTwoThird;
    var s, e, m := states[j], events[j], events[j].timeout;
    var k := TCKey(e.epoch, m.wishRound);
    WishesAreCollected(cfg, states, events, i, j, k, signers);
    RunKept(cfg, states, events, j);
    assert Next(cfg, s, e, states[j + 1]);
    WishStep(cfg, s, e);
    Cast(s.tcVotes, signers + WishesFrom(cfg, states, events, i, j, k), k, m.signer, e.wishOk, k);
  }

  lemma WishStep(cfg: Config, s: Pm, e: Event)
    requires Inv(s) && e.Timeout? && StepOk(cfg, s, e)
    requires e.epoch == s.epoch.epoch && AmIRoundProposer(s.epoch.committee, cfg.me, e.timeout.wishRound)
    ensures var m := e.timeout;
            var cert := CastVerified(s.tcVotes, TCKey(e.epoch, m.wishRound), m.signer, e.wishOk).1;
            Step(cfg, s, e).tcHigh ==
              if cert.Some? then Some(TimeoutCert(e.epoch, m.wishRound, cert.value.Keys)) else s.tcHigh
  {
    hide Good, Tree, SingleChain, GoodPool, LookupByQC, Found, TimeoutFirst, TimeoutSafe, AddVote, HighKnown, StoreOk;
    TimeoutStaysSafe(cfg, s, e);
    TimeoutFirstKeeps(cfg, s, e.timeout, e.sigOk, e.apply);
  }

  // ---------------------------------------------------------------- what a timeout leads to

  /** Committing looks at the store, the pool and the marks only. */
  lemma CommittingSame(s: Pm, t: Pm, qc: QuorumCert)
    requires t.store == s.store && t.pool == s.pool && t.committed == s.committed
    ensures Committing(t, qc) == Committing(s, qc)
  {
  }

  /** The certificate that the last vote of a timeout completes is taken over and acted upon: QCHigh is then at least
      it, if its block is known, and what Update commits for it is committed.  Drafts as high as QCHigh stay. */
  lemma LastVoteActs(cfg: Config, s: Pm, m: TimeoutMsg, sigOk: bool, apply: Executor)
    requires Inv(s)
    requires TimeoutVote(s, m, sigOk).1.Some? ==> Safe(s, WithNode(s, TimeoutVote(s, m, sigOk).1.value))
    ensures var s1, qc := TimeoutFirst(cfg, s, m, sigOk, apply), TimeoutVote(s, m, sigOk).1;
            && (qc.None? ==> s1 == s.(qcVotes := s1.qcVotes))
            && (qc.Some? ==>
                && s1.qcHigh.qc in {s.qcHigh.qc, qc.value}
                && (Found(s.store, s.pool, qc.value) ==> Below(qc.value, s1.qcHigh.qc))
                && PrefixCommitted(s, s1, Committing(s, qc.value), apply))
            && KeepsAbove(s.pool, s1.pool, s1.qcHigh.qc.Number())
  {
    hide Good, Tree, SingleChain, GoodPool, Lineage, Linked, Grows, LookupByQC, AncestorsAbove, Update, Found,
         CastVerified, Committing, Headers, Accepted;
    var (s0, qc) := TimeoutVote(s, m, sigOk);
    if qc.Some? {
      FoundForUpdate(s, qc.value);
      FoundMeans(s.store, s.pool, qc.value, s.nextRef);
      QCHighStaysKnown(s, WithNode(s, qc.value));
      var t := UpdateQCHigh(s0, WithNode(s0, qc.value)).(nextRef := s0.nextRef + 1);
      UpdateTakesHigher(cfg, t, qc.value, apply);
      UpdateReturns(cfg, t, qc.value, apply);
      UpdateKeepsHigh(cfg, t, qc.value, apply);
      CommittingSame(s, t, qc.value);
    }
  }

  /** After a timeout that reaches the proposer of the round it wishes for, QCHigh is the highest of what it was, of the
      certificate in the message, and of the one that the last vote completed, as far as their blocks are known; and
      what Update commits for the latter is committed. */
  lemma TimeoutTakesHighest(cfg: Config, s: Pm, e: Event)
    requires Inv(s) && e.Timeout? && StepOk(cfg, s, e)
    requires e.epoch == s.epoch.epoch && AmIRoundProposer(s.epoch.committee, cfg.me, e.timeout.wishRound)
    ensures var s', qc := Step(cfg, s, e), TimeoutVote(s, e.timeout, e.sigOk).1;
            && (s'.qcHigh.qc in {s.qcHigh.qc, e.timeout.qcHigh} || Some(s'.qcHigh.qc) == qc)
            && Below(s.qcHigh.qc, s'.qcHigh.qc)
            && (Found(s.store, s.pool, e.timeout.qcHigh) ==> Below(e.timeout.qcHigh, s'.qcHigh.qc))
            && (qc.Some? && Found(s.store, s.pool, qc.value) ==> Below(qc.value, s'.qcHigh.qc))
            && (if qc.Some? then PrefixCommitted(s, s', Committing(s, qc.value), e.apply) else s'.store == s.store)
  {
    hide Good, Tree, SingleChain, GoodPool, Lineage, Linked, Grows, LookupByQC, TimeoutFirst, TimeoutSafe, TimeoutVote,
         Found, CastVerified, Committing, Headers, Accepted, HighKnown;
    TimeoutStaysSafe(cfg, s, e);
    var m := e.timeout;
    TimeoutFirstKeeps(cfg, s, m, e.sigOk, e.apply);
    LastVoteActs(cfg, s, m, e.sigOk, e.apply);
    var s1 := TimeoutFirst(cfg, s, m, e.sigOk, e.apply);
    FoundForUpdate(s1, m.qcHigh);
    FoundMeans(s1.store, s1.pool, m.qcHigh, s1.nextRef);
    QCHighStaysKnown(s1, WithNode(s1, m.qcHigh));
    if Found(s.store, s.pool, m.qcHigh) {
      StillFound(s, s1, m.qcHigh);
    }
  }

  /** A certificate whose block was known is known still, or is below QCHigh. */
  lemma StillFound(s: Pm, s1: Pm, qc: QuorumCert)
    requires Found(s.store, s.pool, qc) && Grows(s.store, s1.store)
    requires KeepsAbove(s.pool, s1.pool, s1.qcHigh.qc.Number())
    ensures Found(s1.store, s1.pool, qc) || Below(qc, s1.qcHigh.qc)
  {
    hide Lineage;
  }

  // ---------------------------------------------------------------- what a beat leads to

  /** OnBeat lets a beat through exactly when it is not of an earlier epoch, its round was not beaten yet in this one,
      and it is this node's turn. */
  predicate DueBeat(cfg: Config, s: Pm, epoch: nat, round: Uint32) {
    && epoch >= s.epoch.epoch
    && (epoch == s.epoch.epoch ==> s.rounds.lastOnBeatRound < ToInt32(round))
    && s.epoch.committee != [] && s.epoch.committee[round % |s.epoch.committee|] == cfg.me
  }

  /** A due beat is remembered.  It adds a draft exactly when the proposal was prepared and its round is above that of
      QCHigh, or is round 0 or in epoch 0: a leaf with the prepared transactions on the block QCHigh certifies, carrying
      that certificate and the set that the registry supplies; TCHigh is then spent.  Nothing else changes. */
  lemma BeatAddsLeaf(cfg: Config, s: Pm, epoch: nat, round: Uint32, prepared: bool, leaf: Epochs.Leaf)
    requires Inv(s) && s.qcHigh.qc.Number() + 1 < U32
    ensures var s' := OnBeat(cfg, s, epoch, round, prepared, leaf);
            if !DueBeat(cfg, s, epoch, round) then s' == s
            else
              && s'.rounds == s.rounds.(lastOnBeatRound := ToInt32(round))
              && if prepared && (s.epoch.epoch == 0 || round == 0 || s.qcHigh.qc.round < round) then
                   && s' == s.(rounds := s'.rounds, nextRef := s'.nextRef, pool := s'.pool, tcHigh := None)
                   && exists d :: LeafDraft(s, d, round, leaf) && s'.pool == s.pool[d.block.ID() := d]
                 else s' == s.(rounds := s'.rounds, nextRef := s'.nextRef)
  {
    hide Tree, SingleChain, Good, GoodPool, Linked, Lineage, LookupByQC, Found;
    var n := LookupByQC(s.store, s.pool, s.qcHigh.qc, s.nextRef + 1);
    LookupByQCMatches(s.store, s.pool, s.qcHigh.qc, s.nextRef + 1);
    FoundMeans(s.store, s.pool, s.qcHigh.qc, s.nextRef + 1);
    if DueBeat(cfg, s, epoch, round) && Proposes(s, n.value, round, prepared) {
      var blk := Epochs.BuildBlock(n.value.block, s.qcHigh.qc, leaf);
      assert LeafDraft(s, Draft(s.nextRef + 2, blk, blk.Number(), round, n, Some(s.qcHigh), true), round, leaf);
    }
  }

  /** The draft of a leaf on the block that QCHigh certifies. */
  ghost predicate LeafDraft(s: Pm, d: Draft, round: Uint32, leaf: Epochs.Leaf) {
    && d.parent.Some? && Matches(d.parent.value, s.qcHigh.qc)
    && d.justify == Some(s.qcHigh) && d.processed && d.round == round
    && d.height == d.block.Number() == s.qcHigh.qc.Number() + 1
    && d.block.header.parentId == s.qcHigh.qc.blockId && d.block.qc == s.qcHigh.qc && d.block.txs == leaf.txs
    && d.block.header.validatorsHash == d.parent.value.block.header.nextValidatorsHash
    && d.block.header.nextValidatorsHash == (if leaf.newVSet.Some? then leaf.newVSet.value
                                             else d.block.header.validatorsHash)
  }

  /** What one replica proposes above round 0 of an epoch other than 0, another one votes for: it holds the certified
      parent at the certificate's round, the certificate checks, the round is the next one or has a timeout certificate,
      no transaction repeats, the application accepts, and the block is as high as its last vote and fewer than ten
      above its lastCommitted, from which it descends. */
  lemma ProposedIsVoted(s: Pm, d: Draft, round: Uint32, leaf: Epochs.Leaf, t: Pm, tcValid: bool)
    requires s.epoch.epoch != 0 && 0 < round && s.qcHigh.qc.round < round && LeafDraft(s, d, round, leaf)
    requires Inv(t) && d.block.qc.Number() + 1 < U32
    requires d.block.qc.blockId in t.pool && t.pool[d.block.qc.blockId].round == d.block.qc.round
    requires round == d.block.qc.round + 1 || tcValid
    requires FreshTxs(t, d.block)
    requires d.block.Number() >= t.lastVotingHeight && Extends(d.block.header, t.lastCommitted.header)
    requires t.lastCommitted.Number() <= d.block.Number() < t.lastCommitted.Number() + 10
    ensures RecordsVote(t, ProposalMsg(d.block, round), true, tcValid, true)
  {
    hide Good, GoodPool, SingleChain, Tree, AcceptsProposal, RecordsVote, Extends, Found, FreshTxs, HighOk;
    var m := ProposalMsg(d.block, round);
    AcceptsExactlyWhen(t, m, true, tcValid, true);
    VotesExactlyWhen(t, m, true, tcValid, true);
  }

  // ---------------------------------------------------------------- what a Regulate leads to

  /** The round that Regulate restarts in: round 0 after a KBlock, else the one after the certificate. */
  function RestartRound(s: Pm): Uint32 {
    if s.store.best.IsKBlock() then 0 else (RegulateQC(s).round + 1) % U32
  }

  /** When Regulate finds its node, it adopts the epoch it was given, with empty tables, starts from the higher of
      QCHigh and bestQC, forgets the last vote, expects the beat of the restart round, and a member of the committee is
      in that round with a fresh timer. */
  lemma RegulateRestarts(cfg: Config, s: Pm, next: Option<EpochInfo>)
    requires Inv(s) && Found(s.store, s.pool, RegulateQC(s))
    ensures var s' := Regulate(cfg, s, next);
            && s'.qcHigh.qc == RegulateQC(s) && s'.qcHigh.node.Some? && Matches(s'.qcHigh.node.value, s'.qcHigh.qc)
            && s'.pool == s.pool[s'.qcHigh.qc.blockId := s'.qcHigh.node.value]
            && s'.store == s.store && s'.committed == s.committed && s'.tcHigh == s.tcHigh
            && s'.lastCommitted == s.store.best && s'.lastVotingHeight == 0 && s'.lastVote.None?
            && (next.None? ==> s'.epoch == s.epoch && s'.qcVotes == s.qcVotes && s'.tcVotes == s.tcVotes)
            && (next.Some? ==>
                && s'.epoch == next.value
                && s'.qcVotes.committeeSize == s'.tcVotes.committeeSize == |next.value.committee| % U32
                && (forall k :: Agrees(s'.qcVotes, {}, k)) && (forall k :: Agrees(s'.tcVotes, {}, k)))
            && s'.rounds.lastOnBeatRound == WrapInt32(ToInt32(RestartRound(s)) - 1)
            && s'.rounds.currentRound == (if s'.epoch.inCommittee then RestartRound(s) else 0)
            && (s'.epoch.inCommittee ==>
                s'.rounds.timeoutCounter == 0 && (cfg.base < I63 ==> s'.rounds.interval == cfg.base))
  {
    hide Good, Tree, SingleChain, Lineage, Linked, LookupByQC, GoodPool, EnterRound, MajorityTwoThird;
    FoundMeans(s.store, s.pool, RegulateQC(s), s.nextRef);
    LookupByQCMatches(s.store, s.pool, RegulateQC(s), s.nextRef);
    var s' := Regulate(cfg, s, next);
    EnterRoundExact(cfg.base, s.rounds.(lastOnBeatRound := WrapInt32(ToInt32(RestartRound(s)) - 1), currentRound := 0),
                    s'.epoch.inCommittee, RestartRound(s), RegularRound);
    MajorityInIntegers(0, s'.qcVotes.committeeSize);
  }

  /** The beat that Regulate schedules makes its proposer propose on the certified block, whenever a proposal can be
      prepared, except in round 2^31, where the signed comparison turns over. */
  lemma RegulateThenPropose(cfg: Config, s: Pm, next: Option<EpochInfo>, leaf: Epochs.Leaf)
    requires Inv(s) && Found(s.store, s.pool, RegulateQC(s)) && RegulateQC(s).Number() + 1 < U32
    ensures var s1 := Regulate(cfg, s, next);
            var s2 := OnBeat(cfg, s1, s1.epoch.epoch, RestartRound(s), true, leaf);
            if AmIRoundProposer(s1.epoch.committee, cfg.me, RestartRound(s)) && RestartRound(s) != I31
            then exists d :: LeafDraft(s1, d, RestartRound(s), leaf) && s2.pool == s1.pool[d.block.ID() := d]
            else s2 == s1
  {
    hide Inv, OnBeat, Found, Regulate, LeafDraft;
    var s1 := Regulate(cfg, s, next);
    RegulateInv(cfg, s, next);
    RegulateRestarts(cfg, s, next);
    BeatAddsLeaf(cfg, s1, s1.epoch.epoch, RestartRound(s), true, leaf);
  }

  lemma RegulateInv(cfg: Config, s: Pm, next: Option<EpochInfo>)
    requires Inv(s)
    ensures Inv(Regulate(cfg, s, next))
  {
    hide Inv, Regulate;
    RegulateKept(cfg, s, RegulateNow(next));
  }
}
