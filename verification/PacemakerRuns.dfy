/** The remaining handlers of the pacemaker (consensus/pacemaker.go), its steps, and what every run keeps. */
module PacemakerRuns {
  import opened Blocks
  import opened ChainStore
  import opened Drafts
  import opened Rounds
  import opened Votes
  import opened Quorum
  import opened PacemakerMachine
  import Epochs

  // ---------------------------------------------------------------- votes and timeouts

  /** The certificate that a completed set of votes becomes. */
  function CertOf(s: Pm, round: Uint32, blockId: Id, cert: map<nat, ()>): QuorumCert {
    QuorumCert(s.epoch.epoch, round, blockId, cert.Keys)
  }

  /** A vote that is older than the current round, in 32-bit arithmetic. */
  predicate Outdated(currentRound: Uint32, round: Uint32) {
    !(round == currentRound && round == 0) && round < (currentRound + U32 - 1) % U32
  }

  /** OnReceiveVote gets as far as recording the vote. */
  predicate CountsVote(cfg: Config, s: Pm, round: Uint32, blockId: Id) {
    && !Outdated(s.rounds.currentRound, round)
    && AmIRoundProposer(s.epoch.committee, cfg.me, (round + 1) % U32)
    && var b := Lookup(s.store, s.pool, blockId, s.nextRef);
    && b.Some? && b.value.round == round
  }

  /** AddQCVote and AddTCVote: a vote whose signature does not verify is dropped before it reaches the table. */
  function CastVerified<K>(t: Table<K, ()>, key: K, signer: nat, verified: bool): (Table<K, ()>, Option<map<nat, ()>>) {
    if verified then AddVote(t, key, signer, (), true) else (t, None)
  }

  function OnReceiveVote(cfg: Config, s: Pm, signer: nat, round: Uint32, blockId: Id, sigOk: bool): Pm
    requires s.qcHigh.node.Some?
  {
    if !CountsVote(cfg, s, round, blockId) then s
    else
      var (votes, cert) := CastVerified(s.qcVotes, QCKey(round, blockId), signer, sigOk);
      var s1 := s.(qcVotes := votes, nextRef := s.nextRef + 1);
      if cert.None? then s1
      else
        var d := DraftQC(CertOf(s, round, blockId, cert.value), Lookup(s.store, s.pool, blockId, s.nextRef));
        var s2 := UpdateQCHigh(s1, d);
        if !Raises(s1, d) then s2
        else s2.(rounds := EnterRound(cfg.base, s2.rounds, s2.epoch.inCommittee, (round + 1) % U32, RegularRound))
  }

  datatype TimeoutMsg = TimeoutMsg(signer: nat, wishRound: Uint32, lastVote: CastVote, qcHigh: QuorumCert)

  /** The certificate, if any, that the last vote attached to a timeout completes, and the votes recorded then. */
  function TimeoutVote(s: Pm, m: TimeoutMsg, sigOk: bool): (Pm, Option<QuorumCert>) {
    var (votes, cert) := CastVerified(s.qcVotes, QCKey(m.lastVote.round, m.lastVote.blockId), m.signer, sigOk);
    (s.(qcVotes := votes),
     if cert.None? then None else Some(CertOf(s, m.lastVote.round, m.lastVote.blockId, cert.value)))
  }

  /** A certificate with the node that GetDraftByEscortQC finds for it. */
  function WithNode(s: Pm, qc: QuorumCert): DraftQC {
    DraftQC(qc, LookupByQC(s.store, s.pool, qc, s.nextRef))
  }

  /** The first half of OnReceiveTimeout: a completed certificate raises QCHigh and is handed to Update. */
  ghost function TimeoutFirst(cfg: Config, s: Pm, m: TimeoutMsg, sigOk: bool, apply: Executor): Pm
    requires Tree(s.store) && PoolOk(s) && HighOk(s)
    requires TimeoutVote(s, m, sigOk).1.Some? ==> Safe(s, WithNode(s, TimeoutVote(s, m, sigOk).1.value))
  {
    var (s1, qc) := TimeoutVote(s, m, sigOk);
    if qc.None? then s1
    else
      FoundForUpdate(s, qc.value);
      QCHighRises(s, WithNode(s, qc.value));
      Update(cfg, UpdateQCHigh(s1, WithNode(s1, qc.value)).(nextRef := s1.nextRef + 1), qc.value, apply).0
  }

  /** The end of OnReceiveTimeout: the wish for a round, and the timeout certificate it may complete. */
  function TimeoutWish(s: Pm, m: TimeoutMsg, wishOk: bool): Pm {
    var (votes, cert) := CastVerified(s.tcVotes, TCKey(s.epoch.epoch, m.wishRound), m.signer, wishOk);
    s.(tcVotes := votes,
       tcHigh := if cert.Some? then Some(TimeoutCert(s.epoch.epoch, m.wishRound, cert.value.Keys)) else s.tcHigh)
  }

  /** A timeout message whose certificates, where they would be adopted, have a known node. */
  ghost predicate TimeoutSafe(cfg: Config, s: Pm, m: TimeoutMsg, sigOk: bool, apply: Executor)
    requires Inv(s)
  {
    && (TimeoutVote(s, m, sigOk).1.Some? ==> Safe(s, WithNode(s, TimeoutVote(s, m, sigOk).1.value)))
    && var s1 := TimeoutFirst(cfg, s, m, sigOk, apply);
    && Safe(s1, WithNode(s1, m.qcHigh))
  }

  ghost function OnReceiveTimeout(cfg: Config, s: Pm, m: TimeoutMsg, sigOk: bool, wishOk: bool, apply: Executor): Pm
    requires Inv(s) && (AmIRoundProposer(s.epoch.committee, cfg.me, m.wishRound)
             ==> TimeoutSafe(cfg, s, m, sigOk, apply))
  {
    if !AmIRoundProposer(s.epoch.committee, cfg.me, m.wishRound) then s
    else
      TimeoutFirstKeeps(cfg, s, m, sigOk, apply);
      var s1 := TimeoutFirst(cfg, s, m, sigOk, apply);
      TimeoutWish(UpdateQCHigh(s1, WithNode(s1, m.qcHigh)).(nextRef := s1.nextRef + 1), m, wishOk)
  }

  lemma TimeoutFirstKeeps(cfg: Config, s: Pm, m: TimeoutMsg, sigOk: bool, apply: Executor)
    requires Inv(s)
    requires TimeoutVote(s, m, sigOk).1.Some? ==> Safe(s, WithNode(s, TimeoutVote(s, m, sigOk).1.value))
    ensures var s' := TimeoutFirst(cfg, s, m, sigOk, apply);
            && Inv(s') && Grows(s.store, s'.store) && Below(s.qcHigh.qc, s'.qcHigh.qc)
            && SameVoting(s.(qcVotes := s'.qcVotes), s')
            && s'.qcVotes == TimeoutVote(s, m, sigOk).0.qcVotes
  {
    hide Good, Tree, SingleChain, GoodPool, Lineage, Linked, Grows, LookupByQC, Update, CastVerified, Found;
    GrowsReflexive(s.store);
    var (s1, qc) := TimeoutVote(s, m, sigOk);
    if qc.Some? {
      FoundForUpdate(s, qc.value);
      QCHighStaysKnown(s, WithNode(s, qc.value));
      UpdateExact(cfg, UpdateQCHigh(s1, WithNode(s1, qc.value)).(nextRef := s1.nextRef + 1), qc.value, apply);
    }
  }

  // ---------------------------------------------------------------- beats, round timeouts, regulate

  /** The checks of OnBeat, OnPropose and CreateLeaf before the leaf is built on `parent`. */
  predicate Proposes(s: Pm, parent: Draft, round: Uint32, prepared: bool) {
    && prepared
    && !(s.epoch.epoch != 0 && round != 0 && (round <= s.qcHigh.qc.round || round <= parent.round))
  }

  function OnBeat(cfg: Config, s: Pm, epoch: nat, round: Uint32, prepared: bool, leaf: Epochs.Leaf): Pm {
    if !AcceptsBeat(s.rounds, s.epoch.committee, cfg.me, s.epoch.epoch, epoch, round) then s
    else
      var s1 := s.(rounds := Beat(s.rounds, s.epoch.committee, cfg.me, s.epoch.epoch, epoch, round),
        nextRef := s.nextRef + 3);
      var parent := LookupByQC(s.store, s.pool, s.qcHigh.qc, s.nextRef + 1);
      if parent.None? || !Proposes(s, parent.value, round, prepared) then s1
      else
        var blk := Epochs.BuildBlock(parent.value.block, s.qcHigh.qc, leaf);
        var bnew := Draft(s.nextRef + 2, blk, blk.Number(), round, parent, Some(s.qcHigh), true);
        if bnew.height <= s.qcHigh.qc.Number() then s1
        else s1.(pool := s1.pool[blk.ID() := bnew], tcHigh := None)
  }

  function OnRoundTimeout(cfg: Config, s: Pm, round: Uint32): Pm {
    s.(rounds := EnterRound(cfg.base, s.rounds, s.epoch.inCommittee, (round + 1) % U32, TimeoutRound))
  }

  /** The certificate Regulate starts from. */
  function RegulateQC(s: Pm): QuorumCert {
    if s.qcHigh.qc.Number() > s.store.bestQC.Number() then s.qcHigh.qc else s.store.bestQC
  }

  /** Regulate; `next` is the epoch found for the new leaf, None when it cannot be computed.  Without a node for the
      certificate the source dereferences nil: the process ends, and the machine stands still. */
  function Regulate(cfg: Config, s: Pm, next: Option<EpochInfo>): Pm {
    var qc := RegulateQC(s);
    var found := LookupByQC(s.store, s.pool, qc, s.nextRef);
    if found.None? then s
    else
      var node := found.value;
      var epoch := if next.Some? then next.value else s.epoch;
      var actualRound := if s.store.best.IsKBlock() then 0 else (qc.round + 1) % U32;
      s.(epoch := epoch,
         qcVotes := if next.Some? then NewTable(|epoch.committee| % U32) else s.qcVotes,
         tcVotes := if next.Some? then NewTable(|epoch.committee| % U32) else s.tcVotes,
         lastCommitted := s.store.best, lastVotingHeight := 0, lastVote := None,
         qcHigh := DraftQC(qc, Some(node)), nextRef := s.nextRef + 1,
         pool := s.pool[node.block.ID() := node],
         rounds := RegulateRounds(cfg.base, s.rounds, epoch.inCommittee, actualRound))
  }

  /** The pacemaker after its first Regulate, on a chain that holds only genesis. */
  function Start(cfg: Config, genesis: Block, escortQC: QuorumCert, epoch: EpochInfo): Pm {
    var store := Store(map[genesis.ID() := genesis], map[0 := genesis.ID()], genesis, escortQC);
    var node := FromStore(genesis, 0, escortQC.round, 0);
    var actualRound := if genesis.IsKBlock() then 0 else (escortQC.round + 1) % U32;
    Pm(store, map[genesis.ID() := node], {}, 1, DraftQC(escortQC, Some(node)), genesis, 0, None,
       RegulateRounds(cfg.base, RoundState(0, 0, cfg.base, -1), epoch.inCommittee, actualRound),
       epoch, NewTable(|epoch.committee| % U32), NewTable(|epoch.committee| % U32), None)
  }

  /** A block that the sync path hands to CommitBlock: its parent is best. */
  ghost function Import(cfg: Config, s: Pm, blk: Block, escortQC: QuorumCert, valid: bool, apply: Executor): Pm
    requires Tree(s.store)
  {
    if s.store.best.ID() != blk.header.parentId || !valid then s
    else CommitBlock(cfg, s, blk, escortQC, apply).0
  }

  // ---------------------------------------------------------------- steps

  datatype Event =
    | Proposal(epoch: nat, proposal: ProposalMsg, qcValid: bool, tcValid: bool, accepted: bool, apply: Executor)
    | Vote(epoch: nat, signer: nat, round: Uint32, blockId: Id, sigOk: bool)
    | Timeout(epoch: nat, timeout: TimeoutMsg, sigOk: bool, wishOk: bool, apply: Executor)
    | BeatAt(epoch: nat, round: Uint32, prepared: bool, leaf: Epochs.Leaf)
    | RoundTimeout(round: Uint32)
    | RegulateNow(next: Option<EpochInfo>)
    | Synced(block: Block, escortQC: QuorumCert, recent: bool, valid: bool, apply: Executor)

  /** The premises on a step: a certificate in a timeout that would be adopted has a known node, and heights stay below
      2^32 - 1. */
  ghost predicate StepOk(cfg: Config, s: Pm, e: Event)
    requires Inv(s)
  {
    match e
    case Proposal(_, m, _, _, _, _) => HeightFits(m)
    case Timeout(epoch, m, sigOk, _, apply) =>
      epoch == s.epoch.epoch && AmIRoundProposer(s.epoch.committee, cfg.me, m.wishRound) ==>
        TimeoutSafe(cfg, s, m, sigOk, apply)
    case BeatAt(_, _, _, _) => s.qcHigh.qc.Number() + 1 < U32
    case _ => true
  }

  /** One turn of the main loop: messages of another epoch are dropped. */
  ghost function Step(cfg: Config, s: Pm, e: Event): Pm
    requires Inv(s) && StepOk(cfg, s, e)
  {
    match e
    case Proposal(epoch, m, qcValid, tcValid, accepted, apply) =>
      if epoch != s.epoch.epoch then s else OnReceiveProposal(cfg, s, m, qcValid, tcValid, accepted, apply)
    case Vote(epoch, signer, round, blockId, sigOk) =>
      if epoch != s.epoch.epoch then s else OnReceiveVote(cfg, s, signer, round, blockId, sigOk)
    case Timeout(epoch, m, sigOk, wishOk, apply) =>
      if epoch != s.epoch.epoch then s else OnReceiveTimeout(cfg, s, m, sigOk, wishOk, apply)
    case BeatAt(epoch, round, prepared, leaf) => OnBeat(cfg, s, epoch, round, prepared, leaf)
    case RoundTimeout(round) => OnRoundTimeout(cfg, s, round)
    case RegulateNow(next) => Regulate(cfg, s, next)
    case Synced(blk, qc, _, valid, apply) => Import(cfg, s, blk, qc, valid, apply)
  }

  // ---------------------------------------------------------------- what one step keeps

  /** The vote that a step records, if it records one. */
  ghost function Recorded(s: Pm, e: Event): Option<CastVote> {
    match e
    case Proposal(epoch, m, qcValid, tcValid, accepted, _) =>
      if epoch == s.epoch.epoch && PoolOk(s) && RecordsVote(s, m, qcValid, tcValid, accepted)
        then Some(CastVote(m.round, m.block.ID())) else None
    case _ => None
  }

  /** From s to s' in one step. */
  ghost predicate Advances(s: Pm, e: Event, s': Pm) {
    && Inv(s')
    && Grows(s.store, s'.store)
    && s.qcHigh.qc.Number() <= s'.qcHigh.qc.Number()
    && (!e.RegulateNow? ==>
        && Below(s.qcHigh.qc, s'.qcHigh.qc)
        && s'.epoch == s.epoch
        && s.lastVotingHeight <= s'.lastVotingHeight)
    && (Recorded(s, e).Some? ==>
        && s'.lastVote == Recorded(s, e)
        && s'.lastVotingHeight == Recorded(s, e).value.blockId.number
        && s.lastVotingHeight <= s'.lastVotingHeight
        && (NamesItsParent(e.proposal) ==> Extends(e.proposal.block.header, s'.lastCommitted.header)))
    && (Recorded(s, e).None? && !e.RegulateNow? ==>
        s'.lastVote == s.lastVote && s'.lastVotingHeight == s.lastVotingHeight)
  }

  lemma BelowRefl(s: Pm)
    requires Inv(s)
    ensures Below(s.qcHigh.qc, s.qcHigh.qc) && Grows(s.store, s.store)
  {
    GrowsReflexive(s.store);
  }

  lemma ProposalKept(cfg: Config, s: Pm, e: Event)
    requires Inv(s) && e.Proposal? && StepOk(cfg, s, e)
    ensures Advances(s, e, Step(cfg, s, e))
  {
    hide StoreOk, PoolOk, HighOk, HighKnown, Grows, Extends, OnReceiveProposal, AcceptsProposal, MayVote, NewDraft,
         Lookup, StaysOnLine, Update, EnterRound;
    BelowRefl(s);
    if e.epoch == s.epoch.epoch {
      if RecordsVote(s, e.proposal, e.qcValid, e.tcValid, e.accepted) {
        VoteExtendsCommitted(cfg, s, e.proposal, e.qcValid, e.tcValid, e.accepted, e.apply);
        VotingKeeps(cfg, s, e);
      } else {
        QuietProposal(cfg, s, e);
      }
    }
  }

  /** A step that records a vote is Update, then the vote, then the next round unless a KBlock was committed. */
  lemma VotingStep(cfg: Config, s: Pm, e: Event)
    requires Inv(s) && e.Proposal? && HeightFits(e.proposal)
    requires RecordsVote(s, e.proposal, e.qcValid, e.tcValid, e.accepted)
    ensures Inv(Placed(s, NewDraft(s, e.proposal)))
    ensures var m := e.proposal;
            var (u, last) := Update(cfg, Placed(s, NewDraft(s, m)), m.block.qc, e.apply);
            var s' := OnReceiveProposal(cfg, s, m, e.qcValid, e.tcValid, e.accepted, e.apply);
            && Inv(u) && Grows(s.store, u.store) && Below(s.qcHigh.qc, u.qcHigh.qc) && SameVoting(s, u)
            && s' == u.(lastVote := Some(CastVote(m.round, m.block.ID())), lastVotingHeight := m.block.ID().number,
               rounds := s'.rounds)
            && s'.rounds == if last.Some? && last.value.IsKBlock() then s.rounds
                            else EnterRound(cfg.base, s.rounds, s.epoch.inCommittee, (m.round + 1) % U32, RegularRound)
  {
    hide Good, Tree, SingleChain, GoodPool, Lineage, Linked, Grows, LookupByQC, Lookup, MeetsWithin, Extends, Update,
         UncommittedTxs, AcceptsProposal, EnterRound, Below, Found, HighOk, Shrinks, PrefixCommitted;
    var m := e.proposal;
    ProposalDraft(s, m, e.qcValid, e.tcValid, e.accepted);
    UpdateExact(cfg, Placed(s, NewDraft(s, m)), m.block.qc, e.apply);
  }

  lemma VotingKeeps(cfg: Config, s: Pm, e: Event)
    requires Inv(s) && e.Proposal? && HeightFits(e.proposal)
    requires RecordsVote(s, e.proposal, e.qcValid, e.tcValid, e.accepted)
    ensures var s' := OnReceiveProposal(cfg, s, e.proposal, e.qcValid, e.tcValid, e.accepted, e.apply);
            Inv(s') && Grows(s.store, s'.store) && Below(s.qcHigh.qc, s'.qcHigh.qc) && s'.epoch == s.epoch
  {
    hide Good, SingleChain, GoodPool, Found, Lookup, Update, OnReceiveProposal, UncommittedTxs, MayVote, Grows, Below,
         Tree, EnterRound;
    VotingStep(cfg, s, e);
    VotingLeavesInv(Update(cfg, Placed(s, NewDraft(s, e.proposal)), e.proposal.block.qc, e.apply).0,
                    OnReceiveProposal(cfg, s, e.proposal, e.qcValid, e.tcValid, e.accepted, e.apply));
  }

  /** The invariant does not look at votes or rounds. */
  lemma VotingLeavesInv(u: Pm, s': Pm)
    requires Inv(u) && s' == u.(lastVote := s'.lastVote, lastVotingHeight := s'.lastVotingHeight, rounds := s'.rounds)
    ensures Inv(s')
  {
    hide Good, Tree, SingleChain, GoodPool, Found;
  }

  lemma QuietProposal(cfg: Config, s: Pm, e: Event)
    requires Inv(s) && e.Proposal? && HeightFits(e.proposal)
    requires !RecordsVote(s, e.proposal, e.qcValid, e.tcValid, e.accepted)
    ensures var s' := OnReceiveProposal(cfg, s, e.proposal, e.qcValid, e.tcValid, e.accepted, e.apply);
            Inv(s') && s' == s.(nextRef := s'.nextRef, pool := s'.pool)
  {
    hide Good, Tree, SingleChain, GoodPool, Lineage, Linked, LookupByQC, Lookup, MeetsWithin, Update, UncommittedTxs,
         AcceptsProposal, EnterRound;
    if AcceptsProposal(s, e.proposal, e.qcValid, e.tcValid, e.accepted) {
      ProposalDraft(s, e.proposal, e.qcValid, e.tcValid, e.accepted);
    }
  }

  lemma VoteKept(cfg: Config, s: Pm, e: Event)
    requires Inv(s) && e.Vote?
    ensures Advances(s, e, Step(cfg, s, e))
  {
    hide Good, Tree, SingleChain, GoodPool, Lineage, Linked, Grows, EnterRound, CastVerified, Lookup, Found;
    BelowRefl(s);
    if e.epoch == s.epoch.epoch && CountsVote(cfg, s, e.round, e.blockId) {
      var b := Lookup(s.store, s.pool, e.blockId, s.nextRef);
      LookupGood(s.store, s.pool, e.blockId, s.nextRef);
      GoodNumber(s.store, b.value);
      var cert := CastVerified(s.qcVotes, QCKey(e.round, e.blockId), e.signer, e.sigOk).1;
      if cert.Some? {
        FoundByRound(s.store, s.pool, CertOf(s, e.round, e.blockId, cert.value), s.nextRef);
        QCHighStaysKnown(s, DraftQC(CertOf(s, e.round, e.blockId, cert.value), b));
      }
    }
  }

  /** A draft found by id at the certificate's round is found by the certificate too. */
  lemma FoundByRound(s: Store, pool: Pool, qc: QuorumCert, ref: nat)
    requires var b := Lookup(s, pool, qc.blockId, ref); b.Some? && b.value.round == qc.round
    ensures Found(s, pool, qc)
  {
  }

  lemma TimeoutKept(cfg: Config, s: Pm, e: Event)
    requires Inv(s) && e.Timeout? && StepOk(cfg, s, e)
    ensures Advances(s, e, Step(cfg, s, e))
  {
    hide Good, Tree, SingleChain, GoodPool, Lineage, Linked, Grows, LookupByQC, TimeoutFirst, CastVerified, Found;
    BelowRefl(s);
    if e.epoch == s.epoch.epoch && AmIRoundProposer(s.epoch.committee, cfg.me, e.timeout.wishRound) {
      TimeoutFirstKeeps(cfg, s, e.timeout, e.sigOk, e.apply);
      var s1 := TimeoutFirst(cfg, s, e.timeout, e.sigOk, e.apply);
      FoundForUpdate(s1, e.timeout.qcHigh);
      QCHighStaysKnown(s1, WithNode(s1, e.timeout.qcHigh));
    }
  }

  lemma BeatKept(cfg: Config, s: Pm, e: Event)
    requires Inv(s) && e.BeatAt? && StepOk(cfg, s, e)
    ensures Advances(s, e, Step(cfg, s, e))
  {
    hide Tree, SingleChain, Lineage, Linked, Grows, Beat, AcceptsBeat;
    BelowRefl(s);
    LookupByQCMatches(s.store, s.pool, s.qcHigh.qc, s.nextRef + 1);
  }

  lemma RegulateKept(cfg: Config, s: Pm, e: Event)
    requires Inv(s) && e.RegulateNow? && StepOk(cfg, s, e)
    ensures Advances(s, e, Step(cfg, s, e))
  {
    hide Good, Tree, SingleChain, Lineage, Linked, Grows, LookupByQC, RegulateRounds;
    BelowRefl(s);
    LookupByQCMatches(s.store, s.pool, RegulateQC(s), s.nextRef);
  }

  lemma SyncedKept(cfg: Config, s: Pm, e: Event)
    requires Inv(s) && e.Synced? && StepOk(cfg, s, e)
    ensures Advances(s, e, Step(cfg, s, e))
  {
    hide Good, Tree, SingleChain, GoodPool, Lineage, Linked, Grows, CommitBlock, Found;
    BelowRefl(s);
    CommitBlockExact(cfg, s, e.block, e.escortQC, e.apply);
    var s' := Step(cfg, s, e);
    PoolSurvives(s.store, s'.store, s.pool);
    HighSurvives(s, s');
    KnownSurvives(s, s', 0);
  }

  lemma StepKept(cfg: Config, s: Pm, e: Event)
    requires Inv(s) && StepOk(cfg, s, e)
    ensures Advances(s, e, Step(cfg, s, e))
  {
    hide Advances, Step, StepOk, Inv, PoolOk;
    match e
    case Proposal(_, _, _, _, _, _) => ProposalKept(cfg, s, e);
    case Vote(_, _, _, _, _) => VoteKept(cfg, s, e);
    case Timeout(_, _, _, _, _) => TimeoutKept(cfg, s, e);
    case BeatAt(_, _, _, _) => BeatKept(cfg, s, e);
    case RoundTimeout(_) => RoundTimeoutKept(cfg, s, e);
    case RegulateNow(_) => RegulateKept(cfg, s, e);
    case Synced(_, _, _, _, _) => SyncedKept(cfg, s, e);
  }

  lemma RoundTimeoutKept(cfg: Config, s: Pm, e: Event)
    requires Inv(s) && e.RoundTimeout?
    ensures Advances(s, e, Step(cfg, s, e))
  {
    hide Good, Tree, SingleChain, GoodPool, Lineage, Linked, Grows, EnterRound;
    BelowRefl(s);
  }

  // ---------------------------------------------------------------- runs

  /** A step of a run.  It says nothing about states outside the invariant: RunKept shows that no run gets there. */
  ghost predicate Next(cfg: Config, s: Pm, e: Event, s': Pm) {
    Inv(s) ==> StepOk(cfg, s, e) && s' == Step(cfg, s, e)
  }

  ghost predicate Run(cfg: Config, states: seq<Pm>, events: seq<Event>) {
    && |states| == |events| + 1
    && Inv(states[0])
    && forall i | 0 <= i < |events| :: Next(cfg, states[i], events[i], states[i + 1])
  }

  /** Every state of every run satisfies the invariant, and every step keeps what Advances says. */
  lemma {:induction false} RunKept(cfg: Config, states: seq<Pm>, events: seq<Event>, i: nat)
    requires Run(cfg, states, events) && i <= |events|
    ensures Inv(states[i])
    ensures i < |events| ==> Advances(states[i], events[i], states[i + 1])
  {
    hide Inv, Step, StepOk, PoolOk;
    if i > 0 {
      RunKept(cfg, states, events, i - 1);
    }
    if i < |events| {
      hide Advances;
      assert Next(cfg, states[i], events[i], states[i + 1]);
      StepKept(cfg, states[i], events[i]);
    }
  }

  /** No Regulate among the events from i up to j. */
  ghost predicate Quiet(events: seq<Event>, i: nat, j: nat)
    requires i <= j <= |events|
  {
    forall k | i <= k < j :: !events[k].RegulateNow?
  }

  /** Over any stretch of any run the committed chain only grows and the height of QCHigh never decreases; between
      Regulates QCHigh never decreases in (height, round), and neither does the height voted for. */
  lemma {:induction false} RunsOnlyAdvance(cfg: Config, states: seq<Pm>, events: seq<Event>, i: nat, j: nat)
    requires Run(cfg, states, events) && i <= j <= |events|
    ensures Grows(states[i].store, states[j].store)
    ensures states[i].qcHigh.qc.Number() <= states[j].qcHigh.qc.Number()
    ensures Quiet(events, i, j) ==>
              && Below(states[i].qcHigh.qc, states[j].qcHigh.qc)
              && states[i].lastVotingHeight <= states[j].lastVotingHeight
              && states[i].epoch == states[j].epoch
    decreases j
  {
    hide Inv, Next, Grows, PoolOk;
    RunKept(cfg, states, events, i);
    if i == j {
      GrowsReflexive(states[i].store);
    } else {
      RunsOnlyAdvance(cfg, states, events, i, j - 1);
      RunKept(cfg, states, events, j - 1);
      GrowsTransitive(states[i].store, states[j - 1].store, states[j].store);
    }
  }

  /** In every reachable state the node of QCHigh is the block its certificate names, at its height and round, that
      block can be found, and the store is one chain over genesis whose head is lastCommitted. */
  lemma ReachableStates(cfg: Config, genesis: Block, escortQC: QuorumCert, epoch: EpochInfo, states: seq<Pm>,
                        events: seq<Event>, i: nat)
    requires GenesisBlock(genesis, escortQC)
    requires Run(cfg, states, events) && states[0] == Start(cfg, genesis, escortQC, epoch) && i <= |events|
    ensures var s := states[i];
            && s.qcHigh.node.Some? && Matches(s.qcHigh.node.value, s.qcHigh.qc)
            && Found(s.store, s.pool, s.qcHigh.qc)
            && SingleChain(s.store)
            && Lineage(s.store.best.header)[0] == genesis.header
            && s.lastCommitted == s.store.best
  {
    hide Lineage, Linked, Tree, SingleChain, Next, Good, GoodPool, EnterRound;
    RunKept(cfg, states, events, i);
    RunsOnlyAdvance(cfg, states, events, 0, i);
    RootKept(genesis.header, states[i].store.best.header);
  }

  lemma RootKept(genesis: Header, h: Header)
    requires !genesis.parentId.Digest? && Lineage(genesis) <= Lineage(h)
    ensures Lineage(h)[0] == genesis
  {
    assert Lineage(genesis) == [genesis];
  }

  ghost predicate GenesisBlock(genesis: Block, escortQC: QuorumCert) {
    && genesis.Number() == 0
    && !genesis.header.parentId.Digest?
    && escortQC.blockId == genesis.ID()
  }

  lemma StartInv(cfg: Config, genesis: Block, escortQC: QuorumCert, epoch: EpochInfo)
    requires GenesisBlock(genesis, escortQC)
    ensures Inv(Start(cfg, genesis, escortQC, epoch))
  {
    var s := Start(cfg, genesis, escortQC, epoch);
    assert Lineage(genesis.header) == [genesis.header];
    assert TreeNode(s.store, genesis.ID());
    hide RegulateRounds;
    assert Good(s.store, s.qcHigh.node.value);
  }

  /** A pacemaker on a chain that holds only genesis, before its first Regulate. */
  function Unstarted(cfg: Config, genesis: Block, escortQC: QuorumCert, epoch: EpochInfo): Pm {
    Pm(Store(map[genesis.ID() := genesis], map[0 := genesis.ID()], genesis, escortQC), map[], {}, 0,
       DraftQC(escortQC, None), genesis, 0, None, RoundState(0, 0, cfg.base, -1), epoch, NewTable(0), NewTable(0), None)
  }

  /** The start of a run is what the first Regulate leaves. */
  lemma StartIsRegulated(cfg: Config, genesis: Block, escortQC: QuorumCert, epoch: EpochInfo)
    requires GenesisBlock(genesis, escortQC)
    ensures Start(cfg, genesis, escortQC, epoch) ==
              Regulate(cfg, Unstarted(cfg, genesis, escortQC, epoch), Some(epoch))
  {
    hide RegulateRounds;
  }

  // ---------------------------------------------------------------- one vote per height

  /** The step records a vote for a block of the height voted for last, but not for that block. */
  ghost predicate Resigns(s: Pm, e: Event) {
    var v := Recorded(s, e);
    && v.Some? && s.lastVote.Some?
    && v.value.blockId.number == s.lastVote.value.blockId.number
    && v.value.blockId != s.lastVote.value.blockId
  }

  /** All votes recorded from i up to j for one height are for one block. */
  ghost predicate SingleVotes(states: seq<Pm>, events: seq<Event>, i: nat, j: nat)
    requires i <= j <= |events| < |states|
  {
    forall a, b {:trigger Recorded(states[a], events[a]), Recorded(states[b], events[b])} | i <= a < b < j ::
      var v, w := Recorded(states[a], events[a]), Recorded(states[b], events[b]);
      v.Some? && w.Some? && v.value.blockId.number == w.value.blockId.number ==> v.value.blockId == w.value.blockId
  }

  /** The voting guard compares heights with >=, so it does not stop a second vote at one height.  Between Regulates a
      node votes for one block per height exactly when no step re-signs: when a proposal at the height voted for last is
      always the block voted for last. */
  lemma SingleVoteExactlyWhen(cfg: Config, states: seq<Pm>, events: seq<Event>, i: nat, j: nat)
    requires Run(cfg, states, events) && i <= j <= |events| && Quiet(events, i, j)
    requires states[i].lastVote.None?
    ensures SingleVotes(states, events, i, j) <==> forall k | i <= k < j :: !Resigns(states[k], events[k])
  {
    assert |states| == |events| + 1;
    hide Run, Recorded;
    if SingleVotes(states, events, i, j) {
      forall k | i <= k < j ensures !Resigns(states[k], events[k]) {
        if Resigns(states[k], events[k]) {
          var a := LastVoteSource(cfg, states, events, i, k);
          assert false;
        }
      }
    }
    if forall k | i <= k < j :: !Resigns(states[k], events[k]) {
      forall a, b | i <= a < b < j && Recorded(states[a], events[a]).Some?
        ensures var v, w := Recorded(states[a], events[a]), Recorded(states[b], events[b]);
                w.Some? && v.value.blockId.number == w.value.blockId.number ==> v.value.blockId == w.value.blockId
      {
        VoteStands(cfg, states, events, a, b);
        assert !Resigns(states[b], events[b]);
      }
    }
  }

  /** The last vote was recorded by a step since i. */
  lemma {:induction false} LastVoteSource(cfg: Config, states: seq<Pm>, events: seq<Event>, i: nat, k: nat)
                                          returns (a: nat)
    requires Run(cfg, states, events) && i <= k <= |events| && Quiet(events, i, k)
    requires states[i].lastVote.None? && states[k].lastVote.Some?
    ensures i <= a < k && Recorded(states[a], events[a]) == states[k].lastVote
    decreases k
  {
    hide Inv, Next, Recorded, Grows, Below;
    RunKept(cfg, states, events, k - 1);
    if Recorded(states[k - 1], events[k - 1]).Some? {
      a := k - 1;
    } else {
      a := LastVoteSource(cfg, states, events, i, k - 1);
    }
  }

  /** After a recorded vote, as long as no step re-signs, the last vote is higher or is that vote's block. */
  lemma {:induction false} VoteStands(cfg: Config, states: seq<Pm>, events: seq<Event>, a: nat, k: nat)
    requires Run(cfg, states, events) && a < k <= |events| && Quiet(events, a, k)
    requires Recorded(states[a], events[a]).Some?
    requires forall b | a < b < k :: !Resigns(states[b], events[b])
    ensures var v, last := Recorded(states[a], events[a]).value, states[k].lastVote;
            && last.Some? && states[k].lastVotingHeight == last.value.blockId.number >= v.blockId.number
            && (last.value.blockId.number == v.blockId.number ==> last.value.blockId == v.blockId)
    ensures k < |events| && Recorded(states[k], events[k]).Some? ==>
              Recorded(states[k], events[k]).value.blockId.number >= states[k].lastVotingHeight
    decreases k
  {
    hide Inv, Next, Recorded, Grows, Below;
    RunKept(cfg, states, events, k - 1);
    RunKept(cfg, states, events, k);
    if a < k - 1 {
      VoteStands(cfg, states, events, a, k - 1);
      assert !Resigns(states[k - 1], events[k - 1]);
    }
  }

  /** A proposal for height 1; its nonce tells it from others. */
  function FirstBlock(genesis: Block, escortQC: QuorumCert, nonce: nat): Block {
    Epochs.BuildBlock(genesis, escortQC, Epochs.Leaf(0, nonce, 0, [], 0, 0, None))
  }

  function ProposeFirst(genesis: Block, escortQC: QuorumCert, epoch: EpochInfo, nonce: nat): Event
    requires escortQC.round + 1 < U32
  {
    Proposal(epoch.epoch, ProposalMsg(FirstBlock(genesis, escortQC, nonce), escortQC.round + 1), true, true, true,
      (b: Block) => true)
  }

  /** From every start, two well-formed proposals of one height are both voted for. */
  lemma TwoVotesAtOneHeight(cfg: Config, genesis: Block, escortQC: QuorumCert, epoch: EpochInfo)
                            returns (states: seq<Pm>, events: seq<Event>)
    requires GenesisBlock(genesis, escortQC) && escortQC.round + 1 < U32
    ensures Run(cfg, states, events) && states[0] == Start(cfg, genesis, escortQC, epoch)
    ensures Quiet(events, 0, |events|) && !SingleVotes(states, events, 0, |events|)
  {
    hide Inv, Step, StepOk, Recorded, Advances, Start, PoolOk;
    var e1, e2 := ProposeFirst(genesis, escortQC, epoch, 1), ProposeFirst(genesis, escortQC, epoch, 2);
    var s0 := Start(cfg, genesis, escortQC, epoch);
    StartAtGenesis(cfg, genesis, escortQC, epoch);
    VotesOnFirst(cfg, s0, genesis, escortQC, epoch, 1);
    var s1 := Step(cfg, s0, e1);
    VotesOnFirst(cfg, s1, genesis, escortQC, epoch, 2);
    events := [e1, e2];
    states := [s0, s1, Step(cfg, s1, e2)];
    assert Next(cfg, states[0], events[0], states[1]) && Next(cfg, states[1], events[1], states[2]);
    assert Recorded(states[0], events[0]).Some? && Recorded(states[1], events[1]).Some?;
  }

  lemma StartAtGenesis(cfg: Config, genesis: Block, escortQC: QuorumCert, epoch: EpochInfo)
    requires GenesisBlock(genesis, escortQC)
    ensures AtGenesis(Start(cfg, genesis, escortQC, epoch), genesis, escortQC, epoch)
  {
    hide Inv;
    StartInv(cfg, genesis, escortQC, epoch);
  }

  /** A state in which only genesis is committed and known by its certificate, and nothing above height 1
      was voted for. */
  ghost predicate AtGenesis(s: Pm, genesis: Block, escortQC: QuorumCert, epoch: EpochInfo) {
    && Inv(s)
    && s.lastCommitted == genesis && s.epoch == epoch && s.lastVotingHeight <= 1
    && genesis.ID() in s.pool && s.pool[genesis.ID()] == FromStore(genesis, 0, escortQC.round, 0)
  }

  lemma VotesOnFirst(cfg: Config, s: Pm, genesis: Block, escortQC: QuorumCert, epoch: EpochInfo, nonce: nat)
    requires GenesisBlock(genesis, escortQC) && escortQC.round + 1 < U32 && AtGenesis(s, genesis, escortQC, epoch)
    ensures var e := ProposeFirst(genesis, escortQC, epoch, nonce);
            && StepOk(cfg, s, e)
            && Recorded(s, e) == Some(CastVote(escortQC.round + 1, FirstBlock(genesis, escortQC, nonce).ID()))
            && AtGenesis(Step(cfg, s, e), genesis, escortQC, epoch)
  {
    hide Good, GoodPool, SingleChain, Tree, EnterRound;
    var e := ProposeFirst(genesis, escortQC, epoch, nonce);
    var m := e.proposal;
    assert AcceptsProposal(s, m, true, true, true);
    var d := NewDraft(s, m);
    assert MeetsWithin(d.parent.value, genesis.ID(), 9);
    assert MayVote(s, d);
    StepKept(cfg, s, e);
  }

  // ---------------------------------------------------------------- what the handlers mean

  /** A vote raises QCHigh exactly when it completes a certificate above QCHigh; the new QCHigh then is the certificate
      of the voted block by exactly the signers collected, its node is that block's draft, and the round moves
      past it. */
  lemma VoteRaisesQCHigh(cfg: Config, s: Pm, signer: nat, round: Uint32, blockId: Id, sigOk: bool)
    requires Inv(s) && CountsVote(cfg, s, round, blockId)
    ensures var s' := OnReceiveVote(cfg, s, signer, round, blockId, sigOk);
            var cert := CastVerified(s.qcVotes, QCKey(round, blockId), signer, sigOk).1;
            && (cert.Some? && !Below(CertOf(s, round, blockId, cert.value), s.qcHigh.qc) ==>
                && s'.qcHigh.qc == QuorumCert(s.epoch.epoch, round, blockId, cert.value.Keys)
                && s'.qcHigh.node.Some? && s'.qcHigh.node.value.block.ID() == blockId
                && (s.epoch.inCommittee && round + 1 < U32 ==> s'.rounds.currentRound > round))
            && (cert.None? || Below(CertOf(s, round, blockId, cert.value), s.qcHigh.qc) ==>
                s'.qcHigh == s.qcHigh && s'.rounds == s.rounds)
  {
    hide Good, Tree, SingleChain, GoodPool, Lineage, Linked, CastVerified, Lookup, ResetRoundTimer;
    LookupGood(s.store, s.pool, blockId, s.nextRef);
  }

  /** A wish for a round makes a new TCHigh exactly when it takes the distinct signers of (epoch, round) across two
      thirds; the certificate then holds exactly those signers, so its count passes a receiver's check. */
  lemma TimeoutFormsTC(s: Pm, m: TimeoutMsg, wishOk: bool, signers: set<nat>)
    requires Agrees(s.tcVotes, signers, TCKey(s.epoch.epoch, m.wishRound))
    ensures var s' := TimeoutWish(s, m, wishOk);
            var now := if wishOk then signers + {m.signer} else signers;
            var n := s.tcVotes.committeeSize;
            && Agrees(s'.tcVotes, now, TCKey(s.epoch.epoch, m.wishRound))
            && s'.tcHigh == if MajorityTwoThird(|now|, n) && !MajorityTwoThird(|signers|, n)
                            then Some(TimeoutCert(s.epoch.epoch, m.wishRound, now)) else s.tcHigh
  {
    hide MajorityTwoThird, AddVote, Agrees;
    if wishOk {
      OneOperation(s.tcVotes, signers, Add(TCKey(s.epoch.epoch, m.wishRound), m.signer, (), true),
        TCKey(s.epoch.epoch, m.wishRound));
    }
  }

  /** A beat changes at most one draft: a proposal on the block QCHigh certifies, one higher, carrying that certificate,
      and in a later epoch of a later round than the certificate. */
  lemma BeatProposes(cfg: Config, s: Pm, epoch: nat, round: Uint32, prepared: bool, leaf: Epochs.Leaf, id: Id)
    requires Inv(s) && s.qcHigh.qc.Number() + 1 < U32
    ensures var s' := OnBeat(cfg, s, epoch, round, prepared, leaf);
            && (id in s.pool ==> id in s'.pool)
            && (id in s'.pool && (id !in s.pool || s'.pool[id] != s.pool[id]) ==>
                var d := s'.pool[id];
                && AmIRoundProposer(s.epoch.committee, cfg.me, round)
                && d.block.header.parentId == s.qcHigh.qc.blockId && d.block.qc == s.qcHigh.qc
                && d.height == s.qcHigh.qc.Number() + 1 && d.round == round
                && (s.epoch.epoch != 0 && round != 0 ==> round > s.qcHigh.qc.round))
  {
    hide Tree, SingleChain, Lineage, Linked, Beat, GoodPool;
    LookupByQCMatches(s.store, s.pool, s.qcHigh.qc, s.nextRef + 1);
  }

  /** Regulate takes the higher of QCHigh and bestQC. */
  lemma RegulateTakesHigher(cfg: Config, s: Pm, next: Option<EpochInfo>)
    requires Inv(s) && Found(s.store, s.pool, RegulateQC(s))
    ensures var s' := Regulate(cfg, s, next);
            && s'.qcHigh.qc in {s.qcHigh.qc, s.store.bestQC}
            && s.qcHigh.qc.Number() <= s'.qcHigh.qc.Number() && s.store.bestQC.Number() <= s'.qcHigh.qc.Number()
            && s'.qcHigh.node.Some? && Matches(s'.qcHigh.node.value, s'.qcHigh.qc)
  {
    hide Good, Tree, SingleChain, Lineage, Linked, LookupByQC, RegulateRounds, GoodPool;
    FoundMeans(s.store, s.pool, RegulateQC(s), s.nextRef);
    LookupByQCMatches(s.store, s.pool, RegulateQC(s), s.nextRef);
  }

  /** The beat that Regulate schedules is accepted by its proposer, except for round 2^31, where the 32-bit signed
      comparison turns over. */
  lemma RegulatedBeatAccepted(base: nat, s: RoundState, committee: seq<PubKey>, me: PubKey, inCommittee: bool,
                              epoch: nat, actualRound: Uint32)
    ensures var s' := RegulateRounds(base, s, inCommittee, actualRound);
            AcceptsBeat(s', committee, me, epoch, epoch, actualRound) <==>
              AmIRoundProposer(committee, me, actualRound) && actualRound != I31
  {
    hide ResetRoundTimer;
    RegulatedBeatRound(base, s, inCommittee, actualRound);
  }

  lemma RegulatedBeatRound(base: nat, s: RoundState, inCommittee: bool, actualRound: Uint32)
    ensures RegulateRounds(base, s, inCommittee, actualRound).lastOnBeatRound == WrapInt32(ToInt32(actualRound) - 1)
  {
  }

  /** A vote is counted exactly when it is this node's turn in the next round, the voted block is known at the vote's
      round, and, read without wrap-around, that round is at most one behind; in round 0 only votes for round 0, and for
      the last representable round, are counted. */
  lemma CurrentVotes(cfg: Config, s: Pm, round: Uint32, blockId: Id)
    ensures CountsVote(cfg, s, round, blockId) <==>
              && (if s.rounds.currentRound == 0 then round == 0 || round == U32 - 1
                  else s.rounds.currentRound <= round + 1)
              && s.epoch.committee != [] && s.epoch.committee[(round + 1) % U32 % |s.epoch.committee|] == cfg.me
              && var b := Lookup(s.store, s.pool, blockId, s.nextRef); b.Some? && b.value.round == round
  {
    hide Lookup;
    var c := s.rounds.currentRound;
    assert (c + U32 - 1) % U32 == if c == 0 then U32 - 1 else c - 1;
  }

  /** An accepted proposal above round 0 has a higher round than its parent, unless the parent is a KBlock or holds the
      last representable round; it skips rounds only with a timeout certificate. */
  lemma AcceptedRoundsIncrease(s: Pm, m: ProposalMsg, qcValid: bool, tcValid: bool, accepted: bool)
    requires PoolOk(s) && AcceptsProposal(s, m, qcValid, tcValid, accepted) && m.round > 0
    ensures var parent := Lookup(s.store, s.pool, m.block.header.parentId, s.nextRef);
            && parent.Some?
            && (!parent.value.block.IsKBlock() && parent.value.round + 1 < U32 ==> parent.value.round < m.round)
            && (!tcValid && parent.value.round + 1 < U32 ==> m.round == parent.value.round + 1)
  {
    hide Lookup, GoodPool, UncommittedTxs;
    var parent := Lookup(s.store, s.pool, m.block.header.parentId, s.nextRef);
    assert parent.value.round + 1 < U32 ==> (parent.value.round + 1) % U32 == parent.value.round + 1;
  }

  // ---------------------------------------------------------------- no transaction twice

  /** `a` is reached from `from` by parent ids through drafts that are not committed. */
  ghost predicate OnUncommittedPath(s: Pm, from: Id, a: Id)
    requires PoolOk(s)
    decreases from
  {
    && from in s.pool && !IsCommitted(s, s.pool[from])
    && (a == from || (assert s.pool[from].block.ID() == from; OnUncommittedPath(s, s.pool[from].block.header.parentId,
       a)))
  }

  lemma {:induction false} PathTxsCollected(s: Pm, from: Id, a: Id)
    requires PoolOk(s) && OnUncommittedPath(s, from, a)
    ensures a in s.pool && forall tx | tx in s.pool[a].block.txs :: tx in UncommittedTxs(s, from)
    decreases from
  {
    assert s.pool[from].block.ID() == from;
    if a != from {
      PathTxsCollected(s, s.pool[from].block.header.parentId, a);
    }
  }

  /** An accepted proposal shares no transaction with any uncommitted draft below it. */
  lemma NoTransactionTwice(s: Pm, m: ProposalMsg, qcValid: bool, tcValid: bool, accepted: bool, a: Id)
    requires PoolOk(s) && AcceptsProposal(s, m, qcValid, tcValid, accepted)
    requires OnUncommittedPath(s, m.block.header.parentId, a)
    ensures a in s.pool && forall tx | tx in s.pool[a].block.txs :: tx !in m.block.txs
  {
    hide UncommittedTxs, GoodPool, Lookup;
    PathTxsCollected(s, m.block.header.parentId, a);
  }
}
