/** The pacemaker as the source has it: one object whose methods update its fields and the chain and proposal map it
    holds. Every method is proved to do what the state machine does. */
module Pacemakers {
  import opened Blocks
  import opened ChainStore
  import opened Drafts
  import opened Rounds
  import opened Votes
  import opened PacemakerMachine
  import opened PacemakerRuns
  import Epochs

  class Pacemaker {
    const cfg: Config
    const chain: Chain
    const drafts: ProposalMap
    var nextRef: nat
    var qcHigh: DraftQC
    var lastCommitted: Block
    var lastVotingHeight: Uint32
    var lastVoteMsg: Option<CastVote>
    var currentRound: Uint32
    var timeoutCounter: nat
    var interval: int
    var lastOnBeatRound: int
    var epochState: EpochInfo
    var qcVotes: Table<QCKey, ()>
    var tcVotes: Table<TCKey, ()>
    var tcHigh: Option<TimeoutCert>

    ghost predicate Wired() {
      chain.precedes == cfg.precedes
    }

    ghost function Round(): RoundState
      reads this
    {
      RoundState(currentRound, timeoutCounter, interval, lastOnBeatRound)
    }

    ghost function State(): Pm
      reads this, chain, drafts
    {
      Pm(chain.State(), drafts.proposals, drafts.committed, nextRef, qcHigh, lastCommitted, lastVotingHeight,
         lastVoteMsg, Round(), epochState, qcVotes, tcVotes, tcHigh)
    }

    /** A pacemaker on a chain that holds only genesis, after its first Regulate. */
    constructor (cfg: Config, genesis: Block, escortQC: QuorumCert, epoch: EpochInfo)
      requires GenesisBlock(genesis, escortQC)
      ensures Wired() && fresh(chain) && fresh(drafts)
      ensures State() == PacemakerRuns.Start(cfg, genesis, escortQC, epoch) && this.cfg == cfg
      ensures Inv(State())
    {
      StartInv(cfg, genesis, escortQC, epoch);
      this.cfg := cfg;
      var c := new Chain(genesis, escortQC, cfg.precedes);
      var pm := new ProposalMap();
      var node := FromStore(genesis, 0, escortQC.round, 0);
      pm.Add(node);
      chain, drafts := c, pm;
      nextRef := 1;
      qcHigh := DraftQC(escortQC, Some(node));
      lastCommitted := genesis;
      lastVotingHeight, lastVoteMsg := 0, None;
      epochState := epoch;
      qcVotes, tcVotes := NewTable(|epoch.committee| % U32), NewTable(|epoch.committee| % U32);
      tcHigh := None;
      var actualRound := if genesis.IsKBlock() then 0 else (escortQC.round + 1) % U32;
      var rounds := RegulateRounds(cfg.base, RoundState(0, 0, cfg.base, -1), epoch.inCommittee, actualRound);
      currentRound, timeoutCounter := rounds.currentRound, rounds.timeoutCounter;
      interval, lastOnBeatRound := rounds.interval, rounds.lastOnBeatRound;
    }

    // -------------------------------------------------------------- rounds

    method ResetRoundTimer(rtype: RoundType)
      modifies this`timeoutCounter, this`interval
      ensures Round() == Rounds.ResetRoundTimer(cfg.base, old(Round()), rtype)
    {
      match rtype {
        case RegularRound => timeoutCounter := 0;
        case TimeoutRound => timeoutCounter := (timeoutCounter + 1) % U64;
      }
      var power := 0;
      if timeoutCounter > 1 {
        power := timeoutCounter - 1;
      }
      interval := WrapInt64(cfg.base * ShiftedOne(power));
    }

    method EnterRound(round: Uint32, rtype: RoundType) returns (entered: bool)
      modifies this`timeoutCounter, this`interval, this`currentRound
      ensures Round() == Rounds.EnterRound(cfg.base, old(Round()), epochState.inCommittee, round, rtype)
      ensures entered == Enters(old(Round()), epochState.inCommittee, round)
    {
      if round > 0 && round < currentRound {
        return false;
      }
      if !epochState.inCommittee {
        return false;
      }
      ResetRoundTimer(rtype);
      currentRound := round;
      return true;
    }

    // -------------------------------------------------------------- committing

    method CommitBlock(blk: Block, escortQC: QuorumCert, apply: Executor) returns (r: CommitResult)
      requires Wired() && Tree(chain.State())
      modifies this`lastCommitted, chain
      ensures Tree(chain.State())
      ensures (State(), r) == PacemakerMachine.CommitBlock(cfg, old(State()), blk, escortQC, apply)
    {
      hide Tree, AddBlockSpec;
      if blk.Number() <= chain.bestBlock.Number() {
        return Known;
      }
      if !apply(blk) {
        return ApplyFailed;
      }
      FitsAboveBest(chain.State(), blk.header);
      var fork := chain.AddBlock(blk, escortQC);
      if fork.Err? {
        return AddFailed;
      }
      if |fork.value.branch| > 0 {
        return Forked;
      }
      lastCommitted := blk;
      return PacemakerMachine.Committed;
    }

    method OnCommit(commitReady: seq<Commit>, apply: Executor) returns (last: Option<Block>)
      requires Wired() && Inv(State()) && Line(chain.State(), commitReady)
      modifies this`lastCommitted, chain, drafts
      ensures Tree(chain.State())
      ensures (State(), last) == PacemakerMachine.OnCommit(cfg, old(State()), commitReady, apply)
    {
      hide Tree, SingleChain, Good, PacemakerMachine.CommitBlock, Lineage, Grows;
      if |commitReady| <= 0 {
        return None;
      }
      var done := commitReady[0].draft.block;
      ghost var goal := CommitAll(cfg, State(), commitReady, done, apply);
      var i := 0;
      while i < |commitReady|
        invariant 0 <= i <= |commitReady|
        invariant StoreOk(State()) && PoolOk(State()) && Line(chain.State(), commitReady)
        invariant CommitAll(cfg, State(), commitReady[i..], done, apply) == goal
      {
        var c := commitReady[i];
        assert commitReady[i..][0] == c && commitReady[i..][1..] == commitReady[i + 1..];
        CommitOneKeeps(cfg, State(), c, apply);
        ghost var next := CommitOne(cfg, State(), c, apply);
        LineSurvives(chain.State(), next.0.store, commitReady);
        if c.draft.processed {
          var result := CommitBlock(c.draft.block, c.escortQC, apply);
          if result == PacemakerMachine.Committed {
            done := c.draft.block;
          }
          drafts.PruneUpTo(c.draft);
        }
        assert State() == next.0;
        i := i + 1;
      }
      assert commitReady[i..] == [];
      return Some(done);
    }

    // -------------------------------------------------------------- QCHigh and Update

    method UpdateQCHigh(d: DraftQC) returns (updated: bool)
      requires qcHigh.node.Some?
      modifies this`qcHigh
      ensures State() == PacemakerMachine.UpdateQCHigh(old(State()), d)
      ensures updated == Raises(old(State()), d)
    {
      updated := false;
      if || (d.node.Some? && d.qc.Number() > qcHigh.qc.Number())
         || (d.qc.Number() == qcHigh.node.value.height && d.qc.round > qcHigh.node.value.round) {
        qcHigh := d;
        updated := true;
      }
    }

    /** The walk over parents terminates and never meets a missing parent. */
    method Update(qc: QuorumCert, apply: Executor) returns (last: Option<Block>)
      requires Wired() && Inv(State())
      modifies this`lastCommitted, this`qcHigh, this`nextRef, chain, drafts
      ensures Inv(State())
      ensures (State(), last) == PacemakerMachine.Update(cfg, old(State()), qc, apply)
    {
      hide Tree, SingleChain, Good, Lineage, Grows, AncestorsAbove, LookupByQC, GoodPool, PacemakerMachine.OnCommit;
      ghost var s := State();
      UpdateExact(cfg, s, qc, apply);
      FoundForUpdate(s, qc);
      PoolKeys(chain.State(), drafts.proposals);
      var found := drafts.GetOneByEscortQC(chain, qc, nextRef);
      nextRef := nextRef + 1;
      if found.None? {
        return None;
      }
      var bPrime := found.value;
      if bPrime.parent.None? || bPrime.ref in drafts.committed {
        return None;
      }
      var _ := UpdateQCHigh(DraftQC(qc, Some(bPrime)));
      if bPrime.parent != bPrime.justify.value.node {
        return None;
      }
      QCHighStaysKnown(s.(nextRef := nextRef), DraftQC(qc, Some(bPrime)));
      var commitReady := CommitReady(bPrime);
      UpdateLine(State(), bPrime);
      last := OnCommit(commitReady, apply);
    }

    /** The ancestors to commit, gathered by walking down and prepending. */
    method CommitReady(bPrime: Draft) returns (commitReady: seq<Commit>)
      requires StoreOk(State()) && Good(chain.State(), bPrime) && bPrime.parent.Some?
      ensures commitReady == AncestorsAbove(bPrime, lastCommitted.Number())
    {
      hide Tree, SingleChain, Lineage, Linked;
      commitReady := [];
      var tmp := bPrime;
      ghost var goal := AncestorsAbove(bPrime, lastCommitted.Number());
      while tmp.parent.value.height > lastCommitted.Number()
        invariant Good(chain.State(), tmp) && tmp.parent.Some?
        invariant AncestorsAbove(tmp, lastCommitted.Number()) + commitReady == goal
        decreases tmp
      {
        GoodLinked(chain.State(), tmp.parent.value);
        commitReady := [Commit(tmp.parent.value, tmp.block.qc)] + commitReady;
        tmp := tmp.parent.value;
      }
    }

    // -------------------------------------------------------------- proposals

    /** At most ten hops from the draft down to the last committed block. */
    method ExtendedFromLastCommitted(b: Draft) returns (extended: bool)
      ensures extended == MeetsWithin(b, lastCommitted.ID(), 10)
    {
      var i, tmp := 0, b;
      while i < 10
        invariant 0 <= i <= 10
        invariant MeetsWithin(tmp, lastCommitted.ID(), 10 - i) == MeetsWithin(b, lastCommitted.ID(), 10)
      {
        if tmp.block.ID() == lastCommitted.ID() {
          return true;
        }
        if tmp.parent.None? {
          break;
        }
        tmp := tmp.parent.value;
        i := i + 1;
      }
      return false;
    }

    /** Whether a transaction of the proposal is also in an uncommitted ancestor. */
    method RepeatsTx(blk: Block) returns (repeats: bool)
      requires PoolOk(State())
      ensures repeats <==> exists tx | tx in blk.txs :: tx in UncommittedTxs(State(), blk.header.parentId)
    {
      hide Good;
      var txsInCache: set<Tx> := {};
      ghost var all := UncommittedTxs(State(), blk.header.parentId);
      var id := blk.header.parentId;
      while id in drafts.proposals
        && !(drafts.proposals[id].parent.None? || drafts.proposals[id].ref in drafts.committed)
        invariant txsInCache + UncommittedTxs(State(), id) == all
        decreases id
      {
        var tmp := drafts.proposals[id];
        assert tmp.block.ID() == id;
        txsInCache := txsInCache + set tx | tx in tmp.block.txs;
        id := tmp.block.header.parentId;
      }
      for i := 0 to |blk.txs|
        invariant forall j | 0 <= j < i :: blk.txs[j] !in all
      {
        if blk.txs[i] in txsInCache {
          return true;
        }
      }
      return false;
    }

    /** The draft of a block id, from the proposal map or made from the store. */
    method GetDraft(id: Id, ref: nat) returns (n: Option<Draft>)
      ensures n == Lookup(chain.State(), drafts.proposals, id, ref)
    {
      if id in drafts.proposals {
        return Some(drafts.proposals[id]);
      }
      if id in chain.blocks {
        var b := chain.blocks[id];
        return Some(FromStore(b, b.Number(), (b.qc.round + 1) % U32, ref));
      }
      return None;
    }

    /** The checks of a proposal before it becomes a draft. */
    method Admits(m: ProposalMsg, parent: Option<Draft>, qcValid: bool, tcValid: bool, accepted: bool)
                  returns (ok: bool)
      requires PoolOk(State()) && parent == Lookup(chain.State(), drafts.proposals, m.block.header.parentId, nextRef)
      ensures ok == AcceptsProposal(State(), m, qcValid, tcValid, accepted)
    {
      hide Lookup, Good, GoodPool, UncommittedTxs;
      var blk := m.block;
      if blk.Number() < lastCommitted.Number() || parent.None? || !qcValid {
        return false;
      }
      var grandparent := GetDraft(parent.value.block.header.parentId, nextRef + 1);
      if m.round == 0 && grandparent.Some? && !grandparent.value.block.IsKBlock() {
        return false;
      }
      if m.round > 0 && (parent.value.round + 1) % U32 != m.round {
        if !tcValid {
          return false;
        } else if !parent.value.block.IsKBlock() && parent.value.round >= m.round {
          return false;
        }
      }
      var repeats := RepeatsTx(blk);
      return !repeats && accepted;
    }

    /** Places an admitted proposal in the proposal map, unless its id is there already. */
    method Place(m: ProposalMsg, parent: Option<Draft>) returns (bnew: Draft)
      requires parent.Some? && parent == Lookup(chain.State(), drafts.proposals, m.block.header.parentId, nextRef)
      modifies this`nextRef, drafts
      ensures bnew == NewDraft(old(State()), m) && State() == Placed(old(State()), bnew)
    {
      hide Lookup;
      bnew := Draft(nextRef + 2, m.block, m.block.Number(), m.round, parent, Some(DraftQC(m.block.qc, parent)), true);
      nextRef := nextRef + 3;
      if m.block.ID() !in drafts.proposals {
        drafts.Add(bnew);
      }
    }

    method VoteOn(bnew: Draft, m: ProposalMsg, apply: Executor)
      requires Wired() && Inv(State())
      modifies this, chain, drafts
      ensures State() == PacemakerMachine.VoteOn(cfg, old(State()), bnew, m, apply)
    {
      hide Inv, Tree, PacemakerMachine.Update, MeetsWithin, Rounds.EnterRound;
      var extended := ExtendedFromLastCommitted(bnew);
      if bnew.height >= lastVotingHeight && extended {
        var committed := Update(m.block.qc, apply);
        lastVoteMsg := Some(CastVote(m.round, m.block.ID()));
        lastVotingHeight := m.block.ID().number;
        if !(committed.Some? && committed.value.IsKBlock()) {
          var _ := EnterRound((m.round + 1) % U32, RegularRound);
        }
      }
    }

    method OnReceiveProposal(m: ProposalMsg, qcValid: bool, tcValid: bool, accepted: bool, apply: Executor)
      requires Wired() && Inv(State()) && HeightFits(m)
      modifies this, chain, drafts
      ensures State() == PacemakerMachine.OnReceiveProposal(cfg, old(State()), m, qcValid, tcValid, accepted, apply)
    {
      hide Tree, SingleChain, Good, GoodPool, Lookup, AcceptsProposal, PacemakerMachine.VoteOn, NewDraft, Placed;
      ghost var s := State();
      var parent := GetDraft(m.block.header.parentId, nextRef);
      var ok := Admits(m, parent, qcValid, tcValid, accepted);
      if ok {
        ProposalDraft(s, m, qcValid, tcValid, accepted);
        var bnew := Place(m, parent);
        VoteOn(bnew, m, apply);
      }
    }

    // -------------------------------------------------------------- votes and timeouts

    method AddQCVote(signer: nat, round: Uint32, blockId: Id, sigOk: bool) returns (qc: Option<QuorumCert>)
      modifies this`qcVotes
      ensures var (votes, cert) := CastVerified(old(qcVotes), QCKey(round, blockId), signer, sigOk);
              && qcVotes == votes
              && qc == if cert.None? then None else Some(CertOf(old(State()), round, blockId, cert.value))
    {
      if !sigOk {
        return None;
      }
      var (votes, cert) := AddVote(qcVotes, QCKey(round, blockId), signer, (), true);
      qcVotes := votes;
      if cert.None? {
        return None;
      }
      return Some(QuorumCert(epochState.epoch, round, blockId, cert.value.Keys));
    }

    method OnReceiveVote(signer: nat, round: Uint32, blockId: Id, sigOk: bool)
      requires qcHigh.node.Some?
      modifies this
      ensures State() == PacemakerRuns.OnReceiveVote(cfg, old(State()), signer, round, blockId, sigOk)
    {
      hide CastVerified, Lookup, Rounds.EnterRound;
      if !(round == currentRound && round == 0) && round < (currentRound + U32 - 1) % U32 {
        return;
      }
      if !AmIRoundProposer(epochState.committee, cfg.me, (round + 1) % U32) {
        return;
      }
      var b := GetDraft(blockId, nextRef);
      if b.None? || b.value.round != round {
        return;
      }
      var qc := AddQCVote(signer, round, blockId, sigOk);
      nextRef := nextRef + 1;
      if qc.Some? {
        Adopt(DraftQC(qc.value, b), (round + 1) % U32);
      }
    }

    /** Takes over a certificate that is above QCHigh, and enters the round after it. */
    method Adopt(d: DraftQC, round: Uint32)
      requires qcHigh.node.Some?
      modifies this`qcHigh, this`timeoutCounter, this`interval, this`currentRound
      ensures var s := PacemakerMachine.UpdateQCHigh(old(State()), d);
              State() == if Raises(old(State()), d)
                         then s.(rounds :=
                                Rounds.EnterRound(cfg.base, s.rounds, s.epoch.inCommittee, round, RegularRound))
                         else s
    {
      hide Rounds.EnterRound;
      var changed := UpdateQCHigh(d);
      if changed {
        var _ := EnterRound(round, RegularRound);
      }
    }

    /** Collects the last vote attached to a timeout and acts on the certificate it may complete. */
    method CollectLastVote(m: TimeoutMsg, sigOk: bool, apply: Executor)
      requires Wired() && Inv(State()) && TimeoutSafe(cfg, State(), m, sigOk, apply)
      modifies this, chain, drafts
      ensures State() == TimeoutFirst(cfg, old(State()), m, sigOk, apply)
    {
      hide Tree, SingleChain, Good, GoodPool, CastVerified, LookupByQC, PacemakerMachine.Update;
      ghost var s := State();
      var newQC := AddQCVote(m.signer, m.lastVote.round, m.lastVote.blockId, sigOk);
      PoolKeys(chain.State(), drafts.proposals);
      if newQC.Some? {
        FoundForUpdate(s, newQC.value);
        QCHighStaysKnown(s, WithNode(s, newQC.value));
        var node := drafts.GetOneByEscortQC(chain, newQC.value, nextRef);
        var _ := UpdateQCHigh(DraftQC(newQC.value, node));
        nextRef := nextRef + 1;
        var _ := Update(newQC.value, apply);
      }
    }

    /** Collects the wish for a round and keeps the timeout certificate it may complete. */
    method AddTCVote(m: TimeoutMsg, wishOk: bool)
      modifies this`tcVotes, this`tcHigh
      ensures State() == TimeoutWish(old(State()), m, wishOk)
    {
      if !wishOk {
        return;
      }
      var (votes, cert) := AddVote(tcVotes, TCKey(epochState.epoch, m.wishRound), m.signer, (), true);
      tcVotes := votes;
      if cert.Some? {
        tcHigh := Some(TimeoutCert(epochState.epoch, m.wishRound, cert.value.Keys));
      }
    }

    method OnReceiveTimeout(m: TimeoutMsg, sigOk: bool, wishOk: bool, apply: Executor)
      requires Wired() && Inv(State())
      requires AmIRoundProposer(epochState.committee, cfg.me, m.wishRound)
               ==> TimeoutSafe(cfg, State(), m, sigOk, apply)
      modifies this, chain, drafts
      ensures State() == PacemakerRuns.OnReceiveTimeout(cfg, old(State()), m, sigOk, wishOk, apply)
    {
      hide StoreOk, Good, GoodPool, LookupByQC, TimeoutSafe, TimeoutFirst, Grows, TimeoutVote, TimeoutWish, HighKnown;
      if !AmIRoundProposer(epochState.committee, cfg.me, m.wishRound) {
        return;
      }
      TimeoutStaysSafe(cfg, State(), m, sigOk, apply);
      CollectLastVote(m, sigOk, apply);
      PoolKeys(chain.State(), drafts.proposals);
      var qcNode := drafts.GetOneByEscortQC(chain, m.qcHigh, nextRef);
      var _ := UpdateQCHigh(DraftQC(m.qcHigh, qcNode));
      nextRef := nextRef + 1;
      AddTCVote(m, wishOk);
    }

    // -------------------------------------------------------------- beats, round timeouts, regulate

    method OnBeat(epoch: nat, round: Uint32, prepared: bool, leaf: Epochs.Leaf)
      requires PoolOk(State())
      modifies this, drafts
      ensures State() == PacemakerRuns.OnBeat(cfg, old(State()), epoch, round, prepared, leaf)
    {
      hide LookupByQC, Good, GoodPool, Epochs.BuildBlock;
      PoolKeys(chain.State(), drafts.proposals);
      if epoch < epochState.epoch {
        return;
      }
      if epoch == epochState.epoch && ToInt32(round) <= lastOnBeatRound {
        return;
      }
      if !AmIRoundProposer(epochState.committee, cfg.me, round) {
        return;
      }
      lastOnBeatRound := ToInt32(round);
      var b := drafts.GetOneByEscortQC(chain, qcHigh.qc, nextRef);
      var parent := drafts.GetOneByEscortQC(chain, qcHigh.qc, nextRef + 1);
      FoundMeans(chain.State(), drafts.proposals, qcHigh.qc, nextRef);
      FoundMeans(chain.State(), drafts.proposals, qcHigh.qc, nextRef + 1);
      nextRef := nextRef + 3;
      if b.Some? {
        Propose(parent.value, round, prepared, leaf);
      }
    }

    /** Builds a leaf on the parent, if the round allows, and puts it in the proposal map. */
    method Propose(parent: Draft, round: Uint32, prepared: bool, leaf: Epochs.Leaf)
      requires nextRef > 0
      modifies this`tcHigh, drafts
      ensures var s := old(State());
              var blk := Epochs.BuildBlock(parent.block, s.qcHigh.qc, leaf);
              var bnew := Draft(s.nextRef - 1, blk, blk.Number(), round, Some(parent), Some(s.qcHigh), true);
              State() == if Proposes(s, parent, round, prepared) && bnew.height > s.qcHigh.qc.Number()
                         then s.(pool := s.pool[blk.ID() := bnew], tcHigh := None) else s
    {
      if !prepared {
        return;
      }
      if epochState.epoch != 0 && round != 0 && round <= qcHigh.qc.round {
        return;
      }
      if epochState.epoch != 0 && round != 0 && round <= parent.round {
        return;
      }
      var blk := Epochs.BuildBlock(parent.block, qcHigh.qc, leaf);
      var bnew := Draft(nextRef - 1, blk, blk.Number(), round, Some(parent), Some(qcHigh), true);
      if bnew.height <= qcHigh.qc.Number() {
        return;
      }
      drafts.Add(bnew);
      tcHigh := None;
    }

    method OnRoundTimeout(round: Uint32)
      modifies this
      ensures State() == PacemakerRuns.OnRoundTimeout(cfg, old(State()), round)
    {
      var _ := EnterRound((round + 1) % U32, TimeoutRound);
    }

    /** Forgets the round, expects the beat of `actualRound` and enters it. */
    method StartRound(actualRound: Uint32)
      modifies this`timeoutCounter, this`interval, this`currentRound, this`lastOnBeatRound
      ensures State() == old(State()).(rounds := RegulateRounds(cfg.base, old(Round()), epochState.inCommittee,
              actualRound))
    {
      lastOnBeatRound := WrapInt32(ToInt32(actualRound) - 1);
      currentRound := 0;
      var _ := EnterRound(actualRound, RegularRound);
    }

    method Restart(best: Block, bestQC: QuorumCert, bestNode: Draft)
      modifies this`lastCommitted, this`lastVotingHeight, this`lastVoteMsg, this`qcHigh, this`nextRef, drafts
      ensures State() == old(State()).(lastCommitted := best, lastVotingHeight := 0, lastVote := None,
              nextRef := old(nextRef) + 1,
                                       qcHigh := DraftQC(bestQC, Some(bestNode)),
                                       pool := old(drafts.proposals)[bestNode.block.ID() := bestNode])
    {
      lastCommitted, lastVotingHeight, lastVoteMsg := best, 0, None;
      qcHigh := DraftQC(bestQC, Some(bestNode));
      nextRef := nextRef + 1;
      drafts.Add(bestNode);
    }

    method UpdateEpochState(next: Option<EpochInfo>)
      modifies this`epochState, this`qcVotes, this`tcVotes
      ensures State() == if next.None? then old(State())
                         else old(State()).(epoch := next.value, qcVotes := NewTable(|next.value.committee| % U32),
                                            tcVotes := NewTable(|next.value.committee| % U32))
    {
      if next.Some? {
        epochState := next.value;
        qcVotes := NewTable(|epochState.committee| % U32);
        tcVotes := NewTable(|epochState.committee| % U32);
      }
    }

    method Regulate(next: Option<EpochInfo>)
      requires PoolOk(State())
      modifies this, drafts
      ensures State() == PacemakerRuns.Regulate(cfg, old(State()), next)
    {
      hide LookupByQC, Good, GoodPool, RegulateRounds, NewTable;
      PoolKeys(chain.State(), drafts.proposals);
      var bestQC, best := chain.bestQC, chain.bestBlock;
      if qcHigh.qc.Number() > bestQC.Number() {
        bestQC := qcHigh.qc;
      }
      var bestNode := drafts.GetOneByEscortQC(chain, bestQC, nextRef);
      if bestNode.None? {
        return;
      }
      UpdateEpochState(next);
      Restart(best, bestQC, bestNode.value);
      var actualRound: Uint32 := (bestQC.round + 1) % U32;
      if best.IsKBlock() {
        actualRound := 0;
      }
      StartRound(actualRound);
    }
  }

  lemma TimeoutStaysSafe(cfg: Config, s: Pm, m: TimeoutMsg, sigOk: bool, apply: Executor)
    requires Inv(s) && TimeoutSafe(cfg, s, m, sigOk, apply)
    ensures TimeoutVote(s, m, sigOk).1.Some? ==> Safe(s, WithNode(s, TimeoutVote(s, m, sigOk).1.value))
    ensures Inv(TimeoutFirst(cfg, s, m, sigOk, apply))
  {
    TimeoutFirstKeeps(cfg, s, m, sigOk, apply);
  }

  lemma PoolKeys(st: Store, pool: Pool)
    requires GoodPool(st, pool)
    ensures forall id | id in pool :: pool[id].block.ID() == id
  {
  }
}
