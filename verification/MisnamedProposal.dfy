/** A run that ends with a vote for a block that does not descend from lastCommitted: the last proposal carries a valid
    certificate for a block of another branch, which OnReceiveProposal does not compare with the proposal's parent
    (consensus/pacemaker.go:313). */
module MisnamedProposals {
  import opened Blocks
  import opened ChainStore
  import opened Drafts
  import opened Quorum
  import opened PacemakerMachine
  import opened PacemakerRuns
  import opened Agreement
  import Epochs
  import Rounds

  /** Genesis with its first certificate, and the epoch of a committee of n. */
  datatype Scene = Scene(genesis: Block, escortQC: QuorumCert, epoch: EpochInfo, n: nat)

  ghost predicate SceneOk(sc: Scene) {
    GenesisBlock(sc.genesis, sc.escortQC) && sc.escortQC.round + 3 < U32 && sc.n >= 1
  }

  /** A certificate signed by the whole committee. */
  ghost function FullCert(sc: Scene, b: Block, round: Uint32): QuorumCert {
    QuorumCert(sc.epoch.epoch, round, b.ID(), Members(sc.n))
  }

  // Two children of genesis, a child of the first, and a child of the second whose certificate
  // names the child of the first.

  function A1(sc: Scene): Block {
    FirstBlock(sc.genesis, sc.escortQC, 1)
  }

  function B1(sc: Scene): Block {
    FirstBlock(sc.genesis, sc.escortQC, 2)
  }

  ghost function A2(sc: Scene): Block
    requires SceneOk(sc)
  {
    Epochs.BuildBlock(A1(sc), FullCert(sc, A1(sc), sc.escortQC.round + 1), Epochs.Leaf(0, 0, 0, [], 0, 0, None))
  }

  ghost function B2(sc: Scene): Block
    requires SceneOk(sc)
  {
    Epochs.BuildBlock(B1(sc), FullCert(sc, A2(sc), sc.escortQC.round + 2), Epochs.Leaf(0, 0, 0, [], 0, 0, None))
  }

  /** A proposal that passes every check, with an application that accepts everything. */
  ghost function Propose(sc: Scene, b: Block, round: Uint32): Event {
    Proposal(sc.epoch.epoch, ProposalMsg(b, round), true, true, true, (x: Block) => true)
  }

  /** Everybody signed A2, and nobody anything else. */
  ghost function SignedA2(sc: Scene): Signatures
    requires SceneOk(sc)
  {
    set i | i in Members(sc.n) :: (i, A2(sc).ID())
  }

  // ---------------------------------------------------------------- states on the way

  function GenesisDraft(sc: Scene): Draft {
    FromStore(sc.genesis, 0, sc.escortQC.round, 0)
  }

  /** A draft of this block, round and parent that was built on the parent. */
  predicate IsDraft(d: Draft, b: Block, round: Uint32, parent: Draft) {
    && d.block == b && d.height == b.Number() && d.round == round && d.processed
    && d.parent == Some(parent) && d.justify == Some(DraftQC(b.qc, Some(parent)))
  }

  ghost predicate Early(s: Pm, sc: Scene) {
    AtGenesis(s, sc.genesis, sc.escortQC, sc.epoch) && s.committed == {}
  }

  predicate HasFirst(s: Pm, sc: Scene, b: Block)
    requires sc.escortQC.round + 1 < U32
  {
    b.ID() in s.pool && IsDraft(s.pool[b.ID()], b, sc.escortQC.round + 1, GenesisDraft(sc))
  }

  /** A first proposal is voted for, and the pool gains its draft and nothing else. */
  lemma FirstStep(cfg: Config, s: Pm, sc: Scene, nonce: nat)
    requires SceneOk(sc) && Early(s, sc) && FirstBlock(sc.genesis, sc.escortQC, nonce).ID() !in s.pool
    ensures var b := FirstBlock(sc.genesis, sc.escortQC, nonce);
            var e := ProposeFirst(sc.genesis, sc.escortQC, sc.epoch, nonce);
            && StepOk(cfg, s, e)
            && var s' := Step(cfg, s, e);
            && Early(s', sc) && HasFirst(s', sc, b)
            && s'.pool.Keys == s.pool.Keys + {b.ID()} && forall id | id in s.pool :: s'.pool[id] == s.pool[id]
  {
    hide Good, GoodPool, SingleChain, Tree, Rounds.EnterRound, Found;
    VotesOnFirst(cfg, s, sc.genesis, sc.escortQC, sc.epoch, nonce);
  }

  /** Both branches are in the pool, A2 on top of A1. */
  ghost predicate Branches(s: Pm, sc: Scene)
    requires SceneOk(sc)
  {
    && HasFirst(s, sc, A1(sc)) && HasFirst(s, sc, B1(sc))
    && A2(sc).ID() in s.pool
    && IsDraft(s.pool[A2(sc).ID()], A2(sc), sc.escortQC.round + 2, s.pool[A1(sc).ID()])
  }

  /** Only genesis is committed; both branches are there. */
  ghost predicate Late(s: Pm, sc: Scene)
    requires SceneOk(sc)
  {
    && Inv(s) && s.lastCommitted == sc.genesis && s.epoch == sc.epoch && s.lastVotingHeight <= 2 && s.committed == {}
    && Branches(s, sc)
  }

  ghost predicate Ready(s: Pm, sc: Scene)
    requires SceneOk(sc)
  {
    && Early(s, sc) && HasFirst(s, sc, A1(sc)) && HasFirst(s, sc, B1(sc)) && A2(sc).ID() !in s.pool
  }

  lemma SecondVote(s: Pm, sc: Scene)
    requires SceneOk(sc) && Ready(s, sc)
    ensures var m := Propose(sc, A2(sc), sc.escortQC.round + 2).proposal;
            && RecordsVote(s, m, true, true, true)
            && Lookup(s.store, s.pool, m.block.header.parentId, s.nextRef).Some?
            && IsDraft(NewDraft(s, m), A2(sc), sc.escortQC.round + 2, s.pool[A1(sc).ID()])
  {
    hide Good, GoodPool, SingleChain, Tree, Found;
    var m, a1 := Propose(sc, A2(sc), sc.escortQC.round + 2).proposal, s.pool[A1(sc).ID()];
    assert AcceptsProposal(s, m, true, true, true);
    assert MeetsWithin(GenesisDraft(sc), sc.genesis.ID(), 8);
    assert MeetsWithin(a1, sc.genesis.ID(), 9);
  }

  lemma SecondPlaced(s: Pm, sc: Scene, d: Draft)
    requires SceneOk(sc) && Ready(s, sc) && IsDraft(d, A2(sc), sc.escortQC.round + 2, s.pool[A1(sc).ID()])
    ensures var s1, a1 := Placed(s, d), s.pool[A1(sc).ID()];
            && Branches(s1, sc)
            && LookupByQC(s1.store, s1.pool, A2(sc).qc, s1.nextRef) == Some(a1)
            && AncestorsAbove(a1, s1.lastCommitted.Number()) == []
  {
    hide Inv;
    assert AncestorsAbove(s.pool[A1(sc).ID()], 0) == [];
  }

  /** Update with nothing to commit leaves the chain and the drafts alone. */
  lemma UpdateCommitsNothing(cfg: Config, s: Pm, d: Draft, qc: QuorumCert, apply: Executor)
    requires Tree(s.store) && PoolOk(s) && s.qcHigh.node.Some?
    requires LookupByQC(s.store, s.pool, qc, s.nextRef) == Some(d) && AncestorsAbove(d, s.lastCommitted.Number()) == []
    ensures var s' := Update(cfg, s, qc, apply).0;
            && s'.store == s.store && s'.pool == s.pool && s'.committed == s.committed
            && s'.lastCommitted == s.lastCommitted && s'.epoch == s.epoch
  {
    hide Good, Tree, LookupByQC, AncestorsAbove;
  }

  /** A2 is voted for: its certificate raises QCHigh to A1 and commits nothing. */
  lemma SecondStep(cfg: Config, s: Pm, sc: Scene)
    requires SceneOk(sc) && Ready(s, sc)
    ensures var e := Propose(sc, A2(sc), sc.escortQC.round + 2);
            StepOk(cfg, s, e) && Late(Step(cfg, s, e), sc)
  {
    hide Good, GoodPool, SingleChain, Tree, Rounds.EnterRound, Found, AcceptsProposal, MeetsWithin, Lookup, LookupByQC,
         AncestorsAbove, Update, HighKnown, IsDraft;
    var e := Propose(sc, A2(sc), sc.escortQC.round + 2);
    var m, a1 := e.proposal, s.pool[A1(sc).ID()];
    SecondVote(s, sc);
    var s1 := Placed(s, NewDraft(s, m));
    SecondPlaced(s, sc, NewDraft(s, m));
    NewDraftGood(s, m);
    UpdateCommitsNothing(cfg, s1, a1, m.block.qc, e.apply);
    StepKept(cfg, s, e);
  }

  /** B2 is voted for too, but the same step commits A1. */
  lemma ThirdStep(cfg: Config, s: Pm, sc: Scene)
    requires SceneOk(sc) && Late(s, sc)
    ensures var e := Propose(sc, B2(sc), sc.escortQC.round + 2);
            && StepOk(cfg, s, e) && RecordsVote(s, e.proposal, true, true, true)
            && !StaysOnLine(Placed(s, NewDraft(s, e.proposal)), e.proposal, e.apply)
  {
    hide Good, GoodPool, SingleChain, Tree, Rounds.EnterRound, Found, CommonPrefix;
    var e := Propose(sc, B2(sc), sc.escortQC.round + 2);
    var m, a1, a2, b1 := e.proposal, s.pool[A1(sc).ID()], s.pool[A2(sc).ID()], s.pool[B1(sc).ID()];
    assert AcceptsProposal(s, m, true, true, true);
    var d := NewDraft(s, m);
    assert MeetsWithin(GenesisDraft(sc), sc.genesis.ID(), 8);
    assert MeetsWithin(b1, sc.genesis.ID(), 9);
    assert MayVote(s, d);
    var s1 := Placed(s, d);
    assert LookupByQC(s1.store, s1.pool, m.block.qc, s1.nextRef) == Some(a2);
    assert AncestorsAbove(a1, 0) == [];
    assert Committing(s1, m.block.qc) == [Commit(a1, a2.block.qc)];
    assert Accepted(Committing(s1, m.block.qc), sc.genesis.ID(), e.apply) == 1;
    ForkedLines(sc.genesis.header, B1(sc).header, B2(sc).header, A1(sc).header, A2(sc).header);
  }

  lemma ForkedLines(g: Header, b1: Header, b2: Header, a1: Header, a2: Header)
    requires !g.parentId.Digest? && b1.parentId == g.ID() && a1.parentId == g.ID() && a1 != b1
    requires b2.parentId == b1.ID() && a2.parentId == a1.ID()
    ensures CommonPrefix(Lineage(b2), Lineage(a2)) == 1
  {
    assert Lineage(g) == [g];
    assert Lineage(b1) == [g, b1] && Lineage(a1) == [g, a1];
    assert Lineage(b2) == [g, b1, b2] && Lineage(a2) == [g, a1, a2];
    CommonPrefixUnique(Lineage(b2), Lineage(a2), 1);
  }

  // ---------------------------------------------------------------- the run

  /** The certificate of each proposal passes the check that the source makes of it, given that everybody signed A2. */
  lemma AllPass(sc: Scene)
    requires SceneOk(sc)
    ensures Passes(sc.n, SignedA2(sc), sc.genesis, A1(sc).qc) && Passes(sc.n, SignedA2(sc), sc.genesis, B1(sc).qc)
    ensures Passes(sc.n, SignedA2(sc), A1(sc), A2(sc).qc)
    ensures Passes(sc.n, SignedA2(sc), B1(sc), B2(sc).qc)
  {
    MajorityInIntegers(sc.n, sc.n);
    assert AllSigned(SignedA2(sc), Members(sc.n) * Members(sc.n), A2(sc).ID());
    assert Members(sc.n) * Members(sc.n) == Members(sc.n);
  }

  /** From every start, for a committee of at least one, there is a run of four proposals whose certificates all pass
      VerifyQC against their parents, the last with one bit per member but naming a block of the other branch, that ends
      with a vote for a block that does not descend from lastCommitted. */
  lemma MisnamedVoteLeavesChain(cfg: Config, sc: Scene) returns (states: seq<Pm>, events: seq<Event>)
    requires SceneOk(sc)
    ensures Run(cfg, states, events) && |events| == 4 && Quiet(events, 0, 4)
    ensures states[0] == Start(cfg, sc.genesis, sc.escortQC, sc.epoch)
    ensures forall i | 0 <= i < 4 :: events[i].Proposal?
    ensures events[0].proposal.block == A1(sc) && Passes(sc.n, SignedA2(sc), sc.genesis, A1(sc).qc)
    ensures events[1].proposal.block == B1(sc) && Passes(sc.n, SignedA2(sc), sc.genesis, B1(sc).qc)
    ensures events[2].proposal.block == A2(sc) && Passes(sc.n, SignedA2(sc), A1(sc), A2(sc).qc)
    ensures events[3].proposal.block == B2(sc) && Passes(sc.n, SignedA2(sc), B1(sc), B2(sc).qc)
    ensures B2(sc).qc.signers == Members(sc.n)
    ensures B2(sc).header.parentId == B1(sc).ID() && !NamesItsParent(events[3].proposal)
    ensures Recorded(states[3], events[3]).Some?
    ensures !Extends(B2(sc).header, states[4].lastCommitted.header)
  {
    hide Inv, Step, StepOk, Late, Start, PoolOk, Passes, AcceptsProposal, RecordsVote, StaysOnLine, Lineage;
    AllPass(sc);
    states, events := LateRun(cfg, sc);
    var s3, e3 := states[3], Propose(sc, B2(sc), sc.escortQC.round + 2);
    ThirdStep(cfg, s3, sc);
    LateInv(s3, sc);
    LastVote(cfg, s3, sc);
    ExtendRun(cfg, states, events, e3);
    states, events := states + [Step(cfg, s3, e3)], events + [e3];
  }

  lemma ExtendRun(cfg: Config, states: seq<Pm>, events: seq<Event>, e: Event)
    requires Run(cfg, states, events) && Inv(states[|events|]) && StepOk(cfg, states[|events|], e)
    ensures Run(cfg, states + [Step(cfg, states[|events|], e)], events + [e])
  {
    hide Inv, Step, StepOk, PoolOk;
    var states', events' := states + [Step(cfg, states[|events|], e)], events + [e];
    forall i | 0 <= i < |events'| ensures Next(cfg, states'[i], events'[i], states'[i + 1]) {
      if i < |events| {
        assert Next(cfg, states[i], events[i], states[i + 1]);
      }
    }
  }

  /** The first three proposals. */
  lemma LateRun(cfg: Config, sc: Scene) returns (states: seq<Pm>, events: seq<Event>)
    requires SceneOk(sc)
    ensures Run(cfg, states, events) && states[0] == Start(cfg, sc.genesis, sc.escortQC, sc.epoch)
    ensures events == [ProposeFirst(sc.genesis, sc.escortQC, sc.epoch, 1),
                       ProposeFirst(sc.genesis, sc.escortQC, sc.epoch, 2),
                       Propose(sc, A2(sc), sc.escortQC.round + 2)]
    ensures |states| == 4 && Late(states[3], sc)
  {
    hide Inv, Step, StepOk, Early, Late, HasFirst, Start, PoolOk, AcceptsProposal, RecordsVote, Lineage;
    var s0 := Start(cfg, sc.genesis, sc.escortQC, sc.epoch);
    EarlyStart(cfg, sc);
    var e0 := ProposeFirst(sc.genesis, sc.escortQC, sc.epoch, 1);
    FirstStep(cfg, s0, sc, 1);
    EarlyInv(s0, sc);
    var s1 := Step(cfg, s0, e0);
    var e1 := ProposeFirst(sc.genesis, sc.escortQC, sc.epoch, 2);
    FirstStep(cfg, s1, sc, 2);
    EarlyInv(s1, sc);
    var s2 := Step(cfg, s1, e1);
    FirstStays(s1, s2, sc);
    var e2 := Propose(sc, A2(sc), sc.escortQC.round + 2);
    SecondStep(cfg, s2, sc);
    EarlyInv(s2, sc);
    events := [e0, e1, e2];
    states := [s0, s1, s2, Step(cfg, s2, e2)];
    assert Next(cfg, states[0], events[0], states[1]) && Next(cfg, states[1], events[1], states[2]);
    assert Next(cfg, states[2], events[2], states[3]);
  }

  lemma EarlyStart(cfg: Config, sc: Scene)
    requires SceneOk(sc)
    ensures var s := Start(cfg, sc.genesis, sc.escortQC, sc.epoch);
            Early(s, sc) && s.pool.Keys == {sc.genesis.ID()}
  {
    hide Inv;
    StartAtGenesis(cfg, sc.genesis, sc.escortQC, sc.epoch);
  }

  lemma EarlyInv(s: Pm, sc: Scene)
    requires Early(s, sc)
    ensures Inv(s)
  {
  }

  lemma LateInv(s: Pm, sc: Scene)
    requires SceneOk(sc) && Late(s, sc)
    ensures Inv(s) && s.epoch == sc.epoch
  {
  }

  lemma FirstStays(s: Pm, s': Pm, sc: Scene)
    requires SceneOk(sc) && HasFirst(s, sc, A1(sc))
    requires forall id | id in s.pool :: id in s'.pool && s'.pool[id] == s.pool[id]
    ensures HasFirst(s', sc, A1(sc))
  {
  }

  lemma LastVote(cfg: Config, s: Pm, sc: Scene)
    requires SceneOk(sc) && Late(s, sc)
    requires var e := Propose(sc, B2(sc), sc.escortQC.round + 2);
             && StepOk(cfg, s, e) && RecordsVote(s, e.proposal, true, true, true)
             && !StaysOnLine(Placed(s, NewDraft(s, e.proposal)), e.proposal, e.apply)
    ensures var e := Propose(sc, B2(sc), sc.escortQC.round + 2);
            Recorded(s, e).Some? && !Extends(B2(sc).header, Step(cfg, s, e).lastCommitted.header)
  {
    hide StoreOk, HighOk, HighKnown, GoodPool, StaysOnLine, Lineage, OnReceiveProposal, MeetsWithin, Lookup,
         UncommittedTxs;
    var e := Propose(sc, B2(sc), sc.escortQC.round + 2);
    VoteExtendsCommitted(cfg, s, e.proposal, true, true, true, e.apply);
  }
}
