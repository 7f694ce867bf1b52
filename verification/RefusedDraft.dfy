/** A run that ends with a draft marked as committed although the application refused it: OnCommit prunes, and so marks,
    whether or not CommitBlock succeeded (consensus/pacemaker.go:232-264). */
module RefusedDrafts {
  import opened Blocks
  import opened ChainStore
  import opened Drafts
  import opened Quorum
  import opened PacemakerMachine
  import opened PacemakerRuns
  import opened MisnamedProposals
  import opened PacemakerPool
  import Epochs
  import Rounds

  /** A child of A2 that carries A2's certificate. */
  ghost function A3(sc: Scene): Block
    requires SceneOk(sc)
  {
    Epochs.BuildBlock(A2(sc), FullCert(sc, A2(sc), sc.escortQC.round + 2), Epochs.Leaf(0, 0, 0, [], 0, 0, None))
  }

  /** Its proposal, at a replica whose application refuses to apply any block. */
  ghost function ProposeA3(sc: Scene): Event
    requires SceneOk(sc)
  {
    Proposal(sc.epoch.epoch, ProposalMsg(A3(sc), sc.escortQC.round + 3), true, true, true, (x: Block) => false)
  }

  lemma A3Voted(s: Pm, sc: Scene)
    requires SceneOk(sc) && Late(s, sc)
    ensures var m := ProposeA3(sc).proposal;
            && RecordsVote(s, m, true, true, true)
            && Lookup(s.store, s.pool, m.block.header.parentId, s.nextRef).Some?
            && Committing(Placed(s, NewDraft(s, m)), m.block.qc) == [Commit(s.pool[A1(sc).ID()], A2(sc).qc)]
  {
    hide Good, GoodPool, SingleChain, Tree, Found;
    var m, a1, a2 := ProposeA3(sc).proposal, s.pool[A1(sc).ID()], s.pool[A2(sc).ID()];
    assert AcceptsProposal(s, m, true, true, true);
    assert MeetsWithin(GenesisDraft(sc), sc.genesis.ID(), 7);
    assert MeetsWithin(a1, sc.genesis.ID(), 8);
    assert MeetsWithin(a2, sc.genesis.ID(), 9);
    var s1 := Placed(s, NewDraft(s, m));
    assert LookupByQC(s1.store, s1.pool, m.block.qc, s1.nextRef) == Some(a2);
    assert AncestorsAbove(a1, 0) == [];
  }

  /** From every start there is a run of four proposals, each with a certificate that names its parent, after which a
      draft is marked as committed that is not in the store. */
  lemma RefusedIsMarked(cfg: Config, sc: Scene) returns (states: seq<Pm>, events: seq<Event>)
    requires SceneOk(sc)
    ensures Run(cfg, states, events) && |events| == 4
    ensures states[0] == Start(cfg, sc.genesis, sc.escortQC, sc.epoch)
    ensures forall i | 0 <= i < 4 :: events[i].Proposal? && NamesItsParent(events[i].proposal)
    ensures var s, id := states[4], A1(sc).ID();
            id in s.pool && IsCommitted(s, s.pool[id]) && id !in s.store.blocks && !MarksTrue(s)
  {
    hide Inv, Step, StepOk, Late, Start, PoolOk;
    states, events := LateRun(cfg, sc);
    var s, e := states[3], ProposeA3(sc);
    LateInv(s, sc);
    A3Fits(cfg, s, sc);
    RefusedStep(cfg, s, sc);
    ExtendRun(cfg, states, events, e);
    states, events := states + [Step(cfg, s, e)], events + [e];
  }

  lemma A3Fits(cfg: Config, s: Pm, sc: Scene)
    requires SceneOk(sc) && Inv(s)
    ensures StepOk(cfg, s, ProposeA3(sc))
  {
    hide Inv;
  }

  /** The only draft there is to commit is refused: it stays in the pool, marked, and the store does not change. */
  lemma OnlyOneRefused(cfg: Config, s: Pm, qc: QuorumCert, apply: Executor, c: Commit)
    requires Inv(s) && Committing(s, qc) == [c] && c.draft.processed && !apply(c.draft.block)
    requires var id := c.draft.block.ID(); id in s.pool && s.pool[id] == c.draft
    ensures var s', id := Update(cfg, s, qc, apply).0, c.draft.block.ID();
            && s'.store == s.store && id in s'.pool && IsCommitted(s', s'.pool[id])
  {
    var id := c.draft.block.ID();
    assert s.pool[id].height == s.pool[id].block.Number() && Good(s.store, s.pool[id]);
    hide Good, GoodPool, SingleChain, Tree, Found, Update, Committing, LookupByQC, HighKnown, Prune;
    UpdatePrunes(cfg, s, qc, apply);
    UpdateReturns(cfg, s, qc, apply);
    PruneExact(s.store, s.pool, c.draft);
  }

  lemma RefusedStep(cfg: Config, s: Pm, sc: Scene)
    requires SceneOk(sc) && Late(s, sc) && Inv(s) && StepOk(cfg, s, ProposeA3(sc))
    ensures var s', id := Step(cfg, s, ProposeA3(sc)), A1(sc).ID();
            id in s'.pool && IsCommitted(s', s'.pool[id]) && id !in s'.store.blocks && !MarksTrue(s')
  {
    hide StoreOk, PoolOk, Good, HighKnown, AcceptsProposal, MeetsWithin, Lookup, Update, Committing, OnReceiveProposal,
         Rounds.EnterRound, LookupByQC, MayVote, Grows, Below;
    var e := ProposeA3(sc);
    A3Voted(s, sc);
    VotingStep(cfg, s, e);
    var s1 := Placed(s, NewDraft(s, e.proposal));
    OnlyOneRefused(cfg, s1, e.proposal.block.qc, e.apply, Commit(s.pool[A1(sc).ID()], A2(sc).qc));
    FirstNotStored(s, sc);
  }

  lemma FirstNotStored(s: Pm, sc: Scene)
    requires SceneOk(sc) && StoreOk(s) && s.lastCommitted == sc.genesis
    ensures A1(sc).ID() !in s.store.blocks
  {
    assert A1(sc).ID() in s.store.blocks ==> TreeNode(s.store, A1(sc).ID());
  }
}
