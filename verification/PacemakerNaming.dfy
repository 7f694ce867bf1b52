/** Runs whose certificates name what they came with: Regulate then always finds its node
    (consensus/pacemaker.go Regulate, Update); and inputs on which it does not, or QCHigh loses its node. */
module PacemakerNaming {
  import opened Blocks
  import opened ChainStore
  import opened Drafts
  import opened Votes
  import opened PacemakerMachine
  import opened PacemakerRuns
  import Epochs
  import Rounds

  // ---------------------------------------------------------------- certificates that name their parents

  /** bestQC names best, and every draft and stored block carries a certificate that names its parent. */
  ghost predicate Named(s: Pm) {
    BestNamed(s) && PoolNamesParents(s.pool) && ParentsCertified(s.store)
  }

  /** A proposal's certificate names its parent.  A synced block carries its parent's certificate, which
      consensus/reactor.go:143 checks, and comes with one of its own, which nothing checks. */
  predicate Tame(e: Event) {
    match e
    case Proposal(_, m, _, _, _, _) => NamesItsParent(m)
    case Synced(blk, qc, _, _, _) => blk.qc.blockId == blk.header.parentId && qc.blockId == blk.ID()
    case _ => true
  }

  // ---------------------------------------------------------------- stored blocks

  lemma CommitKeepsCertified(cfg: Config, s: Pm, blk: Block, escortQC: QuorumCert, apply: Executor)
    requires Tree(s.store) && ParentsCertified(s.store) && blk.qc.blockId == blk.header.parentId
    ensures ParentsCertified(CommitBlock(cfg, s, blk, escortQC, apply).0.store)
  {
    hide Tree, ForkOf, Exists;
    if blk.Number() > s.store.best.Number() {
      FitsAboveBest(s.store, blk.header);
    }
  }

  lemma {:induction false} CommitAllKeepsCertified(cfg: Config, s: Pm, cs: seq<Commit>, last: Block, apply: Executor)
    requires Tree(s.store) && ParentsCertified(s.store)
    requires forall c | c in cs :: c.draft.block.qc.blockId == c.draft.block.header.parentId
    ensures ParentsCertified(CommitAll(cfg, s, cs, last, apply).0.store)
    decreases |cs|
  {
    hide Tree, CommitBlock, Prune, Marked, ParentsCertified;
    if cs != [] {
      var (s1, done) := CommitOne(cfg, s, cs[0], apply);
      CommitKeepsCertified(cfg, s, cs[0].draft.block, cs[0].escortQC, apply);
      CommitAllKeepsCertified(cfg, s1, cs[1..], if done then cs[0].draft.block else last, apply);
    }
  }

  lemma {:induction false} AncestorsNameParents(d: Draft, height: nat, k: nat)
    requires NamesParents(d) && k < |AncestorsAbove(d, height)|
    ensures NamesParents(AncestorsAbove(d, height)[k].draft)
    decreases d
  {
    if k < |AncestorsAbove(d, height)| - 1 {
      AncestorsNameParents(d.parent.value, height, k);
    }
  }

  lemma OwnParentNamed(st: Store, d: Draft)
    requires Good(st, d) && NamesParents(d) && d.parent.Some?
    ensures d.block.qc.blockId == d.block.header.parentId
  {
  }

  lemma UpdateKeepsCertified(cfg: Config, s: Pm, qc: QuorumCert, apply: Executor)
    requires Inv(s) && Named(s)
    ensures ParentsCertified(Update(cfg, s, qc, apply).0.store)
  {
    hide Good, Tree, SingleChain, GoodPool, Lineage, Linked, LookupByQC, AncestorsAbove, NamesParents, Found, CommitAll,
         ParentsCertified;
    FoundForUpdate(s, qc);
    FoundNames(s, qc, s.nextRef);
    var found := LookupByQC(s.store, s.pool, qc, s.nextRef);
    if found.Some? && !IsCommitted(s, found.value) {
      var d := found.value;
      var cs := AncestorsAbove(d, s.store.best.Number());
      AncestorsAboveExact(s.store, d, s.store.best.Number());
      forall c | c in cs ensures c.draft.block.qc.blockId == c.draft.block.header.parentId {
        var k :| 0 <= k < |cs| && cs[k] == c;
        AncestorsNameParents(d, s.store.best.Number(), k);
        OwnParentNamed(s.store, c.draft);
      }
      if cs != [] {
        var s2 := UpdateQCHigh(s.(nextRef := s.nextRef + 1), DraftQC(qc, Some(d)));
        CommitAllKeepsCertified(cfg, s2, cs, cs[0].draft.block, apply);
      }
    }
  }

  // ---------------------------------------------------------------- steps

  lemma FoundNames(s: Pm, qc: QuorumCert, ref: nat)
    requires PoolNamesParents(s.pool)
    ensures var d := LookupByQC(s.store, s.pool, qc, ref); d.Some? ==> NamesParents(d.value)
  {
  }

  lemma LookupNames(s: Pm, id: Id, ref: nat)
    requires PoolNamesParents(s.pool)
    ensures var d := Lookup(s.store, s.pool, id, ref); d.Some? ==> NamesParents(d.value)
  {
  }

  lemma UpdateNamed(cfg: Config, s: Pm, qc: QuorumCert, apply: Executor)
    requires Inv(s) && Named(s)
    ensures Named(Update(cfg, s, qc, apply).0)
  {
    hide ParentsCertified, Update, Good, Tree, SingleChain, GoodPool, Lineage, Linked, Grows, LookupByQC,
         AncestorsAbove, Accepted, NamesParents, Headers, Found;
    UpdateKeepsCertified(cfg, s, qc, apply);
    UpdateExact(cfg, s, qc, apply);
    if Commits(s, qc) {
      FoundNames(s, qc, s.nextRef);
      var d := LookupByQC(s.store, s.pool, qc, s.nextRef).value;
      var cs := AncestorsAbove(d, s.store.best.Number());
      var j := Accepted(cs, s.store.best.ID(), apply);
      if j > 0 {
        AncestorsNamed(d, s.store.best.Number(), j - 1);
      }
    }
  }

  lemma PlacedNamed(s: Pm, m: ProposalMsg)
    requires Named(s) && NamesItsParent(m) && Tree(s.store) && PoolOk(s)
    requires Lookup(s.store, s.pool, m.block.header.parentId, s.nextRef).Some?
    ensures Named(Placed(s, NewDraft(s, m)))
  {
    hide Tree, Good, Lookup;
    LookupNames(s, m.block.header.parentId, s.nextRef);
    LookupGood(s.store, s.pool, m.block.header.parentId, s.nextRef);
  }

  lemma ProposalNamed(cfg: Config, s: Pm, e: Event)
    requires Inv(s) && Named(s) && e.Proposal? && StepOk(cfg, s, e) && Tame(e)
    ensures Named(Step(cfg, s, e))
  {
    hide Good, Tree, SingleChain, GoodPool, Lineage, Linked, Grows, LookupByQC, Lookup, MeetsWithin, Update,
         UncommittedTxs, AcceptsProposal, NamesParents, Found, Rounds.EnterRound;
    var m := e.proposal;
    if e.epoch == s.epoch.epoch && AcceptsProposal(s, m, e.qcValid, e.tcValid, e.accepted) {
      ProposalDraft(s, m, e.qcValid, e.tcValid, e.accepted);
      PlacedNamed(s, m);
      UpdateNamed(cfg, Placed(s, NewDraft(s, m)), m.block.qc, e.apply);
    }
  }

  lemma TimeoutNamed(cfg: Config, s: Pm, e: Event)
    requires Inv(s) && Named(s) && e.Timeout? && StepOk(cfg, s, e)
    ensures Named(Step(cfg, s, e))
  {
    hide Good, Tree, SingleChain, GoodPool, Lineage, Linked, Grows, LookupByQC, Update, CastVerified, NamesParents,
         Found;
    var m := e.timeout;
    if e.epoch == s.epoch.epoch && Rounds.AmIRoundProposer(s.epoch.committee, cfg.me, m.wishRound) {
      var (s1, qc) := TimeoutVote(s, m, e.sigOk);
      if qc.Some? {
        FoundForUpdate(s, qc.value);
        QCHighStaysKnown(s, WithNode(s, qc.value));
        UpdateNamed(cfg, UpdateQCHigh(s1, WithNode(s1, qc.value)).(nextRef := s1.nextRef + 1), qc.value, e.apply);
      }
    }
  }

  lemma BeatNamed(cfg: Config, s: Pm, e: Event)
    requires Inv(s) && Named(s) && e.BeatAt?
    ensures Named(OnBeat(cfg, s, e.epoch, e.round, e.prepared, e.leaf))
  {
    hide Tree, SingleChain, Good, GoodPool, LookupByQC, Rounds.Beat, Rounds.AcceptsBeat;
    FoundNames(s, s.qcHigh.qc, s.nextRef + 1);
    FoundHere(s, s.qcHigh.qc, s.nextRef + 1);
  }

  lemma FoundHere(s: Pm, qc: QuorumCert, ref: nat)
    requires Tree(s.store) && PoolOk(s)
    ensures var d := LookupByQC(s.store, s.pool, qc, ref); d.Some? ==> d.value.block.ID() == qc.blockId
  {
    LookupByQCMatches(s.store, s.pool, qc, ref);
  }

  lemma StepKeepsNamed(cfg: Config, s: Pm, e: Event)
    requires Inv(s) && Named(s) && StepOk(cfg, s, e) && Tame(e)
    ensures Named(Step(cfg, s, e))
  {
    hide Tree, SingleChain, Good, GoodPool, LookupByQC, NamesParents, CommitBlock, TimeoutFirst, OnReceiveProposal,
         Lineage, Grows, TimeoutSafe, ParentsCertified, Lookup, CastVerified, HeightFits, OnBeat, Found;
    match e
    case Proposal(_, _, _, _, _, _) => ProposalNamed(cfg, s, e);
    case Vote(_, _, _, _, _) =>
    case Timeout(_, _, _, _, _) => TimeoutNamed(cfg, s, e);
    case BeatAt(_, _, _, _) => BeatNamed(cfg, s, e);
    case RoundTimeout(_) =>
    case RegulateNow(_) => FoundNames(s, RegulateQC(s), s.nextRef);
    case Synced(_, _, _, _, _) =>
      CommitBlockExact(cfg, s, e.block, e.escortQC, e.apply);
      CommitKeepsCertified(cfg, s, e.block, e.escortQC, e.apply);
  }

  /** Regulate finds its node exactly when QCHigh is above bestQC or the block that bestQC names is found; so whenever
      bestQC names best. */
  lemma RegulateFindsExactlyWhen(s: Pm)
    requires Inv(s)
    ensures Found(s.store, s.pool, RegulateQC(s)) <==>
              s.qcHigh.qc.Number() > s.store.bestQC.Number() || Found(s.store, s.pool, s.store.bestQC)
    ensures BestNamed(s) ==> Found(s.store, s.pool, RegulateQC(s))
  {
    hide SingleChain, GoodPool, Good;
  }

  /** A certificate of height 5 that no block answers to. */
  const UNKNOWN_CERT := QuorumCert(0, 0, Opaque(5, 1), {})

  /** From every start, a synced first block that comes with such a certificate is committed with it, being too old to
      be checked; Regulate then has no node. */
  lemma SyncedStopsRegulate(cfg: Config, genesis: Block, escortQC: QuorumCert, epoch: EpochInfo)
    requires GenesisBlock(genesis, escortQC)
    ensures var s := Start(cfg, genesis, escortQC, epoch);
            var e := Synced(FirstBlock(genesis, escortQC, 1), UNKNOWN_CERT, false, true, (b: Block) => true);
            && Inv(s) && StepOk(cfg, s, e)
            && var s' := Step(cfg, s, e);
            && s'.store.best == e.block && s'.store.bestQC == UNKNOWN_CERT
            && !Found(s'.store, s'.pool, RegulateQC(s'))
  {
    hide Inv, CommitBlock, Tree, Found;
    var s := Start(cfg, genesis, escortQC, epoch);
    var e := Synced(FirstBlock(genesis, escortQC, 1), UNKNOWN_CERT, false, true, (b: Block) => true);
    StartInv(cfg, genesis, escortQC, epoch);
    StartStore(s);
    CommitBlockExact(cfg, s, e.block, e.escortQC, e.apply);
    StepKept(cfg, s, e);
    UnknownIsNotFound(Step(cfg, s, e));
  }

  lemma StartStore(s: Pm)
    requires Inv(s)
    ensures StoreOk(s)
  {
  }

  /** Only ids of headers are stored or drafted. */
  lemma UnknownIsNotFound(s: Pm)
    requires Inv(s)
    ensures !Found(s.store, s.pool, UNKNOWN_CERT)
  {
    hide SingleChain, Good;
    assert UNKNOWN_CERT.blockId in s.store.blocks ==> TreeNode(s.store, UNKNOWN_CERT.blockId);
    PoolKeyed(s);
  }

  /** In every run in which proposals carry certificates that name their parents and synced blocks come with their own,
      bestQC always names best, stored blocks carry their parents' certificates, and Regulate always finds its node, so
      that it never dereferences nil. */
  lemma {:induction false} RegulateNeverFails(cfg: Config, states: seq<Pm>, events: seq<Event>, i: nat)
    requires Run(cfg, states, events) && Named(states[0]) && i <= |events|
    requires forall k | 0 <= k < |events| :: Tame(events[k])
    ensures Named(states[i])
    ensures Found(states[i].store, states[i].pool, RegulateQC(states[i]))
    ensures LookupByQC(states[i].store, states[i].pool, RegulateQC(states[i]), states[i].nextRef).Some?
  {
    hide Inv, Step, StepOk, PoolOk, Advances, Tame, Found, LookupByQC, PoolNamesParents;
    if i > 0 {
      RegulateNeverFails(cfg, states, events, i - 1);
      RunKept(cfg, states, events, i - 1);
      assert Next(cfg, states[i - 1], events[i - 1], states[i]);
      StepKeepsNamed(cfg, states[i - 1], events[i - 1]);
    }
    RunKept(cfg, states, events, i);
    RegulateFindsExactlyWhen(states[i]);
    FoundMeans(states[i].store, states[i].pool, RegulateQC(states[i]), states[i].nextRef);
  }

  lemma StartNamed(cfg: Config, genesis: Block, escortQC: QuorumCert, epoch: EpochInfo)
    requires GenesisBlock(genesis, escortQC)
    ensures Named(Start(cfg, genesis, escortQC, epoch))
  {
  }

  // ---------------------------------------------------------------- certificates that do not

  /** A certificate of height 0 that no block answers to, of the round after the first certificate's. */
  function StrayCert(escortQC: QuorumCert): QuorumCert
    requires escortQC.round + 1 < U32
  {
    QuorumCert(escortQC.epoch, escortQC.round + 1, Opaque(0, 1), {})
  }

  /** From every start, a timeout that reaches the proposer of the round it wishes for, with a last vote that does not
      verify and a nodeless certificate of QCHigh's height and a higher round, leaves QCHigh without a node. */
  lemma TimeoutLosesNode(cfg: Config, genesis: Block, escortQC: QuorumCert, epoch: EpochInfo, m: TimeoutMsg,
                         apply: Executor)
    requires GenesisBlock(genesis, escortQC) && escortQC.round + 1 < U32
    requires Rounds.AmIRoundProposer(epoch.committee, cfg.me, m.wishRound) && m.qcHigh == StrayCert(escortQC)
    ensures var s := Start(cfg, genesis, escortQC, epoch);
            && Inv(s) && !StepOk(cfg, s, Timeout(epoch.epoch, m, false, true, apply))
            && TimeoutFirst(cfg, s, m, false, apply) == s
            && UpdateQCHigh(s, WithNode(s, m.qcHigh)).qcHigh == DraftQC(m.qcHigh, None)
  {
    hide StoreOk, PoolOk, Good;
    StartInv(cfg, genesis, escortQC, epoch);
  }
}
