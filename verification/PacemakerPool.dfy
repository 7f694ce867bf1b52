/** What the proposal map holds over the runs of a pacemaker (consensus/pacemaker.go OnCommit, chain/proposal_map.go
    PruneUpTo), and what its Committed marks mean. */
module PacemakerPool {
  import opened Blocks
  import opened ChainStore
  import opened Drafts
  import opened PacemakerMachine
  import opened PacemakerRuns
  import Rounds
  import Votes
  import Epochs

  // ---------------------------------------------------------------- one object per entry

  /** The draft and the drafts below it were validated, down to the stored block they hang off. */
  ghost predicate Validated(d: Draft) {
    d.parent.Some? ==> d.processed && Validated(d.parent.value)
  }

  /** Entries of the pool are different objects, all made already, and validated. */
  ghost predicate Fresh(s: Pm) {
    && (forall id | id in s.pool :: s.pool[id].ref < s.nextRef && Validated(s.pool[id]))
    && (forall a, b | a in s.pool && b in s.pool && s.pool[a].ref == s.pool[b].ref :: a == b)
    && (forall r | r in s.committed :: r < s.nextRef)
  }

  lemma AddFresh(s: Pm, s': Pm, d: Draft)
    requires Fresh(s) && Validated(d) && s.nextRef <= d.ref < s'.nextRef && s'.committed == s.committed
    requires s'.pool == s.pool[d.block.ID() := d]
    ensures Fresh(s')
  {
  }

  lemma ShrinkFresh(s: Pm, s': Pm)
    requires Fresh(s) && Shrinks(s.pool, s'.pool) && s.nextRef <= s'.nextRef
    requires forall r | r in s'.committed :: r < s'.nextRef
    ensures Fresh(s')
  {
  }

  /** Every mark is on an entry of the pool for a validated draft of the line. */
  lemma {:induction false} MarksAreEntries(pool: Pool, cs: seq<Commit>, r: nat)
    requires Keyed(pool)
    ensures r in MarkedAlong(pool, cs) <==>
              exists k | 0 <= k < |cs| :: cs[k].draft.processed && r in Marked(pool, cs[k].draft)
    decreases |cs|
  {
    if cs != [] {
      MarksAreEntries(pool, cs[1..], r);
      if k :| 0 <= k < |cs| && cs[k].draft.processed && r in Marked(pool, cs[k].draft) {
        assert k > 0 ==> cs[1..][k - 1] == cs[k];
      }
    }
  }

  lemma UpdateFresh(cfg: Config, s: Pm, qc: QuorumCert, apply: Executor)
    requires Inv(s) && Fresh(s)
    ensures Fresh(Update(cfg, s, qc, apply).0) && Update(cfg, s, qc, apply).0.nextRef == s.nextRef + 1
  {
    hide Good, Tree, SingleChain, GoodPool, Lineage, Linked, Grows, Update, Committing, Prune, MarkedAlong, Found,
         LookupByQC, Validated;
    UpdatePrunes(cfg, s, qc, apply);
    UpdateExact(cfg, s, qc, apply);
    PoolKeyed(s);
    var s', cs := Update(cfg, s, qc, apply).0, Committing(s, qc);
    forall r | r in s'.committed ensures r < s'.nextRef {
      MarksAreEntries(s.pool, cs, r);
    }
    ShrinkFresh(s, s');
  }

  lemma ProposalFresh(cfg: Config, s: Pm, e: Event)
    requires Inv(s) && Fresh(s) && e.Proposal? && StepOk(cfg, s, e)
    ensures Fresh(Step(cfg, s, e))
  {
    hide Good, Tree, SingleChain, GoodPool, Lookup, AcceptsProposal, MeetsWithin, Found, Update, Rounds.EnterRound,
         Fresh, Validated;
    var m := e.proposal;
    if e.epoch == s.epoch.epoch && AcceptsProposal(s, m, e.qcValid, e.tcValid, e.accepted) {
      ProposalDraft(s, m, e.qcValid, e.tcValid, e.accepted);
      var d := NewDraft(s, m);
      PlacedFresh(s, m);
      if MayVote(s, d) {
        VotingStep(cfg, s, e);
        UpdateFresh(cfg, Placed(s, d), m.block.qc, e.apply);
        SamePool(Update(cfg, Placed(s, d), m.block.qc, e.apply).0, Step(cfg, s, e));
      }
    }
  }

  lemma SamePool(s: Pm, s': Pm)
    requires Fresh(s) && s'.pool == s.pool && s'.committed == s.committed && s.nextRef <= s'.nextRef
    ensures Fresh(s')
  {
  }

  lemma PlacedFresh(s: Pm, m: ProposalMsg)
    requires Fresh(s) && Lookup(s.store, s.pool, m.block.header.parentId, s.nextRef).Some?
    ensures Fresh(Placed(s, NewDraft(s, m)))
  {
    var d := NewDraft(s, m);
    assert Validated(d.parent.value);
    hide Lookup, Validated;
    if m.block.ID() !in s.pool {
      AddFresh(s, Placed(s, d), d);
    }
  }

  lemma TimeoutFresh(cfg: Config, s: Pm, e: Event)
    requires Inv(s) && Fresh(s) && e.Timeout? && StepOk(cfg, s, e)
    ensures Fresh(Step(cfg, s, e))
  {
    hide Good, Tree, SingleChain, GoodPool, Lineage, Linked, Grows, LookupByQC, Update, CastVerified, Found, Fresh;
    var m := e.timeout;
    if e.epoch == s.epoch.epoch && Rounds.AmIRoundProposer(s.epoch.committee, cfg.me, m.wishRound) {
      var (s0, qc) := TimeoutVote(s, m, e.sigOk);
      SamePool(s, s0);
      if qc.Some? {
        FoundForUpdate(s, qc.value);
        QCHighStaysKnown(s, WithNode(s, qc.value));
        var t := UpdateQCHigh(s0, WithNode(s0, qc.value)).(nextRef := s0.nextRef + 1);
        SamePool(s0, t);
        UpdateFresh(cfg, t, qc.value, e.apply);
      }
      SamePool(TimeoutFirst(cfg, s, m, e.sigOk, e.apply), Step(cfg, s, e));
    }
  }

  lemma BeatFresh(cfg: Config, s: Pm, e: Event)
    requires Inv(s) && Fresh(s) && e.BeatAt? && StepOk(cfg, s, e)
    ensures Fresh(Step(cfg, s, e))
  {
    hide Inv, Fresh, LookupByQC, OnBeat, Validated;
    var s' := OnBeat(cfg, s, e.epoch, e.round, e.prepared, e.leaf);
    FoundValidated(s, s.qcHigh.qc, s.nextRef + 1);
    var d := BeatPool(cfg, s, e);
    if s'.pool == s.pool {
      SamePool(s, s');
    } else {
      ParentValidated(d);
      AddFresh(s, s', d);
    }
  }

  lemma ParentValidated(d: Draft)
    requires d.parent.Some? && d.processed && Validated(d.parent.value)
    ensures Validated(d)
  {
  }

  lemma FoundValidated(s: Pm, qc: QuorumCert, ref: nat)
    requires Fresh(s)
    ensures var n := LookupByQC(s.store, s.pool, qc, ref); n.Some? ==> Validated(n.value)
  {
  }

  /** A beat adds at most one draft, a new object on the block that QCHigh finds. */
  lemma BeatPool(cfg: Config, s: Pm, e: Event) returns (d: Draft)
    requires e.BeatAt?
    ensures var s' := OnBeat(cfg, s, e.epoch, e.round, e.prepared, e.leaf);
            && s'.committed == s.committed && s.nextRef <= s'.nextRef
            && (s'.pool == s.pool || s'.pool == s.pool[d.block.ID() := d])
            && (s'.pool != s.pool ==>
                && s.nextRef <= d.ref < s'.nextRef && d.processed
                && d.parent.Some? && d.parent == LookupByQC(s.store, s.pool, s.qcHigh.qc, s.nextRef + 1))
  {
    hide LookupByQC, Rounds.Beat, Rounds.AcceptsBeat, Epochs.BuildBlock, Proposes;
    var n := LookupByQC(s.store, s.pool, s.qcHigh.qc, s.nextRef + 1);
    if n.Some? {
      var blk := Epochs.BuildBlock(n.value.block, s.qcHigh.qc, e.leaf);
      d := Draft(s.nextRef + 2, blk, blk.Number(), e.round, n, Some(s.qcHigh), true);
    } else {
      d := FromStore(s.lastCommitted, 0, 0, 0);
    }
  }

  lemma RegulateFresh(cfg: Config, s: Pm, e: Event)
    requires Inv(s) && Fresh(s) && e.RegulateNow?
    ensures Fresh(Step(cfg, s, e))
  {
    hide Good, Tree, SingleChain, Rounds.RegulateRounds;
    LookupByQCMatches(s.store, s.pool, RegulateQC(s), s.nextRef);
  }

  lemma StepFresh(cfg: Config, s: Pm, e: Event)
    requires Inv(s) && Fresh(s) && StepOk(cfg, s, e)
    ensures Fresh(Step(cfg, s, e))
  {
    hide Inv, Fresh, Lookup, LookupByQC, CommitBlock, CastVerified, Rounds.EnterRound, OnReceiveProposal,
         OnReceiveTimeout, OnBeat, Regulate, TimeoutSafe;
    match e
    case Proposal(_, _, _, _, _, _) => ProposalFresh(cfg, s, e);
    case Vote(_, _, _, _, _) => VoteFresh(cfg, s, e);
    case Timeout(_, _, _, _, _) => TimeoutFresh(cfg, s, e);
    case BeatAt(_, _, _, _) => BeatFresh(cfg, s, e);
    case RoundTimeout(_) => SamePool(s, Step(cfg, s, e));
    case RegulateNow(_) => RegulateFresh(cfg, s, e);
    case Synced(_, _, _, _, _) => SyncedFresh(cfg, s, e);
  }

  lemma VoteFresh(cfg: Config, s: Pm, e: Event)
    requires Inv(s) && Fresh(s) && e.Vote?
    ensures Fresh(Step(cfg, s, e))
  {
    hide StoreOk, PoolOk, Good, HighKnown, Fresh, Lookup, CastVerified, Rounds.EnterRound;
    SamePool(s, Step(cfg, s, e));
  }

  lemma SyncedFresh(cfg: Config, s: Pm, e: Event)
    requires Inv(s) && Fresh(s) && e.Synced?
    ensures Fresh(Step(cfg, s, e))
  {
    hide Tree, SingleChain, PoolOk, HighOk, HighKnown, Fresh, AddBlockSpec;
    CommitKeepsPool(cfg, s, e.block, e.escortQC, e.apply);
    SamePool(s, Step(cfg, s, e));
  }

  lemma StartFresh(cfg: Config, genesis: Block, escortQC: QuorumCert, epoch: EpochInfo)
    ensures Fresh(Start(cfg, genesis, escortQC, epoch))
  {
    hide Rounds.RegulateRounds;
  }

  /** In every run from a start, the entries of the pool are different objects, and all drafts in it were validated. */
  lemma {:induction false} RunFresh(cfg: Config, states: seq<Pm>, events: seq<Event>, i: nat)
    requires Run(cfg, states, events) && Fresh(states[0]) && i <= |events|
    ensures Fresh(states[i])
  {
    hide Inv, Step, StepOk, Advances, Fresh, PoolOk;
    if i > 0 {
      RunFresh(cfg, states, events, i - 1);
      RunKept(cfg, states, events, i - 1);
      assert Next(cfg, states[i - 1], events[i - 1], states[i]);
      StepFresh(cfg, states[i - 1], events[i - 1]);
    }
  }

  // ---------------------------------------------------------------- pruning and marking

  lemma {:induction false} AncestorsValidated(d: Draft, height: nat, k: nat)
    requires Validated(d) && k < |AncestorsAbove(d, height)|
    ensures var c := AncestorsAbove(d, height)[k].draft; c.parent.Some? ==> c.processed
    decreases d
  {
    if k < |AncestorsAbove(d, height)| - 1 {
      AncestorsValidated(d.parent.value, height, k);
    }
  }

  /** Update tries the whole line, since drafts in the pool were validated; the last of the line is the parent of the
      certified draft. */
  lemma AllTried(s: Pm, qc: QuorumCert)
    requires Inv(s) && Fresh(s) && Committing(s, qc) != []
    ensures var cs := Committing(s, qc);
            && Tried(cs) == |cs| && Ascends(cs) && (forall k | 0 <= k < |cs| :: cs[k].draft.processed)
            && cs[0].draft.height > s.store.best.Number()
            && Good(s.store, cs[|cs| - 1].draft)
            && Some(cs[|cs| - 1].draft) == LookupByQC(s.store, s.pool, qc, s.nextRef).value.parent
  {
    var d, cs := LookupByQC(s.store, s.pool, qc, s.nextRef).value, Committing(s, qc);
    assert Validated(d);
    hide Good, Tree, SingleChain, GoodPool, Lineage, Linked, LookupByQC, AncestorsAbove, Validated, Found, Tried;
    FoundForUpdate(s, qc);
    UpdateLine(s, d);
    LastOfAncestors(d, s.store.best.Number());
    forall k | 0 <= k < |cs| ensures cs[k].draft.processed {
      AncestorsValidated(d, s.store.best.Number(), k);
    }
    assert forall c | c in cs :: c.draft.processed;
  }

  /** The draft up to which Update prunes when it has something to commit: the parent of the certified draft. */
  ghost function Top(s: Pm, qc: QuorumCert): Draft
    requires Committing(s, qc) != []
  {
    Committing(s, qc)[|Committing(s, qc)| - 1].draft
  }

  /** Whether or not the application accepts what there is to commit, the pool afterwards holds exactly the drafts above
      the parent of the certified draft, and that parent, unchanged; and of these exactly that parent is
      newly marked. */
  lemma UpdateLeavesPool(cfg: Config, s: Pm, qc: QuorumCert, apply: Executor, id: Id)
    requires Inv(s) && Fresh(s) && Committing(s, qc) != []
    ensures var s', top := Update(cfg, s, qc, apply).0, Top(s, qc);
            && Some(top) == LookupByQC(s.store, s.pool, qc, s.nextRef).value.parent
            && (id in s'.pool <==> id in s.pool && (s.pool[id].height > top.height || id == top.block.ID()))
            && (id in s'.pool ==>
                && s'.pool[id] == s.pool[id]
                && (IsCommitted(s', s'.pool[id]) <==> IsCommitted(s, s.pool[id]) || id == top.block.ID()))
  {
    hide Good, Tree, SingleChain, GoodPool, Lineage, Linked, Grows, Update, Prune, MarkedAlong, Found, LookupByQC,
         Validated, Committing, Tried;
    UpdatePrunes(cfg, s, qc, apply);
    AllTried(s, qc);
    PruneExact(s.store, s.pool, Top(s, qc));
    PoolKeyed(s);
    if id in Update(cfg, s, qc, apply).0.pool {
      PoolHeight(s, id);
      MarksOnTop(s, Committing(s, qc), id);
    }
  }

  lemma PoolHeight(s: Pm, id: Id)
    requires PoolOk(s) && id in s.pool
    ensures s.pool[id].height == s.pool[id].block.Number()
  {
  }

  /** Of the drafts that survive pruning to the last of a line, the line marks that last one and no other. */
  lemma MarksOnTop(s: Pm, cs: seq<Commit>, id: Id)
    requires Fresh(s) && Keyed(s.pool) && Ascends(cs) && cs != [] && id in s.pool
    requires forall k | 0 <= k < |cs| :: cs[k].draft.processed
    requires var top := cs[|cs| - 1].draft; s.pool[id].block.Number() > top.height || id == top.block.ID()
    ensures s.pool[id].ref in MarkedAlong(s.pool, cs) <==> id == cs[|cs| - 1].draft.block.ID()
  {
    hide Validated, MarkedAlong;
    MarksAreEntries(s.pool, cs, s.pool[id].ref);
    forall k | 0 <= k < |cs| && s.pool[id].ref in Marked(s.pool, cs[k].draft)
      ensures id == cs[k].draft.block.ID() && k == |cs| - 1
    {
      assert Rooted(cs[k]);
    }
    assert Rooted(cs[|cs| - 1]);
    if id == cs[|cs| - 1].draft.block.ID() {
      assert s.pool[id].ref in Marked(s.pool, cs[|cs| - 1].draft);
    }
  }

  /** Every draft in the pool that is marked as committed is in the store. */
  ghost predicate MarksTrue(s: Pm) {
    forall id | id in s.pool && IsCommitted(s, s.pool[id]) :: id in s.store.blocks
  }

  /** Update keeps the marks true exactly when the application accepts all there is to commit, or the parent of the
      certified draft is not in the pool: a refused draft is marked all the same. */
  lemma MarksTrueExactlyWhen(cfg: Config, s: Pm, qc: QuorumCert, apply: Executor)
    requires Inv(s) && Fresh(s) && MarksTrue(s) && Committing(s, qc) != []
    ensures MarksTrue(Update(cfg, s, qc, apply).0) <==>
              || Accepted(Committing(s, qc), s.store.best.ID(), apply) == |Committing(s, qc)|
              || Top(s, qc).block.ID() !in s.pool
  {
    hide Good, Tree, SingleChain, GoodPool, Lineage, Linked, Update, Found, LookupByQC, Fresh, Committing, Accepted,
         IsCommitted, Headers, Validated;
    var s', top := Update(cfg, s, qc, apply).0, Top(s, qc);
    UpdateExact(cfg, s, qc, apply);
    UpdateReturns(cfg, s, qc, apply);
    AllTried(s, qc);
    TopStoredExactlyWhen(s, s', Committing(s, qc), apply);
    forall id | id in s'.pool ensures id in s.pool && s'.pool[id] == s.pool[id]
      ensures IsCommitted(s', s'.pool[id]) <==> IsCommitted(s, s.pool[id]) || id == top.block.ID()
    {
      UpdateLeavesPool(cfg, s, qc, apply, id);
    }
    UpdateLeavesPool(cfg, s, qc, apply, top.block.ID());
  }

  /** The last draft of a line is stored exactly when all of it was committed. */
  lemma TopStoredExactlyWhen(s: Pm, s': Pm, cs: seq<Commit>, apply: Executor)
    requires StoreOk(s') && PrefixCommitted(s, s', cs, apply) && Ascends(cs) && cs != []
    requires cs[0].draft.height > s.store.best.Number()
    ensures cs[|cs| - 1].draft.block.ID() in s'.store.blocks <==>
              Accepted(cs, s.store.best.ID(), apply) == |cs|
  {
    hide SingleChain, Lineage, Linked, Headers, Accepted;
    var top, j := cs[|cs| - 1].draft.block, Accepted(cs, s.store.best.ID(), apply);
    assert Rooted(cs[|cs| - 1]);
    if j < |cs| {
      assert j > 0 ==> Rooted(cs[j - 1]);
      assert top.Number() > s'.store.best.Number();
      assert top.ID() in s'.store.blocks ==> TreeNode(s'.store, top.ID());
    }
  }
}
