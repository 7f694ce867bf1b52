/** The pacemaker as a state machine (consensus/pacemaker.go, consensus/pacemaker_commit.go,
    consensus/pacemaker_assist.go).

    One state, one handler per kind of input, taken one at a time.  Whatever the source asks of a library or of the
    application (signature checks, ApplyBlock, ProcessProposal, PrepareProposal, the next epoch) is an input of the
    step. */
module PacemakerMachine {
  import opened Blocks
  import opened ChainStore
  import opened Drafts
  import opened Rounds
  import opened Votes

  datatype Config = Config(base: nat, me: PubKey, precedes: IdOrder)

  datatype EpochInfo = EpochInfo(epoch: nat, committee: seq<PubKey>, inCommittee: bool)

  datatype CastVote = CastVote(round: Uint32, blockId: Id)

  datatype TimeoutCert = TimeoutCert(epoch: nat, round: Uint32, signers: set<nat>)

  datatype Pm = Pm(
    store: Store,
    pool: Pool,
    committed: set<nat>,
    nextRef: nat,
    qcHigh: DraftQC,
    lastCommitted: Block,
    lastVotingHeight: Uint32,
    lastVote: Option<CastVote>,
    rounds: RoundState,
    epoch: EpochInfo,
    qcVotes: Table<QCKey, ()>,
    tcVotes: Table<TCKey, ()>,
    tcHigh: Option<TimeoutCert>)

  /** Whether ApplyBlock accepts a block. */
  type Executor = Block -> bool

  // ---------------------------------------------------------------- committing one block

  datatype CommitResult = Committed | Known | ApplyFailed | AddFailed | Forked

  lemma FitsAboveBest(s: Store, h: Header)
    requires Tree(s) && h.Number() > s.best.Number()
    ensures Fits(s, h)
  {
    if h.parentId in s.blocks {
      assert TreeNode(s, h.parentId);
    }
  }

  /** CommitBlock: height guard, ApplyBlock, AddBlock, fork branch, lastCommitted. */
  ghost function CommitBlock(cfg: Config, s: Pm, blk: Block, escortQC: QuorumCert,
                             apply: Executor): (r: (Pm, CommitResult))
    requires Tree(s.store)
    ensures Tree(r.0.store)
  {
    if blk.Number() <= s.store.best.Number() then (s, Known)
    else if !apply(blk) then (s, ApplyFailed)
    else
      FitsAboveBest(s.store, blk.header);
      AddBlockKeepsTree(s.store, cfg.precedes, blk, escortQC);
      var (store, fork) := AddBlockSpec(s.store, cfg.precedes, blk, escortQC);
      if fork.Err? then (s.(store := store), AddFailed)
      else if |fork.value.branch| > 0 then (s.(store := store), Forked)
      else (s.(store := store, lastCommitted := blk), Committed)
  }

  /** What the commit side keeps: one gap-free chain whose head is lastCommitted. */
  ghost predicate StoreOk(s: Pm) {
    && Tree(s.store)
    && SingleChain(s.store)
    && s.lastCommitted == s.store.best
  }

  ghost predicate BestNamed(s: Pm) {
    s.store.bestQC.blockId == s.store.best.ID()
  }

  /** On a single chain the fork branch is never taken, and a block is committed exactly when it is a child of best that
      the application accepts, whatever certificate comes with it; the chain then grows by that block and nothing else
      changes otherwise. */
  lemma CommitBlockExact(cfg: Config, s: Pm, blk: Block, escortQC: QuorumCert, apply: Executor)
    requires StoreOk(s)
    ensures var (s', r) := CommitBlock(cfg, s, blk, escortQC, apply);
            && StoreOk(s') && Grows(s.store, s'.store)
            && r != Forked
            && (r == Committed <==>
                apply(blk) && blk.header.parentId == s.store.best.ID() && s.store.best.Number() + 1 < U32)
            && (r == Committed ==>
                && s' == s.(store := s'.store, lastCommitted := blk)
                && s'.store.best == blk && s'.store.bestQC == escortQC
                && Lineage(blk.header) == Lineage(s.store.best.header) + [blk.header])
            && (r != Committed ==> s' == s)
            && (r == Known <==> blk.Number() <= s.store.best.Number())
            && (r == ApplyFailed <==> blk.Number() > s.store.best.Number() && !apply(blk))
  {
    hide Tree, SingleChain, Lineage, Linked, AddBlockSpec, Fits, Grows;
    GrowsReflexive(s.store);
    if blk.Number() > s.store.best.Number() {
      FitsAboveBest(s.store, blk.header);
      AddBlockAboveBest(s.store, cfg.precedes, blk, escortQC);
      var (store, fork) := AddBlockSpec(s.store, cfg.precedes, blk, escortQC);
      assert fork.Ok? ==> fork.value.branch == [];
    }
  }

  /** A call of CommitBlock. */
  datatype CommitCall = CommitCall(block: Block, escortQC: QuorumCert, apply: Executor)

  ghost function AfterCommits(cfg: Config, s: Pm, calls: seq<CommitCall>): (r: Pm)
    requires Tree(s.store)
    ensures Tree(r.store)
  {
    if calls == [] then s
    else
      var c := calls[|calls| - 1];
      CommitBlock(cfg, AfterCommits(cfg, s, calls[..|calls| - 1]), c.block, c.escortQC, c.apply).0
  }

  ghost predicate Escorted(calls: seq<CommitCall>) {
    forall i | 0 <= i < |calls| :: calls[i].escortQC.blockId == calls[i].block.ID()
  }

  /** After any sequence of CommitBlock calls, with whatever certificates, the store is a single gap-free parent-linked
      chain that extends the one before, and its number index is best's ancestor line. */
  lemma {:induction false} CommitsKeepOneChain(cfg: Config, s: Pm, calls: seq<CommitCall>)
    requires StoreOk(s)
    ensures StoreOk(AfterCommits(cfg, s, calls)) && Grows(s.store, AfterCommits(cfg, s, calls).store)
  {
    hide CommitBlock, SingleChain, Grows, Tree, Lineage, Linked;
    if calls == [] {
      GrowsReflexive(s.store);
    } else {
      var n := |calls| - 1;
      CommitsKeepOneChain(cfg, s, calls[..n]);
      var mid := AfterCommits(cfg, s, calls[..n]);
      CommitBlockExact(cfg, mid, calls[n].block, calls[n].escortQC, calls[n].apply);
      GrowsTransitive(s.store, mid.store, AfterCommits(cfg, s, calls).store);
    }
  }

  /** No call of such a sequence takes the fork branch, and call i commits exactly when it brings an accepted child of
      what is best by then. */
  lemma CommitNeverForks(cfg: Config, s: Pm, calls: seq<CommitCall>, i: nat)
    requires StoreOk(s) && i < |calls|
    ensures var before := AfterCommits(cfg, s, calls[..i]);
            var result := CommitBlock(cfg, before, calls[i].block, calls[i].escortQC, calls[i].apply).1;
            && result != Forked
            && (result == Committed <==>
                && calls[i].apply(calls[i].block)
                && calls[i].block.header.parentId == before.store.best.ID()
                && before.store.best.Number() + 1 < U32)
  {
    hide CommitBlock, SingleChain, Grows, Tree, Lineage, Linked;
    CommitsKeepOneChain(cfg, s, calls[..i]);
    CommitBlockExact(cfg, AfterCommits(cfg, s, calls[..i]), calls[i].block, calls[i].escortQC, calls[i].apply);
  }

  /** When every block comes with its own certificate, bestQC keeps naming best. */
  lemma {:induction false} CommitsNameBest(cfg: Config, s: Pm, calls: seq<CommitCall>)
    requires StoreOk(s) && BestNamed(s) && Escorted(calls)
    ensures BestNamed(AfterCommits(cfg, s, calls))
  {
    hide CommitBlock, SingleChain, Tree, Lineage, Grows;
    if calls != [] {
      var n := |calls| - 1;
      CommitsNameBest(cfg, s, calls[..n]);
      CommitsKeepOneChain(cfg, s, calls[..n]);
      CommitBlockExact(cfg, AfterCommits(cfg, s, calls[..n]), calls[n].block, calls[n].escortQC, calls[n].apply);
    }
  }

  // ---------------------------------------------------------------- committing a line of drafts

  /** One turn of OnCommit's loop: a draft that failed validation is skipped, any other is committed, and whether or not
      that succeeded the drafts up to it are pruned. */
  ghost function CommitOne(cfg: Config, s: Pm, c: Commit, apply: Executor): (r: (Pm, bool))
    requires Tree(s.store)
    ensures Tree(r.0.store)
  {
    if !c.draft.processed then (s, false)
    else
      var (s', result) := CommitBlock(cfg, s, c.draft.block, c.escortQC, apply);
      (s'.(pool := Prune(s'.pool, c.draft), committed := s'.committed + Marked(s'.pool, c.draft)), result == Committed)
  }

  /** OnCommit from some point on; `last` is the block it would return so far. */
  ghost function CommitAll(cfg: Config, s: Pm, cs: seq<Commit>, last: Block, apply: Executor): (r: (Pm, Block))
    requires Tree(s.store)
    ensures Tree(r.0.store)
    decreases |cs|
  {
    if cs == [] then (s, last)
    else
      var (s', done) := CommitOne(cfg, s, cs[0], apply);
      CommitAll(cfg, s', cs[1..], if done then cs[0].draft.block else last, apply)
  }

  ghost function OnCommit(cfg: Config, s: Pm, cs: seq<Commit>, apply: Executor): (r: (Pm, Option<Block>))
    requires Tree(s.store)
    ensures Tree(r.0.store)
  {
    if cs == [] then (s, None)
    else
      var (s', last) := CommitAll(cfg, s, cs, cs[0].draft.block, apply);
      (s', Some(last))
  }

  /** Drafts in a parent-linked line, each with a parent draft. */
  ghost predicate Line(st: Store, cs: seq<Commit>) {
    && (forall k | 0 <= k < |cs| ::
         Good(st, cs[k].draft) && Rooted(cs[k]) && cs[k].draft.height == cs[0].draft.height + k)
    && (forall k | 0 < k < |cs| :: cs[k].draft.block.header.parentId == cs[k - 1].draft.block.ID())
  }

  predicate Rooted(c: Commit) {
    c.draft.parent.Some? && c.draft.height == c.draft.block.Number()
  }

  /** How many drafts of a line OnCommit commits on top of `best`: up to the first one that is not accepted. */
  ghost function Accepted(cs: seq<Commit>, best: Id, apply: Executor): (j: nat)
    ensures j <= |cs|
  {
    if cs != [] && cs[0].draft.processed && apply(cs[0].draft.block) && cs[0].draft.block.header.parentId == best
    then 1 + Accepted(cs[1..], cs[0].draft.block.ID(), apply)
    else 0
  }

  ghost predicate PoolOk(s: Pm) {
    GoodPool(s.store, s.pool)
  }

  lemma PoolSurvives(s: Store, s': Store, pool: Pool)
    requires GoodPool(s, pool) && Grows(s, s')
    ensures GoodPool(s', pool)
  {
    forall id | id in pool ensures pool[id].block.ID() == id && Good(s', pool[id]) {
      GoodSurvives(s, s', pool[id]);
    }
  }

  lemma LineSurvives(s: Store, s': Store, cs: seq<Commit>)
    requires Line(s, cs) && Grows(s, s')
    ensures Line(s', cs)
  {
    forall k | 0 <= k < |cs| ensures Good(s', cs[k].draft) {
      GoodSurvives(s, s', cs[k].draft);
    }
  }

  lemma CommitOneKeeps(cfg: Config, s: Pm, c: Commit, apply: Executor)
    requires StoreOk(s) && PoolOk(s) && Good(s.store, c.draft) && Rooted(c)
    ensures var (s', done) := CommitOne(cfg, s, c, apply);
            && StoreOk(s') && PoolOk(s') && Grows(s.store, s'.store)
            && (done <==>
                c.draft.processed && apply(c.draft.block) && c.draft.block.header.parentId == s.store.best.ID())
            && (done ==> s'.store.best == c.draft.block && s'.store.bestQC == c.escortQC
                         && Lineage(s'.store.best.header) == Lineage(s.store.best.header) + [c.draft.block.header])
            && (!done ==> s'.store == s.store)
            && s'.qcHigh == s.qcHigh && SameVoting(s, s')
  {
    if c.draft.processed {
      CommitBlockExact(cfg, s, c.draft.block, c.escortQC, apply);
      var mid := CommitBlock(cfg, s, c.draft.block, c.escortQC, apply).0;
      PoolSurvives(s.store, mid.store, mid.pool);
      GoodSurvives(s.store, mid.store, c.draft);
      PruneExact(mid.store, mid.pool, c.draft);
      assert c.draft.parent.value.block.Number() + 1 < U32;
    }
  }

  /** What committing leaves alone. */
  ghost predicate SameVoting(s: Pm, s': Pm) {
    && s'.lastVotingHeight == s.lastVotingHeight && s'.lastVote == s.lastVote
    && s'.rounds == s.rounds && s'.epoch == s.epoch && s'.qcVotes == s.qcVotes
    && s'.tcVotes == s.tcVotes && s'.tcHigh == s.tcHigh
  }

  /** From s to s' exactly the accepted prefix of the line was committed, in order, each block with the certificate
      listed for it. */
  ghost predicate PrefixCommitted(s: Pm, s': Pm, cs: seq<Commit>, apply: Executor) {
    var j := Accepted(cs, s.store.best.ID(), apply);
    && Lineage(s'.store.best.header) == Lineage(s.store.best.header) + Headers(cs[..j])
    && (j == 0 ==> s'.store == s.store)
    && (j > 0 ==> s'.store.best == cs[j - 1].draft.block && s'.store.bestQC == cs[j - 1].escortQC)
  }

  /** The headers of a line. */
  ghost function Headers(cs: seq<Commit>): (r: seq<Header>)
    ensures |r| == |cs|
  {
    seq(|cs|, k requires 0 <= k < |cs| => cs[k].draft.block.header)
  }

  /** OnCommit on a line of drafts above best commits exactly its accepted prefix, in order, each block with the
      certificate listed for it; best is then lastCommitted. */
  lemma {:induction false} CommitAllExact(cfg: Config, s: Pm, cs: seq<Commit>, last: Block, apply: Executor)
    requires StoreOk(s) && PoolOk(s) && Line(s.store, cs)
    requires cs != [] ==> cs[0].draft.height > s.store.best.Number()
    ensures var s' := CommitAll(cfg, s, cs, last, apply).0;
            && StoreOk(s') && PoolOk(s') && Grows(s.store, s'.store)
            && s'.qcHigh == s.qcHigh && SameVoting(s, s')
            && PrefixCommitted(s, s', cs, apply)
    decreases |cs|
  {
    hide Good, Tree, SingleChain, GoodPool, CommitOne, Lineage, Linked, Grows;
    if cs == [] {
      GrowsReflexive(s.store);
    } else {
      CommitOneKeeps(cfg, s, cs[0], apply);
      var (s1, done) := CommitOne(cfg, s, cs[0], apply);
      LineSurvives(s.store, s1.store, cs);
      LineTail(s1.store, cs);
      if done {
        CommitAllExact(cfg, s1, cs[1..], cs[0].draft.block, apply);
        GrowsTransitive(s.store, s1.store, CommitAll(cfg, s, cs, last, apply).0.store);
        HeadersCons(cs, Accepted(cs, s.store.best.ID(), apply));
        Regroup(Lineage(s.store.best.header), cs[0].draft.block.header,
          Headers(cs[1..][..Accepted(cs, s.store.best.ID(), apply) - 1]));
      } else {
        NothingAfterFailure(cs, s.store.best, apply);
        CommitAllExact(cfg, s1, cs[1..], last, apply);
      }
    }
  }

  /** The block that OnCommit returns: the last one committed, or `last` when none was. */
  lemma {:induction false} CommitAllReturns(cfg: Config, s: Pm, cs: seq<Commit>, last: Block, apply: Executor)
    requires StoreOk(s) && PoolOk(s) && Line(s.store, cs)
    requires cs != [] ==> cs[0].draft.height > s.store.best.Number()
    ensures var j := Accepted(cs, s.store.best.ID(), apply);
            CommitAll(cfg, s, cs, last, apply).1 == if j > 0 then cs[j - 1].draft.block else last
    decreases |cs|
  {
    hide Good, Tree, SingleChain, GoodPool, CommitOne, Lineage, Linked, Grows;
    if cs != [] {
      CommitOneKeeps(cfg, s, cs[0], apply);
      var (s1, done) := CommitOne(cfg, s, cs[0], apply);
      LineSurvives(s.store, s1.store, cs);
      LineTail(s1.store, cs);
      CommitAllReturns(cfg, s1, cs[1..], if done then cs[0].draft.block else last, apply);
      if !done {
        NothingAfterFailure(cs, s.store.best, apply);
      }
    }
  }

  /** On a line above best, OnCommit returns a block exactly when there is a draft to commit: the new best if any was
      committed, and otherwise the first draft of the line, which was not. */
  lemma OnCommitReturns(cfg: Config, s: Pm, cs: seq<Commit>, apply: Executor)
    requires StoreOk(s) && PoolOk(s) && Line(s.store, cs)
    requires cs != [] ==> cs[0].draft.height > s.store.best.Number()
    ensures var (s', last) := OnCommit(cfg, s, cs, apply);
            var j := Accepted(cs, s.store.best.ID(), apply);
            && (last.None? <==> cs == [])
            && (j > 0 ==> last == Some(s'.store.best) && s'.lastCommitted == s'.store.best)
            && (j == 0 ==> s'.store == s.store && (cs != [] ==> last == Some(cs[0].draft.block)))
  {
    hide Good, Tree, SingleChain, GoodPool, CommitAll, Lineage, Grows;
    if cs != [] {
      CommitAllExact(cfg, s, cs, cs[0].draft.block, apply);
      CommitAllReturns(cfg, s, cs, cs[0].draft.block, apply);
    }
  }

  lemma GrowsReflexive(st: Store)
    ensures Grows(st, st)
  {
  }

  lemma LineTail(st: Store, cs: seq<Commit>)
    requires Line(st, cs) && cs != []
    ensures Line(st, cs[1..])
  {
  }

  lemma HeadersCons(cs: seq<Commit>, j: nat)
    requires 0 < j <= |cs|
    ensures Headers(cs[..j]) == [cs[0].draft.block.header] + Headers(cs[1..][..j - 1])
  {
  }

  /** Once a draft of the line is not committed, no later one is: its parent is not best. */
  lemma NothingAfterFailure(cs: seq<Commit>, best: Block, apply: Executor)
    requires cs != [] && cs[0].draft.height == cs[0].draft.block.Number() > best.Number()
    requires |cs| > 1 ==> cs[1].draft.block.header.parentId == cs[0].draft.block.ID()
    ensures Accepted(cs[1..], best.ID(), apply) == 0
  {
  }

  /** The drafts of height `top` and above are untouched. */
  ghost predicate KeepsAbove(pool: Pool, pool': Pool, top: nat) {
    forall id | id in pool && id.number >= top :: id in pool' && pool'[id] == pool[id]
  }

  ghost predicate Keyed(pool: Pool) {
    forall id | id in pool :: pool[id].block.ID() == id
  }

  /** Nothing new in the pool. */
  ghost predicate Shrinks(pool: Pool, pool': Pool) {
    forall id | id in pool' :: id in pool && pool'[id] == pool[id]
  }

  lemma PruneKeepsAbove(pool: Pool, c: Draft, top: nat)
    requires Keyed(pool) && c.height < top
    ensures KeepsAbove(pool, Prune(pool, c), top) && Shrinks(pool, Prune(pool, c)) && Keyed(Prune(pool, c))
  {
    forall id | id in pool && id.number >= top ensures id in Prune(pool, c) {
      assert pool[id].block.ID() == id;
    }
  }

  /** Committing a line leaves the drafts above it alone. */
  lemma {:induction false} CommitAllKeepsAbove(cfg: Config, s: Pm, cs: seq<Commit>, last: Block, apply: Executor,
                                               top: nat)
    requires Tree(s.store) && Keyed(s.pool) && forall c | c in cs :: c.draft.height < top
    ensures var s' := CommitAll(cfg, s, cs, last, apply).0;
            KeepsAbove(s.pool, s'.pool, top) && Shrinks(s.pool, s'.pool) && Keyed(s'.pool)
    decreases |cs|
  {
    hide Tree, CommitBlock, Prune, Marked;
    if cs != [] {
      var (s1, done) := CommitOne(cfg, s, cs[0], apply);
      if cs[0].draft.processed {
        CommitKeepsPool(cfg, s, cs[0].draft.block, cs[0].escortQC, apply);
        PruneKeepsAbove(s.pool, cs[0].draft, top);
      }
      CommitAllKeepsAbove(cfg, s1, cs[1..], if done then cs[0].draft.block else last, apply, top);
    }
  }

  lemma CommitKeepsPool(cfg: Config, s: Pm, blk: Block, escortQC: QuorumCert, apply: Executor)
    requires Tree(s.store)
    ensures var s' := CommitBlock(cfg, s, blk, escortQC, apply).0; s'.pool == s.pool && s'.committed == s.committed
  {
    hide Tree, AddBlockSpec;
  }

  // ---------------------------------------------------------------- what committing prunes and marks

  /** The line up to its last validated draft: the part that OnCommit tries to commit. */
  ghost function Tried(cs: seq<Commit>): (t: nat)
    ensures t <= |cs| && (t > 0 ==> cs[t - 1].draft.processed)
    ensures (forall c | c in cs :: c.draft.processed) ==> t == |cs|
  {
    if cs == [] then 0
    else if Tried(cs[1..]) > 0 then 1 + Tried(cs[1..])
    else if cs[0].draft.processed then 1 else 0
  }

  /** The identities that OnCommit marks: the pool's drafts of the validated blocks of the line. */
  ghost function MarkedAlong(pool: Pool, cs: seq<Commit>): set<nat> {
    if cs == [] then {}
    else (if cs[0].draft.processed then Marked(pool, cs[0].draft) else {}) + MarkedAlong(pool, cs[1..])
  }

  ghost predicate Ascends(cs: seq<Commit>) {
    forall k | 0 <= k < |cs| :: Rooted(cs[k]) && cs[k].draft.height == cs[0].draft.height + k
  }

  lemma PruneTwice(pool: Pool, c: Draft, d: Draft)
    requires c.height < d.height
    ensures Prune(Prune(pool, c), d) == Prune(pool, d)
  {
  }

  lemma {:induction false} MarksSurvivePruning(pool: Pool, c: Draft, cs: seq<Commit>)
    requires Keyed(pool) && Ascends(cs) && (cs != [] ==> c.height < cs[0].draft.height)
    ensures MarkedAlong(Prune(pool, c), cs) == MarkedAlong(pool, cs)
    decreases |cs|
  {
    if cs != [] {
      MarksSurvivePruning(pool, c, cs[1..]);
      var id := cs[0].draft.block.ID();
      assert id in pool ==> pool[id].block.ID() == id;
    }
  }

  /** Whether or not the application accepts them, OnCommit prunes the pool up to the last draft it tried, and marks the
      pool's drafts of all it tried. */
  lemma {:induction false} CommitAllPrunes(cfg: Config, s: Pm, cs: seq<Commit>, last: Block, apply: Executor)
    requires Tree(s.store) && Keyed(s.pool) && Ascends(cs)
    ensures Pruned(s, CommitAll(cfg, s, cs, last, apply).0, cs)
    decreases |cs|
  {
    hide Tree, CommitBlock, Prune, Marked, Pruned, Ascends;
    if cs == [] {
      NothingPruned(s, s);
    } else {
      var c := cs[0].draft;
      var (s1, done) := CommitOne(cfg, s, cs[0], apply);
      CommitKeepsPool(cfg, s, c.block, cs[0].escortQC, apply);
      PruneKeepsAbove(s.pool, c, c.height + 1);
      AscendsTail(cs);
      CommitAllPrunes(cfg, s1, cs[1..], if done then c.block else last, apply);
      PrunedFurther(s, s1, CommitAll(cfg, s, cs, last, apply).0, cs);
    }
  }

  lemma AscendsTail(cs: seq<Commit>)
    requires Ascends(cs) && cs != []
    ensures Ascends(cs[1..])
  {
  }

  /** The first draft of a line, and then the rest. */
  lemma PrunedFurther(s: Pm, s1: Pm, s': Pm, cs: seq<Commit>)
    requires Keyed(s.pool) && Ascends(cs) && cs != [] && Pruned(s1, s', cs[1..])
    requires var c := cs[0].draft;
             if c.processed then s1.pool == Prune(s.pool, c) && s1.committed == s.committed + Marked(s.pool, c)
             else s1.pool == s.pool && s1.committed == s.committed
    ensures Pruned(s, s', cs)
  {
    hide Prune, Marked;
    var c := cs[0].draft;
    if c.processed {
      AscendsTail(cs);
      MarksSurvivePruning(s.pool, c, cs[1..]);
      if Tried(cs[1..]) > 0 {
        PruneTwice(s.pool, c, cs[1..][Tried(cs[1..]) - 1].draft);
      }
    }
  }

  // ---------------------------------------------------------------- QCHigh

  ghost predicate HighOk(s: Pm) {
    s.qcHigh.node.Some? && Matches(s.qcHigh.node.value, s.qcHigh.qc) && Good(s.store, s.qcHigh.node.value)
  }

  /** The block that QCHigh certifies can be found by its certificate. */
  ghost predicate HighKnown(s: Pm) {
    Found(s.store, s.pool, s.qcHigh.qc)
  }

  /** The test of UpdateQCHigh.  It reads the height and round of the present QCHigh's node. */
  predicate Raises(s: Pm, d: DraftQC)
    requires s.qcHigh.node.Some?
  {
    || (d.node.Some? && d.qc.Number() > s.qcHigh.qc.Number())
    || (d.qc.Number() == s.qcHigh.node.value.height && d.qc.round > s.qcHigh.node.value.round)
  }

  function UpdateQCHigh(s: Pm, d: DraftQC): Pm
    requires s.qcHigh.node.Some?
  {
    if Raises(s, d) then s.(qcHigh := d) else s
  }

  /** (height, round) of a certificate, compared lexicographically. */
  predicate Below(a: QuorumCert, b: QuorumCert) {
    a.Number() < b.Number() || (a.Number() == b.Number() && a.round <= b.round)
  }

  /** QCHigh only rises, and it keeps a node that matches it exactly when a certificate without a known node is not
      adopted: the second test of the source does not ask for the node. */
  lemma QCHighRises(s: Pm, d: DraftQC)
    requires HighOk(s) && (d.node.Some? ==> Matches(d.node.value, d.qc) && Good(s.store, d.node.value))
    ensures var s' := UpdateQCHigh(s, d);
            && Below(s.qcHigh.qc, s'.qcHigh.qc)
            && (HighOk(s') <==>
                d.node.Some? || !(d.qc.Number() == s.qcHigh.qc.Number() && d.qc.round > s.qcHigh.qc.round))
            && (Raises(s, d) ==> !Below(s'.qcHigh.qc, s.qcHigh.qc))
  {
  }

  /** A certificate that QCHigh may take over without losing its node. */
  predicate Safe(s: Pm, d: DraftQC) {
    d.node.Some? || !(d.qc.Number() == s.qcHigh.qc.Number() && d.qc.round > s.qcHigh.qc.round)
  }

  /** A certificate whose node is what it finds leaves QCHigh with a matching node that can be found. */
  lemma QCHighStaysKnown(s: Pm, d: DraftQC)
    requires HighOk(s) && HighKnown(s) && Safe(s, d)
    requires d.node.Some? ==> Matches(d.node.value, d.qc) && Good(s.store, d.node.value) && Found(s.store, s.pool, d.qc)
    ensures var s' := UpdateQCHigh(s, d);
            HighOk(s') && HighKnown(s') && Below(s.qcHigh.qc, s'.qcHigh.qc)
              && (d.node.Some? ==> d.qc.Number() <= s'.qcHigh.qc.Number())
  {
    hide Good, Found;
    QCHighRises(s, d);
  }

  lemma KnownSurvives(s: Pm, s': Pm, top: nat)
    requires HighKnown(s) && Grows(s.store, s'.store) && s'.qcHigh == s.qcHigh
    requires KeepsAbove(s.pool, s'.pool, top) && top <= s.qcHigh.qc.Number()
    ensures HighKnown(s')
  {
    hide Lineage;
  }

  // ---------------------------------------------------------------- Update

  /** The Committed flag of a draft: set by pruning, or from the start for a draft made from the store. */
  predicate IsCommitted(s: Pm, d: Draft) {
    d.parent.None? || d.ref in s.committed
  }

  ghost function Update(cfg: Config, s: Pm, qc: QuorumCert, apply: Executor): (r: (Pm, Option<Block>))
    requires Tree(s.store) && PoolOk(s) && s.qcHigh.node.Some?
    ensures Tree(r.0.store)
  {
    LookupByQCMatches(s.store, s.pool, qc, s.nextRef);
    var found := LookupByQC(s.store, s.pool, qc, s.nextRef);
    var s1 := s.(nextRef := s.nextRef + 1);
    if found.None? then (s1, None)
    else
      var bPrime := found.value;
      if IsCommitted(s, bPrime) then (s1, None)
      else
        var s2 := UpdateQCHigh(s1, DraftQC(qc, Some(bPrime)));
        if bPrime.parent != bPrime.justify.value.node then (s2, None)
        else OnCommit(cfg, s2, AncestorsAbove(bPrime, s2.lastCommitted.Number()), apply)
  }

  /** Update goes on to commit: the certified draft is known, not committed, and its parent is the node it was
      built on. */
  ghost predicate Commits(s: Pm, qc: QuorumCert) {
    var found := LookupByQC(s.store, s.pool, qc, s.nextRef);
    && found.Some?
    && !IsCommitted(s, found.value)
    && found.value.justify.Some?
    && found.value.parent == found.value.justify.value.node
  }

  ghost predicate Inv(s: Pm) {
    StoreOk(s) && PoolOk(s) && HighOk(s) && HighKnown(s)
  }

  lemma HighSurvives(s: Pm, s': Pm)
    requires HighOk(s) && Grows(s.store, s'.store) && s'.qcHigh == s.qcHigh
    ensures HighOk(s')
  {
    GoodSurvives(s.store, s'.store, s.qcHigh.node.value);
  }

  /** The line Update commits. */
  lemma UpdateLine(s: Pm, d: Draft)
    requires StoreOk(s) && Good(s.store, d)
    ensures var cs := AncestorsAbove(d, s.store.best.Number());
            && Line(s.store, cs)
            && (cs != [] ==> cs[0].draft.height == s.store.best.Number() + 1)
  {
    hide Good, Tree, SingleChain, Lineage, Linked, AncestorsAbove;
    var cs := AncestorsAbove(d, s.store.best.Number());
    AncestorsAboveExact(s.store, d, s.store.best.Number());
    forall k | 0 <= k < |cs| ensures Rooted(cs[k]) {
      GoodNumber(s.store, cs[k].draft);
    }
    forall k | 0 < k < |cs| ensures cs[k].draft.block.header.parentId == cs[k - 1].draft.block.ID() {
      assert ChildOf(d, cs, k - 1) == cs[k].draft;
      ParentDraft(s.store, cs[k].draft);
    }
  }

  lemma GoodNumber(st: Store, d: Draft)
    requires Good(st, d)
    ensures d.height == d.block.Number()
  {
  }

  /** Update keeps the invariant, raises QCHigh at most, and commits the accepted prefix of the certified draft's strict
      ancestors above lastCommitted.  The walk over parents never meets a missing one, on any fork. */
  lemma UpdateExact(cfg: Config, s: Pm, qc: QuorumCert, apply: Executor)
    requires Inv(s)
    ensures var s' := Update(cfg, s, qc, apply).0;
            && Inv(s') && Grows(s.store, s'.store) && SameVoting(s, s')
            && Below(s.qcHigh.qc, s'.qcHigh.qc)
            && Shrinks(s.pool, s'.pool)
            && (!Commits(s, qc) ==> s'.store == s.store && s'.pool == s.pool)
            && (Commits(s, qc) ==>
                var d := LookupByQC(s.store, s.pool, qc, s.nextRef).value;
                && d.block.ID() == qc.blockId && Good(s.store, d)
                && PrefixCommitted(s, s', AncestorsAbove(d, s.store.best.Number()), apply))
  {
    hide Good, Tree, SingleChain, GoodPool, Lineage, Linked, Grows, PrefixCommitted, LookupByQC, AncestorsAbove,
         OnCommit, Found;
    var found := LookupByQC(s.store, s.pool, qc, s.nextRef);
    FoundForUpdate(s, qc);
    var s1 := s.(nextRef := s.nextRef + 1);
    GrowsReflexive(s.store);
    if found.Some? && !IsCommitted(s, found.value) {
      var d := found.value;
      QCHighStaysKnown(s1, DraftQC(qc, Some(d)));
      var s2 := UpdateQCHigh(s1, DraftQC(qc, Some(d)));
      if d.parent == d.justify.value.node {
        CommitAncestors(cfg, s2, d, apply);
        SamePrefix(s, s2, OnCommit(cfg, s2, AncestorsAbove(d, s2.lastCommitted.Number()), apply).0,
                   AncestorsAbove(d, s2.lastCommitted.Number()), apply);
      }
    }
  }

  lemma FoundForUpdate(s: Pm, qc: QuorumCert)
    requires Tree(s.store) && PoolOk(s)
    ensures var found := LookupByQC(s.store, s.pool, qc, s.nextRef);
            found.Some? ==>
              && Matches(found.value, qc) && Good(s.store, found.value) && Found(s.store, s.pool, qc)
              && (found.value.parent.Some? ==> found.value.justify.Some? && found.value.justify.value.node.Some?)
  {
    LookupByQCMatches(s.store, s.pool, qc, s.nextRef);
  }

  lemma SamePrefix(s: Pm, s2: Pm, s': Pm, cs: seq<Commit>, apply: Executor)
    requires PrefixCommitted(s2, s', cs, apply) && s2.store == s.store
    ensures PrefixCommitted(s, s', cs, apply)
  {
  }

  lemma CommitAncestors(cfg: Config, s: Pm, d: Draft, apply: Executor)
    requires Inv(s) && Good(s.store, d) && d.height <= s.qcHigh.qc.Number()
    ensures var cs := AncestorsAbove(d, s.lastCommitted.Number());
            var s' := OnCommit(cfg, s, cs, apply).0;
            && Inv(s') && Grows(s.store, s'.store) && SameVoting(s, s') && s'.qcHigh == s.qcHigh
            && Shrinks(s.pool, s'.pool)
            && PrefixCommitted(s, s', cs, apply)
  {
    hide Good, Tree, SingleChain, GoodPool, Lineage, Linked, Grows, AncestorsAbove, CommitAll, Found;
    var cs := AncestorsAbove(d, s.store.best.Number());
    UpdateLine(s, d);
    if cs == [] {
      GrowsReflexive(s.store);
      assert Headers(cs[..0]) == [];
    } else {
      hide PrefixCommitted;
      CommitAllExact(cfg, s, cs, cs[0].draft.block, apply);
      HighSurvives(s, CommitAll(cfg, s, cs, cs[0].draft.block, apply).0);
      PoolKeyed(s);
      AncestorsBelow(s, d);
      CommitAllKeepsAbove(cfg, s, cs, cs[0].draft.block, apply, d.height);
      KnownSurvives(s, CommitAll(cfg, s, cs, cs[0].draft.block, apply).0, d.height);
    }
  }

  lemma PoolKeyed(s: Pm)
    requires PoolOk(s)
    ensures Keyed(s.pool)
  {
  }

  lemma AncestorsBelow(s: Pm, d: Draft)
    requires StoreOk(s) && Good(s.store, d)
    ensures forall c | c in AncestorsAbove(d, s.store.best.Number()) :: c.draft.height < d.height
  {
    hide Good, Tree, SingleChain, Lineage, AncestorsAbove;
    AncestorsAboveExact(s.store, d, s.store.best.Number());
  }

  /** The drafts that Update would commit for a certificate, if the application accepts them all. */
  ghost function Committing(s: Pm, qc: QuorumCert): seq<Commit> {
    if Commits(s, qc) then AncestorsAbove(LookupByQC(s.store, s.pool, qc, s.nextRef).value, s.store.best.Number())
      else []
  }

  /** Update takes over its certificate exactly when it finds an uncommitted draft for it and the certificate is above
      QCHigh. */
  lemma UpdateTakesHigher(cfg: Config, s: Pm, qc: QuorumCert, apply: Executor)
    requires Inv(s)
    ensures var found := LookupByQC(s.store, s.pool, qc, s.nextRef);
            var adopted := found.Some? && !IsCommitted(s, found.value) && !Below(qc, s.qcHigh.qc);
            Update(cfg, s, qc, apply).0.qcHigh == if adopted then DraftQC(qc, found) else s.qcHigh
  {
    hide Good, Tree, SingleChain, GoodPool, Lineage, Linked, Grows, PrefixCommitted, LookupByQC, AncestorsAbove,
         OnCommit, Found;
    var found := LookupByQC(s.store, s.pool, qc, s.nextRef);
    FoundForUpdate(s, qc);
    if found.Some? && !IsCommitted(s, found.value) {
      var s1, d := s.(nextRef := s.nextRef + 1), DraftQC(qc, found);
      QCHighStaysKnown(s1, d);
      CommitAncestors(cfg, UpdateQCHigh(s1, d), found.value, apply);
    }
  }

  /** What Update commits, and the block it returns: none exactly when there is nothing to commit, the new head when
      something was committed, and otherwise the first draft of the line. */
  lemma UpdateReturns(cfg: Config, s: Pm, qc: QuorumCert, apply: Executor)
    requires Inv(s)
    ensures var (s', last) := Update(cfg, s, qc, apply);
            var cs := Committing(s, qc);
            var j := Accepted(cs, s.store.best.ID(), apply);
            && PrefixCommitted(s, s', cs, apply)
            && (last.None? <==> cs == [])
            && (j > 0 ==> last == Some(s'.lastCommitted))
            && (j == 0 && cs != [] ==> last == Some(cs[0].draft.block))
  {
    hide Good, Tree, SingleChain, GoodPool, Lineage, Linked, Grows, LookupByQC, AncestorsAbove, OnCommit, Found,
         Headers;
    var found := LookupByQC(s.store, s.pool, qc, s.nextRef);
    FoundForUpdate(s, qc);
    UpdateExact(cfg, s, qc, apply);
    if Commits(s, qc) {
      var s1, d := s.(nextRef := s.nextRef + 1), DraftQC(qc, found);
      QCHighStaysKnown(s1, d);
      UpdateLine(s, found.value);
      OnCommitReturns(cfg, UpdateQCHigh(s1, d), AncestorsAbove(found.value, s.store.best.Number()), apply);
    } else {
      NoHeaders();
    }
  }

  lemma NoHeaders()
    ensures Headers([]) == []
  {
  }

  /** Update prunes the drafts up to the last one it tried to commit, and marks the pool's drafts of all it tried. */
  lemma UpdatePrunes(cfg: Config, s: Pm, qc: QuorumCert, apply: Executor)
    requires Inv(s)
    ensures var s' := Update(cfg, s, qc, apply).0;
            Pruned(s, s', Committing(s, qc)) && s'.nextRef == s.nextRef + 1
  {
    hide Good, Tree, SingleChain, GoodPool, Lineage, Linked, Grows, LookupByQC, AncestorsAbove, OnCommit, Found, Prune,
         Tried, MarkedAlong, Pruned;
    var found := LookupByQC(s.store, s.pool, qc, s.nextRef);
    FoundForUpdate(s, qc);
    if Commits(s, qc) {
      UpdateLine(s, found.value);
      PoolKeyed(s);
      var s2 := UpdateQCHigh(s.(nextRef := s.nextRef + 1), DraftQC(qc, found));
      OnCommitPrunes(cfg, s2, Committing(s, qc), apply);
      SamePruned(s, s2, Update(cfg, s, qc, apply).0, Committing(s, qc));
    } else {
      NothingPruned(s, Update(cfg, s, qc, apply).0);
    }
  }

  /** The pool and the marks once a line was tried. */
  ghost predicate Pruned(s: Pm, s': Pm, cs: seq<Commit>) {
    && s'.pool == (if Tried(cs) == 0 then s.pool else Prune(s.pool, cs[Tried(cs) - 1].draft))
    && s'.committed == s.committed + MarkedAlong(s.pool, cs)
  }

  lemma SamePruned(s: Pm, s2: Pm, s': Pm, cs: seq<Commit>)
    requires Pruned(s2, s', cs) && s2.pool == s.pool && s2.committed == s.committed
    ensures Pruned(s, s', cs)
  {
  }

  lemma NothingPruned(s: Pm, s': Pm)
    requires s'.pool == s.pool && s'.committed == s.committed
    ensures Pruned(s, s', [])
  {
  }

  lemma OnCommitPrunes(cfg: Config, s: Pm, cs: seq<Commit>, apply: Executor)
    requires Tree(s.store) && Keyed(s.pool) && Ascends(cs)
    ensures var s' := OnCommit(cfg, s, cs, apply).0; Pruned(s, s', cs) && s'.nextRef == s.nextRef
  {
    hide Tree, CommitAll, Prune;
    if cs != [] {
      CommitAllPrunes(cfg, s, cs, cs[0].draft.block, apply);
      CommitAllKeepsRef(cfg, s, cs, cs[0].draft.block, apply);
    }
  }

  lemma {:induction false} CommitAllKeepsRef(cfg: Config, s: Pm, cs: seq<Commit>, last: Block, apply: Executor)
    requires Tree(s.store)
    ensures CommitAll(cfg, s, cs, last, apply).0.nextRef == s.nextRef
    decreases |cs|
  {
    hide Tree, AddBlockSpec;
    if cs != [] {
      var (s1, done) := CommitOne(cfg, s, cs[0], apply);
      CommitAllKeepsRef(cfg, s1, cs[1..], if done then cs[0].draft.block else last, apply);
    }
  }

  /** Drafts as high as QCHigh and above are never pruned. */
  lemma UpdateKeepsHigh(cfg: Config, s: Pm, qc: QuorumCert, apply: Executor)
    requires Inv(s)
    ensures var s' := Update(cfg, s, qc, apply).0; KeepsAbove(s.pool, s'.pool, s'.qcHigh.qc.Number())
  {
    hide Good, Tree, SingleChain, GoodPool, Lineage, Linked, Grows, LookupByQC, AncestorsAbove, Update, Found, Prune;
    UpdatePrunes(cfg, s, qc, apply);
    UpdateTakesHigher(cfg, s, qc, apply);
    var cs := Committing(s, qc);
    if Tried(cs) > 0 {
      var d := LookupByQC(s.store, s.pool, qc, s.nextRef).value;
      FoundForUpdate(s, qc);
      AncestorsBelow(s, d);
      PoolKeyed(s);
      assert cs[Tried(cs) - 1] in cs;
      PruneKeepsAbove(s.pool, cs[Tried(cs) - 1].draft, Update(cfg, s, qc, apply).0.qcHigh.qc.Number());
    }
  }

  /** When the certified draft descends from the last committed block and the application accepts its ancestors, Update
      commits all of its strict ancestors above lastCommitted, up to its parent, and bestQC is then the certificate the
      draft itself carries for that parent. */
  lemma UpdateCommitsUpToParent(cfg: Config, s: Pm, qc: QuorumCert, apply: Executor)
    requires Inv(s) && Commits(s, qc)
    requires var d := LookupByQC(s.store, s.pool, qc, s.nextRef).value;
             && Extends(d.block.header, s.store.best.header)
             && forall c | c in AncestorsAbove(d, s.store.best.Number()) :: c.draft.processed && apply(c.draft.block)
    ensures var d := LookupByQC(s.store, s.pool, qc, s.nextRef).value;
            var s' := Update(cfg, s, qc, apply).0;
            && |Lineage(d.block.header)| == d.height + 1
            && (d.height > s.store.best.Number() + 1 ==>
                && Lineage(s'.store.best.header) == Lineage(d.block.header)[..d.height]
                && s'.lastCommitted.ID() == d.block.header.parentId
                && s'.store.bestQC == d.block.qc)
            && (d.height <= s.store.best.Number() + 1 ==> s'.store == s.store)
  {
    hide Update, Good, Tree, SingleChain, GoodPool, Lineage, Linked, Grows, LookupByQC, AncestorsAbove;
    UpdateExact(cfg, s, qc, apply);
    var d := LookupByQC(s.store, s.pool, qc, s.nextRef).value;
    var s' := Update(cfg, s, qc, apply).0;
    AncestorsAboveExact(s.store, d, s.store.best.Number());
    WholeLine(s, d, apply);
  }

  lemma WholeLine(s: Pm, d: Draft, apply: Executor)
    requires StoreOk(s) && Good(s.store, d) && Extends(d.block.header, s.store.best.header)
    requires forall c | c in AncestorsAbove(d, s.store.best.Number()) :: c.draft.processed && apply(c.draft.block)
    ensures var cs := AncestorsAbove(d, s.store.best.Number());
            && |Lineage(d.block.header)| == d.height + 1
            && Accepted(cs, s.store.best.ID(), apply) == |cs|
            && cs[..|cs|] == cs
            && (|cs| > 0 ==>
                && cs[|cs| - 1].escortQC == d.block.qc
                && cs[|cs| - 1].draft.block.ID() == d.block.header.parentId
                && Lineage(s.store.best.header) + Headers(cs) == Lineage(d.block.header)[..d.height])
  {
    hide Good, Tree, SingleChain, Lineage, Linked, AncestorsAbove, Extends, Accepted, Headers;
    var n := s.store.best.Number();
    AllAncestorsAccepted(s, d, apply);
    HeightOfLineage(s.store, d);
    if AncestorsAbove(d, n) != [] {
      ParentDraft(s.store, d);
      LastOfAncestors(d, n);
      LineFills(s, d);
    }
  }

  lemma HeightOfLineage(st: Store, d: Draft)
    requires Tree(st) && Good(st, d)
    ensures |Lineage(d.block.header)| == d.height + 1
  {
    GoodLinked(st, d);
    LinkedNumber(d.block.header);
  }

  lemma AllAncestorsAccepted(s: Pm, d: Draft, apply: Executor)
    requires StoreOk(s) && Good(s.store, d) && Extends(d.block.header, s.store.best.header)
    requires forall c | c in AncestorsAbove(d, s.store.best.Number()) :: c.draft.processed && apply(c.draft.block)
    ensures var cs := AncestorsAbove(d, s.store.best.Number()); Accepted(cs, s.store.best.ID(), apply) == |cs|
  {
    hide Good, Tree, SingleChain, Lineage, Linked, AncestorsAbove, Extends, Accepted;
    UpdateLine(s, d);
    FirstIsChildOfBest(s, d);
    AllAccepted(AncestorsAbove(d, s.store.best.Number()), s.store.best.ID(), apply);
  }

  lemma FirstIsChildOfBest(s: Pm, d: Draft)
    requires StoreOk(s) && Good(s.store, d) && Extends(d.block.header, s.store.best.header)
    ensures var cs := AncestorsAbove(d, s.store.best.Number());
            cs != [] ==> cs[0].draft.block.header.parentId == s.store.best.ID()
  {
    hide Good, Tree, SingleChain, Lineage, Linked, AncestorsAbove;
    var n, h := s.store.best.Number(), d.block.header;
    AncestorHeaders(s.store, d, n);
    BestLinked(s.store);
    if AncestorsAbove(d, n) != [] {
      ParentInLineage(h, n + 1);
      assert Lineage(h)[n] == Lineage(s.store.best.header)[n];
    }
  }

  lemma LineFills(s: Pm, d: Draft)
    requires StoreOk(s) && Good(s.store, d) && Extends(d.block.header, s.store.best.header)
    requires AncestorsAbove(d, s.store.best.Number()) != []
    ensures |Lineage(d.block.header)| == d.height + 1
    ensures Lineage(s.store.best.header) + Headers(AncestorsAbove(d, s.store.best.Number()))
            == Lineage(d.block.header)[..d.height]
  {
    hide Good, Tree, SingleChain, Lineage, Linked, AncestorsAbove;
    var n, h := s.store.best.Number(), d.block.header;
    AncestorHeaders(s.store, d, n);
    BestLinked(s.store);
    SplitLine(Lineage(h), Lineage(s.store.best.header), Headers(AncestorsAbove(d, n)), d.height);
  }

  lemma BestLinked(st: Store)
    requires Tree(st)
    ensures Linked(st.best.header) && |Lineage(st.best.header)| == st.best.Number() + 1
    ensures Lineage(st.best.header)[st.best.Number()] == st.best.header
  {
    LinkedNumber(st.best.header);
  }

  lemma ParentDraft(st: Store, d: Draft)
    requires Good(st, d)
    ensures d.parent.Some? ==> d.block.header.parentId == d.parent.value.block.ID()
  {
  }

  lemma LastOfAncestors(d: Draft, n: nat)
    requires AncestorsAbove(d, n) != []
    ensures d.parent.Some? && AncestorsAbove(d, n)[|AncestorsAbove(d, n)| - 1] == Commit(d.parent.value, d.block.qc)
  {
  }

  lemma {:induction false} AllAccepted(cs: seq<Commit>, best: Id, apply: Executor)
    requires forall c | c in cs :: c.draft.processed && apply(c.draft.block)
    requires cs != [] ==> cs[0].draft.block.header.parentId == best
    requires forall k | 0 < k < |cs| :: cs[k].draft.block.header.parentId == cs[k - 1].draft.block.ID()
    ensures Accepted(cs, best, apply) == |cs|
    decreases |cs|
  {
    if cs != [] {
      AllAccepted(cs[1..], cs[0].draft.block.ID(), apply);
    }
  }

  lemma SplitLine<T>(line: seq<T>, low: seq<T>, mid: seq<T>, n: nat)
    requires low <= line && n <= |line| && |low| + |mid| == n
    requires forall k | 0 <= k < |mid| :: mid[k] == line[|low| + k]
    ensures low + mid == line[..n]
  {
  }

  // ---------------------------------------------------------------- proposals

  /** The transactions that ValidateProposal collects: those of the draft with this id and of its ancestors, looked up
      by id, down to the first committed or unknown one. */
  ghost function UncommittedTxs(s: Pm, id: Id): set<Tx>
    requires PoolOk(s)
    decreases id
  {
    if id !in s.pool || IsCommitted(s, s.pool[id]) then {}
    else
      var d := s.pool[id];
      assert d.block.ID() == id;
      (set tx | tx in d.block.txs) + UncommittedTxs(s, d.block.header.parentId)
  }

  datatype ProposalMsg = ProposalMsg(block: Block, round: Uint32)

  /** The checks of OnReceiveProposal up to the voting guard. */
  ghost predicate AcceptsProposal(s: Pm, m: ProposalMsg, qcValid: bool, tcValid: bool, accepted: bool)
    requires PoolOk(s)
  {
    var blk := m.block;
    var parent := Lookup(s.store, s.pool, blk.header.parentId, s.nextRef);
    && !(blk.Number() < s.lastCommitted.Number())
    && parent.Some?
    && qcValid
    && var grandparent := Lookup(s.store, s.pool, parent.value.block.header.parentId, s.nextRef + 1);
    && !(m.round == 0 && grandparent.Some? && !grandparent.value.block.IsKBlock())
    && !(m.round > 0 && (parent.value.round + 1) % U32 != m.round &&
         (!tcValid || (!parent.value.block.IsKBlock() && parent.value.round >= m.round)))
    && !(exists tx | tx in blk.txs :: tx in UncommittedTxs(s, blk.header.parentId))
    && accepted
  }

  /** The draft made from an accepted proposal. */
  function NewDraft(s: Pm, m: ProposalMsg): Draft
    requires Lookup(s.store, s.pool, m.block.header.parentId, s.nextRef).Some?
  {
    var parent := Lookup(s.store, s.pool, m.block.header.parentId, s.nextRef);
    Draft(s.nextRef + 2, m.block, m.block.Number(), m.round, parent, Some(DraftQC(m.block.qc, parent)), true)
  }

  /** The state with the new draft placed in the proposal space, unless its id is there already. */
  function Placed(s: Pm, d: Draft): Pm {
    s.(nextRef := s.nextRef + 3, pool := if d.block.ID() in s.pool then s.pool else s.pool[d.block.ID() := d])
  }

  /** The voting guard. */
  predicate MayVote(s: Pm, d: Draft) {
    d.height >= s.lastVotingHeight && MeetsWithin(d, s.lastCommitted.ID(), 10)
  }

  /** The proposal is below the last representable height. */
  predicate HeightFits(m: ProposalMsg) {
    m.block.header.parentId.number + 1 < U32
  }

  predicate NamesItsParent(m: ProposalMsg) {
    m.block.qc.blockId == m.block.header.parentId
  }

  lemma NewDraftGood(s: Pm, m: ProposalMsg)
    requires Tree(s.store) && PoolOk(s) && HeightFits(m)
    requires Lookup(s.store, s.pool, m.block.header.parentId, s.nextRef).Some?
    ensures var d := NewDraft(s, m);
            && Good(s.store, d) && PoolOk(Placed(s, d))
            && d.parent.value.block.ID() == m.block.header.parentId
  {
    LookupGood(s.store, s.pool, m.block.header.parentId, s.nextRef);
    var d := NewDraft(s, m);
    assert d.block.Number() == d.parent.value.block.Number() + 1;
  }

  /** The step records a vote. */
  ghost predicate RecordsVote(s: Pm, m: ProposalMsg, qcValid: bool, tcValid: bool, accepted: bool)
    requires PoolOk(s)
  {
    AcceptsProposal(s, m, qcValid, tcValid, accepted) && MayVote(s, NewDraft(s, m))
  }

  /** The second half of OnReceiveProposal: Update, record the vote, enter the next round. */
  ghost function VoteOn(cfg: Config, s: Pm, bnew: Draft, m: ProposalMsg, apply: Executor): Pm
    requires Tree(s.store) && PoolOk(s) && s.qcHigh.node.Some?
  {
    if !MayVote(s, bnew) then s
    else
      var (s2, last) := Update(cfg, s, m.block.qc, apply);
      var s3 := s2.(lastVote := Some(CastVote(m.round, m.block.ID())), lastVotingHeight := m.block.ID().number);
      if last.Some? && last.value.IsKBlock() then s3
      else s3.(rounds := EnterRound(cfg.base, s3.rounds, s3.epoch.inCommittee, (m.round + 1) % U32, RegularRound))
  }

  ghost function OnReceiveProposal(cfg: Config, s: Pm, m: ProposalMsg, qcValid: bool, tcValid: bool, accepted: bool,
                                   apply: Executor): Pm
    requires Tree(s.store) && PoolOk(s) && s.qcHigh.node.Some? && HeightFits(m)
  {
    if !AcceptsProposal(s, m, qcValid, tcValid, accepted) then s
    else
      NewDraftGood(s, m);
      VoteOn(cfg, Placed(s, NewDraft(s, m)), NewDraft(s, m), m, apply)
  }

  /** What Update would commit for a proposal's certificate does not go past the point where the proposal and the
      certified block part. */
  ghost predicate StaysOnLine(s: Pm, m: ProposalMsg, apply: Executor) {
    var cs := Committing(s, m.block.qc);
    var j := Accepted(cs, s.store.best.ID(), apply);
    j > 0 ==>
      && m.block.qc.blockId.Digest?
      && s.store.best.Number() + j < CommonPrefix(Lineage(m.block.header), Lineage(m.block.qc.blockId.header))
  }

  /** A step that records a vote ends with the voted block descending from lastCommitted, although the same step may
      have advanced lastCommitted, exactly when what the certificate commits stays on the proposal's line; a certificate
      that names the proposal's parent always does. */
  lemma VoteExtendsCommitted(cfg: Config, s: Pm, m: ProposalMsg, qcValid: bool, tcValid: bool, accepted: bool,
                             apply: Executor)
    requires Inv(s) && HeightFits(m) && RecordsVote(s, m, qcValid, tcValid, accepted)
    ensures var s' := OnReceiveProposal(cfg, s, m, qcValid, tcValid, accepted, apply);
            && (Extends(m.block.header, s'.lastCommitted.header) <==> StaysOnLine(Placed(s, NewDraft(s, m)), m, apply))
            && (NamesItsParent(m) ==> Extends(m.block.header, s'.lastCommitted.header))
            && s'.lastVote == Some(CastVote(m.round, m.block.ID()))
            && s'.lastVotingHeight == m.block.Number() >= s.lastVotingHeight
  {
    hide Good, Tree, SingleChain, GoodPool, Lineage, Linked, Grows, LookupByQC, Lookup, AncestorsAbove, MeetsWithin,
         Extends, Update, PrefixCommitted, UncommittedTxs, AcceptsProposal, StaysOnLine, Found;
    ProposalDraft(s, m, qcValid, tcValid, accepted);
    var bnew := NewDraft(s, m);
    var s1 := Placed(s, bnew);
    MeetsWithinExact(s1.store, bnew, 10);
    UpdateExact(cfg, s1, m.block.qc, apply);
    GoodLinked(s1.store, bnew);
    CommittedOnLine(cfg, s1, m, apply);
    if NamesItsParent(m) {
      ChildExtends(m.block.header);
      CommittedStaysBelow(cfg, s1, m, apply);
    }
  }

  /** The facts about the draft of an accepted proposal. */
  lemma ProposalDraft(s: Pm, m: ProposalMsg, qcValid: bool, tcValid: bool, accepted: bool)
    requires Inv(s) && HeightFits(m) && AcceptsProposal(s, m, qcValid, tcValid, accepted)
    ensures Lookup(s.store, s.pool, m.block.header.parentId, s.nextRef).Some?
    ensures var d := NewDraft(s, m);
            && Good(s.store, d) && d.block == m.block && d.height == m.block.Number()
            && Inv(Placed(s, d))
            && m.block.header.parentId.Digest?
  {
    hide Tree, SingleChain, Good, GoodPool, Found, Lookup, UncommittedTxs;
    NewDraftGood(s, m);
    PlacedKnown(s, NewDraft(s, m));
  }

  lemma PlacedKnown(s: Pm, d: Draft)
    requires HighKnown(s)
    ensures HighKnown(Placed(s, d))
  {
  }

  /** What Update commits for a proposal's certificate is an ancestor of the proposal, when the certificate names its
      parent or any other ancestor. */
  lemma CommittedStaysBelow(cfg: Config, s: Pm, m: ProposalMsg, apply: Executor)
    requires Inv(s) && m.block.qc.blockId.Digest? && Extends(m.block.header, m.block.qc.blockId.header)
    requires Extends(m.block.header, s.lastCommitted.header)
    ensures Extends(m.block.header, Update(cfg, s, m.block.qc, apply).0.lastCommitted.header)
  {
    hide Good, Tree, SingleChain, GoodPool, Lineage, Linked, Grows, LookupByQC, AncestorsAbove, Extends, Update, Found;
    UpdateExact(cfg, s, m.block.qc, apply);
    if Commits(s, m.block.qc) {
      var d := LookupByQC(s.store, s.pool, m.block.qc, s.nextRef).value;
      var cs := AncestorsAbove(d, s.store.best.Number());
      var j := Accepted(cs, s.store.best.ID(), apply);
      if j > 0 {
        CommittedIsAncestor(s, d, j);
        ExtendsTransitive(m.block.header, d.block.header, cs[j - 1].draft.block.header);
      }
    }
  }

  /** The proposal extends the head that Update leaves exactly when what it commits stays on the proposal's line. */
  lemma CommittedOnLine(cfg: Config, s: Pm, m: ProposalMsg, apply: Executor)
    requires Inv(s) && Linked(m.block.header) && Extends(m.block.header, s.lastCommitted.header)
    ensures Extends(m.block.header, Update(cfg, s, m.block.qc, apply).0.lastCommitted.header)
            <==> StaysOnLine(s, m, apply)
  {
    hide Good, Tree, SingleChain, GoodPool, Lineage, Linked, Grows, LookupByQC, AncestorsAbove, Extends, Update, Found,
         Accepted, CommonPrefix, Headers, Shrinks, SameVoting, HighOk, Below;
    UpdateExact(cfg, s, m.block.qc, apply);
    if Commits(s, m.block.qc) {
      var d := LookupByQC(s.store, s.pool, m.block.qc, s.nextRef).value;
      var cs := AncestorsAbove(d, s.store.best.Number());
      var j := Accepted(cs, s.store.best.ID(), apply);
      if j > 0 {
        AncestorHeaders(s.store, d, s.store.best.Number());
        ExtendsBelowFork(m.block.header, d.block.header, s.store.best.Number() + j);
      }
    } else {
      assert Accepted(Committing(s, m.block.qc), s.store.best.ID(), apply) <= 0;
    }
  }

  /** A header extends another's ancestor exactly when that ancestor is not above their fork. */
  lemma ExtendsBelowFork(h: Header, x: Header, n: nat)
    requires Linked(h) && Linked(x) && n < |Lineage(x)|
    ensures Extends(h, Lineage(x)[n]) <==> n < CommonPrefix(Lineage(h), Lineage(x))
  {
    LinkedNumber(x);
    LineageAt(x, n);
    var a := Lineage(x)[n];
    hide Lineage, Linked;
    AncestorAtItsNumber(x, a);
    if Extends(h, a) {
      CommonAncestorWithinPrefix(h, x, a);
    }
    var k := CommonPrefix(Lineage(h), Lineage(x));
    if n < k {
      assert Lineage(h)[..k][n] == Lineage(x)[..k][n];
      AncestorAtItsNumber(h, a);
    }
  }

  lemma ChildExtends(h: Header)
    requires h.parentId.Digest?
    ensures Extends(h, h.parentId.header)
  {
    ChildLineage(h);
  }

  /** Every draft of the line Update commits is an ancestor of the certified draft. */
  lemma CommittedIsAncestor(s: Pm, d: Draft, j: nat)
    requires StoreOk(s) && Good(s.store, d) && 0 < j <= |AncestorsAbove(d, s.store.best.Number())|
    ensures var c := AncestorsAbove(d, s.store.best.Number())[j - 1].draft;
            && Extends(d.block.header, c.block.header) && c.height < d.height && c.height >= 1
  {
    AncestorsAboveExact(s.store, d, s.store.best.Number());
    GoodLinked(s.store, d);
    var c := AncestorsAbove(d, s.store.best.Number())[j - 1].draft;
    AncestorAtItsNumber(d.block.header, c.block.header);
  }
}
