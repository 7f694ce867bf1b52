/** The block reader (chain/chain.go, NewBlockReader and nextBlock). */
module Reader {
  import opened Blocks
  import opened ChainStore

  datatype ReadBlock = ReadBlock(block: Block, obsolete: bool)

  ghost predicate Readable(s: Store, position: Id) {
    Tree(s) && IndexFollowsBest(s) && position in s.blocks
  }

  /** How many trunk blocks the reader has still to deliver. */
  ghost function Behind(s: Store, position: Id): nat
    requires Readable(s, position)
  {
    |Lineage(s.best.header)| - CommonPrefix(Lineage(s.blocks[position].header), Lineage(s.best.header))
  }

  /** What a consumer does with one delivery: an obsolete block is dropped from the end of its view,
      any other appended. */
  ghost function Consume(view: seq<Header>, delivered: seq<ReadBlock>): Option<seq<Header>>
    decreases |delivered|
  {
    if delivered == [] then Some(view)
    else
      var d := delivered[0];
      if !d.obsolete then Consume(view + [d.block.header], delivered[1..])
      else if view != [] && view[|view| - 1] == d.block.header then Consume(view[..|view| - 1], delivered[1..])
      else None
  }

  lemma {:induction false} ConsumeAppend(view: seq<Header>, d: seq<ReadBlock>, x: ReadBlock)
    requires Consume(view, d).Some?
    ensures Consume(view, d + [x]) == Consume(Consume(view, d).value, [x])
    decreases |d|
  {
    if d != [] {
      assert (d + [x])[1..] == d[1..] + [x];
      var y := d[0];
      ConsumeAppend(if y.obsolete then view[..|view| - 1] else view + [y.block.header], d[1..], x);
    } else {
      assert d + [x] == [x];
    }
  }

  /** The delivered blocks turn the path to `start` into the path to `at`. */
  ghost predicate Leads(s: Store, start: Id, at: Id, delivered: seq<ReadBlock>)
    requires start in s.blocks && at in s.blocks
  {
    Consume(Lineage(s.blocks[start].header), delivered) == Some(Lineage(s.blocks[at].header))
  }

  /** Stepping back over an obsolete block: its parent is stored and shares as much of the trunk. */
  lemma StepBack(s: Store, id: Id)
    requires Readable(s, id) && id.number in s.index && s.index[id.number] != id
    ensures var h := s.blocks[id].header;
            && h.parentId.Digest? && h.parentId in s.blocks && h.ID() == id
            && h.parentId.number + 1 == id.number
            && s.blocks[h.parentId].header == h.parentId.header
            && Behind(s, h.parentId) == Behind(s, id)
            && Leads(s, id, h.parentId, [ReadBlock(s.blocks[id], true)])
  {
    hide Consume, CommonPrefix, Lineage, IndexFollowsBest;
    assert TreeNode(s, id);
    var h, best := s.blocks[id].header, s.best.header;
    OffTrunk(s, id);
    assert TreeNode(s, h.parentId);
    ChildLineage(h);
    var p := h.parentId.header;
    var k := CommonPrefix(Lineage(h), Lineage(best));
    LinkedNumber(h);
    CommonPrefixOfShorter(Lineage(p), h, Lineage(best), k);
    ConsumeOne(Lineage(p), s.blocks[id]);
  }

  lemma ConsumeOne(view: seq<Header>, b: Block)
    ensures Consume(view, [ReadBlock(b, false)]) == Some(view + [b.header])
    ensures Consume(view + [b.header], [ReadBlock(b, true)]) == Some(view)
  {
    assert (view + [b.header])[..|view|] == view;
  }

  lemma LeadsOn(s: Store, start: Id, mid: Id, at: Id, delivered: seq<ReadBlock>, x: ReadBlock)
    requires start in s.blocks && mid in s.blocks && at in s.blocks
    requires Leads(s, start, mid, delivered) && Leads(s, mid, at, [x])
    ensures Leads(s, start, at, delivered + [x])
  {
    ConsumeAppend(Lineage(s.blocks[start].header), delivered, x);
  }

  /** A block that the index does not name shares a proper part of its line with the trunk, and is not genesis. */
  lemma OffTrunk(s: Store, id: Id)
    requires Readable(s, id) && id.number in s.index && s.index[id.number] != id
    ensures var h := s.blocks[id].header;
            && h.parentId.Digest?
            && CommonPrefix(Lineage(h), Lineage(s.best.header)) < |Lineage(h)|
  {
    assert TreeNode(s, id);
    var h, best := s.blocks[id].header, s.best.header;
    LinkedNumber(h);
    LinkedNumber(best);
    assert Lineage(best)[id.number] != h;
    assert h.parentId.Opaque? ==> h == Root(h);
  }

  lemma CommonPrefixOfShorter<T>(p: seq<T>, x: T, b: seq<T>, k: nat)
    requires k == CommonPrefix(p + [x], b) && k <= |p|
    ensures CommonPrefix(p, b) == k
  {
    var a := p + [x];
    assert p[..k] == a[..k];
    if k < |p| {
      assert p[k] == a[k];
    }
    CommonPrefixUnique(p, b, k);
  }

  /** A block that the index names lies on the trunk. */
  lemma OnTrunk(s: Store, id: Id)
    requires Readable(s, id) && id.number in s.index && s.index[id.number] == id
    ensures var h := s.blocks[id].header;
            && Extends(s.best.header, h)
            && CommonPrefix(Lineage(h), Lineage(s.best.header)) == |Lineage(h)| == id.number + 1
            && Behind(s, id) == s.best.Number() - id.number
  {
    assert TreeNode(s, id);
    var h, best := s.blocks[id].header, s.best.header;
    LinkedNumber(h);
    LineageAt(best, id.number);
    CommonPrefixAtLeast(Lineage(h), Lineage(best), Lineage(h));
  }

  /** Delivering the next trunk block brings the consumer one block closer. */
  lemma NextBlock(s: Store, id: Id)
    requires Readable(s, id) && id.number in s.index && s.index[id.number] == id && id.number < s.best.Number()
    ensures id.number + 1 in s.index
    ensures var next := s.index[id.number + 1];
            && next in s.blocks && next.number == id.number + 1
            && Leads(s, id, next, [ReadBlock(s.blocks[next], false)])
            && Behind(s, next) == Behind(s, id) - 1
            && s.blocks[next].ID() == next
  {
    var best, n := s.best.header, id.number;
    OnTrunk(s, id);
    LineageAt(best, n);
    LineageAt(best, n + 1);
    var x := Lineage(best)[n + 1];
    AncestorsStored(s, best, x);
    OnTrunk(s, x.ID());
    assert Lineage(best)[..n + 2] == Lineage(best)[..n + 1] + [x];
    assert TreeNode(s, id);
    ConsumeOne(Lineage(s.blocks[id].header), s.blocks[x.ID()]);
  }

  /** Only best itself is not behind. */
  lemma BehindZero(s: Store, id: Id)
    requires Readable(s, id)
    ensures Behind(s, id) == 0 <==> id == s.best.ID()
  {
    var h, best := s.blocks[id].header, s.best.header;
    assert TreeNode(s, id);
    LinkedNumber(h);
    LinkedNumber(best);
    if Behind(s, id) == 0 {
      assert Lineage(h)[..|Lineage(best)|] == Lineage(best);
      assert Lineage(h)[best.Number()] == best;
    }
    if id == s.best.ID() {
      CommonPrefixAtLeast(Lineage(best), Lineage(best), Lineage(best));
    }
  }

  class BlockReader {
    const chain: Chain
    var position: Id

    constructor (chain: Chain, position: Id)
      ensures this.chain == chain && this.position == position
    {
      this.chain := chain;
      this.position := position;
    }

    /** One read; what it delivers and where it leaves the reader is ReadOutcome. */
    method Read() returns (blocks: seq<ReadBlock>)
      requires Readable(chain.State(), position)
      modifies this
      ensures ReadOutcome(chain.State(), old(position), position, blocks)
    {
      hide Tree, IndexFollowsBest, Behind, Leads, Stored;
      NothingStored(chain.State());
      var bestID := chain.bestBlock.ID();
      if bestID == position {
        return [];
      }
      blocks := [];
      ghost var s, start := chain.State(), position;
      StartReading(s, start);
      while chain.index[position.number] != position
        invariant Stepping(s, start, position, blocks)
        decreases position.number
      {
        StepBackReading(s, start, position, blocks);
        var positionBlock := chain.blocks[position];
        blocks := blocks + [ReadBlock(positionBlock, true)];
        position := positionBlock.header.parentId;
      }
      FinishReading(s, start, position, blocks);
      var next := chain.blocks[chain.index[position.number + 1]];
      position := next.ID();
      blocks := blocks + [ReadBlock(next, false)];
    }
  }

  /** The delivered blocks are the stored ones, bodies included. */
  ghost predicate Stored(s: Store, blocks: seq<ReadBlock>) {
    forall i | 0 <= i < |blocks| :: IsStored(s, blocks[i].block)
  }

  predicate IsStored(s: Store, b: Block) {
    b.ID() in s.blocks && s.blocks[b.ID()] == b
  }

  lemma NothingStored(s: Store)
    ensures Stored(s, [])
  {
  }

  lemma StoredOn(s: Store, blocks: seq<ReadBlock>, x: ReadBlock)
    requires Stored(s, blocks) && IsStored(s, x.block)
    ensures Stored(s, blocks + [x])
  {
  }

  /** Every height up to best is indexed. */
  lemma IndexedUpToBest(s: Store, n: Uint32)
    requires Tree(s) && IndexFollowsBest(s) && n <= s.best.Number()
    ensures n in s.index
  {
    LinkedNumber(s.best.header);
  }

  /** At best a read delivers nothing; elsewhere the delivery takes the consumer's view from the path to the old
      position to the path to the new one, ends with exactly one new trunk block, and leaves one less to deliver. */
  ghost predicate ReadOutcome(s: Store, start: Id, position: Id, blocks: seq<ReadBlock>)
    requires Readable(s, start)
  {
    && Readable(s, position)
    && (blocks == [] <==> start == s.best.ID())
    && (blocks == [] ==> position == start)
    && (blocks != [] ==>
        && !blocks[|blocks| - 1].obsolete
        && (forall i | 0 <= i < |blocks| - 1 :: blocks[i].obsolete)
        && Behind(s, position) == Behind(s, start) - 1
        && Leads(s, start, position, blocks))
    && Stored(s, blocks)
  }

  /** The walk back over obsolete blocks. */
  ghost predicate Stepping(s: Store, start: Id, position: Id, blocks: seq<ReadBlock>) {
    && Readable(s, start) && start != s.best.ID()
    && Readable(s, position) && position.number in s.index && position.number <= s.best.Number()
    && Behind(s, position) == Behind(s, start) > 0
    && Leads(s, start, position, blocks)
    && (forall i | 0 <= i < |blocks| :: blocks[i].obsolete)
    && Stored(s, blocks)
  }

  lemma StartReading(s: Store, start: Id)
    requires Readable(s, start) && start != s.best.ID()
    ensures Stepping(s, start, start, [])
  {
    BehindZero(s, start);
    assert TreeNode(s, start);
    LinkedNumber(s.best.header);
  }

  lemma StepBackReading(s: Store, start: Id, position: Id, blocks: seq<ReadBlock>)
    requires Stepping(s, start, position, blocks) && s.index[position.number] != position
    ensures var b := s.blocks[position];
            && b.header.parentId.number < position.number
            && Stepping(s, start, b.header.parentId, blocks + [ReadBlock(b, true)])
  {
    hide Tree, IndexFollowsBest, Behind, Leads, Stored;
    var b := s.blocks[position];
    StepBack(s, position);
    IndexedUpToBest(s, b.header.parentId.number);
    LeadsOn(s, start, position, b.header.parentId, blocks, ReadBlock(b, true));
    StoredOn(s, blocks, ReadBlock(b, true));
  }

  lemma FinishReading(s: Store, start: Id, position: Id, blocks: seq<ReadBlock>)
    requires Stepping(s, start, position, blocks) && s.index[position.number] == position
    ensures position.number + 1 in s.index && s.index[position.number + 1] in s.blocks
    ensures var next := s.blocks[s.index[position.number + 1]];
            ReadOutcome(s, start, next.ID(), blocks + [ReadBlock(next, false)])
  {
    hide Behind, Leads, Stored;
    OnTrunk(s, position);
    NextBlock(s, position);
    var next := s.blocks[s.index[position.number + 1]];
    LeadsOn(s, start, position, next.ID(), blocks, ReadBlock(next, false));
    StoredOn(s, blocks, ReadBlock(next, false));
  }

  /** A commit that extends best leaves the position readable and adds exactly one block to deliver. */
  lemma CommitBetweenReads(s: Store, precedes: IdOrder, blk: Block, escortQC: QuorumCert, position: Id)
    requires Readable(s, position) && Fits(s, blk.header) && blk.header.parentId == s.best.ID()
    ensures var s' := AddBlockSpec(s, precedes, blk, escortQC).0;
            && Readable(s', position)
            && s'.blocks[position] == s.blocks[position]
            && Behind(s', position) == Behind(s, position) + 1
  {
    TreeChildOfBest(s, precedes, blk, escortQC);
    var h, best := s.blocks[position].header, s.best.header;
    assert TreeNode(s, position);
    LinkedNumber(h);
    LinkedNumber(best);
    CommonPrefixOfLonger(Lineage(h), Lineage(best), blk.header);
  }

  lemma CommonPrefixOfLonger<T>(a: seq<T>, b: seq<T>, x: T)
    requires |a| <= |b|
    ensures CommonPrefix(a, b + [x]) == CommonPrefix(a, b)
  {
    var k := CommonPrefix(a, b);
    assert (b + [x])[..k] == b[..k];
    CommonPrefixUnique(a, b + [x], k);
  }

  /** A reader among commits: any interleaving of reads and commits that extend best. */
  datatype Action = DoRead | DoCommit(block: Block, escortQC: QuorumCert)

  datatype World = World(store: Store, position: Id, view: seq<Header>, received: nat, commits: nat)

  /** A step of the interleaving, with a read described by the contract of Read. */
  ghost predicate WorldStep(precedes: IdOrder, w: World, a: Action, w': World) {
    match a
    case DoCommit(blk, qc) =>
      && Tree(w.store) && Fits(w.store, blk.header) && blk.header.parentId == w.store.best.ID()
      && w' == w.(store := AddBlockSpec(w.store, precedes, blk, qc).0, commits := w.commits + 1)
    case DoRead =>
      && Readable(w.store, w.position)
      && w'.store == w.store && w'.commits == w.commits
      && exists d ::
           && ReadOutcome(w.store, w.position, w'.position, d)
           && Some(w'.view) == Consume(w.view, d)
           && w'.received == w.received + (if d == [] then 0 else 1)
  }

  ghost predicate WorldRun(precedes: IdOrder, ws: seq<World>, actions: seq<Action>) {
    && |ws| == |actions| + 1
    && forall i | 0 <= i < |actions| :: WorldStep(precedes, ws[i], actions[i], ws[i + 1])
  }

  ghost predicate Synced(w: World) {
    && Readable(w.store, w.position)
    && w.view == Lineage(w.store.blocks[w.position].header)
  }

  /** Over any interleaving the consumer's view is the path to the reader's position, and blocks are conserved:
      the reads that delivered plus what is still to deliver equal what was to deliver at first plus the commits. */
  lemma {:induction false} ReadsConserveBlocks(precedes: IdOrder, ws: seq<World>, actions: seq<Action>)
    requires WorldRun(precedes, ws, actions)
    requires Synced(ws[0]) && ws[0].received == 0 && ws[0].commits == 0
    ensures var w := ws[|actions|];
            && Synced(w)
            && w.received + Behind(w.store, w.position) == Behind(ws[0].store, ws[0].position) + w.commits
  {
    if actions != [] {
      var n := |actions| - 1;
      assert WorldRun(precedes, ws[..n + 1], actions[..n]);
      ReadsConserveBlocks(precedes, ws[..n + 1], actions[..n]);
      OneWorldStep(precedes, ws[n], actions[n], ws[n + 1]);
    }
  }

  lemma OneWorldStep(precedes: IdOrder, w: World, a: Action, w': World)
    requires Synced(w) && WorldStep(precedes, w, a, w')
    ensures Synced(w')
    ensures w'.received + Behind(w'.store, w'.position) + w.commits
            == w.received + Behind(w.store, w.position) + w'.commits
  {
    if a.DoCommit? {
      CommitBetweenReads(w.store, precedes, a.block, a.escortQC, w.position);
    }
  }

  lemma {:induction false} ReadsCatchUp(precedes: IdOrder, ws: seq<World>, actions: seq<Action>, k: nat)
    requires WorldRun(precedes, ws, actions) && k <= |actions| && Synced(ws[k])
    requires forall i | k <= i < |actions| :: actions[i].DoRead?
    ensures var w := ws[|actions|];
            && Synced(w) && w.store == ws[k].store
            && Behind(w.store, w.position) ==
                 if |actions| - k >= Behind(ws[k].store, ws[k].position) then 0
                   else Behind(ws[k].store, ws[k].position) - (|actions| - k)
    decreases |actions|
  {
    hide Readable, ReadOutcome, Consume, Behind;
    if k < |actions| {
      var n := |actions| - 1;
      assert WorldRun(precedes, ws[..n + 1], actions[..n]);
      ReadsCatchUp(precedes, ws[..n + 1], actions[..n], k);
      OneRead(precedes, ws[n], ws[n + 1]);
    }
  }

  /** A read delivers one block while there is any to deliver. */
  lemma OneRead(precedes: IdOrder, w: World, w': World)
    requires Synced(w) && WorldStep(precedes, w, DoRead, w')
    ensures Synced(w') && w'.store == w.store
    ensures Behind(w'.store, w'.position) == if Behind(w.store, w.position) > 0 then Behind(w.store, w.position) - 1
            else 0
  {
    BehindZero(w.store, w.position);
  }

  /** Reads get there: after any interleaving of reads and commits, as many reads in a row as there are blocks to
      deliver, at most the first backlog plus the commits, leave the reader at best with the path to best as its view;
      further reads deliver nothing and change nothing. */
  lemma ReadsReachBest(precedes: IdOrder, ws: seq<World>, actions: seq<Action>, k: nat)
    requires WorldRun(precedes, ws, actions) && k <= |actions|
    requires Synced(ws[0]) && ws[0].received == 0 && ws[0].commits == 0
    requires forall i | k <= i < |actions| :: actions[i].DoRead?
    ensures Synced(ws[k]) && Synced(ws[|actions|])
    ensures Behind(ws[k].store, ws[k].position) <= Behind(ws[0].store, ws[0].position) + ws[k].commits
    ensures var w := ws[|actions|];
            |actions| - k >= Behind(ws[k].store, ws[k].position) <==> w.position == w.store.best.ID()
    ensures var w := ws[|actions|];
            w.position == w.store.best.ID() ==> w.view == Lineage(w.store.best.header)
  {
    hide Readable, WorldStep, Consume, Behind, Lineage;
    assert WorldRun(precedes, ws[..k + 1], actions[..k]);
    ReadsConserveBlocks(precedes, ws[..k + 1], actions[..k]);
    ReadsCatchUp(precedes, ws, actions, k);
    var w := ws[|actions|];
    AtBest(w);
  }

  lemma AtBest(w: World)
    requires Synced(w)
    ensures Behind(w.store, w.position) == 0 <==> w.position == w.store.best.ID()
    ensures w.position == w.store.best.ID() ==> w.view == Lineage(w.store.best.header)
  {
    BehindZero(w.store, w.position);
  }

  /** So a reader whose deliveries have caught up with the backlog and the commits holds exactly the path to best. */
  lemma CaughtUpReaderIsAtBest(precedes: IdOrder, ws: seq<World>, actions: seq<Action>)
    requires WorldRun(precedes, ws, actions)
    requires Synced(ws[0]) && ws[0].received == 0 && ws[0].commits == 0
    ensures var w := ws[|actions|];
            && Synced(w)
            && (w.received == Behind(ws[0].store, ws[0].position) + w.commits <==> w.position == w.store.best.ID())
            && (w.position == w.store.best.ID() ==> w.view == Lineage(w.store.best.header))
  {
    ReadsConserveBlocks(precedes, ws, actions);
    var w := ws[|actions|];
    BehindZero(w.store, w.position);
  }
}
