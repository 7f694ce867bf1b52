/** The block store (chain/chain.go, chain/fork.go): AddBlock, isTrunk, buildFork and the number index. */
module ChainStore {
  import opened Blocks

  datatype Fork = Fork(ancestor: Header, trunk: seq<Header>, branch: seq<Header>)

  datatype ChainError = NotFound | BlockExist | ParentMissing

  /** What AddBlock persists and keeps in memory. */
  datatype Store = Store(blocks: map<Id, Block>, index: map<Uint32, Id>, best: Block, bestQC: QuorumCert)

  /** The order of ids as byte strings (bytes.Compare < 0), left open. */
  type IdOrder = (Id, Id) -> bool

  // ---------------------------------------------------------------- the tree of stored blocks

  ghost predicate TreeNode(s: Store, id: Id)
    requires id in s.blocks
  {
    var h := s.blocks[id].header;
    && h.ID() == id
    && Linked(h)
    && Root(h) == Root(s.best.header)
    && h.Number() <= s.best.Number()
    && (h.parentId.Digest? ==> h.parentId in s.blocks)
  }

  /** A block tree with one genesis, closed under parents, with nothing above best. */
  ghost predicate Tree(s: Store) {
    && s.best.ID() in s.blocks
    && s.blocks[s.best.ID()] == s.best
    && Linked(s.best.header)
    && forall id {:trigger TreeNode(s, id)} | id in s.blocks :: TreeNode(s, id)
  }

  /** A header whose parent, if it has one, is stored in the tree. */
  ghost predicate Attached(s: Store, h: Header) {
    && Linked(h)
    && Root(h) == Root(s.best.header)
    && (h.parentId.Digest? ==> h.parentId in s.blocks)
  }

  /** The number index maps each position of a line to the id found there. */
  ghost predicate Indexes(index: map<Uint32, Id>, line: seq<Header>) {
    |line| <= U32 && forall n: Uint32 | n < |line| :: n in index && index[n] == line[n].ID()
  }

  /** The number index maps every height up to best to best's ancestor of that height. */
  ghost predicate IndexFollowsBest(s: Store) {
    Indexes(s.index, Lineage(s.best.header))
  }

  /** The store is one gap-free parent-linked chain from genesis to best. */
  ghost predicate SingleChain(s: Store) {
    && Tree(s)
    && IndexFollowsBest(s)
    && (forall id | id in s.blocks :: s.blocks[id].header in Lineage(s.best.header))
    && (forall n | n in s.index :: n <= s.best.Number())
  }

  /** Every stored block but genesis carries a certificate that names its parent. */
  ghost predicate ParentsCertified(s: Store) {
    forall id | id in s.blocks && id.number > 0 :: s.blocks[id].qc.blockId == s.blocks[id].header.parentId
  }

  /** A later store: it keeps every block, and its best extends the earlier one. */
  ghost predicate Grows(s: Store, s': Store) {
    && (forall id | id in s.blocks :: id in s'.blocks && s'.blocks[id].header == s.blocks[id].header)
    && Lineage(s.best.header) <= Lineage(s'.best.header)
  }

  lemma GrowsTransitive(a: Store, b: Store, c: Store)
    requires Grows(a, b) && Grows(b, c)
    ensures Grows(a, c)
  {
    hide Lineage;
  }

  /** Every ancestor of a stored block is stored. */
  lemma {:induction false} AncestorsStored(s: Store, h: Header, a: Header)
    requires Tree(s) && h.ID() in s.blocks && a in Lineage(h)
    ensures a.ID() in s.blocks && s.blocks[a.ID()].header == a
    decreases h
  {
    assert TreeNode(s, h.ID());
    if a != h {
      ChildLineage(h);
      assert TreeNode(s, h.parentId);
      AncestorsStored(s, h.parentId.header, a);
    }
  }

  // ---------------------------------------------------------------- forks

  ghost function CommonPrefix<T>(a: seq<T>, b: seq<T>): (k: nat)
    ensures k <= |a| && k <= |b| && a[..k] == b[..k]
    ensures k < |a| && k < |b| ==> a[k] != b[k]
    ensures |a| > 0 && |b| > 0 && a[0] == b[0] ==> k > 0
  {
    if a == [] || b == [] || a[0] != b[0] then 0
    else
      var k := CommonPrefix(a[1..], b[1..]);
      assert a[..k + 1] == [a[0]] + a[1..][..k];
      assert b[..k + 1] == [b[0]] + b[1..][..k];
      k + 1
  }

  /** The fork of two heads: their last common ancestor and the two lines above it. */
  ghost function ForkOf(trunkHead: Header, branchHead: Header): Fork
    requires Root(trunkHead) == Root(branchHead)
  {
    var t, b := Lineage(trunkHead), Lineage(branchHead);
    var k := CommonPrefix(t, b);
    Fork(t[k - 1], t[k..], b[k..])
  }

  /** An agreeing prefix after which the sequences part or end is the common prefix. */
  lemma CommonPrefixUnique<T>(a: seq<T>, b: seq<T>, n: nat)
    requires n <= |a| && n <= |b| && a[..n] == b[..n]
    requires n < |a| && n < |b| ==> a[n] != b[n]
    ensures CommonPrefix(a, b) == n
  {
  }

  /** Two lines above a shared ancestor that part at once are the fork. */
  lemma ForkRecognised(t: Header, b: Header, f: Fork)
    requires Root(t) == Root(b)
    requires Lineage(t) == Lineage(f.ancestor) + f.trunk
    requires Lineage(b) == Lineage(f.ancestor) + f.branch
    requires f.trunk != [] && f.branch != [] ==> f.trunk[0] != f.branch[0]
    ensures f == ForkOf(t, b)
  {
    var lt, lb, n := Lineage(t), Lineage(b), |Lineage(f.ancestor)|;
    assert lt[..n] == Lineage(f.ancestor) == lb[..n];
    assert lt[n..] == f.trunk && lb[n..] == f.branch;
    CommonPrefixUnique(lt, lb, n);
  }

  /** The meaning of a fork: a common ancestor above which there is no other, and the two exact
      parent-linked lines, oldest first, that lead from it to the heads and share no block. */
  lemma ForkMeaning(t: Header, b: Header)
    requires Linked(t) && Linked(b) && Root(t) == Root(b)
    ensures var f := ForkOf(t, b);
            && Lineage(t) == Lineage(f.ancestor) + f.trunk
            && Lineage(b) == Lineage(f.ancestor) + f.branch
            && (forall c | Extends(t, c) && Extends(b, c) :: c.Number() <= f.ancestor.Number())
            && (forall i | 0 <= i < |f.trunk| :: f.trunk[i].Number() == f.ancestor.Number() + 1 + i)
            && (forall i | 0 <= i < |f.branch| :: f.branch[i].Number() == f.ancestor.Number() + 1 + i)
            && (forall h | h in f.trunk :: h !in f.branch)
  {
    var k, f := CommonPrefix(Lineage(t), Lineage(b)), ForkOf(t, b);
    LineSplit(t, k);
    LineSplit(b, k);
    forall c | Extends(t, c) && Extends(b, c) ensures c.Number() <= f.ancestor.Number() {
      CommonAncestorWithinPrefix(t, b, c);
    }
    forall h | h in f.trunk ensures h !in f.branch {
      if h in f.branch {
        MemberOfTail(t, k, h);
        MemberOfTail(b, k, h);
        CommonAncestorWithinPrefix(t, b, h);
        assert false;
      }
    }
  }

  /** A lineage cut at k: the part below is the lineage of the entry at k - 1, the part above is numbered from k. */
  lemma LineSplit(h: Header, k: nat)
    requires Linked(h) && 0 < k <= |Lineage(h)|
    ensures var a := Lineage(h)[k - 1];
            && a.Number() == k - 1
            && Lineage(h) == Lineage(a) + Lineage(h)[k..]
            && forall i | 0 <= i < |Lineage(h)[k..]| :: Lineage(h)[k..][i].Number() == k + i
  {
    hide Lineage, Linked;
    LinkedNumber(h);
    LineageAt(h, k - 1);
    assert Lineage(h) == Lineage(h)[..k] + Lineage(h)[k..];
    forall i | 0 <= i < |Lineage(h)[k..]| ensures Lineage(h)[k..][i].Number() == k + i {
      LineageAt(h, k + i);
    }
  }

  lemma CommonAncestorWithinPrefix(t: Header, b: Header, c: Header)
    requires Linked(t) && Linked(b) && Extends(t, c) && Extends(b, c)
    ensures c.Number() < CommonPrefix(Lineage(t), Lineage(b))
  {
    ExtendsMeansMember(t, c);
    AncestorAtItsNumber(t, c);
    LinkedNumber(c);
    CommonPrefixAtLeast(Lineage(t), Lineage(b), Lineage(c));
  }

  lemma CommonPrefixAtLeast<T>(a: seq<T>, b: seq<T>, p: seq<T>)
    requires p <= a && p <= b
    ensures |p| <= CommonPrefix(a, b)
  {
  }

  lemma MemberOfTail(t: Header, k: nat, h: Header)
    requires Linked(t) && k <= |Lineage(t)| && h in Lineage(t)[k..]
    ensures Extends(t, h) && h.Number() >= k
  {
    AncestorAtItsNumber(t, h);
    var i :| 0 <= i < |Lineage(t)[k..]| && Lineage(t)[k..][i] == h;
    LineageAt(t, k + i);
  }

  // ---------------------------------------------------------------- AddBlock

  predicate IsTrunk(s: Store, precedes: IdOrder, h: Header) {
    if h.Number() < s.best.Number() then false
    else if h.Number() > s.best.Number() then true
    else precedes(h.ID(), s.best.ID())
  }

  predicate IsFinalized(s: Store, id: Id) {
    id.number <= s.best.Number()
  }

  /** The stored block is not to be stored again. */
  predicate Exists(s: Store, h: Header) {
    h.ID() in s.blocks &&
    var kept := s.blocks[h.ID()].header;
    !(&& kept.Number() == h.Number()
      && kept.parentId == h.parentId
      && kept.timestamp == h.timestamp
      && IsFinalized(s, kept.parentId)
      && !IsFinalized(s, h.ID()))
  }

  /** The child of a stored block has a number that fits in 32 bits. */
  predicate Fits(s: Store, h: Header) {
    h.parentId in s.blocks ==> h.parentId.number + 1 < U32
  }

  lemma NewBlockAttached(s: Store, h: Header)
    requires Tree(s) && h.parentId in s.blocks && Fits(s, h)
    ensures Attached(s, h) && h.Number() == h.parentId.number + 1 && h.parentId == h.parentId.header.ID()
  {
    assert TreeNode(s, h.parentId);
    ChildLineage(h);
  }

  /** What AddBlock returns and leaves behind. */
  ghost function AddBlockSpec(s: Store, precedes: IdOrder, blk: Block, escortQC: QuorumCert)
      : (Store, Result<Fork, ChainError>)
    requires Tree(s) && Fits(s, blk.header)
  {
    if Exists(s, blk.header) then (s, Err(BlockExist))
    else if blk.header.parentId !in s.blocks then (s, Err(ParentMissing))
    else
      NewBlockAttached(s, blk.header);
      var saved := s.(blocks := s.blocks[blk.ID() := blk], index := s.index[blk.Number() := blk.ID()]);
      if IsTrunk(s, precedes, blk.header) then
        (saved.(best := blk, bestQC := escortQC), Ok(ForkOf(blk.header, s.best.header)))
      else
        (saved, Ok(Fork(s.blocks[blk.header.parentId].header, [], [blk.header])))
  }

  lemma AddBlockKeepsTree(s: Store, precedes: IdOrder, blk: Block, escortQC: QuorumCert)
    requires Tree(s) && Fits(s, blk.header)
    ensures Tree(AddBlockSpec(s, precedes, blk, escortQC).0)
  {
    var s' := AddBlockSpec(s, precedes, blk, escortQC).0;
    if blk.header.parentId in s.blocks {
      NewBlockAttached(s, blk.header);
      if blk.ID() == s.best.ID() {
        assert TreeNode(s, blk.ID());
        assert blk.header == s.best.header;
        ParentNumberBelow(s, blk.header);
        assert s' == s;
      }
      forall id | id in s'.blocks ensures TreeNode(s', id) {
        assert id == blk.ID() || TreeNode(s, id);
      }
    }
  }

  lemma ParentNumberBelow(s: Store, h: Header)
    requires Tree(s) && h.parentId in s.blocks && Fits(s, h)
    ensures IsFinalized(s, h.parentId)
  {
    assert TreeNode(s, h.parentId);
  }

  /** A stored block of a tree is always refused. */
  lemma StoredBlockExists(s: Store, h: Header)
    requires Tree(s) && h.ID() in s.blocks
    ensures Exists(s, h)
  {
    assert TreeNode(s, h.ID());
  }

  /** Exactly when a successful AddBlock leaves the number index equal to best's ancestor line: the block must
      become best and its parent must be the indexed block one below.  A block that loses the trunk test still
      overwrites the index entry of its height. */
  lemma IndexSurvivesExactlyWhen(s: Store, precedes: IdOrder, blk: Block, escortQC: QuorumCert)
    requires Tree(s) && IndexFollowsBest(s) && Fits(s, blk.header)
    requires AddBlockSpec(s, precedes, blk, escortQC).1.Ok?
    ensures var s' := AddBlockSpec(s, precedes, blk, escortQC).0;
            && Linked(s'.best.header)
            && (IndexFollowsBest(s') <==>
                && IsTrunk(s, precedes, blk.header)
                && blk.Number() > 0
                && blk.Number() - 1 in s.index
                && s.index[blk.Number() - 1] == blk.header.parentId)
  {
    var h := blk.header;
    var s' := AddBlockSpec(s, precedes, blk, escortQC).0;
    NewBlockAttached(s, h);
    ParentNumberBelow(s, h);
    if IsTrunk(s, precedes, h) {
      TrunkIndex(s, s', h);
    } else {
      var n := blk.Number();
      assert s'.index[n] == blk.ID();
      if IndexFollowsBest(s') {
        LinkedNumber(s.best.header);
        assert Lineage(s.best.header)[n] == h;
        AncestorsStored(s, s.best.header, h);
        StoredBlockExists(s, h);
        assert false;
      }
    }
  }

  /** A chain of genesis and one child. */
  function OneChild(genesis: Block, child: Block, escortQC: QuorumCert): Store {
    Store(map[genesis.ID() := genesis, child.ID() := child], map[0 := genesis.ID(), 1 := child.ID()], child, escortQC)
  }

  /** The child of a header with this nonce. */
  function ChildWith(parent: Block, nonce: nat): Block {
    Block(Header(parent.ID(), 0, 0, 0, 0, nonce, 0, 0, 0), [], parent.qc)
  }

  /** Over every genesis, a second child that loses the trunk test is stored and takes the index entry of the first. */
  lemma LosingBlockTakesIndex(genesis: Block, escortQC: QuorumCert)
    requires genesis.Number() == 0 && genesis.header.parentId.Opaque?
    ensures var s := OneChild(genesis, ChildWith(genesis, 1), escortQC);
            Tree(s) && IndexFollowsBest(s) && Fits(s, ChildWith(genesis, 2).header)
    ensures var s := OneChild(genesis, ChildWith(genesis, 1), escortQC);
            var (s', r) := AddBlockSpec(s, (a, b) => false, ChildWith(genesis, 2), escortQC);
            r.Ok? && s'.best == s.best && !IndexFollowsBest(s')
  {
    hide Tree, Lineage, Linked, ForkOf;
    OneChildTree(genesis, ChildWith(genesis, 1), escortQC);
    IndexSurvivesExactlyWhen(OneChild(genesis, ChildWith(genesis, 1), escortQC), (a, b) => false, ChildWith(genesis, 2),
      escortQC);
  }

  lemma OneChildTree(genesis: Block, child: Block, escortQC: QuorumCert)
    requires genesis.Number() == 0 && genesis.header.parentId.Opaque? && child.header.parentId == genesis.ID()
    ensures var s := OneChild(genesis, child, escortQC); Tree(s) && IndexFollowsBest(s)
  {
    hide Lineage, Linked;
    var s := OneChild(genesis, child, escortQC);
    OneChildLines(genesis.header, child.header);
    assert TreeNode(s, genesis.ID()) && TreeNode(s, child.ID());
  }

  lemma OneChildLines(g: Header, c: Header)
    requires g.Number() == 0 && g.parentId.Opaque? && c.parentId == g.ID()
    ensures Linked(g) && Linked(c) && Lineage(g) == [g] && Lineage(c) == [g, c]
  {
  }

  lemma TrunkIndex(s: Store, s': Store, h: Header)
    requires Tree(s) && IndexFollowsBest(s) && h.parentId in s.blocks && Fits(s, h)
    requires s'.best.header == h && s'.index == s.index[h.Number() := h.ID()]
    ensures Linked(h) && h.Number() > 0
    ensures IndexFollowsBest(s') <==> h.Number() - 1 in s.index && s.index[h.Number() - 1] == h.parentId
  {
    var n, p := h.Number(), h.parentId;
    NewBlockAttached(s, h);
    ParentNumberBelow(s, h);
    LinkedNumber(h);
    ChildLineage(h);
    hide Lineage, Linked;
    if IndexFollowsBest(s') {
      assert s'.index[n - 1] == Lineage(h)[n - 1].ID();
    } else if n - 1 in s.index && s.index[n - 1] == p {
      LineageAt(s.best.header, n - 1);
      ExtendedIndex(s, s', h);
    }
  }

  lemma IndexExtended(index: map<Uint32, Id>, line: seq<Header>, below: seq<Header>, h: Header)
    requires Indexes(index, line) && below <= line && |below| < U32
    ensures Indexes(index[|below| := h.ID()], below + [h])
  {
  }

  lemma ExtendedIndex(s: Store, s': Store, h: Header)
    requires IndexFollowsBest(s) && Linked(h) && s'.best.header == h
    requires h.parentId.Digest? && Extends(s.best.header, h.parentId.header)
    requires s'.index == s.index[h.Number() := h.ID()]
    ensures IndexFollowsBest(s')
  {
    LinkedNumber(h);
    ChildLineage(h);
    IndexExtended(s.index, Lineage(s.best.header), Lineage(h.parentId.header), h);
  }

  /** On a single chain, a block above best is stored exactly when its parent is best; then the chain grows by that
      one block and the fork has no branch. */
  lemma AddBlockAboveBest(s: Store, precedes: IdOrder, blk: Block, escortQC: QuorumCert)
    requires SingleChain(s) && Fits(s, blk.header) && blk.Number() > s.best.Number()
    ensures var (s', r) := AddBlockSpec(s, precedes, blk, escortQC);
            && SingleChain(s') && Grows(s, s')
            && (r.Ok? <==> blk.header.parentId == s.best.ID())
            && (r.Ok? ==>
                && r.value == Fork(s.best.header, [blk.header], [])
                && s'.best == blk && s'.bestQC == escortQC
                && blk.Number() == s.best.Number() + 1
                && Lineage(blk.header) == Lineage(s.best.header) + [blk.header])
            && (r.Err? ==> s' == s && r.error == ParentMissing)
  {
    hide Lineage, Linked, Tree, ForkOf;
    ParentIsBest(s, blk.header);
    if blk.header.parentId in s.blocks {
      TreeChildOfBest(s, precedes, blk, escortQC);
      StillOneLine(s, AddBlockSpec(s, precedes, blk, escortQC).0);
    }
  }

  /** A block above best is not stored yet, and the only parent it can have is best. */
  lemma ParentIsBest(s: Store, h: Header)
    requires SingleChain(s) && Fits(s, h) && h.Number() > s.best.Number()
    ensures h.ID() !in s.blocks && s.best.ID() in s.blocks
    ensures h.parentId in s.blocks ==> h.parentId == s.best.ID()
  {
    assert h.ID() in s.blocks ==> TreeNode(s, h.ID());
    if h.parentId in s.blocks {
      NewBlockAttached(s, h);
      assert TreeNode(s, h.parentId);
      AncestorAtItsNumber(s.best.header, h.parentId.header);
    }
  }

  lemma StillOneLine(s: Store, s': Store)
    requires SingleChain(s) && Tree(s') && IndexFollowsBest(s')
    requires s'.blocks == s.blocks[s'.best.ID() := s'.best]
    requires s'.index == s.index[s'.best.Number() := s'.best.ID()] && s'.best.Number() >= s.best.Number()
    requires Lineage(s'.best.header) == Lineage(s.best.header) + [s'.best.header]
    ensures SingleChain(s')
  {
  }

  /** A child of best becomes best; the fork has no branch and the number index follows. */
  lemma TreeChildOfBest(s: Store, precedes: IdOrder, blk: Block, escortQC: QuorumCert)
    requires Tree(s) && IndexFollowsBest(s) && Fits(s, blk.header) && blk.header.parentId == s.best.ID()
    ensures var (s', r) := AddBlockSpec(s, precedes, blk, escortQC);
            && Tree(s') && IndexFollowsBest(s')
            && r == Ok(Fork(s.best.header, [blk.header], []))
            && s' == Store(s.blocks[blk.ID() := blk], s.index[blk.Number() := blk.ID()], blk, escortQC)
            && blk.ID() !in s.blocks
            && blk.Number() == s.best.Number() + 1
            && Lineage(blk.header) == Lineage(s.best.header) + [blk.header]
  {
    var h := blk.header;
    NewBlockAttached(s, h);
    ChildLineage(h);
    assert h.ID() in s.blocks ==> TreeNode(s, h.ID());
    ForkRecognised(h, s.best.header, Fork(s.best.header, [h], []));
    AddBlockKeepsTree(s, precedes, blk, escortQC);
    ExtendedIndex(s, AddBlockSpec(s, precedes, blk, escortQC).0, h);
  }

  /** AddBlock stores a block exactly when it is not there and its parent is; every other block and index entry stays,
      and a refused block changes nothing.  The fork is that of the new head and the old one, or the block alone on its
      parent when it does not become best. */
  lemma AddBlockExact(s: Store, precedes: IdOrder, blk: Block, escortQC: QuorumCert)
    requires Tree(s) && Fits(s, blk.header)
    ensures var (s', r) := AddBlockSpec(s, precedes, blk, escortQC);
            && (r == Err(BlockExist) <==> blk.ID() in s.blocks)
            && (r.Ok? <==> blk.ID() !in s.blocks && blk.header.parentId in s.blocks)
            && (r.Err? ==> s' == s && r.error in {BlockExist, ParentMissing})
            && (r.Ok? ==>
                && s'.blocks == s.blocks[blk.ID() := blk] && s'.index == s.index[blk.Number() := blk.ID()]
                && Linked(blk.header) && Root(blk.header) == Root(s.best.header)
                && if s'.best == blk then s'.bestQC == escortQC && r.value == ForkOf(blk.header, s.best.header)
                   else
                     && s'.best == s.best && s'.bestQC == s.bestQC && r.value.trunk == []
                     && Lineage(blk.header) == Lineage(r.value.ancestor) + r.value.branch
                     && r.value.ancestor.ID() == blk.header.parentId)
  {
    hide ForkOf;
    if blk.ID() in s.blocks {
      StoredBlockExists(s, blk.header);
    } else if blk.header.parentId in s.blocks {
      NewBlockAttached(s, blk.header);
      ChildLineage(blk.header);
      assert TreeNode(s, blk.header.parentId);
    }
  }

  // ---------------------------------------------------------------- which block is best

  /** An order of the ids: of two different ones exactly one comes first. */
  ghost predicate TotalOrder(precedes: IdOrder) {
    && (forall a, b :: a != b ==> precedes(a, b) || precedes(b, a))
    && (forall a, b :: precedes(a, b) ==> !precedes(b, a))
    && (forall a, b, c :: precedes(a, b) && precedes(b, c) ==> precedes(a, c))
  }

  /** A block of this id wins over another: it is higher, or as high and its id comes first. */
  predicate Wins(precedes: IdOrder, a: Id, b: Id) {
    a.number > b.number || (a.number == b.number && precedes(a, b))
  }

  /** Best wins over every other stored block. */
  ghost predicate BestWins(s: Store, precedes: IdOrder) {
    forall id | id in s.blocks && id != s.best.ID() :: Wins(precedes, s.best.ID(), id)
  }

  lemma AddBlockKeepsBest(s: Store, precedes: IdOrder, blk: Block, escortQC: QuorumCert)
    requires Tree(s) && Fits(s, blk.header) && TotalOrder(precedes) && BestWins(s, precedes)
    ensures BestWins(AddBlockSpec(s, precedes, blk, escortQC).0, precedes)
  {
    hide Tree, ForkOf;
    AddBlockExact(s, precedes, blk, escortQC);
    if AddBlockSpec(s, precedes, blk, escortQC).1.Ok? && IsTrunk(s, precedes, blk.header) {
      forall id | id in s.blocks ensures Wins(precedes, blk.ID(), id) {
        assert id == s.best.ID() || Wins(precedes, s.best.ID(), id);
      }
    }
  }

  /** Stores that follow one another by AddBlock. */
  ghost predicate Adds(precedes: IdOrder, stores: seq<Store>, blks: seq<Block>, qcs: seq<QuorumCert>) {
    && |stores| == |blks| + 1 == |qcs| + 1 && Tree(stores[0]) && BestWins(stores[0], precedes)
    && forall i | 0 <= i < |blks| :: Added(precedes, stores[i], blks[i], qcs[i], stores[i + 1])
  }

  ghost predicate Added(precedes: IdOrder, s: Store, blk: Block, qc: QuorumCert, s': Store) {
    Tree(s) ==> Fits(s, blk.header) && s' == AddBlockSpec(s, precedes, blk, qc).0
  }

  /** In any sequence of AddBlocks, best wins over every other stored block. */
  lemma {:induction false} BestAlwaysWins(precedes: IdOrder, stores: seq<Store>, blks: seq<Block>, qcs: seq<QuorumCert>,
                                          i: nat)
    requires TotalOrder(precedes) && Adds(precedes, stores, blks, qcs) && i <= |blks|
    ensures Tree(stores[i]) && BestWins(stores[i], precedes)
  {
    hide Tree, AddBlockSpec, TotalOrder, BestWins;
    if i > 0 {
      BestAlwaysWins(precedes, stores, blks, qcs, i - 1);
      assert Added(precedes, stores[i - 1], blks[i - 1], qcs[i - 1], stores[i]);
      AddBlockKeepsTree(stores[i - 1], precedes, blks[i - 1], qcs[i - 1]);
      AddBlockKeepsBest(stores[i - 1], precedes, blks[i - 1], qcs[i - 1]);
    }
  }

  /** So best does not depend on the order in which the blocks came. */
  lemma SameBlocksSameBest(precedes: IdOrder, s: Store, t: Store)
    requires TotalOrder(precedes) && Tree(s) && Tree(t) && s.blocks.Keys == t.blocks.Keys
    requires BestWins(s, precedes) && BestWins(t, precedes)
    ensures s.best.ID() == t.best.ID()
  {
    hide Linked, Lineage;
    assert t.best.ID() in s.blocks && s.best.ID() in t.blocks;
  }

  // ---------------------------------------------------------------- the store as an object

  ghost function Reversed<T>(s: seq<T>): (r: seq<T>)
    ensures |r| == |s|
  {
    if s == [] then [] else Reversed(s[1..]) + [s[0]]
  }

  lemma {:induction false} ReversedAt<T>(s: seq<T>, k: nat)
    requires k < |s|
    ensures Reversed(s)[k] == s[|s| - 1 - k]
  {
    if k < |s| - 1 {
      ReversedAt(s[1..], k);
    }
  }

  /** The two-index swap loop of buildFork. */
  method Reverse<T>(s: seq<T>) returns (r: seq<T>)
    ensures r == Reversed(s)
  {
    r := s;
    var i, j := 0, |s| - 1;
    while i < j
      invariant |r| == |s| && 0 <= i <= j + 1 && j == |s| - 1 - i
      invariant forall k | 0 <= k < i :: r[k] == s[|s| - 1 - k]
      invariant forall k | i <= k <= j :: r[k] == s[k]
      invariant forall k | j < k < |s| :: r[k] == s[|s| - 1 - k]
    {
      r := r[i := r[j]][j := r[i]];
      i, j := i + 1, j - 1;
    }
    forall k | 0 <= k < |s| ensures r[k] == Reversed(s)[k] {
      ReversedAt(s, k);
    }
  }

  class Chain {
    const precedes: IdOrder
    var blocks: map<Id, Block>
    var index: map<Uint32, Id>
    var bestBlock: Block
    var bestQC: QuorumCert

    ghost function State(): Store
      reads this
    {
      Store(blocks, index, bestBlock, bestQC)
    }

    /** A chain initialised with its genesis block. */
    constructor (genesis: Block, escortQC: QuorumCert, precedes: IdOrder)
      requires genesis.Number() == 0 && genesis.header.parentId.Opaque?
      ensures SingleChain(State()) && this.precedes == precedes
      ensures State() == Store(map[genesis.ID() := genesis], map[0 := genesis.ID()], genesis, escortQC)
    {
      this.precedes := precedes;
      blocks := map[genesis.ID() := genesis];
      index := map[0 := genesis.ID()];
      bestBlock := genesis;
      bestQC := escortQC;
      new;
      assert Lineage(genesis.header) == [genesis.header];
    }

    function GetBlockHeader(id: Id): Result<Header, ChainError>
      reads this
    {
      if id in blocks then Ok(blocks[id].header) else Err(NotFound)
    }

    /** Walks both heads down to their last common ancestor; terminates, finds every parent it looks up, and
        returns the fork. */
    method BuildFork(trunkHead: Header, branchHead: Header) returns (f: Fork)
      requires Tree(State()) && Attached(State(), trunkHead) && Attached(State(), branchHead)
      ensures f == ForkOf(trunkHead, branchHead)
    {
      var trunk: seq<Header>, branch: seq<Header> := [], [];
      var b1, b2 := trunkHead, branchHead;
      while b1.ID() != b2.ID()
        invariant Walking(State(), trunkHead, branchHead, b1, b2, trunk, branch)
        decreases b1.Number() + b2.Number()
      {
        StepDown(State(), b1);
        StepDown(State(), b2);
        if b1.Number() > b2.Number() {
          TrunkStep(State(), trunkHead, branchHead, b1, b2, trunk, branch);
          trunk := trunk + [b1];
          b1 := blocks[b1.parentId].header;
        } else if b1.Number() < b2.Number() {
          TrunkStep(State(), branchHead, trunkHead, b2, b1, branch, trunk);
          branch := branch + [b2];
          b2 := blocks[b2.parentId].header;
        } else {
          BothStep(State(), trunkHead, branchHead, b1, b2, trunk, branch);
          trunk := trunk + [b1];
          branch := branch + [b2];
          b1 := blocks[b1.parentId].header;
          b2 := blocks[b2.parentId].header;
        }
      }
      PartedAtOnce(trunk, branch);
      ForkRecognised(trunkHead, branchHead, Fork(b1, Reversed(trunk), Reversed(branch)));
      trunk := Reverse(trunk);
      branch := Reverse(branch);
      f := Fork(b1, trunk, branch);
    }

    /** Adds a block: the outcome and the new state are those of AddBlockSpec. */
    method AddBlock(newBlock: Block, escortQC: QuorumCert) returns (r: Result<Fork, ChainError>)
      requires Tree(State()) && Fits(State(), newBlock.header)
      modifies this
      ensures Tree(State())
      ensures (State(), r) == AddBlockSpec(old(State()), precedes, newBlock, escortQC)
    {
      AddBlockKeepsTree(State(), precedes, newBlock, escortQC);
      var newBlockID := newBlock.ID();
      var found := GetBlockHeader(newBlockID);
      if found.Ok? {
        var header := found.value;
        var parentFinalized := IsBlockFinalized(header.parentId);
        if && header.Number() == newBlock.Number()
           && header.parentId == newBlock.header.parentId
           && header.timestamp == newBlock.header.timestamp
           && parentFinalized {
          if IsBlockFinalized(newBlockID) {
            return Err(BlockExist);
          }
        } else {
          return Err(BlockExist);
        }
      }
      var parent := GetBlockHeader(newBlock.header.parentId);
      if parent.Err? {
        return Err(ParentMissing);
      }
      NewBlockAttached(State(), newBlock.header);
      var fork: Fork;
      if IsTrunkHeader(newBlock.header) {
        assert TreeNode(State(), bestBlock.ID());
        fork := BuildFork(newBlock.header, bestBlock.header);
        bestBlock := newBlock;
        bestQC := escortQC;
      } else {
        fork := Fork(parent.value, [], [newBlock.header]);
      }
      blocks := blocks[newBlockID := newBlock];
      index := index[newBlock.Number() := newBlockID];
      return Ok(fork);
    }

    predicate IsBlockFinalized(id: Id)
      reads this
    {
      id.number <= bestBlock.Number()
    }

    predicate IsTrunkHeader(header: Header)
      reads this
    {
      if header.Number() < bestBlock.Number() then false
      else if header.Number() > bestBlock.Number() then true
      else precedes(header.ID(), bestBlock.ID())
    }
  }

  lemma PartedAtOnce<T>(s: seq<T>, t: seq<T>)
    requires s != [] && t != [] ==> s[|s| - 1] != t[|t| - 1]
    ensures s != [] && t != [] ==> Reversed(s)[0] != Reversed(t)[0]
    ensures (s == [] <==> Reversed(s) == []) && (t == [] <==> Reversed(t) == [])
  {
    if s != [] && t != [] {
      ReversedAt(s, 0);
      ReversedAt(t, 0);
    }
  }

  /** A walk from `head` down to `b` passed the headers `above`, in that order. */
  ghost predicate Walked(head: Header, b: Header, above: seq<Header>) {
    Lineage(head) == Lineage(b) + Reversed(above)
  }

  lemma WalkOn(head: Header, b: Header, above: seq<Header>)
    requires Walked(head, b, above) && b.parentId.Digest?
    ensures Walked(head, b.parentId.header, above + [b])
  {
    ReversedAppend(above, b);
    ChildLineage(b);
    Regroup(Lineage(b.parentId.header), b, Reversed(above));
  }

  lemma Regroup<T>(a: seq<T>, x: T, b: seq<T>)
    ensures (a + [x]) + b == a + ([x] + b)
  {
  }

  /** Both walks of buildFork: whichever has moved is not below the other, and once both have moved the last
      headers they passed differ. */
  ghost predicate Walking(s: Store, t: Header, b: Header, b1: Header, b2: Header, trunk: seq<Header>,
                          branch: seq<Header>) {
    && Attached(s, b1) && Attached(s, b2)
    && Walked(t, b1, trunk) && Walked(b, b2, branch)
    && (branch != [] ==> b1.Number() <= b2.Number())
    && (trunk != [] ==> b2.Number() <= b1.Number())
    && (trunk != [] && branch != [] ==> trunk[|trunk| - 1] != branch[|branch| - 1])
  }

  lemma TrunkStep(s: Store, t: Header, b: Header, b1: Header, b2: Header, trunk: seq<Header>, branch: seq<Header>)
    requires Tree(s) && Walking(s, t, b, b1, b2, trunk, branch) && b1.Number() > b2.Number()
    ensures b1.parentId in s.blocks
    ensures Walking(s, t, b, s.blocks[b1.parentId].header, b2, trunk + [b1], branch)
    ensures Walking(s, b, t, b2, s.blocks[b1.parentId].header, branch, trunk + [b1])
  {
    StepDown(s, b1);
    WalkOn(t, b1, trunk);
  }

  lemma BothStep(s: Store, t: Header, b: Header, b1: Header, b2: Header, trunk: seq<Header>, branch: seq<Header>)
    requires Tree(s) && Walking(s, t, b, b1, b2, trunk, branch) && b1.Number() == b2.Number() && b1 != b2
    ensures b1.parentId in s.blocks && b2.parentId in s.blocks
    ensures Walking(s, t, b, s.blocks[b1.parentId].header, s.blocks[b2.parentId].header, trunk + [b1], branch + [b2])
  {
    StepDown(s, b1);
    StepDown(s, b2);
    WalkOn(t, b1, trunk);
    WalkOn(b, b2, branch);
  }

  /** One step of the downward walk: the parent, when there is one, is stored and numbered one less. */
  lemma StepDown(s: Store, b: Header)
    requires Tree(s) && Attached(s, b)
    ensures b.Number() == 0 <==> b.parentId.Opaque?
    ensures b.Number() == 0 ==> b == Root(b)
    ensures b.parentId.Digest? ==>
              && b.parentId in s.blocks
              && s.blocks[b.parentId].header == b.parentId.header
              && b.parentId.header.Number() == b.Number() - 1
              && Attached(s, b.parentId.header)
  {
    if b.parentId.Digest? {
      assert TreeNode(s, b.parentId);
    }
  }

  lemma {:induction false} ReversedAppend<T>(s: seq<T>, x: T)
    ensures Reversed(s + [x]) == [x] + Reversed(s)
  {
    if s != [] {
      ReversedAppend(s[1..], x);
      assert (s + [x])[1..] == s[1..] + [x];
    }
  }
}
