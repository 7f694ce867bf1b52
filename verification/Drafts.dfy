/** Draft blocks and the proposal map (block/draft_block.go, block/draft_qc.go, chain/proposal_map.go).

    A draft is a value that carries the identity of the object it stands for, so that two drafts are equal exactly when
    they are the same object.  The one field that changes later, Committed, is kept outside as a set of identities. */
module Drafts {
  import opened Blocks
  import opened ChainStore

  datatype DraftQC = DraftQC(qc: QuorumCert, node: Option<Draft>)

  datatype Draft = Draft(
    ref: nat,
    block: Block,
    height: Uint32,
    round: Uint32,
    parent: Option<Draft>,
    justify: Option<DraftQC>,
    processed: bool)

  type Pool = map<Id, Draft>

  // ---------------------------------------------------------------- well-formed drafts

  /** A draft hangs off its parent draft by block id and was built on the certificate it carries, and a draft without a
      parent draft is a stored block. */
  ghost predicate Good(s: Store, d: Draft) {
    && d.height == d.block.Number()
    && match d.parent
       case None => d.block.ID() in s.blocks && s.blocks[d.block.ID()].header == d.block.header
       case Some(p) =>
         && Good(s, p)
         && d.block.header.parentId == p.block.ID()
         && p.block.Number() + 1 < U32
         && d.justify.Some? && d.justify.value.qc == d.block.qc && d.justify.value.node.Some?
  }

  ghost predicate GoodPool(s: Store, pool: Pool) {
    forall id {:trigger pool[id]} | id in pool :: pool[id].block.ID() == id && Good(s, pool[id])
  }

  /** A draft in good order sits on the same block tree as the store. */
  lemma {:induction false} GoodLinked(s: Store, d: Draft)
    requires Tree(s) && Good(s, d)
    ensures Linked(d.block.header) && Root(d.block.header) == Root(s.best.header)
    ensures d.parent.Some? ==>
              && d.parent.value.height + 1 == d.height
              && Lineage(d.block.header) == Lineage(d.parent.value.block.header) + [d.block.header]
    ensures d.parent.None? ==> d.height <= s.best.Number()
  {
    match d.parent
    case None => assert TreeNode(s, d.block.ID());
    case Some(p) =>
      GoodLinked(s, p);
      ChildLineage(d.block.header);
  }

  /** A store that keeps its blocks keeps drafts in good order. */
  lemma {:induction false} GoodSurvives(s: Store, s': Store, d: Draft)
    requires Good(s, d)
    requires forall id | id in s.blocks :: id in s'.blocks && s'.blocks[id].header == s.blocks[id].header
    ensures Good(s', d)
  {
    if d.parent.Some? {
      GoodSurvives(s, s', d.parent.value);
    }
  }

  /** The draft and the drafts below it carry certificates that name their parents. */
  ghost predicate NamesParents(d: Draft) {
    d.parent.Some? ==> d.block.qc.blockId == d.parent.value.block.ID() && NamesParents(d.parent.value)
  }

  ghost predicate PoolNamesParents(pool: Pool) {
    forall id | id in pool :: NamesParents(pool[id])
  }

  // ---------------------------------------------------------------- lookups

  /** A committed draft made from a stored block. */
  function FromStore(b: Block, height: Uint32, round: Uint32, ref: nat): Draft {
    Draft(ref, b, height, round, None, None, false)
  }

  /** Get: the pool entry, or a fresh draft of the stored block, whose round is guessed from its own certificate. */
  function Lookup(s: Store, pool: Pool, id: Id, ref: nat): Option<Draft> {
    if id in pool then Some(pool[id])
    else if id in s.blocks then
      var b := s.blocks[id];
      Some(FromStore(b, b.Number(), (b.qc.round + 1) % U32, ref))
    else None
  }

  /** GetOneByEscortQC: the pool entry that the certificate names, with its round, or a fresh draft of the
      stored block. */
  function LookupByQC(s: Store, pool: Pool, qc: QuorumCert, ref: nat): Option<Draft> {
    if qc.blockId in pool && pool[qc.blockId].round == qc.round then Some(pool[qc.blockId])
    else if qc.blockId in s.blocks then Some(FromStore(s.blocks[qc.blockId], qc.Number(), qc.round, ref))
    else None
  }

  /** GetOneByEscortQC finds a draft: the pool has the block at the certificate's round, or the store has the block. */
  predicate Found(s: Store, pool: Pool, qc: QuorumCert) {
    (qc.blockId in pool && pool[qc.blockId].round == qc.round) || qc.blockId in s.blocks
  }

  /** Whether a draft is found does not depend on the identity a fresh one would get. */
  lemma FoundMeans(s: Store, pool: Pool, qc: QuorumCert, ref: nat)
    ensures LookupByQC(s, pool, qc, ref).Some? <==> Found(s, pool, qc)
  {
  }

  /** The node has the height and the round of the certificate, and is the block it names. */
  predicate Matches(n: Draft, qc: QuorumCert) {
    n.block.ID() == qc.blockId && n.height == qc.Number() && n.round == qc.round
  }

  lemma LookupByQCMatches(s: Store, pool: Pool, qc: QuorumCert, ref: nat)
    requires Tree(s) && GoodPool(s, pool)
    ensures var n := LookupByQC(s, pool, qc, ref);
            n.Some? ==> Matches(n.value, qc) && Good(s, n.value)
  {
    if qc.blockId in s.blocks {
      assert TreeNode(s, qc.blockId);
    }
  }

  lemma LookupGood(s: Store, pool: Pool, id: Id, ref: nat)
    requires Tree(s) && GoodPool(s, pool)
    ensures var n := Lookup(s, pool, id, ref);
            n.Some? ==> n.value.block.ID() == id && Good(s, n.value)
  {
    if id in s.blocks {
      assert TreeNode(s, id);
    }
  }

  /** A draft that has left the pool is found again as the stored block, with a round guessed from the certificate it
      carries.  For a draft built on the draft that certificate names, the guess is right exactly when it was proposed
      in the round after its parent's. */
  lemma GuessedRoundRight(s: Store, pool: Pool, d: Draft, ref: nat)
    requires d.block.ID() !in pool && d.block.ID() in s.blocks && s.blocks[d.block.ID()] == d.block
    requires d.parent.Some? && Matches(d.parent.value, d.block.qc)
    ensures var n := Lookup(s, pool, d.block.ID(), ref);
            && n.Some? && n.value.block == d.block && n.value.parent.None?
            && (n.value.round == d.round <==> d.round == (d.parent.value.round + 1) % U32)
  {
  }

  /** A first block whose certificate names genesis. */
  function FirstChild(genesis: Block, escortQC: QuorumCert): Block {
    Block(Header(genesis.ID(), 0, 0, 0, 0, 0, 0, 0, 0), [], escortQC)
  }

  /** Over every genesis, a first block proposed in round 0, as after a KBlock, is found at another round once it has
      left the pool. */
  lemma RestartMisguessed(genesis: Block, escortQC: QuorumCert, ref: nat)
    requires genesis.Number() == 0 && escortQC.blockId == genesis.ID() && escortQC.round + 1 < U32
    ensures var b := FirstChild(genesis, escortQC);
            var parent := FromStore(genesis, 0, escortQC.round, 0);
            var d := Draft(1, b, 1, 0, Some(parent), Some(DraftQC(escortQC, Some(parent))), true);
            var n := Lookup(OneChild(genesis, b, escortQC), map[], b.ID(), ref);
            && Matches(parent, b.qc) && n.Some? && n.value.block == d.block && n.value.round != d.round
  {
  }

  /** A draft that is added is what its id finds, and what a certificate of its round finds; no other id is affected. */
  lemma AddedIsFound(s: Store, pool: Pool, d: Draft, id: Id, qc: QuorumCert, ref: nat)
    ensures var added := pool[d.block.ID() := d];
            && Lookup(s, added, id, ref) == (if id == d.block.ID() then Some(d) else Lookup(s, pool, id, ref))
            && (qc.blockId == d.block.ID() && qc.round == d.round ==> LookupByQC(s, added, qc, ref) == Some(d))
            && (qc.blockId != d.block.ID() ==> LookupByQC(s, added, qc, ref) == LookupByQC(s, pool, qc, ref))
  {
  }

  // ---------------------------------------------------------------- ancestors to commit

  datatype Commit = Commit(draft: Draft, escortQC: QuorumCert)

  /** The strict ancestors of a draft above a height, oldest first, each with the certificate its child carries. */
  function AncestorsAbove(d: Draft, height: nat): seq<Commit>
    decreases d
  {
    match d.parent
    case None => []
    case Some(p) => if p.height > height then AncestorsAbove(p, height) + [Commit(p, d.block.qc)] else []
  }

  /** The draft whose parent is entry k of its list of ancestors. */
  function ChildOf(d: Draft, cs: seq<Commit>, k: nat): Draft
    requires k < |cs|
  {
    if k + 1 < |cs| then cs[k + 1].draft else d
  }

  /** Whatever fork the draft is on, the list is exactly its strict ancestors above the height, in consecutive ascending
      heights, each paired with the certificate its child carries; every one of them has a parent draft. */
  lemma {:induction false} AncestorsAboveExact(s: Store, d: Draft, height: nat)
    requires Tree(s) && Good(s, d) && s.best.Number() <= height
    ensures var cs := AncestorsAbove(d, height);
            && |cs| == (if d.height > height + 1 then d.height - 1 - height else 0)
            && |Lineage(d.block.header)| == d.height + 1
            && forall k | 0 <= k < |cs| ::
                 && cs[k].draft.block.header == Lineage(d.block.header)[height + 1 + k]
                 && cs[k].draft.height == height + 1 + k
                 && ChildOf(d, cs, k).parent == Some(cs[k].draft)
                 && cs[k].escortQC == ChildOf(d, cs, k).block.qc
                 && cs[k].draft.parent.Some?
                 && Good(s, cs[k].draft)
  {
    GoodLinked(s, d);
    LinkedNumber(d.block.header);
    hide Lineage, Linked, Tree;
    if d.parent.Some? {
      var p := d.parent.value;
      GoodLinked(s, p);
      AncestorsAboveExact(s, p, height);
      assert p.height > height ==> p.parent.Some?;
      var cs := AncestorsAbove(d, height);
      var below := AncestorsAbove(p, height);
      forall k | 0 <= k < |cs| - 1
        ensures cs[k].draft.block.header == Lineage(d.block.header)[height + 1 + k]
        ensures ChildOf(d, cs, k) == ChildOf(p, below, k)
      {
        assert cs[k] == below[k];
      }
    }
  }

  /** The part of it about headers. */
  lemma AncestorHeaders(s: Store, d: Draft, height: nat)
    requires Tree(s) && Good(s, d) && s.best.Number() <= height
    ensures var cs := AncestorsAbove(d, height);
            && |cs| == (if d.height > height + 1 then d.height - 1 - height else 0)
            && |Lineage(d.block.header)| == d.height + 1 && Linked(d.block.header)
            && forall k | 0 <= k < |cs| :: cs[k].draft.block.header == Lineage(d.block.header)[height + 1 + k]
  {
    hide Good, Tree, Lineage, Linked, AncestorsAbove;
    AncestorsAboveExact(s, d, height);
    GoodLinked(s, d);
  }

  /** Where drafts carry certificates that name their parents, each entry is paired with a certificate that names it. */
  lemma {:induction false} AncestorsNamed(d: Draft, height: nat, k: nat)
    requires NamesParents(d) && k < |AncestorsAbove(d, height)|
    ensures var c := AncestorsAbove(d, height)[k]; c.escortQC.blockId == c.draft.block.ID()
    decreases d
  {
    if k < |AncestorsAbove(d, height)| - 1 {
      AncestorsNamed(d.parent.value, height, k);
    }
  }

  // ---------------------------------------------------------------- the hop-bounded ancestry test

  /** ExtendedFromLastCommitted: the target is met within `hops` drafts, starting at the draft itself. */
  predicate MeetsWithin(d: Draft, target: Id, hops: nat)
    decreases hops
  {
    && hops > 0
    && (|| d.block.ID() == target
        || (d.parent.Some? && MeetsWithin(d.parent.value, target, hops - 1)))
  }

  /** The test is true exactly for drafts that extend best and are fewer than `hops` blocks above it. */
  lemma {:induction false} MeetsWithinExact(s: Store, d: Draft, hops: nat)
    requires SingleChain(s) && Good(s, d)
    ensures MeetsWithin(d, s.best.ID(), hops) <==>
            Extends(d.block.header, s.best.header) && d.height < s.best.Number() + hops
    decreases hops
  {
    var h, best := d.block.header, s.best.header;
    GoodLinked(s, d);
    LinkedNumber(h);
    LinkedNumber(best);
    if hops > 0 && d.parent.Some? {
      MeetsWithinExact(s, d.parent.value, hops - 1);
    }
    if h == best {
      assert Extends(h, best);
    } else if d.parent.None? {
      StoredBelowBest(s, h);
    } else {
      ParentExtends(h, best);
    }
  }

  /** A stored block other than best does not extend best. */
  lemma StoredBelowBest(s: Store, h: Header)
    requires SingleChain(s) && h.ID() in s.blocks && h != s.best.header && s.blocks[h.ID()].header == h
    ensures !Extends(h, s.best.header)
  {
    AncestorAtItsNumber(s.best.header, h);
    LinkedNumber(h);
    assert Extends(h, s.best.header) ==> Lineage(h) == Lineage(s.best.header);
  }

  /** A descendant other than the block itself extends it through its parent. */
  lemma ParentExtends(h: Header, a: Header)
    requires h != a && h.parentId.Digest?
    ensures Extends(h, a) <==> Extends(h.parentId.header, a)
  {
    ChildLineage(h);
    var lp, la := Lineage(h.parentId.header), Lineage(a);
    if Extends(h, a) {
      assert |la| <= |lp|;
    }
  }

  // ---------------------------------------------------------------- pruning

  /** A draft that PruneUpTo keeps: above the committed height, or the committed block itself. */
  predicate Kept(d: Draft, c: Draft) {
    d.block.Number() > c.height || (d.block.Number() == c.height && d.block.ID() == c.block.ID())
  }

  /** The pool once every entry outside `rest` has been looked at. */
  function PrunedOutside(pool: Pool, c: Draft, rest: set<Id>): Pool {
    map id | id in pool && (id in rest || Kept(pool[id], c)) :: pool[id]
  }

  function Prune(pool: Pool, c: Draft): Pool {
    PrunedOutside(pool, c, {})
  }

  lemma PruneOne(pool: Pool, c: Draft, rest: set<Id>, key: Id)
    requires key in rest && key in pool
    ensures PrunedOutside(pool, c, rest - {key}) ==
              if Kept(pool[key], c) then PrunedOutside(pool, c, rest) else PrunedOutside(pool, c, rest) - {key}
  {
    hide Kept;
  }

  /** The identities that PruneUpTo marks as committed: the pool's draft of the committed block. */
  function Marked(pool: Pool, c: Draft): set<nat> {
    if c.block.ID() in pool && pool[c.block.ID()].block.Number() == c.height then {pool[c.block.ID()].ref} else {}
  }

  /** Pruning leaves exactly the drafts above the committed height and the committed draft, unchanged. */
  lemma PruneExact(s: Store, pool: Pool, c: Draft)
    requires GoodPool(s, pool) && Good(s, c)
    ensures forall id :: id in Prune(pool, c) <==> id in pool && (pool[id].height > c.height || id == c.block.ID())
    ensures forall id | id in Prune(pool, c) :: Prune(pool, c)[id] == pool[id]
    ensures GoodPool(s, Prune(pool, c))
  {
    forall id | id in pool ensures id == c.block.ID() ==> pool[id].block.Number() == c.height {
      assert pool[id].block.ID() == id;
    }
  }

  /** Every ancestor of h above height n, and h itself, is in the pool. */
  ghost predicate PathInPool(pool: Pool, h: Header, n: nat)
    requires Linked(h)
  {
    LinkedNumber(h);
    forall k | n < k <= h.Number() :: Lineage(h)[k].ID() in pool
  }

  /** The path from the committed block up to a surviving descendant stays whole. */
  lemma PrunedPathStaysWhole(s: Store, pool: Pool, c: Draft, h: Header, n: nat)
    requires GoodPool(s, pool) && Good(s, c) && Linked(h) && n <= c.height
    requires PathInPool(pool, h, n)
    ensures PathInPool(Prune(pool, c), h, c.height)
    ensures Extends(h, c.block.header) && c.height > n ==> c.block.ID() in Prune(pool, c)
  {
    LinkedNumber(h);
    forall k | c.height <= k <= h.Number() && n < k
      ensures k > c.height ==> Lineage(h)[k].ID() in Prune(pool, c)
      ensures k == c.height && Lineage(h)[k] == c.block.header ==> c.block.ID() in Prune(pool, c)
    {
      LineageAt(h, k);
      var id := Lineage(h)[k].ID();
      assert id in pool && pool[id].block.ID() == id;
    }
    if Extends(h, c.block.header) {
      ExtendsMeansMember(h, c.block.header);
      AncestorAtItsNumber(h, c.block.header);
    }
  }

  // ---------------------------------------------------------------- the map as an object

  class ProposalMap {
    var proposals: Pool
    var committed: set<nat>

    constructor ()
      ensures proposals == map[] && committed == {}
    {
      proposals := map[];
      committed := {};
    }

    method Add(d: Draft)
      modifies this
      ensures proposals == old(proposals)[d.block.ID() := d] && committed == old(committed)
    {
      proposals := proposals[d.block.ID() := d];
    }

    /** Scans the map for the draft that a certificate names, then falls back to the store. */
    method GetOneByEscortQC(chain: Chain, qc: QuorumCert, ref: nat) returns (n: Option<Draft>)
      requires forall id | id in proposals :: proposals[id].block.ID() == id
      ensures n == LookupByQC(chain.State(), proposals, qc, ref)
    {
      var rest := proposals.Keys;
      while rest != {}
        invariant rest <= proposals.Keys
        invariant forall id | id in proposals && id !in rest ::
                    !(proposals[id].block.ID() == qc.blockId && proposals[id].round == qc.round)
        decreases rest
      {
        var key :| key in rest;
        var draft := proposals[key];
        if draft.block.ID() == qc.blockId && draft.round == qc.round {
          return Some(draft);
        }
        rest := rest - {key};
      }
      if qc.blockId in chain.blocks {
        return Some(FromStore(chain.blocks[qc.blockId], qc.Number(), qc.round, ref));
      }
      return None;
    }

    /** Deletes while it scans, and marks the committed draft. */
    method PruneUpTo(c: Draft)
      requires forall id | id in proposals :: proposals[id].block.ID() == id
      modifies this
      ensures proposals == Prune(old(proposals), c)
      ensures committed == old(committed) + Marked(old(proposals), c)
    {
      ghost var pool := proposals;
      var rest := proposals.Keys;
      assert proposals == PrunedOutside(pool, c, rest);
      while rest != {}
        invariant rest <= pool.Keys
        invariant proposals == PrunedOutside(pool, c, rest)
        invariant committed == old(committed) + (if c.block.ID() in rest then {} else Marked(pool, c))
        decreases rest
      {
        var key :| key in rest;
        PruneOne(pool, c, rest, key);
        var draft := proposals[key];
        if draft.block.Number() < c.height {
          proposals := proposals - {draft.block.ID()};
        }
        if draft.block.Number() == c.height {
          if draft.block.ID() != c.block.ID() {
            proposals := proposals - {draft.block.ID()};
          } else {
            committed := committed + {draft.ref};
          }
        }
        rest := rest - {key};
      }
    }
  }
}
