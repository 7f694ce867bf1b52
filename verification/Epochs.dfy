/** Epoch chaining: how a proposed block carries validator hashes and the last-KBlock pointer
    (consensus/pacemaker_propose.go buildBlock), and how the committee of a leaf is found (consensus/epoch_state.go). */
module Epochs {
  import opened Blocks
  import opened ChainStore

  /** What a proposer fills in freely: clock, transactions, hashes, and the set that the registry supplies, if any. */
  datatype Leaf = Leaf(
    timestamp: nat, nonce: nat, proposerIndex: nat, txs: seq<Tx>, txsRoot: Hash, qcHash: Hash, newVSet: Option<Hash>)

  function BuildHeader(parent: Header, leaf: Leaf): Header {
    Header(
      parent.ID(), leaf.timestamp, leaf.proposerIndex, leaf.txsRoot,
      if parent.IsKBlock() then parent.Number() else parent.lastKBlock,
      leaf.nonce, leaf.qcHash,
      parent.nextValidatorsHash,
      if leaf.newVSet.Some? then leaf.newVSet.value else parent.nextValidatorsHash)
  }

  function BuildBlock(parent: Block, qc: QuorumCert, leaf: Leaf): Block {
    Block(BuildHeader(parent.header, leaf), leaf.txs, qc)
  }

  /** A chain of buildBlock results over a genesis whose LastKBlock is 0. */
  ghost predicate Built(h: Header) {
    if h.parentId.Digest? then
      var p := h.parentId.header;
      && Built(p)
      && h.validatorsHash == p.nextValidatorsHash
      && h.lastKBlock == if p.IsKBlock() then p.Number() else p.lastKBlock
    else
      h.lastKBlock == 0
  }

  lemma BuildKeepsBuilt(parent: Block, qc: QuorumCert, leaf: Leaf)
    requires Built(parent.header) && Linked(parent.header) && parent.Number() + 1 < U32
    ensures var b := BuildBlock(parent, qc, leaf);
            && Built(b.header) && Linked(b.header)
            && b.Number() == parent.Number() + 1 && b.qc == qc
            && (b.IsKBlock() <==> leaf.newVSet.Some? && leaf.newVSet.value != parent.header.nextValidatorsHash)
  {
  }

  /** LastKBlock is the greatest earlier KBlock number, and 0 if there is none. */
  lemma {:induction false} LastKBlockIsGreatest(h: Header)
    requires Built(h) && Linked(h)
    ensures |Lineage(h)| == h.Number() + 1
    ensures h.lastKBlock == 0 || h.lastKBlock < h.Number()
    ensures h.lastKBlock > 0 ==> Lineage(h)[h.lastKBlock].IsKBlock()
    ensures forall j | h.lastKBlock < j < h.Number() :: !Lineage(h)[j].IsKBlock()
  {
    LinkedNumber(h);
    if h.parentId.Digest? {
      var p := h.parentId.header;
      LastKBlockIsGreatest(p);
      ChildLineage(h);
      forall j | h.lastKBlock < j < h.Number() ensures !Lineage(h)[j].IsKBlock() {
        if j < p.Number() {
          assert Lineage(h)[j] == Lineage(p)[j];
        } else {
          assert Lineage(h)[j] == p;
        }
      }
      if h.lastKBlock > 0 {
        assert Lineage(h)[h.lastKBlock] == if p.IsKBlock() then p else Lineage(p)[p.lastKBlock];
      }
    }
  }

  /** The number of the KBlock that opened the leaf's epoch. */
  function EpochBlock(leaf: Header): Uint32 {
    if leaf.IsKBlock() then leaf.Number() else leaf.lastKBlock
  }

  /** The leaf's next validators are those its epoch's opening block named. */
  lemma {:induction false} NextSetComesFromEpochBlock(h: Header)
    requires Built(h) && Linked(h)
    ensures EpochBlock(h) <= h.Number() && |Lineage(h)| == h.Number() + 1
    ensures Lineage(h)[EpochBlock(h)].nextValidatorsHash == h.nextValidatorsHash
  {
    LinkedNumber(h);
    if h.IsKBlock() {
      LineageAt(h, h.Number());
      assert Lineage(h)[h.Number()] == h;
    } else if h.parentId.Digest? {
      var p := h.parentId.header;
      NextSetComesFromEpochBlock(p);
      ChildLineage(h);
      assert EpochBlock(h) == EpochBlock(p);
      assert Lineage(h)[EpochBlock(p)] == Lineage(p)[EpochBlock(p)];
    } else {
      assert Lineage(h) == [h];
    }
  }

  // ---------------------------------------------------------------- finding the committee

  type ValidatorSet = nat

  /** What NewEpochState looks up: jump to the opening block by number, then load the set it names. */
  function FindCommittee(s: Store, sets: map<Hash, ValidatorSet>, leaf: Block): Option<ValidatorSet> {
    var num := EpochBlock(leaf.header);
    if num !in s.index || s.index[num] !in s.blocks then None
    else
      var hash := s.blocks[s.index[num]].header.nextValidatorsHash;
      if hash in sets then Some(sets[hash]) else None
  }

  /** For every leaf on the trunk, or above it on a draft that extends best, the committee found is the one named by the
      leaf's own NextValidatorsHash; it is not found exactly when the opening block is not committed yet or that set was
      never saved. */
  lemma CommitteeIsNamedByLeaf(s: Store, sets: map<Hash, ValidatorSet>, leaf: Block)
    requires SingleChain(s) && Linked(leaf.header) && Built(leaf.header)
    requires Extends(s.best.header, leaf.header) || Extends(leaf.header, s.best.header)
    ensures var found := FindCommittee(s, sets, leaf);
            && (found.Some? <==> EpochBlock(leaf.header) <= s.best.Number() && leaf.header.nextValidatorsHash in sets)
            && (found.Some? ==> found.value == sets[leaf.header.nextValidatorsHash])
  {
    var h, best, num := leaf.header, s.best.header, EpochBlock(leaf.header);
    NextSetComesFromEpochBlock(h);
    LinkedNumber(best);
    if num <= best.Number() {
      assert Lineage(best)[num] == Lineage(h)[num];
      AncestorsStored(s, best, Lineage(best)[num]);
    }
  }

  /** The scan for this node's committee position. */
  method FindIndex(committee: seq<nat>, myKey: nat) returns (inCommittee: bool, index: int)
    ensures inCommittee <==> myKey in committee
    ensures inCommittee ==> 0 <= index < |committee| && committee[index] == myKey
    ensures inCommittee ==> forall j | index < j < |committee| :: committee[j] != myKey
    ensures !inCommittee ==> index == -1
  {
    inCommittee, index := false, -1;
    for i := 0 to |committee|
      invariant inCommittee <==> myKey in committee[..i]
      invariant inCommittee ==> 0 <= index < i && committee[index] == myKey
      invariant inCommittee ==> forall j | index < j < i :: committee[j] != myKey
      invariant !inCommittee ==> index == -1
    {
      if committee[i] == myKey {
        index := i;
        inCommittee := true;
      }
    }
  }
}
