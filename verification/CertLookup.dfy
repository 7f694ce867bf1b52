/** Finding the certificate of a block (chain/chain.go GetQCForBlock, GetDraftByNum). */
module CertLookup {
  import opened Blocks
  import opened ChainStore
  import opened Drafts

  datatype CertError = EmptyDraft | BlockNotFound | QCMismatch

  ghost predicate OfNumber(pool: Pool, num: Uint32, d: Draft) {
    exists id :: id in pool && pool[id] == d && d.block.Number() == num
  }

  /** A draft of a height that no other draft of that height has a higher round than. */
  ghost predicate Latest(pool: Pool, num: Uint32, d: Draft) {
    OfNumber(pool, num, d) && forall id | id in pool && pool[id].block.Number() == num :: pool[id].round <= d.round
  }

  /** The draft of a height with the highest round. */
  method GetDraftByNum(pool: Pool, num: Uint32) returns (latest: Option<Draft>)
    ensures latest.None? ==> forall id | id in pool :: pool[id].block.Number() != num
    ensures latest.Some? ==> Latest(pool, num, latest.value)
  {
    latest := None;
    var rest := pool.Keys;
    while rest != {}
      invariant rest <= pool.Keys
      invariant latest.None? ==> forall id | id in pool && id !in rest :: pool[id].block.Number() != num
      invariant latest.Some? ==>
                  && OfNumber(pool, num, latest.value)
                  && forall id | id in pool && id !in rest && pool[id].block.Number() == num
                     :: pool[id].round <= latest.value.round
      decreases rest
    {
      var key :| key in rest;
      var prop := pool[key];
      if prop.block.Number() == num && (latest.None? || prop.round > latest.value.round) {
        latest := Some(prop);
      }
      rest := rest - {key};
    }
  }

  /** The certificate that a child draft of the highest round carries, if it names the block, and an error that tells
      whether there is no child draft. */
  ghost predicate OfDraftChild(pool: Pool, blkId: Id, r: Result<QuorumCert, CertError>) {
    var num := (blkId.number + 1) % U32;
    if forall id | id in pool :: pool[id].block.Number() != num then r == Err(EmptyDraft)
    else
      exists d ::
        Latest(pool, num, d) && r == if d.block.qc.blockId == blkId then Ok(d.block.qc) else Err(QCMismatch)
  }

  method GetQCFromDraft(pool: Pool, blkId: Id) returns (r: Result<QuorumCert, CertError>)
    ensures OfDraftChild(pool, blkId, r) && (r.Ok? ==> r.value.blockId == blkId)
  {
    var draftChild := GetDraftByNum(pool, (blkId.number + 1) % U32);
    if draftChild.None? {
      return Err(EmptyDraft);
    }
    if draftChild.value.block.qc.blockId != blkId {
      return Err(QCMismatch);
    }
    return Ok(draftChild.value.block.qc);
  }

  /** Below the head the certificate is that of the indexed child, found exactly when it names the block asked for;
      where stored blocks carry their parents' certificates, exactly for the blocks of the chain.  At the head's height
      it is bestQC whatever was asked for, and above the head that of a child draft of the highest round: a certificate
      that is returned names the block asked for exactly unless that has the head's height and is not what
      bestQC names. */
  method GetQCForBlock(chain: Chain, pool: Pool, blkId: Id) returns (r: Result<QuorumCert, CertError>)
    requires SingleChain(chain.State())
    ensures |Lineage(chain.bestBlock.header)| == chain.bestBlock.Number() + 1
    ensures blkId.number < chain.bestBlock.Number() ==>
              var child := Lineage(chain.bestBlock.header)[blkId.number + 1].ID();
              && child in chain.blocks
              && r == if chain.blocks[child].qc.blockId == blkId then Ok(chain.blocks[child].qc) else Err(QCMismatch)
    ensures ParentsCertified(chain.State()) && blkId.number < chain.bestBlock.Number() ==>
              (r.Ok? <==> Lineage(chain.bestBlock.header)[blkId.number].ID() == blkId)
    ensures blkId.number == chain.bestBlock.Number() ==> r == Ok(chain.bestQC)
    ensures blkId.number > chain.bestBlock.Number() ==> OfDraftChild(pool, blkId, r)
    ensures r.Ok? ==>
              (r.value.blockId == blkId <==> blkId.number != chain.bestBlock.Number() || blkId == chain.bestQC.blockId)
  {
    LinkedNumber(chain.bestBlock.header);
    hide Lineage, Linked, Tree, SingleChain, ParentsCertified, OfDraftChild;
    var num := blkId.number;
    if num > chain.bestBlock.Number() {
      r := GetQCFromDraft(pool, blkId);
    } else if num == chain.bestBlock.Number() {
      return Ok(chain.bestQC);
    } else {
      TrunkChild(chain.State(), num);
      if num + 1 !in chain.index || chain.index[num + 1] !in chain.blocks {
        return Err(BlockNotFound);
      }
      var child := chain.blocks[chain.index[num + 1]];
      if child.qc.blockId != blkId {
        return Err(QCMismatch);
      }
      return Ok(child.qc);
    }
  }

  /** Over every genesis, asking for another block of the head's height returns a certificate that does not name it. */
  method WrongCertificate(genesis: Block, escortQC: QuorumCert) returns (r: Result<QuorumCert, CertError>)
    requires genesis.Number() == 0 && genesis.header.parentId.Opaque? && escortQC.blockId == genesis.ID()
    ensures var other := genesis.header.(nonce := genesis.header.nonce + 1);
            && other.Number() == genesis.Number()
            && r.Ok? && r.value.blockId != other.ID()
  {
    var chain := new Chain(genesis, escortQC, (a, b) => false);
    var other := genesis.header.(nonce := genesis.header.nonce + 1);
    r := GetQCForBlock(chain, map[], other.ID());
  }

  /** The indexed block above a height is the ancestor there, and stored; where stored blocks carry their parents'
      certificates, its certificate names the ancestor at that height. */
  lemma TrunkChild(s: Store, num: Uint32)
    requires SingleChain(s) && num < s.best.Number()
    ensures |Lineage(s.best.header)| == s.best.Number() + 1
    ensures num + 1 in s.index && s.index[num + 1] == Lineage(s.best.header)[num + 1].ID()
            && s.index[num + 1] in s.blocks
    ensures ParentsCertified(s) ==> s.blocks[s.index[num + 1]].qc.blockId == Lineage(s.best.header)[num].ID()
  {
    var best := s.best.header;
    LinkedNumber(best);
    var child := Lineage(best)[num + 1];
    AncestorsStored(s, best, child);
    LineageAt(best, num + 1);
    LineageAt(best, num);
    ParentInLineage(best, num + 1);
  }
}
