/** Agreement across replicas: any number of pacemakers of one fixed committee, fewer than a third of its members
    faulty.

    A signature is the fact that a member signed a block id.  Faulty members sign whatever they like; a correct member
    signs what its own pacemaker votes for.  Messages are arbitrary, but for the signatures in them and for what
    Truthful and StepOk ask: above all, that a proposal on an uncertified parent carries a certificate that names that
    parent, which OnReceiveProposal does not compare. */
module Agreement {
  import opened Blocks
  import opened ChainStore
  import opened Drafts
  import opened Quorum
  import opened Votes
  import opened PacemakerMachine
  import opened PacemakerRuns

  type Signatures = set<(nat, Id)>

  /** The committee of n members, one configuration each, the faulty ones, and genesis. */
  datatype Env = Env(n: nat, cfgs: seq<Config>, faulty: set<nat>, genesis: Header)

  datatype World = World(replicas: seq<Pm>, signed: Signatures)

  ghost predicate EnvOk(env: Env) {
    env.n < U32 && |env.cfgs| == env.n && 3 * |env.faulty| < env.n && !env.genesis.parentId.Digest?
  }

  // ---------------------------------------------------------------- certificates

  ghost predicate AllSigned(signed: Signatures, q: set<nat>, id: Id) {
    forall i | i in q :: (i, id) in signed
  }

  ghost predicate IsQuorum(n: nat, q: set<nat>) {
    q <= Members(n) && MajorityTwoThird(|q|, n)
  }

  /** A quorum signed the block. */
  ghost predicate Certified(n: nat, signed: Signatures, id: Id) {
    exists q :: IsQuorum(n, q) && AllSigned(signed, q, id)
  }

  /** No correct member signed two blocks of one height. */
  ghost predicate OneVotePerHeight(env: Env, signed: Signatures) {
    forall i, a, b | i !in env.faulty && (i, a) in signed && (i, b) in signed && a.number == b.number :: a == b
  }

  lemma CertifiedLater(n: nat, signed: Signatures, later: Signatures, id: Id)
    requires Certified(n, signed, id) && signed <= later
    ensures Certified(n, later, id)
  {
    var q :| IsQuorum(n, q) && AllSigned(signed, q, id);
    assert AllSigned(later, q, id);
  }

  /** Two certificates of one height certify one block. */
  lemma NoConflictingCertificates(env: Env, signed: Signatures, a: Id, b: Id)
    requires 3 * |env.faulty| < env.n && OneVotePerHeight(env, signed)
    requires Certified(env.n, signed, a) && Certified(env.n, signed, b) && a.number == b.number
    ensures a == b
  {
    var qa :| IsQuorum(env.n, qa) && AllSigned(signed, qa, a);
    var qb :| IsQuorum(env.n, qb) && AllSigned(signed, qb, b);
    var i := QuorumsShareCorrectMember(env.n, qa, qb, env.faulty);
  }

  /** VerifyQC on the signatures there are: it counts every set bit, and aggregates the keys of
      committee members only. */
  ghost predicate Passes(n: nat, signed: Signatures, b: Block, qc: QuorumCert) {
    VerifyQC(b, qc, n, AllSigned(signed, qc.signers * Members(n), qc.blockId))
  }

  /** The certificates of blocks 0 and 1 are not checked. */
  predicate Exempt(b: Block, qc: QuorumCert) {
    b.ID() == qc.blockId && b.Number() <= 1
  }

  /** A certificate that passes VerifyQC is signed by a quorum if its bits within the committee are two thirds. */
  lemma VerifiedMeansCertified(n: nat, signed: Signatures, b: Block, qc: QuorumCert)
    requires Passes(n, signed, b, qc) && !Exempt(b, qc) && MajorityTwoThird(|qc.signers * Members(n)|, n)
    ensures Certified(n, signed, qc.blockId)
  {
    hide MajorityTwoThird;
    assert IsQuorum(n, qc.signers * Members(n));
  }

  /** VerifyQC is sound for a certificate, whatever was signed, exactly when the certificate has too few bits to pass at
      all or two thirds of them within the committee. */
  lemma VerifyQCSoundExactlyWhen(n: nat, b: Block, qc: QuorumCert)
    requires !Exempt(b, qc)
    ensures (forall signed | Passes(n, signed, b, qc) :: Certified(n, signed, qc.blockId)) <==>
              !MajorityTwoThird(|qc.signers|, n) || MajorityTwoThird(|qc.signers * Members(n)|, n)
  {
    hide MajorityTwoThird;
    var q := qc.signers * Members(n);
    if MajorityTwoThird(|q|, n) {
      forall signed | Passes(n, signed, b, qc) ensures Certified(n, signed, qc.blockId) {
        VerifiedMeansCertified(n, signed, b, qc);
      }
    }
    var least: Signatures := set i | i in q :: (i, qc.blockId);
    assert AllSigned(least, q, qc.blockId);
    if !MajorityTwoThird(|q|, n) {
      forall p: set<nat> | AllSigned(least, p, qc.blockId) ensures !IsQuorum(n, p) {
        assert forall i | i in p :: (i, qc.blockId) in least;
        NoQuorumWithin(n, q, p);
      }
      assert MajorityTwoThird(|qc.signers|, n) ==> Passes(n, least, b, qc);
    }
  }

  /** A concrete certificate that passes and is not signed by a quorum: three bits, two of them outside a committee of
      four. */
  lemma LongBitArrayPasses(b: Block, round: Uint32)
    requires b.Number() > 1
    ensures var qc := QuorumCert(0, round, b.ID(), {0, 4, 5});
            Passes(4, {(0, b.ID())}, b, qc) && !Certified(4, {(0, b.ID())}, b.ID())
  {
    var qc, signed: Signatures := QuorumCert(0, round, b.ID(), {0, 4, 5}), {(0, b.ID())};
    assert qc.signers * Members(4) == {0};
    assert |qc.signers| == 3;
    MajorityInIntegers(3, 4);
    MajorityInIntegers(1, 4);
    forall p: set<nat> | AllSigned(signed, p, b.ID()) ensures !IsQuorum(4, p) {
      assert forall i | i in p :: (i, b.ID()) in signed;
      NoQuorumWithin(4, {0}, p);
    }
  }

  /** The certificate that comes with a synced block either cannot pass, or names the block with two thirds of its bits
      within the committee.  The source compares neither: VerifyQC looks at ids for blocks 0 and 1 only. */
  ghost predicate Escorts(n: nat, blk: Block, qc: QuorumCert) {
    !MajorityTwoThird(|qc.signers|, n) || (qc.blockId == blk.ID() && MajorityTwoThird(|qc.signers * Members(n)|, n))
  }

  /** The check of a recent synced block above height 1 is sound, whatever was signed, exactly for such certificates. */
  lemma SyncCheckSoundExactlyWhen(n: nat, blk: Block, qc: QuorumCert)
    requires blk.Number() >= 2
    ensures (forall signed | Passes(n, signed, blk, qc) :: Certified(n, signed, blk.ID())) <==> Escorts(n, blk, qc)
  {
    hide MajorityTwoThird, Certified;
    if qc.blockId == blk.ID() {
      VerifyQCSoundExactlyWhen(n, blk, qc);
    } else if MajorityTwoThird(|qc.signers|, n) {
      var signed: Signatures := set i | i in qc.signers * Members(n) :: (i, qc.blockId);
      assert AllSigned(signed, qc.signers * Members(n), qc.blockId);
      assert Passes(n, signed, blk, qc);
      NobodySigned(n, signed, blk.ID());
    }
  }

  /** A block that nobody signed is not certified. */
  lemma NobodySigned(n: nat, signed: Signatures, id: Id)
    requires forall i: nat :: (i, id) !in signed
    ensures !Certified(n, signed, id)
  {
    forall q: set<nat> | AllSigned(signed, q, id) ensures !IsQuorum(n, q) {
      assert forall i | i in q :: (i, id) in signed;
      MajorityInIntegers(0, n);
      NoQuorumWithin(n, {}, q);
    }
  }

  /** Concretely: members 0, 1 and 2 of four signed only `a`, and every other block above height 1 passes with `a`'s
      certificate. */
  lemma OtherCertificatePasses(a: Id, b: Block, round: Uint32)
    requires b.Number() >= 2 && b.ID() != a
    ensures var signed: Signatures := {(0, a), (1, a), (2, a)};
            Passes(4, signed, b, QuorumCert(0, round, a, {0, 1, 2})) && !Certified(4, signed, b.ID())
  {
    var signed: Signatures, q: set<nat> := {(0, a), (1, a), (2, a)}, {0, 1, 2};
    assert q * Members(4) == q && |q| == 3;
    MajorityInIntegers(3, 4);
    NobodySigned(4, signed, b.ID());
  }

  lemma NoQuorumWithin(n: nat, q: set<nat>, p: set<nat>)
    requires p <= q && !MajorityTwoThird(|q|, n)
    ensures !IsQuorum(n, p)
  {
    hide MajorityTwoThird;
    Inclusion(p, q);
    MajorityInIntegers(|p|, n);
    MajorityInIntegers(|q|, n);
  }

  // ---------------------------------------------------------------- what correct members sign

  /** A block of the tree over genesis whose parent is certified, or is one of the blocks 0 and 1, whose certificates
      are not checked. */
  ghost predicate Justified(env: Env, signed: Signatures, id: Id) {
    && id.Digest? && id == id.header.ID()
    && Linked(id.header) && Root(id.header) == env.genesis
    && (id.header.parentId.number <= 1 || Certified(env.n, signed, id.header.parentId))
  }

  ghost predicate SignedOk(env: Env, signed: Signatures) {
    forall i, id {:trigger (i, id) in signed} | (i, id) in signed && i !in env.faulty :: Justified(env, signed, id)
  }

  /** The block is genesis, or a certified block above height 1 descends from it. */
  ghost predicate Backed(env: Env, signed: Signatures, h: Header) {
    || h == env.genesis
    || exists id: Id :: Supports(env, signed, id, h)
  }

  ghost predicate Supports(env: Env, signed: Signatures, id: Id, h: Header) {
    id.Digest? && id.number >= 2 && Certified(env.n, signed, id) && Extends(id.header, h)
  }

  lemma BackedLater(env: Env, signed: Signatures, later: Signatures, h: Header)
    requires Backed(env, signed, h) && signed <= later
    ensures Backed(env, later, h)
  {
    hide Extends, Certified;
    if h != env.genesis {
      var id :| Supports(env, signed, id, h);
      CertifiedLater(env.n, signed, later, id);
      assert Supports(env, later, id, h);
    }
  }

  /** Some correct member stands behind every certificate. */
  lemma CertifiedIsJustified(env: Env, signed: Signatures, id: Id)
    requires EnvOk(env) && SignedOk(env, signed) && Certified(env.n, signed, id)
    ensures Justified(env, signed, id)
  {
    hide Justified;
    var q :| IsQuorum(env.n, q) && AllSigned(signed, q, id);
    var i := QuorumsShareCorrectMember(env.n, q, q, env.faulty);
    assert (i, id) in signed;
  }

  /** So every ancestor above height 1 of a certified block is certified. */
  lemma {:induction false} AncestorsCertified(env: Env, signed: Signatures, h: Header, k: nat)
    requires EnvOk(env) && SignedOk(env, signed) && Certified(env.n, signed, h.ID()) && 2 <= k <= h.Number()
    ensures |Lineage(h)| == h.Number() + 1 && Certified(env.n, signed, Lineage(h)[k].ID())
    decreases h
  {
    hide Certified, SignedOk;
    CertifiedIsJustified(env, signed, h.ID());
    LinkedNumber(h);
    if k < h.Number() {
      ChildLineage(h);
      AncestorsCertified(env, signed, h.parentId.header, k);
    }
  }

  /** Certified blocks above height 1 lie on one line. */
  lemma CertifiedOnOneLine(env: Env, signed: Signatures, x: Header, y: Header)
    requires EnvOk(env) && SignedOk(env, signed) && OneVotePerHeight(env, signed)
    requires Certified(env.n, signed, x.ID()) && Certified(env.n, signed, y.ID())
    requires 2 <= x.Number() <= y.Number()
    ensures Extends(y, x)
  {
    hide Certified, SignedOk, OneVotePerHeight;
    CertifiedIsJustified(env, signed, y.ID());
    AncestorsCertified(env, signed, y, x.Number());
    LineageAt(y, x.Number());
    NoConflictingCertificates(env, signed, x.ID(), Lineage(y)[x.Number()].ID());
    AncestorAtItsNumber(y, x);
  }

  lemma BackedComparable(env: Env, signed: Signatures, a: Header, b: Header)
    requires EnvOk(env) && SignedOk(env, signed) && OneVotePerHeight(env, signed)
    requires Backed(env, signed, a) && Backed(env, signed, b)
    requires Root(a) == env.genesis && Root(b) == env.genesis
    ensures Comparable(Lineage(a), Lineage(b))
  {
    hide Certified, SignedOk, OneVotePerHeight, Linked;
    if a == env.genesis {
      GenesisBelow(env, b);
    } else if b == env.genesis {
      GenesisBelow(env, a);
    } else {
      var x :| Supports(env, signed, x, a);
      var y :| Supports(env, signed, y, b);
      CertifiedIsJustified(env, signed, x);
      CertifiedIsJustified(env, signed, y);
      if x.number <= y.number {
        CertifiedOnOneLine(env, signed, x.header, y.header);
        ExtendsTransitive(y.header, x.header, a);
        PrefixesComparable(Lineage(a), Lineage(b), Lineage(y.header));
      } else {
        CertifiedOnOneLine(env, signed, y.header, x.header);
        ExtendsTransitive(x.header, y.header, b);
        PrefixesComparable(Lineage(a), Lineage(b), Lineage(x.header));
      }
    }
  }

  lemma GenesisBelow(env: Env, h: Header)
    requires EnvOk(env) && Root(h) == env.genesis
    ensures Lineage(env.genesis) <= Lineage(h)
  {
    assert Lineage(env.genesis) == [env.genesis];
  }

  // ---------------------------------------------------------------- worlds

  datatype Action = Act(r: nat, e: Event) | Sign(i: nat, id: Id)

  /** The answers of the signature checks that a replica gets are true of the signatures there are.  The premises
      besides: a proposal's certificate names its parent, unless that parent is certified anyway or is block 0 or 1; the
      certificate of an accepted proposal has one bit per member, since BuildLastCommitInfo panics otherwise
      (chain/chain.go:1019; for a child of genesis this is asked only of a certificate that names another block); and a
      synced block has a certified descendant where the check does not say so, that is, unless it is recent, above
      height 1 and came with a certificate that Escorts it. */
  ghost predicate Truthful(env: Env, signed: Signatures, s: Pm, e: Event) {
    match e
    case Proposal(_, m, qcValid, _, accepted, _) =>
      var parent := Lookup(s.store, s.pool, m.block.header.parentId, s.nextRef);
      && (NamesItsParent(m) || m.block.header.parentId.number <= 1 || Certified(env.n, signed, m.block.header.parentId))
      && (qcValid && parent.Some? ==> Passes(env.n, signed, parent.value.block, m.block.qc))
      && (accepted && !(NamesItsParent(m) && m.block.header.parentId.number == 0)
         ==> m.block.qc.signers <= Members(env.n))
    case Vote(_, signer, _, blockId, sigOk) => sigOk ==> signer < env.n && (signer, blockId) in signed
    case Timeout(_, m, sigOk, _, _) => sigOk ==> m.signer < env.n && (m.signer, m.lastVote.blockId) in signed
    case RegulateNow(next) => next.Some? ==> |next.value.committee| == env.n
    case Synced(blk, qc, recent, valid, _) =>
      valid ==>
        && (recent ==> Passes(env.n, signed, blk, qc))
        && ((recent && blk.Number() >= 2 && Escorts(env.n, blk, qc)) || Backed(env, signed, blk.header))
    case _ => true
  }

  /** What a step adds to the signatures. */
  ghost function NewSignature(r: nat, s: Pm, e: Event): Signatures {
    var v := Recorded(s, e);
    if v.Some? then {(r, v.value.blockId)} else {}
  }

  ghost predicate WorldNext(env: Env, w: World, a: Action, w': World) {
    match a
    case Sign(i, id) => i in env.faulty && w' == w.(signed := w.signed + {(i, id)})
    case Act(r, e) =>
      && r < |w.replicas| == env.n == |env.cfgs| && r !in env.faulty
      && var s := w.replicas[r];
      && (Inv(s) ==>
          && Truthful(env, w.signed, s, e) && StepOk(env.cfgs[r], s, e)
          && w' == World(w.replicas[r := Step(env.cfgs[r], s, e)], w.signed + NewSignature(r, s, e)))
  }

  ghost predicate WorldStart(env: Env, w: World, genesis: Block, escortQC: QuorumCert) {
    && EnvOk(env) && GenesisBlock(genesis, escortQC) && genesis.header == env.genesis
    && w.signed == {}
    && |w.replicas| == env.n
    && forall r | 0 <= r < env.n ::
         var epoch := w.replicas[r].epoch;
         |epoch.committee| == env.n && w.replicas[r] == Start(env.cfgs[r], genesis, escortQC, epoch)
  }

  ghost predicate WorldRun(env: Env, ws: seq<World>, actions: seq<Action>) {
    && |ws| == |actions| + 1
    && forall i | 0 <= i < |actions| :: WorldNext(env, ws[i], actions[i], ws[i + 1])
  }

  // ---------------------------------------------------------------- the invariant of one replica

  /** Every vote in the table is a signature there is. */
  ghost predicate TableOk(env: Env, signed: Signatures, t: Table<QCKey, ()>) {
    && t.committeeSize == env.n
    && forall k, i | k in t.votes && i in t.votes[k] :: i < env.n && (i, k.blockId) in signed
  }

  ghost predicate ReplicaOk(env: Env, signed: Signatures, s: Pm) {
    && Inv(s)
    && Root(s.store.best.header) == env.genesis
    && Backed(env, signed, s.store.best.header)
    && TableOk(env, signed, s.qcVotes)
  }

  lemma AddVoteOk(env: Env, signed: Signatures, t: Table<QCKey, ()>, key: QCKey, signer: nat, sigOk: bool)
    requires TableOk(env, signed, t)
    requires sigOk ==> signer < env.n && (signer, key.blockId) in signed
    ensures var (t', cert) := CastVerified(t, key, signer, sigOk);
            && TableOk(env, signed, t')
            && (cert.Some? ==> Certified(env.n, signed, key.blockId))
  {
    hide MajorityTwoThird;
    var (t', cert) := CastVerified(t, key, signer, sigOk);
    if cert.Some? {
      var q := cert.value.Keys;
      assert t'.votes[key] == cert.value;
      KeysCount(cert.value);
      assert IsQuorum(env.n, q) && AllSigned(signed, q, key.blockId);
    }
  }

  /** Update commits only ancestors of the block its certificate names. */
  lemma UpdateBacked(env: Env, signed: Signatures, cfg: Config, s: Pm, qc: QuorumCert, apply: Executor)
    requires Inv(s) && Backed(env, signed, s.store.best.header)
    requires qc.Number() <= 1 || Certified(env.n, signed, qc.blockId)
    ensures Backed(env, signed, Update(cfg, s, qc, apply).0.store.best.header)
  {
    hide Update, Good, Tree, SingleChain, GoodPool, Lineage, Linked, Grows, LookupByQC, AncestorsAbove, Certified,
         Extends, Accepted, Headers;
    UpdateExact(cfg, s, qc, apply);
    if Commits(s, qc) {
      var d := LookupByQC(s.store, s.pool, qc, s.nextRef).value;
      var cs := AncestorsAbove(d, s.store.best.Number());
      var j := Accepted(cs, s.store.best.ID(), apply);
      if j > 0 {
        CommittedIsAncestor(s, d, j);
        GoodNumber(s.store, d);
        assert Supports(env, signed, qc.blockId, cs[j - 1].draft.block.header);
      }
    }
  }

  lemma RootGrows(env: Env, s: Store, s': Store)
    requires Grows(s, s') && Root(s.best.header) == env.genesis
    ensures Root(s'.best.header) == env.genesis
  {
  }

  // ---------------------------------------------------------------- one step of one replica

  /** What a correct replica keeps when it takes a step: the signatures then include what it signed. */
  ghost predicate StepSound(env: Env, signed: Signatures, r: nat, s: Pm, e: Event, s': Pm) {
    var later := signed + NewSignature(r, s, e);
    ReplicaOk(env, later, s') && SignedOk(env, later)
  }

  lemma TableLater(env: Env, signed: Signatures, later: Signatures, t: Table<QCKey, ()>)
    requires TableOk(env, signed, t) && signed <= later
    ensures TableOk(env, later, t)
  {
  }

  lemma JustifiedLater(env: Env, signed: Signatures, later: Signatures, id: Id)
    requires Justified(env, signed, id) && signed <= later
    ensures Justified(env, later, id)
  {
    hide Certified, Linked, Lineage;
    if id.header.parentId.number > 1 {
      CertifiedLater(env.n, signed, later, id.header.parentId);
    }
  }

  lemma SignedLater(env: Env, signed: Signatures, r: nat, id: Id)
    requires SignedOk(env, signed) && (r in env.faulty || Justified(env, signed, id))
    ensures SignedOk(env, signed + {(r, id)})
  {
    hide Justified;
    var later := signed + {(r, id)};
    forall i, x | (i, x) in later && i !in env.faulty ensures Justified(env, later, x) {
      JustifiedLater(env, signed, later, x);
    }
  }

  /** A correct member signs only a block whose parent is certified. */
  lemma VotedIsJustified(env: Env, signed: Signatures, s: Pm, e: Event)
    requires EnvOk(env) && ReplicaOk(env, signed, s) && e.Proposal? && Truthful(env, signed, s, e)
    requires HeightFits(e.proposal) && Recorded(s, e).Some?
    ensures Justified(env, signed, e.proposal.block.ID())
  {
    hide Good, Tree, SingleChain, GoodPool, Lineage, Linked, Certified, Passes, MajorityTwoThird, MeetsWithin,
         UncommittedTxs, Backed, TableOk, Lookup;
    var m := e.proposal;
    ProposalDraft(s, m, e.qcValid, e.tcValid, e.accepted);
    var d := NewDraft(s, m);
    GoodLinked(s.store, d);
    ParentDraft(s.store, d);
    CheckedIsCertified(env.n, signed, d.parent.value.block, m.block.qc);
  }

  /** A checked certificate with one bit per member is signed by a quorum, or is exempt from the check. */
  lemma CheckedIsCertified(n: nat, signed: Signatures, b: Block, qc: QuorumCert)
    requires Passes(n, signed, b, qc) && (!Exempt(b, qc) ==> qc.signers <= Members(n))
    ensures Exempt(b, qc) || Certified(n, signed, qc.blockId)
  {
    hide Certified, MajorityTwoThird, AllSigned;
    if !Exempt(b, qc) {
      assert qc.signers * Members(n) == qc.signers;
      VerifiedMeansCertified(n, signed, b, qc);
    }
  }

  lemma ProposalSound(env: Env, signed: Signatures, r: nat, cfg: Config, s: Pm, e: Event)
    requires EnvOk(env) && SignedOk(env, signed) && ReplicaOk(env, signed, s)
    requires e.Proposal? && Truthful(env, signed, s, e) && StepOk(cfg, s, e)
    ensures StepSound(env, signed, r, s, e, Step(cfg, s, e))
  {
    hide Inv, Backed, TableOk, SignedOk, Root, Grows, Truthful, Advances, Step;
    ProposalCommits(env, signed, cfg, s, e);
    var s' := Step(cfg, s, e);
    var later := signed + NewSignature(r, s, e);
    BackedLater(env, signed, later, s'.store.best.header);
    TableLater(env, signed, later, s'.qcVotes);
    if Recorded(s, e).Some? {
      VotedIsJustified(env, signed, s, e);
      SignedLater(env, signed, r, e.proposal.block.ID());
    } else {
      assert later == signed;
    }
  }

  lemma ProposalCommits(env: Env, signed: Signatures, cfg: Config, s: Pm, e: Event)
    requires EnvOk(env) && ReplicaOk(env, signed, s)
    requires e.Proposal? && Truthful(env, signed, s, e) && StepOk(cfg, s, e)
    ensures ReplicaOk(env, signed, Step(cfg, s, e))
  {
    hide StoreOk, PoolOk, HighOk, Backed, TableOk, Root, Grows, Truthful, OnReceiveProposal, RecordsVote, Extends,
         Below;
    StepKept(cfg, s, e);
    var s' := Step(cfg, s, e);
    RootGrows(env, s.store, s'.store);
    ProposalTable(cfg, s, e);
    if Recorded(s, e).Some? {
      ProposalUpdate(env, signed, cfg, s, e);
    } else if e.epoch == s.epoch.epoch {
      QuietProposal(cfg, s, e);
    }
  }

  lemma ProposalTable(cfg: Config, s: Pm, e: Event)
    requires Inv(s) && e.Proposal? && StepOk(cfg, s, e)
    ensures Step(cfg, s, e).qcVotes == s.qcVotes
  {
    hide StoreOk, HighOk, HighKnown, GoodPool, Grows, Lookup, Update, AcceptsProposal, MayVote, NewDraft, Placed, Below,
         OnReceiveProposal, Rounds.EnterRound;
    if e.epoch == s.epoch.epoch {
      if RecordsVote(s, e.proposal, e.qcValid, e.tcValid, e.accepted) {
        VotingStep(cfg, s, e);
      } else {
        QuietProposal(cfg, s, e);
      }
    }
  }

  lemma ProposalUpdate(env: Env, signed: Signatures, cfg: Config, s: Pm, e: Event)
    requires EnvOk(env) && ReplicaOk(env, signed, s)
    requires e.Proposal? && Truthful(env, signed, s, e) && StepOk(cfg, s, e) && Recorded(s, e).Some?
    ensures Backed(env, signed, Step(cfg, s, e).store.best.header)
  {
    hide Good, Tree, SingleChain, GoodPool, Lineage, Linked, Certified, Passes, MajorityTwoThird, MeetsWithin,
         UncommittedTxs, Backed, TableOk, Found, Lookup, LookupByQC, Update, Rounds.EnterRound;
    var m := e.proposal;
    ProposalDraft(s, m, e.qcValid, e.tcValid, e.accepted);
    var d := NewDraft(s, m);
    ParentDraft(s.store, d);
    CheckedIsCertified(env.n, signed, d.parent.value.block, m.block.qc);
    UpdateBacked(env, signed, cfg, Placed(s, d), m.block.qc, e.apply);
  }

  lemma VoteSound(env: Env, signed: Signatures, cfg: Config, s: Pm, e: Event)
    requires EnvOk(env) && ReplicaOk(env, signed, s) && e.Vote? && Truthful(env, signed, s, e)
    ensures ReplicaOk(env, signed, Step(cfg, s, e))
  {
    hide StoreOk, PoolOk, Backed, TableOk, Root, CastVerified, Lookup, Rounds.EnterRound, Matches, Good;
    StepKept(cfg, s, e);
    AddVoteOk(env, signed, s.qcVotes, QCKey(e.round, e.blockId), e.signer, e.sigOk);
  }

  lemma TimeoutSound(env: Env, signed: Signatures, cfg: Config, s: Pm, e: Event)
    requires EnvOk(env) && ReplicaOk(env, signed, s)
    requires e.Timeout? && Truthful(env, signed, s, e) && StepOk(cfg, s, e)
    ensures ReplicaOk(env, signed, Step(cfg, s, e))
  {
    hide StoreOk, PoolOk, Backed, TableOk, Root, CastVerified, Lookup, Matches, Good, TimeoutFirst, Grows, TimeoutSafe,
         Advances, LookupByQC;
    var s' := Step(cfg, s, e);
    StepKept(cfg, s, e);
    KeptGrows(s, e, s');
    RootGrows(env, s.store, s'.store);
    if e.epoch == s.epoch.epoch && Rounds.AmIRoundProposer(s.epoch.committee, cfg.me, e.timeout.wishRound) {
      TimeoutFirstBacked(env, signed, cfg, s, e);
    }
  }

  lemma KeptGrows(s: Pm, e: Event, s': Pm)
    requires Advances(s, e, s')
    ensures Inv(s') && Grows(s.store, s'.store)
  {
  }

  lemma TimeoutFirstBacked(env: Env, signed: Signatures, cfg: Config, s: Pm, e: Event)
    requires EnvOk(env) && ReplicaOk(env, signed, s)
    requires e.Timeout? && Truthful(env, signed, s, e) && TimeoutSafe(cfg, s, e.timeout, e.sigOk, e.apply)
    ensures var s1 := TimeoutFirst(cfg, s, e.timeout, e.sigOk, e.apply);
            Backed(env, signed, s1.store.best.header) && TableOk(env, signed, s1.qcVotes)
  {
    hide Good, Tree, SingleChain, GoodPool, Lineage, Linked, Grows, LookupByQC, Update, CastVerified, Backed, TableOk,
         Certified;
    var m := e.timeout;
    AddVoteOk(env, signed, s.qcVotes, QCKey(m.lastVote.round, m.lastVote.blockId), m.signer, e.sigOk);
    TimeoutFirstKeeps(cfg, s, m, e.sigOk, e.apply);
    var (s1, qc) := TimeoutVote(s, m, e.sigOk);
    if qc.Some? {
      assert CastVerified(s.qcVotes, QCKey(m.lastVote.round, m.lastVote.blockId), m.signer, e.sigOk).1.Some?;
      assert Certified(env.n, signed, m.lastVote.blockId);
      FoundForUpdate(s, qc.value);
      QCHighStaysKnown(s, WithNode(s, qc.value));
      UpdateBacked(env, signed, cfg, UpdateQCHigh(s1, WithNode(s1, qc.value)).(nextRef := s1.nextRef + 1), qc.value,
        e.apply);
    }
  }

  lemma OtherSound(env: Env, signed: Signatures, cfg: Config, s: Pm, e: Event)
    requires EnvOk(env) && ReplicaOk(env, signed, s) && (e.BeatAt? || e.RoundTimeout? || e.RegulateNow?)
    requires Truthful(env, signed, s, e) && StepOk(cfg, s, e)
    ensures ReplicaOk(env, signed, Step(cfg, s, e))
  {
    hide Inv, PoolOk, Backed, Root, LookupByQC, Rounds.EnterRound, Rounds.RegulateRounds, Rounds.Beat,
         Rounds.AcceptsBeat;
    StepKept(cfg, s, e);
    var s' := Step(cfg, s, e);
    assert s'.store == s.store;
    if e.RegulateNow? && e.next.Some? {
      assert s'.qcVotes == s.qcVotes || s'.qcVotes == NewTable(|e.next.value.committee| % U32);
    }
  }

  /** A checked certificate that escorts it backs a synced block. */
  lemma SyncedBacked(env: Env, signed: Signatures, blk: Block, qc: QuorumCert)
    requires blk.Number() >= 2 && Escorts(env.n, blk, qc) && Passes(env.n, signed, blk, qc)
    ensures Backed(env, signed, blk.header)
  {
    hide Passes, Certified, Lineage, Escorts;
    SyncCheckSoundExactlyWhen(env.n, blk, qc);
    assert Supports(env, signed, blk.ID(), blk.header);
  }

  lemma SyncedSound(env: Env, signed: Signatures, cfg: Config, s: Pm, e: Event)
    requires EnvOk(env) && ReplicaOk(env, signed, s) && e.Synced? && Truthful(env, signed, s, e) && StepOk(cfg, s, e)
    ensures ReplicaOk(env, signed, Step(cfg, s, e))
  {
    hide Tree, SingleChain, PoolOk, HighOk, HighKnown, Backed, Root, Grows, CommitBlock, TableOk, Lineage, Passes,
         Escorts;
    StepKept(cfg, s, e);
    if e.valid && e.recent && e.block.Number() >= 2 && Escorts(env.n, e.block, e.escortQC) {
      SyncedBacked(env, signed, e.block, e.escortQC);
    }
    CommitBlockExact(cfg, s, e.block, e.escortQC, e.apply);
    RootGrows(env, s.store, Step(cfg, s, e).store);
  }

  lemma StepIsSound(env: Env, signed: Signatures, r: nat, cfg: Config, s: Pm, e: Event)
    requires EnvOk(env) && SignedOk(env, signed) && ReplicaOk(env, signed, s)
    requires Truthful(env, signed, s, e) && StepOk(cfg, s, e)
    ensures StepSound(env, signed, r, s, e, Step(cfg, s, e))
  {
    hide ReplicaOk, SignedOk, Truthful, StepOk, Step, Inv, PoolOk;
    ReplicaInv(env, signed, s);
    if !e.Proposal? {
      assert signed + NewSignature(r, s, e) == signed;
    }
    match e
    case Proposal(_, _, _, _, _, _) => ProposalSound(env, signed, r, cfg, s, e);
    case Vote(_, _, _, _, _) => VoteSound(env, signed, cfg, s, e);
    case Timeout(_, _, _, _, _) => TimeoutSound(env, signed, cfg, s, e);
    case Synced(_, _, _, _, _) => SyncedSound(env, signed, cfg, s, e);
    case _ => OtherSound(env, signed, cfg, s, e);
  }

  lemma ReplicaInv(env: Env, signed: Signatures, s: Pm)
    requires ReplicaOk(env, signed, s)
    ensures Inv(s)
  {
  }

  // ---------------------------------------------------------------- whole runs

  ghost predicate WorldOk(env: Env, w: World) {
    && |w.replicas| == env.n
    && SignedOk(env, w.signed)
    && forall r | 0 <= r < env.n && r !in env.faulty :: ReplicaOk(env, w.signed, w.replicas[r])
  }

  lemma ReplicaLater(env: Env, signed: Signatures, later: Signatures, s: Pm)
    requires ReplicaOk(env, signed, s) && signed <= later
    ensures ReplicaOk(env, later, s)
  {
    hide Inv, Backed, TableOk;
    BackedLater(env, signed, later, s.store.best.header);
    TableLater(env, signed, later, s.qcVotes);
  }

  lemma WorldStepOk(env: Env, w: World, a: Action, w': World)
    requires EnvOk(env) && WorldOk(env, w) && WorldNext(env, w, a, w')
    ensures WorldOk(env, w') && w.signed <= w'.signed
  {
    hide ReplicaOk, SignedOk, Truthful, StepOk, Step, Inv, NewSignature, Justified;
    if a.Sign? {
      SignedLater(env, w.signed, a.i, a.id);
    } else {
      ReplicaInv(env, w.signed, w.replicas[a.r]);
      StepIsSound(env, w.signed, a.r, env.cfgs[a.r], w.replicas[a.r], a.e);
    }
    forall r | 0 <= r < env.n && r !in env.faulty ensures ReplicaOk(env, w'.signed, w'.replicas[r]) {
      if a.Sign? || r != a.r {
        ReplicaLater(env, w.signed, w'.signed, w.replicas[r]);
      }
    }
  }

  lemma WorldStartOk(env: Env, w: World, genesis: Block, escortQC: QuorumCert)
    requires WorldStart(env, w, genesis, escortQC)
    ensures WorldOk(env, w)
  {
    hide Inv;
    forall r | 0 <= r < env.n ensures ReplicaOk(env, w.signed, w.replicas[r]) {
      StartInv(env.cfgs[r], genesis, escortQC, w.replicas[r].epoch);
      assert Lineage(genesis.header) == [genesis.header];
    }
  }

  lemma {:induction false} WorldRunOk(env: Env, ws: seq<World>, actions: seq<Action>, genesis: Block,
                                      escortQC: QuorumCert, i: nat, j: nat)
    requires WorldRun(env, ws, actions) && WorldStart(env, ws[0], genesis, escortQC) && i <= j <= |actions|
    ensures WorldOk(env, ws[j]) && ws[i].signed <= ws[j].signed
    decreases j
  {
    hide WorldOk, WorldNext;
    if j == 0 {
      WorldStartOk(env, ws[0], genesis, escortQC);
    } else {
      WorldRunOk(env, ws, actions, genesis, escortQC, if i < j then i else j - 1, j - 1);
      assert WorldNext(env, ws[j - 1], actions[j - 1], ws[j]);
      WorldStepOk(env, ws[j - 1], actions[j - 1], ws[j]);
    }
  }

  /** Agreement.  In any run in which no correct member signs two blocks of one height, no two certificates of one
      height certify different blocks, and the chains that any two correct replicas have committed, at any two moments,
      are one a prefix of the other. */
  lemma CommittedChainsAgree(env: Env, ws: seq<World>, actions: seq<Action>, genesis: Block, escortQC: QuorumCert,
                             i: nat, r: nat, j: nat, q: nat)
    requires WorldRun(env, ws, actions) && WorldStart(env, ws[0], genesis, escortQC)
    requires OneVotePerHeight(env, ws[|actions|].signed)
    requires i <= |actions| && j <= |actions| && r < env.n && q < env.n && r !in env.faulty && q !in env.faulty
    ensures |ws[i].replicas| == env.n && |ws[j].replicas| == env.n
    ensures Comparable(Lineage(ws[i].replicas[r].store.best.header), Lineage(ws[j].replicas[q].store.best.header))
    ensures forall a, b | Certified(env.n, ws[|actions|].signed, a) && Certified(env.n, ws[|actions|].signed, b)
            && a.number == b.number :: a == b
  {
    hide ReplicaOk, SignedOk, Lineage, Certified, OneVotePerHeight, WorldNext;
    var last := ws[|actions|].signed;
    WorldRunOk(env, ws, actions, genesis, escortQC, i, i);
    WorldRunOk(env, ws, actions, genesis, escortQC, j, j);
    WorldRunOk(env, ws, actions, genesis, escortQC, i, |actions|);
    WorldRunOk(env, ws, actions, genesis, escortQC, j, |actions|);
    var s, t := ws[i].replicas[r], ws[j].replicas[q];
    ReplicaLater(env, ws[i].signed, last, s);
    ReplicaLater(env, ws[j].signed, last, t);
    ReplicaBacked(env, last, s);
    ReplicaBacked(env, last, t);
    BackedComparable(env, last, s.store.best.header, t.store.best.header);
    forall a, b | Certified(env.n, last, a) && Certified(env.n, last, b) && a.number == b.number ensures a == b {
      NoConflictingCertificates(env, last, a, b);
    }
  }

  lemma ReplicaBacked(env: Env, signed: Signatures, s: Pm)
    requires ReplicaOk(env, signed, s)
    ensures Backed(env, signed, s.store.best.header) && Root(s.store.best.header) == env.genesis
  {
  }
}
