/** The vote managers as objects (consensus/qc_vote_manager.go, consensus/tc_vote_manager.go). */
module VoteManagers {
  import opened Blocks
  import opened Quorum
  import opened Votes
  import opened BitArrays

  /** One manager for both kinds of key; V is what a vote carries (signature and hash). */
  class VoteManager<K(==), V> {
    var votes: map<K, map<nat, V>>
    var sealed: set<K>
    const committeeSize: Uint32

    ghost function State(): Table<K, V>
      reads this
    {
      Table(votes, sealed, committeeSize)
    }

    /** Every recorded signer is a committee index. */
    ghost predicate Valid()
      reads this
    {
      && (forall k, i | k in votes && i in votes[k] :: i < committeeSize)
      && forall k | k in sealed :: k in votes
    }

    constructor (committeeSize: Uint32)
      ensures State() == NewTable(committeeSize) && Valid()
    {
      votes := map[];
      sealed := {};
      this.committeeSize := committeeSize;
    }

    /** Records a vote.  When it completes a certificate, the bits of that certificate are exactly the distinct signers,
        and their count passes the two-thirds check of a receiver. */
    method AddVote(key: K, signer: nat, payload: V, sigOk: bool) returns (cert: BitArray?)
      requires Valid() && signer < committeeSize
      modifies this
      ensures Valid()
      ensures var (t, c) := Votes.AddVote(old(State()), key, signer, payload, sigOk);
              && State() == t
              && (cert != null <==> c.Some?)
              && (cert != null ==>
                  && fresh(cert) && cert.Valid() && cert.bits == committeeSize
                  && TrueAt(cert.Value()) == c.value.Keys
                  && MajorityTwoThird(CountTrue(cert.Value()), committeeSize))
    {
      if key !in votes {
        votes := votes[key := map[]];
      }
      if key in sealed || !sigOk {
        return null;
      }
      var cast: map<nat, V> := votes[key][signer := payload];
      votes := votes[key := cast];
      if MajorityTwoThird(|votes[key]|, committeeSize) {
        sealed := sealed + {key};
        cert := Aggregate(key);
        KeysCount(cast);
        CountIsCardinality(cert.Value());
        return cert;
      }
      return null;
    }

    /** The bit array of a key's signers. */
    method Aggregate(key: K) returns (bitArray: BitArray)
      requires Valid() && key in votes
      ensures fresh(bitArray) && bitArray.Valid() && bitArray.bits == committeeSize
      ensures TrueAt(bitArray.Value()) == votes[key].Keys
    {
      bitArray := BitsOf(votes[key].Keys, committeeSize);
    }

    /** Forgets the stale keys, votes and seals. */
    method CleanUpTo(stale: K -> bool)
      requires Valid()
      modifies this
      ensures Valid() && State() == CleanUp(old(State()), stale)
    {
      var rest := votes.Keys;
      ghost var before := State();
      while rest != {}
        invariant rest <= before.votes.Keys && Valid()
        invariant votes == map k | k in before.votes && (k in rest || !stale(k)) :: before.votes[k]
        invariant sealed == set k | k in before.sealed && !(k in before.votes && k !in rest && stale(k))
        decreases rest
      {
        var key :| key in rest;
        if stale(key) {
          votes := votes - {key};
          sealed := sealed - {key};
        }
        rest := rest - {key};
      }
    }
  }

  /** The bits that are set are exactly those of the members. */
  ghost predicate SetBits(bits: seq<bool>, members: set<nat>) {
    forall i: nat | i < |bits| :: bits[i] == (i in members)
  }

  lemma NoBits(bits: seq<bool>)
    requires forall i | 0 <= i < |bits| :: !bits[i]
    ensures SetBits(bits, {})
  {
  }

  lemma SetBitsAreTrue(bits: seq<bool>, members: set<nat>)
    requires SetBits(bits, members) && forall i | i in members :: i < |bits|
    ensures TrueAt(bits) == members
  {
  }

  lemma BitAdded(bits: seq<bool>, members: set<nat>, index: nat)
    requires SetBits(bits, members) && index < |bits|
    ensures SetBits(bits[index := true], members + {index})
  {
  }

  /** A new bit array with exactly the bits of the members set. */
  method BitsOf(members: set<nat>, size: Uint32) returns (bitArray: BitArray)
    requires forall i | i in members :: i < size
    ensures fresh(bitArray) && bitArray.Valid() && bitArray.bits == size
    ensures TrueAt(bitArray.Value()) == members
  {
    hide View, SetBits, TrueAt;
    bitArray := new BitArray(size);
    NoBits(bitArray.Value());
    var rest := members;
    ghost var done: set<nat> := {};
    while rest != {}
      invariant done + rest == members
      invariant fresh(bitArray) && fresh(bitArray.elems) && bitArray.Valid() && bitArray.bits == size
      invariant SetBits(bitArray.Value(), done)
      decreases rest
    {
      var index :| index in rest;
      BitAdded(bitArray.Value(), done, index);
      var _ := bitArray.SetIndex(index, true);
      rest, done := rest - {index}, done + {index};
    }
    SetBitsAreTrue(bitArray.Value(), members);
  }

  /** QCVoteManager.CleanUpTo: exactly the votes and seals for blocks of this number and above stay. */
  method CleanUpQCVotes<V>(m: VoteManager<QCKey, V>, blockNum: Uint32)
    requires m.Valid()
    modifies m
    ensures m.Valid()
    ensures forall k :: k in m.votes <==> k in old(m.votes) && k.blockId.number >= blockNum
    ensures forall k | k in m.votes :: m.votes[k] == old(m.votes)[k]
    ensures forall k :: k in m.sealed <==> k in old(m.sealed) && k.blockId.number >= blockNum
  {
    m.CleanUpTo(k => StaleQC(blockNum, k));
  }

  /** TCVoteManager.CleanUpTo: exactly the votes and seals of this epoch and later ones stay. */
  method CleanUpTCVotes<V>(m: VoteManager<TCKey, V>, epoch: nat)
    requires m.Valid()
    modifies m
    ensures m.Valid()
    ensures forall k :: k in m.votes <==> k in old(m.votes) && k.epoch >= epoch
    ensures forall k | k in m.votes :: m.votes[k] == old(m.votes)[k]
    ensures forall k :: k in m.sealed <==> k in old(m.sealed) && k.epoch >= epoch
  {
    m.CleanUpTo(k => StaleTC(epoch, k));
  }
}
