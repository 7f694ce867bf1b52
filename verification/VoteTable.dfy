/** Vote collection with sealing (consensus/qc_vote_manager.go, consensus/tc_vote_manager.go).

    Both managers are the same table: quorum votes are keyed by (round, block id), timeout votes by (epoch, round). */
module Votes {
  import opened Blocks
  import opened Quorum

  datatype QCKey = QCKey(round: Uint32, blockId: Id)

  datatype TCKey = TCKey(epoch: nat, round: Uint32)

  /** Votes by key and signer index, with the payload each signer's vote carried, and the sealed keys. */
  datatype Table<K, V> = Table(votes: map<K, map<nat, V>>, sealed: set<K>, committeeSize: Uint32)

  function NewTable<K, V>(committeeSize: Uint32): Table<K, V> {
    Table(map[], {}, committeeSize)
  }

  /** AddVote: the votes of the certificate that this vote completes, if it completes one.
      `sigOk` says whether the signature bytes decode. */
  function AddVote<K, V>(t: Table<K, V>, key: K, signer: nat, payload: V, sigOk: bool): (Table<K, V>, Option<map<nat,
                         V>>) {
    var table := if key in t.votes then t else t.(votes := t.votes[key := map[]]);
    if key in table.sealed || !sigOk then (table, None)
    else
      var cast: map<nat, V> := table.votes[key][signer := payload];
      var voted := table.(votes := table.votes[key := cast]);
      if MajorityTwoThird(|cast|, t.committeeSize) then (voted.(sealed := voted.sealed + {key}), Some(cast))
      else (voted, None)
  }

  /** CleanUpTo: forgets the votes and seals of the stale keys. */
  function CleanUp<K, V>(t: Table<K, V>, stale: K -> bool): Table<K, V> {
    t.(votes := map k | k in t.votes && !stale(k) :: t.votes[k],
       sealed := set k | k in t.sealed && !(k in t.votes && stale(k)))
  }

  /** What the quorum-vote manager calls stale: votes for blocks below a number. */
  predicate StaleQC(blockNum: Uint32, k: QCKey) {
    k.blockId.number < blockNum
  }

  /** What the timeout-vote manager calls stale: votes of earlier epochs. */
  predicate StaleTC(epoch: nat, k: TCKey) {
    k.epoch < epoch
  }

  // ---------------------------------------------------------------- histories

  datatype Op<!K, V> =
    | Add(key: K, signer: nat, payload: V, sigOk: bool)
    | Clean(stale: K -> bool)

  function Apply<K, V>(t: Table<K, V>, op: Op<K, V>): (Table<K, V>, Option<map<nat, V>>) {
    match op
    case Add(key, signer, payload, sigOk) => AddVote(t, key, signer, payload, sigOk)
    case Clean(stale) => (CleanUp(t, stale), None)
  }

  /** The table after a history. */
  function After<K, V>(committeeSize: Uint32, ops: seq<Op<K, V>>): Table<K, V> {
    if ops == [] then NewTable(committeeSize)
    else Apply(After(committeeSize, ops[..|ops| - 1]), ops[|ops| - 1]).0
  }

  /** The certificate, if any, that operation i of a history returns. */
  function Returned<K(==), V>(committeeSize: Uint32, ops: seq<Op<K, V>>, i: nat): Option<map<nat, V>>
    requires i < |ops|
  {
    Apply(After(committeeSize, ops[..i]), ops[i]).1
  }

  /** Independent of any table: the distinct signers whose votes for the key arrived since its last clean-up. */
  ghost function Signers<K, V>(ops: seq<Op<K, V>>, k: K): set<nat> {
    if ops == [] then {}
    else
      var before, op := Signers(ops[..|ops| - 1], k), ops[|ops| - 1];
      match op
      case Add(key, signer, _, sigOk) => if key == k && sigOk then before + {signer} else before
      case Clean(stale) => if stale(k) then {} else before
  }

  /** An operation that adds a vote for the key. */
  ghost predicate VotesFor<K, V>(op: Op<K, V>, k: K) {
    op.Add? && op.key == k && op.sigOk
  }

  /** What the table holds for one key, against the history. */
  ghost predicate Agrees<K, V>(t: Table<K, V>, signers: set<nat>, k: K) {
    && (k in t.sealed ==> k in t.votes)
    && (k in t.sealed <==> MajorityTwoThird(|signers|, t.committeeSize))
    && (k !in t.sealed ==> (if k in t.votes then t.votes[k].Keys else {}) == signers)
  }

  lemma KeysCount<V>(m: map<nat, V>)
    ensures |m| == |m.Keys|
  {
  }

  /** One operation keeps the table in agreement with the history, and returns a certificate for the key exactly when
      it takes the distinct signers across two thirds; the certificate then holds exactly those signers. */
  lemma OneOperation<K, V>(t: Table<K, V>, signers: set<nat>, op: Op<K, V>, k: K)
    requires Agrees(t, signers, k)
    ensures var (t', cert) := Apply(t, op);
            var now := if VotesFor(op, k) then signers + {op.signer} else if op.Clean? && op.stale(k) then {}
              else signers;
            && Agrees(t', now, k) && t'.committeeSize == t.committeeSize
            && (op.Add? && op.key == k ==>
                && (cert.Some? <==>
                    MajorityTwoThird(|now|, t.committeeSize) && !MajorityTwoThird(|signers|, t.committeeSize))
                && (cert.Some? ==> cert.value.Keys == now))
  {
    hide MajorityTwoThird;
    MajorityInIntegers(0, t.committeeSize);
    if op.Add? {
      VoteStep(t, signers, op, k);
    }
  }

  lemma VoteStep<K, V>(t: Table<K, V>, signers: set<nat>, op: Op<K, V>, k: K)
    requires Agrees(t, signers, k) && op.Add?
    ensures var (t', cert) := Apply(t, op);
            var now := if VotesFor(op, k) then signers + {op.signer} else signers;
            && Agrees(t', now, k)
            && (op.key == k ==>
                && (cert.Some? <==>
                    MajorityTwoThird(|now|, t.committeeSize) && !MajorityTwoThird(|signers|, t.committeeSize))
                && (cert.Some? ==> cert.value.Keys == now))
  {
    hide MajorityTwoThird;
    if VotesFor(op, k) {
      var cast: map<nat, V> := (if k in t.votes then t.votes[k] else map[])[op.signer := op.payload];
      KeysCount(cast);
      assert k !in t.sealed ==> cast.Keys == signers + {op.signer};
      MajorityGrows(signers, op.signer, t.committeeSize);
    }
  }

  lemma MajorityGrows(s: set<nat>, i: nat, n: nat)
    ensures MajorityTwoThird(|s|, n) ==> MajorityTwoThird(|s + {i}|, n)
  {
    Inclusion(s, s + {i});
  }

  /** After any history, a key is sealed exactly when its distinct signers since the last clean-up reach two thirds;
      an unsealed key holds exactly those signers, hence fewer than two thirds. */
  lemma {:induction false} TableAgreesWithHistory<K, V>(committeeSize: Uint32, ops: seq<Op<K, V>>, k: K)
    ensures Agrees(After(committeeSize, ops), Signers(ops, k), k)
    ensures After(committeeSize, ops).committeeSize == committeeSize
  {
    if ops == [] {
      MajorityInIntegers(0, committeeSize);
    } else {
      var n := |ops| - 1;
      TableAgreesWithHistory(committeeSize, ops[..n], k);
      OneOperation(After(committeeSize, ops[..n]), Signers(ops[..n], k), ops[n], k);
    }
  }

  /** Operation i returns a certificate exactly when it is a vote that makes the distinct signers of its key reach
      ceil(2n/3) for the first time since the key's last clean-up; the certificate is exactly those signers, so it
      passes a receiver's count. */
  lemma CertificateExactlyAtTwoThirds<K, V>(committeeSize: Uint32, ops: seq<Op<K, V>>, i: nat)
    requires i < |ops| && ops[i].Add?
    ensures var before, now := Signers(ops[..i], ops[i].key), Signers(ops[..i + 1], ops[i].key);
            var cert := Returned(committeeSize, ops, i);
            && (cert.Some? <==> MajorityTwoThird(|now|, committeeSize) && !MajorityTwoThird(|before|, committeeSize))
            && (cert.Some? ==>
                && cert.value.Keys == now
                && MajorityTwoThird(|cert.value|, committeeSize)
                && ops[i].key in After(committeeSize, ops[..i + 1]).sealed)
  {
    var k := ops[i].key;
    assert ops[..i + 1][..i] == ops[..i];
    TableAgreesWithHistory(committeeSize, ops[..i], k);
    TableAgreesWithHistory(committeeSize, ops[..i + 1], k);
    OneOperation(After(committeeSize, ops[..i]), Signers(ops[..i], k), ops[i], k);
    if Returned(committeeSize, ops, i).Some? {
      KeysCount(Returned(committeeSize, ops, i).value);
    }
  }

  /** Independent of any table: what each signer's last vote for the key carried, since its last clean-up. */
  ghost function Payloads<K, V>(ops: seq<Op<K, V>>, k: K): map<nat, V> {
    if ops == [] then map[]
    else
      var before, op := Payloads(ops[..|ops| - 1], k), ops[|ops| - 1];
      match op
      case Add(key, signer, payload, sigOk) => if key == k && sigOk then before[signer := payload] else before
      case Clean(stale) => if stale(k) then map[] else before
  }

  /** After any history, an unsealed key holds for each signer what its last vote carried. */
  lemma {:induction false} TableHoldsLastVotes<K, V>(committeeSize: Uint32, ops: seq<Op<K, V>>, k: K)
    ensures var t := After(committeeSize, ops);
            k !in t.sealed ==> (if k in t.votes then t.votes[k] else map[]) == Payloads(ops, k)
  {
    if ops != [] {
      var n := |ops| - 1;
      hide MajorityTwoThird, After, Signers;
      TableHoldsLastVotes(committeeSize, ops[..n], k);
      TableAgreesWithHistory(committeeSize, ops[..n], k);
      AfterLast(committeeSize, ops);
      LastVoteStep(After(committeeSize, ops[..n]), ops[n], k);
    }
  }

  lemma AfterLast<K, V>(committeeSize: Uint32, ops: seq<Op<K, V>>)
    requires ops != []
    ensures After(committeeSize, ops) == Apply(After(committeeSize, ops[..|ops| - 1]), ops[|ops| - 1]).0
  {
  }

  /** What one operation does to the votes of an unsealed key. */
  lemma LastVoteStep<K, V>(t: Table<K, V>, op: Op<K, V>, k: K)
    requires k in t.sealed ==> k in t.votes
    ensures var t' := Apply(t, op).0;
            var before, now := if k in t.votes then t.votes[k] else map[], if k in t'.votes then t'.votes[k] else map[];
            && (k !in t'.sealed && k !in t.sealed ==>
                now == if VotesFor(op, k) then before[op.signer := op.payload]
                       else if op.Clean? && op.stale(k) then map[] else before)
            && (k !in t'.sealed && k in t.sealed ==> op.Clean? && op.stale(k) && now == map[])
  {
    hide MajorityTwoThird;
  }

  /** A certificate carries what each of its signers voted last. */
  lemma CertificateHoldsLastVotes<K, V>(committeeSize: Uint32, ops: seq<Op<K, V>>, i: nat)
    requires i < |ops| && ops[i].Add? && Returned(committeeSize, ops, i).Some?
    ensures Returned(committeeSize, ops, i).value == Payloads(ops[..i + 1], ops[i].key)
  {
    hide MajorityTwoThird;
    assert ops[..i + 1][..i] == ops[..i];
    TableHoldsLastVotes(committeeSize, ops[..i], ops[i].key);
  }

  /** Without a clean-up of the key, two thirds once reached stay reached. */
  lemma {:induction false} MajorityLasts<K, V>(committeeSize: Uint32, ops: seq<Op<K, V>>, i: nat, j: nat, k: K)
    requires i <= j <= |ops| && MajorityTwoThird(|Signers(ops[..i], k)|, committeeSize)
    requires forall c | i <= c < j :: !(ops[c].Clean? && ops[c].stale(k))
    ensures MajorityTwoThird(|Signers(ops[..j], k)|, committeeSize)
    decreases j
  {
    hide MajorityTwoThird;
    if i < j {
      MajorityLasts(committeeSize, ops, i, j - 1, k);
      SignersStep(ops, j - 1, k);
      if VotesFor(ops[j - 1], k) {
        MajorityGrows(Signers(ops[..j - 1], k), ops[j - 1].signer, committeeSize);
      }
    }
  }

  lemma SignersStep<K, V>(ops: seq<Op<K, V>>, i: nat, k: K)
    requires i < |ops| && !(ops[i].Clean? && ops[i].stale(k))
    ensures Signers(ops[..i + 1], k) == if VotesFor(ops[i], k) then Signers(ops[..i], k) + {ops[i].signer}
            else Signers(ops[..i], k)
  {
    assert ops[..i + 1][..i] == ops[..i];
  }

  /** Between two certificates for one key there is a clean-up of that key. */
  lemma OneCertificateBetweenCleanUps<K, V>(committeeSize: Uint32, ops: seq<Op<K, V>>, i: nat, j: nat)
    requires i < j < |ops| && ops[i].Add? && ops[j].Add? && ops[i].key == ops[j].key
    requires Returned(committeeSize, ops, i).Some? && Returned(committeeSize, ops, j).Some?
    ensures exists c | i < c < j :: ops[c].Clean? && ops[c].stale(ops[i].key)
  {
    hide MajorityTwoThird, Signers, Returned;
    CertificateExactlyAtTwoThirds(committeeSize, ops, i);
    CertificateExactlyAtTwoThirds(committeeSize, ops, j);
    if forall c | i < c < j :: !(ops[c].Clean? && ops[c].stale(ops[i].key)) {
      MajorityLasts(committeeSize, ops, i + 1, j, ops[i].key);
      assert false;
    }
  }
}
