/** The two-thirds rule (block/block.go) and what it gives: two quorums share a correct member. */
module Quorum {
  import opened Blocks

  function Ceil(x: real): int {
    -((-x).Floor)
  }

  /** At least ceil(2n/3) voters, and never for an empty committee. */
  predicate MajorityTwoThird(voterNum: nat, committeeSize: nat) {
    if committeeSize < 1 then false
    else
      var twoThirds := Ceil(committeeSize as real * 2.0 / 3.0);
      voterNum >= twoThirds
  }

  /** The rule in integers: three times the voters reach twice the committee. */
  lemma MajorityInIntegers(voterNum: nat, committeeSize: nat)
    ensures MajorityTwoThird(voterNum, committeeSize) <==> committeeSize >= 1 && 3 * voterNum >= 2 * committeeSize
    ensures MajorityTwoThird(voterNum, committeeSize) <==> committeeSize >= 1 && voterNum >= (2 * committeeSize + 2) / 3
  {
    var x := committeeSize as real * 2.0 / 3.0;
    var c := Ceil(x);
    assert c as real >= x > (c - 1) as real;
    assert 3.0 * c as real >= 2.0 * committeeSize as real > 3.0 * (c - 1) as real;
    assert 3 * c >= 2 * committeeSize > 3 * (c - 1);
  }

  /** The member indices 0..n-1. */
  ghost function Members(n: nat): (r: set<nat>)
    ensures |r| == n && forall i: nat :: i in r <==> i < n
  {
    if n == 0 then {} else Members(n - 1) + {n - 1}
  }

  /** With fewer than a third of the members faulty, any two quorums share a correct member. */
  lemma QuorumsShareCorrectMember(n: nat, a: set<nat>, b: set<nat>, faulty: set<nat>) returns (i: nat)
    requires a <= Members(n) && b <= Members(n)
    requires MajorityTwoThird(|a|, n) && MajorityTwoThird(|b|, n)
    requires 3 * |faulty| < n
    ensures i in a && i in b && i !in faulty
  {
    MajorityInIntegers(|a|, n);
    MajorityInIntegers(|b|, n);
    Inclusion(a + b, Members(n));
    assert |a + b| == |a| + |b| - |a * b|;
    if a * b <= faulty {
      Inclusion(a * b, faulty);
      assert false;
    }
    i :| i in a * b && i !in faulty;
  }

  lemma Inclusion<T>(a: set<T>, b: set<T>)
    requires a <= b
    ensures |a| <= |b|
  {
    assert b == a + (b - a);
  }

  /** The checks of VerifyQC: a certificate for block 0 or 1 that names the block passes unchecked, any other
      needs a two-thirds vote count and a valid aggregate signature. */
  predicate VerifyQC(b: Block, escortQC: QuorumCert, committeeSize: nat, aggregateValid: bool) {
    if b.ID() == escortQC.blockId && (b.Number() == 0 || b.Number() == 1) then true
    else if !MajorityTwoThird(|escortQC.signers|, committeeSize) then false
    else aggregateValid
  }
}
