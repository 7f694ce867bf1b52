/** Block ids, headers, certificates and blocks (block/header.go, block/block.go, block/quorum_cert.go).

    The 256-bit hash is modelled symbolically: a digest carries the header it was computed from, so two
    headers with one id are equal and an id determines its whole ancestry.  The number that overwrites the
    first four bytes of an id is explicit, with the 32-bit wrap-around of the source. */
module Blocks {

  datatype Option<+T> = None | Some(value: T)

  datatype Result<+T, +E> = Ok(value: T) | Err(error: E)

  const U32: nat := 0x1_0000_0000

  type Uint32 = n: nat | n < 0x1_0000_0000

  type Hash = nat

  /** A 32-byte id: either bytes that are no header's digest (the zero id, the parent id of genesis)
      or a header's digest.  `number` is what the first four bytes decode to. */
  datatype Id =
    | Opaque(number: Uint32, tail: nat)
    | Digest(number: Uint32, header: Header)

  const ZERO_ID: Id := Opaque(0, 0)

  /** The hashed fields.  AppHash is left out: it is not covered by the id. */
  datatype Header = Header(
    parentId: Id,
    timestamp: nat,
    proposerIndex: nat,
    txsRoot: Hash,
    lastKBlock: Uint32,
    nonce: nat,
    qcHash: Hash,
    validatorsHash: Hash,
    nextValidatorsHash: Hash)
  {
    /** The number is inferred from the parent id, in 32-bit arithmetic. */
    function Number(): Uint32 {
      if parentId == ZERO_ID then 0 else (parentId.number + 1) % U32
    }

    function ID(): Id {
      Digest(Number(), this)
    }

    predicate IsKBlock() {
      validatorsHash != nextValidatorsHash
    }
  }

  /** A quorum certificate; the bit array is the set of signer indices. */
  datatype QuorumCert = QuorumCert(epoch: nat, round: Uint32, blockId: Id, signers: set<nat>)
  {
    function Number(): Uint32 {
      blockId.number
    }
  }

  type Tx = nat

  datatype Block = Block(header: Header, txs: seq<Tx>, qc: QuorumCert)
  {
    function ID(): Id {
      header.ID()
    }

    function Number(): Uint32 {
      header.Number()
    }

    predicate IsKBlock() {
      header.IsKBlock()
    }
  }

  /** All ancestors of a header, oldest first, ending with the header itself. */
  ghost function Lineage(h: Header): (r: seq<Header>)
    ensures |r| > 0 && r[|r| - 1] == h
  {
    (if h.parentId.Digest? then Lineage(h.parentId.header) else []) + [h]
  }

  /** The header sits on a chain whose parent ids are genuine ids, whose root has number 0 and whose
      numbers did not wrap. */
  ghost predicate Linked(h: Header) {
    if h.parentId.Digest? then
      && h.parentId == h.parentId.header.ID()
      && h.parentId.number + 1 < U32
      && Linked(h.parentId.header)
    else
      h.Number() == 0
  }

  ghost function Root(h: Header): Header {
    Lineage(h)[0]
  }

  /** `h` is `a` or a descendant of `a`. */
  ghost predicate Extends(h: Header, a: Header) {
    Lineage(a) <= Lineage(h)
  }

  ghost predicate Comparable<T(!new)>(a: seq<T>, b: seq<T>) {
    a <= b || b <= a
  }

  lemma {:induction false} LinkedNumber(h: Header)
    requires Linked(h)
    ensures |Lineage(h)| == h.Number() + 1
  {
    if h.parentId.Digest? {
      LinkedNumber(h.parentId.header);
    }
  }

  /** The entry at height k of a lineage has number k, is linked, and its own lineage is the prefix ending there. */
  lemma {:induction false} LineageAt(h: Header, k: nat)
    requires Linked(h) && k <= h.Number()
    ensures |Lineage(h)| == h.Number() + 1
    ensures Lineage(h)[k].Number() == k
    ensures Linked(Lineage(h)[k])
    ensures Lineage(Lineage(h)[k]) == Lineage(h)[..k + 1]
  {
    LinkedNumber(h);
    if k < h.Number() {
      var p := h.parentId.header;
      LineageAt(p, k);
      assert Lineage(h) == Lineage(p) + [h];
      assert Lineage(h)[..k + 1] == Lineage(p)[..k + 1];
    } else {
      assert Lineage(h)[..k + 1] == Lineage(h);
    }
  }

  /** A member of a lineage sits at the height of its number. */
  lemma AncestorAtItsNumber(h: Header, a: Header)
    requires Linked(h) && a in Lineage(h)
    ensures |Lineage(h)| == h.Number() + 1
    ensures Linked(a) && a.Number() <= h.Number()
    ensures Lineage(h)[a.Number()] == a
    ensures Lineage(a) == Lineage(h)[..a.Number() + 1]
    ensures Extends(h, a)
  {
    LinkedNumber(h);
    var k :| 0 <= k < |Lineage(h)| && Lineage(h)[k] == a;
    LineageAt(h, k);
  }

  lemma ExtendsMeansMember(h: Header, a: Header)
    requires Linked(h)
    ensures Extends(h, a) <==> a in Lineage(h)
  {
    if Extends(h, a) {
      assert Lineage(h)[|Lineage(a)| - 1] == a;
    }
    if a in Lineage(h) {
      AncestorAtItsNumber(h, a);
    }
  }

  lemma ChildLineage(h: Header)
    requires h.parentId.Digest?
    ensures Lineage(h) == Lineage(h.parentId.header) + [h]
    ensures Root(h) == Root(h.parentId.header)
  {
  }

  /** Neighbours in a lineage are parent and child. */
  lemma {:induction false} ParentInLineage(h: Header, k: nat)
    requires Linked(h) && 0 < k < |Lineage(h)|
    ensures Lineage(h)[k].parentId == Lineage(h)[k - 1].ID()
  {
    LinkedNumber(h);
    ChildLineage(h);
    if k < |Lineage(h)| - 1 {
      ParentInLineage(h.parentId.header, k);
    }
  }

  lemma ExtendsTransitive(a: Header, b: Header, c: Header)
    requires Extends(a, b) && Extends(b, c)
    ensures Extends(a, c)
  {
  }

  /** Two ancestors of one header lie on one line. */
  lemma PrefixesComparable<T(!new)>(a: seq<T>, b: seq<T>, c: seq<T>)
    requires a <= c && b <= c
    ensures Comparable(a, b)
  {
    if |a| <= |b| {
      assert a == c[..|a|];
      assert b == c[..|b|];
      assert a == b[..|a|];
    } else {
      assert a == c[..|a|];
      assert b == c[..|b|];
      assert b == a[..|b|];
    }
  }
}
