/** 64-bit words seen bit by bit, as the bit array (libs/common/bit_array.go) uses them. */
module Words {

  type Word = bv64

  /** A bit position inside a word. */
  type Pos = bv6

  // ---------------------------------------------------------------- word-wise operations

  function And(a: Word, b: Word): Word {
    a & b
  }

  function Or(a: Word, b: Word): Word {
    a | b
  }

  function Not(a: Word): Word {
    !a
  }

  predicate OneBit(m: Word) {
    m != 0 && m & (m - 1) == 0
  }

  lemma AndOverAnd(a: Word, b: Word, m: Word)
    ensures And(And(a, b), m) == And(And(a, m), And(b, m))
  {
  }

  lemma NoneOfFirst(a: Word, b: Word, m: Word)
    requires And(Or(a, b), m) == 0
    ensures And(a, m) == 0
  {
  }

  lemma NoneOfSecond(a: Word, b: Word, m: Word)
    requires And(Or(a, b), m) == 0
    ensures And(b, m) == 0
  {
  }

  lemma NoneOfBoth(a: Word, b: Word, m: Word)
    requires And(a, m) == 0 && And(b, m) == 0
    ensures And(Or(a, b), m) == 0
  {
  }

  lemma AndOfOr(a: Word, b: Word, m: Word)
    ensures And(Or(a, b), m) == 0 <==> And(a, m) == 0 && And(b, m) == 0
  {
    hide And, Or;
    if And(Or(a, b), m) == 0 {
      NoneOfFirst(a, b, m);
      NoneOfSecond(a, b, m);
    } else if And(a, m) == 0 && And(b, m) == 0 {
      NoneOfBoth(a, b, m);
    }
  }

  lemma NoneThenAllFlipped(a: Word, m: Word)
    requires And(a, m) == 0
    ensures And(Not(a), m) == m
  {
  }

  lemma AllThenNoneFlipped(a: Word, m: Word)
    requires And(a, m) == m
    ensures And(Not(a), m) == 0
  {
  }

  lemma AndSelf(m: Word)
    ensures And(m, m) == m && And(0, m) == 0 && And(m, 0) == 0 && And(0, 0) == 0
  {
  }

  lemma OneBitKept(a: Word, m: Word)
    requires OneBit(m)
    ensures And(a, m) == 0 || And(a, m) == m
  {
  }

  lemma OneBitFlipped(a: Word, m: Word)
    requires OneBit(m)
    ensures And(Not(a), m) == 0 <==> And(a, m) != 0
  {
    hide And, Not, OneBit;
    OneBitNonZero(m);
    OneBitKept(a, m);
    if And(a, m) == 0 {
      NoneThenAllFlipped(a, m);
    } else {
      AllThenNoneFlipped(a, m);
    }
  }

  lemma OneBitNonZero(m: Word)
    requires OneBit(m)
    ensures m != 0
  {
  }

  lemma DisjointOr(w: Word, m: Word, n: Word)
    requires And(m, n) == 0
    ensures And(Or(w, m), n) == And(w, n)
  {
  }

  lemma DisjointAndNot(w: Word, m: Word, n: Word)
    requires And(m, n) == 0
    ensures And(And(w, Not(m)), n) == And(w, n)
  {
  }

  lemma SameOr(w: Word, m: Word)
    ensures And(Or(w, m), m) == m && And(And(w, Not(m)), m) == 0
  {
  }

  // ---------------------------------------------------------------- one position

  function Mask(x: Pos): Word {
    (1 as Word) << x
  }

  lemma MaskOneBit(x: Pos)
    ensures OneBit(Mask(x))
  {
  }

  lemma MasksDisjoint(x: Pos, y: Pos)
    requires x != y
    ensures And(Mask(x), Mask(y)) == 0
  {
  }

  predicate Test(w: Word, x: Pos) {
    And(w, Mask(x)) != 0
  }

  function Set(w: Word, x: Pos): Word {
    Or(w, Mask(x))
  }

  function Clear(w: Word, x: Pos): Word {
    And(w, Not(Mask(x)))
  }

  lemma TestAnd(a: Word, b: Word, x: Pos)
    ensures Test(And(a, b), x) == (Test(a, x) && Test(b, x))
  {
    hide And, Mask, OneBit;
    var m := Mask(x);
    MaskOneBit(x);
    OneBitNonZero(m);
    AndOverAnd(a, b, m);
    OneBitKept(a, m);
    OneBitKept(b, m);
    AndSelf(m);
  }

  lemma TestOr(a: Word, b: Word, x: Pos)
    ensures Test(Or(a, b), x) == (Test(a, x) || Test(b, x))
  {
    hide And, Or, Mask;
    AndOfOr(a, b, Mask(x));
  }

  lemma TestNot(a: Word, x: Pos)
    ensures Test(Not(a), x) == !Test(a, x)
  {
    hide And, Not, Mask, OneBit;
    MaskOneBit(x);
    OneBitFlipped(a, Mask(x));
  }

  lemma TestSet(w: Word, x: Pos, y: Pos)
    ensures Test(Set(w, x), y) == (x == y || Test(w, y))
    ensures Test(Clear(w, x), y) == (x != y && Test(w, y))
  {
    hide And, Or, Not, Mask, OneBit;
    if x == y {
      MaskOneBit(x);
      OneBitNonZero(Mask(x));
      SameOr(w, Mask(x));
    } else {
      MasksDisjoint(x, y);
      DisjointOr(w, Mask(x), Mask(y));
      DisjointAndNot(w, Mask(x), Mask(y));
    }
  }

  lemma TestZero(x: Pos)
    ensures !Test(0, x)
  {
    hide Mask;
  }

  // ---------------------------------------------------------------- numbers as positions

  lemma PosRoundTrip(i: nat)
    requires i < 64
    ensures (i as Pos) as nat == i
  {
  }

  lemma PosOfNat(x: Pos)
    ensures (x as nat) as Pos == x
  {
  }

  lemma PosSuccNat(x: Pos)
    requires x < 63
    ensures (x + 1) as nat == x as nat + 1
  {
  }

  lemma PosBelow(i: nat)
    requires i < 63
    ensures (i as Pos) < 63
  {
    PosRoundTrip(i);
  }

  lemma PosSucc(i: nat)
    requires i < 63
    ensures (i + 1) as Pos == (i as Pos) + 1
  {
    PosBelow(i);
    PosRoundTrip(i);
    PosSuccNat(i as Pos);
    PosOfNat((i as Pos) + 1);
  }

  lemma PosDistinct(i: nat, j: nat)
    requires i < 64 && j < 64 && i != j
    ensures i as Pos != j as Pos
  {
    PosRoundTrip(i);
    PosRoundTrip(j);
  }

  function At(i: nat): Pos
    requires i < 64
  {
    i as Pos
  }

  /** The test getIndex makes inside a word. */
  predicate Bit(w: Word, i: nat)
    requires i < 64
  {
    Test(w, At(i))
  }

  /** Setting or clearing one bit changes that bit and no other. */
  lemma SetBit(w: Word, i: nat, j: nat)
    requires i < 64 && j < 64
    ensures Bit(Set(w, At(i)), j) == (i == j || Bit(w, j))
    ensures Bit(Clear(w, At(i)), j) == (i != j && Bit(w, j))
  {
    hide Test, Set, Clear;
    if i != j {
      PosDistinct(i, j);
    }
    TestSet(w, At(i), At(j));
  }

  // ---------------------------------------------------------------- runs of low bits

  /** The word whose lowest x bits are set. */
  function Low(x: Pos): Word {
    Mask(x) - 1
  }

  /** The lowest x bits of w are set. */
  predicate LowSet(w: Word, x: Pos) {
    And(w, Low(x)) == Low(x)
  }

  lemma LowNext(x: Pos)
    requires x < 63
    ensures Low(x + 1) == Or(Low(x), Mask(x))
  {
  }

  /** All bits of l are in w exactly when none is in its complement. */
  lemma Included(w: Word, l: Word)
    ensures And(w, l) == l <==> And(l, Not(w)) == 0
  {
    hide And, Not;
    if And(w, l) == l {
      IncludedForward(w, l);
    } else if And(l, Not(w)) == 0 {
      IncludedBackward(w, l);
    }
  }

  lemma IncludedForward(w: Word, l: Word)
    requires And(w, l) == l
    ensures And(l, Not(w)) == 0
  {
  }

  lemma IncludedBackward(w: Word, l: Word)
    requires And(l, Not(w)) == 0
    ensures And(w, l) == l
  {
  }

  lemma IncludedOr(w: Word, l: Word, m: Word)
    ensures And(w, Or(l, m)) == Or(l, m) <==> And(w, l) == l && And(w, m) == m
  {
    hide And, Or, Not;
    Included(w, Or(l, m));
    Included(w, l);
    Included(w, m);
    AndOfOr(l, m, Not(w));
  }

  lemma LowSetNext(w: Word, x: Pos)
    requires x < 63
    ensures LowSet(w, x + 1) <==> LowSet(w, x) && Test(w, x)
  {
    hide And, Or, Low, Mask, OneBit;
    LowNext(x);
    IncludedOr(w, Low(x), Mask(x));
    MaskOneBit(x);
    OneBitNonZero(Mask(x));
    OneBitKept(w, Mask(x));
  }

  lemma LowSetNone(w: Word)
    ensures LowSet(w, 0)
  {
  }

  lemma AllSet(w: Word)
    ensures Not(w) == 0 <==> LowSet(w, 63) && Test(w, 63)
  {
  }

  /** The test of IsFull on the last word: (w + 1) & ((1 << k) - 1) == 0.  A shift by 64 gives 0. */
  predicate CarryClears(w: Word, k: nat)
    requires k <= 64
  {
    And(w + 1, (if k < 64 then Mask(At(k)) else 0) - 1) == 0
  }

  lemma CarryTest(w: Word, x: Pos)
    requires x as nat > 0
    ensures And(w + 1, Low(x)) == 0 <==> LowSet(w, x)
  {
  }

  lemma {:induction false} LowSetMeaning(w: Word, k: nat)
    requires k < 64
    ensures LowSet(w, At(k)) <==> forall i: nat | i < k :: Bit(w, i)
  {
    hide Test, LowSet, At;
    if k == 0 {
      FirstPos();
      LowSetNone(w);
    } else {
      LowSetMeaning(w, k - 1);
      AtSucc(k - 1);
      LowSetNext(w, At(k - 1));
      assert LowSet(w, At(k)) <==> LowSet(w, At(k - 1)) && Bit(w, k - 1);
    }
  }

  lemma AtSucc(k: nat)
    requires k < 63
    ensures At(k) < 63 && At(k + 1) == At(k) + 1
  {
    PosSucc(k);
    PosBelow(k);
  }

  lemma FirstPos()
    ensures At(0) == 0
  {
  }

  /** A word without a zero bit is one whose complement is 0. */
  lemma AllSetMeaning(w: Word)
    ensures Not(w) == 0 <==> forall i: nat | i < 64 :: Bit(w, i)
  {
    hide Test, LowSet, Not;
    AllSet(w);
    LowSetMeaning(w, 63);
    assert At(63) == 63;
    assert Bit(w, 63) == Test(w, 63);
  }

  lemma CarryClearsSome(w: Word, k: nat)
    requires 0 < k < 64
    ensures CarryClears(w, k) <==> LowSet(w, At(k))
  {
    hide LowSet, And, Mask;
    PosRoundTrip(k);
    CarryTest(w, At(k));
    assert Low(At(k)) == Mask(At(k)) - 1;
  }

  lemma CarryClearsAll(w: Word)
    ensures CarryClears(w, 64) <==> Not(w) == 0
  {
  }

  /** Adding one clears the lowest k bits exactly when they were all set, whatever lies above them. */
  lemma FullTest(w: Word, k: nat)
    requires 0 < k <= 64
    ensures CarryClears(w, k) <==> forall i: nat | i < k :: Bit(w, i)
  {
    hide Test, LowSet, CarryClears, At, Not;
    if k < 64 {
      CarryClearsSome(w, k);
      LowSetMeaning(w, k);
    } else {
      CarryClearsAll(w);
      AllSetMeaning(w);
    }
  }

  // ---------------------------------------------------------------- little-endian bytes

  /** Byte j of a word, least significant first (binary.LittleEndian.PutUint64). */
  function ByteAt(w: Word, j: bv3): bv8 {
    ((w >> ((j as Pos) << 3)) & 0xff) as bv8
  }

  function LittleEndian(w: Word): (r: seq<bv8>)
    ensures |r| == 8
  {
    seq(8, j requires 0 <= j < 8 => ByteAt(w, j as bv3))
  }

  predicate TestOctet(b: bv8, x: bv3) {
    b & ((1 as bv8) << x) != 0
  }

  predicate ByteBit(b: bv8, i: nat)
    requires i < 8
  {
    TestOctet(b, i as bv3)
  }

  function High(x: Pos): bv3 {
    (x >> 3) as bv3
  }

  function Lower(x: Pos): bv3 {
    (x & 7) as bv3
  }

  lemma TestByte(w: Word, x: Pos)
    ensures TestOctet(ByteAt(w, High(x)), Lower(x)) == Test(w, x)
  {
  }

  lemma PosParts(x: Pos)
    ensures High(x) as nat == x as nat / 8 && Lower(x) as nat == x as nat % 8
  {
  }

  lemma OctalRoundTrip(x: bv3)
    ensures (x as nat) as bv3 == x
  {
  }

  /** Bit i of a word is bit i % 8 of its byte i / 8. */
  lemma LittleEndianBit(w: Word, i: nat)
    requires i < 64
    ensures ByteBit(LittleEndian(w)[i / 8], i % 8) == Bit(w, i)
  {
    hide Test, TestOctet, ByteAt, High, Lower;
    PosRoundTrip(i);
    PosParts(At(i));
    OctalRoundTrip(High(At(i)));
    OctalRoundTrip(Lower(At(i)));
    TestByte(w, At(i));
  }
}
