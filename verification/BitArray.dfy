/** The word-packed bit array (libs/common/bit_array.go) refines a sequence of booleans. */
module BitArrays {
  import opened Blocks
  import opened Words

  /** Words enough for n bits. */
  function WordCount(n: nat): nat {
    (n + 63) / 64
  }

  /** Bit i of a packed array, stray bits of the last word included. */
  predicate Packed(words: seq<Word>, i: nat)
    requires i < 64 * |words|
  {
    Bit(words[i / 64], i % 64)
  }

  /** The booleans that n bits of packed words stand for. */
  ghost function View(words: seq<Word>, n: nat): (r: seq<bool>)
    requires n <= 64 * |words|
    ensures |r| == n && forall i: nat | i < n :: r[i] == Packed(words, i)
  {
    hide Bit;
    seq(n, i requires 0 <= i < n => Packed(words, i))
  }

  ghost function CountTrue(s: seq<bool>): nat {
    if s == [] then 0 else CountTrue(s[..|s| - 1]) + (if s[|s| - 1] then 1 else 0)
  }

  /** The positions that hold true. */
  ghost function TrueAt(s: seq<bool>): set<nat> {
    set i: nat | i < |s| && s[i]
  }

  /** The count is the number of true positions. */
  lemma {:induction false} CountIsCardinality(s: seq<bool>)
    ensures CountTrue(s) == |TrueAt(s)|
  {
    if s != [] {
      var n := |s| - 1;
      CountIsCardinality(s[..n]);
      if s[n] {
        assert TrueAt(s) == TrueAt(s[..n]) + {n};
      } else {
        assert TrueAt(s) == TrueAt(s[..n]);
      }
    }
  }

  // ---------------------------------------------------------------- word-wise operations are pointwise

  lemma ViewUpdate(words: seq<Word>, n: nat, i: nat)
    requires i < n <= 64 * |words|
    ensures View(words[i / 64 := Set(words[i / 64], At(i % 64))], n) == View(words, n)[i := true]
    ensures View(words[i / 64 := Clear(words[i / 64], At(i % 64))], n) == View(words, n)[i := false]
  {
    hide Bit, Set, Clear, At;
    var yes := words[i / 64 := Set(words[i / 64], At(i % 64))];
    var no := words[i / 64 := Clear(words[i / 64], At(i % 64))];
    forall j: nat | j < n
      ensures Packed(yes, j) == (i == j || Packed(words, j)) && Packed(no, j) == (i != j && Packed(words, j))
    {
      if i / 64 == j / 64 {
        SetBit(words[i / 64], i % 64, j % 64);
      }
    }
    assert View(yes, n) == View(words, n)[i := true];
    assert View(no, n) == View(words, n)[i := false];
  }

  lemma ViewOfZeros(words: seq<Word>, n: nat)
    requires n <= 64 * |words| && forall k | 0 <= k < |words| :: words[k] == 0
    ensures View(words, n) == seq(n, _ => false)
  {
    hide Test;
    forall i: nat | i < n ensures !Packed(words, i) {
      TestZero(At(i % 64));
    }
  }

  lemma BitAnd(a: Word, b: Word, i: nat)
    requires i < 64
    ensures Bit(And(a, b), i) == (Bit(a, i) && Bit(b, i))
  {
    hide Test, And, At;
    TestAnd(a, b, At(i));
  }

  lemma BitOr(a: Word, b: Word, i: nat)
    requires i < 64
    ensures Bit(Or(a, b), i) == (Bit(a, i) || Bit(b, i))
  {
    hide Test, Or, At;
    TestOr(a, b, At(i));
  }

  lemma BitNot(a: Word, i: nat)
    requires i < 64
    ensures Bit(Not(a), i) == !Bit(a, i)
  {
    hide Test, Not, At;
    TestNot(a, At(i));
  }

  lemma ViewAnd(a: seq<Word>, b: seq<Word>, c: seq<Word>, n: nat)
    requires n <= 64 * |c| && |c| <= |a| && |c| <= |b| && forall k | 0 <= k < |c| :: c[k] == And(a[k], b[k])
    ensures forall i: nat | i < n :: View(c, n)[i] == (View(a, n)[i] && View(b, n)[i])
  {
    hide Bit, And;
    forall i: nat | i < n ensures Packed(c, i) == (Packed(a, i) && Packed(b, i)) {
      BitAnd(a[i / 64], b[i / 64], i % 64);
    }
  }

  lemma ViewOr(a: seq<Word>, b: seq<Word>, c: seq<Word>, n: nat)
    requires n <= 64 * |c| && |c| <= |a| && |c| <= |b| && forall k | 0 <= k < |c| :: c[k] == Or(a[k], b[k])
    ensures forall i: nat | i < n :: View(c, n)[i] == (View(a, n)[i] || View(b, n)[i])
  {
    hide Bit, Or;
    forall i: nat | i < n ensures Packed(c, i) == (Packed(a, i) || Packed(b, i)) {
      BitOr(a[i / 64], b[i / 64], i % 64);
    }
  }

  lemma ViewNot(a: seq<Word>, c: seq<Word>, n: nat)
    requires n <= 64 * |c| && |c| == |a| && forall k | 0 <= k < |c| :: c[k] == Not(a[k])
    ensures forall i: nat | i < n :: View(c, n)[i] == !View(a, n)[i]
  {
    hide Bit, Not;
    forall i: nat | i < n ensures Packed(c, i) == !Packed(a, i) {
      BitNot(a[i / 64], i % 64);
    }
  }

  ghost predicate AllTrue(s: seq<bool>) {
    forall i | 0 <= i < |s| :: s[i]
  }

  /** Every word but the last is full. */
  ghost predicate FullWords(words: seq<Word>) {
    forall k | 0 <= k < |words| - 1 :: Not(words[k]) == 0
  }

  /** All n bits are set exactly when every word but the last is full and the last has its used bits set. */
  lemma ViewFull(words: seq<Word>, n: nat)
    requires n >= 1 && |words| == WordCount(n)
    ensures AllTrue(View(words, n)) <==> FullWords(words) && CarryClears(words[|words| - 1], (n + 63) % 64 + 1)
  {
    hide Bit, CarryClears, Not;
    var last, used := |words| - 1, (n + 63) % 64 + 1;
    assert n == 64 * last + used;
    FullTest(words[last], used);
    forall k | 0 <= k < last ensures Not(words[k]) == 0 <==> forall b: nat | b < 64 :: Bit(words[k], b) {
      AllSetMeaning(words[k]);
    }
    if AllTrue(View(words, n)) {
      forall k, b: nat | 0 <= k <= last && b < 64 && 64 * k + b < n ensures Bit(words[k], b) {
        assert View(words, n)[64 * k + b];
      }
    }
  }

  // ---------------------------------------------------------------- JSON form

  /** A quoted string of x for a set bit and _ for a clear one. */
  ghost function Json(bits: seq<bool>): (r: string)
    ensures |r| == |bits| + 2
  {
    "\"" + seq(|bits|, i requires 0 <= i < |bits| => if bits[i] then 'x' else '_') + "\""
  }

  /** The texts that UnmarshalJSON accepts besides null: \A"([_x]*)"\z. */
  predicate IsBitString(text: string) {
    && |text| >= 2 && text[0] == '"' && text[|text| - 1] == '"'
    && forall i | 1 <= i < |text| - 1 :: text[i] == '_' || text[i] == 'x'
  }

  ghost function FromJson(text: string): (r: seq<bool>)
    requires IsBitString(text)
    ensures |r| == |text| - 2
  {
    seq(|text| - 2, i requires 0 <= i < |text| - 2 => text[i + 1] == 'x')
  }

  /** Marshalling and unmarshalling undo each other, on all bits and on all accepted texts. */
  lemma JsonRoundTrip(bits: seq<bool>, text: string)
    ensures IsBitString(Json(bits)) && FromJson(Json(bits)) == bits
    ensures IsBitString(text) ==> Json(FromJson(text)) == text
  {
    assert Json(bits) != "null";
  }

  // ---------------------------------------------------------------- or

  /** What Or computes on packed words: stray bits of either last word included. */
  ghost function OrSpec(a: seq<Word>, b: seq<Word>, n: nat): (r: seq<bool>)
    requires n <= 64 * |b|
    ensures |r| == n
  {
    seq(n, i requires 0 <= i < n => (i < 64 * |a| && Packed(a, i)) || Packed(b, i))
  }

  /** What the documentation of Or promises: the shorter array is padded with clear bits. */
  ghost function PaddedOr(x: seq<bool>, y: seq<bool>): (r: seq<bool>)
    ensures |r| == if |x| >= |y| then |x| else |y|
  {
    seq(if |x| >= |y| then |x| else |y|, i => (0 <= i < |x| && x[i]) || (0 <= i < |y| && y[i]))
  }

  /** Or keeps its promise exactly when every stray bit of one array that the result covers is also set by the other. */
  lemma OrCorrectExactlyWhen(a: seq<Word>, na: nat, b: seq<Word>, nb: nat)
    requires |a| == WordCount(na) <= |b| == WordCount(nb)
    ensures var n := if na >= nb then na else nb;
            OrSpec(a, b, n) == PaddedOr(View(a, na), View(b, nb)) <==>
              && (forall i: nat | na <= i < n && i < 64 * |a| && Packed(a, i) :: Packed(b, i))
              && (forall i: nat | nb <= i < n && Packed(b, i) :: Packed(a, i))
  {
    hide Bit;
    var n := if na >= nb then na else nb;
    var spec, promise := OrSpec(a, b, n), PaddedOr(View(a, na), View(b, nb));
    forall i: nat | i < n
      ensures spec[i] == ((i < 64 * |a| && Packed(a, i)) || Packed(b, i))
      ensures promise[i] == ((i < na && Packed(a, i)) || (i < nb && Packed(b, i)))
    {
    }
    if spec == promise {
      forall i: nat | na <= i < n && i < 64 * |a| && Packed(a, i) ensures Packed(b, i) {
        assert spec[i] == promise[i];
      }
      forall i: nat | nb <= i < n && Packed(b, i) ensures Packed(a, i) {
        assert spec[i] == promise[i];
      }
    }
  }

  /** A concrete pair on which a stray bit shows: bit 1 is beyond the one bit of the first array. */
  lemma OrShowsStrayBit()
    ensures var a, b: seq<Word> := [Not(0)], [0];
            OrSpec(a, b, 2)[1] && !PaddedOr(View(a, 1), View(b, 2))[1]
  {
    hide Bit, Not;
    AllSetMeaning(Not(0));
    AllOnes();
    ZeroBit(1);
  }

  lemma AllOnes()
    ensures Not(Not(0)) == 0
  {
  }

  lemma OrOfPadded(a: seq<Word>, padded: seq<Word>, b: seq<Word>, c: seq<Word>, n: nat)
    requires n <= 64 * |c| && |c| == |padded| <= |b| && n <= 64 * |padded|
    requires forall k | 0 <= k < |padded| :: padded[k] == if k < |a| then a[k] else 0
    requires forall i: nat | i < n :: View(c, n)[i] == (View(padded, n)[i] || View(b, n)[i])
    ensures View(c, n) == OrSpec(a, b, n)
  {
    hide Bit;
    forall i: nat | i < n ensures Packed(padded, i) == (i < 64 * |a| && Packed(a, i)) {
      if i >= 64 * |a| {
        ZeroBit(i % 64);
      }
    }
  }

  // ---------------------------------------------------------------- subtraction

  /** What the documentation of Sub promises: bits of a that are not in b, with b padded by clear bits. */
  ghost function Difference(a: seq<bool>, b: seq<bool>): (r: seq<bool>)
    ensures |r| == |a|
  {
    seq(|a|, i requires 0 <= i < |a| => a[i] && !(i < |b| && b[i]))
  }

  /** What Sub computes.  For a longer receiver it clears every word below b's last one. */
  ghost function SubSpec(a: seq<bool>, b: seq<bool>): (r: seq<bool>)
    ensures |r| == |a|
  {
    if |a| <= |b| then Difference(a, b)
    else
      var last := 64 * (WordCount(|b|) - 1);
      seq(|a|, i requires 0 <= i < |a| => i >= last && a[i] && !(i < |b| && b[i]))
  }

  /** Sub keeps its promise exactly when the receiver is no longer, or every bit it has below b's last word is in b. */
  lemma SubCorrectExactlyWhen(a: seq<bool>, b: seq<bool>)
    ensures SubSpec(a, b) == Difference(a, b) <==>
              |a| <= |b| || forall i | 0 <= i < 64 * (WordCount(|b|) - 1) && a[i] :: b[i]
  {
    if |a| > |b| {
      var last := 64 * (WordCount(|b|) - 1);
      if SubSpec(a, b) == Difference(a, b) {
        forall i | 0 <= i < last && a[i] ensures b[i] {
          assert SubSpec(a, b)[i] == Difference(a, b)[i];
        }
      }
    }
  }

  /** A concrete pair on which Sub drops a bit: bit 0 is in a, not in b, and lies below b's last word. */
  lemma SubDropsABit()
    ensures var a, b := seq(130, i => i == 0), seq(128, _ => false);
            && |a| > |b| && Difference(a, b)[0] && !SubSpec(a, b)[0]
  {
  }

  // ---------------------------------------------------------------- the array as an object

  class BitArray {
    var bits: Uint32
    var elems: array<Word>

    ghost predicate Valid()
      reads this
    {
      elems.Length == WordCount(bits)
    }

    ghost function Value(): (r: seq<bool>)
      requires Valid()
      reads this, elems
      ensures |r| == bits
    {
      View(elems[..], bits)
    }

    constructor (n: Uint32)
      ensures Valid() && fresh(elems) && bits == n && Value() == seq(n, _ => false)
    {
      bits := n;
      elems := new Word[WordCount(n)](_ => 0);
      new;
      ViewOfZeros(elems[..], n);
    }

    /** Out of range reads are false. */
    predicate GetIndex(i: nat)
      requires Valid()
      reads this, elems
      ensures GetIndex(i) == (i < bits && Value()[i])
    {
      hide Bit;
      if i >= bits then false else Bit(elems[i / 64], i % 64)
    }

    method SetIndex(i: nat, v: bool) returns (ok: bool)
      requires Valid()
      modifies elems
      ensures Valid() && ok == (i < bits)
      ensures Value() == if i < bits then old(Value())[i := v] else old(Value())
    {
      hide Set, Clear, At, Bit;
      if i >= bits {
        return false;
      }
      ViewUpdate(elems[..], bits, i);
      ghost var was := elems[..];
      if v {
        elems[i / 64] := Set(elems[i / 64], At(i % 64));
        assert elems[..] == was[i / 64 := Set(was[i / 64], At(i % 64))];
      } else {
        elems[i / 64] := Clear(elems[i / 64], At(i % 64));
        assert elems[..] == was[i / 64 := Clear(was[i / 64], At(i % 64))];
      }
      return true;
    }

    /** A copy cut or extended to n bits: the words there are, then zeros. */
    method CopyBits(n: Uint32) returns (c: BitArray)
      requires Valid()
      ensures fresh(c) && fresh(c.elems) && c.Valid() && c.bits == n
      ensures forall k | 0 <= k < c.elems.Length :: c.elems[k] == if k < elems.Length then elems[k] else 0
      ensures n <= bits ==> c.Value() == Value()[..n]
    {
      hide Bit;
      c := new BitArray(n);
      forall k | 0 <= k < c.elems.Length && k < elems.Length {
        c.elems[k] := elems[k];
      }
      forall k | elems.Length <= k < c.elems.Length {
        c.elems[k] := 0;
      }
      assert n <= bits ==> forall i: nat | i < n :: Packed(c.elems[..], i) == Packed(elems[..], i);
    }

    method Copy() returns (c: BitArray)
      requires Valid()
      ensures fresh(c) && fresh(c.elems) && c.Valid() && c.bits == bits
      ensures c.elems[..] == elems[..] && c.Value() == Value()
    {
      hide View;
      c := CopyBits(bits);
      assert c.elems[..] == elems[..];
    }

    /** Bitwise and, cut to the shorter of the two. */
    method AndWith(o: BitArray) returns (c: BitArray)
      requires Valid() && o.Valid()
      ensures fresh(c) && fresh(c.elems) && c.Valid() && c.bits == if bits <= o.bits then bits else o.bits
      ensures forall i: nat | i < c.bits :: c.Value()[i] == (Value()[i] && o.Value()[i])
    {
      hide And, Bit;
      var n: Uint32 := if bits <= o.bits then bits else o.bits;
      c := CopyBits(n);
      var i := 0;
      while i < c.elems.Length
        invariant 0 <= i <= c.elems.Length && fresh(c.elems) && c.Valid() && c.bits == n
        invariant forall k | 0 <= k < i :: c.elems[k] == And(elems[k], o.elems[k])
        invariant forall k | i <= k < c.elems.Length :: c.elems[k] == elems[k]
      {
        c.elems[i] := And(c.elems[i], o.elems[i]);
        i := i + 1;
      }
      ViewAnd(elems[..], o.elems[..], c.elems[..], c.bits);
      ViewPrefix(elems[..], c.bits, bits);
      ViewPrefix(o.elems[..], c.bits, o.bits);
    }

    /** Bitwise or, as long as the longer; the other array has at least as many words, or the source reads
        past its end. */
    method OrWith(o: BitArray) returns (c: BitArray)
      requires Valid() && o.Valid() && elems.Length <= o.elems.Length
      ensures fresh(c) && fresh(c.elems) && c.Valid() && c.bits == if bits >= o.bits then bits else o.bits
      ensures c.Value() == OrSpec(elems[..], o.elems[..], c.bits)
      ensures bits == o.bits ==> forall i: nat | i < bits :: c.Value()[i] == (Value()[i] || o.Value()[i])
    {
      hide Or, Bit;
      var n: Uint32 := if bits >= o.bits then bits else o.bits;
      c := CopyBits(n);
      ghost var padded := c.elems[..];
      ghost var words, others := elems[..], o.elems[..];
      assert forall k | 0 <= k < |padded| :: padded[k] == if k < |words| then words[k] else 0;
      var i := 0;
      while i < c.elems.Length
        invariant 0 <= i <= c.elems.Length && fresh(c.elems) && c.Valid() && c.bits == n
        invariant words == elems[..] && others == o.elems[..]
        invariant forall k | 0 <= k < i :: c.elems[k] == Or(padded[k], others[k])
        invariant forall k | i <= k < c.elems.Length :: c.elems[k] == padded[k]
      {
        assert others[i] == o.elems[i];
        c.elems[i] := Or(c.elems[i], o.elems[i]);
        i := i + 1;
      }
      ViewOr(padded, others, c.elems[..], n);
      OrOfPadded(words, padded, others, c.elems[..], n);
    }

    /** Bitwise complement; it also sets the stray bits of the last word. */
    method Negate() returns (c: BitArray)
      requires Valid()
      ensures fresh(c) && fresh(c.elems) && c.Valid() && c.bits == bits
      ensures forall i: nat | i < bits :: c.Value()[i] == !Value()[i]
    {
      hide Not, Bit;
      c := Copy();
      var i := 0;
      while i < c.elems.Length
        invariant 0 <= i <= c.elems.Length && fresh(c.elems) && c.Valid() && c.bits == bits
        invariant forall k | 0 <= k < i :: c.elems[k] == Not(elems[k])
        invariant forall k | i <= k < c.elems.Length :: c.elems[k] == elems[k]
      {
        c.elems[i] := Not(c.elems[i]);
        i := i + 1;
      }
      ViewNot(elems[..], c.elems[..], bits);
    }

    /** Subtraction; a longer receiver takes the other loop. */
    method Sub(o: BitArray) returns (c: BitArray)
      requires Valid() && o.Valid()
      ensures fresh(c) && c.Valid() && c.Value() == SubSpec(Value(), o.Value())
    {
      if bits > o.bits {
        c := SubLonger(o);
      } else {
        var n := o.Negate();
        c := AndWith(n);
      }
    }

    method SubLonger(o: BitArray) returns (c: BitArray)
      requires Valid() && o.Valid() && bits > o.bits
      ensures fresh(c) && c.Valid() && c.Value() == SubSpec(Value(), o.Value())
    {
      hide View;
      c := Copy();
      ghost var value, other := Value(), o.Value();
      ClearWords(c, o.elems.Length - 1);
      ghost var cleared := c.Value();
      var from := if o.elems.Length >= 1 then 64 * (o.elems.Length - 1) else 0;
      var idx := from;
      while idx < o.bits
        invariant from <= idx <= o.bits && c.Valid() && c.bits == bits && fresh(c.elems)
        invariant c.Value() == Masked(cleared, other, from, idx)
      {
        MaskOne(cleared, other, from, idx);
        var _ := c.SetIndex(idx, c.GetIndex(idx) && !o.GetIndex(idx));
        idx := idx + 1;
      }
      assert Masked(cleared, other, from, |other|) == SubSpec(value, other);
    }

    /** Every bit is set.  Only defined for at least one bit, as in the source. */
    method IsFull() returns (full: bool)
      requires Valid() && bits >= 1
      ensures full <==> AllTrue(Value())
    {
      hide CarryClears, Bit, Not;
      ghost var words := elems[..];
      ViewFull(words, bits);
      var k := 0;
      while k < elems.Length - 1
        invariant 0 <= k <= elems.Length - 1 && words == elems[..]
        invariant forall j | 0 <= j < k :: Not(elems[j]) == 0
      {
        assert words[k] == elems[k];
        if Not(elems[k]) != 0 {
          return false;
        }
        k := k + 1;
      }
      full := CarryClears(elems[elems.Length - 1], (bits + 63) % 64 + 1);
    }

    method Count() returns (count: nat)
      requires Valid()
      ensures count == CountTrue(Value())
    {
      count := 0;
      var i := 0;
      while i < bits
        invariant 0 <= i <= bits
        invariant count == CountTrue(Value()[..i])
      {
        assert Value()[..i + 1][..i] == Value()[..i];
        if GetIndex(i) {
          count := count + 1;
        }
        i := i + 1;
      }
      assert Value()[..bits] == Value();
    }

    /** Bit i is bit i % 8 of byte i / 8. */
    method Bytes() returns (bytes: seq<bv8>)
      requires Valid()
      ensures |bytes| == (bits + 7) / 8
      ensures forall i: nat | i < bits :: ByteBit(bytes[i / 8], i % 8) == Value()[i]
    {
      hide Bit, ByteBit, LittleEndian;
      bytes := [];
      var i := 0;
      while i < elems.Length
        invariant 0 <= i <= elems.Length && |bytes| == 8 * i
        invariant forall j: nat | j < 64 * i :: ByteBit(bytes[j / 8], j % 8) == Packed(elems[..], j)
      {
        forall b: nat | b < 64 ensures ByteBit(LittleEndian(elems[i])[b / 8], b % 8) == Bit(elems[i], b) {
          LittleEndianBit(elems[i], b);
        }
        AppendWord(elems[..], i, bytes);
        bytes := bytes + LittleEndian(elems[i]);
        i := i + 1;
      }
      bytes := bytes[..(bits + 7) / 8];
    }

    method MarshalJSON() returns (text: string)
      requires Valid()
      ensures text == Json(Value())
    {
      text := "\"";
      var i := 0;
      while i < bits
        invariant 0 <= i <= bits
        invariant text == Json(Value()[..i])[..i + 1]
      {
        text := text + (if GetIndex(i) then "x" else "_");
        i := i + 1;
      }
      assert Value()[..bits] == Value();
      text := text + "\"";
    }

    /** Accepts null and the quoted strings of x and _, and leaves the array alone on any other text. */
    method UnmarshalJSON(text: string) returns (ok: bool)
      requires Valid() && |text| < U32
      modifies this
      ensures Valid() && ok == (text == "null" || IsBitString(text))
      ensures text == "null" ==> bits == 0
      ensures IsBitString(text) ==> Value() == FromJson(text) && fresh(elems)
      ensures !ok ==> bits == old(bits) && elems == old(elems)
    {
      if text == "null" {
        bits := 0;
        elems := new Word[0];
        return true;
      }
      if !IsBitString(text) {
        return false;
      }
      var n := |text| - 2;
      var read := new BitArray(n);
      var i := 0;
      while i < n
        invariant 0 <= i <= n && read.Valid() && read.bits == n && fresh(read) && fresh(read.elems)
        invariant forall j | 0 <= j < n :: read.Value()[j] == (j < i && text[j + 1] == 'x')
      {
        if text[i + 1] == 'x' {
          var _ := read.SetIndex(i, true);
        }
        i := i + 1;
      }
      assert read.Value() == FromJson(text);
      bits := read.bits;
      elems := read.elems;
      return true;
    }
  }

  lemma ViewPrefix(words: seq<Word>, n: nat, m: nat)
    requires n <= m <= 64 * |words|
    ensures View(words, n) == View(words, m)[..n]
  {
    hide Bit;
  }

  /** `a` with the bits from..to cut down to those not in b. */
  ghost function Masked(a: seq<bool>, b: seq<bool>, from: nat, to: nat): (r: seq<bool>)
    requires to <= |b|
    ensures |r| == |a|
  {
    seq(|a|, i requires 0 <= i < |a| => a[i] && !(from <= i < to && b[i]))
  }

  lemma MaskOne(a: seq<bool>, b: seq<bool>, from: nat, to: nat)
    requires from <= to < |b| && to < |a|
    ensures Masked(a, b, from, to + 1) == Masked(a, b, from, to)[to := a[to] && !b[to]]
    ensures Masked(a, b, from, to)[to] == a[to]
  {
  }

  /** The first loop of Sub on a longer receiver: c.Elems[i] &= ^c.Elems[i], which is 0. */
  method ClearWords(c: BitArray, n: int)
    requires c.Valid() && n < c.elems.Length
    modifies c.elems
    ensures c.Valid()
    ensures forall i: nat | i < c.bits :: c.Value()[i] == (i >= 64 * n && old(c.Value())[i])
  {
    hide And, Not, Bit;
    ghost var was := c.elems[..];
    var i := 0;
    while i < n
      invariant 0 <= i && (i <= n || i == 0)
      invariant forall k | 0 <= k < i && k < n :: c.elems[k] == 0
      invariant forall k | i <= k < c.elems.Length :: c.elems[k] == was[k]
    {
      AndNotSelf(c.elems[i]);
      c.elems[i] := And(c.elems[i], Not(c.elems[i]));
      i := i + 1;
    }
    forall b: nat | b < c.bits ensures Packed(c.elems[..], b) == (b >= 64 * n && Packed(was, b)) {
      assert c.elems[..][b / 64] == c.elems[b / 64];
      if b < 64 * n {
        ZeroBit(b % 64);
      }
    }
  }

  lemma AndNotSelf(w: Word)
    ensures And(w, Not(w)) == 0
  {
  }

  lemma ZeroBit(i: nat)
    requires i < 64
    ensures !Bit(0, i)
  {
    hide Test;
    TestZero(At(i));
  }

  lemma AppendWord(words: seq<Word>, i: nat, bytes: seq<bv8>)
    requires i < |words| && |bytes| == 8 * i
    requires forall j: nat | j < 64 * i :: ByteBit(bytes[j / 8], j % 8) == Packed(words, j)
    requires forall b: nat | b < 64 :: ByteBit(LittleEndian(words[i])[b / 8], b % 8) == Bit(words[i], b)
    ensures forall j: nat | j < 64 * (i + 1)
            :: ByteBit((bytes + LittleEndian(words[i]))[j / 8], j % 8) == Packed(words, j)
  {
    hide Bit, ByteBit, LittleEndian;
    forall j: nat | j < 64 * (i + 1)
      ensures ByteBit((bytes + LittleEndian(words[i]))[j / 8], j % 8) == Packed(words, j)
    {
      if j >= 64 * i {
        var b := j - 64 * i;
        assert ByteBit(LittleEndian(words[i])[b / 8], b % 8) == Bit(words[i], b);
        assert j / 8 == 8 * i + b / 8 && j % 8 == b % 8 && j / 64 == i && j % 64 == b;
      }
    }
  }
}
