/** The common-ancestor search of the synchroniser (libs/comm/sync.go findCommonAncestor). */
module CommonAncestors {
  import opened Blocks
  import opened ChainStore
  import opened Rounds

  /** Two number indexes, the local one and what the peer answers; a number may be missing in either. */
  datatype Sides = Sides(local: map<Uint32, Id>, remote: map<Uint32, Id>)

  datatype SyncError = LookupFailed

  predicate Known(s: Sides, num: Uint32) {
    num in s.local && num in s.remote
  }

  predicate Agree(s: Sides, num: Uint32) {
    Known(s, num) && s.local[num] == s.remote[num]
  }

  /** isOverlapped: it fails when either lookup fails. */
  function IsOverlapped(s: Sides, num: Uint32): Result<bool, SyncError> {
    if Known(s, num) then Ok(Agree(s, num)) else Err(LookupFailed)
  }

  // ---------------------------------------------------------------- agreement

  /** Two parent-linked chains that agree at a height agree at every lower height. */
  lemma AgreementDownwardClosed(a: Header, b: Header, k: nat, j: nat)
    requires Linked(a) && Linked(b) && j <= k <= a.Number() && k <= b.Number()
    ensures |Lineage(a)| == a.Number() + 1 && |Lineage(b)| == b.Number() + 1
    ensures Lineage(a)[k].ID() == Lineage(b)[k].ID() ==> Lineage(a)[j].ID() == Lineage(b)[j].ID()
  {
    LineageAt(a, k);
    LineageAt(b, k);
    if Lineage(a)[k].ID() == Lineage(b)[k].ID() {
      assert Lineage(a)[..k + 1][j] == Lineage(b)[..k + 1][j];
    }
  }

  ghost predicate DownwardClosed(s: Sides, headNum: Uint32) {
    forall j: Uint32, k: Uint32 | j <= k <= headNum && Agree(s, k) :: Agree(s, j)
  }

  /** The greatest height at or below headNum where the sides agree. */
  ghost predicate IsGreatest(s: Sides, headNum: Uint32, r: Uint32) {
    r <= headNum && Agree(s, r) && forall k: Uint32 | r < k <= headNum :: !Agree(s, k)
  }

  ghost predicate AllKnown(s: Sides, headNum: Uint32) {
    forall k: Uint32 | k <= headNum :: Known(s, k)
  }

  // ---------------------------------------------------------------- bisection

  /** find: recursive bisection over [start, end], in 32-bit arithmetic. */
  function Find(s: Sides, start: Uint32, end: Uint32, ancestor: Uint32): Result<Uint32, SyncError>
    requires start <= end <= I31
    decreases end - start
  {
    if start == end then
      match IsOverlapped(s, start)
      case Err(e) => Err(e)
      case Ok(overlapped) => Ok(if overlapped then start else ancestor)
    else
      var mid := (start + end) % U32 / 2;
      match IsOverlapped(s, mid)
      case Err(e) => Err(e)
      case Ok(overlapped) =>
        if overlapped then Find(s, mid + 1, end, mid)
        else if mid > start then Find(s, start, mid - 1, ancestor)
        else Ok(ancestor)
  }

  /** The search is on track: nothing above the range agrees, and either its start agrees or the height just below does
      and is the ancestor so far. */
  ghost predicate OnTrack(s: Sides, headNum: Uint32, start: Uint32, end: Uint32, ancestor: Uint32) {
    && start <= end <= headNum
    && (forall k: Uint32 | end < k <= headNum :: !Agree(s, k))
    && (Agree(s, start) || (ancestor + 1 == start && Agree(s, ancestor)))
  }

  lemma NoneAbove(s: Sides, headNum: Uint32, mid: Uint32)
    requires DownwardClosed(s, headNum) && !Agree(s, mid)
    ensures forall k: Uint32 | mid <= k <= headNum :: !Agree(s, k)
  {
  }

  /** The bisection finds the greatest agreeing height, and fails only on a failed lookup. */
  lemma {:induction false} FindExact(s: Sides, headNum: Uint32, start: Uint32, end: Uint32, ancestor: Uint32)
    requires headNum <= I31 && DownwardClosed(s, headNum) && OnTrack(s, headNum, start, end, ancestor)
    ensures var r := Find(s, start, end, ancestor);
            && (r.Ok? ==> IsGreatest(s, headNum, r.value))
            && (AllKnown(s, headNum) ==> r.Ok?)
    decreases end - start
  {
    hide DownwardClosed, Agree;
    if start < end {
      var mid := (start + end) % U32 / 2;
      assert start <= mid == (start + end) / 2 < end;
      if Known(s, mid) {
        if Agree(s, mid) {
          FindExact(s, headNum, mid + 1, end, mid);
        } else {
          NoneAbove(s, headNum, mid);
          if mid > start {
            FindExact(s, headNum, start, mid - 1, ancestor);
          }
        }
      }
    }
  }

  // ---------------------------------------------------------------- back-off

  /** The next back-off distance: 0, 1, 2, 4, and so on, shifted in 32 bits. */
  function NextBackward(backward: Uint32): Uint32 {
    if backward == 0 then 1 else 2 * backward % U32
  }

  /** The k-th distance. */
  function Backward(k: nat): Uint32 {
    if k == 0 then 0 else NextBackward(Backward(k - 1))
  }

  lemma NextOfPower(p: nat)
    requires 0 < p && 2 * p <= I31
    ensures NextBackward(p) == 2 * p
  {
  }

  /** The powers of two up to 2^31. */
  lemma PowerBounds(k: nat)
    requires k <= 31
    ensures 0 < Pow2(k) <= I31
    ensures k > 0 ==> Pow2(k) == 2 * Pow2(k - 1)
  {
    PowPositive(k);
    PowGrows(k, 31);
    Pow31();
  }

  /** The first 33 distances are 0 and the powers of two up to 2^31. */
  lemma {:induction false} BackwardPower(k: nat)
    requires k <= 31
    ensures Backward(k + 1) == Pow2(k) && 0 < Pow2(k) <= I31
  {
    hide NextBackward, Pow2;
    PowerBounds(k);
    if k == 0 {
      FirstPower();
    } else {
      BackwardPower(k - 1);
      NextOfPower(Pow2(k - 1));
    }
  }

  lemma FirstPower()
    ensures Backward(1) == Pow2(0)
  {
  }

  /** Then they start over: the shift drops the only bit. */
  lemma {:induction false} BackwardRepeats(k: nat) returns (j: nat)
    ensures j <= 32 && Backward(k) == Backward(j)
  {
    if k == 0 {
      j := 0;
    } else {
      hide NextBackward;
      var i := BackwardRepeats(k - 1);
      if i == 32 {
        AfterLastPower();
        j := 0;
      } else {
        j := i + 1;
      }
    }
  }

  lemma AfterLastPower()
    ensures NextBackward(Backward(32)) == Backward(0)
  {
    hide Backward;
    BackwardPower(31);
    Pow31();
    BackwardZero();
  }

  lemma BackwardZero()
    ensures Backward(0) == 0
  {
  }

  lemma BackwardBound(k: nat)
    ensures Backward(k) <= I31
  {
    var j := BackwardRepeats(k);
    if j > 0 {
      BackwardPower(j - 1);
    }
  }

  lemma Pow31()
    ensures Pow2(31) == I31
  {
    assert Pow2(7) == 128;
    PowAdd(7, 7);
    PowAdd(14, 14);
    PowAdd(28, 3);
    assert Pow2(3) == 8;
  }

  lemma {:induction false} PowPositive(n: nat)
    ensures Pow2(n) > 0
  {
    if n > 0 {
      PowPositive(n - 1);
    }
  }

  /** The seek stops at probe k: past the head, on a failed lookup, or on agreement. */
  predicate Stops(s: Sides, headNum: Uint32, k: nat) {
    Backward(k) >= headNum || !Known(s, headNum - Backward(k)) || Agree(s, headNum - Backward(k))
  }

  /** The back-off passes the head exactly for heads up to 2^31. */
  lemma BackoffEscapesExactlyWhen(headNum: Uint32)
    ensures (exists k :: Backward(k) >= headNum) <==> headNum <= I31
  {
    if headNum <= I31 {
      BackwardPower(31);
      Pow31();
      assert Backward(32) >= headNum;
    }
    if k: nat :| Backward(k) >= headNum {
      BackwardBound(k);
    }
  }

  /** The seek ends exactly when one of its first 33 probes stops it. */
  lemma SeekEndsExactlyWhen(s: Sides, headNum: Uint32)
    ensures (exists k :: Stops(s, headNum, k)) <==> exists k: nat | k <= 32 :: Stops(s, headNum, k)
  {
    if k: nat :| Stops(s, headNum, k) {
      var j := BackwardRepeats(k);
      assert Stops(s, headNum, j);
    }
  }

  function LocalId(k: Uint32): Id {
    Opaque(k, 0)
  }

  function RemoteId(k: Uint32): Id {
    Opaque(k, if k == 0 then 0 else 1)
  }

  /** Two sides that agree at genesis only. */
  function GenesisOnly(headNum: Uint32): Sides {
    Sides(map k: Uint32 | k <= headNum :: LocalId(k), map k: Uint32 | k <= headNum :: RemoteId(k))
  }

  /** On every head above 2^31 there are sides, agreeing at genesis and downwards, on which the seek never ends. */
  lemma SeekNeedNotEnd(headNum: Uint32)
    requires headNum > I31
    ensures var s := GenesisOnly(headNum);
            && AllKnown(s, headNum) && DownwardClosed(s, headNum) && Agree(s, 0)
            && forall k: nat :: !Stops(s, headNum, k)
  {
    forall k: nat ensures !Stops(GenesisOnly(headNum), headNum, k) {
      BackwardBound(k);
    }
  }

  /** fastSeek: an agreeing height no more than a doubling back-off below the head, or 0. */
  method FastSeek(s: Sides, headNum: Uint32) returns (r: Result<Uint32, SyncError>)
    requires 0 < headNum <= I31
    ensures r.Ok? ==> r.value <= headNum && (r.value == 0 || Agree(s, r.value))
    ensures AllKnown(s, headNum) ==> r.Ok?
    ensures r.Ok? && r.value < headNum ==> !Agree(s, headNum)
  {
    var backward: Uint32 := 0;
    ghost var k := 0;
    while true
      invariant k <= 32 && backward == Backward(k)
      invariant k > 0 ==> backward > 0 && !Agree(s, headNum)
      decreases 33 - k
    {
      if backward >= headNum {
        return Ok(0);
      }
      var overlapped := IsOverlapped(s, headNum - backward);
      if overlapped.Err? {
        return Err(overlapped.error);
      }
      if overlapped.value {
        return Ok(headNum - backward);
      }
      Pow31();
      if k < 32 {
        BackwardPower(k);
      } else {
        BackwardPower(31);
      }
      if backward == 0 {
        backward := 1;
      } else {
        backward := 2 * backward % U32;
      }
      k := k + 1;
    }
  }

  /** For two sides that agree at 0 and downwards from any agreement, and any head up to 2^31, the search returns the
      greatest agreeing height at or below the head; it fails only when a lookup fails. */
  method FindCommonAncestor(s: Sides, headNum: Uint32) returns (r: Result<Uint32, SyncError>)
    requires headNum <= I31 && DownwardClosed(s, headNum) && Agree(s, 0)
    ensures r.Ok? ==> IsGreatest(s, headNum, r.value)
    ensures AllKnown(s, headNum) ==> r.Ok?
  {
    if headNum == 0 {
      return Ok(headNum);
    }
    var seekNum := FastSeek(s, headNum);
    if seekNum.Err? {
      return Err(seekNum.error);
    }
    if seekNum.value == headNum {
      return Ok(headNum);
    }
    FindExact(s, headNum, seekNum.value, headNum, 0);
    r := Find(s, seekNum.value, headNum, 0);
  }

  /** For two chains over one genesis, indexed up to their heads, it returns the height of their last common ancestor at
      or below the head number. */
  method SyncFrom(s: Sides, ghost a: Header, ghost b: Header, headNum: Uint32) returns (r: Result<Uint32, SyncError>)
    requires Linked(a) && Linked(b) && Root(a) == Root(b)
    requires Indexes(s.local, Lineage(a)) && Indexes(s.remote, Lineage(b))
    requires headNum <= I31 && headNum <= a.Number() && headNum <= b.Number()
    ensures |Lineage(a)| == a.Number() + 1 && |Lineage(b)| == b.Number() + 1
    ensures r.Ok? && r.value <= headNum && Lineage(a)[..r.value + 1] == Lineage(b)[..r.value + 1]
    ensures r.value < headNum ==> Lineage(a)[r.value + 1] != Lineage(b)[r.value + 1]
  {
    hide Lineage, Linked;
    ChainsAgree(s, a, b, headNum);
    r := FindCommonAncestor(s, headNum);
    assert Agree(s, r.value);
    AgreedPrefix(a, b, r.value);
    if r.value < headNum {
      assert !Agree(s, r.value + 1);
    }
  }

  lemma AgreedPrefix(a: Header, b: Header, k: nat)
    requires Linked(a) && Linked(b) && k <= a.Number() && k <= b.Number()
    ensures |Lineage(a)| == a.Number() + 1 && |Lineage(b)| == b.Number() + 1
    ensures Lineage(a)[k].ID() == Lineage(b)[k].ID() ==> Lineage(a)[..k + 1] == Lineage(b)[..k + 1]
  {
    LineageAt(a, k);
    LineageAt(b, k);
  }

  lemma ChainsAgree(s: Sides, a: Header, b: Header, headNum: Uint32)
    requires Linked(a) && Linked(b) && Root(a) == Root(b)
    requires Indexes(s.local, Lineage(a)) && Indexes(s.remote, Lineage(b))
    requires headNum <= a.Number() && headNum <= b.Number()
    ensures AllKnown(s, headNum) && DownwardClosed(s, headNum) && Agree(s, 0)
    ensures |Lineage(a)| == a.Number() + 1 && |Lineage(b)| == b.Number() + 1
    ensures forall k: Uint32 | k <= headNum :: Agree(s, k) <==> Lineage(a)[k].ID() == Lineage(b)[k].ID()
  {
    hide Linked, Lineage, Known, Agree, Indexes;
    LinkedNumber(a);
    LinkedNumber(b);
    forall k: Uint32 | k <= headNum ensures Known(s, k) && (Agree(s, k) <==> Lineage(a)[k].ID() == Lineage(b)[k].ID()) {
      AgreeMeans(s, Lineage(a), Lineage(b), k);
    }
    forall j: Uint32, k: Uint32 | j <= k <= headNum && Agree(s, k) ensures Agree(s, j) {
      AgreementDownwardClosed(a, b, k, j);
    }
  }

  lemma AgreeMeans(s: Sides, a: seq<Header>, b: seq<Header>, k: Uint32)
    requires Indexes(s.local, a) && Indexes(s.remote, b) && k < |a| && k < |b|
    ensures Known(s, k) && (Agree(s, k) <==> a[k].ID() == b[k].ID())
  {
  }
}
