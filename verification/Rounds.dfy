/** Rounds, timeouts and beats (consensus/pacemaker.go enterRound, resetRoundTimer, OnBeat, Regulate;
    consensus/epoch_state.go getRoundProposer; consensus/pacemaker_assist.go amIRoundProproser). */
module Rounds {
  import opened Blocks

  const U64: nat := 0x1_0000_0000_0000_0000
  const I63: nat := 0x8000_0000_0000_0000
  const I31: nat := 0x8000_0000

  /** The conversion int32(x) of a 32-bit unsigned value. */
  function ToInt32(x: Uint32): int {
    if x < I31 then x else x - U32
  }

  /** 32-bit signed wrap-around. */
  function WrapInt32(x: int): (r: int)
    ensures -(I31 as int) <= r < I31
  {
    var m := x % U32;
    if m < I31 then m else m - U32
  }

  /** 64-bit signed wrap-around. */
  function WrapInt64(x: int): (r: int)
    ensures -(I63 as int) <= r < I63
  {
    var m := x % U64;
    if m < I63 then m else m - U64
  }

  function Pow2(n: nat): nat {
    if n == 0 then 1 else 2 * Pow2(n - 1)
  }

  /** 1 << power on a 64-bit signed value. */
  function ShiftedOne(power: nat): int {
    if power < 63 then Pow2(power) else if power == 63 then -(I63 as int) else 0
  }

  datatype RoundType = RegularRound | TimeoutRound

  datatype RoundState = RoundState(
    currentRound: Uint32,
    timeoutCounter: nat,
    interval: int,
    lastOnBeatRound: int)

  // ---------------------------------------------------------------- entering rounds

  /** resetRoundTimer: the new timeout counter and the interval it arms. */
  function ResetRoundTimer(base: nat, s: RoundState, rtype: RoundType): RoundState {
    var counter := match rtype case RegularRound => 0 case TimeoutRound => (s.timeoutCounter + 1) % U64;
    var power := if counter > 1 then counter - 1 else 0;
    s.(timeoutCounter := counter, interval := WrapInt64(base * ShiftedOne(power)))
  }

  predicate Enters(s: RoundState, inCommittee: bool, round: Uint32) {
    !(round > 0 && round < s.currentRound) && inCommittee
  }

  function EnterRound(base: nat, s: RoundState, inCommittee: bool, round: Uint32, rtype: RoundType): RoundState {
    if Enters(s, inCommittee, round) then ResetRoundTimer(base, s, rtype).(currentRound := round) else s
  }

  /** A committee member enters round 0, its present round or a later one, and arms its timer anew; everybody else, and
      a member asked for an earlier round, stays where it is. */
  lemma EnterRoundExact(base: nat, s: RoundState, inCommittee: bool, round: Uint32, rtype: RoundType)
    ensures var s' := EnterRound(base, s, inCommittee, round, rtype);
            && s'.lastOnBeatRound == s.lastOnBeatRound
            && (!inCommittee || 0 < round < s.currentRound ==> s' == s)
            && (inCommittee && (round == 0 || s.currentRound <= round) ==>
                && s'.currentRound == round
                && (rtype.RegularRound? ==> s'.timeoutCounter == 0 && (base < I63 ==> s'.interval == base))
                && (rtype.TimeoutRound? ==> s'.timeoutCounter == (s.timeoutCounter + 1) % U64))
  {
  }

  datatype Entry = Entry(inCommittee: bool, round: Uint32, rtype: RoundType)

  function Enter(base: nat, s: RoundState, e: Entry): RoundState {
    EnterRound(base, s, e.inCommittee, e.round, e.rtype)
  }

  function AfterEntries(base: nat, s: RoundState, entries: seq<Entry>): RoundState {
    if entries == [] then s
    else Enter(base, AfterEntries(base, s, entries[..|entries| - 1]), entries[|entries| - 1])
  }

  /** Independent of the counter: accepted timeout entries since the last accepted regular one, or since `start`. */
  ghost function Timeouts(base: nat, s: RoundState, start: nat, entries: seq<Entry>): nat {
    if entries == [] then start
    else
      var before, e := entries[..|entries| - 1], entries[|entries| - 1];
      var k := Timeouts(base, s, start, before);
      if !Enters(AfterEntries(base, s, before), e.inCommittee, e.round) then k
      else if e.rtype.RegularRound? then 0 else k + 1
  }

  /** The interval after k consecutive timeouts, as intended. */
  ghost function Backoff(base: nat, k: nat): nat {
    base * Pow2(if k > 1 then k - 1 else 0)
  }

  /** After any sequence of round entries that starts from a fresh timer, the counter is the number of timeout entries
      since the last regular one; and the interval then armed is base * 2^(max(k,1)-1) when that fits in 63 bits,
      whatever earlier intervals did. */
  lemma {:induction false} CounterCountsTimeouts(base: nat, s: RoundState, entries: seq<Entry>)
    requires s.timeoutCounter == 0 && s.interval == base && |entries| < U64
    ensures var k := Timeouts(base, s, 0, entries);
            && k <= |entries|
            && AfterEntries(base, s, entries).timeoutCounter == k
            && (Backoff(base, k) < I63 ==> AfterEntries(base, s, entries).interval == Backoff(base, k))
  {
    if entries != [] {
      CounterCountsTimeouts(base, s, entries[..|entries| - 1]);
      var k := Timeouts(base, s, 0, entries);
      if Backoff(base, k) < I63 {
        ArmedInterval(base, k);
      }
    }
  }

  /** The wrapped product is the true one when the true one fits in 63 bits. */
  lemma ArmedInterval(base: nat, k: nat)
    requires Backoff(base, k) < I63
    ensures WrapInt64(base * ShiftedOne(if k > 1 then k - 1 else 0)) == Backoff(base, k)
  {
    var power := if k > 1 then k - 1 else 0;
    if power >= 63 {
      PowGrows(63, power);
      Pow63();
      ProductAtLeast(Pow2(power), base);
    }
  }

  lemma {:induction false} PowGrows(m: nat, n: nat)
    requires m <= n
    ensures Pow2(m) <= Pow2(n)
  {
    if m < n {
      PowGrows(m, n - 1);
    }
  }

  lemma {:induction false} PowAdd(m: nat, n: nat)
    ensures Pow2(m + n) == Pow2(m) * Pow2(n)
  {
    if m > 0 {
      PowAdd(m - 1, n);
      Twice(Pow2(m - 1), Pow2(n));
    }
  }

  lemma Twice(a: nat, b: nat)
    ensures 2 * (a * b) == (2 * a) * b
  {
  }

  lemma Pow63()
    ensures Pow2(63) == I63
  {
    assert Pow2(7) == 128;
    PowAdd(7, 7);
    PowAdd(14, 14);
    PowAdd(28, 28);
    PowAdd(56, 7);
  }

  /** An entry to a round above 0 never lowers the current round. */
  lemma {:induction false} RoundsNeverDecrease(base: nat, s: RoundState, entries: seq<Entry>)
    requires forall e | e in entries :: e.round > 0
    ensures AfterEntries(base, s, entries).currentRound >= s.currentRound
  {
    if entries != [] {
      RoundsNeverDecrease(base, s, entries[..|entries| - 1]);
    }
  }

  // ---------------------------------------------------------------- beats and turns

  type PubKey = nat

  /** The proposer of a round, for a committee that is not empty. */
  function RoundProposer(committee: seq<PubKey>, round: Uint32): PubKey
    requires committee != []
  {
    committee[round % |committee|]
  }

  predicate AmIRoundProposer(committee: seq<PubKey>, me: PubKey, round: Uint32) {
    committee != [] && RoundProposer(committee, round) == me
  }

  /** OnBeat lets this beat through to proposing. */
  predicate AcceptsBeat(s: RoundState, committee: seq<PubKey>, me: PubKey, localEpoch: nat, epoch: nat, round: Uint32) {
    && !(epoch < localEpoch)
    && !(epoch == localEpoch && ToInt32(round) <= s.lastOnBeatRound)
    && AmIRoundProposer(committee, me, round)
  }

  function Beat(s: RoundState, committee: seq<PubKey>, me: PubKey, localEpoch: nat, epoch: nat,
                round: Uint32): RoundState {
    if AcceptsBeat(s, committee, me, localEpoch, epoch, round) then s.(lastOnBeatRound := ToInt32(round)) else s
  }

  /** Regulate: forget the round, expect a beat for actualRound, and enter it. */
  function RegulateRounds(base: nat, s: RoundState, inCommittee: bool, actualRound: Uint32): RoundState {
    EnterRound(base,
               s.(lastOnBeatRound := WrapInt32(ToInt32(actualRound) - 1), currentRound := 0),
               inCommittee, actualRound, RegularRound)
  }

  ghost predicate DistinctKeys(committee: seq<PubKey>) {
    forall i, j | 0 <= i < j < |committee| :: committee[i] != committee[j]
  }

  /** Each round has exactly one eligible member. */
  lemma OneProposerPerRound(committee: seq<PubKey>, round: Uint32)
    requires committee != [] && DistinctKeys(committee)
    ensures exists i | 0 <= i < |committee| ::
              AmIRoundProposer(committee, committee[i], round)
              && forall j | 0 <= j < |committee| :: AmIRoundProposer(committee, committee[j], round) ==> j == i
  {
    var i := round % |committee|;
    assert AmIRoundProposer(committee, committee[i], round);
  }

  /** Among any n consecutive rounds each of the n members has exactly one turn. */
  lemma OneTurnInNRounds(committee: seq<PubKey>, from: nat, i: nat) returns (turn: nat)
    requires DistinctKeys(committee) && i < |committee| && from + |committee| <= U32
    ensures from <= turn < from + |committee| && AmIRoundProposer(committee, committee[i], turn)
    ensures forall r: nat | from <= r < from + |committee| && AmIRoundProposer(committee, committee[i], r) :: r == turn
  {
    var n := |committee|;
    var d := (i as int - from as int) % n;
    turn := from + d;
    ModuloSum(from, i, n);
    assert turn % n == i;
    forall r: nat | from <= r < from + n && AmIRoundProposer(committee, committee[i], r) ensures r == turn {
      assert r % n == i;
      SameResidue(r, turn, n);
    }
  }

  lemma ProductAtLeast(n: nat, k: int)
    ensures k >= 1 ==> k * n >= n
    ensures k <= -1 ==> k * n <= -(n as int)
  {
  }

  lemma Distribute(n: int, a: int, b: int)
    ensures (a - b) * n == a * n - b * n
  {
  }

  /** A quotient and remainder are unique. */
  lemma DivisionUnique(q: int, r: nat, q': int, r': nat, n: nat)
    requires r < n && r' < n && q * n + r == q' * n + r'
    ensures q == q' && r == r'
  {
    Distribute(n, q, q');
    ProductAtLeast(n, q - q');
  }

  lemma DivMod(x: int, n: nat)
    requires n > 0
    ensures x == (x / n) * n + x % n
  {
  }

  lemma ModuloSum(from: nat, i: nat, n: nat)
    requires i < n
    ensures (from + (i as int - from as int) % n) % n == i
  {
    var x := i as int - from as int;
    var y := from + x % n;
    DivMod(x, n);
    DivMod(y, n);
    Distribute(n, 0, x / n);
    DivisionUnique(-(x / n), i, y / n, y % n, n);
  }

  lemma SameResidue(a: nat, b: nat, n: nat)
    requires n > 0 && a % n == b % n && b < a + n && a < b + n
    ensures a == b
  {
    DivMod(a, n);
    DivMod(b, n);
    Distribute(n, a / n, b / n);
    ProductAtLeast(n, a / n - b / n);
  }
}
