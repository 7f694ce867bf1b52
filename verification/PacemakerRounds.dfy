/** The current round and the beats of a pacemaker over its runs (consensus/pacemaker.go enterRound, OnBeat). */
module PacemakerRounds {
  import opened Blocks
  import opened ChainStore
  import opened Drafts
  import opened Rounds
  import opened PacemakerMachine
  import opened PacemakerRuns
  import Votes

  // ---------------------------------------------------------------- current round

  /** The round that a step asks enterRound for, if it asks. */
  ghost function RoundEntered(cfg: Config, s: Pm, e: Event): Option<Uint32>
    requires Inv(s) && StepOk(cfg, s, e)
  {
    match e
    case Proposal(_, m, qcValid, tcValid, accepted, apply) =>
      if Recorded(s, e).None? then None
      else
        ProposalDraft(s, m, qcValid, tcValid, accepted);
        var last := Update(cfg, Placed(s, NewDraft(s, m)), m.block.qc, apply).1;
        if last.Some? && last.value.IsKBlock() then None else Some((m.round + 1) % U32)
    case Vote(epoch, signer, round, blockId, sigOk) =>
      if epoch != s.epoch.epoch || !CountsVote(cfg, s, round, blockId) then None
      else
        var cert := CastVerified(s.qcVotes, Votes.QCKey(round, blockId), signer, sigOk).1;
        if cert.None? || Below(CertOf(s, round, blockId, cert.value), s.qcHigh.qc) then None
          else Some((round + 1) % U32)
    case RoundTimeout(round) => Some((round + 1) % U32)
    case _ => None
  }

  /** The entry that a step makes: a round timeout enters its next round as a timeout, everything else regularly. */
  ghost function EntryOf(cfg: Config, s: Pm, e: Event): Option<Entry>
    requires Inv(s) && StepOk(cfg, s, e)
  {
    var r := RoundEntered(cfg, s, e);
    if r.None? then None else
      Some(Entry(s.epoch.inCommittee, r.value, if e.RoundTimeout? then TimeoutRound else RegularRound))
  }

  /** Round, counter and interval after a step are those of its entry. */
  ghost predicate RoundFollows(cfg: Config, s: Pm, e: Event, s': Pm)
    requires Inv(s) && StepOk(cfg, s, e)
  {
    var entry := EntryOf(cfg, s, e);
    SameTimer(s'.rounds, if entry.Some? then Enter(cfg.base, s.rounds, entry.value) else s.rounds)
  }

  predicate SameTimer(a: RoundState, b: RoundState) {
    a.currentRound == b.currentRound && a.timeoutCounter == b.timeoutCounter && a.interval == b.interval
  }

  lemma ProposalRound(cfg: Config, s: Pm, e: Event)
    requires Inv(s) && e.Proposal? && StepOk(cfg, s, e)
    ensures RoundFollows(cfg, s, e, Step(cfg, s, e))
    ensures Step(cfg, s, e).rounds.lastOnBeatRound == s.rounds.lastOnBeatRound
  {
    hide StoreOk, HighOk, HighKnown, GoodPool, Grows, Lookup, Update, AcceptsProposal, MayVote, NewDraft, Placed, Below,
         OnReceiveProposal, ShiftedOne, WrapInt64;
    if e.epoch == s.epoch.epoch {
      if RecordsVote(s, e.proposal, e.qcValid, e.tcValid, e.accepted) {
        VotingStep(cfg, s, e);
      } else {
        QuietProposal(cfg, s, e);
      }
    }
  }

  lemma VoteRound(cfg: Config, s: Pm, e: Event)
    requires Inv(s) && e.Vote? && StepOk(cfg, s, e)
    ensures RoundFollows(cfg, s, e, Step(cfg, s, e))
    ensures Step(cfg, s, e).rounds.lastOnBeatRound == s.rounds.lastOnBeatRound
  {
    hide Good, Tree, SingleChain, GoodPool, Lineage, Linked, CastVerified, Lookup, Found;
    if e.epoch == s.epoch.epoch && CountsVote(cfg, s, e.round, e.blockId) {
      LookupGood(s.store, s.pool, e.blockId, s.nextRef);
    }
  }

  lemma TimeoutRoundKept(cfg: Config, s: Pm, e: Event)
    requires Inv(s) && e.Timeout? && StepOk(cfg, s, e)
    ensures s.rounds == Step(cfg, s, e).rounds
  {
    hide Good, Tree, SingleChain, GoodPool, Grows, LookupByQC, TimeoutFirst, CastVerified, StoreOk, HighOk, HighKnown;
    if e.epoch == s.epoch.epoch && AmIRoundProposer(s.epoch.committee, cfg.me, e.timeout.wishRound) {
      TimeoutFirstKeeps(cfg, s, e.timeout, e.sigOk, e.apply);
    }
  }

  lemma RoundStep(cfg: Config, s: Pm, e: Event)
    requires Inv(s) && StepOk(cfg, s, e) && !e.RegulateNow?
    ensures RoundFollows(cfg, s, e, Step(cfg, s, e))
    ensures !e.BeatAt? ==> Step(cfg, s, e).rounds.lastOnBeatRound == s.rounds.lastOnBeatRound
  {
    hide Inv, StoreOk, HighOk, HighKnown, GoodPool, Tree, CastVerified, LookupByQC, Lookup, TimeoutFirst, Update,
         AcceptsProposal, MeetsWithin, AddBlockSpec, HeightFits, TimeoutSafe;
    match e
    case Proposal(_, _, _, _, _, _) => ProposalRound(cfg, s, e);
    case Vote(_, _, _, _, _) => VoteRound(cfg, s, e);
    case Timeout(_, _, _, _, _) => TimeoutRoundKept(cfg, s, e);
    case BeatAt(_, _, _, _) =>
    case RoundTimeout(_) =>
    case Synced(_, _, _, _, _) =>
  }

  /** A committee member above round 0 is asked to enter round 0: the round after the last representable one. */
  ghost predicate DropsRound(cfg: Config, s: Pm, e: Event)
    requires Inv(s) && StepOk(cfg, s, e)
  {
    RoundEntered(cfg, s, e) == Some(0) && s.epoch.inCommittee && s.rounds.currentRound > 0
  }

  /** Short of a Regulate, a step lowers the round exactly when it wraps to 0 in a committee member above round 0. */
  lemma RoundDropsExactlyWhen(cfg: Config, s: Pm, e: Event)
    requires Inv(s) && StepOk(cfg, s, e) && !e.RegulateNow?
    ensures Step(cfg, s, e).rounds.currentRound < s.rounds.currentRound <==> DropsRound(cfg, s, e)
  {
    hide Inv, StepOk, Step, RoundEntered, ShiftedOne, WrapInt64;
    RoundStep(cfg, s, e);
  }

  /** So between Regulates the current round never decreases while no step wraps. */
  lemma {:induction false} RoundNeverDecreases(cfg: Config, states: seq<Pm>, events: seq<Event>, i: nat, j: nat)
    requires Run(cfg, states, events) && i <= j <= |events| && Quiet(events, i, j)
    requires forall k | i <= k < j ::
               Inv(states[k]) && StepOk(cfg, states[k], events[k]) ==> !DropsRound(cfg, states[k], events[k])
    ensures states[i].rounds.currentRound <= states[j].rounds.currentRound
    decreases j
  {
    hide Inv, Step, StepOk, DropsRound, Advances, PoolOk;
    if i < j {
      RoundNeverDecreases(cfg, states, events, i, j - 1);
      RunKept(cfg, states, events, j - 1);
      assert Next(cfg, states[j - 1], events[j - 1], states[j]);
      RoundDropsExactlyWhen(cfg, states[j - 1], events[j - 1]);
    }
  }

  /** A timeout of the last representable round sends every committee member above round 0 back to round 0. */
  lemma LastRoundDrops(cfg: Config, s: Pm)
    requires Inv(s) && s.epoch.inCommittee && s.rounds.currentRound > 0
    ensures Step(cfg, s, RoundTimeout(U32 - 1)).rounds.currentRound == 0
  {
    hide Inv;
  }

  // ---------------------------------------------------------------- timeouts

  /** The entries made from i up to j. */
  ghost function EntriesOf(cfg: Config, states: seq<Pm>, events: seq<Event>, i: nat, j: nat): (r: seq<Entry>)
    requires i <= j <= |events| < |states|
    ensures |r| <= j - i
  {
    if i == j then []
    else
      var before := EntriesOf(cfg, states, events, i, j - 1);
      if Inv(states[j - 1]) && StepOk(cfg, states[j - 1], events[j - 1])
        && EntryOf(cfg, states[j - 1], events[j - 1]).Some?
      then before + [EntryOf(cfg, states[j - 1], events[j - 1]).value] else before
  }

  lemma EnterSame(base: nat, a: RoundState, b: RoundState, e: Entry)
    requires SameTimer(a, b)
    ensures SameTimer(Enter(base, a, e), Enter(base, b, e))
  {
  }

  /** Between Regulates the timer is what the entries made so far leave. */
  lemma {:induction false} TimerFollowsEntries(cfg: Config, states: seq<Pm>, events: seq<Event>, i: nat, j: nat)
    requires Run(cfg, states, events) && i <= j <= |events| && Quiet(events, i, j)
    ensures SameTimer(states[j].rounds, AfterEntries(cfg.base, states[i].rounds, EntriesOf(cfg, states, events, i, j)))
    decreases j
  {
    hide Inv, Step, StepOk, Advances, PoolOk, EntryOf, Enter;
    if i < j {
      TimerFollowsEntries(cfg, states, events, i, j - 1);
      RunKept(cfg, states, events, j - 1);
      var s, e := states[j - 1], events[j - 1];
      assert Next(cfg, s, e, states[j]);
      RoundStep(cfg, s, e);
      var before := EntriesOf(cfg, states, events, i, j - 1);
      var entry := EntryOf(cfg, s, e);
      if entry.Some? {
        EnterSame(cfg.base, s.rounds, AfterEntries(cfg.base, states[i].rounds, before), entry.value);
        assert (before + [entry.value])[..|before|] == before;
      }
    }
  }

  /** Over any run, from a fresh timer on, up to the next Regulate, the timeout counter is the number of accepted round
      timeouts since the last accepted regular entry, and the interval is base * 2^(max(k,1)-1) whenever that fits in
      63 bits. */
  lemma TimeoutsAreCounted(cfg: Config, states: seq<Pm>, events: seq<Event>, i: nat, j: nat)
    requires Run(cfg, states, events) && i <= j <= |events| && Quiet(events, i, j) && j - i < U64
    requires states[i].rounds.timeoutCounter == 0 && states[i].rounds.interval == cfg.base
    ensures var k := Timeouts(cfg.base, states[i].rounds, 0, EntriesOf(cfg, states, events, i, j));
            && states[j].rounds.timeoutCounter == k
            && (Backoff(cfg.base, k) < I63 ==> states[j].rounds.interval == Backoff(cfg.base, k))
  {
    hide Run, EntriesOf, Timeouts, AfterEntries, Backoff;
    assert |states| == |events| + 1 by { RunLength(cfg, states, events); }
    TimerFollowsEntries(cfg, states, events, i, j);
    CounterCountsTimeouts(cfg.base, states[i].rounds, EntriesOf(cfg, states, events, i, j));
  }

  lemma RunLength(cfg: Config, states: seq<Pm>, events: seq<Event>)
    requires Run(cfg, states, events)
    ensures |states| == |events| + 1
  {
  }

  /** A Regulate of a committee member, when it finds its node, leaves a fresh timer. */
  lemma RegulateFreshens(cfg: Config, s: Pm, next: Option<EpochInfo>)
    requires Found(s.store, s.pool, RegulateQC(s)) && cfg.base < I63
    requires if next.Some? then next.value.inCommittee else s.epoch.inCommittee
    ensures var s' := Regulate(cfg, s, next);
            s'.rounds.timeoutCounter == 0 && s'.rounds.interval == cfg.base
  {
    hide LookupByQC, Found;
    FoundMeans(s.store, s.pool, RegulateQC(s), s.nextRef);
  }

  // ---------------------------------------------------------------- beats

  /** The event is a beat of the local epoch that OnBeat lets through. */
  predicate BeatAccepted(cfg: Config, s: Pm, e: Event) {
    && e.BeatAt? && e.epoch == s.epoch.epoch
    && AcceptsBeat(s.rounds, s.epoch.committee, cfg.me, s.epoch.epoch, e.epoch, e.round)
  }

  /** No beat from i up to j is of a later epoch, for which OnBeat skips the round test. */
  ghost predicate LocalBeats(states: seq<Pm>, events: seq<Event>, i: nat, j: nat)
    requires i <= j <= |events| < |states|
  {
    forall k | i <= k < j && events[k].BeatAt? :: events[k].epoch <= states[k].epoch.epoch
  }

  lemma BeatStep(cfg: Config, s: Pm, e: Event)
    requires Inv(s) && StepOk(cfg, s, e) && !e.RegulateNow? && (e.BeatAt? ==> e.epoch <= s.epoch.epoch)
    ensures s.rounds.lastOnBeatRound <= Step(cfg, s, e).rounds.lastOnBeatRound
    ensures BeatAccepted(cfg, s, e) ==>
              s.rounds.lastOnBeatRound < ToInt32(e.round) && Step(cfg, s, e).rounds.lastOnBeatRound == ToInt32(e.round)
  {
    hide Inv, RoundFollows, LookupByQC;
    if !e.BeatAt? {
      RoundStep(cfg, s, e);
    }
  }

  lemma {:induction false} BeatRoundOnlyGrows(cfg: Config, states: seq<Pm>, events: seq<Event>, i: nat, j: nat)
    requires Run(cfg, states, events) && i <= j <= |events| && Quiet(events, i, j) && LocalBeats(states, events, i, j)
    ensures states[i].rounds.lastOnBeatRound <= states[j].rounds.lastOnBeatRound
    decreases j
  {
    hide Inv, Step, StepOk, Advances, PoolOk;
    if i < j {
      BeatRoundOnlyGrows(cfg, states, events, i, j - 1);
      RunKept(cfg, states, events, j - 1);
      assert Next(cfg, states[j - 1], events[j - 1], states[j]);
      BeatStep(cfg, states[j - 1], events[j - 1]);
    }
  }

  /** Between Regulates the accepted beats of one node have strictly increasing rounds in signed 32-bit order, so in
      plain order for rounds below 2^31. */
  lemma AcceptedBeatsIncrease(cfg: Config, states: seq<Pm>, events: seq<Event>, i: nat, j: nat)
    requires Run(cfg, states, events) && i < j < |events| && Quiet(events, i, j) && LocalBeats(states, events, i, j)
    requires BeatAccepted(cfg, states[i], events[i]) && BeatAccepted(cfg, states[j], events[j])
    ensures ToInt32(events[i].round) < ToInt32(events[j].round)
    ensures events[i].round < I31 && events[j].round < I31 ==> events[i].round < events[j].round
  {
    hide Inv, Step, StepOk, Advances, PoolOk;
    RunKept(cfg, states, events, i);
    RunKept(cfg, states, events, j);
    assert Next(cfg, states[i], events[i], states[i + 1]);
    BeatStep(cfg, states[i], events[i]);
    BeatRoundOnlyGrows(cfg, states, events, i + 1, j);
  }

  /** A stretch of one member's run without Regulates or beats of later epochs, in which the committee is
      `committee`. */
  datatype Stretch = Stretch(cfg: Config, states: seq<Pm>, events: seq<Event>, from: nat, to: nat)

  ghost predicate StretchOf(r: Stretch, committee: seq<PubKey>, member: nat) {
    && Run(r.cfg, r.states, r.events)
    && r.from <= r.to <= |r.events|
    && Quiet(r.events, r.from, r.to) && LocalBeats(r.states, r.events, r.from, r.to)
    && member < |committee| && r.cfg.me == committee[member]
    && forall k | r.from <= k < r.to :: r.states[k].epoch.committee == committee
  }

  /** The members of one committee together make at most one proposal per round between Regulates: two accepted beats
      for one round are the same beat of the same member. */
  lemma AtMostOneProposalPerRound(committee: seq<PubKey>, runs: seq<Stretch>, m1: nat, i: nat, m2: nat, j: nat)
    requires DistinctKeys(committee) && |runs| == |committee| && m1 < |runs| && m2 < |runs|
    requires StretchOf(runs[m1], committee, m1) && StretchOf(runs[m2], committee, m2)
    requires runs[m1].from <= i < runs[m1].to && runs[m2].from <= j < runs[m2].to
    requires BeatAccepted(runs[m1].cfg, runs[m1].states[i], runs[m1].events[i])
    requires BeatAccepted(runs[m2].cfg, runs[m2].states[j], runs[m2].events[j])
    requires runs[m1].events[i].round == runs[m2].events[j].round
    ensures m1 == m2 && i == j
  {
    hide Run;
    OneProposerPerRound(committee, runs[m1].events[i].round);
    assert m1 == m2;
    var r := runs[m1];
    if i < j {
      AcceptedBeatsIncrease(r.cfg, r.states, r.events, i, j);
    } else if j < i {
      AcceptedBeatsIncrease(r.cfg, r.states, r.events, j, i);
    }
  }
}
