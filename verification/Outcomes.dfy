// Where the answers callers get come from: a failure that a caller is told is
// one that a fetch for its own URL was answered with, whoever made it.
module Outcomes {
  import opened Wrappers
  import opened KeyUrl
  import opened KeyCache
  import opened Flights
  import opened Protocol
  import opened FlightSafety
  import opened CacheHonesty
  import opened CacheRuns
  import opened Answers

  type Heard = iset<(string, Reply)>

  ghost predicate OutcomeHeard(heard: Heard, url: string, outcome: Option<Outcome>) {
    outcome.Some? ==> exists reply :: (url, reply) in heard && outcome.value == ReplyOutcome(reply)
  }

  // An answer may be the cache's, a failure may not.
  ghost predicate PhaseHeard(heard: Heard, url: string, phase: Phase) {
    match phase
    case Done(result) => result.Err? ==> OutcomeHeard(heard, url, Some(result))
    case Leading(_, Answered(reply, _)) => (url, reply) in heard
    case Leading(_, Ending(outcome)) => OutcomeHeard(heard, url, outcome)
    case Leading(_, Removed(outcome)) => OutcomeHeard(heard, url, outcome)
    case Leading(_, Waking(outcome, _)) => OutcomeHeard(heard, url, outcome)
    case _ => true
  }

  ghost predicate HeardInv(heard: Heard, s: State) {
    && (forall c :: c in s.callers ==> PhaseHeard(heard, s.callers[c].url, s.callers[c].phase))
    && (forall f :: 0 <= f < |s.flights| ==> OutcomeHeard(heard, s.flights[f].url, s.flights[f].flight.outcome))
  }

  // The answer that arrives in a step, with the URL it was asked for.
  ghost function HeardAt(s: State, step: Step): Heard {
    if step.Receive? && step.caller in s.callers then iset{(s.callers[step.caller].url, step.reply)} else iset{}
  }

  ghost function HeardIn(cfg: Config, s: State, steps: seq<Step>): Heard
    decreases |steps|
  {
    if steps == [] || !Enabled(cfg, s, steps[0]) then iset{}
    else HeardAt(s, steps[0]) + HeardIn(cfg, Next(cfg, s, steps[0]), steps[1..])
  }

  lemma OutcomeStaysHeard(heard: Heard, more: Heard, url: string, outcome: Option<Outcome>)
    requires OutcomeHeard(heard, url, outcome)
    ensures OutcomeHeard(heard + more, url, outcome)
  {
    if outcome.Some? {
      var reply :| (url, reply) in heard && outcome.value == ReplyOutcome(reply);
      assert (url, reply) in heard + more;
    }
  }

  lemma PhaseStaysHeard(heard: Heard, more: Heard, url: string, phase: Phase)
    requires PhaseHeard(heard, url, phase)
    ensures PhaseHeard(heard + more, url, phase)
  {
    hide OutcomeHeard;
    match phase
    case Done(result) => if result.Err? { OutcomeStaysHeard(heard, more, url, Some(result)); }
    case Leading(_, Answered(reply, _)) =>
    case Leading(_, Ending(outcome)) => OutcomeStaysHeard(heard, more, url, outcome);
    case Leading(_, Removed(outcome)) => OutcomeStaysHeard(heard, more, url, outcome);
    case Leading(_, Waking(outcome, _)) => OutcomeStaysHeard(heard, more, url, outcome);
    case _ =>
  }

  lemma InvStays(heard: Heard, more: Heard, s: State)
    requires HeardInv(heard, s)
    ensures HeardInv(heard + more, s)
  {
    hide OutcomeHeard, PhaseHeard;
    forall c | c in s.callers
      ensures PhaseHeard(heard + more, s.callers[c].url, s.callers[c].phase)
    {
      PhaseStaysHeard(heard, more, s.callers[c].url, s.callers[c].phase);
    }
    forall f | 0 <= f < |s.flights|
      ensures OutcomeHeard(heard + more, s.flights[f].url, s.flights[f].flight.outcome)
    {
      OutcomeStaysHeard(heard, more, s.flights[f].url, s.flights[f].flight.outcome);
    }
  }

  // ---- Each step keeps it ------------------------------------------------

  lemma PublishKeepsHeard(heard: Heard, s: State, c: nat)
    requires HeardInv(heard, s) && FlightsInv(s) && LeadsAt(s, c) && StageOf(s, c).Removed?
    ensures HeardInv(heard, AfterPublish(s, c))
  {
    hide OutcomeHeard, FlightsInv;
    LeaderFlight(s, c);
  }

  lemma PollKeepsHeard(heard: Heard, s: State, c: nat, waker: Waker)
    requires HeardInv(heard, s) && FlightsInv(s) && c in s.callers && s.callers[c].phase.Waiting? && s.callers[c].phase.on < |s.flights|
    ensures HeardInv(heard, AfterPoll(s, c, waker))
  {
    hide OutcomeHeard, FlightsInv, AfterPoll;
    WaitsForItsUrl(s, c);
    PollMoves(s, c, waker);
    PollPassesOn(s, c, waker);
  }

  lemma TurnKeepsHeard(heard: Heard, s: State, c: nat)
    requires HeardInv(heard, s) && c in s.callers && s.callers[c].phase.Arrived?
    ensures HeardInv(heard, AfterTurn(s, c))
  {
    hide Lookup, AfterTurn;
    TurnMoves(s, c);
  }

  lemma SettleKeepsHeard(heard: Heard, s: State, c: nat)
    requires HeardInv(heard, s) && LeadsAt(s, c) && StageOf(s, c).Answered?
    ensures HeardInv(heard, AfterSettle(s, c))
  {
    hide Holding, ReplyOutcome, ReplyClaim;
    assert PhaseHeard(heard, s.callers[c].url, s.callers[c].phase);
  }

  lemma WakeKeepsHeard(heard: Heard, s: State, c: nat)
    requires HeardInv(heard, s) && LeadsAt(s, c) && StageOf(s, c).Waking? && StageOf(s, c).wakers != []
    ensures HeardInv(heard, AfterWake(s, c))
  {
    hide OutcomeHeard;
  }

  lemma OtherStepKeepsHeard(cfg: Config, heard: Heard, s: State, step: Step)
    requires HeardInv(heard, s) && Enabled(cfg, s, step) && HeardAt(s, step) <= heard
    requires !step.Settle? && !step.TakeTurn? && !step.PollFlight? && !step.Publish? && !step.Wake?
    ensures HeardInv(heard, Next(cfg, s, step))
  {
    hide Holding, Lookup, Polled, HonestReply, ReplyOutcome;
  }

  lemma StepKeepsHeard(cfg: Config, heard: Heard, s: State, step: Step)
    requires HeardInv(heard, s) && FlightsInv(s) && Enabled(cfg, s, step) && HeardAt(s, step) <= heard
    ensures HeardInv(heard, Next(cfg, s, step))
  {
    hide HeardInv, FlightsInv, AfterTurn, AfterSettle, AfterPoll, AfterWake, AfterPublish, HonestReply;
    match step
    case TakeTurn(c) => TurnKeepsHeard(heard, s, c);
    case Settle(c) => SettleKeepsHeard(heard, s, c);
    case Publish(c) => PublishKeepsHeard(heard, s, c);
    case Wake(c) => WakeKeepsHeard(heard, s, c);
    case PollFlight(c, waker) => PollKeepsHeard(heard, s, c, waker);
    case _ => OtherStepKeepsHeard(cfg, heard, s, step);
  }

  lemma {:induction false} RunKeepsHeard(cfg: Config, heard: Heard, s: State, steps: seq<Step>, t: State)
    requires HeardInv(heard, s) && FlightsInv(s) && Runs(cfg, s, steps, t)
    ensures HeardInv(heard + HeardIn(cfg, s, steps), t)
    decreases |steps|
  {
    hide HeardInv, HeardAt, FlightsInv, Next, Enabled;
    if steps == [] {
      InvStays(heard, HeardIn(cfg, s, steps), s);
    } else {
      var u := Next(cfg, s, steps[0]);
      var more := heard + HeardAt(s, steps[0]);
      InvStays(heard, HeardAt(s, steps[0]), s);
      StepKeepsHeard(cfg, more, s, steps[0]);
      StepKeepsFlights(cfg, s, steps[0]);
      RunKeepsHeard(cfg, more, u, steps[1..], t);
      assert more + HeardIn(cfg, u, steps[1..]) == heard + HeardIn(cfg, s, steps);
    }
  }

  // In every run a caller that is told a failure is told one that a fetch for
  // its own URL was answered with, as that fetch was, and a fetch that has
  // ended with an outcome ended with one it was answered with.
  lemma FailuresAreHeard(cfg: Config, s: State, steps: seq<Step>, t: State, c: nat)
    requires Initial(cfg, s) && Runs(cfg, s, steps, t) && c in t.callers && t.callers[c].phase.Done? && t.callers[c].phase.result.Err?
    ensures (t.callers[c].url, Failed(t.callers[c].phase.result.error)) in HeardIn(cfg, s, steps)
  {
    assert HeardInv(iset{}, s) && FlightsInv(s);
    RunKeepsHeard(cfg, iset{}, s, steps, t);
    assert iset{} + HeardIn(cfg, s, steps) == HeardIn(cfg, s, steps);
    assert PhaseHeard(HeardIn(cfg, s, steps), t.callers[c].url, t.callers[c].phase);
  }

  lemma OutcomesAreHeard(cfg: Config, s: State, steps: seq<Step>, t: State, f: nat)
    requires Initial(cfg, s) && Runs(cfg, s, steps, t) && f < |t.flights| && t.flights[f].flight.outcome.Some?
    ensures exists reply :: (t.flights[f].url, reply) in HeardIn(cfg, s, steps)
              && if reply.Failed? then t.flights[f].flight.outcome.value == Err(reply.failure)
                 else t.flights[f].flight.outcome.value == Ok(Statement(reply.pem, reply.start, reply.end))
  {
    assert HeardInv(iset{}, s) && FlightsInv(s);
    RunKeepsHeard(cfg, iset{}, s, steps, t);
    var url, outcome := t.flights[f].url, t.flights[f].flight.outcome.value;
    var reply :| (url, reply) in iset{} + HeardIn(cfg, s, steps) && outcome == ReplyOutcome(reply);
    assert (url, reply) in HeardIn(cfg, s, steps);
  }

  // ---- Who is not answered -----------------------------------------------

  // The stage of a leader that was cancelled, or of one that was not.
  predicate StageFits(stage: Stage, cancelled: bool) {
    match stage
    case Ending(outcome) => outcome.None? == cancelled
    case Removed(outcome) => outcome.None? == cancelled
    case Waking(outcome, _) => outcome.None? == cancelled
    case _ => !cancelled
  }

  predicate PhaseFits(phase: Phase, cancelled: bool) {
    match phase
    case Gone => cancelled
    case Leading(_, stage) => StageFits(stage, cancelled)
    case _ => !cancelled
  }

  ghost predicate CancelInv(s: State, cancelled: set<nat>) {
    && cancelled <= s.callers.Keys
    && (forall c :: c in s.callers ==> PhaseFits(s.callers[c].phase, c in cancelled))
    && (forall f :: 0 <= f < |s.flights| && Abandoned(s, f) ==> s.flights[f].leader in cancelled)
  }

  function CancelledAt(step: Step): set<nat> {
    if step.Cancel? then {step.caller} else {}
  }

  function CancelledIn(steps: seq<Step>): set<nat> {
    if steps == [] then {} else CancelledAt(steps[0]) + CancelledIn(steps[1..])
  }

  lemma {:induction false} CancelledIsAStep(steps: seq<Step>, c: nat)
    ensures c in CancelledIn(steps) <==> exists i :: 0 <= i < |steps| && steps[i] == Cancel(c)
  {
    if steps != [] {
      CancelledIsAStep(steps[1..], c);
      assert forall i :: 0 < i < |steps| ==> steps[i] == steps[1..][i - 1];
      if steps[0] != Cancel(c) && exists i :: 0 <= i < |steps| && steps[i] == Cancel(c) {
        var i :| 0 <= i < |steps| && steps[i] == Cancel(c);
        assert steps[1..][i - 1] == Cancel(c);
      }
      if c in CancelledIn(steps[1..]) {
        var i :| 0 <= i < |steps| - 1 && steps[1..][i] == Cancel(c);
        assert steps[i + 1] == Cancel(c);
      }
    }
  }

  lemma WakeKeepsCancelled(s: State, c: nat, cancelled: set<nat>)
    requires CancelInv(s, cancelled) && LeadsAt(s, c) && StageOf(s, c).Waking? && StageOf(s, c).wakers != []
    ensures CancelInv(AfterWake(s, c), cancelled)
  {
    hide StageFits;
    var t := AfterWake(s, c);
    assert StageFits(StageOf(s, c), c in cancelled);
    forall d | d in t.callers
      ensures PhaseFits(t.callers[d].phase, d in cancelled)
    {
      WakeMoves(s, c, d);
      if d == c {
        WakingFits(StageOf(s, c), t.callers[c].phase.stage, c in cancelled);
      }
    }
    assert forall f :: 0 <= f < |s.flights| && Abandoned(t, f) ==> Abandoned(s, f);
  }

  lemma WakingFits(stage: Stage, after: Stage, cancelled: bool)
    requires stage.Waking? && after.Waking? && after.published == stage.published && StageFits(stage, cancelled)
    ensures StageFits(after, cancelled)
  {
  }

  lemma PublishKeepsCancelled(s: State, c: nat, cancelled: set<nat>)
    requires CancelInv(s, cancelled) && FlightsInv(s) && LeadsAt(s, c) && StageOf(s, c).Removed?
    ensures CancelInv(AfterPublish(s, c), cancelled)
  {
    hide FlightsInv;
    LeaderFlight(s, c);
    assert PhaseFits(s.callers[c].phase, c in cancelled);
    var t := AfterPublish(s, c);
    forall f | 0 <= f < |t.flights| && Abandoned(t, f)
      ensures t.flights[f].leader in cancelled
    {
      assert f != s.callers[c].phase.flight ==> Abandoned(s, f);
    }
  }

  lemma PollKeepsCancelled(s: State, c: nat, waker: Waker, cancelled: set<nat>)
    requires CancelInv(s, cancelled) && c in s.callers && s.callers[c].phase.Waiting? && s.callers[c].phase.on < |s.flights|
    ensures CancelInv(AfterPoll(s, c, waker), cancelled)
  {
    hide StageFits, Without;
    var t := AfterPoll(s, c, waker);
    assert PhaseFits(s.callers[c].phase, c in cancelled);
    assert forall f :: 0 <= f < |t.flights| && Abandoned(t, f) ==> Abandoned(s, f);
  }

  lemma TurnKeepsCancelled(s: State, c: nat, cancelled: set<nat>)
    requires CancelInv(s, cancelled) && c in s.callers && s.callers[c].phase.Arrived?
    ensures CancelInv(AfterTurn(s, c), cancelled)
  {
    hide Lookup;
    var t := AfterTurn(s, c);
    assert PhaseFits(s.callers[c].phase, c in cancelled);
    assert forall f :: 0 <= f < |t.flights| && Abandoned(t, f) ==> f < |s.flights| && Abandoned(s, f);
  }

  lemma OtherStepKeepsCancelled(cfg: Config, s: State, step: Step, cancelled: set<nat>)
    requires CancelInv(s, cancelled) && Enabled(cfg, s, step)
    requires !step.TakeTurn? && !step.PollFlight? && !step.Publish? && !step.Wake?
    ensures CancelInv(Next(cfg, s, step), cancelled + CancelledAt(step))
  {
    hide Holding, Lookup, Polled, HonestReply;
    var t := Next(cfg, s, step);
    assert forall f :: 0 <= f < |t.flights| && Abandoned(t, f) ==> Abandoned(s, f);
  }

  lemma StepKeepsCancelled(cfg: Config, s: State, step: Step, cancelled: set<nat>)
    requires CancelInv(s, cancelled) && FlightsInv(s) && Enabled(cfg, s, step)
    ensures CancelInv(Next(cfg, s, step), cancelled + CancelledAt(step))
  {
    hide CancelInv, FlightsInv, AfterTurn, AfterSettle, AfterPoll, AfterWake, AfterPublish, HonestReply;
    assert !step.Cancel? ==> cancelled + CancelledAt(step) == cancelled;
    match step
    case TakeTurn(c) => TurnKeepsCancelled(s, c, cancelled);
    case Publish(c) => PublishKeepsCancelled(s, c, cancelled);
    case Wake(c) => WakeKeepsCancelled(s, c, cancelled);
    case PollFlight(c, waker) => PollKeepsCancelled(s, c, waker, cancelled);
    case _ => OtherStepKeepsCancelled(cfg, s, step, cancelled);
  }

  lemma {:induction false} RunKeepsCancelled(cfg: Config, s: State, steps: seq<Step>, t: State, cancelled: set<nat>)
    requires CancelInv(s, cancelled) && FlightsInv(s) && Runs(cfg, s, steps, t)
    ensures CancelInv(t, cancelled + CancelledIn(steps))
    decreases |steps|
  {
    hide CancelInv, FlightsInv, Next, Enabled;
    if steps == [] {
      assert cancelled + CancelledIn(steps) == cancelled;
    } else {
      StepKeepsCancelled(cfg, s, steps[0], cancelled);
      StepKeepsFlights(cfg, s, steps[0]);
      RunKeepsCancelled(cfg, Next(cfg, s, steps[0]), steps[1..], t, cancelled + CancelledAt(steps[0]));
      assert cancelled + CancelledAt(steps[0]) + CancelledIn(steps[1..]) == cancelled + CancelledIn(steps);
    }
  }

  // In every run a caller that was cancelled is never answered, one that was
  // not never goes without, and a fetch ends without an outcome only where
  // its leader was cancelled, so that those waiting make it again for no
  // other reason.
  lemma OnlyTheCancelledGo(cfg: Config, s: State, steps: seq<Step>, t: State, c: nat)
    requires Initial(cfg, s) && Runs(cfg, s, steps, t) && c in t.callers
    ensures t.callers[c].phase.Gone? ==> exists i :: 0 <= i < |steps| && steps[i] == Cancel(c)
    ensures t.callers[c].phase.Done? ==> forall i :: 0 <= i < |steps| ==> steps[i] != Cancel(c)
    ensures forall f :: 0 <= f < |t.flights| && Abandoned(t, f) ==>
              exists i :: 0 <= i < |steps| && steps[i] == Cancel(t.flights[f].leader)
  {
    assert CancelInv(s, {}) && FlightsInv(s);
    RunKeepsCancelled(cfg, s, steps, t, {});
    assert {} + CancelledIn(steps) == CancelledIn(steps);
    assert PhaseFits(t.callers[c].phase, c in CancelledIn(steps));
    CancelledIsAStep(steps, c);
    forall f | 0 <= f < |t.flights| && Abandoned(t, f)
      ensures exists i :: 0 <= i < |steps| && steps[i] == Cancel(t.flights[f].leader)
    {
      CancelledIsAStep(steps, t.flights[f].leader);
    }
  }

  // Waking one waker changes nothing for a caller that did not leave it, and
  // for one that did only that it has been woken.
  lemma WakingDisturbsNobodyElse(s: State, c: nat, d: nat)
    requires LeadsAt(s, c) && StageOf(s, c).Waking? && StageOf(s, c).wakers != [] && d in s.callers && d != c
    ensures var waker := StageOf(s, c).wakers[0];
            var t := AfterWake(s, c);
            && d in t.callers
            && if s.callers[d].phase.Waiting? && s.callers[d].phase.waker == Some(waker)
               then t.callers[d].phase == Waiting(s.callers[d].phase.on, Some(waker), true) && t.callers[d].url == s.callers[d].url
               else t.callers[d] == s.callers[d]
  {
    WakeMoves(s, c, d);
  }

  // A caller that takes its turn is answered there and then exactly where a
  // key held for its end point covers its minute, and does so by the
  // creator's own statement where the caller found the minute recent, fetch
  // or no fetch under way. It is told what is stated of such a key.
  lemma ServedExactlyWhereHeld(s: State, c: nat)
    requires c in s.callers && s.callers[c].phase.Arrived?
    ensures var caller := s.callers[c];
            var list := ListAt(s.store.keys, EndPointOf(caller.url));
            var minute := MinuteOf(caller.url);
            var phase := AfterTurn(s, c).callers[c].phase;
            && (phase.Done? <==>
                  minute.Some? && exists key :: key in list && key.first <= minute.value <= key.last && (key.explicit || !caller.recent))
            && (phase.Done? ==>
                  exists key :: key in list && key.first <= minute.value <= key.last && (key.explicit || !caller.recent)
                                && phase == Done(Ok(key.Stated())))
  {
    hide EndPointOf, MinuteOf, FindKey;
    var caller := s.callers[c];
    var list := ListAt(s.store.keys, EndPointOf(caller.url));
    if MinuteOf(caller.url).Some? {
      FindKeyFinds(list, MinuteOf(caller.url).value, caller.recent);
    }
  }
}
