// What every step of the protocol keeps about fetches under way: one live
// leader each, no waiter forgotten, and no URL fetched twice at once.
module FlightSafety {
  import opened Wrappers
  import opened KeyCache
  import opened Flights
  import opened Protocol

  predicate BeforeRemoval(stage: Stage) {
    stage.Led? || stage.Asking? || stage.Answered? || stage.Ending?
  }

  predicate Owns(s: State, c: nat, f: nat) {
    c in s.callers && s.callers[c].phase.Leading? && s.callers[c].phase.flight == f
  }

  // The leader of the flight has taken the waker and has yet to wake it.
  predicate Due(s: State, f: nat, waker: Waker)
    requires f < |s.flights|
  {
    var c := s.flights[f].leader;
    Owns(s, c, f) && s.callers[c].phase.stage.Waking? && waker in s.callers[c].phase.stage.wakers
  }

  // A waiter's waker is with its flight until the flight ends, and from then
  // on it has been woken or is about to be.
  predicate NotForgotten(s: State, f: nat, waker: Waker, woken: bool)
    requires f < |s.flights|
  {
    if s.flights[f].flight.finished then woken || Due(s, f, waker) else waker in s.flights[f].flight.wakers
  }

  predicate Abandoned(s: State, f: nat) {
    f < |s.flights| && s.flights[f].flight.finished && s.flights[f].flight.outcome.None?
  }

  ghost predicate CallerOk(s: State, c: nat)
    requires c in s.callers
  {
    var caller := s.callers[c];
    && caller.rounds == |caller.tried|
    && (forall f :: f in caller.tried ==> Abandoned(s, f) && s.flights[f].url == caller.url)
    && match caller.phase
       case Leading(f, stage) =>
         && f < |s.flights| && s.flights[f].leader == c && s.flights[f].url == caller.url
         && (s.flights[f].flight.finished <==> stage.Waking?)
         && (stage.Waking? ==> s.flights[f].flight.outcome == stage.published)
       case Waiting(f, waker, woken) =>
         && f < |s.flights| && s.flights[f].url == caller.url && f !in caller.tried
         && (waker.Some? ==> NotForgotten(s, f, waker.value, woken))
       case _ => true
  }

  ghost predicate FlightOk(s: State, f: nat)
    requires f < |s.flights|
  {
    if s.flights[f].flight.finished then s.flights[f].flight.wakers == [] else Owns(s, s.flights[f].leader, f)
  }

  // The entry for a URL belongs to the live leader of a fetch for that URL.
  ghost predicate EntryOk(s: State, url: string)
    requires url in s.inFlight
  {
    var f := s.inFlight[url];
    && f < |s.flights| && s.flights[f].url == url
    && Owns(s, s.flights[f].leader, f) && BeforeRemoval(s.callers[s.flights[f].leader].phase.stage)
  }

  ghost predicate FlightsInv(s: State) {
    && (forall c :: c in s.callers ==> CallerOk(s, c))
    && (forall f :: 0 <= f < |s.flights| ==> FlightOk(s, f))
    && (forall url :: url in s.inFlight ==> EntryOk(s, url))
  }

  // Until it removes the entry, a leader's own flight is the one entered for
  // its URL.
  ghost predicate EnteredOk(s: State, c: nat)
    requires c in s.callers
  {
    var caller := s.callers[c];
    caller.phase.Leading? && BeforeRemoval(caller.phase.stage) ==>
      caller.url in s.inFlight && s.inFlight[caller.url] == caller.phase.flight
  }

  ghost predicate EnteredInv(s: State, url: string) {
    forall c :: c in s.callers && s.callers[c].url == url ==> EnteredOk(s, c)
  }

  ghost predicate KeepsEntered(s: State, t: State) {
    forall url :: EnteredInv(s, url) ==> EnteredInv(t, url)
  }

  // A caller leads a fetch for the URL and has yet to remove its entry.
  predicate UnderWay(s: State, url: string, c: nat) {
    LeadsAt(s, c) && s.callers[c].url == url && BeforeRemoval(StageOf(s, c))
  }

  ghost predicate Idle(s: State, url: string) {
    forall c :: !UnderWay(s, url, c)
  }

  // ---- One lemma per step ------------------------------------------------

  // A step that changes only where one caller stands.
  lemma CallerMoves(s: State, t: State, c: nat)
    requires FlightsInv(s) && c in s.callers && t.callers.Keys == s.callers.Keys
    requires forall d :: d in s.callers && d != c ==> t.callers[d] == s.callers[d]
    requires t.flights == s.flights && t.inFlight == s.inFlight
    requires CallerOk(t, c)
    requires forall f :: 0 <= f < |s.flights| && s.flights[f].leader == c && Owns(s, c, f) ==>
               Owns(t, c, f)
               && (BeforeRemoval(s.callers[c].phase.stage) ==> BeforeRemoval(t.callers[c].phase.stage))
               && !s.callers[c].phase.stage.Waking?
    ensures FlightsInv(t)
  {
    forall d | d in t.callers
      ensures CallerOk(t, d)
    {
      if d != c {
        assert CallerOk(s, d);
        assert CallerOk(s, c);
      }
    }
    forall f | 0 <= f < |t.flights|
      ensures FlightOk(t, f)
    {
      assert FlightOk(s, f);
    }
    forall url | url in t.inFlight
      ensures EntryOk(t, url)
    {
      assert EntryOk(s, url);
    }
  }

  lemma LeadingMoves(s: State, c: nat)
    requires c in s.callers && AfterTurn(s, c).callers[c].phase.Leading? && s.callers[c].phase.Arrived?
    ensures var t := AfterTurn(s, c);
            && t.flights == s.flights + [Started(NEW_FLIGHT, s.callers[c].url, c)]
            && t.callers == s.callers[c := s.callers[c].(phase := Leading(|s.flights|, Led))]
  {
    hide Lookup;
  }

  lemma LeadingKeepsCaller(s: State, c: nat, d: nat)
    requires FlightsInv(s) && c in s.callers && s.callers[c].phase.Arrived? && d in s.callers
    requires AfterTurn(s, c).callers[c].phase.Leading?
    ensures CallerOk(AfterTurn(s, c), d)
  {
    hide AfterTurn;
    LeadingMoves(s, c);
    assert CallerOk(s, d);
  }

  lemma LeadingKeepsEntered(s: State, c: nat, d: nat)
    requires FlightsInv(s) && c in s.callers && s.callers[c].phase.Arrived? && d in s.callers
    requires AfterTurn(s, c).callers[c].phase.Leading?
    requires EnteredOk(s, d)
    ensures EnteredOk(AfterTurn(s, c), d)
  {
    hide Lookup, CallerOk;
  }

  lemma LeadingKeepsFlights(s: State, c: nat)
    requires FlightsInv(s) && c in s.callers && s.callers[c].phase.Arrived?
    requires AfterTurn(s, c).callers[c].phase.Leading?
    ensures FlightsInv(AfterTurn(s, c))
    ensures KeepsEntered(s, AfterTurn(s, c))
  {
    hide CallerOk, EnteredOk, Lookup;
    var t := AfterTurn(s, c);
    forall d | d in t.callers
      ensures CallerOk(t, d)
    {
      LeadingKeepsCaller(s, c, d);
    }
    forall url, d | EnteredInv(s, url) && d in t.callers && t.callers[d].url == url
      ensures EnteredOk(t, d)
    {
      LeadingKeepsEntered(s, c, d);
    }
    forall f | 0 <= f < |t.flights|
      ensures FlightOk(t, f)
    {
      assert f < |s.flights| ==> FlightOk(s, f);
    }
    forall u | u in t.inFlight
      ensures EntryOk(t, u)
    {
      assert u != s.callers[c].url ==> EntryOk(s, u);
    }
  }

  lemma TurnKeepsFlights(s: State, c: nat)
    requires FlightsInv(s) && c in s.callers && s.callers[c].phase.Arrived?
    ensures FlightsInv(AfterTurn(s, c))
    ensures KeepsEntered(s, AfterTurn(s, c))
  {
    hide Lookup;
    var t := AfterTurn(s, c);
    var url := s.callers[c].url;
    assert CallerOk(s, c);
    if t.callers[c].phase.Leading? {
      LeadingKeepsFlights(s, c);
    } else {
      if t.callers[c].phase.Waiting? {
        assert EntryOk(s, url);
        assert CallerOk(s, s.flights[s.inFlight[url]].leader);
      }
      CallerMoves(s, t, c);
      EnteredStays(s, t, c);
    }
  }

  // A step after which the caller leads no flight it did not lead before.
  lemma EnteredStays(s: State, t: State, c: nat)
    requires c in s.callers && t.callers.Keys == s.callers.Keys && t.inFlight == s.inFlight
    requires forall d :: d in s.callers && d != c ==> t.callers[d] == s.callers[d]
    requires t.callers[c].url == s.callers[c].url
    requires t.callers[c].phase.Leading? && BeforeRemoval(t.callers[c].phase.stage) ==>
               Owns(s, c, t.callers[c].phase.flight) && BeforeRemoval(s.callers[c].phase.stage)
    ensures KeepsEntered(s, t)
  {
    forall url, d | EnteredInv(s, url) && d in t.callers && t.callers[d].url == url
      ensures EnteredOk(t, d)
    {
      assert EnteredOk(s, d);
    }
  }

  lemma StageMoves(s: State, t: State, c: nat, stage: Stage)
    requires FlightsInv(s) && LeadsAt(s, c) && BeforeRemoval(StageOf(s, c)) && BeforeRemoval(stage)
    requires t.callers == WithStage(s, c, stage).callers && t.flights == s.flights && t.inFlight == s.inFlight
    ensures FlightsInv(t)
    ensures KeepsEntered(s, t)
  {
    assert CallerOk(s, c);
    CallerMoves(s, t, c);
    EnteredStays(s, t, c);
  }

  lemma RemoveKeepsEntered(s: State, c: nat, t: State, url: string)
    requires FlightsInv(s) && EnteredInv(s, url) && LeadsAt(s, c) && StageOf(s, c).Ending?
    requires t == WithStage(s, c, Removed(StageOf(s, c).outcome)).(inFlight := s.inFlight - {s.callers[c].url})
    ensures EnteredInv(t, url)
  {
    forall d | d in t.callers && t.callers[d].url == url
      ensures EnteredOk(t, d)
    {
      assert EnteredOk(s, d) && CallerOk(s, d);
      assert s.callers[c].url == url ==> EnteredOk(s, c);
    }
  }

  lemma LeaderFlight(s: State, c: nat)
    requires FlightsInv(s) && LeadsAt(s, c)
    ensures var started := s.flights[s.callers[c].phase.flight];
            started.leader == c && started.url == s.callers[c].url && (started.flight.finished <==> StageOf(s, c).Waking?)
  {
    assert CallerOk(s, c);
  }

  lemma RemoveKeepsCaller(s: State, c: nat, t: State, d: nat)
    requires FlightsInv(s) && LeadsAt(s, c) && StageOf(s, c).Ending? && d in s.callers
    requires t == WithStage(s, c, Removed(StageOf(s, c).outcome)).(inFlight := s.inFlight - {s.callers[c].url})
    ensures CallerOk(t, d)
  {
    assert CallerOk(s, c) && CallerOk(s, d);
  }

  lemma RemoveKeepsFlights(s: State, c: nat, t: State)
    requires FlightsInv(s) && LeadsAt(s, c) && StageOf(s, c).Ending?
    requires t == WithStage(s, c, Removed(StageOf(s, c).outcome)).(inFlight := s.inFlight - {s.callers[c].url})
    ensures FlightsInv(t)
    ensures KeepsEntered(s, t)
  {
    hide CallerOk;
    LeaderFlight(s, c);
    forall d | d in t.callers
      ensures CallerOk(t, d)
    {
      RemoveKeepsCaller(s, c, t, d);
    }
    forall f | 0 <= f < |t.flights|
      ensures FlightOk(t, f)
    {
      assert FlightOk(s, f);
    }
    forall u | u in t.inFlight
      ensures EntryOk(t, u)
    {
      assert EntryOk(s, u);
    }
    forall url | EnteredInv(s, url)
      ensures EnteredInv(t, url)
    {
      RemoveKeepsEntered(s, c, t, url);
    }
  }

  lemma PublishKeepsCaller(s: State, c: nat, d: nat)
    requires FlightsInv(s) && LeadsAt(s, c) && StageOf(s, c).Removed? && d in s.callers
    ensures CallerOk(AfterPublish(s, c), d)
  {
    assert CallerOk(s, c) && CallerOk(s, d);
  }

  lemma PublishKeepsFlights(s: State, c: nat)
    requires FlightsInv(s) && LeadsAt(s, c) && StageOf(s, c).Removed?
    ensures FlightsInv(AfterPublish(s, c))
    ensures KeepsEntered(s, AfterPublish(s, c))
  {
    hide CallerOk;
    var t := AfterPublish(s, c);
    forall d | d in t.callers
      ensures CallerOk(t, d)
    {
      PublishKeepsCaller(s, c, d);
    }
    forall f | 0 <= f < |t.flights|
      ensures FlightOk(t, f)
    {
      assert FlightOk(s, f);
    }
    forall u | u in t.inFlight
      ensures EntryOk(t, u)
    {
      assert EntryOk(s, u);
    }
    EnteredStays(s, t, c);
  }

  lemma WakeMoves(s: State, c: nat, d: nat)
    requires LeadsAt(s, c) && StageOf(s, c).Waking? && StageOf(s, c).wakers != [] && d in s.callers
    ensures var t := AfterWake(s, c);
            var Waking(published, wakers) := StageOf(s, c);
            && t.flights == s.flights && t.inFlight == s.inFlight && t.callers.Keys == s.callers.Keys
            && t.callers[d] == if d == c then s.callers[c].(phase := Leading(s.callers[c].phase.flight, Waking(published, wakers[1..])))
                               else Woken(s.callers[d], wakers[0])
  {
  }

  lemma WakeKeepsCaller(s: State, c: nat, d: nat)
    requires FlightsInv(s) && LeadsAt(s, c) && StageOf(s, c).Waking? && StageOf(s, c).wakers != [] && d in s.callers
    ensures CallerOk(AfterWake(s, c), d)
  {
    hide AfterWake;
    var wakers := StageOf(s, c).wakers;
    WakeMoves(s, c, d);
    WakeMoves(s, c, c);
    var phase := s.callers[d].phase;
    if phase.Waiting? && phase.on < |s.flights| && s.flights[phase.on].leader in s.callers {
      WakeMoves(s, c, s.flights[phase.on].leader);
    }
    assert CallerOk(s, c) && CallerOk(s, d);
    assert forall w :: w in wakers ==> w == wakers[0] || w in wakers[1..];
  }

  lemma WakeKeepsFlights(s: State, c: nat)
    requires FlightsInv(s) && LeadsAt(s, c) && StageOf(s, c).Waking? && StageOf(s, c).wakers != []
    ensures FlightsInv(AfterWake(s, c))
    ensures KeepsEntered(s, AfterWake(s, c))
  {
    hide CallerOk;
    var t := AfterWake(s, c);
    forall d | d in t.callers
      ensures CallerOk(t, d)
    {
      WakeKeepsCaller(s, c, d);
    }
    forall f | 0 <= f < |t.flights|
      ensures FlightOk(t, f)
    {
      assert FlightOk(s, f);
    }
    forall u | u in t.inFlight
      ensures EntryOk(t, u)
    {
      assert EntryOk(s, u);
    }
    forall url, d | EnteredInv(s, url) && d in t.callers && t.callers[d].url == url
      ensures EnteredOk(t, d)
    {
      assert EnteredOk(s, d);
    }
  }

  lemma ReturnKeepsCaller(s: State, c: nat, t: State, d: nat)
    requires FlightsInv(s) && LeadsAt(s, c) && StageOf(s, c).Waking? && StageOf(s, c).wakers == [] && d in s.callers
    requires t == WithPhase(s, c, if StageOf(s, c).published.Some? then Done(StageOf(s, c).published.value) else Gone)
    ensures CallerOk(t, d)
  {
    assert CallerOk(s, c) && CallerOk(s, d);
  }

  lemma ReturnKeepsEntry(s: State, c: nat, t: State, url: string)
    requires FlightsInv(s) && LeadsAt(s, c) && StageOf(s, c).Waking? && url in s.inFlight
    requires t.flights == s.flights && t.inFlight == s.inFlight && t.callers.Keys == s.callers.Keys
    requires forall d :: d in s.callers && d != c ==> t.callers[d] == s.callers[d]
    ensures EntryOk(t, url)
  {
    hide CallerOk;
    assert EntryOk(s, url);
  }

  lemma ReturnKeepsFlight(s: State, c: nat, t: State, f: nat)
    requires FlightsInv(s) && LeadsAt(s, c) && StageOf(s, c).Waking? && f < |s.flights|
    requires t.flights == s.flights && t.callers.Keys == s.callers.Keys
    requires forall d :: d in s.callers && d != c ==> t.callers[d] == s.callers[d]
    ensures FlightOk(t, f)
  {
    hide CallerOk;
    LeaderFlight(s, c);
    assert FlightOk(s, f);
  }

  lemma ReturnKeepsFlights(s: State, c: nat, t: State)
    requires FlightsInv(s) && LeadsAt(s, c) && StageOf(s, c).Waking? && StageOf(s, c).wakers == []
    requires t == WithPhase(s, c, if StageOf(s, c).published.Some? then Done(StageOf(s, c).published.value) else Gone)
    ensures FlightsInv(t)
    ensures KeepsEntered(s, t)
  {
    hide CallerOk, FlightOk, EntryOk, EnteredInv;
    forall d | d in t.callers
      ensures CallerOk(t, d)
    {
      ReturnKeepsCaller(s, c, t, d);
    }
    forall f | 0 <= f < |t.flights|
      ensures FlightOk(t, f)
    {
      ReturnKeepsFlight(s, c, t, f);
    }
    forall u | u in t.inFlight
      ensures EntryOk(t, u)
    {
      ReturnKeepsEntry(s, c, t, u);
    }
    EnteredStays(s, t, c);
  }

  lemma PendingKeepsCaller(s: State, c: nat, waker: Waker, d: nat)
    requires FlightsInv(s) && c in s.callers && s.callers[c].phase.Waiting? && s.callers[c].phase.on < |s.flights|
    requires !s.flights[s.callers[c].phase.on].flight.finished && d in s.callers
    ensures CallerOk(AfterPoll(s, c, waker), d)
  {
    assert CallerOk(s, d) && CallerOk(s, c);
  }

  lemma PendingKeepsFlights(s: State, c: nat, waker: Waker)
    requires FlightsInv(s) && c in s.callers && s.callers[c].phase.Waiting? && s.callers[c].phase.on < |s.flights|
    requires !s.flights[s.callers[c].phase.on].flight.finished
    ensures FlightsInv(AfterPoll(s, c, waker))
  {
    hide CallerOk;
    var t := AfterPoll(s, c, waker);
    forall d | d in t.callers
      ensures CallerOk(t, d)
    {
      PendingKeepsCaller(s, c, waker, d);
    }
    forall f | 0 <= f < |t.flights|
      ensures FlightOk(t, f)
    {
      assert FlightOk(s, f);
    }
    forall u | u in t.inFlight
      ensures EntryOk(t, u)
    {
      assert EntryOk(s, u);
    }
  }

  lemma PollKeepsFlights(s: State, c: nat, waker: Waker)
    requires FlightsInv(s) && c in s.callers && s.callers[c].phase.Waiting? && s.callers[c].phase.on < |s.flights|
    ensures FlightsInv(AfterPoll(s, c, waker))
    ensures KeepsEntered(s, AfterPoll(s, c, waker))
  {
    hide FlightsInv;
    var t := AfterPoll(s, c, waker);
    EnteredStays(s, t, c);
    if s.flights[s.callers[c].phase.on].flight.finished {
      ReadyKeepsCaller(s, c, waker);
      CallerMoves(s, t, c);
    } else {
      PendingKeepsFlights(s, c, waker);
    }
  }

  lemma ReadyKeepsCaller(s: State, c: nat, waker: Waker)
    requires FlightsInv(s) && c in s.callers && s.callers[c].phase.Waiting? && s.callers[c].phase.on < |s.flights|
    requires s.flights[s.callers[c].phase.on].flight.finished
    ensures CallerOk(AfterPoll(s, c, waker), c)
  {
    assert CallerOk(s, c);
  }

  lemma CancelKeepsFlights(s: State, c: nat)
    requires FlightsInv(s) && c in s.callers
    requires var phase := s.callers[c].phase;
             phase.Arrived? || phase.Waiting? || (phase.Leading? && phase.stage.Asking?)
    ensures FlightsInv(AfterCancel(s, c))
    ensures KeepsEntered(s, AfterCancel(s, c))
  {
    assert CallerOk(s, c);
    CallerMoves(s, AfterCancel(s, c), c);
    EnteredStays(s, AfterCancel(s, c), c);
  }

  // A step that moves no caller and ends no flight.
  lemma OthersKeepFlights(s: State, t: State)
    requires FlightsInv(s) && t.callers == s.callers && t.flights == s.flights
    requires t.inFlight == s.inFlight || t.inFlight == map[]
    ensures FlightsInv(t)
    ensures t.inFlight == s.inFlight ==> KeepsEntered(s, t)
  {
    forall d | d in t.callers
      ensures CallerOk(t, d)
    {
      assert CallerOk(s, d);
      assert EnteredOk(s, d) && t.inFlight == s.inFlight ==> EnteredOk(t, d);
    }
    forall f | 0 <= f < |t.flights|
      ensures FlightOk(t, f)
    {
      assert FlightOk(s, f);
    }
    forall u | u in t.inFlight
      ensures EntryOk(t, u)
    {
      assert EntryOk(s, u);
    }
  }

  lemma IdleIsEntered(s: State, t: State, url: string)
    requires FlightsInv(s) && t.callers == s.callers && Idle(s, url)
    ensures EnteredInv(t, url)
  {
    forall c | c in t.callers && t.callers[c].url == url
      ensures EnteredOk(t, c)
    {
      assert CallerOk(s, c) && !UnderWay(s, url, c);
    }
  }

  lemma CallKeepsFlights(s: State, c: nat, url: string)
    requires FlightsInv(s) && c !in s.callers
    ensures FlightsInv(AfterCall(s, c, url))
    ensures KeepsEntered(s, AfterCall(s, c, url))
  {
    var t := AfterCall(s, c, url);
    forall d | d in t.callers
      ensures CallerOk(t, d)
      ensures d == c || EnteredOk(s, d) ==> EnteredOk(t, d)
    {
      if d != c {
        assert CallerOk(s, d);
      }
    }
    forall f | 0 <= f < |t.flights|
      ensures FlightOk(t, f)
    {
      assert FlightOk(s, f);
    }
    forall u | u in t.inFlight
      ensures EntryOk(t, u)
    {
      assert EntryOk(s, u);
    }
  }

  lemma StepKeepsFlights(cfg: Config, s: State, step: Step)
    requires FlightsInv(s) && Enabled(cfg, s, step)
    ensures FlightsInv(Next(cfg, s, step))
    ensures !step.ClearCache? ==> KeepsEntered(s, Next(cfg, s, step))
    ensures step.ClearCache? ==> forall url :: Idle(s, url) ==> EnteredInv(Next(cfg, s, step), url)
  {
    hide FlightsInv, EnteredInv, Idle, AfterCall, AfterTurn, AfterPublish, AfterWake, AfterPoll, AfterCancel, Holding, HonestReply;
    var t := Next(cfg, s, step);
    match step
    case Call(c, url) => CallKeepsFlights(s, c, url);
    case TakeTurn(c) => TurnKeepsFlights(s, c);
    case Send(c) => StageMoves(s, t, c, Asking);
    case Receive(c, reply) => StageMoves(s, t, c, Answered(reply, s.now));
    case Settle(c) => StageMoves(s, t, c, Ending(Some(ReplyOutcome(StageOf(s, c).reply))));
    case RemoveEntry(c) => RemoveKeepsFlights(s, c, t);
    case Publish(c) => PublishKeepsFlights(s, c);
    case Wake(c) => WakeKeepsFlights(s, c);
    case Return(c) => ReturnKeepsFlights(s, c, t);
    case PollFlight(c, waker) => PollKeepsFlights(s, c, waker);
    case Cancel(c) => CancelKeepsFlights(s, c);
    case ClearCache =>
      OthersKeepFlights(s, t);
      forall url | Idle(s, url)
        ensures EnteredInv(t, url)
      {
        IdleIsEntered(s, t, url);
      }
    case Tick(_, _) => OthersKeepFlights(s, t);
    case Append(_, _) => OthersKeepFlights(s, t);
  }

  lemma {:induction false} RunKeepsFlights(cfg: Config, s: State, steps: seq<Step>, t: State)
    requires FlightsInv(s) && Runs(cfg, s, steps, t)
    ensures FlightsInv(t)
    decreases |steps|
  {
    hide FlightsInv, Next, Enabled;
    if steps != [] {
      StepKeepsFlights(cfg, s, steps[0]);
      RunKeepsFlights(cfg, Next(cfg, s, steps[0]), steps[1..], t);
    }
  }

  // No clear of the run comes while a fetch for the URL is under way.
  ghost predicate ClearedIdle(cfg: Config, s: State, steps: seq<Step>, url: string)
    decreases |steps|
  {
    steps != [] ==>
      && Enabled(cfg, s, steps[0]) && (steps[0].ClearCache? ==> Idle(s, url))
      && ClearedIdle(cfg, Next(cfg, s, steps[0]), steps[1..], url)
  }

  lemma {:induction false} RunKeepsEntered(cfg: Config, s: State, steps: seq<Step>, t: State, url: string)
    requires FlightsInv(s) && EnteredInv(s, url) && Runs(cfg, s, steps, t) && ClearedIdle(cfg, s, steps, url)
    ensures EnteredInv(t, url)
    decreases |steps|
  {
    hide FlightsInv, EnteredInv, Idle, Next, Enabled;
    if steps != [] {
      StepKeepsFlights(cfg, s, steps[0]);
      RunKeepsEntered(cfg, Next(cfg, s, steps[0]), steps[1..], t, url);
    }
  }

  lemma ReachedFlights(cfg: Config, s: State, steps: seq<Step>, t: State)
    requires Initial(cfg, s) && Runs(cfg, s, steps, t)
    ensures FlightsInv(t)
  {
    RunKeepsFlights(cfg, s, steps, t);
  }

  // ---- What follows for every run ----------------------------------------

  predicate Outstanding(s: State, c: nat) {
    c in s.callers && s.callers[c].phase.Leading? && s.callers[c].phase.stage.Asking?
  }

  // No lost wake-up, in every run, clears and cancellations included. A
  // fetch that has not ended has a live leader that has yet to end it, a
  // waiter's waker is with that fetch, and once the fetch has ended the
  // waiter has been woken or its leader is about to wake it.
  lemma NoLostWakeUp(cfg: Config, s: State, steps: seq<Step>, t: State, c: nat)
    requires Initial(cfg, s) && Runs(cfg, s, steps, t)
    requires c in t.callers && t.callers[c].phase.Waiting? && t.callers[c].phase.waker.Some?
    ensures var Waiting(f, waker, woken) := t.callers[c].phase;
            && f < |t.flights|
            && if t.flights[f].flight.finished then woken || Due(t, f, waker.value)
               else && Owns(t, t.flights[f].leader, f)
                    && !t.callers[t.flights[f].leader].phase.stage.Waking?
                    && waker.value in t.flights[f].flight.wakers
  {
    ReachedFlights(cfg, s, steps, t);
    assert CallerOk(t, c);
    var f := t.callers[c].phase.on;
    assert FlightOk(t, f);
    if !t.flights[f].flight.finished {
      assert CallerOk(t, t.flights[f].leader);
    }
  }

  lemma OneIsUnderWay(t: State, c: nat, d: nat, url: string)
    requires FlightsInv(t) && EnteredInv(t, url) && UnderWay(t, url, c) && UnderWay(t, url, d)
    ensures c == d && url in t.inFlight && t.inFlight[url] == t.callers[c].phase.flight
  {
    assert CallerOk(t, c) && CallerOk(t, d) && EnteredOk(t, c) && EnteredOk(t, d);
  }

  // At most one fetch for a URL is under way, from the turn that starts it,
  // while it is asked and its answer is on its way, until it removes its
  // entry, in every interleaving whose clears come while none is. The URL's
  // entry is that fetch's own.
  lemma SingleFlight(cfg: Config, s: State, steps: seq<Step>, t: State, url: string, c: nat, d: nat)
    requires Initial(cfg, s) && Runs(cfg, s, steps, t) && ClearedIdle(cfg, s, steps, url)
    requires UnderWay(t, url, c) && UnderWay(t, url, d)
    ensures c == d
    ensures url in t.inFlight && t.inFlight[url] == t.callers[c].phase.flight
  {
    hide FlightsInv, EnteredInv, UnderWay, ClearedIdle, Runs;
    ReachedFlights(cfg, s, steps, t);
    assert FlightsInv(s) && EnteredInv(s, url) by {
      NothingEntered(cfg, s, url);
    }
    RunKeepsEntered(cfg, s, steps, t, url);
    OneIsUnderWay(t, c, d, url);
  }

  lemma NothingEntered(cfg: Config, s: State, url: string)
    requires Initial(cfg, s)
    ensures FlightsInv(s) && EnteredInv(s, url)
  {
  }

  // In every run the entry for a URL belongs to one live leader of a fetch
  // for that URL, so a caller that joins it is never left without one.
  lemma EntryHasALeader(cfg: Config, s: State, steps: seq<Step>, t: State, url: string)
    requires Initial(cfg, s) && Runs(cfg, s, steps, t) && url in t.inFlight
    ensures t.inFlight[url] < |t.flights|
    ensures var line := t.flights[t.inFlight[url]];
            && !line.flight.finished && line.url == url
            && Owns(t, line.leader, t.inFlight[url]) && t.callers[line.leader].url == url
            && forall c :: Owns(t, c, t.inFlight[url]) ==> c == line.leader
  {
    ReachedFlights(cfg, s, steps, t);
    assert EntryOk(t, url);
    var leader := t.flights[t.inFlight[url]].leader;
    assert CallerOk(t, leader);
    forall c | Owns(t, c, t.inFlight[url])
      ensures c == leader
    {
      assert CallerOk(t, c);
    }
  }

  // A caller goes round the loop at most once for each leader of its own URL
  // that was dropped part way through.
  lemma RoundsAreBounded(cfg: Config, s: State, steps: seq<Step>, t: State, c: nat)
    requires Initial(cfg, s) && Runs(cfg, s, steps, t) && c in t.callers
    ensures t.callers[c].rounds <= |set f | 0 <= f < |t.flights| && Abandoned(t, f) && t.flights[f].url == t.callers[c].url|
  {
    ReachedFlights(cfg, s, steps, t);
    assert CallerOk(t, c);
    SubsetIsSmaller(t.callers[c].tried, set f | 0 <= f < |t.flights| && Abandoned(t, f) && t.flights[f].url == t.callers[c].url);
  }

  lemma {:induction false} SubsetIsSmaller<T>(a: set<T>, b: set<T>)
    requires a <= b
    ensures |a| <= |b|
  {
    if a != {} {
      var x :| x in a;
      SubsetIsSmaller(a - {x}, b - {x});
    }
  }

  // ---- A leader can always finish ----------------------------------------

  // How far the leader is from returning.
  function Remaining(stage: Stage): nat {
    match stage
    case Led => 6
    case Asking => 5
    case Answered(_, _) => 4
    case Ending(_) => 3
    case Removed(_) => 2
    case Waking(_, wakers) => 1
  }

  function ToWake(stage: Stage): nat {
    if stage.Waking? then |stage.wakers| else 0
  }

  // The leader's next step, where the transport gives up if it has not
  // answered.
  function LeaderStep(c: nat, stage: Stage): Step {
    match stage
    case Led => Send(c)
    case Asking => Receive(c, Failed(Http("")))
    case Answered(_, _) => Settle(c)
    case Ending(_) => RemoveEntry(c)
    case Removed(_) => Publish(c)
    case Waking(_, wakers) => if wakers == [] then Return(c) else Wake(c)
  }

  // The step is the caller's own.
  predicate By(step: Step, c: nat) {
    !step.ClearCache? && !step.Tick? && !step.Append? && step.caller == c
  }

  ghost predicate AllWoken(s: State, f: nat) {
    forall c :: c in s.callers && s.callers[c].phase.Waiting? && s.callers[c].phase.on == f && s.callers[c].phase.waker.Some? ==>
      s.callers[c].phase.woken
  }

  // The leader is one step nearer its end, or there with the fetch ended.
  predicate Nearer(s: State, u: State, c: nat, f: nat)
    requires Owns(s, c, f)
  {
    var stage := s.callers[c].phase.stage;
    && f < |u.flights|
    && if LeaderStep(c, stage).Return? then u.flights[f].flight.finished && c in u.callers && !u.callers[c].phase.Leading?
       else Owns(u, c, f) && Below(u.callers[c].phase.stage, stage)
  }

  predicate Below(a: Stage, b: Stage) {
    Remaining(a) < Remaining(b) || (Remaining(a) == Remaining(b) && ToWake(a) < ToWake(b))
  }

  lemma LeaderStepsOn(cfg: Config, s: State, c: nat, f: nat)
    requires FlightsInv(s) && Owns(s, c, f)
    ensures f < |s.flights|
    ensures var step := LeaderStep(c, s.callers[c].phase.stage);
            By(step, c) && Enabled(cfg, s, step) && Nearer(s, Next(cfg, s, step), c, f)
  {
    hide FlightsInv, CallerOk, AfterWake;
    LeaderIsOk(s, c);
    LeaderInRange(s, c);
    if s.callers[c].phase.stage.Waking? {
      if s.callers[c].phase.stage.wakers != [] {
        WakeMoves(s, c, c);
      }
    } else {
      UnpublishedStepsOn(cfg, s, c, f);
    }
  }

  lemma UnpublishedStepsOn(cfg: Config, s: State, c: nat, f: nat)
    requires Owns(s, c, f) && LeadsAt(s, c) && !StageOf(s, c).Waking?
    ensures var step := LeaderStep(c, StageOf(s, c));
            By(step, c) && Enabled(cfg, s, step) && Nearer(s, Next(cfg, s, step), c, f)
  {
    hide Holding, ReplyOutcome;
  }

  lemma LeaderInRange(s: State, c: nat)
    requires c in s.callers && CallerOk(s, c) && s.callers[c].phase.Leading?
    ensures LeadsAt(s, c)
    ensures StageOf(s, c).Waking? ==> s.flights[s.callers[c].phase.flight].flight.finished
  {
  }

  lemma LeaderIsOk(s: State, c: nat)
    requires FlightsInv(s) && c in s.callers
    ensures CallerOk(s, c)
  {
  }

  lemma StepKeepsLeader(cfg: Config, s: State, step: Step, f: nat)
    requires Enabled(cfg, s, step) && f < |s.flights|
    ensures f < |Next(cfg, s, step).flights| && Next(cfg, s, step).flights[f].leader == s.flights[f].leader
  {
    hide Holding;
  }

  lemma {:induction false} LeaderFinishes(cfg: Config, s: State, c: nat, f: nat) returns (steps: seq<Step>, t: State)
    requires FlightsInv(s) && Owns(s, c, f)
    ensures Runs(cfg, s, steps, t) && forall i :: 0 <= i < |steps| ==> By(steps[i], c)
    ensures f < |t.flights| && t.flights[f].flight.finished && AllWoken(t, f)
    decreases Remaining(s.callers[c].phase.stage), ToWake(s.callers[c].phase.stage)
  {
    hide FlightsInv, Next, Enabled, LeaderStep, AllWoken;
    LeaderIsOk(s, c);
    LeaderStepsOn(cfg, s, c, f);
    var step := LeaderStep(c, s.callers[c].phase.stage);
    StepKeepsFlights(cfg, s, step);
    StepKeepsLeader(cfg, s, step, f);
    var u := Next(cfg, s, step);
    if step.Return? {
      NobodyAsleep(u, f);
      steps, t := [step], u;
      assert [step][1..] == [];
    } else {
      var rest;
      rest, t := LeaderFinishes(cfg, u, c, f);
      steps := [step] + rest;
      assert steps[1..] == rest;
    }
  }

  // From every state of every run, each fetch can be brought to its end by
  // its leader's steps alone, and then it is over and every caller waiting on
  // it with a waker has been woken. No other caller can block it.
  lemma FetchesCanEnd(cfg: Config, s: State, run: seq<Step>, t: State, f: nat) returns (steps: seq<Step>, u: State)
    requires Initial(cfg, s) && Runs(cfg, s, run, t) && f < |t.flights|
    ensures Runs(cfg, t, steps, u) && forall i :: 0 <= i < |steps| ==> By(steps[i], t.flights[f].leader)
    ensures f < |u.flights| && u.flights[f].flight.finished && AllWoken(u, f)
  {
    hide AllWoken;
    var leader := t.flights[f].leader;
    ReachedFlights(cfg, s, run, t);
    if Owns(t, leader, f) {
      steps, u := LeaderFinishes(cfg, t, leader, f);
    } else {
      steps, u := [], t;
      assert FlightOk(t, f);
      NobodyAsleep(t, f);
    }
  }

  // A fetch whose leader is no longer leading it has left nobody asleep.
  lemma NobodyAsleep(t: State, f: nat)
    requires FlightsInv(t) && f < |t.flights| && t.flights[f].flight.finished && !Owns(t, t.flights[f].leader, f)
    ensures AllWoken(t, f)
  {
    forall d | d in t.callers && t.callers[d].phase.Waiting? && t.callers[d].phase.on == f && t.callers[d].phase.waker.Some?
      ensures t.callers[d].phase.woken
    {
      assert CallerOk(t, d);
    }
  }
}
