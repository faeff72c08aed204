// What the cache keeps along every run, whatever the creators answer, and
// how often an honest creator is asked.
module CacheRuns {
  import opened Wrappers
  import opened Numbers
  import opened Schedule
  import opened KeyUrl
  import opened KeyCache
  import opened Flights
  import opened Protocol
  import opened FlightSafety
  import opened CacheHonesty

  lemma ReplyClaimIsGood(caller: Caller, reply: Reply, now: u32)
    ensures ReplyClaim(caller, reply, now).Some? ==> GoodKey(NewKey(ReplyPem(reply), ReplyClaim(caller, reply, now).value))
  {
    if reply.Answer? {
      ClaimIsGood(MinuteOf(caller.url), caller.recent, reply.pem, reply.start, reply.end, now);
    }
  }

  // Only recording an answer and clearing the cache change what is held.
  lemma StoreChanges(cfg: Config, s: State, step: Step)
    requires Enabled(cfg, s, step) && !step.ClearCache? && !step.Settle?
    ensures Next(cfg, s, step).store == s.store
  {
    hide Lookup, Polled, HonestReply;
  }

  lemma StepKeepsStore(cfg: Config, s: State, step: Step)
    requires Enabled(cfg, s, step) && WellFormed(s.store)
    ensures WellFormed(Next(cfg, s, step).store)
  {
    match step
    case Settle(c) =>
      var reply := StageOf(s, c).reply;
      ReplyClaimIsGood(s.callers[c], reply, s.now);
      StoreStaysWellFormed(s.store, EndPointOf(s.callers[c].url), ReplyPem(reply), ReplyClaim(s.callers[c], reply, s.now));
    case ClearCache => assert Total(map[]) == 0;
    case _ => StoreChanges(cfg, s, step);
  }

  // Whatever any creator answers, in every state of every run the spans held
  // are well formed and disjoint, the keys distinct and the count of keys
  // exact and bounded.
  lemma {:induction false} StoreIsAlwaysWellFormed(cfg: Config, s: State, steps: seq<Step>, t: State)
    requires Runs(cfg, s, steps, t) && WellFormed(s.store)
    ensures WellFormed(t.store)
    decreases |steps|
  {
    hide WellFormed, Next, Enabled;
    if steps != [] {
      StepKeepsStore(cfg, s, steps[0]);
      StoreIsAlwaysWellFormed(cfg, Next(cfg, s, steps[0]), steps[1..], t);
    }
  }

  // The steps that drop what is held: a clear, and a new key where the cache
  // is full.
  predicate Loses(s: State, step: Step) {
    step.ClearCache? ||
    (step.Settle? && LeadsAt(s, step.caller) && StageOf(s, step.caller).Answered? &&
       var caller := s.callers[step.caller];
       var reply := StageOf(s, step.caller).reply;
       var claim := ReplyClaim(caller, reply, s.now);
       claim.Some? && Evicts(s.store, EndPointOf(caller.url), ReplyPem(reply), claim.value))
  }

  lemma StepKeepsServing(cfg: Config, s: State, step: Step, e: string, minute: u32, recent: bool)
    requires Enabled(cfg, s, step) && WellFormed(s.store) && !Loses(s, step)
    requires HeldFor(s.store.keys, e, minute, recent).Some?
    ensures var now := HeldFor(Next(cfg, s, step).store.keys, e, minute, recent);
            now.Some? && now.value.pem == HeldFor(s.store.keys, e, minute, recent).value.pem
  {
    hide HeldFor, WellFormed, Holding;
    if step.Settle? {
      var caller := s.callers[step.caller];
      var reply := StageOf(s, step.caller).reply;
      var claim := ReplyClaim(caller, reply, s.now);
      ReplyClaimIsGood(caller, reply, s.now);
      HoldingKeepsServing(s.store, EndPointOf(caller.url), ReplyPem(reply), claim, e, minute, recent);
    } else {
      StoreChanges(cfg, s, step);
    }
  }

  ghost predicate NeverLoses(cfg: Config, s: State, steps: seq<Step>)
    decreases |steps|
  {
    steps != [] ==> Enabled(cfg, s, steps[0]) && !Loses(s, steps[0]) && NeverLoses(cfg, Next(cfg, s, steps[0]), steps[1..])
  }

  // Once served, a minute goes on being served, under the same key, along
  // every run without a clear or an eviction, whatever is answered meanwhile.
  lemma {:induction false} ServedStaysServed(cfg: Config, s: State, steps: seq<Step>, t: State, e: string, minute: u32, recent: bool)
    requires Runs(cfg, s, steps, t) && NeverLoses(cfg, s, steps) && WellFormed(s.store)
    requires HeldFor(s.store.keys, e, minute, recent).Some?
    ensures var now := HeldFor(t.store.keys, e, minute, recent);
            now.Some? && now.value.pem == HeldFor(s.store.keys, e, minute, recent).value.pem
    decreases |steps|
  {
    hide HeldFor, WellFormed, Next, Enabled, Loses;
    if steps != [] {
      StepKeepsStore(cfg, s, steps[0]);
      StepKeepsServing(cfg, s, steps[0], e, minute, recent);
      ServedStaysServed(cfg, Next(cfg, s, steps[0]), steps[1..], t, e, minute, recent);
    }
  }

  // Once an honest creator's answer for a minute that was not recent is
  // recorded, every later lookup of that minute is answered from the cache
  // with the key in force then, until a clear or an eviction.
  lemma AnsweredMinuteKeepsHitting(cfg: Config, s: State, steps: seq<Step>, t: State, c: nat, later: seq<Step>, u: State)
    requires cfg.Allowed() && Initial(cfg, s) && Runs(cfg, s, steps, t) && Enabled(cfg, t, Settle(c))
    requires EndPointOf(t.callers[c].url) in t.creators && StageOf(t, c).reply.Answer?
    requires !t.callers[c].recent && MinuteOf(t.callers[c].url).Some?
    requires Runs(cfg, AfterSettle(t, c), later, u) && NeverLoses(cfg, AfterSettle(t, c), later)
    ensures Lookup(u, t.callers[c].url, false).Some?
    ensures var inForce := InForce(t.creators[EndPointOf(t.callers[c].url)].keys, MinuteOf(t.callers[c].url).value);
            inForce.Some? && Lookup(u, t.callers[c].url, false).value.pem == inForce.value.pem
  {
    hide HeldFor, HonestReply, Next, WellFormed;
    var url := t.callers[c].url;
    var after := AfterSettle(t, c);
    InitialIsHonest(cfg, s);
    RunKeepsHonesty(cfg, s, steps, t);
    SettledIsServed(cfg, t, c);
    SettleKeepsHonesty(cfg, t, c);
    ServedIsInForce(cfg, after, EndPointOf(url), MinuteOf(url).value, false);
    ServedStaysServed(cfg, after, later, u, EndPointOf(url), MinuteOf(url).value, false);
  }

  // ---- A request is made at most once ------------------------------------

  // Whether a caller counts: all do, or those that did not find the minute
  // recent.
  predicate Counts(recent: bool, all: bool) {
    all || !recent
  }

  // How many requests for the URL were made by callers that count.
  function Sent(requests: seq<Request>, url: string, all: bool): nat {
    if requests == [] then 0
    else
      var last := requests[|requests| - 1];
      Sent(requests[..|requests| - 1], url, all) + if last.url == url && Counts(last.recent, all) then 1 else 0
  }

  lemma SentMore(requests: seq<Request>, request: Request, url: string, all: bool)
    ensures Sent(requests + [request], url, all)
         == Sent(requests, url, all) + if request.url == url && Counts(request.recent, all) then 1 else 0
  {
    assert (requests + [request])[..|requests|] == requests;
  }

  // The answer is one that all the callers that count are served from.
  predicate Satisfies(reply: Reply, url: string, all: bool) {
    reply.Answer? && (all ==> MinuteOf(url).Some? && StatesWhole(reply, MinuteOf(url).value))
  }

  // No failure and no cancellation touches the URL, and nothing held is lost.
  // Where all callers count, its answers state a whole span about its minute.
  predicate Smooth(s: State, step: Step, url: string, all: bool) {
    && !Loses(s, step)
    && (step.Receive? && !Satisfies(step.reply, url, all) ==> step.caller in s.callers && s.callers[step.caller].url != url)
    && (step.Cancel? ==> step.caller in s.callers && s.callers[step.caller].url != url)
  }

  predicate Served(s: State, url: string, all: bool) {
    Lookup(s, url, all).Some?
  }

  // The one request for the URL is out, or answered and yet to be recorded.
  predicate Pending(s: State, url: string, all: bool) {
    && url in s.inFlight && s.inFlight[url] < |s.flights|
    && var c := s.flights[s.inFlight[url]].leader;
       && LeadsAt(s, c) && s.callers[c].url == url && Counts(s.callers[c].recent, all)
       && (StageOf(s, c).Asking? || (StageOf(s, c).Answered? && Satisfies(StageOf(s, c).reply, url, all)))
  }

  // A caller is about to send the request.
  predicate AboutToSend(s: State, c: nat, url: string, all: bool) {
    LeadsAt(s, c) && s.callers[c].url == url && Counts(s.callers[c].recent, all) && StageOf(s, c).Led?
  }

  ghost predicate OnceInv(s: State, url: string, all: bool) {
    && Sent(s.requests, url, all) <= 1
    && (forall c :: c in s.callers && AboutToSend(s, c, url, all) ==> Sent(s.requests, url, all) == 0)
    && (Sent(s.requests, url, all) == 1 ==> Served(s, url, all) || Pending(s, url, all))
  }

  ghost predicate AllInv(cfg: Config, s: State) {
    FlightsInv(s) && (forall url :: EnteredInv(s, url)) && HonestInv(cfg, s)
  }

  // A leader that has yet to remove its entry is the one entered.
  lemma LeaderIsEntered(cfg: Config, s: State, c: nat)
    requires LeadsAt(s, c) && AllInv(cfg, s) && BeforeRemoval(StageOf(s, c))
    ensures var url := s.callers[c].url;
            && url in s.inFlight && s.inFlight[url] == s.callers[c].phase.flight
            && s.flights[s.inFlight[url]].leader == c
  {
    assert EnteredInv(s, s.callers[c].url);
    assert CallerOk(s, c) && EnteredOk(s, c);
  }

  lemma TurnMoves(s: State, c: nat)
    requires c in s.callers && s.callers[c].phase.Arrived?
    ensures var t := AfterTurn(s, c);
            var caller := s.callers[c];
            && t == s.(callers := t.callers, flights := t.flights, inFlight := t.inFlight)
            && t.callers == s.callers[c := caller.(phase := t.callers[c].phase)]
            && (t.callers[c].phase.Done? ==>
                  Lookup(s, caller.url, caller.recent).Some?
                  && t.callers[c].phase == Done(Ok(Lookup(s, caller.url, caller.recent).value)))
            && if Lookup(s, caller.url, caller.recent).None? && caller.url !in s.inFlight then
                 && t.callers[c].phase == Leading(|s.flights|, Led)
                 && t.flights == s.flights + [Started(NEW_FLIGHT, caller.url, c)]
                 && t.inFlight == s.inFlight[caller.url := |s.flights|]
               else !t.callers[c].phase.Leading? && t.flights == s.flights && t.inFlight == s.inFlight
  {
    hide Lookup;
  }

  lemma TurnKeepsOnce(cfg: Config, s: State, c: nat, url: string, all: bool)
    requires AllInv(cfg, s) && OnceInv(s, url, all) && Enabled(cfg, s, TakeTurn(c))
    ensures OnceInv(AfterTurn(s, c), url, all)
  {
    hide AllInv, HeldFor, AfterTurn;
    var t := AfterTurn(s, c);
    TurnMoves(s, c);
    assert Served(t, url, all) == Served(s, url, all);
    forall d | d in t.callers && AboutToSend(t, d, url, all)
      ensures Sent(t.requests, url, all) == 0
    {
      if d != c {
        assert AboutToSend(s, d, url, all) by {
          LeaderInRangeOf(cfg, s, d);
        }
      } else if Served(s, url, all) && all {
        RecentIsServedToAll(s.store.keys, EndPointOf(url), MinuteOf(url).value, s.callers[c].recent);
      }
    }
  }

  lemma LeaderInRangeOf(cfg: Config, s: State, d: nat)
    requires AllInv(cfg, s) && d in s.callers && s.callers[d].phase.Leading?
    ensures LeadsAt(s, d)
  {
    assert CallerOk(s, d);
  }

  lemma SendMoves(cfg: Config, s: State, c: nat)
    requires Enabled(cfg, s, Send(c))
    ensures var caller := s.callers[c];
            Next(cfg, s, Send(c)) == s.(callers := s.callers[c := caller.(phase := Leading(caller.phase.flight, Asking))],
                                        requests := s.requests + [Request(caller.url, caller.recent)])
  {
  }

  // No other caller is about to send what this one sends.
  lemma OneIsAboutToSend(cfg: Config, s: State, c: nat, d: nat, url: string, all: bool)
    requires AllInv(cfg, s) && AboutToSend(s, c, url, all) && AboutToSend(s, d, url, all)
    ensures c == d
  {
    hide AllInv;
    LeaderIsEntered(cfg, s, c);
    LeaderIsEntered(cfg, s, d);
  }

  lemma SendKeepsOnce(cfg: Config, s: State, c: nat, url: string, all: bool)
    requires AllInv(cfg, s) && OnceInv(s, url, all) && Enabled(cfg, s, Send(c))
    ensures OnceInv(Next(cfg, s, Send(c)), url, all)
  {
    hide AllInv, HeldFor, EndPointOf, MinuteOf, Next, Sent;
    var t := Next(cfg, s, Send(c));
    var caller := s.callers[c];
    SendMoves(cfg, s, c);
    SentMore(s.requests, Request(caller.url, caller.recent), url, all);
    LeaderIsEntered(cfg, s, c);
    forall d | d in t.callers && AboutToSend(t, d, url, all)
      ensures Sent(t.requests, url, all) == 0
    {
      assert AboutToSend(s, d, url, all);
      if AboutToSend(s, c, url, all) {
        OneIsAboutToSend(cfg, s, c, d, url, all);
      }
    }
    assert Served(t, url, all) == Served(s, url, all);
  }

  lemma SettleKeepsOnce(cfg: Config, s: State, c: nat, url: string, all: bool)
    requires cfg.Allowed() && AllInv(cfg, s) && OnceInv(s, url, all) && Enabled(cfg, s, Settle(c)) && !Loses(s, Settle(c))
    requires MinuteOf(url).Some? && EndPointOf(url) in s.creators
    ensures OnceInv(AfterSettle(s, c), url, all)
  {
    hide AllInv, HonestInv, WellFormed, HeldFor, Holding, EndPointOf, MinuteOf, Loses, ReplyClaim, ReplyOutcome;
    var t := AfterSettle(s, c);
    LeaderIsEntered(cfg, s, c);
    HonestStore(cfg, s);
    if Sent(s.requests, url, all) == 1 {
      if Served(s, url, all) {
        StepKeepsServing(cfg, s, Settle(c), EndPointOf(url), MinuteOf(url).value, all);
      } else if s.callers[c].url == url {
        if all {
          WholeIsServedToAll(cfg, s, c, MinuteOf(url).value);
        } else {
          SettledIsServed(cfg, s, c);
        }
      }
    }
    forall d | d in t.callers && AboutToSend(t, d, url, all)
      ensures Sent(t.requests, url, all) == 0
    {
      assert AboutToSend(s, d, url, all);
    }
  }

  lemma HonestStore(cfg: Config, s: State)
    requires AllInv(cfg, s)
    ensures HonestInv(cfg, s) && WellFormed(s.store)
  {
  }

  lemma RemoveKeepsOnce(cfg: Config, s: State, c: nat, url: string, all: bool)
    requires AllInv(cfg, s) && OnceInv(s, url, all) && Enabled(cfg, s, RemoveEntry(c))
    ensures OnceInv(Next(cfg, s, RemoveEntry(c)), url, all)
  {
    hide AllInv, HeldFor;
    var t := Next(cfg, s, RemoveEntry(c));
    LeaderIsEntered(cfg, s, c);
    assert Served(t, url, all) == Served(s, url, all);
    forall d | d in t.callers && AboutToSend(t, d, url, all)
      ensures Sent(t.requests, url, all) == 0
    {
      assert AboutToSend(s, d, url, all);
    }
  }

  // A step that enters, sends, records and removes nothing, and moves no
  // pending request but to its answer.
  lemma OthersKeepOnce(s: State, t: State, url: string, all: bool)
    requires OnceInv(s, url, all)
    requires t.store == s.store && t.inFlight == s.inFlight && t.requests == s.requests && |t.flights| == |s.flights|
    requires forall f :: 0 <= f < |s.flights| ==> t.flights[f].leader == s.flights[f].leader
    requires forall c :: LeadsAt(s, c) && (StageOf(s, c).Asking? || StageOf(s, c).Answered?) && s.callers[c].url == url ==>
               && LeadsAt(t, c) && t.callers[c].url == url && t.callers[c].recent == s.callers[c].recent
               && (t.callers[c] == s.callers[c] || (StageOf(t, c).Answered? && Satisfies(StageOf(t, c).reply, url, all)))
    requires forall c :: LeadsAt(t, c) && StageOf(t, c).Led? ==> c in s.callers && t.callers[c] == s.callers[c]
    ensures OnceInv(t, url, all)
  {
    hide HeldFor;
    forall d | d in t.callers && AboutToSend(t, d, url, all)
      ensures Sent(t.requests, url, all) == 0
    {
      assert AboutToSend(s, d, url, all);
    }
  }

  lemma OtherStepKeepsOnce(cfg: Config, s: State, step: Step, url: string, all: bool)
    requires OnceInv(s, url, all) && Enabled(cfg, s, step) && Smooth(s, step, url, all)
    requires !step.TakeTurn? && !step.Send? && !step.Settle? && !step.RemoveEntry?
    ensures OnceInv(Next(cfg, s, step), url, all)
  {
    hide OnceInv, AfterPoll, Polled, HonestReply, Holding, HeldFor, Lookup;
    var t := Next(cfg, s, step);
    if step.PollFlight? {
      PollMoves(s, step.caller, step.waker);
    }
    OthersKeepOnce(s, t, url, all);
  }

  lemma StepKeepsOnce(cfg: Config, s: State, step: Step, url: string, all: bool)
    requires cfg.Allowed() && AllInv(cfg, s) && OnceInv(s, url, all) && Enabled(cfg, s, step) && Smooth(s, step, url, all)
    requires MinuteOf(url).Some? && EndPointOf(url) in s.creators
    ensures AllInv(cfg, Next(cfg, s, step)) && OnceInv(Next(cfg, s, step), url, all)
    ensures EndPointOf(url) in Next(cfg, s, step).creators
  {
    hide FlightsInv, EnteredInv, HonestInv, OnceInv, AfterTurn, AfterSettle, AfterPoll, AfterWake, AfterPublish, HonestReply;
    StepKeepsFlights(cfg, s, step);
    StepKeepsHonesty(cfg, s, step);
    CreatorsStay(cfg, s, step);
    match step
    case TakeTurn(c) => TurnKeepsOnce(cfg, s, c, url, all);
    case Send(c) => SendKeepsOnce(cfg, s, c, url, all);
    case Settle(c) => SettleKeepsOnce(cfg, s, c, url, all);
    case RemoveEntry(c) => RemoveKeepsOnce(cfg, s, c, url, all);
    case _ => OtherStepKeepsOnce(cfg, s, step, url, all);
  }

  lemma CreatorsStay(cfg: Config, s: State, step: Step)
    requires Enabled(cfg, s, step)
    ensures Next(cfg, s, step).creators.Keys == s.creators.Keys
  {
    hide Lookup, Polled, HonestReply, Holding;
  }

  ghost predicate SmoothRun(cfg: Config, s: State, steps: seq<Step>, url: string, all: bool)
    decreases |steps|
  {
    steps != [] ==> Enabled(cfg, s, steps[0]) && Smooth(s, steps[0], url, all) && SmoothRun(cfg, Next(cfg, s, steps[0]), steps[1..], url, all)
  }

  lemma {:induction false} RunKeepsOnce(cfg: Config, s: State, steps: seq<Step>, t: State, url: string, all: bool)
    requires cfg.Allowed() && AllInv(cfg, s) && OnceInv(s, url, all) && Runs(cfg, s, steps, t) && SmoothRun(cfg, s, steps, url, all)
    requires MinuteOf(url).Some? && EndPointOf(url) in s.creators
    ensures OnceInv(t, url, all)
    decreases |steps|
  {
    hide AllInv, OnceInv, Next, Enabled, Smooth;
    if steps != [] {
      StepKeepsOnce(cfg, s, steps[0], url, all);
      RunKeepsOnce(cfg, Next(cfg, s, steps[0]), steps[1..], t, url, all);
    }
  }

  // With an honest creator and no clear, eviction, failure or cancellation,
  // the callers that find a URL's minute behind them make one request between
  // them, over the whole run. Where the creator's answers about it state a
  // whole span that holds it, all its callers do.
  lemma AskedAtMostOnce(cfg: Config, s: State, steps: seq<Step>, t: State, url: string, all: bool)
    requires cfg.Allowed() && Initial(cfg, s) && Runs(cfg, s, steps, t) && SmoothRun(cfg, s, steps, url, all)
    requires MinuteOf(url).Some? && EndPointOf(url) in s.creators
    ensures Sent(t.requests, url, all) <= 1
  {
    InitialIsHonest(cfg, s);
    RunKeepsOnce(cfg, s, steps, t, url, all);
  }
}
