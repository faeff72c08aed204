// The protocol by which callers share one fetch, as a state machine. Each
// step is one region the source runs under a lock, or one thing the world
// outside does: a creator answers, a clock moves on, a caller is dropped.
module Protocol {
  import opened Wrappers
  import opened Numbers
  import opened Schedule
  import opened KeyUrl
  import opened KeyCache
  import opened Flights

  // A creator that answers honestly from its schedule, with starts and its
  // clock counted in minutes. One that states spans always states them, and
  // one that does not may leave a span out of any answer.
  datatype Creator = Creator(keys: seq<DatedKey>, clock: int, states: bool)

  // How far a creator's clock may be from the verifier's, and whether keys
  // are added while the verifier runs, in which case an answer is recorded
  // no later than the latency after it was given.
  datatype Config = Config(skew: nat, latency: nat, grows: bool) {
    predicate Allowed() {
      skew + (if grows then latency else 0) <= CLOCK_DRIFT_ALLOWANCE_MINUTES
    }
  }

  datatype Reply = Answer(pem: string, start: Option<u32>, end: Option<u32>) | Failed(failure: Failure)

  // Where the caller making a fetch has got to.
  datatype Stage =
    | Led
    | Asking
    | Answered(reply: Reply, at: u32)
    | Ending(outcome: Option<Outcome>)
    | Removed(result: Option<Outcome>)
    | Waking(published: Option<Outcome>, wakers: seq<Waker>)

  // A waiting caller records the waker it last left with the flight, and
  // whether that waker has been woken since.
  datatype Phase =
    | Arrived
    | Waiting(on: nat, waker: Option<Waker>, woken: bool)
    | Leading(flight: nat, stage: Stage)
    | Done(result: Outcome)
    | Gone

  // The flights a caller waited on and had to make again are history kept
  // for the proofs, and so is the count of times it went round the loop.
  datatype Caller = Caller(url: string, recent: bool, phase: Phase, tried: set<nat>, rounds: nat)

  // A flight, with the URL and the caller it was started for as history.
  datatype Started = Started(flight: Flight, url: string, leader: nat)

  datatype Request = Request(url: string, recent: bool)

  datatype State = State(
    now: u32,
    store: Store,
    inFlight: map<string, nat>,
    flights: seq<Started>,
    callers: map<nat, Caller>,
    creators: map<string, Creator>,
    requests: seq<Request>)

  datatype Step =
    | Call(caller: nat, url: string)
    | TakeTurn(caller: nat)
    | Send(caller: nat)
    | Receive(caller: nat, reply: Reply)
    | Settle(caller: nat)
    | RemoveEntry(caller: nat)
    | Publish(caller: nat)
    | Wake(caller: nat)
    | Return(caller: nat)
    | PollFlight(caller: nat, waker: Waker)
    | Cancel(caller: nat)
    | ClearCache
    | Tick(now: u32, clocks: map<string, int>)
    | Append(endPoint: string, key: DatedKey)

  // ---- What an honest creator answers ------------------------------------

  // A moment as the client counts it, which is not at all where it is before
  // the base date or past what the count can reach.
  function AsMinutes(minute: int): Option<u32> {
    if 0 <= minute <= U32_MAX then Some(minute) else None
  }

  // A date later than the creator's own now is read as now.
  function AskedMinute(creator: Creator, minute: Option<u32>): int {
    if minute.Some? then Min(minute.value, creator.clock) else creator.clock
  }

  function StatedReply(keys: seq<DatedKey>, key: DatedKey): Reply {
    var next := NextStartAfter(keys, key);
    Answer(key.pem, AsMinutes(key.startsAt), if next.Some? then AsMinutes(next.value) else None)
  }

  predicate HonestReply(creator: Creator, minute: Option<u32>, reply: Reply) {
    reply.Failed? ||
    match InForce(creator.keys, AskedMinute(creator, minute))
    case None => false
    case Some(key) => reply == StatedReply(creator.keys, key) || (!creator.states && reply == Answer(key.pem, None, None))
  }

  ghost predicate GoodSchedule(keys: seq<DatedKey>) {
    forall i, j :: 0 <= i < |keys| && 0 <= j < |keys| && i != j ==>
      keys[i].startsAt != keys[j].startsAt && keys[i].pem != keys[j].pem
  }

  predicate Near(a: int, b: int, distance: nat) {
    a - b <= distance && b - a <= distance
  }

  // ---- The steps ---------------------------------------------------------

  predicate LeadsAt(s: State, c: nat) {
    c in s.callers && s.callers[c].phase.Leading? && s.callers[c].phase.flight < |s.flights|
  }

  function StageOf(s: State, c: nat): Stage
    requires LeadsAt(s, c)
  {
    s.callers[c].phase.stage
  }

  // Where keys are added meanwhile, time does not pass beyond the latency of
  // an honest creator's answer that has yet to be recorded.
  predicate InTime(cfg: Config, s: State, now: u32) {
    cfg.grows ==>
      forall c :: c in s.callers && s.callers[c].phase.Leading? && s.callers[c].phase.stage.Answered?
                  && EndPointOf(s.callers[c].url) in s.creators ==>
        now <= s.callers[c].phase.stage.at + cfg.latency
  }

  predicate Enabled(cfg: Config, s: State, step: Step) {
    match step
    case Call(c, _) => c !in s.callers
    case TakeTurn(c) => c in s.callers && s.callers[c].phase.Arrived?
    case Send(c) => LeadsAt(s, c) && StageOf(s, c).Led?
    case Receive(c, reply) =>
      && LeadsAt(s, c) && StageOf(s, c).Asking?
      && var url := s.callers[c].url;
         (EndPointOf(url) in s.creators ==> HonestReply(s.creators[EndPointOf(url)], MinuteOf(url), reply))
    case Settle(c) => LeadsAt(s, c) && StageOf(s, c).Answered?
    case RemoveEntry(c) => LeadsAt(s, c) && StageOf(s, c).Ending?
    case Publish(c) => LeadsAt(s, c) && StageOf(s, c).Removed?
    case Wake(c) => LeadsAt(s, c) && StageOf(s, c).Waking? && StageOf(s, c).wakers != []
    case Return(c) => LeadsAt(s, c) && StageOf(s, c).Waking? && StageOf(s, c).wakers == []
    case PollFlight(c, _) => c in s.callers && s.callers[c].phase.Waiting? && s.callers[c].phase.on < |s.flights|
    case Cancel(c) =>
      && c in s.callers
      && var phase := s.callers[c].phase;
         phase.Arrived? || phase.Waiting? || (phase.Leading? && phase.stage.Asking?)
    case ClearCache => true
    case Tick(now, clocks) =>
      && s.now <= now && InTime(cfg, s, now) && clocks.Keys == s.creators.Keys
      && forall e :: e in s.creators ==> s.creators[e].clock <= clocks[e] && Near(clocks[e], now, cfg.skew)
    case Append(e, key) =>
      && cfg.grows && e in s.creators && s.creators[e].clock < key.startsAt
      && forall k :: k in s.creators[e].keys ==> k.startsAt < key.startsAt && k.pem != key.pem
  }

  function WithPhase(s: State, c: nat, phase: Phase): State
    requires c in s.callers
  {
    s.(callers := s.callers[c := s.callers[c].(phase := phase)])
  }

  function WithStage(s: State, c: nat, stage: Stage): State
    requires LeadsAt(s, c)
  {
    WithPhase(s, c, Leading(s.callers[c].phase.flight, stage))
  }

  function Lookup(s: State, url: string, recent: bool): Option<KeyAnswer> {
    match MinuteOf(url)
    case Some(minute) => HeldFor(s.store.keys, EndPointOf(url), minute, recent)
    case None => None
  }

  function AfterCall(s: State, c: nat, url: string): State {
    var minute := MinuteOf(url);
    s.(callers := s.callers[c := Caller(url, minute.Some? && Recent(minute.value, s.now), Arrived, {}, 0)])
  }

  function AfterTurn(s: State, c: nat): State
    requires c in s.callers
  {
    var Caller(url, recent, _, _, _) := s.callers[c];
    var served := Lookup(s, url, recent);
    if served.Some? then WithPhase(s, c, Done(Ok(served.value)))
    else if url in s.inFlight then WithPhase(s, c, Waiting(s.inFlight[url], None, false))
    else
      WithPhase(s, c, Leading(|s.flights|, Led)).(
        flights := s.flights + [Started(NEW_FLIGHT, url, c)],
        inFlight := s.inFlight[url := |s.flights|])
  }

  function ReplyClaim(caller: Caller, reply: Reply, now: u32): Option<Claim> {
    if reply.Failed? then None else ClaimOf(MinuteOf(caller.url), caller.recent, reply.start, reply.end, now)
  }

  function ReplyOutcome(reply: Reply): Outcome {
    match reply
    case Answer(pem, start, end) => Ok(Statement(pem, start, end))
    case Failed(failure) => Err(failure)
  }

  function ReplyPem(reply: Reply): string {
    if reply.Answer? then reply.pem else ""
  }

  // The cache has the key by the time the entry goes, so nobody starts a
  // fetch of its own in between.
  function AfterSettle(s: State, c: nat): State
    requires LeadsAt(s, c) && StageOf(s, c).Answered?
  {
    var reply := StageOf(s, c).reply;
    var claim := ReplyClaim(s.callers[c], reply, s.now);
    WithStage(s, c, Ending(Some(ReplyOutcome(reply)))).(
      store := Holding(s.store, EndPointOf(s.callers[c].url), ReplyPem(reply), claim))
  }

  function AfterPublish(s: State, c: nat): State
    requires LeadsAt(s, c) && StageOf(s, c).Removed?
  {
    var f := s.callers[c].phase.flight;
    var result := StageOf(s, c).result;
    WithStage(s, c, Waking(result, s.flights[f].flight.wakers)).(
      flights := s.flights[f := s.flights[f].(flight := Ended(s.flights[f].flight, result))])
  }

  function Woken(caller: Caller, waker: Waker): Caller {
    if caller.phase.Waiting? && caller.phase.waker == Some(waker)
    then caller.(phase := caller.phase.(woken := true)) else caller
  }

  function AfterWake(s: State, c: nat): State
    requires LeadsAt(s, c) && StageOf(s, c).Waking? && StageOf(s, c).wakers != []
  {
    var Waking(published, wakers) := StageOf(s, c);
    var t := WithStage(s, c, Waking(published, wakers[1..]));
    t.(callers := map d | d in t.callers :: Woken(t.callers[d], wakers[0]))
  }

  function AfterPoll(s: State, c: nat, waker: Waker): State
    requires c in s.callers && s.callers[c].phase.Waiting? && s.callers[c].phase.on < |s.flights|
  {
    var f := s.callers[c].phase.on;
    match Polled(s.flights[f].flight, waker)
    case (_, Ready(Some(outcome))) => WithPhase(s, c, Done(outcome))
    case (_, Ready(None)) =>
      var caller := s.callers[c];
      s.(callers := s.callers[c := caller.(phase := Arrived, tried := caller.tried + {f}, rounds := caller.rounds + 1)])
    case (flight, Pending) =>
      WithPhase(s, c, Waiting(f, Some(waker), false)).(flights := s.flights[f := s.flights[f].(flight := flight)])
  }

  function AfterCancel(s: State, c: nat): State
    requires c in s.callers
  {
    var phase := s.callers[c].phase;
    WithPhase(s, c, if phase.Leading? then Leading(phase.flight, Ending(None)) else Gone)
  }

  function AfterTick(s: State, now: u32, clocks: map<string, int>): State
    requires clocks.Keys == s.creators.Keys
  {
    s.(now := now, creators := map e | e in s.creators :: s.creators[e].(clock := clocks[e]))
  }

  function Next(cfg: Config, s: State, step: Step): State
    requires Enabled(cfg, s, step)
  {
    match step
    case Call(c, url) => AfterCall(s, c, url)
    case TakeTurn(c) => AfterTurn(s, c)
    case Send(c) => WithStage(s, c, Asking).(requests := s.requests + [Request(s.callers[c].url, s.callers[c].recent)])
    case Receive(c, reply) => WithStage(s, c, Answered(reply, s.now))
    case Settle(c) => AfterSettle(s, c)
    case RemoveEntry(c) => WithStage(s, c, Removed(StageOf(s, c).outcome)).(inFlight := s.inFlight - {s.callers[c].url})
    case Publish(c) => AfterPublish(s, c)
    case Wake(c) => AfterWake(s, c)
    case Return(c) => WithPhase(s, c, if StageOf(s, c).published.Some? then Done(StageOf(s, c).published.value) else Gone)
    case PollFlight(c, waker) => AfterPoll(s, c, waker)
    case Cancel(c) => AfterCancel(s, c)
    case ClearCache => s.(store := EMPTY, inFlight := map[])
    case Tick(now, clocks) => AfterTick(s, now, clocks)
    case Append(e, key) => s.(creators := s.creators[e := s.creators[e].(keys := s.creators[e].keys + [key])])
  }

  // ---- Runs --------------------------------------------------------------

  ghost predicate Initial(cfg: Config, s: State) {
    && s.store == EMPTY && s.inFlight == map[] && s.flights == [] && s.callers == map[] && s.requests == []
    && forall e :: e in s.creators ==>
         GoodSchedule(s.creators[e].keys) && 0 <= s.creators[e].clock && Near(s.creators[e].clock, s.now, cfg.skew)
  }

  ghost predicate Runs(cfg: Config, s: State, steps: seq<Step>, t: State)
    decreases |steps|
  {
    if steps == [] then t == s
    else Enabled(cfg, s, steps[0]) && Runs(cfg, Next(cfg, s, steps[0]), steps[1..], t)
  }
}
