// What a lookup or a fetch can answer with, in every run, for an honest
// creator: a key with exactly the minutes the schedule puts it in force for,
// as the schedule stood when the answer was given, or with no span at all. A
// creator that always states its spans is read as stating none exactly where
// the key's start cannot be counted.
module Answers {
  import opened Wrappers
  import opened Numbers
  import opened Schedule
  import opened KeyUrl
  import opened KeyCache
  import opened Flights
  import opened Protocol
  import opened FlightSafety
  import opened CacheHonesty
  import opened CacheRuns

  predicate InForceFor(keys: seq<DatedKey>, minute: int, pem: string) {
    InForce(keys, minute).Some? && InForce(keys, minute).value.pem == pem
  }

  // The span stated is the set of minutes the key is in force.
  ghost predicate Exact(keys: seq<DatedKey>, answer: KeyAnswer) {
    && answer.known && answer.first <= answer.last
    && forall m: u32 :: answer.Covers(m) <==> InForceFor(keys, m, answer.pem)
  }

  // The key's start is not a count of minutes, so that the client reads no
  // start and takes the creator to have stated no span.
  predicate Uncounted(keys: seq<DatedKey>, pem: string) {
    exists k :: k in keys && k.pem == pem && AsMinutes(k.startsAt).None?
  }

  ghost predicate Told(keys: seq<DatedKey>, states: bool, answer: KeyAnswer) {
    && (answer.known ==> Exact(keys, answer))
    && (states ==> (answer.known <==> !Uncounted(keys, answer.pem)))
  }

  // As the schedule stood when it had that many keys or more.
  ghost predicate ToldSince(keys: seq<DatedKey>, from: nat, states: bool, answer: KeyAnswer) {
    exists n :: from <= n <= |keys| && Told(keys[..n], states, answer)
  }

  // The keys added since each start after every key before them.
  ghost predicate Grown(keys: seq<DatedKey>, from: nat) {
    forall i, j :: 0 <= i < j < |keys| && from <= j ==> keys[i].startsAt < keys[j].startsAt
  }

  // The key is in force at some minute that can be counted, and will stay so.
  ghost predicate Reached(cfg: Config, creator: Creator, pem: string) {
    exists m: u32 :: Known(cfg, creator, pem, m)
  }

  // The key in force at the base date started before it.
  predicate BeganEarly(keys: seq<DatedKey>) {
    InForce(keys, 0).Some? && InForce(keys, 0).value.startsAt < 0
  }

  // The key in force at the base date started before it, and has another
  // after it at a minute that can be counted.
  predicate BeganEarlyAndRotates(keys: seq<DatedKey>) {
    BeganEarly(keys) &&
    var next := NextStartAfter(keys, InForce(keys, 0).value);
    next.Some? && next.value <= U32_MAX
  }

  // Every answer of the creator can be relied on: its clock is within the
  // allowance, or its schedule is fixed and it always states its spans.
  predicate Dependable(cfg: Config, creator: Creator) {
    cfg.Allowed() || (!cfg.grows && creator.states)
  }

  // A key that states no span is held for minutes of its own alone: the
  // clocks are within the allowance, or no such key is ever replaced.
  predicate Trusted(cfg: Config, creator: Creator) {
    cfg.Allowed() || (!cfg.grows && creator.states && !BeganEarlyAndRotates(creator.keys))
  }

  ghost predicate HeldTold(cfg: Config, creator: Creator, from: nat, list: seq<HeldKey>) {
    forall i :: 0 <= i < |list| ==>
      ToldSince(creator.keys, from, creator.states, list[i].Stated()) && Reached(cfg, creator, list[i].pem)
  }

  // An answer about the minute asked for, where one was named. Where that is
  // the minute given, which was in the creator's past, the key is the one in
  // force then.
  ghost predicate AnswerOk(cfg: Config, creator: Creator, from: nat, asked: Option<u32>, past: Option<u32>, answer: KeyAnswer) {
    && ToldSince(creator.keys, from, creator.states, answer)
    && (asked.Some? || answer.known ==> Reached(cfg, creator, answer.pem))
    && (asked.Some? && asked == past ==> Known(cfg, creator, answer.pem, past.value))
  }

  ghost predicate OutcomeOk(cfg: Config, creator: Creator, from: nat, url: string, past: Option<u32>, outcome: Option<Outcome>) {
    outcome.Some? && outcome.value.Ok? ==> AnswerOk(cfg, creator, from, MinuteOf(url), past, outcome.value.value)
  }

  ghost predicate PhaseOk(cfg: Config, creator: Creator, from: nat, url: string, past: Option<u32>, phase: Phase) {
    match phase
    case Done(result) => OutcomeOk(cfg, creator, from, url, past, Some(result))
    case Leading(_, Answered(reply, _)) => OutcomeOk(cfg, creator, from, url, past, Some(ReplyOutcome(reply)))
    case Leading(_, Ending(outcome)) => OutcomeOk(cfg, creator, from, url, past, outcome)
    case Leading(_, Removed(outcome)) => OutcomeOk(cfg, creator, from, url, past, outcome)
    case Leading(_, Waking(outcome, _)) => OutcomeOk(cfg, creator, from, url, past, outcome)
    case _ => true
  }

  ghost predicate ScheduleOk(cfg: Config, creator: Creator, from: nat) {
    && GoodSchedule(creator.keys) && 0 <= creator.clock && Dependable(cfg, creator)
    && from <= |creator.keys| && Grown(creator.keys, from) && (!cfg.grows ==> from == |creator.keys|)
  }

  // Every answer that has arrived from the creator is told so.
  ghost predicate AnswersInv(cfg: Config, s: State, e: string, from: nat, past: Option<u32>) {
    && e in s.creators && ScheduleOk(cfg, s.creators[e], from)
    && HeldTold(cfg, s.creators[e], from, ListAt(s.store.keys, e))
    && (forall c :: c in s.callers && EndPointOf(s.callers[c].url) == e ==>
          PhaseOk(cfg, s.creators[e], from, s.callers[c].url, past, s.callers[c].phase))
    && (forall f :: 0 <= f < |s.flights| && EndPointOf(s.flights[f].url) == e ==>
          OutcomeOk(cfg, s.creators[e], from, s.flights[f].url, past, s.flights[f].flight.outcome))
  }

  // The step does not have the creator answer for the minute before it comes.
  predicate AnswersInThePast(s: State, step: Step, e: string, past: Option<u32>) {
    step.Receive? && step.caller in s.callers && e in s.creators && past.Some? &&
    EndPointOf(s.callers[step.caller].url) == e && MinuteOf(s.callers[step.caller].url) == past ==>
      past.value <= s.creators[e].clock
  }

  ghost predicate PastRun(cfg: Config, s: State, steps: seq<Step>, e: string, past: Option<u32>)
    decreases |steps|
  {
    steps != [] ==>
      && Enabled(cfg, s, steps[0]) && AnswersInThePast(s, steps[0], e, past)
      && PastRun(cfg, Next(cfg, s, steps[0]), steps[1..], e, past)
  }

  // ---- An honest answer states the span exactly --------------------------

  lemma PartIsGood(keys: seq<DatedKey>, n: nat)
    requires GoodSchedule(keys) && n <= |keys|
    ensures GoodSchedule(keys[..n])
  {
  }

  lemma UncountedIs(keys: seq<DatedKey>, at: int)
    requires GoodSchedule(keys) && InForce(keys, at).Some?
    ensures var key := InForce(keys, at).value;
            Uncounted(keys, key.pem) <==> AsMinutes(key.startsAt).None?
  {
    var i := InForceIsChosen(keys, at);
    assert keys[i] in keys;
  }

  // A key that is in force at a counted minute and started at none is the
  // one in force at the base date.
  lemma UncountedBeganEarly(keys: seq<DatedKey>, pem: string, m: u32)
    requires GoodSchedule(keys) && Uncounted(keys, pem) && InForceFor(keys, m, pem)
    ensures BeganEarly(keys) && InForceFor(keys, 0, pem)
  {
    UncountedIs(keys, m);
    SpansPartitionTime(keys, m, m);
    SpansPartitionTime(keys, m, 0);
  }

  // Where it is never replaced it is in force at every counted minute.
  lemma UncountedStays(keys: seq<DatedKey>, pem: string, m: u32, minute: u32)
    requires GoodSchedule(keys) && Uncounted(keys, pem) && InForceFor(keys, m, pem) && !BeganEarlyAndRotates(keys)
    ensures InForceFor(keys, minute, pem)
  {
    UncountedBeganEarly(keys, pem, m);
    SpansPartitionTime(keys, 0, minute);
  }

  lemma StatedReplyIsExact(keys: seq<DatedKey>, states: bool, asked: int)
    requires GoodSchedule(keys) && InForce(keys, asked).Some?
    ensures var reply := StatedReply(keys, InForce(keys, asked).value);
            Told(keys, states, Statement(reply.pem, reply.start, reply.end))
  {
    var key := InForce(keys, asked).value;
    var reply := StatedReply(keys, key);
    var answer := Statement(reply.pem, reply.start, reply.end);
    UncountedIs(keys, asked);
    SpansPartitionTime(keys, asked, asked);
    NextStartIsEarliest(keys, key);
    if answer.known {
      forall m: u32
        ensures answer.Covers(m) <==> InForceFor(keys, m, key.pem)
      {
        SpansPartitionTime(keys, asked, m);
        assert answer.Covers(m) <==> InSpan(keys, key, m);
        if InForceFor(keys, m, key.pem) {
          SamePemSameKey(keys, m, asked);
        }
      }
    }
  }

  // Two exact statements of one key are the same statement.
  lemma ExactIsUnique(keys: seq<DatedKey>, a: KeyAnswer, b: KeyAnswer)
    requires Exact(keys, a) && Exact(keys, b) && a.pem == b.pem
    ensures a == b
  {
    assert a.Covers(a.first) && a.Covers(a.last) && b.Covers(b.first) && b.Covers(b.last);
    assert b.Covers(a.first) && b.Covers(a.last) && a.Covers(b.first) && a.Covers(b.last);
  }

  // The edges of an exact span: the start of the key, and the start of the
  // next one.
  lemma ExactEdges(keys: seq<DatedKey>, answer: KeyAnswer) returns (key: DatedKey)
    requires GoodSchedule(keys) && Exact(keys, answer)
    ensures InForce(keys, answer.first) == Some(key) && key in keys && key.pem == answer.pem
    ensures answer.first == Max(0, key.startsAt)
    ensures var next := NextStartAfter(keys, key);
            answer.last == if next.Some? && next.value <= U32_MAX then next.value - 1 else U32_MAX
  {
    assert answer.Covers(answer.first);
    key := InForce(keys, answer.first).value;
    var next := NextStartAfter(keys, key);
    SpansPartitionTime(keys, answer.first, answer.first);
    var last: u32 := if next.Some? && next.value <= U32_MAX then next.value - 1 else U32_MAX;
    var span := KeyAnswer(answer.pem, Max(0, key.startsAt), last, true);
    forall m: u32
      ensures span.Covers(m) <==> InForceFor(keys, m, answer.pem)
    {
      SpansPartitionTime(keys, answer.first, m);
      assert span.Covers(m) <==> InSpan(keys, key, m);
      if InForceFor(keys, m, answer.pem) {
        SamePemSameKey(keys, m, answer.first);
      }
    }
    ExactIsUnique(keys, answer, span);
  }

  // A key told as in force by part of a schedule is in force, by the whole of
  // it, at no minute outside the span told, but past an end that was not.
  lemma ToldHolds(keys: seq<DatedKey>, n: nat, answer: KeyAnswer, m: u32)
    requires GoodSchedule(keys) && n <= |keys| && Exact(keys[..n], answer) && InForceFor(keys, m, answer.pem)
    ensures answer.first <= m <= answer.last
  {
    PartIsGood(keys, n);
    var part := keys[..n];
    var key := ExactEdges(part, answer);
    assert key in keys;
    var i := InForceIsChosen(keys, m);
    var j :| 0 <= j < |keys| && keys[j] == key;
    assert i == j;
    var next := NextStartAfter(part, key);
    if next.Some? && next.value <= U32_MAX && m > answer.last {
      NextStartIsEarliest(part, key);
    }
  }

  // ---- What is held states what was told ---------------------------------

  // A claim states what the answer it was made from states.
  lemma ClaimStates(minute: Option<u32>, recent: bool, pem: string, start: Option<u32>, end: Option<u32>, now: u32)
    ensures var claim := ClaimOf(minute, recent, start, end, now);
            claim.Some? ==>
              && NewKey(pem, claim.value).Stated() == Statement(pem, start, end)
              && GoodKey(NewKey(pem, claim.value))
              && (start.None? ==> minute.Some?)
  {
  }

  // Within the allowance what is held of a key is known, so a wider span held
  // states what the fuller of the two statements does.
  lemma HullStatesTheFuller(cfg: Config, creator: Creator, n: nat, key: HeldKey, claim: Claim, fuller: HeldKey, other: HeldKey)
    requires GoodSchedule(creator.keys) && n <= |creator.keys| && GoodKey(key) && GoodKey(NewKey(key.pem, claim))
    requires (fuller == key && other == NewKey(key.pem, claim)) || (other == key && fuller == NewKey(key.pem, claim))
    requires fuller.explicit || (fuller.openEnded && !other.explicit)
    requires Exact(creator.keys[..n], fuller.Stated())
    requires Known(cfg, creator, other.pem, other.first) && Known(cfg, creator, other.pem, other.last)
    ensures Hull(key, claim).Stated() == fuller.Stated()
  {
    ToldHolds(creator.keys, n, fuller.Stated(), other.first);
    ToldHolds(creator.keys, n, fuller.Stated(), other.last);
  }

  lemma HullStaysTold(cfg: Config, creator: Creator, from: nat, key: HeldKey, claim: Claim)
    requires cfg.Allowed() && GoodSchedule(creator.keys) && GoodKey(key) && GoodKey(NewKey(key.pem, claim))
    requires ToldSince(creator.keys, from, creator.states, key.Stated())
    requires ToldSince(creator.keys, from, creator.states, NewKey(key.pem, claim).Stated())
    requires Known(cfg, creator, key.pem, key.first) && Known(cfg, creator, key.pem, key.last)
    requires Known(cfg, creator, key.pem, claim.first) && Known(cfg, creator, key.pem, claim.last)
    ensures ToldSince(creator.keys, from, creator.states, Hull(key, claim).Stated())
  {
    hide Exact, Known, Uncounted;
    var added := NewKey(key.pem, claim);
    var n :| from <= n <= |creator.keys| && Told(creator.keys[..n], creator.states, key.Stated());
    var l :| from <= l <= |creator.keys| && Told(creator.keys[..l], creator.states, added.Stated());
    if added.explicit || (added.openEnded && !key.explicit) {
      HullStatesTheFuller(cfg, creator, l, key, claim, added, key);
      assert Told(creator.keys[..l], creator.states, Hull(key, claim).Stated());
    } else if key.explicit || key.openEnded {
      HullStatesTheFuller(cfg, creator, n, key, claim, key, added);
      assert Told(creator.keys[..n], creator.states, Hull(key, claim).Stated());
    } else {
      assert Hull(key, claim).Stated() == key.Stated();
    }
  }

  // With a fixed schedule whose spans are always stated they are the same
  // statement.
  lemma FixedHullStaysTold(keys: seq<DatedKey>, key: HeldKey, claim: Claim)
    requires GoodKey(key) && GoodKey(NewKey(key.pem, claim))
    requires Told(keys, true, key.Stated()) && Told(keys, true, NewKey(key.pem, claim).Stated())
    ensures Told(keys, true, Hull(key, claim).Stated())
  {
    if !Uncounted(keys, key.pem) {
      ExactIsUnique(keys, key.Stated(), NewKey(key.pem, claim).Stated());
      assert Hull(key, claim).Stated() == key.Stated();
    }
  }

  lemma WholeIsTold(keys: seq<DatedKey>, states: bool, answer: KeyAnswer)
    ensures ToldSince(keys, |keys|, states, answer) <==> Told(keys, states, answer)
    ensures Told(keys, states, answer) ==> forall from: nat :: from <= |keys| ==> ToldSince(keys, from, states, answer)
  {
    assert keys[..|keys|] == keys;
  }

  lemma AnyHullStaysTold(cfg: Config, creator: Creator, from: nat, key: HeldKey, claim: Claim)
    requires ScheduleOk(cfg, creator, from) && GoodKey(key) && GoodKey(NewKey(key.pem, claim))
    requires ToldSince(creator.keys, from, creator.states, key.Stated())
    requires ToldSince(creator.keys, from, creator.states, NewKey(key.pem, claim).Stated())
    requires cfg.Allowed() ==> KnownSpan(cfg, creator, key.pem, key.first, key.last)
                               && KnownSpan(cfg, creator, key.pem, claim.first, claim.last)
    ensures ToldSince(creator.keys, from, creator.states, Hull(key, claim).Stated())
  {
    hide Told, ToldSince, Known;
    if cfg.Allowed() {
      HullStaysTold(cfg, creator, from, key, claim);
    } else {
      WholeIsTold(creator.keys, true, key.Stated());
      WholeIsTold(creator.keys, true, NewKey(key.pem, claim).Stated());
      WholeIsTold(creator.keys, true, Hull(key, claim).Stated());
      FixedHullStaysTold(creator.keys, key, claim);
    }
  }

  lemma HoldingStaysTold(cfg: Config, creator: Creator, from: nat, store: Store, e: string, pem: string, claim: Claim)
    requires ScheduleOk(cfg, creator, from) && WellFormed(store) && HeldTold(cfg, creator, from, ListAt(store.keys, e))
    requires GoodKey(NewKey(pem, claim)) && ToldSince(creator.keys, from, creator.states, NewKey(pem, claim).Stated())
    requires Reached(cfg, creator, pem)
    requires cfg.Allowed() ==> HeldOk(cfg, creator, ListAt(store.keys, e)) && KnownSpan(cfg, creator, pem, claim.first, claim.last)
    ensures HeldTold(cfg, creator, from, ListAt(Holding(store, e, pem, Some(claim)).keys, e))
  {
    hide ScheduleOk, ToldSince, Reached, AnotherMeets, Hull, NewKey, GoodKey, KnownSpan;
    var list := ListAt(store.keys, e);
    var index := Position(list, pem);
    HullKeepsPem(claim);
    if index < |list| {
      assert ToldSince(creator.keys, from, creator.states, list[index].Stated());
      AnyHullStaysTold(cfg, creator, from, list[index], claim);
    }
  }

  lemma HullKeepsPem(claim: Claim)
    ensures forall key :: Hull(key, claim).pem == key.pem
    ensures forall pem :: NewKey(pem, claim).pem == pem
  {
  }

  // ---- Each step keeps it ------------------------------------------------

  lemma SettleKeepsAnswers(cfg: Config, s: State, c: nat, e: string, from: nat, past: Option<u32>)
    requires AnswersInv(cfg, s, e, from, past) && WellFormed(s.store) && Enabled(cfg, s, Settle(c))
    requires cfg.Allowed() ==> HonestInv(cfg, s)
    ensures AnswersInv(cfg, AfterSettle(s, c), e, from, past)
  {
    hide ScheduleOk, ToldSince, Reached, Known, Statement, Holding, WellFormed, GoodKey, HonestInv;
    var t := AfterSettle(s, c);
    var creator := s.creators[e];
    var caller := s.callers[c];
    var reply := StageOf(s, c).reply;
    var claim := ReplyClaim(caller, reply, s.now);
    if EndPointOf(caller.url) != e {
      HoldingLeavesOthers(s.store, EndPointOf(caller.url), ReplyPem(reply), claim, e);
    } else if claim.Some? {
      assert PhaseOk(cfg, creator, from, caller.url, past, caller.phase);
      ClaimStates(MinuteOf(caller.url), caller.recent, reply.pem, reply.start, reply.end, s.now);
      assert Reached(cfg, creator, reply.pem) by {
        AnswerIsReached(cfg, creator, from, MinuteOf(caller.url), past, reply);
      }
      if cfg.Allowed() {
        SettledIsKnown(cfg, s, c, e);
      }
      HoldingStaysTold(cfg, creator, from, s.store, e, reply.pem, claim.value);
    } else {
      NothingHeld(s.store, e, ReplyPem(reply));
    }
  }

  lemma NothingHeld(store: Store, e: string, pem: string)
    ensures Holding(store, e, pem, None) == store
  {
  }

  lemma SettledIsKnown(cfg: Config, s: State, c: nat, e: string)
    requires cfg.Allowed() && HonestInv(cfg, s) && Enabled(cfg, s, Settle(c)) && EndPointOf(s.callers[c].url) == e && e in s.creators
    requires ReplyClaim(s.callers[c], StageOf(s, c).reply, s.now).Some?
    ensures var claim := ReplyClaim(s.callers[c], StageOf(s, c).reply, s.now).value;
            && HeldOk(cfg, s.creators[e], ListAt(s.store.keys, e))
            && KnownSpan(cfg, s.creators[e], ReplyPem(StageOf(s, c).reply), claim.first, claim.last)
  {
    hide KnownSpan, ReplyClaim;
    PendingClaim(cfg, s, c);
  }

  lemma AnswerIsReached(cfg: Config, creator: Creator, from: nat, asked: Option<u32>, past: Option<u32>, reply: Reply)
    requires reply.Answer? && AnswerOk(cfg, creator, from, asked, past, Statement(reply.pem, reply.start, reply.end))
    requires reply.start.None? ==> asked.Some?
    ensures Reached(cfg, creator, reply.pem)
  {
    hide ToldSince, Reached, Known;
  }

  lemma HeldForIsTold(cfg: Config, creator: Creator, from: nat, held: Keys, e: string, minute: u32, recent: bool)
    requires HeldTold(cfg, creator, from, ListAt(held, e)) && HeldFor(held, e, minute, recent).Some?
    ensures var answer := HeldFor(held, e, minute, recent).value;
            && ToldSince(creator.keys, from, creator.states, answer) && Reached(cfg, creator, answer.pem)
            && (answer.known ==> answer.Covers(minute))
            && (HeldOk(cfg, creator, ListAt(held, e)) ==> Known(cfg, creator, answer.pem, minute))
  {
    hide ToldSince, Reached, Known;
    var list := ListAt(held, e);
    FindKeyFinds(list, minute, recent);
    var i :| 0 <= i < |list| && list[i] == FindKey(list, minute, recent).value;
    assert HeldOk(cfg, creator, list) ==> KnownSpan(cfg, creator, list[i].pem, list[i].first, list[i].last);
  }

  lemma HeldForIsOk(cfg: Config, s: State, e: string, from: nat, minute: u32, recent: bool, past: Option<u32>)
    requires e in s.creators && ScheduleOk(cfg, s.creators[e], from) && HeldTold(cfg, s.creators[e], from, ListAt(s.store.keys, e))
    requires cfg.Allowed() ==> HeldOk(cfg, s.creators[e], ListAt(s.store.keys, e))
    requires HeldFor(s.store.keys, e, minute, recent).Some? && (past.Some? ==> Trusted(cfg, s.creators[e]))
    ensures AnswerOk(cfg, s.creators[e], from, Some(minute), past, HeldFor(s.store.keys, e, minute, recent).value)
  {
    hide HeldFor, HeldOk, GoodSchedule, BeganEarlyAndRotates, Uncounted, ToldSince, Grown, Settled;
    var creator := s.creators[e];
    var answer := HeldFor(s.store.keys, e, minute, recent).value;
    HeldForIsTold(cfg, creator, from, s.store.keys, e, minute, recent);
    if past == Some(minute) && !cfg.Allowed() {
      WholeIsTold(creator.keys, true, answer);
      if !answer.known {
        var m: u32 :| Known(cfg, creator, answer.pem, m);
        UncountedStays(creator.keys, answer.pem, m, minute);
      }
    }
  }

  lemma TurnKeepsAnswers(cfg: Config, s: State, c: nat, e: string, from: nat, past: Option<u32>)
    requires AnswersInv(cfg, s, e, from, past) && Enabled(cfg, s, TakeTurn(c))
    requires (cfg.Allowed() ==> HonestInv(cfg, s)) && (past.Some? ==> Trusted(cfg, s.creators[e]))
    ensures AnswersInv(cfg, AfterTurn(s, c), e, from, past)
  {
    hide AnswerOk, ScheduleOk, HeldTold, HeldFor, AfterTurn, Trusted, HeldOk, EndPointOf, MinuteOf;
    TurnMoves(s, c);
    var url := s.callers[c].url;
    if Lookup(s, url, s.callers[c].recent).Some? && EndPointOf(url) == e {
      HeldForIsOk(cfg, s, e, from, MinuteOf(url).value, s.callers[c].recent, past);
    }
  }

  lemma HonestReplyIsOk(cfg: Config, creator: Creator, from: nat, asked: Option<u32>, past: Option<u32>, reply: Reply)
    requires ScheduleOk(cfg, creator, from) && HonestReply(creator, asked, reply)
    requires asked.Some? && asked == past ==> past.value <= creator.clock
    ensures reply.Answer? ==> AnswerOk(cfg, creator, from, asked, past, Statement(reply.pem, reply.start, reply.end))
  {
    hide ToldSince, GoodSchedule, Grown;
    if reply.Answer? {
      var at := AskedMinute(creator, asked);
      var key := InForce(creator.keys, at).value;
      var answer := Statement(reply.pem, reply.start, reply.end);
      StatedReplyIsExact(creator.keys, creator.states, at);
      WholeIsTold(creator.keys, creator.states, answer);
      if asked.Some? {
        assert Known(cfg, creator, reply.pem, at);
      } else if answer.known {
        SpansPartitionTime(creator.keys, at, at);
        NextStartIsEarliest(creator.keys, key);
        SpansPartitionTime(creator.keys, at, key.startsAt);
        var m: u32 := answer.first;
        assert Known(cfg, creator, reply.pem, m);
      }
    }
  }

  lemma ReceiveKeepsAnswers(cfg: Config, s: State, c: nat, reply: Reply, e: string, from: nat, past: Option<u32>)
    requires AnswersInv(cfg, s, e, from, past) && Enabled(cfg, s, Receive(c, reply)) && AnswersInThePast(s, Receive(c, reply), e, past)
    ensures AnswersInv(cfg, WithStage(s, c, Answered(reply, s.now)), e, from, past)
  {
    hide AnswerOk, HeldTold, ScheduleOk;
    var url := s.callers[c].url;
    if EndPointOf(url) == e {
      HonestReplyIsOk(cfg, s.creators[e], from, MinuteOf(url), past, reply);
    }
  }

  lemma WaitsForItsUrl(s: State, c: nat)
    requires FlightsInv(s) && c in s.callers && s.callers[c].phase.Waiting? && s.callers[c].phase.on < |s.flights|
    ensures s.flights[s.callers[c].phase.on].url == s.callers[c].url
  {
    assert CallerOk(s, c);
  }

  lemma PollPassesOn(s: State, c: nat, waker: Waker)
    requires c in s.callers && s.callers[c].phase.Waiting? && s.callers[c].phase.on < |s.flights|
    ensures var t := AfterPoll(s, c, waker);
            && (forall f :: 0 <= f < |s.flights| ==> t.flights[f].flight.outcome == s.flights[f].flight.outcome && t.flights[f].url == s.flights[f].url)
            && (t.callers[c].phase.Done? ==> Some(t.callers[c].phase.result) == s.flights[s.callers[c].phase.on].flight.outcome)
  {
    hide Without;
  }

  lemma PollKeepsAnswers(cfg: Config, s: State, c: nat, waker: Waker, e: string, from: nat, past: Option<u32>)
    requires AnswersInv(cfg, s, e, from, past) && FlightsInv(s) && Enabled(cfg, s, PollFlight(c, waker))
    ensures AnswersInv(cfg, AfterPoll(s, c, waker), e, from, past)
  {
    hide ScheduleOk, HeldTold, OutcomeOk, FlightsInv, CallerOk, AfterPoll;
    WaitsForItsUrl(s, c);
    PollMoves(s, c, waker);
    PollPassesOn(s, c, waker);
  }

  lemma PublishKeepsAnswers(cfg: Config, s: State, c: nat, e: string, from: nat, past: Option<u32>)
    requires AnswersInv(cfg, s, e, from, past) && FlightsInv(s) && Enabled(cfg, s, Publish(c))
    ensures AnswersInv(cfg, AfterPublish(s, c), e, from, past)
  {
    hide ScheduleOk, HeldTold, OutcomeOk;
    assert CallerOk(s, c);
  }

  lemma WakeKeepsAnswers(cfg: Config, s: State, c: nat, e: string, from: nat, past: Option<u32>)
    requires AnswersInv(cfg, s, e, from, past) && Enabled(cfg, s, Wake(c))
    ensures AnswersInv(cfg, AfterWake(s, c), e, from, past)
  {
    hide ScheduleOk, HeldTold, OutcomeOk;
  }

  // A step that moves the creator on and nothing else of its end point.
  ghost predicate MovesOn(cfg: Config, was: Creator, now: Creator) {
    Follows(cfg, was, now) && was.keys <= now.keys && was.states == now.states
  }

  lemma ToldStays(was: seq<DatedKey>, now: seq<DatedKey>, from: nat, states: bool, answer: KeyAnswer)
    requires was <= now && ToldSince(was, from, states, answer)
    ensures ToldSince(now, from, states, answer)
  {
    var n :| from <= n <= |was| && Told(was[..n], states, answer);
    assert now[..n] == was[..n];
  }

  lemma ReachedStays(cfg: Config, was: Creator, now: Creator, pem: string)
    requires Follows(cfg, was, now) && Reached(cfg, was, pem)
    ensures Reached(cfg, now, pem)
  {
    var m: u32 :| Known(cfg, was, pem, m);
    assert Known(cfg, now, pem, m);
  }

  lemma AnswerStays(cfg: Config, was: Creator, now: Creator, from: nat, asked: Option<u32>, past: Option<u32>, answer: KeyAnswer)
    requires MovesOn(cfg, was, now) && AnswerOk(cfg, was, from, asked, past, answer)
    ensures AnswerOk(cfg, now, from, asked, past, answer)
  {
    hide ToldSince, Reached, Known;
    ToldStays(was.keys, now.keys, from, was.states, answer);
    if Reached(cfg, was, answer.pem) {
      ReachedStays(cfg, was, now, answer.pem);
    }
  }

  lemma OutcomeStays(cfg: Config, was: Creator, now: Creator, from: nat, url: string, past: Option<u32>, outcome: Option<Outcome>)
    requires MovesOn(cfg, was, now) && OutcomeOk(cfg, was, from, url, past, outcome)
    ensures OutcomeOk(cfg, now, from, url, past, outcome)
  {
    hide AnswerOk, MovesOn;
    if outcome.Some? && outcome.value.Ok? {
      AnswerStays(cfg, was, now, from, MinuteOf(url), past, outcome.value.value);
    }
  }

  lemma PhaseStays(cfg: Config, was: Creator, now: Creator, from: nat, url: string, past: Option<u32>, phase: Phase)
    requires MovesOn(cfg, was, now) && PhaseOk(cfg, was, from, url, past, phase)
    ensures PhaseOk(cfg, now, from, url, past, phase)
  {
    hide OutcomeOk, MovesOn;
    match phase
    case Done(result) => OutcomeStays(cfg, was, now, from, url, past, Some(result));
    case Leading(_, Answered(reply, _)) => OutcomeStays(cfg, was, now, from, url, past, Some(ReplyOutcome(reply)));
    case Leading(_, Ending(outcome)) => OutcomeStays(cfg, was, now, from, url, past, outcome);
    case Leading(_, Removed(outcome)) => OutcomeStays(cfg, was, now, from, url, past, outcome);
    case Leading(_, Waking(outcome, _)) => OutcomeStays(cfg, was, now, from, url, past, outcome);
    case _ =>
  }

  lemma HeldStays(cfg: Config, was: Creator, now: Creator, from: nat, list: seq<HeldKey>)
    requires MovesOn(cfg, was, now) && HeldTold(cfg, was, from, list)
    ensures HeldTold(cfg, now, from, list)
  {
    hide ToldSince, Reached, Follows;
    forall i | 0 <= i < |list|
      ensures ToldSince(now.keys, from, now.states, list[i].Stated()) && Reached(cfg, now, list[i].pem)
    {
      ToldStays(was.keys, now.keys, from, was.states, list[i].Stated());
      ReachedStays(cfg, was, now, list[i].pem);
    }
  }

  lemma CreatorMovesOn(cfg: Config, s: State, t: State, e: string, from: nat, past: Option<u32>)
    requires AnswersInv(cfg, s, e, from, past) && t.store == s.store && t.callers == s.callers && t.flights == s.flights
    requires e in t.creators && MovesOn(cfg, s.creators[e], t.creators[e]) && ScheduleOk(cfg, t.creators[e], from)
    ensures AnswersInv(cfg, t, e, from, past)
  {
    hide ScheduleOk, MovesOn, HeldTold, PhaseOk, OutcomeOk, EndPointOf;
    HeldStays(cfg, s.creators[e], t.creators[e], from, ListAt(s.store.keys, e));
    forall c | c in t.callers && EndPointOf(t.callers[c].url) == e
      ensures PhaseOk(cfg, t.creators[e], from, t.callers[c].url, past, t.callers[c].phase)
    {
      PhaseStays(cfg, s.creators[e], t.creators[e], from, t.callers[c].url, past, t.callers[c].phase);
    }
    forall f | 0 <= f < |t.flights| && EndPointOf(t.flights[f].url) == e
      ensures OutcomeOk(cfg, t.creators[e], from, t.flights[f].url, past, t.flights[f].flight.outcome)
    {
      OutcomeStays(cfg, s.creators[e], t.creators[e], from, t.flights[f].url, past, t.flights[f].flight.outcome);
    }
  }

  lemma TickKeepsAnswers(cfg: Config, s: State, now: u32, clocks: map<string, int>, e: string, from: nat, past: Option<u32>)
    requires AnswersInv(cfg, s, e, from, past) && Enabled(cfg, s, Tick(now, clocks))
    ensures AnswersInv(cfg, AfterTick(s, now, clocks), e, from, past)
  {
    CreatorMovesOn(cfg, s, AfterTick(s, now, clocks), e, from, past);
  }

  lemma AppendMovesOn(cfg: Config, was: Creator, key: DatedKey, from: nat)
    requires cfg.grows && ScheduleOk(cfg, was, from) && was.clock < key.startsAt
    requires forall k :: k in was.keys ==> k.startsAt < key.startsAt && k.pem != key.pem
    ensures var now := was.(keys := was.keys + [key]);
            MovesOn(cfg, was, now) && ScheduleOk(cfg, now, from)
  {
    AppendFollows(cfg, was, key);
    assert forall i :: 0 <= i < |was.keys| ==> was.keys[i] in was.keys;
  }

  lemma AppendKeepsAnswers(cfg: Config, s: State, at: string, key: DatedKey, e: string, from: nat, past: Option<u32>)
    requires AnswersInv(cfg, s, e, from, past) && Enabled(cfg, s, Append(at, key))
    ensures AnswersInv(cfg, Next(cfg, s, Append(at, key)), e, from, past)
  {
    hide ScheduleOk, HeldTold, PhaseOk, OutcomeOk, MovesOn;
    if at == e {
      AppendMovesOn(cfg, s.creators[e], key, from);
      CreatorMovesOn(cfg, s, Next(cfg, s, Append(at, key)), e, from, past);
    }
  }

  lemma OtherStepKeepsAnswers(cfg: Config, s: State, step: Step, e: string, from: nat, past: Option<u32>)
    requires AnswersInv(cfg, s, e, from, past) && Enabled(cfg, s, step)
    requires !step.Settle? && !step.TakeTurn? && !step.Receive? && !step.PollFlight? && !step.Publish? && !step.Wake?
    requires !step.Tick? && !step.Append?
    ensures AnswersInv(cfg, Next(cfg, s, step), e, from, past)
  {
    hide ScheduleOk, ToldSince, Reached, AnswerOk, Holding, Lookup, Polled, HonestReply;
  }

  lemma StepKeepsAnswers(cfg: Config, s: State, step: Step, e: string, from: nat, past: Option<u32>)
    requires AnswersInv(cfg, s, e, from, past) && FlightsInv(s) && WellFormed(s.store) && Enabled(cfg, s, step)
    requires AnswersInThePast(s, step, e, past)
    requires (cfg.Allowed() ==> HonestInv(cfg, s)) && (past.Some? ==> Trusted(cfg, s.creators[e]))
    ensures AnswersInv(cfg, Next(cfg, s, step), e, from, past)
  {
    hide HonestInv, Trusted, AnswersInv, FlightsInv, WellFormed, AfterTurn, AfterSettle, AfterPoll, AfterWake, AfterPublish, AfterTick, HonestReply;
    match step
    case TakeTurn(c) => TurnKeepsAnswers(cfg, s, c, e, from, past);
    case Receive(c, reply) => ReceiveKeepsAnswers(cfg, s, c, reply, e, from, past);
    case Settle(c) => SettleKeepsAnswers(cfg, s, c, e, from, past);
    case Publish(c) => PublishKeepsAnswers(cfg, s, c, e, from, past);
    case Wake(c) => WakeKeepsAnswers(cfg, s, c, e, from, past);
    case PollFlight(c, waker) => PollKeepsAnswers(cfg, s, c, waker, e, from, past);
    case Tick(now, clocks) => TickKeepsAnswers(cfg, s, now, clocks, e, from, past);
    case Append(at, key) => AppendKeepsAnswers(cfg, s, at, key, e, from, past);
    case _ => OtherStepKeepsAnswers(cfg, s, step, e, from, past);
  }

  // A schedule that is fixed stays, and any schedule keeps the keys it has.
  lemma CreatorStays(cfg: Config, s: State, step: Step, e: string)
    requires Enabled(cfg, s, step) && e in s.creators
    ensures e in Next(cfg, s, step).creators
    ensures var was, now := s.creators[e], Next(cfg, s, step).creators[e];
            was.keys <= now.keys && was.states == now.states && (!cfg.grows ==> now.keys == was.keys)
  {
    hide Holding, Lookup, Polled, HonestReply;
  }

  lemma {:induction false} RunKeepsAnswers(cfg: Config, s: State, steps: seq<Step>, t: State, e: string, from: nat, past: Option<u32>)
    requires AnswersInv(cfg, s, e, from, past) && FlightsInv(s) && WellFormed(s.store) && Runs(cfg, s, steps, t)
    requires PastRun(cfg, s, steps, e, past)
    requires (cfg.Allowed() ==> HonestInv(cfg, s)) && (past.Some? ==> Trusted(cfg, s.creators[e]))
    ensures AnswersInv(cfg, t, e, from, past)
    ensures s.creators[e].keys <= t.creators[e].keys && t.creators[e].states == s.creators[e].states
    decreases |steps|
  {
    hide AnswersInv, FlightsInv, WellFormed, HonestInv, Next, Enabled, AnswersInThePast, BeganEarlyAndRotates;
    assert e in s.creators by {
      IsCreator(cfg, s, e, from, past);
    }
    if steps != [] {
      StepKeepsAnswers(cfg, s, steps[0], e, from, past);
      CreatorStays(cfg, s, steps[0], e);
      StepKeepsFlights(cfg, s, steps[0]);
      StepKeepsStore(cfg, s, steps[0]);
      if cfg.Allowed() {
        StepKeepsHonesty(cfg, s, steps[0]);
      }
      RunKeepsAnswers(cfg, Next(cfg, s, steps[0]), steps[1..], t, e, from, past);
    }
  }

  lemma IsCreator(cfg: Config, s: State, e: string, from: nat, past: Option<u32>)
    requires AnswersInv(cfg, s, e, from, past)
    ensures e in s.creators
  {
  }

  // ---- What follows for every run ----------------------------------------

  lemma ReachedAnswers(cfg: Config, s: State, steps: seq<Step>, t: State, e: string, past: Option<u32>)
    requires Initial(cfg, s) && Runs(cfg, s, steps, t) && e in s.creators && Dependable(cfg, s.creators[e])
    requires PastRun(cfg, s, steps, e, past) && (past.Some? ==> Trusted(cfg, s.creators[e]))
    ensures AnswersInv(cfg, t, e, |s.creators[e].keys|, past) && s.creators[e].keys <= t.creators[e].keys
    ensures t.creators[e].states == s.creators[e].states
  {
    hide Trusted, HonestInv, PastRun;
    InitialIsHonest(cfg, s);
    assert Total(map[]) == 0;
    assert FlightsInv(s) && WellFormed(s.store) && AnswersInv(cfg, s, e, |s.creators[e].keys|, past);
    RunKeepsAnswers(cfg, s, steps, t, e, |s.creators[e].keys|, past);
  }

  // In every run, clears, cancellations, evictions and failures included,
  // and whatever the clocks and the other creators do, a caller that is
  // answered with the creator's key is told exactly the minutes the key is in
  // force by the schedule as it stood at some time of the run, or no span.
  // With a fixed schedule that is the schedule, and with spans always stated
  // it is no span exactly where the key's start cannot be counted.
  lemma EveryAnswerIsExact(cfg: Config, s: State, steps: seq<Step>, t: State, c: nat)
    requires Initial(cfg, s) && Runs(cfg, s, steps, t) && c in t.callers
    requires t.callers[c].phase.Done? && t.callers[c].phase.result.Ok?
    requires var e := EndPointOf(t.callers[c].url); e in s.creators && Dependable(cfg, s.creators[e])
    ensures var e := EndPointOf(t.callers[c].url);
            var answer := t.callers[c].phase.result.value;
            && e in t.creators && ScheduleOk(cfg, t.creators[e], |s.creators[e].keys|)
            && s.creators[e].keys <= t.creators[e].keys && t.creators[e].states == s.creators[e].states
            && ToldSince(t.creators[e].keys, |s.creators[e].keys|, s.creators[e].states, answer)
            && (MinuteOf(t.callers[c].url).Some? || answer.known ==> Reached(cfg, t.creators[e], answer.pem))
  {
    hide ScheduleOk, ToldSince, Reached, Initial, PastRun, Dependable;
    var e := EndPointOf(t.callers[c].url);
    NothingAsked(cfg, s, steps, t, e);
    ReachedAnswers(cfg, s, steps, t, e, None);
    assert PhaseOk(cfg, t.creators[e], |s.creators[e].keys|, t.callers[c].url, None, t.callers[c].phase);
  }

  lemma {:induction false} NothingAsked(cfg: Config, s: State, steps: seq<Step>, t: State, e: string)
    requires Runs(cfg, s, steps, t)
    ensures PastRun(cfg, s, steps, e, None)
    decreases |steps|
  {
    hide Next, Enabled;
    if steps != [] {
      NothingAsked(cfg, Next(cfg, s, steps[0]), steps[1..], t, e);
    }
  }

  // And where the creator never answered for the URL's minute before it
  // came, the key is the one in force at that minute, from the cache, from
  // another caller's fetch or from its own, and there is no answer where no
  // key was in force. A key that states no span is held minute by minute, so
  // where one is replaced the clocks have to be within the allowance.
  lemma PastMinutesAreAnswered(cfg: Config, s: State, steps: seq<Step>, t: State, c: nat, minute: u32)
    requires Initial(cfg, s) && Runs(cfg, s, steps, t) && c in t.callers
    requires t.callers[c].phase.Done? && MinuteOf(t.callers[c].url) == Some(minute)
    requires var e := EndPointOf(t.callers[c].url);
             e in s.creators && Trusted(cfg, s.creators[e]) && PastRun(cfg, s, steps, e, Some(minute))
    ensures var e := EndPointOf(t.callers[c].url);
            var result := t.callers[c].phase.result;
            && e in t.creators && ScheduleOk(cfg, t.creators[e], |s.creators[e].keys|)
            && s.creators[e].keys <= t.creators[e].keys && t.creators[e].states == s.creators[e].states
            && (result.Ok? ==> ToldSince(t.creators[e].keys, |s.creators[e].keys|, s.creators[e].states, result.value)
                               && InForceFor(t.creators[e].keys, minute, result.value.pem))
            && (InForce(t.creators[e].keys, minute).None? ==> result.Err?)
  {
    hide ScheduleOk, ToldSince, Reached, Initial, PastRun, BeganEarlyAndRotates;
    var e := EndPointOf(t.callers[c].url);
    ReachedAnswers(cfg, s, steps, t, e, Some(minute));
    assert PhaseOk(cfg, t.creators[e], |s.creators[e].keys|, t.callers[c].url, Some(minute), t.callers[c].phase);
  }
}
