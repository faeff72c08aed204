// Where a genuine OWID can read as a forgery, or a signer near enough be
// missed, although the creator states its spans. With a fixed schedule it is
// exactly where that began before the base date and rotates after it, because
// the first key's start cannot be counted and the client takes its span as
// not stated. With keys added it is where one was added since an answer
// without an end.
module VerifyLimits {
  import opened Wrappers
  import opened Numbers
  import opened Schedule
  import opened KeyUrl
  import opened KeyCache
  import opened Flights
  import opened Protocol
  import opened FlightLimits
  import opened CacheLimits
  import opened Answers
  import opened Verify

  // A caller of the run asked for the key of the OWID's minute, the OWID
  // verifies under the key in force then, and is answered as not matching.
  ghost predicate Misreads(cfg: Config, keys: seq<DatedKey>, e: string, s: State, steps: seq<Step>, t: State, c: nat,
                           minute: u32, check: Checker, ask: Answering) {
    && Initial(cfg, s) && Runs(cfg, s, steps, t) && c in t.callers
    && var Caller(url, _, phase, _, _) := t.callers[c];
       && EndPointOf(url) == e && MinuteOf(url) == Some(minute) && phase == Done(ask(0, url))
       && e in s.creators && s.creators[e].states && s.creators[e].keys == keys
       && InForce(keys, minute).Some? && check(InForce(keys, minute).value.pem) == Ok(true)
       && Verdict(url, Some(minute), check, ask) == Ok(false)
  }

  // The leader of a fetch nobody joined records its answer and returns it.
  lemma ReturnsAlone(cfg: Config, u: State, c: nat) returns (steps: seq<Step>, t: State)
    requires LeadsAt(u, c) && StageOf(u, c).Answered? && u.flights[u.callers[c].phase.flight].flight.wakers == []
    ensures Runs(cfg, u, steps, t) && c in t.callers
    ensures t.callers[c] == u.callers[c].(phase := Done(ReplyOutcome(StageOf(u, c).reply))) && t.creators == u.creators
  {
    hide Holding, EndPointOf, MinuteOf, ReplyClaim, ReplyOutcome;
    var u1 := Next(cfg, u, Settle(c));
    var u2 := Next(cfg, u1, RemoveEntry(c));
    var u3 := Next(cfg, u2, Publish(c));
    t := Next(cfg, u3, Return(c));
    OneStep(cfg, u, Settle(c));
    OneStep(cfg, u1, RemoveEntry(c));
    OneStep(cfg, u2, Publish(c));
    OneStep(cfg, u3, Return(c));
    RunsOn(cfg, u, [Settle(c)], u1, [RemoveEntry(c)], u2);
    RunsOn(cfg, u, [Settle(c)] + [RemoveEntry(c)], u2, [Publish(c)], u3);
    RunsOn(cfg, u, [Settle(c)] + [RemoveEntry(c)] + [Publish(c)], u3, [Return(c)], t);
    steps := [Settle(c)] + [RemoveEntry(c)] + [Publish(c)] + [Return(c)];
  }

  // Just before the rotation the creator answers for the minute after it with
  // the first key, as its own minute calls for.
  lemma AnswersWithTheFirstKey(keys: seq<DatedKey>, minute: u32)
    requires GoodSchedule(keys) && BeganEarlyAndRotates(keys)
    requires minute == NextStartAfter(keys, InForce(keys, 0).value).value
    ensures 0 < minute && InForce(keys, minute - 1) == InForce(keys, 0)
    ensures InForce(keys, minute).Some? && InForce(keys, minute).value.pem != InForce(keys, 0).value.pem
    ensures var reply := StatedReply(keys, InForce(keys, 0).value);
            HonestReply(Creator(keys, minute - 1, true), Some(minute), reply) && reply.start.None?
  {
    var first := InForce(keys, 0).value;
    SpansPartitionTime(keys, 0, 0);
    SpansPartitionTime(keys, 0, minute - 1);
    SpansPartitionTime(keys, 0, minute);
    NextStartIsEarliest(keys, first);
    InForceNone(keys, minute);
    if InForce(keys, minute).Some? && InForce(keys, minute).value.pem == first.pem {
      var i := InForceIsChosen(keys, minute);
      var j := InForceIsChosen(keys, 0);
    }
  }

  lemma ReadsAsAForgery(url: string, minute: u32, pem: string, signer: string, check: Checker, ask: Answering)
    requires pem != signer && (forall p :: check(p) == Ok(p == signer))
    requires ask(0, url) == Ok(KeyAnswer(pem, 0, 0, false))
    ensures check(signer) == Ok(true) && Verdict(url, Some(minute), check, ask) == Ok(false)
  {
  }

  lemma RotationMisleads(cfg: Config, keys: seq<DatedKey>, e: string)
    returns (s: State, steps: seq<Step>, t: State, minute: u32, check: Checker, ask: Answering)
    requires !cfg.grows && GoodSchedule(keys) && BeganEarlyAndRotates(keys) && '?' !in e
    ensures Misreads(cfg, keys, e, s, steps, t, 0, minute, check, ask)
  {
    hide HonestReply, StatedReply, InForce, NextStartAfter, KeyUrlAt, EndPointOf, MinuteOf, Runs, GoodSchedule, BeganEarlyAndRotates, Verdict;
    minute := RotationMinute(keys);
    var first := InForce(keys, 0).value;
    AnswersWithTheFirstKey(keys, minute);
    s := State(minute - 1, EMPTY, map[], [], map[], map[e := Creator(keys, minute - 1, true)], []);
    var url := KeyUrlAt(e, minute);
    KeyUrlRoundTrip(e, minute);
    var reply := StatedReply(keys, first);
    var before, u := IsAnswered(cfg, s, url, reply);
    var after;
    after, t := ReturnsAlone(cfg, u, 0);
    RunsOn(cfg, s, before, u, after, t);
    steps := before + after;
    var signer := InForce(keys, minute).value.pem;
    check := p => Ok(p == signer);
    ask := (_, _) => Ok(KeyAnswer(first.pem, 0, 0, false));
    assert ReplyOutcome(reply) == Ok(KeyAnswer(first.pem, 0, 0, false)) by {
      NoSpanIsRead(keys, first);
    }
    ReadsAsAForgery(url, minute, first.pem, signer, check, ask);
  }

  // The minute of that rotation.
  function RotationMinute(keys: seq<DatedKey>): (minute: u32)
    requires BeganEarlyAndRotates(keys)
    ensures InForce(keys, 0).Some? && NextStartAfter(keys, InForce(keys, 0).value) == Some(minute)
  {
    var next := NextStartAfter(keys, InForce(keys, 0).value).value;
    assert next >= 0 by {
      SpansPartitionTime(keys, 0, 0);
    }
    next
  }

  lemma NoSpanIsRead(keys: seq<DatedKey>, key: DatedKey)
    requires StatedReply(keys, key).start.None?
    ensures ReplyOutcome(StatedReply(keys, key)) == Ok(KeyAnswer(key.pem, 0, 0, false))
  {
  }

  // For a fixed schedule whose creator always states its spans, at any end
  // point and with any skew, some run reads a genuine OWID as a forgery
  // exactly where the schedule began before the base date and rotates after
  // it.
  lemma ForgeriesAreReadExactlyWhereTheScheduleBeganEarly(cfg: Config, keys: seq<DatedKey>, e: string)
    requires !cfg.grows && GoodSchedule(keys) && '?' !in e
    ensures (exists s, steps, t, c, minute, check, ask :: Misreads(cfg, keys, e, s, steps, t, c, minute, check, ask))
       <==> BeganEarlyAndRotates(keys)
  {
    hide Misreads, BeganEarlyAndRotates, GoodSchedule;
    if BeganEarlyAndRotates(keys) {
      var s, steps, t, minute, check, ask := RotationMisleads(cfg, keys, e);
    } else {
      forall s, steps, t, c, minute, check, ask | Misreads(cfg, keys, e, s, steps, t, c, minute, check, ask)
        ensures false
      {
        MisreadingTakesARotation(cfg, keys, e, s, steps, t, c, minute, check, ask);
      }
    }
  }

  lemma MisreadingTakesARotation(cfg: Config, keys: seq<DatedKey>, e: string, s: State, steps: seq<Step>, t: State, c: nat,
                                 minute: u32, check: Checker, ask: Answering)
    requires !cfg.grows && Misreads(cfg, keys, e, s, steps, t, c, minute, check, ask)
    ensures BeganEarlyAndRotates(keys)
  {
    hide Initial, Runs, Verdict, GoodSchedule, BeganEarlyAndRotates, MinuteOf, EndPointOf, InForce, Uncounted;
    FixedStays(cfg, s, steps, t, e);
    NoGenuineOwidReadsAsAForgery(cfg, s, steps, t, c, minute, check, ask);
  }

  lemma {:induction false} FixedStays(cfg: Config, s: State, steps: seq<Step>, t: State, e: string)
    requires !cfg.grows && Runs(cfg, s, steps, t) && e in s.creators
    ensures e in t.creators && t.creators[e].keys == s.creators[e].keys && t.creators[e].states == s.creators[e].states
    decreases |steps|
  {
    hide Next, Enabled;
    if steps != [] {
      CreatorStays(cfg, s, steps[0], e);
      FixedStays(cfg, Next(cfg, s, steps[0]), steps[1..], t, e);
    }
  }

  // ---- Keys added since an answer ----------------------------------------

  lemma AddsKey(cfg: Config, s: State, e: string, key: DatedKey) returns (t: State)
    requires cfg.grows && e in s.creators && s.creators[e].clock < key.startsAt
    requires forall k :: k in s.creators[e].keys ==> k.startsAt < key.startsAt && k.pem != key.pem
    ensures Runs(cfg, s, [Append(e, key)], t)
    ensures t == s.(creators := t.creators) && e in t.creators && t.creators[e] == s.creators[e].(keys := s.creators[e].keys + [key])
  {
    t := Next(cfg, s, Append(e, key));
    OneStep(cfg, s, Append(e, key));
  }

  // A caller that finds the minute in the cache.
  lemma FindsHeld(cfg: Config, s: State, c: nat, url: string) returns (steps: seq<Step>, t: State)
    requires c !in s.callers && MinuteOf(url).Some?
    requires Lookup(s, url, Recent(MinuteOf(url).value, s.now)).Some?
    ensures Runs(cfg, s, steps, t) && t.creators == s.creators && c in t.callers && t.callers[c].url == url
    ensures t.callers[c].phase == Done(Ok(Lookup(s, url, Recent(MinuteOf(url).value, s.now)).value))
  {
    hide HeldFor, EndPointOf, MinuteOf;
    var s1 := Next(cfg, s, Call(c, url));
    t := Next(cfg, s1, TakeTurn(c));
    OneStep(cfg, s, Call(c, url));
    OneStep(cfg, s1, TakeTurn(c));
    RunsOn(cfg, s, [Call(c, url)], s1, [TakeTurn(c)], t);
    steps := [Call(c, url)] + [TakeTurn(c)];
  }

  lemma OpenEndIsNotPassed(url: string, minute: u32, pem: string, signer: string, check: Checker, ask: Answering)
    requires pem != signer && (forall p :: check(p) == Ok(p == signer))
    requires ask(0, url) == Ok(KeyAnswer(pem, 0, U32_MAX, true))
    ensures Verdict(url, Some(minute), check, ask) == Ok(false)
  {
  }

  // The key that follows at minute 101 reaches back to minute 85.
  lemma NextReaches(a: DatedKey, b: DatedKey)
    requires a.startsAt == 0 && b.startsAt == 101 && a.pem != b.pem
    ensures SignerReaches([a, b], 85, b.pem) && !InForceFor([a, b], 85, b.pem) && !ReachesBack([a, b], 85, b.pem)
    ensures InForceFor([a, b], 101, b.pem)
  {
    TwoKeys(a, b, 85);
    TwoKeys(a, b, 101);
    SpansPartitionTime([a, b], 85, 85);
    NextStartIsEarliest([a, b], a);
    assert [a, b][1] == b && b in [a, b];
  }

  lemma AnsweredWithoutAnEnd(cfg: Config, e: string, a: DatedKey, minute: u32) returns (s: State, steps: seq<Step>, t: State)
    requires '?' !in e && a.startsAt == 0
    ensures Initial(cfg, s) && Runs(cfg, s, steps, t) && s.creators == map[e := Creator([a], 100, true)]
    ensures t.store == EMPTY && t.creators == s.creators && t.now == s.now == 100 && t.flights == [Started(NEW_FLIGHT, KeyUrlAt(e, minute), 0)]
    ensures t.callers == map[0 := Caller(KeyUrlAt(e, minute), Recent(minute, 100), Leading(0, Answered(Answer(a.pem, Some(0), None), 100)), {}, 0)]
  {
    hide HonestReply, KeyUrlAt, EndPointOf, MinuteOf, Runs;
    s := State(100, EMPTY, map[], [], map[], map[e := Creator([a], 100, true)], []);
    KeyUrlRoundTrip(e, minute);
    OpenAnswer(a, 100, minute);
    steps, t := IsAnswered(cfg, s, KeyUrlAt(e, minute), Answer(a.pem, Some(0), None));
  }

  // A key answered without an end is taken to have none for as long as it is
  // held. A caller that comes after another key was added, with a minute of
  // the creator's past, is answered from the cache, and the signer of the key
  // added, though near enough, is missed.
  lemma AddedKeyIsMissed(cfg: Config, e: string, a: DatedKey, b: DatedKey)
    returns (s: State, steps: seq<Step>, t: State, check: Checker, ask: Answering)
    requires cfg.grows && '?' !in e && a.startsAt == 0 && b.startsAt == 101 && a.pem != b.pem
    ensures Initial(cfg, s) && Runs(cfg, s, steps, t) && e in t.creators && t.creators[e] == Creator([a, b], 100, true)
    ensures var url := KeyUrlAt(e, 85);
            && 1 in t.callers && t.callers[1].url == url && t.callers[1].phase == Done(ask(0, url)) && ask(0, url).Ok?
            && (forall pem :: check(pem) == Ok(pem == b.pem))
            && SignerReaches([a, b], 85, b.pem) && EdgeIsMissed([a, b], 85, b.pem, ask(0, url).value)
            && Verdict(url, Some(85), check, ask) == Ok(false)
  {
    hide HeldFor, InForce, KeyUrlAt, EndPointOf, MinuteOf, Runs, Initial, Verdict, SignerReaches, ReachesBack, ClaimOf;
    var url := KeyUrlAt(e, 85);
    var before, u;
    s, before, u := AnsweredWithoutAnEnd(cfg, e, a, 85);
    KeyUrlRoundTrip(e, 85);
    OpenClaim(85, 100);
    var v := IsRecorded(cfg, u, url, Answer(a.pem, Some(0), None), Claim(0, 85, false, true), 85);
    var w := AddsKey(cfg, v, e, b);
    assert [a] + [b] == [a, b];
    var rest;
    rest, t := FindsHeld(cfg, w, 1, url);
    RunsOn(cfg, s, before, u, [Settle(0)], v);
    RunsOn(cfg, s, before + [Settle(0)], v, [Append(e, b)], w);
    RunsOn(cfg, s, before + [Settle(0)] + [Append(e, b)], w, rest, t);
    steps := before + [Settle(0)] + [Append(e, b)] + rest;
    check := p => Ok(p == b.pem);
    ask := (_, _) => Ok(KeyAnswer(a.pem, 0, U32_MAX, true));
    NextReaches(a, b);
    OpenEndIsNotPassed(url, 85, a.pem, b.pem, check, ask);
  }

  // A key answered for a minute that was still to come is taken to cover it.
  // An OWID of that minute, signed with the key that was added in between and
  // is in force at it, reads as a forgery.
  lemma AddedKeyReadsAsAForgery(cfg: Config, e: string, a: DatedKey, b: DatedKey)
    returns (s: State, steps: seq<Step>, t: State, check: Checker, ask: Answering)
    requires cfg.grows && '?' !in e && a.startsAt == 0 && b.startsAt == 101 && a.pem != b.pem
    ensures Initial(cfg, s) && Runs(cfg, s, steps, t) && e in t.creators && t.creators[e] == Creator([a, b], 100, true)
    ensures var url := KeyUrlAt(e, 101);
            && 0 in t.callers && t.callers[0].url == url && t.callers[0].phase == Done(ask(0, url))
            && InForceFor([a, b], 101, b.pem) && check(b.pem) == Ok(true)
            && Verdict(url, Some(101), check, ask) == Ok(false)
  {
    hide InForce, KeyUrlAt, EndPointOf, MinuteOf, Runs, Initial, Verdict, SignerReaches, ReachesBack;
    var url := KeyUrlAt(e, 101);
    var before, u;
    s, before, u := AnsweredWithoutAnEnd(cfg, e, a, 101);
    var after, v := ReturnsAlone(cfg, u, 0);
    t := AddsKey(cfg, v, e, b);
    assert [a] + [b] == [a, b];
    RunsOn(cfg, s, before, u, after, v);
    RunsOn(cfg, s, before + after, v, [Append(e, b)], t);
    steps := before + after + [Append(e, b)];
    check := p => Ok(p == b.pem);
    ask := (_, _) => Ok(KeyAnswer(a.pem, 0, U32_MAX, true));
    NextReaches(a, b);
    OpenEndIsNotPassed(url, 101, a.pem, b.pem, check, ask);
  }
}
