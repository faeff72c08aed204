// The check of an OWID against keys that are fetched: the key for its
// minute, and where that fails near an edge of the key's stated span, the
// key for the minute just beyond the edge.
module Verify {
  import opened Wrappers
  import opened Numbers
  import opened Schedule
  import opened KeyUrl
  import opened KeyCache
  import opened Flights
  import opened Protocol
  import opened CacheHonesty
  import opened Answers

  // Whether the OWID's signature verifies under a key, or why that could not
  // be told. The check of one OWID is a function of the key alone.
  type Checker = string -> Result<bool, Failure>

  // What each key asked for during one verification was answered with, by
  // the order it was asked in, since the same URL may be answered
  // differently at another time.
  type Answering = (nat, string) -> Outcome

  const NOT_IN_FORCE := Http("the key was not in force at the OWID's date")

  // The minutes just beyond the edges of the stated span that the OWID's
  // minute is near.
  function Beyond(tried: KeyAnswer, minute: u32): seq<u32> {
    (if tried.first > 0 && NearEdge(minute, tried.first) then [tried.first - 1] else [])
    + (if tried.last < U32_MAX && NearEdge(minute, tried.last) then [tried.last + 1] else [])
  }

  predicate NeighbourMatches(url: string, tried: KeyAnswer, check: Checker, ask: Answering, n: nat, at: u32) {
    var neighbour := ask(n, KeyUrlAt(EndPointOf(url), at));
    neighbour.Ok? && neighbour.value.pem != tried.pem && check(neighbour.value.pem) == Ok(true)
  }

  predicate SomeNeighbourMatches(url: string, minute: u32, tried: KeyAnswer, check: Checker, ask: Answering) {
    tried.known &&
    var beyond := Beyond(tried, minute);
    exists i :: 0 <= i < |beyond| && NeighbourMatches(url, tried, check, ask, i + 1, beyond[i])
  }

  // The answer to a verification. The minute is the OWID's own date, where
  // it can be counted.
  function Verdict(url: string, minute: Option<u32>, check: Checker, ask: Answering): Result<bool, Failure> {
    var answer :- ask(0, url);
    var matches :- check(answer.pem);
    if matches then Ok(true)
    else if minute.None? then Ok(false)
    else if SomeNeighbourMatches(url, minute.value, answer, check, ask) then Ok(true)
    else if answer.known && !answer.Covers(minute.value) then Err(NOT_IN_FORCE)
    else Ok(false)
  }

  method NeighbourVerifies(url: string, minute: u32, tried: KeyAnswer, check: Checker, ask: Answering) returns (r: bool)
    ensures r == SomeNeighbourMatches(url, minute, tried, check, ask)
  {
    if !tried.known {
      return false;
    }
    var endPoint := EndPointOf(url);
    var beyond: seq<u32> := [];
    if tried.first > 0 && NearEdge(minute, tried.first) {
      beyond := beyond + [tried.first - 1];
    }
    if tried.last < U32_MAX && NearEdge(minute, tried.last) {
      beyond := beyond + [tried.last + 1];
    }
    assert beyond == Beyond(tried, minute);
    var i := 0;
    while i < |beyond|
      invariant 0 <= i <= |beyond|
      invariant forall j :: 0 <= j < i ==> !NeighbourMatches(url, tried, check, ask, j + 1, beyond[j])
    {
      var neighbour := ask(i + 1, KeyUrlAt(endPoint, beyond[i]));
      i := i + 1;
      if neighbour.Err? {
        continue;
      }
      if neighbour.value.pem == tried.pem {
        continue;
      }
      if check(neighbour.value.pem) == Ok(true) {
        assert NeighbourMatches(url, tried, check, ask, i - 1 + 1, beyond[i - 1]);
        return true;
      }
    }
    return false;
  }

  method VerifyAtUrl(url: string, minute: Option<u32>, check: Checker, ask: Answering) returns (r: Result<bool, Failure>)
    ensures r == Verdict(url, minute, check, ask)
  {
    var answer := ask(0, url);
    if answer.Err? {
      return Err(answer.error);
    }
    var matches := check(answer.value.pem);
    if matches.Err? {
      return Err(matches.error);
    }
    if matches.value {
      return Ok(true);
    }
    if minute.None? {
      return Ok(false);
    }
    var beside := NeighbourVerifies(url, minute.value, answer.value, check, ask);
    if beside {
      return Ok(true);
    }
    if answer.value.known && !answer.value.Covers(minute.value) {
      return Err(NOT_IN_FORCE);
    }
    return Ok(false);
  }

  // ---- What each answer means --------------------------------------------

  // The OWID's minute is within a quarter of an hour of the edge.
  predicate IsNear(minute: u32, edge: u32) {
    -15 <= minute - edge <= 15
  }

  // The key answered with is another than the one tried, and verifies.
  predicate AnotherVerifies(answer: Outcome, tried: KeyAnswer, check: Checker) {
    answer.Ok? && answer.value.pem != tried.pem && check(answer.value.pem) == Ok(true)
  }

  // So does the key for the minute before the span stated, or for the one
  // after it, each asked for where its edge is near, the earlier one first.
  predicate VerifiesBeside(url: string, minute: u32, tried: KeyAnswer, check: Checker, ask: Answering) {
    var before := tried.first > 0 && IsNear(minute, tried.first);
    var after := tried.last < 0xFFFF_FFFF && IsNear(minute, tried.last);
    tried.known &&
    ((before && AnotherVerifies(ask(1, KeyUrlAt(EndPointOf(url), tried.first - 1)), tried, check))
     || (after && AnotherVerifies(ask(if before then 2 else 1, KeyUrlAt(EndPointOf(url), tried.last + 1)), tried, check)))
  }

  lemma BesideIsANeighbour(url: string, minute: u32, tried: KeyAnswer, check: Checker, ask: Answering)
    ensures SomeNeighbourMatches(url, minute, tried, check, ask) <==> VerifiesBeside(url, minute, tried, check, ask)
  {
    hide KeyUrlAt, EndPointOf;
    var beyond := Beyond(tried, minute);
    if |beyond| > 0 {
      assert NeighbourMatches(url, tried, check, ask, 0 + 1, beyond[0]) <==> AnotherVerifies(ask(1, KeyUrlAt(EndPointOf(url), beyond[0])), tried, check);
    }
    if |beyond| > 1 {
      assert NeighbourMatches(url, tried, check, ask, 1 + 1, beyond[1]) <==> AnotherVerifies(ask(2, KeyUrlAt(EndPointOf(url), beyond[1])), tried, check);
    }
  }

  // An OWID is accepted exactly where a key verifies it: the one answered for
  // the URL, or the other side's of an edge that is near.
  lemma AcceptedExactlyWhereAKeyVerifies(url: string, minute: Option<u32>, check: Checker, ask: Answering)
    ensures Verdict(url, minute, check, ask) == Ok(true) <==>
            && ask(0, url).Ok?
            && var tried := ask(0, url).value;
               || check(tried.pem) == Ok(true)
               || (check(tried.pem) == Ok(false) && minute.Some? && VerifiesBeside(url, minute.value, tried, check, ask))
  {
    hide SomeNeighbourMatches, VerifiesBeside;
    if ask(0, url).Ok? && minute.Some? {
      BesideIsANeighbour(url, minute.value, ask(0, url).value, check, ask);
    }
  }

  // It is answered as not matching exactly where the key was checked and
  // failed, nothing beside it verifies, and the creator has not said that the
  // key was out of force.
  lemma RefusedExactlyWhereTheKeyFails(url: string, minute: Option<u32>, check: Checker, ask: Answering)
    ensures Verdict(url, minute, check, ask) == Ok(false) <==>
            && ask(0, url).Ok?
            && var tried := ask(0, url).value;
               && check(tried.pem) == Ok(false)
               && (minute.Some? ==> !VerifiesBeside(url, minute.value, tried, check, ask)
                                    && (tried.known ==> tried.first <= minute.value <= tried.last))
  {
    hide SomeNeighbourMatches, VerifiesBeside;
    if ask(0, url).Ok? && minute.Some? {
      BesideIsANeighbour(url, minute.value, ask(0, url).value, check, ask);
    }
  }

  // And it is not answered at all exactly where the key could not be fetched,
  // with that failure, or not be checked, with that one, or where the creator
  // itself puts the minute outside the key's span and nothing verifies, which
  // reads as a key that could not be had.
  lemma UnansweredExactlyWhere(url: string, minute: Option<u32>, check: Checker, ask: Answering, failure: Failure)
    ensures NOT_IN_FORCE.Http?
    ensures Verdict(url, minute, check, ask) == Err(failure) <==>
            if ask(0, url).Err? then ask(0, url) == Err(failure)
            else
              var tried := ask(0, url).value;
              || check(tried.pem) == Err(failure)
              || (check(tried.pem) == Ok(false) && failure == NOT_IN_FORCE && minute.Some? && tried.known
                  && !(tried.first <= minute.value <= tried.last) && !VerifiesBeside(url, minute.value, tried, check, ask))
  {
    hide SomeNeighbourMatches, VerifiesBeside;
    if ask(0, url).Ok? && minute.Some? {
      BesideIsANeighbour(url, minute.value, ask(0, url).value, check, ask);
    }
  }

  // ---- When a genuine OWID reads as a forgery ----------------------------

  // An answer told by part of a schedule states no span for a key whose start
  // cannot be counted by the whole of it, and the other way about.
  lemma PartTellsUncounted(keys: seq<DatedKey>, n: nat, answer: KeyAnswer)
    requires GoodSchedule(keys) && n <= |keys| && Told(keys[..n], true, answer)
    ensures !answer.known <==> Uncounted(keys, answer.pem)
  {
    PartIsGood(keys, n);
    if answer.known {
      var key := ExactEdges(keys[..n], answer);
      var i :| 0 <= i < n && keys[i] == key;
      assert key in keys[..n] && AsMinutes(key.startsAt).Some?;
    } else {
      var k :| k in keys[..n] && k.pem == answer.pem && AsMinutes(k.startsAt).None?;
      assert k in keys;
    }
  }

  // A key that is in force at a minute told as another's was added since, and
  // the other was told without an end.
  lemma ToldAsAnothers(keys: seq<DatedKey>, from: nat, n: nat, answer: KeyAnswer, minute: u32)
    requires GoodSchedule(keys) && Grown(keys, from) && from <= n <= |keys| && Exact(keys[..n], answer)
    requires answer.Covers(minute) && InForce(keys, minute).Some? && InForce(keys, minute).value.pem != answer.pem
    ensures InForce(keys, minute).value !in keys[..from] && answer.last == U32_MAX
  {
    PartIsGood(keys, n);
    var part := keys[..n];
    var i := InForceIsChosen(keys, minute);
    assert InForceFor(part, minute, answer.pem);
    if i < n {
      assert Chosen(part, minute, i);
      ChosenIsInForce(part, minute, i);
    } else {
      var key := ExactEdges(part, answer);
      NextStartIsEarliest(part, key);
      forall k | k in keys[..from]
        ensures k != keys[i]
      {
        var j :| 0 <= j < from && keys[j] == k;
      }
    }
  }

  lemma OtherKeyRotates(cfg: Config, creator: Creator, pem: string, minute: u32)
    requires GoodSchedule(creator.keys) && Uncounted(creator.keys, pem) && Reached(cfg, creator, pem)
    requires InForce(creator.keys, minute).Some? && InForce(creator.keys, minute).value.pem != pem
    ensures BeganEarlyAndRotates(creator.keys)
  {
    var m: u32 :| Known(cfg, creator, pem, m);
    UncountedBeganEarly(creator.keys, pem, m);
    SpansPartitionTime(creator.keys, 0, minute);
  }

  // What an answer says of a minute at which another key is in force.
  lemma AnswerAboutAnother(cfg: Config, creator: Creator, from: nat, answer: KeyAnswer, minute: u32)
    requires ScheduleOk(cfg, creator, from) && ToldSince(creator.keys, from, creator.states, answer)
    requires InForce(creator.keys, minute).Some? && InForce(creator.keys, minute).value.pem != answer.pem
    ensures creator.states ==> (!answer.known <==> Uncounted(creator.keys, answer.pem))
    ensures answer.Covers(minute) ==>
              InForce(creator.keys, minute).value !in creator.keys[..from] && answer.last == U32_MAX && cfg.grows
  {
    hide Exact, Uncounted;
    var n :| from <= n <= |creator.keys| && Told(creator.keys[..n], creator.states, answer);
    if creator.states {
      PartTellsUncounted(creator.keys, n, answer);
    }
    if answer.Covers(minute) {
      ToldAsAnothers(creator.keys, from, n, answer, minute);
      SpansPartitionTime(creator.keys, minute, minute);
      assert creator.keys[..|creator.keys|] == creator.keys;
    }
  }

  lemma FalseVerdict(url: string, minute: u32, check: Checker, ask: Answering)
    ensures Verdict(url, Some(minute), check, ask) == Ok(false) <==>
            && ask(0, url).Ok? && check(ask(0, url).value.pem) == Ok(false)
            && (!ask(0, url).value.known
                || (ask(0, url).value.Covers(minute) && !SomeNeighbourMatches(url, minute, ask(0, url).value, check, ask)))
  {
  }

  // What it comes to where the key in force verifies.
  lemma ForgeryIsRead(cfg: Config, creator: Creator, from: nat, url: string, minute: u32, check: Checker, ask: Answering)
    requires ScheduleOk(cfg, creator, from) && ask(0, url).Ok?
    requires var answer := ask(0, url).value;
             && ToldSince(creator.keys, from, creator.states, answer)
             && (MinuteOf(url).Some? ==> Reached(cfg, creator, answer.pem))
    requires InForce(creator.keys, minute).Some? && check(InForce(creator.keys, minute).value.pem) == Ok(true)
    requires Verdict(url, Some(minute), check, ask) == Ok(false)
    ensures var answer := ask(0, url).value;
            if answer.known then
              cfg.grows && answer.last == U32_MAX && InForce(creator.keys, minute).value !in creator.keys[..from]
            else
              creator.states ==>
                Uncounted(creator.keys, answer.pem) && (MinuteOf(url).Some? ==> BeganEarlyAndRotates(creator.keys))
  {
    hide ToldSince, Reached, SomeNeighbourMatches, BeganEarlyAndRotates, Uncounted, GoodSchedule, Dependable, Grown, InForce, EndPointOf, MinuteOf;
    var answer := ask(0, url).value;
    AnswerAboutAnother(cfg, creator, from, answer, minute);
    if creator.states && !answer.known && MinuteOf(url).Some? {
      OtherKeyRotates(cfg, creator, answer.pem, minute);
    }
  }

  // In every run, whatever the clocks, the cache and the other callers did,
  // an OWID that verifies under the key in force at its minute is answered as
  // not matching exactly where the key answered with fails, and either no span
  // was stated for it, or it was answered without an end for the minute, a key
  // that is in force at it has been added since, and no neighbour verifies. A
  // creator that always states its spans leaves one out exactly where the
  // key's start cannot be counted, so that with a fixed schedule, and a URL
  // that names a minute, the schedule has to have begun before the base date
  // and to rotate after it.
  lemma NoGenuineOwidReadsAsAForgery(cfg: Config, s: State, steps: seq<Step>, t: State, c: nat,
                                     minute: u32, check: Checker, ask: Answering)
    requires Initial(cfg, s) && Runs(cfg, s, steps, t) && c in t.callers && t.callers[c].phase.Done?
    requires var e := EndPointOf(t.callers[c].url); e in s.creators && Dependable(cfg, s.creators[e])
    requires ask(0, t.callers[c].url) == t.callers[c].phase.result
    requires var e := EndPointOf(t.callers[c].url);
             && e in t.creators && InForce(t.creators[e].keys, minute).Some?
             && check(InForce(t.creators[e].keys, minute).value.pem) == Ok(true)
    ensures var url := t.callers[c].url;
            var creator := t.creators[EndPointOf(url)];
            var result := t.callers[c].phase.result;
            && (Verdict(url, Some(minute), check, ask) == Ok(false) <==>
                  && result.Ok? && check(result.value.pem) == Ok(false)
                  && (!result.value.known
                      || (result.value.Covers(minute) && !SomeNeighbourMatches(url, minute, result.value, check, ask))))
            && (Verdict(url, Some(minute), check, ask) == Ok(false) ==>
                  if result.value.known then
                    cfg.grows && result.value.last == U32_MAX && InForce(creator.keys, minute).value !in s.creators[EndPointOf(url)].keys
                  else
                    creator.states ==>
                      Uncounted(creator.keys, result.value.pem) && (MinuteOf(url).Some? ==> BeganEarlyAndRotates(creator.keys)))
  {
    hide Exact, ToldSince, ScheduleOk, Reached, Dependable, SomeNeighbourMatches, BeganEarlyAndRotates, Uncounted, Initial, EndPointOf, MinuteOf, InForce, Runs, Verdict;
    var url := t.callers[c].url;
    FalseVerdict(url, minute, check, ask);
    if t.callers[c].phase.result.Ok? {
      EveryAnswerIsExact(cfg, s, steps, t, c);
      var creator := t.creators[EndPointOf(url)];
      var from := |s.creators[EndPointOf(url)].keys|;
      assert creator.keys[..from] == s.creators[EndPointOf(url)].keys;
      if Verdict(url, Some(minute), check, ask) == Ok(false) {
        ForgeryIsRead(cfg, creator, from, url, minute, check, ask);
      }
    }
  }

  // ---- Exactly how far the edge tolerance reaches ------------------------

  // The fetch for a minute succeeds with the key in force then, where there
  // is one, told by the schedule as it stood at some time.
  ghost predicate AnsweredFor(creator: Creator, from: nat, outcome: Outcome, minute: u32) {
    match InForce(creator.keys, minute)
    case None => outcome.Err?
    case Some(key) =>
      outcome.Ok? && outcome.value.pem == key.pem && ToldSince(creator.keys, from, creator.states, outcome.value)
  }

  // What the verification asks, by order: the URL, and while the signature
  // fails the neighbours.
  predicate IsAsked(url: string, minute: u32, check: Checker, ask: Answering, i: nat) {
    i > 0 ==>
    && ask(0, url).Ok? && ask(0, url).value.known && check(ask(0, url).value.pem) == Ok(false)
    && var beyond := Beyond(ask(0, url).value, minute);
       && i <= |beyond|
       && forall j :: 0 <= j < i - 1 ==> !NeighbourMatches(url, ask(0, url).value, check, ask, j + 1, beyond[j])
  }

  function AskedAt(url: string, minute: u32, check: Checker, ask: Answering, i: nat): u32
    requires IsAsked(url, minute, check, ask, i)
  {
    if i == 0 then minute else Beyond(ask(0, url).value, minute)[i - 1]
  }

  function AskedUrl(url: string, minute: u32, check: Checker, ask: Answering, i: nat): string
    requires IsAsked(url, minute, check, ask, i)
  {
    if i == 0 then url else KeyUrlAt(EndPointOf(url), AskedAt(url, minute, check, ask, i))
  }

  // Every minute the verification asks about is answered so.
  ghost predicate AllAnswered(creator: Creator, from: nat, url: string, minute: u32, check: Checker, ask: Answering) {
    forall i :: 0 <= i <= 2 && IsAsked(url, minute, check, ask, i) ==>
      AnsweredFor(creator, from, ask(i, AskedUrl(url, minute, check, ask, i)), AskedAt(url, minute, check, ask, i))
  }

  // Every fetch in every run is answered so, where the transport does not
  // fail a fetch the schedule has a key for and the minute was not in the
  // creator's future.
  lemma FetchesAreAnswered(cfg: Config, s: State, steps: seq<Step>, t: State, c: nat, minute: u32)
    requires Initial(cfg, s) && Runs(cfg, s, steps, t) && c in t.callers
    requires t.callers[c].phase.Done? && MinuteOf(t.callers[c].url) == Some(minute)
    requires var e := EndPointOf(t.callers[c].url);
             e in s.creators && Trusted(cfg, s.creators[e]) && PastRun(cfg, s, steps, e, Some(minute))
    ensures var e := EndPointOf(t.callers[c].url);
            var result := t.callers[c].phase.result;
            && e in t.creators && ScheduleOk(cfg, t.creators[e], |s.creators[e].keys|)
            && s.creators[e].keys <= t.creators[e].keys
            && (AnsweredFor(t.creators[e], |s.creators[e].keys|, result, minute) <==>
                  (InForce(t.creators[e].keys, minute).Some? ==> result.Ok?))
  {
    hide ToldSince, Trusted, ScheduleOk, Initial, PastRun;
    PastMinutesAreAnswered(cfg, s, steps, t, c, minute);
  }

  // The signer's period is the one before the minute's, and the minute is at
  // most 15 past its end.
  predicate ReachesBack(keys: seq<DatedKey>, minute: u32, signer: string) {
    InForce(keys, minute).Some? &&
    var key := InForce(keys, minute).value;
    key.startsAt > 0 && minute - key.startsAt <= CLOCK_DRIFT_ALLOWANCE_MINUTES && InForceFor(keys, key.startsAt - 1, signer)
  }

  // Or the one after, and the minute is at most 15 before the last minute of
  // its own period.
  predicate ReachesOn(keys: seq<DatedKey>, minute: u32, signer: string) {
    InForce(keys, minute).Some? &&
    var next := NextStartAfter(keys, InForce(keys, minute).value);
    next.Some? && next.value <= U32_MAX && next.value - 1 - minute <= CLOCK_DRIFT_ALLOWANCE_MINUTES && InForceFor(keys, next.value, signer)
  }

  // The signer's period holds the minute, or is adjacent and near enough.
  predicate SignerReaches(keys: seq<DatedKey>, minute: u32, signer: string) {
    InForceFor(keys, minute, signer) || ReachesBack(keys, minute, signer) || ReachesOn(keys, minute, signer)
  }

  // A signer that reaches the minute is missed: its period is another, and
  // the answer stated no span, so no edge is known, or stated no end, so the
  // later edge is not known, and the earlier one does not lead to it.
  predicate EdgeIsMissed(keys: seq<DatedKey>, minute: u32, signer: string, tried: KeyAnswer) {
    && SignerReaches(keys, minute, signer) && !InForceFor(keys, minute, signer)
    && (!tried.known || (tried.last == U32_MAX && !ReachesBack(keys, minute, signer)))
  }

  // The edges of a span told for a minute. Where no end was told and the key
  // has a next one all the same, the next was added since.
  lemma ToldEdges(keys: seq<DatedKey>, from: nat, n: nat, minute: u32, answer: KeyAnswer)
    requires GoodSchedule(keys) && Grown(keys, from) && from <= n <= |keys| && Exact(keys[..n], answer)
    requires InForceFor(keys, minute, answer.pem)
    ensures var key := InForce(keys, minute).value;
            var next := NextStartAfter(keys, key);
            && answer.Covers(minute) && answer.first == Max(0, key.startsAt)
            && (answer.last < U32_MAX ==> next == Some(answer.last + 1))
            && (answer.last == U32_MAX && next.Some? && next.value <= U32_MAX ==> forall k :: k in keys[..from] ==> k.startsAt != next.value)
  {
    PartIsGood(keys, n);
    ToldHolds(keys, n, answer, minute);
    var part := keys[..n];
    var key := ExactEdges(part, answer);
    assert key in keys;
    var i := InForceIsChosen(keys, minute);
    var j :| 0 <= j < |keys| && keys[j] == key;
    assert i == j;
    NextInPart(keys, from, n, key);
  }

  lemma LaterStarts(keys: seq<DatedKey>, from: nat, i: nat, j: nat)
    requires Grown(keys, from) && i < j < |keys| && from <= j
    ensures keys[i].startsAt < keys[j].startsAt
  {
  }

  lemma NextInPart(keys: seq<DatedKey>, from: nat, n: nat, key: DatedKey)
    requires Grown(keys, from) && from <= n <= |keys|
    ensures var part, whole := NextStartAfter(keys[..n], key), NextStartAfter(keys, key);
            && (part.Some? ==> whole == part)
            && (part.None? && whole.Some? ==> forall k :: k in keys[..from] ==> k.startsAt != whole.value)
  {
    hide NextStartAfter, Grown;
    NextStartIsEarliest(keys, key);
    NextStartIsEarliest(keys[..n], key);
    var part, whole := NextStartAfter(keys[..n], key), NextStartAfter(keys, key);
    if part.Some? {
      var k :| k in keys[..n] && k.startsAt == part.value;
      assert k in keys;
      var w :| w in keys && w.startsAt == whole.value;
      var i :| 0 <= i < n && keys[i] == k;
      var j :| 0 <= j < |keys| && keys[j] == w;
      if j < n {
        assert keys[..n][j] == w;
      } else {
        LaterStarts(keys, from, i, j);
      }
    } else if whole.Some? {
      forall k | k in keys[..from]
        ensures k.startsAt != whole.value
      {
        assert k in keys[..n];
      }
    }
  }

  lemma NeighbourIsSigner(creator: Creator, from: nat, url: string, minute: u32, check: Checker, ask: Answering, signer: string, i: nat)
    requires AllAnswered(creator, from, url, minute, check, ask) && i < 2 && IsAsked(url, minute, check, ask, i + 1)
    requires forall pem :: check(pem) == Ok(pem == signer)
    ensures var at := Beyond(ask(0, url).value, minute)[i];
            NeighbourMatches(url, ask(0, url).value, check, ask, i + 1, at) <==> InForceFor(creator.keys, at, signer)
  {
    hide ToldSince;
    assert check(signer) == Ok(true) && check(ask(0, url).value.pem) == Ok(false);
    var at := AskedAt(url, minute, check, ask, i + 1);
    assert AnsweredFor(creator, from, ask(i + 1, AskedUrl(url, minute, check, ask, i + 1)), at);
  }

  // Some neighbour asked matches exactly where some neighbour's key is the
  // signer's, though the second is not asked where the first matches.
  lemma NeighboursAreSigners(creator: Creator, from: nat, url: string, minute: u32, check: Checker, ask: Answering, signer: string)
    requires AllAnswered(creator, from, url, minute, check, ask) && (forall pem :: check(pem) == Ok(pem == signer))
    requires ask(0, url).Ok? && ask(0, url).value.known && ask(0, url).value.pem != signer
    ensures var beyond := Beyond(ask(0, url).value, minute);
            SomeNeighbourMatches(url, minute, ask(0, url).value, check, ask)
            <==> exists i :: 0 <= i < |beyond| && InForceFor(creator.keys, beyond[i], signer)
  {
    hide AllAnswered, InForceFor, NeighbourMatches;
    var tried := ask(0, url).value;
    var beyond := Beyond(tried, minute);
    assert check(tried.pem) == Ok(false);
    if |beyond| > 0 {
      NeighbourIsSigner(creator, from, url, minute, check, ask, signer, 0);
      if |beyond| > 1 && !NeighbourMatches(url, tried, check, ask, 1, beyond[0]) {
        NeighbourIsSigner(creator, from, url, minute, check, ask, signer, 1);
      }
      assert NeighbourMatches(url, tried, check, ask, 0 + 1, beyond[0]) <==> InForceFor(creator.keys, beyond[0], signer);
    }
  }

  lemma FirstAnswered(creator: Creator, from: nat, url: string, minute: u32, check: Checker, ask: Answering)
    requires AllAnswered(creator, from, url, minute, check, ask)
    ensures AnsweredFor(creator, from, ask(0, url), minute)
  {
    assert IsAsked(url, minute, check, ask, 0);
  }

  lemma NoNeighbours(url: string, minute: u32, tried: KeyAnswer, check: Checker, ask: Answering)
    requires !tried.known
    ensures !SomeNeighbourMatches(url, minute, tried, check, ask)
  {
  }

  // Where each signature verifies only under its signer's key, every fetch
  // is answered and no minute asked for is in the creator's future, the
  // verification answers, and answers true exactly for the signers that reach
  // the minute and are not missed.
  lemma EdgeToleranceIsExact(cfg: Config, creator: Creator, from: nat, url: string, minute: u32,
                             check: Checker, ask: Answering, signer: string)
    requires ScheduleOk(cfg, creator, from) && AllAnswered(creator, from, url, minute, check, ask)
    requires forall pem :: check(pem) == Ok(pem == signer)
    ensures InForce(creator.keys, minute).None? ==> Verdict(url, Some(minute), check, ask).Err?
    ensures InForce(creator.keys, minute).Some? ==>
              && ask(0, url).Ok?
              && Verdict(url, Some(minute), check, ask)
                 == Ok(SignerReaches(creator.keys, minute, signer) && !EdgeIsMissed(creator.keys, minute, signer, ask(0, url).value))
  {
    hide Exact, ToldSince, ScheduleOk, SomeNeighbourMatches, AllAnswered, NextStartAfter, Beyond, Grown, GoodSchedule, InForce;
    FirstAnswered(creator, from, url, minute, check, ask);
    if InForce(creator.keys, minute).None? {
      return;
    }
    var tried := ask(0, url).value;
    if !tried.known {
      NoNeighbours(url, minute, tried, check, ask);
    } else if tried.pem != signer {
      NeighboursAreSigners(creator, from, url, minute, check, ask, signer);
      AnswerEdges(cfg, creator, from, minute, tried);
      BeyondReaches(tried, minute, creator.keys, signer);
    }
  }

  lemma AnswerEdges(cfg: Config, creator: Creator, from: nat, minute: u32, answer: KeyAnswer)
    requires ScheduleOk(cfg, creator, from) && ToldSince(creator.keys, from, creator.states, answer) && answer.known
    requires InForceFor(creator.keys, minute, answer.pem)
    ensures var key := InForce(creator.keys, minute).value;
            var next := NextStartAfter(creator.keys, key);
            && answer.Covers(minute) && answer.first == Max(0, key.startsAt)
            && (answer.last < U32_MAX ==> next == Some(answer.last + 1))
            && (answer.last == U32_MAX && next.Some? && next.value <= U32_MAX ==>
                  cfg.grows && forall k :: k in creator.keys[..from] ==> k.startsAt != next.value)
  {
    var n :| from <= n <= |creator.keys| && Told(creator.keys[..n], creator.states, answer);
    ToldEdges(creator.keys, from, n, minute, answer);
    var next := NextStartAfter(creator.keys, InForce(creator.keys, minute).value);
    if next.Some? && !cfg.grows {
      NextStartIsEarliest(creator.keys, InForce(creator.keys, minute).value);
      assert creator.keys[..from] == creator.keys;
    }
  }

  // When a signer that reaches the minute is missed: the creator stated no
  // span, which one that always does leaves out exactly where the key started
  // before the base date, or it stated no end and has added the signer's key
  // since.
  lemma EdgeIsMissedWhere(cfg: Config, creator: Creator, from: nat, minute: u32, signer: string, tried: KeyAnswer)
    requires ScheduleOk(cfg, creator, from) && ToldSince(creator.keys, from, creator.states, tried)
    requires InForceFor(creator.keys, minute, tried.pem)
    ensures creator.states ==> (!tried.known <==> InForce(creator.keys, minute).value.startsAt < 0)
    ensures EdgeIsMissed(creator.keys, minute, signer, tried) && tried.known ==>
              cfg.grows && exists k :: k in creator.keys && k !in creator.keys[..from] && k.pem == signer
  {
    hide Exact, Uncounted;
    var n :| from <= n <= |creator.keys| && Told(creator.keys[..n], creator.states, tried);
    UncountedIs(creator.keys, minute);
    SpansPartitionTime(creator.keys, minute, minute);
    if creator.states {
      PartTellsUncounted(creator.keys, n, tried);
    }
    if EdgeIsMissed(creator.keys, minute, signer, tried) && tried.known {
      AnswerEdges(cfg, creator, from, minute, tried);
      StartsItself(creator.keys, InForce(creator.keys, minute).value);
    }
  }

  // The next start is that of the key in force at it.
  lemma StartsItself(keys: seq<DatedKey>, key: DatedKey)
    requires NextStartAfter(keys, key).Some?
    ensures var next := NextStartAfter(keys, key).value;
            InForce(keys, next).Some? && InForce(keys, next).value in keys && InForce(keys, next).value.startsAt == next
  {
    var next := NextStartAfter(keys, key).value;
    NextStartIsEarliest(keys, key);
    var k :| k in keys && k.startsAt == next;
    var j :| 0 <= j < |keys| && keys[j] == k;
    InForceNone(keys, next);
    var i := InForceIsChosen(keys, next);
  }

  lemma BeyondReaches(tried: KeyAnswer, minute: u32, keys: seq<DatedKey>, signer: string)
    requires tried.Covers(minute)
    ensures (exists i :: 0 <= i < |Beyond(tried, minute)| && InForceFor(keys, Beyond(tried, minute)[i], signer)) <==>
            || (tried.first > 0 && minute - tried.first <= CLOCK_DRIFT_ALLOWANCE_MINUTES && InForceFor(keys, tried.first - 1, signer))
            || (tried.last < U32_MAX && tried.last - minute <= CLOCK_DRIFT_ALLOWANCE_MINUTES && InForceFor(keys, tried.last + 1, signer))
  {
    hide InForceFor;
    var before := tried.first > 0 && NearEdge(minute, tried.first);
    var after := tried.last < U32_MAX && NearEdge(minute, tried.last);
    var beyond := Beyond(tried, minute);
    if before {
      assert beyond[0] == tried.first - 1;
    }
    if after {
      assert beyond[|beyond| - 1] == tried.last + 1;
    }
  }

  // A verification made in a run: whatever it asks, a caller of the run was
  // answered with.
  ghost predicate AnsweredInRun(t: State, callers: seq<nat>, url: string, minute: u32, check: Checker, ask: Answering) {
    forall i :: 0 <= i <= 2 && IsAsked(url, minute, check, ask, i) ==>
      && i < |callers| && callers[i] in t.callers
      && var caller := t.callers[callers[i]];
         && caller.url == AskedUrl(url, minute, check, ask, i)
         && caller.phase == Done(ask(i, caller.url))
  }

  // The creator was not asked about any of those minutes before it came, and
  // the transport failed none of the fetches it had a key for.
  ghost predicate AskedInThePast(cfg: Config, s: State, steps: seq<Step>, keys: seq<DatedKey>, url: string, minute: u32,
                                 check: Checker, ask: Answering) {
    forall i :: 0 <= i <= 2 && IsAsked(url, minute, check, ask, i) ==>
      && PastRun(cfg, s, steps, EndPointOf(url), Some(AskedAt(url, minute, check, ask, i)))
      && (InForce(keys, AskedAt(url, minute, check, ask, i)).Some? ==> ask(i, AskedUrl(url, minute, check, ask, i)).Ok?)
  }

  lemma AskedUrlNames(url: string, minute: u32, check: Checker, ask: Answering, i: nat)
    requires IsAsked(url, minute, check, ask, i) && MinuteOf(url) == Some(minute)
    ensures EndPointOf(AskedUrl(url, minute, check, ask, i)) == EndPointOf(url)
    ensures MinuteOf(AskedUrl(url, minute, check, ask, i)) == Some(AskedAt(url, minute, check, ask, i))
  {
    hide EndPointOf, MinuteOf, KeyUrlAt;
    if i > 0 {
      EndPointHasNoQuery(url);
      KeyUrlRoundTrip(EndPointOf(url), AskedAt(url, minute, check, ask, i));
    }
  }

  // The tolerance in every run: a verification whose first fetch and whose
  // neighbours' were made by callers of the run, sharing and caching with all
  // the others, answers true exactly for the signers that reach the minute
  // and are not missed.
  lemma EdgeToleranceIsExactInRuns(cfg: Config, s: State, steps: seq<Step>, t: State, callers: seq<nat>,
                                   url: string, minute: u32, check: Checker, ask: Answering, signer: string)
    requires Initial(cfg, s) && Runs(cfg, s, steps, t) && MinuteOf(url) == Some(minute)
    requires EndPointOf(url) in s.creators && EndPointOf(url) in t.creators && Trusted(cfg, s.creators[EndPointOf(url)])
    requires AnsweredInRun(t, callers, url, minute, check, ask)
    requires AskedInThePast(cfg, s, steps, t.creators[EndPointOf(url)].keys, url, minute, check, ask)
    requires forall pem :: check(pem) == Ok(pem == signer)
    ensures var keys := t.creators[EndPointOf(url)].keys;
            var verdict := Verdict(url, Some(minute), check, ask);
            if InForce(keys, minute).None? then verdict.Err?
            else ask(0, url).Ok? && verdict == Ok(SignerReaches(keys, minute, signer) && !EdgeIsMissed(keys, minute, signer, ask(0, url).value))
  {
    hide Verdict, SignerReaches, EdgeIsMissed, AskedUrl, AskedAt, AnsweredFor, ScheduleOk, Trusted, EndPointOf, MinuteOf, InForce, Initial, Runs, PastRun;
    var e := EndPointOf(url);
    var from := |s.creators[e].keys|;
    forall i | 0 <= i <= 2 && IsAsked(url, minute, check, ask, i)
      ensures ScheduleOk(cfg, t.creators[e], from)
      ensures AnsweredFor(t.creators[e], from, ask(i, AskedUrl(url, minute, check, ask, i)), AskedAt(url, minute, check, ask, i))
    {
      AskedUrlNames(url, minute, check, ask, i);
      FetchesAreAnswered(cfg, s, steps, t, callers[i], AskedAt(url, minute, check, ask, i));
    }
    assert IsAsked(url, minute, check, ask, 0);
    EdgeToleranceIsExact(cfg, t.creators[e], from, url, minute, check, ask, signer);
  }

  // ---- How much drift that allows ----------------------------------------

  // Periods of at least 15 minutes.
  ghost predicate LongPeriods(keys: seq<DatedKey>) {
    forall k, j :: k in keys && j in keys && k.startsAt < j.startsAt ==> j.startsAt - k.startsAt >= CLOCK_DRIFT_ALLOWANCE_MINUTES
  }

  // With periods of at least 15 minutes every signer in force at any minute
  // within 15 of the OWID's own reaches it, but where that was before the base
  // date and the OWID's own key started since, at the base date at the latest.
  lemma DriftWithinTheAllowanceIsAccepted(keys: seq<DatedKey>, minute: u32, at: int, signer: string)
    requires GoodSchedule(keys) && LongPeriods(keys) && InForce(keys, minute).Some?
    requires Near(minute, at, CLOCK_DRIFT_ALLOWANCE_MINUTES) && at <= U32_MAX && InForceFor(keys, at, signer)
    ensures SignerReaches(keys, minute, signer) <==> !(at < InForce(keys, minute).value.startsAt <= 0)
  {
    hide InForce, NextStartAfter, GoodSchedule, LongPeriods;
    var key := InForce(keys, minute).value;
    SpansPartitionTime(keys, minute, at);
    SpansPartitionTime(keys, minute, minute);
    SpansPartitionTime(keys, at, at);
    NextStartIsEarliest(keys, key);
    if key.pem == signer {
      SamePemSameKey(keys, minute, at);
    } else if at < key.startsAt {
      NearestBefore(keys, minute, at);
      NextIsNotBefore(keys, minute, at);
    } else if !InSpan(keys, key, at) {
      NearestAfter(keys, minute, at);
    }
  }

  // The key that follows another is not one that was in force before it.
  lemma NextIsNotBefore(keys: seq<DatedKey>, minute: u32, at: int)
    requires GoodSchedule(keys) && InForce(keys, minute).Some? && InForce(keys, at).Some?
    requires at < InForce(keys, minute).value.startsAt
    ensures var next := NextStartAfter(keys, InForce(keys, minute).value);
            next.Some? ==> !InForceFor(keys, next.value, InForce(keys, at).value.pem)
  {
    var key := InForce(keys, minute).value;
    var next := NextStartAfter(keys, key);
    SpansPartitionTime(keys, minute, minute);
    NextStartIsEarliest(keys, key);
    if next.Some? && InForceFor(keys, next.value, InForce(keys, at).value.pem) {
      SamePemSameKey(keys, next.value, at);
      InForceIsConvex(keys, at, minute, next.value);
      SpansPartitionTime(keys, at, at);
    }
  }

  lemma NearestBefore(keys: seq<DatedKey>, minute: u32, at: int)
    requires GoodSchedule(keys) && LongPeriods(keys)
    requires InForce(keys, minute).Some? && InForce(keys, at).Some?
    requires at < InForce(keys, minute).value.startsAt && minute - at <= CLOCK_DRIFT_ALLOWANCE_MINUTES
    ensures InForce(keys, InForce(keys, minute).value.startsAt - 1) == InForce(keys, at)
  {
    var key := InForce(keys, minute).value;
    var other := InForce(keys, at).value;
    SpansPartitionTime(keys, minute, minute);
    SpansPartitionTime(keys, at, key.startsAt - 1);
    SpansPartitionTime(keys, at, at);
    NextStartIsEarliest(keys, other);
  }

  lemma NearestAfter(keys: seq<DatedKey>, minute: u32, at: int)
    requires GoodSchedule(keys) && LongPeriods(keys)
    requires InForce(keys, minute).Some? && InForce(keys, at).Some? && minute <= at
    requires !InSpan(keys, InForce(keys, minute).value, at) && at - minute <= CLOCK_DRIFT_ALLOWANCE_MINUTES
    ensures var next := NextStartAfter(keys, InForce(keys, minute).value);
            next.Some? && minute < next.value <= at && InForce(keys, next.value) == InForce(keys, at)
  {
    var key := InForce(keys, minute).value;
    var other := InForce(keys, at).value;
    SpansPartitionTime(keys, minute, minute);
    SpansPartitionTime(keys, at, at);
    NextStartIsEarliest(keys, key);
    var next := NextStartAfter(keys, key).value;
    SpansPartitionTime(keys, at, next);
    var k :| k in keys && k.startsAt == next;
    NextStartIsEarliest(keys, other);
    SpansPartitionTime(keys, at, minute);
  }
}
