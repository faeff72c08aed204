// What a clear of the cache costs the protocol. Where it comes while a fetch
// is under way, a run without another clear has two requests for the fetch's
// URL outstanding at once.
module FlightLimits {
  import opened Wrappers
  import opened Numbers
  import opened KeyUrl
  import opened KeyCache
  import opened Protocol
  import opened FlightSafety

  predicate NoClear(steps: seq<Step>) {
    forall i :: 0 <= i < |steps| ==> !steps[i].ClearCache?
  }

  // The callers there were stand where they stood, and whether the URL is
  // entered is as it was.
  predicate LeavesAlone(s: State, t: State, url: string) {
    && s.callers.Keys <= t.callers.Keys && (forall c :: c in s.callers ==> t.callers[c] == s.callers[c])
    && |s.flights| <= |t.flights| && t.creators == s.creators
    && (url in t.inFlight <==> url in s.inFlight)
  }

  lemma {:induction false} RunsOn(cfg: Config, s: State, a: seq<Step>, t: State, b: seq<Step>, u: State)
    requires Runs(cfg, s, a, t) && Runs(cfg, t, b, u)
    ensures Runs(cfg, s, a + b, u)
    decreases |a|
  {
    hide Next, Enabled;
    if a == [] {
      assert a + b == b;
    } else {
      assert (a + b)[1..] == a[1..] + b;
      RunsOn(cfg, Next(cfg, s, a[0]), a[1..], t, b, u);
    }
  }

  lemma OneStep(cfg: Config, s: State, step: Step)
    requires Enabled(cfg, s, step)
    ensures Runs(cfg, s, [step], Next(cfg, s, step))
  {
    hide Next, Enabled;
    assert [step][1..] == [];
  }

  // ---- Names not in use --------------------------------------------------

  lemma {:induction false} FreshNumber(used: set<nat>) returns (n: nat)
    ensures forall m :: m in used ==> m < n
  {
    if used == {} {
      n := 0;
    } else {
      var m :| m in used;
      n := FreshNumber(used - {m});
      assert forall k :: k in used ==> k == m || k in used - {m};
      n := if n <= m then m + 1 else n;
    }
  }

  // The end points of numbered domains.
  function Numbered(n: nat): string {
    EndPoint("https", Decimal(n) + ".example", 3)
  }

  lemma NumberedDiffer(m: nat, n: nat)
    requires Numbered(m) == Numbered(n)
    ensures m == n
  {
    hide Decimal;
    var before, after := "https" + "://", ".example" + "/owid/api/v" + Decimal(3) + "/public-key";
    assert Numbered(m) == before + Decimal(m) + after && Numbered(n) == before + Decimal(n) + after;
    assert |Decimal(m)| == |Decimal(n)|;
    assert Decimal(m) == Numbered(m)[|before|..|before| + |Decimal(m)|] == Decimal(n);
    DecimalValue(m);
    DecimalValue(n);
  }

  // One of the first numbers is not in use.
  lemma {:induction false} FreshDomain(used: set<string>, from: nat) returns (n: nat)
    ensures from <= n <= from + |used| && Numbered(n) !in used
  {
    hide Numbered;
    if Numbered(from) !in used {
      n := from;
    } else {
      n := FreshDomain(used - {Numbered(from)}, from + 1);
      if Numbered(n) == Numbered(from) {
        NumberedDiffer(n, from);
      }
    }
  }

  // An OWID's key URL that nobody has asked for, at a domain nobody has.
  lemma FreshUrl(s: State, url: string) returns (other: string, n: nat)
    ensures other == PublicKeyUrl("https", Decimal(n) + ".example", 3, Some(0)) && EndPointOf(other) == Numbered(n)
    ensures other !in s.inFlight && other != url && EndPointOf(other) != EndPointOf(url)
    ensures EndPointOf(other) !in s.creators && EndPointOf(other) !in s.store.keys
  {
    hide EndPointOf, PublicKeyUrl, EndPoint, Decimal, MinuteOf;
    var entered := set u | u in s.inFlight :: EndPointOf(u);
    n := FreshDomain(entered + s.creators.Keys + s.store.keys.Keys + {EndPointOf(url)}, 0);
    other := PublicKeyUrl("https", Decimal(n) + ".example", 3, Some(0));
    DecimalValue(n);
    PublicKeyUrlNamesTheMinute("https", Decimal(n) + ".example", 3, 0);
    assert EndPointOf(other) == Numbered(n);
  }

  // ---- Fetches that are started ------------------------------------------

  // A caller that arrives, finds nothing held and no fetch entered, and sends
  // a request.
  lemma StartsAFetch(cfg: Config, s: State, c: nat, url: string) returns (steps: seq<Step>, t: State)
    requires c !in s.callers && url !in s.inFlight && EndPointOf(url) !in s.store.keys
    ensures steps == [Call(c, url), TakeTurn(c), Send(c)] && Runs(cfg, s, steps, t)
    ensures t.inFlight == s.inFlight[url := |s.flights|] && |t.flights| == |s.flights| + 1
    ensures t.creators == s.creators && t.store == s.store && t.now == s.now
    ensures c in t.callers && t.callers == s.callers[c := t.callers[c]]
    ensures t.callers[c].url == url && t.callers[c].phase == Leading(|s.flights|, Asking)
  {
    hide EndPointOf, MinuteOf;
    steps := [Call(c, url), TakeTurn(c), Send(c)];
    var s1 := AfterCall(s, c, url);
    assert Lookup(s1, url, s1.callers[c].recent).None?;
    var s2 := AfterTurn(s1, c);
    t := Next(cfg, s2, Send(c));
    assert steps[1..] == [TakeTurn(c), Send(c)] && steps[1..][1..] == [Send(c)] && steps[1..][1..][1..] == [];
    assert Runs(cfg, t, [], t);
    assert Runs(cfg, s2, [Send(c)], t);
    assert Runs(cfg, s1, [TakeTurn(c), Send(c)], t);
  }

  // ---- Making the cache forget an end point ------------------------------

  const ONE_MINUTE := Claim(0, 0, true, false)

  lemma AddsAKey(store: Store, e: string, pem: string)
    requires e !in store.keys
    ensures var t := Holding(store, e, pem, Some(ONE_MINUTE));
            if store.held >= MAXIMUM_CACHED_KEYS then t.keys.Keys == {e}
            else t.held == store.held + 1
  {
  }

  lemma AnsweredAndHeld(cfg: Config, s: State, c: nat, pem: string) returns (steps: seq<Step>, t: State)
    requires LeadsAt(s, c) && StageOf(s, c).Asking? && EndPointOf(s.callers[c].url) !in s.creators
    ensures Runs(cfg, s, steps, t) && NoClear(steps)
    ensures t.store == Holding(s.store, EndPointOf(s.callers[c].url), pem, Some(ONE_MINUTE))
    ensures t.callers.Keys == s.callers.Keys && (forall d :: d in s.callers && d != c ==> t.callers[d] == s.callers[d])
    ensures t == s.(callers := t.callers, store := t.store)
  {
    hide Holding, HonestReply, EndPointOf, MinuteOf;
    var reply := Answer(pem, Some(0), Some(1));
    var s1 := Next(cfg, s, Receive(c, reply));
    t := Next(cfg, s1, Settle(c));
    steps := [Receive(c, reply)] + [Settle(c)];
    OneStep(cfg, s, Receive(c, reply));
    OneStep(cfg, s1, Settle(c));
    RunsOn(cfg, s, [Receive(c, reply)], s1, [Settle(c)], t);
  }

  // One more key is held, for an end point nobody has asked before.
  lemma HoldsAnother(cfg: Config, s: State, url: string, pem: string) returns (steps: seq<Step>, t: State)
    ensures Runs(cfg, s, steps, t) && NoClear(steps) && LeavesAlone(s, t, url)
    ensures if s.store.held >= MAXIMUM_CACHED_KEYS then EndPointOf(url) !in t.store.keys
            else t.store.held == s.store.held + 1
  {
    hide Holding, EndPointOf, MinuteOf, Next, Enabled, Runs, PublicKeyUrl, Numbered;
    var c := FreshNumber(s.callers.Keys);
    var other, n := FreshUrl(s, url);
    var first, s1 := StartsAFetch(cfg, s, c, other);
    var second, s2 := AnsweredAndHeld(cfg, s1, c, pem);
    AddsAKey(s.store, EndPointOf(other), pem);
    RunsOn(cfg, s, first, s1, second, s2);
    steps, t := first + second, s2;
  }

  // Enough of them empty the cache of every other end point.
  lemma {:induction false} EmptiesTheCache(cfg: Config, s: State, url: string, pem: string) returns (steps: seq<Step>, t: State)
    ensures Runs(cfg, s, steps, t) && NoClear(steps) && LeavesAlone(s, t, url)
    ensures EndPointOf(url) !in t.store.keys
    decreases if s.store.held >= MAXIMUM_CACHED_KEYS then 0 else MAXIMUM_CACHED_KEYS - s.store.held + 1
  {
    hide EndPointOf, Runs;
    steps, t := HoldsAnother(cfg, s, url, pem);
    if s.store.held < MAXIMUM_CACHED_KEYS {
      var rest, u := EmptiesTheCache(cfg, t, url, pem);
      RunsOn(cfg, s, steps, t, rest, u);
      steps, t := steps + rest, u;
    }
  }

  // ---- Two requests for one URL ------------------------------------------

  predicate TwoAtOnce(t: State, d: nat, e: nat, url: string) {
    d != e && Outstanding(t, d) && Outstanding(t, e) && t.callers[d].url == t.callers[e].url == url
  }

  // The leader from before the clear removes the entry by URL and not by
  // flight, so it removes the entry of the one that started after the clear,
  // and the caller after that starts a fetch beside it.
  lemma RemovesTheOthersEntry(cfg: Config, s: State, c: nat, d: nat, url: string) returns (steps: seq<Step>, t: State, e: nat)
    requires UnderWay(s, url, c) && StageOf(s, c).Ending? && EndPointOf(url) !in s.store.keys
    requires c != d && Outstanding(s, d) && s.callers[d].url == url
    ensures Runs(cfg, s, steps, t) && NoClear(steps)
    ensures TwoAtOnce(t, d, e, url)
  {
    hide EndPointOf, Runs;
    var s1 := Next(cfg, s, RemoveEntry(c));
    OneStep(cfg, s, RemoveEntry(c));
    e := FreshNumber(s1.callers.Keys);
    var rest;
    rest, t := StartsAFetch(cfg, s1, e, url);
    RunsOn(cfg, s, [RemoveEntry(c)], s1, rest, t);
    steps := [RemoveEntry(c)] + rest;
  }

  // An answer that has arrived is recorded, and lost again to an eviction.
  lemma RecordsAndLoses(cfg: Config, s: State, c: nat, url: string, pem: string) returns (steps: seq<Step>, t: State)
    requires UnderWay(s, url, c) && StageOf(s, c).Answered?
    ensures Runs(cfg, s, steps, t) && NoClear(steps) && EndPointOf(url) !in t.store.keys
    ensures UnderWay(t, url, c) && StageOf(t, c).Ending?
    ensures forall d :: d in s.callers && d != c ==> d in t.callers && t.callers[d] == s.callers[d]
  {
    hide EndPointOf, Runs, Holding;
    var s1 := Next(cfg, s, Settle(c));
    OneStep(cfg, s, Settle(c));
    var rest;
    rest, t := EmptiesTheCache(cfg, s1, url, pem);
    RunsOn(cfg, s, [Settle(c)], s1, rest, t);
    steps := [Settle(c)] + rest;
  }

  // From every state in which a fetch for the URL is under way, a clear and
  // no other lets two requests for the URL be outstanding. Where it has been
  // answered the cache is made to forget the answer by those of other
  // domains, for OWIDs of theirs, with any key at all.
  lemma ClearLetsTwoFetchAtOnce(cfg: Config, s: State, c: nat, url: string, pem: string) returns (steps: seq<Step>, t: State, d: nat, e: nat)
    requires UnderWay(s, url, c)
    ensures Runs(cfg, s, [ClearCache] + steps, t) && NoClear(steps)
    ensures TwoAtOnce(t, d, e, url)
  {
    hide EndPointOf, Runs;
    var cleared := s.(store := EMPTY, inFlight := map[]);
    assert Next(cfg, s, ClearCache) == cleared;
    OneStep(cfg, s, ClearCache);
    d := FreshNumber(s.callers.Keys);
    var u;
    steps, u := StartsAFetch(cfg, cleared, d, url);
    var rest;
    rest, t, e := GoesOn(cfg, u, c, d, url, pem);
    RunsOn(cfg, cleared, steps, u, rest, t);
    steps := steps + rest;
    RunsOn(cfg, s, [ClearCache], cleared, steps, t);
  }

  lemma GoesOn(cfg: Config, s: State, c: nat, d: nat, url: string, pem: string) returns (steps: seq<Step>, t: State, e: nat)
    requires UnderWay(s, url, c) && s.store == EMPTY
    requires c != d && Outstanding(s, d) && s.callers[d].url == url
    ensures Runs(cfg, s, steps, t) && NoClear(steps)
    ensures TwoAtOnce(t, d, e, url)
  {
    hide EndPointOf, Runs;
    match StageOf(s, c)
    case Led =>
      OneStep(cfg, s, Send(c));
      steps, t, e := [Send(c)], Next(cfg, s, Send(c)), c;
    case Asking =>
      steps, t, e := [], s, c;
      assert Runs(cfg, s, [], s) by {
        NoSteps(cfg, s);
      }
    case Answered(_, _) =>
      var u;
      steps, u := RecordsAndLoses(cfg, s, c, url, pem);
      var rest;
      rest, t, e := RemovesTheOthersEntry(cfg, u, c, d, url);
      RunsOn(cfg, s, steps, u, rest, t);
      steps := steps + rest;
    case Ending(_) =>
      steps, t, e := RemovesTheOthersEntry(cfg, s, c, d, url);
  }

  lemma NoSteps(cfg: Config, s: State)
    ensures Runs(cfg, s, [], s)
  {
  }

  // ---- When a clear does no harm -----------------------------------------

  // However a run goes on from a clear, with no other clear, one fetch for
  // the URL is under way at a time.
  ghost predicate ClearIsHarmless(cfg: Config, s: State, url: string) {
    forall steps, t, d, e ::
      NoClear(steps) && Runs(cfg, s, [ClearCache] + steps, t) && UnderWay(t, url, d) && UnderWay(t, url, e) ==> d == e
  }

  lemma {:induction false} NoClearIsIdle(cfg: Config, s: State, steps: seq<Step>, t: State, url: string)
    requires NoClear(steps) && Runs(cfg, s, steps, t)
    ensures ClearedIdle(cfg, s, steps, url)
    decreases |steps|
  {
    hide Next, Enabled, Idle;
    if steps != [] {
      NoClearIsIdle(cfg, Next(cfg, s, steps[0]), steps[1..], t, url);
    }
  }

  lemma IdleClearIsHarmless(cfg: Config, s: State, steps: seq<Step>, t: State, d: nat, e: nat, url: string)
    requires FlightsInv(s) && Idle(s, url) && NoClear(steps) && Runs(cfg, s, [ClearCache] + steps, t)
    requires UnderWay(t, url, d) && UnderWay(t, url, e)
    ensures d == e
  {
    hide FlightsInv, Idle, Next, UnderWay;
    var cleared := Next(cfg, s, ClearCache);
    assert ([ClearCache] + steps)[1..] == steps;
    StepKeepsFlights(cfg, s, ClearCache);
    NoClearIsIdle(cfg, cleared, steps, t, url);
    RunKeepsEntered(cfg, cleared, steps, t, url);
    RunKeepsFlights(cfg, cleared, steps, t);
    OneIsUnderWay(t, d, e, url);
  }

  // In every state a run can reach, a clear does no harm to the fetches of a
  // URL exactly where none is under way.
  lemma ClearIsHarmlessExactlyWhereIdle(cfg: Config, s: State, run: seq<Step>, t: State, url: string, pem: string)
    requires Initial(cfg, s) && Runs(cfg, s, run, t)
    ensures ClearIsHarmless(cfg, t, url) <==> Idle(t, url)
  {
    hide FlightsInv, UnderWay, NoClear, TwoAtOnce, Runs;
    ReachedFlights(cfg, s, run, t);
    if Idle(t, url) {
      forall steps, u, d, e | NoClear(steps) && Runs(cfg, t, [ClearCache] + steps, u) && UnderWay(u, url, d) && UnderWay(u, url, e)
        ensures d == e
      {
        IdleClearIsHarmless(cfg, t, steps, u, d, e, url);
      }
    } else {
      var c :| UnderWay(t, url, c);
      var steps, u, d, e := ClearLetsTwoFetchAtOnce(cfg, t, c, url, pem);
      RunKeepsFlights(cfg, t, [ClearCache] + steps, u);
      BothAreUnderWay(u, d, e, url);
    }
  }

  lemma BothAreUnderWay(t: State, d: nat, e: nat, url: string)
    requires FlightsInv(t) && TwoAtOnce(t, d, e, url)
    ensures d != e && UnderWay(t, url, d) && UnderWay(t, url, e)
  {
    assert CallerOk(t, d) && CallerOk(t, e);
  }
}
