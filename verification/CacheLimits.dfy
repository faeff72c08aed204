// The drift allowance is exactly what the cache needs: where a creator's
// clock, or its clock and the time an answer takes, may be out by more, some
// run has the cache serve a key for a minute it was not in force.
module CacheLimits {
  import opened Wrappers
  import opened Numbers
  import opened Schedule
  import opened KeyUrl
  import opened KeyCache
  import opened Flights
  import opened Protocol
  import opened FlightLimits

  // The first caller of all asks and is answered.
  lemma IsAnswered(cfg: Config, s: State, url: string, reply: Reply) returns (steps: seq<Step>, t: State)
    requires Initial(cfg, s) && EndPointOf(url) in s.creators
    requires HonestReply(s.creators[EndPointOf(url)], MinuteOf(url), reply)
    ensures steps == [Call(0, url), TakeTurn(0), Send(0), Receive(0, reply)] && Runs(cfg, s, steps, t)
    ensures t.store == EMPTY && t.creators == s.creators && t.now == s.now && t.flights == [Started(NEW_FLIGHT, url, 0)]
    ensures var recent := MinuteOf(url).Some? && Recent(MinuteOf(url).value, s.now);
            t.callers == map[0 := Caller(url, recent, Leading(0, Answered(reply, s.now)), {}, 0)]
  {
    hide HonestReply, EndPointOf, MinuteOf;
    steps := [Call(0, url), TakeTurn(0), Send(0), Receive(0, reply)];
    var s1 := AfterCall(s, 0, url);
    assert Lookup(s1, url, s1.callers[0].recent).None?;
    var s2 := AfterTurn(s1, 0);
    var s3 := Next(cfg, s2, Send(0));
    t := Next(cfg, s3, Receive(0, reply));
    assert steps[1..][1..][1..][1..] == [] && steps[1..][0] == steps[1] && steps[1..][1..][0] == steps[2] && steps[1..][1..][1..][0] == steps[3];
    assert Runs(cfg, t, steps[1..][1..][1..][1..], t);
    assert Runs(cfg, s3, steps[1..][1..][1..], t);
    assert Runs(cfg, s2, steps[1..][1..], t);
    assert Runs(cfg, s1, steps[1..], t);
  }

  // An answer recorded in an empty cache is served for what it claims.
  lemma IsServed(store: Store, e: string, pem: string, claim: Claim, minute: u32)
    requires store == EMPTY && claim.first <= minute <= claim.last
    ensures var served := HeldFor(Holding(store, e, pem, Some(claim)).keys, e, minute, false);
            served == Some(NewKey(pem, claim).Stated())
  {
    var list := ListAt(Holding(store, e, pem, Some(claim)).keys, e);
    assert list == [NewKey(pem, claim)];
  }

  // Serves the key for a minute the schedule does not put it in force for.
  predicate ServesWrongKey(s: State, e: string, minute: u32) {
    && e in s.creators && !Recent(minute, s.now)
    && var served := HeldFor(s.store.keys, e, minute, false);
       var inForce := InForce(s.creators[e].keys, minute);
       served.Some? && inForce.Some? && served.value.pem != inForce.value.pem
  }

  lemma TwoKeys(a: DatedKey, b: DatedKey, at: int)
    requires a.startsAt < b.startsAt && a.startsAt <= at
    ensures InForce([a, b], at) == Some(if b.startsAt <= at then b else a)
  {
    assert [a, b][1..] == [b] && [b][1..] == [];
    assert InForce([b], at) == if b.startsAt <= at then Some(b) else None;
  }

  lemma OneKey(a: DatedKey, at: int)
    requires a.startsAt <= at
    ensures InForce([a], at) == Some(a) && NextStartAfter([a], a) == None
  {
    assert [a][1..] == [];
  }

  // An answer that has arrived is recorded in an empty cache and served for
  // what it claims.
  lemma IsRecorded(cfg: Config, u: State, url: string, reply: Reply, claim: Claim, minute: u32) returns (t: State)
    requires LeadsAt(u, 0) && StageOf(u, 0).Answered? && StageOf(u, 0).reply == reply && reply.Answer?
    requires u.callers[0].url == url && ReplyClaim(u.callers[0], reply, u.now) == Some(claim)
    requires u.store == EMPTY && claim.first <= minute <= claim.last
    ensures Runs(cfg, u, [Settle(0)], t) && t.creators == u.creators && t.now == u.now
    ensures var served := HeldFor(t.store.keys, EndPointOf(url), minute, false);
            served == Some(NewKey(reply.pem, claim).Stated())
    ensures t.callers.Keys == u.callers.Keys && t.inFlight == u.inFlight
  {
    hide Holding, HeldFor, EndPointOf, ReplyClaim;
    t := AfterSettle(u, 0);
    assert [Settle(0)][1..] == [];
    assert Runs(cfg, t, [Settle(0)][1..], t);
    IsServed(EMPTY, EndPointOf(url), reply.pem, claim, minute);
  }

  lemma SilentAnswer(a: DatedKey, b: DatedKey, clock: int, minute: u32)
    requires a.startsAt <= clock < b.startsAt && clock <= minute
    ensures HonestReply(Creator([a, b], clock, false), Some(minute), Answer(a.pem, None, None))
  {
    TwoKeys(a, b, clock);
  }

  // With a fixed schedule, a clock further behind than the allowance reads a
  // minute that is not recent as its present.
  lemma SlowClockMisleads(cfg: Config, e: string, a: DatedKey, b: DatedKey) returns (s: State, steps: seq<Step>, t: State)
    requires '?' !in e && a.startsAt == 0 && b.startsAt == 85 && a.pem != b.pem
    requires !cfg.grows && cfg.skew > CLOCK_DRIFT_ALLOWANCE_MINUTES
    ensures Initial(cfg, s) && Runs(cfg, s, steps, t) && ServesWrongKey(t, e, 85)
  {
    hide HonestReply, ClaimOf, HeldFor, InForce, KeyUrlAt, EndPointOf, MinuteOf, Runs;
    s := State(100, EMPTY, map[], [], map[], map[e := Creator([a, b], 84, false)], []);
    var url := KeyUrlAt(e, 85);
    KeyUrlRoundTrip(e, 85);
    SilentAnswer(a, b, 84, 85);
    TwoKeys(a, b, 85);
    var reply := Answer(a.pem, None, None);
    var claim := Claim(85, 85, false, false);
    assert ClaimOf(Some(85), false, None, None, 100) == Some(claim) by {
      PointClaim(85, 100);
    }
    var before, u := IsAnswered(cfg, s, url, reply);
    t := IsRecorded(cfg, u, url, reply, claim, 85);
    steps := before + [Settle(0)];
    RunsOn(cfg, s, before, u, [Settle(0)], t);
  }

  lemma PointClaim(minute: u32, now: u32)
    ensures ClaimOf(Some(minute), false, None, None, now) == Some(Claim(minute, minute, false, false))
  {
  }

  lemma OpenClaim(minute: u32, now: u32)
    requires now >= CLOCK_DRIFT_ALLOWANCE_MINUTES
    ensures ClaimOf(Some(minute), false, Some(0), None, now) == Some(Claim(0, now - CLOCK_DRIFT_ALLOWANCE_MINUTES, false, true))
  {
  }

  lemma OpenAnswer(a: DatedKey, clock: int, minute: u32)
    requires a.startsAt == 0 <= clock
    ensures HonestReply(Creator([a], clock, true), Some(minute), Answer(a.pem, Some(0), None))
  {
    OneKey(a, Min(minute, clock));
  }

  // With keys added while the verifier runs, an answer without an end that
  // takes too long to arrive is held past the start of a key added since.
  lemma SlowAnswerMisleads(cfg: Config, e: string, a: DatedKey, b: DatedKey) returns (s: State, steps: seq<Step>, t: State)
    requires '?' !in e && cfg.grows && !cfg.Allowed()
    requires a.startsAt == 0 && b.startsAt == 101 - Min(cfg.skew, 16) && a.pem != b.pem
    ensures Initial(cfg, s) && Runs(cfg, s, steps, t) && ServesWrongKey(t, e, b.startsAt)
  {
    hide HonestReply, ClaimOf, HeldFor, InForce, KeyUrlAt, EndPointOf, MinuteOf, Runs;
    var behind: nat := Min(cfg.skew, 16);
    var now := 116 - behind;
    s := State(100, EMPTY, map[], [], map[], map[e := Creator([a], 100 - behind, true)], []);
    var url := KeyUrlAt(e, 0);
    KeyUrlRoundTrip(e, 0);
    OpenAnswer(a, 100 - behind, 0);
    OpenClaim(0, now);
    TwoKeys(a, b, b.startsAt);
    var reply := Answer(a.pem, Some(0), None);
    var before, u := IsAnswered(cfg, s, url, reply);
    var wait, v := AddsAndWaits(cfg, u, e, b, now, now - behind);
    t := IsRecorded(cfg, v, url, reply, Claim(0, now - 15, false, true), b.startsAt);
    steps := before + wait + [Settle(0)];
    RunsOn(cfg, s, before, u, wait, v);
    RunsOn(cfg, s, before + wait, v, [Settle(0)], t);
    assert [a] + [b] == [a, b];
  }

  lemma AddsAndWaits(cfg: Config, u: State, e: string, key: DatedKey, now: u32, clock: int) returns (steps: seq<Step>, v: State)
    requires cfg.grows && u.creators.Keys == {e} && Near(clock, now, cfg.skew) && u.now <= now && InTime(cfg, u, now)
    requires u.creators[e].clock < key.startsAt && u.creators[e].clock <= clock
    requires forall k :: k in u.creators[e].keys ==> k.startsAt < key.startsAt && k.pem != key.pem
    ensures steps == [Append(e, key), Tick(now, map[e := clock])] && Runs(cfg, u, steps, v)
    ensures v.store == u.store && v.callers == u.callers && v.flights == u.flights && v.now == now
    ensures v.creators.Keys == {e} && v.creators[e].keys == u.creators[e].keys + [key]
  {
    steps := [Append(e, key), Tick(now, map[e := clock])];
    var u1 := Next(cfg, u, steps[0]);
    v := AfterTick(u1, now, map[e := clock]);
    assert steps[1..][0] == steps[1] && steps[1..][1..] == [];
    assert Runs(cfg, v, steps[1..][1..], v);
    assert Runs(cfg, u1, steps[1..], v);
  }
}
