// The cache agrees with the schedule: in every state a run can reach, what
// is held for an honest creator is what its schedule says, whatever the
// other creators answer and whatever order the answers arrive in.
module CacheHonesty {
  import opened Wrappers
  import opened Numbers
  import opened Schedule
  import opened KeyUrl
  import opened KeyCache
  import opened Flights
  import opened Protocol

  // The minute is past the reach of any key the creator may yet add.
  ghost predicate Settled(creator: Creator, minute: int) {
    minute <= creator.clock || exists k :: k in creator.keys && minute <= k.startsAt
  }

  // The key is the one in force at the minute, and will stay so.
  ghost predicate Known(cfg: Config, creator: Creator, pem: string, minute: int) {
    && InForce(creator.keys, minute).Some? && InForce(creator.keys, minute).value.pem == pem
    && (cfg.grows ==> Settled(creator, minute))
  }

  ghost predicate KnownSpan(cfg: Config, creator: Creator, pem: string, first: int, last: int) {
    forall m :: first <= m <= last ==> Known(cfg, creator, pem, m)
  }

  ghost predicate HeldOk(cfg: Config, creator: Creator, list: seq<HeldKey>) {
    forall i :: 0 <= i < |list| ==> KnownSpan(cfg, creator, list[i].pem, list[i].first, list[i].last)
  }

  // How far an answer without an end vouches for its key.
  function OpenUntil(cfg: Config, start: int, at: int): int {
    if cfg.grows then Max(start, at - cfg.skew) else U32_MAX
  }

  // The answer takes in the minute it was asked for.
  predicate Reaches(reply: Reply, minute: u32)
    requires reply.Answer?
  {
    reply.start.Some? ==> reply.start.value <= minute && (reply.end.Some? ==> minute < reply.end.value)
  }

  // What an answer received at a time vouches for, until it is recorded.
  ghost predicate ReplyOk(cfg: Config, creator: Creator, caller: Caller, reply: Reply, at: int) {
    reply.Answer? ==>
      var Answer(pem, start, end) := reply;
      && (start.Some? && end.Some? ==> start.value < end.value)
      && (start.Some? ==> KnownSpan(cfg, creator, pem, start.value, if end.Some? then end.value - 1 else OpenUntil(cfg, start.value, at)))
      && (!caller.recent && MinuteOf(caller.url).Some? ==>
            Known(cfg, creator, pem, MinuteOf(caller.url).value) && Reaches(reply, MinuteOf(caller.url).value))
  }

  ghost predicate CreatorOk(cfg: Config, creator: Creator, now: u32) {
    GoodSchedule(creator.keys) && 0 <= creator.clock && Near(creator.clock, now, cfg.skew)
  }

  // A minute once far enough behind now stays so.
  predicate RecencyOk(s: State, c: nat)
    requires c in s.callers
  {
    !s.callers[c].recent && MinuteOf(s.callers[c].url).Some? ==> !Recent(MinuteOf(s.callers[c].url).value, s.now)
  }

  ghost predicate PendingOk(cfg: Config, s: State, c: nat)
    requires c in s.callers
  {
    var caller := s.callers[c];
    caller.phase.Leading? && caller.phase.stage.Answered? && EndPointOf(caller.url) in s.creators ==>
      && ReplyOk(cfg, s.creators[EndPointOf(caller.url)], caller, caller.phase.stage.reply, caller.phase.stage.at)
      && (cfg.grows ==> s.now <= caller.phase.stage.at + cfg.latency)
  }

  ghost predicate HonestInv(cfg: Config, s: State) {
    && WellFormed(s.store)
    && (forall e :: e in s.creators ==> CreatorOk(cfg, s.creators[e], s.now) && HeldOk(cfg, s.creators[e], ListAt(s.store.keys, e)))
    && (forall c :: c in s.callers ==> RecencyOk(s, c) && PendingOk(cfg, s, c))
  }

  // ---- Honest answers vouch for what they let the verifier hold ----------

  lemma InSpanIsKnown(cfg: Config, creator: Creator, at: int, minute: int)
    requires InForce(creator.keys, at).Some? && InSpan(creator.keys, InForce(creator.keys, at).value, minute)
    requires cfg.grows ==> Settled(creator, minute)
    ensures Known(cfg, creator, InForce(creator.keys, at).value.pem, minute)
  {
    SpansPartitionTime(creator.keys, at, minute);
  }

  lemma StatedReplyIsOk(cfg: Config, creator: Creator, caller: Caller, at: u32)
    requires cfg.Allowed() && CreatorOk(cfg, creator, at)
    requires !caller.recent && MinuteOf(caller.url).Some? ==> !Recent(MinuteOf(caller.url).value, at)
    requires InForce(creator.keys, AskedMinute(creator, MinuteOf(caller.url))).Some?
    ensures var key := InForce(creator.keys, AskedMinute(creator, MinuteOf(caller.url))).value;
            && ReplyOk(cfg, creator, caller, StatedReply(creator.keys, key), at)
            && ReplyOk(cfg, creator, caller, Answer(key.pem, None, None), at)
  {
    var asked := AskedMinute(creator, MinuteOf(caller.url));
    var key := InForce(creator.keys, asked).value;
    var reply := StatedReply(creator.keys, key);
    SpansPartitionTime(creator.keys, asked, asked);
    NextStartIsEarliest(creator.keys, key);
    if reply.start.Some? {
      var last := if reply.end.Some? then reply.end.value - 1 else OpenUntil(cfg, reply.start.value, at);
      forall m | reply.start.value <= m <= last
        ensures Known(cfg, creator, key.pem, m)
      {
        InSpanIsKnown(cfg, creator, asked, m);
      }
    }
    if !caller.recent && MinuteOf(caller.url).Some? {
      assert MinuteOf(caller.url).value <= creator.clock;
    }
  }

  lemma ReceivedReplyIsOk(cfg: Config, creator: Creator, caller: Caller, reply: Reply, at: u32)
    requires cfg.Allowed() && CreatorOk(cfg, creator, at)
    requires !caller.recent && MinuteOf(caller.url).Some? ==> !Recent(MinuteOf(caller.url).value, at)
    requires HonestReply(creator, MinuteOf(caller.url), reply)
    ensures ReplyOk(cfg, creator, caller, reply, at)
  {
    if reply.Answer? {
      StatedReplyIsOk(cfg, creator, caller, at);
    }
  }

  // The span the verifier then holds, with its own clock at that moment, is
  // one the creator vouched for, and takes in a minute asked about that was
  // not recent.
  lemma ClaimIsKnown(cfg: Config, creator: Creator, caller: Caller, reply: Reply, at: u32, now: u32)
    requires cfg.Allowed() && ReplyOk(cfg, creator, caller, reply, at)
    requires cfg.grows ==> now <= at + cfg.latency
    requires !caller.recent && MinuteOf(caller.url).Some? ==> !Recent(MinuteOf(caller.url).value, now)
    ensures var claim := ReplyClaim(caller, reply, now);
            && (claim.Some? ==> GoodKey(NewKey(ReplyPem(reply), claim.value)))
            && (claim.Some? ==> KnownSpan(cfg, creator, ReplyPem(reply), claim.value.first, claim.value.last))
            && (reply.Answer? && !caller.recent && MinuteOf(caller.url).Some? ==>
                  claim.Some? && claim.value.first <= MinuteOf(caller.url).value <= claim.value.last)
  {
  }

  // ---- Holding what is known ---------------------------------------------

  lemma SamePemSameKey(keys: seq<DatedKey>, a: int, b: int)
    requires GoodSchedule(keys) && InForce(keys, a).Some? && InForce(keys, b).Some?
    requires InForce(keys, a).value.pem == InForce(keys, b).value.pem
    ensures InForce(keys, a) == InForce(keys, b)
  {
    var i := InForceIsChosen(keys, a);
    var j := InForceIsChosen(keys, b);
  }

  // What is known at both ends of a span is known throughout it, because a
  // key once left is not gone back to.
  lemma KnownBetween(cfg: Config, creator: Creator, pem: string, first: int, minute: int, last: int)
    requires GoodSchedule(creator.keys) && first <= minute <= last
    requires Known(cfg, creator, pem, first) && Known(cfg, creator, pem, last)
    ensures Known(cfg, creator, pem, minute)
  {
    SamePemSameKey(creator.keys, first, last);
    InForceIsConvex(creator.keys, first, minute, last);
  }

  lemma HullIsKnown(cfg: Config, creator: Creator, key: HeldKey, claim: Claim)
    requires GoodSchedule(creator.keys) && key.first <= key.last && claim.first <= claim.last
    requires KnownSpan(cfg, creator, key.pem, key.first, key.last)
    requires KnownSpan(cfg, creator, key.pem, claim.first, claim.last)
    ensures KnownSpan(cfg, creator, key.pem, Hull(key, claim).first, Hull(key, claim).last)
  {
    var first, last := Hull(key, claim).first, Hull(key, claim).last;
    forall m | first <= m <= last
      ensures Known(cfg, creator, key.pem, m)
    {
      KnownBetween(cfg, creator, key.pem, first, m, last);
    }
  }

  // Two keys known over spans that share a minute are one key.
  lemma MeetingKeysAreOne(cfg: Config, creator: Creator, a: string, b: string, key: HeldKey, first: u32, last: u32)
    requires key.first <= key.last && first <= last && key.Meets(first, last)
    requires KnownSpan(cfg, creator, a, key.first, key.last) && KnownSpan(cfg, creator, b, first, last)
    ensures a == b
  {
    var m := Max(key.first, first);
    assert Known(cfg, creator, a, m) && Known(cfg, creator, b, m);
  }

  // An honest creator's answers never conflict: nothing it vouches for is
  // refused, neither widened across another key nor overlapping one.
  lemma KnownIsNotRefused(cfg: Config, creator: Creator, list: seq<HeldKey>, pem: string, claim: Claim)
    requires GoodSchedule(creator.keys) && GoodList(list) && HeldOk(cfg, creator, list)
    requires claim.first <= claim.last && KnownSpan(cfg, creator, pem, claim.first, claim.last)
    ensures !Refused(list, pem, claim)
  {
    var index := Position(list, pem);
    var first, last := claim.first, claim.last;
    if index < |list| {
      assert KnownSpan(cfg, creator, list[index].pem, list[index].first, list[index].last);
      HullIsKnown(cfg, creator, list[index], claim);
      first, last := Hull(list[index], claim).first, Hull(list[index], claim).last;
    }
    forall i | 0 <= i < |list| && i != index && list[i].Meets(first, last)
      ensures false
    {
      MeetingKeysAreOne(cfg, creator, list[i].pem, pem, list[i], first, last);
    }
  }

  lemma HoldingKnownKeepsHeldOk(cfg: Config, creator: Creator, store: Store, e: string, pem: string, claim: Claim)
    requires WellFormed(store) && GoodSchedule(creator.keys) && HeldOk(cfg, creator, ListAt(store.keys, e))
    requires claim.first <= claim.last && KnownSpan(cfg, creator, pem, claim.first, claim.last)
    ensures HeldOk(cfg, creator, ListAt(Holding(store, e, pem, Some(claim)).keys, e))
  {
    hide Known, WellFormed, KnownSpan, AnotherMeets;
    var list := ListAt(store.keys, e);
    var index := Position(list, pem);
    if index < |list| {
      assert KnownSpan(cfg, creator, list[index].pem, list[index].first, list[index].last);
      assert list[index].first <= list[index].last by {
        ListIsGood(store, e, index);
      }
      HullIsKnown(cfg, creator, list[index], claim);
    }
  }

  lemma ListIsGood(store: Store, e: string, i: nat)
    requires WellFormed(store) && i < |ListAt(store.keys, e)|
    ensures GoodList(ListAt(store.keys, e)) && GoodKey(ListAt(store.keys, e)[i])
  {
  }

  // Whatever is held for one end point, another's keys are left as they were
  // or dropped altogether.
  lemma HoldingLeavesOthers(store: Store, e: string, pem: string, claim: Option<Claim>, other: string)
    requires other != e
    ensures var list := ListAt(Holding(store, e, pem, claim).keys, other);
            list == ListAt(store.keys, other) || list == []
  {
  }

  // ---- Each step keeps it ------------------------------------------------

  lemma KnownAfterAppend(cfg: Config, creator: Creator, key: DatedKey, pem: string, minute: int)
    requires cfg.grows && creator.clock < key.startsAt && forall k :: k in creator.keys ==> k.startsAt < key.startsAt
    requires Known(cfg, creator, pem, minute)
    ensures Known(cfg, creator.(keys := creator.keys + [key]), pem, minute)
  {
    AppendLater(creator.keys, key, minute);
    if minute > creator.clock {
      var k :| k in creator.keys && minute <= k.startsAt;
      assert k in creator.keys + [key];
    }
  }

  // A creator that has moved its clock on or added a key.
  ghost predicate Follows(cfg: Config, was: Creator, now: Creator) {
    forall pem, m :: Known(cfg, was, pem, m) ==> Known(cfg, now, pem, m)
  }

  lemma AppendFollows(cfg: Config, was: Creator, key: DatedKey)
    requires cfg.grows && was.clock < key.startsAt && forall k :: k in was.keys ==> k.startsAt < key.startsAt
    ensures Follows(cfg, was, was.(keys := was.keys + [key]))
  {
    forall pem, m | Known(cfg, was, pem, m)
      ensures Known(cfg, was.(keys := was.keys + [key]), pem, m)
    {
      KnownAfterAppend(cfg, was, key, pem, m);
    }
  }

  lemma FollowsKeeps(cfg: Config, was: Creator, now: Creator, list: seq<HeldKey>)
    requires Follows(cfg, was, now) && HeldOk(cfg, was, list)
    ensures HeldOk(cfg, now, list)
  {
    forall i | 0 <= i < |list|
      ensures KnownSpan(cfg, now, list[i].pem, list[i].first, list[i].last)
    {
      assert KnownSpan(cfg, was, list[i].pem, list[i].first, list[i].last);
    }
  }

  // A step that leaves the store as it was and moves creators and clocks on.
  lemma WorldMoves(cfg: Config, s: State, t: State)
    requires HonestInv(cfg, s) && t.store == s.store && t.callers == s.callers && s.now <= t.now
    requires t.creators.Keys == s.creators.Keys && (t.now == s.now || InTime(cfg, s, t.now))
    requires forall e :: e in s.creators ==> Follows(cfg, s.creators[e], t.creators[e]) && CreatorOk(cfg, t.creators[e], t.now)
    ensures HonestInv(cfg, t)
  {
    forall e | e in t.creators
      ensures HeldOk(cfg, t.creators[e], ListAt(t.store.keys, e))
    {
      FollowsKeeps(cfg, s.creators[e], t.creators[e], ListAt(s.store.keys, e));
    }
    forall c | c in t.callers
      ensures RecencyOk(t, c) && PendingOk(cfg, t, c)
    {
      assert RecencyOk(s, c) && PendingOk(cfg, s, c);
    }
  }

  lemma AppendKeepsHonesty(cfg: Config, s: State, e: string, key: DatedKey)
    requires HonestInv(cfg, s) && Enabled(cfg, s, Append(e, key))
    ensures HonestInv(cfg, Next(cfg, s, Append(e, key)))
  {
    var t := Next(cfg, s, Append(e, key));
    var was := s.creators[e];
    AppendFollows(cfg, was, key);
    assert forall i :: 0 <= i < |was.keys| ==> was.keys[i] in was.keys;
    WorldMoves(cfg, s, t);
  }

  lemma TickKeepsHonesty(cfg: Config, s: State, now: u32, clocks: map<string, int>)
    requires HonestInv(cfg, s) && Enabled(cfg, s, Tick(now, clocks))
    ensures HonestInv(cfg, AfterTick(s, now, clocks))
  {
    WorldMoves(cfg, s, AfterTick(s, now, clocks));
  }

  // A step that leaves the store and the world as they were.
  lemma CallersMove(cfg: Config, s: State, t: State)
    requires HonestInv(cfg, s) && t.store == s.store && t.creators == s.creators && t.now == s.now
    requires forall c :: c in t.callers && c in s.callers ==>
               && t.callers[c].url == s.callers[c].url && t.callers[c].recent == s.callers[c].recent
               && (t.callers[c].phase.Leading? && t.callers[c].phase.stage.Answered? ==> t.callers[c].phase == s.callers[c].phase)
    requires forall c :: c in t.callers && c !in s.callers ==> RecencyOk(t, c) && !t.callers[c].phase.Leading?
    ensures HonestInv(cfg, t)
  {
    forall c | c in t.callers
      ensures RecencyOk(t, c) && PendingOk(cfg, t, c)
    {
      if c in s.callers {
        assert RecencyOk(s, c) && PendingOk(cfg, s, c);
      }
    }
  }

  lemma ReceiveKeepsHonesty(cfg: Config, s: State, c: nat, reply: Reply)
    requires cfg.Allowed() && HonestInv(cfg, s) && Enabled(cfg, s, Receive(c, reply))
    ensures HonestInv(cfg, WithStage(s, c, Answered(reply, s.now)))
  {
    var t := WithStage(s, c, Answered(reply, s.now));
    var e := EndPointOf(s.callers[c].url);
    assert RecencyOk(s, c);
    if e in s.creators {
      ReceivedReplyIsOk(cfg, s.creators[e], s.callers[c], reply, s.now);
    }
    forall d | d in t.callers
      ensures RecencyOk(t, d) && PendingOk(cfg, t, d)
    {
      assert RecencyOk(s, d) && PendingOk(cfg, s, d);
    }
  }

  // What a caller about to record an answer is entitled to.
  lemma PendingClaim(cfg: Config, s: State, c: nat)
    requires cfg.Allowed() && HonestInv(cfg, s) && Enabled(cfg, s, Settle(c))
    ensures var reply := StageOf(s, c).reply;
            var claim := ReplyClaim(s.callers[c], reply, s.now);
            var e := EndPointOf(s.callers[c].url);
            && (claim.Some? ==> GoodKey(NewKey(ReplyPem(reply), claim.value)))
            && (e in s.creators ==>
                  && GoodSchedule(s.creators[e].keys)
                  && (claim.Some? ==> KnownSpan(cfg, s.creators[e], ReplyPem(reply), claim.value.first, claim.value.last)
                                      && !Refused(ListAt(s.store.keys, e), ReplyPem(reply), claim.value))
                  && (reply.Answer? && !s.callers[c].recent && MinuteOf(s.callers[c].url).Some? ==>
                        claim.Some? && claim.value.first <= MinuteOf(s.callers[c].url).value <= claim.value.last))
  {
    var stage := StageOf(s, c);
    var e := EndPointOf(s.callers[c].url);
    var claim := ReplyClaim(s.callers[c], stage.reply, s.now);
    assert PendingOk(cfg, s, c) && RecencyOk(s, c);
    if e in s.creators {
      ClaimIsKnown(cfg, s.creators[e], s.callers[c], stage.reply, stage.at, s.now);
      if claim.Some? {
        KnownIsNotRefused(cfg, s.creators[e], ListAt(s.store.keys, e), ReplyPem(stage.reply), claim.value);
      }
    }
  }

  lemma SettleKeepsHonesty(cfg: Config, s: State, c: nat)
    requires cfg.Allowed() && HonestInv(cfg, s) && Enabled(cfg, s, Settle(c))
    ensures HonestInv(cfg, AfterSettle(s, c))
  {
    hide WellFormed, KnownSpan, Refused, Holding, HeldOk, GoodSchedule, ReplyClaim, ReplyPem, ReplyOutcome;
    var t := AfterSettle(s, c);
    var e := EndPointOf(s.callers[c].url);
    var reply := StageOf(s, c).reply;
    var claim := ReplyClaim(s.callers[c], reply, s.now);
    PendingClaim(cfg, s, c);
    assert WellFormed(t.store) by {
      StoreStaysWellFormed(s.store, e, ReplyPem(reply), claim);
    }
    forall d | d in t.creators
      ensures HeldOk(cfg, t.creators[d], ListAt(t.store.keys, d))
    {
      HeldStaysOk(cfg, s.creators[d], s.store, e, ReplyPem(reply), claim, d);
    }
    CallersMove(cfg, s.(store := t.store), t);
  }

  lemma StoreStaysWellFormed(store: Store, e: string, pem: string, claim: Option<Claim>)
    requires WellFormed(store) && (claim.Some? ==> GoodKey(NewKey(pem, claim.value)))
    ensures WellFormed(Holding(store, e, pem, claim))
  {
    if claim.Some? {
      HoldingClaimKeepsWellFormed(store, e, pem, claim.value);
    }
  }

  lemma HeldStaysOk(cfg: Config, creator: Creator, store: Store, e: string, pem: string, claim: Option<Claim>, d: string)
    requires WellFormed(store) && GoodSchedule(creator.keys) && HeldOk(cfg, creator, ListAt(store.keys, d))
    requires claim.Some? && d == e ==> claim.value.first <= claim.value.last
                                       && KnownSpan(cfg, creator, pem, claim.value.first, claim.value.last)
    ensures HeldOk(cfg, creator, ListAt(Holding(store, e, pem, claim).keys, d))
  {
    if d != e {
      HoldingLeavesOthers(store, e, pem, claim, d);
    } else if claim.Some? {
      HoldingKnownKeepsHeldOk(cfg, creator, store, e, pem, claim.value);
    }
  }

  lemma ClearKeepsHonesty(cfg: Config, s: State, t: State)
    requires HonestInv(cfg, s) && t == s.(store := EMPTY, inFlight := map[])
    ensures HonestInv(cfg, t)
  {
    assert Total(map[]) == 0;
    forall c | c in t.callers
      ensures RecencyOk(t, c) && PendingOk(cfg, t, c)
    {
      assert RecencyOk(s, c) && PendingOk(cfg, s, c);
    }
  }

  lemma StepKeepsHonesty(cfg: Config, s: State, step: Step)
    requires cfg.Allowed() && HonestInv(cfg, s) && Enabled(cfg, s, step)
    ensures HonestInv(cfg, Next(cfg, s, step))
  {
    hide HonestInv, Holding, ReplyOutcome, HonestReply;
    var t := Next(cfg, s, step);
    match step
    case Receive(c, reply) => ReceiveKeepsHonesty(cfg, s, c, reply);
    case Settle(c) => SettleKeepsHonesty(cfg, s, c);
    case ClearCache => ClearKeepsHonesty(cfg, s, t);
    case Tick(now, clocks) => TickKeepsHonesty(cfg, s, now, clocks);
    case Append(e, key) => AppendKeepsHonesty(cfg, s, e, key);
    case Wake(c) => WakeKeepsHonesty(cfg, s, c);
    case PollFlight(c, waker) => PollKeepsHonesty(cfg, s, c, waker);
    case _ => CallerStepKeepsHonesty(cfg, s, step);
  }

  lemma WakeKeepsHonesty(cfg: Config, s: State, c: nat)
    requires HonestInv(cfg, s) && Enabled(cfg, s, Wake(c))
    ensures HonestInv(cfg, AfterWake(s, c))
  {
    hide HonestInv;
    CallersMove(cfg, s, AfterWake(s, c));
  }

  lemma PollMoves(s: State, c: nat, waker: Waker)
    requires c in s.callers && s.callers[c].phase.Waiting? && s.callers[c].phase.on < |s.flights|
    ensures var t := AfterPoll(s, c, waker);
            && t.callers.Keys == s.callers.Keys && (forall d :: d in s.callers && d != c ==> t.callers[d] == s.callers[d])
            && t.callers[c].url == s.callers[c].url && t.callers[c].recent == s.callers[c].recent
            && !t.callers[c].phase.Leading? && |t.flights| == |s.flights|
            && (forall f :: 0 <= f < |s.flights| ==> t.flights[f].leader == s.flights[f].leader)
            && t == s.(callers := t.callers, flights := t.flights)
  {
    hide Polled;
  }

  lemma PollKeepsHonesty(cfg: Config, s: State, c: nat, waker: Waker)
    requires HonestInv(cfg, s) && Enabled(cfg, s, PollFlight(c, waker))
    ensures HonestInv(cfg, AfterPoll(s, c, waker))
  {
    hide HonestInv, AfterPoll;
    PollMoves(s, c, waker);
    CallersMove(cfg, s, AfterPoll(s, c, waker));
  }

  lemma CallerStepKeepsHonesty(cfg: Config, s: State, step: Step)
    requires HonestInv(cfg, s) && Enabled(cfg, s, step)
    requires match step
             case Receive(_, _) => false
             case Settle(_) => false
             case Wake(_) => false
             case PollFlight(_, _) => false
             case ClearCache => false
             case Tick(_, _) => false
             case Append(_, _) => false
             case _ => true
    ensures HonestInv(cfg, Next(cfg, s, step))
  {
    hide HonestInv, Lookup, Polled, HonestReply;
    CallersMove(cfg, s, Next(cfg, s, step));
  }

  lemma InitialIsHonest(cfg: Config, s: State)
    requires Initial(cfg, s)
    ensures HonestInv(cfg, s)
  {
    assert Total(map[]) == 0;
  }

  lemma {:induction false} RunKeepsHonesty(cfg: Config, s: State, steps: seq<Step>, t: State)
    requires cfg.Allowed() && HonestInv(cfg, s) && Runs(cfg, s, steps, t)
    ensures HonestInv(cfg, t)
    decreases |steps|
  {
    hide HonestInv, Next, Enabled;
    if steps != [] {
      StepKeepsHonesty(cfg, s, steps[0]);
      RunKeepsHonesty(cfg, Next(cfg, s, steps[0]), steps[1..], t);
    }
  }

  // ---- What follows for every run ----------------------------------------

  // The cache refines the schedule. In every state any interleaving can
  // reach, whatever is served for a minute of an honest creator is the key
  // its schedule puts in force then, and where keys are added during the
  // run, the key that stays in force then.
  lemma CacheRefinesSchedule(cfg: Config, s: State, steps: seq<Step>, t: State, e: string, minute: u32, recent: bool)
    requires cfg.Allowed() && Initial(cfg, s) && Runs(cfg, s, steps, t) && e in t.creators
    requires HeldFor(t.store.keys, e, minute, recent).Some?
    ensures var inForce := InForce(t.creators[e].keys, minute);
            inForce.Some? && HeldFor(t.store.keys, e, minute, recent).value.pem == inForce.value.pem
  {
    InitialIsHonest(cfg, s);
    RunKeepsHonesty(cfg, s, steps, t);
    ServedIsInForce(cfg, t, e, minute, recent);
  }

  lemma ServedIsInForce(cfg: Config, t: State, e: string, minute: u32, recent: bool)
    requires HonestInv(cfg, t) && e in t.creators
    requires HeldFor(t.store.keys, e, minute, recent).Some?
    ensures var inForce := InForce(t.creators[e].keys, minute);
            inForce.Some? && HeldFor(t.store.keys, e, minute, recent).value.pem == inForce.value.pem
  {
    var list := ListAt(t.store.keys, e);
    FindKeyFinds(list, minute, recent);
    var i :| 0 <= i < |list| && list[i] == FindKey(list, minute, recent).value;
    assert KnownSpan(cfg, t.creators[e], list[i].pem, list[i].first, list[i].last);
    assert Known(cfg, t.creators[e], list[i].pem, minute);
  }

  // An honest creator's answer is never refused, and once it is recorded the
  // minute asked about, where it was not recent, is found in the cache.
  lemma HonestAnswersNeverConflict(cfg: Config, s: State, steps: seq<Step>, t: State, c: nat)
    requires cfg.Allowed() && Initial(cfg, s) && Runs(cfg, s, steps, t) && Enabled(cfg, t, Settle(c))
    requires EndPointOf(t.callers[c].url) in t.creators && StageOf(t, c).reply.Answer?
    ensures var claim := ReplyClaim(t.callers[c], StageOf(t, c).reply, t.now);
            claim.Some? ==> !Refused(ListAt(t.store.keys, EndPointOf(t.callers[c].url)), StageOf(t, c).reply.pem, claim.value)
    ensures !t.callers[c].recent && MinuteOf(t.callers[c].url).Some? ==> Lookup(AfterSettle(t, c), t.callers[c].url, false).Some?
  {
    InitialIsHonest(cfg, s);
    RunKeepsHonesty(cfg, s, steps, t);
    SettledIsServed(cfg, t, c);
  }

  lemma SettledIsServed(cfg: Config, t: State, c: nat)
    requires cfg.Allowed() && HonestInv(cfg, t) && Enabled(cfg, t, Settle(c))
    requires EndPointOf(t.callers[c].url) in t.creators && StageOf(t, c).reply.Answer?
    ensures var claim := ReplyClaim(t.callers[c], StageOf(t, c).reply, t.now);
            claim.Some? ==> !Refused(ListAt(t.store.keys, EndPointOf(t.callers[c].url)), StageOf(t, c).reply.pem, claim.value)
    ensures !t.callers[c].recent && MinuteOf(t.callers[c].url).Some? ==> Lookup(AfterSettle(t, c), t.callers[c].url, false).Some?
  {
    hide KnownSpan, GoodSchedule, Holding;
    PendingClaim(cfg, t, c);
    var url := t.callers[c].url;
    var reply := StageOf(t, c).reply;
    var claim := ReplyClaim(t.callers[c], reply, t.now);
    if !t.callers[c].recent && MinuteOf(url).Some? {
      HoldingServesTheClaim(t.store, EndPointOf(url), reply.pem, claim.value, MinuteOf(url).value, false);
    }
  }

  // The answer states a whole span, with the minute inside it.
  predicate StatesWhole(reply: Reply, minute: u32) {
    reply.Answer? && reply.start.Some? && reply.end.Some? && reply.start.value <= minute < reply.end.value
  }

  // Such an answer is served to callers that find the minute recent too.
  lemma WholeIsServedToAll(cfg: Config, t: State, c: nat, minute: u32)
    requires cfg.Allowed() && HonestInv(cfg, t) && Enabled(cfg, t, Settle(c)) && EndPointOf(t.callers[c].url) in t.creators
    requires MinuteOf(t.callers[c].url) == Some(minute) && StatesWhole(StageOf(t, c).reply, minute)
    ensures Lookup(AfterSettle(t, c), t.callers[c].url, true).Some?
  {
    hide KnownSpan, GoodSchedule, Holding;
    PendingClaim(cfg, t, c);
    var url := t.callers[c].url;
    var reply := StageOf(t, c).reply;
    HoldingServesTheClaim(t.store, EndPointOf(url), reply.pem, ReplyClaim(t.callers[c], reply, t.now).value, minute, true);
  }
}
