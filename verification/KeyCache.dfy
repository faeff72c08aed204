// What a verifier holds of each end point, keys with spans of minutes, which
// of them a lookup is served, and what recording an answer makes of them.
module KeyCache {
  import opened Wrappers
  import opened Numbers

  const MAXIMUM_CACHED_KEYS: nat := 1024
  const CLOCK_DRIFT_ALLOWANCE_MINUTES: u32 := 15

  datatype HeldKey = HeldKey(pem: string, first: u32, last: u32, explicit: bool, openEnded: bool) {
    predicate Covers(minute: u32) {
      first <= minute <= last
    }

    // Whether the spans share a minute.
    predicate Meets(from: u32, to: u32) {
      last >= from && first <= to
    }

    function Stated(): KeyAnswer {
      if explicit then KeyAnswer(pem, first, last, true)
      else if openEnded then KeyAnswer(pem, first, U32_MAX, true)
      else KeyAnswer(pem, 0, 0, false)
    }
  }

  datatype KeyAnswer = KeyAnswer(pem: string, first: u32, last: u32, known: bool) {
    predicate Covers(minute: u32) {
      known && first <= minute <= last
    }
  }

  // The key with the span a creator's answer states for it.
  function Statement(pem: string, start: Option<u32>, end: Option<u32>): KeyAnswer {
    if start.None? then KeyAnswer(pem, 0, 0, false)
    else if end.Some? && end.value > start.value then KeyAnswer(pem, start.value, end.value - 1, true)
    else KeyAnswer(pem, start.value, U32_MAX, true)
  }

  predicate NearEdge(minute: u32, edge: u32) {
    (if minute < edge then edge - minute else minute - edge) <= CLOCK_DRIFT_ALLOWANCE_MINUTES
  }

  predicate Recent(minute: u32, now: u32) {
    minute > SaturatingSub(now, CLOCK_DRIFT_ALLOWANCE_MINUTES)
  }

  type Keys = map<string, seq<HeldKey>>
  datatype Store = Store(keys: Keys, held: nat)

  const EMPTY := Store(map[], 0)

  function ListAt(keys: Keys, endPoint: string): seq<HeldKey> {
    if endPoint in keys then keys[endPoint] else []
  }

  // The first key of the list that may be served for the minute.
  function FindKey(list: seq<HeldKey>, minute: u32, recent: bool): Option<HeldKey> {
    if list == [] then None
    else if list[0].Covers(minute) && (list[0].explicit || !recent) then Some(list[0])
    else FindKey(list[1..], minute, recent)
  }

  function HeldFor(keys: Keys, endPoint: string, minute: u32, recent: bool): Option<KeyAnswer> {
    match FindKey(ListAt(keys, endPoint), minute, recent)
    case Some(key) => Some(key.Stated())
    case None => None
  }

  // The position of the key in the list, or its length where it is not held.
  function Position(list: seq<HeldKey>, pem: string): (i: nat)
    ensures i <= |list|
    ensures i < |list| ==> list[i].pem == pem
    ensures forall j :: 0 <= j < i ==> list[j].pem != pem
  {
    if list == [] || list[0].pem == pem then 0
    else
      var i := Position(list[1..], pem);
      assert forall j :: 0 < j < i + 1 ==> list[j] == list[1..][j - 1];
      1 + i
  }

  // What an answer lets a verifier hold the key for.
  datatype Claim = Claim(first: u32, last: u32, explicit: bool, openEnded: bool)

  function ClaimOf(minute: Option<u32>, recent: bool, start: Option<u32>, end: Option<u32>, now: u32): Option<Claim> {
    if start.Some? && end.Some? && end.value > start.value then Some(Claim(start.value, end.value - 1, true, false))
    else if start.Some? then
      Some(Claim(start.value, Max(start.value, SaturatingSub(now, CLOCK_DRIFT_ALLOWANCE_MINUTES)), false, true))
    else if minute.Some? && !recent then Some(Claim(minute.value, minute.value, false, false))
    else None
  }

  // Whether the list holds another key within the span.
  predicate AnotherMeets(list: seq<HeldKey>, index: nat, first: u32, last: u32) {
    exists i :: 0 <= i < |list| && i != index && list[i].Meets(first, last)
  }

  function Hull(key: HeldKey, claim: Claim): HeldKey {
    var explicit := key.explicit || claim.explicit;
    HeldKey(key.pem, Min(claim.first, key.first), Max(claim.last, key.last),
            explicit, !explicit && (key.openEnded || claim.openEnded))
  }

  function NewKey(pem: string, claim: Claim): HeldKey {
    HeldKey(pem, claim.first, claim.last, claim.explicit, claim.openEnded)
  }

  // Whether holding the claim is refused, because the creator has answered
  // with another key for a minute it takes in.
  predicate Refused(list: seq<HeldKey>, pem: string, claim: Claim) {
    var index := Position(list, pem);
    if index < |list| then AnotherMeets(list, index, Hull(list[index], claim).first, Hull(list[index], claim).last)
    else AnotherMeets(list, index, claim.first, claim.last)
  }

  // Whether holding the claim empties the cache first.
  predicate Evicts(store: Store, endPoint: string, pem: string, claim: Claim) {
    var list := ListAt(store.keys, endPoint);
    Position(list, pem) == |list| && !Refused(list, pem, claim) && store.held >= MAXIMUM_CACHED_KEYS
  }

  function Holding(store: Store, endPoint: string, pem: string, claim: Option<Claim>): Store {
    if claim.None? then store
    else
      var list := ListAt(store.keys, endPoint);
      var index := Position(list, pem);
      if Refused(list, pem, claim.value) then store
      else if index < |list| then
        store.(keys := store.keys[endPoint := list[index := Hull(list[index], claim.value)]])
      else
        var kept := if store.held >= MAXIMUM_CACHED_KEYS then EMPTY else store;
        Store(kept.keys[endPoint := ListAt(kept.keys, endPoint) + [NewKey(pem, claim.value)]], kept.held + 1)
  }

  // ---- What an answer says, and what is held of it ------------------------

  // The minutes an answer states its key for: from the start, and up to the
  // end where that comes after it. Without a start it states none.
  lemma StatesExactly(pem: string, start: Option<u32>, end: Option<u32>, m: u32)
    ensures var answer := Statement(pem, start, end);
            && answer.pem == pem && (answer.known <==> start.Some?)
            && (answer.Covers(m) <==>
                  start.Some? && start.value <= m && (end.Some? && end.value > start.value ==> m < end.value))
  {
  }

  // The minutes it lets the key be held for: all it states, where it states
  // an end, up to 15 minutes ago where it states none, and the one asked
  // about, unless that was recent, where it states nothing.
  lemma ClaimsExactly(minute: Option<u32>, recent: bool, start: Option<u32>, end: Option<u32>, now: u32, m: u32)
    ensures var claim := ClaimOf(minute, recent, start, end, now);
            && (claim.Some? <==> start.Some? || (minute.Some? && !recent))
            && (claim.Some? ==>
                  && (claim.value.explicit <==> start.Some? && end.Some? && end.value > start.value)
                  && (claim.value.openEnded <==> start.Some? && !claim.value.explicit)
                  && (claim.value.first <= m <= claim.value.last <==>
                        if start.None? then m == minute.value
                        else if claim.value.explicit then start.value <= m < end.value
                        else m == start.value || (start.value < m && m + 15 <= now)))
  {
  }

  // A minute is recent from 15 minutes ago on, but for the first there is.
  lemma RecentExactly(minute: u32, now: u32)
    ensures Recent(minute, now) <==> minute > 0 && minute + 15 > now
  {
  }

  // The cache takes 1024 keys, and forgets them all for another.
  lemma ForgetsAt1024(store: Store, endPoint: string, pem: string, claim: Claim)
    requires ListAt(store.keys, endPoint) == []
    ensures store.held < 1024 ==> Holding(store, endPoint, pem, Some(claim)) ==
                                  Store(store.keys[endPoint := [NewKey(pem, claim)]], store.held + 1)
    ensures store.held >= 1024 ==> Holding(store, endPoint, pem, Some(claim)) == Store(map[endPoint := [NewKey(pem, claim)]], 1)
  {
    assert [] + [NewKey(pem, claim)] == [NewKey(pem, claim)];
  }

  // ---- What every answer keeps -------------------------------------------

  predicate GoodKey(key: HeldKey) {
    key.first <= key.last && !(key.explicit && key.openEnded)
  }

  // Spans well formed, pairwise disjoint and of distinct keys.
  ghost predicate GoodList(list: seq<HeldKey>) {
    && (forall i :: 0 <= i < |list| ==> GoodKey(list[i]))
    && (forall i, j :: 0 <= i < |list| && 0 <= j < |list| && i != j ==>
          list[i].pem != list[j].pem && !list[i].Meets(list[j].first, list[j].last))
  }

  ghost function Pick(keys: Keys): string
    requires keys != map[]
    ensures Pick(keys) in keys
  {
    NotEmpty(keys);
    var k :| k in keys;
    k
  }

  lemma NotEmpty(keys: Keys)
    requires keys != map[]
    ensures exists k :: k in keys
  {
    assert keys.Keys != {};
  }

  ghost function Total(keys: Keys): nat
    decreases |keys|
  {
    if keys == map[] then 0
    else
      var k := Pick(keys);
      |keys[k]| + Total(keys - {k})
  }

  lemma {:induction false} TotalSplit(keys: Keys, endPoint: string)
    requires endPoint in keys
    ensures Total(keys) == |keys[endPoint]| + Total(keys - {endPoint})
    decreases |keys|
  {
    var k := Pick(keys);
    if k != endPoint {
      TotalSplit(keys - {k}, endPoint);
      assert keys - {k} - {endPoint} == keys - {endPoint} - {k};
      TotalSplit(keys - {endPoint}, k);
    }
  }

  lemma TotalReplace(keys: Keys, endPoint: string, list: seq<HeldKey>)
    ensures Total(keys[endPoint := list]) == Total(keys) - |ListAt(keys, endPoint)| + |list|
  {
    var changed := keys[endPoint := list];
    TotalSplit(changed, endPoint);
    assert changed - {endPoint} == keys - {endPoint};
    if endPoint in keys {
      TotalSplit(keys, endPoint);
    } else {
      assert keys - {endPoint} == keys;
    }
  }

  ghost predicate WellFormed(store: Store) {
    && (forall e :: e in store.keys ==> GoodList(store.keys[e]))
    && store.held == Total(store.keys)
    && store.held <= MAXIMUM_CACHED_KEYS
  }

  lemma ClaimIsGood(minute: Option<u32>, recent: bool, pem: string, start: Option<u32>, end: Option<u32>, now: u32)
    ensures var claim := ClaimOf(minute, recent, start, end, now);
            claim.Some? ==> GoodKey(NewKey(pem, claim.value))
  {
  }

  lemma HoldingKeepsLists(list: seq<HeldKey>, pem: string, claim: Claim)
    requires GoodList(list) && GoodKey(NewKey(pem, claim)) && !Refused(list, pem, claim)
    ensures var i := Position(list, pem);
            GoodList(if i < |list| then list[i := Hull(list[i], claim)] else list + [NewKey(pem, claim)])
  {
  }

  // Whatever a creator answers, spans stay well formed and disjoint, keys
  // distinct, and the count held exact and within the bound.
  lemma HoldingKeepsWellFormed(store: Store, endPoint: string, minute: Option<u32>, recent: bool,
                               pem: string, start: Option<u32>, end: Option<u32>, now: u32)
    requires WellFormed(store)
    ensures WellFormed(Holding(store, endPoint, pem, ClaimOf(minute, recent, start, end, now)))
  {
    var claim := ClaimOf(minute, recent, start, end, now);
    ClaimIsGood(minute, recent, pem, start, end, now);
    if claim.Some? {
      HoldingClaimKeepsWellFormed(store, endPoint, pem, claim.value);
    }
  }

  lemma HoldingClaimKeepsWellFormed(store: Store, endPoint: string, pem: string, claim: Claim)
    requires WellFormed(store) && GoodKey(NewKey(pem, claim))
    ensures WellFormed(Holding(store, endPoint, pem, Some(claim)))
  {
    var list := ListAt(store.keys, endPoint);
    if !Refused(list, pem, claim) {
      var index := Position(list, pem);
      HoldingKeepsLists(list, pem, claim);
      if index < |list| {
        TotalReplace(store.keys, endPoint, list[index := Hull(list[index], claim)]);
      } else if store.held < MAXIMUM_CACHED_KEYS {
        TotalReplace(store.keys, endPoint, list + [NewKey(pem, claim)]);
      } else {
        HoldingKeepsLists([], pem, claim);
        assert [] + [NewKey(pem, claim)] == [NewKey(pem, claim)];
        assert Total(map[]) == 0;
        TotalReplace(map[], endPoint, [NewKey(pem, claim)]);
      }
    }
  }

  // ---- Looking keys up ---------------------------------------------------

  lemma {:induction false} FindKeyFinds(list: seq<HeldKey>, minute: u32, recent: bool)
    ensures var r := FindKey(list, minute, recent);
            r.Some? ==> r.value in list && r.value.Covers(minute) && (r.value.explicit || !recent)
    ensures FindKey(list, minute, recent).None? ==>
              forall key :: key in list ==> !(key.Covers(minute) && (key.explicit || !recent))
  {
    if list != [] {
      FindKeyFinds(list[1..], minute, recent);
      assert list == [list[0]] + list[1..];
    }
  }

  lemma RecentIsServedToAll(keys: Keys, endPoint: string, minute: u32, recent: bool)
    requires HeldFor(keys, endPoint, minute, true).Some?
    ensures HeldFor(keys, endPoint, minute, recent).Some?
  {
    FindKeyFinds(ListAt(keys, endPoint), minute, true);
    FindKeyFinds(ListAt(keys, endPoint), minute, recent);
  }

  // Where the spans are disjoint the key served is the one that covers the
  // minute, wherever in the list it stands.
  lemma FindKeyIs(list: seq<HeldKey>, minute: u32, recent: bool, i: nat)
    requires GoodList(list) && i < |list| && list[i].Covers(minute) && (list[i].explicit || !recent)
    ensures FindKey(list, minute, recent) == Some(list[i])
  {
    FindKeyFinds(list, minute, recent);
    assert list[i] in list;
    var key := FindKey(list, minute, recent).value;
    var j :| 0 <= j < |list| && list[j] == key;
    assert j == i || !list[i].Meets(list[j].first, list[j].last);
  }

  // Without an eviction, no answer takes away a minute that was being served
  // or gives it to another key, and a span once stated stays stated.
  lemma HoldingKeepsServing(store: Store, endPoint: string, pem: string, claim: Option<Claim>, at: string, minute: u32, recent: bool)
    requires WellFormed(store) && (claim.Some? ==> GoodKey(NewKey(pem, claim.value)))
    requires claim.Some? ==> !Evicts(store, endPoint, pem, claim.value)
    requires HeldFor(store.keys, at, minute, recent).Some?
    ensures var now := HeldFor(Holding(store, endPoint, pem, claim).keys, at, minute, recent);
            var was := HeldFor(store.keys, at, minute, recent).value;
            && now.Some? && now.value.pem == was.pem
            && (was.known ==> now.value.known)
  {
    var list := ListAt(store.keys, at);
    FindKeyFinds(list, minute, recent);
    if claim.Some? && at == endPoint && !Refused(list, pem, claim.value) {
      HoldingKeepsLists(list, pem, claim.value);
      var i :| 0 <= i < |list| && list[i] == FindKey(list, minute, recent).value;
      var after := Holding(store, endPoint, pem, claim).keys[at];
      assert after[i] == list[i] || (i == Position(list, pem) && after[i] == Hull(list[i], claim.value));
      FindKeyIs(after, minute, recent, i);
    }
  }

  // A claim that is not refused is served for every minute it takes in, and
  // a whole span that is stated for recent ones too.
  lemma HoldingServesTheClaim(store: Store, endPoint: string, pem: string, claim: Claim, minute: u32, recent: bool)
    requires WellFormed(store) && GoodKey(NewKey(pem, claim))
    requires !Refused(ListAt(store.keys, endPoint), pem, claim)
    requires claim.first <= minute <= claim.last && (claim.explicit || !recent)
    ensures var served := HeldFor(Holding(store, endPoint, pem, Some(claim)).keys, endPoint, minute, recent);
            served.Some? && served.value.pem == pem
  {
    HoldingClaimKeepsWellFormed(store, endPoint, pem, claim);
    var list := ListAt(store.keys, endPoint);
    var after := Holding(store, endPoint, pem, Some(claim)).keys[endPoint];
    var index := Position(list, pem);
    FindKeyIs(after, minute, recent, if index < |list| then index else |after| - 1);
  }
}
