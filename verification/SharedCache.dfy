// The cache every verification in the process shares. Each method is one
// region of the source that runs under the cache's lock.
module SharedCache {
  import opened Wrappers
  import opened Numbers
  import opened KeyCache
  import opened Flights

  datatype Turn = Served(answer: KeyAnswer) | Lead(led: InFlight) | Wait(on: InFlight)

  class Cache {
    var keys: Keys
    var held: nat
    var inFlight: map<string, InFlight>

    function Value(): Store
      reads this
    {
      Store(keys, held)
    }

    constructor ()
      ensures Value() == EMPTY && inFlight == map[]
    {
      keys := map[];
      held := 0;
      inFlight := map[];
    }

    // Serves the minute from a held key, joins the fetch under way for the
    // URL, or starts one, all under one lock.
    method TakeTurn(url: string, endPoint: string, minute: Option<u32>, recent: bool) returns (turn: Turn)
      modifies this`inFlight
      ensures var served := if minute.Some? then HeldFor(keys, endPoint, minute.value, recent) else None;
              if served.Some? then turn == Served(served.value) && inFlight == old(inFlight)
              else if url in old(inFlight) then turn == Wait(old(inFlight)[url]) && inFlight == old(inFlight)
              else turn.Lead? && fresh(turn.led) && turn.led.Value() == NEW_FLIGHT
                   && inFlight == old(inFlight)[url := turn.led]
    {
      if minute.Some? {
        var served := HeldFor(keys, endPoint, minute.value, recent);
        if served.Some? {
          return Served(served.value);
        }
      }
      if url in inFlight {
        return Wait(inFlight[url]);
      }
      var flight := new InFlight();
      inFlight := inFlight[url := flight];
      return Lead(flight);
    }

    // The key at the index gets the hull of its span and the claimed one,
    // where no other key meets that.
    method Widen(endPoint: string, index: nat, first: u32, last: u32) returns (widened: bool)
      requires endPoint in keys && index < |keys[endPoint]|
      modifies this`keys
      ensures var was := old(keys[endPoint]);
              var from, to := Min(first, was[index].first), Max(last, was[index].last);
              && widened == !AnotherMeets(was, index, from, to)
              && keys == if widened then old(keys)[endPoint := was[index := was[index].(first := from, last := to)]] else old(keys)
    {
      var list := keys[endPoint];
      var from, to := Min(first, list[index].first), Max(last, list[index].last);
      if AnotherMeets(list, index, from, to) {
        return false;
      }
      list := list[index := list[index].(first := from)];
      list := list[index := list[index].(last := to)];
      assert list == keys[endPoint][index := keys[endPoint][index].(first := from, last := to)];
      keys := keys[endPoint := list];
      return true;
    }

    // Records a creator's answer.
    method Hold(endPoint: string, minute: Option<u32>, recent: bool, pem: string,
                start: Option<u32>, end: Option<u32>, now: u32) returns (stated: KeyAnswer)
      modifies this`keys, this`held
      ensures Value() == Holding(old(Value()), endPoint, pem, ClaimOf(minute, recent, start, end, now))
      ensures stated == Statement(pem, start, end)
      ensures old(WellFormed(Value())) ==> WellFormed(Value())
    {
      hide WellFormed, Statement, Position;
      HoldingKeepsWellFormedIf(Value(), endPoint, minute, recent, pem, start, end, now);
      stated := Statement(pem, start, end);
      var claim := ClaimOf(minute, recent, start, end, now);
      if claim.None? {
        return;
      }
      var Claim(first, last, explicit, openEnded) := claim.value;
      ghost var was, list := Value(), ListAt(keys, endPoint);
      if endPoint in keys {
        var index := Position(keys[endPoint], pem);
        if index < |keys[endPoint]| {
          var widened := Widen(endPoint, index, first, last);
          if widened {
            var key := keys[endPoint][index];
            key := key.(explicit := key.explicit || explicit);
            key := key.(openEnded := !key.explicit && (key.openEnded || openEnded));
            keys := keys[endPoint := keys[endPoint][index := key]];
            assert keys[endPoint] == list[index := Hull(list[index], claim.value)];
            assert keys == was.keys[endPoint := keys[endPoint]];
          }
          return;
        }
        if AnotherMeets(keys[endPoint], index, first, last) {
          return;
        }
      }
      if held >= MAXIMUM_CACHED_KEYS {
        keys := map[];
        held := 0;
      }
      keys := keys[endPoint := ListAt(keys, endPoint) + [HeldKey(pem, first, last, explicit, openEnded)]];
      held := held + 1;
    }

    // Empties the cache. A fetch under way is forgotten, not stopped.
    method Clear()
      modifies this
      ensures Value() == EMPTY && inFlight == map[]
      ensures WellFormed(Value())
    {
      keys := map[];
      held := 0;
      inFlight := map[];
    }

    method Forget(url: string)
      modifies this`inFlight
      ensures inFlight == old(inFlight) - {url}
    {
      inFlight := inFlight - {url};
    }
  }

  lemma HoldingKeepsWellFormedIf(store: Store, endPoint: string, minute: Option<u32>, recent: bool,
                                 pem: string, start: Option<u32>, end: Option<u32>, now: u32)
    ensures WellFormed(store) ==> WellFormed(Holding(store, endPoint, pem, ClaimOf(minute, recent, start, end, now)))
  {
    if WellFormed(store) {
      HoldingKeepsWellFormed(store, endPoint, minute, recent, pem, start, end, now);
    }
  }

  // Ends a leader's turn however it ended: the entry for its URL is removed,
  // the outcome published, and every caller that was waiting is to be woken.
  method DropLeader(cache: Cache, url: string, flight: InFlight, outcome: Option<Outcome>) returns (woken: seq<Waker>)
    modifies cache`inFlight, flight
    ensures cache.inFlight == old(cache.inFlight) - {url}
    ensures flight.Value() == Ended(old(flight.Value()), outcome)
    ensures woken == old(flight.wakers)
  {
    cache.Forget(url);
    woken := flight.End(outcome);
  }
}
