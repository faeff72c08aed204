// What the leader of a fetch and its waiters have in common: whether it has
// ended and how, and whom to wake then.
module Flights {
  import opened Wrappers
  import opened KeyCache

  datatype Failure = Http(message: string) | Key(message: string)
  type Outcome = Result<KeyAnswer, Failure>
  type Waker = nat

  // Finished without an outcome, its leader was cancelled.
  datatype Flight = Flight(finished: bool, outcome: Option<Outcome>, wakers: seq<Waker>)
  datatype Poll = Ready(outcome: Option<Outcome>) | Pending

  const NEW_FLIGHT := Flight(false, None, [])

  function Without(wakers: seq<Waker>, waker: Waker): (r: seq<Waker>)
    ensures forall w :: w in r <==> w in wakers && w != waker
  {
    if wakers == [] then []
    else (if wakers[0] == waker then [] else [wakers[0]]) + Without(wakers[1..], waker)
  }

  function Polled(flight: Flight, waker: Waker): (Flight, Poll) {
    if flight.finished then (flight, Ready(flight.outcome))
    else (flight.(wakers := Without(flight.wakers, waker) + [waker]), Pending)
  }

  function Ended(flight: Flight, outcome: Option<Outcome>): Flight {
    Flight(true, outcome, [])
  }

  // How often the waker stands in the list.
  function Count(wakers: seq<Waker>, waker: Waker): nat {
    if wakers == [] then 0 else (if wakers[0] == waker then 1 else 0) + Count(wakers[1..], waker)
  }

  lemma {:induction false} CountWithout(wakers: seq<Waker>, waker: Waker, other: Waker)
    ensures Count(Without(wakers, waker) + [waker], other)
         == if other == waker then 1 else Count(wakers, other)
  {
    if wakers == [] {
      assert [waker][1..] == [];
      assert Without(wakers, waker) + [waker] == [waker];
    } else {
      CountWithout(wakers[1..], waker, other);
      var rest := Without(wakers[1..], waker) + [waker];
      if wakers[0] != waker {
        assert (Without(wakers, waker) + [waker])[1..] == rest;
      } else {
        assert Without(wakers, waker) + [waker] == rest;
      }
    }
  }

  // However many times a caller is polled it leaves one entry, and it never
  // displaces another caller's.
  lemma PollingLeavesOneEntry(flight: Flight, waker: Waker, other: Waker)
    requires !flight.finished
    ensures Polled(flight, waker).1 == Pending
    ensures Count(Polled(flight, waker).0.wakers, waker) == 1
    ensures other != waker ==> Count(Polled(flight, waker).0.wakers, other) == Count(flight.wakers, other)
  {
    CountWithout(flight.wakers, waker, waker);
    CountWithout(flight.wakers, waker, other);
  }

  class InFlight {
    var finished: bool
    var outcome: Option<Outcome>
    var wakers: seq<Waker>

    function Value(): Flight
      reads this
    {
      Flight(finished, outcome, wakers)
    }

    constructor ()
      ensures Value() == NEW_FLIGHT
    {
      finished := false;
      outcome := None;
      wakers := [];
    }

    method PollFinished(waker: Waker) returns (poll: Poll)
      modifies this
      ensures (Value(), poll) == Polled(old(Value()), waker)
    {
      if finished {
        return Ready(outcome);
      }
      wakers := Without(wakers, waker);
      wakers := wakers + [waker];
      return Pending;
    }

    // Marks the fetch ended and takes the wakers, for the caller to wake
    // once the lock is released.
    method End(result: Option<Outcome>) returns (taken: seq<Waker>)
      modifies this
      ensures Value() == Ended(old(Value()), result)
      ensures taken == old(wakers)
    {
      finished := true;
      outcome := result;
      taken := wakers;
      wakers := [];
    }
  }
}
