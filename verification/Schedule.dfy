// Dated keys, which of them a moment belongs to, and from which moment to
// which a key is stated to run. The unit a moment is counted in does not
// matter here: the end point counts nanoseconds and the cache counts minutes.
module Schedule {
  import opened Wrappers

  datatype DatedKey = DatedKey(startsAt: int, pem: string)

  predicate Sorted(keys: seq<DatedKey>) {
    forall i, j :: 0 <= i < j < |keys| ==> keys[i].startsAt <= keys[j].startsAt
  }

  // The keys that share a start, in the order they are held.
  function StartingAt(keys: seq<DatedKey>, start: int): seq<DatedKey> {
    if keys == [] then []
    else (if keys[0].startsAt == start then [keys[0]] else []) + StartingAt(keys[1..], start)
  }

  function Insert(key: DatedKey, keys: seq<DatedKey>): seq<DatedKey> {
    if keys == [] || key.startsAt <= keys[0].startsAt then [key] + keys
    else [keys[0]] + Insert(key, keys[1..])
  }

  // The stable sort by start that a schedule applies to the keys supplied.
  function SortByStart(keys: seq<DatedKey>): seq<DatedKey> {
    if keys == [] then [] else Insert(keys[0], SortByStart(keys[1..]))
  }

  // The rule on the keys as supplied, in any order: the latest start at or
  // before the moment, and among the keys sharing it the one supplied first.
  function InForce(keys: seq<DatedKey>, at: int): Option<DatedKey> {
    if keys == [] then None
    else
      var rest := InForce(keys[1..], at);
      if keys[0].startsAt <= at && (rest.None? || rest.value.startsAt <= keys[0].startsAt)
      then Some(keys[0]) else rest
  }

  // Key number i is the one in force: it has started, no key supplied
  // before it starts as late and no key supplied after it starts later.
  ghost predicate Chosen(keys: seq<DatedKey>, at: int, i: nat)
    requires i < |keys|
  {
    && keys[i].startsAt <= at
    && (forall j :: 0 <= j < i && keys[j].startsAt <= at ==> keys[j].startsAt < keys[i].startsAt)
    && (forall j :: i < j < |keys| && keys[j].startsAt <= at ==> keys[j].startsAt <= keys[i].startsAt)
  }

  // The earliest start after the key's own.
  function NextStartAfter(keys: seq<DatedKey>, key: DatedKey): Option<int> {
    if keys == [] then None
    else
      var rest := NextStartAfter(keys[1..], key);
      if keys[0].startsAt > key.startsAt && (rest.None? || keys[0].startsAt <= rest.value)
      then Some(keys[0].startsAt) else rest
  }

  // Searches back from the end for the last key that has started, then steps
  // back over the keys that share its start.
  method KeyInForce(keys: seq<DatedKey>, at: int) returns (r: Option<DatedKey>)
    requires Sorted(keys)
    ensures r == InForce(keys, at)
  {
    var index := |keys|;
    while index > 0 && keys[index - 1].startsAt > at
      invariant 0 <= index <= |keys|
      invariant forall j :: index <= j < |keys| ==> keys[j].startsAt > at
    {
      index := index - 1;
    }
    if index == 0 {
      InForceNone(keys, at);
      return None;
    }
    index := index - 1;
    while index > 0 && keys[index - 1].startsAt == keys[index].startsAt
      invariant 0 <= index < |keys| && keys[index].startsAt <= at
      invariant forall j :: index < j < |keys| && keys[j].startsAt <= at ==> keys[j].startsAt <= keys[index].startsAt
    {
      index := index - 1;
    }
    ChosenIsInForce(keys, at, index);
    r := Some(keys[index]);
  }

  lemma {:induction false} InForceNone(keys: seq<DatedKey>, at: int)
    ensures InForce(keys, at).None? <==> forall j :: 0 <= j < |keys| ==> keys[j].startsAt > at
  {
    if keys != [] {
      InForceNone(keys[1..], at);
      assert forall j :: 0 < j < |keys| ==> keys[j] == keys[1..][j - 1];
      assert forall j :: 0 <= j < |keys| - 1 ==> keys[1..][j] == keys[j + 1];
    }
  }

  lemma {:induction false} ChosenIsInForce(keys: seq<DatedKey>, at: int, i: nat)
    requires i < |keys| && Chosen(keys, at, i)
    ensures InForce(keys, at) == Some(keys[i])
  {
    if i == 0 {
      if InForce(keys[1..], at).Some? {
        var j := InForceIsChosen(keys[1..], at);
        assert keys[1..][j] == keys[j + 1];
      }
    } else {
      assert Chosen(keys[1..], at, i - 1) by {
        assert forall j :: 0 <= j < |keys| - 1 ==> keys[1..][j] == keys[j + 1];
      }
      ChosenIsInForce(keys[1..], at, i - 1);
    }
  }

  // The rule answers with a key exactly when some key has started, and the
  // key it answers with is the first supplied of those with the latest start.
  lemma {:induction false} InForceIsChosen(keys: seq<DatedKey>, at: int) returns (i: nat)
    requires InForce(keys, at).Some?
    ensures i < |keys| && InForce(keys, at) == Some(keys[i]) && Chosen(keys, at, i)
  {
    var rest := InForce(keys[1..], at);
    assert forall j :: 0 < j < |keys| ==> keys[j] == keys[1..][j - 1];
    if rest.None? {
      InForceNone(keys[1..], at);
      i := 0;
    } else {
      var j := InForceIsChosen(keys[1..], at);
      i := if InForce(keys, at) == Some(keys[0]) && rest.value.startsAt <= keys[0].startsAt && keys[0].startsAt <= at then 0 else j + 1;
    }
  }

  lemma {:induction false} InsertSorted(key: DatedKey, keys: seq<DatedKey>)
    requires Sorted(keys)
    ensures Sorted(Insert(key, keys))
    ensures forall k :: k in Insert(key, keys) <==> k == key || k in keys
  {
    if keys != [] && key.startsAt > keys[0].startsAt {
      InsertSorted(key, keys[1..]);
      var rest := Insert(key, keys[1..]);
      assert keys == [keys[0]] + keys[1..];
      forall j | 0 <= j < |rest|
        ensures keys[0].startsAt <= rest[j].startsAt
      {
        assert rest[j] in rest;
      }
    }
  }

  lemma {:induction false} InsertKeepsTies(key: DatedKey, keys: seq<DatedKey>, start: int)
    ensures StartingAt(Insert(key, keys), start) == StartingAt([key] + keys, start)
  {
    assert ([key] + keys)[1..] == keys;
    if keys != [] && key.startsAt > keys[0].startsAt {
      InsertKeepsTies(key, keys[1..], start);
      var rest := Insert(key, keys[1..]);
      assert ([keys[0]] + rest)[1..] == rest && ([key] + keys[1..])[1..] == keys[1..];
    }
  }

  lemma {:induction false} InsertKeepsTheChoice(key: DatedKey, keys: seq<DatedKey>, at: int)
    ensures InForce(Insert(key, keys), at) == InForce([key] + keys, at)
  {
    assert ([key] + keys)[1..] == keys;
    if keys != [] && key.startsAt > keys[0].startsAt {
      InsertKeepsTheChoice(key, keys[1..], at);
      var rest := Insert(key, keys[1..]);
      assert ([keys[0]] + rest)[1..] == rest && ([key] + keys[1..])[1..] == keys[1..];
    }
  }

  // The sort keeps the supply order of keys that share a start, so it is the
  // stable sort, and the choice on the sorted keys is the choice on the keys
  // as supplied, whatever order they came in and whatever ties they hold.
  lemma {:induction false} SortKeepsTheChoice(keys: seq<DatedKey>, at: int)
    ensures Sorted(SortByStart(keys))
    ensures forall k :: k in SortByStart(keys) <==> k in keys
    ensures forall t :: StartingAt(SortByStart(keys), t) == StartingAt(keys, t)
    ensures InForce(SortByStart(keys), at) == InForce(keys, at)
  {
    if keys != [] {
      var rest := SortByStart(keys[1..]);
      SortKeepsTheChoice(keys[1..], at);
      InsertSorted(keys[0], rest);
      InsertKeepsTheChoice(keys[0], rest, at);
      assert ([keys[0]] + rest)[1..] == rest;
      forall start
        ensures StartingAt(SortByStart(keys), start) == StartingAt(keys, start)
      {
        InsertKeepsTies(keys[0], rest, start);
      }
      assert keys == [keys[0]] + keys[1..];
    }
  }

  ghost predicate IsEarliestAfter(keys: seq<DatedKey>, key: DatedKey, start: int) {
    && start > key.startsAt
    && (exists k :: k in keys && k.startsAt == start)
    && (forall k :: k in keys && k.startsAt > key.startsAt ==> start <= k.startsAt)
  }

  lemma {:induction false} NextStartIsEarliest(keys: seq<DatedKey>, key: DatedKey)
    ensures NextStartAfter(keys, key).None? <==> forall k :: k in keys ==> k.startsAt <= key.startsAt
    ensures NextStartAfter(keys, key).Some? ==> IsEarliestAfter(keys, key, NextStartAfter(keys, key).value)
  {
    if keys != [] {
      NextStartIsEarliest(keys[1..], key);
      assert keys == [keys[0]] + keys[1..];
      assert keys[0] in keys;
    }
  }

  // The span a key is stated for: from its start up to the next start.
  predicate InSpan(keys: seq<DatedKey>, key: DatedKey, at: int) {
    && key.startsAt <= at
    && (NextStartAfter(keys, key).None? || at < NextStartAfter(keys, key).value)
  }

  // Stated spans partition the time from the earliest start on: the key in
  // force at one moment is in force at another exactly when the other lies
  // in its span, so every moment lies in the span of one chosen key alone.
  lemma SpansPartitionTime(keys: seq<DatedKey>, at: int, other: int)
    requires InForce(keys, at).Some?
    ensures InForce(keys, at).value in keys
    ensures InSpan(keys, InForce(keys, at).value, at)
    ensures InForce(keys, other) == InForce(keys, at) <==> InSpan(keys, InForce(keys, at).value, other)
  {
    var i := InForceIsChosen(keys, at);
    var key := keys[i];
    NextStartIsEarliest(keys, key);
    forall k | k in keys && k.startsAt <= at
      ensures k.startsAt <= key.startsAt
    {
      var j :| 0 <= j < |keys| && keys[j] == k;
    }
    if InSpan(keys, key, other) {
      forall j | 0 <= j < |keys| && keys[j].startsAt <= other
        ensures keys[j].startsAt <= key.startsAt
      {
        assert keys[j] in keys;
      }
      ChosenIsInForce(keys, other, i);
    } else if InForce(keys, other).Some? {
      var j := InForceIsChosen(keys, other);
    }
  }

  // A key in force at two moments is in force at every moment between them.
  lemma InForceIsConvex(keys: seq<DatedKey>, from: int, at: int, to: int)
    requires from <= at <= to
    requires InForce(keys, from).Some? && InForce(keys, from) == InForce(keys, to)
    ensures InForce(keys, at) == InForce(keys, from)
  {
    SpansPartitionTime(keys, from, at);
    SpansPartitionTime(keys, from, to);
  }

  // A key appended with a start later than the moment changes nothing then.
  lemma {:induction false} AppendLater(keys: seq<DatedKey>, key: DatedKey, at: int)
    requires at < key.startsAt
    ensures InForce(keys + [key], at) == InForce(keys, at)
  {
    if keys == [] {
      assert [] + [key] == [key];
    } else {
      AppendLater(keys[1..], key, at);
      assert (keys + [key])[1..] == keys[1..] + [key];
    }
  }
}
