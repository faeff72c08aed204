// What a creator with a schedule answers a request for its key with.
module Endpoint {
  import opened Wrappers
  import opened Numbers
  import opened Schedule
  import opened KeyAnswer

  // The path the end point of a version is served at.
  function PublicKeyPath(version: byte): string {
    "/owid/api/v" + Decimal(version) + "/public-key"
  }

  predicate ServesFormat(format: Option<string>) {
    format.None? || format.value == SPKI_FORMAT
  }

  // The body, checked before it is sent the way the client will check it.
  function AnswerBody(pem: string, from: Option<int>, to: Option<int>, asked: Option<int>,
                      readable: string -> bool, cal: Calendar): Result<string, Fault> {
    var answer := PublicKeyAnswer(SPKI_FORMAT, pem, from, to);
    var checked :- Validate(answer, asked, readable);
    Ok(Json(answer, cal))
  }

  // A body is made exactly where the answer is one that a client asking about
  // the moment takes, and says what it was made for.
  lemma BodyIsMadeExactlyWhere(pem: string, from: Option<int>, to: Option<int>, asked: Option<int>, readable: string -> bool, cal: Calendar)
    ensures var body := AnswerBody(pem, from, to, asked, readable, cal);
            && (body.Ok? <==>
                  && !Blank(pem) && readable(pem) && (to.Some? ==> from.Some? && from.value < to.value)
                  && (asked.Some? && from.Some? ==> from.value <= asked.value) && (asked.Some? && to.Some? ==> asked.value < to.value))
            && (body.Ok? ==> body.value == Json(PublicKeyAnswer("spki", pem, from, to), cal))
  {
    hide Json, Blank;
  }

  // The moment a request is about: its date, no later than now, and now
  // where it names none. Nothing where the date is not a count of minutes.
  function AskedMoment(date: Option<string>, now: int): Option<int> {
    if date.None? || date.value == "" then Some(now)
    else
      match ParseU32(date.value, 10)
      case Some(minutes) => Some(Min(minutes * NANOS_PER_MINUTE, now))
      case None => None
  }

  function ResponseAt(keys: seq<DatedKey>, format: Option<string>, date: Option<string>, now: int,
                      readable: string -> bool, cal: Calendar): Result<(nat, string), Fault> {
    if !ServesFormat(format) then Ok((400, ""))
    else
      match AskedMoment(date, now)
      case None => Ok((400, ""))
      case Some(asked) =>
        match InForce(keys, asked)
        case None => Ok((404, ""))
        case Some(key) =>
          var body :- AnswerBody(key.pem, Some(key.startsAt), NextStartAfter(keys, key), Some(asked), readable, cal);
          Ok((200, body))
  }

  // The moment a request is about: now, where it names none, and the minute
  // it names otherwise, but never a later moment than now.
  ghost predicate IsAbout(date: Option<string>, now: int, asked: int) {
    if date.None? || date.value == "" then asked == now
    else exists n: u32 :: IsCount(date.value, n) && asked == (if n * 60_000_000_000 < now then n * 60_000_000_000 else now)
  }

  lemma AskedIsAbout(date: Option<string>, now: int)
    ensures forall asked :: AskedMoment(date, now) == Some(asked) <==> IsAbout(date, now, asked)
  {
    hide ParseU32, IsCount;
    if date.Some? && date.value != "" {
      forall n: u32
        ensures ParseU32(date.value, 10) == Some(n) <==> IsCount(date.value, n)
      {
        CountIsRead(date.value, n);
      }
    }
  }

  // A request is refused exactly where it asks for another encoding or its
  // date is not a count. Nothing else is answered without a key but a moment
  // before every start, and only a key comes with a body.
  lemma ResponseStatus(keys: seq<DatedKey>, format: Option<string>, date: Option<string>, now: int,
                       readable: string -> bool, cal: Calendar)
    ensures var r := ResponseAt(keys, format, date, now, readable, cal);
            && (r == Ok((400, "")) <==> (format.Some? && format.value != "spki") || forall asked :: !IsAbout(date, now, asked))
            && (r == Ok((404, "")) <==>
                  && (format.None? || format.value == "spki")
                  && exists asked :: IsAbout(date, now, asked) && forall k :: k in keys ==> k.startsAt > asked)
            && (r.Ok? ==> r.value == (400, "") || r.value == (404, "") || r.value.0 == 200)
  {
    hide InForce, AnswerBody, AskedMoment, IsAbout;
    AskedIsAbout(date, now);
    var asked := AskedMoment(date, now);
    if asked.Some? {
      InForceNone(keys, asked.value);
      assert IsAbout(date, now, asked.value);
      assert (forall k :: k in keys ==> k.startsAt > asked.value) <==> forall j :: 0 <= j < |keys| ==> keys[j].startsAt > asked.value;
    }
  }

  // With a key comes the JSON of the first supplied of the keys that started
  // last, of its start and of the next start there is.
  lemma ResponseBody(keys: seq<DatedKey>, format: Option<string>, date: Option<string>, now: int, asked: int,
                     readable: string -> bool, cal: Calendar, body: string)
    requires IsAbout(date, now, asked) && ResponseAt(keys, format, date, now, readable, cal) == Ok((200, body))
    ensures exists i :: 0 <= i < |keys| && Chosen(keys, asked, i)
                        && body == Json(PublicKeyAnswer("spki", keys[i].pem, Some(keys[i].startsAt), NextStartAfter(keys, keys[i])), cal)
  {
    hide Json, IsAbout, AskedMoment, Chosen;
    AskedIsAbout(date, now);
    var i := InForceIsChosen(keys, asked);
  }

  predicate Usable(pem: string, readable: string -> bool) {
    !Blank(pem) && readable(pem)
  }

  // The end point fails its own check for one reason alone, that the key in
  // force cannot be read: the span it states is one every client accepts,
  // with the moment asked about inside it.
  lemma OwnCheckFailsOnlyOnTheKey(keys: seq<DatedKey>, format: Option<string>, date: Option<string>, now: int,
                                  readable: string -> bool, cal: Calendar)
    ensures ResponseAt(keys, format, date, now, readable, cal).Err? <==>
            && ServesFormat(format) && AskedMoment(date, now).Some?
            && InForce(keys, AskedMoment(date, now).value).Some?
            && !Usable(InForce(keys, AskedMoment(date, now).value).value.pem, readable)
  {
    if AskedMoment(date, now).Some? && InForce(keys, AskedMoment(date, now).value).Some? {
      SpansPartitionTime(keys, AskedMoment(date, now).value, AskedMoment(date, now).value);
      NextStartIsEarliest(keys, InForce(keys, AskedMoment(date, now).value).value);
    }
  }

  // Sorting the keys supplied changes no start that follows a key.
  lemma NextStartSorted(keys: seq<DatedKey>, key: DatedKey)
    ensures NextStartAfter(SortByStart(keys), key) == NextStartAfter(keys, key)
  {
    hide SortByStart, NextStartAfter, InForce, StartingAt, Sorted;
    SortKeepsTheChoice(keys, 0);
    NextStartIsEarliest(keys, key);
    NextStartIsEarliest(SortByStart(keys), key);
  }

  // So the end point answers from the keys as supplied, in any order.
  lemma ResponseIgnoresSupplyOrder(keys: seq<DatedKey>, format: Option<string>, date: Option<string>, now: int,
                                   readable: string -> bool, cal: Calendar)
    ensures ResponseAt(SortByStart(keys), format, date, now, readable, cal) == ResponseAt(keys, format, date, now, readable, cal)
  {
    hide AnswerBody, ServesFormat, NextStartAfter, InForce;
    var asked := AskedMoment(date, now);
    if asked.Some? {
      SortKeepsTheChoice(keys, asked.value);
      if InForce(keys, asked.value).Some? {
        NextStartSorted(keys, InForce(keys, asked.value).value);
      }
    }
  }
}
