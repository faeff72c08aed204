// The client's reading of an end point's answer, and the journey of an
// answer from a creator's schedule to the cache: printed, sent, read,
// checked and cut to minutes.
module Fetch {
  import opened Wrappers
  import opened Numbers
  import opened Schedule
  import opened KeyAnswer
  import opened Endpoint
  import opened Flights
  import opened Protocol

  // The whole minutes from the base date, cut toward zero, where the count
  // is an unsigned 32 bit value.
  function MinutesSinceBase(moment: int): Option<u32> {
    AsMinutes(Whole(moment, NANOS_PER_MINUTE))
  }

  // It is the number of whole minutes of 60 seconds gone by, and none has for
  // a moment less than a minute before the base date.
  lemma MinutesAreCutTowardZero(moment: int, n: u32)
    ensures MinutesSinceBase(moment) == Some(n) <==>
            (if n == 0 then -60_000_000_000 < moment else n * 60_000_000_000 <= moment) && moment < (n + 1) * 60_000_000_000
  {
  }

  function Counted(moment: Option<int>): Option<u32> {
    if moment.None? then None else MinutesSinceBase(moment.value)
  }

  // What the client makes of a response. Only a 200 is a key, and a
  // redirect is never followed.
  function ReadResponse(status: nat, body: string, readable: string -> bool, cal: Calendar): Reply {
    if 300 <= status < 400 then Failed(Http("the public key end point answered a redirect"))
    else if status != 200 then Failed(Http("the public key end point answered without a key"))
    else
      match Parse(body, cal)
      case Err(_) => Failed(Key("the public key answer cannot be read"))
      case Ok(answer) =>
        match Validate(answer, None, readable)
        case Err(_) => Failed(Key("the public key answer is not valid"))
        case Ok(_) => Answer(answer.publicKey, Counted(answer.validFrom), Counted(answer.validTo))
  }

  // A span that is stated has a start, and it starts before it ends.
  predicate SpanIsSound(from: Option<int>, to: Option<int>) {
    to.Some? ==> from.Some? && from.value < to.value
  }

  // The client takes a key from a 200 alone, with a body that reads as a
  // usable key over a sound span, and the span never runs backwards once cut
  // to minutes. Whatever else it is answered is a failure, of the key where
  // the status was 200 and of the request where it was not.
  lemma AcceptedAnswersAreSound(status: nat, body: string, readable: string -> bool, cal: Calendar)
    ensures var reply := ReadResponse(status, body, readable, cal);
            && (reply.Answer? <==>
                  && status == 200 && Parse(body, cal).Ok?
                  && var answer := Parse(body, cal).value;
                     answer.format == SPKI_FORMAT && Usable(answer.publicKey, readable) && SpanIsSound(answer.validFrom, answer.validTo))
            && (reply.Answer? && reply.start.Some? && reply.end.Some? ==> reply.start.value <= reply.end.value)
            && (reply.Failed? ==> (reply.failure.Key? <==> status == 200))
  {
    hide Parse, Blank;
    var answer := Parse(body, cal);
    if answer.Ok? && answer.value.validFrom.Some? && answer.value.validTo.Some? && answer.value.validFrom.value < answer.value.validTo.value {
      CountingKeepsOrder(answer.value.validFrom.value, answer.value.validTo.value);
    }
  }

  lemma CountingKeepsOrder(a: int, b: int)
    requires a <= b
    ensures Whole(a, NANOS_PER_MINUTE) <= Whole(b, NANOS_PER_MINUTE)
  {
  }

  // ---- A schedule counted in minutes -------------------------------------

  predicate WholeMinutes(keys: seq<DatedKey>) {
    forall k :: k in keys ==> k.startsAt % NANOS_PER_MINUTE == 0
  }

  function InMinutes(keys: seq<DatedKey>): seq<DatedKey> {
    if keys == [] then [] else [KeyInMinutes(keys[0])] + InMinutes(keys[1..])
  }

  function KeyInMinutes(key: DatedKey): DatedKey {
    DatedKey(key.startsAt / NANOS_PER_MINUTE, key.pem)
  }

  lemma {:induction false} InForceInMinutes(keys: seq<DatedKey>, at: int)
    requires WholeMinutes(keys)
    ensures var inForce := InForce(keys, at);
            InForce(InMinutes(keys), at / NANOS_PER_MINUTE) == if inForce.None? then None else Some(KeyInMinutes(inForce.value))
    ensures InForce(keys, at).Some? ==> InForce(keys, at).value in keys
  {
    if keys != [] {
      InForceInMinutes(keys[1..], at);
      assert InMinutes(keys)[1..] == InMinutes(keys[1..]);
      assert keys[0] in keys && forall k :: k in keys[1..] ==> k in keys;
    }
  }

  lemma {:induction false} NextStartInMinutes(keys: seq<DatedKey>, key: DatedKey)
    requires WholeMinutes(keys) && key.startsAt % NANOS_PER_MINUTE == 0
    ensures var next := NextStartAfter(keys, key);
            && NextStartAfter(InMinutes(keys), KeyInMinutes(key)) == (if next.None? then None else Some(next.value / NANOS_PER_MINUTE))
            && (next.Some? ==> next.value % NANOS_PER_MINUTE == 0)
  {
    if keys != [] {
      NextStartInMinutes(keys[1..], key);
      assert InMinutes(keys)[1..] == InMinutes(keys[1..]);
      assert keys[0] in keys && forall k :: k in keys[1..] ==> k in keys;
    }
  }

  lemma WholeMinuteCount(moment: int)
    requires moment % NANOS_PER_MINUTE == 0
    ensures MinutesSinceBase(moment) == AsMinutes(moment / NANOS_PER_MINUTE)
    ensures WholeSecond(Some(moment))
  {
    assert moment == moment / NANOS_PER_MINUTE * 60 * NANOS_PER_SECOND;
  }

  // A start cut to minutes says which minutes the key has started by exactly
  // when it is a whole minute. A start part way through a minute is stated
  // as covering a minute at which the key had not started.
  lemma StatedStartIsExactForWholeMinutes(start: int)
    requires 0 <= start && MinutesSinceBase(start).Some?
    ensures (forall m: u32 :: MinutesSinceBase(start).value <= m <==> start <= m * NANOS_PER_MINUTE)
       <==> start % NANOS_PER_MINUTE == 0
  {
    var minute := MinutesSinceBase(start).value;
    if start % NANOS_PER_MINUTE != 0 {
      assert minute <= minute && !(start <= minute * NANOS_PER_MINUTE);
    }
  }

  // ---- From the schedule to the cache ------------------------------------

  // What the client reads from the body an end point sends for a key.
  lemma BodyIsReadBack(pem: string, from: int, to: Option<int>, asked: int, readable: string -> bool, cal: Calendar)
    requires AnswerBody(pem, Some(from), to, Some(asked), readable, cal).Ok?
    requires ReadsBack(cal, Some(from)) && ReadsBack(cal, to)
    requires from % NANOS_PER_MINUTE == 0 && (to.Some? ==> to.value % NANOS_PER_MINUTE == 0)
    ensures var body := AnswerBody(pem, Some(from), to, Some(asked), readable, cal).value;
            ReadResponse(200, body, readable, cal) == Answer(pem, MinutesSinceBase(from), Counted(to))
  {
    hide Json, Parse, MinutesSinceBase;
    var answer := PublicKeyAnswer(SPKI_FORMAT, pem, Some(from), to);
    WholeMinuteCount(from);
    if to.Some? {
      WholeMinuteCount(to.value);
    }
    JsonRoundTrip(answer, cal);
  }

  // What the client makes of the response about a moment.
  function ReceivedAbout(keys: seq<DatedKey>, asked: int, readable: string -> bool, cal: Calendar): Reply {
    match InForce(keys, asked)
    case None => ReadResponse(404, "", readable, cal)
    case Some(key) =>
      var body := AnswerBody(key.pem, Some(key.startsAt), NextStartAfter(keys, key), Some(asked), readable, cal);
      if body.Ok? then ReadResponse(200, body.value, readable, cal) else Failed(Http(""))
  }

  lemma ResponseAboutAMoment(keys: seq<DatedKey>, format: Option<string>, date: Option<string>, now: int, asked: int,
                             readable: string -> bool, cal: Calendar)
    requires ServesFormat(format) && AskedMoment(date, now) == Some(asked)
    requires forall k :: k in keys ==> Usable(k.pem, readable)
    requires InForce(keys, asked).Some? ==> InForce(keys, asked).value in keys
    ensures var response := ResponseAt(SortByStart(keys), format, date, now, readable, cal);
            response.Ok? && ReadResponse(response.value.0, response.value.1, readable, cal) == ReceivedAbout(keys, asked, readable, cal)
  {
    hide AnswerBody, ReadResponse, InForce, NextStartAfter, Usable, SortByStart, AskedMoment, ServesFormat;
    ResponseIgnoresSupplyOrder(keys, format, date, now, readable, cal);
    OwnCheckFailsOnlyOnTheKey(keys, format, date, now, readable, cal);
  }

  lemma ReceivedIsStated(keys: seq<DatedKey>, asked: int, readable: string -> bool, cal: Calendar)
    requires WholeMinutes(keys) && InForce(keys, asked).Some?
    requires forall k :: k in keys ==> Usable(k.pem, readable) && ReadsBack(cal, Some(k.startsAt))
    ensures ReceivedAbout(keys, asked, readable, cal) == StatedReply(InMinutes(keys), KeyInMinutes(InForce(keys, asked).value))
  {
    hide Validate, Parse, Json, InForce, NextStartAfter, MinutesSinceBase, AnswerBody, ReadResponse, Usable, InMinutes;
    var key := InForce(keys, asked).value;
    var next := NextStartAfter(keys, key);
    InForceInMinutes(keys, asked);
    NextStartInMinutes(keys, key);
    NextStartIsEarliest(keys, key);
    if next.Some? {
      WholeMinuteCount(next.value);
    }
    WholeMinuteCount(key.startsAt);
    BodyPasses(keys, asked, readable, cal);
    BodyIsReadBack(key.pem, key.startsAt, next, asked, readable, cal);
  }

  lemma BodyPasses(keys: seq<DatedKey>, asked: int, readable: string -> bool, cal: Calendar)
    requires InForce(keys, asked).Some? && Usable(InForce(keys, asked).value.pem, readable)
    ensures var key := InForce(keys, asked).value;
            AnswerBody(key.pem, Some(key.startsAt), NextStartAfter(keys, key), Some(asked), readable, cal).Ok?
  {
    hide Json, Blank;
    SpansPartitionTime(keys, asked, asked);
    NextStartIsEarliest(keys, InForce(keys, asked).value);
  }

  // What a request that names the minute, or none, gives as its date: nothing
  // or an empty text for none.
  predicate Names(date: Option<string>, minute: Option<u32>) {
    if minute.None? then date.None? || date == Some("") else date == Some(Decimal(minute.value))
  }

  // The whole journey. What the client takes from the response of an end
  // point, for a schedule of whole minutes supplied in any order, is the
  // honest answer the cache is proved against: the key in force at the
  // minute asked about, or at the creator's own minute where that is earlier
  // or none is named, with the span its schedule gives.
  lemma EndPointAnswersHonestly(keys: seq<DatedKey>, format: Option<string>, date: Option<string>, minute: Option<u32>, now: int,
                                readable: string -> bool, cal: Calendar)
    requires WholeMinutes(keys) && (format.None? || format == Some("spki")) && Names(date, minute)
    requires forall k :: k in keys ==> Usable(k.pem, readable) && ReadsBack(cal, Some(k.startsAt))
    ensures var creator := Creator(InMinutes(keys), now / NANOS_PER_MINUTE, true);
            var response := ResponseAt(SortByStart(keys), format, date, now, readable, cal);
            && response.Ok?
            && var reply := ReadResponse(response.value.0, response.value.1, readable, cal);
               && HonestReply(creator, minute, reply)
               && (reply.Failed? <==> InForce(creator.keys, AskedMinute(creator, minute)).None?)
  {
    hide AnswerBody, InForce, NextStartAfter, Decimal, ReadsBack, ResponseAt, ReceivedAbout, Usable, InMinutes, KeyInMinutes, ReadResponse, SortByStart;
    var asked := if minute.Some? then Min(minute.value * NANOS_PER_MINUTE, now) else now;
    DateIsRead(date, minute, now);
    if minute.Some? {
      AskedInMinutes(minute.value, now);
    }
    InForceInMinutes(keys, asked);
    ResponseAboutAMoment(keys, format, date, now, asked, readable, cal);
    if InForce(keys, asked).Some? {
      ReceivedIsStated(keys, asked, readable, cal);
    } else {
      NothingIsReceived(keys, asked, readable, cal);
    }
  }

  lemma NothingIsReceived(keys: seq<DatedKey>, asked: int, readable: string -> bool, cal: Calendar)
    requires InForce(keys, asked).None?
    ensures ReceivedAbout(keys, asked, readable, cal).Failed?
  {
  }

  lemma DateIsRead(date: Option<string>, minute: Option<u32>, now: int)
    requires Names(date, minute)
    ensures AskedMoment(date, now) == Some(if minute.Some? then Min(minute.value * NANOS_PER_MINUTE, now) else now)
  {
    if minute.Some? {
      DecimalRoundTrip(minute.value);
      DecimalValue(minute.value);
    }
  }

  lemma AskedInMinutes(minute: u32, now: int)
    ensures Min(minute * NANOS_PER_MINUTE, now) / NANOS_PER_MINUTE == Min(minute, now / NANOS_PER_MINUTE)
  {
  }
}
