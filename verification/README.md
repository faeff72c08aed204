# A verified model of the OWID library

An OWID is a signed identifier. A verifier checks its signature with a public
key that it fetches from the creator named in the identifier, and creators
rotate their keys. This project models, in Dafny, how the Rust library decides
which key to use and how it reads and writes what it sends, and proves what
that is for:

- **The key cache and the fetches callers share** (`src/fetch.rs`).
  `KeyCache.dfy` holds the cache's values and what one answer does to them,
  `SharedCache.dfy` and `Flights.dfy` the objects that are updated in place,
  and `Protocol.dfy` the state machine: callers, leaders, waiters, wakers,
  cancellation, clears, clocks and creators, one step for each region the
  source runs under a lock. `FlightSafety.dfy`, `CacheRuns.dfy`,
  `CacheHonesty.dfy`, `Answers.dfy` and `Outcomes.dfy` prove what every run keeps.
  `CacheLimits.dfy`, `FlightLimits.dfy` and `VerifyLimits.dfy` show with runs
  where it ends.
- **The simple thing the cache must agree with**, a creator's schedule and its
  end point (`Schedule.dfy`, `Endpoint.dfy`), the JSON between them
  (`KeyAnswer.dfy`) held to its grammar (`Grammar.dfy`), the request an OWID is
  checked with (`KeyUrl.dfy`, `Requests.dfy`), and the journey of an answer from
  the schedule to the cache (`Fetch.dfy`).
- **The check of a signature near the edge of a key's period** (`Verify.dfy`).
- **The binary envelope** (`Envelope.dfy`, `EnvelopeFacts.dfy`), its bytes by
  position (`Layout.dfy`), and when it is worth waiting for more of one
  (`Waiting.dfy`).

`dafny verify dfyconfig.toml` checks all of it.

## How the world is modelled

- A moment is a number of nanoseconds since 2020-01-01T00:00:00Z. The cache
  counts whole minutes as unsigned 32 bit values, and the clock the source
  reads is a parameter or part of the state. The verifier's clock does not go
  backwards, and neither do the creators'.
- The verifier's clock counts from the base date to the last minute there is,
  as the source's does, which reads a clock it cannot count as the last one.
- A creator is honest where it answers from its schedule for the minute asked
  about or for its own minute where that is earlier. The keys and the starts
  of a schedule are distinct, and a start is any minute at all, before the
  base date included. Its clock starts no earlier than the base date and is
  within `skew` of the verifier's. It may always state spans, or leave a span
  out of any answer.
- Where keys are added during the run (`grows`), each starts after the
  creator's own minute and after every other start, and time does not pass
  beyond `latency` minutes of an honest answer that is still to be recorded.
  `Allowed()` is the allowance of 15 minutes on the sum. End points that
  belong to no honest creator answer anything at all, at any time, in the same
  runs.
- The calendar library is a pair of functions, `show` and `read`. Where a
  lemma needs a moment to be read back as it was printed, it says so.
- Whether a text is a usable key, whether bytes are UTF-8, and whether a
  signature verifies under a key are functions given as parameters.
- Whatever an outcome does not depend on is left free: a check of a
  verification is a function of the key alone, and the fetches a verification
  makes may be answered in any way at all unless a lemma says otherwise.

## What the model shows about the code

- The documentation of `minutes_since_base` says that a date before the base
  date cannot be counted. The code cuts toward zero, so a date less than one
  unit before the base date is counted as the base date, and is written as
  such (`EnvelopeFacts.DatesThatAreWritten`).
- A creator that always states its spans can still have a genuine OWID read as
  a forgery. A start before the base date cannot be counted, so the client
  reads no start, takes the span as not stated, and tries no neighbour where
  the signature fails. With a fixed schedule, at any end point and for any
  skew, some run does so exactly where the key in force at the base date
  started before it and another key follows
  (`VerifyLimits.ForgeriesAreReadExactlyWhereTheScheduleBeganEarly`).
- A key answered without an end is taken to have none for as long as it is
  held, though the creator adds another. A signer with the key added is then
  missed, however near the edge, by callers that come later and ask about a
  minute the creator is past (`VerifyLimits.AddedKeyIsMissed`), and an OWID of
  a minute that was still to come reads as a forgery
  (`VerifyLimits.AddedKeyReadsAsAForgery`). For every honest creator, call by
  call, a genuine OWID reads as a forgery exactly where the key answered with
  fails and has no span stated, or has one without an end that takes in the
  minute although a key in force at it has been added since, and no neighbour
  verifies (`Verify.NoGenuineOwidReadsAsAForgery`). A signer that reaches the
  minute is missed exactly where the span answered with is not stated, or has
  no end and the signer's key has been added since
  (`Verify.EdgeToleranceIsExact`, `Verify.EdgeIsMissedWhere`).
- After `clear_cache`, a leader from before the clear removes the entry for
  its URL, which may belong to a newer fetch. In every state a run can reach,
  a clear can let two requests for a URL be outstanding at once exactly where
  a caller leads a fetch for it and has yet to remove its entry
  (`FlightLimits.ClearIsHarmlessExactlyWhereIdle`). With no such clear they
  never are (`FlightSafety.SingleFlight`).
- A start that is not a whole minute is cut to its minute by the client, and
  the span it then believes takes in a minute at which the key had not
  started, exactly in that case (`Fetch.StatedStartIsExactForWholeMinutes`).
- The 15 minute allowance is tight. With a clock further out, or with a clock
  and a delay that together come to more, there is a run in which the cache
  serves the wrong key (`CacheLimits.SlowClockMisleads`,
  `CacheLimits.SlowAnswerMisleads`).
- A key URL gives its end point and minute back exactly where the end point
  holds no question mark (`KeyUrl.KeyUrlRoundTrip`).
- The framed read tells data that stopped early from data that is wrong, so
  that a caller can wait for more bytes. Every frame that more bytes can
  complete is answered so, but so is the beginning of a domain that no bytes
  can make valid, because its encoding is looked at once its terminator is
  there (`Waiting.WorthWaitingFor`, `Waiting.SomeWaitInVain`).
- The documentation of `parse` says that anything but an object of four fields
  is refused. The code takes any flat object, the empty one too
  (`KeyAnswer.EmptyObjectIsRead`), uses the first field of each name, and
  refuses one that can be read exactly where one of the two moments is a text
  that is not one (`KeyAnswer.AnyObjectIsRead`). What is missing is for the
  check that follows to refuse (`Fetch.AcceptedAnswersAreSound`).

## Model

| member | source | states |
|---|---|---|
| CacheHonesty.CacheRefinesSchedule | src/fetch.rs:296-402 | in every state of every run, with any mix of stated, open and silent answers, failures, evictions, clears and dishonest other creators, and with keys added meanwhile, a key served for a minute of an honest creator is the one its schedule has in force then |
| CacheHonesty.StepKeepsHonesty | src/fetch.rs:629-682 | every step keeps that what is held and what is about to be held is what the schedule says and will go on saying |
| CacheHonesty.ClaimIsKnown | src/fetch.rs:309-339 | the span recorded for an honest answer, however late within the latency, is one the creator vouched for, and takes in the minute asked about where that was not recent |
| CacheHonesty.KnownIsNotRefused | src/fetch.rs:343-362 | no claim the schedule supports is refused by the widening or the overlap check |
| CacheHonesty.HonestAnswersNeverConflict | src/fetch.rs:343-402 | in every run an honest answer is never refused, and once recorded the non-recent minute asked about is found |
| CacheHonesty.KnownAfterAppend | src/fetch.rs:309-339 | what is known of a minute stays true when the creator adds a later key |
| CacheLimits.SlowClockMisleads | src/fetch.rs:140-153 | for every fixed skew beyond 15 minutes a run serves a key the schedule did not have in force |
| CacheLimits.SlowAnswerMisleads | src/fetch.rs:140-153 | with keys added, for every skew and latency that together pass 15 minutes a run serves the wrong key |
| KeyCache.HoldingKeepsWellFormed | src/fetch.rs:319-376 | whatever is answered, spans stay well formed and disjoint, keys distinct, `explicit` and `open_ended` never both set, `held` exact and at most 1024 |
| KeyCache.HoldingKeepsServing | src/fetch.rs:319-402 | without an eviction no answer takes away a minute being served or gives it to another key, and a span once stated stays stated |
| KeyCache.HoldingServesTheClaim | src/fetch.rs:340-376 | an answer that is not refused is served for every minute it claims, and one that states the whole span for recent minutes too |
| KeyCache.FindKeyIs | src/fetch.rs:296-302 | with disjoint spans the key served is the one covering the minute, wherever it stands in the list |
| KeyCache.FindKeyFinds | src/fetch.rs:296-302 | a key found covers the minute, explicitly where it is recent, and none is found only where none does |
| KeyCache.StatesExactly | src/fetch.rs:217-226 | an answer states its key from the start on, up to the end where that comes after it, whatever the creator, and nothing without a start |
| KeyCache.ClaimsExactly | src/fetch.rs:328-342 | and lets it be held for just those minutes where it states an end, up to 15 minutes ago where it states none, and for the minute asked about, unless recent, where it states nothing |
| KeyCache.RecentExactly | src/fetch.rs:423-426 | a minute is recent where it is less than 15 minutes ago or to come, the first minute excepted |
| KeyCache.ForgetsAt1024 | src/fetch.rs:363-375 | up to 1024 keys one more is added, and from then on it is the only one left |
| SharedCache.Cache.Hold | src/fetch.rs:319-376 | the whole new state of the cache and the statement returned, as the value-level rule gives them, and that well-formedness is kept |
| SharedCache.Cache.Widen | src/fetch.rs:389-402 | widens exactly where no other key meets the wider span, and otherwise changes nothing |
| SharedCache.Cache.TakeTurn | src/fetch.rs:637-652 | under one lock: served from the cache, or waiting on the flight entered for the URL, or leading a new one that is entered |
| SharedCache.Cache.Clear | src/fetch.rs:452-457 | keys, count and entries are all emptied, which is a well-formed cache |
| SharedCache.DropLeader | src/fetch.rs:518-531 | however a leader ends, the entry for its URL goes, the outcome is published and the wakers taken |
| Flights.InFlight.PollFinished | src/fetch.rs:497-507 | ready with the outcome once finished, and otherwise pending with the waker left behind |
| Flights.InFlight.End | src/fetch.rs:521-526 | the flight is finished with the outcome and its wakers are handed over |
| Flights.PollingLeavesOneEntry | src/fetch.rs:502-504 | however often a caller polls it leaves one entry and displaces no other caller's |
| FlightSafety.NoLostWakeUp | src/fetch.rs:497-531 | in every run, clears and cancellations included, a pending waiter's waker is with its unfinished flight, whose leader is live, and after the end it has been woken or its leader still has it to wake |
| FlightSafety.FetchesCanEnd | src/fetch.rs:518-531 | from every reachable state each fetch can be ended by its leader's steps alone, with every waiter that left a waker woken |
| FlightSafety.SingleFlight | src/fetch.rs:637-680 | in every run whose clears come while no fetch for the URL is under way, at most one is under way at a time, from its start while it is asked and its answer travels until it removes its entry, and the entry is that fetch's own |
| FlightSafety.EntryHasALeader | src/fetch.rs:643-652 | in every run an entry belongs to the one live leader of an unfinished fetch for that URL |
| FlightSafety.RoundsAreBounded | src/fetch.rs:654-660 | a caller goes round the loop at most once for each leader of its own URL dropped part way through |
| Outcomes.FailuresAreHeard | src/fetch.rs:653-679 | in every run a caller that is told a failure is told, kind and message, one that a fetch for its own URL was answered with, whoever made it |
| Outcomes.OutcomesAreHeard | src/fetch.rs:665-679 | in every run a fetch that ended with an outcome ended with the failure or the statement of an answer that a fetch for its URL was given |
| Outcomes.OnlyTheCancelledGo | src/fetch.rs:509-531 | in every run a cancelled caller is never answered, one that was not never goes without, and a fetch ends without an outcome only where its leader was cancelled |
| Outcomes.WakingDisturbsNobodyElse | src/fetch.rs:527-529 | waking a waker marks the callers that left it as woken, and changes nothing else of any other caller |
| Outcomes.ServedExactlyWhereHeld | src/fetch.rs:637-642 | a caller is answered from the cache exactly where a key held covers its minute, stated by the creator where the minute is recent, before any fetch under way is looked at, and is told what is stated of that key |
| FlightSafety.StepKeepsFlights | src/fetch.rs:629-682 | every step keeps the invariant the flight results rest on, and keeps the leaders for a URL entered, a clear where none is under way |
| FlightSafety.WakeKeepsFlights | src/fetch.rs:527-529 | waking one waker at a time, with other callers' steps between, forgets no waiter |
| FlightLimits.ClearLetsTwoFetchAtOnce | src/fetch.rs:518-520 | from every state with a fetch for a URL under way, whatever the URL and the stage, a clear and no other lets two requests for it be outstanding, where need be by way of OWIDs of other domains answered with any key, a usable one among them |
| FlightLimits.ClearIsHarmlessExactlyWhereIdle | src/fetch.rs:452-457 | in every reachable state a clear lets no two fetches for a URL be under way exactly where none is |
| CacheRuns.AskedAtMostOnce | src/fetch.rs:629-682 | with an honest creator and no clear, eviction, failure or cancellation, callers finding a URL's minute non-recent make one request between them over the whole run, and where its answers state a whole span that holds the minute, all callers do |
| CacheRuns.AnsweredMinuteKeepsHitting | src/fetch.rs:343-402 | after an honest answer every later lookup of the non-recent minute gives the key in force then, until a clear or an eviction |
| CacheRuns.ServedStaysServed | src/fetch.rs:319-402 | whatever is answered, a minute once served is served by the same key along every run without a clear or an eviction |
| CacheRuns.StoreIsAlwaysWellFormed | src/fetch.rs:276-376 | the cache's invariant holds in every state of every run, whoever answers what |
| Answers.StatedReplyIsExact | src/fetch.rs:217-226 | the span read from an honest stated answer is exactly the set of minutes the key is in force by the schedule as it stands, and no span is read exactly where the key's start cannot be counted |
| Answers.EveryAnswerIsExact | src/fetch.rs:629-682 | in every run every caller answered with an honest creator's key is told exactly the minutes the key is in force by the schedule as it stood at some time of the run, which with a fixed one is the schedule, or no span, for a creator that always states them exactly where the start cannot be counted; from cache, waiting or fetching alike, with clocks within the allowance, or beyond it with a fixed stating creator |
| Answers.HullStaysTold | src/fetch.rs:343-350 | a held span widened by an answer from before or after a key was added still states what was told |
| Answers.PastMinutesAreAnswered | src/fetch.rs:629-682 | and where the creator did not answer for the minute before it came, the key is the one in force at the URL's minute, and there is none where none was, keys added meanwhile or not, with clocks within the allowance, or beyond it with a fixed stating creator that replaces no uncounted first key |
| Verify.NeighbourVerifies | src/fetch.rs:776-806 | true exactly where the key for a minute just beyond a near edge is another key that verifies |
| Verify.VerifyAtUrl | src/fetch.rs:736-757 | the decision: verified, beside a period that verifies, not in force, failed or not matching |
| Verify.AcceptedExactlyWhereAKeyVerifies | src/fetch.rs:736-806 | for every URL, minute, check and answers, an OWID is accepted exactly where the key answered with verifies it, or fails and another key, answered for the minute just beyond a stated edge within 15 minutes, the earlier edge first, verifies it |
| Verify.RefusedExactlyWhereTheKeyFails | src/fetch.rs:736-757 | it is answered as not matching exactly where that key fails, no such other verifies, and the creator has not put the minute outside the key's span, or there is no minute to count |
| Verify.UnansweredExactlyWhere | src/fetch.rs:741-756 | it is not answered exactly where the key could not be fetched or not be checked, with that failure, or where the creator puts the minute outside its span and nothing verifies |
| Verify.NoGenuineOwidReadsAsAForgery | src/fetch.rs:736-757 | in every run, whatever the clocks and other fetches do, given an honest creator with clocks within the allowance, or a fixed stating one, an OWID that verifies under the key in force at its minute is answered false exactly where the key answered with fails and either has no span stated, for a stating creator one with no start to count, or has an open one that takes in the minute though the key in force was added since, and no neighbour verifies; so with a fixed stating creator never, for a URL that names a minute, unless the schedule began before the base date and rotates after it |
| VerifyLimits.ForgeriesAreReadExactlyWhereTheScheduleBeganEarly | src/fetch.rs:736-757 | for every fixed schedule, every end point and every skew, some run of a stating creator reads a genuine OWID as a forgery exactly where the key in force at the base date started before it and another follows |
| VerifyLimits.RotationMisleads | src/fetch.rs:605-613 | the run, for every such schedule and end point |
| VerifyLimits.AddedKeyIsMissed | src/fetch.rs:189-191 | with keys added, under every skew and latency, a caller that comes after a key was added and asks about a minute of the creator's past is answered from the cache with the key before it and no end, and the signer within 15 minutes is answered false |
| VerifyLimits.AddedKeyReadsAsAForgery | src/fetch.rs:222-224 | with keys added, under every skew and latency, an OWID signed with the key in force at its minute is answered false where that key was added after the answer |
| Verify.EdgeToleranceIsExact | src/fetch.rs:736-806 | for every honest creator, with each signature verifying under its signer's key alone and the minutes asked about answered from the schedule, the answer is true exactly where the signer's period contains the minute or is adjacent and within 15 of the edge, and is not missed, and an error where no key was in force |
| Verify.EdgeIsMissedWhere | src/fetch.rs:786-795 | a signer is missed exactly where the answer states no span, for a stating creator where the key started before the base date, or states no end and the earlier edge does not lead to it, and then the signer's key has been added since |
| Verify.EdgeToleranceIsExactInRuns | src/fetch.rs:736-806 | the same of every verification whose fetches are callers of a run, sharing and caching with all others, keys added meanwhile or not and spans left out or not, where the transport fails none that has a key and no minute asked about was in the creator's future when it was answered, with creators and clocks as for `PastMinutesAreAnswered` |
| Verify.FetchesAreAnswered | src/fetch.rs:629-682 | in every run a fetch for a minute not in the creator's future is answered from the schedule exactly where the transport does not fail one that has a key, with creators and clocks as for `PastMinutesAreAnswered` |
| Verify.DriftWithinTheAllowanceIsAccepted | src/fetch.rs:254-256 | with periods of at least 15 minutes, a signer in force at any minute within 15 of the OWID's reaches it, exactly but where that was before the base date and the minute's own key started later, at the base date at the latest |
| KeyUrl.KeyUrlRoundTrip | src/fetch.rs:406-418 | the end point comes back exactly where it holds no question mark, and then the minute does |
| KeyUrl.PublicKeyUrlNamesTheMinute | src/fetch.rs:553-573 | the URL built for an OWID names its end point and its minute |
| Requests.RequestSays | src/fetch.rs:553-573 | the request goes to the domain under the scheme, to the path a creator serves the version at, and its query names the encoding a creator serves and the minute, or none, where neither scheme nor domain holds a question mark |
| Requests.PathSays | src/endpoints.rs:39-41 | the path in full, the version in plain decimal digits |
| Requests.RequestsDiffer | src/fetch.rs:553-573 | two requests have one URL exactly where scheme, domain, version and minute are the same, for schemes without a colon and domains without a slash |
| Requests.RequestsAreAnsweredHonestly | src/endpoints.rs:118-146 | what a creator with a schedule of whole minutes answers the request for any OWID with, from the parameters of its URL, is honest about the minute the URL names |
| Numbers.CountIsRead | src/fetch.rs:411-418 | a text is read as a count exactly where it is digits worth it, one plus allowed in front |
| Numbers.DecimalIsTheOne | src/fetch.rs:571-573 | a number is printed as the one text of digits worth it that has no zero in front |
| Schedule.KeyInForce | src/schedule.rs:76-82 | the backward search and the step back over ties find the key the rule gives |
| Schedule.InForceIsChosen | src/schedule.rs:68-82 | the key in force is the first supplied among those with the latest start at or before the moment |
| Schedule.ChosenIsInForce | src/schedule.rs:68-82 | and it is the only such key |
| Schedule.SortKeepsTheChoice | src/schedule.rs:59-66 | sorting keeps the keys and the supply order of ties, so the choice does not depend on it |
| Schedule.NextStartIsEarliest | src/schedule.rs:84-93 | the next start is the earliest of the later starts, and missing exactly where there is none |
| Schedule.SpansPartitionTime | src/schedule.rs:76-93 | a key is in force at a moment exactly where the moment lies in its stated span, so the spans partition time from the earliest start |
| Endpoint.OwnCheckFailsOnlyOnTheKey | src/endpoints.rs:118-146 | the response fails its own check exactly where the key in force is blank or unreadable |
| Endpoint.ResponseIgnoresSupplyOrder | src/endpoints.rs:118-146 | the response is the same for the keys sorted and as supplied, ties included |
| Endpoint.ResponseStatus | src/endpoints.rs:118-146 | 400 exactly where the format is neither missing nor `spki` or the date neither missing nor empty nor a count, 404 exactly where every key starts after the moment asked about, which is now where no date is given, and no body but with a key |
| Endpoint.ResponseBody | src/endpoints.rs:134-145 | with 200 comes the JSON of the first supplied of the keys with the latest start by that moment, its start and the next start |
| Endpoint.BodyIsMadeExactlyWhere | src/endpoints.rs:86-95 | a body is made exactly where the key is usable, an end comes with a start before it and the moment asked about lies within, and is the JSON of what it was made for |
| Fetch.EndPointAnswersHonestly | src/fetch.rs:587-614 | for a schedule of whole minutes in any order, what the client reads from the response body is the honest stated answer for the minute asked about, or for now where the date is missing or empty, and a failure exactly where no key was in force |
| Fetch.AcceptedAnswersAreSound | src/fetch.rs:587-614 | a key is taken exactly from a 200 whose body reads as a usable key over a sound span, which does not run backwards in minutes, and each failure is of the kind its status gives |
| Fetch.BodyIsReadBack | src/fetch.rs:587-614 | a body the end point sends is read, accepted and cut to the same key and minutes |
| Fetch.StatedStartIsExactForWholeMinutes | src/io.rs:60-62 | a start cut to minutes tells which minutes the key has started by exactly where it is a whole minute |
| Fetch.MinutesAreCutTowardZero | src/io.rs:60-62 | a moment is counted as the whole minutes of 60 seconds since the base date, and as none from less than a minute before it |
| KeyAnswer.Text.WriteString | src/key_answer.rs:189-203 | appends the quoted and escaped text |
| KeyAnswer.ToJson | src/key_answer.rs:130-141 | the printer gives the object of the four fields, through the same text the round trip is proved of |
| KeyAnswer.ReadStringFrom | src/key_answer.rs:269-305 | the index-walking loop reads a string, or refuses it, as the recursive reader does, and never indexes past the end |
| KeyAnswer.ReadFlatObjectFrom | src/key_answer.rs:214-260 | the same of the object reader |
| KeyAnswer.ReadStringUndoesWriteString | src/key_answer.rs:189-305 | a written string reads back in front of any following text, quotes, backslashes and control characters included |
| KeyAnswer.NoControlIsWritten | src/key_answer.rs:189-203 | no control character is left in a written string, as section 7 of RFC 8259 requires |
| KeyAnswer.ObjectRoundTrip | src/key_answer.rs:214-260 | any printed list of fields reads back as that list |
| KeyAnswer.AnyObjectIsRead | src/key_answer.rs:143-180 | of any printed object the answer is read from the first field of each name, and refused exactly where one of the moments is a text that is not one |
| KeyAnswer.EmptyObjectIsRead | src/key_answer.rs:143-166 | the empty object is read, with every field at its default |
| KeyAnswer.ValidExactlyWhere | src/key_answer.rs:83-126 | an answer passes exactly where it is in `spki`, its key is not blank and can be read, an end comes with a start before it, and the moment asked about lies within what it states |
| Grammar.StringIsReadWhereSpelled | src/key_answer.rs:269-305 | a string is read exactly where a quoted spelling of it stands, each character as itself, by its two character escape, `\/`, `\b` and `\f` included, or by `\u` and four hexadecimal digits in either case |
| Grammar.WrittenIsSpelled | src/key_answer.rs:189-203 | the printer writes one of the spellings of the text |
| Grammar.WrittenAs | src/key_answer.rs:189-203 | which spelling it writes: the mark for quote, backslash, line feed, carriage return and tab, the code in four lower case digits for the other control characters, and the character itself for the rest |
| Grammar.ObjectIsReadWhereSpelled | src/key_answer.rs:214-260 | a text is read as a list of fields exactly where it is an object of them, strings or `null`, with any white space between its parts |
| Grammar.AnswerIsReadWhereSpelled | src/key_answer.rs:152-180 | an answer is read from every text that spells an object and no other, from the first field of each name, and refused exactly where a moment is a text that is not one |
| Grammar.FirstCounts | src/key_answer.rs:154-159 | of fields with one name the first is the one that counts, and a name that is not there has no value |
| Grammar.JsonSpaceIsSpace | src/key_answer.rs:262-267 | the four white space characters of JSON are passed over, and no visible ASCII character is |
| KeyAnswer.JsonRoundTrip | src/key_answer.rs:130-180 | what is read is what was printed with moments cut to the second, so the same answer exactly where its moments are whole seconds |
| KeyAnswer.SkipSpaceSkips | src/key_answer.rs:262-267 | a run of white space of any length is passed over whole |
| Envelope.ParseOneFrom | src/parse.rs:198-309 | the index-walking reader gives the field-by-field result, every refusal included |
| EnvelopeFacts.DomainRead | src/parse.rs:318-347 | a domain that was read is valid text of at most 253 bytes without a zero, and the bytes read are it and its terminator |
| EnvelopeFacts.DomainWritten | src/parse.rs:318-347 | every such domain with its terminator is read as itself in front of anything |
| Envelope.Buffer.WriteDomain | src/io.rs:83-93 | the fault, and the bytes appended where there is none |
| Envelope.Buffer.WriteDate | src/io.rs:118-138 | the fault, and the bytes appended where there is none |
| Envelope.Buffer.WriteByteArray | src/io.rs:95-106 | the fault, and the length and bytes appended where there is none |
| Envelope.Buffer.ToBufferNoSignature | src/owid.rs:350-355 | appends what the signature covers, or fails with the first fault and takes back nothing written before |
| Envelope.Buffer.ToBuffer | src/owid.rs:326-329 | appends the frame, or fails the same way |
| Envelope.Buffer.EmptyToBuffer | src/owid.rs:342-344 | appends the marker and nothing else |
| Envelope.AsByteArrayOf | src/owid.rs:302-310 | the bytes of the OWID, or the first fault in the order the code looks |
| Envelope.SignedBytesOf | src/owid.rs:359-367 | the bytes the signature covers, or the first fault |
| EnvelopeFacts.AcceptedBuffersAreReproduced | src/parse.rs:170-174 | every accepted buffer is reproduced byte for byte by writing what was read |
| EnvelopeFacts.SerializedOwidsReadBack | src/owid.rs:302-310 | every written OWID reads back with its date cut to the minute, or the hour in version 1 |
| EnvelopeFacts.WritesItsLength | src/owid.rs:370-403 | the bytes written are exactly as many as `encoded_len` says, with the signature and without |
| EnvelopeFacts.WrittenFrameIsRead | src/parse.rs:182-194 | a frame or a marker in front of any bytes is read as itself, with those bytes left |
| EnvelopeFacts.ReadFrameWasWritten | src/parse.rs:182-194 | a frame that was read is the bytes its contents are written as, followed by the remainder |
| EnvelopeFacts.MoreBytesChangeNothingRead | src/parse.rs:182-194 | a frame read stays read under every extension, the extra bytes going to the remainder |
| EnvelopeFacts.MoreBytesChangeNoRefusal | src/parse.rs:318-347 | a refused version or domain encoding stays the answer under every extension |
| EnvelopeFacts.PartOfAFrameStopsEarly | src/parse.rs:258-269 | every non-empty proper prefix of an accepted frame is `UnexpectedEnd` |
| EnvelopeFacts.MissingBytesAreCounted | src/parse.rs:258-269 | the counts of an unfinished payload say exactly how many bytes are missing, and any that many complete the frame |
| Waiting.WorthWaitingFor | src/parse.rs:246-269 | of the buffers not read, more bytes can complete exactly those answered `UnexpectedEnd` whose domain is read or is the beginning of a valid one |
| Waiting.SomeWaitInVain | src/parse.rs:318-347 | a domain's beginning that no bytes make valid is answered `UnexpectedEnd` all the same |
| EnvelopeFacts.DatesThatAreWritten | src/io.rs:118-138 | the dates that are written, for each version, and that those less than a unit before the base are written as it |
| Layout.WrittenAsLaidOut | src/owid.rs:326-355 | every byte written, by position: the version's number, the domain and its zero, the minute the OWID's key URL asks about in four bytes least first, or in version 1 its hour, 60 of those minutes, in two greatest first, the payload's count and bytes, and 64 of signature |
| Layout.ReadAsLaidOut | src/parse.rs:198-309 | every envelope read was laid out so, and is dated exactly the minute its bytes say |
| Layout.WritingStopsAt | src/io.rs:83-138 | what cannot be written, the dates of each version in minutes and hours included, and which fault is found first |
| Layout.MeasuringStopsAt | src/owid.rs:302-403 | the faults the length is refused for before any field is written |
| Layout.FirstByteRefused | src/parse.rs:198-221 | nothing, the marker, and a version that is not one, each refused as such |
| Layout.DomainRefused | src/parse.rs:318-347 | a domain without an end within the bytes there are, or within the 253 there may be, or that is not text, each refused as such |
| Layout.RestRefused | src/parse.rs:226-269 | a date or a length cut short, and a count the bytes do not bear out, refused by each reader as such and with the two counts, and everything else read |
| EnvelopeFacts.ReadRunFrom | src/parse.rs:182-194 | reading frame after frame gives the whole run or the first refusal |
| EnvelopeFacts.RunsReadBack | src/owid.rs:326-344 | any run of frames and markers reads back as that run, dates cut, with nothing left over |
| EnvelopeFacts.RunsAreReproduced | src/parse.rs:182-194 | every buffer that reads as a run is that run written out, so a run has one reading and one writing |
| EnvelopeFacts.ReadersAgree | src/parse.rs:170-194 | the two readers agree but for the marker, trailing bytes and a payload past the end, each characterised exactly |
| EnvelopeFacts.SignedBytesAreInjective | src/owid.rs:350-367 | two OWIDs have the same signed bytes exactly where version, domain, counted date and payload are the same |
| EnvelopeFacts.TheTripKeepsTheSignedBytes | src/owid.rs:350-367 | writing and reading back leaves the signed bytes, so any check of the signature answers the same |

## Left out

- The signature scheme, key formats and key generation: library code, a function of the key here.
- HTTP transports and their failures: a fetch is an answer or a failure, any of either.
- `key_at_url` as one asynchronous method: it is the steps of the state machine, and a caller can be dropped only where the source waits.
- The identity of a flight object: the state machine numbers the flights, while `SharedCache` and `Flights` hold them as objects.
- The hash map's own workings and the sort: a map, and an insertion sort proved stable.
- The base 64 form, the display of payloads, ages, status names and configuration: no hard property.
- Chrono's calendar and UTF-8 decoding: parameters, with the domain held as its bytes.
- The text of error messages, and errors the source tells apart only by it.
- Capacity failures, and the checks of them: allocation is taken to succeed.
- `MalformedEnvelope` from the reader: the source marks it unreachable, and `Envelope.ParseOneFrom` shows that it is.
- Poisoned locks and panics: no step of the model panics.
- `public_key_response` for a creator with one key: its answer states no span and takes no date.
- CacheRuns.AskedAtMostOnce: counts callers that find the minute recent only where the answers state a whole span that holds it, since without one such a minute is asked for again by design.
- Answers.PastMinutesAreAnswered: with clocks beyond the allowance it covers a fixed creator that always states its spans and replaces no uncounted first key, and no other, since spans not stated are then held for minutes they may not cover, and open ones past keys added since (`CacheLimits.SlowClockMisleads`, `CacheLimits.SlowAnswerMisleads`).
- Verify.FetchesAreAnswered: rests on `Answers.PastMinutesAreAnswered` and leaves out the same creators.
- Verify.EdgeToleranceIsExactInRuns: rests on it too, and leaves out the same creators.
- Verify.EdgeToleranceIsExact: a minute just beyond an edge that is in the creator's future is not covered, because the creator answers for its present there.
- KeyAnswer.JsonRoundTrip: asks that the calendar reads back what it prints for the seconds of the two moments.
