// The URL that asks a creator's key end point for the key in force at a
// minute, and the reading of the end point and the minute back out of it.
module KeyUrl {
  import opened Wrappers
  import opened Numbers

  const FORMAT_QUERY := "format=spki"

  function KeyUrlAt(endPoint: string, minute: u32): string {
    endPoint + "?date=" + Decimal(minute) + "&" + FORMAT_QUERY
  }

  // The URL for an OWID's own date, which is left out where it is not a
  // count of minutes.
  function PublicKeyUrl(scheme: string, domain: string, version: byte, minute: Option<u32>): string {
    var endPoint := EndPoint(scheme, domain, version);
    if minute.Some? then KeyUrlAt(endPoint, minute.value) else endPoint + "?" + FORMAT_QUERY
  }

  function EndPoint(scheme: string, domain: string, version: byte): string {
    scheme + "://" + domain + "/owid/api/v" + Decimal(version) + "/public-key"
  }

  // The index of the first such character, or the length where there is none.
  function IndexOf(text: string, c: char): (i: nat)
    ensures i <= |text|
    ensures i < |text| ==> text[i] == c
  {
    if text == "" || text[0] == c then 0 else 1 + IndexOf(text[1..], c)
  }

  function EndPointOf(url: string): string {
    url[..IndexOf(url, '?')]
  }

  lemma {:induction false} EndPointHasNoQuery(url: string)
    ensures '?' !in EndPointOf(url)
  {
    if url != "" && url[0] != '?' {
      EndPointHasNoQuery(url[1..]);
      assert EndPointOf(url) == [url[0]] + EndPointOf(url[1..]);
    }
  }

  function Split(text: string, c: char): (parts: seq<string>)
    ensures parts != []
    decreases |text|
  {
    var i := IndexOf(text, c);
    if i == |text| then [text] else [text[..i]] + Split(text[i + 1..], c)
  }

  // What follows the prefix in the first of the texts that begins with it.
  function FirstAfter(texts: seq<string>, prefix: string): Option<string> {
    if texts == [] then None
    else if prefix <= texts[0] then Some(texts[0][|prefix|..])
    else FirstAfter(texts[1..], prefix)
  }

  function MinuteOf(url: string): Option<u32> {
    var i := IndexOf(url, '?');
    if i == |url| then None
    else
      match FirstAfter(Split(url[i + 1..], '&'), "date=")
      case Some(text) => ParseU32(text, 10)
      case None => None
  }

  lemma {:induction false} IndexOfAfter(before: string, c: char, after: string)
    ensures IndexOf(before + [c] + after, c) <= |before|
    ensures IndexOf(before + [c] + after, c) == |before| <==> c !in before
  {
    var text := before + [c] + after;
    if before != "" {
      IndexOfAfter(before[1..], c, after);
      assert text[1..] == before[1..] + [c] + after;
      assert before == [before[0]] + before[1..];
    }
  }

  lemma FirstPairIsTheDate(number: string, rest: string)
    requires '&' !in number
    ensures FirstAfter(Split("date=" + number + ['&'] + rest, '&'), "date=") == Some(number)
  {
    var pair := "date=" + number;
    var query := pair + ['&'] + rest;
    IndexOfAfter(pair, '&', rest);
    assert query[..|pair|] == pair;
    assert Split(query, '&')[0] == pair;
    assert pair[|"date="|..] == number;
  }

  // Reading a key URL undoes building it. The end point comes back exactly
  // when it holds no question mark, and then the minute does too.
  lemma KeyUrlRoundTrip(endPoint: string, minute: u32)
    ensures EndPointOf(KeyUrlAt(endPoint, minute)) == endPoint <==> '?' !in endPoint
    ensures '?' !in endPoint ==> MinuteOf(KeyUrlAt(endPoint, minute)) == Some(minute)
  {
    hide Split, FirstAfter, Decimal, ParseU32;
    var query := "date=" + Decimal(minute) + ['&'] + FORMAT_QUERY;
    var url := KeyUrlAt(endPoint, minute);
    assert url == endPoint + ['?'] + query;
    IndexOfAfter(endPoint, '?', query);
    assert |EndPointOf(url)| == IndexOf(url, '?');
    if '?' !in endPoint {
      assert url[|endPoint| + 1..] == query;
      DecimalRoundTrip(minute);
      FirstPairIsTheDate(Decimal(minute), FORMAT_QUERY);
    }
  }

  // Every OWID's key URL names its end point and its minute, where neither
  // the scheme nor the domain holds a question mark.
  lemma PublicKeyUrlNamesTheMinute(scheme: string, domain: string, version: byte, minute: u32)
    requires '?' !in scheme && '?' !in domain
    ensures EndPointOf(PublicKeyUrl(scheme, domain, version, Some(minute))) == EndPoint(scheme, domain, version)
    ensures MinuteOf(PublicKeyUrl(scheme, domain, version, Some(minute))) == Some(minute)
  {
    hide KeyUrlAt, EndPointOf, MinuteOf, Decimal;
    DecimalRoundTrip(version);
    KeyUrlRoundTrip(EndPoint(scheme, domain, version), minute);
  }
}
