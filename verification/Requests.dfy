// The request a verifier makes for an OWID: where it goes, what it asks, and
// that what a creator answers it with is honest.
module Requests {
  import opened Wrappers
  import opened Numbers
  import opened Schedule
  import opened KeyAnswer
  import opened KeyUrl
  import opened Endpoint
  import opened Protocol
  import opened Fetch

  // The value a URL gives a parameter.
  function Query(url: string, name: string): Option<string> {
    var i := IndexOf(url, '?');
    if i == |url| then None else FirstAfter(Split(url[i + 1..], '&'), name + "=")
  }

  lemma FoundFirst(before: string, c: char, after: string)
    requires c !in before
    ensures IndexOf(before + [c] + after, c) == |before|
    ensures (before + [c] + after)[..|before|] == before && (before + [c] + after)[|before| + 1..] == after
  {
    IndexOfAfter(before, c, after);
  }

  lemma {:induction false} NotFound(text: string, c: char)
    requires c !in text
    ensures IndexOf(text, c) == |text|
  {
    if text != "" {
      NotFound(text[1..], c);
    }
  }

  lemma SplitFirst(before: string, after: string)
    requires '&' !in before
    ensures Split(before + ['&'] + after, '&') == [before] + Split(after, '&')
  {
    FoundFirst(before, '&', after);
  }

  lemma SplitLast(text: string)
    requires '&' !in text
    ensures Split(text, '&') == [text]
  {
    NotFound(text, '&');
  }

  lemma TwoParts(a: string, b: string)
    requires '&' !in a && '&' !in b
    ensures Split(a + ['&'] + b, '&') == [a, b]
  {
    SplitFirst(a, b);
    SplitLast(b);
  }

  lemma DatedQuery(minute: u32)
    ensures Split("date=" + Decimal(minute) + "&" + "format=spki", '&') == ["date=" + Decimal(minute), "format=spki"]
  {
    hide Decimal, Split;
    DecimalRoundTrip(minute);
    TwoParts("date=" + Decimal(minute), "format=spki");
  }

  lemma FoundIn(date: string)
    ensures FirstAfter(["date=" + date, "format=spki"], "date=") == Some(date)
    ensures FirstAfter(["date=" + date, "format=spki"], "format=") == Some("spki")
    ensures FirstAfter(["format=spki"], "date=").None? && FirstAfter(["format=spki"], "format=") == Some("spki")
  {
    var texts := ["date=" + date, "format=spki"];
    assert texts[0][|"date="|..] == date && texts[0][0] == 'd' && texts[1..] == ["format=spki"];
    assert "format=spki"[0] == 'f' && "format="[0] == 'f' && "date="[0] == 'd';
    assert "format=" <= "format=spki" && "format=spki"[|"format="|..] == "spki";
    assert ["format=spki"][0] == "format=spki" && ["format=spki"][1..] == [];
  }

  // The request goes to the creator's own domain under the scheme asked for,
  // to the path the OWID's version is served at, and asks for the encoding a
  // creator serves and for the OWID's minute, where it has one to name.
  lemma RequestSays(scheme: string, domain: string, version: byte, minute: Option<u32>)
    requires '?' !in scheme && '?' !in domain
    ensures var url := PublicKeyUrl(scheme, domain, version, minute);
            && scheme + "://" + domain + PublicKeyPath(version) + "?" <= url
            && EndPointOf(url) == scheme + "://" + domain + PublicKeyPath(version)
            && Query(url, "format") == Some("spki")
            && Query(url, "date") == (if minute.None? then None else Some(Decimal(minute.value)))
            && MinuteOf(url) == minute
  {
    hide Decimal, Split, FirstAfter;
    var url := PublicKeyUrl(scheme, domain, version, minute);
    var endPoint := scheme + "://" + domain + PublicKeyPath(version);
    var query := if minute.None? then "format=spki" else "date=" + Decimal(minute.value) + "&" + "format=spki";
    DecimalRoundTrip(version);
    assert EndPoint(scheme, domain, version) == endPoint;
    assert url == endPoint + ['?'] + query;
    FoundFirst(endPoint, '?', query);
    SplitLast("format=spki");
    FoundIn(if minute.None? then "" else Decimal(minute.value));
    assert "date" + "=" == "date=" && "format" + "=" == "format=";
    if minute.Some? {
      DatedQuery(minute.value);
      DecimalRoundTrip(minute.value);
    }
  }

  // The path, in full, with the version in plain digits.
  lemma PathSays(version: byte, digits: string)
    requires digits != "" && AllDigits(digits) && Worth(digits) == version && (digits[0] == '0' ==> |digits| == 1)
    ensures PublicKeyPath(version) == "/owid/api/v" + digits + "/public-key"
  {
    DecimalIsTheOne(digits, version);
  }

  lemma SameUpTo(c: char, a: string, x: string, b: string, y: string)
    requires c !in a && c !in b && a + [c] + x == b + [c] + y
    ensures a == b && x == y
  {
    FoundFirst(a, c, x);
    FoundFirst(b, c, y);
  }

  lemma DecimalsDiffer(m: nat, n: nat)
    requires Decimal(m) == Decimal(n)
    ensures m == n
  {
    DecimalValue(m);
    DecimalValue(n);
  }

  // Everything after the domain says the version and the minute.
  function AfterDomain(version: byte, minute: Option<u32>): string {
    "owid/api/v" + (Decimal(version) + ['/'] + AfterVersion(minute))
  }

  function AfterVersion(minute: Option<u32>): string {
    "public-key?" + (if minute.None? then "format=spki" else "date=" + (Decimal(minute.value) + ['&'] + "format=spki"))
  }

  lemma Regroup(s: string, c: string, slashes: string, d: string, slash: string, p: string, v: string, q: string, r: string)
    ensures s + (c + slashes) + d + (slash + p) + v + (slash + q) + r
         == s + c + (slashes + (d + slash + (p + (v + slash + (q + r)))))
  {
    assert (slash + q) + r == slash + (q + r);
    assert v + (slash + (q + r)) == v + slash + (q + r);
    var t := v + slash + (q + r);
    assert (slash + p) + t == slash + (p + t);
    assert d + (slash + (p + t)) == d + slash + (p + t);
    var u := d + slash + (p + t);
    assert s + (c + slashes) + u == s + c + (slashes + u);
    assert s + (c + slashes) + d + (slash + p) + v + (slash + q) + r == s + (c + slashes) + d + (slash + p) + v + (slash + (q + r));
    assert s + (c + slashes) + d + (slash + p) + v + (slash + (q + r)) == s + (c + slashes) + d + (slash + p) + t;
    assert s + (c + slashes) + d + (slash + p) + t == s + (c + slashes) + d + (slash + (p + t));
    assert s + (c + slashes) + d + (slash + (p + t)) == s + (c + slashes) + u;
  }

  lemma Joined(a: string, mark: string, date: string, number: string, and: string, format: string)
    ensures a + (mark + date) + number + and + format == a + (mark + (date + (number + and + format)))
  {
  }

  lemma UrlIs(scheme: string, domain: string, version: byte, minute: Option<u32>)
    ensures PublicKeyUrl(scheme, domain, version, minute) == scheme + [':'] + ("//" + (domain + ['/'] + AfterDomain(version, minute)))
  {
    hide Decimal;
    var endPoint := EndPoint(scheme, domain, version);
    var dated := if minute.None? then "format=spki" else "date=" + (Decimal(minute.value) + ['&'] + "format=spki");
    assert "://" == [':'] + "//" && "/owid/api/v" == ['/'] + "owid/api/v" && "/public-key" == ['/'] + "public-key";
    assert "?date=" == "?" + "date=" && "&" == ['&'] && FORMAT_QUERY == "format=spki";
    if minute.Some? {
      Joined(endPoint, "?", "date=", Decimal(minute.value), ['&'], "format=spki");
    }
    assert PublicKeyUrl(scheme, domain, version, minute) == endPoint + ("?" + dated) by {
      hide EndPoint;
      assert endPoint + "?" + "format=spki" == endPoint + ("?" + "format=spki");
    }
    Regroup(scheme, [':'], "//", domain, ['/'], "owid/api/v", Decimal(version), "public-key", "?" + dated);
    assert "public-key" + ("?" + dated) == "public-key?" + dated by {
      Marked(dated);
    }
  }

  lemma Marked(text: string)
    ensures "public-key" + ("?" + text) == "public-key?" + text
  {
    assert "public-key?" == "public-key" + "?";
  }

  lemma VersionsDiffer(v: byte, m: Option<u32>, w: byte, n: Option<u32>)
    requires AfterDomain(v, m) == AfterDomain(w, n)
    ensures v == w && m == n
  {
    hide Decimal;
    var p := "owid/api/v";
    assert AfterDomain(v, m)[|p|..] == Decimal(v) + ['/'] + AfterVersion(m);
    assert AfterDomain(w, n)[|p|..] == Decimal(w) + ['/'] + AfterVersion(n);
    DecimalValue(v);
    DecimalValue(w);
    SameUpTo('/', Decimal(v), AfterVersion(m), Decimal(w), AfterVersion(n));
    DecimalsDiffer(v, w);
    MinutesDiffer(m, n);
  }

  lemma MinutesDiffer(m: Option<u32>, n: Option<u32>)
    requires AfterVersion(m) == AfterVersion(n)
    ensures m == n
  {
    hide Decimal;
    var p := "public-key?";
    assert m.None? ==> AfterVersion(m)[|p|] == 'f';
    assert n.None? ==> AfterVersion(n)[|p|] == 'f';
    assert m.Some? ==> AfterVersion(m)[|p|] == 'd';
    assert n.Some? ==> AfterVersion(n)[|p|] == 'd';
    if m.Some? && n.Some? {
      var q := |p| + |"date="|;
      assert AfterVersion(m)[q..] == Decimal(m.value) + ['&'] + "format=spki";
      assert AfterVersion(n)[q..] == Decimal(n.value) + ['&'] + "format=spki";
      DecimalValue(m.value);
      DecimalValue(n.value);
      SameUpTo('&', Decimal(m.value), "format=spki", Decimal(n.value), "format=spki");
      DecimalsDiffer(m.value, n.value);
    }
  }

  // Two requests are one exactly where they are made under one scheme, of one
  // domain, for one version and about one minute.
  lemma RequestsDiffer(scheme: string, domain: string, version: byte, minute: Option<u32>,
                       scheme': string, domain': string, version': byte, minute': Option<u32>)
    requires ':' !in scheme && ':' !in scheme' && '/' !in domain && '/' !in domain'
    ensures PublicKeyUrl(scheme, domain, version, minute) == PublicKeyUrl(scheme', domain', version', minute') <==>
            scheme == scheme' && domain == domain' && version == version' && minute == minute'
  {
    hide AfterDomain, PublicKeyUrl;
    UrlIs(scheme, domain, version, minute);
    UrlIs(scheme', domain', version', minute');
    if PublicKeyUrl(scheme, domain, version, minute) == PublicKeyUrl(scheme', domain', version', minute') {
      var rest, rest' := domain + ['/'] + AfterDomain(version, minute), domain' + ['/'] + AfterDomain(version', minute');
      SameUpTo(':', scheme, "//" + rest, scheme', "//" + rest');
      assert rest == ("//" + rest)[2..] == ("//" + rest')[2..] == rest';
      SameUpTo('/', domain, AfterDomain(version, minute), domain', AfterDomain(version', minute'));
      VersionsDiffer(version, minute, version', minute');
    }
  }

  // What a creator answers the request for an OWID with, from the format and
  // the date the URL gives it, is honest about the minute the URL names.
  lemma RequestsAreAnsweredHonestly(keys: seq<DatedKey>, scheme: string, domain: string, version: byte, minute: Option<u32>, now: int,
                                    readable: string -> bool, cal: Calendar)
    requires WholeMinutes(keys) && '?' !in scheme && '?' !in domain
    requires forall k :: k in keys ==> Usable(k.pem, readable) && ReadsBack(cal, Some(k.startsAt))
    ensures var url := PublicKeyUrl(scheme, domain, version, minute);
            var creator := Creator(InMinutes(keys), now / NANOS_PER_MINUTE, true);
            var response := ResponseAt(SortByStart(keys), Query(url, "format"), Query(url, "date"), now, readable, cal);
            && response.Ok?
            && var reply := ReadResponse(response.value.0, response.value.1, readable, cal);
               && HonestReply(creator, MinuteOf(url), reply)
               && (reply.Failed? <==> InForce(creator.keys, Protocol.AskedMinute(creator, MinuteOf(url))).None?)
  {
    hide ResponseAt, ReadResponse, InMinutes, SortByStart, Decimal, HonestReply, InForce, Query, MinuteOf, PublicKeyUrl, EndPointOf;
    var url := PublicKeyUrl(scheme, domain, version, minute);
    RequestSays(scheme, domain, version, minute);
    EndPointAnswersHonestly(keys, Query(url, "format"), Query(url, "date"), minute, now, readable, cal);
  }
}
