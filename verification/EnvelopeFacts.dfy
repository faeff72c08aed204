// The reader and the writers of the envelope undo one another, and the two
// readers and the framing hold up under truncation and extension.
module EnvelopeFacts {
  import opened Wrappers
  import opened Numbers
  import opened Envelope

  // ---- Fields ------------------------------------------------------------

  lemma U32Written(n: u32, rest: Bytes)
    ensures U32Of(U32Bytes(n) + rest) == n
  {
    var n1: int, n2: int, n3: int := n / 0x100, n / 0x1_0000, n / 0x100_0000;
    assert n1 / 0x100 == n2 && n2 / 0x100 == n3;
    assert n == n % 0x100 + 0x100 * n1 && n1 == n1 % 0x100 + 0x100 * n2 && n2 == n2 % 0x100 + 0x100 * n3;
  }

  lemma U32Read(bytes: Bytes)
    requires |bytes| >= 4
    ensures U32Bytes(U32Of(bytes)) == bytes[..4]
  {
    var b0: int, b1: int, b2: int, b3: int := bytes[0], bytes[1], bytes[2], bytes[3];
    var n: int := U32Of(bytes);
    var n1: int, n2: int := b1 + 0x100 * (b2 + 0x100 * b3), b2 + 0x100 * b3;
    assert n == b0 + 0x100 * n1 && n1 == b1 + 0x100 * n2;
    assert n / 0x100 == n1 && n1 / 0x100 == n2 && n2 / 0x100 == b3;
    assert n / 0x1_0000 == n2 && n / 0x100_0000 == b3;
  }

  lemma DateWritten(count: u32, version: Version, rest: Bytes)
    requires count <= DateLimit(version)
    ensures |DateBytes(count, version)| == DateLength(version)
    ensures DateField(DateBytes(count, version) + rest, version) == count
  {
    if !version.Version1? {
      U32Written(count, rest);
    }
  }

  lemma DateRead(bytes: Bytes, version: Version)
    requires |bytes| >= DateLength(version)
    ensures DateField(bytes, version) <= DateLimit(version)
    ensures DateBytes(DateField(bytes, version), version) == bytes[..DateLength(version)]
  {
    if !version.Version1? {
      U32Read(bytes);
    }
  }

  // The domain written and the domain read have the same bound, whatever
  // follows.
  lemma DomainWritten(domain: Bytes, rest: Bytes, utf8: Encoding)
    requires DomainFault(domain).None? && utf8(domain)
    ensures ReadDomain(domain + ([0] + rest), utf8) == Ok((domain, |domain| + 1))
  {
    var bytes := domain + ([0] + rest);
    var window := Min(|bytes|, MAXIMUM_DOMAIN_LENGTH + 1);
    assert bytes[|domain|] == 0;
    assert forall j :: 0 <= j < |domain| ==> domain[j] in domain && bytes[j] == domain[j];
    FirstZeroIs(bytes, window, |domain|);
    assert bytes[..|domain|] == domain;
  }

  lemma DomainRead(bytes: Bytes, utf8: Encoding)
    requires ReadDomain(bytes, utf8).Ok?
    ensures var (domain, used) := ReadDomain(bytes, utf8).value;
            && DomainFault(domain).None? && utf8(domain) && used == |domain| + 1 <= |bytes|
            && bytes == domain + ([0] + bytes[used..])
  {
  }

  // ---- Headers -----------------------------------------------------------

  predicate WritableHeader(version: Version, domain: Bytes, count: int) {
    !version.Empty? && DomainFault(domain).None? && 0 <= count <= DateLimit(version)
  }

  lemma HeaderLength(version: Version, domain: Bytes, count: u32, length: u32)
    requires WritableHeader(version, domain, count)
    ensures |HeaderBytes(version, domain, count, length)| == 1 + |domain| + 1 + DateLength(version) + 4
  {
  }

  lemma HeaderWritten(version: Version, domain: Bytes, count: u32, length: u32, rest: Bytes, utf8: Encoding)
    requires WritableHeader(version, domain, count) && utf8(domain)
    ensures var bytes := HeaderBytes(version, domain, count, length);
            ReadHeader(bytes + rest, utf8) == Ok(Header(version, domain, count * DateUnit(version), length, |bytes|))
  {
    hide ReadDomain, DateField, U32Bytes, DateBytes, DomainFault;
    var date := DateBytes(count, version);
    var afterDate := U32Bytes(length) + rest;
    var afterDomain := date + afterDate;
    var bytes := HeaderBytes(version, domain, count, length);
    HeaderLength(version, domain, count, length);
    HeaderThen(version, domain, count, length, rest);
    DomainWritten(domain, afterDomain, utf8);
    DateWritten(count, version, afterDate);
    U32Written(length, rest);
    var buffer := bytes + rest;
    assert buffer[1..] == domain + ([0] + afterDomain);
    assert buffer[1 + |domain| + 1..] == afterDomain;
    assert buffer[1 + |domain| + 1 + |date|..] == afterDate;
    assert VersionOf(buffer[0]) == Some(version);
  }

  lemma HeaderThen(version: Version, domain: Bytes, count: u32, length: u32, rest: Bytes)
    ensures HeaderBytes(version, domain, count, length) + rest
         == [AsByte(version)] + (domain + ([0] + (DateBytes(count, version) + (U32Bytes(length) + rest))))
  {
    Regroup4([AsByte(version)], domain, [0], DateBytes(count, version), U32Bytes(length), rest);
  }

  lemma Regroup4(a: Bytes, b: Bytes, c: Bytes, d: Bytes, e: Bytes, f: Bytes)
    ensures a + (b + (c + (d + e))) + f == a + (b + (c + (d + (e + f))))
  {
    assert d + (e + f) == d + e + f;
    assert c + (d + e + f) == c + (d + e) + f;
    assert b + (c + (d + e) + f) == b + (c + (d + e)) + f;
    assert a + (b + (c + (d + e)) + f) == a + (b + (c + (d + e))) + f;
  }

  lemma HeaderRead(buffer: Bytes, utf8: Encoding)
    requires ReadHeader(buffer, utf8).Ok?
    ensures var h := ReadHeader(buffer, utf8).value;
            var count := h.date / DateUnit(h.version);
            && WritableHeader(h.version, h.domain, count) && utf8(h.domain) && h.date == count * DateUnit(h.version)
            && buffer == HeaderBytes(h.version, h.domain, count, h.declared) + buffer[h.at..]
            && h.at == |HeaderBytes(h.version, h.domain, count, h.declared)|
  {
    hide ReadDomain, DateField, U32Bytes, DateBytes, DomainFault, U32Of;
    var h := ReadHeader(buffer, utf8).value;
    var dateAt := 1 + ReadDomain(buffer[1..], utf8).value.1;
    var lengthAt := dateAt + DateLength(h.version);
    DomainRead(buffer[1..], utf8);
    var dateBytes, lengthBytes := buffer[dateAt..], buffer[lengthAt..];
    DateRead(dateBytes, h.version);
    U32Read(lengthBytes);
    var count := DateField(dateBytes, h.version);
    assert h.date / DateUnit(h.version) == count by {
      CountOf(count, h.version);
    }
    assert lengthBytes == U32Bytes(h.declared) + buffer[h.at..];
    assert dateBytes == DateBytes(count, h.version) + lengthBytes;
    assert buffer[1..] == h.domain + ([0] + dateBytes) by {
      assert buffer[1..][dateAt - 1..] == dateBytes;
    }
    assert buffer == [AsByte(h.version)] + buffer[1..];
    HeaderThen(h.version, h.domain, count, h.declared, buffer[h.at..]);
    HeaderLength(h.version, h.domain, count, h.declared);
  }

  lemma CountOf(count: nat, version: Version)
    ensures count * DateUnit(version) / DateUnit(version) == count
    ensures DateCount(count * DateUnit(version), version) == count
  {
  }

  // ---- Whole envelopes ---------------------------------------------------

  // The OWID with its date cut toward the base date to what its version
  // counts, which is what its bytes hold.
  function Cut(o: Owid): Owid {
    o.(date := DateCount(o.date, o.version) * DateUnit(o.version))
  }

  predicate Canonical(o: Owid) {
    o.date >= 0 && o.date % DateUnit(o.version) == 0
  }

  lemma CutIsCanonical(o: Owid)
    requires DateCount(o.date, o.version) >= 0
    ensures Canonical(Cut(o)) && DateCount(Cut(o).date, o.version) == DateCount(o.date, o.version)
    ensures Cut(o) == o <==> Canonical(o)
    ensures o.date >= 0 ==> Cut(o).date <= o.date < Cut(o).date + DateUnit(o.version)
  {
    if o.version.Version1? {
      CutToHour(o.date);
    } else {
      CutToMinute(o.date);
    }
  }

  lemma CutToHour(date: int)
    requires Whole(date, NANOS_PER_HOUR) >= 0
    ensures var cut := Whole(date, NANOS_PER_HOUR) * NANOS_PER_HOUR;
            && cut >= 0 && cut % NANOS_PER_HOUR == 0 && Whole(cut, NANOS_PER_HOUR) == Whole(date, NANOS_PER_HOUR)
            && (cut == date <==> date >= 0 && date % NANOS_PER_HOUR == 0)
            && (date >= 0 ==> cut <= date < cut + NANOS_PER_HOUR)
  {
  }

  lemma CutToMinute(date: int)
    requires Whole(date, NANOS_PER_MINUTE) >= 0
    ensures var cut := Whole(date, NANOS_PER_MINUTE) * NANOS_PER_MINUTE;
            && cut >= 0 && cut % NANOS_PER_MINUTE == 0 && Whole(cut, NANOS_PER_MINUTE) == Whole(date, NANOS_PER_MINUTE)
            && (cut == date <==> date >= 0 && date % NANOS_PER_MINUTE == 0)
            && (date >= 0 ==> cut <= date < cut + NANOS_PER_MINUTE)
  {
  }

  // Reading undoes writing, in front of anything.
  lemma FrameWritten(o: Owid, rest: Bytes, utf8: Encoding)
    requires Signed(o).Ok? && utf8(o.domain)
    ensures ParseOne(Signed(o).value + rest, Prefix, utf8) == Ok((Cut(o), |Signed(o).value|))
    ensures rest == [] ==> ParseOne(Signed(o).value + rest, WholeBuffer, utf8) == Ok((Cut(o), |Signed(o).value|))
  {
    hide ReadHeader, HeaderBytes, DomainFault;
    var count := DateCount(o.date, o.version);
    var header := HeaderBytes(o.version, o.domain, count, |o.payload|);
    var buffer := Signed(o).value + rest;
    assert buffer == header + (o.payload + (o.signature + rest));
    HeaderWritten(o.version, o.domain, count, |o.payload|, o.payload + (o.signature + rest), utf8);
    assert buffer[|header|..|header| + |o.payload|] == o.payload;
    assert buffer[|header| + |o.payload|..|Signed(o).value|] == o.signature;
  }

  // Writing undoes reading: what was accepted is reproduced byte for byte.
  lemma FrameRead(buffer: Bytes, extent: Extent, utf8: Encoding)
    requires ParseOne(buffer, extent, utf8).Ok?
    ensures var (o, used) := ParseOne(buffer, extent, utf8).value;
            && Signed(o) == Ok(buffer[..used]) && utf8(o.domain) && Canonical(o) && buffer[0] != 0
            && (extent.WholeBuffer? ==> used == |buffer|)
  {
    hide ReadHeader, HeaderBytes;
    var h := ReadHeader(buffer, utf8).value;
    var (o, used) := ParseOne(buffer, extent, utf8).value;
    HeaderRead(buffer, utf8);
    var count := h.date / DateUnit(h.version);
    CountOf(count, h.version);
    var header := HeaderBytes(h.version, h.domain, count, h.declared);
    assert buffer[..h.at] == header;
    assert buffer[..used] == header + o.payload + o.signature;
    assert buffer[0] != 0 by {
      FirstByte(buffer, utf8);
    }
  }

  lemma FirstByte(buffer: Bytes, utf8: Encoding)
    requires ReadHeader(buffer, utf8).Ok?
    ensures buffer != [] && buffer[0] != 0
  {
  }

  lemma SerializableIsSigned(o: Owid)
    ensures AsByteArray(o).Ok? <==> Signed(o).Ok?
    ensures AsByteArray(o).Ok? ==> AsByteArray(o) == Signed(o)
    ensures SignedBytes(o).Ok? <==> Unsigned(o).Ok?
    ensures SignedBytes(o).Ok? ==> SignedBytes(o) == Unsigned(o)
  {
  }

  // Byte-exact inversion, one way: every buffer accepted is the one the OWID
  // read from it is written as.
  lemma AcceptedBuffersAreReproduced(buffer: Bytes, utf8: Encoding)
    requires ParseExact(buffer, utf8).Ok?
    ensures AsByteArray(ParseExact(buffer, utf8).value) == Ok(buffer)
    ensures Canonical(ParseExact(buffer, utf8).value)
  {
    hide Signed, AsByteArray;
    FrameRead(buffer, WholeBuffer, utf8);
    assert buffer[..|buffer|] == buffer;
    SerializableIsSigned(ParseExact(buffer, utf8).value);
  }

  // Byte-exact inversion, the other way: every OWID that can be written reads
  // back with its date cut to what its version counts, so it reads back as
  // itself exactly when its date is a whole count, and it fills exactly the
  // length computed for it.
  lemma SerializedOwidsReadBack(o: Owid, utf8: Encoding)
    requires AsByteArray(o).Ok? && utf8(o.domain)
    ensures ParseExact(AsByteArray(o).value, utf8) == Ok(Cut(o))
    ensures ParseExact(AsByteArray(o).value, utf8) == Ok(o) <==> Canonical(o)
    ensures EncodedLength(o, true) == Ok(|AsByteArray(o).value|)
  {
    hide Signed, AsByteArray, ParseOne;
    SerializableIsSigned(o);
    WritesItsLength(o);
    var bytes := Signed(o).value;
    FrameWritten(o, [], utf8);
    assert bytes + [] == bytes;
    CutIsCanonical(o);
  }

  lemma WritesItsLength(o: Owid)
    ensures Unsigned(o).Ok? ==> EncodedLength(o, false) == Ok(|Unsigned(o).value|) && DateCount(o.date, o.version) >= 0
    ensures Signed(o).Ok? ==> EncodedLength(o, true) == Ok(|Signed(o).value|) && Unsigned(o).Ok?
  {
    hide HeaderBytes;
    if Unsigned(o).Ok? {
      HeaderLength(o.version, o.domain, DateCount(o.date, o.version), |o.payload|);
    }
  }

  // ---- Frames in a stream ------------------------------------------------

  // What a frame is written as, a marker standing for an OWID that is absent.
  function FrameBytes(frame: Option<Owid>): Result<Bytes, WriteError> {
    if frame.None? then Ok([AsByte(Empty)]) else Signed(frame.value)
  }

  function CutFrame(frame: Option<Owid>): Option<Owid> {
    if frame.None? then None else Some(Cut(frame.value))
  }

  predicate Writable(frame: Option<Owid>, utf8: Encoding) {
    FrameBytes(frame).Ok? && (frame.Some? ==> utf8(frame.value.domain))
  }

  lemma WrittenFrameIsRead(frame: Option<Owid>, rest: Bytes, utf8: Encoding)
    requires Writable(frame, utf8)
    ensures ParsePrefix(FrameBytes(frame).value + rest, utf8) == Ok((CutFrame(frame), rest))
  {
    hide Signed, ParseOne;
    var bytes := FrameBytes(frame).value;
    if frame.Some? {
      FrameWritten(frame.value, rest, utf8);
      FrameRead(bytes + rest, Prefix, utf8);
    }
    assert (bytes + rest)[|bytes|..] == rest;
  }

  lemma ReadFrameWasWritten(buffer: Bytes, utf8: Encoding)
    requires ParsePrefix(buffer, utf8).Ok?
    ensures var (frame, rest) := ParsePrefix(buffer, utf8).value;
            Writable(frame, utf8) && CutFrame(frame) == frame && buffer == FrameBytes(frame).value + rest
  {
    hide Signed, ParseOne;
    var (frame, rest) := ParsePrefix(buffer, utf8).value;
    if frame.Some? {
      FrameRead(buffer, Prefix, utf8);
      var used := ParseOne(buffer, Prefix, utf8).value.1;
      assert buffer == buffer[..used] + buffer[used..];
      CanonicalIsCut(frame.value);
    }
  }

  lemma CanonicalIsCut(o: Owid)
    requires Canonical(o)
    ensures Cut(o) == o
  {
  }

  // A frame that has been read stays read, whatever arrives after it.
  lemma MoreBytesChangeNothingRead(buffer: Bytes, more: Bytes, utf8: Encoding)
    requires ParsePrefix(buffer, utf8).Ok?
    ensures var (frame, rest) := ParsePrefix(buffer, utf8).value;
            ParsePrefix(buffer + more, utf8) == Ok((frame, rest + more))
  {
    hide ParsePrefix, FrameBytes;
    var (frame, rest) := ParsePrefix(buffer, utf8).value;
    ReadFrameWasWritten(buffer, utf8);
    WrittenFrameIsRead(frame, rest + more, utf8);
    assert buffer + more == FrameBytes(frame).value + (rest + more);
  }

  // A domain or a version that is refused stays refused, whatever arrives
  // after it.
  lemma MoreBytesChangeNoRefusal(buffer: Bytes, more: Bytes, utf8: Encoding)
    requires ParsePrefix(buffer, utf8).Err?
    requires var status := ParsePrefix(buffer, utf8).error.status; status.UnsupportedVersion? || status.InvalidDomainEncoding?
    ensures ParsePrefix(buffer + more, utf8) == ParsePrefix(buffer, utf8)
  {
    hide FirstZero;
    if buffer != [] && buffer[0] != 0 && ReadVersion(buffer[0]).Ok? {
      assert (buffer + more)[1..] == buffer[1..] + more;
      DomainRefusalStays(buffer[1..], more, utf8);
    }
  }

  lemma DomainRefusalStays(bytes: Bytes, more: Bytes, utf8: Encoding)
    requires ReadDomain(bytes, utf8).Err? && ReadDomain(bytes, utf8).error.status.InvalidDomainEncoding?
    ensures ReadDomain(bytes + more, utf8) == ReadDomain(bytes, utf8)
  {
    var window := Min(|bytes|, MAXIMUM_DOMAIN_LENGTH + 1);
    var wider := Min(|bytes + more|, MAXIMUM_DOMAIN_LENGTH + 1);
    var i, j := FirstZero(bytes, window), FirstZero(bytes + more, wider);
    FirstZeroIs(bytes + more, wider, i);
    assert i == j && (bytes + more)[..i] == bytes[..i];
  }

  lemma FirstZeroIs(bytes: Bytes, limit: nat, i: nat)
    requires i <= limit <= |bytes|
    requires (i < limit ==> bytes[i] == 0) && forall j :: 0 <= j < i ==> bytes[j] != 0
    ensures FirstZero(bytes, limit) == i
  {
  }

  // Every part of a frame but the whole of it is data that stopped early.
  lemma PartOfAFrameStopsEarly(buffer: Bytes, n: nat, utf8: Encoding)
    requires ParsePrefix(buffer, utf8).Ok?
    requires 0 < n < |buffer| - |ParsePrefix(buffer, utf8).value.1|
    ensures ParsePrefix(buffer[..n], utf8).Err? && ParsePrefix(buffer[..n], utf8).error.status == UnexpectedEnd
  {
    hide ReadHeader;
    var h := ReadHeader(buffer, utf8).value;
    assert buffer[..n][0] == buffer[0];
    PartOfAHeader(buffer, n, utf8);
  }

  lemma PartOfAHeader(buffer: Bytes, n: nat, utf8: Encoding)
    requires ReadHeader(buffer, utf8).Ok? && 0 < n <= |buffer|
    ensures var h := ReadHeader(buffer, utf8).value;
            if n < h.at then ReadHeader(buffer[..n], utf8).Err? && ReadHeader(buffer[..n], utf8).error.status == UnexpectedEnd
            else ReadHeader(buffer[..n], utf8) == Ok(h)
  {
    hide ReadDomain, U32Of, DateField;
    var h := ReadHeader(buffer, utf8).value;
    var used := ReadDomain(buffer[1..], utf8).value.1;
    var part := buffer[..n];
    assert part[1..] == buffer[1..][..n - 1];
    PartOfADomain(buffer[1..], n - 1, utf8);
    if used <= n - 1 {
      var dateAt := 1 + used;
      var lengthAt := dateAt + DateLength(h.version);
      assert part[dateAt..] == buffer[dateAt..n];
      if lengthAt <= n {
        assert DateField(part[dateAt..], h.version) == DateField(buffer[dateAt..], h.version) by {
          SameDate(part[dateAt..], buffer[dateAt..], h.version);
        }
        if lengthAt + 4 <= n {
          SameLength(part[lengthAt..], buffer[lengthAt..]);
        }
      }
    }
  }

  lemma SameDate(a: Bytes, b: Bytes, version: Version)
    requires |a| >= DateLength(version) && a <= b
    ensures DateField(a, version) == DateField(b, version)
  {
  }

  lemma SameLength(a: Bytes, b: Bytes)
    requires |a| >= 4 && a <= b
    ensures U32Of(a) == U32Of(b)
  {
  }

  lemma PartOfADomain(bytes: Bytes, n: nat, utf8: Encoding)
    requires ReadDomain(bytes, utf8).Ok? && n <= |bytes|
    ensures var used := ReadDomain(bytes, utf8).value.1;
            if n < used then ReadDomain(bytes[..n], utf8).Err? && ReadDomain(bytes[..n], utf8).error.status == UnexpectedEnd
            else ReadDomain(bytes[..n], utf8) == ReadDomain(bytes, utf8)
  {
    var used := ReadDomain(bytes, utf8).value.1;
    var part := bytes[..n];
    var window := Min(n, MAXIMUM_DOMAIN_LENGTH + 1);
    FirstZeroIs(part, window, Min(window, used - 1));
    if n >= used {
      assert part[..used - 1] == bytes[..used - 1];
    }
  }

  lemma HeaderStaysRead(buffer: Bytes, more: Bytes, utf8: Encoding)
    requires ReadHeader(buffer, utf8).Ok?
    ensures ReadHeader(buffer + more, utf8) == ReadHeader(buffer, utf8)
  {
    hide ReadHeader, HeaderBytes, DomainFault;
    HeaderRead(buffer, utf8);
    var h := ReadHeader(buffer, utf8).value;
    var header := HeaderBytes(h.version, h.domain, h.date / DateUnit(h.version), h.declared);
    HeaderWritten(h.version, h.domain, h.date / DateUnit(h.version), h.declared, buffer[h.at..] + more, utf8);
    assert buffer + more == header + (buffer[h.at..] + more);
  }

  // Where the payload has not all arrived the answer says how much is
  // missing: with that much more, whatever it is, the frame is read, and
  // with any less it is not.
  lemma MissingBytesAreCounted(buffer: Bytes, more: Bytes, utf8: Encoding)
    requires ParsePrefix(buffer, utf8).Err? && ParsePrefix(buffer, utf8).error.detail.ByteCounts?
    ensures var counts := ParsePrefix(buffer, utf8).error.detail;
            && counts.present < counts.declared
            && (ParsePrefix(buffer + more, utf8).Ok? <==> |more| >= counts.declared - counts.present)
            && (ParsePrefix(buffer + more, utf8).Err? ==> ParsePrefix(buffer + more, utf8).error.status == UnexpectedEnd)
  {
    hide ReadHeader, OwidAt;
    if ReadHeader(buffer, utf8).Err? {
      HeaderRefusalsCountNothing(buffer, utf8);
    } else {
      HeaderStaysRead(buffer, more, utf8);
      assert (buffer + more)[0] == buffer[0];
    }
  }

  // The dates that can be written. One less than a whole count before the
  // base date is among them, and is written as the base date itself.
  lemma DatesThatAreWritten(date: int, version: Version)
    requires !version.Empty?
    ensures DateFault(date, version).None? <==> -DateUnit(version) < date < (DateLimit(version) + 1) * DateUnit(version)
    ensures -DateUnit(version) < date < 0 ==> DateCount(date, version) == 0
  {
  }

  // ---- Runs of frames ----------------------------------------------------

  predicate WritableRun(frames: seq<Option<Owid>>, utf8: Encoding) {
    && (forall i :: 0 <= i < |frames| ==> FrameBytes(frames[i]).Ok?)
    && (forall i :: 0 <= i < |frames| && frames[i].Some? ==> utf8(frames[i].value.domain))
  }

  function RunBytes(frames: seq<Option<Owid>>): Bytes
    requires forall i :: 0 <= i < |frames| ==> FrameBytes(frames[i]).Ok?
  {
    if frames == [] then [] else FrameBytes(frames[0]).value + RunBytes(frames[1..])
  }

  function CutRun(frames: seq<Option<Owid>>): seq<Option<Owid>> {
    if frames == [] then [] else [CutFrame(frames[0])] + CutRun(frames[1..])
  }

  // Frame after frame until nothing is left.
  function ReadRun(buffer: Bytes, utf8: Encoding): Result<seq<Option<Owid>>, ParseError>
    decreases |buffer|
  {
    if buffer == [] then Ok([])
    else
      var frame :- ParsePrefix(buffer, utf8);
      var rest :- ReadRun(frame.1, utf8);
      Ok([frame.0] + rest)
  }

  method ReadRunFrom(buffer: Bytes, utf8: Encoding) returns (r: Result<seq<Option<Owid>>, ParseError>)
    ensures r == ReadRun(buffer, utf8)
  {
    hide ParsePrefix;
    var rest := buffer;
    var frames: seq<Option<Owid>> := [];
    assert forall all: seq<Option<Owid>> :: [] + all == all;
    while rest != []
      invariant var left := ReadRun(rest, utf8);
                ReadRun(buffer, utf8) == if left.Ok? then Ok(frames + left.value) else left
      decreases |rest|
    {
      var frame := ParsePrefix(rest, utf8);
      if frame.Err? {
        return Err(frame.error);
      }
      ghost var left := ReadRun(frame.value.1, utf8);
      assert left.Ok? ==> frames + ([frame.value.0] + left.value) == frames + [frame.value.0] + left.value;
      frames := frames + [frame.value.0];
      rest := frame.value.1;
    }
    assert frames + [] == frames;
    return Ok(frames);
  }

  // Runs decode uniquely: the concatenation of any frames reads back as those
  // frames, dates cut to what each version counts, with nothing left over.
  lemma {:induction false} RunsReadBack(frames: seq<Option<Owid>>, utf8: Encoding)
    requires WritableRun(frames, utf8)
    ensures ReadRun(RunBytes(frames), utf8) == Ok(CutRun(frames))
    decreases |frames|
  {
    if frames != [] {
      RunsReadBack(frames[1..], utf8);
      WrittenFrameIsRead(frames[0], RunBytes(frames[1..]), utf8);
      assert RunBytes(frames) != [] by {
        FrameIsNotEmpty(frames[0]);
      }
    }
  }

  lemma FrameIsNotEmpty(frame: Option<Owid>)
    requires FrameBytes(frame).Ok?
    ensures FrameBytes(frame).value != []
  {
  }

  // And every buffer that reads as a run is the run it reads as, written out.
  lemma {:induction false} RunsAreReproduced(buffer: Bytes, utf8: Encoding)
    requires ReadRun(buffer, utf8).Ok?
    ensures var frames := ReadRun(buffer, utf8).value;
            WritableRun(frames, utf8) && CutRun(frames) == frames && RunBytes(frames) == buffer
    decreases |buffer|
  {
    hide ParsePrefix, FrameBytes;
    if buffer != [] {
      var (frame, rest) := ParsePrefix(buffer, utf8).value;
      ReadFrameWasWritten(buffer, utf8);
      RunsAreReproduced(rest, utf8);
      var frames := ReadRun(buffer, utf8).value;
      assert frames[1..] == ReadRun(rest, utf8).value;
    }
  }

  // ---- The two readers ---------------------------------------------------

  // The readers differ in three cases and no others: the marker, bytes after
  // the envelope, and a declared payload that runs past the bytes present.
  lemma ReadersAgree(buffer: Bytes, utf8: Encoding)
    ensures var exact, prefix := ParseExact(buffer, utf8), ParsePrefix(buffer, utf8);
            if prefix.Ok? then
              if prefix.value.0.None? then buffer[0] == 0 && exact == Err(ParseError(AbsentNode, NoDetail))
              else if prefix.value.1 == [] then exact == Ok(prefix.value.0.value)
              else exact.Err? && exact.error.status == ByteCountMismatch && exact.error.detail.ByteCounts?
                   && exact.error.detail.present == exact.error.detail.declared + |prefix.value.1|
            else if prefix.error.status == UnexpectedEnd && prefix.error.detail.ByteCounts? then
              exact == Err(ParseError(ByteCountMismatch, prefix.error.detail))
            else exact == Err(prefix.error)
    ensures forall o :: ParseExact(buffer, utf8) == Ok(o) <==> ParsePrefix(buffer, utf8) == Ok((Some(o), []))
  {
    hide ReadHeader, OwidAt;
    if ReadHeader(buffer, utf8).Err? {
      HeaderRefusalsCountNothing(buffer, utf8);
    } else {
      FirstByte(buffer, utf8);
    }
  }

  lemma HeaderRefusalsCountNothing(buffer: Bytes, utf8: Encoding)
    requires ReadHeader(buffer, utf8).Err?
    ensures var error := ReadHeader(buffer, utf8).error;
            && !error.detail.ByteCounts?
            && (buffer == [] <==> error == ParseError(MissingInput, NoDetail))
            && (buffer != [] && buffer[0] == 0 <==> error == ParseError(AbsentNode, NoDetail))
  {
    hide FirstZero;
  }

  // ---- What the signature covers -----------------------------------------

  // The bytes signed say the version, the domain, the count of the date and
  // the payload, and nothing else.
  lemma SignedBytesAreInjective(a: Owid, b: Owid)
    requires SignedBytes(a).Ok? && SignedBytes(b).Ok?
    ensures SignedBytes(a) == SignedBytes(b) <==>
            && a.version == b.version && a.domain == b.domain && a.payload == b.payload
            && DateCount(a.date, a.version) == DateCount(b.date, b.version)
  {
    hide ReadHeader, HeaderBytes, DomainFault;
    if SignedBytes(a) == SignedBytes(b) {
      UnsignedReads(a);
      UnsignedReads(b);
      CountOf(DateCount(a.date, a.version), a.version);
      CountOf(DateCount(b.date, b.version), b.version);
    }
  }

  lemma UnsignedReads(o: Owid)
    requires Unsigned(o).Ok?
    ensures var count := DateCount(o.date, o.version);
            var r := ReadHeader(Unsigned(o).value, _ => true);
            && r.Ok? && r.value.version == o.version && r.value.domain == o.domain
            && r.value.date == count * DateUnit(o.version) && Unsigned(o).value[r.value.at..] == o.payload
  {
    hide ReadHeader, HeaderBytes, DomainFault;
    HeaderWritten(o.version, o.domain, DateCount(o.date, o.version), |o.payload|, o.payload, _ => true);
  }

  // The trip through bytes leaves what the signature covers as it was, though
  // the date loses its seconds, so a check of the signature gives the same
  // answer before and after.
  lemma TheTripKeepsTheSignedBytes<R>(o: Owid, utf8: Encoding, verify: (Bytes, Bytes) -> R)
    requires AsByteArray(o).Ok? && utf8(o.domain)
    ensures var copy := ParseExact(AsByteArray(o).value, utf8);
            && copy.Ok? && SignedBytes(o).Ok? && SignedBytes(copy.value) == SignedBytes(o)
            && verify(SignedBytes(copy.value).value, copy.value.signature) == verify(SignedBytes(o).value, o.signature)
  {
    hide ParseExact, HeaderBytes, DomainFault;
    SerializedOwidsReadBack(o, utf8);
    CutIsCanonical(o);
  }
}
