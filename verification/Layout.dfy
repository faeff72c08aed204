// The bytes of an envelope spelled out by position, as a reader in another
// language would be written from: which byte says what, what is refused and
// as what. The writers and the readers are held to it here.
module Layout {
  import opened Wrappers
  import opened Numbers
  import opened Envelope
  import opened EnvelopeFacts
  import opened Fetch

  function BigEndian16(b: Bytes, at: nat): int
    requires at + 2 <= |b|
  {
    var high: int, low: int := b[at], b[at + 1];
    256 * high + low
  }

  function LittleEndian32(b: Bytes, at: nat): int
    requires at + 4 <= |b|
  {
    var b0: int, b1: int, b2: int, b3: int := b[at], b[at + 1], b[at + 2], b[at + 3];
    b0 + 256 * b1 + 65_536 * b2 + 16_777_216 * b3
  }

  // The width of the date.
  function Width(first: byte): nat {
    if first == 1 then 2 else 4
  }

  // The version byte, the domain and its terminator, the date, the count of
  // the payload in four bytes, the payload, and the signature in 64.
  predicate IsLaidOut(b: Bytes, o: Owid) {
    && |b| >= 1 + |o.domain| + 1 && 0 !in o.domain && |o.domain| <= 253
    && (match o.version case Empty => false case Version1 => b[0] == 1 case Version2 => b[0] == 2 case Version3 => b[0] == 3)
    && b[1..1 + |o.domain|] == o.domain && b[1 + |o.domain|] == 0
    && var at := |o.domain| + 2 + Width(b[0]);
       && |b| == at + 4 + |o.payload| + 64 && |o.signature| == 64
       && LittleEndian32(b, at) == |o.payload|
       && b[at + 4..at + 4 + |o.payload|] == o.payload && b[at + 4 + |o.payload|..] == o.signature
  }

  // The minutes the bytes put an envelope at: whole hours in version 1, two
  // bytes with the greater first, and minutes after it, four bytes with the
  // least first.
  function MinutesIn(b: Bytes, domain: nat): int
    requires |b| >= 1 + domain + 1 + 4
  {
    if b[0] == 1 then 60 * BigEndian16(b, domain + 2) else LittleEndian32(b, domain + 2)
  }

  lemma FirstByteOf(version: Version, domain: Bytes, count: u32, length: u32, rest: Bytes)
    requires WritableHeader(version, domain, count)
    ensures var b := HeaderBytes(version, domain, count, length) + rest;
            var at := 1 + |domain| + 1 + DateLength(version);
            && |b| >= at + 4 && b[0] == AsByte(version) && b[1..1 + |domain|] == domain && b[1 + |domain|] == 0
            && b[1 + |domain| + 1..at] == DateBytes(count, version) && b[at..at + 4] == U32Bytes(length)
            && b[at + 4..] == rest
  {
    hide DateBytes, U32Bytes, DomainFault;
    DateWidth(version, count);
    HeaderThen(version, domain, count, length, rest);
    var date := DateBytes(count, version);
    var fromLength := U32Bytes(length) + rest;
    var fromDate := date + fromLength;
    var b := [AsByte(version)] + (domain + ([0] + fromDate));
    assert b == HeaderBytes(version, domain, count, length) + rest;
    assert b[1..] == domain + ([0] + fromDate) && b[1 + |domain|..] == [0] + fromDate;
    assert b[1 + |domain| + 1..] == fromDate;
    assert b[1 + |domain| + 1 + |date|..] == fromLength;
    assert |U32Bytes(length)| == 4 by {
      U32Width(length);
    }
  }

  lemma U32Width(n: u32)
    ensures |U32Bytes(n)| == 4
  {
  }

  lemma DateWidth(version: Version, count: u32)
    requires count <= DateLimit(version)
    ensures |DateBytes(count, version)| == DateLength(version)
  {
  }

  lemma SliceIs(b: Bytes, at: nat, n: u32)
    requires at + 4 <= |b| && b[at..at + 4] == U32Bytes(n)
    ensures LittleEndian32(b, at) == n
  {
    U32Written(n, []);
    assert U32Bytes(n) + [] == U32Bytes(n);
    var s := b[at..at + 4];
    assert s[0] == b[at] && s[1] == b[at + 1] && s[2] == b[at + 2] && s[3] == b[at + 3];
  }

  lemma HoursAre(b: Bytes, at: nat, n: u32)
    requires at + 2 <= |b| && n <= 0xFFFF && b[at..at + 2] == DateBytes(n, Version1)
    ensures BigEndian16(b, at) == n
  {
    var s := b[at..at + 2];
    assert s[0] == b[at] && s[1] == b[at + 1];
  }

  lemma FieldsAre(o: Owid)
    requires Signed(o).Ok?
    ensures var b := Signed(o).value;
            && IsLaidOut(b, o)
            && b[1 + |o.domain| + 1..1 + |o.domain| + 1 + DateLength(o.version)] == DateBytes(DateCount(o.date, o.version), o.version)
  {
    hide HeaderBytes, DateBytes, U32Bytes, IsLaidOut;
    var count := DateCount(o.date, o.version);
    var b := Signed(o).value;
    var rest := o.payload + o.signature;
    var at := 1 + |o.domain| + 1 + DateLength(o.version);
    assert b == HeaderBytes(o.version, o.domain, count, |o.payload|) + rest;
    FirstByteOf(o.version, o.domain, count, |o.payload|, rest);
    SliceIs(b, at, |o.payload|);
    assert b[at + 4..at + 4 + |o.payload|] == b[at + 4..][..|o.payload|] == o.payload;
    assert b[at + 4 + |o.payload|..] == b[at + 4..][|o.payload|..] == o.signature;
    LaidOut(b, o);
  }

  lemma DateIs(b: Bytes, o: Owid, count: u32)
    requires IsLaidOut(b, o) && count <= DateLimit(o.version)
    requires b[1 + |o.domain| + 1..1 + |o.domain| + 1 + DateLength(o.version)] == DateBytes(count, o.version)
    ensures MinutesIn(b, |o.domain|) == if o.version.Version1? then 60 * count else count
  {
    hide BigEndian16, LittleEndian32, U32Bytes;
    if o.version.Version1? {
      HoursAre(b, |o.domain| + 2, count);
    } else {
      SliceIs(b, |o.domain| + 2, count);
    }
  }

  // Every OWID that is written is laid out so, and says the minute it is
  // dated, or in version 1 the hour, an hour being 60 of those minutes. A
  // date before the base date is said to be the base date.
  lemma WrittenAsLaidOut(o: Owid)
    requires AsByteArray(o).Ok?
    ensures var b := AsByteArray(o).value;
            && IsLaidOut(b, o)
            && var minutes := MinutesIn(b, |o.domain|);
               if o.date < 0 then minutes == 0
               else MinutesSinceBase(o.date).Some? &&
                    minutes == (if o.version.Version1? then MinutesSinceBase(o.date).value / 60 * 60 else MinutesSinceBase(o.date).value)
  {
    hide IsLaidOut, DateBytes, HeaderBytes, DateCount, MinutesSinceBase, MinutesIn, AsByteArray, DomainFault;
    SerializableIsSigned(o);
    FieldsAre(o);
    DateIs(AsByteArray(o).value, o, DateCount(o.date, o.version));
    DatesAreCounted(o.date, o.version);
  }

  lemma LaidOut(b: Bytes, o: Owid)
    requires DomainFault(o.domain).None? && !o.version.Empty? && |o.signature| == SIGNATURE_LENGTH
    requires var at := 1 + |o.domain| + 1 + DateLength(o.version);
             && |b| == at + 4 + |o.payload| + 64 && b[0] == AsByte(o.version) && b[1..1 + |o.domain|] == o.domain && b[1 + |o.domain|] == 0
             && LittleEndian32(b, at) == |o.payload|
             && b[at + 4..at + 4 + |o.payload|] == o.payload && b[at + 4 + |o.payload|..] == o.signature
    ensures IsLaidOut(b, o)
  {
    hide LittleEndian32;
  }

  lemma DatesAreCounted(date: int, version: Version)
    requires DateFault(date, version).None?
    ensures var count := DateCount(date, version);
            if date < 0 then count == 0
            else MinutesSinceBase(date).Some? &&
                 count == (if version.Version1? then MinutesSinceBase(date).value / 60 else MinutesSinceBase(date).value)
  {
  }

  // Every envelope that is read was laid out so, up to the bytes that follow
  // it, and is dated exactly the minute the bytes say.
  lemma ReadAsLaidOut(buffer: Bytes, utf8: Encoding)
    requires ParsePrefix(buffer, utf8).Ok? && ParsePrefix(buffer, utf8).value.0.Some?
    ensures var (frame, rest) := ParsePrefix(buffer, utf8).value;
            var o := frame.value;
            var b := buffer[..|buffer| - |rest|];
            && buffer == b + rest && IsLaidOut(b, o) && utf8(o.domain)
            && o.date == MinutesIn(b, |o.domain|) * NANOS_PER_MINUTE
            && MinutesSinceBase(o.date) == Some(MinutesIn(b, |o.domain|))
  {
    hide ParsePrefix, IsLaidOut, AsByteArray, Signed, Unsigned, MinutesIn;
    var (frame, rest) := ParsePrefix(buffer, utf8).value;
    var o := frame.value;
    ReadFrameWasWritten(buffer, utf8);
    var b := buffer[..|buffer| - |rest|];
    assert b == FrameBytes(frame).value;
    SignedIsSerializable(o);
    WrittenAsLaidOut(o);
    CutIsDated(o);
  }

  lemma SignedIsSerializable(o: Owid)
    requires Signed(o).Ok?
    ensures AsByteArray(o) == Signed(o) && DateFault(o.date, o.version).None?
  {
    WritesItsLength(o);
  }

  lemma CutIsDated(o: Owid)
    requires DateFault(o.date, o.version).None? && CutFrame(Some(o)) == Some(o)
    ensures o.date >= 0 && MinutesSinceBase(o.date).Some?
    ensures o.date == MinutesSinceBase(o.date).value * NANOS_PER_MINUTE
    ensures o.version.Version1? ==> MinutesSinceBase(o.date).value % 60 == 0
  {
    assert Cut(o) == o;
    if o.version.Version1? {
      HourIsDated(o.date);
    } else {
      MinuteIsDated(o.date);
    }
  }

  lemma HourIsDated(date: int)
    requires 0 <= Whole(date, NANOS_PER_HOUR) <= 0xFFFF && Whole(date, NANOS_PER_HOUR) * NANOS_PER_HOUR == date
    ensures date >= 0 && MinutesSinceBase(date) == Some(Whole(date, NANOS_PER_HOUR) * 60)
  {
  }

  lemma MinuteIsDated(date: int)
    requires 0 <= Whole(date, NANOS_PER_MINUTE) <= U32_MAX && Whole(date, NANOS_PER_MINUTE) * NANOS_PER_MINUTE == date
    ensures date >= 0 && MinutesSinceBase(date) == Some(Whole(date, NANOS_PER_MINUTE))
  {
  }

  // ---- What is not written -----------------------------------------------

  // The dates that can be counted, to the minute or to the hour.
  predicate Datable(o: Owid) {
    if o.version.Version1? then -60 * NANOS_PER_MINUTE < o.date < 65_536 * 60 * NANOS_PER_MINUTE
    else -NANOS_PER_MINUTE < o.date < 4_294_967_296 * NANOS_PER_MINUTE
  }

  // The faults a writer stops at, in the order it comes to the fields.
  lemma WritingStopsAt(o: Owid)
    ensures Signed(o).Err? <==>
            || 0 in o.domain || |o.domain| > 253 || o.version.Empty? || !Datable(o)
            || |o.payload| >= 4_294_967_296 || |o.signature| != 64
    ensures Signed(o).Err? ==>
              Signed(o).error == (if 0 in o.domain then InvalidDomain
                                  else if |o.domain| > 253 then DomainTooLong
                                  else if o.version.Empty? then VersionNotWritten(0)
                                  else if !Datable(o) then DateOutOfRange
                                  else if |o.payload| >= 4_294_967_296 then PayloadTooLarge
                                  else InvalidSignatureLength)
    ensures Unsigned(o).Ok? <==> Signed(o).Ok? || Signed(o) == Err(InvalidSignatureLength)
  {
    hide HeaderBytes;
    if !o.version.Empty? {
      DatesThatAreWritten(o.date, o.version);
    }
  }

  // Measuring the bytes first finds a payload, a signature or a version that
  // cannot be written before any field is.
  lemma MeasuringStopsAt(o: Owid)
    ensures |o.payload| >= 4_294_967_296 ==> AsByteArray(o) == Err(PayloadTooLarge) && SignedBytes(o) == Err(PayloadTooLarge)
    ensures |o.payload| < 4_294_967_296 && |o.signature| != 64 ==> AsByteArray(o) == Err(InvalidSignatureLength)
    ensures |o.payload| < 4_294_967_296 && o.version.Empty? ==>
              SignedBytes(o) == Err(VersionNotWritten(0)) && (|o.signature| == 64 ==> AsByteArray(o) == Err(VersionNotWritten(0)))
    ensures |o.payload| < 4_294_967_296 && !o.version.Empty? ==>
              SignedBytes(o) == Unsigned(o) && (|o.signature| == 64 ==> AsByteArray(o) == Signed(o))
  {
    hide HeaderBytes, Unsigned;
  }

  // ---- What is not read --------------------------------------------------

  // A buffer refused before its payload is looked at: nothing at all, the
  // marker, a version that is not one of the three.
  lemma FirstByteRefused(buffer: Bytes, extent: Extent, utf8: Encoding)
    ensures buffer == [] ==> ParseOne(buffer, extent, utf8) == Err(ParseError(MissingInput, NoDetail))
    ensures buffer != [] && buffer[0] == 0 ==> ParseOne(buffer, extent, utf8) == Err(ParseError(AbsentNode, NoDetail))
    ensures buffer != [] && buffer[0] > 3 ==>
              ParseOne(buffer, extent, utf8) == Err(ParseError(UnsupportedVersion, VersionByte(buffer[0])))
  {
  }

  // A domain with no end to it, within the bytes there are or the 253 there
  // may be, or one that is not text.
  lemma DomainRefused(buffer: Bytes, extent: Extent, utf8: Encoding)
    requires buffer != [] && 1 <= buffer[0] <= 3
    ensures |buffer| <= 254 && (forall i :: 1 <= i < |buffer| ==> buffer[i] != 0) ==>
              ParseOne(buffer, extent, utf8) == Err(ParseError(UnexpectedEnd, AtField("the creator domain")))
    ensures |buffer| > 254 && (forall i :: 1 <= i <= 254 ==> buffer[i] != 0) ==>
              ParseOne(buffer, extent, utf8) == Err(ParseError(InvalidDomainEncoding, MaximumDomainLength(253)))
    ensures forall z :: 1 <= z < |buffer| && z <= 254 && buffer[z] == 0 && (forall i :: 1 <= i < z ==> buffer[i] != 0) && !utf8(buffer[1..z]) ==>
              ParseOne(buffer, extent, utf8) == Err(ParseError(InvalidDomainEncoding, AtField("the creator domain")))
  {
    hide ReadDate, ReadLength;
    var bytes := buffer[1..];
    var window := Min(|bytes|, 254);
    if forall i :: 1 <= i <= window ==> buffer[i] != 0 {
      FirstZeroIs(bytes, window, window);
    }
    forall z | 1 <= z < |buffer| && z <= 254 && buffer[z] == 0 && (forall i :: 1 <= i < z ==> buffer[i] != 0) && !utf8(buffer[1..z])
      ensures ParseOne(buffer, extent, utf8) == Err(ParseError(InvalidDomainEncoding, AtField("the creator domain")))
    {
      FirstZeroIs(bytes, window, z - 1);
      assert bytes[..z - 1] == buffer[1..z];
    }
  }

  // Where the domain ends at the index, what the rest of the header says.
  lemma RestOfHeader(buffer: Bytes, z: nat, utf8: Encoding)
    requires 1 <= z < |buffer| && z <= 254 && 1 <= buffer[0] <= 3 && buffer[z] == 0 && (forall i :: 1 <= i < z ==> buffer[i] != 0)
    requires utf8(buffer[1..z])
    ensures var at := z + 1 + Width(buffer[0]);
            if |buffer| < at then ReadHeader(buffer, utf8) == Err(ParseError(UnexpectedEnd, AtField("the date")))
            else if |buffer| < at + 4 then ReadHeader(buffer, utf8) == Err(ParseError(UnexpectedEnd, AtField("the payload length")))
            else
              var r := ReadHeader(buffer, utf8);
              r.Ok? && r.value.at == at + 4 && r.value.declared == LittleEndian32(buffer, at)
  {
    hide DateField;
    var bytes := buffer[1..];
    FirstZeroIs(bytes, Min(|bytes|, 254), z - 1);
    assert bytes[..z - 1] == buffer[1..z];
    var at := z + 1 + Width(buffer[0]);
    if |buffer| >= at + 4 {
      assert buffer[at..][0] == buffer[at] && buffer[at..][1] == buffer[at + 1];
      assert buffer[at..][2] == buffer[at + 2] && buffer[at..][3] == buffer[at + 3];
    }
  }

  // A header cut short after its domain, which ends at the index, and a
  // payload whose count the bytes do not bear out.
  lemma RestRefused(buffer: Bytes, z: nat, extent: Extent, utf8: Encoding)
    requires 1 <= z < |buffer| && z <= 254 && 1 <= buffer[0] <= 3 && buffer[z] == 0 && (forall i :: 1 <= i < z ==> buffer[i] != 0)
    requires utf8(buffer[1..z])
    ensures var at := z + 1 + Width(buffer[0]);
            if |buffer| < at then ParseOne(buffer, extent, utf8) == Err(ParseError(UnexpectedEnd, AtField("the date")))
            else if |buffer| < at + 4 then ParseOne(buffer, extent, utf8) == Err(ParseError(UnexpectedEnd, AtField("the payload length")))
            else
              var declared, present := LittleEndian32(buffer, at), |buffer| - (at + 4) - 64;
              if extent.WholeBuffer? && present != declared then
                ParseOne(buffer, extent, utf8) == Err(ParseError(ByteCountMismatch, ByteCounts(declared, present)))
              else if extent.Prefix? && present < declared then
                ParseOne(buffer, extent, utf8) == Err(ParseError(UnexpectedEnd, ByteCounts(declared, present)))
              else ParseOne(buffer, extent, utf8).Ok?
  {
    hide OwidAt, ReadHeader;
    RestOfHeader(buffer, z, utf8);
  }
}
