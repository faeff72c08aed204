// The binary envelope of an OWID: the reader that walks a buffer by index
// and the writers that append to one.
module Envelope {
  import opened Wrappers
  import opened Numbers

  const SIGNATURE_LENGTH: nat := 64
  const MAXIMUM_DOMAIN_LENGTH: nat := 253

  type Bytes = seq<byte>

  datatype Version = Empty | Version1 | Version2 | Version3

  function AsByte(version: Version): byte {
    match version
    case Empty => 0
    case Version1 => 1
    case Version2 => 2
    case Version3 => 3
  }

  function VersionOf(b: byte): Option<Version> {
    if b == 0 then Some(Empty) else if b == 1 then Some(Version1)
    else if b == 2 then Some(Version2) else if b == 3 then Some(Version3) else None
  }

  // The domain is held as the bytes of its text, and the date in nanoseconds
  // since the base date.
  datatype Owid = Owid(version: Version, domain: Bytes, date: int, payload: Bytes, signature: Bytes)

  datatype Status =
    | MissingInput
    | AbsentNode
    | UnsupportedVersion
    | InvalidDomainEncoding
    | UnexpectedEnd
    | ByteCountMismatch

  datatype Detail =
    | NoDetail
    | AtField(name: string)
    | VersionByte(version: byte)
    | ByteCounts(declared: u32, present: int)
    | MaximumDomainLength(maximum: nat)

  datatype ParseError = ParseError(status: Status, detail: Detail)

  datatype Extent = WholeBuffer | Prefix

  // Whether bytes are the encoding of a text.
  type Encoding = Bytes -> bool

  // ---- Numbers in bytes --------------------------------------------------

  function U32Bytes(n: u32): Bytes {
    [n % 0x100, n / 0x100 % 0x100, n / 0x1_0000 % 0x100, n / 0x100_0000]
  }

  function U32Of(bytes: Bytes): u32
    requires |bytes| >= 4
  {
    var b0: int, b1: int, b2: int, b3: int := bytes[0], bytes[1], bytes[2], bytes[3];
    b0 + 0x100 * b1 + 0x1_0000 * b2 + 0x100_0000 * b3
  }

  // ---- Reading -----------------------------------------------------------

  // The first zero among the first bytes, or the limit where there is none.
  function FirstZero(bytes: Bytes, limit: nat): (i: nat)
    requires limit <= |bytes|
    ensures i <= limit && (i < limit ==> bytes[i] == 0)
    ensures forall j :: 0 <= j < i ==> bytes[j] != 0
  {
    if limit == 0 || bytes[0] == 0 then 0
    else
      var i := FirstZero(bytes[1..], limit - 1);
      assert forall j :: 0 < j < i + 1 ==> bytes[j] == bytes[1..][j - 1];
      1 + i
  }

  function ReadDomain(bytes: Bytes, utf8: Encoding): (r: Result<(Bytes, nat), ParseError>)
    ensures r.Ok? ==> r.value.1 <= |bytes|
  {
    var window := Min(|bytes|, MAXIMUM_DOMAIN_LENGTH + 1);
    var terminator := FirstZero(bytes, window);
    if terminator == window then
      if window > MAXIMUM_DOMAIN_LENGTH then Err(ParseError(InvalidDomainEncoding, MaximumDomainLength(MAXIMUM_DOMAIN_LENGTH)))
      else Err(ParseError(UnexpectedEnd, AtField("the creator domain")))
    else if utf8(bytes[..terminator]) then Ok((bytes[..terminator], terminator + 1))
    else Err(ParseError(InvalidDomainEncoding, AtField("the creator domain")))
  }

  function DateLength(version: Version): nat {
    if version.Version1? then 2 else 4
  }

  // The number a date field holds: hours in two big endian bytes in version
  // 1, and minutes in four little endian bytes after it.
  function DateField(bytes: Bytes, version: Version): nat
    requires |bytes| >= DateLength(version)
  {
    if version.Version1? then 0x100 * bytes[0] + bytes[1] else U32Of(bytes)
  }

  function DateUnit(version: Version): int {
    if version.Version1? then NANOS_PER_HOUR else NANOS_PER_MINUTE
  }

  function ReadDate(bytes: Bytes, version: Version): Result<int, ParseError> {
    if |bytes| < DateLength(version) then Err(ParseError(UnexpectedEnd, AtField("the date")))
    else Ok(DateField(bytes, version) * DateUnit(version))
  }

  // Everything up to and with the length of the payload, and where it ends.
  datatype Header = Header(version: Version, domain: Bytes, date: int, declared: u32, at: nat)

  function ReadVersion(b: byte): Result<Version, ParseError> {
    match VersionOf(b)
    case None => Err(ParseError(UnsupportedVersion, VersionByte(b)))
    case Some(version) => if version.Empty? then Err(ParseError(AbsentNode, NoDetail)) else Ok(version)
  }

  function ReadLength(bytes: Bytes): Result<u32, ParseError> {
    if |bytes| < 4 then Err(ParseError(UnexpectedEnd, AtField("the payload length"))) else Ok(U32Of(bytes))
  }

  function ReadHeader(buffer: Bytes, utf8: Encoding): (r: Result<Header, ParseError>)
    ensures r.Ok? ==> r.value.at <= |buffer|
  {
    if buffer == [] then Err(ParseError(MissingInput, NoDetail))
    else
      var version :- ReadVersion(buffer[0]);
      var domain :- ReadDomain(buffer[1..], utf8);
      var dateAt := 1 + domain.1;
      var date :- ReadDate(buffer[dateAt..], version);
      var lengthAt := dateAt + DateLength(version);
      var declared :- ReadLength(buffer[lengthAt..]);
      Ok(Header(version, domain.0, date, declared, lengthAt + 4))
  }

  // How long a payload the rest of the buffer leaves room for, beside a
  // signature. Below zero there is not room for the signature alone.
  function Present(buffer: Bytes, h: Header): int {
    |buffer| - h.at - SIGNATURE_LENGTH
  }

  function FrameLength(h: Header): nat {
    h.at + h.declared + SIGNATURE_LENGTH
  }

  function OwidAt(buffer: Bytes, h: Header): Owid
    requires FrameLength(h) <= |buffer|
  {
    Owid(h.version, h.domain, h.date, buffer[h.at..h.at + h.declared], buffer[h.at + h.declared..FrameLength(h)])
  }

  function ParseOne(buffer: Bytes, extent: Extent, utf8: Encoding): (r: Result<(Owid, nat), ParseError>)
    ensures r.Ok? ==> 0 < r.value.1 <= |buffer|
  {
    var h :- ReadHeader(buffer, utf8);
    var counts := ByteCounts(h.declared, Present(buffer, h));
    if extent.WholeBuffer? && Present(buffer, h) != h.declared then Err(ParseError(ByteCountMismatch, counts))
    else if extent.Prefix? && Present(buffer, h) < h.declared then Err(ParseError(UnexpectedEnd, counts))
    else Ok((OwidAt(buffer, h), FrameLength(h)))
  }

  function ParseExact(buffer: Bytes, utf8: Encoding): Result<Owid, ParseError> {
    var r :- ParseOne(buffer, WholeBuffer, utf8);
    Ok(r.0)
  }

  // One frame from the front of the buffer, which may be the marker for a
  // node that is not there, and the bytes that follow it.
  function ParsePrefix(buffer: Bytes, utf8: Encoding): (r: Result<(Option<Owid>, Bytes), ParseError>)
    ensures r.Ok? ==> |r.value.1| < |buffer|
  {
    if buffer == [] then Err(ParseError(MissingInput, NoDetail))
    else if buffer[0] == AsByte(Empty) then Ok((None, buffer[1..]))
    else
      var r :- ParseOne(buffer, Prefix, utf8);
      Ok((Some(r.0), buffer[r.1..]))
  }

  // The reader as the source walks it, an index moved on field by field.
  method ParseOneFrom(buffer: Bytes, extent: Extent, utf8: Encoding) returns (r: Result<(Owid, nat), ParseError>)
    ensures r == ParseOne(buffer, extent, utf8)
  {
    hide ReadDomain, ReadDate, ReadVersion, FirstZero;
    if buffer == [] {
      return Err(ParseError(MissingInput, NoDetail));
    }
    var total := |buffer|;
    var version := ReadVersion(buffer[0]);
    if version.Err? {
      return Err(version.error);
    }
    var at := 1;
    var domain := ReadDomain(buffer[at..], utf8);
    if domain.Err? {
      return Err(domain.error);
    }
    at := at + domain.value.1;
    var date := ReadDate(buffer[at..], version.value);
    if date.Err? {
      return Err(date.error);
    }
    at := at + DateLength(version.value);
    if total - at < 4 {
      return Err(ParseError(UnexpectedEnd, AtField("the payload length")));
    }
    var declared := U32Of(buffer[at..at + 4]);
    assert U32Of(buffer[at..]) == declared;
    at := at + 4;
    ghost var h := Header(version.value, domain.value.0, date.value, declared, at);
    assert ReadHeader(buffer, utf8) == Ok(h);
    hide ReadHeader;
    var present := total - at - SIGNATURE_LENGTH;
    var counts := ByteCounts(declared, present);
    if extent.WholeBuffer? && present != declared {
      return Err(ParseError(ByteCountMismatch, counts));
    }
    if extent.Prefix? && present < declared {
      return Err(ParseError(UnexpectedEnd, counts));
    }
    var payload: Bytes := [];
    payload := payload + buffer[at..at + declared];
    at := at + declared;
    var signature := buffer[at..at + SIGNATURE_LENGTH];
    at := at + SIGNATURE_LENGTH;
    assert payload == buffer[h.at..h.at + h.declared];
    assert at == FrameLength(h) && OwidAt(buffer, h) == Owid(version.value, domain.value.0, date.value, payload, signature);
    return Ok((Owid(version.value, domain.value.0, date.value, payload, signature), at));
  }

  // ---- Writing -----------------------------------------------------------

  datatype WriteError =
    | InvalidDomain
    | DomainTooLong
    | PayloadTooLarge
    | InvalidSignatureLength
    | DateOutOfRange
    | VersionNotWritten(version: byte)

  function DateCount(date: int, version: Version): int {
    Whole(date, DateUnit(version))
  }

  function DateLimit(version: Version): int {
    if version.Version1? then 0xFFFF else U32_MAX
  }

  function DateBytes(count: u32, version: Version): (r: Bytes)
    ensures !version.Version1? ==> |r| == 4
    ensures version.Version1? && count <= 0xFFFF ==> |r| == 2
  {
    if version.Version1? then (if count <= 0xFFFF then [count / 0x100, count % 0x100] else []) else U32Bytes(count)
  }

  function DomainFault(domain: Bytes): Option<WriteError> {
    if 0 in domain then Some(InvalidDomain)
    else if |domain| > MAXIMUM_DOMAIN_LENGTH then Some(DomainTooLong)
    else None
  }

  function DateFault(date: int, version: Version): Option<WriteError> {
    if version.Empty? then Some(VersionNotWritten(AsByte(version)))
    else if 0 <= DateCount(date, version) <= DateLimit(version) then None
    else Some(DateOutOfRange)
  }

  // The bytes up to and with the length of the payload.
  function HeaderBytes(version: Version, domain: Bytes, count: u32, length: u32): Bytes {
    [AsByte(version)] + (domain + ([0] + (DateBytes(count, version) + U32Bytes(length))))
  }

  // What the signature covers, and why it cannot be written where it cannot.
  function Unsigned(o: Owid): Result<Bytes, WriteError> {
    if DomainFault(o.domain).Some? then Err(DomainFault(o.domain).value)
    else if DateFault(o.date, o.version).Some? then Err(DateFault(o.date, o.version).value)
    else if |o.payload| > U32_MAX then Err(PayloadTooLarge)
    else Ok(HeaderBytes(o.version, o.domain, DateCount(o.date, o.version), |o.payload|) + o.payload)
  }

  function Signed(o: Owid): Result<Bytes, WriteError> {
    var bytes :- Unsigned(o);
    if |o.signature| != SIGNATURE_LENGTH then Err(InvalidSignatureLength) else Ok(bytes + o.signature)
  }

  function EncodedLength(o: Owid, withSignature: bool): Result<nat, WriteError> {
    if |o.payload| > U32_MAX then Err(PayloadTooLarge)
    else if withSignature && |o.signature| != SIGNATURE_LENGTH then Err(InvalidSignatureLength)
    else if o.version.Empty? then Err(VersionNotWritten(AsByte(o.version)))
    else Ok(1 + |o.domain| + 1 + DateLength(o.version) + 4 + |o.payload| + if withSignature then SIGNATURE_LENGTH else 0)
  }

  function AsByteArray(o: Owid): Result<Bytes, WriteError> {
    var length :- EncodedLength(o, true);
    Signed(o)
  }

  function SignedBytes(o: Owid): Result<Bytes, WriteError> {
    var length :- EncodedLength(o, false);
    Unsigned(o)
  }

  // The buffer the writers append to. A writer that fails appends nothing of
  // its own field, and leaves what the fields before it wrote.
  class Buffer {
    var bytes: Bytes

    constructor ()
      ensures bytes == []
    {
      bytes := [];
    }

    method WriteDomain(domain: Bytes) returns (fault: Option<WriteError>)
      modifies this
      ensures fault == DomainFault(domain)
      ensures bytes == old(bytes) + if fault.None? then domain + [0] else []
    {
      if 0 in domain {
        return Some(InvalidDomain);
      }
      if |domain| > MAXIMUM_DOMAIN_LENGTH {
        return Some(DomainTooLong);
      }
      bytes := bytes + domain;
      bytes := bytes + [0];
      return None;
    }

    method WriteDate(date: int, version: Version) returns (fault: Option<WriteError>)
      modifies this
      ensures fault == DateFault(date, version)
      ensures bytes == old(bytes) + if fault.None? then DateBytes(DateCount(date, version), version) else []
    {
      if version.Empty? {
        return Some(VersionNotWritten(AsByte(version)));
      }
      var count := Whole(date, DateUnit(version));
      if count < 0 || count > DateLimit(version) {
        return Some(DateOutOfRange);
      }
      if version.Version1? {
        bytes := bytes + [count / 0x100];
        bytes := bytes + [count % 0x100];
      } else {
        bytes := bytes + U32Bytes(count);
      }
      return None;
    }

    method WriteByteArray(value: Bytes) returns (fault: Option<WriteError>)
      modifies this
      ensures fault == if |value| > U32_MAX then Some(PayloadTooLarge) else None
      ensures bytes == old(bytes) + if fault.None? then U32Bytes(|value|) + value else []
    {
      if |value| > U32_MAX {
        return Some(PayloadTooLarge);
      }
      bytes := bytes + U32Bytes(|value|);
      bytes := bytes + value;
      return None;
    }

    method ToBufferNoSignature(o: Owid) returns (fault: Option<WriteError>)
      modifies this
      ensures fault == if Unsigned(o).Ok? then None else Some(Unsigned(o).error)
      ensures fault.None? ==> bytes == old(bytes) + Unsigned(o).value
      ensures old(bytes) <= bytes
    {
      bytes := bytes + [AsByte(o.version)];
      fault := WriteDomain(o.domain);
      if fault.Some? {
        return;
      }
      fault := WriteDate(o.date, o.version);
      if fault.Some? {
        return;
      }
      fault := WriteByteArray(o.payload);
      if fault.None? {
        HeaderGroups(old(bytes), o);
      }
    }

    method ToBuffer(o: Owid) returns (fault: Option<WriteError>)
      modifies this
      ensures fault == if Signed(o).Ok? then None else Some(Signed(o).error)
      ensures fault.None? ==> bytes == old(bytes) + Signed(o).value
      ensures old(bytes) <= bytes
    {
      fault := ToBufferNoSignature(o);
      if fault.Some? {
        return;
      }
      if |o.signature| != SIGNATURE_LENGTH {
        return Some(InvalidSignatureLength);
      }
      bytes := bytes + o.signature;
      assert bytes == old(bytes) + Signed(o).value;
    }

    method EmptyToBuffer()
      modifies this
      ensures bytes == old(bytes) + [AsByte(Empty)]
    {
      bytes := bytes + [AsByte(Empty)];
    }
  }

  lemma HeaderGroups(before: Bytes, o: Owid)
    requires Unsigned(o).Ok?
    ensures before + [AsByte(o.version)] + (o.domain + [0]) + DateBytes(DateCount(o.date, o.version), o.version) + (U32Bytes(|o.payload|) + o.payload)
         == before + Unsigned(o).value
  {
    Regroup(before, [AsByte(o.version)], o.domain, [0], DateBytes(DateCount(o.date, o.version), o.version), U32Bytes(|o.payload|), o.payload);
  }

  lemma Regroup(a: Bytes, b: Bytes, c: Bytes, d: Bytes, e: Bytes, f: Bytes, g: Bytes)
    ensures a + b + (c + d) + e + (f + g) == a + (b + (c + (d + (e + f))) + g)
  {
    assert a + b + (c + d) + e + (f + g) == a + (b + (c + d) + e + (f + g));
    assert b + (c + d) + e + (f + g) == b + ((c + d) + e + (f + g));
    assert (c + d) + e + (f + g) == c + (d + e + (f + g));
    assert d + e + (f + g) == d + (e + f + g);
    assert c + (d + (e + f + g)) == c + (d + (e + f)) + g;
    assert b + (c + (d + (e + f)) + g) == b + (c + (d + (e + f))) + g;
  }

  method AsByteArrayOf(o: Owid) returns (r: Result<Bytes, WriteError>)
    ensures r == AsByteArray(o)
  {
    var length := EncodedLength(o, true);
    if length.Err? {
      return Err(length.error);
    }
    var buffer := new Buffer();
    var fault := buffer.ToBuffer(o);
    if fault.Some? {
      return Err(fault.value);
    }
    assert [] + Signed(o).value == Signed(o).value;
    return Ok(buffer.bytes);
  }

  method SignedBytesOf(o: Owid) returns (r: Result<Bytes, WriteError>)
    ensures r == SignedBytes(o)
  {
    var length := EncodedLength(o, false);
    if length.Err? {
      return Err(length.error);
    }
    var buffer := new Buffer();
    var fault := buffer.ToBufferNoSignature(o);
    if fault.Some? {
      return Err(fault.value);
    }
    assert [] + Unsigned(o).value == Unsigned(o).value;
    return Ok(buffer.bytes);
  }
}
