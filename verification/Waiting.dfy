// When it is worth a caller's while to wait for more bytes of a frame.
module Waiting {
  import opened Wrappers
  import opened Envelope
  import opened EnvelopeFacts

  // The bytes after the version hold the whole domain, or the beginning of
  // one that more bytes could make a valid domain.
  ghost predicate DomainCanBeRead(bytes: Bytes, utf8: Encoding) {
    ReadDomain(bytes, utf8).Ok? || exists tail: Bytes :: Completes(bytes, tail, utf8)
  }

  predicate Completes(bytes: Bytes, tail: Bytes, utf8: Encoding) {
    DomainFault(bytes + tail).None? && utf8(bytes + tail)
  }

  ghost predicate CanBeCompleted(buffer: Bytes, utf8: Encoding) {
    exists more: Bytes :: ParsePrefix(buffer + more, utf8).Ok?
  }

  lemma DomainStaysRead(bytes: Bytes, more: Bytes, utf8: Encoding)
    requires ReadDomain(bytes, utf8).Ok?
    ensures ReadDomain(bytes + more, utf8) == ReadDomain(bytes, utf8)
  {
    hide ReadDomain, DomainFault;
    DomainRead(bytes, utf8);
    var (domain, used) := ReadDomain(bytes, utf8).value;
    DomainWritten(domain, bytes[used..] + more, utf8);
    assert bytes + more == domain + ([0] + (bytes[used..] + more));
  }

  // With the domain read, enough bytes of any kind complete the header.
  lemma HeaderIsCompleted(buffer: Bytes, more: Bytes, utf8: Encoding)
    requires buffer != [] && ReadVersion(buffer[0]).Ok? && ReadDomain(buffer[1..], utf8).Ok? && |more| >= 8
    ensures ReadHeader(buffer + more, utf8).Ok?
  {
    hide ReadDomain, DateField, U32Of;
    DomainStaysRead(buffer[1..], more, utf8);
    assert (buffer + more)[1..] == buffer[1..] + more;
  }

  // And then as many as the payload and the signature still lack complete
  // the frame.
  lemma FrameIsCompleted(buffer: Bytes, utf8: Encoding)
    requires ReadHeader(buffer, utf8).Ok?
    ensures CanBeCompleted(buffer, utf8)
  {
    hide ReadHeader, OwidAt;
    FirstByte(buffer, utf8);
    var h := ReadHeader(buffer, utf8).value;
    var more := Zeros(h.declared + SIGNATURE_LENGTH);
    if ParsePrefix(buffer, utf8).Err? {
      MissingBytesAreCounted(buffer, more, utf8);
      assert ParsePrefix(buffer + more, utf8).Ok?;
    } else {
      assert buffer + [] == buffer;
    }
  }

  function Zeros(n: nat): (r: Bytes)
    ensures |r| == n
  {
    seq(n, _ => 0)
  }

  lemma MoreCompletes(buffer: Bytes, first: Bytes, utf8: Encoding)
    requires CanBeCompleted(buffer + first, utf8)
    ensures CanBeCompleted(buffer, utf8)
  {
    hide ParsePrefix;
    var rest: Bytes :| ParsePrefix(buffer + first + rest, utf8).Ok?;
    assert buffer + first + rest == buffer + (first + rest);
  }

  lemma ReadDomainCompletes(buffer: Bytes, utf8: Encoding)
    requires buffer != [] && ReadVersion(buffer[0]).Ok? && ReadDomain(buffer[1..], utf8).Ok?
    ensures CanBeCompleted(buffer, utf8)
  {
    hide ReadDomain, ReadHeader, CanBeCompleted;
    HeaderIsCompleted(buffer, Zeros(8), utf8);
    FrameIsCompleted(buffer + Zeros(8), utf8);
    MoreCompletes(buffer, Zeros(8), utf8);
  }

  lemma StartedDomainCompletes(buffer: Bytes, tail: Bytes, utf8: Encoding)
    requires buffer != [] && ReadVersion(buffer[0]).Ok? && Completes(buffer[1..], tail, utf8)
    ensures CanBeCompleted(buffer, utf8)
  {
    hide ReadDomain, ReadVersion, CanBeCompleted, DomainFault;
    var first := tail + [0];
    var domain := buffer[1..] + tail;
    DomainWritten(domain, [], utf8);
    assert (buffer + first)[1..] == domain + ([0] + []);
    ReadDomainCompletes(buffer + first, utf8);
    MoreCompletes(buffer, first, utf8);
  }

  // A frame that more bytes complete has a domain that can be read.
  lemma CompletedDomain(buffer: Bytes, more: Bytes, utf8: Encoding)
    requires buffer != [] && buffer[0] != 0 && ParsePrefix(buffer + more, utf8).Ok?
    ensures DomainCanBeRead(buffer[1..], utf8)
  {
    hide ReadDomain, DomainFault;
    var bytes := buffer[1..];
    var whole := bytes + more;
    assert (buffer + more)[1..] == whole;
    assert ReadDomain(whole, utf8).Ok?;
    DomainRead(whole, utf8);
    var (domain, used) := ReadDomain(whole, utf8).value;
    PartOfADomain(whole, |bytes|, utf8);
    assert whole[..|bytes|] == bytes;
    if |bytes| < used {
      var tail := domain[|bytes|..];
      assert bytes == whole[..used - 1][..|bytes|] == domain[..|bytes|];
      assert bytes + tail == domain;
      assert Completes(bytes, tail, utf8);
    }
  }

  // A frame that was not read but that more bytes complete stopped early.
  lemma CompletedStoppedEarly(buffer: Bytes, more: Bytes, utf8: Encoding)
    requires buffer != [] && ParsePrefix(buffer, utf8).Err? && ParsePrefix(buffer + more, utf8).Ok?
    ensures ParsePrefix(buffer, utf8).error.status == UnexpectedEnd
  {
    hide ParsePrefix, FrameBytes;
    var whole := buffer + more;
    var (frame, rest) := ParsePrefix(whole, utf8).value;
    ReadFrameWasWritten(whole, utf8);
    var length := |whole| - |rest|;
    assert whole[..|buffer|] == buffer;
    if length <= |buffer| {
      var after := buffer[length..];
      assert buffer == FrameBytes(frame).value + after by {
        assert whole[..length] == FrameBytes(frame).value;
      }
      WrittenFrameIsRead(frame, after, utf8);
    } else {
      PartOfAFrameStopsEarly(whole, |buffer|, utf8);
    }
  }

  lemma StoppedEarlyHasAVersion(buffer: Bytes, utf8: Encoding)
    requires ParsePrefix(buffer, utf8).Err? && ParsePrefix(buffer, utf8).error.status == UnexpectedEnd
    ensures buffer != [] && ReadVersion(buffer[0]).Ok?
  {
  }

  // Of the buffers that are not read, more bytes can complete exactly those
  // that stopped early with the domain read or with the beginning of a valid
  // one. A beginning that no bytes make valid is answered as having stopped
  // early too, since the encoding is looked at once the terminator is there.
  lemma WorthWaitingFor(buffer: Bytes, utf8: Encoding)
    requires buffer != [] && ParsePrefix(buffer, utf8).Err?
    ensures CanBeCompleted(buffer, utf8) <==>
            ParsePrefix(buffer, utf8).error.status == UnexpectedEnd && DomainCanBeRead(buffer[1..], utf8)
  {
    hide ReadDomain, ReadVersion, ParseOne, Completes;
    if CanBeCompleted(buffer, utf8) {
      var more: Bytes :| ParsePrefix(buffer + more, utf8).Ok?;
      CompletedStoppedEarly(buffer, more, utf8);
      CompletedDomain(buffer, more, utf8);
    } else if ParsePrefix(buffer, utf8).error.status == UnexpectedEnd && DomainCanBeRead(buffer[1..], utf8) {
      StoppedEarlyHasAVersion(buffer, utf8);
      if ReadDomain(buffer[1..], utf8).Ok? {
        ReadDomainCompletes(buffer, utf8);
      } else {
        var tail: Bytes :| Completes(buffer[1..], tail, utf8);
        StartedDomainCompletes(buffer, tail, utf8);
      }
    }
  }

  // Such a beginning: whoever waits for more of it waits in vain.
  lemma SomeWaitInVain(domain: Bytes, utf8: Encoding)
    requires 0 !in domain && |domain| <= MAXIMUM_DOMAIN_LENGTH && forall tail: Bytes :: !utf8(domain + tail)
    ensures var buffer := [AsByte(Version3)] + domain;
            && ParsePrefix(buffer, utf8) == Err(ParseError(UnexpectedEnd, AtField("the creator domain")))
            && !CanBeCompleted(buffer, utf8)
  {
    var buffer := [AsByte(Version3)] + domain;
    assert buffer[1..] == domain;
    FirstZeroIs(domain, |domain|, |domain|);
    WorthWaitingFor(buffer, utf8);
  }
}
