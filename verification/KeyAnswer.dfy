// The JSON body of the public key end point: the checks a creator and a
// client both apply, the printer, and the reader that walks it by index.
module KeyAnswer {
  import opened Wrappers
  import opened Numbers

  const SPKI_FORMAT := "spki"

  // Moments are nanoseconds since 2020-01-01T00:00:00Z.
  datatype PublicKeyAnswer = PublicKeyAnswer(format: string, publicKey: string, validFrom: Option<int>, validTo: Option<int>)

  // The calendar library: the RFC 3339 text of a whole second, and the
  // moment a text names.
  datatype Calendar = Calendar(show: int -> string, read: string -> Option<int>)

  datatype Fault =
    | NotJson
    | NotAMoment(field: string)
    | OtherFormat
    | NoKey
    | UnreadableKey
    | EndWithoutStart
    | EndsBeforeStart
    | NotStarted
    | HadEnded

  datatype Field = Field(name: string, value: Option<string>)

  // The characters Unicode gives the White_Space property.
  predicate IsWhitespace(c: char) {
    var n := c as int;
    || 0x09 <= n <= 0x0D || n == 0x20 || n == 0x85 || n == 0xA0 || n == 0x1680
    || 0x2000 <= n <= 0x200A || n == 0x2028 || n == 0x2029 || n == 0x202F || n == 0x205F || n == 0x3000
  }

  predicate Blank(text: string) {
    forall c :: c in text ==> IsWhitespace(c)
  }

  // ---- Checking ----------------------------------------------------------

  function Validate(answer: PublicKeyAnswer, asked: Option<int>, readable: string -> bool): Result<(), Fault> {
    if answer.format != SPKI_FORMAT then Err(OtherFormat)
    else if Blank(answer.publicKey) then Err(NoKey)
    else if !readable(answer.publicKey) then Err(UnreadableKey)
    else if answer.validTo.Some? && answer.validFrom.None? then Err(EndWithoutStart)
    else if answer.validTo.Some? && answer.validTo.value <= answer.validFrom.value then Err(EndsBeforeStart)
    else if asked.Some? && answer.validFrom.Some? && answer.validFrom.value > asked.value then Err(NotStarted)
    else if asked.Some? && answer.validTo.Some? && answer.validTo.value <= asked.value then Err(HadEnded)
    else Ok(())
  }

  // An answer passes exactly where it is in the one encoding, holds a key
  // that is not blank and can be read, states an end only with a start before
  // it, and the moment asked about, where there is one, within what it states.
  lemma ValidExactlyWhere(answer: PublicKeyAnswer, asked: Option<int>, readable: string -> bool)
    ensures Validate(answer, asked, readable).Ok? <==>
            && answer.format == "spki" && (exists i :: 0 <= i < |answer.publicKey| && !IsWhitespace(answer.publicKey[i]))
            && readable(answer.publicKey)
            && (answer.validTo.Some? ==> answer.validFrom.Some? && answer.validFrom.value < answer.validTo.value)
            && (asked.Some? && answer.validFrom.Some? ==> answer.validFrom.value <= asked.value)
            && (asked.Some? && answer.validTo.Some? ==> asked.value < answer.validTo.value)
  {
    hide IsWhitespace;
    if !Blank(answer.publicKey) {
      var c :| c in answer.publicKey && !IsWhitespace(c);
      var i :| 0 <= i < |answer.publicKey| && answer.publicKey[i] == c;
    }
  }

  // ---- Printing ----------------------------------------------------------

  function EscapedChar(c: char): string {
    if c == '"' then "\\\""
    else if c == '\\' then "\\\\"
    else if c == '\n' then "\\n"
    else if c == '\r' then "\\r"
    else if c == '\t' then "\\t"
    else if c as int < 0x20 then "\\u" + Hex(c as int, 4)
    else [c]
  }

  function Escaped(value: string): string {
    if value == "" then "" else EscapedChar(value[0]) + Escaped(value[1..])
  }

  function Quoted(value: string): string {
    "\"" + Escaped(value) + "\""
  }

  function Rendered(value: Option<string>): string {
    if value.None? then "null" else Quoted(value.value)
  }

  function MomentText(moment: Option<int>, cal: Calendar): Option<string> {
    if moment.None? then None else Some(cal.show(moment.value / NANOS_PER_SECOND))
  }

  function FieldText(field: Field): string {
    Quoted(field.name) + (":" + Rendered(field.value))
  }

  function Texts(fields: seq<Field>): (r: seq<string>)
    ensures |r| == |fields|
  {
    if fields == [] then [] else [FieldText(fields[0])] + Texts(fields[1..])
  }

  // The texts of an object's fields, up to and with the closing brace.
  function Listed(texts: seq<string>): string
    requires texts != []
  {
    texts[0] + if |texts| == 1 then "}" else "," + Listed(texts[1..])
  }

  function FieldsOf(a: PublicKeyAnswer, cal: Calendar): seq<Field> {
    [Field("format", Some(a.format)), Field("publicKey", Some(a.publicKey)),
     Field("validFrom", MomentText(a.validFrom, cal)), Field("validTo", MomentText(a.validTo, cal))]
  }

  function Json(a: PublicKeyAnswer, cal: Calendar): string {
    "{" + Listed(Texts(FieldsOf(a, cal)))
  }

  lemma {:induction false} EscapedSnoc(s: string, c: char)
    ensures Escaped(s + [c]) == Escaped(s) + EscapedChar(c)
  {
    hide EscapedChar;
    if s == "" {
      assert [c][1..] == "";
    } else {
      EscapedSnoc(s[1..], c);
      assert (s + [c])[1..] == s[1..] + [c];
    }
  }

  // Section 7 of RFC 8259 lets no control character stand in a string, so
  // each one is escaped and none is left in what is written.
  lemma {:induction false} NoControlIsWritten(value: string)
    ensures forall c :: c in Quoted(value) ==> c as int >= 0x20
    ensures forall c :: c in Escaped(value) ==> c as int >= 0x20
  {
    if value != "" {
      NoControlIsWritten(value[1..]);
      EscapedCharIsPlain(value[0]);
    }
  }

  lemma EscapedCharIsPlain(c: char)
    ensures forall d :: d in EscapedChar(c) ==> d as int >= 0x20
  {
    if c as int < 0x20 {
      HexIsPlain(c as int, 4);
    }
  }

  lemma {:induction false} HexIsPlain(n: nat, width: nat)
    ensures forall d :: d in Hex(n, width) ==> d as int >= 0x20
  {
    if width > 0 {
      HexIsPlain(n / 16, width - 1);
    }
  }

  lemma Grouped(a: string, b: string, c: string, d: string)
    ensures a + b + c + d == a + (b + c + d)
    ensures a + b + (c + d) == a + (b + c + d)
  {
  }

  // The text a printer is filling.
  class Text {
    var text: string

    constructor ()
      ensures text == ""
    {
      text := "";
    }

    method Push(more: string)
      modifies this
      ensures text == old(text) + more
    {
      text := text + more;
    }

    method PushEscaped(c: char)
      modifies this
      ensures text == old(text) + EscapedChar(c)
    {
      if c == '"' {
        Push("\\\"");
      } else if c == '\\' {
        Push("\\\\");
      } else if c == '\n' {
        Push("\\n");
      } else if c == '\r' {
        Push("\\r");
      } else if c == '\t' {
        Push("\\t");
      } else if c as int < 0x20 {
        Push("\\u" + Hex(c as int, 4));
      } else {
        Push([c]);
      }
    }

    method WriteString(value: string)
      modifies this
      ensures text == old(text) + Quoted(value)
    {
      hide EscapedChar;
      Push("\"");
      ghost var start := text;
      var i := 0;
      while i < |value|
        invariant i <= |value|
        invariant text == start + Escaped(value[..i])
      {
        ghost var before := text;
        PushEscaped(value[i]);
        EscapedSnoc(value[..i], value[i]);
        assert value[..i] + [value[i]] == value[..i + 1];
        assert text == start + (Escaped(value[..i]) + EscapedChar(value[i]));
        i := i + 1;
      }
      assert value[..i] == value;
      Push("\"");
      Grouped(old(text), "\"", Escaped(value), "\"");
    }

    method WriteMoment(moment: Option<int>, cal: Calendar)
      modifies this
      ensures text == old(text) + Rendered(MomentText(moment, cal))
    {
      match moment
      case None => Push("null");
      case Some(m) => WriteString(cal.show(m / NANOS_PER_SECOND));
    }
  }

  method ToJson(a: PublicKeyAnswer, cal: Calendar) returns (json: string)
    ensures json == Json(a, cal)
  {
    var t := new Text();
    t.Push("{\"format\":");
    t.WriteString(a.format);
    t.Push(",\"publicKey\":");
    t.WriteString(a.publicKey);
    t.Push(",\"validFrom\":");
    t.WriteMoment(a.validFrom, cal);
    t.Push(",\"validTo\":");
    t.WriteMoment(a.validTo, cal);
    t.Push("}");
    json := t.text;
    JsonSpelledOut(a, cal);
  }

  lemma ListedFour(before: string, t0: string, t1: string, t2: string, t3: string)
    ensures before + Listed([t0, t1, t2, t3]) == before + t0 + "," + t1 + "," + t2 + "," + t3 + "}"
  {
    assert [t0, t1, t2, t3][1..] == [t1, t2, t3] && [t1, t2, t3][1..] == [t2, t3] && [t2, t3][1..] == [t3];
    var l2, l1 := t2 + ("," + Listed([t3])), t1 + ("," + Listed([t2, t3]));
    assert Listed([t0, t1, t2, t3]) == t0 + ("," + l1);
    assert before + (t0 + ("," + l1)) == before + t0 + "," + l1;
    assert before + t0 + "," + (t1 + ("," + l2)) == before + t0 + "," + t1 + "," + l2;
  }

  // A separator, a name and a colon written as one text.
  lemma Opens(before: string, sep: string, name: string, value: string, text: string)
    requires text == sep + "\"" + name + "\":"
    requires Escaped(name) == name
    ensures before + text + value == before + sep + (Quoted(name) + (":" + value))
  {
    assert text == sep + (Quoted(name) + ":");
    Grouped(before, sep, Quoted(name) + ":", value);
    Grouped(sep, Quoted(name), ":", value);
    Grouped(before, sep, Quoted(name), ":" + value);
    assert text + value == sep + (Quoted(name) + (":" + value));
  }

  lemma NamesArePlain()
    ensures Escaped("format") == "format" && Escaped("publicKey") == "publicKey"
    ensures Escaped("validFrom") == "validFrom" && Escaped("validTo") == "validTo"
  {
    hide Escaped;
    PlainName("format");
    PlainName("publicKey");
    PlainName("validFrom");
    PlainName("validTo");
  }

  lemma NamesOpen()
    ensures "{\"format\":" == "{" + "\"" + "format" + "\":"
    ensures ",\"publicKey\":" == "," + "\"" + "publicKey" + "\":"
    ensures ",\"validFrom\":" == "," + "\"" + "validFrom" + "\":"
    ensures ",\"validTo\":" == "," + "\"" + "validTo" + "\":"
  {
  }

  lemma JsonSpelledOut(a: PublicKeyAnswer, cal: Calendar)
    ensures Json(a, cal) == "" + "{\"format\":" + Quoted(a.format) + ",\"publicKey\":" + Quoted(a.publicKey)
                            + ",\"validFrom\":" + Rendered(MomentText(a.validFrom, cal))
                            + ",\"validTo\":" + Rendered(MomentText(a.validTo, cal)) + "}"
  {
    hide Quoted, Listed, Texts;
    NamesArePlain();
    NamesOpen();
    SpelledOut(Field("format", Some(a.format)), Field("publicKey", Some(a.publicKey)),
               Field("validFrom", MomentText(a.validFrom, cal)), Field("validTo", MomentText(a.validTo, cal)),
               "{\"format\":", ",\"publicKey\":", ",\"validFrom\":", ",\"validTo\":");
  }

  lemma SpelledOut(f0: Field, f1: Field, f2: Field, f3: Field, t0: string, t1: string, t2: string, t3: string)
    requires Escaped(f0.name) == f0.name && Escaped(f1.name) == f1.name
    requires Escaped(f2.name) == f2.name && Escaped(f3.name) == f3.name
    requires t0 == "{" + "\"" + f0.name + "\":" && t1 == "," + "\"" + f1.name + "\":"
    requires t2 == "," + "\"" + f2.name + "\":" && t3 == "," + "\"" + f3.name + "\":"
    ensures "{" + Listed(Texts([f0, f1, f2, f3]))
         == "" + t0 + Rendered(f0.value) + t1 + Rendered(f1.value) + t2 + Rendered(f2.value) + t3 + Rendered(f3.value) + "}"
  {
    TextsOfFour(f0, f1, f2, f3);
    ListedFour("{", FieldText(f0), FieldText(f1), FieldText(f2), FieldText(f3));
    Opens("", "{", f0.name, Rendered(f0.value), t0);
    assert "" + "{" == "{";
    var p0 := "{" + FieldText(f0);
    Opens(p0, ",", f1.name, Rendered(f1.value), t1);
    var p1 := p0 + "," + FieldText(f1);
    Opens(p1, ",", f2.name, Rendered(f2.value), t2);
    var p2 := p1 + "," + FieldText(f2);
    Opens(p2, ",", f3.name, Rendered(f3.value), t3);
  }

  lemma TextsOfFour(f0: Field, f1: Field, f2: Field, f3: Field)
    ensures Texts([f0, f1, f2, f3]) == [FieldText(f0), FieldText(f1), FieldText(f2), FieldText(f3)]
  {
    assert [f0, f1, f2, f3][1..] == [f1, f2, f3] && [f1, f2, f3][1..] == [f2, f3] && [f2, f3][1..] == [f3];
    assert Texts([f3]) == [FieldText(f3)];
    assert Texts([f2, f3]) == [FieldText(f2), FieldText(f3)];
  }

  lemma {:induction false} PlainName(name: string)
    requires forall i :: 0 <= i < |name| ==> 'A' <= name[i] <= 'z' && name[i] != '\\'
    ensures Escaped(name) == name
  {
    if name != "" {
      PlainName(name[1..]);
    }
  }

  // ---- Reading -----------------------------------------------------------

  function SkipSpace(chars: string, at: nat): (r: nat)
    requires at <= |chars|
    ensures at <= r <= |chars|
    decreases |chars| - at
  {
    if at < |chars| && IsWhitespace(chars[at]) then SkipSpace(chars, at + 1) else at
  }

  // The character the escape at the index stands for, and where it ends.
  // The index is the one after the backslash.
  function ReadEscape(chars: string, at: nat): (r: Option<(char, nat)>)
    requires at < |chars|
    ensures r.Some? ==> at < r.value.1 <= |chars|
  {
    match chars[at]
    case '"' => Some(('"', at + 1))
    case '\\' => Some(('\\', at + 1))
    case '/' => Some(('/', at + 1))
    case 'b' => Some(('\U{8}', at + 1))
    case 'f' => Some(('\U{c}', at + 1))
    case 'n' => Some(('\n', at + 1))
    case 'r' => Some(('\r', at + 1))
    case 't' => Some(('\t', at + 1))
    case 'u' =>
      if at + 5 > |chars| then None
      else
        (match ParseU32(chars[at + 1..at + 5], 16)
         case Some(code) =>
           if code < 0xD800 || 0xE000 <= code < 0x11_0000 then Some((code as char, at + 5)) else None
         case None => None)
    case _ => None
  }

  // The rest of a string whose opening quote has been passed.
  function ReadBody(chars: string, at: nat, value: string): (r: Option<(string, nat)>)
    requires at <= |chars|
    ensures r.Some? ==> at < r.value.1 <= |chars|
    decreases |chars| - at
  {
    if at == |chars| then None
    else if chars[at] == '"' then Some((value, at + 1))
    else if chars[at] != '\\' then ReadBody(chars, at + 1, value + [chars[at]])
    else if at + 1 == |chars| then None
    else
      match ReadEscape(chars, at + 1)
      case Some((c, next)) => ReadBody(chars, next, value + [c])
      case None => None
  }

  function ReadString(chars: string, at: nat): (r: Option<(string, nat)>)
    requires at <= |chars|
    ensures r.Some? ==> at < r.value.1 <= |chars|
  {
    if at < |chars| && chars[at] == '"' then ReadBody(chars, at + 1, "") else None
  }

  predicate NullAt(chars: string, at: nat) {
    at + 4 <= |chars| && chars[at] == 'n' && chars[at + 1] == 'u' && chars[at + 2] == 'l' && chars[at + 3] == 'l'
  }

  function ReadValue(chars: string, at: nat): (r: Option<(Option<string>, nat)>)
    requires at <= |chars|
    ensures r.Some? ==> at < r.value.1 <= |chars|
  {
    if NullAt(chars, at) then Some((None, at + 4))
    else
      match ReadString(chars, at)
      case Some((value, next)) => Some((Some(value), next))
      case None => None
  }

  // One field, and the index of what ends it.
  function ReadField(chars: string, at: nat): (r: Option<(Field, nat)>)
    requires at <= |chars|
    ensures r.Some? ==> at < r.value.1 <= |chars|
  {
    match ReadString(chars, SkipSpace(chars, at))
    case None => None
    case Some((name, next)) =>
      var colon := SkipSpace(chars, next);
      if colon == |chars| || chars[colon] != ':' then None
      else
        match ReadValue(chars, SkipSpace(chars, colon + 1))
        case None => None
        case Some((value, after)) => Some((Field(name, value), SkipSpace(chars, after)))
  }

  // The fields from the index on, added to those already read, and the index
  // after the closing brace.
  function ReadFields(chars: string, at: nat, fields: seq<Field>): (r: Option<(seq<Field>, nat)>)
    requires at <= |chars|
    ensures r.Some? ==> at < r.value.1 <= |chars|
    decreases |chars| - at
  {
    match ReadField(chars, at)
    case None => None
    case Some((field, sep)) =>
      if sep == |chars| then None
      else if chars[sep] == '}' then Some((fields + [field], sep + 1))
      else if chars[sep] == ',' then ReadFields(chars, sep + 1, fields + [field])
      else None
  }

  function ReadFlatObject(chars: string): Result<seq<Field>, Fault> {
    var open := SkipSpace(chars, 0);
    if open == |chars| || chars[open] != '{' then Err(NotJson)
    else
      var first := SkipSpace(chars, open + 1);
      if first < |chars| && chars[first] == '}' then
        if SkipSpace(chars, first + 1) == |chars| then Ok([]) else Err(NotJson)
      else
        match ReadFields(chars, first, [])
        case Some((fields, end)) => if SkipSpace(chars, end) == |chars| then Ok(fields) else Err(NotJson)
        case None => Err(NotJson)
  }

  // The value of the first field of the name, where it has one.
  function FieldValue(fields: seq<Field>, name: string): Option<string> {
    if fields == [] then None
    else if fields[0].name == name then fields[0].value
    else FieldValue(fields[1..], name)
  }

  function ReadMoment(text: Option<string>, field: string, cal: Calendar): Result<Option<int>, Fault> {
    match text
    case None => Ok(None)
    case Some(t) =>
      match cal.read(t)
      case Some(m) => Ok(Some(m))
      case None => Err(NotAMoment(field))
  }

  function Parse(json: string, cal: Calendar): Result<PublicKeyAnswer, Fault> {
    var fields :- ReadFlatObject(json);
    var from :- ReadMoment(FieldValue(fields, "validFrom"), "validFrom", cal);
    var to :- ReadMoment(FieldValue(fields, "validTo"), "validTo", cal);
    var format := FieldValue(fields, "format");
    var key := FieldValue(fields, "publicKey");
    Ok(PublicKeyAnswer(if format.Some? then format.value else SPKI_FORMAT, if key.Some? then key.value else "", from, to))
  }

  // ---- The reader as loops over an index ---------------------------------

  method SkipSpaceFrom(chars: string, start: nat) returns (at: nat)
    requires start <= |chars|
    ensures at == SkipSpace(chars, start)
  {
    at := start;
    while at < |chars| && IsWhitespace(chars[at])
      invariant start <= at <= |chars|
      invariant SkipSpace(chars, at) == SkipSpace(chars, start)
    {
      at := at + 1;
    }
  }

  method ReadStringFrom(chars: string, start: nat) returns (r: Option<(string, nat)>)
    requires start <= |chars|
    ensures r == ReadString(chars, start)
  {
    var at := start;
    if at == |chars| || chars[at] != '"' {
      return None;
    }
    at := at + 1;
    var value := "";
    while at < |chars|
      invariant start < at <= |chars|
      invariant ReadBody(chars, at, value) == ReadString(chars, start)
      decreases |chars| - at
    {
      var c := chars[at];
      at := at + 1;
      if c == '"' {
        return Some((value, at));
      }
      if c != '\\' {
        value := value + [c];
        continue;
      }
      if at == |chars| {
        return None;
      }
      match ReadEscape(chars, at) {
        case None =>
          return None;
        case Some((escaped, next)) =>
          value := value + [escaped];
          at := next;
      }
    }
    return None;
  }

  method ReadFieldFrom(chars: string, start: nat) returns (r: Option<(Field, nat)>)
    requires start <= |chars|
    ensures r == ReadField(chars, start)
  {
    var at := SkipSpaceFrom(chars, start);
    var name := ReadStringFrom(chars, at);
    if name.None? {
      return None;
    }
    at := SkipSpaceFrom(chars, name.value.1);
    if at == |chars| || chars[at] != ':' {
      return None;
    }
    at := SkipSpaceFrom(chars, at + 1);
    var value: Option<string> := None;
    if NullAt(chars, at) {
      at := at + 4;
    } else {
      var read := ReadStringFrom(chars, at);
      if read.None? {
        return None;
      }
      value := Some(read.value.0);
      at := read.value.1;
    }
    at := SkipSpaceFrom(chars, at);
    return Some((Field(name.value.0, value), at));
  }

  method ReadFlatObjectFrom(chars: string) returns (r: Result<seq<Field>, Fault>)
    ensures r == ReadFlatObject(chars)
  {
    hide ReadField, SkipSpace;
    var at := SkipSpaceFrom(chars, 0);
    if at == |chars| || chars[at] != '{' {
      return Err(NotJson);
    }
    at := SkipSpaceFrom(chars, at + 1);
    if at < |chars| && chars[at] == '}' {
      at := SkipSpaceFrom(chars, at + 1);
      return if at == |chars| then Ok([]) else Err(NotJson);
    }
    var fields: seq<Field> := [];
    ghost var whole := ReadFields(chars, at, []);
    while true
      invariant at <= |chars|
      invariant ReadFields(chars, at, fields) == whole
      decreases |chars| - at
    {
      var read := ReadFieldFrom(chars, at);
      if read.None? {
        return Err(NotJson);
      }
      fields := fields + [read.value.0];
      at := read.value.1;
      if at == |chars| {
        return Err(NotJson);
      } else if chars[at] == '}' {
        at := at + 1;
        break;
      } else if chars[at] == ',' {
        at := at + 1;
      } else {
        return Err(NotJson);
      }
    }
    at := SkipSpaceFrom(chars, at);
    return if at == |chars| then Ok(fields) else Err(NotJson);
  }

  // ---- The round trip ----------------------------------------------------

  ghost predicate At(chars: string, at: nat, text: string) {
    && at + |text| <= |chars|
    && forall i :: 0 <= i < |text| ==> chars[at + i] == text[i]
  }

  lemma AtSplit(chars: string, at: nat, a: string, b: string)
    requires At(chars, at, a + b)
    ensures At(chars, at, a) && At(chars, at + |a|, b)
  {
    forall i | 0 <= i < |a|
      ensures chars[at + i] == a[i]
    {
      assert (a + b)[i] == a[i];
    }
    forall i | 0 <= i < |b|
      ensures chars[at + |a| + i] == b[i]
    {
      assert (a + b)[|a| + i] == b[i];
    }
  }

  lemma ReadsUnicodeEscape(chars: string, at: nat, c: char)
    requires c as int < 0x20 && At(chars, at, "u" + Hex(c as int, 4))
    ensures ReadEscape(chars, at) == Some((c, at + 5))
  {
    var n := c as int;
    HexRoundTrip(n, 4);
    AtSplit(chars, at, "u", Hex(n, 4));
    assert chars[at + 0] == "u"[0];
    assert chars[at + 1..at + 5] == Hex(n, 4);
  }

  // The reader undoes one escaped character.
  lemma ReadsEscapedChar(chars: string, at: nat, c: char, value: string)
    requires At(chars, at, EscapedChar(c))
    ensures ReadBody(chars, at, value) == ReadBody(chars, at + |EscapedChar(c)|, value + [c])
  {
    var e := EscapedChar(c);
    assert chars[at + 0] == e[0];
    if |e| == 2 {
      assert chars[at + 1] == e[1];
    } else if |e| > 2 {
      HexRoundTrip(c as int, 4);
      assert e == "\\" + ("u" + Hex(c as int, 4));
      AtSplit(chars, at, "\\", "u" + Hex(c as int, 4));
      ReadsUnicodeEscape(chars, at + 1, c);
    }
  }

  lemma {:induction false} ReadsEscaped(chars: string, at: nat, s: string, value: string)
    requires At(chars, at, Escaped(s) + "\"")
    ensures ReadBody(chars, at, value) == Some((value + s, at + |Escaped(s)| + 1))
    decreases |s|
  {
    hide EscapedChar, ReadEscape;
    if s == "" {
      assert chars[at + 0] == (Escaped(s) + "\"")[0];
      assert value + s == value;
    } else {
      var rest := Escaped(s[1..]) + "\"";
      assert Escaped(s) + "\"" == EscapedChar(s[0]) + rest;
      AtSplit(chars, at, EscapedChar(s[0]), rest);
      ReadsEscapedChar(chars, at, s[0], value);
      ReadsEscaped(chars, at + |EscapedChar(s[0])|, s[1..], value + [s[0]]);
      assert value + [s[0]] + s[1..] == value + s;
    }
  }

  // Reading undoes writing for every string in front of any following text:
  // quotes, backslashes and control characters included.
  lemma ReadStringUndoesWriteString(before: string, value: string, after: string)
    ensures ReadString(before + Quoted(value) + after, |before|) == Some((value, |before| + |Quoted(value)|))
  {
    var chars := before + Quoted(value) + after;
    QuotedAt(chars, |before|, value);
  }

  lemma QuotedAt(chars: string, at: nat, value: string)
    requires At(chars, at, Quoted(value))
    ensures ReadString(chars, at) == Some((value, at + |Quoted(value)|))
    ensures SkipSpace(chars, at) == at
    ensures !NullAt(chars, at)
  {
    assert Quoted(value) == "\"" + (Escaped(value) + "\"");
    AtSplit(chars, at, "\"", Escaped(value) + "\"");
    assert chars[at + 0] == "\""[0];
    ReadsEscaped(chars, at + 1, value, "");
    assert "" + value == value;
  }

  lemma RenderedAt(chars: string, at: nat, value: Option<string>)
    requires At(chars, at, Rendered(value))
    ensures ReadValue(chars, at) == Some((value, at + |Rendered(value)|))
    ensures SkipSpace(chars, at) == at
  {
    if value.Some? {
      QuotedAt(chars, at, value.value);
    } else {
      assert chars[at + 0] == "null"[0] && chars[at + 1] == "null"[1] && chars[at + 2] == "null"[2] && chars[at + 3] == "null"[3];
    }
  }

  lemma CharAt(chars: string, at: nat, c: char)
    requires At(chars, at, [c]) && !IsWhitespace(c)
    ensures at < |chars| && chars[at] == c && SkipSpace(chars, at) == at
  {
    assert chars[at + 0] == [c][0];
  }

  lemma FieldRoundTrip(chars: string, at: nat, field: Field, sep: char)
    requires At(chars, at, FieldText(field) + [sep]) && !IsWhitespace(sep)
    ensures ReadField(chars, at) == Some((field, at + |FieldText(field)|))
    ensures at + |FieldText(field)| < |chars| && chars[at + |FieldText(field)|] == sep
  {
    hide ReadString, ReadValue, SkipSpace, Quoted, Rendered, IsWhitespace;
    AtSplit(chars, at, FieldText(field), [sep]);
    PartsAt(chars, at, Quoted(field.name), Rendered(field.value));
    QuotedAt(chars, at, field.name);
    RenderedAt(chars, at + |Quoted(field.name)| + 1, field.value);
    CharAt(chars, at + |FieldText(field)|, sep);
  }

  lemma PartsAt(chars: string, at: nat, name: string, value: string)
    requires At(chars, at, name + (":" + value))
    ensures At(chars, at, name) && At(chars, at + |name| + 1, value)
    ensures chars[at + |name|] == ':' && SkipSpace(chars, at + |name|) == at + |name|
  {
    AtSplit(chars, at, name, ":" + value);
    AtSplit(chars, at + |name|, ":", value);
    CharAt(chars, at + |name|, ':');
  }

  // Any list of fields that is printed is read back, whatever the names and
  // values hold and whatever follows the object.
  lemma {:induction false} FieldsRoundTrip(chars: string, at: nat, fields: seq<Field>, read: seq<Field>)
    requires fields != [] && At(chars, at, Listed(Texts(fields)))
    ensures ReadFields(chars, at, read) == Some((read + fields, at + |Listed(Texts(fields))|))
    decreases |fields|
  {
    hide ReadFields, FieldText;
    var texts := Texts(fields);
    assert texts[1..] == Texts(fields[1..]);
    if |fields| == 1 {
      LastField(chars, at, fields[0], read);
      assert fields == [fields[0]];
    } else {
      NextField(chars, at, fields[0], Listed(texts[1..]), read);
      FieldsRoundTrip(chars, at + |texts[0]| + 1, fields[1..], read + [fields[0]]);
      assert read + [fields[0]] + fields[1..] == read + fields;
    }
  }

  lemma LastField(chars: string, at: nat, field: Field, read: seq<Field>)
    requires At(chars, at, FieldText(field) + "}")
    ensures ReadFields(chars, at, read) == Some((read + [field], at + |FieldText(field)| + 1))
  {
    hide FieldText, ReadField, SkipSpace;
    FieldRoundTrip(chars, at, field, '}');
  }

  lemma NextField(chars: string, at: nat, field: Field, rest: string, read: seq<Field>)
    requires At(chars, at, FieldText(field) + ("," + rest))
    ensures At(chars, at + |FieldText(field)| + 1, rest)
    ensures ReadFields(chars, at, read) == ReadFields(chars, at + |FieldText(field)| + 1, read + [field])
  {
    hide FieldText, ReadField, SkipSpace;
    assert FieldText(field) + ("," + rest) == FieldText(field) + [','] + rest;
    AtSplit(chars, at, FieldText(field) + [','], rest);
    FieldRoundTrip(chars, at, field, ',');
  }

  // The calendar reads back what it prints for the moment's second.
  ghost predicate ReadsBack(cal: Calendar, moment: Option<int>) {
    moment.Some? ==>
      var second := moment.value / NANOS_PER_SECOND;
      cal.read(cal.show(second)) == Some(second * NANOS_PER_SECOND)
  }

  function CutToSecond(moment: Option<int>): Option<int> {
    if moment.None? then None else Some(moment.value / 1_000_000_000 * 1_000_000_000)
  }

  predicate WholeSecond(moment: Option<int>) {
    moment.Some? ==> moment.value % 1_000_000_000 == 0
  }

  // Whatever the format and the key hold, the answer read back is the answer
  // printed with its moments cut to the second, so it is the same answer
  // exactly when the moments are whole seconds.
  lemma JsonRoundTrip(a: PublicKeyAnswer, cal: Calendar)
    requires ReadsBack(cal, a.validFrom) && ReadsBack(cal, a.validTo)
    ensures Parse(Json(a, cal), cal) == Ok(a.(validFrom := CutToSecond(a.validFrom), validTo := CutToSecond(a.validTo)))
    ensures Parse(Json(a, cal), cal) == Ok(a) <==> WholeSecond(a.validFrom) && WholeSecond(a.validTo)
  {
    hide ReadFlatObject, Parse, FieldsOf, Listed, Texts, CutToSecond, WholeSecond;
    assert FieldsOf(a, cal) != [] by {
      FieldsOfSome(a, cal);
    }
    ObjectRoundTrip(FieldsOf(a, cal));
    ParseOfFields(Json(a, cal), a, cal);
    CutKeepsWholeSeconds(a.validFrom);
    CutKeepsWholeSeconds(a.validTo);
  }

  lemma FieldsOfSome(a: PublicKeyAnswer, cal: Calendar)
    ensures FieldsOf(a, cal) != []
  {
  }

  lemma CutKeepsWholeSeconds(moment: Option<int>)
    ensures CutToSecond(moment) == moment <==> WholeSecond(moment)
  {
  }

  lemma ParseOfFields(json: string, a: PublicKeyAnswer, cal: Calendar)
    requires ReadsBack(cal, a.validFrom) && ReadsBack(cal, a.validTo)
    requires ReadFlatObject(json) == Ok(FieldsOf(a, cal))
    ensures Parse(json, cal) == Ok(a.(validFrom := CutToSecond(a.validFrom), validTo := CutToSecond(a.validTo)))
  {
    var f := FieldsOf(a, cal);
    FourFields(f[0], f[1], f[2], f[3]);
  }

  // Every printed object reads back as the list of fields it was printed
  // from.
  lemma ObjectRoundTrip(fields: seq<Field>)
    requires fields != []
    ensures ReadFlatObject("{" + Listed(Texts(fields))) == Ok(fields)
  {
    var list := Listed(Texts(fields));
    assert list[0] == '"';
    ObjectAt("{" + list, list, fields);
  }

  lemma ObjectAt(json: string, list: string, fields: seq<Field>)
    requires fields != [] && list == Listed(Texts(fields)) && |list| > 0 && list[0] == '"'
    requires json == "{" + list
    ensures ReadFlatObject(json) == Ok(fields)
  {
    hide ReadFields, Listed, Texts;
    assert json[1] == '"' && At(json, 0, "{") && At(json, 1, "\"") && At(json, 1, list);
    CharAt(json, 0, '{');
    CharAt(json, 1, '"');
    FieldsRoundTrip(json, 1, fields, []);
    assert [] + fields == fields;
  }

  // An object need not have the four fields, nor only those. Of any printed
  // object the answer is read from the first field of each name, and it is
  // refused exactly where one of the two moments is a text that is not one.
  lemma AnyObjectIsRead(fields: seq<Field>, cal: Calendar)
    requires fields != []
    ensures var from, to := FieldValue(fields, "validFrom"), FieldValue(fields, "validTo");
            var r := Parse("{" + Listed(Texts(fields)), cal);
            && (r.Ok? <==> (from.Some? ==> cal.read(from.value).Some?) && (to.Some? ==> cal.read(to.value).Some?))
            && (r.Ok? ==>
                  && r.value.validFrom == (if from.Some? then cal.read(from.value) else None)
                  && r.value.validTo == (if to.Some? then cal.read(to.value) else None)
                  && r.value.format == (var f := FieldValue(fields, "format"); if f.Some? then f.value else SPKI_FORMAT)
                  && r.value.publicKey == (var k := FieldValue(fields, "publicKey"); if k.Some? then k.value else ""))
  {
    hide ReadFlatObject, FieldValue, Listed, Texts;
    ObjectRoundTrip(fields);
  }

  lemma EmptyObjectIsRead(cal: Calendar)
    ensures Parse("{}", cal) == Ok(PublicKeyAnswer(SPKI_FORMAT, "", None, None))
  {
    assert SkipSpace("{}", 0) == 0 && SkipSpace("{}", 1) == 1;
  }

  lemma {:induction false} FieldsFrom(fields: seq<Field>, name: string, i: nat)
    requires i < |fields| && fields[i].name == name && forall j :: 0 <= j < i ==> fields[j].name != name
    ensures FieldValue(fields, name) == fields[i].value
  {
    if i > 0 {
      FieldsFrom(fields[1..], name, i - 1);
    }
  }

  lemma FourFields(f0: Field, f1: Field, f2: Field, f3: Field)
    requires f0.name == "format" && f1.name == "publicKey" && f2.name == "validFrom" && f3.name == "validTo"
    ensures var f := [f0, f1, f2, f3];
            && FieldValue(f, "format") == f0.value && FieldValue(f, "publicKey") == f1.value
            && FieldValue(f, "validFrom") == f2.value && FieldValue(f, "validTo") == f3.value
  {
    var f := [f0, f1, f2, f3];
    assert "format"[0] == 'f' && "publicKey"[0] == 'p' && "validFrom"[0] == 'v' && "validTo"[0] == 'v';
    assert "validFrom"[5] == 'F' && "validTo"[5] == 'T';
    FieldsFrom(f, "format", 0);
    FieldsFrom(f, "publicKey", 1);
    FieldsFrom(f, "validFrom", 2);
    FieldsFrom(f, "validTo", 3);
  }

  lemma {:induction false} SkipSpaceSkips(chars: string, at: nat, to: nat)
    requires at <= to <= |chars| && (forall i :: at <= i < to ==> IsWhitespace(chars[i]))
    ensures SkipSpace(chars, at) == SkipSpace(chars, to)
    decreases |chars| - at
  {
    if at < to {
      SkipSpaceSkips(chars, at + 1, to);
    }
  }
}
