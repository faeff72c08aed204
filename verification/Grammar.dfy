// The JSON the key answer's reader takes, written as a grammar of texts that
// knows nothing of indexes, and the proof that the reader takes exactly that.
// It is the grammar of section 7 of RFC 8259 for strings, with three things
// more that the reader lets through: control characters standing for
// themselves, a plus for the first of four hexadecimal digits, and the white
// space of Unicode.
module Grammar {
  import opened Wrappers
  import opened Numbers
  import opened KeyAnswer

  // ---- Strings -----------------------------------------------------------

  // What a character after a backslash stands for.
  predicate StandsFor(mark: char, c: char) {
    || (mark == '"' && c == '"') || (mark == '\\' && c == '\\') || (mark == '/' && c == '/')
    || (mark == 'b' && c as int == 8) || (mark == 'f' && c as int == 12) || (mark == 'n' && c as int == 10)
    || (mark == 'r' && c as int == 13) || (mark == 't' && c as int == 9)
  }

  // Every way to write a character: itself, but for the quote and the
  // backslash, a backslash and a mark, or a backslash, a u and its code.
  ghost predicate SpellsChar(t: string, c: char) {
    || (t == [c] && c != '"' && c != '\\')
    || (|t| == 2 && t[0] == '\\' && StandsFor(t[1], c))
    || (|t| == 6 && t[0] == '\\' && t[1] == 'u' && IsHexCode(t[2..], c as int))
  }

  ghost predicate SpellsText(t: string, value: string)
    decreases |value|
  {
    if value == "" then t == ""
    else exists i :: 0 < i <= |t| && SpellsChar(t[..i], value[0]) && SpellsText(t[i..], value[1..])
  }

  lemma MarkIsRead(chars: string, at: nat, mark: char, c: char)
    requires at < |chars| && chars[at] == mark && mark != 'u'
    ensures ReadEscape(chars, at) == Some((c, at + 1)) <==> StandsFor(mark, c)
    ensures ReadEscape(chars, at).Some? ==> StandsFor(mark, ReadEscape(chars, at).value.0) && ReadEscape(chars, at).value.1 == at + 1
  {
  }

  lemma CodeIsRead(chars: string, at: nat, c: char)
    requires at + 5 <= |chars| && chars[at] == 'u'
    ensures ReadEscape(chars, at) == Some((c, at + 5)) <==> IsHexCode(chars[at + 1..at + 5], c as int)
  {
    hide ParseU32, IsHexCode;
    FourHexAreRead(chars[at + 1..at + 5], c as int);
    if ParseU32(chars[at + 1..at + 5], 16) == Some(c as int) {
      assert (c as int) as char == c;
    }
  }

  lemma ReadsSpelledChar(chars: string, at: nat, t: string, c: char, value: string)
    requires At(chars, at, t) && SpellsChar(t, c)
    ensures ReadBody(chars, at, value) == ReadBody(chars, at + |t|, value + [c])
  {
    hide ReadEscape, IsHexCode;
    assert chars[at + 0] == t[0];
    if |t| == 2 {
      assert chars[at + 1] == t[1];
      MarkIsRead(chars, at + 1, t[1], c);
    } else if |t| == 6 {
      assert chars[at + 1] == t[1];
      forall i | 0 <= i < 4
        ensures chars[at + 2..at + 6][i] == t[2..][i]
      {
        assert chars[at + (i + 2)] == t[i + 2];
      }
      assert chars[at + 2..at + 6] == t[2..];
      CodeIsRead(chars, at + 1, c);
    }
  }

  lemma {:induction false} ReadsSpelled(chars: string, at: nat, t: string, value: string, read: string)
    requires At(chars, at, t + "\"") && SpellsText(t, value)
    ensures ReadBody(chars, at, read) == Some((read + value, at + |t| + 1))
    decreases |value|
  {
    hide SpellsChar, ReadEscape;
    if value == "" {
      assert chars[at + 0] == (t + "\"")[0];
      assert read + value == read;
    } else {
      var i :| 0 < i <= |t| && SpellsChar(t[..i], value[0]) && SpellsText(t[i..], value[1..]);
      assert t + "\"" == t[..i] + (t[i..] + "\"");
      AtSplit(chars, at, t[..i], t[i..] + "\"");
      ReadsSpelledChar(chars, at, t[..i], value[0], read);
      ReadsSpelled(chars, at + i, t[i..], value[1..], read + [value[0]]);
      assert read + [value[0]] + value[1..] == read + value;
    }
  }

  // One character of a string that is read was spelled.
  lemma CharWasSpelled(chars: string, at: nat, next: nat, c: char)
    requires at < next <= |chars| && chars[at] != '"'
    requires if chars[at] != '\\' then next == at + 1 && c == chars[at]
             else at + 1 < |chars| && ReadEscape(chars, at + 1) == Some((c, next))
    ensures SpellsChar(chars[at..next], c)
  {
    hide ReadEscape, IsHexCode;
    var t := chars[at..next];
    if chars[at] == '\\' {
      if chars[at + 1] == 'u' {
        CodeHasFour(chars, at + 1);
        CodeIsRead(chars, at + 1, c);
        assert t[2..] == chars[at + 2..at + 6];
      } else {
        MarkIsRead(chars, at + 1, chars[at + 1], c);
      }
    }
  }

  lemma CodeHasFour(chars: string, at: nat)
    requires at < |chars| && chars[at] == 'u' && ReadEscape(chars, at).Some?
    ensures at + 5 <= |chars| && ReadEscape(chars, at).value.1 == at + 5
  {
    hide ParseU32;
  }

  lemma {:induction false} BodyWasSpelled(chars: string, at: nat, read: string) returns (t: string, value: string)
    requires at <= |chars| && ReadBody(chars, at, read).Some?
    ensures SpellsText(t, value) && At(chars, at, t + "\"")
    ensures ReadBody(chars, at, read) == Some((read + value, at + |t| + 1))
    decreases |chars| - at
  {
    hide SpellsChar, ReadEscape;
    if chars[at] == '"' {
      t, value := "", "";
      assert "" + "\"" == "\"" && read + "" == read;
    } else {
      var c, next;
      if chars[at] != '\\' {
        c, next := chars[at], at + 1;
      } else {
        c, next := ReadEscape(chars, at + 1).value.0, ReadEscape(chars, at + 1).value.1;
      }
      CharWasSpelled(chars, at, next, c);
      var rest, more := BodyWasSpelled(chars, next, read + [c]);
      t, value := chars[at..next] + rest, [c] + more;
      Prepended(chars, at, next, rest);
      assert t[..next - at] == chars[at..next] && t[next - at..] == rest && value[1..] == more;
      assert read + [c] + more == read + value;
    }
  }

  lemma Prepended(chars: string, at: nat, next: nat, rest: string)
    requires at <= next <= |chars| && At(chars, next, rest + "\"")
    ensures At(chars, at, chars[at..next] + rest + "\"")
  {
    var t := chars[at..next] + rest + "\"";
    forall i | 0 <= i < |t|
      ensures chars[at + i] == t[i]
    {
      if i >= next - at {
        assert chars[next + (i - (next - at))] == (rest + "\"")[i - (next - at)];
      }
    }
  }

  // A string is read at an index, as a value and up to an index, exactly where
  // a quoted spelling of the value stands there and ends there.
  lemma StringIsReadWhereSpelled(chars: string, at: nat, value: string, end: nat)
    requires at <= |chars|
    ensures ReadString(chars, at) == Some((value, end)) <==>
            exists t :: SpellsText(t, value) && At(chars, at, "\"" + (t + "\"")) && end == at + |t| + 2
  {
    hide ReadBody, SpellsText;
    if ReadString(chars, at) == Some((value, end)) {
      var t, v := BodyWasSpelled(chars, at + 1, "");
      assert "" + v == v;
      Quote(chars, at, t);
    }
    forall t | SpellsText(t, value) && At(chars, at, "\"" + (t + "\"")) && end == at + |t| + 2
      ensures ReadString(chars, at) == Some((value, end))
    {
      AtSplit(chars, at, "\"", t + "\"");
      assert chars[at + 0] == "\""[0];
      ReadsSpelled(chars, at + 1, t, value, "");
      assert "" + value == value;
    }
  }

  lemma Quote(chars: string, at: nat, t: string)
    requires at < |chars| && chars[at] == '"' && At(chars, at + 1, t + "\"")
    ensures At(chars, at, "\"" + (t + "\""))
  {
    var q := "\"" + (t + "\"");
    forall i | 0 <= i < |q|
      ensures chars[at + i] == q[i]
    {
      if i > 0 {
        assert chars[at + 1 + (i - 1)] == (t + "\"")[i - 1];
      }
    }
  }

  // The printer writes one of the spellings, and none with the reader's
  // liberties: no control character and no plus.
  lemma {:induction false} WrittenIsSpelled(value: string)
    ensures SpellsText(Escaped(value), value)
  {
    hide EscapedChar, SpellsChar;
    if value != "" {
      var t := Escaped(value);
      var i := |EscapedChar(value[0])|;
      WrittenIsSpelledChar(value[0]);
      WrittenIsSpelled(value[1..]);
      assert t[..i] == EscapedChar(value[0]) && t[i..] == Escaped(value[1..]);
    }
  }

  lemma WrittenIsSpelledChar(c: char)
    ensures EscapedChar(c) != "" && SpellsChar(EscapedChar(c), c)
  {
    hide IsHexCode, Hex;
    var e := EscapedChar(c);
    if c as int < 0x20 && c != '\n' && c != '\r' && c != '\t' {
      HexRoundTrip(c as int, 4);
      FourHexAreRead(Hex(c as int, 4), c as int);
      assert e[2..] == Hex(c as int, 4);
    }
  }

  const LOWER := "0123456789abcdef"

  // Of the spellings it writes the mark, where the character has one but for
  // the solidus, the backspace and the form feed, the code in lower case of
  // every other control character, and the character itself otherwise.
  lemma WrittenAs(c: char)
    ensures c in "\"\\\n\r\t" ==> exists mark :: EscapedChar(c) == ['\\', mark] && StandsFor(mark, c) && mark != 'u'
    ensures c as int < 0x20 && c !in "\n\r\t" ==> EscapedChar(c) == "\\u00" + [LOWER[c as int / 16], LOWER[c as int % 16]]
    ensures c as int >= 0x20 && c != '"' && c != '\\' ==> EscapedChar(c) == [c]
  {
    if c in "\"\\\n\r\t" {
      var mark := EscapedChar(c)[1];
      assert EscapedChar(c) == ['\\', mark] && StandsFor(mark, c);
    } else if c as int < 0x20 {
      LowIsWritten(c as int);
    }
  }

  lemma LowIsWritten(n: nat)
    requires n < 0x20
    ensures Hex(n, 4) == "00" + [LOWER[n / 16], LOWER[n % 16]]
  {
    assert Hex(n, 4) == Hex(n / 16, 3) + [DigitChar(n % 16)];
    assert Hex(n / 16, 3) == Hex(0, 2) + [DigitChar(n / 16)];
    assert Hex(0, 2) == Hex(0, 1) + ['0'] && Hex(0, 1) == Hex(0, 0) + ['0'];
    DigitIsLower(n % 16);
    DigitIsLower(n / 16);
  }

  lemma DigitIsLower(d: nat)
    requires d < 16
    ensures DigitChar(d) == LOWER[d]
  {
    if d >= 10 {
      assert LOWER[10] == 'a' && LOWER[11] == 'b' && LOWER[12] == 'c' && LOWER[13] == 'd' && LOWER[14] == 'e' && LOWER[15] == 'f';
    }
  }

  // ---- Objects -----------------------------------------------------------

  predicate Space(t: string) {
    forall i :: 0 <= i < |t| ==> IsWhitespace(t[i])
  }

  // The white space of JSON is among it, and no character that is seen is.
  lemma JsonSpaceIsSpace(c: char)
    ensures c as int == 0x20 || c as int == 0x09 || c as int == 0x0A || c as int == 0x0D ==> IsWhitespace(c)
    ensures 0x21 <= c as int <= 0x7E ==> !IsWhitespace(c)
  {
  }

  ghost predicate SpellsString(t: string, value: string) {
    exists u :: SpellsText(u, value) && t == "\"" + (u + "\"")
  }

  ghost predicate SpellsValue(t: string, value: Option<string>) {
    if value.None? then t == "null" else SpellsString(t, value.value)
  }

  // A name, a colon and a value, with white space around each.
  ghost predicate SpellsField(t: string, field: Field) {
    exists s0, n, s1, s2, v, s3 ::
      && Space(s0) && SpellsString(n, field.name) && Space(s1) && Space(s2) && SpellsValue(v, field.value) && Space(s3)
      && t == s0 + (n + (s1 + (":" + (s2 + (v + s3)))))
  }

  // Fields with commas between them.
  ghost predicate SpellsFields(t: string, fields: seq<Field>)
    decreases |fields|
  {
    if |fields| == 0 then false
    else if |fields| == 1 then SpellsField(t, fields[0])
    else exists i :: 0 <= i < |t| && t[i] == ',' && SpellsField(t[..i], fields[0]) && SpellsFields(t[i + 1..], fields[1..])
  }

  ghost predicate SpellsObject(t: string, fields: seq<Field>) {
    exists s0, m, s1 ::
      && Space(s0) && Space(s1) && t == s0 + ("{" + (m + ("}" + s1)))
      && (if fields == [] then Space(m) else SpellsFields(m, fields))
  }

  // ---- What is spelled is read -------------------------------------------

  lemma SpaceIsSkipped(chars: string, at: nat, s: string)
    requires At(chars, at, s) && Space(s) && (at + |s| < |chars| ==> !IsWhitespace(chars[at + |s|]))
    ensures SkipSpace(chars, at) == at + |s|
  {
    forall i | at <= i < at + |s|
      ensures IsWhitespace(chars[i])
    {
      assert chars[at + (i - at)] == s[i - at];
    }
    SkipSpaceSkips(chars, at, at + |s|);
  }

  lemma SpelledStringIsRead(chars: string, at: nat, t: string, value: string)
    requires At(chars, at, t) && SpellsString(t, value)
    ensures ReadString(chars, at) == Some((value, at + |t|)) && at < |chars| && chars[at] == '"'
  {
    hide SpellsText, ReadString;
    var u :| SpellsText(u, value) && t == "\"" + (u + "\"");
    StringIsReadWhereSpelled(chars, at, value, at + |t|);
    assert chars[at + 0] == t[0];
  }

  lemma SpelledValueIsRead(chars: string, at: nat, t: string, value: Option<string>)
    requires At(chars, at, t) && SpellsValue(t, value)
    ensures ReadValue(chars, at) == Some((value, at + |t|)) && at < |chars| && !IsWhitespace(chars[at])
  {
    hide ReadString, SpellsString;
    if value.None? {
      assert chars[at + 0] == t[0] && chars[at + 1] == t[1] && chars[at + 2] == t[2] && chars[at + 3] == t[3];
    } else {
      SpelledStringIsRead(chars, at, t, value.value);
    }
  }

  // Where the parts of a field stand.
  lemma FieldParts(chars: string, at: nat, s0: string, n: string, s1: string, s2: string, v: string, s3: string)
    requires At(chars, at, s0 + (n + (s1 + (":" + (s2 + (v + s3))))))
    ensures var p1 := at + |s0|;
            var p2 := p1 + |n|;
            var p3 := p2 + |s1|;
            var p4 := p3 + 1 + |s2|;
            && At(chars, at, s0) && At(chars, p1, n) && At(chars, p2, s1) && At(chars, p3, ":")
            && At(chars, p3 + 1, s2) && At(chars, p4, v) && At(chars, p4 + |v|, s3)
  {
    hide At;
    var p1 := at + |s0|;
    var p2 := p1 + |n|;
    var p3 := p2 + |s1|;
    AtSplit(chars, at, s0, n + (s1 + (":" + (s2 + (v + s3)))));
    AtSplit(chars, p1, n, s1 + (":" + (s2 + (v + s3))));
    AtSplit(chars, p2, s1, ":" + (s2 + (v + s3)));
    AtSplit(chars, p3, ":", s2 + (v + s3));
    AtSplit(chars, p3 + 1, s2, v + s3);
    AtSplit(chars, p3 + 1 + |s2|, v, s3);
  }

  lemma PartsAreRead(chars: string, at: nat, field: Field, s0: string, n: string, s1: string, s2: string, v: string, s3: string)
    requires Space(s0) && SpellsString(n, field.name) && Space(s1) && Space(s2) && SpellsValue(v, field.value) && Space(s3)
    requires At(chars, at, s0 + (n + (s1 + (":" + (s2 + (v + s3))))))
    requires var end := at + |s0| + |n| + |s1| + 1 + |s2| + |v| + |s3|; end < |chars| && !IsWhitespace(chars[end])
    ensures ReadField(chars, at) == Some((field, at + |s0| + |n| + |s1| + 1 + |s2| + |v| + |s3|))
    ensures SkipSpace(chars, at) < |chars| && chars[SkipSpace(chars, at)] == '"'
  {
    hide At, ReadString, ReadValue, SkipSpace, SpellsString, SpellsValue, IsWhitespace, Space;
    FieldParts(chars, at, s0, n, s1, s2, v, s3);
    var p1 := at + |s0|;
    var p2 := p1 + |n|;
    var p3 := p2 + |s1|;
    var p4 := p3 + 1 + |s2|;
    JsonSpaceIsSpace('"');
    JsonSpaceIsSpace(':');
    SpelledStringIsRead(chars, p1, n, field.name);
    SpelledValueIsRead(chars, p4, v, field.value);
    CharAt(chars, p3, ':');
    SpaceIsSkipped(chars, at, s0);
    SpaceIsSkipped(chars, p2, s1);
    SpaceIsSkipped(chars, p3 + 1, s2);
    SpaceIsSkipped(chars, p4 + |v|, s3);
  }

  lemma SpelledFieldIsRead(chars: string, at: nat, t: string, field: Field)
    requires At(chars, at, t) && at + |t| < |chars| && !IsWhitespace(chars[at + |t|]) && SpellsField(t, field)
    ensures ReadField(chars, at) == Some((field, at + |t|))
    ensures SkipSpace(chars, at) < |chars| && chars[SkipSpace(chars, at)] == '"'
  {
    hide At, ReadField, SkipSpace, SpellsString, SpellsValue, IsWhitespace, Space;
    var s0, n, s1, s2, v, s3 :|
      && Space(s0) && SpellsString(n, field.name) && Space(s1) && Space(s2) && SpellsValue(v, field.value) && Space(s3)
      && t == s0 + (n + (s1 + (":" + (s2 + (v + s3)))));
    PartsAreRead(chars, at, field, s0, n, s1, s2, v, s3);
  }

  lemma CommaParts(chars: string, at: nat, t: string, i: nat)
    requires At(chars, at, t + "}") && i < |t| && t[i] == ','
    ensures At(chars, at, t[..i]) && At(chars, at + i + 1, t[i + 1..] + "}")
    ensures at + i < |chars| && chars[at + i] == ',' && !IsWhitespace(',')
  {
    hide At, IsWhitespace;
    assert t + "}" == t[..i] + ("," + (t[i + 1..] + "}"));
    AtSplit(chars, at, t[..i], "," + (t[i + 1..] + "}"));
    AtSplit(chars, at + i, ",", t[i + 1..] + "}");
    JsonSpaceIsSpace(',');
    CharAt(chars, at + i, ',');
  }

  lemma {:induction false} SpelledFieldsAreRead(chars: string, at: nat, t: string, fields: seq<Field>, read: seq<Field>)
    requires At(chars, at, t + "}") && SpellsFields(t, fields)
    ensures ReadFields(chars, at, read) == Some((read + fields, at + |t| + 1))
    ensures SkipSpace(chars, at) < |chars| && chars[SkipSpace(chars, at)] == '"'
    decreases |fields|
  {
    hide At, ReadField, SpellsField, SkipSpace, IsWhitespace;
    AtSplit(chars, at, t, "}");
    JsonSpaceIsSpace('}');
    JsonSpaceIsSpace(',');
    CharAt(chars, at + |t|, '}');
    if |fields| == 1 {
      SpelledFieldIsRead(chars, at, t, fields[0]);
      assert fields == [fields[0]];
    } else {
      var i :| 0 <= i < |t| && t[i] == ',' && SpellsField(t[..i], fields[0]) && SpellsFields(t[i + 1..], fields[1..]);
      CommaParts(chars, at, t, i);
      SpelledFieldIsRead(chars, at, t[..i], fields[0]);
      SpelledFieldsAreRead(chars, at + i + 1, t[i + 1..], fields[1..], read + [fields[0]]);
      assert read + [fields[0]] + fields[1..] == read + fields;
    }
  }

  lemma ReadFieldsSkips(chars: string, at: nat, read: seq<Field>)
    requires at <= |chars|
    ensures ReadFields(chars, SkipSpace(chars, at), read) == ReadFields(chars, at, read)
  {
    hide ReadField, SkipSpace;
    ReadFieldSkips(chars, at);
  }

  lemma ReadFieldSkips(chars: string, at: nat)
    requires at <= |chars|
    ensures ReadField(chars, SkipSpace(chars, at)) == ReadField(chars, at)
  {
    hide SkipSpace, ReadString, ReadValue;
    SkippedIsSkipped(chars, at);
  }

  lemma {:induction false} SkippedIsSkipped(chars: string, at: nat)
    requires at <= |chars|
    ensures SkipSpace(chars, SkipSpace(chars, at)) == SkipSpace(chars, at)
    ensures forall i :: at <= i < SkipSpace(chars, at) ==> IsWhitespace(chars[i])
    ensures SkipSpace(chars, at) < |chars| ==> !IsWhitespace(chars[SkipSpace(chars, at)])
    decreases |chars| - at
  {
    if at < |chars| && IsWhitespace(chars[at]) {
      SkippedIsSkipped(chars, at + 1);
    }
  }

  // Where the parts of an object stand.
  lemma ObjectParts(s0: string, m: string, s1: string)
    ensures var t := s0 + ("{" + (m + ("}" + s1)));
            var close := |s0| + 1 + |m|;
            && At(t, 0, s0) && At(t, |s0|, "{") && At(t, |s0| + 1, m + "}") && At(t, |s0| + 1, m) && At(t, close, "}") && At(t, close + 1, s1)
            && |t| == close + 1 + |s1|
  {
    hide At;
    var t := s0 + ("{" + (m + ("}" + s1)));
    assert At(t, 0, t) by {
      AtWhole(t);
    }
    AtSplit(t, 0, s0, "{" + (m + ("}" + s1)));
    AtSplit(t, |s0|, "{", m + ("}" + s1));
    Associates(m, "}", s1);
    AtSplit(t, |s0| + 1, m + "}", s1);
    AtSplit(t, |s0| + 1, m, "}");
  }

  lemma Associates(a: string, b: string, c: string)
    ensures a + (b + c) == a + b + c
  {
  }

  lemma AtWhole(t: string)
    ensures At(t, 0, t)
  {
  }

  lemma SpelledObjectIsRead(t: string, fields: seq<Field>)
    requires SpellsObject(t, fields)
    ensures ReadFlatObject(t) == Ok(fields)
  {
    hide At, ReadFields, SpellsFields, SkipSpace, IsWhitespace, Space;
    var s0, m, s1 :|
      && Space(s0) && Space(s1) && t == s0 + ("{" + (m + ("}" + s1)))
      && (if fields == [] then Space(m) else SpellsFields(m, fields));
    ObjectParts(s0, m, s1);
    var close := |s0| + 1 + |m|;
    JsonSpaceIsSpace('{');
    JsonSpaceIsSpace('}');
    CharAt(t, |s0|, '{');
    CharAt(t, close, '}');
    SpaceIsSkipped(t, 0, s0);
    SpaceIsSkipped(t, close + 1, s1);
    if fields == [] {
      SpaceIsSkipped(t, |s0| + 1, m);
    } else {
      SpelledFieldsAreRead(t, |s0| + 1, m, fields, []);
      ReadFieldsSkips(t, |s0| + 1, []);
      assert [] + fields == fields;
    }
  }

  // ---- What is read was spelled ------------------------------------------

  lemma SkippedWasSpace(chars: string, at: nat)
    requires at <= |chars|
    ensures Space(chars[at..SkipSpace(chars, at)])
  {
    SkippedIsSkipped(chars, at);
  }

  lemma StringWasSpelled(chars: string, at: nat)
    requires at <= |chars| && ReadString(chars, at).Some?
    ensures SpellsString(chars[at..ReadString(chars, at).value.1], ReadString(chars, at).value.0)
  {
    hide SpellsText, ReadString;
    var (value, end) := ReadString(chars, at).value;
    StringIsReadWhereSpelled(chars, at, value, end);
    var t :| SpellsText(t, value) && At(chars, at, "\"" + (t + "\"")) && end == at + |t| + 2;
    assert chars[at..end] == "\"" + (t + "\"");
  }

  lemma ValueWasSpelled(chars: string, at: nat)
    requires at <= |chars| && ReadValue(chars, at).Some?
    ensures SpellsValue(chars[at..ReadValue(chars, at).value.1], ReadValue(chars, at).value.0)
  {
    hide SpellsString, ReadString;
    if NullAt(chars, at) {
      assert chars[at..at + 4] == "null";
    } else {
      StringWasSpelled(chars, at);
    }
  }

  lemma FieldWasSpelled(chars: string, at: nat)
    requires at <= |chars| && ReadField(chars, at).Some?
    ensures SpellsField(chars[at..ReadField(chars, at).value.1], ReadField(chars, at).value.0)
  {
    hide ReadString, ReadValue, SkipSpace, SpellsString, SpellsValue, Space;
    var (field, end) := ReadField(chars, at).value;
    var p1 := SkipSpace(chars, at);
    var p2 := ReadString(chars, p1).value.1;
    var p3 := SkipSpace(chars, p2);
    var p4 := SkipSpace(chars, p3 + 1);
    var p5 := ReadValue(chars, p4).value.1;
    SkippedWasSpace(chars, at);
    SkippedWasSpace(chars, p2);
    SkippedWasSpace(chars, p3 + 1);
    SkippedWasSpace(chars, p5);
    StringWasSpelled(chars, p1);
    ValueWasSpelled(chars, p4);
    assert chars[p3..p3 + 1] == ":";
    var s0, n, s1, s2, v, s3 := chars[at..p1], chars[p1..p2], chars[p2..p3], chars[p3 + 1..p4], chars[p4..p5], chars[p5..end];
    assert chars[at..end] == s0 + (n + (s1 + (":" + (s2 + (v + s3))))) by {
      assert chars[p4..end] == v + s3;
      assert chars[p3 + 1..end] == s2 + (v + s3);
      assert chars[p3..end] == ":" + (s2 + (v + s3));
      assert chars[p2..end] == s1 + (":" + (s2 + (v + s3)));
      assert chars[p1..end] == n + (s1 + (":" + (s2 + (v + s3))));
    }
  }

  lemma {:induction false} FieldsWereSpelled(chars: string, at: nat, read: seq<Field>) returns (fields: seq<Field>)
    requires at <= |chars| && ReadFields(chars, at, read).Some?
    ensures var end := ReadFields(chars, at, read).value.1;
            && ReadFields(chars, at, read) == Some((read + fields, end)) && fields != []
            && at < end && chars[end - 1] == '}' && SpellsFields(chars[at..end - 1], fields)
    decreases |chars| - at
  {
    hide ReadField, SpellsField;
    var (field, sep) := ReadField(chars, at).value;
    FieldWasSpelled(chars, at);
    if chars[sep] == '}' {
      fields := [field];
    } else {
      var rest := FieldsWereSpelled(chars, sep + 1, read + [field]);
      fields := [field] + rest;
      assert read + [field] + rest == read + fields;
      var end := ReadFields(chars, at, read).value.1;
      Parted(chars, at, sep, end - 1);
      assert fields[1..] == rest;
    }
  }

  lemma Parted(chars: string, at: nat, sep: nat, end: nat)
    requires at <= sep < end <= |chars|
    ensures var t := chars[at..end];
            t[sep - at] == chars[sep] && t[..sep - at] == chars[at..sep] && t[sep - at + 1..] == chars[sep + 1..end]
  {
  }

  lemma Rejoined(t: string, open: nat, close: nat)
    requires open < close < |t| && t[open] == '{' && t[close] == '}'
    ensures t == t[..open] + ("{" + (t[open + 1..close] + ("}" + t[close + 1..])))
  {
    assert t[close..] == "}" + t[close + 1..];
    assert t[open + 1..] == t[open + 1..close] + t[close..];
    assert t[open..] == "{" + t[open + 1..];
  }

  lemma MakesAnObject(t: string, open: nat, close: nat, fields: seq<Field>)
    requires open < close < |t| && t[open] == '{' && t[close] == '}' && Space(t[..open]) && Space(t[close + 1..])
    requires if fields == [] then Space(t[open + 1..close]) else SpellsFields(t[open + 1..close], fields)
    ensures SpellsObject(t, fields)
  {
    hide SpellsFields, Space;
    Rejoined(t, open, close);
  }

  lemma ObjectWasSpelled(t: string)
    requires ReadFlatObject(t).Ok?
    ensures SpellsObject(t, ReadFlatObject(t).value)
  {
    hide ReadFields, SpellsFields, SpellsObject, SkipSpace, Space;
    var open := SkipSpace(t, 0);
    var first := SkipSpace(t, open + 1);
    SkippedWasSpace(t, 0);
    SkippedWasSpace(t, open + 1);
    var close;
    if first < |t| && t[first] == '}' {
      close := first;
    } else {
      ReadFieldsSkips(t, open + 1, []);
      var all := FieldsWereSpelled(t, open + 1, []);
      assert [] + all == all;
      close := ReadFields(t, open + 1, []).value.1 - 1;
    }
    SkippedWasSpace(t, close + 1);
    assert t[0..open] == t[..open] && t[close + 1..|t|] == t[close + 1..];
    MakesAnObject(t, open, close, ReadFlatObject(t).value);
  }

  // A text is read as an object of fields exactly where it spells one.
  lemma ObjectIsReadWhereSpelled(t: string, fields: seq<Field>)
    ensures ReadFlatObject(t) == Ok(fields) <==> SpellsObject(t, fields)
  {
    hide ReadFlatObject, SpellsObject;
    if ReadFlatObject(t) == Ok(fields) {
      ObjectWasSpelled(t);
    }
    if SpellsObject(t, fields) {
      SpelledObjectIsRead(t, fields);
    }
  }

  // So an answer is read from a text exactly where it spells an object, from
  // the first field of each name, and both moments, where it has them, are
  // read as such. A format that is missing is the one there is.
  lemma AnswerIsReadWhereSpelled(t: string, cal: Calendar)
    ensures Parse(t, cal) == Err(NotJson) <==> forall fields :: !SpellsObject(t, fields)
    ensures forall fields :: SpellsObject(t, fields) ==>
              var from, to := FieldValue(fields, "validFrom"), FieldValue(fields, "validTo");
              var format, key := FieldValue(fields, "format"), FieldValue(fields, "publicKey");
              if from.Some? && cal.read(from.value).None? then Parse(t, cal) == Err(NotAMoment("validFrom"))
              else if to.Some? && cal.read(to.value).None? then Parse(t, cal) == Err(NotAMoment("validTo"))
              else Parse(t, cal) == Ok(PublicKeyAnswer(if format.Some? then format.value else "spki", if key.Some? then key.value else "",
                                                       if from.Some? then cal.read(from.value) else None,
                                                       if to.Some? then cal.read(to.value) else None))
  {
    hide ReadFlatObject, SpellsObject, FieldValue;
    forall fields
      ensures ReadFlatObject(t) == Ok(fields) <==> SpellsObject(t, fields)
    {
      ObjectIsReadWhereSpelled(t, fields);
    }
    if ReadFlatObject(t).Err? {
      NotJsonIsNotJson(t);
    } else {
      assert SpellsObject(t, ReadFlatObject(t).value);
    }
  }

  lemma NotJsonIsNotJson(t: string)
    requires ReadFlatObject(t).Err?
    ensures ReadFlatObject(t) == Err(NotJson)
  {
    hide ReadFields, SkipSpace;
  }

  // The first field of a name is the one that counts.
  lemma {:induction false} FirstCounts(fields: seq<Field>, name: string, i: nat)
    requires i <= |fields| && forall j :: 0 <= j < i ==> fields[j].name != name
    ensures i == |fields| ==> FieldValue(fields, name).None?
    ensures i < |fields| && fields[i].name == name ==> FieldValue(fields, name) == fields[i].value
  {
    if i > 0 {
      assert forall j :: 0 <= j < i - 1 ==> fields[1..][j] == fields[j + 1];
      FirstCounts(fields[1..], name, i - 1);
    }
  }
}
