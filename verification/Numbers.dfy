// Fixed width integers, and the reading and printing of numbers as text.
module Numbers {
  import opened Wrappers

  const U32_MAX: int := 0xFFFF_FFFF
  type u32 = n: int | 0 <= n <= 0xFFFF_FFFF
  type byte = n: int | 0 <= n < 256

  // Moments are counted in nanoseconds from the base date.
  const NANOS_PER_SECOND := 1_000_000_000
  const NANOS_PER_MINUTE := 60_000_000_000
  const NANOS_PER_HOUR := 3_600_000_000_000

  function SaturatingSub(a: u32, b: u32): u32 {
    if a < b then 0 else a - b
  }

  function Max(a: int, b: int): int {
    if a < b then b else a
  }

  function Min(a: int, b: int): int {
    if b < a then b else a
  }

  // A span cut toward zero to a count of the unit.
  function Whole(span: int, unit: int): int
    requires unit > 0
  {
    if span >= 0 then span / unit else -(-span / unit)
  }

  // The value of a digit in the radix, with letters in either case.
  function DigitValue(c: char, radix: nat): Option<nat> {
    var d := if '0' <= c <= '9' then c as int - '0' as int
             else if 'a' <= c <= 'z' then c as int - 'a' as int + 10
             else if 'A' <= c <= 'Z' then c as int - 'A' as int + 10
             else radix;
    if d < radix then Some(d) else None
  }

  // The value of a run of digits, unbounded. An empty run is zero.
  function DigitsValue(text: string, radix: nat): Option<nat> {
    if text == "" then Some(0)
    else
      match (DigitsValue(text[..|text| - 1], radix), DigitValue(text[|text| - 1], radix))
      case (Some(v), Some(d)) => Some(v * radix + d)
      case _ => None
  }

  // The reading of an unsigned 32 bit number the way the standard library
  // does it: one leading plus is allowed, a sign alone and an empty text are
  // not, and neither is a value that does not fit.
  function ParseU32(text: string, radix: nat): Option<u32> {
    var digits := if |text| > 1 && text[0] == '+' then text[1..] else text;
    if digits == "" then None
    else
      match DigitsValue(digits, radix)
      case Some(v) => if v <= U32_MAX then Some(v) else None
      case None => None
  }

  function DigitChar(d: nat): char
    requires d < 16
  {
    if d < 10 then '0' + d as char else 'a' + (d - 10) as char
  }

  function Decimal(n: nat): string {
    (if n < 10 then "" else Decimal(n / 10)) + [DigitChar(n % 10)]
  }

  // The low digits of a number in lower case hexadecimal.
  function Hex(n: nat, width: nat): string {
    if width == 0 then "" else Hex(n / 16, width - 1) + [DigitChar(n % 16)]
  }

  lemma {:induction false} DecimalValue(n: nat)
    ensures DigitsValue(Decimal(n), 10) == Some(n)
    ensures forall c :: c in Decimal(n) ==> '0' <= c <= '9'
    ensures Decimal(n) != ""
  {
    var rest := if n < 10 then "" else Decimal(n / 10);
    assert Decimal(n)[..|Decimal(n)| - 1] == rest;
    if n >= 10 {
      DecimalValue(n / 10);
    }
  }

  // Printing a number and reading it back gives the number, and the text
  // holds digits only, so it cannot be mistaken for a separator.
  lemma DecimalRoundTrip(n: u32)
    ensures ParseU32(Decimal(n), 10) == Some(n)
    ensures forall c :: c in Decimal(n) ==> '0' <= c <= '9'
  {
    DecimalValue(n);
    assert Decimal(n)[0] in Decimal(n);
  }

  lemma DigitsSnoc(text: string, c: char, radix: nat)
    requires DigitsValue(text, radix).Some? && DigitValue(c, radix).Some?
    ensures DigitsValue(text + [c], radix) == Some(DigitsValue(text, radix).value * radix + DigitValue(c, radix).value)
  {
    assert (text + [c])[..|text + [c]| - 1] == text;
  }

  function Pow16(width: nat): nat {
    if width == 0 then 1 else 16 * Pow16(width - 1)
  }

  lemma DigitIsRead(d: nat)
    requires d < 16
    ensures DigitValue(DigitChar(d), 16) == Some(d)
  {
  }

  // A number that fits in the width reads back from its hexadecimal digits.
  lemma {:induction false} HexValue(n: nat, width: nat)
    requires n < Pow16(width)
    ensures |Hex(n, width)| == width && DigitsValue(Hex(n, width), 16) == Some(n)
  {
    hide DigitChar, DigitValue;
    if width > 0 {
      HexValue(n / 16, width - 1);
      DigitIsRead(n % 16);
      DigitsSnoc(Hex(n / 16, width - 1), DigitChar(n % 16), 16);
    }
  }

  lemma HexRoundTrip(n: nat, width: nat)
    requires 0 < width && n < Pow16(width) && n <= U32_MAX
    ensures |Hex(n, width)| == width && ParseU32(Hex(n, width), 16) == Some(n)
  {
    HexValue(n, width);
    assert Hex(n, width)[0] != '+' by {
      HexDigits(n, width, 0);
    }
  }

  lemma {:induction false} HexDigits(n: nat, width: nat, i: nat)
    requires i < width
    ensures |Hex(n, width)| == width && Hex(n, width)[i] != '+'
  {
    if width > 1 {
      HexDigits(n / 16, width - 1, if i < width - 1 then i else 0);
    } else {
      assert Hex(n / 16, 0) == "";
    }
  }

  // ---- What a text of digits is worth ------------------------------------

  predicate AllDigits(text: string) {
    forall i :: 0 <= i < |text| ==> '0' <= text[i] <= '9'
  }

  // Ten times what all but the last digit are worth, and the last one.
  function Worth(text: string): nat
    requires AllDigits(text)
  {
    if text == "" then 0 else 10 * Worth(text[..|text| - 1]) + (text[|text| - 1] as int - '0' as int)
  }

  lemma {:induction false} WorthIsRead(text: string)
    ensures DigitsValue(text, 10) == if AllDigits(text) then Some(Worth(text)) else None
  {
    if text != "" {
      var front, last := text[..|text| - 1], text[|text| - 1];
      WorthIsRead(front);
      assert text == front + [last];
      assert AllDigits(text) <==> AllDigits(front) && '0' <= last <= '9';
    }
  }

  // Digits, one plus allowed in front of them, that are worth the number.
  predicate IsCount(text: string, n: int) {
    && text != "" && text != "+"
    && var digits := if text[0] == '+' then text[1..] else text;
       AllDigits(digits) && Worth(digits) == n
  }

  // A text is read as a number exactly where it is a count of it.
  lemma CountIsRead(text: string, n: u32)
    ensures ParseU32(text, 10) == Some(n) <==> IsCount(text, n)
  {
    if text != "" {
      WorthIsRead(text);
      WorthIsRead(text[1..]);
      assert text[0] == '+' ==> '+' in text;
    }
  }

  // What is printed is worth the number, with no zero in front.
  lemma {:induction false} DecimalIsWorth(n: nat)
    ensures Decimal(n) != "" && AllDigits(Decimal(n)) && Worth(Decimal(n)) == n
    ensures n > 0 ==> Decimal(n)[0] != '0'
    ensures n < 10 ==> |Decimal(n)| == 1
  {
    DecimalValue(n);
    WorthIsRead(Decimal(n));
    if n >= 10 {
      DecimalIsWorth(n / 10);
    }
  }

  // And it is the only such text.
  lemma {:induction false} DecimalIsTheOne(text: string, n: nat)
    requires text != "" && AllDigits(text) && Worth(text) == n && (text[0] == '0' ==> |text| == 1)
    ensures text == Decimal(n)
  {
    var front, last := text[..|text| - 1], text[|text| - 1];
    assert text == front + [last];
    if front != "" {
      assert front[0] == text[0];
      DecimalIsTheOne(front, Worth(front));
      WorthIsPositive(front);
    }
  }

  lemma {:induction false} WorthIsPositive(text: string)
    requires text != "" && AllDigits(text) && text[0] != '0'
    ensures Worth(text) > 0
  {
    if |text| > 1 {
      WorthIsPositive(text[..|text| - 1]);
    }
  }

  // The character is the hexadecimal digit, in either case.
  predicate IsHexDigit(c: char, d: nat) {
    var n := c as int;
    if d < 10 then n == 0x30 + d else d < 16 && (n == 0x41 + (d - 10) || n == 0x61 + (d - 10))
  }

  lemma HexDigitIs(c: char, d: nat)
    ensures DigitValue(c, 16) == Some(d) <==> IsHexDigit(c, d)
  {
  }

  // The first of four digits may be a plus.
  predicate IsLeading(c: char, d: nat) {
    IsHexDigit(c, d) || (c == '+' && d == 0)
  }

  // Four hexadecimal digits worth the code, with a plus allowed for the first.
  ghost predicate IsHexCode(text: string, code: nat) {
    |text| == 4 &&
    exists a: nat, b: nat, c: nat, d: nat ::
      && IsLeading(text[0], a) && IsHexDigit(text[1], b) && IsHexDigit(text[2], c) && IsHexDigit(text[3], d)
      && code == 4096 * a + 256 * b + 16 * c + d
  }

  lemma DigitsOnOne(text: string, c: char, radix: nat)
    ensures DigitsValue(text + [c], radix)
         == if DigitsValue(text, radix).Some? && DigitValue(c, radix).Some?
            then Some(DigitsValue(text, radix).value * radix + DigitValue(c, radix).value) else None
  {
    assert (text + [c])[..|text + [c]| - 1] == text;
  }

  lemma ThreeDigits(b: char, c: char, d: char)
    ensures var x, y, z := DigitValue(b, 16), DigitValue(c, 16), DigitValue(d, 16);
            DigitsValue([b, c, d], 16) == (if x.Some? && y.Some? && z.Some? then Some(256 * x.value + 16 * y.value + z.value) else None)
  {
    hide DigitValue;
    DigitsOnOne([], b, 16);
    DigitsOnOne([b], c, 16);
    DigitsOnOne([b, c], d, 16);
    assert [] + [b] == [b] && [b] + [c] == [b, c] && [b, c] + [d] == [b, c, d];
  }

  lemma FourDigits(a: char, b: char, c: char, d: char)
    ensures var w, x, y, z := DigitValue(a, 16), DigitValue(b, 16), DigitValue(c, 16), DigitValue(d, 16);
            DigitsValue([a, b, c, d], 16)
            == (if w.Some? && x.Some? && y.Some? && z.Some? then Some(4096 * w.value + 256 * x.value + 16 * y.value + z.value) else None)
  {
    hide DigitValue;
    ThreeDigits(a, b, c);
    DigitsOnOne([a, b, c], d, 16);
    assert [a, b, c] + [d] == [a, b, c, d];
  }

  lemma DigitIs(c: char)
    ensures DigitValue(c, 16).Some? ==> IsHexDigit(c, DigitValue(c, 16).value)
    ensures forall d: nat :: IsHexDigit(c, d) ==> DigitValue(c, 16) == Some(d)
    ensures DigitValue('+', 16).None?
  {
    if DigitValue(c, 16).Some? {
      HexDigitIs(c, DigitValue(c, 16).value);
    }
    forall d: nat | IsHexDigit(c, d)
      ensures DigitValue(c, 16) == Some(d)
    {
      HexDigitIs(c, d);
    }
  }

  lemma ReadIsHex(a: char, b: char, c: char, d: char, code: nat)
    requires ParseU32([a, b, c, d], 16) == Some(code)
    ensures IsHexCode([a, b, c, d], code)
  {
    hide DigitValue, DigitsValue, IsHexDigit;
    assert [a, b, c, d][1..] == [b, c, d];
    FourDigits(a, b, c, d);
    ThreeDigits(b, c, d);
    DigitIs(a);
    DigitIs(b);
    DigitIs(c);
    DigitIs(d);
    var first := if a == '+' then 0 else DigitValue(a, 16).value;
    var text := [a, b, c, d];
    assert IsLeading(text[0], first) && IsHexDigit(text[1], DigitValue(b, 16).value);
    assert IsHexDigit(text[2], DigitValue(c, 16).value) && IsHexDigit(text[3], DigitValue(d, 16).value);
    assert code == 4096 * first + 256 * DigitValue(b, 16).value + 16 * DigitValue(c, 16).value + DigitValue(d, 16).value;
  }

  lemma HexIsRead(a: char, b: char, c: char, d: char, code: nat)
    requires IsHexCode([a, b, c, d], code)
    ensures ParseU32([a, b, c, d], 16) == Some(code)
  {
    hide DigitValue, DigitsValue, IsHexDigit;
    assert [a, b, c, d][1..] == [b, c, d];
    FourDigits(a, b, c, d);
    ThreeDigits(b, c, d);
    DigitIs(a);
    DigitIs(b);
    DigitIs(c);
    DigitIs(d);
    DigitsAreSmall([a, b, c, d], code);
    var w: nat, x: nat, y: nat, z: nat :|
      && IsLeading(a, w) && IsHexDigit(b, x) && IsHexDigit(c, y) && IsHexDigit(d, z)
      && code == 4096 * w + 256 * x + 16 * y + z;
  }

  // Such digits are read as the code they are worth, and nothing else is.
  lemma FourHexAreRead(text: string, code: nat)
    requires |text| == 4
    ensures ParseU32(text, 16) == Some(code) <==> IsHexCode(text, code)
  {
    hide ParseU32, IsHexCode;
    assert text == [text[0], text[1], text[2], text[3]];
    if ParseU32(text, 16) == Some(code) {
      ReadIsHex(text[0], text[1], text[2], text[3], code);
    }
    if IsHexCode(text, code) {
      HexIsRead(text[0], text[1], text[2], text[3], code);
    }
  }

  lemma DigitsAreSmall(text: string, code: nat)
    requires IsHexCode(text, code)
    ensures code <= 0xFFFF
  {
    var a: nat, b: nat, c: nat, d: nat :|
      && IsLeading(text[0], a) && IsHexDigit(text[1], b) && IsHexDigit(text[2], c) && IsHexDigit(text[3], d)
      && code == 4096 * a + 256 * b + 16 * c + d;
  }
}
