/**
JSON text as the signer prints it: strings by section 7 of RFC 8259 with the
escapes JSON.stringify chooses, numbers to one decimal, and the UTF-8 bytes of the
result. Strings are sequences of UTF-16 code units, lone surrogates included.
*/
module JsonText {
  import opened Options

  newtype Byte = x: int | 0 <= x < 0x100
  type Unit = x: int | 0 <= x < 0x1_0000
  type Text = seq<Unit>

  const QUOTE: Unit := 0x22
  const BACKSLASH: Unit := 0x5C
  const COLON: Unit := 0x3A
  const COMMA: Unit := 0x2C
  const OPEN: Unit := 0x7B
  const CLOSE: Unit := 0x7D
  const MINUS: Unit := 0x2D
  const POINT: Unit := 0x2E

  /** The code units of an ASCII literal. */
  function Ascii(s: string): Text
    requires forall i | 0 <= i < |s| :: s[i] < 128 as char
  {
    seq(|s|, i requires 0 <= i < |s| => s[i] as int)
  }

  /** The text is this ASCII word. */
  predicate Spells(t: Text, s: string) {
    |t| == |s| && forall i | 0 <= i < |s| :: t[i] == s[i] as int
  }

  // ----- strings ------------------------------------------------------------

  predicate High(c: Unit) { 0xD800 <= c < 0xDC00 }

  predicate Low(c: Unit) { 0xDC00 <= c < 0xE000 }

  predicate StartsWithPair(s: Text) {
    |s| >= 2 && High(s[0]) && Low(s[1])
  }

  function HexDigit(d: nat): Unit
    requires d < 16
  {
    if d < 10 then 0x30 + d else 0x61 + d - 10
  }

  function HexValue(c: Unit): Option<nat> {
    if 0x30 <= c <= 0x39 then Some(c - 0x30)
    else if 0x61 <= c <= 0x66 then Some(c - 0x61 + 10)
    else if 0x41 <= c <= 0x46 then Some(c - 0x41 + 10)
    else None
  }

  function HexEscape(c: Unit): Text {
    [BACKSLASH, 0x75, HexDigit(c / 4096), HexDigit(c / 256 % 16), HexDigit(c / 16 % 16), HexDigit(c % 16)]
  }

  /** The two-character escapes, by the letter that follows the backslash. */
  function ShortEscape(c: Unit): Option<Unit> {
    match c
    case 0x08 => Some(0x62)
    case 0x09 => Some(0x74)
    case 0x0A => Some(0x6E)
    case 0x0C => Some(0x66)
    case 0x0D => Some(0x72)
    case 0x22 => Some(0x22)
    case 0x5C => Some(0x5C)
    case _ => None
  }

  function ShortUnescape(c: Unit): Option<Unit> {
    match c
    case 0x62 => Some(0x08)
    case 0x74 => Some(0x09)
    case 0x6E => Some(0x0A)
    case 0x66 => Some(0x0C)
    case 0x72 => Some(0x0D)
    case 0x22 => Some(0x22)
    case 0x5C => Some(0x5C)
    case 0x2F => Some(0x2F)
    case _ => None
  }

  function EscapeUnit(c: Unit): Text {
    match ShortEscape(c)
    case Some(letter) => [BACKSLASH, letter]
    case None => if c < 0x20 || High(c) || Low(c) then HexEscape(c) else [c]
  }

  /** A surrogate pair is printed as it is; a surrogate on its own is escaped. */
  function Escape(s: Text): Text {
    if s == [] then []
    else if StartsWithPair(s) then s[..2] + Escape(s[2..])
    else EscapeUnit(s[0]) + Escape(s[1..])
  }

  function Quote(s: Text): Text {
    [QUOTE] + Escape(s) + [QUOTE]
  }

  /** The body of a JSON string and what follows its closing quote. */
  function Unescape(t: Text): (r: Option<(Text, Text)>)
    ensures r.Some? ==> |r.value.1| < |t|
  {
    if t == [] then None
    else if t[0] == QUOTE then Some(([], t[1..]))
    else if t[0] == BACKSLASH then
      if |t| >= 2 && ShortUnescape(t[1]).Some? then
        Prepend(ShortUnescape(t[1]).value, Unescape(t[2..]))
      else if |t| >= 6 && t[1] == 0x75 && HexQuad(t[2..6]).Some? then
        Prepend(HexQuad(t[2..6]).value, Unescape(t[6..]))
      else None
    else if t[0] < 0x20 then None
    else Prepend(t[0], Unescape(t[1..]))
  }

  function Prepend(c: Unit, r: Option<(Text, Text)>): Option<(Text, Text)> {
    match r
    case Some((s, rest)) => Some(([c] + s, rest))
    case None => None
  }

  function HexQuad(t: Text): Option<Unit>
    requires |t| == 4
  {
    match (HexValue(t[0]), HexValue(t[1]), HexValue(t[2]), HexValue(t[3]))
    case (Some(a), Some(b), Some(c), Some(d)) =>
      if a < 16 && b < 16 && c < 16 && d < 16 then Some(a * 4096 + b * 256 + c * 16 + d) else None
    case _ => None
  }

  lemma HexDigitReads(d: nat)
    requires d < 16
    ensures HexValue(HexDigit(d)) == Some(d)
  {
  }

  lemma FourBitGroups(c: Unit)
    ensures c == c / 4096 * 4096 + c / 256 % 16 * 256 + c / 16 % 16 * 16 + c % 16
  {
    var a := c / 16;
    var b := a / 16;
    assert c / 256 == b && c / 4096 == b / 16;
  }

  lemma HexRoundTrip(c: Unit)
    ensures HexQuad(HexEscape(c)[2..6]) == Some(c)
  {
    var t := HexEscape(c)[2..6];
    assert t == [HexDigit(c / 4096), HexDigit(c / 256 % 16), HexDigit(c / 16 % 16), HexDigit(c % 16)];
    HexDigitReads(c / 4096);
    HexDigitReads(c / 256 % 16);
    HexDigitReads(c / 16 % 16);
    HexDigitReads(c % 16);
    FourBitGroups(c);
  }

  lemma UnescapeShort(c: Unit, rest: Text)
    requires ShortEscape(c).Some?
    ensures Unescape([BACKSLASH, ShortEscape(c).value] + rest) == Prepend(c, Unescape(rest))
  {
    var t := [BACKSLASH, ShortEscape(c).value] + rest;
    assert t[2..] == rest && ShortUnescape(t[1]) == Some(c);
  }

  lemma UnescapeHex(c: Unit, rest: Text)
    ensures Unescape(HexEscape(c) + rest) == Prepend(c, Unescape(rest))
  {
    var t := HexEscape(c) + rest;
    HexRoundTrip(c);
    assert t[2..6] == HexEscape(c)[2..6] && t[6..] == rest;
    assert ShortUnescape(t[1]).None?;
  }

  lemma UnescapeUnit(c: Unit, rest: Text)
    ensures Unescape(EscapeUnit(c) + rest) == Prepend(c, Unescape(rest))
  {
    if ShortEscape(c).Some? {
      UnescapeShort(c, rest);
    } else if c < 0x20 || High(c) || Low(c) {
      UnescapeHex(c, rest);
    } else {
      UnescapeRaw(c, rest);
    }
  }

  lemma UnescapeRaw(c: Unit, rest: Text)
    requires c >= 0x20 && c != QUOTE && c != BACKSLASH
    ensures Unescape([c] + rest) == Prepend(c, Unescape(rest))
  {
    assert ([c] + rest)[1..] == rest;
  }

  lemma Reassociate(a: Text, b: Text, c: Text, d: Text)
    ensures a + b + c + d == a + (b + c + d)
  {
  }

  /** Every string, lone surrogates and control characters included, is read back exactly. */
  lemma {:induction false} StringRoundTrip(s: Text, rest: Text)
    ensures Unescape(Escape(s) + [QUOTE] + rest) == Some((s, rest))
  {
    if s == [] {
      assert Escape(s) + [QUOTE] + rest == [QUOTE] + rest;
      assert ([QUOTE] + rest)[1..] == rest;
    } else if StartsWithPair(s) {
      StringRoundTrip(s[2..], rest);
      var inner := Escape(s[2..]) + [QUOTE] + rest;
      Reassociate(s[..2], Escape(s[2..]), [QUOTE], rest);
      assert s[..2] + inner == [s[0]] + ([s[1]] + inner);
      UnescapeRaw(s[1], inner);
      UnescapeRaw(s[0], [s[1]] + inner);
      assert s == [s[0]] + ([s[1]] + s[2..]);
    } else {
      StringRoundTrip(s[1..], rest);
      Reassociate(EscapeUnit(s[0]), Escape(s[1..]), [QUOTE], rest);
      UnescapeUnit(s[0], Escape(s[1..]) + [QUOTE] + rest);
      assert s == [s[0]] + s[1..];
    }
  }

  // ----- numbers ------------------------------------------------------------

  predicate Digit(c: Unit) { 0x30 <= c <= 0x39 }

  function Digits(n: nat): (t: Text)
    ensures |t| > 0 && forall c | c in t :: Digit(c)
  {
    if n < 10 then [0x30 + n] else Digits(n / 10) + [0x30 + n % 10]
  }

  function DigitValue(c: Unit): nat
    requires Digit(c)
  {
    var value: int := c;
    value - 0x30
  }

  function DigitsValue(t: Text): nat
    requires forall c | c in t :: Digit(c)
  {
    if t == [] then 0 else 10 * DigitsValue(t[..|t| - 1]) + DigitValue(t[|t| - 1])
  }

  lemma {:induction false} DigitsRoundTrip(n: nat)
    ensures DigitsValue(Digits(n)) == n
  {
    if n < 10 {
      assert Digits(n)[..0] == [];
    } else {
      DigitsRoundTrip(n / 10);
      assert Digits(n)[..|Digits(n)| - 1] == Digits(n / 10);
    }
  }

  /** How many digits a text starts with. */
  function DigitSpan(t: Text): (k: nat)
    ensures k <= |t| && (forall i | 0 <= i < k :: Digit(t[i])) && (k < |t| ==> !Digit(t[k]))
  {
    if t == [] || !Digit(t[0]) then 0 else 1 + DigitSpan(t[1..])
  }

  lemma {:induction false} SpanOf(digits: Text, rest: Text)
    requires forall c | c in digits :: Digit(c)
    requires rest == [] || !Digit(rest[0])
    ensures DigitSpan(digits + rest) == |digits|
  {
    if digits == [] {
      assert digits + rest == rest;
    } else {
      assert (digits + rest)[1..] == digits[1..] + rest;
      SpanOf(digits[1..], rest);
    }
  }

  /** A number of tenths, as Number(x.toFixed(1)) is printed: no trailing zero, no sign on nothing. */
  function PrintTenths(n: int): Text {
    if n < 0 then [MINUS] + PrintUnsigned(-n) else PrintUnsigned(n)
  }

  function PrintUnsigned(size: nat): Text {
    PrintParts(size / 10, size % 10)
  }

  function PrintParts(whole: nat, tenth: nat): Text
    requires tenth < 10
  {
    Digits(whole) + Fraction(tenth)
  }

  function Fraction(tenth: nat): Text
    requires tenth < 10
  {
    if tenth == 0 then [] else [POINT, 0x30 + tenth]
  }

  function ReadUnsigned(t: Text): (r: Option<(nat, Text)>)
    ensures r.Some? ==> |r.value.1| < |t|
  {
    var k := DigitSpan(t);
    if k == 0 then None
    else
      var whole := DigitsValue(t[..k]);
      if k + 1 < |t| && t[k] == POINT && Digit(t[k + 1]) then Some((10 * whole + DigitValue(t[k + 1]), t[k + 2..]))
      else Some((10 * whole, t[k..]))
  }

  function ReadTenths(t: Text): (r: Option<(int, Text)>)
    ensures r.Some? ==> |r.value.1| < |t|
  {
    var negative := t != [] && t[0] == MINUS;
    match ReadUnsigned(if negative then t[1..] else t)
    case Some((n, rest)) =>
      var value: int := n;
      Some((if negative then -value else value, rest))
    case None => None
  }

  /** What may follow a number in an object: the end, a comma or a brace. */
  predicate Delimited(rest: Text) {
    rest == [] || (!Digit(rest[0]) && rest[0] != POINT)
  }

  lemma ReadAfterDigits(whole: Text, tail: Text)
    requires whole != [] && (forall c | c in whole :: Digit(c)) && (tail == [] || !Digit(tail[0]))
    ensures ReadUnsigned(whole + tail) ==
      if |tail| >= 2 && tail[0] == POINT && Digit(tail[1])
      then Some((10 * DigitsValue(whole) + DigitValue(tail[1]), tail[2..]))
      else Some((10 * DigitsValue(whole), tail))
  {
    var t := whole + tail;
    SpanOf(whole, tail);
    assert t[..|whole|] == whole && t[|whole|..] == tail;
    if |tail| >= 2 {
      assert t[|whole|] == tail[0] && t[|whole| + 1] == tail[1] && t[|whole| + 2..] == tail[2..];
    }
  }

  lemma WholeReads(whole: nat, rest: Text)
    requires Delimited(rest)
    ensures ReadUnsigned(Digits(whole) + rest) == Some((10 * whole, rest))
  {
    DigitsRoundTrip(whole);
    ReadAfterDigits(Digits(whole), rest);
  }

  lemma TenthsRead(whole: nat, tenth: nat, rest: Text)
    requires 0 < tenth < 10
    ensures ReadUnsigned(Digits(whole) + ([POINT, 0x30 + tenth] + rest)) == Some((10 * whole + tenth, rest))
  {
    var tail := [POINT, 0x30 + tenth] + rest;
    DigitsRoundTrip(whole);
    ReadAfterDigits(Digits(whole), tail);
    assert tail[2..] == rest;
  }

  lemma PartsRoundTrip(whole: nat, tenth: nat, rest: Text)
    requires tenth < 10 && Delimited(rest)
    ensures ReadUnsigned(PrintParts(whole, tenth) + rest) == Some((10 * whole + tenth, rest))
  {
    if tenth == 0 {
      WholeReads(whole, rest);
      assert PrintParts(whole, tenth) + rest == Digits(whole) + rest;
    } else {
      TenthsRead(whole, tenth, rest);
      assert PrintParts(whole, tenth) + rest == Digits(whole) + ([POINT, 0x30 + tenth] + rest);
    }
  }

  lemma UnsignedRoundTrip(size: nat, rest: Text)
    requires Delimited(rest)
    ensures ReadUnsigned(PrintUnsigned(size) + rest) == Some((size, rest))
  {
    PartsRoundTrip(size / 10, size % 10, rest);
  }

  lemma MinusReads(t: Text, k: nat, rest: Text)
    requires ReadUnsigned(t) == Some((k, rest))
    ensures ReadTenths([MINUS] + t) == Some((0 - k, rest))
  {
    assert ([MINUS] + t)[1..] == t;
  }

  lemma NumeralStartsWithDigit(size: nat, rest: Text)
    ensures PrintUnsigned(size) + rest != [] && Digit((PrintUnsigned(size) + rest)[0])
  {
    var first := Digits(size / 10)[0];
    assert first in Digits(size / 10);
  }

  lemma NumberRoundTrip(n: int, rest: Text)
    requires Delimited(rest)
    ensures ReadTenths(PrintTenths(n) + rest) == Some((n, rest))
  {
    if n < 0 {
      NegativeRoundTrip(-n, rest);
    } else {
      UnsignedRoundTrip(n, rest);
      NumeralStartsWithDigit(n, rest);
      DigitReads(PrintUnsigned(n) + rest, n, rest);
    }
  }

  lemma DigitReads(t: Text, k: nat, rest: Text)
    requires ReadUnsigned(t) == Some((k, rest)) && t != [] && Digit(t[0])
    ensures ReadTenths(t) == Some((k, rest))
  {
  }

  lemma NegativeRoundTrip(size: nat, rest: Text)
    requires Delimited(rest)
    ensures ReadTenths([MINUS] + PrintUnsigned(size) + rest) == Some((0 - size, rest))
  {
    var t := PrintUnsigned(size);
    UnsignedRoundTrip(size, rest);
    MinusReads(t + rest, size, rest);
    AfterMinus(t, rest);
  }

  lemma AfterMinus(t: Text, rest: Text)
    ensures [MINUS] + t + rest == [MINUS] + (t + rest)
  {
  }
}
