/**
The canonical text is not merely readable: of all the texts a reader takes for the same
payload it is the one shortest, so nothing about it is left to the printer.
*/
module CanonicalText {
  import opened Options
  import opened JsonText
  import opened BadgePayload
  import Utf8

  // ----- texts that could have been printed ---------------------------------

  predicate UpperHex(c: Unit) { 0x41 <= c <= 0x46 }

  /** No `\u` escape has an upper-case digit. */
  predicate PlainHex(t: Text) {
    if t == [] then true
    else if t[0] == BACKSLASH && |t| >= 6 && t[1] == 0x75 then
      !UpperHex(t[2]) && !UpperHex(t[3]) && !UpperHex(t[4]) && !UpperHex(t[5]) && PlainHex(t[6..])
    else if t[0] == BACKSLASH && |t| >= 2 then PlainHex(t[2..])
    else PlainHex(t[1..])
  }

  /** Well-formed text with its escapes in lower case. */
  predicate Printable(t: Text) {
    Utf8.WellFormed(t) && PlainHex(t)
  }

  /** No longer than another text, and the same text if no shorter. */
  predicate Leads(t: Text, other: Text) {
    |t| <= |other| && (|t| == |other| ==> t == other)
  }

  lemma LeadsConcat(a: Text, b: Text, t: Text, other: Text)
    requires Leads(a, b) && Leads(t, other)
    ensures Leads(a + t, b + other)
  {
  }

  lemma Grouped(a: Text, b: Text, c: Text)
    ensures a + b + c == a + (b + c)
  {
  }

  lemma Head(t: Text)
    requires t != []
    ensures t == [t[0]] + t[1..]
  {
  }

  // ----- strings ------------------------------------------------------------

  lemma HexDigitsAgree(c: Unit, d: nat)
    requires HexValue(c) == Some(d) && !UpperHex(c)
    ensures d < 16 && c == HexDigit(d)
  {
  }

  lemma HexQuadAgrees(q: Text, c: Unit)
    requires |q| == 4 && HexQuad(q) == Some(c) && forall i | 0 <= i < 4 :: !UpperHex(q[i])
    ensures HexEscape(c)[2..] == q
  {
    var h0, h1, h2, h3 := HexValue(q[0]).value, HexValue(q[1]).value, HexValue(q[2]).value, HexValue(q[3]).value;
    HexDigitsAgree(q[0], h0);
    HexDigitsAgree(q[1], h1);
    HexDigitsAgree(q[2], h2);
    HexDigitsAgree(q[3], h3);
    FourDigits(h0, h1, h2, h3, c);
  }

  lemma FourDigits(a: nat, b: nat, c: nat, d: nat, n: nat)
    requires a < 16 && b < 16 && c < 16 && d < 16 && n == a * 4096 + b * 256 + c * 16 + d
    ensures n / 4096 == a && n / 256 % 16 == b && n / 16 % 16 == c && n % 16 == d
  {
    assert n / 16 == a * 256 + b * 16 + c;
    assert n / 256 == a * 16 + b;
  }

  /** A printed unit is no longer than any escape of it. */
  lemma UnitIsShort(c: Unit)
    ensures 1 <= |EscapeUnit(c)| <= 6
    ensures |EscapeUnit(c)| == 6 ==> EscapeUnit(c) == HexEscape(c)
  {
  }

  lemma ShortEscapesAgree(letter: Unit)
    requires ShortUnescape(letter).Some?
    ensures Leads(EscapeUnit(ShortUnescape(letter).value), [BACKSLASH, letter])
  {
  }

  /** A string as it is printed inside its quotes, the closing one, and what follows. */
  function Ending(s: Text, rest: Text): Text {
    Escape(s) + [QUOTE] + rest
  }

  lemma EndingOfUnit(c: Unit, s: Text, rest: Text)
    requires !StartsWithPair([c] + s)
    ensures Ending([c] + s, rest) == EscapeUnit(c) + Ending(s, rest)
  {
    assert ([c] + s)[1..] == s;
    Reassociate(EscapeUnit(c), Escape(s), [QUOTE], rest);
  }

  lemma EndingOfPair(c: Unit, d: Unit, s: Text, rest: Text)
    requires High(c) && Low(d)
    ensures Ending([c] + ([d] + s), rest) == [c, d] + Ending(s, rest)
  {
    var all := [c] + ([d] + s);
    assert all[..2] == [c, d] && all[2..] == s;
    Reassociate([c, d], Escape(s), [QUOTE], rest);
  }

  /** What the printer has for a string that was read, against what it was read from. */
  predicate StringLeads(t: Text)
    requires Unescape(t).Some?
  {
    Printable(Unescape(t).value.1) && Leads(Ending(Unescape(t).value.0, Unescape(t).value.1), t)
  }

  lemma RawPair(t: Text, tail: Text)
    requires |t| >= 2 && High(t[0]) && Low(t[1]) && t[2..] == tail && Unescape(tail).Some? && StringLeads(tail)
    ensures Unescape(t).Some? && StringLeads(t)
  {
    var (s, rest) := Unescape(tail).value;
    assert t[1..][1..] == tail;
    assert Unescape(t[1..]) == Prepend(t[1], Unescape(tail)) && Unescape(t) == Prepend(t[0], Unescape(t[1..]));
    EndingOfPair(t[0], t[1], s, rest);
    LeadsConcat([t[0], t[1]], [t[0], t[1]], Ending(s, rest), tail);
    assert t == [t[0], t[1]] + tail;
  }

  /** A piece that is no pair's half is printed no longer than it was read. */
  lemma OnePiece(t: Text, piece: Text, tail: Text, c: Unit)
    requires t == piece + tail && Unescape(tail).Some? && StringLeads(tail) && Unescape(t) == Prepend(c, Unescape(tail))
    requires Leads(EscapeUnit(c), piece) && !StartsWithPair([c] + Unescape(tail).value.0)
    ensures StringLeads(t)
  {
    var (s, rest) := Unescape(tail).value;
    EndingOfUnit(c, s, rest);
    LeadsConcat(EscapeUnit(c), piece, Ending(s, rest), tail);
  }

  /** Half a pair escaped, and the other half after it: printed bare, the two are shorter than either escape. */
  lemma EscapedHalf(t: Text, piece: Text, tail: Text, c: Unit)
    requires t == piece + tail && |piece| == 6
    requires Unescape(tail).Some? && StringLeads(tail) && Unescape(t) == Prepend(c, Unescape(tail))
    requires StartsWithPair([c] + Unescape(tail).value.0)
    ensures StringLeads(t)
  {
    var (s, rest) := Unescape(tail).value;
    var d, more := ([c] + s)[1], s[1..];
    assert s == [d] + more && High(c) && Low(d);
    EndingOfPair(c, d, more, rest);
    EndingOfUnit(d, more, rest);
    assert EscapeUnit(d) == HexEscape(d);
    assert |Ending([c] + s, rest)| == 2 + |Ending(more, rest)| && |Ending(s, rest)| == 6 + |Ending(more, rest)|;
  }

  predicate StartsWithHex(t: Text) {
    |t| >= 6 && t[0] == BACKSLASH && t[1] == 0x75 && HexQuad(t[2..6]).Some?
  }

  lemma HexStart(t: Text)
    requires StartsWithHex(t) && Printable(t)
    ensures t[..6] == HexEscape(HexQuad(t[2..6]).value) && Printable(t[6..])
    ensures Unescape(t) == Prepend(HexQuad(t[2..6]).value, Unescape(t[6..]))
  {
    var q := t[2..6];
    HexQuadAgrees(q, HexQuad(q).value);
    assert HexEscape(HexQuad(q).value)[..2] == t[..2];
    PlainPrefix(t, 6);
  }

  lemma HexPiece(t: Text, tail: Text)
    requires StartsWithHex(t) && Printable(t) && tail == t[6..] && Unescape(tail).Some? && StringLeads(tail)
    ensures Unescape(t).Some? && StringLeads(t)
  {
    var c := HexQuad(t[2..6]).value;
    HexStart(t);
    UnitIsShort(c);
    assert t == t[..6] + tail;
    if StartsWithPair([c] + Unescape(tail).value.0) {
      EscapedHalf(t, t[..6], tail, c);
    } else {
      OnePiece(t, t[..6], tail, c);
    }
  }

  lemma ShortPiece(t: Text, tail: Text)
    requires |t| >= 2 && t[0] == BACKSLASH && ShortUnescape(t[1]).Some? && tail == t[2..]
    requires Unescape(tail).Some? && StringLeads(tail)
    ensures Unescape(t).Some? && StringLeads(t)
  {
    ShortEscapesAgree(t[1]);
    OnePiece(t, [BACKSLASH, t[1]], tail, ShortUnescape(t[1]).value);
  }

  lemma {:induction false} PlainPrefix(t: Text, n: nat)
    requires n <= |t| && (forall i | 0 <= i < n :: t[i] < 0xD800) && Utf8.WellFormed(t)
    ensures Utf8.WellFormed(t[n..])
  {
    if n > 0 {
      PlainPrefix(t[1..], n - 1);
      assert t[1..][n - 1..] == t[n..];
    } else {
      assert t[0..] == t;
    }
  }

  lemma PastPair(t: Text)
    requires Unescape(t).Some? && Printable(t) && t != [] && High(t[0])
    ensures |t| >= 2 && Low(t[1]) && Printable(t[2..]) && Unescape(t[2..]).Some?
  {
    assert StartsWithPair(t);
    var tail := t[1..];
    assert tail[0] == t[1] && tail[1..] == t[2..];
    assert PlainHex(tail) && PlainHex(tail[1..]);
    assert Unescape(t) == Prepend(t[0], Unescape(tail)) && Unescape(tail) == Prepend(t[1], Unescape(tail[1..]));
  }

  /** Whatever printable text a string is read from, the printer's is no longer; and what follows is printable still. */
  lemma {:induction false} StringIsShortest(t: Text)
    requires Unescape(t).Some? && Printable(t)
    ensures StringLeads(t)
    decreases |t|
  {
    if t[0] == QUOTE {
      assert Ending([], t[1..]) == t;
    } else if t[0] != BACKSLASH && High(t[0]) {
      PastPair(t);
      StringIsShortest(t[2..]);
      RawPair(t, t[2..]);
    } else if t[0] != BACKSLASH {
      StringIsShortest(t[1..]);
      OnePiece(t, [t[0]], t[1..], t[0]);
    } else if |t| >= 2 && ShortUnescape(t[1]).Some? {
      PlainPrefix(t, 2);
      StringIsShortest(t[2..]);
      ShortPiece(t, t[2..]);
    } else {
      HexStart(t);
      StringIsShortest(t[6..]);
      HexPiece(t, t[6..]);
    }
  }

  // ----- numbers ------------------------------------------------------------

  /** No digits read as a number are fewer than its own: leading zeros are all that can be added. */
  lemma {:induction false} DigitsAreShortest(t: Text)
    requires t != [] && forall c | c in t :: Digit(c)
    ensures Leads(Digits(DigitsValue(t)), t)
  {
    var n := |t| - 1;
    var front, last := t[..n], DigitValue(t[n]);
    assert t == front + [t[n]] && t[n] in t;
    forall c | c in front ensures Digit(c) { assert c in t; }
    if front == [] {
      assert DigitsValue(front) == 0 && t == [0x30 + last];
    } else {
      DigitsAreShortest(front);
      OneMoreDigit(DigitsValue(front), front, last);
    }
  }

  lemma OneMoreDigit(value: nat, front: Text, last: nat)
    requires front != [] && last < 10 && Leads(Digits(value), front)
    ensures Leads(Digits(10 * value + last), front + [0x30 + last])
  {
    TenTimes(value, last, 10 * value + last);
    if value > 0 {
      assert Digits(10 * value + last) == Digits(value) + [0x30 + last];
    }
  }

  lemma TenTimes(front: nat, last: nat, n: nat)
    requires last < 10 && n == 10 * front + last
    ensures n / 10 == front && n % 10 == last
  {
  }

  lemma WithTenth(digits: Text, tenth: nat, rest: Text)
    requires digits != [] && (forall c | c in digits :: Digit(c)) && tenth < 10
    ensures Leads(PrintUnsigned(10 * DigitsValue(digits) + tenth) + rest, digits + ([POINT, 0x30 + tenth] + rest))
  {
    var whole := DigitsValue(digits);
    DigitsAreShortest(digits);
    TenTimes(whole, tenth, 10 * whole + tenth);
    FractionLeads(tenth, rest);
    LeadsConcat(Digits(whole), digits, Fraction(tenth) + rest, [POINT, 0x30 + tenth] + rest);
    Grouped(Digits(whole), Fraction(tenth), rest);
  }

  lemma FractionLeads(tenth: nat, rest: Text)
    requires tenth < 10
    ensures Leads(Fraction(tenth) + rest, [POINT, 0x30 + tenth] + rest)
  {
  }

  lemma WithoutTenth(digits: Text, rest: Text)
    requires digits != [] && forall c | c in digits :: Digit(c)
    ensures Leads(PrintUnsigned(10 * DigitsValue(digits)) + rest, digits + rest)
  {
    var whole := DigitsValue(digits);
    DigitsAreShortest(digits);
    TenTimes(whole, 0, 10 * whole);
    assert PrintUnsigned(10 * whole) == Digits(whole);
    LeadsConcat(Digits(whole), digits, rest, rest);
  }

  lemma Cut(t: Text, k: nat)
    requires k <= |t|
    ensures t == t[..k] + t[k..]
    ensures k + 1 < |t| ==> t[k..] == [t[k], t[k + 1]] + t[k + 2..]
  {
  }

  lemma NumeralIsShortest(t: Text)
    requires ReadUnsigned(t).Some?
    ensures Leads(PrintUnsigned(ReadUnsigned(t).value.0) + ReadUnsigned(t).value.1, t)
  {
    var k := DigitSpan(t);
    var digits := t[..k];
    Cut(t, k);
    assert forall c | c in digits :: Digit(c);
    if k + 1 < |t| && t[k] == POINT && Digit(t[k + 1]) {
      WithTenth(digits, DigitValue(t[k + 1]), t[k + 2..]);
    } else {
      WithoutTenth(digits, t[k..]);
    }
  }

  /** The printed number is the shortest text that reads as it: no sign on nothing, no leading zero, no point for nothing. */
  lemma NumberIsShortest(t: Text)
    requires ReadTenths(t).Some?
    ensures Leads(PrintTenths(ReadTenths(t).value.0) + ReadTenths(t).value.1, t)
  {
    if t != [] && t[0] == MINUS {
      NumeralIsShortest(t[1..]);
      Head(t);
      SignedLeads(ReadUnsigned(t[1..]).value.0, ReadUnsigned(t[1..]).value.1, t[1..]);
    } else {
      NumeralIsShortest(t);
    }
  }

  lemma SignedLeads(n: nat, rest: Text, unsigned: Text)
    requires Leads(PrintUnsigned(n) + rest, unsigned)
    ensures Leads(PrintTenths(0 - n) + rest, [MINUS] + unsigned)
  {
    LeadsConcat([MINUS], [MINUS], PrintUnsigned(n) + rest, unsigned);
    if n > 0 {
      Grouped([MINUS], PrintUnsigned(n), rest);
    }
  }

  /** So a whole number has no point in it. */
  lemma WholeNumbersHaveNoPoint(n: int)
    ensures n % 10 == 0 ==> POINT !in PrintTenths(n)
  {
    var size: nat := if n < 0 then -n else n;
    assert forall c | c in Digits(size / 10) :: Digit(c);
    assert n % 10 == 0 ==> size % 10 == 0;
  }

  // ----- values -------------------------------------------------------------

  function PrintToken(token: Token): Text {
    match token
    case TNull => NULL_WORD
    case TBool(b) => if b then TRUE_WORD else FALSE_WORD
    case TTenths(n) => PrintTenths(n)
    case TStr(s) => Quote(s)
  }

  lemma SerialisedIsPrinted(v: Value)
    ensures Serialise(v) == PrintToken(Said(v))
  {
  }

  predicate ValueLeads(t: Text)
    requires ParseValue(t).Some?
  {
    Printable(ParseValue(t).value.1) && Leads(PrintToken(ParseValue(t).value.0) + ParseValue(t).value.1, t)
  }

  lemma AWordIsRead(t: Text, word: Text)
    requires word in [NULL_WORD, TRUE_WORD, FALSE_WORD] && word <= t && Printable(t)
    ensures Printable(t[|word|..]) && t == word + t[|word|..]
  {
    PlainPrefix(t, |word|);
    PlainHexPast(t, |word|);
  }

  lemma {:induction false} PlainHexPast(t: Text, n: nat)
    requires n <= |t| && PlainHex(t) && forall i | 0 <= i < n :: t[i] != BACKSLASH
    ensures PlainHex(t[n..])
  {
    if n > 0 {
      PlainHexPast(t[1..], n - 1);
      assert t[1..][n - 1..] == t[n..];
    } else {
      assert t[0..] == t;
    }
  }

  lemma ANumberIsRead(t: Text)
    requires ReadTenths(t).Some? && Printable(t)
    ensures Printable(ReadTenths(t).value.1)
  {
    var sign := if t != [] && t[0] == MINUS then 1 else 0;
    var u := t[sign..];
    var k := DigitSpan(u);
    var n := |t| - |ReadTenths(t).value.1|;
    assert t[n..] == ReadTenths(t).value.1;
    assert forall i | 0 <= i < k :: t[sign + i] == u[i];
    assert forall i | 0 <= i < n :: t[i] == MINUS || t[i] == POINT || Digit(t[i]);
    PlainPrefix(t, n);
    PlainHexPast(t, n);
  }

  lemma ValueIsShortest(t: Text)
    requires ParseValue(t).Some? && Printable(t)
    ensures ValueLeads(t)
  {
    if t[0] == QUOTE {
      StringIsShortest(t[1..]);
      var (s, rest) := Unescape(t[1..]).value;
      LeadsConcat([QUOTE], [QUOTE], Ending(s, rest), t[1..]);
      assert t == [QUOTE] + t[1..] && Quote(s) + rest == [QUOTE] + Ending(s, rest);
    } else if NULL_WORD <= t {
      AWordIsRead(t, NULL_WORD);
    } else if TRUE_WORD <= t {
      AWordIsRead(t, TRUE_WORD);
    } else if FALSE_WORD <= t {
      AWordIsRead(t, FALSE_WORD);
    } else {
      ANumberIsRead(t);
      NumberIsShortest(t);
    }
  }

  // ----- the object ---------------------------------------------------------

  function PrintPairs(r: Reading): Text {
    if r == [] then [CLOSE]
    else if |r| == 1 then PrintPair(r[0]) + [CLOSE]
    else PrintPair(r[0]) + [COMMA] + PrintPairs(r[1..])
  }

  function PrintPair(pair: (Text, Token)): Text {
    Quote(pair.0) + [COLON] + PrintToken(pair.1)
  }

  lemma {:induction false} PairsArePrinted(p: Payload, keys: seq<Text>)
    ensures Pairs(p, keys) == PrintPairs(Reads(p, keys))
  {
    if keys != [] {
      var r := Reads(p, keys);
      SerialisedIsPrinted(Field(p, keys[0]));
      PairsArePrinted(p, keys[1..]);
      assert r[1..] == Reads(p, keys[1..]) && r[0] == (keys[0], Said(Field(p, keys[0])));
      ReadsAt(p, keys, 0);
      assert PrintPair(r[0]) == Pair(p, keys[0]);
    }
  }

  lemma LeadsThrough(a: Text, b: Text, c: Text)
    requires Leads(a, b) && Leads(b, c)
    ensures Leads(a, c)
  {
  }

  lemma AfterTheKey(key: Text, printed: Text, read: Text)
    requires Leads(printed, read)
    ensures Leads(Quote(key) + [COLON] + printed, [QUOTE] + Ending(key, [COLON] + read))
  {
    LeadsConcat(Quote(key) + [COLON], Quote(key) + [COLON], printed, read);
    Reassociate([QUOTE], Escape(key), [QUOTE], [COLON] + read);
    Grouped(Quote(key), [COLON], read);
    Grouped(Escape(key), [QUOTE], [COLON] + read);
  }

  lemma PairIsShortest(t: Text)
    requires OnePair(t).Some? && Printable(t)
    ensures Printable(OnePair(t).value.2)
    ensures Leads(PrintPair((OnePair(t).value.0, OnePair(t).value.1)) + OnePair(t).value.2, t)
  {
    var (key, after) := Unescape(t[1..]).value;
    StringIsShortest(t[1..]);
    ValueIsShortest(after[1..]);
    var (value, rest) := ParseValue(after[1..]).value;
    Head(after);
    Head(t);
    KeyAndValueLead(key, value, rest, after[1..], t[1..]);
  }

  lemma KeyAndValueLead(key: Text, value: Token, rest: Text, read: Text, t: Text)
    requires Leads(PrintToken(value) + rest, read) && Leads(Ending(key, [COLON] + read), t)
    ensures Leads(PrintPair((key, value)) + rest, [QUOTE] + t)
  {
    AfterTheKey(key, PrintToken(value) + rest, read);
    LeadsConcat([QUOTE], [QUOTE], Ending(key, [COLON] + read), t);
    LeadsThrough(Quote(key) + [COLON] + (PrintToken(value) + rest), [QUOTE] + Ending(key, [COLON] + read), [QUOTE] + t);
    Grouped(Quote(key) + [COLON], PrintToken(value), rest);
  }

  lemma PairAndMoreLead(pair: (Text, Token), more: Reading, tail: Text)
    requires more != [] && Leads(PrintPairs(more), tail)
    ensures Leads(PrintPairs([pair] + more), PrintPair(pair) + ([COMMA] + tail))
  {
    var all := [pair] + more;
    assert all[0] == pair && all[1..] == more;
    LeadsConcat(PrintPair(pair) + [COMMA], PrintPair(pair) + [COMMA], PrintPairs(more), tail);
    assert PrintPair(pair) + [COMMA] + tail == PrintPair(pair) + ([COMMA] + tail);
  }

  lemma {:induction false} PairsAreShortest(t: Text)
    requires ParsePairs(t).Some? && Printable(t)
    ensures ParsePairs(t).value != [] && Leads(PrintPairs(ParsePairs(t).value), t)
    decreases |t|
  {
    var (key, value, rest) := OnePair(t).value;
    PairIsShortest(t);
    if rest == [CLOSE] {
      assert PrintPairs([(key, value)]) == PrintPair((key, value)) + [CLOSE];
    } else {
      assert rest == [COMMA] + rest[1..];
      CommaPast(rest);
      PairsAreShortest(rest[1..]);
      PairAndMoreLead((key, value), ParsePairs(rest[1..]).value, rest[1..]);
      LeadsThrough(PrintPairs(ParsePairs(t).value), PrintPair((key, value)) + rest, t);
    }
  }

  lemma CommaPast(t: Text)
    requires t != [] && t[0] == COMMA && Printable(t)
    ensures Printable(t[1..])
  {
  }

  // ----- what is printed is printable ---------------------------------------

  lemma HexDigitIsLower(d: nat)
    requires d < 16
    ensures !UpperHex(HexDigit(d))
  {
  }

  lemma EscapedUnitIsPlain(c: Unit, rest: Text)
    requires PlainHex(rest)
    ensures PlainHex(EscapeUnit(c) + rest)
  {
    var t := EscapeUnit(c) + rest;
    if ShortEscape(c).Some? {
      assert t[2..] == rest;
    } else if c < 0x20 || High(c) || Low(c) {
      HexDigitIsLower(c / 4096);
      HexDigitIsLower(c / 256 % 16);
      HexDigitIsLower(c / 16 % 16);
      HexDigitIsLower(c % 16);
      assert t[2] == HexDigit(c / 4096) && t[3] == HexDigit(c / 256 % 16);
      assert t[4] == HexDigit(c / 16 % 16) && t[5] == HexDigit(c % 16) && t[6..] == rest;
    } else {
      assert t[1..] == rest;
    }
  }

  lemma PairPast(s: Text, more: Text)
    requires StartsWithPair(s) && PlainHex(more)
    ensures PlainHex(s[..2] + more)
  {
    BarePast(s[..2], more);
  }

  lemma {:induction false} EscapedIsPlain(s: Text, rest: Text)
    requires PlainHex(rest)
    ensures PlainHex(Escape(s) + rest)
  {
    if s == [] {
      assert Escape(s) + rest == rest;
    } else if StartsWithPair(s) {
      EscapedIsPlain(s[2..], rest);
      PairPast(s, Escape(s[2..]) + rest);
      Grouped(s[..2], Escape(s[2..]), rest);
    } else {
      EscapedIsPlain(s[1..], rest);
      EscapedUnitIsPlain(s[0], Escape(s[1..]) + rest);
      Grouped(EscapeUnit(s[0]), Escape(s[1..]), rest);
    }
  }

  lemma {:induction false} BarePast(piece: Text, rest: Text)
    requires PlainHex(rest) && forall i | 0 <= i < |piece| :: piece[i] != BACKSLASH
    ensures PlainHex(piece + rest)
  {
    if piece == [] {
      assert piece + rest == rest;
    } else {
      BarePast(piece[1..], rest);
      assert (piece + rest)[1..] == piece[1..] + rest;
    }
  }

  lemma QuotedIsPlain(s: Text, rest: Text)
    requires PlainHex(rest)
    ensures PlainHex(Quote(s) + rest)
  {
    BarePast([QUOTE], rest);
    EscapedIsPlain(s, [QUOTE] + rest);
    BarePast([QUOTE], Escape(s) + ([QUOTE] + rest));
    Reassociated([QUOTE], Escape(s), [QUOTE], rest);
  }

  lemma NumbersAreBare(n: int)
    ensures forall i | 0 <= i < |PrintTenths(n)| :: PrintTenths(n)[i] != BACKSLASH
  {
    var size: nat := if n < 0 then -n else n;
    var whole := Digits(size / 10);
    assert forall i | 0 <= i < |whole| :: whole[i] in whole && Digit(whole[i]);
  }

  lemma ValueIsPlain(v: Value, rest: Text)
    requires PlainHex(rest)
    ensures PlainHex(Serialise(v) + rest)
  {
    match v {
      case Str(s) => QuotedIsPlain(s, rest);
      case Num(Finite(x)) =>
        NumbersAreBare(Tenths(x));
        BarePast(Serialise(v), rest);
      case _ => BarePast(Serialise(v), rest);
    }
  }

  lemma PairIsPlain(p: Payload, key: Text, rest: Text)
    requires PlainHex(rest)
    ensures PlainHex(Pair(p, key) + rest)
  {
    var v := Field(p, key);
    ValueIsPlain(v, rest);
    BarePast([COLON], Serialise(v) + rest);
    QuotedIsPlain(key, [COLON] + (Serialise(v) + rest));
    Reassociated(Quote(key), [COLON], Serialise(v), rest);
  }

  lemma {:induction false} PairsArePlain(p: Payload, keys: seq<Text>)
    ensures PlainHex(Pairs(p, keys))
  {
    CloseIsPlain();
    if |keys| == 1 {
      PairIsPlain(p, keys[0], [CLOSE]);
    } else if keys != [] {
      PairsArePlain(p, keys[1..]);
      MorePairsArePlain(p, keys[0], Pairs(p, keys[1..]));
    }
  }

  lemma CloseIsPlain()
    ensures PlainHex([CLOSE])
  {
    assert [CLOSE][1..] == [];
  }

  lemma MorePairsArePlain(p: Payload, key: Text, more: Text)
    requires PlainHex(more)
    ensures PlainHex(Pair(p, key) + [COMMA] + more)
  {
    BarePast([COMMA], more);
    PairIsPlain(p, key, [COMMA] + more);
    Grouped(Pair(p, key), [COMMA], more);
  }

  lemma CanonicalIsPrintable(p: Payload, dateOf: DateReader)
    requires Accepted(p, dateOf)
    ensures Printable(Canonicalise(p, dateOf).value)
  {
    CanonicalIsWellFormed(p, dateOf);
    PairsArePlain(p, SIGNED_KEYS);
    BarePast([OPEN], Pairs(p, SIGNED_KEYS));
  }

  lemma ShortestFor(p: Payload, keys: seq<Text>, t: Text)
    requires keys != [] && Printable(t) && Parse(t) == Some(Reads(p, keys))
    ensures Leads([OPEN] + Pairs(p, keys), t)
  {
    PairsArePrinted(p, keys);
    Head(t);
    PairsAreShortest(t[1..]);
    LeadsConcat([OPEN], [OPEN], Pairs(p, keys), t[1..]);
  }

  /**
  The canonical text of a payload is printable, and is the shortest printable text there is
  that reads as the same keys, in the same order, with the same values; any other is longer.
  */
  lemma CanonicalIsShortest(p: Payload, dateOf: DateReader, t: Text)
    requires Accepted(p, dateOf) && Printable(t) && Parse(t) == Parse(Canonicalise(p, dateOf).value)
    ensures var canonical := Canonicalise(p, dateOf).value;
      Printable(canonical) && |canonical| <= |t| && (|t| == |canonical| ==> t == canonical)
  {
    CanonicalIsPrintable(p, dateOf);
    CanonicalTextReadsBack(p, dateOf);
    ShortestFor(p, SIGNED_KEYS, t);
  }

  // ----- what it says, and what is refused ----------------------------------

  /** The twelve keys as they are published to whoever checks a badge. */
  const PUBLISHED: seq<string> := [
    "v", "kid", "badgeId", "slug", "appName", "certifiedOrigin", "rubricVersion", "score", "assessedOn", "issuedAt",
    "expiresAt", "ownerIsMarketingClient"]

  /** The text has the published keys, each once, in the published order, and nothing else. */
  lemma KeysInOrder(p: Payload, dateOf: DateReader, i: nat)
    requires Accepted(p, dateOf) && i < 12
    ensures var r := Parse(Canonicalise(p, dateOf).value);
      r.Some? && |r.value| == 12 && Spells(r.value[i].0, PUBLISHED[i])
  {
    CanonicalTextReadsBack(p, dateOf);
    SignedArePublished(i);
    ReadsAt(p, SIGNED_KEYS, i);
  }

  lemma SignedArePublished(i: nat)
    requires i < 12
    ensures |SIGNED_KEYS| == |PUBLISHED| == 12 && Spells(SIGNED_KEYS[i], PUBLISHED[i])
  {
    assert SIGNED_KEYS[i] == Ascii(PUBLISHED[i]);
  }

  /** Each value as it is read: text and truth as they were, a number the nearest in tenths, away from nothing on a tie. */
  lemma ValuesAreTheirs(p: Payload, dateOf: DateReader, i: nat)
    requires Accepted(p, dateOf) && i < 12
    ensures var r := Parse(Canonicalise(p, dateOf).value);
      && r.Some? && i < |r.value| && r.value[i].0 in p
      && var v, token := p[r.value[i].0], r.value[i].1;
         && (v.Str? ==> token == TStr(v.s)) && (v.Bool? ==> token == TBool(v.b))
         && (v.Num? && v.n.Finite? ==>
               && token.TTenths?
               && -0.5 <= token.n as real - 10.0 * v.n.x <= 0.5
               && (token.n as real - 10.0 * v.n.x == -0.5 ==> v.n.x < 0.0)
               && (token.n as real - 10.0 * v.n.x == 0.5 ==> v.n.x > 0.0))
  {
    CanonicalTextReadsBack(p, dateOf);
    ReadsAt(p, SIGNED_KEYS, i);
    assert SIGNED_KEYS[i] in Signed();
  }

  /** A field that is not there, or is there as nothing. */
  predicate Absent(p: Payload, key: Text) {
    key !in p || p[key].Undefined? || p[key].Null?
  }

  lemma {:induction false} FirstAbsent(p: Payload, keys: seq<Text>, i: nat)
    requires i < |keys| && Absent(p, keys[i]) && forall j | 0 <= j < i :: !Absent(p, keys[j])
    ensures FirstMissing(p, keys) == Some(keys[i])
  {
    if i > 0 {
      FirstAbsent(p, keys[1..], i - 1);
    }
  }

  /** What the first missing key is told apart by. */
  lemma MissingIsFirst(p: Payload, dateOf: DateReader, i: nat)
    requires i < 12 && Absent(p, SIGNED_KEYS[i]) && forall j | 0 <= j < i :: !Absent(p, SIGNED_KEYS[j])
    ensures Canonicalise(p, dateOf) == Error(Missing(SIGNED_KEYS[i]))
  {
    FirstAbsent(p, SIGNED_KEYS, i);
  }

  /** With none missing: other fields, then another version, then a score that is no number from 0 to 100, then the dates. */
  lemma RefusedInOrder(p: Payload, dateOf: DateReader)
    requires forall k | k in SIGNED_KEYS :: !Absent(p, k)
    ensures var r, others := Canonicalise(p, dateOf), set k | k in p && k !in SIGNED_KEYS;
      var v, score := Field(p, SIGNED_KEYS[0]), Field(p, SIGNED_KEYS[7]);
      if others != {} then r == Error(UnexpectedFields(others))
      else if v != Num(Finite(1.0)) then r == Error(UnsupportedVersion)
      else if !(score.Num? && score.n.Finite? && 0.0 <= score.n.x <= 100.0) then r == Error(BadScore)
      else r.Ok? <==> FirstUndated(p, DATE_KEYS, dateOf).None?
  {
    assert forall k | k in SIGNED_KEYS :: k in p;
    assert FirstMissing(p, SIGNED_KEYS).None?;
    RightCountMeansRightKeys(p);
    KeyFacts();
    OthersAreTheRest(p);
  }

  lemma OthersAreTheRest(p: Payload)
    requires forall k | k in SIGNED_KEYS :: k in p
    ensures p.Keys == Signed() <==> (set k | k in p && k !in SIGNED_KEYS) == {}
  {
    var others := set k | k in p && k !in SIGNED_KEYS;
    assert p.Keys == Signed() + others;
    assert others !! Signed();
  }

  lemma {:induction false} FirstUndatedAt(p: Payload, keys: seq<Text>, dateOf: DateReader, i: nat)
    requires i < |keys| && dateOf(Field(p, keys[i])).None? && forall j | 0 <= j < i :: dateOf(Field(p, keys[j])).Some?
    ensures FirstUndated(p, keys, dateOf) == Some(keys[i])
  {
    if i > 0 {
      FirstUndatedAt(p, keys[1..], dateOf, i - 1);
    }
  }

  /** The date complained of is the first of the three that cannot be read: assessed, issued, expires. */
  lemma BadDateIsFirst(p: Payload, dateOf: DateReader, i: nat)
    requires i < 3 && dateOf(Field(p, DATE_KEYS[i])).None? && forall j | 0 <= j < i :: dateOf(Field(p, DATE_KEYS[j])).Some?
    requires p.Keys == Signed() && (forall k | k in p :: !Absent(p, k)) && Field(p, SIGNED_KEYS[0]) == Num(Finite(1.0))
    requires ScoreInRange(Field(p, SIGNED_KEYS[7]))
    ensures DATE_KEYS[i] == SIGNED_KEYS[8 + i] && Canonicalise(p, dateOf) == Error(NotADate(DATE_KEYS[i]))
  {
    DatesInOrder(i);
    FirstUndatedAt(p, DATE_KEYS, dateOf, i);
    assert FirstMissing(p, SIGNED_KEYS).None?;
    assert forall k | k in SIGNED_KEYS :: k in Signed() && k in p;
    RightCountMeansRightKeys(p);
    KeyFacts();
  }

  lemma DatesInOrder(i: nat)
    requires i < 3
    ensures |DATE_KEYS| == 3 && DATE_KEYS[i] == SIGNED_KEYS[8 + i]
  {
    KeyFacts();
  }
}
