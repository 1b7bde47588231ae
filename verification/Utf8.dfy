/**
`Buffer.from(text, 'utf8')`: the bytes that are signed. A surrogate without its
partner becomes U+FFFD, so only well-formed text is determined by its bytes.
*/
module Utf8 {
  import opened JsonText

  predicate WellFormed(s: Text) {
    if s == [] then true
    else if StartsWithPair(s) then WellFormed(s[2..])
    else !High(s[0]) && !Low(s[0]) && WellFormed(s[1..])
  }

  function CodePoint(high: Unit, low: Unit): nat
    requires High(high) && Low(low)
  {
    0x1_0000 + (high - 0xD800) * 0x400 + (low - 0xDC00)
  }

  function ByteOf(n: nat): Byte
    requires n < 0x100
  {
    n as Byte
  }

  function Continuation(n: nat): (b: Byte)
    ensures Low6(b) == n % 64
  {
    ByteOf(0x80 + n % 64)
  }

  function EncodeUnit(c: Unit): seq<Byte> {
    if c < 0x80 then [ByteOf(c)]
    else if c < 0x800 then [ByteOf(0xC0 + c / 64), Continuation(c)]
    else [ByteOf(0xE0 + c / 4096), Continuation(c / 64), Continuation(c)]
  }

  function EncodePair(high: Unit, low: Unit): seq<Byte>
    requires High(high) && Low(low)
  {
    var p := CodePoint(high, low);
    [ByteOf(0xF0 + p / 262144), Continuation(p / 4096), Continuation(p / 64), Continuation(p)]
  }

  function Encode(s: Text): seq<Byte> {
    if s == [] then []
    else if StartsWithPair(s) then EncodePair(s[0], s[1]) + Encode(s[2..])
    else if High(s[0]) || Low(s[0]) then EncodeUnit(0xFFFD) + Encode(s[1..])
    else EncodeUnit(s[0]) + Encode(s[1..])
  }

  /** The text a byte sequence came from; bytes no text encodes to are read as nothing. */
  function Decode(b: seq<Byte>): Text {
    if b == [] then []
    else
      var lead := b[0] as int;
      if lead < 0x80 then [lead] + Decode(b[1..])
      else if 0xC0 <= lead < 0xE0 && |b| >= 2 then
        [(lead - 0xC0) * 64 + Low6(b[1])] + Decode(b[2..])
      else if 0xE0 <= lead < 0xF0 && |b| >= 3 then
        [(lead - 0xE0) * 4096 + Low6(b[1]) * 64 + Low6(b[2])] + Decode(b[3..])
      else if 0xF0 <= lead < 0xF5 && |b| >= 4 then
        var p := (lead - 0xF0) * 262144 + Low6(b[1]) * 4096 + Low6(b[2]) * 64 + Low6(b[3]);
        if 0x1_0000 <= p < 0x11_0000 then
          [0xD800 + (p - 0x1_0000) / 0x400, 0xDC00 + (p - 0x1_0000) % 0x400] + Decode(b[4..])
        else []
      else []
  }

  function Low6(b: Byte): (r: nat)
    ensures r < 64
  {
    b as int % 64
  }

  lemma SixBitGroups(p: nat)
    ensures p == p / 262144 * 262144 + p / 4096 % 64 * 4096 + p / 64 % 64 * 64 + p % 64
  {
    var a := p / 64;
    var b := a / 64;
    assert p / 4096 == b && p / 262144 == b / 64;
  }

  lemma DecodeUnit(c: Unit, rest: seq<Byte>)
    ensures Decode(EncodeUnit(c) + rest) == [c] + Decode(rest)
  {
    var b := EncodeUnit(c) + rest;
    SixBitGroups(c);
    assert b[|EncodeUnit(c)|..] == rest;
  }

  lemma PairFromCodePoint(high: Unit, low: Unit)
    requires High(high) && Low(low)
    ensures var p := CodePoint(high, low);
            && 0x1_0000 <= p < 0x11_0000
            && high == 0xD800 + (p - 0x1_0000) / 0x400 && low == 0xDC00 + (p - 0x1_0000) % 0x400
  {
    var h, l: int := high - 0xD800, low - 0xDC00;
    assert (h * 0x400 + l) / 0x400 == h && (h * 0x400 + l) % 0x400 == l;
  }

  lemma DecodePair(high: Unit, low: Unit, rest: seq<Byte>)
    requires High(high) && Low(low)
    ensures Decode(EncodePair(high, low) + rest) == [high, low] + Decode(rest)
  {
    var p := CodePoint(high, low);
    var b := EncodePair(high, low) + rest;
    PairFromCodePoint(high, low);
    SixBitGroups(p);
    var lead := b[0] as int;
    assert lead == 0xF0 + p / 262144 && 0xF0 <= lead < 0xF5;
    assert b[1] == Continuation(p / 4096) && b[2] == Continuation(p / 64) && b[3] == Continuation(p);
    assert (lead - 0xF0) * 262144 + Low6(b[1]) * 4096 + Low6(b[2]) * 64 + Low6(b[3]) == p;
    assert b[4..] == rest;
  }

  /** Bytes determine well-formed text. */
  lemma {:induction false} EncodingRoundTrip(s: Text)
    requires WellFormed(s)
    ensures Decode(Encode(s)) == s
  {
    if s == [] {
    } else if StartsWithPair(s) {
      EncodingRoundTrip(s[2..]);
      DecodePair(s[0], s[1], Encode(s[2..]));
      assert s == [s[0], s[1]] + s[2..];
    } else {
      EncodingRoundTrip(s[1..]);
      DecodeUnit(s[0], Encode(s[1..]));
      assert s == [s[0]] + s[1..];
    }
  }

  lemma {:induction false} WellFormedConcat(s: Text, t: Text)
    requires WellFormed(s) && WellFormed(t)
    ensures WellFormed(s + t)
  {
    if s == [] {
      assert s + t == t;
    } else if StartsWithPair(s) {
      WellFormedConcat(s[2..], t);
      assert (s + t)[2..] == s[2..] + t;
    } else {
      WellFormedConcat(s[1..], t);
      assert (s + t)[1..] == s[1..] + t;
    }
  }

  lemma {:induction false} PlainIsWellFormed(s: Text)
    requires forall i | 0 <= i < |s| :: s[i] < 0xD800
    ensures WellFormed(s)
  {
    if s != [] {
      PlainIsWellFormed(s[1..]);
    }
  }

  /** Escaping leaves no surrogate without its partner, whatever the string held. */
  lemma {:induction false} EscapedIsWellFormed(s: Text)
    ensures WellFormed(Escape(s))
  {
    if s == [] {
    } else if StartsWithPair(s) {
      EscapedIsWellFormed(s[2..]);
      assert (s[..2] + Escape(s[2..]))[2..] == Escape(s[2..]);
    } else {
      EscapedIsWellFormed(s[1..]);
      var c := s[0];
      assert WellFormed(EscapeUnit(c)) by {
        if ShortEscape(c).Some? || c < 0x20 || High(c) || Low(c) {
          PlainIsWellFormed(EscapeUnit(c));
        } else {
          assert EscapeUnit(c)[1..] == [];
        }
      }
      WellFormedConcat(EscapeUnit(c), Escape(s[1..]));
    }
  }

  // ----- the bytes themselves -----------------------------------------------

  predicate Trails(b: Byte) {
    0x80 <= b as int < 0xC0
  }

  /** The table of section 3 of RFC 3629, unit by unit; a surrogate on its own is U+FFFD. */
  lemma EncodesByTheTable(s: Text)
    requires s != []
    ensures var b := Encode(s);
      if s[0] < 0x80 then |b| >= 1 && b[0] as int == s[0] && b[1..] == Encode(s[1..])
      else if s[0] < 0x800 then
        |b| >= 2 && b[2..] == Encode(s[1..]) && 0xC2 <= b[0] as int < 0xE0 && Trails(b[1])
        && s[0] == (b[0] as int - 0xC0) * 0x40 + (b[1] as int - 0x80)
      else if !(0xD800 <= s[0] < 0xE000) then
        |b| >= 3 && b[3..] == Encode(s[1..]) && 0xE0 <= b[0] as int < 0xF0 && Trails(b[1]) && Trails(b[2])
        && s[0] == (b[0] as int - 0xE0) * 0x1000 + (b[1] as int - 0x80) * 0x40 + (b[2] as int - 0x80)
      else if |s| >= 2 && s[0] < 0xDC00 && 0xDC00 <= s[1] < 0xE000 then
        var high: int, low: int := s[0], s[1];
        |b| >= 4 && b[4..] == Encode(s[2..]) && 0xF0 <= b[0] as int < 0xF5 && Trails(b[1]) && Trails(b[2]) && Trails(b[3])
        && 0x1_0000 + (high - 0xD800) * 0x400 + (low - 0xDC00)
           == (b[0] as int - 0xF0) * 0x4_0000 + (b[1] as int - 0x80) * 0x1000 + (b[2] as int - 0x80) * 0x40 + (b[3] as int - 0x80)
      else |b| >= 3 && b[3..] == Encode(s[1..]) && b[0] as int == 0xEF && b[1] as int == 0xBF && b[2] as int == 0xBD
  {
    var b := Encode(s);
    if StartsWithPair(s) {
      PairByTheTable(s[0], s[1]);
      assert b == EncodePair(s[0], s[1]) + Encode(s[2..]);
    } else {
      var c := if High(s[0]) || Low(s[0]) then 0xFFFD else s[0];
      UnitByTheTable(c);
      assert b == EncodeUnit(c) + Encode(s[1..]);
    }
  }

  lemma UnitByTheTable(c: Unit)
    ensures var b := EncodeUnit(c);
      if c < 0x80 then |b| == 1 && b[0] as int == c
      else if c < 0x800 then
        |b| == 2 && 0xC2 <= b[0] as int < 0xE0 && Trails(b[1]) && c == (b[0] as int - 0xC0) * 0x40 + (b[1] as int - 0x80)
      else
        |b| == 3 && 0xE0 <= b[0] as int < 0xF0 && Trails(b[1]) && Trails(b[2])
        && c == (b[0] as int - 0xE0) * 0x1000 + (b[1] as int - 0x80) * 0x40 + (b[2] as int - 0x80)
    ensures c == 0xFFFD ==> EncodeUnit(c)[0] as int == 0xEF && EncodeUnit(c)[1] as int == 0xBF && EncodeUnit(c)[2] as int == 0xBD
  {
    SixBitGroups(c);
  }

  lemma PairByTheTable(h: Unit, l: Unit)
    requires High(h) && Low(l)
    ensures var b := EncodePair(h, l);
      var high: int, low: int := h, l;
      |b| == 4 && 0xF0 <= b[0] as int < 0xF5 && Trails(b[1]) && Trails(b[2]) && Trails(b[3])
      && 0x1_0000 + (high - 0xD800) * 0x400 + (low - 0xDC00)
         == (b[0] as int - 0xF0) * 0x4_0000 + (b[1] as int - 0x80) * 0x1000 + (b[2] as int - 0x80) * 0x40 + (b[3] as int - 0x80)
  {
    PairFromCodePoint(h, l);
    SixBitGroups(CodePoint(h, l));
  }
}
