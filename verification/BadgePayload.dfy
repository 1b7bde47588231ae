/** The payload a badge signature covers, and the one text it is signed as. */
module BadgePayload {
  import opened Options
  import opened JsonText
  import Utf8

  /** A JavaScript number, without signed zero. */
  datatype Number = NaN | Infinite(negative: bool) | Finite(x: real)

  /** A field's value as it arrives: a raw payload is whatever somebody handed over. */
  datatype Value = Undefined | Null | Bool(b: bool) | Num(n: Number) | Str(s: Text)

  type Payload = map<Text, Value>

  const V := Ascii("v")
  const KID := Ascii("kid")
  const SCORE := Ascii("score")
  const ISSUED_AT := Ascii("issuedAt")
  const EXPIRES_AT := Ascii("expiresAt")
  const ASSESSED_ON := Ascii("assessedOn")

  /** The signed keys, in the order they are printed in. */
  const SIGNED_KEYS: seq<Text> := [
    V, KID, Ascii("badgeId"), Ascii("slug"), Ascii("appName"), Ascii("certifiedOrigin"), Ascii("rubricVersion"),
    SCORE, ASSESSED_ON, ISSUED_AT, EXPIRES_AT, Ascii("ownerIsMarketingClient")]

  const DATE_KEYS: seq<Text> := [ASSESSED_ON, ISSUED_AT, EXPIRES_AT]

  datatype PayloadError =
    | Missing(key: Text)
    | UnexpectedFields(keys: set<Text>)
    | UnsupportedVersion
    | BadScore
    | NotADate(key: Text)

  datatype Result<+T> = Ok(value: T) | Error(error: PayloadError)

  /** `new Date(value).getTime()`, absent for NaN. Parsing dates is the engine's own business. */
  type DateReader = Value -> Option<int>

  function Field(p: Payload, key: Text): Value {
    if key in p then p[key] else Undefined
  }

  function FirstMissing(p: Payload, keys: seq<Text>): (r: Option<Text>)
    ensures r.None? <==> forall k | k in keys :: !Field(p, k).Undefined? && !Field(p, k).Null?
  {
    if keys == [] then None
    else if Field(p, keys[0]).Undefined? || Field(p, keys[0]).Null? then Some(keys[0])
    else FirstMissing(p, keys[1..])
  }

  function FirstUndated(p: Payload, keys: seq<Text>, dateOf: DateReader): (r: Option<Text>)
    ensures r.None? <==> forall k | k in keys :: dateOf(Field(p, k)).Some?
  {
    if keys == [] then None
    else if dateOf(Field(p, keys[0])).None? then Some(keys[0])
    else FirstUndated(p, keys[1..], dateOf)
  }

  predicate ScoreInRange(v: Value) {
    v.Num? && v.n.Finite? && 0.0 <= v.n.x <= 100.0
  }

  function Refusal(p: Payload, dateOf: DateReader): Option<PayloadError> {
    var missing := FirstMissing(p, SIGNED_KEYS);
    if missing.Some? then Some(Missing(missing.value))
    else if |p| != |SIGNED_KEYS| then Some(UnexpectedFields(set k | k in p && k !in SIGNED_KEYS))
    else if Field(p, V) != Num(Finite(1.0)) then Some(UnsupportedVersion)
    else if !ScoreInRange(Field(p, SCORE)) then Some(BadScore)
    else
      var undated := FirstUndated(p, DATE_KEYS, dateOf);
      if undated.Some? then Some(NotADate(undated.value)) else None
  }

  // ----- printing -----------------------------------------------------------

  /** `x.toFixed(1)` as a count of tenths: the nearest, and away from zero on a tie. */
  function Tenths(x: real): (n: int)
    ensures -0.5 <= n as real - 10.0 * x <= 0.5
    ensures n as real - 10.0 * x == -0.5 ==> x < 0.0
    ensures n as real - 10.0 * x == 0.5 ==> x > 0.0
  {
    if x < 0.0 then -((-10.0 * x + 0.5).Floor) else (10.0 * x + 0.5).Floor
  }

  /** What a printed value says, once it has been printed. */
  datatype Token = TNull | TBool(b: bool) | TTenths(n: int) | TStr(s: Text)

  function Said(v: Value): Token {
    match v
    case Bool(b) => TBool(b)
    case Str(s) => TStr(s)
    case Num(Finite(x)) => TTenths(Tenths(x))
    case _ => TNull
  }

  const NULL_WORD := Ascii("null")
  const TRUE_WORD := Ascii("true")
  const FALSE_WORD := Ascii("false")

  function Serialise(v: Value): Text {
    match v
    case Bool(b) => if b then TRUE_WORD else FALSE_WORD
    case Str(s) => Quote(s)
    case Num(Finite(x)) => PrintTenths(Tenths(x))
    case _ => NULL_WORD
  }

  function Pair(p: Payload, key: Text): Text {
    Quote(key) + [COLON] + Serialise(Field(p, key))
  }

  /** The pairs joined by commas, and the closing brace. */
  function Pairs(p: Payload, keys: seq<Text>): Text {
    if keys == [] then [CLOSE]
    else if |keys| == 1 then Pair(p, keys[0]) + [CLOSE]
    else Pair(p, keys[0]) + [COMMA] + Pairs(p, keys[1..])
  }

  ghost function Signed(): set<Text> {
    set k | k in SIGNED_KEYS
  }

  lemma KeysAreDistinct()
    ensures forall i, j | 0 <= i < j < |SIGNED_KEYS| :: SIGNED_KEYS[i] != SIGNED_KEYS[j]
  {
    forall i, j | 0 <= i < j < |SIGNED_KEYS| ensures SIGNED_KEYS[i] != SIGNED_KEYS[j] {
      if |SIGNED_KEYS[i]| == |SIGNED_KEYS[j]| {
        assert SIGNED_KEYS[i][0] != SIGNED_KEYS[j][0];
      }
    }
  }

  lemma {:induction false} DistinctSize(keys: seq<Text>)
    requires forall i, j | 0 <= i < j < |keys| :: keys[i] != keys[j]
    ensures |set k | k in keys| == |keys|
  {
    if keys != [] {
      DistinctSize(keys[1..]);
      assert forall k | k in keys[1..] :: k != keys[0];
      assert (set k | k in keys) == {keys[0]} + (set k | k in keys[1..]);
    }
  }

  /** Twelve fields, none of the twelve missing: exactly the twelve. */
  lemma RightCountMeansRightKeys(p: Payload)
    requires forall k | k in SIGNED_KEYS :: k in p
    ensures |p| == |SIGNED_KEYS| <==> p.Keys == Signed()
  {
    KeysAreDistinct();
    DistinctSize(SIGNED_KEYS);
    assert Signed() <= p.Keys;
    assert p.Keys == Signed() + (p.Keys - Signed());
    assert |p.Keys| == |p|;
  }

  function Canonicalise(p: Payload, dateOf: DateReader): (r: Result<Text>)
    ensures r.Ok? <==> Accepted(p, dateOf)
  {
    assert Refusal(p, dateOf).None? <==> Accepted(p, dateOf) by { RefusedIffNotAccepted(p, dateOf); }
    match Refusal(p, dateOf)
    case Some(error) => Error(error)
    case None => Ok([OPEN] + Pairs(p, SIGNED_KEYS))
  }

  /** What a payload has to be for there to be a text to sign. */
  ghost predicate Accepted(p: Payload, dateOf: DateReader) {
    && p.Keys == Signed()
    && (forall k | k in p :: !p[k].Undefined? && !p[k].Null?)
    && Field(p, V) == Num(Finite(1.0)) && ScoreInRange(Field(p, SCORE))
    && forall k | k in DATE_KEYS :: dateOf(Field(p, k)).Some?
  }

  lemma RefusedIffNotAccepted(p: Payload, dateOf: DateReader)
    ensures Refusal(p, dateOf).None? <==> Accepted(p, dateOf)
  {
    if FirstMissing(p, SIGNED_KEYS).None? {
      assert forall k | k in SIGNED_KEYS :: k in p;
      RightCountMeansRightKeys(p);
      assert SIGNED_KEYS[0] == V && SIGNED_KEYS[7] == SCORE;
    } else {
      var k :| k in SIGNED_KEYS && (Field(p, k).Undefined? || Field(p, k).Null?);
      if p.Keys == Signed() {
        assert k in p;
      }
    }
  }

  // ----- reading it back ----------------------------------------------------

  function ParseValue(t: Text): (r: Option<(Token, Text)>)
    ensures r.Some? ==> |r.value.1| < |t|
  {
    if t == [] then None
    else if t[0] == QUOTE then
      match Unescape(t[1..])
      case Some((s, rest)) => Some((TStr(s), rest))
      case None => None
    else if NULL_WORD <= t then Some((TNull, t[4..]))
    else if TRUE_WORD <= t then Some((TBool(true), t[4..]))
    else if FALSE_WORD <= t then Some((TBool(false), t[5..]))
    else
      match ReadTenths(t)
      case Some((n, rest)) => Some((TTenths(n), rest))
      case None => None
  }

  type Reading = seq<(Text, Token)>

  /** A key, its value, and what is left. */
  function OnePair(t: Text): (r: Option<(Text, Token, Text)>)
    ensures r.Some? ==> |r.value.2| < |t|
  {
    if t == [] || t[0] != QUOTE then None
    else match Unescape(t[1..])
      case None => None
      case Some((key, afterKey)) =>
        if afterKey == [] || afterKey[0] != COLON then None
        else match ParseValue(afterKey[1..])
          case None => None
          case Some((value, rest)) => Some((key, value, rest))
  }

  /** Pairs up to the closing brace, with nothing after it. The reader knows no key and no order. */
  function ParsePairs(t: Text): Option<Reading>
    decreases |t|
  {
    match OnePair(t)
    case None => None
    case Some((key, value, rest)) =>
      if rest == [CLOSE] then Some([(key, value)])
      else if rest == [] || rest[0] != COMMA then None
      else match ParsePairs(rest[1..])
        case Some(more) => Some([(key, value)] + more)
        case None => None
  }

  function Parse(t: Text): Option<Reading> {
    if t == [] || t[0] != OPEN then None else ParsePairs(t[1..])
  }

  function Reads(p: Payload, keys: seq<Text>): Reading {
    if keys == [] then [] else [(keys[0], Said(Field(p, keys[0])))] + Reads(p, keys[1..])
  }

  /** What can come after a value inside an object. */
  predicate Punctuated(rest: Text) {
    rest != [] && (rest[0] == COMMA || rest[0] == CLOSE)
  }

  lemma WordRoundTrip(word: Text, rest: Text)
    requires word in [NULL_WORD, TRUE_WORD, FALSE_WORD]
    ensures ParseValue(word + rest) ==
      Some((if word == NULL_WORD then TNull else TBool(word == TRUE_WORD), rest))
  {
    var t := word + rest;
    assert NULL_WORD[0] == 0x6E && TRUE_WORD[0] == 0x74 && FALSE_WORD[0] == 0x66;
    assert t[0] == word[0] && t[|word|..] == rest && word <= t;
  }

  lemma NumberValueRoundTrip(n: int, rest: Text)
    requires Punctuated(rest)
    ensures ParseValue(PrintTenths(n) + rest) == Some((TTenths(n), rest))
  {
    var t := PrintTenths(n) + rest;
    NumberRoundTrip(n, rest);
    NumberStart(n);
    assert t[0] == PrintTenths(n)[0];
    NumbersAreNotWords(t);
  }

  lemma NumbersAreNotWords(t: Text)
    requires t != [] && (t[0] == MINUS || Digit(t[0]))
    ensures t[0] != QUOTE && !(NULL_WORD <= t) && !(TRUE_WORD <= t) && !(FALSE_WORD <= t)
  {
    assert NULL_WORD[0] == 0x6E && TRUE_WORD[0] == 0x74 && FALSE_WORD[0] == 0x66;
  }

  lemma StringValueRoundTrip(s: Text, rest: Text)
    ensures (Quote(s) + rest)[1..] == Escape(s) + [QUOTE] + rest
    ensures Unescape((Quote(s) + rest)[1..]) == Some((s, rest))
  {
    StringRoundTrip(s, rest);
    assert Quote(s) + rest == [QUOTE] + (Escape(s) + [QUOTE] + rest);
  }

  lemma ValueRoundTrip(v: Value, rest: Text)
    requires Punctuated(rest)
    ensures ParseValue(Serialise(v) + rest) == Some((Said(v), rest))
  {
    match v {
      case Str(s) =>
        StringValueRoundTrip(s, rest);
        assert (Quote(s) + rest)[0] == QUOTE;
      case Bool(b) => WordRoundTrip(Serialise(v), rest);
      case Num(Finite(x)) => NumberValueRoundTrip(Tenths(x), rest);
      case _ => WordRoundTrip(NULL_WORD, rest);
    }
  }

  lemma NumberStart(n: int)
    ensures PrintTenths(n) != [] && (PrintTenths(n)[0] == MINUS || Digit(PrintTenths(n)[0]))
  {
    if n >= 0 {
      var whole := Digits(n / 10);
      assert whole[0] in whole && PrintTenths(n)[0] == whole[0];
    }
  }

  lemma PairRoundTrip(key: Text, v: Value, rest: Text)
    requires Punctuated(rest)
    ensures OnePair(Quote(key) + ([COLON] + (Serialise(v) + rest))) == Some((key, Said(v), rest))
  {
    var tail := Serialise(v) + rest;
    var after := [COLON] + tail;
    StringValueRoundTrip(key, after);
    ValueRoundTrip(v, rest);
    assert (Quote(key) + after)[0] == QUOTE;
    assert after[1..] == tail;
  }

  lemma Reassociated(a: Text, b: Text, c: Text, d: Text)
    ensures a + b + c + d == a + (b + (c + d))
  {
  }

  lemma LastPair(p: Payload, key: Text)
    ensures ParsePairs(Pair(p, key) + [CLOSE]) == Some([(key, Said(Field(p, key)))])
  {
    PairRoundTrip(key, Field(p, key), [CLOSE]);
    Reassociated(Quote(key), [COLON], Serialise(Field(p, key)), [CLOSE]);
  }

  lemma PairAndMore(p: Payload, key: Text, more: Text)
    requires ParsePairs(more).Some?
    ensures ParsePairs(Pair(p, key) + [COMMA] + more)
         == Some([(key, Said(Field(p, key)))] + ParsePairs(more).value)
  {
    var rest := [COMMA] + more;
    PairRoundTrip(key, Field(p, key), rest);
    Reassociated(Quote(key), [COLON], Serialise(Field(p, key)), rest);
    assert Pair(p, key) + [COMMA] + more == Pair(p, key) + rest;
    assert rest[1..] == more && rest[0] == COMMA;
  }

  lemma {:induction false} PairsRoundTrip(p: Payload, keys: seq<Text>)
    requires keys != []
    ensures ParsePairs(Pairs(p, keys)) == Some(Reads(p, keys))
  {
    if |keys| == 1 {
      LastPair(p, keys[0]);
      var only: Reading := [(keys[0], Said(Field(p, keys[0])))];
      assert Pairs(p, keys) == Pair(p, keys[0]) + [CLOSE];
      assert Reads(p, keys) == only + Reads(p, []);
      assert only + Reads(p, []) == only;
    } else {
      PairsRoundTrip(p, keys[1..]);
      PairAndMore(p, keys[0], Pairs(p, keys[1..]));
    }
  }

  /** What was signed can be read back, by a reader that is told neither the keys nor their order. */
  lemma CanonicalTextReadsBack(p: Payload, dateOf: DateReader)
    requires Accepted(p, dateOf)
    ensures Parse(Canonicalise(p, dateOf).value) == Some(Reads(p, SIGNED_KEYS))
  {
    PairsRoundTrip(p, SIGNED_KEYS);
    assert ([OPEN] + Pairs(p, SIGNED_KEYS))[1..] == Pairs(p, SIGNED_KEYS);
  }

  // ----- the bytes determine the payload ------------------------------------

  lemma {:induction false} PairsAreWellFormed(p: Payload, keys: seq<Text>)
    ensures Utf8.WellFormed(Pairs(p, keys))
  {
    if keys == [] {
      Utf8.PlainIsWellFormed([CLOSE]);
    } else {
      var v := Field(p, keys[0]);
      assert Utf8.WellFormed(Serialise(v)) by {
        match v {
          case Str(s) => QuotedIsWellFormed(s);
          case Num(Finite(x)) =>
            NumbersArePlain(Tenths(x));
            Utf8.PlainIsWellFormed(Serialise(v));
          case _ => Utf8.PlainIsWellFormed(Serialise(v));
        }
      }
      QuotedIsWellFormed(keys[0]);
      Utf8.PlainIsWellFormed([COLON]);
      Utf8.PlainIsWellFormed([COMMA]);
      Utf8.PlainIsWellFormed([CLOSE]);
      Utf8.WellFormedConcat(Quote(keys[0]), [COLON]);
      Utf8.WellFormedConcat(Quote(keys[0]) + [COLON], Serialise(v));
      Utf8.WellFormedConcat(Pair(p, keys[0]), [COMMA]);
      Utf8.WellFormedConcat(Pair(p, keys[0]), [CLOSE]);
      PairsAreWellFormed(p, keys[1..]);
      Utf8.WellFormedConcat(Pair(p, keys[0]) + [COMMA], Pairs(p, keys[1..]));
    }
  }

  lemma QuotedIsWellFormed(s: Text)
    ensures Utf8.WellFormed(Quote(s))
  {
    Utf8.EscapedIsWellFormed(s);
    Utf8.PlainIsWellFormed([QUOTE]);
    Utf8.WellFormedConcat([QUOTE], Escape(s));
    Utf8.WellFormedConcat([QUOTE] + Escape(s), [QUOTE]);
  }

  lemma NumbersArePlain(n: int)
    ensures forall i | 0 <= i < |PrintTenths(n)| :: PrintTenths(n)[i] < 0xD800
  {
    var size: nat := if n < 0 then -n else n;
    var whole := Digits(size / 10);
    assert forall i | 0 <= i < |whole| :: whole[i] in whole && Digit(whole[i]);
  }

  /** The bytes handed to the signature. */
  function SignedBytes(p: Payload, dateOf: DateReader): Result<seq<Byte>> {
    match Canonicalise(p, dateOf)
    case Ok(t) => Ok(Utf8.Encode(t))
    case Error(e) => Error(e)
  }

  lemma {:induction false} ReadsAt(p: Payload, keys: seq<Text>, i: nat)
    requires i < |keys|
    ensures |Reads(p, keys)| == |keys| && Reads(p, keys)[i] == (keys[i], Said(Field(p, keys[i])))
  {
    if i > 0 {
      ReadsAt(p, keys[1..], i - 1);
    } else if |keys| > 1 {
      ReadsAt(p, keys[1..], 0);
    }
  }

  /**
  Two payloads with the same signed bytes say the same thing in every field: the same
  strings, the same booleans, the same version, and numbers equal to one decimal.
  */
  lemma BytesDetermineThePayload(p: Payload, q: Payload, dateOf: DateReader)
    requires SignedBytes(p, dateOf).Ok? && SignedBytes(p, dateOf) == SignedBytes(q, dateOf)
    ensures p.Keys == q.Keys == Signed()
    ensures forall k | k in p :: Said(p[k]) == Said(q[k])
    ensures forall k | k in p && (p[k].Str? || p[k].Bool?) :: q[k] == p[k]
    ensures p[V] == q[V]
  {
    SameBytesSameReading(p, q, dateOf);
    forall k | k in p
      ensures k in q && Said(p[k]) == Said(q[k])
    {
      SameReadingSameField(p, q, SIGNED_KEYS, k);
    }
    KeyFacts();
  }

  lemma SameReadingSameField(p: Payload, q: Payload, keys: seq<Text>, k: Text)
    requires Reads(p, keys) == Reads(q, keys) && k in keys
    ensures Said(Field(p, k)) == Said(Field(q, k))
  {
    var i :| 0 <= i < |keys| && keys[i] == k;
    ReadsAt(p, keys, i);
    ReadsAt(q, keys, i);
  }

  lemma SameBytesSameReading(p: Payload, q: Payload, dateOf: DateReader)
    requires SignedBytes(p, dateOf).Ok? && SignedBytes(p, dateOf) == SignedBytes(q, dateOf)
    ensures Reads(p, SIGNED_KEYS) == Reads(q, SIGNED_KEYS)
  {
    CanonicalIsWellFormed(p, dateOf);
    CanonicalIsWellFormed(q, dateOf);
    Utf8.EncodingRoundTrip(Canonicalise(p, dateOf).value);
    Utf8.EncodingRoundTrip(Canonicalise(q, dateOf).value);
    CanonicalTextReadsBack(p, dateOf);
    CanonicalTextReadsBack(q, dateOf);
  }

  lemma CanonicalIsWellFormed(p: Payload, dateOf: DateReader)
    requires Canonicalise(p, dateOf).Ok?
    ensures Utf8.WellFormed(Canonicalise(p, dateOf).value)
  {
    PairsAreWellFormed(p, SIGNED_KEYS);
    Utf8.PlainIsWellFormed([OPEN]);
    Utf8.WellFormedConcat([OPEN], Pairs(p, SIGNED_KEYS));
  }

  // ----- printing what was read ---------------------------------------------

  /** The field types the payload declares: numbers for the version and the score, no others. */
  ghost predicate WellTyped(p: Payload) {
    forall k | k in p :: p[k].Num? ==> k == V || k == SCORE
  }

  function Rounded(v: Value): Value {
    match v
    case Num(Finite(x)) => Num(Finite(Tenths(x) as real / 10.0))
    case _ => v
  }

  /** The payload a reader of the canonical text has. */
  function Normal(p: Payload): Payload {
    map k | k in p :: Rounded(p[k])
  }

  lemma TenthsOfTenths(n: int)
    ensures Tenths(n as real / 10.0) == n
  {
    var x := n as real / 10.0;
    assert 10.0 * x == n as real;
    assert Tenths(x) as real - n as real <= 0.5;
  }

  /** What a token that was read stands for. */
  function ValueOf(t: Token): Value {
    match t
    case TNull => Null
    case TBool(b) => Bool(b)
    case TTenths(n) => Num(Finite(n as real / 10.0))
    case TStr(s) => Str(s)
  }

  /** The object a reading is of; a repeated key keeps its last value. */
  function PayloadOf(r: Reading): Payload {
    if r == [] then map[] else map[r[0].0 := ValueOf(r[0].1)] + PayloadOf(r[1..])
  }

  lemma {:induction false} PayloadOfReads(p: Payload, keys: seq<Text>, k: Text)
    ensures k in PayloadOf(Reads(p, keys)) <==> k in keys
    ensures k in keys ==> PayloadOf(Reads(p, keys))[k] == ValueOf(Said(Field(p, k)))
  {
    if keys != [] {
      var all, rest := Reads(p, keys), Reads(p, keys[1..]);
      PayloadOfReads(p, keys[1..], k);
      assert all[0] == (keys[0], Said(Field(p, keys[0]))) && all[1..] == rest;
      assert k in keys <==> k == keys[0] || k in keys[1..];
    }
  }

  lemma ReadValueIsRounded(p: Payload, dateOf: DateReader, k: Text)
    requires Accepted(p, dateOf) && WellTyped(p) && k in p
    ensures ValueOf(Said(p[k])) == Rounded(p[k])
  {
    KeyFacts();
  }

  lemma ReadingIsNormal(p: Payload, dateOf: DateReader)
    requires Accepted(p, dateOf) && WellTyped(p)
    ensures PayloadOf(Reads(p, SIGNED_KEYS)) == Normal(p)
  {
    var read := PayloadOf(Reads(p, SIGNED_KEYS));
    forall k ensures k in read <==> k in Normal(p) {
      PayloadOfReads(p, SIGNED_KEYS, k);
    }
    forall k | k in read ensures read[k] == Normal(p)[k] {
      PayloadOfReads(p, SIGNED_KEYS, k);
      ReadValueIsRounded(p, dateOf, k);
    }
  }

  /** Parsing the canonical text gives back the payload, with its score at one decimal. */
  lemma ParsingGivesBackThePayload(p: Payload, dateOf: DateReader)
    requires Accepted(p, dateOf) && WellTyped(p)
    ensures var parsed := Parse(Canonicalise(p, dateOf).value); parsed.Some? && PayloadOf(parsed.value) == Normal(p)
  {
    CanonicalTextReadsBack(p, dateOf);
    ReadingIsNormal(p, dateOf);
  }

  /** Printing what was parsed prints the same bytes: a round score and its float cannot sign differently. */
  lemma CanonicalFormIsStable(p: Payload, dateOf: DateReader)
    requires Accepted(p, dateOf) && WellTyped(p)
    ensures var parsed := Parse(Canonicalise(p, dateOf).value);
      parsed.Some? && Canonicalise(PayloadOf(parsed.value), dateOf) == Canonicalise(p, dateOf)
  {
    ParsingGivesBackThePayload(p, dateOf);
    NormalIsAccepted(p, dateOf);
    SamePairs(p, Normal(p), SIGNED_KEYS);
  }

  lemma NormalIsAccepted(p: Payload, dateOf: DateReader)
    requires Accepted(p, dateOf) && WellTyped(p)
    ensures Accepted(Normal(p), dateOf)
  {
    var q := Normal(p);
    KeyFacts();
    RoundedVersionAndScore(p);
    forall k | k in DATE_KEYS ensures Field(q, k) == Field(p, k) {
      assert k in Signed() && k != V && k != SCORE;
    }
  }

  lemma RoundedVersionAndScore(p: Payload)
    requires V in p && p[V] == Num(Finite(1.0)) && SCORE in p && ScoreInRange(p[SCORE])
    ensures Rounded(p[V]) == p[V] && ScoreInRange(Rounded(p[SCORE]))
  {
    assert Tenths(1.0) == 10;
  }

  lemma KeyFacts()
    ensures SIGNED_KEYS[0] == V && SIGNED_KEYS[7] == SCORE
    ensures forall k | k in DATE_KEYS :: k in SIGNED_KEYS && k != V && k != SCORE
  {
    KeysAreDistinct();
    assert SIGNED_KEYS[8] == ASSESSED_ON && SIGNED_KEYS[9] == ISSUED_AT && SIGNED_KEYS[10] == EXPIRES_AT;
  }

  lemma {:induction false} SamePairs(p: Payload, q: Payload, keys: seq<Text>)
    requires q == Normal(p)
    ensures Pairs(p, keys) == Pairs(q, keys)
  {
    if keys != [] {
      var v := Field(p, keys[0]);
      assert Serialise(Field(q, keys[0])) == Serialise(v) by {
        if v.Num? && v.n.Finite? {
          TenthsOfTenths(Tenths(v.n.x));
        }
      }
      SamePairs(p, q, keys[1..]);
    }
  }
}
