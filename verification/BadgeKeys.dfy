/** Signing keys, and the public halves that are published for verifiers. */
module BadgeKeys {
  import opened Options
  import opened JsonText

  /** `use` and `alg` are fixed in code and left out. */
  datatype PublicJwk = PublicJwk(kty: Text, crv: Text, x: Text, kid: Text)

  const OKP := Ascii("OKP")
  const ED25519 := Ascii("Ed25519")

  type PrivateKey = nat

  /**
  Ed25519 (section 5.1 of RFC 8032) kept abstract: the public half of a private key as
  the `x` of an OKP key (section 2 of RFC 8037), whether an `x` can be read as a key,
  signing, and verifying.
  */
  datatype Scheme = Scheme(
    publicOf: PrivateKey -> Text,
    readable: Text -> bool,
    sign: (PrivateKey, seq<Byte>) -> seq<Byte>,
    verify: (Text, seq<Byte>, seq<Byte>) -> bool)

  ghost predicate Correct(scheme: Scheme) {
    && (forall key: PrivateKey :: scheme.readable(scheme.publicOf(key)) && scheme.publicOf(key) != [])
    && forall key: PrivateKey, message: seq<Byte> ::
         scheme.verify(scheme.publicOf(key), message, scheme.sign(key, message))
  }

  function ToJwk(x: Text, kid: Text): PublicJwk {
    PublicJwk(OKP, ED25519, x, kid)
  }

  datatype SigningKey = SigningKey(kid: Text, secret: PrivateKey, jwk: PublicJwk)

  /** What `loadSigningKey` builds: the public half derived from the private one, under the configured id. */
  predicate Loaded(scheme: Scheme, key: SigningKey) {
    key.kid != [] && key.jwk == ToJwk(scheme.publicOf(key.secret), key.kid)
  }

  /** `keys.find(key => key.kid === kid)` */
  function Find(keys: seq<PublicJwk>, kid: Text): (r: Option<PublicJwk>)
    ensures r.None? <==> forall k | k in keys :: k.kid != kid
    ensures r.Some? ==> r.value in keys && r.value.kid == kid
  {
    if keys == [] then None else if keys[0].kid == kid then Some(keys[0]) else Find(keys[1..], kid)
  }

  lemma {:induction false} FindConcat(a: seq<PublicJwk>, b: seq<PublicJwk>, kid: Text)
    ensures Find(a + b, kid) == if Find(a, kid).Some? then Find(a, kid) else Find(b, kid)
  {
    if a == [] {
      assert a + b == b;
    } else {
      assert (a + b)[1..] == a[1..] + b;
      FindConcat(a[1..], b, kid);
    }
  }

  // ----- the published set --------------------------------------------------

  function KeySetOf(active: Option<SigningKey>, retired: seq<PublicJwk>): seq<PublicJwk> {
    if active.Some? && Find(retired, active.value.kid).None? then [active.value.jwk] + retired else retired
  }

  method BuildKeySet(active: Option<SigningKey>, retired: seq<PublicJwk>) returns (keys: seq<PublicJwk>)
    ensures keys == KeySetOf(active, retired)
    ensures active.None? || (exists k :: k in retired && k.kid == active.value.kid) ==> keys == retired
    ensures active.Some? && (forall k | k in retired :: k.kid != active.value.kid) ==> keys == [active.value.jwk] + retired
    ensures active.Some? ==> Find(keys, active.value.kid).Some? || active.value.jwk.kid != active.value.kid
    ensures active.None? || active.value.jwk.kid == active.value.kid ==>
      forall k | k in retired :: Find(keys, k.kid) == Find(retired, k.kid)
  {
    keys := retired;
    if active.Some? && Find(keys, active.value.kid).None? {
      keys := [active.value.jwk] + keys;
      if active.value.jwk.kid == active.value.kid {
        forall k | k in retired ensures Find(keys, k.kid) == Find(retired, k.kid) {
          FindConcat([active.value.jwk], retired, k.kid);
        }
      }
    }
  }

  /**
  The active key is published under its own id exactly when no retired key has taken
  that id, or the first that has is the same key.
  */
  lemma ActiveKeyPublishedIff(active: SigningKey, retired: seq<PublicJwk>)
    requires active.jwk.kid == active.kid
    ensures Find(KeySetOf(Some(active), retired), active.kid) == Some(active.jwk)
       <==> Find(retired, active.kid) in {None, Some(active.jwk)}
  {
    FindConcat([active.jwk], retired, active.kid);
  }

  // ----- keys out of an environment variable --------------------------------

  datatype Json = JNull | JBool(b: bool) | JNumber(x: real) | JString(s: Text) | JArray(items: seq<Json>) | JObject(fields: map<Text, Json>)

  datatype Variable = Unset | NotJson | Holds(json: Json)

  const KTY := Ascii("kty")
  const CRV := Ascii("crv")
  const X := Ascii("x")
  const D := Ascii("d")
  const KID := Ascii("kid")
  const UNNAMED := Ascii("(unnamed)")

  function StringField(candidate: Json, name: Text): Option<Text> {
    if candidate.JObject? && name in candidate.fields && candidate.fields[name].JString?
    then Some(candidate.fields[name].s) else None
  }

  predicate Present(field: Option<Text>) {
    field.Some? && field.value != []
  }

  predicate Usable(candidate: Json) {
    && StringField(candidate, KTY) == Some(OKP) && StringField(candidate, CRV) == Some(ED25519)
    && Present(StringField(candidate, X)) && Present(StringField(candidate, KID))
  }

  /** The public half of an entry, built field by field, and whether a private scalar came with it. */
  function PublicPartOf(candidate: Json): (r: (Option<PublicJwk>, bool))
    ensures r.0.Some? <==> Usable(candidate)
    ensures r.0.Some? ==>
      r.0.value.x != [] && r.0.value.kid != [] && r.0.value == ToJwk(r.0.value.x, r.0.value.kid)
  {
    var carriedPrivate := Present(StringField(candidate, D));
    if !Usable(candidate) then (None, carriedPrivate)
    else (Some(PublicJwk(OKP, ED25519, StringField(candidate, X).value, StringField(candidate, KID).value)), carriedPrivate)
  }

  datatype RetiredKeys = RetiredKeys(keys: seq<PublicJwk>, carriedPrivate: seq<Text>, unusable: nat)

  const NO_KEYS := RetiredKeys([], [], 0)

  datatype KeysResult = Ok(value: RetiredKeys) | KeyError

  function Named(candidate: Json): Text {
    var kid := StringField(candidate, KID);
    if kid.Some? then kid.value else UNNAMED
  }

  function Sift(entries: seq<Json>): RetiredKeys {
    if entries == [] then NO_KEYS
    else
      var before := Sift(entries[..|entries| - 1]);
      var (jwk, hadPrivate) := PublicPartOf(entries[|entries| - 1]);
      RetiredKeys(
        if jwk.Some? then before.keys + [jwk.value] else before.keys,
        if hadPrivate then before.carriedPrivate + [Named(entries[|entries| - 1])] else before.carriedPrivate,
        if jwk.Some? then before.unusable else before.unusable + 1)
  }

  function KeysIn(variable: Variable): KeysResult {
    match variable
    case Unset => Ok(NO_KEYS)
    case NotJson => KeyError
    case Holds(JArray(entries)) => Ok(Sift(entries))
    case Holds(_) => Ok(NO_KEYS)
  }

  method PublicJwksFrom(variable: Variable) returns (r: KeysResult)
    ensures r == KeysIn(variable)
    ensures r.Ok? && variable.Holds? && variable.json.JArray? ==>
      |r.value.keys| + r.value.unusable == |variable.json.items|
  {
    match variable
    case Unset => return Ok(NO_KEYS);
    case NotJson => return KeyError;
    case Holds(json) =>
      if !json.JArray? {
        return Ok(NO_KEYS);
      }
      var entries := json.items;
      var keys, carriedPrivate, unusable: nat := [], [], 0;
      for i := 0 to |entries|
        invariant RetiredKeys(keys, carriedPrivate, unusable) == Sift(entries[..i])
        invariant |keys| + unusable == i
      {
        assert entries[..i + 1][..i] == entries[..i];
        var (jwk, hadPrivate) := PublicPartOf(entries[i]);
        if hadPrivate {
          carriedPrivate := carriedPrivate + [Named(entries[i])];
        }
        if jwk.Some? {
          keys := keys + [jwk.value];
        } else {
          unusable := unusable + 1;
        }
      }
      assert entries[..|entries|] == entries;
      return Ok(RetiredKeys(keys, carriedPrivate, unusable));
  }

  /** First mention of a key id wins. */
  function FirstMentions(keys: seq<PublicJwk>): seq<PublicJwk> {
    if keys == [] then []
    else
      var before := FirstMentions(keys[..|keys| - 1]);
      var last := keys[|keys| - 1];
      if Find(before, last.kid).None? then before + [last] else before
  }

  lemma OneMoreMention(keys: seq<PublicJwk>, i: nat)
    requires i < |keys|
    ensures var before := FirstMentions(keys[..i]);
            FirstMentions(keys[..i + 1]) == if Find(before, keys[i].kid).None? then before + [keys[i]] else before
  {
    assert keys[..i + 1][..i] == keys[..i];
  }

  method OnePerId(all: seq<PublicJwk>) returns (keys: seq<PublicJwk>)
    ensures keys == FirstMentions(all)
  {
    keys := [];
    for i := 0 to |all|
      invariant keys == FirstMentions(all[..i])
    {
      OneMoreMention(all, i);
      if Find(keys, all[i].kid).None? {
        keys := keys + [all[i]];
      }
    }
    assert all[..|all|] == all;
  }

  function Published(announced: Variable, retired: Variable): KeysResult {
    match (KeysIn(announced), KeysIn(retired))
    case (Ok(a), Ok(r)) =>
      Ok(RetiredKeys(FirstMentions(a.keys + r.keys), a.carriedPrivate + r.carriedPrivate, a.unusable + r.unusable))
    case _ => KeyError
  }

  method LoadPublishedKeys(announced: Variable, retired: Variable) returns (r: KeysResult)
    ensures r == Published(announced, retired)
  {
    var a := PublicJwksFrom(announced);
    if a.KeyError? {
      return KeyError;
    }
    var b := PublicJwksFrom(retired);
    if b.KeyError? {
      return KeyError;
    }
    var keys := OnePerId(a.value.keys + b.value.keys);
    return Ok(RetiredKeys(keys, a.value.carriedPrivate + b.value.carriedPrivate, a.value.unusable + b.value.unusable));
  }

  /** Dropping later mentions changes no answer: every id still finds the key it found first. */
  lemma {:induction false} FirstMentionsAnswerTheSame(keys: seq<PublicJwk>, kid: Text)
    ensures Find(FirstMentions(keys), kid) == Find(keys, kid)
  {
    if keys != [] {
      var before, last := keys[..|keys| - 1], keys[|keys| - 1];
      FirstMentionsAnswerTheSame(before, kid);
      FindConcat(before, [last], kid);
      assert keys == before + [last];
      if Find(FirstMentions(before), last.kid).None? {
        FindConcat(FirstMentions(before), [last], kid);
      } else if last.kid == kid {
        assert Find(before, kid).Some?;
      }
    }
  }

  /** One key more is published at the end unless its id has been mentioned before. */
  lemma {:induction false} OneMorePublished(keys: seq<PublicJwk>, last: PublicJwk)
    ensures FirstMentions(keys + [last]) ==
      if exists k :: k in keys && k.kid == last.kid then FirstMentions(keys) else FirstMentions(keys) + [last]
  {
    var all := keys + [last];
    assert all[..|all| - 1] == keys;
    FirstMentionsAnswerTheSame(keys, last.kid);
  }

  /** What a list of entries comes to is what each comes to, in order. */
  lemma {:induction false} SiftedInOrder(before: seq<Json>, after: seq<Json>)
    ensures var a, b, all := Sift(before), Sift(after), Sift(before + after);
      all.keys == a.keys + b.keys && all.carriedPrivate == a.carriedPrivate + b.carriedPrivate && all.unusable == a.unusable + b.unusable
  {
    var all := before + after;
    if after == [] {
      assert all == before;
    } else {
      SiftedInOrder(before, after[..|after| - 1]);
      assert all[..|all| - 1] == before + after[..|after| - 1] && all[|all| - 1] == after[|after| - 1];
    }
  }

  /** The entry has this text in this field. */
  predicate Says(entry: Json, name: Text, value: Text) {
    entry.JObject? && name in entry.fields && entry.fields[name] == JString(value)
  }

  lemma NamesAreSpelt()
    ensures Spells(KTY, "kty") && Spells(CRV, "crv") && Spells(X, "x") && Spells(D, "d") && Spells(KID, "kid")
    ensures Spells(OKP, "OKP") && Spells(ED25519, "Ed25519")
  {
  }

  lemma SaysIff(entry: Json, name: Text, value: Text)
    ensures StringField(entry, name) == Some(value) <==> Says(entry, name, value)
  {
  }

  /**
  One entry is a key exactly when it says it is an Ed25519 key and has both an `x` and an
  id; the key is those two and nothing else.
  */
  lemma OneEntry(entry: Json, x: Text, kid: Text)
    ensures Sift([entry]).keys == [PublicJwk(OKP, ED25519, x, kid)] <==>
      && Says(entry, KTY, OKP) && Says(entry, CRV, ED25519) && Says(entry, X, x) && Says(entry, KID, kid) && x != [] && kid != []
    ensures |Sift([entry]).keys| + Sift([entry]).unusable == 1
  {
    SaysIff(entry, KTY, OKP);
    SaysIff(entry, CRV, ED25519);
    SaysIff(entry, X, x);
    SaysIff(entry, KID, kid);
    OneSifted(entry);
  }

  lemma OneSifted(entry: Json)
    ensures var (jwk, hadPrivate) := PublicPartOf(entry);
      Sift([entry]) == RetiredKeys(if jwk.Some? then [jwk.value] else [], if hadPrivate then [Named(entry)] else [],
                                   if jwk.Some? then 0 else 1)
  {
    assert [entry][..0] == [];
  }

  /** An entry that has a `d` with anything in it is named by its id, key or no key; and no other is. */
  lemma PrivateIsNamed(entry: Json, d: Text, kid: Text)
    ensures Says(entry, D, d) && d != [] && Says(entry, KID, kid) ==> Sift([entry]).carriedPrivate == [kid]
    ensures Says(entry, D, d) && d != [] ==> |Sift([entry]).carriedPrivate| == 1
    ensures (forall one: Text :: Says(entry, D, one) ==> one == []) ==> Sift([entry]).carriedPrivate == []
  {
    OneSifted(entry);
    SaysIff(entry, D, d);
    SaysIff(entry, KID, kid);
    if StringField(entry, D).Some? {
      SaysIff(entry, D, StringField(entry, D).value);
    }
  }

  lemma {:induction false} PublishedIdsAreDistinct(keys: seq<PublicJwk>)
    ensures forall i, j | 0 <= i < j < |FirstMentions(keys)| :: FirstMentions(keys)[i].kid != FirstMentions(keys)[j].kid
  {
    if keys != [] {
      PublishedIdsAreDistinct(keys[..|keys| - 1]);
    }
  }

  /** An entry with everything but the four public string fields taken out. */
  function PublicFieldsOnly(candidate: Json): Json {
    match candidate
    case JObject(fields) => JObject(map name | name in fields && name in {KTY, CRV, X, KID} :: fields[name])
    case _ => candidate
  }

  function Each(entries: seq<Json>): seq<Json> {
    seq(|entries|, i requires 0 <= i < |entries| => PublicFieldsOnly(entries[i]))
  }

  /**
  No private component can reach the published set: the keys published are the same as
  if every entry had arrived with nothing but its four public fields.
  */
  lemma {:induction false} PrivatePartsNeverPublished(entries: seq<Json>)
    ensures Sift(Each(entries)).keys == Sift(entries).keys
    ensures Sift(Each(entries)).carriedPrivate == []
  {
    if entries != [] {
      var n := |entries| - 1;
      PrivatePartsNeverPublished(entries[..n]);
      assert Each(entries)[..n] == Each(entries[..n]);
      assert Each(entries)[n] == PublicFieldsOnly(entries[n]);
      FieldNamesDiffer();
      assert forall name | name in {KTY, CRV, X, KID} ::
        StringField(PublicFieldsOnly(entries[n]), name) == StringField(entries[n], name);
      assert StringField(PublicFieldsOnly(entries[n]), D) == None;
    }
  }

  lemma FieldNamesDiffer()
    ensures D !in {KTY, CRV, X, KID}
  {
    assert D[0] == 'd' as int && X[0] == 'x' as int;
    assert |D| == 1 && |KTY| == 3 && |CRV| == 3 && |KID| == 3;
  }

  /** The line a deployment pastes: a loaded key's public half comes back out of it unchanged. */
  function EntryFor(jwk: PublicJwk): Json {
    JObject(map[KTY := JString(jwk.kty), CRV := JString(jwk.crv), X := JString(jwk.x), KID := JString(jwk.kid)])
  }

  lemma PastedKeyComesBack(scheme: Scheme, key: SigningKey)
    requires Correct(scheme) && Loaded(scheme, key)
    ensures KeysIn(Holds(JArray([EntryFor(key.jwk)]))) == Ok(RetiredKeys([key.jwk], [], 0))
  {
    var entry := EntryFor(key.jwk);
    FieldNamesDiffer();
    assert KTY[0] != CRV[0] && KTY[0] == KID[0] && KTY[1] != KID[1] && |X| == 1;
    assert StringField(entry, KTY) == Some(OKP) && StringField(entry, CRV) == Some(ED25519);
    assert StringField(entry, X) == Some(key.jwk.x) && StringField(entry, KID) == Some(key.kid);
    assert scheme.publicOf(key.secret) != [];
    assert [entry][..0] == [];
    assert Sift([entry]) == RetiredKeys([key.jwk], [], 0);
  }
}
