/** Signing a badge, what a verifier concludes, and why rotation never un-verifies history. */
module BadgeSigning {
  import opened Options
  import opened JsonText
  import opened BadgePayload
  import opened Keys = BadgeKeys

  datatype SignedBadge = SignedBadge(payload: Payload, signature: seq<Byte>)

  datatype SignResult = Signed(badge: SignedBadge) | WrongKey | BadPayload(error: PayloadError)

  function SignBadge(scheme: Scheme, dateOf: DateReader, p: Payload, key: SigningKey): (r: SignResult)
    ensures r.Signed? <==> Field(p, BadgePayload.KID) == Str(key.kid) && SignedBytes(p, dateOf).Ok?
    ensures r.Signed? ==> r.badge.payload == p
  {
    if Field(p, BadgePayload.KID) != Str(key.kid) then WrongKey
    else match SignedBytes(p, dateOf)
      case Error(e) => BadPayload(e)
      case Ok(bytes) => SignResult.Signed(SignedBadge(p, scheme.sign(key.secret, bytes)))
  }

  // ----- verification -------------------------------------------------------

  /** What somebody hands the verifier. */
  datatype Raw = NotAnObject | AnObject(p: Payload)

  function ParsePayload(raw: Raw, dateOf: DateReader): Option<Payload> {
    if raw.AnObject? && Canonicalise(raw.p, dateOf).Ok? then Some(raw.p) else None
  }

  datatype Failure =
    | NoPublishedKeys | KeyUnusable | UnknownKey | BadSignature | MalformedPayload | Expired | NotYetValid

  /** The sentence shown, by what it says. */
  datatype Explanation =
    | NotWellFormed
    | WePublishNoKeys
    | WeDidNotIssueIt
    | WeCannotReadOurKey
    | AlteredOrNotOurs
    | ItExpired
    | IssuedInTheFuture
    | Confirmed(disclosesRelationship: bool)

  /** Sentences that tell a stranger something is wrong with the badge itself. */
  predicate BlamesTheBadge(e: Explanation) {
    e.NotWellFormed? || e.WeDidNotIssueIt? || e.AlteredOrNotOurs? || e.ItExpired? || e.IssuedInTheFuture?
  }

  predicate FaultsTheBadge(f: Failure) {
    f != NoPublishedKeys && f != KeyUnusable
  }

  datatype Verdict = Verdict(
    signatureValid: bool,
    withinValidity: bool,
    payload: Option<Payload>,
    kid: Option<Value>,
    failures: seq<Failure>,
    explanation: Explanation)

  function Refused(payload: Option<Payload>, failure: Failure, explanation: Explanation): Verdict {
    Verdict(false, false, payload, if payload.Some? then Some(Field(payload.value, BadgePayload.KID)) else None,
            [failure], explanation)
  }

  /** The published key a payload names. A key id that is not text names none. */
  function NamedKey(keys: seq<PublicJwk>, p: Payload): Option<PublicJwk> {
    if Field(p, BadgePayload.KID).Str? then Find(keys, Field(p, BadgePayload.KID).s) else None
  }

  predicate KeyReads(scheme: Scheme, jwk: PublicJwk) {
    jwk.kty == OKP && jwk.crv == ED25519 && scheme.readable(jwk.x)
  }

  predicate SignatureMatches(scheme: Scheme, dateOf: DateReader, jwk: PublicJwk, badge: SignedBadge) {
    SignedBytes(badge.payload, dateOf).Ok?
    && scheme.verify(jwk.x, SignedBytes(badge.payload, dateOf).value, badge.signature)
  }

  predicate After(date: Option<int>, now: int) {
    date.Some? && date.value > now
  }

  predicate AtOrBefore(date: Option<int>, now: int) {
    date.Some? && date.value <= now
  }

  const OWNER_IS_CLIENT := Ascii("ownerIsMarketingClient")

  predicate Truthy(v: Value) {
    match v
    case Bool(b) => b
    case Str(s) => s != []
    case Num(Finite(x)) => x != 0.0
    case Num(Infinite(_)) => true
    case _ => false
  }

  function Explain(p: Payload, signatureValid: bool, failures: seq<Failure>): Explanation {
    if !signatureValid then AlteredOrNotOurs
    else if Expired in failures then ItExpired
    else if NotYetValid in failures then IssuedInTheFuture
    else Confirmed(Truthy(Field(p, OWNER_IS_CLIENT)))
  }

  /** The checks that follow finding a readable key, as one list of failures. */
  function Faults(dateOf: DateReader, p: Payload, signatureValid: bool, now: int): seq<Failure> {
    (if signatureValid then [] else [BadSignature])
    + (if signatureValid && !After(dateOf(Field(p, EXPIRES_AT)), now) then [Expired] else [])
    + (if signatureValid && !AtOrBefore(dateOf(Field(p, ISSUED_AT)), now) then [NotYetValid] else [])
  }

  function VerdictOn(scheme: Scheme, dateOf: DateReader, raw: Raw, signature: seq<Byte>, keys: seq<PublicJwk>,
                     now: int): Verdict {
    match ParsePayload(raw, dateOf)
    case None => Refused(None, MalformedPayload, NotWellFormed)
    case Some(p) =>
      if keys == [] then Refused(Some(p), NoPublishedKeys, WePublishNoKeys)
      else match NamedKey(keys, p)
        case None => Refused(Some(p), UnknownKey, WeDidNotIssueIt)
        case Some(jwk) =>
          if !KeyReads(scheme, jwk) then Refused(Some(p), KeyUnusable, WeCannotReadOurKey)
          else Judged(dateOf, p, SignatureMatches(scheme, dateOf, jwk, SignedBadge(p, signature)), now)
  }

  /** The verdict once the signature has been checked against a key that reads. */
  function Judged(dateOf: DateReader, p: Payload, valid: bool, now: int): (v: Verdict)
    ensures v.withinValidity <==> v.failures == []
    ensures v.failures == [] <==>
      valid && After(dateOf(Field(p, EXPIRES_AT)), now) && AtOrBefore(dateOf(Field(p, ISSUED_AT)), now)
    ensures forall f | f in v.failures :: FaultsTheBadge(f)
    ensures v.explanation.Confirmed? <==> v.failures == []
    ensures BlamesTheBadge(v.explanation) <==> v.failures != []
  {
    var failures := Faults(dateOf, p, valid, now);
    Verdict(valid, valid && failures == [], Some(p), Some(Field(p, BadgePayload.KID)), failures, Explain(p, valid, failures))
  }

  method VerifyBadge(scheme: Scheme, dateOf: DateReader, raw: Raw, signature: seq<Byte>, keys: seq<PublicJwk>, now: int)
    returns (v: Verdict)
    ensures v == VerdictOn(scheme, dateOf, raw, signature, keys, now)
    ensures v.withinValidity ==> v.signatureValid && v.failures == []
    ensures v.failures == [] <==> v.withinValidity
  {
    var parsed := ParsePayload(raw, dateOf);
    if parsed.None? {
      return Refused(None, MalformedPayload, NotWellFormed);
    }
    var p := parsed.value;
    if |keys| == 0 {
      return Refused(Some(p), NoPublishedKeys, WePublishNoKeys);
    }
    var jwk := NamedKey(keys, p);
    if jwk.None? {
      return Refused(Some(p), UnknownKey, WeDidNotIssueIt);
    }
    if !KeyReads(scheme, jwk.value) {
      return Refused(Some(p), KeyUnusable, WeCannotReadOurKey);
    }
    var failures: seq<Failure> := [];
    ghost var valid := SignatureMatches(scheme, dateOf, jwk.value, SignedBadge(p, signature));
    assert VerdictOn(scheme, dateOf, raw, signature, keys, now) == Judged(dateOf, p, valid, now);
    var signatureValid := SignatureMatches(scheme, dateOf, jwk.value, SignedBadge(p, signature));
    if !signatureValid {
      failures := failures + [BadSignature];
    }
    if signatureValid && !After(dateOf(Field(p, EXPIRES_AT)), now) {
      failures := failures + [Expired];
    }
    if signatureValid && !AtOrBefore(dateOf(Field(p, ISSUED_AT)), now) {
      failures := failures + [NotYetValid];
    }
    assert failures == Faults(dateOf, p, valid, now);
    var withinValidity := signatureValid && |failures| == 0;
    return Verdict(signatureValid, withinValidity, Some(p), Some(Field(p, BadgePayload.KID)), failures,
                   Explain(p, signatureValid, failures));
  }

  // ----- the verdict over time ----------------------------------------------

  /** Whether the signature is genuine never depends on when it is asked. */
  lemma SignatureDoesNotAge(scheme: Scheme, dateOf: DateReader, raw: Raw, signature: seq<Byte>,
                            keys: seq<PublicJwk>, now: int, later: int)
    ensures var a := VerdictOn(scheme, dateOf, raw, signature, keys, now);
            var b := VerdictOn(scheme, dateOf, raw, signature, keys, later);
            && a.signatureValid == b.signatureValid && a.payload == b.payload
            && (a.withinValidity && !b.withinValidity && now <= later ==> Expired in b.failures)
            && (b.withinValidity && !a.withinValidity && now <= later ==> NotYetValid in a.failures)
  {
  }

  /** In force exactly when the first key with the payload's id verifies it and the moment is in its term. */
  lemma InForceIff(scheme: Scheme, dateOf: DateReader, raw: Raw, signature: seq<Byte>, keys: seq<PublicJwk>, now: int)
    ensures VerdictOn(scheme, dateOf, raw, signature, keys, now).withinValidity <==>
      && ParsePayload(raw, dateOf).Some?
      && NamedKey(keys, raw.p).Some? && KeyReads(scheme, NamedKey(keys, raw.p).value)
      && SignatureMatches(scheme, dateOf, NamedKey(keys, raw.p).value, SignedBadge(raw.p, signature))
      && dateOf(Field(raw.p, ISSUED_AT)).Some? && dateOf(Field(raw.p, ISSUED_AT)).value <= now
      && dateOf(Field(raw.p, EXPIRES_AT)).Some? && now < dateOf(Field(raw.p, EXPIRES_AT)).value
  {
  }

  /**
  Our own misconfiguration is never told as a fault of the badge: with no keys published,
  or with the named key unreadable, the answer names us. A badge we did sign is blamed
  only for its dates, whatever else is wrong with the key set.
  */
  lemma OurFaultIsOurs(scheme: Scheme, dateOf: DateReader, raw: Raw, signature: seq<Byte>, keys: seq<PublicJwk>,
                       now: int)
    requires ParsePayload(raw, dateOf).Some?
    ensures var v := VerdictOn(scheme, dateOf, raw, signature, keys, now);
            var ours := keys == [] || (NamedKey(keys, raw.p).Some? && !KeyReads(scheme, NamedKey(keys, raw.p).value));
            && (ours <==> NoPublishedKeys in v.failures || KeyUnusable in v.failures)
            && (ours ==> !BlamesTheBadge(v.explanation) && !v.signatureValid && |v.failures| == 1)
            && (!ours ==> forall f | f in v.failures :: FaultsTheBadge(f))
  {
    var v := VerdictOn(scheme, dateOf, raw, signature, keys, now);
    var named := NamedKey(keys, raw.p);
    if keys != [] && named.Some? && KeyReads(scheme, named.value) {
      assert v == Judged(dateOf, raw.p, SignatureMatches(scheme, dateOf, named.value, SignedBadge(raw.p, signature)), now);
    } else {
      assert v.failures[0] in v.failures;
    }
  }

  /** The sentence and the list never disagree: it reassures exactly when there is nothing to list. */
  lemma SentenceMatchesFailures(scheme: Scheme, dateOf: DateReader, raw: Raw, signature: seq<Byte>,
                                keys: seq<PublicJwk>, now: int)
    ensures var v := VerdictOn(scheme, dateOf, raw, signature, keys, now);
            && (v.explanation.Confirmed? <==> v.failures == [])
            && (BlamesTheBadge(v.explanation) <==> exists f :: f in v.failures && FaultsTheBadge(f))
  {
    var v := VerdictOn(scheme, dateOf, raw, signature, keys, now);
    var named := if raw.AnObject? then NamedKey(keys, raw.p) else None;
    if ParsePayload(raw, dateOf).Some? && keys != [] && named.Some? && KeyReads(scheme, named.value) {
      var valid := SignatureMatches(scheme, dateOf, named.value, SignedBadge(raw.p, signature));
      JudgedSentence(dateOf, raw.p, valid, now);
    } else {
      assert v.failures[0] in v.failures;
    }
  }

  lemma JudgedSentence(dateOf: DateReader, p: Payload, valid: bool, now: int)
    ensures var v := Judged(dateOf, p, valid, now);
            && (v.explanation.Confirmed? <==> v.failures == [])
            && (BlamesTheBadge(v.explanation) <==> exists f :: f in v.failures && FaultsTheBadge(f))
  {
    var v := Judged(dateOf, p, valid, now);
    if v.failures != [] {
      assert v.failures[0] in v.failures;
    }
  }

  /** A badge signed by a key whose public half is found under its id always verifies. */
  lemma SignedBadgesVerify(scheme: Scheme, dateOf: DateReader, p: Payload, key: SigningKey, keys: seq<PublicJwk>,
                           now: int)
    requires Correct(scheme) && Loaded(scheme, key) && SignBadge(scheme, dateOf, p, key).Signed?
    requires Find(keys, key.kid) == Some(key.jwk)
    ensures var badge := SignBadge(scheme, dateOf, p, key).badge;
            VerdictOn(scheme, dateOf, AnObject(badge.payload), badge.signature, keys, now).signatureValid
  {
    var bytes := SignedBytes(p, dateOf).value;
    assert scheme.verify(scheme.publicOf(key.secret), bytes, scheme.sign(key.secret, bytes));
    assert scheme.readable(scheme.publicOf(key.secret));
  }

  // ----- rotation -----------------------------------------------------------

  /** The verdict depends on the key set only through the key it finds. */
  lemma SameKeySameVerdict(scheme: Scheme, dateOf: DateReader, raw: Raw, signature: seq<Byte>,
                           keys: seq<PublicJwk>, others: seq<PublicJwk>, now: int)
    requires raw.AnObject? && NamedKey(keys, raw.p).Some? && NamedKey(others, raw.p) == NamedKey(keys, raw.p)
    ensures VerdictOn(scheme, dateOf, raw, signature, others, now) == VerdictOn(scheme, dateOf, raw, signature, keys, now)
  {
  }

  /** Publishing keys under fresh ids, before or after the old ones, changes no verdict already given. */
  lemma FreshKeysChangeNothing(scheme: Scheme, dateOf: DateReader, raw: Raw, signature: seq<Byte>,
                               before: seq<PublicJwk>, keys: seq<PublicJwk>, after: seq<PublicJwk>, now: int)
    requires raw.AnObject? && NamedKey(keys, raw.p).Some?
    requires forall j, k | j in before && k in keys :: j.kid != k.kid
    ensures VerdictOn(scheme, dateOf, raw, signature, before + keys + after, now)
         == VerdictOn(scheme, dateOf, raw, signature, keys, now)
  {
    var kid := Field(raw.p, BadgePayload.KID).s;
    FindConcat(before, keys, kid);
    FindConcat(before + keys, after, kid);
    SameKeySameVerdict(scheme, dateOf, raw, signature, keys, before + keys + after, now);
  }

  /** The signing side: one active key, the public halves retired so far, every badge ever signed. */
  datatype Office = Office(active: SigningKey, retired: seq<PublicJwk>, issued: seq<SignedBadge>)

  datatype Event = Issue(p: Payload) | Rotate(next: SigningKey)

  predicate Allowed(scheme: Scheme, o: Office, e: Event) {
    e.Rotate? ==> Loaded(scheme, e.next) && e.next.kid != o.active.kid && Find(o.retired, e.next.kid).None?
  }

  function Happen(scheme: Scheme, dateOf: DateReader, o: Office, e: Event): Office {
    match e
    case Issue(p) =>
      var r := SignBadge(scheme, dateOf, p, o.active);
      if r.Signed? then o.(issued := o.issued + [r.badge]) else o
    case Rotate(next) => o.(active := next, retired := [o.active.jwk] + o.retired)
  }

  function HistoryOf(scheme: Scheme, dateOf: DateReader, o: Office, events: seq<Event>): Office {
    if events == [] then o
    else Happen(scheme, dateOf, HistoryOf(scheme, dateOf, o, events[..|events| - 1]), events[|events| - 1])
  }

  predicate AllAllowed(scheme: Scheme, dateOf: DateReader, o: Office, events: seq<Event>) {
    events == [] ||
    (AllAllowed(scheme, dateOf, o, events[..|events| - 1])
     && Allowed(scheme, HistoryOf(scheme, dateOf, o, events[..|events| - 1]), events[|events| - 1]))
  }

  ghost predicate Standing(scheme: Scheme, dateOf: DateReader, o: Office) {
    && Loaded(scheme, o.active)
    && Find(o.retired, o.active.kid).None?
    && forall b | b in o.issued :: Verifiable(scheme, dateOf, KeySetOf(Some(o.active), o.retired), b)
  }

  ghost predicate Verifiable(scheme: Scheme, dateOf: DateReader, keys: seq<PublicJwk>, b: SignedBadge) {
    NamedKey(keys, b.payload).Some?
    && forall now :: VerdictOn(scheme, dateOf, AnObject(b.payload), b.signature, keys, now).signatureValid
  }

  lemma StandingStep(scheme: Scheme, dateOf: DateReader, o: Office, e: Event)
    requires Correct(scheme) && Standing(scheme, dateOf, o) && Allowed(scheme, o, e)
    ensures Standing(scheme, dateOf, Happen(scheme, dateOf, o, e))
  {
    var next := Happen(scheme, dateOf, o, e);
    var keys := KeySetOf(Some(o.active), o.retired);
    assert keys == [o.active.jwk] + o.retired;
    match e {
      case Issue(p) =>
        if SignBadge(scheme, dateOf, p, o.active).Signed? {
          var b := SignBadge(scheme, dateOf, p, o.active).badge;
          FindConcat([o.active.jwk], o.retired, o.active.kid);
          forall now ensures VerdictOn(scheme, dateOf, AnObject(b.payload), b.signature, keys, now).signatureValid {
            SignedBadgesVerify(scheme, dateOf, p, o.active, keys, now);
          }
          assert Verifiable(scheme, dateOf, keys, b);
        }
      case Rotate(k) =>
        FindConcat([o.active.jwk], o.retired, k.kid);
        assert next.retired == keys && KeySetOf(Some(k), keys) == [k.jwk] + keys;
        forall b | b in next.issued
          ensures Verifiable(scheme, dateOf, [k.jwk] + keys, b)
        {
          assert Verifiable(scheme, dateOf, keys, b);
          var kid := Field(b.payload, BadgePayload.KID).s;
          FindConcat([k.jwk], keys, kid);
          forall now
            ensures VerdictOn(scheme, dateOf, AnObject(b.payload), b.signature, [k.jwk] + keys, now).signatureValid
          {
            SameKeySameVerdict(scheme, dateOf, AnObject(b.payload), b.signature, keys, [k.jwk] + keys, now);
          }
        }
    }
  }

  /**
  Rotation never un-verifies history. After any sequence of badges and rotations, every
  badge ever signed verifies, at any time, against the key set published now.
  */
  lemma {:induction false} HistoryKeepsVerifying(scheme: Scheme, dateOf: DateReader, first: SigningKey,
                                                 events: seq<Event>)
    requires Correct(scheme) && Loaded(scheme, first)
    requires AllAllowed(scheme, dateOf, Office(first, [], []), events)
    ensures Standing(scheme, dateOf, HistoryOf(scheme, dateOf, Office(first, [], []), events))
  {
    if events != [] {
      var n := |events| - 1;
      HistoryKeepsVerifying(scheme, dateOf, first, events[..n]);
      StandingStep(scheme, dateOf, HistoryOf(scheme, dateOf, Office(first, [], []), events[..n]), events[n]);
    }
  }

  /** And against what a serving deployment merges out of its two public variables. */
  lemma PublishedSetAgrees(scheme: Scheme, dateOf: DateReader, b: SignedBadge, announced: Variable, retired: Variable,
                           keys: seq<PublicJwk>, now: int)
    requires Verifiable(scheme, dateOf, keys, b)
    requires KeysIn(announced).Ok? && KeysIn(retired).Ok?
    requires KeysIn(announced).value.keys + KeysIn(retired).value.keys == keys
    ensures Published(announced, retired).Ok?
    ensures VerdictOn(scheme, dateOf, AnObject(b.payload), b.signature, Published(announced, retired).value.keys, now)
         == VerdictOn(scheme, dateOf, AnObject(b.payload), b.signature, keys, now)
  {
    FirstMentionsAnswerTheSame(keys, Field(b.payload, BadgePayload.KID).s);
    SameKeySameVerdict(scheme, dateOf, AnObject(b.payload), b.signature, keys, FirstMentions(keys), now);
  }

  // ----- each answer has its own reason -------------------------------------

  /** The first published key under the payload's own id. */
  predicate IsNamed(keys: seq<PublicJwk>, p: Payload, i: nat) {
    i < |keys| && Field(p, BadgePayload.KID) == Str(keys[i].kid) && forall j | 0 <= j < i :: keys[j].kid != keys[i].kid
  }

  lemma {:induction false} NamedIsFound(keys: seq<PublicJwk>, p: Payload, i: nat)
    requires IsNamed(keys, p, i)
    ensures NamedKey(keys, p) == Some(keys[i])
  {
    if i > 0 {
      assert keys[0].kid != keys[i].kid;
      NamedIsFound(keys[1..], p, i - 1);
    }
  }

  predicate Genuine(scheme: Scheme, dateOf: DateReader, jwk: PublicJwk, badge: SignedBadge) {
    SignedBytes(badge.payload, dateOf).Ok? && scheme.verify(jwk.x, SignedBytes(badge.payload, dateOf).value, badge.signature)
  }

  predicate Reads(scheme: Scheme, jwk: PublicJwk) {
    Spells(jwk.kty, "OKP") && Spells(jwk.crv, "Ed25519") && scheme.readable(jwk.x)
  }

  lemma ReadsIff(scheme: Scheme, jwk: PublicJwk)
    ensures KeyReads(scheme, jwk) <==> Reads(scheme, jwk)
  {
    NamesAreSpelt();
    assert Spells(jwk.kty, "OKP") ==> jwk.kty == OKP;
    assert Spells(jwk.crv, "Ed25519") ==> jwk.crv == ED25519;
  }

  /** What is refused before a key is found has one failure and one sentence, its own. */
  lemma EachRefusalIsItsOwn(scheme: Scheme, dateOf: DateReader, raw: Raw, signature: seq<Byte>, keys: seq<PublicJwk>,
                            now: int)
    ensures var v := VerdictOn(scheme, dateOf, raw, signature, keys, now);
      && (raw.NotAnObject? || Canonicalise(raw.p, dateOf).Error? ==>
            v == Verdict(false, false, None, None, [MalformedPayload], NotWellFormed))
      && (raw.AnObject? && Canonicalise(raw.p, dateOf).Ok? ==>
            var kid := Some(Field(raw.p, BadgePayload.KID));
            && (keys == [] ==> v == Verdict(false, false, Some(raw.p), kid, [NoPublishedKeys], WePublishNoKeys))
            && (keys != [] && (forall k | k in keys :: Field(raw.p, BadgePayload.KID) != Str(k.kid)) ==>
                  v == Verdict(false, false, Some(raw.p), kid, [UnknownKey], WeDidNotIssueIt)))
  {
  }

  /** And so has what is refused by the key it names, or by the signature. */
  lemma NamedRefusals(scheme: Scheme, dateOf: DateReader, p: Payload, signature: seq<Byte>, keys: seq<PublicJwk>,
                      now: int, i: nat)
    requires Canonicalise(p, dateOf).Ok? && IsNamed(keys, p, i)
    ensures var v, kid := VerdictOn(scheme, dateOf, AnObject(p), signature, keys, now), Some(Field(p, BadgePayload.KID));
      && (!Reads(scheme, keys[i]) ==> v == Verdict(false, false, Some(p), kid, [KeyUnusable], WeCannotReadOurKey))
      && (Reads(scheme, keys[i]) && !Genuine(scheme, dateOf, keys[i], SignedBadge(p, signature)) ==>
            v == Verdict(false, false, Some(p), kid, [BadSignature], AlteredOrNotOurs))
  {
    NamedIsFound(keys, p, i);
    ReadsIff(scheme, keys[i]);
  }

  lemma NamesAreSpelt()
    ensures Spells(ISSUED_AT, "issuedAt") && Spells(EXPIRES_AT, "expiresAt") && Spells(BadgePayload.KID, "kid")
    ensures Spells(OWNER_IS_CLIENT, "ownerIsMarketingClient")
  {
  }

  lemma GenuineIsJudged(scheme: Scheme, dateOf: DateReader, p: Payload, signature: seq<Byte>, keys: seq<PublicJwk>,
                        now: int, i: nat)
    requires Canonicalise(p, dateOf).Ok? && IsNamed(keys, p, i) && Reads(scheme, keys[i])
    requires Genuine(scheme, dateOf, keys[i], SignedBadge(p, signature))
    ensures VerdictOn(scheme, dateOf, AnObject(p), signature, keys, now) == Judged(dateOf, p, true, now)
  {
    NamedIsFound(keys, p, i);
    ReadsIff(scheme, keys[i]);
    assert SignatureMatches(scheme, dateOf, keys[i], SignedBadge(p, signature));
  }

  /**
  A genuine badge is judged by its dates: expired unless its expiry is after now, not yet
  valid unless its issue is not, both listed where both are so; and the sentence says the
  first of them, or else confirms.
  */
  lemma GenuineIsJudgedByDates(scheme: Scheme, dateOf: DateReader, p: Payload, signature: seq<Byte>, keys: seq<PublicJwk>,
                               now: int, i: nat)
    requires Canonicalise(p, dateOf).Ok? && IsNamed(keys, p, i) && Reads(scheme, keys[i])
    requires Genuine(scheme, dateOf, keys[i], SignedBadge(p, signature))
    ensures var v := VerdictOn(scheme, dateOf, AnObject(p), signature, keys, now);
      var expires, issued := dateOf(Field(p, EXPIRES_AT)), dateOf(Field(p, ISSUED_AT));
      var unexpired, begun := expires.Some? && now < expires.value, issued.Some? && issued.value <= now;
      && v.signatureValid && v.payload == Some(p) && v.kid == Some(Field(p, BadgePayload.KID))
      && (v.withinValidity <==> unexpired && begun)
      && v.failures == (if unexpired then [] else [Expired]) + (if begun then [] else [NotYetValid])
      && (v.explanation == ItExpired <==> !unexpired)
      && (v.explanation == IssuedInTheFuture <==> unexpired && !begun)
      && (v.explanation.Confirmed? <==> unexpired && begun)
      && (v.explanation.Confirmed? ==>
            var client := Field(p, OWNER_IS_CLIENT);
            v.explanation.disclosesRelationship <==>
              || client == Bool(true) || (client.Str? && client.s != [])
              || (client.Num? && (client.n.Infinite? || (client.n.Finite? && client.n.x != 0.0))))
  {
    GenuineIsJudged(scheme, dateOf, p, signature, keys, now, i);
    ListedByDates(dateOf, p, now);
    ToldByDates(dateOf, p, now);
  }

  lemma ListedByDates(dateOf: DateReader, p: Payload, now: int)
    ensures Faults(dateOf, p, true, now)
         == (if After(dateOf(Field(p, EXPIRES_AT)), now) then [] else [Expired])
            + (if AtOrBefore(dateOf(Field(p, ISSUED_AT)), now) then [] else [NotYetValid])
  {
  }

  lemma ToldByDates(dateOf: DateReader, p: Payload, now: int)
    ensures var v := Judged(dateOf, p, true, now);
      var unexpired, begun := After(dateOf(Field(p, EXPIRES_AT)), now), AtOrBefore(dateOf(Field(p, ISSUED_AT)), now);
      && (v.explanation == ItExpired <==> !unexpired) && (v.explanation == IssuedInTheFuture <==> unexpired && !begun)
      && (v.explanation.Confirmed? <==> unexpired && begun)
  {
    var failures := Faults(dateOf, p, true, now);
    assert Expired in failures <==> !After(dateOf(Field(p, EXPIRES_AT)), now);
    assert NotYetValid in failures <==> !AtOrBefore(dateOf(Field(p, ISSUED_AT)), now);
  }
}
