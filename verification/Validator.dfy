/** Token validation (`jwt_validation.py`): the pipeline of checks and the nonce cache that
    forgets. Key decoding, signature verification and claim decoding are parameters. */
module Validator {
  import opened Common
  import opened TrustStore

  // Numbers as the JSON decoder delivers them, NaN and the infinities included.
  datatype Number = Finite(value: real) | NaN | PosInf | NegInf

  datatype Json =
    | JNull | JBool(b: bool) | JNum(n: Number) | JStr(s: string) | JArr(items: seq<Json>) | JObj(fields: map<string, Json>)

  type Claims = map<string, Json>

  datatype Payload = Payload(
    nodeId: string, timestamp: int, nonce: string, publicKey: string, jws: string,
    targetService: string, actionClass: string, currentEdns: real)

  datatype Params = Params(skew: real, bound: real, nonceExpiry: real)

  const DEFAULT_PARAMS := Params(5.0, 60.0, 300.0)
  const EXPECTED_AUDIENCE := "nhp-sba-server"
  const VALID_ISSUERS := ["nhp-sba-agent", "nhp-sba-soc", "nhp-sba-operator"]

  /** What the cryptographic libraries answer. The claims are part of the token itself. */
  datatype Crypto = Crypto(
    decodeKey: string -> Option<Bytes>,
    isKey: Bytes -> bool,
    signatureOk: (string, Bytes) -> bool,
    claimsOf: string -> Option<Claims>)

  datatype Outcome = Accepted(claims: Claims) | Rejected(reason: string)

  // `dict.get`, for which an absent key and a null are the same.
  function Get(claims: Claims, key: string): Json {
    if key in claims then claims[key] else JNull
  }

  // The value of a claim that passes `isinstance(_, (int, float))`, booleans included.
  function AsNumber(j: Json): Option<Number> {
    match j
    case JNum(n) => Some(n)
    case JBool(b) => Some(Finite(if b then 1.0 else 0.0))
    case _ => None
  }

  predicate Less(n: Number, r: real) {
    match n case Finite(x) => x < r case NaN => false case PosInf => false case NegInf => true
  }

  predicate Greater(n: Number, r: real) {
    match n case Finite(x) => x > r case NaN => false case PosInf => true case NegInf => false
  }

  predicate IsText(j: Json) {
    j.JStr? && j.s != ""
  }

  predicate EqualsInt(j: Json, i: int) {
    AsNumber(j) == Some(Finite(i as real))
  }

  function VerifyCompact(c: Crypto, jws: string, key: Bytes): Option<Claims> {
    if c.signatureOk(jws, key) then c.claimsOf(jws) else None
  }

  // Each check returns the reason it raises with, or None.

  function ValidateIssuer(claims: Claims): Option<string> {
    var iss := Get(claims, "iss");
    if !IsText(iss) then Some("missing_claim")
    else if iss.s !in VALID_ISSUERS then Some("invalid_issuer")
    else None
  }

  function ValidateAudience(claims: Claims): Option<string> {
    var aud := Get(claims, "aud");
    if !IsText(aud) then Some("invalid_audience")
    else if aud.s != EXPECTED_AUDIENCE then Some("invalid_audience")
    else None
  }

  function ValidateExpiration(p: Params, claims: Claims, now: real): Option<string> {
    var exp := AsNumber(Get(claims, "exp"));
    if exp.None? then Some("missing_claim")
    else if Less(exp.value, now - p.skew) then Some("expired_token")
    else if Greater(exp.value, now + p.bound + p.skew) then Some("clock_skew_exceeded")
    else None
  }

  function ValidateIntent(claims: Claims): Option<string> {
    var intent := Get(claims, "nhp_sba_intent");
    if !intent.JObj? then Some("missing_claim")
    else if !Get(intent.fields, "action_class").JStr? then Some("missing_claim")
    else if !Get(intent.fields, "target_service").JStr? then Some("missing_claim")
    else None
  }

  function CrossValidate(x: Payload, claims: Claims): Option<string> {
    if Get(claims, "node_id") != JStr(x.nodeId) then Some("cross_validation_failed")
    else if !EqualsInt(Get(claims, "timestamp"), x.timestamp) then Some("cross_validation_failed")
    else if Get(claims, "nonce") != JStr(x.nonce) then Some("cross_validation_failed")
    else None
  }

  function CheckClaims(p: Params, x: Payload, claims: Claims, now: real): Outcome {
    var issuer := ValidateIssuer(claims);
    if issuer.Some? then Rejected(issuer.value) else
    var audience := ValidateAudience(claims);
    if audience.Some? then Rejected(audience.value) else
    var expiration := ValidateExpiration(p, claims, now);
    if expiration.Some? then Rejected(expiration.value) else
    var intent := ValidateIntent(claims);
    if intent.Some? then Rejected(intent.value) else
    var cross := CrossValidate(x, claims);
    if cross.Some? then Rejected(cross.value) else
    Accepted(claims)
  }

  /** Everything before the nonce step, the clock being read as `now`. */
  function CheckToken(p: Params, c: Crypto, k: Keys, x: Payload, now: real): Outcome {
    var key := c.decodeKey(x.publicKey);
    if key.None? || |key.value| != 32 then Rejected("invalid_public_key")
    else if !Trusted(c.isKey, k, x.nodeId, key.value) then Rejected("untrusted_node")
    else
      var claims := VerifyCompact(c, x.jws, key.value);
      if claims.None? then Rejected("invalid_signature") else CheckClaims(p, x, claims.value, now)
  }

  type Seen = map<string, real>

  function CleanedUp(p: Params, seen: Seen, now: real): Seen {
    map n | n in seen && !(now - seen[n] > p.nonceExpiry) :: seen[n]
  }

  function Remembered(p: Params, seen: Seen, nonce: string, now: real): Seen {
    CleanedUp(p, seen[nonce := now], now)
  }

  /** `validate`, with the two clock readings it makes and the nonce cache before and after. */
  function Validation(p: Params, c: Crypto, k: Keys, seen: Seen, x: Payload, t1: real, t2: real): (Outcome, Seen) {
    var checked := CheckToken(p, c, k, x, t1);
    if checked.Rejected? then (checked, seen)
    else if x.nonce in seen then (Rejected("invalid_nonce"), seen)
    else (checked, Remembered(p, seen, x.nonce, t2))
  }

  class NhpJwtValidator {
    const params: Params
    const crypto: Crypto
    const trustStore: Store
    var seenNonces: Seen

    ghost predicate Valid()
      reads this, trustStore
    {
      trustStore.Valid() && trustStore.isKey == crypto.isKey
    }

    constructor (params: Params, crypto: Crypto, trustStore: Store)
      requires trustStore.Valid() && trustStore.isKey == crypto.isKey
      ensures Valid() && seenNonces == map[]
      ensures this.params == params && this.crypto == crypto && this.trustStore == trustStore
    {
      this.params, this.crypto, this.trustStore := params, crypto, trustStore;
      seenNonces := map[];
    }

    method Validate(x: Payload, t1: real, t2: real) returns (r: Outcome)
      requires Valid()
      modifies this`seenNonces
      ensures Valid()
      ensures (r, seenNonces) ==
        Validation(params, crypto, trustStore.Contents(), old(seenNonces), x, t1, t2)
    {
      var key := crypto.decodeKey(x.publicKey);
      if key.None? || |key.value| != 32 {
        return Rejected("invalid_public_key");
      }
      var trusted := trustStore.IsTrusted(x.nodeId, key.value);
      if !trusted {
        return Rejected("untrusted_node");
      }
      var claims := VerifyCompact(crypto, x.jws, key.value);
      if claims.None? {
        return Rejected("invalid_signature");
      }
      r := CheckClaims(params, x, claims.value, t1);
      if r.Accepted? {
        var isNew := ValidateNonce(x.nonce, t2);
        if !isNew {
          r := Rejected("invalid_nonce");
        }
      }
    }

    method ValidateNonce(nonce: string, now: real) returns (isNew: bool)
      modifies this`seenNonces
      ensures isNew <==> nonce !in old(seenNonces)
      ensures seenNonces == if isNew then Remembered(params, old(seenNonces), nonce, now) else old(seenNonces)
    {
      if nonce in seenNonces {
        return false;
      }
      seenNonces := seenNonces[nonce := now];
      CleanupNonces(now);
      isNew := true;
    }

    method CleanupNonces(now: real)
      modifies this`seenNonces
      ensures seenNonces == CleanedUp(params, old(seenNonces), now)
    {
      var expired := set n | n in seenNonces && now - seenNonces[n] > params.nonceExpiry;
      var rest := expired;
      while rest != {}
        invariant rest <= expired <= old(seenNonces).Keys
        invariant seenNonces == map n | n in old(seenNonces) && n !in expired - rest :: old(seenNonces)[n]
        decreases rest
      {
        var n :| n in rest;
        seenNonces := seenNonces - {n};
        rest := rest - {n};
      }
    }

    method ClearNonceCache()
      modifies this`seenNonces
      ensures seenNonces == map[]
    {
      seenNonces := map[];
    }
  }

  // ----- the pipeline as an ordered list of checks

  const REASONS := [
    "invalid_public_key", "untrusted_node", "invalid_signature", "missing_claim", "invalid_issuer",
    "invalid_audience", "missing_claim", "expired_token", "clock_skew_exceeded", "missing_claim",
    "missing_claim", "missing_claim", "cross_validation_failed", "cross_validation_failed",
    "cross_validation_failed", "invalid_nonce"]

  function KeyOf(c: Crypto, x: Payload): Bytes {
    match c.decodeKey(x.publicKey) case Some(key) => key case None => []
  }

  function ClaimsIn(c: Crypto, x: Payload): Claims {
    match c.claimsOf(x.jws) case Some(claims) => claims case None => map[]
  }

  function ExpOf(claims: Claims): Option<Number> {
    AsNumber(Get(claims, "exp"))
  }

  // The claim `key` is present and is `j`.
  predicate Claimed(claims: Claims, key: string, j: Json) {
    key in claims && claims[key] == j
  }

  // The expiry claim is finite with this value; a boolean is 1 or 0.
  predicate Expires(claims: Claims, e: real) {
    || Claimed(claims, "exp", JNum(Finite(e)))
    || (e == 1.0 && Claimed(claims, "exp", JBool(true))) || (e == 0.0 && Claimed(claims, "exp", JBool(false)))
  }

  predicate TextIn(claims: Claims, key: string) {
    key in claims && claims[key].JStr?
  }

  /** Check `i` of the pipeline, stated of the claims themselves and the state it meets. */
  ghost predicate Passes(i: nat, p: Params, c: Crypto, k: Keys, seen: Seen, x: Payload, now: real) {
    var claims := ClaimsIn(c, x);
    match i
    case 0 => |KeyOf(c, x)| == 32
    case 1 => Trusted(c.isKey, k, x.nodeId, KeyOf(c, x))
    case 2 => c.signatureOk(x.jws, KeyOf(c, x)) && c.claimsOf(x.jws).Some?
    case 3 => TextIn(claims, "iss") && claims["iss"].s != ""
    case 4 =>
      || Claimed(claims, "iss", JStr("nhp-sba-agent")) || Claimed(claims, "iss", JStr("nhp-sba-soc"))
      || Claimed(claims, "iss", JStr("nhp-sba-operator"))
    case 5 => Claimed(claims, "aud", JStr("nhp-sba-server"))
    case 6 => "exp" in claims && (claims["exp"].JNum? || claims["exp"].JBool?)
    case 7 => !Claimed(claims, "exp", JNum(NegInf)) && forall e | Expires(claims, e) :: e + p.skew >= now
    case 8 => !Claimed(claims, "exp", JNum(PosInf)) && forall e | Expires(claims, e) :: e - p.skew <= now + p.bound
    case 9 => "nhp_sba_intent" in claims && claims["nhp_sba_intent"].JObj?
    case 10 =>
      "nhp_sba_intent" in claims && claims["nhp_sba_intent"].JObj? && TextIn(claims["nhp_sba_intent"].fields, "action_class")
    case 11 =>
      "nhp_sba_intent" in claims && claims["nhp_sba_intent"].JObj? && TextIn(claims["nhp_sba_intent"].fields, "target_service")
    case 12 => Claimed(claims, "node_id", JStr(x.nodeId))
    case 13 =>
      || Claimed(claims, "timestamp", JNum(Finite(x.timestamp as real)))
      || (x.timestamp == 1 && Claimed(claims, "timestamp", JBool(true)))
      || (x.timestamp == 0 && Claimed(claims, "timestamp", JBool(false)))
    case 14 => Claimed(claims, "nonce", JStr(x.nonce))
    case _ => x.nonce !in seen
  }

  ghost predicate FirstFailure(i: nat, p: Params, c: Crypto, k: Keys, seen: Seen, x: Payload, now: real) {
    && i < |REASONS| && !Passes(i, p, c, k, seen, x, now)
    && forall j | 0 <= j < i :: Passes(j, p, c, k, seen, x, now)
  }

  // The index of the first failing check, or |REASONS|.
  ghost function FirstFrom(i: nat, p: Params, c: Crypto, k: Keys, seen: Seen, x: Payload, now: real): (f: nat)
    requires i <= |REASONS|
    ensures i <= f <= |REASONS| && (f < |REASONS| ==> !Passes(f, p, c, k, seen, x, now))
    ensures forall j | i <= j < f :: Passes(j, p, c, k, seen, x, now)
    decreases |REASONS| - i
  {
    if i == |REASONS| || !Passes(i, p, c, k, seen, x, now) then i else FirstFrom(i + 1, p, c, k, seen, x, now)
  }

  lemma IssuerAndAudience(p: Params, c: Crypto, k: Keys, seen: Seen, x: Payload, now: real)
    ensures ValidateIssuer(ClaimsIn(c, x)) ==
      if !Passes(3, p, c, k, seen, x, now) then Some("missing_claim")
      else if !Passes(4, p, c, k, seen, x, now) then Some("invalid_issuer") else None
    ensures ValidateAudience(ClaimsIn(c, x)) == if !Passes(5, p, c, k, seen, x, now) then Some("invalid_audience") else None
  {
    assert VALID_ISSUERS == ["nhp-sba-agent", "nhp-sba-soc", "nhp-sba-operator"];
  }

  lemma ExpirationChecks(p: Params, c: Crypto, k: Keys, seen: Seen, x: Payload, now: real)
    ensures ValidateExpiration(p, ClaimsIn(c, x), now) ==
      if !Passes(6, p, c, k, seen, x, now) then Some("missing_claim")
      else if !Passes(7, p, c, k, seen, x, now) then Some("expired_token")
      else if !Passes(8, p, c, k, seen, x, now) then Some("clock_skew_exceeded") else None
  {
    var claims := ClaimsIn(c, x);
    if "exp" in claims {
      match claims["exp"] {
        case JNum(n) =>
          if n.Finite? { assert Expires(claims, n.value); }
        case JBool(b) =>
          assert Expires(claims, if b then 1.0 else 0.0);
        case _ =>
      }
    }
  }

  lemma IntentChecks(p: Params, c: Crypto, k: Keys, seen: Seen, x: Payload, now: real)
    ensures ValidateIntent(ClaimsIn(c, x)) ==
      if !Passes(9, p, c, k, seen, x, now) || !Passes(10, p, c, k, seen, x, now) || !Passes(11, p, c, k, seen, x, now)
      then Some("missing_claim") else None
  {
  }

  lemma CrossChecks(p: Params, c: Crypto, k: Keys, seen: Seen, x: Payload, now: real)
    ensures CrossValidate(x, ClaimsIn(c, x)) ==
      if !Passes(12, p, c, k, seen, x, now) || !Passes(13, p, c, k, seen, x, now) || !Passes(14, p, c, k, seen, x, now)
      then Some("cross_validation_failed") else None
  {
  }

  lemma KeyChecks(p: Params, c: Crypto, k: Keys, seen: Seen, x: Payload, now: real)
    ensures CheckToken(p, c, k, x, now) ==
      if !Passes(0, p, c, k, seen, x, now) then Rejected("invalid_public_key")
      else if !Passes(1, p, c, k, seen, x, now) then Rejected("untrusted_node")
      else if !Passes(2, p, c, k, seen, x, now) then Rejected("invalid_signature")
      else CheckClaims(p, x, ClaimsIn(c, x), now)
  {
    hide CheckClaims;
  }

  /** Validation accepts exactly when all sixteen checks pass; otherwise it names the first that
      fails and leaves the nonce cache alone. */
  lemma FirstFailureDecides(p: Params, c: Crypto, k: Keys, seen: Seen, x: Payload, t1: real, t2: real)
    ensures var (r, after) := Validation(p, c, k, seen, x, t1, t2);
      && (r.Accepted? <==> forall i | 0 <= i < |REASONS| :: Passes(i, p, c, k, seen, x, t1))
      && (r.Accepted? ==> r.claims == ClaimsIn(c, x) && after == Remembered(p, seen, x.nonce, t2))
      && (r.Rejected? ==> after == seen)
      && (r.Rejected? ==> exists i: nat :: FirstFailure(i, p, c, k, seen, x, t1) && r.reason == REASONS[i])
  {
    var f := FirstFrom(0, p, c, k, seen, x, t1);
    var (r, after) := Validation(p, c, k, seen, x, t1, t2);
    ClaimChecks(p, c, k, seen, x, t1, f);
    if f < |REASONS| {
      assert FirstFailure(f, p, c, k, seen, x, t1);
    }
  }

  lemma ClaimChecks(p: Params, c: Crypto, k: Keys, seen: Seen, x: Payload, now: real, f: nat)
    requires f <= |REASONS| && (f < |REASONS| ==> !Passes(f, p, c, k, seen, x, now))
    requires forall j | 0 <= j < f :: Passes(j, p, c, k, seen, x, now)
    ensures f >= 15 ==> CheckToken(p, c, k, x, now) == Accepted(ClaimsIn(c, x)) && (f == 15 <==> x.nonce in seen)
    ensures f < 15 ==> CheckToken(p, c, k, x, now) == Rejected(REASONS[f])
  {
    assert Passes(15, p, c, k, seen, x, now) <==> x.nonce !in seen;
    hide Passes, CheckToken, ValidateIssuer, ValidateAudience, ValidateExpiration, ValidateIntent, CrossValidate;
    KeyChecks(p, c, k, seen, x, now);
    IssuerAndAudience(p, c, k, seen, x, now);
    ExpirationChecks(p, c, k, seen, x, now);
    IntentChecks(p, c, k, seen, x, now);
    CrossChecks(p, c, k, seen, x, now);
  }

  /** With the file's constants an expiry passes both comparisons exactly from 5 seconds before the
      clock to 65 seconds after it: the documented 60 seconds and the skew. */
  lemma DefaultWindow(c: Crypto, k: Keys, seen: Seen, x: Payload, now: real, e: real)
    requires Expires(ClaimsIn(c, x), e)
    ensures Passes(7, DEFAULT_PARAMS, c, k, seen, x, now) && Passes(8, DEFAULT_PARAMS, c, k, seen, x, now) <==>
      now - 5.0 <= e <= now + 65.0
  {
    assert forall other | Expires(ClaimsIn(c, x), other) :: other == e;
  }
}
