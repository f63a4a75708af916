/** Exactly which time constants make a forgetting nonce cache safe, with the runs that replay
    a token when they are not met. */
module ReplayThreshold {
  import opened Common
  import opened TrustStore
  import opened Validator
  import opened Policy
  import opened DecisionEngine
  import opened ServerRuns

  /** Whatever the libraries answer, no run lets a token through twice. */
  ghost predicate AlwaysOnce(p: Params) {
    forall c: Crypto, cfg: MamaConfig, events: seq<Event> ::
      Timely(events) && ExpiriesAreNumbers(System(p, c, cfg), events) ==> TokensOnce(System(p, c, cfg), events)
  }

  // ----- a server that trusts one node, whose token strings are their own nonces

  function TheKey(): Bytes {
    seq(32, _ => 0)
  }

  function TheClaims(jws: string, exp: Number): Claims {
    map["iss" := JStr("nhp-sba-agent"), "aud" := JStr(EXPECTED_AUDIENCE), "exp" := JNum(exp),
        "nhp_sba_intent" := JObj(map["action_class" := JStr("monitor"), "target_service" := JStr("amf")]),
        "node_id" := JStr("node"), "timestamp" := JNum(Finite(1.0)), "nonce" := JStr(jws)]
  }

  function TheCrypto(exp: Number): Crypto {
    Crypto(_ => Some(TheKey()), _ => true, (_, _) => true, jws => Some(TheClaims(jws, exp)))
  }

  function Ask(jws: string, t: real): Event {
    Request(Payload("node", 1, jws, "key", jws, "amf", "monitor", 0.0), CeiMetrics(1.0, 0.0, 0.0, 0.0), t, t)
  }

  // Token A at time `early`, another token at time `late`, and token A again.
  function ReplayRun(early: real, late: real): seq<Event> {
    [LoadKey("node", TheKey()), Ask("A", early), Ask("B", late), Ask("A", late)]
  }

  lemma TokenPasses(p: Params, exp: Number, k: Keys, jws: string, t: real)
    requires k == Loaded(_ => true, NO_KEYS, "node", TheKey())
    requires !Less(exp, t - p.skew) && !Greater(exp, t + p.bound + p.skew)
    ensures CheckToken(p, TheCrypto(exp), k, Ask(jws, t).x, t) == Accepted(TheClaims(jws, exp))
  {
  }

  lemma TokenReplayed(p: Params, cfg: MamaConfig, exp: Number, early: real, late: real)
    requires late >= early && late - early > p.nonceExpiry
    requires !Less(exp, early - p.skew) && !Greater(exp, early + p.bound + p.skew)
    requires !Less(exp, late - p.skew) && !Greater(exp, late + p.bound + p.skew)
    ensures Timely(ReplayRun(early, late)) && !TokensOnce(System(p, TheCrypto(exp), cfg), ReplayRun(early, late))
  {
    hide Evaluation, CheckToken;
    var sys := System(p, TheCrypto(exp), cfg);
    var events := ReplayRun(early, late);
    var keys := Loaded(sys.c.isKey, NO_KEYS, "node", TheKey());
    assert ServerAt(sys, events, 0) == Server(NO_KEYS, map[]);
    assert ServerAt(sys, events, 1) == Server(keys, map[]);
    assert keys == Loaded(_ => true, NO_KEYS, "node", TheKey());
    TokenPasses(p, exp, keys, "A", early);
    assert Validated(sys, events, 1);
    SeenAfter(sys, events, 1);
    assert ServerAt(sys, events, 2).keys == keys;
    var seen := ServerAt(sys, events, 2).seen;
    assert "B" !in seen && ("A" in seen ==> seen["A"] == early);
    TokenPasses(p, exp, keys, "B", late);
    assert Validated(sys, events, 2);
    SeenAfter(sys, events, 2);
    assert ServerAt(sys, events, 3).keys == keys;
    assert "A" !in ServerAt(sys, events, 3).seen;
    TokenPasses(p, exp, keys, "A", late);
    assert Validated(sys, events, 3);
  }

  lemma RunExpiries(p: Params, cfg: MamaConfig, exp: Number, early: real, late: real, i: nat)
    requires i < 4 && ReplayRun(early, late)[i].Request?
    ensures Expiry(System(p, TheCrypto(exp), cfg), ReplayRun(early, late)[i].x) == Some(exp)
  {
    var x := ReplayRun(early, late)[i].x;
    assert ClaimsIn(TheCrypto(exp), x) == TheClaims(x.jws, exp);
  }

  /** Tokens whose expiry is a number are accepted once in every run exactly when the nonce
      expiry is at least the expiry bound plus twice the skew, or no token can be valid at all.
      The file's 300, 60 and 5 seconds are safe. */
  lemma ThresholdIsExact(p: Params)
    ensures AlwaysOnce(p) <==> Safe(p) || p.bound + 2.0 * p.skew < 0.0
    ensures Safe(DEFAULT_PARAMS)
  {
    hide Evaluation, CheckToken;
    if Safe(p) {
      forall c, cfg, events | Timely(events) && ExpiriesAreNumbers(System(p, c, cfg), events)
        ensures TokensOnce(System(p, c, cfg), events)
      {
        SafeMeansOnce(System(p, c, cfg), events);
      }
    } else if p.bound + 2.0 * p.skew < 0.0 {
      forall c, cfg, events, i: nat | ExpiriesAreNumbers(System(p, c, cfg), events)
        ensures !Validated(System(p, c, cfg), events, i)
      {
        if Validated(System(p, c, cfg), events, i) { CheckedWindow(System(p, c, cfg), events, i); }
      }
    } else {
      var early, late, exp := 0.0, p.bound + 2.0 * p.skew, Finite(p.bound + p.skew);
      TokenReplayed(p, DEFAULT_CONFIG, exp, early, late);
      assert !AlwaysOnce(p) by {
        forall i: nat | Validated(System(p, TheCrypto(exp), DEFAULT_CONFIG), ReplayRun(early, late), i)
          ensures Expiry(System(p, TheCrypto(exp), DEFAULT_CONFIG), ReplayRun(early, late)[i].x) != Some(NaN)
        {
          RunExpiries(p, DEFAULT_CONFIG, exp, early, late, i);
        }
        assert ExpiriesAreNumbers(System(p, TheCrypto(exp), DEFAULT_CONFIG), ReplayRun(early, late));
      }
    }
  }

  /** Every token that some event gets validated carries the expiry `exp`. */
  ghost predicate AllCarry(sys: System, events: seq<Event>, exp: Number) {
    forall i: nat | Validated(sys, events, i) :: Expiry(sys, events[i].x) == Some(exp)
  }

  // Some timely run whose validated tokens all carry `exp` lets one of them through twice.
  ghost predicate ReplayableWith(p: Params, cfg: MamaConfig, exp: Number) {
    exists c: Crypto, events: seq<Event> ::
      Timely(events) && AllCarry(System(p, c, cfg), events, exp) && !TokensOnce(System(p, c, cfg), events)
  }

  lemma RunReplays(p: Params, cfg: MamaConfig, exp: Number, early: real, late: real)
    requires late >= early && late - early > p.nonceExpiry
    requires !Less(exp, early - p.skew) && !Greater(exp, early + p.bound + p.skew)
    requires !Less(exp, late - p.skew) && !Greater(exp, late + p.bound + p.skew)
    ensures ReplayableWith(p, cfg, exp)
  {
    hide Evaluation, CheckToken, TokensOnce;
    TokenReplayed(p, cfg, exp, early, late);
    var sys := System(p, TheCrypto(exp), cfg);
    forall i: nat | Validated(sys, ReplayRun(early, late), i) ensures Expiry(sys, ReplayRun(early, late)[i].x) == Some(exp) {
      RunExpiries(p, cfg, exp, early, late, i);
    }
    assert AllCarry(sys, ReplayRun(early, late), exp);
  }

  lemma InfiniteNeverValid(sys: System, events: seq<Event>, exp: Number)
    requires AllCarry(sys, events, exp) && !exp.Finite? && !exp.NaN?
    ensures TokensOnce(sys, events)
  {
    hide Evaluation, CheckToken;
    forall i: nat ensures !Validated(sys, events, i) {
      if Validated(sys, events, i) { CheckedWindow(sys, events, i); }
    }
  }

  lemma NumbersOnce(p: Params, c: Crypto, cfg: MamaConfig, events: seq<Event>, exp: Number)
    requires Safe(p) || p.bound + 2.0 * p.skew < 0.0
    requires Timely(events) && AllCarry(System(p, c, cfg), events, exp) && exp != NaN
    ensures TokensOnce(System(p, c, cfg), events)
  {
    hide TokensOnce, Timely, Validated, Expiry;
    ThresholdIsExact(p);
    assert ExpiriesAreNumbers(System(p, c, cfg), events);
  }

  /** Exactly which expiries can be replayed, for any constants: NaN always, a finite one exactly
      when the constants are not safe, an infinite one never. */
  lemma ReplayableExactly(p: Params, cfg: MamaConfig, exp: Number)
    ensures ReplayableWith(p, cfg, exp) <==>
      exp == NaN || (exp.Finite? && !Safe(p) && p.bound + 2.0 * p.skew >= 0.0)
  {
    hide TokensOnce, Timely, AllCarry;
    if exp == NaN {
      RunReplays(p, cfg, NaN, 0.0, if p.nonceExpiry < 0.0 then 0.0 else p.nonceExpiry + 1.0);
    } else if !exp.Finite? {
      forall c, events | AllCarry(System(p, c, cfg), events, exp) ensures TokensOnce(System(p, c, cfg), events) {
        InfiniteNeverValid(System(p, c, cfg), events, exp);
      }
    } else if Safe(p) || p.bound + 2.0 * p.skew < 0.0 {
      forall c, events | Timely(events) && AllCarry(System(p, c, cfg), events, exp)
        ensures TokensOnce(System(p, c, cfg), events)
      {
        NumbersOnce(p, c, cfg, events, exp);
      }
    } else {
      RunReplays(p, cfg, exp, exp.value - p.bound - p.skew, exp.value + p.skew);
    }
  }

  /** The restriction to numbers is needed: whatever the constants, a token whose expiry decodes
      to NaN passes both comparisons for ever and is accepted again once its nonce is evicted. With
      safe constants no other expiry can be replayed. */
  lemma NanExpiryIsReplayed(p: Params, cfg: MamaConfig, exp: Number)
    ensures ReplayableWith(p, cfg, NaN)
    ensures Safe(p) ==> (ReplayableWith(p, cfg, exp) <==> exp == NaN)
  {
    hide ReplayableWith;
    ReplayableExactly(p, cfg, NaN);
    ReplayableExactly(p, cfg, exp);
  }
}
