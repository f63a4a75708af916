/** Runs of the whole adversarial TLA+ text, with both intents and every score: what carries over
    from the simulator, and what does not once there are two intents. */
module SpecRuns {
  import opened Handshake
  import opened AdversarialSpec

  ghost predicate FullNext(cfg: Config, p: Spec, q: Spec) {
    Next(cfg, INTENTS, ALL_SCORES, p, q)
  }

  ghost predicate IsSpecRun(cfg: Config, states: seq<Spec>) {
    && states != [] && states[0] == SpecInit(cfg)
    && forall i | 0 <= i < |states| - 1 :: FullNext(cfg, states[i], states[i + 1])
  }

  ghost predicate FullReachable(cfg: Config, p: Spec) {
    exists states :: IsSpecRun(cfg, states) && states[|states| - 1] == p
  }

  lemma SpecInitReached(cfg: Config)
    ensures FullReachable(cfg, SpecInit(cfg))
  {
    hide FullNext;
    assert IsSpecRun(cfg, [SpecInit(cfg)]);
  }

  lemma FullNextReaches(cfg: Config, p: Spec, q: Spec)
    requires FullReachable(cfg, p) && FullNext(cfg, p, q)
    ensures FullReachable(cfg, q)
  {
    hide FullNext;
    var states :| IsSpecRun(cfg, states) && states[|states| - 1] == p;
    var longer := states + [q];
    assert IsSpecRun(cfg, longer) && longer[|longer| - 1] == q;
  }

  // ----- the invariant

  function GatewayOf(p: Spec, a: Agent): Gateway {
    if a in p.gateway then p.gateway[a] else Listen
  }

  function NonceOf(p: Spec, a: Agent): int {
    if a in p.highest then p.highest[a] else 0
  }

  predicate HasMessage(p: Spec, a: Agent) {
    exists m :: m in p.messages && m.agent == a
  }

  predicate HasNonce(p: Spec, a: Agent, nonce: int) {
    exists m :: m in p.messages && m.agent == a && m.nonce == nonce
  }

  predicate Matches(m: Msg, sat: Sat, a: Agent) {
    m.agent == a && sat.agent == a && sat.intent == m.intent
  }

  // Some SAT of `a` has the intent of some message of `a`, whatever its nonce.
  predicate CoveredBySat(p: Spec, a: Agent) {
    exists m, sat :: m in p.messages && sat in p.sats && Matches(m, sat, a)
  }

  predicate CoveredLive(p: Spec, a: Agent) {
    exists m, sat :: m in p.messages && sat in p.sats && Matches(m, sat, a) && sat.exp > p.clock
  }

  predicate SpecFrame(cfg: Config, p: Spec) {
    && p.gateway.Keys == (set a | a in cfg.agents) && p.highest.Keys == (set a | a in cfg.agents)
    && 0 <= p.clock && (p.clock == 0 || p.clock <= cfg.maxTime)
  }

  predicate SpecSats(cfg: Config, p: Spec) {
    forall sat | sat in p.sats ::
      sat.agent in cfg.agents && sat.intent in INTENTS && sat.active && 1 <= sat.exp <= cfg.maxTime
  }

  predicate SpecMessages(cfg: Config, p: Spec) {
    forall m | m in p.messages ::
      && m.agent in cfg.agents && m.kind == KNK && m.intent in INTENTS
      && 1 <= m.nonce <= cfg.maxNonce && m.(isReplay := false) in p.messages
  }

  predicate SpecGateway(p: Spec, a: Agent) {
    var g := GatewayOf(p, a);
    && NonceOf(p, a) >= 0 && (NonceOf(p, a) > 0 ==> HasNonce(p, a, NonceOf(p, a)))
    && (g != Listen ==> HasMessage(p, a))
    && (g == VerifySat || g == EvaluateMama || g == Established ==> NonceOf(p, a) > 0)
    && (g == EvaluateMama || g == Established ==> CoveredBySat(p, a))
  }

  ghost predicate SpecInvariant(cfg: Config, p: Spec) {
    && SpecFrame(cfg, p) && SpecSats(cfg, p) && SpecMessages(cfg, p)
    && forall a | a in cfg.agents :: SpecGateway(p, a)
  }

  /** All that one step of the full model can do to the gateway and nonce of one agent. */
  predicate SpecLocal(cfg: Config, p: Spec, q: Spec, a: Agent) {
    var g, g' := GatewayOf(p, a), GatewayOf(q, a);
    if g == ParseSig && g' == VerifySat then
      NonceOf(p, a) < NonceOf(q, a) && HasNonce(p, a, NonceOf(q, a))
    else
      && NonceOf(q, a) == NonceOf(p, a)
      && (|| g' == g
          || ((g == ParseSig || g == VerifySat) && g' == Corrupted)
          || ((g == ParseSig || g == VerifySat || g == EvaluateMama || g == Corrupted) && g' == Listen)
          || ((g == Listen || g == Corrupted) && g' == ParseSig && HasMessage(p, a))
          || (g == VerifySat && g' == EvaluateMama && CoveredLive(p, a))
          || (g == EvaluateMama && g' == Established && (cfg.minSafetyScore <= 100 || p.byzantine)))
  }

  // A step of the agents, the attacker on the network, the clock or the policy engine.
  ghost predicate NetworkMove(cfg: Config, p: Spec, q: Spec) {
    || (exists a, exp, intent ::
          a in cfg.agents && p.clock + 1 <= exp <= cfg.maxTime && intent in INTENTS && RequestIntent(p, q, a, exp, intent))
    || (exists a, nonce, intent ::
          a in cfg.agents && intent in INTENTS && SendHandshake(cfg, p, q, a, nonce, intent))
    || (cfg.agents != [] && Replay(p, q))
    || Byzantine(p, q)
    || Tick(cfg, p, q)
  }

  // A step of the gateway of agent `b`, corruption included.
  ghost predicate GatewayMove(cfg: Config, p: Spec, q: Spec, b: Agent) {
    || (b in cfg.agents && Corruption(p, q, b))
    || (exists m :: ReceiveKNK(p, q, m) && m.agent == b)
    || (b in cfg.agents && ParseSignature(p, q, b))
    || (b in cfg.agents && VerifySAT(p, q, b))
    || (b in cfg.agents && EvaluateMAMA(cfg, ALL_SCORES, p, q, b))
    || (b in cfg.agents && RecoverCorruption(p, q, b))
  }

  lemma FullNextSplits(cfg: Config, p: Spec, q: Spec)
    requires FullNext(cfg, p, q)
    ensures NetworkMove(cfg, p, q) || exists b :: GatewayMove(cfg, p, q, b)
  {
    hide RequestIntent, SendHandshake, Replay, Byzantine, Tick, Corruption, ReceiveKNK, ParseSignature, VerifySAT,
      EvaluateMAMA, RecoverCorruption;
    if m :| ReceiveKNK(p, q, m) {
      assert GatewayMove(cfg, p, q, m.agent);
    } else if !NetworkMove(cfg, p, q) {
      var b :| b in cfg.agents && (Corruption(p, q, b) || ParseSignature(p, q, b) || VerifySAT(p, q, b)
        || EvaluateMAMA(cfg, ALL_SCORES, p, q, b) || RecoverCorruption(p, q, b));
      assert GatewayMove(cfg, p, q, b);
    }
  }

  // What a step that leaves all gateways alone keeps.
  ghost predicate KeepsWell(cfg: Config, p: Spec, q: Spec) {
    && SpecFrame(cfg, q) && SpecSats(cfg, q) && SpecMessages(cfg, q)
    && q.gateway == p.gateway && q.highest == p.highest && p.sats <= q.sats && p.messages <= q.messages
  }

  lemma RequestKeeps(cfg: Config, p: Spec, q: Spec, a: Agent, exp: int, intent: string)
    requires SpecFrame(cfg, p) && SpecSats(cfg, p) && SpecMessages(cfg, p) && RequestIntent(p, q, a, exp, intent)
    requires a in cfg.agents && p.clock + 1 <= exp <= cfg.maxTime && intent in INTENTS
    ensures KeepsWell(cfg, p, q)
  {
  }

  lemma SendKeeps(cfg: Config, p: Spec, q: Spec, a: Agent, nonce: int, intent: string)
    requires SpecFrame(cfg, p) && SpecSats(cfg, p) && SpecMessages(cfg, p) && SendHandshake(cfg, p, q, a, nonce, intent)
    requires a in cfg.agents && intent in INTENTS
    ensures KeepsWell(cfg, p, q)
  {
  }

  lemma ReplayKeeps(cfg: Config, p: Spec, q: Spec)
    requires SpecFrame(cfg, p) && SpecSats(cfg, p) && SpecMessages(cfg, p) && Replay(p, q)
    ensures KeepsWell(cfg, p, q)
  {
  }

  lemma NetworkMoveKeeps(cfg: Config, p: Spec, q: Spec)
    requires SpecFrame(cfg, p) && SpecSats(cfg, p) && SpecMessages(cfg, p) && NetworkMove(cfg, p, q)
    ensures KeepsWell(cfg, p, q)
  {
    hide RequestIntent, SendHandshake, Replay;
    if a, exp, intent :|
      a in cfg.agents && p.clock + 1 <= exp <= cfg.maxTime && intent in INTENTS && RequestIntent(p, q, a, exp, intent)
    {
      RequestKeeps(cfg, p, q, a, exp, intent);
    } else if a, nonce, intent :| a in cfg.agents && intent in INTENTS && SendHandshake(cfg, p, q, a, nonce, intent) {
      SendKeeps(cfg, p, q, a, nonce, intent);
    } else if Replay(p, q) {
      ReplayKeeps(cfg, p, q);
    }
  }

  // What a step of one gateway keeps.
  ghost predicate KeepsOthers(cfg: Config, p: Spec, q: Spec, b: Agent) {
    && SpecFrame(cfg, q) && q.sats == p.sats && q.messages == p.messages && q.clock == p.clock && q.byzantine == p.byzantine
    && forall a | a != b :: GatewayOf(q, a) == GatewayOf(p, a) && NonceOf(q, a) == NonceOf(p, a)
  }

  lemma ParseKeeps(cfg: Config, p: Spec, q: Spec, b: Agent)
    requires SpecFrame(cfg, p) && ParseSignature(p, q, b)
    ensures KeepsOthers(cfg, p, q, b)
  {
  }

  lemma VerifyKeeps(cfg: Config, p: Spec, q: Spec, b: Agent)
    requires SpecFrame(cfg, p) && VerifySAT(p, q, b)
    ensures KeepsOthers(cfg, p, q, b)
  {
  }

  lemma GatewayMoveKeeps(cfg: Config, p: Spec, q: Spec, b: Agent)
    requires SpecFrame(cfg, p) && GatewayMove(cfg, p, q, b)
    ensures KeepsOthers(cfg, p, q, b) && b in cfg.agents
  {
    hide ParseSignature, VerifySAT;
    if ParseSignature(p, q, b) {
      ParseKeeps(cfg, p, q, b);
    } else if VerifySAT(p, q, b) {
      VerifyKeeps(cfg, p, q, b);
    }
  }

  lemma ParseIsLocal(cfg: Config, p: Spec, q: Spec, a: Agent)
    requires ParseSignature(p, q, a)
    ensures SpecLocal(cfg, p, q, a)
  {
  }

  lemma VerifyIsLocal(cfg: Config, p: Spec, q: Spec, a: Agent)
    requires VerifySAT(p, q, a)
    ensures SpecLocal(cfg, p, q, a)
  {
  }

  lemma OwnMoveIsLocal(cfg: Config, p: Spec, q: Spec, a: Agent)
    requires GatewayMove(cfg, p, q, a)
    ensures SpecLocal(cfg, p, q, a)
  {
    hide ParseSignature, VerifySAT;
    if ParseSignature(p, q, a) {
      ParseIsLocal(cfg, p, q, a);
    } else if VerifySAT(p, q, a) {
      VerifyIsLocal(cfg, p, q, a);
    }
  }

  lemma SpecKeepsRest(cfg: Config, p: Spec, q: Spec)
    requires SpecFrame(cfg, p) && SpecSats(cfg, p) && SpecMessages(cfg, p) && FullNext(cfg, p, q)
    ensures SpecFrame(cfg, q) && SpecSats(cfg, q) && SpecMessages(cfg, q)
    ensures p.sats <= q.sats && p.messages <= q.messages
  {
    hide FullNext, NetworkMove, GatewayMove, SpecFrame;
    FullNextSplits(cfg, p, q);
    if b :| GatewayMove(cfg, p, q, b) {
      GatewayMoveKeeps(cfg, p, q, b);
    } else {
      NetworkMoveKeeps(cfg, p, q);
    }
  }

  lemma SpecStepIsLocal(cfg: Config, p: Spec, q: Spec, a: Agent)
    requires SpecFrame(cfg, p) && SpecSats(cfg, p) && SpecMessages(cfg, p) && FullNext(cfg, p, q)
    ensures SpecLocal(cfg, p, q, a)
  {
    hide FullNext, NetworkMove, GatewayMove, SpecFrame, SpecSats, SpecMessages;
    FullNextSplits(cfg, p, q);
    if NetworkMove(cfg, p, q) {
      NetworkMoveKeeps(cfg, p, q);
    } else {
      var b :| GatewayMove(cfg, p, q, b);
      GatewayMoveKeeps(cfg, p, q, b);
      if b == a {
        OwnMoveIsLocal(cfg, p, q, a);
      }
    }
  }

  lemma SpecKeepsGateway(cfg: Config, p: Spec, q: Spec, a: Agent)
    requires SpecFrame(cfg, p) && SpecSats(cfg, p) && SpecMessages(cfg, p) && FullNext(cfg, p, q) && SpecGateway(p, a)
    ensures SpecGateway(q, a)
  {
    hide FullNext, SpecFrame, SpecSats, SpecMessages;
    SpecKeepsRest(cfg, p, q);
    SpecStepIsLocal(cfg, p, q, a);
  }

  lemma FullNextKeepsInvariant(cfg: Config, p: Spec, q: Spec)
    requires SpecInvariant(cfg, p) && FullNext(cfg, p, q)
    ensures SpecInvariant(cfg, q)
  {
    hide FullNext, SpecFrame, SpecSats, SpecMessages, SpecGateway, SpecLocal;
    SpecKeepsRest(cfg, p, q);
    forall a | a in cfg.agents ensures SpecGateway(q, a) {
      SpecKeepsGateway(cfg, p, q, a);
    }
  }

  lemma InitInvariant(cfg: Config)
    ensures SpecInvariant(cfg, SpecInit(cfg))
  {
  }

  lemma {:induction false} SpecRunInvariant(cfg: Config, states: seq<Spec>, n: nat)
    requires IsSpecRun(cfg, states) && n < |states|
    ensures SpecInvariant(cfg, states[n])
  {
    hide FullNext, SpecInvariant;
    if n == 0 {
      InitInvariant(cfg);
    } else {
      SpecRunInvariant(cfg, states, n - 1);
      FullNextKeepsInvariant(cfg, states[n - 1], states[n]);
    }
  }

  /** Every state of the full model is well formed: replays have honest originals, and an agent
      being evaluated or established has a SAT with the intent of one of its messages. */
  lemma FullReachableInvariant(cfg: Config, p: Spec)
    requires FullReachable(cfg, p)
    ensures SpecInvariant(cfg, p)
  {
    hide FullNext, SpecInvariant;
    var states :| IsSpecRun(cfg, states) && states[|states| - 1] == p;
    SpecRunInvariant(cfg, states, |states| - 1);
  }

  lemma SpecRunStep(cfg: Config, states: seq<Spec>, a: Agent, n: nat)
    requires IsSpecRun(cfg, states) && n < |states| - 1
    ensures SpecLocal(cfg, states[n], states[n + 1], a)
    ensures states[n].sats <= states[n + 1].sats && states[n].messages <= states[n + 1].messages
  {
    hide FullNext, SpecLocal, SpecFrame, SpecSats, SpecMessages;
    SpecRunInvariant(cfg, states, n);
    SpecKeepsRest(cfg, states[n], states[n + 1]);
    SpecStepIsLocal(cfg, states[n], states[n + 1], a);
  }

  // ----- what carries over

  /** The nonces with which `a` enters VERIFY_SAT in the first `n` steps. */
  function AcceptedIn(states: seq<Spec>, a: Agent, n: nat): seq<int>
    requires n < |states|
  {
    if n == 0 then []
    else if GatewayOf(states[n - 1], a) != VerifySat && GatewayOf(states[n], a) == VerifySat then
      AcceptedIn(states, a, n - 1) + [NonceOf(states[n], a)]
    else AcceptedIn(states, a, n - 1)
  }

  /** In the full model too the accepted nonces of an agent strictly increase and were sent. */
  lemma {:induction false} SpecNoncesIncrease(cfg: Config, states: seq<Spec>, a: Agent, n: nat)
    requires IsSpecRun(cfg, states) && n < |states|
    ensures var ns := AcceptedIn(states, a, n);
      && (forall i, j | 0 <= i < j < |ns| :: ns[i] < ns[j])
      && NonceOf(states[n], a) == (if ns == [] then 0 else ns[|ns| - 1])
      && (forall k | k in ns :: HasNonce(states[n], a, k))
  {
    hide FullNext;
    if n > 0 {
      SpecNoncesIncrease(cfg, states, a, n - 1);
      SpecRunStep(cfg, states, a, n - 1);
      assert forall k | HasNonce(states[n - 1], a, k) :: HasNonce(states[n], a, k);
    }
  }

  /** And ESTABLISHED is never left, with the nonce it was entered with. */
  lemma {:induction false} SpecEstablishedIsFinal(cfg: Config, states: seq<Spec>, a: Agent, i: nat, j: nat)
    requires IsSpecRun(cfg, states) && i <= j < |states| && GatewayOf(states[i], a) == Established
    ensures GatewayOf(states[j], a) == Established && NonceOf(states[j], a) == NonceOf(states[i], a)
  {
    hide FullNext;
    if i < j {
      SpecEstablishedIsFinal(cfg, states, a, i, j - 1);
      SpecRunStep(cfg, states, a, j - 1);
    }
  }

  ghost predicate Sits(states: seq<Spec>, a: Agent, g: Gateway, i: nat, j: nat)
    requires j < |states|
  {
    forall k | i <= k <= j :: GatewayOf(states[k], a) == g
  }

  lemma {:induction false} SpecLastEntry(cfg: Config, states: seq<Spec>, a: Agent, g: Gateway, n: nat) returns (i: nat)
    requires IsSpecRun(cfg, states) && n < |states| && GatewayOf(states[n], a) == g && g != Listen
    ensures i < n && GatewayOf(states[i], a) != g && Sits(states, a, g, i + 1, n)
    ensures SpecLocal(cfg, states[i], states[i + 1], a) && GatewayOf(states[i + 1], a) == g
    ensures g != ParseSig ==> NonceOf(states[n], a) == NonceOf(states[i + 1], a)
    ensures states[i].sats <= states[n].sats
  {
    hide FullNext;
    SpecRunStep(cfg, states, a, n - 1);
    if GatewayOf(states[n - 1], a) == g {
      i := SpecLastEntry(cfg, states, a, g, n - 1);
    } else {
      i := n - 1;
    }
  }

  /** The steps `r < p < v < e` by which `a` came to be established at `n` in the full model. */
  ghost predicate SpecAdmission(cfg: Config, states: seq<Spec>, a: Agent, n: nat, r: nat, p: nat, v: nat, e: nat)
    requires n < |states|
  {
    && r < p < v < e < n
    && (GatewayOf(states[r], a) == Listen || GatewayOf(states[r], a) == Corrupted)
    && Sits(states, a, ParseSig, r + 1, p) && Sits(states, a, VerifySat, p + 1, v)
    && Sits(states, a, EvaluateMama, v + 1, e) && Sits(states, a, Established, e + 1, n)
    && NonceOf(states[p], a) < NonceOf(states[n], a) && HasNonce(states[p], a, NonceOf(states[n], a))
    && CoveredLive(states[v], a) && states[v].sats <= states[n].sats
    && (cfg.minSafetyScore <= 100 || states[e].byzantine)
  }

  /** Every established gateway of the full model took the four steps without interruption: a
      fresh nonce that was sent, then a live SAT with the intent of some message of the agent. */
  lemma SpecEstablishedHistory(cfg: Config, states: seq<Spec>, a: Agent, n: nat)
    requires IsSpecRun(cfg, states) && n < |states| && GatewayOf(states[n], a) == Established
    ensures exists r, p, v, e :: SpecAdmission(cfg, states, a, n, r, p, v, e)
  {
    hide IsSpecRun, Sits;
    var e := SpecLastEntry(cfg, states, a, Established, n);
    var v := SpecLastEntry(cfg, states, a, EvaluateMama, e);
    var p := SpecLastEntry(cfg, states, a, VerifySat, v);
    var r := SpecLastEntry(cfg, states, a, ParseSig, p);
    assert SpecAdmission(cfg, states, a, n, r, p, v, e);
  }

  // ----- what does not: the intent of the accepted message

  /** `a` holds a SAT whose intent is that of one of its messages with the nonce accepted. */
  predicate IntentBound(p: Spec, a: Agent) {
    exists m, sat :: m in p.messages && sat in p.sats && Matches(m, sat, a) && m.nonce == NonceOf(p, a)
  }

  ghost predicate AlwaysIntentBound(cfg: Config) {
    forall p, a | FullReachable(cfg, p) && a in cfg.agents && SpecAt(p, a, Established) :: IntentBound(p, a)
  }

  lemma OneNonceBinds(cfg: Config, p: Spec, a: Agent)
    requires SpecInvariant(cfg, p) && a in cfg.agents && SpecAt(p, a, Established)
    requires cfg.maxNonce < 2 || cfg.maxTime < 1
    ensures IntentBound(p, a)
  {
    assert SpecGateway(p, a);
  }

  // The network of the counterexample: nonce 2 to monitor, nonce 1 and the only SAT to beamform.
  function TwoIntents(cfg: Config, a: Agent): Spec {
    SpecInit(cfg).(byzantine := true, sats := {Sat(a, 1, "beamform", true)},
      messages := {Msg(KNK, a, 2, "monitor", false), Msg(KNK, a, 1, "beamform", false)})
  }

  lemma TwoIntentsReached(cfg: Config, a: Agent)
    requires a in cfg.agents && cfg.maxNonce >= 2 && cfg.maxTime >= 1
    ensures FullReachable(cfg, TwoIntents(cfg, a))
  {
    hide FullReachable;
    SpecInitReached(cfg);
    var p0 := SpecInit(cfg);
    var p1 := p0.(byzantine := true);
    assert Byzantine(p0, p1);
    FullNextReaches(cfg, p0, p1);
    var p2 := p1.(sats := {Sat(a, 1, "beamform", true)});
    assert RequestIntent(p1, p2, a, 1, "beamform");
    FullNextReaches(cfg, p1, p2);
    var p3 := p2.(messages := {Msg(KNK, a, 2, "monitor", false)});
    assert SendHandshake(cfg, p2, p3, a, 2, "monitor");
    FullNextReaches(cfg, p2, p3);
    assert SendHandshake(cfg, p3, TwoIntents(cfg, a), a, 1, "beamform");
    FullNextReaches(cfg, p3, TwoIntents(cfg, a));
  }

  // The gateway has parsed the message to monitor.
  lemma MonitorAccepted(cfg: Config, a: Agent) returns (p: Spec)
    requires a in cfg.agents && cfg.maxNonce >= 2 && cfg.maxTime >= 1
    ensures FullReachable(cfg, p) && a in p.highest && p.highest[a] == 2
    ensures p == SpecMove(TwoIntents(cfg, a), a, VerifySat).(highest := p.highest)
  {
    hide FullReachable;
    TwoIntentsReached(cfg, a);
    var p0, m := TwoIntents(cfg, a), Msg(KNK, a, 2, "monitor", false);
    var p1 := SpecMove(p0, a, ParseSig);
    assert ReceiveKNK(p0, p1, m);
    FullNextReaches(cfg, p0, p1);
    p := SpecParsed(p1, a, m);
    assert m in p1.messages && ParseSignature(p1, p, a);
    FullNextReaches(cfg, p1, p);
  }

  lemma WrongIntentEstablished(cfg: Config, a: Agent) returns (p: Spec)
    requires a in cfg.agents && cfg.maxNonce >= 2 && cfg.maxTime >= 1
    ensures FullReachable(cfg, p) && SpecAt(p, a, Established) && !IntentBound(p, a)
  {
    hide FullReachable;
    var p2 := MonitorAccepted(cfg, a);
    var m, sat := Msg(KNK, a, 1, "beamform", false), Sat(a, 1, "beamform", true);
    var p3 := SpecMove(p2, a, EvaluateMama);
    assert m in p2.messages && sat in p2.sats && VerifySAT(p2, p3, a);
    FullNextReaches(cfg, p2, p3);
    p := SpecMove(p3, a, Established);
    assert 0 in ALL_SCORES && EvaluateMAMA(cfg, ALL_SCORES, p3, p, a);
    FullNextReaches(cfg, p3, p);
  }

  /** GatewayVerifySAT takes any message of the agent, not the one whose nonce was accepted: that
      the SAT covers the accepted intent holds of all reachable states of the full model exactly
      when the bounds allow one nonce only, or no SAT. */
  lemma IntentBoundExactly(cfg: Config)
    ensures AlwaysIntentBound(cfg) <==> cfg.agents == [] || cfg.maxNonce < 2 || cfg.maxTime < 1
  {
    hide FullReachable;
    if cfg.agents != [] && cfg.maxNonce >= 2 && cfg.maxTime >= 1 {
      var p := WrongIntentEstablished(cfg, cfg.agents[0]);
    } else {
      forall p, a | FullReachable(cfg, p) && a in cfg.agents && SpecAt(p, a, Established) ensures IntentBound(p, a) {
        FullReachableInvariant(cfg, p);
        OneNonceBinds(cfg, p, a);
      }
    }
  }
}
