/** The TLA+ text `nhp_sba_adversarial_model.tla`, action by action, over sets of SATs and
    messages, and its correspondence with the simulator's lists. */
module AdversarialSpec {
  import opened Handshake
  import opened HandshakeRuns

  datatype Spec = Spec(
    gateway: map<Agent, Gateway>,
    highest: map<Agent, int>,
    sats: set<Sat>,
    messages: set<Msg>,
    clock: int,
    byzantine: bool)

  const INTENTS := {"beamform", "monitor"}

  function SpecInit(cfg: Config): Spec {
    Spec(map a | a in cfg.agents :: Listen, map a | a in cfg.agents :: 0, {}, {}, 0, false)
  }

  predicate SpecAt(p: Spec, a: Agent, g: Gateway) {
    a in p.gateway && p.gateway[a] == g
  }

  function SpecMove(p: Spec, a: Agent, g: Gateway): Spec {
    p.(gateway := p.gateway[a := g])
  }

  ghost predicate RequestIntent(p: Spec, q: Spec, a: Agent, exp: int, intent: string) {
    q == p.(sats := p.sats + {Sat(a, exp, intent, true)})
  }

  ghost predicate SendHandshake(cfg: Config, p: Spec, q: Spec, a: Agent, nonce: int, intent: string) {
    1 <= nonce <= cfg.maxNonce && q == p.(messages := p.messages + {Msg(KNK, a, nonce, intent, false)})
  }

  ghost predicate Replay(p: Spec, q: Spec) {
    exists m :: m in p.messages && q == p.(messages := p.messages + {m.(isReplay := true)})
  }

  ghost predicate Corruption(p: Spec, q: Spec, a: Agent) {
    (SpecAt(p, a, ParseSig) || SpecAt(p, a, VerifySat)) && q == SpecMove(p, a, Corrupted)
  }

  ghost predicate Byzantine(p: Spec, q: Spec) {
    !p.byzantine && q == p.(byzantine := true)
  }

  ghost predicate ReceiveKNK(p: Spec, q: Spec, m: Msg) {
    && m in p.messages && m.kind == KNK
    && (SpecAt(p, m.agent, Listen) || SpecAt(p, m.agent, Corrupted)) && q == SpecMove(p, m.agent, ParseSig)
  }

  function SpecParsed(p: Spec, a: Agent, m: Msg): Spec
    requires a in p.highest
  {
    if m.nonce > p.highest[a] then
      SpecMove(p, a, VerifySat).(highest := p.highest[a := m.nonce])
    else
      SpecMove(p, a, Listen)
  }

  ghost predicate ParseSignature(p: Spec, q: Spec, a: Agent) {
    && SpecAt(p, a, ParseSig) && a in p.highest
    && exists m :: m in p.messages && m.agent == a && q == SpecParsed(p, a, m)
  }

  ghost predicate VerifySAT(p: Spec, q: Spec, a: Agent) {
    && SpecAt(p, a, VerifySat)
    && exists m, sat ::
         && m in p.messages && m.agent == a && sat in p.sats && sat.agent == a && sat.intent == m.intent
         && q == SpecMove(p, a, if sat.exp > p.clock then EvaluateMama else Listen)
  }

  ghost predicate EvaluateMAMA(cfg: Config, scores: iset<int>, p: Spec, q: Spec, a: Agent) {
    && SpecAt(p, a, EvaluateMama)
    && exists score ::
         && score in scores
         && q == SpecMove(p, a, if p.byzantine || score >= cfg.minSafetyScore then Established else Listen)
  }

  ghost predicate RecoverCorruption(p: Spec, q: Spec, a: Agent) {
    SpecAt(p, a, Corrupted) && q == SpecMove(p, a, Listen)
  }

  ghost predicate Tick(cfg: Config, p: Spec, q: Spec) {
    p.clock < cfg.maxTime && q == p.(clock := p.clock + 1)
  }

  /** `Next`, over a set of intents and a set of scores. */
  ghost predicate Next(cfg: Config, intents: set<string>, scores: iset<int>, p: Spec, q: Spec) {
    || (exists a, exp, intent ::
          a in cfg.agents && p.clock + 1 <= exp <= cfg.maxTime && intent in intents && RequestIntent(p, q, a, exp, intent))
    || (exists a, nonce, intent ::
          a in cfg.agents && intent in intents && SendHandshake(cfg, p, q, a, nonce, intent))
    || (cfg.agents != [] && Replay(p, q))
    || (exists a :: a in cfg.agents && Corruption(p, q, a))
    || Byzantine(p, q)
    || (exists m :: ReceiveKNK(p, q, m))
    || (exists a :: a in cfg.agents && ParseSignature(p, q, a))
    || (exists a :: a in cfg.agents && VerifySAT(p, q, a))
    || (exists a :: a in cfg.agents && EvaluateMAMA(cfg, scores, p, q, a))
    || (exists a :: a in cfg.agents && RecoverCorruption(p, q, a))
    || Tick(cfg, p, q)
  }

  ghost const ALL_SCORES: iset<int> := iset k | 0 <= k <= 100

  ghost const TRIED_SCORES: iset<int> := iset k | k in SCORES

  /** Forget the order and multiplicity of the lists. */
  function Abs(s: State): Spec {
    Spec(s.gateway, s.highest, (set sat | sat in s.sats), (set m | m in s.messages), s.clock, s.byzantine)
  }

  lemma AbsFacts(s: State, sat: Sat, m: Msg)
    ensures Abs(s.(sats := s.sats + [sat])) == Abs(s).(sats := Abs(s).sats + {sat})
    ensures Abs(s.(messages := s.messages + [m])) == Abs(s).(messages := Abs(s).messages + {m})
  {
  }

  lemma ParseSimulated(cfg: Config, s: State, t: State, a: Agent)
    requires Invariant(cfg, s) && Step(cfg, s, GatewayParseSig(a), t)
    ensures ParseSignature(Abs(s), Abs(t), a)
  {
    hide MessagesOk, SatsOk, GatewayOk;
  }

  lemma VerifySimulated(cfg: Config, s: State, t: State, a: Agent)
    requires Step(cfg, s, GatewayVerifySAT(a), t)
    ensures VerifySAT(Abs(s), Abs(t), a)
  {
  }

  lemma ReplaySimulated(cfg: Config, s: State, t: State, a: Agent)
    requires Step(cfg, s, MaliciousReplay(a), t)
    ensures Replay(Abs(s), Abs(t))
  {
  }

  lemma ReceiveSimulated(cfg: Config, s: State, t: State, a: Agent)
    requires Step(cfg, s, GatewayReceiveKNK(a), t)
    ensures exists m :: ReceiveKNK(Abs(s), Abs(t), m)
  {
    var m :| m in s.messages && m.kind == KNK && m.agent == a;
    assert ReceiveKNK(Abs(s), Abs(t), m);
  }

  lemma EvaluateSimulated(cfg: Config, s: State, t: State, a: Agent, score: int)
    requires Step(cfg, s, GatewayEvaluateMAMA(a, score), t)
    ensures EvaluateMAMA(cfg, TRIED_SCORES, Abs(s), Abs(t), a)
  {
    assert score in TRIED_SCORES;
  }

  /** Every simulator step is a step of the TLA+ model. */
  lemma StepSimulated(cfg: Config, s: State, act: Action, t: State)
    requires Invariant(cfg, s) && Step(cfg, s, act, t)
    ensures Next(cfg, {INTENT}, TRIED_SCORES, Abs(s), Abs(t))
  {
    hide Invariant, Replay, ReceiveKNK, ParseSignature, VerifySAT, EvaluateMAMA;
    var p, q := Abs(s), Abs(t);
    match act
    case TickClock => assert Tick(cfg, p, q);
    case ByzantineTrigger => assert Byzantine(p, q);
    case AgentRequestIntent(a, exp, intent) =>
      AbsFacts(s, Sat(a, exp, intent, true), Msg(KNK, a, 1, INTENT, false));
      assert RequestIntent(p, q, a, exp, intent);
    case AgentSendHandshake(a, nonce) =>
      AbsFacts(s, Sat(a, 1, INTENT, true), Msg(KNK, a, nonce, INTENT, false));
      assert SendHandshake(cfg, p, q, a, nonce, INTENT);
    case MaliciousReplay(a) => ReplaySimulated(cfg, s, t, a);
    case StateCorruption(a) => assert Corruption(p, q, a);
    case GatewayRecoverCorruption(a) => assert RecoverCorruption(p, q, a);
    case GatewayReceiveKNK(a) => ReceiveSimulated(cfg, s, t, a);
    case GatewayParseSig(a) => ParseSimulated(cfg, s, t, a);
    case GatewayVerifySAT(a) => VerifySimulated(cfg, s, t, a);
    case GatewayEvaluateMAMA(a, score) => EvaluateSimulated(cfg, s, t, a, score);
  }

  lemma NextIsMonotone(cfg: Config, intents: set<string>, more: set<string>, scores: iset<int>, wider: iset<int>, p: Spec, q: Spec)
    requires Next(cfg, intents, scores, p, q) && intents <= more && scores <= wider
    ensures Next(cfg, more, wider, p, q)
  {
  }

  /** In particular of the full model, with both intents and every score of 0..100. */
  lemma StepSimulatedInFullModel(cfg: Config, s: State, act: Action, t: State)
    requires Invariant(cfg, s) && Step(cfg, s, act, t)
    ensures Next(cfg, INTENTS, ALL_SCORES, Abs(s), Abs(t))
  {
    hide Step, Next, Invariant;
    assert SCORES == [0, 90];
    StepSimulated(cfg, s, act, t);
    NextIsMonotone(cfg, {INTENT}, INTENTS, TRIED_SCORES, ALL_SCORES, Abs(s), Abs(t));
  }

  // A simulator step out of `s` that projects to `q`.
  ghost predicate Matched(cfg: Config, s: State, q: Spec) {
    exists act, t :: Step(cfg, s, act, t) && Abs(t) == q
  }

  lemma RequestMatched(cfg: Config, s: State, q: Spec, a: Agent, exp: int)
    requires a in cfg.agents && s.clock + 1 <= exp <= cfg.maxTime && RequestIntent(Abs(s), q, a, exp, INTENT)
    ensures Matched(cfg, s, q)
  {
    var sat := Sat(a, exp, INTENT, true);
    AbsFacts(s, sat, Msg(KNK, a, 1, INTENT, false));
    assert Step(cfg, s, AgentRequestIntent(a, exp, INTENT), s.(sats := s.sats + [sat]));
  }

  lemma SendMatched(cfg: Config, s: State, q: Spec, a: Agent, nonce: int)
    requires a in cfg.agents && SendHandshake(cfg, Abs(s), q, a, nonce, INTENT)
    ensures Matched(cfg, s, q)
  {
    var m := Msg(KNK, a, nonce, INTENT, false);
    AbsFacts(s, Sat(a, 1, INTENT, true), m);
    assert Step(cfg, s, AgentSendHandshake(a, nonce), s.(messages := s.messages + [m]));
  }

  lemma ReplayMatched(cfg: Config, s: State, q: Spec)
    requires cfg.agents != [] && Replay(Abs(s), q)
    ensures Matched(cfg, s, q)
  {
    var p, a := Abs(s), cfg.agents[0];
    var m :| m in p.messages && q == p.(messages := p.messages + {m.(isReplay := true)});
    AbsFacts(s, Sat(a, 1, INTENT, true), m.(isReplay := true));
    assert Step(cfg, s, MaliciousReplay(a), s.(messages := s.messages + [m.(isReplay := true)]));
  }

  lemma ReceiveMatched(cfg: Config, s: State, q: Spec, m: Msg)
    requires Invariant(cfg, s) && ReceiveKNK(Abs(s), q, m)
    ensures Matched(cfg, s, q)
  {
    assert Step(cfg, s, GatewayReceiveKNK(m.agent), Move(s, m.agent, ParseSig));
  }

  lemma ParseMatched(cfg: Config, s: State, q: Spec, a: Agent)
    requires Invariant(cfg, s) && a in cfg.agents && ParseSignature(Abs(s), q, a)
    ensures Matched(cfg, s, q)
  {
    var p := Abs(s);
    hide MessagesOk, SatsOk, GatewayOk;
    var m :| m in p.messages && m.agent == a && q == SpecParsed(p, a, m);
    assert Step(cfg, s, GatewayParseSig(a), Parsed(s, a, m));
    assert Abs(Parsed(s, a, m)) == q;
  }

  lemma VerifyMatched(cfg: Config, s: State, q: Spec, a: Agent)
    requires a in cfg.agents && VerifySAT(Abs(s), q, a)
    ensures Matched(cfg, s, q)
  {
    var p := Abs(s);
    var m, sat :| m in p.messages && m.agent == a && sat in p.sats && sat.agent == a && sat.intent == m.intent
      && q == SpecMove(p, a, if sat.exp > p.clock then EvaluateMama else Listen);
    assert Step(cfg, s, GatewayVerifySAT(a), Verified(s, a, sat));
    assert Abs(Verified(s, a, sat)) == q;
  }

  lemma EvaluateMatched(cfg: Config, s: State, q: Spec, a: Agent)
    requires a in cfg.agents && EvaluateMAMA(cfg, TRIED_SCORES, Abs(s), q, a)
    ensures Matched(cfg, s, q)
  {
    var p := Abs(s);
    var score :| score in TRIED_SCORES
      && q == SpecMove(p, a, if p.byzantine || score >= cfg.minSafetyScore then Established else Listen);
    assert Step(cfg, s, GatewayEvaluateMAMA(a, score), Evaluated(cfg, s, a, score));
    assert Abs(Evaluated(cfg, s, a, score)) == q;
  }

  lemma EnvironmentMatched(cfg: Config, s: State, q: Spec)
    requires Byzantine(Abs(s), q) || Tick(cfg, Abs(s), q)
    ensures Matched(cfg, s, q)
  {
    if Byzantine(Abs(s), q) {
      assert Step(cfg, s, ByzantineTrigger, s.(byzantine := true));
    } else {
      assert Step(cfg, s, TickClock, s.(clock := s.clock + 1));
    }
  }

  lemma CorruptionMatched(cfg: Config, s: State, q: Spec, a: Agent)
    requires a in cfg.agents && (Corruption(Abs(s), q, a) || RecoverCorruption(Abs(s), q, a))
    ensures Matched(cfg, s, q)
  {
    if Corruption(Abs(s), q, a) {
      assert Step(cfg, s, StateCorruption(a), Move(s, a, Corrupted));
    } else {
      assert Step(cfg, s, GatewayRecoverCorruption(a), Move(s, a, Listen));
    }
  }

  /** Every step of the TLA+ model restricted to the one intent and the two scores is matched
      by a simulator step. */
  lemma NextMatched(cfg: Config, s: State, q: Spec)
    requires Invariant(cfg, s) && Next(cfg, {INTENT}, TRIED_SCORES, Abs(s), q)
    ensures Matched(cfg, s, q)
  {
    hide Invariant, Step, Matched, Byzantine, Tick, Corruption, RecoverCorruption, RequestIntent, SendHandshake, Replay,
      ReceiveKNK, ParseSignature, VerifySAT, EvaluateMAMA;
    var p := Abs(s);
    if Byzantine(p, q) || Tick(cfg, p, q) {
      EnvironmentMatched(cfg, s, q);
    } else if a :| a in cfg.agents && (Corruption(p, q, a) || RecoverCorruption(p, q, a)) {
      CorruptionMatched(cfg, s, q, a);
    } else if m :| ReceiveKNK(p, q, m) {
      ReceiveMatched(cfg, s, q, m);
    } else if a :| a in cfg.agents && ParseSignature(p, q, a) {
      ParseMatched(cfg, s, q, a);
    } else if a :| a in cfg.agents && VerifySAT(p, q, a) {
      VerifyMatched(cfg, s, q, a);
    } else if a :| a in cfg.agents && EvaluateMAMA(cfg, TRIED_SCORES, p, q, a) {
      EvaluateMatched(cfg, s, q, a);
    } else if a, exp :| a in cfg.agents && p.clock + 1 <= exp <= cfg.maxTime && RequestIntent(p, q, a, exp, INTENT) {
      RequestMatched(cfg, s, q, a, exp);
    } else if a, nonce :| a in cfg.agents && SendHandshake(cfg, p, q, a, nonce, INTENT) {
      SendMatched(cfg, s, q, a, nonce);
    } else {
      ReplayMatched(cfg, s, q);
    }
  }

  /** The two scores the simulator tries stand for all of 0..100 exactly when the threshold is
      not in 91..100; at the 85 of the file they do. */
  lemma TwoScoresSuffice(cfg: Config)
    requires cfg.agents != []
    ensures !(90 < cfg.minSafetyScore <= 100) <==>
      forall p, q :: Next(cfg, {INTENT}, ALL_SCORES, p, q) <==> Next(cfg, {INTENT}, TRIED_SCORES, p, q)
  {
    hide RequestIntent, SendHandshake, Replay, ReceiveKNK, ParseSignature, VerifySAT;
    assert SCORES[0] == 0 && SCORES[1] == 90;
    if 90 < cfg.minSafetyScore <= 100 {
      var a := cfg.agents[0];
      var p := SpecInit(cfg).(gateway := map[a := EvaluateMama]);
      var q := SpecMove(p, a, Established);
      assert 100 in ALL_SCORES && EvaluateMAMA(cfg, ALL_SCORES, p, q, a);
      assert Next(cfg, {INTENT}, ALL_SCORES, p, q);
      OnlyEvaluationEstablishes(cfg, p, q, a);
    } else {
      forall p, q, a ensures EvaluateMAMA(cfg, ALL_SCORES, p, q, a) <==> EvaluateMAMA(cfg, TRIED_SCORES, p, q, a) {
        assert 0 in TRIED_SCORES && 90 in TRIED_SCORES && 0 in ALL_SCORES && 90 in ALL_SCORES;
      }
    }
  }

  lemma OnlyEvaluationEstablishes(cfg: Config, p: Spec, q: Spec, a: Agent)
    requires SpecAt(p, a, EvaluateMama) && q == SpecMove(p, a, Established) && !p.byzantine && cfg.minSafetyScore > 90
    ensures !Next(cfg, {INTENT}, TRIED_SCORES, p, q)
  {
    assert SpecAt(q, a, Established);
  }

  // ----- reachable states correspond

  ghost predicate SpecReachable(cfg: Config, q: Spec, n: nat)
    decreases n
  {
    if n == 0 then q == SpecInit(cfg)
    else exists p :: SpecReachable(cfg, p, n - 1) && Next(cfg, {INTENT}, TRIED_SCORES, p, q)
  }

  lemma {:induction false} TraceIsSpecRun(cfg: Config, acts: seq<Action>, s: State)
    requires LeadsTo(cfg, acts, s)
    ensures SpecReachable(cfg, Abs(s), |acts|)
    decreases |acts|
  {
    hide Step, Next, Invariant;
    if acts == [] {
      assert Abs(Init(cfg)) == SpecInit(cfg);
    } else {
      var p := Shorten(cfg, acts, s);
      TraceIsSpecRun(cfg, acts[..|acts| - 1], p);
      assert Reachable(cfg, p);
      ReachableInvariant(cfg, p);
      StepSimulated(cfg, p, acts[|acts| - 1], s);
    }
  }

  lemma {:induction false} SpecRunIsTrace(cfg: Config, q: Spec, n: nat) returns (acts: seq<Action>, s: State)
    requires SpecReachable(cfg, q, n)
    ensures LeadsTo(cfg, acts, s) && Abs(s) == q && |acts| == n
    decreases n
  {
    hide Step, Next, Invariant;
    if n == 0 {
      acts, s := [], Init(cfg);
      InitLeads(cfg);
    } else {
      var p :| SpecReachable(cfg, p, n - 1) && Next(cfg, {INTENT}, TRIED_SCORES, p, q);
      var before, u := SpecRunIsTrace(cfg, p, n - 1);
      assert Reachable(cfg, u);
      ReachableInvariant(cfg, u);
      NextMatched(cfg, u, q);
      var act, t :| Step(cfg, u, act, t) && Abs(t) == q;
      Extend(cfg, before, u, act, t);
      acts, s := before + [act], t;
    }
  }

  /** In every number of steps, the TLA+ states reached are exactly the projections of the
      simulator states reached. */
  lemma SameReachableStates(cfg: Config, q: Spec, n: nat)
    ensures SpecReachable(cfg, q, n) <==> exists acts, s :: LeadsTo(cfg, acts, s) && |acts| == n && Abs(s) == q
  {
    hide Step, Next, Invariant, LeadsTo;
    if SpecReachable(cfg, q, n) {
      var acts, s := SpecRunIsTrace(cfg, q, n);
    }
    forall acts, s | LeadsTo(cfg, acts, s) && |acts| == n && Abs(s) == q ensures SpecReachable(cfg, q, n) {
      TraceIsSpecRun(cfg, acts, s);
    }
  }

  /** States that differ only in list order or repetition have the same futures, up to the
      same difference. */
  lemma SameSetsSameFutures(cfg: Config, s1: State, s2: State, act: Action, t1: State)
    requires Invariant(cfg, s1) && Invariant(cfg, s2) && Abs(s1) == Abs(s2) && Step(cfg, s1, act, t1)
    ensures Matched(cfg, s2, Abs(t1))
  {
    hide Step, Next, Invariant;
    StepSimulated(cfg, s1, act, t1);
    NextMatched(cfg, s2, Abs(t1));
  }
}
