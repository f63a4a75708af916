/** Runs of the handshake transition system and what every run keeps, for any agents,
    nonce bound and time bound. */
module HandshakeRuns {
  import opened Handshake

  ghost predicate IsRun(cfg: Config, states: seq<State>, acts: seq<Action>) {
    && |states| == |acts| + 1
    && states[0] == Init(cfg)
    && forall i | 0 <= i < |acts| :: Step(cfg, states[i], acts[i], states[i + 1])
  }

  /** `acts` is a trace that leads from the initial state to `s`. */
  ghost predicate LeadsTo(cfg: Config, acts: seq<Action>, s: State) {
    exists states :: IsRun(cfg, states, acts) && states[|acts|] == s
  }

  ghost predicate Reachable(cfg: Config, s: State) {
    exists acts :: LeadsTo(cfg, acts, s)
  }

  lemma InitLeads(cfg: Config)
    ensures LeadsTo(cfg, [], Init(cfg))
    ensures Reachable(cfg, Init(cfg))
  {
    assert IsRun(cfg, [Init(cfg)], []);
    assert LeadsTo(cfg, [], Init(cfg));
  }

  lemma Extend(cfg: Config, acts: seq<Action>, s: State, act: Action, t: State)
    requires LeadsTo(cfg, acts, s) && Step(cfg, s, act, t)
    ensures LeadsTo(cfg, acts + [act], t)
  {
    var states :| IsRun(cfg, states, acts) && states[|acts|] == s;
    assert IsRun(cfg, states + [t], acts + [act]);
  }

  lemma StepReaches(cfg: Config, s: State, act: Action, t: State)
    requires Reachable(cfg, s) && Step(cfg, s, act, t)
    ensures Reachable(cfg, t)
  {
    var acts :| LeadsTo(cfg, acts, s);
    Extend(cfg, acts, s, act, t);
  }

  lemma Shorten(cfg: Config, acts: seq<Action>, t: State) returns (s: State)
    requires LeadsTo(cfg, acts, t) && acts != []
    ensures LeadsTo(cfg, acts[..|acts| - 1], s)
    ensures Step(cfg, s, acts[|acts| - 1], t)
  {
    var states :| IsRun(cfg, states, acts) && states[|acts|] == t;
    s := states[|acts| - 1];
    assert IsRun(cfg, states[..|acts|], acts[..|acts| - 1]);
  }

  // ----- the state invariant

  predicate KnownMessage(s: State, a: Agent) {
    exists m :: m in s.messages && m.agent == a
  }

  predicate KnownSat(s: State, a: Agent) {
    exists sat :: sat in s.sats && sat.agent == a
  }

  predicate FrameOk(cfg: Config, s: State) {
    && s.gateway.Keys == (set a | a in cfg.agents)
    && s.highest.Keys == (set a | a in cfg.agents)
    && 0 <= s.clock && (s.clock == 0 || s.clock <= cfg.maxTime)
  }

  // Every replay copy has an honest original with the same agent, nonce and intent.
  predicate MessagesOk(cfg: Config, s: State) {
    forall m | m in s.messages ::
      && m.agent in cfg.agents && m.kind == KNK && m.intent == INTENT
      && 1 <= m.nonce <= cfg.maxNonce && m.(isReplay := false) in s.messages
  }

  predicate SatsOk(cfg: Config, s: State) {
    forall sat | sat in s.sats ::
      sat.agent in cfg.agents && sat.intent == INTENT && sat.active && 1 <= sat.exp <= cfg.maxTime
  }

  predicate GatewayOk(cfg: Config, s: State, a: Agent) {
    && 0 <= Highest(s, a) && (Highest(s, a) == 0 || Highest(s, a) <= cfg.maxNonce)
    && (!At(s, a, Listen) ==> KnownMessage(s, a))
    && (At(s, a, VerifySat) ==> Highest(s, a) >= 1)
    && (At(s, a, EvaluateMama) || At(s, a, Established) ==> KnownSat(s, a) && Highest(s, a) >= 1)
  }

  predicate Invariant(cfg: Config, s: State) {
    && FrameOk(cfg, s) && MessagesOk(cfg, s) && SatsOk(cfg, s)
    && forall a | a in cfg.agents :: GatewayOk(cfg, s, a)
  }

  lemma KnowledgeGrows(cfg: Config, s: State, act: Action, t: State)
    requires Step(cfg, s, act, t)
    ensures forall m | m in s.messages :: m in t.messages
    ensures forall sat | sat in s.sats :: sat in t.sats
    ensures forall a | KnownMessage(s, a) :: KnownMessage(t, a)
    ensures forall a | KnownSat(s, a) :: KnownSat(t, a)
  {
  }

  function GatewayAt(s: State, a: Agent): Gateway {
    if a in s.gateway then s.gateway[a] else Listen
  }

  /** All that one step can do to the gateway of one agent. */
  ghost predicate LocalStep(cfg: Config, s: State, act: Action, t: State, a: Agent) {
    var g, g' := GatewayAt(s, a), GatewayAt(t, a);
    && (act != GatewayParseSig(a) ==> Highest(t, a) == Highest(s, a))
    && (|| (g' == g && act != GatewayParseSig(a))
        || (act == StateCorruption(a) && (g == ParseSig || g == VerifySat) && g' == Corrupted)
        || (act == GatewayRecoverCorruption(a) && g == Corrupted && g' == Listen)
        || (act == GatewayReceiveKNK(a) && (g == Listen || g == Corrupted) && g' == ParseSig && KnownMessage(s, a))
        || (act == GatewayParseSig(a) && g == ParseSig && g' == Listen && Highest(t, a) == Highest(s, a))
        || (act == GatewayParseSig(a) && g == ParseSig && g' == VerifySat && Fresher(s, t, a))
        || (act == GatewayVerifySAT(a) && g == VerifySat && g' == Listen)
        || (act == GatewayVerifySAT(a) && g == VerifySat && g' == EvaluateMama && LiveSat(s, a))
        || (act.GatewayEvaluateMAMA? && act.agent == a && g == EvaluateMama && g' == Listen)
        || (act.GatewayEvaluateMAMA? && act.agent == a && g == EvaluateMama && g' == Established
            && (act.score >= cfg.minSafetyScore || s.byzantine)))
  }

  // `a`'s nonce rises to that of one of its messages.
  predicate Fresher(s: State, t: State, a: Agent) {
    Highest(s, a) < Highest(t, a) && exists m :: m in s.messages && m.agent == a && m.nonce == Highest(t, a)
  }

  predicate LiveSat(s: State, a: Agent) {
    exists sat :: sat in s.sats && sat.agent == a && sat.exp > s.clock
  }

  lemma StepIsLocal(cfg: Config, s: State, act: Action, t: State, a: Agent)
    requires Step(cfg, s, act, t) && a in s.gateway && a in s.highest
    ensures a in t.gateway && a in t.highest && LocalStep(cfg, s, act, t, a)
  {
  }

  lemma StepKeepsRest(cfg: Config, s: State, act: Action, t: State)
    requires FrameOk(cfg, s) && SatsOk(cfg, s) && MessagesOk(cfg, s) && Step(cfg, s, act, t)
    ensures FrameOk(cfg, t) && SatsOk(cfg, t)
  {
  }

  lemma StepKeepsMessages(cfg: Config, s: State, act: Action, t: State)
    requires MessagesOk(cfg, s) && Step(cfg, s, act, t)
    ensures MessagesOk(cfg, t)
  {
  }

  lemma StepKeepsGateway(cfg: Config, s: State, act: Action, t: State, a: Agent)
    requires Invariant(cfg, s) && Step(cfg, s, act, t) && a in cfg.agents
    ensures GatewayOk(cfg, t, a)
  {
    hide Step, SatsOk;
    KnowledgeGrows(cfg, s, act, t);
    StepIsLocal(cfg, s, act, t, a);
    assert GatewayOk(cfg, s, a);
  }

  lemma StepKeepsInvariant(cfg: Config, s: State, act: Action, t: State)
    requires Invariant(cfg, s) && Step(cfg, s, act, t)
    ensures Invariant(cfg, t)
  {
    hide Step, MessagesOk, SatsOk, GatewayOk;
    StepKeepsRest(cfg, s, act, t);
    StepKeepsMessages(cfg, s, act, t);
    forall a | a in cfg.agents ensures GatewayOk(cfg, t, a) {
      StepKeepsGateway(cfg, s, act, t, a);
    }
  }

  lemma {:induction false} RunKeepsInvariant(cfg: Config, states: seq<State>, acts: seq<Action>, n: nat)
    requires IsRun(cfg, states, acts) && n <= |acts|
    ensures Invariant(cfg, states[n])
  {
    hide Step;
    if n == 0 {
      assert Invariant(cfg, Init(cfg));
    } else {
      RunKeepsInvariant(cfg, states, acts, n - 1);
      StepKeepsInvariant(cfg, states[n - 1], acts[n - 1], states[n]);
    }
  }

  /** Every reachable state is well formed: no lookup the simulator makes can miss, every
      replay has an honest original, and an agent past LISTEN has a message on the network. */
  lemma ReachableInvariant(cfg: Config, s: State)
    requires Reachable(cfg, s)
    ensures Invariant(cfg, s)
  {
    hide Step;
    var acts :| LeadsTo(cfg, acts, s);
    var states :| IsRun(cfg, states, acts) && states[|acts|] == s;
    RunKeepsInvariant(cfg, states, acts, |acts|);
  }

  /** Step `n` of a run, seen from agent `a`. */
  lemma RunStep(cfg: Config, states: seq<State>, acts: seq<Action>, a: Agent, n: nat)
    requires IsRun(cfg, states, acts) && n < |acts| && a in cfg.agents
    ensures Step(cfg, states[n], acts[n], states[n + 1])
    ensures LocalStep(cfg, states[n], acts[n], states[n + 1], a)
    ensures a in states[n].gateway && a in states[n].highest && a in states[n + 1].gateway && a in states[n + 1].highest
  {
    hide Step;
    RunKeepsInvariant(cfg, states, acts, n);
    StepIsLocal(cfg, states[n], acts[n], states[n + 1], a);
  }

  // ----- nonces accepted into VERIFY_SAT

  /** The values of `highest_nonce[a]` at each entry of `a` into VERIFY_SAT in the first `n` steps. */
  ghost function Accepted(states: seq<State>, a: Agent, n: nat): seq<int>
    requires n < |states|
  {
    if n == 0 then []
    else if !At(states[n - 1], a, VerifySat) && At(states[n], a, VerifySat) then
      Accepted(states, a, n - 1) + [Highest(states[n], a)]
    else Accepted(states, a, n - 1)
  }

  predicate WasSent(s: State, a: Agent, nonce: int) {
    exists m :: m in s.messages && m.agent == a && m.nonce == nonce
  }

  /** Along any run the accepted nonces of an agent strictly increase, so none is accepted
      twice however many replay copies exist, and there are at most `highest_nonce` of them. */
  lemma {:induction false} AcceptedNoncesIncrease(
      cfg: Config, states: seq<State>, acts: seq<Action>, a: Agent, n: nat)
    requires IsRun(cfg, states, acts) && n <= |acts| && a in cfg.agents
    ensures var ns := Accepted(states, a, n);
      && (forall i, j | 0 <= i < j < |ns| :: ns[i] < ns[j])
      && Highest(states[n], a) == (if ns == [] then 0 else ns[|ns| - 1])
      && |ns| <= Highest(states[n], a) && (ns == [] || Highest(states[n], a) <= cfg.maxNonce)
  {
    hide Step, Invariant;
    if n > 0 {
      AcceptedNoncesIncrease(cfg, states, acts, a, n - 1);
      RunStep(cfg, states, acts, a, n - 1);
      HighestInBounds(cfg, states, acts, a, n);
    }
  }

  lemma HighestInBounds(cfg: Config, states: seq<State>, acts: seq<Action>, a: Agent, n: nat)
    requires IsRun(cfg, states, acts) && n <= |acts| && a in cfg.agents
    ensures 0 <= Highest(states[n], a) && (Highest(states[n], a) == 0 || Highest(states[n], a) <= cfg.maxNonce)
  {
    hide Step;
    RunKeepsInvariant(cfg, states, acts, n);
    assert GatewayOk(cfg, states[n], a);
  }

  /** Every accepted nonce was put on the network for that agent. */
  lemma {:induction false} AcceptedNoncesWereSent(
      cfg: Config, states: seq<State>, acts: seq<Action>, a: Agent, n: nat)
    requires IsRun(cfg, states, acts) && n <= |acts| && a in cfg.agents
    ensures forall k | k in Accepted(states, a, n) :: WasSent(states[n], a, k)
  {
    hide Step, Invariant;
    if n > 0 {
      AcceptedNoncesWereSent(cfg, states, acts, a, n - 1);
      RunStep(cfg, states, acts, a, n - 1);
      KnowledgeGrows(cfg, states[n - 1], acts[n - 1], states[n]);
      assert forall k | WasSent(states[n - 1], a, k) :: WasSent(states[n], a, k);
    }
  }

  // ----- how a gateway gets established

  ghost predicate Holds(states: seq<State>, a: Agent, g: Gateway, i: nat, j: nat)
    requires j < |states|
  {
    forall k | i <= k <= j :: At(states[k], a, g)
  }

  /** The step at which `a` last entered the gateway state it is in. */
  lemma {:induction false} LastEntry(
      cfg: Config, states: seq<State>, acts: seq<Action>, a: Agent, g: Gateway, n: nat) returns (i: nat)
    requires IsRun(cfg, states, acts) && n <= |acts| && a in cfg.agents
    requires At(states[n], a, g) && g != Listen
    ensures i < n < |states| && !At(states[i], a, g) && Holds(states, a, g, i + 1, n)
    ensures LocalStep(cfg, states[i], acts[i], states[i + 1], a)
    ensures At(states[i], a, GatewayAt(states[i], a)) && GatewayAt(states[i], a) != g == GatewayAt(states[i + 1], a)
  {
    hide Step;
    assert n > 0;
    if At(states[n - 1], a, g) {
      i := LastEntry(cfg, states, acts, a, g, n - 1);
    } else {
      i := n - 1;
      RunStep(cfg, states, acts, a, i);
    }
  }

  // While `a` sits in one state, its nonce does not move.
  lemma {:induction false} NonceFrozen(
      cfg: Config, states: seq<State>, acts: seq<Action>, a: Agent, g: Gateway, i: nat, j: nat)
    requires IsRun(cfg, states, acts) && i <= j <= |acts| && a in cfg.agents && Holds(states, a, g, i, j)
    ensures Highest(states[i], a) == Highest(states[j], a)
  {
    hide Step;
    if i < j {
      NonceFrozen(cfg, states, acts, a, g, i, j - 1);
      RunStep(cfg, states, acts, a, j - 1);
      assert At(states[j - 1], a, g) && At(states[j], a, g);
    }
  }

  lemma {:induction false} SatsKept(cfg: Config, states: seq<State>, acts: seq<Action>, i: nat, j: nat)
    requires IsRun(cfg, states, acts) && i <= j <= |acts|
    ensures forall sat | sat in states[i].sats :: sat in states[j].sats
  {
    hide Step;
    if i < j {
      SatsKept(cfg, states, acts, i, j - 1);
      KnowledgeGrows(cfg, states[j - 1], acts[j - 1], states[j]);
    }
  }

  /** The four steps `r < p < v < e` by which agent `a` came to be established at `n`:
      nothing, corruption included, moved its gateway between them. */
  ghost predicate Admission(
      cfg: Config, states: seq<State>, acts: seq<Action>, a: Agent, n: nat, r: nat, p: nat, v: nat, e: nat)
    requires IsRun(cfg, states, acts) && n <= |acts|
  {
    && r < p < v < e < n
    && acts[r] == GatewayReceiveKNK(a) && Holds(states, a, ParseSig, r + 1, p)
    && acts[p] == GatewayParseSig(a) && Holds(states, a, VerifySat, p + 1, v)
    && acts[v] == GatewayVerifySAT(a) && Holds(states, a, EvaluateMama, v + 1, e)
    && acts[e].GatewayEvaluateMAMA? && acts[e].agent == a && Holds(states, a, Established, e + 1, n)
    && Highest(states[p], a) < Highest(states[n], a) && WasSent(states[p], a, Highest(states[n], a))
    && (exists sat :: sat in states[v].sats && sat.agent == a && sat.exp > states[v].clock && sat in states[n].sats)
    && (acts[e].score >= cfg.minSafetyScore || states[e].byzantine)
  }

  /** Every established gateway went through signature parsing with a fresh nonce, SAT
      verification against a token unexpired at that moment and still registered, and a
      passing score unless the policy engine was byzantine. */
  lemma EstablishedHistory(cfg: Config, states: seq<State>, acts: seq<Action>, a: Agent, n: nat)
    requires IsRun(cfg, states, acts) && n <= |acts| && a in cfg.agents && At(states[n], a, Established)
    ensures exists r, p, v, e :: Admission(cfg, states, acts, a, n, r, p, v, e)
  {
    hide Step, IsRun, Holds;
    var e := LastEntry(cfg, states, acts, a, Established, n);
    var v := LastEntry(cfg, states, acts, a, EvaluateMama, e);
    var p := LastEntry(cfg, states, acts, a, VerifySat, v);
    var r := LastEntry(cfg, states, acts, a, ParseSig, p);
    var sat :| sat in states[v].sats && sat.agent == a && sat.exp > states[v].clock;
    SatsKept(cfg, states, acts, v, n);
    NonceFrozen(cfg, states, acts, a, VerifySat, p + 1, v);
    NonceFrozen(cfg, states, acts, a, EvaluateMama, v + 1, e);
    NonceFrozen(cfg, states, acts, a, Established, e + 1, n);
    assert Admission(cfg, states, acts, a, n, r, p, v, e);
  }

  /** ESTABLISHED is never left, and the agent's `highest_nonce` is frozen from then on. */
  lemma {:induction false} EstablishedIsFinal(
      cfg: Config, states: seq<State>, acts: seq<Action>, a: Agent, i: nat, j: nat)
    requires IsRun(cfg, states, acts) && i <= j <= |acts| && a in cfg.agents && At(states[i], a, Established)
    ensures At(states[j], a, Established) && Highest(states[j], a) == Highest(states[i], a)
  {
    hide Step;
    if i < j {
      EstablishedIsFinal(cfg, states, acts, a, i, j - 1);
      RunStep(cfg, states, acts, a, j - 1);
    }
  }

  // ----- progress of one attempt

  // The gateway steps that carry an attempt of `a` on.
  predicate AttemptStep(act: Action, a: Agent) {
    || act == GatewayParseSig(a) || act == GatewayVerifySAT(a) || act == GatewayRecoverCorruption(a)
    || (act.GatewayEvaluateMAMA? && act.agent == a)
  }

  predicate Intermediate(s: State, a: Agent) {
    At(s, a, ParseSig) || At(s, a, VerifySat) || At(s, a, EvaluateMama) || At(s, a, Corrupted)
  }

  ghost predicate CanProceed(cfg: Config, s: State, a: Agent) {
    exists act, t :: AttemptStep(act, a) && Step(cfg, s, act, t)
  }

  function StepsLeft(s: State, a: Agent): nat {
    if At(s, a, ParseSig) then 3 else if At(s, a, VerifySat) then 2
    else if At(s, a, EvaluateMama) || At(s, a, Corrupted) then 1 else 0
  }

  lemma SatLetsProceed(cfg: Config, s: State, a: Agent)
    requires Invariant(cfg, s) && a in cfg.agents && At(s, a, VerifySat) && KnownSat(s, a)
    ensures CanProceed(cfg, s, a)
  {
    var sat :| sat in s.sats && sat.agent == a;
    assert GatewayOk(cfg, s, a);
    var m :| m in s.messages && m.agent == a;
    assert sat.intent == m.intent;
    assert Step(cfg, s, GatewayVerifySAT(a), Verified(s, a, sat));
  }

  lemma ParseProceeds(cfg: Config, s: State, a: Agent)
    requires Invariant(cfg, s) && a in cfg.agents && At(s, a, ParseSig)
    ensures CanProceed(cfg, s, a)
  {
    assert GatewayOk(cfg, s, a);
    var m :| m in s.messages && m.agent == a;
    assert Step(cfg, s, GatewayParseSig(a), Parsed(s, a, m));
  }

  lemma OthersProceed(cfg: Config, s: State, a: Agent)
    requires a in cfg.agents && (At(s, a, EvaluateMama) || At(s, a, Corrupted))
    ensures CanProceed(cfg, s, a)
  {
    assert SCORES[0] == 0;
    if At(s, a, EvaluateMama) {
      assert Step(cfg, s, GatewayEvaluateMAMA(a, 0), Evaluated(cfg, s, a, 0));
    } else {
      assert Step(cfg, s, GatewayRecoverCorruption(a), Move(s, a, Listen));
    }
  }

  lemma NoSatNoStep(cfg: Config, s: State, a: Agent, act: Action, t: State)
    requires At(s, a, VerifySat) && !KnownSat(s, a) && AttemptStep(act, a)
    ensures !Step(cfg, s, act, t)
  {
  }

  /** An attempt is stuck exactly in VERIFY_SAT with no SAT of the agent registered. */
  lemma BlockedOnlyWithoutSat(cfg: Config, s: State, a: Agent)
    requires Reachable(cfg, s) && a in cfg.agents && Intermediate(s, a)
    ensures CanProceed(cfg, s, a) <==> !(At(s, a, VerifySat) && !KnownSat(s, a))
  {
    hide Step;
    ReachableInvariant(cfg, s);
    if At(s, a, ParseSig) {
      ParseProceeds(cfg, s, a);
    } else if !At(s, a, VerifySat) {
      OthersProceed(cfg, s, a);
    } else if KnownSat(s, a) {
      SatLetsProceed(cfg, s, a);
    } else {
      forall act, t | AttemptStep(act, a) ensures !Step(cfg, s, act, t) {
        NoSatNoStep(cfg, s, a, act, t);
      }
    }
  }

  lemma QuietWithoutNonces(cfg: Config, s: State, a: Agent)
    requires Reachable(cfg, s) && a in cfg.agents && cfg.maxNonce < 1
    ensures At(s, a, Listen)
  {
    hide Reachable;
    ReachableInvariant(cfg, s);
    assert GatewayOk(cfg, s, a);
  }

  lemma BlockedState(cfg: Config, a: Agent) returns (s: State)
    requires a in cfg.agents && cfg.maxNonce >= 1
    ensures Reachable(cfg, s) && Intermediate(s, a) && !CanProceed(cfg, s, a)
  {
    hide Reachable;
    var m := Msg(KNK, a, 1, INTENT, false);
    var s0 := Init(cfg);
    InitLeads(cfg);
    var s1 := s0.(messages := s0.messages + [m]);
    StepReaches(cfg, s0, AgentSendHandshake(a, 1), s1);
    assert m in s1.messages;
    var s2 := Move(s1, a, ParseSig);
    StepReaches(cfg, s1, GatewayReceiveKNK(a), s2);
    assert m in s2.messages;
    s := Parsed(s2, a, m);
    StepReaches(cfg, s2, GatewayParseSig(a), s);
    BlockedOnlyWithoutSat(cfg, s, a);
  }

  /** A reachable state in which the attempt of `a` has no gateway step of its own exists exactly
      when messages can be sent: a request for a SAT, or corruption, must come first. */
  lemma BlockedStateIsReachable(cfg: Config, a: Agent)
    requires a in cfg.agents
    ensures cfg.maxNonce >= 1 <==> exists s :: Reachable(cfg, s) && Intermediate(s, a) && !CanProceed(cfg, s, a)
  {
    hide Reachable, CanProceed;
    if cfg.maxNonce >= 1 {
      var s := BlockedState(cfg, a);
    } else {
      forall s | Reachable(cfg, s) ensures !Intermediate(s, a) {
        QuietWithoutNonces(cfg, s, a);
      }
    }
  }

  /** Steps of the attempt bring it nearer to LISTEN or ESTABLISHED and never overshoot. */
  lemma AttemptStepProgresses(cfg: Config, s: State, act: Action, t: State, a: Agent)
    requires Step(cfg, s, act, t) && AttemptStep(act, a) && a in s.gateway && a in s.highest
    ensures StepsLeft(t, a) < StepsLeft(s, a) <= 3
    ensures Intermediate(t, a) || At(t, a, Listen) || At(t, a, Established)
  {
  }

  // How many of the steps `i..j` carry the attempt of `a` on.
  function AttemptSteps(acts: seq<Action>, a: Agent, i: nat, j: nat): nat
    requires i <= j <= |acts|
  {
    if i == j then 0 else AttemptSteps(acts, a, i, j - 1) + if AttemptStep(acts[j - 1], a) then 1 else 0
  }

  lemma OthersKeepStepsLeft(cfg: Config, s: State, act: Action, t: State, a: Agent)
    requires Step(cfg, s, act, t) && a in s.gateway && a in s.highest
    requires !AttemptStep(act, a) && act != StateCorruption(a) && act != GatewayReceiveKNK(a)
    ensures StepsLeft(t, a) == StepsLeft(s, a)
  {
    hide Step;
    StepIsLocal(cfg, s, act, t, a);
  }

  /** In any run, whatever the clock, the network and the other agents do meanwhile, a stretch
      `i..j` in which `a` is not corrupted and receives no new message holds at most three steps of
      `a`'s attempt; one that cannot go on has ended in LISTEN, in ESTABLISHED, or in VERIFY_SAT
      with no SAT of the agent. */
  lemma {:induction false} AttemptEndsWithinThree(
      cfg: Config, states: seq<State>, acts: seq<Action>, a: Agent, i: nat, j: nat)
    requires IsRun(cfg, states, acts) && i <= j <= |acts| && a in cfg.agents
    requires forall k | i <= k < j :: acts[k] != StateCorruption(a) && acts[k] != GatewayReceiveKNK(a)
    ensures AttemptSteps(acts, a, i, j) <= StepsLeft(states[i], a) - StepsLeft(states[j], a) <= 3
    ensures !CanProceed(cfg, states[j], a) ==>
      || At(states[j], a, Listen) || At(states[j], a, Established)
      || (At(states[j], a, VerifySat) && !KnownSat(states[j], a))
  {
    hide Step, Invariant, CanProceed;
    RunStateIsReachable(cfg, states, acts, j);
    if Intermediate(states[j], a) {
      BlockedOnlyWithoutSat(cfg, states[j], a);
    }
    if i < j {
      AttemptEndsWithinThree(cfg, states, acts, a, i, j - 1);
      RunStep(cfg, states, acts, a, j - 1);
      if AttemptStep(acts[j - 1], a) {
        AttemptStepProgresses(cfg, states[j - 1], acts[j - 1], states[j], a);
      } else {
        OthersKeepStepsLeft(cfg, states[j - 1], acts[j - 1], states[j], a);
      }
    }
  }

  lemma RunStateIsReachable(cfg: Config, states: seq<State>, acts: seq<Action>, n: nat)
    requires IsRun(cfg, states, acts) && n <= |acts|
    ensures Reachable(cfg, states[n])
    ensures states[n].gateway.Keys == (set a | a in cfg.agents)
  {
    hide Step;
    assert IsRun(cfg, states[..n + 1], acts[..n]);
    assert LeadsTo(cfg, acts[..n], states[n]);
    RunKeepsInvariant(cfg, states, acts, n);
  }
}
