/** The handshake transition system of `docs/threat-model/tlc_simulator.py`:
    states, the step rules as a relation, and the successor enumeration. */
module Handshake {

  type Agent = string

  datatype Gateway = Listen | ParseSig | VerifySat | EvaluateMama | Established | Corrupted

  datatype Sat = Sat(agent: Agent, exp: int, intent: string, active: bool)

  datatype Msg = Msg(kind: string, agent: Agent, nonce: int, intent: string, isReplay: bool)

  datatype Config = Config(agents: seq<Agent>, maxNonce: int, maxTime: int, minSafetyScore: int)

  // The simulator only ever changes a fresh clone of a state, so a state is a value.
  datatype State = State(
    gateway: map<Agent, Gateway>,
    highest: map<Agent, int>,
    sats: seq<Sat>,
    messages: seq<Msg>,
    clock: int,
    byzantine: bool)

  // The labels recorded in a trace.
  datatype Action =
    | TickClock
    | ByzantineTrigger
    | AgentRequestIntent(agent: Agent, exp: int, intent: string)
    | AgentSendHandshake(agent: Agent, nonce: int)
    | MaliciousReplay(agent: Agent)
    | StateCorruption(agent: Agent)
    | GatewayRecoverCorruption(agent: Agent)
    | GatewayReceiveKNK(agent: Agent)
    | GatewayParseSig(agent: Agent)
    | GatewayVerifySAT(agent: Agent)
    | GatewayEvaluateMAMA(agent: Agent, score: int)

  const INTENT := "beamform"
  const KNK := "KNK"
  const SCORES := [0, 90]

  predicate At(s: State, a: Agent, g: Gateway) {
    a in s.gateway && s.gateway[a] == g
  }

  function Highest(s: State, a: Agent): int {
    if a in s.highest then s.highest[a] else 0
  }

  function Move(s: State, a: Agent, g: Gateway): State {
    s.(gateway := s.gateway[a := g])
  }

  function Init(cfg: Config): State {
    State(map a | a in cfg.agents :: Listen, map a | a in cfg.agents :: 0, [], [], 0, false)
  }

  // What one attempt of agent `a` to get message `m` parsed leads to.
  function Parsed(s: State, a: Agent, m: Msg): State {
    if m.nonce > Highest(s, a) then
      Move(s, a, VerifySat).(highest := s.highest[a := m.nonce])
    else
      Move(s, a, Listen)
  }

  function Verified(s: State, a: Agent, sat: Sat): State {
    Move(s, a, if sat.exp > s.clock then EvaluateMama else Listen)
  }

  function Evaluated(cfg: Config, s: State, a: Agent, score: int): State {
    Move(s, a, if s.byzantine || score >= cfg.minSafetyScore then Established else Listen)
  }

  /** One step of the simulator: `t` is offered as a successor of `s` under label `act`. */
  ghost predicate Step(cfg: Config, s: State, act: Action, t: State) {
    match act
    case TickClock =>
      s.clock < cfg.maxTime && t == s.(clock := s.clock + 1)
    case ByzantineTrigger =>
      !s.byzantine && t == s.(byzantine := true)
    case AgentRequestIntent(a, exp, intent) =>
      && a in cfg.agents && s.clock + 1 <= exp <= cfg.maxTime && intent == INTENT
      && t == s.(sats := s.sats + [Sat(a, exp, intent, true)])
    case AgentSendHandshake(a, nonce) =>
      && a in cfg.agents && 1 <= nonce <= cfg.maxNonce
      && t == s.(messages := s.messages + [Msg(KNK, a, nonce, INTENT, false)])
    case MaliciousReplay(a) =>
      && a in cfg.agents
      && exists m :: m in s.messages && t == s.(messages := s.messages + [m.(isReplay := true)])
    case StateCorruption(a) =>
      a in cfg.agents && (At(s, a, ParseSig) || At(s, a, VerifySat)) && t == Move(s, a, Corrupted)
    case GatewayRecoverCorruption(a) =>
      a in cfg.agents && At(s, a, Corrupted) && t == Move(s, a, Listen)
    case GatewayReceiveKNK(a) =>
      && cfg.agents != []
      && (exists m :: m in s.messages && m.kind == KNK && m.agent == a)
      && (At(s, a, Listen) || At(s, a, Corrupted)) && t == Move(s, a, ParseSig)
    case GatewayParseSig(a) =>
      && a in cfg.agents && At(s, a, ParseSig)
      && exists m :: m in s.messages && m.agent == a && t == Parsed(s, a, m)
    case GatewayVerifySAT(a) =>
      && a in cfg.agents && At(s, a, VerifySat)
      && exists m, sat ::
        && m in s.messages && m.agent == a && sat in s.sats
        && sat.agent == a && sat.intent == m.intent && t == Verified(s, a, sat)
    case GatewayEvaluateMAMA(a, score) =>
      && a in cfg.agents && At(s, a, EvaluateMama) && score in SCORES
      && t == Evaluated(cfg, s, a, score)
  }

  // ----- the successor enumeration, rule by rule

  method RequestIntents(cfg: Config, s: State, a: Agent) returns (succs: seq<(Action, State)>)
    requires a in cfg.agents
    ensures forall e: (Action, State) :: e in succs <==>
      e.0.AgentRequestIntent? && e.0.agent == a && Step(cfg, s, e.0, e.1)
    ensures forall e: (Action, State) :: e in succs ==> e.1.sats == s.sats + [Sat(a, e.0.exp, "beamform", true)]
  {
    succs := [];
    var exp := s.clock + 1;
    while exp < cfg.maxTime + 1
      invariant s.clock + 1 <= exp
      invariant forall e: (Action, State) :: e in succs <==>
        e.0.AgentRequestIntent? && e.0.agent == a && e.0.exp < exp && Step(cfg, s, e.0, e.1)
    {
      var t := s.(sats := s.sats + [Sat(a, exp, INTENT, true)]);
      succs := succs + [(AgentRequestIntent(a, exp, INTENT), t)];
      exp := exp + 1;
    }
  }

  method SendHandshakes(cfg: Config, s: State, a: Agent) returns (succs: seq<(Action, State)>)
    requires a in cfg.agents
    ensures forall e: (Action, State) :: e in succs <==>
      e.0.AgentSendHandshake? && e.0.agent == a && Step(cfg, s, e.0, e.1)
    ensures forall e: (Action, State) :: e in succs ==>
      e.1.messages == s.messages + [Msg("KNK", a, e.0.nonce, "beamform", false)]
  {
    succs := [];
    var nonce := 1;
    while nonce < cfg.maxNonce + 1
      invariant 1 <= nonce
      invariant forall e: (Action, State) :: e in succs <==>
        e.0.AgentSendHandshake? && e.0.agent == a && e.0.nonce < nonce && Step(cfg, s, e.0, e.1)
    {
      var t := s.(messages := s.messages + [Msg(KNK, a, nonce, INTENT, false)]);
      succs := succs + [(AgentSendHandshake(a, nonce), t)];
      nonce := nonce + 1;
    }
  }

  method Replays(cfg: Config, s: State, a: Agent) returns (succs: seq<(Action, State)>)
    requires a in cfg.agents
    ensures forall e: (Action, State) :: e in succs <==>
      e.0.MaliciousReplay? && e.0.agent == a && Step(cfg, s, e.0, e.1)
  {
    succs := [];
    for i := 0 to |s.messages|
      invariant forall e: (Action, State) :: e in succs <==>
        && e.0 == MaliciousReplay(a)
        && exists m :: m in s.messages[..i] && e.1 == s.(messages := s.messages + [m.(isReplay := true)])
    {
      var m := s.messages[i];
      assert s.messages[..i + 1] == s.messages[..i] + [m];
      succs := succs + [(MaliciousReplay(a), s.(messages := s.messages + [m.(isReplay := true)]))];
    }
    assert s.messages[..|s.messages|] == s.messages;
  }

  method ReceiveKnks(cfg: Config, s: State) returns (succs: seq<(Action, State)>)
    requires cfg.agents != []
    ensures forall e: (Action, State) :: e in succs <==> e.0.GatewayReceiveKNK? && Step(cfg, s, e.0, e.1)
  {
    succs := [];
    for i := 0 to |s.messages|
      invariant forall e: (Action, State) :: e in succs <==>
        && e.0.GatewayReceiveKNK? && Step(cfg, s, e.0, e.1)
        && exists m :: m in s.messages[..i] && m.kind == KNK && m.agent == e.0.agent
    {
      var m := s.messages[i];
      assert s.messages[..i + 1] == s.messages[..i] + [m];
      if m.kind == KNK && (At(s, m.agent, Listen) || At(s, m.agent, Corrupted)) {
        succs := succs + [(GatewayReceiveKNK(m.agent), Move(s, m.agent, ParseSig))];
      }
    }
    assert s.messages[..|s.messages|] == s.messages;
  }

  method ParseSigs(cfg: Config, s: State, a: Agent) returns (succs: seq<(Action, State)>)
    requires a in cfg.agents
    ensures forall e: (Action, State) :: e in succs <==>
      e.0 == GatewayParseSig(a) && Step(cfg, s, e.0, e.1)
  {
    succs := [];
    if At(s, a, ParseSig) {
      for i := 0 to |s.messages|
        invariant forall e: (Action, State) :: e in succs <==>
          && e.0 == GatewayParseSig(a)
          && exists m :: m in s.messages[..i] && m.agent == a && e.1 == Parsed(s, a, m)
      {
        var m := s.messages[i];
        assert s.messages[..i + 1] == s.messages[..i] + [m];
        if m.agent == a {
          succs := succs + [(GatewayParseSig(a), Parsed(s, a, m))];
        }
      }
      assert s.messages[..|s.messages|] == s.messages;
    }
  }

  method VerifyAgainst(s: State, a: Agent, m: Msg) returns (succs: seq<(Action, State)>)
    ensures forall e: (Action, State) :: e in succs <==>
      && e.0 == GatewayVerifySAT(a)
      && exists sat :: sat in s.sats && sat.agent == a && sat.intent == m.intent && e.1 == Verified(s, a, sat)
  {
    succs := [];
    for j := 0 to |s.sats|
      invariant forall e: (Action, State) :: e in succs <==>
        && e.0 == GatewayVerifySAT(a)
        && exists sat :: sat in s.sats[..j] && sat.agent == a && sat.intent == m.intent && e.1 == Verified(s, a, sat)
    {
      var sat := s.sats[j];
      assert s.sats[..j + 1] == s.sats[..j] + [sat];
      if sat.agent == a && sat.intent == m.intent {
        succs := succs + [(GatewayVerifySAT(a), Verified(s, a, sat))];
      }
    }
    assert s.sats[..|s.sats|] == s.sats;
  }

  method VerifySats(cfg: Config, s: State, a: Agent) returns (succs: seq<(Action, State)>)
    requires a in cfg.agents
    ensures forall e: (Action, State) :: e in succs <==>
      e.0 == GatewayVerifySAT(a) && Step(cfg, s, e.0, e.1)
  {
    succs := [];
    if At(s, a, VerifySat) {
      for i := 0 to |s.messages|
        invariant forall e: (Action, State) :: e in succs <==>
          && e.0 == GatewayVerifySAT(a)
          && exists m, sat ::
            && m in s.messages[..i] && m.agent == a && sat in s.sats
            && sat.agent == a && sat.intent == m.intent && e.1 == Verified(s, a, sat)
      {
        var m := s.messages[i];
        assert s.messages[..i + 1] == s.messages[..i] + [m];
        if m.agent == a {
          var more := VerifyAgainst(s, a, m);
          succs := succs + more;
        }
      }
      assert s.messages[..|s.messages|] == s.messages;
    }
  }

  method Evaluations(cfg: Config, s: State, a: Agent) returns (succs: seq<(Action, State)>)
    requires a in cfg.agents
    ensures forall e: (Action, State) :: e in succs <==>
      e.0.GatewayEvaluateMAMA? && e.0.agent == a && Step(cfg, s, e.0, e.1)
    ensures forall e: (Action, State) :: e in succs ==> e.0.score == 0 || e.0.score == 90
  {
    succs := [];
    if At(s, a, EvaluateMama) {
      for i := 0 to |SCORES|
        invariant forall e: (Action, State) :: e in succs <==>
          && e.0.GatewayEvaluateMAMA? && e.0.agent == a && e.0.score in SCORES[..i] && Step(cfg, s, e.0, e.1)
      {
        succs := succs + [(GatewayEvaluateMAMA(a, SCORES[i]), Evaluated(cfg, s, a, SCORES[i]))];
      }
    }
  }

  /** `get_successors`: exactly the steps of the relation, whatever the agents and bounds. */
  method GetSuccessors(cfg: Config, s: State) returns (succs: seq<(Action, State)>)
    ensures forall e: (Action, State) :: e in succs <==> Step(cfg, s, e.0, e.1)
  {
    succs := [];
    if s.clock < cfg.maxTime {
      succs := succs + [(TickClock, s.(clock := s.clock + 1))];
    }
    if !s.byzantine {
      succs := succs + [(ByzantineTrigger, s.(byzantine := true))];
    }
    for i := 0 to |cfg.agents|
      invariant forall e: (Action, State) :: e in succs <==>
        Step(cfg, s, e.0, e.1) && InRound(cfg.agents[..i], e.0)
    {
      var a := cfg.agents[i];
      assert cfg.agents[..i + 1] == cfg.agents[..i] + [a];
      var mine := AgentSuccessors(cfg, s, a);
      succs := succs + mine;
    }
    assert cfg.agents[..|cfg.agents|] == cfg.agents;
  }

  // Whether the loop over agents has produced label `act` once it has handled `handled`.
  predicate InRound(handled: seq<Agent>, act: Action) {
    match act
    case TickClock => true
    case ByzantineTrigger => true
    case GatewayReceiveKNK(_) => handled != []
    case _ => act.agent in handled
  }

  method AgentSuccessors(cfg: Config, s: State, a: Agent) returns (succs: seq<(Action, State)>)
    requires a in cfg.agents
    ensures forall e: (Action, State) :: e in succs <==>
      && !e.0.TickClock? && !e.0.ByzantineTrigger?
      && (e.0.GatewayReceiveKNK? || e.0.agent == a) && Step(cfg, s, e.0, e.1)
  {
    succs := RequestIntents(cfg, s, a);
    var more := SendHandshakes(cfg, s, a);
    succs := succs + more;
    more := Replays(cfg, s, a);
    succs := succs + more;
    if At(s, a, ParseSig) || At(s, a, VerifySat) {
      succs := succs + [(StateCorruption(a), Move(s, a, Corrupted))];
    }
    if At(s, a, Corrupted) {
      succs := succs + [(GatewayRecoverCorruption(a), Move(s, a, Listen))];
    }
    more := ReceiveKnks(cfg, s);
    succs := succs + more;
    more := ParseSigs(cfg, s, a);
    succs := succs + more;
    more := VerifySats(cfg, s, a);
    succs := succs + more;
    more := Evaluations(cfg, s, a);
    succs := succs + more;
  }
}
