/** The snapshot variant, `ZTCPP_Snapshot_Model.tla`: verification and evaluation happen in one
    step, and the clock read at that step is kept as the session's snapshot. */
module SnapshotModel {
  type Agent = string

  datatype Phase = Listen | Established | Corrupted

  datatype Sat = Sat(agent: Agent, iat: int, exp: int, active: bool)

  datatype Msg = Msg(kind: string, agent: Agent, nonce: int)

  datatype Config = Config(agents: set<Agent>, maxNonce: int, maxTime: int, minSafetyScore: int)

  datatype State = State(
    phase: map<Agent, Phase>,
    highest: map<Agent, int>,
    sats: set<Sat>,
    network: set<Msg>,
    clock: int,
    byzantineServer: bool,
    byzantineAc: bool,
    partitioned: bool,
    snapshot: map<Agent, int>)

  const KNK := "KNK"

  function Init(cfg: Config): State {
    State(map a | a in cfg.agents :: Listen, map a | a in cfg.agents :: 0, {}, {}, 0, false, false, false,
          map a | a in cfg.agents :: 0)
  }

  ghost predicate RequestSAT(s: State, t: State, a: Agent, iat: int, exp: int) {
    iat <= exp && t == s.(sats := s.sats + {Sat(a, iat, exp, true)})
  }

  ghost predicate SendHandshake(cfg: Config, s: State, t: State, a: Agent, nonce: int) {
    1 <= nonce <= cfg.maxNonce && t == s.(network := s.network + {Msg(KNK, a, nonce)})
  }

  ghost predicate MaliciousReplay(s: State, t: State) {
    exists m :: m in s.network && t == s.(network := s.network + {m})
  }

  ghost predicate CompromiseServer(s: State, t: State) {
    !s.byzantineServer && t == s.(byzantineServer := true)
  }

  ghost predicate CompromiseAC(s: State, t: State) {
    !s.byzantineAc && t == s.(byzantineAc := true)
  }

  ghost predicate TogglePartition(s: State, t: State) {
    t == s.(partitioned := !s.partitioned)
  }

  predicate EntryGuard(cfg: Config, s: State, a: Agent, m: Msg, sat: Sat, score: int)
    requires a in s.highest
  {
    && (m.nonce > s.highest[a] || s.byzantineServer)
    && ((sat.iat <= s.clock && s.clock <= sat.exp) || s.byzantineServer)
    && (score >= cfg.minSafetyScore || s.byzantineAc || s.byzantineServer)
  }

  function Entered(s: State, a: Agent, nonce: int): State {
    s.(highest := s.highest[a := nonce], snapshot := s.snapshot[a := s.clock], phase := s.phase[a := Established])
  }

  // One resolution of the choice of message, token and score.
  predicate AttemptWith(cfg: Config, s: State, t: State, a: Agent, m: Msg, sat: Sat, score: int) {
    && a in s.phase && a in s.highest
    && m in s.network && m.agent == a && m.kind == KNK && sat in s.sats && sat.agent == a && 0 <= score <= 100
    && t == if EntryGuard(cfg, s, a, m, sat, score) then Entered(s, a, m.nonce) else s.(phase := s.phase[a := Listen])
  }

  ghost predicate AtomicVerifyAndEvaluate(cfg: Config, s: State, t: State, a: Agent) {
    && !s.partitioned && a in s.phase && a in s.highest
    && (s.phase[a] == Listen || s.phase[a] == Corrupted)
    && exists m, sat, score :: AttemptWith(cfg, s, t, a, m, sat, score)
  }

  ghost predicate UndefinedBehaviorHandling(s: State, t: State, a: Agent) {
    a in s.phase && s.phase[a] == Corrupted && t == s.(phase := s.phase[a := Listen])
  }

  ghost predicate Tick(cfg: Config, s: State, t: State) {
    s.clock < cfg.maxTime && t == s.(clock := s.clock + 1)
  }

  // Everything but the gateway's own steps.
  ghost predicate Environment(cfg: Config, s: State, t: State) {
    || (exists a, iat, exp ::
          a in cfg.agents && 0 <= iat <= s.clock && s.clock + 1 <= exp <= cfg.maxTime && RequestSAT(s, t, a, iat, exp))
    || (exists a, nonce :: a in cfg.agents && SendHandshake(cfg, s, t, a, nonce))
    || MaliciousReplay(s, t)
    || CompromiseServer(s, t)
    || CompromiseAC(s, t)
    || TogglePartition(s, t)
    || Tick(cfg, s, t)
  }

  ghost predicate Next(cfg: Config, s: State, t: State) {
    || Environment(cfg, s, t)
    || (exists a :: a in cfg.agents && AtomicVerifyAndEvaluate(cfg, s, t, a))
    || (exists a :: a in cfg.agents && UndefinedBehaviorHandling(s, t, a))
  }

  ghost predicate IsRun(cfg: Config, states: seq<State>) {
    && states != [] && states[0] == Init(cfg)
    && forall i | 0 <= i < |states| - 1 :: Next(cfg, states[i], states[i + 1])
  }

  ghost predicate Reachable(cfg: Config, s: State) {
    exists states :: IsRun(cfg, states) && states[|states| - 1] == s
  }

  // ----- the invariant

  predicate IsEstablished(s: State, a: Agent) {
    a in s.phase && s.phase[a] == Established
  }

  /** `SATValidityInvariant` for one agent, with the snapshot no later than the clock. */
  predicate SnapshotValid(s: State, a: Agent)
    requires a in s.snapshot
  {
    s.snapshot[a] <= s.clock && exists sat :: sat in s.sats && sat.agent == a && sat.iat <= s.snapshot[a] <= sat.exp
  }

  predicate NetworkOk(cfg: Config, network: set<Msg>) {
    forall m | m in network :: m.kind == KNK && m.agent in cfg.agents && 1 <= m.nonce <= cfg.maxNonce
  }

  predicate RegistryOk(cfg: Config, sats: set<Sat>, clock: int) {
    forall sat | sat in sats :: sat.agent in cfg.agents && 0 <= sat.iat <= clock && 1 <= sat.exp <= cfg.maxTime
  }

  predicate FrameOk(cfg: Config, s: State) {
    && s.phase.Keys == cfg.agents && s.highest.Keys == cfg.agents && s.snapshot.Keys == cfg.agents
    && 0 <= s.clock && (s.clock == 0 || s.clock <= cfg.maxTime)
    && NetworkOk(cfg, s.network) && RegistryOk(cfg, s.sats, s.clock)
  }

  // Some SAT of `a` had been issued by its snapshot, expired or not.
  predicate HeldSat(s: State, a: Agent)
    requires a in s.snapshot
  {
    exists sat :: sat in s.sats && sat.agent == a && sat.iat <= s.snapshot[a] <= s.clock
  }

  predicate AgentOk(cfg: Config, s: State, a: Agent)
    requires a in s.phase && a in s.highest && a in s.snapshot
  {
    && s.phase[a] != Corrupted
    && (s.phase[a] == Listen ==> s.highest[a] == 0)
    && (s.phase[a] == Established ==> Msg(KNK, a, s.highest[a]) in s.network && HeldSat(s, a))
    && (s.phase[a] == Established && !s.byzantineServer ==> SnapshotValid(s, a))
  }

  predicate Invariant(cfg: Config, s: State) {
    FrameOk(cfg, s) && forall a | a in cfg.agents :: AgentOk(cfg, s, a)
  }

  lemma EnteredOk(cfg: Config, s: State, t: State, m: Msg, sat: Sat, score: int, a: Agent)
    requires Invariant(cfg, s) && m in s.network && m.kind == KNK && sat in s.sats && sat.agent == m.agent
    requires a in cfg.agents && m.agent in cfg.agents && EntryGuard(cfg, s, m.agent, m, sat, score)
    requires t == Entered(s, m.agent, m.nonce)
    ensures FrameOk(cfg, t) && AgentOk(cfg, t, a)
  {
    hide NetworkOk;
    assert AgentOk(cfg, s, a);
    if a == m.agent {
      assert m == Msg(KNK, a, t.highest[a]) && sat in t.sats;
    }
  }

  lemma RefusedOk(cfg: Config, s: State, t: State, b: Agent, a: Agent)
    requires Invariant(cfg, s) && a in cfg.agents && b in cfg.agents && s.phase[b] != Established
    requires t == s.(phase := s.phase[b := Listen])
    ensures FrameOk(cfg, t) && AgentOk(cfg, t, a)
  {
    hide NetworkOk, RegistryOk;
    assert AgentOk(cfg, s, a);
  }

  lemma EntryKeepsAgent(cfg: Config, s: State, t: State, b: Agent, a: Agent)
    requires Invariant(cfg, s) && b in cfg.agents && AtomicVerifyAndEvaluate(cfg, s, t, b) && a in cfg.agents
    ensures FrameOk(cfg, t) && AgentOk(cfg, t, a)
  {
    hide NetworkOk, RegistryOk, AgentOk;
    var m, sat, score :| AttemptWith(cfg, s, t, b, m, sat, score);
    if EntryGuard(cfg, s, b, m, sat, score) {
      EnteredOk(cfg, s, t, m, sat, score, a);
    } else {
      RefusedOk(cfg, s, t, b, a);
    }
  }

  // A step that leaves every gateway alone and forgets nothing.
  predicate Quiet(s: State, t: State) {
    && t.phase == s.phase && t.highest == s.highest && t.snapshot == s.snapshot
    && s.sats <= t.sats && s.network <= t.network && s.clock <= t.clock
    && (s.byzantineServer ==> t.byzantineServer)
  }

  lemma RequestIsQuiet(cfg: Config, s: State, t: State, a: Agent, iat: int, exp: int)
    requires FrameOk(cfg, s) && RequestSAT(s, t, a, iat, exp)
    requires a in cfg.agents && 0 <= iat <= s.clock && s.clock + 1 <= exp <= cfg.maxTime
    ensures FrameOk(cfg, t) && Quiet(s, t)
  {
  }

  lemma SendIsQuiet(cfg: Config, s: State, t: State, a: Agent, nonce: int)
    requires FrameOk(cfg, s) && a in cfg.agents && SendHandshake(cfg, s, t, a, nonce)
    ensures FrameOk(cfg, t) && Quiet(s, t)
  {
  }

  lemma OtherIsQuiet(cfg: Config, s: State, t: State)
    requires FrameOk(cfg, s)
    requires || MaliciousReplay(s, t) || CompromiseServer(s, t) || CompromiseAC(s, t)
             || TogglePartition(s, t) || Tick(cfg, s, t)
    ensures FrameOk(cfg, t) && Quiet(s, t)
  {
    assert MaliciousReplay(s, t) ==> t.network == s.network;
  }

  lemma EnvironmentIsQuiet(cfg: Config, s: State, t: State)
    requires FrameOk(cfg, s) && Environment(cfg, s, t)
    ensures FrameOk(cfg, t) && Quiet(s, t)
  {
    hide FrameOk, Quiet, RequestSAT, SendHandshake, MaliciousReplay, CompromiseServer, CompromiseAC, TogglePartition, Tick;
    if a, iat, exp :|
      a in cfg.agents && 0 <= iat <= s.clock && s.clock + 1 <= exp <= cfg.maxTime && RequestSAT(s, t, a, iat, exp)
    {
      RequestIsQuiet(cfg, s, t, a, iat, exp);
    } else if a, nonce :| a in cfg.agents && SendHandshake(cfg, s, t, a, nonce) {
      SendIsQuiet(cfg, s, t, a, nonce);
    } else {
      OtherIsQuiet(cfg, s, t);
    }
  }

  lemma QuietKeepsAgent(cfg: Config, s: State, t: State, a: Agent)
    requires Quiet(s, t) && a in s.phase && a in s.highest && a in s.snapshot && AgentOk(cfg, s, a)
    ensures AgentOk(cfg, t, a)
  {
  }

  lemma NoCorruption(cfg: Config, s: State, t: State, a: Agent)
    requires Invariant(cfg, s) && a in cfg.agents
    ensures !UndefinedBehaviorHandling(s, t, a)
  {
  }

  lemma NextKeepsInvariant(cfg: Config, s: State, t: State)
    requires Invariant(cfg, s) && Next(cfg, s, t)
    ensures Invariant(cfg, t)
  {
    hide Environment, AtomicVerifyAndEvaluate, UndefinedBehaviorHandling, AgentOk;
    if Environment(cfg, s, t) {
      EnvironmentIsQuiet(cfg, s, t);
      forall a | a in cfg.agents ensures AgentOk(cfg, t, a) {
        QuietKeepsAgent(cfg, s, t, a);
      }
    } else if b :| b in cfg.agents && AtomicVerifyAndEvaluate(cfg, s, t, b) {
      EntryKeepsAgent(cfg, s, t, b, b);
      forall a | a in cfg.agents ensures AgentOk(cfg, t, a) {
        EntryKeepsAgent(cfg, s, t, b, a);
      }
    } else {
      var b :| b in cfg.agents && UndefinedBehaviorHandling(s, t, b);
      NoCorruption(cfg, s, t, b);
    }
  }

  lemma {:induction false} RunKeepsInvariant(cfg: Config, states: seq<State>, n: nat)
    requires IsRun(cfg, states) && n < |states|
    ensures Invariant(cfg, states[n])
  {
    hide Next;
    if n > 0 {
      RunKeepsInvariant(cfg, states, n - 1);
      NextKeepsInvariant(cfg, states[n - 1], states[n]);
    }
  }

  lemma ReachableInvariant(cfg: Config, s: State)
    requires Reachable(cfg, s)
    ensures Invariant(cfg, s)
  {
    hide Next, Invariant;
    var states :| IsRun(cfg, states) && states[|states| - 1] == s;
    RunKeepsInvariant(cfg, states, |states| - 1);
  }

  // ----- what follows

  /** While the server is honest, every established agent has a registered SAT that was valid
      at its snapshot, which lies in the past. */
  lemma SatValidity(cfg: Config, s: State, a: Agent)
    requires Reachable(cfg, s) && !s.byzantineServer && IsEstablished(s, a)
    ensures a in s.snapshot && SnapshotValid(s, a)
  {
    hide Reachable;
    ReachableInvariant(cfg, s);
    assert AgentOk(cfg, s, a);
  }

  // What an honest entry of `a` from `s` to `t` has required and recorded.
  predicate HonestEntry(cfg: Config, s: State, t: State, a: Agent)
    requires a in s.highest && a in t.highest && a in t.snapshot
  {
    && !s.partitioned && t.snapshot[a] == s.clock
    && s.highest[a] < t.highest[a] && Msg(KNK, a, t.highest[a]) in s.network
    && (exists sat :: sat in s.sats && sat.agent == a && sat.iat <= s.clock <= sat.exp)
    && (cfg.minSafetyScore <= 100 || s.byzantineAc)
  }

  lemma EntryIsHonest(cfg: Config, s: State, t: State, b: Agent, a: Agent)
    requires FrameOk(cfg, s) && AtomicVerifyAndEvaluate(cfg, s, t, b) && !s.byzantineServer
    requires a in cfg.agents && b in cfg.agents && !IsEstablished(s, a) && IsEstablished(t, a)
    ensures a in t.highest && a in t.snapshot && HonestEntry(cfg, s, t, a)
  {
    hide NetworkOk, RegistryOk;
    var m, sat, score :| AttemptWith(cfg, s, t, b, m, sat, score);
    assert b == a && EntryGuard(cfg, s, b, m, sat, score);
    assert m == Msg(KNK, a, t.highest[a]);
  }

  /** While the server is honest, entry takes the clock as snapshot and needs a sent nonce above
      the last and a SAT valid at that clock. The step chooses its score freely in 0..100, so of the
      score it needs only that some such score reaches the threshold, unless the access controller is
      compromised; `AttemptSucceedsExactly` speaks of the score chosen. */
  lemma EntryConditions(cfg: Config, s: State, t: State, a: Agent)
    requires Reachable(cfg, s) && Next(cfg, s, t) && !s.byzantineServer
    requires a in cfg.agents && !IsEstablished(s, a) && IsEstablished(t, a)
    ensures a in s.highest && a in t.highest && a in t.snapshot && HonestEntry(cfg, s, t, a)
  {
    hide Reachable, Environment, AtomicVerifyAndEvaluate, UndefinedBehaviorHandling, HonestEntry, AgentOk;
    ReachableInvariant(cfg, s);
    if b :| b in cfg.agents && AtomicVerifyAndEvaluate(cfg, s, t, b) {
      EntryIsHonest(cfg, s, t, b, a);
    } else if b :| b in cfg.agents && UndefinedBehaviorHandling(s, t, b) {
      NoCorruption(cfg, s, t, b);
    } else {
      EnvironmentIsQuiet(cfg, s, t);
    }
  }

  /** One attempt from any state, by its message, token and score. The compromised server waives
      all three conditions, a compromised access controller that on the score; success records the
      message's nonce and the clock, and touches no other agent. */
  lemma AttemptDecides(cfg: Config, s: State, t: State, a: Agent, m: Msg, sat: Sat, score: int)
    requires AttemptWith(cfg, s, t, a, m, sat, score) && !IsEstablished(s, a)
    ensures IsEstablished(t, a) <==>
      || s.byzantineServer
      || (m.nonce > s.highest[a] && sat.iat <= s.clock <= sat.exp && (score >= cfg.minSafetyScore || s.byzantineAc))
    ensures IsEstablished(t, a) ==>
      && a in t.highest && t.highest[a] == m.nonce && a in t.snapshot && t.snapshot[a] == s.clock
    ensures !IsEstablished(t, a) ==>
      a in t.phase && t.phase[a] == Listen && t.highest == s.highest && t.snapshot == s.snapshot
    ensures forall b: Agent | b != a ::
      && (b in t.phase <==> b in s.phase) && (b in s.phase ==> t.phase[b] == s.phase[b])
      && (b in t.highest <==> b in s.highest) && (b in s.highest ==> t.highest[b] == s.highest[b])
      && (b in t.snapshot <==> b in s.snapshot) && (b in s.snapshot ==> t.snapshot[b] == s.snapshot[b])
    ensures t.sats == s.sats && t.network == s.network && t.clock == s.clock && t.partitioned == s.partitioned
    ensures t.byzantineServer == s.byzantineServer && t.byzantineAc == s.byzantineAc
  {
  }

  /** While the network is partitioned no reachable gateway changes, and the partition can come and
      go at any time. */
  lemma PartitionStops(cfg: Config, s: State)
    requires Reachable(cfg, s)
    ensures s.partitioned ==> forall t | Next(cfg, s, t) ::
      t.phase == s.phase && t.highest == s.highest && t.snapshot == s.snapshot
    ensures exists t :: Next(cfg, s, t) && t.partitioned != s.partitioned && t.(partitioned := s.partitioned) == s
  {
    hide Reachable, Environment, UndefinedBehaviorHandling;
    ReachableInvariant(cfg, s);
    forall t | s.partitioned && Next(cfg, s, t)
      ensures t.phase == s.phase && t.highest == s.highest && t.snapshot == s.snapshot
    {
      if b :| b in cfg.agents && UndefinedBehaviorHandling(s, t, b) {
        NoCorruption(cfg, s, t, b);
      } else {
        EnvironmentIsQuiet(cfg, s, t);
      }
    }
    var t := s.(partitioned := !s.partitioned);
    assert TogglePartition(s, t) && Environment(cfg, s, t) by { Toggles(cfg, s); }
  }

  /** What the steps out of a state can add or change besides the gateways: exactly the tokens issued
      by now and not yet expired, the messages within the nonce bound, one tick of the clock within
      the time bound, and each of the two compromises, once. */
  lemma EnvironmentExactly(cfg: Config, s: State, sat: Sat, m: Msg)
    ensures sat !in s.sats ==>
      ((exists t :: Next(cfg, s, t) && sat in t.sats) <==>
        sat.active && sat.agent in cfg.agents && 0 <= sat.iat <= s.clock < sat.exp <= cfg.maxTime)
    ensures m !in s.network ==>
      ((exists t :: Next(cfg, s, t) && m in t.network) <==>
        m.kind == "KNK" && m.agent in cfg.agents && 1 <= m.nonce <= cfg.maxNonce)
    ensures (exists t :: Next(cfg, s, t) && t.clock != s.clock) <==> s.clock < cfg.maxTime
    ensures (exists t :: Next(cfg, s, t) && t.byzantineServer != s.byzantineServer) <==> !s.byzantineServer
    ensures (exists t :: Next(cfg, s, t) && t.byzantineAc != s.byzantineAc) <==> !s.byzantineAc
    ensures forall t | Next(cfg, s, t) :: s.clock <= t.clock <= s.clock + 1
  {
    hide Next;
    forall t | Next(cfg, s, t) ensures Added(cfg, s, t, sat, m) {
      AddedByNext(cfg, s, t, sat, m);
    }
    CanAdd(cfg, s, sat, m);
    CanTurn(cfg, s);
  }

  // `t` differs from `s` only as a step may make it.
  predicate Added(cfg: Config, s: State, t: State, sat: Sat, m: Msg) {
    && (sat in t.sats && sat !in s.sats ==>
          sat.active && sat.agent in cfg.agents && 0 <= sat.iat <= s.clock < sat.exp <= cfg.maxTime)
    && (m in t.network && m !in s.network ==> m.kind == "KNK" && m.agent in cfg.agents && 1 <= m.nonce <= cfg.maxNonce)
    && (t.clock == s.clock || (t.clock == s.clock + 1 && s.clock < cfg.maxTime))
    && (s.byzantineServer ==> t.byzantineServer) && (s.byzantineAc ==> t.byzantineAc)
  }

  lemma AddedByEnvironment(cfg: Config, s: State, t: State, sat: Sat, m: Msg)
    requires Environment(cfg, s, t)
    ensures Added(cfg, s, t, sat, m)
  {
    hide RequestSAT, SendHandshake, MaliciousReplay;
    if a, iat, exp :|
      a in cfg.agents && 0 <= iat <= s.clock && s.clock + 1 <= exp <= cfg.maxTime && RequestSAT(s, t, a, iat, exp)
    {
      RequestAdds(s, t, a, iat, exp);
    } else if a, nonce :| a in cfg.agents && SendHandshake(cfg, s, t, a, nonce) {
      SendAdds(cfg, s, t, a, nonce);
    } else if MaliciousReplay(s, t) {
      ReplayAdds(s, t);
    }
  }

  lemma RequestAdds(s: State, t: State, a: Agent, iat: int, exp: int)
    requires RequestSAT(s, t, a, iat, exp)
    ensures t == s.(sats := s.sats + {Sat(a, iat, exp, true)})
  {
  }

  lemma SendAdds(cfg: Config, s: State, t: State, a: Agent, nonce: int)
    requires SendHandshake(cfg, s, t, a, nonce)
    ensures 1 <= nonce <= cfg.maxNonce && t == s.(network := s.network + {Msg("KNK", a, nonce)})
  {
  }

  lemma ReplayAdds(s: State, t: State)
    requires MaliciousReplay(s, t)
    ensures t == s
  {
    assert t.network == s.network;
  }

  lemma AddedByNext(cfg: Config, s: State, t: State, sat: Sat, m: Msg)
    requires Next(cfg, s, t)
    ensures Added(cfg, s, t, sat, m)
  {
    hide Environment;
    if Environment(cfg, s, t) {
      AddedByEnvironment(cfg, s, t, sat, m);
    }
  }

  lemma CanAdd(cfg: Config, s: State, sat: Sat, m: Msg)
    ensures sat.active && sat.agent in cfg.agents && 0 <= sat.iat <= s.clock < sat.exp <= cfg.maxTime ==>
      Next(cfg, s, s.(sats := s.sats + {sat}))
    ensures m.kind == "KNK" && m.agent in cfg.agents && 1 <= m.nonce <= cfg.maxNonce ==>
      Next(cfg, s, s.(network := s.network + {m}))
  {
    hide AtomicVerifyAndEvaluate, UndefinedBehaviorHandling;
    if sat.active && sat.agent in cfg.agents && 0 <= sat.iat <= s.clock < sat.exp <= cfg.maxTime {
      assert RequestSAT(s, s.(sats := s.sats + {sat}), sat.agent, sat.iat, sat.exp);
    }
    if m.kind == "KNK" && m.agent in cfg.agents && 1 <= m.nonce <= cfg.maxNonce {
      assert SendHandshake(cfg, s, s.(network := s.network + {m}), m.agent, m.nonce);
    }
  }

  lemma CanTurn(cfg: Config, s: State)
    ensures s.clock < cfg.maxTime ==> Next(cfg, s, s.(clock := s.clock + 1))
    ensures !s.byzantineServer ==> Next(cfg, s, s.(byzantineServer := true))
    ensures !s.byzantineAc ==> Next(cfg, s, s.(byzantineAc := true))
  {
    hide AtomicVerifyAndEvaluate, UndefinedBehaviorHandling;
    assert s.clock < cfg.maxTime ==> Tick(cfg, s, s.(clock := s.clock + 1));
    assert !s.byzantineServer ==> CompromiseServer(s, s.(byzantineServer := true));
    assert !s.byzantineAc ==> CompromiseAC(s, s.(byzantineAc := true));
  }

  lemma Toggles(cfg: Config, s: State)
    ensures TogglePartition(s, s.(partitioned := !s.partitioned))
    ensures Environment(cfg, s, s.(partitioned := !s.partitioned))
  {
  }

  /** One attempt from a reachable state under an honest server, by its message, token and score:
      it succeeds exactly when the token is valid at the clock and the score reaches the threshold
      or the access controller is compromised. The nonce check refuses nothing here, since an
      agent still waiting has accepted none. */
  lemma AttemptSucceedsExactly(cfg: Config, s: State, t: State, a: Agent, m: Msg, sat: Sat, score: int)
    requires Reachable(cfg, s) && !s.byzantineServer && a in cfg.agents && !IsEstablished(s, a)
    requires AttemptWith(cfg, s, t, a, m, sat, score)
    ensures IsEstablished(t, a) <==> sat.iat <= s.clock <= sat.exp && (score >= cfg.minSafetyScore || s.byzantineAc)
    ensures t == if IsEstablished(t, a) then Entered(s, a, m.nonce) else s
  {
    hide Reachable;
    ReachableInvariant(cfg, s);
    assert AgentOk(cfg, s, a) && 1 <= m.nonce;
    assert s.phase[a := Listen] == s.phase;
  }

  /** Once established, always established, with the snapshot and the nonce of the entry. */
  lemma {:induction false} SnapshotFrozen(cfg: Config, states: seq<State>, a: Agent, i: nat, j: nat)
    requires IsRun(cfg, states) && i <= j < |states| && IsEstablished(states[i], a)
    ensures IsEstablished(states[j], a)
    ensures a in states[i].snapshot && a in states[j].snapshot && states[j].snapshot[a] == states[i].snapshot[a]
    ensures a in states[i].highest && a in states[j].highest && states[j].highest[a] == states[i].highest[a]
  {
    hide Next, NetworkOk, RegistryOk, AgentOk;
    RunKeepsInvariant(cfg, states, i);
    if i < j {
      SnapshotFrozen(cfg, states, a, i, j - 1);
      RunKeepsInvariant(cfg, states, j - 1);
      StaysEstablished(cfg, states[j - 1], states[j], a);
    }
  }

  predicate SameSession(s: State, t: State, a: Agent) {
    && IsEstablished(t, a) && a in s.snapshot && a in s.highest && a in t.snapshot && a in t.highest
    && t.snapshot[a] == s.snapshot[a] && t.highest[a] == s.highest[a]
  }

  lemma AttemptsKeepEstablished(cfg: Config, s: State, t: State, b: Agent, a: Agent)
    requires a in s.snapshot && a in s.highest && IsEstablished(s, a) && AtomicVerifyAndEvaluate(cfg, s, t, b)
    ensures SameSession(s, t, a)
  {
  }

  lemma RecoveryKeepsEstablished(s: State, t: State, b: Agent, a: Agent)
    requires a in s.snapshot && a in s.highest && IsEstablished(s, a) && UndefinedBehaviorHandling(s, t, b)
    ensures SameSession(s, t, a)
  {
  }

  lemma StaysEstablished(cfg: Config, s: State, t: State, a: Agent)
    requires FrameOk(cfg, s) && Next(cfg, s, t) && IsEstablished(s, a)
    ensures SameSession(s, t, a)
  {
    hide Environment, AtomicVerifyAndEvaluate, UndefinedBehaviorHandling, NetworkOk, RegistryOk;
    if b :| b in cfg.agents && AtomicVerifyAndEvaluate(cfg, s, t, b) {
      AttemptsKeepEstablished(cfg, s, t, b, a);
    } else if b :| b in cfg.agents && UndefinedBehaviorHandling(s, t, b) {
      RecoveryKeepsEstablished(s, t, b, a);
    } else {
      EnvironmentIsQuiet(cfg, s, t);
    }
  }

  /** No state is ever corrupted, so the recovery action the fairness condition is about is
      never enabled. */
  lemma RecoveryNeverEnabled(cfg: Config, s: State, t: State, a: Agent)
    requires Reachable(cfg, s)
    ensures !UndefinedBehaviorHandling(s, t, a)
  {
    hide Reachable;
    ReachableInvariant(cfg, s);
    if a in cfg.agents { assert AgentOk(cfg, s, a); }
  }

  /** Two different messages of one agent never carry the same nonce: replaying leaves the
      network as it is, and `NoReplayAttack` speaks of no pair of messages at all. */
  lemma NoTwinMessages(cfg: Config, s: State, m1: Msg, m2: Msg)
    requires Reachable(cfg, s) && m1 in s.network && m2 in s.network
    ensures m1.agent == m2.agent && m1.nonce == m2.nonce ==> m1 == m2
  {
    hide Reachable;
    ReachableInvariant(cfg, s);
  }

  // ----- why the premise of an honest server is needed

  ghost predicate EstablishedOnExpired(cfg: Config, s: State, a: Agent) {
    Reachable(cfg, s) && IsEstablished(s, a) && a in s.snapshot && !SnapshotValid(s, a)
  }

  lemma ExpiredAccepted(cfg: Config, a: Agent) returns (s: State)
    requires a in cfg.agents && cfg.maxNonce >= 1 && cfg.maxTime >= 2
    ensures EstablishedOnExpired(cfg, s, a)
  {
    hide Reachable, Next;
    var s0 := Init(cfg);
    InitReachable(cfg);
    var sat, m := Sat(a, 0, 1, true), Msg(KNK, a, 1);
    var s1 := s0.(sats := s0.sats + {sat});
    CanAdd(cfg, s0, sat, m);
    NextReaches(cfg, s0, s1);
    var s2 := s1.(network := s1.network + {m});
    CanAdd(cfg, s1, sat, m);
    NextReaches(cfg, s1, s2);
    var s3 := s2.(byzantineServer := true);
    CanTurn(cfg, s2);
    NextReaches(cfg, s2, s3);
    var s4 := s3.(clock := s3.clock + 1);
    CanTurn(cfg, s3);
    NextReaches(cfg, s3, s4);
    var s5 := s4.(clock := s4.clock + 1);
    CanTurn(cfg, s4);
    NextReaches(cfg, s4, s5);
    s := Entered(s5, a, 1);
    assert AttemptWith(cfg, s5, s, a, m, sat, 0);
    assert Next(cfg, s5, s) by { AttemptIsNext(cfg, s5, s, a, m, sat, 0); }
    NextReaches(cfg, s5, s);
  }

  lemma AttemptIsNext(cfg: Config, s: State, t: State, a: Agent, m: Msg, sat: Sat, score: int)
    requires a in cfg.agents && AttemptWith(cfg, s, t, a, m, sat, score) && !s.partitioned && s.phase[a] == Listen
    ensures Next(cfg, s, t)
  {
    hide Environment;
    assert AtomicVerifyAndEvaluate(cfg, s, t, a);
  }

  lemma NoTimeToExpire(cfg: Config, s: State, a: Agent)
    requires Invariant(cfg, s) && IsEstablished(s, a) && (cfg.maxNonce < 1 || cfg.maxTime < 2)
    ensures a in s.snapshot && SnapshotValid(s, a)
  {
    assert AgentOk(cfg, s, a);
  }

  /** `SATValidityInvariant` needs its premise: with a compromised server some reachable state has an
      agent established on an expired SAT exactly when the bounds leave time for one to expire. */
  lemma HonestyNeededExactly(cfg: Config)
    ensures (exists s, a :: EstablishedOnExpired(cfg, s, a)) <==>
      cfg.agents != {} && cfg.maxNonce >= 1 && cfg.maxTime >= 2
  {
    hide Reachable;
    if cfg.agents != {} && cfg.maxNonce >= 1 && cfg.maxTime >= 2 {
      var a :| a in cfg.agents;
      var s := ExpiredAccepted(cfg, a);
    } else {
      forall s, a | Reachable(cfg, s) && IsEstablished(s, a) ensures a in s.snapshot && SnapshotValid(s, a) {
        ReachableInvariant(cfg, s);
        NoTimeToExpire(cfg, s, a);
      }
    }
  }

  // ----- why the snapshot is needed

  // The validity condition read against the running clock instead.
  predicate LiveSat(s: State, a: Agent) {
    exists sat :: sat in s.sats && sat.agent == a && sat.iat <= s.clock <= sat.exp
  }

  lemma NextReaches(cfg: Config, s: State, t: State)
    requires Reachable(cfg, s) && Next(cfg, s, t)
    ensures Reachable(cfg, t)
  {
    hide Next;
    var states :| IsRun(cfg, states) && states[|states| - 1] == s;
    var longer := states + [t];
    assert IsRun(cfg, longer) && longer[|longer| - 1] == t;
  }

  lemma Outlived(cfg: Config, a: Agent) returns (s: State)
    requires a in cfg.agents && cfg.maxNonce >= 1 && cfg.maxTime >= 2
    ensures Reachable(cfg, s) && !s.byzantineServer && IsEstablished(s, a) && !LiveSat(s, a)
  {
    hide Reachable;
    var s0 := Init(cfg);
    assert Reachable(cfg, s0) by { InitReachable(cfg); }
    var sat, m := Sat(a, 0, 1, true), Msg(KNK, a, 1);
    var s1 := s0.(sats := {sat});
    assert RequestSAT(s0, s1, a, 0, 1);
    NextReaches(cfg, s0, s1);
    var s2 := s1.(network := {m});
    assert SendHandshake(cfg, s1, s2, a, 1);
    NextReaches(cfg, s1, s2);
    var s3 := s2.(byzantineAc := true);
    assert CompromiseAC(s2, s3);
    NextReaches(cfg, s2, s3);
    var s4 := Entered(s3, a, 1);
    assert AttemptWith(cfg, s3, s4, a, m, sat, 0);
    assert AtomicVerifyAndEvaluate(cfg, s3, s4, a);
    NextReaches(cfg, s3, s4);
    var s5 := s4.(clock := 1);
    assert Tick(cfg, s4, s5);
    NextReaches(cfg, s4, s5);
    s := s5.(clock := 2);
    assert Tick(cfg, s5, s);
    NextReaches(cfg, s5, s);
  }

  lemma InitReachable(cfg: Config)
    ensures Reachable(cfg, Init(cfg))
  {
    assert IsRun(cfg, [Init(cfg)]);
  }

  lemma LiveWhenShort(cfg: Config, s: State, a: Agent)
    requires Invariant(cfg, s) && !s.byzantineServer && IsEstablished(s, a)
    requires cfg.maxNonce < 1 || cfg.maxTime < 2
    ensures LiveSat(s, a)
  {
  }

  /** Read against the running clock, validity holds of all reachable honest states exactly
      when the bounds leave no time for the clock to pass a token's expiry. */
  lemma LiveClockExactly(cfg: Config)
    ensures (cfg.agents == {} || cfg.maxNonce < 1 || cfg.maxTime < 2) <==>
      forall s, a :: Reachable(cfg, s) && !s.byzantineServer && IsEstablished(s, a) ==> LiveSat(s, a)
  {
    hide Reachable;
    if cfg.agents != {} && cfg.maxNonce >= 1 && cfg.maxTime >= 2 {
      var a :| a in cfg.agents;
      var s := Outlived(cfg, a);
    } else {
      forall s, a | Reachable(cfg, s) && !s.byzantineServer && IsEstablished(s, a) ensures LiveSat(s, a) {
        ReachableInvariant(cfg, s);
        LiveWhenShort(cfg, s, a);
      }
    }
  }
}
