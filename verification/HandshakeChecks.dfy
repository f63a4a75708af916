/** The checks the explorer makes in each state it takes from its queue, and exactly when
    they hold of every reachable state. */
module HandshakeChecks {
  import opened Handshake
  import opened HandshakeRuns

  // The explorer compares nonces only: the replayed message may be another agent's.
  predicate ReplayHit(s: State, a: Agent, m: Msg) {
    m.isReplay && At(s, a, Established) && Highest(s, a) == m.nonce
  }

  predicate SatMissing(s: State, a: Agent) {
    && (At(s, a, EvaluateMama) || At(s, a, Established))
    && !exists sat :: sat in s.sats && sat.agent == a && sat.exp > s.clock
  }

  function MessageHits(s: State, a: Agent, n: nat): nat
    requires n <= |s.messages|
  {
    if n == 0 then 0 else MessageHits(s, a, n - 1) + if ReplayHit(s, a, s.messages[n - 1]) then 1 else 0
  }

  function ReplayHits(cfg: Config, s: State, n: nat): nat
    requires n <= |cfg.agents|
  {
    if n == 0 then 0 else ReplayHits(cfg, s, n - 1) + MessageHits(s, cfg.agents[n - 1], |s.messages|)
  }

  function SatMisses(cfg: Config, s: State, n: nat): nat
    requires n <= |cfg.agents|
  {
    if n == 0 then 0 else SatMisses(cfg, s, n - 1) + if SatMissing(s, cfg.agents[n - 1]) then 1 else 0
  }

  /** The places of agents and messages that make a replay violation. */
  ghost function HitPairs(cfg: Config, s: State): set<(nat, nat)> {
    set i: nat, j: nat |
      && i < |cfg.agents| && j < |s.messages| && s.messages[j].isReplay
      && cfg.agents[i] in s.gateway && s.gateway[cfg.agents[i]] == Established
      && s.messages[j].nonce == (if cfg.agents[i] in s.highest then s.highest[cfg.agents[i]] else 0)
      :: (i, j)
  }

  /** The places of agents that are past SAT verification and hold no SAT that is still live. */
  ghost function MissPlaces(cfg: Config, s: State): set<nat> {
    set i: nat |
      && i < |cfg.agents| && cfg.agents[i] in s.gateway && s.gateway[cfg.agents[i]] in {EvaluateMama, Established}
      && forall sat | sat in s.sats && sat.agent == cfg.agents[i] :: sat.exp <= s.clock
  }

  // The pairs met before agent `n` has been checked against message `k`.
  ghost function PairsBefore(cfg: Config, s: State, n: nat, k: nat): set<(nat, nat)> {
    set e | e in HitPairs(cfg, s) && (e.0 < n || (e.0 == n && e.1 < k))
  }

  lemma InHitPairs(cfg: Config, s: State, i: nat, j: nat)
    ensures (i, j) in HitPairs(cfg, s) <==>
      i < |cfg.agents| && j < |s.messages| && ReplayHit(s, cfg.agents[i], s.messages[j])
  {
  }

  lemma NextPair(cfg: Config, s: State, n: nat, k: nat)
    requires k > 0
    ensures var before := PairsBefore(cfg, s, n, k - 1);
      |PairsBefore(cfg, s, n, k)| == |before| + if (n, k - 1) in HitPairs(cfg, s) then 1 else 0
  {
    hide HitPairs;
    var before, e := PairsBefore(cfg, s, n, k - 1), (n, k - 1);
    assert PairsBefore(cfg, s, n, k) == if e in HitPairs(cfg, s) then before + {e} else before;
  }

  lemma NextAgent(cfg: Config, s: State, n: nat)
    ensures PairsBefore(cfg, s, n + 1, 0) == PairsBefore(cfg, s, n, |s.messages|)
    ensures PairsBefore(cfg, s, 0, 0) == {}
  {
    forall e | e in HitPairs(cfg, s) ensures e.1 < |s.messages| {
      InHitPairs(cfg, s, e.0, e.1);
    }
  }

  lemma {:induction false} HitsCountPairs(cfg: Config, s: State, n: nat, k: nat)
    requires k <= |s.messages| && n <= |cfg.agents| && (n == |cfg.agents| ==> k == 0)
    ensures |PairsBefore(cfg, s, n, k)| ==
      ReplayHits(cfg, s, n) + if n < |cfg.agents| then MessageHits(s, cfg.agents[n], k) else 0
    decreases n, k
  {
    hide HitPairs, PairsBefore, ReplayHit;
    if k > 0 {
      HitsCountPairs(cfg, s, n, k - 1);
      NextPair(cfg, s, n, k);
      InHitPairs(cfg, s, n, k - 1);
    } else {
      NextAgent(cfg, s, if n == 0 then 0 else n - 1);
      if n > 0 {
        HitsCountPairs(cfg, s, n - 1, |s.messages|);
      }
    }
  }

  lemma {:induction false} MissesCountPlaces(cfg: Config, s: State, n: nat)
    requires n <= |cfg.agents|
    ensures |set i | i in MissPlaces(cfg, s) && i < n| == SatMisses(cfg, s, n)
  {
    var now := set i | i in MissPlaces(cfg, s) && i < n;
    if n > 0 {
      MissesCountPlaces(cfg, s, n - 1);
      var before := set i | i in MissPlaces(cfg, s) && i < n - 1;
      assert n - 1 in MissPlaces(cfg, s) <==> SatMissing(s, cfg.agents[n - 1]);
      assert now == if n - 1 in MissPlaces(cfg, s) then before + {n - 1} else before;
    } else {
      assert now == {};
    }
  }

  /** Each violating pair of agent and message, and each agent without a live SAT, counts once. */
  lemma CountsAreExact(cfg: Config, s: State)
    ensures ReplayHits(cfg, s, |cfg.agents|) == |HitPairs(cfg, s)|
    ensures SatMisses(cfg, s, |cfg.agents|) == |MissPlaces(cfg, s)|
  {
    HitsCountPairs(cfg, s, |cfg.agents|, 0);
    assert PairsBefore(cfg, s, |cfg.agents|, 0) == HitPairs(cfg, s);
    MissesCountPlaces(cfg, s, |cfg.agents|);
    assert (set i | i in MissPlaces(cfg, s) && i < |cfg.agents|) == MissPlaces(cfg, s);
  }

  method CheckState(cfg: Config, s: State) returns (hits: nat, misses: nat)
    ensures hits == |HitPairs(cfg, s)| == ReplayHits(cfg, s, |cfg.agents|)
    ensures misses == |MissPlaces(cfg, s)| == SatMisses(cfg, s, |cfg.agents|)
  {
    CountsAreExact(cfg, s);
    hits, misses := 0, 0;
    for i := 0 to |cfg.agents|
      invariant hits == ReplayHits(cfg, s, i) && misses == SatMisses(cfg, s, i)
    {
      var a := cfg.agents[i];
      for j := 0 to |s.messages|
        invariant hits == ReplayHits(cfg, s, i) + MessageHits(s, a, j)
      {
        if ReplayHit(s, a, s.messages[j]) {
          hits := hits + 1;
        }
      }
      if SatMissing(s, a) {
        misses := misses + 1;
      }
    }
  }

  // No check fires in `s`.
  ghost predicate ReplayClean(cfg: Config, s: State) {
    forall a, m | a in cfg.agents && m in s.messages :: !ReplayHit(s, a, m)
  }

  ghost predicate SatClean(cfg: Config, s: State) {
    forall a | a in cfg.agents :: !SatMissing(s, a)
  }

  // `NoReplayAttack` of the TLA+ text, where the replayed message is the agent's own.
  ghost predicate NoReplayAttack(cfg: Config, s: State) {
    forall a, m | a in cfg.agents && m in s.messages && m.agent == a :: !ReplayHit(s, a, m)
  }

  lemma {:induction false} MessageHitsZero(s: State, a: Agent, n: nat)
    requires n <= |s.messages|
    ensures MessageHits(s, a, n) == 0 <==> forall m | m in s.messages[..n] :: !ReplayHit(s, a, m)
  {
    if n > 0 {
      MessageHitsZero(s, a, n - 1);
      assert s.messages[..n] == s.messages[..n - 1] + [s.messages[n - 1]];
    }
  }

  lemma {:induction false} HitsZero(cfg: Config, s: State, n: nat)
    requires n <= |cfg.agents|
    ensures ReplayHits(cfg, s, n) == 0 <==>
      forall a, m | a in cfg.agents[..n] && m in s.messages :: !ReplayHit(s, a, m)
    ensures SatMisses(cfg, s, n) == 0 <==> forall a | a in cfg.agents[..n] :: !SatMissing(s, a)
  {
    if n > 0 {
      HitsZero(cfg, s, n - 1);
      MessageHitsZero(s, cfg.agents[n - 1], |s.messages|);
      assert s.messages[..|s.messages|] == s.messages;
      assert cfg.agents[..n] == cfg.agents[..n - 1] + [cfg.agents[n - 1]];
    }
  }

  /** A state adds nothing to the two counters exactly when the two checks hold of it. */
  lemma CountersMeanChecks(cfg: Config, s: State)
    ensures ReplayHits(cfg, s, |cfg.agents|) == 0 <==> ReplayClean(cfg, s)
    ensures SatMisses(cfg, s, |cfg.agents|) == 0 <==> SatClean(cfg, s)
  {
    HitsZero(cfg, s, |cfg.agents|);
    assert cfg.agents[..|cfg.agents|] == cfg.agents;
  }

  // ----- exactly when the checks hold everywhere

  // The bounds leave room for some agent to be established.
  predicate CanEstablish(cfg: Config) {
    cfg.agents != [] && cfg.maxNonce >= 1 && cfg.maxTime >= 1
  }

  function Replayed(cfg: Config): State
    requires cfg.agents != []
  {
    var a := cfg.agents[0];
    Init(cfg).(gateway := Init(cfg).gateway[a := Established], highest := Init(cfg).highest[a := 1],
      sats := [Sat(a, 1, INTENT, true)],
      messages := [Msg(KNK, a, 1, INTENT, false), Msg(KNK, a, 1, INTENT, true)], byzantine := true)
  }

  lemma NetworkReady(cfg: Config, s: State)
    requires CanEstablish(cfg)
    requires s == Init(cfg).(sats := Replayed(cfg).sats, messages := Replayed(cfg).messages, byzantine := true)
    ensures Reachable(cfg, s)
  {
    hide Reachable;
    var a := cfg.agents[0];
    var m := Msg(KNK, a, 1, INTENT, false);
    var s0 := Init(cfg);
    InitLeads(cfg);
    var s1 := s0.(sats := s0.sats + [Sat(a, 1, INTENT, true)]);
    StepReaches(cfg, s0, AgentRequestIntent(a, 1, INTENT), s1);
    var s2 := s1.(messages := s1.messages + [m]);
    StepReaches(cfg, s1, AgentSendHandshake(a, 1), s2);
    assert m in s2.messages;
    var s3 := s2.(messages := s2.messages + [m.(isReplay := true)]);
    StepReaches(cfg, s2, MaliciousReplay(a), s3);
    StepReaches(cfg, s3, ByzantineTrigger, s);
  }

  lemma GatewayReady(cfg: Config) returns (s: State)
    requires CanEstablish(cfg)
    ensures Reachable(cfg, s)
    ensures var a, r := cfg.agents[0], Replayed(cfg);
      s == Move(r, a, VerifySat) && a in s.gateway
  {
    hide Reachable;
    var a, r := cfg.agents[0], Replayed(cfg);
    var m := r.messages[0];
    var s0 := Init(cfg).(sats := r.sats, messages := r.messages, byzantine := true);
    NetworkReady(cfg, s0);
    assert m in s0.messages;
    var s1 := Move(s0, a, ParseSig);
    StepReaches(cfg, s0, GatewayReceiveKNK(a), s1);
    s := Parsed(s1, a, m);
    StepReaches(cfg, s1, GatewayParseSig(a), s);
    assert s.gateway == Move(r, a, VerifySat).gateway;
  }

  lemma EstablishedReachable(cfg: Config)
    requires CanEstablish(cfg)
    ensures Reachable(cfg, Replayed(cfg))
  {
    hide Reachable;
    var a, r := cfg.agents[0], Replayed(cfg);
    var s2 := GatewayReady(cfg);
    var m, sat := r.messages[0], r.sats[0];
    assert m in s2.messages && sat in s2.sats;
    var s3 := Verified(s2, a, sat);
    StepReaches(cfg, s2, GatewayVerifySAT(a), s3);
    assert SCORES[0] == 0;
    StepReaches(cfg, s3, GatewayEvaluateMAMA(a, 0), Evaluated(cfg, s3, a, 0));
    assert Evaluated(cfg, s3, a, 0).gateway == r.gateway;
  }

  /** The two checks, and the TLA+ `NoReplayAttack`, hold of all reachable states only when the
      bounds let no agent be established at all: a replay can be added, or the clock can tick,
      once an agent is established. */
  lemma ChecksHoldExactly(cfg: Config)
    ensures !CanEstablish(cfg) <==> forall s :: Reachable(cfg, s) ==> ReplayClean(cfg, s)
    ensures !CanEstablish(cfg) <==> forall s :: Reachable(cfg, s) ==> NoReplayAttack(cfg, s)
    ensures !CanEstablish(cfg) <==> forall s :: Reachable(cfg, s) ==> SatClean(cfg, s)
  {
    hide Reachable, Step;
    if CanEstablish(cfg) {
      var a := cfg.agents[0];
      var s := Replayed(cfg);
      EstablishedReachable(cfg);
      assert s.messages[1] in s.messages && ReplayHit(s, a, s.messages[1]);
      var t := s.(clock := 1);
      assert Step(cfg, s, TickClock, t) by { TickStep(cfg, s); }
      StepReaches(cfg, s, TickClock, t);
      assert SatMissing(t, a);
    } else {
      forall s | Reachable(cfg, s) ensures ReplayClean(cfg, s) && NoReplayAttack(cfg, s) && SatClean(cfg, s) {
        ReachableInvariant(cfg, s);
        NobodyEvaluated(cfg, s);
      }
    }
  }

  lemma NobodyEvaluated(cfg: Config, s: State)
    requires Invariant(cfg, s) && !CanEstablish(cfg)
    ensures forall a | a in cfg.agents :: !At(s, a, EvaluateMama) && !At(s, a, Established)
  {
  }

  // ----- where the explorer's replay check and the TLA+ invariant part

  // One message of `a`, and one of `b` with the same nonce that has been replayed.
  function TwoSenders(cfg: Config, a: Agent, b: Agent): State {
    var m := Msg(KNK, b, 1, INTENT, false);
    Init(cfg).(sats := [Sat(a, 1, INTENT, true)], byzantine := true,
      messages := [Msg(KNK, a, 1, INTENT, false), m, m.(isReplay := true)])
  }

  lemma TwoSendersReached(cfg: Config, a: Agent, b: Agent)
    requires a in cfg.agents && b in cfg.agents && cfg.maxNonce >= 1 && cfg.maxTime >= 1
    ensures Reachable(cfg, TwoSenders(cfg, a, b))
  {
    hide Reachable;
    var s0 := Init(cfg);
    InitLeads(cfg);
    var s1 := s0.(byzantine := true);
    StepReaches(cfg, s0, ByzantineTrigger, s1);
    var s2 := s1.(sats := s1.sats + [Sat(a, 1, INTENT, true)]);
    StepReaches(cfg, s1, AgentRequestIntent(a, 1, INTENT), s2);
    var s3 := s2.(messages := s2.messages + [Msg(KNK, a, 1, INTENT, false)]);
    StepReaches(cfg, s2, AgentSendHandshake(a, 1), s3);
    var m := Msg(KNK, b, 1, INTENT, false);
    var s4 := s3.(messages := s3.messages + [m]);
    StepReaches(cfg, s3, AgentSendHandshake(b, 1), s4);
    assert m in s4.messages;
    StepReaches(cfg, s4, MaliciousReplay(b), TwoSenders(cfg, a, b));
  }

  lemma AcceptedBeside(cfg: Config, a: Agent, b: Agent) returns (s: State)
    requires a in cfg.agents && b in cfg.agents && cfg.maxNonce >= 1 && cfg.maxTime >= 1
    ensures Reachable(cfg, s) && a in s.highest && s.highest[a] == 1
    ensures s == Move(TwoSenders(cfg, a, b), a, VerifySat).(highest := s.highest)
  {
    hide Reachable;
    TwoSendersReached(cfg, a, b);
    var s0 := TwoSenders(cfg, a, b);
    var m := s0.messages[0];
    var s1 := Move(s0, a, ParseSig);
    assert m in s0.messages && m in s1.messages;
    StepReaches(cfg, s0, GatewayReceiveKNK(a), s1);
    s := Parsed(s1, a, m);
    StepReaches(cfg, s1, GatewayParseSig(a), s);
  }

  lemma EstablishedBeside(cfg: Config, a: Agent, b: Agent) returns (s: State)
    requires a in cfg.agents && b in cfg.agents && cfg.maxNonce >= 1 && cfg.maxTime >= 1
    ensures Reachable(cfg, s) && s.messages == TwoSenders(cfg, a, b).messages
    ensures At(s, a, Established) && Highest(s, a) == 1
    ensures forall x | x != a :: !At(s, x, Established)
  {
    hide Reachable;
    var s2 := AcceptedBeside(cfg, a, b);
    var m, sat := s2.messages[0], s2.sats[0];
    var s3 := Verified(s2, a, sat);
    assert m in s2.messages && sat in s2.sats;
    StepReaches(cfg, s2, GatewayVerifySAT(a), s3);
    assert SCORES[0] == 0;
    s := Evaluated(cfg, s3, a, 0);
    StepReaches(cfg, s3, GatewayEvaluateMAMA(a, 0), s);
  }

  /** The explorer's replay check ignores whose message was replayed: some reachable state meets
      `NoReplayAttack` and still counts as a violation exactly when there are two agents and one
      of them can be established. */
  lemma ChecksPartExactly(cfg: Config)
    ensures (exists s :: Reachable(cfg, s) && NoReplayAttack(cfg, s) && !ReplayClean(cfg, s)) <==>
      CanEstablish(cfg) && exists a, b :: a in cfg.agents && b in cfg.agents && a != b
  {
    hide Reachable;
    if CanEstablish(cfg) {
      if a, b :| a in cfg.agents && b in cfg.agents && a != b {
        var s := EstablishedBeside(cfg, a, b);
        assert s.messages[2] in s.messages && ReplayHit(s, a, s.messages[2]);
      }
    }
    forall s | Reachable(cfg, s) && NoReplayAttack(cfg, s) && !ReplayClean(cfg, s)
      ensures CanEstablish(cfg) && exists a, b :: a in cfg.agents && b in cfg.agents && a != b
    {
      var a, m :| a in cfg.agents && m in s.messages && ReplayHit(s, a, m);
      ReachableInvariant(cfg, s);
      assert m.agent in cfg.agents && m.agent != a;
      if !CanEstablish(cfg) {
        NobodyEvaluated(cfg, s);
      }
    }
  }

  /** While the clock can still tick a state has a successor, so the explorer's deadlock
      counter never moves, for any agents and bounds. */
  lemma TickStep(cfg: Config, s: State)
    requires s.clock < cfg.maxTime
    ensures Step(cfg, s, TickClock, s.(clock := s.clock + 1))
  {
  }
}
