/** The liveness the adversarial TLA+ text claims, over its infinite fair behaviours: exactly when
    it holds, and what stands in its way. */
module Liveness {
  import opened Handshake
  import HandshakeRuns
  import opened AdversarialSpec
  import opened SpecRuns

  // ----- the cycle behind it, as the simulator steps through it

  ghost predicate OnCycle(cfg: Config, s: State, t: State, a: Agent) {
    && HandshakeRuns.Reachable(cfg, s) && At(s, a, ParseSig) && At(t, a, Corrupted)
    && Step(cfg, s, StateCorruption(a), t) && Step(cfg, t, GatewayReceiveKNK(a), s)
  }

  lemma CycleReached(cfg: Config, a: Agent)
    requires a in cfg.agents && cfg.maxNonce >= 1
    ensures exists s, t :: OnCycle(cfg, s, t, a)
  {
    var m := Msg(KNK, a, 1, INTENT, false);
    var s0 := Init(cfg);
    HandshakeRuns.InitLeads(cfg);
    var s1 := s0.(messages := s0.messages + [m]);
    HandshakeRuns.StepReaches(cfg, s0, AgentSendHandshake(a, 1), s1);
    assert m in s1.messages;
    var s := Move(s1, a, ParseSig);
    HandshakeRuns.StepReaches(cfg, s1, GatewayReceiveKNK(a), s);
    var t := Move(s, a, Corrupted);
    assert m in t.messages && Move(t, a, ParseSig) == s;
    assert OnCycle(cfg, s, t, a);
  }

  /** Corruption of a gateway in PARSE_SIG and reception of the message that is still on the
      network lead back to the very state they started from. Such a cycle, on which the gateway is
      never in LISTEN nor ESTABLISHED, is reachable for every agent exactly when messages can be
      sent at all; otherwise no gateway ever leaves LISTEN. */
  lemma CycleExactly(cfg: Config, a: Agent)
    requires a in cfg.agents
    ensures cfg.maxNonce >= 1 <==> exists s, t :: OnCycle(cfg, s, t, a)
    ensures cfg.maxNonce < 1 <==> forall s :: HandshakeRuns.Reachable(cfg, s) ==> At(s, a, Listen)
  {
    hide HandshakeRuns.Reachable, Step;
    if cfg.maxNonce >= 1 {
      CycleReached(cfg, a);
    } else {
      forall s | HandshakeRuns.Reachable(cfg, s) ensures At(s, a, Listen) {
        HandshakeRuns.QuietWithoutNonces(cfg, s, a);
      }
    }
  }

  // ----- fair behaviours of the full model

  ghost predicate Moves(cfg: Config, b: nat -> Spec, n: nat) {
    b(n + 1) == b(n) || FullNext(cfg, b(n), b(n + 1))
  }

  /** `Init /\ [][Next]_vars`: stuttering is allowed. */
  ghost predicate Behaves(cfg: Config, b: nat -> Spec) {
    b(0) == SpecInit(cfg) && forall n: nat :: Moves(cfg, b, n)
  }

  ghost predicate CanChange(cfg: Config, p: Spec) {
    exists q :: q != p && FullNext(cfg, p, q)
  }

  // A step that changes something is taken at `k`, or none is possible there.
  ghost predicate Served(cfg: Config, b: nat -> Spec, k: nat) {
    b(k + 1) != b(k) || !CanChange(cfg, b(k))
  }

  ghost predicate ServedAfter(cfg: Config, b: nat -> Spec, n: nat) {
    exists k: nat :: n <= k && Served(cfg, b, k)
  }

  /** `WF_vars(Next)`: infinitely often a changing step is taken or none is enabled. */
  ghost predicate Fair(cfg: Config, b: nat -> Spec) {
    forall n: nat :: ServedAfter(cfg, b, n)
  }

  predicate InProgress(p: Spec, a: Agent) {
    SpecAt(p, a, ParseSig) || SpecAt(p, a, VerifySat) || SpecAt(p, a, EvaluateMama) || SpecAt(p, a, Corrupted)
  }

  predicate AtRest(p: Spec, a: Agent) {
    SpecAt(p, a, Established) || SpecAt(p, a, Listen)
  }

  /** The claim that a gateway in progress comes to LISTEN or ESTABLISHED. */
  ghost predicate DeadlockFree(cfg: Config, b: nat -> Spec) {
    forall a, n: nat | a in cfg.agents && InProgress(b(n), a) :: exists k: nat :: n <= k && AtRest(b(k), a)
  }

  /** The claim that a corrupted gateway comes to LISTEN. */
  ghost predicate CorruptionRecovery(cfg: Config, b: nat -> Spec) {
    forall a, n: nat | a in cfg.agents && SpecAt(b(n), a, Corrupted) :: exists k: nat :: n <= k && SpecAt(b(k), a, Listen)
  }

  lemma {:induction false} BehaviourInvariant(cfg: Config, b: nat -> Spec, n: nat)
    requires Behaves(cfg, b)
    ensures SpecInvariant(cfg, b(n))
  {
    hide FullNext, SpecInvariant;
    if n == 0 {
      InitInvariant(cfg);
    } else {
      BehaviourInvariant(cfg, b, n - 1);
      assert Moves(cfg, b, n - 1);
      if b(n) != b(n - 1) {
        FullNextKeepsInvariant(cfg, b(n - 1), b(n));
      }
    }
  }

  // ----- the behaviour that never comes to rest

  function Sent(cfg: Config, a: Agent): Spec {
    SpecInit(cfg).(messages := {Msg(KNK, a, 1, INTENT, false)})
  }

  function CycleAt(cfg: Config, a: Agent, n: nat): Spec {
    if n == 0 then SpecInit(cfg)
    else if n == 1 then Sent(cfg, a)
    else if n % 2 == 0 then SpecMove(Sent(cfg, a), a, ParseSig)
    else SpecMove(Sent(cfg, a), a, Corrupted)
  }

  lemma CycleMoves(cfg: Config, a: Agent, n: nat)
    requires a in cfg.agents && cfg.maxNonce >= 1
    ensures FullNext(cfg, CycleAt(cfg, a, n), CycleAt(cfg, a, n + 1)) && CycleAt(cfg, a, n) != CycleAt(cfg, a, n + 1)
  {
    var p, q := CycleAt(cfg, a, n), CycleAt(cfg, a, n + 1);
    var m := Msg(KNK, a, 1, INTENT, false);
    if n == 0 {
      assert m in q.messages;
      assert SendHandshake(cfg, p, q, a, 1, INTENT);
    } else if n % 2 == 0 {
      assert SpecAt(q, a, Corrupted);
      assert Corruption(p, q, a);
    } else {
      assert SpecAt(q, a, ParseSig);
      assert m in p.messages && ReceiveKNK(p, q, m);
    }
  }

  lemma CycleIsFair(cfg: Config, a: Agent) returns (b: nat -> Spec)
    requires a in cfg.agents && cfg.maxNonce >= 1
    ensures Behaves(cfg, b) && Fair(cfg, b) && forall n: nat :: b(n) == CycleAt(cfg, a, n)
  {
    hide FullNext, CycleAt;
    b := (n: nat) => CycleAt(cfg, a, n);
    forall n: nat ensures Moves(cfg, b, n) && ServedAfter(cfg, b, n) {
      CycleMoves(cfg, a, n);
      assert Served(cfg, b, n);
    }
    assert CycleAt(cfg, a, 0) == SpecInit(cfg) by { CycleStarts(cfg, a); }
  }

  lemma CycleStarts(cfg: Config, a: Agent)
    ensures CycleAt(cfg, a, 0) == SpecInit(cfg)
    ensures SpecAt(CycleAt(cfg, a, 2), a, ParseSig) && SpecAt(CycleAt(cfg, a, 3), a, Corrupted)
    ensures forall k: nat :: k >= 2 ==> !AtRest(CycleAt(cfg, a, k), a)
  {
  }

  lemma ClaimsFail(cfg: Config, a: Agent)
    requires a in cfg.agents && cfg.maxNonce >= 1
    ensures exists b: nat -> Spec :: Behaves(cfg, b) && Fair(cfg, b) && !DeadlockFree(cfg, b) && !CorruptionRecovery(cfg, b)
  {
    hide Behaves, Fair, CycleAt;
    var b := CycleIsFair(cfg, a);
    CycleStarts(cfg, a);
    assert InProgress(b(2), a) && SpecAt(b(3), a, Corrupted);
    assert forall k: nat :: k >= 2 ==> !AtRest(b(k), a);
  }

  lemma ClaimsHoldIdly(cfg: Config, b: nat -> Spec)
    requires Behaves(cfg, b) && (cfg.agents == [] || cfg.maxNonce < 1)
    ensures DeadlockFree(cfg, b) && CorruptionRecovery(cfg, b)
  {
    hide Behaves;
    forall a, n: nat | a in cfg.agents ensures SpecAt(b(n), a, Listen) {
      BehaviourInvariant(cfg, b, n);
      assert SpecGateway(b(n), a);
    }
  }

  /** Over the fair behaviours of the full model, `DeadlockFree` and `CorruptionRecovery` hold
      exactly when nothing can be sent: with one message on the network corruption and reception
      can alternate for ever, and every such step counts as progress to `WF_vars(Next)`. */
  lemma LivenessHoldsExactly(cfg: Config)
    ensures cfg.agents == [] || cfg.maxNonce < 1 <==>
      forall b: nat -> Spec :: Behaves(cfg, b) && Fair(cfg, b) ==> DeadlockFree(cfg, b)
    ensures cfg.agents == [] || cfg.maxNonce < 1 <==>
      forall b: nat -> Spec :: Behaves(cfg, b) && Fair(cfg, b) ==> CorruptionRecovery(cfg, b)
  {
    hide Behaves, Fair, DeadlockFree, CorruptionRecovery;
    if cfg.agents == [] || cfg.maxNonce < 1 {
      forall b: nat -> Spec | Behaves(cfg, b) ensures DeadlockFree(cfg, b) && CorruptionRecovery(cfg, b) {
        ClaimsHoldIdly(cfg, b);
      }
    } else {
      ClaimsFail(cfg, cfg.agents[0]);
    }
  }

  // ----- what does hold: without receptions a measure falls

  ghost function FullSats(cfg: Config): set<Sat> {
    set a, e: int, i | a in cfg.agents && 1 <= e <= cfg.maxTime && i in INTENTS :: Sat(a, e, i, true)
  }

  ghost function FullMessages(cfg: Config): set<Msg> {
    set a, k: int, i, r: bool | a in cfg.agents && 1 <= k <= cfg.maxNonce && i in INTENTS && r in {false, true} ::
      Msg(KNK, a, k, i, r)
  }

  function Rank(g: Gateway): nat {
    match g
    case ParseSig => 3
    case VerifySat => 2
    case EvaluateMama => 1
    case Corrupted => 1
    case _ => 0
  }

  function Ranks(agents: seq<Agent>, p: Spec): nat {
    if agents == [] then 0 else Rank(GatewayOf(p, agents[0])) + Ranks(agents[1..], p)
  }

  // What is left to append, tick, turn byzantine and step through.
  ghost function Remaining(cfg: Config, p: Spec): nat {
    |FullSats(cfg) - p.sats| + |FullMessages(cfg) - p.messages| + (if p.clock < cfg.maxTime then cfg.maxTime - p.clock else 0)
    + (if p.byzantine then 0 else 1) + Ranks(cfg.agents, p)
  }

  ghost predicate Reception(p: Spec, q: Spec) {
    exists m :: ReceiveKNK(p, q, m)
  }

  lemma {:induction false} RanksFall(agents: seq<Agent>, p: Spec, q: Spec, a: Agent)
    requires forall x | x != a :: GatewayOf(q, x) == GatewayOf(p, x)
    requires Rank(GatewayOf(q, a)) < Rank(GatewayOf(p, a))
    ensures Ranks(agents, q) <= Ranks(agents, p) && (a in agents ==> Ranks(agents, q) < Ranks(agents, p))
  {
    if agents != [] {
      RanksFall(agents[1..], p, q, a);
    }
  }

  lemma {:induction false} RanksStay(agents: seq<Agent>, p: Spec, q: Spec)
    requires q.gateway == p.gateway
    ensures Ranks(agents, q) == Ranks(agents, p)
  {
    if agents != [] {
      RanksStay(agents[1..], p, q);
    }
  }

  lemma LeftToAdd<T>(all: set<T>, have: set<T>, x: T)
    requires x in all && x !in have
    ensures |all - (have + {x})| < |all - have|
  {
    assert all - have == (all - (have + {x})) + {x};
  }

  lemma RequestFalls(cfg: Config, p: Spec, q: Spec, a: Agent, exp: int, intent: string)
    requires RequestIntent(p, q, a, exp, intent) && q != p
    requires a in cfg.agents && 1 <= exp <= cfg.maxTime && intent in INTENTS
    ensures Remaining(cfg, q) < Remaining(cfg, p)
  {
    hide Ranks;
    RanksStay(cfg.agents, p, q);
    LeftToAdd(FullSats(cfg), p.sats, Sat(a, exp, intent, true));
  }

  lemma MessageFalls(cfg: Config, p: Spec, q: Spec, m: Msg)
    requires q == p.(messages := p.messages + {m}) && q != p
    requires m.kind == KNK && m.agent in cfg.agents && 1 <= m.nonce <= cfg.maxNonce && m.intent in INTENTS
    ensures Remaining(cfg, q) < Remaining(cfg, p)
  {
    hide Ranks;
    RanksStay(cfg.agents, p, q);
    assert m == Msg(KNK, m.agent, m.nonce, m.intent, m.isReplay) && m.isReplay in {false, true};
    LeftToAdd(FullMessages(cfg), p.messages, m);
  }

  lemma NetworkMoveFalls(cfg: Config, p: Spec, q: Spec)
    requires SpecFrame(cfg, p) && SpecMessages(cfg, p) && NetworkMove(cfg, p, q) && q != p
    ensures Remaining(cfg, q) < Remaining(cfg, p)
  {
    hide RequestIntent, Ranks, FullSats, FullMessages;
    if a, exp, intent :|
      a in cfg.agents && p.clock + 1 <= exp <= cfg.maxTime && intent in INTENTS && RequestIntent(p, q, a, exp, intent)
    {
      RequestFalls(cfg, p, q, a, exp, intent);
    } else if a, nonce, intent :| a in cfg.agents && intent in INTENTS && SendHandshake(cfg, p, q, a, nonce, intent) {
      MessageFalls(cfg, p, q, Msg(KNK, a, nonce, intent, false));
    } else if Replay(p, q) {
      var m :| m in p.messages && q == p.(messages := p.messages + {m.(isReplay := true)});
      MessageFalls(cfg, p, q, m.(isReplay := true));
    } else {
      RanksStay(cfg.agents, p, q);
    }
  }

  lemma GatewayMoveFalls(cfg: Config, p: Spec, q: Spec, a: Agent)
    requires SpecFrame(cfg, p) && GatewayMove(cfg, p, q, a) && !Reception(p, q)
    ensures Remaining(cfg, q) < Remaining(cfg, p)
  {
    hide Ranks, FullSats, FullMessages;
    GatewayMoveKeeps(cfg, p, q, a);
    OwnRankFalls(cfg, p, q, a);
    RanksFall(cfg.agents, p, q, a);
  }

  lemma OwnRankFalls(cfg: Config, p: Spec, q: Spec, a: Agent)
    requires GatewayMove(cfg, p, q, a) && !Reception(p, q)
    ensures Rank(GatewayOf(q, a)) < Rank(GatewayOf(p, a))
  {
  }

  /** Every step that changes something, other than the reception of a message, brings the model
      nearer to a standstill. */
  lemma OnlyReceptionsRise(cfg: Config, p: Spec, q: Spec)
    requires SpecInvariant(cfg, p) && FullNext(cfg, p, q) && q != p && !Reception(p, q)
    ensures Remaining(cfg, q) < Remaining(cfg, p)
  {
    hide FullNext, NetworkMove, GatewayMove, Remaining, Reception, SpecFrame;
    FullNextSplits(cfg, p, q);
    if NetworkMove(cfg, p, q) {
      NetworkMoveFalls(cfg, p, q);
    } else {
      var a :| GatewayMove(cfg, p, q, a);
      GatewayMoveFalls(cfg, p, q, a);
    }
  }

  /** While a gateway is in progress something can change, so at a standstill all are at rest. */
  lemma ProgressCanChange(cfg: Config, p: Spec, a: Agent)
    requires a in cfg.agents && InProgress(p, a)
    ensures CanChange(cfg, p)
  {
    if SpecAt(p, a, ParseSig) || SpecAt(p, a, VerifySat) {
      var q := SpecMove(p, a, Corrupted);
      assert Corruption(p, q, a) && SpecAt(q, a, Corrupted) && FullNext(cfg, p, q);
    } else if SpecAt(p, a, EvaluateMama) {
      var g := if p.byzantine || 0 >= cfg.minSafetyScore then Established else Listen;
      var q := SpecMove(p, a, g);
      assert 0 in ALL_SCORES && EvaluateMAMA(cfg, ALL_SCORES, p, q, a) && SpecAt(q, a, g) && FullNext(cfg, p, q);
    } else {
      var q := SpecMove(p, a, Listen);
      assert RecoverCorruption(p, q, a) && SpecAt(q, a, Listen) && FullNext(cfg, p, q);
    }
  }

  ghost predicate ReceptionAt(b: nat -> Spec, k: nat) {
    Reception(b(k), b(k + 1))
  }

  ghost predicate ReceptionAfter(b: nat -> Spec, n: nat) {
    exists k: nat :: n <= k && ReceptionAt(b, k)
  }

  lemma RemainingFalls(cfg: Config, b: nat -> Spec, n: nat)
    requires Behaves(cfg, b) && !ReceptionAt(b, n) && b(n + 1) != b(n)
    ensures Remaining(cfg, b(n + 1)) < Remaining(cfg, b(n))
  {
    hide FullNext, SpecInvariant, Remaining, Reception;
    BehaviourInvariant(cfg, b, n);
    assert Moves(cfg, b, n);
    OnlyReceptionsRise(cfg, b(n), b(n + 1));
  }

  /** Once receptions have stopped, a fair behaviour comes to a standstill. */
  lemma {:induction false} ComesToStandstill(cfg: Config, b: nat -> Spec, n: nat, k: nat) returns (j: nat)
    requires Behaves(cfg, b) && Fair(cfg, b) && !ReceptionAfter(b, n)
    requires n <= k && Served(cfg, b, k)
    ensures n <= j && !CanChange(cfg, b(j))
    decreases Remaining(cfg, b(n)), k - n
  {
    hide Behaves, CanChange, ReceptionAt, Remaining;
    assert !ReceptionAt(b, n) && !ReceptionAfter(b, n + 1);
    if b(n + 1) != b(n) {
      RemainingFalls(cfg, b, n);
      assert ServedAfter(cfg, b, n + 1);
      var next: nat :| n + 1 <= next && Served(cfg, b, next);
      j := ComesToStandstill(cfg, b, n + 1, next);
    } else if k == n {
      j := n;
    } else {
      j := ComesToStandstill(cfg, b, n + 1, k);
    }
  }

  lemma ComesToRest(cfg: Config, b: nat -> Spec, n: nat) returns (j: nat)
    requires Behaves(cfg, b) && Fair(cfg, b) && !ReceptionAfter(b, n)
    ensures n <= j && forall a | a in cfg.agents :: AtRest(b(j), a)
  {
    hide Behaves, Served, ReceptionAfter, CanChange;
    assert ServedAfter(cfg, b, n);
    var k: nat :| n <= k && Served(cfg, b, k);
    j := ComesToStandstill(cfg, b, n, k);
    BehaviourInvariant(cfg, b, j);
    forall a | a in cfg.agents ensures AtRest(b(j), a) {
      if InProgress(b(j), a) {
        ProgressCanChange(cfg, b(j), a);
      }
    }
  }

  /** So `DeadlockFree` fails only of fair behaviours with infinitely many receptions: if they
      stop, every gateway comes to rest. */
  lemma DeadlockNeedsReceptions(cfg: Config, b: nat -> Spec)
    requires Behaves(cfg, b) && Fair(cfg, b) && !DeadlockFree(cfg, b)
    ensures forall n: nat :: ReceptionAfter(b, n)
  {
    hide Behaves, Fair, ReceptionAt, InProgress, AtRest;
    var a, from: nat :| a in cfg.agents && InProgress(b(from), a) && forall k: nat | from <= k :: !AtRest(b(k), a);
    forall n: nat ensures ReceptionAfter(b, n) {
      if !ReceptionAfter(b, n) {
        var j := ComesToRest(cfg, b, if n < from then from else n);
      }
    }
  }
}
