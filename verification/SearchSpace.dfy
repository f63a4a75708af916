/** Two instances of the explorer: with the file's own hash, where lists only grow, and with
    lists hashed as sets, which is the TLA+ state space. */
module SearchSpace {
  import opened Handshake
  import opened HandshakeRuns
  import opened HandshakeChecks
  import opened AdversarialSpec
  import opened Explorer

  lemma HashableIsFaithful(cfg: Config)
    ensures Faithful(cfg, Hashable)
  {
  }

  lemma AbsIsFaithful(cfg: Config)
    ensures Faithful(cfg, Abs)
  {
    hide Step, Invariant;
    forall s1, s2, act, t1 |
      Reachable(cfg, s1) && Reachable(cfg, s2) && Abs(s1) == Abs(s2) && Step(cfg, s1, act, t1)
      ensures CanReachKey(cfg, Abs, s2, Abs(t1))
    {
      ReachableInvariant(cfg, s1);
      ReachableInvariant(cfg, s2);
      SameSetsSameFutures(cfg, s1, s2, act, t1);
      assert Matched(cfg, s2, Abs(t1));
    }
  }

  lemma EmptyQueueIsClosed<K(!new)>(cfg: Config, hash: State -> K, v: Search<K>)
    requires Faithful(cfg, hash) && SearchInvariant(cfg, hash, v) && v.queue == []
    ensures ClosedKeys(cfg, hash, v.visited)
  {
    hide Step, LeadsTo;
    forall s, act, t | Reachable(cfg, s) && hash(s) in v.visited && Step(cfg, s, act, t)
      ensures hash(t) in v.visited
    {
      StepReaches(cfg, s, act, t);
      VisitedAreReachable(cfg, hash, v, hash(t));
    }
  }

  // ----- the file's own hash

  function Length(s: State): nat {
    |s.messages| + |s.sats|
  }

  // No message can be sent and no SAT requested, so nothing is ever appended.
  predicate NothingToAppend(cfg: Config) {
    cfg.agents == [] || (cfg.maxNonce < 1 && cfg.maxTime < 1)
  }

  lemma {:induction false} ListsGrow(cfg: Config, n: nat) returns (s: State)
    requires !NothingToAppend(cfg)
    ensures Reachable(cfg, s) && Length(s) == n && s.clock == 0
  {
    if n == 0 {
      s := Init(cfg);
      InitLeads(cfg);
    } else {
      var r := ListsGrow(cfg, n - 1);
      var a := cfg.agents[0];
      if cfg.maxNonce >= 1 {
        s := r.(messages := r.messages + [Msg(KNK, a, 1, INTENT, false)]);
        StepReaches(cfg, r, AgentSendHandshake(a, 1), s);
      } else {
        s := r.(sats := r.sats + [Sat(a, 1, INTENT, true)]);
        StepReaches(cfg, r, AgentRequestIntent(a, 1, INTENT), s);
      }
    }
  }

  lemma LongerThanAll(keys: set<State>) returns (n: nat)
    ensures forall s | s in keys :: Length(s) < n
  {
    n := 0;
    var rest := keys;
    while rest != {}
      invariant rest <= keys && forall s | s in keys - rest :: Length(s) < n
      decreases rest
    {
      var s :| s in rest;
      n := if Length(s) < n then n else Length(s) + 1;
      rest := rest - {s};
    }
  }

  lemma HasElement<T>(xs: seq<T>)
    ensures xs != [] ==> exists x :: x in xs
  {
    assert xs != [] ==> xs[0] in xs;
  }

  lemma NothingAppendedInvariant(cfg: Config, s: State)
    requires Invariant(cfg, s) && NothingToAppend(cfg)
    ensures s == Init(cfg).(clock := s.clock, byzantine := s.byzantine)
  {
    HasElement(s.messages);
    HasElement(s.sats);
    forall a | a in cfg.agents ensures At(s, a, Listen) && s.highest[a] == 0 {
      assert GatewayOk(cfg, s, a);
    }
    assert s.gateway == Init(cfg).gateway && s.highest == Init(cfg).highest;
  }

  /** A finite set of hashes closed under steps, which is what makes the exploration end,
      exists exactly when nothing can ever be appended: otherwise the lists grow for ever. */
  lemma ListSearchEndsExactly(cfg: Config)
    ensures NothingToAppend(cfg) <==> exists keys :: ClosedKeys(cfg, Hashable, keys)
  {
    hide Step, LeadsTo, Invariant;
    if NothingToAppend(cfg) {
      var keys := set c: int, b: bool | 0 <= c <= (if cfg.maxTime < 0 then 0 else cfg.maxTime) && b in {false, true}
        :: Init(cfg).(clock := c, byzantine := b);
      forall s | Reachable(cfg, s) ensures Hashable(s) in keys {
        ReachableInvariant(cfg, s);
        NothingAppendedInvariant(cfg, s);
        ClockBounds(cfg, s);
        assert s.byzantine in {false, true};
      }
      ReachableKeysClosed(cfg, Hashable, keys);
    } else if keys :| ClosedKeys(cfg, Hashable, keys) {
      var n := LongerThanAll(keys);
      var s := ListsGrow(cfg, n);
      var acts :| LeadsTo(cfg, acts, s);
      ReachableInClosed(cfg, Hashable, keys, acts, s);
      assert false;
    }
  }

  lemma ClockBounds(cfg: Config, s: State)
    requires Invariant(cfg, s)
    ensures 0 <= s.clock <= if cfg.maxTime < 0 then 0 else cfg.maxTime
  {
  }

  lemma ReachableKeysClosed<K(!new)>(cfg: Config, hash: State -> K, keys: set<K>)
    requires forall s :: Reachable(cfg, s) ==> hash(s) in keys
    ensures ClosedKeys(cfg, hash, keys)
  {
    hide Step, LeadsTo;
    InitLeads(cfg);
    forall s, act, t | Reachable(cfg, s) && Step(cfg, s, act, t) ensures Reachable(cfg, t) {
      StepReaches(cfg, s, act, t);
    }
  }

  /** With the file's own hash the queue never empties once anything can be appended, however
      many iterations are made: the claim that the bounded search must terminate is false. */
  lemma ListQueueNeverEmpties(cfg: Config, v: Search<State>)
    requires SearchInvariant(cfg, Hashable, v) && !NothingToAppend(cfg)
    ensures v.queue != []
  {
    hide Step, LeadsTo, SearchInvariant, Faithful, ClosedKeys;
    if v.queue == [] {
      HashableIsFaithful(cfg);
      EmptyQueueIsClosed(cfg, Hashable, v);
      ListSearchEndsExactly(cfg);
      assert false;
    }
  }

  // ----- lists hashed as sets

  ghost function AllMaps<V(!new)>(keys: seq<Agent>, vals: set<V>): set<map<Agent, V>> {
    if keys == [] then {map[]}
    else set m, v | m in AllMaps(keys[1..], vals) && v in vals :: m[keys[0] := v]
  }

  lemma {:induction false} InAllMaps<V(!new)>(keys: seq<Agent>, vals: set<V>, m: map<Agent, V>)
    requires m.Keys == (set a | a in keys) && forall a | a in m :: m[a] in vals
    ensures m in AllMaps(keys, vals)
  {
    if keys != [] {
      var rest := map a | a in keys[1..] && a in m :: m[a];
      assert keys == [keys[0]] + keys[1..];
      assert rest.Keys == (set a | a in keys[1..]);
      InAllMaps(keys[1..], vals, rest);
      assert m == rest[keys[0] := m[keys[0]]];
    } else {
      assert m == map[];
    }
  }

  ghost function Gateways(): set<Gateway> {
    {Listen, ParseSig, VerifySat, EvaluateMama, Established, Corrupted}
  }

  ghost function UpTo(n: int): (r: set<int>)
    ensures forall k :: k in r <==> 0 <= k <= n
    decreases n + 1
  {
    if n < 0 then {} else UpTo(n - 1) + {n}
  }

  ghost function Nonces(cfg: Config): set<int> {
    {0} + UpTo(cfg.maxNonce)
  }

  ghost function AllSats(cfg: Config): set<Sat> {
    set a, e: int | a in cfg.agents && 1 <= e <= cfg.maxTime :: Sat(a, e, INTENT, true)
  }

  ghost function AllMessages(cfg: Config): set<Msg> {
    set a, k: int, r: bool | a in cfg.agents && 1 <= k <= cfg.maxNonce && r in {false, true} :: Msg(KNK, a, k, INTENT, r)
  }

  ghost function Clocks(cfg: Config): set<int> {
    {0} + UpTo(cfg.maxTime)
  }

  ghost function Universe(cfg: Config): set<Spec> {
    set g, h, ss, ms, c, b: bool |
      && g in AllMaps(cfg.agents, Gateways()) && h in AllMaps(cfg.agents, Nonces(cfg))
      && ss <= AllSats(cfg) && ms <= AllMessages(cfg) && c in Clocks(cfg) && b in {false, true}
      :: Spec(g, h, ss, ms, c, b)
  }

  lemma NetworkInBounds(cfg: Config, s: State)
    requires Invariant(cfg, s)
    ensures Abs(s).sats <= AllSats(cfg) && Abs(s).messages <= AllMessages(cfg)
  {
  }

  lemma GatewaysInBounds(cfg: Config, s: State)
    requires Invariant(cfg, s)
    ensures s.gateway in AllMaps(cfg.agents, Gateways()) && s.highest in AllMaps(cfg.agents, Nonces(cfg))
  {
    forall a | a in s.highest ensures s.highest[a] in Nonces(cfg) {
      assert GatewayOk(cfg, s, a);
    }
    InAllMaps(cfg.agents, Gateways(), s.gateway);
    InAllMaps(cfg.agents, Nonces(cfg), s.highest);
  }

  lemma InUniverse(cfg: Config, s: State)
    requires Reachable(cfg, s)
    ensures Abs(s) in Universe(cfg)
  {
    hide Step, LeadsTo, Invariant, AllMaps, AllSats, AllMessages;
    ReachableInvariant(cfg, s);
    NetworkInBounds(cfg, s);
    GatewaysInBounds(cfg, s);
    ClockBounds(cfg, s);
    assert s.clock in Clocks(cfg) && s.byzantine in {false, true};
  }

  /** Hashed as sets, the search ends for every agents and bounds, within as many iterations
      as the finite universe has elements. */
  lemma SetSearchEnds(cfg: Config)
    ensures ClosedKeys(cfg, Abs, Universe(cfg))
  {
    hide Step, LeadsTo, Universe;
    forall s | Reachable(cfg, s) ensures Abs(s) in Universe(cfg) {
      InUniverse(cfg, s);
    }
    ReachableKeysClosed(cfg, Abs, Universe(cfg));
  }

  lemma CleanBySets(cfg: Config, s: State, t: State)
    requires Abs(s) == Abs(t)
    ensures ReplayClean(cfg, s) <==> ReplayClean(cfg, t)
    ensures SatClean(cfg, s) <==> SatClean(cfg, t)
  {
    assert forall m :: m in s.messages <==> m in Abs(s).messages;
    assert forall m :: m in t.messages <==> m in Abs(t).messages;
    assert forall x :: x in s.sats <==> x in Abs(s).sats;
    assert forall x :: x in t.sats <==> x in Abs(t).sats;
  }

  // `q` is a state of the TLA+ model, restricted to the one intent and the two scores.
  ghost predicate InSpec(cfg: Config, q: Spec) {
    exists n :: SpecReachable(cfg, q, n)
  }

  /** A finished set-hashed search has visited exactly the states of the TLA+ model. */
  lemma FinishedSearchVisitsSpec(cfg: Config, v: Search<Spec>, q: Spec)
    requires SearchInvariant(cfg, Abs, v) && v.queue == []
    ensures q in v.visited <==> InSpec(cfg, q)
  {
    hide Step, LeadsTo, Invariant, SpecReachable, SearchInvariant, Faithful;
    AbsIsFaithful(cfg);
    VisitedAreReachable(cfg, Abs, v, q);
    if n :| SpecReachable(cfg, q, n) {
      SameReachableStates(cfg, q, n);
      var acts, s :| LeadsTo(cfg, acts, s) && |acts| == n && Abs(s) == q;
      assert Reachable(cfg, s);
    }
    if s :| Reachable(cfg, s) && Abs(s) == q {
      var acts :| LeadsTo(cfg, acts, s);
      SameReachableStates(cfg, q, |acts|);
    }
  }

  /** A finished set-hashed search reports no violation exactly when the bounds let no agent
      be established. */
  lemma FinishedReportIsExact(cfg: Config, v: Search<Spec>)
    requires SearchInvariant(cfg, Abs, v) && v.queue == []
    ensures Tally(cfg, v.order).replays == 0 <==> !CanEstablish(cfg)
    ensures Tally(cfg, v.order).satMisses == 0 <==> !CanEstablish(cfg)
  {
    hide Step, Reachable, Invariant, ReplayClean, SatClean, SearchInvariant, Faithful, Abs;
    TallyZero(cfg, v.order);
    ChecksHoldExactly(cfg);
    OrderReachable(cfg, v);
    forall s | Reachable(cfg, s) ensures exists r :: r in v.order && (ReplayClean(cfg, s) <==> ReplayClean(cfg, r)) && (SatClean(cfg, s) <==> SatClean(cfg, r)) {
      TakenForEvery(cfg, v, s);
      var r :| r in v.order && Abs(r) == Abs(s);
      CleanBySets(cfg, r, s);
    }
  }

  lemma OrderReachable(cfg: Config, v: Search<Spec>)
    requires SearchInvariant(cfg, Abs, v)
    ensures forall r | r in v.order :: Reachable(cfg, r)
  {
  }

  lemma TakenForEvery(cfg: Config, v: Search<Spec>, s: State)
    requires SearchInvariant(cfg, Abs, v) && v.queue == [] && Reachable(cfg, s)
    ensures exists r :: r in v.order && Abs(r) == Abs(s)
  {
    hide Step, LeadsTo;
    AbsIsFaithful(cfg);
    VisitedAreReachable(cfg, Abs, v, Abs(s));
    assert Abs(s) in Keys(Abs, v);
  }

  // ----- the two explorations

  /** `run_model_checker` as the file has it: once anything can be appended it uses up whatever
      number of iterations it is given, and it never counts a deadlock. */
  method RunAsWritten(cfg: Config, budget: nat) returns (report: Report, finished: bool)
    ensures finished ==> NothingToAppend(cfg)
    ensures !finished ==> report.totalStates == budget
    ensures report.deadlocks == 0
  {
    hide Step, LeadsTo, SearchInvariant, Faithful;
    HashableIsFaithful(cfg);
    ghost var order: seq<State>;
    var visited: set<State>, queue;
    report, visited, queue, order := RunModelChecker(cfg, Hashable, budget);
    finished := queue == [];
    TallyZero(cfg, order);
    if finished && !NothingToAppend(cfg) {
      ListQueueNeverEmpties(cfg, Search(visited, queue, order));
    }
  }

  /** The same exploration with states hashed as sets: given enough iterations it ends, having
      visited exactly the TLA+ states and found violations exactly when an agent can be
      established. */
  method RunOnSets(cfg: Config, budget: nat) returns (report: Report, visited: set<Spec>, finished: bool)
    ensures |Universe(cfg)| <= budget ==> finished
    ensures finished ==> forall q :: q in visited <==> InSpec(cfg, q)
    ensures finished ==> (report.replays == 0 <==> !CanEstablish(cfg)) && (report.satMisses == 0 <==> !CanEstablish(cfg))
  {
    hide Step, LeadsTo, SearchInvariant, Faithful, Universe, InSpec;
    AbsIsFaithful(cfg);
    SetSearchEnds(cfg);
    ghost var order: seq<State>;
    var queue;
    report, visited, queue, order := RunModelChecker(cfg, Abs, budget);
    finished := queue == [];
    if finished {
      FinishedReportIsExact(cfg, Search(visited, queue, order));
      forall q ensures q in visited <==> InSpec(cfg, q) {
        FinishedSearchVisitsSpec(cfg, Search(visited, queue, order), q);
      }
    }
  }
}
