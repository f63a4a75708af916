/** The breadth-first explorer `run_model_checker`. The visited set holds hashes of states;
    everything is proved for any hash whose equal states have equal futures up to the hash,
    so that the file's own list-shaped hash and a set-shaped one are both instances. */
module Explorer {
  import opened Handshake
  import opened HandshakeRuns
  import opened HandshakeChecks

  datatype Search<K> = Search(visited: set<K>, queue: seq<(State, seq<Action>)>, order: seq<State>)

  datatype Report = Report(totalStates: nat, deadlocks: int, replays: nat, satMisses: nat)

  /** `hashable`: the tuples of two states are equal exactly when the states are. */
  function Hashable(s: State): State {
    s
  }

  /** States with equal hash have the same successors, up to the hash. */
  ghost predicate Faithful<K(!new)>(cfg: Config, hash: State -> K) {
    forall s1, s2, act, t1 ::
      Reachable(cfg, s1) && Reachable(cfg, s2) && hash(s1) == hash(s2) && Step(cfg, s1, act, t1)
      ==> CanReachKey(cfg, hash, s2, hash(t1))
  }

  ghost predicate CanReachKey<K(!new)>(cfg: Config, hash: State -> K, s: State, k: K) {
    exists act, t :: Step(cfg, s, act, t) && hash(t) == k
  }

  function Keys<K>(hash: State -> K, v: Search<K>): set<K> {
    (set s | s in v.order :: hash(s)) + (set q | q in v.queue :: hash(q.0))
  }

  /** Queued traces are real runs, taken states are reachable, and each visited hash belongs to
      exactly one taken or queued state. */
  ghost predicate Sound<K(!new)>(cfg: Config, hash: State -> K, v: Search<K>) {
    && (forall q | q in v.queue :: LeadsTo(cfg, q.1, q.0))
    && (forall s | s in v.order :: Reachable(cfg, s))
    && v.visited == Keys(hash, v)
    && |v.visited| == |v.order| + |v.queue|
    && hash(Init(cfg)) in v.visited
  }

  /** Every successor of the first `n` states taken is visited. */
  ghost predicate Closed<K(!new)>(cfg: Config, hash: State -> K, v: Search<K>, n: nat)
    requires n <= |v.order|
  {
    forall s, act, t :: s in v.order[..n] && Step(cfg, s, act, t) ==> hash(t) in v.visited
  }

  /** Queued traces have `d` or `d + 1` labels and never get shorter along the queue. */
  ghost predicate Layered<K(!new)>(v: Search<K>, d: nat) {
    && (forall q | q in v.queue :: d <= |q.1| <= d + 1)
    && (forall i, j | 0 <= i < j < |v.queue| :: |v.queue[i].1| <= |v.queue[j].1|)
  }

  /** No shorter trace leads to a state with the hash of a queued one. */
  ghost predicate Shortest<K(!new)>(cfg: Config, hash: State -> K, v: Search<K>) {
    forall q, acts, s :: q in v.queue && LeadsTo(cfg, acts, s) && hash(s) == hash(q.0) ==> |q.1| <= |acts|
  }

  /** Everything within `d` steps of the initial state is visited. */
  ghost predicate Complete<K(!new)>(cfg: Config, hash: State -> K, v: Search<K>, d: nat) {
    forall acts, s :: LeadsTo(cfg, acts, s) && |acts| <= d ==> hash(s) in v.visited
  }

  ghost predicate Good<K(!new)>(cfg: Config, hash: State -> K, v: Search<K>, d: nat) {
    Sound(cfg, hash, v) && Layered(v, d) && Shortest(cfg, hash, v) && Complete(cfg, hash, v, d)
  }

  /** What holds at every iteration. */
  ghost predicate SearchInvariant<K(!new)>(cfg: Config, hash: State -> K, v: Search<K>) {
    && Sound(cfg, hash, v) && Closed(cfg, hash, v, |v.order|)
    && (v.queue != [] ==> Good(cfg, hash, v, |v.queue[0].1|))
  }

  function Dequeue<K>(v: Search<K>): Search<K>
    requires v.queue != []
  {
    v.(queue := v.queue[1..], order := v.order + [v.queue[0].0])
  }

  function Enqueue<K>(hash: State -> K, v: Search<K>, trace: seq<Action>, act: Action, t: State): Search<K> {
    v.(visited := v.visited + {hash(t)}, queue := v.queue + [(t, trace + [act])])
  }

  lemma InitSearch<K(!new)>(cfg: Config, hash: State -> K, v: Search<K>)
    requires v == Search({hash(Init(cfg))}, [(Init(cfg), [])], [])
    ensures SearchInvariant(cfg, hash, v)
  {
    hide Step;
    InitLeads(cfg);
    assert Keys(hash, v) == v.visited by {
      assert (Init(cfg), []) in v.queue;
    }
    assert Complete(cfg, hash, v, 0);
  }

  lemma DequeueSound<K(!new)>(cfg: Config, hash: State -> K, v: Search<K>)
    requires v.queue != [] && Sound(cfg, hash, v)
    ensures Sound(cfg, hash, Dequeue(v))
  {
  }

  lemma DequeueKeeps<K(!new)>(cfg: Config, hash: State -> K, v: Search<K>, d: nat)
    requires v.queue != [] && Good(cfg, hash, v, d)
    ensures Good(cfg, hash, Dequeue(v), d)
  {
    hide Step, LeadsTo, Sound;
    DequeueSound(cfg, hash, v);
    assert forall q | q in Dequeue(v).queue :: q in v.queue;
  }

  lemma EnqueueSound<K(!new)>(
      cfg: Config, hash: State -> K, v: Search<K>, s: State, trace: seq<Action>, act: Action, t: State)
    requires Sound(cfg, hash, v) && LeadsTo(cfg, trace, s) && Step(cfg, s, act, t) && hash(t) !in v.visited
    ensures Sound(cfg, hash, Enqueue(hash, v, trace, act, t))
  {
    hide Step, LeadsTo;
    var w := Enqueue(hash, v, trace, act, t);
    var q := (t, trace + [act]);
    Extend(cfg, trace, s, act, t);
    assert (set e | e in w.queue :: hash(e.0)) == (set e | e in v.queue :: hash(e.0)) + {hash(t)} by {
      assert q in w.queue && q.0 == t;
      forall e | e in v.queue ensures e in w.queue { }
    }
  }

  lemma EnqueueShortest<K(!new)>(
      cfg: Config, hash: State -> K, v: Search<K>, d: nat, trace: seq<Action>, act: Action, t: State)
    requires Shortest(cfg, hash, v) && Complete(cfg, hash, v, d) && |trace| == d && hash(t) !in v.visited
    ensures Shortest(cfg, hash, Enqueue(hash, v, trace, act, t))
  {
  }

  lemma EnqueueKeeps<K(!new)>(
      cfg: Config, hash: State -> K, v: Search<K>, d: nat, s: State, trace: seq<Action>, act: Action, t: State)
    requires Good(cfg, hash, v, d) && LeadsTo(cfg, trace, s) && |trace| == d
    requires Step(cfg, s, act, t) && hash(t) !in v.visited
    ensures Good(cfg, hash, Enqueue(hash, v, trace, act, t), d)
  {
    hide Step, LeadsTo, Sound, Shortest;
    EnqueueSound(cfg, hash, v, s, trace, act, t);
    EnqueueShortest(cfg, hash, v, d, trace, act, t);
  }

  /** When all of level `d` has been taken, level `d + 1` is complete. */
  lemma LevelDone<K(!new)>(cfg: Config, hash: State -> K, v: Search<K>, d: nat)
    requires Faithful(cfg, hash) && Good(cfg, hash, v, d) && Closed(cfg, hash, v, |v.order|)
    requires forall q | q in v.queue :: |q.1| == d + 1
    ensures Complete(cfg, hash, v, d + 1)
  {
    hide Step, LeadsTo;
    forall acts, t | LeadsTo(cfg, acts, t) && |acts| <= d + 1 ensures hash(t) in v.visited {
      if |acts| == d + 1 {
        var p := Shorten(cfg, acts, t);
        assert hash(p) in Keys(hash, v);
        var r :| r in v.order && hash(r) == hash(p);
        StepFromTaken(cfg, hash, v, r, p, acts[d], t);
      }
    }
  }

  lemma StepFromTaken<K(!new)>(
      cfg: Config, hash: State -> K, v: Search<K>, r: State, p: State, act: Action, t: State)
    requires Faithful(cfg, hash) && Sound(cfg, hash, v) && Closed(cfg, hash, v, |v.order|)
    requires r in v.order && hash(r) == hash(p) && Reachable(cfg, p) && Step(cfg, p, act, t)
    ensures hash(t) in v.visited
  {
    hide Step, LeadsTo;
    assert CanReachKey(cfg, hash, r, hash(t));
    var act', u :| Step(cfg, r, act', u) && hash(u) == hash(t);
    assert v.order[..|v.order|] == v.order;
  }

  lemma IterationKeeps<K(!new)>(cfg: Config, hash: State -> K, v: Search<K>, d: nat)
    requires Faithful(cfg, hash) && Good(cfg, hash, v, d) && Closed(cfg, hash, v, |v.order|)
    ensures SearchInvariant(cfg, hash, v)
  {
    hide Step, LeadsTo, Faithful, Closed, Sound, Shortest;
    if v.queue != [] && |v.queue[0].1| == d + 1 {
      forall q | q in v.queue ensures |q.1| == d + 1 {
        var i :| 0 <= i < |v.queue| && v.queue[i] == q;
        assert v.queue[0] in v.queue;
      }
      LevelDone(cfg, hash, v, d);
    }
  }

  /** With nothing left to take, the visited hashes are those of the reachable states. */
  lemma {:induction false} EmptyQueueMeansAll<K(!new)>(cfg: Config, hash: State -> K, v: Search<K>, acts: seq<Action>, s: State)
    requires Faithful(cfg, hash) && SearchInvariant(cfg, hash, v) && v.queue == [] && LeadsTo(cfg, acts, s)
    ensures hash(s) in v.visited
    decreases |acts|
  {
    hide Step, LeadsTo;
    if acts == [] {
      InitOnly(cfg, s);
    } else {
      var p := Shorten(cfg, acts, s);
      EmptyQueueMeansAll(cfg, hash, v, acts[..|acts| - 1], p);
      assert hash(p) in Keys(hash, v);
      var r :| r in v.order && hash(r) == hash(p);
      StepFromTaken(cfg, hash, v, r, p, acts[|acts| - 1], s);
    }
  }

  lemma InitOnly(cfg: Config, s: State)
    requires LeadsTo(cfg, [], s)
    ensures s == Init(cfg)
  {
  }

  // ----- finite sets of hashes that no step leaves

  ghost predicate ClosedKeys<K(!new)>(cfg: Config, hash: State -> K, keys: set<K>) {
    && hash(Init(cfg)) in keys
    && forall s, act, t :: Reachable(cfg, s) && hash(s) in keys && Step(cfg, s, act, t) ==> hash(t) in keys
  }

  lemma {:induction false} ReachableInClosed<K(!new)>(cfg: Config, hash: State -> K, keys: set<K>, acts: seq<Action>, s: State)
    requires ClosedKeys(cfg, hash, keys) && LeadsTo(cfg, acts, s)
    ensures hash(s) in keys
    decreases |acts|
  {
    hide Step, LeadsTo;
    if acts == [] {
      InitOnly(cfg, s);
    } else {
      var p := Shorten(cfg, acts, s);
      ReachableInClosed(cfg, hash, keys, acts[..|acts| - 1], p);
      assert Reachable(cfg, p);
    }
  }

  lemma SubsetSize<K>(a: set<K>, b: set<K>)
    requires a <= b
    ensures |a| <= |b|
  {
    if a != {} {
      var x :| x in a;
      SubsetSize(a - {x}, b - {x});
    }
  }

  /** As many iterations as such a set has elements empty the queue. */
  lemma EnoughIterations<K(!new)>(cfg: Config, hash: State -> K, v: Search<K>, keys: set<K>)
    requires SearchInvariant(cfg, hash, v) && ClosedKeys(cfg, hash, keys)
    ensures |v.order| + |v.queue| <= |keys|
  {
    hide Step, LeadsTo;
    assert v.visited <= keys by {
      forall k | k in Keys(hash, v) ensures k in keys {
        if s :| s in v.order && hash(s) == k {
          var acts :| LeadsTo(cfg, acts, s);
          ReachableInClosed(cfg, hash, keys, acts, s);
        } else {
          var q :| q in v.queue && hash(q.0) == k;
          ReachableInClosed(cfg, hash, keys, q.1, q.0);
        }
      }
    }
    SubsetSize(v.visited, keys);
  }

  // ----- the counters

  function Tally(cfg: Config, order: seq<State>): Report {
    if order == [] then Report(0, 0, 0, 0)
    else
      var r := Tally(cfg, order[..|order| - 1]);
      var s := order[|order| - 1];
      Report(r.totalStates + 1, 0,
             r.replays + ReplayHits(cfg, s, |cfg.agents|), r.satMisses + SatMisses(cfg, s, |cfg.agents|))
  }

  /** The violations in all the states taken, each with the place of its state in `order`. */
  ghost function AllHits(cfg: Config, order: seq<State>): set<(nat, (nat, nat))> {
    set k: nat, e | k < |order| && e in HitPairs(cfg, order[k]) :: (k, e)
  }

  ghost function AllMisses(cfg: Config, order: seq<State>): set<(nat, nat)> {
    set k: nat, i | k < |order| && i in MissPlaces(cfg, order[k]) :: (k, i)
  }

  ghost function Tagged<T(!new)>(k: nat, xs: set<T>): set<(nat, T)> {
    set x | x in xs :: (k, x)
  }

  lemma {:induction false} TaggedSize<T(!new)>(k: nat, xs: set<T>)
    ensures |Tagged(k, xs)| == |xs|
  {
    if xs == {} {
      assert Tagged(k, xs) == {};
    } else {
      var x :| x in xs;
      TaggedSize(k, xs - {x});
      assert Tagged(k, xs) == Tagged(k, xs - {x}) + {(k, x)};
    }
  }

  lemma OneMoreHit(cfg: Config, order: seq<State>, n: nat)
    requires |order| == n + 1
    ensures |AllHits(cfg, order)| == |AllHits(cfg, order[..n])| + |HitPairs(cfg, order[n])|
  {
    hide HitPairs;
    var before, last := AllHits(cfg, order[..n]), Tagged(n, HitPairs(cfg, order[n]));
    TaggedSize(n, HitPairs(cfg, order[n]));
    forall k: nat, e: (nat, nat) ensures (k, e) in AllHits(cfg, order) <==> (k, e) in before + last {
      assert (k, e) in AllHits(cfg, order) <==> k < n + 1 && e in HitPairs(cfg, order[k]);
      assert (k, e) in before <==> k < n && e in HitPairs(cfg, order[k]);
    }
    assert before !! last && AllHits(cfg, order) == before + last;
  }

  lemma OneMoreMiss(cfg: Config, order: seq<State>, n: nat)
    requires |order| == n + 1
    ensures |AllMisses(cfg, order)| == |AllMisses(cfg, order[..n])| + |MissPlaces(cfg, order[n])|
  {
    hide MissPlaces;
    var before, last := AllMisses(cfg, order[..n]), Tagged(n, MissPlaces(cfg, order[n]));
    TaggedSize(n, MissPlaces(cfg, order[n]));
    forall k: nat, i: nat ensures (k, i) in AllMisses(cfg, order) <==> (k, i) in before + last {
      assert (k, i) in AllMisses(cfg, order) <==> k < n + 1 && i in MissPlaces(cfg, order[k]);
      assert (k, i) in before <==> k < n && i in MissPlaces(cfg, order[k]);
    }
    assert before !! last && AllMisses(cfg, order) == before + last;
  }

  /** The report counts each violation of each state taken once. */
  lemma {:induction false} TallyCounts(cfg: Config, order: seq<State>)
    ensures Tally(cfg, order).replays == |AllHits(cfg, order)|
    ensures Tally(cfg, order).satMisses == |AllMisses(cfg, order)|
  {
    if order == [] {
      assert AllHits(cfg, order) == {} && AllMisses(cfg, order) == {};
    } else {
      hide AllHits, AllMisses, HitPairs, MissPlaces;
      var n := |order| - 1;
      TallyCounts(cfg, order[..n]);
      CountsAreExact(cfg, order[n]);
      OneMoreHit(cfg, order, n);
      OneMoreMiss(cfg, order, n);
    }
  }

  /** The reported violations are zero exactly when every state taken passed its check. */
  lemma {:induction false} TallyZero(cfg: Config, order: seq<State>)
    ensures Tally(cfg, order).totalStates == |order| && Tally(cfg, order).deadlocks == 0
    ensures Tally(cfg, order).replays == 0 <==> forall s | s in order :: ReplayClean(cfg, s)
    ensures Tally(cfg, order).satMisses == 0 <==> forall s | s in order :: SatClean(cfg, s)
  {
    hide ReplayClean, SatClean;
    if order != [] {
      var n := |order| - 1;
      TallyZero(cfg, order[..n]);
      CountersMeanChecks(cfg, order[n]);
      assert order == order[..n] + [order[n]];
    }
  }

  lemma VisitedSize<K(!new)>(cfg: Config, hash: State -> K, v: Search<K>)
    requires SearchInvariant(cfg, hash, v)
    ensures |v.visited| == |v.order| + |v.queue|
  {
    hide Step, LeadsTo;
  }

  /** `run_model_checker`, stopped after `budget` iterations of its `while queue` loop. */
  method RunModelChecker<K(==,!new)>(cfg: Config, hash: State -> K, budget: nat)
      returns (report: Report, visited: set<K>, queue: seq<(State, seq<Action>)>, ghost order: seq<State>)
    requires Faithful(cfg, hash)
    ensures SearchInvariant(cfg, hash, Search(visited, queue, order))
    ensures report == Tally(cfg, order)
    ensures report.totalStates == |order| && report.deadlocks == 0
    ensures |visited| == report.totalStates + |queue|
    ensures report.replays == |AllHits(cfg, order)| && report.satMisses == |AllMisses(cfg, order)|
    ensures queue == [] || |order| == budget
    ensures queue == [] ==> forall k :: k in visited <==> exists s :: Reachable(cfg, s) && hash(s) == k
    ensures forall keys :: ClosedKeys(cfg, hash, keys) && |keys| <= budget ==> queue == []
  {
    hide Step, LeadsTo, Sound, Closed, Shortest, Complete, Layered, Faithful, ClosedKeys;
    queue := [(Init(cfg), [])];
    visited := {hash(Init(cfg))};
    order := [];
    report := Report(0, 0, 0, 0);
    InitSearch(cfg, hash, Search(visited, queue, order));
    while queue != [] && report.totalStates < budget
      invariant SearchInvariant(cfg, hash, Search(visited, queue, order))
      invariant report == Tally(cfg, order) && report.totalStates == |order| <= budget
      decreases budget - |order|
    {
      ghost var v := Search(visited, queue, order);
      var (state, trace) := queue[0];
      queue := queue[1..];
      var hits, misses := CheckState(cfg, state);
      order := order + [state];
      report := report.(totalStates := report.totalStates + 1,
                        replays := report.replays + hits, satMisses := report.satMisses + misses);
      assert order[..|order| - 1] == v.order;
      var succs := GetSuccessors(cfg, state);
      if state.clock < cfg.maxTime {
        TickStep(cfg, state);
        assert (TickClock, state.(clock := state.clock + 1)) in succs;
      }
      if succs == [] && !(state.clock >= cfg.maxTime) {
        report := report.(deadlocks := report.deadlocks + 1);
      }
      visited, queue := VisitSuccessors(cfg, hash, visited, queue, trace, succs, v);
      IterationKeeps(cfg, hash, Search(visited, queue, order), |trace|);
    }
    ghost var w := Search(visited, queue, order);
    TallyZero(cfg, order);
    TallyCounts(cfg, order);
    VisitedSize(cfg, hash, w);
    if queue == [] {
      forall k ensures k in visited <==> exists s :: Reachable(cfg, s) && hash(s) == k {
        VisitedAreReachable(cfg, hash, w, k);
      }
    }
    forall keys | ClosedKeys(cfg, hash, keys) && |keys| <= budget ensures queue == [] {
      EnoughIterations(cfg, hash, w, keys);
    }
  }

  lemma VisitedAreReachable<K(!new)>(cfg: Config, hash: State -> K, v: Search<K>, k: K)
    requires Faithful(cfg, hash) && SearchInvariant(cfg, hash, v) && v.queue == []
    ensures k in v.visited <==> exists s :: Reachable(cfg, s) && hash(s) == k
  {
    hide Step, LeadsTo;
    if k in v.visited {
      assert k in Keys(hash, v);
      var s :| s in v.order && hash(s) == k;
      assert Reachable(cfg, s);
    }
    if s :| Reachable(cfg, s) && hash(s) == k {
      var acts :| LeadsTo(cfg, acts, s);
      EmptyQueueMeansAll(cfg, hash, v, acts, s);
    }
  }

  lemma HeadTrace<K(!new)>(cfg: Config, hash: State -> K, v: Search<K>, d: nat)
    requires v.queue != [] && Good(cfg, hash, v, d)
    ensures LeadsTo(cfg, v.queue[0].1, v.queue[0].0)
  {
  }

  lemma NowClosed<K(!new)>(cfg: Config, hash: State -> K, v: Search<K>, w: Search<K>, succs: seq<(Action, State)>)
    requires v.queue != [] && Closed(cfg, hash, v, |v.order|)
    requires w.order == v.order + [v.queue[0].0] && v.visited <= w.visited
    requires forall e: (Action, State) :: Step(cfg, v.queue[0].0, e.0, e.1) ==> e in succs
    requires forall e | e in succs :: hash(e.1) in w.visited
    ensures Closed(cfg, hash, w, |w.order|)
  {
    hide Step;
    assert w.order[..|w.order|] == w.order && v.order[..|v.order|] == v.order;
    forall s, act, t | s in w.order && Step(cfg, s, act, t) ensures hash(t) in w.visited {
      if s !in v.order {
        assert Step(cfg, v.queue[0].0, (act, t).0, (act, t).1);
      }
    }
  }

  /** The inner `for` loop: queue the successors whose hash is new, with the trace that leads
      to them. `v` is the search before the state at its head was taken. */
  method VisitSuccessors<K(==,!new)>(
      cfg: Config, hash: State -> K, visited0: set<K>, queue0: seq<(State, seq<Action>)>, trace: seq<Action>,
      succs: seq<(Action, State)>, ghost v: Search<K>)
      returns (visited: set<K>, queue: seq<(State, seq<Action>)>)
    requires v.queue != [] && v.queue[0].1 == trace && visited0 == v.visited && queue0 == v.queue[1..]
    requires Good(cfg, hash, v, |trace|) && Closed(cfg, hash, v, |v.order|)
    requires forall e: (Action, State) :: e in succs <==> Step(cfg, v.queue[0].0, e.0, e.1)
    ensures var w := Search(visited, queue, v.order + [v.queue[0].0]);
      Good(cfg, hash, w, |trace|) && Closed(cfg, hash, w, |w.order|)
  {
    hide Step, LeadsTo, Good, Closed;
    visited, queue := visited0, queue0;
    ghost var state, order := v.queue[0].0, v.order + [v.queue[0].0];
    DequeueKeeps(cfg, hash, v, |trace|);
    HeadTrace(cfg, hash, v, |trace|);
    for i := 0 to |succs|
      invariant Good(cfg, hash, Search(visited, queue, order), |trace|)
      invariant v.visited <= visited
      invariant forall j | 0 <= j < i :: hash(succs[j].1) in visited
    {
      var (action, nextState) := succs[i];
      var h := hash(nextState);
      assert succs[i] in succs;
      if h !in visited {
        EnqueueKeeps(cfg, hash, Search(visited, queue, order), |trace|, state, trace, action, nextState);
        visited := visited + {h};
        queue := queue + [(nextState, trace + [action])];
      }
    }
    NowClosed(cfg, hash, v, Search(visited, queue, order), succs);
  }
}
