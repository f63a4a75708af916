/** The clear-all replay cache of the enforcement point (`replay.rs`). */
module ReplayCache {

  // What the cache holds between calls.
  datatype Cache = Cache(seen: set<string>, lastCleanup: real)

  datatype Params = Params(maxEntries: nat, expiry: real)

  // One call, with the two clock readings it may make.
  datatype Call = Call(nonce: string, t1: real, t2: real)

  predicate Expired(p: Params, c: Cache, call: Call) {
    call.t1 - c.lastCleanup > p.expiry
  }

  function CleanedUp(p: Params, c: Cache, call: Call): Cache {
    if Expired(p, c, call) then Cache({}, call.t2) else c
  }

  predicate Fresh(p: Params, c: Cache, call: Call) {
    call.nonce !in CleanedUp(p, c, call).seen
  }

  predicate Overflows(p: Params, c: Cache, call: Call) {
    Fresh(p, c, call) && |CleanedUp(p, c, call).seen| >= p.maxEntries
  }

  function After(p: Params, c: Cache, call: Call): Cache {
    var k := CleanedUp(p, c, call);
    if !Fresh(p, c, call) then k
    else k.(seen := (if Overflows(p, c, call) then {} else k.seen) + {call.nonce})
  }

  class ReplayProtectionCache {
    var seen: set<string>
    const maxEntries: nat
    const expiry: real
    var lastCleanup: real

    ghost function Contents(): Cache
      reads this
    {
      Cache(seen, lastCleanup)
    }

    constructor (maxEntries: nat, expiry: real, now: real)
      ensures Contents() == Cache({}, now) && this.maxEntries == maxEntries && this.expiry == expiry
    {
      seen := {};
      this.maxEntries := maxEntries;
      this.expiry := expiry;
      lastCleanup := now;
    }

    method CheckAndAdd(call: Call) returns (accepted: bool)
      modifies this
      ensures accepted == Fresh(Params(maxEntries, expiry), old(Contents()), call)
      ensures Contents() == After(Params(maxEntries, expiry), old(Contents()), call)
    {
      MaybeCleanup(call);
      if call.nonce in seen {
        accepted := false;
      } else {
        if |seen| >= maxEntries {
          seen := {};
        }
        seen := seen + {call.nonce};
        accepted := true;
      }
    }

    method MaybeCleanup(call: Call)
      modifies this
      ensures Contents() == CleanedUp(Params(maxEntries, expiry), old(Contents()), call)
    {
      if call.t1 - lastCleanup > expiry {
        seen := {};
        lastCleanup := call.t2;
      }
    }

    method Len() returns (n: nat)
      ensures n == |Contents().seen|
    {
      n := |seen|;
    }
  }

  // ----- runs

  /** A cache built at `start` and the calls made on it, on a clock that never goes back. */
  datatype Run = Run(p: Params, start: real, calls: seq<Call>) {
    predicate Timely() {
      && p.expiry >= 0.0
      && (forall i | 0 <= i < |calls| :: start <= calls[i].t1 <= calls[i].t2)
      && (forall i, j | 0 <= i < j < |calls| :: calls[i].t2 <= calls[j].t1)
    }

    function At(n: nat): Cache
      requires n <= |calls|
    {
      if n == 0 then Cache({}, start) else After(p, At(n - 1), calls[n - 1])
    }

    predicate Accepts(i: nat)
      requires i < |calls|
    {
      Fresh(p, At(i), calls[i])
    }

    predicate TimeClear(i: nat)
      requires i < |calls|
    {
      Expired(p, At(i), calls[i])
    }

    predicate CapacityClear(i: nat)
      requires i < |calls|
    {
      Overflows(p, At(i), calls[i])
    }

    // How many of calls `i..n` clear by time, clear by capacity, are accepted, accept `nonce`.
    function TimeClears(i: nat, n: nat): nat
      requires i <= n <= |calls|
    {
      if i == n then 0 else TimeClears(i, n - 1) + if TimeClear(n - 1) then 1 else 0
    }

    function CapacityClears(i: nat, n: nat): nat
      requires i <= n <= |calls|
    {
      if i == n then 0 else CapacityClears(i, n - 1) + if CapacityClear(n - 1) then 1 else 0
    }

    function Accepted(n: nat): nat
      requires n <= |calls|
    {
      if n == 0 then 0 else Accepted(n - 1) + if Accepts(n - 1) then 1 else 0
    }

    function AcceptedOf(nonce: string, i: nat, n: nat): nat
      requires i <= n <= |calls|
    {
      if i == n then 0
      else AcceptedOf(nonce, i, n - 1) + if calls[n - 1].nonce == nonce && Accepts(n - 1) then 1 else 0
    }
  }

  /** In any stretch of calls a nonce is accepted at most once more than the cache is cleared. */
  lemma {:induction false} AcceptsBoundedByClears(r: Run, nonce: string, i: nat, n: nat)
    requires i <= n <= |r.calls|
    ensures r.AcceptedOf(nonce, i, n)
      <= r.TimeClears(i, n) + r.CapacityClears(i, n) + if nonce in r.At(n).seen then 1 else 0
  {
    if i < n {
      AcceptsBoundedByClears(r, nonce, i, n - 1);
    }
  }

  function Times(k: nat, e: real): real {
    k as real * e
  }

  lemma OneMoreTime(k: nat, e: real)
    ensures Times(0, e) == 0.0 && Times(k + 1, e) == Times(k, e) + e
  {
  }

  /** Clears by time are more than the expiry apart: together they fit in the elapsed time. */
  lemma {:induction false} TimeClearsBounded(r: Run, n: nat)
    requires r.Timely() && n <= |r.calls|
    ensures r.start <= r.At(n).lastCleanup && (n > 0 ==> r.At(n).lastCleanup <= r.calls[n - 1].t2)
    ensures Times(r.TimeClears(0, n), r.p.expiry) <= r.At(n).lastCleanup - r.start
  {
    hide Times, Fresh, Overflows;
    if n == 0 {
      OneMoreTime(0, r.p.expiry);
    } else {
      TimeClearsBounded(r, n - 1);
      OneMoreTime(r.TimeClears(0, n - 1), r.p.expiry);
      assert n > 1 ==> r.calls[n - 2].t2 <= r.calls[n - 1].t1;
    }
  }

  // The entries that `k` full caches of `m` hold.
  function Room(k: nat, m: nat): nat {
    k * m
  }

  lemma MoreRoom(k: nat, m: nat)
    ensures Room(0, m) == 0 && Room(k + 1, m) == Room(k, m) + m
  {
  }

  lemma OneMore(s: set<string>, x: string)
    ensures |s + {x}| == |s| + if x in s then 0 else 1
    ensures |{} + {x}| == 1
  {
    if x in s { assert s + {x} == s; }
    assert {} + {x} == {x};
  }

  // What one call does to the number of entries, by what it does to the counters.
  lemma SizeAfter(p: Params, c: Cache, call: Call)
    ensures var size, after := |c.seen|, |After(p, c, call).seen|;
      if Overflows(p, c, call) then after == 1 && (Expired(p, c, call) || size >= p.maxEntries)
      else if Fresh(p, c, call) then after <= size + 1 && after <= p.maxEntries
      else after <= size
    ensures Overflows(p, c, call) ==> Fresh(p, c, call)
    ensures Overflows(p, c, call) && Expired(p, c, call) ==> p.maxEntries == 0
  {
    var k := CleanedUp(p, c, call).seen;
    OneMore(k, call.nonce);
  }

  /** Each clear by capacity costs as many accepted calls as the cache has room for. */
  lemma {:induction false} CapacityClearsBounded(r: Run, n: nat)
    requires n <= |r.calls|
    ensures Room(r.CapacityClears(0, n), r.p.maxEntries) + |r.At(n).seen| <= r.Accepted(n)
    ensures |r.At(n).seen| <= if r.p.maxEntries == 0 then 1 else r.p.maxEntries
  {
    hide Room, Fresh, Overflows, Expired, After;
    MoreRoom(if n == 0 then 0 else r.CapacityClears(0, n - 1), r.p.maxEntries);
    if n > 0 {
      CapacityClearsBounded(r, n - 1);
      SizeAfter(r.p, r.At(n - 1), r.calls[n - 1]);
    }
  }

  /** Over a whole run: accepts of one nonce, clears by time and clears by capacity. */
  lemma RunBounds(r: Run, nonce: string, n: nat)
    requires r.Timely() && 0 < n <= |r.calls|
    ensures r.AcceptedOf(nonce, 0, n) <= 1 + r.TimeClears(0, n) + r.CapacityClears(0, n)
    ensures Times(r.TimeClears(0, n), r.p.expiry) <= r.calls[n - 1].t2 - r.start
    ensures Room(r.CapacityClears(0, n), r.p.maxEntries) <= r.Accepted(n)
  {
    hide Times, Room, Fresh, Overflows, Expired, After;
    AcceptsBoundedByClears(r, nonce, 0, n);
    TimeClearsBounded(r, n);
    CapacityClearsBounded(r, n);
  }

  lemma {:induction false} OneTimeClear(r: Run, i: nat, n: nat)
    requires r.Timely() && i <= n <= |r.calls|
    requires i < n ==> r.calls[n - 1].t2 - r.calls[i].t1 <= r.p.expiry
    ensures r.TimeClears(i, n) <= 1 && (r.TimeClears(i, n) == 1 ==> r.At(n).lastCleanup >= r.calls[i].t1)
  {
    if i < n {
      assert i < n - 1 ==> r.calls[n - 2].t2 <= r.calls[n - 1].t1;
      OneTimeClear(r, i, n - 1);
      assert i < n - 1 ==> r.calls[i].t2 <= r.calls[n - 1].t1;
    }
  }

  /** In a stretch no longer than the expiry, with no clear by capacity, a nonce is accepted at
      most twice. */
  lemma AtMostTwiceWithinExpiry(r: Run, nonce: string, i: nat, n: nat)
    requires r.Timely() && i < n <= |r.calls| && r.calls[n - 1].t2 - r.calls[i].t1 <= r.p.expiry
    requires forall m | i <= m < n :: !r.CapacityClear(m)
    ensures r.AcceptedOf(nonce, i, n) <= 2
  {
    OneTimeClear(r, i, n);
    AcceptsBoundedByClears(r, nonce, i, n);
    NoCapacityClears(r, i, n);
  }

  lemma {:induction false} NoCapacityClears(r: Run, i: nat, n: nat)
    requires i <= n <= |r.calls| && forall m | i <= m < n :: !r.CapacityClear(m)
    ensures r.CapacityClears(i, n) == 0
  {
    if i < n { NoCapacityClears(r, i, n - 1); }
  }

  // ----- exactly when a nonce is accepted again

  // No clear in the calls after `i` and before `j`.
  ghost predicate NoClear(r: Run, i: nat, j: nat)
    requires j <= |r.calls|
  {
    forall m | i < m < j :: !r.TimeClear(m) && !r.CapacityClear(m)
  }

  // Between accepting call `i` and looking the nonce up in call `j`, the cache was cleared.
  ghost predicate ClearedBetween(r: Run, i: nat, j: nat)
    requires i < j < |r.calls|
  {
    r.TimeClear(j) || !NoClear(r, i, j)
  }

  // Call `i` accepted `nonce`, and the cache has not been cleared between it and call `j`.
  ghost predicate Kept(r: Run, nonce: string, i: nat, j: nat)
    requires i < j <= |r.calls|
  {
    r.Accepts(i) && r.calls[i].nonce == nonce && NoClear(r, i, j)
  }

  lemma KeptStep(r: Run, nonce: string, i: nat, j: nat)
    requires i + 1 < j <= |r.calls|
    ensures Kept(r, nonce, i, j) <==> Kept(r, nonce, i, j - 1) && !r.TimeClear(j - 1) && !r.CapacityClear(j - 1)
  {
    assert NoClear(r, i, j) <==> NoClear(r, i, j - 1) && !r.TimeClear(j - 1) && !r.CapacityClear(j - 1);
  }

  // What call `j` does to the entries and to the time of the last cleanup.
  lemma CallStep(r: Run, nonce: string, j: nat)
    requires j < |r.calls|
    ensures nonce in r.At(j + 1).seen <==>
      || (r.Accepts(j) && r.calls[j].nonce == nonce)
      || (nonce in r.At(j).seen && !r.TimeClear(j) && !r.CapacityClear(j))
    ensures r.At(j + 1).lastCleanup == if r.TimeClear(j) then r.calls[j].t2 else r.At(j).lastCleanup
  {
  }

  /** The cache holds exactly the nonces accepted since it was last cleared. */
  lemma {:induction false} SeenExactly(r: Run, nonce: string, j: nat)
    requires j <= |r.calls|
    ensures nonce in r.At(j).seen <==> exists i: nat :: i < j && Kept(r, nonce, i, j)
  {
    hide Kept, After, Fresh, Overflows, Expired, CleanedUp;
    if j > 0 {
      SeenExactly(r, nonce, j - 1);
      CallStep(r, nonce, j - 1);
      LastKept(r, nonce, j);
      forall i: nat | i + 1 < j
        ensures Kept(r, nonce, i, j) <==> Kept(r, nonce, i, j - 1) && !r.TimeClear(j - 1) && !r.CapacityClear(j - 1)
      {
        KeptStep(r, nonce, i, j);
      }
      if nonce in r.At(j - 1).seen {
        var i: nat :| i < j - 1 && Kept(r, nonce, i, j - 1);
        assert Kept(r, nonce, i, j) <==> !r.TimeClear(j - 1) && !r.CapacityClear(j - 1);
      }
    }
  }

  lemma LastKept(r: Run, nonce: string, j: nat)
    requires 0 < j <= |r.calls|
    ensures Kept(r, nonce, j - 1, j) <==> r.Accepts(j - 1) && r.calls[j - 1].nonce == nonce
  {
  }

  /** A call is accepted exactly when the cache was cleared since each earlier accept of its nonce:
      a nonce never seen always is, and the age of one that was plays no part. */
  lemma AcceptsExactly(r: Run, j: nat)
    requires j < |r.calls|
    ensures r.Accepts(j) <==>
      forall i: nat | i < j && r.Accepts(i) && r.calls[i].nonce == r.calls[j].nonce :: ClearedBetween(r, i, j)
  {
    SeenExactly(r, r.calls[j].nonce, j);
    forall i: nat | i < j && r.Accepts(i) && r.calls[i].nonce == r.calls[j].nonce
      ensures Kept(r, r.calls[j].nonce, i, j) <==> NoClear(r, i, j)
    {
    }
    assert r.Accepts(j) <==> r.TimeClear(j) || r.calls[j].nonce !in r.At(j).seen;
  }

  /** A nonce already accepted is accepted again exactly when the cache was cleared since it
      was last accepted; its own age plays no part. */
  lemma AcceptedAgainExactly(r: Run, i: nat, j: nat)
    requires i < j < |r.calls| && r.Accepts(i) && r.calls[j].nonce == r.calls[i].nonce
    requires forall m | i < m < j && r.calls[m].nonce == r.calls[i].nonce :: !r.Accepts(m)
    ensures r.Accepts(j) <==> ClearedBetween(r, i, j)
  {
    hide ClearedBetween;
    AcceptsExactly(r, j);
    if ClearedBetween(r, i, j) {
      EarlierCleared(r, i, j);
    }
  }

  // What was cleared by the last accept of the nonce was cleared for the earlier ones too.
  lemma EarlierCleared(r: Run, i: nat, j: nat)
    requires i < j < |r.calls| && ClearedBetween(r, i, j)
    ensures forall k: nat | k < i :: ClearedBetween(r, k, j)
  {
  }

  // ----- exactly when the cache is cleared

  /** Time clears the cache exactly when more than the expiry has passed since the last clear by
      time, or since the beginning if there was none. */
  lemma TimeClearExactly(r: Run, i: nat, j: nat)
    requires j < |r.calls|
    ensures (forall m | 0 <= m < j :: !r.TimeClear(m)) ==> (r.TimeClear(j) <==> r.calls[j].t1 - r.start > r.p.expiry)
    ensures i < j && r.TimeClear(i) && (forall m | i < m < j :: !r.TimeClear(m)) ==>
      (r.TimeClear(j) <==> r.calls[j].t1 - r.calls[i].t2 > r.p.expiry)
  {
    CleanupTime(r, i, j);
  }

  lemma {:induction false} CleanupTime(r: Run, i: nat, j: nat)
    requires j <= |r.calls|
    ensures (forall m | 0 <= m < j :: !r.TimeClear(m)) ==> r.At(j).lastCleanup == r.start
    ensures i < j && r.TimeClear(i) && (forall m | i < m < j :: !r.TimeClear(m)) ==>
      r.At(j).lastCleanup == r.calls[i].t2
  {
    hide After, Fresh, Overflows, Expired, CleanedUp;
    if j > 0 {
      CleanupTime(r, i, j - 1);
      CallStep(r, "", j - 1);
      var cleared := r.TimeClear(j - 1);
    }
  }

  // The calls accepted before `j` whose nonces the cache still holds.
  ghost function Holding(r: Run, j: nat): set<nat>
    requires j <= |r.calls|
  {
    set i: nat | i < j && r.Accepts(i) && NoClear(r, i, j)
  }

  lemma HoldingStep(r: Run, j: nat)
    requires 0 < j <= |r.calls|
    ensures Holding(r, j) ==
      (if r.TimeClear(j - 1) || r.CapacityClear(j - 1) then {} else Holding(r, j - 1)) + if r.Accepts(j - 1) then {j - 1} else {}
  {
    forall i: nat | i + 1 < j
      ensures NoClear(r, i, j) <==> NoClear(r, i, j - 1) && !r.TimeClear(j - 1) && !r.CapacityClear(j - 1)
    {
    }
    assert NoClear(r, j - 1, j);
  }

  lemma {:induction false} SizeIsHolding(r: Run, j: nat)
    requires j <= |r.calls|
    ensures |r.At(j).seen| == |Holding(r, j)|
  {
    if j == 0 {
      assert Holding(r, 0) == {};
    } else {
      hide NoClear;
      SizeIsHolding(r, j - 1);
      HoldingStep(r, j);
      OneMore(r.At(j - 1).seen, r.calls[j - 1].nonce);
    }
  }

  /** Capacity clears the cache exactly when an accepted call finds it holding as many accepts, made
      since the last clear, as it has room for. */
  lemma CapacityClearExactly(r: Run, j: nat)
    requires j < |r.calls|
    ensures r.CapacityClear(j) <==>
      r.Accepts(j) && (if r.TimeClear(j) then 0 else |Holding(r, j)|) >= r.p.maxEntries
  {
    SizeIsHolding(r, j);
  }

  /** However short the time between them, two calls with one nonce can both be accepted: the
      documented sliding window is a clear-all, and a nonce added just before it is forgotten. */
  lemma ForgottenAtOnce(p: Params, start: real, gap: real)
    requires p.expiry >= 0.0 && gap > 0.0
    ensures exists r: Run ::
              && r.p == p && r.Timely() && |r.calls| == 2 && r.calls[0].nonce == r.calls[1].nonce
              && r.calls[1].t1 - r.calls[0].t2 == gap && r.Accepts(0) && r.Accepts(1)
  {
    var t := start + p.expiry;
    var r := Run(p, start, [Call("nonce", t, t), Call("nonce", t + gap, t + gap)]);
    assert r.At(0) == Cache({}, start);
    assert r.At(1).lastCleanup == start;
    assert r.Timely() && r.Accepts(0) && r.Accepts(1);
  }
}
