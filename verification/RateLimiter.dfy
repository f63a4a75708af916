/** The sliding-window rate limiter (`RateLimitMiddleware.dispatch` in `middleware.py`). */
module RateLimiter {
  import opened Common

  datatype Request = Request(client: Option<string>, now: real)

  datatype Limits = Limits(maxRequests: int, window: real)

  type Counts = map<string, seq<real>>

  // Requests without a client address share one key.
  function ClientKey(q: Request): string {
    match q.client case Some(host) => host case None => "unknown"
  }

  /** The entries less than `window` before `now`, in order. */
  function Recent(window: real, log: seq<real>, now: real): seq<real> {
    if log == [] then []
    else
      var ts := log[|log| - 1];
      var earlier := Recent(window, log[..|log| - 1], now);
      if now - ts < window then earlier + [ts] else earlier
  }

  function LogOf(counts: Counts, key: string): seq<real> {
    if key in counts then counts[key] else []
  }

  predicate Admits(l: Limits, counts: Counts, q: Request) {
    |Recent(l.window, LogOf(counts, ClientKey(q)), q.now)| < l.maxRequests
  }

  function Dispatched(l: Limits, counts: Counts, q: Request): Counts {
    var recent := Recent(l.window, LogOf(counts, ClientKey(q)), q.now);
    counts[ClientKey(q) := if Admits(l, counts, q) then recent + [q.now] else recent]
  }

  class RateLimitMiddleware {
    const maxRequests: int
    const windowSeconds: real
    var requestCounts: Counts

    constructor (maxRequests: int, windowSeconds: real)
      ensures requestCounts == map[] && this.maxRequests == maxRequests && this.windowSeconds == windowSeconds
    {
      this.maxRequests, this.windowSeconds := maxRequests, windowSeconds;
      requestCounts := map[];
    }

    /** Whether the request is passed on; otherwise it is answered with status 429. */
    method Dispatch(q: Request) returns (admitted: bool)
      modifies this
      ensures admitted == Admits(Limits(maxRequests, windowSeconds), old(requestCounts), q)
      ensures requestCounts == Dispatched(Limits(maxRequests, windowSeconds), old(requestCounts), q)
    {
      var key := ClientKey(q);
      if key !in requestCounts {
        requestCounts := requestCounts[key := []];
      }
      var kept: seq<real> := [];
      var log := requestCounts[key];
      for i := 0 to |log|
        invariant kept == Recent(windowSeconds, log[..i], q.now)
      {
        assert log[..i + 1][..i] == log[..i];
        if q.now - log[i] < windowSeconds {
          kept := kept + [log[i]];
        }
      }
      assert log[..|log|] == log;
      requestCounts := requestCounts[key := kept];
      if |requestCounts[key]| >= maxRequests {
        return false;
      }
      requestCounts := requestCounts[key := requestCounts[key] + [q.now]];
      admitted := true;
    }
  }

  // ----- runs

  /** What the limiter holds after the requests `qs`. */
  function After(l: Limits, qs: seq<Request>): Counts {
    if qs == [] then map[] else Dispatched(l, After(l, qs[..|qs| - 1]), qs[|qs| - 1])
  }

  /** The times at which requests of `key` among `qs` were admitted: nothing is ever forgotten. */
  function History(l: Limits, qs: seq<Request>, key: string): seq<real> {
    if qs == [] then []
    else
      var before, q := qs[..|qs| - 1], qs[|qs| - 1];
      var earlier := History(l, before, key);
      if ClientKey(q) == key && Admits(l, After(l, before), q) then earlier + [q.now] else earlier
  }

  predicate Timely(qs: seq<Request>) {
    forall i, j | 0 <= i < j < |qs| :: qs[i].now <= qs[j].now
  }

  lemma {:induction false} RecentOfConcat(window: real, a: seq<real>, b: seq<real>, now: real)
    ensures Recent(window, a + b, now) == Recent(window, a, now) + Recent(window, b, now)
  {
    if b == [] {
      assert a + b == a;
    } else {
      var n := |b| - 1;
      assert (a + b)[..|a + b| - 1] == a + b[..n];
      RecentOfConcat(window, a, b[..n], now);
    }
  }

  lemma {:induction false} RecentOfRecent(window: real, log: seq<real>, now: real, later: real)
    requires now <= later
    ensures Recent(window, Recent(window, log, now), later) == Recent(window, log, later)
  {
    if log != [] {
      var n := |log| - 1;
      RecentOfRecent(window, log[..n], now, later);
      if now - log[n] < window {
        RecentOfConcat(window, Recent(window, log[..n], now), [log[n]], later);
        assert [log[n]][..0] == [];
      }
    }
  }

  lemma CountOfLast(xs: seq<real>, x: real, y: real)
    ensures multiset(xs + [x])[y] == multiset(xs)[y] + if x == y then 1 else 0
  {
  }

  /** The recent entries are those later than `now - window`, each as often as it is logged. */
  lemma {:induction false} RecentIsFilter(window: real, log: seq<real>, now: real, ts: real)
    ensures multiset(Recent(window, log, now))[ts] == if now - window < ts then multiset(log)[ts] else 0
  {
    if log != [] {
      var n := |log| - 1;
      RecentIsFilter(window, log[..n], now, ts);
      assert log == log[..n] + [log[n]];
      CountOfLast(log[..n], log[n], ts);
      CountOfLast(Recent(window, log[..n], now), log[n], ts);
    }
  }

  /** From the last request on, the pruned log and the full admission history show the same
      recent entries. */
  lemma {:induction false} LogAgreesWithHistory(l: Limits, qs: seq<Request>, key: string, now: real)
    requires Timely(qs) && (qs != [] ==> qs[|qs| - 1].now <= now)
    ensures Recent(l.window, LogOf(After(l, qs), key), now) == Recent(l.window, History(l, qs, key), now)
  {
    if qs != [] {
      var before, q := qs[..|qs| - 1], qs[|qs| - 1];
      assert before != [] ==> before[|before| - 1] == qs[|before| - 1] && qs[|before| - 1].now <= q.now;
      LogAgreesWithHistory(l, before, key, now);
      if ClientKey(q) == key {
        var log := LogOf(After(l, before), key);
        RecentOfRecent(l.window, log, q.now, now);
        RecentOfConcat(l.window, Recent(l.window, log, q.now), [q.now], now);
        RecentOfConcat(l.window, History(l, before, key), [q.now], now);
      } else {
        assert History(l, qs, key) == History(l, before, key);
      }
    }
  }

  /** Right after a request of the client, its pruned log is the full admission history filtered
      to the window that ends there. */
  lemma LogIsFilteredHistory(l: Limits, qs: seq<Request>, q: Request)
    requires Timely(qs + [q]) && l.window > 0.0
    ensures LogOf(After(l, qs + [q]), ClientKey(q)) == Recent(l.window, History(l, qs + [q], ClientKey(q)), q.now)
  {
    var key, all := ClientKey(q), qs + [q];
    assert all[..|all| - 1] == qs && all[|all| - 1] == q;
    assert forall i | 0 <= i < |qs| :: qs[i] == all[i];
    LogAgreesWithHistory(l, qs, key, q.now);
    RecentOfConcat(l.window, History(l, qs, key), [q.now], q.now);
    assert [q.now][..0] == [];
  }

  /** A request is admitted exactly when fewer than the limit of the client's requests were
      admitted less than a window before it. */
  lemma AdmittedExactly(l: Limits, qs: seq<Request>, q: Request)
    requires Timely(qs + [q])
    ensures Admits(l, After(l, qs), q) <==> |Recent(l.window, History(l, qs, ClientKey(q)), q.now)| < l.maxRequests
  {
    assert forall i | 0 <= i < |qs| :: qs[i] == (qs + [q])[i];
    assert (qs + [q])[|qs|] == q;
    LogAgreesWithHistory(l, qs, ClientKey(q), q.now);
  }

  /** How many of `times` lie in the half-open window that begins at `from`. */
  function InWindow(times: seq<real>, from: real, window: real): nat {
    if times == [] then 0
    else
      var ts := times[|times| - 1];
      InWindow(times[..|times| - 1], from, window) + if from <= ts < from + window then 1 else 0
  }

  lemma {:induction false} WindowIsRecent(window: real, times: seq<real>, from: real, now: real)
    requires now < from + window
    ensures InWindow(times, from, window) <= |Recent(window, times, now)|
  {
    if times != [] {
      WindowIsRecent(window, times[..|times| - 1], from, now);
    }
  }

  /** In every half-open window, wherever it begins, at most the limit of a client's requests
      are admitted, in every run. */
  lemma {:induction false} WindowBound(l: Limits, qs: seq<Request>, key: string, from: real)
    requires Timely(qs)
    ensures InWindow(History(l, qs, key), from, l.window) <= if l.maxRequests < 0 then 0 else l.maxRequests
  {
    if qs != [] {
      var before, q := qs[..|qs| - 1], qs[|qs| - 1];
      WindowBound(l, before, key, from);
      var h := History(l, before, key);
      if ClientKey(q) == key && Admits(l, After(l, before), q) {
        assert before + [q] == qs;
        AdmittedExactly(l, before, q);
        assert (h + [q.now])[..|h|] == h;
        if from <= q.now < from + l.window {
          WindowIsRecent(l.window, h, from, q.now);
        }
      }
    }
  }

  // ----- the limiter by its requests alone

  /** Two requests share a client when their hosts are equal; no host counts as host "unknown". */
  predicate SameClient(q: Request, r: Request) {
    || q.client == r.client
    || (q.client == None && r.client == Some("unknown"))
    || (q.client == Some("unknown") && r.client == None)
  }

  lemma SameKey(q: Request, r: Request)
    ensures SameClient(q, r) <==> ClientKey(q) == ClientKey(r)
  {
  }

  // Request `i` of the run is passed on.
  predicate AdmittedAt(l: Limits, qs: seq<Request>, i: nat)
    requires i < |qs|
  {
    Admits(l, After(l, qs[..i]), qs[i])
  }

  /** The earlier requests of `q`'s client, among the first `n`, that were admitted less than a
      window before it. */
  ghost function AdmittedBefore(l: Limits, qs: seq<Request>, n: nat, q: Request): set<nat>
    requires n <= |qs|
  {
    set i: nat | i < n && SameClient(qs[i], q) && AdmittedAt(l, qs, i) && q.now - qs[i].now < l.window
  }

  // Whether request `i` counts against a later request `q`.
  predicate CountsAgainst(l: Limits, qs: seq<Request>, i: nat, q: Request)
    requires i < |qs|
  {
    ClientKey(qs[i]) == ClientKey(q) && AdmittedAt(l, qs, i) && q.now - qs[i].now < l.window
  }

  lemma OneMoreCounted(l: Limits, qs: seq<Request>, n: nat, q: Request)
    requires n < |qs|
    ensures |AdmittedBefore(l, qs, n + 1, q)| == |AdmittedBefore(l, qs, n, q)| + if CountsAgainst(l, qs, n, q) then 1 else 0
  {
    hide AdmittedAt, SameClient, ClientKey;
    SameKey(qs[n], q);
    var before := AdmittedBefore(l, qs, n, q);
    assert AdmittedBefore(l, qs, n + 1, q) == if CountsAgainst(l, qs, n, q) then before + {n} else before;
  }

  lemma OneMoreInHistory(l: Limits, qs: seq<Request>, n: nat, q: Request)
    requires n < |qs|
    ensures |Recent(l.window, History(l, qs[..n + 1], ClientKey(q)), q.now)| ==
      |Recent(l.window, History(l, qs[..n], ClientKey(q)), q.now)| + if CountsAgainst(l, qs, n, q) then 1 else 0
  {
    hide Admits, After, ClientKey;
    var h := History(l, qs[..n], ClientKey(q));
    assert qs[..n + 1][..n] == qs[..n];
    assert (h + [qs[n].now])[..|h|] == h;
  }

  lemma {:induction false} HistoryCounts(l: Limits, qs: seq<Request>, n: nat, q: Request)
    requires n <= |qs|
    ensures |Recent(l.window, History(l, qs[..n], ClientKey(q)), q.now)| == |AdmittedBefore(l, qs, n, q)|
  {
    if n == 0 {
      assert AdmittedBefore(l, qs, 0, q) == {};
    } else {
      HistoryCounts(l, qs, n - 1, q);
      OneMoreCounted(l, qs, n - 1, q);
      OneMoreInHistory(l, qs, n - 1, q);
    }
  }

  /** A request is admitted exactly when fewer than the limit of the earlier requests of the same
      client were admitted less than a window before it, counted one by one. */
  lemma AdmittedByCount(l: Limits, qs: seq<Request>, j: nat)
    requires Timely(qs) && j < |qs|
    ensures AdmittedAt(l, qs, j) <==> |AdmittedBefore(l, qs, j, qs[j])| < l.maxRequests
  {
    hide After, Recent, History, AdmittedBefore;
    assert qs[..j] + [qs[j]] == qs[..j + 1];
    AdmittedExactly(l, qs[..j], qs[j]);
    HistoryCounts(l, qs, j, qs[j]);
  }

  // ----- clients do not affect each other

  /** The requests of `q`'s client. */
  function Only(qs: seq<Request>, q: Request): seq<Request> {
    if qs == [] then []
    else
      var r := qs[|qs| - 1];
      var earlier := Only(qs[..|qs| - 1], q);
      if SameClient(r, q) then earlier + [r] else earlier
  }

  lemma {:induction false} OthersDoNotMatter(l: Limits, qs: seq<Request>, q: Request)
    ensures LogOf(After(l, qs), ClientKey(q)) == LogOf(After(l, Only(qs, q)), ClientKey(q))
  {
    hide SameClient, ClientKey;
    if qs != [] {
      var before, r := qs[..|qs| - 1], qs[|qs| - 1];
      OthersDoNotMatter(l, before, q);
      SameKey(r, q);
      if SameClient(r, q) {
        var mine := Only(qs, q);
        assert mine[..|mine| - 1] == Only(before, q) && mine[|mine| - 1] == r;
      }
    }
  }

  /** One client's decisions are those of the run with all other clients' requests removed. */
  lemma DecisionsAreIndependent(l: Limits, qs: seq<Request>, q: Request)
    ensures Admits(l, After(l, qs), q) <==> Admits(l, After(l, Only(qs, q)), q)
  {
    OthersDoNotMatter(l, qs, q);
  }

  lemma {:induction false} NoneOfClient(qs: seq<Request>, q: Request)
    requires forall r | r in qs :: !SameClient(r, q)
    ensures Only(qs, q) == []
  {
    if qs != [] {
      NoneOfClient(qs[..|qs| - 1], q);
    }
  }

  /** However many requests others have made, a client's first is admitted unless none ever is. */
  lemma FirstRequestAdmitted(l: Limits, qs: seq<Request>, q: Request)
    requires forall r | r in qs :: !SameClient(r, q)
    ensures Admits(l, After(l, qs), q) <==> 0 < l.maxRequests
  {
    DecisionsAreIndependent(l, qs, q);
    NoneOfClient(qs, q);
  }
}
