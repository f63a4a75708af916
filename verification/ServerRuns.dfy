/** Runs of the policy server: key loads, key removals and evaluations in any interleaving,
    with a clock that never goes back. */
module ServerRuns {
  import opened Common
  import opened TrustStore
  import opened Validator
  import opened Policy
  import opened DecisionEngine

  datatype Event =
    | LoadKey(node: string, key: Bytes)
    | RemoveKey(node: string)
    | Request(x: Payload, cei: CeiMetrics, t1: real, t2: real)

  datatype System = System(p: Params, c: Crypto, cfg: MamaConfig)

  datatype Server = Server(keys: Keys, seen: Seen)

  function Apply(sys: System, s: Server, e: Event): Server {
    match e
    case LoadKey(node, key) => s.(keys := Loaded(sys.c.isKey, s.keys, node, key))
    case RemoveKey(node) => s.(keys := Removed(s.keys, node))
    case Request(x, cei, t1, t2) =>
      s.(seen := Evaluation(sys.p, sys.c, sys.cfg, s.keys, s.seen, x, cei, t1, t2).1)
  }

  /** The server after the first `n` events. */
  function ServerAt(sys: System, events: seq<Event>, n: nat): Server
    requires n <= |events|
  {
    if n == 0 then Server(NO_KEYS, map[]) else Apply(sys, ServerAt(sys, events, n - 1), events[n - 1])
  }

  // Event `i` is a request that passes all checks but possibly the nonce's.
  ghost predicate Checked(sys: System, events: seq<Event>, i: nat) {
    && i < |events| && events[i].Request?
    && CheckToken(sys.p, sys.c, ServerAt(sys, events, i).keys, events[i].x, events[i].t1).Accepted?
  }

  // Event `i` is a request that token validation accepts.
  ghost predicate Validated(sys: System, events: seq<Event>, i: nat) {
    Checked(sys, events, i) && events[i].x.nonce !in ServerAt(sys, events, i).seen
  }

  function ResultAt(sys: System, events: seq<Event>, i: nat): PolicyResult
    requires i < |events| && events[i].Request?
  {
    var s, e := ServerAt(sys, events, i), events[i];
    Evaluation(sys.p, sys.c, sys.cfg, s.keys, s.seen, e.x, e.cei, e.t1, e.t2).0
  }

  ghost predicate Approved(sys: System, events: seq<Event>, i: nat) {
    i < |events| && events[i].Request? && ResultAt(sys, events, i).decision == Approve
  }

  /** Readings of a non-decreasing clock; the two of one request may differ. */
  ghost predicate Timely(events: seq<Event>) {
    && (forall i | 0 <= i < |events| && events[i].Request? :: events[i].t1 <= events[i].t2)
    && (forall i, j | 0 <= i < j < |events| && events[i].Request? && events[j].Request? :: events[i].t2 <= events[j].t1)
  }

  function Expiry(sys: System, x: Payload): Option<Number> {
    ExpOf(ClaimsIn(sys.c, x))
  }

  // ----- trust

  /** The trust-store operations among the first `n` events. */
  function Operations(events: seq<Event>, n: nat): seq<Operation>
    requires n <= |events|
  {
    if n == 0 then []
    else match events[n - 1]
         case LoadKey(node, key) => Operations(events, n - 1) + [Load(node, key)]
         case RemoveKey(node) => Operations(events, n - 1) + [Remove(node)]
         case Request(_, _, _, _) => Operations(events, n - 1)
  }

  lemma {:induction false} KeysFollowOperations(sys: System, events: seq<Event>, n: nat)
    requires n <= |events|
    ensures ServerAt(sys, events, n).keys == After(sys.c.isKey, Operations(events, n))
  {
    hide Evaluation, Loaded, Removed;
    if n > 0 {
      KeysFollowOperations(sys, events, n - 1);
      if !events[n - 1].Request? {
        var ops := Operations(events, n);
        assert ops[..|ops| - 1] == Operations(events, n - 1);
      }
    }
  }

  /** Whatever was loaded, removed or evaluated before, an approved request presented exactly
      the key that the last operation on its node loaded, and passed every check and gate. */
  lemma ApprovalNeedsLoadedKey(sys: System, events: seq<Event>, i: nat)
    requires Approved(sys, events, i)
    ensures var e := events[i];
      && (exists o :: LastLoad(sys.c.isKey, Operations(events, i), e.x.nodeId, KeyOf(sys.c, e.x), o))
      && (forall k | 0 <= k < |REASONS| ::
            Passes(k, sys.p, sys.c, ServerAt(sys, events, i).keys, ServerAt(sys, events, i).seen, e.x, e.t1))
      && (forall g | g in GATE_ORDER :: !Violated(sys.cfg, e.x.currentEdns, e.cei, g))
  {
    hide Violated, Evaluation, Trusted;
    var s, e := ServerAt(sys, events, i), events[i];
    DecisionIsFirstFailure(sys.p, sys.c, sys.cfg, s.keys, s.seen, e.x, e.cei, e.t1, e.t2);
    KeysFollowOperations(sys, events, i);
    TrustedExactly(sys.c.isKey, Operations(events, i), e.x.nodeId, KeyOf(sys.c, e.x));
    assert Passes(1, sys.p, sys.c, s.keys, s.seen, e.x, e.t1);
  }

  lemma ApprovedIsValidated(sys: System, events: seq<Event>, i: nat)
    requires Approved(sys, events, i)
    ensures Validated(sys, events, i)
  {
  }

  // ----- the nonce cache

  lemma SeenAfter(sys: System, events: seq<Event>, n: nat)
    requires n < |events|
    ensures ServerAt(sys, events, n + 1).seen ==
      if Validated(sys, events, n) then
        Remembered(sys.p, ServerAt(sys, events, n).seen, events[n].x.nonce, events[n].t2)
      else ServerAt(sys, events, n).seen
  {
  }

  /** Rejection by token validation leaves the cache unchanged; rejection by a gate has consumed
      the nonce. */
  lemma GateRejectionConsumesNonce(sys: System, events: seq<Event>, i: nat)
    requires i < |events| && events[i].Request? && sys.p.nonceExpiry >= 0.0
    ensures !Validated(sys, events, i) ==> ServerAt(sys, events, i + 1).seen == ServerAt(sys, events, i).seen
    ensures Validated(sys, events, i) ==> events[i].x.nonce in ServerAt(sys, events, i + 1).seen
    ensures Validated(sys, events, i) && !Approved(sys, events, i) ==>
      exists g: nat :: FirstViolated(sys.cfg, events[i].x.currentEdns, events[i].cei, g)
  {
    hide Violated;
    SeenAfter(sys, events, i);
    VerdictMeaning(sys.cfg, events[i].x.currentEdns, events[i].cei);
  }

  // Some request from `i` on and before `n` came too late for the nonce of request `i`.
  ghost predicate Forgotten(sys: System, events: seq<Event>, i: nat, n: nat)
    requires i < n <= |events| && events[i].Request?
  {
    exists j :: i <= j < n && events[j].Request? && events[j].t2 - events[i].t2 > sys.p.nonceExpiry
  }

  /** A nonce stays in the cache until some request is more than the nonce expiry later. */
  lemma {:induction false} NonceKept(sys: System, events: seq<Event>, i: nat, n: nat)
    requires Timely(events) && Validated(sys, events, i) && i < n <= |events|
    ensures var seen := ServerAt(sys, events, n).seen;
      (events[i].x.nonce in seen && events[i].t2 <= seen[events[i].x.nonce]) || Forgotten(sys, events, i, n)
  {
    hide Evaluation;
    SeenAfter(sys, events, n - 1);
    if i < n - 1 {
      NonceKept(sys, events, i, n - 1);
      assert Forgotten(sys, events, i, n - 1) ==> Forgotten(sys, events, i, n);
      assert events[n - 1].Request? ==> events[i].t2 <= events[n - 1].t1 <= events[n - 1].t2;
    }
  }

  /** A nonce accepted again is accepted more than the nonce expiry later. */
  lemma ReuseTakesLong(sys: System, events: seq<Event>, i: nat, j: nat)
    requires Timely(events) && i < j && Validated(sys, events, i) && Validated(sys, events, j)
    requires events[i].x.nonce == events[j].x.nonce
    ensures events[j].t1 - events[i].t1 > sys.p.nonceExpiry
  {
    hide Evaluation, CheckToken;
    NonceKept(sys, events, i, j);
    var m :| i <= m < j && events[m].Request? && events[m].t2 - events[i].t2 > sys.p.nonceExpiry;
    assert events[m].t2 <= events[j].t1 && events[i].t1 <= events[i].t2;
  }

  lemma CheckedWindow(sys: System, events: seq<Event>, i: nat)
    requires Checked(sys, events, i)
    ensures Expiry(sys, events[i].x).Some? && (Expiry(sys, events[i].x).value.Finite? || Expiry(sys, events[i].x).value.NaN?)
    ensures Expiry(sys, events[i].x).value.Finite? ==>
      var e := Expiry(sys, events[i].x).value.value;
      events[i].t1 - sys.p.skew <= e <= events[i].t1 + sys.p.bound + sys.p.skew
    ensures Get(ClaimsIn(sys.c, events[i].x), "nonce") == JStr(events[i].x.nonce)
  {
  }

  // The cache remembers for as long as a token can stay valid.
  predicate Safe(p: Params) {
    p.nonceExpiry >= p.bound + 2.0 * p.skew
  }

  /** An evicted nonce's token is past its expiry, beyond the skew, and so is rejected before
      the nonce step is reached, now and ever after. */
  lemma EvictedTokenHasExpired(sys: System, events: seq<Event>, i: nat, n: nat)
    requires Timely(events) && Safe(sys.p) && Validated(sys, events, i) && i < n < |events| && events[n].Request?
    requires events[i].x.nonce !in ServerAt(sys, events, n).seen
    requires Expiry(sys, events[i].x) != Some(NaN)
    ensures Expiry(sys, events[i].x).Some? && Less(Expiry(sys, events[i].x).value, events[n].t1 - sys.p.skew)
    ensures forall j | n <= j < |events| && events[j].Request? && Expiry(sys, events[j].x) == Expiry(sys, events[i].x) ::
      !Checked(sys, events, j)
  {
    hide Evaluation, CheckToken;
    NonceKept(sys, events, i, n);
    CheckedWindow(sys, events, i);
    var m :| i <= m < n && events[m].Request? && events[m].t2 - events[i].t2 > sys.p.nonceExpiry;
    assert events[m].t2 <= events[n].t1 && events[i].t1 <= events[i].t2;
    forall j | n <= j < |events| && events[j].Request? && Expiry(sys, events[j].x) == Expiry(sys, events[i].x)
      ensures !Checked(sys, events, j)
    {
      if Checked(sys, events, j) { CheckedWindow(sys, events, j); }
    }
  }

  /** With a safe nonce expiry, no nonce is accepted twice under one and the same finite expiry. */
  lemma NonceOnce(sys: System, events: seq<Event>, i: nat, j: nat)
    requires Timely(events) && Safe(sys.p) && i < j && Validated(sys, events, i) && Validated(sys, events, j)
    requires events[i].x.nonce == events[j].x.nonce && Expiry(sys, events[i].x) == Expiry(sys, events[j].x)
    ensures Expiry(sys, events[i].x) == Some(NaN)
  {
    hide Evaluation, CheckToken;
    ReuseTakesLong(sys, events, i, j);
    CheckedWindow(sys, events, i);
    CheckedWindow(sys, events, j);
  }

  // ----- exactly what the cache holds

  // The reading of the clock at which event `i` stores its nonce.
  function StoredAt(events: seq<Event>, i: nat): real {
    if i < |events| && events[i].Request? then events[i].t2 else 0.0
  }

  // Event `i` is a validated request with this nonce.
  ghost predicate Stores(sys: System, events: seq<Event>, nonce: string, i: nat) {
    Validated(sys, events, i) && events[i].x.nonce == nonce
  }

  // Event `i` put `nonce` into the cache, and no later one has evicted it before event `n`.
  ghost predicate Remembers(sys: System, events: seq<Event>, nonce: string, i: nat, n: nat) {
    && i < n && Stores(sys, events, nonce, i)
    && forall m: nat | i <= m < n && Validated(sys, events, m) ::
         StoredAt(events, m) - StoredAt(events, i) <= sys.p.nonceExpiry
  }

  // What event `n` does to one entry of the cache.
  lemma EntryAfter(sys: System, events: seq<Event>, nonce: string, n: nat)
    requires n < |events|
    ensures var before, after := ServerAt(sys, events, n).seen, ServerAt(sys, events, n + 1).seen;
      if !Validated(sys, events, n) then after == before
      else if Stores(sys, events, nonce, n) then
        && nonce !in before && (nonce in after <==> sys.p.nonceExpiry >= 0.0)
        && (nonce in after ==> after[nonce] == StoredAt(events, n))
      else
        && (nonce in after <==> nonce in before && StoredAt(events, n) - before[nonce] <= sys.p.nonceExpiry)
        && (nonce in after ==> after[nonce] == before[nonce])
  {
    hide Evaluation, CheckToken;
    SeenAfter(sys, events, n);
  }

  lemma {:induction false} RememberedIsCached(sys: System, events: seq<Event>, nonce: string, i: nat, n: nat)
    requires n <= |events| && Remembers(sys, events, nonce, i, n)
    ensures nonce in ServerAt(sys, events, n).seen && ServerAt(sys, events, n).seen[nonce] == StoredAt(events, i)
  {
    hide Validated, StoredAt, Stores, Apply;
    EntryAfter(sys, events, nonce, n - 1);
    assert Stores(sys, events, nonce, i) ==> Validated(sys, events, i) by { StoresValidated(sys, events, nonce, i); }
    if i < n - 1 {
      RememberedIsCached(sys, events, nonce, i, n - 1);
    }
  }

  lemma StoresValidated(sys: System, events: seq<Event>, nonce: string, i: nat)
    ensures Stores(sys, events, nonce, i) ==> Validated(sys, events, i)
  {
  }

  lemma {:induction false} CachedIsRemembered(sys: System, events: seq<Event>, nonce: string, n: nat) returns (i: nat)
    requires n <= |events| && nonce in ServerAt(sys, events, n).seen
    ensures Remembers(sys, events, nonce, i, n)
  {
    hide Validated, StoredAt, Stores, Apply;
    assert n > 0;
    EntryAfter(sys, events, nonce, n - 1);
    StoresValidated(sys, events, nonce, n - 1);
    if Stores(sys, events, nonce, n - 1) {
      i := n - 1;
    } else {
      i := CachedIsRemembered(sys, events, nonce, n - 1);
      RememberedIsCached(sys, events, nonce, i, n - 1);
    }
  }

  /** A nonce is in the cache exactly when some validated request put it there and none since came
      more than the nonce expiry later; it is stored with the time of that request. */
  lemma CachedExactly(sys: System, events: seq<Event>, nonce: string, n: nat)
    requires n <= |events|
    ensures var seen := ServerAt(sys, events, n).seen;
      && (nonce in seen <==> exists i: nat :: Remembers(sys, events, nonce, i, n))
      && forall i: nat | Remembers(sys, events, nonce, i, n) :: nonce in seen && seen[nonce] == StoredAt(events, i)
  {
    hide Remembers;
    if nonce in ServerAt(sys, events, n).seen {
      var i := CachedIsRemembered(sys, events, nonce, n);
    }
    forall i: nat | Remembers(sys, events, nonce, i, n)
      ensures nonce in ServerAt(sys, events, n).seen && ServerAt(sys, events, n).seen[nonce] == StoredAt(events, i)
    {
      RememberedIsCached(sys, events, nonce, i, n);
    }
  }

  /** So a request that passes all other checks is refused exactly for a nonce accepted before and
      not evicted since. */
  lemma RefusedForNonceExactly(sys: System, events: seq<Event>, j: nat)
    requires Checked(sys, events, j)
    ensures !Validated(sys, events, j) <==> exists i: nat :: Remembers(sys, events, events[j].x.nonce, i, j)
  {
    hide Remembers, CheckToken;
    CachedExactly(sys, events, events[j].x.nonce, j);
  }

  // ----- no token twice

  /** No JWS string passes validation twice. */
  ghost predicate TokensOnce(sys: System, events: seq<Event>) {
    forall i: nat, j: nat | i < j && Validated(sys, events, i) && Validated(sys, events, j) :: events[i].x.jws != events[j].x.jws
  }

  // No validated token's expiry is NaN, which passes both comparisons at any time.
  ghost predicate ExpiriesAreNumbers(sys: System, events: seq<Event>) {
    forall i: nat | Validated(sys, events, i) :: Expiry(sys, events[i].x) != Some(NaN)
  }

  lemma SafeMeansOnce(sys: System, events: seq<Event>)
    requires Timely(events) && Safe(sys.p) && ExpiriesAreNumbers(sys, events)
    ensures TokensOnce(sys, events)
  {
    hide Evaluation, CheckToken;
    forall i: nat, j: nat | i < j && Validated(sys, events, i) && Validated(sys, events, j) ensures events[i].x.jws != events[j].x.jws {
      if events[i].x.jws == events[j].x.jws {
        CheckedWindow(sys, events, i);
        CheckedWindow(sys, events, j);
        NonceOnce(sys, events, i, j);
        assert false;
      }
    }
  }

  /** Each token gets at most one APPROVE in any run, under the parameters of the file. */
  lemma AtMostOneApproval(sys: System, events: seq<Event>, i: nat, j: nat)
    requires sys.p == DEFAULT_PARAMS && Timely(events) && ExpiriesAreNumbers(sys, events)
    requires i < j && Approved(sys, events, i) && Approved(sys, events, j)
    ensures events[i].x.jws != events[j].x.jws
  {
    hide Evaluation, CheckToken;
    SafeMeansOnce(sys, events);
    ApprovedIsValidated(sys, events, i);
    ApprovedIsValidated(sys, events, j);
  }

  // ----- the same answers as a cache that never forgets

  /** The nonces a never-forgetting server would have accepted in the first `n` events. */
  ghost function EverAccepted(sys: System, events: seq<Event>, n: nat): set<string>
    requires n <= |events|
  {
    if n == 0 then {}
    else
      var before := EverAccepted(sys, events, n - 1);
      if Checked(sys, events, n - 1) && events[n - 1].x.nonce !in before then before + {events[n - 1].x.nonce} else before
  }

  // Requests that pass the checks and carry the same nonce carry the same, real, expiry.
  ghost predicate NonceFixesExpiry(sys: System, events: seq<Event>) {
    forall i: nat, j: nat | Checked(sys, events, i) && Checked(sys, events, j) && events[i].x.nonce == events[j].x.nonce ::
      Expiry(sys, events[i].x) == Expiry(sys, events[j].x) != Some(NaN)
  }

  lemma {:induction false} SeenWasAccepted(sys: System, events: seq<Event>, n: nat)
    requires n <= |events|
    ensures forall k | k in ServerAt(sys, events, n).seen :: exists i: nat :: i < n && Validated(sys, events, i) && events[i].x.nonce == k
  {
    hide Evaluation, CheckToken;
    if n > 0 {
      SeenWasAccepted(sys, events, n - 1);
      SeenAfter(sys, events, n - 1);
      forall k | k in ServerAt(sys, events, n).seen
        ensures exists i: nat :: i < n && Validated(sys, events, i) && events[i].x.nonce == k
      {
        if k in ServerAt(sys, events, n - 1).seen {
          var i: nat :| i < n - 1 && Validated(sys, events, i) && events[i].x.nonce == k;
        }
      }
    }
  }

  lemma {:induction false} AcceptedSoFar(sys: System, events: seq<Event>, n: nat)
    requires Timely(events) && Safe(sys.p) && NonceFixesExpiry(sys, events) && n <= |events|
    ensures forall k :: k in EverAccepted(sys, events, n) <==> exists i: nat :: i < n && Validated(sys, events, i) && events[i].x.nonce == k
    decreases n, 0
  {
    hide Evaluation, CheckToken;
    if n > 0 {
      AcceptedSoFar(sys, events, n - 1);
      ForgettingIsHarmless(sys, events, n - 1);
      forall k ensures k in EverAccepted(sys, events, n) <==> exists i: nat :: i < n && Validated(sys, events, i) && events[i].x.nonce == k {
        if i: nat :| i < n && Validated(sys, events, i) && events[i].x.nonce == k {
          assert i < n - 1 || i == n - 1;
        }
      }
    }
  }

  /** In every run the forgetting cache gives the answer of a set that never forgets. */
  lemma ForgettingIsHarmless(sys: System, events: seq<Event>, n: nat)
    requires Timely(events) && Safe(sys.p) && NonceFixesExpiry(sys, events) && n < |events|
    ensures Validated(sys, events, n) <==>
      Checked(sys, events, n) && events[n].x.nonce !in EverAccepted(sys, events, n)
    decreases n, 1
  {
    hide Evaluation, CheckToken;
    AcceptedSoFar(sys, events, n);
    if Checked(sys, events, n) {
      var nonce := events[n].x.nonce;
      SeenWasAccepted(sys, events, n);
      if Validated(sys, events, n) && nonce in EverAccepted(sys, events, n) {
        var i: nat :| i < n && Validated(sys, events, i) && events[i].x.nonce == nonce;
        NonceOnce(sys, events, i, n);
        assert false;
      }
    }
  }
}
