/** The session state machine, twice: `state_machine.py` and its mirror `nhp_state_machine.rs`. */
module SessionMachines {
  import opened Common

  datatype Phase = Idle | KnockSent | PolicyEval | TunnelProvisioned | SessionActive | Terminated

  datatype Operation =
    | Knock(node: string)
    | Evaluate
    | Provision
    | Activate(session: string)
    | Terminate(reason: string)
    | Reset

  // The five fields of either machine.
  datatype Machine = Machine(
    phase: Phase, reason: Option<string>, session: Option<string>, node: Option<string>, count: nat)

  const NEW := Machine(Idle, None, None, None, 0)

  // `VALID_TRANSITIONS` of the Python machine.
  function ValidTransitions(phase: Phase): set<Phase> {
    match phase
    case Idle => {KnockSent, Terminated}
    case KnockSent => {PolicyEval, Terminated}
    case PolicyEval => {TunnelProvisioned, Terminated}
    case TunnelProvisioned => {SessionActive, Terminated}
    case SessionActive => {Terminated}
    case Terminated => {Idle}
  }

  function Transition(m: Machine, target: Phase): (Machine, bool) {
    if target in ValidTransitions(m.phase) then (m.(phase := target, count := m.count + 1), true) else (m, false)
  }

  /** One operation of the Python machine: the machine it leaves, and whether it did not raise. */
  function PythonStep(m: Machine, op: Operation): (Machine, bool) {
    match op
    case Knock(node) => if m.phase != Idle then (m, false) else Transition(m.(node := Some(node)), KnockSent)
    case Evaluate => Transition(m, PolicyEval)
    case Provision => Transition(m, TunnelProvisioned)
    case Activate(session) => Transition(m.(session := Some(session)), SessionActive)
    case Terminate(reason) => Transition(m.(reason := Some(reason)), Terminated)
    case Reset => if m.phase != Terminated && m.phase != Idle then (m, false) else (NEW, true)
  }

  /** One operation of the Rust machine: the machine it leaves, and whether it returned `Ok`. */
  function RustStep(m: Machine, op: Operation): (Machine, bool) {
    match op
    case Knock(node) =>
      if m.phase == Terminated || m.phase != Idle then (m, false)
      else (m.(node := Some(node), phase := KnockSent, count := m.count + 1), true)
    case Evaluate =>
      if m.phase == Terminated || m.phase != KnockSent then (m, false)
      else (m.(phase := PolicyEval, count := m.count + 1), true)
    case Provision =>
      if m.phase == Terminated || m.phase != PolicyEval then (m, false)
      else (m.(phase := TunnelProvisioned, count := m.count + 1), true)
    case Activate(session) =>
      if m.phase == Terminated || m.phase != TunnelProvisioned then (m, false)
      else (m.(session := Some(session), phase := SessionActive, count := m.count + 1), true)
    case Terminate(reason) =>
      if m.phase == Terminated then (m, false)
      else (m.(reason := Some(reason), phase := Terminated, count := m.count + 1), true)
    case Reset => (NEW, true)
  }

  class PythonMachine {
    var phase: Phase
    var reason: Option<string>
    var session: Option<string>
    var node: Option<string>
    var count: nat

    ghost function Contents(): Machine
      reads this
    {
      Machine(phase, reason, session, node, count)
    }

    constructor ()
      ensures Contents() == NEW
      ensures phase == Idle && reason == None && session == None && node == None && count == 0
    {
      phase, reason, session, node, count := Idle, None, None, None, 0;
    }

    method Move(target: Phase) returns (ok: bool)
      modifies this
      ensures (Contents(), ok) == Transition(old(Contents()), target)
    {
      if target !in ValidTransitions(phase) {
        return false;
      }
      phase := target;
      count := count + 1;
      ok := true;
    }

    method ProcessKnk(nodeId: string) returns (ok: bool)
      modifies this
      ensures (Contents(), ok) == PythonStep(old(Contents()), Knock(nodeId))
    {
      if phase != Idle {
        return false;
      }
      node := Some(nodeId);
      ok := Move(KnockSent);
    }

    method EvaluatePolicy() returns (ok: bool)
      modifies this
      ensures (Contents(), ok) == PythonStep(old(Contents()), Evaluate)
    {
      ok := Move(PolicyEval);
    }

    method ProvisionTunnel() returns (ok: bool)
      modifies this
      ensures (Contents(), ok) == PythonStep(old(Contents()), Provision)
    {
      ok := Move(TunnelProvisioned);
    }

    method ActivateSession(sessionId: string) returns (ok: bool)
      modifies this
      ensures (Contents(), ok) == PythonStep(old(Contents()), Activate(sessionId))
    {
      session := Some(sessionId);
      ok := Move(SessionActive);
    }

    method Terminate(why: string) returns (ok: bool)
      modifies this
      ensures (Contents(), ok) == PythonStep(old(Contents()), Operation.Terminate(why))
    {
      reason := Some(why);
      ok := Move(Terminated);
    }

    method Reset() returns (ok: bool)
      modifies this
      ensures (Contents(), ok) == PythonStep(old(Contents()), Operation.Reset)
      ensures ok ==> phase == Idle && reason == None && session == None && node == None && count == 0
    {
      if phase != Terminated && phase != Idle {
        return false;
      }
      phase, reason, session, node, count := Idle, None, None, None, 0;
      ok := true;
    }
  }

  class RustMachine {
    var phase: Phase
    var reason: Option<string>
    var session: Option<string>
    var node: Option<string>
    var count: nat

    ghost function Contents(): Machine
      reads this
    {
      Machine(phase, reason, session, node, count)
    }

    constructor ()
      ensures Contents() == NEW
      ensures phase == Idle && reason == None && session == None && node == None && count == 0
    {
      phase, reason, session, node, count := Idle, None, None, None, 0;
    }

    method Move(target: Phase)
      modifies this
      ensures Contents() == old(Contents()).(phase := target, count := old(count) + 1)
    {
      phase := target;
      count := count + 1;
    }

    method ProcessKnk(nodeId: string) returns (ok: bool)
      modifies this
      ensures (Contents(), ok) == RustStep(old(Contents()), Knock(nodeId))
    {
      if phase == Terminated {
        return false;
      }
      if phase != Idle {
        return false;
      }
      node := Some(nodeId);
      Move(KnockSent);
      ok := true;
    }

    method EvaluatePolicy() returns (ok: bool)
      modifies this
      ensures (Contents(), ok) == RustStep(old(Contents()), Evaluate)
    {
      if phase == Terminated {
        return false;
      }
      if phase != KnockSent {
        return false;
      }
      Move(PolicyEval);
      ok := true;
    }

    method ProvisionTunnel() returns (ok: bool)
      modifies this
      ensures (Contents(), ok) == RustStep(old(Contents()), Provision)
    {
      if phase == Terminated {
        return false;
      }
      if phase != PolicyEval {
        return false;
      }
      Move(TunnelProvisioned);
      ok := true;
    }

    method ActivateSession(sessionId: string) returns (ok: bool)
      modifies this
      ensures (Contents(), ok) == RustStep(old(Contents()), Activate(sessionId))
    {
      if phase == Terminated {
        return false;
      }
      if phase != TunnelProvisioned {
        return false;
      }
      session := Some(sessionId);
      Move(SessionActive);
      ok := true;
    }

    method Terminate(why: string) returns (ok: bool)
      modifies this
      ensures (Contents(), ok) == RustStep(old(Contents()), Operation.Terminate(why))
    {
      if phase == Terminated {
        return false;
      }
      reason := Some(why);
      Move(Terminated);
      ok := true;
    }

    method Reset()
      modifies this
      ensures (Contents(), true) == RustStep(old(Contents()), Operation.Reset)
      ensures phase == Idle && reason == None && session == None && node == None && count == 0
    {
      phase, reason, session, node, count := Idle, None, None, None, 0;
    }
  }

  // ----- runs of both machines on the same operations

  function PythonAfter(ops: seq<Operation>): Machine {
    if ops == [] then NEW else PythonStep(PythonAfter(ops[..|ops| - 1]), ops[|ops| - 1]).0
  }

  function RustAfter(ops: seq<Operation>): Machine {
    if ops == [] then NEW else RustStep(RustAfter(ops[..|ops| - 1]), ops[|ops| - 1]).0
  }

  // Operation `i` succeeds on the Python machine.
  predicate PythonOk(ops: seq<Operation>, i: nat)
    requires i < |ops|
  {
    PythonStep(PythonAfter(ops[..i]), ops[i]).1
  }

  predicate RustOk(ops: seq<Operation>, i: nat)
    requires i < |ops|
  {
    RustStep(RustAfter(ops[..i]), ops[i]).1
  }

  /** No reset is attempted in the middle of a session. */
  predicate ResetsAtRest(ops: seq<Operation>) {
    forall i | 0 <= i < |ops| && ops[i].Reset? :: PythonAfter(ops[..i]).phase == Idle || PythonAfter(ops[..i]).phase == Terminated
  }

  // The fields on which the machines agree even after failed operations.
  predicate Agree(a: Machine, b: Machine) {
    a.phase == b.phase && a.node == b.node && a.count == b.count
  }

  /** From machines in the same phase the two implementations differ on success only for a reset
      in the middle of a session. */
  lemma StepAgreesExactly(a: Machine, b: Machine, op: Operation)
    requires Agree(a, b)
    ensures PythonStep(a, op).1 == RustStep(b, op).1 <==> !(op.Reset? && a.phase != Idle && a.phase != Terminated)
    ensures PythonStep(a, op).1 == RustStep(b, op).1 ==> Agree(PythonStep(a, op).0, RustStep(b, op).0)
  {
  }

  lemma {:induction false} SamePhases(ops: seq<Operation>)
    requires ResetsAtRest(ops)
    ensures Agree(PythonAfter(ops), RustAfter(ops))
  {
    if ops != [] {
      var before := ops[..|ops| - 1];
      assert forall i | 0 <= i < |before| :: before[i] == ops[i] && before[..i] == ops[..i];
      SamePhases(before);
      StepAgreesExactly(PythonAfter(before), RustAfter(before), ops[|ops| - 1]);
    }
  }

  lemma PrefixFacts(ops: seq<Operation>, before: seq<Operation>)
    requires ops != [] && before == ops[..|ops| - 1]
    ensures forall i | 0 <= i < |before| :: before[i] == ops[i] && before[..i] == ops[..i]
    ensures forall i | 0 <= i < |before| :: PythonOk(before, i) == PythonOk(ops, i) && RustOk(before, i) == RustOk(ops, i)
  {
  }

  ghost predicate SameAnswers(ops: seq<Operation>) {
    forall i | 0 <= i < |ops| :: PythonOk(ops, i) == RustOk(ops, i)
  }

  /** The machines report the same successes on a sequence of operations exactly when it never
      resets in the middle of a session; then phase, node and count agree at the end too. */
  lemma {:induction false} MachinesAgreeExactly(ops: seq<Operation>)
    ensures ResetsAtRest(ops) <==> SameAnswers(ops)
    ensures ResetsAtRest(ops) ==> Agree(PythonAfter(ops), RustAfter(ops))
  {
    hide PythonStep, RustStep;
    if ResetsAtRest(ops) {
      SamePhases(ops);
    }
    if ops != [] {
      var n := |ops| - 1;
      var before := ops[..n];
      PrefixFacts(ops, before);
      MachinesAgreeExactly(before);
      assert SameAnswers(ops) <==> SameAnswers(before) && PythonOk(ops, n) == RustOk(ops, n);
      var atRest := ops[n].Reset? ==> PythonAfter(before).phase == Idle || PythonAfter(before).phase == Terminated;
      assert ResetsAtRest(ops) <==> ResetsAtRest(before) && atRest;
      if ResetsAtRest(before) {
        StepAgreesExactly(PythonAfter(before), RustAfter(before), ops[n]);
      }
    }
  }

  lemma SuccessIsTheSame(m: Machine, op: Operation)
    requires PythonStep(m, op).1
    ensures PythonStep(m, op) == RustStep(m, op)
  {
  }

  /** On runs in which nothing fails, all five fields agree. */
  lemma {:induction false} ErrorFreeRunsAgree(ops: seq<Operation>)
    requires forall i | 0 <= i < |ops| :: PythonOk(ops, i)
    ensures PythonAfter(ops) == RustAfter(ops)
  {
    hide PythonStep, RustStep;
    if ops != [] {
      var n := |ops| - 1;
      PrefixFacts(ops, ops[..n]);
      ErrorFreeRunsAgree(ops[..n]);
      assert PythonOk(ops, n);
      SuccessIsTheSame(PythonAfter(ops[..n]), ops[n]);
    }
  }

  /** The remaining difference: a failed activation or termination leaves the Rust machine as it
      was, while the Python machine has already recorded the session or the reason. */
  lemma FailuresDiffer(m: Machine, op: Operation)
    requires !PythonStep(m, op).1
    ensures PythonStep(m, op).0 == RustStep(m, op).0 <==>
      match op
      case Activate(session) => m.session == Some(session)
      case Terminate(reason) => m.reason == Some(reason)
      case Reset => m == NEW
      case _ => true
  {
  }

  /** A termination succeeds from every phase but the terminated one, on both machines. */
  lemma TerminatesExactly(m: Machine, reason: string)
    ensures PythonStep(m, Terminate(reason)).1 <==> m.phase != Terminated
    ensures RustStep(m, Terminate(reason)).1 <==> m.phase != Terminated
  {
    assert forall phase :: Terminated in ValidTransitions(phase) <==> phase != Terminated;
  }

  // ----- what a session has gone through

  datatype Kind = Knocked | Evaluated | Provisioned | Activated | Ended

  function KindOf(op: Operation): Kind
    requires !op.Reset?
  {
    match op
    case Knock(_) => Knocked
    case Evaluate => Evaluated
    case Provision => Provisioned
    case Activate(_) => Activated
    case Terminate(_) => Ended
  }

  /** The successful operations since the last successful reset. */
  function Progress(ops: seq<Operation>): seq<Kind> {
    if ops == [] then []
    else
      var n := |ops| - 1;
      if !PythonOk(ops, n) then Progress(ops[..n])
      else if ops[n].Reset? then []
      else Progress(ops[..n]) + [KindOf(ops[n])]
  }

  const FULL := [Knocked, Evaluated, Provisioned, Activated]

  function Steps(phase: Phase): nat {
    match phase case Idle => 0 case KnockSent => 1 case PolicyEval => 2 case TunnelProvisioned => 3 case _ => 4
  }

  /** What a machine's phase and count say about the operations `done` since its last reset. */
  predicate ProgressFits(m: Machine, done: seq<Kind>) {
    && m.count == |done| <= 5
    && (m.phase != Terminated ==> done == FULL[..Steps(m.phase)])
    && (m.phase == Terminated ==> done != [] && |done| <= 5 && done == FULL[..|done| - 1] + [Ended])
    && (m.phase == SessionActive ==> done == FULL)
  }

  lemma OneMoreFits(m: Machine, op: Operation, done: seq<Kind>)
    requires ProgressFits(m, done) && PythonStep(m, op).1 && !op.Reset?
    ensures ProgressFits(PythonStep(m, op).0, done + [KindOf(op)])
  {
    assert FULL[..4] == FULL;
    var k := Steps(m.phase);
    if op.Terminate? {
      assert (done + [Ended])[..k] == done;
    } else {
      assert FULL[..k + 1] == FULL[..k] + [FULL[k]];
    }
  }

  lemma FailureOrResetFits(m: Machine, op: Operation, done: seq<Kind>)
    requires ProgressFits(m, done)
    ensures !PythonStep(m, op).1 ==> ProgressFits(PythonStep(m, op).0, done)
    ensures PythonStep(m, op).1 && op.Reset? ==> ProgressFits(PythonStep(m, op).0, [])
  {
  }

  /** Since the last reset the successful operations are a prefix of knock, evaluate, provision,
      activate, with at most a final terminate: an active session needed all four, in order, and
      at most five transitions are ever counted. */
  lemma {:induction false} ProgressIsPrefix(ops: seq<Operation>)
    ensures ProgressFits(PythonAfter(ops), Progress(ops))
  {
    if ops != [] {
      hide PythonStep, ProgressFits;
      var n := |ops| - 1;
      ProgressIsPrefix(ops[..n]);
      var m, done := PythonAfter(ops[..n]), Progress(ops[..n]);
      FailureOrResetFits(m, ops[n], done);
      if PythonOk(ops, n) && !ops[n].Reset? {
        OneMoreFits(m, ops[n], done);
      }
    }
  }

  /** Whether `op` can follow the operations `done` since the last reset. */
  predicate CanFollow(done: seq<Kind>, op: Operation) {
    match op
    case Terminate(_) => Ended !in done
    case Reset => done == [] || Ended in done
    case _ => done + [KindOf(op)] <= FULL
  }

  lemma FitsExactly(m: Machine, done: seq<Kind>, op: Operation)
    requires ProgressFits(m, done)
    ensures PythonStep(m, op).1 <==> CanFollow(done, op)
    ensures RustStep(m, op).1 <==> op.Reset? || CanFollow(done, op)
  {
    assert FULL[..4] == FULL && Ended !in FULL;
    if m.phase == Terminated {
      assert done[|done| - 1] == Ended;
      assert forall k :: !(done + [k] <= FULL) by {
        forall k ensures (done + [k])[|done| - 1] == Ended {
        }
      }
    } else {
      assert forall k | k in done :: k in FULL;
      if !op.Reset? && !op.Terminate? && |done| < 4 {
        assert (done + [KindOf(op)])[|done|] == KindOf(op);
        assert FULL[..|done| + 1] == done + [FULL[|done|]];
      }
    }
  }

  /** An operation succeeds exactly when it is the next one in order of a session, a termination of
      one that has not ended, or a reset with none in progress; the Rust machine resets at any time. */
  lemma SucceedsByHistory(ops: seq<Operation>, op: Operation)
    ensures PythonStep(PythonAfter(ops), op).1 <==> CanFollow(Progress(ops), op)
    ensures ResetsAtRest(ops) ==> (RustStep(RustAfter(ops), op).1 <==> op.Reset? || CanFollow(Progress(ops), op))
  {
    ProgressIsPrefix(ops);
    FitsExactly(PythonAfter(ops), Progress(ops), op);
    if ResetsAtRest(ops) {
      SamePhases(ops);
      SamePhaseSameAnswer(PythonAfter(ops), RustAfter(ops), op);
    }
  }

  lemma SamePhaseSameAnswer(a: Machine, b: Machine, op: Operation)
    requires a.phase == b.phase
    ensures RustStep(a, op).1 == RustStep(b, op).1
  {
  }

  // ----- what the recorded fields say

  datatype Field = NodeField | SessionField | ReasonField

  function Content(m: Machine, f: Field): Option<string> {
    match f case NodeField => m.node case SessionField => m.session case ReasonField => m.reason
  }

  // What `op` records in the field, if anything.
  function Written(op: Operation, f: Field): Option<string> {
    match op
    case Knock(node) => if f == NodeField then Some(node) else None
    case Activate(session) => if f == SessionField then Some(session) else None
    case Terminate(reason) => if f == ReasonField then Some(reason) else None
    case _ => None
  }

  function MachineAfter(python: bool, ops: seq<Operation>): Machine {
    if python then PythonAfter(ops) else RustAfter(ops)
  }

  predicate Ok(python: bool, ops: seq<Operation>, i: nat)
    requires i < |ops|
  {
    if python then PythonOk(ops, i) else RustOk(ops, i)
  }

  /** Operation `i` records its argument in the field: if it succeeds, and on the Python machine also
      if it is a failed activation or termination. */
  predicate Writes(python: bool, ops: seq<Operation>, i: nat, f: Field)
    requires i < |ops|
  {
    Written(ops[i], f).Some? && (Ok(python, ops, i) || (python && f != NodeField))
  }

  // Operation `i` was the last to write the field, it wrote `v`, and nothing has been reset since.
  ghost predicate LastWrite(python: bool, ops: seq<Operation>, f: Field, v: string, i: nat) {
    && i < |ops| && Writes(python, ops, i, f) && Written(ops[i], f) == Some(v)
    && forall j | i < j < |ops| :: !Writes(python, ops, j, f) && !(ops[j].Reset? && Ok(python, ops, j))
  }

  lemma FieldStep(python: bool, ops: seq<Operation>, f: Field, n: nat)
    requires |ops| == n + 1
    ensures Content(MachineAfter(python, ops), f) ==
      if ops[n].Reset? && Ok(python, ops, n) then None
      else if Writes(python, ops, n, f) then Written(ops[n], f)
      else Content(MachineAfter(python, ops[..n]), f)
  {
  }

  lemma LastWriteStep(python: bool, ops: seq<Operation>, f: Field, v: string, i: nat, n: nat)
    requires |ops| == n + 1
    ensures LastWrite(python, ops[..n], f, v, i) ==> i < n
    ensures LastWrite(python, ops, f, v, i) <==>
      if i == n then Writes(python, ops, n, f) && Written(ops[n], f) == Some(v)
      else LastWrite(python, ops[..n], f, v, i) && !Writes(python, ops, n, f) && !(ops[n].Reset? && Ok(python, ops, n))
  {
    hide PythonOk, RustOk;
    PrefixFacts(ops, ops[..n]);
  }

  /** On either machine the node, session or termination reason recorded is that of the last operation
      since the last reset that wrote the field. */
  lemma {:induction false} FieldsTellHistory(python: bool, ops: seq<Operation>, f: Field, v: string)
    ensures Content(MachineAfter(python, ops), f) == Some(v) <==> exists i: nat :: LastWrite(python, ops, f, v, i)
  {
    hide LastWrite, Writes, Ok, Content, PythonStep, RustStep;
    if ops == [] {
      NothingWritten(python, f, v);
    } else {
      var n := |ops| - 1;
      FieldsTellHistory(python, ops[..n], f, v);
      FieldStep(python, ops, f, n);
      WritesSomething(python, ops, n, f);
      LastWriteStep(python, ops, f, v, n, n);
      forall i: nat | i != n ensures LastWrite(python, ops, f, v, i) <==>
        LastWrite(python, ops[..n], f, v, i) && !Writes(python, ops, n, f) && !(ops[n].Reset? && Ok(python, ops, n))
      {
        LastWriteStep(python, ops, f, v, i, n);
      }
    }
  }

  lemma NothingWritten(python: bool, f: Field, v: string)
    ensures Content(MachineAfter(python, []), f) == None && forall i: nat :: !LastWrite(python, [], f, v, i)
  {
  }

  lemma WritesSomething(python: bool, ops: seq<Operation>, i: nat, f: Field)
    requires i < |ops|
    ensures Writes(python, ops, i, f) ==> Written(ops[i], f).Some? && !ops[i].Reset?
  {
  }
}
