/** The lockout policy at the door: which calls it let in, and what it said to the others. */
module RegistryGates {
  import opened Core
  import opened Handles
  import opened Lockout
  import opened Registry

  /** The recorded questions lie between the beginning of the call and now, in order; the one
      about the key was asked with the name that the handle had in the snapshot. */
  ghost predicate GateOk(sh: Shared, op: Op, lo: nat, gate: Gate) {
    && gate.since <= |sh.log|
    && (gate.vault.Some? ==> gate.since <= gate.vault.value <= |sh.log|)
    && (gate.key.Some? ==>
          var test := gate.key.value;
          && gate.vault.Some? && gate.vault.value <= test.asked < |sh.log|
          && sh.log[test.asked] == Ask(test.name, test.now)
          && (op.Rotate? || op.WithKey?) && lo <= test.seen < |sh.history|
          && op.id in sh.history[test.seen] && sh.history[test.seen][op.id].name == test.name)
  }

  /** What the policy answered. */
  ghost predicate WasDown(st: Setup, sh: Shared, gate: Gate) {
    gate.vault.Some? && gate.vault.value <= |sh.log| && Down(st, sh.log[..gate.vault.value])
  }

  ghost predicate WasLocked(st: Setup, sh: Shared, gate: Gate) {
    && gate.key.Some? && gate.key.value.asked <= |sh.log|
    && KeyLocked(st, sh.log[..gate.key.value.asked], gate.key.value.name, gate.key.value.now)
  }

  /** All the questions that the operation asks have been asked, and the answers let it in. */
  ghost predicate LetIn(st: Setup, sh: Shared, op: Op, gate: Gate) {
    && (gate.vault.Some? <==> !op.Unregister?) && (gate.key.Some? <==> op.Rotate? || op.WithKey?)
    && !WasDown(st, sh, gate) && !WasLocked(st, sh, gate)
  }

  /** The outcome agrees with the answers: a call is refused for a lockout exactly if it was
      told of one, and goes no further. */
  ghost predicate Obeys(st: Setup, sh: Shared, op: Op, gate: Gate, outcome: Outcome) {
    match outcome
    case Refused(VaultDown) => !op.Unregister? && gate.key.None? && WasDown(st, sh, gate)
    case Refused(KeyIsLocked) =>
      gate.vault.Some? && gate.key.Some? && !WasDown(st, sh, gate) && WasLocked(st, sh, gate)
    case Refused(NotFound) =>
      LetIn(st, sh, op, gate) || (!op.Unregister? && gate.vault.Some? && gate.key.None? && !WasDown(st, sh, gate))
    case _ => LetIn(st, sh, op, gate)
  }

  ghost predicate PcGate(st: Setup, sh: Shared, pc: Pc) {
    match pc
    case Idle => true
    case Begun(op, _, _, gate) => !op.Unregister? && gate.vault.None? && gate.key.None?
    case Admitted(op, _, _, gate) =>
      !op.Unregister? && gate.vault.Some? && gate.key.None? && !WasDown(st, sh, gate)
    case Snapshot(op, _, _, gate, _, _) =>
      !op.Unregister? && gate.vault.Some? && gate.key.None? && !WasDown(st, sh, gate)
    case Preparing(op, _, _, gate) => LetIn(st, sh, op, gate)
    case Prepared(op, _, _, gate, _) => LetIn(st, sh, op, gate)
    case Reading(op, _, _, gate, at, _) => LetIn(st, sh, op, gate) && gate.key.Some? && gate.key.value.seen == at
    case Waiting(op, _, _, gate, _) => LetIn(st, sh, op, gate)
    case Holding(op, _, _, gate, _) => LetIn(st, sh, op, gate)
    case Loaded(op, _, _, gate, _, _) => LetIn(st, sh, op, gate)
    case Leaving(op, _, _, gate, _, outcome) => Obeys(st, sh, op, gate, outcome) && !outcome.Saw?
    case Done(op, _, _, gate, at, outcome) =>
      Obeys(st, sh, op, gate, outcome) && (outcome.Saw? ==> gate.key.Some? && gate.key.value.seen == at)
  }

  ghost predicate Gated(st: Setup, sh: Shared, pc: Pc) {
    !pc.Idle? ==> GateOk(sh, pc.op, pc.lo, pc.gate) && PcGate(st, sh, pc)
  }

  ghost predicate AllGated(st: Setup, s: State) {
    forall t: ThreadId :: Gated(st, s.sh, PcOf(s, t))
  }

  /** Policy calls and versions are only ever added. */
  ghost predicate Longer(sh: Shared, sh': Shared) {
    sh.log <= sh'.log && sh.history <= sh'.history
  }

  lemma StaysGated(st: Setup, sh: Shared, sh': Shared, pc: Pc)
    requires Gated(st, sh, pc) && Longer(sh, sh')
    ensures Gated(st, sh', pc)
  {
    if !pc.Idle? {
      assert forall n :: 0 <= n <= |sh.log| ==> sh'.log[..n] == sh.log[..n];
    }
  }

  lemma MovesLonger(st: Setup, sh: Shared, pc: Pc, a: Action, sh': Shared, pc': Pc)
    requires Moves(st, sh, pc, a, sh', pc')
    ensures Longer(sh, sh')
  {
  }

  /** Steps that begin, or ask for the vault. */
  lemma FirstSteps(st: Setup, sh: Shared, pc: Pc, a: Action, sh': Shared, pc': Pc)
    requires Gated(st, sh, pc) && Moves(st, sh, pc, a, sh', pc') && (a.Call? || a.TestVault?)
    ensures Gated(st, sh', pc')
  {
    assert sh.log[..|sh.log|] == sh.log;
  }

  /** The check on the snapshot, which may ask for the key. */
  lemma CheckingStep(st: Setup, sh: Shared, pc: Pc, a: Action, sh': Shared, pc': Pc)
    requires SharedOk(st, sh) && ThreadOk(st, sh, pc) && Gated(st, sh, pc) && Moves(st, sh, pc, a, sh', pc')
    requires a.CheckSnapshot?
    ensures Gated(st, sh', pc')
  {
    assert sh'.log[..|sh.log|] == sh.log;
    assert forall n :: 0 <= n <= |sh.log| ==> sh'.log[..n] == sh.log[..n];
  }

  /** Steps that go on with the answers they have. */
  lemma OtherSteps(st: Setup, sh: Shared, pc: Pc, a: Action, sh': Shared, pc': Pc)
    requires ThreadOk(st, sh, pc) && Gated(st, sh, pc) && Moves(st, sh, pc, a, sh', pc')
    requires !a.Call? && !a.TestVault? && !a.CheckSnapshot?
    ensures Gated(st, sh', pc')
  {
    MovesLonger(st, sh, pc, a, sh', pc');
    StaysGated(st, sh, sh', pc);
  }

  lemma OwnGate(st: Setup, sh: Shared, pc: Pc, a: Action, sh': Shared, pc': Pc)
    requires SharedOk(st, sh) && ThreadOk(st, sh, pc) && Gated(st, sh, pc) && Moves(st, sh, pc, a, sh', pc')
    ensures Gated(st, sh', pc') && Longer(sh, sh')
  {
    MovesLonger(st, sh, pc, a, sh', pc');
    if a.Call? || a.TestVault? {
      FirstSteps(st, sh, pc, a, sh', pc');
    } else if a.CheckSnapshot? {
      CheckingStep(st, sh, pc, a, sh', pc');
    } else {
      OtherSteps(st, sh, pc, a, sh', pc');
    }
  }

  lemma GatesStay(st: Setup, s: State, s': State, t: ThreadId)
    requires AllGated(st, s) && Longer(s.sh, s'.sh) && Gated(st, s'.sh, PcOf(s', t))
    requires forall u :: u != t ==> PcOf(s', u) == PcOf(s, u)
    ensures AllGated(st, s')
  {
    forall u: ThreadId ensures Gated(st, s'.sh, PcOf(s', u)) {
      if u != t {
        StaysGated(st, s.sh, s'.sh, PcOf(s, u));
      }
    }
  }

  lemma StepKeepsGates(st: Setup, s: State, s': State)
    requires Inv(st, s) && AllGated(st, s) && Step(st, s, s')
    ensures AllGated(st, s')
  {
    if s'.pcs == s.pcs && Longer(s.sh, s'.sh) {
      StaysGated(st, s.sh, s'.sh, PcOf(s, 0));
      GatesStay(st, s, s', 0);
    } else {
      var t, a, pc' :| Moves(st, s.sh, PcOf(s, t), a, s'.sh, pc') && s'.pcs == s.pcs[t := pc'];
      assert ThreadOk(st, s.sh, PcOf(s, t)) && Gated(st, s.sh, PcOf(s, t));
      OwnGate(st, s.sh, PcOf(s, t), a, s'.sh, pc');
      GatesStay(st, s, s', t);
    }
  }
}
