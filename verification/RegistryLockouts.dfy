/** Lockouts over whole runs of the registry: no call gets past one, and none is refused for one
    that was not there. */
module RegistryLockouts {
  import opened Core
  import opened Handles
  import opened Lockout
  import opened Registry
  import opened RegistryGates
  import opened RegistryRuns
  import LockoutRuns
  import Pipeline
  import VaultFlag

  /** In every reachable state every call went by what the policy told it. */
  lemma {:induction false} RunKeepsGates(st: Setup, run: seq<State>, i: nat)
    requires Moment(st, run, i)
    ensures AllGated(st, run[i])
  {
    if i > 0 {
      assert StepAt(st, run, i - 1);
      RunKeepsInv(st, run, i - 1);
      RunKeepsGates(st, run, i - 1);
      StepKeepsGates(st, run[i - 1], run[i]);
    }
  }

  /** The moment at which the policy had had `n` calls, and the next one, if there was one, was
      about to be made. */
  lemma {:induction false} LogMoment(st: Setup, run: seq<State>, a: nat, b: nat, n: nat) returns (x: nat)
    requires Moment(st, run, b) && a <= b && |run[a].sh.log| <= n <= |run[b].sh.log|
    ensures a <= x <= b && run[x].sh.log == run[b].sh.log[..n]
    ensures n < |run[b].sh.log| ==> x < b && run[x + 1].sh.log == run[b].sh.log[..n + 1]
    decreases b
  {
    if |run[b].sh.log| == n {
      x := b;
    } else {
      assert StepAt(st, run, b - 1);
      StepGrows(st, run[b - 1], run[b]);
      if |run[b - 1].sh.log| == n {
        RunGrows(st, run, a, b - 1);
        x := b - 1;
        assert run[b].sh.log[..n] == run[b - 1].sh.log && run[b].sh.log[..n + 1] == run[b].sh.log;
      } else {
        x := LogMoment(st, run, a, b - 1, n);
        assert run[b].sh.log[..n] == run[b - 1].sh.log[..n] && run[b].sh.log[..n + 1] == run[b - 1].sh.log[..n + 1];
      }
    }
  }

  /** The call that thread `t` has finished at `b`, having begun after `a`. */
  ghost predicate Finished(st: Setup, run: seq<State>, a: nat, b: nat, t: ThreadId) {
    Moment(st, run, b) && a <= b && PcOf(run[b], t).Done? && PcOf(run[b], t).call >= run[a].sh.calls
  }

  lemma GateFacts(st: Setup, run: seq<State>, a: nat, b: nat, t: ThreadId)
    requires Finished(st, run, a, b, t)
    ensures var pc := PcOf(run[b], t);
            && GateOk(run[b].sh, pc.op, pc.lo, pc.gate) && PcGate(st, run[b].sh, pc)
            && |run[a].sh.log| <= pc.gate.since && |run[a].sh.changes| <= pc.lo
  {
    RunKeepsGates(st, run, b);
    assert Gated(st, run[b].sh, PcOf(run[b], t));
    LateCall(st, run, a, b, t);
  }

  /** `unregister` is never refused for a lockout. Every other call asks for the vault at one
      moment between its beginning and its end, and is refused for a vault-wide lockout exactly
      if there is one. */
  lemma VaultLockoutObeyed(st: Setup, run: seq<State>, a: nat, b: nat, t: ThreadId) returns (x: nat)
    requires Finished(st, run, a, b, t)
    ensures a <= x <= b
    ensures var pc := PcOf(run[b], t);
            if pc.op.Unregister? then pc.outcome != Refused(VaultDown) && pc.outcome != Refused(KeyIsLocked)
            else pc.outcome == Refused(VaultDown) <==> Down(st, run[x].sh.log)
  {
    GateFacts(st, run, a, b, t);
    x := b;
    if !PcOf(run[b], t).op.Unregister? {
      x := LogMoment(st, run, a, b, PcOf(run[b], t).gate.vault.value);
    }
  }

  /** The question put to the policy in the step after moment `y`. */
  ghost predicate AsksAt(run: seq<State>, y: nat, name: string, now: Time) {
    y + 1 < |run| && run[y + 1].sh.log == run[y].sh.log + [Ask(name, now)]
  }

  /** A call of `with_key` or `rotate` that is not refused for the vault or for a missing handle
      asks for the key's lockout at one moment, under the name the handle has at an earlier one,
      and is refused for it exactly if it is in place: so it neither sees nor changes a key that
      it was told is locked. What `with_key` hands out is from the very version of which it
      asked. */
  lemma KeyLockoutObeyed(st: Setup, run: seq<State>, a: nat, b: nat, t: ThreadId)
    returns (y: nat, z: nat, name: string, now: Time)
    requires Finished(st, run, a, b, t) && (PcOf(run[b], t).op.Rotate? || PcOf(run[b], t).op.WithKey?)
    requires PcOf(run[b], t).outcome != Refused(VaultDown) && PcOf(run[b], t).outcome != Refused(NotFound)
    ensures a <= y < b && a <= z <= b && AsksAt(run, y, name, now)
    ensures var op := PcOf(run[b], t).op;
            op.id in run[z].sh.installed && run[z].sh.installed[op.id].name == name
    ensures var pc := PcOf(run[b], t);
            && (pc.outcome == Refused(KeyIsLocked) <==> KeyLocked(st, run[y].sh.log, name, now))
            && (pc.outcome.Saw? ==> Read(st, run[z].sh.installed[pc.op.id].frags) == Ok(pc.outcome.data))
  {
    GateFacts(st, run, a, b, t);
    var pc, sh := PcOf(run[b], t), run[b].sh;
    ThreadFacts(st, run, b, t);
    var test := pc.gate.key.value;
    name, now := test.name, test.now;
    y := LogMoment(st, run, a, b, test.asked);
    assert sh.log[..test.asked + 1] == sh.log[..test.asked] + [sh.log[test.asked]];
    z := LastMomentOf(st, run, a, b, test.seen);
    InstalledIsVersion(st, run, z, b);
  }

  // ----- with the vault's own policy -----

  lemma {:induction false} OrderedPrefix(log: seq<Event>, n: nat)
    requires Ordered(log) && n <= |log|
    ensures Ordered(log[..n])
    decreases |log|
  {
    if n < |log| {
      OrderedPrefix(log[..|log| - 1], n);
      assert log[..|log| - 1][..n] == log[..n];
    } else {
      assert log[..n] == log;
    }
  }

  /** What a log says of the vault. */
  lemma DownByTheCalls(policy: Config, log: seq<Event>)
    requires Ordered(log) && VaultFlag.FlagDecided(policy)
    ensures PolicyDown(policy, log) <==> LockoutRuns.ShouldBeDown(policy, log)
  {
    VaultFlag.DecidedFlagAgrees(policy, log);
  }

  /** In every interleaving, by the calls alone: a call is refused for a vault-wide lockout
      exactly if the failures say there is one. */
  lemma VaultLockoutByTheCalls(cfg: Pipeline.Config, policy: Config, run: seq<State>, a: nat, b: nat, t: ThreadId)
    returns (x: nat)
    requires Finished(VaultSetup(cfg, policy), run, a, b, t) && !PcOf(run[b], t).op.Unregister?
    requires Ordered(run[b].sh.log) && VaultFlag.FlagDecided(policy)
    ensures a <= x <= b
    ensures PcOf(run[b], t).outcome == Refused(VaultDown) <==> LockoutRuns.ShouldBeDown(policy, run[x].sh.log)
  {
    var st := VaultSetup(cfg, policy);
    x := VaultLockoutObeyed(st, run, a, b, t);
    RunGrows(st, run, x, b);
    OrderedPrefix(run[b].sh.log, |run[x].sh.log|);
    assert run[b].sh.log[..|run[x].sh.log|] == run[x].sh.log;
    DownByTheCalls(policy, run[x].sh.log);
    assert Down(st, run[x].sh.log) == PolicyDown(policy, run[x].sh.log);
  }

  /** And for a key's lockout exactly if they say that: a key under a lockout is neither handed
      out nor rotated. */
  lemma KeyLockoutByTheCalls(cfg: Pipeline.Config, policy: Config, run: seq<State>, a: nat, b: nat, t: ThreadId)
    returns (y: nat, z: nat, name: string, now: Time)
    requires Finished(VaultSetup(cfg, policy), run, a, b, t)
    requires PcOf(run[b], t).op.Rotate? || PcOf(run[b], t).op.WithKey?
    requires PcOf(run[b], t).outcome != Refused(VaultDown) && PcOf(run[b], t).outcome != Refused(NotFound)
    requires Ordered(run[b].sh.log)
    ensures a <= y < b && a <= z <= b && AsksAt(run, y, name, now)
    ensures var op := PcOf(run[b], t).op;
            op.id in run[z].sh.installed && run[z].sh.installed[op.id].name == name
    ensures Decided(policy, name) ==>
              (PcOf(run[b], t).outcome == Refused(KeyIsLocked) <==>
               LockoutRuns.ShouldBeLocked(policy, run[y].sh.log, name, now))
  {
    var st := VaultSetup(cfg, policy);
    y, z, name, now := KeyLockoutObeyed(st, run, a, b, t);
    RunGrows(st, run, y + 1, b);
    var log := run[y].sh.log;
    OrderedPrefix(run[b].sh.log, |log| + 1);
    assert run[b].sh.log[..|log| + 1] == log + [Ask(name, now)];
    LockedByTheCalls(policy, log, name, now);
    assert KeyLocked(st, log, name, now) == PolicyLocks(policy, log, name, now);
  }

  lemma {:induction false} LockedByTheCalls(policy: Config, log: seq<Event>, name: string, now: Time)
    requires Ordered(log + [Ask(name, now)])
    ensures Decided(policy, name) ==>
              (PolicyLocks(policy, log, name, now) <==> LockoutRuns.ShouldBeLocked(policy, log, name, now))
  {
    Unfold(log, Ask(name, now));
    if Decided(policy, name) {
      LockoutRuns.KeyLockedIff(policy, log, name, now);
    }
  }
}
