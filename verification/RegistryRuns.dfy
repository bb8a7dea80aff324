/** What the registry promises over whole runs: every interleaving of any number of threads.
    Only what rests on fresh ids is limited to moments before the id counter wraps. */
module RegistryRuns {
  import opened Core
  import opened Fragment
  import opened Handles
  import opened Registry
  import opened RegistryIds
  import Strategies
  import Lockout
  import Pipeline

  ghost predicate StepAt(st: Setup, run: seq<State>, i: nat)
    requires i + 1 < |run|
  {
    Step(st, run[i], run[i + 1])
  }

  ghost predicate IsRun(st: Setup, run: seq<State>) {
    && |run| > 0 && run[0] == INIT
    && forall i: nat :: i < |run| - 1 ==> StepAt(st, run, i)
  }

  ghost predicate Moment(st: Setup, run: seq<State>, i: nat) {
    IsRun(st, run) && i < |run|
  }

  /** A moment before the id counter wraps. */
  ghost predicate EarlyMoment(st: Setup, run: seq<State>, i: nat) {
    Moment(st, run, i) && run[i].sh.counter <= TWO_64
  }

  // ----- the invariant along a run -----

  ghost predicate Grows(sh: Shared, sh': Shared) {
    && sh.counter <= sh'.counter && sh.calls <= sh'.calls
    && sh.history <= sh'.history && sh.changes <= sh'.changes && sh.callers <= sh'.callers
    && |sh'.changes| <= |sh.changes| + 1
    && sh.log <= sh'.log && |sh'.log| <= |sh.log| + 1
  }

  lemma StepGrows(st: Setup, s: State, s': State)
    requires Step(st, s, s')
    ensures Grows(s.sh, s'.sh)
  {
  }

  lemma {:induction false} RunGrows(st: Setup, run: seq<State>, a: nat, b: nat)
    requires IsRun(st, run) && a <= b < |run|
    ensures run[a].sh.counter <= run[b].sh.counter && run[a].sh.calls <= run[b].sh.calls
    ensures run[a].sh.history <= run[b].sh.history && run[a].sh.changes <= run[b].sh.changes
    ensures run[a].sh.callers <= run[b].sh.callers && run[a].sh.log <= run[b].sh.log
    decreases b
  {
    if a < b {
      RunGrows(st, run, a, b - 1);
      assert StepAt(st, run, b - 1);
      StepGrows(st, run[b - 1], run[b]);
    }
  }

  /** Every reachable state satisfies the invariant. */
  lemma {:induction false} RunKeepsInv(st: Setup, run: seq<State>, i: nat)
    requires Moment(st, run, i)
    ensures Inv(st, run[i])
  {
    if i > 0 {
      assert StepAt(st, run, i - 1);
      RunKeepsInv(st, run, i - 1);
      StepKeepsInv(st, run[i - 1], run[i]);
    }
  }

  /** Before the counter wraps every inserted id is new. */
  lemma {:induction false} RunKeepsFresh(st: Setup, run: seq<State>, i: nat)
    requires EarlyMoment(st, run, i)
    ensures Fresh(run[i])
  {
    if i > 0 {
      assert StepAt(st, run, i - 1);
      StepGrows(st, run[i - 1], run[i]);
      RunKeepsInv(st, run, i - 1);
      RunKeepsFresh(st, run, i - 1);
      StepKeepsFresh(st, run[i - 1], run[i]);
    }
  }

  lemma ThreadFacts(st: Setup, run: seq<State>, i: nat, t: ThreadId)
    requires Moment(st, run, i)
    ensures SharedOk(st, run[i].sh) && ThreadOk(st, run[i].sh, PcOf(run[i], t))
  {
    RunKeepsInv(st, run, i);
  }

  // ----- mutual exclusion and names -----

  /** The lock flag is set exactly while one thread holds the lock, what it loaded is still the installed map,
      and no two entries share a name. */
  lemma MutualExclusion(st: Setup, run: seq<State>, i: nat)
    requires Moment(st, run, i)
    ensures forall t, u :: HoldsLock(PcOf(run[i], t)) && HoldsLock(PcOf(run[i], u)) ==> t == u
    ensures run[i].sh.locked <==> exists t :: HoldsLock(PcOf(run[i], t))
    ensures forall t: ThreadId :: PcOf(run[i], t).Loaded? ==> PcOf(run[i], t).current == run[i].sh.installed
    ensures UniqueNames(run[i].sh.installed)
  {
    RunKeepsInv(st, run, i);
    var s := run[i];
    assert forall t: ThreadId :: ThreadOk(st, s.sh, PcOf(s, t));
    assert forall t: ThreadId, u: ThreadId :: t != u ==> PairOk(PcOf(s, t), PcOf(s, u));
    assert MapOk(st, s.sh.history[|s.sh.changes|]);
  }

  /** Along the versions of the map: an entry that is still there kept its name, and a
      handle that is gone does not come back. */
  lemma {:induction false} VersionsKeepName(st: Setup, sh: Shared, id: KeyId, i: nat, k: nat)
    requires SharedOk(st, sh) && SharedFresh(sh) && i <= k < |sh.history| && id in sh.history[i]
    ensures id in sh.history[k] ==> sh.history[k][id].name == sh.history[i][id].name
    decreases k
  {
    if i < k {
      VersionsKeepName(st, sh, id, i, k - 1);
      assert LinkOk(sh, k - 1) && NewAt(sh, k - 1);
    }
  }

  lemma {:induction false} VersionsKeepRemoved(st: Setup, sh: Shared, id: KeyId, i: nat, j: nat, k: nat)
    requires SharedOk(st, sh) && SharedFresh(sh) && i <= j <= k < |sh.history|
    requires id in sh.history[i] && id !in sh.history[j]
    ensures id !in sh.history[k]
    decreases k
  {
    if j < k {
      VersionsKeepRemoved(st, sh, id, i, j, k - 1);
      assert LinkOk(sh, k - 1) && NewAt(sh, k - 1);
    }
  }

  /** The map installed at an earlier moment is a version known at a later one. */
  lemma InstalledIsVersion(st: Setup, run: seq<State>, a: nat, b: nat)
    requires Moment(st, run, b) && a <= b
    ensures SharedOk(st, run[b].sh)
    ensures |run[a].sh.changes| <= |run[b].sh.changes|
    ensures run[b].sh.history[|run[a].sh.changes|] == run[a].sh.installed
  {
    RunGrows(st, run, a, b);
    RunKeepsInv(st, run, a);
    RunKeepsInv(st, run, b);
  }

  /** A name never changes while its handle lives, whatever was rotated meanwhile. */
  lemma NameNeverChanges(st: Setup, run: seq<State>, a: nat, b: nat, id: KeyId)
    requires EarlyMoment(st, run, b) && a <= b
    requires id in run[a].sh.installed && id in run[b].sh.installed
    ensures run[b].sh.installed[id].name == run[a].sh.installed[id].name
  {
    RunKeepsFresh(st, run, b);
    InstalledIsVersion(st, run, a, b);
    InstalledIsVersion(st, run, b, b);
    VersionsKeepName(st, run[b].sh, id, |run[a].sh.changes|, |run[b].sh.changes|);
  }

  /** A removed handle never reappears. */
  lemma RemovedNeverReturns(st: Setup, run: seq<State>, a: nat, b: nat, c: nat, id: KeyId)
    requires EarlyMoment(st, run, c) && a <= b <= c
    requires id in run[a].sh.installed && id !in run[b].sh.installed
    ensures id !in run[c].sh.installed
  {
    RunKeepsFresh(st, run, c);
    InstalledIsVersion(st, run, a, c);
    InstalledIsVersion(st, run, b, c);
    InstalledIsVersion(st, run, c, c);
    RunGrows(st, run, a, b);
    VersionsKeepRemoved(st, run[c].sh, id, |run[a].sh.changes|, |run[b].sh.changes|, |run[c].sh.changes|);
  }

  /** Of two registrations of one name that were ever installed, the second came only after
      the key of the first had been unregistered: no two calls can both have the name. */
  lemma OneRegistrationPerName(st: Setup, run: seq<State>, i: nat, j: nat, k: nat)
    requires EarlyMoment(st, run, i) && j < k < |run[i].sh.changes|
    requires var first, second := run[i].sh.changes[j], run[i].sh.changes[k];
             first.Insert? && second.Insert? && first.entry.name == second.entry.name
    ensures exists n :: j < n < k && run[i].sh.changes[n] == Remove(run[i].sh.changes[j].id)
  {
    RunKeepsInv(st, run, i);
    RunKeepsFresh(st, run, i);
    var sh, id := run[i].sh, run[i].sh.changes[j].id;
    assert LinkOk(sh, j) && LinkOk(sh, k);
    VersionsKeepName(st, sh, id, j + 1, k);
    assert id !in sh.history[k];
    var n := FindRemoval(st, sh, id, j + 1, k);
    assert sh.changes[n] == Remove(id);
  }

  ghost function {:induction false} FindRemoval(st: Setup, sh: Shared, id: KeyId, i: nat, j: nat): (k: nat)
    requires SharedOk(st, sh) && i <= j < |sh.history|
    requires id in sh.history[i] && id !in sh.history[j]
    ensures i <= k < j && sh.changes[k] == Remove(id)
    decreases j
  {
    assert LinkOk(sh, j - 1);
    if id in sh.history[j - 1] then j - 1 else FindRemoval(st, sh, id, i, j - 1)
  }

  // ----- the refinement of an atomic map -----

  /** A call that began after moment `a` began on a version at least as new. */
  lemma {:induction false} LateCall(st: Setup, run: seq<State>, a: nat, b: nat, t: ThreadId)
    requires Moment(st, run, b) && a <= b
    ensures var pc := PcOf(run[b], t);
            !pc.Idle? && pc.call >= run[a].sh.calls ==>
              pc.lo >= |run[a].sh.changes| && pc.gate.since >= |run[a].sh.log|
    decreases b
  {
    if a == b {
      RunKeepsInv(st, run, b);
      assert ThreadOk(st, run[b].sh, PcOf(run[b], t));
    } else {
      assert StepAt(st, run, b - 1);
      RunGrows(st, run, a, b - 1);
      StepGrows(st, run[b - 1], run[b]);
      LateCall(st, run, a, b - 1, t);
      StepKeepsBegin(st, run[b - 1], run[b], t);
    }
  }

  lemma StepKeepsBegin(st: Setup, s: State, s': State, t: ThreadId)
    requires Step(st, s, s')
    ensures var pc, pc' := PcOf(s, t), PcOf(s', t);
            !pc'.Idle? ==>
              if pc.Idle? then pc'.call == s.sh.calls && pc'.lo == |s.sh.changes| && pc'.gate.since == |s.sh.log|
              else pc'.call == pc.call && pc'.lo == pc.lo && pc'.op == pc.op && pc'.gate.since == pc.gate.since
  {
  }

  /** Between two moments every version in between was installed at some moment, and the
      last moment of a version is followed by the step that installs the next one. */
  lemma {:induction false} LastMomentOf(st: Setup, run: seq<State>, a: nat, b: nat, version: nat) returns (x: nat)
    requires Moment(st, run, b) && a <= b
    requires |run[a].sh.changes| <= version <= |run[b].sh.changes|
    ensures a <= x <= b && |run[x].sh.changes| == version
    ensures version == |run[b].sh.changes| ==> x == b
    ensures version < |run[b].sh.changes| ==> x < b && |run[x + 1].sh.changes| == version + 1
    decreases b
  {
    if |run[b].sh.changes| == version {
      x := b;
    } else {
      assert StepAt(st, run, b - 1);
      StepGrows(st, run[b - 1], run[b]);
      x := LastMomentOf(st, run, a, b - 1, version);
    }
  }

  /** What an atomic map, holding the key map of moment `x`, would have made of the call: a
      successful writer changes exactly that map by exactly its change, in the step that
      follows; a reader or a refused writer saw exactly that map. */
  ghost predicate TakesEffectAt(st: Setup, run: seq<State>, x: nat, op: Op, outcome: Outcome)
    requires x < |run|
  {
    var m := run[x].sh.installed;
    match outcome
    case Saw(data) => op.WithKey? && op.id in m && Read(st, m[op.id].frags) == Ok(data)
    case Refused(Duplicate) => op.Register? && NameTaken(m, op.name)
    case Refused(NotFound) => !op.Register? && op.id !in m
    case Refused(_) => true
    case Failed(_) => true
    case Registered(id) =>
      && op.Register? && !NameTaken(m, op.name) && x + 1 < |run|
      && (run[x + 1].sh.counter <= TWO_64 ==> forall y :: 0 <= y <= x ==> id !in run[y].sh.installed)
      && exists frags :: Holds(st, op.key, frags) && run[x + 1].sh.installed == m[id := Entry(op.name, frags, op.key)]
    case Rotated =>
      && op.Rotate? && op.id in m && x + 1 < |run|
      && exists frags :: Holds(st, op.newKey, frags)
                         && run[x + 1].sh.installed == m[op.id := Entry(m[op.id].name, frags, op.newKey)]
    case Unregistered =>
      op.Unregister? && op.id in m && x + 1 < |run| && run[x + 1].sh.installed == m - {op.id}
  }

  lemma RegisteredIsNew(st: Setup, run: seq<State>, x: nat, at: nat)
    requires EarlyMoment(st, run, x + 1) && at < |run[x + 1].sh.changes| && run[x + 1].sh.changes[at].Insert?
    requires |run[x].sh.changes| == at
    ensures forall y :: 0 <= y <= x ==> run[x + 1].sh.changes[at].id !in run[y].sh.installed
  {
    RunKeepsFresh(st, run, x + 1);
    assert NewAt(run[x + 1].sh, at);
    forall y: nat | y <= x ensures run[x + 1].sh.changes[at].id !in run[y].sh.installed {
      InstalledIsVersion(st, run, y, x + 1);
      RunGrows(st, run, y, x);
    }
  }

  /** The same, told by the recorded versions. */
  lemma ExplainedTakesEffect(st: Setup, run: seq<State>, b: nat, x: nat, op: Op, call: nat, at: nat, outcome: Outcome)
    requires Moment(st, run, b) && x <= b && |run[x].sh.changes| == at
    requires at < |run[b].sh.changes| ==> x < b && |run[x + 1].sh.changes| == at + 1
    requires Explained(st, run[b].sh, op, call, at, outcome)
    ensures TakesEffectAt(st, run, x, op, outcome)
  {
    var sh := run[b].sh;
    InstalledIsVersion(st, run, x, b);
    if outcome.Registered? || outcome.Rotated? || outcome.Unregistered? {
      InstalledIsVersion(st, run, x + 1, b);
      assert LinkOk(sh, at) && MapOk(st, sh.history[at + 1]);
      if !outcome.Unregistered? {
        var entry := sh.history[at + 1][sh.changes[at].id];
        assert Holds(st, entry.key, entry.frags);
      }
      if outcome.Registered? && run[x + 1].sh.counter <= TWO_64 {
        RunGrows(st, run, x + 1, b);
        RegisteredIsNew(st, run, x, at);
      }
    }
  }

  /** Every finished call takes effect on the installed map at one moment between its
      beginning (after `a`) and its end (`b`), as it would on an atomic map. */
  lemma Linearizable(st: Setup, run: seq<State>, a: nat, b: nat, t: ThreadId) returns (x: nat)
    requires Moment(st, run, b) && a <= b
    requires PcOf(run[b], t).Done? && PcOf(run[b], t).call >= run[a].sh.calls
    ensures a <= x <= b && TakesEffectAt(st, run, x, PcOf(run[b], t).op, PcOf(run[b], t).outcome)
  {
    var pc := PcOf(run[b], t);
    RunKeepsInv(st, run, b);
    assert ThreadOk(st, run[b].sh, pc);
    LateCall(st, run, a, b, t);
    x := LastMomentOf(st, run, a, b, pc.at);
    ExplainedTakesEffect(st, run, b, x, pc.op, pc.call, pc.at, pc.outcome);
  }

  /** A call number names one call of one thread, at whatever moments it is looked at. */
  lemma {:induction false} OneCallPerNumber(st: Setup, run: seq<State>, a: nat, b: nat, t: ThreadId, u: ThreadId)
    requires Moment(st, run, b) && a <= b
    requires !PcOf(run[a], t).Idle? && !PcOf(run[b], u).Idle? && PcOf(run[a], t).call == PcOf(run[b], u).call
    ensures t == u && PcOf(run[a], t).op == PcOf(run[b], u).op
    decreases b
  {
    ThreadFacts(st, run, a, t);
    if a == b {
      RunKeepsInv(st, run, a);
      assert t != u ==> PairOk(PcOf(run[a], t), PcOf(run[a], u));
    } else {
      assert StepAt(st, run, b - 1);
      StepKeepsBegin(st, run[b - 1], run[b], u);
      RunGrows(st, run, a, b - 1);
      OneCallPerNumber(st, run, a, b - 1, t, u);
    }
  }

  /** A call changed the map if and only if it reports success, and then once. */
  lemma ChangedIffSucceeded(st: Setup, run: seq<State>, b: nat, t: ThreadId)
    requires Moment(st, run, b) && PcOf(run[b], t).Done?
    ensures var pc, callers := PcOf(run[b], t), run[b].sh.callers;
            if Succeeded(pc.outcome) then
              pc.at < |callers| && forall k :: 0 <= k < |callers| ==> (callers[k] == pc.call <==> k == pc.at)
            else pc.call !in callers
  {
    ThreadFacts(st, run, b, t);
  }

  /** Successful calls and changes correspond one to one over the whole run: calls that
      finish at any two moments claim the same change exactly if they are the same call. */
  lemma ChangesClaimedOnce(st: Setup, run: seq<State>, a: nat, b: nat, t: ThreadId, u: ThreadId)
    requires Moment(st, run, b) && a <= b && PcOf(run[a], t).Done? && PcOf(run[b], u).Done?
    requires Succeeded(PcOf(run[a], t).outcome) && Succeeded(PcOf(run[b], u).outcome)
    ensures PcOf(run[a], t).at == PcOf(run[b], u).at <==> PcOf(run[a], t).call == PcOf(run[b], u).call
    ensures PcOf(run[a], t).at == PcOf(run[b], u).at ==>
              t == u && PcOf(run[a], t).op == PcOf(run[b], u).op && PcOf(run[a], t).outcome == PcOf(run[b], u).outcome
  {
    ThreadFacts(st, run, a, t);
    ThreadFacts(st, run, b, u);
    RunGrows(st, run, a, b);
    ChangedIffSucceeded(st, run, b, u);
    if PcOf(run[a], t).call == PcOf(run[b], u).call {
      OneCallPerNumber(st, run, a, b, t, u);
    }
  }

  /** The map changes only by a step of the lock holder that goes on to report success. */
  lemma NoUnclaimedChange(st: Setup, run: seq<State>, i: nat) returns (t: ThreadId)
    requires Moment(st, run, i + 1) && run[i + 1].sh.installed != run[i].sh.installed
    ensures HoldsLock(PcOf(run[i], t)) && PcOf(run[i + 1], t).Leaving?
    ensures Succeeded(PcOf(run[i + 1], t).outcome)
    ensures TakesEffectAt(st, run, i, PcOf(run[i + 1], t).op, PcOf(run[i + 1], t).outcome)
  {
    assert StepAt(st, run, i);
    t := WhoChanged(st, run[i], run[i + 1]);
    ThreadFacts(st, run, i + 1, t);
    var pc := PcOf(run[i + 1], t);
    ExplainedTakesEffect(st, run, i + 1, i, pc.op, pc.call, pc.at, pc.outcome);
  }

  lemma WhoChanged(st: Setup, s: State, s': State) returns (t: ThreadId)
    requires Step(st, s, s') && s'.sh.installed != s.sh.installed
    ensures HoldsLock(PcOf(s, t)) && PcOf(s', t).Leaving?
    ensures Succeeded(PcOf(s', t).outcome) && PcOf(s', t).at == |s.sh.changes| == |s'.sh.changes| - 1
  {
    var u, a, pc' :| Moves(st, s.sh, PcOf(s, u), a, s'.sh, pc') && s'.pcs == s.pcs[u := pc'];
    t := u;
  }

  /** An error from outside is what the caller gets, and it changes nothing. */
  lemma FailurePassedOn(st: Setup, sh: Shared, pc: Pc, a: Action, sh': Shared, pc': Pc)
    requires Moves(st, sh, pc, a, sh', pc') && (a.FragmentFailed? || a.ReadFailed?)
    ensures pc'.Done? && pc'.outcome == Failed(a.error) && pc'.op == pc.op && pc'.call == pc.call && sh' == sh
  {
  }

  // ----- progress -----

  ghost predicate CanMove(st: Setup, sh: Shared, pc: Pc) {
    exists a, sh', pc' :: Moves(st, sh, pc, a, sh', pc')
  }

  /** The material a call brings. */
  function MaterialOf(op: Op): bytes {
    if op.Register? then op.key else if op.Rotate? then op.newKey else []
  }

  /** What has been fragmented or read successfully can be used. */
  lemma CanUseResult(st: Setup, sh: Shared, pc: Pc, frags: Fragments)
    ensures pc.Preparing? && pc.op.Register? && Holds(st, MaterialOf(pc.op), frags) ==>
              Moves(st, sh, pc, FragmentMade(frags), sh, Prepared(pc.op, pc.call, pc.lo, pc.gate, frags))
    ensures pc.Preparing? && pc.op.Rotate? && Holds(st, MaterialOf(pc.op), frags) ==>
              Moves(st, sh, pc, FragmentMade(frags), sh,
                    Waiting(pc.op, pc.call, pc.lo, pc.gate, Replace(pc.op.id, frags, pc.op.newKey)))
    ensures pc.Reading? && Read(st, pc.frags).Ok? ==>
              Moves(st, sh, pc, ReadDone(Read(st, pc.frags).value), sh,
                    Done(pc.op, pc.call, pc.lo, pc.gate, pc.at, Saw(Read(st, pc.frags).value)))
  {
  }

  /** A thread that is not waiting for the lock can always take its next step. */
  lemma CanStep(st: Setup, sh: Shared, pc: Pc)
    requires ThreadOk(st, sh, pc) && !(pc.Waiting? && sh.locked)
    ensures CanMove(st, sh, pc)
  {
    match pc
    case Idle =>
      var gate := Gate(|sh.log|, None, None);
      assert Moves(st, sh, pc, Call(WithKey(0)), sh.(calls := sh.calls + 1),
                   Begun(WithKey(0), sh.calls, |sh.changes|, gate));
    case Begun(op, call, lo, gate) =>
      var gate' := gate.(vault := Some(|sh.log|));
      assert Moves(st, sh, pc, TestVault, sh,
                   if Down(st, sh.log) then Done(op, call, lo, gate', lo, Refused(VaultDown))
                   else Admitted(op, call, lo, gate'));
    case Admitted(op, call, lo, gate) =>
      assert Moves(st, sh, pc, Load, sh, Snapshot(op, call, lo, gate, |sh.changes|, sh.installed));
    case Snapshot(op, _, _, _, _, snap) =>
      var sh' := if AsksForKey(pc) then sh.(log := sh.log + [Lockout.Ask(snap[op.id].name, 0)]) else sh;
      assert Moves(st, sh, pc, CheckSnapshot(0), sh', AfterSnapshot(st, sh.log, pc, 0));
    case Preparing(op, call, lo, gate) =>
      assert Moves(st, sh, pc, FragmentFailed(CustomFailed), sh, Done(op, call, lo, gate, lo, Failed(CustomFailed)));
    case Prepared(op, call, lo, gate, frags) =>
      assert Moves(st, sh, pc, DrawId, sh.(counter := sh.counter + 1),
                   Waiting(op, call, lo, gate, Insert(IdOf(sh.counter), Entry(op.name, frags, op.key))));
    case Reading(op, call, lo, gate, at, _) =>
      assert Moves(st, sh, pc, ReadFailed(CustomFailed), sh, Done(op, call, lo, gate, at, Failed(CustomFailed)));
    case Waiting(op, call, lo, gate, change) =>
      assert Moves(st, sh, pc, Acquire, sh.(locked := true), Holding(op, call, lo, gate, change));
    case Holding(op, call, lo, gate, change) =>
      assert Moves(st, sh, pc, LoadFull, sh, Loaded(op, call, lo, gate, change, sh.installed));
    case Loaded(op, call, lo, gate, change, current) =>
      if Accepts(current, change) {
        assert Moves(st, sh, pc, Decide, Install(sh, Apply(current, change), change, call),
                     Leaving(op, call, lo, gate, |sh.changes|, SuccessOf(change)));
      } else {
        assert Moves(st, sh, pc, Decide, sh, Leaving(op, call, lo, gate, |sh.changes|, Refused(RefusalOf(change))));
      }
    case Leaving(op, call, lo, gate, at, outcome) =>
      assert Moves(st, sh, pc, Release, sh.(locked := false), Done(op, call, lo, gate, at, outcome));
    case Done(_, _, _, _, _, _) =>
      assert Moves(st, sh, pc, Return, sh, Idle);
  }

  /** Nobody is ever stuck: in every reachable state a thread can step, or it waits for the lock
      and the one that holds it can. */
  lemma NoDeadlock(st: Setup, run: seq<State>, i: nat, t: ThreadId)
    requires Moment(st, run, i)
    ensures CanMove(st, run[i].sh, PcOf(run[i], t))
            || exists u :: u != t && HoldsLock(PcOf(run[i], u)) && CanMove(st, run[i].sh, PcOf(run[i], u))
  {
    var s := run[i];
    ThreadFacts(st, run, i, t);
    if PcOf(s, t).Waiting? && s.sh.locked {
      RunKeepsInv(st, run, i);
      var u :| HoldsLock(PcOf(s, u));
      ThreadFacts(st, run, i, u);
      CanStep(st, s.sh, PcOf(s, u));
    } else {
      CanStep(st, s.sh, PcOf(s, t));
    }
  }

  // ----- end to end -----

  /** The vault's own setup: keys stored by the pipeline, and the lockout policy. */
  ghost function VaultSetup(cfg: Pipeline.Config, policy: Lockout.Config): Setup {
    Setup((key, f) => Pipeline.Stored(cfg, key, f), f => ReadThrough(cfg, f),
          log => PolicyDown(policy, log),
          (log: seq<Lockout.Event>, name: string, now: Lockout.Time) => PolicyLocks(policy, log, name, now))
  }

  /** What `is_locked_out` and `key_locked` answer after these calls. */
  predicate PolicyDown(policy: Lockout.Config, log: seq<Lockout.Event>) {
    Lockout.Run(policy, log).lockedOut
  }

  predicate PolicyLocks(policy: Lockout.Config, log: seq<Lockout.Event>, name: string, now: Lockout.Time) {
    Lockout.Locked(Lockout.Run(policy, log), name, now)
  }

  ghost function ReadThrough(cfg: Pipeline.Config, f: Fragments): Result<bytes> {
    if !f.Valid() then Err(LayoutTruncated) else
    var r := Pipeline.Reassemble(cfg, f, Zeros(f.totalLen));
    if r.result.Ok? then Ok(r.out) else Err(r.result.error)
  }

  /** In every interleaving, what `with_key` hands out is the key that was current at one moment
      of the call, as the configured normalizer makes it. */
  lemma WithKeySeesOneVersion(cfg: Pipeline.Config, policy: Lockout.Config, run: seq<State>, a: nat, b: nat,
                              t: ThreadId)
    returns (x: nat)
    requires Strategies.CustomsRoundTrip(cfg.strategy)
    requires forall s: bytes :: Pipeline.DecodeInverts(cfg.codex, s)
    requires Moment(VaultSetup(cfg, policy), run, b) && a <= b
    requires PcOf(run[b], t).Done? && PcOf(run[b], t).call >= run[a].sh.calls
    requires PcOf(run[b], t).outcome.Saw?
    ensures a <= x <= b && PcOf(run[b], t).op.WithKey? && PcOf(run[b], t).op.id in run[x].sh.installed
    ensures var key, data := run[x].sh.installed[PcOf(run[b], t).op.id].key, PcOf(run[b], t).outcome.data;
            && (cfg.normalizer.Off? ==> data == key)
            && (cfg.normalizer.Plain? ==> data == Pipeline.Hash(cfg.normalizer.hash, key))
            && (cfg.normalizer.Keyed? ==>
                  && |cfg.normalizer.secret| == 32
                  && data == Pipeline.HashKeyed(cfg.normalizer.keyedHash, cfg.normalizer.secret, key))
            && !cfg.normalizer.Unavailable?
  {
    var st := VaultSetup(cfg, policy);
    x := Linearizable(st, run, a, b, t);
    InstalledIsVersion(st, run, x, b);
    var sh := run[b].sh;
    assert MapOk(st, sh.history[|run[x].sh.changes|]);
    var entry := run[x].sh.installed[PcOf(run[b], t).op.id];
    assert Pipeline.Stored(cfg, entry.key, entry.frags) && Read(st, entry.frags) == ReadThrough(cfg, entry.frags);
    Pipeline.NormalizedReadsBack(cfg, entry.key, entry.frags, Zeros(entry.frags.totalLen));
  }
}
