/** The named-key registry as a concurrent protocol. Any number of threads step through
    `register`, `rotate`, `unregister` and `with_key`; loading the installed map, taking and
    releasing the writer lock, installing a map and drawing an id are single atomic steps,
    and everything between them can interleave. */
module Registry {
  import opened Core
  import opened Fragment
  import opened Handles
  import opened Lockout

  type ThreadId = nat

  // ----- the map and its atomic specification -----

  /** A registered key: its name, its fragments, and the material they were made from. */
  datatype Entry = Entry(name: string, frags: Fragments, key: bytes)

  type KeyMap = map<KeyId, Entry>

  /** What the protocol rests on: which fragments hold a key and what reading them yields; and
      what the lockout policy answers, given the calls made to it so far. The protocol is proved
      for any of these; `VaultSetup` is the vault's own. */
  datatype Setup = Setup(
    holds: (bytes, Fragments) -> bool, read: Fragments -> Result<bytes>,
    down: seq<Event> -> bool, keyLocked: (seq<Event>, string, Time) -> bool)

  predicate Holds(st: Setup, key: bytes, frags: Fragments) {
    st.holds(key, frags)
  }

  function Read(st: Setup, frags: Fragments): Result<bytes> {
    st.read(frags)
  }

  /** The vault is locked out. */
  predicate Down(st: Setup, log: seq<Event>) {
    st.down(log)
  }

  /** The key with this name is locked out. */
  predicate KeyLocked(st: Setup, log: seq<Event>, name: string, now: Time) {
    st.keyLocked(log, name, now)
  }

  datatype Op =
    | Register(name: string, key: bytes)
    | Rotate(id: KeyId, newKey: bytes)
    | Unregister(id: KeyId)
    | WithKey(id: KeyId)

  /** How a call ended. `Refused` is the vault's own refusal, `Failed` an error that came from
      the fragmenter or the memory layer. */
  datatype Outcome =
    | Registered(id: KeyId) | Rotated | Unregistered | Saw(data: bytes)
    | Refused(reason: Refusal) | Failed(error: Error)

  predicate Succeeded(o: Outcome) {
    o.Registered? || o.Rotated? || o.Unregistered?
  }

  datatype Refusal = Duplicate | NotFound | VaultDown | KeyIsLocked

  /** What a writer wants to do to the map. */
  datatype Change =
    | Insert(id: KeyId, entry: Entry)
    | Replace(id: KeyId, frags: Fragments, key: bytes)
    | Remove(id: KeyId)

  ghost predicate NameTaken(m: KeyMap, name: string) {
    exists id :: id in m && m[id].name == name
  }

  ghost predicate UniqueNames(m: KeyMap) {
    forall i, j :: i in m && j in m && m[i].name == m[j].name ==> i == j
  }

  /** The check made under the writer lock. */
  ghost predicate Accepts(m: KeyMap, c: Change) {
    match c
    case Insert(_, entry) => !NameTaken(m, entry.name)
    case Replace(id, _, _) => id in m
    case Remove(id) => id in m
  }

  function RefusalOf(c: Change): Refusal {
    if c.Insert? then Duplicate else NotFound
  }

  /** The clone with the change made: a rotation keeps the entry's name. */
  function Apply(m: KeyMap, c: Change): KeyMap
    requires c.Replace? ==> c.id in m
  {
    match c
    case Insert(id, entry) => m[id := entry]
    case Replace(id, frags, key) => m[id := Entry(m[id].name, frags, key)]
    case Remove(id) => m - {id}
  }

  /** The change that carries out a call. */
  ghost predicate Carries(op: Op, c: Change) {
    match op
    case Register(name, key) => c.Insert? && c.entry.name == name && c.entry.key == key
    case Rotate(id, key) => c.Replace? && c.id == id && c.key == key
    case Unregister(id) => c == Remove(id)
    case WithKey(_) => false
  }

  function SuccessOf(c: Change): Outcome {
    match c
    case Insert(id, _) => Registered(id)
    case Replace(_, _, _) => Rotated
    case Remove(_) => Unregistered
  }

  // ----- threads -----

  /** What a call asked of the lockout policy, with the number of policy calls made before: when
      it began, when it asked for the vault, and when it asked, at time `now`, for the name that
      its handle had in version `seen` of the map. */
  datatype Gate = Gate(since: nat, vault: Option<nat>, key: Option<KeyTest>)
  datatype KeyTest = KeyTest(asked: nat, seen: nat, name: string, now: Time)

  /** Where a call is. `lo` is the number of maps that had been replaced when it began, and
      `at` the version of the map on which it was decided. */
  datatype Pc =
    | Idle
    | Begun(op: Op, call: nat, lo: nat, gate: Gate)
    | Admitted(op: Op, call: nat, lo: nat, gate: Gate)
    | Snapshot(op: Op, call: nat, lo: nat, gate: Gate, at: nat, snap: KeyMap)
    | Preparing(op: Op, call: nat, lo: nat, gate: Gate)
    | Prepared(op: Op, call: nat, lo: nat, gate: Gate, frags: Fragments)
    | Reading(op: Op, call: nat, lo: nat, gate: Gate, at: nat, frags: Fragments)
    | Waiting(op: Op, call: nat, lo: nat, gate: Gate, change: Change)
    | Holding(op: Op, call: nat, lo: nat, gate: Gate, change: Change)
    | Loaded(op: Op, call: nat, lo: nat, gate: Gate, change: Change, current: KeyMap)
    | Leaving(op: Op, call: nat, lo: nat, gate: Gate, at: nat, outcome: Outcome)
    | Done(op: Op, call: nat, lo: nat, gate: Gate, at: nat, outcome: Outcome)

  predicate HoldsLock(pc: Pc) {
    pc.Holding? || pc.Loaded? || pc.Leaving?
  }

  /** The shared state: the installed map, the writer lock, the id counter and the number of
      calls begun; the calls made to the lockout policy; and, for the proof, every version of
      the map so far, with the change and the call that led to the next one. */
  datatype Shared = Shared(
    installed: KeyMap, locked: bool, counter: nat, calls: nat, log: seq<Event>,
    history: seq<KeyMap>, changes: seq<Change>, callers: seq<nat>)

  datatype State = State(sh: Shared, pcs: map<ThreadId, Pc>)

  function PcOf(s: State, t: ThreadId): Pc {
    if t in s.pcs then s.pcs[t] else Idle
  }

  const INIT := State(Shared(map[], false, 1, 0, [], [map[]], [], []), map[])

  /** One step of one thread. What comes from outside (clock readings, fragments, failures) is
      part of the action. */
  datatype Action =
    | Call(op: Op)
    | TestVault
    | Load
    | CheckSnapshot(now: Time)
    | FragmentFailed(error: Error)
    | FragmentMade(frags: Fragments)
    | DrawId
    | Acquire
    | LoadFull
    | Decide
    | Release
    | ReadFailed(error: Error)
    | ReadDone(data: bytes)
    | Return

  /** The check on the snapshot asks for the key's lockout, if the key is there. */
  predicate AsksForKey(pc: Pc)
    requires pc.Snapshot?
  {
    !pc.op.Register? && pc.op.id in pc.snap
  }

  function KeyTestOf(pc: Pc, log: seq<Event>, now: Time): KeyTest
    requires pc.Snapshot? && AsksForKey(pc)
  {
    KeyTest(|log|, pc.at, pc.snap[pc.op.id].name, now)
  }

  /** The check on the snapshot. */
  ghost function AfterSnapshot(st: Setup, log: seq<Event>, pc: Pc, now: Time): Pc
    requires pc.Snapshot?
  {
    if AsksForKey(pc) then
      var test := KeyTestOf(pc, log, now);
      var gate := pc.gate.(key := Some(test));
      if KeyLocked(st, log, test.name, now) then Done(pc.op, pc.call, pc.lo, gate, pc.at, Refused(KeyIsLocked))
      else if pc.op.WithKey? then Reading(pc.op, pc.call, pc.lo, gate, pc.at, pc.snap[pc.op.id].frags)
      else Preparing(pc.op, pc.call, pc.lo, gate)
    else if !pc.op.Register? then Done(pc.op, pc.call, pc.lo, pc.gate, pc.at, Refused(NotFound))
    else if NameTaken(pc.snap, pc.op.name) then Done(pc.op, pc.call, pc.lo, pc.gate, pc.at, Refused(Duplicate))
    else Preparing(pc.op, pc.call, pc.lo, pc.gate)
  }

  ghost predicate Moves(st: Setup, sh: Shared, pc: Pc, a: Action, sh': Shared, pc': Pc) {
    match a
    case Call(op) =>
      && pc.Idle? && sh' == sh.(calls := sh.calls + 1)
      && var lo := |sh.changes|;
         var gate := Gate(|sh.log|, None, None);
         pc' == if op.Unregister? then Waiting(op, sh.calls, lo, gate, Remove(op.id)) else Begun(op, sh.calls, lo, gate)
    case TestVault =>
      && pc.Begun? && sh' == sh
      && var gate := pc.gate.(vault := Some(|sh.log|));
         pc' == if Down(st, sh.log) then Done(pc.op, pc.call, pc.lo, gate, pc.lo, Refused(VaultDown))
                else Admitted(pc.op, pc.call, pc.lo, gate)
    case Load =>
      pc.Admitted? && sh' == sh && pc' == Snapshot(pc.op, pc.call, pc.lo, pc.gate, |sh.changes|, sh.installed)
    case CheckSnapshot(now) =>
      && pc.Snapshot? && pc' == AfterSnapshot(st, sh.log, pc, now)
      && sh' == if AsksForKey(pc) then sh.(log := sh.log + [Ask(pc.snap[pc.op.id].name, now)]) else sh
    case FragmentFailed(error) =>
      && pc.Preparing? && sh' == sh
      && pc' == Done(pc.op, pc.call, pc.lo, pc.gate, pc.lo, Failed(error))
    case FragmentMade(frags) =>
      && pc.Preparing? && sh' == sh
      && (match pc.op
          case Register(_, key) => Holds(st, key, frags) && pc' == Prepared(pc.op, pc.call, pc.lo, pc.gate, frags)
          case Rotate(id, key) =>
            Holds(st, key, frags) && pc' == Waiting(pc.op, pc.call, pc.lo, pc.gate, Replace(id, frags, key))
          case _ => false)
    case DrawId =>
      && pc.Prepared? && pc.op.Register? && sh' == sh.(counter := sh.counter + 1)
      && pc' == Waiting(pc.op, pc.call, pc.lo, pc.gate,
                        Insert(IdOf(sh.counter), Entry(pc.op.name, pc.frags, pc.op.key)))
    case Acquire =>
      && pc.Waiting? && !sh.locked && sh' == sh.(locked := true)
      && pc' == Holding(pc.op, pc.call, pc.lo, pc.gate, pc.change)
    case LoadFull =>
      pc.Holding? && sh' == sh && pc' == Loaded(pc.op, pc.call, pc.lo, pc.gate, pc.change, sh.installed)
    case Decide =>
      && pc.Loaded?
      && var at := |sh.changes|;
         if Accepts(pc.current, pc.change) then
           && sh' == Install(sh, Apply(pc.current, pc.change), pc.change, pc.call)
           && pc' == Leaving(pc.op, pc.call, pc.lo, pc.gate, at, SuccessOf(pc.change))
         else
           sh' == sh && pc' == Leaving(pc.op, pc.call, pc.lo, pc.gate, at, Refused(RefusalOf(pc.change)))
    case Release =>
      pc.Leaving? && sh' == sh.(locked := false) && pc' == Done(pc.op, pc.call, pc.lo, pc.gate, pc.at, pc.outcome)
    case ReadFailed(error) =>
      && pc.Reading? && sh' == sh
      && pc' == Done(pc.op, pc.call, pc.lo, pc.gate, pc.at, Failed(error))
    case ReadDone(data) =>
      && pc.Reading? && sh' == sh && Read(st, pc.frags) == Ok(data)
      && pc' == Done(pc.op, pc.call, pc.lo, pc.gate, pc.at, Saw(data))
    case Return =>
      pc.Done? && sh' == sh && pc' == Idle
  }

  function Install(sh: Shared, m: KeyMap, c: Change, call: nat): Shared {
    sh.(installed := m, history := sh.history + [m], changes := sh.changes + [c], callers := sh.callers + [call])
  }

  /** A step of thread `t`; or another vault drawing an id from the shared counter; or a call to
      the lockout policy (a reported failure, a clear, a question) from elsewhere. */
  ghost predicate Step(st: Setup, s: State, s': State) {
    || s' == s.(sh := s.sh.(counter := s.sh.counter + 1))
    || (exists e :: s' == s.(sh := s.sh.(log := s.sh.log + [e])))
    || exists t, a, pc' :: Moves(st, s.sh, PcOf(s, t), a, s'.sh, pc') && s'.pcs == s.pcs[t := pc']
  }

  // ----- the invariant -----

  /** The finished call is explained by the version `at` of the map, which was current at
      some moment between its beginning and now: it did to that version, or saw in it, what
      an atomic map would have. */
  ghost predicate Explained(st: Setup, sh: Shared, op: Op, call: nat, at: nat, outcome: Outcome) {
    && at < |sh.history| && (Succeeded(outcome) <==> call in sh.callers)
    && match outcome
       case Saw(data) =>
         op.WithKey? && op.id in sh.history[at] && Read(st, sh.history[at][op.id].frags) == Ok(data)
       case Refused(Duplicate) => op.Register? && NameTaken(sh.history[at], op.name)
       case Refused(NotFound) => !op.Register? && op.id !in sh.history[at]
       case Refused(_) => true
       case Failed(_) => true
       case _ =>
         && at < |sh.changes| && at < |sh.callers| && sh.callers[at] == call
         && Carries(op, sh.changes[at]) && outcome == SuccessOf(sh.changes[at])
  }

  ghost predicate ChangeOk(st: Setup, c: Change) {
    match c
    case Insert(_, entry) => Holds(st, entry.key, entry.frags)
    case Replace(_, frags, key) => Holds(st, key, frags)
    case Remove(_) => true
  }

  /** A change not yet made belongs to its call and has storable contents. */
  ghost predicate PendingOk(st: Setup, sh: Shared, op: Op, call: nat, c: Change) {
    && Carries(op, c) && ChangeOk(st, c) && call !in sh.callers
  }

  ghost predicate ThreadOk(st: Setup, sh: Shared, pc: Pc) {
    && (HoldsLock(pc) ==> sh.locked)
    && (!pc.Idle? ==> pc.call < sh.calls && pc.lo < |sh.history|)
    && match pc
       case Idle => true
       case Begun(_, call, _, _) => call !in sh.callers
       case Admitted(_, call, _, _) => call !in sh.callers
       case Snapshot(_, call, lo, _, at, snap) =>
         call !in sh.callers && lo <= at < |sh.history| && snap == sh.history[at]
       case Preparing(_, call, _, _) => call !in sh.callers
       case Prepared(op, call, _, _, frags) =>
         call !in sh.callers && op.Register? && Holds(st, op.key, frags)
       case Reading(op, call, lo, _, at, frags) =>
         && call !in sh.callers && op.WithKey? && lo <= at < |sh.history| && op.id in sh.history[at]
         && frags == sh.history[at][op.id].frags
       case Waiting(op, call, _, _, change) => PendingOk(st, sh, op, call, change)
       case Holding(op, call, _, _, change) => PendingOk(st, sh, op, call, change)
       case Loaded(op, call, _, _, change, current) =>
         PendingOk(st, sh, op, call, change) && current == sh.installed
       case Leaving(op, call, lo, _, at, outcome) => lo <= at && Explained(st, sh, op, call, at, outcome)
       case Done(op, call, lo, _, at, outcome) => lo <= at && Explained(st, sh, op, call, at, outcome)
  }

  ghost predicate MapOk(st: Setup, m: KeyMap) {
    UniqueNames(m) && forall id :: id in m ==> Holds(st, m[id].key, m[id].frags)
  }

  /** Version `k` became version `k + 1` by an accepted change. */
  ghost predicate LinkOk(sh: Shared, k: nat)
    requires k < |sh.changes| && k + 1 < |sh.history|
  {
    Accepts(sh.history[k], sh.changes[k]) && sh.history[k + 1] == Apply(sh.history[k], sh.changes[k])
  }

  ghost predicate SharedOk(st: Setup, sh: Shared) {
    && |sh.history| == |sh.changes| + 1 && |sh.callers| == |sh.changes|
    && sh.history[0] == map[] && sh.installed == sh.history[|sh.history| - 1]
    && (forall k :: 0 <= k < |sh.history| ==> MapOk(st, sh.history[k]))
    && (forall k :: 0 <= k < |sh.changes| ==> LinkOk(sh, k))
    && Distinct(sh.callers) && (forall k :: 0 <= k < |sh.callers| ==> sh.callers[k] < sh.calls)
  }

  /** The lock flag is never left set with nobody to clear it. */
  ghost predicate HeldIfLocked(s: State) {
    s.sh.locked ==> exists t :: HoldsLock(PcOf(s, t))
  }

  /** Two threads never share the lock or a call number. */
  ghost predicate PairOk(pc: Pc, pc': Pc) {
    && !(HoldsLock(pc) && HoldsLock(pc'))
    && (!pc.Idle? && !pc'.Idle? ==> pc.call != pc'.call)
  }

  ghost predicate Inv(st: Setup, s: State) {
    && SharedOk(st, s.sh) && HeldIfLocked(s)
    && (forall t: ThreadId :: ThreadOk(st, s.sh, PcOf(s, t)))
    && PairsOk(s)
  }

  ghost predicate PairsOk(s: State) {
    forall t: ThreadId, u: ThreadId :: t != u ==> PairOk(PcOf(s, t), PcOf(s, u))
  }

  // ----- what the steps of one thread leave of the others -----

  /** No map was installed; the counters may have moved. */
  ghost predicate Quiet(sh: Shared, sh': Shared) {
    && sh'.installed == sh.installed && sh'.history == sh.history
    && sh'.changes == sh.changes && sh'.callers == sh.callers
    && sh.calls <= sh'.calls
  }

  lemma QuietKeepsShared(st: Setup, sh: Shared, sh': Shared)
    requires SharedOk(st, sh) && Quiet(sh, sh')
    ensures SharedOk(st, sh')
  {
    forall k | 0 <= k < |sh'.changes| ensures LinkOk(sh', k) {
      assert LinkOk(sh, k);
    }
  }

  lemma QuietKeepsThread(st: Setup, sh: Shared, sh': Shared, pc: Pc)
    requires ThreadOk(st, sh, pc) && Quiet(sh, sh')
    requires HoldsLock(pc) ==> sh'.locked
    ensures ThreadOk(st, sh', pc)
  {
    if pc.Leaving? || pc.Done? {
      QuietKeepsExplained(st, sh, sh', pc.op, pc.call, pc.at, pc.outcome);
    } else if pc.Waiting? || pc.Holding? || pc.Loaded? {
      assert PendingOk(st, sh', pc.op, pc.call, pc.change);
    }
  }

  lemma QuietKeepsExplained(st: Setup, sh: Shared, sh': Shared, op: Op, call: nat, at: nat, outcome: Outcome)
    requires Explained(st, sh, op, call, at, outcome) && Quiet(sh, sh')
    ensures Explained(st, sh', op, call, at, outcome)
  {
  }

  /** The lock holder, about to make a change it was allowed to make. */
  ghost predicate Installs(st: Setup, sh: Shared, op: Op, call: nat, c: Change) {
    && SharedOk(st, sh) && sh.locked && call < sh.calls
    && PendingOk(st, sh, op, call, c) && Accepts(sh.installed, c)
  }

  lemma ApplyKeepsMap(st: Setup, m: KeyMap, c: Change)
    requires MapOk(st, m) && Accepts(m, c) && ChangeOk(st, c)
    ensures MapOk(st, Apply(m, c))
  {
  }

  lemma InstallKeepsShared(st: Setup, sh: Shared, op: Op, call: nat, c: Change)
    requires Installs(st, sh, op, call, c)
    ensures SharedOk(st, Install(sh, Apply(sh.installed, c), c, call))
  {
    var n := |sh.changes|;
    var m := Apply(sh.installed, c);
    var sh' := Install(sh, m, c, call);
    assert MapOk(st, sh.history[n]);
    ApplyKeepsMap(st, sh.installed, c);
    forall k | 0 <= k < |sh'.history| ensures MapOk(st, sh'.history[k]) {
      assert MapOk(st, if k <= n then sh.history[k] else m);
    }
    forall k | 0 <= k < |sh'.changes| ensures LinkOk(sh', k) {
      if k < n {
        assert LinkOk(sh, k);
      }
    }
  }

  lemma InstallKeepsExplained(st: Setup, sh: Shared, m: KeyMap, c: Change, caller: nat,
                              op: Op, call: nat, at: nat, outcome: Outcome)
    requires Explained(st, sh, op, call, at, outcome) && call != caller
    ensures Explained(st, Install(sh, m, c, caller), op, call, at, outcome)
  {
    assert Install(sh, m, c, caller).history[at] == sh.history[at];
  }

  lemma InstallKeepsThread(st: Setup, sh: Shared, op: Op, call: nat, c: Change, pc: Pc)
    requires Installs(st, sh, op, call, c)
    requires ThreadOk(st, sh, pc) && !HoldsLock(pc)
    requires !pc.Idle? ==> pc.call != call
    ensures ThreadOk(st, Install(sh, Apply(sh.installed, c), c, call), pc)
  {
    if pc.Leaving? || pc.Done? {
      InstallKeepsExplained(st, sh, Apply(sh.installed, c), c, call, pc.op, pc.call, pc.at, pc.outcome);
    }
  }

  // ----- every step keeps the invariant -----

  /** What a step does for the thread that makes it. */
  ghost predicate StepOk(st: Setup, sh: Shared, pc: Pc, sh': Shared, pc': Pc) {
    && ThreadOk(st, sh', pc')
    && (HoldsLock(pc') ==> HoldsLock(pc) || !sh.locked)
    && (sh'.locked <==> HoldsLock(pc') || (sh.locked && !HoldsLock(pc)))
    && (!pc'.Idle? ==> pc'.call == if pc.Idle? then sh.calls else pc.call)
  }

  lemma StartSteps(st: Setup, sh: Shared, pc: Pc, a: Action, sh': Shared, pc': Pc)
    requires SharedOk(st, sh) && ThreadOk(st, sh, pc) && Moves(st, sh, pc, a, sh', pc')
    requires a.Call? || a.TestVault? || a.Load? || a.Return?
    ensures Quiet(sh, sh') && StepOk(st, sh, pc, sh', pc')
  {
  }

  lemma CheckStep(st: Setup, sh: Shared, pc: Pc, a: Action, sh': Shared, pc': Pc)
    requires SharedOk(st, sh) && ThreadOk(st, sh, pc) && Moves(st, sh, pc, a, sh', pc')
    requires a.CheckSnapshot?
    ensures Quiet(sh, sh') && StepOk(st, sh, pc, sh', pc')
  {
  }

  lemma ReadSteps(st: Setup, sh: Shared, pc: Pc, a: Action, sh': Shared, pc': Pc)
    requires SharedOk(st, sh) && ThreadOk(st, sh, pc) && Moves(st, sh, pc, a, sh', pc')
    requires a.ReadFailed? || a.ReadDone?
    ensures Quiet(sh, sh') && StepOk(st, sh, pc, sh', pc')
  {
  }

  lemma PrepareSteps(st: Setup, sh: Shared, pc: Pc, a: Action, sh': Shared, pc': Pc)
    requires SharedOk(st, sh) && ThreadOk(st, sh, pc) && Moves(st, sh, pc, a, sh', pc')
    requires a.FragmentFailed? || a.FragmentMade? || a.DrawId?
    ensures Quiet(sh, sh') && StepOk(st, sh, pc, sh', pc')
  {
  }

  lemma LockSteps(st: Setup, sh: Shared, pc: Pc, a: Action, sh': Shared, pc': Pc)
    requires SharedOk(st, sh) && ThreadOk(st, sh, pc) && Moves(st, sh, pc, a, sh', pc')
    requires a.Acquire? || a.LoadFull? || a.Release?
    ensures Quiet(sh, sh') && StepOk(st, sh, pc, sh', pc')
  {
  }

  /** Deciding on `current` is deciding on the installed map: nothing was installed since. */
  lemma DecideStep(st: Setup, sh: Shared, pc: Pc, sh': Shared, pc': Pc)
    requires SharedOk(st, sh) && ThreadOk(st, sh, pc) && Moves(st, sh, pc, Decide, sh', pc')
    ensures StepOk(st, sh, pc, sh', pc') && pc.current == sh.installed
    ensures Accepts(sh.installed, pc.change) ==>
              && Installs(st, sh, pc.op, pc.call, pc.change)
              && sh' == Install(sh, Apply(sh.installed, pc.change), pc.change, pc.call)
    ensures !Accepts(sh.installed, pc.change) ==> sh' == sh
  {
  }

  /** What a step does to the shared state: nothing the others can see but counters
      and the lock, or the installation of the change it holds the lock for. */
  ghost predicate Effect(st: Setup, sh: Shared, pc: Pc, sh': Shared) {
    || Quiet(sh, sh')
    || (pc.Loaded? && Installs(st, sh, pc.op, pc.call, pc.change)
        && sh' == Install(sh, Apply(sh.installed, pc.change), pc.change, pc.call))
  }

  lemma OwnStep(st: Setup, sh: Shared, pc: Pc, a: Action, sh': Shared, pc': Pc)
    requires SharedOk(st, sh) && ThreadOk(st, sh, pc) && Moves(st, sh, pc, a, sh', pc')
    ensures StepOk(st, sh, pc, sh', pc') && Effect(st, sh, pc, sh')
  {
    if a.Decide? {
      DecideStep(st, sh, pc, sh', pc');
    } else if a.CheckSnapshot? {
      CheckStep(st, sh, pc, a, sh', pc');
    } else if a.FragmentFailed? || a.FragmentMade? || a.DrawId? {
      PrepareSteps(st, sh, pc, a, sh', pc');
    } else if a.ReadFailed? || a.ReadDone? {
      ReadSteps(st, sh, pc, a, sh', pc');
    } else if a.Acquire? || a.LoadFull? || a.Release? {
      LockSteps(st, sh, pc, a, sh', pc');
    } else {
      StartSteps(st, sh, pc, a, sh', pc');
    }
  }

  lemma EffectKeepsShared(st: Setup, sh: Shared, pc: Pc, sh': Shared)
    requires SharedOk(st, sh) && Effect(st, sh, pc, sh')
    ensures SharedOk(st, sh')
  {
    if Quiet(sh, sh') {
      QuietKeepsShared(st, sh, sh');
    } else {
      InstallKeepsShared(st, sh, pc.op, pc.call, pc.change);
    }
  }

  /** A step leaves every other thread as it should be. */
  lemma OtherThread(st: Setup, sh: Shared, pc: Pc, sh': Shared, pc': Pc, other: Pc)
    requires SharedOk(st, sh) && Effect(st, sh, pc, sh') && StepOk(st, sh, pc, sh', pc')
    requires ThreadOk(st, sh, other) && PairOk(pc, other)
    ensures ThreadOk(st, sh', other)
  {
    if Quiet(sh, sh') {
      QuietKeepsThread(st, sh, sh', other);
    } else {
      InstallKeepsThread(st, sh, pc.op, pc.call, pc.change, other);
    }
  }

  lemma OtherPair(st: Setup, sh: Shared, pc: Pc, sh': Shared, pc': Pc, other: Pc)
    requires StepOk(st, sh, pc, sh', pc') && ThreadOk(st, sh, other) && PairOk(pc, other)
    ensures PairOk(pc', other) && PairOk(other, pc')
  {
  }

  lemma LockStaysHeld(st: Setup, s: State, t: ThreadId, s': State, pc': Pc)
    requires HeldIfLocked(s) && s'.pcs == s.pcs[t := pc'] && StepOk(st, s.sh, PcOf(s, t), s'.sh, pc')
    ensures HeldIfLocked(s')
  {
    if HoldsLock(pc') {
      assert HoldsLock(PcOf(s', t));
    } else if s'.sh.locked {
      var u :| HoldsLock(PcOf(s, u));
      assert HoldsLock(PcOf(s', u));
    }
  }

  lemma PairsKept(st: Setup, s: State, t: ThreadId, s': State, pc': Pc)
    requires PairsOk(s) && s'.pcs == s.pcs[t := pc'] && StepOk(st, s.sh, PcOf(s, t), s'.sh, pc')
    requires forall u: ThreadId :: ThreadOk(st, s.sh, PcOf(s, u))
    ensures PairsOk(s')
  {
    forall u: ThreadId, v: ThreadId | u != v ensures PairOk(PcOf(s', u), PcOf(s', v)) {
      if u == t {
        OtherPair(st, s.sh, PcOf(s, t), s'.sh, pc', PcOf(s, v));
      } else if v == t {
        OtherPair(st, s.sh, PcOf(s, t), s'.sh, pc', PcOf(s, u));
      } else {
        assert PairOk(PcOf(s, u), PcOf(s, v));
      }
    }
  }

  lemma ThreadStepKeepsInv(st: Setup, s: State, t: ThreadId, s': State, pc': Pc)
    requires Inv(st, s) && s'.pcs == s.pcs[t := pc']
    requires Effect(st, s.sh, PcOf(s, t), s'.sh) && StepOk(st, s.sh, PcOf(s, t), s'.sh, pc')
    ensures Inv(st, s')
  {
    EffectKeepsShared(st, s.sh, PcOf(s, t), s'.sh);
    LockStaysHeld(st, s, t, s', pc');
    forall u: ThreadId ensures ThreadOk(st, s'.sh, PcOf(s', u)) {
      if u != t {
        OtherThread(st, s.sh, PcOf(s, t), s'.sh, pc', PcOf(s, u));
      }
    }
    PairsKept(st, s, t, s', pc');
  }

  lemma StepKeepsInv(st: Setup, s: State, s': State)
    requires Inv(st, s) && Step(st, s, s')
    ensures Inv(st, s')
  {
    if s'.pcs == s.pcs && Quiet(s.sh, s'.sh) && s'.sh.locked == s.sh.locked {
      QuietKeepsShared(st, s.sh, s'.sh);
      forall u: ThreadId ensures ThreadOk(st, s'.sh, PcOf(s', u)) {
        QuietKeepsThread(st, s.sh, s'.sh, PcOf(s, u));
      }
      assert forall u: ThreadId :: PcOf(s', u) == PcOf(s, u);
    } else {
      var t, a, pc' :| Moves(st, s.sh, PcOf(s, t), a, s'.sh, pc') && s'.pcs == s.pcs[t := pc'];
      OwnStep(st, s.sh, PcOf(s, t), a, s'.sh, pc');
      ThreadStepKeepsInv(st, s, t, s', pc');
    }
  }
}
