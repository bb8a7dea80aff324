/** Fresh handles: until the id counter wraps, no id is ever inserted twice. */
module RegistryIds {
  import opened Core
  import opened Handles
  import opened Registry

  ghost predicate Pending(pc: Pc, id: KeyId) {
    (pc.Waiting? || pc.Holding? || pc.Loaded?) && pc.change.Insert? && pc.change.id == id
  }

  ghost predicate NeverUsed(sh: Shared, id: KeyId) {
    forall k :: 0 <= k < |sh.history| ==> id !in sh.history[k]
  }

  /** Every id in the map has been drawn. */
  ghost predicate Drawn(m: KeyMap, counter: nat) {
    forall id :: id in m ==> 1 <= id < counter
  }

  /** The id that led to version `k + 1`, if one was inserted, was in no version before. */
  ghost predicate NewAt(sh: Shared, k: nat)
    requires k < |sh.changes| && k < |sh.history|
  {
    sh.changes[k].Insert? ==> forall j :: 0 <= j <= k ==> sh.changes[k].id !in sh.history[j]
  }

  ghost predicate PendingFresh(sh: Shared, pc: Pc) {
    forall id: KeyId :: Pending(pc, id) ==> 1 <= id < sh.counter && NeverUsed(sh, id)
  }

  ghost predicate Apart(pc: Pc, pc': Pc) {
    forall id :: !(Pending(pc, id) && Pending(pc', id))
  }

  ghost predicate SharedFresh(sh: Shared) {
    && sh.counter >= 1 && |sh.history| == |sh.changes| + 1
    && (forall k :: 0 <= k < |sh.history| ==> Drawn(sh.history[k], sh.counter))
    && (forall k :: 0 <= k < |sh.changes| ==> NewAt(sh, k))
  }

  /** Ids in use were drawn, inserted ids were new, and ids about to be inserted are new
      and differ from each other. */
  ghost predicate Fresh(s: State) {
    && SharedFresh(s.sh)
    && (forall t: ThreadId :: PendingFresh(s.sh, PcOf(s, t)))
    && (forall t: ThreadId, u: ThreadId :: t != u ==> Apart(PcOf(s, t), PcOf(s, u)))
  }

  /** A step of a thread inserts the id it holds, or draws the next one, or neither. */
  ghost predicate Draws(sh: Shared, pc: Pc, sh': Shared, pc': Pc) {
    && sh'.history == sh.history && sh'.changes == sh.changes && sh.counter <= sh'.counter
    && forall id :: Pending(pc', id) ==>
         Pending(pc, id) || (id == IdOf(sh.counter) && sh'.counter == sh.counter + 1)
  }

  ghost predicate Inserts(sh: Shared, pc: Pc, sh': Shared, pc': Pc) {
    && pc.Loaded? && Accepts(sh.installed, pc.change) && pc'.Leaving?
    && sh' == Install(sh, Apply(sh.installed, pc.change), pc.change, pc.call)
  }

  lemma MovesIds(st: Setup, sh: Shared, pc: Pc, a: Action, sh': Shared, pc': Pc)
    requires Moves(st, sh, pc, a, sh', pc') && (pc.Loaded? ==> pc.current == sh.installed)
    ensures Draws(sh, pc, sh', pc') || Inserts(sh, pc, sh', pc')
  {
  }

  /** Before the counter wraps, a drawn id is above every id ever used. */
  lemma DrawIsFresh(sh: Shared, pc: Pc, sh': Shared, pc': Pc)
    requires SharedFresh(sh) && PendingFresh(sh, pc) && Draws(sh, pc, sh', pc') && sh'.counter <= TWO_64
    ensures SharedFresh(sh') && PendingFresh(sh', pc')
    ensures forall id :: Pending(pc', id) ==> Pending(pc, id) || id == sh.counter
  {
    if sh.counter < TWO_64 {
      IdsFreshUntilWrap(sh.counter);
    }
    forall k | 0 <= k < |sh'.history| ensures Drawn(sh'.history[k], sh'.counter) && sh.counter !in sh'.history[k] {
      assert Drawn(sh.history[k], sh.counter);
    }
    forall k | 0 <= k < |sh'.changes| ensures NewAt(sh', k) {
      assert NewAt(sh, k);
    }
  }

  lemma InsertIsFresh(sh: Shared, pc: Pc, sh': Shared, pc': Pc)
    requires SharedFresh(sh) && sh.installed == sh.history[|sh.history| - 1]
    requires PendingFresh(sh, pc) && Inserts(sh, pc, sh', pc')
    ensures SharedFresh(sh') && PendingFresh(sh', pc')
  {
    var n := |sh.changes|;
    if pc.change.Insert? {
      assert Pending(pc, pc.change.id);
    }
    forall k | 0 <= k < |sh'.history| ensures Drawn(sh'.history[k], sh'.counter) {
      assert Drawn(sh.history[if k <= n then k else n], sh.counter);
    }
    forall k | 0 <= k < |sh'.changes| ensures NewAt(sh', k) {
      assert k < n ==> NewAt(sh, k);
    }
  }

  /** A step of one thread leaves what another has drawn new. */
  lemma OtherStaysFresh(sh: Shared, pc: Pc, sh': Shared, pc': Pc, other: Pc)
    requires SharedFresh(sh) && sh.installed == sh.history[|sh.history| - 1]
    requires Draws(sh, pc, sh', pc') || Inserts(sh, pc, sh', pc')
    requires PendingFresh(sh, other) && Apart(pc, other)
    ensures PendingFresh(sh', other)
  {
    if !Draws(sh, pc, sh', pc') && pc.change.Insert? {
      assert Pending(pc, pc.change.id);
    }
  }

  lemma OtherStaysApart(sh: Shared, pc: Pc, pc': Pc, other: Pc)
    requires PendingFresh(sh, other) && Apart(pc, other)
    requires forall id :: Pending(pc', id) ==> Pending(pc, id) || id == sh.counter
    ensures Apart(pc', other) && Apart(other, pc')
  {
  }

  lemma ThreadStepKeepsFresh(s: State, t: ThreadId, s': State, pc': Pc)
    requires Fresh(s) && s.sh.installed == s.sh.history[|s.sh.history| - 1]
    requires s'.pcs == s.pcs[t := pc'] && s'.sh.counter <= TWO_64
    requires Draws(s.sh, PcOf(s, t), s'.sh, pc') || Inserts(s.sh, PcOf(s, t), s'.sh, pc')
    ensures Fresh(s')
  {
    var sh, pc := s.sh, PcOf(s, t);
    assert PendingFresh(sh, pc);
    if Draws(sh, pc, s'.sh, pc') {
      DrawIsFresh(sh, pc, s'.sh, pc');
    } else {
      InsertIsFresh(sh, pc, s'.sh, pc');
    }
    forall u: ThreadId ensures PendingFresh(s'.sh, PcOf(s', u)) {
      if u != t {
        assert Apart(pc, PcOf(s, u));
        OtherStaysFresh(sh, pc, s'.sh, pc', PcOf(s, u));
      }
    }
    forall u: ThreadId, v: ThreadId | u != v ensures Apart(PcOf(s', u), PcOf(s', v)) {
      assert Apart(PcOf(s, u), PcOf(s, v)) && Apart(PcOf(s, v), PcOf(s, u));
      if u == t {
        OtherStaysApart(sh, pc, pc', PcOf(s, v));
      } else if v == t {
        OtherStaysApart(sh, pc, pc', PcOf(s, u));
      }
    }
  }

  lemma StepKeepsFresh(st: Setup, s: State, s': State)
    requires Inv(st, s) && Fresh(s) && Step(st, s, s') && s'.sh.counter <= TWO_64
    ensures Fresh(s')
  {
    if s'.pcs == s.pcs && Draws(s.sh, Idle, s'.sh, Idle) {
      DrawIsFresh(s.sh, Idle, s'.sh, Idle);
      forall u: ThreadId ensures PendingFresh(s'.sh, PcOf(s', u)) {
        assert PendingFresh(s.sh, PcOf(s, u));
      }
      assert forall u: ThreadId :: PcOf(s', u) == PcOf(s, u);
    } else {
      var t, a, pc' :| Moves(st, s.sh, PcOf(s, t), a, s'.sh, pc') && s'.pcs == s.pcs[t := pc'];
      assert ThreadOk(st, s.sh, PcOf(s, t));
      MovesIds(st, s.sh, PcOf(s, t), a, s'.sh, pc');
      ThreadStepKeepsFresh(s, t, s', pc');
    }
  }
}
