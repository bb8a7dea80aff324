/** The lock counter between the steps of concurrent calls. Everything done while the lock map
    is held is one step; `clear_key_lockout` decrements the counter in a step of its own, after
    it has let go of the map. */
module LockCounter {
  import opened Core

  type CallId = nat

  /** A 64-bit counter that wraps; `turns` is how often it went round, for the proofs. */
  datatype Counter = Counter(value: u64, turns: int)

  function Up(c: Counter): Counter {
    if c.value == USIZE_MAX then Counter(0, c.turns + 1) else Counter(c.value + 1, c.turns)
  }

  function Down(c: Counter): Counter {
    if c.value == 0 then Counter(USIZE_MAX, c.turns - 1) else Counter(c.value - 1, c.turns)
  }

  /** What it would show if it did not wrap. */
  function Total(c: Counter): int {
    c.value + c.turns * TWO_64
  }

  lemma TotalMoves(c: Counter)
    ensures Total(Up(c)) == Total(c) + 1 && Total(Down(c)) == Total(c) - 1
  {
    assert (c.turns + 1) * TWO_64 == c.turns * TWO_64 + TWO_64;
    assert (c.turns - 1) * TWO_64 == c.turns * TWO_64 - TWO_64;
  }

  /** The names that have a lock and the counter; and the calls of `clear_key_lockout` that
      have removed a lock and not yet decremented, those with no full clear since their
      removal apart from the others, and how many of the others have decremented since the
      last full clear. */
  datatype World = World(locks: set<string>, counter: Counter, early: set<CallId>, stale: set<CallId>, late: nat)

  const ZERO := Counter(0, 0)

  const START := World({}, ZERO, {}, {}, 0)

  datatype Step =
    | Breach(name: string)
    | Expire(name: string)
    | Remove(call: CallId, name: string)
    | Decrement(call: CallId)
    | ClearAll

  predicate Owed(w: World, call: CallId) {
    call in w.early || call in w.stale
  }

  /** A removal that finds nothing, or a decrement nobody owes, does nothing. */
  function Next(w: World, s: Step): World {
    match s
    case Breach(name) =>
      if name in w.locks then w else w.(locks := w.locks + {name}, counter := Up(w.counter))
    case Expire(name) =>
      if name in w.locks then w.(locks := w.locks - {name}, counter := Down(w.counter)) else w
    case Remove(call, name) =>
      if name in w.locks && !Owed(w, call) then
        w.(locks := w.locks - {name}, early := w.early + {call})
      else w
    case Decrement(call) =>
      if call in w.early then w.(counter := Down(w.counter), early := w.early - {call})
      else if call in w.stale then
        w.(counter := Down(w.counter), stale := w.stale - {call}, late := w.late + 1)
      else w
    case ClearAll => World({}, ZERO, {}, w.early + w.stale, 0)
  }

  function Run(steps: seq<Step>): World {
    if steps == [] then START else Next(Run(steps[..|steps| - 1]), steps[|steps| - 1])
  }

  /** The counter is ahead by the decrements still owed and behind by those that came after a
      full clear had already set it to zero. */
  ghost predicate Inv(w: World) {
    w.early !! w.stale && Total(w.counter) == |w.locks| + |w.early| - w.late
  }

  lemma NextKeeps(w: World, s: Step)
    requires Inv(w)
    ensures Inv(Next(w, s))
  {
    TotalMoves(w.counter);
    match s {
      case Breach(name) => SizeWith(w.locks, name);
      case Expire(name) => SizeWith(w.locks, name);
      case Remove(call, name) =>
        SizeWith(w.locks, name);
        SizeWith(w.early, call);
      case Decrement(call) => SizeWith(w.early, call);
      case ClearAll =>
    }
  }

  lemma SizeWith<T>(s: set<T>, x: T)
    ensures |s + {x}| == if x in s then |s| else |s| + 1
    ensures |s - {x}| == if x in s then |s| - 1 else |s|
  {
    if x in s {
      assert s + {x} == s;
    } else {
      assert s - {x} == s;
    }
  }

  /** What the counter shows of a number it is congruent to. */
  lemma ShownValue(value: u64, turns: int, n: int)
    requires Total(Counter(value, turns)) == n && 0 < n + TWO_64 && n < TWO_64
    ensures value == if n >= 0 then n else n + TWO_64
  {
    assert turns >= 1 ==> n >= TWO_64;
    assert turns <= -2 ==> n + TWO_64 < 0;
  }

  /** In every interleaving of the steps of any number of calls. */
  lemma {:induction false} RunKeepsInv(steps: seq<Step>)
    ensures Inv(Run(steps))
  {
    if steps != [] {
      RunKeepsInv(steps[..|steps| - 1]);
      NextKeeps(Run(steps[..|steps| - 1]), steps[|steps| - 1]);
    }
  }

  /** With no decrement owed, the counter equals the size of the lock map if and only if no
      call that decremented since the last full clear had removed its lock before it. (There
      are never 2^64 of either.) */
  lemma CounterExactIff(steps: seq<Step>)
    requires var w := Run(steps);
             w.early == {} && |w.locks| < TWO_64 && w.late < TWO_64
    ensures var w := Run(steps);
            w.counter.value == |w.locks| <==> w.late == 0
  {
    RunKeepsInv(steps);
    var w := Run(steps);
    ShownValue(w.counter.value, w.counter.turns, |w.locks| + |w.early| - w.late);
  }

  /** At any moment the fast path answers for every name as if nothing were locked exactly if
      the late decrements make up for all locks and decrements owed. */
  lemma FastPathZeroIff(steps: seq<Step>)
    requires var w := Run(steps);
             |w.locks| + |w.early| < TWO_64 && w.late < TWO_64
    ensures var w := Run(steps);
            w.counter.value == 0 <==> |w.locks| + |w.early| == w.late
  {
    RunKeepsInv(steps);
    var w := Run(steps);
    ShownValue(w.counter.value, w.counter.turns, |w.locks| + |w.early| - w.late);
  }

  // ----- told by the steps -----

  /** The two steps of one call, with a full clear between them. */
  predicate Straddles(steps: seq<Step>, i: nat, k: nat, j: nat) {
    && i < k < j < |steps| && steps[k].ClearAll?
    && steps[i].Remove? && steps[j] == Decrement(steps[i].call)
  }

  ghost predicate Straddled(steps: seq<Step>) {
    exists i: nat, k: nat, j: nat :: Straddles(steps, i, k, j)
  }

  lemma {:induction false} OwedWasRemoved(steps: seq<Step>, call: CallId) returns (i: nat)
    requires call in Run(steps).early || call in Run(steps).stale
    ensures i < |steps| && steps[i].Remove? && steps[i].call == call
  {
    var n := |steps| - 1;
    var before := Run(steps[..n]);
    if call in before.early || call in before.stale {
      i := OwedWasRemoved(steps[..n], call);
    } else {
      i := n;
    }
  }

  lemma {:induction false} StaleSawClear(steps: seq<Step>, call: CallId) returns (i: nat, k: nat)
    requires call in Run(steps).stale
    ensures i < k < |steps| && steps[k].ClearAll? && steps[i].Remove? && steps[i].call == call
  {
    var n := |steps| - 1;
    if call in Run(steps[..n]).stale {
      i, k := StaleSawClear(steps[..n], call);
    } else {
      i := OwedWasRemoved(steps[..n], call);
      k := n;
    }
  }

  lemma StraddledGrows(steps: seq<Step>)
    requires steps != [] && Straddled(steps[..|steps| - 1])
    ensures Straddled(steps)
  {
    var i: nat, k: nat, j: nat :| Straddles(steps[..|steps| - 1], i, k, j);
    assert Straddles(steps, i, k, j);
  }

  /** Unless a full clear falls between the two steps of some call, the counter is at every
      moment the number of locks and of decrements still owed. */
  lemma {:induction false} NeverLateUnlessStraddled(steps: seq<Step>)
    ensures Run(steps).late > 0 ==> Straddled(steps)
  {
    if steps != [] && Run(steps).late > 0 {
      var n := |steps| - 1;
      var before := Run(steps[..n]);
      if before.late > 0 {
        NeverLateUnlessStraddled(steps[..n]);
        StraddledGrows(steps);
      } else {
        var i, k := StaleSawClear(steps[..n], steps[n].call);
        assert Straddles(steps, i, k, n);
      }
    }
  }

  lemma CounterExactUnlessStraddled(steps: seq<Step>)
    requires !Straddled(steps) && |Run(steps).locks| + |Run(steps).early| < TWO_64
    ensures var w := Run(steps);
            w.counter.value == |w.locks| + |w.early|
  {
    NeverLateUnlessStraddled(steps);
    RunKeepsInv(steps);
    var w := Run(steps);
    ShownValue(w.counter.value, w.counter.turns, |w.locks| + |w.early|);
  }

  /** A straddling call that did remove a lock, with its own decrement and no full clear since. */
  predicate LateStraddle(steps: seq<Step>, i: nat, k: nat, j: nat) {
    && Straddles(steps, i, k, j)
    && steps[i].name in Run(steps[..i]).locks && !Owed(Run(steps[..i]), steps[i].call)
    && (forall m :: i < m < j ==> steps[m] != steps[j])
    && (forall m :: j < m < |steps| ==> !steps[m].ClearAll?)
  }

  lemma RunStep(steps: seq<Step>, n: nat)
    requires n < |steps|
    ensures Run(steps[..n + 1]) == Next(Run(steps[..n]), steps[n])
  {
    assert steps[..n + 1][..n] == steps[..n];
  }

  lemma NextOwes(w: World, s: Step, call: CallId)
    requires s != Decrement(call)
    ensures Owed(w, call) ==> Owed(Next(w, s), call)
    ensures call in w.stale || (s.ClearAll? && Owed(w, call)) ==> call in Next(w, s).stale
  {
  }

  lemma NextIsLate(w: World, s: Step)
    ensures !s.ClearAll? ==> Next(w, s).late >= w.late
    ensures s.Decrement? && s.call in w.stale && s.call !in w.early ==> Next(w, s).late == w.late + 1
  {
  }

  /** A decrement stays owed until it is made. */
  lemma {:induction false} OwedUntilMade(steps: seq<Step>, i: nat, n: nat, call: CallId)
    requires i <= n <= |steps| && Owed(Run(steps[..i]), call)
    requires forall m :: i <= m < n ==> steps[m] != Decrement(call)
    ensures Owed(Run(steps[..n]), call)
    decreases n
  {
    if i < n {
      OwedUntilMade(steps, i, n - 1, call);
      RunStep(steps, n - 1);
      NextOwes(Run(steps[..n - 1]), steps[n - 1], call);
    }
  }

  lemma {:induction false} StaleUntilMade(steps: seq<Step>, k: nat, n: nat, call: CallId)
    requires k <= n <= |steps| && call in Run(steps[..k]).stale
    requires forall m :: k <= m < n ==> steps[m] != Decrement(call)
    ensures call in Run(steps[..n]).stale
    decreases n
  {
    if k < n {
      StaleUntilMade(steps, k, n - 1, call);
      RunStep(steps, n - 1);
      NextOwes(Run(steps[..n - 1]), steps[n - 1], call);
    }
  }

  lemma {:induction false} LateUntilCleared(steps: seq<Step>, j: nat, n: nat)
    requires j <= n <= |steps| && Run(steps[..j]).late > 0
    requires forall m :: j <= m < n ==> !steps[m].ClearAll?
    ensures Run(steps[..n]).late > 0
    decreases n
  {
    if j < n {
      LateUntilCleared(steps, j, n - 1);
      RunStep(steps, n - 1);
      NextIsLate(Run(steps[..n - 1]), steps[n - 1]);
    }
  }

  lemma {:induction false} NeverBoth(steps: seq<Step>)
    ensures Run(steps).early !! Run(steps).stale
  {
    if steps != [] {
      NeverBoth(steps[..|steps| - 1]);
    }
  }

  lemma RemovalOwes(w: World, s: Step)
    requires s.Remove? && s.name in w.locks && !Owed(w, s.call)
    ensures Owed(Next(w, s), s.call)
  {
  }

  lemma StaleAtDecrement(steps: seq<Step>, i: nat, k: nat, j: nat)
    requires LateStraddle(steps, i, k, j)
    ensures steps[i].call in Run(steps[..j]).stale
  {
    var call := steps[i].call;
    RunStep(steps, i);
    RemovalOwes(Run(steps[..i]), steps[i]);
    OwedUntilMade(steps, i + 1, k, call);
    RunStep(steps, k);
    NextOwes(Run(steps[..k]), steps[k], call);
    StaleUntilMade(steps, k + 1, j, call);
  }

  lemma StraddleIsLate(steps: seq<Step>, i: nat, k: nat, j: nat)
    requires LateStraddle(steps, i, k, j)
    ensures Run(steps).late > 0
  {
    StaleAtDecrement(steps, i, k, j);
    RunStep(steps, j);
    NeverBoth(steps[..j]);
    NextIsLate(Run(steps[..j]), steps[j]);
    LateUntilCleared(steps, j + 1, |steps|);
    assert steps[..|steps|] == steps;
  }

  /** Such a call leaves the counter wrong once all decrements are made. */
  lemma StraddleBreaksCounter(steps: seq<Step>, i: nat, k: nat, j: nat)
    requires LateStraddle(steps, i, k, j)
    requires var w := Run(steps);
             w.early == {} && |w.locks| < TWO_64 && w.late < TWO_64
    ensures Run(steps).counter.value != |Run(steps).locks|
  {
    StraddleIsLate(steps, i, k, j);
    CounterExactIff(steps);
  }

  /** A full clear between the two steps wraps the counter; the next breach brings it to zero
      while its lock is in the map, and the fast path says that nothing is locked. */
  lemma StraddledExample()
    ensures var steps := [Breach("a"), Remove(0, "a"), ClearAll, Decrement(0)];
            && Straddles(steps, 1, 2, 3)
            && Run(steps).counter.value == USIZE_MAX && Run(steps).locks == {}
            && Run(steps + [Breach("b")]).counter.value == 0 && Run(steps + [Breach("b")]).locks == {"b"}
  {
    var s1 := [Breach("a")];
    var s2 := s1 + [Remove(0, "a")];
    var s3 := s2 + [ClearAll];
    var s4 := s3 + [Decrement(0)];
    var s5 := s4 + [Breach("b")];
    assert s1[..0] == [] && s2[..1] == s1 && s3[..2] == s2 && s4[..3] == s3 && s5[..4] == s4;
    assert s4 == [Breach("a"), Remove(0, "a"), ClearAll, Decrement(0)];
    assert Run(s1) == World({"a"}, Counter(1, 0), {}, {}, 0);
    assert Run(s2) == World({}, Counter(1, 0), {0}, {}, 0);
    assert Run(s3) == World({}, ZERO, {}, {0}, 0);
    assert Run(s4) == World({}, Counter(USIZE_MAX, -1), {}, {}, 1);
    assert Run(s5) == World({"b"}, ZERO, {}, {}, 1);
  }
}
