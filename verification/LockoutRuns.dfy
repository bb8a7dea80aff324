/** The lockouts told by the calls alone. A run's locks, expiries and forgotten failures are
    characterized without looking at any state, and exactly as far as that is possible: the
    failures of the master's name are pruned by the wrong window. */
module LockoutRuns {
  import opened Core
  import opened Lockout

  // ----- what the calls say -----

  /** The failures of `name` that count. They are forgotten when the name or everything is
      cleared, and when somebody asks for the name and finds its lockouts run out. */
  function EventHistory(cfg: Config, es: seq<Event>, name: string): seq<Time>
    decreases |es|, 0
  {
    if es == [] then [] else
    var before, e := es[..|es| - 1], es[|es| - 1];
    if IsFailure(e) && NameOf(e) == name then EventHistory(cfg, before, name) + [e.now]
    else if Cleared(e, name) || NoticesExpiry(cfg, before, e, name) then []
    else EventHistory(cfg, before, name)
  }

  predicate Cleared(e: Event, name: string) {
    e.ClearAll? || e == ClearKey(name)
  }

  predicate NoticesExpiry(cfg: Config, es: seq<Event>, e: Event, name: string)
    decreases |es|, 2
  {
    && e.Ask? && e.name == name
    && Entered(cfg, es, name) && !ShouldBeLocked(cfg, es, name, e.now)
  }

  /** The failure reaches the per-key threshold. */
  predicate KeyCrosses(cfg: Config, es: seq<Event>, e: Event)
    requires IsFailure(e)
    decreases |es|, 1
  {
    && PerKey(cfg, e)
    && CountWithin(EventHistory(cfg, es, NameOf(e)) + [e.now], e.now, cfg.keyWindow) >= cfg.keyThreshold
  }

  /** A lockout of `name` began, and was neither cleared nor noticed to have run out. */
  predicate Entered(cfg: Config, es: seq<Event>, name: string)
    decreases |es|, 0
  {
    es != [] &&
    var before, e := es[..|es| - 1], es[|es| - 1];
    && !Cleared(e, name) && !NoticesExpiry(cfg, before, e, name)
    && ((IsFailure(e) && NameOf(e) == name && KeyCrosses(cfg, before, e)) || Entered(cfg, before, name))
  }

  /** Some failure since the name was last cleared crossed its threshold, and the lockout it
      began has not run out at `t`. */
  predicate ShouldBeLocked(cfg: Config, es: seq<Event>, name: string, t: Time)
    decreases |es|, 0
  {
    es != [] &&
    var before, e := es[..|es| - 1], es[|es| - 1];
    && !Cleared(e, name)
    && ((IsFailure(e) && NameOf(e) == name && KeyCrosses(cfg, before, e) && Lasts(cfg, e.later, t))
        || ShouldBeLocked(cfg, before, name, t))
  }

  /** The failure reaches the vault-wide threshold. */
  predicate VaultCrosses(cfg: Config, es: seq<Event>, e: Event)
    requires IsFailure(e)
  {
    && cfg.maxFailures > 0
    && CountWithin(EventHistory(cfg, es, NameOf(e)) + [e.now], e.now, cfg.failureWindow) >= cfg.maxFailures
  }

  /** Some failure since the last full clear crossed the vault-wide threshold. */
  predicate ShouldBeDown(cfg: Config, es: seq<Event>) {
    es != [] &&
    var before, e := es[..|es| - 1], es[|es| - 1];
    !e.ClearAll? && ((IsFailure(e) && VaultCrosses(cfg, before, e)) || ShouldBeDown(cfg, before))
  }

  // ----- locks -----

  /** The run's state, as far as `name` is concerned, is what the calls say. */
  ghost predicate Agrees(cfg: Config, es: seq<Event>, name: string) {
    && EventHistory(cfg, es, name) == History(cfg, es, name)
    && (Entered(cfg, es, name) <==> name in Run(cfg, es).locks)
    && forall t: Time :: Clock(es) <= t ==>
         (ShouldBeLocked(cfg, es, name, t) <==> Locked(Run(cfg, es), name, t))
  }

  lemma NoticeAgrees(cfg: Config, es: seq<Event>, e: Event, name: string)
    requires Agrees(cfg, es, name) && NotBefore(e, Clock(es))
    ensures Cleared(e, name) || NoticesExpiry(cfg, es, e, name) <==> Resets(Run(cfg, es), e, name)
  {
    if e.Ask? {
      assert ShouldBeLocked(cfg, es, name, e.now) <==> Locked(Run(cfg, es), name, e.now);
    }
  }

  lemma EnteredNext(cfg: Config, p: Policy, e: Event, name: string)
    requires Valid(p)
    ensures name in Next(cfg, p, e).locks <==>
            !Resets(p, e, name) && ((IsFailure(e) && NameOf(e) == name && KeyBreach(cfg, p, e)) || name in p.locks)
  {
  }

  lemma {:induction false} RunAgrees(cfg: Config, es: seq<Event>, name: string)
    requires Ordered(es) && (Decided(cfg, name) || Clock(es) <= cfg.failureWindow)
    ensures Agrees(cfg, es, name)
  {
    if es != [] {
      var before, e := es[..|es| - 1], es[|es| - 1];
      ClockAdvances(es);
      RunAgrees(cfg, before, name);
      if IsFailure(e) && NameOf(e) == name {
        BreachIffCrossed(cfg, before, e);
      }
      NoticeAgrees(cfg, before, e, name);
      EnteredNext(cfg, Run(cfg, before), e, name);
      RunEndsInTime(cfg, before);
      forall t: Time | Clock(es) <= t
        ensures ShouldBeLocked(cfg, es, name, t) <==> Locked(Run(cfg, es), name, t)
      {
        assert ShouldBeLocked(cfg, before, name, t) <==> Locked(Run(cfg, before), name, t);
        LockedNext(cfg, Run(cfg, before), Clock(before), e, name, t);
      }
    }
  }

  /** The lock map, its expiries and its observed removals amount to exactly what the calls
      say, at every time from the last call on. */
  lemma KeyLockedIff(cfg: Config, es: seq<Event>, name: string, t: Time)
    requires Ordered(es) && Clock(es) <= t && Decided(cfg, name)
    ensures Locked(Run(cfg, es), name, t) <==> ShouldBeLocked(cfg, es, name, t)
  {
    RunAgrees(cfg, es, name);
  }

  // ----- the vault-wide flag -----

  /** Lockouts without an end are never noticed to have run out. */
  lemma {:induction false} EndlessNeverResets(cfg: Config, es: seq<Event>, name: string)
    requires Ordered(es) && cfg.keyDuration.None?
    ensures EventHistory(cfg, es, name) == History(cfg, es, name)
    ensures Entered(cfg, es, name) ==> forall t: Time :: ShouldBeLocked(cfg, es, name, t)
  {
    if es != [] {
      var before, e := es[..|es| - 1], es[|es| - 1];
      EndlessNeverResets(cfg, before, name);
      RunEndsInTime(cfg, before);
      assert e.Ask? && Entered(cfg, before, name) ==> ShouldBeLocked(cfg, before, name, e.now);
    }
  }

  /** The calls alone say when failures are forgotten, whatever the name. */
  predicate ResetsDecided(cfg: Config) {
    Decided(cfg, MASTER) || cfg.keyDuration.None?
  }

  lemma HistoryFromEvents(cfg: Config, es: seq<Event>, name: string)
    requires Ordered(es) && ResetsDecided(cfg)
    ensures EventHistory(cfg, es, name) == History(cfg, es, name)
  {
    if cfg.keyDuration.None? {
      EndlessNeverResets(cfg, es, name);
    } else {
      RunAgrees(cfg, es, name);
    }
  }

  lemma {:induction false} VaultLockedIff(cfg: Config, es: seq<Event>)
    requires Ordered(es) && ResetsDecided(cfg)
    ensures Run(cfg, es).lockedOut <==> ShouldBeDown(cfg, es)
  {
    if es != [] {
      var before, e := es[..|es| - 1], es[|es| - 1];
      VaultLockedIff(cfg, before);
      if IsFailure(e) {
        BreachIffCrossed(cfg, before, e);
        HistoryFromEvents(cfg, before, NameOf(e));
      }
    }
  }

  // ----- what the monitor hears -----

  /** What the monitor is due to hear of a failure, by the calls alone: first of the vault-wide
      threshold, then of the name's, each if it is crossed, with the number of failures in its
      window and whether there was a lockout before. */
  function BreachesDue(cfg: Config, es: seq<Event>, e: Event): seq<Breach>
    requires IsFailure(e)
  {
    var all := EventHistory(cfg, es, NameOf(e)) + [e.now];
    (if VaultCrosses(cfg, es, e)
     then [Breach(Vault, ToU32(CountWithin(all, e.now, cfg.failureWindow)), !ShouldBeDown(cfg, es))] else [])
    + (if KeyCrosses(cfg, es, e)
       then [Breach(Key, ToU32(CountWithin(all, e.now, cfg.keyWindow)), !Entered(cfg, es, NameOf(e)))] else [])
  }

  /** In every run it hears exactly that. */
  lemma BreachesAsDue(cfg: Config, es: seq<Event>, e: Event)
    requires Ordered(es) && IsFailure(e) && NotBefore(e, Clock(es))
    requires ResetsDecided(cfg) && KeyWindowKept(cfg, NameOf(e))
    ensures Breaches(cfg, Run(cfg, es), e) == BreachesDue(cfg, es, e)
  {
    RunAgrees(cfg, es, NameOf(e));
    VaultLockedIff(cfg, es);
    WindowCountsExact(cfg, es, e);
    BreachIffCrossed(cfg, es, e);
  }

  // ----- where the calls are not enough -----

  /** The same time, `n` times. */
  function Times(t: Time, n: nat): (s: seq<Time>)
    ensures |s| == n && forall i :: 0 <= i < n ==> s[i] == t
  {
    seq(n, _ => t)
  }

  lemma TimesPush(t: Time, n: nat)
    ensures Times(t, n) + [t] == Times(t, n + 1)
  {
  }

  lemma {:induction false} CountTimes(t: Time, n: nat, now: Time, window: Time)
    ensures CountWithin(Times(t, n), now, window) == if SatSub(now, t) <= window then n else 0
  {
    if n > 0 {
      CountTimes(t, n - 1, now, window);
      assert Times(t, n)[1..] == Times(t, n - 1);
    }
  }

  lemma CountBehind(first: Time, t: Time, n: nat, now: Time, window: Time)
    ensures CountWithin([first] + Times(t, n), now, window) ==
            (if SatSub(now, first) <= window then 1 else 0) + (if SatSub(now, t) <= window then n else 0)
  {
    CountTimes(t, n, now, window);
    assert ([first] + Times(t, n))[1..] == Times(t, n);
  }

  lemma {:induction false} PruneTimes(t: Time, n: nat, now: Time, keep: Time)
    ensures Prune(Times(t, n), now, keep) == if SatSub(now, t) <= keep then Times(t, n) else []
  {
    if n > 0 && SatSub(now, t) > keep {
      PruneTimes(t, n - 1, now, keep);
      assert Times(t, n)[1..] == Times(t, n - 1);
    }
  }

  /** What one more failure adds, by the calls and in the code. */
  lemma FailureSnoc(cfg: Config, es: seq<Event>, e: Event)
    requires IsFailure(e)
    ensures var all, name, p := es + [e], NameOf(e), Run(cfg, es);
            && Clock(all) == e.later && (Ordered(all) <==> Ordered(es) && NotBefore(e, Clock(es)))
            && EventHistory(cfg, all, name) == EventHistory(cfg, es, name) + [e.now]
            && History(cfg, all, name) == History(cfg, es, name) + [e.now]
            && (Entered(cfg, all, name) <==> Entered(cfg, es, name) || KeyCrosses(cfg, es, e))
            && (ShouldBeDown(cfg, all) <==> ShouldBeDown(cfg, es) || VaultCrosses(cfg, es, e))
            && Tracked(Run(cfg, all), name) == EntriesAfter(cfg, p, e)
            && (name in Run(cfg, all).locks <==> name in p.locks || KeyBreach(cfg, p, e))
            && (Run(cfg, all).lockedOut <==> p.lockedOut || VaultBreach(cfg, p, e))
    ensures forall t: Time ::
              ShouldBeLocked(cfg, es + [e], NameOf(e), t) <==>
              ShouldBeLocked(cfg, es, NameOf(e), t) || (KeyCrosses(cfg, es, e) && Lasts(cfg, e.later, t))
  {
    Unfold(es, e);
  }

  /** Just past the vault-wide window. */
  function Past(cfg: Config): Time
    requires !Decided(cfg, MASTER)
  {
    cfg.failureWindow + 1
  }

  /** A failure reported under the master's name, and `n` master mismatches just after it has
      left the vault-wide window. */
  function Mixed(cfg: Config, n: nat): seq<Event>
    requires !Decided(cfg, MASTER)
  {
    if n == 0 then [Report(MASTER, 0, 0)] else Mixed(cfg, n - 1) + [MasterFailure(Past(cfg), Past(cfg))]
  }

  /** A state in which the calls say `history` and the code remembers `entries`, the name is
      not locked and, if its threshold is not the lower one, neither is the vault. */
  ghost predicate Calm(cfg: Config, es: seq<Event>, history: seq<Time>, entries: seq<Time>, clock: Time) {
    && Ordered(es) && Clock(es) == clock
    && EventHistory(cfg, es, MASTER) == History(cfg, es, MASTER) == history
    && Tracked(Run(cfg, es), MASTER) == entries && MASTER !in Run(cfg, es).locks
    && (cfg.maxFailures >= cfg.keyThreshold ==> !Run(cfg, es).lockedOut && !ShouldBeDown(cfg, es))
  }

  /** A failure that crosses nothing the code sees. */
  lemma CalmFailure(cfg: Config, es: seq<Event>, history: seq<Time>, entries: seq<Time>, clock: Time, e: Event)
    requires Calm(cfg, es, history, entries, clock)
    requires IsFailure(e) && NameOf(e) == MASTER && clock <= e.now == e.later
    requires var left := Recorded(cfg, entries, e.now, PerKey(cfg, e));
             && CountWithin(left, e.now, cfg.failureWindow) < cfg.keyThreshold
             && CountWithin(history + [e.now], e.now, cfg.failureWindow) < cfg.keyThreshold
             && (PerKey(cfg, e) ==> CountWithin(left, e.now, cfg.keyWindow) < cfg.keyThreshold)
    ensures Calm(cfg, es + [e], history + [e.now], Recorded(cfg, entries, e.now, PerKey(cfg, e)), e.now)
  {
    FailureSnoc(cfg, es, e);
  }

  /** A master mismatch after which `n` failures are left, all of them at `now`. */
  lemma CalmMismatch(cfg: Config, es: seq<Event>, history: seq<Time>, entries: seq<Time>, clock: Time,
                     now: Time, n: nat)
    requires Calm(cfg, es, history, entries, clock) && clock <= now && n < cfg.keyThreshold
    requires Prune(entries, now, cfg.failureWindow) + [now] == Times(now, n)
    requires CountWithin(history + [now], now, cfg.failureWindow) < cfg.keyThreshold
    ensures Calm(cfg, es + [MasterFailure(now, now)], history + [now], Times(now, n), now)
    ensures Entered(cfg, es + [MasterFailure(now, now)], MASTER) <==> Entered(cfg, es, MASTER)
    ensures forall t: Time ::
              ShouldBeLocked(cfg, es + [MasterFailure(now, now)], MASTER, t) <==> ShouldBeLocked(cfg, es, MASTER, t)
  {
    var e := MasterFailure(now, now);
    CountTimes(now, n, now, cfg.failureWindow);
    CalmFailure(cfg, es, history, entries, clock, e);
    FailureSnoc(cfg, es, e);
  }

  lemma FirstReport(cfg: Config)
    requires !Decided(cfg, MASTER)
    ensures Calm(cfg, Mixed(cfg, 0), [0], [0], 0)
    ensures !Entered(cfg, Mixed(cfg, 0), MASTER) && forall t: Time :: !ShouldBeLocked(cfg, Mixed(cfg, 0), MASTER, t)
  {
    assert Mixed(cfg, 0)[..0] == [] && [] + [0] == [0];
    assert Calm(cfg, [], [], [], 0);
    assert CountWithin([0], 0, cfg.failureWindow) == CountWithin([0], 0, cfg.keyWindow) == 1;
    CalmFailure(cfg, [], [], [], 0, Report(MASTER, 0, 0));
  }

  lemma {:induction false} MixedRun(cfg: Config, n: nat)
    requires !Decided(cfg, MASTER) && n < cfg.keyThreshold
    ensures Calm(cfg, Mixed(cfg, n), [0] + Times(Past(cfg), n), if n == 0 then [0] else Times(Past(cfg), n),
                 if n == 0 then 0 else Past(cfg))
    ensures !Entered(cfg, Mixed(cfg, n), MASTER) && forall t: Time :: !ShouldBeLocked(cfg, Mixed(cfg, n), MASTER, t)
  {
    if n == 0 {
      FirstReport(cfg);
    } else {
      MixedRun(cfg, n - 1);
      MixedNext(cfg, n);
    }
  }

  /** A step of the run above. */
  lemma MixedNext(cfg: Config, n: nat)
    requires !Decided(cfg, MASTER) && 0 < n < cfg.keyThreshold
    requires Calm(cfg, Mixed(cfg, n - 1), [0] + Times(Past(cfg), n - 1),
                  if n == 1 then [0] else Times(Past(cfg), n - 1), if n == 1 then 0 else Past(cfg))
    ensures Calm(cfg, Mixed(cfg, n), [0] + Times(Past(cfg), n), Times(Past(cfg), n), Past(cfg))
    ensures Entered(cfg, Mixed(cfg, n), MASTER) <==> Entered(cfg, Mixed(cfg, n - 1), MASTER)
    ensures forall t: Time ::
              ShouldBeLocked(cfg, Mixed(cfg, n), MASTER, t) <==> ShouldBeLocked(cfg, Mixed(cfg, n - 1), MASTER, t)
  {
    var t := Past(cfg);
    var entries := if n == 1 then [0] else Times(t, n - 1);
    MixedLeft(cfg, n);
    CalmMismatch(cfg, Mixed(cfg, n - 1), [0] + Times(t, n - 1), entries, if n == 1 then 0 else t, t, n);
  }

  lemma MixedLeft(cfg: Config, n: nat)
    requires !Decided(cfg, MASTER) && n > 0
    ensures var t := Past(cfg);
            && Prune(if n == 1 then [0] else Times(t, n - 1), t, cfg.failureWindow) + [t] == Times(t, n)
            && [0] + Times(t, n - 1) + [t] == [0] + Times(t, n)
            && CountWithin([0] + Times(t, n), t, cfg.failureWindow) == n
  {
    var t := Past(cfg);
    PruneTimes(t, n - 1, t, cfg.failureWindow);
    assert Prune([0], t, cfg.failureWindow) == [];
    TimesPush(t, n - 1);
    CountBehind(0, t, n, t, cfg.failureWindow);
  }

  /** One more report, with which the threshold is reached, though not in what is left. */
  function Missed(cfg: Config): seq<Event>
    requires !Decided(cfg, MASTER)
  {
    Mixed(cfg, cfg.keyThreshold - 2) + [Report(MASTER, Past(cfg), Past(cfg))]
  }

  lemma MissedRun(cfg: Config)
    requires !Decided(cfg, MASTER)
    ensures var t, n := Past(cfg), cfg.keyThreshold - 1;
            Calm(cfg, Missed(cfg), [0] + Times(t, n), Times(t, n), t)
    ensures Entered(cfg, Missed(cfg), MASTER)
    ensures forall t: Time :: ShouldBeLocked(cfg, Missed(cfg), MASTER, t) <==> Lasts(cfg, Past(cfg), t)
  {
    var t, n := Past(cfg), cfg.keyThreshold - 2;
    var es, e := Mixed(cfg, n), Report(MASTER, t, t);
    MixedRun(cfg, n);
    PruneTimes(t, n, t, cfg.keyWindow);
    TimesPush(t, n);
    CountTimes(t, n + 1, t, cfg.failureWindow);
    CountTimes(t, n + 1, t, cfg.keyWindow);
    CountBehind(0, t, n + 1, t, cfg.failureWindow);
    CountBehind(0, t, n + 1, t, cfg.keyWindow);
    assert [0] + Times(t, n) + [t] == [0] + Times(t, n + 1);
    CalmFailure(cfg, es, [0] + Times(t, n), Times(t, n), t, e);
    FailureSnoc(cfg, es, e);
    assert KeyCrosses(cfg, es, e);
  }

  ghost predicate MasterLockAgrees(cfg: Config, es: seq<Event>, t: Time) {
    Ordered(es) && Clock(es) <= t ==> (Locked(Run(cfg, es), MASTER, t) <==> ShouldBeLocked(cfg, es, MASTER, t))
  }

  /** Locks under the master's name are what the calls say: pruning does not decide; or no
      lock is ever in place, because lockouts end as they begin or could only be missed at the
      end of time. */
  predicate MasterLockDecided(cfg: Config) {
    || Decided(cfg, MASTER)
    || (cfg.keyDuration.Some? && (cfg.keyDuration.value == 0 || cfg.failureWindow + 1 >= DURATION_MAX))
  }

  /** Every lockout has run out by the time one begun at the last call would. */
  lemma {:induction false} LockoutsEnd(cfg: Config, es: seq<Event>, t: Time)
    requires Ordered(es) && cfg.keyDuration.Some? && t >= SatAdd(Clock(es), cfg.keyDuration.value)
    ensures !ShouldBeLocked(cfg, es, MASTER, t) && !Locked(Run(cfg, es), MASTER, t)
  {
    RunEndsInTime(cfg, es);
    if es != [] {
      ClockAdvances(es);
      LockoutsEnd(cfg, es[..|es| - 1], t);
    }
  }

  /** The exact condition. */
  lemma MasterLockedExactlyIf(cfg: Config)
    ensures (forall es, t :: MasterLockAgrees(cfg, es, t)) <==> MasterLockDecided(cfg)
  {
    if MasterLockDecided(cfg) {
      forall es, t ensures MasterLockAgrees(cfg, es, t) {
        if Ordered(es) && Clock(es) <= t {
          if Decided(cfg, MASTER) || Clock(es) <= cfg.failureWindow {
            RunAgrees(cfg, es, MASTER);
          } else {
            LockoutsEnd(cfg, es, t);
          }
        }
      }
    } else {
      MissedRun(cfg);
      assert !MasterLockAgrees(cfg, Missed(cfg), Past(cfg));
    }
  }
}
