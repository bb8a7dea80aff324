/** For which configurations the calls alone say whether the vault is locked out. They do not if
    a lockout of the master's name can be missed while the vault is still up: then the failures
    it should have made forgotten count on. */
module VaultFlag {
  import opened Core
  import opened Lockout
  import opened LockoutRuns

  ghost predicate FlagAgrees(cfg: Config, es: seq<Event>) {
    Ordered(es) ==> (Run(cfg, es).lockedOut <==> ShouldBeDown(cfg, es))
  }

  /** The most failures that fit into `window` with fewer than the vault-wide threshold in any
      vault-wide window. */
  function Room(cfg: Config, window: Time): nat
    requires cfg.maxFailures > 0
    decreases window
  {
    var few := cfg.maxFailures - 1;
    if window <= cfg.failureWindow then few else few + Room(cfg, window - cfg.failureWindow - 1)
  }

  /** The vault is never locked out by failures that should have been forgotten: the calls say
      when failures are forgotten; or one failure is enough; or the vault goes down before the
      name could be locked. */
  predicate FlagDecided(cfg: Config) {
    || ResetsDecided(cfg)
    || cfg.maxFailures <= 1
    || Room(cfg, cfg.keyWindow) < cfg.keyThreshold
  }

  // ----- thresholds of zero and one -----

  lemma {:induction false} FirstFailureDecides(cfg: Config, es: seq<Event>)
    requires Ordered(es) && cfg.maxFailures <= 1
    ensures FlagAgrees(cfg, es)
  {
    if es != [] {
      var before, e := es[..|es| - 1], es[|es| - 1];
      FirstFailureDecides(cfg, before);
      if IsFailure(e) {
        CountLatest(EntriesAfter(cfg, Run(cfg, before), e), e.now, cfg.failureWindow);
        CountLatest(EventHistory(cfg, before, NameOf(e)) + [e.now], e.now, cfg.failureWindow);
      }
    }
  }

  // ----- failures that cannot be packed -----

  /** No failure crossed the vault-wide threshold. */
  ghost predicate Sparse(cfg: Config, s: seq<Time>) {
    forall i :: 0 <= i < |s| ==> SparseAt(cfg, s, i)
  }

  predicate SparseAt(cfg: Config, s: seq<Time>, i: nat)
    requires i < |s|
  {
    CountWithin(s[..i + 1], s[i], cfg.failureWindow) < cfg.maxFailures
  }

  lemma {:induction false} CountAtMost(s: seq<Time>, now: Time, window: Time, now': Time, window': Time)
    requires forall i :: 0 <= i < |s| && SatSub(now, s[i]) <= window ==> SatSub(now', s[i]) <= window'
    ensures CountWithin(s, now, window) <= CountWithin(s, now', window')
  {
    if s != [] {
      CountAtMost(s[1..], now, window, now', window');
    }
  }

  lemma SparsePrefix(cfg: Config, s: seq<Time>, k: nat)
    requires Sparse(cfg, s) && k <= |s|
    ensures Sparse(cfg, s[..k])
  {
    forall i | 0 <= i < k
      ensures SparseAt(cfg, s[..k], i)
    {
      assert SparseAt(cfg, s, i);
      assert s[..k][..i + 1] == s[..i + 1];
    }
  }

  /** Where the failures that are no older than the vault-wide window begin. */
  lemma {:induction false} SplitByAge(s: seq<Time>, now: Time, window: Time) returns (k: nat)
    requires Sorted(s)
    ensures k <= |s| && AllOlder(s[..k], now, window)
    ensures forall i :: k <= i < |s| ==> SatSub(now, s[i]) <= window
  {
    if s == [] || SatSub(now, s[0]) <= window {
      k := 0;
    } else {
      var rest := SplitByAge(s[1..], now, window);
      k := rest + 1;
      assert s[..k] == [s[0]] + s[1..][..rest];
      assert forall i :: k <= i < |s| ==> s[i] == s[1..][i - 1];
    }
  }

  lemma RecentAreFew(cfg: Config, s: seq<Time>, now: Time, window: Time)
    requires Sorted(s) && Sparse(cfg, s) && cfg.maxFailures > 0 && window <= cfg.failureWindow
    requires forall i :: 0 <= i < |s| ==> s[i] <= now
    ensures CountWithin(s, now, window) <= cfg.maxFailures - 1
  {
    if s != [] {
      var last := s[|s| - 1];
      CountAtMost(s, now, window, last, cfg.failureWindow);
      assert SparseAt(cfg, s, |s| - 1);
      assert s[..|s| - 1 + 1] == s;
    }
  }

  /** The failures inside the vault-wide window are few; the others are seen from its start. */
  lemma PeelRecent(cfg: Config, s: seq<Time>, now: Time, window: Time) returns (k: nat)
    requires Sorted(s) && Sparse(cfg, s) && cfg.maxFailures > 0 && window > cfg.failureWindow
    requires forall i :: 0 <= i < |s| ==> s[i] <= now
    ensures k <= |s| && (k > 0 ==> now > cfg.failureWindow)
    ensures k == 0 ==> CountWithin(s, now, window) <= cfg.maxFailures - 1
    ensures k > 0 ==>
              var back := cfg.failureWindow + 1;
              && (forall i :: 0 <= i < k ==> s[i] <= now - back)
              && CountWithin(s, now, window) <= cfg.maxFailures - 1 + CountWithin(s[..k], now - back, window - back)
  {
    k := SplitByAge(s, now, cfg.failureWindow);
    var old_, recent := s[..k], s[k..];
    assert s == old_ + recent;
    CountSplit(old_, recent, now, window);
    CountSplit(old_, recent, now, cfg.failureWindow);
    CountAtMost(recent, now, window, now, cfg.failureWindow);
    RecentAreFew(cfg, s, now, cfg.failureWindow);
    if k > 0 {
      assert SatSub(now, old_[0]) > cfg.failureWindow;
      CountAtMost(old_, now, window, now - cfg.failureWindow - 1, window - cfg.failureWindow - 1);
      assert forall i :: 0 <= i < k ==> SatSub(now, old_[i]) > cfg.failureWindow && old_[i] == s[i];
    }
  }

  lemma {:induction false} SparseFits(cfg: Config, s: seq<Time>, now: Time, window: Time)
    requires Sorted(s) && Sparse(cfg, s) && cfg.maxFailures > 0
    requires forall i :: 0 <= i < |s| ==> s[i] <= now
    ensures CountWithin(s, now, window) <= Room(cfg, window)
    decreases window
  {
    if window <= cfg.failureWindow {
      RecentAreFew(cfg, s, now, window);
    } else {
      var k := PeelRecent(cfg, s, now, window);
      if k > 0 {
        SparsePrefix(cfg, s, k);
        SparseFits(cfg, s[..k], now - cfg.failureWindow - 1, window - cfg.failureWindow - 1);
      }
    }
  }

  lemma SparsePush(cfg: Config, h: seq<Time>, now: Time)
    requires Sparse(cfg, h) && CountWithin(h + [now], now, cfg.failureWindow) < cfg.maxFailures
    ensures Sparse(cfg, h + [now])
  {
    var all := h + [now];
    forall i | 0 <= i < |all|
      ensures SparseAt(cfg, all, i)
    {
      assert i < |h| ==> SparseAt(cfg, h, i);
      assert all[..i + 1] == if i < |h| then h[..i + 1] else all;
    }
  }

  lemma SparseFailure(cfg: Config, h: seq<Time>, clock: Time, now: Time)
    requires Sparse(cfg, h) && CountWithin(h + [now], now, cfg.failureWindow) < cfg.maxFailures
    requires Sorted(h) && (forall i :: 0 <= i < |h| ==> h[i] <= clock) && clock <= now
    ensures Sparse(cfg, h + [now]) && CountWithin(h + [now], now, cfg.keyWindow) <= Room(cfg, cfg.keyWindow)
  {
    var all := h + [now];
    SparsePush(cfg, h, now);
    SortedPush(h, clock, now);
    SparseFits(cfg, all, now, cfg.keyWindow);
  }

  lemma SortedPush(h: seq<Time>, clock: Time, now: Time)
    requires Sorted(h) && (forall i :: 0 <= i < |h| ==> h[i] <= clock) && clock <= now
    ensures Sorted(h + [now]) && forall i :: 0 <= i < |h + [now]| ==> (h + [now])[i] <= now
  {
  }

  /** As long as the vault is up, the name is not locked, by the calls or in the code. */
  ghost predicate Unlocked(cfg: Config, es: seq<Event>) {
    && EventHistory(cfg, es, MASTER) == History(cfg, es, MASTER) && Sparse(cfg, History(cfg, es, MASTER))
    && !Entered(cfg, es, MASTER) && MASTER !in Run(cfg, es).locks
  }

  lemma UnlockedFailure(cfg: Config, es: seq<Event>, e: Event)
    requires cfg.maxFailures > 0 && Room(cfg, cfg.keyWindow) < cfg.keyThreshold
    requires Ordered(es) && IsFailure(e) && NameOf(e) == MASTER && NotBefore(e, Clock(es))
    requires Unlocked(cfg, es) && !VaultCrosses(cfg, es, e)
    ensures Sparse(cfg, Failures(cfg, es, e)) && !KeyCrosses(cfg, es, e) && !KeyBreach(cfg, Run(cfg, es), e)
  {
    var dropped := RunSuffix(cfg, es, MASTER);
    SparseFailure(cfg, History(cfg, es, MASTER), Clock(es), e.now);
    if PerKey(cfg, e) {
      LowCountsAgree(cfg, es, e);
    }
  }

  lemma {:induction false} TightRunAgrees(cfg: Config, es: seq<Event>)
    requires Ordered(es) && cfg.maxFailures > 0 && Room(cfg, cfg.keyWindow) < cfg.keyThreshold
    ensures FlagAgrees(cfg, es) && (!ShouldBeDown(cfg, es) ==> Unlocked(cfg, es))
  {
    if es != [] {
      var before, e := es[..|es| - 1], es[|es| - 1];
      TightRunAgrees(cfg, before);
      if IsFailure(e) && !ShouldBeDown(cfg, before) {
        BreachIffCrossed(cfg, before, e);
        if NameOf(e) != MASTER {
          RunAgrees(cfg, before, NameOf(e));
        } else if !VaultCrosses(cfg, before, e) {
          UnlockedFailure(cfg, before, e);
        }
      }
    }
  }

  // ----- runs that should not have locked the vault -----

  /** The vault is up and the name unlocked in the code, and `h` are the failures that count. */
  ghost predicate Up(cfg: Config, es: seq<Event>, h: seq<Time>, clock: Time) {
    && Ordered(es) && Clock(es) == clock
    && EventHistory(cfg, es, MASTER) == History(cfg, es, MASTER) == h
    && MASTER !in Run(cfg, es).locks && !Run(cfg, es).lockedOut && !ShouldBeDown(cfg, es)
  }

  /** The run says the same of locks under the master's name. */
  ghost predicate SameLocks(cfg: Config, es: seq<Event>, es': seq<Event>) {
    && (Entered(cfg, es', MASTER) <==> Entered(cfg, es, MASTER))
    && forall t: Time :: ShouldBeLocked(cfg, es', MASTER, t) <==> ShouldBeLocked(cfg, es, MASTER, t)
  }

  function Mismatch(now: Time): Event {
    MasterFailure(now, now)
  }

  /** A master mismatch below the vault-wide threshold. */
  lemma UpMismatch(cfg: Config, es: seq<Event>, h: seq<Time>, clock: Time, now: Time)
    requires Up(cfg, es, h, clock) && clock <= now
    requires CountWithin(h + [now], now, cfg.failureWindow) < cfg.maxFailures
    ensures Up(cfg, es + [Mismatch(now)], h + [now], now) && SameLocks(cfg, es, es + [Mismatch(now)])
  {
    BreachIffCrossed(cfg, es, Mismatch(now));
    FailureSnoc(cfg, es, Mismatch(now));
  }

  /** Mismatches until one more would lock the vault. */
  lemma {:induction false} TopUp(cfg: Config, es: seq<Event>, h: seq<Time>, clock: Time, now: Time)
    returns (es': seq<Event>, h': seq<Time>)
    requires Up(cfg, es, h, clock) && clock <= now && CountWithin(h, now, cfg.failureWindow) < cfg.maxFailures
    ensures Up(cfg, es', h', Clock(es')) && Clock(es') <= now && SameLocks(cfg, es, es')
    ensures CountWithin(h', now, cfg.failureWindow) == cfg.maxFailures - 1
    decreases cfg.maxFailures - CountWithin(h, now, cfg.failureWindow)
  {
    CountSplit(h, [now], now, cfg.failureWindow);
    if CountWithin(h, now, cfg.failureWindow) == cfg.maxFailures - 1 {
      es', h' := es, h;
    } else {
      UpMismatch(cfg, es, h, clock, now);
      es', h' := TopUp(cfg, es + [Mismatch(now)], h + [now], now, now);
    }
  }

  /** Somebody asks at the end of a lockout that the code never began; one more mismatch locks
      the vault out, which by the calls is the first failure that counts. */
  lemma AskedTooLate(cfg: Config, es: seq<Event>, h: seq<Time>, clock: Time, end: Time)
    requires cfg.maxFailures >= 2 && Up(cfg, es, h, clock) && clock <= end
    requires CountWithin(h, end, cfg.failureWindow) == cfg.maxFailures - 1
    requires Entered(cfg, es, MASTER) && !ShouldBeLocked(cfg, es, MASTER, end)
    ensures var all := es + [Ask(MASTER, end)] + [Mismatch(end)];
            Ordered(all) && Run(cfg, all).lockedOut && !ShouldBeDown(cfg, all)
  {
    var ask, e := Ask(MASTER, end), Mismatch(end);
    var asked := es + [ask];
    Unfold(es, ask);
    Unfold(asked, e);
    assert History(cfg, asked, MASTER) == h && EventHistory(cfg, asked, MASTER) == [];
    CountSplit(h, [end], end, cfg.failureWindow);
    assert CountWithin([end], end, cfg.failureWindow) == 1 && [] + [end] == [end];
    BreachIffCrossed(cfg, asked, e);
    assert VaultCrossed(cfg, asked, e);
  }

  /** The code missed a lockout that began at `clock`. */
  ghost predicate MissedAt(cfg: Config, es: seq<Event>, h: seq<Time>, clock: Time) {
    && Up(cfg, es, h, clock) && CountWithin(h, clock, cfg.failureWindow) < cfg.maxFailures
    && Entered(cfg, es, MASTER)
    && forall t: Time :: ShouldBeLocked(cfg, es, MASTER, t) <==> Lasts(cfg, clock, t)
  }

  lemma MissedBreaksFlag(cfg: Config, es: seq<Event>, h: seq<Time>, clock: Time) returns (all: seq<Event>)
    requires cfg.maxFailures >= 2 && cfg.keyDuration.Some? && MissedAt(cfg, es, h, clock)
    ensures !FlagAgrees(cfg, all)
  {
    var end := SatAdd(clock, cfg.keyDuration.value);
    var dropped := RunSuffix(cfg, es, MASTER);
    CountAtMost(h, end, cfg.failureWindow, clock, cfg.failureWindow);
    var es', h' := TopUp(cfg, es, h, clock, end);
    AskedTooLate(cfg, es', h', Clock(es'), end);
    all := es' + [Ask(MASTER, end)] + [Mismatch(end)];
  }

  // ----- missing a lockout, with the higher vault-wide threshold -----

  lemma MissedWhileHigh(cfg: Config)
    requires !Decided(cfg, MASTER) && cfg.maxFailures >= cfg.keyThreshold
    ensures MissedAt(cfg, Missed(cfg), [0] + Times(Past(cfg), cfg.keyThreshold - 1), Past(cfg))
  {
    MissedRun(cfg);
    CountBehind(0, Past(cfg), cfg.keyThreshold - 1, Past(cfg), cfg.failureWindow);
  }

  // ----- and with the lower one -----

  /** After a master mismatch the code remembers only what is inside the vault-wide window. */
  lemma MismatchLeaves(cfg: Config, es: seq<Event>, h: seq<Time>, clock: Time, now: Time)
    requires Up(cfg, es, h, clock) && clock <= now
    ensures |Tracked(Run(cfg, es + [Mismatch(now)]), MASTER)| == CountWithin(h + [now], now, cfg.failureWindow)
  {
    var entries := Tracked(Run(cfg, es), MASTER);
    var left := Prune(entries, now, cfg.failureWindow);
    var dropped := RunSuffix(cfg, es, MASTER);
    dropped := SuffixRecords(cfg, h, dropped, entries, clock, cfg.failureWindow, now, false);
    SuffixCounts(h + [now], dropped, left + [now], now, cfg.failureWindow, cfg.failureWindow);
    var before := RunSuffix(cfg, es, MASTER);
    SortedSuffix(before, entries);
    PruneLeavesRecent(entries, now, cfg.failureWindow);
    AllCount(left + [now], now, cfg.failureWindow);
    TrackedNext(cfg, Run(cfg, es), Mismatch(now), MASTER);
    RunSnoc(cfg, es, Mismatch(now));
  }

  lemma SortedSuffix(a: seq<Time>, b: seq<Time>)
    requires Sorted(a + b)
    ensures Sorted(b)
  {
    assert forall i :: 0 <= i < |b| ==> (a + b)[|a| + i] == b[i];
  }

  lemma {:induction false} PruneLeavesRecent(s: seq<Time>, now: Time, keep: Time)
    requires Sorted(s)
    ensures forall i :: 0 <= i < |Prune(s, now, keep)| ==> SatSub(now, Prune(s, now, keep)[i]) <= keep
  {
    if s != [] && SatSub(now, s[0]) > keep {
      PruneLeavesRecent(s[1..], now, keep);
    }
  }

  lemma {:induction false} AllCount(s: seq<Time>, now: Time, window: Time)
    requires forall i :: 0 <= i < |s| ==> SatSub(now, s[i]) <= window
    ensures CountWithin(s, now, window) == |s|
  {
    if s != [] {
      AllCount(s[1..], now, window);
    }
  }

  /** The time of the next failure: now, if it still fits, or as soon as the vault-wide window
      has moved on. */
  function NextSlot(cfg: Config, clock: Time, n: nat): (t: int)
    ensures t >= clock
  {
    if n < cfg.maxFailures - 1 then clock else clock + cfg.failureWindow + 1
  }

  /** `n` mismatches packed as densely as the vault stays up, the latest `c` at `clock`, with
      room for the rest. */
  ghost predicate Packed(cfg: Config, es: seq<Event>, h: seq<Time>, clock: Time, n: nat, c: nat) {
    && cfg.maxFailures >= 2 && Up(cfg, es, h, clock) && |h| == n && 1 <= c <= n
    && !Entered(cfg, es, MASTER) && (forall t: Time :: !ShouldBeLocked(cfg, es, MASTER, t))
    && CountWithin(h, clock, cfg.failureWindow) == c == |Tracked(Run(cfg, es), MASTER)| < cfg.maxFailures
    && clock <= cfg.keyWindow && n - c + Room(cfg, cfg.keyWindow - clock) >= cfg.keyThreshold
  }

  /** The next failure fits into the per-key window and does not lock the vault. */
  lemma NextFits(cfg: Config, es: seq<Event>, h: seq<Time>, clock: Time, n: nat, c: nat)
    requires Packed(cfg, es, h, clock, n, c) && n < cfg.keyThreshold
    ensures var now := NextSlot(cfg, clock, c);
            && now <= cfg.keyWindow
            && var c' := if c < cfg.maxFailures - 1 then c + 1 else 1;
               && CountWithin(h + [now], now, cfg.failureWindow) == c' < cfg.maxFailures
               && n + 1 - c' + Room(cfg, cfg.keyWindow - now) >= cfg.keyThreshold
  {
    var now := NextSlot(cfg, clock, c);
    CountSplit(h, [now], now, cfg.failureWindow);
    if c == cfg.maxFailures - 1 {
      var dropped := RunSuffix(cfg, es, MASTER);
      OlderCountsZero(h, now, cfg.failureWindow);
    }
  }

  lemma FirstPacked(cfg: Config)
    requires cfg.maxFailures >= 2 && Room(cfg, cfg.keyWindow) >= cfg.keyThreshold
    ensures Packed(cfg, [Mismatch(0)], [0], 0, 1, 1)
  {
    assert [] + [Mismatch(0)] == [Mismatch(0)] && [] + [0] == [0];
    assert CountWithin([0], 0, cfg.failureWindow) == 1;
    UpMismatch(cfg, [], [], 0, 0);
    MismatchLeaves(cfg, [], [], 0, 0);
  }

  lemma {:induction false} PackedRun(cfg: Config, n: nat) returns (es: seq<Event>, h: seq<Time>, clock: Time, c: nat)
    requires cfg.maxFailures >= 2 && Room(cfg, cfg.keyWindow) >= cfg.keyThreshold > n >= 1
    ensures Packed(cfg, es, h, clock, n, c)
    decreases n
  {
    if n == 1 {
      FirstPacked(cfg);
      es, h, clock, c := [Mismatch(0)], [0], 0, 1;
    } else {
      es, h, clock, c := PackedRun(cfg, n - 1);
      PackedNext(cfg, es, h, clock, n - 1, c);
      var now: Time := NextSlot(cfg, clock, c);
      es, h, clock, c := es + [Mismatch(now)], h + [now], now, if c < cfg.maxFailures - 1 then c + 1 else 1;
    }
  }

  lemma PackedNext(cfg: Config, es: seq<Event>, h: seq<Time>, clock: Time, n: nat, c: nat)
    requires Packed(cfg, es, h, clock, n, c) && n < cfg.keyThreshold
    ensures var now := NextSlot(cfg, clock, c);
            && now <= DURATION_MAX
            && Packed(cfg, es + [Mismatch(now)], h + [now], now, n + 1, if c < cfg.maxFailures - 1 then c + 1 else 1)
  {
    NextFits(cfg, es, h, clock, n, c);
    var now: Time := NextSlot(cfg, clock, c);
    UpMismatch(cfg, es, h, clock, now);
    MismatchLeaves(cfg, es, h, clock, now);
  }

  /** A report that reaches the per-key threshold, of which the code has kept too little. */
  lemma ReportMissed(cfg: Config, es: seq<Event>, h: seq<Time>, clock: Time, c: nat)
    requires cfg.maxFailures < cfg.keyThreshold
    requires Packed(cfg, es, h, clock, cfg.keyThreshold - 1, c)
    ensures var now := NextSlot(cfg, clock, c);
            0 <= now <= DURATION_MAX && MissedAt(cfg, es + [Report(MASTER, now, now)], h + [now], now)
  {
    NextFits(cfg, es, h, clock, cfg.keyThreshold - 1, c);
    var now: Time := NextSlot(cfg, clock, c);
    var e := Report(MASTER, now, now);
    BreachIffCrossed(cfg, es, e);
    AllCount(h + [now], now, cfg.keyWindow);
    TooFewLeft(cfg, es, e);
    FailureSnoc(cfg, es, e);
  }

  lemma TooFewLeft(cfg: Config, es: seq<Event>, e: Event)
    requires IsFailure(e) && |Tracked(Run(cfg, es), NameOf(e))| + 1 < cfg.keyThreshold
    ensures !KeyBreach(cfg, Run(cfg, es), e)
  {
    var popped := PruneSplits(Tracked(Run(cfg, es), NameOf(e)), e.now, Keep(cfg, PerKey(cfg, e)));
    assert |EntriesAfter(cfg, Run(cfg, es), e)| < cfg.keyThreshold;
  }

  lemma MissedWhileLow(cfg: Config) returns (es: seq<Event>, h: seq<Time>, clock: Time)
    requires 2 <= cfg.maxFailures < cfg.keyThreshold <= Room(cfg, cfg.keyWindow)
    ensures MissedAt(cfg, es, h, clock)
  {
    var c;
    es, h, clock, c := PackedRun(cfg, cfg.keyThreshold - 1);
    ReportMissed(cfg, es, h, clock, c);
    var now: Time := NextSlot(cfg, clock, c);
    es, h, clock := es + [Report(MASTER, now, now)], h + [now], now;
  }

  // ----- the exact condition -----

  /** The calls alone say in every run whether the vault is locked out exactly if the
      configuration decides it. */
  lemma VaultLockedExactlyIf(cfg: Config)
    ensures (forall es :: FlagAgrees(cfg, es)) <==> FlagDecided(cfg)
  {
    if FlagDecided(cfg) {
      forall es ensures FlagAgrees(cfg, es) {
        if Ordered(es) {
          DecidedFlagAgrees(cfg, es);
        }
      }
    } else {
      var es := UndecidedFlagDiffers(cfg);
    }
  }

  lemma DecidedFlagAgrees(cfg: Config, es: seq<Event>)
    requires Ordered(es) && FlagDecided(cfg)
    ensures FlagAgrees(cfg, es)
  {
    if ResetsDecided(cfg) {
      VaultLockedIff(cfg, es);
    } else if cfg.maxFailures <= 1 {
      FirstFailureDecides(cfg, es);
    } else {
      TightRunAgrees(cfg, es);
    }
  }

  /** A run whose lockout the calls do not account for. */
  lemma UndecidedFlagDiffers(cfg: Config) returns (all: seq<Event>)
    requires !FlagDecided(cfg)
    ensures !FlagAgrees(cfg, all)
  {
    if cfg.maxFailures >= cfg.keyThreshold {
      MissedWhileHigh(cfg);
      all := MissedBreaksFlag(cfg, Missed(cfg), [0] + Times(Past(cfg), cfg.keyThreshold - 1), Past(cfg));
    } else {
      var es, h, clock := MissedWhileLow(cfg);
      all := MissedBreaksFlag(cfg, es, h, clock);
    }
  }

  /** Such a run in full: three failures within 100, of which the code has dropped the first;
      nobody locks the name at 11, so nothing expires at 16 and the vault goes down. */
  lemma ForgottenFailuresExample()
    ensures var cfg := Config(3, 10, 3, 100, Some(5));
            var es := [Report(MASTER, 0, 0), MasterFailure(11, 11), Report(MASTER, 11, 11),
                       Ask(MASTER, 16), MasterFailure(16, 16)];
            Ordered(es) && Run(cfg, es).lockedOut && !ShouldBeDown(cfg, es)
  {
    var cfg := Config(3, 10, 3, 100, Some(5));
    var h := [0] + Times(11, 2);
    MissedWhileHigh(cfg);
    CountBehind(0, 11, 2, 16, 10);
    AskedTooLate(cfg, Missed(cfg), h, 11, 16);
    MissedInFull(cfg);
  }

  lemma MissedInFull(cfg: Config)
    requires cfg == Config(3, 10, 3, 100, Some(5))
    ensures Missed(cfg) + [Ask(MASTER, 16)] + [Mismatch(16)] ==
            [Report(MASTER, 0, 0), MasterFailure(11, 11), Report(MASTER, 11, 11),
             Ask(MASTER, 16), MasterFailure(16, 16)]
  {
    assert Mixed(cfg, 0) == [Report(MASTER, 0, 0)] && Past(cfg) == 11;
    assert Mixed(cfg, 1) == [Report(MASTER, 0, 0), MasterFailure(11, 11)];
  }
}
