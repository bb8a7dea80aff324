/** The vault's own lockout fields, and the calls that change them in place. */
module LockoutState {
  import opened Core
  import opened Lockout
  import opened LockoutRuns

  class Lockouts {
    const cfg: Config
    var lockedOut: bool
    var locks: map<string, Option<Time>>
    var active: nat
    var tracker: map<string, seq<Time>>
    ghost var log: seq<Event>

    /** The fields are what the calls so far made of them. */
    ghost predicate Follows()
      reads this
    {
      View() == Run(cfg, log)
    }

    ghost function View(): Policy
      reads this
    {
      Policy(lockedOut, locks, active, tracker)
    }

    constructor (config: Config)
      ensures Follows() && log == [] && cfg == config
    {
      cfg := config;
      lockedOut := false;
      locks := map[];
      active := 0;
      tracker := map[];
      log := [];
    }

    /** `record_failure`. */
    method RecordFailure(e: Event) returns (counts: FailureCounts)
      requires IsFailure(e)
      modifies this`tracker
      ensures tracker == old(tracker)[NameOf(e) := EntriesAfter(cfg, old(View()), e)]
      ensures counts == CountsAt(cfg, old(View()), e)
    {
      var name, now, perKey := NameOf(e), e.now, PerKey(cfg, e);
      var keep := cfg.failureWindow;
      if perKey && keep < cfg.keyWindow {
        keep := cfg.keyWindow;
      }
      var entries := Tracked(Policy(lockedOut, locks, active, tracker), name);
      while entries != [] && SatSub(now, entries[0]) > keep
        invariant Prune(entries, now, keep) == Prune(old(Tracked(View(), name)), now, keep)
        decreases |entries|
      {
        entries := entries[1..];
      }
      entries := entries + [now];
      tracker := tracker[name := entries];
      counts := CountsOf(cfg, entries, now, perKey);
    }

    /** `handle_failure`, answering with what the monitor is told. */
    method HandleFailure(e: Event) returns (counts: FailureCounts, breaches: seq<Breach>)
      requires IsFailure(e) && Follows()
      modifies this
      ensures Follows() && log == old(log) + [e]
      ensures counts == CountsAt(cfg, old(View()), e) && breaches == Breaches(cfg, old(View()), e)
      ensures Ordered(old(log)) && NotBefore(e, Clock(old(log)))
              && ResetsDecided(cfg) && KeyWindowKept(cfg, NameOf(e)) ==>
                breaches == BreachesDue(cfg, old(log), e)
    {
      if Ordered(log) && NotBefore(e, Clock(log)) && ResetsDecided(cfg) && KeyWindowKept(cfg, NameOf(e)) {
        BreachesAsDue(cfg, log, e);
      }
      RunSnoc(cfg, log, e);
      counts, breaches := ApplyThresholds(e);
      log := log + [e];
    }

    method ApplyThresholds(e: Event) returns (counts: FailureCounts, breaches: seq<Breach>)
      requires IsFailure(e)
      modifies this`lockedOut, this`locks, this`active, this`tracker
      ensures View() == AfterFailure(cfg, old(View()), e)
      ensures counts == CountsAt(cfg, old(View()), e) && breaches == Breaches(cfg, old(View()), e)
    {
      counts := RecordFailure(e);
      breaches := [];
      if cfg.maxFailures > 0 && counts.inWindow >= cfg.maxFailures {
        var wasLocked := lockedOut;
        lockedOut := true;
        breaches := [Breach(Vault, counts.inWindow, !wasLocked)];
      }
      if PerKey(cfg, e) && counts.inKeyWindow >= cfg.keyThreshold {
        var name := NameOf(e);
        var newlyLocked := name !in locks;
        locks := locks[name := Until(cfg, e.later)];
        if newlyLocked {
          active := active + 1;
        }
        breaches := breaches + [Breach(Key, counts.inKeyWindow, newlyLocked)];
      }
    }

    /** `key_locked`: the counter first, then the map. */
    method KeyLocked(name: string, now: Time) returns (locked: bool)
      requires Follows()
      modifies this
      ensures locked == Locked(old(View()), name, now)
      ensures Ordered(old(log)) && Clock(old(log)) <= now && Decided(cfg, name) ==>
                (locked <==> ShouldBeLocked(cfg, old(log), name, now))
      ensures Follows() && log == old(log) + [Ask(name, now)]
    {
      if Ordered(log) && Clock(log) <= now && Decided(cfg, name) {
        KeyLockedIff(cfg, log, name, now);
      }
      if active == 0 {
        RunSnoc(cfg, log, Ask(name, now));
        log := log + [Ask(name, now)];
        return false;
      }
      locked := KeyLockedSlow(name, now);
    }

    method KeyLockedSlow(name: string, now: Time) returns (locked: bool)
      requires Follows()
      modifies this
      ensures locked == Locked(old(View()), name, now)
      ensures Follows() && log == old(log) + [Ask(name, now)]
    {
      ghost var was := View();
      if name !in locks {
        locked := false;
      } else if locks[name].None? || now < locks[name].value {
        locked := true;
      } else {
        Shrinks(locks, name);
        locks := locks - {name};
        active := active - 1;
        tracker := tracker - {name};
        locked := false;
      }
      assert View() == Next(cfg, was, Ask(name, now));
      RunSnoc(cfg, log, Ask(name, now));
      log := log + [Ask(name, now)];
    }

    /** `clear_key_lockout`. */
    method ClearKeyLockout(name: string) returns (removed: bool)
      requires Follows()
      modifies this
      ensures removed == (name in old(locks))
      ensures Follows() && log == old(log) + [ClearKey(name)]
    {
      ghost var was := View();
      Shrinks(locks, name);
      removed := name in locks;
      locks := locks - {name};
      if removed {
        active := active - 1;
      }
      tracker := tracker - {name};
      assert View() == Next(cfg, was, ClearKey(name));
      RunSnoc(cfg, log, ClearKey(name));
      log := log + [ClearKey(name)];
    }

    /** `clear_lockout`. */
    method ClearLockout()
      modifies this
      ensures Follows() && log == old(log) + [ClearAll] && View() == INIT
    {
      lockedOut := false;
      locks := map[];
      active := 0;
      tracker := map[];
      RunSnoc(cfg, log, ClearAll);
      log := log + [ClearAll];
    }
  }
}
