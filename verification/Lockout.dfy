/** Failure tracking and lockouts: the pruned failure history of each name, the vault-wide
    flag, and the per-key locks with the counter that lets `with_key` skip them. */
module Lockout {
  import opened Core

  // Times and windows are nanoseconds, as wide as a `Duration`.
  const DURATION_MAX: nat := TWO_64 * 1_000_000_000 - 1
  type Time = t: nat | t <= DURATION_MAX

  function SatAdd(a: Time, b: Time): Time {
    if a + b <= DURATION_MAX then a + b else DURATION_MAX
  }

  function SatSub(a: Time, b: Time): Time {
    if b <= a then a - b else 0
  }

  /** A threshold of zero turns its lockout off; no `keyDuration` locks until cleared. */
  datatype Config = Config(
    maxFailures: u32, failureWindow: Time,
    keyThreshold: u32, keyWindow: Time, keyDuration: Option<Time>)

  datatype FailureCounts = FailureCounts(inWindow: u32, inKeyWindow: u32, windowElapsed: Time)

  datatype Scope = Vault | Key

  /** What the monitor is told of a crossed threshold. */
  datatype Breach = Breach(scope: Scope, failures: u32, lockoutTriggered: bool)

  datatype Policy = Policy(
    lockedOut: bool, locks: map<string, Option<Time>>, active: nat, tracker: map<string, seq<Time>>)

  const INIT := Policy(false, map[], 0, map[])

  /** The counter is the size of the lock map. */
  predicate Valid(p: Policy) {
    p.active == |p.locks|
  }

  // ----- recording a failure -----

  function Tracked(p: Policy, name: string): seq<Time> {
    if name in p.tracker then p.tracker[name] else []
  }

  function Keep(cfg: Config, perKey: bool): Time {
    if perKey && cfg.keyWindow > cfg.failureWindow then cfg.keyWindow else cfg.failureWindow
  }

  /** Entries left when the front ones older than `keep` are popped. */
  function Prune(entries: seq<Time>, now: Time, keep: Time): seq<Time> {
    if entries != [] && SatSub(now, entries[0]) > keep then Prune(entries[1..], now, keep) else entries
  }

  function CountWithin(entries: seq<Time>, now: Time, window: Time): (n: nat)
    ensures n <= |entries|
  {
    if entries == [] then 0
    else (if SatSub(now, entries[0]) <= window then 1 else 0) + CountWithin(entries[1..], now, window)
  }

  function ToU32(n: nat): u32 {
    if n <= U32_MAX then n else U32_MAX
  }

  /** The first entry inside the window, or `now`. */
  function OldestWithin(entries: seq<Time>, now: Time, window: Time): Time {
    if entries == [] then now
    else if SatSub(now, entries[0]) <= window then entries[0]
    else OldestWithin(entries[1..], now, window)
  }

  function Recorded(cfg: Config, entries: seq<Time>, now: Time, perKey: bool): seq<Time> {
    Prune(entries, now, Keep(cfg, perKey)) + [now]
  }

  function CountsOf(cfg: Config, entries: seq<Time>, now: Time, perKey: bool): FailureCounts {
    FailureCounts(
      ToU32(CountWithin(entries, now, cfg.failureWindow)),
      if perKey then ToU32(CountWithin(entries, now, cfg.keyWindow)) else 0,
      SatSub(now, OldestWithin(entries, now, cfg.failureWindow)))
  }

  // ----- the steps -----

  /** Whole calls. A master mismatch is recorded under a name anyone may also report. */
  datatype Event =
    | Report(name: string, now: Time, later: Time)
    | MasterFailure(now: Time, later: Time)
    | Ask(name: string, now: Time)
    | ClearKey(name: string)
    | ClearAll

  const MASTER := "<master>"

  predicate IsFailure(e: Event) {
    e.Report? || e.MasterFailure?
  }

  function NameOf(e: Event): string
    requires IsFailure(e)
  {
    if e.Report? then e.name else MASTER
  }

  function PerKey(cfg: Config, e: Event): bool {
    e.Report? && cfg.keyThreshold > 0
  }

  function EntriesAfter(cfg: Config, p: Policy, e: Event): seq<Time>
    requires IsFailure(e)
  {
    Recorded(cfg, Tracked(p, NameOf(e)), e.now, PerKey(cfg, e))
  }

  function CountsAt(cfg: Config, p: Policy, e: Event): FailureCounts
    requires IsFailure(e)
  {
    CountsOf(cfg, EntriesAfter(cfg, p, e), e.now, PerKey(cfg, e))
  }

  predicate VaultBreach(cfg: Config, p: Policy, e: Event)
    requires IsFailure(e)
  {
    cfg.maxFailures > 0 && CountsAt(cfg, p, e).inWindow >= cfg.maxFailures
  }

  predicate KeyBreach(cfg: Config, p: Policy, e: Event)
    requires IsFailure(e)
  {
    PerKey(cfg, e) && CountsAt(cfg, p, e).inKeyWindow >= cfg.keyThreshold
  }

  /** The end of a lockout that starts at `later`. */
  function Until(cfg: Config, later: Time): Option<Time> {
    if cfg.keyDuration.Some? then Some(SatAdd(later, cfg.keyDuration.value)) else None
  }

  function AfterFailure(cfg: Config, p: Policy, e: Event): Policy
    requires IsFailure(e)
  {
    var name := NameOf(e);
    Policy(
      p.lockedOut || VaultBreach(cfg, p, e),
      if KeyBreach(cfg, p, e) then p.locks[name := Until(cfg, e.later)] else p.locks,
      if KeyBreach(cfg, p, e) && name !in p.locks then p.active + 1 else p.active,
      p.tracker[name := EntriesAfter(cfg, p, e)])
  }

  function Breaches(cfg: Config, p: Policy, e: Event): seq<Breach>
    requires IsFailure(e)
  {
    var counts := CountsAt(cfg, p, e);
    (if VaultBreach(cfg, p, e) then [Breach(Vault, counts.inWindow, !p.lockedOut)] else [])
    + (if KeyBreach(cfg, p, e) then [Breach(Key, counts.inKeyWindow, NameOf(e) !in p.locks)] else [])
  }

  /** The lock is in place at `now`. */
  predicate Locked(p: Policy, name: string, now: Time) {
    name in p.locks && (p.locks[name].None? || now < p.locks[name].value)
  }

  /** An entry whose time has passed but that no call has looked at since. */
  predicate Lingers(p: Policy, name: string, now: Time) {
    name in p.locks && p.locks[name].Some? && p.locks[name].value <= now
  }

  function Next(cfg: Config, p: Policy, e: Event): (r: Policy)
    requires Valid(p)
    ensures Valid(r)
  {
    match e
    case Ask(name, now) =>
      if Lingers(p, name, now) then
        Shrinks(p.locks, name);
        p.(locks := p.locks - {name}, active := p.active - 1, tracker := p.tracker - {name})
      else p
    case ClearKey(name) =>
      Shrinks(p.locks, name);
      p.(locks := p.locks - {name}, active := if name in p.locks then p.active - 1 else p.active,
         tracker := p.tracker - {name})
    case ClearAll => INIT
    case _ =>
      AfterFailure(cfg, p, e)
  }

  lemma Shrinks(m: map<string, Option<Time>>, name: string)
    ensures |m - {name}| == if name in m then |m| - 1 else |m|
  {
    var rest := m - {name};
    assert rest.Keys == m.Keys - {name};
    assert |rest.Keys| == |rest| && |m.Keys| == |m|;
  }

  // ----- runs -----

  function Run(cfg: Config, es: seq<Event>): (p: Policy)
    ensures Valid(p)
  {
    if es == [] then INIT else Next(cfg, Run(cfg, es[..|es| - 1]), es[|es| - 1])
  }

  /** The last time the clock was read. */
  function Clock(es: seq<Event>): Time {
    if es == [] then 0
    else
      var e := es[|es| - 1];
      if IsFailure(e) then e.later else if e.Ask? then e.now else Clock(es[..|es| - 1])
  }

  predicate NotBefore(e: Event, clock: Time) {
    (IsFailure(e) ==> clock <= e.now <= e.later) && (e.Ask? ==> clock <= e.now)
  }

  /** Calls are ordered and the clock never goes back. */
  predicate Ordered(es: seq<Event>) {
    es == [] || (Ordered(es[..|es| - 1]) && NotBefore(es[|es| - 1], Clock(es[..|es| - 1])))
  }

  /** The call forgets the failures of `name`. */
  predicate Resets(p: Policy, e: Event, name: string) {
    e == ClearKey(name) || e.ClearAll? || (e.Ask? && e.name == name && Lingers(p, name, e.now))
  }

  lemma TrackedNext(cfg: Config, p: Policy, e: Event, name: string)
    requires Valid(p)
    ensures Tracked(Next(cfg, p, e), name) ==
            if IsFailure(e) && NameOf(e) == name then EntriesAfter(cfg, p, e)
            else if Resets(p, e, name) then [] else Tracked(p, name)
  {
  }

  /** Every failure recorded for `name` since its last reset, none of them forgotten. Resets
      are explicit clears and the call that notices that the name's lockout has expired. */
  function History(cfg: Config, es: seq<Event>, name: string): seq<Time> {
    if es == [] then [] else
    var before, e := es[..|es| - 1], es[|es| - 1];
    if IsFailure(e) && NameOf(e) == name then History(cfg, before, name) + [e.now]
    else if Resets(Run(cfg, before), e, name) then []
    else History(cfg, before, name)
  }

  lemma RunSnoc(cfg: Config, es: seq<Event>, e: Event)
    ensures Run(cfg, es + [e]) == Next(cfg, Run(cfg, es), e)
  {
    Unfold(es, e);
  }

  lemma Unfold(es: seq<Event>, e: Event)
    ensures (es + [e])[..|es + [e]| - 1] == es && (es + [e])[|es + [e]| - 1] == e
  {
  }

  // ----- the counter -----

  /** In every run the counter equals the number of locks, so that the fast path (no lock at
      all) and the lookup answer alike: what `key_locked` reports is whether a lock on the
      name is in place. */
  lemma FastPathAgrees(cfg: Config, es: seq<Event>, name: string, now: Time)
    ensures var p := Run(cfg, es);
            && p.active == |p.locks|
            && (p.active == 0 ==> !Locked(p, name, now) && Next(cfg, p, Ask(name, now)) == p)
  {
  }

  // ----- the sliding window -----

  lemma {:induction false} CountSplit(a: seq<Time>, b: seq<Time>, now: Time, window: Time)
    ensures CountWithin(a + b, now, window) == CountWithin(a, now, window) + CountWithin(b, now, window)
  {
    if a == [] {
      assert a + b == b;
    } else {
      CountSplit(a[1..], b, now, window);
      assert (a + b)[1..] == a[1..] + b;
    }
  }

  /** Every entry is older than the window. */
  predicate AllOlder(s: seq<Time>, now: Time, window: Time) {
    forall i :: 0 <= i < |s| ==> SatSub(now, s[i]) > window
  }

  lemma {:induction false} OlderCountsZero(s: seq<Time>, now: Time, window: Time)
    requires AllOlder(s, now, window)
    ensures CountWithin(s, now, window) == 0
  {
    if s != [] {
      OlderCountsZero(s[1..], now, window);
    }
  }

  predicate Sorted(s: seq<Time>) {
    forall i, j :: 0 <= i < j < |s| ==> s[i] <= s[j]
  }

  /** Pruning takes off a prefix of entries older than `keep`. */
  lemma {:induction false} PruneSplits(s: seq<Time>, now: Time, keep: Time) returns (dropped: seq<Time>)
    ensures s == dropped + Prune(s, now, keep) && AllOlder(dropped, now, keep)
  {
    if s != [] && SatSub(now, s[0]) > keep {
      var rest := PruneSplits(s[1..], now, keep);
      dropped := [s[0]] + rest;
    } else {
      dropped := [];
    }
  }

  /** The window that pruning respects for a name: both, unless the name is the master's. */
  function Kept(cfg: Config, name: string): Time {
    Keep(cfg, name != MASTER && cfg.keyThreshold > 0)
  }

  /** What is tracked is the end of the history, and what is missing is too old to count. */
  ghost predicate Suffix(history: seq<Time>, dropped: seq<Time>, entries: seq<Time>, clock: Time, keep: Time) {
    && history == dropped + entries && AllOlder(dropped, clock, keep)
    && Sorted(history) && forall i :: 0 <= i < |history| ==> history[i] <= clock
  }

  lemma OlderLater(s: seq<Time>, now: Time, later: Time, window: Time)
    requires AllOlder(s, now, window) && now <= later
    ensures AllOlder(s, later, window)
  {
  }

  lemma SuffixRecords(cfg: Config, history: seq<Time>, dropped: seq<Time>, entries: seq<Time>, clock: Time,
                      keep: Time, now: Time, perKey: bool) returns (more: seq<Time>)
    requires Suffix(history, dropped, entries, clock, keep) && clock <= now && keep <= Keep(cfg, perKey)
    ensures Suffix(history + [now], more, Recorded(cfg, entries, now, perKey), now, keep)
  {
    var popped := PruneSplits(entries, now, Keep(cfg, perKey));
    more := dropped + popped;
    OlderLater(dropped, clock, now, keep);
  }

  lemma SuffixStep(cfg: Config, history: seq<Time>, dropped: seq<Time>, entries: seq<Time>, clock: Time,
                   p: Policy, e: Event, name: string, clock': Time) returns (more: seq<Time>)
    requires Suffix(history, dropped, entries, clock, Kept(cfg, name)) && NotBefore(e, clock)
    requires entries == Tracked(p, name)
    requires clock' == if IsFailure(e) then e.later else if e.Ask? then e.now else clock
    ensures IsFailure(e) && NameOf(e) == name ==>
              Suffix(history + [e.now], more, EntriesAfter(cfg, p, e), clock', Kept(cfg, name))
    ensures !(IsFailure(e) && NameOf(e) == name) ==>
              Suffix(if Resets(p, e, name) then [] else history, more,
                     if Resets(p, e, name) then [] else entries, clock', Kept(cfg, name))
  {
    if IsFailure(e) && NameOf(e) == name {
      more := SuffixRecords(cfg, history, dropped, entries, clock, Kept(cfg, name), e.now, PerKey(cfg, e));
      OlderLater(more, e.now, e.later, Kept(cfg, name));
    } else if Resets(p, e, name) {
      more := [];
    } else {
      more := dropped;
      OlderLater(dropped, clock, clock', Kept(cfg, name));
    }
  }

  /** In every run with a forward clock. */
  lemma {:induction false} RunSuffix(cfg: Config, es: seq<Event>, name: string) returns (dropped: seq<Time>)
    requires Ordered(es)
    ensures Suffix(History(cfg, es, name), dropped, Tracked(Run(cfg, es), name), Clock(es), Kept(cfg, name))
  {
    if es == [] {
      dropped := [];
    } else {
      var before, e := es[..|es| - 1], es[|es| - 1];
      var history, entries := History(cfg, before, name), Tracked(Run(cfg, before), name);
      dropped := RunSuffix(cfg, before, name);
      TrackedNext(cfg, Run(cfg, before), e, name);
      dropped := SuffixStep(cfg, history, dropped, entries, Clock(before), Run(cfg, before), e, name, Clock(es));
    }
  }

  lemma SuffixCounts(history: seq<Time>, dropped: seq<Time>, entries: seq<Time>, now: Time, keep: Time, window: Time)
    requires Suffix(history, dropped, entries, now, keep) && window <= keep
    ensures CountWithin(entries, now, window) == CountWithin(history, now, window)
  {
    CountSplit(dropped, entries, now, window);
    OlderCountsZero(dropped, now, window);
  }

  /** `age` is that of the oldest entry inside the window. */
  ghost predicate IsOldestAge(s: seq<Time>, now: Time, window: Time, age: Time) {
    && (exists i :: 0 <= i < |s| && age == SatSub(now, s[i]) && age <= window)
    && forall i :: 0 <= i < |s| && SatSub(now, s[i]) <= window ==> SatSub(now, s[i]) <= age
  }

  lemma {:induction false} OldestIsFirst(s: seq<Time>, now: Time, window: Time)
    requires Sorted(s) && s != [] && s[|s| - 1] == now
    ensures IsOldestAge(s, now, window, SatSub(now, OldestWithin(s, now, window)))
  {
    if SatSub(now, s[0]) > window {
      var rest := s[1..];
      assert rest[|rest| - 1] == now;
      OldestIsFirst(rest, now, window);
      var age := SatSub(now, OldestWithin(s, now, window));
      assert forall i :: 0 <= i < |rest| ==> rest[i] == s[i + 1];
      assert forall i :: 1 <= i < |s| ==> s[i] == rest[i - 1];
    }
  }

  lemma {:induction false} OldestSkips(dropped: seq<Time>, entries: seq<Time>, now: Time, window: Time)
    requires AllOlder(dropped, now, window)
    ensures OldestWithin(dropped + entries, now, window) == OldestWithin(entries, now, window)
  {
    if dropped == [] {
      assert dropped + entries == entries;
    } else {
      OldestSkips(dropped[1..], entries, now, window);
      assert (dropped + entries)[1..] == dropped[1..] + entries;
    }
  }

  /** Pruning spares the per-key window of this name. */
  predicate KeyWindowKept(cfg: Config, name: string) {
    cfg.keyThreshold == 0 || name != MASTER || cfg.keyWindow <= cfg.failureWindow
  }

  /** The failures of the name since its last reset, with the one now reported. */
  function Failures(cfg: Config, es: seq<Event>, e: Event): seq<Time>
    requires IsFailure(e)
  {
    History(cfg, es, NameOf(e)) + [e.now]
  }

  /** The sliding window loses nothing: what `record_failure` counts in the pruned deque is
      what there is to count in the whole history since the last reset. */
  lemma WindowCountsExact(cfg: Config, es: seq<Event>, e: Event)
    requires Ordered(es) && IsFailure(e) && NotBefore(e, Clock(es))
    ensures var counts, all := CountsAt(cfg, Run(cfg, es), e), Failures(cfg, es, e);
            && counts.inWindow == ToU32(CountWithin(all, e.now, cfg.failureWindow))
            && IsOldestAge(all, e.now, cfg.failureWindow, counts.windowElapsed)
            && (PerKey(cfg, e) && KeyWindowKept(cfg, NameOf(e)) ==>
                  counts.inKeyWindow == ToU32(CountWithin(all, e.now, cfg.keyWindow)))
  {
    var name, p := NameOf(e), Run(cfg, es);
    var all, entries := Failures(cfg, es, e), EntriesAfter(cfg, p, e);
    var keep := Kept(cfg, name);
    var dropped := RunSuffix(cfg, es, name);
    dropped := SuffixRecords(cfg, History(cfg, es, name), dropped, Tracked(p, name), Clock(es),
                             keep, e.now, PerKey(cfg, e));
    SuffixCounts(all, dropped, entries, e.now, keep, cfg.failureWindow);
    OldestSkips(dropped, entries, e.now, cfg.failureWindow);
    OldestIsFirst(all, e.now, cfg.failureWindow);
    if PerKey(cfg, e) && KeyWindowKept(cfg, name) {
      SuffixCounts(all, dropped, entries, e.now, keep, cfg.keyWindow);
    }
  }

  /** The threshold was crossed, going by the whole history. */
  predicate VaultCrossed(cfg: Config, es: seq<Event>, e: Event)
    requires IsFailure(e)
  {
    cfg.maxFailures > 0 && CountWithin(Failures(cfg, es, e), e.now, cfg.failureWindow) >= cfg.maxFailures
  }

  predicate KeyCrossed(cfg: Config, es: seq<Event>, e: Event)
    requires IsFailure(e)
  {
    PerKey(cfg, e) && CountWithin(Failures(cfg, es, e), e.now, cfg.keyWindow) >= cfg.keyThreshold
  }

  /** Pruning never decides whether the per-key threshold of this name is reached: it spares
      the window, or the failures it leaves are enough for a threshold of one or two. */
  predicate Decided(cfg: Config, name: string) {
    KeyWindowKept(cfg, name) || cfg.keyThreshold <= 2
  }

  lemma BreachIffCrossed(cfg: Config, es: seq<Event>, e: Event)
    requires Ordered(es) && IsFailure(e) && NotBefore(e, Clock(es))
    ensures VaultBreach(cfg, Run(cfg, es), e) <==> VaultCrossed(cfg, es, e)
    ensures Decided(cfg, NameOf(e)) || e.now <= cfg.failureWindow ==>
              (KeyBreach(cfg, Run(cfg, es), e) <==> KeyCrossed(cfg, es, e))
  {
    WindowCountsExact(cfg, es, e);
    if e.now <= cfg.failureWindow {
      NothingPrunedYet(cfg, es, e);
    }
    if PerKey(cfg, e) {
      LowCountsAgree(cfg, es, e);
    }
  }

  /** Before the vault-wide window has passed once, nothing is old enough to be pruned. */
  lemma NothingPrunedYet(cfg: Config, es: seq<Event>, e: Event)
    requires Ordered(es) && IsFailure(e) && NotBefore(e, Clock(es)) && e.now <= cfg.failureWindow
    ensures EntriesAfter(cfg, Run(cfg, es), e) == Failures(cfg, es, e)
  {
    var name, keep := NameOf(e), Kept(cfg, NameOf(e));
    var dropped := RunSuffix(cfg, es, name);
    dropped := SuffixRecords(cfg, History(cfg, es, name), dropped, Tracked(Run(cfg, es), name), Clock(es),
                             keep, e.now, PerKey(cfg, e));
    OlderNeedsTime(dropped, e.now, keep);
  }

  lemma OlderNeedsTime(s: seq<Time>, now: Time, window: Time)
    requires AllOlder(s, now, window)
    ensures s != [] ==> now > window
  {
    if s != [] {
      assert SatSub(now, s[0]) > window;
    }
  }

  /** The latest failure is always tracked. */
  lemma {:induction false} LatestIsTracked(cfg: Config, es: seq<Event>, name: string)
    ensures History(cfg, es, name) != [] ==> Tracked(Run(cfg, es), name) != []
  {
    if es != [] {
      var before, e := es[..|es| - 1], es[|es| - 1];
      LatestIsTracked(cfg, before, name);
      TrackedNext(cfg, Run(cfg, before), e, name);
    }
  }

  lemma {:induction false} LatestIsWithin(s: seq<Time>, now: Time, window: Time)
    requires Sorted(s) && CountWithin(s, now, window) >= 1
    ensures s != [] && SatSub(now, s[|s| - 1]) <= window
  {
    if SatSub(now, s[0]) > window {
      LatestIsWithin(s[1..], now, window);
    }
  }

  lemma {:induction false} PruneKeepsLatest(s: seq<Time>, now: Time, keep: Time)
    requires s != [] && SatSub(now, s[|s| - 1]) <= keep
    ensures var left := Prune(s, now, keep);
            left != [] && left[|left| - 1] == s[|s| - 1]
  {
    if SatSub(now, s[0]) > keep {
      PruneKeepsLatest(s[1..], now, keep);
    }
  }

  lemma CountLatest(s: seq<Time>, now: Time, window: Time)
    requires s != [] && SatSub(now, s[|s| - 1]) <= window
    ensures CountWithin(s, now, window) >= 1
    ensures CountWithin(s, now, window) == CountWithin(s[..|s| - 1], now, window) + 1
  {
    var n := |s| - 1;
    CountSplit(s[..n], [s[n]], now, window);
    assert s == s[..n] + [s[n]];
  }

  lemma PruneCountsLess(dropped: seq<Time>, entries: seq<Time>, now: Time, window: Time, keep: Time)
    ensures CountWithin(Prune(entries, now, keep), now, window) <= CountWithin(dropped + entries, now, window)
  {
    var popped := PruneSplits(entries, now, keep);
    CountSplit(popped, Prune(entries, now, keep), now, window);
    CountSplit(dropped, entries, now, window);
  }

  lemma PruneCountsSome(dropped: seq<Time>, entries: seq<Time>, now: Time, window: Time, keep: Time)
    requires Sorted(dropped + entries) && window <= keep && entries != []
    requires CountWithin(dropped + entries, now, window) >= 1
    ensures CountWithin(Prune(entries, now, keep), now, window) >= 1
  {
    var history := dropped + entries;
    LatestIsWithin(history, now, window);
    assert history[|history| - 1] == entries[|entries| - 1];
    PruneKeepsLatest(entries, now, keep);
    CountLatest(Prune(entries, now, keep), now, window);
  }

  /** Whatever was pruned, a count of one or more and a count of two or more are right. */
  lemma LowCountsAgree(cfg: Config, es: seq<Event>, e: Event)
    requires Ordered(es) && IsFailure(e) && NotBefore(e, Clock(es)) && PerKey(cfg, e)
    ensures var n := CountWithin(EntriesAfter(cfg, Run(cfg, es), e), e.now, cfg.keyWindow);
            var all := CountWithin(Failures(cfg, es, e), e.now, cfg.keyWindow);
            1 <= n <= all && (all >= 2 ==> n >= 2)
  {
    var name, keep := NameOf(e), Keep(cfg, true);
    var history, entries := History(cfg, es, name), Tracked(Run(cfg, es), name);
    var dropped := RunSuffix(cfg, es, name);
    LatestIsTracked(cfg, es, name);
    PruneCountsLess(dropped, entries, e.now, cfg.keyWindow, keep);
    if CountWithin(history, e.now, cfg.keyWindow) >= 1 {
      PruneCountsSome(dropped, entries, e.now, cfg.keyWindow, keep);
    }
    CountSplit(Prune(entries, e.now, keep), [e.now], e.now, cfg.keyWindow);
    CountSplit(history, [e.now], e.now, cfg.keyWindow);
  }

  // ----- a name that is also the master's -----

  predicate KeyCountExact(cfg: Config, es: seq<Event>, e: Event)
    requires IsFailure(e)
  {
    PerKey(cfg, e) ==>
      CountsAt(cfg, Run(cfg, es), e).inKeyWindow == ToU32(CountWithin(Failures(cfg, es, e), e.now, cfg.keyWindow))
  }

  /** Master mismatches prune by the vault-wide window alone. Failures reported under the
      master's name are therefore counted right in every run exactly if the per-key window
      is off or not the longer one. */
  lemma MasterNameExactIff(cfg: Config)
    ensures (forall es, now, later ::
               Ordered(es) && Clock(es) <= now <= later ==> KeyCountExact(cfg, es, Report(MASTER, now, later)))
            <==> KeyWindowKept(cfg, MASTER)
  {
    if KeyWindowKept(cfg, MASTER) {
      forall es, now: Time, later: Time | Ordered(es) && Clock(es) <= now <= later
        ensures KeyCountExact(cfg, es, Report(MASTER, now, later))
      {
        WindowCountsExact(cfg, es, Report(MASTER, now, later));
      }
    } else {
      MasterNameMiscounts(cfg);
    }
  }

  /** The run that shows it: a reported failure, a master mismatch just after the vault-wide
      window, and a second report, which sees two failures where there were three. */
  lemma MasterNameMiscounts(cfg: Config)
    requires !KeyWindowKept(cfg, MASTER)
    ensures var t := cfg.failureWindow + 1;
            var es := [Report(MASTER, 0, 0), MasterFailure(t, t)];
            && Ordered(es) && Clock(es) == t
            && CountWithin(Failures(cfg, es, Report(MASTER, t, t)), t, cfg.keyWindow) == 3
            && CountsAt(cfg, Run(cfg, es), Report(MASTER, t, t)).inKeyWindow == 2
  {
    var t := cfg.failureWindow + 1;
    var first, second := Report(MASTER, 0, 0), MasterFailure(t, t);
    var es := [first, second];
    assert es[..1] == [first] && [first][..0] == [];
    assert History(cfg, [first], MASTER) == [0];
    assert Failures(cfg, es, Report(MASTER, t, t)) == [0, t, t];
    CountThree(t, cfg.keyWindow);
    MasterPrunes(cfg);
  }

  lemma CountThree(t: Time, window: Time)
    requires t <= window
    ensures CountWithin([0, t, t], t, window) == 3 && CountWithin([t, t], t, window) == 2
  {
    CountSplit([t], [t], t, window);
    CountSplit([0], [t, t], t, window);
    assert [0] + [t, t] == [0, t, t] && [t] + [t] == [t, t];
  }

  lemma MasterPrunes(cfg: Config)
    requires !KeyWindowKept(cfg, MASTER)
    ensures var t := cfg.failureWindow + 1;
            EntriesAfter(cfg, Run(cfg, [Report(MASTER, 0, 0), MasterFailure(t, t)]), Report(MASTER, t, t)) == [t, t]
  {
    var t := cfg.failureWindow + 1;
    var first, second := Report(MASTER, 0, 0), MasterFailure(t, t);
    var es := [first, second];
    assert es[..1] == [first] && [first][..0] == [];
    assert Tracked(Run(cfg, [first]), MASTER) == [0];
    assert Prune([0], t, cfg.failureWindow) == [];
    assert Tracked(Run(cfg, es), MASTER) == [t];
  }

  // ----- the locks over whole runs -----

  /** A lockout that began at `later` has not run out at `t`. */
  predicate Lasts(cfg: Config, later: Time, t: Time) {
    cfg.keyDuration.None? || t < SatAdd(later, cfg.keyDuration.value)
  }

  /** No lock ends later than one begun now would. */
  predicate EndsInTime(cfg: Config, p: Policy, clock: Time) {
    forall name :: name in p.locks ==>
      if cfg.keyDuration.None? then p.locks[name].None?
      else p.locks[name].Some? && p.locks[name].value <= SatAdd(clock, cfg.keyDuration.value)
  }

  lemma {:induction false} ClockAdvances(es: seq<Event>)
    requires Ordered(es) && es != []
    ensures Clock(es[..|es| - 1]) <= Clock(es)
  {
  }

  lemma {:induction false} RunEndsInTime(cfg: Config, es: seq<Event>)
    requires Ordered(es)
    ensures EndsInTime(cfg, Run(cfg, es), Clock(es))
  {
    if es != [] {
      ClockAdvances(es);
      RunEndsInTime(cfg, es[..|es| - 1]);
    }
  }

  lemma LockedAfterFailure(cfg: Config, p: Policy, clock: Time, e: Event, name: string, t: Time)
    requires Valid(p) && EndsInTime(cfg, p, clock) && NotBefore(e, clock) && IsFailure(e)
    ensures Locked(AfterFailure(cfg, p, e), name, t) <==>
            (NameOf(e) == name && KeyBreach(cfg, p, e) && Lasts(cfg, e.later, t)) || Locked(p, name, t)
  {
  }

  lemma LockedNext(cfg: Config, p: Policy, clock: Time, e: Event, name: string, t: Time)
    requires Valid(p) && EndsInTime(cfg, p, clock) && NotBefore(e, clock)
    requires e.Ask? ==> e.now <= t
    ensures Locked(Next(cfg, p, e), name, t) ==
            if e.ClearAll? || e == ClearKey(name) then false
            else
              || (IsFailure(e) && NameOf(e) == name && KeyBreach(cfg, p, e) && Lasts(cfg, e.later, t))
              || Locked(p, name, t)
  {
    if IsFailure(e) {
      LockedAfterFailure(cfg, p, clock, e, name, t);
    }
  }

  /** A repeated breach only moves the end of a lock further away: in any run, no call but a
      clear ends a lock earlier than it was to end. */
  lemma LockNeverShortened(cfg: Config, es: seq<Event>, e: Event, name: string, t: Time)
    requires Ordered(es) && NotBefore(e, Clock(es))
    requires Locked(Run(cfg, es), name, t) && !e.ClearAll? && e != ClearKey(name)
    requires e.Ask? ==> e.now <= t
    ensures Locked(Next(cfg, Run(cfg, es), e), name, t)
  {
    RunEndsInTime(cfg, es);
    LockedNext(cfg, Run(cfg, es), Clock(es), e, name, t);
  }

  /** Once an expiry is noticed the name starts afresh: its next failure is the first. */
  lemma ExpiryStartsAfresh(cfg: Config, es: seq<Event>, name: string, now: Time, e: Event)
    requires var asked := es + [Ask(name, now)];
             Ordered(asked) && IsFailure(e) && NameOf(e) == name && NotBefore(e, Clock(asked))
    requires Lingers(Run(cfg, es), name, now)
    ensures var p := Run(cfg, es + [Ask(name, now)]);
            name !in p.locks && CountsAt(cfg, p, e) == FailureCounts(1, if PerKey(cfg, e) then 1 else 0, 0)
  {
    Unfold(es, Ask(name, now));
    var p := Run(cfg, es + [Ask(name, now)]);
    assert Tracked(p, name) == [];
    assert EntriesAfter(cfg, p, e) == [e.now];
  }

  // ----- what the monitor hears -----

  /** The key breach reported as `lockoutTriggered` found no lock in place, as documented,
      exactly if no expired entry lingered under the name. */
  lemma TriggeredIffStarted(cfg: Config, p: Policy, e: Event)
    requires Valid(p) && IsFailure(e) && KeyBreach(cfg, p, e)
    ensures var said := Breaches(cfg, p, e)[|Breaches(cfg, p, e)| - 1].lockoutTriggered;
            && (said <==> NameOf(e) !in p.locks)
            && ((said <==> !Locked(p, NameOf(e), e.later)) <==> !Lingers(p, NameOf(e), e.later))
    ensures Next(cfg, p, e).locks == p.locks[NameOf(e) := Until(cfg, e.later)]
  {
  }

  /** A lock of 5 expires unseen; the failure at 10 starts a new one and says it did not. */
  lemma UnseenExpiryUnderreported()
    ensures var cfg := Config(0, 0, 1, 0, Some(5));
            var es, e := [Report("k", 0, 0)], Report("k", 10, 10);
            && Ordered(es + [e])
            && !Locked(Run(cfg, es), "k", 10) && Locked(Next(cfg, Run(cfg, es), e), "k", 10)
            && Breaches(cfg, Run(cfg, es), e) == [Breach(Key, 1, false)]
  {
    var cfg := Config(0, 0, 1, 0, Some(5));
    var first, e := Report("k", 0, 0), Report("k", 10, 10);
    var es := [first];
    Unfold(es, e);
    assert es[..0] == [] && Run(cfg, es) == Next(cfg, INIT, first);
    assert EntriesAfter(cfg, INIT, first) == [0];
    assert CountWithin([0], 0, 0) == 1;
    var p := Run(cfg, es);
    assert p.locks == map["k" := Some(5)] && Tracked(p, "k") == [0];
    assert Prune([0], 10, 0) == [];
    assert EntriesAfter(cfg, p, e) == [10];
    assert CountWithin([10], 10, 0) == 1;
  }

  /** The call at `k` tells the monitor that it started the vault-wide lockout. */
  ghost predicate TriggersAt(cfg: Config, es: seq<Event>, k: nat)
    requires k < |es|
  {
    && IsFailure(es[k])
    && var breaches := Breaches(cfg, Run(cfg, es[..k]), es[k]);
       exists b :: 0 <= b < |breaches| && breaches[b].scope == Vault && breaches[b].lockoutTriggered
  }

  lemma RunAt(cfg: Config, es: seq<Event>, k: nat)
    requires k < |es|
    ensures Run(cfg, es[..k + 1]) == Next(cfg, Run(cfg, es[..k]), es[k])
  {
    assert es[..k + 1] == es[..k] + [es[k]];
    RunSnoc(cfg, es[..k], es[k]);
  }

  /** In every run it is told so exactly when the vault goes down. */
  lemma TriggersIffGoesDown(cfg: Config, es: seq<Event>, k: nat)
    requires k < |es|
    ensures TriggersAt(cfg, es, k) <==> !Run(cfg, es[..k]).lockedOut && Run(cfg, es[..k + 1]).lockedOut
  {
    RunAt(cfg, es, k);
    if IsFailure(es[k]) && VaultBreach(cfg, Run(cfg, es[..k]), es[k]) {
      var breaches := Breaches(cfg, Run(cfg, es[..k]), es[k]);
      assert breaches[0].scope == Vault;
    }
  }

  lemma {:induction false} DownUntilCleared(cfg: Config, es: seq<Event>, k: nat, n: nat)
    requires k <= n <= |es| && Run(cfg, es[..k]).lockedOut && forall m :: k <= m < n ==> !es[m].ClearAll?
    ensures Run(cfg, es[..n]).lockedOut
    decreases n
  {
    if k < n {
      DownUntilCleared(cfg, es, k, n - 1);
      RunAt(cfg, es, n - 1);
    }
  }

  /** And so at most once between full clears. */
  lemma OneTriggerPerLockout(cfg: Config, es: seq<Event>, i: nat, j: nat)
    requires i < j < |es| && TriggersAt(cfg, es, i) && TriggersAt(cfg, es, j)
    ensures exists m :: i < m < j && es[m].ClearAll?
  {
    TriggersIffGoesDown(cfg, es, i);
    TriggersIffGoesDown(cfg, es, j);
    if forall m :: i + 1 <= m < j ==> !es[m].ClearAll? {
      DownUntilCleared(cfg, es, i + 1, j);
    }
  }
}
