/** The master unlock and its backoff: each checked wrong attempt doubles the wait before
    the next one will be checked, up to a limit. */
module Backoff {
  import opened Core
  import opened Lockout
  import opened LockoutState

  datatype Limits = Limits(base: Time, max: Time)

  // ----- the delay -----

  function Pow2(n: nat): (r: nat)
    ensures r >= 1
  {
    if n == 0 then 1 else 2 * Pow2(n - 1)
  }

  /** `backoff_delay`, with its checked multiplication. */
  function BackoffDelay(limits: Limits, failures: u32): Time {
    if limits.base == 0 then 0 else
    var shift := Min(if failures == 0 then 0 else failures - 1, 31);
    var product := limits.base * Pow2(shift);
    var checked := if product <= DURATION_MAX then Some(product) else None;
    Min(if checked.Some? then checked.value else limits.max, limits.max)
  }

  /** `base` doubled `n` times, in unbounded arithmetic. */
  function Doubled(base: nat, n: nat): (r: nat)
    ensures r >= base
  {
    if n == 0 then base else 2 * Doubled(base, n - 1)
  }

  lemma {:induction false} DoubledIsProduct(base: nat, n: nat)
    ensures Doubled(base, n) == base * Pow2(n)
  {
    if n > 0 {
      DoubledIsProduct(base, n - 1);
      assert base * (2 * Pow2(n - 1)) == 2 * (base * Pow2(n - 1));
    }
  }

  /** The delay after the `i`-th failure. */
  function Delay(limits: Limits, i: nat): Time
    requires i >= 1
  {
    Min(Doubled(limits.base, Min(i - 1, 31)), limits.max)
  }

  /** The overflow branch and the saturated failure count change nothing. */
  lemma DelayUnbounded(limits: Limits, i: nat)
    requires i >= 1
    ensures BackoffDelay(limits, ToU32(i)) == Delay(limits, i)
  {
    var shift := Min(i - 1, 31);
    assert Min(ToU32(i) - 1, 31) == shift;
    DoubledIsProduct(limits.base, shift);
    assert limits.base == 0 ==> Doubled(limits.base, shift) == 0;
  }

  /** The delay doubles up to the limit, for the first 32 failures; then it stays. */
  lemma DelayDoubles(limits: Limits, i: nat)
    requires i >= 1
    ensures Delay(limits, 1) == Min(limits.base, limits.max)
    ensures Delay(limits, i + 1) == if i < 32 then Min(2 * Delay(limits, i), limits.max) else Delay(limits, i)
  {
  }

  lemma {:induction false} DoubledMonotone(base: nat, m: nat, n: nat)
    requires m <= n
    ensures Doubled(base, m) <= Doubled(base, n)
  {
    if m < n {
      DoubledMonotone(base, m, n - 1);
    }
  }

  /** The documented delay, doubled with every failure and capped at the maximum, is what
      the code computes for every count exactly if 31 doublings reach the cap. */
  lemma DocumentedDelayIff(limits: Limits)
    ensures (forall i :: i >= 1 ==> Delay(limits, i) == Min(Doubled(limits.base, i - 1), limits.max))
            <==> limits.base == 0 || Doubled(limits.base, 31) >= limits.max
  {
    if limits.base == 0 || Doubled(limits.base, 31) >= limits.max {
      forall i | i >= 1 ensures Delay(limits, i) == Min(Doubled(limits.base, i - 1), limits.max) {
        if i - 1 > 31 {
          DoubledMonotone(limits.base, 31, i - 1);
          DoubledIsProduct(limits.base, i - 1);
        }
      }
    } else {
      assert Delay(limits, 33) != Min(Doubled(limits.base, 32), limits.max);
    }
  }

  lemma DoubledFour(base: nat, n: nat)
    ensures Doubled(base, n + 4) == 16 * Doubled(base, n)
  {
    assert Doubled(base, n + 2) == 4 * Doubled(base, n);
  }

  /** A base of one nanosecond and a maximum of three seconds: after 33 failures the documented
      delay is the maximum, the computed one 2^31 nanoseconds. */
  lemma DocumentedDelayExample()
    ensures var limits := Limits(1, 3_000_000_000);
            && Delay(limits, 33) == BackoffDelay(limits, 33) == 2_147_483_648
            && Min(Doubled(limits.base, 32), limits.max) == 3_000_000_000
  {
    var limits := Limits(1, 3_000_000_000);
    assert Doubled(1, 1) == 2 && Doubled(1, 3) == 8;
    DoubledFour(1, 3);
    DoubledFour(1, 7);
    DoubledFour(1, 11);
    DoubledFour(1, 15);
    DoubledFour(1, 19);
    DoubledFour(1, 23);
    DoubledFour(1, 27);
    DelayUnbounded(limits, 33);
  }

  // ----- attempts -----

  datatype State = State(failures: u32, nextAllowed: Time)

  const FRESH := State(0, 0)

  /** What came of looking at the credential. */
  datatype Check = Wrong | Right | NotChecked

  datatype Attempt = Attempt(now: Time, check: Check)

  function AfterAttempt(limits: Limits, s: State, a: Attempt): State {
    if a.now < s.nextAllowed then s
    else match a.check
      case NotChecked => s
      case Right => FRESH
      case Wrong =>
        var failures := if s.failures == U32_MAX then U32_MAX else s.failures + 1;
        State(failures, SatAdd(a.now, BackoffDelay(limits, failures)))
  }

  function AfterAttempts(limits: Limits, log: seq<Attempt>): State {
    if log == [] then FRESH else AfterAttempt(limits, AfterAttempts(limits, log[..|log| - 1]), log[|log| - 1])
  }

  lemma AttemptSnoc(limits: Limits, log: seq<Attempt>, a: Attempt)
    ensures AfterAttempts(limits, log + [a]) == AfterAttempt(limits, AfterAttempts(limits, log), a)
  {
    assert (log + [a])[..|log|] == log;
  }

  /** When the wrong attempts that were checked since the last success were made. */
  function Streak(limits: Limits, log: seq<Attempt>): seq<Time> {
    if log == [] then [] else
    var before, a := log[..|log| - 1], log[|log| - 1];
    if a.now < AfterAttempts(limits, before).nextAllowed || a.check.NotChecked? then Streak(limits, before)
    else if a.check.Right? then []
    else Streak(limits, before) + [a.now]
  }

  /** In every run the fields are a function of the streak alone. */
  lemma {:induction false} StateOfStreak(limits: Limits, log: seq<Attempt>)
    ensures var streak, s := Streak(limits, log), AfterAttempts(limits, log);
            && s.failures == ToU32(|streak|)
            && s.nextAllowed == (if streak == [] then 0 else SatAdd(streak[|streak| - 1], Delay(limits, |streak|)))
  {
    if log != [] {
      var before := log[..|log| - 1];
      StateOfStreak(limits, before);
      DelayUnbounded(limits, |Streak(limits, before)| + 1);
    }
  }

  /** The delays after the failures numbered `i` to `j - 1`. */
  function SumDelays(limits: Limits, i: nat, j: nat): nat
    requires 1 <= i <= j
    decreases j
  {
    if i == j then 0 else SumDelays(limits, i, j - 1) + Delay(limits, j - 1)
  }

  /** An attempt that joins a streak comes no sooner than the last delay allows. */
  lemma NextIsLate(limits: Limits, before: seq<Attempt>, a: Attempt)
    requires Streak(limits, before) != [] && a.now >= AfterAttempts(limits, before).nextAllowed
    ensures var was := Streak(limits, before);
            a.now >= SatAdd(was[|was| - 1], Delay(limits, |was|))
  {
    StateOfStreak(limits, before);
  }

  lemma SpanAdds(first: Time, sum: nat, last: Time, delay: Time, now: Time)
    requires last >= Min(first + sum, DURATION_MAX) && now >= SatAdd(last, delay)
    ensures now >= Min(first + sum + delay, DURATION_MAX)
  {
  }

  /** However attempts are timed, and even with a clock that goes back between them, the
      wrong attempts of a streak that are checked lie apart by at least the sum of the
      delays between them (as far as a `Duration` reaches). */
  lemma {:induction false} StreakSpan(limits: Limits, log: seq<Attempt>, i: nat, j: nat)
    requires i <= j < |Streak(limits, log)|
    ensures var streak := Streak(limits, log);
            streak[j] >= Min(streak[i] + SumDelays(limits, i + 1, j + 1), DURATION_MAX)
    decreases |log|, j
  {
    var before, a := log[..|log| - 1], log[|log| - 1];
    var was, streak := Streak(limits, before), Streak(limits, log);
    if j < |was| {
      StreakSpan(limits, before, i, j);
    } else if i < j {
      StreakSpan(limits, before, i, j - 1);
      NextIsLate(limits, before, a);
      SpanAdds(was[i], SumDelays(limits, i + 1, j), was[j - 1], Delay(limits, j), a.now);
    }
  }

  // ----- the master unlock -----

  type KeyedHash = (bytes, bytes) -> bytes

  function CallHash(hash: KeyedHash, hashKey: bytes, input: bytes): bytes {
    hash(hashKey, input)
  }

  /** A stored credential: a 32-byte hash key followed by the digest of the master. The
      keyed hash is any function. */
  datatype Verifier = Absent | Unavailable | Ready(stored: bytes, hash: KeyedHash)

  /** What `with_master_key` makes of a master and 32 random bytes. */
  function NewVerifier(hash: KeyedHash, hashKey: bytes, master: bytes): Verifier
    requires |hashKey| == 32
  {
    Ready(hashKey + CallHash(hash, hashKey, master), hash)
  }

  predicate Matches(v: Verifier, attempt: bytes)
    requires v.Ready?
  {
    |v.stored| >= 32 && CallHash(v.hash, v.stored[..32], attempt) == v.stored[32..]
  }

  /** A verifier lets in exactly the attempts with the master's digest: the master always, and
      with a hash that keeps its inputs apart nothing else. */
  lemma MasterUnlocks(hash: KeyedHash, hashKey: bytes, master: bytes, attempt: bytes)
    requires |hashKey| == 32
    ensures Matches(NewVerifier(hash, hashKey, master), attempt) <==>
            CallHash(hash, hashKey, attempt) == CallHash(hash, hashKey, master)
    ensures Matches(NewVerifier(hash, hashKey, master), master)
    ensures Matches(NewVerifier((k, x) => k + x, hashKey, master), attempt) <==> attempt == master
  {
    var v := NewVerifier(hash, hashKey, master);
    assert v.stored[..32] == hashKey && v.stored[32..] == CallHash(hash, hashKey, master);
    var w := NewVerifier((k, x) => k + x, hashKey, master);
    assert w.stored[..32] == hashKey && w.stored[32..] == hashKey + master;
    assert (hashKey + attempt)[32..] == attempt && (hashKey + master)[32..] == master;
  }

  class MasterUnlock {
    const limits: Limits
    const verifier: Verifier
    const lockouts: Lockouts
    var failures: u32
    var nextAllowed: Time
    ghost var log: seq<Attempt>

    ghost predicate Follows()
      reads this, lockouts
    {
      State(failures, nextAllowed) == AfterAttempts(limits, log) && lockouts.Follows()
    }

    constructor (limits: Limits, verifier: Verifier, lockouts: Lockouts)
      requires lockouts.Follows()
      ensures Follows() && log == [] && this.limits == limits && this.verifier == verifier && this.lockouts == lockouts
    {
      this.limits := limits;
      this.verifier := verifier;
      this.lockouts := lockouts;
      failures := 0;
      nextAllowed := 0;
      log := [];
    }

    /** `unlock_with_master`. `readable` is whether the operating system lets the protected
        credential be read; `failNow` and `failLater` are the clock readings of the failure
        report. */
    method UnlockWithMaster(attempt: bytes, now: Time, readable: bool, failNow: Time, failLater: Time)
      returns (r: Result<()>)
      requires Follows()
      modifies this, lockouts
      ensures Follows()
      // An attempt that is not checked changes nothing.
      ensures r.Err? && r.error != MasterMismatch ==>
                && State(failures, nextAllowed) == old(State(failures, nextAllowed))
                && lockouts.View() == old(lockouts.View()) && lockouts.log == old(lockouts.log)
                && Streak(limits, log) == Streak(limits, old(log))
      ensures verifier.Absent? <==> r == Err(NoMasterKey)
      ensures !verifier.Absent? && now < old(nextAllowed) <==> r == Err(RateLimited(SatSub(old(nextAllowed), now)))
      ensures verifier.Unavailable? && now >= old(nextAllowed) <==> r == Err(VerifierUnavailable)
      ensures verifier.Ready? && now >= old(nextAllowed) && !readable <==> r == Err(ProtectFailed)
      ensures verifier.Ready? && now >= old(nextAllowed) && readable ==>
                var stored := verifier.stored;
                if |stored| >= 32 && CallHash(verifier.hash, stored[..32], attempt) == stored[32..] then r == Ok(())
                else r == Err(MasterMismatch)
      ensures r.Ok? ==> State(failures, nextAllowed) == FRESH
                        && lockouts.View() == INIT && lockouts.log == old(lockouts.log) + [ClearAll]
      ensures r == Err(MasterMismatch) ==>
                && Streak(limits, log) == Streak(limits, old(log)) + [now]
                && lockouts.log == old(lockouts.log) + [MasterFailure(failNow, failLater)]
    {
      if verifier.Absent? {
        return Err(NoMasterKey);
      }
      if now < nextAllowed {
        ghost var refused := Attempt(now, NotChecked);
        AttemptSnoc(limits, log, refused);
        StreakSnoc(limits, log, refused);
        log := log + [refused];
        return Err(RateLimited(nextAllowed - now));
      }
      if verifier.Unavailable? {
        return Err(VerifierUnavailable);
      }
      if !readable {
        return Err(ProtectFailed);
      }
      var matched := Matches(verifier, attempt);
      ghost var checked := Attempt(now, if matched then Right else Wrong);
      AttemptSnoc(limits, log, checked);
      StreakSnoc(limits, log, checked);
      if matched {
        failures, nextAllowed := 0, 0;
      } else {
        failures := if failures == U32_MAX then U32_MAX else failures + 1;
        nextAllowed := SatAdd(now, BackoffDelay(limits, failures));
      }
      log := log + [checked];
      if matched {
        lockouts.ClearLockout();
        r := Ok(());
      } else {
        var _, _ := lockouts.HandleFailure(MasterFailure(failNow, failLater));
        r := Err(MasterMismatch);
      }
    }
  }

  lemma StreakSnoc(limits: Limits, log: seq<Attempt>, a: Attempt)
    ensures Streak(limits, log + [a]) ==
            if a.now < AfterAttempts(limits, log).nextAllowed || a.check.NotChecked? then Streak(limits, log)
            else if a.check.Right? then [] else Streak(limits, log) + [a.now]
  {
    assert (log + [a])[..|log|] == log;
  }
}
