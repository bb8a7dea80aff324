/** Random draws and the in-place Fisher-Yates shuffle.

    The random source is what it is going to deliver: any sequence of 64-bit values, after
    which it fails. Everything proved below holds for every such sequence. */
module Shuffle {
  import opened Core

  type Draws = seq<u64>

  /** One draw. */
  method RandomU64(src: Draws) returns (r: Result<u64>, rest: Draws)
    ensures if src == [] then r == Err(RngFailed) && rest == [] else r == Ok(src[0]) && rest == src[1..]
  {
    if src == [] {
      return Err(RngFailed), [];
    }
    return Ok(src[0]), src[1..];
  }

  /** What is left of a source from which at most `n` values were drawn. */
  predicate LeftOf(rest: Draws, src: Draws, n: nat) {
    && |src| - n <= |rest| <= |src|
    && rest == src[|src| - |rest|..]
  }

  lemma LeftTogether(last: Draws, middle: Draws, src: Draws, m: nat, n: nat)
    requires LeftOf(last, middle, m) && LeftOf(middle, src, n)
    ensures LeftOf(last, src, m + n)
  {
  }

  /** The value `sample_range` makes of one draw: reduced modulo the span. */
  function InRange(min: nat, max: nat, draw: u64): (n: nat)
    requires min <= max
    ensures min <= n <= max
  {
    min + draw % (max - min + 1)
  }

  function Swapped<T>(s: seq<T>, i: nat, j: nat): (t: seq<T>)
    requires i < |s| && j < |s|
    ensures |t| == |s|
  {
    s[i := s[j]][j := s[i]]
  }

  lemma SwappedPermutes<T>(s: seq<T>, i: nat, j: nat)
    requires i < |s| && j < |s|
    ensures multiset(Swapped(s, i, j)) == multiset(s)
  {
  }

  /** The positions a shuffle of `n` elements swaps with: step `k` exchanges
      position `n - 1 - k` with a position at or below it. */
  predicate Steps(js: seq<nat>, n: nat) {
    |js| < Max(n, 1) && forall k :: 0 <= k < |js| ==> js[k] < n - k
  }

  /** Each step is its draw, reduced. */
  predicate DrawnBy(js: seq<nat>, draws: seq<u64>, n: nat) {
    |js| == |draws| <= n && forall k :: 0 <= k < |js| ==> js[k] == draws[k] % (n - k)
  }

  /** `s` after these steps of the shuffle. */
  function After<T>(s: seq<T>, js: seq<nat>): (t: seq<T>)
    requires Steps(js, |s|)
    ensures |t| == |s|
    decreases |js|
  {
    if js == [] then s else
      var k := |js| - 1;
      Swapped(After(s, js[..k]), |s| - 1 - k, js[k])
  }

  lemma {:induction false} AfterPermutes<T>(s: seq<T>, js: seq<nat>)
    requires Steps(js, |s|)
    ensures multiset(After(s, js)) == multiset(s)
    decreases |js|
  {
    if js != [] {
      var k := |js| - 1;
      AfterPermutes(s, js[..k]);
      SwappedPermutes(After(s, js[..k]), |s| - 1 - k, js[k]);
    }
  }

  lemma StepsPush(js: seq<nat>, n: nat, j: nat)
    requires Steps(js, n) && |js| + 1 < n && j < n - |js|
    ensures Steps(js + [j], n)
  {
    assert forall k :: 0 <= k < |js| ==> (js + [j])[k] == js[k];
  }

  lemma {:induction false} AfterPush<T>(s: seq<T>, js: seq<nat>, j: nat)
    requires Steps(js, |s|) && |js| + 1 < |s| && j < |s| - |js|
    ensures Steps(js + [j], |s|)
    ensures After(s, js + [j]) == Swapped(After(s, js), |s| - 1 - |js|, j)
  {
    StepsPush(js, |s|, j);
    var more := js + [j];
    assert more[..|js|] == js && more[|js|] == j;
  }

  /** A completed shuffle takes one step fewer than there are elements. */
  predicate Complete(js: seq<nat>, n: nat) {
    Steps(js, n) && |js| == if n < 2 then 0 else n - 1
  }

  /** Every rearrangement of `s` is the outcome of some draws: the shuffle
      never rules an order out. */
  lemma {:induction false} EveryOrderReachable<T>(s: seq<T>, t: seq<T>) returns (js: seq<nat>, draws: seq<u64>)
    requires multiset(s) == multiset(t)
    requires |s| < TWO_64
    ensures Complete(js, |s|) && DrawnBy(js, draws, |s|) && After(s, js) == t
  {
    SameLength(s, t);
    if |s| < 2 {
      js := [];
      if |s| == 1 {
        assert t[0] in multiset(s);
      }
    } else {
      js := ReachSuffix(s, t, |s| - 1);
      AfterPermutes(s, js);
      FirstAgrees(After(s, js), t);
    }
    draws := js;
    forall k | 0 <= k < |js|
      ensures js[k] == draws[k] % (|s| - k)
    {
      SmallMod(js[k], |s| - k);
    }
  }

  lemma SameLength<T>(s: seq<T>, t: seq<T>)
    requires multiset(s) == multiset(t)
    ensures |s| == |t|
  {
    assert |s| == |multiset(s)| && |t| == |multiset(t)|;
  }

  lemma FirstAgrees<T>(p: seq<T>, t: seq<T>)
    requires multiset(p) == multiset(t) && |p| == |t| > 0 && p[1..] == t[1..]
    ensures p == t
  {
    PrefixMultiset(p, t, 1);
    assert p[..1] == [p[0]] && t[..1] == [t[0]];
    assert p[0] in multiset(t[..1]);
    assert p == p[..1] + p[1..] && t == t[..1] + t[1..];
  }

  /** `k` steps that put the last `k` elements of `t` in place. */
  lemma {:induction false} ReachSuffix<T>(s: seq<T>, t: seq<T>, k: nat) returns (js: seq<nat>)
    requires multiset(s) == multiset(t) && |s| == |t| < TWO_64
    requires k < |s|
    ensures |js| == k && Steps(js, |s|) && forall i :: 0 <= i < k ==> js[i] < TWO_64
    ensures After(s, js)[|s| - k..] == t[|s| - k..]
  {
    if k == 0 {
      js := [];
    } else {
      var d := ReachSuffix(s, t, k - 1);
      AfterPermutes(s, d);
      var j := FindSource(After(s, d), t, |s| - k);
      js := d + [j];
      AfterPush(s, d, j);
      SuffixAfterSwap(After(s, d), t, |s| - k, j);
    }
  }

  lemma SmallMod(j: nat, n: nat)
    requires j < n
    ensures j % n == j
  {
  }

  lemma FindSource<T>(p: seq<T>, t: seq<T>, i: nat) returns (j: nat)
    requires multiset(p) == multiset(t) && i < |p| == |t|
    requires p[i + 1..] == t[i + 1..]
    ensures j <= i && p[j] == t[i]
  {
    PrefixMultiset(p, t, i + 1);
    assert t[i] == t[..i + 1][i];
    assert t[i] in multiset(p[..i + 1]);
    j :| 0 <= j < i + 1 && p[..i + 1][j] == t[i];
  }

  lemma SuffixAfterSwap<T>(p: seq<T>, t: seq<T>, i: nat, j: nat)
    requires j <= i < |p| == |t| && p[j] == t[i]
    requires p[i + 1..] == t[i + 1..]
    ensures Swapped(p, i, j)[i..] == t[i..]
  {
    var q := Swapped(p, i, j);
    assert q[i..] == [q[i]] + q[i + 1..];
    assert q[i + 1..] == p[i + 1..];
    assert t[i..] == [t[i]] + t[i + 1..];
  }

  lemma PrefixMultiset<T>(p: seq<T>, t: seq<T>, n: nat)
    requires multiset(p) == multiset(t) && n <= |p| == |t|
    requires p[n..] == t[n..]
    ensures multiset(p[..n]) == multiset(t[..n])
  {
    assert p == p[..n] + p[n..] && t == t[..n] + t[n..];
    assert multiset(p[..n]) == multiset(p) - multiset(p[n..]);
    assert multiset(t[..n]) == multiset(t) - multiset(t[n..]);
  }

  method SwapAt<T>(a: array<T>, i: nat, j: nat)
    requires i < a.Length && j < a.Length
    modifies a
    ensures a[..] == Swapped(old(a[..]), i, j)
  {
    a[i], a[j] := a[j], a[i];
  }

  /** Draws a shuffle of `n` elements takes. */
  function Needed(n: nat): nat {
    if n < 2 then 0 else n - 1
  }

  /** `now` is what these steps, made of the first draws, have made of `was`. */
  ghost predicate Shuffling<T>(was: seq<T>, now: seq<T>, js: seq<nat>, src: Draws) {
    |js| <= |src| && Steps(js, |was|) && DrawnBy(js, src[..|js|], |was|) && now == After(was, js)
  }

  lemma {:induction false} ShufflingNext<T>(was: seq<T>, now: seq<T>, js: seq<nat>, src: Draws, j: nat)
    requires Shuffling(was, now, js, src) && |js| < |src| && |js| + 1 < |was|
    requires j == src[|js|] % (|was| - |js|)
    ensures j < |was| - |js| && |now| == |was|
    ensures Shuffling(was, Swapped(now, |was| - 1 - |js|, j), js + [j], src)
  {
    var m := |js|;
    AfterPush(was, js, j);
    assert forall k :: 0 <= k < m ==> src[..m + 1][k] == src[..m][k];
  }

  /** The shuffle, in place. Whatever the draws (including a source that fails half way) the
      elements are only rearranged, and it fails exactly if the source runs out. */
  method FisherYates<T>(a: array<T>, src: Draws) returns (r: Result<()>, rest: Draws, ghost js: seq<nat>)
    modifies a
    ensures multiset(a[..]) == multiset(old(a[..]))
    ensures Shuffling(old(a[..]), a[..], js, src) && rest == src[|js|..]
    ensures r == if |src| < Needed(a.Length) then Err(RngFailed) else Ok(())
    ensures r.Ok? ==> Complete(js, a.Length)
  {
    js, rest := [], src;
    ghost var was := a[..];
    if a.Length < 2 {
      return Ok(()), src, js;
    }
    var i := a.Length - 1;
    while i > 0
      invariant 0 <= i < a.Length
      invariant |js| == a.Length - 1 - i && Shuffling(was, a[..], js, src) && rest == src[|js|..]
    {
      var v, rest' := RandomU64(rest);
      if v.Err? {
        AfterPermutes(was, js);
        return Err(v.error), rest, js;
      }
      var j := v.value % (i + 1);
      ShufflingNext(was, a[..], js, src, j);
      SwapAt(a, i, j);
      js, rest := js + [j], rest';
      i := i - 1;
    }
    AfterPermutes(was, js);
    r := Ok(());
  }
}
