/** Choosing chunk sizes for a key (`sample_chunk_sizes`; RandomFragmenter
    repeats the same rule inline). */
module ChunkSizes {
  import opened Core
  import Shuffle

  /** The size of the next chunk when `want` was sampled from `[min, max]`:
      everything once it fits, otherwise the sample, clamped so that `min` bytes stay
      if possible. The sample is not used for the last chunk. */
  function Next(remaining: nat, min: nat, max: nat, want: nat): (n: nat)
    requires 1 <= min <= want <= max && remaining > 0
    ensures 1 <= n <= remaining && n <= max
    ensures remaining <= max ==> n == remaining
    ensures remaining > max && want + min <= remaining ==> n == want
    ensures remaining > max && want + min > remaining ==> n == Max(min, remaining - min)
  {
    if remaining <= max then remaining else
      var pick := Min(want, if remaining < min then 0 else remaining - min);
      Min(Min(Max(pick, min), max), remaining)
  }

  function Sum(s: seq<nat>): nat {
    if s == [] then 0 else Sum(s[..|s| - 1]) + s[|s| - 1]
  }

  /** `sizes` are the chunks cut so far from `total` bytes, given the samples. */
  predicate Cut(sizes: seq<nat>, wants: seq<nat>, total: nat, min: nat, max: nat)
    requires 1 <= min <= max
    decreases |sizes|
  {
    && |wants| == |sizes|
    && (sizes != [] ==>
          var k := |sizes| - 1;
          && Cut(sizes[..k], wants[..k], total, min, max)
          && Sum(sizes[..k]) < total
          && min <= wants[k] <= max
          && sizes[k] == Next(total - Sum(sizes[..k]), min, max, wants[k]))
  }

  /** The samples are what `sample_range` makes of these draws. */
  predicate SampledBy(wants: seq<nat>, draws: seq<u64>, min: nat, max: nat)
    requires min <= max
  {
    |wants| == |draws| && forall i :: 0 <= i < |wants| ==> wants[i] == Shuffle.InRange(min, max, draws[i])
  }

  lemma CutPush(sizes: seq<nat>, wants: seq<nat>, total: nat, min: nat, max: nat, want: nat, n: nat)
    requires 1 <= min <= want <= max && Cut(sizes, wants, total, min, max) && Sum(sizes) < total
    requires n == Next(total - Sum(sizes), min, max, want)
    ensures Cut(sizes + [n], wants + [want], total, min, max)
    ensures Sum(sizes + [n]) == Sum(sizes) + n
  {
    assert (sizes + [n])[..|sizes|] == sizes && (wants + [want])[..|sizes|] == wants;
  }

  /** Sizes of an unfinished cut: every chunk but the last was taken while more
      than `max` bytes remained. */
  lemma {:induction false} CutBounds(sizes: seq<nat>, wants: seq<nat>, total: nat, min: nat, max: nat)
    requires 1 <= min <= max && Cut(sizes, wants, total, min, max)
    ensures Sum(sizes) <= total
    ensures forall i :: 0 <= i < |sizes| ==> min <= wants[i] <= max
    ensures forall i :: 0 <= i < |sizes| ==> 1 <= sizes[i] <= max
    ensures forall i :: 0 <= i < |sizes| - 1 ==> min <= sizes[i]
    ensures Sum(sizes) < total ==> forall i :: 0 <= i < |sizes| ==> min <= sizes[i]
    decreases |sizes|
  {
    if sizes != [] {
      var k := |sizes| - 1;
      CutBounds(sizes[..k], wants[..k], total, min, max);
      assert forall i :: 0 <= i < k ==> sizes[i] == sizes[..k][i] && wants[i] == wants[..k][i];
    }
  }

  lemma {:induction false} SumBounds(s: seq<nat>, lo: nat, hi: nat)
    requires forall i :: 0 <= i < |s| ==> lo <= s[i] <= hi
    ensures |s| * lo <= Sum(s) <= |s| * hi
  {
    if s != [] {
      var k := |s| - 1;
      SumBounds(s[..k], lo, hi);
      OneLess(|s|, lo);
      OneLess(|s|, hi);
    }
  }

  /** A finished cut: sizes in range, and the number of chunks between
      `ceil(total / max)` and `ceil(total / min)`. */
  lemma SizesInRange(sizes: seq<nat>, wants: seq<nat>, total: nat, min: nat, max: nat)
    requires 1 <= min <= max && Cut(sizes, wants, total, min, max) && Sum(sizes) == total > 0
    ensures |sizes| > 0
    ensures forall i :: 0 <= i < |sizes| - 1 ==> min <= sizes[i] <= max
    ensures 1 <= sizes[|sizes| - 1] <= max
    ensures (|sizes| - 1) * min < total <= |sizes| * max
  {
    CutBounds(sizes, wants, total, min, max);
    SumBounds(sizes, 0, max);
    var k := |sizes| - 1;
    SumBounds(sizes[..k], min, max);
  }

  // ----- When can a chunk come out shorter than `min`? -----

  /** `k` picks can lead to a remainder `r` with `max < r < 2 * min`, which
      cannot be split into two chunks of at least `min` bytes. */
  predicate TightAfter(k: nat, total: nat, min: nat, max: nat) {
    max + 1 < 2 * min && k * min + max + 1 <= total < k * max + 2 * min
  }

  /** What a caller can check before fragmenting `total` bytes. */
  ghost predicate ShortChunkPossible(total: nat, min: nat, max: nat) {
    total < min || exists k: nat :: TightAfter(k, total, min, max)
  }

  /** These draws cut `total` bytes into these sizes, and one of them is below `min`. */
  ghost predicate ShortOutcome(sizes: seq<nat>, wants: seq<nat>, draws: seq<u64>, total: nat, min: nat, max: nat)
    requires 1 <= min <= max
  {
    && SampledBy(wants, draws, min, max)
    && Cut(sizes, wants, total, min, max)
    && Sum(sizes) == total
    && exists i :: 0 <= i < |sizes| && sizes[i] < min
  }

  /** If a chunk is short the parameters allowed it. */
  lemma ShortChunkImpliesPossible(sizes: seq<nat>, wants: seq<nat>, draws: seq<u64>, total: nat, min: nat, max: nat)
    requires 1 <= min <= max && total > 0 && ShortOutcome(sizes, wants, draws, total, min, max)
    ensures ShortChunkPossible(total, min, max)
  {
    SizesInRange(sizes, wants, total, min, max);
    var k := |sizes| - 1;
    if k == 0 {
      assert sizes == [sizes[0]] && Sum(sizes[..0]) == 0;
    } else {
      var before := sizes[..k];
      var j := k - 1;
      assert before[..j] == sizes[..j] && before[j] == sizes[j];
      var r := total - Sum(before[..j]);
      CutBounds(before, wants[..k], total, min, max);
      assert r - before[j] == sizes[k];
      assert max < r < 2 * min;
      SumBounds(before[..j], min, max);
      assert TightAfter(j, total, min, max);
    }
  }

  lemma TightRemainder(k: nat, total: nat, min: nat, max: nat) returns (r: nat)
    requires TightAfter(k, total, min, max) && min <= max
    ensures max < r < 2 * min && k * min <= total - r <= k * max
  {
    var least, most := k * min, k * max;
    ProductMonotone(k, min, max);
    r := Max(max + 1, total - most);
  }

  /** If `d` is a sum of `k` numbers in `[min, max]`, this is one of them. */
  lemma ShareOut(d: nat, k: nat, min: nat, max: nat) returns (p: nat)
    requires k > 0 && min <= max && k * min <= d <= k * max
    ensures min <= p <= max && p <= d && (k - 1) * min <= d - p <= (k - 1) * max
  {
    var least, most := (k - 1) * min, (k - 1) * max;
    OneLess(k, min);
    OneLess(k, max);
    ProductMonotone(k - 1, min, max);
    p := Max(min, d - most);
  }

  /** `k` more picks that leave exactly `r` bytes. */
  lemma {:induction false} ReachRemainder(sizes: seq<nat>, wants: seq<nat>, total: nat, min: nat, max: nat,
                                          r: nat, k: nat)
    returns (sizes': seq<nat>, wants': seq<nat>)
    requires 1 <= min <= max < r
    requires Cut(sizes, wants, total, min, max) && Sum(sizes) + r <= total
    requires k * min <= total - Sum(sizes) - r <= k * max
    ensures Cut(sizes', wants', total, min, max) && Sum(sizes') + r == total
    decreases k
  {
    if k == 0 {
      sizes', wants' := sizes, wants;
    } else {
      var p := ShareOut(total - Sum(sizes) - r, k, min, max);
      CutPush(sizes, wants, total, min, max, p, p);
      sizes', wants' := ReachRemainder(sizes + [p], wants + [p], total, min, max, r, k - 1);
    }
  }

  /** A tight remainder is cut into `min` and a short rest, whatever is drawn. */
  lemma CutTight(sizes: seq<nat>, wants: seq<nat>, total: nat, min: nat, max: nat, r: nat)
    returns (sizes': seq<nat>, wants': seq<nat>)
    requires 1 <= min <= max < r < 2 * min
    requires Cut(sizes, wants, total, min, max) && Sum(sizes) + r == total
    ensures Cut(sizes', wants', total, min, max) && Sum(sizes') == total
    ensures exists i :: 0 <= i < |sizes'| && sizes'[i] < min
  {
    var sizes1, wants1 := sizes + [min], wants + [min];
    CutPush(sizes, wants, total, min, max, min, min);
    sizes', wants' := CutLast(sizes1, wants1, total, min, max);
  }

  lemma CutLast(sizes: seq<nat>, wants: seq<nat>, total: nat, min: nat, max: nat)
    returns (sizes': seq<nat>, wants': seq<nat>)
    requires 1 <= min <= max && Cut(sizes, wants, total, min, max)
    requires Sum(sizes) < total < Sum(sizes) + min
    ensures Cut(sizes', wants', total, min, max) && Sum(sizes') == total
    ensures exists i :: 0 <= i < |sizes'| && sizes'[i] < min
  {
    var n := total - Sum(sizes);
    CutPush(sizes, wants, total, min, max, min, n);
    sizes', wants' := sizes + [n], wants + [min];
    assert sizes'[|sizes|] < min;
  }

  lemma CutAfter(k: nat, total: nat, min: nat, max: nat) returns (sizes: seq<nat>, wants: seq<nat>)
    requires 1 <= min <= max && TightAfter(k, total, min, max)
    ensures Cut(sizes, wants, total, min, max) && Sum(sizes) == total
    ensures exists i :: 0 <= i < |sizes| && sizes[i] < min
  {
    var r := TightRemainder(k, total, min, max);
    sizes, wants := ReachRemainder([], [], total, min, max, r, k);
    sizes, wants := CutTight(sizes, wants, total, min, max, r);
  }

  /** Every sample in range comes from some draw. */
  lemma EverySampleDrawable(wants: seq<nat>, min: nat, max: nat) returns (draws: seq<u64>)
    requires min <= max < TWO_64
    requires forall i :: 0 <= i < |wants| ==> min <= wants[i] <= max
    ensures SampledBy(wants, draws, min, max)
  {
    draws := seq(|wants|, i requires 0 <= i < |wants| => wants[i] - min);
    forall i | 0 <= i < |wants|
      ensures wants[i] == Shuffle.InRange(min, max, draws[i])
    {
      Shuffle.SmallMod(wants[i] - min, max - min + 1);
    }
  }

  /** If the parameters allow it, some draws produce a short chunk. */
  lemma PossibleImpliesShortChunk(total: nat, min: nat, max: nat)
    returns (sizes: seq<nat>, wants: seq<nat>, draws: seq<u64>)
    requires 1 <= min <= max < TWO_64 && total > 0
    requires ShortChunkPossible(total, min, max)
    ensures ShortOutcome(sizes, wants, draws, total, min, max)
  {
    if total < min {
      sizes, wants := CutLast([], [], total, min, max);
    } else {
      var k: nat :| TightAfter(k, total, min, max);
      sizes, wants := CutAfter(k, total, min, max);
    }
    CutBounds(sizes, wants, total, min, max);
    draws := EverySampleDrawable(wants, min, max);
  }

  /** Exactly when some draw produces a chunk below the configured minimum. */
  lemma ShortChunkIff(total: nat, min: nat, max: nat)
    requires 1 <= min <= max < TWO_64 && total > 0
    ensures ShortChunkPossible(total, min, max)
       <==> exists sizes: seq<nat>, wants: seq<nat>, draws: seq<u64> ::
              ShortOutcome(sizes, wants, draws, total, min, max)
  {
    if ShortChunkPossible(total, min, max) {
      var sizes, wants, draws := PossibleImpliesShortChunk(total, min, max);
    }
    if sizes: seq<nat>, wants: seq<nat>, draws: seq<u64> :| ShortOutcome(sizes, wants, draws, total, min, max) {
      ShortChunkImpliesPossible(sizes, wants, draws, total, min, max);
    }
  }

  /** A range at least `2 * min - 1` wide is always safe for keys of `min` bytes or more. */
  lemma WideRangeNeverShort(total: nat, min: nat, max: nat)
    requires total >= min && max >= 2 * min - 1
    ensures !ShortChunkPossible(total, min, max)
  {
  }

  /** `sample_range`: one draw. */
  method SampleRange(min: nat, max: nat, src: Shuffle.Draws) returns (r: Result<nat>, rest: Shuffle.Draws)
    requires min <= max
    ensures if src == [] then r == Err(RngFailed) && rest == []
            else r == Ok(Shuffle.InRange(min, max, src[0])) && rest == src[1..]
  {
    var v;
    v, rest := Shuffle.RandomU64(src);
    if v.Err? {
      return Err(v.error), rest;
    }
    return Ok(Shuffle.InRange(min, max, v.value)), rest;
  }

  /** The size of the next chunk, with a draw exactly if there is a choice. */
  method SampleNext(remaining: nat, min: nat, max: nat, src: Shuffle.Draws)
    returns (r: Result<nat>, rest: Shuffle.Draws, ghost want: nat)
    requires 1 <= min <= max && remaining > 0
    ensures r == Err(RngFailed) <==> remaining > max && src == []
    ensures r.Err? ==> r.error == RngFailed && rest == src
    ensures r.Ok? ==> min <= want <= max && r.value == Next(remaining, min, max, want)
    ensures remaining <= max ==> rest == src
    ensures remaining > max && src != [] ==> want == Shuffle.InRange(min, max, src[0]) && rest == src[1..]
  {
    want := min;
    if remaining <= max {
      return Ok(remaining), src, want;
    }
    var v, rest' := SampleRange(min, max, src);
    if v.Err? {
      return Err(v.error), rest', want;
    }
    want := v.value;
    return Ok(Next(remaining, min, max, v.value)), rest', want;
  }

  /** The sizes are cut by the draws in order: one for each chunk but the last. */
  ghost predicate CutBy(sizes: seq<nat>, wants: seq<nat>, src: Shuffle.Draws, total: nat, min: nat, max: nat)
    requires 1 <= min <= max
  {
    && Cut(sizes, wants, total, min, max) && DrawsUsed(sizes, total) <= |src|
    && forall k :: 0 <= k < DrawsUsed(sizes, total) ==> wants[k] == Shuffle.InRange(min, max, src[k])
  }

  /** How many draws it took to cut `sizes`. */
  function DrawsUsed(sizes: seq<nat>, total: nat): nat {
    if Sum(sizes) < total || sizes == [] then |sizes| else |sizes| - 1
  }

  lemma {:induction false} CutByPush(sizes: seq<nat>, wants: seq<nat>, src: Shuffle.Draws, total: nat,
                                     min: nat, max: nat, want: nat, n: nat)
    requires 1 <= min <= want <= max && CutBy(sizes, wants, src, total, min, max) && Sum(sizes) < total
    requires n == Next(total - Sum(sizes), min, max, want)
    requires total - Sum(sizes) > max ==> |sizes| < |src| && want == Shuffle.InRange(min, max, src[|sizes|])
    ensures CutBy(sizes + [n], wants + [want], src, total, min, max) && Sum(sizes + [n]) == Sum(sizes) + n
    ensures DrawsUsed(sizes + [n], total) == if total - Sum(sizes) > max then |sizes| + 1 else |sizes|
  {
    CutPush(sizes, wants, total, min, max, want, n);
  }

  /** The loop itself; it refuses a range that `with_chunk_range` would have clamped, and fails
      exactly if the source runs out. */
  method SampleChunkSizes(total: nat, min: nat, max: nat, src: Shuffle.Draws)
    returns (r: Result<seq<nat>>, rest: Shuffle.Draws, ghost wants: seq<nat>)
    ensures min == 0 || max < min <==> r == Err(InvalidChunkRange)
    ensures r.Err? && r.error != InvalidChunkRange ==> r.error == RngFailed
    ensures r.Ok? ==>
              && 1 <= min <= max && CutBy(r.value, wants, src, total, min, max) && Sum(r.value) == total
              && rest == src[DrawsUsed(r.value, total)..]
    ensures r == Err(RngFailed) ==> |src| < total
  {
    wants := [];
    if min == 0 || max < min {
      return Err(InvalidChunkRange), src, wants;
    }
    var sizes: seq<nat> := [];
    var remaining := total;
    rest := src;
    while remaining > 0
      invariant CutBy(sizes, wants, src, total, min, max)
      invariant Sum(sizes) + remaining == total && |sizes| <= Sum(sizes)
      invariant |sizes| - 1 <= |src| && rest == src[DrawsUsed(sizes, total)..]
    {
      var size, rest', want := SampleNext(remaining, min, max, rest);
      if size.Err? {
        return Err(size.error), rest', wants;
      }
      CutByPush(sizes, wants, src, total, min, max, want, size.value);
      sizes := sizes + [size.value];
      wants := wants + [want];
      remaining := remaining - size.value;
      rest := rest';
    }
    return Ok(sizes), rest, wants;
  }
}
