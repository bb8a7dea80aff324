/** Vocabulary shared by every component of the vault model: machine integers,
    results and errors, and the little-endian words that layouts are made of. */
module Core {

  type byte = x: int | 0 <= x < 256
  type u32 = x: int | 0 <= x < 0x1_0000_0000
  type u64 = x: int | 0 <= x < 0x1_0000_0000_0000_0000
  type bytes = seq<byte>

  const U32_MAX: nat := 0xFFFF_FFFF
  // `usize` is taken to be 64 bits wide.
  const USIZE_MAX: nat := 0xFFFF_FFFF_FFFF_FFFF
  const TWO_64: nat := 0x1_0000_0000_0000_0000

  datatype Option<+T> = None | Some(value: T)

  /** One constructor per place where the modelled code gives up. */
  datatype Error =
    // Error::Fragment
    | EmptyKey
    | KeyTooLarge
    | InvalidChunkRange
    | PoolTooLarge
    // Error::Defragment
    | LayoutLengthMismatch
    | ScratchSizeMismatch
    | OffsetOverflow
    | ChunkPastEnd
    | WrongTotal
    | LayoutTruncated
    | SizeMismatch
    | PositionOutOfRange
    | TrailingLayout
    | WrongChunkCount
    | PoolSizeMismatch
    | HeaderTruncated
    | StrategyOutOfRange
    // Error::Decoy, Error::Codex
    | DecoyFailed
    | ByteSwappedTwice
    // Error::Internal
    | RngFailed
    | DecoySlotTakenTwice
    | NormalizationUnavailable
    | VerifierUnavailable
    | StorageOverflowed
    // Error::MemoryLock
    | MapFailed
    | ProtectFailed
    | SizeOverflowed
    // policy
    | LockedOut
    | KeyNotFound
    | DuplicateName
    | NoSubStrategies
    | NoMasterKey
    | MasterMismatch
    | RateLimited(retryAfter: nat)
    // raised by user code: a failed custom strategy, a panic
    | CustomFailed
    | Panicked

  datatype Result<+T> = Ok(value: T) | Err(error: Error) {
    predicate IsFailure() {
      Err?
    }

    function PropagateFailure<U>(): Result<U>
      requires Err?
    {
      Err(error)
    }

    function Extract(): T
      requires Ok?
    {
      value
    }
  }

  function Min(a: int, b: int): int {
    if a < b then a else b
  }

  function Max(a: int, b: int): int {
    if a < b then b else a
  }

  /** `n` zero bytes: a fresh `vec![0u8; n]`. */
  function Zeros(n: nat): (s: bytes)
    ensures |s| == n && forall i :: 0 <= i < n ==> s[i] == 0
  {
    seq(n, _ => 0)
  }

  // ----- u32 little-endian words -----

  /** `u32::to_le_bytes`. */
  function ToLe(x: u32): (s: bytes)
    ensures |s| == 4
  {
    [x % 256, (x / 256) % 256, (x / 65536) % 256, x / 16777216]
  }

  /** `u32::from_le_bytes` on the first four bytes. */
  function FromLe(s: bytes): u32
    requires |s| >= 4
  {
    var b0: int, b1: int, b2: int, b3: int := s[0], s[1], s[2], s[3];
    b0 + 256 * b1 + 65536 * b2 + 16777216 * b3
  }

  lemma LeRoundTrip(x: u32, rest: bytes)
    ensures FromLe(ToLe(x) + rest) == x
    ensures (ToLe(x) + rest)[4..] == rest
  {
    var s := ToLe(x) + rest;
    assert s[..4] == ToLe(x);
    assert s[0] == x % 256 && s[1] == (x / 256) % 256 && s[2] == (x / 65536) % 256 && s[3] == x / 16777216;
    assert (x / 256) / 256 == x / 65536;
    assert (x / 65536) / 256 == x / 16777216;
  }

  /** A run of words, first word first. */
  function EncodeWords(ws: seq<u32>): (s: bytes)
    ensures |s| == 4 * |ws|
  {
    if ws == [] then [] else ToLe(ws[0]) + EncodeWords(ws[1..])
  }

  /** Reading a layout back as words. */
  function DecodeWords(s: bytes): (ws: seq<u32>)
    requires |s| % 4 == 0
    ensures 4 * |ws| == |s|
  {
    if s == [] then [] else [FromLe(s)] + DecodeWords(s[4..])
  }

  /** Parsing a layout inverts encoding it. */
  lemma {:induction false} WordsRoundTrip(ws: seq<u32>)
    ensures DecodeWords(EncodeWords(ws)) == ws
  {
    if ws != [] {
      LeRoundTrip(ws[0], EncodeWords(ws[1..]));
      WordsRoundTrip(ws[1..]);
    }
  }

  /** Any bytes, four by four, are words. */
  lemma {:induction false} BytesRoundTrip(s: bytes)
    requires |s| % 4 == 0
    ensures EncodeWords(DecodeWords(s)) == s
  {
    if s != [] {
      BytesRoundTrip(s[4..]);
      LeBack(s);
      assert DecodeWords(s)[1..] == DecodeWords(s[4..]);
    }
  }

  lemma LeBack(s: bytes)
    requires |s| >= 4
    ensures ToLe(FromLe(s)) == s[..4]
  {
    LeRoundTrip(FromLe(s), []);
    SameDigits(s, ToLe(FromLe(s)) + []);
  }

  lemma SameDigits(s: bytes, t: bytes)
    requires |s| >= 4 && |t| >= 4 && FromLe(s) == FromLe(t)
    ensures s[..4] == t[..4]
  {
    var s1: int, s2: int, s3: int := s[1], s[2], s[3];
    var t1: int, t2: int, t3: int := t[1], t[2], t[3];
    LowDigit(s[0], t[0], s1 + 256 * s2 + 65536 * s3, t1 + 256 * t2 + 65536 * t3);
    LowDigit(s1, t1, s2 + 256 * s3, t2 + 256 * t3);
    LowDigit(s2, t2, s3, t3);
  }

  lemma LowDigit(a: byte, b: byte, m: int, n: int)
    requires a + 256 * m == b + 256 * n
    ensures a == b && m == n
  {
  }

  /** The first byte is the lowest. */
  lemma LittleEndian(rest: bytes)
    ensures ToLe(0x0102_0304) == [4, 3, 2, 1] && FromLe([4, 3, 2, 1] + rest) == 0x0102_0304
  {
  }

  lemma {:induction false} EncodeWordsConcat(a: seq<u32>, b: seq<u32>)
    ensures EncodeWords(a + b) == EncodeWords(a) + EncodeWords(b)
  {
    if a == [] {
      assert a + b == b;
    } else {
      assert (a + b)[1..] == a[1..] + b;
      EncodeWordsConcat(a[1..], b);
    }
  }

  lemma EncodeCons(w: u32, ws: seq<u32>, all: seq<u32>, rest: bytes)
    requires |all| > 0 && all[0] == w && all[1..] == ws
    ensures EncodeWords(all) + rest == ToLe(w) + (EncodeWords(ws) + rest)
  {
  }

  lemma EncodeWordsPush(ws: seq<u32>, w: u32)
    ensures EncodeWords(ws + [w]) == EncodeWords(ws) + ToLe(w)
  {
    EncodeWordsConcat(ws, [w]);
    assert EncodeWords([w]) == ToLe(w) + EncodeWords([]);
  }

  // ----- sums over sequences -----

  function SumBy<T>(s: seq<T>, f: T -> nat): nat {
    if s == [] then 0 else f(s[0]) + SumBy(s[1..], f)
  }

  lemma {:induction false} SumByConcat<T>(a: seq<T>, b: seq<T>, f: T -> nat)
    ensures SumBy(a + b, f) == SumBy(a, f) + SumBy(b, f)
  {
    if a == [] {
      assert a + b == b;
    } else {
      assert (a + b)[1..] == a[1..] + b;
      SumByConcat(a[1..], b, f);
    }
  }

  lemma SumByPush<T>(s: seq<T>, x: T, f: T -> nat)
    ensures SumBy(s + [x], f) == SumBy(s, f) + f(x)
  {
    SumByConcat(s, [x], f);
    assert SumBy([x], f) == f(x) + SumBy([x][1..], f);
  }

  /** Taking one element out of a sequence, and what it does to the multiset and to sums. */
  function Without<T>(s: seq<T>, k: nat): seq<T>
    requires k < |s|
  {
    s[..k] + s[k + 1..]
  }

  lemma WithoutMultiset<T>(s: seq<T>, k: nat)
    requires k < |s|
    ensures multiset(s) == multiset{s[k]} + multiset(Without(s, k))
  {
    assert s == s[..k] + [s[k]] + s[k + 1..];
  }

  lemma MultisetCancel<T>(x: T, m: multiset<T>, n: multiset<T>)
    requires multiset{x} + m == multiset{x} + n
    ensures m == n
  {
    assert m == (multiset{x} + m) - multiset{x};
    assert n == (multiset{x} + n) - multiset{x};
  }

  lemma WithoutSum<T>(s: seq<T>, k: nat, f: T -> nat)
    requires k < |s|
    ensures SumBy(s, f) == f(s[k]) + SumBy(Without(s, k), f)
  {
    assert s == s[..k] + s[k..];
    SumByConcat(s[..k], s[k..], f);
    SumByConcat(s[..k], s[k + 1..], f);
    assert s[k..][1..] == s[k + 1..];
  }

  /** A sum does not depend on the order of its terms. */
  lemma {:induction false} SumByPermutation<T>(a: seq<T>, b: seq<T>, f: T -> nat)
    requires multiset(a) == multiset(b)
    ensures SumBy(a, f) == SumBy(b, f)
  {
    if a == [] {
      assert |multiset(b)| == 0;
    } else {
      assert a[0] in multiset(b);
      var k :| 0 <= k < |b| && b[k] == a[0];
      WithoutMultiset(a, 0);
      WithoutMultiset(b, k);
      assert Without(a, 0) == a[1..];
      MultisetCancel(a[0], multiset(a[1..]), multiset(Without(b, k)));
      SumByPermutation(a[1..], Without(b, k), f);
      WithoutSum(b, k, f);
    }
  }

  // ----- sequences without repetition -----

  ghost predicate Distinct<T>(s: seq<T>) {
    forall i, j :: 0 <= i < j < |s| ==> s[i] != s[j]
  }

  lemma {:induction false} DistinctMultiplicity<T>(s: seq<T>, x: T)
    requires Distinct(s)
    ensures multiset(s)[x] <= 1
  {
    if s != [] {
      DistinctMultiplicity(s[1..], x);
      assert s == [s[0]] + s[1..];
      if x == s[0] {
        assert x !in s[1..];
      }
    }
  }

  lemma RepeatedMultiplicity<T>(s: seq<T>, i: nat, j: nat)
    requires i < j < |s| && s[i] == s[j]
    ensures multiset(s)[s[i]] >= 2
  {
    assert s == s[..j] + s[j..];
    assert s[..j][i] == s[i] && s[j..][0] == s[i];
    assert s[i] in multiset(s[..j]) && s[i] in multiset(s[j..]);
  }

  /** Rearranging keeps elements distinct. */
  lemma DistinctPermutation<T>(a: seq<T>, b: seq<T>)
    requires Distinct(a) && multiset(a) == multiset(b)
    ensures Distinct(b)
  {
    forall i, j | 0 <= i < j < |b|
      ensures b[i] != b[j]
    {
      if b[i] == b[j] {
        RepeatedMultiplicity(b, i, j);
        DistinctMultiplicity(a, b[i]);
      }
    }
  }

  lemma SameElements<T>(a: seq<T>, b: seq<T>)
    requires multiset(a) == multiset(b)
    ensures forall x :: x in a <==> x in b
  {
    forall x
      ensures x in a <==> x in b
    {
      assert x in multiset(a) <==> x in multiset(b);
    }
  }

  lemma DistinctParts<T>(a: seq<T>, b: seq<T>)
    requires Distinct(a + b)
    ensures Distinct(a) && Distinct(b) && forall x :: !(x in a && x in b)
  {
    var s := a + b;
    assert forall i :: 0 <= i < |a| ==> s[i] == a[i];
    assert forall i :: 0 <= i < |b| ==> s[|a| + i] == b[i];
  }

  /** The numbers below `n`. */
  function Below(n: nat): (s: set<nat>)
    ensures |s| == n && forall x: nat :: x in s <==> x < n
  {
    if n == 0 then {} else Below(n - 1) + {n - 1}
  }

  function Elements(s: seq<nat>): (e: set<nat>)
    ensures |e| <= |s| && forall x :: x in e <==> x in s
  {
    if s == [] then {} else {s[0]} + Elements(s[1..])
  }

  /** A list that covers as many numbers as it is long repeats none. */
  lemma CoveringIsDistinct(s: seq<nat>)
    requires forall x :: 0 <= x < |s| ==> x in s
    ensures Distinct(s)
  {
    SubsetSize(Below(|s|), Elements(s));
    forall i, j | 0 <= i < j < |s|
      ensures s[i] != s[j]
    {
      RepeatShrinks(s, i, j);
    }
  }

  lemma RepeatShrinks(s: seq<nat>, i: nat, j: nat)
    requires i < j < |s|
    ensures s[i] == s[j] ==> |Elements(s)| < |s|
  {
    if s[i] == s[j] {
      var rest := Without(s, j);
      forall x | x in Elements(s)
        ensures x in Elements(rest)
      {
        var k :| 0 <= k < |s| && s[k] == x;
        assert rest[if k < j then k else if k == j then i else k - 1] == x;
      }
      SubsetSize(Elements(s), Elements(rest));
    }
  }

  lemma SubsetSize(a: set<nat>, b: set<nat>)
    requires a <= b
    ensures |a| <= |b|
  {
    assert b == a + (b - a);
  }

  lemma ProductMonotone(k: nat, x: nat, y: nat)
    ensures x <= y ==> k * x <= k * y
  {
    if x <= y {
      assert k * y == k * x + k * (y - x);
    }
  }

  lemma OneLess(k: nat, x: nat)
    requires k > 0
    ensures k * x == (k - 1) * x + x
  {
  }
}
