/** StandardFragmenter: variable-size chunks, optional decoys, one shuffle, and
    a layout that records each chunk's offset. */
module Standard {
  import opened Core
  import opened Fragment
  import ChunkSizes
  import Shuffle

  /** The layout word that marks a decoy. */
  const DECOY: u32 := U32_MAX

  // ----- what a layout means -----

  /** Every real chunk is a piece of the key, at the offset its word records. */
  predicate Pieces(key: bytes, chunks: seq<bytes>, words: seq<u32>) {
    && |words| == |chunks|
    && forall i :: 0 <= i < |chunks| && words[i] != DECOY ==>
         words[i] + |chunks[i]| <= |key| && chunks[i] == key[words[i]..words[i] + |chunks[i]|]
  }

  /** Chunk `i` is real and holds key byte `p`. */
  predicate Holds(chunks: seq<bytes>, words: seq<u32>, i: nat, p: nat) {
    i < |chunks| == |words| && words[i] != DECOY && words[i] <= p < words[i] + |chunks[i]|
  }

  ghost predicate Held(chunks: seq<bytes>, words: seq<u32>, p: nat) {
    exists i: nat :: Holds(chunks, words, i, p)
  }

  /** Total length of the real chunks. */
  function RealLen(chunks: seq<bytes>, words: seq<u32>): nat
    requires |words| == |chunks|
  {
    if chunks == [] then 0
    else (if words[0] == DECOY then 0 else |chunks[0]|) + RealLen(chunks[1..], words[1..])
  }

  /** The chunks and layout hold exactly this key, and nothing twice. */
  ghost predicate Encodes(key: bytes, chunks: seq<bytes>, layout: bytes, total: nat) {
    && 0 < |key| == total < DECOY
    && |layout| == 4 * |chunks|
    && var words := DecodeWords(layout);
       && EncodeWords(words) == layout
       && Pieces(key, chunks, words)
       && (forall p :: 0 <= p < |key| ==> Held(chunks, words, p))
       && RealLen(chunks, words) == |key|
  }

  /** Every real chunk has between 1 and `max` bytes, and at least `min` unless it holds the
      end of the key. */
  predicate Sized(key: bytes, chunks: seq<bytes>, words: seq<u32>, min: nat, max: nat) {
    && |words| == |chunks|
    && forall i :: 0 <= i < |chunks| && words[i] != DECOY ==>
         1 <= |chunks[i]| <= max && (words[i] + |chunks[i]| < |key| ==> min <= |chunks[i]|)
  }

  function DecoyCount(words: seq<u32>): nat {
    if words == [] then 0 else (if words[0] == DECOY then 1 else 0) + DecoyCount(words[1..])
  }

  // ----- nothing is held twice -----

  /** The key positions that the real chunks hold, chunk by chunk. */
  function PositionsHeld(chunks: seq<bytes>, words: seq<u32>): seq<nat>
    requires |words| == |chunks|
  {
    if chunks == [] then []
    else (if words[0] == DECOY then [] else Interval(words[0], |chunks[0]|)) + PositionsHeld(chunks[1..], words[1..])
  }

  /** `from`, `from + 1`, and so on, `n` numbers. */
  function Interval(from: nat, n: nat): (s: seq<nat>)
    ensures |s| == n && forall i :: 0 <= i < n ==> s[i] == from + i
  {
    seq(n, i => from + i)
  }

  lemma {:induction false} PositionsHeldLength(chunks: seq<bytes>, words: seq<u32>)
    requires |words| == |chunks|
    ensures |PositionsHeld(chunks, words)| == RealLen(chunks, words)
  {
    if chunks != [] {
      PositionsHeldLength(chunks[1..], words[1..]);
    }
  }

  lemma {:induction false} HeldIsListed(chunks: seq<bytes>, words: seq<u32>, i: nat, p: nat)
    requires Holds(chunks, words, i, p)
    ensures p in PositionsHeld(chunks, words)
  {
    if i == 0 {
      var head := Interval(words[0], |chunks[0]|);
      assert head[p - words[0]] == p;
      assert p in head;
    } else {
      HeldIsListed(chunks[1..], words[1..], i - 1, p);
    }
  }

  /** If no position is listed twice, no position is held twice. */
  lemma {:induction false} ListedOnceHeldOnce(chunks: seq<bytes>, words: seq<u32>, i: nat, j: nat, p: nat)
    requires i <= j && Holds(chunks, words, i, p) && Holds(chunks, words, j, p)
    requires Distinct(PositionsHeld(chunks, words))
    ensures i == j
  {
    var head := if words[0] == DECOY then [] else Interval(words[0], |chunks[0]|);
    var tail := PositionsHeld(chunks[1..], words[1..]);
    DistinctParts(head, tail);
    if i > 0 {
      ListedOnceHeldOnce(chunks[1..], words[1..], i - 1, j - 1, p);
    } else {
      assert head[p - words[0]] == p;
      if j > 0 {
        HeldIsListed(chunks[1..], words[1..], j - 1, p);
      }
    }
  }

  /** In an encoding every key byte is held by exactly one real chunk. */
  lemma EncodesHoldsEachByteOnce(key: bytes, chunks: seq<bytes>, layout: bytes, total: nat, i: nat, j: nat, p: nat)
    requires Encodes(key, chunks, layout, total)
    requires i <= j && Holds(chunks, DecodeWords(layout), i, p) && Holds(chunks, DecodeWords(layout), j, p)
    ensures i == j
  {
    var words := DecodeWords(layout);
    var listed := PositionsHeld(chunks, words);
    PositionsHeldLength(chunks, words);
    forall q | 0 <= q < |key|
      ensures q in listed
    {
      assert Held(chunks, words, q);
      var n: nat :| Holds(chunks, words, n, q);
      HeldIsListed(chunks, words, n, q);
    }
    CoveringIsDistinct(listed);
    ListedOnceHeldOnce(chunks, words, i, j, p);
  }

  // ----- defragment_into -----

  /** Write the chunks, one layout word each, into `out`. */
  function Scatter(chunks: seq<bytes>, layout: bytes, total: nat, written: nat, out: bytes): (r: Into)
    requires |layout| == 4 * |chunks| && |out| == total
    ensures |r.out| == |out|
  {
    if chunks == [] then
      Into(out, if written == total then Ok(()) else Err(WrongTotal))
    else
      var offset := FromLe(layout);
      var end := offset + |chunks[0]|;
      if offset == DECOY then Scatter(chunks[1..], layout[4..], total, written, out)
      else if end > USIZE_MAX then Into(out, Err(OffsetOverflow))
      else if end > total then Into(out, Err(ChunkPastEnd))
      else Scatter(chunks[1..], layout[4..], total, Min(written + |chunks[0]|, USIZE_MAX),
                   Overwrite(out, offset, chunks[0]))
  }

  function DefragmentInto(f: Fragments, out: bytes): (r: Into)
    requires f.Valid()
    ensures |r.out| == |out|
  {
    if |f.LayoutBytes()| != |f.Chunks()| * 4 then Into(out, Err(LayoutLengthMismatch))
    else if |out| != f.totalLen then Into(out, Err(ScratchSizeMismatch))
    else Scatter(f.Chunks(), f.LayoutBytes(), f.totalLen, 0, out)
  }

  /** One step of `Scatter`, seen from a cursor into the whole layout. */
  lemma {:induction false} ScatterAt(chunks: seq<bytes>, i: nat, layout: bytes, total: nat, written: nat, out: bytes)
    requires i < |chunks| && |layout| == 4 * |chunks| && |out| == total
    ensures Scatter(chunks[i..], layout[i * 4..], total, written, out) ==
            var offset: int := FromLe(layout[i * 4..i * 4 + 4]);
            var end := offset + |chunks[i]|;
            if offset == DECOY then Scatter(chunks[i + 1..], layout[(i + 1) * 4..], total, written, out)
            else if end > USIZE_MAX then Into(out, Err(OffsetOverflow))
            else if end > total then Into(out, Err(ChunkPastEnd))
            else Scatter(chunks[i + 1..], layout[(i + 1) * 4..], total, Min(written + |chunks[i]|, USIZE_MAX),
                         Overwrite(out, offset, chunks[i]))
  {
    var rest := layout[i * 4..];
    assert rest[..4] == layout[i * 4..i * 4 + 4] && FromLe(rest) == FromLe(layout[i * 4..i * 4 + 4]);
    assert chunks[i..][0] == chunks[i] && chunks[i..][1..] == chunks[i + 1..];
    assert rest[4..] == layout[(i + 1) * 4..];
  }

  /** The in-place loop over `out`, with a cursor into the layout. */
  method DefragmentIntoBuffer(f: Fragments, out: array<byte>) returns (r: Result<()>)
    requires f.Valid()
    modifies out
    ensures Into(out[..], r) == DefragmentInto(f, old(out[..]))
  {
    var chunks, layout, total := f.Chunks(), f.LayoutBytes(), f.totalLen;
    if |layout| != |chunks| * 4 {
      return Err(LayoutLengthMismatch);
    }
    if out.Length != total {
      return Err(ScratchSizeMismatch);
    }
    var written: nat := 0;
    var i := 0;
    ghost var goal := DefragmentInto(f, out[..]);
    assert chunks[0..] == chunks && layout[0..] == layout;
    while i < |chunks|
      invariant 0 <= i <= |chunks|
      invariant Scatter(chunks[i..], layout[i * 4..], total, written, out[..]) == goal
    {
      ScatterAt(chunks, i, layout, total, written, out[..]);
      var offset := FromLe(layout[i * 4..i * 4 + 4]);
      if offset != DECOY {
        var end := offset + |chunks[i]|;
        if end > USIZE_MAX {
          return Err(OffsetOverflow);
        }
        if end > total {
          return Err(ChunkPastEnd);
        }
        CopyFromSlice(out, offset, chunks[i]);
        written := Min(written + |chunks[i]|, USIZE_MAX);
      }
      i := i + 1;
    }
    if written != total {
      return Err(WrongTotal);
    }
    return Ok(());
  }

  // ----- round trip -----

  /** Writing pieces of the key can only make `out` agree with it, in any order. */
  lemma {:induction false} ScatterRestores(key: bytes, chunks: seq<bytes>, words: seq<u32>, written: nat, out: bytes)
    requires Pieces(key, chunks, words) && |out| == |key| < DECOY
    requires written + RealLen(chunks, words) == |key|
    ensures var r := Scatter(chunks, EncodeWords(words), |key|, written, out);
            && r.result == Ok(())
            && forall p :: 0 <= p < |key| && (out[p] == key[p] || Held(chunks, words, p)) ==> r.out[p] == key[p]
    decreases |chunks|
  {
    if chunks != [] {
      LeRoundTrip(words[0], EncodeWords(words[1..]));
      var out' := if words[0] == DECOY then out else Overwrite(out, words[0], chunks[0]);
      var written' := if words[0] == DECOY then written else written + |chunks[0]|;
      PiecesTail(key, chunks, words);
      ScatterRestores(key, chunks[1..], words[1..], written', out');
      forall p | 0 <= p < |key| && (out[p] == key[p] || Held(chunks, words, p))
        ensures out'[p] == key[p] || Held(chunks[1..], words[1..], p)
      {
        HeldTail(key, chunks, words, out, p);
      }
    }
  }

  lemma PiecesTail(key: bytes, chunks: seq<bytes>, words: seq<u32>)
    requires Pieces(key, chunks, words) && chunks != []
    ensures Pieces(key, chunks[1..], words[1..])
  {
  }

  lemma HeldTail(key: bytes, chunks: seq<bytes>, words: seq<u32>, out: bytes, p: nat)
    requires Pieces(key, chunks, words) && chunks != [] && p < |key| == |out|
    requires out[p] == key[p] || Held(chunks, words, p)
    ensures Held(chunks[1..], words[1..], p)
         || (if words[0] == DECOY then out else Overwrite(out, words[0], chunks[0]))[p] == key[p]
  {
    if Held(chunks, words, p) {
      var i: nat :| Holds(chunks, words, i, p);
      if i > 0 {
        assert Holds(chunks[1..], words[1..], i - 1, p);
      }
    }
  }

  /** The real chunks lie inside the key. */
  predicate Fits(chunks: seq<bytes>, words: seq<u32>, total: nat) {
    |words| == |chunks| &&
    forall i :: 0 <= i < |chunks| && words[i] != DECOY ==> words[i] + |chunks[i]| <= total
  }

  /** On any input, an encoding or not: reassembly succeeds exactly if every real chunk fits and
      their lengths add up; then every byte is the one the last chunk holding it has for it, and
      the others are as they were. */
  lemma {:induction false} ScatterOkIff(chunks: seq<bytes>, words: seq<u32>, total: nat, written: nat, out: bytes)
    requires |words| == |chunks| && |out| == total <= USIZE_MAX && written + RealLen(chunks, words) <= USIZE_MAX
    ensures var r := Scatter(chunks, EncodeWords(words), total, written, out);
            && (r.result == Ok(()) <==> Fits(chunks, words, total) && written + RealLen(chunks, words) == total)
            && (Fits(chunks, words, total) ==>
                  && (r.result.Err? ==> r.result == Err(WrongTotal))
                  && forall p :: 0 <= p < total ==> r.out[p] == LastHeld(chunks, words, p, out[p]))
    decreases |chunks|
  {
    if chunks != [] {
      LeRoundTrip(words[0], EncodeWords(words[1..]));
      FitsTail(chunks, words, total);
      if words[0] == DECOY {
        ScatterOkIff(chunks[1..], words[1..], total, written, out);
      } else if words[0] + |chunks[0]| <= total {
        ScatterOkIff(chunks[1..], words[1..], total, written + |chunks[0]|, Overwrite(out, words[0], chunks[0]));
      }
    }
  }

  /** Reassembly succeeds exactly on a layout of one word per chunk that fits the buffer. */
  lemma DefragmentOkIff(f: Fragments, out: bytes)
    requires f.Valid() && |out| <= USIZE_MAX
    requires |f.LayoutBytes()| == 4 * |f.Chunks()| ==>
               RealLen(f.Chunks(), DecodeWords(f.LayoutBytes())) <= USIZE_MAX
    ensures DefragmentInto(f, out).result == Ok(()) <==>
            && |f.LayoutBytes()| == 4 * |f.Chunks()| && |out| == f.totalLen
            && var words := DecodeWords(f.LayoutBytes());
               Fits(f.Chunks(), words, |out|) && RealLen(f.Chunks(), words) == |out|
  {
    if |f.LayoutBytes()| == 4 * |f.Chunks()| && |out| == f.totalLen {
      BytesRoundTrip(f.LayoutBytes());
      ScatterOkIff(f.Chunks(), DecodeWords(f.LayoutBytes()), f.totalLen, 0, out);
    }
  }

  lemma FitsTail(chunks: seq<bytes>, words: seq<u32>, total: nat)
    requires |words| == |chunks| && chunks != []
    ensures Fits(chunks, words, total) <==>
            (words[0] == DECOY || words[0] + |chunks[0]| <= total) && Fits(chunks[1..], words[1..], total)
  {
    if Fits(chunks[1..], words[1..], total) {
      assert forall i :: 1 <= i < |chunks| ==> chunks[i] == chunks[1..][i - 1] && words[i] == words[1..][i - 1];
    }
  }

  /** The byte for position `p` in the last real chunk that holds it, or `b` if none does. */
  function LastHeld(chunks: seq<bytes>, words: seq<u32>, p: nat, b: byte): byte
    requires |words| == |chunks|
  {
    if chunks == [] then b
    else
      LastHeld(chunks[1..], words[1..], p,
               if words[0] != DECOY && words[0] <= p < words[0] + |chunks[0]| then chunks[0][p - words[0]] else b)
  }

  /** Anything that encodes `key` is turned back into `key`, whatever was in the buffer. */
  lemma RoundTrip(key: bytes, f: Fragments, out: bytes)
    requires f.Valid() && Encodes(key, f.Chunks(), f.LayoutBytes(), f.totalLen)
    requires |out| == |key|
    ensures DefragmentInto(f, out) == Into(key, Ok(()))
  {
    var words := DecodeWords(f.LayoutBytes());
    ScatterRestores(key, f.Chunks(), words, 0, out);
    assert DefragmentInto(f, out).out == key;
  }

  // ----- fragment -----

  datatype ChunkKind = Real(idx: nat) | Decoy(idx: nat)

  /** A stretch of the key and where it starts. */
  datatype Pair = Pair(offset: u32, data: bytes)

  predicate PieceAt(key: bytes, offset: nat, piece: bytes) {
    offset + |piece| <= |key| && piece == key[offset..offset + |piece|]
  }

  /** The pieces follow each other through the key, with these sizes. */
  predicate CutInto(key: bytes, sizes: seq<nat>, pairs: seq<Pair>) {
    && |pairs| <= |sizes|
    && forall k :: 0 <= k < |pairs| ==>
         && pairs[k].offset == ChunkSizes.Sum(sizes[..k])
         && |pairs[k].data| == sizes[k]
         && PieceAt(key, pairs[k].offset, pairs[k].data)
  }

  /** Steps 1 and 2: cut the key into (offset, piece) pairs. */
  method CutKey(key: bytes, sizes: seq<nat>) returns (pairs: seq<Pair>)
    requires ChunkSizes.Sum(sizes) == |key| < DECOY
    ensures |pairs| == |sizes| && CutInto(key, sizes, pairs)
  {
    pairs := [];
    var offset := 0;
    for i := 0 to |sizes|
      invariant |pairs| == i && CutInto(key, sizes, pairs)
      invariant offset == ChunkSizes.Sum(sizes[..i])
    {
      SumStep(sizes, i);
      var pair := Pair(offset, key[offset..offset + sizes[i]]);
      PushPair(key, sizes, pairs, pair);
      pairs := pairs + [pair];
      offset := offset + sizes[i];
    }
  }

  lemma PushPair(key: bytes, sizes: seq<nat>, pairs: seq<Pair>, pair: Pair)
    requires CutInto(key, sizes, pairs) && |pairs| < |sizes|
    requires pair.offset == ChunkSizes.Sum(sizes[..|pairs|]) && |pair.data| == sizes[|pairs|]
    requires PieceAt(key, pair.offset, pair.data)
    ensures CutInto(key, sizes, pairs + [pair])
  {
  }

  lemma SumStep(s: seq<nat>, i: nat)
    requires i < |s|
    ensures ChunkSizes.Sum(s[..i + 1]) == ChunkSizes.Sum(s[..i]) + s[i] <= ChunkSizes.Sum(s)
  {
    assert s[..i + 1][..i] == s[..i];
    PrefixSum(s, i + 1);
  }

  lemma {:induction false} PrefixSum(s: seq<nat>, k: nat)
    requires k <= |s|
    ensures ChunkSizes.Sum(s[..k]) <= ChunkSizes.Sum(s)
  {
    if k < |s| {
      PrefixSum(s[..|s| - 1], k);
      assert s[..|s| - 1][..k] == s[..k];
    } else {
      assert s[..k] == s;
    }
  }

  /** Which piece a key byte falls into. */
  lemma {:induction false} PieceOf(sizes: seq<nat>, k: nat, p: nat) returns (i: nat)
    requires k <= |sizes| && p < ChunkSizes.Sum(sizes[..k])
    ensures i < k && ChunkSizes.Sum(sizes[..i]) <= p < ChunkSizes.Sum(sizes[..i]) + sizes[i]
  {
    SumStep(sizes, k - 1);
    if ChunkSizes.Sum(sizes[..k - 1]) <= p {
      i := k - 1;
    } else {
      i := PieceOf(sizes, k - 1, p);
    }
  }

  /** Step 3: one decoy per real chunk, each after a draw for its size. The decoy strategy is
      foreign code: `outputs` is what it is going to deliver, of any content and length, after
      which it fails. */
  method MakeDecoys(n: nat, min: nat, max: nat, src: Shuffle.Draws, outputs: seq<bytes>)
    returns (r: Result<seq<bytes>>, rest: Shuffle.Draws)
    requires min <= max
    ensures r == if |src| < n && |src| <= |outputs| then Err(RngFailed)
                 else if |outputs| < n then Err(DecoyFailed)
                 else Ok(outputs[..n])
    ensures r.Ok? ==> rest == src[n..]
  {
    var decoys: seq<bytes> := [];
    rest := src;
    for i := 0 to n
      invariant i <= |src| && i <= |outputs| && decoys == outputs[..i] && rest == src[i..]
    {
      var size, rest' := ChunkSizes.SampleRange(min, max, rest);
      if size.Err? {
        return Err(size.error), rest';
      }
      if i == |outputs| {
        return Err(DecoyFailed), rest';
      }
      decoys := decoys + [outputs[i]];
      rest := rest';
    }
    return Ok(decoys), rest;
  }

  /** Bytes of key that a tag stands for. */
  function Weight(pairs: seq<Pair>, k: ChunkKind): nat {
    if k.Real? && k.idx < |pairs| then |pairs[k.idx].data| else 0
  }

  function WeightIn(pairs: seq<Pair>): ChunkKind -> nat {
    k => Weight(pairs, k)
  }

  /** The unshuffled tags: all real chunks, then all decoys. */
  ghost predicate Tags(order: seq<ChunkKind>, nReal: nat, nDecoy: nat) {
    && |order| == nReal + nDecoy
    && (forall i :: 0 <= i < nReal ==> order[i] == Real(i))
    && (forall i :: nReal <= i < nReal + nDecoy ==> order[i] == Decoy(i - nReal))
  }

  lemma TagWeight(key: bytes, sizes: seq<nat>, pairs: seq<Pair>, order: seq<ChunkKind>, nDecoy: nat, i: nat)
    requires |pairs| == |sizes| && CutInto(key, sizes, pairs)
    requires Tags(order, |pairs|, nDecoy) && i < |order|
    ensures WeightIn(pairs)(order[i]) == if i < |sizes| then sizes[i] else 0
  {
  }

  lemma {:induction false} TagsWeight(key: bytes, sizes: seq<nat>, pairs: seq<Pair>, order: seq<ChunkKind>,
                                      nDecoy: nat, n: nat)
    requires |pairs| == |sizes| && CutInto(key, sizes, pairs)
    requires Tags(order, |pairs|, nDecoy) && n <= |order|
    ensures SumBy(order[..n], WeightIn(pairs)) == ChunkSizes.Sum(sizes[..Min(n, |sizes|)])
  {
    if n > 0 {
      TagsWeight(key, sizes, pairs, order, nDecoy, n - 1);
      assert order[..n] == order[..n - 1] + [order[n - 1]];
      SumByPush(order[..n - 1], order[n - 1], WeightIn(pairs));
      TagWeight(key, sizes, pairs, order, nDecoy, n - 1);
      if n <= |sizes| {
        SumStep(sizes, n - 1);
      }
    }
  }

  /** What the chunk and the layout word for a tag are. */
  function ChunkOf(pairs: seq<Pair>, decoys: seq<bytes>, k: ChunkKind): bytes {
    if k.Real? then (if k.idx < |pairs| then pairs[k.idx].data else [])
    else (if k.idx < |decoys| then decoys[k.idx] else [])
  }

  function WordOf(pairs: seq<Pair>, k: ChunkKind): u32 {
    if k.Real? && k.idx < |pairs| then pairs[k.idx].offset else DECOY
  }

  ghost predicate Indexed(order: seq<ChunkKind>, nReal: nat, nDecoy: nat) {
    forall i :: 0 <= i < |order| ==> if order[i].Real? then order[i].idx < nReal else order[i].idx < nDecoy
  }

  /** The chunks and words are what the tags in `order` stand for. */
  predicate Follows(order: seq<ChunkKind>, pairs: seq<Pair>, decoys: seq<bytes>, chunks: seq<bytes>, words: seq<u32>) {
    && |chunks| == |words| == |order|
    && forall i :: 0 <= i < |order| ==>
         chunks[i] == ChunkOf(pairs, decoys, order[i]) && words[i] == WordOf(pairs, order[i])
  }

  /** A decoy slot is empty exactly if its tag has been seen. */
  predicate SlotsAfter(slots: seq<Option<bytes>>, decoys: seq<bytes>, seen: seq<ChunkKind>) {
    && |slots| == |decoys|
    && forall d :: 0 <= d < |decoys| ==> slots[d] == if Decoy(d) in seen then None else Some(decoys[d])
  }

  /** `decoy_slots[idx].take()`: hand the decoy over and leave the slot empty. */
  method Take(slots: seq<Option<bytes>>, idx: nat, ghost decoys: seq<bytes>, ghost seen: seq<ChunkKind>)
    returns (r: Result<bytes>, slots': seq<Option<bytes>>)
    requires SlotsAfter(slots, decoys, seen) && idx < |decoys|
    ensures r == if Decoy(idx) in seen then Err(DecoySlotTakenTwice) else Ok(decoys[idx])
    ensures SlotsAfter(slots', decoys, seen + [Decoy(idx)])
  {
    if slots[idx].None? {
      return Err(DecoySlotTakenTwice), slots;
    }
    return Ok(slots[idx].value), slots[idx := None];
  }

  /** Step 5: walk the order, moving chunks and layout words out in lockstep.
      Each decoy can be taken once; a second request is the internal error. */
  method Materialize(order: seq<ChunkKind>, pairs: seq<Pair>, decoys: seq<bytes>)
    returns (r: Result<seq<bytes>>, layout: bytes, ghost words: seq<u32>)
    requires Indexed(order, |pairs|, |decoys|)
    ensures r.Err? ==> r.error == DecoySlotTakenTwice && !Distinct(order)
    ensures r.Ok? ==> Follows(order, pairs, decoys, r.value, words) && layout == EncodeWords(words)
  {
    var chunks: seq<bytes> := [];
    layout, words := [], [];
    var slots := seq(|decoys|, i requires 0 <= i < |decoys| => Some(decoys[i]));
    for n := 0 to |order|
      invariant Follows(order[..n], pairs, decoys, chunks, words)
      invariant layout == EncodeWords(words)
      invariant SlotsAfter(slots, decoys, order[..n])
    {
      assert order[..n + 1] == order[..n] + [order[n]];
      var word: u32 := DECOY;
      if order[n].Real? {
        word := pairs[order[n].idx].offset;
        chunks := chunks + [pairs[order[n].idx].data];
      } else {
        var decoy;
        decoy, slots := Take(slots, order[n].idx, decoys, order[..n]);
        if decoy.Err? {
          return Err(decoy.error), layout, words;
        }
        chunks := chunks + [decoy.value];
      }
      EncodeWordsPush(words, word);
      words := words + [word];
      layout := layout + ToLe(word);
    }
    assert order[..|order|] == order;
    return Ok(chunks), layout, words;
  }

  lemma FollowsPieces(key: bytes, sizes: seq<nat>, pairs: seq<Pair>, decoys: seq<bytes>,
                      order: seq<ChunkKind>, chunks: seq<bytes>, words: seq<u32>)
    requires CutInto(key, sizes, pairs) && Follows(order, pairs, decoys, chunks, words)
    ensures Pieces(key, chunks, words)
  {
  }

  lemma {:induction false} FollowsLength(pairs: seq<Pair>, decoys: seq<bytes>,
                                         order: seq<ChunkKind>, chunks: seq<bytes>, words: seq<u32>)
    requires Follows(order, pairs, decoys, chunks, words)
    requires forall i :: 0 <= i < |pairs| ==> pairs[i].offset < DECOY
    ensures RealLen(chunks, words) == SumBy(order, WeightIn(pairs))
    decreases |order|
  {
    if order != [] {
      FollowsLength(pairs, decoys, order[1..], chunks[1..], words[1..]);
    }
  }

  lemma FollowsHeld(key: bytes, sizes: seq<nat>, pairs: seq<Pair>, decoys: seq<bytes>,
                    order: seq<ChunkKind>, chunks: seq<bytes>, words: seq<u32>, p: nat)
    requires |pairs| == |sizes| && CutInto(key, sizes, pairs) && Follows(order, pairs, decoys, chunks, words)
    requires ChunkSizes.Sum(sizes) == |key| < DECOY && p < |key|
    requires forall i :: 0 <= i < |pairs| ==> Real(i) in order
    ensures Held(chunks, words, p)
  {
    assert sizes[..|sizes|] == sizes;
    var i := PieceOf(sizes, |sizes|, p);
    var j :| 0 <= j < |order| && order[j] == Real(i);
    assert Holds(chunks, words, j, p);
  }

  lemma ShuffledLength(key: bytes, sizes: seq<nat>, pairs: seq<Pair>, decoys: seq<bytes>,
                       tags: seq<ChunkKind>, order: seq<ChunkKind>, chunks: seq<bytes>, words: seq<u32>)
    requires |key| < DECOY && ChunkSizes.Sum(sizes) == |key|
    requires |pairs| == |sizes| && CutInto(key, sizes, pairs)
    requires Tags(tags, |pairs|, |decoys|) && multiset(order) == multiset(tags)
    requires Follows(order, pairs, decoys, chunks, words)
    ensures RealLen(chunks, words) == |key|
  {
    FollowsLength(pairs, decoys, order, chunks, words);
    SumByPermutation(order, tags, WeightIn(pairs));
    TagsWeight(key, sizes, pairs, tags, |decoys|, |tags|);
    assert tags[..|tags|] == tags && sizes[..|sizes|] == sizes;
  }

  lemma FollowsSized(key: bytes, sizes: seq<nat>, wants: seq<nat>, min: nat, max: nat, pairs: seq<Pair>,
                     decoys: seq<bytes>, order: seq<ChunkKind>, chunks: seq<bytes>, words: seq<u32>)
    requires 1 <= min <= max && ChunkSizes.Cut(sizes, wants, |key|, min, max) && ChunkSizes.Sum(sizes) == |key| > 0
    requires |pairs| == |sizes| && CutInto(key, sizes, pairs) && Follows(order, pairs, decoys, chunks, words)
    ensures Sized(key, chunks, words, min, max)
  {
    ChunkSizes.SizesInRange(sizes, wants, |key|, min, max);
    forall i | 0 <= i < |chunks| && words[i] != DECOY
      ensures 1 <= |chunks[i]| <= max && (words[i] + |chunks[i]| < |key| ==> min <= |chunks[i]|)
    {
      var k := order[i].idx;
      SumStep(sizes, k);
      if k == |sizes| - 1 {
        assert sizes[..k + 1] == sizes;
      }
    }
  }

  function IsDecoy(): ChunkKind -> nat {
    (k: ChunkKind) => if k.Decoy? then 1 else 0
  }

  lemma {:induction false} FollowsDecoys(pairs: seq<Pair>, decoys: seq<bytes>, order: seq<ChunkKind>,
                                         chunks: seq<bytes>, words: seq<u32>)
    requires Follows(order, pairs, decoys, chunks, words) && Indexed(order, |pairs|, |decoys|)
    requires forall i :: 0 <= i < |pairs| ==> pairs[i].offset < DECOY
    ensures DecoyCount(words) == SumBy(order, IsDecoy())
    decreases |order|
  {
    if order != [] {
      FollowsDecoys(pairs, decoys, order[1..], chunks[1..], words[1..]);
    }
  }

  lemma {:induction false} TagsDecoys(tags: seq<ChunkKind>, nReal: nat, nDecoy: nat, n: nat)
    requires Tags(tags, nReal, nDecoy) && n <= |tags|
    ensures SumBy(tags[..n], IsDecoy()) == if n <= nReal then 0 else n - nReal
  {
    if n > 0 {
      TagsDecoys(tags, nReal, nDecoy, n - 1);
      assert tags[..n] == tags[..n - 1] + [tags[n - 1]];
      SumByPush(tags[..n - 1], tags[n - 1], IsDecoy());
    }
  }

  /** As many decoys come out as were made. */
  lemma ShuffledDecoys(key: bytes, sizes: seq<nat>, pairs: seq<Pair>, decoys: seq<bytes>, tags: seq<ChunkKind>,
                       order: seq<ChunkKind>, chunks: seq<bytes>, words: seq<u32>)
    requires |key| < DECOY && |pairs| == |sizes| && CutInto(key, sizes, pairs)
    requires Tags(tags, |pairs|, |decoys|) && multiset(order) == multiset(tags) && Indexed(order, |pairs|, |decoys|)
    requires Follows(order, pairs, decoys, chunks, words)
    ensures DecoyCount(words) == |decoys| && |words| == |pairs| + |decoys|
  {
    FollowsDecoys(pairs, decoys, order, chunks, words);
    SumByPermutation(order, tags, IsDecoy());
    TagsDecoys(tags, |pairs|, |decoys|, |tags|);
    assert tags[..|tags|] == tags;
    Shuffle.SameLength(order, tags);
  }

  lemma TagsInOrder(tags: seq<ChunkKind>, order: seq<ChunkKind>, nReal: nat, nDecoy: nat, i: nat)
    requires Tags(tags, nReal, nDecoy) && multiset(order) == multiset(tags) && i < nReal
    ensures Real(i) in order
  {
    SameElements(tags, order);
    assert tags[i] == Real(i);
  }

  /** Any rearrangement of the tags encodes the key. */
  lemma ShuffledEncodes(key: bytes, sizes: seq<nat>, pairs: seq<Pair>, decoys: seq<bytes>,
                        tags: seq<ChunkKind>, order: seq<ChunkKind>, chunks: seq<bytes>, words: seq<u32>)
    requires 0 < |key| < DECOY && ChunkSizes.Sum(sizes) == |key|
    requires |pairs| == |sizes| && CutInto(key, sizes, pairs)
    requires Tags(tags, |pairs|, |decoys|) && multiset(order) == multiset(tags)
    requires Follows(order, pairs, decoys, chunks, words)
    ensures Encodes(key, chunks, EncodeWords(words), |key|)
  {
    WordsRoundTrip(words);
    FollowsPieces(key, sizes, pairs, decoys, order, chunks, words);
    ShuffledLength(key, sizes, pairs, decoys, tags, order, chunks, words);
    forall i | 0 <= i < |pairs|
      ensures Real(i) in order
    {
      TagsInOrder(tags, order, |pairs|, |decoys|, i);
    }
    forall p | 0 <= p < |key|
      ensures Held(chunks, words, p)
    {
      FollowsHeld(key, sizes, pairs, decoys, order, chunks, words, p);
    }
  }

  lemma TagsDistinct(tags: seq<ChunkKind>, order: seq<ChunkKind>, nReal: nat, nDecoy: nat)
    requires Tags(tags, nReal, nDecoy) && multiset(order) == multiset(tags)
    ensures Distinct(order) && Indexed(order, nReal, nDecoy)
  {
    DistinctPermutation(tags, order);
    SameElements(tags, order);
    forall i | 0 <= i < |order|
      ensures if order[i].Real? then order[i].idx < nReal else order[i].idx < nDecoy
    {
      assert order[i] in tags;
    }
  }

  /** Step 4: shuffle the tags. */
  method ShuffleTags(nReal: nat, nDecoy: nat, src: Shuffle.Draws)
    returns (r: Result<seq<ChunkKind>>, rest: Shuffle.Draws, ghost tags: seq<ChunkKind>)
    ensures Tags(tags, nReal, nDecoy)
    ensures r == Err(RngFailed) <==> |src| < Shuffle.Needed(nReal + nDecoy)
    ensures r.Err? ==> r.error == RngFailed
    ensures r.Ok? ==> multiset(r.value) == multiset(tags) && rest == src[Shuffle.Needed(nReal + nDecoy)..]
    ensures r.Ok? ==> exists js :: Shuffle.Shuffling(tags, r.value, js, src) && Shuffle.Complete(js, |tags|)
  {
    var order := new ChunkKind[nReal + nDecoy](i requires 0 <= i => if i < nReal then Real(i) else Decoy(i - nReal));
    tags := order[..];
    var shuffled, rest', js := Shuffle.FisherYates(order, src);
    if shuffled.Err? {
      return Err(shuffled.error), rest', tags;
    }
    return Ok(order[..]), rest', tags;
  }

  /** Steps 3 and 4: decoys if configured, and the order of everything. */
  method ArrangeChunks(nReal: nat, min: nat, max: nat, withDecoys: bool, src: Shuffle.Draws, outputs: seq<bytes>)
    returns (r: Result<seq<ChunkKind>>, decoys: seq<bytes>, rest: Shuffle.Draws, ghost tags: seq<ChunkKind>)
    requires min <= max
    ensures r.Ok? ==>
              && decoys == (if withDecoys then outputs[..Min(nReal, |outputs|)] else [])
              && |decoys| == (if withDecoys then nReal else 0)
              && Tags(tags, nReal, |decoys|) && multiset(r.value) == multiset(tags)
    ensures r.Err? ==> r.error in {RngFailed, DecoyFailed}
    ensures r == Err(RngFailed) ==> |src| < 3 * nReal
    ensures r == Err(DecoyFailed) ==> withDecoys && |outputs| < nReal
    ensures r.Ok? ==> Shuffle.LeftOf(rest, src, 3 * nReal)
  {
    decoys, rest, tags := [], src, [];
    if withDecoys {
      var made;
      made, rest := MakeDecoys(nReal, min, max, src, outputs);
      if made.Err? {
        return Err(made.error), decoys, rest, tags;
      }
      decoys := made.value;
    }
    r, rest, tags := ShuffleTags(nReal, |decoys|, rest);
  }

  /** `fragment`, for the range and decoy the fragmenter was configured with. */
  method FragmentKey(key: bytes, min: nat, max: nat, withDecoys: bool, src: Shuffle.Draws, outputs: seq<bytes>)
    returns (r: Result<Fragments>, rest: Shuffle.Draws)
    ensures r.Ok? ==> r.value.Valid() && r.value.store.Heap?
    ensures r.Ok? ==> Encodes(key, r.value.Chunks(), r.value.LayoutBytes(), r.value.totalLen)
    ensures r.Ok? ==> var words := DecodeWords(r.value.LayoutBytes());
                      && Sized(key, r.value.Chunks(), words, min, max)
                      && DecoyCount(words) == if withDecoys then |words| - DecoyCount(words) else 0
    ensures r == Err(EmptyKey) <==> key == []
    ensures r == Err(KeyTooLarge) <==> |key| >= 0xFFFF_FFFF
    ensures r == Err(InvalidChunkRange) <==> 0 < |key| < DECOY && (min == 0 || max < min)
    ensures r.Err? ==> r.error in {EmptyKey, KeyTooLarge, InvalidChunkRange, RngFailed, DecoyFailed}
    // Nothing else can fail but the sources, and only by running out.
    ensures r == Err(RngFailed) ==> |src| < 4 * |key|
    ensures r == Err(DecoyFailed) ==> withDecoys && |outputs| < |key|
    ensures r.Ok? ==> Shuffle.LeftOf(rest, src, 4 * |key|)
  {
    rest := src;
    if key == [] {
      return Err(EmptyKey), rest;
    }
    if |key| >= DECOY {
      return Err(KeyTooLarge), rest;
    }
    var pairs, afterSizes, sizes, wants := CutChunks(key, min, max, src);
    if pairs.Err? {
      return Err(pairs.error), afterSizes;
    }
    var order, decoys, rest', tags := ArrangeChunks(|pairs.value|, min, max, withDecoys, afterSizes, outputs);
    if order.Err? {
      return Err(order.error), rest';
    }
    r := BuildFragments(key, pairs.value, decoys, order.value, sizes, wants, min, max, tags);
    Shuffle.LeftTogether(rest', afterSizes, src, 3 * |key|, |key|);
    rest := rest';
  }

  /** Steps 1 and 2: sizes, and the pieces of the key with these sizes. */
  method CutChunks(key: bytes, min: nat, max: nat, src: Shuffle.Draws)
    returns (r: Result<seq<Pair>>, rest: Shuffle.Draws, ghost sizes: seq<nat>, ghost wants: seq<nat>)
    requires 0 < |key| < DECOY
    ensures r == Err(InvalidChunkRange) <==> min == 0 || max < min
    ensures r.Err? && r.error != InvalidChunkRange ==> r.error == RngFailed && |src| < |key|
    ensures r.Ok? ==>
              && 1 <= min <= max && ChunkSizes.CutBy(sizes, wants, src, |key|, min, max)
              && ChunkSizes.Sum(sizes) == |key| && |r.value| == |sizes| <= |key| && CutInto(key, sizes, r.value)
              && Shuffle.LeftOf(rest, src, |key|)
  {
    var sampled;
    sampled, rest, wants := ChunkSizes.SampleChunkSizes(|key|, min, max, src);
    sizes := [];
    if sampled.Err? {
      return Err(sampled.error), rest, sizes, wants;
    }
    sizes := sampled.value;
    FewSizes(key, sizes, wants, min, max);
    var pairs := CutKey(key, sampled.value);
    r := Ok(pairs);
  }

  /** Steps 5 and 6: materialize in that order, and wrap up. */
  method BuildFragments(key: bytes, pairs: seq<Pair>, decoys: seq<bytes>, order: seq<ChunkKind>, ghost sizes: seq<nat>,
                        ghost wants: seq<nat>, ghost min: nat, ghost max: nat, ghost tags: seq<ChunkKind>)
    returns (r: Result<Fragments>)
    requires 0 < |key| < DECOY && 1 <= min <= max && |decoys| <= |sizes|
    requires ChunkSizes.Cut(sizes, wants, |key|, min, max) && ChunkSizes.Sum(sizes) == |key|
    requires |pairs| == |sizes| && CutInto(key, sizes, pairs)
    requires Tags(tags, |pairs|, |decoys|) && multiset(order) == multiset(tags)
    ensures r.Ok? && r.value.Valid() && r.value.store.Heap?
    ensures Encodes(key, r.value.Chunks(), r.value.LayoutBytes(), r.value.totalLen)
    ensures var words := DecodeWords(r.value.LayoutBytes());
            && Sized(key, r.value.Chunks(), words, min, max)
            && DecoyCount(words) == |decoys| && |words| == |pairs| + |decoys|
  {
    TagsDistinct(tags, order, |pairs|, |decoys|);
    var chunks, layout, words := Materialize(order, pairs, decoys);
    assert chunks.Ok?;
    ShuffledEncodes(key, sizes, pairs, decoys, tags, order, chunks.value, words);
    FollowsSized(key, sizes, wants, min, max, pairs, decoys, order, chunks.value, words);
    ShuffledDecoys(key, sizes, pairs, decoys, tags, order, chunks.value, words);
    WordsRoundTrip(words);
    LayoutFits(key, sizes, wants, min, max, order, tags, |decoys|);
    return Ok(FromParts(chunks.value, layout, |key|));
  }

  lemma FewSizes(key: bytes, sizes: seq<nat>, wants: seq<nat>, min: nat, max: nat)
    requires 1 <= min <= max && ChunkSizes.Cut(sizes, wants, |key|, min, max) && ChunkSizes.Sum(sizes) == |key|
    ensures |sizes| <= |key|
  {
    ChunkSizes.CutBounds(sizes, wants, |key|, min, max);
    ChunkSizes.SumBounds(sizes, 1, max);
  }

  /** There are at most two chunks per key byte, so the layout is far below the address space. */
  lemma LayoutFits(key: bytes, sizes: seq<nat>, wants: seq<nat>, min: nat, max: nat,
                   order: seq<ChunkKind>, tags: seq<ChunkKind>, nDecoy: nat)
    requires 0 < |key| < DECOY && 1 <= min <= max && nDecoy <= |sizes|
    requires ChunkSizes.Cut(sizes, wants, |key|, min, max) && ChunkSizes.Sum(sizes) == |key|
    requires Tags(tags, |sizes|, nDecoy) && multiset(order) == multiset(tags)
    ensures 4 * |order| <= USIZE_MAX
  {
    ChunkSizes.CutBounds(sizes, wants, |key|, min, max);
    ChunkSizes.SumBounds(sizes, 1, max);
    Shuffle.SameLength(order, tags);
  }
}
