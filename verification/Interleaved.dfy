/** InterleavedFragmenter: the key's bytes overlaid on a larger pool of random
    padding, with a layout that maps each key byte to its place in the pool. */
module Interleaved {
  import opened Core
  import opened Fragment
  import RandomPositions
  import Shuffle

  /** Key byte `i` sits in the pool at position `at[i]`. */
  predicate Located(key: bytes, pool: bytes, at: seq<u32>) {
    |at| == |key| && forall i :: 0 <= i < |key| ==> at[i] < |pool| && pool[at[i]] == key[i]
  }

  /** The single chunk is the pool; the layout is its size, then one pool position per key byte. */
  ghost predicate Encodes(key: bytes, chunks: seq<bytes>, layout: bytes, total: nat) {
    && 0 < |key| == total
    && |chunks| == 1
    && |layout| == 4 + 4 * |key|
    && var words := DecodeWords(layout);
       && EncodeWords(words) == layout
       && words[0] == |chunks[0]|
       && Distinct(words[1..])
       && Located(key, chunks[0], words[1..])
  }

  // ----- defragment_into -----

  /** Fill `out` from position `i` on, one layout word per byte. */
  function Collect(pool: bytes, layout: bytes, out: bytes, i: nat): (r: Into)
    requires i <= |out| && |layout| == 4 * (|out| - i)
    ensures |r.out| == |out|
    decreases |out| - i
  {
    if i == |out| then Into(out, Ok(()))
    else
      var pos := FromLe(layout);
      if pos >= |pool| then Into(out, Err(PositionOutOfRange))
      else Collect(pool, layout[4..], out[i := pool[pos]], i + 1)
  }

  function DefragmentInto(f: Fragments, out: bytes): (r: Into)
    requires f.Valid()
    ensures |r.out| == |out|
  {
    var layout := f.LayoutBytes();
    if |f.Chunks()| != 1 then Into(out, Err(WrongChunkCount))
    else if |out| != f.totalLen then Into(out, Err(ScratchSizeMismatch))
    else if |layout| != 4 + f.totalLen * 4 then Into(out, Err(LayoutLengthMismatch))
    else if FromLe(layout) != |f.Chunks()[0]| then Into(out, Err(PoolSizeMismatch))
    else Collect(f.Chunks()[0], layout[4..], out, 0)
  }

  /** One step of `Collect`, seen from a cursor into the whole layout. */
  lemma CollectAt(pool: bytes, layout: bytes, out: bytes, i: nat)
    requires i < |out| && |layout| == 4 + 4 * |out|
    ensures Collect(pool, layout[4 + i * 4..], out, i) ==
            var pos := FromLe(layout[4 + i * 4..4 + (i + 1) * 4]);
            if pos >= |pool| then Into(out, Err(PositionOutOfRange))
            else Collect(pool, layout[4 + (i + 1) * 4..], out[i := pool[pos]], i + 1)
  {
    var rest := layout[4 + i * 4..];
    var head := layout[4 + i * 4..4 + (i + 1) * 4];
    assert rest[0] == head[0] && rest[1] == head[1] && rest[2] == head[2] && rest[3] == head[3];
    assert rest[4..] == layout[4 + (i + 1) * 4..];
  }

  /** The loop that fills `out`. */
  method FillBuffer(pool: bytes, layout: bytes, out: array<byte>) returns (r: Result<()>)
    requires |layout| == 4 + 4 * out.Length
    modifies out
    ensures Into(out[..], r) == Collect(pool, layout[4..], old(out[..]), 0)
  {
    ghost var goal := Collect(pool, layout[4..], out[..], 0);
    var i := 0;
    while i < out.Length
      invariant 0 <= i <= out.Length
      invariant Collect(pool, layout[4 + i * 4..], out[..], i) == goal
    {
      CollectAt(pool, layout, out[..], i);
      var pos := FromLe(layout[4 + i * 4..4 + (i + 1) * 4]);
      if pos >= |pool| {
        return Err(PositionOutOfRange);
      }
      ghost var before := out[..];
      out[i] := pool[pos];
      assert out[..] == before[i := pool[pos]];
      i := i + 1;
    }
    return Ok(());
  }

  method DefragmentIntoBuffer(f: Fragments, out: array<byte>) returns (r: Result<()>)
    requires f.Valid()
    modifies out
    ensures Into(out[..], r) == DefragmentInto(f, old(out[..]))
  {
    var chunks, layout, total := f.Chunks(), f.LayoutBytes(), f.totalLen;
    if |chunks| != 1 {
      return Err(WrongChunkCount);
    }
    if out.Length != total {
      return Err(ScratchSizeMismatch);
    }
    if |layout| != 4 + total * 4 {
      return Err(LayoutLengthMismatch);
    }
    if FromLe(layout) != |chunks[0]| {
      return Err(PoolSizeMismatch);
    }
    r := FillBuffer(chunks[0], layout, out);
  }

  // ----- round trip -----

  lemma {:induction false} CollectRestores(key: bytes, pool: bytes, words: seq<u32>, out: bytes, i: nat)
    requires i <= |key| == |out| && Located(key[i..], pool, words)
    requires out[..i] == key[..i]
    ensures Collect(pool, EncodeWords(words), out, i) == Into(key, Ok(()))
    decreases |words|
  {
    if i < |key| {
      LeRoundTrip(words[0], EncodeWords(words[1..]));
      var out' := out[i := pool[words[0]]];
      assert out'[..i + 1] == out[..i] + [key[i]] == key[..i + 1];
      assert key[i..][0] == key[i] && key[i..][1..] == key[i + 1..];
      assert Located(key[i + 1..], pool, words[1..]);
      CollectRestores(key, pool, words[1..], out', i + 1);
    } else {
      assert out == out[..i] && key == key[..i];
    }
  }

  lemma RoundTrip(key: bytes, f: Fragments, out: bytes)
    requires f.Valid() && Encodes(key, f.Chunks(), f.LayoutBytes(), f.totalLen)
    requires |out| == |key|
    ensures DefragmentInto(f, out) == Into(key, Ok(()))
  {
    var words := DecodeWords(f.LayoutBytes());
    assert f.LayoutBytes() == ToLe(words[0]) + EncodeWords(words[1..]);
    LeRoundTrip(words[0], EncodeWords(words[1..]));
    assert key[0..] == key;
    CollectRestores(key, f.Chunks()[0], words[1..], out, 0);
  }

  // ----- any layout, an encoding or not -----

  /** Collecting succeeds exactly if every position lies in the pool, and fills the rest of the
      buffer from these positions. */
  lemma {:induction false} CollectOkIff(pool: bytes, words: seq<u32>, out: bytes, i: nat)
    requires i <= |out| && |words| == |out| - i
    ensures var r := Collect(pool, EncodeWords(words), out, i);
            && (r.result == Ok(()) <==> forall k :: 0 <= k < |words| ==> words[k] < |pool|)
            && (r.result.Err? ==> r.result == Err(PositionOutOfRange))
            && r.out[..i] == out[..i]
            && (r.result == Ok(()) ==> forall k :: 0 <= k < |words| ==> r.out[i + k] == pool[words[k]])
    decreases |words|
  {
    if words != [] {
      LeRoundTrip(words[0], EncodeWords(words[1..]));
      assert forall k :: 1 <= k < |words| ==> words[k] == words[1..][k - 1];
      if words[0] < |pool| {
        var out' := out[i := pool[words[0]]];
        CollectOkIff(pool, words[1..], out', i + 1);
        var r := Collect(pool, EncodeWords(words), out, i);
        assert r.out[..i + 1] == out'[..i + 1] && out'[..i] == out[..i];
        assert r.out[i] == r.out[..i + 1][i] && r.out[..i] == r.out[..i + 1][..i];
      }
    }
  }

  /** Reassembly succeeds exactly on a single chunk with a layout of its size and one position
      inside it for every byte of the buffer. */
  lemma DefragmentOkIff(f: Fragments, out: bytes)
    requires f.Valid()
    ensures DefragmentInto(f, out).result == Ok(()) <==>
            && |f.Chunks()| == 1 && |out| == f.totalLen && |f.LayoutBytes()| == 4 + 4 * |out|
            && var words := DecodeWords(f.LayoutBytes());
               words[0] == |f.Chunks()[0]| && forall k :: 1 <= k < |words| ==> words[k] < |f.Chunks()[0]|
  {
    var layout := f.LayoutBytes();
    if |f.Chunks()| == 1 && |out| == f.totalLen && |layout| == 4 + 4 * |out| {
      var words := DecodeWords(layout);
      BytesRoundTrip(layout[4..]);
      assert words[1..] == DecodeWords(layout[4..]) && words[0] == FromLe(layout);
      CollectOkIff(f.Chunks()[0], words[1..], out, 0);
      assert forall k :: 1 <= k < |words| ==> words[k] == words[1..][k - 1];
    }
  }

  // ----- fragment -----

  /** Step 2: random padding, then the key's bytes over it. Because the positions are distinct
      no key byte overwrites another. The source delivers one byte per draw. */
  method BuildPool(key: bytes, positions: seq<nat>, size: nat, src: Shuffle.Draws)
    returns (r: Result<bytes>, rest: Shuffle.Draws)
    requires |positions| == |key| && Distinct(positions)
    requires forall i :: 0 <= i < |positions| ==> positions[i] < size
    ensures r == Err(RngFailed) <==> |src| < size
    ensures r.Err? ==> r.error == RngFailed
    ensures r.Ok? ==> |r.value| == size && rest == src[size..]
    ensures r.Ok? ==> forall i :: 0 <= i < |key| ==> r.value[positions[i]] == key[i]
    ensures r.Ok? ==> forall p :: 0 <= p < size && p !in positions ==> r.value[p] == src[p] % 256
  {
    if |src| < size {
      return Err(RngFailed), [];
    }
    var pool := new byte[size](i requires 0 <= i < |src| => src[i] % 256);
    for i := 0 to |key|
      invariant forall j :: 0 <= j < i ==> pool[positions[j]] == key[j]
      invariant forall p :: 0 <= p < size && p !in positions ==> pool[p] == src[p] % 256
    {
      pool[positions[i]] := key[i];
    }
    return Ok(pool[..]), src[size..];
  }

  /** Step 4: the pool size, then the positions. */
  method EncodeLayout(size: u32, positions: seq<u32>) returns (layout: bytes)
    ensures layout == EncodeWords([size] + positions)
  {
    ghost var words := [size];
    assert EncodeWords(words) == ToLe(size) + EncodeWords(words[1..]);
    layout := ToLe(size);
    for i := 0 to |positions|
      invariant words == [size] + positions[..i] && layout == EncodeWords(words)
    {
      EncodeWordsPush(words, positions[i]);
      words := words + [positions[i]];
      layout := layout + ToLe(positions[i]);
    }
    assert positions[..|positions|] == positions;
  }

  /** Step 1: shuffle the whole pool's positions and keep the first `n`. */
  method ChoosePositions(n: nat, size: nat, src: Shuffle.Draws) returns (r: Result<seq<nat>>, rest: Shuffle.Draws)
    requires n <= size
    ensures r == Err(RngFailed) <==> |src| < Shuffle.Needed(size)
    ensures r.Err? ==> r.error == RngFailed
    ensures r.Ok? ==> |r.value| == n && Distinct(r.value) && forall i :: 0 <= i < n ==> r.value[i] < size
    ensures r.Ok? ==> rest == src[Shuffle.Needed(size)..]
    ensures r.Ok? ==> exists all, js ::
              && Shuffle.Shuffling(RandomPositions.Range(size), all, js, src)
              && Shuffle.Complete(js, size) && r.value == all[..n]
  {
    var all;
    all, rest := RandomPositions.ShufflePositions(size, src);
    if all.Err? {
      return all, rest;
    }
    return Ok(all.value[..n]), rest;
  }

  method FragmentKey(key: bytes, factor: nat, src: Shuffle.Draws) returns (r: Result<Fragments>, rest: Shuffle.Draws)
    requires factor >= 2
    ensures r.Ok? ==> r.value.Valid() && r.value.store.Heap?
    ensures r.Ok? ==> Encodes(key, r.value.Chunks(), r.value.LayoutBytes(), r.value.totalLen)
    ensures r.Ok? ==> |r.value.Chunks()[0]| == |key| * factor
    ensures r == Err(EmptyKey) <==> key == []
    ensures r == Err(PoolTooLarge) <==> |key| * factor > U32_MAX
    ensures r.Err? ==> r.error in {EmptyKey, PoolTooLarge, RngFailed}
    ensures r == Err(RngFailed) ==> |src| < 2 * (|key| * factor)
    ensures r.Ok? ==> Shuffle.LeftOf(rest, src, 2 * (|key| * factor))
  {
    rest := src;
    if key == [] {
      return Err(EmptyKey), rest;
    }
    var size := |key| * factor;
    if size > U32_MAX {
      return Err(PoolTooLarge), rest;
    }
    assert |key| <= size;
    var positions, chosen := ChoosePositions(|key|, size, src);
    if positions.Err? {
      return Err(positions.error), chosen;
    }
    var pool, filled := BuildPool(key, positions.value, size, chosen);
    if pool.Err? {
      return Err(pool.error), filled;
    }
    var layout := EncodeLayout(size, positions.value);
    LayoutDescribes(key, pool.value, positions.value);
    return Ok(FromParts([pool.value], layout, |key|)), filled;
  }

  lemma LayoutDescribes(key: bytes, pool: bytes, positions: seq<u32>)
    requires 0 < |key| == |positions| <= |pool| <= U32_MAX && Distinct(positions)
    requires Located(key, pool, positions)
    ensures Encodes(key, [pool], EncodeWords([|pool|] + positions), |key|)
  {
    var words := [|pool|] + positions;
    WordsRoundTrip(words);
    assert words[1..] == positions;
  }
}
