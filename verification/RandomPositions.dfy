/** RandomFragmenter: the key's positions are shuffled and peeled off in groups;
    each chunk holds the bytes at one group's positions, and the layout lists them. */
module RandomPositions {
  import opened Core
  import opened Fragment
  import ChunkSizes
  import Shuffle

  type Group = seq<u32>

  /** `n as u32`. */
  function Truncate32(n: nat): (w: u32)
    ensures n <= U32_MAX ==> w == n
  {
    n % 0x1_0000_0000
  }

  /** One layout entry: the size (truncated to 32 bits) and the positions. */
  function Entry(g: Group): seq<u32> {
    [Truncate32(|g|)] + g
  }

  function EncodeGroups(gs: seq<Group>): bytes {
    if gs == [] then [] else EncodeWords(Entry(gs[0])) + EncodeGroups(gs[1..])
  }

  function Positions(gs: seq<Group>): seq<u32> {
    if gs == [] then [] else gs[0] + Positions(gs[1..])
  }

  /** `0, 1, .., n - 1`. */
  function Range(n: nat): (s: seq<nat>)
    ensures |s| == n && forall i :: 0 <= i < n ==> s[i] == i
  {
    seq(n, i => i)
  }

  /** The chunk holds the key bytes at the group's positions. */
  predicate Picked(key: bytes, g: Group, chunk: bytes) {
    |g| == |chunk| && forall j :: 0 <= j < |g| ==> g[j] < |key| && chunk[j] == key[g[j]]
  }

  predicate AllPicked(key: bytes, gs: seq<Group>, chunks: seq<bytes>) {
    |gs| == |chunks| && forall i :: 0 <= i < |gs| ==> Picked(key, gs[i], chunks[i])
  }

  /** Every position of the key is recorded exactly once, and the layout says where. */
  ghost predicate GroupedAs(key: bytes, gs: seq<Group>, chunks: seq<bytes>, layout: bytes) {
    && AllPicked(key, gs, chunks)
    && layout == EncodeGroups(gs)
    && multiset(Positions(gs)) == multiset(Range(|key|))
  }

  ghost predicate Encodes(key: bytes, chunks: seq<bytes>, layout: bytes, total: nat) {
    0 < |key| == total <= U32_MAX && exists gs :: GroupedAs(key, gs, chunks, layout)
  }

  lemma EncodesRecordsEachPositionOnce(key: bytes, gs: seq<Group>, chunks: seq<bytes>, layout: bytes)
    requires GroupedAs(key, gs, chunks, layout)
    ensures Distinct(Positions(gs)) && forall p :: p in Positions(gs) <==> 0 <= p < |key|
  {
    DistinctPermutation(Range(|key|), Positions(gs));
    SameElements(Range(|key|), Positions(gs));
    forall p | 0 <= p < |key|
      ensures p in Positions(gs)
    {
      assert Range(|key|)[p] == p;
    }
  }

  function Lengths(chunks: seq<bytes>): (s: seq<nat>)
    ensures |s| == |chunks| && forall i :: 0 <= i < |s| ==> s[i] == |chunks[i]|
  {
    seq(|chunks|, i requires 0 <= i < |chunks| => |chunks[i]|)
  }

  /** Chunks have between 1 and `max` bytes, and all but the last at least `min`. */
  predicate Sized(chunks: seq<bytes>, min: nat, max: nat) {
    forall i :: 0 <= i < |chunks| ==> 1 <= |chunks[i]| <= max && (i < |chunks| - 1 ==> min <= |chunks[i]|)
  }

  // ----- defragment_into -----

  /** Put the bytes of one chunk at the positions at the front of the layout. */
  function Place(chunk: bytes, layout: bytes, total: nat, out: bytes): (r: Into)
    requires |layout| >= 4 * |chunk| && |out| == total
    ensures |r.out| == |out|
  {
    if chunk == [] then Into(out, Ok(()))
    else
      var pos := FromLe(layout);
      if pos >= total then Into(out, Err(PositionOutOfRange))
      else Place(chunk[1..], layout[4..], total, out[pos := chunk[0]])
  }

  function Gather(chunks: seq<bytes>, layout: bytes, total: nat, out: bytes): (r: Into)
    requires |out| == total
    ensures |r.out| == |out|
  {
    if chunks == [] then
      Into(out, if layout == [] then Ok(()) else Err(TrailingLayout))
    else if |layout| < 4 then Into(out, Err(LayoutTruncated))
    else
      var size := FromLe(layout);
      if size != |chunks[0]| then Into(out, Err(SizeMismatch))
      else if |layout| < 4 + size * 4 then Into(out, Err(LayoutTruncated))
      else
        var placed := Place(chunks[0], layout[4..], total, out);
        if placed.result.Err? then placed
        else Gather(chunks[1..], layout[4 + size * 4..], total, placed.out)
  }

  function DefragmentInto(f: Fragments, out: bytes): (r: Into)
    requires f.Valid()
    ensures |r.out| == |out|
  {
    if |out| != f.totalLen then Into(out, Err(ScratchSizeMismatch))
    else Gather(f.Chunks(), f.LayoutBytes(), f.totalLen, out)
  }

  /** The inner loop: place one chunk. */
  method PlaceChunk(chunk: bytes, layout: bytes, at: nat, total: nat, out: array<byte>) returns (r: Result<()>)
    requires at + 4 * |chunk| <= |layout| && out.Length == total
    modifies out
    ensures Into(out[..], r) == Place(chunk, layout[at..], total, old(out[..]))
  {
    var i := 0;
    ghost var goal := Place(chunk, layout[at..], total, out[..]);
    assert chunk[0..] == chunk;
    while i < |chunk|
      invariant 0 <= i <= |chunk|
      invariant Place(chunk[i..], layout[at + i * 4..], total, out[..]) == goal
    {
      var pos := FromLe(layout[at + i * 4..at + (i + 1) * 4]);
      ghost var rest := layout[at + i * 4..];
      assert rest[..4] == layout[at + i * 4..at + (i + 1) * 4] && FromLe(rest) == pos;
      assert chunk[i..][0] == chunk[i] && chunk[i..][1..] == chunk[i + 1..];
      assert rest[4..] == layout[at + (i + 1) * 4..];
      if pos >= total {
        return Err(PositionOutOfRange);
      }
      ghost var before := out[..];
      out[pos] := chunk[i];
      assert out[..] == before[pos := chunk[i]];
      i := i + 1;
    }
    return Ok(());
  }

  /** One step of `Gather`, seen from a cursor into the whole layout. */
  lemma GatherAt(chunks: seq<bytes>, k: nat, layout: bytes, cursor: nat, total: nat, out: bytes)
    requires k < |chunks| && cursor <= |layout| && |out| == total
    ensures Gather(chunks[k..], layout[cursor..], total, out) ==
            if cursor + 4 > |layout| then Into(out, Err(LayoutTruncated))
            else
              var size: int := FromLe(layout[cursor..cursor + 4]);
              if size != |chunks[k]| then Into(out, Err(SizeMismatch))
              else if cursor + 4 + size * 4 > |layout| then Into(out, Err(LayoutTruncated))
              else
                var placed := Place(chunks[k], layout[cursor + 4..], total, out);
                if placed.result.Err? then placed
                else Gather(chunks[k + 1..], layout[cursor + 4 + size * 4..], total, placed.out)
  {
    var rest := layout[cursor..];
    assert chunks[k..][0] == chunks[k] && chunks[k..][1..] == chunks[k + 1..];
    if cursor + 4 <= |layout| {
      var head := layout[cursor..cursor + 4];
      assert rest[0] == head[0] && rest[1] == head[1] && rest[2] == head[2] && rest[3] == head[3];
      var size: int := FromLe(head);
      assert rest[4..] == layout[cursor + 4..];
      if cursor + 4 + size * 4 <= |layout| {
        assert rest[4 + size * 4..] == layout[cursor + 4 + size * 4..];
      }
    }
  }

  /** Check and place the chunk whose entry starts at the cursor. */
  method PlaceNext(chunks: seq<bytes>, k: nat, layout: bytes, cursor: nat, total: nat, out: array<byte>)
    returns (r: Result<nat>)
    requires k < |chunks| && cursor <= |layout| && out.Length == total
    modifies out
    ensures r.Err? ==> Gather(chunks[k..], layout[cursor..], total, old(out[..])) == Into(out[..], Err(r.error))
    ensures r.Ok? ==> r.value <= |layout| && Gather(chunks[k..], layout[cursor..], total, old(out[..]))
                                          == Gather(chunks[k + 1..], layout[r.value..], total, out[..])
  {
    GatherAt(chunks, k, layout, cursor, total, out[..]);
    if cursor + 4 > |layout| {
      return Err(LayoutTruncated);
    }
    var size: nat := FromLe(layout[cursor..cursor + 4]);
    if size != |chunks[k]| {
      return Err(SizeMismatch);
    }
    if cursor + 4 + size * 4 > |layout| {
      return Err(LayoutTruncated);
    }
    var placed := PlaceChunk(chunks[k], layout, cursor + 4, total, out);
    if placed.Err? {
      return Err(placed.error);
    }
    return Ok(cursor + 4 + size * 4);
  }

  /** The in-place loop over chunks, with a moving layout cursor. */
  method DefragmentIntoBuffer(f: Fragments, out: array<byte>) returns (r: Result<()>)
    requires f.Valid()
    modifies out
    ensures Into(out[..], r) == DefragmentInto(f, old(out[..]))
  {
    var chunks, layout, total := f.Chunks(), f.LayoutBytes(), f.totalLen;
    if out.Length != total {
      return Err(ScratchSizeMismatch);
    }
    var cursor, k := 0, 0;
    ghost var goal := Gather(chunks, layout, total, out[..]);
    assert chunks[0..] == chunks && layout[0..] == layout;
    while k < |chunks|
      invariant 0 <= k <= |chunks| && 0 <= cursor <= |layout|
      invariant Gather(chunks[k..], layout[cursor..], total, out[..]) == goal
    {
      var next := PlaceNext(chunks, k, layout, cursor, total, out);
      if next.Err? {
        return Err(next.error);
      }
      cursor := next.value;
      k := k + 1;
    }
    if cursor != |layout| {
      return Err(TrailingLayout);
    }
    return Ok(());
  }

  // ----- round trip -----

  lemma {:induction false} PlaceRestores(key: bytes, g: Group, chunk: bytes, rest: bytes, out: bytes)
    requires Picked(key, g, chunk) && |out| == |key|
    ensures var r := Place(chunk, EncodeWords(g) + rest, |key|, out);
            && r.result == Ok(())
            && forall p :: 0 <= p < |key| && (out[p] == key[p] || p in g) ==> r.out[p] == key[p]
    decreases |g|
  {
    if g != [] {
      LeRoundTrip(g[0], EncodeWords(g[1..]) + rest);
      assert EncodeWords(g) + rest == ToLe(g[0]) + (EncodeWords(g[1..]) + rest);
      PlaceRestores(key, g[1..], chunk[1..], rest, out[g[0] := chunk[0]]);
      assert forall p :: p in g ==> p == g[0] || p in g[1..];
    }
  }

  lemma EntryParses(g: Group, rest: bytes)
    requires |g| <= U32_MAX
    ensures var layout := EncodeWords(Entry(g)) + rest;
            && FromLe(layout) == |g|
            && layout[4..] == EncodeWords(g) + rest
            && layout[4 + |g| * 4..] == rest
  {
    assert Entry(g)[0] == |g| && Entry(g)[1..] == g;
    EncodeCons(|g|, g, Entry(g), rest);
    LeRoundTrip(|g|, EncodeWords(g) + rest);
    var body := EncodeWords(g);
    assert (ToLe(|g|) + (body + rest))[4 + |body|..] == rest;
  }

  lemma {:induction false} GatherRestores(key: bytes, gs: seq<Group>, chunks: seq<bytes>, out: bytes)
    requires AllPicked(key, gs, chunks) && |out| == |key| <= U32_MAX
    requires forall i :: 0 <= i < |gs| ==> |gs[i]| <= U32_MAX
    ensures var r := Gather(chunks, EncodeGroups(gs), |key|, out);
            && r.result == Ok(())
            && forall p :: 0 <= p < |key| && (out[p] == key[p] || p in Positions(gs)) ==> r.out[p] == key[p]
    decreases |gs|
  {
    if gs != [] {
      assert Picked(key, gs[0], chunks[0]);
      EntryParses(gs[0], EncodeGroups(gs[1..]));
      PlaceRestores(key, gs[0], chunks[0], EncodeGroups(gs[1..]), out);
      var placed := Place(chunks[0], EncodeWords(gs[0]) + EncodeGroups(gs[1..]), |key|, out);
      GatherRestores(key, gs[1..], chunks[1..], placed.out);
      assert forall p :: p in Positions(gs) ==> p in gs[0] || p in Positions(gs[1..]);
    }
  }

  lemma {:induction false} GroupsSmall(gs: seq<Group>, i: nat)
    requires i < |gs|
    ensures |gs[i]| <= |Positions(gs)|
  {
    if i > 0 {
      GroupsSmall(gs[1..], i - 1);
    }
  }

  lemma RoundTrip(key: bytes, f: Fragments, out: bytes)
    requires f.Valid() && Encodes(key, f.Chunks(), f.LayoutBytes(), f.totalLen)
    requires |out| == |key|
    ensures DefragmentInto(f, out) == Into(key, Ok(()))
  {
    var gs :| GroupedAs(key, gs, f.Chunks(), f.LayoutBytes());
    Shuffle.SameLength(Positions(gs), Range(|key|));
    forall i | 0 <= i < |gs|
      ensures |gs[i]| <= U32_MAX
    {
      GroupsSmall(gs, i);
    }
    GatherRestores(key, gs, f.Chunks(), out);
    EncodesRecordsEachPositionOnce(key, gs, f.Chunks(), f.LayoutBytes());
    assert DefragmentInto(f, out).out == key;
  }

  // ----- any layout, an encoding or not -----

  predicate AllBelow(g: Group, total: nat) {
    forall j :: 0 <= j < |g| ==> g[j] < total
  }

  /** The groups have the chunks' sizes, and only positions inside the key. */
  predicate GroupsFit(gs: seq<Group>, chunks: seq<bytes>, total: nat) {
    |gs| == |chunks| && forall i :: 0 <= i < |gs| ==> |gs[i]| == |chunks[i]| <= U32_MAX && AllBelow(gs[i], total)
  }

  /** The byte that the last mention of position `p` in a group places there, or `b`. */
  function LastPlaced(g: Group, chunk: bytes, p: nat, b: byte): byte
    requires |g| == |chunk|
  {
    if g == [] then b else LastPlaced(g[1..], chunk[1..], p, if g[0] == p then chunk[0] else b)
  }

  function LastGathered(gs: seq<Group>, chunks: seq<bytes>, total: nat, p: nat, b: byte): byte
    requires GroupsFit(gs, chunks, total)
  {
    if gs == [] then b
    else LastGathered(gs[1..], chunks[1..], total, p, LastPlaced(gs[0], chunks[0], p, b))
  }

  lemma {:induction false} PlaceOkIff(chunk: bytes, g: Group, rest: bytes, total: nat, out: bytes)
    requires |g| == |chunk| && |out| == total
    ensures var r := Place(chunk, EncodeWords(g) + rest, total, out);
            && (r.result == Ok(()) <==> AllBelow(g, total))
            && (r.result.Err? ==> r.result == Err(PositionOutOfRange))
            && (AllBelow(g, total) ==> forall p :: 0 <= p < total ==> r.out[p] == LastPlaced(g, chunk, p, out[p]))
    decreases |g|
  {
    if g != [] {
      LeRoundTrip(g[0], EncodeWords(g[1..]) + rest);
      assert EncodeWords(g) + rest == ToLe(g[0]) + (EncodeWords(g[1..]) + rest);
      assert AllBelow(g, total) <==> g[0] < total && AllBelow(g[1..], total) by {
        assert forall j :: 1 <= j < |g| ==> g[j] == g[1..][j - 1];
      }
      if g[0] < total {
        PlaceOkIff(chunk[1..], g[1..], rest, total, out[g[0] := chunk[0]]);
      }
    }
  }

  /** Fitting groups are gathered, byte for byte. */
  lemma {:induction false} GatherFits(gs: seq<Group>, chunks: seq<bytes>, total: nat, out: bytes)
    requires GroupsFit(gs, chunks, total) && |out| == total
    ensures var r := Gather(chunks, EncodeGroups(gs), total, out);
            && r.result == Ok(())
            && forall p :: 0 <= p < total ==> r.out[p] == LastGathered(gs, chunks, total, p, out[p])
    decreases |gs|
  {
    if gs != [] {
      EntryParses(gs[0], EncodeGroups(gs[1..]));
      PlaceOkIff(chunks[0], gs[0], EncodeGroups(gs[1..]), total, out);
      var placed := Place(chunks[0], EncodeWords(gs[0]) + EncodeGroups(gs[1..]), total, out);
      GatherFits(gs[1..], chunks[1..], total, placed.out);
    }
  }

  /** What is gathered was a layout of fitting groups. */
  lemma {:induction false} GatherParses(chunks: seq<bytes>, layout: bytes, total: nat, out: bytes)
    returns (gs: seq<Group>)
    requires |out| == total && Gather(chunks, layout, total, out).result == Ok(())
    ensures GroupsFit(gs, chunks, total) && layout == EncodeGroups(gs)
    decreases |chunks|
  {
    if chunks == [] {
      gs := [];
    } else {
      var g, rest, out' := GatherFirst(chunks, layout, total, out);
      var more := GatherParses(chunks[1..], rest, total, out');
      gs := [g] + more;
    }
  }

  lemma {:induction false} GatherFirst(chunks: seq<bytes>, layout: bytes, total: nat, out: bytes)
    returns (g: Group, rest: bytes, out': bytes)
    requires chunks != [] && |out| == total && Gather(chunks, layout, total, out).result == Ok(())
    ensures |g| == |chunks[0]| <= U32_MAX && AllBelow(g, total) && layout == EncodeWords(Entry(g)) + rest
    ensures |out'| == total && Gather(chunks[1..], rest, total, out').result == Ok(())
  {
    GatherOkUnfolds(chunks, layout, total, out);
    g := FirstGroup(layout, |chunks[0]|);
    rest := layout[4 + |chunks[0]| * 4..];
    PlaceOkIff(chunks[0], g, rest, total, out);
    out' := Place(chunks[0], layout[4..], total, out).out;
  }

  lemma {:induction false} GatherOkUnfolds(chunks: seq<bytes>, layout: bytes, total: nat, out: bytes)
    requires chunks != [] && |out| == total && Gather(chunks, layout, total, out).result == Ok(())
    ensures |layout| >= 4 + |chunks[0]| * 4 && FromLe(layout) == |chunks[0]|
    ensures var placed := Place(chunks[0], layout[4..], total, out);
            && placed.result == Ok(())
            && Gather(chunks[1..], layout[4 + |chunks[0]| * 4..], total, placed.out).result == Ok(())
  {
    PlaceEnds(chunks[0], layout[4..], total, out);
  }

  lemma {:induction false} PlaceEnds(chunk: bytes, layout: bytes, total: nat, out: bytes)
    requires |layout| >= 4 * |chunk| && |out| == total
    ensures var r := Place(chunk, layout, total, out);
            r.result == Ok(()) || r.result == Err(PositionOutOfRange)
    decreases |chunk|
  {
    if chunk != [] && FromLe(layout) < total {
      PlaceEnds(chunk[1..], layout[4..], total, out[FromLe(layout) := chunk[0]]);
    }
  }

  lemma FirstGroup(layout: bytes, size: nat) returns (g: Group)
    requires |layout| >= 4 + size * 4 && FromLe(layout) == size
    ensures |g| == size && layout[4..] == EncodeWords(g) + layout[4 + size * 4..]
    ensures layout == EncodeWords(Entry(g)) + layout[4 + size * 4..]
  {
    var words := layout[4..4 + size * 4];
    g := DecodeWords(words);
    BytesRoundTrip(words);
    LeBack(layout);
    var rest := layout[4 + size * 4..];
    assert Entry(g)[0] == size && Entry(g)[1..] == g;
    EncodeCons(size, g, Entry(g), rest);
    assert layout == layout[..4] + (words + rest);
  }

  /** Reassembly succeeds exactly on the layouts that list, for each chunk in turn, its size and
      as many positions inside the key, and nothing more. */
  lemma GatherOkIff(chunks: seq<bytes>, layout: bytes, total: nat, out: bytes)
    requires |out| == total
    ensures Gather(chunks, layout, total, out).result == Ok(()) <==>
            exists gs :: GroupsFit(gs, chunks, total) && layout == EncodeGroups(gs)
  {
    if Gather(chunks, layout, total, out).result == Ok(()) {
      var gs := GatherParses(chunks, layout, total, out);
    }
    if gs :| GroupsFit(gs, chunks, total) && layout == EncodeGroups(gs) {
      GatherFits(gs, chunks, total, out);
    }
  }

  lemma DefragmentOkIff(f: Fragments, out: bytes)
    requires f.Valid()
    ensures DefragmentInto(f, out).result == Ok(()) <==>
            |out| == f.totalLen && exists gs :: GroupsFit(gs, f.Chunks(), |out|) && f.LayoutBytes() == EncodeGroups(gs)
  {
    if |out| == f.totalLen {
      GatherOkIff(f.Chunks(), f.LayoutBytes(), |out|, out);
    }
  }

  // ----- fragment -----

  lemma {:induction false} EncodeGroupsPush(gs: seq<Group>, g: Group)
    ensures EncodeGroups(gs + [g]) == EncodeGroups(gs) + EncodeWords(Entry(g))
  {
    if gs == [] {
      assert [] + [g] == [g];
      assert EncodeGroups([g]) == EncodeWords(Entry(g)) + EncodeGroups([]);
    } else {
      var entry := EncodeWords(Entry(gs[0]));
      assert (gs + [g])[1..] == gs[1..] + [g];
      EncodeGroupsPush(gs[1..], g);
      assert EncodeGroups(gs + [g]) == entry + EncodeGroups(gs[1..] + [g]);
    }
  }

  lemma {:induction false} PositionsPush(gs: seq<Group>, g: Group)
    ensures Positions(gs + [g]) == Positions(gs) + g
  {
    if gs == [] {
      assert [] + [g] == [g];
    } else {
      assert (gs + [g])[1..] == gs[1..] + [g];
      PositionsPush(gs[1..], g);
    }
  }

  /** Read the chunk for one group of positions. */
  method ReadGroup(key: bytes, g: Group) returns (chunk: bytes)
    requires forall j :: 0 <= j < |g| ==> g[j] < |key|
    ensures Picked(key, g, chunk)
  {
    chunk := [];
    for i := 0 to |g|
      invariant |chunk| == i && forall j :: 0 <= j < i ==> chunk[j] == key[g[j]]
    {
      chunk := chunk + [key[g[i]]];
    }
  }

  /** The layout entry for one group: the size, then each position. */
  method WriteEntry(layout: bytes, g: Group) returns (layout': bytes)
    ensures layout' == layout + EncodeWords(Entry(g))
  {
    ghost var words := [Truncate32(|g|)];
    assert EncodeWords(words) == ToLe(words[0]) + EncodeWords(words[1..]);
    layout' := layout + ToLe(Truncate32(|g|));
    for i := 0 to |g|
      invariant words == Entry(g)[..i + 1]
      invariant layout' == layout + EncodeWords(words)
    {
      EncodeWordsPush(words, g[i]);
      words := words + [g[i]];
      layout' := layout' + ToLe(g[i]);
    }
    assert Entry(g)[..|g| + 1] == Entry(g);
  }

  /** The first `cursor` positions have been peeled off into chunks. */
  ghost predicate PeeledBytes(key: bytes, positions: seq<u32>, cursor: nat,
                              gs: seq<Group>, chunks: seq<bytes>, layout: bytes)
    requires cursor <= |positions|
  {
    && AllPicked(key, gs, chunks) && layout == EncodeGroups(gs) && Positions(gs) == positions[..cursor]
    && |layout| <= 8 * cursor
  }

  /** The chunks are cut from `total` positions by the sizing rule. */
  ghost predicate PeeledSizes(chunks: seq<bytes>, wants: seq<nat>, total: nat, cursor: nat, min: nat, max: nat)
    requires 1 <= min <= max
  {
    ChunkSizes.Cut(Lengths(chunks), wants, total, min, max) && ChunkSizes.Sum(Lengths(chunks)) == cursor
  }

  ghost predicate Peeled(key: bytes, positions: seq<u32>, cursor: nat, min: nat, max: nat,
                         gs: seq<Group>, chunks: seq<bytes>, layout: bytes, wants: seq<nat>)
    requires 1 <= min <= max && cursor <= |positions|
  {
    && PeeledBytes(key, positions, cursor, gs, chunks, layout)
    && PeeledSizes(chunks, wants, |positions|, cursor, min, max)
  }

  lemma PeelSizes(chunks: seq<bytes>, wants: seq<nat>, total: nat, cursor: nat, min: nat, max: nat,
                  want: nat, chunk: bytes)
    requires 1 <= min <= want <= max && cursor < total && PeeledSizes(chunks, wants, total, cursor, min, max)
    requires |chunk| == ChunkSizes.Next(total - cursor, min, max, want)
    ensures PeeledSizes(chunks + [chunk], wants + [want], total, cursor + |chunk|, min, max)
  {
    ChunkSizes.CutPush(Lengths(chunks), wants, total, min, max, want, |chunk|);
    assert Lengths(chunks + [chunk]) == Lengths(chunks) + [|chunk|];
  }

  lemma PeelBytes(key: bytes, positions: seq<u32>, cursor: nat, gs: seq<Group>, chunks: seq<bytes>, layout: bytes,
                  g: Group, chunk: bytes)
    requires 0 < |g| && cursor + |g| <= |positions| && g == positions[cursor..cursor + |g|]
    requires PeeledBytes(key, positions, cursor, gs, chunks, layout) && Picked(key, g, chunk)
    ensures PeeledBytes(key, positions, cursor + |g|, gs + [g], chunks + [chunk], layout + EncodeWords(Entry(g)))
  {
    EncodeGroupsPush(gs, g);
    PositionsPush(gs, g);
    assert positions[..cursor] + g == positions[..cursor + |g|];
  }

  lemma PeelMore(key: bytes, positions: seq<u32>, cursor: nat, next: nat, min: nat, max: nat, gs: seq<Group>,
                 chunks: seq<bytes>, layout: bytes, wants: seq<nat>, want: nat, g: Group, chunk: bytes)
    requires 1 <= min <= want <= max && cursor < next <= |positions|
    requires Peeled(key, positions, cursor, min, max, gs, chunks, layout, wants)
    requires next - cursor == ChunkSizes.Next(|positions| - cursor, min, max, want)
    requires g == positions[cursor..next] && Picked(key, g, chunk)
    ensures Peeled(key, positions, next, min, max,
                   gs + [g], chunks + [chunk], layout + EncodeWords(Entry(g)), wants + [want])
  {
    PeelBytes(key, positions, cursor, gs, chunks, layout, g, chunk);
    PeelSizes(chunks, wants, |positions|, cursor, min, max, want, chunk);
  }

  /** Read one group's chunk and append its layout entry. */
  method EmitGroup(key: bytes, g: Group, chunks: seq<bytes>, layout: bytes)
    returns (chunks': seq<bytes>, layout': bytes, ghost chunk: bytes)
    requires forall j :: 0 <= j < |g| ==> g[j] < |key|
    ensures Picked(key, g, chunk) && chunks' == chunks + [chunk] && layout' == layout + EncodeWords(Entry(g))
  {
    var bytes := ReadGroup(key, g);
    chunk := bytes;
    chunks' := chunks + [bytes];
    layout' := WriteEntry(layout, g);
  }

  /** Step 2: peel groups off the shuffled positions. */
  method PeelGroups(key: bytes, positions: seq<u32>, min: nat, max: nat, src: Shuffle.Draws)
    returns (r: Result<seq<bytes>>, layout: bytes, rest: Shuffle.Draws, ghost gs: seq<Group>, ghost wants: seq<nat>)
    requires 1 <= min <= max
    requires forall i :: 0 <= i < |positions| ==> positions[i] < |key|
    ensures r.Err? ==> r.error == RngFailed && |src| < |positions|
    ensures r.Ok? ==> Peeled(key, positions, |positions|, min, max, gs, r.value, layout, wants)
    ensures r.Ok? ==> Shuffle.LeftOf(rest, src, |positions|)
  {
    var chunks: seq<bytes> := [];
    layout, gs, wants, rest := [], [], [], src;
    var cursor := 0;
    while cursor < |positions|
      invariant 0 <= cursor <= |positions|
      invariant Peeled(key, positions, cursor, min, max, gs, chunks, layout, wants)
      invariant Shuffle.LeftOf(rest, src, cursor)
    {
      var size, rest', want := ChunkSizes.SampleNext(|positions| - cursor, min, max, rest);
      if size.Err? {
        return Err(size.error), layout, rest', gs, wants;
      }
      var next := cursor + size.value;
      var g := positions[cursor..next];
      var chunks', layout', chunk := EmitGroup(key, g, chunks, layout);
      PeelMore(key, positions, cursor, next, min, max, gs, chunks, layout, wants, want, g, chunk);
      Shuffle.LeftTogether(rest', rest, src, 1, cursor);
      chunks, layout, rest, gs, wants, cursor := chunks', layout', rest', gs + [g], wants + [want], next;
    }
    return Ok(chunks), layout, rest, gs, wants;
  }

  /** Step 1: shuffle all positions of the key. */
  method ShufflePositions(n: nat, src: Shuffle.Draws) returns (r: Result<seq<nat>>, rest: Shuffle.Draws)
    ensures r == Err(RngFailed) <==> |src| < Shuffle.Needed(n)
    ensures r.Err? ==> r.error == RngFailed
    ensures r.Ok? ==> multiset(r.value) == multiset(Range(n)) && |r.value| == n && rest == src[Shuffle.Needed(n)..]
    ensures r.Ok? ==> Distinct(r.value) && forall i :: 0 <= i < n ==> r.value[i] < n
    ensures r.Ok? ==> exists js :: Shuffle.Shuffling(Range(n), r.value, js, src) && Shuffle.Complete(js, n)
  {
    var a := new nat[n](i requires 0 <= i => i);
    assert a[..] == Range(n);
    var shuffled, rest', js := Shuffle.FisherYates(a, src);
    if shuffled.Err? {
      return Err(shuffled.error), rest';
    }
    var s := a[..];
    DistinctPermutation(Range(n), s);
    SameElements(Range(n), s);
    assert forall i :: 0 <= i < n ==> s[i] in s;
    return Ok(s), rest';
  }

  method FragmentKey(key: bytes, min: nat, max: nat, src: Shuffle.Draws)
    returns (r: Result<Fragments>, rest: Shuffle.Draws)
    requires 1 <= min <= max
    ensures r.Ok? ==> r.value.Valid() && r.value.store.Heap?
    ensures r.Ok? ==> Encodes(key, r.value.Chunks(), r.value.LayoutBytes(), r.value.totalLen)
    ensures r.Ok? ==> Sized(r.value.Chunks(), min, max)
    ensures r == Err(EmptyKey) <==> key == []
    ensures r == Err(KeyTooLarge) <==> |key| > U32_MAX
    ensures r.Err? ==> r.error in {EmptyKey, KeyTooLarge, RngFailed}
    ensures r == Err(RngFailed) ==> |src| < 2 * |key|
    ensures r.Ok? ==> Shuffle.LeftOf(rest, src, 2 * |key|)
  {
    rest := src;
    if key == [] {
      return Err(EmptyKey), rest;
    }
    if |key| > U32_MAX {
      return Err(KeyTooLarge), rest;
    }
    var positions, shuffled := ShufflePositions(|key|, src);
    if positions.Err? {
      return Err(positions.error), shuffled;
    }
    r, rest := PeelAll(key, positions.value, min, max, shuffled);
    if r.Ok? {
      Shuffle.LeftTogether(rest, shuffled, src, |key|, |key|);
    }
  }

  /** Step 2 for all positions, and the fragments made of it. */
  method PeelAll(key: bytes, positions: seq<u32>, min: nat, max: nat, src: Shuffle.Draws)
    returns (r: Result<Fragments>, rest: Shuffle.Draws)
    requires 1 <= min <= max && 0 < |key| <= U32_MAX && |positions| == |key|
    requires multiset(positions) == multiset(Range(|key|))
    requires forall i :: 0 <= i < |positions| ==> positions[i] < |key|
    ensures r.Err? ==> r.error == RngFailed && |src| < |key|
    ensures r.Ok? ==> r.value.Valid() && r.value.store.Heap? && Sized(r.value.Chunks(), min, max)
    ensures r.Ok? ==> Encodes(key, r.value.Chunks(), r.value.LayoutBytes(), r.value.totalLen)
    ensures r.Ok? ==> Shuffle.LeftOf(rest, src, |key|)
  {
    var chunks, layout, rest', gs, wants := PeelGroups(key, positions, min, max, src);
    rest := rest';
    if chunks.Err? {
      return Err(chunks.error), rest;
    }
    assert positions[..|key|] == positions;
    assert GroupedAs(key, gs, chunks.value, layout);
    ChunkSizes.SizesInRange(Lengths(chunks.value), wants, |key|, min, max);
    return Ok(FromParts(chunks.value, layout, |key|)), rest;
  }
}
