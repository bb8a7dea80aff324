/** The stored form of a key: chunks plus a layout map, possibly packed into one
    page-protected region, and the shared views the layered strategy uses. */
module Fragment {
  import opened Core
  import Guarded

  /** `len` bytes at offset `at` of a region. */
  datatype Span = Span(at: nat, len: nat)

  datatype Store =
    | Heap(chunks: seq<bytes>, layout: bytes)
    | Protected(region: bytes, chunkSpans: seq<Span>, layoutSpan: Span)

  predicate Inside(s: Span, region: bytes) {
    s.at + s.len <= |region|
  }

  function Slice(region: bytes, s: Span): bytes
    requires Inside(s, region)
  {
    region[s.at..s.at + s.len]
  }

  /** All of `s` after its first `n` bytes: nothing, if there are fewer. */
  function Drop(s: bytes, n: nat): bytes {
    if n <= |s| then s[n..] else []
  }

  datatype Fragments = Fragments(store: Store, layoutStart: nat, totalLen: nat) {

    predicate Valid() {
      && layoutStart <= USIZE_MAX
      && (store.Protected? ==>
            && (forall i :: 0 <= i < |store.chunkSpans| ==> Inside(store.chunkSpans[i], store.region))
            && Inside(store.layoutSpan, store.region))
      && |WholeLayout()| <= USIZE_MAX
    }

    function WholeLayout(): bytes {
      if store.Heap? then store.layout
      else if Inside(store.layoutSpan, store.region) then Slice(store.region, store.layoutSpan)
      else []
    }

    function Chunks(): (s: seq<bytes>)
      requires Valid()
    {
      if store.Heap? then store.chunks
      else
        seq(|store.chunkSpans|,
            i requires 0 <= i < |store.chunkSpans| && Valid() => Slice(store.region, store.chunkSpans[i]))
    }

    function LayoutBytes(): bytes {
      Drop(WholeLayout(), layoutStart)
    }

    /** Another handle to the same storage that hides `skip` more layout bytes
        (a saturating add). */
    function ViewSkipping(skip: nat): Fragments {
      Fragments(store, Min(layoutStart + skip, USIZE_MAX), totalLen)
    }
  }

  /** `Fragments::from_parts`. */
  function FromParts(chunks: seq<bytes>, layout: bytes, totalLen: nat): (f: Fragments)
    requires |layout| <= USIZE_MAX
    ensures f.Valid() && f.store.Heap?
    ensures f.Chunks() == chunks && f.LayoutBytes() == layout && f.totalLen == totalLen
  {
    Fragments(Heap(chunks, layout), 0, totalLen)
  }

  /** A view of a view shows exactly the layout behind both headers, however
      deep the views are stacked, and shares everything else. */
  lemma ViewLaw(f: Fragments, skip: nat)
    requires f.Valid()
    ensures var v := f.ViewSkipping(skip);
            && v.Valid()
            && v.LayoutBytes() == Drop(f.LayoutBytes(), skip)
            && v.Chunks() == f.Chunks()
            && v.totalLen == f.totalLen
  {
  }

  lemma StackedViews(f: Fragments, outer: nat, inner: nat)
    ensures f.ViewSkipping(outer).ViewSkipping(inner) == f.ViewSkipping(outer + inner)
    ensures f.Valid() ==>
              f.ViewSkipping(outer).ViewSkipping(inner).LayoutBytes() == Drop(f.LayoutBytes(), outer + inner)
  {
  }

  // ----- into_protected -----

  function Flatten(chunks: seq<bytes>): bytes {
    if chunks == [] then [] else chunks[0] + Flatten(chunks[1..])
  }

  lemma {:induction false} FlattenConcat(a: seq<bytes>, b: seq<bytes>)
    ensures Flatten(a + b) == Flatten(a) + Flatten(b)
  {
    if a == [] {
      assert a + b == b;
    } else {
      assert (a + b)[1..] == a[1..] + b;
      FlattenConcat(a[1..], b);
    }
  }

  lemma FlattenPush(chunks: seq<bytes>, c: bytes)
    ensures Flatten(chunks + [c]) == Flatten(chunks) + c
  {
    FlattenConcat(chunks, [c]);
    assert Flatten([c]) == c + Flatten([c][1..]);
  }

  lemma FlattenStep(chunks: seq<bytes>, i: nat)
    requires i < |chunks|
    ensures Flatten(chunks[..i + 1]) == Flatten(chunks[..i]) + chunks[i]
  {
    assert chunks[..i + 1] == chunks[..i] + [chunks[i]];
    FlattenPush(chunks[..i], chunks[i]);
  }

  lemma FlattenSplit(chunks: seq<bytes>, k: nat)
    requires k <= |chunks|
    ensures Flatten(chunks) == Flatten(chunks[..k]) + Flatten(chunks[k..])
  {
    assert chunks == chunks[..k] + chunks[k..];
    FlattenConcat(chunks[..k], chunks[k..]);
  }

  /** What `defragment_into` leaves in the caller's buffer, and what it returns. */
  datatype Into = Into(out: bytes, result: Result<()>)

  /** `dst` with `src` written over it from position `at`. */
  function Overwrite(dst: bytes, at: nat, src: bytes): (r: bytes)
    requires at + |src| <= |dst|
    ensures |r| == |dst|
  {
    dst[..at] + src + dst[at + |src|..]
  }

  /** `dst[at..at + src.len()].copy_from_slice(src)`. */
  method CopyFromSlice(dst: array<byte>, at: nat, src: bytes)
    requires at + |src| <= dst.Length
    modifies dst
    ensures dst[..] == Overwrite(old(dst[..]), at, src)
  {
    for i := 0 to |src|
      invariant dst[..at] == old(dst[..at])
      invariant dst[at..at + i] == src[..i]
      invariant dst[at + i..] == old(dst[at + i..])
    {
      dst[at + i] := src[i];
    }
    assert dst[..] == dst[..at] + dst[at..at + |src|] + dst[at + |src|..];
  }

  lemma OverwritePrefix(dst: bytes, done: bytes, src: bytes)
    requires |done| + |src| <= |dst| && dst[..|done|] == done
    ensures Overwrite(dst, |done|, src)[..|done| + |src|] == done + src
  {
  }

  /** Copy the chunks and the visible layout to the start of a buffer, in order. */
  method Pack(dst: array<byte>, chunks: seq<bytes>, layout: bytes)
    requires |Flatten(chunks)| + |layout| <= dst.Length
    modifies dst
    ensures dst[..|Flatten(chunks)| + |layout|] == Flatten(chunks) + layout
  {
    var at := 0;
    for i := 0 to |chunks|
      invariant at == |Flatten(chunks[..i])| <= |Flatten(chunks)|
      invariant dst[..at] == Flatten(chunks[..i])
    {
      FlattenStep(chunks, i);
      FlattenSplit(chunks, i + 1);
      OverwritePrefix(dst[..], Flatten(chunks[..i]), chunks[i]);
      CopyFromSlice(dst, at, chunks[i]);
      assert dst[..][..at + |chunks[i]|] == dst[..at + |chunks[i]|];
      at := at + |chunks[i]|;
    }
    assert chunks[..|chunks|] == chunks;
    OverwritePrefix(dst[..], Flatten(chunks), layout);
    CopyFromSlice(dst, at, layout);
    assert dst[..][..at + |layout|] == dst[..at + |layout|];
  }

  /** The spans of the packed chunks, one after another. */
  method Spans(chunks: seq<bytes>, region: bytes) returns (spans: seq<Span>, at: nat)
    requires Flatten(chunks) <= region
    ensures |spans| == |chunks| && at == |Flatten(chunks)|
    ensures forall i :: 0 <= i < |chunks| ==> Inside(spans[i], region) && Slice(region, spans[i]) == chunks[i]
  {
    spans, at := [], 0;
    for i := 0 to |chunks|
      invariant |spans| == i && at == |Flatten(chunks[..i])|
      invariant forall k :: 0 <= k < i ==> Inside(spans[k], region) && Slice(region, spans[k]) == chunks[k]
    {
      FlattenStep(chunks, i);
      FlattenSplit(chunks, i + 1);
      assert region[..|Flatten(chunks)|] == Flatten(chunks);
      assert region[at..at + |chunks[i]|] == chunks[i];
      spans := spans + [Span(at, |chunks[i]|)];
      at := at + |chunks[i]|;
    }
    assert chunks[..|chunks|] == chunks;
  }

  /** The region holds the bytes that these protected fragments are slices of. */
  ghost predicate BackedBy(f: Fragments, region: Guarded.GuardedRegion)
    reads region.mem
  {
    f.store.Protected? && region.Sized() && f.store.region == region.Contents()
  }

  /** Why the storage cannot be moved into a protected region, if it cannot: the sizes, the
      mapping, or the final protection change. */
  function ProtectError(f: Fragments, page: nat, os: Guarded.Answers): Option<Error>
    requires f.Valid() && page > 0
  {
    if StorageSize(f) > USIZE_MAX then Some(StorageOverflowed)
    else if Guarded.NextMultiple(Max(StorageSize(f), 1), page) > USIZE_MAX then Some(SizeOverflowed)
    else if !os.mapped then Some(MapFailed)
    else if !os.sealed then Some(ProtectFailed)
    else None
  }

  /** Move the storage into a page-protected region, sealed on return; the fragments mean what
      they did. */
  method IntoProtected(f: Fragments, page: nat, os: Guarded.Answers)
    returns (r: Result<Fragments>, region: Guarded.GuardedRegion?)
    requires f.Valid() && page > 0
    ensures r.Ok? <==> ProtectError(f, page, os).None?
    ensures r.Err? ==> Some(r.error) == ProtectError(f, page, os)
    ensures r.Ok? ==>
              && region != null && fresh(region) && fresh(region.mem)
              && region.State() == Guarded.SEALED && BackedBy(r.value, region)
              && region.locked == (os.lockSurvives && os.locked) && region.noDump == os.noDump
              && r.value.Valid() && r.value.layoutStart == 0
              && r.value.Chunks() == f.Chunks()
              && r.value.LayoutBytes() == f.LayoutBytes()
              && r.value.totalLen == f.totalLen
  {
    region := null;
    var chunks, layout := f.Chunks(), f.LayoutBytes();
    var total := |Flatten(chunks)| + |layout|;
    if total > USIZE_MAX {
      return Err(StorageOverflowed), null;
    }
    var mapped := Guarded.GuardedRegion.New(total, page, os);
    if mapped.Err? {
      return Err(mapped.error), null;
    }
    region := mapped.value;
    var p := FillRegion(f, region.mem, total);
    var sealed := region.Seal(os.sealed);
    if sealed.Err? {
      return Err(sealed.error), null;
    }
    return Ok(p), region;
  }

  /** Pack the storage into a mapping, and slice it out again. */
  method FillRegion(f: Fragments, mem: array<byte>, total: nat) returns (p: Fragments)
    requires f.Valid() && StorageSize(f) == total <= mem.Length
    modifies mem
    ensures p.Valid() && p.layoutStart == 0 && p.store.Protected? && p.store.region == mem[..total]
    ensures p.Chunks() == f.Chunks() && p.LayoutBytes() == f.LayoutBytes() && p.totalLen == f.totalLen
  {
    var chunks, layout := f.Chunks(), f.LayoutBytes();
    Pack(mem, chunks, layout);
    var stored := mem[..total];
    var spans, at := Spans(chunks, stored);
    p := Fragments(Protected(stored, spans, Span(at, |layout|)), 0, f.totalLen);
    assert Slice(stored, Span(at, |layout|)) == layout;
    assert p.Chunks() == chunks;
  }

  /** Bytes needed to pack the storage. */
  function StorageSize(f: Fragments): nat
    requires f.Valid()
  {
    |Flatten(f.Chunks())| + |f.LayoutBytes()|
  }
}
