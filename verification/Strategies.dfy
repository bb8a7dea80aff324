/** The strategies behind one interface: the three concrete fragmenters, caller-written
    ones, and LayeredFragmenter, which routes each key to one of its sub-strategies. */
module Strategies {
  import opened Core
  import opened Fragment
  import Interleaved
  import RandomPositions
  import Shuffle
  import Standard

  /** Everything a caller-written strategy can see of `Fragments`. */
  datatype Parts = Parts(chunks: seq<bytes>, layout: bytes, totalLen: nat)

  datatype Strategy =
    | StandardStrategy(min: nat, max: nat, decoys: bool)
    | RandomStrategy(min: nat, max: nat)
    | InterleavedStrategy(factor: nat)
    | Layered(subs: seq<Strategy>)
    | Custom(fragment: (bytes, nat) -> Result<Parts>, defragment: Parts -> Result<bytes>,
             into: Option<(Parts, bytes) -> Into>)

  /** What the constructors guarantee. */
  predicate WellFormed(s: Strategy) {
    match s
    case StandardStrategy(min, max, _) => 1 <= min <= max
    case RandomStrategy(min, max) => 1 <= min <= max
    case InterleavedStrategy(factor) => factor >= 2
    case Layered(subs) => 0 < |subs| <= U32_MAX && forall i :: 0 <= i < |subs| ==> WellFormed(subs[i])
    case Custom(_, _, _) => true
  }

  /** `with_chunk_range`, for either chunking strategy: out-of-range arguments are clamped. */
  function ClampRange(min: nat, max: nat): (r: (nat, nat))
    ensures WellFormed(StandardStrategy(r.0, r.1, true)) && WellFormed(RandomStrategy(r.0, r.1))
    ensures 1 <= min <= max ==> r == (min, max)
  {
    (Max(min, 1), Max(max, Max(min, 1)))
  }

  /** `with_pool_factor`. */
  function ClampFactor(factor: nat): (r: nat)
    ensures WellFormed(InterleavedStrategy(r)) && r >= 2 && (factor >= 2 ==> r == factor)
  {
    Max(factor, 2)
  }

  /** Nothing is asked of a caller's own strategy. */
  lemma CustomIsWellFormed(s: Strategy)
    ensures s.Custom? ==> WellFormed(s)
  {
  }

  /** `LayeredFragmenter::new`. */
  function NewLayered(subs: seq<Strategy>): (r: Result<Strategy>)
    requires forall i :: 0 <= i < |subs| ==> WellFormed(subs[i])
    ensures r.Ok? <==> 0 < |subs| <= U32_MAX
    ensures r.Ok? ==> WellFormed(r.value) && r.value == Layered(subs)
  {
    if subs == [] || |subs| > U32_MAX then Err(NoSubStrategies) else Ok(Layered(subs))
  }

  function PartsOf(f: Fragments): Parts
    requires f.Valid()
  {
    Parts(f.Chunks(), f.LayoutBytes(), f.totalLen)
  }

  /** Calling a caller-written strategy; `seed` stands for the draws it makes. */
  function CustomFragment(s: Strategy, key: bytes, seed: nat): Result<Parts>
    requires s.Custom?
  {
    s.fragment(key, seed)
  }

  function CustomDefragment(s: Strategy, parts: Parts): Result<bytes>
    requires s.Custom?
  {
    s.defragment(parts)
  }

  /** A caller's own `defragment_into`. The slice it is given cannot change its length. */
  function CustomInto(s: Strategy, parts: Parts, out: bytes): (r: Into)
    requires s.Custom? && s.into.Some?
    ensures |r.out| == |out|
  {
    var r := s.into.value(parts, out);
    if |r.out| == |out| then r else Into(out, Err(Panicked))
  }

  // ----- reassembly -----

  /** `defragment_into`. A caller-written strategy may bring its own, or get the default, which
      copies what `defragment` returns and panics if the length is not the buffer's. */
  function DefragmentInto(s: Strategy, f: Fragments, out: bytes): (r: Into)
    requires f.Valid()
    ensures |r.out| == |out|
    decreases s
  {
    match s
    case StandardStrategy(_, _, _) => Standard.DefragmentInto(f, out)
    case RandomStrategy(_, _) => RandomPositions.DefragmentInto(f, out)
    case InterleavedStrategy(_) => Interleaved.DefragmentInto(f, out)
    case Layered(subs) =>
      var layout := f.LayoutBytes();
      if |layout| < 4 then Into(out, Err(HeaderTruncated))
      else
        var pick := FromLe(layout);
        if pick >= |subs| then Into(out, Err(StrategyOutOfRange))
        else
          ViewLaw(f, 4);
          DefragmentInto(subs[pick], f.ViewSkipping(4), out)
    case Custom(_, _, _) =>
      if s.into.Some? then CustomInto(s, PartsOf(f), out)
      else if |out| != f.totalLen then Into(out, Err(ScratchSizeMismatch))
      else match CustomDefragment(s, PartsOf(f))
        case Err(e) => Into(out, Err(e))
        case Ok(raw) => if |raw| != |out| then Into(out, Err(Panicked)) else Into(raw, Ok(()))
  }

  /** `defragment`: a fresh zeroed key, or whatever the caller's own method says. */
  function Defragment(s: Strategy, f: Fragments): Result<bytes>
    requires f.Valid()
  {
    if s.Custom? then CustomDefragment(s, PartsOf(f))
    else
      var r := DefragmentInto(s, f, Zeros(f.totalLen));
      if r.result.Ok? then Ok(r.out) else Err(r.result.error)
  }

  /** The same dispatch over a buffer that is written in place. */
  method DefragmentIntoBuffer(s: Strategy, f: Fragments, out: array<byte>) returns (r: Result<()>)
    requires f.Valid()
    modifies out
    ensures Into(out[..], r) == DefragmentInto(s, f, old(out[..]))
    decreases s
  {
    match s {
      case StandardStrategy(_, _, _) => r := Standard.DefragmentIntoBuffer(f, out);
      case RandomStrategy(_, _) => r := RandomPositions.DefragmentIntoBuffer(f, out);
      case InterleavedStrategy(_) => r := Interleaved.DefragmentIntoBuffer(f, out);
      case Layered(subs) =>
        var layout := f.LayoutBytes();
        if |layout| < 4 {
          return Err(HeaderTruncated);
        }
        var pick := FromLe(layout);
        if pick >= |subs| {
          return Err(StrategyOutOfRange);
        }
        ViewLaw(f, 4);
        r := DefragmentIntoBuffer(subs[pick], f.ViewSkipping(4), out);
      case Custom(_, _, _) =>
        if s.into.Some? {
          var own := CustomInto(s, PartsOf(f), out[..]);
          CopyFromSlice(out, 0, own.out);
          return own.result;
        }
        if out.Length != f.totalLen {
          return Err(ScratchSizeMismatch);
        }
        var raw := CustomDefragment(s, PartsOf(f));
        if raw.Err? {
          return Err(raw.error);
        }
        if |raw.value| != out.Length {
          return Err(Panicked);
        }
        CopyFromSlice(out, 0, raw.value);
        r := Ok(());
    }
  }

  /** Only the chunks, the visible layout and the length matter: in particular packing
      the storage into a protected region changes nothing for any strategy, on any input. */
  lemma {:induction false} SameParts(s: Strategy, f: Fragments, g: Fragments, out: bytes)
    requires f.Valid() && g.Valid() && PartsOf(f) == PartsOf(g)
    ensures DefragmentInto(s, f, out) == DefragmentInto(s, g, out)
    decreases s
  {
    if s.Layered? && |f.LayoutBytes()| >= 4 && FromLe(f.LayoutBytes()) < |s.subs| {
      ViewLaw(f, 4);
      ViewLaw(g, 4);
      SameParts(s.subs[FromLe(f.LayoutBytes())], f.ViewSkipping(4), g.ViewSkipping(4), out);
    }
  }

  // ----- nested headers -----

  /** The strategy that a path of sub-strategy indices leads to. */
  function Leaf(s: Strategy, path: seq<u32>): Option<Strategy>
    decreases |path|
  {
    if path == [] then Some(s)
    else if s.Layered? && path[0] < |s.subs| then Leaf(s.subs[path[0]], path[1..])
    else None
  }

  /** One header routes to one sub-strategy, which does not see it. */
  lemma HeaderRoutes(s: Strategy, pick: u32, f: Fragments, inner: bytes, out: bytes)
    requires f.Valid() && s.Layered? && pick < |s.subs|
    requires f.LayoutBytes() == ToLe(pick) + inner
    ensures var v := f.ViewSkipping(4);
            && v.Valid() && v.LayoutBytes() == inner && v.Chunks() == f.Chunks() && v.totalLen == f.totalLen
            && DefragmentInto(s, f, out) == DefragmentInto(s.subs[pick], v, out)
  {
    LeRoundTrip(pick, inner);
    ViewLaw(f, 4);
  }

  /** Stacked headers route to the leaf, which sees exactly the layout behind all of them. */
  lemma {:induction false} HeadersRoute(s: Strategy, path: seq<u32>, f: Fragments, inner: bytes, out: bytes)
    requires f.Valid() && Leaf(s, path).Some?
    requires f.LayoutBytes() == EncodeWords(path) + inner
    ensures var v := f.ViewSkipping(4 * |path|);
            && v.Valid() && v.LayoutBytes() == inner && v.Chunks() == f.Chunks() && v.totalLen == f.totalLen
            && DefragmentInto(s, f, out) == DefragmentInto(Leaf(s, path).value, v, out)
    decreases |path|
  {
    if path == [] {
      assert f.ViewSkipping(0) == f;
      assert EncodeWords(path) + inner == inner;
    } else {
      var rest := path[1..];
      EncodeCons(path[0], rest, path, inner);
      HeaderRoutes(s, path[0], f, EncodeWords(rest) + inner, out);
      HeadersRoute(s.subs[path[0]], rest, f.ViewSkipping(4), inner, out);
      StackedViews(f, 4, 4 * |rest|);
      assert 4 + 4 * |rest| == 4 * |path|;
    }
  }

  // ----- round trip -----

  /** The chunks and layout are an encoding of `key` by this strategy. */
  ghost predicate Encodes(s: Strategy, key: bytes, chunks: seq<bytes>, layout: bytes, total: nat)
    decreases s
  {
    match s
    case StandardStrategy(_, _, _) => Standard.Encodes(key, chunks, layout, total)
    case RandomStrategy(_, _) => RandomPositions.Encodes(key, chunks, layout, total)
    case InterleavedStrategy(_) => Interleaved.Encodes(key, chunks, layout, total)
    case Layered(subs) =>
      |layout| >= 4 && FromLe(layout) < |subs| && Encodes(subs[FromLe(layout)], key, chunks, layout[4..], total)
    case Custom(_, _, _) => exists seed: nat :: CustomFragment(s, key, seed) == Ok(Parts(chunks, layout, total))
  }

  /** The documented contract of a caller-written strategy, wherever one is nested. */
  ghost predicate CustomsRoundTrip(s: Strategy) {
    match s
    case Layered(subs) => forall i :: 0 <= i < |subs| ==> CustomsRoundTrip(subs[i])
    case Custom(_, _, _) =>
      forall key: bytes, seed: nat :: CustomFragment(s, key, seed).Ok? ==>
        var parts := CustomFragment(s, key, seed).value;
        && parts.totalLen == |key| && CustomDefragment(s, parts) == Ok(key)
        && (s.into.Some? ==> forall out: bytes :: |out| == |key| ==> CustomInto(s, parts, out) == Into(key, Ok(())))
    case _ => true
  }

  /** Round trip for every strategy, by induction on the nesting. */
  lemma {:induction false} RoundTrip(s: Strategy, key: bytes, f: Fragments, out: bytes)
    requires CustomsRoundTrip(s)
    requires f.Valid() && Encodes(s, key, f.Chunks(), f.LayoutBytes(), f.totalLen)
    requires |out| == |key|
    ensures DefragmentInto(s, f, out) == Into(key, Ok(()))
    decreases s
  {
    match s {
      case StandardStrategy(_, _, _) => Standard.RoundTrip(key, f, out);
      case RandomStrategy(_, _) => RandomPositions.RoundTrip(key, f, out);
      case InterleavedStrategy(_) => Interleaved.RoundTrip(key, f, out);
      case Layered(subs) =>
        ViewLaw(f, 4);
        RoundTrip(subs[FromLe(f.LayoutBytes())], key, f.ViewSkipping(4), out);
      case Custom(_, _, _) =>
        var seed: nat :| CustomFragment(s, key, seed) == Ok(PartsOf(f));
    }
  }

  lemma {:induction false} EncodesLength(s: Strategy, key: bytes, chunks: seq<bytes>, layout: bytes, total: nat)
    requires CustomsRoundTrip(s) && Encodes(s, key, chunks, layout, total)
    ensures total == |key|
    decreases s
  {
    match s {
      case Layered(subs) => EncodesLength(subs[FromLe(layout)], key, chunks, layout[4..], total);
      case Custom(_, _, _) =>
        var seed: nat :| CustomFragment(s, key, seed) == Ok(Parts(chunks, layout, total));
      case _ =>
    }
  }

  /** `defragment` rebuilds the key too. */
  lemma DefragmentRoundTrip(s: Strategy, key: bytes, f: Fragments)
    requires CustomsRoundTrip(s)
    requires f.Valid() && Encodes(s, key, f.Chunks(), f.LayoutBytes(), f.totalLen)
    ensures Defragment(s, f) == Ok(key)
  {
    if s.Custom? {
      var seed: nat :| CustomFragment(s, key, seed) == Ok(PartsOf(f));
    } else {
      EncodesLength(s, key, f.Chunks(), f.LayoutBytes(), f.totalLen);
      RoundTrip(s, key, f, Zeros(f.totalLen));
    }
  }

  // ----- fragmentation -----

  /** So many draws are enough for this strategy, for a key of `n` bytes. Nothing is promised
      for a caller's own. */
  ghost predicate Enough(s: Strategy, n: nat, draws: nat) {
    match s
    case StandardStrategy(_, _, _) => draws >= 4 * n
    case RandomStrategy(_, _) => draws >= 2 * n
    case InterleavedStrategy(factor) => draws >= 2 * (n * factor)
    case Layered(subs) => draws >= 1 && forall i :: 0 <= i < |subs| ==> Enough(subs[i], n, draws - 1)
    case Custom(_, _, _) => false
  }

  /** The chunks have the shape the strategy is configured for: their sizes, the number of
      decoys, the size of the pool. */
  ghost predicate Shaped(s: Strategy, key: bytes, chunks: seq<bytes>, layout: bytes)
    decreases s
  {
    match s
    case StandardStrategy(min, max, decoys) =>
      && |layout| == 4 * |chunks|
      && var words := DecodeWords(layout);
         && Standard.Sized(key, chunks, words, min, max)
         && Standard.DecoyCount(words) == if decoys then |words| - Standard.DecoyCount(words) else 0
    case RandomStrategy(min, max) => RandomPositions.Sized(chunks, min, max)
    case InterleavedStrategy(factor) => |chunks| == 1 && |chunks[0]| == |key| * factor
    case Layered(subs) =>
      |layout| >= 4 && FromLe(layout) < |subs| && Shaped(subs[FromLe(layout)], key, chunks, layout[4..])
    case Custom(_, _, _) => true
  }

  /** `fragment`. The layered strategy prefixes its sub-strategy's layout with the index of the
      one it picked and keeps the chunks. `outputs` is what the decoy generator delivers. */
  method FragmentKey(s: Strategy, key: bytes, src: Shuffle.Draws, outputs: seq<bytes>) returns (r: Result<Fragments>)
    requires WellFormed(s)
    ensures r.Ok? ==> r.value.Valid() && r.value.store.Heap?
    ensures r.Ok? ==> Encodes(s, key, r.value.Chunks(), r.value.LayoutBytes(), r.value.totalLen)
    ensures r.Ok? ==> Shaped(s, key, r.value.Chunks(), r.value.LayoutBytes())
    ensures r.Ok? && s.Layered? ==> src != [] && FromLe(r.value.LayoutBytes()) == src[0] % |s.subs|
    ensures Enough(s, |key|, |src|) && |outputs| >= |key| ==>
              r.Ok? || r.error in {EmptyKey, KeyTooLarge, PoolTooLarge, Panicked}
    decreases s
  {
    match s {
      case StandardStrategy(min, max, decoys) =>
        var rest;
        r, rest := Standard.FragmentKey(key, min, max, decoys, src, outputs);
      case RandomStrategy(min, max) =>
        var rest;
        r, rest := RandomPositions.FragmentKey(key, min, max, src);
      case InterleavedStrategy(factor) =>
        var rest;
        r, rest := Interleaved.FragmentKey(key, factor, src);
      case Layered(subs) =>
        var v, rest := Shuffle.RandomU64(src);
        if v.Err? {
          return Err(v.error);
        }
        var pick := v.value % |subs|;
        var sub := FragmentKey(subs[pick], key, rest, outputs);
        if sub.Err? {
          return sub;
        }
        r := Prefix(pick, sub.value);
        if r.Ok? {
          PrefixEncodes(s, key, pick, sub.value, r.value);
        }
      case Custom(_, _, _) => r := FragmentCustom(s, key, src);
    }
  }

  lemma PrefixEncodes(s: Strategy, key: bytes, pick: u32, sub: Fragments, f: Fragments)
    requires s.Layered? && pick < |s.subs| && sub.Valid() && f.Valid()
    requires Encodes(s.subs[pick], key, sub.Chunks(), sub.LayoutBytes(), sub.totalLen)
    requires Shaped(s.subs[pick], key, sub.Chunks(), sub.LayoutBytes())
    requires f.Chunks() == sub.Chunks() && f.totalLen == sub.totalLen
    requires f.LayoutBytes() == ToLe(pick) + sub.LayoutBytes()
    ensures Encodes(s, key, f.Chunks(), f.LayoutBytes(), f.totalLen) && FromLe(f.LayoutBytes()) == pick
    ensures Shaped(s, key, f.Chunks(), f.LayoutBytes())
  {
    LeRoundTrip(pick, sub.LayoutBytes());
  }

  /** A caller's own strategy makes its own draws; the next one stands for them. */
  method FragmentCustom(s: Strategy, key: bytes, src: Shuffle.Draws) returns (r: Result<Fragments>)
    requires s.Custom?
    ensures r.Ok? ==> r.value.Valid() && r.value.store.Heap?
    ensures r.Ok? ==> Encodes(s, key, r.value.Chunks(), r.value.LayoutBytes(), r.value.totalLen)
    ensures if src == [] then r == Err(RngFailed)
            else match CustomFragment(s, key, src[0])
              case Err(e) => r == Err(e)
              case Ok(parts) =>
                if |parts.layout| > USIZE_MAX then r == Err(Panicked) else r.Ok? && PartsOf(r.value) == parts
  {
    var seed, rest := Shuffle.RandomU64(src);
    if seed.Err? {
      return Err(seed.error);
    }
    var parts := CustomFragment(s, key, seed.value);
    if parts.Err? {
      return Err(parts.error);
    }
    if |parts.value.layout| > USIZE_MAX {
      return Err(Panicked);
    }
    return Ok(FromParts(parts.value.chunks, parts.value.layout, parts.value.totalLen));
  }

  /** Put a 4-byte header in front of the layout. A layout that no longer fits in
      memory would abort the process. */
  method Prefix(pick: u32, sub: Fragments) returns (r: Result<Fragments>)
    requires sub.Valid()
    ensures r.Err? ==> r.error == Panicked && 4 + |sub.LayoutBytes()| > USIZE_MAX
    ensures r.Ok? ==>
              && r.value.Valid() && r.value.store.Heap?
              && r.value.Chunks() == sub.Chunks() && r.value.totalLen == sub.totalLen
              && r.value.LayoutBytes() == ToLe(pick) + sub.LayoutBytes()
  {
    var layout := ToLe(pick) + sub.LayoutBytes();
    if |layout| > USIZE_MAX {
      return Err(Panicked);
    }
    return Ok(FromParts(sub.Chunks(), layout, sub.totalLen));
  }
}
