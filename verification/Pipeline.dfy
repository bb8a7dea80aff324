/** From a raw key to stored fragments and back: normalization, codex, fragmentation,
    optional page protection, and the two ways of reading a key. */
module Pipeline {
  import opened Core
  import opened Fragment
  import opened Strategies
  import Guarded
  import Shuffle

  /** The hash functions are arbitrary functions. */
  datatype Normalizer =
    | Off
    | Plain(hash: bytes -> bytes)
    | Keyed(keyedHash: (bytes, bytes) -> bytes, secret: bytes)
    | Unavailable

  /** A byte-wise transformation, as its two methods. */
  datatype Codec = Codec(encode: byte -> byte, decode: byte -> byte)

  datatype Config = Config(normalizer: Normalizer, codex: Option<Codec>, strategy: Strategy, pageProtection: bool)

  function Hash(hash: bytes -> bytes, key: bytes): bytes {
    hash(key)
  }

  function HashKeyed(hash: (bytes, bytes) -> bytes, secret: bytes, key: bytes): bytes {
    hash(secret, key)
  }

  /** What the vault stores for `key`: the key itself, or a hash of it. */
  function Normalize(n: Normalizer, key: bytes): Result<bytes> {
    match n
    case Off => Ok(key)
    case Plain(hash) => Ok(Hash(hash, key))
    case Keyed(keyedHash, secret) =>
      if |secret| == 32 then Ok(HashKeyed(keyedHash, secret, key)) else Err(NormalizationUnavailable)
    case Unavailable => Err(NormalizationUnavailable)
  }

  /** With hashes that show their inputs, what each normalizer stores. */
  lemma NormalizersInUse(key: bytes, secret: bytes)
    ensures Normalize(Off, key) == Ok(key)
    ensures Normalize(Plain(k => [1] + k), key) == Ok([1] + key)
    ensures Normalize(Keyed((s, k) => s + k, secret), key) ==
            if |secret| == 32 then Ok(secret + key) else Err(NormalizationUnavailable)
    ensures Normalize(Unavailable, key) == Err(NormalizationUnavailable)
  {
  }

  function Encode(c: Codec, b: byte): byte {
    c.encode(b)
  }

  function Decode(c: Codec, b: byte): byte {
    c.decode(b)
  }

  function EncodeAll(c: Option<Codec>, s: bytes): (r: bytes)
    ensures |r| == |s|
  {
    if c.None? then s else seq<byte>(|s|, i requires 0 <= i < |s| => Encode(c.value, s[i]))
  }

  function DecodeAll(c: Option<Codec>, s: bytes): (r: bytes)
    ensures |r| == |s|
  {
    if c.None? then s else seq<byte>(|s|, i requires 0 <= i < |s| => Decode(c.value, s[i]))
  }

  // ----- writing -----

  /** `codex_apply`: transform a copy of the key byte by byte. */
  method CodexApply(c: Codec, key: bytes) returns (out: bytes)
    ensures out == EncodeAll(Some(c), key)
  {
    var a := new byte[|key|](i requires 0 <= i < |key| => key[i]);
    for i := 0 to a.Length
      invariant forall j :: 0 <= j < i ==> a[j] == Encode(c, key[j])
      invariant forall j :: i <= j < a.Length ==> a[j] == key[j]
    {
      a[i] := Encode(c, a[i]);
    }
    out := a[..];
  }

  /** `codex_decode_in_place`. A caller's codex may panic at some byte; `done` bytes are decoded
      by then. */
  method CodexDecodeInPlace(c: Codec, a: array<byte>, panicsAt: Option<nat>) returns (done: nat)
    modifies a
    ensures done == if panicsAt.Some? && panicsAt.value < a.Length then panicsAt.value else a.Length
    ensures a[..] == PartlyDecoded(Some(c), old(a[..]), done)
  {
    done := 0;
    while done < a.Length && panicsAt != Some(done)
      invariant done <= a.Length && (panicsAt.Some? ==> done <= panicsAt.value)
      invariant forall j :: 0 <= j < done ==> a[j] == Decode(c, old(a[j]))
      invariant forall j :: done <= j < a.Length ==> a[j] == old(a[j])
    {
      a[done] := Decode(c, a[done]);
      done := done + 1;
    }
  }

  /** The first `done` bytes decoded, the others not yet. */
  function PartlyDecoded(c: Option<Codec>, s: bytes, done: nat): (r: bytes)
    requires done <= |s|
    ensures |r| == |s| && (done == |s| ==> r == DecodeAll(c, s))
  {
    DecodeAll(c, s[..done]) + s[done..]
  }

  /** These fragments hold these bytes, encoded. */
  ghost predicate StoredAs(cfg: Config, plain: bytes, f: Fragments) {
    f.Valid() && Encodes(cfg.strategy, EncodeAll(cfg.codex, plain), f.Chunks(), f.LayoutBytes(), f.totalLen)
  }

  /** These fragments hold `key` as this vault stores it. */
  ghost predicate Stored(cfg: Config, key: bytes, f: Fragments) {
    Normalize(cfg.normalizer, key).Ok? && StoredAs(cfg, Normalize(cfg.normalizer, key).value, f)
  }

  /** And have the shape the strategy is configured for. */
  ghost predicate InShape(cfg: Config, key: bytes, f: Fragments) {
    && f.Valid() && Normalize(cfg.normalizer, key).Ok?
    && Shaped(cfg.strategy, EncodeAll(cfg.codex, Normalize(cfg.normalizer, key).value), f.Chunks(), f.LayoutBytes())
  }

  /** What comes from outside while a key is fragmented: whether the protected normalization
      key can be read, random draws, and the output of the decoy generator. */
  datatype Inputs = Inputs(readable: bool, draws: Shuffle.Draws, outputs: seq<bytes>)

  /** `fragment_pipeline`: each normalizer, then the codex, then the strategy. */
  method FragmentPipeline(cfg: Config, key: bytes, inputs: Inputs) returns (r: Result<Fragments>)
    requires WellFormed(cfg.strategy)
    ensures r.Ok? ==> r.value.Valid() && r.value.store.Heap? && Stored(cfg, key, r.value) && InShape(cfg, key, r.value)
    ensures cfg.normalizer.Off? && r.Ok? ==> StoredAs(cfg, key, r.value)
    ensures cfg.normalizer.Plain? && r.Ok? ==> StoredAs(cfg, Hash(cfg.normalizer.hash, key), r.value)
    ensures cfg.normalizer.Keyed? ==>
              var secret := cfg.normalizer.secret;
              if !inputs.readable then r == Err(ProtectFailed)
              else if |secret| != 32 then r == Err(NormalizationUnavailable)
              else r.Ok? ==> StoredAs(cfg, HashKeyed(cfg.normalizer.keyedHash, secret, key), r.value)
    ensures cfg.normalizer.Unavailable? ==> r == Err(NormalizationUnavailable)
    // Nothing else fails but the strategy.
    ensures r.Err? && Normalize(cfg.normalizer, key).Ok? && (cfg.normalizer.Keyed? ==> inputs.readable) ==>
              var n := |Normalize(cfg.normalizer, key).value|;
              Enough(cfg.strategy, n, |inputs.draws|) && |inputs.outputs| >= n ==>
                r.error in {EmptyKey, KeyTooLarge, PoolTooLarge, Panicked}
  {
    if cfg.normalizer.Keyed? && !inputs.readable {
      return Err(ProtectFailed);
    }
    var working := Normalize(cfg.normalizer, key);
    if working.Err? {
      return Err(working.error);
    }
    var encoded := working.value;
    if cfg.codex.Some? {
      encoded := CodexApply(cfg.codex.value, working.value);
    }
    r := FragmentKey(cfg.strategy, encoded, inputs.draws, inputs.outputs);
  }

  /** `fragment_for_registry`: the pipeline, then page protection if configured. The stored
      fragments are protected exactly if the vault is, by a region sealed on return. */
  method FragmentForRegistry(cfg: Config, key: bytes, inputs: Inputs, page: nat, os: Guarded.Answers)
    returns (r: Result<Fragments>, region: Guarded.GuardedRegion?)
    requires WellFormed(cfg.strategy) && page > 0
    ensures r.Ok? ==> Stored(cfg, key, r.value) && (cfg.pageProtection <==> r.value.store.Protected?)
    ensures r.Ok? ==> InShape(cfg, key, r.value)
    ensures r.Ok? && cfg.pageProtection ==>
              && region != null && fresh(region) && fresh(region.mem)
              && region.State() == Guarded.SEALED && BackedBy(r.value, region)
  {
    region := null;
    r := FragmentPipeline(cfg, key, inputs);
    if r.Ok? && cfg.pageProtection {
      r, region := IntoProtected(r.value, page, os);
    }
  }

  // ----- reading -----

  /** Defragment into `out`, then decode in place. */
  function Reassemble(cfg: Config, f: Fragments, out: bytes): (r: Into)
    requires f.Valid()
    ensures |r.out| == |out|
    ensures r.result.Err? ==> r == DefragmentInto(cfg.strategy, f, out)
  {
    var r := DefragmentInto(cfg.strategy, f, out);
    if r.result.Err? then r else Into(DecodeAll(cfg.codex, r.out), Ok(()))
  }

  /** The region, if there is one, backs these fragments and is in order; registry fragments
      are protected exactly when the vault has page protection on. */
  ghost predicate Readable(cfg: Config, f: Fragments, region: Guarded.GuardedRegion?)
    reads region, if region == null then {} else {region.mem}
  {
    && (f.store.Protected? <==> region != null) && (f.store.Protected? <==> cfg.pageProtection)
    && (region != null ==> BackedBy(f, region) && Guarded.Inv(region.State()))
  }

  /** Defragment with the mapping open: every byte of protected fragments is read from the
      region, while the caller's guard is alive. */
  method DefragmentOpened(cfg: Config, f: Fragments, region: Guarded.GuardedRegion?, ghost guard: nat, out: array<byte>)
    returns (r: Result<()>)
    requires f.Valid() && Readable(cfg, f, region)
    requires region != null ==> guard in region.guards && region.mem != out
    modifies out
    ensures Into(out[..], r) == DefragmentInto(cfg.strategy, f, old(out[..]))
  {
    var opened_ := f;
    if region != null {
      var b := region.Read();
      opened_ := Fragments(Protected(b, f.store.chunkSpans, f.store.layoutSpan), f.layoutStart, f.totalLen);
    }
    r := DefragmentIntoBuffer(cfg.strategy, opened_, out);
  }

  /** What comes from outside while a key is read: whether the operating system opens and closes
      the region, where the codex panics, and whether the callback does. */
  datatype Reading = Reading(open: bool, close: bool, codexPanicsAt: Option<nat>, callbackPanics: bool)

  /** How a reassembly ended: it ran to its end, the region could not be made readable, or the
      codex panicked with this many bytes decoded. */
  datatype Ended = Finished | NotOpened | CodexPanicked(decoded: nat)

  /** Which of these it is. Only the first reader asks for the region to be opened. */
  function EndOf(cfg: Config, f: Fragments, out: bytes, first: bool, reading: Reading): Ended
    requires f.Valid()
  {
    if cfg.pageProtection && first && !reading.open then NotOpened
    else if DefragmentInto(cfg.strategy, f, out).result.Ok? && cfg.codex.Some?
            && reading.codexPanicsAt.Some? && reading.codexPanicsAt.value < |out| then
      CodexPanicked(reading.codexPanicsAt.value)
    else Finished
  }

  /** The same in place, with the protected mapping (if any) open for the defragmentation only.
      `guard` is the caller's own. */
  method ReassembleInto(cfg: Config, f: Fragments, region: Guarded.GuardedRegion?, ghost guard: nat, out: array<byte>,
                        reading: Reading)
    returns (r: Result<()>, ended: Ended)
    requires f.Valid() && Readable(cfg, f, region)
    requires region != null ==> guard !in region.guards && region.mem != out
    modifies out, region
    ensures Readable(cfg, f, region) && (region != null ==> region.guards == old(region.guards))
    ensures ended == EndOf(cfg, f, old(out[..]), region != null && old(region.readers) == 0, reading)
    ensures ended.Finished? ==> Into(out[..], r) == Reassemble(cfg, f, old(out[..]))
    ensures ended.NotOpened? ==> r == Err(ProtectFailed) && out[..] == old(out[..])
    ensures ended.CodexPanicked? ==>
              && r == Err(Panicked)
              && out[..] == PartlyDecoded(cfg.codex, DefragmentInto(cfg.strategy, f, old(out[..])).out, ended.decoded)
  {
    if region != null {
      var granted := region.OpenGuard(guard, reading.open);
      if granted.Err? {
        return Err(ProtectFailed), NotOpened;
      }
    }
    r := DefragmentOpened(cfg, f, region, guard, out);
    if region != null {
      region.DropGuard(guard, reading.close);
    }
    ended := Finished;
    if r.Ok? {
      r := Ok(());
      if cfg.codex.Some? {
        var done := CodexDecodeInPlace(cfg.codex.value, out, reading.codexPanicsAt);
        if done < out.Length {
          return Err(Panicked), CodexPanicked(done);
        }
      }
    }
  }

  /** The one-shot `defragment`: reassemble, then apply `encode` (not `decode`). */
  function OneShotDefragment(cfg: Config, f: Fragments): Result<bytes>
    requires f.Valid()
  {
    var r := Defragment(cfg.strategy, f);
    if r.Ok? then Ok(EncodeAll(cfg.codex, r.value)) else r
  }

  // ----- end to end -----

  ghost predicate DecodeInverts(c: Option<Codec>, s: bytes) {
    c.Some? ==> forall i :: 0 <= i < |s| ==> Decode(c.value, Encode(c.value, s[i])) == s[i]
  }

  ghost predicate EncodeInverts(c: Option<Codec>, s: bytes) {
    c.Some? ==> forall i :: 0 <= i < |s| ==> Encode(c.value, Encode(c.value, s[i])) == s[i]
  }

  lemma DecodeEncodeIff(c: Option<Codec>, s: bytes)
    ensures DecodeAll(c, EncodeAll(c, s)) == s <==> DecodeInverts(c, s)
    ensures EncodeAll(c, EncodeAll(c, s)) == s <==> EncodeInverts(c, s)
  {
    if c.Some? {
      var e := EncodeAll(c, s);
      assert forall i :: 0 <= i < |s| ==> DecodeAll(c, e)[i] == Decode(c.value, Encode(c.value, s[i]));
      assert forall i :: 0 <= i < |s| ==> EncodeAll(c, e)[i] == Encode(c.value, Encode(c.value, s[i]));
    }
  }

  /** Reading a stored key never fails, and yields the normalized key exactly if `decode`
      undoes `encode` on its bytes. */
  lemma StoredReadsBack(cfg: Config, key: bytes, f: Fragments, out: bytes)
    requires CustomsRoundTrip(cfg.strategy) && Stored(cfg, key, f) && |out| == f.totalLen
    ensures Reassemble(cfg, f, out).result == Ok(())
    ensures var normal := Normalize(cfg.normalizer, key).value;
            Reassemble(cfg, f, out).out == normal <==> DecodeInverts(cfg.codex, normal)
  {
    var normal := Normalize(cfg.normalizer, key).value;
    var encoded := EncodeAll(cfg.codex, normal);
    EncodesLength(cfg.strategy, encoded, f.Chunks(), f.LayoutBytes(), f.totalLen);
    RoundTrip(cfg.strategy, encoded, f, out);
    DecodeEncodeIff(cfg.codex, normal);
  }

  /** What a read yields, normalizer by normalizer, with a codex that decodes what it encodes. */
  lemma NormalizedReadsBack(cfg: Config, key: bytes, f: Fragments, out: bytes)
    requires CustomsRoundTrip(cfg.strategy) && Stored(cfg, key, f) && |out| == f.totalLen
    requires forall s: bytes :: DecodeInverts(cfg.codex, s)
    ensures Reassemble(cfg, f, out) ==
            Into(match cfg.normalizer
                 case Off => key
                 case Plain(hash) => Hash(hash, key)
                 case Keyed(keyedHash, secret) => HashKeyed(keyedHash, secret, key)
                 case Unavailable => [], Ok(()))
    ensures !cfg.normalizer.Unavailable? && (cfg.normalizer.Keyed? ==> |cfg.normalizer.secret| == 32)
  {
    StoredReadsBack(cfg, key, f, out);
  }

  /** The one-shot path gives the normalized key back exactly if `encode` undoes itself. */
  lemma OneShotReadsBack(cfg: Config, key: bytes, f: Fragments)
    requires CustomsRoundTrip(cfg.strategy) && Stored(cfg, key, f)
    ensures OneShotDefragment(cfg, f).Ok?
    ensures var normal := Normalize(cfg.normalizer, key).value;
            OneShotDefragment(cfg, f) == Ok(normal) <==> EncodeInverts(cfg.codex, normal)
  {
    var normal := Normalize(cfg.normalizer, key).value;
    DefragmentRoundTrip(cfg.strategy, EncodeAll(cfg.codex, normal), f);
    DecodeEncodeIff(cfg.codex, normal);
  }

  function Up(b: byte): byte {
    if b == 255 then 0 else b + 1
  }

  function Down(b: byte): byte {
    if b == 0 then 255 else b - 1
  }

  /** A codec that adds one and subtracts one honours `decode(encode(b)) == b`, which the
      documentation calls equivalent to being its own inverse. */
  const SHIFT: Codec := Codec(b => Up(b), b => Down(b))

  /** With that codec `with_key` is right and the one-shot path is not. */
  lemma ShiftBreaksOneShot(cfg: Config, key: bytes, f: Fragments)
    requires CustomsRoundTrip(cfg.strategy) && Stored(cfg, key, f)
    requires cfg.codex == Some(SHIFT) && cfg.normalizer.Off? && key != []
    ensures forall b: byte :: Decode(SHIFT, Encode(SHIFT, b)) == b
    ensures Reassemble(cfg, f, Zeros(f.totalLen)) == Into(key, Ok(()))
    ensures OneShotDefragment(cfg, f) != Ok(key)
  {
    assert Encode(SHIFT, Encode(SHIFT, key[0])) != key[0];
    assert !EncodeInverts(cfg.codex, key) && DecodeInverts(cfg.codex, key);
    StoredReadsBack(cfg, key, f, Zeros(f.totalLen));
    OneShotReadsBack(cfg, key, f);
  }
}
