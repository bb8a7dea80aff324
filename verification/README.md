# key-vault in Dafny

A model of key-vault, a Rust library that keeps secret keys in memory in fragments, and proofs
about the parts of it that are hard to get right: the concurrent registry, the memory layer,
the fragmentation strategies with their byte layouts, and the lockout and backoff policies.

`dafny verify dfyconfig.toml` checks everything.

| file | component |
|---|---|
| `Core.dfy` | machine integers, errors, little-endian words, permutations |
| `Shuffle.dfy`, `ChunkSizes.dfy` | random draws, Fisher-Yates, chunk sizing |
| `Fragment.dfy` | stored fragments, layout views, page-protected packing |
| `Standard.dfy`, `RandomPositions.dfy`, `Interleaved.dfy` | the three concrete strategies |
| `Strategies.dfy` | the strategy interface, layered and caller-written strategies |
| `CodexTable.dfy`, `Pipeline.dfy` | substitution tables; normalize, encode, fragment and back |
| `PageTable.dfy`, `Pool.dfy`, `Guarded.dfy`, `ScratchBuffer.dfy` | page reference counts, block pool, protected regions, scratch buffer |
| `Handles.dfy`, `Registry.dfy`, `RegistryIds.dfy`, `RegistryGates.dfy` | key ids, the registry protocol, fresh ids, the lockout tests at its door |
| `RegistryRuns.dfy`, `RegistryLockouts.dfy` | the theorems over all interleavings |
| `Lockout.dfy`, `LockoutState.dfy` | failure windows and lockouts, the vault's fields |
| `LockoutRuns.dfy`, `VaultFlag.dfy` | the lockouts told by the calls alone, and exactly when that is possible |
| `LockCounter.dfy` | the lock counter between the steps of concurrent calls |
| `Backoff.dfy` | master unlock and backoff |

## Main results

- **Registry.** Any number of threads step through `register`, `rotate`, `unregister` and
  `with_key`, interleaved at every load, lock, swap and unlock. Every finished call takes effect
  at one moment inside its own interval exactly as it would on an atomic map
  (`RegistryRuns.Linearizable`); a call changes the map if and only if it reports success, and
  once, and successful calls correspond one to one to changes over the whole run
  (`ChangedIffSucceeded`, `ChangesClaimedOnce`, `NoUnclaimedChange`); the lock flag is set exactly
  while one thread holds the lock; names are unique; `with_key` hands out the normalized key of
  one version current during the call (`WithKeySeesOneVersion`); a call is refused for a lockout
  exactly if one is in place when it asks, and never gets past one
  (`RegistryLockouts.KeyLockoutByTheCalls`, `VaultLockoutByTheCalls`); nobody is ever stuck
  (`NoDeadlock`). All this holds in every run. Until the id counter wraps, ids are fresh, names
  never change and a removed handle never returns.
- **Round trips.** For every key, configuration and random draw, what a strategy produces is
  turned back into the key, through the real layout bytes, and it produces something unless the
  key is refused by its size or a source runs dry: for each concrete strategy and, by
  induction on the nesting, for layered ones over any of them. Page-protected packing changes
  nothing for any strategy, and reading a stored key yields its normalized form exactly if the
  codex's `decode` undoes its `encode`.
- **Memory.** Over every run with an operating system that may refuse anything, taking a page
  back included: page counts equal the live regions touching a page, a fully locked region stays
  locked until its own release, pool blocks never overlap and are handed out zeroed, and a
  protected region is readable while a guard lives. Keys in protected regions are read only with
  a guard held.
- **Policies.** The pruned failure deque counts exactly what the full history since the last
  reset holds. Both kinds of lockout, and when failures are forgotten, are characterized by the
  calls alone, without looking at any state (`LockoutRuns.KeyLockedIff`, `VaultLockedIff`), in
  exactly the configurations where the calls are enough (`LockoutRuns.MasterLockedExactlyIf`,
  `VaultFlag.VaultLockedExactlyIf`). Checked wrong master attempts lie apart by at least the sum
  of the backoff delays.

## Where the code and its documentation differ

The model follows the code. Each difference has an exact condition.

- A codex that is not its own inverse but honours `decode(encode(b)) == b` (called equivalent in
  src/codex/mod.rs:48-49) breaks the one-shot `defragment`, which applies `encode` again:
  `Pipeline.OneShotReadsBack`, `Pipeline.ShiftBreaksOneShot`.
- `from_swaps` is documented to reject a byte in two pairs, self-swaps included; it accepts a
  self-swap after a swap of the same byte: `CodexTable.DocumentedRuleIff`.
- Chunks below the configured minimum are possible, exactly for the totals in
  `ChunkSizes.ShortChunkIff`.
- `lockout_triggered` is documented (src/monitor/mod.rs:88-90) as true if the breach started the
  lockout; it is false if an expired entry that nobody looked at was still there:
  `Lockout.TriggeredIffStarted`, `Lockout.UnseenExpiryUnderreported`.
- Failures reported under the name `<master>` can be undercounted for the per-key threshold,
  because master mismatches prune by the vault-wide window alone: `Lockout.MasterNameExactIff`.
- The same pruning has a second effect. A lockout of that name that should have begun, and run
  out, is missed, so its failures are not forgotten when somebody next asks for the name, and they
  can lock out the whole vault: `VaultFlag.ForgottenFailuresExample`,
  `VaultFlag.VaultLockedExactlyIf`.
- `key_locks_active` is meant to be the number of locks. A `clear_lockout` between the two steps of
  a concurrent `clear_key_lockout` makes it wrap, and then the fast path can miss a lock:
  `LockCounter.StraddledExample`. Otherwise it is right: `LockCounter.CounterExactUnlessStraddled`.
- The backoff delay is documented as doubling with every failure up to the maximum; it stops
  doubling after 31 times even below the maximum: `Backoff.DocumentedDelayIff`,
  `Backoff.DocumentedDelayExample`.
- Ids are unique until the 64-bit counter wraps and not after: `Handles.IdsFreshUntilWrap`.

## How things are modelled

- What comes from outside is an argument, and everything is proved for all its values: the random
  source is the sequence of draws it is going to deliver, after which it fails; so is the output
  of the decoy generator; answers of the operating system, the address of a new mapping, and
  where user code panics are further arguments. Hash functions and caller-written strategies are
  arbitrary functions; the latter also take a seed that stands for their own draws.
- `usize` is 64 bits wide. Durations are nanoseconds up to `u64::MAX` seconds, with saturating
  arithmetic; clock readings are arguments.
- A page is named by its number. The bytes `buf[..total]` that `with_key` borrows from the scratch
  buffer are a separate array that is copied back before it is wiped.
- In the registry the steps on shared state (load, lock, swap, unlock, drawing an id) are atomic
  and everything thread-local is merged into the next such step. `history`, `changes` and
  `callers` in the shared state exist for the proofs. The storage of keys is a parameter of the
  protocol, instantiated with the pipeline at the end.
- Lockout state is treated in whole calls, in clock order, except in `LockCounter.dfy`: there the
  steps of concurrent calls interleave, and everything done while the lock map is held is one step.
- A registry call asks the lockout policy as the code does: for the vault when it begins, and for
  the key when it has looked at its snapshot. The policy answers by the calls made to it so far,
  which may come from anywhere at any time. `rotate` does not ask again under the lock, so nothing
  is claimed about lockouts that begin after it asked.

## Model

| member | source | states |
|---|---|---|
| Core.WordsRoundTrip | src/fragment/random.rs:149-157 | decoding the 4-byte little-endian words of any list gives the list back |
| Core.LeRoundTrip | src/fragment/layered.rs:136-143 | a word in front of any bytes is read back, and what follows it is untouched |
| Core.LittleEndian | src/fragment/layered.rs:136-143 | the first byte of a word is the lowest |
| Shuffle.InRange | src/fragment/util.rs:18-29 | a sample lies in the inclusive range, whatever is drawn |
| Shuffle.RandomU64 | src/rng.rs:18-27 | the next value of the source, or its failure exactly if there is none |
| Shuffle.FisherYates | src/fragment/util.rs:36-54 | for every source the array ends up a rearrangement of itself, the one its draws determine; it fails exactly if the source runs out, and then half way |
| Shuffle.AfterPermutes | src/fragment/util.rs:36-54 | any sequence of shuffle steps keeps the multiset |
| Shuffle.EveryOrderReachable | src/fragment/util.rs:36-54 | every rearrangement is the outcome of some draws |
| ChunkSizes.SampleRange | src/fragment/util.rs:18-29 | one draw, reduced into the range, or the source's failure exactly if it has run out |
| ChunkSizes.Next | src/fragment/standard.rs:349-370 | everything once it fits; else the sample, unless that would leave less than min |
| ChunkSizes.SampleNext | src/fragment/standard.rs:349-370 | a draw is taken exactly if there is a choice |
| ChunkSizes.SampleChunkSizes | src/fragment/standard.rs:349-370 | the sizes sum to the total and are cut by the draws in order, one for each chunk but the last; exactly an empty or inverted range is refused, and as many draws as bytes are always enough |
| ChunkSizes.CutBounds | src/fragment/standard.rs:349-370 | at every point of the loop: sizes between 1 and max, all but the last at least min |
| ChunkSizes.SizesInRange | src/fragment/standard.rs:349-370 | finished sizes lie in range and their number between ceil(total/max) and ceil(total/min) |
| ChunkSizes.ShortChunkIff | src/fragment/standard.rs:349-370 | some draw yields a chunk below min if and only if the total is below min or some number of picks can leave a remainder between max+1 and 2*min-1 |
| ChunkSizes.WideRangeNeverShort | src/fragment/standard.rs:349-370 | with max at least 2*min-1 and total at least min no draw yields a short chunk |
| Fragment.FromParts | src/fragment/mod.rs:128-143 | the parts are what the accessors return |
| Fragment.ViewLaw | src/fragment/mod.rs:166-207 | a view hides exactly the skipped layout bytes and shares the rest |
| Fragment.StackedViews | src/fragment/mod.rs:201-207 | a view of a view is the view that skips both: offsets accumulate |
| Fragment.Pack | src/fragment/mod.rs:235-279 | the mapping starts with all chunks and then the layout, in order |
| Fragment.Spans | src/fragment/mod.rs:235-279 | the recorded spans slice each chunk back out |
| Fragment.IntoProtected | src/fragment/mod.rs:235-279 | the protected form has the same chunks, visible layout and length, and is backed by a fresh sealed region; it fails exactly for its sizes or if the operating system refuses, with the error for it |
| Standard.FragmentKey | src/fragment/standard.rs:155-264 | whatever is drawn and whatever the decoys are, the result encodes the key in chunks of configured size, with one decoy per real chunk if decoys are on and none otherwise; each error exactly for its inputs, never the taken-twice error, and otherwise success unless a source runs dry |
| Standard.FollowsSized | src/fragment/standard.rs:155-264 | in any order of the tags real chunks have 1 to max bytes, and at least min unless they hold the end of the key |
| Standard.ShuffledDecoys | src/fragment/standard.rs:155-264 | in any order of the tags exactly the decoys made are marked as decoys |
| Standard.EncodesHoldsEachByteOnce | src/fragment/standard.rs:155-264 | in an encoding no key byte is held by two real chunks |
| Standard.CutKey | src/fragment/standard.rs:155-264 | the pieces follow each other through the key with the given sizes |
| Standard.MakeDecoys | src/fragment/standard.rs:155-264 | the generator's output, one per real chunk, each after a draw for its size; each failure exactly if that source runs dry first |
| Standard.ShuffleTags | src/fragment/standard.rs:155-264 | the order is what the draws make of all real and decoy tags |
| Standard.Materialize | src/fragment/standard.rs:155-264 | chunks and layout words follow the order; the taken-twice error requires a repeated tag |
| Standard.TagsDistinct | src/fragment/standard.rs:341-344 | in a shuffled order no tag repeats and every index is in range, so no decoy slot is taken twice |
| Standard.ShuffledEncodes | src/fragment/standard.rs:155-264 | chunks and words in any order of the tags encode the key |
| Standard.DefragmentIntoBuffer | src/fragment/standard.rs:274-328 | the in-place loop computes, on every input including malformed ones, what the recursive definition says, errors and partial writes included |
| Standard.ScatterOkIff | src/fragment/standard.rs:274-328 | on any chunks and offsets: success exactly if every real chunk fits and the lengths add up, and each byte is that of the last chunk holding it |
| Standard.DefragmentOkIff | src/fragment/standard.rs:274-328 | the exact inputs on which reassembly succeeds |
| Standard.ScatterRestores | src/fragment/standard.rs:274-328 | writing true pieces in any order succeeds and makes every held byte right; decoys write nothing |
| Standard.RoundTrip | src/fragment/standard.rs:274-328 | every encoding of a key is turned back into the key, whatever was in the buffer |
| RandomPositions.FragmentKey | src/fragment/random.rs:102-168 | the result encodes the key for every draw, in chunks of configured size; each error exactly for its inputs |
| RandomPositions.ShufflePositions | src/fragment/random.rs:102-168 | distinct positions that are exactly 0..n-1, in the order the draws determine |
| RandomPositions.PeelGroups | src/fragment/random.rs:102-168 | the groups partition the shuffled positions, each chunk holds its group's bytes, the layout lists them, and the sizes follow the sizing rule |
| RandomPositions.EncodesRecordsEachPositionOnce | src/fragment/random.rs:102-168 | the recorded positions are distinct and cover the key |
| RandomPositions.PlaceChunk | src/fragment/random.rs:178-240 | the inner loop places a chunk byte by byte, or stops at a position out of range |
| RandomPositions.DefragmentIntoBuffer | src/fragment/random.rs:178-240 | the cursor loop agrees with the recursive parser on every input |
| RandomPositions.GatherFits | src/fragment/random.rs:178-240 | on any fitting layout, an encoding or not, each byte is the last one placed there |
| RandomPositions.DefragmentOkIff | src/fragment/random.rs:178-240 | the exact inputs on which reassembly succeeds: for each chunk in turn its size and as many positions inside the key, and nothing more |
| RandomPositions.GatherRestores | src/fragment/random.rs:178-240 | parsing inverts the layout encoding, consumes all of it, and puts every recorded byte in place |
| RandomPositions.RoundTrip | src/fragment/random.rs:178-240 | every encoding of a key is turned back into the key |
| Interleaved.FragmentKey | src/fragment/interleaved.rs:91-147 | the result encodes the key for every draw and padding, in one pool of factor times its length; each error exactly for its inputs |
| Interleaved.ChoosePositions | src/fragment/interleaved.rs:91-147 | as many distinct pool positions as there are key bytes |
| Interleaved.BuildPool | src/fragment/interleaved.rs:91-147 | every key byte sits at its position, and random padding everywhere else |
| Interleaved.EncodeLayout | src/fragment/interleaved.rs:91-147 | the layout is the pool size and then the positions |
| Interleaved.DefragmentIntoBuffer | src/fragment/interleaved.rs:157-203 | the loop agrees with the recursive definition on every input |
| Interleaved.CollectOkIff | src/fragment/interleaved.rs:157-203 | on any positions: success exactly if all lie in the pool, and each byte is the one named |
| Interleaved.DefragmentOkIff | src/fragment/interleaved.rs:157-203 | the exact inputs on which reassembly succeeds |
| Interleaved.CollectRestores | src/fragment/interleaved.rs:157-203 | following located positions fills the buffer with the key |
| Interleaved.RoundTrip | src/fragment/interleaved.rs:157-203 | every encoding of a key is turned back into the key |
| Strategies.ClampRange | src/fragment/standard.rs:105-113 | any range becomes a valid one, and a valid one is kept |
| Strategies.ClampFactor | src/fragment/interleaved.rs:80-84 | any factor becomes at least two, and a valid one is kept |
| Strategies.NewLayered | src/fragment/layered.rs:68-80 | accepted exactly for 1 to 2^32-1 sub-strategies |
| Strategies.FragmentKey | src/fragment/layered.rs:125-152 | for every strategy tree and every source, the result encodes the key by that tree, through the sub-strategy that was drawn; without caller-written strategies and with enough draws it fails only for the key's size |
| Strategies.FragmentCustom | src/fragment/mod.rs:318-340 | what a caller's strategy returns, or its error |
| Strategies.Prefix | src/fragment/layered.rs:125-152 | the layout gets a 4-byte header; chunks and length stay |
| Strategies.DefragmentIntoBuffer | src/fragment/mod.rs:343-382 | dispatch in place agrees with the recursive definition on every input, including bad headers, caller-written strategies with the default method and those with their own |
| Strategies.HeaderRoutes | src/fragment/layered.rs:104-121 | one header leads to its sub-strategy, which sees exactly the layout behind it |
| Strategies.HeadersRoute | src/fragment/layered.rs:162-169 | any stack of headers leads to its leaf, which sees exactly the layout behind all of them |
| Strategies.RoundTrip | src/fragment/layered.rs:154-169 | by induction on nesting: if caller-written strategies keep their contract (in `defragment`, and in `defragment_into` where they bring their own), every strategy tree turns every encoding back into the key |
| Strategies.DefragmentRoundTrip | src/fragment/mod.rs:318-323 | the same for the allocating `defragment` |
| Strategies.EncodesLength | src/fragment/mod.rs:318-323 | the recorded length is the key's |
| Strategies.SameParts | src/fragment/mod.rs:235-279 | only chunks, visible layout and length matter to any strategy on any input, so protection changes no result |
| CodexTable.FromSwaps | src/codex/static_codex.rs:85-119 | accepts exactly the acceptable lists; the table is an involution that performs them and fixes exactly the unmoved bytes |
| CodexTable.PerformsIsInvolution | src/codex/static_codex.rs:85-119 | any table that performs a swap list is an involution with exactly those fixed points |
| CodexTable.DocumentedRuleIff | src/codex/static_codex.rs:64-111 | code and documented rule agree exactly when no self-swap repeats an earlier byte, with lists that separate them |
| CodexTable.RandomInvolution | src/codex/static_codex.rs:147-183 | for every shuffle an involution without fixed points that exchanges neighbours in the shuffled order; it fails exactly if the source runs out |
| CodexTable.PairedIsDerangement | src/codex/static_codex.rs:147-183 | pairing neighbours of any order of all bytes gives a fixed-point-free involution |
| Pipeline.CodexApply | src/vault/mod.rs:1222-1228 | every byte of the copy is encoded |
| Pipeline.CodexDecodeInPlace | src/vault/mod.rs:1235-1239 | every byte of the buffer is decoded, or exactly those before the one at which the codex panics |
| Pipeline.NormalizersInUse | src/vault/mod.rs:701-711 | what each normalizer stores, with hashes that show their inputs |
| Pipeline.FragmentPipeline | src/vault/mod.rs:701-718 | what comes out holds, encoded, the key, its hash, or its keyed hash, as configured; a normalization key that cannot be read, has the wrong length or is missing fails with its error |
| Pipeline.FragmentForRegistry | src/vault/mod.rs:722-729 | the same, in protected storage exactly if configured, behind a sealed region |
| Pipeline.DefragmentOpened | src/vault/mod.rs:966-985 | protected bytes are read from the region, for which a guard must be alive |
| Pipeline.ReassembleInto | src/vault/mod.rs:966-985 | the buffer and result are those of the specification; or untouched, exactly if the region had to be opened and could not be; or partly decoded, exactly if the codex panicked. The guard is given up on every way out |
| Pipeline.StoredReadsBack | src/vault/mod.rs:966-985 | reading a stored key never fails and yields the normalized key if and only if decode undoes encode on its bytes |
| Pipeline.NormalizedReadsBack | src/vault/mod.rs:701-718 | what a read yields: the key, its hash, or its keyed hash, as configured |
| Pipeline.OneShotReadsBack | src/vault/mod.rs:748-762 | the one-shot path yields the normalized key if and only if encode undoes itself on its bytes |
| Pipeline.ShiftBreaksOneShot | src/vault/mod.rs:748-762 | a codec with a proper decode for which `with_key` is right and the one-shot path wrong on every key |
| PageTable.TouchesIffSharesByte | src/memory/mod.rs:356-360 | the page span is exactly the pages that share a byte with the region |
| PageTable.Pages.AcquireRegion | src/memory/mod.rs:376-407 | one more reference on exactly the region's pages, locked and excluded exactly as granted, true exactly if all are locked, invariant kept |
| PageTable.Pages.ReleaseRegion | src/memory/mod.rs:417-444 | one reference less on exactly the region's pages; the last one asks for the page back, which is kept exactly if that is refused; invariant kept |
| PageTable.AcquireKeeps | src/memory/mod.rs:376-407 | acquiring keeps counts equal to live users, and table, operating system, refusals and pins in agreement |
| PageTable.ReleaseKeeps | src/memory/mod.rs:417-444 | so does releasing |
| PageTable.AcquiredAsGranted | src/memory/mod.rs:376-407 | each page of the region ends up locked and excluded exactly if it was or that is granted; success exactly if all are locked |
| PageTable.ReleasedAsGranted | src/memory/mod.rs:417-444 | a page that nobody uses any more is given back exactly if that is granted |
| PageTable.RunKeepsInv | src/memory/mod.rs:356-444 | the invariant after every call of every run with arbitrary refusals |
| PageTable.LockedUntilReleased | src/memory/mod.rs:376-444 | a region whose acquisition returned true keeps all its pages locked until its own release |
| PageTable.NothingLeftBehind | src/memory/mod.rs:417-444 | when all calls are matched the table is empty and only pages the operating system would not take back are still locked: none if it refused none |
| Pool.ClassFor | src/memory/pool.rs:60-77 | the smallest class that fits, for 1 to 2048 bytes |
| Pool.ClassSizes | src/memory/pool.rs:32 | the classes double from 16 to 2048 bytes |
| Pool.BlocksPerPage | src/memory/pool.rs:92-108 | as many blocks as fit into a page, and at least one |
| Pool.PageBlocksTile | src/memory/pool.rs:92-108 | the blocks of a page lie one after another from its start, listed highest first |
| Pool.Blocks.Grow | src/memory/pool.rs:92-108 | the pool grows by exactly the blocks that fill the new page, so that they are handed out in address order; existing blocks stay; refused exactly without a mapping |
| Pool.Blocks.Restock | src/memory/pool.rs:60-77 | an empty free list gets a new page, if there is one |
| Pool.Blocks.Alloc | src/memory/pool.rs:60-77 | refused exactly for sizes out of range or without memory; otherwise a zeroed block of the right class that was not in use: the most recently freed one, or the first of a new page, with its lock flag |
| Pool.Blocks.FromSlice | src/memory/mod.rs:143-157 | exactly the block that `alloc` gives, its class and lock flag included, holding the data; no other block in use changes |
| Pool.Blocks.Drop | src/memory/mod.rs:240-253 | the block is wiped and put on the free list of its class with its lock flag; no other block in use changes |
| Pool.Blocks.Reuse | src/memory/mod.rs:143-253 | a buffer made after one of the same class was dropped gets the same block with the same flag |
| Pool.CarveKeeps | src/memory/pool.rs:92-108 | carving fresh memory keeps the invariant |
| Pool.TakeKeeps | src/memory/pool.rs:60-77 | handing out keeps the invariant, and the block was free and zero |
| Pool.WriteKeeps | src/memory/mod.rs:143-157 | writing inside one block keeps the invariant and all other contents |
| Pool.GiveKeeps | src/memory/pool.rs:85-88 | returning a wiped block keeps the invariant |
| Pool.RunKeepsInv | src/memory/pool.rs:60-108 | the invariant after every step of every run |
| Pool.PoolSafety | src/memory/pool.rs:60-108 | in every run blocks in use are disjoint and long enough, and each carved block is in use or free, never both |
| Pool.HandedOutZero | src/memory/pool.rs:60-77 | in every run a block is all zero when handed out |
| Guarded.NextMultiple | src/memory/guarded.rs:68-97 | the least multiple of the page size that holds the length |
| Guarded.GuardedRegion.New | src/memory/guarded.rs:68-97 | a zeroed, writable region of the fewest whole pages that hold the length, with no readers, locked and excluded from dumps exactly as granted; each error exactly for its cause |
| Guarded.GuardedRegion.Read | src/memory/guarded.rs:140-158 | reading needs the region to be accessible and yields its contents |
| Guarded.GuardedRegion.Seal | src/memory/guarded.rs:129-138 | inaccessible if granted, else still writable and an error |
| Guarded.GuardedRegion.OpenGuard | src/memory/guarded.rs:146-158 | one more guard and a readable region; or, exactly if the first reader is refused, no change at all |
| Guarded.GuardedRegion.DropGuard | src/memory/guarded.rs:209-220 | one guard less; the last one asks for the region to be closed |
| Guarded.GuardedRegion.Drop | src/memory/guarded.rs:167-191 | the bytes are wiped if and only if the region could be made writable; only what was registered is asked back |
| Guarded.NextKeeps | src/memory/guarded.rs:146-220 | every open and close keeps the invariant, whatever is refused |
| Guarded.RunKeepsInv | src/memory/guarded.rs:129-220 | in every run the count is the number of guards, readable with one, inaccessible with none exactly if the last close was granted |
| Guarded.ReadableWhileGuarded | src/memory/guarded.rs:146-220 | once opened, readable until that guard is dropped |
| Guarded.EachAnswerTells | src/memory/guarded.rs:146-220 | in every run the last guard dropped leaves the region inaccessible exactly if that is granted, and an open makes it readable exactly if granted or already open |
| ScratchBuffer.Scratch.EnsureLen | src/vault/mod.rs:1257-1302 | only grows, stays zero, and holds one page reference matching its allocation; everybody else's references stay |
| ScratchBuffer.Scratch.Release | src/vault/mod.rs:1286-1294 | the reference is given up and nothing else |
| ScratchBuffer.Scratch.ReadKey | src/vault/mod.rs:928-947 | the callback sees the reassembled key, or it fails exactly for the cause given (region not opened, layout, panic in codex or callback); on every way out the buffer is zero again, its reference intact and the region's guard given up |
| Handles.IdsFreshUntilWrap | src/handle.rs:43-50 | an id differs from all earlier ones if and only if the counter has not wrapped |
| Handles.IdCounter.Next | src/handle.rs:76-92 | a non-zero id, new if and only if fewer than 2^64-1 were drawn before it |
| Registry.StepKeepsInv | src/vault/mod.rs:791-1049 | every step of every thread keeps the inductive invariant of the registry, in every run |
| Registry.DecideStep | src/vault/mod.rs:1030-1045 | what the lock holder loaded is the installed map when it decides |
| RegistryIds.DrawIsFresh | src/handle.rs:43-92 | before the counter wraps a drawn id was never in any version of the map |
| RegistryIds.StepKeepsFresh | src/handle.rs:43-92 | every step keeps inserted ids new and ids about to be inserted new and distinct, until the counter wraps |
| Registry.InstallKeepsShared | src/vault/mod.rs:808-828 | installing an accepted change keeps names unique and the chain of versions intact |
| Registry.InstallKeepsThread | src/vault/mod.rs:808-828 | an installation breaks nothing another thread relies on |
| RegistryRuns.RunKeepsInv | src/vault/mod.rs:791-1049 | the invariant in every reachable state of every interleaving |
| RegistryRuns.RunKeepsFresh | src/handle.rs:43-92 | fresh ids in every reachable state before the counter wraps |
| RegistryRuns.MutualExclusion | src/sync.rs:70-113 | the flag is set exactly while one thread holds the lock; its loaded map is the installed one; names are unique |
| RegistryRuns.NameNeverChanges | src/vault/mod.rs:1030-1045 | an entry keeps its name as long as its handle lives |
| RegistryRuns.RemovedNeverReturns | src/vault/mod.rs:845-862 | a handle that is gone stays gone |
| RegistryRuns.OneRegistrationPerName | src/vault/mod.rs:791-833 | between any two installed registrations of a name the key of the first was unregistered |
| RegistryRuns.Linearizable | src/vault/mod.rs:791-1049 | every finished call takes effect, as on an atomic map, at one moment between its beginning and its end |
| RegistryRuns.OneCallPerNumber | src/vault/mod.rs:791-1049 | a call number names one call of one thread at whatever moments it is looked at |
| RegistryRuns.ChangedIffSucceeded | src/vault/mod.rs:1010-1049 | a call changed the map if and only if it reports success, and then exactly once |
| RegistryRuns.ChangesClaimedOnce | src/vault/mod.rs:791-1049 | successful calls that finish at any two moments claim the same change exactly if they are the same call |
| RegistryRuns.NoUnclaimedChange | src/vault/mod.rs:791-1049 | the map changes only in a step of the lock holder that reports success, by exactly its change |
| RegistryRuns.FailurePassedOn | src/vault/mod.rs:807-926 | an error of the fragmenter or of a read is what the caller gets |
| RegistryRuns.CanStep | src/vault/mod.rs:791-1049 | a thread that does not wait for the lock can always take its next step |
| RegistryRuns.NoDeadlock | src/sync.rs:70-113 | in every reachable state a thread can step, or waits for a lock whose holder can |
| RegistryRuns.WithKeySeesOneVersion | src/vault/mod.rs:893-923 | `with_key` hands out the key of one version that was current during the call: itself, its hash, or its keyed hash, as configured |
| RegistryGates.StepKeepsGates | src/vault/mod.rs:893-904 | every step keeps: who was told of a lockout goes no further, and who goes on was told of none |
| RegistryLockouts.VaultLockoutObeyed | src/vault/mod.rs:893-899 | every call but `unregister` asks for the vault at one moment of the call, and is refused for its lockout exactly if there is one |
| RegistryLockouts.KeyLockoutObeyed | src/vault/mod.rs:900-904 | `with_key` and `rotate` ask for the key at one moment of the call, under the name its handle has, and are refused for its lockout exactly if it is in place; what is handed out is from the version asked about |
| RegistryLockouts.VaultLockoutByTheCalls | src/vault/mod.rs:1010-1028 | the same in terms of the failures reported and cleared |
| RegistryLockouts.KeyLockoutByTheCalls | src/vault/mod.rs:1018-1028 | the same: a key under a lockout is neither handed out nor rotated |
| Lockout.WindowCountsExact | src/vault/mod.rs:620-658 | with a forward clock the counts and the age from the pruned deque are those of the whole history since the last reset |
| Lockout.BreachIffCrossed | src/vault/mod.rs:494-551 | a threshold breach is decided as by the whole history, for every name whose pruning does not decide it |
| Lockout.LowCountsAgree | src/vault/mod.rs:620-658 | whatever was pruned, counts of at least one and at least two are right |
| Lockout.MasterNameExactIff | src/vault/mod.rs:620-658 | per-key counts under the master's name are right in every run if and only if the per-key window is off or not the longer one |
| Lockout.MasterNameMiscounts | src/vault/mod.rs:1172-1175 | otherwise this run counts two failures where there were three |
| LockoutRuns.VaultLockedIff | src/vault/mod.rs:494-551 | in every run the vault is locked out if and only if, going by the calls alone, a failure since the last full clear crossed the threshold; for every configuration in which the calls say when failures are forgotten |
| VaultFlag.VaultLockedExactlyIf | src/vault/mod.rs:494-581 | for each configuration: that is so in every run if and only if lockouts never end, or the per-key threshold is below three, or its window is not the longer one, or the vault-wide threshold is at most one, or the vault always goes down before the name could be locked |
| VaultFlag.SparseFits | src/vault/mod.rs:620-658 | how many failures fit into a window while the vault stays up |
| VaultFlag.TightRunAgrees | src/vault/mod.rs:494-551 | if those are fewer than the per-key threshold, the flag is what the calls say |
| VaultFlag.UndecidedFlagDiffers | src/vault/mod.rs:565-581 | for every other configuration a run locks the vault out by failures that by the calls were forgotten |
| VaultFlag.ForgottenFailuresExample | src/vault/mod.rs:565-581 | such a run of five calls |
| LockoutRuns.HistoryFromEvents | src/vault/mod.rs:565-581 | the calls alone say which failures count |
| LockoutRuns.RunAgrees | src/vault/mod.rs:529-581 | history, lock entry and lock of a name in every run are what the calls say |
| LockoutRuns.KeyLockedIff | src/vault/mod.rs:529-581 | in every run a name is locked at a time if and only if, going by the calls alone, a failure since its last clear crossed the threshold and began a lockout that has not run out |
| LockoutRuns.MasterLockedExactlyIf | src/vault/mod.rs:620-658 | for the master's name that is so in every run if and only if the per-key threshold is below three, or its window is not the longer one, or lockouts end as they begin or could only be missed at the largest time |
| LockoutRuns.MissedRun | src/vault/mod.rs:620-658 | otherwise a run in which the threshold is reached and the code locks nothing |
| Lockout.LockNeverShortened | src/vault/mod.rs:529-551 | no call but a clear ends a lock earlier than it was to end |
| Lockout.ExpiryStartsAfresh | src/vault/mod.rs:565-581 | after a noticed expiry the next failure is the first |
| Lockout.FastPathAgrees | src/vault/mod.rs:556-562 | in every run the counter is the number of locks, and at zero no name is locked |
| Lockout.TriggeredIffStarted | src/vault/mod.rs:529-551 | `lockout_triggered` means no entry before, and means no lock in place exactly if no expired entry lingered |
| Lockout.UnseenExpiryUnderreported | src/vault/mod.rs:529-551 | a run in which a new lockout is reported as not triggered |
| LockoutState.Lockouts.RecordFailure | src/vault/mod.rs:620-658 | the pruning loop and the counts agree with the specification |
| Lockout.TriggersIffGoesDown | src/vault/mod.rs:512-526 | in every run the monitor is told that the vault's lockout was triggered exactly when the vault goes down |
| Lockout.OneTriggerPerLockout | src/vault/mod.rs:512-526 | and at most once between full clears |
| LockoutRuns.BreachesAsDue | src/vault/mod.rs:512-551 | in every run, by the calls alone: the monitor hears of each threshold exactly if it is crossed, the vault's first, with the failures in its window and whether there was a lockout before |
| LockoutState.Lockouts.HandleFailure | src/vault/mod.rs:494-551 | the fields follow the run, and the monitor is told exactly the breaches due |
| LockoutState.Lockouts.KeyLocked | src/vault/mod.rs:556-581 | the answer is whether a lock is in place, by the map and by the history, fast path or not |
| LockoutState.Lockouts.ClearKeyLockout | src/vault/mod.rs:439-446 | the fields follow the run; true exactly if there was an entry |
| LockoutState.Lockouts.ClearLockout | src/vault/mod.rs:453-461 | everything is as at the start |
| LockCounter.RunKeepsInv | src/vault/mod.rs:439-461 | in every interleaving of their steps the counter is ahead of the locks by the decrements owed and behind by those that came after a full clear |
| LockCounter.CounterExactIff | src/vault/mod.rs:439-461 | with no decrement owed the counter is the number of locks if and only if no call decremented for a removal from before the last full clear |
| LockCounter.CounterExactUnlessStraddled | src/vault/mod.rs:439-461 | unless a full clear falls between the two steps of some call, the counter is the number of locks and of decrements owed |
| LockCounter.StraddleBreaksCounter | src/vault/mod.rs:439-461 | if one does, and no full clear follows, the counter is wrong once all decrements are made |
| LockCounter.FastPathZeroIff | src/vault/mod.rs:556-562 | exactly when the fast path answers that nothing is locked |
| LockCounter.StraddledExample | src/vault/mod.rs:439-461 | an interleaving after which the counter is zero with a lock in the map |
| Backoff.DelayUnbounded | src/vault/mod.rs:1185-1196 | checked multiplication and the saturated count agree with unbounded arithmetic |
| Backoff.DelayDoubles | src/vault/mod.rs:1185-1196 | the delay starts at the base, doubles up to the maximum for 32 failures, then stays |
| Backoff.DocumentedDelayIff | src/vault/mod.rs:1183-1196 | the documented formula holds for every count if and only if 31 doublings reach the maximum |
| Backoff.DocumentedDelayExample | src/vault/mod.rs:1183-1196 | a configuration and count for which the two differ |
| Backoff.StateOfStreak | src/vault/mod.rs:1127-1181 | in every run the fields are determined by the checked wrong attempts since the last success |
| Backoff.StreakSpan | src/vault/mod.rs:1127-1196 | in every run two such attempts lie apart by at least the delays between them, up to the range of a Duration |
| Backoff.MasterUnlocks | src/vault/mod.rs:1915-1930 | a verifier made of a master lets in exactly the attempts with the master's digest, the master among them |
| Backoff.MasterUnlock.UnlockWithMaster | src/vault/mod.rs:1127-1181 | each refusal exactly for its cause, and it changes nothing; a checked attempt succeeds exactly if its keyed hash is the stored digest, and then resets the backoff and every lockout; a mismatch extends the streak and is recorded as a failure |

## Left out

- Key metadata, audit events, monitor callbacks other than breach reports, error texts, `Debug`, the builder, feature flags: thin and easy.
- Fetchers, TEE detection, tracing sinks and the operating-system shims: I/O.
- BLAKE3, constant-time comparison, quality and distribution of randomness, modulo bias: arbitrary functions and draws stand in for them.
- Weak memory ordering and the insides of `Arc`, `ArcSwap` and the standard mutex: loads and swaps are atomic steps. The spin loop of the `no_std` mutex is the step that waits until the flag is clear; that it ends is not claimed.
- Nested `with_key` on one thread, which panics on the borrowed scratch buffer, and the per-call `ScratchBuf` of `no_std` builds.
- `LockedBytes` on the heap: only its page references are modelled, by the page table.
- The claim in src/fragment/random.rs:60-62 that a chunk never holds a contiguous run: a shuffle does not force it.
- Name-keyed lockouts after `unregister`: they stay under the name, and nothing is claimed about a name registered again.
- The conversions in the fragmenters that fail only for counts above 32 bits which the preceding length checks exclude have no branch of their own.
- Shuffle.FisherYates: says nothing about how likely an order is.
- RegistryRuns.NameNeverChanges: holds until the id counter reaches 2^64; after the wrap an id in use can be drawn again.
- RegistryRuns.RemovedNeverReturns: likewise.
- RegistryRuns.OneRegistrationPerName: likewise.
- LockCounter.RunKeepsInv: the update of the counter by a breach or a noticed expiry, made while the lock map is held, is one step with the update of the map.
- Backoff.StreakSpan: beyond the range of a Duration the bound is the largest Duration.
