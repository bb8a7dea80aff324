/** The per-thread scratch buffer of `with_key`: zero between calls, only ever replaced by
    a longer one, and page-referenced exactly as it is currently allocated. */
module ScratchBuffer {
  import opened Core
  import opened Fragment
  import Guarded
  import PageTable
  import Pipeline

  class Scratch {
    var buf: array<byte>
    // Where the allocator put the buffer.
    var addr: nat
    const pages: PageTable.Pages
    ghost var ticket: nat

    /** The region the buffer's pages are referenced as. */
    function Extent(): PageTable.Extent
      reads this
    {
      PageTable.Extent(addr, buf.Length)
    }

    /** This buffer's entries among all live page references. */
    ghost function Mine(): set<nat>
      reads this
    {
      if buf.Length == 0 then {} else {ticket}
    }

    ghost predicate Valid()
      reads this, buf, pages
    {
      && pages.Valid()
      && (forall i :: 0 <= i < buf.Length ==> buf[i] == 0)
      && (buf.Length > 0 ==> ticket in pages.live && pages.live[ticket] == Extent())
    }

    /** The references of everybody else. */
    ghost function Others(): map<nat, PageTable.Region>
      reads this, buf, pages
    {
      pages.live - Mine()
    }

    constructor (pages: PageTable.Pages)
      requires pages.Valid()
      ensures Valid() && buf.Length == 0 && this.pages == pages && Others() == pages.live
    {
      this.pages := pages;
      buf, addr, ticket := new byte[0], 0, 0;
      new;
      assert pages.live - {} == pages.live;
    }

    /** `release`: wipe, drop the page references, forget the buffer. */
    method Release(g: PageTable.Grants)
      requires Valid()
      modifies this, buf, pages
      ensures Valid() && buf.Length == 0 && fresh(buf)
      ensures pages.live == old(Others()) && PageTable.KeepsUsed(old(pages.State()), pages.State(), pages.page)
    {
      Wipe(buf.Length);
      if buf.Length > 0 {
        pages.ReleaseRegion(ticket, Extent(), g);
      } else {
        assert pages.live - {} == pages.live;
      }
      buf := new byte[0];
    }

    /** Zero the first `n` bytes. */
    method Wipe(n: nat)
      requires n <= buf.Length
      modifies buf
      ensures forall i :: 0 <= i < n ==> buf[i] == 0
      ensures forall i :: n <= i < buf.Length ==> buf[i] == old(buf[i])
    {
      for i := 0 to n
        invariant forall j :: 0 <= j < i ==> buf[j] == 0
        invariant forall j :: i <= j < buf.Length ==> buf[j] == old(buf[j])
      {
        buf[i] := 0;
      }
    }

    /** `ensure_len`: at least `len` bytes. A longer buffer is referenced before the old one
        is given up. `newAddr` is where the allocator puts it, `t` a ticket not in use. */
    method EnsureLen(len: nat, newAddr: nat, ghost t: nat, g: PageTable.Grants, back: PageTable.Grants)
      requires Valid() && newAddr + len <= USIZE_MAX && t !in pages.live
      modifies this, buf, pages
      ensures Valid() && buf.Length == Max(old(buf.Length), len) && Others() == old(Others())
      ensures buf == old(buf) || fresh(buf)
      ensures if old(buf.Length) >= len then buf == old(buf) && pages.State() == old(pages.State())
              else Extent() == PageTable.Extent(newAddr, len)
                   && PageTable.LockedAsGranted(pages.State(), pages.page, PageTable.Extent(newAddr, len), g)
    {
      if buf.Length >= len {
        return;
      }
      ghost var others := Others();
      var fresh_ := new byte[len](_ => 0);
      var locked := pages.AcquireRegion(t, PageTable.Extent(newAddr, len), g);
      ghost var acquired := pages.State();
      Release(back);
      PageTable.LockedWhileUsed(acquired, pages.State(), pages.page, t, PageTable.Extent(newAddr, len), g);
      buf, addr, ticket := fresh_, newAddr, t;
      assert pages.live == others[t := PageTable.Extent(newAddr, len)];
      assert Others() == others;
    }

    /** What a call of `read_key` comes to: what the callback saw, or why it saw nothing. */
    ghost function Answer(cfg: Pipeline.Config, f: Fragments, first: bool, reading: Pipeline.Reading): Result<bytes>
      requires f.Valid()
    {
      var read := Pipeline.Reassemble(cfg, f, Zeros(f.totalLen));
      match Pipeline.EndOf(cfg, f, Zeros(f.totalLen), first, reading)
      case NotOpened => Err(ProtectFailed)
      case CodexPanicked(_) => Err(Panicked)
      case Finished =>
        if read.result.Err? then Err(read.result.error)
        else if reading.callbackPanics then Err(Panicked)
        else Ok(read.out)
    }

    /** Reassemble into a zeroed slice and run the callback on it. */
    method Reassembled(cfg: Pipeline.Config, f: Fragments, region: Guarded.GuardedRegion?, ghost guard: nat,
                       reading: Pipeline.Reading)
      returns (r: Result<bytes>, slice: bytes)
      requires f.Valid() && Pipeline.Readable(cfg, f, region) && (region != null ==> guard !in region.guards)
      modifies region
      ensures Pipeline.Readable(cfg, f, region) && (region != null ==> region.guards == old(region.guards))
      ensures |slice| == f.totalLen
      ensures r == Answer(cfg, f, region != null && old(region.readers) == 0, reading)
    {
      var out := new byte[f.totalLen](_ => 0);
      assert out[..] == Zeros(f.totalLen);
      var done, ended := Pipeline.ReassembleInto(cfg, f, region, guard, out, reading);
      slice := out[..];
      if done.Err? {
        r := Err(done.error);
      } else if reading.callbackPanics {
        r := Err(Panicked);
      } else {
        r := Ok(slice);
      }
    }

    /** `read_key`: reassemble into the front of the buffer, let the callback see it, and
        wipe it on every way out. The borrowed slice `buf[..total]` is separate here, and
        written back before the wipe. */
    method ReadKey(cfg: Pipeline.Config, f: Fragments, region: Guarded.GuardedRegion?, ghost guard: nat,
                   reading: Pipeline.Reading, newAddr: nat, ghost t: nat, g: PageTable.Grants, back: PageTable.Grants)
      returns (r: Result<bytes>)
      requires Valid() && f.Valid() && newAddr + f.totalLen <= USIZE_MAX && t !in pages.live
      requires Pipeline.Readable(cfg, f, region) && (region != null ==> guard !in region.guards && region.mem != buf)
      modifies this, buf, pages, region
      ensures Valid() && buf.Length == Max(old(buf.Length), f.totalLen) && Others() == old(Others())
      ensures Pipeline.Readable(cfg, f, region) && (region != null ==> region.guards == old(region.guards))
      ensures r == Answer(cfg, f, region != null && old(region.readers) == 0, reading)
      // In particular the callback sees the key exactly if nothing goes wrong before.
      ensures region != null && old(region.readers) == 0 && !reading.open ==> r == Err(ProtectFailed)
      ensures var read := Pipeline.Reassemble(cfg, f, Zeros(f.totalLen));
              && (r.Ok? ==> read == Into(r.value, Ok(())) && !reading.callbackPanics)
              && (r.Ok? && cfg.codex.Some? && reading.codexPanicsAt.Some? ==> reading.codexPanicsAt.value >= f.totalLen)
              && (read.result.Ok? && !reading.callbackPanics && reading.codexPanicsAt.None? && reading.open ==> r.Ok?)
    {
      EnsureLen(f.totalLen, newAddr, t, g, back);
      assert Pipeline.Readable(cfg, f, region);
      var slice;
      r, slice := Reassembled(cfg, f, region, guard, reading);
      WriteAndWipe(slice);
    }

    /** The plaintext passes through the front of the buffer and is wiped. */
    method WriteAndWipe(slice: bytes)
      requires |slice| <= buf.Length && forall i :: 0 <= i < buf.Length ==> buf[i] == 0
      modifies buf
      ensures forall i :: 0 <= i < buf.Length ==> buf[i] == 0
    {
      CopyFromSlice(buf, 0, slice);
      assert forall i :: |slice| <= i < buf.Length ==> buf[i] == 0;
      Wipe(|slice|);
    }
  }
}
