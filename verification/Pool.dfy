/** The pool of locked pages for small buffers: free lists per size class, pages carved
    into blocks on demand, and blocks that are all zero whenever they are free. */
module Pool {
  import opened Core

  /** Block sizes, smallest first. */
  const CLASSES: seq<nat> := [16, 32, 64, 128, 256, 512, 1024, 2048]

  type Class = c: nat | c < 8

  function Size(c: Class): nat {
    CLASSES[c]
  }

  /** Each class is twice the one before. */
  lemma ClassSizes(c: Class)
    ensures Size(0) == 16 && Size(7) == 2048 && (c < 7 ==> Size(c + 1) == 2 * Size(c))
  {
  }

  /** The first class that fits; none for empty buffers and those above 2048 bytes. */
  function ClassFor(len: nat): (r: Option<Class>)
    ensures r.Some? <==> 1 <= len <= 2048
    ensures r.Some? ==> len <= Size(r.value) && forall c: Class :: len <= Size(c) ==> r.value <= c
  {
    if len == 0 || len > 2048 then None
    else Some(if len <= 16 then 0 else if len <= 32 then 1 else if len <= 64 then 2 else if len <= 128 then 3
              else if len <= 256 then 4 else if len <= 512 then 5 else if len <= 1024 then 6 else 7)
  }

  /** A free block: its address and whether its page is locked. */
  datatype FreeBlock = FreeBlock(addr: nat, locked: bool)

  /** The free lists, every block ever carved with its class, the blocks handed out with
      the length asked for, and the contents of the pool's memory. */
  datatype World = World(
    free: seq<seq<FreeBlock>>, blocks: map<nat, Class>, live: map<nat, nat>, mem: map<nat, byte>)

  function ByteAt(mem: map<nat, byte>, a: nat): byte {
    if a in mem then mem[a] else 0
  }

  predicate Zero(mem: map<nat, byte>, from: nat, to: nat) {
    forall a :: from <= a < to ==> ByteAt(mem, a) == 0
  }

  predicate Listed(list: seq<FreeBlock>, a: nat) {
    exists i :: 0 <= i < |list| && list[i].addr == a
  }

  /** A free list names blocks of its class that are not in use, none of them twice. */
  ghost predicate ListOk(w: World, c: Class)
    requires |w.free| == 8
  {
    var list := w.free[c];
    && (forall i :: 0 <= i < |list| ==>
          list[i].addr in w.blocks && w.blocks[list[i].addr] == c && list[i].addr !in w.live)
    && (forall i, j :: 0 <= i < j < |list| ==> list[i].addr != list[j].addr)
  }

  /** A block is free or in use, and zero from the end of its used part on. */
  ghost predicate BlockOk(w: World, a: nat)
    requires |w.free| == 8 && a in w.blocks
  {
    var used := if a in w.live then w.live[a] else 0;
    && (a in w.live || Listed(w.free[w.blocks[a]], a))
    && used <= Size(w.blocks[a])
    && Zero(w.mem, a + used, a + Size(w.blocks[a]))
  }

  predicate Apart(w: World, a: nat, b: nat)
    requires a in w.blocks && b in w.blocks
  {
    a + Size(w.blocks[a]) <= b || b + Size(w.blocks[b]) <= a
  }

  ghost predicate Inv(w: World) {
    && |w.free| == 8
    && (forall c: Class :: ListOk(w, c))
    && (forall a :: a in w.blocks ==> BlockOk(w, a))
    && (forall a :: a in w.live ==> a in w.blocks && w.live[a] > 0)
    && (forall a, b :: a in w.blocks && b in w.blocks && a != b ==> Apart(w, a, b))
  }

  // ----- steps -----

  /** Nothing of the pool lies in `[from, to)`, and it reads as zero: what the operating
      system promises of a fresh mapping. */
  ghost predicate Unclaimed(w: World, from: nat, to: nat) {
    && (forall a :: a in w.blocks ==> a + Size(w.blocks[a]) <= from || to <= a)
    && Zero(w.mem, from, to)
  }

  function Carve(w: World, a: nat, c: Class, locked: bool): World
    requires |w.free| == 8
  {
    w.(free := w.free[c := w.free[c] + [FreeBlock(a, locked)]], blocks := w.blocks[a := c])
  }

  lemma CarveKeeps(w: World, a: nat, c: Class, locked: bool)
    requires Inv(w) && Unclaimed(w, a, a + Size(c))
    ensures Inv(Carve(w, a, c, locked))
  {
    var w' := Carve(w, a, c, locked);
    UnclaimedIsNew(w, a, c);
    forall d: Class
      ensures ListOk(w', d)
    {
      assert ListOk(w, d);
    }
    forall b | b in w'.blocks
      ensures BlockOk(w', b)
    {
      if b == a {
        assert w'.free[c][|w.free[c]|].addr == a;
      } else {
        assert BlockOk(w, b);
        ListedGrows(w.free[w.blocks[b]], FreeBlock(a, locked), b);
      }
    }
    forall b, d | b in w'.blocks && d in w'.blocks && b != d
      ensures Apart(w', b, d)
    {
      if b != a && d != a {
        assert Apart(w, b, d);
      }
    }
  }

  lemma UnclaimedIsNew(w: World, a: nat, c: Class)
    requires Unclaimed(w, a, a + Size(c))
    ensures a !in w.blocks
  {
    assert forall d: Class :: Size(d) >= 16;
  }

  /** Carving the top block leaves the rest of a mapping unclaimed. */
  lemma CarveTop(w: World, from: nat, a: nat, c: Class, locked: bool)
    requires |w.free| == 8 && from <= a && Unclaimed(w, from, a + Size(c))
    ensures Unclaimed(w, a, a + Size(c)) && Unclaimed(Carve(w, a, c, locked), from, a)
  {
  }

  lemma ListedGrows(list: seq<FreeBlock>, f: FreeBlock, a: nat)
    ensures Listed(list, a) ==> Listed(list + [f], a)
  {
    if Listed(list, a) {
      var i :| 0 <= i < |list| && list[i].addr == a;
      assert (list + [f])[i].addr == a;
    }
  }

  /** How many blocks a page of at least `pageSize` bytes is carved into. */
  function BlocksPerPage(pageSize: nat, c: Class): (n: nat)
    ensures n > 0 && n * Size(c) <= Max(pageSize, Size(c)) < (n + 1) * Size(c)
  {
    CountFits(Max(pageSize, Size(c)), Size(c));
    Max(pageSize, Size(c)) / Size(c)
  }

  /** The `n` blocks of `size` bytes from `base` up, highest address first. */
  function PageBlocks(base: nat, size: nat, n: nat, locked: bool): (s: seq<FreeBlock>)
    ensures |s| == n
    ensures n > 0 ==> s[n - 1] == FreeBlock(base, locked)
    decreases n
  {
    if n == 0 then [] else PageBlocks(base + size, size, n - 1, locked) + [FreeBlock(base, locked)]
  }

  /** They tile the memory they were carved from. */
  lemma {:induction false} PageBlocksTile(base: nat, size: nat, n: nat, locked: bool, j: nat)
    requires j < n
    ensures PageBlocks(base, size, n, locked)[n - 1 - j] == FreeBlock(base + j * size, locked)
    decreases n
  {
    if j > 0 {
      PageBlocksTile(base + size, size, n - 1, locked, j - 1);
      OneLess(j, size);
    }
  }

  /** The pool has grown by exactly these free blocks of class `c`. */
  ghost predicate Carved(w: World, w': World, c: Class, page: seq<FreeBlock>)
    requires |w.free| == 8
  {
    && w'.free == w.free[c := w.free[c] + page]
    && (forall a :: a in w'.blocks <==> a in w.blocks || Listed(page, a))
    && Extends(w, w')
  }

  lemma CarvedMore(w: World, m: World, c: Class, page: seq<FreeBlock>, a: nat, locked: bool)
    requires |w.free| == 8 && Carved(w, m, c, page) && a !in m.blocks
    ensures Carved(w, Carve(m, a, c, locked), c, page + [FreeBlock(a, locked)])
  {
    var more := page + [FreeBlock(a, locked)];
    assert (w.free[c] + page) + [FreeBlock(a, locked)] == w.free[c] + more;
    assert more[|page|].addr == a;
    forall b | Listed(page, b)
      ensures Listed(more, b)
    {
      ListedGrows(page, FreeBlock(a, locked), b);
    }
  }

  /** `n` blocks of a new page have been carved, down to `top`; the rest is still unclaimed. */
  ghost predicate Carving(start: World, w: World, c: Class, base: nat, top: nat, n: nat, locked: bool) {
    && Inv(start) && Inv(w) && Unclaimed(w, base, top)
    && Carved(start, w, c, PageBlocks(top, Size(c), n, locked))
  }

  lemma CarvingStarts(w: World, c: Class, base: nat, top: nat, end: nat, locked: bool)
    requires Inv(w) && top <= end && Unclaimed(w, base, end)
    ensures Carving(w, w, c, base, top, 0, locked)
  {
    assert w.free[c] + PageBlocks(top, Size(c), 0, locked) == w.free[c];
  }

  lemma CarvingGoesOn(start: World, w: World, c: Class, base: nat, top: nat, n: nat, locked: bool)
    requires base <= top && Carving(start, w, c, base, top + Size(c), n, locked)
    ensures Carving(start, Carve(w, top, c, locked), c, base, top, n + 1, locked)
  {
    CarveTop(w, base, top, c, locked);
    CarveKeeps(w, top, c, locked);
    UnclaimedIsNew(w, top, c);
    CarvedMore(start, w, c, PageBlocks(top + Size(c), Size(c), n, locked), top, locked);
  }

  /** Hand out the most recently freed block of a class. */
  function Take(w: World, c: Class, len: nat): World
    requires |w.free| == 8 && w.free[c] != []
  {
    var list := w.free[c];
    w.(free := w.free[c := list[..|list| - 1]], live := w.live[list[|list| - 1].addr := len])
  }

  lemma TakeKeeps(w: World, c: Class, len: nat)
    requires Inv(w) && w.free[c] != [] && 1 <= len <= Size(c)
    ensures Inv(Take(w, c, len))
    ensures var a := w.free[c][|w.free[c]| - 1].addr;
            a in w.blocks && w.blocks[a] == c && a !in w.live && Zero(w.mem, a, a + Size(c))
  {
    var w', list := Take(w, c, len), w.free[c];
    var last := |list| - 1;
    assert ListOk(w, c);
    var a := list[last].addr;
    assert BlockOk(w, a);
    forall d: Class
      ensures ListOk(w', d)
    {
      assert ListOk(w, d);
    }
    forall b | b in w'.blocks
      ensures BlockOk(w', b)
    {
      assert BlockOk(w, b);
      if b != a && b !in w.live && w.blocks[b] == c {
        var i :| 0 <= i < |list| && list[i].addr == b;
        assert w'.free[c][i].addr == b;
      }
    }
    forall b, d | b in w'.blocks && d in w'.blocks && b != d
      ensures Apart(w', b, d)
    {
      assert Apart(w, b, d);
    }
  }

  function Contents(w: World, a: nat): bytes
    requires a in w.live
  {
    seq<byte>(w.live[a], i requires 0 <= i => ByteAt(w.mem, a + i))
  }

  /** Memory after `data` has been stored at `a`. */
  function Written(mem: map<nat, byte>, a: nat, data: bytes): map<nat, byte> {
    if data == [] then mem
    else var n := |data| - 1; Written(mem, a, data[..n])[a + n := data[n]]
  }

  lemma {:induction false} WrittenAt(mem: map<nat, byte>, a: nat, data: bytes, x: nat)
    ensures ByteAt(Written(mem, a, data), x) == if a <= x < a + |data| then data[x - a] else ByteAt(mem, x)
  {
    if data != [] {
      WrittenAt(mem, a, data[..|data| - 1], x);
    }
  }

  /** Only the used part of the block at `a` has been written. */
  ghost predicate WritesOnly(w: World, w': World, a: nat) {
    && a in w.live && w' == w.(mem := w'.mem)
    && forall x: nat :: !(a <= x < a + w.live[a]) ==> ByteAt(w'.mem, x) == ByteAt(w.mem, x)
  }

  lemma WriteBlock(w: World, w': World, a: nat, b: nat)
    requires Inv(w) && WritesOnly(w, w', a) && b in w.blocks
    ensures BlockOk(w', b)
    ensures b != a && b in w.live ==> Contents(w', b) == Contents(w, b)
  {
    assert BlockOk(w, a) && BlockOk(w, b);
    assert b != a ==> Apart(w, a, b);
  }

  /** Writing inside one block disturbs no other and keeps the invariant. */
  lemma WriteKeeps(w: World, w': World, a: nat)
    requires Inv(w) && WritesOnly(w, w', a)
    ensures Inv(w')
    ensures forall b :: b in w.live && b != a ==> Contents(w', b) == Contents(w, b)
  {
    forall b | b in w.blocks
      ensures BlockOk(w', b)
      ensures b != a && b in w.live ==> Contents(w', b) == Contents(w, b)
    {
      WriteBlock(w, w', a, b);
    }
    forall d: Class
      ensures ListOk(w', d)
    {
      assert ListOk(w, d);
    }
    forall b, d | b in w'.blocks && d in w'.blocks && b != d
      ensures Apart(w', b, d)
    {
      assert Apart(w, b, d);
    }
  }

  lemma WrittenKeeps(w: World, a: nat, data: bytes)
    requires Inv(w) && a in w.live && |data| <= w.live[a]
    ensures var w' := w.(mem := Written(w.mem, a, data));
            && WritesOnly(w, w', a) && Inv(w')
            && forall x: nat :: a <= x < a + |data| ==> ByteAt(w'.mem, x) == data[x - a]
  {
    var w' := w.(mem := Written(w.mem, a, data));
    forall x: nat
      ensures ByteAt(w'.mem, x) == if a <= x < a + |data| then data[x - a] else ByteAt(w.mem, x)
    {
      WrittenAt(w.mem, a, data, x);
    }
    WriteKeeps(w, w', a);
  }

  /** Put a block back on its free list. */
  function Give(w: World, a: nat, locked: bool): World
    requires |w.free| == 8 && a in w.blocks
  {
    var c := w.blocks[a];
    w.(free := w.free[c := w.free[c] + [FreeBlock(a, locked)]], live := w.live - {a})
  }

  lemma GiveKeeps(w: World, a: nat, locked: bool)
    requires Inv(w) && a in w.live && Zero(w.mem, a, a + w.live[a])
    ensures Inv(Give(w, a, locked))
  {
    var w', c := Give(w, a, locked), w.blocks[a];
    forall d: Class
      ensures ListOk(w', d)
    {
      assert ListOk(w, d);
    }
    forall b | b in w'.blocks
      ensures BlockOk(w', b)
    {
      assert BlockOk(w, b);
      if b == a {
        assert w'.free[c][|w.free[c]|].addr == a;
      } else {
        ListedGrows(w.free[w.blocks[b]], FreeBlock(a, locked), b);
      }
    }
    forall b, d | b in w'.blocks && d in w'.blocks && b != d
      ensures Apart(w', b, d)
    {
      assert Apart(w, b, d);
    }
  }

  // ----- runs -----

  datatype Action =
    | DoCarve(a: nat, c: Class, locked: bool)
    | DoTake(c: Class, len: nat)
    | DoWrite(a: nat)
    | DoGive(a: nat, locked: bool)

  ghost predicate Next(w: World, w': World, action: Action) {
    && |w.free| == 8
    && match action
       case DoCarve(a, c, locked) => Unclaimed(w, a, a + Size(c)) && w' == Carve(w, a, c, locked)
       case DoTake(c, len) => w.free[c] != [] && 1 <= len <= Size(c) && w' == Take(w, c, len)
       case DoWrite(a) => WritesOnly(w, w', a)
       case DoGive(a, locked) =>
         a in w.live && a in w.blocks && Zero(w.mem, a, a + w.live[a]) && w' == Give(w, a, locked)
  }

  const EMPTY: World := World([[], [], [], [], [], [], [], []], map[], map[], map[])

  ghost predicate Run(ws: seq<World>, actions: seq<Action>) {
    && |ws| == |actions| + 1 && ws[0] == EMPTY
    && forall i :: 0 <= i < |actions| ==> Next(ws[i], ws[i + 1], actions[i])
  }

  lemma {:induction false} RunKeepsInv(ws: seq<World>, actions: seq<Action>, i: nat)
    requires Run(ws, actions) && i < |ws|
    ensures Inv(ws[i])
  {
    if i > 0 {
      RunKeepsInv(ws, actions, i - 1);
      assert Next(ws[i - 1], ws[i - 1 + 1], actions[i - 1]);
      match actions[i - 1] {
        case DoCarve(a, c, locked) => CarveKeeps(ws[i - 1], a, c, locked);
        case DoTake(c, len) => TakeKeeps(ws[i - 1], c, len);
        case DoWrite(a) => WriteKeeps(ws[i - 1], ws[i], a);
        case DoGive(a, locked) => GiveKeeps(ws[i - 1], a, locked);
      }
    }
  }

  /** In every run: blocks in use never overlap, are at least as long as was asked for, and
      every block carved is either in use or on the free list of its class, never both. */
  lemma PoolSafety(ws: seq<World>, actions: seq<Action>, i: nat)
    requires Run(ws, actions) && i < |ws|
    ensures var w := ws[i];
            && |w.free| == 8
            && (forall a :: a in w.live ==> a in w.blocks && 1 <= w.live[a] <= Size(w.blocks[a]))
            && (forall a, b :: a in w.live && b in w.live && a < b ==> a + Size(w.blocks[a]) <= b)
            && (forall a :: a in w.blocks ==> (a in w.live <==> !Listed(w.free[w.blocks[a]], a)))
            && (forall c: Class, n :: 0 <= n < |w.free[c]| ==> w.free[c][n].addr in w.blocks)
  {
    RunKeepsInv(ws, actions, i);
    var w := ws[i];
    forall a | a in w.blocks
      ensures a in w.live <==> !Listed(w.free[w.blocks[a]], a)
      ensures a in w.live ==> w.live[a] <= Size(w.blocks[a])
    {
      assert BlockOk(w, a) && ListOk(w, w.blocks[a]);
    }
    forall a, b | a in w.live && b in w.live && a < b
      ensures a + Size(w.blocks[a]) <= b
    {
      assert Apart(w, a, b);
      assert forall c: Class :: Size(c) >= 16;
    }
    forall c: Class, n | 0 <= n < |w.free[c]|
      ensures w.free[c][n].addr in w.blocks
    {
      assert ListOk(w, c);
    }
  }

  /** A block is all zero at the moment it is handed out, whatever it held before. */
  lemma HandedOutZero(ws: seq<World>, actions: seq<Action>, i: nat, c: Class, len: nat)
    requires Run(ws, actions) && i < |actions| && actions[i] == DoTake(c, len)
    ensures exists a :: a in ws[i + 1].live && a !in ws[i].live && Zero(ws[i + 1].mem, a, a + Size(c))
  {
    RunKeepsInv(ws, actions, i);
    assert Next(ws[i], ws[i + 1], actions[i]);
    TakeKeeps(ws[i], c, len);
    var list := ws[i].free[c];
    assert list[|list| - 1].addr in ws[i + 1].live;
  }

  // ----- the implementation -----

  datatype Block = Block(addr: nat, class_: Class, locked: bool)

  /** A fresh mapping, and whether the operating system locked it. */
  datatype NewPage = NewPage(base: nat, locked: bool)

  class Blocks {
    const pageSize: nat
    var free: seq<seq<FreeBlock>>
    var mem: map<nat, byte>
    ghost var blocks: map<nat, Class>
    ghost var live: map<nat, nat>

    ghost function State(): World
      reads this
    {
      World(free, blocks, live, mem)
    }

    ghost predicate Valid()
      reads this
    {
      Inv(State())
    }

    constructor (pageSize: nat)
      ensures this.pageSize == pageSize && State() == EMPTY && Valid()
    {
      this.pageSize := pageSize;
      free, mem, blocks, live := [[], [], [], [], [], [], [], []], map[], map[], map[];
    }

    /** What a new page for class `c` may be: unclaimed memory, or a refusal. */
    ghost predicate Offer(c: Class, offer: Option<NewPage>)
      reads this
    {
      offer.Some? ==> Unclaimed(State(), offer.value.base, offer.value.base + Max(pageSize, Size(c)))
    }

    /** Map one more page and carve all of it into blocks, highest address first. */
    method Grow(c: Class, offer: Option<NewPage>) returns (ok: bool)
      requires Valid() && Offer(c, offer)
      modifies this`free, this`blocks
      ensures Valid() && ok == offer.Some?
      ensures !ok ==> State() == old(State())
      ensures ok ==> Carved(old(State()), State(), c, NewBlocks(c, offer.value, pageSize))
    {
      if offer.None? {
        return false;
      }
      CarvePage(c, offer.value.base, offer.value.locked);
      return true;
    }

    method CarvePage(c: Class, base: nat, locked: bool)
      requires Valid() && Unclaimed(State(), base, base + Max(pageSize, Size(c)))
      modifies this`free, this`blocks
      ensures Valid()
      ensures Carved(old(State()), State(), c, PageBlocks(base, Size(c), BlocksPerPage(pageSize, c), locked))
    {
      ghost var w := State();
      var count := BlocksPerPage(pageSize, c);
      var i: nat, top: nat := count, base + count * Size(c);
      CarvingStarts(w, c, base, top, base + Max(pageSize, Size(c)), locked);
      while i > 0
        invariant 0 <= i <= count
        invariant top == base + i * Size(c)
        invariant Carving(w, State(), c, base, top, count - i, locked)
      {
        OneLess(i, Size(c));
        top := top - Size(c);
        CarveOne(c, base, top, locked, w, count - i);
        i := i - 1;
      }
    }

    /** Push the topmost block of what is left of a new page. */
    method CarveOne(c: Class, ghost base: nat, top: nat, locked: bool, ghost start: World, ghost n: nat)
      requires base <= top && Carving(start, State(), c, base, top + Size(c), n, locked)
      modifies this`free, this`blocks
      ensures Carving(start, State(), c, base, top, n + 1, locked)
    {
      CarvingGoesOn(start, State(), c, base, top, n, locked);
      ghost var w := State();
      free := free[c := free[c] + [FreeBlock(top, locked)]];
      blocks := blocks[top := c];
      assert State() == Carve(w, top, c, locked);
    }

    /** A zeroed block of at least `len` bytes, if `len` is in range and there is memory. */
    method Alloc(len: nat, offer: Option<NewPage>) returns (r: Option<Block>)
      requires Valid()
      requires forall c: Class :: Offer(c, offer)
      modifies this
      ensures Valid()
      ensures r.None? <==> ClassFor(len).None? || (old(free)[ClassFor(len).value] == [] && offer.None?)
      ensures r.None? ==> State() == old(State())
      ensures r.Some? ==> ClassFor(len) == Some(r.value.class_) && HandsOut(old(State()), State(), r.value, len)
      ensures r.Some? ==> Takes(old(free), free, r.value, offer, pageSize)
    {
      var class_ := ClassFor(len);
      if class_.None? {
        return None;
      }
      var stocked := Restock(class_.value, offer);
      if !stocked {
        return None;
      }
      r := Pop(class_.value, len);
    }

    /** Make sure the free list of a class is not empty. */
    method Restock(c: Class, offer: Option<NewPage>) returns (ok: bool)
      requires Valid() && Offer(c, offer)
      modifies this`free, this`blocks
      ensures Valid() && Extends(old(State()), State()) && (ok <==> free[c] != [])
      ensures free == old(free)[c := Stock(old(free), c, offer, pageSize)]
      ensures !ok ==> State() == old(State())
    {
      if free[c] != [] {
        return true;
      }
      ok := Grow(c, offer);
      if ok {
        assert [] + NewBlocks(c, offer.value, pageSize) == NewBlocks(c, offer.value, pageSize);
      }
    }

    method Pop(c: Class, len: nat) returns (r: Option<Block>)
      requires Valid() && free[c] != [] && 1 <= len <= Size(c)
      modifies this`free, this`live
      ensures Valid() && r.Some? && r.value.class_ == c && HandsOut(old(State()), State(), r.value, len)
      ensures var list := old(free)[c];
              FreeBlock(r.value.addr, r.value.locked) == list[|list| - 1] && free == old(free)[c := list[..|list| - 1]]
    {
      ghost var w := State();
      TakeKeeps(w, c, len);
      var last := free[c][|free[c]| - 1];
      free := free[c := free[c][..|free[c]| - 1]];
      live := live[last.addr := len];
      assert State() == Take(w, c, len);
      return Some(Block(last.addr, c, last.locked));
    }

    /** Write `data` over the start of a block in use. */
    method Fill(a: nat, data: bytes)
      requires Valid() && a in live && |data| <= live[a]
      modifies this`mem
      ensures Valid() && WritesOnly(old(State()), State(), a)
      ensures forall x: nat :: a <= x < a + |data| ==> ByteAt(mem, x) == data[x - a]
    {
      WrittenKeeps(State(), a, data);
      StoreBytes(a, data);
    }

    method StoreBytes(a: nat, data: bytes)
      modifies this`mem
      ensures mem == Written(old(mem), a, data)
    {
      for i := 0 to |data|
        invariant mem == Written(old(mem), a, data[..i])
      {
        assert data[..i + 1][..i] == data[..i];
        mem := mem[a + i := data[i]];
      }
      assert data[..|data|] == data;
    }

    /** The pooled case of `LockedBytes::from_slice`. */
    method FromSlice(data: bytes, offer: Option<NewPage>) returns (r: Option<Block>)
      requires Valid()
      requires forall c: Class :: Offer(c, offer)
      modifies this
      ensures Valid()
      ensures r.None? <==> ClassFor(|data|).None? || (old(free)[ClassFor(|data|).value] == [] && offer.None?)
      ensures r.None? ==> State() == old(State())
      ensures r.Some? ==> Takes(old(free), free, r.value, offer, pageSize)
      ensures r.Some? ==>
                && ClassFor(|data|) == Some(r.value.class_)
                && r.value.addr in blocks && blocks[r.value.addr] == r.value.class_
                && live == old(live)[r.value.addr := |data|] && r.value.addr !in old(live)
                && Contents(State(), r.value.addr) == data
                && Undisturbed(old(State()), State(), r.value.addr)
    {
      r := Alloc(|data|, offer);
      if r.Some? {
        ghost var w := State();
        Fill(r.value.addr, data);
        WriteKeeps(w, State(), r.value.addr);
        UndisturbedAfter(old(State()), w, State(), r.value, |data|);
      }
    }

    /** The pooled case of `LockedBytes::drop`: wipe the used bytes, then return the block. */
    method Drop(b: Block, len: nat)
      requires Valid() && b.addr in live && live[b.addr] == len && b.addr in blocks && blocks[b.addr] == b.class_
      modifies this
      ensures Valid() && live == old(live) - {b.addr} && blocks == old(blocks)
      ensures free == old(free)[b.class_ := old(free)[b.class_] + [FreeBlock(b.addr, b.locked)]]
      ensures Zero(mem, b.addr, b.addr + Size(b.class_))
      ensures Undisturbed(old(State()), State(), b.addr)
    {
      ghost var w := State();
      Fill(b.addr, Zeros(len));
      ghost var wiped := State();
      WipedIsZero(wiped, b.addr);
      WriteKeeps(w, wiped, b.addr);
      GiveKeeps(wiped, b.addr, b.locked);
      free := free[b.class_ := free[b.class_] + [FreeBlock(b.addr, b.locked)]];
      live := live - {b.addr};
      assert State() == Give(wiped, b.addr, b.locked);
    }

    /** A buffer dropped and one of the same class made after it: the same block, page lock
        included. */
    method Reuse(b: Block, len: nat, data: bytes) returns (r: Option<Block>)
      requires Valid() && b.addr in live && live[b.addr] == len && b.addr in blocks && blocks[b.addr] == b.class_
      requires ClassFor(|data|) == Some(b.class_)
      modifies this
      ensures Valid() && r == Some(b) && free == old(free)
      ensures b.addr in live && Contents(State(), b.addr) == data
    {
      Drop(b, len);
      r := FromSlice(data, None);
    }
  }

  /** The blocks of a new page. */
  function NewBlocks(c: Class, page: NewPage, pageSize: nat): (s: seq<FreeBlock>)
    ensures s != [] && s[|s| - 1] == FreeBlock(page.base, page.locked)
  {
    PageBlocks(page.base, Size(c), BlocksPerPage(pageSize, c), page.locked)
  }

  /** What there is to hand out of a class: its free list or, if that is empty, a new page. */
  function Stock(free: seq<seq<FreeBlock>>, c: Class, offer: Option<NewPage>, pageSize: nat): seq<FreeBlock>
    requires |free| == 8
  {
    if free[c] != [] then free[c] else if offer.None? then [] else NewBlocks(c, offer.value, pageSize)
  }

  /** The block comes off the end of the stock, with its lock flag, and the rest stays. */
  ghost predicate Takes(free: seq<seq<FreeBlock>>, free': seq<seq<FreeBlock>>, b: Block,
                        offer: Option<NewPage>, pageSize: nat)
    requires |free| == 8
  {
    var stock := Stock(free, b.class_, offer, pageSize);
    && stock != [] && stock[|stock| - 1] == FreeBlock(b.addr, b.locked)
    && free' == free[b.class_ := stock[..|stock| - 1]]
  }

  /** Blocks already carved stay as they are, in use or not; nothing is written. */
  ghost predicate Extends(w: World, w': World) {
    && w'.live == w.live && w'.mem == w.mem
    && forall a :: a in w.blocks ==> a in w'.blocks && w'.blocks[a] == w.blocks[a]
  }

  /** The block was not in use, is now, has the right size, and is zero; nothing was written. */
  ghost predicate HandsOut(w: World, w': World, b: Block, len: nat) {
    && b.addr !in w.live && w'.live == w.live[b.addr := len] && w'.mem == w.mem
    && b.addr in w'.blocks && w'.blocks[b.addr] == b.class_ && len <= Size(b.class_)
    && Zero(w'.mem, b.addr, b.addr + Size(b.class_))
  }

  /** Every other block in use reads as before. */
  ghost predicate Undisturbed(w: World, w': World, a: nat) {
    forall b :: b in w.live && b != a ==> b in w'.live && Contents(w', b) == Contents(w, b)
  }

  lemma UndisturbedAfter(w: World, m: World, n: World, b: Block, len: nat)
    requires HandsOut(w, m, b, len) && n == m.(mem := n.mem)
    requires forall c :: c in m.live && c != b.addr ==> Contents(n, c) == Contents(m, c)
    ensures Undisturbed(w, n, b.addr)
  {
    forall c | c in w.live && c != b.addr
      ensures Contents(n, c) == Contents(w, c)
    {
      assert Contents(m, c) == Contents(w, c);
    }
  }

  lemma WipedIsZero(w: World, a: nat)
    requires Inv(w) && a in w.live && Zero(w.mem, a, a + w.live[a])
    ensures a in w.blocks && Zero(w.mem, a, a + Size(w.blocks[a]))
  {
    assert BlockOk(w, a);
  }

  lemma CountFits(page: nat, size: nat)
    requires 0 < size <= page
    ensures 0 < page / size && (page / size) * size <= page < (page / size + 1) * size
  {
  }
}
