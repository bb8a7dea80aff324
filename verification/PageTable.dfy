/** The process-wide page table: a reference count per page that has to agree with an
    operating-system lock that does not nest. A page is named by its number, that is its
    start address divided by the page size. */
module PageTable {
  import opened Core

  type Positive = n: nat | n > 0 witness 1

  datatype Extent = Extent(addr: nat, len: nat)

  /** A live, non-empty allocation. */
  type Region = r: Extent | r.len > 0 && r.addr + r.len - 1 <= USIZE_MAX witness Extent(0, 1)

  /** First and last page of a region (`page_span`, with its saturating add). */
  function First(r: Region, page: Positive): nat {
    r.addr / page
  }

  function Last(r: Region, page: Positive): nat {
    Min(r.addr + r.len - 1, USIZE_MAX) / page
  }

  predicate Touches(r: Region, page: Positive, k: nat) {
    First(r, page) <= k <= Last(r, page)
  }

  /** The span is exactly the pages that share a byte with the region. */
  lemma TouchesIffSharesByte(r: Region, page: Positive, k: nat)
    ensures Touches(r, page, k) <==> exists b :: r.addr <= b < r.addr + r.len && b / page == k
  {
    var end := r.addr + r.len - 1;
    if Touches(r, page, k) {
      if k == First(r, page) {
        assert r.addr / page == k;
      } else if k == Last(r, page) {
        assert end / page == k;
      } else {
        StartOfPage(k, page, r.addr, end);
        assert (k * page) / page == k;
      }
    }
    if b :| r.addr <= b < r.addr + r.len && b / page == k {
      DivMonotone(r.addr, b, page);
      DivMonotone(b, end, page);
    }
  }

  lemma DivMonotone(x: nat, y: nat, d: nat)
    requires d > 0 && x <= y
    ensures x / d <= y / d
  {
    var p, q := x / d, y / d;
    assert d * p <= x && y < d * q + d;
    assert d * (q + 1) == d * q + d;
    ProductMonotone(d, q + 1, p);
  }

  lemma StartOfPage(k: nat, page: nat, lo: nat, hi: nat)
    requires page > 0 && lo / page < k < hi / page
    ensures lo <= k * page <= hi && (k * page) / page == k
  {
    var p, q := lo / page, hi / page;
    assert lo < page * p + page && page * q <= hi;
    assert page * (p + 1) == page * p + page;
    ProductMonotone(page, p + 1, k);
    ProductMonotone(page, k, q);
    MulDiv(k, page);
  }

  lemma MulDiv(k: nat, d: nat)
    requires d > 0
    ensures (k * d) / d == k
  {
    var q := (k * d) / d;
    assert d * q <= k * d < d * q + d;
    assert d * (q + 1) == d * q + d && d * (k + 1) == d * k + d;
    ProductMonotone(d, k + 1, q);
    ProductMonotone(d, q + 1, k);
  }

  // ----- the table as a state machine -----

  datatype PageState = PageState(refs: nat, locked: bool, noDump: bool)

  type Table = map<nat, PageState>

  /** The table, what the operating system holds for this module, what it holds because it
      last refused to give it back, the acquisitions not yet released (each with its own
      ticket), and those that reported full success. */
  datatype World = World(
    table: Table, osLocked: set<nat>, osNoDump: set<nat>, leftLocked: set<nat>, leftNoDump: set<nat>,
    live: map<nat, Region>, pinned: set<nat>)

  /** The live regions that touch page `k`. */
  function Users(live: map<nat, Region>, page: Positive, k: nat): set<nat> {
    set t | t in live && Touches(live[t], page, k)
  }

  /** The table entry for a page says how many live regions touch it, exists only if there
      is one, and knows what the operating system holds, but for what it would not give back. */
  ghost predicate PageOk(w: World, page: Positive, k: nat) {
    && (k in w.table <==> Users(w.live, page, k) != {})
    && (k in w.table ==> w.table[k].refs == |Users(w.live, page, k)|)
    && (k in w.osLocked <==> (k in w.table && w.table[k].locked) || k in w.leftLocked)
    && (k in w.osNoDump <==> (k in w.table && w.table[k].noDump) || k in w.leftNoDump)
  }

  /** What was fully locked still is. */
  ghost predicate PinnedOk(w: World, page: Positive, t: nat) {
    t in w.live && forall k :: Touches(w.live[t], page, k) ==> k in w.osLocked
  }

  ghost predicate Inv(w: World, page: Positive) {
    && (forall k: nat :: PageOk(w, page, k))
    && (forall t :: t in w.pinned ==> PinnedOk(w, page, t))
  }

  /** The pages for which the operating system grants what it is asked, about locking and about
      dumps. */
  datatype Grants = Grants(lock: set<nat>, noDump: set<nat>)

  function StateOf(table: Table, k: nat): PageState {
    if k in table then table[k] else PageState(0, false, false)
  }

  /** What `acquire_region` does to page `k`: one more reference, and a page that was not
      locked (or not excluded from dumps) becomes so if that is granted. */
  ghost predicate TakenAt(w: World, w': World, k: nat, g: Grants) {
    var before := StateOf(w.table, k);
    && k in w'.table
    && w'.table[k].refs == before.refs + 1
    && w'.table[k].locked == (before.locked || k in g.lock)
    && w'.table[k].noDump == (before.noDump || k in g.noDump)
    && (k in w'.osLocked <==> k in w.osLocked || (!before.locked && w'.table[k].locked))
    && (k in w'.osNoDump <==> k in w.osNoDump || (!before.noDump && w'.table[k].noDump))
    && SameLeft(w, w', k)
  }

  /** What `release_region` does to page `k`: one reference less; a page without any is
      forgotten, and handed back to the operating system if it was held. */
  ghost predicate DroppedAt(w: World, w': World, k: nat, g: Grants) {
    if k !in w.table then SameAt(w, w', k)
    else
      var before := w.table[k];
      var gone := before.refs <= 1;
      && (k in w'.table <==> !gone)
      && (!gone ==> w'.table[k] == PageState(before.refs - 1, before.locked, before.noDump))
      && GivenBack(gone && before.locked, k in g.lock, w.osLocked, w'.osLocked, w.leftLocked, w'.leftLocked, k)
      && GivenBack(gone && before.noDump, k in g.noDump, w.osNoDump, w'.osNoDump, w.leftNoDump, w'.leftNoDump, k)
  }

  /** A page the operating system is asked to give back is given back, or left as it is. */
  ghost predicate GivenBack(asked: bool, granted: bool, os: set<nat>, os': set<nat>, left: set<nat>, left': set<nat>,
                            k: nat)
  {
    if asked then
      (k in os' <==> k in os && !granted) && (k in left' <==> k in os && !granted)
    else
      (k in os' <==> k in os) && (k in left' <==> k in left)
  }

  ghost predicate SameLeft(w: World, w': World, k: nat) {
    (k in w'.leftLocked <==> k in w.leftLocked) && (k in w'.leftNoDump <==> k in w.leftNoDump)
  }

  ghost predicate SameAt(w: World, w': World, k: nat) {
    && (k in w'.table <==> k in w.table)
    && (k in w'.table ==> w'.table[k] == w.table[k])
    && (k in w'.osLocked <==> k in w.osLocked)
    && (k in w'.osNoDump <==> k in w.osNoDump)
    && SameLeft(w, w', k)
  }

  ghost predicate TakenIn(w: World, w': World, lo: nat, hi: nat, k: nat, g: Grants) {
    if lo <= k < hi then TakenAt(w, w', k, g) else SameAt(w, w', k)
  }

  ghost predicate DroppedIn(w: World, w': World, lo: nat, hi: nat, k: nat, g: Grants) {
    if lo <= k < hi then DroppedAt(w, w', k, g) else SameAt(w, w', k)
  }

  /** The pages from `lo` up to (not including) `hi` have been taken, the others left alone. */
  ghost predicate Taken(w: World, w': World, lo: nat, hi: nat, g: Grants) {
    forall k: nat :: TakenIn(w, w', lo, hi, k, g)
  }

  ghost predicate Dropped(w: World, w': World, lo: nat, hi: nat, g: Grants) {
    forall k: nat :: DroppedIn(w, w', lo, hi, k, g)
  }

  ghost predicate AllLocked(table: Table, lo: nat, hi: nat) {
    forall k :: lo <= k < hi ==> k in table && table[k].locked
  }

  ghost predicate AcquireStep(w: World, w': World, page: Positive, t: nat, r: Region, allLocked: bool, g: Grants) {
    && t !in w.live
    && Taken(w, w', First(r, page), Last(r, page) + 1, g)
    && w'.live == w.live[t := r]
    && (allLocked <==> AllLocked(w'.table, First(r, page), Last(r, page) + 1))
    && w'.pinned == w.pinned + (if allLocked then {t} else {})
  }

  ghost predicate ReleaseStep(w: World, w': World, page: Positive, t: nat, g: Grants) {
    && t in w.live
    && Dropped(w, w', First(w.live[t], page), Last(w.live[t], page) + 1, g)
    && w'.live == w.live - {t}
    && w'.pinned == w.pinned - {t}
  }

  lemma UsersAdd(live: map<nat, Region>, page: Positive, t: nat, r: Region, k: nat)
    requires t !in live
    ensures Users(live[t := r], page, k) == Users(live, page, k) + (if Touches(r, page, k) then {t} else {})
    ensures t !in Users(live, page, k)
  {
  }

  lemma UsersRemove(live: map<nat, Region>, page: Positive, t: nat, k: nat)
    requires t in live
    ensures Users(live - {t}, page, k) == Users(live, page, k) - {t}
    ensures t in Users(live, page, k) <==> Touches(live[t], page, k)
  {
  }

  lemma AcquirePage(w: World, w': World, page: Positive, t: nat, r: Region, allLocked: bool, k: nat, g: Grants)
    requires PageOk(w, page, k) && AcquireStep(w, w', page, t, r, allLocked, g)
    ensures PageOk(w', page, k)
    ensures k in w.osLocked ==> k in w'.osLocked
    ensures allLocked && Touches(r, page, k) ==> k in w'.osLocked
  {
    UsersAdd(w.live, page, t, r, k);
    assert TakenIn(w, w', First(r, page), Last(r, page) + 1, k, g);
    if Touches(r, page, k) {
      assert t in Users(w'.live, page, k);
    }
  }

  lemma AcquireKeeps(w: World, w': World, page: Positive, t: nat, r: Region, allLocked: bool, g: Grants)
    requires Inv(w, page) && AcquireStep(w, w', page, t, r, allLocked, g)
    ensures Inv(w', page)
  {
    forall k: nat
      ensures PageOk(w', page, k)
      ensures k in w.osLocked ==> k in w'.osLocked
      ensures allLocked && Touches(r, page, k) ==> k in w'.osLocked
    {
      AcquirePage(w, w', page, t, r, allLocked, k, g);
    }
    forall u | u in w'.pinned
      ensures PinnedOk(w', page, u)
    {
      if u in w.pinned {
        assert PinnedOk(w, page, u);
      }
    }
  }

  lemma ReleasePage(w: World, w': World, page: Positive, t: nat, k: nat, g: Grants)
    requires PageOk(w, page, k) && ReleaseStep(w, w', page, t, g)
    ensures PageOk(w', page, k)
    ensures k in w.osLocked && Users(w'.live, page, k) != {} ==> k in w'.osLocked
  {
    UsersRemove(w.live, page, t, k);
    assert DroppedIn(w, w', First(w.live[t], page), Last(w.live[t], page) + 1, k, g);
    if Touches(w.live[t], page, k) {
      assert |Users(w.live, page, k)| == |Users(w'.live, page, k)| + 1;
    }
  }

  lemma ReleaseKeeps(w: World, w': World, page: Positive, t: nat, g: Grants)
    requires Inv(w, page) && ReleaseStep(w, w', page, t, g)
    ensures Inv(w', page)
  {
    forall k: nat
      ensures PageOk(w', page, k)
      ensures k in w.osLocked && Users(w'.live, page, k) != {} ==> k in w'.osLocked
    {
      ReleasePage(w, w', page, t, k, g);
    }
    forall u | u in w'.pinned
      ensures PinnedOk(w', page, u)
    {
      assert PinnedOk(w, page, u);
      forall k: nat | Touches(w'.live[u], page, k)
        ensures k in w'.osLocked
      {
        assert u in Users(w'.live, page, k);
      }
    }
  }

  /** Page `k` is locked as far as the table knows. */
  predicate KnownLocked(w: World, k: nat) {
    StateOf(w.table, k).locked
  }

  predicate KnownNoDump(w: World, k: nat) {
    StateOf(w.table, k).noDump
  }

  /** Every page of an acquired region is locked, and excluded from dumps, exactly if it was or
      that is granted now; the acquisition is a success exactly if all are locked. */
  lemma AcquiredAsGranted(w: World, w': World, page: Positive, t: nat, r: Region, allLocked: bool, g: Grants)
    requires Inv(w, page) && AcquireStep(w, w', page, t, r, allLocked, g)
    ensures forall k :: Touches(r, page, k) ==>
              && (KnownLocked(w', k) <==> KnownLocked(w, k) || k in g.lock)
              && (KnownNoDump(w', k) <==> KnownNoDump(w, k) || k in g.noDump)
              && (KnownLocked(w', k) ==> k in w'.osLocked) && (KnownNoDump(w', k) ==> k in w'.osNoDump)
    ensures allLocked <==> forall k :: Touches(r, page, k) ==> KnownLocked(w, k) || k in g.lock
  {
    AcquireKeeps(w, w', page, t, r, allLocked, g);
    var lo, hi := First(r, page), Last(r, page) + 1;
    forall k: nat | Touches(r, page, k)
      ensures KnownLocked(w', k) <==> KnownLocked(w, k) || k in g.lock
      ensures KnownNoDump(w', k) <==> KnownNoDump(w, k) || k in g.noDump
      ensures (KnownLocked(w', k) ==> k in w'.osLocked) && (KnownNoDump(w', k) ==> k in w'.osNoDump)
    {
      assert TakenIn(w, w', lo, hi, k, g) && PageOk(w', page, k);
    }
    AllLockedMeans(w', r, page);
  }

  lemma AllLockedMeans(w: World, r: Region, page: Positive)
    ensures AllLocked(w.table, First(r, page), Last(r, page) + 1) <==>
            forall k :: Touches(r, page, k) ==> KnownLocked(w, k)
  {
    var lo, hi := First(r, page), Last(r, page) + 1;
    if forall k :: Touches(r, page, k) ==> KnownLocked(w, k) {
      forall k | lo <= k < hi
        ensures k in w.table && w.table[k].locked
      {
        assert Touches(r, page, k) ==> KnownLocked(w, k);
      }
    }
    if AllLocked(w.table, lo, hi) {
      forall k: nat | Touches(r, page, k)
        ensures KnownLocked(w, k)
      {
        assert lo <= k < hi;
      }
    }
  }

  /** The pages of the region that the operating system granted to lock are locked. */
  ghost predicate LockedAsGranted(w: World, page: Positive, r: Region, g: Grants) {
    forall k :: Touches(r, page, k) && k in g.lock ==> k in w.osLocked
  }

  /** A page that still has users stays locked. */
  ghost predicate KeepsUsed(w: World, w': World, page: Positive) {
    forall k: nat :: k in w.osLocked && Users(w'.live, page, k) != {} ==> k in w'.osLocked
  }

  lemma ReleaseKeepsUsed(w: World, w': World, page: Positive, t: nat, g: Grants)
    requires Inv(w, page) && ReleaseStep(w, w', page, t, g)
    ensures KeepsUsed(w, w', page)
  {
    forall k: nat | k in w.osLocked && Users(w'.live, page, k) != {}
      ensures k in w'.osLocked
    {
      ReleasePage(w, w', page, t, k, g);
    }
  }

  lemma LockedWhileUsed(w: World, w': World, page: Positive, t: nat, r: Region, g: Grants)
    requires LockedAsGranted(w, page, r, g) && KeepsUsed(w, w', page) && t in w'.live && w'.live[t] == r
    ensures LockedAsGranted(w', page, r, g)
  {
    forall k: nat | Touches(r, page, k) && k in g.lock
      ensures k in w'.osLocked
    {
      assert t in Users(w'.live, page, k);
    }
  }

  /** A page that nobody uses any more is given back exactly if that is granted. */
  lemma ReleasedAsGranted(w: World, w': World, page: Positive, t: nat, k: nat, g: Grants)
    requires Inv(w, page) && ReleaseStep(w, w', page, t, g)
    requires Touches(w.live[t], page, k) && Users(w'.live, page, k) == {}
    ensures KnownLocked(w, k) ==> (k in w'.osLocked <==> k !in g.lock)
    ensures KnownNoDump(w, k) ==> (k in w'.osNoDump <==> k !in g.noDump)
  {
    ReleaseKeeps(w, w', page, t, g);
    assert PageOk(w, page, k) && PageOk(w', page, k);
    assert DroppedIn(w, w', First(w.live[t], page), Last(w.live[t], page) + 1, k, g);
  }

  // ----- runs -----

  datatype Action = Acquire(t: nat, r: Region, allLocked: bool, g: Grants) | Release(t: nat, g: Grants)

  ghost predicate Next(w: World, w': World, page: Positive, a: Action) {
    match a
    case Acquire(t, r, allLocked, g) => AcquireStep(w, w', page, t, r, allLocked, g)
    case Release(t, g) => ReleaseStep(w, w', page, t, g)
  }

  const EMPTY: World := World(map[], {}, {}, {}, {}, map[], {})

  /** A history of matched calls, starting from an empty table. */
  ghost predicate Run(ws: seq<World>, actions: seq<Action>, page: Positive) {
    && |ws| == |actions| + 1 && ws[0] == EMPTY
    && forall i :: 0 <= i < |actions| ==> Next(ws[i], ws[i + 1], page, actions[i])
  }

  /** Whatever the operating system refuses, the invariant holds after every call. */
  lemma {:induction false} RunKeepsInv(ws: seq<World>, actions: seq<Action>, page: Positive, i: nat)
    requires Run(ws, actions, page) && i < |ws|
    ensures Inv(ws[i], page)
  {
    if i > 0 {
      RunKeepsInv(ws, actions, page, i - 1);
      assert Next(ws[i - 1], ws[i - 1 + 1], page, actions[i - 1]);
      match actions[i - 1] {
        case Acquire(t, r, allLocked, g) => AcquireKeeps(ws[i - 1], ws[i], page, t, r, allLocked, g);
        case Release(t, g) => ReleaseKeeps(ws[i - 1], ws[i], page, t, g);
      }
    }
  }

  /** A region whose acquisition reported success keeps all its pages locked by the
      operating system until its own release, whatever other calls come between. */
  lemma {:induction false} LockedUntilReleased(
    ws: seq<World>, actions: seq<Action>, page: Positive, i: nat, j: nat, t: nat, r: Region)
    requires Run(ws, actions, page) && i < j < |ws|
    requires actions[i].Acquire? && actions[i].t == t && actions[i].r == r && actions[i].allLocked
    requires forall n :: i < n < j ==> !(actions[n].Release? && actions[n].t == t)
    ensures t in ws[j].pinned && t in ws[j].live && ws[j].live[t] == r
    ensures forall k :: Touches(r, page, k) ==> k in ws[j].osLocked
  {
    assert Next(ws[j - 1], ws[j - 1 + 1], page, actions[j - 1]);
    if j > i + 1 {
      LockedUntilReleased(ws, actions, page, i, j - 1, t, r);
    }
    RunKeepsInv(ws, actions, page, j);
    assert PinnedOk(ws[j], page, t);
  }

  /** When every call has been matched the table is empty, and the only pages still held are
      those the operating system last refused to take back: none, if it refused none. */
  lemma NothingLeftBehind(ws: seq<World>, actions: seq<Action>, page: Positive, i: nat)
    requires Run(ws, actions, page) && i < |ws| && ws[i].live == map[]
    ensures ws[i].table == map[] && ws[i].pinned == {}
    ensures ws[i].osLocked == ws[i].leftLocked && ws[i].osNoDump == ws[i].leftNoDump
    ensures ws[i].leftLocked == ws[i].leftNoDump == {} ==> ws[i] == EMPTY
  {
    RunKeepsInv(ws, actions, page, i);
    forall k: nat
      ensures k !in ws[i].table
      ensures k in ws[i].osLocked <==> k in ws[i].leftLocked
      ensures k in ws[i].osNoDump <==> k in ws[i].leftNoDump
    {
      assert PageOk(ws[i], page, k) && Users(ws[i].live, page, k) == {};
    }
    forall t
      ensures t !in ws[i].pinned
    {
      assert t in ws[i].pinned ==> PinnedOk(ws[i], page, t);
    }
    assert ws[i].table == map[];
  }

  // ----- the implementation -----

  /** What the operating system holds, and what it was left holding, after it was asked for
      page `k` back. */
  function Given(granted: bool, os: set<nat>, k: nat): set<nat> {
    if granted then os - {k} else os
  }

  function Left(granted: bool, os: set<nat>, left: set<nat>, k: nat): set<nat> {
    if granted || k !in os then left - {k} else left + {k}
  }

  class Pages {
    const page: Positive
    var table: Table
    // What the operating system holds, and who asked for it.
    ghost var osLocked: set<nat>
    ghost var osNoDump: set<nat>
    ghost var leftLocked: set<nat>
    ghost var leftNoDump: set<nat>
    ghost var live: map<nat, Region>
    ghost var pinned: set<nat>

    ghost function State(): World
      reads this
    {
      World(table, osLocked, osNoDump, leftLocked, leftNoDump, live, pinned)
    }

    ghost predicate Valid()
      reads this
    {
      Inv(State(), page)
    }

    constructor (page: Positive)
      ensures this.page == page && State() == EMPTY && Valid()
    {
      this.page := page;
      table, live, pinned := map[], map[], {};
      osLocked, osNoDump, leftLocked, leftNoDump := {}, {}, {}, {};
      new;
      assert forall k: nat :: Users(live, page, k) == {};
    }

    /** Take a reference on page `k`, locking and excluding it if that is still to be done. */
    method TakePage(k: nat, g: Grants)
      modifies this`table, this`osLocked, this`osNoDump
      ensures TakenAt(old(State()), State(), k, g)
      ensures forall j: nat :: j != k ==> SameAt(old(State()), State(), j)
    {
      var state := StateOf(table, k);
      if !state.locked {
        if k in g.lock {
          osLocked := osLocked + {k};
          state := state.(locked := true);
        }
      }
      if !state.noDump {
        if k in g.noDump {
          osNoDump := osNoDump + {k};
          state := state.(noDump := true);
        }
      }
      table := table[k := state.(refs := state.refs + 1)];
    }

    /** Drop a reference on page `k`; the last one gives the page back, if the operating
        system takes it. Its answer is ignored. */
    method DropPage(k: nat, g: Grants)
      modifies this`table, this`osLocked, this`osNoDump, this`leftLocked, this`leftNoDump
      ensures DroppedAt(old(State()), State(), k, g)
      ensures forall j: nat :: j != k ==> SameAt(old(State()), State(), j)
    {
      if k in table {
        var state := table[k];
        if state.refs <= 1 {
          table := table - {k};
          if state.locked {
            osLocked, leftLocked := Given(k in g.lock, osLocked, k), Left(k in g.lock, osLocked, leftLocked, k);
          }
          if state.noDump {
            osNoDump, leftNoDump := Given(k in g.noDump, osNoDump, k), Left(k in g.noDump, osNoDump, leftNoDump, k);
          }
        } else {
          table := table[k := state.(refs := state.refs - 1)];
        }
      }
    }

    /** `acquire_region`: a reference on every page of the region, with the table lock held
        throughout. Returns whether every page is now locked. */
    method AcquireRegion(ghost t: nat, r: Region, g: Grants) returns (allLocked: bool)
      requires Valid() && t !in live
      modifies this
      ensures Valid() && AcquireStep(old(State()), State(), page, t, r, allLocked, g)
      ensures LockedAsGranted(State(), page, r, g)
    {
      ghost var w := State();
      var k, last := First(r, page), Last(r, page);
      DivMonotone(r.addr, r.addr + r.len - 1, page);
      allLocked := true;
      while k <= last
        invariant First(r, page) <= k <= last + 1
        invariant Taken(w, State(), First(r, page), k, g)
        invariant allLocked <==> AllLocked(table, First(r, page), k)
        invariant live == w.live && pinned == w.pinned
      {
        ghost var before := State();
        TakePage(k, g);
        TakenMore(w, before, State(), First(r, page), k, g);
        allLocked := allLocked && table[k].locked;
        k := k + 1;
      }
      ghost var after := State();
      live := live[t := r];
      pinned := pinned + (if allLocked then {t} else {});
      SamePages(w, after, State(), First(r, page), last + 1, g);
      AcquireKeeps(w, State(), page, t, r, allLocked, g);
      AcquiredAsGranted(w, State(), page, t, r, allLocked, g);
    }

    /** `release_region`: called once per acquisition, with the same region. */
    method ReleaseRegion(ghost t: nat, r: Region, g: Grants)
      requires Valid() && t in live && live[t] == r
      modifies this
      ensures Valid() && ReleaseStep(old(State()), State(), page, t, g)
      ensures KeepsUsed(old(State()), State(), page)
    {
      ghost var w := State();
      var k, last := First(r, page), Last(r, page);
      DivMonotone(r.addr, r.addr + r.len - 1, page);
      while k <= last
        invariant First(r, page) <= k <= last + 1
        invariant Dropped(w, State(), First(r, page), k, g)
        invariant live == w.live && pinned == w.pinned
      {
        ghost var before := State();
        DropPage(k, g);
        DroppedMore(w, before, State(), First(r, page), k, g);
        k := k + 1;
      }
      ghost var after := State();
      live := live - {t};
      pinned := pinned - {t};
      SamePages(w, after, State(), First(r, page), last + 1, g);
      ReleaseKeeps(w, State(), page, t, g);
      ReleaseKeepsUsed(w, State(), page, t, g);
    }
  }

  /** What happened to the pages does not depend on who is recorded to use them. */
  lemma SamePages(w: World, m: World, n: World, lo: nat, hi: nat, g: Grants)
    requires n == m.(live := n.live, pinned := n.pinned)
    ensures Taken(w, m, lo, hi, g) ==> Taken(w, n, lo, hi, g)
    ensures Dropped(w, m, lo, hi, g) ==> Dropped(w, n, lo, hi, g)
  {
    assert forall k: nat :: TakenIn(w, m, lo, hi, k, g) ==> TakenIn(w, n, lo, hi, k, g);
    assert forall k: nat :: DroppedIn(w, m, lo, hi, k, g) ==> DroppedIn(w, n, lo, hi, k, g);
  }

  /** One more page taken. */
  lemma TakenMore(w: World, m: World, n: World, lo: nat, hi: nat, g: Grants)
    requires lo <= hi && Taken(w, m, lo, hi, g)
    requires TakenAt(m, n, hi, g)
    requires forall j: nat :: j != hi ==> SameAt(m, n, j)
    ensures Taken(w, n, lo, hi + 1, g)
    ensures AllLocked(n.table, lo, hi + 1) <==> AllLocked(m.table, lo, hi) && n.table[hi].locked
  {
    var next := hi + 1;
    forall k: nat
      ensures TakenIn(w, n, lo, next, k, g)
    {
      assert TakenIn(w, m, lo, hi, k, g);
      assert k == hi || SameAt(m, n, k);
    }
    forall k: nat | lo <= k < hi
      ensures (k in n.table <==> k in m.table) && (k in n.table ==> n.table[k] == m.table[k])
    {
      assert SameAt(m, n, k);
    }
  }

  /** One more page dropped. */
  lemma DroppedMore(w: World, m: World, n: World, lo: nat, hi: nat, g: Grants)
    requires lo <= hi && Dropped(w, m, lo, hi, g)
    requires DroppedAt(m, n, hi, g)
    requires forall j: nat :: j != hi ==> SameAt(m, n, j)
    ensures Dropped(w, n, lo, hi + 1, g)
  {
    var next := hi + 1;
    forall k: nat
      ensures DroppedIn(w, n, lo, next, k, g)
    {
      assert DroppedIn(w, m, lo, hi, k, g);
      assert k == hi || SameAt(m, n, k);
    }
  }
}
