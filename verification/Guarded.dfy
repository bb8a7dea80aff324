/** A page-protected region: readable exactly while somebody reads it, as far as the
    operating system cooperates. Each operation runs under the region's mutex, so a run
    is any interleaving of whole operations by any threads. */
module Guarded {
  import opened Core

  datatype Access = NoAccess | ReadOnly | ReadWrite

  /** The reader count, the protection in force, the live guards, and whether the latest
      request to make the region inaccessible was granted. */
  datatype Region = Region(readers: nat, access: Access, guards: set<nat>, closed: bool)

  /** A region just sealed. */
  const SEALED := Region(0, NoAccess, {}, true)

  /** `granted` is the operating system's answer, if it is asked at all. */
  datatype Action = Open(guard: nat, granted: bool) | Close(guard: nat, granted: bool)

  /** Only the first reader in asks for access; if refused nothing changes. */
  function Opened(r: Region, guard: nat, granted: bool): Region {
    if r.readers == 0 && !granted then r
    else r.(readers := r.readers + 1, guards := r.guards + {guard},
            access := if r.readers == 0 then ReadOnly else r.access)
  }

  /** Only the last reader out asks for the access to be taken away; the answer is ignored. */
  function Closed(r: Region, guard: nat, granted: bool): Region
    requires r.readers > 0
  {
    var last := r.readers == 1;
    r.(readers := r.readers - 1, guards := r.guards - {guard},
       access := if last && granted then NoAccess else r.access,
       closed := if last then granted else r.closed)
  }

  ghost predicate Next(r: Region, r': Region, a: Action) {
    match a
    case Open(guard, granted) => guard !in r.guards && r' == Opened(r, guard, granted)
    case Close(guard, granted) => guard in r.guards && r.readers > 0 && r' == Closed(r, guard, granted)
  }

  /** The count is the number of live guards; with a guard alive the region is readable;
      with none it is inaccessible exactly if the last close was granted. */
  ghost predicate Inv(r: Region) {
    && r.readers == |r.guards|
    && (r.guards != {} ==> r.access == ReadOnly)
    && (r.guards == {} ==> r.access == if r.closed then NoAccess else ReadOnly)
  }

  lemma NextKeeps(r: Region, r': Region, a: Action)
    requires Inv(r) && Next(r, r', a)
    ensures Inv(r')
  {
    if a.Close? && r.readers == 1 {
      OnlyOne(r.guards, a.guard);
    }
  }

  lemma OnlyOne(s: set<nat>, x: nat)
    requires x in s && |s| == 1
    ensures s - {x} == {}
  {
    assert |s - {x}| == 0;
  }

  ghost predicate Run(rs: seq<Region>, actions: seq<Action>) {
    && |rs| == |actions| + 1 && rs[0] == SEALED
    && forall i :: 0 <= i < |actions| ==> Next(rs[i], rs[i + 1], actions[i])
  }

  lemma {:induction false} RunKeepsInv(rs: seq<Region>, actions: seq<Action>, i: nat)
    requires Run(rs, actions) && i < |rs|
    ensures Inv(rs[i])
  {
    if i > 0 {
      RunKeepsInv(rs, actions, i - 1);
      assert Next(rs[i - 1], rs[i - 1 + 1], actions[i - 1]);
      NextKeeps(rs[i - 1], rs[i], actions[i - 1]);
    }
  }

  /** Once opened, a region stays readable at least until that guard is dropped, whatever
      other readers do and whatever the operating system refuses. */
  lemma {:induction false} ReadableWhileGuarded(rs: seq<Region>, actions: seq<Action>, i: nat, j: nat, guard: nat)
    requires Run(rs, actions) && i < j < |rs|
    requires actions[i].Open? && actions[i].guard == guard && guard in rs[i + 1].guards
    requires forall n :: i < n < j ==> !(actions[n].Close? && actions[n].guard == guard)
    ensures guard in rs[j].guards && rs[j].access == ReadOnly
  {
    if j > i + 1 {
      ReadableWhileGuarded(rs, actions, i, j - 1, guard);
      assert Next(rs[j - 1], rs[j - 1 + 1], actions[j - 1]);
    }
    RunKeepsInv(rs, actions, j);
  }

  /** Dropping the last guard leaves the region inaccessible exactly if that is granted; opening
      it makes it readable exactly if that is granted or somebody reads already. */
  lemma EachAnswerTells(rs: seq<Region>, actions: seq<Action>, i: nat)
    requires Run(rs, actions) && i < |actions|
    ensures actions[i].Close? && rs[i + 1].guards == {} ==>
              rs[i + 1].access == if actions[i].granted then NoAccess else ReadOnly
    ensures actions[i].Open? ==>
              if actions[i].granted || rs[i].guards != {} then
                rs[i + 1].access == ReadOnly && actions[i].guard in rs[i + 1].guards
              else rs[i + 1] == rs[i]
  {
    RunKeepsInv(rs, actions, i);
    RunKeepsInv(rs, actions, i + 1);
    assert Next(rs[i], rs[i + 1], actions[i]);
  }

  // ----- the implementation -----

  /** The smallest multiple of `page` that is not below `need`. */
  function NextMultiple(need: nat, page: nat): (n: nat)
    requires page > 0 && need > 0
    ensures need <= n < need + page && exists pages :: n == pages * page
  {
    RoundUp(need, page);
    var pages := (need + page - 1) / page;
    pages * page
  }

  /** What the operating system answers while a region is made; and whether a page lock
      survives the loss of access on it. */
  datatype Answers = Answers(lockSurvives: bool, mapped: bool, locked: bool, noDump: bool, sealed: bool)

  class GuardedRegion {
    // The whole mapping, of which the first `len` bytes are in use.
    const mem: array<byte>
    const len: nat
    const locked: bool
    const noDump: bool
    var readers: nat
    ghost var access: Access
    ghost var guards: set<nat>
    ghost var closed: bool
    // What is still registered with the operating system.
    ghost var osLocked: bool
    ghost var osNoDump: bool

    ghost function State(): Region
      reads this
    {
      Region(readers, access, guards, closed)
    }

    ghost predicate Sized() {
      len <= mem.Length
    }

    ghost function Contents(): bytes
      requires Sized()
      reads mem
    {
      mem[..len]
    }

    constructor (len: nat, mapLen: nat, locked: bool, noDump: bool)
      requires len <= mapLen
      ensures fresh(mem) && mem.Length == mapLen && this.len == len && this.locked == locked && this.noDump == noDump
      ensures readers == 0 && guards == {} && access == ReadWrite && !closed
      ensures osLocked == locked && osNoDump == noDump
      ensures mem[..] == Zeros(mapLen)
    {
      this.len, this.locked, this.noDump := len, locked, noDump;
      mem := new byte[mapLen](_ => 0);
      readers, access, guards, closed := 0, ReadWrite, {}, false;
      osLocked, osNoDump := locked, noDump;
    }

    /** `GuardedRegion::new`: whole pages, zeroed and writable, locked and excluded from dumps
        as far as the operating system grants it. Where a lock does not survive the loss of
        access none is asked for. */
    static method New(len: nat, page: nat, os: Answers) returns (r: Result<GuardedRegion>)
      requires page > 0
      ensures r.Err? ==>
                r == Err(if NextMultiple(Max(len, 1), page) > USIZE_MAX then SizeOverflowed else MapFailed)
      ensures r.Ok? <==> NextMultiple(Max(len, 1), page) <= USIZE_MAX && os.mapped
      ensures r.Ok? ==>
                && fresh(r.value) && fresh(r.value.mem)
                && r.value.len == len && r.value.mem.Length == NextMultiple(Max(len, 1), page) && r.value.Sized()
                && r.value.mem[..] == Zeros(r.value.mem.Length)
                && r.value.State() == Region(0, ReadWrite, {}, false)
                && r.value.osLocked == r.value.locked == (os.lockSurvives && os.locked)
                && r.value.osNoDump == r.value.noDump == os.noDump
    {
      var mapLen := NextMultiple(Max(len, 1), page);
      if mapLen > USIZE_MAX {
        return Err(SizeOverflowed);
      }
      if !os.mapped {
        return Err(MapFailed);
      }
      var locked := false;
      if os.lockSurvives {
        locked := os.locked;
      }
      var region := new GuardedRegion(len, mapLen, locked, os.noDump);
      return Ok(region);
    }

    /** The operating system changes the protection, or refuses and leaves it alone. */
    method Protect(wanted: Access, granted: bool)
      modifies this`access
      ensures access == if granted then wanted else old(access)
    {
      if granted {
        access := wanted;
      }
    }

    /** Called once, after filling. */
    method Seal(granted: bool) returns (r: Result<()>)
      requires readers == 0 && guards == {} && access == ReadWrite
      modifies this`access, this`closed
      ensures r == if granted then Ok(()) else Err(ProtectFailed)
      ensures if granted then State() == SEALED else access == ReadWrite
    {
      Protect(NoAccess, granted);
      closed := granted;
      return if granted then Ok(()) else Err(ProtectFailed);
    }

    /** `open`, with the operating system's answer if it is asked. */
    method OpenGuard(ghost guard: nat, granted: bool) returns (r: Result<()>)
      requires Inv(State()) && guard !in guards
      modifies this`readers, this`access, this`guards
      ensures Inv(State()) && Next(old(State()), State(), Open(guard, granted))
      ensures r == if old(readers) == 0 && !granted then Err(ProtectFailed) else Ok(())
      ensures r.Err? ==> State() == old(State())
      ensures r.Ok? ==> guards == old(guards) + {guard} && access == ReadOnly
    {
      if readers == 0 {
        Protect(ReadOnly, granted);
        if !granted {
          return Err(ProtectFailed);
        }
      }
      readers := readers + 1;
      guards := guards + {guard};
      NextKeeps(old(State()), State(), Open(guard, granted));
      return Ok(());
    }

    method DropGuard(ghost guard: nat, granted: bool)
      requires Inv(State()) && guard in guards
      modifies this`readers, this`access, this`guards, this`closed
      ensures Inv(State()) && Next(old(State()), State(), Close(guard, granted))
      ensures guards == old(guards) - {guard}
      ensures access == if guards != {} then ReadOnly else if granted then NoAccess else old(access)
    {
      ghost var before := State();
      assert |guards| > 0;
      readers := readers - 1;
      guards := guards - {guard};
      if readers == 0 {
        Protect(NoAccess, granted);
        closed := granted;
      }
      assert Next(before, State(), Close(guard, granted));
      NextKeeps(before, State(), Close(guard, granted));
    }

    /** Reading faults unless the region is accessible. */
    method Read() returns (b: bytes)
      requires Sized() && access != NoAccess
      ensures b == Contents()
    {
      b := mem[..len];
    }

    /** The bytes are wiped if the region can be made writable, and what was registered with
        the operating system is asked back; then the region is unmapped. */
    method Drop(writable: bool, included: bool, unlocked: bool)
      requires guards == {}
      modifies this, mem
      ensures guards == {} && readers == old(readers)
      ensures osNoDump == (old(osNoDump) && !(noDump && included))
      ensures osLocked == (old(osLocked) && !(locked && unlocked))
      ensures if writable then access == ReadWrite && mem[..] == Zeros(mem.Length)
              else access == old(access) && mem[..] == old(mem[..])
    {
      Protect(ReadWrite, writable);
      if writable {
        for i := 0 to mem.Length
          modifies mem
          invariant forall j :: 0 <= j < i ==> mem[j] == 0
        {
          mem[i] := 0;
        }
      }
      if noDump {
        osNoDump := osNoDump && !included;
      }
      if locked {
        osLocked := osLocked && !unlocked;
      }
    }
  }

  lemma RoundUp(need: nat, page: nat)
    requires page > 0 && need > 0
    ensures var pages := (need + page - 1) / page;
            need <= pages * page < need + page
  {
    var pages := (need + page - 1) / page;
    assert need + page - 1 == pages * page + (need + page - 1) % page;
  }
}
