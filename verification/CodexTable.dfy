/** StaticCodex: byte substitution tables that are their own inverse. */
module CodexTable {
  import opened Core
  import Shuffle

  /** A 256-entry lookup table; both `encode` and `decode` look a byte up in it. */
  type Table = t: seq<byte> | |t| == 256 witness seq(256, i => 0)

  ghost predicate Involution(t: Table) {
    forall b: byte :: t[t[b]] == b
  }

  datatype Swap = Swap(a: byte, b: byte)

  predicate Mentions(s: Swap, x: byte) {
    x == s.a || x == s.b
  }

  /** `x` is exchanged with another byte by one of the swaps. */
  ghost predicate Moved(swaps: seq<Swap>, x: byte) {
    exists k :: 0 <= k < |swaps| && swaps[k].a != swaps[k].b && Mentions(swaps[k], x)
  }

  ghost predicate Mentioned(swaps: seq<Swap>, x: byte) {
    exists k :: 0 <= k < |swaps| && Mentions(swaps[k], x)
  }

  /** Each real swap uses two bytes that no earlier pair mentions. */
  ghost predicate Acceptable(swaps: seq<Swap>) {
    forall j :: 0 <= j < |swaps| && swaps[j].a != swaps[j].b ==>
      !Mentioned(swaps[..j], swaps[j].a) && !Mentioned(swaps[..j], swaps[j].b)
  }

  /** The table performs exactly these swaps. */
  ghost predicate Performs(t: Table, swaps: seq<Swap>) {
    && (forall k :: 0 <= k < |swaps| && swaps[k].a != swaps[k].b ==>
          t[swaps[k].a] == swaps[k].b && t[swaps[k].b] == swaps[k].a)
    && (forall x: byte :: !Moved(swaps, x) ==> t[x] == x)
  }

  /** A table that performs a list of swaps is an involution and fixes exactly the
      bytes that no swap moves. */
  lemma PerformsIsInvolution(t: Table, swaps: seq<Swap>)
    requires Performs(t, swaps)
    ensures Involution(t)
    ensures forall x: byte :: t[x] == x <==> !Moved(swaps, x)
  {
    forall x: byte
      ensures t[t[x]] == x && (t[x] == x <==> !Moved(swaps, x))
    {
      if Moved(swaps, x) {
        var k :| 0 <= k < |swaps| && swaps[k].a != swaps[k].b && Mentions(swaps[k], x);
        assert t[swaps[k].a] == swaps[k].b && t[swaps[k].b] == swaps[k].a;
      }
    }
  }

  function WithSwap(t: Table, s: Swap): Table {
    t[s.a := s.b][s.b := s.a]
  }

  lemma PushSelfSwap(t: Table, swaps: seq<Swap>, s: Swap)
    requires Performs(t, swaps) && s.a == s.b
    ensures Performs(t, swaps + [s])
  {
    forall x: byte | !Moved(swaps + [s], x)
      ensures !Moved(swaps, x)
    {
      MovedPush(swaps, s, x);
    }
  }

  lemma MovedPush(swaps: seq<Swap>, s: Swap, x: byte)
    ensures Moved(swaps, x) ==> Moved(swaps + [s], x)
    ensures s.a != s.b && Mentions(s, x) ==> Moved(swaps + [s], x)
  {
    var more := swaps + [s];
    if Moved(swaps, x) {
      var k :| 0 <= k < |swaps| && swaps[k].a != swaps[k].b && Mentions(swaps[k], x);
      assert more[k] == swaps[k];
    }
    assert more[|swaps|] == s;
  }

  lemma PushSwap(t: Table, swaps: seq<Swap>, s: Swap)
    requires Performs(t, swaps) && s.a != s.b
    requires !Mentioned(swaps, s.a) && !Mentioned(swaps, s.b)
    ensures Performs(WithSwap(t, s), swaps + [s])
  {
    forall k | 0 <= k < |swaps|
      ensures !Mentions(swaps[k], s.a) && !Mentions(swaps[k], s.b)
    {
    }
    forall x: byte | !Moved(swaps + [s], x)
      ensures WithSwap(t, s)[x] == x
    {
      MovedPush(swaps, s, x);
    }
  }

  /** The flags record which bytes the pairs so far mention. */
  ghost predicate Flags(used: seq<bool>, swaps: seq<Swap>) {
    |used| == 256 && forall x: byte :: used[x] <==> Mentioned(swaps, x)
  }

  lemma FlagsPush(used: seq<bool>, swaps: seq<Swap>, s: Swap)
    requires Flags(used, swaps)
    ensures Flags(used[s.a := true][s.b := true], swaps + [s])
  {
    var more, flags := swaps + [s], used[s.a := true][s.b := true];
    assert more[|swaps|] == s && forall k :: 0 <= k < |swaps| ==> more[k] == swaps[k];
    forall x: byte
      ensures flags[x] <==> Mentioned(more, x)
    {
      if Mentioned(swaps, x) {
        var k :| 0 <= k < |swaps| && Mentions(swaps[k], x);
        assert Mentions(more[k], x);
      }
      if Mentions(s, x) {
        assert Mentions(more[|swaps|], x);
      }
    }
  }

  /** `StaticCodex::from_swaps`: it accepts exactly the acceptable lists, and the table
      it builds performs them. */
  method FromSwaps(swaps: seq<Swap>) returns (r: Result<Table>)
    ensures r.Ok? <==> Acceptable(swaps)
    ensures r.Err? ==> r.error == ByteSwappedTwice
    ensures r.Ok? ==> Performs(r.value, swaps) && Involution(r.value)
    ensures r.Ok? ==> forall x: byte :: r.value[x] == x <==> !Moved(swaps, x)
  {
    var table := new byte[256](i requires 0 <= i < 256 => i);
    var used := new bool[256](_ => false);
    for i := 0 to |swaps|
      invariant Performs(table[..], swaps[..i])
      invariant Flags(used[..], swaps[..i])
      invariant Acceptable(swaps[..i])
    {
      var s := swaps[i];
      assert swaps[..i + 1] == swaps[..i] + [s];
      FlagsPush(used[..], swaps[..i], s);
      if s.a == s.b {
        PushSelfSwap(table[..], swaps[..i], s);
        MarkUsed(used, s);
      } else {
        if used[s.a] || used[s.b] {
          NotAcceptable(swaps, i);
          return Err(ByteSwappedTwice);
        }
        PushSwap(table[..], swaps[..i], s);
        MarkUsed(used, s);
        WriteSwap(table, s);
      }
      AcceptablePush(swaps[..i], s);
    }
    assert swaps[..|swaps|] == swaps;
    PerformsIsInvolution(table[..], swaps);
    return Ok(table[..]);
  }

  lemma AcceptablePush(swaps: seq<Swap>, s: Swap)
    requires Acceptable(swaps)
    requires s.a != s.b ==> !Mentioned(swaps, s.a) && !Mentioned(swaps, s.b)
    ensures Acceptable(swaps + [s])
  {
    var more := swaps + [s];
    forall j | 0 <= j < |more|
      ensures more[..j] == swaps[..j]
    {
    }
    assert swaps[..|swaps|] == swaps;
  }

  lemma NotAcceptable(swaps: seq<Swap>, i: nat)
    requires i < |swaps| && swaps[i].a != swaps[i].b
    requires Mentioned(swaps[..i], swaps[i].a) || Mentioned(swaps[..i], swaps[i].b)
    ensures !Acceptable(swaps)
  {
  }

  method MarkUsed(used: array<bool>, s: Swap)
    requires used.Length == 256
    modifies used
    ensures used[..] == old(used[..])[s.a := true][s.b := true]
  {
    used[s.a] := true;
    used[s.b] := true;
  }

  method WriteSwap(table: array<byte>, s: Swap)
    requires table.Length == 256
    modifies table
    ensures table[..] == WithSwap(old(table[..]), s)
  {
    table[s.a] := s.b;
    table[s.b] := s.a;
  }

  /** The documented rule: no byte in two pairs, self-swaps included. */
  ghost predicate NoByteTwice(swaps: seq<Swap>) {
    forall j :: 0 <= j < |swaps| ==> !Mentioned(swaps[..j], swaps[j].a) && !Mentioned(swaps[..j], swaps[j].b)
  }

  /** The code is laxer than its documentation: it rejects a swap after a self-swap of
      one of its bytes, but not a self-swap after a swap. They agree exactly on lists in
      which no self-swap repeats an earlier byte. */
  lemma DocumentedRuleIff(swaps: seq<Swap>)
    ensures NoByteTwice(swaps)
       <==> Acceptable(swaps)
            && forall j :: 0 <= j < |swaps| && swaps[j].a == swaps[j].b ==> !Mentioned(swaps[..j], swaps[j].a)
    ensures Acceptable([Swap(1, 2), Swap(1, 1)]) && !NoByteTwice([Swap(1, 2), Swap(1, 1)])
    ensures !Acceptable([Swap(1, 1), Swap(1, 2)])
  {
    var lax, strict := [Swap(1, 2), Swap(1, 1)], [Swap(1, 1), Swap(1, 2)];
    assert Mentions(lax[..1][0], 1) && Mentions(strict[..1][0], 1);
    assert strict[1] == Swap(1, 2) && lax[1] == Swap(1, 1);
    assert lax[..0] == [];
  }

  // ----- random involutions -----

  /** The other member of a pair of neighbours. */
  function Mate(j: nat): nat {
    if j % 2 == 0 then j + 1 else j - 1
  }

  /** The first `n` entries of `perm` are exchanged in pairs. */
  ghost predicate Paired(t: Table, perm: seq<byte>, n: nat)
    requires n % 2 == 0 && n <= |perm| == 256
  {
    forall j :: 0 <= j < n ==> t[perm[j]] == perm[Mate(j)]
  }

  lemma PairNeighbours(t: Table, perm: seq<byte>, n: nat)
    requires n % 2 == 0 && n + 1 < |perm| == 256 && Distinct(perm)
    requires Paired(t, perm, n)
    ensures Paired(WithSwap(t, Swap(perm[n], perm[n + 1])), perm, n + 2)
  {
    assert forall j :: 0 <= j < n ==> perm[j] != perm[n] && perm[j] != perm[n + 1];
  }

  lemma PairedIsDerangement(t: Table, perm: seq<byte>)
    requires |perm| == 256 && Distinct(perm) && (forall x: byte :: x in perm) && Paired(t, perm, 256)
    ensures Involution(t) && forall x: byte :: t[x] != x
  {
    forall x: byte
      ensures t[t[x]] == x && t[x] != x
    {
      assert x in perm;
      var j :| 0 <= j < |perm| && perm[j] == x;
      assert Mate(Mate(j)) == j && Mate(j) != j && Mate(j) < 256;
      assert t[perm[Mate(j)]] == perm[Mate(Mate(j))];
    }
  }

  /** All 256 bytes, shuffled. */
  method ShuffledBytes(src: Shuffle.Draws) returns (r: Result<seq<byte>>, ghost js: seq<nat>)
    ensures r == Err(RngFailed) <==> |src| < 255
    ensures r.Err? ==> r.error == RngFailed
    ensures r.Ok? ==> |r.value| == 256 && Distinct(r.value) && forall x: byte :: x in r.value
    ensures r.Ok? ==> Shuffle.Shuffling(AllBytes(), r.value, js, src) && Shuffle.Complete(js, 256)
  {
    var perm := new byte[256](i requires 0 <= i < 256 => i);
    ghost var identity := perm[..];
    assert identity == AllBytes();
    var shuffled, rest, js' := Shuffle.FisherYates(perm, src);
    js := js';
    if shuffled.Err? {
      return Err(shuffled.error), js;
    }
    DistinctPermutation(identity, perm[..]);
    SameElements(identity, perm[..]);
    forall x: byte
      ensures x in perm[..]
    {
      assert identity[x] == x;
    }
    return Ok(perm[..]), js;
  }

  function AllBytes(): seq<byte> {
    seq<byte>(256, i requires 0 <= i < 256 => i)
  }

  /** `StaticCodex::random_involution`: for every shuffle, an involution without fixed points,
      which exchanges neighbours in the shuffled order. */
  method RandomInvolution(src: Shuffle.Draws) returns (r: Result<Table>, ghost perm: seq<byte>, ghost js: seq<nat>)
    ensures r == Err(RngFailed) <==> |src| < 255
    ensures r.Err? ==> r.error == RngFailed
    ensures r.Ok? ==> Involution(r.value) && forall x: byte :: r.value[x] != x
    ensures r.Ok? ==>
              && Shuffle.Shuffling(AllBytes(), perm, js, src) && Shuffle.Complete(js, 256)
              && |perm| == 256 && Paired(r.value, perm, 256)
  {
    var table := new byte[256](i requires 0 <= i < 256 => i);
    var shuffled, js' := ShuffledBytes(src);
    js, perm := js', [];
    if shuffled.Err? {
      return Err(shuffled.error), perm, js;
    }
    perm := shuffled.value;
    var i := 0;
    while i + 1 < |shuffled.value|
      invariant 0 <= i <= 256 && i % 2 == 0
      invariant Paired(table[..], shuffled.value, i)
    {
      PairNeighbours(table[..], shuffled.value, i);
      WriteSwap(table, Swap(shuffled.value[i], shuffled.value[i + 1]));
      i := i + 2;
    }
    PairedIsDerangement(table[..], shuffled.value);
    return Ok(table[..]), perm, js;
  }
}
