/** Key handles: ids drawn from a process-wide 64-bit counter. */
module Handles {
  import opened Core

  type KeyId = nat

  /** The id made of the `n`-th value of the counter, which starts at 1 and wraps; a wrapped
      0 becomes 1. */
  function IdOf(n: nat): KeyId {
    var raw := n % TWO_64;
    if raw == 0 then 1 else raw
  }

  /** Ids are fresh exactly until the counter wraps. */
  lemma IdsFreshUntilWrap(n: nat)
    requires n >= 1
    ensures n < TWO_64 <==> IdOf(n) == n
    ensures (forall m :: 1 <= m < n ==> IdOf(m) != IdOf(n)) <==> n < TWO_64
  {
    if n < TWO_64 {
      assert forall m :: 1 <= m < n ==> IdOf(m) == m;
    } else {
      var m := IdOf(n);
      assert 1 <= m < TWO_64 && IdOf(m) == m;
    }
  }

  class IdCounter {
    var value: u64
    ghost var drawn: seq<KeyId>

    ghost predicate Valid()
      reads this
    {
      && value == (|drawn| + 1) % TWO_64
      && forall k :: 0 <= k < |drawn| ==> drawn[k] == IdOf(k + 1)
    }

    constructor ()
      ensures Valid() && drawn == []
    {
      value := 1;
      drawn := [];
    }

    /** `KeyId::next`: never 0, and unlike every earlier id until 2^64 - 1 were drawn. */
    method Next() returns (id: KeyId)
      requires Valid()
      modifies this
      ensures Valid() && drawn == old(drawn) + [id]
      ensures 1 <= id < TWO_64
      ensures id !in old(drawn) <==> |drawn| < TWO_64
    {
      var raw := value;
      value := if raw == TWO_64 - 1 then 0 else raw + 1;
      id := if raw == 0 then 1 else raw;
      var n := |drawn| + 1;
      NextMod(n);
      IdsFreshUntilWrap(n);
      assert forall k :: 0 <= k < |drawn| ==> drawn[k] == IdOf(k + 1);
      assert id in drawn <==> exists m :: 1 <= m < n && IdOf(m) == id by {
        if m :| 1 <= m < n && IdOf(m) == id {
          assert drawn[m - 1] == id;
        }
      }
      drawn := drawn + [id];
    }
  }

  lemma NextMod(n: nat)
    ensures (n + 1) % TWO_64 == if n % TWO_64 == TWO_64 - 1 then 0 else n % TWO_64 + 1
  {
  }
}
