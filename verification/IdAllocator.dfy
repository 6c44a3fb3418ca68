/**
  The bitmap that hands out resource ids: one bit per id, the lowest clear bit is next.
 */
module IdAllocator {

  const ID_BITS := 32768
  const NO_ID := 0xFFFF_FFFF

  /** Index of the first clear bit at or after `i`, or the length when there is none. */
  function FirstClear(bits: seq<bool>, i: nat): (r: nat)
    requires i <= |bits|
    ensures i <= r <= |bits|
    ensures forall j | i <= j < r :: bits[j]
    ensures r < |bits| ==> !bits[r]
    decreases |bits| - i
  {
    if i == |bits| || !bits[i] then i else FirstClear(bits, i + 1)
  }

  /** `FirstClear` is the only index with these two properties. */
  lemma FirstClearIs(bits: seq<bool>, i: nat)
    requires i < |bits| && !bits[i] && forall j | 0 <= j < i :: bits[j]
    ensures FirstClear(bits, 0) == i
  {
  }

  class Idr {
    const bits: array<bool>

    /** Reserves the ids below `start`. */
    constructor Init(start: nat)
      requires start <= ID_BITS
      ensures fresh(bits) && bits.Length == ID_BITS
      ensures forall i | 0 <= i < ID_BITS :: bits[i] <==> i < start
    {
      bits := new bool[ID_BITS](i => i < start);
    }

    method GetId() returns (id: nat)
      modifies bits
      ensures var i := FirstClear(old(bits[..]), 0);
              if i < bits.Length then id == i && bits[..] == old(bits[..])[i := true]
              else id == NO_ID && bits[..] == old(bits[..])
    {
      id := 0;
      while id < bits.Length && bits[id]
        invariant id <= bits.Length
        invariant forall j | 0 <= j < id :: bits[j]
      {
        id := id + 1;
      }
      if id == bits.Length {
        return NO_ID;
      }
      FirstClearIs(bits[..], id);
      bits[id] := true;
    }

    method PutId(id: nat)
      requires id < bits.Length
      modifies bits
      ensures bits[..] == old(bits[..])[id := false]
    {
      bits[id] := false;
    }
  }
}
