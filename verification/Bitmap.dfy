/**
  The allocation bitmaps of the PSV filesystem, one flag an index.  The model reasons
  about the set of indices whose flag is set.
 */
module Bitmap {

  /** The indices whose bit is set. */
  ghost function Bits(bitmap: seq<bool>): set<int> {
    set i | 0 <= i < |bitmap| && bitmap[i]
  }

  function Set(bitmap: seq<bool>, idx: int): (r: seq<bool>)
    requires 0 <= idx < |bitmap|
    ensures |r| == |bitmap| && Bits(r) == Bits(bitmap) + {idx}
  {
    bitmap[idx := true]
  }

  function Clear(bitmap: seq<bool>, idx: int): (r: seq<bool>)
    requires 0 <= idx < |bitmap|
    ensures |r| == |bitmap| && Bits(r) == Bits(bitmap) - {idx}
  {
    bitmap[idx := false]
  }

  /** The lowest index from `i` up to `n` that is not in `bits`, or -1. */
  ghost function Lowest(bits: set<int>, i: nat, n: int): (r: int)
    ensures r == -1 || (i <= r < n && r !in bits)
    ensures forall j :: i <= j < (if r == -1 then n else r) ==> j in bits
    decreases n - i
  {
    if i >= n then -1 else if i !in bits then i else Lowest(bits, i + 1, n)
  }

  /** The scan of get_free_bit_FM, get_free_bit_IM and get_free_bit_DM. */
  method FirstFree(bitmap: seq<bool>) returns (idx: int)
    ensures idx == Lowest(Bits(bitmap), 0, |bitmap|)
  {
    for i := 0 to |bitmap|
      invariant Lowest(Bits(bitmap), 0, |bitmap|) == Lowest(Bits(bitmap), i, |bitmap|)
    {
      if !bitmap[i] {
        return i;
      }
    }
    return -1;
  }
}
