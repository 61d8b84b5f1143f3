/** BZ2_blockSort: the block's rotations in order, and where the block itself ended up among them. */
module BlockSort {
  import opened Permutations
  import opened Rotations
  import opened ByteOverlay
  import opened InverseBwt
  import opened MainOrder
  import F = FallbackSort
  import M = MainSort
  import R = MainRadix

  const MAIN_SORT_LEAST := 10000

  method FindOrigPtr(ptr: array<int>, nblock: nat) returns (origPtr: int)
    requires 0 < nblock <= ptr.Length && IsPermutation(ptr[..nblock])
    ensures 0 <= origPtr < nblock && ptr[origPtr] == 0
  {
    ghost var at := PermutationHits(ptr[..nblock], 0);
    origPtr := -1;
    var i := 0;
    while i < nblock
      invariant 0 <= i <= nblock && origPtr == -1 && i <= at
    {
      if ptr[i] == 0 {
        origPtr := i;
        break;
      }
      i := i + 1;
    }
    // assertion 1003
    assert origPtr != -1;
  }

  /** The bytes of arr2, with room for the overshoot. */
  method BytesOf(arr2: array<int>, nblock: nat, ghost b: seq<byte>) returns (block: array<int>)
    requires nblock == |b| && F.Holds(arr2[..], b)
    ensures fresh(block) && block.Length == nblock + N_OVERSHOOT && R.Holds(block[..], b)
  {
    hide ByteAt;
    block := new int[nblock + N_OVERSHOOT];
    var i := 0;
    while i < nblock
      invariant 0 <= i <= nblock && forall k :: 0 <= k < i ==> block[k] == b[k]
      modifies block
    {
      block[i] := ByteAt(arr2[..], i);
      i := i + 1;
    }
  }

  /** Where quadrant begins in the bytes of arr2: behind the block and its overshoot, at an even byte. */
  function QuadrantAt(nblock: nat): nat
  {
    var i := nblock + N_OVERSHOOT;
    if i % 2 == 1 then i + 1 else i
  }

  /** The block with its overshoot and quadrant with its own, two bytes an entry, lie apart and within arr2's words. This is
      what makes it right to take them for two arrays. */
  ghost predicate Apart(nblock: nat, words: nat)
  {
    && nblock + N_OVERSHOOT <= QuadrantAt(nblock) && QuadrantAt(nblock) % 2 == 0
    && QuadrantAt(nblock) + 2 * (nblock + N_OVERSHOOT) <= 4 * words
  }

  /** How many units of work mainSort may do: a 32-bit number whatever the work factor. */
  function Budget(nblock: nat, workFactor: int): (budget: nat)
    requires nblock <= 900_000
    ensures budget < 0x8000_0000
  {
    var wfact := if workFactor < 1 then 1 else if workFactor > 100 then 100 else workFactor;
    BudgetFits(nblock, (wfact - 1) / 3);
    nblock * ((wfact - 1) / 3)
  }

  lemma BudgetFits(n: nat, f: int)
    requires n <= 900_000 && 0 <= f <= 33
    ensures 0 <= n * f < 0x8000_0000
  {
  }

  /** mainSort on the block, within a budget that comes from the work factor: out of budget, or all in order. */
  method TryMainSort(ptr: array<int>, arr2: array<int>, nblock: nat, workFactor: int, ghost b: seq<byte>)
    returns (budget: int)
    requires ptr != arr2 && MAIN_SORT_LEAST <= nblock == |b| <= ptr.Length && nblock <= 900_000 && F.Holds(arr2[..], b)
    requires nblock + N_OVERSHOOT <= arr2.Length
    modifies ptr
    ensures Apart(nblock, arr2.Length)
    ensures ptr[nblock..] == old(ptr[nblock..])
    ensures budget >= 0 ==> Sorted(b, ptr[..nblock])
  {
    hide F.Holds, SortedBy, Overshot;
    var block := BytesOf(arr2, nblock, b);
    var quadrant, ftab := new int[nblock + N_OVERSHOOT], new int[65537];
    budget := Budget(nblock, workFactor);
    budget := M.Sort(ptr, block, quadrant, ftab, nblock, budget, b);
  }

  /** The block's rotations in order, by either sort: which one ran does not show. */
  method BlockSort(ptr: array<int>, arr2: array<int>, bh: array<bool>, nblock: nat, workFactor: int, ghost b: seq<byte>)
    returns (origPtr: nat)
    requires ptr != arr2 && 0 < nblock == |b| <= ptr.Length && nblock + N_OVERSHOOT <= arr2.Length && nblock <= 900_000
    requires AllWords(arr2[..]) && F.Holds(arr2[..], b)
    requires bh.Length % 32 == 0 && nblock + 96 <= bh.Length
    modifies ptr, arr2, bh
    ensures Sorted(b, ptr[..nblock]) && origPtr < nblock && ptr[origPtr] == 0
    ensures F.Holds(arr2[..], b) && AllWords(arr2[..])
    ensures ptr[nblock..] == old(ptr[nblock..])
  {
    hide F.Holds, AllWords, SortedBy, IsPermutation;
    if nblock < MAIN_SORT_LEAST {
      F.Sort(ptr, arr2, bh, nblock, b);
    } else {
      var budget := TryMainSort(ptr, arr2, nblock, workFactor, b);
      if budget < 0 {
        F.Sort(ptr, arr2, bh, nblock, b);
      }
    }
    origPtr := FindOrigPtr(ptr, nblock);
  }
}
