/** makeMaps_e and makeMaps_d: the bytes that occur in a block, numbered in order. */
module SymbolMaps {

  /** The used bytes below k, in order. */
  function Used(inUse: seq<bool>, k: nat): (r: seq<int>)
    requires k <= |inUse|
    ensures |r| <= k
  {
    if k == 0 then [] else Used(inUse, k - 1) + (if inUse[k - 1] then [k - 1] else [])
  }

  method MakeMapsE(inUse: seq<bool>) returns (unseqToSeq: array<int>, nInUse: nat)
    requires |inUse| == 256
    ensures fresh(unseqToSeq) && unseqToSeq.Length == 256 && nInUse == |Used(inUse, 256)|
    ensures forall c :: 0 <= c < 256 && inUse[c] ==> unseqToSeq[c] == |Used(inUse, c)|
  {
    unseqToSeq := new int[256](_ => 0);
    nInUse := 0;
    var i := 0;
    while i < 256
      invariant 0 <= i <= 256 && nInUse == |Used(inUse, i)|
      invariant forall c :: 0 <= c < i && inUse[c] ==> unseqToSeq[c] == |Used(inUse, c)|
    {
      if inUse[i] {
        unseqToSeq[i] := nInUse;
        nInUse := nInUse + 1;
      }
      i := i + 1;
    }
  }

  method MakeMapsD(inUse: seq<bool>, seqToUnseq: array<int>) returns (nInUse: nat)
    requires |inUse| == 256 && seqToUnseq.Length == 256
    modifies seqToUnseq
    ensures nInUse == |Used(inUse, 256)|
    ensures forall k :: 0 <= k < nInUse ==> seqToUnseq[k] == Used(inUse, 256)[k]
    ensures forall k :: nInUse <= k < 256 ==> seqToUnseq[k] == old(seqToUnseq[k])
  {
    nInUse := 0;
    var i := 0;
    while i < 256
      invariant 0 <= i <= 256 && nInUse == |Used(inUse, i)|
      invariant forall k :: 0 <= k < nInUse ==> seqToUnseq[k] == Used(inUse, i)[k]
      invariant forall k :: nInUse <= k < 256 ==> seqToUnseq[k] == old(seqToUnseq[k])
    {
      if inUse[i] {
        seqToUnseq[nInUse] := i;
        nInUse := nInUse + 1;
      }
      i := i + 1;
    }
  }

  lemma {:induction false} UsedPrefix(inUse: seq<bool>, j: nat, k: nat)
    requires j <= k <= |inUse|
    ensures |Used(inUse, j)| <= |Used(inUse, k)| && Used(inUse, k)[..|Used(inUse, j)|] == Used(inUse, j)
    decreases k
  {
    if j < k { UsedPrefix(inUse, j, k - 1); }
  }

  /** The decoder's map undoes the encoder's, on every byte that occurs. */
  lemma MapsInverse(inUse: seq<bool>, c: nat)
    requires |inUse| == 256 && c < 256 && inUse[c]
    ensures |Used(inUse, c)| < |Used(inUse, 256)| && Used(inUse, 256)[|Used(inUse, c)|] == c
  {
    UsedPrefix(inUse, c + 1, 256);
    assert Used(inUse, c + 1)[|Used(inUse, c)|] == c;
  }

  lemma {:induction false} UsedAreBytes(inUse: seq<bool>, k: nat)
    requires k <= |inUse|
    ensures forall i :: 0 <= i < |Used(inUse, k)| ==> 0 <= Used(inUse, k)[i] < k
  {
    if k > 0 { UsedAreBytes(inUse, k - 1); }
  }
}
