/** BZ2_compressBlock, for one block: sort, header, symbols, bits. */
module BlockEncoder {
  import opened Permutations
  import opened Rotations
  import opened ByteOverlay
  import opened Bits
  import opened BitIO
  import opened MtfSpec
  import opened BlockFormat
  import opened SymbolMaps
  import opened BlockCodec
  import opened BlockReader
  import opened Counting
  import opened StreamFormat
  import B = InverseBwt
  import C = HuffmanCodes
  import E = MtfEncoder
  import F = FallbackSort
  import MainOrder
  import S = BlockSort
  import T = TableChoice
  import W = BlockWriter

  /** bsPutUInt32, and the six magic bytes likewise: whole bytes, first byte first. */
  method PutUInt32(w: BitWriter, u: nat)
    requires w.Valid() && u < WORD
    modifies w
    ensures w.Valid() && w.Written() == old(w.Written()) + ToBits(32, u)
  {
    hide ToBits, Pow2;
    ghost var before := w.Written();
    Pow2Values();
    FourBytes(u);
    w.W(8, u / 0x100_0000 % 256);
    w.W(8, u / 0x1_0000 % 256);
    w.W(8, u / 256 % 256);
    w.W(8, u % 256);
    Chain(before, ToBits(8, u / 0x100_0000 % 256), ToBits(8, u / 0x1_0000 % 256), ToBits(8, u / 256 % 256), ToBits(8, u % 256));
  }

  lemma Chain(w: seq<bool>, a: seq<bool>, b: seq<bool>, c: seq<bool>, d: seq<bool>)
    ensures (((w + a) + b) + c) + d == w + (((a + b) + c) + d)
  {
  }

  lemma FourBytes(u: nat)
    requires u < WORD
    ensures ToBits(32, u) == ((ToBits(8, u / 0x100_0000 % 256) + ToBits(8, u / 0x1_0000 % 256)) + ToBits(8, u / 256 % 256))
                             + ToBits(8, u % 256)
  {
    hide ToBits, Pow2;
    Pow2Values();
    ToBitsSplit(24, 8, u);
    ToBitsSplit(16, 8, u / 256);
    ToBitsSplit(8, 8, u / 0x1_0000);
    ToBitsLow(8, 8, u);
    ToBitsLow(8, 8, u / 256);
    ToBitsLow(8, 8, u / 0x1_0000);
    ToBitsLow(8, 8, u / 0x100_0000);
  }

  /** bsPutUChar, byte after byte. */
  method PutBytes(w: BitWriter, bs: seq<int>)
    requires w.Valid() && AllBytes(bs)
    modifies w
    ensures w.Valid() && w.Written() == old(w.Written()) + PutMagic(bs)
  {
    hide ToBits;
    Pow2Values();
    ghost var before := w.Written();
    ghost var sent := [];
    assert before + sent == before && sent + PutMagic(bs[0..]) == PutMagic(bs) by { assert bs[0..] == bs; }
    var i := 0;
    while i < |bs|
      invariant 0 <= i <= |bs| && w.Valid() && w.Written() == before + sent && sent + PutMagic(bs[i..]) == PutMagic(bs)
    {
      w.W(8, bs[i]);
      assert bs[i..][1..] == bs[i + 1..];
      Assoc(before, sent, ToBits(8, bs[i]));
      Assoc(sent, ToBits(8, bs[i]), PutMagic(bs[i + 1..]));
      sent := sent + ToBits(8, bs[i]);
      i := i + 1;
    }
    assert PutMagic(bs[i..]) == [];
  }

  method PutHeader(w: BitWriter, crc: nat, origPtr: nat)
    requires w.Valid() && crc < WORD && origPtr < 0x100_0000
    modifies w
    ensures w.Valid() && w.Written() == old(w.Written()) + HeaderBits(crc, origPtr)
  {
    hide ToBits, Pow2;
    ghost var before := w.Written();
    Pow2Values();
    W.OneBit(false);
    PutUInt32(w, crc);
    w.W(1, 0);
    w.W(24, origPtr);
    W.Chain(before, ToBits(32, crc), [false], ToBits(24, origPtr));
  }

  /** The two ways to number the used bytes agree on a block's column. */
  lemma SameColumn(b: seq<byte>, f: seq<int>, number: seq<int>)
    requires B.Sorted(b, f) && |number| == 256
    requires forall c :: 0 <= c < 256 && InUse(b)[c] ==> number[c] == |Used(InUse(b), c)|
    ensures E.Column(b, f, number) == BlockColumn(b, f)
  {
    var col, col' := E.Column(b, f, number), BlockColumn(b, f);
    forall i | 0 <= i < |f| ensures col[i] == col'[i] {
      assert b[Prev(|b|, f[i])] in b;
    }
  }

  /** The block's symbols, left in arr1 as 16-bit numbers. */
  method MakeSymbols(arr1: array<int>, arr2: array<int>, nblock: nat, inUse: seq<bool>, ghost b: seq<byte>, ghost f: seq<int>)
    returns (nMTF: nat, nInUse: nat)
    requires arr1 != arr2 && 0 < nblock == |b| <= arr1.Length && nblock <= 4 * arr2.Length
    requires B.Sorted(b, f) && arr1[..nblock] == f && F.Holds(arr2[..], b) && inUse == InUse(b)
    requires nblock < 0x1_0000_0000 && AllWords(arr1[..])
    modifies arr1
    ensures 1 <= nInUse == |Used(inUse, 256)| <= 256 && AllWords(arr1[..])
    ensures 1 <= nMTF <= nblock + 1 <= 2 * arr1.Length && E.Symbols(arr1[..], nMTF) == BlockSymbols(b, f)
  {
    hide AllBytes, AllWords, B.IsColumn, BlockColumn, ByteAt, E.Column, E.Symbols, EncodedColumn, Identity, InUse,
      Prev, SortedBy, Unmapped, Used;
    var unseqToSeq;
    unseqToSeq, nInUse := MakeMapsE(inUse);
    ColumnBack(b, f);
    SameColumn(b, f, unseqToSeq[..]);
    ghost var col := BlockColumn(b, f);
    assert forall i :: 0 <= i < nblock ==> 0 <= col[i] < nInUse;
    assert forall i :: 0 <= i < nblock ==> arr1[i] == arr1[..nblock][i];
    nMTF := E.GenerateMTFValues(arr1, arr2, unseqToSeq, nblock, nInUse, b, f, col);
  }

  lemma StillWords(a: seq<int>, f: seq<int>, n: nat, was: seq<int>)
    requires n <= |a| == |was| && AllWords(was) && a[n..] == was[n..]
    requires forall i :: 0 <= i < n ==> 0 <= a[i] < 0x1_0000_0000
    ensures AllWords(a)
  {
    forall i | n <= i < |a| ensures a[i] == was[i] {
      assert a[n..][i - n] == was[n..][i - n];
    }
  }

  lemma SymbolsFit(b: seq<byte>, f: seq<int>)
    requires B.Sorted(b, f)
    ensures T.InAlphabet(BlockSymbols(b, f), |Used(InUse(b), 256)| + 2)
    ensures 0 < |BlockSymbols(b, f)| <= |b| + 1
  {
    SymbolsRange(b, f);
  }

  /** One block, from its bytes in arr2 to its bits: BZ2_blockSort, the header, generateMTFValues, sendMTFValues. */
  method CompressBlock(w: BitWriter, arr1: array<int>, arr2: array<int>, bh: array<bool>, nblock: nat, inUse: seq<bool>,
                       crc: nat, workFactor: int, ghost b: seq<byte>)
    returns (ghost s: Sent)
    requires w.Valid() && arr1 != arr2 && 0 < nblock == |b| <= arr1.Length && nblock <= 900000
    requires nblock + MainOrder.N_OVERSHOOT <= arr2.Length
    requires AllWords(arr1[..]) && AllWords(arr2[..]) && F.Holds(arr2[..], b)
    requires bh.Length % 32 == 0 && nblock + 96 <= bh.Length && crc < WORD
    requires inUse == InUse(b)
    modifies w, arr1, arr2, bh
    ensures WellChosen(b, s)
    ensures w.Valid() && GoodChoices(b, s) && w.Written() == old(w.Written()) + BlockBits(b, crc, s)
    ensures AllWords(arr1[..]) && AllWords(arr2[..])
  {
    hide AllWords, BitWriter.Valid, BitWriter.Written, BlockSymbols, Coded, E.Symbols, F.Holds, HeaderBits, InUse,
      Selects, SortedBy, T.AllFitted, T.ChosenFor, T.InAlphabet, Tables, Used, W.BodyBits;
    ghost var before, was := w.Written(), arr1[..];
    var origPtr := S.BlockSort(arr1, arr2, bh, nblock, workFactor, b);
    ghost var f := arr1[..nblock];
    StillWords(arr1[..], f, nblock, was);
    PutHeader(w, crc, origPtr);
    var nMTF, nInUse := MakeSymbols(arr1, arr2, nblock, inUse, b, f);
    SymbolsFit(b, f);
    ghost var tables, selector;
    tables, selector := W.SendMTFValues(w, inUse, nInUse, E.Symbols(arr1[..], nMTF));
    s := Sent(f, origPtr, tables, selector);
    T.FittedCoded(tables, nInUse + 2);
    TablesThere(tables, nInUse + 2);
    Assoc(before, HeaderBits(crc, origPtr), W.BodyBits(inUse, tables, selector, BlockSymbols(b, f)));
    assert GoodChoices(b, s);
    assert BlockBits(b, crc, s) == HeaderBits(crc, origPtr) + W.BodyBits(inUse, tables, selector, BlockSymbols(b, f));
  }
}
