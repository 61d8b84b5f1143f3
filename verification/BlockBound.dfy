/** How many bits a block takes at most: what is written for it fits the space behind the block. */
module BlockBound {
  import opened Bits
  import opened Counting
  import opened MtfSpec
  import opened BlockFormat
  import opened SymbolMaps
  import opened BlockReader
  import opened BlockCodec
  import opened Rotations
  import W = BlockWriter
  import T = TableChoice
  import C = HuffmanCodes

  lemma {:induction false} RowsBound(inUse: seq<bool>, k: nat)
    requires |inUse| == 256 && k <= 16
    ensures |PutRows(inUse, k)| <= 16 * k
  {
    if k > 0 { RowsBound(inUse, k - 1); }
  }

  lemma {:induction false} UnariesBound(js: seq<int>, k: nat, n: nat)
    requires k <= |js| && n >= 1 && forall i :: 0 <= i < k ==> js[i] < n
    ensures |PutUnaries(js, k)| <= n * k
  {
    if k > 0 {
      UnariesBound(js, k - 1, n);
      assert n * k == n * (k - 1) + n;
    }
  }

  lemma {:induction false} StepsBound(curr: int, l: int)
    ensures |PutSteps(curr, l)| == 1 + 2 * (if curr < l then l - curr else curr - l)
    decreases if curr < l then l - curr else curr - l
  {
    if curr < l { StepsBound(curr + 1, l); } else if curr > l { StepsBound(curr - 1, l); }
  }

  /** Each length is at most 19 steps from the one before. */
  lemma {:induction false} LensBound(len: seq<int>, k: nat)
    requires k <= |len| && 0 < |len| && C.LensIn(len, 1, C.LONGEST_CODE)
    ensures |PutLens(len, k)| <= 5 + 39 * k
  {
    if k > 0 {
      LensBound(len, k - 1);
      StepsBound(Before(len, k - 1), len[k - 1]);
    }
  }

  lemma {:induction false} TablesBound(tables: seq<seq<int>>, k: nat)
    requires k <= |tables| && forall t :: 0 <= t < |tables| ==> 0 < |tables[t]| <= 258 && C.LensIn(tables[t], 1, C.LONGEST_CODE)
    ensures |PutTables(tables, k)| <= 10067 * k
  {
    hide C.LensIn;
    if k > 0 {
      TablesBound(tables, k - 1);
      LensBound(tables[k - 1], |tables[k - 1]|);
    }
  }

  lemma {:induction false} SymbolsBound(tables: seq<seq<int>>, selector: seq<int>, syms: seq<int>, k: nat)
    requires k <= |syms| <= G_SIZE * |selector| && Selects(tables, selector)
    requires forall t :: 0 <= t < |tables| ==> C.LensIn(tables[t], 1, C.LONGEST_CODE)
    ensures |PutSymbols(tables, selector, syms, k)| <= C.LONGEST_CODE * k
  {
    if k > 0 { SymbolsBound(tables, selector, syms, k - 1); }
  }

  lemma ChoiceBound(nGroups: nat, selector: seq<int>)
    requires nGroups <= N_GROUPS && forall i :: 0 <= i < |selector| ==> 0 <= selector[i] < nGroups
    ensures |W.ChoiceBits(nGroups, selector)| <= 18 + 6 * |selector|
  {
    hide ToBits, PutUnaries, Positions;
    PositionsInRange(selector, |selector|, nGroups);
    UnariesBound(Positions(selector, |selector|, nGroups).sent, |selector|, 6);
  }

  /** Where zbits begins, there is room for all the bits of the block, and for more than 256 besides: those still live from
      before, and the stream's header and trailer. */
  lemma BlockFits(b: seq<byte>, crc: nat, s: Sent, size: nat)
    requires GoodChoices(b, s) && |b| <= 100000 * size <= 900000 && size >= 1
    ensures |BlockBits(b, crc, s)| + 256 <= 8 * (4 * (100000 * size + 34) - |b|)
  {
    hide ToBits, PutMap, PutTables, PutSymbols, W.ChoiceBits, BlockSymbols, Used, InUse, Coded;
    var inUse, syms := InUse(b), BlockSymbols(b, s.f);
    AlphaBound(inUse);
    MapBound(inUse);
    CodedIn(s.tables, AlphaSize(inUse));
    TablesThere(s.tables, AlphaSize(inUse));
    ChoiceBound(|s.tables|, s.selector);
    TablesBound(s.tables, |s.tables|);
    SymbolsBound(s.tables, s.selector, syms, |syms|);
  }

  lemma AlphaBound(inUse: seq<bool>)
    requires |inUse| == 256
    ensures 0 < AlphaSize(inUse) <= 258
  {
    hide Used;
  }

  lemma MapBound(inUse: seq<bool>)
    requires |inUse| == 256
    ensures |PutMap(inUse)| <= 272
  {
    hide PutRows, PutFlags;
    RowsBound(inUse, 16);
  }

  lemma CodedIn(tables: seq<seq<int>>, alphaSize: nat)
    requires Coded(tables, alphaSize)
    ensures forall t :: 0 <= t < |tables| ==> |tables[t]| == alphaSize && C.LensIn(tables[t], 1, C.LONGEST_CODE)
  {
  }
}
