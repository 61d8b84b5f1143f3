/** A whole block, both ways: sorted, coded and sent; read, decoded and unsorted; and back to the same bytes. */
module BlockCodec {
  import opened Permutations
  import opened Counting
  import opened Rotations
  import opened Bits
  import opened BitIO
  import opened MtfSpec
  import opened BlockFormat
  import opened SymbolReader
  import opened SymbolMaps
  import opened BlockReader
  import B = InverseBwt
  import E = MtfEncoder
  import M = MtfDecoder
  import W = BlockWriter
  import T = TableChoice
  import C = HuffmanCodes

  // ----- the column, as a function of the bits

  /** Symbol k is the first end mark. */
  ghost predicate StopsAt(b: Body, bits: seq<bool>, k: nat)
    requires Selects(b.tables, b.selector)
  {
    var g := GetSymbols(b.tables, b.selector, bits, k + 1);
    && g.Parsed? && g.value[k] == AlphaSize(b.inUse) - 1
    && forall i :: 0 <= i < k ==> g.value[i] != AlphaSize(b.inUse) - 1
  }

  lemma StopsOnce(b: Body, bits: seq<bool>, k: nat, m: nat)
    requires Selects(b.tables, b.selector) && StopsAt(b, bits, k) && StopsAt(b, bits, m)
    ensures k == m
  {
    hide GetSymbols, AlphaSize, Selects;
    if k < m {
      SymbolsPrefix(b.tables, b.selector, bits, k + 1, m + 1);
    } else if m < k {
      SymbolsPrefix(b.tables, b.selector, bits, m + 1, k + 1);
    }
  }

  /** The bytes behind list numbers. */
  function Unmapped(out: seq<int>, used: seq<int>): (r: seq<int>)
    ensures |r| == |out|
    ensures forall i :: 0 <= i < |out| && 0 <= out[i] < |used| ==> r[i] == used[out[i]]
  {
    seq(|out|, i requires 0 <= i < |out| => if 0 <= out[i] < |used| then used[out[i]] else 0)
  }

  /** The column up to the end mark at k. */
  ghost function ColumnAt(b: Body, bits: seq<bool>, maxBlock: nat, k: nat): (r: Parse<seq<int>>)
    requires Selects(b.tables, b.selector) && StopsAt(b, bits, k)
    ensures !r.Overrun?
    ensures r.Parsed? ==> |r.rest| <= |bits|
  {
    var g := GetSymbols(b.tables, b.selector, bits, k + 1);
    var s := Decoded(g.value[..k], Identity(256), maxBlock);
    if s.Bad? then Corrupt else Parsed(Unmapped(s.out, Used(b.inUse, |b.inUse|)), g.rest)
  }

  ghost function StopPoint(b: Body, bits: seq<bool>): (k: nat)
    requires Selects(b.tables, b.selector) && exists k: nat :: StopsAt(b, bits, k)
    ensures StopsAt(b, bits, k)
  {
    var k: nat :| StopsAt(b, bits, k);
    k
  }

  /** What the symbols of a block decode to. */
  ghost function GetColumn(b: Body, bits: seq<bool>, maxBlock: nat): (r: Parse<seq<int>>)
    requires Selects(b.tables, b.selector)
    ensures !r.Overrun?
    ensures r.Parsed? ==> |r.rest| <= |bits|
  {
    if exists k: nat :: StopsAt(b, bits, k) then ColumnAt(b, bits, maxBlock, StopPoint(b, bits))
    else
      var (syms, end) := AnyStream(b, bits);
      if Read(syms, Identity(256), maxBlock).Bad? || end.DataError? then Corrupt else Starved
  }

  lemma ColumnThere(b: Body, bits: seq<bool>, maxBlock: nat, k: nat)
    requires Selects(b.tables, b.selector) && StopsAt(b, bits, k)
    ensures GetColumn(b, bits, maxBlock) == ColumnAt(b, bits, maxBlock, k)
  {
    StopsOnce(b, bits, k, StopPoint(b, bits));
  }

  ghost function AnyStream(b: Body, bits: seq<bool>): (r: (seq<int>, Status))
    requires Selects(b.tables, b.selector)
    ensures Stream(b.tables, b.selector, bits, r.0, r.1)
  {
    StreamExists(b, bits);
    var syms, end :| Stream(b.tables, b.selector, bits, syms, end);
    (syms, end)
  }

  lemma StreamExists(b: Body, bits: seq<bool>)
    requires Selects(b.tables, b.selector)
    ensures exists syms, end :: Stream(b.tables, b.selector, bits, syms, end)
  {
    var syms, end := WholeStream(b.tables, b.selector, bits);
  }

  lemma StreamOnce(b: Body, bits: seq<bool>, s: seq<int>, e: Status, s': seq<int>, e': Status)
    requires Stream(b.tables, b.selector, bits, s, e) && Stream(b.tables, b.selector, bits, s', e')
    ensures s == s' && e == e'
  {
    if |s| < |s'| {
      SymbolsPrefix(b.tables, b.selector, bits, |s| + 1, |s'|);
    } else if |s'| < |s| {
      SymbolsPrefix(b.tables, b.selector, bits, |s'| + 1, |s|);
    }
  }

  lemma NeverStops(b: Body, bits: seq<bool>, syms: seq<int>, end: Status, m: nat)
    requires Stream(b.tables, b.selector, bits, syms, end) && M.EndsAt(syms, |syms|, AlphaSize(b.inUse) - 1)
    ensures !StopsAt(b, bits, m)
  {
    if StopsAt(b, bits, m) {
      if m < |syms| {
        SymbolsPrefix(b.tables, b.selector, bits, m + 1, |syms|);
      } else {
        SymbolsPrefix(b.tables, b.selector, bits, |syms| + 1, m + 1);
      }
    }
  }

  /** The decoder's loop ends as GetColumn says. */
  lemma OutcomeIsColumn(b: Body, bits: seq<bool>, maxBlock: nat, syms: seq<int>, end: Status, k: nat)
    requires Stream(b.tables, b.selector, bits, syms, end) && M.EndsAt(syms, k, AlphaSize(b.inUse) - 1)
    ensures M.Outcome(syms, k, maxBlock, end) == StatusOf(GetColumn(b, bits, maxBlock))
    ensures k < |syms| && M.BlockState(syms, k, maxBlock).Going? ==>
              GetSymbols(b.tables, b.selector, bits, k + 1).Parsed?
              && GetColumn(b, bits, maxBlock) == Parsed(Unmapped(M.BlockState(syms, k, maxBlock).out, Used(b.inUse, |b.inUse|)),
                                                        GetSymbols(b.tables, b.selector, bits, k + 1).rest)
  {
    hide GetSymbols, Read, Flush, Used, Unmapped;
    if k < |syms| {
      SymbolsPrefix(b.tables, b.selector, bits, k + 1, |syms|);
      var g := GetSymbols(b.tables, b.selector, bits, k + 1);
      assert g.value == syms[..k + 1] && g.value[..k] == syms[..k];
      assert StopsAt(b, bits, k);
      ColumnThere(b, bits, maxBlock, k);
    } else {
      forall m: nat ensures !StopsAt(b, bits, m) { NeverStops(b, bits, syms, end, m); }
      var r := AnyStream(b, bits);
      StreamOnce(b, bits, syms, end, r.0, r.1);
    }
  }

  /** Positions below n only ever bring up numbers below n. */
  lemma {:induction false} SmallOut(syms: seq<int>, list: seq<int>, n: nat, maxBlock: nat)
    requires 1 <= n <= |list| && (forall i :: 0 <= i < n ==> 0 <= list[i] < n)
    requires forall i :: 0 <= i < |syms| ==> syms[i] <= n
    ensures var s := Read(syms, list, maxBlock);
            s.Going? ==> |s.list| == |list| && AllBelow(s.list[..n], n) && AllBelow(s.out, n)
  {
    hide MoveToFront;
    if syms != [] {
      var k := |syms| - 1;
      SmallOut(syms[..k], list, n, maxBlock);
      var s, x := Read(syms[..k], list, maxBlock), syms[k];
      if s.Going? && x != RUNA && x != RUNB && 0 <= x - 1 < |s.list| {
        SmallMove(s.list, x - 1, n);
      }
    }
  }

  lemma SmallMove(l: seq<int>, k: nat, n: nat)
    requires k < n <= |l| && AllBelow(l[..n], n)
    ensures AllBelow(MoveToFront(l, k)[..n], n)
  {
    MoveToFrontAt(l, k);
    var m := MoveToFront(l, k);
    forall i | 0 <= i < n ensures 0 <= m[i] < n {
      assert forall j :: 0 <= j < n ==> 0 <= l[..n][j] < n;
      assert if i == 0 then m[i] == l[..n][k] else if i <= k then m[i] == l[..n][i - 1] else m[i] == l[..n][i];
    }
  }

  /** Through the decoder's table of used bytes, what is stored is the column. */
  lemma StoredColumn(b: Body, tt: seq<int>, u: seq<int>, code: seq<int>, out: seq<int>)
    requires M.Stored(tt, u, code, out) && Maps(code, b.inUse) && AllBelow(out, |Used(b.inUse, 256)|)
    ensures tt[..|out|] == Unmapped(out, Used(b.inUse, 256))
    ensures forall c :: 0 <= c < 256 ==> u[c] == Occ(tt[..|out|], 0, |out|, c)
    ensures AllBytes(tt[..|out|])
  {
    hide Used;
    forall c | 0 <= c < 256 ensures u[c] == Occ(tt[..|out|], 0, |out|, c) {
      OccSame(tt, tt[..|out|], 0, |out|, c);
    }
    forall i | 0 <= i < |out| ensures 0 <= tt[i] < 256 && tt[i] == Unmapped(out, Used(b.inUse, 256))[i] {
      assert tt[i] == code[out[i]];
    }
  }

  // ----- the block, as a function of the bits

  /** beyond: two bytes that the walk goes on to after the block's last. */
  datatype Block = Block(crc: nat, randomised: bool, bytes: seq<int>, beyond: seq<int>)
  datatype Header = Header(crc: nat, randomised: bool, origPtr: nat)

  function GetHeader(bits: seq<bool>): (r: Parse<Header>)
    ensures !r.Overrun?
    ensures r.Parsed? ==> |r.rest| <= |bits|
  {
    if |bits| < 57 then Starved
    else Parsed(Header(Value(bits[..32]), bits[32], Value(bits[33..57])), bits[57..])
  }

  /** n bytes of the decoder's walk over a column. */
  ghost function Unsorted(col: seq<int>, origPtr: nat, n: nat): (r: seq<int>)
    requires AllBytes(col) && origPtr < |col|
    ensures |r| == n
  {
    InverseThere(col);
    var p :| B.IsInverse(col, p);
    B.Walk(p, col, origPtr, n)
  }

  /** The block that a column spells, and two bytes more. */
  ghost function BlockOf(h: Header, col: seq<int>): Block
    requires AllBytes(col) && h.origPtr < |col|
  {
    var w := Unsorted(col, h.origPtr, |col| + 2);
    Block(h.crc, h.randomised, w[..|col|], w[|col|..])
  }

  lemma InverseThere(col: seq<int>)
    requires AllBytes(col)
    ensures exists p :: B.IsInverse(col, p)
  {
    var p := B.InverseExists(col);
  }

  /** Everything of a block after its magic number; size is the stream's block size in units of 100000. */
  ghost function GetBlock(bits: seq<bool>, size: nat): (r: Parse<Block>)
    ensures r.Parsed? ==> |r.rest| <= |bits|
  {
    match GetHeader(bits)
    case Starved => Starved
    case Corrupt => Corrupt
    case Overrun => Overrun
    case Parsed(h, r1) =>
      if h.origPtr > 10 + 100000 * size then Corrupt
      else match GetBody(r1)
        case Starved => Starved
        case Corrupt => Corrupt
        case Overrun => Overrun
        case Parsed(b, r2) =>
          if !Selects(b.tables, b.selector) then Corrupt
          else match GetColumn(b, r2, 100000 * size)
            case Starved => Starved
            case Corrupt => Corrupt
            case Overrun => Overrun
            case Parsed(col, r3) =>
              if h.origPtr >= |col| || !AllBytes(col) then Corrupt
              else Parsed(BlockOf(h, col), r3)
  }

  /** Where the selectors of a block begin, if it gets that far. */
  ghost function SelectorBits(bits: seq<bool>, size: nat): Parse<seq<bool>>
  {
    match GetHeader(bits)
    case Starved => Starved
    case Corrupt => Corrupt
    case Overrun => Overrun
    case Parsed(h, r1) =>
      if h.origPtr > 10 + 100000 * size then Corrupt
      else match GetMap(r1)
        case Starved => Starved
        case Corrupt => Corrupt
        case Overrun => Overrun
        case Parsed(inUse, r2) => if |Used(inUse, 256)| == 0 then Corrupt else Parsed(r2, r2)
  }

  /** Only the selectors can make the decoder write past the end of an array, and they do exactly when there are too many. */
  lemma BlockOverruns(bits: seq<bool>, size: nat)
    ensures GetBlock(bits, size).Overrun? <==> SelectorBits(bits, size).Parsed? && TooMany(SelectorBits(bits, size).rest)
  {
    hide GetColumn, GetMap, GetSelectors, GetTables, Used, TooMany, GetHeader, Selects, BlockOf;
    var h := GetHeader(bits);
    if h.Parsed? {
      var m := GetMap(h.rest);
      if m.Parsed? { OverrunExactly(m.rest); }
    }
  }

  // ----- decoding

  /** An unsigned number sent as whole bytes, first byte first. */
  method ReadBytes(r: BitReader, count: nat) returns (ok: bool, u: nat)
    requires r.Valid() && count <= 4
    modifies r
    ensures r.Valid() && (ok <==> 8 * count <= |old(r.Pending())|)
    ensures ok ==> u == Value(old(r.Pending())[..8 * count]) && r.Pending() == old(r.Pending())[8 * count..]
    ensures ok ==> u < Pow2(8 * count)
  {
    hide Pow2;
    ghost var bits := r.Pending();
    u := 0;
    assert Value(bits[..0]) == 0;
    var i := 0;
    while i < count
      invariant 0 <= i <= count && r.Valid() && 8 * i <= |bits|
      invariant u == Value(bits[..8 * i]) && r.Pending() == bits[8 * i..]
    {
      var uc;
      ok, uc := r.GetBits(8);
      if !ok { return; }
      NextByte(bits, 8 * i);
      u := u * 256 + uc;
      i := i + 1;
    }
    ValueBound(bits[..8 * count]);
    ok := true;
  }

  lemma NextByte(bits: seq<bool>, n: nat)
    requires n + 8 <= |bits|
    ensures Value(bits[..n + 8]) == Value(bits[..n]) * 256 + Value(bits[n..][..8])
    ensures bits[n..][8..] == bits[n + 8..]
  {
    hide Value;
    assert bits[..n + 8] == bits[..n] + bits[n..][..8];
    ValueAppend(bits[..n], bits[n..][..8]);
    Pow2Values();
  }

  method ReadHeader(r: BitReader) returns (st: Status, h: Header)
    requires r.Valid()
    modifies r
    ensures r.Valid() && st == StatusOf(GetHeader(old(r.Pending())))
    ensures st.Fine? ==> GetHeader(old(r.Pending())) == Parsed(h, r.Pending())
  {
    hide Value;
    ghost var bits := r.Pending();
    h := Header(0, false, 0);
    var ok, crc, randomised, origPtr;
    ok, crc := ReadBytes(r, 4);
    if !ok { return Starving, h; }
    ok, randomised := ReadBit(r);
    if !ok { return Starving, h; }
    ok, origPtr := ReadBytes(r, 3);
    if !ok { return Starving, h; }
    HeaderParts(bits);
    st, h := Fine, Header(crc, randomised, origPtr);
  }

  lemma HeaderParts(bits: seq<bool>)
    requires |bits| >= 57
    ensures bits[32..][0] == bits[32] && bits[32..][1..][..24] == bits[33..57] && bits[32..][1..][24..] == bits[57..]
  {
  }

  lemma SymbolsInTable(b: Body, bits: seq<bool>, syms: seq<int>, end: Status)
    requires Stream(b.tables, b.selector, bits, syms, end) && Tables(b.tables, AlphaSize(b.inUse))
    ensures forall i :: 0 <= i < |syms| ==> 0 <= syms[i] < AlphaSize(b.inUse)
  {
    SymbolsCoded(b, bits, |syms|);
  }

  lemma {:induction false} SymbolsCoded(b: Body, bits: seq<bool>, k: nat)
    requires Selects(b.tables, b.selector) && Tables(b.tables, AlphaSize(b.inUse))
    ensures var g := GetSymbols(b.tables, b.selector, bits, k);
            g.Parsed? ==> forall i :: 0 <= i < k ==> 0 <= g.value[i] < AlphaSize(b.inUse)
  {
    hide AlphaSize, Codable;
    if k > 0 { SymbolsCoded(b, bits, k - 1); }
  }

  lemma FirstMark(syms: seq<int>, EOB: int) returns (k: nat)
    ensures M.EndsAt(syms, k, EOB)
  {
    k := 0;
    while k < |syms| && syms[k] != EOB
      invariant k <= |syms| && forall i :: 0 <= i < k ==> syms[i] != EOB
    {
      k := k + 1;
    }
  }

  lemma BelowMark(syms: seq<int>, k: nat, n: nat, maxBlock: nat)
    requires 1 <= n <= 256 && k < |syms| && M.EndsAt(syms, k, n + 1)
    requires forall i :: 0 <= i < |syms| ==> 0 <= syms[i] <= n + 1
    requires M.BlockState(syms, k, maxBlock).Going?
    ensures AllBelow(M.BlockState(syms, k, maxBlock).out, n)
  {
    hide Read;
    SmallOut(syms[..k], Identity(256), n, maxBlock);
    var s := Read(syms[..k], Identity(256), maxBlock);
    assert s.list[..n][0] == s.list[0];
  }

  /** The tables, then the symbols: the column of the block lands in tt, its byte counts in unzftab. */
  method ReadColumn(r: BitReader, seqToUnseq: array<int>, tt: array<int>, unzftab: array<int>, nblockMAX: nat)
    returns (st: Status, nblock: nat, ghost b: Body)
    requires r.Valid() && seqToUnseq.Length == 256 && AllBytes(seqToUnseq[..]) && unzftab.Length == 256
    requires tt != unzftab && unzftab != seqToUnseq && tt != seqToUnseq && nblockMAX <= tt.Length
    modifies r, seqToUnseq, tt, unzftab
    ensures st.Fine? ==> r.Valid()
    ensures !GetBody(old(r.Pending())).Parsed? ==> st == StatusOf(GetBody(old(r.Pending())))
    ensures GetBody(old(r.Pending())).Parsed? ==>
              Selects(GetBody(old(r.Pending())).value.tables, GetBody(old(r.Pending())).value.selector)
    ensures GetBody(old(r.Pending())).Parsed? ==>
              var p := GetBody(old(r.Pending()));
              var c := GetColumn(p.value, p.rest, nblockMAX);
              && st == StatusOf(c)
              && (st.Fine? ==> nblock <= nblockMAX && c == Parsed(tt[..nblock], r.Pending()))
    ensures st.Fine? ==> nblock <= tt.Length && AllBytes(tt[..nblock])
    ensures st.Fine? ==> forall c :: 0 <= c < 256 ==> unzftab[c] == Occ(tt[..nblock], 0, nblock, c)
  {
    hide AllBelow, AllDecode, B.At, BitReader.Pending, BitReader.Valid, GetBody, GetColumn, GetSymbols, M.BlockState,
      M.EndsAt, M.Outcome, M.Stored, Maps, Occ, Selects, StatusOf, Stream, SymbolReader.At, SymbolReader.Count,
      SymbolReader.Valid, Tables, Unmapped, Used;
    nblock := 0;
    var ts, body;
    st, body, ts := ReadBody(r, seqToUnseq);
    b := body;
    BodyStatus(GetBody(old(r.Pending())));
    if !st.Fine? { return; }
    ghost var bits := r.Pending();
    ghost var syms, end := WholeStream(body.tables, body.selector, bits);
    ghost var k := FirstMark(syms, AlphaSize(body.inUse) - 1);
    SymbolsInTable(body, bits, syms, end);
    var src := new SymbolReader(r, ts, body.selector, body.tables);
    src.Begun(syms, end);
    ghost var out;
    var EOB := AlphaSize(body.inUse) - 1;
    assert EOB == |Used(body.inUse, 256)| + 1;
    assert forall i :: 0 <= i < 256 ==> 0 <= seqToUnseq[i] < 256 by {
      assert forall i :: 0 <= i < 256 ==> seqToUnseq[i] == seqToUnseq[..][i];
    }
    st, nblock, out := M.DecodeColumn(src, EOB, seqToUnseq, tt, unzftab, nblockMAX, syms, end, k);
    OutcomeIsColumn(body, bits, nblockMAX, syms, end, k);
    if st.Fine? {
      BelowMark(syms, k, EOB - 1, nblockMAX);
      StoredColumn(body, tt[..], unzftab[..], seqToUnseq[..], out);
      src.Finished(syms, end, k + 1);
    }
  }

  lemma BodyStatus(p: Parse<Body>)
    ensures StatusOf(p).Fine? <==> p.Parsed?
  {
  }

  lemma WalkIsUnsorted(col: seq<int>, p: seq<int>, origPtr: nat, n: nat)
    requires AllBytes(col) && B.IsInverse(col, p) && origPtr < |col|
    ensures B.Walk(p, col, origPtr, n) == Unsorted(col, origPtr, n)
  {
    InverseThere(col);
    var q :| B.IsInverse(col, q) && Unsorted(col, origPtr, n) == B.Walk(q, col, origPtr, n);
    forall r | 0 <= r < |p| ensures p[r] == q[r] {
      assert B.LinksOut(col, p, r) && B.LinksBack(col, q, p[r]);
    }
    assert p == q;
  }

  /** Undoing the sort, in either form. */
  method Unsort(small: bool, tt: array<int>, ll4: array<int>, unzftab: array<int>, limit: nat, nblock: nat, origPtr: nat)
    returns (out: seq<int>)
    requires tt != ll4 && unzftab != tt && unzftab != ll4 && unzftab.Length == 256
    requires origPtr < nblock <= limit && limit <= 900000 && limit <= tt.Length && limit <= 2 * ll4.Length
    requires AllBytes(tt[..nblock]) && AllBytes(ll4[..])
    requires forall c :: 0 <= c < 256 ==> unzftab[c] == Occ(tt[..nblock], 0, nblock, c)
    modifies tt, ll4
    ensures out == Unsorted(old(tt[..nblock]), origPtr, nblock + 2)
  {
    hide B.IsInverse, B.IsMap, B.Starts, B.Walk, IsPermutation, Occ, Unsorted;
    ghost var col := tt[..nblock];
    assert forall i :: 0 <= i < ll4.Length ==> 0 <= ll4[i] < 256 by {
      assert forall i :: 0 <= i < ll4.Length ==> ll4[i] == ll4[..][i];
    }
    var ok, cftab := B.BuildCftab(unzftab, nblock, col);
    ghost var p := B.InverseExists(col);
    var corrupt;
    if small {
      corrupt, out := B.ReadSmall(tt, ll4, cftab, limit, nblock, origPtr, nblock + 2, col, p);
    } else {
      corrupt, out := B.ReadFast(tt, cftab, limit, nblock, origPtr, nblock + 2, col, p);
    }
    WalkIsUnsorted(col, p, origPtr, nblock + 2);
  }

  /** BZ2_decompress from a block's magic number to its last byte, before any randomisation is taken off. The result
      is a function of the bits: the same for either form of the inverse and for any cut of the input into calls. */
  method DecompressBlock(r: BitReader, size: nat, small: bool) returns (st: Status, block: Block)
    requires r.Valid() && 1 <= size <= 9
    modifies r
    ensures st == StatusOf(GetBlock(old(r.Pending()), size))
    ensures st.Fine? ==> r.Valid() && GetBlock(old(r.Pending()), size) == Parsed(block, r.Pending())
  {
    hide BitReader.Pending, BitReader.Valid, GetBody, GetColumn, GetHeader, Occ, Selects, SymbolReader.Valid,
      Unsorted;
    block := Block(0, false, [], []);
    var h;
    st, h := ReadHeader(r);
    if !st.Fine? { return; }
    var nblockMAX := 100000 * size;
    if h.origPtr > 10 + nblockMAX { return DataError, block; }
    var tt := new int[nblockMAX](_ => 0);
    var ll4 := new int[(1 + nblockMAX) / 2](_ => 0);
    var seqToUnseq := new int[256](_ => 0);
    var unzftab := new int[256](_ => 0);
    var nblock;
    ghost var b;
    st, nblock, b := ReadColumn(r, seqToUnseq, tt, unzftab, nblockMAX);
    if !st.Fine? { return; }
    if h.origPtr >= nblock { return DataError, block; }
    var out := Unsort(small, tt, ll4, unzftab, nblockMAX, nblock, h.origPtr);
    block := Block(h.crc, h.randomised, out[..nblock], out[nblock..]);
  }

  /** A block that can be read has bytes, and they are bytes. */
  lemma BlockBytes(bits: seq<bool>, size: nat)
    requires GetBlock(bits, size).Parsed?
    ensures var b := GetBlock(bits, size).value; b.bytes != [] && AllBytes(b.bytes) && AllBytes(b.beyond) && |b.beyond| == 2
  {
    hide GetHeader, GetBody, GetColumn, Unsorted;
    var h := GetHeader(bits);
    var p := GetBody(h.rest);
    var col := GetColumn(p.value, p.rest, 100000 * size).value;
    UnsortedBytes(col, h.value.origPtr, |col| + 2);
  }

  lemma UnsortedBytes(col: seq<int>, o: nat, n: nat)
    requires AllBytes(col) && o < |col|
    ensures AllBytes(Unsorted(col, o, n))
  {
    InverseThere(col);
    var q :| B.IsInverse(col, q) && Unsorted(col, o, n) == B.Walk(q, col, o, n);
    WalkBytes(q, col, o, n);
  }

  lemma {:induction false} WalkBytes(p: seq<int>, col: seq<int>, o: nat, n: nat)
    requires B.IsMap(p) && o < |p| == |col| && AllBytes(col)
    ensures AllBytes(B.Walk(p, col, o, n))
  {
    if n > 0 { WalkBytes(p, col, o, n - 1); }
  }

  // ----- encoding

  /** Which bytes occur. */
  ghost function InUse(b: seq<byte>): (r: seq<bool>)
    ensures |r| == 256 && forall c :: 0 <= c < 256 ==> (r[c] <==> c in b)
  {
    seq(256, i requires 0 <= i < 256 => i in b)
  }

  /** The list number of each byte that occurs. */
  ghost function Numbers(inUse: seq<bool>): (r: seq<int>)
    requires |inUse| == 256
    ensures |r| == 256 && forall c :: 0 <= c < 256 ==> r[c] == if inUse[c] then |Used(inUse, c)| else 0
  {
    seq(256, i requires 0 <= i < 256 => if inUse[i] then |Used(inUse, i)| else 0)
  }

  /** The numbered column the sorted block gives. */
  ghost function BlockColumn(b: seq<byte>, f: seq<int>): (r: seq<int>)
    requires B.Sorted(b, f)
    ensures |r| == |b|
  {
    E.Column(b, f, Numbers(InUse(b)))
  }

  /** The symbols the block is sent as. */
  ghost function BlockSymbols(b: seq<byte>, f: seq<int>): (r: seq<int>)
    requires B.Sorted(b, f)
    ensures |r| <= |b| + 1
  {
    var n := |Used(InUse(b), 256)|;
    EncodedColumn(BlockColumn(b, f), Identity(n)) + [n + 1]
  }

  /** The choices the encoder makes for a block. */
  datatype Sent = Sent(f: seq<int>, origPtr: nat, tables: seq<seq<int>>, selector: seq<int>)

  ghost predicate GoodChoices(b: seq<byte>, s: Sent)
  {
    && B.Sorted(b, s.f) && s.origPtr < |b| && s.f[s.origPtr] == 0
    && 2 <= |s.tables| <= N_GROUPS && Coded(s.tables, AlphaSize(InUse(b))) && Selects(s.tables, s.selector)
    && |s.selector| == T.Groups(|BlockSymbols(b, s.f)|)
  }

  /** The tables and selectors are those that the block's symbols call for. */
  ghost predicate WellChosen(b: seq<byte>, s: Sent)
  {
    B.Sorted(b, s.f) && T.ChosenFor(s.tables, s.selector, BlockSymbols(b, s.f), AlphaSize(InUse(b)))
  }

  function HeaderBits(crc: nat, origPtr: nat): seq<bool>
  {
    ToBits(32, crc) + ([false] + ToBits(24, origPtr))
  }

  /** The bits of a block, for its checksum and the encoder's choices. */
  ghost function BlockBits(b: seq<byte>, crc: nat, s: Sent): seq<bool>
    requires GoodChoices(b, s)
  {
    TablesThere(s.tables, AlphaSize(InUse(b)));
    HeaderBits(crc, s.origPtr) + W.BodyBits(InUse(b), s.tables, s.selector, BlockSymbols(b, s.f))
  }

  lemma TablesThere(tables: seq<seq<int>>, alphaSize: nat)
    requires Tables(tables, alphaSize) && alphaSize > 0
    ensures forall t :: 0 <= t < |tables| ==> 0 < |tables[t]|
  {
  }

  /** The column's numbers are those of used bytes, and lead back to the bytes. */
  lemma ColumnBack(b: seq<byte>, f: seq<int>)
    requires B.Sorted(b, f)
    ensures var used, col := Used(InUse(b), 256), BlockColumn(b, f);
            && 1 <= |used| <= 256 && AllBelow(col, |used|)
            && B.IsColumn(b, f, Unmapped(col, used)) && AllBytes(Unmapped(col, used))
  {
    hide Used;
    var inUse, col := InUse(b), BlockColumn(b, f);
    var used := Used(inUse, 256);
    forall i | 0 <= i < |b| ensures 0 <= col[i] < |used| && used[col[i]] == b[Prev(|b|, f[i])] {
      var c := b[Prev(|b|, f[i])];
      assert c in b;
      MapsInverse(inUse, c);
    }
    assert 0 <= col[0] < |used|;
  }

  lemma {:induction false} EncodedRange(col: seq<int>, k: nat, list: seq<int>)
    requires k <= |col|
    ensures forall i :: 0 <= i < |Encoded(col, k, list).syms| ==> 0 <= Encoded(col, k, list).syms[i] <= |list|
  {
    hide MoveToFront, IndexOf;
    if k > 0 {
      EncodedRange(col, k - 1, list);
      var e := Encoded(col, k - 1, list);
      DigitsRange(e.pending);
      if |e.list| == 0 { assert e.pending == 0 by { PendingOfNone(col, k - 1, list); } }
    }
  }

  lemma {:induction false} PendingOfNone(col: seq<int>, k: nat, list: seq<int>)
    requires k <= |col| && list == []
    ensures Encoded(col, k, list).pending == 0
  {
    if k > 0 { PendingOfNone(col, k - 1, list); }
  }

  lemma {:induction false} DigitsRange(z: nat)
    ensures forall i :: 0 <= i < |RunDigits(z)| ==> 0 <= RunDigits(z)[i] <= 1
  {
    if z > 0 && z - 1 >= 2 { DigitsRange((z - 1 - 2) / 2 + 1); }
  }

  /** All symbols but the last are below the end mark. */
  lemma SymbolsRange(b: seq<byte>, f: seq<int>)
    requires B.Sorted(b, f)
    ensures var n, syms := |Used(InUse(b), 256)|, BlockSymbols(b, f);
            && 1 <= n <= 256 && syms[|syms| - 1] == n + 1
            && (forall i :: 0 <= i < |syms| - 1 ==> 0 <= syms[i] <= n)
  {
    hide Used, RunDigits, Encoded;
    ColumnBack(b, f);
    var n, col := |Used(InUse(b), 256)|, BlockColumn(b, f);
    var e := Encoded(col, |col|, Identity(n));
    EncodedRange(col, |col|, Identity(n));
    DigitsRange(e.pending);
  }

  /** The decoder's symbol machine, started on the full list, undoes the encoder's. */
  lemma ColumnDecoded(b: seq<byte>, f: seq<int>, maxBlock: nat)
    requires B.Sorted(b, f) && |b| <= maxBlock && |b| < MAX_WEIGHT
    ensures var col, n := BlockColumn(b, f), |Used(InUse(b), 256)|;
            var s := Decoded(EncodedColumn(col, Identity(n)), Identity(256), maxBlock);
            s.Going? && s.out == col
  {
    hide Used, Read, EncodedColumn, Encoded;
    ColumnBack(b, f);
    var col, n := BlockColumn(b, f), |Used(InUse(b), 256)|;
    E.IdentityLists(n);
    EncodeThenDecode(col, Identity(n), n, maxBlock);
    var more := seq(256 - n, i => i + n);
    assert Identity(256) == Identity(n) + more;
    LongerList(EncodedColumn(col, Identity(n)), Identity(n), more, maxBlock);
  }

  lemma HeaderBack(crc: nat, origPtr: nat, rest: seq<bool>)
    requires crc < WORD && origPtr < 0x100_0000
    ensures GetHeader(HeaderBits(crc, origPtr) + rest) == Parsed(Header(crc, false, origPtr), rest)
  {
    hide ToBits, Value;
    Pow2Values();
    ValueToBits(32, crc);
    ValueToBits(24, origPtr);
    var bits := HeaderBits(crc, origPtr) + rest;
    assert bits[..32] == ToBits(32, crc) && bits[33..57] == ToBits(24, origPtr) && bits[57..] == rest;
  }

  lemma SymbolsStop(b: seq<byte>, s: Sent, rest: seq<bool>)
    requires GoodChoices(b, s)
    ensures var syms, body := BlockSymbols(b, s.f), Body(InUse(b), s.selector, s.tables);
            var bits := PutSymbols(s.tables, s.selector, syms, |syms|) + rest;
            && GetSymbols(s.tables, s.selector, bits, |syms|) == Parsed(syms, rest)
            && StopsAt(body, bits, |syms| - 1)
  {
    hide PutSymbols, GetSymbols, Used, Coded;
    var syms, body := BlockSymbols(b, s.f), Body(InUse(b), s.selector, s.tables);
    SymbolsRange(b, s.f);
    PutGetSymbols(s.tables, s.selector, AlphaSize(InUse(b)), syms, |syms|, rest);
    assert syms[..|syms|] == syms;
  }

  /** The bits of a block decode to its bytes: for every block, and every choice of sort order among equal rotations,
      of tables and of selectors. */
  lemma BlockBack(b: seq<byte>, crc: nat, s: Sent, size: nat, rest: seq<bool>)
    requires GoodChoices(b, s) && crc < WORD && |b| <= 100000 * size <= 900000
    ensures var r := GetBlock(BlockBits(b, crc, s) + rest, size);
            r.Parsed? && r.rest == rest && r.value.crc == crc && !r.value.randomised && r.value.bytes == b
  {
    hide AllBelow, AllBytes, BlockColumn, CodesFit, Decoded, EncodedColumn, GetBody, GetColumn, GetHeader,
      GetSymbols, HeaderBits, Identity, InUse, IsPermutation, Prev, PutSymbols, Selects, SortedBy, StopsAt, Tables,
      Unmapped, Unsorted, Used, W.BodyBits;
    var syms, body := BlockSymbols(b, s.f), Body(InUse(b), s.selector, s.tables);
    var col := BlockColumn(b, s.f);
    var used := Used(InUse(b), 256);
    TablesThere(s.tables, AlphaSize(InUse(b)));
    ColumnBack(b, s.f);
    Assoc(HeaderBits(crc, s.origPtr), W.BodyBits(InUse(b), s.tables, s.selector, syms), rest);
    HeaderBack(crc, s.origPtr, W.BodyBits(InUse(b), s.tables, s.selector, syms) + rest);
    BodyBack(InUse(b), s.tables, s.selector, syms, rest);
    var bits := PutSymbols(s.tables, s.selector, syms, |syms|) + rest;
    SymbolsStop(b, s, rest);
    ColumnThere(body, bits, 100000 * size, |syms| - 1);
    ColumnDecoded(b, s.f, 100000 * size);
    assert ColumnAt(body, bits, 100000 * size, |syms| - 1) == Parsed(Unmapped(col, used), rest) by {
      assert syms[..|syms| - 1] == EncodedColumn(col, Identity(|used|));
    }
    UnsortedSpells(b, s.f, Unmapped(col, used), s.origPtr);
  }

  /** Unsorting the column of a sorted block from the block's own row gives the block. */
  lemma UnsortedSpells(b: seq<byte>, f: seq<int>, col: seq<int>, o: nat)
    requires B.Sorted(b, f) && B.IsColumn(b, f, col) && AllBytes(col) && o < |b| && f[o] == 0
    ensures Unsorted(col, o, |b| + 2)[..|b|] == b
  {
    var p := B.InverseExists(col);
    WalkIsUnsorted(col, p, o, |b| + 2);
    WalkStart(p, col, o, |b|);
    B.WalkSpellsBlock(b, f, col, p, o, |b|);
    assert b[..|b|] == b;
  }

  lemma WalkStart(p: seq<int>, col: seq<int>, o: nat, n: nat)
    requires B.IsMap(p) && o < |p| == |col|
    ensures B.Walk(p, col, o, n + 2)[..n] == B.Walk(p, col, o, n)
  {
    assert B.Walk(p, col, o, n + 2) == B.Walk(p, col, o, n + 1) + [B.Spelled(p, col, o, n + 1)];
  }
}
