/** GET_MTF_VAL: the decoder takes the block's symbols from the bit stream, fifty to a selector, through the tables
    made by BZ2_hbCreateDecodeTables. */
module SymbolReader {
  import opened Bits
  import opened BitIO
  import opened BlockFormat
  import opened Permutations
  import C = HuffmanCodes

  /** How a step of the decoder ends. Starving: all input is used up; more could come. Overrunning: the next step would write
      past the end of an array. */
  datatype Status = Fine | Starving | DataError | Overrunning

  function StatusOf<T>(p: Parse<T>): Status
  {
    match p
    case Parsed(_, _) => Fine
    case Starved => Starving
    case Corrupt => DataError
    case Overrun => Overrunning
  }

  datatype DecodeTable = DecodeTable(limit: seq<int>, base: seq<int>, perm: seq<int>, minLen: nat)

  ghost predicate Decodes(t: DecodeTable, len: seq<int>)
  {
    exists maxLen :: C.IsTables(len, t.limit, t.base, t.perm, t.minLen, maxLen)
  }

  ghost predicate AllDecode(ts: seq<DecodeTable>, tables: seq<seq<int>>)
  {
    |ts| == |tables| && forall t :: 0 <= t < |ts| ==> Decodes(ts[t], tables[t])
  }

  /** The bits read so far are those of no code: they are past all codes of up to zn - 1 bits, and of zn too when the
      comparison with the limit has said so. */
  lemma NoCode(len: seq<int>, bits: seq<bool>, zn: nat)
    requires C.LensIn(len, 1, C.LONGEST_CODE) && C.Past(len, zn, bits) && (zn >= C.LONGEST_CODE || zn == |bits|)
    ensures forall s :: !C.StartsWith(len, s, bits)
  {
    forall s ensures !C.StartsWith(len, s, bits) {
      if C.StartsWith(len, s, bits) { C.PastAll(len, s, zn, bits); }
    }
  }

  lemma Stay(len: seq<int>, t: DecodeTable, maxLen: nat, zn: nat, bits: seq<bool>)
    requires C.IsTables(len, t.limit, t.base, t.perm, t.minLen, maxLen) && t.minLen <= zn <= C.LONGEST_CODE
    requires zn <= |bits| && Value(bits[..zn]) > t.limit[zn] && Value(bits[..zn]) >= C.First(len, zn)
    requires zn > t.minLen ==> C.Past(len, zn - 1, bits)
    ensures C.Past(len, zn, bits)
  {
    if zn > maxLen {
      C.NoneAt(len, zn);
      C.PastNext(len, zn - 1, bits);
    }
  }

  lemma ReadOneMore(bits: seq<bool>, zn: nat)
    requires zn < |bits|
    ensures bits[zn..][..1] == [bits[zn]] && Value([bits[zn]]) == (if bits[zn] then 1 else 0)
    ensures bits[zn..][1..] == bits[zn + 1..]
  {
    assert Value([]) == 0;
    assert [bits[zn]][..0] == [];
  }

  /** The first bits of no string of codes are a whole code: there are too few. */
  lemma TooFew(len: seq<int>, lo: nat, bits: seq<bool>)
    requires C.LensIn(len, lo, C.LONGEST_CODE) && |bits| < lo
    ensures forall s :: !C.StartsWith(len, s, bits)
  {
  }

  lemma SomeShortest(len: seq<int>, minLen: nat, n: nat)
    requires minLen in len && n == minLen
    ensures C.Count(len, n) >= 1
  {
    var i :| 0 <= i < |len| && len[i] == n;
    OccPositive(len, 0, |len|, i);
  }

  /** Before the first comparison, or after it has failed for every length so far. */
  ghost predicate Walking(len: seq<int>, minLen: nat, zn: nat, zvec: nat, bits: seq<bool>)
  {
    && minLen <= zn <= |bits| && zvec == Value(bits[..zn]) && zvec >= C.First(len, zn)
    && (zn > minLen ==> C.Past(len, zn - 1, bits) && zvec > 0)
  }

  /** One more bit, after a failed comparison. */
  lemma WalkOn(len: seq<int>, t: DecodeTable, maxLen: nat, zn: nat, zvec: nat, bits: seq<bool>)
    requires C.IsTables(len, t.limit, t.base, t.perm, t.minLen, maxLen) && zn <= C.LONGEST_CODE
    requires Walking(len, t.minLen, zn, zvec, bits) && zvec > t.limit[zn]
    ensures C.Past(len, zn, bits)
    ensures zn < |bits| ==> Walking(len, t.minLen, zn + 1, 2 * zvec + (if bits[zn] then 1 else 0), bits)
  {
    Stay(len, t, maxLen, zn, bits);
    if zn == t.minLen { SomeShortest(len, t.minLen, zn); }
    if zn < |bits| {
      C.PastNext(len, zn, bits);
      C.ValueNext(bits, zn);
    }
  }

  lemma WalkStart(len: seq<int>, t: DecodeTable, maxLen: nat, bits: seq<bool>)
    requires C.IsTables(len, t.limit, t.base, t.perm, t.minLen, maxLen) && t.minLen <= |bits|
    ensures Walking(len, t.minLen, t.minLen, Value(bits[..t.minLen]), bits)
  {
    C.FirstBelow(len, t.minLen, t.minLen);
  }

  /** The lookup of one code. The range check on the table index never fails. */
  method LookUp(r: BitReader, t: DecodeTable, ghost len: seq<int>) returns (st: Status, sym: int)
    requires r.Valid() && Decodes(t, len)
    modifies r
    ensures r.Valid() && st == StatusOf(GetSymbol(len, old(r.Pending())))
    ensures st.Fine? ==> GetSymbol(len, old(r.Pending())) == Parsed(sym, r.Pending())
  {
    hide C.StartsWith, C.Past, C.IsTables, Value, C.First, Walking, BitReader.Pending;
    ghost var bits := r.Pending();
    ghost var maxLen :| C.IsTables(len, t.limit, t.base, t.perm, t.minLen, maxLen);
    TableShape(len, t, maxLen);
    sym := 0;
    var zn := t.minLen;
    var ok: bool, zvec: nat;
    ok, zvec := r.GetBits(zn);
    if !ok {
      TooFew(len, zn, bits);
      return Starving, 0;
    }
    WalkStart(len, t, maxLen, bits);
    while true
      invariant r.Valid() && t.minLen <= zn <= C.LONGEST_CODE + 1 && Walking(len, t.minLen, zn, zvec, bits)
      invariant zn <= |bits| && r.Pending() == bits[zn..]
      invariant zn == C.LONGEST_CODE + 1 ==> C.Past(len, C.LONGEST_CODE, bits)
      decreases C.LONGEST_CODE + 1 - zn
    {
      if zn > 20 {
        NoCode(len, bits, C.LONGEST_CODE);
        return DataError, 0;
      }
      if zvec <= t.limit[zn] { break; }
      WalkOn(len, t, maxLen, zn, zvec, bits);
      var zj;
      ok, zj := r.GetBits(1);
      if !ok {
        NoCode(len, bits, zn);
        return Starving, 0;
      }
      ReadOneMore(bits, zn);
      zn := zn + 1;
      zvec := 2 * zvec + zj;
    }
    Found(len, t, maxLen, zn, zvec, bits);
    if zvec - t.base[zn] < 0 || zvec - t.base[zn] >= C.MAX_ALPHA_SIZE {
      assert false;
    }
    sym := t.perm[zvec - t.base[zn]];
    st := Fine;
  }

  lemma TableShape(len: seq<int>, t: DecodeTable, maxLen: nat)
    requires C.IsTables(len, t.limit, t.base, t.perm, t.minLen, maxLen)
    ensures 1 <= t.minLen <= C.LONGEST_CODE && C.LensIn(len, t.minLen, C.LONGEST_CODE)
    ensures |t.limit| == |t.base| == |t.perm| == C.MAX_ALPHA_SIZE
  {
  }

  lemma Found(len: seq<int>, t: DecodeTable, maxLen: nat, zn: nat, zvec: nat, bits: seq<bool>)
    requires C.IsTables(len, t.limit, t.base, t.perm, t.minLen, maxLen) && zn <= C.LONGEST_CODE
    requires Walking(len, t.minLen, zn, zvec, bits) && zvec <= t.limit[zn]
    ensures 0 <= zvec - t.base[zn] < C.MAX_ALPHA_SIZE
    ensures GetSymbol(len, bits) == Parsed(t.perm[zvec - t.base[zn]], bits[zn..])
  {
    C.Landing(len, t.limit, t.base, t.perm, t.minLen, maxLen, zn, bits);
    GetSymbolIs(len, t.perm[zvec - t.base[zn]], bits);
  }

  // ----- the stream of symbols

  /** The longest run of symbols the bits hold, and how reading on ends. */
  ghost predicate Stream(tables: seq<seq<int>>, selector: seq<int>, bits: seq<bool>, syms: seq<int>, end: Status)
  {
    && Selects(tables, selector)
    && GetSymbols(tables, selector, bits, |syms|).Parsed? && GetSymbols(tables, selector, bits, |syms|).value == syms
    && !GetSymbols(tables, selector, bits, |syms| + 1).Parsed?
    && end == StatusOf(GetSymbols(tables, selector, bits, |syms| + 1))
  }

  lemma WholeStream(tables: seq<seq<int>>, selector: seq<int>, bits: seq<bool>) returns (syms: seq<int>, end: Status)
    requires Selects(tables, selector)
    ensures Stream(tables, selector, bits, syms, end)
  {
    syms, end := StreamFrom(tables, selector, bits, 0);
  }

  lemma StreamFrom(tables: seq<seq<int>>, selector: seq<int>, bits: seq<bool>, k: nat)
    returns (syms: seq<int>, end: Status)
    requires Selects(tables, selector) && GetSymbols(tables, selector, bits, k).Parsed?
    ensures Stream(tables, selector, bits, syms, end)
    decreases G_SIZE * |selector| - k
  {
    if GetSymbols(tables, selector, bits, k + 1).Parsed? {
      syms, end := StreamFrom(tables, selector, bits, k + 1);
    } else {
      syms := GetSymbols(tables, selector, bits, k).value;
      end := StatusOf(GetSymbols(tables, selector, bits, k + 1));
    }
  }

  class SymbolReader {
    const r: BitReader
    const ts: seq<DecodeTable>
    const selector: seq<int>
    ghost const tables: seq<seq<int>>
    ghost const bits: seq<bool>
    var groupNo: int
    var groupPos: int
    var gSel: int

    constructor (r: BitReader, ts: seq<DecodeTable>, selector: seq<int>, ghost tables: seq<seq<int>>)
      requires r.Valid() && AllDecode(ts, tables) && Selects(tables, selector)
      ensures this.r == r && this.tables == tables && this.selector == selector && bits == r.Pending()
      ensures Valid() && Count() == 0 && r.Pending() == old(r.Pending())
      ensures GetSymbols(tables, selector, bits, 0) == Parsed([], r.Pending())
    {
      this.r, this.ts, this.selector, this.tables, this.bits := r, ts, selector, tables, r.Pending();
      groupNo, groupPos, gSel := -1, 0, 0;
    }

    /** How many symbols have been read. */
    ghost function Count(): int
      reads this
    {
      G_SIZE * (groupNo + 1) - groupPos
    }

    ghost predicate Valid()
      reads this, r
    {
      && r.Valid() && AllDecode(ts, tables) && Selects(tables, selector)
      && -1 <= groupNo < |selector| && 0 <= groupPos < G_SIZE && (groupNo == -1 ==> groupPos == 0)
      && (groupPos > 0 ==> gSel == selector[groupNo])
    }

    /** p symbols of the stream are read. */
    ghost predicate At(syms: seq<int>, end: Status, p: int)
      reads this, r
    {
      && Valid() && 0 <= p <= |syms| && Count() == p && Stream(tables, selector, bits, syms, end)
      && GetSymbols(tables, selector, bits, p) == Parsed(syms[..p], r.Pending())
    }

    method Next(ghost syms: seq<int>, ghost end: Status, ghost p: int) returns (st: Status, sym: int)
      requires At(syms, end, p)
      modifies this, r
      ensures if p < |syms| then st.Fine? && sym == syms[p] && At(syms, end, p + 1) else st == end && !st.Fine?
    {
      hide Decodes, GetSymbol;
      sym := 0;
      Ahead(syms, end, p);
      if groupPos == 0 {
        if groupNo + 1 >= |selector| {
          assert p / G_SIZE >= |selector|;
          return DataError, 0;
        }
        groupNo := groupNo + 1;
        groupPos := G_SIZE;
        gSel := selector[groupNo];
      }
      groupPos := groupPos - 1;
      assert p / G_SIZE == groupNo;
      assert TableOf(tables, selector, p) == tables[gSel];
      assert Decodes(ts[gSel], tables[gSel]);
      st, sym := LookUp(r, ts[gSel], tables[gSel]);
    }

    lemma Unfinished(syms: seq<int>, end: Status, p: int)
      requires At(syms, end, p)
      ensures !end.Fine?
    {
    }

    lemma Begun(syms: seq<int>, end: Status)
      requires Valid() && Count() == 0 && Stream(tables, selector, bits, syms, end)
      requires GetSymbols(tables, selector, bits, 0) == Parsed([], r.Pending())
      ensures At(syms, end, 0)
    {
    }

    lemma Finished(syms: seq<int>, end: Status, p: int)
      requires At(syms, end, p)
      ensures Selects(tables, selector) && p >= 0 && r.Valid()
      ensures GetSymbols(tables, selector, bits, p) == Parsed(syms[..p], r.Pending())
    {
    }

    lemma Ahead(syms: seq<int>, end: Status, p: int)
      requires At(syms, end, p)
      ensures p < |syms| ==> GetSymbols(tables, selector, bits, p + 1).Parsed?
                             && GetSymbols(tables, selector, bits, p + 1).value == syms[..p + 1]
      ensures p == |syms| ==> StatusOf(GetSymbols(tables, selector, bits, p + 1)) == end
    {
      if p < |syms| { SymbolsPrefix(tables, selector, bits, p + 1, |syms|); }
    }
  }
}
