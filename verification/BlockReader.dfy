/** BZ2_decompress on one block: from bits to tables, from tables to symbols, from symbols to the column. What comes out
    depends on the bits alone, not on how the input was cut into calls. */
module BlockReader {
  import opened Bits
  import opened BitIO
  import opened Counting
  import opened MtfSpec
  import opened BlockFormat
  import opened SymbolReader
  import opened SymbolMaps
  import M = MtfDecoder
  import W = BlockWriter
  import C = HuffmanCodes

  // ----- what the bits before the symbols say

  datatype Body = Body(inUse: seq<bool>, selector: seq<int>, tables: seq<seq<int>>)

  function AlphaSize(inUse: seq<bool>): nat
  {
    |Used(inUse, |inUse|)| + 2
  }

  function GetSelectors(bits: seq<bool>): (r: Parse<Moves>)
    ensures r.Parsed? ==> |r.rest| <= |bits|
  {
    match GetNum(3, bits)
    case Starved => Starved
    case Corrupt => Corrupt
    case Overrun => Overrun
    case Parsed(nGroups, r1) =>
      if nGroups < 2 || nGroups > N_GROUPS then Corrupt
      else match GetNum(15, r1)
        case Starved => Starved
        case Corrupt => Corrupt
        case Overrun => Overrun
        case Parsed(nSelectors, r2) =>
          if nSelectors < 1 then Corrupt
          else if nSelectors > MAX_SELECTORS && GetUnaries(nGroups, r2, MAX_SELECTORS + 1).Parsed? then Overrun
          else match GetUnaries(nGroups, r2, nSelectors)
            case Starved => Starved
            case Corrupt => Corrupt
            case Overrun => Overrun
            case Parsed(js, r3) => Parsed(AtPositions(js, nSelectors, nGroups), r3)
  }

  /** More selectors are announced than there is room for, and more than that follow: one more than there is room for is all
      that matters. */
  ghost predicate TooMany(bits: seq<bool>)
  {
    && |bits| >= 18 && 2 <= Value(bits[..3]) <= N_GROUPS && Value(bits[3..18]) > MAX_SELECTORS
    && exists js :: FollowAs(bits[18..], js, Value(bits[..3]))
  }

  ghost predicate FollowAs(bits: seq<bool>, js: seq<int>, nGroups: nat)
  {
    |js| == MAX_SELECTORS + 1 && (forall i :: 0 <= i < |js| ==> 0 <= js[i] < nGroups) && PutUnaries(js, |js|) <= bits
  }

  /** The decoder does not compare the count with the size of its arrays: it writes past the end of selectorMtf exactly when
      the stream goes on to that many selectors. */
  lemma OverrunExactly(bits: seq<bool>)
    ensures GetSelectors(bits).Overrun? <==> TooMany(bits)
  {
    hide Value, GetUnaries, PutUnaries, AtPositions;
    if |bits| >= 18 && 2 <= Value(bits[..3]) <= N_GROUPS {
      var nGroups, r2 := Value(bits[..3]), bits[18..];
      assert bits[3..][..15] == bits[3..18] && bits[3..][15..] == r2;
      if GetUnaries(nGroups, r2, MAX_SELECTORS + 1).Parsed? {
        GetPutUnaries(nGroups, r2, MAX_SELECTORS + 1);
        assert FollowAs(r2, GetUnaries(nGroups, r2, MAX_SELECTORS + 1).value, nGroups);
      }
      if TooMany(bits) {
        var js :| FollowAs(r2, js, nGroups);
        var u := PutUnaries(js, |js|);
        assert r2 == u + r2[|u|..];
        PutGetUnaries(js, nGroups, |js|, r2[|u|..]);
      }
    }
  }

  /** 18003 selectors, all of them the table in front. */
  lemma OverrunThere(rest: seq<bool>)
    ensures GetSelectors(ToBits(3, 2) + (ToBits(15, MAX_SELECTORS + 1) + (Zeros(MAX_SELECTORS + 1) + rest))).Overrun?
  {
    hide Value, ToBits, GetUnaries, PutUnaries, AtPositions, GetSelectors;
    var n := MAX_SELECTORS + 1;
    var js := seq(n, i => 0);
    UnaryZeros(js, n);
    var tail := Zeros(n) + rest;
    var bits := ToBits(3, 2) + (ToBits(15, n) + tail);
    W.SmallPowers();
    ValueToBits(3, 2);
    ValueToBits(15, n);
    assert bits[..3] == ToBits(3, 2) && bits[3..18] == ToBits(15, n) && bits[18..] == tail;
    assert FollowAs(tail, js, 2);
    OverrunExactly(bits);
  }

  lemma {:induction false} UnaryZeros(js: seq<int>, k: nat)
    requires k <= |js| && forall i :: 0 <= i < |js| ==> js[i] == 0
    ensures PutUnaries(js, k) == Zeros(k)
  {
    if k > 0 { UnaryZeros(js, k - 1); }
  }

  function GetBody(bits: seq<bool>): (r: Parse<Body>)
    ensures r.Parsed? ==> |r.rest| <= |bits|
  {
    match GetMap(bits)
    case Starved => Starved
    case Corrupt => Corrupt
    case Overrun => Overrun
    case Parsed(inUse, r1) =>
      if |Used(inUse, 256)| == 0 then Corrupt
      else match GetSelectors(r1)
        case Starved => Starved
        case Corrupt => Corrupt
        case Overrun => Overrun
        case Parsed(m, r2) =>
          match GetTables(AlphaSize(inUse), r2, |m.list|)
          case Starved => Starved
          case Corrupt => Corrupt
          case Overrun => Overrun
          case Parsed(tables, r3) => Parsed(Body(inUse, m.sent, tables), r3)
  }

  lemma PutGetSelectors(nGroups: nat, selector: seq<int>, rest: seq<bool>)
    requires 2 <= nGroups <= N_GROUPS && 1 <= |selector| <= MAX_SELECTORS
    requires forall i :: 0 <= i < |selector| ==> 0 <= selector[i] < nGroups
    ensures GetSelectors(W.ChoiceBits(nGroups, selector) + rest)
         == Parsed(Moves(Positions(selector, |selector|, nGroups).list, selector), rest)
  {
    hide GetNum, ToBits, GetUnaries, PutUnaries, AtPositions;
    var js := Positions(selector, |selector|, nGroups).sent;
    var u := PutUnaries(js, |selector|);
    W.SmallPowers();
    assert W.ChoiceBits(nGroups, selector) + rest == ToBits(3, nGroups) + (ToBits(15, |selector|) + (u + rest));
    PutGetNum(3, nGroups, ToBits(15, |selector|) + (u + rest));
    PutGetNum(15, |selector|, u + rest);
    PositionsInRange(selector, |selector|, nGroups);
    PutGetUnaries(js, nGroups, |selector|, rest);
    SelectorsBack(selector, |selector|, nGroups);
    assert js[..|selector|] == js && selector[..|selector|] == selector;
  }

  /** The decoder reads back the used bytes, the selectors and the tables that the encoder sent. */
  lemma BodyBack(inUse: seq<bool>, tables: seq<seq<int>>, selector: seq<int>, syms: seq<int>, rest: seq<bool>)
    requires |inUse| == 256 && |Used(inUse, 256)| > 0 && 2 <= |tables| <= N_GROUPS && 1 <= |selector| <= MAX_SELECTORS
    requires Tables(tables, AlphaSize(inUse)) && Selects(tables, selector) && |syms| <= G_SIZE * |selector|
    ensures GetBody(W.BodyBits(inUse, tables, selector, syms) + rest)
         == Parsed(Body(inUse, selector, tables), PutSymbols(tables, selector, syms, |syms|) + rest)
  {
    hide GetMap, PutMap, GetSelectors, W.ChoiceBits, GetTables, PutTables, PutSymbols, Positions;
    var a, b, c, d := PutMap(inUse), W.ChoiceBits(|tables|, selector), PutTables(tables, |tables|),
                      PutSymbols(tables, selector, syms, |syms|);
    Regroup4(a, b, c, d, rest);
    PutGetMap(inUse, b + (c + (d + rest)));
    PutGetSelectors(|tables|, selector, c + (d + rest));
    PutGetTables(tables, AlphaSize(inUse), |tables|, d + rest);
    assert tables[..|tables|] == tables;
  }

  lemma Regroup4(a: seq<bool>, b: seq<bool>, c: seq<bool>, d: seq<bool>, e: seq<bool>)
    ensures ((a + b) + (c + d)) + e == a + (b + (c + (d + e)))
  {
  }

  // ----- reading them

  method ReadBit(r: BitReader) returns (ok: bool, bit: bool)
    requires r.Valid()
    modifies r
    ensures r.Valid() && (ok <==> old(r.Pending()) != [])
    ensures ok ==> bit == old(r.Pending())[0] && r.Pending() == old(r.Pending())[1..]
    ensures !ok ==> r.Pending() == old(r.Pending())
  {
    ghost var bits := r.Pending();
    var v;
    ok, v := r.GetBits(1);
    if ok {
      assert bits[0..] == bits;
      ReadOneMore(bits, 0);
    }
    bit := v == 1;
  }

  method ReadRow(r: BitReader, inUse: array<bool>, base: nat) returns (ok: bool)
    requires r.Valid() && base + 16 <= inUse.Length && forall j :: base <= j < inUse.Length ==> !inUse[j]
    modifies r, inUse
    ensures r.Valid() && (ok <==> |old(r.Pending())| >= 16)
    ensures ok ==> inUse[base..base + 16] == old(r.Pending())[..16] && r.Pending() == old(r.Pending())[16..]
    ensures forall j :: 0 <= j < base || base + 16 <= j < inUse.Length ==> inUse[j] == old(inUse[j])
  {
    ghost var bits := r.Pending();
    var j := 0;
    while j < 16
      invariant 0 <= j <= 16 && j <= |bits| && r.Valid() && r.Pending() == bits[j..]
      invariant forall i :: 0 <= i < j ==> inUse[base + i] == bits[i]
      invariant forall i :: base + j <= i < inUse.Length ==> !inUse[i]
      invariant forall i :: 0 <= i < base || base + 16 <= i < inUse.Length ==> inUse[i] == old(inUse[i])
    {
      var uc;
      ok, uc := ReadBit(r);
      if !ok { return; }
      if uc { inUse[base + j] := true; }
      j := j + 1;
    }
    ok := true;
  }

  method ReadFlags(r: BitReader) returns (ok: bool, flags: seq<bool>)
    requires r.Valid()
    modifies r
    ensures r.Valid() && (ok <==> |old(r.Pending())| >= 16)
    ensures ok ==> flags == old(r.Pending())[..16] && r.Pending() == old(r.Pending())[16..]
  {
    ghost var bits := r.Pending();
    flags := [];
    while |flags| < 16
      invariant |flags| <= 16 && |flags| <= |bits| && r.Valid()
      invariant flags == bits[..|flags|] && r.Pending() == bits[|flags|..]
      decreases 16 - |flags|
    {
      var uc;
      ok, uc := ReadBit(r);
      if !ok { return; }
      flags := flags + [uc];
    }
    ok := true;
  }

  lemma {:induction false} RowsFail(flags: seq<bool>, bits: seq<bool>, k: nat, m: nat)
    requires k <= m <= |flags| && !GetRows(flags, bits, k).Parsed?
    ensures GetRows(flags, bits, m) == GetRows(flags, bits, k)
    decreases m
  {
    if k < m { RowsFail(flags, bits, k, m - 1); }
  }

  method ReadMap(r: BitReader) returns (st: Status, inUse: seq<bool>)
    requires r.Valid()
    modifies r
    ensures r.Valid() && st == StatusOf(GetMap(old(r.Pending())))
    ensures st.Fine? ==> GetMap(old(r.Pending())) == Parsed(inUse, r.Pending())
  {
    hide BitReader.Pending, BitReader.Valid, Zeros;
    ghost var bits0 := r.Pending();
    var used := new bool[256](_ => false);
    var ok, inUse16 := ReadFlags(r);
    if !ok { return Starving, []; }
    ghost var bits := r.Pending();
    var i := 0;
    while i < 16
      invariant 0 <= i <= 16 && r.Valid() && GetRows(inUse16, bits, i) == Parsed(used[..16 * i], r.Pending())
      invariant forall j :: 16 * i <= j < 256 ==> !used[j]
    {
      ghost var before, rest := used[..16 * i], r.Pending();
      if inUse16[i] {
        ok := ReadRow(r, used, i * 16);
        if !ok {
          RowsFail(inUse16, bits, i + 1, 16);
          return Starving, [];
        }
        assert used[..16 * (i + 1)] == before + used[16 * i..16 * i + 16];
      } else {
        assert used[..16 * (i + 1)] == before + Zeros(16);
      }
      i := i + 1;
    }
    st, inUse := Fine, used[..];
    assert used[..] == used[..256];
  }

  method ReadUnary(r: BitReader, nGroups: nat) returns (st: Status, j: nat)
    requires r.Valid() && nGroups > 0
    modifies r
    ensures r.Valid() && st == StatusOf(GetUnary(0, nGroups, old(r.Pending())))
    ensures st.Fine? ==> GetUnary(0, nGroups, old(r.Pending())) == Parsed(j, r.Pending())
  {
    j := 0;
    while true
      invariant r.Valid() && j < nGroups
      invariant GetUnary(0, nGroups, old(r.Pending())) == GetUnary(j, nGroups, r.Pending())
      decreases nGroups - j
    {
      var ok, uc := ReadBit(r);
      if !ok { return Starving, 0; }
      if !uc { return Fine, j; }
      j := j + 1;
      if j >= nGroups { return DataError, 0; }
    }
  }

  /** The selectors' positions, into selectorMtf: as many as it holds. */
  method ReadUnaries(r: BitReader, nGroups: nat, nSelectors: nat, selectorMtf: array<int>) returns (st: Status)
    requires r.Valid() && nGroups > 0 && selectorMtf.Length == MAX_SELECTORS
    modifies r, selectorMtf
    ensures r.Valid()
    ensures st == if nSelectors > MAX_SELECTORS && GetUnaries(nGroups, old(r.Pending()), MAX_SELECTORS + 1).Parsed?
                  then Overrunning else StatusOf(GetUnaries(nGroups, old(r.Pending()), nSelectors))
    ensures st.Fine? ==> nSelectors <= MAX_SELECTORS
                         && GetUnaries(nGroups, old(r.Pending()), nSelectors) == Parsed(selectorMtf[..nSelectors], r.Pending())
                         && forall i :: 0 <= i < nSelectors ==> 0 <= selectorMtf[i] < nGroups
  {
    ghost var bits := r.Pending();
    var i := 0;
    while i < nSelectors
      invariant 0 <= i <= nSelectors && i <= MAX_SELECTORS && r.Valid()
      invariant GetUnaries(nGroups, bits, i) == Parsed(selectorMtf[..i], r.Pending())
      invariant forall k :: 0 <= k < i ==> 0 <= selectorMtf[k] < nGroups
    {
      var j;
      st, j := ReadUnary(r, nGroups);
      if !st.Fine? {
        UnariesFail(nGroups, bits, i + 1, nSelectors);
        if nSelectors > MAX_SELECTORS { UnariesFail(nGroups, bits, i + 1, MAX_SELECTORS + 1); }
        return;
      }
      if i == selectorMtf.Length { return Overrunning; }
      ghost var before := selectorMtf[..i];
      selectorMtf[i] := j;
      assert selectorMtf[..i + 1] == before + [j];
      i := i + 1;
    }
    st := Fine;
  }

  /** One move to the front: entries 0..v-1 slide up. */
  method SlideUp(pos: array<int>, v0: nat, n: nat) returns (tmp: int)
    requires v0 < n <= pos.Length
    modifies pos
    ensures tmp == old(pos[v0]) && pos[..n] == MoveToFront(old(pos[..n]), v0)
  {
    ghost var l := pos[..n];
    tmp := pos[v0];
    var v := v0;
    while v > 0
      invariant 0 <= v <= v0
      invariant forall i :: v < i <= v0 ==> pos[i] == l[i - 1]
      invariant forall i :: 0 <= i <= v ==> pos[i] == l[i]
      invariant forall i :: v0 < i < n ==> pos[i] == l[i]
    {
      pos[v] := pos[v - 1];
      v := v - 1;
    }
    pos[0] := tmp;
    MoveToFrontAt(l, v0);
    assert pos[..n] == MoveToFront(l, v0);
  }

  method UndoMtf(selectorMtf: array<int>, nGroups: nat, nSelectors: nat, selector: array<int>)
    requires nGroups <= N_GROUPS && nSelectors <= selectorMtf.Length && nSelectors <= selector.Length && selector != selectorMtf
    requires forall i :: 0 <= i < nSelectors ==> 0 <= selectorMtf[i] < nGroups
    modifies selector
    ensures selector[..nSelectors] == AtPositions(selectorMtf[..nSelectors], nSelectors, nGroups).sent
  {
    hide MoveToFront;
    ghost var js := selectorMtf[..nSelectors];
    var pos := new int[N_GROUPS](_ => 0);
    var v := 0;
    while v < nGroups
      invariant 0 <= v <= nGroups && forall i :: 0 <= i < v ==> pos[i] == i
    {
      pos[v] := v;
      v := v + 1;
    }
    assert pos[..nGroups] == Identity(nGroups);
    var i := 0;
    while i < nSelectors
      invariant 0 <= i <= nSelectors && selectorMtf[..nSelectors] == js
      invariant Moves(pos[..nGroups], selector[..i]) == AtPositions(js, i, nGroups)
    {
      assert js[i] == selectorMtf[i];
      ghost var before := selector[..i];
      var tmp := SlideUp(pos, selectorMtf[i], nGroups);
      selector[i] := tmp;
      assert selector[..i + 1] == before + [tmp];
      i := i + 1;
    }
  }

  ghost predicate AllBelow(s: seq<int>, n: nat)
  {
    forall i :: 0 <= i < |s| ==> 0 <= s[i] < n
  }

  lemma {:induction false} AtPositionsInRange(js: seq<int>, k: nat, n: nat)
    requires k <= |js| && n > 0
    ensures AllBelow(AtPositions(js, k, n).sent, n) && AllBelow(AtPositions(js, k, n).list, n)
  {
    if k > 0 {
      AtPositionsInRange(js, k - 1, n);
      var l, j := AtPositions(js, k - 1, n).list, js[k - 1];
      if 0 <= j < n {
        MoveToFrontAt(l, j);
        forall i | 0 <= i < n ensures 0 <= MoveToFront(l, j)[i] < n {
          assert i < j || i == j || i > j;
        }
      }
    }
  }

  method ReadSelectors(r: BitReader) returns (st: Status, nGroups: nat, selector: seq<int>)
    requires r.Valid()
    modifies r
    ensures r.Valid() && st == StatusOf(GetSelectors(old(r.Pending())))
    ensures st.Fine? ==> GetSelectors(old(r.Pending())).value.sent == selector
                         && |GetSelectors(old(r.Pending())).value.list| == nGroups
                         && GetSelectors(old(r.Pending())).rest == r.Pending()
    ensures st.Fine? ==> 2 <= nGroups <= N_GROUPS && forall i :: 0 <= i < |selector| ==> 0 <= selector[i] < nGroups
  {
    hide GetUnaries, AtPositions, Value;
    nGroups, selector := 0, [];
    var ok, nSelectors;
    ok, nGroups := r.GetBits(3);
    if !ok { return Starving, 0, []; }
    if nGroups < 2 || nGroups > 6 { return DataError, 0, []; }
    ok, nSelectors := r.GetBits(15);
    if !ok { return Starving, 0, []; }
    if nSelectors < 1 { return DataError, 0, []; }
    var mtf, sel := new int[MAX_SELECTORS](_ => 0), new int[MAX_SELECTORS](_ => 0);
    st := ReadUnaries(r, nGroups, nSelectors, mtf);
    if !st.Fine? { return; }
    UndoMtf(mtf, nGroups, nSelectors, sel);
    AtPositionsInRange(mtf[..nSelectors], nSelectors, nGroups);
    selector := sel[..nSelectors];
  }

  /** The steps to one code length. The step may run far below 1 or above 20 only to be refused at once. */
  method ReadSteps(r: BitReader, curr0: int) returns (st: Status, curr: int)
    requires r.Valid()
    modifies r
    ensures r.Valid() && st == StatusOf(GetSteps(curr0, old(r.Pending())))
    ensures st.Fine? ==> GetSteps(curr0, old(r.Pending())) == Parsed(curr, r.Pending())
  {
    curr := curr0;
    while true
      invariant r.Valid() && GetSteps(curr0, old(r.Pending())) == GetSteps(curr, r.Pending())
      decreases |r.Pending()|
    {
      if curr < 1 || curr > 20 { return DataError, 0; }
      var ok, uc := ReadBit(r);
      if !ok { return Starving, 0; }
      if !uc { return Fine, curr; }
      ok, uc := ReadBit(r);
      if !ok { return Starving, 0; }
      if !uc { curr := curr + 1; } else { curr := curr - 1; }
    }
  }

  method ReadTable(r: BitReader, alphaSize: nat) returns (st: Status, len: seq<int>)
    requires r.Valid()
    modifies r
    ensures r.Valid() && st == StatusOf(GetLens(old(r.Pending()), alphaSize))
    ensures st.Fine? ==> GetLens(old(r.Pending()), alphaSize).value.len == len
                         && GetLens(old(r.Pending()), alphaSize).rest == r.Pending()
  {
    hide GetSteps, Value;
    ghost var bits := r.Pending();
    len := [];
    var ok: bool, curr: int;
    ok, curr := r.GetBits(5);
    if !ok {
      LensFail(bits, 0, alphaSize);
      return Starving, [];
    }
    var i := 0;
    while i < alphaSize
      invariant 0 <= i <= alphaSize && r.Valid() && GetLens(bits, i) == Parsed(Lens(curr, len), r.Pending())
    {
      st, curr := ReadSteps(r, curr);
      if !st.Fine? {
        LensFail(bits, i + 1, alphaSize);
        return;
      }
      len := len + [curr];
      i := i + 1;
    }
    st := Fine;
  }

  method ReadTables(r: BitReader, alphaSize: nat, nGroups: nat) returns (st: Status, tables: seq<seq<int>>)
    requires r.Valid()
    modifies r
    ensures r.Valid() && st == StatusOf(GetTables(alphaSize, old(r.Pending()), nGroups))
    ensures st.Fine? ==> GetTables(alphaSize, old(r.Pending()), nGroups) == Parsed(tables, r.Pending())
  {
    hide GetLens;
    ghost var bits := r.Pending();
    tables := [];
    var t := 0;
    while t < nGroups
      invariant 0 <= t <= nGroups && r.Valid() && GetTables(alphaSize, bits, t) == Parsed(tables, r.Pending())
    {
      var len;
      st, len := ReadTable(r, alphaSize);
      if !st.Fine? {
        TablesFail(alphaSize, bits, t + 1, nGroups);
        return;
      }
      tables := tables + [len];
      t := t + 1;
    }
    st := Fine;
  }

  method BuildTable(len: seq<int>) returns (t: DecodeTable)
    requires 0 < |len| <= C.MAX_ALPHA_SIZE && C.LensIn(len, 1, C.LONGEST_CODE)
    ensures Decodes(t, len)
  {
    hide C.IsTables;
    var minLen, maxLen := W.Extent(len);
    assert minLen >= 1 && maxLen <= C.LONGEST_CODE && minLen <= maxLen;
    var limit := new int[C.MAX_ALPHA_SIZE](_ => 0);
    var base := new int[C.MAX_ALPHA_SIZE](_ => 0);
    var perm := new int[C.MAX_ALPHA_SIZE](_ => 0);
    C.CreateDecodeTables(limit, base, perm, len, minLen, maxLen);
    t := DecodeTable(limit[..], base[..], perm[..], minLen);
    assert C.IsTables(len, t.limit, t.base, t.perm, t.minLen, maxLen);
  }

  method BuildTables(tables: seq<seq<int>>, alphaSize: nat) returns (ts: seq<DecodeTable>)
    requires 0 < alphaSize <= C.MAX_ALPHA_SIZE && Tables(tables, alphaSize)
    ensures AllDecode(ts, tables)
  {
    hide Decodes;
    ts := [];
    var t := 0;
    while t < |tables|
      invariant 0 <= t <= |tables| && |ts| == t && forall u :: 0 <= u < t ==> Decodes(ts[u], tables[u])
    {
      var table := BuildTable(tables[t]);
      ts := ts + [table];
      t := t + 1;
    }
  }

  /** seqToUnseq lists the used bytes; what lies past them are bytes too. */
  ghost predicate Maps(seqToUnseq: seq<int>, inUse: seq<bool>)
  {
    && |seqToUnseq| == |inUse| == 256 && (forall k :: 0 <= k < 256 ==> 0 <= seqToUnseq[k] < 256)
    && forall k :: 0 <= k < |Used(inUse, 256)| ==> seqToUnseq[k] == Used(inUse, 256)[k]
  }

  method MapSymbols(inUse: seq<bool>, seqToUnseq: array<int>) returns (nInUse: nat)
    requires |inUse| == 256 && seqToUnseq.Length == 256 && AllBytes(seqToUnseq[..])
    modifies seqToUnseq
    ensures nInUse == |Used(inUse, 256)| && Maps(seqToUnseq[..], inUse) && AllBytes(seqToUnseq[..])
  {
    nInUse := MakeMapsD(inUse, seqToUnseq);
    UsedAreBytes(inUse, 256);
  }

  /** Everything up to the symbols. */
  method ReadBody(r: BitReader, seqToUnseq: array<int>) returns (st: Status, b: Body, ts: seq<DecodeTable>)
    requires r.Valid() && seqToUnseq.Length == 256 && AllBytes(seqToUnseq[..])
    modifies r, seqToUnseq
    ensures r.Valid() && st == StatusOf(GetBody(old(r.Pending())))
    ensures st.Fine? ==> GetBody(old(r.Pending())) == Parsed(b, r.Pending())
    ensures st.Fine? ==> |b.inUse| == 256 && 1 <= |Used(b.inUse, 256)| <= 256 && Tables(b.tables, AlphaSize(b.inUse))
    ensures st.Fine? ==> AllDecode(ts, b.tables) && Selects(b.tables, b.selector)
    ensures AllBytes(seqToUnseq[..]) && (st.Fine? ==> Maps(seqToUnseq[..], b.inUse))
  {
    hide AllBytes, AllDecode, BitReader.Pending, BitReader.Valid, C.LensIn, GetMap, GetSelectors, GetTables, Maps,
      Used;
    b, ts := Body([], [], []), [];
    var inUse;
    st, inUse := ReadMap(r);
    if !st.Fine? { return; }
    assert |inUse| == 256;
    var nInUse := MapSymbols(inUse, seqToUnseq);
    if nInUse == 0 { return DataError, b, ts; }
    var nGroups, selector;
    st, nGroups, selector := ReadSelectors(r);
    if !st.Fine? { return; }
    var tables;
    st, tables := ReadTables(r, nInUse + 2, nGroups);
    if !st.Fine? { return; }
    ts := BuildTables(tables, nInUse + 2);
    b := Body(inUse, selector, tables);
  }
}
