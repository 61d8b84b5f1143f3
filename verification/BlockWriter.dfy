/** sendMTFValues, second half: the tables, the selectors and the symbols go into the bit stream. */
module BlockWriter {
  import opened Bits
  import opened BitIO
  import opened MtfSpec
  import opened BlockFormat
  import C = HuffmanCodes
  import F = HuffmanForest
  import T = TableChoice

  function ChoiceBits(nGroups: nat, selector: seq<int>): seq<bool>
  {
    ToBits(3, nGroups) + (ToBits(15, |selector|) + PutUnaries(Positions(selector, |selector|, nGroups).sent, |selector|))
  }

  /** Everything from the mapping table to the last symbol. */
  function BodyBits(inUse: seq<bool>, tables: seq<seq<int>>, selector: seq<int>, syms: seq<int>): seq<bool>
    requires |inUse| == 256 && |syms| <= G_SIZE * |selector| && Selects(tables, selector)
    requires forall t :: 0 <= t < |tables| ==> 0 < |tables[t]|
  {
    (PutMap(inUse) + ChoiceBits(|tables|, selector))
    + (PutTables(tables, |tables|) + PutSymbols(tables, selector, syms, |syms|))
  }

  method UsedRows(inUse: seq<bool>) returns (inUse16: seq<bool>)
    requires |inUse| == 256
    ensures inUse16 == PutFlags(inUse, 16)
  {
    inUse16 := [];
    var i := 0;
    while i < 16
      invariant 0 <= i <= 16 && inUse16 == PutFlags(inUse, i)
    {
      var used := false;
      var j := 0;
      while j < 16
        invariant 0 <= j <= 16 && (used <==> exists k :: 16 * i <= k < 16 * i + j && inUse[k])
      {
        if inUse[i * 16 + j] { used := true; }
        j := j + 1;
      }
      assert used == RowUsed(inUse, i);
      inUse16 := inUse16 + [used];
      i := i + 1;
    }
  }

  method SendMap(w: BitWriter, inUse: seq<bool>)
    requires w.Valid() && |inUse| == 256
    modifies w
    ensures w.Valid() && w.Written() == old(w.Written()) + PutMap(inUse)
  {
    hide BitWriter.Valid, BitWriter.Written, PutFlags, RowUsed;
    ghost var before := w.Written();
    var inUse16 := UsedRows(inUse);
    SendFlags(w, inUse16);
    var i := 0;
    assert before + inUse16 + [] == before + inUse16;
    while i < 16
      invariant 0 <= i <= 16 && w.Valid() && w.Written() == (before + inUse16) + PutRows(inUse, i)
    {
      if inUse16[i] {
        SendFlags(w, inUse[16 * i..16 * (i + 1)]);
        Assoc(before + inUse16, PutRows(inUse, i), inUse[16 * i..16 * (i + 1)]);
      } else {
        assert PutRows(inUse, i) + [] == PutRows(inUse, i);
      }
      i := i + 1;
    }
    Assoc(before, inUse16, PutRows(inUse, 16));
  }

  lemma OneBit(b: bool)
    ensures ToBits(1, if b then 1 else 0) == [b] && Pow2(1) == 2
  {
    assert ToBits(0, 0) == [];
  }

  method SendFlags(w: BitWriter, flags: seq<bool>)
    requires w.Valid()
    modifies w
    ensures w.Valid() && w.Written() == old(w.Written()) + flags
  {
    hide *;
    ghost var before := w.Written();
    var i := 0;
    assert before + [] == before;
    while i < |flags|
      invariant 0 <= i <= |flags| && w.Valid() && w.Written() == before + flags[..i]
    {
      OneBit(flags[i]);
      w.W(1, if flags[i] then 1 else 0);
      assert flags[..i + 1] == flags[..i] + [flags[i]];
      Assoc(before, flags[..i], [flags[i]]);
      i := i + 1;
    }
    assert flags[..|flags|] == flags;
  }

  // ----- selectors

  /** One selector: found in pos and carried to its front. */
  method FindSelector(pos: array<int>, n: nat, ll: int) returns (j: nat)
    requires n <= pos.Length && ll in pos[..n]
    modifies pos
    ensures j == IndexOf(old(pos[..n]), ll) < n && pos[..n] == MoveToFront(old(pos[..n]), j)
  {
    hide IndexOf;
    ghost var l := pos[..n];
    j := 0;
    var tmp := pos[0];
    ghost var at :| 0 <= at < n && l[at] == ll;
    while ll != tmp
      invariant 0 <= j < n && tmp == l[j] && j <= at
      invariant forall i :: 0 <= i < j ==> l[i] != ll
      invariant forall i :: 1 <= i <= j ==> pos[i] == l[i - 1]
      invariant forall i :: j < i < n ==> pos[i] == l[i]
      decreases n - j
    {
      j := j + 1;
      var tmp2 := tmp;
      tmp := pos[j];
      pos[j] := tmp2;
    }
    pos[0] := tmp;
    IndexOfFound(l, ll, j);
    MoveToFrontAt(l, j);
    assert pos[..n] == MoveToFront(l, j);
  }

  method SelectorMtf(selector: seq<int>, nGroups: nat) returns (selectorMtf: seq<int>)
    requires nGroups <= N_GROUPS && forall i :: 0 <= i < |selector| ==> 0 <= selector[i] < nGroups
    ensures selectorMtf == Positions(selector, |selector|, nGroups).sent
  {
    hide IndexOf, MoveToFront;
    var pos := new int[N_GROUPS](i => i);
    assert pos[..nGroups] == Identity(nGroups);
    selectorMtf := [];
    var i := 0;
    while i < |selector|
      invariant 0 <= i <= |selector|
      invariant Moves(pos[..nGroups], selectorMtf) == Positions(selector, i, nGroups)
    {
      PositionsLists(selector, i, nGroups);
      var j := FindSelector(pos, nGroups, selector[i]);
      selectorMtf := selectorMtf + [j];
      i := i + 1;
    }
  }

  method SendUnary(w: BitWriter, n: nat)
    requires w.Valid()
    modifies w
    ensures w.Valid() && w.Written() == old(w.Written()) + Unary(n)
  {
    hide BitWriter.Valid, BitWriter.Written, Ones, Pow2, ToBits;
    ghost var before := w.Written();
    var j := 0;
    assert before + Ones(0) == before;
    while j < n
      invariant 0 <= j <= n && w.Valid() && w.Written() == before + Ones(j)
    {
      OneBit(true);
      w.W(1, 1);
      assert Ones(j + 1) == Ones(j) + [true];
      Assoc(before, Ones(j), [true]);
      j := j + 1;
    }
    OneBit(false);
    w.W(1, 0);
    Assoc(before, Ones(n), [false]);
  }

  method SendSelectors(w: BitWriter, selectorMtf: seq<int>)
    requires w.Valid() && forall i :: 0 <= i < |selectorMtf| ==> selectorMtf[i] >= 0
    modifies w
    ensures w.Valid() && w.Written() == old(w.Written()) + PutUnaries(selectorMtf, |selectorMtf|)
  {
    hide BitWriter.Valid, BitWriter.Written, Unary;
    ghost var before := w.Written();
    assert before + [] == before;
    var i := 0;
    while i < |selectorMtf|
      invariant 0 <= i <= |selectorMtf| && w.Valid() && w.Written() == before + PutUnaries(selectorMtf, i)
    {
      SendUnary(w, selectorMtf[i]);
      Assoc(before, PutUnaries(selectorMtf, i), Unary(selectorMtf[i]));
      i := i + 1;
    }
  }

  // ----- tables

  method SendSteps(w: BitWriter, curr0: int, l: int) returns (curr: int)
    requires w.Valid()
    modifies w
    ensures w.Valid() && curr == l && w.Written() == old(w.Written()) + PutSteps(curr0, l)
  {
    hide BitWriter.Valid, BitWriter.Written, Pow2, ToBits;
    ghost var before, sent := w.Written(), [];
    assert before + sent == before && sent + PutSteps(curr0, l) == PutSteps(curr0, l);
    TwoBits();
    curr := curr0;
    while curr < l
      invariant w.Valid() && w.Written() == before + sent && sent + PutSteps(curr, l) == PutSteps(curr0, l)
      decreases l - curr
    {
      w.W(2, 2);
      Assoc(before, sent, [true, false]);
      Assoc(sent, [true, false], PutSteps(curr + 1, l));
      sent := sent + [true, false];
      curr := curr + 1;
    }
    while curr > l
      invariant curr >= l && w.Valid() && w.Written() == before + sent && sent + PutSteps(curr, l) == PutSteps(curr0, l)
      decreases curr - l
    {
      w.W(2, 3);
      Assoc(before, sent, [true, true]);
      Assoc(sent, [true, true], PutSteps(curr - 1, l));
      sent := sent + [true, true];
      curr := curr - 1;
    }
    OneBit(false);
    w.W(1, 0);
    Assoc(before, sent, [false]);
  }

  lemma TwoBits()
    ensures ToBits(2, 2) == [true, false] && ToBits(2, 3) == [true, true] && Pow2(2) == 4
  {
    assert ToBits(1, 1) == [true] by { assert ToBits(0, 0) == []; }
  }

  method SendTable(w: BitWriter, len: seq<int>)
    requires w.Valid() && 0 < |len| && C.LensIn(len, 1, C.LONGEST_CODE)
    modifies w
    ensures w.Valid() && w.Written() == old(w.Written()) + PutLens(len, |len|)
  {
    hide ToBits, PutSteps;
    ghost var before := w.Written();
    assert Pow2(5) == 32;
    var curr := len[0];
    w.W(5, curr);
    var i := 0;
    while i < |len|
      invariant 0 <= i <= |len| && w.Valid() && w.Written() == before + PutLens(len, i)
      invariant i < |len| ==> curr == Before(len, i)
    {
      ghost var from := curr;
      curr := SendSteps(w, curr, len[i]);
      Assoc(before, PutLens(len, i), PutSteps(from, len[i]));
      i := i + 1;
    }
  }

  method SendTables(w: BitWriter, tables: seq<seq<int>>, alphaSize: nat)
    requires w.Valid() && 0 < alphaSize && Tables(tables, alphaSize)
    modifies w
    ensures w.Valid() && w.Written() == old(w.Written()) + PutTables(tables, |tables|)
  {
    hide PutLens;
    ghost var before := w.Written();
    assert before + [] == before;
    var t := 0;
    while t < |tables|
      invariant 0 <= t <= |tables| && w.Valid() && w.Written() == before + PutTables(tables, t)
    {
      SendTable(w, tables[t]);
      Assoc(before, PutTables(tables, t), PutLens(tables[t], |tables[t]|));
      t := t + 1;
    }
  }

  // ----- symbols

  ghost predicate IsCodes(len: seq<int>, code: seq<int>)
  {
    |code| == |len| && forall s :: 0 <= s < |len| ==> len[s] >= 0 && code[s] == C.Code(len, s)
  }

  method AssignTable(len: seq<int>) returns (code: seq<int>)
    requires 0 < |len| <= C.MAX_ALPHA_SIZE && C.LensIn(len, 1, C.LONGEST_CODE)
    ensures IsCodes(len, code)
  {
    hide C.Code;
    var minLen, maxLen := Extent(len);
    var a := new int[C.MAX_ALPHA_SIZE](_ => 0);
    C.AssignCodes(a, len, minLen, maxLen);
    code := a[..|len|];
  }

  /** The shortest and the longest length, as both sides look for them. */
  method Extent(len: seq<int>) returns (minLen: nat, maxLen: nat)
    requires 0 < |len| && C.LensIn(len, 1, C.LONGEST_CODE)
    ensures C.LensIn(len, minLen, maxLen) && minLen in len && maxLen in len
  {
    minLen, maxLen := 32, 0;
    var i := 0;
    while i < |len|
      invariant 0 <= i <= |len|
      invariant if i == 0 then minLen == 32 && maxLen == 0 else minLen in len && maxLen in len
      invariant forall k :: 0 <= k < i ==> minLen <= len[k] <= maxLen
    {
      if len[i] > maxLen { maxLen := len[i]; }
      if len[i] < minLen { minLen := len[i]; }
      i := i + 1;
    }
  }

  lemma CodesFitMeans(len: seq<int>)
    requires CodesFit(len)
    ensures F.Kraft(len, C.LONGEST_CODE, |len|) <= Pow2(C.LONGEST_CODE)
  {
  }

  method SendGroup(w: BitWriter, tables: seq<seq<int>>, len: seq<int>, code: seq<int>, selector: seq<int>,
                   syms: seq<int>, gs: nat, ge: nat)
    requires w.Valid() && gs <= ge < |syms| <= G_SIZE * |selector| && Selects(tables, selector)
    requires forall i :: gs <= i <= ge ==> TableOf(tables, selector, i) == len
    requires IsCodes(len, code) && C.LensIn(len, 1, C.LONGEST_CODE) && CodesFit(len) && T.InAlphabet(syms, |len|)
    modifies w
    ensures w.Valid()
    ensures exists sent :: w.Written() == old(w.Written()) + sent
                           && PutSymbols(tables, selector, syms, ge + 1) == PutSymbols(tables, selector, syms, gs) + sent
  {
    hide C.Code, ToBits, CodesFit;
    ghost var before, first, sent := w.Written(), PutSymbols(tables, selector, syms, gs), [];
    assert before + sent == before && first + sent == first;
    var i := gs;
    while i <= ge
      invariant gs <= i <= ge + 1 && w.Valid() && w.Written() == before + sent
      invariant PutSymbols(tables, selector, syms, i) == first + sent
    {
      var s := syms[i];
      CodesFitMeans(len);
      C.CodeFits(len, C.LONGEST_CODE, s);
      w.W(len[s], code[s]);
      assert C.CodeBits(len, s) == ToBits(len[s], code[s]);
      Assoc(before, sent, ToBits(len[s], code[s]));
      Assoc(first, sent, ToBits(len[s], code[s]));
      sent := sent + ToBits(len[s], code[s]);
      i := i + 1;
    }
  }

  lemma OneTable(tables: seq<seq<int>>, selector: seq<int>, g: nat, i: nat)
    requires Selects(tables, selector) && G_SIZE * g <= i < G_SIZE * (g + 1) && g < |selector|
    ensures TableOf(tables, selector, i) == tables[selector[g]]
  {
    assert i / G_SIZE == g;
  }

  lemma NoSymbols(tables: seq<seq<int>>, selector: seq<int>, syms: seq<int>)
    requires |syms| <= G_SIZE * |selector| && Selects(tables, selector)
    ensures PutSymbols(tables, selector, syms, 0) == []
  {
  }

  method SendSymbols(w: BitWriter, tables: seq<seq<int>>, codes: seq<seq<int>>, selector: seq<int>, alphaSize: nat,
                     syms: seq<int>)
    requires w.Valid() && Selects(tables, selector) && |selector| == T.Groups(|syms|)
    requires Coded(tables, alphaSize) && T.InAlphabet(syms, alphaSize)
    requires |codes| == |tables| && forall t :: 0 <= t < |tables| ==> IsCodes(tables[t], codes[t])
    modifies w
    ensures w.Valid() && w.Written() == old(w.Written()) + PutSymbols(tables, selector, syms, |syms|)
  {
    hide PutSymbols, IsCodes, CodesFit;
    ghost var before := w.Written();
    NoSymbols(tables, selector, syms);
    assert before + [] == before;
    var selCtr, gs := 0, 0;
    while gs < |syms|
      invariant 0 <= gs <= |syms| && w.Valid() && 0 <= selCtr <= |selector|
      invariant (gs == G_SIZE * selCtr && selCtr <= |selector|) || (gs == |syms| && selCtr == |selector|)
      invariant w.Written() == before + PutSymbols(tables, selector, syms, gs)
      decreases |syms| - gs
    {
      var ge := gs + G_SIZE - 1;
      if ge >= |syms| { ge := |syms| - 1; }
      assert selCtr < |selector|;
      var len := tables[selector[selCtr]];
      forall i | gs <= i <= ge ensures TableOf(tables, selector, i) == len {
        OneTable(tables, selector, selCtr, i);
      }
      SendGroup(w, tables, len, codes[selector[selCtr]], selector, syms, gs, ge);
      ghost var sent :| w.Written() == before + PutSymbols(tables, selector, syms, gs) + sent
                        && PutSymbols(tables, selector, syms, ge + 1) == PutSymbols(tables, selector, syms, gs) + sent;
      Assoc(before, PutSymbols(tables, selector, syms, gs), sent);
      gs := ge + 1;
      selCtr := selCtr + 1;
    }
    assert selCtr == |selector|;
  }

  method AssignTables(tables: seq<seq<int>>, alphaSize: nat) returns (codes: seq<seq<int>>)
    requires 0 < alphaSize <= C.MAX_ALPHA_SIZE && Tables(tables, alphaSize)
    ensures |codes| == |tables| && forall t :: 0 <= t < |tables| ==> IsCodes(tables[t], codes[t])
  {
    hide IsCodes;
    codes := [];
    var t := 0;
    while t < |tables|
      invariant 0 <= t <= |tables| && |codes| == t && forall u :: 0 <= u < t ==> IsCodes(tables[u], codes[u])
    {
      var code := AssignTable(tables[t]);
      codes := codes + [code];
      t := t + 1;
    }
  }

  /** The counts of tables and selectors, and the selectors. */
  method SendChoice(w: BitWriter, nGroups: nat, selectorMtf: seq<int>)
    requires w.Valid() && nGroups <= N_GROUPS && |selectorMtf| <= MAX_SELECTORS
    requires forall i :: 0 <= i < |selectorMtf| ==> selectorMtf[i] >= 0
    modifies w
    ensures w.Valid()
    ensures w.Written() == old(w.Written()) + (ToBits(3, nGroups) + (ToBits(15, |selectorMtf|)
                           + PutUnaries(selectorMtf, |selectorMtf|)))
  {
    hide ToBits, PutUnaries;
    ghost var before := w.Written();
    SmallPowers();
    w.W(3, nGroups);
    w.W(15, |selectorMtf|);
    SendSelectors(w, selectorMtf);
    Chain(before, ToBits(3, nGroups), ToBits(15, |selectorMtf|), PutUnaries(selectorMtf, |selectorMtf|));
  }

  lemma Chain(w: seq<bool>, a: seq<bool>, b: seq<bool>, c: seq<bool>)
    ensures ((w + a) + b) + c == w + (a + (b + c))
  {
  }

  lemma Chosen(previous: seq<seq<int>>, syms: seq<int>, selector: seq<int>)
    requires T.BestChoice(previous, syms, selector)
    ensures forall g :: 0 <= g < |selector| ==> 0 <= selector[g] < |previous|
  {
    forall g | 0 <= g < |selector| ensures 0 <= selector[g] < |previous| {
      assert T.Cheapest(previous, syms, G_SIZE * g, T.GroupEnd(|syms|, g), selector[g]);
    }
  }

  /** What the block is sent with: tables, selectors, the selectors' positions, and the codes. */
  method Prepare(alphaSize: nat, syms: seq<int>)
    returns (tables: seq<seq<int>>, selector: seq<int>, selectorMtf: seq<int>, codes: seq<seq<int>>)
    requires 2 <= alphaSize <= C.MAX_ALPHA_SIZE && T.InAlphabet(syms, alphaSize)
    requires 0 < |syms| <= T.MAX_MTF
    ensures 2 <= |tables| <= N_GROUPS && T.AllFitted(tables, alphaSize) && Coded(tables, alphaSize)
    ensures |selector| == T.Groups(|syms|) && Selects(tables, selector)
    ensures selectorMtf == Positions(selector, |selector|, |tables|).sent
    ensures forall i :: 0 <= i < |selectorMtf| ==> selectorMtf[i] >= 0
    ensures |codes| == |tables| && forall t :: 0 <= t < |tables| ==> IsCodes(tables[t], codes[t])
    ensures T.ChosenFor(tables, selector, syms, alphaSize)
  {
    hide T.Fitted, T.Cheapest, Positions, CodesFit, IsCodes, C.LensIn, T.RoundsTo, T.Guess, T.Reached;
    var nGroups := T.TableCount(|syms|);
    var mtfFreq := T.CountSymbols(syms, alphaSize);
    var guess := T.FirstGuess(mtfFreq, |syms|, nGroups);
    ghost var previous;
    tables, selector, previous := T.ChooseTables(guess, alphaSize, syms);
    Chosen(previous, syms, selector);
    T.FittedCoded(tables, alphaSize);
    selectorMtf := SelectorMtf(selector, nGroups);
    PositionsInRange(selector, |selector|, nGroups);
    codes := AssignTables(tables, alphaSize);
  }

  /** sendMTFValues, from the choice of tables to the last code. */
  method SendMTFValues(w: BitWriter, inUse: seq<bool>, nInUse: nat, syms: seq<int>)
    returns (ghost tables: seq<seq<int>>, ghost selector: seq<int>)
    requires w.Valid() && |inUse| == 256 && 1 <= nInUse <= 256 && 0 < |syms| <= T.MAX_MTF
    requires T.InAlphabet(syms, nInUse + 2)
    modifies w
    ensures w.Valid() && 2 <= |tables| <= N_GROUPS && T.AllFitted(tables, nInUse + 2)
    ensures |selector| == T.Groups(|syms|) && |selector| <= MAX_SELECTORS && Selects(tables, selector)
    ensures Tables(tables, nInUse + 2) && T.ChosenFor(tables, selector, syms, nInUse + 2)
    ensures w.Written() == old(w.Written()) + BodyBits(inUse, tables, selector, syms)
  {
    hide BitWriter.Valid, BitWriter.Written, C.LensIn, CodesFit, IsCodes, Positions, PutMap, PutSymbols, PutTables,
      PutUnaries, Selects, T.AllFitted, T.InAlphabet, T.ChosenFor, ToBits;
    ghost var before := w.Written();
    var tabs, sel, selectorMtf, codes := Prepare(nInUse + 2, syms);
    tables, selector := tabs, sel;
    assert |sel| <= MAX_SELECTORS;
    SendMap(w, inUse);
    SendChoice(w, |tabs|, selectorMtf);
    Assoc(before, PutMap(inUse), ChoiceBits(|tabs|, sel));
    SendTables(w, tabs, nInUse + 2);
    SendSymbols(w, tabs, codes, sel, nInUse + 2, syms);
    Chain(before, PutMap(inUse) + ChoiceBits(|tabs|, sel), PutTables(tabs, |tabs|), PutSymbols(tabs, sel, syms, |syms|));
  }

  lemma SmallPowers()
    ensures Pow2(3) == 8 && Pow2(15) == 0x8000
  {
    Pow2Add(8, 7);
  }
}
