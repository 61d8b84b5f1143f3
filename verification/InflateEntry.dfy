/** How many bits are held when inflate_fast is entered: fewer than 8, as it assumes, exactly when no code of the table of
    literals and lengths is longer than 8 bits. */
module InflateEntry {
  import opened Octets
  import opened Bits
  import opened Permutations
  import opened CanonicalCode
  import opened TableCells
  import opened TableSpace
  import opened InflateTable
  import opened Lz77
  import opened InflateSpec
  import opened InflateWindow
  import opened Inflate

  /** Where no code is longer than 8 bits, no call ends inside one with as many as 8 held. */
  lemma SevenHeld(z: InflateState)
    requires z.Valid() && z.mode == LEN && z.Tight() && forall h: nat :: Entry(z.lencode, z.lenbits, h).bits <= 8
    ensures z.bits < 8
  {
    hide Entry, InflateState.Valid;
  }

  /** The first 8 bits of a longer code do not decide it. */
  lemma LongFirst(table: seq<Code>, root: nat, dist: bool, h: nat, n: nat)
    requires TableOk(table, root, dist) && Entry(table, root, h).bits > 8 && Lo(n, 8) == Lo(h, 8)
    ensures Entry(table, root, n).bits > 8
  {
    hide Entry, Lo, LooksUp;
    var k := Entry(table, root, n).bits;
    assert Prefixed(table, root, n, h);
    if k <= 8 {
      ModPow(n, k, 8);
      ModPow(h, k, 8);
    }
  }

  /** The steps never give bits back. */
  lemma {:induction false} BitsGo(lencode: seq<Code>, lenbits: nat, distcode: seq<Code>, distbits: nat, s: State, k: nat)
    ensures Iterate(lencode, lenbits, distcode, distbits, s, k).t <= s.t
    decreases k
  {
    hide Next;
    if k > 0 {
      NextGoes(lencode, lenbits, distcode, distbits, s);
      BitsGo(lencode, lenbits, distcode, distbits, Next(lencode, lenbits, distcode, distbits, s), k - 1);
    }
  }

  lemma NextGoes(lencode: seq<Code>, lenbits: nat, distcode: seq<Code>, distbits: nat, s: State)
    ensures Next(lencode, lenbits, distcode, distbits, s).t <= s.t
  {
    hide Entry, Lo, Hi;
  }

  /** The first step takes the first code. */
  lemma FirstStep(lencode: seq<Code>, lenbits: nat, distcode: seq<Code>, distbits: nat, s: State, k: nat)
    requires s.mode == LEN && k > 0
    ensures Iterate(lencode, lenbits, distcode, distbits, s, k).t <= s.t - Entry(lencode, lenbits, s.n).bits
  {
    hide Entry, Lo, Hi;
    BitsGo(lencode, lenbits, distcode, distbits, Next(lencode, lenbits, distcode, distbits, s), k - 1);
  }

  lemma FirstByte(b: octet, rest: seq<octet>)
    ensures Lo(0 + Pow2(0) * LE([b] + rest), 8) == b && 0 < Pow2(0)
  {
    hide Lo, Hi, Pow2;
    assert ([b] + rest)[1..] == rest;
    ByteSplit(b, LE(rest));
    PowZero();
  }

  lemma PowZero()
    ensures Pow2(0) == 1
  {
  }

  /** A call that has one byte of a longer code ends inside the code, with all 8 bits held. */
  method OneByte(z: InflateState, ghost h: nat)
    requires z.Valid() && z.Tight() && z.mode == LEN && z.bits == 0 && z.inPos == 0 && |z.input| == 1
    requires z.outStart == z.outPos < z.output.Length
    requires Entry(z.lencode, z.lenbits, h).bits > 8 && Lo(z.n, 8) == Lo(h, 8)
    modifies z`hold, z`bits, z`inPos, z`n, z`mode, z`length, z`extra, z`offset, z`outPos, z.output
    ensures z.Valid() && z.Tight() && z.mode == LEN && z.bits == 8 && z.inPos == 1 && z.outPos == z.outStart
  {
    hide Entry, Lo, Hi, Pow2, TableOk, Iterate, CircularWindow.Valid, CircularWindow.Content, Reads, Clean, InflateState.Valid,
      InflateState.Tight, InflateState.Run, InflateState.Abs, InflateState.Buffers, InflateState.Reach, Tables;
    AfterCall(z);
    CodedHere(z);
    LongFirst(z.lencode, z.lenbits, false, h, z.n);
    ghost var s := z.Abs();
    ghost var k := z.Decode();
    AfterCall(z);
    if k > 0 {
      RunSteps(z, s, k);
      assert false;
    }
    z.NoSteps(s);
  }

  lemma CodedHere(z: InflateState)
    requires z.Valid()
    ensures TableOk(z.lencode, z.lenbits, false)
  {
    hide TableOk;
  }

  lemma RunSteps(z: InflateState, s: State, k: nat)
    requires s.mode == LEN && k > 0
    ensures z.Run(s, k).t <= s.t - Entry(z.lencode, z.lenbits, s.n).bits
  {
    hide Entry, Iterate;
    FirstStep(z.lencode, z.lenbits, z.distcode, z.distbits, s, k);
  }

  lemma AfterCall(z: InflateState)
    requires z.Valid()
    ensures z.Buffers() && z.Abs().mode == z.mode && z.inPos <= |z.input| && z.Abs().n == z.n
    ensures |z.Abs().out| == |z.w.Content()| + z.outPos - z.outStart
    ensures z.Abs().t == z.bits + 8 * (|z.stream| - z.inPos)
  {
    hide CircularWindow.Valid, CircularWindow.Content, Reads, Entry, InflateState.Coded, InflateState.ModeOk;
  }

  /** Where some code is longer, bits h that begin with it come in two calls: the first has one byte and ends inside the code,
      with all 8 bits held; the second meets all other conditions of inflate_fast. */
  method EightHeld(w: CircularWindow, out: array<octet>, lencode: seq<Code>, lenbits: nat, distcode: seq<Code>, distbits: nat,
                   ghost h: nat, b: octet, rest: seq<octet>)
    returns (z: InflateState)
    requires w.Valid() && out != w.data && out.Length >= MAX_MATCH && Tables(lencode, lenbits, distcode, distbits)
    requires Entry(lencode, lenbits, h).bits > 8 && b == Lo(h, 8) && |rest| >= 6
    modifies w, w.data, out
    ensures fresh(z) && z.Valid() && z.mode == LEN && z.Tight() && |z.input| - z.inPos >= 6 && z.output.Length - z.outPos >= MAX_MATCH
    ensures z.bits == 8
  {
    hide Entry, Lo, Hi, Pow2, LE, TableOk, Iterate, CircularWindow.Valid, CircularWindow.Content, Reads, Clean, InflateState.Valid,
      InflateState.Tight, InflateState.Run, InflateState.Abs, InflateState.Buffers, InflateState.Reach, Tables, InflateState.Whole;
    FirstByte(b, rest);
    z := new InflateState(w, lencode, lenbits, distcode, distbits, 0, 0, out, [b] + rest);
    assert ([b] + rest)[0..] == [b] + rest;
    AfterCall(z);
    z.Provide([b], out, 0);
    OneByte(z, h);
    z.Leave();
    assert z.stream[z.inPos..] == rest;
    z.Provide(rest, out, 0);
  }

  // ----- such a table

  /** The lengths 1 to k. */
  function Stairs(k: nat): (lens: seq<nat>)
    ensures |lens| == k && forall i :: 0 <= i < k ==> lens[i] == i + 1
  {
    if k == 0 then [] else Stairs(k - 1) + [k]
  }

  /** Ten symbols, with codes of 1 to 9 bits and the last two of 9. */
  function Nine(): seq<nat> { Stairs(9) + [9] }

  lemma {:induction false} KraftStairs(k: nat, m: nat)
    requires k <= m
    ensures Kraft(Stairs(k), m) == Pow2(m) - Pow2(m - k)
  {
    hide Pow2, Stairs;
    if k > 0 {
      KraftStairs(k - 1, m);
      SnocStairs(k);
      Double(m - k + 1);
    } else {
      assert Stairs(0) == [];
    }
  }

  lemma NineComplete()
    ensures LengthsOk(Nine()) && Kraft(Nine(), MAXBITS) == Pow2(MAXBITS)
  {
    hide Pow2, Stairs;
    KraftStairs(9, MAXBITS);
    assert Nine()[..9] == Stairs(9);
  }

  /** Its table has 512 entries. */
  lemma NineSpace()
    ensures RootBits(Nine(), 9) == 9 && Space(Nine(), 9) == 512
  {
    hide Stairs, CodeOf, Hi, Pow2, SubSpace, LongestLen, ShortestLen, LongUnder;
    assert Nine()[0] == 1 && Nine()[8] == 9;
    LongestIs(Nine(), 9);
    ShortestIs(Nine(), 1);
    PowEight();
    Double(9);
    forall s: nat, t: nat | 0 <= t < Pow2(9) ensures !LongUnder(Nine(), 9, t, s) { NoneLong(t, s); }
    SpaceSame(Nine(), 9, 0, Pow2(9));
    SpaceStart(Nine(), 9);
  }

  lemma NoneLong(t: nat, s: nat)
    ensures !LongUnder(Nine(), 9, t, s)
  {
    hide Stairs, CodeOf, Hi;
  }

  lemma NoneIn(bits: nat)
    ensures LengthsOk([]) && Kraft([], MAXBITS) == 0 && RootBits([], bits) == 1 && Space([], 1) == 2
  {
    assert Longest([], 0);
    NoneSpace([]);
  }

  /** The code of the ninth symbol: eight ones and a zero. */
  lemma NinthCode()
    ensures CodeOf(Nine(), 8) == 510 && Rev(510, 9) == 255
  {
    hide Pow2, Rev, Stairs;
    assert Nine()[..9] == Stairs(9) && Nine()[8] == 9;
    KraftStairs(8, 8);
    assert Stairs(9)[..8] == Stairs(8) by { SnocStairs(9); }
    KraftIsEnd(Nine(), 8);
    PowEight();
    PowZero();
    NoNines(8);
    RevOnes(8);
    RevEven(255, 8);
  }

  lemma SnocStairs(k: nat)
    requires k > 0
    ensures Stairs(k)[..k - 1] == Stairs(k - 1)
  {
  }

  lemma {:induction false} NoNines(k: nat)
    requires k <= 8
    ensures Occ(Nine(), 0, k, 9) == 0
  {
    if k > 0 { NoNines(k - 1); }
  }

  lemma {:induction false} RevOnes(n: nat)
    ensures Rev(Pow2(n) - 1, n) == Pow2(n) - 1
  {
    if n > 0 { RevOnes(n - 1); }
  }

  /** The code of the ninth symbol has 9 bits. */
  lemma NineBits(table: seq<Code>, root: nat)
    requires Decodes(table, root, Lens, Nine())
    ensures Entry(table, root, 255).bits == 9
  {
    hide Stairs, Rev, Pow2, CodeOf, Finds, Meaning, Entry;
    var h: nat := 255;
    assert Nine()[8] == 9;
    NinthCode();
    SmallMod(h, Pow2(9));
    assert Spells(Nine(), h, 8);
    MeaningBits(Lens, 8, 9);
    LenMeaning(8, 9);
    FindsEntry(table, root, h, Meaning(Lens, 8, 9));
  }

  /** inflate_table builds such a table, and inflate_fast is entered with 8 bits in hold. */
  method NineBitCode(w: CircularWindow, out: array<octet>, rest: seq<octet>) returns (z: InflateState)
    requires w.Valid() && out != w.data && out.Length >= MAX_MATCH && |rest| >= 6
    modifies w, w.data, out
    ensures fresh(z) && z.Valid() && z.mode == LEN && z.Tight() && |z.input| - z.inPos >= 6 && z.output.Length - z.outPos >= MAX_MATCH
    ensures z.bits == 8
  {
    hide Stairs, Pow2, Decodes, Entry, Rev, Lo, CodeOf, RootBits, Space, Kraft, TableOk, LengthsOk, Tables;
    var work, lens, dists := new nat[10], new Code[ENOUGH_LENS], new Code[ENOUGH_DISTS];
    NineComplete();
    NineSpace();
    NoneIn(6);
    var ret, used, lenbits := InflateTable.InflateTable(Lens, Nine(), lens, 9, work);
    ghost var t := lens[..];
    var ret2, used2, distbits := InflateTable.InflateTable(Dists, [], dists, 6, work);
    assert lens[..] == t;
    NineBits(t, lenbits);
    DecodesOk(t, lenbits, Lens, Nine());
    DecodesOk(dists[..], distbits, Dists, []);
    TablesAre(t, lenbits, dists[..], distbits);
    LowByte(255);
    z := EightHeld(w, out, lens[..], lenbits, dists[..], distbits, 255, 255, rest);
  }

  lemma TablesAre(lencode: seq<Code>, lenbits: nat, distcode: seq<Code>, distbits: nat)
    requires TableOk(lencode, lenbits, false) && TableOk(distcode, distbits, true)
    ensures Tables(lencode, lenbits, distcode, distbits)
  {
  }

  lemma LowByte(b: octet)
    ensures Lo(b, 8) == b
  {
    hide Pow2;
    PowEight();
    SmallMod(b, 256);
  }
}
