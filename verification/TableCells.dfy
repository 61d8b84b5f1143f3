/** The cells of an inflate decoding table that each symbol of a canonical code owns, and why no two symbols own the same. */
module TableCells {
  import opened Bits
  import opened Permutations
  import opened CanonicalCode

  /** A table entry: op says what it is, bits how many bits of the code it stands for. */
  datatype Code = Code(op: nat, bits: nat, val: nat)

  datatype CodeType = Codes | Lens | Dists

  const LBASE: seq<nat> := [3, 4, 5, 6, 7, 8, 9, 10, 11, 13, 15, 17, 19, 23, 27, 31, 35, 43, 51, 59, 67, 83, 99, 115, 131, 163,
                            195, 227, 258, 0, 0]
  const LEXT: seq<nat> := [16, 16, 16, 16, 16, 16, 16, 16, 17, 17, 17, 17, 18, 18, 18, 18, 19, 19, 19, 19, 20, 20, 20, 20, 21,
                           21, 21, 21, 16, 77, 202]
  const DBASE: seq<nat> := [1, 2, 3, 4, 5, 7, 9, 13, 17, 25, 33, 49, 65, 97, 129, 193, 257, 385, 513, 769, 1025, 1537, 2049,
                            3073, 4097, 6145, 8193, 12289, 16385, 24577, 0, 0]
  const DEXT: seq<nat> := [16, 16, 16, 16, 17, 17, 18, 18, 19, 19, 20, 20, 21, 21, 22, 22, 23, 23, 24, 24, 25, 25, 26, 26, 27,
                           27, 28, 28, 29, 29, 64, 64]

  /** The first symbol that has a base and extra bits. */
  function Match(typ: CodeType): nat
  {
    match typ
    case Codes => 20
    case Lens => 257
    case Dists => 0
  }

  /** How many symbols a code of this type may have. */
  function MostSymbols(typ: CodeType): nat
  {
    match typ
    case Codes => 20
    case Lens => 288
    case Dists => 32
  }

  /** What a symbol stands for: a value as it is, the end of the block, or a base value with extra bits. */
  function Meaning(typ: CodeType, sym: nat, bits: nat): Code
    requires sym < MostSymbols(typ)
  {
    if sym + 1 < Match(typ) then Code(0, bits, sym)
    else if sym >= Match(typ) then
      (if typ.Lens? then Code(LEXT[sym - 257], bits, LBASE[sym - 257]) else Code(DEXT[sym], bits, DBASE[sym]))
    else Code(96, bits, 0)
  }

  /** A link to a sub-table, as inflate tells it from the rest. */
  predicate IsLink(e: Code) { 0 < e.op < 16 }

  lemma MeaningNoLink(typ: CodeType, sym: nat, bits: nat)
    requires sym < MostSymbols(typ)
    ensures var m := Meaning(typ, sym, bits); !IsLink(m) && m.bits == bits && m.op < 256 && m.val < 65536
  {
    if typ.Lens? && sym >= 257 { LensFit(sym - 257); }
    if typ.Dists? { DistsFit(sym); }
  }

  lemma LensFit(i: nat)
    requires i < 31
    ensures 16 <= LEXT[i] < 256 && LBASE[i] < 65536
  {
  }

  lemma DistsFit(i: nat)
    requires i < 32
    ensures 16 <= DEXT[i] < 256 && DBASE[i] < 65536
  {
  }

  /** Looking up the bits h, lowest first: the root table, and a sub-table if it says so, give e. */
  ghost predicate Finds(table: seq<Code>, root: nat, h: nat, e: Code)
  {
    && Lo(h, root) < |table|
    && var here := table[Lo(h, root)];
       if IsLink(here) then
         here.bits == root && var i := here.val + Lo(Hi(h, here.bits), here.op);
         i < |table| && e.bits >= here.bits && table[i] == Code(e.op, e.bits - here.bits, e.val)
       else here == e
  }

  /** The bits of the code of s, the first one lowest. */
  function Huff(lens: seq<nat>, s: nat): (r: nat)
    requires s < |lens|
  {
    Rev(CodeOf(lens, s), lens[s])
  }

  /** Codes before code c of length l: shorter, or as long and smaller. */
  predicate Earlier(lens: seq<nat>, s: int, c: nat, l: nat)
  {
    0 <= s < |lens| && 0 < lens[s] && (lens[s] < l || (lens[s] == l && CodeOf(lens, s) < c))
  }

  /** An earlier code is no beginning of a later one. */
  lemma NoClash(lens: seq<nat>, s: nat, c: nat, l: nat)
    requires Earlier(lens, s, c, l) && FirstCode(lens, l) <= c < Pow2(l)
    ensures Lo(Rev(c, l), lens[s]) != Huff(lens, s)
  {
    hide Lo, Hi, Rev, FirstCode, CodeOf, Pow2;
    var m := lens[s];
    RevLow(c, m, l);
    if m < l {
      PrefixFree(lens, s, c, l);
      HighBelow(c, m, l);
    } else {
      HighAll(c);
    }
    var x := Hi(c, l - m);
    if Rev(x, m) == Rev(CodeOf(lens, s), m) { RevInjective(x, CodeOf(lens, s), m); }
  }

  lemma HighBelow(c: nat, m: nat, l: nat)
    requires m <= l && c < Pow2(l)
    ensures Hi(c, l - m) < Pow2(m)
  {
    hide Pow2;
    Pow2Add(m, l - m);
    QuotientBelow(c, Pow2(m), Pow2(l - m));
  }

  lemma QuotientBelow(c: nat, a: nat, b: nat)
    requires b > 0 && c < a * b
    ensures c / b < a
  {
    var k := c / b;
    assert c == b * k + c % b;
    CommuteTimes(a, b);
    if k >= a { TimesAtLeast(b, a, k); }
  }

  lemma TimesAtLeast(b: nat, a: nat, k: nat)
    requires a <= k
    ensures b * k >= b * a
  {
    if a < k { TimesGap(b, a, k); }
  }

  // ----- what a symbol owns

  /** Symbol s, with a code no longer than root: every root entry whose index begins with its code. */
  ghost predicate RootDone(table: seq<Code>, lens: seq<nat>, typ: CodeType, root: nat, s: nat)
    requires s < |lens| <= MostSymbols(typ)
  {
    && Pow2(root) <= |table|
    && forall r :: 0 <= r < Pow2(root) && Lo(r, lens[s]) == Huff(lens, s) ==> table[r] == Meaning(typ, s, lens[s])
  }

  /** A longer one: the root entry for its first root bits is a link, and the sub-table has an entry for the rest. The
      sub-table ends at next, or is the one at next when it is that of root entry low. */
  ghost predicate SubDone(table: seq<Code>, lens: seq<nat>, typ: CodeType, root: nat, next: nat, curr: nat, low: int, s: nat)
    requires s < |lens| <= MostSymbols(typ) && root <= lens[s]
  {
    var r := Lo(Huff(lens, s), root);
    && r < |table| && 1 <= table[r].op <= MAXBITS && table[r].bits == root && lens[s] - root <= table[r].op
    && table[r].val >= Pow2(root) && table[r].val + Pow2(table[r].op) <= |table|
    && (if r == low then table[r].val == next && table[r].op == curr else table[r].val + Pow2(table[r].op) <= next)
    && InSub(table, table[r].val, table[r].op, lens[s] - root, Hi(Huff(lens, s), root), Meaning(typ, s, lens[s] - root))
  }

  /** In the sub-table of 2^size entries at off, those whose index begins with the d bits x are e. */
  ghost predicate InSub(table: seq<Code>, off: nat, size: nat, d: nat, x: nat, e: Code)
  {
    off + Pow2(size) <= |table| && forall j :: 0 <= j < Pow2(size) && Lo(j, d) == x ==> CellIs(table, off, j, e)
  }

  ghost predicate CellIs(table: seq<Code>, off: nat, j: int, e: Code)
  {
    0 <= off + j < |table| && table[off + j] == e
  }

  ghost predicate SymbolDone(table: seq<Code>, lens: seq<nat>, typ: CodeType, root: nat, next: nat, curr: nat, low: int, s: nat)
    requires s < |lens| <= MostSymbols(typ)
  {
    if lens[s] <= root then RootDone(table, lens, typ, root, s) else SubDone(table, lens, typ, root, next, curr, low, s)
  }

  /** All codes before code c of length l are in the table. */
  ghost predicate Built(table: seq<Code>, lens: seq<nat>, typ: CodeType, root: nat, next: nat, curr: nat, low: int, c: nat,
                        l: nat)
  {
    && |lens| <= MostSymbols(typ) && 1 <= root <= MAXBITS && next + Pow2(curr) <= |table| && Pow2(root) <= next + Pow2(curr)
    && forall s :: Earlier(lens, s, c, l) ==> SymbolDone(table, lens, typ, root, next, curr, low, s)
  }

  /** t is s with e put at those of the 2^size entries at off whose index begins with the d bits x. */
  ghost predicate Replicated(s: seq<Code>, t: seq<Code>, off: nat, size: nat, d: nat, x: nat, e: Code)
  {
    && |t| == |s| && off + Pow2(size) <= |s|
    && (forall i :: 0 <= i < |s| && (i < off || off + Pow2(size) <= i) ==> t[i] == s[i])
    && forall j :: 0 <= j < Pow2(size) ==> CellIs(t, off, j, if Lo(j, d) == x then e else s[off + j])
  }

  lemma ReplicatedAt(s: seq<Code>, t: seq<Code>, off: nat, size: nat, d: nat, x: nat, e: Code, j: nat)
    requires Replicated(s, t, off, size, d, x, e) && j < Pow2(size)
    ensures off + j < |s| == |t| && t[off + j] == if Lo(j, d) == x then e else s[off + j]
  {
    hide Pow2, Lo;
    assert CellIs(t, off, j, if Lo(j, d) == x then e else s[off + j]);
  }

  // ----- writing a short code

  lemma RootKept(s0: seq<Code>, t: seq<Code>, lens: seq<nat>, typ: CodeType, root: nat, s: nat, c: nat, l: nat, e: Code)
    requires |lens| <= MostSymbols(typ) && Earlier(lens, s, c, l) && l <= root && FirstCode(lens, l) <= c < Pow2(l)
    requires RootDone(s0, lens, typ, root, s) && Replicated(s0, t, 0, root, l, Rev(c, l), e)
    ensures RootDone(t, lens, typ, root, s)
  {
    hide Lo, Hi, Rev, FirstCode, CodeOf, Pow2, Huff, Meaning;
    NoClash(lens, s, c, l);
    forall r | 0 <= r < Pow2(root) && Lo(r, lens[s]) == Huff(lens, s) ensures t[r] == Meaning(typ, s, lens[s]) {
      ModPow(r, lens[s], l);
      ReplicatedAt(s0, t, 0, root, l, Rev(c, l), e, r);
    }
  }

  lemma RootNew(s0: seq<Code>, t: seq<Code>, lens: seq<nat>, typ: CodeType, root: nat, s: nat)
    requires s < |lens| <= MostSymbols(typ) && 0 < lens[s] <= root
    requires Replicated(s0, t, 0, root, lens[s], Huff(lens, s), Meaning(typ, s, lens[s]))
    ensures RootDone(t, lens, typ, root, s)
  {
    hide Lo, Hi, Rev, FirstCode, CodeOf, Pow2, Huff, Meaning;
    forall r | 0 <= r < Pow2(root) && Lo(r, lens[s]) == Huff(lens, s) ensures t[r] == Meaning(typ, s, lens[s]) {
      ReplicatedAt(s0, t, 0, root, lens[s], Huff(lens, s), Meaning(typ, s, lens[s]), r);
    }
  }

  /** A code no longer than root goes into the root table. */
  lemma WroteRoot(s0: seq<Code>, t: seq<Code>, lens: seq<nat>, typ: CodeType, root: nat, c: nat, l: nat, sym: nat, low: int)
    requires Built(s0, lens, typ, root, 0, root, low, c, l) && 0 < l <= root && FirstCode(lens, l) <= c < Pow2(l)
    requires sym < |lens| && lens[sym] == l && CodeOf(lens, sym) == c
    requires Replicated(s0, t, 0, root, l, Rev(c, l), Meaning(typ, sym, l))
    ensures Built(t, lens, typ, root, 0, root, low, c + 1, l)
  {
    hide Lo, Hi, Rev, FirstCode, CodeOf, Pow2, RootDone, SubDone, Meaning;
    forall s | Earlier(lens, s, c + 1, l) ensures SymbolDone(t, lens, typ, root, 0, root, low, s) {
      if Earlier(lens, s, c, l) {
        RootKept(s0, t, lens, typ, root, s, c, l, Meaning(typ, sym, l));
      } else {
        SameCode(lens, s, sym);
        RootNew(s0, t, lens, typ, root, sym);
      }
    }
  }

  // ----- writing a long code

  lemma RootKeptBelow(s0: seq<Code>, t: seq<Code>, lens: seq<nat>, typ: CodeType, root: nat, s: nat)
    requires s < |lens| <= MostSymbols(typ) && RootDone(s0, lens, typ, root, s) && |t| == |s0|
    requires forall r :: 0 <= r < Pow2(root) ==> t[r] == s0[r]
    ensures RootDone(t, lens, typ, root, s)
  {
    hide Lo, Hi, Rev, FirstCode, CodeOf, Pow2, Huff, Meaning;
  }

  /** Two codes with the same first root bits, one earlier: their places in the sub-table differ. */
  lemma SubClash(lens: seq<nat>, s: nat, c: nat, l: nat, root: nat, j: nat)
    requires Earlier(lens, s, c, l) && FirstCode(lens, l) <= c < Pow2(l) && root < lens[s]
    requires Lo(Huff(lens, s), root) == Lo(Rev(c, l), root)
    requires Lo(j, l - root) == Hi(Rev(c, l), root)
    ensures Lo(j, lens[s] - root) != Hi(Huff(lens, s), root)
  {
    hide Lo, Hi, Rev, FirstCode, CodeOf, Pow2, Huff;
    var m, x := lens[s], Rev(c, l);
    NoClash(lens, s, c, l);
    if Lo(j, m - root) == Hi(Huff(lens, s), root) {
      ModPow(j, m - root, l - root);
      SplitMod(x, root, m);
      ModPow(x, root, m);
      // so x and the code of s agree on m bits
      SameParts(Lo(x, m), Huff(lens, s), root);
    }
  }

  lemma SameParts(x: nat, y: nat, n: nat)
    requires Lo(x, n) == Lo(y, n) && Hi(x, n) == Hi(y, n)
    ensures x == y
  {
    hide Pow2;
    var p := Pow2(n);
    assert x == p * (x / p) + x % p && y == p * (y / p) + y % p;
  }

  /** Entry e goes into the current sub-table, at off: a symbol done before is still done. */
  lemma SubKept(s0: seq<Code>, t: seq<Code>, lens: seq<nat>, typ: CodeType, root: nat, next: nat, curr: nat, low: nat, s: nat,
                c: nat, l: nat, e: Code)
    requires |lens| <= MostSymbols(typ) && Earlier(lens, s, c, l) && root < lens[s] && FirstCode(lens, l) <= c < Pow2(l)
    requires SubDone(s0, lens, typ, root, next, curr, low, s) && low == Lo(Rev(c, l), root)
    requires Pow2(root) <= next && Replicated(s0, t, next, curr, l - root, Hi(Rev(c, l), root), e)
    ensures SubDone(t, lens, typ, root, next, curr, low, s)
  {
    hide Lo, Hi, Rev, FirstCode, CodeOf, Pow2, Huff, Meaning;
    var r, m := Lo(Huff(lens, s), root), lens[s];
    ModBelow(Huff(lens, s), root);
    var x, f := Hi(Huff(lens, s), root), Meaning(typ, s, m - root);
    var off, size := s0[r].val, s0[r].op;
    forall j | 0 <= j < Pow2(size) && Lo(j, m - root) == x ensures CellIs(t, off, j, f) {
      assert CellIs(s0, off, j, f);
      if r == low {
        if Lo(j, l - root) == Hi(Rev(c, l), root) { SubClash(lens, s, c, l, root, j); }
        ReplicatedAt(s0, t, next, curr, l - root, Hi(Rev(c, l), root), e, j);
      }
    }
  }

  lemma ModBelow(x: nat, n: nat)
    ensures Lo(x, n) < Pow2(n)
  {
  }

  lemma SubNew(s0: seq<Code>, t: seq<Code>, lens: seq<nat>, typ: CodeType, root: nat, next: nat, curr: nat, low: nat, s: nat)
    requires s < |lens| <= MostSymbols(typ) && root < lens[s] <= root + curr && curr <= MAXBITS
    requires low == Lo(Huff(lens, s), root) && Pow2(root) <= next && low < |s0| && s0[low] == Code(curr, root, next)
    requires Replicated(s0, t, next, curr, lens[s] - root, Hi(Huff(lens, s), root), Meaning(typ, s, lens[s] - root))
    ensures SubDone(t, lens, typ, root, next, curr, low, s)
  {
    hide Lo, Hi, Rev, FirstCode, CodeOf, Pow2, Huff, Meaning;
    var x, f, d := Hi(Huff(lens, s), root), Meaning(typ, s, lens[s] - root), lens[s] - root;
    ModBelow(Huff(lens, s), root);
    forall j | 0 <= j < Pow2(curr) && Lo(j, d) == x ensures CellIs(t, next, j, f) {
      ReplicatedAt(s0, t, next, curr, d, x, f, j);
    }
  }

  /** A longer code goes into the current sub-table. */
  lemma WroteSub(s0: seq<Code>, t: seq<Code>, lens: seq<nat>, typ: CodeType, root: nat, next: nat, curr: nat, low: nat, c: nat,
                 l: nat, sym: nat)
    requires Built(s0, lens, typ, root, next, curr, low, c, l) && root < l <= root + curr && FirstCode(lens, l) <= c < Pow2(l)
    requires sym < |lens| && lens[sym] == l && CodeOf(lens, sym) == c && curr <= MAXBITS
    requires low == Lo(Rev(c, l), root) && Pow2(root) <= next && low < |s0| && s0[low] == Code(curr, root, next)
    requires Replicated(s0, t, next, curr, l - root, Hi(Rev(c, l), root), Meaning(typ, sym, l - root))
    ensures Built(t, lens, typ, root, next, curr, low, c + 1, l)
  {
    hide Lo, Hi, Rev, FirstCode, CodeOf, Pow2, RootDone, SubDone, Meaning;
    forall s | Earlier(lens, s, c + 1, l) ensures SymbolDone(t, lens, typ, root, next, curr, low, s) {
      if Earlier(lens, s, c, l) {
        if lens[s] <= root {
          RootKeptBelow(s0, t, lens, typ, root, s);
        } else {
          SubKept(s0, t, lens, typ, root, next, curr, low, s, c, l, Meaning(typ, sym, l - root));
        }
      } else {
        SameCode(lens, s, sym);
        SubNew(s0, t, lens, typ, root, next, curr, low, sym);
      }
    }
  }

  // ----- a new sub-table

  /** The first code of a new sub-table: no earlier code has its first root bits. */
  lemma NewBits(lens: seq<nat>, s: nat, c: nat, l: nat, root: nat)
    requires Earlier(lens, s, c, l) && FirstCode(lens, l) <= c < Pow2(l) && root < lens[s] && Lo(c, l - root) == 0
    ensures Lo(Huff(lens, s), root) != Lo(Rev(c, l), root)
  {
    hide Lo, Hi, Rev, FirstCode, CodeOf, Pow2;
    var m := lens[s];
    RevLow(c, root, l);
    RevLow(CodeOf(lens, s), root, m);
    EarlierBelow(lens, s, c, l);
    var x, y := Hi(c, l - root), Hi(CodeOf(lens, s), m - root);
    AlignedBelow(lens, s, c, l, root);
    HighBelow(c, root, l);
    if Rev(x, root) == Rev(y, root) { RevInjective(x, y, root); }
  }

  /** An earlier code is below the first bits of the later one. */
  lemma EarlierBelow(lens: seq<nat>, s: nat, c: nat, l: nat)
    requires Earlier(lens, s, c, l) && FirstCode(lens, l) <= c
    ensures CodeOf(lens, s) < Hi(c, l - lens[s])
  {
    hide Lo, Hi, Rev, FirstCode, CodeOf, Pow2;
    if lens[s] < l { PrefixFree(lens, s, c, l); } else { HighAll(c); }
  }

  lemma AlignedBelow(lens: seq<nat>, s: nat, c: nat, l: nat, root: nat)
    requires s < |lens| && root < lens[s] <= l && CodeOf(lens, s) < Hi(c, l - lens[s]) && Lo(c, l - root) == 0
    ensures Hi(CodeOf(lens, s), lens[s] - root) < Hi(c, l - root)
  {
    hide Rev, FirstCode, CodeOf, Pow2;
    var a, b, t := Pow2(lens[s] - root), Pow2(l - lens[s]), Hi(c, l - root);
    Pow2Add(lens[s] - root, l - lens[s]);
    assert c == (a * b) * t;
    assert (a * b) * t == b * (a * t) by { Rearranged3(a, b, t); }
    DivUnique(c, b, a * t, 0);
    CommuteTimes(a, t);
    QuotientBelow(CodeOf(lens, s), t, a);
  }

  lemma LinkKeepsRoot(s0: seq<Code>, t: seq<Code>, lens: seq<nat>, typ: CodeType, root: nat, s: nat, c: nat, l: nat, low: nat)
    requires |lens| <= MostSymbols(typ) && Earlier(lens, s, c, l) && FirstCode(lens, l) <= c < Pow2(l) && lens[s] <= root < l
    requires RootDone(s0, lens, typ, root, s) && low == Lo(Rev(c, l), root) && |t| == |s0|
    requires forall r :: 0 <= r < |s0| && r != low ==> t[r] == s0[r]
    ensures RootDone(t, lens, typ, root, s)
  {
    hide Lo, Hi, Rev, FirstCode, CodeOf, Pow2, Huff, Meaning;
    NoClash(lens, s, c, l);
    ModPow(Rev(c, l), lens[s], root);
  }

  lemma LinkKeepsSub(s0: seq<Code>, t: seq<Code>, lens: seq<nat>, typ: CodeType, root: nat, next: nat, curr: nat, low0: int,
                     s: nat, next': nat, curr': nat, low: nat)
    requires s < |lens| <= MostSymbols(typ) && root < lens[s] && SubDone(s0, lens, typ, root, next, curr, low0, s)
    requires next' == next + Pow2(curr) && |t| == |s0| && low < Pow2(root) && Lo(Huff(lens, s), root) != low
    requires forall r :: 0 <= r < |s0| && r != low ==> t[r] == s0[r]
    ensures SubDone(t, lens, typ, root, next', curr', low, s)
  {
    hide Lo, Hi, Rev, FirstCode, CodeOf, Pow2, Huff, Meaning;
    var r, m := Lo(Huff(lens, s), root), lens[s];
    var x, f := Hi(Huff(lens, s), root), Meaning(typ, s, m - root);
    var off, size := s0[r].val, s0[r].op;
    forall j | 0 <= j < Pow2(size) && Lo(j, m - root) == x ensures CellIs(t, off, j, f) {
      assert CellIs(s0, off, j, f);
    }
  }

  /** A link to a new sub-table past all others. */
  lemma Linked(s0: seq<Code>, t: seq<Code>, lens: seq<nat>, typ: CodeType, root: nat, next: nat, curr: nat, low0: int, c: nat,
               l: nat, next': nat, curr': nat, low: nat)
    requires Built(s0, lens, typ, root, next, curr, low0, c, l) && root < l && FirstCode(lens, l) <= c < Pow2(l)
    requires low == Lo(Rev(c, l), root) && Lo(c, l - root) == 0 && next' == next + Pow2(curr)
    requires next' + Pow2(curr') <= |s0| && t == s0[low := Code(curr', root, next')]
    ensures Built(t, lens, typ, root, next', curr', low, c, l) && t[low] == Code(curr', root, next')
  {
    hide Lo, Hi, Rev, FirstCode, CodeOf, Pow2, RootDone, SubDone, Meaning, Huff;
    ModBelow(Rev(c, l), root);
    forall s | Earlier(lens, s, c, l) ensures SymbolDone(t, lens, typ, root, next', curr', low, s) {
      assert SymbolDone(s0, lens, typ, root, next, curr, low0, s);
      if lens[s] <= root {
        LinkKeepsRoot(s0, t, lens, typ, root, s, c, l, low);
      } else {
        NewBits(lens, s, c, l, root);
        LinkKeepsSub(s0, t, lens, typ, root, next, curr, low0, s, next', curr', low);
      }
    }
  }

  // ----- looking up

  /** A symbol that is done is found, whatever follows its code. */
  lemma DoneFinds(table: seq<Code>, lens: seq<nat>, typ: CodeType, root: nat, next: nat, curr: nat, low: int, s: nat, h: nat)
    requires s < |lens| <= MostSymbols(typ) && SymbolDone(table, lens, typ, root, next, curr, low, s) && Spells(lens, h, s)
    ensures Finds(table, root, h, Meaning(typ, s, lens[s]))
  {
    hide Lo, Hi, Rev, FirstCode, CodeOf, Pow2, Meaning;
    var m, r := lens[s], Lo(h, root);
    ModBelow(h, root);
    if m <= root {
      ModPow(h, m, root);
      MeaningNoLink(typ, s, m);
      assert table[r] == Meaning(typ, s, m);
    } else {
      ModPow(h, root, m);
      SplitMod(h, root, m);
      var size, off := table[r].op, table[r].val;
      var j := Lo(Hi(h, root), size);
      ModBelow(Hi(h, root), size);
      ModPow(Hi(h, root), m - root, size);
      assert CellIs(table, off, j, Meaning(typ, s, m - root));
      SameMeaning(typ, s, m, root);
    }
  }

  lemma SameMeaning(typ: CodeType, s: nat, m: nat, root: nat)
    requires s < MostSymbols(typ) && root <= m
    ensures var e := Meaning(typ, s, m);
            Meaning(typ, s, m - root) == Code(e.op, e.bits - root, e.val) && e.bits == m
  {
  }
}
